/** Hashing a configuration module, and saving it to and loading it from its file. */
module ConfigFile {
  import opened Prelude
  import opened Words
  import opened ConfigTree
  import opened ConfigRoundTrip
  import opened Murmur3

  /* ---- The hash as text ---- */

  /** One upper-case hexadecimal digit. */
  function HexDigit(d: int): Byte
    requires 0 <= d < 16
  {
    if d < 10 then 48 + d else 55 + d
  }

  /** The value of a digit in either case. */
  function HexValue(b: Byte): Option<int>
  {
    if 48 <= b <= 57 then Some(b - 48)
    else if 65 <= b <= 70 then Some(b - 55)
    else if 97 <= b <= 102 then Some(b - 87)
    else None
  }

  /** The last n digits of w, as `%08lX` prints them for n == 8. */
  function Hex(w: nat, n: nat): (t: Text)
    ensures |t| == n
  {
    if n == 0 then [] else Hex(w / 16, n - 1) + [HexDigit(w % 16)]
  }

  function FormatHashStr(h: Lanes): Text
  {
    Hex(h.h0, 8) + Hex(h.h1, 8) + Hex(h.h2, 8) + Hex(h.h3, 8)
  }

  /** Up to n digits: the value read on from `acc`, and what is left of the text. */
  function Scan(t: Text, n: nat, acc: nat): (nat, Text)
    decreases n
  {
    if n == 0 || t == [] || HexValue(t[0]).None? then (acc, t)
    else Scan(t[1..], n - 1, 16 * acc + HexValue(t[0]).value)
  }

  /** One `%08lx`: at least one digit, at most eight. */
  function ScanWord(t: Text): Option<(Word, Text)>
  {
    var (w, rest) := Scan(t, 8, 0);
    if |rest| == |t| then None else Some((w % WRAP, rest))
  }

  /** `sscanf` into the four lanes: those before the first mismatch are overwritten. */
  function ParseHashStr(t: Text, old': Lanes): (Lanes, bool)
  {
    match ScanWord(t)
    case None => (old', false)
    case Some((h0, t1)) =>
      match ScanWord(t1)
      case None => (old'.(h0 := h0), false)
      case Some((h1, t2)) =>
        match ScanWord(t2)
        case None => (old'.(h0 := h0, h1 := h1), false)
        case Some((h2, t3)) =>
          match ScanWord(t3)
          case None => (old'.(h0 := h0, h1 := h1, h2 := h2), false)
          case Some((h3, _)) => (Lanes(h0, h1, h2, h3), true)
  }

  /** Digit d in either case. */
  predicate IsDigit(b: Byte, d: int)
  {
    0 <= d < 16 && (b == "0123456789ABCDEF"[d] as int || b == "0123456789abcdef"[d] as int)
  }

  lemma HexValueIsDigit(b: Byte)
    ensures forall d :: HexValue(b) == Some(d) <==> IsDigit(b, d)
  {
  }

  /** The number that a run of digits stands for, high digit first, read on from acc. */
  ghost predicate StandsFor(t: Text, acc: nat, value: nat)
    decreases |t|
  {
    if t == [] then value == acc
    else IsDigit(t[|t| - 1], value % 16) && StandsFor(t[..|t| - 1], acc, value / 16)
  }

  lemma {:induction false} ScanReads(t: Text, n: nat, acc: nat) returns (k: nat)
    ensures k <= n && k <= |t| && Scan(t, n, acc).1 == t[k..]
    ensures k == n || k == |t| || forall d :: !IsDigit(t[k], d)
    ensures StandsFor(t[..k], acc, Scan(t, n, acc).0)
    decreases n
  {
    k := 0;
    if n > 0 && t != [] {
      HexValueIsDigit(t[0]);
      if HexValue(t[0]).Some? {
        var acc' := 16 * acc + HexValue(t[0]).value;
        assert IsDigit(t[0], acc' - 16 * acc);
        assert Scan(t, n, acc) == Scan(t[1..], n - 1, acc');
        hide HexValue, IsDigit, StandsFor, Scan;
        var j := ScanReads(t[1..], n - 1, acc');
        k := j + 1;
        assert t[1..][j..] == t[k..];
        FirstDigit(t[..k], acc, acc', Scan(t, n, acc).0);
        assert t[..k][1..] == t[1..][..j];
      }
    }
  }

  lemma {:induction false} FirstDigit(t: Text, acc: nat, acc': nat, value: nat)
    requires t != [] && IsDigit(t[0], acc' - 16 * acc)
    ensures StandsFor(t, acc, value) <== StandsFor(t[1..], acc', value)
    decreases |t|
  {
    if |t| == 1 {
      assert t[..0] == [] && t[1..] == [];
    } else if StandsFor(t[1..], acc', value) {
      assert t[1..][..|t| - 2] == t[..|t| - 1][1..];
      FirstDigit(t[..|t| - 1], acc, acc', value / 16);
    }
  }

  /**
   * A word is read from as many digits as there are, in either case, but at most eight, and is the number
   * that they stand for; without a digit there is none.
   */
  lemma WordIsRead(t: Text) returns (k: nat)
    ensures k <= 8 && k <= |t| && (k == 8 || k == |t| || forall d :: !IsDigit(t[k], d))
    ensures k == 0 <==> ScanWord(t) == None
    ensures k > 0 ==> ScanWord(t).Some? && ScanWord(t).value.1 == t[k..] && StandsFor(t[..k], 0, ScanWord(t).value.0)
  {
    hide Scan, StandsFor, Pow2, IsDigit;
    k := ScanReads(t, 8, 0);
    EightDigits(t[..k], Scan(t, 8, 0).0);
    Pow2Values();
  }

  lemma {:induction false} EightDigits(t: Text, value: nat)
    requires StandsFor(t, 0, value)
    ensures value < Pow2(4 * |t|)
    ensures |t| <= 8 ==> value < Pow2(32)
    decreases |t|
  {
    if t != [] {
      hide Pow2, IsDigit;
      EightDigits(t[..|t| - 1], value / 16);
      Pow2ByFour(4 * |t|);
      if |t| <= 8 { Pow2Grows(4 * |t|, 32); }
    } else {
      Pow2Grows(0, 32);
    }
  }

  lemma Pow2ByFour(k: nat)
    requires k >= 4
    ensures Pow2(k) == 16 * Pow2(k - 4)
  {
    assert Pow2(k) == 2 * Pow2(k - 1) == 4 * Pow2(k - 2) == 8 * Pow2(k - 3) == 16 * Pow2(k - 4);
  }

  lemma {:induction false} Pow2Grows(j: nat, k: nat)
    requires j <= k
    ensures Pow2(j) <= Pow2(k)
    decreases k
  {
    if j < k { Pow2Grows(j, k - 1); }
  }

  /** The value of the last n digits of w, read on from acc. */
  function ReadOn(acc: nat, w: nat, n: nat): nat
  {
    if n == 0 then acc else 16 * ReadOn(acc, w / 16, n - 1) + w % 16
  }

  lemma {:induction false} ScanHex(w: nat, n: nat, k: nat, acc: nat, rest: Text)
    ensures Scan(Hex(w, n) + rest, n + k, acc) == Scan(rest, k, ReadOn(acc, w, n))
    decreases n
  {
    if n == 0 {
      assert Hex(w, 0) + rest == rest;
    } else {
      var digit := HexDigit(w % 16);
      assert Hex(w, n) + rest == Hex(w / 16, n - 1) + ([digit] + rest);
      ScanHex(w / 16, n - 1, k + 1, acc, [digit] + rest);
      assert ([digit] + rest)[1..] == rest;
      assert HexValue(digit) == Some(w % 16);
    }
  }

  lemma {:induction false} ReadOnFromZero(w: nat, n: nat)
    requires w < Pow2(4 * n)
    ensures ReadOn(0, w, n) == w
  {
    if n > 0 {
      Pow2ByFour(4 * n);
      ReadOnFromZero(w / 16, n - 1);
    }
  }

  lemma ScanWordOfHex(w: Word, rest: Text)
    ensures ScanWord(Hex(w, 8) + rest) == Some((w, rest))
  {
    hide Scan, Hex, ReadOn, Pow2;
    Pow2Values();
    ScanHex(w, 8, 0, 0, rest);
    ReadOnFromZero(w, 8);
    ScanNothing(rest, w);
  }

  lemma ScanNothing(rest: Text, acc: nat)
    ensures Scan(rest, 0, acc) == (acc, rest)
  {
  }

  /** The printed hash parses back to the hash. */
  lemma HashStrRoundTrip(h: Lanes, old': Lanes)
    ensures ParseHashStr(FormatHashStr(h), old') == (h, true)
  {
    hide Hex, ScanWord;
    var t3 := Hex(h.h3, 8) + [];
    var t2 := Hex(h.h2, 8) + t3;
    var t1 := Hex(h.h1, 8) + t2;
    assert FormatHashStr(h) == Hex(h.h0, 8) + t1;
    ScanWordOfHex(h.h0, t1);
    ScanWordOfHex(h.h1, t2);
    ScanWordOfHex(h.h2, t3);
    ScanWordOfHex(h.h3, []);
  }

  lemma {:induction false} HexAt(w: nat, n: nat, i: nat)
    requires i < n
    ensures Hex(w, n)[i] == "0123456789ABCDEF"[ShiftRight(w, 4 * (n - 1 - i)) % 16] as int
    decreases n
  {
    if i < n - 1 {
      var k := 4 * (n - 1 - i);
      HexAt(w / 16, n - 1, i);
      ShiftByFour(w, k);
      hide ShiftRight;
    }
  }

  lemma ShiftByFour(w: nat, k: nat)
    requires k >= 4
    ensures ShiftRight(w, k) == ShiftRight(w / 16, k - 4)
  {
    assert ShiftRight(w, k) == ShiftRight(w / 2, k - 1) == ShiftRight(w / 4, k - 2) == ShiftRight(w / 8, k - 3) == ShiftRight(w / 16, k - 4);
  }

  /** The printed hash is 32 digits, the digits of the four words in turn, in upper case, high digit first. */
  lemma FormatIsUpperHex(h: Lanes, j: nat)
    requires j < 32
    ensures |FormatHashStr(h)| == 32
    ensures var word := if j < 8 then h.h0 else if j < 16 then h.h1 else if j < 24 then h.h2 else h.h3;
            FormatHashStr(h)[j] == "0123456789ABCDEF"[ShiftRight(word, 4 * (7 - j % 8)) % 16] as int
  {
    var word := if j < 8 then h.h0 else if j < 16 then h.h1 else if j < 24 then h.h2 else h.h3;
    hide Hex, ShiftRight;
    HexAt(word, 8, j % 8);
  }

  /* ---- The hash of a module ---- */

  /** The four bytes of an int32, two's complement, low byte first. */
  function IntBytes(i: int): seq<Byte>
  {
    var w := i % WRAP;
    [w % 256, (w / 0x100) % 256, (w / 0x1_0000) % 256, (w / 0x100_0000) % 256]
  }

  /** The bytes that hashing a node feeds in: values of leaves, names of objects. `doubleBytes` is the machine's. */
  function HashBytes(node: Node, m: Memory, doubleBytes: real -> seq<Byte>): seq<Byte>
    decreases node, 1
  {
    match node
    case IntNode(_, r, _, _, _) => IntBytes(IntAt(m, r))
    case BoolNode(_, r, _) => [if BoolAt(m, r) then 1 else 0]
    case FloatNode(_, r, _, _, _) => doubleBytes(FloatAt(m, r))
    case TextNode(_, r, _, _) => TextAt(m, r)
    case EnumNode(_, r, _, enums) =>
      var t := EnumName(enums, IntAt(m, r));
      if t.Some? then t.value else []
    case ObjectNode(name, children, _) => name + HashBytesAll(children, m, doubleBytes)
  }

  function HashBytesAll(children: seq<Node>, m: Memory, doubleBytes: real -> seq<Byte>): seq<Byte>
    decreases children, 0
  {
    if children == [] then [] else HashBytes(children[0], m, doubleBytes) + HashBytesAll(children[1..], m, doubleBytes)
  }

  function ModuleHash(node: Node, m: Memory, doubleBytes: real -> seq<Byte>): Lanes
  {
    Hash(0, HashBytes(node, m, doubleBytes))
  }

  ghost predicate AgreeOn(landings: set<(Addr, Addr)>, m: Memory, m': Memory)
  {
    forall x :: x in landings ==> x.1 in m && x.1 in m' && m[x.1] == m'[x.1]
  }

  /** The hashed bytes depend on names and on the settings only. */
  lemma {:induction false} SameSettingsSameBytes(node: Node, m: Memory, m': Memory, doubleBytes: real -> seq<Byte>)
    requires AgreeOn(Landings(node), m, m')
    ensures HashBytes(node, m, doubleBytes) == HashBytes(node, m', doubleBytes)
    decreases node, 1
  {
    if node.ObjectNode? {
      forall x | x in LandingsAll(node.children) ensures x.1 in m && x.1 in m' && m[x.1] == m'[x.1] {
        if node.hooks.Shadowed? { assert (x.1, x.1) in Landings(node); }
      }
      SameSettingsSameBytesAll(node.children, m, m', doubleBytes);
    } else {
      assert (node.write, node.read) in Landings(node);
    }
  }

  lemma {:induction false} SameSettingsSameBytesAll(children: seq<Node>, m: Memory, m': Memory, doubleBytes: real -> seq<Byte>)
    requires AgreeOn(LandingsAll(children), m, m')
    ensures HashBytesAll(children, m, doubleBytes) == HashBytesAll(children, m', doubleBytes)
    decreases children, 0
  {
    if children != [] {
      SameSettingsSameBytes(children[0], m, m', doubleBytes);
      SameSettingsSameBytesAll(children[1..], m, m', doubleBytes);
    }
  }

  lemma TwoTexts(node: Node, m: Memory, doubleBytes: real -> seq<Byte>)
    requires node == ObjectNode([109], [TextNode([97], 0, 0, 0), TextNode([98], 1, 1, 0)], NoHooks)
    ensures HashBytes(node, m, doubleBytes) == [109] + TextAt(m, 0) + TextAt(m, 1)
  {
  }

  /** No separator is hashed between leaves: text moving from one setting to the next goes unnoticed. */
  lemma BoundaryBlindSpot(doubleBytes: real -> seq<Byte>)
    ensures var node := ObjectNode([109], [TextNode([97], 0, 0, 0), TextNode([98], 1, 1, 0)], NoHooks);
            var m, m' := map[0 := TextV([120, 121]), 1 := TextV([])], map[0 := TextV([120]), 1 := TextV([121])];
            m != m' && ModuleHash(node, m, doubleBytes) == ModuleHash(node, m', doubleBytes)
  {
    hide Hash, HashBytes;
    var node := ObjectNode([109], [TextNode([97], 0, 0, 0), TextNode([98], 1, 1, 0)], NoHooks);
    var m, m' := map[0 := TextV([120, 121]), 1 := TextV([])], map[0 := TextV([120]), 1 := TextV([121])];
    assert m[0] != m'[0];
    TwoTexts(node, m, doubleBytes);
    TwoTexts(node, m', doubleBytes);
    assert [109] + TextAt(m, 0) + TextAt(m, 1) == [109, 120, 121] == [109] + TextAt(m', 0) + TextAt(m', 1);
  }

  /* ---- Saving and loading, as values ---- */

  const VERSION_KEY: Text := [118, 101, 114, 115, 105, 111, 110]
  const HASH_KEY: Text := [104, 97, 115, 104]
  const VERSION: int := 1

  /** A module's settings and the four hashes of its descriptor. */
  datatype Desc = Desc(settings: Memory, hash: Lanes, syncHash: Lanes, fileHash: Lanes, fileSyncHash: Lanes)

  /** What a save writes. */
  function FileOf(node: Node, d: Desc): Json
  {
    JObject([Field(VERSION_KEY, JNumber(VERSION as real)), Field(HASH_KEY, JString(FormatHashStr(d.syncHash)))]
            + Wrote(node, d.settings).0)
  }

  /** Nothing to save. */
  predicate UpToDate(d: Desc)
  {
    d.hash == d.fileHash && d.syncHash == d.fileSyncHash
  }

  /** One field of the file: version, sync hash and the module itself, in this order and nothing more. */
  function LoadedField(f: Field, position: nat, node: Node, d: Desc, doubleBytes: real -> seq<Byte>): (Desc, Status)
  {
    if position == 0 then
      (d, if f.name == VERSION_KEY && f.value.JNumber? && ToInt(f.value.n) == VERSION then OK else EINVAL)
    else if position == 1 then
      if f.name != HASH_KEY || !f.value.JString? then (d, EINVAL)
      else
        var (h, ok) := ParseHashStr(f.value.t, d.fileSyncHash);
        (d.(fileSyncHash := h), if ok then OK else EINVAL)
    else if position == 2 then
      if f.name != node.name || !f.value.JObject? then (d, EINVAL)
      else
        var (m, st) := Processed(f.value, node, d.settings);
        if st != OK then (d.(settings := m), st)
        else
          var h := ModuleHash(node, m, doubleBytes);
          (d.(settings := m, fileHash := h, hash := h, syncHash := d.fileSyncHash), OK)
    else (d, EINVAL)
  }

  function LoadedFields(fields: seq<Field>, position: nat, node: Node, d: Desc, doubleBytes: real -> seq<Byte>): (Desc, Status)
    decreases |fields|
  {
    if fields == [] then (d, OK)
    else
      var (d', st) := LoadedField(fields[0], position, node, d, doubleBytes);
      if st != OK then (d', st) else LoadedFields(fields[1..], position + 1, node, d', doubleBytes)
  }

  /** A file that is not an object changes nothing and is no error. */
  function Loaded(file: Json, node: Node, d: Desc, doubleBytes: real -> seq<Byte>): (Desc, Status)
  {
    if file.JObject? then LoadedFields(file.fields, 0, node, d, doubleBytes) else (d, OK)
  }

  predicate SameHashes(d: Desc, e: Desc)
  {
    d.hash == e.hash && d.syncHash == e.syncHash && d.fileHash == e.fileHash
  }

  lemma LoadsModule(f: seq<Field>, node: Node, d: Desc, doubleBytes: real -> seq<Byte>)
    ensures var (d', st) := LoadedFields(f, 2, node, d, doubleBytes);
            && (st == OK <==>
                  |f| <= 1
                  && (|f| > 0 ==> f[0].name == node.name && f[0].value.JObject? && Processed(f[0].value, node, d.settings).1 == OK))
            && (|f| == 0 ==> d' == d)
            && (|f| == 1 && st != OK ==> SameHashes(d', d))
  {
    hide Processed, ModuleHash, ParseHashStr;
    if |f| > 0 {
      var (d', st) := LoadedField(f[0], 2, node, d, doubleBytes);
      LoadsNothingMore(f[1..], node, d', doubleBytes);
    }
  }

  lemma LoadsNothingMore(f: seq<Field>, node: Node, d: Desc, doubleBytes: real -> seq<Byte>)
    ensures LoadedFields(f, 3, node, d, doubleBytes) == (d, if f == [] then OK else EINVAL)
  {
  }

  lemma LoadsHash(f: seq<Field>, node: Node, d: Desc, doubleBytes: real -> seq<Byte>)
    ensures var (d', st) := LoadedFields(f, 1, node, d, doubleBytes);
            && (st == OK <==>
                  |f| <= 2
                  && (|f| > 0 ==> f[0].name == HASH_KEY && f[0].value.JString? && ParseHashStr(f[0].value.t, d.fileSyncHash).1)
                  && (|f| > 1 ==> f[1].name == node.name && f[1].value.JObject? && Processed(f[1].value, node, d.settings).1 == OK))
            && (|f| <= 1 ==> SameHashes(d', d) && d'.settings == d.settings)
            && (|f| == 2 && st != OK ==> SameHashes(d', d))
  {
    hide Processed, ModuleHash, ParseHashStr;
    if |f| > 0 {
      var (d', st) := LoadedField(f[0], 1, node, d, doubleBytes);
      hide LoadedField;
      LoadsModule(f[1..], node, d', doubleBytes);
    }
  }

  /**
   * A file is loaded without an error exactly if it is not an object, or has no more than these fields, in
   * this order: version 1, the sync hash, and the module, all of whose fields take effect. An error in one
   * of these three leaves the hashes of the module as they were, and before the third its settings too.
   */
  lemma LoadsExactly(file: Json, node: Node, d: Desc, doubleBytes: real -> seq<Byte>)
    ensures var (d', st) := Loaded(file, node, d, doubleBytes);
            && (!file.JObject? ==> d' == d && st == OK)
            && (file.JObject? ==>
                  var f := file.fields;
                  && (st == OK <==>
                        |f| <= 3
                        && (|f| > 0 ==> f[0].name == VERSION_KEY && f[0].value.JNumber? && 1.0 <= f[0].value.n < 2.0)
                        && (|f| > 1 ==> f[1].name == HASH_KEY && f[1].value.JString? && ParseHashStr(f[1].value.t, d.fileSyncHash).1)
                        && (|f| > 2 ==> f[2].name == node.name && f[2].value.JObject? && Processed(f[2].value, node, d.settings).1 == OK))
                  && (|f| <= 2 ==> d'.settings == d.settings && SameHashes(d', d))
                  && (|f| == 3 && st != OK ==> SameHashes(d', d)))
  {
    if file.JObject? && |file.fields| > 0 {
      var f := file.fields;
      assert f[0].value.JNumber? ==> (ToInt(f[0].value.n) == 1 <==> 1.0 <= f[0].value.n < 2.0);
      var (d1, st) := LoadedField(f[0], 0, node, d, doubleBytes);
      assert d1 == d;
      hide Processed, ModuleHash, ParseHashStr, ToInt;
      assert st == OK <==> f[0].name == VERSION_KEY && f[0].value.JNumber? && 1.0 <= f[0].value.n < 2.0;
      hide LoadedField, SameHashes;
      LoadsHash(f[1..], node, d, doubleBytes);
      assert SameHashes(d, d) by { NoChange(d); }
    }
  }

  lemma NoChange(d: Desc)
    ensures SameHashes(d, d)
  {
  }

  /**
   * Saving a module and loading the file into any other state of it restores every setting, the hash
   * and the sync hash. The next save has nothing to do, and a module in sync is still in sync.
   */
  lemma SaveThenLoad(node: Node, d: Desc, e: Desc, doubleBytes: real -> seq<Byte>)
    requires node.ObjectNode? && SelfContained(node) && Storable(node, d.settings)
    requires d.hash == ModuleHash(node, d.settings, doubleBytes)
    ensures var (e', st) := Loaded(FileOf(node, d), node, e, doubleBytes);
            && st == OK
            && SameSettings(node, d.settings, e'.settings)
            && e'.hash == d.hash && e'.syncHash == d.syncHash
            && UpToDate(e')
            && (e'.hash == e'.syncHash <==> d.hash == d.syncHash)
  {
    var tree := Wrote(node, d.settings).0;
    WriteThenProcess(node, d.settings, e.settings);
    HashStrRoundTrip(d.syncHash, e.fileSyncHash);
    var m := Processed(tree[0].value, node, e.settings).0;
    AgreementIsSameSettings(node, d.settings, m);
    SameSettingsSameBytes(node, d.settings, m, doubleBytes);
    LoadingThreeFields(node, d, e, tree[0].value, doubleBytes);
  }

  /**
   * Whatever the settings: saving does not notice an enumeration setting without a listed value, and
   * loading restores the others and leaves that one as the loading module has it. Everything else
   * ends up consistent: the hash is that of the settings loaded, and the next save has nothing to do.
   */
  lemma SaveThenLoadWritten(node: Node, d: Desc, e: Desc, doubleBytes: real -> seq<Byte>)
    requires node.ObjectNode? && SelfContained(node) && Writable(node, d.settings)
    ensures var (e', st) := Loaded(FileOf(node, d), node, e, doubleBytes);
            && st == OK
            && Landed(e'.settings, d.settings, Written(node, d.settings))
            && Kept(e.settings, e'.settings, Lost(node, d.settings))
            && e'.hash == ModuleHash(node, e'.settings, doubleBytes) && e'.syncHash == d.syncHash
            && UpToDate(e')
  {
    var tree := Wrote(node, d.settings).0;
    WhatIsWrittenIsRestored(node, d.settings, e.settings);
    HashStrRoundTrip(d.syncHash, e.fileSyncHash);
    hide Wrote, Processed, ParseHashStr, FormatHashStr, ModuleHash, Landed, Kept, Written, Lost, SelfContained, Writable;
    LoadingThreeFields(node, d, e, tree[0].value, doubleBytes);
  }

  lemma AgreementIsSameSettings(node: Node, m: Memory, m': Memory)
    requires SameSettings(node, m, m')
    ensures AgreeOn(Landings(node), m, m')
  {
  }

  lemma LoadingThreeFields(node: Node, d: Desc, e: Desc, tree: Json, doubleBytes: real -> seq<Byte>)
    requires Wrote(node, d.settings).0 == [Field(node.name, tree)] && tree.JObject?
    requires Processed(tree, node, e.settings).1 == OK
    requires ParseHashStr(FormatHashStr(d.syncHash), e.fileSyncHash) == (d.syncHash, true)
    ensures var m := Processed(tree, node, e.settings).0;
            var h := ModuleHash(node, m, doubleBytes);
            Loaded(FileOf(node, d), node, e, doubleBytes) == (Desc(m, h, d.syncHash, h, d.syncHash), OK)
  {
    hide Processed, ModuleHash, ParseHashStr, FormatHashStr, Wrote;
    var fields := FileOf(node, d).fields;
    var version, hash, module' := fields[0], fields[1], fields[2];
    assert fields == [version, hash, module'];
    assert fields[1..] == [hash, module'] && [hash, module'][1..] == [module'] && [module'][1..] == [];
    assert ToInt(1.0) == 1;
    var e1 := e.(fileSyncHash := d.syncHash);
    assert LoadedField(version, 0, node, e, doubleBytes) == (e, OK);
    assert LoadedField(hash, 1, node, e, doubleBytes) == (e1, OK);
    var (e2, st) := LoadedField(module', 2, node, e1, doubleBytes);
    assert LoadedFields([], 3, node, e2, doubleBytes) == (e2, OK);
    assert LoadedFields([module'], 2, node, e1, doubleBytes) == (e2, OK);
    assert LoadedFields([hash, module'], 1, node, e, doubleBytes) == (e2, OK);
  }
}
