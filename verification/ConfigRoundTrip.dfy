/** Writing a configuration tree and processing what was written restores every setting. */
module ConfigRoundTrip {
  import opened Prelude
  import opened Words
  import opened ConfigTree
  import opened ConfigWriting

  function Block(base: Addr, length: nat): set<Addr>
  {
    set a: Addr | base <= a < base + length && InBlock(a, base, length)
  }

  /** Every cell that processing a node may change. */
  function Touched(node: Node): set<Addr>
    decreases node, 1
  {
    match node
    case ObjectNode(_, children, h) => HookCells(h) + TouchedAll(children)
    case _ => {node.write}
  }

  function HookCells(h: Hooks): set<Addr>
  {
    match h
    case NoHooks => {}
    case Shadowed(p, s, n, _) => Block(p, n) + Block(s, n)
  }

  function TouchedAll(children: seq<Node>): set<Addr>
    decreases children, 0
  {
    if children == [] then {} else Touched(children[0]) + TouchedAll(children[1..])
  }

  /** Pairs (landing, origin): a setting read at `origin` when written ends up at `landing` when processed. */
  function Landings(node: Node): set<(Addr, Addr)>
    decreases node, 1
  {
    match node
    case ObjectNode(_, children, NoHooks) => LandingsAll(children)
    case ObjectNode(_, children, Shadowed(_, _, _, _)) => set x | x in LandingsAll(children) :: (x.1, x.1)
    case _ => {(node.write, node.read)}
  }

  function LandingsAll(children: seq<Node>): set<(Addr, Addr)>
    decreases children, 0
  {
    if children == [] then {} else Landings(children[0]) + LandingsAll(children[1..])
  }

  /** A setting inside a shadowed object goes through the shadow, or straight to a cell of its own. */
  ghost predicate GoesThrough(h: Hooks, x: (Addr, Addr))
    requires h.Shadowed?
  {
    || (InBlock(x.1, h.primary, h.length) && x.0 == x.1 - h.primary + h.shadow)
    || (x.0 == x.1 && !InBlock(x.1, h.primary, h.length))
  }

  ghost predicate GoodHooks(h: Hooks, children: seq<Node>)
  {
    h.Shadowed? ==>
      && (h.primary + h.length <= h.shadow || h.shadow + h.length <= h.primary)
      && (forall x :: x in LandingsAll(children) ==> GoesThrough(h, x))
      && (h.guard.AtMost? ==>
            (ShadowOf(h, h.guard.lo), h.guard.lo) in LandingsAll(children)
            && (ShadowOf(h, h.guard.hi), h.guard.hi) in LandingsAll(children))
  }

  ghost predicate DistinctEnums(enums: seq<(Text, int)>)
  {
    forall i, j :: 0 <= i < j < |enums| ==> enums[i].0 != enums[j].0
  }

  /** What a tree's designer has to see to: distinct names, separate cells, shadows that cover the shadowed settings. */
  ghost predicate Good(node: Node)
    decreases node
  {
    match node
    case EnumNode(_, _, _, enums) => DistinctEnums(enums)
    case ObjectNode(_, children, h) =>
      && (forall i :: 0 <= i < |children| ==> Good(children[i]))
      && GoodSiblings(children)
      && GoodHooks(h, children)
    case _ => true
  }

  ghost predicate DistinctNames(children: seq<Node>)
  {
    forall i, j :: 0 <= i < j < |children| ==> children[i].name != children[j].name
  }

  ghost predicate GoodSiblings(children: seq<Node>)
  {
    && DistinctNames(children)
    && forall i, j :: 0 <= i < j < |children| ==> Touched(children[i]) !! Touched(children[j])
  }

  /** The settings are there and within what processing accepts. */
  ghost predicate Storable(node: Node, m: Memory)
    decreases node
  {
    match node
    case IntNode(_, r, _, lo, hi) =>
      r in m && m[r].IntV? && lo <= m[r].i <= hi && INT32_MIN <= m[r].i <= INT32_MAX
    case BoolNode(_, r, _) => r in m && m[r].BoolV?
    case FloatNode(_, r, _, lo, hi) => r in m && m[r].FloatV? && FloatInRange(lo, hi, m[r].r) && Printed(m[r].r) == m[r].r
    case TextNode(_, r, _, size) => r in m && m[r].TextV? && TextFits(size, m[r].t)
    case EnumNode(_, r, _, enums) => r in m && m[r].IntV? && EnumName(enums, m[r].i).Some?
    case ObjectNode(_, children, h) =>
      && (forall i :: 0 <= i < |children| ==> Storable(children[i], m))
      && (h.Shadowed? && h.guard.AtMost? ==> IntAt(m, h.guard.lo) <= IntAt(m, h.guard.hi))
  }

  /** The landings of the settings that writing from `src` includes. */
  function Written(node: Node, src: Memory): set<(Addr, Addr)>
    decreases node, 1
  {
    match node
    case ObjectNode(_, children, NoHooks) => WrittenAll(children, src)
    case ObjectNode(_, children, Shadowed(_, _, _, _)) => set x | x in WrittenAll(children, src) :: (x.1, x.1)
    case _ => if Readable(node, src) then {(node.write, node.read)} else {}
  }

  function WrittenAll(children: seq<Node>, src: Memory): set<(Addr, Addr)>
    decreases children, 0
  {
    if children == [] then {} else Written(children[0], src) + WrittenAll(children[1..], src)
  }

  /** The landings of the settings that writing from `src` leaves out; those kept in a shadow itself do not count. */
  function Lost(node: Node, src: Memory): set<(Addr, Addr)>
    decreases node, 1
  {
    match node
    case ObjectNode(_, children, NoHooks) => LostAll(children, src)
    case ObjectNode(_, children, Shadowed(_, s, n, _)) =>
      set x | x in LostAll(children, src) && !InBlock(x.1, s, n) :: (x.1, x.1)
    case _ => if Readable(node, src) then {} else {(node.write, node.read)}
  }

  function LostAll(children: seq<Node>, src: Memory): set<(Addr, Addr)>
    decreases children, 0
  {
    if children == [] then {} else Lost(children[0], src) + LostAll(children[1..], src)
  }

  /** As Storable, but enumeration settings may hold unlisted values, if no guard looks at them. */
  ghost predicate Writable(node: Node, m: Memory)
    decreases node
  {
    match node
    case EnumNode(_, r, _, enums) => r in m && m[r].IntV?
    case ObjectNode(_, children, h) =>
      && (forall i :: 0 <= i < |children| ==> Writable(children[i], m))
      && (h.Shadowed? && h.guard.AtMost? ==>
            && (ShadowOf(h, h.guard.lo), h.guard.lo) in WrittenAll(children, m)
            && (ShadowOf(h, h.guard.hi), h.guard.hi) in WrittenAll(children, m)
            && IntAt(m, h.guard.lo) <= IntAt(m, h.guard.hi))
    case _ => Storable(node, m)
  }

  ghost predicate SameOutside(m: Memory, m': Memory, cells: set<Addr>)
  {
    forall a: Addr :: a !in cells ==> (a in m' <==> a in m) && (a in m ==> m'[a] == m[a])
  }

  ghost predicate Landed(m: Memory, src: Memory, landings: set<(Addr, Addr)>)
  {
    forall x :: x in landings ==> x.0 in m && x.1 in src && m[x.0] == src[x.1]
  }

  /* ---- Lookups ---- */

  lemma {:induction false} EnumRoundTrip(enums: seq<(Text, int)>, v: int)
    requires DistinctEnums(enums) && EnumName(enums, v).Some?
    ensures EnumValue(enums, EnumName(enums, v).value) == Some(v)
    ensures exists k :: 0 <= k < |enums| && enums[k].0 == EnumName(enums, v).value
  {
    if enums[0].1 != v {
      EnumRoundTrip(enums[1..], v);
      var k :| 0 <= k < |enums[1..]| && enums[1..][k].0 == EnumName(enums[1..], v).value;
      assert enums[k + 1].0 == EnumName(enums, v).value;
    } else {
      assert enums[0].0 == EnumName(enums, v).value;
    }
  }

  lemma {:induction false} ChildByName(children: seq<Node>, i: nat)
    requires DistinctNames(children) && i < |children|
    ensures Child(children, children[i].name) == Some(children[i])
  {
    if i > 0 {
      assert children[1..][i - 1] == children[i];
      ChildByName(children[1..], i - 1);
    }
  }

  lemma IntPrints(i: int)
    requires INT32_MIN <= i <= INT32_MAX
    ensures ToInt(i as real) == i
  {
  }

  /* ---- Sets of cells ---- */

  lemma {:induction false} MembersTouched(children: seq<Node>, i: nat)
    requires i < |children|
    ensures Touched(children[i]) <= TouchedAll(children)
    ensures Landings(children[i]) <= LandingsAll(children)
  {
    if i > 0 {
      assert children[1..][i - 1] == children[i];
      MembersTouched(children[1..], i - 1);
    }
  }

  lemma {:induction false} TouchedIsUnion(children: seq<Node>, a: Addr)
    requires a in TouchedAll(children)
    ensures exists i :: 0 <= i < |children| && a in Touched(children[i])
  {
    if a in Touched(children[0]) {
    } else {
      TouchedIsUnion(children[1..], a);
      var i :| 0 <= i < |children[1..]| && a in Touched(children[1..][i]);
      assert a in Touched(children[i + 1]);
    }
  }

  lemma {:induction false} LandingsIsUnion(children: seq<Node>, x: (Addr, Addr))
    requires x in LandingsAll(children)
    ensures exists i :: 0 <= i < |children| && x in Landings(children[i])
  {
    if x in Landings(children[0]) {
    } else {
      LandingsIsUnion(children[1..], x);
      var i :| 0 <= i < |children[1..]| && x in Landings(children[1..][i]);
      assert x in Landings(children[i + 1]);
    }
  }

  /** Settings land in cells that their node touches. */
  lemma {:induction false} LandingIsTouched(node: Node, x: (Addr, Addr))
    requires Good(node) && x in Landings(node)
    ensures x.0 in Touched(node)
    decreases node
  {
    if node.ObjectNode? {
      var children := node.children;
      if node.hooks.NoHooks? {
        LandingsIsUnion(children, x);
        var i :| 0 <= i < |children| && x in Landings(children[i]);
        LandingIsTouched(children[i], x);
        MembersTouched(children, i);
      } else {
        var y :| y in LandingsAll(children) && x == (y.1, y.1);
        LandingsIsUnion(children, y);
        var i :| 0 <= i < |children| && y in Landings(children[i]);
        LandingIsTouched(children[i], y);
        MembersTouched(children, i);
        assert GoesThrough(node.hooks, y);
      }
    }
  }

  /* ---- Processing touches nothing else, whatever the JSON and whatever the outcome ---- */

  lemma {:induction false} ChildIsMember(children: seq<Node>, name: Text) returns (i: nat)
    requires Child(children, name).Some?
    ensures i < |children| && children[i] == Child(children, name).value && children[i].name == name
  {
    if children[0].name == name {
      i := 0;
    } else {
      var k := ChildIsMember(children[1..], name);
      i := k + 1;
    }
  }

  lemma {:induction false} ProcessedTouches(json: Json, node: Node, m: Memory)
    ensures SameOutside(m, Processed(json, node, m).0, Touched(node))
    decreases json, 1
  {
    if json.JObject? && node.ObjectNode? {
      var h, m1 := node.hooks, Entered(node.hooks, m);
      var (m2, st) := ProcessedFields(json.fields, node.children, m1);
      ProcessedFieldsTouches(json.fields, node.children, m1);
      HooksTouch(h, m, OK);
      HooksTouch(h, m2, st);
      hide SameOutside, HookCells, TouchedAll, Exited, Entered;
      ThreeSteps(m, m1, m2, Exited(h, m2, st).0, HookCells(h), TouchedAll(node.children));
    }
  }

  lemma HooksTouch(h: Hooks, m: Memory, st: Status)
    ensures SameOutside(m, Entered(h, m), HookCells(h))
    ensures SameOutside(m, Exited(h, m, st).0, HookCells(h))
  {
  }

  lemma ThreeSteps(m: Memory, m1: Memory, m2: Memory, m3: Memory, hooks: set<Addr>, cells: set<Addr>)
    requires SameOutside(m, m1, hooks) && SameOutside(m1, m2, cells) && SameOutside(m2, m3, hooks)
    ensures SameOutside(m, m3, hooks + cells)
  {
  }

  lemma {:induction false} ProcessedFieldsTouches(fields: seq<Field>, children: seq<Node>, m: Memory)
    ensures SameOutside(m, ProcessedFields(fields, children, m).0, TouchedAll(children))
    decreases fields, 0
  {
    if fields != [] {
      var child := Child(children, fields[0].name);
      if child.None? {
        ProcessedFieldsTouches(fields[1..], children, m);
      } else {
        var i := ChildIsMember(children, fields[0].name);
        MembersTouched(children, i);
        ProcessedTouches(fields[0].value, child.value, m);
        ProcessedFieldsTouches(fields[1..], children, Processed(fields[0].value, child.value, m).0);
      }
    }
  }

  /* ---- Written and lost settings ---- */

  lemma {:induction false} PartsOfLandings(node: Node, src: Memory)
    ensures Written(node, src) <= Landings(node) && Lost(node, src) <= Landings(node)
    decreases node, 1
  {
    if node.ObjectNode? {
      PartsOfLandingsAll(node.children, src);
    }
  }

  lemma {:induction false} PartsOfLandingsAll(children: seq<Node>, src: Memory)
    ensures WrittenAll(children, src) <= LandingsAll(children) && LostAll(children, src) <= LandingsAll(children)
    decreases children, 0
  {
    if children != [] {
      PartsOfLandings(children[0], src);
      PartsOfLandingsAll(children[1..], src);
    }
  }

  /** Everything readable, everything is written. */
  lemma {:induction false} AllReadableIsAllWritten(node: Node, src: Memory)
    requires AllReadable(node, src)
    ensures Written(node, src) == Landings(node) && Lost(node, src) == {}
    decreases node, 1
  {
    if node.ObjectNode? {
      AllReadableIsAllWrittenAll(node.children, src);
    }
  }

  lemma {:induction false} AllReadableIsAllWrittenAll(children: seq<Node>, src: Memory)
    requires forall i :: 0 <= i < |children| ==> AllReadable(children[i], src)
    ensures WrittenAll(children, src) == LandingsAll(children) && LostAll(children, src) == {}
    decreases children, 0
  {
    if children != [] {
      AllReadableIsAllWritten(children[0], src);
      AllReadableIsAllWrittenAll(children[1..], src);
    }
  }

  lemma {:induction false} StorableIsReadable(node: Node, m: Memory)
    requires Storable(node, m)
    ensures AllReadable(node, m) && LastReadable(node, m)
    decreases node
  {
    if node.ObjectNode? {
      forall i | 0 <= i < |node.children| ensures AllReadable(node.children[i], m) && LastReadable(node.children[i], m) {
        StorableIsReadable(node.children[i], m);
      }
    }
  }

  lemma {:induction false} StorableIsWritable(node: Node, m: Memory)
    requires Good(node) && Storable(node, m)
    ensures Writable(node, m)
    decreases node
  {
    if node.ObjectNode? {
      forall i | 0 <= i < |node.children| ensures Writable(node.children[i], m) && AllReadable(node.children[i], m) {
        StorableIsWritable(node.children[i], m);
        StorableIsReadable(node.children[i], m);
      }
      AllReadableIsAllWrittenAll(node.children, m);
    }
  }

  /* ---- The round trip ---- */

  /** Processing what a node wrote: one value, or nothing at all. */
  function Applied(fields: seq<Field>, node: Node, m: Memory): (Memory, Status)
  {
    if fields == [] then (m, OK) else Processed(fields[0].value, node, m)
  }

  /** What the left-out settings had before, they still have. */
  ghost predicate Kept(m: Memory, m': Memory, lost: set<(Addr, Addr)>)
  {
    forall x :: x in lost && x.0 in m ==> x.0 in m' && m'[x.0] == m[x.0]
  }

  /** A node writes at most one field, of its name; processing it restores what was written from `src` and keeps the rest. */
  ghost predicate Restores(node: Node, src: Memory, m: Memory)
  {
    var fields := Wrote(node, src).0;
    && |fields| <= 1 && (fields != [] ==> fields[0].name == node.name)
    && var (m', st) := Applied(fields, node, m);
    && st == OK && Landed(m', src, Written(node, src)) && Kept(m, m', Lost(node, src))
  }

  /** The same for children i and up, processed among all their siblings. */
  ghost predicate RestoresFrom(children: seq<Node>, i: nat, src: Memory, m: Memory)
    requires i <= |children|
  {
    var (m', st) := ProcessedFields(WroteChildren(children[i..], src).0, children, m);
    && st == OK
    && Landed(m', src, WrittenAll(children[i..], src)) && Kept(m, m', LostAll(children[i..], src))
    && SameOutside(m, m', TouchedAll(children[i..]))
  }

  lemma {:induction false} LeafRestores(node: Node, src: Memory, m: Memory)
    requires !node.ObjectNode? && Good(node) && Writable(node, src)
    ensures Restores(node, src, m)
  {
    match node
    case IntNode(_, r, _, _, _) => IntPrints(src[r].i);
    case EnumNode(_, r, _, enums) => if Readable(node, src) { EnumRoundTrip(enums, src[r].i); }
    case _ =>
  }

  lemma {:induction false} NodeRestores(node: Node, src: Memory, m: Memory)
    requires Good(node) && Writable(node, src)
    ensures Restores(node, src, m)
    decreases node, 1, 0
  {
    if !node.ObjectNode? {
      LeafRestores(node, src, m);
    } else {
      ChildrenRestore(node.children, 0, src, Entered(node.hooks, m));
      ObjectRestores(node, src, m);
    }
  }

  lemma ObjectRestores(node: Node, src: Memory, m: Memory)
    requires node.ObjectNode? && GoodHooks(node.hooks, node.children) && Writable(node, src)
    requires RestoresFrom(node.children, 0, src, Entered(node.hooks, m))
    ensures Restores(node, src, m)
  {
    var children, h := node.children, node.hooks;
    assert children[0..] == children;
    var m1, fields := Entered(h, m), WroteChildren(children, src).0;
    var (m2, st) := ProcessedFields(fields, children, m1);
    assert Wrote(node, src).0 == [Field(node.name, JObject(fields))];
    assert Processed(JObject(fields), node, m) == Exited(h, m2, OK);
    if h.Shadowed? {
      PartsOfLandingsAll(children, src);
      LeavingLands(h, children, src, m2);
      LeavingKeeps(h, children, src, m, m2);
    }
    hide GoodHooks, Landed, Kept, Entered, WrittenAll, LostAll, Exited, ProcessedFields, WroteChildren;
  }

  /** Leaving a shadowed object moves what landed in the shadow to the primary settings. */
  lemma LeavingLands(h: Hooks, children: seq<Node>, src: Memory, m: Memory)
    requires h.Shadowed? && GoodHooks(h, children) && Landed(m, src, WrittenAll(children, src))
    requires WrittenAll(children, src) <= LandingsAll(children)
    requires h.guard.AtMost? ==>
               && (ShadowOf(h, h.guard.lo), h.guard.lo) in WrittenAll(children, src)
               && (ShadowOf(h, h.guard.hi), h.guard.hi) in WrittenAll(children, src)
               && IntAt(src, h.guard.lo) <= IntAt(src, h.guard.hi)
    ensures var (m', st) := Exited(h, m, OK);
            st == OK && Landed(m', src, set x | x in WrittenAll(children, src) :: (x.1, x.1))
  {
    var (m', st) := Exited(h, m, OK);
    assert GuardHolds(h, m);
    forall x | x in WrittenAll(children, src) ensures x.1 in m' && x.1 in src && m'[x.1] == src[x.1] {
      assert GoesThrough(h, x);
      ExitedCell(h, m, x.1);
    }
    hide Exited, GuardHolds, WrittenAll, LandingsAll;
  }

  /** A left-out setting goes through the shadow and back. */
  lemma LeavingKeeps(h: Hooks, children: seq<Node>, src: Memory, m: Memory, m2: Memory)
    requires h.Shadowed? && GoodHooks(h, children) && Kept(Entered(h, m), m2, LostAll(children, src))
    requires LostAll(children, src) <= LandingsAll(children) && Exited(h, m2, OK).1 == OK
    ensures Kept(m, Exited(h, m2, OK).0, set x | x in LostAll(children, src) && !InBlock(x.1, h.shadow, h.length) :: (x.1, x.1))
  {
    var m' := Exited(h, m2, OK).0;
    forall x | x in LostAll(children, src) && !InBlock(x.1, h.shadow, h.length) && x.1 in m
      ensures x.1 in m' && m'[x.1] == m[x.1]
    {
      KeptThroughShadow(h, x, m, m2);
    }
    hide GoodHooks, LostAll, LandingsAll, Exited, Entered;
  }

  lemma EnteredCell(h: Hooks, m: Memory, a: Addr)
    requires h.Shadowed?
    ensures CellCopied(m, Entered(h, m), h.shadow, h.primary, h.length, a)
  {
  }

  lemma ExitedCell(h: Hooks, m: Memory, a: Addr)
    requires h.Shadowed? && Exited(h, m, OK).1 == OK
    ensures CellCopied(m, Exited(h, m, OK).0, h.primary, h.shadow, h.length, a)
  {
    hide GuardHolds;
    assert Exited(h, m, OK).0 == Copied(m, h.primary, h.shadow, h.length);
    hide Exited;
  }

  lemma KeptThroughShadow(h: Hooks, x: (Addr, Addr), m: Memory, m2: Memory)
    requires h.Shadowed? && GoesThrough(h, x) && !InBlock(x.1, h.shadow, h.length) && x.1 in m
    requires h.primary + h.length <= h.shadow || h.shadow + h.length <= h.primary
    requires var m1 := Entered(h, m); x.0 in m1 ==> x.0 in m2 && m2[x.0] == m1[x.0]
    requires Exited(h, m2, OK).1 == OK
    ensures var m' := Exited(h, m2, OK).0; x.1 in m' && m'[x.1] == m[x.1]
  {
    hide Entered, Exited;
    EnteredCell(h, m, x.0);
    ExitedCell(h, m2, x.1);
  }

  lemma {:induction false} ChildrenRestore(children: seq<Node>, i: nat, src: Memory, m: Memory)
    requires i <= |children| && GoodSiblings(children)
    requires forall k :: 0 <= k < |children| ==> Good(children[k]) && Writable(children[k], src)
    ensures RestoresFrom(children, i, src, m)
    decreases children, 0, |children| - i
  {
    if i < |children| {
      var node, later := children[i], children[i + 1..];
      assert children[i..][0] == node && children[i..][1..] == later;
      NodeRestores(node, src, m);
      var fields := Wrote(node, src).0;
      var m1 := Applied(fields, node, m).0;
      AppliedTouches(fields, node, m);
      ChildrenRestore(children, i + 1, src, m1);
      FirstOfFields(children, i, src, m);
      LaterLeavesAlone(children, i, src, m, m1);
      EarlierLeavesAlone(children, i, src, m, m1);
    }
  }

  lemma AppliedTouches(fields: seq<Field>, node: Node, m: Memory)
    ensures SameOutside(m, Applied(fields, node, m).0, Touched(node))
  {
    if fields != [] {
      ProcessedTouches(fields[0].value, node, m);
    }
  }

  /** Processing what children i and up wrote starts with what child i wrote. */
  lemma FirstOfFields(children: seq<Node>, i: nat, src: Memory, m: Memory)
    requires i < |children| && GoodSiblings(children) && Restores(children[i], src, m)
    ensures var fields, later := WroteChildren(children[i..], src).0, WroteChildren(children[i + 1..], src).0;
            var m1 := Applied(Wrote(children[i], src).0, children[i], m).0;
            ProcessedFields(fields, children, m) == ProcessedFields(later, children, m1)
  {
    var node := children[i];
    assert children[i..][0] == node && children[i..][1..] == children[i + 1..];
    ChildByName(children, i);
    var first, later := Wrote(node, src).0, WroteChildren(children[i + 1..], src).0;
    assert WroteChildren(children[i..], src).0 == first + later;
    if first == [] {
      assert first + later == later;
    } else {
      assert (first + later)[0] == first[0] && (first + later)[1..] == later;
    }
  }

  /** What child i has restored and kept stays so while its later siblings are processed. */
  lemma LaterLeavesAlone(children: seq<Node>, i: nat, src: Memory, m: Memory, m1: Memory)
    requires i < |children| && GoodSiblings(children) && Good(children[i])
    requires Landed(m1, src, Written(children[i], src)) && Kept(m, m1, Lost(children[i], src))
    requires RestoresFrom(children, i + 1, src, m1)
    ensures var m2 := ProcessedFields(WroteChildren(children[i + 1..], src).0, children, m1).0;
            Landed(m2, src, Written(children[i], src)) && Kept(m, m2, Lost(children[i], src))
  {
    PartsOfLandings(children[i], src);
    forall x | x in Landings(children[i]) ensures x.0 !in TouchedAll(children[i + 1..]) {
      LandingIsTouched(children[i], x);
      if x.0 in TouchedAll(children[i + 1..]) {
        TouchedIsUnion(children[i + 1..], x.0);
        assert false;
      }
    }
  }

  /** Processing child i leaves what its later siblings keep. */
  lemma EarlierLeavesAlone(children: seq<Node>, i: nat, src: Memory, m: Memory, m1: Memory)
    requires i < |children| && GoodSiblings(children) && forall k :: 0 <= k < |children| ==> Good(children[k])
    requires SameOutside(m, m1, Touched(children[i])) && RestoresFrom(children, i + 1, src, m1)
    ensures var m2 := ProcessedFields(WroteChildren(children[i + 1..], src).0, children, m1).0;
            Kept(m, m2, LostAll(children[i + 1..], src))
  {
    var later := children[i + 1..];
    PartsOfLandingsAll(later, src);
    forall x | x in LostAll(later, src) ensures x.0 !in Touched(children[i]) {
      LandingsIsUnion(later, x);
      var k :| 0 <= k < |later| && x in Landings(later[k]);
      assert later[k] == children[i + 1 + k];
      LandingIsTouched(later[k], x);
    }
  }

  /** A whole module, at the root: every setting it read lands where it was read. */
  ghost predicate SelfContained(node: Node)
  {
    Good(node) && forall x :: x in Landings(node) ==> x.0 == x.1
  }

  function Reads(node: Node): set<Addr>
  {
    set x | x in Landings(node) :: x.1
  }

  /** The two memories agree on a module's settings. */
  ghost predicate SameSettings(node: Node, m: Memory, m': Memory)
  {
    forall a :: a in Reads(node) ==> a in m && a in m' && m[a] == m'[a]
  }

  /**
   * Writing a module and processing the result into any other memory restores exactly what was
   * written; a setting left out keeps the value that the other memory had.
   */
  lemma WhatIsWrittenIsRestored(node: Node, src: Memory, m: Memory)
    requires SelfContained(node) && node.ObjectNode? && Writable(node, src)
    ensures var fields := Wrote(node, src).0;
            && |fields| == 1 && fields[0].name == node.name && fields[0].value.JObject?
            && var (m', st) := Processed(fields[0].value, node, m);
            && st == OK
            && Landed(m', src, Written(node, src)) && Kept(m, m', Lost(node, src))
            && SameOutside(m, m', Touched(node))
  {
    NodeRestores(node, src, m);
    ProcessedTouches(Wrote(node, src).0[0].value, node, m);
  }

  /** No setting is kept in a shadow itself. */
  ghost predicate ReadsNoScratch(node: Node)
    decreases node
  {
    node.ObjectNode? ==>
      && (forall i :: 0 <= i < |node.children| ==> ReadsNoScratch(node.children[i]))
      && (node.hooks.Shadowed? ==> forall x :: x in LandingsAll(node.children) ==> !InBlock(x.1, node.hooks.shadow, node.hooks.length))
  }

  lemma {:induction false} LostIffUnreadable(node: Node, src: Memory)
    requires ReadsNoScratch(node)
    ensures Lost(node, src) == {} <==> AllReadable(node, src)
    decreases node, 1
  {
    if node.ObjectNode? {
      LostAllIffUnreadable(node.children, src);
      PartsOfLandingsAll(node.children, src);
      if node.hooks.Shadowed? && LostAll(node.children, src) != {} {
        var x :| x in LostAll(node.children, src);
        assert (x.1, x.1) in Lost(node, src);
      }
    }
  }

  lemma {:induction false} LostAllIffUnreadable(children: seq<Node>, src: Memory)
    requires forall i :: 0 <= i < |children| ==> ReadsNoScratch(children[i])
    ensures LostAll(children, src) == {} <==> forall i :: 0 <= i < |children| ==> AllReadable(children[i], src)
    decreases children, 0
  {
    if children != [] {
      LostIffUnreadable(children[0], src);
      LostAllIffUnreadable(children[1..], src);
      assert forall i :: 0 < i < |children| ==> children[i] == children[1..][i - 1];
      assert forall i :: 0 <= i < |children| - 1 ==> children[1..][i] == children[i + 1];
      hide AllReadable, Lost, LostAll;
      LostSplits(children, src);
    }
  }

  lemma LostSplits(children: seq<Node>, src: Memory)
    requires children != []
    ensures LostAll(children, src) == Lost(children[0], src) + LostAll(children[1..], src)
  {
  }

  /**
   * What a module wrote restores every setting of whatever memory it is processed into exactly when
   * every enumeration setting held a listed value.
   */
  lemma RestoredIffAllReadable(node: Node, src: Memory)
    requires SelfContained(node) && ReadsNoScratch(node) && node.ObjectNode? && Writable(node, src)
    ensures (forall m :: SameSettings(node, src, Processed(Wrote(node, src).0[0].value, node, m).0)) <==> AllReadable(node, src)
  {
    var value := Wrote(node, src).0[0].value;
    if AllReadable(node, src) {
      AllReadableIsAllWritten(node, src);
      forall m ensures SameSettings(node, src, Processed(value, node, m).0) {
        WhatIsWrittenIsRestored(node, src, m);
      }
    } else {
      LostIffUnreadable(node, src);
      PartsOfLandings(node, src);
      var x :| x in Lost(node, src);
      var other := if x.0 in src && src[x.0] == BoolV(true) then BoolV(false) else BoolV(true);
      var m := map[x.0 := other];
      WhatIsWrittenIsRestored(node, src, m);
      assert x.0 in Reads(node);
      assert !SameSettings(node, src, Processed(value, node, m).0);
    }
  }

  /** Writing a module from one memory and processing the result into any other restores every setting. */
  lemma WriteThenProcess(node: Node, src: Memory, m: Memory)
    requires SelfContained(node) && Storable(node, src)
    ensures var (fields, st) := Wrote(node, src);
            && st == OK && |fields| == 1 && fields[0].name == node.name
            && var (m', st') := Processed(fields[0].value, node, m);
            && st' == OK && SameSettings(node, src, m') && SameOutside(m, m', Touched(node))
  {
    StorableIsWritable(node, src);
    StorableIsReadable(node, src);
    AllReadableIsAllWritten(node, src);
    StatusIsTheLastOnes(node, src);
    NodeRestores(node, src, m);
    assert |Wrote(node, src).0| == 1;
    ProcessedTouches(Wrote(node, src).0[0].value, node, m);
  }
}
