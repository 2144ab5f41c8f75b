/** Which settings the hash of a configuration module tells apart. */
module ConfigHashing {
  import opened Prelude
  import opened Words
  import opened ConfigTree
  import opened ConfigRoundTrip
  import opened Murmur3
  import opened ConfigFile

  /** What hashing a tree feeds in, one after the other: names of objects and values of leaves. */
  datatype Piece = Name(t: Text) | Leaf(node: Node)

  function Pieces(node: Node): seq<Piece>
    decreases node, 1
  {
    if node.ObjectNode? then [Name(node.name)] + PiecesAll(node.children) else [Leaf(node)]
  }

  function PiecesAll(children: seq<Node>): seq<Piece>
    decreases children, 0
  {
    if children == [] then [] else Pieces(children[0]) + PiecesAll(children[1..])
  }

  function PieceBytes(p: Piece, m: Memory, doubleBytes: real -> seq<Byte>): seq<Byte>
  {
    match p
    case Name(t) => t
    case Leaf(node) => HashBytes(node, m, doubleBytes)
  }

  function BytesOf(pieces: seq<Piece>, m: Memory, doubleBytes: real -> seq<Byte>): seq<Byte>
  {
    if pieces == [] then [] else PieceBytes(pieces[0], m, doubleBytes) + BytesOf(pieces[1..], m, doubleBytes)
  }

  lemma {:induction false} BytesOfConcat(a: seq<Piece>, b: seq<Piece>, m: Memory, doubleBytes: real -> seq<Byte>)
    ensures BytesOf(a + b, m, doubleBytes) == BytesOf(a, m, doubleBytes) + BytesOf(b, m, doubleBytes)
  {
    hide PieceBytes;
    if a == [] {
      assert a + b == b;
    } else {
      BytesOfConcat(a[1..], b, m, doubleBytes);
      assert (a + b)[0] == a[0] && (a + b)[1..] == a[1..] + b;
      assert BytesOf(a + b, m, doubleBytes) == PieceBytes(a[0], m, doubleBytes) + BytesOf(a[1..] + b, m, doubleBytes);
    }
  }

  lemma {:induction false} HashIsPieces(node: Node, m: Memory, doubleBytes: real -> seq<Byte>)
    ensures HashBytes(node, m, doubleBytes) == BytesOf(Pieces(node), m, doubleBytes)
    decreases node, 1
  {
    if node.ObjectNode? {
      var name, rest := [Name(node.name)], PiecesAll(node.children);
      HashIsPiecesAll(node.children, m, doubleBytes);
      assert (name + rest)[1..] == rest;
    } else {
      assert [Leaf(node)][1..] == [];
    }
  }

  lemma {:induction false} HashIsPiecesAll(children: seq<Node>, m: Memory, doubleBytes: real -> seq<Byte>)
    ensures HashBytesAll(children, m, doubleBytes) == BytesOf(PiecesAll(children), m, doubleBytes)
    decreases children, 0
  {
    if children != [] {
      HashIsPieces(children[0], m, doubleBytes);
      HashIsPiecesAll(children[1..], m, doubleBytes);
      BytesOfConcat(Pieces(children[0]), PiecesAll(children[1..]), m, doubleBytes);
    }
  }

  /* ---- The cells that leaves read ---- */

  ghost predicate IsLeaf(p: Piece)
  {
    p.Leaf? && !p.node.ObjectNode?
  }

  ghost predicate OnlyLeaves(pieces: seq<Piece>)
  {
    forall p :: p in pieces && p.Leaf? ==> IsLeaf(p)
  }

  function ReadOf(p: Piece): set<Addr>
  {
    if p.Leaf? && !p.node.ObjectNode? then {p.node.read} else {}
  }

  function ReadsOf(pieces: seq<Piece>): set<Addr>
  {
    if pieces == [] then {} else ReadOf(pieces[0]) + ReadsOf(pieces[1..])
  }

  lemma {:induction false} ReadsOfConcat(a: seq<Piece>, b: seq<Piece>)
    ensures ReadsOf(a + b) == ReadsOf(a) + ReadsOf(b)
  {
    if a == [] {
      assert a + b == b;
    } else {
      ReadsOfConcat(a[1..], b);
      assert (a + b)[0] == a[0] && (a + b)[1..] == a[1..] + b;
    }
  }

  lemma {:induction false} ReadsOfMember(pieces: seq<Piece>, i: nat)
    requires i < |pieces|
    ensures ReadOf(pieces[i]) <= ReadsOf(pieces)
  {
    if i > 0 {
      assert pieces[1..][i - 1] == pieces[i];
      ReadsOfMember(pieces[1..], i - 1);
    }
  }

  function Origins(landings: set<(Addr, Addr)>): set<Addr>
  {
    set x | x in landings :: x.1
  }

  lemma {:induction false} ReadsAreLeaves(node: Node)
    ensures Reads(node) == ReadsOf(Pieces(node))
    decreases node, 1
  {
    if node.ObjectNode? {
      ReadsAreLeavesAll(node.children);
      var name, rest := [Name(node.name)], PiecesAll(node.children);
      assert (name + rest)[1..] == rest && ReadsOf(Pieces(node)) == ReadsOf(rest);
      assert Reads(node) == Origins(LandingsAll(node.children)) by {
        if node.hooks.Shadowed? {
          forall a | a in Origins(LandingsAll(node.children)) ensures a in Reads(node) {
            assert (a, a) in Landings(node);
          }
        }
      }
    } else {
      assert [Leaf(node)][1..] == [];
      assert Landings(node) == {(node.write, node.read)};
    }
  }

  lemma {:induction false} ReadsAreLeavesAll(children: seq<Node>)
    ensures Origins(LandingsAll(children)) == ReadsOf(PiecesAll(children))
    decreases children, 0
  {
    if children != [] {
      ReadsAreLeaves(children[0]);
      ReadsAreLeavesAll(children[1..]);
      ReadsOfConcat(Pieces(children[0]), PiecesAll(children[1..]));
      assert Origins(LandingsAll(children)) == Reads(children[0]) + Origins(LandingsAll(children[1..]));
    }
  }

  /** Leaves read separate cells. */
  ghost predicate ReadsApart(pieces: seq<Piece>)
  {
    forall i, j :: 0 <= i < j < |pieces| ==> ReadOf(pieces[i]) !! ReadOf(pieces[j])
  }

  ghost predicate SameCells(cells: set<Addr>, m: Memory, m': Memory)
  {
    forall a :: a in cells ==> (a in m <==> a in m') && (a in m ==> m[a] == m'[a])
  }

  lemma {:induction false} SameCellsSameBytes(pieces: seq<Piece>, m: Memory, m': Memory, doubleBytes: real -> seq<Byte>)
    requires OnlyLeaves(pieces) && SameCells(ReadsOf(pieces), m, m')
    ensures BytesOf(pieces, m, doubleBytes) == BytesOf(pieces, m', doubleBytes)
  {
    if pieces != [] {
      SameCellsSameBytes(pieces[1..], m, m', doubleBytes);
      if pieces[0].Leaf? { assert pieces[0].node.read in ReadsOf(pieces); }
    }
  }

  lemma {:induction false} PiecesAreLeaves(node: Node)
    ensures OnlyLeaves(Pieces(node))
    decreases node, 1
  {
    if node.ObjectNode? {
      PiecesAllAreLeaves(node.children);
    }
  }

  lemma {:induction false} PiecesAllAreLeaves(children: seq<Node>)
    ensures OnlyLeaves(PiecesAll(children))
    decreases children, 0
  {
    if children != [] {
      PiecesAreLeaves(children[0]);
      PiecesAllAreLeaves(children[1..]);
    }
  }

  /* ---- Settings of fixed and of variable width ---- */

  ghost predicate SameWidth(enums: seq<(Text, int)>)
  {
    forall i, j :: 0 <= i < j < |enums| ==> |enums[i].0| == |enums[j].0|
  }

  /** Texts, and enumerations with names of different lengths. */
  ghost predicate Varies(p: Piece)
  {
    && p.Leaf?
    && match p.node
       case TextNode(_, _, _, size) => size != 1
       case EnumNode(_, _, _, enums) => !SameWidth(enums)
       case _ => false
  }

  ghost function VariableLeaves(pieces: seq<Piece>): nat
  {
    if pieces == [] then 0 else (if Varies(pieces[0]) then 1 else 0) + VariableLeaves(pieces[1..])
  }

  /** The machine's bytes of doubles: as many for each, and different ones for different doubles. */
  ghost predicate Encodes(doubleBytes: real -> seq<Byte>, doubles: set<real>)
  {
    forall r, s :: r in doubles && s in doubles ==>
      |doubleBytes(r)| == |doubleBytes(s)| && (doubleBytes(r) == doubleBytes(s) ==> r == s)
  }

  /** The leaf's cell holds a value of the leaf's type. */
  ghost predicate Holds(p: Piece, m: Memory, doubles: set<real>)
  {
    p.Leaf? ==>
      match p.node
      case IntNode(_, r, _, _, _) => r in m && m[r].IntV? && INT32_MIN <= m[r].i <= INT32_MAX
      case BoolNode(_, r, _) => r in m && m[r].BoolV?
      case FloatNode(_, r, _, _, _) => r in m && m[r].FloatV? && m[r].r in doubles
      case TextNode(_, r, _, size) => r in m && m[r].TextV? && TextFits(size, m[r].t)
      case EnumNode(_, r, _, enums) => r in m && m[r].IntV? && EnumName(enums, m[r].i).Some? && DistinctEnums(enums)
      case ObjectNode(_, _, _) => false
  }

  ghost predicate HoldsAll(pieces: seq<Piece>, m: Memory, doubles: set<real>)
  {
    forall i :: 0 <= i < |pieces| ==> Holds(pieces[i], m, doubles)
  }

  lemma IntBytesInjective(i: int, j: int)
    requires INT32_MIN <= i <= INT32_MAX && INT32_MIN <= j <= INT32_MAX && IntBytes(i) == IntBytes(j)
    ensures i == j
  {
    var v, w := i % WRAP, j % WRAP;
    var b, c := IntBytes(i), IntBytes(j);
    assert b[0] == c[0] && b[1] == c[1] && b[2] == c[2] && b[3] == c[3];
    FourBytes(v);
    FourBytes(w);
    hide IntBytes;
    SameWord(i, j);
  }

  /** An integer is hashed as its four bytes in two's complement, low byte first. */
  lemma IntBytesAreLittleEndian(i: int)
    ensures LittleEndian(IntBytes(i), 0) == i % 0x1_0000_0000
  {
    FourBytes(i % WRAP);
  }

  lemma SameWord(i: int, j: int)
    requires INT32_MIN <= i <= INT32_MAX && INT32_MIN <= j <= INT32_MAX && i % WRAP == j % WRAP
    ensures i == j
  {
  }

  lemma FourBytes(w: Word)
    ensures w == w % 256 + 0x100 * ((w / 0x100) % 256) + 0x1_0000 * ((w / 0x1_0000) % 256) + 0x100_0000 * ((w / 0x100_0000) % 256)
  {
    assert w / 0x1_0000 == w / 0x100 / 256 && w / 0x100_0000 == w / 0x100 / 256 / 256;
  }

  lemma FixedWidth(p: Piece, m: Memory, m': Memory, doubleBytes: real -> seq<Byte>, doubles: set<real>)
    requires !Varies(p) && Holds(p, m, doubles) && Holds(p, m', doubles) && Encodes(doubleBytes, doubles)
    ensures |PieceBytes(p, m, doubleBytes)| == |PieceBytes(p, m', doubleBytes)|
  {
    if p.Leaf? && p.node.EnumNode? {
      EnumRoundTrip(p.node.enums, m[p.node.read].i);
      EnumRoundTrip(p.node.enums, m'[p.node.read].i);
    }
  }

  lemma LeafTells(p: Piece, m: Memory, m': Memory, doubleBytes: real -> seq<Byte>, doubles: set<real>)
    requires IsLeaf(p) && Holds(p, m, doubles) && Holds(p, m', doubles) && Encodes(doubleBytes, doubles)
    requires PieceBytes(p, m, doubleBytes) == PieceBytes(p, m', doubleBytes)
    ensures m[p.node.read] == m'[p.node.read]
  {
    var v, v' := m[p.node.read], m'[p.node.read];
    match p.node
    case IntNode(_, _, _, _, _) => IntBytesInjective(v.i, v'.i);
    case EnumNode(_, _, _, enums) =>
      EnumRoundTrip(enums, v.i);
      EnumRoundTrip(enums, v'.i);
    case _ =>
  }

  /* ---- Reading the bytes from both ends ---- */

  /** No name is the beginning of another. */
  ghost predicate PrefixFree(enums: seq<(Text, int)>)
  {
    forall i, j :: 0 <= i < |enums| && 0 <= j < |enums| && i != j ==> !(enums[i].0 <= enums[j].0)
  }

  predicate EndsWith(t: Text, end: Text)
  {
    |end| <= |t| && t[|t| - |end|..] == end
  }

  /** No name is the end of another. */
  ghost predicate SuffixFree(enums: seq<(Text, int)>)
  {
    forall i, j :: 0 <= i < |enums| && 0 <= j < |enums| && i != j ==> !EndsWith(enums[j].0, enums[i].0)
  }

  /** Coming from the left one sees where the piece ends. */
  ghost predicate FromLeft(p: Piece)
  {
    Varies(p) ==> p.node.EnumNode? && PrefixFree(p.node.enums)
  }

  /** Coming from the right one sees where it begins. */
  ghost predicate FromRight(p: Piece)
  {
    Varies(p) ==> p.node.EnumNode? && SuffixFree(p.node.enums)
  }

  /** All pieces before the k-th can be read from the left, and all after it from the right; it may be any leaf. */
  ghost predicate ReadableAround(pieces: seq<Piece>, k: nat)
  {
    && k <= |pieces|
    && (forall i :: 0 <= i < k ==> FromLeft(pieces[i]))
    && (forall i :: k < i < |pieces| ==> FromRight(pieces[i]))
  }

  ghost predicate SameReads(pieces: seq<Piece>, m: Memory, m': Memory)
  {
    forall a :: a in ReadsOf(pieces) ==> a in m && a in m' && m[a] == m'[a]
  }

  lemma EnumNameListed(enums: seq<(Text, int)>, v: int) returns (k: nat)
    requires DistinctEnums(enums) && EnumName(enums, v).Some?
    ensures k < |enums| && enums[k].0 == EnumName(enums, v).value
  {
    EnumRoundTrip(enums, v);
    k :| 0 <= k < |enums| && enums[k].0 == EnumName(enums, v).value;
  }

  lemma WidthFromLeft(p: Piece, m: Memory, m': Memory, c: seq<Byte>, c': seq<Byte>, doubleBytes: real -> seq<Byte>, doubles: set<real>)
    requires FromLeft(p) && Holds(p, m, doubles) && Holds(p, m', doubles) && Encodes(doubleBytes, doubles)
    requires PieceBytes(p, m, doubleBytes) + c == PieceBytes(p, m', doubleBytes) + c'
    ensures |PieceBytes(p, m, doubleBytes)| == |PieceBytes(p, m', doubleBytes)|
  {
    if Varies(p) {
      var enums, r := p.node.enums, p.node.read;
      var i := EnumNameListed(enums, m[r].i);
      var j := EnumNameListed(enums, m'[r].i);
      BothBegin(enums[i].0, c, enums[j].0, c');
    } else {
      FixedWidth(p, m, m', doubleBytes, doubles);
    }
  }

  lemma BothBegin(a: seq<Byte>, b: seq<Byte>, a': seq<Byte>, b': seq<Byte>)
    requires a + b == a' + b'
    ensures a <= a' || a' <= a
  {
    assert a == (a + b)[..|a|] && a' == (a' + b')[..|a'|];
  }

  lemma WidthFromRight(p: Piece, m: Memory, m': Memory, c: seq<Byte>, c': seq<Byte>, doubleBytes: real -> seq<Byte>, doubles: set<real>)
    requires FromRight(p) && Holds(p, m, doubles) && Holds(p, m', doubles) && Encodes(doubleBytes, doubles)
    requires c + PieceBytes(p, m, doubleBytes) == c' + PieceBytes(p, m', doubleBytes)
    ensures |PieceBytes(p, m, doubleBytes)| == |PieceBytes(p, m', doubleBytes)|
  {
    if Varies(p) {
      var enums, r := p.node.enums, p.node.read;
      var i := EnumNameListed(enums, m[r].i);
      var j := EnumNameListed(enums, m'[r].i);
      BothEnd(c, enums[i].0, c', enums[j].0);
    } else {
      FixedWidth(p, m, m', doubleBytes, doubles);
    }
  }

  lemma BothEnd(a: seq<Byte>, b: seq<Byte>, a': seq<Byte>, b': seq<Byte>)
    requires a + b == a' + b'
    ensures EndsWith(b', b) || EndsWith(b, b')
  {
    var s := a + b;
    assert b == s[|s| - |b|..] && b' == s[|s| - |b'|..];
    if |b| <= |b'| {
      assert b'[|b'| - |b|..] == b;
    } else {
      assert b[|b| - |b'|..] == b';
    }
  }

  lemma SplitEqual(b: seq<Byte>, c: seq<Byte>, b': seq<Byte>, c': seq<Byte>)
    requires b + c == b' + c' && (|b| == |b'| || |c| == |c'|)
    ensures b == b' && c == c'
  {
    assert |b + c| == |b' + c'|;
    assert b == (b + c)[..|b|] && b' == (b' + c')[..|b|];
    assert c == (b + c)[|b|..] && c' == (b' + c')[|b|..];
  }

  lemma PieceTells(p: Piece, m: Memory, m': Memory, doubleBytes: real -> seq<Byte>, doubles: set<real>)
    requires (p.Leaf? ==> IsLeaf(p)) && Holds(p, m, doubles) && Holds(p, m', doubles) && Encodes(doubleBytes, doubles)
    requires PieceBytes(p, m, doubleBytes) == PieceBytes(p, m', doubleBytes)
    ensures SameReads([p], m, m')
  {
    assert [p][1..] == [] && ReadsOf([p]) == ReadOf(p);
    if p.Leaf? {
      LeafTells(p, m, m', doubleBytes, doubles);
    }
  }

  lemma ReadsJoin(a: seq<Piece>, b: seq<Piece>, m: Memory, m': Memory)
    requires SameReads(a, m, m') && SameReads(b, m, m')
    ensures SameReads(a + b, m, m')
  {
    ReadsOfConcat(a, b);
  }

  /** What both memories ask of the pieces and their values. */
  ghost predicate Comparable(pieces: seq<Piece>, m: Memory, m': Memory, doubleBytes: real -> seq<Byte>, doubles: set<real>)
  {
    OnlyLeaves(pieces) && HoldsAll(pieces, m, doubles) && HoldsAll(pieces, m', doubles) && Encodes(doubleBytes, doubles)
  }

  lemma ComparableParts(pieces: seq<Piece>, lo: nat, hi: nat, m: Memory, m': Memory, doubleBytes: real -> seq<Byte>, doubles: set<real>)
    requires lo <= hi <= |pieces| && Comparable(pieces, m, m', doubleBytes, doubles)
    ensures Comparable(pieces[lo..hi], m, m', doubleBytes, doubles)
  {
    hide Holds, Encodes, IsLeaf;
    assert forall p :: p in pieces[lo..hi] ==> p in pieces;
  }

  /** One piece of comparable ones: if its bytes are as wide in both memories, they tell its setting and split off. */
  lemma PieceSplitsOff(p: Piece, m: Memory, m': Memory, c: seq<Byte>, c': seq<Byte>, fromLeft: bool,
                       doubleBytes: real -> seq<Byte>, doubles: set<real>)
    requires (p.Leaf? ==> IsLeaf(p)) && Holds(p, m, doubles) && Holds(p, m', doubles) && Encodes(doubleBytes, doubles)
    requires if fromLeft then FromLeft(p) else FromRight(p)
    requires var b, b' := PieceBytes(p, m, doubleBytes), PieceBytes(p, m', doubleBytes);
             if fromLeft then b + c == b' + c' else c + b == c' + b'
    ensures c == c' && SameReads([p], m, m')
  {
    hide *;
    var b, b' := PieceBytes(p, m, doubleBytes), PieceBytes(p, m', doubleBytes);
    if fromLeft {
      WidthFromLeft(p, m, m', c, c', doubleBytes, doubles);
      SplitEqual(b, c, b', c');
    } else {
      WidthFromRight(p, m, m', c, c', doubleBytes, doubles);
      SplitEqual(c, b, c', b');
    }
    PieceTells(p, m, m', doubleBytes, doubles);
  }

  lemma FirstSplits(pieces: seq<Piece>, m: Memory, c: seq<Byte>, doubleBytes: real -> seq<Byte>)
    requires pieces != []
    ensures BytesOf(pieces, m, doubleBytes) + c == PieceBytes(pieces[0], m, doubleBytes) + (BytesOf(pieces[1..], m, doubleBytes) + c)
    ensures [pieces[0]] + pieces[1..] == pieces && pieces[1..] == pieces[1..|pieces|]
  {
    assert BytesOf(pieces, m, doubleBytes) == PieceBytes(pieces[0], m, doubleBytes) + BytesOf(pieces[1..], m, doubleBytes);
    hide *;
    Joins(PieceBytes(pieces[0], m, doubleBytes), BytesOf(pieces[1..], m, doubleBytes), c);
  }

  lemma LastSplits(pieces: seq<Piece>, m: Memory, c: seq<Byte>, doubleBytes: real -> seq<Byte>)
    requires pieces != []
    ensures var n := |pieces| - 1;
            && c + BytesOf(pieces, m, doubleBytes) == (c + BytesOf(pieces[..n], m, doubleBytes)) + PieceBytes(pieces[n], m, doubleBytes)
            && pieces[..n] + [pieces[n]] == pieces && pieces[..n] == pieces[0..n]
  {
    hide *;
    var n := |pieces| - 1;
    assert pieces[..n] + [pieces[n]] == pieces && pieces[..n] == pieces[0..n];
    LastBytes(pieces, m, doubleBytes);
    Joins(c, BytesOf(pieces[..n], m, doubleBytes), PieceBytes(pieces[n], m, doubleBytes));
  }

  lemma Joins(a: seq<Byte>, b: seq<Byte>, c: seq<Byte>)
    ensures a + (b + c) == (a + b) + c
  {
  }

  /** Bytes that begin with pieces readable from the left tell those pieces' settings, and what follows. */
  lemma {:induction false} LeftTells(pieces: seq<Piece>, m: Memory, m': Memory, c: seq<Byte>, c': seq<Byte>,
                                     doubleBytes: real -> seq<Byte>, doubles: set<real>)
    requires Comparable(pieces, m, m', doubleBytes, doubles) && forall i :: 0 <= i < |pieces| ==> FromLeft(pieces[i])
    requires BytesOf(pieces, m, doubleBytes) + c == BytesOf(pieces, m', doubleBytes) + c'
    ensures c == c' && SameReads(pieces, m, m')
  {
    if pieces == [] {
      assert c == BytesOf(pieces, m, doubleBytes) + c && c' == BytesOf(pieces, m', doubleBytes) + c';
    } else {
      var p, rest := pieces[0], pieces[1..];
      hide BytesOf, PieceBytes, FromLeft, Holds, Encodes, SameReads, IsLeaf;
      FirstSplits(pieces, m, c, doubleBytes);
      FirstSplits(pieces, m', c', doubleBytes);
      ComparableParts(pieces, 1, |pieces|, m, m', doubleBytes, doubles);
      assert p in pieces;
      var d, d' := BytesOf(rest, m, doubleBytes) + c, BytesOf(rest, m', doubleBytes) + c';
      PieceSplitsOff(p, m, m', d, d', true, doubleBytes, doubles);
      hide Comparable;
      LeftTells(rest, m, m', c, c', doubleBytes, doubles);
      ReadsJoin([p], rest, m, m');
    }
  }

  /** The same from the other end. */
  lemma {:induction false} RightTells(pieces: seq<Piece>, m: Memory, m': Memory, c: seq<Byte>, c': seq<Byte>,
                                      doubleBytes: real -> seq<Byte>, doubles: set<real>)
    requires Comparable(pieces, m, m', doubleBytes, doubles) && forall i :: 0 <= i < |pieces| ==> FromRight(pieces[i])
    requires c + BytesOf(pieces, m, doubleBytes) == c' + BytesOf(pieces, m', doubleBytes)
    ensures c == c' && SameReads(pieces, m, m')
  {
    if pieces == [] {
      assert c == c + BytesOf(pieces, m, doubleBytes) && c' == c' + BytesOf(pieces, m', doubleBytes);
    } else {
      var n := |pieces| - 1;
      var p, rest := pieces[n], pieces[..n];
      hide BytesOf, PieceBytes, FromRight, Holds, Encodes, SameReads, IsLeaf;
      LastSplits(pieces, m, c, doubleBytes);
      LastSplits(pieces, m', c', doubleBytes);
      ComparableParts(pieces, 0, n, m, m', doubleBytes, doubles);
      assert p in pieces;
      var d, d' := c + BytesOf(rest, m, doubleBytes), c' + BytesOf(rest, m', doubleBytes);
      PieceSplitsOff(p, m, m', d, d', false, doubleBytes, doubles);
      hide Comparable;
      RightTells(rest, m, m', c, c', doubleBytes, doubles);
      ReadsJoin(rest, [p], m, m');
    }
  }

  lemma LastBytes(pieces: seq<Piece>, m: Memory, doubleBytes: real -> seq<Byte>)
    requires pieces != []
    ensures BytesOf(pieces, m, doubleBytes)
            == BytesOf(pieces[..|pieces| - 1], m, doubleBytes) + PieceBytes(pieces[|pieces| - 1], m, doubleBytes)
  {
    SplitBytes(pieces, |pieces| - 1, m, doubleBytes);
  }

  /** Bytes that can be read around one leaf determine every setting. */
  lemma BytesTell(pieces: seq<Piece>, k: nat, m: Memory, m': Memory, doubleBytes: real -> seq<Byte>, doubles: set<real>)
    requires ReadableAround(pieces, k) && Comparable(pieces, m, m', doubleBytes, doubles)
    requires BytesOf(pieces, m, doubleBytes) == BytesOf(pieces, m', doubleBytes)
    ensures SameReads(pieces, m, m')
  {
    hide FromLeft, FromRight, BytesOf, Comparable, SameReads;
    var before, rest := pieces[..k], pieces[k..];
    assert pieces == before + rest && before == pieces[0..k] && rest == pieces[k..|pieces|];
    ComparableParts(pieces, 0, k, m, m', doubleBytes, doubles);
    ComparableParts(pieces, k, |pieces|, m, m', doubleBytes, doubles);
    BytesOfConcat(before, rest, m, doubleBytes);
    BytesOfConcat(before, rest, m', doubleBytes);
    LeftTells(before, m, m', BytesOf(rest, m, doubleBytes), BytesOf(rest, m', doubleBytes), doubleBytes, doubles);
    if k < |pieces| {
      RestTells(rest, m, m', doubleBytes, doubles);
    } else {
      assert rest == [] && before == pieces;
    }
    ReadsJoinIf(before, rest, k < |pieces|, m, m');
  }

  lemma ReadsJoinIf(a: seq<Piece>, b: seq<Piece>, both: bool, m: Memory, m': Memory)
    requires SameReads(a, m, m') && (both ==> SameReads(b, m, m')) && (!both ==> b == [])
    ensures SameReads(a + b, m, m')
  {
    assert SameReads([], m, m');
    ReadsJoin(a, b, m, m');
  }

  lemma RestTells(pieces: seq<Piece>, m: Memory, m': Memory, doubleBytes: real -> seq<Byte>, doubles: set<real>)
    requires pieces != [] && Comparable(pieces, m, m', doubleBytes, doubles)
    requires forall i :: 0 < i < |pieces| ==> FromRight(pieces[i])
    requires BytesOf(pieces, m, doubleBytes) == BytesOf(pieces, m', doubleBytes)
    ensures SameReads(pieces, m, m')
  {
    var p, after := pieces[0], pieces[1..];
    assert p in pieces;
    assert BytesOf(pieces, m, doubleBytes) == PieceBytes(p, m, doubleBytes) + BytesOf(after, m, doubleBytes);
    assert BytesOf(pieces, m', doubleBytes) == PieceBytes(p, m', doubleBytes) + BytesOf(after, m', doubleBytes);
    hide BytesOf, PieceBytes, FromRight, Holds, Encodes, SameReads;
    RightTells(after, m, m', PieceBytes(p, m, doubleBytes), PieceBytes(p, m', doubleBytes), doubleBytes, doubles);
    PieceTells(p, m, m', doubleBytes, doubles);
    ReadsJoin([p], after, m, m');
    assert [p] + after == pieces;
  }

  /** The same for a module: equal hashed bytes, equal settings. */
  lemma ReadableIsTold(node: Node, k: nat, m: Memory, m': Memory, doubleBytes: real -> seq<Byte>, doubles: set<real>)
    requires ReadableAround(Pieces(node), k) && Encodes(doubleBytes, doubles)
    requires HoldsAll(Pieces(node), m, doubles) && HoldsAll(Pieces(node), m', doubles)
    requires SameBytes(node, m, m', doubleBytes)
    ensures SameSettings(node, m, m')
  {
    HashIsPieces(node, m, doubleBytes);
    HashIsPieces(node, m', doubleBytes);
    PiecesAreLeaves(node);
    BytesTell(Pieces(node), k, m, m', doubleBytes, doubles);
    ReadsAreLeaves(node);
  }

  /** In particular with at most one leaf of variable width, whatever it is. */
  lemma OneVariableLeafIsTold(node: Node, m: Memory, m': Memory, doubleBytes: real -> seq<Byte>, doubles: set<real>)
    requires VariableLeaves(Pieces(node)) <= 1 && Encodes(doubleBytes, doubles)
    requires HoldsAll(Pieces(node), m, doubles) && HoldsAll(Pieces(node), m', doubles)
    requires HashBytes(node, m, doubleBytes) == HashBytes(node, m', doubleBytes)
    ensures SameSettings(node, m, m')
  {
    var k := OneVaries(Pieces(node));
    ReadableIsTold(node, k, m, m', doubleBytes, doubles);
  }

  lemma {:induction false} OneVaries(pieces: seq<Piece>) returns (k: nat)
    requires VariableLeaves(pieces) <= 1
    ensures ReadableAround(pieces, k)
    ensures VariableLeaves(pieces) == 0 ==> forall i :: 0 <= i < |pieces| ==> !Varies(pieces[i])
  {
    if pieces == [] {
      k := 0;
    } else {
      var l := OneVaries(pieces[1..]);
      k := if Varies(pieces[0]) then 0 else l + 1;
      assert forall i :: 0 < i < |pieces| ==> pieces[i] == pieces[1..][i - 1];
    }
    hide Varies;
  }

  /* ---- Two texts ---- */

  predicate IsString(p: Piece)
  {
    p.Leaf? && p.node.TextNode? && p.node.size == 0
  }

  /** The number of strings without a limit. */
  function StringLeaves(pieces: seq<Piece>): nat
  {
    if pieces == [] then 0 else (if IsString(pieces[0]) then 1 else 0) + StringLeaves(pieces[1..])
  }

  lemma {:induction false} FirstString(pieces: seq<Piece>) returns (i: nat)
    requires StringLeaves(pieces) >= 1
    ensures i < |pieces| && IsString(pieces[i]) && StringLeaves(pieces[i + 1..]) == StringLeaves(pieces) - 1
  {
    if IsString(pieces[0]) {
      i := 0;
    } else {
      var k := FirstString(pieces[1..]);
      i := k + 1;
      assert pieces[1..][k + 1..] == pieces[i + 1..];
    }
  }

  /** What is hashed between two texts can move from one to the other. */
  function Moved(between: seq<Byte>): Text
  {
    if between == [] then [120] else between
  }

  function WithTexts(m: Memory, a: Addr, t: Text, b: Addr, u: Text): Memory
  {
    m[a := TextV(t)][b := TextV(u)]
  }

  lemma BytesAround(pieces: seq<Piece>, i: nat, j: nat, m0: Memory, t: Text, u: Text, doubleBytes: real -> seq<Byte>)
    requires i < j < |pieces| && ReadsApart(pieces) && OnlyLeaves(pieces)
    requires pieces[i].Leaf? && pieces[i].node.TextNode? && pieces[j].Leaf? && pieces[j].node.TextNode?
    ensures var m := WithTexts(m0, pieces[i].node.read, t, pieces[j].node.read, u);
            BytesOf(pieces, m, doubleBytes)
            == BytesOf(pieces[..i], m0, doubleBytes) + (t + BytesOf(pieces[i + 1..j], m0, doubleBytes) + u)
               + BytesOf(pieces[j + 1..], m0, doubleBytes)
  {
    var m := WithTexts(m0, pieces[i].node.read, t, pieces[j].node.read, u);
    assert ReadOf(pieces[i]) !! ReadOf(pieces[j]);
    WithTextsElsewhere(pieces[i], pieces[j], m0, t, u, doubleBytes);
    hide BytesOf, PieceBytes, WithTexts, ReadsApart, OnlyLeaves, ReadOf, SameBut, HashBytes;
    SameAround(pieces, i, j, m0, m, doubleBytes);
    SameElsewhere(pieces, i, j, i + 1, j, m0, m, doubleBytes);
    TwoSplits(pieces, i, j, m, doubleBytes);
  }

  lemma TwoSplits(pieces: seq<Piece>, i: nat, j: nat, m: Memory, doubleBytes: real -> seq<Byte>)
    requires i < j < |pieces|
    ensures BytesOf(pieces, m, doubleBytes)
            == BytesOf(pieces[..i], m, doubleBytes)
               + (PieceBytes(pieces[i], m, doubleBytes) + BytesOf(pieces[i + 1..j], m, doubleBytes) + PieceBytes(pieces[j], m, doubleBytes))
               + BytesOf(pieces[j + 1..], m, doubleBytes)
  {
    hide BytesOf, PieceBytes;
    var rest := pieces[i + 1..];
    SplitBytes(pieces, i, m, doubleBytes);
    SplitBytes(rest, j - i - 1, m, doubleBytes);
    assert rest[..j - i - 1] == pieces[i + 1..j] && rest[j - i - 1] == pieces[j] && rest[j - i..] == pieces[j + 1..];
    Regroup(BytesOf(pieces[..i], m, doubleBytes), PieceBytes(pieces[i], m, doubleBytes), BytesOf(pieces[i + 1..j], m, doubleBytes),
            PieceBytes(pieces[j], m, doubleBytes), BytesOf(pieces[j + 1..], m, doubleBytes));
  }

  lemma SameAround(pieces: seq<Piece>, i: nat, j: nat, m: Memory, m': Memory, doubleBytes: real -> seq<Byte>)
    requires i <= j < |pieces| && ReadsApart(pieces) && OnlyLeaves(pieces)
    requires SameBut(ReadOf(pieces[i]) + ReadOf(pieces[j]), m, m')
    ensures BytesOf(pieces[..i], m, doubleBytes) == BytesOf(pieces[..i], m', doubleBytes)
    ensures BytesOf(pieces[j + 1..], m, doubleBytes) == BytesOf(pieces[j + 1..], m', doubleBytes)
  {
    hide BytesOf, ReadsApart, OnlyLeaves, SameBut, ReadOf;
    SameElsewhere(pieces, i, j, 0, i, m, m', doubleBytes);
    SameElsewhere(pieces, i, j, j + 1, |pieces|, m, m', doubleBytes);
    assert pieces[0..i] == pieces[..i] && pieces[j + 1..|pieces|] == pieces[j + 1..];
  }

  lemma Regroup(a: seq<Byte>, b: seq<Byte>, c: seq<Byte>, d: seq<Byte>, e: seq<Byte>)
    ensures a + b + (c + d + e) == a + (b + c + d) + e
  {
  }

  ghost predicate SameBut(cells: set<Addr>, m: Memory, m': Memory)
  {
    forall a :: a !in cells ==> (a in m <==> a in m') && (a in m ==> m[a] == m'[a])
  }

  lemma WithTextsElsewhere(p: Piece, q: Piece, m: Memory, t: Text, u: Text, doubleBytes: real -> seq<Byte>)
    requires p.Leaf? && p.node.TextNode? && q.Leaf? && q.node.TextNode? && ReadOf(p) !! ReadOf(q)
    ensures var m' := WithTexts(m, p.node.read, t, q.node.read, u);
            && SameBut(ReadOf(p) + ReadOf(q), m, m')
            && PieceBytes(p, m', doubleBytes) == t && PieceBytes(q, m', doubleBytes) == u
  {
  }

  /** The bytes of the pieces from lo to hi, when only the cells of leaves i and j outside them change. */
  lemma SameElsewhere(pieces: seq<Piece>, i: nat, j: nat, lo: nat, hi: nat, m: Memory, m': Memory, doubleBytes: real -> seq<Byte>)
    requires i < |pieces| && j < |pieces| && ReadsApart(pieces) && lo <= hi <= |pieces|
    requires (i < lo || hi <= i) && (j < lo || hi <= j) && OnlyLeaves(pieces)
    requires SameBut(ReadOf(pieces[i]) + ReadOf(pieces[j]), m, m')
    ensures BytesOf(pieces[lo..hi], m, doubleBytes) == BytesOf(pieces[lo..hi], m', doubleBytes)
  {
    Elsewhere(pieces, i, j, lo, hi);
    assert forall p :: p in pieces[lo..hi] ==> p in pieces;
    hide ReadOf, ReadsOf, BytesOf, ReadsApart, OnlyLeaves;
    SameCellsSameBytes(pieces[lo..hi], m, m', doubleBytes);
  }

  lemma SplitBytes(pieces: seq<Piece>, i: nat, m: Memory, doubleBytes: real -> seq<Byte>)
    requires i < |pieces|
    ensures BytesOf(pieces, m, doubleBytes)
            == BytesOf(pieces[..i], m, doubleBytes) + PieceBytes(pieces[i], m, doubleBytes) + BytesOf(pieces[i + 1..], m, doubleBytes)
  {
    assert pieces == pieces[..i] + pieces[i..];
    BytesOfConcat(pieces[..i], pieces[i..], m, doubleBytes);
    assert pieces[i..][1..] == pieces[i + 1..];
  }

  /** Neither of two leaves' cells is read by the pieces from lo to hi. */
  lemma {:induction false} Elsewhere(pieces: seq<Piece>, i: nat, j: nat, lo: nat, hi: nat)
    requires i < |pieces| && j < |pieces| && ReadsApart(pieces) && lo <= hi <= |pieces|
    requires (i < lo || hi <= i) && (j < lo || hi <= j)
    ensures ReadsOf(pieces[lo..hi]) !! ReadOf(pieces[i]) && ReadsOf(pieces[lo..hi]) !! ReadOf(pieces[j])
    decreases hi - lo
  {
    if lo < hi {
      assert pieces[lo..hi][0] == pieces[lo] && pieces[lo..hi][1..] == pieces[lo + 1..hi];
      Elsewhere(pieces, i, j, lo + 1, hi);
      assert ReadOf(pieces[lo]) !! ReadOf(pieces[i]) && ReadOf(pieces[lo]) !! ReadOf(pieces[j]);
    }
  }

  /**
   * With two unlimited texts, whatever the other settings are: what is hashed between the texts (or
   * one character, if nothing is) moved from the one to the other leaves the bytes as they are.
   */
  lemma TwoTextsAreConfused(pieces: seq<Piece>, m0: Memory, doubleBytes: real -> seq<Byte>, doubles: set<real>)
    returns (i: nat, j: nat, m: Memory, m': Memory)
    requires StringLeaves(pieces) >= 2 && ReadsApart(pieces)
    requires OnlyLeaves(pieces) && HoldsAll(pieces, m0, doubles)
    ensures i < j < |pieces| && IsString(pieces[i]) && IsString(pieces[j])
    ensures var a, b, t := pieces[i].node.read, pieces[j].node.read, Moved(BytesOf(pieces[i + 1..j], m0, doubleBytes));
            m == WithTexts(m0, a, [], b, t) && m' == WithTexts(m0, a, t, b, []) && m[a] != m'[a]
    ensures HoldsAll(pieces, m, doubles) && HoldsAll(pieces, m', doubles)
    ensures BytesOf(pieces, m, doubleBytes) == BytesOf(pieces, m', doubleBytes)
  {
    i := FirstString(pieces);
    var k := FirstString(pieces[i + 1..]);
    j := i + 1 + k;
    assert pieces[i + 1..][k] == pieces[j];
    var between := BytesOf(pieces[i + 1..j], m0, doubleBytes);
    var t := Moved(between);
    m := WithTexts(m0, pieces[i].node.read, [], pieces[j].node.read, t);
    m' := WithTexts(m0, pieces[i].node.read, t, pieces[j].node.read, []);
    assert m[pieces[i].node.read] != m'[pieces[i].node.read] by { assert ReadOf(pieces[i]) !! ReadOf(pieces[j]); }
    assert [] + between + t == t + between + [];
    hide BytesOf, Varies, ReadsApart, HoldsAll, OnlyLeaves, Moved, WithTexts;
    BytesAround(pieces, i, j, m0, [], t, doubleBytes);
    BytesAround(pieces, i, j, m0, t, [], doubleBytes);
    StillHolds(pieces, i, j, m0, [], t, doubles);
    StillHolds(pieces, i, j, m0, t, [], doubles);
  }

  lemma StillHolds(pieces: seq<Piece>, i: nat, j: nat, m0: Memory, t: Text, u: Text, doubles: set<real>)
    requires i < j < |pieces| && ReadsApart(pieces) && HoldsAll(pieces, m0, doubles)
    requires pieces[i].Leaf? && pieces[i].node.TextNode? && pieces[i].node.size == 0
    requires pieces[j].Leaf? && pieces[j].node.TextNode? && pieces[j].node.size == 0
    ensures HoldsAll(pieces, WithTexts(m0, pieces[i].node.read, t, pieces[j].node.read, u), doubles)
  {
    forall k | 0 <= k < |pieces| ensures Holds(pieces[k], WithTexts(m0, pieces[i].node.read, t, pieces[j].node.read, u), doubles) {
      assert k != i ==> ReadOf(pieces[k]) !! ReadOf(pieces[i]);
      assert k != j ==> ReadOf(pieces[k]) !! ReadOf(pieces[j]);
      assert Holds(pieces[k], m0, doubles);
    }
  }

  /** Whatever values of their types the settings have, equal hashed bytes mean equal settings. */
  ghost predicate ToldApart(node: Node, doubleBytes: real -> seq<Byte>, doubles: set<real>)
  {
    forall m, m' ::
      HoldsAll(Pieces(node), m, doubles) && HoldsAll(Pieces(node), m', doubles) && SameBytes(node, m, m', doubleBytes)
      ==> SameSettings(node, m, m')
  }

  predicate SameBytes(node: Node, m: Memory, m': Memory, doubleBytes: real -> seq<Byte>)
  {
    HashBytes(node, m, doubleBytes) == HashBytes(node, m', doubleBytes)
  }

  /**
   * Let the settings of a module with at most one unlimited string be readable around one leaf: around
   * the string if there is one, with enumerations before it prefix-free and those after it suffix-free,
   * or around any leaf. Then the hashed bytes tell all settings apart exactly when there is at most one
   * unlimited string.
   */
  lemma SettingsToldApart(node: Node, m0: Memory, doubleBytes: real -> seq<Byte>, doubles: set<real>)
    requires StringLeaves(Pieces(node)) <= 1 ==> exists k :: ReadableAround(Pieces(node), k)
    requires ReadsApart(Pieces(node)) && Encodes(doubleBytes, doubles) && HoldsAll(Pieces(node), m0, doubles)
    ensures ToldApart(node, doubleBytes, doubles) <==> StringLeaves(Pieces(node)) <= 1
  {
    var pieces := Pieces(node);
    if StringLeaves(pieces) <= 1 {
      var k :| ReadableAround(pieces, k);
      ReadableIsToldApart(node, k, doubleBytes, doubles);
    } else {
      PiecesAreLeaves(node);
      var i, j, m, m' := TwoTextsAreConfused(pieces, m0, doubleBytes, doubles);
      HashIsPieces(node, m, doubleBytes);
      HashIsPieces(node, m', doubleBytes);
      ReadsAreLeaves(node);
      ReadsOfMember(pieces, i);
      assert pieces[i].node.read in Reads(node);
      assert !SameSettings(node, m, m');
    }
  }

  lemma ReadableIsToldApart(node: Node, k: nat, doubleBytes: real -> seq<Byte>, doubles: set<real>)
    requires ReadableAround(Pieces(node), k) && Encodes(doubleBytes, doubles)
    ensures ToldApart(node, doubleBytes, doubles)
  {
    forall m, m' | HoldsAll(Pieces(node), m, doubles) && HoldsAll(Pieces(node), m', doubles) && SameBytes(node, m, m', doubleBytes)
      ensures SameSettings(node, m, m')
    {
      ReadableIsTold(node, k, m, m', doubleBytes, doubles);
    }
  }

  /* ---- One switch ---- */

  /** Switching one boolean setting always changes the hash. */
  lemma SwitchChangesHash(node: Node, i: nat, m: Memory, doubleBytes: real -> seq<Byte>)
    requires i < |Pieces(node)| && ReadsApart(Pieces(node))
    requires Pieces(node)[i].Leaf? && Pieces(node)[i].node.BoolNode?
    ensures var a := Pieces(node)[i].node.read;
            ModuleHash(node, m[a := BoolV(!BoolAt(m, a))], doubleBytes) != ModuleHash(node, m, doubleBytes)
  {
    var pieces := Pieces(node);
    var a := pieces[i].node.read;
    var m' := m[a := BoolV(!BoolAt(m, a))];
    PiecesAreLeaves(node);
    BytesBesideSwitch(pieces, i, m, doubleBytes);
    HashIsPieces(node, m, doubleBytes);
    HashIsPieces(node, m', doubleBytes);
    hide BytesOf, Hash, HashBytes, Pieces, OnlyLeaves, ReadsApart;
    var bytes, k := HashBytes(node, m, doubleBytes), |BytesOf(pieces[..i], m, doubleBytes)|;
    OneByteNeverCollides(0, bytes, k, if BoolAt(m, a) then 0 else 1);
  }

  lemma BytesBesideSwitch(pieces: seq<Piece>, i: nat, m: Memory, doubleBytes: real -> seq<Byte>)
    requires i < |pieces| && ReadsApart(pieces) && OnlyLeaves(pieces)
    requires pieces[i].Leaf? && pieces[i].node.BoolNode?
    ensures var a, k, bytes := pieces[i].node.read, |BytesOf(pieces[..i], m, doubleBytes)|, BytesOf(pieces, m, doubleBytes);
            var b := if BoolAt(m, a) then 0 else 1;
            && k < |bytes| && bytes[k] != b
            && BytesOf(pieces, m[a := BoolV(!BoolAt(m, a))], doubleBytes) == bytes[k := b]
  {
    var a := pieces[i].node.read;
    var m' := m[a := BoolV(!BoolAt(m, a))];
    assert PieceBytes(pieces[i], m, doubleBytes) == [if BoolAt(m, a) then 1 else 0];
    assert PieceBytes(pieces[i], m', doubleBytes) == [if BoolAt(m, a) then 0 else 1];
    assert SameBut(ReadOf(pieces[i]) + ReadOf(pieces[i]), m, m');
    hide BytesOf, PieceBytes, ReadsApart, OnlyLeaves, ReadOf, SameBut;
    SameAround(pieces, i, i, m, m', doubleBytes);
    SplitBytes(pieces, i, m, doubleBytes);
    SplitBytes(pieces, i, m', doubleBytes);
    OneReplaced(BytesOf(pieces[..i], m, doubleBytes), if BoolAt(m, a) then 1 else 0, if BoolAt(m, a) then 0 else 1,
                BytesOf(pieces[i + 1..], m, doubleBytes));
  }

  lemma OneReplaced(before: seq<Byte>, b: Byte, c: Byte, after: seq<Byte>)
    ensures var bytes := before + [b] + after;
            |before| < |bytes| && bytes[|before|] == b && before + [c] + after == bytes[|before| := c]
  {
  }
}
