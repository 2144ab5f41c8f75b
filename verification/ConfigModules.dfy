/** The firmware's modules with several enumerations, and what their hashes tell apart. */
module ConfigModules {
  import opened Prelude
  import opened Words
  import opened ConfigTree
  import opened ConfigRoundTrip
  import opened ConfigFile
  import opened ConfigHashing
  import opened ConfigShadow

  /* ---- Trees without texts, whose enumerations can be read from the left ---- */

  ghost predicate PrefixFreeTree(node: Node)
  {
    match node
    case TextNode(_, _, _, size) => size == 1
    case EnumNode(_, _, _, enums) => SameWidth(enums) || PrefixFree(enums)
    case ObjectNode(_, children, _) => forall i :: 0 <= i < |children| ==> PrefixFreeTree(children[i])
    case _ => true
  }

  lemma {:induction false} PiecesFromLeft(node: Node)
    requires PrefixFreeTree(node)
    ensures forall p :: p in Pieces(node) ==> FromLeft(p)
    decreases node, 1
  {
    if node.ObjectNode? {
      PiecesAllFromLeft(node.children);
    }
  }

  lemma {:induction false} PiecesAllFromLeft(children: seq<Node>)
    requires forall i :: 0 <= i < |children| ==> PrefixFreeTree(children[i])
    ensures forall p :: p in PiecesAll(children) ==> FromLeft(p)
    decreases children, 0
  {
    if children != [] {
      PiecesFromLeft(children[0]);
      PiecesAllFromLeft(children[1..]);
    }
  }

  /** Any number of enumerations is told apart if in none of them a name is the beginning of another. */
  lemma PrefixFreeTreesAreToldApart(node: Node, doubleBytes: real -> seq<Byte>, doubles: set<real>)
    requires PrefixFreeTree(node) && Encodes(doubleBytes, doubles)
    ensures ToldApart(node, doubleBytes, doubles)
  {
    PiecesFromLeft(node);
    ReadableIsToldApart(node, |Pieces(node)|, doubleBytes, doubles);
  }

  /** Names that begin with different letters. */
  lemma InitialsTell(enums: seq<(Text, int)>)
    requires forall i :: 0 <= i < |enums| ==> enums[i].0 != []
    requires forall i, j :: 0 <= i < j < |enums| ==> enums[i].0[0] != enums[j].0[0]
    ensures PrefixFree(enums) && DistinctEnums(enums)
  {
  }

  /* ---- The geofence module ---- */

  const SHAPES: seq<(Text, int)> := [(Ascii("circular"), 0), (Ascii("polygonal"), 1)]

  /** Zone k's ten settings in cells 10 * k - 9 to 10 * k; the module's own interval is in cell 0. */
  function ZoneNode(name: string, base: Addr): Node
  {
    ObjectNode(Ascii(name), [
      BoolNode(Ascii("enable"), base, base),
      FloatNode(Ascii("lat"), base + 1, base + 1, None, None),
      FloatNode(Ascii("lon"), base + 2, base + 2, None, None),
      FloatNode(Ascii("radius"), base + 3, base + 3, None, None),
      BoolNode(Ascii("outside"), base + 4, base + 4),
      BoolNode(Ascii("inside"), base + 5, base + 5),
      BoolNode(Ascii("enter"), base + 6, base + 6),
      BoolNode(Ascii("exit"), base + 7, base + 7),
      IntNode(Ascii("verif"), base + 8, base + 8, INT32_MIN, INT32_MAX),
      EnumNode(Ascii("shape_type"), base + 9, base + 9, SHAPES)], NoHooks)
  }

  const GEOFENCE_CHILDREN: seq<Node> := [
    IntNode(Ascii("interval"), 0, 0, 0, DAY),
    ZoneNode("zone1", 1), ZoneNode("zone2", 11), ZoneNode("zone3", 21), ZoneNode("zone4", 31)]

  const GEOFENCE: Node := ObjectNode(Ascii("geofence"), GEOFENCE_CHILDREN, NoHooks)

  lemma ZoneIsPrefixFree(name: string, base: Addr)
    ensures PrefixFreeTree(ZoneNode(name, base))
  {
    assert Ascii("circular")[0] == 99 && Ascii("polygonal")[0] == 112;
    InitialsTell(SHAPES);
    hide PrefixFree, Ascii;
  }

  /** The hashed bytes of the geofence module, with its four enumerations, tell all its settings apart. */
  lemma GeofenceIsToldApart(doubleBytes: real -> seq<Byte>, doubles: set<real>)
    requires Encodes(doubleBytes, doubles)
    ensures ToldApart(GEOFENCE, doubleBytes, doubles)
  {
    ZoneIsPrefixFree("zone1", 1);
    ZoneIsPrefixFree("zone2", 11);
    ZoneIsPrefixFree("zone3", 21);
    ZoneIsPrefixFree("zone4", 31);
    hide ToldApart, ZoneNode, Ascii, PrefixFree, Encodes;
    PrefixFreeTreesAreToldApart(GEOFENCE, doubleBytes, doubles);
  }

  /* ---- The motion module ---- */

  const MOTIONS: seq<(Text, int)> := [(Ascii("disable"), 0), (Ascii("low"), 1), (Ascii("medium"), 2), (Ascii("high"), 3)]

  const HIGH_GS: seq<(Text, int)> := [(Ascii("disable"), 0), (Ascii("enable"), 1)]

  /** The two settings in cells 0 and 1. */
  const IMU_TRIG: Node := ObjectNode(Ascii("imu_trig"), [
    EnumNode(Ascii("motion"), 0, 0, MOTIONS),
    EnumNode(Ascii("high_g"), 1, 1, HIGH_GS)], NoHooks)

  /** The same for the motion module. */
  lemma ImuTrigIsToldApart(doubleBytes: real -> seq<Byte>, doubles: set<real>)
    requires Encodes(doubleBytes, doubles)
    ensures ToldApart(IMU_TRIG, doubleBytes, doubles)
  {
    assert Ascii("disable")[0] == 100 && Ascii("low")[0] == 108 && Ascii("medium")[0] == 109 && Ascii("high")[0] == 104;
    assert Ascii("enable")[0] == 101;
    InitialsTell(MOTIONS);
    InitialsTell(HIGH_GS);
    hide ToldApart, Ascii, PrefixFree, Encodes;
    PrefixFreeTreesAreToldApart(IMU_TRIG, doubleBytes, doubles);
  }

  /* ---- Enumerations that cannot be read ---- */

  const FIRSTS: seq<(Text, int)> := [(Ascii("a"), 0), (Ascii("ab"), 1)]
  const SECONDS: seq<(Text, int)> := [(Ascii("c"), 0), (Ascii("bc"), 1)]

  /** "a" and "bc", "ab" and "c": where one name begins another and one ends another, two enumerations are confused. */
  lemma EnumsCanBeConfused(name: Text, doubleBytes: real -> seq<Byte>, doubles: set<real>)
    ensures !ToldApart(ObjectNode(name, [EnumNode(Ascii("x"), 0, 0, FIRSTS), EnumNode(Ascii("y"), 1, 1, SECONDS)], NoHooks),
                       doubleBytes, doubles)
  {
    var x, y := EnumNode(Ascii("x"), 0, 0, FIRSTS), EnumNode(Ascii("y"), 1, 1, SECONDS);
    var node := ObjectNode(name, [x, y], NoHooks);
    var m, m' := map[0 := IntV(0), 1 := IntV(1)], map[0 := IntV(1), 1 := IntV(0)];
    TwoEnums(name, x, y, m, doubleBytes);
    TwoEnums(name, x, y, m', doubleBytes);
    assert Ascii("a") == [97] && Ascii("ab") == [97, 98] && Ascii("c") == [99] && Ascii("bc") == [98, 99];
    assert [97] + [98, 99] == [97, 98] + [99];
    ReadsAreLeaves(node);
    ReadsOfMember(Pieces(node), 1);
    hide Ascii, HashBytes, Reads;
    assert SameBytes(node, m, m', doubleBytes);
  }

  lemma TwoEnums(name: Text, x: Node, y: Node, m: Memory, doubleBytes: real -> seq<Byte>)
    requires x.EnumNode? && y.EnumNode?
    ensures var node := ObjectNode(name, [x, y], NoHooks);
            && Pieces(node) == [Name(name), Leaf(x), Leaf(y)]
            && HashBytes(node, m, doubleBytes) == name + (HashBytes(x, m, doubleBytes) + HashBytes(y, m, doubleBytes))
  {
    assert [x, y][1..] == [y] && [y][1..] == [];
    assert PiecesAll([y]) == [Leaf(y)] && PiecesAll([x, y]) == [Leaf(x), Leaf(y)];
    assert HashBytesAll([y], m, doubleBytes) == HashBytes(y, m, doubleBytes);
  }
}
