/** Shadowed objects are all or nothing, and what that means for the location module's intervals. */
module ConfigShadow {
  import opened Prelude
  import opened Words
  import opened ConfigTree
  import opened ConfigRoundTrip

  /** A shadow apart from its primary settings, which no child writes directly. */
  ghost predicate ShadowApart(node: Node)
  {
    && node.ObjectNode? && node.hooks.Shadowed?
    && Block(node.hooks.primary, node.hooks.length) !! Block(node.hooks.shadow, node.hooks.length)
    && Block(node.hooks.primary, node.hooks.length) !! TouchedAll(node.children)
  }

  ghost predicate PrimaryKept(h: Hooks, m: Memory, m': Memory)
    requires h.Shadowed?
  {
    forall a :: a in Block(h.primary, h.length) ==> (a in m' <==> a in m) && (a in m ==> m'[a] == m[a])
  }

  ghost predicate ShadowCommitted(h: Hooks, m: Memory, m': Memory)
    requires h.Shadowed?
  {
    forall a :: a in Block(h.primary, h.length) ==> CellCommitted(h, m, m', a)
  }

  predicate CellCommitted(h: Hooks, m: Memory, m': Memory, a: Addr)
    requires h.Shadowed?
  {
    a - h.primary + h.shadow in m ==> a in m' && m'[a] == m[a - h.primary + h.shadow]
  }

  /**
   * Whatever the JSON, and wherever it fails: a failure leaves every primary setting as it was, and
   * a success has passed the guard and brings the whole shadow across.
   */
  lemma AllOrNothing(json: Json, node: Node, m: Memory)
    requires ShadowApart(node)
    ensures var h, (m', st) := node.hooks, Processed(json, node, m);
            && (st != OK ==> PrimaryKept(h, m, m'))
            && (st == OK ==>
                  json.JObject?
                  && var m2 := ProcessedFields(json.fields, node.children, Entered(h, m)).0;
                     GuardHolds(h, m2) && ShadowCommitted(h, m2, m'))
  {
    if json.JObject? {
      var (m2, st) := ProcessedFields(json.fields, node.children, Entered(node.hooks, m));
      FieldsLeavePrimary(json.fields, node, m);
      ExitIsCommitOrNothing(node.hooks, m2, st);
      hide PrimaryKept, ShadowCommitted, Exited, ProcessedFields, TouchedAll, Block, GuardHolds;
    }
  }

  lemma FieldsLeavePrimary(fields: seq<Field>, node: Node, m: Memory)
    requires ShadowApart(node)
    ensures PrimaryKept(node.hooks, m, ProcessedFields(fields, node.children, Entered(node.hooks, m)).0)
  {
    ProcessedFieldsTouches(fields, node.children, Entered(node.hooks, m));
    hide ProcessedFields, TouchedAll;
  }

  lemma ExitIsCommitOrNothing(h: Hooks, m: Memory, st: Status)
    requires h.Shadowed?
    ensures var (m', st') := Exited(h, m, st);
            && (st' != OK ==> m' == m)
            && (st' == OK ==> GuardHolds(h, m) && ShadowCommitted(h, m, m'))
  {
    if Exited(h, m, st).1 == OK {
      ExitCommits(h, m);
    }
    hide ShadowCommitted, GuardHolds, Copied;
  }

  lemma ExitCommits(h: Hooks, m: Memory)
    requires h.Shadowed? && Exited(h, m, OK).1 == OK
    ensures ShadowCommitted(h, m, Exited(h, m, OK).0)
  {
    hide Exited, Block;
    forall a | a in Block(h.primary, h.length) ensures CellCommitted(h, m, Exited(h, m, OK).0, a) {
      InBlockOnly(a, h.primary, h.length);
      ExitedCell(h, m, a);
    }
  }

  lemma InBlockOnly(a: Addr, base: Addr, length: nat)
    requires a in Block(base, length)
    ensures base <= a < base + length
  {
  }

  /* ---- All or nothing as a whole ---- */

  /** The cells that a command may leave changed in any case: nobody reads settings there. */
  function Scratch(h: Hooks): set<Addr>
  {
    match h
    case NoHooks => {}
    case Shadowed(_, s, n, _) => Block(s, n)
  }

  /** A failing command changes nothing but scratch cells. */
  ghost predicate FailsCleanly(json: Json, node: Node, m: Memory)
    requires node.ObjectNode?
  {
    var (m', st) := Processed(json, node, m);
    st != OK ==> SameOutside(m, m', Scratch(node.hooks))
  }

  /** Every leaf accepts some value, and every object below finds its children by name and has no hooks. */
  ghost predicate Settable(node: Node)
    decreases node
  {
    match node
    case IntNode(_, _, _, lo, hi) => lo <= hi && lo <= INT32_MAX && INT32_MIN <= hi
    case BoolNode(_, _, _) => true
    case FloatNode(_, _, _, lower, upper) => lower.Some? && upper.Some? ==> lower.value <= upper.value
    case TextNode(_, _, _, _) => true
    case EnumNode(_, _, _, enums) => enums != []
    case ObjectNode(_, children, h) =>
      h.NoHooks? && DistinctNames(children) && forall i :: 0 <= i < |children| ==> Settable(children[i])
  }

  /**
   * An object is all or nothing as a whole, shadowed or not, exactly when every cell that a leaf
   * below it sets lies in its shadow.
   */
  lemma AllOrNothingAsAWhole(node: Node)
    requires node.ObjectNode? && DistinctNames(node.children)
    requires forall i :: 0 <= i < |node.children| ==> Settable(node.children[i])
    ensures (forall json, m :: FailsCleanly(json, node, m)) <==> TouchedAll(node.children) <= Scratch(node.hooks)
  {
    if TouchedAll(node.children) <= Scratch(node.hooks) {
      forall json, m ensures FailsCleanly(json, node, m) {
        FailureStaysWithin(json, node, m, {});
      }
    } else {
      var a :| a in TouchedAll(node.children) && a !in Scratch(node.hooks);
      var json := SlipsThrough(node, a);
      assert !FailsCleanly(json, node, map[]);
    }
  }

  /** A failing command changes scratch cells and what leaves set outside them. */
  lemma FailureStaysWithin(json: Json, node: Node, m: Memory, others: set<Addr>)
    requires node.ObjectNode? && TouchedAll(node.children) <= Scratch(node.hooks) + others
    ensures var (m', st) := Processed(json, node, m);
            st != OK ==> SameOutside(m, m', Scratch(node.hooks) + others)
    ensures others == {} ==> FailsCleanly(json, node, m)
  {
    assert others == {} ==> Scratch(node.hooks) + others == Scratch(node.hooks);
    if json.JObject? {
      var h, m1 := node.hooks, Entered(node.hooks, m);
      var (m2, st) := ProcessedFields(json.fields, node.children, m1);
      ProcessedFieldsTouches(json.fields, node.children, m1);
      EnteringTouchesScratch(h, m);
      TwoSteps(m, m1, m2, Scratch(h), TouchedAll(node.children), Scratch(h) + others);
      assert Processed(json, node, m) == Exited(h, m2, st);
      hide *;
      ExitSucceedsOrLeaves(h, m2, st);
    }
  }

  lemma EnteringTouchesScratch(h: Hooks, m: Memory)
    ensures SameOutside(m, Entered(h, m), Scratch(h))
  {
  }

  lemma ExitSucceedsOrLeaves(h: Hooks, m: Memory, st: Status)
    ensures Exited(h, m, st).1 != OK ==> Exited(h, m, st).0 == m
  {
  }

  lemma TwoSteps(m: Memory, m1: Memory, m2: Memory, a: set<Addr>, b: set<Addr>, cells: set<Addr>)
    requires SameOutside(m, m1, a) && SameOutside(m1, m2, b) && a <= cells && b <= cells
    ensures SameOutside(m, m2, cells)
  {
  }

  /** Some command succeeds in creating cell a. */
  lemma {:induction false} Reached(node: Node, a: Addr) returns (json: Json)
    requires Settable(node) && a in Touched(node)
    ensures Processed(json, node, map[]).1 == OK && a in Processed(json, node, map[]).0
    decreases node
  {
    match node
    case IntNode(_, _, _, lo, hi) =>
      var i := if lo < INT32_MIN then INT32_MIN else lo;
      IntPrints(i);
      json := JNumber(i as real);
    case BoolNode(_, _, _) => json := JBool(true);
    case FloatNode(_, _, _, lower, upper) =>
      json := JNumber(if lower.Some? then lower.value else if upper.Some? then upper.value else 0.0);
    case TextNode(_, _, _, _) => json := JString([]);
    case EnumNode(_, _, _, enums) => json := JString(enums[0].0);
    case ObjectNode(_, children, _) =>
      TouchedIsUnion(children, a);
      var i :| 0 <= i < |children| && a in Touched(children[i]);
      var value := Reached(children[i], a);
      ChildByName(children, i);
      json := JObject([Field(children[i].name, value)]);
      hide Touched, Settable;
      OneField(json.fields[0], children, i, map[]);
  }

  lemma OneField(f: Field, children: seq<Node>, i: nat, m: Memory)
    requires DistinctNames(children) && i < |children| && f.name == children[i].name
    requires Processed(f.value, children[i], m).1 == OK
    ensures ProcessedFields([f], children, m) == Processed(f.value, children[i], m)
    ensures ProcessedFields([f, Field(f.name, JNull)], children, m) == (Processed(f.value, children[i], m).0, EINVAL)
  {
    ChildByName(children, i);
    var (m1, st) := Processed(f.value, children[i], m);
    var again := Field(f.name, JNull);
    assert [f, again][1..] == [again] && [f][1..] == [] && [again][1..] == [];
    assert ProcessedFields([again], children, m1) == (m1, EINVAL);
  }

  /** Setting a leaf outside the shadow, and then failing on the same name, leaves the leaf set. */
  lemma SlipsThrough(node: Node, a: Addr) returns (json: Json)
    requires node.ObjectNode? && DistinctNames(node.children)
    requires forall i :: 0 <= i < |node.children| ==> Settable(node.children[i])
    requires a in TouchedAll(node.children)
    ensures Processed(json, node, map[]).1 != OK && a in Processed(json, node, map[]).0
  {
    var children := node.children;
    TouchedIsUnion(children, a);
    var i :| 0 <= i < |children| && a in Touched(children[i]);
    var value := Reached(children[i], a);
    var f := Field(children[i].name, value);
    json := JObject([f, Field(f.name, JNull)]);
    assert Entered(node.hooks, map[]) == map[];
    hide Settable, Touched, TouchedAll;
    OneField(f, children, i, map[]);
  }

  /* ---- The location module ---- */

  function Ascii(s: string): Text
  {
    seq(|s|, i requires 0 <= i < |s| => (s[i] as int) % 256)
  }

  // Cells: the configuration structure at 0, its shadow at 11, and the radius behind its own callbacks.
  const LENGTH: nat := 11
  const RADIUS: Addr := 22
  const DAY := 86400

  function ShadowedInt(name: string, field: Addr, hi: int): Node
  {
    IntNode(Ascii(name), field, field + LENGTH, 0, hi)
  }

  function ShadowedBool(name: string, field: Addr): Node
  {
    BoolNode(Ascii(name), field, field + LENGTH)
  }

  const LOCATION_CHILDREN: seq<Node> := [
    FloatNode(Ascii("radius"), RADIUS, RADIUS, Some(0.0), Some(1000000.0)),
    ShadowedInt("interval_min", 0, DAY),
    ShadowedInt("interval_max", 1, DAY),
    ShadowedBool("min_publish", 2),
    ShadowedBool("lock_trigger", 3),
    ShadowedBool("loc_ack", 4),
    ShadowedBool("tower", 5),
    ShadowedBool("gnss", 6),
    ShadowedBool("wps", 7),
    ShadowedBool("enhance_loc", 8),
    ShadowedBool("loc_cb", 9),
    ShadowedBool("satdiag", 10)]

  const LOCATION: Node := ObjectNode(Ascii("location"), LOCATION_CHILDREN, Shadowed(0, LENGTH, LENGTH, AtMost(0, 1)))

  ghost predicate Interval(m: Memory, a: Addr)
  {
    a in m && m[a].IntV? && 0 <= m[a].i <= DAY
  }

  /** 0 <= interval_min <= interval_max <= 86400 */
  ghost predicate IntervalsOk(m: Memory)
  {
    Interval(m, 0) && Interval(m, 1) && m[0].i <= m[1].i
  }

  /** A leaf that keeps the shadow intervals in range and leaves the primary ones alone. */
  ghost predicate SafeLeaf(node: Node)
  {
    && !node.ObjectNode? && node.write != 0 && node.write != 1
    && (node.write == LENGTH || node.write == LENGTH + 1 ==> node.IntNode? && 0 <= node.min && node.max <= DAY)
  }

  lemma {:induction false} FieldsKeepRange(fields: seq<Field>, children: seq<Node>, m: Memory)
    requires forall i :: 0 <= i < |children| ==> SafeLeaf(children[i])
    requires Interval(m, LENGTH) && Interval(m, LENGTH + 1)
    ensures var m' := ProcessedFields(fields, children, m).0;
            Interval(m', LENGTH) && Interval(m', LENGTH + 1)
    decreases |fields|
  {
    if fields != [] {
      var child := Child(children, fields[0].name);
      if child.None? {
        FieldsKeepRange(fields[1..], children, m);
      } else {
        var i := ChildIsMember(children, fields[0].name);
        assert SafeLeaf(children[i]);
        FieldsKeepRange(fields[1..], children, Processed(fields[0].value, child.value, m).0);
      }
    }
  }

  lemma LocationLeavesAreSafe()
    ensures forall i :: 0 <= i < |LOCATION_CHILDREN| ==> SafeLeaf(LOCATION_CHILDREN[i])
  {
  }

  lemma {:induction false} SafeLeavesTouch(children: seq<Node>)
    requires forall i :: 0 <= i < |children| ==> SafeLeaf(children[i])
    ensures 0 !in TouchedAll(children) && 1 !in TouchedAll(children)
  {
    if children != [] {
      SafeLeavesTouch(children[1..]);
    }
  }

  /** One set_cfg of the location module, good or bad, keeps the intervals ordered and in range. */
  lemma SetCfgKeepsIntervals(json: Json, m: Memory)
    requires IntervalsOk(m)
    ensures IntervalsOk(Processed(json, LOCATION, m).0)
  {
    if json.JObject? {
      LocationLeavesAreSafe();
      SafeLeavesTouch(LOCATION_CHILDREN);
      IntervalsSurvive(json.fields, LOCATION_CHILDREN, LOCATION.hooks, m);
    }
  }

  lemma IntervalsSurvive(fields: seq<Field>, children: seq<Node>, h: Hooks, m: Memory)
    requires h == Shadowed(0, LENGTH, LENGTH, AtMost(0, 1)) && IntervalsOk(m)
    requires forall i :: 0 <= i < |children| ==> SafeLeaf(children[i])
    requires 0 !in TouchedAll(children) && 1 !in TouchedAll(children)
    ensures var (m2, st) := ProcessedFields(fields, children, Entered(h, m));
            IntervalsOk(Exited(h, m2, st).0)
  {
    var m1 := Entered(h, m);
    var (m2, st) := ProcessedFields(fields, children, m1);
    ShadowStartsInRange(h, m);
    FieldsKeepRange(fields, children, m1);
    ProcessedFieldsTouches(fields, children, m1);
    hide Entered, Exited, ProcessedFields, SafeLeaf, TouchedAll;
    assert IntervalsOk(m2);
    LeavingKeepsIntervals(h, m2, st);
  }

  lemma ShadowStartsInRange(h: Hooks, m: Memory)
    requires h == Shadowed(0, LENGTH, LENGTH, AtMost(0, 1)) && IntervalsOk(m)
    ensures var m1 := Entered(h, m); IntervalsOk(m1) && Interval(m1, LENGTH) && Interval(m1, LENGTH + 1)
  {
    hide Entered;
    EnteredCell(h, m, 0);
    EnteredCell(h, m, 1);
    EnteredCell(h, m, LENGTH);
    EnteredCell(h, m, LENGTH + 1);
  }

  lemma LeavingKeepsIntervals(h: Hooks, m: Memory, st: Status)
    requires h == Shadowed(0, LENGTH, LENGTH, AtMost(0, 1))
    requires IntervalsOk(m) && Interval(m, LENGTH) && Interval(m, LENGTH + 1)
    ensures IntervalsOk(Exited(h, m, st).0)
  {
    if Exited(h, m, st).1 == OK {
      assert GuardHolds(h, m) && Exited(h, m, st) == Exited(h, m, OK);
      hide Exited;
      ExitedCell(h, m, 0);
      ExitedCell(h, m, 1);
    } else {
      assert Exited(h, m, st).0 == m;
    }
  }

  function ProcessedAll(jsons: seq<Json>, node: Node, m: Memory): Memory
  {
    if jsons == [] then m else ProcessedAll(jsons[1..], node, Processed(jsons[0], node, m).0)
  }

  /** Over every sequence of set_cfg commands. */
  lemma {:induction false} IntervalsAlwaysOk(jsons: seq<Json>, m: Memory)
    requires IntervalsOk(m)
    ensures IntervalsOk(ProcessedAll(jsons, LOCATION, m))
    decreases |jsons|
  {
    if jsons != [] {
      SetCfgKeepsIntervals(jsons[0], m);
      IntervalsAlwaysOk(jsons[1..], Processed(jsons[0], LOCATION, m).0);
    }
  }

  /** The radius is not shadowed: a command that fails later on has changed it all the same. */
  lemma RadiusSlipsThrough(m: Memory)
    ensures var json := JObject([Field(Ascii("radius"), JNumber(5.0)), Field(Ascii("interval_min"), JNumber(-1.0))]);
            var (m', st) := Processed(json, LOCATION, m);
            st == EDOM && FloatAt(m', RADIUS) == 5.0
  {
    var fields := [Field(Ascii("radius"), JNumber(5.0)), Field(Ascii("interval_min"), JNumber(-1.0))];
    var c := LOCATION_CHILDREN;
    var m1 := Entered(LOCATION.hooks, m);
    assert |Ascii("radius")| == 6 && |Ascii("interval_min")| == 12;
    assert Child(c, fields[0].name) == Some(c[0]);
    assert Child(c, fields[1].name) == Child(c[1..], fields[1].name) == Some(c[1]);
    var m2 := m1[RADIUS := FloatV(5.0)];
    assert Processed(fields[0].value, c[0], m1) == (m2, OK);
    assert ToInt(-1.0) == -1;
    assert Processed(fields[1].value, c[1], m2) == (m2, EDOM);
    assert fields[1..][0] == fields[1];
    assert ProcessedFields(fields[1..], c, m2) == (m2, EDOM);
    assert ProcessedFields(fields, c, m1) == (m2, EDOM);
  }

  /* ---- The round trip applies to the location object ---- */

  predicate IsCell(child: Node, i: nat)
  {
    && !child.ObjectNode? && !child.EnumNode?
    && (if i == 0 then child.read == child.write == RADIUS else child.read == i - 1 && child.write == child.read + LENGTH)
  }

  lemma LocationCells()
    ensures forall i :: 0 <= i < |LOCATION_CHILDREN| ==> IsCell(LOCATION_CHILDREN[i], i)
  {
  }

  /** Length, first and eleventh character tell the names apart. */
  function NameKey(name: Text): (int, int, int)
  {
    (|name|, if |name| > 0 then name[0] as int else -1, if |name| > 10 then name[10] as int else -1)
  }

  lemma LocationNames(i: nat, j: nat)
    requires i < j < |LOCATION_CHILDREN|
    ensures NameKey(LOCATION_CHILDREN[i].name) != NameKey(LOCATION_CHILDREN[j].name)
  {
  }

  lemma CellLands(child: Node, i: nat, h: Hooks, x: (Addr, Addr))
    requires i <= LENGTH && IsCell(child, i) && h == Shadowed(0, LENGTH, LENGTH, AtMost(0, 1)) && x in Landings(child)
    ensures GoesThrough(h, x)
  {
  }

  lemma CellsApart(a: Node, b: Node, i: nat, j: nat)
    requires i < j <= LENGTH && IsCell(a, i) && IsCell(b, j)
    ensures Good(a) && Good(b) && Touched(a) !! Touched(b)
  {
  }

  lemma IntervalCell(children: seq<Node>, i: nat)
    requires 1 <= i < |children| && IsCell(children[i], i)
    ensures (i - 1 + LENGTH, i - 1) in LandingsAll(children)
  {
    MembersTouched(children, i);
    assert (i - 1 + LENGTH, i - 1) in Landings(children[i]);
  }

  lemma CellsFitShadow(children: seq<Node>, h: Hooks)
    requires |children| == LENGTH + 1 && h == Shadowed(0, LENGTH, LENGTH, AtMost(0, 1))
    requires forall i :: 0 <= i < |children| ==> IsCell(children[i], i)
    ensures GoodHooks(h, children)
  {
    hide LandingsAll, IsCell, GoesThrough, Landings;
    forall x | x in LandingsAll(children) ensures GoesThrough(h, x) {
      LandingsIsUnion(children, x);
      var i :| 0 <= i < |children| && x in Landings(children[i]);
      CellLands(children[i], i, h, x);
    }
    IntervalCell(children, 1);
    IntervalCell(children, 2);
  }

  lemma CellsMakeModule(name: Text, children: seq<Node>, h: Hooks)
    requires |children| == LENGTH + 1 && h == Shadowed(0, LENGTH, LENGTH, AtMost(0, 1))
    requires forall i :: 0 <= i < |children| ==> IsCell(children[i], i)
    requires forall i, j :: 0 <= i < j < |children| ==> children[i].name != children[j].name
    ensures SelfContained(ObjectNode(name, children, h))
  {
    hide GoodHooks, LandingsAll, TouchedAll, Touched, IsCell;
    CellsFitShadow(children, h);
    forall i, j | 0 <= i < j < |children| ensures Touched(children[i]) !! Touched(children[j]) {
      CellsApart(children[i], children[j], i, j);
    }
    forall i | 0 <= i < |children| ensures Good(children[i]) {
      if i == 0 { CellsApart(children[0], children[1], 0, 1); } else { CellsApart(children[0], children[i], 0, i); }
    }
  }

  /** What save, load and the round trip ask of a module, the location object meets. */
  lemma LocationIsSelfContained()
    ensures SelfContained(LOCATION)
  {
    LocationCells();
    forall i, j | 0 <= i < j < |LOCATION_CHILDREN| ensures LOCATION_CHILDREN[i].name != LOCATION_CHILDREN[j].name {
      LocationNames(i, j);
    }
    hide IsCell, SelfContained;
    CellsMakeModule(Ascii("location"), LOCATION_CHILDREN, Shadowed(0, LENGTH, LENGTH, AtMost(0, 1)));
  }

  /* ---- The location object as a whole ---- */

  /** Its shadow is apart from its settings, and the radius is the one cell set outside the shadow. */
  lemma LocationCellsTouched(children: seq<Node>)
    requires |children| == LENGTH + 1
    requires forall i :: 0 <= i < |children| ==> IsCell(children[i], i)
    ensures TouchedAll(children) <= Block(LENGTH, LENGTH) + {RADIUS} && RADIUS in TouchedAll(children)
  {
    forall a | a in TouchedAll(children) ensures a in Block(LENGTH, LENGTH) + {RADIUS} {
      TouchedIsUnion(children, a);
      var i :| 0 <= i < |children| && a in Touched(children[i]);
      CellTouched(children[i], i);
    }
    CellTouched(children[0], 0);
    MembersTouched(children, 0);
  }

  lemma CellTouched(child: Node, i: nat)
    requires i <= LENGTH && IsCell(child, i)
    ensures Touched(child) == {if i == 0 then RADIUS else LENGTH + i - 1}
    ensures i > 0 ==> LENGTH + i - 1 in Block(LENGTH, LENGTH)
  {
  }

  lemma LocationShadowIsApart()
    ensures ShadowApart(LOCATION)
  {
    LocationCells();
    LocationCellsTouched(LOCATION_CHILDREN);
    hide TouchedAll;
  }

  /**
   * A failing command leaves the radius and nothing else changed outside the shadow, and some failing
   * command does change it: the location object is not all or nothing as a whole.
   */
  lemma OnlyTheRadiusSlipsThrough(json: Json, m: Memory)
    ensures var (m', st) := Processed(json, LOCATION, m);
            st != OK ==> SameOutside(m, m', Scratch(LOCATION.hooks) + {RADIUS})
    ensures !(forall json', m' :: FailsCleanly(json', LOCATION, m'))
  {
    LocationCells();
    LocationCellsTouched(LOCATION_CHILDREN);
    LocationIsSelfContained();
    LocationLeavesAreSettable();
    hide TouchedAll;
    FailureStaysWithin(json, LOCATION, m, {RADIUS});
    AllOrNothingAsAWhole(LOCATION);
  }

  lemma LocationLeavesAreSettable()
    ensures forall i :: 0 <= i < |LOCATION_CHILDREN| ==> Settable(LOCATION_CHILDREN[i])
  {
  }
}
