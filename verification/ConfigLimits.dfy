/** What values leaves take: every command keeps every setting within its limits, and says why it refused one. */
module ConfigLimits {
  import opened Prelude
  import opened Words
  import opened ConfigTree
  import opened ConfigRoundTrip
  import opened ConfigShadow

  /* ---- One leaf ---- */

  /** The leaf's limits, in numbers. */
  ghost predicate Fits(leaf: Node, v: Value)
  {
    match leaf
    case IntNode(_, _, _, min, max) => v.IntV? && min <= v.i <= max && -0x8000_0000 <= v.i <= 0x7fff_ffff
    case BoolNode(_, _, _) => v.BoolV?
    case FloatNode(_, _, _, lower, upper) =>
      && v.FloatV? && (lower.Some? ==> lower.value <= v.r) && (upper.Some? ==> v.r <= upper.value)
    case TextNode(_, _, _, size) => v.TextV? && (size > 0 ==> |v.t| < size)
    case EnumNode(_, _, _, enums) => v.IntV? && exists k :: 0 <= k < |enums| && enums[k].1 == v.i
    case ObjectNode(_, _, _) => true
  }

  /** The integer next to n toward zero, or the end of the 32-bit range that n lies beyond. */
  ghost predicate Truncates(n: real, i: int)
  {
    if n <= -2147483648.0 then i == -0x8000_0000
    else if n >= 2147483647.0 then i == 0x7fff_ffff
    else if n >= 0.0 then i as real <= n < i as real + 1.0
    else i as real - 1.0 < n <= i as real
  }

  ghost predicate FirstNamed(enums: seq<(Text, int)>, t: Text, k: int)
  {
    0 <= k < |enums| && enums[k].0 == t && forall j :: 0 <= j < k ==> enums[j].0 != t
  }

  /** The value that a JSON value stands for at a leaf; there is none if the types do not agree. */
  ghost predicate Means(json: Json, leaf: Node, v: Value)
  {
    match leaf
    case IntNode(_, _, _, _, _) => json.JNumber? && v.IntV? && Truncates(json.n, v.i)
    case BoolNode(_, _, _) => json.JBool? && v == BoolV(json.b)
    case FloatNode(_, _, _, _, _) => json.JNumber? && v == FloatV(json.n)
    case TextNode(_, _, _, _) => json.JString? && v == TextV(json.t)
    case EnumNode(_, _, _, enums) => json.JString? && exists k :: FirstNamed(enums, json.t, k) && v == IntV(enums[k].1)
    case ObjectNode(_, _, _) => false
  }

  lemma ToIntTruncates(n: real)
    ensures Truncates(n, ToInt(n)) && -0x8000_0000 <= ToInt(n) <= 0x7fff_ffff
    ensures forall i :: Truncates(n, i) ==> i == ToInt(n)
  {
    forall i | Truncates(n, i) ensures i == ToInt(n) { TruncatesOnce(n, i, ToInt(n)); }
  }

  lemma TruncatesOnce(n: real, i: int, j: int)
    requires Truncates(n, i) && Truncates(n, j)
    ensures i == j
  {
    assert i < j ==> i as real + 1.0 <= j as real;
    assert j < i ==> j as real + 1.0 <= i as real;
  }

  lemma {:induction false} EnumValueIsFirst(enums: seq<(Text, int)>, t: Text)
    ensures EnumValue(enums, t).Some? ==> exists k :: FirstNamed(enums, t, k) && enums[k].1 == EnumValue(enums, t).value
    ensures EnumValue(enums, t).None? ==> forall k :: 0 <= k < |enums| ==> enums[k].0 != t
    ensures forall k :: FirstNamed(enums, t, k) ==> EnumValue(enums, t) == Some(enums[k].1)
  {
    if enums != [] {
      var rest := enums[1..];
      EnumValueIsFirst(rest, t);
      if enums[0].0 == t {
        assert FirstNamed(enums, t, 0);
      } else {
        if EnumValue(rest, t).Some? {
          var k :| FirstNamed(rest, t, k) && rest[k].1 == EnumValue(rest, t).value;
          FirstInRest(enums, t, k + 1);
        }
        forall k | FirstNamed(enums, t, k) ensures EnumValue(enums, t) == Some(enums[k].1) {
          FirstInRest(enums, t, k);
        }
      }
    }
  }

  lemma FirstInRest(enums: seq<(Text, int)>, t: Text, k: int)
    requires enums != [] && enums[0].0 != t
    ensures FirstNamed(enums, t, k) <==> FirstNamed(enums[1..], t, k - 1)
  {
    if FirstNamed(enums[1..], t, k - 1) {
      forall j | 0 <= j < k ensures enums[j].0 != t { if j > 0 { assert enums[1..][j - 1] == enums[j]; } }
    }
  }

  /**
   * What a leaf makes of any JSON value: it takes the value meant if that is within the limits, ends in
   * EDOM if it is not and in EINVAL if none is meant, and changes nothing in these two cases.
   */
  lemma LeafOutcome(json: Json, leaf: Node, m: Memory)
    requires !leaf.ObjectNode?
    ensures var (m', st) := Processed(json, leaf, m);
            && (forall v :: Means(json, leaf, v) ==>
                  if Fits(leaf, v) then m' == m[leaf.write := v] && st == OK else m' == m && st == EDOM)
            && ((forall v :: !Means(json, leaf, v)) ==> m' == m && st == EINVAL)
  {
    if json.JNumber? { ToIntTruncates(json.n); }
    if json.JString? && leaf.EnumNode? { EnumValueIsFirst(leaf.enums, json.t); }
    hide Truncates, FirstNamed, ToInt;
    match leaf
    case IntNode(_, _, _, _, _) => if json.JNumber? { assert Means(json, leaf, IntV(ToInt(json.n))); }
    case BoolNode(_, _, _) => if json.JBool? { assert Means(json, leaf, BoolV(json.b)); }
    case FloatNode(_, _, _, _, _) => if json.JNumber? { assert Means(json, leaf, FloatV(json.n)); }
    case TextNode(_, _, _, _) => if json.JString? { assert Means(json, leaf, TextV(json.t)); }
    case EnumNode(_, _, _, enums) =>
      if json.JString? && EnumValue(enums, json.t).Some? {
        assert Means(json, leaf, IntV(EnumValue(enums, json.t).value));
      }
  }

  /* ---- The fields of an object ---- */

  /** Fields take effect one after the other, and none after the first that fails. */
  lemma {:induction false} FieldsInTurn(a: seq<Field>, b: seq<Field>, children: seq<Node>, m: Memory)
    ensures var (m', st) := ProcessedFields(a, children, m);
            ProcessedFields(a + b, children, m) == if st == OK then ProcessedFields(b, children, m') else (m', st)
    decreases |a|
  {
    if a == [] {
      assert a + b == b;
    } else {
      assert (a + b)[0] == a[0] && (a + b)[1..] == a[1..] + b;
      var child := Child(children, a[0].name);
      var m1 := if child.None? then m else Processed(a[0].value, child.value, m).0;
      FieldsInTurn(a[1..], b, children, m1);
    }
  }

  /** A field goes to the first node of its name; without one it is passed over. */
  lemma FieldByName(f: Field, children: seq<Node>, m: Memory)
    ensures (forall i :: 0 <= i < |children| ==> children[i].name != f.name) ==> ProcessedFields([f], children, m) == (m, OK)
    ensures forall i :: 0 <= i < |children| && children[i].name == f.name && (forall j :: 0 <= j < i ==> children[j].name != f.name) ==>
              ProcessedFields([f], children, m) == Processed(f.value, children[i], m)
  {
    assert [f][1..] == [];
    if Child(children, f.name).Some? {
      var k := ChildIsMember(children, f.name);
    }
    forall i | 0 <= i < |children| && children[i].name == f.name && (forall j :: 0 <= j < i ==> children[j].name != f.name)
      ensures Child(children, f.name) == Some(children[i])
    {
      FirstChild(children, i);
    }
    hide Child;
  }

  lemma {:induction false} FirstChild(children: seq<Node>, i: nat)
    requires i < |children| && forall j :: 0 <= j < i ==> children[j].name != children[i].name
    ensures Child(children, children[i].name) == Some(children[i])
  {
    if i > 0 {
      assert children[1..][i - 1] == children[i];
      FirstChild(children[1..], i - 1);
    }
  }

  /* ---- Whole trees ---- */

  function Leaves(node: Node): (leaves: set<Node>)
    ensures OnlyLeaves(leaves)
    decreases node, 1
  {
    if node.ObjectNode? then LeavesAll(node.children) else {node}
  }

  function LeavesAll(children: seq<Node>): (leaves: set<Node>)
    ensures OnlyLeaves(leaves)
    decreases children, 0
  {
    if children == [] then {} else Leaves(children[0]) + LeavesAll(children[1..])
  }

  function HooksIn(node: Node): set<Hooks>
    decreases node, 1
  {
    if node.ObjectNode? then (if node.hooks.Shadowed? then {node.hooks} else {}) + HooksInAll(node.children) else {}
  }

  function HooksInAll(children: seq<Node>): set<Hooks>
    decreases children, 0
  {
    if children == [] then {} else HooksIn(children[0]) + HooksInAll(children[1..])
  }

  predicate HasCell(leaf: Node, a: Addr)
    requires !leaf.ObjectNode?
  {
    a == leaf.read || a == leaf.write
  }

  /** Whatever the one leaf takes, the other does. */
  ghost predicate Narrower(leaf: Node, other: Node)
  {
    forall v :: Fits(leaf, v) ==> Fits(other, v)
  }

  /** Cell a of a leaf, if the copy reaches it, comes from a cell of a leaf with the same or narrower limits. */
  ghost predicate CopyFits(leaves: set<Node>, leaf: Node, a: Addr, to: Addr, from: Addr, length: nat)
    requires OnlyLeaves(leaves)
  {
    InBlock(a, to, length) ==>
      exists source :: source in leaves && Source(a, to, from) >= 0 && HasCell(source, Source(a, to, from)) && Narrower(source, leaf)
  }

  ghost predicate OnlyLeaves(leaves: set<Node>)
  {
    forall leaf :: leaf in leaves ==> !leaf.ObjectNode?
  }

  /** Shadows are apart from one another and from the settings that they shadow. */
  ghost predicate ShadowsApart(hooks: set<Hooks>)
  {
    && (forall h :: h in hooks ==> h.Shadowed?)
    && (forall h, k, a :: h in hooks && k in hooks && InBlock(a, h.shadow, h.length) ==>
          !InBlock(a, k.primary, k.length) && (h != k ==> !InBlock(a, k.shadow, k.length)))
  }

  /** Whatever shares a cell, or is copied to one, has limits to match. */
  ghost predicate Orderly(leaves: set<Node>, hooks: set<Hooks>)
  {
    && OnlyLeaves(leaves) && ShadowsApart(hooks)
    && (forall leaf, other :: leaf in leaves && other in leaves && HasCell(other, leaf.write) ==> Narrower(leaf, other))
    && (forall h, leaf, a :: h in hooks && leaf in leaves && HasCell(leaf, a) ==>
          CopyFits(leaves, leaf, a, h.shadow, h.primary, h.length) && CopyFits(leaves, leaf, a, h.primary, h.shadow, h.length))
  }

  /** A cell of a shadow that nobody has entered. */
  ghost predicate Idle(hooks: set<Hooks>, a: Addr)
  {
    exists h :: h in hooks && h.Shadowed? && InBlock(a, h.shadow, h.length)
  }

  /** Every setting is there and within the limits of its leaf; what idle shadows hold does not matter. */
  ghost predicate AllFit(leaves: set<Node>, idle: set<Hooks>, m: Memory)
    requires OnlyLeaves(leaves)
  {
    forall leaf, a :: leaf in leaves && HasCell(leaf, a) && !Idle(idle, a) ==> a in m && Fits(leaf, m[a])
  }

  lemma EnteringKeepsFit(leaves: set<Node>, hooks: set<Hooks>, idle: set<Hooks>, h: Hooks, m: Memory)
    requires Orderly(leaves, hooks) && idle <= hooks && h in hooks && AllFit(leaves, idle, m)
    ensures AllFit(leaves, idle - {h}, Entered(h, m))
  {
    var m' := Entered(h, m);
    assert h.Shadowed?;
    forall leaf, a | leaf in leaves && HasCell(leaf, a) && !Idle(idle - {h}, a) ensures a in m' && Fits(leaf, m'[a]) {
      hide AllFit, Fits, Entered;
      EnteredCellFits(leaves, hooks, idle, h, leaf, a, m);
    }
    hide Orderly, Fits;
  }

  lemma CellIsOrderly(leaves: set<Node>, hooks: set<Hooks>, h: Hooks, leaf: Node, a: Addr)
    requires Orderly(leaves, hooks) && h in hooks && leaf in leaves && !leaf.ObjectNode? && HasCell(leaf, a)
    ensures h.Shadowed? && OnlyLeaves(leaves) && ShadowsApart(hooks)
    ensures CopyFits(leaves, leaf, a, h.shadow, h.primary, h.length) && CopyFits(leaves, leaf, a, h.primary, h.shadow, h.length)
  {
    hide CopyFits, HasCell, Narrower;
  }

  lemma EnteredCellFits(leaves: set<Node>, hooks: set<Hooks>, idle: set<Hooks>, h: Hooks, leaf: Node, a: Addr, m: Memory)
    requires Orderly(leaves, hooks) && idle <= hooks && h in hooks && AllFit(leaves, idle, m)
    requires leaf in leaves && HasCell(leaf, a) && !Idle(idle - {h}, a)
    ensures a in Entered(h, m) && Fits(leaf, Entered(h, m)[a])
  {
    assert !leaf.ObjectNode?;
    hide Fits, Entered, Narrower, Orderly, CopyFits, AllFit;
    CellIsOrderly(leaves, hooks, h, leaf, a);
    EnteredCell(h, m, a);
    if InBlock(a, h.shadow, h.length) {
      CopiedFits(leaves, hooks, idle, h, leaf, a, m);
    } else {
      assert !Idle(idle, a);
      OtherFits(leaves, idle, leaf, a, m);
    }
  }

  lemma OtherFits(leaves: set<Node>, idle: set<Hooks>, leaf: Node, a: Addr, m: Memory)
    requires OnlyLeaves(leaves) && AllFit(leaves, idle, m) && leaf in leaves && HasCell(leaf, a) && !Idle(idle, a)
    ensures a in m && Fits(leaf, m[a])
  {
    hide Fits, Idle;
  }

  lemma CopiedFits(leaves: set<Node>, hooks: set<Hooks>, idle: set<Hooks>, h: Hooks, leaf: Node, a: Addr, m: Memory)
    requires h.Shadowed? && OnlyLeaves(leaves) && ShadowsApart(hooks) && idle <= hooks && h in hooks && AllFit(leaves, idle, m)
    requires InBlock(a, h.shadow, h.length) && CopyFits(leaves, leaf, a, h.shadow, h.primary, h.length)
    ensures var source := Source(a, h.shadow, h.primary); source >= 0 && source in m && Fits(leaf, m[source])
  {
    hide Fits, ShadowsApart;
    var source :| source in leaves && Source(a, h.shadow, h.primary) >= 0
      && HasCell(source, Source(a, h.shadow, h.primary)) && Narrower(source, leaf);
    NotIdle(hooks, idle, h, Source(a, h.shadow, h.primary));
    hide Idle, CopyFits;
    assert Fits(source, m[Source(a, h.shadow, h.primary)]);
  }

  lemma NotIdle(hooks: set<Hooks>, idle: set<Hooks>, h: Hooks, a: Addr)
    requires ShadowsApart(hooks) && idle <= hooks && h in hooks
    ensures InBlock(a, h.primary, h.length) ==> !Idle(idle, a)
    ensures InBlock(a, h.shadow, h.length) ==> !Idle(idle - {h}, a)
  {
  }

  lemma LeavingKeepsFit(leaves: set<Node>, hooks: set<Hooks>, idle: set<Hooks>, h: Hooks, m: Memory, st: Status)
    requires Orderly(leaves, hooks) && idle <= hooks && h in hooks && AllFit(leaves, idle - {h}, m)
    ensures AllFit(leaves, idle, Exited(h, m, st).0)
  {
    var m' := Exited(h, m, st).0;
    forall leaf, a | leaf in leaves && HasCell(leaf, a) && !Idle(idle, a) ensures a in m' && Fits(leaf, m'[a]) {
      assert !Idle(idle - {h}, a);
      if m' != m {
        assert Exited(h, m, st) == Exited(h, m, OK) == (m', OK);
        ExitedCell(h, m, a);
        if InBlock(a, h.primary, h.length) {
          assert CopyFits(leaves, leaf, a, h.primary, h.shadow, h.length);
          var source :| source in leaves && Source(a, h.primary, h.shadow) >= 0
            && HasCell(source, Source(a, h.primary, h.shadow)) && Narrower(source, leaf);
          NotIdle(hooks, idle, h, Source(a, h.primary, h.shadow));
          assert Fits(source, m[Source(a, h.primary, h.shadow)]);
        }
      }
    }
  }

  lemma LeafKeepsFit(leaves: set<Node>, hooks: set<Hooks>, idle: set<Hooks>, json: Json, leaf: Node, m: Memory)
    requires Orderly(leaves, hooks) && leaf in leaves && AllFit(leaves, idle, m)
    ensures AllFit(leaves, idle, Processed(json, leaf, m).0)
  {
    hide Fits, Means, Processed;
    LeafOutcome(json, leaf, m);
    var m' := Processed(json, leaf, m).0;
    if v :| Means(json, leaf, v) && Fits(leaf, v) {
      forall other, a | other in leaves && HasCell(other, a) && !Idle(idle, a) ensures a in m' && Fits(other, m'[a]) {
        if a == leaf.write { assert Narrower(leaf, other); }
      }
    }
  }

  lemma {:induction false} NodeKeepsFit(leaves: set<Node>, hooks: set<Hooks>, idle: set<Hooks>, json: Json, node: Node, m: Memory)
    requires Orderly(leaves, hooks) && idle <= hooks && AllFit(leaves, idle, m)
    requires Leaves(node) <= leaves && HooksIn(node) <= hooks
    ensures AllFit(leaves, idle, Processed(json, node, m).0)
    decreases json, 1
  {
    if !node.ObjectNode? {
      LeafKeepsFit(leaves, hooks, idle, json, node, m);
    } else if json.JObject? {
      var h, fields, children := node.hooks, json.fields, node.children;
      var (m2, st) := ProcessedFields(fields, children, Entered(h, m));
      hide Orderly, AllFit, Exited;
      if h.NoHooks? {
        FieldsKeepFit(leaves, hooks, idle, fields, children, m);
        assert Exited(h, m2, st) == (m2, st) by { LeavingNothing(m2, st); }
      } else {
        EnteringKeepsFit(leaves, hooks, idle, h, m);
        FieldsKeepFit(leaves, hooks, idle - {h}, fields, children, Entered(h, m));
        LeavingKeepsFit(leaves, hooks, idle, h, m2, st);
      }
    }
  }

  lemma LeavingNothing(m: Memory, st: Status)
    ensures Exited(NoHooks, m, st) == (m, st)
  {
  }

  lemma {:induction false} FieldsKeepFit(leaves: set<Node>, hooks: set<Hooks>, idle: set<Hooks>, fields: seq<Field>, children: seq<Node>, m: Memory)
    requires Orderly(leaves, hooks) && idle <= hooks && AllFit(leaves, idle, m)
    requires LeavesAll(children) <= leaves && HooksInAll(children) <= hooks
    ensures AllFit(leaves, idle, ProcessedFields(fields, children, m).0)
    decreases fields, 0
  {
    hide Orderly, AllFit;
    if fields != [] {
      var child := Child(children, fields[0].name);
      if child.None? {
        FieldsKeepFit(leaves, hooks, idle, fields[1..], children, m);
      } else {
        var i := ChildIsMember(children, fields[0].name);
        MemberLeaves(children, i);
        NodeKeepsFit(leaves, hooks, idle, fields[0].value, child.value, m);
        FieldsKeepFit(leaves, hooks, idle, fields[1..], children, Processed(fields[0].value, child.value, m).0);
      }
    }
  }

  lemma {:induction false} MemberLeaves(children: seq<Node>, i: nat)
    requires i < |children|
    ensures Leaves(children[i]) <= LeavesAll(children) && HooksIn(children[i]) <= HooksInAll(children)
  {
    if i > 0 {
      assert children[1..][i - 1] == children[i];
      MemberLeaves(children[1..], i - 1);
    }
  }

  /** The settings of a module are within their limits. */
  ghost predicate WithinLimits(root: Node, m: Memory)
  {
    AllFit(Leaves(root), HooksIn(root), m)
  }

  /** Every command, whether it succeeds or fails, and wherever it fails, keeps every setting within its limits. */
  lemma CommandKeepsLimits(json: Json, root: Node, m: Memory)
    requires Orderly(Leaves(root), HooksIn(root)) && WithinLimits(root, m)
    ensures WithinLimits(root, Processed(json, root, m).0)
  {
    NodeKeepsFit(Leaves(root), HooksIn(root), HooksIn(root), json, root, m);
  }

  /** Over every sequence of commands. */
  lemma {:induction false} LimitsAlwaysKept(jsons: seq<Json>, root: Node, m: Memory)
    requires Orderly(Leaves(root), HooksIn(root)) && WithinLimits(root, m)
    ensures WithinLimits(root, ProcessedAll(jsons, root, m))
    decreases |jsons|
  {
    hide Orderly, WithinLimits;
    if jsons != [] {
      CommandKeepsLimits(jsons[0], root, m);
      LimitsAlwaysKept(jsons[1..], root, Processed(jsons[0], root, m).0);
    }
  }

  /* ---- The location and geofence modules ---- */

  lemma {:induction false} LeavesAreChildren(children: seq<Node>)
    requires forall i :: 0 <= i < |children| ==> !children[i].ObjectNode?
    ensures HooksInAll(children) == {} && forall leaf :: leaf in LeavesAll(children) <==> leaf in children
  {
    if children != [] {
      LeavesAreChildren(children[1..]);
      assert children == [children[0]] + children[1..];
    }
  }

  /** Leaves in cells of their own, shadowed one by one. */
  lemma CellsAreOrderly(children: seq<Node>, h: Hooks)
    requires |children| == LENGTH + 1 && h == Shadowed(0, LENGTH, LENGTH, AtMost(0, 1))
    requires forall i :: 0 <= i < |children| ==> IsCell(children[i], i)
    ensures Orderly(LeavesAll(children), {h})
  {
    var leaves := LeavesAll(children);
    LeavesAreChildren(children);
    hide LeavesAll, Narrower, IsCell, CopyFits, ShadowsApart;
    assert ShadowsApart({h}) by { OneShadow(h); }
    forall leaf, other | leaf in leaves && other in leaves && HasCell(other, leaf.write) ensures Narrower(leaf, other) {
      var i, j :| 0 <= i < |children| && 0 <= j < |children| && children[i] == leaf && children[j] == other;
      OwnCells(leaf, other, i, j);
    }
    forall leaf, a | leaf in leaves && HasCell(leaf, a)
      ensures CopyFits(leaves, leaf, a, LENGTH, 0, LENGTH) && CopyFits(leaves, leaf, a, 0, LENGTH, LENGTH)
    {
      var i :| 0 <= i < |children| && children[i] == leaf;
      OwnCopies(leaves, leaf, i, a);
    }
  }

  lemma OneShadow(h: Hooks)
    requires h == Shadowed(0, LENGTH, LENGTH, AtMost(0, 1))
    ensures ShadowsApart({h})
  {
  }

  lemma OwnCells(leaf: Node, other: Node, i: nat, j: nat)
    requires IsCell(leaf, i) && IsCell(other, j) && i <= LENGTH && j <= LENGTH && HasCell(other, leaf.write)
    requires i == j ==> leaf == other
    ensures Narrower(leaf, other)
  {
    assert i == j;
    hide Fits;
  }

  lemma OwnCopies(leaves: set<Node>, leaf: Node, i: nat, a: Addr)
    requires OnlyLeaves(leaves) && leaf in leaves && IsCell(leaf, i) && i <= LENGTH && HasCell(leaf, a)
    ensures CopyFits(leaves, leaf, a, LENGTH, 0, LENGTH) && CopyFits(leaves, leaf, a, 0, LENGTH, LENGTH)
  {
    assert Narrower(leaf, leaf) by { hide Fits; }
    hide Narrower;
  }

  lemma LocationIsOrderly()
    ensures Orderly(Leaves(LOCATION), HooksIn(LOCATION))
  {
    LocationCells();
    LeavesAreChildren(LOCATION_CHILDREN);
    hide LeavesAll, HooksInAll, Orderly, IsCell;
    CellsAreOrderly(LOCATION_CHILDREN, LOCATION.hooks);
    assert HooksIn(LOCATION) == {LOCATION.hooks};
  }

  lemma SettingFits(children: seq<Node>, i: nat, a: Addr, h: Hooks, m: Memory)
    requires forall k :: 0 <= k < |children| ==> IsCell(children[k], k)
    requires i < |children| && IsCell(children[i], i) && a == children[i].read && h == Shadowed(0, LENGTH, LENGTH, AtMost(0, 1))
    requires AllFit(LeavesAll(children), {h}, m) && (a < LENGTH || a >= 2 * LENGTH)
    ensures a in m && Fits(children[i], m[a])
  {
    LeavesAreChildren(children);
    assert children[i] in LeavesAll(children) && HasCell(children[i], a) && !Idle({h}, a);
  }

  /** Over every sequence of set_cfg commands the radius stays between 0 and 1000000, and the intervals within a day. */
  lemma LocationStaysWithinLimits(jsons: seq<Json>, m: Memory)
    requires WithinLimits(LOCATION, m)
    ensures var m' := ProcessedAll(jsons, LOCATION, m);
            && RADIUS in m' && m'[RADIUS].FloatV? && 0.0 <= m'[RADIUS].r <= 1000000.0
            && Interval(m', 0) && Interval(m', 1)
  {
    LocationIsOrderly();
    LimitsAlwaysKept(jsons, LOCATION, m);
    LocationCells();
    var m', c, h := ProcessedAll(jsons, LOCATION, m), LOCATION_CHILDREN, LOCATION.hooks;
    LeavesAreChildren(c);
    assert AllFit(LeavesAll(c), {h}, m') by { assert HooksIn(LOCATION) == {h}; }
    assert c[0].FloatNode? && c[0].lower == Some(0.0) && c[0].upper == Some(1000000.0) && c[0].read == RADIUS;
    assert c[1].IntNode? && c[1].min == 0 && c[1].max == DAY && c[1].read == 0;
    assert c[2].IntNode? && c[2].min == 0 && c[2].max == DAY && c[2].read == 1;
    hide LeavesAll, AllFit, IsCell, ProcessedAll, Orderly, WithinLimits;
    SettingFits(c, 0, RADIUS, h, m');
    SettingFits(c, 1, 0, h, m');
    SettingFits(c, 2, 1, h, m');
  }
}
