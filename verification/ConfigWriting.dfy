/** What writing a configuration tree leaves out, and what the status says about it. */
module ConfigWriting {
  import opened Prelude
  import opened ConfigTree

  /** A leaf that can be written: an enumeration setting needs a listed value. */
  predicate Readable(node: Node, m: Memory)
  {
    node.EnumNode? ==> EnumName(node.enums, IntAt(m, node.read)).Some?
  }

  ghost predicate AllReadable(node: Node, m: Memory)
    decreases node
  {
    if node.ObjectNode? then forall i :: 0 <= i < |node.children| ==> AllReadable(node.children[i], m)
    else Readable(node, m)
  }

  /** The last node below a node, which decides the status. */
  predicate LastReadable(node: Node, m: Memory)
  {
    if !node.ObjectNode? then Readable(node, m)
    else node.children == [] || LastReadable(node.children[|node.children| - 1], m)
  }

  /** `fields` is the node's field, with one field for each child of each object at every level. */
  ghost predicate Whole(fields: seq<Field>, node: Node)
    decreases node, 1
  {
    && |fields| == 1 && fields[0].name == node.name
    && (node.ObjectNode? ==> fields[0].value.JObject? && WholeAll(fields[0].value.fields, node.children))
  }

  ghost predicate WholeAll(fields: seq<Field>, children: seq<Node>)
    decreases children, 0
  {
    |fields| == |children| && forall i :: 0 <= i < |children| ==> Whole([fields[i]], children[i])
  }

  /** Nothing is missing, at any level, exactly when every enumeration setting holds a listed value. */
  lemma {:induction false} WholeIffAllReadable(node: Node, m: Memory)
    ensures Whole(Wrote(node, m).0, node) <==> AllReadable(node, m)
    decreases node, 1
  {
    if node.ObjectNode? {
      WholeAllIffAllReadable(node.children, m);
    }
  }

  lemma {:induction false} WholeAllIffAllReadable(children: seq<Node>, m: Memory)
    ensures WholeAll(WroteChildren(children, m).0, children)
            <==> forall i :: 0 <= i < |children| ==> AllReadable(children[i], m)
    decreases children, 0
  {
    if children != [] {
      var rest := children[1..];
      WholeIffAllReadable(children[0], m);
      WholeAllIffAllReadable(rest, m);
      AtMostOneFieldEach(rest, m);
      FirstAndRest(Wrote(children[0], m).0, WroteChildren(rest, m).0, children);
      hide WholeAll, AllReadable, Whole;
      assert forall i :: 0 < i < |children| ==> children[i] == rest[i - 1];
      assert forall i :: 0 <= i < |rest| ==> rest[i] == children[i + 1];
    }
  }

  lemma {:induction false} AtMostOneFieldEach(children: seq<Node>, m: Memory)
    ensures |WroteChildren(children, m).0| <= |children|
  {
    if children != [] {
      AtMostOneFieldEach(children[1..], m);
    }
  }

  lemma FirstAndRest(first: seq<Field>, rest: seq<Field>, children: seq<Node>)
    requires children != [] && |first| <= 1 && |rest| <= |children| - 1
    ensures WholeAll(first + rest, children) <==> Whole(first, children[0]) && WholeAll(rest, children[1..])
  {
    var fields := first + rest;
    if |first| == 1 {
      assert [fields[0]] == first;
      assert forall i :: 0 <= i < |rest| ==> fields[i + 1] == rest[i];
      assert forall i :: 0 < i < |fields| ==> fields[i] == rest[i - 1];
    }
  }

  /** The status is that of the last node: everything before it may be missing under OK. */
  lemma {:induction false} StatusIsTheLastOnes(node: Node, m: Memory)
    ensures Wrote(node, m).1 == OK <==> LastReadable(node, m)
    decreases node, 1
  {
    if node.ObjectNode? && node.children != [] {
      StatusOfChildren(node.children, m);
    }
  }

  lemma {:induction false} StatusOfChildren(children: seq<Node>, m: Memory)
    requires children != []
    ensures WroteChildren(children, m).1 == OK <==> LastReadable(children[|children| - 1], m)
    decreases children, 0
  {
    if |children| == 1 {
      StatusIsTheLastOnes(children[0], m);
      assert children[1..] == [];
    } else {
      StatusOfChildren(children[1..], m);
    }
  }

  /** An unlisted value before a good last leaf: one field of two, and no error. */
  lemma SilentlyMissing()
    ensures var node := ObjectNode([109], [EnumNode([97], 0, 0, [([120], 1)]), BoolNode([98], 1, 1)], NoHooks);
            var m := map[0 := IntV(7), 1 := BoolV(true)];
            Wrote(node, m) == ([Field([109], JObject([Field([98], JBool(true))]))], OK) && !Whole(Wrote(node, m).0, node)
  {
    var children := [EnumNode([97], 0, 0, [([120], 1)]), BoolNode([98], 1, 1)];
    var m := map[0 := IntV(7), 1 := BoolV(true)];
    var last := [Field([98], JBool(true))];
    assert children[1..] == [children[1]] && [children[1]][1..] == [];
    assert Wrote(children[1], m) == (last, OK);
    assert last + [] == last && [] + last == last;
    assert WroteChildren([children[1]], m) == (last, OK);
    assert [([120], 1)][1..] == [];
    assert EnumName([([120], 1)], 7).None?;
    assert WroteChildren(children, m) == (last, OK);
  }

  predicate IsWhole(r: real)
  {
    r.Floor as real == r
  }

  /** A floating point setting is written rounded to ten decimals. */
  lemma PrintedIsNear(r: real)
    ensures Printed(r) - r <= 0.00000000005 && r - Printed(r) <= 0.00000000005 && IsWhole(Printed(r) * 10000000000.0)
  {
    var n := (r * 10000000000.0 + 0.5).Floor;
    assert n as real <= r * 10000000000.0 + 0.5 < n as real + 1.0;
    assert Printed(r) * 10000000000.0 == n as real;
  }
}
