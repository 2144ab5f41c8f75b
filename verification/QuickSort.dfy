/** The iterative quicksort that orders the disk queue's file list by file number. */
module QuickSort {

  /** One numbered file of the queue directory: its number and its size in bytes. */
  datatype FileEntry = FileEntry(n: nat, size: nat)

  predicate Sorted(s: seq<FileEntry>)
  {
    forall i, j :: 0 <= i < j < |s| ==> s[i].n <= s[j].n
  }

  /** `now` is `was` with the elements of the inclusive range [begin, end] rearranged among themselves. */
  ghost predicate RearrangedWithin(was: seq<FileEntry>, now: seq<FileEntry>, begin: int, end: int)
    requires 0 <= begin <= end < |was|
  {
    && |now| == |was|
    && now[..begin] == was[..begin]
    && now[end + 1..] == was[end + 1..]
    && multiset(now[begin..end + 1]) == multiset(was[begin..end + 1])
  }

  function Swapped(s: seq<FileEntry>, x: int, y: int): (r: seq<FileEntry>)
    requires 0 <= x < |s| && 0 <= y < |s|
    ensures |r| == |s| && r[x] == s[y] && r[y] == s[x]
    ensures forall i :: 0 <= i < |s| && i != x && i != y ==> r[i] == s[i]
  {
    s[x := s[y]][y := s[x]]
  }

  lemma SwapRearranges(was: seq<FileEntry>, now: seq<FileEntry>, begin: int, end: int, x: int, y: int)
    requires 0 <= begin <= x <= end < |was| && begin <= y <= end
    requires RearrangedWithin(was, now, begin, end)
    ensures RearrangedWithin(was, Swapped(now, x, y), begin, end)
  {
    var segment := now[begin..end + 1];
    assert Swapped(now, x, y)[begin..end + 1] == segment[x - begin := segment[y - begin]][y - begin := segment[x - begin]];
    assert Swapped(now, x, y)[..begin] == now[..begin];
    assert Swapped(now, x, y)[end + 1..] == now[end + 1..];
  }

  /** Every element of the rearranged range was somewhere in that range before. */
  lemma Origin(was: seq<FileEntry>, now: seq<FileEntry>, begin: int, end: int, i: int) returns (k: int)
    requires 0 <= begin <= i <= end < |was| && RearrangedWithin(was, now, begin, end)
    ensures begin <= k <= end && now[i] == was[k]
  {
    assert now[i] == now[begin..end + 1][i - begin];
    assert now[i] in multiset(was[begin..end + 1]);
    var m :| 0 <= m < |was[begin..end + 1]| && was[begin..end + 1][m] == now[i];
    k := begin + m;
  }

  lemma Outside(was: seq<FileEntry>, now: seq<FileEntry>, begin: int, end: int, i: int)
    requires 0 <= begin <= end < |was| && RearrangedWithin(was, now, begin, end)
    requires 0 <= i < begin || end < i < |was|
    ensures now[i] == was[i]
  {
  }

  lemma RearrangedIsPermutation(was: seq<FileEntry>, now: seq<FileEntry>, begin: int, end: int)
    requires 0 <= begin <= end < |was| && RearrangedWithin(was, now, begin, end)
    ensures multiset(now) == multiset(was)
  {
    assert was == was[..begin] + was[begin..end + 1] + was[end + 1..];
    assert now == now[..begin] + now[begin..end + 1] + now[end + 1..];
  }

  method Swap(a: array<FileEntry>, x: int, y: int)
    requires 0 <= x < a.Length && 0 <= y < a.Length
    modifies a
    ensures a[..] == Swapped(old(a[..]), x, y)
  {
    a[x], a[y] := a[y], a[x];
  }

  /** What one partition of [begin, end] leaves behind, around the final place of its last element. */
  ghost predicate Partitioned(was: seq<FileEntry>, now: seq<FileEntry>, begin: int, pivot: int, end: int)
    requires 0 <= begin <= pivot <= end < |was|
  {
    && RearrangedWithin(was, now, begin, end)
    && now[pivot] == was[end]
    && (forall i :: begin <= i < pivot ==> now[i].n <= now[pivot].n)
    && (forall i :: pivot < i <= end ==> now[pivot].n < now[i].n)
  }

  lemma PartitionIsPermutation(was: seq<FileEntry>, now: seq<FileEntry>, begin: int, pivot: int, end: int)
    requires 0 <= begin <= pivot <= end < |was| && Partitioned(was, now, begin, pivot, end)
    ensures multiset(now) == multiset(was)
  {
    RearrangedIsPermutation(was, now, begin, end);
  }

  /** Lomuto partition around the last element of [begin, end]. */
  method SortPartition(a: array<FileEntry>, begin: int, end: int) returns (pivot: int)
    requires 0 <= begin <= end < a.Length
    modifies a
    ensures begin <= pivot <= end
    ensures Partitioned(old(a[..]), a[..], begin, pivot, end)
  {
    ghost var was, now := a[..], a[..];
    assert RearrangedWithin(was, now, begin, end);
    hide RearrangedWithin, Swapped;
    var last := a[end];
    pivot := begin - 1;
    var i := begin;
    while i <= end - 1
      invariant begin - 1 <= pivot < i <= end
      invariant now == a[..] && RearrangedWithin(was, now, begin, end)
      invariant now[end] == last
      invariant forall k :: begin <= k <= pivot ==> now[k].n <= last.n
      invariant forall k :: pivot < k < i ==> last.n < now[k].n
    {
      if a[i].n <= last.n {
        pivot := pivot + 1;
        Swap(a, pivot, i);
        SwapRearranges(was, now, begin, end, pivot, i);
        now := Swapped(now, pivot, i);
      }
      i := i + 1;
    }
    Swap(a, pivot + 1, end);
    SwapRearranges(was, now, begin, end, pivot + 1, end);
    pivot := pivot + 1;
  }

  /** The segments still to be sorted, as the stack holds them from bottom to top. */
  type Segments = seq<(int, int)>

  ghost function Flatten(pending: Segments): (slots: seq<int>)
    ensures |slots| == 2 * |pending|
  {
    if pending == [] then []
    else Flatten(pending[..|pending| - 1]) + [pending[|pending| - 1].0, pending[|pending| - 1].1]
  }

  /** Pending positions, counted with their segments; the number falls with every pop. */
  ghost function PendingLength(pending: Segments): nat
  {
    if pending == [] then 0
    else
      var (begin, end) := pending[|pending| - 1];
      PendingLength(pending[..|pending| - 1]) + if begin <= end then end - begin + 1 else 0
  }

  /** Segments of length at least two, disjoint and in increasing order, inside [0, end]. */
  ghost predicate Disjoint(pending: Segments, end: int)
  {
    && (forall k :: 0 <= k < |pending| ==> 2 * k <= pending[k].0 < pending[k].1 <= end)
    && (forall k, m :: 0 <= k < m < |pending| ==> pending[k].1 < pending[m].0)
  }

  ghost predicate InSegment(segment: (int, int), i: int, j: int)
  {
    segment.0 <= i <= segment.1 && segment.0 <= j <= segment.1
  }

  ghost predicate SharesSegment(pending: Segments, i: int, j: int)
  {
    exists k :: 0 <= k < |pending| && InSegment(pending[k], i, j)
  }

  /** Every pair of positions is in order already or shares a pending segment. */
  ghost predicate OrderedUpTo(s: seq<FileEntry>, pending: Segments)
  {
    forall i, j :: 0 <= i < j < |s| ==>
      s[i].n <= s[j].n || SharesSegment(pending, i, j)
  }

  ghost function LeftSide(begin: int, pivot: int): Segments
  {
    if pivot - 1 > begin then [(begin, pivot - 1)] else []
  }

  ghost function RightSide(pivot: int, end: int): Segments
  {
    if pivot + 1 < end then [(pivot + 1, end)] else []
  }

  lemma WholeListPending(s: seq<FileEntry>, pending: Segments)
    requires pending == [(0, |s| - 1)] && |s| >= 2
    ensures OrderedUpTo(s, pending) && Disjoint(pending, |s| - 1)
  {
    forall i, j | 0 <= i < j < |s|
      ensures s[i].n <= s[j].n || SharesSegment(pending, i, j)
    {
      assert InSegment(pending[0], i, j);
    }
  }

  lemma NothingPending(s: seq<FileEntry>, pending: Segments)
    requires OrderedUpTo(s, pending) && |pending| == 0
    ensures Sorted(s)
  {
  }

  /** A pair inside the partitioned range is ordered by the pivot or lies on one of its sides. */
  lemma PairInside(was: seq<FileEntry>, now: seq<FileEntry>, rest: Segments, begin: int, pivot: int, end: int, i: int, j: int)
    requires 0 <= begin <= pivot <= end < |was| && Partitioned(was, now, begin, pivot, end)
    requires begin <= i < j <= end
    ensures now[i].n <= now[j].n || SharesSegment(Sides(rest, begin, pivot, end), i, j)
  {
    var sides := Sides(rest, begin, pivot, end);
    if j < pivot {
      assert sides[|rest|] == (begin, pivot - 1) && InSegment(sides[|rest|], i, j);
    } else if pivot < i {
      assert sides[|sides| - 1] == (pivot + 1, end) && InSegment(sides[|sides| - 1], i, j);
    }
  }

  /** A pair that reaches outside the range was in order already, or shares another segment. */
  lemma PairOutside(was: seq<FileEntry>, now: seq<FileEntry>, rest: Segments, begin: int, pivot: int, end: int, i: int, j: int)
    requires 0 <= begin <= pivot <= end < |was| && Partitioned(was, now, begin, pivot, end)
    requires Disjoint(rest + [(begin, end)], |was| - 1) && OrderedUpTo(was, rest + [(begin, end)])
    requires 0 <= i < j < |was| && !(begin <= i && j <= end)
    ensures now[i].n <= now[j].n || SharesSegment(Sides(rest, begin, pivot, end), i, j)
  {
    var pending, sides := rest + [(begin, end)], Sides(rest, begin, pivot, end);
    var i', j' := i, j;
    if begin <= i <= end { i' := Origin(was, now, begin, end, i); } else { Outside(was, now, begin, end, i); }
    if begin <= j <= end { j' := Origin(was, now, begin, end, j); } else { Outside(was, now, begin, end, j); }
    if was[i'].n > was[j'].n {
      assert SharesSegment(pending, i', j');
      var k :| 0 <= k < |pending| && InSegment(pending[k], i', j');
      assert pending[|rest|] == (begin, end);
      assert sides[k] == pending[k] && InSegment(sides[k], i, j);
    }
  }

  lemma PartitionKeepsOrder(was: seq<FileEntry>, now: seq<FileEntry>, rest: Segments, begin: int, pivot: int, end: int)
    requires Disjoint(rest + [(begin, end)], |was| - 1)
    requires OrderedUpTo(was, rest + [(begin, end)])
    requires 0 <= begin <= pivot <= end < |was|
    requires Partitioned(was, now, begin, pivot, end)
    ensures OrderedUpTo(now, Sides(rest, begin, pivot, end))
  {
    hide SharesSegment, Sides, Disjoint;
    forall i, j | 0 <= i < j < |now|
      ensures now[i].n <= now[j].n || SharesSegment(Sides(rest, begin, pivot, end), i, j)
    {
      if begin <= i && j <= end {
        PairInside(was, now, rest, begin, pivot, end, i, j);
      } else {
        PairOutside(was, now, rest, begin, pivot, end, i, j);
      }
    }
  }

  ghost function Sides(rest: Segments, begin: int, pivot: int, end: int): Segments
  {
    rest + LeftSide(begin, pivot) + RightSide(pivot, end)
  }

  lemma SidesAreDisjoint(rest: Segments, begin: int, pivot: int, end: int, last: int)
    requires Disjoint(rest + [(begin, end)], last)
    requires begin <= pivot <= end
    ensures Disjoint(Sides(rest, begin, pivot, end), last)
  {
    var pending, sides := rest + [(begin, end)], Sides(rest, begin, pivot, end);
    assert pending[|rest|] == (begin, end);
    assert forall k :: 0 <= k < |rest| ==> pending[k] == rest[k] == sides[k];
  }

  lemma PushedLength(pending: Segments, begin: int, end: int)
    requires begin <= end
    ensures PendingLength(pending + [(begin, end)]) == PendingLength(pending) + end - begin + 1
  {
  }

  lemma SidesAreShorter(rest: Segments, begin: int, pivot: int, end: int)
    requires begin <= pivot <= end
    ensures PendingLength(Sides(rest, begin, pivot, end)) < PendingLength(rest + [(begin, end)])
  {
    hide PendingLength;
    PushedLength(rest, begin, end);
    var left := rest + LeftSide(begin, pivot);
    if pivot - 1 > begin { PushedLength(rest, begin, pivot - 1); } else { assert left == rest; }
    if pivot + 1 < end { PushedLength(left, pivot + 1, end); } else { assert Sides(rest, begin, pivot, end) == left; }
  }

  /** `stack[++top] = begin; stack[++top] = end`. Both slots have to exist. */
  method PushSegment(stack: array<int>, top: int, begin: int, end: int, ghost pending: Segments) returns (top': int)
    requires -1 <= top && top + 2 < stack.Length
    requires stack[..top + 1] == Flatten(pending)
    modifies stack
    ensures top' == top + 2 && stack[..top' + 1] == Flatten(pending + [(begin, end)])
  {
    top' := top + 1;
    stack[top'] := begin;
    top' := top' + 1;
    stack[top'] := end;
    assert (pending + [(begin, end)])[..|pending|] == pending;
  }

  /** `end = stack[top--]; begin = stack[top--]`. */
  method PopSegment(stack: array<int>, top: int, ghost pending: Segments) returns (top': int, begin: int, end: int)
    requires 0 <= top < stack.Length && pending != []
    requires stack[..top + 1] == Flatten(pending)
    ensures top' == top - 2 && (begin, end) == pending[|pending| - 1]
    ensures -1 <= top' && stack[..top' + 1] == Flatten(pending[..|pending| - 1])
  {
    top' := top;
    end := stack[top'];
    top' := top' - 1;
    begin := stack[top'];
    top' := top' - 1;
    assert stack[..top + 1] == stack[..top' + 1] + [begin, end];
  }

  /** The sides of the pivot that still need sorting go onto the stack, left one first. */
  method PushSides(stack: array<int>, top: int, begin: int, pivot: int, end: int, ghost rest: Segments) returns (top': int)
    requires top + 1 == 2 * |rest| && 2 * |Sides(rest, begin, pivot, end)| <= stack.Length
    requires stack[..top + 1] == Flatten(rest)
    modifies stack
    ensures top' + 1 == 2 * |Sides(rest, begin, pivot, end)|
    ensures stack[..top' + 1] == Flatten(Sides(rest, begin, pivot, end))
  {
    top' := top;
    if (pivot - 1) > begin {
      top' := PushSegment(stack, top', begin, pivot - 1, rest);
    } else {
      assert rest + LeftSide(begin, pivot) == rest;
    }
    if (pivot + 1) < end {
      top' := PushSegment(stack, top', pivot + 1, end, rest + LeftSide(begin, pivot));
    } else {
      assert Sides(rest, begin, pivot, end) == rest + LeftSide(begin, pivot);
    }
  }

  /** One turn of the loop: the top segment is popped, partitioned, and its sides of two or more elements pushed. */
  method SortTop(a: array<FileEntry>, stack: array<int>, top: int, ghost pending: Segments)
    returns (top': int, ghost pending': Segments)
    requires pending != [] && top + 1 == 2 * |pending| <= stack.Length == a.Length
    requires stack[..top + 1] == Flatten(pending)
    requires Disjoint(pending, a.Length - 1) && OrderedUpTo(a[..], pending)
    modifies a, stack
    ensures -1 <= top' && top' + 1 == 2 * |pending'| <= stack.Length
    ensures stack[..top' + 1] == Flatten(pending')
    ensures Disjoint(pending', a.Length - 1) && OrderedUpTo(a[..], pending')
    ensures multiset(a[..]) == multiset(old(a[..]))
    ensures PendingLength(pending') < PendingLength(pending)
  {
    hide OrderedUpTo, Disjoint, Partitioned, RearrangedWithin, PendingLength, Sides;
    ghost var rest, was := pending[..|pending| - 1], a[..];
    var begin, end;
    top', begin, end := PopSegment(stack, top, pending);
    assert pending == rest + [(begin, end)];
    TopInRange(rest, begin, end, a.Length - 1);

    var pivot := SortPartition(a, begin, end);
    PartitionKeepsOrder(was, a[..], rest, begin, pivot, end);
    PartitionIsPermutation(was, a[..], begin, pivot, end);
    SidesAreDisjoint(rest, begin, pivot, end, a.Length - 1);
    SidesAreShorter(rest, begin, pivot, end);
    pending' := Sides(rest, begin, pivot, end);
    SlotsSuffice(pending', a.Length - 1);
    top' := PushSides(stack, top', begin, pivot, end, rest);
  }

  /**
   * Sorts the whole list with an explicit stack of end - begin + 1 slots. With a single element the
   * two initial pushes need one slot more than there is: `overrun` reports that write past the end
   * of the stack. In every other case each index into `stack` is in bounds.
   */
  method QuickSortFiles(a: array<FileEntry>) returns (overrun: bool)
    modifies a
    ensures Sorted(a[..])
    ensures multiset(a[..]) == multiset(old(a[..]))
    ensures overrun <==> a.Length == 1
  {
    var begin, end := 0, a.Length - 1;
    if a.Length == 0 {
      return false;
    }
    var stack := new int[end - begin + 1](_ => 0);
    if stack.Length < 2 {
      return true;
    }
    overrun := false;
    ghost var pending: Segments := [(begin, end)];
    assert [] + pending == pending;
    WholeListPending(a[..], pending);
    var top := PushSegment(stack, -1, begin, end, []);
    while 0 <= top
      invariant -1 <= top && top + 1 == 2 * |pending| <= stack.Length
      invariant stack[..top + 1] == Flatten(pending)
      invariant Disjoint(pending, a.Length - 1) && OrderedUpTo(a[..], pending)
      invariant multiset(a[..]) == multiset(old(a[..]))
      decreases PendingLength(pending)
    {
      top, pending := SortTop(a, stack, top, pending);
    }
    NothingPending(a[..], pending);
  }

  lemma TopInRange(rest: Segments, begin: int, end: int, last: int)
    requires Disjoint(rest + [(begin, end)], last)
    ensures 0 <= begin < end <= last
  {
    assert (rest + [(begin, end)])[|rest|] == (begin, end);
  }

  /** Two slots a segment: pending segments never need more than end + 1 slots. */
  lemma SlotsSuffice(pending: Segments, end: int)
    requires Disjoint(pending, end) && -1 <= end
    ensures |Flatten(pending)| <= end + 1
  {
  }
}
