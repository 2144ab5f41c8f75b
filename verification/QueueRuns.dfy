/** Whole runs of the disk queue against a first-in first-out sequence of records. */
module QueueRuns {
  import opened Prelude
  import opened Words
  import opened QueueRecord
  import opened QuickSort
  import opened DiskQueues

  datatype Op = Push(data: seq<Byte>, io: WriteResults) | Peek(capacity: nat) | Pop
    | Restart(policy: Policy) | SetLimit(limit: nat)

  /** What the queue amounts to: its records, and what its accounting goes by. */
  datatype Fifo = Fifo(records: seq<seq<Byte>>, stale: nat, limit: nat, policy: Policy)

  /* ---- The sequence of records ---- */

  function Total(records: seq<seq<Byte>>): nat
  {
    if records == [] then 0 else HEADERS_SIZE + |records[0]| + Total(records[1..])
  }

  /** The newest records that fit the limit beside the stale bytes, or the oldest ones. */
  function KeptRecords(policy: Policy, records: seq<seq<Byte>>, stale: nat, limit: nat): seq<seq<Byte>>
    decreases |records|
  {
    if records == [] || stale + Total(records) <= limit then records
    else if policy.FifoDeleteOld? then KeptRecords(policy, records[1..], stale, limit)
    else KeptRecords(policy, records[..|records| - 1], stale, limit)
  }

  /** A push writes its whole record. */
  predicate Accepted(op: Op, limit: nat)
    requires op.Push?
  {
    && op.data != [] && limit != 0
    && op.io.fd && op.io.fileHeader >= FILE_HEADER_SIZE && op.io.itemHeader >= ITEM_HEADER_SIZE && op.io.body >= |op.data|
  }

  /** A push that, once written, evicts everything and reaches for an entry of the empty list. */
  predicate Reaches(s: Fifo, op: Op)
  {
    op.Push? && Accepted(op, s.limit) && s.stale > s.limit
  }

  /** One operation on the sequence: what it holds afterwards, and what a peek returns. */
  function Did(s: Fifo, op: Op): (Fifo, Option<seq<Byte>>)
  {
    match op
    case Push(data, _) =>
      (if Accepted(op, s.limit) then s.(records := KeptRecords(s.policy, s.records + [data], s.stale, s.limit)) else s, None)
    case Peek(capacity) => (s, if s.records == [] then None else Some(s.records[0][..Min(capacity, |s.records[0]|)]))
    case Pop => (if s.records == [] then s else s.(records := s.records[1..]), None)
    case Restart(policy) => (s.(stale := s.stale + Total(s.records), policy := policy), None)
    case SetLimit(limit) => (s.(limit := limit), None)
  }

  function DidAll(s: Fifo, ops: seq<Op>): (Fifo, seq<Option<seq<Byte>>>)
  {
    if ops == [] then (s, [])
    else
      var (before, outputs) := DidAll(s, ops[..|ops| - 1]);
      var (after, output) := Did(before, ops[|ops| - 1]);
      (after, outputs + [output])
  }

  /** The i-th operation of a run reaches into an empty list. */
  predicate ReachesAt(s: Fifo, ops: seq<Op>, i: nat)
    requires i < |ops|
  {
    Reaches(DidAll(s, ops[..i]).0, ops[i])
  }

  /** Stale bytes never go away. */
  lemma {:induction false} StaleNeverFalls(s: Fifo, ops: seq<Op>)
    ensures DidAll(s, ops).0.stale >= s.stale
  {
    if ops != [] { StaleNeverFalls(s, ops[..|ops| - 1]); }
  }

  lemma {:induction false} LimitKept(s: Fifo, ops: seq<Op>)
    requires forall i :: 0 <= i < |ops| ==> !ops[i].SetLimit?
    ensures DidAll(s, ops).0.limit == s.limit
  {
    if ops != [] { LimitKept(s, ops[..|ops| - 1]); }
  }

  lemma {:induction false} StaleKept(s: Fifo, ops: seq<Op>)
    requires forall i :: 0 <= i < |ops| ==> !ops[i].Restart?
    ensures DidAll(s, ops).0.stale == s.stale
  {
    if ops != [] { StaleKept(s, ops[..|ops| - 1]); }
  }

  /** Between restarts, under one limit: no push reaches into an empty list, or every one that is written does. */
  lemma WithoutRestart(s: Fifo, ops: seq<Op>, i: nat)
    requires i < |ops| && forall k :: 0 <= k < i ==> !ops[k].Restart? && !ops[k].SetLimit?
    ensures ReachesAt(s, ops, i) <==> s.stale > s.limit && ops[i].Push? && Accepted(ops[i], s.limit)
  {
    StaleKept(s, ops[..i]);
    LimitKept(s, ops[..i]);
  }

  /** Once the stale bytes exceed the limit, every later push that is written reaches into an empty list. */
  lemma StaleForGood(s: Fifo, ops: seq<Op>, i: nat)
    requires i < |ops| && s.stale > s.limit && forall k :: 0 <= k < i ==> !ops[k].SetLimit?
    ensures ReachesAt(s, ops, i) <==> ops[i].Push? && Accepted(ops[i], s.limit)
  {
    StaleNeverFalls(s, ops[..i]);
    LimitKept(s, ops[..i]);
  }

  /** Restarts alone each count every record once more. */
  lemma {:induction false} RestartsAddUp(s: Fifo, restarts: seq<Op>)
    requires forall i :: 0 <= i < |restarts| ==> restarts[i].Restart?
    ensures var s' := DidAll(s, restarts).0;
            s'.records == s.records && s'.limit == s.limit && s'.stale == s.stale + |restarts| * Total(s.records)
  {
    if restarts != [] {
      var n := |restarts| - 1;
      RestartsAddUp(s, restarts[..n]);
      assert (n + 1) * Total(s.records) == n * Total(s.records) + Total(s.records);
    }
  }

  /** How many restarts a queue survives: the next push that is written fails exactly when their bytes exceed the limit. */
  lemma PushAfterRestarts(s: Fifo, restarts: seq<Op>, push: Op)
    requires forall i :: 0 <= i < |restarts| ==> restarts[i].Restart?
    requires push.Push? && Accepted(push, s.limit)
    ensures ReachesAt(s, restarts + [push], |restarts|) <==> s.stale + |restarts| * Total(s.records) > s.limit
  {
    RestartsAddUp(s, restarts);
    assert (restarts + [push])[..|restarts|] == restarts;
  }

  ghost predicate SizesMatch(list: seq<FileEntry>, records: seq<seq<Byte>>)
  {
    |list| == |records| && forall i :: 0 <= i < |list| ==> list[i].size == HEADERS_SIZE + |records[i]|
  }

  lemma {:induction false} SumIsTotal(list: seq<FileEntry>, records: seq<seq<Byte>>)
    requires SizesMatch(list, records)
    ensures Sum(list) == Total(records)
  {
    if list != [] {
      SumIsTotal(list[1..], records[1..]);
    }
  }

  /** The eviction on entries keeps as many as the eviction on records, at the same end. */
  lemma {:induction false} KeptAlike(policy: Policy, list: seq<FileEntry>, records: seq<seq<Byte>>, stale: nat, limit: nat)
    requires SizesMatch(list, records)
    ensures var kept := KeptRecords(policy, records, stale, limit);
            |Kept(policy, list, stale, limit)| == |kept| && KeepsEnd(policy, kept, records)
    decreases |list|
  {
    SumIsTotal(list, records);
    if list != [] && stale + Sum(list) > limit {
      if policy.FifoDeleteOld? {
        KeptAlike(policy, list[1..], records[1..], stale, limit);
      } else {
        KeptAlike(policy, list[..|list| - 1], records[..|records| - 1], stale, limit);
      }
    }
  }

  /* ---- Subsequences ---- */

  /** Some elements of b, in order. */
  predicate Subsequence<T(==)>(a: seq<T>, b: seq<T>)
  {
    a == [] || (b != [] && ((a[0] == b[0] && Subsequence(a[1..], b[1..])) || Subsequence(a, b[1..])))
  }

  lemma {:induction false} SubsequenceOfItself<T>(a: seq<T>)
    ensures Subsequence(a, a)
  {
    if a != [] { SubsequenceOfItself(a[1..]); }
  }

  lemma {:induction false} SubsequenceGrows<T>(a: seq<T>, b: seq<T>, more: seq<T>)
    requires Subsequence(a, b)
    ensures Subsequence(a + more, b + more) && Subsequence(a, b + more)
    decreases |b|
  {
    if b == [] {
      assert a + more == more == b + more;
      SubsequenceOfItself(more);
    } else {
      assert (b + more)[1..] == b[1..] + more;
      if a != [] && a[0] == b[0] && Subsequence(a[1..], b[1..]) {
        SubsequenceGrows(a[1..], b[1..], more);
        assert (a + more)[1..] == a[1..] + more;
      } else if a != [] {
        SubsequenceGrows(a, b[1..], more);
      } else {
        SubsequenceGrows(a, b[1..], more);
        assert a + more == more;
      }
    }
  }

  lemma {:induction false} SubsequenceLosesFirst<T>(a: seq<T>, b: seq<T>)
    requires a != [] && Subsequence(a, b)
    ensures Subsequence(a[1..], b)
    decreases |b|
  {
    if a[0] == b[0] && Subsequence(a[1..], b[1..]) {
    } else {
      SubsequenceLosesFirst(a, b[1..]);
    }
  }

  lemma {:induction false} SubsequenceLosesLast<T>(a: seq<T>, b: seq<T>)
    requires a != [] && Subsequence(a, b)
    ensures Subsequence(a[..|a| - 1], b)
    decreases |b|
  {
    if a[0] == b[0] && Subsequence(a[1..], b[1..]) {
      if |a| > 1 {
        SubsequenceLosesLast(a[1..], b[1..]);
        assert a[..|a| - 1][1..] == a[1..][..|a| - 2];
      }
    } else {
      SubsequenceLosesLast(a, b[1..]);
    }
  }

  lemma {:induction false} SuffixIsSubsequence<T>(a: seq<T>, n: nat, b: seq<T>)
    requires n <= |a| && Subsequence(a, b)
    ensures Subsequence(a[n..], b)
  {
    if n == 0 {
      assert a[0..] == a;
    } else {
      SuffixIsSubsequence(a, n - 1, b);
      SubsequenceLosesFirst(a[n - 1..], b);
      assert a[n - 1..][1..] == a[n..];
    }
  }

  lemma {:induction false} PrefixIsSubsequence<T>(a: seq<T>, n: nat, b: seq<T>)
    requires n <= |a| && Subsequence(a, b)
    ensures Subsequence(a[..n], b)
    decreases |a| - n
  {
    if n == |a| {
      assert a[..n] == a;
    } else {
      PrefixIsSubsequence(a, n + 1, b);
      SubsequenceLosesLast(a[..n + 1], b);
      assert a[..n + 1][..n] == a[..n];
    }
  }

  lemma EndIsSubsequence(policy: Policy, part: seq<seq<Byte>>, all: seq<seq<Byte>>, b: seq<seq<Byte>>)
    requires KeepsEnd(policy, part, all) && Subsequence(all, b)
    ensures Subsequence(part, b)
  {
    hide Subsequence;
    if policy.FifoDeleteOld? {
      SuffixIsSubsequence(all, |all| - |part|, b);
    } else {
      PrefixIsSubsequence(all, |part|, b);
    }
  }

  function PushedBy(ops: seq<Op>): seq<seq<Byte>>
  {
    if ops == [] then []
    else PushedBy(ops[..|ops| - 1]) + (if ops[|ops| - 1].Push? then [ops[|ops| - 1].data] else [])
  }

  /* ---- The queue ---- */

  /** Every listed file is there, and is one whole record. */
  ghost predicate Clean(q: DiskQueue)
    reads q
  {
    Files(q.disk, q.fileList) == Encoded(q.Contents()) && Storable(q.Contents())
  }

  /** What a run asks of the queue it starts from, and keeps. */
  ghost predicate Ready(q: DiskQueue)
    reads q
  {
    q.Valid() && q.running && q.InStep()
  }

  ghost function FifoOf(q: DiskQueue): Fifo
    reads q
    requires q.Valid()
  {
    Fifo(q.Contents(), q.Stale(), q.diskLimit, q.policy)
  }

  lemma CleanSizes(q: DiskQueue)
    requires q.InStep() && Clean(q)
    ensures SizesMatch(q.fileList, q.Contents())
  {
    var files, records := Files(q.disk, q.fileList), q.Contents();
    assert |files| == |records|;
    forall i | 0 <= i < |records| ensures q.fileList[i].size == HEADERS_SIZE + |records[i]| {
      assert files[i] == FileAt(q.disk, q.fileList[i]);
      assert files[i] == Some(Encode(records[i]));
    }
  }

  lemma EncodedEnd(policy: Policy, records: seq<seq<Byte>>, kept: seq<seq<Byte>>)
    requires KeepsEnd(policy, kept, records) && Storable(records)
    ensures KeptFiles(policy, Encoded(records), |kept|) == Encoded(kept) && Storable(kept)
  {
    hide Encode;
  }

  /** A new queue that starts in an empty directory is such a queue. */
  method NewQueue(limit: nat, policy: Policy) returns (q: DiskQueue)
    ensures fresh(q) && Ready(q) && Clean(q) && FifoOf(q) == Fifo([], 0, limit, policy)
  {
    q := new DiskQueue(limit);
    var started, overrun := q.Start(true, true, policy);
    assert q.fileList == [];
    assert Encoded([]) == [];
  }

  method DoPush(q: DiskQueue, op: Op) returns (reached: bool)
    requires Ready(q) && op.Push? && |op.data| < 0x10000
    modifies q`disk, q`fileList, q`diskCurrent
    ensures Ready(q) && q.Stale() == old(q.Stale())
    ensures reached <==> Reaches(old(FifoOf(q)), op)
    ensures old(Clean(q)) ==> Clean(q) && FifoOf(q) == Did(old(FifoOf(q)), op).0
    ensures q.Contents() == old(q.Contents()) || KeepsEnd(q.policy, q.Contents(), old(q.Contents()) + [op.data])
  {
    ghost var was, list, records := q.disk, q.fileList, q.Contents();
    ghost var clean, n := Clean(q), q.NextNumber();
    if clean { CleanSizes(q); }
    hide Files, Encoded, Kept, KeptFiles, KeptRecords, Payloads, Encode, Sum, Matches, StrictlyIncreasing, Storable, SizesMatch;
    var result := q.PushBack(op.data, op.io);
    assert Accepted(op, q.diskLimit) <==> result != Rejected;
    hide Accepted;
    if clean && result != Rejected {
      PushedClean(q.policy, list, records, FileEntry(n, HEADERS_SIZE + |op.data|), op.data, q.Stale(), q.diskLimit);
    }
    return result == EmptyListAccess;
  }

  /** What a push leaves of whole records are whole records: those that the sequence keeps. */
  lemma PushedClean(policy: Policy, list: seq<FileEntry>, records: seq<seq<Byte>>, e: FileEntry, data: seq<Byte>, stale: nat, limit: nat)
    requires SizesMatch(list, records) && e.size == HEADERS_SIZE + |data| && Storable(records) && |data| < 0x10000
    ensures var kept, count := KeptRecords(policy, records + [data], stale, limit), |Kept(policy, list + [e], stale, limit)|;
            && count <= |records| + 1
            && KeptFiles(policy, Encoded(records) + [Some(Encode(data))], count) == Encoded(kept)
            && Payloads(Encoded(kept)) == kept && Storable(kept)
  {
    hide Encode, Payloads, Encoded, Kept, KeptRecords;
    var all := records + [data];
    PushMatches(list, records, e, data);
    KeptAlike(policy, list + [e], all, stale, limit);
    EncodedEnd(policy, all, KeptRecords(policy, all, stale, limit));
    PayloadsOfEncoded(KeptRecords(policy, all, stale, limit));
  }

  lemma PushMatches(list: seq<FileEntry>, records: seq<seq<Byte>>, e: FileEntry, data: seq<Byte>)
    requires SizesMatch(list, records) && e.size == HEADERS_SIZE + |data| && Storable(records) && |data| < 0x10000
    ensures SizesMatch(list + [e], records + [data]) && Storable(records + [data])
    ensures Encoded(records) + [Some(Encode(data))] == Encoded(records + [data])
  {
  }

  /** A peek reads a whole record, cut at its capacity. */
  lemma EncodedIsRead(record: seq<Byte>, capacity: nat, data: seq<Byte>)
    requires |record| < 0x10000
    ensures !Unreadable(Some(Encode(record)), capacity)
    ensures LaidOut(Encode(record), capacity, data) ==> data == record[..Min(capacity, |record|)]
  {
    PeekedEncoded(record, capacity);
    hide Peeked, LaidOut, Unreadable, Encode;
    SkippedIffUnreadable(Some(Encode(record)), capacity);
    PeekedIffLaidOut(Encode(record), capacity, data);
  }

  method DoPeek(q: DiskQueue, op: Op) returns (output: Option<seq<Byte>>)
    requires Ready(q) && op.Peek?
    modifies q`disk, q`fileList, q`diskCurrent
    ensures Ready(q) && q.Stale() == old(q.Stale()) && q.Contents() == old(q.Contents())
    ensures old(Clean(q)) ==> Clean(q) && output == Did(old(FifoOf(q)), op).1
  {
    ghost var files, records, clean := Files(q.disk, q.fileList), q.Contents(), Clean(q);
    hide Files, Payloads, Sum, Matches, LaidOut, Unreadable, Encode;
    if clean && records != [] {
      assert files[0] == Some(Encode(records[0]));
    }
    var success, data := q.PeekFront(op.capacity);
    output := if success then Some(data) else None;
    if clean && records != [] {
      EncodedIsRead(records[0], op.capacity, data);
    }
  }

  method DoPop(q: DiskQueue)
    requires Ready(q)
    modifies q`disk, q`fileList, q`diskCurrent
    ensures Ready(q) && q.Stale() == old(q.Stale())
    ensures old(Clean(q)) ==> Clean(q) && FifoOf(q) == Did(old(FifoOf(q)), Pop).0
    ensures q.Contents() == old(q.Contents()) || (old(q.Contents()) != [] && q.Contents() == old(q.Contents())[1..])
  {
    ghost var list, records, clean := q.fileList, q.Contents(), Clean(q);
    ghost var front := if list == [] then None else Files(q.disk, list)[0];
    if clean && records != [] { EncodedTail(records); }
    hide Files, Payloads, Sum, Matches, Encode, PayloadOf, Encoded, Storable, StrictlyIncreasing;
    q.PopFront();
    if list != [] {
      TailOfPayloads(front, records, q.Contents());
    }
  }

  lemma EncodedTail(records: seq<seq<Byte>>)
    requires records != [] && Storable(records)
    ensures Encoded(records)[1..] == Encoded(records[1..]) && Storable(records[1..])
    ensures Payloads(Encoded(records[1..])) == records[1..]
  {
    assert Encoded(records)[1..] == Encoded(records[1..]);
    PayloadsOfEncoded(records[1..]);
  }

  lemma TailOfPayloads(front: Option<seq<Byte>>, before: seq<seq<Byte>>, after: seq<seq<Byte>>)
    requires before == PayloadOf(front) + after
    ensures after == before || (before != [] && after == before[1..])
  {
  }

  lemma NoneMissingWhenClean(q: DiskQueue)
    requires q.InStep() && Clean(q)
    ensures Numbers(q.fileList) == q.disk.Keys
  {
    hide Files, Payloads, Sum, Matches, Numbers, Encode;
    NoneMissing(q.disk, q.fileList);
  }

  method DoRestart(q: DiskQueue, policy: Policy)
    requires Ready(q)
    modifies q`fileList, q`diskCurrent, q`policy, q`running
    ensures Ready(q) && q.Contents() == old(q.Contents())
    ensures old(Clean(q)) ==> Clean(q) && FifoOf(q) == Did(old(FifoOf(q)), Restart(policy)).0
  {
    ghost var clean, list, records := Clean(q), q.fileList, q.Contents();
    hide Files, Payloads, Sum, Matches, Encoded, Numbers, Total, StrictlyIncreasing, Storable, SizesMatch;
    if clean {
      NoneMissingWhenClean(q);
      CleanSizes(q);
      SumIsTotal(list, records);
    }
    DiskQueues.Restart(q, policy);
  }

  /** What an operation may do to the records on any disk. */
  ghost predicate Moves(policy: Policy, before: seq<seq<Byte>>, after: seq<seq<Byte>>, op: Op)
  {
    || after == before
    || (op.Push? && KeepsEnd(policy, after, before + [op.data]))
    || (op.Pop? && before != [] && after == before[1..])
  }

  method DoOne(q: DiskQueue, op: Op) returns (output: Option<seq<Byte>>, reached: bool)
    requires Ready(q) && (op.Push? ==> |op.data| < 0x10000)
    modifies q
    ensures Ready(q) && Moves(old(q.policy), old(q.Contents()), q.Contents(), op)
    ensures reached <==> Reaches(old(FifoOf(q)), op)
    ensures old(Clean(q)) ==> Clean(q) && (FifoOf(q), output) == Did(old(FifoOf(q)), op)
  {
    hide Files, Payloads, Sum, Matches, Encoded, KeptRecords;
    output, reached := None, false;
    match op {
      case Push(_, _) => reached := DoPush(q, op);
      case Peek(_) => output := DoPeek(q, op);
      case Pop => DoPop(q);
      case Restart(policy) => DoRestart(q, policy);
      case SetLimit(limit) => q.SetDiskLimit(limit);
    }
  }

  /**
   * Every run of pushes, peeks, pops, restarts and changes of the limit, whatever writes fail, up to
   * the first push that reaches into an empty list. On any disk contents in step with the list, what
   * is left are records that were there before or were pushed, in order. On a queue of whole records,
   * contents, accounting and peeks are exactly those of the bounded sequence, and the run ends early
   * exactly where the sequence says.
   */
  method RunAll(q: DiskQueue, ops: seq<Op>) returns (outputs: seq<Option<seq<Byte>>>)
    requires Ready(q)
    requires forall i :: 0 <= i < |ops| && ops[i].Push? ==> |ops[i].data| < 0x10000
    modifies q
    ensures |outputs| <= |ops|
    ensures |outputs| == |ops| ==> Ready(q) && Subsequence(q.Contents(), old(q.Contents()) + PushedBy(ops))
    ensures old(Clean(q)) ==>
              var start := old(FifoOf(q));
              && outputs == DidAll(start, ops[..|outputs|]).1
              && (forall i :: 0 <= i < |outputs| ==> !ReachesAt(start, ops, i))
              && (|outputs| < |ops| ==> ReachesAt(start, ops, |outputs|))
              && (|outputs| == |ops| ==> Clean(q) && FifoOf(q) == DidAll(start, ops).0)
  {
    hide Clean, Subsequence, Reaches, Did, Moves, Files, Payloads, Sum, Matches;
    outputs := [];
    ghost var start, first := q.Contents(), FifoOf(q);
    SubsequenceOfItself(start);
    assert start + PushedBy(ops[..0]) == start;
    for i := 0 to |ops|
      invariant Ready(q) && |outputs| == i
      invariant Subsequence(q.Contents(), start + PushedBy(ops[..i]))
      invariant old(Clean(q)) ==> Clean(q) && (FifoOf(q), outputs) == DidAll(first, ops[..i])
      invariant old(Clean(q)) ==> forall k :: 0 <= k < i ==> !ReachesAt(first, ops, k)
    {
      ghost var policy, before := q.policy, q.Contents();
      assert ops[..i + 1][..i] == ops[..i];
      var output, reached := DoOne(q, ops[i]);
      if reached {
        return;
      }
      MovedStaysSubsequence(policy, before, q.Contents(), start, ops, i);
      outputs := outputs + [output];
    }
    assert ops[..|ops|] == ops;
  }

  lemma MovedStaysSubsequence(policy: Policy, before: seq<seq<Byte>>, after: seq<seq<Byte>>, start: seq<seq<Byte>>, ops: seq<Op>, i: nat)
    requires i < |ops| && Moves(policy, before, after, ops[i]) && Subsequence(before, start + PushedBy(ops[..i]))
    ensures Subsequence(after, start + PushedBy(ops[..i + 1]))
  {
    hide Subsequence;
    MorePushed(start, ops, i);
    if ops[i].Push? {
      PushStaysSubsequence(policy, before, after, start + PushedBy(ops[..i]), ops[i].data);
    } else if after != before {
      SubsequenceLosesFirst(before, start + PushedBy(ops[..i]));
    }
  }

  lemma MorePushed(start: seq<seq<Byte>>, ops: seq<Op>, i: nat)
    requires i < |ops|
    ensures ops[i].Push? ==> start + PushedBy(ops[..i + 1]) == start + PushedBy(ops[..i]) + [ops[i].data]
    ensures !ops[i].Push? ==> PushedBy(ops[..i + 1]) == PushedBy(ops[..i])
  {
    assert ops[..i + 1][..i] == ops[..i];
  }

  lemma PushStaysSubsequence(policy: Policy, before: seq<seq<Byte>>, after: seq<seq<Byte>>, b: seq<seq<Byte>>, data: seq<Byte>)
    requires Subsequence(before, b) && (after == before || KeepsEnd(policy, after, before + [data]))
    ensures Subsequence(after, b + [data])
  {
    SubsequenceGrows(before, b, [data]);
    if after != before {
      EndIsSubsequence(policy, after, before + [data], b + [data]);
    }
  }
}
