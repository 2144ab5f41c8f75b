/** The persistent FIFO: an in-memory list of numbered files kept in step with a directory. */
module DiskQueues {
  import opened Prelude
  import opened Words
  import opened QueueRecord
  import opened QuickSort

  datatype Policy = FifoDeleteOld | FifoDeleteNew

  /** The results of the four system calls of one push: open, and the byte counts of the three writes. */
  datatype WriteResults = WriteResults(fd: bool, fileHeader: nat, itemHeader: nat, body: nat)

  datatype PushResult = Pushed | Rejected | EmptyListAccess

  type Directory = map<nat, seq<Byte>>

  function Sum(s: seq<FileEntry>): nat
  {
    if s == [] then 0 else s[0].size + Sum(s[1..])
  }

  lemma {:induction false} SumOfConcat(a: seq<FileEntry>, b: seq<FileEntry>)
    ensures Sum(a + b) == Sum(a) + Sum(b)
  {
    if a == [] {
      assert a + b == b;
    } else {
      SumOfConcat(a[1..], b);
      assert (a + b)[1..] == a[1..] + b;
    }
  }

  lemma {:induction false} SumOfPermutation(a: seq<FileEntry>, b: seq<FileEntry>)
    requires multiset(a) == multiset(b)
    ensures Sum(a) == Sum(b)
  {
    if a == [] {
      assert |multiset(b)| == 0;
    } else {
      var k := FirstIn(a, b);
      SumWithout(b, k);
      SumOfPermutation(a[1..], b[..k] + b[k + 1..]);
    }
  }

  lemma FirstIn(a: seq<FileEntry>, b: seq<FileEntry>) returns (k: nat)
    requires multiset(a) == multiset(b) && a != []
    ensures k < |b| && b[k] == a[0] && multiset(a[1..]) == multiset(b[..k] + b[k + 1..])
  {
    assert a[0] in multiset(b);
    k := IndexIn(a[0], b);
    TailElements(a);
    ElementsWithout(b, k);
    var rest := b[..k] + b[k + 1..];
    assert multiset(rest) == multiset(b) - multiset{b[k]};
  }

  lemma TailElements(s: seq<FileEntry>)
    requires s != []
    ensures multiset(s[1..]) == multiset(s) - multiset{s[0]}
  {
    assert s == [s[0]] + s[1..];
  }

  lemma IndexIn(e: FileEntry, s: seq<FileEntry>) returns (k: nat)
    requires e in multiset(s)
    ensures k < |s| && s[k] == e
  {
    k :| 0 <= k < |s| && s[k] == e;
  }

  lemma ElementsWithout(s: seq<FileEntry>, k: nat)
    requires k < |s|
    ensures multiset(s[..k] + s[k + 1..]) == multiset(s) - multiset{s[k]}
  {
    assert s == s[..k] + ([s[k]] + s[k + 1..]);
  }

  lemma SumWithout(s: seq<FileEntry>, k: nat)
    requires k < |s|
    ensures Sum(s) == s[k].size + Sum(s[..k] + s[k + 1..])
  {
    var rest := [s[k]] + s[k + 1..];
    assert rest[1..] == s[k + 1..] && s == s[..k] + rest;
    SumOfConcat(s[..k], rest);
    SumOfConcat(s[..k], s[k + 1..]);
  }

  lemma OrderWithout(s: seq<FileEntry>, k: nat)
    requires k < |s| && StrictlyIncreasing(s)
    ensures StrictlyIncreasing(s[..k] + s[k + 1..])
  {
  }

  function SaturatingSub(a: nat, b: nat): nat
  {
    if a >= b then a - b else 0
  }

  function Numbers(s: seq<FileEntry>): set<nat>
  {
    set e | e in s :: e.n
  }

  ghost predicate StrictlyIncreasing(s: seq<FileEntry>)
  {
    forall i, j :: 0 <= i < j < |s| ==> s[i].n < s[j].n
  }

  function FileAt(disk: Directory, e: FileEntry): Option<seq<Byte>>
  {
    if e.n in disk then Some(disk[e.n]) else None
  }

  /** The listed files' contents, oldest first; None for a file somebody else deleted. */
  function Files(disk: Directory, list: seq<FileEntry>): (files: seq<Option<seq<Byte>>>)
    ensures |files| == |list|
  {
    seq(|list|, i requires 0 <= i < |list| => FileAt(disk, list[i]))
  }

  /** The longest suffix of the list that fits, together with `stale` unlisted bytes, into the limit. */
  function KeptSuffix(list: seq<FileEntry>, stale: nat, limit: nat): seq<FileEntry>
  {
    if list == [] || stale + Sum(list) <= limit then list else KeptSuffix(list[1..], stale, limit)
  }

  /** The longest prefix of the list that fits. */
  function KeptPrefix(list: seq<FileEntry>, stale: nat, limit: nat): seq<FileEntry>
  {
    if list == [] || stale + Sum(list) <= limit then list else KeptPrefix(list[..|list| - 1], stale, limit)
  }

  function Kept(policy: Policy, list: seq<FileEntry>, stale: nat, limit: nat): seq<FileEntry>
  {
    match policy
    case FifoDeleteOld => KeptSuffix(list, stale, limit)
    case FifoDeleteNew => KeptPrefix(list, stale, limit)
  }

  /** KeptSuffix really is a suffix, it fits whenever anything can, and no longer suffix fits. */
  lemma {:induction false} KeptSuffixIsLongest(list: seq<FileEntry>, stale: nat, limit: nat)
    ensures var kept := KeptSuffix(list, stale, limit);
            && |kept| <= |list| && kept == list[|list| - |kept|..]
            && (stale <= limit ==> stale + Sum(kept) <= limit)
            && forall k :: 0 <= k < |list| - |kept| ==> stale + Sum(list[k..]) > limit
  {
    if list != [] && stale + Sum(list) > limit {
      KeptSuffixIsLongest(list[1..], stale, limit);
      var kept := KeptSuffix(list, stale, limit);
      forall k | 0 <= k < |list| - |kept| ensures stale + Sum(list[k..]) > limit
      {
        if k > 0 { assert list[k..] == list[1..][k - 1..]; } else { assert list[0..] == list; }
      }
    }
  }

  /** KeptPrefix really is a prefix, it fits whenever anything can, and no longer prefix fits. */
  lemma {:induction false} KeptPrefixIsLongest(list: seq<FileEntry>, stale: nat, limit: nat)
    ensures var kept := KeptPrefix(list, stale, limit);
            && |kept| <= |list| && kept == list[..|kept|]
            && (stale <= limit ==> stale + Sum(kept) <= limit)
            && forall k :: |kept| < k <= |list| ==> stale + Sum(list[..k]) > limit
  {
    if list != [] && stale + Sum(list) > limit {
      var shorter := list[..|list| - 1];
      KeptPrefixIsLongest(shorter, stale, limit);
      var kept := KeptPrefix(list, stale, limit);
      forall k | |kept| < k <= |list| ensures stale + Sum(list[..k]) > limit
      {
        if k < |list| { assert list[..k] == shorter[..k]; } else { assert list[..k] == list; }
      }
    }
  }

  ghost predicate Distinct(s: seq<FileEntry>)
  {
    forall i, j :: 0 <= i < j < |s| ==> s[i].n != s[j].n
  }

  /** Rearranging a list of distinct numbers into sorted order makes it strictly increasing and loses nothing. */
  lemma SameElements(list: seq<FileEntry>, sorted: seq<FileEntry>)
    requires multiset(list) == multiset(sorted) && Distinct(list) && Sorted(sorted)
    ensures StrictlyIncreasing(sorted) && Numbers(sorted) == Numbers(list) && |sorted| == |list|
    ensures forall e :: e in sorted <==> e in list
  {
    forall e ensures e in sorted <==> e in list { assert e in multiset(list) <==> e in multiset(sorted); }
    assert |multiset(list)| == |multiset(sorted)|;
    forall i, j | 0 <= i < j < |sorted| ensures sorted[i].n < sorted[j].n {
      if sorted[i].n == sorted[j].n {
        OnceInDistinct(list, sorted[i], sorted[j]);
        TwiceInSequence(sorted, i, j);
        assert false;
      }
    }
  }

  /** Every file of the directory that is not in `unread` is listed once, with its size. */
  ghost predicate Listed(disk: Directory, unread: set<nat>, list: seq<FileEntry>)
  {
    && Distinct(list) && Numbers(list) == disk.Keys - unread
    && |list| + |unread| == |disk.Keys|
    && forall e :: e in list ==> e.n in disk && e.size == |disk[e.n]|
  }

  lemma ListedOneMore(disk: Directory, unread: set<nat>, list: seq<FileEntry>, n: nat)
    requires Listed(disk, unread, list) && n in unread && unread <= disk.Keys
    ensures Listed(disk, unread - {n}, list + [FileEntry(n, |disk[n]|)])
  {
    assert Numbers(list + [FileEntry(n, |disk[n]|)]) == Numbers(list) + {n};
    forall i | 0 <= i < |list| ensures list[i].n != n { assert list[i].n in Numbers(list); }
  }

  lemma SortedListing(disk: Directory, list: seq<FileEntry>, sorted: seq<FileEntry>)
    requires Listed(disk, {}, list) && multiset(list) == multiset(sorted) && Sorted(sorted)
    ensures StrictlyIncreasing(sorted) && Matches(disk, sorted)
    ensures Numbers(sorted) == disk.Keys && |sorted| == |list| == |disk|
  {
    SameElements(list, sorted);
  }

  lemma TwiceInSequence(s: seq<FileEntry>, i: nat, j: nat)
    requires i < j < |s| && s[i] == s[j]
    ensures multiset(s)[s[i]] >= 2
  {
    assert s == s[..i] + [s[i]] + s[i + 1..j] + [s[j]] + s[j + 1..];
  }

  lemma OnceInDistinct(list: seq<FileEntry>, e: FileEntry, f: FileEntry)
    requires Distinct(list) && e in list && f in list && e.n == f.n
    ensures e == f && multiset(list)[e] == 1
  {
    var k :| 0 <= k < |list| && list[k] == e;
    assert list == list[..k] + [e] + list[k + 1..];
    assert e !in list[..k] && e !in list[k + 1..];
  }

  lemma {:induction false} NoFilesNoPayloads(files: seq<Option<seq<Byte>>>)
    requires forall i :: 0 <= i < |files| ==> files[i].None?
    ensures Payloads(files) == []
  {
    if files != [] {
      NoFilesNoPayloads(files[1..]);
    }
  }

  /** Deleting listed files leaves every other listed file as it was. */
  lemma FilesAfterDelete(disk: Directory, list: seq<FileEntry>, gone: set<nat>)
    requires Numbers(list) !! gone
    ensures Files(disk - gone, list) == Files(disk, list)
  {
  }

  lemma FrontDeleted(disk: Directory, list: seq<FileEntry>)
    requires list != [] && StrictlyIncreasing(list)
    ensures Files(disk - {list[0].n}, list[1..]) == Files(disk, list)[1..]
    ensures Matches(disk, list) ==> Matches(disk - {list[0].n}, list[1..])
  {
  }

  lemma FrontFile(disk: Directory, list: seq<FileEntry>)
    requires list != []
    ensures Files(disk, list)[0] == FileAt(disk, list[0])
  {
  }

  lemma FilesAfterPush(disk: Directory, list: seq<FileEntry>, e: FileEntry, content: seq<Byte>)
    requires e.n !in Numbers(list)
    ensures Files(disk[e.n := content], list + [e]) == Files(disk, list) + [Some(content)]
  {
  }

  /** The files of the part of the list that a policy keeps: the newest ones, or the oldest ones. */
  function KeptFiles(policy: Policy, files: seq<Option<seq<Byte>>>, count: nat): seq<Option<seq<Byte>>>
    requires count <= |files|
  {
    if policy.FifoDeleteOld? then files[|files| - count..] else files[..count]
  }

  /** A queue cut at one end: the oldest records are gone, or the newest. */
  ghost predicate KeepsEnd(policy: Policy, part: seq<seq<Byte>>, all: seq<seq<Byte>>)
  {
    |part| <= |all| && part == if policy.FifoDeleteOld? then all[|all| - |part|..] else all[..|part|]
  }

  lemma KeptPayloads(policy: Policy, files: seq<Option<seq<Byte>>>, count: nat)
    requires count <= |files|
    ensures KeepsEnd(policy, Payloads(KeptFiles(policy, files, count)), Payloads(files))
  {
    var n := if policy.FifoDeleteOld? then |files| - count else count;
    var before, after := files[..n], files[n..];
    assert files == before + after;
    hide Payloads;
    PayloadsAppend(before, after);
    EndsOfConcat(Payloads(before), Payloads(after));
  }

  lemma EndsOfConcat(a: seq<seq<Byte>>, b: seq<seq<Byte>>)
    ensures (a + b)[|a|..] == b && (a + b)[..|a|] == a
  {
  }

  lemma FilesOfKept(policy: Policy, disk: Directory, list: seq<FileEntry>, stale: nat, limit: nat)
    ensures var kept := Kept(policy, list, stale, limit);
            |kept| <= |list| && Files(disk, kept) == KeptFiles(policy, Files(disk, list), |kept|)
  {
    if policy.FifoDeleteOld? {
      KeptSuffixIsLongest(list, stale, limit);
    } else {
      KeptPrefixIsLongest(list, stale, limit);
    }
    hide KeptSuffix, KeptPrefix, Sum, FileAt;
  }

  /** No file is on disk without being listed, and every listed size is the file's real size. */
  ghost predicate Matches(disk: Directory, list: seq<FileEntry>)
  {
    && disk.Keys <= Numbers(list)
    && forall e :: e in list && e.n in disk ==> e.size == |disk[e.n]|
  }

  /** A directory determines its list: file numbers in increasing order, each with its real size. */
  lemma {:induction false} ListIsDetermined(disk: Directory, a: seq<FileEntry>, b: seq<FileEntry>)
    requires StrictlyIncreasing(a) && StrictlyIncreasing(b)
    requires Numbers(a) == disk.Keys == Numbers(b)
    requires Matches(disk, a) && Matches(disk, b)
    ensures a == b
  {
    SameLengthZero(a, b);
    if a == [] {
    } else {
      SameFront(disk, a, b);
      TailNumbers(a);
      TailNumbers(b);
      FrontDeleted(disk, a);
      FrontDeleted(disk, b);
      hide Numbers, Matches, StrictlyIncreasing, Files;
      ListIsDetermined(disk - {a[0].n}, a[1..], b[1..]);
      assert a == [a[0]] + a[1..] && b == [b[0]] + b[1..];
    }
  }

  lemma SameLengthZero(a: seq<FileEntry>, b: seq<FileEntry>)
    requires Numbers(a) == Numbers(b)
    ensures a == [] <==> b == []
  {
    if a != [] { assert a[0].n in Numbers(b); }
    if b != [] { assert b[0].n in Numbers(a); }
  }

  lemma SameFront(disk: Directory, a: seq<FileEntry>, b: seq<FileEntry>)
    requires StrictlyIncreasing(a) && StrictlyIncreasing(b) && a != [] && b != []
    requires Numbers(a) == disk.Keys == Numbers(b)
    requires Matches(disk, a) && Matches(disk, b)
    ensures a[0] == b[0]
  {
  }

  lemma TailNumbers(list: seq<FileEntry>)
    requires list != [] && StrictlyIncreasing(list)
    ensures Numbers(list[1..]) == Numbers(list) - {list[0].n}
    ensures StrictlyIncreasing(list[1..])
  {
  }

  lemma NoneMissing(disk: Directory, list: seq<FileEntry>)
    requires Matches(disk, list) && forall i :: 0 <= i < |list| ==> Files(disk, list)[i].Some?
    ensures Numbers(list) == disk.Keys
  {
    forall e | e in list ensures e.n in disk {
      var i :| 0 <= i < |list| && list[i] == e;
      assert Files(disk, list)[i].Some?;
    }
  }

  lemma StoredInStep(was: Directory, now: Directory, list: seq<FileEntry>, e: FileEntry, content: seq<Byte>)
    requires Matches(was, list) && e.n !in Numbers(list)
    requires now == was[e.n := content] && e.size == |content|
    ensures Matches(now, list + [e])
  {
  }

  lemma NextNumberIsFresh(list: seq<FileEntry>, n: nat)
    requires StrictlyIncreasing(list) && n == if list == [] then 0 else list[|list| - 1].n + 1
    ensures n !in Numbers(list)
  {
  }

  lemma NumbersWithoutEnd(list: seq<FileEntry>, index: nat)
    requires index < |list| && (index == 0 || index == |list| - 1) && StrictlyIncreasing(list)
    ensures Numbers(if index == 0 then list[1..] else list[..index]) == Numbers(list) - {list[index].n}
    ensures list[index].n in Numbers(list)
  {
  }

  lemma EndDeleted(disk: Directory, list: seq<FileEntry>, index: nat)
    requires index < |list| && (index == 0 || index == |list| - 1) && StrictlyIncreasing(list)
    ensures Matches(disk, list) ==> Matches(disk - {list[index].n}, if index == 0 then list[1..] else list[..index])
  {
    NumbersWithoutEnd(list, index);
  }

  lemma DeleteOneMore(disk: Directory, all: set<nat>, left: set<nat>, n: nat)
    requires n in left && left <= all
    ensures disk - (all - left) - {n} == disk - (all - (left - {n}))
  {
  }

  /** A peek that has skipped what it could not read, and read the next file if there is one. */
  lemma PeekDone(files: seq<Option<seq<Byte>>>, k: nat, capacity: nat, data: seq<Byte>)
    requires k <= |files| && forall i :: 0 <= i < k ==> Peeked(files[i], capacity).None?
    requires if k < |files| then Peeked(files[k], capacity) == Some(data) else data == []
    ensures forall i :: 0 <= i < k ==> Unreadable(files[i], capacity)
    ensures k < |files| ==> files[k].Some? && LaidOut(files[k].value, capacity, data)
    ensures Payloads(files[k..]) == Payloads(files)
    ensures (forall f :: f in files ==> RoomFor(capacity, f)) ==>
              (k < |files| <==> Payloads(files) != []) && (k < |files| ==> data == Payloads(files)[0])
  {
    assert k == Skipped(files, capacity);
    hide Payloads, Peeked, RoomFor, Skipped, LaidOut, Unreadable;
    SkippedHoldNothing(files, capacity);
    SkippedLayout(files, capacity);
    if forall f :: f in files ==> RoomFor(capacity, f) {
      PeekFindsHead(files, capacity);
    }
  }

  /** Three complete writes make the record. */
  lemma WholeRecord(base: seq<Byte>, data: seq<Byte>, item: seq<Byte>)
    requires item == ItemHeader(|data|)
    ensures base + FILE_HEADER[..FILE_HEADER_SIZE] + item[..ITEM_HEADER_SIZE] + data[..|data|] == base + Encode(data)
  {
    hide ItemHeader;
  }

  class DiskQueue {
    // The directory `_path` of the file system: the files whose names are numbers.
    var disk: Directory
    var fileList: seq<FileEntry>
    var diskLimit: nat
    var diskCurrent: nat
    var policy: Policy
    var running: bool

    /** The list is in file number order, and accounting never falls below what is listed. */
    ghost predicate Valid()
      reads this
    {
      && StrictlyIncreasing(fileList)
      && Sum(fileList) <= diskCurrent
      && (!running ==> fileList == [])
    }

    ghost predicate InStep()
      reads this
    {
      Matches(disk, fileList)
    }

    /** Bytes counted in `diskCurrent` that belong to no listed file. */
    ghost function Stale(): int
      reads this
    {
      diskCurrent - Sum(fileList)
    }

    /** The queue as its readers see it: the complete records, oldest first. */
    ghost function Contents(): seq<seq<Byte>>
      reads this
    {
      Payloads(Files(disk, fileList))
    }

    constructor (limit: nat)
      ensures Valid() && !running && Stale() == 0 && diskLimit == limit && disk == map[]
    {
      disk, fileList, diskLimit, diskCurrent := map[], [], limit, 0;
      policy, running := FifoDeleteOld, false;
    }

    /** `_fileList.append(entry); _diskCurrent += size` */
    method AddFileNode(n: nat, size: nat)
      modifies this`fileList, this`diskCurrent
      ensures fileList == old(fileList) + [FileEntry(n, size)]
      ensures diskCurrent == old(diskCurrent) + size && Stale() == old(Stale())
    {
      fileList := fileList + [FileEntry(n, size)];
      diskCurrent := diskCurrent + size;
      SumOfConcat(old(fileList), [FileEntry(n, size)]);
    }

    /** Drops one entry from the list; the subtraction saturates at zero but never has to. */
    method RemoveFileNode(index: int)
      requires Valid() && 0 <= index < |fileList|
      modifies this`fileList, this`diskCurrent
      ensures Valid() && fileList == old(fileList)[..index] + old(fileList)[index + 1..]
      ensures Stale() == old(Stale())
    {
      var entry := fileList[index];
      var before, after := fileList[..index], fileList[index + 1..];
      SumWithout(fileList, index);
      OrderWithout(fileList, index);
      hide Sum, StrictlyIncreasing;
      diskCurrent := SaturatingSub(diskCurrent, entry.size);
      fileList := before + after;
    }

    /** `unlink` the oldest file and drop its entry. */
    method DeleteFront()
      requires Valid() && fileList != []
      modifies this`disk, this`fileList, this`diskCurrent
      ensures Valid() && Stale() == old(Stale()) && (old(InStep()) ==> InStep())
      ensures fileList == old(fileList)[1..] && disk == old(disk) - {old(fileList)[0].n}
      ensures Files(disk, fileList) == Files(old(disk), old(fileList))[1..]
    {
      hide Files, Sum, Matches;
      FrontDeleted(disk, fileList);
      disk := disk - {fileList[0].n};
      RemoveFileNode(0);
      assert fileList == old(fileList)[1..];
    }

    /**
     * Skips, and deletes, every leading file that cannot be read as a record, then reads the next one.
     * `data` is the stored payload, cut off at `capacity` bytes.
     */
    method PeekFront(capacity: nat) returns (success: bool, data: seq<Byte>)
      requires Valid()
      modifies this`disk, this`fileList, this`diskCurrent
      ensures Valid() && Stale() == old(Stale()) && (old(InStep()) ==> InStep())
      ensures !running ==> !success && disk == old(disk) && fileList == old(fileList)
      ensures running ==> |fileList| <= |old(fileList)|
      ensures running ==>
                var files, k := Files(old(disk), old(fileList)), |old(fileList)| - |fileList|;
                && fileList == old(fileList)[k..] && disk == old(disk) - Numbers(old(fileList)[..k])
                && Files(disk, fileList) == files[k..]
                && (forall i :: 0 <= i < k ==> Unreadable(files[i], capacity))
                && (success <==> k < |files|)
                && (success ==> files[k].Some? && LaidOut(files[k].value, capacity, data))
                && (!success ==> data == [])
      ensures Contents() == old(Contents())
      ensures running && (forall f :: f in Files(old(disk), old(fileList)) ==> RoomFor(capacity, f)) ==>
                && (success <==> Contents() != [])
                && (success ==> data == Contents()[0])
    {
      hide Files, FileAt, Sum, Matches, StrictlyIncreasing, Peeked, LaidOut, Unreadable, RoomFor, Payloads;
      success, data := false, [];
      if !running {
        return;
      }
      ghost var k, was, list := 0, disk, fileList;
      ghost var files := Files(disk, fileList);
      while fileList != []
        invariant 0 <= k <= |list| && fileList == list[k..]
        invariant Valid() && Stale() == old(Stale()) && (old(InStep()) ==> InStep())
        invariant disk == was - Numbers(list[..k])
        invariant Files(disk, fileList) == files[k..]
        invariant forall i :: 0 <= i < k ==> Peeked(files[i], capacity).None?
        decreases |list| - k
      {
        FrontFile(disk, fileList);
        assert files[k..][0] == files[k];
        assert list[..k + 1] == list[..k] + [list[k]];
        var record := ReadRecord(FileAt(disk, fileList[0]), capacity);
        if record.Some? {
          success, data := true, record.value;
          break;
        }
        DeleteFront();
        k := k + 1;
      }
      PeekDone(files, k, capacity, data);
    }

    /** Deletes the oldest listed file, read or not. */
    method PopFront()
      requires Valid()
      modifies this`disk, this`fileList, this`diskCurrent
      ensures Valid() && Stale() == old(Stale()) && (old(InStep()) ==> InStep())
      ensures !running || old(fileList) == [] ==> disk == old(disk) && fileList == old(fileList)
      ensures running && old(fileList) != [] ==>
                && fileList == old(fileList)[1..] && disk == old(disk) - {old(fileList)[0].n}
                && Files(disk, fileList) == Files(old(disk), old(fileList))[1..]
                && old(Contents()) == PayloadOf(Files(old(disk), old(fileList))[0]) + Contents()
      ensures !running || old(fileList) == [] ==> Contents() == old(Contents())
    {
      if !running || fileList == [] {
        return;
      }
      DeleteFront();
    }

    /** Index -1 for FifoDeleteNew on an empty list, as in the source. */
    function GetWriteOverflowPolicyIndex(): int
      reads this
    {
      match policy
      case FifoDeleteOld => 0
      case FifoDeleteNew => |fileList| - 1
    }

    method EvictNode(index: int)
      requires Valid() && 0 <= index < |fileList| && (index == 0 || index == |fileList| - 1)
      modifies this`disk, this`fileList, this`diskCurrent
      ensures Valid() && Stale() == old(Stale()) && (old(InStep()) ==> InStep())
      ensures fileList == if index == 0 then old(fileList)[1..] else old(fileList)[..index]
      ensures disk == old(disk) - {old(fileList)[index].n}
      ensures old(fileList)[index].n in Numbers(old(fileList))
      ensures Numbers(fileList) == Numbers(old(fileList)) - {old(fileList)[index].n}
    {
      var entry := fileList[index];
      NumbersWithoutEnd(fileList, index);
      EndDeleted(disk, fileList, index);
      hide Numbers, Matches, StrictlyIncreasing;
      RemoveFileNode(index);
      disk := disk - {entry.n};
    }

    /**
     * The eviction loop of a push. It reaches for an entry of an empty list exactly when the stale
     * bytes alone exceed the limit; otherwise it stops within the limit.
     */
    method Evict() returns (emptyListAccess: bool)
      requires Valid()
      modifies this`disk, this`fileList, this`diskCurrent
      ensures Valid() && Stale() == old(Stale()) && (old(InStep()) ==> InStep())
      ensures emptyListAccess <==> old(Stale()) > diskLimit
      ensures !emptyListAccess ==> diskCurrent <= diskLimit
      ensures fileList == Kept(policy, old(fileList), old(Stale()), diskLimit)
      ensures disk == old(disk) - (Numbers(old(fileList)) - Numbers(fileList))
      ensures Files(disk, fileList) == Files(old(disk), fileList)
    {
      ghost var was, list, stale := disk, fileList, Stale();
      assert Numbers(list) - Numbers(fileList) == {};
      hide Numbers, Files, Matches;
      while diskCurrent > diskLimit
        invariant Valid() && Stale() == stale && (old(InStep()) ==> InStep())
        invariant Kept(policy, fileList, stale, diskLimit) == Kept(policy, list, stale, diskLimit)
        invariant Numbers(fileList) <= Numbers(list)
        invariant disk == was - (Numbers(list) - Numbers(fileList))
        invariant forall e :: e in fileList ==> e in list
        decreases |fileList|
      {
        var index := GetWriteOverflowPolicyIndex();
        if fileList == [] {
          FilesAfterDelete(was, fileList, Numbers(list) - Numbers(fileList));
          return true;
        }
        DeleteOneMore(was, Numbers(list), Numbers(fileList), fileList[index].n);
        EvictNode(index);
      }
      FilesAfterDelete(was, fileList, Numbers(list) - Numbers(fileList));
      return false;
    }

    /** `write(fd, bytes, |bytes|)` on a file opened with O_APPEND, of which `stored` bytes get there. */
    method Append(n: nat, bytes: seq<Byte>, stored: nat) returns (ret: nat)
      requires n in disk
      modifies this`disk
      ensures ret == Min(stored, |bytes|)
      ensures disk == old(disk)[n := old(disk)[n] + bytes[..ret]]
    {
      ret := Min(stored, |bytes|);
      disk := disk[n := disk[n] + bytes[..ret]];
    }

    /** The number of the next file. */
    function NextNumber(): nat
      reads this
    {
      if fileList == [] then 0 else fileList[|fileList| - 1].n + 1
    }

    /** Writes one record file; every byte has to arrive, or the file is deleted again. */
    method WriteFile(n: nat, data: seq<Byte>, io: WriteResults) returns (written: bool)
      requires data != [] && io.fd
      modifies this`disk
      ensures written <==> io.fileHeader >= FILE_HEADER_SIZE && io.itemHeader >= ITEM_HEADER_SIZE && io.body >= |data|
      ensures !written ==> disk == old(disk) - {n}
      ensures written ==> disk == old(disk)[n := (if n in old(disk) then old(disk)[n] else []) + Encode(data)]
    {
      ghost var base := if n in disk then disk[n] else [];
      ghost var item := ItemHeader(|data|);
      hide Encode, ItemHeader;
      if n !in disk {
        disk := disk[n := []]; // O_CREAT
      }
      var total := 0;
      var ret := Append(n, FILE_HEADER, io.fileHeader);
      if 0 < ret {
        total := total + ret;
        ret := Append(n, ItemHeader(|data|), io.itemHeader);
        if 0 < ret {
          total := total + ret;
          ret := Append(n, data, io.body);
          if 0 < ret {
            total := total + ret;
            if total == FILE_HEADER_SIZE + ITEM_HEADER_SIZE + |data| {
              WholeRecord(base, data, item);
              return true;
            }
          }
        }
      }
      disk := disk - {n};
      return false;
    }

    /** Writes the next file and lists it; on a short write nothing is left of it. */
    method Store(data: seq<Byte>, io: WriteResults) returns (stored: bool)
      requires Valid() && running && data != []
      modifies this`disk, this`fileList, this`diskCurrent
      ensures stored <==> io.fd && io.fileHeader >= FILE_HEADER_SIZE && io.itemHeader >= ITEM_HEADER_SIZE && io.body >= |data|
      ensures Valid() && Stale() == old(Stale())
      ensures !stored ==> disk == (if io.fd then old(disk) - {old(NextNumber())} else old(disk)) && fileList == old(fileList)
      ensures stored ==>
                var entry := FileEntry(old(NextNumber()), HEADERS_SIZE + |data|);
                && fileList == old(fileList) + [entry]
                && disk == old(disk)[entry.n := (if entry.n in old(disk) then old(disk)[entry.n] else []) + Encode(data)]
    {
      hide Encode, Sum;
      var n := NextNumber();
      if !io.fd {
        return false;
      }
      stored := WriteFile(n, data, io);
      if !stored {
        return;
      }
      AddFileNode(n, HEADERS_SIZE + |data|);
    }

    /**
     * Appends one record and evicts until the limit is met. While the directory is in step with the
     * list the new file's number is fresh, a push that is turned down changes nothing, and one that
     * is carried out leaves the longest fitting part of the old records plus the new one, oldest or
     * newest first to go by policy.
     */
    method PushBack(data: seq<Byte>, io: WriteResults) returns (result: PushResult)
      requires Valid()
      modifies this`disk, this`fileList, this`diskCurrent
      ensures Valid() && Stale() == old(Stale()) && (old(InStep()) ==> InStep())
      ensures result == Rejected <==>
                !running || data == [] || diskLimit == 0 || !io.fd || io.fileHeader < FILE_HEADER_SIZE
                || io.itemHeader < ITEM_HEADER_SIZE || io.body < |data|
      ensures result == Rejected ==> fileList == old(fileList) && (old(InStep()) ==> disk == old(disk))
      ensures result == EmptyListAccess <==> result != Rejected && old(Stale()) > diskLimit
      ensures result == Pushed ==> diskCurrent <= diskLimit
      ensures result != Rejected ==>
                fileList == Kept(policy, old(fileList) + [FileEntry(old(NextNumber()), HEADERS_SIZE + |data|)], old(Stale()), diskLimit)
      ensures result != Rejected && old(InStep()) ==>
                var files := Files(old(disk), old(fileList)) + [Some(Encode(data))];
                && old(NextNumber()) !in old(disk)
                && |fileList| <= |files| && Files(disk, fileList) == KeptFiles(policy, files, |fileList|)
      ensures result == Rejected && old(InStep()) ==> Contents() == old(Contents())
      ensures result != Rejected && old(InStep()) && |data| < 0x10000 ==>
                KeepsEnd(policy, Contents(), old(Contents()) + [data])
    {
      hide Files, Kept, KeptFiles, Sum;
      if !running || data == [] || diskLimit == 0 {
        return Rejected;
      }
      ghost var n := NextNumber();
      NextNumberIsFresh(fileList, n);
      var stored := Store(data, io);
      if !stored {
        return Rejected;
      }
      if old(InStep()) {
        assert disk == old(disk)[n := Encode(data)] by { assert [] + Encode(data) == Encode(data); }
        FilesAfterPush(old(disk), old(fileList), FileEntry(n, HEADERS_SIZE + |data|), Encode(data));
        StoredInStep(old(disk), disk, old(fileList), FileEntry(n, HEADERS_SIZE + |data|), Encode(data));
      }
      FilesOfKept(policy, disk, fileList, Stale(), diskLimit);
      ghost var files := Files(old(disk), old(fileList)) + [Some(Encode(data))];
      var emptyListAccess := Evict();
      if old(InStep()) && |data| < 0x10000 {
        KeptPayloads(policy, files, |fileList|);
        TornTailIsInvisible(Files(old(disk), old(fileList)), data, 0);
      }
      return if emptyListAccess then EmptyListAccess else Pushed;
    }

    method SetDiskLimit(size: nat)
      requires Valid()
      modifies this`diskLimit
      ensures Valid() && diskLimit == size
    {
      diskLimit := size;
    }

    /** Deletes the listed files but keeps the list: peeks then skip every entry. */
    method UnlinkFiles()
      requires Valid()
      modifies this`disk
      ensures Valid() && disk == old(disk) - Numbers(fileList)
      ensures old(InStep()) ==> InStep() && disk == map[]
      ensures Payloads(Files(disk, fileList)) == []
    {
      var i := 0;
      assert disk == disk - Numbers(fileList[..0]);
      while i < |fileList|
        invariant 0 <= i <= |fileList|
        invariant disk == old(disk) - Numbers(fileList[..i])
      {
        if fileList[i].n in disk {
          disk := disk - {fileList[i].n};
        }
        i := i + 1;
        assert fileList[..i] == fileList[..i - 1] + [fileList[i - 1]];
      }
      assert fileList[..i] == fileList;
      NoFilesNoPayloads(Files(disk, fileList));
    }

    /** Forgets the list; the byte count is not reset, so all of it turns stale. */
    method Stop()
      requires Valid()
      modifies this`running, this`fileList
      ensures Valid() && !running && fileList == [] && Stale() == diskCurrent == old(diskCurrent)
    {
      running := false;
      fileList := [];
    }

    /**
     * Rebuilds the list from the directory, in whatever order it is read, and sorts it. `overrun`
     * is the write past the sort's stack, which a directory with exactly one file provokes.
     */
    method Start(directoryOk: bool, readable: bool, newPolicy: Policy) returns (started: bool, overrun: bool)
      requires Valid()
      modifies this`fileList, this`diskCurrent, this`policy, this`running
      ensures Valid() && Stale() == old(Stale())
      ensures started <==> !old(running) && directoryOk
      ensures !started ==> !overrun && running == old(running) && fileList == old(fileList) && policy == old(policy)
      ensures started ==> running && policy == newPolicy
      ensures started && readable ==> InStep() && Numbers(fileList) == disk.Keys && |fileList| == |disk|
      ensures started && !readable ==> fileList == []
      ensures overrun <==> started && readable && |disk| == 1
    {
      started, overrun := false, false;
      if running || !directoryOk {
        return;
      }
      if readable {
        overrun := GetFilenames();
      }
      policy, running, started := newPolicy, true, true;
    }

    method GetFilenames() returns (overrun: bool)
      requires Valid() && fileList == []
      modifies this`fileList, this`diskCurrent
      ensures StrictlyIncreasing(fileList) && Sum(fileList) <= diskCurrent && Stale() == old(Stale())
      ensures InStep() && Numbers(fileList) == disk.Keys && |fileList| == |disk|
      ensures overrun <==> |disk| == 1
    {
      hide Sum, Listed, StrictlyIncreasing, Numbers, Matches, Sorted;
      ListDirectory();
      var files := fileList;
      var a := new FileEntry[|files|](i requires 0 <= i < |files| => files[i]);
      assert a[..] == files;
      overrun := QuickSortFiles(a);
      SortedListing(disk, files, a[..]);
      SumOfPermutation(files, a[..]);
      fileList := a[..];
    }

    /** The readdir loop: every file once, in no particular order. */
    method ListDirectory()
      requires fileList == []
      modifies this`fileList, this`diskCurrent
      ensures Listed(disk, {}, fileList) && Stale() == old(Stale())
    {
      var unread := disk.Keys;
      while unread != {}
        invariant unread <= disk.Keys
        invariant Listed(disk, unread, fileList) && Stale() == old(Stale())
        decreases unread
      {
        hide Sum, Listed;
        var n :| n in unread;
        ListedOneMore(disk, unread, fileList, n);
        unread := unread - {n};
        AddFileNode(n, |disk[n]|);
      }
    }
  }

  /** `read(fd, buf, n)` from position `pos`: fewer bytes at the end of the file. */
  function Read(file: seq<Byte>, pos: nat, n: nat): seq<Byte>
  {
    file[Min(pos, |file|)..Min(pos + n, |file|)]
  }

  /** Opens one file and reads the two headers and the data in turn; any short or wrong part rejects the file. */
  method ReadRecord(file: Option<seq<Byte>>, capacity: nat) returns (record: Option<seq<Byte>>)
    ensures record == Peeked(file, capacity)
    ensures record.Some? ==> file.Some? && LaidOut(file.value, capacity, record.value)
    ensures record.None? <==> Unreadable(file, capacity)
  {
    hide LaidOut, Unreadable;
    SkippedIffUnreadable(file, capacity);
    if Peeked(file, capacity).Some? { PeekedIffLaidOut(file.value, capacity, Peeked(file, capacity).value); }
    if file.None? {
      return None;
    }
    var fileHeader := Read(file.value, 0, FILE_HEADER_SIZE);
    if FILE_HEADER_SIZE > |fileHeader| || FILE_MAGIC != fileHeader[0] || FILE_VERSION != fileHeader[1] {
      return None;
    }
    var itemHeader := Read(file.value, FILE_HEADER_SIZE, ITEM_HEADER_SIZE);
    if ITEM_HEADER_SIZE > |itemHeader| || ITEM_MAGIC != itemHeader[0] || itemHeader[1] % 2 == 0 {
      return None;
    }
    assert fileHeader == file.value[..3] && itemHeader == file.value[3..7];
    var toRead := Min(capacity, itemHeader[2] as int + 256 * (itemHeader[3] as int));
    assert GoodHeaders(file.value) && toRead == Min(capacity, StoredLength(file.value));
    var data := Read(file.value, HEADERS_SIZE, toRead);
    if toRead > |data| {
      return None;
    }
    return Some(data);
  }

  /** Listing a directory afresh forgets entries without a file, and leaves the records as they are. */
  lemma {:induction false} RelistedAlike(disk: Directory, list: seq<FileEntry>, relisted: seq<FileEntry>)
    requires StrictlyIncreasing(list) && StrictlyIncreasing(relisted)
    requires disk.Keys <= Numbers(list) && disk.Keys == Numbers(relisted)
    ensures Payloads(Files(disk, list)) == Payloads(Files(disk, relisted))
    decreases |list|
  {
    if list == [] {
      SameLengthZero(list, relisted);
    } else {
      var n := list[0].n;
      TailNumbers(list);
      FrontFile(disk, list);
      FrontDeleted(disk, list);
      if n !in disk {
        assert disk - {n} == disk;
        RelistedAlike(disk, list[1..], relisted);
      } else {
        FirstIsLeast(disk, list, relisted);
        TailNumbers(relisted);
        FrontFile(disk, relisted);
        FrontDeleted(disk, relisted);
        hide Numbers, Files, StrictlyIncreasing, FileAt;
        RelistedAlike(disk - {n}, list[1..], relisted[1..]);
      }
    }
  }

  lemma FirstIsLeast(disk: Directory, list: seq<FileEntry>, relisted: seq<FileEntry>)
    requires StrictlyIncreasing(list) && StrictlyIncreasing(relisted) && list != [] && list[0].n in disk
    requires disk.Keys <= Numbers(list) && disk.Keys == Numbers(relisted)
    ensures relisted != [] && relisted[0].n == list[0].n
  {
    assert list[0].n in Numbers(relisted);
    assert relisted[0].n in Numbers(list);
  }

  /**
   * Stop followed by Start leaves the records as they are, rebuilds exactly the list there was unless
   * files were missing, and counts every byte of it again: the bytes counted before have all become stale.
   */
  method Restart(q: DiskQueue, policy: Policy)
    requires q.Valid() && q.InStep() && q.running
    modifies q`fileList, q`diskCurrent, q`policy, q`running
    ensures q.Valid() && q.InStep() && q.running && q.policy == policy
    ensures q.Contents() == old(q.Contents()) && Numbers(q.fileList) == q.disk.Keys
    ensures old(Numbers(q.fileList)) == q.disk.Keys ==> q.fileList == old(q.fileList)
    ensures q.Stale() == old(q.diskCurrent)
  {
    ghost var list := q.fileList;
    assert q.disk.Keys <= Numbers(list);
    hide Matches, Numbers, StrictlyIncreasing, Sum, Files, Payloads;
    q.Stop();
    var started, overrun := q.Start(true, true, policy);
    RelistedAlike(q.disk, list, q.fileList);
    if Numbers(list) == q.disk.Keys {
      ListIsDetermined(q.disk, q.fileList, list);
    }
  }

  /**
   * Two restarts are enough to break a push that is far below the limit: each restart counts every
   * file again, and the eviction loop empties the list and goes on.
   */
  method RestartsStrandTheQueue(data: seq<Byte>) returns (first: PushResult, second: PushResult)
    requires |data| == 10
    ensures first == Pushed && second == EmptyListAccess
  {
    hide Kept, Encode, Matches, Numbers, StrictlyIncreasing, Payloads, PayloadOf;
    var q := new DiskQueue(30);
    var io := WriteResults(true, 3, 4, 10);
    var started, overrun := q.Start(true, true, FifoDeleteOld);
    first := q.PushBack(data, io);
    OneFileFits(FileEntry(0, 17));
    NoneMissing(q.disk, q.fileList);
    Restart(q, FifoDeleteOld);
    Restart(q, FifoDeleteOld);
    second := q.PushBack(data, io);
  }

  lemma OneFileFits(e: FileEntry)
    requires e.size <= 30
    ensures Kept(FifoDeleteOld, [] + [e], 0, 30) == [e]
    ensures Sum([e]) == e.size
  {
    var list := [] + [e];
    assert list == [e] && list[1..] == [];
    assert Sum(list) == e.size + Sum(list[1..]);
  }
}
