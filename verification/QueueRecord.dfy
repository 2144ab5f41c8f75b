/** The layout of one queue file, and what reading it back yields. */
module QueueRecord {

  import opened Prelude
  import opened Words

  const FILE_MAGIC: Byte := 0x50
  const FILE_VERSION: Byte := 0x01
  const ITEM_MAGIC: Byte := 0xf0
  const FILE_HEADER_SIZE: nat := 3
  const ITEM_HEADER_SIZE: nat := 4
  const HEADERS_SIZE: nat := 7

  /** `{ QueueFileMagic, QueueFileVersion1, 0x00 }` */
  const FILE_HEADER: seq<Byte> := [FILE_MAGIC, FILE_VERSION, 0x00]

  lemma LowTwoBytes(size: nat)
    ensures size % 256 + 256 * ((size / 256) % 256) == size % 0x10000
  {
    var n := size / 256;
    Euclid(size, 256);
    Euclid(n, 256);
    RemainderIs(size, n / 256, 256 * (n % 256) + size % 256);
  }

  lemma Euclid(n: nat, d: nat)
    requires d > 0
    ensures n == d * (n / d) + n % d
  {
  }

  lemma RemainderIs(n: nat, q: nat, r: nat)
    requires n == 0x10000 * q + r && r < 0x10000
    ensures n % 0x10000 == r
  {
  }

  /** `{ QueueItemMagic, ItemFlagActive, (uint16_t)size }`, the length truncated to 16 bits, low byte first. */
  function ItemHeader(size: nat): (h: seq<Byte>)
    ensures |h| == ITEM_HEADER_SIZE && h[2] as int + 256 * (h[3] as int) == size % 0x10000
  {
    LowTwoBytes(size);
    [ITEM_MAGIC, 0x01, size % 256, (size / 256) % 256]
  }

  function Encode(data: seq<Byte>): (file: seq<Byte>)
    ensures |file| == HEADERS_SIZE + |data|
  {
    FILE_HEADER + ItemHeader(|data|) + data
  }

  predicate GoodHeaders(file: seq<Byte>)
  {
    && HEADERS_SIZE <= |file|
    && file[0] == FILE_MAGIC && file[1] == FILE_VERSION
    && file[3] == ITEM_MAGIC && file[4] % 2 == 1
  }

  function StoredLength(file: seq<Byte>): nat
    requires GoodHeaders(file)
  {
    file[5] as int + 256 * (file[6] as int)
  }

  /** A complete record: both headers are good and every byte they promise is there. */
  predicate WellFormed(file: seq<Byte>)
  {
    GoodHeaders(file) && HEADERS_SIZE + StoredLength(file) <= |file|
  }

  function Payload(file: seq<Byte>): seq<Byte>
    requires WellFormed(file)
  {
    file[HEADERS_SIZE..HEADERS_SIZE + StoredLength(file)]
  }

  function Min(a: nat, b: nat): nat
  {
    if a <= b then a else b
  }

  /** What a peek with room for `capacity` bytes gets from a file; None for a file it deletes. */
  function Peeked(file: Option<seq<Byte>>, capacity: nat): Option<seq<Byte>>
  {
    if file.None? || !GoodHeaders(file.value) then None
    else
      var length := Min(capacity, StoredLength(file.value));
      if HEADERS_SIZE + length <= |file.value| then Some(file.value[HEADERS_SIZE..HEADERS_SIZE + length]) else None
  }

  /* ---- The layout of a record, byte by byte ---- */

  function RecordBytes(flags: Byte, active: Byte, low: Byte, high: Byte, data: seq<Byte>, rest: seq<Byte>): seq<Byte>
  {
    [0x50, 0x01, flags, 0xf0, active, low, high] + data + rest
  }

  /**
   * The file is 'P', version 1, any file flags, 0xf0, item flags with bit 0 set, and a 16-bit length, low
   * byte first; reading no more than `capacity` of so many bytes gives `data`, and anything may follow.
   */
  ghost predicate LaidOut(file: seq<Byte>, capacity: nat, data: seq<Byte>)
  {
    exists flags: Byte, active: Byte, low: Byte, high: Byte, rest: seq<Byte> ::
      && file == RecordBytes(flags, active, low, high, data, rest) && active % 2 == 1
      && |data| == (if low + 256 * high <= capacity then low + 256 * high else capacity)
  }

  /** A peek accepts exactly the files of that layout, and gets exactly their data. */
  lemma PeekedIffLaidOut(file: seq<Byte>, capacity: nat, data: seq<Byte>)
    ensures Peeked(Some(file), capacity) == Some(data) <==> LaidOut(file, capacity, data)
  {
    if Peeked(Some(file), capacity) == Some(data) {
      PeekedIsLaidOut(file, capacity, data);
    }
    if LaidOut(file, capacity, data) {
      var flags: Byte, active: Byte, low: Byte, high: Byte, rest: seq<Byte> :|
        && file == RecordBytes(flags, active, low, high, data, rest) && active % 2 == 1
        && |data| == (if low + 256 * high <= capacity then low + 256 * high else capacity);
      hide *;
      LaidOutIsPeeked(flags, active, low, high, data, rest, capacity);
    }
  }

  lemma LaidOutIsPeeked(flags: Byte, active: Byte, low: Byte, high: Byte, data: seq<Byte>, rest: seq<Byte>, capacity: nat)
    requires active % 2 == 1 && |data| == (if low + 256 * high <= capacity then low + 256 * high else capacity)
    ensures Peeked(Some(RecordBytes(flags, active, low, high, data, rest)), capacity) == Some(data)
  {
    var file := RecordBytes(flags, active, low, high, data, rest);
    assert file[HEADERS_SIZE..HEADERS_SIZE + |data|] == data;
  }

  lemma PeekedIsLaidOut(file: seq<Byte>, capacity: nat, data: seq<Byte>)
    requires Peeked(Some(file), capacity) == Some(data)
    ensures LaidOut(file, capacity, data)
  {
    var rest := file[HEADERS_SIZE + |data|..];
    assert file == file[..HEADERS_SIZE] + data + rest;
    assert file[..HEADERS_SIZE] == [0x50, 0x01, file[2], 0xf0, file[4], file[5], file[6]];
    assert file == RecordBytes(file[2], file[4], file[5], file[6], data, rest);
  }

  /** The complete records are the files of that layout with as many bytes as the length field says, whatever the field. */
  lemma WellFormedIffLaidOut(file: seq<Byte>, data: seq<Byte>)
    ensures WellFormed(file) && Payload(file) == data <==> LaidOut(file, 0xffff, data)
  {
    hide LaidOut;
    PeekedIffLaidOut(file, 0xffff, data);
  }

  /** A file of any other form is skipped: no data can be read from it. */
  ghost predicate Unreadable(file: Option<seq<Byte>>, capacity: nat)
  {
    file.None? || forall data :: !LaidOut(file.value, capacity, data)
  }

  lemma SkippedIffUnreadable(file: Option<seq<Byte>>, capacity: nat)
    ensures Peeked(file, capacity).None? <==> Unreadable(file, capacity)
  {
    hide LaidOut;
    if file.Some? {
      if Peeked(file, capacity).Some? {
        PeekedIffLaidOut(file.value, capacity, Peeked(file, capacity).value);
      } else {
        forall data ensures !LaidOut(file.value, capacity, data) { PeekedIffLaidOut(file.value, capacity, data); }
      }
    }
    hide Peeked;
  }

  /** The files that a peek skips are those of other forms, and the first one that it does not skip is read. */
  lemma SkippedLayout(files: seq<Option<seq<Byte>>>, capacity: nat)
    ensures var k := Skipped(files, capacity);
            && (forall i :: 0 <= i < k ==> Unreadable(files[i], capacity))
            && (k < |files| ==> files[k].Some? && LaidOut(files[k].value, capacity, Peeked(files[k], capacity).value))
  {
    hide LaidOut, Unreadable;
    var k := Skipped(files, capacity);
    forall i | 0 <= i < k ensures Unreadable(files[i], capacity) { SkippedIffUnreadable(files[i], capacity); }
    if k < |files| { PeekedIffLaidOut(files[k].value, capacity, Peeked(files[k], capacity).value); }
  }

  predicate RoomFor(capacity: nat, file: Option<seq<Byte>>)
  {
    file.Some? && GoodHeaders(file.value) ==> StoredLength(file.value) <= capacity
  }

  /** With room for the stored length, the files a peek accepts are exactly the complete records, unshortened. */
  lemma PeekedIsPayload(file: Option<seq<Byte>>, capacity: nat)
    requires RoomFor(capacity, file)
    ensures Peeked(file, capacity) ==
            if file.Some? && WellFormed(file.value) then Some(Payload(file.value)) else None
  {
  }

  /** Exactly the payloads of fewer than 2^16 bytes come back as they were pushed. */
  lemma RoundTrip(data: seq<Byte>)
    ensures Encode(data) == [0x50, 0x01, 0x00, 0xf0, 0x01, |data| % 256, (|data| / 256) % 256] + data
    ensures WellFormed(Encode(data))
    ensures Payload(Encode(data)) == data[..|data| % 0x10000]
    ensures Payload(Encode(data)) == data <==> |data| < 0x10000
  {
  }

  /**
   * A write that power loss cut short passes for a record only if every byte its length field
   * promises was written; below 2^16 bytes that means no strict prefix of a record does.
   */
  lemma TornRecordIsMalformed(data: seq<Byte>, written: nat)
    requires written <= |Encode(data)|
    ensures WellFormed(Encode(data)[..written]) <==> HEADERS_SIZE + |data| % 0x10000 <= written
    ensures |data| < 0x10000 && written < |Encode(data)| ==> !WellFormed(Encode(data)[..written])
  {
  }

  /** The payloads that readers will see: the complete records, oldest first. */
  function Payloads(files: seq<Option<seq<Byte>>>): seq<seq<Byte>>
  {
    if files == [] then []
    else PayloadOf(files[0]) + Payloads(files[1..])
  }

  function PayloadOf(file: Option<seq<Byte>>): seq<seq<Byte>>
  {
    if file.Some? && WellFormed(file.value) then [Payload(file.value)] else []
  }

  /** The number of leading files that a peek deletes. */
  function Skipped(files: seq<Option<seq<Byte>>>, capacity: nat): (k: nat)
    ensures k <= |files|
    ensures forall i :: 0 <= i < k ==> Peeked(files[i], capacity).None?
    ensures k < |files| ==> Peeked(files[k], capacity).Some?
  {
    if files == [] || Peeked(files[0], capacity).Some? then 0 else 1 + Skipped(files[1..], capacity)
  }

  lemma {:induction false} PayloadsAppend(a: seq<Option<seq<Byte>>>, b: seq<Option<seq<Byte>>>)
    ensures Payloads(a + b) == Payloads(a) + Payloads(b)
  {
    hide PayloadOf;
    if a == [] {
      assert a + b == b;
    } else {
      PayloadsAppend(a[1..], b);
      assert (a + b)[1..] == a[1..] + b && (a + b)[0] == a[0];
      assert Payloads(a + b) == PayloadOf(a[0]) + Payloads(a[1..] + b);
    }
  }

  /** Peek then pop is the head and tail of the payload sequence, whatever malformed files lie in front. */
  lemma {:induction false} PeekPopYieldsPayloads(files: seq<Option<seq<Byte>>>, capacity: nat)
    requires forall i :: 0 <= i < |files| ==> RoomFor(capacity, files[i])
    ensures var k := Skipped(files, capacity);
            if k == |files| then Payloads(files) == []
            else Payloads(files) == [Peeked(files[k], capacity).value] + Payloads(files[k + 1..])
  {
    if files != [] {
      PeekedIsPayload(files[0], capacity);
      if Peeked(files[0], capacity).None? {
        PeekPopYieldsPayloads(files[1..], capacity);
        var k := Skipped(files[1..], capacity);
        assert k < |files[1..]| ==> files[1..][k + 1..] == files[k + 2..];
      }
    }
  }

  /** A crash that leaves a torn last file loses that record and nothing else. */
  lemma TornTailIsInvisible(files: seq<Option<seq<Byte>>>, data: seq<Byte>, written: nat)
    requires |data| < 0x10000 && written < |Encode(data)|
    ensures Payloads(files + [Some(Encode(data)[..written])]) == Payloads(files)
    ensures Payloads(files + [Some(Encode(data))]) == Payloads(files) + [data]
  {
    TornRecordIsMalformed(data, written);
    RoundTrip(data);
    PayloadsAppend(files, [Some(Encode(data)[..written])]);
    PayloadsAppend(files, [Some(Encode(data))]);
  }

  /** What a peek skips holds no payload, whatever its capacity. */
  lemma {:induction false} SkippedHoldNothing(files: seq<Option<seq<Byte>>>, capacity: nat)
    ensures Payloads(files[Skipped(files, capacity)..]) == Payloads(files)
  {
    if files != [] && Peeked(files[0], capacity).None? {
      SkippedHoldNothing(files[1..], capacity);
      assert files[Skipped(files, capacity)..] == files[1..][Skipped(files[1..], capacity)..];
    }
  }

  /** With room for every record a peek finds the first payload, if there is one. */
  lemma PeekFindsHead(files: seq<Option<seq<Byte>>>, capacity: nat)
    requires forall i :: 0 <= i < |files| ==> RoomFor(capacity, files[i])
    ensures var k := Skipped(files, capacity);
            && (k < |files| <==> Payloads(files) != [])
            && (k < |files| ==> Peeked(files[k], capacity) == Some(Payloads(files)[0]))
  {
    PeekPopYieldsPayloads(files, capacity);
  }

  /* ---- Whole records only ---- */

  /** The files of a queue that holds exactly these records. */
  function Encoded(records: seq<seq<Byte>>): (files: seq<Option<seq<Byte>>>)
    ensures |files| == |records|
  {
    seq(|records|, i requires 0 <= i < |records| => Some(Encode(records[i])))
  }

  ghost predicate Storable(records: seq<seq<Byte>>)
  {
    forall i :: 0 <= i < |records| ==> |records[i]| < 0x10000
  }

  lemma {:induction false} PayloadsOfEncoded(records: seq<seq<Byte>>)
    requires Storable(records)
    ensures Payloads(Encoded(records)) == records
  {
    if records != [] {
      PayloadsOfEncoded(records[1..]);
      RoundTrip(records[0]);
      assert Encoded(records)[1..] == Encoded(records[1..]);
      assert PayloadOf(Encoded(records)[0]) == [records[0]];
      hide PayloadOf, Encode;
    }
  }

  /** A peek cuts a whole record at its capacity. */
  lemma PeekedEncoded(record: seq<Byte>, capacity: nat)
    requires |record| < 0x10000
    ensures Peeked(Some(Encode(record)), capacity) == Some(record[..Min(capacity, |record|)])
  {
    RoundTrip(record);
    var file := Encode(record);
    var length := Min(capacity, |record|);
    assert StoredLength(file) == |record| && |file| == HEADERS_SIZE + |record|;
    assert file[HEADERS_SIZE..HEADERS_SIZE + length] == record[..length];
  }
}
