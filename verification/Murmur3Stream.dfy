/** The hash object that callers feed chunk by chunk, proved against the message-level hash. */
module Murmur3Stream {
  import opened Words
  import opened Murmur3

  class Murmur3Hash {
    var h0: Word
    var h1: Word
    var h2: Word
    var h3: Word
    const accum: array<Byte>
    var accumLen: nat

    ghost predicate Valid()
      reads this
    {
      accum.Length == BLOCK && accumLen < BLOCK
    }

    function HashedLanes(): Lanes
      reads this
    {
      Lanes(h0, h1, h2, h3)
    }

    /** The lanes and the bytes held back, as a value. */
    function Value(): HashState
      requires accum.Length == BLOCK && accumLen <= BLOCK
      reads this, accum
    {
      HashState(HashedLanes(), accum[..accumLen])
    }

    constructor ()
      ensures Valid() && fresh(accum) && Value() == HashState(Lanes(0, 0, 0, 0), [])
    {
      h0, h1, h2, h3, accumLen := 0, 0, 0, 0, 0;
      accum := new Byte[BLOCK](_ => 0);
    }

    method Start(seed: Word)
      requires Valid()
      modifies this
      ensures Valid() && Value() == Started(seed) == HashState(Lanes(seed, seed, seed, seed), [])
    {
      h0, h1, h2, h3 := seed, seed, seed, seed;
      accumLen := 0;
    }

    /** One block, lane by lane; the last lane already sees the new first one. */
    method HashBlock(block: seq<Byte>)
      requires |block| == BLOCK
      modifies this`h0, this`h1, this`h2, this`h3
      ensures HashedLanes() == HashStep(old(HashedLanes()), block)
    {
      hide Mul, Rotl32, Add, Xor;
      var k1, k2, k3, k4 := LittleEndian(block, 0), LittleEndian(block, 4), LittleEndian(block, 8), LittleEndian(block, 12);

      k1 := Mul(k1, C1);
      k1 := Rotl32(k1, 15);
      k1 := Mul(k1, C2);
      h0 := XorWord(h0, k1);

      h0 := Rotl32(h0, 19);
      h0 := Add(h0, h1);
      h0 := Add(Mul(h0, 5), 0x561ccd1b);

      k2 := Mul(k2, C2);
      k2 := Rotl32(k2, 16);
      k2 := Mul(k2, C3);
      h1 := XorWord(h1, k2);

      h1 := Rotl32(h1, 17);
      h1 := Add(h1, h2);
      h1 := Add(Mul(h1, 5), 0x0bcaa747);

      k3 := Mul(k3, C3);
      k3 := Rotl32(k3, 17);
      k3 := Mul(k3, C4);
      h2 := XorWord(h2, k3);

      h2 := Rotl32(h2, 15);
      h2 := Add(h2, h3);
      h2 := Add(Mul(h2, 5), 0x96cd1c35);

      k4 := Mul(k4, C4);
      k4 := Rotl32(k4, 18);
      k4 := Mul(k4, C1);
      h3 := XorWord(h3, k4);

      h3 := Rotl32(h3, 13);
      h3 := Add(h3, h0);
      h3 := Add(Mul(h3, 5), 0x32ac3b17);
    }

    /** Feeds one chunk: through the accumulator while it is in use or the chunk is short, else block by block. */
    method Update(data: seq<Byte>)
      requires Valid()
      modifies this, accum
      ensures Valid() && Value() == Updated(old(Value()), data)
    {
      hide HashStep;
      ghost var start := Value();
      var bytes := data;
      while |bytes| > 0
        invariant Valid() && Updated(Value(), bytes) == Updated(start, data)
        decreases |bytes|
      {
        if accumLen != 0 || |bytes| < BLOCK {
          bytes := Accumulate(bytes);
        } else {
          while |bytes| >= BLOCK
            invariant Valid() && accumLen == 0 && Updated(Value(), bytes) == Updated(start, data)
            decreases |bytes|
          {
            BlockAbsorbed(Value(), bytes);
            HashBlock(bytes[..BLOCK]);
            bytes := bytes[BLOCK..];
          }
        }
      }
      NothingLeft(Value(), bytes);
    }

    /** The partial-block branch: copies what fits, and hashes the accumulator when it is full. */
    method Accumulate(bytes: seq<Byte>) returns (left: seq<Byte>)
      requires Valid() && |bytes| > 0
      modifies this, accum
      ensures Valid() && |left| < |bytes| && Updated(Value(), left) == Updated(old(Value()), bytes)
    {
      hide HashStep;
      ghost var start := Value();
      var toCopy := if BLOCK - accumLen <= |bytes| then BLOCK - accumLen else |bytes|;
      forall i | 0 <= i < toCopy {
        accum[accumLen + i] := bytes[i];
      }
      accumLen := accumLen + toCopy;
      left := bytes[toCopy..];
      assert accum[..accumLen] == start.rest + bytes[..toCopy];
      assert start.rest + bytes == accum[..accumLen] + left;
      assert Updated(start, bytes) == Updated(Value(), left);
      if accumLen == BLOCK {
        assert accum[..accumLen] == accum[..];
        FullAccumulator(start.lanes, accum[..], left);
        HashBlock(accum[..]);
        accumLen := 0;
        assert Value() == HashState(HashedLanes(), []);
      }
    }

    /** The tail's words, those that are missing left out. */
    method MixTail()
      requires Valid()
      modifies this`h0, this`h1, this`h2, this`h3
      ensures HashedLanes() == XorLanes(old(HashedLanes()), MixWords(BlockWords(Padded(accum[..accumLen]))))
    {
      hide Mul, Rotl32, Add, Xor, Fmix32, LittleEndian, MixWord;
      ghost var h := HashedLanes();
      var tail := accum;
      var n := accumLen;
      var k1, k2, k3, k4 := TailWord(tail[..], n, 0), TailWord(tail[..], n, 4), TailWord(tail[..], n, 8), TailWord(tail[..], n, 12);
      PaddedWords(tail[..], n);
      assert tail[..][..n] == accum[..accumLen];
      ZeroMixes();
      if n >= 13 {
        h3 := XorWord(h3, MixWord(k4, C4, 18, C1));
      }
      if n >= 9 {
        h2 := XorWord(h2, MixWord(k3, C3, 17, C4));
      }
      if n >= 5 {
        h1 := XorWord(h1, MixWord(k2, C2, 16, C3));
      }
      if n >= 1 {
        h0 := XorWord(h0, MixWord(k1, C1, 15, C2));
      }
      XorZero(h.h0);
      XorZero(h.h1);
      XorZero(h.h2);
      XorZero(h.h3);
    }

    /** The length, and the final mixing of the lanes among themselves. */
    method MixLanes(n: Word)
      modifies this`h0, this`h1, this`h2, this`h3
      ensures HashedLanes() == Scramble(old(HashedLanes()), n)
    {
      hide Add, Xor, Fmix32;
      h0 := XorWord(h0, n);
      h1 := XorWord(h1, n);
      h2 := XorWord(h2, n);
      h3 := XorWord(h3, n);

      h0 := Add(h0, h1);
      h0 := Add(h0, h2);
      h0 := Add(h0, h3);
      h1 := Add(h1, h0);
      h2 := Add(h2, h0);
      h3 := Add(h3, h0);

      h0 := Fmix32(h0);
      h1 := Fmix32(h1);
      h2 := Fmix32(h2);
      h3 := Fmix32(h3);

      h0 := Add(h0, h1);
      h0 := Add(h0, h2);
      h0 := Add(h0, h3);
      h1 := Add(h1, h0);
      h2 := Add(h2, h0);
      h3 := Add(h3, h0);
    }

    /** The tail, its length, and the final mixing; nothing is held back any more. */
    method Finalize()
      requires Valid()
      modifies this
      ensures Valid() && accumLen == 0 && HashedLanes() == Finished(old(Value()))
    {
      hide Scramble, MixWords, BlockWords, Padded;
      MixTail();
      MixLanes(accumLen);
      accumLen := 0;
    }
  }

  lemma BlockAbsorbed(s: HashState, bytes: seq<Byte>)
    requires s.rest == [] && |bytes| >= BLOCK
    ensures Updated(s, bytes) == Updated(HashState(HashStep(s.lanes, bytes[..BLOCK]), []), bytes[BLOCK..])
  {
    assert [] + bytes == bytes && [] + bytes[BLOCK..] == bytes[BLOCK..];
  }

  lemma FullAccumulator(h: Lanes, block: seq<Byte>, left: seq<Byte>)
    requires |block| == BLOCK
    ensures Updated(HashState(h, []), block + left) == Updated(HashState(HashStep(h, block), []), left)
    ensures Updated(HashState(h, block), left) == Updated(HashState(h, []), block + left)
  {
    BlockAbsorbed(HashState(h, []), block + left);
    assert (block + left)[..BLOCK] == block && (block + left)[BLOCK..] == left;
    assert [] + (block + left) == block + left;
  }

  lemma NothingLeft(s: HashState, bytes: seq<Byte>)
    requires |s.rest| < BLOCK && bytes == []
    ensures Updated(s, bytes) == s
  {
  }

  /**
   * One word of the tail as the fall-through switch builds it: from the last byte present down to
   * the first, each shifted into place and xor-ed in.
   */
  function TailWord(tail: seq<Byte>, n: nat, i: nat): Word
    requires n < BLOCK <= |tail| && i + 4 <= BLOCK
  {
    var k3 := if n >= i + 4 then XorWord(0, 0x100_0000 * (tail[i + 3] as int)) else 0;
    var k2 := if n >= i + 3 then XorWord(k3, 0x1_0000 * (tail[i + 2] as int)) else k3;
    var k1 := if n >= i + 2 then XorWord(k2, 0x100 * (tail[i + 1] as int)) else k2;
    if n >= i + 1 then XorWord(k1, tail[i]) else k1
  }

  lemma PaddedWords(tail: seq<Byte>, n: nat)
    requires n < BLOCK == |tail|
    ensures BlockWords(Padded(tail[..n])) ==
            Lanes(TailWord(tail, n, 0), TailWord(tail, n, 4), TailWord(tail, n, 8), TailWord(tail, n, 12))
    ensures n < 13 ==> TailWord(tail, n, 12) == 0
    ensures n < 9 ==> TailWord(tail, n, 8) == 0
    ensures n < 5 ==> TailWord(tail, n, 4) == 0
    ensures n < 1 ==> TailWord(tail, n, 0) == 0
  {
    PaddedWord(tail, n, 0);
    PaddedWord(tail, n, 4);
    PaddedWord(tail, n, 8);
    PaddedWord(tail, n, 12);
  }

  lemma PaddedWord(tail: seq<Byte>, n: nat, i: nat)
    requires n < BLOCK == |tail| && i + 4 <= BLOCK
    ensures LittleEndian(Padded(tail[..n]), i) == TailWord(tail, n, i)
  {
    var b := Padded(tail[..n]);
    assert forall j :: 0 <= j < BLOCK ==> b[j] == if j < n then tail[j] else 0;
    XoredBytesAddUp(b[i], b[i + 1], b[i + 2], b[i + 3]);
    XoredBytesAddUp(b[i], b[i + 1], b[i + 2], 0);
    XoredBytesAddUp(b[i], b[i + 1], 0, 0);
    XoredBytesAddUp(b[i], 0, 0, 0);
    XorZero(0x100_0000 * (b[i + 3] as int));
    XorZero(0x1_0000 * (b[i + 2] as int));
    XorZero(0x100 * (b[i + 1] as int));
    XorZero(b[i]);
  }

  lemma XoredBytesAddUp(a: Byte, b: Byte, c: Byte, d: Byte)
    ensures Xor(Xor(Xor(0x100_0000 * (d as int), 0x1_0000 * (c as int)), 0x100 * (b as int)), a)
            == a as int + 0x100 * (b as int) + 0x1_0000 * (c as int) + 0x100_0000 * (d as int)
  {
    hide Xor;
    Pow2Values();
    hide Pow2;
    XorDisjoint(d, 0x1_0000 * (c as int), 24);
    XorDisjoint(0x100 * (d as int) + c as int, 0x100 * (b as int), 16);
    XorDisjoint(0x1_0000 * (d as int) + 0x100 * (c as int) + b as int, a, 8);
  }

  lemma ZeroMixes()
    ensures MixWord(0, C1, 15, C2) == MixWord(0, C2, 16, C3) == MixWord(0, C3, 17, C4) == MixWord(0, C4, 18, C1) == 0
  {
    hide MixWord;
    ZeroMixesTo(C1, 15, C2);
    ZeroMixesTo(C2, 16, C3);
    ZeroMixesTo(C3, 17, C4);
    ZeroMixesTo(C4, 18, C1);
  }

  lemma ZeroMixesTo(c: Word, r: nat, d: Word)
    requires 0 < r < 32
    ensures MixWord(0, c, r, d) == 0
  {
    assert 0 * c == 0 && 0 * Pow2(r) == 0 && 0 * d == 0;
    assert ShiftRight(0, 32 - r) == 0 by { ShiftOfZero(32 - r); }
    hide Pow2, ShiftRight;
  }
}
