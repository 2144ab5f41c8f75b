/** The streaming 128-bit hash that detects configuration changes. */
module Murmur3 {
  import opened Words

  const C1: Word := 0x239b961b
  const C2: Word := 0xab0e9789
  const C3: Word := 0x38b34ae5
  const C4: Word := 0xa1e38b93

  // Inverses modulo 2^32 of the odd constants, for the proofs.
  const C1_INVERSE: Word := 0x89c95413
  const C2_INVERSE: Word := 0xdf130eb9
  const C3_INVERSE: Word := 0x747862ed
  const C4_INVERSE: Word := 0x58d64a9b
  const FIVE_INVERSE: Word := 0xcccccccd
  const F1_INVERSE: Word := 0xa5cb9243
  const F2_INVERSE: Word := 0x7ed1b41d

  /** Size of `hash.accum` and of one block. */
  const BLOCK: nat := 16

  /** The four lanes `hash.h[0..3]`, or four words that go into them. */
  datatype Lanes = Lanes(h0: Word, h1: Word, h2: Word, h3: Word)

  /** The hash between calls: the lanes, and the bytes that do not fill a block yet. */
  datatype HashState = HashState(lanes: Lanes, rest: seq<Byte>)

  /* ---- Words of a block ---- */

  function LittleEndian(b: seq<Byte>, i: nat): Word
    requires i + 4 <= |b|
  {
    b[i] as int + 0x100 * (b[i + 1] as int) + 0x1_0000 * (b[i + 2] as int) + 0x100_0000 * (b[i + 3] as int)
  }

  function BlockWords(b: seq<Byte>): Lanes
    requires |b| == BLOCK
  {
    Lanes(LittleEndian(b, 0), LittleEndian(b, 4), LittleEndian(b, 8), LittleEndian(b, 12))
  }

  lemma BlockWordsInjective(a: seq<Byte>, b: seq<Byte>)
    requires |a| == |b| == BLOCK && BlockWords(a) == BlockWords(b)
    ensures a == b
  {
    BytesOfWord(a, b, 0);
    BytesOfWord(a, b, 4);
    BytesOfWord(a, b, 8);
    BytesOfWord(a, b, 12);
  }

  lemma BytesOfWord(a: seq<Byte>, b: seq<Byte>, i: nat)
    requires i + 4 <= |a| == |b| && LittleEndian(a, i) == LittleEndian(b, i)
    ensures a[i] == b[i] && a[i + 1] == b[i + 1] && a[i + 2] == b[i + 2] && a[i + 3] == b[i + 3]
  {
    var x2, y2 := a[i + 2] as int + 0x100 * (a[i + 3] as int), b[i + 2] as int + 0x100 * (b[i + 3] as int);
    LowByte(a[i], b[i], a[i + 1] as int + 0x100 * x2, b[i + 1] as int + 0x100 * y2);
    LowByte(a[i + 1], b[i + 1], x2, y2);
    LowByte(a[i + 2], b[i + 2], a[i + 3], b[i + 3]);
  }

  lemma LowByte(a: Byte, b: Byte, x: int, y: int)
    requires a as int + 0x100 * x == b as int + 0x100 * y
    ensures a == b && x == y
  {
  }

  /* ---- Mixing one word: two multiplications around a rotation ---- */

  function MixWord(k: Word, c: Word, r: nat, d: Word): Word
    requires 0 < r < 32
  {
    Mul(Rotl32(Mul(k, c), r), d)
  }

  /** The multiplications and the rotation taken back. */
  function Unmix(o: Word, d': Word, r': nat, c': Word): Word
    requires 0 < r' < 32
  {
    Mul(Rotl32(Mul(o, d'), r'), c')
  }

  lemma UnmixMix(k: Word, c: Word, c': Word, r: nat, d: Word, d': Word)
    requires 0 < r < 32 && Mul(c, c') == 1 && Mul(d, d') == 1
    ensures Unmix(MixWord(k, c, r, d), d', 32 - r, c') == k
  {
    hide Mul, Rotl32;
    MulInverse(Rotl32(Mul(k, c), r), d, d');
    RotateBack(Mul(k, c), r);
    MulInverse(k, c, c');
  }

  function MixWords(k: Lanes): Lanes
  {
    Lanes(MixWord(k.h0, C1, 15, C2), MixWord(k.h1, C2, 16, C3), MixWord(k.h2, C3, 17, C4), MixWord(k.h3, C4, 18, C1))
  }

  lemma Inverses()
    ensures Mul(C1, C1_INVERSE) == Mul(C2, C2_INVERSE) == Mul(C3, C3_INVERSE) == Mul(C4, C4_INVERSE) == 1
    ensures Mul(5, FIVE_INVERSE) == Mul(0x85ebca6b, F1_INVERSE) == Mul(0xc2b2ae35, F2_INVERSE) == 1
  {
    ModIs(C1 * C1_INVERSE, 0x132a442f, 1);
    ModIs(C2 * C2_INVERSE, 0x950e71ec, 1);
    ModIs(C3 * C3_INVERSE, 0x19cbe7e4, 1);
    ModIs(C4 * C4_INVERSE, 0x382dbb5f, 1);
    ModIs(5 * FIVE_INVERSE, 0x4, 1);
    ModIs(0x85ebca6b * F1_INVERSE, 0x56bb77f4, 1);
    ModIs(0xc2b2ae35 * F2_INVERSE, 0x60736e9a, 1);
  }

  function UnmixWords(o: Lanes): Lanes
  {
    Lanes(Unmix(o.h0, C2_INVERSE, 17, C1_INVERSE), Unmix(o.h1, C3_INVERSE, 16, C2_INVERSE),
          Unmix(o.h2, C4_INVERSE, 15, C3_INVERSE), Unmix(o.h3, C1_INVERSE, 14, C4_INVERSE))
  }

  /** Mixing the words of a block is a bijection, word by word. */
  lemma UnmixMixWords(k: Lanes)
    ensures UnmixWords(MixWords(k)) == k
  {
    hide Mul, MixWord, Unmix;
    Inverses();
    UnmixMix(k.h0, C1, C1_INVERSE, 15, C2, C2_INVERSE);
    UnmixMix(k.h1, C2, C2_INVERSE, 16, C3, C3_INVERSE);
    UnmixMix(k.h2, C3, C3_INVERSE, 17, C4, C4_INVERSE);
    UnmixMix(k.h3, C4, C4_INVERSE, 18, C1, C1_INVERSE);
  }

  lemma MixWordsInjective(k: Lanes, k': Lanes)
    requires MixWords(k) == MixWords(k')
    ensures k == k'
  {
    UnmixMixWords(k);
    UnmixMixWords(k');
    hide *;
  }

  /* ---- One block ---- */

  /** One lane: `x` is the lane with its word xor-ed in, `next` the lane that is added to it. */
  function Lane(x: Word, next: Word, r: nat, c: Word): Word
    requires 0 < r < 32
  {
    Add(Mul(Add(Rotl32(x, r), next), 5), c)
  }

  function Unlane(y: Word, next: Word, r: nat, c: Word): Word
    requires 0 < r < 32
  {
    Rotl32(Sub(Mul(Sub(y, c), FIVE_INVERSE), next), 32 - r)
  }

  lemma UnlaneLane(x: Word, next: Word, r: nat, c: Word)
    requires 0 < r < 32
    ensures Unlane(Lane(x, next, r, c), next, r, c) == x
  {
    Inverses();
    hide Mul, Rotl32, Add, Sub;
    var turned := Rotl32(x, r);
    var sum := Add(turned, next);
    SubAdd(Mul(sum, 5), c);
    MulInverse(sum, 5, FIVE_INVERSE);
    SubAdd(turned, next);
    RotateBack(x, r);
  }

  /** A block, as its four mixed words, goes into the lanes; lane 3 adds the new lane 0. */
  function Step(h: Lanes, k: Lanes): Lanes
  {
    var h0 := Lane(XorWord(h.h0, k.h0), h.h1, 19, 0x561ccd1b);
    var h1 := Lane(XorWord(h.h1, k.h1), h.h2, 17, 0x0bcaa747);
    var h2 := Lane(XorWord(h.h2, k.h2), h.h3, 15, 0x96cd1c35);
    var h3 := Lane(XorWord(h.h3, k.h3), h0, 13, 0x32ac3b17);
    Lanes(h0, h1, h2, h3)
  }

  function Unstep(o: Lanes, k: Lanes): Lanes
  {
    var h3 := XorWord(Unlane(o.h3, o.h0, 13, 0x32ac3b17), k.h3);
    var h2 := XorWord(Unlane(o.h2, h3, 15, 0x96cd1c35), k.h2);
    var h1 := XorWord(Unlane(o.h1, h2, 17, 0x0bcaa747), k.h1);
    var h0 := XorWord(Unlane(o.h0, h1, 19, 0x561ccd1b), k.h0);
    Lanes(h0, h1, h2, h3)
  }

  /** For a fixed block the step can be run backwards: it is a bijection of the lanes. */
  lemma UnstepStep(h: Lanes, k: Lanes)
    ensures Unstep(Step(h, k), k) == h
  {
    hide Lane, Unlane, Xor;
    var o := Step(h, k);
    UnlaneLane(XorWord(h.h3, k.h3), o.h0, 13, 0x32ac3b17);
    XorCancels(h.h3, k.h3);
    UnlaneLane(XorWord(h.h2, k.h2), h.h3, 15, 0x96cd1c35);
    XorCancels(h.h2, k.h2);
    UnlaneLane(XorWord(h.h1, k.h1), h.h2, 17, 0x0bcaa747);
    XorCancels(h.h1, k.h1);
    UnlaneLane(XorWord(h.h0, k.h0), h.h1, 19, 0x561ccd1b);
    XorCancels(h.h0, k.h0);
  }

  /** For fixed lanes the step tells any two blocks apart. */
  lemma StepSeparatesBlocks(h: Lanes, k: Lanes, k': Lanes)
    requires Step(h, k) == Step(h, k')
    ensures k == k'
  {
    hide Lane, Unlane, Xor;
    var o := Step(h, k);
    UnlaneLane(XorWord(h.h0, k.h0), h.h1, 19, 0x561ccd1b);
    UnlaneLane(XorWord(h.h0, k'.h0), h.h1, 19, 0x561ccd1b);
    UnlaneLane(XorWord(h.h1, k.h1), h.h2, 17, 0x0bcaa747);
    UnlaneLane(XorWord(h.h1, k'.h1), h.h2, 17, 0x0bcaa747);
    UnlaneLane(XorWord(h.h2, k.h2), h.h3, 15, 0x96cd1c35);
    UnlaneLane(XorWord(h.h2, k'.h2), h.h3, 15, 0x96cd1c35);
    UnlaneLane(XorWord(h.h3, k.h3), o.h0, 13, 0x32ac3b17);
    UnlaneLane(XorWord(h.h3, k'.h3), o.h0, 13, 0x32ac3b17);
    SameXor(h, k, k');
  }

  lemma SameXor(h: Lanes, k: Lanes, k': Lanes)
    requires XorLanes(h, k) == XorLanes(h, k')
    ensures k == k'
  {
    hide Xor;
    XorCancels(h.h0, k.h0);
    XorCancels(h.h0, k'.h0);
    XorCancels(h.h1, k.h1);
    XorCancels(h.h1, k'.h1);
    XorCancels(h.h2, k.h2);
    XorCancels(h.h2, k'.h2);
    XorCancels(h.h3, k.h3);
    XorCancels(h.h3, k'.h3);
  }

  function XorLanes(h: Lanes, k: Lanes): Lanes
  {
    Lanes(XorWord(h.h0, k.h0), XorWord(h.h1, k.h1), XorWord(h.h2, k.h2), XorWord(h.h3, k.h3))
  }

  function HashStep(h: Lanes, block: seq<Byte>): Lanes
    requires |block| == BLOCK
  {
    Step(h, MixWords(BlockWords(block)))
  }

  /* ---- A whole message ---- */

  /** The lanes after every full block of `m`. */
  function Absorb(h: Lanes, m: seq<Byte>): Lanes
    decreases |m|
  {
    if |m| < BLOCK then h else Absorb(HashStep(h, m[..BLOCK]), m[BLOCK..])
  }

  /** The bytes after the last full block. */
  function Rest(m: seq<Byte>): (r: seq<Byte>)
    ensures |r| < BLOCK && |r| == |m| % BLOCK
    decreases |m|
  {
    if |m| < BLOCK then m else Rest(m[BLOCK..])
  }

  lemma {:induction false} AbsorbConcat(h: Lanes, a: seq<Byte>, b: seq<Byte>)
    ensures Absorb(h, a + b) == Absorb(Absorb(h, a), Rest(a) + b)
    ensures Rest(a + b) == Rest(Rest(a) + b)
    decreases |a|
  {
    if |a| >= BLOCK {
      assert (a + b)[..BLOCK] == a[..BLOCK] && (a + b)[BLOCK..] == a[BLOCK..] + b;
      AbsorbConcat(HashStep(h, a[..BLOCK]), a[BLOCK..], b);
    }
  }

  /** What one update call does, whatever the sizes of the chunk and of the bytes held back. */
  function Updated(s: HashState, data: seq<Byte>): HashState
  {
    HashState(Absorb(s.lanes, s.rest + data), Rest(s.rest + data))
  }

  lemma UpdatedConcat(s: HashState, a: seq<Byte>, b: seq<Byte>)
    ensures Updated(Updated(s, a), b) == Updated(s, a + b)
  {
    AbsorbConcat(s.lanes, s.rest + a, b);
    assert s.rest + a + b == s.rest + (a + b);
  }

  function Started(seed: Word): HashState
  {
    HashState(Lanes(seed, seed, seed, seed), [])
  }

  /** A run of update calls, in order. */
  function UpdatedAll(s: HashState, chunks: seq<seq<Byte>>): HashState
    decreases |chunks|
  {
    if chunks == [] then s else UpdatedAll(Updated(s, chunks[0]), chunks[1..])
  }

  function Flatten(chunks: seq<seq<Byte>>): seq<Byte>
  {
    if chunks == [] then [] else chunks[0] + Flatten(chunks[1..])
  }

  lemma {:induction false} UpdatedAllIsUpdatedOnce(s: HashState, chunks: seq<seq<Byte>>)
    requires |s.rest| < BLOCK
    ensures UpdatedAll(s, chunks) == Updated(s, Flatten(chunks))
    decreases |chunks|
  {
    if chunks == [] {
      assert s.rest + [] == s.rest;
    } else {
      UpdatedAllIsUpdatedOnce(Updated(s, chunks[0]), chunks[1..]);
      UpdatedConcat(s, chunks[0], Flatten(chunks[1..]));
    }
  }

  /* ---- Finalization ---- */

  function Zeros(n: nat): seq<Byte>
  {
    seq(n, _ => 0)
  }

  /** The bytes held back, filled up with zeros to a block. */
  function Padded(rest: seq<Byte>): (b: seq<Byte>)
    requires |rest| < BLOCK
    ensures |b| == BLOCK
  {
    rest + Zeros(BLOCK - |rest|)
  }

  function Fmix32(h: Word): Word
  {
    FoldRight(Mul(FoldRight(Mul(FoldRight(h, 16), 0x85ebca6b), 13), 0xc2b2ae35), 16)
  }

  lemma Fmix32Injective(h: Word, h': Word)
    requires Fmix32(h) == Fmix32(h')
    ensures h == h'
  {
    Inverses();
    hide FoldRight, Mul;
    Unfmix(h);
    Unfmix(h');
  }

  function Unfmix32(h: Word): Word
  {
    FoldRight(Mul(FoldRight(FoldRight(Mul(FoldRight(h, 16), F2_INVERSE), 13), 26), F1_INVERSE), 16)
  }

  lemma Unfmix(h: Word)
    ensures Unfmix32(Fmix32(h)) == h
  {
    Inverses();
    hide FoldRight, Mul;
    var a := FoldRight(h, 16);
    var b := Mul(a, 0x85ebca6b);
    var c := FoldRight(b, 13);
    Unfold(Mul(c, 0xc2b2ae35));
    MulInverse(c, 0xc2b2ae35, F2_INVERSE);
    Unfold(b);
    MulInverse(a, 0x85ebca6b, F1_INVERSE);
    Unfold(h);
  }

  /** Lane 0 becomes the sum of all four, and is then added to the others. */
  function Spread(h: Lanes): Lanes
  {
    var h0 := Add(Add(Add(h.h0, h.h1), h.h2), h.h3);
    Lanes(h0, Add(h.h1, h0), Add(h.h2, h0), Add(h.h3, h0))
  }

  /** The sums taken back. */
  function Unspread(o: Lanes): Lanes
  {
    var h1, h2, h3 := Sub(o.h1, o.h0), Sub(o.h2, o.h0), Sub(o.h3, o.h0);
    Lanes(Sub(Sub(Sub(o.h0, h3), h2), h1), h1, h2, h3)
  }

  lemma UnspreadSpread(h: Lanes)
    ensures Unspread(Spread(h)) == h
  {
    hide Add, Sub;
    var sum := Spread(h).h0;
    SubAdd(h.h1, sum);
    SubAdd(h.h2, sum);
    SubAdd(h.h3, sum);
    SubAdd(Add(Add(h.h0, h.h1), h.h2), h.h3);
    SubAdd(Add(h.h0, h.h1), h.h2);
    SubAdd(h.h0, h.h1);
  }

  function FmixLanes(h: Lanes): Lanes
  {
    Lanes(Fmix32(h.h0), Fmix32(h.h1), Fmix32(h.h2), Fmix32(h.h3))
  }

  function WithLength(h: Lanes, n: Word): Lanes
  {
    XorLanes(h, Lanes(n, n, n, n))
  }

  /** Everything after the tail has been mixed in. */
  function Scramble(h: Lanes, n: Word): Lanes
  {
    Spread(FmixLanes(Spread(WithLength(h, n))))
  }

  /** The final mixing run backwards, down to the lanes with the length mixed into each of them. */
  function Unscramble(o: Lanes): Lanes
  {
    var f := Unspread(o);
    Unspread(Lanes(Unfmix32(f.h0), Unfmix32(f.h1), Unfmix32(f.h2), Unfmix32(f.h3)))
  }

  /** Finalization is a bijection of the lanes, with an inverse that takes the length out of all four. */
  lemma UnscrambleScramble(h: Lanes, n: Word)
    ensures Unscramble(Scramble(h, n)) == Lanes(XorWord(h.h0, n), XorWord(h.h1, n), XorWord(h.h2, n), XorWord(h.h3, n))
    ensures XorLanes(Unscramble(Scramble(h, n)), Lanes(n, n, n, n)) == h
  {
    hide Spread, Unspread, Fmix32, Unfmix32, Xor;
    var mixed := Spread(WithLength(h, n));
    UnspreadSpread(FmixLanes(mixed));
    Unfmix(mixed.h0);
    Unfmix(mixed.h1);
    Unfmix(mixed.h2);
    Unfmix(mixed.h3);
    UnspreadSpread(WithLength(h, n));
    XorCancels(h.h0, n);
    XorCancels(h.h1, n);
    XorCancels(h.h2, n);
    XorCancels(h.h3, n);
  }

  lemma ScrambleInjective(h: Lanes, h': Lanes, n: Word)
    requires Scramble(h, n) == Scramble(h', n)
    ensures h == h'
  {
    UnscrambleScramble(h, n);
    UnscrambleScramble(h', n);
    hide *;
  }

  /** Lanes that differ in nothing but the length that is mixed in stay different. */
  lemma ScrambleTellsLength(h: Lanes, n: Word, n': Word)
    requires Scramble(h, n) == Scramble(h, n')
    ensures n == n'
  {
    UnscrambleScramble(h, n);
    UnscrambleScramble(h, n');
    hide Scramble, Unscramble, Xor;
    XorCancels(h.h0, n);
    XorCancels(h.h0, n');
  }

  function Finished(s: HashState): Lanes
    requires |s.rest| < BLOCK
  {
    Scramble(XorLanes(s.lanes, MixWords(BlockWords(Padded(s.rest)))), |s.rest|)
  }

  /** For a fixed tail, finalization is injective in the lanes; for fixed lanes, in the tail of a given length. */
  lemma FinishedInjective(s: HashState, t: HashState)
    requires |s.rest| == |t.rest| < BLOCK && Finished(s) == Finished(t)
    requires s.lanes == t.lanes || s.rest == t.rest
    ensures s == t
  {
    hide Scramble, MixWords, BlockWords, Xor;
    var k, k' := MixWords(BlockWords(Padded(s.rest))), MixWords(BlockWords(Padded(t.rest)));
    ScrambleInjective(XorLanes(s.lanes, k), XorLanes(t.lanes, k'), |s.rest|);
    if s.lanes == t.lanes {
      SameXor(s.lanes, k, k');
      MixWordsInjective(BlockWords(Padded(s.rest)), BlockWords(Padded(t.rest)));
      BlockWordsInjective(Padded(s.rest), Padded(t.rest));
      assert s.rest == Padded(s.rest)[..|s.rest|] == t.rest;
    } else {
      XorLanesSymmetric(s.lanes, k);
      XorLanesSymmetric(t.lanes, k);
      SameXor(k, s.lanes, t.lanes);
    }
  }

  lemma XorLanesSymmetric(h: Lanes, k: Lanes)
    ensures XorLanes(h, k) == XorLanes(k, h)
  {
    hide Xor;
    XorSymmetric(h.h0, k.h0);
    XorSymmetric(h.h1, k.h1);
    XorSymmetric(h.h2, k.h2);
    XorSymmetric(h.h3, k.h3);
  }

  /** The hash of a whole message. */
  function Hash(seed: Word, m: seq<Byte>): Lanes
  {
    Finished(Updated(Started(seed), m))
  }

  /** However a message is cut into update calls, the result is the hash of the whole. */
  lemma ChunksDoNotMatter(seed: Word, chunks: seq<seq<Byte>>)
    ensures var s := UpdatedAll(Started(seed), chunks);
            |s.rest| < BLOCK && Finished(s) == Hash(seed, Flatten(chunks))
  {
    UpdatedAllIsUpdatedOnce(Started(seed), chunks);
  }

  /** Equal messages keep different lanes apart all the way. */
  lemma {:induction false} AbsorbInjective(h: Lanes, h': Lanes, m: seq<Byte>)
    requires Absorb(h, m) == Absorb(h', m)
    ensures h == h'
    decreases |m|
  {
    if |m| >= BLOCK {
      var k := MixWords(BlockWords(m[..BLOCK]));
      AbsorbInjective(Step(h, k), Step(h', k), m[BLOCK..]);
      UnstepStep(h, k);
      UnstepStep(h', k);
    }
  }

  /** Two messages that differ in one aligned block only never collide. */
  lemma OneBlockNeverCollides(seed: Word, before: seq<Byte>, block: seq<Byte>, block': seq<Byte>, after: seq<Byte>)
    requires |before| % BLOCK == 0 && |block| == |block'| == BLOCK && block != block'
    ensures Hash(seed, before + block + after) != Hash(seed, before + block' + after)
  {
    var h := Absorb(Started(seed).lanes, before);
    AbsorbBlock(seed, before, block, after);
    AbsorbBlock(seed, before, block', after);
    if Hash(seed, before + block + after) == Hash(seed, before + block' + after) {
      FinishedInjective(Updated(Started(seed), before + block + after), Updated(Started(seed), before + block' + after));
      AbsorbInjective(HashStep(h, block), HashStep(h, block'), after);
      StepSeparatesBlocks(h, MixWords(BlockWords(block)), MixWords(BlockWords(block')));
      MixWordsInjective(BlockWords(block), BlockWords(block'));
      BlockWordsInjective(block, block');
    }
  }

  lemma AbsorbBlock(seed: Word, before: seq<Byte>, block: seq<Byte>, after: seq<Byte>)
    requires |before| % BLOCK == 0 && |block| == BLOCK
    ensures var h := Absorb(Started(seed).lanes, before);
            Updated(Started(seed), before + block + after) == HashState(Absorb(HashStep(h, block), after), Rest(after))
  {
    var s, m := Started(seed), before + block + after;
    assert s.rest == [] && [] + m == m;
    hide Absorb, Rest, HashStep, Started;
    AbsorbsBlock(s.lanes, before, block, after);
  }

  lemma AbsorbsBlock(h: Lanes, before: seq<Byte>, block: seq<Byte>, after: seq<Byte>)
    requires |before| % BLOCK == 0 && |block| == BLOCK
    ensures var m := before + block + after;
            Absorb(h, m) == Absorb(HashStep(Absorb(h, before), block), after) && Rest(m) == Rest(after)
  {
    hide Absorb, Rest, HashStep;
    var rest := block + after;
    assert before + block + after == before + rest;
    assert Rest(before) + rest == rest;
    AbsorbConcat(h, before, rest);
    OneBlock(Absorb(h, before), block, after);
  }

  lemma OneBlock(h: Lanes, block: seq<Byte>, after: seq<Byte>)
    requires |block| == BLOCK
    ensures Absorb(h, block + after) == Absorb(HashStep(h, block), after) && Rest(block + after) == Rest(after)
  {
    assert (block + after)[..BLOCK] == block && (block + after)[BLOCK..] == after;
  }

  /** Messages that differ only in how many zero bytes end their last, unfinished block never collide either. */
  lemma ZerosNeverCollide(seed: Word, before: seq<Byte>, tail: seq<Byte>, k: nat)
    requires |before| % BLOCK == 0 && |tail| + k < BLOCK && k > 0
    ensures Hash(seed, before + tail) != Hash(seed, before + (tail + Zeros(k)))
  {
    hide Scramble, Absorb, MixWords, BlockWords, Updated, Started, Padded, XorLanes, Zeros;
    PaddedZeros(tail, k);
    AbsorbTail(seed, before, tail);
    AbsorbTail(seed, before, tail + Zeros(k));
    if Hash(seed, before + tail) == Hash(seed, before + (tail + Zeros(k))) {
      var h := XorLanes(Absorb(Started(seed).lanes, before), MixWords(BlockWords(Padded(tail))));
      ScrambleTellsLength(h, |tail|, |tail| + k);
    }
  }

  lemma PaddedZeros(tail: seq<Byte>, k: nat)
    requires |tail| + k < BLOCK
    ensures |tail + Zeros(k)| == |tail| + k && Padded(tail + Zeros(k)) == Padded(tail)
  {
  }

  /** Two messages that differ in a tail shorter than a block, of equal length, never collide. */
  lemma TailNeverCollides(seed: Word, before: seq<Byte>, tail: seq<Byte>, tail': seq<Byte>)
    requires |before| % BLOCK == 0 && |tail| == |tail'| < BLOCK && tail != tail'
    ensures Hash(seed, before + tail) != Hash(seed, before + tail')
  {
    AbsorbTail(seed, before, tail);
    AbsorbTail(seed, before, tail');
    if Hash(seed, before + tail) == Hash(seed, before + tail') {
      FinishedInjective(Updated(Started(seed), before + tail), Updated(Started(seed), before + tail'));
    }
  }

  lemma AbsorbTail(seed: Word, before: seq<Byte>, tail: seq<Byte>)
    requires |before| % BLOCK == 0 && |tail| < BLOCK
    ensures Updated(Started(seed), before + tail) == HashState(Absorb(Started(seed).lanes, before), tail)
  {
    var s, m := Started(seed), before + tail;
    assert s.rest == [] && [] + m == m;
    hide Absorb, Rest, HashStep, Started;
    AbsorbsTail(s.lanes, before, tail);
  }

  lemma AbsorbsTail(h: Lanes, before: seq<Byte>, tail: seq<Byte>)
    requires |before| % BLOCK == 0 && |tail| < BLOCK
    ensures Absorb(h, before + tail) == Absorb(h, before) && Rest(before + tail) == tail
  {
    assert Absorb(Absorb(h, before), tail) == Absorb(h, before) && Rest(tail) == tail;
    hide Absorb, Rest;
    assert Rest(before) + tail == tail;
    AbsorbConcat(h, before, tail);
  }

  /** One message under two seeds never collides either. */
  lemma SeedsNeverCollide(seed: Word, seed': Word, m: seq<Byte>)
    requires seed != seed'
    ensures Hash(seed, m) != Hash(seed', m)
  {
    if Hash(seed, m) == Hash(seed', m) {
      assert [] + m == m;
      FinishedInjective(Updated(Started(seed), m), Updated(Started(seed'), m));
      AbsorbInjective(Started(seed).lanes, Started(seed').lanes, m);
    }
  }

  /** Two messages that differ in one byte never have the same hash. */
  lemma OneByteNeverCollides(seed: Word, m: seq<Byte>, i: nat, b: Byte)
    requires i < |m| && b != m[i]
    ensures Hash(seed, m[i := b]) != Hash(seed, m)
  {
    hide Hash;
    var m', k := m[i := b], i - i % BLOCK;
    assert k % BLOCK == 0 by { StartOfBlock(i); }
    assert m'[..k] == m[..k] && m == m[..k] + m[k..] && m' == m[..k] + m'[k..];
    assert m[k..][i - k] == m[i] && m'[k..][i - k] == b;
    if k + BLOCK <= |m| {
      assert m == m[..k] + m[k..k + BLOCK] + m[k + BLOCK..];
      assert m' == m[..k] + m'[k..k + BLOCK] + m[k + BLOCK..];
      assert m[k..k + BLOCK][i - k] == m[i] && m'[k..k + BLOCK][i - k] == b;
      OneBlockNeverCollides(seed, m[..k], m[k..k + BLOCK], m'[k..k + BLOCK], m[k + BLOCK..]);
    } else {
      TailNeverCollides(seed, m[..k], m[k..], m'[k..]);
    }
  }

  lemma StartOfBlock(i: nat)
    ensures (i - i % BLOCK) % BLOCK == 0
  {
    assert i - i % BLOCK == BLOCK * (i / BLOCK);
  }
}
