/** 64-bit words as integers: shifts, exclusive or, and wrapping arithmetic. */
module Words {
  import opened Bytes

  function Shr(n: nat, k: nat): nat {
    if k == 0 then n else Shr(n / 2, k - 1)
  }

  function XorBit(p: nat, q: nat): (r: nat)
    ensures r < 2
  {
    (p + q) % 2
  }

  function Xor(a: nat, b: nat): nat
    decreases a + b
  {
    if a == 0 && b == 0 then 0 else XorBit(a % 2, b % 2) + 2 * Xor(a / 2, b / 2)
  }

  function Pow2(k: nat): nat {
    if k == 0 then 1 else 2 * Pow2(k - 1)
  }

  lemma {:induction false} XorZero(a: nat)
    ensures Xor(a, 0) == a
  {
    if a > 0 { XorZero(a / 2); }
  }

  lemma {:induction false} XorSelf(a: nat)
    ensures Xor(a, a) == 0
  {
    if a > 0 { XorSelf(a / 2); }
  }

  lemma {:induction false} XorCommutative(a: nat, b: nat)
    ensures Xor(a, b) == Xor(b, a)
    decreases a + b
  {
    if a + b > 0 { XorCommutative(a / 2, b / 2); }
  }

  lemma XorHalves(a: nat, b: nat)
    ensures Xor(a, b) / 2 == Xor(a / 2, b / 2)
    ensures Xor(a, b) % 2 == XorBit(a % 2, b % 2)
  {
    assert Xor(a, b) == XorBit(a % 2, b % 2) + 2 * Xor(a / 2, b / 2);
  }

  lemma BitsAssociative(p: nat, q: nat, r: nat)
    ensures XorBit(XorBit(p, q), r) == XorBit(p, XorBit(q, r))
  {
  }

  lemma {:induction false} XorAssociative(a: nat, b: nat, c: nat)
    ensures Xor(Xor(a, b), c) == Xor(a, Xor(b, c))
    decreases a + b + c
  {
    if a + b + c > 0 {
      hide Xor, XorBit;
      XorAssociative(a / 2, b / 2, c / 2);
      XorHalves(a, b);
      XorHalves(b, c);
      XorHalves(Xor(a, b), c);
      XorHalves(a, Xor(b, c));
      BitsAssociative(a % 2, b % 2, c % 2);
    }
  }

  lemma {:induction false} XorBound(a: nat, b: nat, k: nat)
    requires a < Pow2(k) && b < Pow2(k)
    ensures Xor(a, b) < Pow2(k)
  {
    if k > 0 {
      XorBound(a / 2, b / 2, k - 1);
      XorHalves(a, b);
    }
  }

  lemma {:induction false} XorInverts(b: nat, k: nat)
    requires b < Pow2(k)
    ensures Xor(b, Pow2(k) - 1) == Pow2(k) - 1 - b
  {
    if k > 0 {
      hide Xor;
      var ones := Pow2(k) - 1;
      assert ones / 2 == Pow2(k - 1) - 1 && ones % 2 == 1;
      XorInverts(b / 2, k - 1);
      XorHalves(b, ones);
    } else {
      XorZero(0);
    }
  }

  lemma {:induction false} ShrOfXor(a: nat, b: nat, k: nat)
    ensures Shr(Xor(a, b), k) == Xor(Shr(a, k), Shr(b, k))
    decreases k
  {
    if k > 0 {
      XorHalves(a, b);
      ShrOfXor(a / 2, b / 2, k - 1);
    }
  }

  lemma {:induction false} ShrTwice(n: nat, j: nat, k: nat)
    ensures Shr(Shr(n, j), k) == Shr(n, j + k)
    decreases j
  {
    if j > 0 { ShrTwice(n / 2, j - 1, k); }
  }

  lemma {:induction false} ShrVanishes(n: nat, k: nat)
    requires n < Pow2(k)
    ensures Shr(n, k) == 0
    decreases k
  {
    if k > 0 { ShrVanishes(n / 2, k - 1); }
  }

  lemma {:induction false} ShrShrinks(n: nat, k: nat)
    ensures Shr(n, k) <= n
    decreases k
  {
    if k > 0 { ShrShrinks(n / 2, k - 1); }
  }

  lemma Pow2NextByte(k: nat)
    ensures Pow2(k + 8) == 256 * Pow2(k)
  {
    assert Pow2(k + 2) == 4 * Pow2(k);
    assert Pow2(k + 4) == 4 * Pow2(k + 2);
    assert Pow2(k + 6) == 4 * Pow2(k + 4);
    assert Pow2(k + 8) == 4 * Pow2(k + 6);
  }

  lemma Pow2Of64()
    ensures Pow2(64) == U64_SIZE
  {
    assert Pow2(8) == 256;
    Pow2NextByte(8);
    Pow2NextByte(16);
    Pow2NextByte(24);
    Pow2NextByte(32);
    Pow2NextByte(40);
    Pow2NextByte(48);
    Pow2NextByte(56);
  }

  /** `word ^ (word >> k)`. */
  function XorShift(w: u64, k: nat): u64 {
    Pow2Of64();
    ShrShrinks(w, k);
    XorBound(w, Shr(w, k), 64);
    Xor(w, Shr(w, k))
  }

  /** Shifting twice more undoes a xor-shift by at least a third of a word. */
  lemma XorShiftInvertible(x: u64, k: nat)
    requires 64 <= 3 * k
    ensures var y := XorShift(x, k); Xor(Xor(y, Shr(y, k)), Shr(y, 2 * k)) == x
  {
    var y, s1, s2 := XorShift(x, k), Shr(x, k), Shr(x, 2 * k);
    Pow2Of64();
    ShrTwice(x, k, k);
    ShrTwice(x, k, 2 * k);
    ShrTwice(x, 64, 3 * k - 64);
    ShrVanishes(x, 64);
    ShrOfZero(3 * k - 64);
    ShrOfXor(x, s1, k);
    ShrOfXor(x, s1, 2 * k);
    assert Shr(y, k) == Xor(s1, s2);
    XorZero(s2);
    assert Shr(y, 2 * k) == s2;
    CancelTwice(x, s1, s2);
  }

  lemma {:induction false} ShrOfZero(k: nat)
    ensures Shr(0, k) == 0
  {
    if k > 0 { ShrOfZero(k - 1); }
  }

  lemma CancelTwice(x: nat, a: nat, b: nat)
    ensures Xor(Xor(Xor(x, a), Xor(a, b)), b) == x
  {
    XorAssociative(x, a, Xor(a, b));
    XorAssociative(a, a, b);
    XorSelf(a);
    XorCommutative(0, b);
    XorZero(b);
    XorAssociative(x, b, b);
    XorSelf(b);
    XorZero(x);
  }

  lemma XorShiftInjective(x: u64, y: u64, k: nat)
    requires 64 <= 3 * k && XorShift(x, k) == XorShift(y, k)
    ensures x == y
  {
    XorShiftInvertible(x, k);
    XorShiftInvertible(y, k);
  }

  /** Every word is the xor-shift of some word. */
  lemma XorShiftOnto(y: u64, k: nat) returns (x: u64)
    requires 64 <= 3 * k
    ensures XorShift(x, k) == y
  {
    Pow2Of64();
    var s1, s2, s3 := Shr(y, k), Shr(y, 2 * k), Shr(y, 3 * k);
    ShrShrinks(y, k);
    ShrShrinks(y, 2 * k);
    XorBound(y, s1, 64);
    XorBound(Xor(y, s1), s2, 64);
    x := Xor(Xor(y, s1), s2);
    ShrTwice(y, k, k);
    ShrTwice(y, 2 * k, k);
    ShrTwice(y, 64, 3 * k - 64);
    ShrVanishes(y, 64);
    ShrOfZero(3 * k - 64);
    ShrOfXor(Xor(y, s1), s2, k);
    ShrOfXor(y, s1, k);
    XorZero(Xor(s1, s2));
    assert Shr(x, k) == Xor(s1, s2);
    XorAssociative(y, s1, s2);
    XorAssociative(y, Xor(s1, s2), Xor(s1, s2));
    XorSelf(Xor(s1, s2));
    XorZero(y);
  }

  /** `wrapping_mul` by the two multipliers of the mixer. */
  function Multiply1(w: u64): u64 {
    (w * 0xBF58_476D_1CE4_E5B9) % U64_SIZE
  }

  function Multiply2(w: u64): u64 {
    (w * 0x94D0_49BB_1331_11EB) % U64_SIZE
  }

  lemma MultiplyBack(y: u64, m: nat, inverse: nat, carry: nat)
    requires m * inverse == carry * U64_SIZE + 1
    ensures ((y * inverse) % U64_SIZE * m) % U64_SIZE == y
  {
    var q, x: nat := y * inverse / U64_SIZE, (y * inverse) % U64_SIZE;
    var k := y * carry - q * m;
    MultipliedOut(x, y, m, inverse, carry, q);
    ModuloMultiple(y, x * m, k);
  }

  lemma MultipliedOut(x: int, y: int, m: int, inverse: int, carry: int, q: int)
    requires m * inverse == carry * U64_SIZE + 1 && x == y * inverse - q * U64_SIZE
    ensures x * m == y + U64_SIZE * (y * carry - q * m)
  {
    calc {
      x * m;
      y * inverse * m - q * U64_SIZE * m;
      y * (m * inverse) - U64_SIZE * (q * m);
      y * (carry * U64_SIZE + 1) - U64_SIZE * (q * m);
      y + U64_SIZE * (y * carry) - U64_SIZE * (q * m);
    }
  }

  lemma ModuloMultiple(y: u64, n: nat, k: int)
    requires n == y + U64_SIZE * k
    ensures n % U64_SIZE == y
  {
  }

  const INVERSE1: u64 := 0x96DE_1B17_3F11_9089
  const INVERSE2: u64 := 0x3196_42B2_D24D_8EC3

  /** Both multipliers have an inverse modulo 2^64, from either side. */
  lemma Multiply1Invertible(x: u64)
    ensures (Multiply1(x) * INVERSE1) % U64_SIZE == x
    ensures Multiply1((x * INVERSE1) % U64_SIZE) == x
  {
    var carry := 0xBF58_476D_1CE4_E5B9 * INVERSE1 / U64_SIZE;
    MultiplyBack(x, INVERSE1, 0xBF58_476D_1CE4_E5B9, carry);
    MultiplyBack(x, 0xBF58_476D_1CE4_E5B9, INVERSE1, carry);
  }

  lemma Multiply2Invertible(x: u64)
    ensures (Multiply2(x) * INVERSE2) % U64_SIZE == x
    ensures Multiply2((x * INVERSE2) % U64_SIZE) == x
  {
    var carry := 0x94D0_49BB_1331_11EB * INVERSE2 / U64_SIZE;
    MultiplyBack(x, INVERSE2, 0x94D0_49BB_1331_11EB, carry);
    MultiplyBack(x, 0x94D0_49BB_1331_11EB, INVERSE2, carry);
  }
}

/** The synthetic deduplication corpus (benches/dedup.rs). */
module Corpus {
  import opened Bytes
  import opened Words

  type File = seq<byte>

  const FILE_COUNT := 1000
  const EXACT_DUPES := 300
  const NEAR_DUPES := 200
  const BASE_COUNT := FILE_COUNT - EXACT_DUPES
  const UNIQUES := BASE_COUNT - NEAR_DUPES

  const GAMMA: u64 := 0x9E37_79B9_7F4A_7C15

  /* The generator */

  /** The splitmix64 mixer. */
  function Mix(state: u64): u64 {
    XorShift(Multiply2(XorShift(Multiply1(XorShift(state, 30)), 27)), 31)
  }

  lemma MixInjective(x: u64, y: u64)
    requires Mix(x) == Mix(y)
    ensures x == y
  {
    hide XorShift, Multiply1, Multiply2;
    var x1, y1 := XorShift(x, 30), XorShift(y, 30);
    var x2, y2 := XorShift(Multiply1(x1), 27), XorShift(Multiply1(y1), 27);
    XorShiftInjective(Multiply2(x2), Multiply2(y2), 31);
    Multiply2Invertible(x2);
    Multiply2Invertible(y2);
    XorShiftInjective(Multiply1(x1), Multiply1(y1), 27);
    Multiply1Invertible(x1);
    Multiply1Invertible(y1);
    XorShiftInjective(x, y, 30);
  }

  /** The mixer is bijective: injective as above, and onto. */
  lemma MixOnto(y: u64) returns (x: u64)
    ensures Mix(x) == y
  {
    hide XorShift, Multiply1, Multiply2;
    var a := XorShiftOnto(y, 31);
    var b := (a * INVERSE2) % U64_SIZE;
    Multiply2Invertible(a);
    var c := XorShiftOnto(b, 27);
    var d := (c * INVERSE1) % U64_SIZE;
    Multiply1Invertible(c);
    x := XorShiftOnto(d, 30);
  }

  function Advance(state: u64): u64 {
    (state + GAMMA) % U64_SIZE
  }

  /** The state before word `k`. */
  function StateAt(seed: u64, k: nat): u64 {
    if k == 0 then seed else Advance(StateAt(seed, k - 1))
  }

  /** The word written to chunk `k`. */
  function WordAt(seed: u64, k: nat): u64 {
    Mix(StateAt(seed, k + 1))
  }

  lemma AdvanceInjective(x: u64, y: u64)
    requires Advance(x) == Advance(y)
    ensures x == y
  {
  }

  lemma AdvanceOnto(y: u64) returns (x: u64)
    ensures Advance(x) == y
  {
    x := if y >= GAMMA then y - GAMMA else y + U64_SIZE - GAMMA;
  }

  lemma {:induction false} StatesDiffer(s: u64, t: u64, k: nat)
    requires s != t
    ensures StateAt(s, k) != StateAt(t, k)
  {
    hide Advance;
    if k > 0 {
      StatesDiffer(s, t, k - 1);
      if StateAt(s, k) == StateAt(t, k) {
        AdvanceInjective(StateAt(s, k - 1), StateAt(t, k - 1));
      }
    }
  }

  /** Distinct seeds give distinct words at every place of the stream. */
  lemma WordsDiffer(s: u64, t: u64, k: nat)
    requires s != t
    ensures WordAt(s, k) != WordAt(t, k)
  {
    hide Mix;
    StatesDiffer(s, t, k + 1);
    if WordAt(s, k) == WordAt(t, k) {
      MixInjective(StateAt(s, k + 1), StateAt(t, k + 1));
    }
  }

  /** What `gen_data` fills its buffer with: the words, least significant byte
      first, the last one cut off at the end. */
  function Data(size: nat, seed: u64): (f: File)
    ensures |f| == size
    ensures forall p | 0 <= p < size :: f[p] == ToLe(WordAt(seed, p / 8), 8)[p % 8]
  {
    seq(size, p requires 0 <= p < size => ToLe(WordAt(seed, p / 8), 8)[p % 8])
  }

  lemma Shr2(n: nat)
    ensures Shr(n, 2) == n / 4
  {
    assert Shr(n, 2) == Shr(n / 2, 1) == Shr(n / 2 / 2, 0);
  }

  lemma Shr8(n: nat)
    ensures Shr(n, 8) == n / 256
  {
    Shr2(n);
    Shr2(n / 4);
    Shr2(n / 16);
    Shr2(n / 64);
    ShrTwice(n, 2, 2);
    ShrTwice(n, 4, 2);
    ShrTwice(n, 6, 2);
  }

  lemma {:induction false} LeByte(n: nat, w: nat, i: nat)
    requires i < w
    ensures ToLe(n, w)[i] == Shr(n, 8 * i) % 256
  {
    if i > 0 {
      LeByte(n / 256, w - 1, i - 1);
      Shr8(n);
      ShrTwice(n, 8, 8 * (i - 1));
    }
  }

  /** Writes `word` to chunk `k`, least significant byte first. */
  method FillChunk(buf: array<byte>, k: nat, word: u64)
    requires 8 * k < buf.Length
    modifies buf
    ensures forall p | 0 <= p < buf.Length ::
      buf[p] == if p / 8 == k then ToLe(word, 8)[p % 8] else old(buf[p])
  {
    hide Shr, ToLe;
    var end := if 8 * k + 8 <= buf.Length then 8 else buf.Length - 8 * k;
    for i := 0 to end
      invariant forall p | 0 <= p < buf.Length ::
        buf[p] == if 8 * k <= p < 8 * k + i then ToLe(word, 8)[p - 8 * k] else old(buf[p])
    {
      LeByte(word, 8, i);
      buf[8 * k + i] := Shr(word, 8 * i) % 256;
    }
  }

  /** `gen_data`: chunk by chunk with a rolling state. */
  method GenData(size: nat, seed: u64) returns (buf: array<byte>)
    ensures fresh(buf) && buf[..] == Data(size, seed)
  {
    hide Mix, ToLe;
    buf := new byte[size];
    var state := seed;
    var k := 0;
    while 8 * k < size
      invariant state == StateAt(seed, k)
      invariant forall p | 0 <= p < size && p / 8 < k :: buf[p] == ToLe(WordAt(seed, p / 8), 8)[p % 8]
      decreases size - 8 * k
    {
      state := Advance(state);
      FillChunk(buf, k, Mix(state));
      k := k + 1;
    }
  }

  lemma WordsDifferInSomeByte(m: u64, n: u64) returns (i: nat)
    requires m != n
    ensures i < 8 && ToLe(m, 8)[i] != ToLe(n, 8)[i]
  {
    Pow256Values();
    LeRoundTrip(m, 8);
    LeRoundTrip(n, 8);
    assert ToLe(m, 8) != ToLe(n, 8);
    i :| 0 <= i < 8 && ToLe(m, 8)[i] != ToLe(n, 8)[i];
  }

  /** Some byte of every full word differs between distinct seeds. */
  lemma ChunkDiffers(size: nat, s: u64, t: u64, k: nat) returns (p: nat)
    requires s != t && 8 * k + 8 <= size
    ensures 8 * k <= p < 8 * k + 8 && Data(size, s)[p] != Data(size, t)[p]
  {
    hide Mix, ToLe;
    WordsDiffer(s, t, k);
    var i := WordsDifferInSomeByte(WordAt(s, k), WordAt(t, k));
    p := 8 * k + i;
    assert p / 8 == k && p % 8 == i;
  }

  /** Some seed starts its stream with any given word. */
  lemma FirstWordOnto(w: u64) returns (seed: u64)
    ensures WordAt(seed, 0) == w
  {
    hide Mix, Advance;
    var state := MixOnto(w);
    seed := AdvanceOnto(state);
    assert StateAt(seed, 1) == Advance(StateAt(seed, 0));
  }

  const TOP_BYTE_ONE: u64 := 0x100_0000_0000_0000

  lemma LowBytesAgree(i: nat)
    requires i < 7
    ensures ToLe(0, 8)[i] == ToLe(TOP_BYTE_ONE, 8)[i]
  {
    assert ToLe(TOP_BYTE_ONE, 8)[..7] == [0, 0, 0, 0, 0, 0, 0];
    assert ToLe(0, 8)[..7] == [0, 0, 0, 0, 0, 0, 0];
  }

  /** Below one word, two seeds give the same buffer. */
  lemma ShortBuffersCollide(size: nat) returns (s: u64, t: u64)
    requires size < 8
    ensures s != t && Data(size, s) == Data(size, t)
  {
    hide WordAt, ToLe;
    s := FirstWordOnto(0);
    t := FirstWordOnto(TOP_BYTE_ONE);
    forall p | 0 <= p < size ensures Data(size, s)[p] == Data(size, t)[p] {
      LowBytesAgree(p);
      assert p / 8 == 0 && p % 8 == p;
    }
  }

  /** Distinct seeds always give distinct buffers exactly from one full word on. */
  lemma DistinctBuffersExactly(size: nat)
    ensures (forall s: u64, t: u64 | s != t :: Data(size, s) != Data(size, t)) <==> size >= 8
  {
    hide Data;
    if size < 8 {
      var s, t := ShortBuffersCollide(size);
    } else {
      forall s: u64, t: u64 | s != t ensures Data(size, s) != Data(size, t) {
        var p := ChunkDiffers(size, s, t, 0);
      }
    }
  }

  /* The corpus, for any file size */

  /** `byte ^ 0xFF`. */
  function Invert(b: byte): (r: byte)
    ensures r == 255 - b
  {
    assert Pow2(8) == 256;
    XorInverts(b, 8);
    Xor(b, 255)
  }

  function Flip(f: File, p: nat): File
    requires p < |f|
  {
    f[p := Invert(f[p])]
  }

  /** Where a near-duplicate is mutated. */
  function FlipAt(size: nat, i: nat): (p: nat)
    requires 0 < size
    ensures p < size
  {
    (i * 7) % size
  }

  /** Which base a file comes from. */
  function BaseOf(i: nat): nat
    requires i < BASE_COUNT
  {
    if i < UNIQUES then i else i - UNIQUES
  }

  function BaseFile(size: nat, i: nat): (f: File)
    requires i < UNIQUES
    ensures |f| == size
  {
    Data(size, i + 1)
  }

  function CorpusFile(size: nat, i: nat): (f: File)
    requires 0 < size && i < FILE_COUNT
    ensures |f| == size
  {
    if i < UNIQUES then BaseFile(size, i)
    else if i < BASE_COUNT then Flip(BaseFile(size, i - UNIQUES), FlipAt(size, i))
    else CorpusFile(size, i - BASE_COUNT)
  }

  /** A file agrees with its base except perhaps where it was mutated. */
  lemma DiffersFromBaseAtMostOnce(size: nat, i: nat, p: nat)
    requires 0 < size && i < BASE_COUNT && p < size && p != FlipAt(size, i)
    ensures CorpusFile(size, i)[p] == BaseFile(size, BaseOf(i))[p]
  {
  }

  /** With three full words per file, any two of the bases and one-byte mutants
      differ: their bases differ in all three words and the mutations touch at
      most two. */
  lemma BasesAndMutantsDiffer(size: nat, i: nat, j: nat)
    requires 24 <= size && i < j < BASE_COUNT
    ensures CorpusFile(size, i) != CorpusFile(size, j)
  {
    hide Data, WordAt, FlipAt;
    if BaseOf(i) == BaseOf(j) {
      assert CorpusFile(size, j)[FlipAt(size, j)] == Invert(CorpusFile(size, i)[FlipAt(size, j)]);
    } else {
      var a, b := FlipAt(size, i) / 8, FlipAt(size, j) / 8;
      var k := if a != 0 && b != 0 then 0 else if a != 1 && b != 1 then 1 else 2;
      var p := ChunkDiffers(size, BaseOf(i) + 1, BaseOf(j) + 1, k);
      assert p / 8 == k;
      DiffersFromBaseAtMostOnce(size, i, p);
      DiffersFromBaseAtMostOnce(size, j, p);
    }
  }

  /** A near-duplicate differs from an earlier base in exactly one byte, and there it
      has the complement. */
  lemma NearDuplicates(size: nat, i: nat)
    requires 0 < size && UNIQUES <= i < BASE_COUNT
    ensures i - UNIQUES < UNIQUES && CorpusFile(size, i - UNIQUES) == BaseFile(size, i - UNIQUES)
    ensures forall p | 0 <= p < size ::
              if p == 7 * i % size then CorpusFile(size, i)[p] == 255 - CorpusFile(size, i - UNIQUES)[p] != CorpusFile(size, i - UNIQUES)[p]
              else CorpusFile(size, i)[p] == CorpusFile(size, i - UNIQUES)[p]
  {
    hide BaseFile, Invert;
  }

  /** And the last files are copies of earlier ones, in the same order. */
  lemma ExactDuplicates(size: nat, i: nat)
    requires 0 < size && BASE_COUNT <= i < FILE_COUNT
    ensures i - BASE_COUNT < BASE_COUNT && CorpusFile(size, i) == CorpusFile(size, i - BASE_COUNT)
  {
  }

  /** Every full chunk of a buffer is a word of the stream, least significant byte
      first. */
  lemma ChunkIsWord(size: nat, seed: u64, k: nat)
    requires 8 * k + 8 <= size
    ensures Data(size, seed)[8 * k..8 * k + 8] == ToLe(WordAt(seed, k), 8)
    ensures FromLe(Data(size, seed)[8 * k..8 * k + 8]) == WordAt(seed, k)
  {
    hide Data, WordAt;
    var chunk := Data(size, seed)[8 * k..8 * k + 8];
    forall i | 0 <= i < 8 ensures chunk[i] == ToLe(WordAt(seed, k), 8)[i] {
      assert (8 * k + i) / 8 == k && (8 * k + i) % 8 == i;
    }
    assert chunk == ToLe(WordAt(seed, k), 8);
    Pow256Values();
    LeRoundTrip(WordAt(seed, k), 8);
  }

  ghost function FilesUpTo(size: nat, n: nat): set<File>
    requires 0 < size && n <= FILE_COUNT
  {
    set i | 0 <= i < n :: CorpusFile(size, i)
  }

  lemma {:induction false} DistinctCount(size: nat, n: nat)
    requires 24 <= size && n <= BASE_COUNT
    ensures |FilesUpTo(size, n)| == n
  {
    hide CorpusFile;
    if n > 0 {
      DistinctCount(size, n - 1);
      var f := CorpusFile(size, n - 1);
      assert FilesUpTo(size, n) == FilesUpTo(size, n - 1) + {f};
      forall i | 0 <= i < n - 1 ensures CorpusFile(size, i) != f {
        BasesAndMutantsDiffer(size, i, n - 1);
      }
    }
  }

  /** The exact duplicates add nothing. */
  lemma DuplicatesAddNothing(size: nat)
    requires 24 <= size
    ensures FilesUpTo(size, FILE_COUNT) == FilesUpTo(size, BASE_COUNT)
  {
    hide BaseFile, Flip;
    forall f | f in FilesUpTo(size, FILE_COUNT) ensures f in FilesUpTo(size, BASE_COUNT) {
      var i :| 0 <= i < FILE_COUNT && f == CorpusFile(size, i);
      if i >= BASE_COUNT {
        assert f == CorpusFile(size, i - BASE_COUNT);
      }
    }
  }

  method Bases(size: nat) returns (bases: seq<File>)
    ensures |bases| == UNIQUES
    ensures forall j | 0 <= j < UNIQUES :: bases[j] == BaseFile(size, j)
  {
    hide Data;
    bases := [];
    for i := 0 to UNIQUES
      invariant |bases| == i
      invariant forall j | 0 <= j < i :: bases[j] == BaseFile(size, j)
    {
      var buf := GenData(size, i + 1);
      bases := bases + [buf[..]];
    }
  }

  /** One turn of the loop over the files. */
  method NextFile(size: nat, bases: seq<File>, files: seq<File>) returns (file: File)
    requires 0 < size && |files| < FILE_COUNT && |bases| == UNIQUES
    requires forall j | 0 <= j < UNIQUES :: bases[j] == BaseFile(size, j)
    requires forall j | 0 <= j < |files| :: files[j] == CorpusFile(size, j)
    ensures file == CorpusFile(size, |files|)
  {
    hide BaseFile, Invert, FlipAt;
    var i := |files|;
    if i < UNIQUES {
      file := bases[i];
    } else if i < BASE_COUNT {
      var near := bases[i - UNIQUES];
      var flip := FlipAt(size, i);
      file := near[flip := Invert(near[flip])];
    } else {
      file := files[i - BASE_COUNT];
    }
  }

  /** The corpus as the benchmark builds it, with files of 16 KiB there. */
  method BuildCorpus(size: nat) returns (files: seq<File>)
    requires 0 < size
    ensures |files| == FILE_COUNT
    ensures forall i | 0 <= i < FILE_COUNT :: files[i] == CorpusFile(size, i)
  {
    hide BaseFile, CorpusFile;
    var bases := Bases(size);
    files := [];
    for i := 0 to FILE_COUNT
      invariant |files| == i
      invariant forall j | 0 <= j < i :: files[j] == CorpusFile(size, j)
    {
      var file := NextFile(size, bases, files);
      files := files + [file];
    }
  }

  ghost function Digests(files: set<File>, hash: File -> Digest): set<Digest> {
    set f | f in files :: hash(f)
  }

  lemma {:induction false} InjectiveImageSize(files: set<File>, hash: File -> Digest)
    requires forall x, y | x in files && y in files && hash(x) == hash(y) :: x == y
    ensures |Digests(files, hash)| == |files|
  {
    if files != {} {
      var x :| x in files;
      InjectiveImageSize(files - {x}, hash);
      assert Digests(files, hash) == Digests(files - {x}, hash) + {hash(x)};
    }
  }

  /** `corpus_stats`: files of three words or more give exactly 700 distinct
      contents, and as many digests if the hash does not collide on them. */
  lemma CorpusHasBaseCountFiles(size: nat, hash: File -> Digest)
    requires 24 <= size
    requires forall a, b | a in FilesUpTo(size, FILE_COUNT) && b in FilesUpTo(size, FILE_COUNT) && hash(a) == hash(b) :: a == b
    ensures |FilesUpTo(size, FILE_COUNT)| == BASE_COUNT
    ensures |Digests(FilesUpTo(size, FILE_COUNT), hash)| == BASE_COUNT
  {
    hide FilesUpTo;
    DuplicatesAddNothing(size);
    DistinctCount(size, BASE_COUNT);
    InjectiveImageSize(FilesUpTo(size, FILE_COUNT), hash);
  }
}
