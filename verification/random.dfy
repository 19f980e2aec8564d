/**
 * The per-context random stream: an MT19937 Mersenne Twister (Matsumoto and
 * Nishimura, 1998). Words are held in `unsigned long`, which is 64 bits wide on
 * the usual platforms, so the model computes over `bv64` and proves that every
 * word the stream ever holds or returns fits in 32 bits; this is what makes the
 * sequence identical on platforms where `unsigned long` is 32 bits wide.
 */
module Random {

  /** An `unsigned long`. */
  type Word = bv64

  /** Length of the state buffer (MT_PERIOD). */
  const PERIOD: int := 624
  /** Offset of the twist recurrence (M). */
  const SHIFT: int := 397
  const UPPER_MASK: Word := 0x8000_0000
  const LOWER_MASK: Word := 0x7fff_ffff
  /** The twist matrix constant, `mag01[1]`. */
  const MATRIX_A: Word := 0x9908_b0df
  /** The largest 32-bit word; also the divisor of the uniform scaling. */
  const WORD_MASK: Word := 0xffff_ffff
  const SEED_MULTIPLIER: Word := 1812433253
  const TEMPER_B: Word := 0x9d2c_5680
  const TEMPER_C: Word := 0xefc6_0000

  /** A stream: the draw index and the 624-word buffer. */
  datatype Stream = Stream(index: int, buffer: seq<Word>)

  /** True when a word fits in 32 bits. */
  predicate Fits(w: Word) {
    w <= WORD_MASK
  }

  predicate AllFit(s: seq<Word>) {
    forall j :: 0 <= j < |s| ==> Fits(s[j])
  }

  /** The shape every stream keeps: a full buffer of 32-bit words and an index in [0, 624]. */
  predicate StreamValid(s: Stream) {
    |s.buffer| == PERIOD && 0 <= s.index <= PERIOD && AllFit(s.buffer)
  }

  /** The seeding recurrence for word `j` from word `j - 1`, masked to 32 bits. */
  function SeedStep(previous: Word, j: int): (r: Word)
    requires 0 <= j < PERIOD
    ensures Fits(r)
  {
    (SEED_MULTIPLIER * (previous ^ (previous >> 30)) + j as Word) & WORD_MASK
  }

  /** Word `j` of the seeded buffer. */
  function SeedWord(seed: Word, j: nat): (w: Word)
    requires j < PERIOD
    ensures Fits(w)
  {
    if j == 0 then seed & WORD_MASK else SeedStep(SeedWord(seed, j - 1), j)
  }

  /**
   * Seeding: word 0 is the seed masked to 32 bits, every later word follows from
   * its predecessor by the seeding recurrence, and the index is left at 624 so
   * that the first draw regenerates the whole buffer.
   */
  function Initialise(seed: Word): (s: Stream)
    ensures StreamValid(s)
    ensures s.index == PERIOD
    ensures s.buffer[0] == seed & WORD_MASK
    ensures forall j :: 1 <= j < PERIOD ==> s.buffer[j] == SeedStep(s.buffer[j - 1], j)
  {
    Stream(PERIOD, seq(PERIOD, j requires 0 <= j < PERIOD => SeedWord(seed, j)))
  }

  /** The upper bit of `a` joined to the lower 31 bits of `b`. */
  function Mix(a: Word, b: Word): Word {
    (a & UPPER_MASK) | (b & LOWER_MASK)
  }

  /** `mag01[y & 1]`. */
  function Mag(y: Word): Word {
    if y & 1 == 0 then 0 else MATRIX_A
  }

  /** One step of the twist recurrence: `ahead ^ (y >> 1) ^ mag01[y & 1]` with `y` the mixed pair. */
  function Combine(ahead: Word, current: Word, next: Word): Word {
    var y := Mix(current, next);
    ahead ^ (y >> 1) ^ Mag(y)
  }

  /**
   * Word `k` of the regenerated buffer, as the in-place loops of the source leave
   * it: the successor word is still the prior one except for the last word, which
   * pairs with the new word 0; the word 397 places ahead is the prior one for the
   * first 227 words and a new one (227 places behind) from then on.
   */
  function Twisted(prior: seq<Word>, k: int): Word
    requires |prior| == PERIOD && 0 <= k < PERIOD
    decreases k
  {
    var next := if k < PERIOD - 1 then prior[k + 1] else Twisted(prior, 0);
    var ahead := if k < PERIOD - SHIFT then prior[k + SHIFT] else Twisted(prior, k + SHIFT - PERIOD);
    Combine(ahead, prior[k], next)
  }

  /** Regeneration keeps every word within 32 bits. */
  lemma {:induction false} TwistedFits(prior: seq<Word>, k: int)
    requires |prior| == PERIOD && AllFit(prior) && 0 <= k < PERIOD
    ensures Fits(Twisted(prior, k))
    decreases k
  {
    if k == PERIOD - 1 {
      TwistedFits(prior, 0);
    }
    if k >= PERIOD - SHIFT {
      TwistedFits(prior, k + SHIFT - PERIOD);
    }
    var next := if k < PERIOD - 1 then prior[k + 1] else Twisted(prior, 0);
    var ahead := if k < PERIOD - SHIFT then prior[k + SHIFT] else Twisted(prior, k + SHIFT - PERIOD);
    assert Fits(next) && Fits(ahead) && Fits(prior[k]);
    CombineFits(ahead, prior[k], next);
  }

  lemma CombineFits(ahead: Word, current: Word, next: Word)
    requires Fits(ahead)
    ensures Fits(Combine(ahead, current, next))
  {
  }

  /** The first loop of the regeneration: words 0 to 226, paired with prior words 397 ahead. */
  method TwistLow(prior: seq<Word>) returns (a: seq<Word>)
    requires |prior| == PERIOD
    ensures |a| == PERIOD
    ensures forall k :: 0 <= k < PERIOD - SHIFT ==> a[k] == Twisted(prior, k)
    ensures forall k :: PERIOD - SHIFT <= k < PERIOD ==> a[k] == prior[k]
  {
    a := prior;
    var kk := 0;
    while kk < PERIOD - SHIFT
      invariant 0 <= kk <= PERIOD - SHIFT && |a| == PERIOD
      invariant forall k :: 0 <= k < kk ==> a[k] == Twisted(prior, k)
      invariant forall k :: kk <= k < PERIOD ==> a[k] == prior[k]
    {
      a := a[kk := Combine(a[kk + SHIFT], a[kk], a[kk + 1])];
      kk := kk + 1;
    }
  }

  /** The second loop: words 227 to 622, paired with new words 227 behind. */
  method TwistHigh(prior: seq<Word>, low: seq<Word>) returns (a: seq<Word>)
    requires |prior| == PERIOD && |low| == PERIOD
    requires forall k :: 0 <= k < PERIOD - SHIFT ==> low[k] == Twisted(prior, k)
    requires forall k :: PERIOD - SHIFT <= k < PERIOD ==> low[k] == prior[k]
    ensures |a| == PERIOD
    ensures forall k :: 0 <= k < PERIOD - 1 ==> a[k] == Twisted(prior, k)
    ensures a[PERIOD - 1] == prior[PERIOD - 1]
  {
    a := low;
    var kk := PERIOD - SHIFT;
    while kk < PERIOD - 1
      invariant PERIOD - SHIFT <= kk <= PERIOD - 1 && |a| == PERIOD
      invariant forall k :: 0 <= k < kk ==> a[k] == Twisted(prior, k)
      invariant forall k :: kk <= k < PERIOD ==> a[k] == prior[k]
    {
      a := a[kk := Combine(a[kk + SHIFT - PERIOD], a[kk], a[kk + 1])];
      kk := kk + 1;
    }
  }

  /** Regenerates all 624 words in place, as the three steps of the source do. */
  method Twist(prior: seq<Word>) returns (r: seq<Word>)
    requires |prior| == PERIOD
    ensures |r| == PERIOD
    ensures forall k :: 0 <= k < PERIOD ==> r[k] == Twisted(prior, k)
  {
    var low := TwistLow(prior);
    var a := TwistHigh(prior, low);
    r := a[PERIOD - 1 := Combine(a[SHIFT - 1], a[PERIOD - 1], a[0])];
  }

  /** The tempering transform applied to the word at the draw index. */
  function Temper(w: Word): (r: Word)
    ensures Fits(w) ==> Fits(r)
  {
    var y1 := w ^ (w >> 11);
    var y2 := y1 ^ ((y1 << 7) & TEMPER_B);
    var y3 := y2 ^ ((y2 << 15) & TEMPER_C);
    y3 ^ (y3 >> 18)
  }

  function Pow2(n: nat): nat {
    if n == 0 then 1 else 2 * Pow2(n - 1)
  }

  /** The unsigned value of the lowest `n` bits of `w`. */
  function LowValue(w: Word, n: nat): nat {
    if n == 0 then 0 else 2 * LowValue(w >> 1, n - 1) + (if w & 1 == 1 then 1 else 0)
  }

  lemma {:induction false} LowValueBound(w: Word, n: nat)
    ensures LowValue(w, n) < Pow2(n)
  {
    if n > 0 {
      LowValueBound(w >> 1, n - 1);
    }
  }

  lemma Pow2Of32()
    ensures Pow2(32) == 4294967296
  {
    assert Pow2(8) == 256;
    assert Pow2(16) == 65536;
    assert Pow2(24) == 16777216;
  }

  /** The lowest `n` bits of `w` are all set. */
  predicate LowOnes(w: Word, n: nat) {
    n == 0 || (w & 1 == 1 && LowOnes(w >> 1, n - 1))
  }

  /** A word whose lowest `n` bits are all set has the value 2^n - 1 there. */
  lemma {:induction false} LowOnesValue(w: Word, n: nat)
    requires LowOnes(w, n)
    ensures LowValue(w, n) + 1 == Pow2(n)
  {
    if n > 0 {
      LowOnesValue(w >> 1, n - 1);
    }
  }

  /** The 32-bit mask has its 32 lowest bits set, bit by bit. */
  lemma WordMaskOnes()
    ensures LowOnes(WORD_MASK, 32)
  {
    assert LowOnes(0x1, 1); assert LowOnes(0x3, 2); assert LowOnes(0x7, 3); assert LowOnes(0xf, 4);
    assert LowOnes(0x1f, 5); assert LowOnes(0x3f, 6); assert LowOnes(0x7f, 7); assert LowOnes(0xff, 8);
    assert LowOnes(0x1ff, 9); assert LowOnes(0x3ff, 10); assert LowOnes(0x7ff, 11); assert LowOnes(0xfff, 12);
    assert LowOnes(0x1fff, 13); assert LowOnes(0x3fff, 14); assert LowOnes(0x7fff, 15); assert LowOnes(0xffff, 16);
    assert LowOnes(0x1ffff, 17); assert LowOnes(0x3ffff, 18); assert LowOnes(0x7ffff, 19); assert LowOnes(0xfffff, 20);
    assert LowOnes(0x1fffff, 21); assert LowOnes(0x3fffff, 22); assert LowOnes(0x7fffff, 23); assert LowOnes(0xffffff, 24);
    assert LowOnes(0x1ffffff, 25); assert LowOnes(0x3ffffff, 26); assert LowOnes(0x7ffffff, 27); assert LowOnes(0xfffffff, 28);
    assert LowOnes(0x1fffffff, 29); assert LowOnes(0x3fffffff, 30); assert LowOnes(0x7fffffff, 31); assert LowOnes(0xffffffff, 32);
  }

  /**
   * `y * (1.0 / 4294967295.0)`, over the reals, for a word known to fit in 32 bits
   * (every tempered output does, by `Temper`'s contract).
   */
  function Scale(y: Word): real {
    LowValue(y, 32) as real / 4294967295.0
  }

  /** A scaled word lies in the closed interval [0, 1]. */
  lemma ScaleBounds(y: Word)
    ensures 0.0 <= Scale(y) <= 1.0
  {
    LowValueBound(y, 32);
    Pow2Of32();
  }

  /**
   * One draw. Below index 623 the index advances by one and the buffer is kept;
   * at 623 or above the whole buffer is regenerated and the index restarts at 0.
   * The returned value is the tempered word at the new index, scaled into [0, 1].
   */
  method Uniform01(s: Stream) returns (s': Stream, u: real)
    requires StreamValid(s)
    ensures StreamValid(s') && s'.index < PERIOD
    ensures s.index < PERIOD - 1 ==> s'.index == s.index + 1 && s'.buffer == s.buffer
    ensures s.index >= PERIOD - 1 ==> s'.index == 0
    ensures s.index >= PERIOD - 1 ==> forall k :: 0 <= k < PERIOD ==> s'.buffer[k] == Twisted(s.buffer, k)
    ensures u == Scale(Temper(s'.buffer[s'.index]))
    ensures 0.0 <= u <= 1.0
  {
    if s.index < PERIOD - 1 {
      s' := Stream(s.index + 1, s.buffer);
    } else {
      var b := Twist(s.buffer);
      forall k | 0 <= k < PERIOD
        ensures Fits(b[k])
      {
        TwistedFits(s.buffer, k);
      }
      s' := Stream(0, b);
    }
    var y := Temper(s'.buffer[s'.index]);
    ScaleBounds(y);
    u := Scale(y);
  }

  /**
   * The scaling divides by 2^32 - 1, so the upper end 1.0 is reachable: the word
   * 0x12dd9bb3 tempers to 0xffffffff. A draw lies in [0, 1], not [0, 1).
   */
  lemma UpperEndReached()
    ensures Temper(0x12dd_9bb3) == WORD_MASK
    ensures Scale(Temper(0x12dd_9bb3)) == 1.0
  {
    WordMaskOnes();
    LowOnesValue(WORD_MASK, 32);
    Pow2Of32();
  }
}
