/** The numeric part of the front-end record check, over exact reals. */
module FeatParams {
  import opened Options

  datatype Record = Record(
    ceplen: int, ncep: int, nfilt: int, nfft: int, frate: int, lifter: int,
    samprate: real, upperf: real, wlen: real, lowerf: real)

  datatype Fault = BelowMinimum | EmptyBand | LengthMismatch | AboveNyquist | NotPowerOfTwo | RateTooHigh | ShiftTooSmall | WindowTooShort | WindowNotCovered

  /** Python's int(x + 0.5) for positive x. */
  function HalfUp(x: real): int {
    (x + 0.5).Floor
  }

  /** Bitwise conjunction over unbounded integers. */
  function And(a: nat, b: nat): nat {
    if a == 0 || b == 0 then 0 else 2 * And(a / 2, b / 2) + if a % 2 == 1 && b % 2 == 1 then 1 else 0
  }

  function FrameShift(r: Record): int
    requires r.frate != 0
  {
    HalfUp(r.samprate / r.frate as real)
  }

  function FrameSize(r: Record): int {
    HalfUp(r.wlen * r.samprate)
  }

  /** None accepts; the checks come in the order of the original. */
  function Validate(r: Record): Option<Fault> {
    if r.ceplen < 1 || r.ncep < 1 || r.nfilt < 1 || r.nfft < 1 || r.frate < 1 || r.lifter < 0 then Some(BelowMinimum)
    else if r.samprate <= 0.0 || r.upperf <= 0.0 || r.wlen <= 0.0 || r.lowerf < 0.0 then Some(BelowMinimum)
    else if r.upperf <= r.lowerf then Some(EmptyBand)
    else if r.ceplen != r.ncep then Some(LengthMismatch)
    else if r.upperf > r.samprate / 2.0 + 1.0 then Some(AboveNyquist)
    else if And(r.nfft, r.nfft - 1) != 0 then Some(NotPowerOfTwo)
    else if r.frate as real > r.samprate then Some(RateTooHigh)
    else if FrameShift(r) <= 1 then Some(ShiftTooSmall)
    else if FrameSize(r) < FrameShift(r) then Some(WindowTooShort)
    else if r.nfft as real < r.wlen * r.samprate then Some(WindowNotCovered)
    else None
  }

  function Pow2(k: nat): nat {
    if k == 0 then 1 else 2 * Pow2(k - 1)
  }

  ghost predicate IsPow2(n: nat) {
    exists k: nat :: n == Pow2(k)
  }

  lemma {:induction false} AndSelf(n: nat)
    ensures And(n, n) == n
  {
    if n > 0 {
      AndSelf(n / 2);
    }
  }

  lemma HalvePow2(n: nat)
    requires n > 1
    ensures IsPow2(n) <==> n % 2 == 0 && IsPow2(n / 2)
  {
    if IsPow2(n) {
      var k: nat :| n == Pow2(k);
      assert n / 2 == Pow2(k - 1);
    }
    if n % 2 == 0 && IsPow2(n / 2) {
      var k: nat :| n / 2 == Pow2(k);
      assert n == Pow2(k + 1);
    }
  }

  /** Clearing the lowest bit leaves nothing exactly for the powers of two. */
  lemma {:induction false} LowestBitOnly(n: nat)
    requires n > 0
    ensures And(n, n - 1) == 0 <==> IsPow2(n)
  {
    if n == 1 {
      assert n == Pow2(0);
    } else {
      HalvePow2(n);
      if n % 2 == 0 {
        LowestBitOnly(n / 2);
        assert (n - 1) / 2 == n / 2 - 1;
      } else {
        AndSelf(n / 2);
        assert (n - 1) / 2 == n / 2 && n / 2 > 0;
      }
    }
  }

  lemma HalfUpIsNearest(x: real)
    requires x > 0.0
    ensures -0.5 < HalfUp(x) as real - x <= 0.5
  {
  }

  /** An accepted record has whole frames of at least two samples inside a window that its power-of-two transform covers. */
  lemma AcceptedFrames(r: Record)
    requires Validate(r) == None
    ensures 2 <= FrameShift(r) <= FrameSize(r) <= r.nfft && IsPow2(r.nfft)
    ensures -0.5 < FrameShift(r) as real - r.samprate / r.frate as real <= 0.5
    ensures -0.5 < FrameSize(r) as real - r.wlen * r.samprate <= 0.5
  {
    hide And, IsPow2;
    LowestBitOnly(r.nfft);
    Quotient(r.samprate, r.frate as real);
    HalfUpIsNearest(r.samprate / r.frate as real);
    PositiveProduct(r.wlen, r.samprate);
    HalfUpIsNearest(r.wlen * r.samprate);
  }

  lemma Quotient(x: real, y: real)
    requires x > 0.0 && y > 0.0
    ensures x / y > 0.0 && (x / y >= 1.5 <==> x >= 1.5 * y)
  {
    var q := x / y;
    assert q * y == x;
  }

  lemma PositiveProduct(x: real, y: real)
    requires x > 0.0 && y > 0.0
    ensures x * y > 0.0
  {
  }

  /** Counts and rates are positive, the band is not empty and ends by the Nyquist limit, and the two lengths agree. */
  predicate InRange(r: Record) {
    && r.ceplen == r.ncep >= 1 && r.nfilt >= 1 && r.nfft >= 1 && r.frate >= 1 && r.lifter >= 0
    && r.samprate > 0.0 && r.wlen > 0.0 && 0.0 <= r.lowerf < r.upperf <= r.samprate / 2.0 + 1.0
  }

  /**
   * Accepted exactly with equal cepstral lengths, a band below the Nyquist limit, a power-of-two transform, at
   * least one and a half samples a frame, and a window that has the frame shift and that the transform covers.
   */
  lemma AcceptedIff(r: Record)
    ensures Validate(r) == None <==>
            && InRange(r) && IsPow2(r.nfft) && r.samprate >= 1.5 * r.frate as real
            && FrameShift(r) <= FrameSize(r) && r.wlen * r.samprate <= r.nfft as real
  {
    hide And, IsPow2;
    if !InRange(r) {
      return;
    }
    LowestBitOnly(r.nfft);
    Quotient(r.samprate, r.frate as real);
    assert r.samprate >= 1.5 * r.frate as real ==> r.samprate >= r.frate as real;
    assert FrameShift(r) >= 2 <==> r.samprate / r.frate as real >= 1.5;
  }

  /** What a fault says of the record. */
  ghost predicate Wrong(f: Fault, r: Record) {
    match f
    case BelowMinimum =>
      !(r.ceplen >= 1 && r.ncep >= 1 && r.nfilt >= 1 && r.nfft >= 1 && r.frate >= 1 && r.lifter >= 0
        && r.samprate > 0.0 && r.upperf > 0.0 && r.wlen > 0.0 && r.lowerf >= 0.0)
    case EmptyBand => r.upperf <= r.lowerf
    case LengthMismatch => r.ceplen != r.ncep
    case AboveNyquist => r.upperf > r.samprate / 2.0 + 1.0
    case NotPowerOfTwo => r.nfft < 1 || !IsPow2(r.nfft)
    case RateTooHigh => r.frate as real > r.samprate
    case ShiftTooSmall => r.samprate < 1.5 * r.frate as real
    case WindowTooShort => r.frate >= 1 && FrameSize(r) < FrameShift(r)
    case WindowNotCovered => r.wlen * r.samprate > r.nfft as real
  }

  function Rank(f: Fault): nat {
    match f
    case BelowMinimum => 0
    case EmptyBand => 1
    case LengthMismatch => 2
    case AboveNyquist => 3
    case NotPowerOfTwo => 4
    case RateTooHigh => 5
    case ShiftTooSmall => 6
    case WindowTooShort => 7
    case WindowNotCovered => 8
  }

  /** A refusal names the first fault that the record has, in the order of the checks. */
  lemma RefusedForTheFirst(r: Record, g: Fault)
    ensures Validate(r).Some? ==> Wrong(Validate(r).value, r)
    ensures Wrong(g, r) ==> Validate(r).Some? && Rank(Validate(r).value) <= Rank(g)
  {
    hide And, IsPow2;
    if !Wrong(BelowMinimum, r) {
      LowestBitOnly(r.nfft);
      Quotient(r.samprate, r.frate as real);
      assert FrameShift(r) >= 2 <==> r.samprate / r.frate as real >= 1.5;
    }
  }
}
