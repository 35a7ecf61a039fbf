/** Failure-aware phone-boundary scores, on top of the edit alignment; times and ratios are exact reals. */
module BoundaryScore {
  import opened Options
  import opened EditAlign

  datatype Interval = Interval(phone: Label, start: real, end: real)

  datatype Fault = EmptyLabel | InvalidTimes | Unordered
  datatype Error = Rejected(hypothesis: bool, index: nat, fault: Fault)

  datatype Score = Score(
    referenceBoundaries: nat,
    hypothesisBoundaries: nat,
    comparableBoundaries: nat,
    insertions: nat,
    deletions: nat,
    substitutions: nat,
    absoluteErrorsMs: seq<real>,
    recallWithin: map<real, real>,
    precisionWithin: map<real, real>,
    f1Within: map<real, real>)

  // Added to every tolerance, so that an error meant to equal it is a hit.
  const EPSILON_MS := 0.000000001

  function Labels(s: seq<Interval>): (labels: seq<Label>)
    ensures |labels| == |s| && forall i | 0 <= i < |s| :: labels[i] == s[i].phone
  {
    seq(|s|, i requires 0 <= i < |s| => s[i].phone)
  }

  // Validation.

  function FaultAt(s: seq<Interval>, i: nat): Option<Fault>
    requires i < |s|
  {
    if s[i].phone == "" then Some(EmptyLabel)
    else if s[i].start < 0.0 || s[i].end < s[i].start then Some(InvalidTimes)
    else if i > 0 && s[i].start < s[i-1].start then Some(Unordered)
    else None
  }

  ghost predicate Valid(s: seq<Interval>) {
    && (forall i | 0 <= i < |s| :: s[i].phone != "" && 0.0 <= s[i].start <= s[i].end)
    && (forall i, j | 0 <= i < j < |s| :: s[i].start <= s[j].start)
  }

  lemma {:induction false} FaultlessIsValid(s: seq<Interval>, n: nat)
    requires n <= |s| && forall k | 0 <= k < n :: FaultAt(s, k).None?
    ensures Valid(s[..n])
  {
    if n > 0 {
      FaultlessIsValid(s, n - 1);
      assert s[..n] == s[..n-1] + [s[n-1]] && FaultAt(s, n-1).None?;
      assert n > 1 ==> s[..n-1][n-2] == s[n-2];
    }
  }

  method Validate(s: seq<Interval>, hypothesis: bool) returns (e: Option<Error>)
    ensures e.None? <==> Valid(s)
    ensures e.Some? ==>
              && e.value.hypothesis == hypothesis && e.value.index < |s|
              && Explains(e.value.fault, s, e.value.index) && Valid(s[..e.value.index])
  {
    for i := 0 to |s|
      invariant forall k | 0 <= k < i :: FaultAt(s, k).None?
    {
      if FaultAt(s, i).Some? {
        FaultlessIsValid(s, i);
        return Some(Rejected(hypothesis, i, FaultAt(s, i).value));
      }
    }
    FaultlessIsValid(s, |s|);
    assert s[..|s|] == s;
    return None;
  }

  /** The first fault of the side that is refused, which is the hypothesis only when the reference is valid. */
  ghost predicate FirstFault(e: Error, reference: seq<Interval>, hypothesis: seq<Interval>) {
    && (e.hypothesis <==> Valid(reference))
    && var s := if e.hypothesis then hypothesis else reference;
       e.index < |s| && Explains(e.fault, s, e.index) && Valid(s[..e.index])
  }

  /** What is wrong with the interval; the checks come in this order. */
  ghost predicate Explains(f: Fault, s: seq<Interval>, i: nat)
    requires i < |s|
  {
    match f
    case EmptyLabel => s[i].phone == ""
    case InvalidTimes => s[i].phone != "" && !(0.0 <= s[i].start <= s[i].end)
    case Unordered => s[i].phone != "" && 0.0 <= s[i].start <= s[i].end && 0 < i && s[i].start < s[i-1].start
  }

  // Comparable boundaries.

  ghost predicate MatchMap(m: map<nat, nat>, pairs: seq<(nat, nat)>) {
    forall i: nat, j: nat :: (i in m && m[i] == j) <==> (i, j) in pairs
  }

  method ToMap(pairs: seq<(nat, nat)>) returns (m: map<nat, nat>)
    requires forall k, l | 0 <= k < l < |pairs| :: pairs[k].0 < pairs[l].0
    ensures MatchMap(m, pairs)
  {
    m := map[];
    for k := 0 to |pairs|
      invariant forall i | i in m :: (i, m[i]) in pairs[..k]
      invariant forall l | 0 <= l < k :: pairs[l].0 in m && m[pairs[l].0] == pairs[l].1
    {
      m := m[pairs[k].0 := pairs[k].1];
    }
  }

  /** The matches are order preserving, as an alignment's are. */
  ghost predicate Increasing(m: map<nat, nat>, nRef: nat, nHyp: nat) {
    && (forall i | i in m :: i < nRef && m[i] < nHyp)
    && (forall i, j | i in m && j in m && i < j :: m[i] < m[j])
  }

  /** Boundary b of the reference lies between two matches that are consecutive in both sequences. */
  predicate Comparable(m: map<nat, nat>, b: nat) {
    b > 0 && b - 1 in m && b in m && m[b] == m[b-1] + 1
  }

  /** The comparable boundaries before b, each with the hypothesis boundary it is compared to. */
  ghost function Compared(m: map<nat, nat>, b: nat): seq<(nat, nat)> {
    if b == 0 then []
    else Compared(m, b - 1) + if Comparable(m, b - 1) then [(b - 1, m[b-1])] else []
  }

  lemma {:induction false} ComparedInOrder(m: map<nat, nat>, b: nat, nRef: nat, nHyp: nat)
    requires Increasing(m, nRef, nHyp) && b <= nRef
    ensures forall k | 0 <= k < |Compared(m, b)| ::
              var (x, y) := Compared(m, b)[k];
              Comparable(m, x) && x < b && y == m[x] && 0 < y < nHyp
    ensures forall k, l | 0 <= k < l < |Compared(m, b)| ::
              Compared(m, b)[k].0 < Compared(m, b)[l].0 && Compared(m, b)[k].1 < Compared(m, b)[l].1
    ensures forall x: nat | Comparable(m, x) && x < b :: (x, m[x]) in Compared(m, b)
  {
    if b > 0 {
      ComparedInOrder(m, b - 1, nRef, nHyp);
    }
  }

  /**
   * Compared are exactly the boundaries whose two phones match phones that are neighbours on the other side,
   * each to the boundary between those, distinct ones to distinct ones and in order.
   */
  lemma ComparedIsInjective(m: map<nat, nat>, b: nat, nRef: nat, nHyp: nat)
    requires Increasing(m, nRef, nHyp) && b <= nRef
    ensures forall k | 0 <= k < |Compared(m, b)| ::
              var (x, y) := Compared(m, b)[k];
              && 0 < x < b && 0 < y < nHyp
              && x - 1 in m && x in m && m[x-1] == y - 1 && m[x] == y
    ensures forall k, l | 0 <= k < l < |Compared(m, b)| ::
              Compared(m, b)[k].0 < Compared(m, b)[l].0 && Compared(m, b)[k].1 < Compared(m, b)[l].1
    ensures forall x: nat | 0 < x < b && x - 1 in m && x in m && m[x] == m[x-1] + 1 :: (x, m[x]) in Compared(m, b)
  {
    hide Increasing, Compared;
    ComparedInOrder(m, b, nRef, nHyp);
    forall x: nat | 0 < x < b && x - 1 in m && x in m && m[x] == m[x-1] + 1 ensures (x, m[x]) in Compared(m, b) {
      assert Comparable(m, x);
    }
  }

  lemma {:induction false} IncreasingLength(s: seq<(nat, nat)>, a: nat, b: nat)
    requires forall k | 0 <= k < |s| :: 0 < s[k].0 < a && 0 < s[k].1 < b
    requires forall k, l | 0 <= k < l < |s| :: s[k].0 < s[l].0 && s[k].1 < s[l].1
    ensures s != [] ==> |s| < a && |s| < b
  {
    if |s| > 1 {
      var last := s[|s|-1];
      IncreasingLength(s[..|s|-1], last.0, last.1);
    }
  }

  lemma ComparedIsFew(m: map<nat, nat>, nRef: nat, nHyp: nat)
    requires Increasing(m, nRef, nHyp)
    ensures |Compared(m, nRef)| <= Boundaries(nRef) && |Compared(m, nRef)| <= Boundaries(nHyp)
  {
    ComparedIsInjective(m, nRef, nRef, nHyp);
    IncreasingLength(Compared(m, nRef), nRef, nHyp);
  }

  function Boundaries(n: nat): nat {
    if n == 0 then 0 else n - 1
  }

  function Abs(x: real): real {
    if x < 0.0 then -x else x
  }

  function ErrorMs(r: seq<Interval>, h: seq<Interval>, x: nat, y: nat): real
    requires 0 < x < |r| && 0 < y < |h|
  {
    Abs((r[x-1].end + r[x].start) / 2.0 - (h[y-1].end + h[y].start) / 2.0) * 1000.0
  }

  /**
   * The error is no less than zero, zero exactly for equal midpoints, and otherwise a signed difference of
   * milliseconds, to which a delay of one side by d seconds adds a thousand times d.
   */
  lemma ErrorMeans(r: seq<Interval>, h: seq<Interval>, x: nat, y: nat, later: seq<Interval>, d: real)
    requires 0 < x < |r| && 0 < y < |h| && |later| == |r|
    requires later[x-1].end == r[x-1].end + d && later[x].start == r[x].start + d
    ensures ErrorMs(r, h, x, y) >= 0.0
    ensures ErrorMs(r, h, x, y) == 0.0 <==> r[x-1].end + r[x].start == h[y-1].end + h[y].start
    ensures ErrorMs(r, h, x, y) == ErrorMs(h, r, y, x)
    ensures exists e :: ErrorMs(r, h, x, y) == Abs(e) && ErrorMs(later, h, x, y) == Abs(e + 1000.0 * d)
    ensures r[x-1].end + r[x].start == h[y-1].end + h[y].start ==> ErrorMs(later, h, x, y) == 1000.0 * Abs(d)
  {
    var e := 500.0 * (r[x-1].end + r[x].start - h[y-1].end - h[y].start);
    assert ErrorMs(r, h, x, y) == Abs(e) && ErrorMs(later, h, x, y) == Abs(e + 1000.0 * d);
  }

  ghost predicate ErrorsOf(errors: seq<real>, r: seq<Interval>, h: seq<Interval>, compared: seq<(nat, nat)>) {
    && |errors| == |compared|
    && forall k | 0 <= k < |errors| ::
         && 0 < compared[k].0 < |r| && 0 < compared[k].1 < |h|
         && errors[k] == ErrorMs(r, h, compared[k].0, compared[k].1)
  }

  method Errors(r: seq<Interval>, h: seq<Interval>, m: map<nat, nat>) returns (errors: seq<real>)
    requires Increasing(m, |r|, |h|)
    ensures ErrorsOf(errors, r, h, Compared(m, |r|))
  {
    errors := [];
    if |r| == 0 {
      return;
    }
    assert Compared(m, 1) == Compared(m, 0) + [];
    for right := 1 to |r|
      invariant ErrorsOf(errors, r, h, Compared(m, right))
    {
      if !(right - 1 in m) || !(right in m) || m[right] != m[right-1] + 1 {
        continue;
      }
      errors := errors + [ErrorMs(r, h, right, m[right])];
    }
  }

  // Tolerances.

  function Hits(errors: seq<real>, tolerance: real): (hits: nat)
    ensures hits <= |errors|
  {
    if errors == [] then 0
    else Hits(errors[1..], tolerance) + if errors[0] <= tolerance + EPSILON_MS then 1 else 0
  }

  /** How many errors are within the tolerance and the epsilon. */
  lemma {:induction false} HitsCount(errors: seq<real>, t: real)
    ensures Hits(errors, t) == |set k | 0 <= k < |errors| && errors[k] <= t + EPSILON_MS|
    decreases |errors|
  {
    var within := set k | 0 <= k < |errors| && errors[k] <= t + EPSILON_MS;
    if errors == [] {
      assert within == {};
    } else {
      HitsCount(errors[1..], t);
      var rest := set k | 0 <= k < |errors[1..]| && errors[1..][k] <= t + EPSILON_MS;
      var shifted := set k | k in rest :: k + 1;
      ShiftedSize(rest);
      assert within == shifted + if errors[0] <= t + EPSILON_MS then {0} else {} by {
        forall k ensures k in within <==> k in shifted || (k == 0 && errors[0] <= t + EPSILON_MS) {
          if k in within && k > 0 {
            assert errors[1..][k-1] == errors[k] && k - 1 in rest;
          }
        }
      }
    }
  }

  lemma {:induction false} ShiftedSize(s: set<int>)
    ensures |set k | k in s :: k + 1| == |s|
  {
    var shifted := set k | k in s :: k + 1;
    if s == {} {
      assert shifted == {};
    } else {
      var x := Pick(s);
      ShiftedSize(s - {x});
      var others := set k | k in s - {x} :: k + 1;
      forall y ensures y in shifted <==> y in others || y == x + 1 {
        if y in shifted && y != x + 1 {
          assert y - 1 in s - {x};
        }
      }
      assert shifted == others + {x + 1};
    }
  }

  function Ratio(numerator: nat, denominator: nat): real {
    if denominator == 0 then 0.0 else numerator as real / denominator as real
  }

  function F1(p: real, r: real): real {
    if p + r == 0.0 then 0.0 else 2.0 * p * r / (p + r)
  }

  lemma {:induction false} HitsMonotone(errors: seq<real>, s: real, t: real)
    requires s <= t
    ensures Hits(errors, s) <= Hits(errors, t)
  {
    if errors != [] {
      HitsMonotone(errors[1..], s, t);
    }
  }

  lemma Cross(x: real, y: real, d: real)
    requires d > 0.0 && x == y * d
    ensures x / d == y
  {
  }

  lemma RatioMonotone(a: nat, b: nat, n: nat)
    requires a <= b <= n
    ensures 0.0 <= Ratio(a, n) <= Ratio(b, n) <= 1.0
  {
    if n > 0 {
      var x, y, d := a as real, b as real, n as real;
      assert x / d * d == x && y / d * d == y;
    }
  }

  /** The harmonic mean of the two ratios is the share of hits among all boundaries of both sides. */
  lemma F1IsOneRatio(hits: nat, nRef: nat, nHyp: nat)
    requires hits <= nRef && hits <= nHyp
    ensures F1(Ratio(hits, nHyp), Ratio(hits, nRef)) == Ratio(2 * hits, nRef + nHyp)
  {
    if hits > 0 {
      var h, a, b := hits as real, nRef as real, nHyp as real;
      assert h / b * b == h && h / a * a == h;
      Harmonic(h / b, h / a, h, a, b);
    }
  }

  lemma Harmonic(p: real, r: real, h: real, a: real, b: real)
    requires h > 0.0 && a > 0.0 && b > 0.0 && p * b == h && r * a == h
    ensures p + r > 0.0 && 2.0 * p * r / (p + r) == 2.0 * h / (a + b)
  {
    assert p > 0.0 && r > 0.0;
    assert (p * r) * a == p * h && (p * r) * b == r * h by {
      assert (p * r) * a == p * (r * a);
      assert (p * r) * b == r * (p * b);
    }
    EqualQuotients(2.0 * p * r, p + r, 2.0 * h, a + b);
  }

  lemma EqualQuotients(x: real, c: real, y: real, d: real)
    requires c > 0.0 && d > 0.0 && x * d == y * c
    ensures x / c == y / d
  {
    Cross(x * d, y * c / d, d);
    assert (y / d) * c == y * c / d == x;
    Cross(x, y / d, c);
  }

  /** The rates at every tolerance asked for, over all reference, all hypothesis and all boundaries of both. */
  ghost predicate RatesOf(recall: map<real, real>, precision: map<real, real>, f1: map<real, real>,
                          errors: seq<real>, nRef: nat, nHyp: nat, tolerances: seq<real>) {
    && (forall t :: t in recall <==> t in tolerances)
    && (forall t :: t in precision <==> t in tolerances)
    && (forall t :: t in f1 <==> t in tolerances)
    && forall t | t in tolerances ::
         && recall[t] == Ratio(Hits(errors, t), nRef)
         && precision[t] == Ratio(Hits(errors, t), nHyp)
         && f1[t] == Ratio(2 * Hits(errors, t), nRef + nHyp)
  }

  method Rates(errors: seq<real>, nRef: nat, nHyp: nat, tolerances: seq<real>)
    returns (recall: map<real, real>, precision: map<real, real>, f1: map<real, real>)
    requires |errors| <= nRef && |errors| <= nHyp
    ensures RatesOf(recall, precision, f1, errors, nRef, nHyp, tolerances)
  {
    recall, precision, f1 := map[], map[], map[];
    for k := 0 to |tolerances|
      invariant RatesOf(recall, precision, f1, errors, nRef, nHyp, tolerances[..k])
    {
      var tolerance := tolerances[k];
      var hits := Hits(errors, tolerance);
      var r, p := Ratio(hits, nRef), Ratio(hits, nHyp);
      F1IsOneRatio(hits, nRef, nHyp);
      recall := recall[tolerance := r];
      precision := precision[tolerance := p];
      f1 := f1[tolerance := F1(p, r)];
    }
    assert tolerances[..|tolerances|] == tolerances;
  }

  /** The score's numbers are what its errors say. */
  ghost predicate Consistent(s: Score, tolerances: seq<real>) {
    && s.comparableBoundaries == |s.absoluteErrorsMs|
    && s.comparableBoundaries <= s.referenceBoundaries && s.comparableBoundaries <= s.hypothesisBoundaries
    && RatesOf(s.recallWithin, s.precisionWithin, s.f1Within, s.absoluteErrorsMs,
               s.referenceBoundaries, s.hypothesisBoundaries, tolerances)
  }

  /** A score is computed from the correct alignment of the two label sequences. */
  ghost predicate ScoreOf(s: Score, r: seq<Interval>, h: seq<Interval>, a: Alignment, m: map<nat, nat>) {
    && Correct(a, Labels(r), Labels(h)) && MatchMap(m, a.pairs) && Increasing(m, |r|, |h|)
    && s.insertions == a.insertions && s.deletions == a.deletions && s.substitutions == a.substitutions
    && s.referenceBoundaries == Boundaries(|r|) && s.hypothesisBoundaries == Boundaries(|h|)
    && ErrorsOf(s.absoluteErrorsMs, r, h, Compared(m, |r|))
  }

  /** Every rate lies in [0, 1] and can only grow with the tolerance. */
  lemma RatesAreOrdered(s: Score, tolerances: seq<real>, t: real, u: real)
    requires Consistent(s, tolerances) && t in tolerances && u in tolerances && t <= u
    ensures 0.0 <= s.recallWithin[t] <= s.recallWithin[u] <= 1.0
    ensures 0.0 <= s.precisionWithin[t] <= s.precisionWithin[u] <= 1.0
    ensures 0.0 <= s.f1Within[t] <= s.f1Within[u] <= 1.0
  {
    var a, b := Hits(s.absoluteErrorsMs, t), Hits(s.absoluteErrorsMs, u);
    HitsMonotone(s.absoluteErrorsMs, t, u);
    RatioMonotone(a, b, s.referenceBoundaries);
    RatioMonotone(a, b, s.hypothesisBoundaries);
    RatioMonotone(2 * a, 2 * b, s.referenceBoundaries + s.hypothesisBoundaries);
  }

  lemma MatchesIncrease(m: map<nat, nat>, a: Alignment, r: seq<Label>, h: seq<Label>)
    requires MatchMap(m, a.pairs) && Correct(a, r, h)
    ensures Increasing(m, |r|, |h|)
  {
    CorrectAccounts(a, r, h);
    forall i | i in m ensures exists k :: 0 <= k < |a.pairs| && a.pairs[k] == (i, m[i]) {
      assert (i, m[i]) in a.pairs;
    }
  }

  // The facts the scorer hands from one step to the next.

  lemma IncreasingPairs(a: Alignment, r: seq<Label>, h: seq<Label>)
    requires Correct(a, r, h)
    ensures forall k, l | 0 <= k < l < |a.pairs| :: a.pairs[k].0 < a.pairs[l].0
  {
    CorrectAccounts(a, r, h);
  }

  lemma SameLength(errors: seq<real>, r: seq<Interval>, h: seq<Interval>, compared: seq<(nat, nat)>)
    requires ErrorsOf(errors, r, h, compared)
    ensures |errors| == |compared|
  {
  }

  method ScorePhoneBoundaries(reference: seq<Interval>, hypothesis: seq<Interval>, tolerances: seq<real>)
    returns (result: Result<Score, Error>, ghost a: Alignment, ghost m: map<nat, nat>)
    ensures result.Ok? <==> Valid(reference) && Valid(hypothesis)
    ensures result.Err? ==> FirstFault(result.error, reference, hypothesis)
    ensures result.Ok? ==> Consistent(result.value, tolerances) && ScoreOf(result.value, reference, hypothesis, a, m)
  {
    hide Correct, MatchMap, Increasing, ErrorsOf, RatesOf, Valid, Compared;
    a, m := Alignment([], 0, 0, 0), map[];
    var e := Validate(reference, false);
    if e.Some? {
      return Err(e.value), a, m;
    }
    e := Validate(hypothesis, true);
    if e.Some? {
      return Err(e.value), a, m;
    }
    var alignment := Align(Labels(reference), Labels(hypothesis));
    IncreasingPairs(alignment, Labels(reference), Labels(hypothesis));
    var refToHyp := ToMap(alignment.pairs);
    MatchesIncrease(refToHyp, alignment, Labels(reference), Labels(hypothesis));
    var errors := Errors(reference, hypothesis, refToHyp);
    SameLength(errors, reference, hypothesis, Compared(refToHyp, |reference|));
    ComparedIsFew(refToHyp, |reference|, |hypothesis|);
    var nRef, nHyp := Boundaries(|reference|), Boundaries(|hypothesis|);
    var recall, precision, f1 := Rates(errors, nRef, nHyp, tolerances);
    a, m := alignment, refToHyp;
    result := Ok(Score(nRef, nHyp, |errors|, alignment.insertions, alignment.deletions, alignment.substitutions,
                       errors, recall, precision, f1));
  }

  lemma {:induction false} AllHit(errors: seq<real>, t: real)
    requires forall k | 0 <= k < |errors| :: errors[k] == 0.0
    ensures Hits(errors, t) == if t + EPSILON_MS >= 0.0 then |errors| else 0
  {
    if errors != [] {
      AllHit(errors[1..], t);
    }
  }

  lemma {:induction false} IdentityCompared(m: map<nat, nat>, n: nat, b: nat)
    requires forall i: nat :: i in m <==> i < n
    requires forall i | i in m :: m[i] == i
    requires b <= n
    ensures |Compared(m, b)| == Boundaries(b)
    ensures forall k | 0 <= k < |Compared(m, b)| :: Compared(m, b)[k] == (k + 1, k + 1)
  {
    if b > 0 {
      IdentityCompared(m, n, b - 1);
    }
  }

  /** A sequence aligned with itself maps every phone to itself. */
  lemma SelfMatches(labels: seq<Label>, a: Alignment, m: map<nat, nat>)
    requires Correct(a, labels, labels) && MatchMap(m, a.pairs)
    ensures a.insertions == a.deletions == a.substitutions == 0
    ensures forall i: nat :: i in m <==> i < |labels|
    ensures forall i | i in m :: m[i] == i
  {
    WalkbackIsCorrect(labels, labels);
    SelfWalkback(labels, |labels|);
    CorrectIsUnique(a, Read(Walkback(labels, labels, |labels|, |labels|), |labels|, |labels|), labels, labels);
    forall i: nat ensures i in m <==> i < |labels| {
      if i < |labels| {
        assert a.pairs[i] == (i, i);
      }
      if i in m {
        assert (i, m[i]) in a.pairs;
      }
    }
    forall i | i in m ensures m[i] == i {
      assert (i, m[i]) in a.pairs;
    }
  }

  lemma SelfErrors(errors: seq<real>, r: seq<Interval>, compared: seq<(nat, nat)>)
    requires ErrorsOf(errors, r, r, compared)
    requires forall k | 0 <= k < |compared| :: compared[k].0 == compared[k].1
    ensures |errors| == |compared| && forall k | 0 <= k < |errors| :: errors[k] == 0.0
  {
  }

  lemma AllOrNothing(n: nat)
    requires n > 0
    ensures Ratio(n, n) == 1.0 && Ratio(0, n) == 0.0
  {
  }

  /**
   * Two or more phones scored against themselves: every boundary is comparable without error, and the
   * rates are perfect exactly at the tolerances that are not negative beyond the epsilon.
   */
  lemma SelfScoreIsPerfect(r: seq<Interval>, s: Score, a: Alignment, m: map<nat, nat>, tolerances: seq<real>, t: real)
    requires |r| >= 2 && t in tolerances
    requires Consistent(s, tolerances) && ScoreOf(s, r, r, a, m)
    ensures s.insertions == s.deletions == s.substitutions == 0
    ensures s.comparableBoundaries == s.referenceBoundaries == s.hypothesisBoundaries == |r| - 1
    ensures forall k | 0 <= k < |s.absoluteErrorsMs| :: s.absoluteErrorsMs[k] == 0.0
    ensures var rate := if t + EPSILON_MS >= 0.0 then 1.0 else 0.0;
            s.recallWithin[t] == s.precisionWithin[t] == s.f1Within[t] == rate
  {
    hide Correct, MatchMap, Increasing, Hits, Compared, ErrorsOf;
    SelfMatches(Labels(r), a, m);
    IdentityCompared(m, |r|, |r|);
    SelfErrors(s.absoluteErrorsMs, r, Compared(m, |r|));
    AllOrNothing(|r| - 1);
    AllOrNothing(2 * (|r| - 1));
    AllHit(s.absoluteErrorsMs, t);
  }
}
