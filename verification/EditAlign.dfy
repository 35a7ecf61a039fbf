/**
 * Levenshtein alignment of two label sequences with deterministic ties.
 *
 * A Script is read from the right end of both sequences, the way the back table is walked: its first
 * operation is the last one applied.  What is promised quantifies over all scripts; the tables appear
 * only in the methods.
 */
module EditAlign {

  type Label = string

  // The entries of the back table, in order of preference; a match and a substitution never compete.
  datatype Op = Match | Substitute | Delete | Insert {
    function Rank(): nat {
      match this case Match => 0 case Substitute => 1 case Delete => 2 case Insert => 3
    }

    // How many reference and hypothesis labels the operation takes.
    function Ref(): nat { if this == Insert then 0 else 1 }
    function Hyp(): nat { if this == Delete then 0 else 1 }
  }

  type Script = seq<Op>

  datatype Alignment = Alignment(pairs: seq<(nat, nat)>, insertions: nat, deletions: nat, substitutions: nat)

  /** s takes exactly the first i labels of r and the first j of h, and matches only equal labels. */
  ghost predicate Aligns(s: Script, r: seq<Label>, h: seq<Label>, i: nat, j: nat) {
    && i <= |r| && j <= |h|
    && if s == [] then i == j == 0
       else
         && s[0].Ref() <= i && s[0].Hyp() <= j
         && (s[0] == Match ==> r[i-1] == h[j-1])
         && Aligns(s[1..], r, h, i - s[0].Ref(), j - s[0].Hyp())
  }

  /** The number of insertions, deletions and substitutions a script makes. */
  ghost function Edits(s: Script): nat {
    if s == [] then 0 else (if s[0] == Match then 0 else 1) + Edits(s[1..])
  }

  ghost predicate Optimal(s: Script, r: seq<Label>, h: seq<Label>) {
    Aligns(s, r, h, |r|, |h|) && forall t | Aligns(t, r, h, |r|, |h|) :: Edits(s) <= Edits(t)
  }

  /** s comes before t, or is t, in the order of preference taken operation by operation. */
  ghost predicate Preferred(s: Script, t: Script) {
    if s == [] || t == [] then s == []
    else s[0].Rank() < t[0].Rank() || (s[0] == t[0] && Preferred(s[1..], t[1..]))
  }

  /** The matched index pairs and the counts of a script that takes i and j labels. */
  ghost function Read(s: Script, i: nat, j: nat): Alignment {
    if s == [] || s[0].Ref() > i || s[0].Hyp() > j then Alignment([], 0, 0, 0)
    else
      var a := Read(s[1..], i - s[0].Ref(), j - s[0].Hyp());
      match s[0]
      case Match => a.(pairs := a.pairs + [(i - 1, j - 1)])
      case Substitute => a.(substitutions := a.substitutions + 1)
      case Delete => a.(deletions := a.deletions + 1)
      case Insert => a.(insertions := a.insertions + 1)
  }

  // The value of a table cell, and the operation its tie rule picks.

  function Distance(r: seq<Label>, h: seq<Label>, i: nat, j: nat): nat
    requires i <= |r| && j <= |h|
    decreases i + j, 1
  {
    if i == 0 then j else if j == 0 then i else Cell(r, h, i, j).0
  }

  function Choice(r: seq<Label>, h: seq<Label>, i: nat, j: nat): Op
    requires i <= |r| && j <= |h|
  {
    if j == 0 then Delete else if i == 0 then Insert else Cell(r, h, i, j).1
  }

  function Cell(r: seq<Label>, h: seq<Label>, i: nat, j: nat): (nat, Op)
    requires 0 < i <= |r| && 0 < j <= |h|
    decreases i + j, 0
  {
    Best(r[i-1] == h[j-1], Distance(r, h, i - 1, j - 1), Distance(r, h, i - 1, j), Distance(r, h, i, j - 1))
  }

  /** The least of a cell's three candidates; the diagonal wins ties, then the deletion. */
  function Best(same: bool, diagonal: nat, above: nat, left: nat): (nat, Op) {
    var across := diagonal + if same then 0 else 1;
    if across <= above + 1 && across <= left + 1 then (across, if same then Match else Substitute)
    else if above <= left then (above + 1, Delete)
    else (left + 1, Insert)
  }

  ghost function Walkback(r: seq<Label>, h: seq<Label>, i: nat, j: nat): Script
    requires i <= |r| && j <= |h|
    decreases i + j
  {
    if i == j == 0 then []
    else
      var op := Choice(r, h, i, j);
      [op] + Walkback(r, h, i - op.Ref(), j - op.Hyp())
  }

  // No script beats the table, and the walk back realises it.

  lemma {:induction false} DistanceIsLowerBound(s: Script, r: seq<Label>, h: seq<Label>, i: nat, j: nat)
    requires Aligns(s, r, h, i, j)
    ensures Distance(r, h, i, j) <= Edits(s)
  {
    if s != [] {
      DistanceIsLowerBound(s[1..], r, h, i - s[0].Ref(), j - s[0].Hyp());
    }
  }

  lemma ChoiceStep(r: seq<Label>, h: seq<Label>, i: nat, j: nat)
    requires i <= |r| && j <= |h| && i + j > 0
    ensures var op := Choice(r, h, i, j);
            && op.Ref() <= i && op.Hyp() <= j && (op == Match ==> r[i-1] == h[j-1])
            && Distance(r, h, i, j) == Distance(r, h, i - op.Ref(), j - op.Hyp()) + if op == Match then 0 else 1
  {
  }

  lemma {:induction false} WalkbackRealises(r: seq<Label>, h: seq<Label>, i: nat, j: nat)
    requires i <= |r| && j <= |h|
    ensures Aligns(Walkback(r, h, i, j), r, h, i, j)
    ensures Edits(Walkback(r, h, i, j)) == Distance(r, h, i, j)
    decreases i + j
  {
    hide Distance, Choice, Cell;
    if i + j > 0 {
      ChoiceStep(r, h, i, j);
      var op := Choice(r, h, i, j);
      var rest := Walkback(r, h, i - op.Ref(), j - op.Hyp());
      WalkbackRealises(r, h, i - op.Ref(), j - op.Hyp());
      assert Walkback(r, h, i, j) == [op] + rest && ([op] + rest)[1..] == rest;
    } else {
      ZeroDistance(r, h);
    }
  }

  lemma ZeroDistance(r: seq<Label>, h: seq<Label>)
    ensures Distance(r, h, 0, 0) == 0
  {
  }

  lemma {:induction false} WalkbackIsPreferred(t: Script, r: seq<Label>, h: seq<Label>, i: nat, j: nat)
    requires Aligns(t, r, h, i, j) && Edits(t) == Distance(r, h, i, j)
    ensures Preferred(Walkback(r, h, i, j), t)
  {
    if t != [] {
      var i', j' := i - t[0].Ref(), j - t[0].Hyp();
      DistanceIsLowerBound(t[1..], r, h, i', j');
      if t[0] == Choice(r, h, i, j) {
        WalkbackIsPreferred(t[1..], r, h, i', j');
        assert Walkback(r, h, i, j)[1..] == Walkback(r, h, i', j');
      }
    }
  }

  // What any script says about the two sequences.

  ghost predicate Matching(pairs: seq<(nat, nat)>, r: seq<Label>, h: seq<Label>, i: nat, j: nat) {
    && i <= |r| && j <= |h|
    && (forall k | 0 <= k < |pairs| :: pairs[k].0 < i && pairs[k].1 < j && r[pairs[k].0] == h[pairs[k].1])
    && (forall k, l | 0 <= k < l < |pairs| :: pairs[k].0 < pairs[l].0 && pairs[k].1 < pairs[l].1)
  }

  lemma NothingMatched(r: seq<Label>, h: seq<Label>, i: nat, j: nat)
    requires i <= |r| && j <= |h|
    ensures Matching([], r, h, i, j)
  {
  }

  lemma MatchingGrows(pairs: seq<(nat, nat)>, r: seq<Label>, h: seq<Label>, m: nat, n: nat, i: nat, j: nat)
    requires Matching(pairs, r, h, m, n) && m <= i <= |r| && n <= j <= |h|
    ensures Matching(pairs, r, h, i, j)
    ensures m < i && n < j && r[i-1] == h[j-1] ==> Matching(pairs + [(i - 1, j - 1)], r, h, i, j)
  {
  }

  lemma {:induction false} ReadAccounts(s: Script, r: seq<Label>, h: seq<Label>, i: nat, j: nat)
    requires Aligns(s, r, h, i, j)
    ensures var a := Read(s, i, j);
            && Matching(a.pairs, r, h, i, j)
            && a.insertions + a.deletions + a.substitutions == Edits(s)
            && i == |a.pairs| + a.substitutions + a.deletions
            && j == |a.pairs| + a.substitutions + a.insertions
  {
    hide Matching;
    if s == [] {
      NothingMatched(r, h, i, j);
    } else {
      var m, n := i - s[0].Ref(), j - s[0].Hyp();
      ReadAccounts(s[1..], r, h, m, n);
      MatchingGrows(Read(s[1..], m, n).pairs, r, h, m, n, i, j);
    }
  }

  /** Everything promised of an alignment: it is read off an optimal script, the most preferred one. */
  ghost predicate Correct(a: Alignment, r: seq<Label>, h: seq<Label>) {
    exists s :: Optimal(s, r, h) && a == Read(s, |r|, |h|) && forall t | Optimal(t, r, h) :: Preferred(s, t)
  }

  lemma WalkbackIsCorrect(r: seq<Label>, h: seq<Label>)
    ensures Correct(Read(Walkback(r, h, |r|, |h|), |r|, |h|), r, h)
  {
    var s := Walkback(r, h, |r|, |h|);
    WalkbackRealises(r, h, |r|, |h|);
    forall t | Aligns(t, r, h, |r|, |h|) ensures Edits(s) <= Edits(t) {
      DistanceIsLowerBound(t, r, h, |r|, |h|);
    }
    forall t | Optimal(t, r, h) ensures Preferred(s, t) {
      WalkbackIsPreferred(t, r, h, |r|, |h|);
    }
  }

  /** Preference decides every tie, so the promise names one alignment. */
  lemma CorrectIsUnique(a: Alignment, b: Alignment, r: seq<Label>, h: seq<Label>)
    requires Correct(a, r, h) && Correct(b, r, h)
    ensures a == b
  {
    var s :| Optimal(s, r, h) && a == Read(s, |r|, |h|) && forall t | Optimal(t, r, h) :: Preferred(s, t);
    var t :| Optimal(t, r, h) && b == Read(t, |r|, |h|) && forall u | Optimal(u, r, h) :: Preferred(t, u);
    PreferredIsAntisymmetric(s, t);
  }

  lemma {:induction false} PreferredIsAntisymmetric(s: Script, t: Script)
    requires Preferred(s, t) && Preferred(t, s)
    ensures s == t
  {
    if s != [] && t != [] {
      PreferredIsAntisymmetric(s[1..], t[1..]);
    }
  }

  lemma CorrectAccounts(a: Alignment, r: seq<Label>, h: seq<Label>)
    requires Correct(a, r, h)
    ensures Matching(a.pairs, r, h, |r|, |h|)
    ensures forall t | Aligns(t, r, h, |r|, |h|) :: a.insertions + a.deletions + a.substitutions <= Edits(t)
    ensures |r| == |a.pairs| + a.substitutions + a.deletions
    ensures |h| == |a.pairs| + a.substitutions + a.insertions
  {
    var s :| Optimal(s, r, h) && a == Read(s, |r|, |h|);
    ReadAccounts(s, r, h, |r|, |h|);
  }

  lemma {:induction false} SelfWalkback(r: seq<Label>, i: nat)
    requires i <= |r|
    ensures Distance(r, r, i, i) == 0
    ensures var a := Read(Walkback(r, r, i, i), i, i);
            && a.insertions == a.deletions == a.substitutions == 0
            && |a.pairs| == i && forall k | 0 <= k < i :: a.pairs[k] == (k, k)
  {
    if i > 0 {
      SelfWalkback(r, i - 1);
      assert Walkback(r, r, i, i)[1..] == Walkback(r, r, i - 1, i - 1);
    }
  }

  // The two tables.

  ghost predicate Filled(cost: nat, back: Op, r: seq<Label>, h: seq<Label>, i: int, j: int) {
    && 0 <= i <= |r| && 0 <= j <= |h|
    && cost == Distance(r, h, i, j) && (i + j > 0 ==> back == Choice(r, h, i, j))
  }

  ghost predicate Tables(cost: array2<nat>, back: array2<Op>, r: seq<Label>, h: seq<Label>)
    reads cost, back
  {
    && cost.Length0 == back.Length0 == |r| + 1 && cost.Length1 == back.Length1 == |h| + 1
    && forall i, j | 0 <= i <= |r| && 0 <= j <= |h| :: Filled(cost[i, j], back[i, j], r, h, i, j)
  }

  lemma BackEntry(cost: array2<nat>, back: array2<Op>, r: seq<Label>, h: seq<Label>, i: nat, j: nat)
    requires Tables(cost, back, r, h) && i <= |r| && j <= |h| && i + j > 0
    ensures i < back.Length0 && j < back.Length1 && back[i, j] == Choice(r, h, i, j)
  {
  }

  lemma FilledStep(r: seq<Label>, h: seq<Label>, i: nat, j: nat, diagonal: nat, above: nat, left: nat, a: Op, b: Op, c: Op)
    requires 0 < i <= |r| && 0 < j <= |h|
    requires Filled(diagonal, a, r, h, i - 1, j - 1) && Filled(above, b, r, h, i - 1, j) && Filled(left, c, r, h, i, j - 1)
    ensures var (best, op) := Best(r[i-1] == h[j-1], diagonal, above, left); Filled(best, op, r, h, i, j)
  {
  }

  lemma Borders(r: seq<Label>, h: seq<Label>)
    ensures forall op :: Filled(0, op, r, h, 0, 0)
    ensures forall i | 0 < i <= |r| :: Filled(i, Delete, r, h, i, 0)
    ensures forall j | 0 < j <= |h| :: Filled(j, Insert, r, h, 0, j)
  {
  }

  method Fill(r: seq<Label>, h: seq<Label>) returns (cost: array2<nat>, back: array2<Op>)
    ensures fresh(cost) && fresh(back)
    ensures cost.Length0 == back.Length0 == |r| + 1 && cost.Length1 == back.Length1 == |h| + 1
    ensures Tables(cost, back, r, h)
  {
    hide Filled, Best;
    Borders(r, h);
    cost := new nat[|r| + 1, |h| + 1]((_, _) => 0);
    back := new Op[|r| + 1, |h| + 1]((_, _) => Match);
    for i := 1 to |r| + 1
      invariant forall k | 0 <= k < i :: Filled(cost[k, 0], back[k, 0], r, h, k, 0)
    {
      cost[i, 0], back[i, 0] := i, Delete;
    }
    for j := 1 to |h| + 1
      invariant forall k | 0 <= k <= |r| :: Filled(cost[k, 0], back[k, 0], r, h, k, 0)
      invariant forall k | 0 <= k < j :: Filled(cost[0, k], back[0, k], r, h, 0, k)
    {
      cost[0, j], back[0, j] := j, Insert;
    }
    for i := 1 to |r| + 1
      invariant forall k, l | 0 <= k < i && 0 <= l <= |h| :: Filled(cost[k, l], back[k, l], r, h, k, l)
      invariant forall k | 0 <= k <= |r| :: Filled(cost[k, 0], back[k, 0], r, h, k, 0)
    {
      FillRow(cost, back, r, h, i);
    }
  }

  method FillRow(cost: array2<nat>, back: array2<Op>, r: seq<Label>, h: seq<Label>, i: nat)
    requires cost.Length0 == back.Length0 == |r| + 1 && cost.Length1 == back.Length1 == |h| + 1 && 0 < i <= |r|
    requires forall k, l | k == i - 1 && 0 <= l <= |h| :: Filled(cost[k, l], back[k, l], r, h, k, l)
    requires Filled(cost[i, 0], back[i, 0], r, h, i, 0)
    modifies cost, back
    ensures forall l | 0 <= l <= |h| :: Filled(cost[i, l], back[i, l], r, h, i, l)
    ensures forall k, l | 0 <= k <= |r| && 0 <= l <= |h| && k != i :: cost[k, l] == old(cost[k, l]) && back[k, l] == old(back[k, l])
    ensures cost[i, 0] == old(cost[i, 0]) && back[i, 0] == old(back[i, 0])
  {
    hide Filled, Best;
    for j := 1 to |h| + 1
      invariant forall l | 0 <= l < j :: Filled(cost[i, l], back[i, l], r, h, i, l)
      invariant forall k, l | 0 <= k <= |r| && 0 <= l <= |h| && k != i :: cost[k, l] == old(cost[k, l]) && back[k, l] == old(back[k, l])
      invariant cost[i, 0] == old(cost[i, 0]) && back[i, 0] == old(back[i, 0])
    {
      var same := r[i-1] == h[j-1];
      var (best, op) := Best(same, cost[i-1, j-1], cost[i-1, j], cost[i, j-1]);
      FilledStep(r, h, i, j, cost[i-1, j-1], cost[i-1, j], cost[i, j-1],
                 back[i-1, j-1], back[i-1, j], back[i, j-1]);
      cost[i, j], back[i, j] := best, op;
    }
  }

  function Reversed<T>(s: seq<T>): seq<T> {
    if s == [] then [] else [s[|s|-1]] + Reversed(s[..|s|-1])
  }

  // The alignment the walk ends with, from the labels left and what it has collected.
  ghost function Outcome(r: seq<Label>, h: seq<Label>, i: nat, j: nat, pairs: seq<(nat, nat)>,
                         insertions: nat, deletions: nat, substitutions: nat): Alignment
    requires i <= |r| && j <= |h|
  {
    var a := Read(Walkback(r, h, i, j), i, j);
    Alignment(a.pairs + Reversed(pairs), a.insertions + insertions,
              a.deletions + deletions, a.substitutions + substitutions)
  }

  lemma WalkbackStep(r: seq<Label>, h: seq<Label>, i: nat, j: nat)
    requires i <= |r| && j <= |h| && i + j > 0
    ensures var op := Choice(r, h, i, j);
            && op.Ref() <= i && op.Hyp() <= j
            && Walkback(r, h, i, j)[0] == op
            && Walkback(r, h, i, j)[1..] == Walkback(r, h, i - op.Ref(), j - op.Hyp())
  {
  }

  method Align(reference: seq<Label>, hypothesis: seq<Label>) returns (a: Alignment)
    ensures a == Read(Walkback(reference, hypothesis, |reference|, |hypothesis|), |reference|, |hypothesis|)
    ensures Correct(a, reference, hypothesis)
  {
    hide Correct, Distance, Cell, Choice, Filled, Tables;
    WalkbackIsCorrect(reference, hypothesis);
    var cost, back := Fill(reference, hypothesis);
    var pairs: seq<(nat, nat)> := [];
    var insertions, deletions, substitutions := 0, 0, 0;
    var i, j := |reference|, |hypothesis|;
    ghost var goal := Read(Walkback(reference, hypothesis, i, j), i, j);
    while i > 0 || j > 0
      invariant 0 <= i <= |reference| && 0 <= j <= |hypothesis|
      invariant Tables(cost, back, reference, hypothesis)
      invariant Outcome(reference, hypothesis, i, j, pairs, insertions, deletions, substitutions) == goal
      decreases i + j
    {
      BackEntry(cost, back, reference, hypothesis, i, j);
      WalkbackStep(reference, hypothesis, i, j);
      match back[i, j]
      case Match =>
        i, j := i - 1, j - 1;
        pairs := pairs + [(i, j)];
      case Substitute =>
        i, j := i - 1, j - 1;
        substitutions := substitutions + 1;
      case Delete =>
        i := i - 1;
        deletions := deletions + 1;
      case Insert =>
        j := j - 1;
        insertions := insertions + 1;
    }
    a := Alignment(Reversed(pairs), insertions, deletions, substitutions);
  }
}
