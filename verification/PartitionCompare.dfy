/**
 * Comparing two labelings of contexts as partitions.
 *
 * A counting formula over label counts replaces the enumeration of all pairs; the specification is that
 * enumeration.  A context stands for its rank in the sort order.
 */
module PartitionCompare {
  import opened Options

  type Context = int
  type Rows = map<Context, int>

  // Pairs, as a set.

  /** The unordered pairs of positions with equal labels. */
  ghost function SamePairs<T>(s: seq<T>): set<(int, int)> {
    set i, j | 0 <= i < j < |s| && s[i] == s[j] :: (i, j)
  }

  /** The unordered pairs of positions that share a label on exactly one side. */
  ghost function Disagreeing(l: seq<int>, r: seq<int>): set<(int, int)>
    requires |l| == |r|
  {
    set i, j | 0 <= i < j < |l| && (l[i] == l[j]) != (r[i] == r[j]) :: (i, j)
  }

  function Zip(l: seq<int>, r: seq<int>): (z: seq<(int, int)>)
    requires |l| == |r|
    ensures |z| == |l| && forall i | 0 <= i < |l| :: z[i] == (l[i], r[i])
  {
    seq(|l|, i requires 0 <= i < |l| => (l[i], r[i]))
  }

  lemma DifferenceSize<T>(a: set<T>, b: set<T>)
    ensures |a - b| == |a| - |a * b|
  {
  }

  lemma DisagreeingSize(l: seq<int>, r: seq<int>)
    requires |l| == |r|
    ensures |Disagreeing(l, r)| == |SamePairs(l)| + |SamePairs(r)| - 2 * |SamePairs(Zip(l, r))|
  {
    var a, b := SamePairs(l), SamePairs(r);
    assert SamePairs(Zip(l, r)) == a * b;
    assert b * a == a * b;
    assert Disagreeing(l, r) == (a - b) + (b - a);
    DifferenceSize(a, b);
    DifferenceSize(b, a);
  }

  // Counting.

  function Comb2(n: nat): nat {
    n * (n - 1) / 2
  }

  ghost function Count<T>(s: seq<T>, x: T): nat {
    if s == [] then 0 else Count(s[..|s|-1], x) + if s[|s|-1] == x then 1 else 0
  }

  ghost function SumComb2<T>(s: seq<T>, labels: set<T>): nat {
    if labels == {} then 0
    else var x :| x in labels; Comb2(Count(s, x)) + SumComb2(s, labels - {x})
  }

  lemma {:induction false} TakeOut<T>(s: seq<T>, labels: set<T>, x: T)
    requires x in labels
    ensures SumComb2(s, labels) == Comb2(Count(s, x)) + SumComb2(s, labels - {x})
    decreases |labels|
  {
    var y :| y in labels && SumComb2(s, labels) == Comb2(Count(s, y)) + SumComb2(s, labels - {y});
    if y != x {
      TakeOut(s, labels - {y}, x);
      TakeOut(s, labels - {x}, y);
      assert labels - {y} - {x} == labels - {x} - {y};
    }
  }

  lemma {:induction false} OtherLabels<T>(s: seq<T>, labels: set<T>, x: T)
    requires x !in labels
    ensures SumComb2(s + [x], labels) == SumComb2(s, labels)
    decreases |labels|
  {
    if labels != {} {
      var y :| y in labels;
      TakeOut(s, labels, y);
      TakeOut(s + [x], labels, y);
      OtherLabels(s, labels - {y}, x);
      assert (s + [x])[..|s|] == s;
    }
  }

  lemma {:induction false} FreshPairs<T>(s: seq<T>, n: nat, x: T)
    requires n <= |s|
    ensures |set i | 0 <= i < n && s[i] == x :: (i, |s|)| == Count(s[..n], x)
  {
    var now := set i | 0 <= i < n && s[i] == x :: (i, |s|);
    if n == 0 {
      assert now == {};
    } else {
      FreshPairs(s, n - 1, x);
      var before := set i | 0 <= i < n - 1 && s[i] == x :: (i, |s|);
      assert s[..n][..n-1] == s[..n-1];
      assert now == before + if s[n-1] == x then {(n - 1, |s|)} else {};
    }
  }

  lemma {:induction false} CountingPairs<T>(s: seq<T>, labels: set<T>)
    requires forall x | x in s :: x in labels
    ensures SumComb2(s, labels) == |SamePairs(s)|
  {
    if s == [] {
      NoPairs(s, labels);
    } else {
      var prefix, x := s[..|s|-1], s[|s|-1];
      assert s == prefix + [x];
      CountingPairs(prefix, labels);
      AppendSum(prefix, labels, x);
      AppendPairs(prefix, x);
    }
  }

  lemma AppendSum<T>(s: seq<T>, labels: set<T>, x: T)
    requires x in labels
    ensures SumComb2(s + [x], labels) == SumComb2(s, labels) + Count(s, x)
  {
    TakeOut(s + [x], labels, x);
    TakeOut(s, labels, x);
    OtherLabels(s, labels - {x}, x);
    assert (s + [x])[..|s|] == s;
    Comb2Step(Count(s, x));
  }

  lemma AppendPairs<T>(s: seq<T>, x: T)
    ensures |SamePairs(s + [x])| == |SamePairs(s)| + Count(s, x)
  {
    FreshPairs(s, |s|, x);
    assert s[..|s|] == s;
    var added := set i | 0 <= i < |s| && s[i] == x :: (i, |s|);
    assert SamePairs(s + [x]) == SamePairs(s) + added;
    assert SamePairs(s) !! added;
  }

  lemma Comb2Step(n: nat)
    ensures Comb2(n + 1) == Comb2(n) + n
  {
    assert (n + 1) * n == n * (n - 1) + 2 * n;
  }

  lemma {:induction false} NoPairs<T>(s: seq<T>, labels: set<T>)
    requires s == []
    ensures SumComb2(s, labels) == 0 && SamePairs(s) == {}
    decreases |labels|
  {
    if labels != {} {
      var y :| y in labels;
      TakeOut(s, labels, y);
      NoPairs(s, labels - {y});
    }
  }

  method Counter<T(==)>(s: seq<T>) returns (m: map<T, nat>)
    ensures forall x :: x in m <==> x in s
    ensures forall x | x in m :: m[x] == Count(s, x)
  {
    m := map[];
    for k := 0 to |s|
      invariant forall x :: x in m <==> x in s[..k]
      invariant forall x | x in m :: m[x] == Count(s[..k], x)
    {
      assert s[..k+1][..k] == s[..k];
      Absent(s[..k], s[k]);
      m := m[s[k] := (if s[k] in m then m[s[k]] else 0) + 1];
    }
    assert s[..|s|] == s;
  }

  lemma {:induction false} Absent<T>(s: seq<T>, x: T)
    ensures x !in s ==> Count(s, x) == 0
  {
    if s != [] {
      Absent(s[..|s|-1], x);
    }
  }

  // The sum over Counter(s).values().
  method PairCount<T(==)>(s: seq<T>) returns (total: nat, parts: nat)
    ensures total == |SamePairs(s)|
    ensures parts == |set x | x in s|
  {
    var counts := Counter(s);
    total := 0;
    var rest := counts.Keys;
    while rest != {}
      invariant rest <= counts.Keys
      invariant total + SumComb2(s, rest) == SumComb2(s, counts.Keys)
      decreases rest
    {
      var x :| x in rest;
      TakeOut(s, rest, x);
      total := total + Comb2(counts[x]);
      rest := rest - {x};
    }
    CountingPairs(s, counts.Keys);
    parts := |counts.Keys|;
    assert counts.Keys == set x | x in s;
  }

  // Partitions.

  /** The parts a labeling makes: the sets of contexts that share a label. */
  ghost function Parts(rows: Rows): set<set<Context>> {
    set c | c in rows :: Part(rows, c)
  }

  ghost function Part(rows: Rows, c: Context): set<Context>
    requires c in rows
  {
    set d | d in rows && rows[d] == rows[c]
  }

  /** The two labelings agree about every pair of contexts. */
  ghost predicate SamePartition(l: Rows, r: Rows) {
    l.Keys == r.Keys && forall c, d | c in l && d in l :: l[c] == l[d] <==> r[c] == r[d]
  }

  lemma SamePartitionIffSameParts(l: Rows, r: Rows)
    ensures SamePartition(l, r) <==> Parts(l) == Parts(r)
  {
    if SamePartition(l, r) {
      assert forall c | c in l :: c in r;
      forall c | c in l ensures Part(l, c) == Part(r, c) {
        assert forall d :: d in Part(l, c) <==> d in Part(r, c);
      }
    }
    if Parts(l) == Parts(r) {
      forall c ensures c in l <==> c in r {
        if c in l { PartOf(l, r, c); }
        if c in r { PartOf(r, l, c); }
      }
      forall c, d | c in l && d in l ensures l[c] == l[d] <==> r[c] == r[d] {
        PartOf(l, r, c);
        assert d in Part(l, c) <==> d in Part(r, c);
      }
      assert l.Keys == r.Keys;
    }
  }

  lemma PartOf(l: Rows, r: Rows, c: Context)
    requires Parts(l) == Parts(r) && c in l
    ensures c in r && Part(l, c) == Part(r, c)
  {
    assert Part(l, c) in Parts(r);
    var d :| d in r && Part(r, d) == Part(l, c);
    assert c in Part(r, d);
    assert Part(r, d) == Part(r, c);
  }

  // Sorted contexts.

  ghost predicate Increasing(s: seq<Context>) {
    forall i, j | 0 <= i < j < |s| :: s[i] < s[j]
  }

  /** s is the sorted list of a set. */
  ghost predicate Lists(s: seq<Context>, keys: set<Context>) {
    Increasing(s) && (forall i | 0 <= i < |s| :: s[i] in keys) && forall c | c in keys :: c in s
  }

  lemma {:induction false} Least(s: set<Context>) returns (m: Context)
    requires s != {}
    ensures m in s && forall c | c in s :: m <= c
  {
    var x := Pick(s);
    m := x;
    var rest := s - {x};
    if rest != {} {
      var k := Least(rest);
      m := if k < x then k else x;
    }
    assert forall c | c in s :: c == x || c in rest;
  }

  method Sorted(s: set<Context>) returns (r: seq<Context>)
    ensures Lists(r, s)
  {
    r := [];
    var rest := s;
    while rest != {}
      invariant Increasing(r) && rest <= s
      invariant forall i | 0 <= i < |r| :: r[i] in s && forall d | d in rest :: r[i] < d
      invariant forall c | c in s :: c in r || c in rest
      decreases rest
    {
      ghost var least := Least(rest);
      var m :| m in rest && forall c | c in rest :: m <= c;
      r := r + [m];
      rest := rest - {m};
    }
  }

  function Labels(rows: Rows, s: seq<Context>): (l: seq<int>)
    requires forall i | 0 <= i < |s| :: s[i] in rows
    ensures |l| == |s| && forall i | 0 <= i < |s| :: l[i] == rows[s[i]]
  {
    seq(|s|, i requires 0 <= i < |s| => rows[s[i]])
  }

  // The parts of the listed contexts.

  function On(s: seq<Context>, rows: Rows): (m: Rows)
    requires forall i | 0 <= i < |s| :: s[i] in rows
    ensures m.Keys == (set c | c in s) && forall c | c in s :: m[c] == rows[c]
  {
    map c | c in s :: rows[c]
  }

  ghost function Labelled(rows: Rows, x: int): set<Context> {
    set d | d in rows && rows[d] == x
  }

  lemma {:induction false} AsManyAsLabels(rows: Rows, labels: set<int>)
    requires forall x | x in labels :: Labelled(rows, x) != {}
    ensures |set x | x in labels :: Labelled(rows, x)| == |labels|
    decreases |labels|
  {
    if labels == {} {
      assert (set x | x in labels :: Labelled(rows, x)) == {};
    } else {
      var y := Pick(labels);
      var rest := labels - {y};
      AsManyAsLabels(rows, rest);
      var c := Pick(Labelled(rows, y));
      var before := set x | x in rest :: Labelled(rows, x);
      assert Labelled(rows, y) !in before;
      assert (set x | x in labels :: Labelled(rows, x)) == before + {Labelled(rows, y)};
    }
  }

  /** The number of distinct labels of the listed contexts is that of the parts they are in. */
  lemma LabelsAreParts(s: seq<Context>, rows: Rows)
    requires forall i | 0 <= i < |s| :: s[i] in rows
    ensures |set x | x in Labels(rows, s)| == |Parts(On(s, rows))|
  {
    var m, labels := On(s, rows), set x | x in Labels(rows, s);
    forall x | x in labels ensures exists c :: c in s && c in Labelled(m, x) {
      var i :| 0 <= i < |s| && Labels(rows, s)[i] == x;
      var c := s[i];
      assert c in s && c in Labelled(m, x);
    }
    AsManyAsLabels(m, labels);
    forall p ensures p in Parts(m) <==> exists x :: x in labels && p == Labelled(m, x) {
      if p in Parts(m) {
        var c :| c in m && p == Part(m, c);
        var i :| 0 <= i < |s| && s[i] == c;
        assert Labels(rows, s)[i] == m[c] && m[c] in labels && p == Labelled(m, m[c]);
      }
      if exists x :: x in labels && p == Labelled(m, x) {
        var x :| x in labels && p == Labelled(m, x);
        var c :| c in s && c in Labelled(m, x);
        assert p == Part(m, c);
      }
    }
    assert Parts(m) == set x | x in labels :: Labelled(m, x);
  }

  lemma LabelsAgree(l: Rows, l': Rows, s: seq<Context>)
    requires SamePartition(l, l') && forall i | 0 <= i < |s| :: s[i] in l
    ensures forall i, j | 0 <= i < |s| && 0 <= j < |s| ::
              (Labels(l, s)[i] == Labels(l, s)[j]) == (Labels(l', s)[i] == Labels(l', s)[j])
  {
    forall i, j | 0 <= i < |s| && 0 <= j < |s|
      ensures (Labels(l, s)[i] == Labels(l, s)[j]) == (Labels(l', s)[i] == Labels(l', s)[j])
    {
      var c, d := s[i], s[j];
      assert c in l && d in l && (l[c] == l[d] <==> l'[c] == l'[d]);
    }
  }

  /** Senone numbers do not matter: every number reported, and what counts as a disagreement, is told by the parts alone. */
  lemma RelabelingIsInvisible(l: Rows, l': Rows, r: Rows, r': Rows, common: seq<Context>)
    requires Parts(l) == Parts(l') && Parts(r) == Parts(r')
    requires forall i | 0 <= i < |common| :: common[i] in l && common[i] in r
    ensures l.Keys == l'.Keys && r.Keys == r'.Keys
    ensures Disagreeing(Labels(l', common), Labels(r', common)) == Disagreeing(Labels(l, common), Labels(r, common))
    ensures Parts(On(common, l')) == Parts(On(common, l)) && Parts(On(common, r')) == Parts(On(common, r))
    ensures forall s :: Genuine(s, l', r') <==> Genuine(s, l, r)
  {
    SamePartitionIffSameParts(l, l');
    SamePartitionIffSameParts(r, r');
    SamePartitionIffSameParts(On(common, l), On(common, l'));
    SamePartitionIffSameParts(On(common, r), On(common, r'));
    LabelsAgree(l, l', common);
    LabelsAgree(r, r', common);
    assert Disagreeing(Labels(l', common), Labels(r', common)) == Disagreeing(Labels(l, common), Labels(r, common));
  }

  // Samples.  A group lists its contexts in order of insertion, one for each label on the other side.

  type Group = seq<(int, Context)>

  function SetDefault(g: Group, other: int, c: Context): Group {
    if exists k | 0 <= k < |g| :: g[k].0 == other then g else g + [(other, c)]
  }

  ghost predicate HasEntry(g: Group, other: int) {
    exists k :: 0 <= k < |g| && g[k].0 == other
  }

  /** Contexts in one group share the key and differ in the other label. */
  ghost predicate GroupOf(g: Group, key: int, own: Rows, opposite: Rows) {
    && (forall k | 0 <= k < |g| ::
          g[k].1 in own && g[k].1 in opposite && own[g[k].1] == key && opposite[g[k].1] == g[k].0)
    && (forall k, l | 0 <= k < l < |g| :: g[k].0 != g[l].0)
  }

  ghost predicate FromSeen(g: Group, seen: seq<Context>) {
    forall k | 0 <= k < |g| :: g[k].1 in seen
  }

  ghost predicate GroupsOf(gs: map<int, Group>, own: Rows, opposite: Rows, seen: seq<Context>) {
    && (forall key | key in gs :: gs[key] != [] && GroupOf(gs[key], key, own, opposite) && FromSeen(gs[key], seen))
    && (forall c | c in seen && c in own && c in opposite :: own[c] in gs && HasEntry(gs[own[c]], opposite[c]))
  }

  lemma GroupGrows(g: Group, other: int, c: Context, own: Rows, opposite: Rows)
    requires c in own && c in opposite && opposite[c] == other && GroupOf(g, own[c], own, opposite)
    ensures var h := SetDefault(g, other, c);
            GroupOf(h, own[c], own, opposite) && HasEntry(h, other) && forall o | HasEntry(g, o) :: HasEntry(h, o)
  {
    var h := SetDefault(g, other, c);
    assert h == g || h[|g|] == (other, c);
    assert forall k | 0 <= k < |g| :: h[k] == g[k];
  }

  lemma StillFromSeen(g: Group, other: int, c: Context, seen: seq<Context>)
    requires FromSeen(g, seen)
    ensures FromSeen(g, seen + [c]) && FromSeen(SetDefault(g, other, c), seen + [c])
  {
  }

  method GroupBy(common: seq<Context>, own: Rows, opposite: Rows) returns (gs: map<int, Group>)
    requires forall i | 0 <= i < |common| :: common[i] in own && common[i] in opposite
    ensures GroupsOf(gs, own, opposite, common)
  {
    hide GroupsOf;
    gs := map[];
    NoGroups(own, opposite);
    for i := 0 to |common|
      invariant GroupsOf(gs, own, opposite, common[..i])
    {
      var c := common[i];
      var key, other := own[c], opposite[c];
      var g := if key in gs then gs[key] else [];
      GroupsGrow(gs, own, opposite, common[..i], c);
      gs := gs[key := SetDefault(g, other, c)];
      assert common[..i+1] == common[..i] + [c];
    }
    assert common[..|common|] == common;
  }

  lemma NoGroups(own: Rows, opposite: Rows)
    ensures GroupsOf(map[], own, opposite, [])
  {
  }

  lemma GroupsGrow(gs: map<int, Group>, own: Rows, opposite: Rows, seen: seq<Context>, c: Context)
    requires GroupsOf(gs, own, opposite, seen) && c in own && c in opposite
    ensures var g := if own[c] in gs then gs[own[c]] else [];
            GroupsOf(gs[own[c] := SetDefault(g, opposite[c], c)], own, opposite, seen + [c])
  {
    hide GroupOf, FromSeen, HasEntry, SetDefault;
    var g := if own[c] in gs then gs[own[c]] else [];
    var h := SetDefault(g, opposite[c], c);
    EmptyGroup(own[c], own, opposite, seen);
    GroupGrows(g, opposite[c], c, own, opposite);
    StillFromSeen(g, opposite[c], c, seen);
    NotEmpty(g, opposite[c], c);
    forall k | k in gs ensures FromSeen(gs[k], seen + [c]) {
      StillFromSeen(gs[k], 0, c, seen);
    }
  }

  lemma EmptyGroup(key: int, own: Rows, opposite: Rows, seen: seq<Context>)
    ensures GroupOf([], key, own, opposite) && FromSeen([], seen)
  {
  }

  lemma NotEmpty(g: Group, other: int, c: Context)
    ensures SetDefault(g, other, c) != []
  {
  }

  datatype Sample = Sample(first: Context, second: Context, sharedLeft: bool)

  /** A pair of contexts that share a senone on the named side and on no other. */
  ghost predicate Genuine(s: Sample, l: Rows, r: Rows) {
    && s.first in l && s.first in r && s.second in l && s.second in r && s.first < s.second
    && (l[s.first] == l[s.second]) == s.sharedLeft
    && (r[s.first] == r[s.second]) == !s.sharedLeft
  }

  ghost predicate AllGenuine(ss: seq<Sample>, l: Rows, r: Rows) {
    forall k | 0 <= k < |ss| :: Genuine(ss[k], l, r)
  }

  /** No pair comes twice, on whichever side it is shared. */
  ghost predicate AllDistinct(ss: seq<Sample>) {
    forall i, j | 0 <= i < j < |ss| :: ss[i].first != ss[j].first || ss[i].second != ss[j].second
  }

  /** seen holds exactly the sampled pairs. */
  ghost predicate Sampled(seen: set<(Context, Context)>, ss: seq<Sample>) {
    && (forall k | 0 <= k < |ss| :: (ss[k].first, ss[k].second) in seen)
    && forall p | p in seen :: exists k :: 0 <= k < |ss| && p == (ss[k].first, ss[k].second)
  }

  lemma SampleOne(seen: set<(Context, Context)>, ss: seq<Sample>, s: Sample)
    requires Sampled(seen, ss) && AllDistinct(ss) && (s.first, s.second) !in seen
    ensures Sampled(seen + {(s.first, s.second)}, ss + [s]) && AllDistinct(ss + [s])
  {
    var next := ss + [s];
    forall p | p in seen + {(s.first, s.second)} ensures exists k :: 0 <= k < |next| && p == (next[k].first, next[k].second) {
      if p in seen {
        var k :| 0 <= k < |ss| && p == (ss[k].first, ss[k].second);
        assert next[k] == ss[k];
      } else {
        assert next[|ss|] == s;
      }
    }
  }

  // How many neighbours the groups have.

  ghost function Surplus<K>(gs: map<K, Group>, keys: set<K>): int
    requires keys <= gs.Keys
  {
    if keys == {} then 0
    else var x :| x in keys; |gs[x]| - 1 + Surplus(gs, keys - {x})
  }

  lemma {:induction false} SurplusWithout<K>(gs: map<K, Group>, keys: set<K>, x: K)
    requires keys <= gs.Keys && x in keys
    ensures Surplus(gs, keys) == |gs[x]| - 1 + Surplus(gs, keys - {x})
    decreases |keys|
  {
    var y :| y in keys && Surplus(gs, keys) == |gs[y]| - 1 + Surplus(gs, keys - {y});
    if y != x {
      SurplusWithout(gs, keys - {y}, x);
      SurplusWithout(gs, keys - {x}, y);
      assert keys - {y} - {x} == keys - {x} - {y};
    }
  }

  lemma SurplusWith(gs: map<int, Group>, keys: set<int>, x: int)
    requires keys <= gs.Keys && x in gs && x !in keys
    ensures Surplus(gs, keys + {x}) == Surplus(gs, keys) + |gs[x]| - 1
  {
    SurplusWithout(gs, keys + {x}, x);
    assert keys + {x} - {x} == keys;
  }

  ghost function Entries(gs: map<int, Group>, keys: set<int>): set<(int, int)>
    requires keys <= gs.Keys
  {
    set key, k | key in keys && 0 <= k < |gs[key]| :: (key, gs[key][k].0)
  }

  lemma EntryIsThere(gs: map<int, Group>, key: int, k: nat)
    requires key in gs && k < |gs[key]|
    ensures (key, gs[key][k].0) in Entries(gs, gs.Keys)
  {
  }

  lemma {:induction false} GroupEntries(g: Group, x: int, n: nat)
    requires n <= |g| && forall k, l | 0 <= k < l < |g| :: g[k].0 != g[l].0
    ensures |set k | 0 <= k < n :: (x, g[k].0)| == n
  {
    var now := set k | 0 <= k < n :: (x, g[k].0);
    if n == 0 {
      assert now == {};
    } else {
      GroupEntries(g, x, n - 1);
      var before := set k | 0 <= k < n - 1 :: (x, g[k].0);
      assert (x, g[n-1].0) !in before;
      assert now == before + {(x, g[n-1].0)};
    }
  }

  lemma {:induction false} EntriesSize(gs: map<int, Group>, keys: set<int>)
    requires keys <= gs.Keys
    requires forall key | key in keys :: forall k, l | 0 <= k < l < |gs[key]| :: gs[key][k].0 != gs[key][l].0
    ensures |Entries(gs, keys)| == Surplus(gs, keys) + |keys|
    decreases |keys|
  {
    if keys == {} {
      assert Entries(gs, keys) == {};
    } else {
      var x := Pick(keys);
      EntriesSize(gs, keys - {x});
      SurplusWithout(gs, keys, x);
      GroupEntries(gs[x], x, |gs[x]|);
      SplitEntries(gs, keys, x);
    }
  }

  lemma SplitEntries(gs: map<int, Group>, keys: set<int>, x: int)
    requires keys <= gs.Keys && x in keys
    ensures |Entries(gs, keys)| == |Entries(gs, keys - {x})| + |set k | 0 <= k < |gs[x]| :: (x, gs[x][k].0)|
  {
    var mine := set k | 0 <= k < |gs[x]| :: (x, gs[x][k].0);
    var others := Entries(gs, keys - {x});
    assert mine !! others;
    assert Entries(gs, keys) == mine + others;
  }

  ghost function LabelSet(common: seq<Context>, own: Rows): set<int>
    requires forall i | 0 <= i < |common| :: common[i] in own
  {
    set i | 0 <= i < |common| :: own[common[i]]
  }

  /** The distinct pairs of labels. */
  ghost function JointSet(common: seq<Context>, own: Rows, opposite: Rows): set<(int, int)>
    requires forall i | 0 <= i < |common| :: common[i] in own && common[i] in opposite
  {
    set i | 0 <= i < |common| :: (own[common[i]], opposite[common[i]])
  }

  lemma GroupsCount(gs: map<int, Group>, common: seq<Context>, own: Rows, opposite: Rows)
    requires forall i | 0 <= i < |common| :: common[i] in own && common[i] in opposite
    requires GroupsOf(gs, own, opposite, common)
    ensures Surplus(gs, gs.Keys) == |JointSet(common, own, opposite)| - |LabelSet(common, own)|
  {
    EntriesSize(gs, gs.Keys);
    GroupKeys(gs, common, own, opposite);
    forall p | p in Entries(gs, gs.Keys) ensures p in JointSet(common, own, opposite) {
      var key, k :| key in gs.Keys && 0 <= k < |gs[key]| && p == (key, gs[key][k].0);
      assert GroupOf(gs[key], key, own, opposite) && FromSeen(gs[key], common);
      var c := gs[key][k].1;
      assert c in common && p == (own[c], opposite[c]);
      var i :| 0 <= i < |common| && common[i] == c;
    }
    forall p | p in JointSet(common, own, opposite) ensures p in Entries(gs, gs.Keys) {
      var i :| 0 <= i < |common| && p == (own[common[i]], opposite[common[i]]);
      var c := common[i];
      assert c in common && c in own && c in opposite;
      var k :| 0 <= k < |gs[own[c]]| && gs[own[c]][k].0 == opposite[c];
      EntryIsThere(gs, own[c], k);
    }
    assert Entries(gs, gs.Keys) == JointSet(common, own, opposite);
  }

  lemma GroupKeys(gs: map<int, Group>, common: seq<Context>, own: Rows, opposite: Rows)
    requires forall i | 0 <= i < |common| :: common[i] in own && common[i] in opposite
    requires GroupsOf(gs, own, opposite, common)
    ensures gs.Keys == LabelSet(common, own)
  {
    forall key ensures key in gs <==> key in LabelSet(common, own) {
      if key in gs {
        assert GroupOf(gs[key], key, own, opposite) && FromSeen(gs[key], common);
        var c := gs[key][0].1;
        assert c in common && own[c] == key;
        var i :| 0 <= i < |common| && common[i] == c;
      }
      if key in LabelSet(common, own) {
        var i :| 0 <= i < |common| && own[common[i]] == key;
        var c := common[i];
        assert c in common && c in own && c in opposite;
      }
    }
  }

  lemma JointSwapped(common: seq<Context>, l: Rows, r: Rows)
    requires forall i | 0 <= i < |common| :: common[i] in l && common[i] in r
    ensures |JointSet(common, r, l)| == |JointSet(common, l, r)|
  {
    SwappedSize(JointSet(common, l, r));
    var swapped := set p | p in JointSet(common, l, r) :: (p.1, p.0);
    forall q ensures q in swapped <==> q in JointSet(common, r, l) {
      if q in swapped {
        assert (q.1, q.0) in JointSet(common, l, r);
      }
      if q in JointSet(common, r, l) {
        assert (q.1, q.0) in JointSet(common, l, r);
      }
    }
    assert swapped == JointSet(common, r, l);
  }

  lemma {:induction false} SwappedSize(s: set<(int, int)>)
    ensures |set p | p in s :: (p.1, p.0)| == |s|
  {
    var swapped := set p | p in s :: (p.1, p.0);
    if s == {} {
      assert swapped == {};
    } else {
      var x := Pick(s);
      SwappedSize(s - {x});
      var rest := set p | p in s - {x} :: (p.1, p.0);
      assert (x.1, x.0) !in rest;
      forall q ensures q in swapped <==> q in rest || q == (x.1, x.0) {
        if q in swapped && q != (x.1, x.0) {
          assert (q.1, q.0) in s - {x};
        }
      }
      assert swapped == rest + {(x.1, x.0)};
    }
  }

  /** How many samples there are without a limit: each side's labels, met with several of the other's, in turn. */
  ghost function SampleCount(common: seq<Context>, l: Rows, r: Rows): int
    requires forall i | 0 <= i < |common| :: common[i] in l && common[i] in r
  {
    2 * |JointSet(common, l, r)| - |LabelSet(common, l)| - |LabelSet(common, r)|
  }

  // Where the samples of one side come from: groups done, and the first k neighbours of the group at hand.

  ghost predicate Neighbours(s: Sample, g: Group, k: int) {
    exists j :: 0 <= j < k && j + 1 < |g| && IsPair(s, g[j].1, g[j+1].1)
  }

  ghost predicate IsPair(s: Sample, a: Context, b: Context) {
    (s.first == a && s.second == b) || (s.first == b && s.second == a)
  }

  ghost predicate FromGroups(ss: seq<Sample>, n: nat, left: bool, own: Rows, done: set<int>, g: Group, k: int) {
    && n <= |ss|
    && (forall i | 0 <= i < n :: ss[i].sharedLeft == !left)
    && forall i | n <= i < |ss| ::
         ss[i].sharedLeft == left && ss[i].first in own && (own[ss[i].first] in done || Neighbours(ss[i], g, k))
  }

  // So the next neighbours were not sampled before: the guard against repetition never applies.
  lemma NotSeenYet(ss: seq<Sample>, n: nat, seen: set<(Context, Context)>, left: bool, l: Rows, r: Rows,
                   done: set<int>, g: Group, k: int, key: int, s: Sample)
    requires Sampled(seen, ss) && AllGenuine(ss, l, r) && FromGroups(ss, n, left, if left then l else r, done, g, k)
    requires GroupOf(g, key, if left then l else r, if left then r else l) && key !in done && 0 <= k && k + 1 < |g|
    requires IsPair(s, g[k].1, g[k+1].1)
    ensures (s.first, s.second) !in seen
  {
    if (s.first, s.second) in seen {
      var i :| 0 <= i < |ss| && (s.first, s.second) == (ss[i].first, ss[i].second);
      assert Genuine(ss[i], l, r);
      if i >= n && Neighbours(ss[i], g, k) {
        var j :| 0 <= j < k && j + 1 < |g| && IsPair(ss[i], g[j].1, g[j+1].1);
        DistinctContexts(g, key, if left then l else r, if left then r else l);
      }
    }
  }

  lemma DistinctContexts(g: Group, key: int, own: Rows, opposite: Rows)
    requires GroupOf(g, key, own, opposite)
    ensures forall i, j | 0 <= i < |g| && 0 <= j < |g| && i != j :: g[i].1 != g[j].1
  {
    forall i, j | 0 <= i < |g| && 0 <= j < |g| && i != j ensures g[i].1 != g[j].1 {
      assert g[i].0 != g[j].0 by {
        if i < j { assert g[i].0 != g[j].0; } else { assert g[j].0 != g[i].0; }
      }
    }
  }

  lemma OneMore(ss: seq<Sample>, n: nat, left: bool, l: Rows, r: Rows, done: set<int>, g: Group, k: int, key: int, s: Sample)
    requires AllGenuine(ss, l, r) && FromGroups(ss, n, left, if left then l else r, done, g, k)
    requires GroupOf(g, key, if left then l else r, if left then r else l) && 0 <= k && k + 1 < |g|
    requires IsPair(s, g[k].1, g[k+1].1) && s.first < s.second && s.sharedLeft == left
    ensures AllGenuine(ss + [s], l, r) && FromGroups(ss + [s], n, left, if left then l else r, done, g, k + 1)
  {
    var own, more := if left then l else r, ss + [s];
    assert g[k].0 != g[k+1].0;
    forall i | n <= i < |more|
      ensures more[i].sharedLeft == left && more[i].first in own && (own[more[i].first] in done || Neighbours(more[i], g, k + 1))
    {
      if i < |ss| && Neighbours(ss[i], g, k) {
        var j :| 0 <= j < k && j + 1 < |g| && IsPair(ss[i], g[j].1, g[j+1].1);
        assert IsPair(more[i], g[j].1, g[j+1].1);
      }
    }
  }

  lemma NextGroup(ss: seq<Sample>, n: nat, left: bool, l: Rows, r: Rows, done: set<int>, g: Group, k: int, key: int, h: Group)
    requires FromGroups(ss, n, left, if left then l else r, done, g, k)
    requires GroupOf(g, key, if left then l else r, if left then r else l)
    ensures FromGroups(ss, n, left, if left then l else r, done + {key}, h, 0)
  {
    var own := if left then l else r;
    forall i | n <= i < |ss| ensures own[ss[i].first] in done + {key} {
      if Neighbours(ss[i], g, k) {
        var j :| 0 <= j < k && j + 1 < |g| && IsPair(ss[i], g[j].1, g[j+1].1);
        assert own[g[j].1] == key && own[g[j+1].1] == key;
      }
    }
  }

  // The neighbours in the groups of one side, until the limit.
  method Collect(gs: map<int, Group>, l: Rows, r: Rows, left: bool, limit: nat, before: seq<Sample>, already: set<(Context, Context)>)
    returns (samples: seq<Sample>, seen: set<(Context, Context)>, full: bool)
    requires forall key | key in gs :: gs[key] != [] && GroupOf(gs[key], key, if left then l else r, if left then r else l)
    requires AllGenuine(before, l, r) && (limit > 0 ==> |before| < limit)
    requires AllDistinct(before) && Sampled(already, before)
    requires forall i | 0 <= i < |before| :: before[i].sharedLeft == !left
    ensures AllGenuine(samples, l, r) && AllDistinct(samples) && Sampled(seen, samples)
    ensures before <= samples && forall i | |before| <= i < |samples| :: samples[i].sharedLeft == left
    ensures full ==> 0 < |samples| == limit <= |before| + Surplus(gs, gs.Keys)
    ensures !full ==> |samples| == |before| + Surplus(gs, gs.Keys) && (limit > 0 ==> |samples| < limit)
  {
    hide AllDistinct, Sampled, FromGroups, AllGenuine, GroupOf, IsPair, Surplus, Genuine;
    samples, seen, full := before, already, false;
    var rest := gs.Keys;
    ghost var done: set<int> := {};
    NothingCollected(before, left, if left then l else r, gs);
    while rest != {}
      invariant gs.Keys == done + rest && done !! rest
      invariant AllGenuine(samples, l, r) && (limit > 0 ==> |samples| < limit)
      invariant before <= samples && AllDistinct(samples) && Sampled(seen, samples)
      invariant FromGroups(samples, |before|, left, if left then l else r, done, [], 0)
      invariant |samples| == |before| + Surplus(gs, done)
      decreases rest
    {
      ghost var some := Pick(rest);
      var key :| key in rest;
      var g := gs[key];
      AnyGroup(samples, |before|, left, if left then l else r, done, g);
      SurplusWith(gs, done, key);
      for k := 0 to |g| - 1
        invariant AllGenuine(samples, l, r) && (limit > 0 ==> |samples| < limit)
        invariant before <= samples && AllDistinct(samples) && Sampled(seen, samples)
        invariant FromGroups(samples, |before|, left, if left then l else r, done, g, k)
        invariant |samples| == |before| + Surplus(gs, done) + k
      {
        var a, b := g[k].1, g[k+1].1;
        InOrder(g, key, if left then l else r, if left then r else l, k);
        var pair := if a < b then (a, b) else (b, a);
        ghost var sample := Sample(pair.0, pair.1, left);
        ThePair(a, b, sample);
        NotSeenYet(samples, |before|, seen, left, l, r, done, g, k, key, sample);
        if pair in seen {
          continue;
        }
        SampleOne(seen, samples, sample);
        OneMore(samples, |before|, left, l, r, done, g, k, key, sample);
        seen := seen + {pair};
        samples := samples + [Sample(pair.0, pair.1, left)];
        if |samples| == limit {
          SurplusGrows(gs, done + {key});
          OnThisSide(samples, |before|, left, if left then l else r, done, g, k + 1);
          return samples, seen, true;
        }
      }
      NextGroup(samples, |before|, left, l, r, done, g, |g| - 1, key, []);
      rest := rest - {key};
      done := done + {key};
    }
    assert done == gs.Keys;
    OnThisSide(samples, |before|, left, if left then l else r, done, [], 0);
  }

  lemma NothingCollected(before: seq<Sample>, left: bool, own: Rows, gs: map<int, Group>)
    requires forall i | 0 <= i < |before| :: before[i].sharedLeft == !left
    ensures FromGroups(before, |before|, left, own, {}, [], 0) && Surplus(gs, {}) == 0
  {
  }

  lemma AnyGroup(ss: seq<Sample>, n: nat, left: bool, own: Rows, done: set<int>, g: Group)
    requires FromGroups(ss, n, left, own, done, [], 0)
    ensures FromGroups(ss, n, left, own, done, g, 0)
  {
  }

  lemma OnThisSide(ss: seq<Sample>, n: nat, left: bool, own: Rows, done: set<int>, g: Group, k: int)
    requires FromGroups(ss, n, left, own, done, g, k)
    ensures forall i | n <= i < |ss| :: ss[i].sharedLeft == left
  {
  }

  lemma InOrder(g: Group, key: int, own: Rows, opposite: Rows, k: nat)
    requires GroupOf(g, key, own, opposite) && k + 1 < |g|
    ensures g[k].1 != g[k+1].1
  {
    DistinctContexts(g, key, own, opposite);
  }

  lemma ThePair(a: Context, b: Context, s: Sample)
    requires a != b && (s.first, s.second) == if a < b then (a, b) else (b, a)
    ensures IsPair(s, a, b) && s.first < s.second
  {
  }

  lemma {:induction false} SurplusGrows(gs: map<int, Group>, keys: set<int>)
    requires keys <= gs.Keys && forall key | key in gs :: gs[key] != []
    ensures Surplus(gs, keys) <= Surplus(gs, gs.Keys)
    decreases |gs.Keys - keys|
  {
    if gs.Keys - keys == {} {
      assert keys == gs.Keys;
    } else {
      var x := Pick(gs.Keys - keys);
      SurplusWith(gs, keys, x);
      assert gs.Keys - (keys + {x}) == (gs.Keys - keys) - {x};
      SurplusGrows(gs, keys + {x});
    }
  }

  /**
   * Samples are genuine and distinct.  Their number is that of neighbours in all groups, up to the limit: so
   * there is one whenever the two labelings disagree somewhere.  A limit of zero is none.
   */
  method DisagreementSamples(common: seq<Context>, l: Rows, r: Rows, limit: nat) returns (samples: seq<Sample>)
    requires forall i | 0 <= i < |common| :: common[i] in l && common[i] in r
    ensures AllGenuine(samples, l, r) && AllDistinct(samples)
    ensures |samples| == if 0 < limit < SampleCount(common, l, r) then limit else SampleCount(common, l, r)
    ensures (exists c, d :: Disagree(c, d, common, l, r)) ==> samples != []
  {
    hide AllGenuine, AllDistinct, Sampled, Surplus, JointSet, LabelSet;
    var byLeft := GroupBy(common, l, r);
    var byRight := GroupBy(common, r, l);
    GroupsCount(byLeft, common, l, r);
    GroupsCount(byRight, common, r, l);
    JointSwapped(common, l, r);
    Sometimes(byLeft, byRight, common, l, r);
    NoSamples(l, r);
    var seen, full;
    samples, seen, full := Collect(byLeft, l, r, true, limit, [], {});
    if full {
      NoneMissing(byRight);
      return;
    }
    samples, seen, full := Collect(byRight, l, r, false, limit, samples, seen);
  }

  lemma NoSamples(l: Rows, r: Rows)
    ensures AllGenuine([], l, r) && AllDistinct([]) && Sampled({}, [])
  {
  }

  lemma NoneMissing(gs: map<int, Group>)
    requires forall key | key in gs :: gs[key] != []
    ensures Surplus(gs, gs.Keys) >= 0
  {
    SurplusGrows(gs, {});
  }

  // Where two contexts disagree, a group has neighbours.
  lemma Sometimes(byLeft: map<int, Group>, byRight: map<int, Group>, common: seq<Context>, l: Rows, r: Rows)
    requires GroupsOf(byLeft, l, r, common) && GroupsOf(byRight, r, l, common)
    ensures Surplus(byLeft, byLeft.Keys) >= 0 && Surplus(byRight, byRight.Keys) >= 0
    ensures (exists c, d :: Disagree(c, d, common, l, r)) ==>
              Surplus(byLeft, byLeft.Keys) + Surplus(byRight, byRight.Keys) > 0
  {
    NoneMissing(byLeft);
    NoneMissing(byRight);
    forall c, d | Disagree(c, d, common, l, r)
      ensures Surplus(byLeft, byLeft.Keys) + Surplus(byRight, byRight.Keys) > 0
    {
      if l[c] == l[d] {
        Crowded(byLeft, common, l, r, c, d);
        Neighbourly(byLeft, l[c]);
      } else {
        Crowded(byRight, common, r, l, c, d);
        Neighbourly(byRight, r[c]);
      }
    }
  }

  lemma Neighbourly(gs: map<int, Group>, x: int)
    requires x in gs && |gs[x]| > 1 && forall key | key in gs :: gs[key] != []
    ensures Surplus(gs, gs.Keys) > 0
  {
    SurplusWith(gs, {}, x);
    SurplusGrows(gs, {x});
    assert {} + {x} == {x};
  }

  ghost predicate Disagree(c: Context, d: Context, common: seq<Context>, l: Rows, r: Rows) {
    c in common && d in common && c in l && d in l && c in r && d in r && (l[c] == l[d]) != (r[c] == r[d])
  }

  lemma Crowded(gs: map<int, Group>, common: seq<Context>, own: Rows, opposite: Rows, c: Context, d: Context)
    requires GroupsOf(gs, own, opposite, common)
    requires c in common && d in common && c in own && d in own && c in opposite && d in opposite
    requires own[c] == own[d] && opposite[c] != opposite[d]
    ensures own[c] in gs && |gs[own[c]]| > 1
  {
  }

  // One subject.

  datatype Comparison = Comparison(
    equal: bool,
    common: seq<Context>,
    leftOnly: seq<Context>,
    rightOnly: seq<Context>,
    leftParts: nat,
    rightParts: nat,
    contextPairs: nat,
    disagreements: nat,
    samples: seq<Sample>)

  lemma DisagreeingPair(common: seq<Context>, l: Rows, r: Rows, c: Context, d: Context)
    requires forall i | 0 <= i < |common| :: common[i] in l && common[i] in r
    requires Disagree(c, d, common, l, r)
    ensures Disagreeing(Labels(l, common), Labels(r, common)) != {}
  {
    var i :| 0 <= i < |common| && common[i] == c;
    var j :| 0 <= j < |common| && common[j] == d;
    var p := if i < j then (i, j) else (j, i);
    assert p in Disagreeing(Labels(l, common), Labels(r, common));
  }

  lemma NoDisagreement(common: seq<Context>, l: Rows, r: Rows)
    requires forall i | 0 <= i < |common| :: common[i] in l && common[i] in r
    ensures Disagreeing(Labels(l, common), Labels(r, common)) == {} <==>
            forall c, d :: !Disagree(c, d, common, l, r)
  {
    var a, b := Labels(l, common), Labels(r, common);
    forall c, d | Disagree(c, d, common, l, r) ensures Disagreeing(a, b) != {} {
      DisagreeingPair(common, l, r, c, d);
    }
    if Disagreeing(a, b) != {} {
      var p := Pick(Disagreeing(a, b));
      assert Disagree(common[p.0], common[p.1], common, l, r);
    }
  }

  /** Equal exactly when the two labelings make the same parts, and otherwise with evidence. */
  method CompareSubject(l: Rows, r: Rows) returns (result: Comparison)
    ensures result.equal <==> Parts(l) == Parts(r)
    ensures Lists(result.common, l.Keys * r.Keys)
    ensures Lists(result.leftOnly, l.Keys - r.Keys) && Lists(result.rightOnly, r.Keys - l.Keys)
    ensures result.disagreements == |Disagreeing(Labels(l, result.common), Labels(r, result.common))|
    ensures result.contextPairs == Comb2(|result.common|)
    ensures result.leftParts == |Parts(On(result.common, l))| && result.rightParts == |Parts(On(result.common, r))|
    ensures AllGenuine(result.samples, l, r) && AllDistinct(result.samples)
    ensures |result.samples| ==
            if SampleCount(result.common, l, r) > 10 then 10 else SampleCount(result.common, l, r)
    ensures result.samples != [] <==> result.disagreements > 0
  {
    var common := Sorted(l.Keys * r.Keys);
    var leftOnly := Sorted(l.Keys - r.Keys);
    var rightOnly := Sorted(r.Keys - l.Keys);
    var a, b := Labels(l, common), Labels(r, common);
    var left, leftParts := PairCount(a);
    var right, rightParts := PairCount(b);
    var joint, _ := PairCount(Zip(a, b));
    DisagreeingSize(a, b);
    var disagreements := left + right - 2 * joint;
    var samples := DisagreementSamples(common, l, r, 10);
    NoDisagreement(common, l, r);
    var equal := leftOnly == [] && rightOnly == [] && disagreements == 0;
    EqualMeans(common, leftOnly, rightOnly, l, r);
    LabelsAreParts(common, l);
    LabelsAreParts(common, r);
    SamePartitionIffSameParts(l, r);
    if samples != [] {
      assert Disagree(samples[0].first, samples[0].second, common, l, r);
    }
    result := Comparison(equal, common, leftOnly, rightOnly, leftParts, rightParts, Comb2(|common|), disagreements, samples);
  }

  lemma EqualMeans(common: seq<Context>, leftOnly: seq<Context>, rightOnly: seq<Context>, l: Rows, r: Rows)
    requires Lists(common, l.Keys * r.Keys) && Lists(leftOnly, l.Keys - r.Keys) && Lists(rightOnly, r.Keys - l.Keys)
    ensures SamePartition(l, r) <==>
            leftOnly == [] && rightOnly == [] && forall c, d :: !Disagree(c, d, common, l, r)
  {
    if leftOnly != [] {
      assert leftOnly[0] in l.Keys - r.Keys;
    } else if rightOnly != [] {
      assert rightOnly[0] in r.Keys - l.Keys;
    } else {
      forall c ensures c in l.Keys <==> c in r.Keys {
        assert c in l.Keys - r.Keys ==> c in leftOnly;
        assert c in r.Keys - l.Keys ==> c in rightOnly;
      }
      assert l.Keys == r.Keys;
      forall c, d ensures Disagree(c, d, common, l, r) <==> c in l && d in l && (l[c] == l[d]) != (r[c] == r[d]) {
        assert c in l.Keys * r.Keys ==> c in common;
        assert d in l.Keys * r.Keys ==> d in common;
      }
    }
  }
}
