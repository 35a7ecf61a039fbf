/**
 * Authenticating live benchmark conditions against a pinned record, and adopting what is not pinned yet.
 * Paths are sequences of keys below the conditions.
 */
module ConditionPins {
  import opened Options
  import opened Json
  import opened SortedStrings

  type Path = seq<string>

  const FEATURES := "conditions" + "." + "frozen_dataclass_fields" + "." + "features"
  const TRAINING := "conditions" + "." + "frozen_dataclass_fields" + "." + "training"

  function Dotted(path: Path): string {
    if path == [] then "conditions" else Dotted(path[..|path|-1]) + "." + path[|path|-1]
  }

  /** The two lists that may grow, wherever keys with dots in them spell the same. */
  predicate Frozen(path: Path) {
    Dotted(path) == FEATURES || Dotted(path) == TRAINING
  }

  predicate In(x: Json, items: seq<Json>) {
    exists i | 0 <= i < |items| :: Equal(x, items[i])
  }

  // A live field, or a live entry of a frozen list, that the record does not cover.
  datatype Mark = Field(path: Path) | Entry(path: Path, name: Json)

  /** The comparison raises nothing.  A frozen value that is no list passes only as the same string on both sides. */
  ghost predicate Authentic(a: Json, r: Json, path: Path)
    decreases r
  {
    if r.Obj? then a.Obj? && forall k | k in r.fields :: k in a.fields && Authentic(a.fields[k], r.fields[k], path + [k])
    else if Frozen(path) then
      if a.List? && r.List? then forall i | 0 <= i < |r.items| :: In(r.items[i], a.items)
      else a.Str? && a == r
    else Equal(a, r)
  }

  /** m is reported as not covered. */
  ghost predicate Uncovered(a: Json, r: Json, path: Path, m: Mark)
    decreases r
  {
    if r.Obj? then
      a.Obj? && (|| (exists k | k in a.fields && k !in r.fields :: m == Field(path + [k]))
                 || (exists k | k in r.fields && k in a.fields :: Uncovered(a.fields[k], r.fields[k], path + [k], m)))
    else
      && Frozen(path) && a.List? && r.List?
      && exists i | 0 <= i < |a.items| :: !In(a.items[i], r.items) && m == Entry(path, a.items[i])
  }

  ghost function Occurrences(live: seq<Json>, recorded: seq<Json>, x: Json): nat {
    if live == [] then 0
    else
      var last := live[|live|-1];
      Occurrences(live[..|live|-1], recorded, x) + if last == x && !In(last, recorded) then 1 else 0
  }

  /** How often m is reported: a field once, an entry as often as the live list has it. */
  ghost function Times(a: Json, r: Json, path: Path, m: Mark): nat
    decreases r
  {
    if r.Obj? then
      if !a.Obj? || !(path < m.path) || m.path[|path|] !in a.fields then 0
      else
        var k := m.path[|path|];
        if k in r.fields then Times(a.fields[k], r.fields[k], path + [k], m)
        else if m == Field(path + [k]) then 1 else 0
    else if Frozen(path) && a.List? && r.List? && m.Entry? && m.path == path then Occurrences(a.items, r.items, m.name)
    else 0
  }

  lemma {:induction false} OccursWhenLive(live: seq<Json>, recorded: seq<Json>, x: Json)
    ensures Occurrences(live, recorded, x) > 0 <==> exists i | 0 <= i < |live| :: live[i] == x && !In(x, recorded)
  {
    if live != [] {
      OccursWhenLive(live[..|live|-1], recorded, x);
    }
  }

  lemma TimesBelowPath(a: Json, r: Json, path: Path, m: Mark)
    ensures Times(a, r, path, m) > 0 ==> path <= m.path
  {
  }

  lemma {:induction false} UncoveredBelowPath(a: Json, r: Json, path: Path, m: Mark)
    ensures Uncovered(a, r, path, m) ==> path <= m.path
    decreases r
  {
    if r.Obj? && a.Obj? && Uncovered(a, r, path, m) && !(exists k | k in a.fields && k !in r.fields :: m == Field(path + [k])) {
      var k :| k in r.fields && k in a.fields && Uncovered(a.fields[k], r.fields[k], path + [k], m);
      UncoveredBelowPath(a.fields[k], r.fields[k], path + [k], m);
    }
  }

  /** What is reported at all is what is not covered; a field is reported once. */
  lemma {:induction false} ReportedIsUncovered(a: Json, r: Json, path: Path, m: Mark)
    ensures Times(a, r, path, m) > 0 <==> Uncovered(a, r, path, m)
    ensures m.Field? ==> Times(a, r, path, m) <= 1
    decreases r
  {
    if r.Obj? {
      if a.Obj? {
        UncoveredBelowPath(a, r, path, m);
        forall k | k in r.fields && k in a.fields
          ensures Times(a.fields[k], r.fields[k], path + [k], m) > 0 <==> Uncovered(a.fields[k], r.fields[k], path + [k], m)
          ensures Uncovered(a.fields[k], r.fields[k], path + [k], m) ==> path + [k] <= m.path
          ensures m.Field? ==> Times(a.fields[k], r.fields[k], path + [k], m) <= 1
        {
          ReportedIsUncovered(a.fields[k], r.fields[k], path + [k], m);
          UncoveredBelowPath(a.fields[k], r.fields[k], path + [k], m);
        }
      }
    } else if a.List? && r.List? && m.Entry? {
      OccursWhenLive(a.items, r.items, m.name);
    }
  }

  /** The marks appended for the fields in `keys`. */
  ghost function TimesIn(a: Json, r: Json, path: Path, m: Mark, keys: set<string>): nat
    requires a.Obj? && r.Obj?
  {
    if path < m.path && m.path[|path|] in keys && m.path[|path|] in r.fields && m.path[|path|] in a.fields then
      Times(a.fields[m.path[|path|]], r.fields[m.path[|path|]], path + [m.path[|path|]], m)
    else 0
  }

  lemma OneKeyMore(a: Json, r: Json, path: Path, m: Mark, keys: set<string>, k: string)
    requires a.Obj? && r.Obj? && k in r.fields && k in a.fields && k !in keys
    ensures TimesIn(a, r, path, m, keys + {k}) == TimesIn(a, r, path, m, keys) + Times(a.fields[k], r.fields[k], path + [k], m)
  {
    TimesBelowPath(a.fields[k], r.fields[k], path + [k], m);
  }

  ghost function FieldTimes(a: Json, r: Json, path: Path, m: Mark): nat
    requires a.Obj? && r.Obj?
  {
    if exists k | k in a.fields && k !in r.fields :: m == Field(path + [k]) then 1 else 0
  }

  lemma AllKeys(a: Json, r: Json, path: Path, m: Mark)
    requires a.Obj? && r.Obj?
    ensures Times(a, r, path, m) == TimesIn(a, r, path, m, r.fields.Keys) + FieldTimes(a, r, path, m)
  {
    if path < m.path {
      assert forall k :: m == Field(path + [k]) ==> k == m.path[|path|];
    }
  }

  class Authenticator {
    var uncovered: seq<Mark>

    constructor ()
      ensures uncovered == []
    {
      uncovered := [];
    }

    /** Appends what is uncovered; false stands for a raised mismatch. */
    method Compare(a: Json, r: Json, path: Path) returns (ok: bool)
      modifies this
      ensures ok <==> Authentic(a, r, path)
      ensures ok ==> forall m :: multiset(uncovered)[m] == multiset(old(uncovered))[m] + Times(a, r, path, m)
      decreases r
    {
      if r.Obj? {
        if !a.Obj? {
          return false;
        }
        var rest := r.fields.Keys;
        ghost var done: set<string> := {};
        while rest != {}
          invariant done + rest == r.fields.Keys && done !! rest
          invariant forall k | k in done :: k in a.fields && Authentic(a.fields[k], r.fields[k], path + [k])
          invariant forall m :: multiset(uncovered)[m] == multiset(old(uncovered))[m] + TimesIn(a, r, path, m, done)
          decreases rest
        {
          var k :| k in rest;
          rest := rest - {k};
          if k !in a.fields {
            return false;
          }
          ok := Compare(a.fields[k], r.fields[k], path + [k]);
          if !ok {
            return;
          }
          forall m {
            OneKeyMore(a, r, path, m, done, k);
          }
          done := done + {k};
        }
        Extend(a, r, path);
        forall m {
          AllKeys(a, r, path, m);
        }
        assert done == r.fields.Keys;
        ok := true;
      } else if Frozen(path) {
        if !a.List? || !r.List? {
          // Equal strings are iterated character by character and cover each other; nothing else can be iterated.
          return a.Str? && a == r;
        }
        ok := forall i | 0 <= i < |r.items| :: In(r.items[i], a.items);
        if ok {
          ExtendList(a.items, r.items, path);
        }
      } else {
        ok := Equal(a, r);
      }
    }

    // The live fields that the record does not have, sorted.
    method Extend(a: Json, r: Json, path: Path)
      requires a.Obj? && r.Obj?
      modifies this
      ensures forall m :: multiset(uncovered)[m] == multiset(old(uncovered))[m] + FieldTimes(a, r, path, m)
    {
      hide IsFieldOf, FieldTimes;
      var keys := SortedKeys(a.fields.Keys - r.fields.Keys);
      NoField(path);
      SortLists(a.fields.Keys - r.fields.Keys);
      for i := 0 to |keys|
        invariant forall m :: multiset(uncovered)[m] ==
                    multiset(old(uncovered))[m] + if IsFieldOf(m, path, keys[..i]) then 1 else 0
      {
        FreshKey(keys, i, path);
        uncovered := uncovered + [Field(path + [keys[i]])];
        FieldStep(keys, i, path);
      }
      assert keys[..|keys|] == keys;
      AllFields(a, r, path, keys);
    }

    method ExtendList(live: seq<Json>, recorded: seq<Json>, path: Path)
      modifies this
      ensures forall m :: multiset(uncovered)[m] ==
                multiset(old(uncovered))[m] + if m.Entry? && m.path == path then Occurrences(live, recorded, m.name) else 0
    {
      for n := 0 to |live|
        invariant forall m :: multiset(uncovered)[m] ==
                    multiset(old(uncovered))[m]
                    + if m.Entry? && m.path == path then Occurrences(live[..n], recorded, m.name) else 0
      {
        assert live[..n+1][..n] == live[..n];
        if !In(live[n], recorded) {
          uncovered := uncovered + [Entry(path, live[n])];
        }
      }
      assert live[..|live|] == live;
    }
  }

  ghost predicate IsFieldOf(m: Mark, path: Path, keys: seq<string>) {
    exists k | k in keys :: m == Field(path + [k])
  }

  lemma NoField(path: Path)
    ensures forall m :: !IsFieldOf(m, path, [])
  {
  }

  lemma FieldStep(keys: seq<string>, i: nat, path: Path)
    requires i < |keys|
    ensures forall m :: IsFieldOf(m, path, keys[..i+1]) <==> IsFieldOf(m, path, keys[..i]) || m == Field(path + [keys[i]])
  {
    forall m ensures IsFieldOf(m, path, keys[..i+1]) <==> IsFieldOf(m, path, keys[..i]) || m == Field(path + [keys[i]]) {
      assert keys[..i+1] == keys[..i] + [keys[i]];
    }
  }

  lemma AllFields(a: Json, r: Json, path: Path, keys: seq<string>)
    requires a.Obj? && r.Obj? && forall k :: k in keys <==> k in a.fields.Keys - r.fields.Keys
    ensures forall m :: FieldTimes(a, r, path, m) == if IsFieldOf(m, path, keys) then 1 else 0
  {
  }

  lemma FreshKey(keys: seq<string>, i: nat, path: Path)
    requires i < |keys| && forall j, k | 0 <= j < k < |keys| :: Before(keys[j], keys[k])
    ensures !IsFieldOf(Field(path + [keys[i]]), path, keys[..i])
  {
    forall j | 0 <= j < i ensures keys[j] != keys[i] {
      BeforeIsTotal(keys[j], keys[i]);
    }
    forall k | k in keys[..i] ensures path + [k] != path + [keys[i]] {
      assert (path + [k])[|path|] == k && (path + [keys[i]])[|path|] == keys[i];
    }
  }

  method Authenticate(actual: Json, recorded: Json) returns (uncovered: Option<seq<Mark>>)
    ensures uncovered.Some? <==> Authentic(actual, recorded, [])
    ensures uncovered.Some? ==> forall m :: m in uncovered.value <==> Uncovered(actual, recorded, [], m)
    ensures uncovered.Some? ==> forall m :: multiset(uncovered.value)[m] == Times(actual, recorded, [], m)
  {
    hide Authentic, Uncovered, Times;
    var authenticator := new Authenticator();
    var ok := authenticator.Compare(actual, recorded, []);
    uncovered := if ok then Some(authenticator.uncovered) else None;
    if ok {
      forall m ensures m in uncovered.value <==> Uncovered(actual, recorded, [], m) {
        ReportedIsUncovered(actual, recorded, [], m);
      }
    }
  }

  // Authentication, place by place.

  /** What is pinned at a path is there in the live conditions: an object, an equal value, or more of a frozen list. */
  ghost predicate AgreesAt(x: Option<Json>, y: Json, path: Path) {
    && x.Some?
    && if y.Obj? then x.value.Obj?
       else if Frozen(path) then
         || (x.value.List? && y.List? && forall i | 0 <= i < |y.items| :: In(y.items[i], x.value.items))
         || (x.value.Str? && x.value == y)
       else Equal(x.value, y)
  }

  ghost predicate AgreesBelow(a: Json, r: Json, path: Path) {
    forall p | Lookup(Some(r), p).Some? :: AgreesAt(Lookup(Some(a), p), Lookup(Some(r), p).value, path + p)
  }

  /** Authentic is what agrees with every pin, wherever it is. */
  lemma {:induction false} AuthenticMeans(a: Json, r: Json, path: Path)
    ensures Authentic(a, r, path) <==> AgreesBelow(a, r, path)
    decreases r
  {
    hide Frozen;
    assert path + [] == path && Lookup(Some(r), []) == Some(r) && Lookup(Some(a), []) == Some(a);
    if r.Obj? && a.Obj? {
      forall k | k in r.fields && k in a.fields
        ensures Authentic(a.fields[k], r.fields[k], path + [k]) <==> AgreesBelow(a.fields[k], r.fields[k], path + [k])
      {
        AuthenticMeans(a.fields[k], r.fields[k], path + [k]);
      }
      AgreesThrough(a, r, path);
    } else if Authentic(a, r, path) {
      forall p | Lookup(Some(r), p).Some? ensures AgreesAt(Lookup(Some(a), p), Lookup(Some(r), p).value, path + p) {
        assert p == [];
      }
    } else {
      assert !AgreesAt(Lookup(Some(a), []), Lookup(Some(r), []).value, path + []);
    }
  }

  lemma AgreesThrough(a: Json, r: Json, path: Path)
    requires a.Obj? && r.Obj?
    ensures AgreesBelow(a, r, path) <==>
            forall k | k in r.fields :: k in a.fields && AgreesBelow(a.fields[k], r.fields[k], path + [k])
  {
    hide Frozen, AgreesAt;
    if AgreesBelow(a, r, path) {
      forall k, q | k in r.fields && Lookup(Some(r.fields[k]), q).Some?
        ensures k in a.fields
        ensures AgreesAt(Lookup(Some(a.fields[k]), q), Lookup(Some(r.fields[k]), q).value, (path + [k]) + q)
      {
        FieldAgrees(a, r, path, k, []);
        FieldAgrees(a, r, path, k, q);
      }
      forall k | k in r.fields ensures k in a.fields {
        FieldAgrees(a, r, path, k, []);
      }
    }
    if forall k | k in r.fields :: k in a.fields && AgreesBelow(a.fields[k], r.fields[k], path + [k]) {
      forall p | Lookup(Some(r), p).Some? ensures AgreesAt(Lookup(Some(a), p), Lookup(Some(r), p).value, path + p) {
        if p == [] {
          BothObjects(a, r, path);
        } else {
          LookupNone(p[1..]);
          assert (path + [p[0]]) + p[1..] == path + p;
          assert AgreesBelow(a.fields[p[0]], r.fields[p[0]], path + [p[0]]);
        }
      }
    }
  }

  lemma BothObjects(a: Json, r: Json, path: Path)
    requires a.Obj? && r.Obj?
    ensures AgreesAt(Lookup(Some(a), []), r, path + [])
  {
  }

  lemma FieldAgrees(a: Json, r: Json, path: Path, k: string, q: Path)
    requires a.Obj? && r.Obj? && AgreesBelow(a, r, path) && k in r.fields && Lookup(Some(r.fields[k]), q).Some?
    ensures k in a.fields
    ensures AgreesAt(Lookup(Some(a.fields[k]), q), Lookup(Some(r.fields[k]), q).value, (path + [k]) + q)
  {
    hide Frozen;
    var p := [k] + q;
    assert p[1..] == q && path + p == (path + [k]) + q;
    LookupNone(q);
    assert Lookup(Some(r), p) == Lookup(Some(r.fields[k]), q);
    assert AgreesAt(Lookup(Some(a), p), Lookup(Some(r), p).value, path + p);
  }

  /** A live field under a pinned object that does not pin it, or a live entry that a pinned frozen list lacks. */
  ghost predicate NotCovered(x: Option<Json>, y: Option<Json>, path: Path, m: Mark) {
    x.Some? && y.Some? &&
    match m
    case Field(p) => p != [] && p[..|p|-1] == path && x.value.Obj? && y.value.Obj?
                     && p[|p|-1] in x.value.fields && p[|p|-1] !in y.value.fields
    case Entry(p, n) => p == path && Frozen(path) && x.value.List? && y.value.List?
                        && n in x.value.items && !In(n, y.value.items)
  }

  /** What is not covered, place by place. */
  lemma {:induction false} UncoveredMeans(a: Json, r: Json, path: Path, m: Mark)
    ensures Uncovered(a, r, path, m) <==>
            exists p :: NotCoveredAt(a, r, path, m, p)
    decreases r
  {
    hide Frozen;
    assert path + [] == path && Lookup(Some(r), []) == Some(r) && Lookup(Some(a), []) == Some(a);
    HereMeans(a, r, path, m);
    assert NotCoveredAt(a, r, path, m, []) <==> NotCovered(Some(a), Some(r), path, m);
    if r.Obj? && a.Obj? {
      forall k | k in r.fields && k in a.fields
        ensures Uncovered(a.fields[k], r.fields[k], path + [k], m) <==>
                exists p :: NotCoveredAt(a.fields[k], r.fields[k], path + [k], m, p)
      {
        UncoveredMeans(a.fields[k], r.fields[k], path + [k], m);
      }
      UncoveredThrough(a, r, path, m);
    } else {
      forall p | p != [] ensures !NotCoveredAt(a, r, path, m, p) {
      }
    }
  }

  // Uncovered at this very place.
  ghost predicate UncoveredHere(a: Json, r: Json, path: Path, m: Mark) {
    if r.Obj? then a.Obj? && exists k | k in a.fields && k !in r.fields :: m == Field(path + [k])
    else
      && Frozen(path) && a.List? && r.List?
      && exists i | 0 <= i < |a.items| :: !In(a.items[i], r.items) && m == Entry(path, a.items[i])
  }

  lemma HereMeans(a: Json, r: Json, path: Path, m: Mark)
    ensures UncoveredHere(a, r, path, m) <==> NotCovered(Some(a), Some(r), path, m)
  {
    hide Frozen;
    if UncoveredHere(a, r, path, m) && r.Obj? {
      var k :| k in a.fields && k !in r.fields && m == Field(path + [k]);
      assert (path + [k])[..|path + [k]|-1] == path;
    }
    if NotCovered(Some(a), Some(r), path, m) && m.Field? {
      assert m.path == path + [m.path[|m.path|-1]];
    }
  }

  ghost predicate NotCoveredAt(a: Json, r: Json, path: Path, m: Mark, p: Path) {
    NotCovered(Lookup(Some(a), p), Lookup(Some(r), p), path + p, m)
  }

  lemma NotCoveredBelow(a: Json, r: Json, path: Path, m: Mark, k: string, q: Path)
    requires a.Obj? && r.Obj?
    ensures NotCoveredAt(a, r, path, m, [k] + q) <==>
            k in a.fields && k in r.fields && NotCoveredAt(a.fields[k], r.fields[k], path + [k], m, q)
  {
    hide Frozen;
    var p := [k] + q;
    LookupNone(q);
    assert p[1..] == q && path + p == (path + [k]) + q;
  }

  lemma UncoveredThrough(a: Json, r: Json, path: Path, m: Mark)
    requires a.Obj? && r.Obj?
    ensures (exists p :: NotCoveredAt(a, r, path, m, p)) <==>
            || NotCoveredAt(a, r, path, m, [])
            || exists k | k in r.fields && k in a.fields ::
                 exists p :: NotCoveredAt(a.fields[k], r.fields[k], path + [k], m, p)
  {
    hide NotCoveredAt;
    if exists p :: NotCoveredAt(a, r, path, m, p) {
      var p :| NotCoveredAt(a, r, path, m, p);
      if p != [] {
        assert p == [p[0]] + p[1..];
        NotCoveredBelow(a, r, path, m, p[0], p[1..]);
      }
    }
    forall k, q | k in r.fields && k in a.fields && NotCoveredAt(a.fields[k], r.fields[k], path + [k], m, q)
      ensures exists p :: NotCoveredAt(a, r, path, m, p)
    {
      NotCoveredBelow(a, r, path, m, k, q);
    }
  }

  // Adoption.

  /** Python's list(x), of a value that is no object. */
  function AsList(x: Json): Option<Json> {
    match x
    case List(_) => Some(x)
    case Str(s) => Some(List(seq(|s|, i requires 0 <= i < |s| => Str([s[i]]))))
    case _ => None
  }

  /**
   * None stands for a TypeError.  What goes down as the recorded value of a key is the live value once more:
   * of the record, only the keys at the top are ever looked at.
   */
  function Adopt(a: Json, r: Json, path: Path): Option<Json>
    requires a.Obj? <==> r.Obj?
    decreases a
  {
    if r.Obj? then
      if forall k | k in a.fields && k in r.fields :: Adopt(a.fields[k], a.fields[k], path + [k]).Some? then
        Some(Obj(map k | k in a.fields ::
                   if k in r.fields then Adopt(a.fields[k], a.fields[k], path + [k]).value else a.fields[k]))
      else None
    else if Frozen(path) then AsList(a)
    else Some(r)
  }

  // What the live conditions hold at frozen paths.

  function Kept(x: Json): bool {
    x.List? || x.Obj?
  }

  function Iterable(x: Json): bool {
    Kept(x) || x.Str?
  }

  ghost predicate OkAt(j: Option<Json>, ok: Json -> bool) {
    j.Some? ==> ok(j.value)
  }

  /** From here down, every live value at a frozen path is of the given kind. */
  ghost predicate FrozenValues(a: Json, path: Path, ok: Json -> bool) {
    forall p | Frozen(p) && path <= p :: OkAt(Lookup(Some(a), p[|path|..]), ok)
  }

  /** The same, below each key at the top that the record has. */
  ghost predicate BelowPins(a: Json, r: Json, ok: Json -> bool)
    requires a.Obj? && r.Obj?
  {
    forall k | k in a.fields && k in r.fields :: FrozenValues(a.fields[k], [k], ok)
  }

  lemma FrozenValuesBelow(a: Json, path: Path, ok: Json -> bool)
    requires a.Obj? && ok(a)
    ensures FrozenValues(a, path, ok) <==> forall k | k in a.fields :: FrozenValues(a.fields[k], path + [k], ok)
  {
    hide Frozen;
    if FrozenValues(a, path, ok) {
      forall k, p | k in a.fields && Frozen(p) && path + [k] <= p ensures OkAt(Lookup(Some(a.fields[k]), p[|path|+1..]), ok) {
        assert p[|path|] == k && p[|path|..][1..] == p[|path|+1..];
        assert OkAt(Lookup(Some(a), p[|path|..]), ok);
      }
    }
    if forall k | k in a.fields :: FrozenValues(a.fields[k], path + [k], ok) {
      forall p | Frozen(p) && path <= p ensures OkAt(Lookup(Some(a), p[|path|..]), ok) {
        if p != path {
          var k := p[|path|];
          assert path + [k] <= p && p[|path|..][1..] == p[|path|+1..];
          LookupNone(p[|path|+1..]);
        }
      }
    }
  }

  lemma LookupNone(p: Path)
    ensures Lookup(None, p) == None
  {
  }

  lemma FrozenValuesHere(a: Json, path: Path, ok: Json -> bool)
    requires !a.Obj?
    ensures FrozenValues(a, path, ok) <==> (Frozen(path) ==> ok(a))
  {
    hide Frozen;
    assert path[|path|..] == [];
    forall p | Frozen(p) && path <= p && p != path ensures OkAt(Lookup(Some(a), p[|path|..]), ok) {
      assert p[|path|..] != [] by {
        assert p == path + p[|path|..];
      }
    }
  }

  // Below the top.

  lemma FieldByField(x: Json, a: Json)
    requires x.Obj? && a.Obj? && x.fields.Keys == a.fields.Keys
    ensures x == a <==> forall k | k in a.fields :: x.fields[k] == a.fields[k]
    ensures Equal(x, a) <==> forall k | k in a.fields :: Equal(x.fields[k], a.fields[k])
  {
    EqualFields(x.fields, a.fields);
    if forall k | k in a.fields :: x.fields[k] == a.fields[k] {
      assert x.fields == a.fields;
    }
  }

  /** Adoption of a live value by itself raises, changes it, or returns it, by what it holds at frozen paths. */
  lemma {:induction false} AdoptLive(a: Json, path: Path)
    ensures Adopt(a, a, path).Some? <==> FrozenValues(a, path, Iterable)
    ensures Adopt(a, a, path).Some? ==>
              var x := Adopt(a, a, path).value;
              (x == a <==> FrozenValues(a, path, Kept)) && (Equal(x, a) <==> FrozenValues(a, path, Kept))
    decreases a
  {
    hide Frozen, FrozenValues, Equal;
    if a.Obj? {
      FrozenValuesBelow(a, path, Iterable);
      FrozenValuesBelow(a, path, Kept);
      forall k | k in a.fields
        ensures var b := Adopt(a.fields[k], a.fields[k], path + [k]);
                && (b.Some? <==> FrozenValues(a.fields[k], path + [k], Iterable))
                && (b.Some? ==> (b.value == a.fields[k] <==> FrozenValues(a.fields[k], path + [k], Kept))
                                && (Equal(b.value, a.fields[k]) <==> FrozenValues(a.fields[k], path + [k], Kept)))
      {
        AdoptLive(a.fields[k], path + [k]);
      }
      if Adopt(a, a, path).Some? {
        FieldByField(Adopt(a, a, path).value, a);
      }
    } else {
      FrozenValuesHere(a, path, Iterable);
      FrozenValuesHere(a, path, Kept);
      AListIsNoString(a);
    }
  }

  lemma AListIsNoString(a: Json)
    ensures Equal(a, a) && (a.Str? && AsList(a).Some? ==> !Equal(AsList(a).value, a))
  {
  }

  /** What is no string at a frozen path stays where it is. */
  lemma {:induction false} LiveStays(a: Json, path: Path, p: Path)
    requires Adopt(a, a, path).Some? && Lookup(Some(a), p).Some? && !Lookup(Some(a), p).value.Obj?
    requires Lookup(Some(a), p).value.List? || !Frozen(path + p)
    ensures Lookup(Adopt(a, a, path), p) == Lookup(Some(a), p)
    decreases |p|
  {
    if p == [] {
      assert path + p == path;
    } else {
      LookupNone(p[1..]);
      assert (path + [p[0]]) + p[1..] == path + p;
      LiveStays(a.fields[p[0]], path + [p[0]], p[1..]);
    }
  }

  lemma {:induction false} LiveIsCovered(a: Json, path: Path)
    requires Adopt(a, a, path).Some?
    ensures Covered(a, Adopt(a, a, path).value, path) <==> FrozenValues(a, path, Kept)
    ensures Authentic(a, Adopt(a, a, path).value, path) ==> Covered(a, Adopt(a, a, path).value, path)
    decreases a
  {
    hide Frozen, FrozenValues;
    if a.Obj? {
      var x := Adopt(a, a, path).value;
      CoveredBelow(a, x, path);
      FrozenValuesBelow(a, path, Kept);
      forall k | k in a.fields
        ensures Covered(a.fields[k], x.fields[k], path + [k]) <==> FrozenValues(a.fields[k], path + [k], Kept)
        ensures Authentic(a.fields[k], x.fields[k], path + [k]) ==> Covered(a.fields[k], x.fields[k], path + [k])
      {
        LiveIsCovered(a.fields[k], path + [k]);
      }
    } else {
      FrozenValuesHere(a, path, Kept);
      if a.List? {
        assert forall i | 0 <= i < |a.items| :: Equal(a.items[i], a.items[i]);
      }
    }
  }

  // Authenticating once more.

  /** Authentic, with nothing left uncovered. */
  ghost predicate Covered(a: Json, r: Json, path: Path) {
    Authentic(a, r, path) && forall m :: !Uncovered(a, r, path, m)
  }

  lemma CoveredBelow(a: Json, x: Json, path: Path)
    requires a.Obj? && x.Obj? && x.fields.Keys == a.fields.Keys
    ensures Covered(a, x, path) <==> forall k | k in a.fields :: Covered(a.fields[k], x.fields[k], path + [k])
  {
    if Covered(a, x, path) {
      forall k, m | k in a.fields ensures !Uncovered(a.fields[k], x.fields[k], path + [k], m) {
        assert !Uncovered(a, x, path, m);
      }
    }
    if forall k | k in a.fields :: Covered(a.fields[k], x.fields[k], path + [k]) {
      assert forall k | k in x.fields :: k in a.fields && Covered(a.fields[k], x.fields[k], path + [k]);
      forall m ensures !Uncovered(a, x, path, m) {
        forall k | k in x.fields && k in a.fields ensures !Uncovered(a.fields[k], x.fields[k], path + [k], m) {
          assert Covered(a.fields[k], x.fields[k], path + [k]);
        }
      }
    }
  }

  lemma {:induction false} CoversItself(a: Json, path: Path)
    ensures Covered(a, a, path) <==> FrozenValues(a, path, Iterable)
    ensures Authentic(a, a, path) ==> Covered(a, a, path)
    decreases a
  {
    hide Frozen, FrozenValues;
    if a.Obj? {
      CoveredBelow(a, a, path);
      FrozenValuesBelow(a, path, Iterable);
      forall k | k in a.fields
        ensures Covered(a.fields[k], a.fields[k], path + [k]) <==> FrozenValues(a.fields[k], path + [k], Iterable)
        ensures Authentic(a.fields[k], a.fields[k], path + [k]) ==> Covered(a.fields[k], a.fields[k], path + [k])
      {
        CoversItself(a.fields[k], path + [k]);
      }
    } else {
      FrozenValuesHere(a, path, Iterable);
      if a.List? {
        assert forall i | 0 <= i < |a.items| :: Equal(a.items[i], a.items[i]);
      }
    }
  }

  // Main results.

  /**
   * Below the pinned keys at the top, adoption raises exactly if some live value at a frozen path is no list,
   * object or string, and otherwise returns the live conditions exactly if none of them is a string.
   */
  lemma AdoptedEqualsLive(a: Json, r: Json)
    requires a.Obj? && r.Obj?
    ensures Adopt(a, r, []).Some? <==> BelowPins(a, r, Iterable)
    ensures Adopt(a, r, []).Some? ==>
              var x := Adopt(a, r, []).value;
              (x == a <==> BelowPins(a, r, Kept)) && (Equal(x, a) <==> BelowPins(a, r, Kept))
  {
    hide Frozen, FrozenValues;
    forall k | k in a.fields && k in r.fields
      ensures var b := Adopt(a.fields[k], a.fields[k], [] + [k]);
              && (b.Some? <==> FrozenValues(a.fields[k], [k], Iterable))
              && (b.Some? ==> (b.value == a.fields[k] <==> FrozenValues(a.fields[k], [k], Kept))
                              && (Equal(b.value, a.fields[k]) <==> FrozenValues(a.fields[k], [k], Kept)))
    {
      AdoptLive(a.fields[k], [k]);
      assert [] + [k] == [k];
    }
    if Adopt(a, r, []).Some? {
      FieldByField(Adopt(a, r, []).value, a);
    }
  }

  ghost predicate KeyOk(a: Json, r: Json, k: string)
    requires a.Obj? && r.Obj? && k in a.fields
  {
    FrozenValues(a.fields[k], [] + [k], if k in r.fields then Kept else Iterable)
  }

  lemma AdoptedKey(a: Json, r: Json, k: string)
    requires a.Obj? && r.Obj? && Adopt(a, r, []).Some? && k in a.fields
    ensures var x := Adopt(a, r, []).value;
            && x.Obj? && x.fields.Keys == a.fields.Keys
            && (Covered(a.fields[k], x.fields[k], [] + [k]) <==> KeyOk(a, r, k))
            && (Authentic(a.fields[k], x.fields[k], [] + [k]) ==> Covered(a.fields[k], x.fields[k], [] + [k]))
  {
    hide Frozen, FrozenValues, Covered, Authentic;
    if k in r.fields {
      LiveIsCovered(a.fields[k], [] + [k]);
    } else {
      CoversItself(a.fields[k], [] + [k]);
    }
  }

  lemma AllKeysOk(a: Json, r: Json)
    requires a.Obj? && r.Obj?
    ensures (forall k | k in a.fields :: KeyOk(a, r, k)) <==> BelowPins(a, r, Kept) && FrozenValues(a, [], Iterable)
  {
    hide Frozen, FrozenValues;
    FrozenValuesBelow(a, [], Iterable);
    forall k | k in a.fields
      ensures KeyOk(a, r, k) <==> FrozenValues(a.fields[k], [k], if k in r.fields then Kept else Iterable)
      ensures FrozenValues(a.fields[k], [k], Kept) ==> FrozenValues(a.fields[k], [] + [k], Iterable)
      ensures [] + [k] == [k]
    {
      assert [] + [k] == [k];
      KeptIsIterable(a.fields[k], [k]);
    }
  }

  /** The adopted record authenticates exactly if it is the live one and that authenticates itself; then nothing is uncovered. */
  lemma AdoptedIsCovered(a: Json, r: Json)
    requires a.Obj? && r.Obj? && Adopt(a, r, []).Some?
    ensures Authentic(a, Adopt(a, r, []).value, []) <==> BelowPins(a, r, Kept) && FrozenValues(a, [], Iterable)
    ensures Covered(a, Adopt(a, r, []).value, []) <==> BelowPins(a, r, Kept) && FrozenValues(a, [], Iterable)
  {
    hide Frozen, FrozenValues, Adopt, KeyOk, BelowPins;
    var x := Adopt(a, r, []).value;
    AllKeysOk(a, r);
    AdoptedShape(a, r);
    CoveredBelow(a, x, []);
    forall k | k in a.fields
      ensures Covered(a.fields[k], x.fields[k], [] + [k]) <==> KeyOk(a, r, k)
      ensures Authentic(a.fields[k], x.fields[k], [] + [k]) ==> Covered(a.fields[k], x.fields[k], [] + [k])
    {
      AdoptedKey(a, r, k);
    }
    AuthenticBelow(a, x);
  }

  lemma AdoptedShape(a: Json, r: Json)
    requires a.Obj? && r.Obj? && Adopt(a, r, []).Some?
    ensures Adopt(a, r, []).value.Obj? && Adopt(a, r, []).value.fields.Keys == a.fields.Keys
  {
  }

  lemma AuthenticBelow(a: Json, x: Json)
    requires a.Obj? && x.Obj? && x.fields.Keys == a.fields.Keys
    requires forall k | k in a.fields ::
               Authentic(a.fields[k], x.fields[k], [] + [k]) ==> Covered(a.fields[k], x.fields[k], [] + [k])
    ensures Authentic(a, x, []) <==> Covered(a, x, [])
  {
    CoveredBelow(a, x, []);
    if Authentic(a, x, []) {
      forall k | k in a.fields ensures Covered(a.fields[k], x.fields[k], [] + [k]) {
        assert k in x.fields;
      }
    }
  }

  lemma KeptIsIterable(a: Json, path: Path)
    ensures FrozenValues(a, path, Kept) ==> FrozenValues(a, path, Iterable)
  {
    hide Frozen;
    if FrozenValues(a, path, Kept) {
      forall p | Frozen(p) && path <= p ensures OkAt(Lookup(Some(a), p[|path|..]), Iterable) {
        assert OkAt(Lookup(Some(a), p[|path|..]), Kept);
      }
    }
  }

  /** A value other than an object is pinned at this path, which is not that of a frozen list. */
  ghost predicate PinnedAt(r: Json, p: Path) {
    Lookup(Some(r), p).Some? && !Lookup(Some(r), p).value.Obj? && !Frozen(p)
  }

  lemma {:induction false} AuthenticAt(a: Json, r: Json, path: Path, p: Path)
    requires Authentic(a, r, path) && Lookup(Some(r), p).Some? && !Lookup(Some(r), p).value.Obj?
    ensures Lookup(Some(a), p).Some? && Authentic(Lookup(Some(a), p).value, Lookup(Some(r), p).value, path + p)
    decreases |p|
  {
    if p == [] {
      assert path + p == path;
    } else {
      LookupNone(p[1..]);
      assert (path + [p[0]]) + p[1..] == path + p;
      AuthenticAt(a.fields[p[0]], r.fields[p[0]], path + [p[0]], p[1..]);
    }
  }

  lemma EqualKinds(x: Json, y: Json)
    requires Equal(x, y)
    ensures x.Obj? <==> y.Obj?
  {
  }

  lemma TopStays(a: Json, r: Json, p: Path)
    requires a.Obj? && r.Obj? && Adopt(a, r, []).Some? && Lookup(Some(r), p).Some?
    requires Lookup(Some(a), p).Some? && !Lookup(Some(a), p).value.Obj?
    requires Lookup(Some(a), p).value.List? || !Frozen(p)
    ensures Lookup(Adopt(a, r, []), p) == Lookup(Some(a), p)
  {
    var k := p[0];
    LookupNone(p[1..]);
    assert [k] + p[1..] == p && [] + [k] == [k];
    LiveStays(a.fields[k], [k], p[1..]);
  }

  /** A pin becomes the live value, which Python finds equal; it is kept as it was exactly if the two are the same. */
  lemma PinsAreKept(a: Json, r: Json, p: Path)
    requires Authentic(a, r, []) && r.Obj? && Adopt(a, r, []).Some? && PinnedAt(r, p)
    ensures var x, y := Lookup(Adopt(a, r, []), p), Lookup(Some(r), p);
            && x.Some? && Equal(x.value, y.value)
            && (x == y <==> Lookup(Some(a), p) == y)
  {
    hide Frozen;
    assert [] + p == p;
    AuthenticAt(a, r, [], p);
    EqualKinds(Lookup(Some(a), p).value, Lookup(Some(r), p).value);
    TopStays(a, r, p);
  }

  /** Outside the frozen lists, somewhere, the record holds an equal value differently, as 1 for a live 1.0. */
  ghost predicate Rewritten(a: Json, r: Json, path: Path)
    decreases r
  {
    if r.Obj? then a.Obj? && exists k | k in r.fields && k in a.fields :: Rewritten(a.fields[k], r.fields[k], path + [k])
    else !Frozen(path) && a != r
  }

  lemma {:induction false} RewrittenAt(a: Json, r: Json, path: Path, p: Path)
    requires Authentic(a, r, path) && Lookup(Some(r), p).Some? && !Lookup(Some(r), p).value.Obj? && !Frozen(path + p)
    requires Lookup(Some(a), p) != Lookup(Some(r), p)
    ensures Rewritten(a, r, path)
    decreases |p|
  {
    if p == [] {
      assert path + p == path;
    } else {
      LookupNone(p[1..]);
      assert (path + [p[0]]) + p[1..] == path + p;
      RewrittenAt(a.fields[p[0]], r.fields[p[0]], path + [p[0]], p[1..]);
    }
  }

  lemma {:induction false} RewrittenPin(a: Json, r: Json, path: Path) returns (p: Path)
    requires Rewritten(a, r, path)
    ensures Lookup(Some(r), p).Some? && !Lookup(Some(r), p).value.Obj? && !Frozen(path + p)
    ensures Lookup(Some(a), p) != Lookup(Some(r), p)
    decreases r
  {
    if r.Obj? {
      var k :| k in r.fields && k in a.fields && Rewritten(a.fields[k], r.fields[k], path + [k]);
      var q := RewrittenPin(a.fields[k], r.fields[k], path + [k]);
      p := [k] + q;
      assert p[1..] == q && path + p == (path + [k]) + q;
    } else {
      p := [];
      assert path + p == path;
    }
  }

  /** Every pin is kept as it was. */
  ghost predicate KeepsPins(x: Option<Json>, r: Json) {
    forall p | PinnedAt(r, p) :: Lookup(x, p) == Lookup(Some(r), p)
  }

  lemma PinsAreKeptIff(a: Json, r: Json)
    requires Authentic(a, r, []) && r.Obj? && Adopt(a, r, []).Some?
    ensures KeepsPins(Adopt(a, r, []), r) <==> !Rewritten(a, r, [])
  {
    hide Frozen, Authentic, Adopt, Rewritten;
    AuthenticObjects(a, r);
    if Rewritten(a, r, []) {
      var p := RewrittenPin(a, r, []);
      assert [] + p == p;
      PinsAreKept(a, r, p);
    } else {
      forall p | PinnedAt(r, p) ensures Lookup(Adopt(a, r, []), p) == Lookup(Some(r), p) {
        PinsAreKept(a, r, p);
        assert [] + p == p;
        if Lookup(Some(a), p) != Lookup(Some(r), p) {
          RewrittenAt(a, r, [], p);
        }
      }
    }
  }

  lemma AuthenticObjects(a: Json, r: Json)
    requires Authentic(a, r, [])
    ensures a.Obj? <==> r.Obj?
  {
    RootIsNotFrozen();
  }

  lemma RootIsNotFrozen()
    ensures !Frozen([])
  {
    assert Dotted([]) == "conditions" && |"conditions"| == 10 && |FEATURES| > 10 && |TRAINING| > 10;
  }

  /** A frozen list becomes the live one, which has every pinned entry. */
  lemma FrozenListsGrow(a: Json, r: Json, p: Path)
    requires Authentic(a, r, []) && r.Obj? && Adopt(a, r, []).Some?
    requires Lookup(Some(r), p).Some? && Lookup(Some(r), p).value.List? && Frozen(p)
    ensures var x := Lookup(Adopt(a, r, []), p);
            && x == Lookup(Some(a), p) && x.Some? && x.value.List?
            && forall i | 0 <= i < |Lookup(Some(r), p).value.items| :: In(Lookup(Some(r), p).value.items[i], x.value.items)
  {
    hide Frozen;
    assert [] + p == p;
    AuthenticAt(a, r, [], p);
    TopStays(a, r, p);
  }

  datatype Adoption =
    | Adopted(conditions: Json)
    | Mismatch          // authentication failed
    | NotIterable       // a live value that list() does not take
    | NotAnObject       // the assertion at the end

  method AdoptUncovered(actual: Json, recorded: Json) returns (o: Adoption)
    ensures o == Mismatch <==> !Authentic(actual, recorded, [])
    ensures o == NotAnObject <==> Authentic(actual, recorded, []) && !recorded.Obj?
    ensures o == NotIterable <==>
              Authentic(actual, recorded, []) && actual.Obj? && recorded.Obj? && !BelowPins(actual, recorded, Iterable)
    ensures o.Adopted? ==>
              && actual.Obj? && recorded.Obj? && Adopt(actual, recorded, []) == Some(o.conditions)
              && (o.conditions == actual <==> BelowPins(actual, recorded, Kept))
              && (Equal(o.conditions, actual) <==> BelowPins(actual, recorded, Kept))
              && (Authentic(actual, o.conditions, []) <==> Covered(actual, o.conditions, []))
              && (Covered(actual, o.conditions, []) <==>
                    BelowPins(actual, recorded, Kept) && FrozenValues(actual, [], Iterable))
              && (KeepsPins(Some(o.conditions), recorded) <==> !Rewritten(actual, recorded, []))
  {
    hide Authentic, BelowPins, Covered, FrozenValues, KeepsPins, Rewritten, Frozen;
    var uncovered := Authenticate(actual, recorded);
    if uncovered.None? {
      return Mismatch;
    }
    AuthenticObjects(actual, recorded);
    RootIsNotFrozen();
    var adopted := Adopt(actual, recorded, []);
    if recorded.Obj? {
      AdoptedEqualsLive(actual, recorded);
      if adopted.Some? {
        AdoptedIsCovered(actual, recorded);
        PinsAreKeptIff(actual, recorded);
      }
    }
    if adopted.None? {
      return NotIterable;
    }
    if !adopted.value.Obj? {
      return NotAnObject;
    }
    o := Adopted(adopted.value);
  }

  // The exceptions are real.

  ghost function WithFeatures(features: Json): Json {
    Obj(map["frozen_dataclass_fields" := Obj(map["features" := features])])
  }

  ghost function WithoutFeatures(): Json {
    Obj(map["frozen_dataclass_fields" := Obj(map[])])
  }

  lemma FeaturesAreFrozen(p: Path)
    requires p == ["frozen_dataclass_fields", "features"]
    ensures Frozen(p)
  {
    var outer := p[..1];
    assert outer == ["frozen_dataclass_fields"] && outer[..0] == [];
    assert Dotted(outer) == "conditions" + "." + "frozen_dataclass_fields";
    assert Dotted(p) == Dotted(outer) + "." + "features";
  }

  lemma LiveFeatures(x: Json, r: Json, ok: Json -> bool)
    requires r == WithFeatures(x) || r == WithoutFeatures()
    requires !ok(x)
    ensures !BelowPins(WithFeatures(x), r, ok)
  {
    hide Frozen;
    var a := WithFeatures(x);
    var k, p := "frozen_dataclass_fields", ["frozen_dataclass_fields", "features"];
    FeaturesAreFrozen(p);
    assert p[1..] == ["features"] && p[1..][1..] == [] && [k] <= p;
    assert Lookup(Some(a.fields[k]), p[|[k]|..]) == Some(x);
    assert k in a.fields && k in r.fields;
  }

  lemma UnpinnedIsAuthentic(x: Json)
    ensures Authentic(WithFeatures(x), WithoutFeatures(), [])
  {
    assert Authentic(WithFeatures(x).fields["frozen_dataclass_fields"], Obj(map[]), [] + ["frozen_dataclass_fields"]);
  }

  lemma PinnedIsAuthentic(s: string)
    ensures Authentic(WithFeatures(Str(s)), WithFeatures(Str(s)), [])
  {
    hide Frozen;
    var a := WithFeatures(Str(s));
    var inner := a.fields["frozen_dataclass_fields"];
    assert Authentic(Str(s), Str(s), ([] + ["frozen_dataclass_fields"]) + ["features"]);
    assert Authentic(inner, inner, [] + ["frozen_dataclass_fields"]);
  }

  /** A live string in place of a list authenticates, pinned or not, and adoption makes a list of its characters, which does not. */
  lemma AStringIsTakenApart(r: Json)
    requires r == WithFeatures(Str("ab")) || r == WithoutFeatures()
    ensures var a := WithFeatures(Str("ab"));
            && Authentic(a, r, []) && Adopt(a, r, []).Some?
            && !Equal(Adopt(a, r, []).value, a) && !Authentic(a, Adopt(a, r, []).value, [])
  {
    hide Authentic, BelowPins, Covered, Frozen;
    var a := WithFeatures(Str("ab"));
    PinnedIsAuthentic("ab");
    UnpinnedIsAuthentic(Str("ab"));
    LiveFeatures(Str("ab"), r, Kept);
    AdoptedEqualsLive(a, r);
    assert Adopt(a, r, []).Some?;
    AdoptedIsCovered(a, r);
  }

  /** A live number that is not pinned passes authentication, and adoption raises. */
  lemma ANumberRaises()
    ensures var a := WithFeatures(Int(5));
            Authentic(a, WithoutFeatures(), []) && Adopt(a, WithoutFeatures(), []) == None
  {
    UnpinnedIsAuthentic(Int(5));
    LiveFeatures(Int(5), WithoutFeatures(), Iterable);
    AdoptedEqualsLive(WithFeatures(Int(5)), WithoutFeatures());
  }

  lemma XIsNotFrozen()
    ensures !Frozen(["x"])
  {
    assert ["x"][..0] == [];
    assert Dotted(["x"]) == "conditions" + "." + "x" && |Dotted(["x"])| == 12 && |FEATURES| > 12 && |TRAINING| > 12;
  }

  /** A pinned 1 becomes the live 1.0. */
  lemma APinIsRewritten()
    ensures var a, r := Obj(map["x" := Num(1.0)]), Obj(map["x" := Int(1)]);
            Authentic(a, r, []) && Adopt(a, r, []) == Some(a) && a != r && PinnedAt(r, ["x"])
  {
    hide Frozen;
    var a, r := Obj(map["x" := Num(1.0)]), Obj(map["x" := Int(1)]);
    var path := [] + ["x"];
    assert path == ["x"] && !Frozen(path) by {
      XIsNotFrozen();
    }
    assert Authentic(Num(1.0), Int(1), path);
    assert Adopt(a, r, []).value.fields == a.fields;
  }
}
