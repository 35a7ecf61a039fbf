/** Differences between two provenance documents, read as a patch from the first to the second. */
module ProvenanceDiff {
  import opened Options
  import opened Json
  import opened SortedStrings

  // Normalisation: diagnostic paths are left out at every level.

  function WithoutPaths(j: Json): Json {
    match j
    case Obj(m) => Obj(map k | k in m && k != "path" :: WithoutPaths(m[k]))
    case List(items) => List(seq(|items|, i requires 0 <= i < |items| => WithoutPaths(items[i])))
    case _ => j
  }

  lemma {:induction false} NormalisingTwice(j: Json)
    ensures WithoutPaths(WithoutPaths(j)) == WithoutPaths(j)
  {
    match j
    case Obj(m) =>
      forall k | k in m { NormalisingTwice(m[k]); }
    case List(items) =>
      forall i | 0 <= i < |items| { NormalisingTwice(items[i]); }
    case _ =>
  }

  // Places in a document, lists included.
  datatype Place = Key(key: string) | Index(index: nat)

  ghost function At(j: Option<Json>, places: seq<Place>): Option<Json>
    decreases |places|
  {
    if places == [] || j.None? then j
    else
      At(match places[0]
         case Key(k) => if j.value.Obj? then Get(j.value.fields, k) else None
         case Index(i) => if j.value.List? && i < |j.value.items| then Some(j.value.items[i]) else None,
         places[1..])
  }

  /** x is what normalising leaves of y, as far as one can see without looking inside. */
  ghost predicate Pruned(x: Json, y: Json) {
    match y
    case Obj(m) => x.Obj? && x.fields.Keys == m.Keys - {"path"}
    case List(items) => x.List? && |x.items| == |items|
    case _ => x == y
  }

  /** Nothing is left at or below a key "path", at any depth; everything else is where it was. */
  lemma {:induction false} WithoutPathsMeans(j: Json, places: seq<Place>)
    ensures At(Some(WithoutPaths(j)), places).Some? <==> At(Some(j), places).Some? && Key("path") !in places
    ensures At(Some(WithoutPaths(j)), places).Some? ==>
              Pruned(At(Some(WithoutPaths(j)), places).value, At(Some(j), places).value)
    decreases |places|
  {
    if places != [] {
      var rest := places[1..];
      assert Key("path") in places <==> places[0] == Key("path") || Key("path") in rest;
      NothingAt(rest);
      match places[0]
      case Key(k) =>
        if j.Obj? && k in j.fields && k != "path" {
          WithoutPathsMeans(j.fields[k], rest);
        }
      case Index(i) =>
        if j.List? && i < |j.items| {
          WithoutPathsMeans(j.items[i], rest);
        }
    }
  }

  lemma NothingAt(places: seq<Place>)
    ensures At(None, places) == None
  {
  }

  // Rows: what a path holds in each document; a missing side makes the row an addition or a removal.

  datatype Row = Row(path: seq<string>, first: Option<Json>, second: Option<Json>)

  ghost function Diff(a: Json, b: Json, path: seq<string>): seq<Row>
    decreases a, 1, 0
  {
    if a.Obj? && b.Obj? then DiffKeys(a, b, Sort(a.fields.Keys + b.fields.Keys), path)
    else if !Equal(a, b) then [Row(path, Some(a), Some(b))]
    else []
  }

  ghost function DiffKeys(a: Json, b: Json, keys: seq<string>, path: seq<string>): seq<Row>
    requires a.Obj? && b.Obj?
    decreases a, 0, |keys|
  {
    if keys == [] then [] else DiffKey(a, b, keys[0], path) + DiffKeys(a, b, keys[1..], path)
  }

  ghost function DiffKey(a: Json, b: Json, k: string, path: seq<string>): seq<Row>
    requires a.Obj? && b.Obj?
    decreases a, 0, 0
  {
    var x, y := Get(a.fields, k), Get(b.fields, k);
    if x.Some? && y.Some? then Diff(x.value, y.value, path + [k])
    else if x.None? && y.None? then []
    else [Row(path + [k], x, y)]
  }

  /** The visitor appends its rows to one list. */
  class Visitor {
    var differences: seq<Row>

    constructor ()
      ensures differences == []
    {
      differences := [];
    }

    method Visit(a: Json, b: Json, path: seq<string>)
      modifies this
      ensures differences == old(differences) + Diff(a, b, path)
      decreases a
    {
      hide Equal, Sort;
      if a.Obj? && b.Obj? {
        var keys := SortedKeys(a.fields.Keys + b.fields.Keys);
        for i := 0 to |keys|
          invariant differences + DiffKeys(a, b, keys[i..], path) == old(differences) + Diff(a, b, path)
        {
          var k := keys[i];
          assert keys[i..][0] == k && keys[i..][1..] == keys[i+1..];
          ghost var was := differences;
          if k in a.fields && k in b.fields {
            Visit(a.fields[k], b.fields[k], path + [k]);
          } else {
            // One side is missing, which equals nothing.
            if k in a.fields || k in b.fields {
              differences := differences + [Row(path + [k], Get(a.fields, k), Get(b.fields, k))];
            }
          }
          assert differences == was + DiffKey(a, b, k, path);
          Regroup(was, DiffKey(a, b, k, path), DiffKeys(a, b, keys[i+1..], path));
        }
        assert differences + [] == differences;
      } else if !Equal(a, b) {
        differences := differences + [Row(path, Some(a), Some(b))];
      } else {
        assert differences + [] == differences;
      }
    }
  }

  lemma Regroup(a: seq<Row>, b: seq<Row>, c: seq<Row>)
    ensures (a + b) + c == a + (b + c)
  {
  }

  method Differences(a: Json, b: Json) returns (rows: seq<Row>)
    ensures rows == Diff(WithoutPaths(a), WithoutPaths(b), [])
  {
    var visitor := new Visitor();
    visitor.Visit(WithoutPaths(a), WithoutPaths(b), []);
    rows := visitor.differences;
  }

  // The rows as a patch.

  /** Put a value, or its absence, at a path; a path that leads through something else than objects changes nothing. */
  ghost function Put(j: Option<Json>, path: seq<string>, v: Option<Json>): Option<Json>
    decreases |path|
  {
    if path == [] then v
    else if j.Some? && j.value.Obj? then
      Some(PutField(j.value, path[0], Put(Get(j.value.fields, path[0]), path[1..], v)))
    else j
  }

  ghost function PutField(j: Json, k: string, v: Option<Json>): Json
    requires j.Obj?
  {
    Obj(if v.Some? then j.fields[k := v.value] else j.fields - {k})
  }

  /** Apply the rows one after the other, below the first d keys of their paths. */
  ghost function Patch(j: Option<Json>, rows: seq<Row>, d: nat): Option<Json>
    decreases |rows|
  {
    if rows == [] then j
    else
      var p := rows[0].path;
      Patch(if d <= |p| then Put(j, p[d..], rows[0].second) else j, rows[1..], d)
  }

  /** Every row lies strictly below path, through key k. */
  ghost predicate Through(rows: seq<Row>, path: seq<string>, k: string) {
    forall i | 0 <= i < |rows| :: path + [k] <= rows[i].path
  }

  ghost predicate ThroughOne(p: seq<string>, path: seq<string>, keys: seq<string>) {
    exists k :: k in keys && path + [k] <= p
  }

  lemma {:induction false} PatchConcat(j: Option<Json>, r: seq<Row>, s: seq<Row>, d: nat)
    ensures Patch(j, r + s, d) == Patch(Patch(j, r, d), s, d)
    decreases |r|
  {
    if r == [] {
      assert r + s == s;
    } else {
      assert (r + s)[1..] == r[1..] + s;
      var p := r[0].path;
      PatchConcat(if d <= |p| then Put(j, p[d..], r[0].second) else j, r[1..], s, d);
    }
  }

  lemma {:induction false} PatchThrough(j: Json, rows: seq<Row>, path: seq<string>, k: string)
    requires j.Obj? && Through(rows, path, k)
    ensures rows != [] ==>
              Patch(Some(j), rows, |path|) == Some(PutField(j, k, Patch(Get(j.fields, k), rows, |path| + 1)))
    decreases |rows|
  {
    if rows != [] {
      var p := rows[0].path;
      assert p[|path|..][0] == k && p[|path|..][1..] == p[|path|+1..];
      var x := Put(Get(j.fields, k), p[|path|+1..], rows[0].second);
      var j' := PutField(j, k, x);
      assert Get(j'.fields, k) == x;
      if |rows| > 1 {
        PatchThrough(j', rows[1..], path, k);
        var y := Patch(x, rows[1..], |path| + 1);
        assert PutField(j', k, y) == PutField(j, k, y);
      }
    }
  }

  lemma {:induction false} DiffExtends(a: Json, b: Json, path: seq<string>)
    ensures forall i | 0 <= i < |Diff(a, b, path)| :: path <= Diff(a, b, path)[i].path
    decreases a, 1, 0
  {
    if a.Obj? && b.Obj? {
      DiffKeysExtend(a, b, Sort(a.fields.Keys + b.fields.Keys), path);
    }
  }

  lemma {:induction false} DiffKeysExtend(a: Json, b: Json, keys: seq<string>, path: seq<string>)
    requires a.Obj? && b.Obj?
    ensures forall i | 0 <= i < |DiffKeys(a, b, keys, path)| :: path <= DiffKeys(a, b, keys, path)[i].path
    ensures forall i | 0 <= i < |DiffKeys(a, b, keys, path)| ::
              ThroughOne(DiffKeys(a, b, keys, path)[i].path, path, keys)
    decreases a, 0, |keys|
  {
    if keys != [] {
      DiffKeyThrough(a, b, keys[0], path);
      DiffKeysExtend(a, b, keys[1..], path);
      var rows, head := DiffKeys(a, b, keys, path), DiffKey(a, b, keys[0], path);
      forall i | 0 <= i < |rows|
        ensures path <= rows[i].path && ThroughOne(rows[i].path, path, keys)
      {
        if i < |head| {
          assert keys[0] in keys && path + [keys[0]] <= rows[i].path;
        } else {
          assert rows[i] == DiffKeys(a, b, keys[1..], path)[i - |head|];
          var m :| m in keys[1..] && path + [m] <= rows[i].path;
          assert m in keys;
        }
      }
    }
  }

  lemma {:induction false} DiffKeyThrough(a: Json, b: Json, k: string, path: seq<string>)
    requires a.Obj? && b.Obj?
    ensures Through(DiffKey(a, b, k, path), path, k)
    decreases a, 0, 0
  {
    if k in a.fields && k in b.fields {
      DiffExtends(a.fields[k], b.fields[k], path + [k]);
    }
  }

  /** What the patch makes of the first document: the second, except that equal scalars stay as they were. */
  ghost function Patched(a: Json, b: Json): Json {
    if a.Obj? && b.Obj? then
      Obj(map k | k in b.fields :: if k in a.fields then Patched(a.fields[k], b.fields[k]) else b.fields[k])
    else if Equal(a, b) then a
    else b
  }

  lemma {:induction false} PatchYields(a: Json, b: Json, path: seq<string>)
    ensures Patch(Some(a), Diff(a, b, path), |path|) == Some(Patched(a, b))
    decreases a, 1, 0
  {
    if a.Obj? && b.Obj? {
      var keys := Sort(a.fields.Keys + b.fields.Keys);
      SortLists(a.fields.Keys + b.fields.Keys);
      forall i, j | 0 <= i < j < |keys| ensures keys[i] != keys[j] {
        BeforeIsTotal(keys[i], keys[j]);
      }
      PatchKeys(a, a, b, keys, path);
      AllKeysPatched(Patch(Some(a), DiffKeys(a, b, keys, path), |path|).value, a, b, keys);
    } else if !Equal(a, b) {
      var p := Diff(a, b, path)[0].path;
      assert p[|path|..] == [];
    }
  }

  lemma AllKeysPatched(r: Json, a: Json, b: Json, keys: seq<string>)
    requires r.Obj? && a.Obj? && b.Obj? && forall k | k in a.fields.Keys + b.fields.Keys :: k in keys
    requires forall k | k !in keys :: Get(r.fields, k) == Get(a.fields, k)
    requires forall k | k in keys ::
               Get(r.fields, k) ==
               if k in a.fields && k in b.fields then Some(Patched(a.fields[k], b.fields[k])) else Get(b.fields, k)
    ensures r == Patched(a, b)
  {
    hide Patched;
    PatchedField(a, b, "");
    forall k ensures Get(r.fields, k) == Get(Patched(a, b).fields, k) {
      PatchedField(a, b, k);
      assert k in a.fields || k in b.fields ==> k in a.fields.Keys + b.fields.Keys;
    }
    SameFields(r.fields, Patched(a, b).fields);
  }

  lemma PatchedField(a: Json, b: Json, k: string)
    requires a.Obj? && b.Obj?
    ensures Patched(a, b).Obj?
    ensures Get(Patched(a, b).fields, k) ==
            if k in a.fields && k in b.fields then Some(Patched(a.fields[k], b.fields[k])) else Get(b.fields, k)
  {
  }

  lemma SameFields(m: map<string, Json>, n: map<string, Json>)
    requires forall k :: Get(m, k) == Get(n, k)
    ensures m == n
  {
    forall k ensures (k in m <==> k in n) && (k in m && k in n ==> m[k] == n[k]) {
      assert Get(m, k) == Get(n, k);
    }
  }

  // Halfway through the keys: those done are as in the second document, the others as they were.
  lemma {:induction false} PatchKeys(now: Json, a: Json, b: Json, keys: seq<string>, path: seq<string>)
    requires now.Obj? && a.Obj? && b.Obj?
    requires forall i, j | 0 <= i < j < |keys| :: keys[i] != keys[j]
    requires forall k | k in keys :: Get(now.fields, k) == Get(a.fields, k)
    ensures var r := Patch(Some(now), DiffKeys(a, b, keys, path), |path|);
            && r.Some? && r.value.Obj?
            && (forall k | k !in keys :: Get(r.value.fields, k) == Get(now.fields, k))
            && (forall k | k in keys ::
                  Get(r.value.fields, k) ==
                  if k in a.fields && k in b.fields then Some(Patched(a.fields[k], b.fields[k])) else Get(b.fields, k))
    decreases a, 0, |keys|
  {
    if keys != [] {
      var k := keys[0];
      PatchKey(now, a, b, k, path);
      PatchConcat(Some(now), DiffKey(a, b, k, path), DiffKeys(a, b, keys[1..], path), |path|);
      var next := Patch(Some(now), DiffKey(a, b, k, path), |path|).value;
      assert forall m | m in keys :: m == k || m in keys[1..];
      assert k !in keys[1..];
      PatchKeys(next, a, b, keys[1..], path);
    }
  }

  lemma {:induction false} PatchKey(now: Json, a: Json, b: Json, k: string, path: seq<string>)
    requires now.Obj? && a.Obj? && b.Obj? && Get(now.fields, k) == Get(a.fields, k)
    ensures var r := Patch(Some(now), DiffKey(a, b, k, path), |path|);
            && r.Some? && r.value.Obj?
            && (forall m | m != k :: Get(r.value.fields, m) == Get(now.fields, m))
            && Get(r.value.fields, k) ==
               if k in a.fields && k in b.fields then Some(Patched(a.fields[k], b.fields[k])) else Get(b.fields, k)
    decreases a, 0, 0
  {
    var rows := DiffKey(a, b, k, path);
    DiffKeyThrough(a, b, k, path);
    PatchThrough(now, rows, path, k);
    if k in a.fields && k in b.fields {
      PatchYields(a.fields[k], b.fields[k], path + [k]);
    } else if rows != [] {
      assert rows[0].path[|path|+1..] == [] && rows[1..] == [];
    }
  }

  // Main results.

  /** At the same keys, values that Python finds equal differ: as a boolean, an integer, a float or -0.0, perhaps inside a list. */
  ghost predicate Aliased(a: Json, b: Json) {
    if a.Obj? && b.Obj? then exists k | k in a.fields && k in b.fields :: Aliased(a.fields[k], b.fields[k])
    else Equal(a, b) && a != b
  }

  lemma {:induction false} PatchedIsEqual(a: Json, b: Json)
    ensures Equal(Patched(a, b), b)
    ensures Patched(a, b) == b <==> !Aliased(a, b)
  {
    if a.Obj? && b.Obj? {
      var r := Patched(a, b);
      forall k | k in a.fields && k in b.fields
        ensures Equal(r.fields[k], b.fields[k])
        ensures r.fields[k] == b.fields[k] <==> !Aliased(a.fields[k], b.fields[k])
      {
        PatchedIsEqual(a.fields[k], b.fields[k]);
      }
      EqualFields(r.fields, b.fields);
      assert r.fields.Keys == b.fields.Keys;
      if !Aliased(a, b) {
        assert r.fields == b.fields;
      }
    }
  }

  lemma {:induction false} SilentIffEqual(a: Json, b: Json, path: seq<string>)
    ensures Diff(a, b, path) == [] <==> Equal(a, b)
    decreases a, 1, 0
  {
    hide Equal, Sort;
    if a.Obj? && b.Obj? {
      var keys := Sort(a.fields.Keys + b.fields.Keys);
      SortLists(a.fields.Keys + b.fields.Keys);
      SilentKeys(a, b, keys, path);
      forall k ensures DiffKey(a, b, k, path) == [] <==> AgreeAt(a, b, k) {
        if k in a.fields && k in b.fields {
          SilentIffEqual(a.fields[k], b.fields[k], path + [k]);
        }
      }
      AgreeEverywhere(a, b, keys);
    }
  }

  ghost predicate AgreeAt(a: Json, b: Json, k: string)
    requires a.Obj? && b.Obj?
  {
    (k in a.fields <==> k in b.fields) && (k in a.fields && k in b.fields ==> Equal(a.fields[k], b.fields[k]))
  }

  lemma AgreeEverywhere(a: Json, b: Json, keys: seq<string>)
    requires a.Obj? && b.Obj? && forall k | k in a.fields.Keys + b.fields.Keys :: k in keys
    ensures Equal(a, b) <==> forall k | k in keys :: AgreeAt(a, b, k)
  {
    EqualFields(a.fields, b.fields);
    SameKeys(a.fields.Keys, b.fields.Keys, keys);
    if forall k | k in keys :: AgreeAt(a, b, k) {
      forall k | k in a.fields && k in b.fields ensures Equal(a.fields[k], b.fields[k]) {
        assert k in a.fields.Keys + b.fields.Keys && k in keys;
      }
    }
  }

  lemma SameKeys(m: set<string>, n: set<string>, keys: seq<string>)
    requires forall k | k in m + n :: k in keys
    ensures m == n <==> forall k | k in keys :: k in m <==> k in n
  {
  }

  lemma {:induction false} SilentKeys(a: Json, b: Json, keys: seq<string>, path: seq<string>)
    requires a.Obj? && b.Obj?
    ensures DiffKeys(a, b, keys, path) == [] <==> forall k | k in keys :: DiffKey(a, b, k, path) == []
    decreases |keys|
  {
    if keys != [] {
      SilentKeys(a, b, keys[1..], path);
      assert keys[0] in keys && forall k | k in keys[1..] :: k in keys;
      forall k | k in keys ensures k == keys[0] || k in keys[1..] {
      }
    }
  }

  /** No row's path leads to or through another's. */
  ghost predicate PrefixFree(rows: seq<Row>) {
    forall i, j | 0 <= i < |rows| && 0 <= j < |rows| && i != j :: !(rows[i].path <= rows[j].path)
  }

  lemma {:induction false} DiffIsPrefixFree(a: Json, b: Json, path: seq<string>)
    ensures PrefixFree(Diff(a, b, path))
    decreases a, 1, 0
  {
    if a.Obj? && b.Obj? {
      var keys := Sort(a.fields.Keys + b.fields.Keys);
      SortLists(a.fields.Keys + b.fields.Keys);
      forall i, j | 0 <= i < j < |keys| ensures keys[i] != keys[j] {
        BeforeIsTotal(keys[i], keys[j]);
      }
      KeysArePrefixFree(a, b, keys, path);
    }
  }

  lemma {:induction false} KeysArePrefixFree(a: Json, b: Json, keys: seq<string>, path: seq<string>)
    requires a.Obj? && b.Obj?
    requires forall i, j | 0 <= i < j < |keys| :: keys[i] != keys[j]
    ensures PrefixFree(DiffKeys(a, b, keys, path))
    decreases a, 0, |keys|
  {
    if keys != [] {
      var k := keys[0];
      var head, tail := DiffKey(a, b, k, path), DiffKeys(a, b, keys[1..], path);
      if k in a.fields && k in b.fields {
        DiffIsPrefixFree(a.fields[k], b.fields[k], path + [k]);
      }
      DiffKeyThrough(a, b, k, path);
      KeysArePrefixFree(a, b, keys[1..], path);
      DiffKeysExtend(a, b, keys[1..], path);
      JoinPrefixFree(head, tail, path, k, keys[1..]);
    }
  }

  lemma JoinPrefixFree(head: seq<Row>, tail: seq<Row>, path: seq<string>, k: string, others: seq<string>)
    requires PrefixFree(head) && PrefixFree(tail) && Through(head, path, k) && k !in others
    requires forall i | 0 <= i < |tail| :: ThroughOne(tail[i].path, path, others)
    ensures PrefixFree(head + tail)
  {
    var rows := head + tail;
    forall i, j | 0 <= i < |rows| && 0 <= j < |rows| && i != j ensures !(rows[i].path <= rows[j].path) {
      forall n | 0 <= n < |rows| ensures |rows[n].path| > |path| && (rows[n].path[|path|] == k <==> n < |head|) {
        if n < |head| {
          assert path + [k] <= rows[n].path;
        } else {
          var m :| m in others && path + [m] <= tail[n - |head|].path;
        }
      }
    }
  }

  /** Where the paths part, the key of p sorts before that of q. */
  ghost predicate SortsBefore(p: seq<string>, q: seq<string>) {
    exists n :: 0 <= n < |p| && n < |q| && p[..n] == q[..n] && Before(p[n], q[n])
  }

  ghost predicate RowsSorted(rows: seq<Row>) {
    forall i, j | 0 <= i < j < |rows| :: SortsBefore(rows[i].path, rows[j].path)
  }

  /** Rows come in the order of their paths, key by key. */
  lemma {:induction false} RowsAreSorted(a: Json, b: Json, path: seq<string>)
    ensures RowsSorted(Diff(a, b, path))
    decreases a, 1, 0
  {
    if a.Obj? && b.Obj? {
      var keys := Sort(a.fields.Keys + b.fields.Keys);
      SortLists(a.fields.Keys + b.fields.Keys);
      KeyRowsAreSorted(a, b, keys, path);
    }
  }

  lemma {:induction false} KeyRowsAreSorted(a: Json, b: Json, keys: seq<string>, path: seq<string>)
    requires a.Obj? && b.Obj?
    requires forall i, j | 0 <= i < j < |keys| :: Before(keys[i], keys[j])
    ensures RowsSorted(DiffKeys(a, b, keys, path))
    decreases a, 0, |keys|
  {
    hide RowsSorted, Through, ThroughOne;
    if keys == [] {
      OneRowIsSorted([]);
    } else {
      var k := keys[0];
      if k in a.fields && k in b.fields {
        RowsAreSorted(a.fields[k], b.fields[k], path + [k]);
      } else {
        OneRowIsSorted(DiffKey(a, b, k, path));
      }
      DiffKeyThrough(a, b, k, path);
      KeyRowsAreSorted(a, b, keys[1..], path);
      DiffKeysExtend(a, b, keys[1..], path);
      JoinSorted(DiffKey(a, b, k, path), DiffKeys(a, b, keys[1..], path), path, k, keys[1..]);
    }
  }

  lemma OneRowIsSorted(rows: seq<Row>)
    requires |rows| <= 1
    ensures RowsSorted(rows)
  {
  }

  lemma JoinSorted(head: seq<Row>, tail: seq<Row>, path: seq<string>, k: string, others: seq<string>)
    requires RowsSorted(head) && RowsSorted(tail) && Through(head, path, k)
    requires forall m | m in others :: Before(k, m)
    requires forall i | 0 <= i < |tail| :: ThroughOne(tail[i].path, path, others)
    ensures RowsSorted(head + tail)
  {
    var rows := head + tail;
    forall i, j | 0 <= i < j < |rows| ensures SortsBefore(rows[i].path, rows[j].path) {
      if i < |head| <= j {
        HeadBeforeTail(rows[i].path, rows[j].path, path, k, others);
      } else if j < |head| {
        assert rows[i] == head[i] && rows[j] == head[j];
      } else {
        assert rows[i] == tail[i - |head|] && rows[j] == tail[j - |head|];
      }
    }
  }

  lemma HeadBeforeTail(p: seq<string>, q: seq<string>, path: seq<string>, k: string, others: seq<string>)
    requires path + [k] <= p && ThroughOne(q, path, others) && forall m | m in others :: Before(k, m)
    ensures SortsBefore(p, q)
  {
    var m :| m in others && path + [m] <= q;
    var n := |path|;
    assert p[..n] == path && q[..n] == path && p[n] == k && q[n] == m;
  }

  /**
   * The rows say nothing exactly when Python finds the normalised documents equal, no row's path is a
   * prefix of another's, and applying them to the first document gives one that Python finds equal to
   * the second; it is the second itself exactly when no two values at the
   * same keys are equal to Python and yet differ, as true and 1 or 1 and 1.0 do.
   */
  lemma DifferencesArePatch(a: Json, b: Json)
    ensures var m, n := WithoutPaths(a), WithoutPaths(b);
            var rows := Diff(m, n, []);
            && (rows == [] <==> Equal(m, n))
            && PrefixFree(rows)
            && Patch(Some(m), rows, 0).Some? && Equal(Patch(Some(m), rows, 0).value, n)
            && (Patch(Some(m), rows, 0) == Some(n) <==> !Aliased(m, n))
  {
    var m, n := WithoutPaths(a), WithoutPaths(b);
    SilentIffEqual(m, n, []);
    DiffIsPrefixFree(m, n, []);
    PatchYields(m, n, []);
    PatchedIsEqual(m, n);
  }

  lemma ScalarsPass(x: Json, y: Json)
    requires Equal(x, y) && x != y && !x.Obj? && !x.List? && !y.Obj? && !y.List?
    ensures var m, n := Obj(map["x" := x]), Obj(map["x" := y]);
            WithoutPaths(m) == m && WithoutPaths(n) == n && m != n && Diff(m, n, []) == []
  {
    var m, n := Obj(map["x" := x]), Obj(map["x" := y]);
    assert m.fields["x"] != n.fields["x"];
    EqualFields(m.fields, n.fields);
    SilentIffEqual(m, n, []);
  }

  /** The exceptions are real: true, 1 and 1.0 differ, as do 0.0 and -0.0, and no row says so. */
  lemma TruePassesForOne()
    ensures var m, n := Obj(map["x" := Bool(true)]), Obj(map["x" := Int(1)]);
            WithoutPaths(m) == m && WithoutPaths(n) == n && m != n && Diff(m, n, []) == []
    ensures var m, n := Obj(map["x" := Int(1)]), Obj(map["x" := Num(1.0)]);
            WithoutPaths(m) == m && WithoutPaths(n) == n && m != n && Diff(m, n, []) == []
    ensures var m, n := Obj(map["x" := Num(0.0)]), Obj(map["x" := MinusZero]);
            WithoutPaths(m) == m && WithoutPaths(n) == n && m != n && Diff(m, n, []) == []
  {
    ScalarsPass(Num(0.0), MinusZero);
    ScalarsPass(Bool(true), Int(1));
    ScalarsPass(Int(1), Num(1.0));
  }

  // Rows are also true of the two documents, entry by entry.

  /** One side is missing, or Python finds the sides different. */
  ghost predicate Differ(x: Option<Json>, y: Option<Json>) {
    (x.Some? || y.Some?) && (x.Some? && y.Some? ==> !Equal(x.value, y.value))
  }

  lemma {:induction false} RowsAreTrue(a: Json, b: Json, path: seq<string>, i: nat)
    requires i < |Diff(a, b, path)|
    ensures var r := Diff(a, b, path)[i];
            && path <= r.path && Differ(r.first, r.second)
            && r.first == Lookup(Some(a), r.path[|path|..]) && r.second == Lookup(Some(b), r.path[|path|..])
    decreases a, 1, 0
  {
    if a.Obj? && b.Obj? {
      KeyRowsAreTrue(a, b, Sort(a.fields.Keys + b.fields.Keys), path, i);
    } else {
      assert path[|path|..] == [];
    }
  }

  lemma {:induction false} KeyRowsAreTrue(a: Json, b: Json, keys: seq<string>, path: seq<string>, i: nat)
    requires a.Obj? && b.Obj? && i < |DiffKeys(a, b, keys, path)|
    ensures var r := DiffKeys(a, b, keys, path)[i];
            && path <= r.path && Differ(r.first, r.second)
            && r.first == Lookup(Some(a), r.path[|path|..]) && r.second == Lookup(Some(b), r.path[|path|..])
    decreases a, 0, |keys|
  {
    var k := keys[0];
    var head := DiffKey(a, b, k, path);
    if i >= |head| {
      KeyRowsAreTrue(a, b, keys[1..], path, i - |head|);
    } else {
      var r := head[i];
      DiffKeyThrough(a, b, k, path);
      if k in a.fields && k in b.fields {
        RowsAreTrue(a.fields[k], b.fields[k], path + [k], i);
      } else {
        assert r.path[|path|+1..] == [];
      }
      assert r.path[|path|..][0] == k && r.path[|path|..][1..] == r.path[|path|+1..];
    }
  }
}
