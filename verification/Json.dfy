/**
 * JSON documents as Python holds them, with Python's equality, which takes True for 1, 1 for 1.0, and -0.0
 * for 0.0.  Num is a finite float other than -0.0.
 */
module Json {
  import opened Options

  datatype Json =
    | Null | Bool(b: bool) | Int(i: int) | Num(n: real) | MinusZero | Str(s: string)
    | List(items: seq<Json>) | Obj(fields: map<string, Json>)

  /** The value up to which Python compares. */
  function Erase(j: Json): Json {
    match j
    case Bool(b) => Num(if b then 1.0 else 0.0)
    case Int(i) => Num(i as real)
    case MinusZero => Num(0.0)
    case List(items) => List(seq(|items|, i requires 0 <= i < |items| => Erase(items[i])))
    case Obj(m) => Obj(map k | k in m :: Erase(m[k]))
    case _ => j
  }

  predicate Equal(a: Json, b: Json) {
    Erase(a) == Erase(b)
  }

  function Get(m: map<string, Json>, k: string): Option<Json> {
    if k in m then Some(m[k]) else None
  }

  /** The value at a path of keys. */
  function Lookup(j: Option<Json>, path: seq<string>): Option<Json>
    decreases |path|
  {
    if path == [] then j
    else if j.Some? && j.value.Obj? then Lookup(Get(j.value.fields, path[0]), path[1..])
    else None
  }

  lemma EqualFields(m: map<string, Json>, n: map<string, Json>)
    ensures Equal(Obj(m), Obj(n)) <==> m.Keys == n.Keys && forall k | k in m && k in n :: Equal(m[k], n[k])
  {
    var p, q := Erase(Obj(m)).fields, Erase(Obj(n)).fields;
    assert p.Keys == m.Keys && q.Keys == n.Keys;
    assert forall k | k in m :: p[k] == Erase(m[k]);
    assert forall k | k in n :: q[k] == Erase(n[k]);
    if m.Keys == n.Keys && forall k | k in m && k in n :: Equal(m[k], n[k]) {
      assert p == q;
    }
  }

  /** The number that a boolean, an integer or a float is. */
  ghost function Number(j: Json): Option<real> {
    match j
    case Bool(b) => Some(if b then 1.0 else 0.0)
    case Int(i) => Some(i as real)
    case Num(n) => Some(n)
    case MinusZero => Some(0.0)
    case _ => None
  }

  /** Equal are the same number, the same string or null, lists of equal items, and objects of equal fields. */
  lemma EqualMeans(a: Json, b: Json)
    ensures Equal(a, b) <==>
            if Number(a).Some? then Number(b) == Number(a)
            else match a
                 case List(x) => b.List? && |b.items| == |x| && forall i | 0 <= i < |x| :: Equal(x[i], b.items[i])
                 case Obj(m) => b.Obj? && b.fields.Keys == m.Keys && forall k | k in m && k in b.fields :: Equal(m[k], b.fields[k])
                 case _ => a == b
  {
    if a.Obj? && b.Obj? {
      EqualFields(a.fields, b.fields);
    }
    if a.List? && b.List? {
      EqualItems(a.items, b.items);
    }
  }

  lemma EqualItems(x: seq<Json>, y: seq<Json>)
    ensures Equal(List(x), List(y)) <==> |x| == |y| && forall i | 0 <= i < |x| && i < |y| :: Equal(x[i], y[i])
  {
    var p, q := Erase(List(x)).items, Erase(List(y)).items;
    assert |p| == |x| && |q| == |y|;
    assert forall i | 0 <= i < |x| :: p[i] == Erase(x[i]);
    assert forall i | 0 <= i < |y| :: q[i] == Erase(y[i]);
    if |x| == |y| && forall i | 0 <= i < |x| && i < |y| :: Equal(x[i], y[i]) {
      assert p == q;
    }
  }
}
