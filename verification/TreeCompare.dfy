/** Canonical forms of decision-tree node tables, and the first place where two of them differ. */
module TreeCompare {
  import opened Options

  datatype Node = Leaf | Split(left: int, right: int, question: string)

  // A parsed file: node numbers are serialization details.
  type Table = map<int, Node>

  datatype Canon = CLeaf | CSplit(question: string, left: Canon, right: Canon)

  datatype Error = RootMissing | ChildMissing(id: int) | Cycle(id: int) | Reused(id: int) | Unreachable

  datatype Stats = Stats(nodes: nat, internal: nat, leaves: nat)

  /** A binary tree of node numbers. */
  datatype Plan = Tip(id: int) | Fork(id: int, left: Plan, right: Plan)

  ghost function Ids(p: Plan): set<int> {
    match p
    case Tip(id) => {id}
    case Fork(id, l, r) => {id} + Ids(l) + Ids(r)
  }

  /** No number occurs twice. */
  ghost predicate Distinct(p: Plan) {
    p.Fork? ==>
      && p.id !in Ids(p.left) && p.id !in Ids(p.right) && Ids(p.left) !! Ids(p.right)
      && Distinct(p.left) && Distinct(p.right)
  }

  /** The table has the plan's nodes, with the plan's children. */
  ghost predicate Matches(p: Plan, t: Table) {
    && p.id in t
    && match p
       case Tip(id) => t[id].Leaf?
       case Fork(id, l, r) => t[id].Split? && t[id].left == l.id && t[id].right == r.id && Matches(l, t) && Matches(r, t)
  }

  /** The table is one full binary tree: rooted at 0, without sharing or cycles, covering every node. */
  ghost predicate IsTree(p: Plan, t: Table) {
    p.id == 0 && Matches(p, t) && Distinct(p) && Ids(p) == t.Keys
  }

  ghost function Shape(p: Plan, t: Table): Canon
    requires Matches(p, t)
  {
    match p
    case Tip(_) => CLeaf
    case Fork(id, l, r) => CSplit(t[id].question, Shape(l, t), Shape(r, t))
  }

  lemma {:induction false} PlanIsUnique(p: Plan, q: Plan, t: Table)
    requires Matches(p, t) && Matches(q, t) && p.id == q.id
    ensures p == q
  {
    if p.Fork? {
      PlanIsUnique(p.left, q.left, t);
      PlanIsUnique(p.right, q.right, t);
    }
  }

  lemma {:induction false} MatchedIdsExist(p: Plan, t: Table)
    requires Matches(p, t)
    ensures Ids(p) <= t.Keys && p.id in Ids(p)
  {
    if p.Fork? {
      MatchedIdsExist(p.left, t);
      MatchedIdsExist(p.right, t);
    }
  }

  // Routes, from a node down; true goes right.

  ghost function Follow(t: Table, start: int, route: seq<bool>): Option<int> {
    if route == [] then Some(start)
    else
      var above := Follow(t, start, route[..|route|-1]);
      if above.Some? && above.value in t && t[above.value].Split? then
        Some(if route[|route|-1] then t[above.value].right else t[above.value].left)
      else None
  }

  ghost predicate LeadsTo(t: Table, route: seq<bool>, id: int) {
    Follow(t, 0, route) == Some(id)
  }

  /** Below the root, the node is found again below itself. */
  ghost predicate OnCycle(t: Table, id: int) {
    exists a, b :: b != [] && LeadsTo(t, a, id) && LeadsTo(t, a + b, id) && Follow(t, id, b) == Some(id)
  }

  /** Two routes part somewhere and still lead to the node. */
  ghost predicate Shared(t: Table, id: int) {
    exists a, b :: Parts(a, b) && LeadsTo(t, a, id) && LeadsTo(t, b, id)
  }

  /** Where the routes first differ, a goes left and b right. */
  ghost predicate Parts(a: seq<bool>, b: seq<bool>) {
    exists i :: 0 <= i < |a| && i < |b| && a[..i] == b[..i] && !a[i] && b[i]
  }

  /** A child that the table does not have. */
  ghost predicate Dangles(t: Table, id: int) {
    id !in t && exists a :: a != [] && LeadsTo(t, a, id)
  }

  lemma {:induction false} FollowOn(t: Table, start: int, a: seq<bool>, b: seq<bool>, mid: int)
    requires Follow(t, start, a) == Some(mid)
    ensures Follow(t, start, a + b) == Follow(t, mid, b)
  {
    if b == [] {
      assert a + b == a;
    } else {
      FollowOn(t, start, a, b[..|b|-1], mid);
      assert (a + b)[..|a+b|-1] == a + b[..|b|-1];
    }
  }

  lemma FollowChild(t: Table, start: int, route: seq<bool>, id: int, right: bool)
    requires Follow(t, start, route) == Some(id) && id in t && t[id].Split?
    ensures Follow(t, start, route + [right]) == Some(if right then t[id].right else t[id].left)
  {
    assert (route + [right])[..|route|] == route;
  }

  lemma {:induction false} RouteInPlan(p: Plan, t: Table, id: int) returns (route: seq<bool>)
    requires Matches(p, t) && id in Ids(p)
    ensures Follow(t, p.id, route) == Some(id)
  {
    if id == p.id {
      route := [];
    } else {
      var right := id in Ids(p.right);
      var child := if right then p.right else p.left;
      var rest := RouteInPlan(child, t, id);
      FollowChild(t, p.id, [], p.id, right);
      assert [] + [right] == [right];
      FollowOn(t, p.id, [right], rest, child.id);
      route := [right] + rest;
    }
  }

  /** Where the sets of the walk lie: what is visited, along the route; what was visited, to the left of it. */
  ghost predicate Placed(t: Table, visiting: set<int>, visited: set<int>, route: seq<bool>) {
    && (forall v | v in visiting :: Along(t, route, v))
    && (forall v | v in visited :: LeftOf(t, route, v))
  }

  ghost predicate Along(t: Table, route: seq<bool>, id: int) {
    exists i :: 0 <= i < |route| && LeadsTo(t, route[..i], id)
  }

  ghost predicate LeftOf(t: Table, route: seq<bool>, id: int) {
    exists a :: Parts(a, route) && LeadsTo(t, a, id)
  }

  lemma AlongFurther(t: Table, route: seq<bool>, id: int, right: bool)
    requires Along(t, route, id) || LeadsTo(t, route, id)
    ensures Along(t, route + [right], id)
  {
    var next := route + [right];
    if LeadsTo(t, route, id) {
      assert next[..|route|] == route;
    } else {
      var i :| 0 <= i < |route| && LeadsTo(t, route[..i], id);
      assert next[..i] == route[..i];
    }
  }

  lemma LeftFurther(t: Table, route: seq<bool>, id: int, right: bool)
    requires LeftOf(t, route, id)
    ensures LeftOf(t, route + [right], id)
  {
    var a :| Parts(a, route) && LeadsTo(t, a, id);
    var i :| 0 <= i < |a| && i < |route| && a[..i] == route[..i] && !a[i] && route[i];
    assert (route + [right])[..i] == route[..i] && (route + [right])[i] == route[i];
    assert Parts(a, route + [right]);
  }

  // To the left child, and after its plan to the right one.
  lemma PlacedBelow(t: Table, visiting: set<int>, visited: set<int>, route: seq<bool>, id: int, right: bool)
    requires Placed(t, visiting, visited, route) && LeadsTo(t, route, id)
    ensures Placed(t, visiting + {id}, visited, route + [right])
  {
    forall v | v in visiting + {id} ensures Along(t, route + [right], v) {
      AlongFurther(t, route, v, right);
    }
    forall v | v in visited ensures LeftOf(t, route + [right], v) {
      LeftFurther(t, route, v, right);
    }
  }

  lemma PlacedRight(t: Table, visiting: set<int>, visited: set<int>, route: seq<bool>, id: int, l: Plan)
    requires Placed(t, visiting, visited, route) && LeadsTo(t, route, id)
    requires id in t && t[id].Split? && l.id == t[id].left && Matches(l, t)
    ensures Placed(t, visiting + {id}, visited + Ids(l), route + [true])
  {
    hide Along, LeftOf;
    PlacedBelow(t, visiting, visited, route, id, true);
    forall v | v in Ids(l) ensures LeftOf(t, route + [true], v) {
      LeftChild(t, route, id, l, v);
    }
  }

  lemma LeftChild(t: Table, route: seq<bool>, id: int, l: Plan, v: int)
    requires LeadsTo(t, route, id) && id in t && t[id].Split? && l.id == t[id].left && Matches(l, t) && v in Ids(l)
    ensures LeftOf(t, route + [true], v)
  {
    var rest := RouteInPlan(l, t, v);
    FollowChild(t, 0, route, id, false);
    FollowOn(t, 0, route + [false], rest, l.id);
    var a, b := (route + [false]) + rest, route + [true];
    assert a[..|route|] == b[..|route|] && !a[|route|] && b[|route|];
    assert Parts(a, b) && LeadsTo(t, a, v);
  }

  lemma CycleFound(t: Table, route: seq<bool>, id: int)
    requires Along(t, route, id) && LeadsTo(t, route, id)
    ensures OnCycle(t, id)
  {
    var i :| 0 <= i < |route| && LeadsTo(t, route[..i], id);
    assert route == route[..i] + route[i..];
    FollowOn(t, 0, route[..i], route[i..], id);
  }

  lemma GoDown(t: Table, visiting: set<int>, visited: set<int>, route: seq<bool>, id: int)
    requires Placed(t, visiting, visited, route) && LeadsTo(t, route, id) && id in t && t[id].Split?
    ensures Placed(t, visiting + {id}, visited, route + [false])
    ensures LeadsTo(t, route + [false], t[id].left) && LeadsTo(t, route + [true], t[id].right)
  {
    PlacedBelow(t, visiting, visited, route, id, false);
    FollowChild(t, 0, route, id, false);
    FollowChild(t, 0, route, id, true);
  }

  // What is wrong with a node that the walk comes to.
  lemma Found(t: Table, visiting: set<int>, visited: set<int>, route: seq<bool>, id: int)
    requires Placed(t, visiting, visited, route) && LeadsTo(t, route, id) && (route == [] ==> id in t)
    ensures id !in t ==> Dangles(t, id)
    ensures id in visiting ==> OnCycle(t, id)
    ensures id in visited ==> Shared(t, id)
  {
    if id in visiting {
      CycleFound(t, route, id);
    }
  }

  /** The table has the fault at the node. */
  ghost predicate Faulty(t: Table, e: Error) {
    match e
    case RootMissing => 0 !in t
    case ChildMissing(id) => Dangles(t, id)
    case Cycle(id) => OnCycle(t, id)
    case Reused(id) => Shared(t, id)
    case Unreachable => exists id :: id in t && forall route :: !LeadsTo(t, route, id)
  }

  // The walk.

  class Walker {
    const table: Table
    var visiting: set<int>
    var visited: set<int>

    constructor (table: Table)
      ensures this.table == table && visiting == {} && visited == {}
    {
      this.table := table;
      visiting, visited := {}, {};
    }

    // A plan from this node that uses no number already seen.
    ghost predicate Fits(p: Plan, id: int, seen: set<int>) {
      p.id == id && Matches(p, table) && Distinct(p) && Ids(p) !! seen
    }

    method Walk(id: int, ghost route: seq<bool>) returns (r: Result<Canon, Error>, ghost p: Plan)
      requires visiting <= table.Keys
      requires LeadsTo(table, route, id) && Placed(table, visiting, visited, route) && (route == [] ==> id in table)
      modifies this
      ensures r.Ok? ==>
                && Fits(p, id, old(visited + visiting)) && r.value == Shape(p, table)
                && visited == old(visited) + Ids(p) && visiting == old(visiting)
      ensures r.Err? ==> forall q :: !Fits(q, id, old(visited + visiting))
      ensures r.Err? ==> Faulty(table, r.error) && !r.error.RootMissing? && !r.error.Unreachable?
      decreases table.Keys - visiting
    {
      hide Follow, LeadsTo, Placed, OnCycle, Shared, Dangles;
      p := Tip(id);
      Found(table, visiting, visited, route, id);
      if id !in table {
        return Err(ChildMissing(id)), p;
      }
      assert forall q: Plan :: q.id in Ids(q);
      if id in visiting {
        return Err(Cycle(id)), p;
      }
      if id in visited {
        return Err(Reused(id)), p;
      }
      ghost var seen := visited + visiting;
      visiting := visiting + {id};
      var node := table[id];
      if node.Leaf? {
        r := Ok(CLeaf);
      } else {
        assert visited + visiting == seen + {id};
        GoDown(table, old(visiting), old(visited), route, id);
        var left, l := Walk(node.left, route + [false]);
        if left.Err? {
          assert forall q | Fits(q, id, seen) :: Fits(q.left, node.left, seen + {id});
          return left, p;
        }
        assert visited + visiting == seen + {id} + Ids(l);
        PlacedRight(table, old(visiting), old(visited), route, id, l);
        var right, s := Walk(node.right, route + [true]);
        if right.Err? {
          forall q | Fits(q, id, seen) ensures Fits(q.right, node.right, seen + {id} + Ids(l)) {
            PlanIsUnique(q.left, l, table);
          }
          return right, p;
        }
        p := Fork(id, l, s);
        r := Ok(CSplit(node.question, left.value, right.value));
      }
      visiting := visiting - {id};
      visited := visited + {id};
    }
  }

  lemma {:induction false} SubsetSize(a: set<int>, b: set<int>)
    requires a <= b
    ensures |a| <= |b| && (|a| == |b| ==> a == b)
  {
    if a != {} {
      var x := Pick(a);
      SubsetSize(a - {x}, b - {x});
    }
  }

  ghost function Internal(t: Table): set<int> {
    set id | id in t && t[id].Split?
  }

  method CountInternal(t: Table) returns (n: nat)
    ensures n == |Internal(t)|
  {
    n := 0;
    var rest := t.Keys;
    ghost var counted: set<int> := {};
    while rest != {}
      invariant rest <= t.Keys
      invariant counted == set id | id in t && id !in rest && t[id].Split?
      invariant n == |counted|
      decreases rest
    {
      ghost var some := Pick(rest);
      var id :| id in rest;
      rest := rest - {id};
      if t[id].Split? {
        n := n + 1;
        counted := counted + {id};
      }
    }
    assert counted == Internal(t);
  }

  ghost function Forks(p: Plan): set<int> {
    match p
    case Tip(_) => {}
    case Fork(id, l, r) => {id} + Forks(l) + Forks(r)
  }

  lemma UnionSize(x: int, a: set<int>, b: set<int>)
    requires x !in a && x !in b && a !! b
    ensures |{x} + a + b| == 1 + |a| + |b|
  {
    assert {x} + a + b == ({x} + a) + b;
  }

  lemma {:induction false} OneLeafMore(p: Plan)
    requires Distinct(p)
    ensures Forks(p) <= Ids(p) && |Ids(p)| == 2 * |Forks(p)| + 1
  {
    if p.Fork? {
      OneLeafMore(p.left);
      OneLeafMore(p.right);
      UnionSize(p.id, Ids(p.left), Ids(p.right));
      UnionSize(p.id, Forks(p.left), Forks(p.right));
    }
  }

  lemma {:induction false} ForksAreInternal(p: Plan, t: Table, id: int)
    requires Matches(p, t) && Distinct(p)
    ensures id in Forks(p) <==> id in Ids(p) && id in t && t[id].Split?
  {
    if p.Fork? {
      ForksAreInternal(p.left, t, id);
      ForksAreInternal(p.right, t, id);
    }
  }

  lemma {:induction false} RoutesStayInPlan(p: Plan, t: Table, route: seq<bool>)
    requires Matches(p, t) && Follow(t, p.id, route).Some?
    ensures Follow(t, p.id, route).value in Ids(p)
    decreases |route|
  {
    if route == [] {
      MatchedIdsExist(p, t);
    } else {
      var first, rest := route[..1], route[1..];
      assert route == first + rest && first[..0] == [];
      FollowSplits(t, p.id, first, rest);
      var child := if route[0] then p.right else p.left;
      assert Follow(t, p.id, first) == Some(child.id);
      FollowOn(t, p.id, first, rest, child.id);
      RoutesStayInPlan(child, t, rest);
    }
  }

  lemma {:induction false} FollowSplits(t: Table, start: int, a: seq<bool>, b: seq<bool>)
    requires Follow(t, start, a + b).Some?
    ensures Follow(t, start, a).Some?
  {
    if b == [] {
      assert a + b == a;
    } else {
      assert (a + b)[..|a+b|-1] == a + b[..|b|-1];
      FollowSplits(t, start, a, b[..|b|-1]);
    }
  }

  lemma NotInPlan(p: Plan, t: Table, id: int)
    requires Matches(p, t) && p.id == 0 && id !in Ids(p)
    ensures forall route :: !LeadsTo(t, route, id)
  {
    forall route ensures !LeadsTo(t, route, id) {
      if LeadsTo(t, route, id) {
        RoutesStayInPlan(p, t, route);
      }
    }
  }

  lemma CountsOf(p: Plan, t: Table)
    requires IsTree(p, t)
    ensures |t| == 2 * |Internal(t)| + 1
  {
    OneLeafMore(p);
    forall id ensures id in Forks(p) <==> id in Internal(t) {
      ForksAreInternal(p, t, id);
    }
    assert Forks(p) == Internal(t);
    assert |t| == |t.Keys|;
  }

  lemma AtTheRoot(t: Table)
    ensures LeadsTo(t, [], 0) && Placed(t, {}, {}, [])
  {
  }

  /** Accepts exactly the full binary trees; then there is one leaf more than there are internal nodes. */
  method CanonicalTree(t: Table) returns (r: Result<(Canon, Stats), Error>, ghost p: Plan)
    ensures r.Ok? ==> IsTree(p, t) && r.value.0 == Shape(p, t)
    ensures r.Ok? ==> r.value.1.nodes == |t| && r.value.1.internal == |Internal(t)| && r.value.1.leaves == r.value.1.internal + 1
    ensures r.Err? ==> Faulty(t, r.error) && forall q :: !IsTree(q, t)
    ensures r == Err(RootMissing) <==> 0 !in t
    ensures r == Err(Unreachable) ==> p.id == 0 && Matches(p, t) && Distinct(p) && Ids(p) <= t.Keys && Ids(p) != t.Keys
  {
    hide Follow, OnCycle, Shared, Dangles, Placed, Shape, LeadsTo;
    p := Tip(0);
    if 0 !in t {
      return Err(RootMissing), p;
    }
    var walker := new Walker(t);
    assert walker.visited + walker.visiting == {};
    AtTheRoot(t);
    var c, q := walker.Walk(0, []);
    if c.Err? {
      assert forall q | IsTree(q, t) :: walker.Fits(q, 0, {});
      return Err(c.error), p;
    }
    MatchedIdsExist(q, t);
    SubsetSize(walker.visited, t.Keys);
    if |walker.visited| != |t| {
      forall q' | IsTree(q', t) ensures q' == q {
        PlanIsUnique(q', q, t);
      }
      assert walker.visited == Ids(q) && |t.Keys| == |t|;
      var id := Pick(t.Keys - Ids(q));
      NotInPlan(q, t, id);
      return Err(Unreachable), q;
    }
    p := q;
    var internal := CountInternal(t);
    CountsOf(p, t);
    r := Ok((c.value, Stats(|t|, internal, |t| - internal)));
  }

  // Numbering does not matter, and nothing else is forgotten.

  ghost predicate Corresponds(m: Node, n: Node, f: map<int, int>) {
    match m
    case Leaf => n.Leaf?
    case Split(l, r, q) => n.Split? && q == n.question && l in f && r in f && f[l] == n.left && f[r] == n.right
  }

  /** f renumbers t as u one to one and onto, keeping the root. */
  ghost predicate Renumbers(f: map<int, int>, t: Table, u: Table) {
    && OneToOne(f, t.Keys, u.Keys) && 0 in f && f[0] == 0
    && forall i | i in t :: i in f && f[i] in u && Corresponds(t[i], u[f[i]], f)
  }

  ghost function Apply(f: map<int, int>, p: Plan): Plan
    requires Ids(p) <= f.Keys
  {
    match p
    case Tip(id) => Tip(f[id])
    case Fork(id, l, r) => Fork(f[id], Apply(f, l), Apply(f, r))
  }

  lemma {:induction false} ApplyMatches(f: map<int, int>, p: Plan, t: Table, u: Table)
    requires Ids(p) <= f.Keys && Matches(p, t)
    requires forall i | i in t :: i in f && f[i] in u && Corresponds(t[i], u[f[i]], f)
    ensures Matches(Apply(f, p), u) && Apply(f, p).id == f[p.id] && Shape(Apply(f, p), u) == Shape(p, t)
  {
    if p.Fork? {
      assert p.left.id in Ids(p.left) && p.right.id in Ids(p.right);
      ApplyMatches(f, p.left, t, u);
      ApplyMatches(f, p.right, t, u);
    }
  }

  ghost function Zip(p: Plan, q: Plan): map<int, int> {
    if p.Fork? && q.Fork? then (Zip(p.left, q.left) + Zip(p.right, q.right))[p.id := q.id]
    else map[p.id := q.id]
  }

  ghost predicate OneToOne(f: map<int, int>, a: set<int>, b: set<int>) {
    && f.Keys == a && (forall i | i in f :: f[i] in b)
    && (forall y | y in b :: exists i :: i in f && f[i] == y)
    && (forall i, j | i in f && j in f && f[i] == f[j] :: i == j)
  }

  lemma JoinOneToOne(f: map<int, int>, g: map<int, int>, a: set<int>, b: set<int>, c: set<int>, d: set<int>, x: int, y: int)
    requires OneToOne(f, a, b) && OneToOne(g, c, d)
    requires a !! c && b !! d && x !in a && x !in c && y !in b && y !in d
    ensures OneToOne((f + g)[x := y], {x} + a + c, {y} + b + d)
  {
    var h := (f + g)[x := y];
    forall z | z in {y} + b + d ensures exists i :: i in h && h[i] == z {
      if z in b {
        var i :| i in f && f[i] == z;
        assert i in h && h[i] == z;
      } else if z in d {
        var i :| i in g && g[i] == z;
        assert i in h && h[i] == z;
      } else {
        assert x in h && h[x] == z;
      }
    }
  }

  lemma {:induction false} ZipIsOneToOne(p: Plan, q: Plan, t: Table, u: Table)
    requires Matches(p, t) && Matches(q, u) && Distinct(p) && Distinct(q) && Shape(p, t) == Shape(q, u)
    ensures OneToOne(Zip(p, q), Ids(p), Ids(q)) && p.id in Zip(p, q) && Zip(p, q)[p.id] == q.id
  {
    if p.Fork? {
      ZipIsOneToOne(p.left, q.left, t, u);
      ZipIsOneToOne(p.right, q.right, t, u);
      JoinOneToOne(Zip(p.left, q.left), Zip(p.right, q.right), Ids(p.left), Ids(q.left), Ids(p.right), Ids(q.right), p.id, q.id);
    }
  }

  lemma {:induction false} ZipCorresponds(p: Plan, q: Plan, t: Table, u: Table, i: int)
    requires Matches(p, t) && Matches(q, u) && Distinct(p) && Distinct(q) && Shape(p, t) == Shape(q, u)
    requires i in Ids(p)
    ensures i in t && i in Zip(p, q) && Zip(p, q)[i] in u && Corresponds(t[i], u[Zip(p, q)[i]], Zip(p, q))
  {
    ZipIsOneToOne(p, q, t, u);
    if p.Fork? {
      ZipIsOneToOne(p.left, q.left, t, u);
      ZipIsOneToOne(p.right, q.right, t, u);
      if i in Ids(p.left) {
        ZipCorresponds(p.left, q.left, t, u, i);
      } else if i in Ids(p.right) {
        ZipCorresponds(p.right, q.right, t, u, i);
      }
    }
  }

  lemma SameShapeRenumbers(p: Plan, q: Plan, t: Table, u: Table)
    requires IsTree(p, t) && IsTree(q, u) && Shape(p, t) == Shape(q, u)
    ensures Renumbers(Zip(p, q), t, u)
  {
    hide OneToOne, Corresponds, Zip, Shape;
    ZipIsOneToOne(p, q, t, u);
    forall i | i in t ensures i in Zip(p, q) && Zip(p, q)[i] in u && Corresponds(t[i], u[Zip(p, q)[i]], Zip(p, q)) {
      ZipCorresponds(p, q, t, u, i);
    }
  }

  /** Two accepted tables have equal canonical forms exactly when one renumbers the other. */
  lemma EqualIffRenumbered(p: Plan, q: Plan, t: Table, u: Table)
    requires IsTree(p, t) && IsTree(q, u)
    ensures Shape(p, t) == Shape(q, u) <==> exists f :: Renumbers(f, t, u)
  {
    hide Shape, Renumbers, Zip;
    if Shape(p, t) == Shape(q, u) {
      SameShapeRenumbers(p, q, t, u);
    }
    if exists f :: Renumbers(f, t, u) {
      var f :| Renumbers(f, t, u);
      RenumberedShape(f, p, q, t, u);
    }
  }

  lemma RenumberedShape(f: map<int, int>, p: Plan, q: Plan, t: Table, u: Table)
    requires IsTree(p, t) && IsTree(q, u) && Renumbers(f, t, u)
    ensures Shape(p, t) == Shape(q, u)
  {
    ApplyMatches(f, p, t, u);
    PlanIsUnique(Apply(f, p), q, u);
  }

  // The first difference.

  datatype Side = L | R
  datatype Kind = Topology | QuestionLabel
  datatype Difference = Difference(route: seq<Side>, kind: Kind)

  function FirstDifference(a: Canon, b: Canon, route: seq<Side>): Option<Difference> {
    if a.CLeaf? != b.CLeaf? then Some(Difference(route, Topology))
    else if a.CLeaf? then None
    else if a.question != b.question then Some(Difference(route, QuestionLabel))
    else
      var left := FirstDifference(a.left, b.left, route + [L]);
      if left.Some? then left else FirstDifference(a.right, b.right, route + [R])
  }

  ghost function At(c: Canon, route: seq<Side>): Option<Canon> {
    if route == [] then Some(c)
    else if c.CLeaf? then None
    else At(if route[0] == L then c.left else c.right, route[1..])
  }

  ghost predicate Alike(a: Option<Canon>, b: Option<Canon>) {
    a.Some? && b.Some? && a.value.CSplit? && b.value.CSplit? && a.value.question == b.value.question
  }

  /** d is where a and b first differ in preorder: ancestors are alike, and what lies left of the route is equal. */
  ghost predicate IsFirst(a: Canon, b: Canon, route: seq<Side>, kind: Kind) {
    && At(a, route).Some? && At(b, route).Some?
    && (match kind
        case Topology => At(a, route).value.CLeaf? != At(b, route).value.CLeaf?
        case QuestionLabel =>
          && At(a, route).value.CSplit? && At(b, route).value.CSplit?
          && At(a, route).value.question != At(b, route).value.question)
    && (forall k | 0 <= k < |route| :: Alike(At(a, route[..k]), At(b, route[..k])))
    && (forall k | 0 <= k < |route| && route[k] == R :: At(a, route[..k] + [L]) == At(b, route[..k] + [L]))
  }

  lemma {:induction false} DifferenceIsFirst(a: Canon, b: Canon, route: seq<Side>)
    ensures FirstDifference(a, b, route).None? <==> a == b
    ensures FirstDifference(a, b, route).Some? ==>
              var d := FirstDifference(a, b, route).value;
              && |route| <= |d.route| && d.route[..|route|] == route
              && IsFirst(a, b, d.route[|route|..], d.kind)
  {
    if a.CSplit? && b.CSplit? && a.question == b.question {
      DifferenceIsFirst(a.left, b.left, route + [L]);
      DifferenceIsFirst(a.right, b.right, route + [R]);
      var d := FirstDifference(a, b, route);
      if d.Some? {
        var side := if FirstDifference(a.left, b.left, route + [L]).Some? then L else R;
        var whole := d.value.route[|route|..];
        var tail := d.value.route[|route|+1..];
        assert d.value.route[..|route|+1] == route + [side];
        assert d.value.route[|route|] == (route + [side])[|route|];
        assert whole == [side] + tail;
        ExtendFirst(a, b, side, tail, d.value.kind);
      }
    }
  }

  lemma ExtendFirst(a: Canon, b: Canon, side: Side, tail: seq<Side>, kind: Kind)
    requires a.CSplit? && b.CSplit? && a.question == b.question
    requires side == R ==> a.left == b.left
    requires var (x, y) := if side == L then (a.left, b.left) else (a.right, b.right); IsFirst(x, y, tail, kind)
    ensures IsFirst(a, b, [side] + tail, kind)
  {
    var whole := [side] + tail;
    assert whole[1..] == tail;
    forall k | 0 <= k < |whole| ensures Alike(At(a, whole[..k]), At(b, whole[..k])) {
      if k > 0 {
        assert whole[..k][1..] == tail[..k-1];
      }
    }
    forall k | 0 <= k < |whole| && whole[k] == R ensures At(a, whole[..k] + [L]) == At(b, whole[..k] + [L]) {
      if k > 0 {
        assert (whole[..k] + [L])[1..] == tail[..k-1] + [L];
      } else {
        assert (whole[..k] + [L])[1..] == [];
      }
    }
  }

  // The same routes in the tables.

  function Turns(route: seq<Side>): (turns: seq<bool>)
    ensures |turns| == |route| && forall i | 0 <= i < |route| :: turns[i] <==> route[i] == R
  {
    seq(|route|, i requires 0 <= i < |route| => route[i] == R)
  }

  /** The node of the table at the end of the route is what the canonical form has there. */
  ghost predicate Mirrors(c: Canon, t: Table, id: int) {
    id in t && (c.CLeaf? <==> t[id].Leaf?) && (c.CSplit? ==> t[id].Split? && t[id].question == c.question)
  }

  lemma {:induction false} ShapeAt(p: Plan, t: Table, route: seq<Side>)
    requires Matches(p, t) && At(Shape(p, t), route).Some?
    ensures Follow(t, p.id, Turns(route)).Some?
    ensures Mirrors(At(Shape(p, t), route).value, t, Follow(t, p.id, Turns(route)).value)
    decreases |route|
  {
    if route == [] {
      assert Turns(route) == [];
    } else {
      var child := if route[0] == L then p.left else p.right;
      ShapeAt(child, t, route[1..]);
      FollowChild(t, p.id, [], p.id, route[0] == R);
      assert [] + [route[0] == R] == [route[0] == R];
      FollowOn(t, p.id, [route[0] == R], Turns(route[1..]), child.id);
      assert Turns(route) == [route[0] == R] + Turns(route[1..]);
    }
  }

  /** Following the route that is reported, in both tables from node 0, leads to nodes that differ as reported. */
  lemma DifferenceInTables(p: Plan, q: Plan, t: Table, u: Table)
    requires IsTree(p, t) && IsTree(q, u) && FirstDifference(Shape(p, t), Shape(q, u), []).Some?
    ensures var d := FirstDifference(Shape(p, t), Shape(q, u), []).value;
            var v, w := Follow(t, 0, Turns(d.route)), Follow(u, 0, Turns(d.route));
            && v.Some? && w.Some? && v.value in t && w.value in u
            && match d.kind
               case Topology => t[v.value].Leaf? != u[w.value].Leaf?
               case QuestionLabel =>
                 t[v.value].Split? && u[w.value].Split? && t[v.value].question != u[w.value].question
  {
    var a, b := Shape(p, t), Shape(q, u);
    DifferenceIsFirst(a, b, []);
    var d := FirstDifference(a, b, []).value;
    assert d.route[0..] == d.route;
    ShapeAt(p, t, d.route);
    ShapeAt(q, u, d.route);
  }
}
