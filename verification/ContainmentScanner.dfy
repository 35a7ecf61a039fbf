/**
 * Which native calls the containment scanner labels "worker only", and why the label can be trusted.
 *
 * The scanner walks statement lists with a depth counter that drifts upwards.  Its specification carries
 * one truth value instead, and is proved sound against an operational semantics in the caller process,
 * where in_worker() is false and every object has its proxy.
 */
module ContainmentScanner {
  import opened Options

  // The position of a call in the source.
  type Site = nat

  // What evaluating an expression does: native calls, and calls that go through self._proxy.
  datatype Event = Native(site: Site) | Forward
  type Expr = seq<Event>

  datatype Test = InWorker | HasProxy | Not(operand: Test) | Other(expr: Expr)

  datatype Stmt =
    | Eval(expr: Expr)
    | Return(expr: Expr)
    | Raise(expr: Expr)
    | Break
    | Continue
    | If(test: Test, body: seq<Stmt>, orelse: seq<Stmt>)
    | Loop(test: Test, body: seq<Stmt>, orelse: seq<Stmt>)
    | Try(body: seq<Stmt>, handler: seq<Stmt>, final: seq<Stmt>)
    | Def(contained: bool, body: seq<Stmt>)

  datatype Disposition = Infrastructure | DeclaredException | Contained | WorkerOnly | Violation
  datatype Callsite = Callsite(site: Site, disposition: Disposition)
  datatype Module = InfrastructureModule | ExceptedModule | OrdinaryModule

  // The tests on syntax.

  function WorkerTest(t: Test): Option<bool> {
    match t
    case InWorker => Some(true)
    case Not(o) => (match WorkerTest(o) case None => None case Some(v) => Some(!v))
    case _ => None
  }

  predicate ProxyTest(t: Test) {
    t == HasProxy
  }

  predicate Terminates(ss: seq<Stmt>) {
    ss != [] && (ss[|ss|-1].Return? || ss[|ss|-1].Raise?)
  }

  predicate TestForwards(t: Test) {
    match t
    case Other(e) => Forward in e
    case Not(o) => TestForwards(o)
    case _ => false
  }

  predicate ForwardsIn(s: Stmt)
    decreases s, 0
  {
    match s
    case Eval(e) => Forward in e
    case Return(e) => Forward in e
    case Raise(e) => Forward in e
    case Break => false
    case Continue => false
    case If(t, b, o) => TestForwards(t) || Forwards(b) || Forwards(o)
    case Loop(t, b, o) => TestForwards(t) || Forwards(b) || Forwards(o)
    case Try(b, h, f) => Forwards(b) || Forwards(h) || Forwards(f)
    case Def(_, b) => Forwards(b)
  }

  predicate Forwards(ss: seq<Stmt>)
    decreases ss, 1
  {
    if ss == [] then false else ForwardsIn(ss[0]) || Forwards(ss[1..])
  }

  /** After this statement the rest of its list is for workers only. */
  predicate Guards(s: Stmt) {
    s.If? && Terminates(s.body) &&
    (WorkerTest(s.test) == Some(false) || (ProxyTest(s.test) && Forwards(s.body)))
  }

  function Disposed(m: Module, contained: bool, worker: bool): Disposition {
    match m
    case InfrastructureModule => Infrastructure
    case ExceptedModule => DeclaredException
    case OrdinaryModule => if contained then Contained else if worker then WorkerOnly else Violation
  }

  // The specification: what is recorded, in order, in a context that is or is not for workers only.

  ghost function LabelExpr(e: Expr, d: Disposition): seq<Callsite> {
    if e == [] then []
    else (if e[0].Native? then [Callsite(e[0].site, d)] else []) + LabelExpr(e[1..], d)
  }

  ghost function LabelTest(t: Test, d: Disposition): seq<Callsite> {
    match t
    case Other(e) => LabelExpr(e, d)
    case Not(o) => LabelTest(o, d)
    case _ => []
  }

  ghost function Label(s: Stmt, m: Module, contained: bool, worker: bool): seq<Callsite>
    decreases s, 0
  {
    var d := Disposed(m, contained, worker);
    match s
    case Eval(e) => LabelExpr(e, d)
    case Return(e) => LabelExpr(e, d)
    case Raise(e) => LabelExpr(e, d)
    case Break => []
    case Continue => []
    case If(t, b, o) => LabelTest(t, d) + LabelEach(b, m, contained, worker) + LabelEach(o, m, contained, worker)
    case Loop(t, b, o) => LabelTest(t, d) + LabelEach(b, m, contained, worker) + LabelEach(o, m, contained, worker)
    case Try(b, h, f) =>
      LabelEach(b, m, contained, worker) + LabelEach(h, m, contained, worker) + LabelEach(f, m, contained, worker)
    case Def(c, b) => LabelList(b, false, m, contained || c, false)
  }

  // A list nested in an ordinary statement: no guard in it is recognised.
  ghost function LabelEach(ss: seq<Stmt>, m: Module, contained: bool, worker: bool): seq<Callsite>
    decreases ss, 1
  {
    if ss == [] then [] else Label(ss[0], m, contained, worker) + LabelEach(ss[1..], m, contained, worker)
  }

  // A function body or a branch of a worker test; `only` says that a guard has been passed.
  ghost function LabelList(ss: seq<Stmt>, only: bool, m: Module, contained: bool, worker: bool): seq<Callsite>
    decreases ss, 1
  {
    if ss == [] then []
    else LabelNext(ss[0], m, contained, worker || only) + LabelList(ss[1..], only || Guards(ss[0]), m, contained, worker)
  }

  ghost function LabelNext(s: Stmt, m: Module, contained: bool, worker: bool): seq<Callsite>
    decreases s, 1
  {
    if s.If? && WorkerTest(s.test).Some? then
      var state := WorkerTest(s.test).value;
      LabelTest(s.test, Disposed(m, contained, worker))
      + LabelList(s.body, false, m, contained, worker || state)
      + LabelList(s.orelse, false, m, contained, worker || !state)
    else
      Label(s, m, contained, worker)
  }

  /** How far the counter drifts over a list: once for each worker test met after a guard. */
  ghost function Drift(ss: seq<Stmt>, only: bool): nat {
    if ss == [] then 0
    else
      (if only && ss[0].If? && WorkerTest(ss[0].test).Some? then 1 else 0) + Drift(ss[1..], only || Guards(ss[0]))
  }

  lemma Joined(s: seq<Callsite>, a: seq<Callsite>, b: seq<Callsite>, c: seq<Callsite>)
    ensures ((s + a) + b) + c == s + ((a + b) + c)
    ensures (s + a) + b == s + (a + b)
  {
  }

  lemma Split(ss: seq<Stmt>, i: nat, only: bool, m: Module, contained: bool, worker: bool)
    requires i < |ss|
    ensures LabelList(ss[i..], only, m, contained, worker) ==
            LabelNext(ss[i], m, contained, worker || only) + LabelList(ss[i+1..], only || Guards(ss[i]), m, contained, worker)
    ensures Drift(ss[i..], only) ==
            (if only && ss[i].If? && WorkerTest(ss[i].test).Some? then 1 else 0) + Drift(ss[i+1..], only || Guards(ss[i]))
  {
  }

  lemma OrdinaryNext(s: Stmt, m: Module, contained: bool, worker: bool)
    requires s.If? ==> WorkerTest(s.test).None?
    ensures LabelNext(s, m, contained, worker) == Label(s, m, contained, worker)
  {
  }

  lemma Empty(m: Module, contained: bool, worker: bool, only: bool)
    ensures LabelList([], only, m, contained, worker) == [] && Drift([], only) == 0
    ensures forall s: seq<Callsite> :: s + [] == s
  {
  }

  // The scanner.

  class Scanner {
    const kind: Module
    var workerDepth: nat
    var functions: seq<bool>
    var callsites: seq<Callsite>

    constructor (kind: Module)
      ensures this.kind == kind && workerDepth == 0 && functions == [] && callsites == []
    {
      this.kind := kind;
      workerDepth, functions, callsites := 0, [], [];
    }

    predicate Decorated()
      reads this`functions
    {
      exists i | 0 <= i < |functions| :: functions[i]
    }

    method VisitExpr(e: Expr)
      modifies this`callsites
      ensures callsites == old(callsites) + LabelExpr(e, Disposed(kind, Decorated(), workerDepth > 0))
    {
      var d :=
        match kind
        case InfrastructureModule => Infrastructure
        case ExceptedModule => DeclaredException
        case OrdinaryModule => if Decorated() then Contained else if workerDepth != 0 then WorkerOnly else Violation;
      assert d == Disposed(kind, Decorated(), workerDepth > 0);
      ghost var all := old(callsites) + LabelExpr(e, d);
      assert e[0..] == e;
      for i := 0 to |e|
        invariant callsites + LabelExpr(e[i..], d) == all
      {
        assert e[i..][1..] == e[i+1..];
        if e[i].Native? {
          callsites := callsites + [Callsite(e[i].site, d)];
        }
      }
      assert e[|e|..] == [] && callsites + [] == callsites;
    }

    method VisitTest(t: Test)
      modifies this`callsites
      ensures callsites == old(callsites) + LabelTest(t, Disposed(kind, Decorated(), workerDepth > 0))
    {
      match t
      case Other(e) => VisitExpr(e);
      case Not(o) => VisitTest(o);
      case _ =>
    }

    method VisitFunctionDef(contained: bool, body: seq<Stmt>)
      modifies this
      ensures workerDepth == old(workerDepth) && functions == old(functions)
      ensures callsites == old(callsites) + LabelList(body, false, kind, old(Decorated()) || contained, false)
      decreases body, 3
    {
      var prior := workerDepth;
      workerDepth := 0;
      functions := functions + [contained];
      assert Decorated() == (old(Decorated()) || contained) by {
        assert functions[|functions|-1] == contained;
        assert forall i | 0 <= i < |old(functions)| :: functions[i] == old(functions)[i];
      }
      VisitStatements(body);
      functions := functions[..|functions|-1];
      assert functions == old(functions);
      workerDepth := prior;
    }

    // The default visit: every child in order, in the context at hand.
    method Visit(s: Stmt)
      modifies this
      ensures workerDepth == old(workerDepth) && functions == old(functions)
      ensures callsites == old(callsites) + Label(s, kind, old(Decorated()), old(workerDepth) > 0)
      decreases s, 0
    {
      hide LabelList, LabelEach, Drift, LabelTest, LabelExpr;
      ghost var was, d, w := callsites, Decorated(), workerDepth > 0;
      match s
      case Eval(e) => VisitExpr(e);
      case Return(e) => VisitExpr(e);
      case Raise(e) => VisitExpr(e);
      case Break =>
      case Continue =>
      case If(t, b, o) =>
        VisitTest(t);
        VisitEach(b);
        VisitEach(o);
        Joined(was, LabelTest(t, Disposed(kind, d, w)), LabelEach(b, kind, d, w), LabelEach(o, kind, d, w));
      case Loop(t, b, o) =>
        VisitTest(t);
        VisitEach(b);
        VisitEach(o);
        Joined(was, LabelTest(t, Disposed(kind, d, w)), LabelEach(b, kind, d, w), LabelEach(o, kind, d, w));
      case Try(b, h, f) =>
        VisitEach(b);
        VisitEach(h);
        VisitEach(f);
        Joined(was, LabelEach(b, kind, d, w), LabelEach(h, kind, d, w), LabelEach(f, kind, d, w));
      case Def(c, b) =>
        VisitFunctionDef(c, b);
    }

    method VisitEach(ss: seq<Stmt>)
      modifies this
      ensures workerDepth == old(workerDepth) && functions == old(functions)
      ensures callsites == old(callsites) + LabelEach(ss, kind, old(Decorated()), old(workerDepth) > 0)
      decreases ss, 1
    {
      ghost var w, d := workerDepth > 0, Decorated();
      ghost var all := callsites + LabelEach(ss, kind, d, w);
      for i := 0 to |ss|
        invariant workerDepth == old(workerDepth) && functions == old(functions)
        invariant callsites + LabelEach(ss[i..], kind, d, w) == all
      {
        assert ss[i..][1..] == ss[i+1..];
        Visit(ss[i]);
      }
    }

    // A worker test at this level: the counter is set for each branch and not restored afterwards.
    method VisitWorkerIf(statement: Stmt, state: bool, prior: nat, workerOnly: bool)
      requires statement.If? && WorkerTest(statement.test) == Some(state)
      requires workerDepth == prior + if workerOnly then 1 else 0
      modifies this
      ensures functions == old(functions) && workerDepth == old(workerDepth)
      ensures callsites == old(callsites) + LabelNext(statement, kind, old(Decorated()), old(workerDepth) > 0)
      decreases statement, 2
    {
      hide LabelList, Drift, LabelTest;
      ghost var was, d, w := callsites, Decorated(), workerDepth > 0;
      VisitTest(statement.test);
      workerDepth := workerDepth + if state then 1 else 0;
      VisitStatements(statement.body);
      workerDepth := prior + (if workerOnly then 1 else 0) + (if !state then 1 else 0);
      VisitStatements(statement.orelse);
      workerDepth := prior + if workerOnly then 1 else 0;
      Joined(was, LabelTest(statement.test, Disposed(kind, d, w)),
             LabelList(statement.body, false, kind, d, w || state),
             LabelList(statement.orelse, false, kind, d, w || !state));
    }

    /** The counter ends above where it began by exactly the drift; the labels do not show it. */
    method VisitStatements(ss: seq<Stmt>)
      modifies this
      ensures functions == old(functions) && workerDepth == old(workerDepth) + Drift(ss, false)
      ensures callsites == old(callsites) + LabelList(ss, false, kind, old(Decorated()), old(workerDepth) > 0)
      decreases ss, 2
    {
      hide LabelList, LabelNext, Label, Drift;
      var workerOnly := false;
      ghost var w, d := workerDepth > 0, Decorated();
      ghost var all := callsites + LabelList(ss, false, kind, d, w);
      ghost var top := workerDepth + Drift(ss, false);
      assert ss[0..] == ss;
      for i := 0 to |ss|
        invariant functions == old(functions) && workerDepth + Drift(ss[i..], workerOnly) == top
        invariant (workerDepth > 0 || workerOnly) == (w || workerOnly)
        invariant callsites + LabelList(ss[i..], workerOnly, kind, d, w) == all
      {
        var statement := ss[i];
        var prior := workerDepth;
        Split(ss, i, workerOnly, kind, d, w);
        Joined(callsites, LabelNext(statement, kind, d, w || workerOnly),
               LabelList(ss[i+1..], workerOnly || Guards(statement), kind, d, w), []);
        if workerOnly {
          workerDepth := workerDepth + 1;
        }
        if statement.If? {
          var state := WorkerTest(statement.test);
          if state.Some? {
            VisitWorkerIf(statement, state.value, prior, workerOnly);
            if !state.value && Terminates(statement.body) {
              workerOnly := true;
            }
            continue;
          }
        }
        OrdinaryNext(statement, kind, d, w || workerOnly);
        Visit(statement);
        workerDepth := prior;
        if statement.If? && ProxyTest(statement.test) && Terminates(statement.body) && Forwards(statement.body) {
          workerOnly := true;
        }
      }
      assert ss[|ss|..] == [];
      Empty(kind, d, w, workerOnly);
    }
  }

  // Execution in the caller process.  The oracle decides what the source does not: whether a call raises,
  // what an ordinary test yields,
  // whether a handler applies and how often a loop runs.  Running out of it cuts the execution short.

  datatype Flow = Normal | Returned | Raised | Broke | Continued | Cut
  datatype Run = Run(ran: set<Site>, flow: Flow, rest: seq<bool>)

  ghost function RunExpr(e: Expr, oracle: seq<bool>): (r: Run)
    ensures |r.rest| <= |oracle|
  {
    if e == [] then Run({}, Normal, oracle)
    else
      var now := if e[0].Native? then {e[0].site} else {};
      if oracle == [] then Run(now, Cut, oracle)
      else if oracle[0] then Run(now, Raised, oracle[1..])
      else
        var r := RunExpr(e[1..], oracle[1..]);
        r.(ran := now + r.ran)
  }

  ghost function RunTest(t: Test, oracle: seq<bool>): (r: (Run, bool))
    ensures |r.0.rest| <= |oracle|
  {
    match t
    case InWorker => (Run({}, Normal, oracle), false)
    case HasProxy => (Run({}, Normal, oracle), true)
    case Not(o) => var (r, v) := RunTest(o, oracle); (r, !v)
    case Other(e) =>
      var r := RunExpr(e, oracle);
      if r.flow != Normal then (r, false)
      else if r.rest == [] then (r.(flow := Cut), false)
      else (r.(rest := r.rest[1..]), r.rest[0])
  }

  ghost function RunStmt(s: Stmt, oracle: seq<bool>): (r: Run)
    ensures |r.rest| <= |oracle|
    decreases |oracle|, s, 2
  {
    match s
    case Eval(e) => RunExpr(e, oracle)
    case Return(e) => var r := RunExpr(e, oracle); if r.flow == Normal then r.(flow := Returned) else r
    case Raise(e) => var r := RunExpr(e, oracle); if r.flow == Normal then r.(flow := Raised) else r
    case Break => Run({}, Broke, oracle)
    case Continue => Run({}, Continued, oracle)
    case If(t, b, o) =>
      var (c, v) := RunTest(t, oracle);
      if c.flow != Normal then c
      else
        var r := RunList(if v then b else o, c.rest);
        r.(ran := c.ran + r.ran)
    case Loop(t, b, o) => RunLoop(s, oracle)
    case Try(b, h, f) =>
      var r := RunList(b, oracle);
      var handled := r.flow == Raised && r.rest != [] && r.rest[0];
      var q := if handled then RunList(h, r.rest[1..]) else r;
      if q.flow == Cut then q.(ran := r.ran + q.ran)
      else
        var z := RunList(f, q.rest);
        Run(r.ran + q.ran + z.ran, if z.flow == Normal then q.flow else z.flow, z.rest)
    case Def(_, _) => Run({}, Normal, oracle)
  }

  ghost function RunLoop(s: Stmt, oracle: seq<bool>): (r: Run)
    requires s.Loop?
    ensures |r.rest| <= |oracle|
    decreases |oracle|, s, 1
  {
    if oracle == [] then Run({}, Cut, oracle)
    else
      var (c, v) := RunTest(s.test, oracle[1..]);
      if c.flow != Normal then c
      else if !v then
        var r := RunList(s.orelse, c.rest);
        r.(ran := c.ran + r.ran)
      else
        var r := RunList(s.body, c.rest);
        if r.flow == Broke then Run(c.ran + r.ran, Normal, r.rest)
        else if r.flow != Normal && r.flow != Continued then r.(ran := c.ran + r.ran)
        else
          var z := RunLoop(s, r.rest);
          z.(ran := c.ran + r.ran + z.ran)
  }

  ghost function RunList(ss: seq<Stmt>, oracle: seq<bool>): (r: Run)
    ensures |r.rest| <= |oracle|
    decreases |oracle|, ss, 3
  {
    if ss == [] then Run({}, Normal, oracle)
    else
      var r := RunStmt(ss[0], oracle);
      if r.flow != Normal then r
      else
        var z := RunList(ss[1..], r.rest);
        z.(ran := r.ran + z.ran)
  }

  // Soundness: what runs in the caller process is recorded with its caller-process disposition.

  ghost predicate Recorded(ran: set<Site>, d: Disposition, labels: seq<Callsite>) {
    forall x | x in ran :: Callsite(x, d) in labels
  }

  lemma {:induction false} ExprRecorded(e: Expr, oracle: seq<bool>, d: Disposition)
    ensures Recorded(RunExpr(e, oracle).ran, d, LabelExpr(e, d))
  {
    if e != [] && oracle != [] {
      ExprRecorded(e[1..], oracle[1..], d);
    }
  }

  lemma {:induction false} TestRecorded(t: Test, oracle: seq<bool>, d: Disposition)
    ensures Recorded(RunTest(t, oracle).0.ran, d, LabelTest(t, d))
  {
    match t
    case Not(o) => TestRecorded(o, oracle, d);
    case Other(e) => ExprRecorded(e, oracle, d);
    case _ =>
  }

  /** A recognised worker test runs nothing and yields what it says about a worker, turned round. */
  lemma {:induction false} WorkerTestIsFalse(t: Test, oracle: seq<bool>)
    requires WorkerTest(t).Some?
    ensures RunTest(t, oracle) == (Run({}, Normal, oracle), !WorkerTest(t).value)
  {
    if t.Not? {
      WorkerTestIsFalse(t.operand, oracle);
    }
  }

  lemma {:induction false} TerminatingListLeaves(ss: seq<Stmt>, oracle: seq<bool>)
    requires Terminates(ss)
    ensures RunList(ss, oracle).flow != Normal
    decreases |ss|
  {
    if |ss| > 1 {
      TerminatingListLeaves(ss[1..], RunStmt(ss[0], oracle).rest);
    }
  }

  /** In the caller process no execution gets past a guard. */
  lemma GuardStops(s: Stmt, oracle: seq<bool>)
    requires Guards(s)
    ensures RunStmt(s, oracle).flow != Normal
  {
    if WorkerTest(s.test).Some? {
      WorkerTestIsFalse(s.test, oracle);
    }
    TerminatingListLeaves(s.body, oracle);
  }

  lemma {:induction false} StmtRecorded(s: Stmt, oracle: seq<bool>, m: Module, contained: bool)
    ensures Recorded(RunStmt(s, oracle).ran, Disposed(m, contained, false), Label(s, m, contained, false))
    decreases |oracle|, s, 2
  {
    var d := Disposed(m, contained, false);
    match s
    case Eval(e) => ExprRecorded(e, oracle, d);
    case Return(e) => ExprRecorded(e, oracle, d);
    case Raise(e) => ExprRecorded(e, oracle, d);
    case Break =>
    case Continue =>
    case If(t, b, o) =>
      TestRecorded(t, oracle, d);
      var (c, v) := RunTest(t, oracle);
      if c.flow == Normal {
        EachRecorded(if v then b else o, c.rest, m, contained);
      }
    case Loop(t, b, o) =>
      LoopRecorded(s, oracle, m, contained);
    case Try(b, h, f) =>
      var r := RunList(b, oracle);
      EachRecorded(b, oracle, m, contained);
      var handled := r.flow == Raised && r.rest != [] && r.rest[0];
      if handled {
        EachRecorded(h, r.rest[1..], m, contained);
      }
      var q := if handled then RunList(h, r.rest[1..]) else r;
      EachRecorded(f, q.rest, m, contained);
    case Def(_, _) =>
  }

  lemma {:induction false} LoopRecorded(s: Stmt, oracle: seq<bool>, m: Module, contained: bool)
    requires s.Loop?
    ensures Recorded(RunLoop(s, oracle).ran, Disposed(m, contained, false), Label(s, m, contained, false))
    decreases |oracle|, s, 1
  {
    if oracle != [] {
      TestRecorded(s.test, oracle[1..], Disposed(m, contained, false));
      var (c, v) := RunTest(s.test, oracle[1..]);
      if c.flow == Normal {
        EachRecorded(if v then s.body else s.orelse, c.rest, m, contained);
        if v {
          LoopRecorded(s, RunList(s.body, c.rest).rest, m, contained);
        }
      }
    }
  }

  lemma {:induction false} EachRecorded(ss: seq<Stmt>, oracle: seq<bool>, m: Module, contained: bool)
    ensures Recorded(RunList(ss, oracle).ran, Disposed(m, contained, false), LabelEach(ss, m, contained, false))
    decreases |oracle|, ss, 3
  {
    if ss != [] {
      StmtRecorded(ss[0], oracle, m, contained);
      EachRecorded(ss[1..], RunStmt(ss[0], oracle).rest, m, contained);
    }
  }

  /** Guards and branches never hide a call that can run: the heart of the matter. */
  lemma {:induction false} ListRecorded(ss: seq<Stmt>, oracle: seq<bool>, m: Module, contained: bool)
    ensures Recorded(RunList(ss, oracle).ran, Disposed(m, contained, false), LabelList(ss, false, m, contained, false))
    decreases |oracle|, ss, 3
  {
    if ss != [] {
      NextRecorded(ss[0], oracle, m, contained);
      if Guards(ss[0]) {
        GuardStops(ss[0], oracle);
      } else {
        ListRecorded(ss[1..], RunStmt(ss[0], oracle).rest, m, contained);
      }
    }
  }

  lemma {:induction false} NextRecorded(s: Stmt, oracle: seq<bool>, m: Module, contained: bool)
    ensures Recorded(RunStmt(s, oracle).ran, Disposed(m, contained, false), LabelNext(s, m, contained, false))
    decreases |oracle|, s, 3
  {
    if s.If? && WorkerTest(s.test).Some? {
      WorkerTestIsFalse(s.test, oracle);
      ListRecorded(if WorkerTest(s.test).value then s.orelse else s.body, oracle, m, contained);
    } else {
      StmtRecorded(s, oracle, m, contained);
    }
  }

  // The whole module: its own statements, and every function body anywhere inside it.

  /** The function bodies in a statement, each with whether it or a function around it is decorated. */
  ghost function Bodies(s: Stmt, contained: bool): set<(seq<Stmt>, bool)>
    decreases s, 0
  {
    match s
    case If(_, b, o) => BodiesEach(b, contained) + BodiesEach(o, contained)
    case Loop(_, b, o) => BodiesEach(b, contained) + BodiesEach(o, contained)
    case Try(b, h, f) => BodiesEach(b, contained) + BodiesEach(h, contained) + BodiesEach(f, contained)
    case Def(c, b) => {(b, contained || c)} + BodiesEach(b, contained || c)
    case _ => {}
  }

  ghost function BodiesEach(ss: seq<Stmt>, contained: bool): set<(seq<Stmt>, bool)>
    decreases ss, 1
  {
    if ss == [] then {} else Bodies(ss[0], contained) + BodiesEach(ss[1..], contained)
  }

  ghost predicate Includes(part: seq<Callsite>, whole: seq<Callsite>) {
    forall c | c in part :: c in whole
  }

  // Wherever a function is defined, its body is labelled on its own, as if no worker test surrounded it.
  lemma {:induction false} BodyIsLabelled(s: Stmt, b: (seq<Stmt>, bool), m: Module, contained: bool, worker: bool)
    requires b in Bodies(s, contained)
    ensures Includes(LabelList(b.0, false, m, b.1, false), Label(s, m, contained, worker))
    ensures Includes(LabelList(b.0, false, m, b.1, false), LabelNext(s, m, contained, worker))
    decreases s, 0
  {
    match s
    case If(_, t, o) =>
      BodyIsLabelledEach(t, b, m, contained, true, false);
      BodyIsLabelledEach(t, b, m, contained, false, false);
      BodyIsLabelledEach(o, b, m, contained, true, false);
      BodyIsLabelledEach(o, b, m, contained, false, false);
    case Loop(_, t, o) =>
      BodyIsLabelledEach(t, b, m, contained, worker, false);
      BodyIsLabelledEach(o, b, m, contained, worker, false);
    case Try(t, h, f) =>
      BodyIsLabelledEach(t, b, m, contained, worker, false);
      BodyIsLabelledEach(h, b, m, contained, worker, false);
      BodyIsLabelledEach(f, b, m, contained, worker, false);
    case Def(c, d) =>
      BodyIsLabelledEach(d, b, m, contained || c, false, false);
    case _ =>
  }

  lemma {:induction false} BodyIsLabelledEach(ss: seq<Stmt>, b: (seq<Stmt>, bool), m: Module, contained: bool, worker: bool, only: bool)
    ensures b in BodiesEach(ss, contained) ==>
              && Includes(LabelList(b.0, false, m, b.1, false), LabelEach(ss, m, contained, worker))
              && Includes(LabelList(b.0, false, m, b.1, false), LabelList(ss, only, m, contained, worker))
    decreases ss, 1
  {
    if ss != [] {
      if b in Bodies(ss[0], contained) {
        BodyIsLabelled(ss[0], b, m, contained, worker);
        BodyIsLabelled(ss[0], b, m, contained, worker || only);
      }
      BodyIsLabelledEach(ss[1..], b, m, contained, worker, only || Guards(ss[0]));
    }
  }

  /** What scanning a module records. */
  ghost function Scan(program: seq<Stmt>, m: Module): seq<Callsite> {
    LabelEach(program, m, false, false)
  }

  /**
   * No execution of the module or of any function in it, in the caller process, reaches a call that is
   * labelled "worker only", positions being distinct.
   */
  lemma WorkerOnlyIsNeverRun(program: seq<Stmt>, m: Module, body: seq<Stmt>, contained: bool, oracle: seq<bool>, c: Callsite)
    requires (body, contained) in BodiesEach(program, false) || (body == program && !contained)
    requires c in Scan(program, m) && c.disposition == WorkerOnly
    requires forall a, b | a in Scan(program, m) && b in Scan(program, m) && a.site == b.site :: a == b
    ensures c.site !in RunList(body, oracle).ran
  {
    var d := Disposed(m, contained, false);
    if (body, contained) in BodiesEach(program, false) {
      BodyIsLabelledEach(program, (body, contained), m, false, false, false);
      ListRecorded(body, oracle, m, contained);
    } else {
      EachRecorded(program, oracle, m, contained);
    }
    assert c.site in RunList(body, oracle).ran ==> Callsite(c.site, d) in Scan(program, m);
  }

  // The label is also given: past a guard every call that is not in a function of its own gets it.

  ghost predicate DefFree(s: Stmt)
    decreases s, 0
  {
    match s
    case If(_, b, o) => DefFreeEach(b) && DefFreeEach(o)
    case Loop(_, b, o) => DefFreeEach(b) && DefFreeEach(o)
    case Try(b, h, f) => DefFreeEach(b) && DefFreeEach(h) && DefFreeEach(f)
    case Def(_, _) => false
    case _ => true
  }

  ghost predicate DefFreeEach(ss: seq<Stmt>)
    decreases ss, 1
  {
    ss != [] ==> DefFree(ss[0]) && DefFreeEach(ss[1..])
  }

  ghost predicate AllDisposed(labels: seq<Callsite>, d: Disposition) {
    forall c | c in labels :: c.disposition == d
  }

  lemma {:induction false} ExprDisposed(e: Expr, d: Disposition)
    ensures AllDisposed(LabelExpr(e, d), d)
  {
    if e != [] {
      ExprDisposed(e[1..], d);
    }
  }

  lemma {:induction false} TestDisposed(t: Test, d: Disposition)
    ensures AllDisposed(LabelTest(t, d), d)
  {
    match t
    case Not(o) => TestDisposed(o, d);
    case Other(e) => ExprDisposed(e, d);
    case _ =>
  }

  lemma {:induction false} WorkerContext(s: Stmt, m: Module, contained: bool)
    requires DefFree(s)
    ensures AllDisposed(Label(s, m, contained, true), Disposed(m, contained, true))
    ensures AllDisposed(LabelNext(s, m, contained, true), Disposed(m, contained, true))
    decreases s, 0
  {
    var d := Disposed(m, contained, true);
    match s
    case Eval(e) => ExprDisposed(e, d);
    case Return(e) => ExprDisposed(e, d);
    case Raise(e) => ExprDisposed(e, d);
    case If(t, b, o) =>
      TestDisposed(t, d);
      WorkerContextEach(b, false, m, contained, true);
      WorkerContextEach(o, false, m, contained, true);
    case Loop(t, b, o) =>
      TestDisposed(t, d);
      WorkerContextEach(b, false, m, contained, true);
      WorkerContextEach(o, false, m, contained, true);
    case Try(b, h, f) =>
      WorkerContextEach(b, false, m, contained, true);
      WorkerContextEach(h, false, m, contained, true);
      WorkerContextEach(f, false, m, contained, true);
    case _ =>
  }

  lemma {:induction false} WorkerContextEach(ss: seq<Stmt>, only: bool, m: Module, contained: bool, worker: bool)
    requires DefFreeEach(ss) && (only || worker)
    ensures AllDisposed(LabelList(ss, only, m, contained, worker), Disposed(m, contained, true))
    ensures worker ==> AllDisposed(LabelEach(ss, m, contained, true), Disposed(m, contained, true))
    decreases ss, 1
  {
    if ss != [] {
      WorkerContext(ss[0], m, contained);
      WorkerContextEach(ss[1..], only || Guards(ss[0]), m, contained, worker);
    }
  }

  /** Statements after a guard, in a function that is not decorated in an ordinary module, are all for workers only. */
  lemma PastAGuard(guard: Stmt, rest: seq<Stmt>)
    requires Guards(guard) && DefFreeEach(rest)
    ensures LabelList([guard] + rest, false, OrdinaryModule, false, false) ==
            LabelNext(guard, OrdinaryModule, false, false) + LabelList(rest, true, OrdinaryModule, false, false)
    ensures AllDisposed(LabelList(rest, true, OrdinaryModule, false, false), WorkerOnly)
  {
    assert ([guard] + rest)[1..] == rest;
    WorkerContextEach(rest, true, OrdinaryModule, false, false);
  }

  /** So are the statements in the branch of a worker test that a worker takes. */
  lemma InAWorkerBranch(test: Test, body: seq<Stmt>, orelse: seq<Stmt>)
    requires WorkerTest(test).Some?
    requires DefFreeEach(if WorkerTest(test).value then body else orelse)
    ensures var (x, y) := if WorkerTest(test).value then (WorkerOnlyList(body), FreshList(orelse))
                          else (FreshList(body), WorkerOnlyList(orelse));
            LabelNext(If(test, body, orelse), OrdinaryModule, false, false) == x + y
            && AllDisposed(if WorkerTest(test).value then x else y, WorkerOnly)
  {
    WorkerContextEach(if WorkerTest(test).value then body else orelse, false, OrdinaryModule, false, true);
    TestRunsNothing(test, Violation);
    assert [] + FreshList(body) == FreshList(body) && [] + WorkerOnlyList(body) == WorkerOnlyList(body);
  }

  ghost function WorkerOnlyList(ss: seq<Stmt>): seq<Callsite> {
    LabelList(ss, false, OrdinaryModule, false, true)
  }

  ghost function FreshList(ss: seq<Stmt>): seq<Callsite> {
    LabelList(ss, false, OrdinaryModule, false, false)
  }

  lemma {:induction false} TestRunsNothing(t: Test, d: Disposition)
    requires WorkerTest(t).Some?
    ensures LabelTest(t, d) == []
  {
    if t.Not? {
      TestRunsNothing(t.operand, d);
    }
  }

  // Every native call in the text is recorded, once and in order, whatever surrounds it.

  ghost function CallsExpr(e: Expr): seq<Site> {
    if e == [] then [] else (if e[0].Native? then [e[0].site] else []) + CallsExpr(e[1..])
  }

  ghost function CallsTest(t: Test): seq<Site> {
    match t
    case Other(e) => CallsExpr(e)
    case Not(o) => CallsTest(o)
    case _ => []
  }

  ghost function Calls(s: Stmt): seq<Site>
    decreases s, 0
  {
    match s
    case Eval(e) => CallsExpr(e)
    case Return(e) => CallsExpr(e)
    case Raise(e) => CallsExpr(e)
    case Break => []
    case Continue => []
    case If(t, b, o) => CallsTest(t) + CallsEach(b) + CallsEach(o)
    case Loop(t, b, o) => CallsTest(t) + CallsEach(b) + CallsEach(o)
    case Try(b, h, f) => CallsEach(b) + CallsEach(h) + CallsEach(f)
    case Def(_, b) => CallsEach(b)
  }

  ghost function CallsEach(ss: seq<Stmt>): seq<Site>
    decreases ss, 1
  {
    if ss == [] then [] else Calls(ss[0]) + CallsEach(ss[1..])
  }

  ghost function Sites(labels: seq<Callsite>): seq<Site> {
    seq(|labels|, i requires 0 <= i < |labels| => labels[i].site)
  }

  lemma {:induction false} SitesOfExpr(e: Expr, d: Disposition)
    ensures Sites(LabelExpr(e, d)) == CallsExpr(e)
  {
    hide Sites;
    NoSites();
    if e != [] {
      SitesOfExpr(e[1..], d);
      var first := if e[0].Native? then [Callsite(e[0].site, d)] else [];
      JoinSites(first, LabelExpr(e[1..], d), []);
      OneSite(first);
    }
  }

  lemma {:induction false} SitesOfTest(t: Test, d: Disposition)
    ensures Sites(LabelTest(t, d)) == CallsTest(t)
  {
    match t
    case Not(o) => SitesOfTest(o, d);
    case Other(e) => SitesOfExpr(e, d);
    case _ =>
  }

  lemma JoinSites(a: seq<Callsite>, b: seq<Callsite>, c: seq<Callsite>)
    ensures Sites(a + b) == Sites(a) + Sites(b) && Sites(a + b + c) == Sites(a) + Sites(b) + Sites(c)
  {
  }

  lemma {:induction false} SitesOf(s: Stmt, m: Module, contained: bool, worker: bool)
    ensures Sites(Label(s, m, contained, worker)) == Calls(s)
    ensures Sites(LabelNext(s, m, contained, worker)) == Calls(s)
    decreases s, 0
  {
    hide Sites;
    var d := Disposed(m, contained, worker);
    match s
    case Eval(e) => SitesOfExpr(e, d);
    case Return(e) => SitesOfExpr(e, d);
    case Raise(e) => SitesOfExpr(e, d);
    case Break => NoSites();
    case Continue => NoSites();
    case If(t, b, o) =>
      SitesOfTest(t, d);
      SitesOfEach(b, false, m, contained, worker);
      SitesOfEach(o, false, m, contained, worker);
      JoinSites(LabelTest(t, d), LabelEach(b, m, contained, worker), LabelEach(o, m, contained, worker));
      if WorkerTest(t).Some? {
        var state := WorkerTest(t).value;
        SitesOfEach(b, false, m, contained, worker || state);
        SitesOfEach(o, false, m, contained, worker || !state);
        JoinSites(LabelTest(t, d), LabelList(b, false, m, contained, worker || state),
                  LabelList(o, false, m, contained, worker || !state));
      }
    case Loop(t, b, o) =>
      SitesOfTest(t, d);
      SitesOfEach(b, false, m, contained, worker);
      SitesOfEach(o, false, m, contained, worker);
      JoinSites(LabelTest(t, d), LabelEach(b, m, contained, worker), LabelEach(o, m, contained, worker));
    case Try(b, h, f) =>
      SitesOfEach(b, false, m, contained, worker);
      SitesOfEach(h, false, m, contained, worker);
      SitesOfEach(f, false, m, contained, worker);
      JoinSites(LabelEach(b, m, contained, worker), LabelEach(h, m, contained, worker), LabelEach(f, m, contained, worker));
    case Def(c, b) =>
      SitesOfEach(b, false, m, contained || c, false);
  }

  lemma OneSite(labels: seq<Callsite>)
    requires |labels| <= 1
    ensures Sites(labels) == if labels == [] then [] else [labels[0].site]
  {
  }

  lemma NoSites()
    ensures Sites([]) == []
  {
  }

  lemma {:induction false} SitesOfEach(ss: seq<Stmt>, only: bool, m: Module, contained: bool, worker: bool)
    ensures Sites(LabelEach(ss, m, contained, worker)) == CallsEach(ss)
    ensures Sites(LabelList(ss, only, m, contained, worker)) == CallsEach(ss)
    decreases ss, 1
  {
    hide Sites;
    NoSites();
    if ss != [] {
      SitesOf(ss[0], m, contained, worker);
      SitesOf(ss[0], m, contained, worker || only);
      SitesOfEach(ss[1..], only || Guards(ss[0]), m, contained, worker);
      JoinSites(Label(ss[0], m, contained, worker), LabelEach(ss[1..], m, contained, worker), []);
      JoinSites(LabelNext(ss[0], m, contained, worker || only), LabelList(ss[1..], only || Guards(ss[0]), m, contained, worker), []);
    }
  }

  /** The record of a module has its native calls, each once and in the order of the text. */
  lemma ScanHasAllCalls(program: seq<Stmt>, m: Module)
    ensures Sites(Scan(program, m)) == CallsEach(program)
  {
    SitesOfEach(program, false, m, false, false);
  }

  // The other dispositions, by name.

  /** What a module or a decorator around decides for all calls inside. */
  ghost function Fixed(m: Module, contained: bool): Option<Disposition> {
    match m
    case InfrastructureModule => Some(Infrastructure)
    case ExceptedModule => Some(DeclaredException)
    case OrdinaryModule => if contained then Some(Disposition.Contained) else None
  }

  lemma {:induction false} FixedInside(s: Stmt, m: Module, contained: bool, worker: bool)
    requires Fixed(m, contained).Some?
    ensures AllDisposed(Label(s, m, contained, worker), Fixed(m, contained).value)
    ensures AllDisposed(LabelNext(s, m, contained, worker), Fixed(m, contained).value)
    decreases s, 0
  {
    var d := Fixed(m, contained).value;
    match s
    case Eval(e) => ExprDisposed(e, d);
    case Return(e) => ExprDisposed(e, d);
    case Raise(e) => ExprDisposed(e, d);
    case If(t, b, o) =>
      TestDisposed(t, d);
      FixedInsideEach(b, false, m, contained, true);
      FixedInsideEach(b, false, m, contained, false);
      FixedInsideEach(o, false, m, contained, true);
      FixedInsideEach(o, false, m, contained, false);
    case Loop(t, b, o) =>
      TestDisposed(t, d);
      FixedInsideEach(b, false, m, contained, worker);
      FixedInsideEach(o, false, m, contained, worker);
    case Try(b, h, f) =>
      FixedInsideEach(b, false, m, contained, worker);
      FixedInsideEach(h, false, m, contained, worker);
      FixedInsideEach(f, false, m, contained, worker);
    case Def(c, b) => FixedInsideEach(b, false, m, contained || c, false);
    case _ =>
  }

  lemma {:induction false} FixedInsideEach(ss: seq<Stmt>, only: bool, m: Module, contained: bool, worker: bool)
    requires Fixed(m, contained).Some?
    ensures AllDisposed(LabelEach(ss, m, contained, worker), Fixed(m, contained).value)
    ensures AllDisposed(LabelList(ss, only, m, contained, worker), Fixed(m, contained).value)
    decreases ss, 1
  {
    if ss != [] {
      FixedInside(ss[0], m, contained, worker);
      FixedInside(ss[0], m, contained, worker || only);
      FixedInsideEach(ss[1..], only || Guards(ss[0]), m, contained, worker);
    }
  }

  ghost predicate InDecorated(x: Site, bodies: set<(seq<Stmt>, bool)>) {
    exists b :: b in bodies && b.1 && x in CallsEach(b.0)
  }

  lemma {:induction false} ContainedInside(s: Stmt, worker: bool, c: Callsite)
    requires c.disposition == Contained
    ensures c in Label(s, OrdinaryModule, false, worker) ==> InDecorated(c.site, Bodies(s, false))
    ensures c in LabelNext(s, OrdinaryModule, false, worker) ==> InDecorated(c.site, Bodies(s, false))
    decreases s, 0
  {
    match s
    case Eval(e) => NeverContained(e, worker, c);
    case Return(e) => NeverContained(e, worker, c);
    case Raise(e) => NeverContained(e, worker, c);
    case If(t, b, o) =>
      TestDisposed(t, Disposed(OrdinaryModule, false, worker));
      ContainedInsideEach(b, false, true, c);
      ContainedInsideEach(b, false, false, c);
      ContainedInsideEach(o, false, true, c);
      ContainedInsideEach(o, false, false, c);
    case Loop(t, b, o) =>
      TestDisposed(t, Disposed(OrdinaryModule, false, worker));
      ContainedInsideEach(b, false, worker, c);
      ContainedInsideEach(o, false, worker, c);
    case Try(b, h, f) =>
      ContainedInsideEach(b, false, worker, c);
      ContainedInsideEach(h, false, worker, c);
      ContainedInsideEach(f, false, worker, c);
    case Def(d, b) =>
      if d {
        SitesOfEach(b, false, OrdinaryModule, true, false);
        if c in LabelList(b, false, OrdinaryModule, true, false) {
          var i :| 0 <= i < |LabelList(b, false, OrdinaryModule, true, false)| && LabelList(b, false, OrdinaryModule, true, false)[i] == c;
          assert Sites(LabelList(b, false, OrdinaryModule, true, false))[i] == c.site;
          assert (b, true) in Bodies(s, false) && c.site in CallsEach((b, true).0);
        }
      } else {
        ContainedInsideEach(b, false, false, c);
      }
    case _ =>
  }

  lemma NeverContained(e: Expr, worker: bool, c: Callsite)
    requires c.disposition == Contained
    ensures c !in LabelExpr(e, Disposed(OrdinaryModule, false, worker))
  {
    ExprDisposed(e, Disposed(OrdinaryModule, false, worker));
  }

  lemma {:induction false} ContainedInsideEach(ss: seq<Stmt>, only: bool, worker: bool, c: Callsite)
    requires c.disposition == Contained
    ensures c in LabelEach(ss, OrdinaryModule, false, worker) ==> InDecorated(c.site, BodiesEach(ss, false))
    ensures c in LabelList(ss, only, OrdinaryModule, false, worker) ==> InDecorated(c.site, BodiesEach(ss, false))
    decreases ss, 1
  {
    if ss != [] {
      ContainedInside(ss[0], worker, c);
      ContainedInside(ss[0], worker || only, c);
      ContainedInsideEach(ss[1..], only || Guards(ss[0]), worker, c);
    }
  }

  /**
   * What is reported.  In an ordinary module every call that some execution in the caller process runs, at
   * the top or in a function that is not decorated, is recorded as a violation; a call is recorded as
   * contained only inside a decorated function; and all that is inside one is.
   */
  lemma ViolationsAreReported(program: seq<Stmt>, body: seq<Stmt>, contained: bool, oracle: seq<bool>, c: Callsite)
    requires (body, contained) in BodiesEach(program, false) || (body == program && !contained)
    ensures !contained ==> Recorded(RunList(body, oracle).ran, Violation, Scan(program, OrdinaryModule))
    ensures contained ==> Includes(LabelList(body, false, OrdinaryModule, true, false), Scan(program, OrdinaryModule))
                          && AllDisposed(LabelList(body, false, OrdinaryModule, true, false), Contained)
                          && Sites(LabelList(body, false, OrdinaryModule, true, false)) == CallsEach(body)
    ensures c in Scan(program, OrdinaryModule) && c.disposition == Contained ==> InDecorated(c.site, BodiesEach(program, false))
  {
    if (body, contained) in BodiesEach(program, false) {
      BodyIsLabelledEach(program, (body, contained), OrdinaryModule, false, false, false);
      ListRecorded(body, oracle, OrdinaryModule, contained);
    } else {
      EachRecorded(program, oracle, OrdinaryModule, contained);
    }
    if contained {
      FixedInsideEach(body, false, OrdinaryModule, true, false);
      SitesOfEach(body, false, OrdinaryModule, true, false);
    }
    if c.disposition == Contained {
      ContainedInsideEach(program, false, false, c);
    }
  }

  /** An ordinary module without a violation runs native calls in the caller process only in decorated functions. */
  lemma NoViolationNoCall(program: seq<Stmt>, body: seq<Stmt>, oracle: seq<bool>)
    requires (body, false) in BodiesEach(program, false) || body == program
    requires forall c | c in Scan(program, OrdinaryModule) :: c.disposition != Violation
    ensures RunList(body, oracle).ran == {}
  {
    ViolationsAreReported(program, body, false, oracle, Callsite(0, Violation));
    assert forall x | x in RunList(body, oracle).ran :: Callsite(x, Violation) in Scan(program, OrdinaryModule);
  }

  /** Infrastructure and declared exceptions are recorded as such, whatever is inside them. */
  lemma ModuleDecides(program: seq<Stmt>)
    ensures AllDisposed(Scan(program, InfrastructureModule), Infrastructure)
    ensures AllDisposed(Scan(program, ExceptedModule), DeclaredException)
  {
    FixedInsideEach(program, false, InfrastructureModule, false, false);
    FixedInsideEach(program, false, ExceptedModule, false, false);
  }

  lemma {:induction false} ForwardsAtTheEnd(before: seq<Stmt>, last: Stmt)
    requires ForwardsIn(last)
    ensures Forwards(before + [last])
  {
    var ss := before + [last];
    if before == [] {
      assert ss[0] == last;
    } else {
      ForwardsAtTheEnd(before[1..], last);
      assert ss[1..] == before[1..] + [last];
    }
  }

  /** The guards: leaving unless in a worker, or through the proxy, by a return or a raise. */
  lemma GuardForms(before: seq<Stmt>, e: Expr, orelse: seq<Stmt>, last: Stmt)
    requires last == Return(e) || last == Raise(e)
    ensures Guards(If(Not(InWorker), before + [last], orelse))
    ensures Forward in e ==> Guards(If(HasProxy, before + [last], orelse))
    ensures !Guards(If(InWorker, before + [last], orelse)) && !Guards(If(Not(HasProxy), before + [last], orelse))
  {
    var ss := before + [last];
    assert ss[|ss|-1] == last;
    if Forward in e {
      ForwardsAtTheEnd(before, last);
    }
  }

  /** A proxy test protects what follows only if its branch forwards to the proxy. */
  lemma AForwardIsNeeded(site: Site)
    ensures var method_ := (e: Expr) => [Def(false, [If(HasProxy, [Return(e)], []), Eval([Native(site)])])];
            && Scan(method_([]), OrdinaryModule) == [Callsite(site, Violation)]
            && Scan(method_([Forward]), OrdinaryModule) == [Callsite(site, WorkerOnly)]
  {
    ProxyExample(site, []);
    ProxyExample(site, [Forward]);
  }

  lemma ProxyExample(site: Site, e: Expr)
    requires e == [] || e == [Forward]
    ensures Scan([Def(false, [If(HasProxy, [Return(e)], []), Eval([Native(site)])])], OrdinaryModule) ==
            [Callsite(site, if e == [] then Violation else WorkerOnly)]
  {
    var guard, call := If(HasProxy, [Return(e)], []), Eval([Native(site)]);
    var body, d := [guard, call], if e == [] then Violation else WorkerOnly;
    GuardExample(e);
    CallExample(site, d, e != []);
    assert body[1..] == [call] && [] + [Callsite(site, d)] == [Callsite(site, d)];
    assert LabelList(body, false, OrdinaryModule, false, false) == [Callsite(site, d)];
    var program := [Def(false, body)];
    assert program[1..] == [];
    assert Label(program[0], OrdinaryModule, false, false) == [Callsite(site, d)];
  }

  lemma GuardExample(e: Expr)
    requires e == [] || e == [Forward]
    ensures var guard := If(HasProxy, [Return(e)], []);
            LabelNext(guard, OrdinaryModule, false, false) == [] && (Guards(guard) <==> e != [])
  {
    var ss := [Return(e)];
    assert ss[1..] == [];
    assert e != [] ==> e[1..] == [];
    assert LabelExpr(e, Violation) == [];
    assert Label(ss[0], OrdinaryModule, false, false) == [];
    assert LabelEach(ss, OrdinaryModule, false, false) == [];
    assert ForwardsIn(ss[0]) <==> e != [];
    assert Forwards(ss) <==> e != [];
  }

  lemma CallExample(site: Site, d: Disposition, only: bool)
    requires d == if only then WorkerOnly else Violation
    ensures LabelList([Eval([Native(site)])], only, OrdinaryModule, false, false) == [Callsite(site, d)]
  {
    var ss, e := [Eval([Native(site)])], [Native(site)];
    assert ss[1..] == [] && e[1..] == [];
    assert LabelExpr(e, d) == [Callsite(site, d)];
    assert LabelNext(ss[0], OrdinaryModule, false, only) == [Callsite(site, d)];
    assert LabelList(ss[1..], only || Guards(ss[0]), OrdinaryModule, false, false) == [];
  }

  /** Scanning a module is the default visit of its statements. */
  method ScanModule(program: seq<Stmt>, m: Module) returns (scanner: Scanner)
    ensures fresh(scanner) && scanner.callsites == Scan(program, m) && scanner.workerDepth == 0
  {
    scanner := new Scanner(m);
    scanner.VisitEach(program);
    assert [] + Scan(program, m) == Scan(program, m);
  }
}
