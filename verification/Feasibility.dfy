/**
 * The fewest frames an utterance HMM can occupy.
 *
 * A 0-1 breadth-first search over a deque.  The cost of a step is the cost of the state it enters, so
 * every edge into a state costs the same; the proof below shows that this makes each distance final
 * when it is first written, although the loop is written to allow later improvements.
 */
module Feasibility {
  import opened Options

  // The mixture-weight id of a state that consumes no frame.
  const NON_EMITTING_MIXW := 0xFFFFFFFF

  datatype State = State(mixw: int, next: seq<int>) {
    function Cost(): nat {
      if mixw == NON_EMITTING_MIXW then 0 else 1
    }
  }

  predicate Edge(g: seq<State>, u: int, v: int) {
    0 <= u < |g| && 0 <= v < |g| && v in g[u].next
  }

  /** A walk from the first state; it may revisit states, as a self loop or a skip arc allows. */
  ghost predicate Walk(g: seq<State>, w: seq<int>) {
    |w| > 0 && |g| > 0 && w[0] == 0 && forall i | 0 < i < |w| :: Edge(g, w[i-1], w[i])
  }

  ghost predicate WalkTo(g: seq<State>, w: seq<int>, v: int) {
    Walk(g, w) && w[|w|-1] == v
  }

  /** The state consumes a frame: its id is not the reserved one. */
  ghost predicate Emits(s: State) {
    s.mixw != 0xFFFFFFFF
  }

  /** How many of the states a walk visits are emitting, counted with repetition. */
  ghost function Emitting(g: seq<State>, w: seq<int>): nat {
    if w == [] then 0
    else
      var last := w[|w|-1];
      Emitting(g, w[..|w|-1]) + if 0 <= last < |g| && Emits(g[last]) then 1 else 0
  }

  ghost predicate Reachable(g: seq<State>, v: int) {
    exists w :: WalkTo(g, w, v)
  }

  ghost predicate Realised(g: seq<State>, v: int, n: nat) {
    exists w :: WalkTo(g, w, v) && Emitting(g, w) == n
  }

  /** n is the least number of emitting states over all walks to v. */
  ghost predicate IsMinimum(g: seq<State>, v: int, n: nat) {
    Realised(g, v, n) && forall w | WalkTo(g, w, v) :: n <= Emitting(g, w)
  }

  lemma ExtendWalk(g: seq<State>, u: int, v: int, n: nat)
    requires Realised(g, u, n) && Edge(g, u, v)
    ensures Realised(g, v, n + g[v].Cost())
  {
    var w :| WalkTo(g, w, u) && Emitting(g, w) == n;
    var x := w + [v];
    assert x[..|x|-1] == w;
    assert WalkTo(g, x, v);
  }

  /** A labelling of the states that no edge can improve. */
  ghost predicate Fixpoint(g: seq<State>, dist: seq<Option<nat>>) {
    && |dist| == |g| > 0
    && dist[0] == Some(g[0].Cost())
    && forall u, v | Edge(g, u, v) && dist[u].Some? ::
         dist[v].Some? && dist[v].value <= dist[u].value + g[v].Cost()
  }

  lemma {:induction false} FixpointBoundsWalks(g: seq<State>, dist: seq<Option<nat>>, w: seq<int>)
    requires Fixpoint(g, dist) && Walk(g, w)
    ensures 0 <= w[|w|-1] < |g|
    ensures dist[w[|w|-1]].Some? && dist[w[|w|-1]].value <= Emitting(g, w)
  {
    if |w| == 1 {
      assert w[..0] == [];
    } else {
      var prefix := w[..|w|-1];
      FixpointBoundsWalks(g, dist, prefix);
      assert Edge(g, w[|w|-2], w[|w|-1]);
    }
  }

  lemma FixpointIsMinimum(g: seq<State>, dist: seq<Option<nat>>, v: int)
    requires Fixpoint(g, dist) && 0 <= v < |g|
    requires dist[v].Some? ==> Realised(g, v, dist[v].value)
    ensures dist[v].Some? <==> Reachable(g, v)
    ensures dist[v].Some? ==> IsMinimum(g, v, dist[v].value)
  {
    forall w | WalkTo(g, w, v)
      ensures dist[v].Some? && dist[v].value <= Emitting(g, w)
    {
      FixpointBoundsWalks(g, dist, w);
    }
  }

  // Distinct numbered states, in order of distance.
  ghost predicate Ordered(dist: seq<Option<nat>>, s: seq<int>) {
    && (forall i | 0 <= i < |s| :: 0 <= s[i] < |dist| && dist[s[i]].Some?)
    && (forall i, j | 0 <= i < j < |s| :: s[i] != s[j] && dist[s[i]].value <= dist[s[j]].value)
  }

  // Every edge out of a state in `from` has been relaxed.
  ghost predicate Relaxed(g: seq<State>, dist: seq<Option<nat>>, from: set<int>) {
    && |dist| == |g|
    && forall u, v | u in from && Edge(g, u, v) && dist[u].Some? ::
         dist[v].Some? && dist[v].value <= dist[u].value + g[v].Cost()
  }

  ghost predicate Sound(g: seq<State>, dist: seq<Option<nat>>) {
    |dist| == |g| && forall v | 0 <= v < |g| && dist[v].Some? :: Realised(g, v, dist[v].value)
  }

  /** The search state: `done` was popped and `queue` waits, on either side of the current level. */
  ghost predicate Frontier(g: seq<State>, dist: seq<Option<nat>>, done: seq<int>, queue: seq<int>, level: nat) {
    && |dist| == |g| > 0
    && dist[0] == Some(g[0].Cost())
    && Ordered(dist, done) && Ordered(dist, queue)
    && (forall v | v in done :: v !in queue && dist[v].value <= level)
    && (forall v | v in queue :: level <= dist[v].value)
    && (forall v | 0 <= v < |g| && dist[v].Some? :: v in done || v in queue)
    && (forall v | 0 <= v < |g| && dist[v].Some? :: dist[v].value <= level + g[v].Cost())
  }

  // The first i successors of u have been relaxed.
  ghost predicate RelaxedUpTo(g: seq<State>, dist: seq<Option<nat>>, u: int, i: nat) {
    && |dist| == |g| && 0 <= u < |g| && dist[u].Some? && i <= |g[u].next|
    && forall k | 0 <= k < i && 0 <= g[u].next[k] < |g| ::
         var v := g[u].next[k];
         dist[v].Some? && dist[v].value <= dist[u].value + g[v].Cost()
  }

  lemma NoStates(g: seq<State>)
    requires g == []
    ensures Ordered([], []) && forall v :: !Reachable(g, v)
  {
  }

  lemma Start(g: seq<State>, dist: seq<Option<nat>>)
    requires |dist| == |g| > 0 && dist[0] == Some(g[0].Cost())
    requires forall v | 0 < v < |g| :: dist[v].None?
    ensures Frontier(g, dist, [], [0], 0) && Sound(g, dist) && Relaxed(g, dist, {})
  {
    assert [0][..0] == [];
    assert WalkTo(g, [0], 0) && Emitting(g, [0]) == g[0].Cost();
  }

  lemma Pop(g: seq<State>, dist: seq<Option<nat>>, done: seq<int>, queue: seq<int>, level: nat)
    requires Frontier(g, dist, done, queue, level) && queue != []
    ensures 0 <= queue[0] < |g| && dist[queue[0]].Some?
    ensures queue[0] !in done && RelaxedUpTo(g, dist, queue[0], 0)
    ensures Frontier(g, dist, done + [queue[0]], queue[1..], dist[queue[0]].value)
  {
  }

  // Popping at this level found `s` unnumbered.  A free state goes to the front of the queue.
  lemma PushFront(g: seq<State>, dist: seq<Option<nat>>, done: seq<int>, queue: seq<int>, level: nat, s: int)
    requires Frontier(g, dist, done, queue, level)
    requires 0 <= s < |g| && dist[s].None? && g[s].Cost() == 0
    ensures Frontier(g, dist[s := Some(level)], done, [s] + queue, level)
  {
  }

  // An emitting state goes to the back: whatever waits is at most one above the level.
  lemma PushBack(g: seq<State>, dist: seq<Option<nat>>, done: seq<int>, queue: seq<int>, level: nat, s: int)
    requires Frontier(g, dist, done, queue, level)
    requires 0 <= s < |g| && dist[s].None? && g[s].Cost() == 1
    ensures Frontier(g, dist[s := Some(level + 1)], done, queue + [s], level)
  {
  }

  // A state already numbered cannot be improved from this level, whether it waits or was popped.
  lemma KnownIsFinal(g: seq<State>, dist: seq<Option<nat>>, done: seq<int>, queue: seq<int>, level: nat, s: int)
    requires Frontier(g, dist, done, queue, level) && 0 <= s < |g|
    ensures dist[s].Some? ==> dist[s].value <= level + g[s].Cost()
    ensures dist[s].None? ==> s !in done && s !in queue
  {
  }

  lemma AllRelaxed(g: seq<State>, dist: seq<Option<nat>>, from: set<int>, u: int)
    requires Relaxed(g, dist, from) && 0 <= u < |g| && RelaxedUpTo(g, dist, u, |g[u].next|)
    ensures Relaxed(g, dist, from + {u})
  {
  }

  // Distances are written once, so what was relaxed stays relaxed when an edge numbers a new state.
  lemma Discover(g: seq<State>, dist: seq<Option<nat>>, from: set<int>, u: int, i: nat)
    requires Relaxed(g, dist, from) && Sound(g, dist) && RelaxedUpTo(g, dist, u, i)
    requires i < |g[u].next|
    requires var s := g[u].next[i]; 0 <= s < |g| && dist[s].None? && s !in from
    ensures var s := g[u].next[i];
            var dist' := dist[s := Some(dist[u].value + g[s].Cost())];
            Relaxed(g, dist', from) && Sound(g, dist') && RelaxedUpTo(g, dist', u, i + 1)
  {
    ExtendWalk(g, u, g[u].next[i], dist[u].value);
  }

  lemma NothingToImprove(g: seq<State>, dist: seq<Option<nat>>, u: int, i: nat)
    requires RelaxedUpTo(g, dist, u, i) && i < |g[u].next|
    requires var s := g[u].next[i];
             0 <= s < |g| ==> dist[s].Some? && dist[s].value <= dist[u].value + g[s].Cost()
    ensures RelaxedUpTo(g, dist, u, i + 1)
  {
  }

  // With the queue empty, what was popped is what is reachable, at its final distance.
  lemma Conclude(g: seq<State>, dist: seq<Option<nat>>, done: seq<int>, level: nat)
    requires Frontier(g, dist, done, [], level) && Sound(g, dist) && Relaxed(g, dist, set v | v in done)
    ensures forall v :: v in done <==> Reachable(g, v)
    ensures forall v | 0 <= v < |g| ::
              (dist[v].Some? <==> Reachable(g, v)) && (dist[v].Some? ==> IsMinimum(g, v, dist[v].value))
    ensures Ordered(dist, done)
  {
    assert Fixpoint(g, dist);
    forall v | 0 <= v < |g|
      ensures dist[v].Some? <==> Reachable(g, v)
      ensures dist[v].Some? ==> IsMinimum(g, v, dist[v].value)
    {
      FixpointIsMinimum(g, dist, v);
    }
    forall v | Reachable(g, v) ensures v in done {
      var w :| WalkTo(g, w, v);
      FixpointBoundsWalks(g, dist, w);
    }
  }

  /** The body of the search loop: relax every edge out of the state just popped. */
  method Expand(states: seq<State>, distance: array<Option<nat>>, waiting: seq<int>, index: int, here: nat,
                ghost done: seq<int>, ghost before: set<int>)
    returns (queue: seq<int>)
    requires distance.Length == |states| && 0 <= index < |states| && distance[index] == Some(here)
    requires Frontier(states, distance[..], done, waiting, here) && Sound(states, distance[..])
    requires Relaxed(states, distance[..], before) && RelaxedUpTo(states, distance[..], index, 0)
    requires forall v | v in before :: v in done
    modifies distance
    ensures Frontier(states, distance[..], done, queue, here) && Sound(states, distance[..])
    ensures Relaxed(states, distance[..], before + {index})
    ensures forall v | 0 <= v < distance.Length && old(distance[v]).Some? :: distance[v] == old(distance[v])
  {
    hide Frontier, Sound, Relaxed, RelaxedUpTo;
    queue := waiting;
    for i := 0 to |states[index].next|
      invariant Frontier(states, distance[..], done, queue, here)
      invariant Sound(states, distance[..]) && Relaxed(states, distance[..], before)
      invariant forall v | 0 <= v < distance.Length && old(distance[v]).Some? :: distance[v] == old(distance[v])
      invariant RelaxedUpTo(states, distance[..], index, i)
    {
      var successor := states[index].next[i];
      if !(0 <= successor < |states|) {
        NothingToImprove(states, distance[..], index, i);
        continue;
      }
      var cost := if states[successor].mixw == NON_EMITTING_MIXW then 0 else 1;
      var candidate := here + cost;
      var known := distance[successor];
      KnownIsFinal(states, distance[..], done, queue, here, successor);
      if known.Some? && known.value <= candidate {
        NothingToImprove(states, distance[..], index, i);
        continue;
      }
      // So this is the first distance the state gets, and no later one will replace it.
      assert known.None? && successor !in before;
      Discover(states, distance[..], before, index, i);
      ghost var was := distance[..];
      distance[successor] := Some(candidate);
      assert distance[..] == was[successor := Some(candidate)];
      if cost != 0 {
        PushBack(states, was, done, queue, here, successor);
        queue := queue + [successor];
      } else {
        PushFront(states, was, done, queue, here, successor);
        queue := [successor] + queue;
      }
    }
    AllRelaxed(states, distance[..], before, index);
  }

  /** The i-th of the popped states was popped at the i-th of these distances, which it still has. */
  ghost predicate PoppedAt(dist: seq<Option<nat>>, done: seq<int>, popped: seq<nat>) {
    |popped| == |done| && forall i | 0 <= i < |done| :: 0 <= done[i] < |dist| && dist[done[i]] == Some(popped[i])
  }

  lemma StillAt(dist: seq<Option<nat>>, dist': seq<Option<nat>>, done: seq<int>, popped: seq<nat>)
    requires PoppedAt(dist, done, popped) && |dist'| == |dist|
    requires forall v | 0 <= v < |dist| && dist[v].Some? :: dist'[v] == dist[v]
    ensures PoppedAt(dist', done, popped)
  {
  }

  lemma PopsOne(dist: seq<Option<nat>>, done: seq<int>, popped: seq<nat>, v: int, here: nat)
    requires PoppedAt(dist, done, popped) && 0 <= v < |dist| && dist[v] == Some(here)
    ensures PoppedAt(dist, done + [v], popped + [here])
  {
  }

  lemma NothingPopped(dist: seq<Option<nat>>)
    ensures PoppedAt(dist, [], [])
  {
  }

  /**
   * Besides the answer, the ghost results list the popped states, and the distance each had when it was
   * popped: every reachable state once, in order of distance, and already at its final distance.
   */
  method MinimumEmittingStates(states: seq<State>)
    returns (r: Option<nat>, ghost expanded: seq<int>, ghost popped: seq<nat>, ghost final: seq<Option<nat>>)
    ensures r.None? <==> states == [] || !Reachable(states, |states| - 1)
    ensures r.Some? ==> states != [] && IsMinimum(states, |states| - 1, r.value)
    ensures |final| == |states| && Ordered(final, expanded)
    ensures forall v :: v in expanded <==> Reachable(states, v)
    ensures forall v | v in expanded :: IsMinimum(states, v, final[v].value)
    ensures PoppedAt(final, expanded, popped)
  {
    hide *;
    if states == [] {
      NoStates(states);
      NothingPopped([]);
      return None, [], [], [];
    }
    var last := |states| - 1;
    var distance := new Option<nat>[|states|](_ => None);
    distance[0] := Some(states[0].Cost());
    var queue := [0];

    ghost var done: seq<int> := [];
    ghost var from: set<int> := {};
    popped := [];
    ghost var level: nat := 0;
    ghost var indices := seq(|states|, k => k);
    ghost var all := set v | v in indices;
    assert forall v | 0 <= v < |states| :: indices[v] == v;
    Start(states, distance[..]);
    NothingPopped(distance[..]);
    while queue != []
      invariant Frontier(states, distance[..], done, queue, level)
      invariant Sound(states, distance[..])
      invariant Relaxed(states, distance[..], from) && from == set v | v in done
      invariant PoppedAt(distance[..], done, popped)
      decreases all - from
    {
      Pop(states, distance[..], done, queue, level);
      var index := queue[0];
      var here := distance[index].value;
      ghost var was, before := distance[..], from;
      PopsOne(was, done, popped, index, here);
      queue := queue[1..];
      done, popped, from := done + [index], popped + [here], from + {index};
      assert indices[index] == index && index in all;
      level := here;
      queue := Expand(states, distance, queue, index, here, done, before);
      StillAt(was, distance[..], done, popped);
    }
    Conclude(states, distance[..], done, level);
    r := distance[last];
    expanded, final := done, distance[..];
  }

  // What the engines conclude from the number.

  ghost function Total(dwell: seq<nat>): nat {
    if dwell == [] then 0 else Total(dwell[..|dwell|-1]) + dwell[|dwell|-1]
  }

  /** A complete alignment: a walk to the final state that spends frames in its emitting states only, at least one each. */
  ghost predicate Alignment(g: seq<State>, w: seq<int>, dwell: seq<nat>) {
    && g != [] && WalkTo(g, w, |g| - 1) && |dwell| == |w|
    && forall i | 0 <= i < |w| && 0 <= w[i] < |g| :: if Emits(g[w[i]]) then dwell[i] >= 1 else dwell[i] == 0
  }

  lemma {:induction false} FramesCoverEmitting(g: seq<State>, w: seq<int>, dwell: seq<nat>)
    requires |dwell| == |w|
    requires forall i | 0 <= i < |w| && 0 <= w[i] < |g| :: if Emits(g[w[i]]) then dwell[i] >= 1 else dwell[i] == 0
    ensures Emitting(g, w) <= Total(dwell)
  {
    if w != [] {
      FramesCoverEmitting(g, w[..|w|-1], dwell[..|w|-1]);
    }
  }

  lemma {:induction false} OneFrameEach(g: seq<State>, w: seq<int>) returns (dwell: seq<nat>)
    requires forall i | 0 <= i < |w| :: 0 <= w[i] < |g|
    ensures |dwell| == |w| && Total(dwell) == Emitting(g, w)
    ensures forall i | 0 <= i < |w| :: dwell[i] == if Emits(g[w[i]]) then 1 else 0
  {
    if w == [] {
      dwell := [];
    } else {
      var prefix := OneFrameEach(g, w[..|w|-1]);
      dwell := prefix + [if Emits(g[w[|w|-1]]) then 1 else 0];
      assert dwell[..|dwell|-1] == prefix;
    }
  }

  /** With fewer frames than the minimum no alignment exists at any beam width; with exactly that many, one does. */
  lemma FramesDecide(g: seq<State>, n: nat)
    requires g != [] && IsMinimum(g, |g| - 1, n)
    ensures forall w, dwell | Alignment(g, w, dwell) :: n <= Total(dwell)
    ensures exists w, dwell :: Alignment(g, w, dwell) && Total(dwell) == n
  {
    forall w, dwell | Alignment(g, w, dwell) ensures n <= Total(dwell) {
      FramesCoverEmitting(g, w, dwell);
    }
    var w :| WalkTo(g, w, |g| - 1) && Emitting(g, w) == n;
    forall i | 0 <= i < |w| ensures 0 <= w[i] < |g| {
      assert i > 0 ==> Edge(g, w[i-1], w[i]);
    }
    var dwell := OneFrameEach(g, w);
    assert Alignment(g, w, dwell);
  }
}
