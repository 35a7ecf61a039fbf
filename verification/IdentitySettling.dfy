/**
 * Settling the identity of a freshly launched process.
 *
 * The clock never goes back and otherwise moves as it likes between any two steps; a sleep lasts at least
 * as long as asked; what a reader finds, and whether it fails, is arbitrary.  How late a single step can be,
 * in reaping a reader above all, is the constant `lag`, which may be any number.
 */
module IdentitySettling {
  import opened Options

  const SETTLE_INTERVAL := 0.1
  const SETTLE_DURATION := 1.0
  const SETTLE_CHANGES := 3
  const READER_TIMEOUT := 2.0
  const LAUNCH_DEADLINE := 60.0
  const SUBPROCESS_TIMEOUT := 30.0

  // A whole fingerprint; only equality matters.
  type Identity = int

  /** One turn of the loop: when the clock was looked at after reading, and what was read. */
  datatype Reading = Reading(at: real, identity: Option<Identity>)

  datatype Read = Found(identity: Identity) | Failed | Broken

  /** One look at the process: when it began and ended, and what came of it. */
  datatype Look = Look(began: real, ended: real, read: Read)

  datatype Reason = PastDeadline | TooManyIdentities | Unreadable

  /** The counts and the identity that a refusal mentions. */
  datatype Report = Report(changes: nat, interruptions: nat, failures: nat, last: Option<Identity>)

  datatype Result = Settled(identity: Identity) | Refused(reason: Reason, report: Report) | Propagated {
    predicate Late() {
      Refused? && reason == PastDeadline
    }
  }

  function Min(x: real, y: real): (m: real)
    ensures m <= x && m <= y && (m == x || m == y)
  {
    if x <= y then x else y
  }

  // What the readings say.

  ghost predicate InOrder(rs: seq<Reading>) {
    forall i, j | 0 <= i <= j < |rs| :: rs[i].at <= rs[j].at
  }

  /** Every reading from i to j succeeded and found id. */
  ghost predicate Steady(rs: seq<Reading>, i: int, j: int, id: Identity) {
    0 <= i <= j < |rs| && forall k | i <= k <= j :: rs[k].identity == Some(id)
  }

  /** Some identity was found twice, a full settle duration apart, with nothing else in between. */
  ghost predicate Confirmed(rs: seq<Reading>, i: int, j: int, id: Identity) {
    Steady(rs, i, j, id) && rs[j].at - rs[i].at >= SETTLE_DURATION
  }

  ghost function LastIdentity(rs: seq<Reading>): Option<Identity> {
    if rs == [] then None
    else if rs[|rs|-1].identity.Some? then rs[|rs|-1].identity
    else LastIdentity(rs[..|rs|-1])
  }

  /** The number of runs of equal identities among the successful readings. */
  ghost function Runs(rs: seq<Reading>): nat {
    if rs == [] then 0
    else
      var last := rs[|rs|-1].identity;
      Runs(rs[..|rs|-1]) + if last.Some? && last != LastIdentity(rs[..|rs|-1]) then 1 else 0
  }

  /** How many failures came straight after a success. */
  ghost function Interruptions(rs: seq<Reading>): nat {
    if rs == [] then 0
    else
      var n := |rs| - 1;
      Interruptions(rs[..n]) + if rs[n].identity.None? && n > 0 && rs[n-1].identity.Some? then 1 else 0
  }

  ghost function TrailingFailures(rs: seq<Reading>): nat {
    if rs == [] || rs[|rs|-1].identity.Some? then 0 else 1 + TrailingFailures(rs[..|rs|-1])
  }

  /** The instant of the last success, or the start when there was none. */
  ghost function LastSuccess(rs: seq<Reading>, started: real): real {
    if rs == [] then started
    else if rs[|rs|-1].identity.Some? then rs[|rs|-1].at
    else LastSuccess(rs[..|rs|-1], started)
  }

  lemma Append(rs: seq<Reading>, r: Reading, started: real)
    ensures forall k | 0 <= k <= |rs| :: (rs + [r])[..k] == rs[..k]
    ensures rs[..|rs|] == rs
    ensures LastIdentity(rs + [r]) == if r.identity.Some? then r.identity else LastIdentity(rs)
    ensures Runs(rs + [r]) == Runs(rs) + if r.identity.Some? && r.identity != LastIdentity(rs) then 1 else 0
    ensures Interruptions(rs + [r]) ==
            Interruptions(rs) + if r.identity.None? && rs != [] && rs[|rs|-1].identity.Some? then 1 else 0
    ensures TrailingFailures(rs + [r]) == if r.identity.Some? then 0 else 1 + TrailingFailures(rs)
    ensures LastSuccess(rs + [r], started) == if r.identity.Some? then r.at else LastSuccess(rs, started)
  {
  }

  // The count of runs against the number of identities.

  ghost function Identities(rs: seq<Reading>): set<Identity> {
    set k | 0 <= k < |rs| && rs[k].identity.Some? :: rs[k].identity.value
  }

  /** Some identity was read, then another one, then the first again. */
  ghost predicate OneReturns(rs: seq<Reading>) {
    exists i, j, k :: Return(rs, i, j, k)
  }

  ghost predicate Return(rs: seq<Reading>, i: int, j: int, k: int) {
    && 0 <= i < j < k < |rs| && rs[i].identity.Some? && rs[j].identity.Some?
    && rs[i].identity == rs[k].identity != rs[j].identity
  }

  lemma {:induction false} LastSeen(rs: seq<Reading>) returns (m: int)
    ensures -1 <= m < |rs| && forall k | m < k < |rs| :: rs[k].identity.None?
    ensures if m == -1 then LastIdentity(rs) == None else LastIdentity(rs) == rs[m].identity != None
  {
    m := |rs| - 1;
    if rs != [] && rs[m].identity.None? {
      m := LastSeen(rs[..m]);
    }
  }

  /** A reading that continues a run adds no return; one that begins a run does exactly if its identity was seen before. */
  lemma ReturnsAt(rs: seq<Reading>, r: Reading)
    ensures OneReturns(rs + [r]) <==>
            OneReturns(rs) || (r.identity.Some? && r.identity != LastIdentity(rs) && r.identity.value in Identities(rs))
  {
    var rs', n := rs + [r], |rs|;
    var m := LastSeen(rs);
    if OneReturns(rs) {
      var i, j, k :| Return(rs, i, j, k);
      assert Return(rs', i, j, k);
    }
    if r.identity.Some? && r.identity != LastIdentity(rs) && r.identity.value in Identities(rs) {
      var i :| 0 <= i < n && rs[i].identity == r.identity;
      assert Return(rs', i, m, n);
    }
    if OneReturns(rs') {
      var i, j, k :| Return(rs', i, j, k);
      assert rs[j] == rs'[j] && rs[i] == rs'[i];
      if k < n {
        assert Return(rs, i, j, k);
      } else if r.identity == LastIdentity(rs) {
        assert j < m && Return(rs, i, j, m);
      } else {
        assert r.identity.value in Identities(rs);
      }
    }
  }

  lemma IdentitiesOf(rs: seq<Reading>, r: Reading)
    ensures Identities(rs + [r]) == Identities(rs) + if r.identity.Some? then {r.identity.value} else {}
    ensures LastIdentity(rs).Some? ==> LastIdentity(rs).value in Identities(rs)
  {
    var rs' := rs + [r];
    forall x ensures x in Identities(rs') <==> x in Identities(rs) || r.identity == Some(x) {
      if x in Identities(rs) {
        var k :| 0 <= k < |rs| && rs[k].identity == Some(x);
        assert rs'[k] == rs[k];
      }
      assert rs'[|rs|] == r;
    }
    var m := LastSeen(rs);
  }

  /** There are at least as many runs as identities, and just as many exactly when none returns after another. */
  lemma {:induction false} RunsAgainstIdentities(rs: seq<Reading>)
    ensures |Identities(rs)| <= Runs(rs)
    ensures |Identities(rs)| == Runs(rs) <==> !OneReturns(rs)
  {
    if rs == [] {
      assert forall i, j, k :: !Return(rs, i, j, k);
    } else {
      var before, r := rs[..|rs|-1], rs[|rs|-1];
      RunsAgainstIdentities(before);
      IdentitiesOf(before, r);
      ReturnsAt(before, r);
      Append(before, r, 0.0);
      assert before + [r] == rs;
    }
  }

  /** One identity, another, and the first again: two, counted as three. */
  lemma CountedTwice(a: Identity, b: Identity, t: real)
    requires a != b
    ensures var rs := [Reading(t, Some(a)), Reading(t, Some(b)), Reading(t, Some(a))];
            Runs(rs) == 3 && Identities(rs) == {a, b}
  {
    var r, q := Reading(t, Some(a)), Reading(t, Some(b));
    assert [r, q, r] == (([] + [r]) + [q]) + [r];
    Append([], r, t);
    Append([] + [r], q, t);
    Append(([] + [r]) + [q], r, t);
    IdentitiesOf([], r);
    IdentitiesOf([] + [r], q);
    IdentitiesOf(([] + [r]) + [q], r);
  }

  /** The readings lie between the start and the deadline. */
  ghost predicate Within(rs: seq<Reading>, started: real, deadline: real) {
    forall k | 0 <= k < |rs| :: started <= rs[k].at < deadline
  }

  /** All of them, except that the last may end after the deadline. */
  ghost predicate InTime(rs: seq<Reading>, started: real, deadline: real) {
    rs != [] ==> started <= rs[0].at && Within(rs[..|rs|-1], started, deadline)
  }

  /** From the n-th on, every reader was granted its time before the deadline. */
  ghost predicate StartedBefore(starts: seq<real>, n: nat, deadline: real) {
    n <= |starts| && forall k | n <= k < |starts| :: starts[k] < deadline
  }

  class World {
    var now: real
    const lag: real

    // The clock readings that granted each reader subprocess its time.
    ghost var starts: seq<real>

    // Every look, and how many readers were refused or failed, or found nothing they could read.
    ghost var looks: seq<Look>
    ghost var troubles: nat

    constructor (lag: real)
      requires lag >= 0.0
      ensures starts == [] && looks == [] && troubles == 0 && this.lag == lag
    {
      now := *;
      this.lag := lag;
      starts, looks, troubles := [], [], 0;
    }

    // Between `least` and `most` goes by, and at most the lag on top.
    method Elapse(least: real, most: real)
      requires 0.0 <= least <= most && lag >= 0.0
      modifies this`now
      ensures old(now) + least <= now <= old(now) + most + lag
    {
      var step: real := *;
      now := now + if least <= step <= most + lag then step else least;
    }

    method Monotonic() returns (t: real)
      requires lag >= 0.0
      modifies this`now
      ensures old(now) <= now <= old(now) + lag && t == now
    {
      Elapse(0.0, 0.0);
      t := now;
    }

    method Sleep(d: real)
      requires d > 0.0 && lag >= 0.0
      modifies this`now
      ensures old(now) + d <= now <= old(now) + d + lag
    {
      Elapse(d, d);
    }

    /** Sleep until the window can be confirmed, or to the deadline; false when that has passed. */
    method AwaitWindow(since: real, deadline: real) returns (waited: bool)
      requires lag >= 0.0
      modifies this`now
      ensures now >= old(now)
      ensures !waited ==> deadline <= now <= old(now) + lag
      ensures waited ==> (now >= since + SETTLE_DURATION || now >= deadline) && now <= deadline + lag
      ensures waited && since <= old(now) <= since + SETTLE_DURATION ==> now <= since + SETTLE_DURATION + lag
    {
      var t := Monotonic();
      if t >= deadline {
        return false;
      }
      var delay := Min(since + SETTLE_DURATION - t, deadline - t);
      if delay > 0.0 {
        Sleep(delay);
      }
      return true;
    }

    /** Sleep for an interval, or to the deadline. */
    method Nap(deadline: real)
      requires lag >= 0.0 && now < deadline
      modifies this`now
      ensures old(now) < now <= old(now) + SETTLE_INTERVAL + lag && now <= deadline + lag
      ensures now >= old(now) + SETTLE_INTERVAL || now >= deadline
    {
      Sleep(Min(SETTLE_INTERVAL, deadline - now));
    }

    /** None refuses; a grant is recorded in `starts`. */
    method ReaderTimeout(deadline: real) returns (timeout: Option<real>)
      requires lag >= 0.0
      modifies this`now, this`starts, this`troubles
      ensures old(now) <= now <= old(now) + lag
      ensures timeout.None? ==> starts == old(starts) && now >= deadline && troubles == old(troubles) + 1
      ensures timeout.Some? ==>
                && troubles == old(troubles)
                && 0.0 < timeout.value <= SUBPROCESS_TIMEOUT && starts == old(starts) + [now]
                && now < deadline && now + timeout.value <= deadline
    {
      var t := Monotonic();
      var remaining := deadline - t;
      if remaining <= 0.0 {
        troubles := troubles + 1;
        return None;
      }
      starts := starts + [now];
      return Some(Min(SUBPROCESS_TIMEOUT, remaining));
    }

    method RunReader(timeout: real) returns (ok: bool)
      requires timeout > 0.0 && lag >= 0.0
      modifies this`now, this`troubles
      ensures old(now) <= now <= old(now) + timeout + lag
      ensures troubles == old(troubles) + if ok then 0 else 1
    {
      Elapse(0.0, timeout);
      ok := Readable();
    }

    method Readable() returns (ok: bool)
      modifies this`troubles
      ensures troubles == old(troubles) + if ok then 0 else 1
    {
      ok := *;
      troubles := troubles + if ok then 0 else 1;
    }

    /** ps first, then the start time, then the working directory, which may need a second reader. */
    method Read(deadline: real) returns (r: Read)
      requires lag >= 0.0
      modifies this`now, this`starts, this`troubles
      ensures old(now) <= now <= (if old(now) <= deadline then deadline + lag else old(now)) + lag
      ensures old(now) >= deadline ==> r == Failed && starts == old(starts)
      ensures forall n: nat | StartedBefore(old(starts), n, deadline) :: StartedBefore(starts, n, deadline)
      ensures troubles >= old(troubles) && (r == Failed <==> troubles > old(troubles))
    {
      var timeout := ReaderTimeout(deadline);
      if timeout.None? {
        return Failed;
      }
      var ok := RunReader(timeout.value);
      if !ok {
        return Failed;
      }
      ok := Readable();
      if !ok {
        return Failed;
      }
      var proc: bool, resolved: bool := *, *;
      if !proc {
        timeout := ReaderTimeout(deadline);
        if timeout.None? {
          return Failed;
        }
        ok := RunReader(timeout.value);
        if !ok {
          return Failed;
        }
      }
      if !resolved {
        return Broken;
      }
      var identity: Identity := *;
      return Found(identity);
    }

    method LiveFingerprint(deadline: real) returns (r: Read)
      requires lag >= 0.0
      modifies this`now, this`starts, this`troubles, this`looks
      ensures old(now) <= now <= (if old(now) <= deadline then deadline + lag else old(now)) + lag
      ensures old(now) >= deadline ==> r == Failed && starts == old(starts)
      ensures forall n: nat | StartedBefore(old(starts), n, deadline) :: StartedBefore(starts, n, deadline)
      ensures troubles >= old(troubles) && (r == Failed <==> troubles > old(troubles))
      ensures looks == old(looks) + [Look(old(now), now, r)]
    {
      ghost var began := now;
      r := Read(deadline);
      looks := looks + [Look(began, now, r)];
    }
  }

  // The readings against the looks.

  /** The reading is the look: made within the lag of its end, with what it found. */
  ghost predicate Tells(r: Reading, l: Look, lag: real) {
    && l.ended <= r.at <= l.ended + lag
    && match l.read
       case Found(id) => r.identity == Some(id)
       case Failed => r.identity == None
       case Broken => false
  }

  ghost predicate Told(rs: seq<Reading>, ls: seq<Look>, lag: real) {
    |rs| == |ls| && forall k | 0 <= k < |rs| :: Tells(rs[k], ls[k], lag)
  }

  /** After these readings it is time to look again: a window after a success, an interval after a failure. */
  ghost predicate Due(rs: seq<Reading>, now: real, started: real, lag: real) {
    if rs == [] then now == started
    else
      var last := rs[|rs|-1];
      var pause := if last.identity.Some? then SETTLE_DURATION else SETTLE_INTERVAL;
      (now >= last.at + pause || now >= started + LAUNCH_DEADLINE) && last.at <= now <= last.at + pause + lag
  }

  /** Every look begins when it is due. */
  ghost predicate Paced(rs: seq<Reading>, ls: seq<Look>, started: real, lag: real) {
    |ls| <= |rs| + 1 && forall k | 0 <= k < |ls| :: Due(rs[..k], ls[k].began, started, lag)
  }

  /**
   * The readings are the looks, one by one, each begun when it was due; only a last one may be missing, which
   * broke and is propagated, or came too late.  It is over within two lags of the last look.
   */
  ghost predicate Watched(result: Result, rs: seq<Reading>, ls: seq<Look>, started: real, now: real, lag: real) {
    && ls != [] && |rs| <= |ls| <= |rs| + 1 && Told(rs, ls[..|rs|], lag) && Paced(rs, ls, started, lag)
    && (result.Propagated? <==> ls[|ls|-1].read.Broken?)
    && (|ls| == |rs| + 1 ==> result.Propagated? || (ls[|rs|].read.Found? && result.Late()))
    && now <= ls[|ls|-1].ended + 2.0 * lag
  }

  lemma OneLookMore(rs: seq<Reading>, ls: seq<Look>, l: Look, started: real, lag: real)
    requires Told(rs, ls, lag) && Paced(rs, ls, started, lag) && Due(rs, l.began, started, lag)
    ensures Paced(rs, ls + [l], started, lag) && (ls + [l])[..|rs|] == ls
  {
    var more := ls + [l];
    assert rs[..|rs|] == rs;
    forall k | 0 <= k < |more| ensures Due(rs[..k], more[k].began, started, lag) {
      if k < |ls| {
        assert more[k] == ls[k];
      }
    }
  }

  lemma OneReadingMore(rs: seq<Reading>, ls: seq<Look>, r: Reading, l: Look, started: real, lag: real)
    requires Told(rs, ls, lag) && Paced(rs, ls + [l], started, lag) && Tells(r, l, lag)
    ensures Told(rs + [r], ls + [l], lag) && Paced(rs + [r], ls + [l], started, lag)
  {
    forall k | 0 <= k <= |rs| ensures (rs + [r])[..k] == rs[..k] {
    }
  }

  lemma TellsFailure(at: real, l: Look, lag: real)
    requires l.read.Failed? && l.ended <= at <= l.ended + lag
    ensures Tells(Reading(at, None), l, lag)
  {
  }

  lemma TellsSuccess(at: real, l: Look, lag: real)
    requires l.read.Found? && l.ended <= at <= l.ended + lag
    ensures Tells(Reading(at, Some(l.read.identity)), l, lag)
  {
  }

  lemma NoLooks(started: real, lag: real)
    ensures Told([], [], lag) && Paced([], [], started, lag) && Due([], started, started, lag)
  {
  }

  // The last look counted, or it did not.
  lemma WatchedWhole(result: Result, rs: seq<Reading>, ls: seq<Look>, started: real, now: real, lag: real)
    requires Told(rs, ls, lag) && Paced(rs, ls, started, lag) && ls != [] && !result.Propagated?
    requires now <= ls[|ls|-1].ended + 2.0 * lag
    ensures Watched(result, rs, ls, started, now, lag)
  {
    assert ls[..|rs|] == ls;
    assert Tells(rs[|rs|-1], ls[|rs|-1], lag);
  }

  lemma WatchedButOne(result: Result, rs: seq<Reading>, ls: seq<Look>, l: Look, started: real, now: real, lag: real)
    requires Told(rs, ls, lag) && Paced(rs, ls + [l], started, lag)
    requires (result == Propagated && l.read.Broken?) || (result.Late() && l.read.Found?)
    requires now <= l.ended + 2.0 * lag
    ensures Watched(result, rs, ls + [l], started, now, lag)
  {
    assert (ls + [l])[..|rs|] == ls;
  }

  // The variables of the loop.
  datatype Progress = Progress(previous: Option<Identity>, stableSince: Option<real>, changes: nat,
                               interruptions: nat, failures: nat, readerDeadline: real)

  function Refusal(reason: Reason, p: Progress): Result {
    Refused(reason, Report(p.changes, p.interruptions, p.failures, p.previous))
  }

  // They are told by the readings so far.
  ghost predicate Loop(rs: seq<Reading>, started: real, p: Progress) {
    && InOrder(rs) && p.previous == LastIdentity(rs)
    && p.changes == Runs(rs) <= SETTLE_CHANGES && p.failures == TrailingFailures(rs)
    && p.interruptions == Interruptions(rs)
    && p.readerDeadline == LastSuccess(rs, started) + READER_TIMEOUT
    && (forall i, j, id | Steady(rs, i, j, id) :: rs[j].at - rs[i].at < SETTLE_DURATION)
    && (forall k | 0 <= k < |rs| :: !Hopeless(rs[..k], started))
    && (p.stableSince.None? ==> rs == [] || rs[|rs|-1].identity.None?)
    && (p.stableSince.Some? ==> p.previous.Some? && Window(rs, p.stableSince.value, p.previous.value))
  }

  // The window being confirmed began at `since`; what came before it was a failure or something else.
  ghost predicate Window(rs: seq<Reading>, since: real, id: Identity) {
    exists i :: Steady(rs, i, |rs| - 1, id) && rs[i].at == since && (i > 0 ==> rs[i-1].identity != Some(id))
  }

  /** What a failure makes of the variables. */
  function Interrupted(p: Progress): Progress {
    p.(stableSince := None, failures := p.failures + 1,
       interruptions := p.interruptions + if p.stableSince.Some? then 1 else 0)
  }

  lemma WhenInterrupted(p: Progress)
    ensures Interrupted(p).stableSince == None
  {
  }

  lemma WindowEnds(rs: seq<Reading>, since: real, id: Identity)
    requires Window(rs, since, id)
    ensures rs != [] && rs[|rs|-1].identity == Some(id)
  {
  }

  lemma AppendFailure(rs: seq<Reading>, at: real, started: real, p: Progress)
    requires Loop(rs, started, p) && !Hopeless(rs, started) && (rs != [] ==> rs[|rs|-1].at <= at)
    ensures Loop(rs + [Reading(at, None)], started, Interrupted(p))
  {
    hide Runs, Interruptions, LastIdentity, TrailingFailures, LastSuccess, Window;
    if p.stableSince.Some? {
      WindowEnds(rs, p.stableSince.value, p.previous.value);
    }
    var rs' := rs + [Reading(at, None)];
    Append(rs, Reading(at, None), started);
    forall i, j, id | Steady(rs', i, j, id) ensures rs'[j].at - rs'[i].at < SETTLE_DURATION {
      assert rs'[j].identity.Some?;
      assert Steady(rs, i, j, id);
    }
  }

  // A success that begins a window: the identity is new, or a failure came before.
  lemma AppendSuccess(rs: seq<Reading>, at: real, id: Identity, started: real, p: Progress)
    requires Loop(rs, started, p) && !Hopeless(rs, started) && (rs != [] ==> rs[|rs|-1].at <= at)
    requires p.previous == Some(id) ==> p.stableSince.None?
    requires p.previous != Some(id) ==> p.changes < SETTLE_CHANGES
    ensures Loop(rs + [Reading(at, Some(id))], started,
                 Progress(Some(id), Some(at), p.changes + (if p.previous == Some(id) then 0 else 1),
                          p.interruptions, 0, at + READER_TIMEOUT))
    ensures !Hopeless(rs + [Reading(at, Some(id))], started)
  {
    var r := Reading(at, Some(id));
    var rs' := rs + [r];
    var n := |rs|;
    Append(rs, r, started);
    assert n > 0 ==> rs'[n-1].identity != Some(id);
    assert Steady(rs', n, n, id) && rs'[n].at == at;
    forall i, j, x | Steady(rs', i, j, x) ensures rs'[j].at - rs'[i].at < SETTLE_DURATION {
      if j < n {
        assert Steady(rs, i, j, x);
      } else {
        assert rs'[j].identity == Some(x);
        assert i == n;
      }
    }
  }

  // A success inside a window that has not lasted long enough.
  lemma AppendSteady(rs: seq<Reading>, at: real, id: Identity, started: real, p: Progress)
    requires Loop(rs, started, p) && !Hopeless(rs, started) && (rs != [] ==> rs[|rs|-1].at <= at)
    requires p.previous == Some(id) && p.stableSince.Some? && at - p.stableSince.value < SETTLE_DURATION
    ensures Loop(rs + [Reading(at, Some(id))], started, p.(failures := 0, readerDeadline := at + READER_TIMEOUT))
    ensures !Hopeless(rs + [Reading(at, Some(id))], started)
  {
    var r := Reading(at, Some(id));
    var rs' := rs + [r];
    var n := |rs|;
    Append(rs, r, started);
    var first :| Steady(rs, first, n - 1, id) && rs[first].at == p.stableSince.value
                 && (first > 0 ==> rs[first-1].identity != Some(id));
    assert Steady(rs', first, n, id) && rs'[first].at == p.stableSince.value;
    assert first > 0 ==> rs'[first-1].identity != Some(id);
    forall i, j, x | Steady(rs', i, j, x) ensures rs'[j].at - rs'[i].at < SETTLE_DURATION {
      if j < n {
        assert Steady(rs, i, j, x);
      } else {
        assert rs'[j].identity == Some(x);
        assert first <= i;
      }
    }
  }

  lemma Confirms(rs: seq<Reading>, at: real, id: Identity, started: real, p: Progress)
    requires Loop(rs, started, p) && !Hopeless(rs, started) && (rs != [] ==> rs[|rs|-1].at <= at)
    requires p.previous == Some(id) && p.stableSince.Some? && at - p.stableSince.value >= SETTLE_DURATION
    ensures InOrder(rs + [Reading(at, Some(id))]) && Justified(Settled(id), rs + [Reading(at, Some(id))], started)
    ensures Patient(rs + [Reading(at, Some(id))], started)
  {
    var r := Reading(at, Some(id));
    Append(rs, r, started);
    var i :| Steady(rs, i, |rs| - 1, id) && rs[i].at == p.stableSince.value;
    assert Confirmed(rs + [r], i, |rs|, id);
  }

  lemma Begin(starts: seq<real>, started: real, deadline: real)
    ensures Loop([], started, Progress(None, None, 0, 0, 0, started + READER_TIMEOUT)) && !Hopeless([], started)
    ensures Within([], started, deadline) && StartedBefore(starts, |starts|, deadline)
  {
  }

  lemma Later(rs: seq<Reading>, r: Reading, started: real, deadline: real)
    requires Within(rs, started, deadline) && r.at >= started
    ensures InTime(rs, started, deadline) && InTime(rs + [r], started, deadline)
    ensures r.at < deadline ==> Within(rs + [r], started, deadline)
  {
    assert (rs + [r])[..|rs|] == rs;
  }

  // What the loop's state says when it refuses, or looks at its window.
  lemma LoopFacts(rs: seq<Reading>, started: real, p: Progress)
    requires Loop(rs, started, p)
    ensures InOrder(rs) && Patient(rs, started)
    ensures Justified(Refusal(PastDeadline, p), rs, started) && Justified(Propagated, rs, started)
    ensures rs != [] && p.failures >= 2 && rs[|rs|-1].at >= p.readerDeadline <==> Hopeless(rs, started)
    ensures Hopeless(rs, started) ==> Justified(Refusal(Unreadable, p), rs, started)
  {
    if rs != [] {
      var before := rs[..|rs|-1];
      forall i, j, id ensures !Confirmed(before, i, j, id) {
        assert Steady(before, i, j, id) ==> Steady(rs, i, j, id);
      }
    }
  }

  /** Two failed readings in a row, and long enough since the last success. */
  ghost predicate Hopeless(rs: seq<Reading>, started: real) {
    rs != [] && TrailingFailures(rs) >= 2 && rs[|rs|-1].at >= LastSuccess(rs, started) + READER_TIMEOUT
  }

  /** Nothing before the last reading was a reason to stop. */
  ghost predicate Patient(rs: seq<Reading>, started: real) {
    rs != [] ==> NothingConfirmed(rs[..|rs|-1]) && forall k | 0 <= k < |rs| :: !Hopeless(rs[..k], started)
  }

  /** What a result says about the readings: a confirmation at the end, or none at all and a reason. */
  ghost predicate Justified(result: Result, rs: seq<Reading>, started: real) {
    match result
    case Settled(id) => Runs(rs) <= SETTLE_CHANGES && exists i, j :: i < j == |rs| - 1 && Confirmed(rs, i, j, id)
    case Propagated => NothingConfirmed(rs)
    case Refused(reason, report) =>
      && NothingConfirmed(rs) && Reports(report, reason, rs)
      && (reason == TooManyIdentities ==> Runs(rs) == SETTLE_CHANGES + 1)
      && (reason == Unreadable ==> Hopeless(rs, started))
  }

  /** The last identity is the one before the change that was too many, which the loop counts but does not keep. */
  ghost predicate Reports(report: Report, reason: Reason, rs: seq<Reading>) {
    && report.changes == Runs(rs) && report.interruptions == Interruptions(rs) && report.failures == TrailingFailures(rs)
    && report.last == LastIdentity(if reason == TooManyIdentities && rs != [] then rs[..|rs|-1] else rs)
  }

  ghost predicate NothingConfirmed(rs: seq<Reading>) {
    forall i, j, id :: !Confirmed(rs, i, j, id)
  }

  lemma LoopIsInOrder(rs: seq<Reading>, started: real, p: Progress)
    requires Loop(rs, started, p)
    ensures InOrder(rs)
  {
  }

  // A reading that succeeded in time: it confirms, begins or continues a window, or is one change too many.
  method Observe(ghost seen: seq<Reading>, ghost started: real, p: Progress, at: real, identity: Identity)
    returns (q: Progress, verdict: Option<Result>)
    requires Loop(seen, started, p) && !Hopeless(seen, started) && (seen != [] ==> seen[|seen|-1].at <= at)
    ensures verdict.Some? ==> Justified(verdict.value, seen + [Reading(at, Some(identity))], started)
    ensures verdict.None? ==>
              && Loop(seen + [Reading(at, Some(identity))], started, q) && q.stableSince.Some?
              && (q.stableSince != Some(at) ==> q.stableSince == p.stableSince && at < q.stableSince.value + SETTLE_DURATION)
    ensures InOrder(seen + [Reading(at, Some(identity))]) && (verdict.Some? ==> !verdict.value.Late() && !verdict.value.Propagated?)
    ensures verdict.Some? ==> Patient(seen + [Reading(at, Some(identity))], started)
    ensures verdict.None? ==> !Hopeless(seen + [Reading(at, Some(identity))], started)
  {
    hide Confirmed, Runs, LastIdentity, TrailingFailures, LastSuccess, Steady, Window, Loop, InOrder, Justified, Hopeless,
         Patient, NothingConfirmed;
    q := p.(failures := 0, readerDeadline := at + READER_TIMEOUT);
    if Some(identity) == q.previous {
      if q.stableSince.None? {
        AppendSuccess(seen, at, identity, started, p);
        q := q.(stableSince := Some(at));
        LoopIsInOrder(seen + [Reading(at, Some(identity))], started, q);
        return q, None;
      } else if at - q.stableSince.value >= SETTLE_DURATION {
        Confirms(seen, at, identity, started, p);
        return q, Some(Settled(identity));
      }
      // The loop does not come here: it sleeps for the rest of the window before it reads again.
      AppendSteady(seen, at, identity, started, p);
      LoopIsInOrder(seen + [Reading(at, Some(identity))], started, q);
      return q, None;
    } else {
      q := q.(changes := q.changes + 1);
      if q.changes > SETTLE_CHANGES {
        TooMany(seen, at, identity, started, p);
        return q, Some(Refusal(TooManyIdentities, q));
      }
      AppendSuccess(seen, at, identity, started, p);
      q := q.(previous := Some(identity), stableSince := Some(at));
      LoopIsInOrder(seen + [Reading(at, Some(identity))], started, q);
      return q, None;
    }
  }

  // A reader failed: the window is interrupted, and after the second failure in a row patience may be over.
  method Miss(world: World, ghost seen: seq<Reading>, ghost started: real, p: Progress, outer: real)
    returns (q: Progress, verdict: Option<Result>, ghost at: real)
    requires world.lag >= 0.0 && started <= world.now && Within(seen, started, outer)
    requires Loop(seen, started, p) && !Hopeless(seen, started) && (seen != [] ==> seen[|seen|-1].at <= world.now)
    modifies world`now
    ensures InTime(seen + [Reading(at, None)], started, outer) && InOrder(seen + [Reading(at, None)])
    ensures old(world.now) <= at <= old(world.now) + world.lag && at <= world.now && q.stableSince == None
    ensures verdict.Some? ==>
              && world.now == at && Patient(seen + [Reading(at, None)], started)
              && Justified(verdict.value, seen + [Reading(at, None)], started)
              && verdict.value.Refused? && verdict.value.reason != TooManyIdentities
              && (verdict.value.Late() ==> at >= outer)
    ensures verdict.None? ==>
              && at < outer && Loop(seen + [Reading(at, None)], started, q) && !Hopeless(seen + [Reading(at, None)], started)
              && Within(seen + [Reading(at, None)], started, outer)
              && (world.now >= at + SETTLE_INTERVAL || world.now >= outer) && world.now <= outer + world.lag
              && world.now <= at + SETTLE_INTERVAL + world.lag
  {
    hide Loop, InOrder, Within, InTime, Justified, Hopeless, Patient, Interrupted;
    var now := world.Monotonic();
    at := now;
    Later(seen, Reading(now, None), started, outer);
    AppendFailure(seen, now, started, p);
    q := Interrupted(p);
    WhenInterrupted(p);
    LoopFacts(seen + [Reading(now, None)], started, q);
    if now >= outer {
      return q, Some(Refusal(PastDeadline, q)), at;
    }
    if q.failures >= 2 && now >= q.readerDeadline {
      return q, Some(Refusal(Unreadable, q)), at;
    }
    world.Nap(outer);
    return q, None, at;
  }

  /**
   * The whole promise.  The readings justify the result, which came at the first opportunity; an identity
   * was confirmed before the deadline; all but the last reading ended before it; and it is over by the
   * deadline and the lateness of the last reader and of looking at the clock before and after it.
   */
  ghost predicate Promised(result: Result, rs: seq<Reading>, started: real, now: real, lag: real) {
    var deadline := started + LAUNCH_DEADLINE;
    && InOrder(rs) && Justified(result, rs, started) && Patient(rs, started) && InTime(rs, started, deadline)
    && (result.Settled? ==> rs[|rs|-1].at < deadline)
    && (result.Late() ==> now >= deadline)
    && now <= deadline + 3.0 * lag
  }

  // The three ways out: before a reading counts, after one, and because of one.

  lemma StopBefore(result: Result, rs: seq<Reading>, started: real, p: Progress, now: real, lag: real)
    requires Loop(rs, started, p) && Within(rs, started, started + LAUNCH_DEADLINE)
    requires result == Propagated || (result == Refusal(PastDeadline, p) && now >= started + LAUNCH_DEADLINE)
    requires now <= started + LAUNCH_DEADLINE + 3.0 * lag
    ensures Promised(result, rs, started, now, lag)
  {
    LoopFacts(rs, started, p);
    assert forall k | 0 <= k < |rs| - 1 :: rs[..|rs|-1][k] == rs[k];
  }

  lemma StopAt(result: Result, rs: seq<Reading>, r: Reading, started: real, now: real, lag: real)
    requires InOrder(rs + [r]) && Justified(result, rs + [r], started) && Patient(rs + [r], started)
    requires Within(rs, started, started + LAUNCH_DEADLINE) && r.at >= started
    requires result.Settled? ==> r.at < started + LAUNCH_DEADLINE
    requires result.Late() ==> now >= started + LAUNCH_DEADLINE
    requires now <= started + LAUNCH_DEADLINE + 3.0 * lag
    ensures Promised(result, rs + [r], started, now, lag)
  {
    Later(rs, r, started, started + LAUNCH_DEADLINE);
  }

  /** What holds between two turns of the loop. */
  ghost predicate Turning(rs: seq<Reading>, ls: seq<Look>, p: Progress, now: real, started: real, lag: real) {
    && started <= now <= started + LAUNCH_DEADLINE + lag && lag >= 0.0
    && Loop(rs, started, p) && !Hopeless(rs, started) && Within(rs, started, started + LAUNCH_DEADLINE)
    && (rs != [] ==> rs[|rs|-1].at <= now)
    && (p.stableSince.Some? ==> now >= p.stableSince.value + SETTLE_DURATION || now >= started + LAUNCH_DEADLINE)
    && Told(rs, ls, lag) && Paced(rs, ls, started, lag) && Due(rs, now, started, lag)
  }

  ghost predicate Ended(result: Result, rs: seq<Reading>, ls: seq<Look>, started: real, now: real, lag: real) {
    Promised(result, rs, started, now, lag) && Watched(result, rs, ls, started, now, lag)
  }

  lemma FirstTurn(started: real, lag: real)
    requires lag >= 0.0
    ensures Turning([], [], Progress(None, None, 0, 0, 0, started + READER_TIMEOUT), started, started, lag)
  {
    Begin([], started, started + LAUNCH_DEADLINE);
    NoLooks(started, lag);
  }

  lemma NextTurn(rs: seq<Reading>, ls: seq<Look>, r: Reading, l: Look, p: Progress, q: Progress, now: real, started: real, lag: real)
    requires Turning(rs, ls, p, l.began, started, lag) && Tells(r, l, lag)
    requires Loop(rs + [r], started, q) && !Hopeless(rs + [r], started) && Within(rs + [r], started, started + LAUNCH_DEADLINE)
    requires var pause := if r.identity.Some? then SETTLE_DURATION else SETTLE_INTERVAL;
             (now >= r.at + pause || now >= started + LAUNCH_DEADLINE) && r.at <= now <= r.at + pause + lag
    requires started <= now <= started + LAUNCH_DEADLINE + lag
    requires q.stableSince == if r.identity.Some? then Some(r.at) else None
    ensures Turning(rs + [r], ls + [l], q, now, started, lag)
  {
    hide Told, Paced, Tells, Loop, Hopeless, Within;
    OneLookMore(rs, ls, l, started, lag);
    OneReadingMore(rs, ls, r, l, started, lag);
  }

  lemma EndWith(result: Result, rs: seq<Reading>, ls: seq<Look>, r: Reading, l: Look, p: Progress, now: real, started: real, lag: real)
    requires Turning(rs, ls, p, l.began, started, lag) && Tells(r, l, lag) && r.at >= started && !result.Propagated?
    requires InOrder(rs + [r]) && Justified(result, rs + [r], started) && Patient(rs + [r], started)
    requires result.Settled? ==> r.at < started + LAUNCH_DEADLINE
    requires result.Late() ==> now >= started + LAUNCH_DEADLINE
    requires now <= started + LAUNCH_DEADLINE + 3.0 * lag && now <= l.ended + 2.0 * lag
    ensures Ended(result, rs + [r], ls + [l], started, now, lag)
  {
    hide Told, Paced, Tells, Loop, Hopeless, Within, Promised, Watched, Justified, Patient, InOrder;
    OneLookMore(rs, ls, l, started, lag);
    OneReadingMore(rs, ls, r, l, started, lag);
    StopAt(result, rs, r, started, now, lag);
    WatchedWhole(result, rs + [r], ls + [l], started, now, lag);
  }

  // The window was not waited for: the deadline came first.
  lemma EndAfter(rs: seq<Reading>, ls: seq<Look>, r: Reading, l: Look, p: Progress, q: Progress, now: real, started: real, lag: real)
    requires Turning(rs, ls, p, l.began, started, lag) && Tells(r, l, lag)
    requires Loop(rs + [r], started, q) && Within(rs + [r], started, started + LAUNCH_DEADLINE)
    requires now >= started + LAUNCH_DEADLINE
    requires now <= started + LAUNCH_DEADLINE + 3.0 * lag && now <= l.ended + 2.0 * lag
    ensures Ended(Refusal(PastDeadline, q), rs + [r], ls + [l], started, now, lag)
  {
    hide Told, Paced, Tells, Loop, Hopeless, Within, Promised, Watched;
    OneLookMore(rs, ls, l, started, lag);
    OneReadingMore(rs, ls, r, l, started, lag);
    StopBefore(Refusal(PastDeadline, q), rs + [r], started, q, now, lag);
    WatchedWhole(Refusal(PastDeadline, q), rs + [r], ls + [l], started, now, lag);
  }

  lemma EndWithout(result: Result, rs: seq<Reading>, ls: seq<Look>, l: Look, p: Progress, now: real, started: real, lag: real)
    requires Turning(rs, ls, p, l.began, started, lag)
    requires (result == Propagated && l.read.Broken?)
             || (result == Refusal(PastDeadline, p) && l.read.Found? && now >= started + LAUNCH_DEADLINE)
    requires now <= started + LAUNCH_DEADLINE + 3.0 * lag && now <= l.ended + 2.0 * lag
    ensures Ended(result, rs, ls + [l], started, now, lag)
  {
    hide Told, Paced, Tells, Loop, Hopeless, Within, Promised, Watched;
    OneLookMore(rs, ls, l, started, lag);
    StopBefore(result, rs, started, p, now, lag);
    WatchedButOne(result, rs, ls, l, started, now, lag);
  }

  lemma TurnFacts(rs: seq<Reading>, ls: seq<Look>, p: Progress, now: real, started: real, lag: real)
    requires Turning(rs, ls, p, now, started, lag)
    ensures started <= now <= started + LAUNCH_DEADLINE + lag && lag >= 0.0
    ensures Loop(rs, started, p) && !Hopeless(rs, started) && Within(rs, started, started + LAUNCH_DEADLINE)
    ensures rs != [] ==> rs[|rs|-1].at <= now
    ensures p.stableSince.Some? ==> now >= p.stableSince.value + SETTLE_DURATION || now >= started + LAUNCH_DEADLINE
  {
  }

  // The rest of a turn after a reader failed.
  method AfterFailure(world: World, ghost seen: seq<Reading>, ghost looks: seq<Look>, ghost look: Look, ghost started: real,
                      p: Progress, outer: real)
    returns (q: Progress, verdict: Option<Result>, ghost at: real)
    requires outer == started + LAUNCH_DEADLINE && Turning(seen, looks, p, look.began, started, world.lag)
    requires look.read.Failed? && look.began <= look.ended == world.now && world.now <= outer + 2.0 * world.lag
    modifies world`now
    ensures verdict.Some? ==> Ended(verdict.value, seen + [Reading(at, None)], looks + [look], started, world.now, world.lag)
    ensures verdict.None? ==>
              && Turning(seen + [Reading(at, None)], looks + [look], q, world.now, started, world.lag)
              && old(world.now) < outer && (world.now >= old(world.now) + SETTLE_INTERVAL || world.now >= outer)
  {
    hide Turning, Ended, Told, Paced, Tells, Loop, Hopeless, Within, Promised, Watched, Justified, Patient, InOrder, InTime;
    TurnFacts(seen, looks, p, look.began, started, world.lag);
    q, verdict, at := Miss(world, seen, started, p, outer);
    TellsFailure(at, look, world.lag);
    if verdict.Some? {
      EndWith(verdict.value, seen, looks, Reading(at, None), look, p, world.now, started, world.lag);
    } else {
      NextTurn(seen, looks, Reading(at, None), look, p, q, world.now, started, world.lag);
    }
  }

  // The rest of a turn after an identity was found.
  method AfterSuccess(world: World, ghost seen: seq<Reading>, ghost looks: seq<Look>, ghost look: Look, ghost started: real,
                      p: Progress, identity: Identity, outer: real)
    returns (q: Progress, verdict: Option<Result>, ghost now: seq<Reading>)
    requires outer == started + LAUNCH_DEADLINE && Turning(seen, looks, p, look.began, started, world.lag)
    requires look.read == Found(identity) && look.began <= look.ended == world.now && world.now <= outer + 2.0 * world.lag
    modifies world`now
    ensures verdict.Some? ==> Ended(verdict.value, now, looks + [look], started, world.now, world.lag)
    ensures verdict.None? ==>
              && Turning(now, looks + [look], q, world.now, started, world.lag)
              && old(world.now) < outer && (world.now >= old(world.now) + SETTLE_DURATION || world.now >= outer)
  {
    hide Turning, Ended, Told, Paced, Tells, Loop, Hopeless, Within, Promised, Watched, Justified, Patient, InOrder, InTime;
    TurnFacts(seen, looks, p, look.began, started, world.lag);
    now := seen;
    var at := world.Monotonic();
    if at >= outer {
      EndWithout(Refusal(PastDeadline, p), seen, looks, look, p, world.now, started, world.lag);
      return p, Some(Refusal(PastDeadline, p)), now;
    }
    ghost var r := Reading(at, Some(identity));
    now := seen + [r];
    TellsSuccess(at, look, world.lag);
    q, verdict := Observe(seen, started, p, at, identity);
    if verdict.Some? {
      EndWith(verdict.value, seen, looks, r, look, p, world.now, started, world.lag);
      return;
    }
    Later(seen, r, started, outer);
    assert q.stableSince == Some(at);
    var waited := world.AwaitWindow(q.stableSince.value, outer);
    if !waited {
      EndAfter(seen, looks, r, look, p, q, world.now, started, world.lag);
      return q, Some(Refusal(PastDeadline, q)), now;
    }
    NextTurn(seen, looks, r, look, p, q, world.now, started, world.lag);
  }

  /**
   * The loop always ends, and starts no reader once the deadline has passed.  The ghost results are the
   * readings, which are the looks recorded in the world, and the instant it started.
   */
  method SettledLiveFingerprint(world: World)
    returns (result: Result, ghost readings: seq<Reading>, ghost started: real)
    requires world.lag >= 0.0
    modifies world
    ensures Promised(result, readings, started, world.now, world.lag)
    ensures StartedBefore(world.starts, |old(world.starts)|, started + LAUNCH_DEADLINE)
    ensures old(world.looks) <= world.looks && old(world.now) <= started <= old(world.now) + world.lag
    ensures Watched(result, readings, world.looks[|old(world.looks)|..], started, world.now, world.lag)
  {
    hide Turning, Promised, Watched, StartedBefore;
    var start := world.Monotonic();
    var outer := start + LAUNCH_DEADLINE;
    readings, started := [], start;
    var p := Progress(None, None, 0, 0, 0, start + READER_TIMEOUT);
    ghost var looks: seq<Look> := [];
    FirstTurn(start, world.lag);
    NoneStarted(world.starts, outer);
    while true
      invariant started == start && Turning(readings, looks, p, world.now, start, world.lag)
      invariant world.looks == old(world.looks) + looks
      invariant StartedBefore(world.starts, |old(world.starts)|, outer)
      decreases if world.now >= outer then 0.0 else (outer - world.now) * 10.0 + 1.0
    {
      TurnFacts(readings, looks, p, world.now, start, world.lag);
      ghost var began := world.now;
      var current := world.LiveFingerprint(outer);
      ghost var look := Look(began, world.now, current);
      assert world.looks == old(world.looks) + (looks + [look]);
      assert world.looks[|old(world.looks)|..] == looks + [look];
      if current.Broken? {
        EndWithout(Propagated, readings, looks, look, p, world.now, start, world.lag);
        return Propagated, readings, started;
      }
      var verdict;
      if current.Failed? {
        ghost var at;
        p, verdict, at := AfterFailure(world, readings, looks, look, start, p, outer);
        readings := readings + [Reading(at, None)];
      } else {
        p, verdict, readings := AfterSuccess(world, readings, looks, look, start, p, current.identity, outer);
      }
      looks := looks + [look];
      if verdict.Some? {
        return verdict.value, readings, started;
      }
      LateEnough(began, world.now, outer);
    }
  }

  lemma LateEnough(before: real, now: real, outer: real)
    requires now >= before + SETTLE_INTERVAL || now >= outer
    ensures now < outer ==> (outer - now) * 10.0 + 1.0 <= (outer - before) * 10.0
  {
  }

  lemma NoneStarted(starts: seq<real>, deadline: real)
    ensures StartedBefore(starts, |starts|, deadline)
  {
  }

  lemma TooMany(rs: seq<Reading>, at: real, id: Identity, started: real, p: Progress)
    requires Loop(rs, started, p) && !Hopeless(rs, started) && (rs != [] ==> rs[|rs|-1].at <= at)
    requires p.previous != Some(id) && p.changes + 1 > SETTLE_CHANGES
    ensures var rs' := rs + [Reading(at, Some(id))];
            && InOrder(rs') && Patient(rs', started)
            && Justified(Refusal(TooManyIdentities, p.(failures := 0, changes := p.changes + 1)), rs', started)
  {
    var rs' := rs + [Reading(at, Some(id))];
    Append(rs, Reading(at, Some(id)), started);
    assert rs != [] ==> rs'[|rs|-1].identity != Some(id);
    forall i, j, x ensures !Confirmed(rs', i, j, x) {
      if Steady(rs', i, j, x) {
        if j < |rs| {
          assert Steady(rs, i, j, x);
        } else {
          assert rs'[j].identity == Some(x);
          assert i == j;
        }
      }
    }
  }
}
