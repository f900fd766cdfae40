/**
 * The checkpoint handler goroutine of batchconsumer/checkpointmanager.go as a
 * deterministic state machine over a non-decreasing integer clock.
 *
 * Between two inputs the goroutine is blocked in one of two selects: the
 * outer one at the top of its loop (Idle) or the one inside the throttle wait
 * loop (Waiting); after its `return` it is Terminated. An input is a
 * submitted pair, a shutdown request or the wait loop's timer firing. Each
 * input is processed to the next blocking point in one step. The calls the
 * goroutine makes on its checkpointer, and the done signal, are appended to a
 * log together with the time at which they happen.
 */
module CheckpointActor {
  import opened Options
  import opened Kcl

  datatype Phase = Idle | Waiting | Terminated

  /** One entry of the log: a call on the checkpointer, or the done signal. */
  datatype Output = Invoked(call: Call, time: int) | Signalled(time: int)

  /**
   * The goroutine's state: the throttle interval, the time it started, its
   * locals `lastCheckpoint` and `pair`, where it is blocked, the time of the
   * latest input, and everything it has done so far.
   */
  datatype Actor = Actor(
    freq: int,
    started: int,
    lastCheckpoint: int,
    clock: int,
    pair: SequencePair,
    phase: Phase,
    log: seq<Output>)

  datatype Event =
    | Submit(pair: SequencePair, time: int)
    | ShutdownRequest(time: int)
    | TimerFired(time: int)

  /**
   * The goroutine as started by newCheckpointManager at time `now`: idle, with
   * the throttle window starting at once and nothing done yet; it satisfies
   * the invariant.
   */
  function Init(freq: int, now: int): (a: Actor)
    ensures Inv(a)
    ensures a.phase == Idle && a.log == [] && a.lastCheckpoint == a.started == a.clock == now
  {
    Actor(freq, now, now, now, Unset, Idle, [])
  }

  /**
   * Inputs arrive in time order and only while the goroutine runs; the timer
   * exists only inside the wait loop.
   */
  predicate Enabled(a: Actor, e: Event) {
    a.phase != Terminated && e.time >= a.clock && (e.TimerFired? ==> a.phase == Waiting)
  }

  /** The throttle window has not yet elapsed at `now` (the wait loop's guard). */
  predicate InWindow(a: Actor, now: int) {
    now - a.lastCheckpoint < a.freq
  }

  /**
   * What follows the wait loop: checkpoint the pair unless it is unset and
   * restart the window; then either shut the checkpointer down, signal done
   * and return, or go back to the top of the loop, where the pair is reset.
   */
  function Finish(a: Actor, now: int, shutdown: bool): (r: Actor)
    ensures a.log <= r.log
    ensures |r.log| == |a.log| + (if a.pair.IsNil() then 0 else 1) + (if shutdown then 2 else 0)
    ensures !a.pair.IsNil() ==> r.log[|a.log|] == Invoked(Checkpoint(a.pair), now)
    ensures shutdown ==> r.log[|r.log| - 2..] == [Invoked(Shutdown, now), Signalled(now)]
    ensures r.lastCheckpoint == if a.pair.IsNil() then a.lastCheckpoint else now
    ensures (r.phase == Terminated <==> shutdown) && (r.phase == Idle <==> !shutdown)
    ensures !shutdown ==> r.pair.IsNil()
    ensures r.freq == a.freq && r.started == a.started && r.clock == a.clock
  {
    var b := if a.pair.IsNil() then a
             else a.(log := a.log + [Invoked(Checkpoint(a.pair), now)], lastCheckpoint := now);
    if shutdown then b.(log := b.log + [Invoked(Shutdown, now), Signalled(now)], phase := Terminated)
    else b.(phase := Idle, pair := Unset)
  }

  /** Process one input up to the next point where the goroutine blocks. */
  function Step(a: Actor, e: Event): (r: Actor)
    requires Enabled(a, e)
    ensures a.log <= r.log
    ensures r.freq == a.freq && r.started == a.started && r.clock == e.time
    ensures r.lastCheckpoint == a.lastCheckpoint || r.lastCheckpoint == e.time
    ensures r.phase == Terminated <==> e.ShutdownRequest?
    ensures r.phase == Idle ==> r.pair.IsNil()
    ensures r.log == a.log ==> r.lastCheckpoint == a.lastCheckpoint
  {
    match e
    case Submit(p, now) =>
      var b := a.(pair := p, clock := now);
      if InWindow(b, now) then b.(phase := Waiting) else Finish(b, now, false)
    case ShutdownRequest(now) =>
      Finish(a.(clock := now), now, true)
    case TimerFired(now) =>
      var b := a.(clock := now);
      if InWindow(b, now) then b else Finish(b, now, false)
  }

  predicate ValidRun(a: Actor, es: seq<Event>)
    decreases |es|
  {
    es == [] || (Enabled(a, es[0]) && ValidRun(Step(a, es[0]), es[1..]))
  }

  function Run(a: Actor, es: seq<Event>): Actor
    requires ValidRun(a, es)
    decreases |es|
  {
    if es == [] then a else Run(Step(a, es[0]), es[1..])
  }

  // ----- the log -----

  predicate IsCommit(o: Output) {
    o.Invoked? && o.call.Checkpoint?
  }

  predicate IsShutdownCall(o: Output) {
    o.Invoked? && o.call.Shutdown?
  }

  /** The time of the latest checkpoint in `log`, or `started` if there is none. */
  function LastCommit(log: seq<Output>, started: int): int {
    if log == [] then started
    else if IsCommit(log[|log| - 1]) then log[|log| - 1].time
    else LastCommit(log[..|log| - 1], started)
  }

  /**
   * Entry `j` is a shutdown flush: it is immediately followed by the
   * checkpointer's shutdown, made at the same instant.
   */
  predicate FlushedAt(log: seq<Output>, j: int) {
    0 <= j && j + 1 < |log| && IsShutdownCall(log[j + 1]) && log[j].time == log[j + 1].time
  }

  /**
   * Every checkpoint that is not made at the same instant as, and just
   * before, the shutdown call comes at least `freq` after the previous
   * checkpoint (or after the start).
   */
  predicate Spaced(log: seq<Output>, started: int, freq: int) {
    forall j | 0 <= j < |log| && IsCommit(log[j]) && !FlushedAt(log, j) ::
      log[j].time - LastCommit(log[..j], started) >= freq
  }

  /** No checkpoint is ever called with an unset pair. */
  predicate CommitsSet(log: seq<Output>) {
    forall j | 0 <= j < |log| && IsCommit(log[j]) :: !log[j].call.pair.IsNil()
  }

  /**
   * Before termination the log holds only checkpoints; after it, the log
   * ends with exactly one shutdown call followed by the done signal.
   */
  predicate Shaped(log: seq<Output>, terminated: bool) {
    if terminated then
      |log| >= 2 && IsShutdownCall(log[|log| - 2]) && log[|log| - 1].Signalled? &&
      forall j | 0 <= j < |log| - 2 :: IsCommit(log[j])
    else
      forall j | 0 <= j < |log| :: IsCommit(log[j])
  }

  /** Log times lie between the start and the clock, in order. */
  predicate Chronological(log: seq<Output>, started: int, clock: int) {
    (forall j | 0 <= j < |log| :: started <= log[j].time <= clock) &&
    (forall i, j | 0 <= i < j < |log| :: log[i].time <= log[j].time)
  }

  /** The invariant every reachable state keeps. */
  predicate Inv(a: Actor) {
    a.started <= a.lastCheckpoint <= a.clock &&
    (a.phase == Idle ==> a.pair.IsNil()) &&
    (a.phase == Waiting ==> InWindow(a, a.clock)) &&
    a.lastCheckpoint == LastCommit(a.log, a.started) &&
    Shaped(a.log, a.phase == Terminated) &&
    CommitsSet(a.log) &&
    Spaced(a.log, a.started, a.freq) &&
    Chronological(a.log, a.started, a.clock)
  }

  // ----- lemmas about the log -----

  lemma LastCommitAppend(log: seq<Output>, o: Output, started: int)
    ensures LastCommit(log + [o], started) == if IsCommit(o) then o.time else LastCommit(log, started)
  {
    assert (log + [o])[..|log|] == log;
  }

  lemma SpacedAppend(log: seq<Output>, o: Output, started: int, freq: int)
    requires Spaced(log, started, freq)
    requires IsCommit(o) ==> o.time - LastCommit(log, started) >= freq
    ensures Spaced(log + [o], started, freq)
  {
    var l := log + [o];
    forall j | 0 <= j < |l| && IsCommit(l[j]) && !FlushedAt(l, j)
      ensures l[j].time - LastCommit(l[..j], started) >= freq
    {
      if j < |log| {
        assert l[..j] == log[..j];
        assert !FlushedAt(log, j);
      } else {
        assert l[..j] == log;
      }
    }
  }

  lemma SpacedAppendFlush(log: seq<Output>, c: Output, s: Output, started: int, freq: int)
    requires Spaced(log, started, freq)
    requires IsShutdownCall(s) && c.time == s.time
    ensures Spaced(log + [c] + [s], started, freq)
  {
    var l := log + [c] + [s];
    assert FlushedAt(l, |log|);
    forall j | 0 <= j < |l| && IsCommit(l[j]) && !FlushedAt(l, j)
      ensures l[j].time - LastCommit(l[..j], started) >= freq
    {
      assert j < |log|;
      assert l[..j] == log[..j];
      assert !FlushedAt(log, j);
    }
  }

  /** The parts of the invariant that do not depend on where the goroutine is blocked. */
  predicate LogInv(a: Actor) {
    a.started <= a.lastCheckpoint <= a.clock &&
    a.lastCheckpoint == LastCommit(a.log, a.started) &&
    CommitsSet(a.log) &&
    Spaced(a.log, a.started, a.freq) &&
    Chronological(a.log, a.started, a.clock)
  }

  /** Appending an entry stamped with the clock keeps the log in time order. */
  lemma ChronologicalAppend(log: seq<Output>, o: Output, started: int, clock: int)
    requires Chronological(log, started, clock) && started <= o.time == clock
    ensures Chronological(log + [o], started, clock)
  {
  }

  lemma CommitsSetAppend(log: seq<Output>, o: Output)
    requires CommitsSet(log) && (IsCommit(o) ==> !o.call.pair.IsNil())
    ensures CommitsSet(log + [o])
  {
  }

  /** Checkpointing the pending pair once the window has elapsed keeps LogInv. */
  lemma CommitInv(a: Actor, now: int)
    requires LogInv(a) && a.clock == now && !InWindow(a, now) && !a.pair.IsNil()
    ensures LogInv(a.(log := a.log + [Invoked(Checkpoint(a.pair), now)], lastCheckpoint := now))
  {
    var c := Invoked(Checkpoint(a.pair), now);
    LastCommitAppend(a.log, c, a.started);
    SpacedAppend(a.log, c, a.started, a.freq);
    ChronologicalAppend(a.log, c, a.started, now);
    CommitsSetAppend(a.log, c);
  }

  lemma ShapedAppendCommit(log: seq<Output>, c: Output)
    requires Shaped(log, false) && IsCommit(c)
    ensures Shaped(log + [c], false)
  {
  }

  /** The regular end of a wait: the pair is checkpointed if set, and the goroutine is idle again. */
  lemma FinishRegularInv(a: Actor, now: int)
    requires LogInv(a) && Shaped(a.log, false) && a.clock == now && !InWindow(a, now)
    ensures Inv(Finish(a, now, false))
  {
    if !a.pair.IsNil() {
      CommitInv(a, now);
      ShapedAppendCommit(a.log, Invoked(Checkpoint(a.pair), now));
    }
  }

  /** Shutting down appends the shutdown call and the signal after the optional flush. */
  lemma ShutdownTailInv(b: Actor, now: int)
    requires Shaped(b.log, false) && CommitsSet(b.log) && Chronological(b.log, b.started, now)
    requires b.started <= b.lastCheckpoint <= now && b.lastCheckpoint == LastCommit(b.log, b.started)
    requires b.clock == now
    requires Spaced(b.log, b.started, b.freq) ||
             (b.log != [] && b.log[|b.log| - 1].time == now && Spaced(b.log[..|b.log| - 1], b.started, b.freq))
    ensures Inv(b.(log := b.log + [Invoked(Shutdown, now), Signalled(now)], phase := Terminated))
  {
    var s := Invoked(Shutdown, now);
    var d := Signalled(now);
    var l := b.log + [s, d];
    assert l == b.log + [s] + [d];
    LastCommitAppend(b.log, s, b.started);
    LastCommitAppend(b.log + [s], d, b.started);
    if Spaced(b.log, b.started, b.freq) {
      SpacedAppend(b.log, s, b.started, b.freq);
    } else {
      var p := b.log[..|b.log| - 1];
      var c := b.log[|b.log| - 1];
      assert p + [c] == b.log;
      SpacedAppendFlush(p, c, s, b.started, b.freq);
    }
    SpacedAppend(b.log + [s], d, b.started, b.freq);
    ChronologicalAppend(b.log, s, b.started, now);
    ChronologicalAppend(b.log + [s], d, b.started, now);
    CommitsSetAppend(b.log, s);
    CommitsSetAppend(b.log + [s], d);
  }

  /** Shutting down: flush the pair if set, then the shutdown call and the signal. */
  lemma FinishShutdownInv(a: Actor, now: int)
    requires LogInv(a) && Shaped(a.log, false) && a.clock == now
    ensures Inv(Finish(a, now, true))
  {
    if a.pair.IsNil() {
      ShutdownTailInv(a, now);
    } else {
      var c := Invoked(Checkpoint(a.pair), now);
      var b := a.(log := a.log + [c], lastCheckpoint := now);
      assert b.log[..|b.log| - 1] == a.log;
      LastCommitAppend(a.log, c, a.started);
      ChronologicalAppend(a.log, c, a.started, now);
      CommitsSetAppend(a.log, c);
      ShapedAppendCommit(a.log, c);
      ShutdownTailInv(b, now);
    }
  }

  /** Every step preserves the invariant. */
  lemma StepInv(a: Actor, e: Event)
    requires Inv(a) && Enabled(a, e)
    ensures Inv(Step(a, e))
  {
    match e
    case Submit(p, now) =>
      var b := a.(pair := p, clock := now);
      if !InWindow(b, now) {
        FinishRegularInv(b, now);
      }
    case ShutdownRequest(now) =>
      FinishShutdownInv(a.(clock := now), now);
    case TimerFired(now) =>
      var b := a.(clock := now);
      if !InWindow(b, now) {
        FinishRegularInv(b, now);
      }
  }

  /** Every run preserves the invariant. */
  lemma {:induction false} RunInv(a: Actor, es: seq<Event>)
    requires Inv(a) && ValidRun(a, es)
    ensures Inv(Run(a, es))
    ensures Run(a, es).freq == a.freq && Run(a, es).started == a.started
    decreases |es|
  {
    if es != [] {
      StepInv(a, es[0]);
      RunInv(Step(a, es[0]), es[1..]);
    }
  }

  /** A run followed by one more event is the run's last state stepped once more. */
  lemma {:induction false} RunSnoc(a: Actor, es: seq<Event>, e: Event)
    requires ValidRun(a, es)
    ensures ValidRun(a, es + [e]) <==> Enabled(Run(a, es), e)
    ensures ValidRun(a, es + [e]) ==> Run(a, es + [e]) == Step(Run(a, es), e)
    decreases |es|
  {
    if es == [] {
      assert es + [e] == [e];
      assert [e][1..] == [];
    } else {
      assert (es + [e])[0] == es[0];
      assert (es + [e])[1..] == es[1..] + [e];
      RunSnoc(Step(a, es[0]), es[1..], e);
    }
  }

  lemma {:induction false} LastCommitIs(log: seq<Output>, i: int, started: int)
    requires 0 <= i < |log| && IsCommit(log[i])
    requires forall k | i < k < |log| :: !IsCommit(log[k])
    ensures LastCommit(log, started) == log[i].time
    decreases |log|
  {
    if i < |log| - 1 {
      var p := log[..|log| - 1];
      assert !IsCommit(log[|log| - 1]);
      assert forall k | i < k < |p| :: p[k] == log[k];
      LastCommitIs(p, i, started);
    }
  }

  lemma {:induction false} LastCommitNone(log: seq<Output>, started: int)
    requires forall k | 0 <= k < |log| :: !IsCommit(log[k])
    ensures LastCommit(log, started) == started
    decreases |log|
  {
    if log != [] {
      var p := log[..|log| - 1];
      assert !IsCommit(log[|log| - 1]);
      assert forall k | 0 <= k < |p| :: p[k] == log[k];
      LastCommitNone(p, started);
    }
  }

  // ----- properties of whole runs -----

  /**
   * Throttle: two consecutive checkpoints are at least `freq` apart, unless
   * the later one is made at the same instant as, and just before, the
   * shutdown call.
   */
  lemma CommitsAtLeastFreqApart(freq: int, start: int, es: seq<Event>, i: int, j: int)
    requires ValidRun(Init(freq, start), es)
    requires 0 <= i < j < |Run(Init(freq, start), es).log|
    requires IsCommit(Run(Init(freq, start), es).log[i])
    requires IsCommit(Run(Init(freq, start), es).log[j])
    requires !FlushedAt(Run(Init(freq, start), es).log, j)
    requires forall k | i < k < j :: !IsCommit(Run(Init(freq, start), es).log[k])
    ensures Run(Init(freq, start), es).log[j].time - Run(Init(freq, start), es).log[i].time >= freq
  {
    var log := Run(Init(freq, start), es).log;
    RunInv(Init(freq, start), es);
    var p := log[..j];
    assert forall k | i < k < |p| :: p[k] == log[k];
    LastCommitIs(p, i, start);
  }

  /**
   * The window starts when the manager does: the first checkpoint that is
   * not made at the same instant as, and just before, the shutdown call
   * comes at least `freq` after the start.
   */
  lemma FirstCommitWaitsForWindow(freq: int, start: int, es: seq<Event>, j: int)
    requires ValidRun(Init(freq, start), es)
    requires 0 <= j < |Run(Init(freq, start), es).log|
    requires IsCommit(Run(Init(freq, start), es).log[j])
    requires !FlushedAt(Run(Init(freq, start), es).log, j)
    requires forall k | 0 <= k < j :: !IsCommit(Run(Init(freq, start), es).log[k])
    ensures Run(Init(freq, start), es).log[j].time - start >= freq
  {
    var log := Run(Init(freq, start), es).log;
    RunInv(Init(freq, start), es);
    var p := log[..j];
    assert forall k | 0 <= k < |p| :: p[k] == log[k];
    LastCommitNone(p, start);
  }

  /** The checkpointer is never called with an unset pair. */
  lemma NoUnsetCommitted(freq: int, start: int, es: seq<Event>, j: int)
    requires ValidRun(Init(freq, start), es)
    requires 0 <= j < |Run(Init(freq, start), es).log|
    requires IsCommit(Run(Init(freq, start), es).log[j])
    ensures !Run(Init(freq, start), es).log[j].call.pair.IsNil()
  {
    RunInv(Init(freq, start), es);
  }

  /**
   * Shutdown handshake: once terminated, the log ends with exactly one
   * shutdown call followed by the done signal, and everything before them is
   * a checkpoint; before termination neither has happened.
   */
  lemma ShutdownHandshake(freq: int, start: int, es: seq<Event>)
    requires ValidRun(Init(freq, start), es)
    ensures var a := Run(Init(freq, start), es);
      if a.phase == Terminated then
        |a.log| >= 2 && a.log[|a.log| - 2] == Invoked(Shutdown, a.clock) &&
        a.log[|a.log| - 1] == Signalled(a.clock) &&
        forall k | 0 <= k < |a.log| - 2 :: IsCommit(a.log[k])
      else
        forall k | 0 <= k < |a.log| :: IsCommit(a.log[k])
  {
    var a0 := Init(freq, start);
    RunShaped(a0, es);
    if Run(a0, es).phase == Terminated {
      TerminatedLogEnd(a0, es);
    }
  }

  /** The log of every run from a reachable state keeps its shape. */
  lemma RunShaped(a: Actor, es: seq<Event>)
    requires Inv(a) && ValidRun(a, es)
    ensures Shaped(Run(a, es).log, Run(a, es).phase == Terminated)
  {
    RunInv(a, es);
  }

  /** The last two entries of a terminated run were written at its last clock. */
  lemma {:induction false} TerminatedLogEnd(a: Actor, es: seq<Event>)
    requires ValidRun(a, es) && a.phase != Terminated && Run(a, es).phase == Terminated
    ensures var b := Run(a, es);
      |b.log| >= 2 && b.log[|b.log| - 2] == Invoked(Shutdown, b.clock) &&
      b.log[|b.log| - 1] == Signalled(b.clock)
    decreases |es|
  {
    assert es != [];
    var a1 := Step(a, es[0]);
    if a1.phase != Terminated {
      TerminatedLogEnd(a1, es[1..]);
    }
  }

  /**
   * Nothing is accepted after the goroutine has returned. This records the
   * modelling choice in Enabled: sending to the goroutine's channels after
   * its return would block forever, so it is a precondition violation.
   */
  lemma NothingAfterShutdown(a: Actor, e: Event)
    requires a.phase == Terminated
    ensures !Enabled(a, e)
  {
  }

  // ----- properties of single inputs -----

  /**
   * A submission after the window has elapsed is checkpointed at once,
   * whether it arrives at the top of the loop or inside the wait.
   */
  lemma SubmitAfterWindowCommits(a: Actor, p: SequencePair, now: int)
    requires Inv(a) && a.phase != Terminated && now >= a.clock
    requires !p.IsNil() && now - a.lastCheckpoint >= a.freq
    ensures var b := Step(a, Submit(p, now));
      b.phase == Idle && b.lastCheckpoint == now &&
      b.log == a.log + [Invoked(Checkpoint(p), now)]
  {
  }

  /** A submission inside the window only replaces the pending pair. */
  lemma SubmitInWindowWaits(a: Actor, p: SequencePair, now: int)
    requires Inv(a) && a.phase != Terminated && now >= a.clock
    requires InWindow(a, now)
    ensures var b := Step(a, Submit(p, now));
      b.phase == Waiting && b.pair == p && b.log == a.log && b.lastCheckpoint == a.lastCheckpoint
  {
  }

  /**
   * An unset submission makes no call and keeps the window; while waiting it
   * still replaces, and so discards, the pending pair.
   */
  lemma SubmitUnsetMakesNoCall(a: Actor, now: int)
    requires Inv(a) && a.phase != Terminated && now >= a.clock
    ensures var b := Step(a, Submit(Unset, now));
      b.log == a.log && b.lastCheckpoint == a.lastCheckpoint && b.pair.IsNil()
  {
  }

  /**
   * A shutdown while waiting ends the wait at once: the pending pair, if set,
   * is checkpointed even though the window has not elapsed, then the
   * checkpointer is shut down and done is signalled.
   */
  lemma ShutdownWhileWaitingFlushes(a: Actor, now: int)
    requires Inv(a) && a.phase == Waiting && now >= a.clock
    ensures var b := Step(a, ShutdownRequest(now));
      b.phase == Terminated &&
      b.log == a.log + (if a.pair.IsNil() then [] else [Invoked(Checkpoint(a.pair), now)])
                     + [Invoked(Shutdown, now), Signalled(now)]
  {
  }

  /** A shutdown while idle makes no checkpoint, only the shutdown call and the signal. */
  lemma ShutdownWhileIdle(a: Actor, now: int)
    requires Inv(a) && a.phase == Idle && now >= a.clock
    ensures var b := Step(a, ShutdownRequest(now));
      b.phase == Terminated && b.log == a.log + [Invoked(Shutdown, now), Signalled(now)]
  {
  }

  /** The timer firing at the end of the window checkpoints the pending pair. */
  lemma TimerAtDeadlineCommits(a: Actor, now: int)
    requires Inv(a) && a.phase == Waiting && now >= a.clock
    requires now >= a.lastCheckpoint + a.freq
    ensures var b := Step(a, TimerFired(now));
      b.phase == Idle && b.pair.IsNil() &&
      if a.pair.IsNil() then b.log == a.log && b.lastCheckpoint == a.lastCheckpoint
      else b.log == a.log + [Invoked(Checkpoint(a.pair), now)] && b.lastCheckpoint == now
  {
  }

  /**
   * Latest value wins: a burst of submissions inside the window makes no
   * call, and leaves the last submitted pair pending.
   */
  lemma {:induction false} LatestValueWins(a: Actor, es: seq<Event>)
    requires es != [] && ValidRun(a, es)
    requires forall k | 0 <= k < |es| :: es[k].Submit? && InWindow(a, es[k].time)
    ensures var b := Run(a, es);
      b.phase == Waiting && b.pair == es[|es| - 1].pair && b.clock == es[|es| - 1].time &&
      b.log == a.log && b.lastCheckpoint == a.lastCheckpoint
    decreases |es|
  {
    var a1 := Step(a, es[0]);
    if |es| > 1 {
      assert forall k | 0 <= k < |es[1..]| :: es[1..][k] == es[k + 1];
      LatestValueWins(a1, es[1..]);
    }
  }

  /**
   * A burst inside the window followed by the timer at the window's end
   * makes exactly one checkpoint, of the last pair submitted; the earlier
   * ones are never checkpointed.
   */
  lemma BurstCommitsLastPair(a: Actor, es: seq<Event>, deadline: int)
    requires Inv(a) && a.phase != Terminated
    requires es != [] && ValidRun(a, es)
    requires forall k | 0 <= k < |es| :: es[k].Submit? && InWindow(a, es[k].time)
    requires deadline == a.lastCheckpoint + a.freq && deadline >= es[|es| - 1].time
    requires !es[|es| - 1].pair.IsNil()
    ensures ValidRun(a, es + [TimerFired(deadline)])
    ensures Run(a, es + [TimerFired(deadline)]).log ==
            a.log + [Invoked(Checkpoint(es[|es| - 1].pair), deadline)]
  {
    LatestValueWins(a, es);
    RunInv(a, es);
    var b := Run(a, es);
    assert Enabled(b, TimerFired(deadline));
    RunSnoc(a, es, TimerFired(deadline));
    TimerAtDeadlineCommits(b, deadline);
  }

  // ----- no lost final checkpoint -----

  /** The pair of the latest checkpoint in `log`, if any. */
  function LastCommitted(log: seq<Output>): Option<SequencePair> {
    if log == [] then None
    else if IsCommit(log[|log| - 1]) then Some(log[|log| - 1].call.pair)
    else LastCommitted(log[..|log| - 1])
  }

  lemma LastCommittedAppend(log: seq<Output>, o: Output)
    ensures LastCommitted(log + [o]) == if IsCommit(o) then Some(o.call.pair) else LastCommitted(log)
  {
    assert (log + [o])[..|log|] == log;
  }

  /** Either `q` is still pending in the wait, or it was the latest pair checkpointed. */
  predicate Holds(a: Actor, q: SequencePair) {
    if a.phase == Waiting then a.pair == q else LastCommitted(a.log) == Some(q)
  }

  /** A submitted set pair is pending or has just been checkpointed. */
  lemma SubmitHolds(a: Actor, q: SequencePair, now: int)
    requires Enabled(a, Submit(q, now)) && !q.IsNil()
    ensures Holds(Step(a, Submit(q, now)), q)
  {
    var b := a.(pair := q, clock := now);
    if !InWindow(b, now) {
      LastCommittedAppend(a.log, Invoked(Checkpoint(q), now));
    }
  }

  /** Ending the wait, by the timer or by shutdown, keeps what Holds says. */
  lemma FinishHolds(a: Actor, q: SequencePair, now: int, shutdown: bool)
    requires Holds(a, q) && !q.IsNil() && a.phase != Terminated && (a.phase == Idle ==> a.pair.IsNil())
    ensures Holds(Finish(a, now, shutdown), q)
  {
    var c := Invoked(Checkpoint(a.pair), now);
    var b := if a.pair.IsNil() then a else a.(log := a.log + [c], lastCheckpoint := now);
    if !a.pair.IsNil() {
      LastCommittedAppend(a.log, c);
    }
    assert LastCommitted(b.log) == Some(q);
    if shutdown {
      var sh := Invoked(Shutdown, now);
      var d := Signalled(now);
      assert b.log + [sh, d] == b.log + [sh] + [d];
      LastCommittedAppend(b.log, sh);
      LastCommittedAppend(b.log + [sh], d);
    }
  }

  /** An input other than a submission keeps what Holds says. */
  lemma StepHolds(a: Actor, q: SequencePair, e: Event)
    requires (a.phase == Idle ==> a.pair.IsNil()) && Holds(a, q) && !q.IsNil()
    requires Enabled(a, e) && !e.Submit?
    ensures Holds(Step(a, e), q)
  {
    var b := a.(clock := e.time);
    if e.ShutdownRequest? {
      FinishHolds(b, q, e.time, true);
    } else if !InWindow(b, e.time) {
      FinishHolds(b, q, e.time, false);
    }
  }

  /** Inputs other than submissions keep what Holds says. */
  lemma {:induction false} NoSubmitHolds(a: Actor, q: SequencePair, es: seq<Event>)
    requires (a.phase == Idle ==> a.pair.IsNil()) && Holds(a, q) && !q.IsNil() && ValidRun(a, es)
    requires forall k | 0 <= k < |es| :: !es[k].Submit?
    ensures Holds(Run(a, es), q)
    decreases |es|
  {
    if es != [] {
      StepHolds(a, q, es[0]);
      assert forall k | 0 <= k < |es[1..]| :: es[1..][k] == es[k + 1];
      NoSubmitHolds(Step(a, es[0]), q, es[1..]);
    }
  }

  /** Running two event sequences one after the other. */
  lemma {:induction false} RunConcat(a: Actor, xs: seq<Event>, ys: seq<Event>)
    requires ValidRun(a, xs + ys)
    ensures ValidRun(a, xs) && ValidRun(Run(a, xs), ys)
    ensures Run(a, xs + ys) == Run(Run(a, xs), ys)
    decreases |xs|
  {
    if xs == [] {
      assert xs + ys == ys;
    } else {
      assert (xs + ys)[0] == xs[0];
      assert (xs + ys)[1..] == xs[1..] + ys;
      RunConcat(Step(a, xs[0]), xs[1..], ys);
    }
  }

  /**
   * No lost final checkpoint: if the last submission of a run from the start
   * carries a set pair `q` and the run ends in shutdown, then `q` is the last
   * checkpoint, made immediately before the checkpointer's shutdown call.
   */
  lemma LastSubmittedPairFlushed(freq: int, start: int, pre: seq<Event>, q: SequencePair, t: int, post: seq<Event>)
    requires ValidRun(Init(freq, start), pre + [Submit(q, t)] + post)
    requires !q.IsNil()
    requires forall k | 0 <= k < |post| :: !post[k].Submit?
    requires Run(Init(freq, start), pre + [Submit(q, t)] + post).phase == Terminated
    ensures var log := Run(Init(freq, start), pre + [Submit(q, t)] + post).log;
      |log| >= 3 && log[|log| - 3] == Invoked(Checkpoint(q), log[|log| - 3].time) &&
      IsShutdownCall(log[|log| - 2]) && log[|log| - 1].Signalled?
  {
    var a0 := Init(freq, start);
    var xs := pre + [Submit(q, t)];
    RunConcat(a0, xs, post);
    HoldsAfterSubmit(a0, pre, q, t);
    RunInv(a0, xs);
    NoSubmitHolds(Run(a0, xs), q, post);
    RunInv(Run(a0, xs), post);
    TerminatedTail(Run(Run(a0, xs), post), q);
  }

  /** After a run ending in the submission of a set pair, Holds is true of that pair. */
  lemma HoldsAfterSubmit(a0: Actor, pre: seq<Event>, q: SequencePair, t: int)
    requires Inv(a0) && !q.IsNil() && ValidRun(a0, pre + [Submit(q, t)])
    ensures Holds(Run(a0, pre + [Submit(q, t)]), q)
  {
    RunConcat(a0, pre, [Submit(q, t)]);
    var a1 := Run(a0, pre);
    assert [Submit(q, t)][1..] == [];
    assert Run(a1, [Submit(q, t)]) == Step(a1, Submit(q, t));
    SubmitHolds(a1, q, t);
  }

  /** In a terminated state, the latest checkpoint sits right before the shutdown call. */
  lemma TerminatedTail(a: Actor, q: SequencePair)
    requires Inv(a) && a.phase == Terminated && LastCommitted(a.log) == Some(q)
    ensures |a.log| >= 3 && a.log[|a.log| - 3] == Invoked(Checkpoint(q), a.log[|a.log| - 3].time)
    ensures IsShutdownCall(a.log[|a.log| - 2]) && a.log[|a.log| - 1].Signalled?
  {
    var log := a.log;
    var p := log[..|log| - 2];
    assert log[..|log| - 1] == p + [log[|log| - 2]];
    assert log == p + [log[|log| - 2]] + [log[|log| - 1]];
    LastCommittedAppend(p, log[|log| - 2]);
    LastCommittedAppend(p + [log[|log| - 2]], log[|log| - 1]);
    assert LastCommitted(p) == Some(q);
    assert p != [];
    assert IsCommit(p[|p| - 1]);
  }

  /**
   * A timed example, counted in milliseconds: a 2 s interval, pairs 10, 20
   * and 30 submitted at 0, 0.5 s and 1 s, the timer firing at 2 s. With the
   * manager started at -2 s, so that the window has elapsed at 0, exactly two
   * checkpoints happen, of 10 at 0 and of 30 at 2 s.
   */
  lemma ThrottleExample()
    ensures var es := [Submit(SequencePair(Some(10), 0), 0), Submit(SequencePair(Some(20), 0), 500),
                       Submit(SequencePair(Some(30), 0), 1000), TimerFired(2000)];
      ValidRun(Init(2000, -2000), es) &&
      Run(Init(2000, -2000), es).log ==
        [Invoked(Checkpoint(SequencePair(Some(10), 0)), 0), Invoked(Checkpoint(SequencePair(Some(30), 0)), 2000)]
  {
  }

  /**
   * The same inputs with the manager started at 0: the window starts with
   * the manager, so 10 is not checkpointed at once; 10 and 20 are
   * superseded and only 30 is checkpointed, at 2 s.
   */
  lemma ThrottleExampleFromStart()
    ensures var es := [Submit(SequencePair(Some(10), 0), 0), Submit(SequencePair(Some(20), 0), 500),
                       Submit(SequencePair(Some(30), 0), 1000), TimerFired(2000)];
      ValidRun(Init(2000, 0), es) &&
      Run(Init(2000, 0), es).log == [Invoked(Checkpoint(SequencePair(Some(30), 0)), 2000)]
  {
  }
}
