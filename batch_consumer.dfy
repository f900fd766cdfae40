/**
 * checkpointManager of batchconsumer/checkpointmanager.go as an object. The
 * fields are the handler goroutine's locals; the goroutine's rendezvous
 * receives become the methods Checkpoint and Shutdown, its throttle timer the
 * method TimerFire, and its checkpointer the call log `log`.
 */
module BatchConsumer {
  import opened Kcl
  import A = CheckpointActor

  class CheckpointManager {
    const checkpointFreq: int
    /** The time at which the handler goroutine started. */
    ghost const started: int
    var lastCheckpoint: int
    /** The pair received last in the current iteration of the handler loop. */
    var pair: SequencePair
    /** Which select the goroutine is blocked in, or whether it has returned. */
    var phase: A.Phase
    /** The time of the latest input. */
    ghost var clock: int
    /** The calls made on the checkpointer and the done signal, in order. */
    var log: seq<A.Output>

    ghost function State(): A.Actor
      reads this
    {
      A.Actor(checkpointFreq, started, lastCheckpoint, clock, pair, phase, log)
    }

    ghost predicate Valid()
      reads this
    {
      A.Inv(State())
    }

    /** newCheckpointManager: the goroutine starts at `now` and waits for input. */
    constructor (checkpointFreq: int, now: int)
      ensures Valid() && State() == A.Init(checkpointFreq, now)
    {
      this.checkpointFreq := checkpointFreq;
      started := now;
      lastCheckpoint := now;
      clock := now;
      pair := Unset;
      phase := A.Idle;
      log := [];
    }

    /** The code after the wait loop: checkpoint a set pair, then shut down or go round again. */
    method Finish(now: int, shutdown: bool)
      modifies this
      ensures State() == A.Finish(old(State()), now, shutdown)
    {
      if !pair.IsNil() {
        log := log + [A.Invoked(Call.Checkpoint(pair), now)];
        lastCheckpoint := now;
      }
      if shutdown {
        log := log + [A.Invoked(Call.Shutdown, now), A.Signalled(now)];
        phase := A.Terminated;
      } else {
        pair := Unset;
        phase := A.Idle;
      }
    }

    /** Hand a pair to the goroutine, which is blocked in either select. */
    method Checkpoint(p: SequencePair, now: int)
      requires Valid() && A.Enabled(State(), A.Submit(p, now))
      modifies this
      ensures Valid() && State() == A.Step(old(State()), A.Submit(p, now))
      ensures p.IsNil() ==> log == old(log) && lastCheckpoint == old(lastCheckpoint)
    {
      A.StepInv(State(), A.Submit(p, now));
      pair := p;
      clock := now;
      if now - lastCheckpoint < checkpointFreq {
        phase := A.Waiting;
      } else {
        Finish(now, false);
      }
    }

    /** Hand the shutdown request to the goroutine, which ends any wait at once. */
    method Shutdown(now: int)
      requires Valid() && A.Enabled(State(), A.ShutdownRequest(now))
      modifies this
      ensures Valid() && State() == A.Step(old(State()), A.ShutdownRequest(now))
      ensures phase == A.Terminated
      ensures log[|log| - 2..] == [A.Invoked(Call.Shutdown, now), A.Signalled(now)]
    {
      A.StepInv(State(), A.ShutdownRequest(now));
      clock := now;
      Finish(now, true);
    }

    /** The wait loop's timer fires; the loop guard is evaluated again. */
    method TimerFire(now: int)
      requires Valid() && A.Enabled(State(), A.TimerFired(now))
      modifies this
      ensures Valid() && State() == A.Step(old(State()), A.TimerFired(now))
    {
      A.StepInv(State(), A.TimerFired(now));
      clock := now;
      if now - lastCheckpoint >= checkpointFreq {
        Finish(now, false);
      }
    }
  }
}
