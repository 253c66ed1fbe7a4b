/**
 * `queue run` itself (commands/queue_cmd.py): the heartbeat thread's loop body and one round of the
 * claim loop, over the queue manager's own methods.
 */
module QueueRunner {
  import opened Basics
  import opened QueueModel
  import opened QueueHistory
  import QM = QueueManager
  import H = Heartbeat

  /** How the work on a claimed job ended; a failure before the transfer was armed never looks at the lease. */
  datatype JobOutcome = Finished | JobFailed(message: string, armed: bool) | StoppedByLease | Cancelled

  /** How a round of the claim loop ends: no job left or allowed, on to the next, or an exception out of the loop. */
  datatype RoundEnd = Stop | Again | UserCancel | Fault(error: QM.QueueError)

  /** A transfer armed after the lease was lost is not started. */
  function Outcome(o: JobOutcome, lostBeforeStart: bool): JobOutcome {
    if lostBeforeStart && !(o.JobFailed? && !o.armed) then StoppedByLease else o
  }

  class Runner {
    const runId: string
    const queue: QM.QueueManager
    var lastOk: real
    var currentJob: Option<H.Tracked>
    var armed: bool               // current_transfer is set
    var stopSignalled: bool       // stop() was called on an armed transfer
    var leaseLost: bool
    var succeeded: nat
    var failures: nat

    constructor (runId: string, queue: QM.QueueManager, now: real)
      ensures this.runId == runId && this.queue == queue && lastOk == now && currentJob == None && !leaseLost
      ensures succeeded == 0 && failures == 0
    {
      this.runId, this.queue, lastOk := runId, queue, now;
      currentJob, armed, stopSignalled, leaseLost := None, false, false, false;
      succeeded, failures := 0, 0;
    }

    /** These fields, and the shared file, are those of a state of the timed machine. */
    ghost predicate Mirrors(s: H.State)
      reads this, queue.file
    {
      s.lastOk == lastOk && s.current == currentJob && s.lost == leaseLost && s.q == ItemsOf(queue.file.doc)
    }

    /** `_lose_lease`: once, and the transfer in flight is told to stop. */
    method LoseLease()
      modifies this`leaseLost, this`stopSignalled
      ensures leaseLost
      ensures stopSignalled == (old(stopSignalled) || (!old(leaseLost) && armed))
    {
      if leaseLost { return; }
      leaseLost := true;
      if armed {
        stopSignalled := true;
      }
    }

    /**
     * One turn of `_heartbeat_loop` after its wait, waking at `wake`, reaching the file or failing (on
     * the lock or on corruption) at `reach`, and noting success at `done`: a path of the timed machine.
     */
    method Beat(fault: bool, wake: real, reach: real, done: real, b: H.Bounds, ghost s: H.State) returns (ghost t: H.State)
      requires s.thread.Waiting? && s.now == wake && Mirrors(s) && b.grace == H.HEARTBEAT_GRACE_SECONDS
      modifies this, queue`items, queue`corrupt, queue.file
      ensures Mirrors(t) && BeatPath(b, runId, s, fault, reach, done, t)
    {
      if currentJob.None? {
        lastOk := wake;
        t := s.(lastOk := wake, thread := H.Waiting(wake));
        return;
      }
      var job := currentJob.value;
      ghost var calling := Calling(s, reach);
      if fault {
        var stalled := reach - lastOk;
        if stalled >= H.HEARTBEAT_GRACE_SECONDS {
          LoseLease();
        }
        t := calling.(thread := H.Waiting(reach), lost := leaseLost);
        return;
      }
      var owned := queue.Touch(job.id, runId, Some(job.epoch), reach);
      if !owned {
        LoseLease();
        t := calling.(thread := H.Waiting(reach), lost := true);
        RefusedPath(b, runId, s, reach, done, t);
        return;
      }
      lastOk := done;
      t := calling.(q := ItemsOf(queue.file.doc), now := done, thread := H.Waiting(done), lastOk := done);
      StampedPath(b, runId, s, reach, done, t);
    }

    /** The items after this run's owner-checked status write. */
    function Written(q: seq<QueueItem>, job: H.Tracked, status: JobStatus, message: Option<string>, now: real): seq<QueueItem> {
      UpdateStatus(q, job.id, status, message, Some(runId), Some(job.epoch), now).0
    }

    /** `_fail`: the failure is counted even when the job's status is no longer this run's to write. */
    method Fail(job: H.Tracked, message: string, now: real) returns (r: Result<(), QM.QueueError>)
      modifies this`failures, queue`items, queue`corrupt, queue.file
      ensures r.Ok? <==> !old(Corrupt(queue.file.doc))
      ensures r.Ok? ==> failures == old(failures) + 1
      ensures r.Ok? ==> ItemsOf(queue.file.doc) == Written(old(ItemsOf(queue.file.doc)), job, Failed, Some(message), now)
      ensures r.Err? ==> failures == old(failures) && queue.file.doc == old(queue.file.doc)
    {
      r := queue.UpdateStatus(job.id, Failed, Some(message), Some(runId), Some(job.epoch), now);
      if r == Err(QM.CorruptionError) { return; }
      failures := failures + 1;
      r := Ok(());
    }

    /**
     * One round of the claim loop. A run that lost its lease claims nothing. Otherwise the job claimed is
     * the one `claim_next` picks; the heartbeat may raise the signal before the transfer starts; and
     * `meanwhile` is what the file holds once the work ended, other runs having had their turns. The result,
     * or the release on a cancellation by the user, is written over it only as its owner.
     */
    method ClaimRound(claimedAt: real, lostBeforeStart: bool, outcome: JobOutcome, meanwhile: Document, endedAt: real) returns (r: RoundEnd)
      requires !Corrupt(queue.file.doc) && currentJob == None
      modifies this, queue`items, queue`corrupt, queue.file
      ensures currentJob == None && armed == (r.Stop? && old(armed))
      ensures old(leaseLost) ==> r == Stop && leaseLost && queue.file.doc == old(queue.file.doc)
      ensures !old(leaseLost) ==>
        var (q, chosen) := Claim(old(ItemsOf(queue.file.doc)), runId, claimedAt, LEASE_SECONDS, claimedAt);
        if chosen.None? then r == Stop && !leaseLost && ItemsOf(queue.file.doc) == q
        else
          && Ended(H.Tracked(chosen.value.id, chosen.value.leaseEpoch), Outcome(outcome, lostBeforeStart), meanwhile, endedAt, r)
          && (leaseLost <==> lostBeforeStart)
      ensures r.Stop? ==> succeeded == old(succeeded) && failures == old(failures)
      ensures r.Again? ==> succeeded == old(succeeded) + (if Outcome(outcome, lostBeforeStart).Finished? then 1 else 0)
      ensures r.Again? && !Outcome(outcome, lostBeforeStart).Finished? ==> failures == old(failures) + 1
    {
      if leaseLost { return Stop; }
      var item := queue.ClaimNext(runId, claimedAt, LEASE_SECONDS, claimedAt);
      if item.None? { return Stop; }
      r := WorkOn(H.Tracked(item.value.id, item.value.leaseEpoch), lostBeforeStart, outcome, meanwhile, endedAt);
    }

    /** From the claim to the end of the job: the transfer is armed first, and only then is the lease looked at again. */
    method WorkOn(job: H.Tracked, lostBeforeStart: bool, outcome: JobOutcome, meanwhile: Document, endedAt: real) returns (r: RoundEnd)
      requires !leaseLost
      modifies this, queue`items, queue`corrupt, queue.file
      ensures currentJob == None && !armed && (leaseLost <==> lostBeforeStart) && !r.Stop?
      ensures Ended(job, Outcome(outcome, lostBeforeStart), meanwhile, endedAt, r)
      ensures r.Again? ==> succeeded == old(succeeded) + (if Outcome(outcome, lostBeforeStart).Finished? then 1 else 0)
      ensures r.Again? && !Outcome(outcome, lostBeforeStart).Finished? ==> failures == old(failures) + 1
    {
      currentJob := Some(job);
      armed := !(outcome.JobFailed? && !outcome.armed);
      if lostBeforeStart { LoseLease(); }
      queue.file.doc := meanwhile;
      r := EndJob(job, if armed && leaseLost then StoppedByLease else outcome, endedAt);
      currentJob, armed := None, false;
    }

    /** What the file holds and the round answers, once the job ended over the file's contents at that time. */
    ghost predicate Ended(job: H.Tracked, o: JobOutcome, meanwhile: Document, endedAt: real, r: RoundEnd)
      reads queue.file
    {
      match o
      case StoppedByLease => r == Again && queue.file.doc == meanwhile
      case Cancelled =>
        && r == UserCancel
        && (if Corrupt(meanwhile) then queue.file.doc == meanwhile
            else ItemsOf(queue.file.doc) == Written(ItemsOf(meanwhile), job, Interrupted, None, endedAt))
      case Finished =>
        if Corrupt(meanwhile) then r.Fault? && queue.file.doc == meanwhile
        else r == Again && ItemsOf(queue.file.doc) == Written(ItemsOf(meanwhile), job, Done, None, endedAt)
      case JobFailed(message, _) =>
        if Corrupt(meanwhile) then r.Fault? && queue.file.doc == meanwhile
        else r == Again && ItemsOf(queue.file.doc) == Written(ItemsOf(meanwhile), job, Failed, Some(message), endedAt)
    }

    /** The arms after the work on a job. */
    method EndJob(job: H.Tracked, o: JobOutcome, endedAt: real) returns (r: RoundEnd)
      modifies this`succeeded, this`failures, queue`items, queue`corrupt, queue.file
      ensures Ended(job, o, old(queue.file.doc), endedAt, r) && !r.Stop?
      ensures r.Again? ==> succeeded == old(succeeded) + (if o.Finished? then 1 else 0)
      ensures r.Again? && !o.Finished? ==> failures == old(failures) + 1
    {
      r := Again;
      match o {
        case StoppedByLease => failures := failures + 1;
        case Cancelled =>
          var _ := queue.UpdateStatus(job.id, Interrupted, None, Some(runId), Some(job.epoch), endedAt);
          r := UserCancel;
        case JobFailed(message, _) =>
          var f := Fail(job, message, endedAt);
          if f.Err? { r := Fault(f.error); }
        case Finished =>
          succeeded := succeeded + 1;
          var w := queue.UpdateStatus(job.id, Done, None, Some(runId), Some(job.epoch), endedAt);
          if w.Err? {
            var f := Fail(job, "not recorded", endedAt);
            if f.Err? { r := Fault(f.error); }
          }
      }
    }
  }

  /** The machine's state when a call made from s, tracking a job, gets to the file. */
  ghost function Calling(s: H.State, reach: real): H.State
    requires s.current.Some?
  {
    s.(thread := H.Thread.Calling(s.now, s.current.value), now := reach)
  }

  /** Waking idle; or waking to call, and the call failing, being refused, or stamping and returning. */
  ghost predicate BeatPath(b: H.Bounds, runId: string, s: H.State, fault: bool, reach: real, done: real, t: H.State) {
    if s.current.None? then H.Next(b, runId, s, H.WakeIdle, t)
    else
      && H.Next(b, runId, s, H.WakeCall, Calling(s, s.now))
      && if fault then H.Next(b, runId, Calling(s, reach), H.CallFails, t)
         else exists m :: H.Next(b, runId, Calling(s, reach), H.CallReaches, m) && Returned(b, runId, m, done, t)
  }

  ghost predicate Returned(b: H.Bounds, runId: string, m: H.State, done: real, t: H.State) {
    if m.thread.Stamped? then H.Next(b, runId, m.(now := done), H.CallReturns, t) else t == m
  }

  lemma RefusedPath(b: H.Bounds, runId: string, s: H.State, reach: real, done: real, t: H.State)
    requires s.thread.Waiting? && s.current.Some?
    requires Loadable(s.q) ==> Touch(s.q, s.current.value.id, runId, Some(s.current.value.epoch), reach) == (s.q, false)
    requires t == Calling(s, reach).(thread := H.Waiting(reach), lost := true)
    ensures BeatPath(b, runId, s, false, reach, done, t)
  {
    assert H.Next(b, runId, Calling(s, reach), H.CallReaches, t) && Returned(b, runId, t, done, t);
  }

  lemma StampedPath(b: H.Bounds, runId: string, s: H.State, reach: real, done: real, t: H.State)
    requires s.thread.Waiting? && s.current.Some? && Loadable(s.q)
    requires Touch(s.q, s.current.value.id, runId, Some(s.current.value.epoch), reach) == (t.q, true)
    requires t == Calling(s, reach).(q := t.q, now := done, thread := H.Waiting(done), lastOk := done)
    ensures BeatPath(b, runId, s, false, reach, done, t)
  {
    var m := Calling(s, reach).(q := t.q, thread := H.Stamped(reach, s.current.value));
    assert H.Next(b, runId, Calling(s, reach), H.CallReaches, m) && Returned(b, runId, m, done, t);
  }
}
