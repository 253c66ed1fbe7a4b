/**
 * The heartbeat thread of `queue run` (commands/queue_cmd.py) against every other user of the queue,
 * in real time on one shared clock.
 */
module Heartbeat {
  import opened Basics
  import opened QueueModel
  import opened QueueHistory

  const HEARTBEAT_SECONDS := 30.0
  const HEARTBEAT_GRACE_SECONDS := LEASE_SECONDS / 2.0
  const LOCK_TIMEOUT := 10.0

  /**
   * Longest durations: one wait between heartbeats, one `touch` call before it stamps the job or
   * raises, and the delay from stamping a heartbeat to noting it (`last_ok`, or `current_job` after
   * a claim). `grace` is the failure budget the loop compares against.
   */
  datatype Bounds = Bounds(wait: real, lock: real, write: real, grace: real)

  predicate Sane(b: Bounds) { b.wait >= 0.0 && b.lock >= 0.0 && b.write >= 0.0 && b.grace > 0.0 }

  predicate Fits(b: Bounds) { Sane(b) && b.wait + b.lock + b.grace + b.write <= LEASE_SECONDS }

  function SourceBounds(write: real): Bounds {
    Bounds(HEARTBEAT_SECONDS, LOCK_TIMEOUT, write, HEARTBEAT_GRACE_SECONDS)
  }

  /** A job this run claimed, with the epoch of its lease. */
  datatype Tracked = Tracked(id: string, epoch: int)

  datatype Thread =
    | Waiting(since: real)                    // in heartbeat_stop.wait
    | Calling(since: real, job: Tracked)      // inside touch, nothing stamped yet
    | Stamped(at: real, job: Tracked)         // heartbeat written, last_ok not yet updated

  datatype State = State(
    now: real,
    q: seq<QueueItem>,
    used: set<string>,                          // every job id issued so far
    thread: Thread,
    lastOk: real,
    claimed: Option<Tracked>, claimedAt: real,  // claimed, current_job not yet set
    current: Option<Tracked>,                   // current_job[0]
    ended: bool,                                // the claim loop was left
    lost: bool)                                 // lease_lost is set: stop was signalled

  datatype Action =
    | Tick(d: real)
    | ClaimJob | SetCurrent | ClearCurrent
    | WakeIdle | WakeCall | CallFails | CallReaches | CallReturns
    | Other(op: Op)

  predicate Tracks(s: State, j: Tracked) { s.current == Some(j) || s.claimed == Some(j) }

  predicate Owned(s: State, runId: string, j: Tracked) { HoldsLease(s.q, j.id, runId, j.epoch) }

  ghost predicate IdsIn(q: seq<QueueItem>, used: set<string>) { forall id :: Has(q, id) ==> id in used }

  // ---- Transitions

  /** Time may not run past a pending bound. */
  predicate MayWait(b: Bounds, s: State, until: real) {
    && match s.thread { case Waiting(since) => until <= since + b.wait
                        case Calling(since, _) => until <= since + b.lock
                        case Stamped(at, _) => until <= at + b.write }
    && (s.claimed.Some? ==> until <= s.claimedAt + b.write)
  }

  /**
   * Anything the rest of the world does: other runs, operators, and this run's own status writes.
   * Only this run claims, marks or touches under its own id, and an added job is new and unleased.
   */
  predicate Foreign(runId: string, now: real, used: set<string>, op: Op) {
    match op
    case OpAdd(item) => item.id !in used && item.runId == None
    case OpMark(_, r, t, lease) => r != runId && t == now && lease == LEASE_SECONDS
    case OpTouch(_, r, _, t) => r != runId && t == now
    case OpRecover(t, lease) => t == now && lease == LEASE_SECONDS
    case OpClaim(r, t, lease, stamp) => r != runId && t == now && lease == LEASE_SECONDS && stamp == now
    case _ => true
  }

  ghost predicate Next(b: Bounds, runId: string, s: State, a: Action, s': State) {
    match a
    case Tick(d) => d >= 0.0 && MayWait(b, s, s.now + d) && s' == s.(now := s.now + d)
    case ClaimJob =>
      var (r, reply) := Step(s.q, OpClaim(runId, s.now, LEASE_SECONDS, s.now));
      && s.claimed == None && s.current == None && !s.ended && reply.Lease?
      && s' == s.(q := r, claimed := Some(Tracked(reply.id, reply.epoch)), claimedAt := s.now)
    case SetCurrent => s.claimed.Some? && s' == s.(current := s.claimed, claimed := None)
    case ClearCurrent =>
      // Every path that goes on to claim again has released the job; a failed release leaves the loop.
      s.current.Some? && s' == s.(current := None, ended := s.ended || Owned(s, runId, s.current.value))
    case WakeIdle =>
      s.thread.Waiting? && s.current == None && s' == s.(lastOk := s.now, thread := Waiting(s.now))
    case WakeCall =>
      s.thread.Waiting? && s.current.Some? && s' == s.(thread := Calling(s.now, s.current.value))
    case CallFails =>
      && s.thread.Calling?
      && s' == s.(thread := Waiting(s.now), lost := s.lost || s.now - s.lastOk >= b.grace)
    case CallReaches =>
      && s.thread.Calling?
      && var j := s.thread.job;
         var (r, reply) := Step(s.q, OpTouch(j.id, runId, Some(j.epoch), s.now));
         s' == if reply == Bool(true) then s.(q := r, thread := Stamped(s.now, j))
               else s.(q := r, thread := Waiting(s.now), lost := true)
    case CallReturns =>
      s.thread.Stamped? && s' == s.(thread := Waiting(s.now), lastOk := s.now)
    case Other(op) =>
      && Foreign(runId, s.now, s.used, op)
      && s' == s.(q := Step(s.q, op).0, used := s.used + if op.OpAdd? then {op.item.id} else {})
  }

  ghost predicate Init(runId: string, s: State) {
    && Loadable(s.q) && IdsIn(s.q, s.used)
    && s.claimed == None && s.current == None && !s.ended && !s.lost
    && s.thread == Waiting(s.now) && s.lastOk == s.now
  }

  /** A run of the system: states and the action between each two. */
  datatype Run = Run(states: seq<State>, actions: seq<Action>)

  ghost predicate Link(b: Bounds, runId: string, t: Run, k: nat)
    requires k < |t.actions| && |t.states| == |t.actions| + 1
  {
    Next(b, runId, t.states[k], t.actions[k], t.states[k + 1])
  }

  ghost predicate IsRun(b: Bounds, runId: string, t: Run) {
    && |t.states| == |t.actions| + 1
    && Init(runId, t.states[0])
    && forall k :: 0 <= k < |t.actions| ==> Link(b, runId, t, k)
  }

  // ---- The invariant

  /** The heartbeat on file is recent enough for the thread's own view of it. */
  predicate Backed(b: Bounds, s: State, e: QueueItem) {
    && e.status.Active? && e.heartbeat.At?
    && s.lastOk <= e.heartbeat.time + b.write
    && (s.thread.Stamped? ==> s.thread.at <= e.heartbeat.time)
    && (s.claimed.Some? ==> s.claimedAt <= e.heartbeat.time)
  }

  /** The clock has not run past any bound, and failures older than the grace period raise the signal. */
  predicate Timely(b: Bounds, s: State) {
    && s.lastOk <= s.now
    && match s.thread {
         case Waiting(since) => since <= s.now <= since + b.wait && (!s.lost ==> since < s.lastOk + b.grace)
         case Calling(since, _) => since <= s.now <= since + b.lock && (!s.lost ==> since < s.lastOk + b.grace + b.wait)
         case Stamped(at, _) => at <= s.now <= at + b.write
       }
    && (s.claimed.Some? ==> s.current == None && s.claimedAt <= s.now <= s.claimedAt + b.write)
    && (s.ended ==> s.current == None && s.claimed == None)
  }

  /** The job's epoch has reached the tracked one, and its id cannot be issued again. */
  predicate Known(s: State, j: Tracked) {
    j.id in s.used && (Has(s.q, j.id) ==> Job(s.q, j.id).leaseEpoch >= j.epoch)
  }

  ghost predicate Inv(b: Bounds, runId: string, s: State) {
    && Timely(b, s)
    && IdsIn(s.q, s.used)
    && (forall j :: Tracks(s, j) ==> Known(s, j))
    && (s.thread.Calling? ==> Known(s, s.thread.job))
    && (s.thread.Calling? && !Tracks(s, s.thread.job) && !s.ended ==>
          Overtaken(s.q, s.thread.job.id, runId, s.thread.job.epoch))
    && (!s.lost ==> forall j :: Tracks(s, j) && Owned(s, runId, j) ==> Backed(b, s, Job(s.q, j.id)))
  }

  // ---- What a queue operation can do to a tracked job

  lemma EditedJob(q: seq<QueueItem>, x: string, e: QueueItem, id: string)
    requires Has(q, x) && e.id == x
    ensures var r := q[Position(q, x) := e];
            && (Has(r, id) <==> Has(q, id))
            && (Has(q, id) ==> Job(r, id) == if id == x then e else Job(q, id))
  {
    SameIdsSamePosition(q, q[Position(q, x) := e], id);
  }

  /** An edit by a foreign step keeps the heartbeat of any job it leaves under this run's lease. */
  lemma ForeignEditKeepsHeartbeat(runId: string, now: real, used: set<string>, q: seq<QueueItem>, op: Op, id: string, epoch: int)
    requires Loadable(q) && Foreign(runId, now, used, op)
    requires op.OpStatus? || op.OpMark? || op.OpTouch? || op.OpRetry?
    requires HoldsLease(Apply(q, op).0, id, runId, epoch)
    ensures HoldsLease(q, id, runId, epoch)
    ensures Job(q, id).status.Active? ==>
              Job(Apply(q, op).0, id).status.Active? && Job(Apply(q, op).0, id).heartbeat == Job(q, id).heartbeat
  {
    if Has(q, op.id) {
      var e := Job(q, op.id);
      match op
      case OpStatus(x, status, error, caller, ep, t) => EditedJob(q, x, WithStatus(e, status, error, t), id);
      case OpMark(x, r, t, lease) => EditedJob(q, x, Leased(e, r, t), id);
      case OpTouch(x, r, ep, t) => EditedJob(q, x, e.(heartbeat := At(t)), id);
      case OpRetry(x) => EditedJob(q, x, Retried(e), id);
    }
  }

  lemma ForeignPassKeepsHeartbeat(runId: string, now: real, used: set<string>, q: seq<QueueItem>, op: Op, id: string, epoch: int)
    requires Loadable(q) && Foreign(runId, now, used, op)
    requires op.OpRecover? || op.OpClaim?
    requires HoldsLease(Apply(q, op).0, id, runId, epoch)
    ensures HoldsLease(q, id, runId, epoch)
    ensures Job(Apply(q, op).0, id) == Job(q, id)
  {
    if op.OpRecover? {
      SameIdsSamePosition(q, Recovered(q, op.now, op.lease), id);
    } else {
      ClaimEffect(q, op.runId, op.now, op.lease, op.stamp, id);
    }
  }

  /** A foreign step never renews a lease: a job still held afterwards was held before, heartbeat unchanged. */
  lemma ForeignKeepsHeartbeat(runId: string, now: real, used: set<string>, q: seq<QueueItem>, op: Op, id: string, epoch: int)
    requires IdsIn(q, used) && Foreign(runId, now, used, op) && id in used
    requires HoldsLease(Step(q, op).0, id, runId, epoch)
    ensures HoldsLease(q, id, runId, epoch)
    ensures Job(q, id).status.Active? ==>
              Job(Step(q, op).0, id).status.Active? && Job(Step(q, op).0, id).heartbeat == Job(q, id).heartbeat
  {
    if Loadable(q) {
      match op {
        case OpAdd(item) => AppendPosition(q, item, id);
        case OpRemove(x) =>
          forall e | e in Remove(q, x) ensures e in q { RemoveKeeps(q, x, e); }
          FilterAdvances(q, Remove(q, x), id);
        case OpClear =>
          forall e | e in ClearDone(q) ensures e in q { ClearKeeps(q, e); }
          FilterAdvances(q, ClearDone(q), id);
        case OpReset =>
        case OpRecover(_, _) => ForeignPassKeepsHeartbeat(runId, now, used, q, op, id, epoch);
        case OpClaim(_, _, _, _) => ForeignPassKeepsHeartbeat(runId, now, used, q, op, id, epoch);
        case _ => ForeignEditKeepsHeartbeat(runId, now, used, q, op, id, epoch);
      }
    }
  }

  lemma ClaimedIsBacked(q: seq<QueueItem>, runId: string, now: real)
    requires Step(q, OpClaim(runId, now, LEASE_SECONDS, now)).1.Lease?
    ensures var (r, g) := Step(q, OpClaim(runId, now, LEASE_SECONDS, now));
            && Has(q, g.id) && Has(r, g.id)
            && Job(r, g.id).status.Active? && Job(r, g.id).heartbeat == At(now) && Job(r, g.id).leaseEpoch == g.epoch
  {
    var m := Recovered(q, now, LEASE_SECONDS);
    var i := FirstRunnable(m);
    var (r, g) := Step(q, OpClaim(runId, now, LEASE_SECONDS, now));
    UniquePosition(q, i);
    SameIdsSamePosition(q, r, g.id);
  }

  /** A successful touch refreshes its own job and no other. */
  lemma TouchedJob(q: seq<QueueItem>, x: string, runId: string, epoch: int, now: real, id: string)
    requires Step(q, OpTouch(x, runId, Some(epoch), now)).1 == Bool(true)
    ensures HoldsLease(q, x, runId, epoch)
    ensures var r := Step(q, OpTouch(x, runId, Some(epoch), now)).0;
            && (Has(r, id) <==> Has(q, id))
            && (Has(q, id) ==> Job(r, id) == if id == x then Job(q, id).(heartbeat := At(now)) else Job(q, id))
  {
    SameIdsSamePosition(q, Step(q, OpTouch(x, runId, Some(epoch), now)).0, id);
  }

  lemma FailedTouchChangesNothing(q: seq<QueueItem>, x: string, runId: string, epoch: int, now: real)
    requires Step(q, OpTouch(x, runId, Some(epoch), now)).1 != Bool(true)
    ensures Step(q, OpTouch(x, runId, Some(epoch), now)).0 == q
  {
  }

  /** Known ids and overtaken leases survive any queue operation that respects fresh ids. */
  lemma StepKeepsKnown(s: State, op: Op, s': State, runId: string)
    requires IdsIn(s.q, s.used) && (op.OpAdd? ==> op.item.id !in s.used)
    requires s'.q == Step(s.q, op).0 && s'.used == s.used + if op.OpAdd? then {op.item.id} else {}
    ensures IdsIn(s'.q, s'.used)
    ensures forall j :: Known(s, j) ==> Known(s', j)
    ensures forall j :: Known(s, j) && Overtaken(s.q, j.id, runId, j.epoch) && !(op.OpClaim? && op.runId == runId) ==>
              Overtaken(s'.q, j.id, runId, j.epoch)
  {
    forall id | Has(s'.q, id) ensures id in s'.used {
      if !(op.OpAdd? && op.item.id == id) { StepAdvances(s.q, op, id); }
    }
    forall j | Known(s, j)
      ensures Known(s', j)
      ensures Overtaken(s.q, j.id, runId, j.epoch) ==> Overtaken(s'.q, j.id, runId, j.epoch)
    {
      StepAdvances(s.q, op, j.id);
    }
  }

  // ---- Steps keep the invariant

  lemma ForeignStep(b: Bounds, runId: string, s: State, op: Op, s': State)
    requires Fits(b) && Inv(b, runId, s) && Next(b, runId, s, Other(op), s')
    ensures Inv(b, runId, s')
  {
    StepKeepsKnown(s, op, s', runId);
    forall j | !s'.lost && Tracks(s', j) && Owned(s', runId, j) ensures Backed(b, s', Job(s'.q, j.id)) {
      assert Tracks(s, j) && Known(s, j);
      ForeignKeepsHeartbeat(runId, s.now, s.used, s.q, op, j.id, j.epoch);
    }
  }

  lemma TouchRefused(b: Bounds, runId: string, s: State, s': State)
    requires Fits(b) && Inv(b, runId, s) && s.thread.Calling?
    requires s' == s.(thread := Waiting(s.now), lost := true)
    ensures Inv(b, runId, s')
  {
    forall j | Tracks(s', j) ensures Known(s', j) { assert Tracks(s, j); }
  }

  lemma TouchApplied(b: Bounds, runId: string, s: State, x: Tracked, s': State)
    requires Fits(b) && Inv(b, runId, s) && s.thread.Calling? && s.thread.job == x
    requires var (r, reply) := Step(s.q, OpTouch(x.id, runId, Some(x.epoch), s.now));
             reply == Bool(true) && s' == s.(q := r, thread := Stamped(s.now, x))
    ensures Inv(b, runId, s')
  {
    TouchedJob(s.q, x.id, runId, x.epoch, s.now, x.id);
    forall id | Has(s'.q, id) ensures id in s'.used { TouchedJob(s.q, x.id, runId, x.epoch, s.now, id); }
    forall j | Tracks(s', j)
      ensures Known(s', j)
      ensures !s'.lost && Owned(s', runId, j) ==> Backed(b, s', Job(s'.q, j.id))
    {
      TouchedJob(s.q, x.id, runId, x.epoch, s.now, j.id);
      assert Tracks(s, j) && j == x;
    }
  }

  lemma CallReachesStep(b: Bounds, runId: string, s: State, s': State)
    requires Fits(b) && Inv(b, runId, s) && Next(b, runId, s, CallReaches, s')
    ensures Inv(b, runId, s')
  {
    var x := s.thread.job;
    if Step(s.q, OpTouch(x.id, runId, Some(x.epoch), s.now)).1 == Bool(true) {
      TouchApplied(b, runId, s, x, s');
    } else {
      FailedTouchChangesNothing(s.q, x.id, runId, x.epoch, s.now);
      TouchRefused(b, runId, s, s');
    }
  }

  lemma ClaimTracks(b: Bounds, runId: string, s: State, s': State)
    requires Fits(b) && Inv(b, runId, s) && Next(b, runId, s, ClaimJob, s')
    ensures Timely(b, s') && IdsIn(s'.q, s'.used)
    ensures forall j :: Tracks(s', j) ==> Known(s', j) && Has(s'.q, j.id) && Backed(b, s', Job(s'.q, j.id))
  {
    ClaimedIsBacked(s.q, runId, s.now);
    StepKeepsKnown(s, OpClaim(runId, s.now, LEASE_SECONDS, s.now), s', runId);
  }

  lemma ClaimStep(b: Bounds, runId: string, s: State, s': State)
    requires Fits(b) && Inv(b, runId, s) && Next(b, runId, s, ClaimJob, s')
    ensures Inv(b, runId, s')
  {
    ClaimTracks(b, runId, s, s');
    if s.thread.Calling? {
      StepAdvances(s.q, OpClaim(runId, s.now, LEASE_SECONDS, s.now), s.thread.job.id);
    }
  }

  lemma ClearStep(b: Bounds, runId: string, s: State, s': State)
    requires Fits(b) && Inv(b, runId, s) && Next(b, runId, s, ClearCurrent, s')
    ensures Inv(b, runId, s')
  {
    var c := s.current.value;
    assert Tracks(s, c) && Known(s, c);
  }

  lemma StepKeepsInv(b: Bounds, runId: string, s: State, a: Action, s': State)
    requires Fits(b) && Inv(b, runId, s) && Next(b, runId, s, a, s')
    ensures Inv(b, runId, s')
  {
    match a
    case ClaimJob => ClaimStep(b, runId, s, s');
    case ClearCurrent => ClearStep(b, runId, s, s');
    case CallReaches => CallReachesStep(b, runId, s, s');
    case Other(op) => ForeignStep(b, runId, s, op, s');
    case _ =>
      forall j | Tracks(s', j)
        ensures Known(s', j)
        ensures !s'.lost && Owned(s', runId, j) ==> Backed(b, s', Job(s'.q, j.id))
      {
        assert Tracks(s, j);
      }
  }

  lemma {:induction false} RunKeepsInv(b: Bounds, runId: string, t: Run, k: nat)
    requires Fits(b) && IsRun(b, runId, t) && k <= |t.actions|
    ensures Inv(b, runId, t.states[k])
  {
    if k > 0 {
      RunKeepsInv(b, runId, t, k - 1);
      assert Link(b, runId, t, k - 1);
      StepKeepsInv(b, runId, t.states[k - 1], t.actions[k - 1], t.states[k]);
    }
  }

  // ---- The guarantee

  /** While stop is not signalled, no tracked job this run still holds looks abandoned. */
  ghost predicate Fenced(runId: string, s: State) {
    !s.lost ==> forall j :: Tracks(s, j) && Owned(s, runId, j) ==> LeaseLive(Job(s.q, j.id), s.now, LEASE_SECONDS)
  }

  lemma InvImpliesFenced(b: Bounds, runId: string, s: State)
    requires Fits(b) && Inv(b, runId, s)
    ensures Fenced(runId, s)
  {
    forall j | !s.lost && Tracks(s, j) && Owned(s, runId, j)
      ensures LeaseLive(Job(s.q, j.id), s.now, LEASE_SECONDS)
    {
      assert Backed(b, s, Job(s.q, j.id));
    }
  }

  /** Recovery, claims and leases by other runs leave a live job exactly as it is. */
  lemma LiveJobIsSafe(runId: string, now: real, used: set<string>, q: seq<QueueItem>, op: Op, id: string, epoch: int)
    requires Loadable(q) && HoldsLease(q, id, runId, epoch) && LeaseLive(Job(q, id), now, LEASE_SECONDS)
    requires Foreign(runId, now, used, op) && (op.OpRecover? || op.OpClaim? || op.OpMark?)
    ensures Has(Step(q, op).0, id) && Job(Step(q, op).0, id) == Job(q, id)
  {
    match op {
      case OpRecover(t, lease) => SameIdsSamePosition(q, Recovered(q, t, lease), id);
      case OpClaim(r, t, lease, stamp) => ClaimEffect(q, r, t, lease, stamp, id);
      case OpMark(x, r, t, lease) =>
        if Has(q, x) { EditedJob(q, x, Leased(Job(q, x), r, t), id); }
    }
  }

  /**
   * Timed self-fencing: whenever a recovery, claim or lease by another run takes a job this run is
   * tracking, this run's stop signal is already set.
   */
  lemma StopPrecedesTakeover(b: Bounds, runId: string, t: Run, k: nat, op: Op, j: Tracked)
    requires Fits(b) && IsRun(b, runId, t) && k < |t.actions|
    requires t.actions[k] == Other(op) && (op.OpRecover? || op.OpClaim? || op.OpMark?)
    requires Tracks(t.states[k], j) && Owned(t.states[k], runId, j) && !Owned(t.states[k + 1], runId, j)
    ensures t.states[k].lost
  {
    var s := t.states[k];
    assert Link(b, runId, t, k);
    if !s.lost {
      RunKeepsInv(b, runId, t, k);
      InvImpliesFenced(b, runId, s);
      if Loadable(s.q) {
        LiveJobIsSafe(runId, s.now, s.used, s.q, op, j.id, j.epoch);
      }
    }
  }

  // ---- The source's constants

  ghost predicate Reaches(b: Bounds, runId: string, s: State) {
    exists t: Run :: IsRun(b, runId, t) && t.states[|t.states| - 1] == s
  }

  lemma Extend(b: Bounds, runId: string, s: State, a: Action, s': State)
    requires Reaches(b, runId, s) && Next(b, runId, s, a, s')
    ensures Reaches(b, runId, s')
  {
    var t: Run :| IsRun(b, runId, t) && t.states[|t.states| - 1] == s;
    var u := Run(t.states + [s'], t.actions + [a]);
    forall k | 0 <= k < |u.actions| ensures Link(b, runId, u, k) {
      if k < |t.actions| { assert Link(b, runId, t, k); }
    }
    assert IsRun(b, runId, u);
  }

  lemma Elapse(b: Bounds, runId: string, s: State, d: real)
    requires Reaches(b, runId, s) && d >= 0.0 && MayWait(b, s, s.now + d)
    ensures Reaches(b, runId, s.(now := s.now + d))
  {
    Extend(b, runId, s, Tick(d), s.(now := s.now + d));
  }

  lemma IdleCycle(b: Bounds, runId: string, s: State, d: real)
    requires Reaches(b, runId, s) && s.thread.Waiting? && s.current == None
    requires d >= 0.0 && MayWait(b, s, s.now + d)
    ensures var t := s.now + d;
            Reaches(b, runId, s.(now := t, thread := Waiting(t), lastOk := t))
  {
    Elapse(b, runId, s, d);
    var m := s.(now := s.now + d);
    Extend(b, runId, m, WakeIdle, m.(lastOk := m.now, thread := Waiting(m.now)));
  }

  /** One heartbeat that fails after waiting `d` and blocking on the lock for `l`. */
  lemma FailCycle(b: Bounds, runId: string, s: State, d: real, l: real)
    requires Reaches(b, runId, s) && s.thread == Waiting(s.now) && s.current.Some? && s.claimed == None && !s.lost
    requires 0.0 <= d <= b.wait && 0.0 <= l <= b.lock && s.now + d + l - s.lastOk < b.grace
    ensures var t := s.now + d + l;
            Reaches(b, runId, s.(now := t, thread := Waiting(t)))
  {
    Elapse(b, runId, s, d);
    var m := s.(now := s.now + d);
    Extend(b, runId, m, WakeCall, m.(thread := Calling(m.now, m.current.value)));
    var c := m.(thread := Calling(m.now, m.current.value));
    Elapse(b, runId, c, l);
    var e := c.(now := c.now + l);
    Extend(b, runId, e, CallFails, e.(thread := Waiting(e.now)));
  }

  const TRACKED := Tracked("a", 1)

  /** The run that claimed `FIRST` at time zero, with a given clock, thread and `last_ok`. */
  function Holder(now: real, lastOk: real, claimed: Option<Tracked>, current: Option<Tracked>): State {
    State(now, [FIRST], {"a"}, Waiting(now), lastOk, claimed, 0.0, current, false, false)
  }

  /** A claim whose write takes `t` seconds to be noted, the thread waking idle meanwhile. */
  lemma SlowClaim(write: real, t: real)
    requires 110.0 <= t <= 111.0 && t <= write
    ensures Reaches(SourceBounds(write), "r", Holder(t, t, None, Some(TRACKED)))
  {
    var b := SourceBounds(write);
    SamplesAreValid();
    var s0 := State(0.0, [SAMPLE], {"a"}, Waiting(0.0), 0.0, None, 0.0, None, false, false);
    assert Loadable(s0.q) && Init("r", s0);
    assert IsRun(b, "r", Run([s0], []));
    assert Reaches(b, "r", s0) by { assert Run([s0], []).states[0] == s0; }
    OneJobClaim(SAMPLE, "r", 0.0);
    Extend(b, "r", s0, ClaimJob, Holder(0.0, 0.0, Some(TRACKED), None));
    IdleCycle(b, "r", Holder(0.0, 0.0, Some(TRACKED), None), 30.0);
    IdleCycle(b, "r", Holder(30.0, 30.0, Some(TRACKED), None), 30.0);
    IdleCycle(b, "r", Holder(60.0, 60.0, Some(TRACKED), None), 30.0);
    IdleCycle(b, "r", Holder(90.0, 90.0, Some(TRACKED), None), t - 90.0);
    Extend(b, "r", Holder(t, t, Some(TRACKED), None), SetCurrent, Holder(t, t, None, Some(TRACKED)));
  }

  /** Slower writes than the margin allows: the lease expires before the failure budget is spent. */
  lemma SlowWritesUnfence(write: real) returns (s: State)
    requires write > LEASE_SECONDS - HEARTBEAT_SECONDS - LOCK_TIMEOUT - HEARTBEAT_GRACE_SECONDS
    ensures Reaches(SourceBounds(write), "r", s) && !Fenced("r", s)
  {
    var b := SourceBounds(write);
    var over := if write - 110.0 < 1.0 then write - 110.0 else 1.0;
    var t := 110.0 + over;
    SlowClaim(write, t);
    FailCycle(b, "r", Holder(t, t, None, Some(TRACKED)), 30.0, 10.0);
    FailCycle(b, "r", Holder(t + 40.0, t, None, Some(TRACKED)), 30.0, 10.0);
    FailCycle(b, "r", Holder(t + 80.0, t, None, Some(TRACKED)), 30.0, 10.0);
    FailCycle(b, "r", Holder(t + 120.0, t, None, Some(TRACKED)), 30.0 - over / 2.0, 0.0);
    var u := t + 150.0 - over / 2.0;
    var h := Holder(u, t, None, Some(TRACKED));
    Elapse(b, "r", h, 30.0);
    s := h.(now := u + 30.0, thread := Calling(u + 30.0, TRACKED));
    Extend(b, "r", h.(now := u + 30.0), WakeCall, s);
    Elapse(b, "r", s, 10.0);
    s := s.(now := u + 40.0);
    assert Tracks(s, TRACKED) && Position(s.q, "a") == 0 && Owned(s, "r", TRACKED);
  }

  /**
   * With the constants in the source, the fence holds in every run exactly when a heartbeat write is
   * noted within 110 seconds.
   */
  lemma SourceConstantsFence(write: real)
    requires write >= 0.0
    ensures (forall runId, s :: Reaches(SourceBounds(write), runId, s) ==> Fenced(runId, s))
       <==> write <= LEASE_SECONDS - HEARTBEAT_SECONDS - LOCK_TIMEOUT - HEARTBEAT_GRACE_SECONDS
  {
    var b := SourceBounds(write);
    if write <= LEASE_SECONDS - HEARTBEAT_SECONDS - LOCK_TIMEOUT - HEARTBEAT_GRACE_SECONDS {
      forall runId, s | Reaches(b, runId, s) ensures Fenced(runId, s) {
        var t: Run :| IsRun(b, runId, t) && t.states[|t.states| - 1] == s;
        RunKeepsInv(b, runId, t, |t.actions|);
        InvImpliesFenced(b, runId, s);
      }
    } else {
      var s := SlowWritesUnfence(write);
    }
  }
}
