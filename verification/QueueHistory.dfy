/**
 * Histories of the shared queue: any number of runs and operators, in any order, each operation one
 * atomic step under the file lock.
 */
module QueueHistory {
  import opened Basics
  import opened QueueModel

  datatype Op =
    | OpAdd(item: QueueItem)
    | OpRemove(id: string)
    | OpStatus(id: string, status: JobStatus, error: Option<string>, caller: Option<string>, epoch: Option<int>, now: real)
    | OpMark(id: string, runId: string, now: real, lease: real)
    | OpTouch(id: string, runId: string, epoch: Option<int>, now: real)
    | OpRecover(now: real, lease: real)
    | OpClaim(runId: string, now: real, lease: real, stamp: real)
    | OpRetry(id: string)
    | OpClear
    | OpReset

  datatype Reply = Nothing | Blocked | Refusal | Bool(b: bool) | Lease(id: string, epoch: int)

  function Apply(q: seq<QueueItem>, op: Op): (seq<QueueItem>, Reply) {
    match op
    case OpAdd(item) => (q + [item], Nothing)
    case OpRemove(id) => (Remove(q, id), Bool(|Remove(q, id)| != |q|))
    case OpStatus(id, status, error, runId, epoch, now) =>
      var (r, w) := UpdateStatus(q, id, status, error, runId, epoch, now);
      (r, if w == Refused then Refusal else Nothing)
    case OpMark(id, runId, now, lease) =>
      var (r, w) := MarkActive(q, id, runId, now, lease);
      (r, match w { case NoJob => Nothing case LeasedElsewhere => Refusal case NewEpoch(e) => Lease(id, e) })
    case OpTouch(id, runId, epoch, now) =>
      var (r, ok) := Touch(q, id, runId, epoch, now);
      (r, Bool(ok))
    case OpRecover(now, lease) => (Recovered(q, now, lease), Nothing)
    case OpClaim(runId, now, lease, stamp) =>
      var (r, c) := Claim(q, runId, now, lease, stamp);
      (r, if c.None? then Nothing else Lease(c.value.id, c.value.leaseEpoch))
    case OpRetry(id) => var (r, ok) := Retry(q, id); (r, Bool(ok))
    case OpClear => (ClearDone(q), Nothing)
    case OpReset => ([], Nothing)
  }

  /** A corrupt file blocks everything but an explicit reset. */
  ghost function Step(q: seq<QueueItem>, op: Op): (seq<QueueItem>, Reply) {
    if Loadable(q) || op == OpReset then Apply(q, op) else (q, Blocked)
  }

  /** A run of the shared file: the states between operations and what each operation answered. */
  datatype History = History(states: seq<seq<QueueItem>>, ops: seq<Op>, replies: seq<Reply>)

  ghost predicate Linked(h: History, k: nat)
    requires k < |h.ops| && |h.states| == |h.ops| + 1 && |h.replies| == |h.ops|
  {
    Step(h.states[k], h.ops[k]) == (h.states[k + 1], h.replies[k])
  }

  ghost predicate Legal(h: History) {
    && |h.states| == |h.ops| + 1 && |h.replies| == |h.ops|
    && forall k :: 0 <= k < |h.ops| ==> Linked(h, k)
  }

  /** Job ids present at the start or added before step k. */
  ghost function IdsUsed(h: History, k: nat): set<string>
    requires |h.states| > 0 && k <= |h.ops|
  {
    if k == 0 then set e | e in h.states[0] :: e.id
    else IdsUsed(h, k - 1) + if h.ops[k - 1].OpAdd? then {h.ops[k - 1].item.id} else {}
  }

  /** A legal history in which every added job carries an id never used before (`QueueItem.new_id`). */
  ghost predicate Fresh(h: History) {
    && Legal(h)
    && forall k :: 0 <= k < |h.ops| && h.ops[k].OpAdd? ==> h.ops[k].item.id !in IdsUsed(h, k)
  }

  predicate Has(q: seq<QueueItem>, id: string) { Position(q, id) < |q| }

  function Job(q: seq<QueueItem>, id: string): QueueItem
    requires Has(q, id)
  {
    q[Position(q, id)]
  }

  predicate HoldsLease(q: seq<QueueItem>, id: string, runId: string, epoch: int) {
    Has(q, id) && Owns(Job(q, id), runId, Some(epoch))
  }

  // ---- One step

  lemma {:induction false} RemoveKeeps(q: seq<QueueItem>, x: string, e: QueueItem)
    ensures e in Remove(q, x) <==> e in q && e.id != x
  {
    if q != [] {
      RemoveKeeps(q[1..], x, e);
      assert q == [q[0]] + q[1..];
    }
  }

  lemma {:induction false} ClearKeeps(q: seq<QueueItem>, e: QueueItem)
    ensures e in ClearDone(q) <==> e in q && e.status !in {Done, Canceled}
  {
    if q != [] {
      ClearKeeps(q[1..], e);
      assert q == [q[0]] + q[1..];
    }
  }

  /** In a queue with unique ids a member is the job its id addresses. */
  lemma MemberIsJob(q: seq<QueueItem>, e: QueueItem)
    requires UniqueIds(q) && e in q
    ensures Has(q, e.id) && Job(q, e.id) == e
  {
    var k :| 0 <= k < |q| && q[k] == e;
  }

  lemma SameIdsSamePosition(q: seq<QueueItem>, r: seq<QueueItem>, id: string)
    requires |q| == |r| && forall k :: 0 <= k < |q| ==> q[k].id == r[k].id
    ensures Position(q, id) == Position(r, id)
  {
    var i, j := Position(q, id), Position(r, id);
  }

  lemma UniquePosition(q: seq<QueueItem>, i: nat)
    requires UniqueIds(q) && i < |q|
    ensures Position(q, q[i].id) == i
  {
    var j := Position(q, q[i].id);
  }

  /** How one step may change the job under `id`: the epoch never drops, and a new owner costs an epoch. */
  ghost predicate Advances(before: QueueItem, after: QueueItem) {
    && before.leaseEpoch <= after.leaseEpoch
    && (after.runId.Some? && after.runId != before.runId ==> before.leaseEpoch < after.leaseEpoch)
  }

  lemma EditAdvances(q: seq<QueueItem>, i: nat, e: QueueItem, id: string)
    requires i < |q| && e.id == q[i].id && Advances(q[i], e)
    ensures Has(q[i := e], id) <==> Has(q, id)
    ensures Has(q, id) ==> Advances(Job(q, id), Job(q[i := e], id))
  {
    SameIdsSamePosition(q, q[i := e], id);
  }

  lemma RecoveryAdvances(q: seq<QueueItem>, now: real, lease: real, id: string)
    ensures Has(Recovered(q, now, lease), id) <==> Has(q, id)
    ensures Has(q, id) ==> Advances(Job(q, id), Job(Recovered(q, now, lease), id))
  {
    SameIdsSamePosition(q, Recovered(q, now, lease), id);
  }

  lemma FilterAdvances(q: seq<QueueItem>, r: seq<QueueItem>, id: string)
    requires UniqueIds(q) && forall e :: e in r ==> e in q
    ensures Has(r, id) ==> Has(q, id) && Job(q, id) == Job(r, id)
  {
    if Has(r, id) { MemberIsJob(q, Job(r, id)); }
  }

  lemma ClaimAdvances(q: seq<QueueItem>, runId: string, now: real, lease: real, stamp: real, id: string)
    ensures var (r, c) := Claim(q, runId, now, lease, stamp);
            && (Has(r, id) <==> Has(q, id))
            && (Has(q, id) ==> Advances(Job(q, id), Job(r, id)))
  {
    var m := Recovered(q, now, lease);
    RecoveryAdvances(q, now, lease, id);
    var i := FirstRunnable(m);
    if i < |m| {
      EditAdvances(m, i, Leased(m[i], runId, stamp), id);
    }
  }

  lemma AppendPosition(q: seq<QueueItem>, item: QueueItem, id: string)
    requires item.id != id
    ensures Has(q + [item], id) <==> Has(q, id)
    ensures Has(q, id) ==> Job(q + [item], id) == Job(q, id)
  {
    var r := q + [item];
    var i, j := Position(q, id), Position(r, id);
    if j < |q| { assert r[j] == q[j]; }
    if i < |q| { assert r[i] == q[i]; }
  }

  /** What a claim does to each job: the recovery pass, then at most one runnable job is leased. */
  lemma ClaimEffect(q: seq<QueueItem>, runId: string, now: real, lease: real, stamp: real, id: string)
    requires UniqueIds(q)
    ensures var r := Claim(q, runId, now, lease, stamp).0;
            && (Has(r, id) <==> Has(q, id))
            && (Has(q, id) ==>
                  var e := RecoverItem(Job(q, id), now, lease);
                  Job(r, id) == e || (e.status.Runnable() && Job(r, id) == Leased(e, runId, stamp)))
  {
    SameIdsSamePosition(q, Claim(q, runId, now, lease, stamp).0, id);
  }

  /** Operations that edit the job under one id. */
  lemma EditStepAdvances(q: seq<QueueItem>, op: Op, id: string)
    requires op.OpStatus? || op.OpMark? || op.OpTouch? || op.OpRetry?
    ensures var r := Apply(q, op).0;
            (Has(r, id) <==> Has(q, id)) && (Has(q, id) ==> Advances(Job(q, id), Job(r, id)))
  {
    if Has(q, op.id) {
      var i := Position(q, op.id);
      match op
      case OpStatus(x, status, error, caller, epoch, now) =>
        EditAdvances(q, i, WithStatus(q[i], status, error, now), id);
      case OpMark(x, runId, now, lease) => EditAdvances(q, i, Leased(q[i], runId, now), id);
      case OpTouch(x, runId, epoch, now) => EditAdvances(q, i, q[i].(heartbeat := At(now)), id);
      case OpRetry(x) => EditAdvances(q, i, Retried(q[i]), id);
    }
  }

  lemma StepAdvances(q: seq<QueueItem>, op: Op, id: string)
    requires op.OpAdd? ==> op.item.id != id
    ensures var r := Step(q, op).0;
            Has(r, id) ==> Has(q, id) && Advances(Job(q, id), Job(r, id))
  {
    if Loadable(q) {
      match op {
        case OpAdd(item) => AppendPosition(q, item, id);
        case OpRemove(x) =>
          forall e | e in Remove(q, x) ensures e in q { RemoveKeeps(q, x, e); }
          FilterAdvances(q, Remove(q, x), id);
        case OpRecover(now, lease) => RecoveryAdvances(q, now, lease, id);
        case OpClaim(runId, now, lease, stamp) => ClaimAdvances(q, runId, now, lease, stamp, id);
        case OpClear =>
          forall e | e in ClearDone(q) ensures e in q { ClearKeeps(q, e); }
          FilterAdvances(q, ClearDone(q), id);
        case OpReset =>
        case _ => EditStepAdvances(q, op, id);
      }
    }
  }

  lemma ClaimReply(q: seq<QueueItem>, runId: string, now: real, lease: real, stamp: real)
    requires UniqueIds(q) && Claim(q, runId, now, lease, stamp).1.Some?
    ensures var (r, c) := Claim(q, runId, now, lease, stamp);
            && Has(q, c.value.id) && Has(r, c.value.id) && Job(r, c.value.id) == c.value
            && c.value.runId == Some(runId) && c.value.leaseEpoch == Job(q, c.value.id).leaseEpoch + 1
  {
    var m := Recovered(q, now, lease);
    var i := FirstRunnable(m);
    var (r, c) := Claim(q, runId, now, lease, stamp);
    assert r == m[i := c.value] && c.value.id == q[i].id;
    UniquePosition(q, i);
    SameIdsSamePosition(q, r, q[i].id);
  }

  lemma MarkReply(q: seq<QueueItem>, id: string, runId: string, now: real, lease: real)
    requires MarkActive(q, id, runId, now, lease).1.NewEpoch?
    ensures var (r, w) := MarkActive(q, id, runId, now, lease);
            && Has(q, id) && Has(r, id) && Job(r, id) == Leased(Job(q, id), runId, now) && w.epoch == Job(r, id).leaseEpoch
  {
    SameIdsSamePosition(q, MarkActive(q, id, runId, now, lease).0, id);
  }

  /** A lease reply names the job's new epoch, one above the old one, and the caller owns it. */
  lemma LeaseReply(q: seq<QueueItem>, op: Op)
    requires Step(q, op).1.Lease?
    ensures var (r, reply) := Step(q, op);
            && Loadable(q) && Has(q, reply.id) && Has(r, reply.id)
            && reply.epoch == Job(q, reply.id).leaseEpoch + 1
            && (op.OpClaim? || op.OpMark?)
            && HoldsLease(r, reply.id, op.runId, reply.epoch) && Job(r, reply.id).status.Active?
  {
    match op {
      case OpClaim(runId, now, lease, stamp) => ClaimReply(q, runId, now, lease, stamp);
      case OpMark(id, runId, now, lease) => MarkReply(q, id, runId, now, lease);
      case _ =>
    }
  }

  // ---- Whole histories

  lemma {:induction false} IdsStayUsed(h: History, k: nat, id: string)
    requires Legal(h) && k <= |h.ops| && Has(h.states[k], id)
    ensures id in IdsUsed(h, k)
  {
    if k == 0 {
      assert Job(h.states[0], id) in h.states[0];
    } else if !(h.ops[k - 1].OpAdd? && h.ops[k - 1].item.id == id) {
      assert Linked(h, k - 1);
      StepAdvances(h.states[k - 1], h.ops[k - 1], id);
      IdsStayUsed(h, k - 1, id);
    }
  }

  lemma {:induction false} IdsUsedGrows(h: History, i: nat, j: nat)
    requires |h.states| > 0 && i <= j <= |h.ops|
    ensures IdsUsed(h, i) <= IdsUsed(h, j)
  {
    if i < j { IdsUsedGrows(h, i, j - 1); }
  }

  /** A job's lease epoch never decreases, and a removed job never comes back. */
  lemma {:induction false} EpochMonotone(h: History, i: nat, j: nat, id: string)
    requires Fresh(h) && i <= j <= |h.ops|
    requires id in IdsUsed(h, i) && Has(h.states[j], id)
    ensures Has(h.states[i], id)
    ensures Job(h.states[i], id).leaseEpoch <= Job(h.states[j], id).leaseEpoch
  {
    if i < j {
      IdsUsedGrows(h, i, j - 1);
      assert Linked(h, j - 1);
      StepAdvances(h.states[j - 1], h.ops[j - 1], id);
      EpochMonotone(h, i, j - 1, id);
    }
  }

  // ---- No pair is granted twice

  /** Every epoch granted for the id in the first k steps is at most `epoch`. */
  ghost predicate GrantedUpTo(h: History, k: nat, id: string, epoch: int)
    requires Legal(h) && k <= |h.ops|
  {
    forall i :: 0 <= i < k && h.replies[i].Lease? && h.replies[i].id == id ==> h.replies[i].epoch <= epoch
  }

  /** Step k does not add a job, under an id already granted, with a smaller epoch to start from. */
  ghost predicate CarefulAt(h: History, k: nat)
    requires Legal(h) && k < |h.ops|
  {
    h.ops[k].OpAdd? && Loadable(h.states[k]) && ValidItem(h.ops[k].item) && !Has(h.states[k], h.ops[k].item.id)
    ==> GrantedUpTo(h, k, h.ops[k].item.id, h.ops[k].item.leaseEpoch)
  }

  /** Every job that `add` brings in starts at an epoch at least every one granted under its id before. */
  ghost predicate Careful(h: History) { Legal(h) && forall k :: 0 <= k < |h.ops| ==> CarefulAt(h, k) }

  /** Ids never used before are one way to be careful. */
  lemma FreshIsCareful(h: History)
    requires Fresh(h)
    ensures Careful(h)
  {
    forall k | 0 <= k < |h.ops| ensures CarefulAt(h, k) {
      if h.ops[k].OpAdd? {
        forall i | 0 <= i < k && h.replies[i].Lease? ensures h.replies[i].id in IdsUsed(h, k) {
          assert Linked(h, i);
          LeaseReply(h.states[i], h.ops[i]);
          IdsStayUsed(h, i, h.replies[i].id);
          IdsUsedGrows(h, i, k);
        }
      }
    }
  }

  /** The job under the id, while the file can be read, has reached every epoch granted for it. */
  lemma {:induction false} GrantsAreReached(h: History, k: nat, id: string)
    requires Careful(h) && k <= |h.ops| && Loadable(h.states[k]) && Has(h.states[k], id)
    ensures GrantedUpTo(h, k, id, Job(h.states[k], id).leaseEpoch)
  {
    if k > 0 {
      var q, op := h.states[k - 1], h.ops[k - 1];
      assert Linked(h, k - 1);
      if op.OpAdd? && op.item.id == id && Loadable(q) {
        AddReaches(h, k - 1);
      } else {
        StepAdvances(q, op, id);
        GrantsAreReached(h, k - 1, id);
        if h.replies[k - 1].Lease? { LeaseReply(q, op); }
      }
    }
  }

  lemma AddReaches(h: History, k: nat)
    requires Careful(h) && k < |h.ops| && h.ops[k].OpAdd? && Loadable(h.states[k]) && Loadable(h.states[k + 1])
    ensures Has(h.states[k + 1], h.ops[k].item.id)
    ensures GrantedUpTo(h, k + 1, h.ops[k].item.id, Job(h.states[k + 1], h.ops[k].item.id).leaseEpoch)
  {
    assert Linked(h, k) && CarefulAt(h, k);
    AddLoadable(h.states[k], h.ops[k].item);
    AddedJob(h.states[k], h.ops[k].item);
    assert !h.replies[k].Lease?;
  }

  lemma AddedJob(q: seq<QueueItem>, item: QueueItem)
    requires !Has(q, item.id)
    ensures Has(q + [item], item.id) && Job(q + [item], item.id) == item
  {
    var r := q + [item];
    assert r[|q|] == item;
    assert forall k :: 0 <= k < |q| ==> r[k] == q[k];
  }

  /** In a careful history every grant carries a (job, epoch) pair that no earlier step granted, and a greater epoch. */
  lemma GrantsAreNew(h: History, i: nat, j: nat)
    requires Careful(h) && i < j < |h.ops|
    requires h.replies[i].Lease? && h.replies[j].Lease? && h.replies[i].id == h.replies[j].id
    ensures h.replies[i].epoch < h.replies[j].epoch
  {
    assert Linked(h, j);
    LeaseReply(h.states[j], h.ops[j]);
    GrantsAreReached(h, j, h.replies[i].id);
  }

  ghost predicate RepeatsAGrant(h: History)
    requires Legal(h)
  {
    exists i, j :: 0 <= i < j < |h.ops| && h.replies[i].Lease? && h.replies[i] == h.replies[j]
  }

  /** The first k steps of a history, and then anything but an `add`. */
  ghost predicate ContinuesWithoutAdd(h: History, k: nat, g: History) {
    && Legal(h) && Legal(g) && k <= |h.ops| && k <= |g.ops|
    && g.states[..k + 1] == h.states[..k + 1] && g.ops[..k] == h.ops[..k] && g.replies[..k] == h.replies[..k]
    && forall i :: k <= i < |g.ops| ==> !g.ops[i].OpAdd?
  }

  lemma ContinuedIsCareful(h: History, k: nat, g: History)
    requires Careful(h) && ContinuesWithoutAdd(h, k, g)
    ensures Careful(g)
  {
    forall i | 0 <= i < |g.ops| ensures CarefulAt(g, i) {
      if i < k {
        assert CarefulAt(h, i);
        assert g.states[i] == g.states[..k + 1][i] && g.ops[i] == g.ops[..k][i];
        assert h.states[i] == h.states[..k + 1][i] && h.ops[i] == h.ops[..k][i];
        forall x | 0 <= x < i ensures g.replies[x] == h.replies[x] {
          assert g.replies[x] == g.replies[..k][x] && h.replies[x] == h.replies[..k][x];
        }
      }
    }
  }

  /** One more step at the end. */
  ghost function Then(h: History, op: Op): (g: History)
    requires Legal(h)
    ensures Legal(g) && h.states <= g.states && h.ops <= g.ops && h.replies <= g.replies && |g.ops| == |h.ops| + 1
    ensures Last(g) == Step(Last(h), op).0 && g.replies[|h.ops|] == Step(Last(h), op).1 && g.ops[|h.ops|] == op
  {
    var (q, reply) := Step(h.states[|h.ops|], op);
    var g := History(h.states + [q], h.ops + [op], h.replies + [reply]);
    assert forall k :: 0 <= k < |g.ops| ==> Linked(g, k) by {
      forall k | 0 <= k < |g.ops| ensures Linked(g, k) {
        if k < |h.ops| { assert Linked(h, k); }
      }
    }
    g
  }

  ghost function Last(h: History): seq<QueueItem>
    requires Legal(h)
  {
    h.states[|h.ops|]
  }

  lemma ThenContinues(h: History, k: nat, g: History, op: Op)
    requires ContinuesWithoutAdd(h, k, g) && !op.OpAdd?
    ensures ContinuesWithoutAdd(h, k, Then(g, op))
  {
    var n := Then(g, op);
    assert n.states[..k + 1] == g.states[..k + 1] && n.ops[..k] == g.ops[..k] && n.replies[..k] == g.replies[..k];
  }

  lemma Prefix(h: History, k: nat) returns (g: History)
    requires Legal(h) && k <= |h.ops|
    ensures ContinuesWithoutAdd(h, k, g) && |g.ops| == k
  {
    g := History(h.states[..k + 1], h.ops[..k], h.replies[..k]);
    forall i | 0 <= i < k ensures Linked(g, i) { assert Linked(h, i); }
  }

  /** A job no longer finished and unowned, or leased to the run: one that the run can mark over and over. */
  ghost predicate Markable(q: seq<QueueItem>, id: string, runId: string, epoch: int) {
    && Loadable(q) && Has(q, id) && Job(q, id).leaseEpoch == epoch && Job(q, id).finished == Null
    && (Job(q, id).runId == Some(runId) || !Job(q, id).status.Active?)
  }

  lemma MarkStep(q: seq<QueueItem>, id: string, runId: string, epoch: int)
    requires Markable(q, id, runId, epoch)
    ensures var (r, reply) := Step(q, OpMark(id, runId, 0.0, LEASE_SECONDS));
      reply == Lease(id, epoch + 1) && Markable(r, id, runId, epoch + 1)
  {
    MarkReply(q, id, runId, 0.0, LEASE_SECONDS);
    assert ValidItem(Job(q, id));
    EditLoadable(q, Position(q, id), Leased(Job(q, id), runId, 0.0));
  }

  /** Marking goes through every later epoch. */
  lemma {:induction false} MarkUpTo(h: History, k: nat, g: History, id: string, runId: string, epoch: int, target: int) returns (n: History)
    requires ContinuesWithoutAdd(h, k, g) && Markable(Last(g), id, runId, epoch) && epoch < target
    ensures ContinuesWithoutAdd(h, k, n) && |n.ops| > k && n.replies[|n.ops| - 1] == Lease(id, target)
    decreases target - epoch
  {
    var op := OpMark(id, runId, 0.0, LEASE_SECONDS);
    MarkStep(Last(g), id, runId, epoch);
    ThenContinues(h, k, g, op);
    n := Then(g, op);
    if epoch + 1 < target {
      n := MarkUpTo(h, k, n, id, runId, epoch + 1, target);
    }
  }

  /** An operator fails the job and retries it: pending again, whatever it was. */
  lemma Reopened(h: History, k: nat, g: History, id: string) returns (n: History)
    requires ContinuesWithoutAdd(h, k, g) && Loadable(Last(g)) && Has(Last(g), id)
    ensures ContinuesWithoutAdd(h, k, n) && Markable(Last(n), id, "", Job(Last(g), id).leaseEpoch)
  {
    var fail := OpStatus(id, Failed, None, None, None, 0.0);
    ThenContinues(h, k, g, fail);
    FailedByOperator(Last(g), id);
    n := Then(g, fail);
    ThenContinues(h, k, n, OpRetry(id));
    RetriedByOperator(Last(n), id);
    n := Then(n, OpRetry(id));
  }

  lemma FailedByOperator(q: seq<QueueItem>, id: string)
    requires Loadable(q) && Has(q, id)
    ensures var r := Step(q, OpStatus(id, Failed, None, None, None, 0.0)).0;
      Loadable(r) && Has(r, id) && Job(r, id) == WithStatus(Job(q, id), Failed, None, 0.0)
  {
    var i, e := Position(q, id), WithStatus(Job(q, id), Failed, None, 0.0);
    assert ValidItem(q[i]);
    EditLoadable(q, i, e);
    SameIdsSamePosition(q, q[i := e], id);
  }

  lemma RetriedByOperator(q: seq<QueueItem>, id: string)
    requires Loadable(q) && Has(q, id) && Job(q, id).status.Failed?
    ensures Markable(Step(q, OpRetry(id)).0, id, "", Job(q, id).leaseEpoch)
  {
    var i, e := Position(q, id), Retried(Job(q, id));
    assert ValidItem(q[i]);
    EditLoadable(q, i, e);
    SameIdsSamePosition(q, q[i := e], id);
  }

  lemma AddedByStep(h: History, k: nat) returns (g: History)
    requires Legal(h) && k < |h.ops| && h.ops[k].OpAdd? && Loadable(h.states[k])
    requires ValidItem(h.ops[k].item) && !Has(h.states[k], h.ops[k].item.id)
    ensures ContinuesWithoutAdd(h, k + 1, g) && |g.ops| == k + 1
    ensures Loadable(Last(g)) && Has(Last(g), h.ops[k].item.id) && Job(Last(g), h.ops[k].item.id) == h.ops[k].item
  {
    assert Linked(h, k);
    AddLoadable(h.states[k], h.ops[k].item);
    AddedJob(h.states[k], h.ops[k].item);
    g := Prefix(h, k + 1);
    assert Last(g) == g.states[..k + 2][k + 1] == h.states[..k + 2][k + 1];
  }

  /** After an add that is not careful, operators and a marking run make the queue grant a pair again. */
  lemma CarelessAddRepeats(h: History, k: nat) returns (g: History)
    requires Legal(h) && k < |h.ops| && !CarefulAt(h, k)
    ensures ContinuesWithoutAdd(h, k + 1, g) && RepeatsAGrant(g)
  {
    var item := h.ops[k].item;
    var i :| 0 <= i < k && h.replies[i].Lease? && h.replies[i].id == item.id && h.replies[i].epoch > item.leaseEpoch;
    g := AddedByStep(h, k);
    g := Reopened(h, k + 1, g, item.id);
    g := MarkUpTo(h, k + 1, g, item.id, "", item.leaseEpoch, h.replies[i].epoch);
    assert g.replies[i] == g.replies[..k + 1][i] == h.replies[..k + 1][i];
  }

  /**
   * The condition on adds is exact: a history keeps to it if and only if no continuation of it, at any
   * point and without further adds, grants a (job, epoch) pair twice.
   */
  lemma GrantsAreNewExactly(h: History)
    requires Legal(h)
    ensures Careful(h) <==> forall k: nat, g :: ContinuesWithoutAdd(h, k, g) ==> !RepeatsAGrant(g)
  {
    if Careful(h) {
      forall k: nat, g | ContinuesWithoutAdd(h, k, g) ensures !RepeatsAGrant(g) {
        ContinuedIsCareful(h, k, g);
        forall i, j | 0 <= i < j < |g.ops| && g.replies[i].Lease? ensures g.replies[i] != g.replies[j] {
          if g.replies[i] == g.replies[j] { GrantsAreNew(g, i, j); }
        }
      }
    } else {
      var k :| 0 <= k < |h.ops| && !CarefulAt(h, k);
      var g := CarelessAddRepeats(h, k);
    }
  }

  // ---- A lost lease stays lost

  /** The pair (run, epoch) has been overtaken on this job. */
  ghost predicate Overtaken(q: seq<QueueItem>, id: string, runId: string, epoch: int) {
    Has(q, id) ==>
      var e := Job(q, id);
      e.leaseEpoch > epoch || (e.leaseEpoch == epoch && e.runId != Some(runId))
  }

  lemma {:induction false} StaysOvertaken(h: History, j: nat, m: nat, id: string, runId: string, epoch: int)
    requires Fresh(h) && j <= m <= |h.ops|
    requires id in IdsUsed(h, j)
    requires Overtaken(h.states[j], id, runId, epoch)
    ensures Overtaken(h.states[m], id, runId, epoch)
  {
    if j < m {
      StaysOvertaken(h, j, m - 1, id, runId, epoch);
      IdsUsedGrows(h, j, m - 1);
      assert Linked(h, m - 1);
      StepAdvances(h.states[m - 1], h.ops[m - 1], id);
    }
  }

  /** What being overtaken means to the old holder. */
  lemma OvertakenIsPowerless(q: seq<QueueItem>, id: string, runId: string, epoch: int,
                             status: JobStatus, error: Option<string>, now: real)
    requires Overtaken(q, id, runId, epoch)
    ensures !HoldsLease(q, id, runId, epoch)
    ensures Touch(q, id, runId, Some(epoch), now) == (q, false)
    ensures UpdateStatus(q, id, status, error, Some(runId), Some(epoch), now) ==
            (q, if Has(q, id) then Refused else Written)
  {
  }

  /**
   * Lease fencing. Once a pair (run, epoch) that held a job stops holding it, then after any further
   * operations by anyone it still does not hold it: its heartbeat returns False, and its status
   * writes change nothing (they are refused outright while the job exists).
   */
  lemma LostLeaseStaysLost(h: History, i: nat, j: nat, m: nat, id: string, runId: string, epoch: int,
                           status: JobStatus, error: Option<string>, now: real)
    requires Fresh(h) && i <= j <= m <= |h.ops|
    requires HoldsLease(h.states[i], id, runId, epoch)
    requires !HoldsLease(h.states[j], id, runId, epoch)
    ensures !HoldsLease(h.states[m], id, runId, epoch)
    ensures Touch(h.states[m], id, runId, Some(epoch), now) == (h.states[m], false)
    ensures UpdateStatus(h.states[m], id, status, error, Some(runId), Some(epoch), now) ==
            (h.states[m], if Has(h.states[m], id) then Refused else Written)
  {
    IdsStayUsed(h, i, id);
    IdsUsedGrows(h, i, j);
    if Has(h.states[j], id) {
      EpochMonotone(h, i, j, id);
    }
    StaysOvertaken(h, j, m, id, runId, epoch);
    OvertakenIsPowerless(h.states[m], id, runId, epoch, status, error, now);
  }

  // ---- What presenting the run alone is worth

  /** What a step that does not grant the id leaves of its job's lease. */
  ghost predicate Ungranted(before: QueueItem, after: QueueItem) {
    && after.leaseEpoch == before.leaseEpoch
    && (after.runId.Some? ==> after.runId == before.runId && (before.status.Active? ==> after.status.Active?))
  }

  lemma EditUngranted(q: seq<QueueItem>, i: nat, e: QueueItem, id: string)
    requires i < |q| && e.id == q[i].id && Ungranted(q[i], e) && Has(q, id)
    ensures Has(q[i := e], id) && Ungranted(Job(q, id), Job(q[i := e], id))
  {
    SameIdsSamePosition(q, q[i := e], id);
  }

  lemma ClaimUngranted(q: seq<QueueItem>, runId: string, now: real, lease: real, stamp: real, id: string)
    requires UniqueIds(q) && Has(q, id)
    requires var c := Claim(q, runId, now, lease, stamp).1; c.Some? ==> c.value.id != id
    ensures var r := Claim(q, runId, now, lease, stamp).0; Has(r, id) && Ungranted(Job(q, id), Job(r, id))
  {
    var m := Recovered(q, now, lease);
    SameIdsSamePosition(q, m, id);
    SameIdsSamePosition(q, Claim(q, runId, now, lease, stamp).0, id);
  }

  lemma MarkUngranted(q: seq<QueueItem>, x: string, runId: string, now: real, lease: real, id: string)
    requires Has(q, id) && (x == id ==> !MarkActive(q, x, runId, now, lease).1.NewEpoch?)
    ensures var r := MarkActive(q, x, runId, now, lease).0; Has(r, id) && Job(r, id) == Job(q, id)
  {
    SameIdsSamePosition(q, MarkActive(q, x, runId, now, lease).0, id);
  }

  lemma EditStepUngranted(q: seq<QueueItem>, op: Op, id: string)
    requires op.OpStatus? || op.OpTouch? || op.OpRetry?
    requires Has(q, id)
    ensures var r := Apply(q, op).0; Has(r, id) && Ungranted(Job(q, id), Job(r, id))
  {
    if Has(q, op.id) {
      var i := Position(q, op.id);
      match op
      case OpStatus(x, status, error, caller, epoch, now) =>
        EditUngranted(q, i, WithStatus(q[i], status, error, now), id);
      case OpTouch(x, runId, epoch, now) => EditUngranted(q, i, q[i].(heartbeat := At(now)), id);
      case OpRetry(x) => EditUngranted(q, i, Retried(q[i]), id);
    }
  }

  lemma StepUngranted(q: seq<QueueItem>, op: Op, id: string)
    requires Has(q, id) && Has(Step(q, op).0, id)
    requires Step(q, op).1.Lease? ==> Step(q, op).1.id != id
    ensures Ungranted(Job(q, id), Job(Step(q, op).0, id))
  {
    if Loadable(q) {
      match op {
        case OpAdd(item) => KeptByAppend(q, item, id);
        case OpRemove(x) =>
          forall e | e in Remove(q, x) ensures e in q { RemoveKeeps(q, x, e); }
          FilterAdvances(q, Remove(q, x), id);
        case OpRecover(now, lease) => SameIdsSamePosition(q, Recovered(q, now, lease), id);
        case OpClaim(runId, now, lease, stamp) => ClaimUngranted(q, runId, now, lease, stamp, id);
        case OpClear =>
          forall e | e in ClearDone(q) ensures e in q { ClearKeeps(q, e); }
          FilterAdvances(q, ClearDone(q), id);
        case OpReset =>
        case OpMark(x, runId, now, lease) => MarkUngranted(q, x, runId, now, lease, id);
        case _ => EditStepUngranted(q, op, id);
      }
    }
  }

  lemma KeptByAppend(q: seq<QueueItem>, item: QueueItem, id: string)
    requires Has(q, id)
    ensures Has(q + [item], id) && Job(q + [item], id) == Job(q, id)
  {
    var r := q + [item];
    assert forall k :: 0 <= k < |q| ==> r[k] == q[k];
    assert r[Position(q, id)].id == id;
  }

  /** Between steps i and m the run was granted the job at an epoch it still holds at m. */
  ghost predicate Regranted(h: History, i: nat, m: nat, id: string, runId: string, epoch: int)
    requires Legal(h) && m <= |h.ops|
  {
    exists g :: i <= g < m && GrantStillHeld(h, g, m, id, runId, epoch)
  }

  /** Step g granted the run a greater epoch, held at m. */
  ghost predicate GrantStillHeld(h: History, g: nat, m: nat, id: string, runId: string, epoch: int)
    requires Legal(h) && g < m <= |h.ops|
  {
    && h.replies[g].Lease? && h.replies[g].id == id && h.replies[g].epoch > epoch
    && (h.ops[g].OpClaim? || h.ops[g].OpMark?) && h.ops[g].runId == runId
    && HoldsLease(h.states[m], id, runId, h.replies[g].epoch)
  }

  /** A step that grants the id to nobody leaves the holder what it held before. */
  lemma HeldBefore(h: History, m: nat, id: string, runId: string)
    requires Fresh(h) && m < |h.ops| && id in IdsUsed(h, m) && Has(h.states[m + 1], id)
    requires Job(h.states[m + 1], id).runId == Some(runId) && !(h.replies[m].Lease? && h.replies[m].id == id)
    ensures Has(h.states[m], id)
    ensures var was, now := Job(h.states[m], id), Job(h.states[m + 1], id);
      was.runId == Some(runId) && was.leaseEpoch == now.leaseEpoch && (was.status.Active? ==> now.status.Active?)
  {
    assert Linked(h, m);
    EpochMonotone(h, m, m + 1, id);
    StepUngranted(h.states[m], h.ops[m], id);
  }

  /** A later epoch that a run holds was granted to it, and the job has been active since. */
  lemma {:induction false} LaterEpochWasGranted(h: History, i: nat, m: nat, id: string, runId: string, epoch: int)
    requires Fresh(h) && i <= m <= |h.ops| && Has(h.states[i], id) && Has(h.states[m], id)
    requires Job(h.states[i], id).leaseEpoch == epoch
    requires Job(h.states[m], id).runId == Some(runId) && Job(h.states[m], id).leaseEpoch > epoch
    ensures Regranted(h, i, m, id, runId, epoch) && Job(h.states[m], id).status.Active?
  {
    if h.replies[m - 1].Lease? && h.replies[m - 1].id == id {
      assert Linked(h, m - 1);
      LeaseReply(h.states[m - 1], h.ops[m - 1]);
      assert GrantStillHeld(h, m - 1, m, id, runId, epoch);
    } else {
      IdsStayUsed(h, i, id);
      IdsUsedGrows(h, i, m - 1);
      HeldBefore(h, m - 1, id, runId);
      LaterEpochWasGranted(h, i, m - 1, id, runId, epoch);
      var g :| i <= g < m - 1 && GrantStillHeld(h, g, m - 1, id, runId, epoch);
      assert GrantStillHeld(h, g, m, id, runId, epoch);
    }
  }

  /**
   * A run that lost a lease and presents only its id is heard again, by `touch` and by status writes,
   * exactly when it was granted the job anew since and still holds that later grant; otherwise it changes
   * nothing. So the run id fences a run against others, but not its old attempts against its new one.
   */
  lemma RunIdAloneFencesExactly(h: History, i: nat, j: nat, m: nat, id: string, runId: string, epoch: int,
                                status: JobStatus, error: Option<string>, now: real)
    requires Fresh(h) && i <= j <= m <= |h.ops|
    requires HoldsLease(h.states[i], id, runId, epoch) && !HoldsLease(h.states[j], id, runId, epoch)
    ensures Touch(h.states[m], id, runId, None, now).1 <==> Regranted(h, i, m, id, runId, epoch)
    ensures var (q, w) := UpdateStatus(h.states[m], id, status, error, Some(runId), None, now);
      && (Has(h.states[m], id) && w == Written <==> Regranted(h, i, m, id, runId, epoch))
      && (!Regranted(h, i, m, id, runId, epoch) ==> q == h.states[m])
  {
    LostLeaseStaysLost(h, i, j, m, id, runId, epoch, status, error, now);
    if Has(h.states[m], id) && Job(h.states[m], id).runId == Some(runId) {
      IdsStayUsed(h, i, id);
      EpochMonotone(h, i, m, id);
      LaterEpochWasGranted(h, i, m, id, runId, epoch);
    }
  }

  // ---- Why an epoch and careful ids are needed

  const SAMPLE: QueueItem :=
    QueueItem("a", "download", "u", "", 0, Pending, None, None, Blank, Null, None, Null, 0)
  const FIRST: QueueItem := Leased(SAMPLE, "r", 0.0)
  const ABANDONED: QueueItem := Released(FIRST, Interrupted)
  const SECOND: QueueItem := Leased(ABANDONED, "r", 302.0)

  /** One run claims a job, loses it to a recovery pass, and claims it again. */
  const RECLAIM: History := History(
    [[SAMPLE], [FIRST], [ABANDONED], [SECOND]],
    [OpClaim("r", 0.0, LEASE_SECONDS, 0.0), OpRecover(301.0, LEASE_SECONDS),
     OpClaim("r", 302.0, LEASE_SECONDS, 302.0)],
    [Lease("a", 1), Nothing, Lease("a", 2)])

  lemma OneJobClaim(e: QueueItem, runId: string, now: real)
    requires ValidItem(e) && e.status.Runnable()
    ensures Step([e], OpClaim(runId, now, LEASE_SECONDS, now)) ==
            ([Leased(e, runId, now)], Lease(e.id, e.leaseEpoch + 1))
  {
    assert Recovered([e], now, LEASE_SECONDS) == [e];
    assert FirstRunnable([e]) == 0;
    assert [e][0 := Leased(e, runId, now)] == [Leased(e, runId, now)];
  }

  lemma SamplesAreValid()
    ensures ValidItem(SAMPLE) && ValidItem(FIRST) && ValidItem(ABANDONED) && ValidItem(SECOND)
  {
    assert SAMPLE.id[0] in SAMPLE.id && !IsSpace(SAMPLE.id[0]);
    assert SAMPLE.source[0] in SAMPLE.source && !IsSpace(SAMPLE.source[0]);
  }

  /** Without the epoch the fence fails: a heartbeat that names only the run is accepted again. */
  lemma RunIdAloneDoesNotFence()
    ensures Fresh(RECLAIM)
    ensures HoldsLease(RECLAIM.states[1], "a", "r", 1) && !HoldsLease(RECLAIM.states[2], "a", "r", 1)
    ensures Touch(RECLAIM.states[3], "a", "r", None, 303.0).1
    ensures !Touch(RECLAIM.states[3], "a", "r", Some(1), 303.0).1
  {
    SamplesAreValid();
    OneJobClaim(SAMPLE, "r", 0.0);
    OneJobClaim(ABANDONED, "r", 302.0);
    assert Recovered([FIRST], 301.0, LEASE_SECONDS) == [ABANDONED];
    assert Linked(RECLAIM, 0) && Linked(RECLAIM, 1) && Linked(RECLAIM, 2);
    forall k | 0 <= k < |RECLAIM.ops| ensures Linked(RECLAIM, k) {
      assert k == 0 || k == 1 || k == 2;
    }
  }

  /** The job is removed and another is added under the same id. */
  const READD: History := History(
    [[SAMPLE], [FIRST], [], [SAMPLE], [Leased(SAMPLE, "r", 1.0)]],
    [OpClaim("r", 0.0, LEASE_SECONDS, 0.0), OpRemove("a"), OpAdd(SAMPLE), OpClaim("r", 1.0, LEASE_SECONDS, 1.0)],
    [Lease("a", 1), Bool(true), Nothing, Lease("a", 1)])

  /** Reusing an id restarts its epochs: the same (job, epoch) pair is granted twice. */
  lemma ReusedIdRepeatsAGrant()
    ensures Legal(READD) && !Careful(READD) && READD.replies[0] == READD.replies[3]
  {
    SamplesAreValid();
    OneJobClaim(SAMPLE, "r", 0.0);
    OneJobClaim(SAMPLE, "r", 1.0);
    assert Remove([FIRST], "a") == [] + Remove([FIRST][1..], "a");
    assert Step([FIRST], OpRemove("a")) == ([], Bool(true));
    var none: seq<QueueItem> := [];
    assert none + [SAMPLE] == [SAMPLE] && Loadable(none);
    assert Linked(READD, 0) && Linked(READD, 1) && Linked(READD, 2) && Linked(READD, 3);
    forall k | 0 <= k < |READD.ops| ensures Linked(READD, k) {
      assert k == 0 || k == 1 || k == 2 || k == 3;
    }
    assert !CarefulAt(READD, 2);
  }

  // ---- The file stays loadable

  /** When an operation on a loadable queue leaves a loadable queue. */
  ghost predicate KeepsSchema(q: seq<QueueItem>, op: Op) {
    match op
    case OpAdd(item) => ValidItem(item) && !Has(q, item.id)
    case OpMark(id, runId, now, lease) =>
      !Has(q, id) || Job(q, id).finished == Null || (Job(q, id).runId != Some(runId) && LeaseLive(Job(q, id), now, lease))
    case OpStatus(id, status, _, runId, _, _) =>
      runId.Some? || !Has(q, id) || status.Terminal() || Job(q, id).finished == Null
    case _ => true
  }

  lemma EditLoadable(q: seq<QueueItem>, i: nat, e: QueueItem)
    requires Loadable(q) && i < |q| && e.id == q[i].id
    ensures Loadable(q[i := e]) <==> ValidItem(e)
  {
    var r := q[i := e];
    assert r[i] == e;
  }

  lemma RecoveredLoadable(q: seq<QueueItem>, now: real, lease: real)
    requires Loadable(q)
    ensures Loadable(Recovered(q, now, lease))
  {
    var r := Recovered(q, now, lease);
    forall i | 0 <= i < |q| ensures ValidItem(r[i]) && r[i].id == q[i].id {
      assert ValidItem(q[i]);
    }
  }

  lemma {:induction false} RemoveLoadable(q: seq<QueueItem>, id: string)
    requires Loadable(q)
    ensures Loadable(Remove(q, id))
  {
    if q != [] {
      var rest := Remove(q[1..], id);
      assert Loadable(q[1..]);
      RemoveLoadable(q[1..], id);
      forall k | 0 <= k < |rest| ensures rest[k].id != q[0].id {
        RemoveKeeps(q[1..], id, rest[k]);
      }
    }
  }

  lemma {:induction false} ClearLoadable(q: seq<QueueItem>)
    requires Loadable(q)
    ensures Loadable(ClearDone(q))
  {
    if q != [] {
      var rest := ClearDone(q[1..]);
      assert Loadable(q[1..]);
      ClearLoadable(q[1..]);
      forall k | 0 <= k < |rest| ensures rest[k].id != q[0].id {
        ClearKeeps(q[1..], rest[k]);
      }
    }
  }

  lemma AddLoadable(q: seq<QueueItem>, item: QueueItem)
    requires Loadable(q)
    ensures Loadable(q + [item]) <==> ValidItem(item) && !Has(q, item.id)
  {
    var r := q + [item];
    assert r[|q|] == item;
    assert forall k :: 0 <= k < |q| ==> r[k] == q[k];
    if Has(q, item.id) { assert r[Position(q, item.id)].id == r[|q|].id; }
  }

  lemma EditKeepsLoadable(q: seq<QueueItem>, op: Op)
    requires Loadable(q) && (op.OpStatus? || op.OpMark? || op.OpTouch? || op.OpRetry?) && Has(q, op.id)
    ensures Loadable(Apply(q, op).0) <==> KeepsSchema(q, op)
  {
    var i := Position(q, op.id);
    assert ValidItem(q[i]);
    match op
    case OpStatus(id, status, error, runId, epoch, now) => EditLoadable(q, i, WithStatus(q[i], status, error, now));
    case OpMark(id, runId, now, lease) => EditLoadable(q, i, Leased(q[i], runId, now));
    case OpTouch(id, runId, epoch, now) => EditLoadable(q, i, q[i].(heartbeat := At(now)));
    case OpRetry(id) => EditLoadable(q, i, Retried(q[i]));
  }

  lemma ClaimKeepsLoadable(q: seq<QueueItem>, runId: string, now: real, lease: real, stamp: real)
    requires Loadable(q)
    ensures Loadable(Claim(q, runId, now, lease, stamp).0)
  {
    RecoveredLoadable(q, now, lease);
    var m := Recovered(q, now, lease);
    var i := FirstRunnable(m);
    if i < |m| {
      assert ValidItem(m[i]);
      EditLoadable(m, i, Leased(m[i], runId, stamp));
    }
  }

  /**
   * From a loadable queue every operation leaves a loadable queue exactly when `KeepsSchema` holds.
   * Only `add`, `mark_active` and status writes without a run id have a condition: the last two keep
   * an old `finished_iso` on a job they make unfinished.
   */
  lemma StepKeepsLoadable(q: seq<QueueItem>, op: Op)
    requires Loadable(q)
    ensures Loadable(Step(q, op).0) <==> KeepsSchema(q, op)
  {
    match op
    case OpAdd(item) => AddLoadable(q, item);
    case OpRemove(id) => RemoveLoadable(q, id);
    case OpRecover(now, lease) => RecoveredLoadable(q, now, lease);
    case OpClaim(runId, now, lease, stamp) => ClaimKeepsLoadable(q, runId, now, lease, stamp);
    case OpClear => ClearLoadable(q);
    case OpReset =>
    case _ => if Has(q, op.id) { EditKeepsLoadable(q, op); }
  }

  /** A history whose every step meets its condition never corrupts the file. */
  lemma {:induction false} HistoryKeepsLoadable(h: History, k: nat)
    requires Legal(h) && Loadable(h.states[0]) && k <= |h.ops|
    requires forall i :: 0 <= i < k ==> KeepsSchema(h.states[i], h.ops[i])
    ensures Loadable(h.states[k])
  {
    if k > 0 {
      HistoryKeepsLoadable(h, k - 1);
      assert Linked(h, k - 1);
      StepKeepsLoadable(h.states[k - 1], h.ops[k - 1]);
    }
  }

  /** A finished job, and the two writes that make the file unreadable. */
  const FINISHED: QueueItem := SAMPLE.(status := Done, finished := At(1.0))

  lemma FinishedJobBreaksTheFile()
    ensures Loadable([FINISHED])
    ensures !Loadable(Step([FINISHED], OpMark("a", "r", 2.0, LEASE_SECONDS)).0)
    ensures !Loadable(Step([FINISHED], OpStatus("a", Pending, None, None, None, 2.0)).0)
  {
    SamplesAreValid();
    assert ValidItem(FINISHED) && Has([FINISHED], "a");
    StepKeepsLoadable([FINISHED], OpMark("a", "r", 2.0, LEASE_SECONDS));
    StepKeepsLoadable([FINISHED], OpStatus("a", Pending, None, None, None, 2.0));
  }
}
