/** Queue jobs, their schema, and each operation as a function of the file contents. */
module QueueModel {
  import opened Basics

  datatype JobStatus = Pending | Active | Done | Failed | Canceled | Interrupted {
    predicate Terminal() { Done? || Failed? || Canceled? }

    predicate Runnable() { Pending? || Interrupted? }
  }

  /** A nullable ISO timestamp; the empty string is a legal legacy value. */
  datatype Stamp = Null | Blank | At(time: real)

  const LEASE_SECONDS := 300.0

  datatype QueueItem = QueueItem(
    id: string, jobType: string, source: string, destination: string, size: int,
    status: JobStatus, error: Option<string>, account: Option<string>,
    created: Stamp, finished: Stamp,
    runId: Option<string>, heartbeat: Stamp, leaseEpoch: int)

  /** What `queue.json` holds. */
  datatype Document = Missing | Garbage | Entries(items: seq<QueueItem>)

  // ---- Schema (queue/schema.py)

  predicate IsSpace(c: char) { c in {' ', '\t', '\n', '\r', '\U{b}', '\U{c}'} }

  predicate IsBlank(s: string) { forall c :: c in s ==> IsSpace(c) }

  /** `validate_raw_item` accepts the entry. */
  predicate ValidItem(e: QueueItem) {
    && !IsBlank(e.id)
    && e.jobType in {"download", "upload"}
    && e.size >= 0
    && e.leaseEpoch >= 0
    && !IsBlank(e.source)
    && (!e.status.Active? ==> e.runId == None && e.heartbeat == Null)
    && (!e.status.Terminal() ==> e.finished == Null)
  }

  /** `validate_unique_ids` accepts the list. */
  ghost predicate UniqueIds(q: seq<QueueItem>) {
    forall i, j :: 0 <= i < j < |q| ==> q[i].id != q[j].id
  }

  ghost predicate Loadable(q: seq<QueueItem>) {
    (forall i :: 0 <= i < |q| ==> ValidItem(q[i])) && UniqueIds(q)
  }

  ghost predicate Corrupt(d: Document) { d.Garbage? || (d.Entries? && !Loadable(d.items)) }

  /** The items a successful load builds. */
  function ItemsOf(d: Document): seq<QueueItem> { if d.Entries? then d.items else [] }

  // ---- Lookups

  /** The first index of a job id, or the length when it is absent. */
  function Position(q: seq<QueueItem>, id: string): (i: nat)
    ensures i <= |q|
    ensures i < |q| ==> q[i].id == id
    ensures forall k :: 0 <= k < i ==> q[k].id != id
  {
    if q == [] || q[0].id == id then 0 else 1 + Position(q[1..], id)
  }

  /** The first index of a pending or interrupted job, or the length. */
  function FirstRunnable(q: seq<QueueItem>): (i: nat)
    ensures i <= |q|
    ensures i < |q| ==> q[i].status.Runnable()
    ensures forall k :: 0 <= k < i ==> !q[k].status.Runnable()
  {
    if q == [] || q[0].status.Runnable() then 0 else 1 + FirstRunnable(q[1..])
  }

  // ---- Ownership and liveness

  /** `_owns`: the lease is the pair (run id, epoch); an absent epoch is not checked. */
  predicate Owns(e: QueueItem, runId: string, epoch: Option<int>) {
    e.runId == Some(runId) && (epoch == None || epoch == Some(e.leaseEpoch))
  }

  /** The recovery test: no usable heartbeat, or one older than the lease. */
  predicate Stale(e: QueueItem, now: real, lease: real) {
    e.status.Active? && (e.heartbeat.At? ==> now - e.heartbeat.time > lease)
  }

  /** `_is_lease_live`. */
  predicate LeaseLive(e: QueueItem, now: real, lease: real) {
    e.status.Active? && e.heartbeat.At? && now - e.heartbeat.time <= lease
  }

  // ---- Operations

  function Leased(e: QueueItem, runId: string, stamp: real): QueueItem {
    e.(status := Active, runId := Some(runId), heartbeat := At(stamp), leaseEpoch := e.leaseEpoch + 1)
  }

  function Released(e: QueueItem, status: JobStatus): QueueItem {
    e.(status := status, runId := None, heartbeat := Null)
  }

  function RecoverItem(e: QueueItem, now: real, lease: real): QueueItem {
    if Stale(e, now, lease) then Released(e, Interrupted) else e
  }

  function Recovered(q: seq<QueueItem>, now: real, lease: real): (r: seq<QueueItem>)
    ensures |r| == |q|
    ensures forall i :: 0 <= i < |q| ==> r[i] == RecoverItem(q[i], now, lease)
  {
    seq(|q|, i requires 0 <= i < |q| => RecoverItem(q[i], now, lease))
  }

  /** The jobs a recovery pass interrupts, in queue order, as it leaves them. */
  function Expired(q: seq<QueueItem>, now: real, lease: real): seq<QueueItem> {
    if q == [] then []
    else
      var last := q[|q| - 1];
      Expired(q[..|q| - 1], now, lease) + if Stale(last, now, lease) then [Released(last, Interrupted)] else []
  }

  /** The queue and the claimed item after `claim_next`. */
  function Claim(q: seq<QueueItem>, runId: string, now: real, lease: real, stamp: real)
    : (seq<QueueItem>, Option<QueueItem>)
  {
    var r := Recovered(q, now, lease);
    var i := FirstRunnable(r);
    if i == |r| then (r, None) else (r[i := Leased(r[i], runId, stamp)], Some(Leased(r[i], runId, stamp)))
  }

  function WithStatus(e: QueueItem, status: JobStatus, error: Option<string>, now: real): QueueItem {
    var e1 := e.(status := status,
                 error := if error.Some? && error.value != "" then error else e.error,
                 finished := if status.Terminal() then At(now) else e.finished);
    if status.Active? then e1 else Released(e1, status)
  }

  datatype WriteOutcome = Written | Refused

  function UpdateStatus(q: seq<QueueItem>, id: string, status: JobStatus, error: Option<string>,
                        runId: Option<string>, epoch: Option<int>, now: real): (seq<QueueItem>, WriteOutcome)
  {
    var i := Position(q, id);
    if i == |q| then (q, Written)
    else if runId.Some? && !Owns(q[i], runId.value, epoch) then (q, Refused)
    else (q[i := WithStatus(q[i], status, error, now)], Written)
  }

  datatype LeaseOutcome = NoJob | LeasedElsewhere | NewEpoch(epoch: int)

  function MarkActive(q: seq<QueueItem>, id: string, runId: string, now: real, lease: real)
    : (seq<QueueItem>, LeaseOutcome)
  {
    var i := Position(q, id);
    if i == |q| then (q, NoJob)
    else if q[i].runId != Some(runId) && LeaseLive(q[i], now, lease) then (q, LeasedElsewhere)
    else (q[i := Leased(q[i], runId, now)], NewEpoch(q[i].leaseEpoch + 1))
  }

  function Touch(q: seq<QueueItem>, id: string, runId: string, epoch: Option<int>, now: real)
    : (seq<QueueItem>, bool)
  {
    var i := Position(q, id);
    if i < |q| && Owns(q[i], runId, epoch) && q[i].status.Active?
    then (q[i := q[i].(heartbeat := At(now))], true)
    else (q, false)
  }

  function Retried(e: QueueItem): QueueItem {
    Released(e, Pending).(error := None, finished := Null)
  }

  function Retry(q: seq<QueueItem>, id: string): (seq<QueueItem>, bool) {
    var i := Position(q, id);
    if i < |q| && q[i].status in {Failed, Interrupted, Canceled}
    then (q[i := Retried(q[i])], true)
    else (q, false)
  }

  /** Drop every job with this id. */
  function Remove(q: seq<QueueItem>, id: string): seq<QueueItem> {
    if q == [] then [] else (if q[0].id == id then [] else [q[0]]) + Remove(q[1..], id)
  }

  function ClearDone(q: seq<QueueItem>): seq<QueueItem> {
    if q == [] then []
    else (if q[0].status in {Done, Canceled} then [] else [q[0]]) + ClearDone(q[1..])
  }

  /** The item as `add` stores it: a missing id or creation time is filled in. */
  function Filled(item: QueueItem, newId: string, now: real): QueueItem {
    item.(id := if item.id == "" then newId else item.id,
          created := if item.created.At? then item.created else At(now))
  }
}
