/**
 * A resumable download (core/downloader.py, core/download_transport.py, core/state.py) as a machine
 * of interleaved steps: chunk workers, saves in flight, the main thread, the page cache and crashes.
 */
module DownloadMachine {
  import opened Basics
  import opened Chunks
  import opened StateStore

  /** One transfer: the plaintext the remote holds, and what identifies the transfer. */
  datatype Job = Job(plain: Bytes, source: string, destination: string, aesKey: Bytes, nonce: Bytes,
                     mac: Bytes -> Bytes)

  ghost predicate WellFormed(j: Job) {
    && |j.aesKey| == 16 && |j.nonce| == 8
    && forall x: Bytes :: |j.mac(x)| == MAC_BYTE_LENGTH
  }

  function ChunkPlan(j: Job): seq<Chunk> { Plan(|j.plain|) }

  /** The destination as readers see it, what a crash would leave of it, and the state file. */
  datatype Disk = Disk(vol: Option<Bytes>, dur: Option<Bytes>, doc: StateDoc)

  /** One chunk's worker: not writing yet, part of the chunk written, all of it, or gone. */
  datatype Task = Waiting | Writing(n: nat) | Written | Exited

  /** A `save_state` call in progress: its snapshot, and whether the data barrier has passed. */
  datatype Save = Save(snap: TransferState, flushed: bool)

  datatype Phase = Running | Finishing(committed: TransferState) | Returned | Raised

  datatype Session = Session(
    live: TransferState, tasks: seq<Task>, saves: seq<Save>,
    bytesDone: int, chunksDone: int, stop: bool, failed: bool, phase: Phase)

  datatype Sys = Sys(disk: Disk, session: Option<Session>)

  datatype Action =
    | Start(autoResume: bool) | StartRefused(autoResume: bool)
    | WriteSome(i: nat, m: nat) | Leave(i: nat) | Fail(i: nat) | Mark(i: nat)
    | Flush(k: nat) | Commit(k: nat) | DropSave(k: nat) | SaveFails(k: nat)
    | StopRequest | MainError(keep: bool)
    | FinalSnapshot | FinalCheck(keep: bool, verified: bool)
    | End | Crash | Writeback(dur: Option<Bytes>)

  // ---- Resume decision

  function FreshState(j: Job): TransferState {
    TransferState("download", j.source, j.destination, |j.plain|, STATE_FORMAT_VERSION, [], map[],
                  Metadata(Some(j.aesKey), Some(j.nonce), None, None, None), 0)
  }

  /** The state file describes this exact transfer. */
  predicate Matches(j: Job, s: TransferState) {
    && s.transferType == "download" && s.totalSize == |j.plain|
    && s.source == j.source && s.destination == j.destination
    && s.metadata.aesKey == Some(j.aesKey) && s.metadata.nonce == Some(j.nonce)
  }

  /** `is_usable_download_state` on a loaded state. */
  predicate Usable(j: Job, s: TransferState, file: Option<Bytes>) {
    && Matches(j, s)
    && (s.completed != [] ==>
          && file.Some? && |file.value| == |j.plain|
          && (forall i :: 0 <= i < |s.completed| ==>
                0 <= s.completed[i] < |ChunkPlan(j)| && s.completed[i] in s.macs))
  }

  /** A state file of another format version: never loaded, never cleared. */
  predicate ForeignVersion(d: StateDoc) { d.Parsed? && d.state.formatVersion != STATE_FORMAT_VERSION }

  ghost predicate Resumes(j: Job, d: Disk, autoResume: bool) {
    autoResume && d.doc.Parsed? && OwnSnapshot(d.doc.state) && Usable(j, d.doc.state, d.vol)
  }

  function Zeros(n: nat): Bytes { seq(n, _ => 0) }

  /** The destination after preallocation: kept when it already has the right size. */
  function Preallocated(file: Option<Bytes>, n: nat): Bytes {
    if file.Some? && |file.value| == n then file.value else Zeros(n)
  }

  // ---- Counters

  /** Sum of the weights of the indices in a set. */
  function SumOver(ws: seq<nat>, done: set<int>): nat {
    if ws == [] then 0
    else SumOver(ws[..|ws| - 1], done) + if |ws| - 1 in done then ws[|ws| - 1] else 0
  }

  function Sizes(j: Job): (r: seq<nat>)
    ensures |r| == |ChunkPlan(j)|
  {
    seq(|ChunkPlan(j)|, i requires 0 <= i < |ChunkPlan(j)| => ChunkPlan(j)[i].size)
  }

  function Ones(j: Job): (r: seq<nat>)
    ensures |r| == |ChunkPlan(j)|
  {
    seq(|ChunkPlan(j)|, _ => 1)
  }

  function Done(s: TransferState): set<int> { ToSet(s.completed) }

  lemma {:induction false} SumOverAdd(ws: seq<nat>, done: set<int>, i: int)
    requires i !in done
    ensures SumOver(ws, done + {i}) == SumOver(ws, done) + if 0 <= i < |ws| then ws[i] else 0
  {
    if ws != [] { SumOverAdd(ws[..|ws| - 1], done, i); }
  }

  // ---- Disk effects

  /** Bytes [from, to) of the file overwritten with the plaintext's. */
  function Patched(file: Bytes, plain: Bytes, from: nat, to: nat): (r: Bytes)
    requires |file| == |plain|
    ensures |r| == |file|
    ensures forall b :: 0 <= b < |file| ==> r[b] == if from <= b < to then plain[b] else file[b]
  {
    seq(|file|, b requires 0 <= b < |file| => if from <= b < to then plain[b] else file[b])
  }

  /** What the page cache may have put on the platter by itself: any mix while the sizes agree, else anything. */
  ghost predicate Mixed(dur: Option<Bytes>, vol: Option<Bytes>, d: Option<Bytes>) {
    dur.Some? && vol.Some? && |dur.value| == |vol.value| ==>
      && d.Some? && |d.value| == |vol.value|
      && forall b :: 0 <= b < |vol.value| ==> d.value[b] == dur.value[b] || d.value[b] == vol.value[b]
  }

  // ---- Transitions

  function Begin(j: Job, d: Disk, resume: bool): Session
    requires resume ==> d.doc.Parsed?
  {
    var live := if resume then d.doc.state else FreshState(j);
    Session(live, seq(|ChunkPlan(j)|, i => if i in live.completed then Exited else Waiting), [],
            SumOver(Sizes(j), Done(live)), SumOver(Ones(j), Done(live)), false, false, Running)
  }

  function ChunkBytes(j: Job, i: nat): Bytes
    requires i < |ChunkPlan(j)|
  {
    PlanIsContiguous(|j.plain|);
    assert WellPlaced(ChunkPlan(j)[i], i, |j.plain|);
    j.plain[ChunkPlan(j)[i].offset..ChunkPlan(j)[i].End()]
  }

  /** The worker's critical section: mark, count, and every sixteenth chunk claim a snapshot. */
  function Marked(j: Job, s: Session, i: nat): Session
    requires i < |ChunkPlan(j)| && i < |s.tasks|
  {
    var live := MarkDone(s.live, i, Some(j.mac(ChunkBytes(j, i))));
    var chunks := s.chunksDone + 1;
    var t := s.(tasks := s.tasks[i := Exited], bytesDone := s.bytesDone + ChunkPlan(j)[i].size, chunksDone := chunks);
    if chunks % 16 == 0 then t.(live := Bumped(live), saves := s.saves + [Save(Bumped(live), false)])
    else t.(live := live)
  }

  function Without(saves: seq<Save>, k: nat): seq<Save>
    requires k < |saves|
  {
    saves[..k] + saves[k + 1..]
  }

  predicate Quiet(s: Session) {
    (forall i :: 0 <= i < |s.tasks| ==> s.tasks[i] == Exited) && s.saves == []
  }

  predicate Covers(j: Job, s: TransferState) {
    forall i :: 0 <= i < |ChunkPlan(j)| ==> i in s.completed
  }

  ghost predicate Next(j: Job, y: Sys, a: Action, y': Sys) {
    var d := y.disk;
    match a
    case Start(autoResume) =>
      && y.session == None && !ForeignVersion(d.doc)
      && var resume := Resumes(j, d, autoResume);
         y' == Sys(d.(vol := Some(Preallocated(d.vol, |j.plain|)), doc := if resume then d.doc else Cleared(d.doc)),
                   Some(Begin(j, d, resume)))
    case StartRefused(autoResume) =>
      // No space, or another format version: at most the rejected state is gone.
      && y.session == None
      && y' == if ForeignVersion(d.doc) || Resumes(j, d, autoResume) then y
               else y.(disk := d.(doc := Cleared(d.doc)))
    case Crash => y' == Sys(d.(vol := d.dur), None)
    case Writeback(dur) => Mixed(d.dur, d.vol, dur) && y' == y.(disk := d.(dur := dur))
    case End =>
      && y.session.Some? && Quiet(y.session.value) && (y.session.value.phase.Returned? || y.session.value.phase.Raised?)
      && y' == y.(session := None)
    case _ => WithinSession(j, y, a, y')
  }

  ghost predicate WithinSession(j: Job, y: Sys, a: Action, y': Sys) {
    y.session.Some? && y'.session.Some? && SessionNext(j, y.disk, y.session.value, a, y'.disk, y'.session.value)
  }

  ghost predicate SessionNext(j: Job, d: Disk, s: Session, a: Action, d': Disk, s': Session) {
    match a
    case WriteSome(i, m) =>
      && i < |s.tasks| && i < |ChunkPlan(j)| && d.vol.Some? && |d.vol.value| == |j.plain|
      && (s.tasks[i].Waiting? || s.tasks[i].Writing?)
      && var n := if s.tasks[i].Writing? then s.tasks[i].n else 0;
         var c := ChunkPlan(j)[i];
         && 0 < m && n + m <= c.size
         && d' == d.(vol := Some(Patched(d.vol.value, j.plain, c.offset + n, c.offset + n + m)))
         && s' == s.(tasks := s.tasks[i := if n + m == c.size then Written else Writing(n + m)])
    case Leave(i) =>
      // Stopped before or while fetching, or never submitted.
      && i < |s.tasks| && s.tasks[i].Waiting? && s.stop
      && d' == d && s' == s.(tasks := s.tasks[i := Exited])
    case Fail(i) =>
      && i < |s.tasks| && s.tasks[i] != Exited
      && d' == d && s' == s.(tasks := s.tasks[i := Exited], failed := true)
    case Mark(i) =>
      i < |s.tasks| && i < |ChunkPlan(j)| && s.tasks[i].Written? && d' == d && s' == Marked(j, s, i)
    case Flush(k) =>
      && k < |s.saves| && d' == d.(dur := d.vol)
      && s' == s.(saves := s.saves[k := s.saves[k].(flushed := true)])
    case Commit(k) =>
      && k < |s.saves| && s.saves[k].flushed
      && d' == d.(doc := Committed(d.doc, s.saves[k].snap)) && s' == s.(saves := Without(s.saves, k))
    case DropSave(k) => k < |s.saves| && d' == d && s' == s.(saves := Without(s.saves, k))
    case SaveFails(k) => k < |s.saves| && d' == d && s' == s.(saves := Without(s.saves, k), failed := true)
    case StopRequest => d' == d && s' == s.(stop := true)
    case MainError(keep) =>
      && s.phase.Running? && s.failed
      && (if keep then d' == d && s' == s.(stop := true, phase := Raised, live := Bumped(s.live),
                                           saves := s.saves + [Save(Bumped(s.live), false)])
          else d' == d.(doc := Cleared(d.doc)) && s' == s.(stop := true, phase := Raised))
    case FinalSnapshot =>
      && s.phase.Running? && !s.failed && Quiet(s)
      && d' == d && s' == s.(live := Bumped(s.live), saves := [Save(Bumped(s.live), false)],
                             phase := Finishing(Bumped(s.live)))
    case FinalCheck(keep, verified) =>
      && s.phase.Finishing? && s.saves == [] && !s.failed
      && (if !Covers(j, s.phase.committed) && keep
          then d' == d && s' == s.(phase := Raised, saves := [Save(s.phase.committed, false)])
          else if Covers(j, s.phase.committed) && !verified && keep
          then d' == d && s' == s.(phase := Raised)
          else d' == d.(doc := Cleared(d.doc)) &&
               s' == s.(phase := if Covers(j, s.phase.committed) && verified then Returned else Raised))
    case _ => false
  }

  // ---- Invariant

  /** The file holds the chunk's plaintext at the chunk's place. */
  ghost predicate Holds(j: Job, file: Option<Bytes>, i: int) {
    && 0 <= i < |ChunkPlan(j)|
    && file.Some? && |file.value| == |j.plain|
    && forall b :: ChunkPlan(j)[i].offset <= b < ChunkPlan(j)[i].End() && b < |j.plain| ==> file.value[b] == j.plain[b]
  }

  ghost predicate HoldsAll(j: Job, file: Option<Bytes>, done: set<int>) {
    forall i :: i in done ==> Holds(j, file, i)
  }

  /** Every chunk the state file names for this transfer is on the platter, and readable now. */
  ghost predicate DocBacked(j: Job, d: Disk) {
    d.doc.Parsed? && OwnSnapshot(d.doc.state) && Matches(j, d.doc.state) ==>
      && HoldsAll(j, d.dur, Done(d.doc.state)) && HoldsAll(j, d.vol, Done(d.doc.state))
      && d.doc.state.macs.Keys == Done(d.doc.state)
  }

  /** A state this transfer may write: valid, its own, every completed chunk with its MAC. */
  ghost predicate Sound(j: Job, s: TransferState) {
    && OwnSnapshot(s) && Matches(j, s)
    && s.macs.Keys == Done(s)
    && (forall i :: i in Done(s) ==> 0 <= i < |ChunkPlan(j)|)
  }

  ghost predicate SaveOk(j: Job, d: Disk, s: Session, v: Save) {
    && Sound(j, v.snap) && Done(v.snap) <= Done(s.live)
    && (v.flushed ==> HoldsAll(j, d.dur, Done(v.snap)))
  }

  ghost predicate TaskOk(j: Job, d: Disk, s: Session, i: nat)
    requires i < |s.tasks| && i < |ChunkPlan(j)| && d.vol.Some? && |d.vol.value| == |j.plain|
  {
    var c := ChunkPlan(j)[i];
    match s.tasks[i]
    case Exited => true
    case Waiting => i !in s.live.completed
    case Written => i !in s.live.completed && Holds(j, d.vol, i)
    case Writing(n) =>
      && i !in s.live.completed && n < c.size
      && forall b :: c.offset <= b < c.offset + n && b < |j.plain| ==> d.vol.value[b] == j.plain[b]
  }

  ghost predicate SessionOk(j: Job, d: Disk, s: Session) {
    && d.vol.Some? && |d.vol.value| == |j.plain|
    && Sound(j, s.live) && HoldsAll(j, d.vol, Done(s.live))
    && |s.tasks| == |ChunkPlan(j)|
    && (forall i :: 0 <= i < |s.tasks| ==> TaskOk(j, d, s, i))
    && (forall k :: 0 <= k < |s.saves| ==> SaveOk(j, d, s, s.saves[k]))
    && (d.doc == Absent || (d.doc.Parsed? && Sound(j, d.doc.state) && Done(d.doc.state) <= Done(s.live)))
    && s.bytesDone == SumOver(Sizes(j), Done(s.live))
    && s.chunksDone == SumOver(Ones(j), Done(s.live))
    && (s.phase.Finishing? || s.phase.Returned? ==> forall i :: 0 <= i < |s.tasks| ==> s.tasks[i] == Exited)
    && (s.phase.Finishing? ==> Sound(j, s.phase.committed) && Done(s.phase.committed) <= Done(s.live))
    && (s.phase.Returned? ==> d.vol == Some(j.plain) && Covers(j, s.live))
  }

  ghost predicate Inv(j: Job, y: Sys) {
    && DocBacked(j, y.disk)
    && (y.session.Some? ==> SessionOk(j, y.disk, y.session.value))
  }

  // ---- Local facts

  lemma PlanRanges(j: Job, i: nat)
    requires i < |ChunkPlan(j)|
    ensures WellPlaced(ChunkPlan(j)[i], i, |j.plain|)
  {
    PieceIsWellPlaced(|j.plain|, i);
  }

  /** A worker's write stays inside its own chunk. */
  lemma WriteIsLocal(j: Job, file: Bytes, i: nat, from: nat, to: nat, k: nat)
    requires |file| == |j.plain| && i < |ChunkPlan(j)| && k < |ChunkPlan(j)|
    requires ChunkPlan(j)[i].offset <= from && to <= ChunkPlan(j)[i].End()
    ensures Holds(j, Some(file), k) ==> Holds(j, Some(Patched(file, j.plain, from, to)), k)
  {
    PlanRanges(j, i);
  }

  lemma MixKeeps(j: Job, dur: Option<Bytes>, vol: Option<Bytes>, d: Option<Bytes>, done: set<int>)
    requires Mixed(dur, vol, d) && HoldsAll(j, dur, done) && HoldsAll(j, vol, done)
    ensures HoldsAll(j, d, done)
  {
    forall i | i in done ensures Holds(j, d, i) {
      assert Holds(j, dur, i) && Holds(j, vol, i);
    }
  }

  lemma MarkedDone(s: TransferState, i: int, mac: Option<Bytes>)
    ensures Done(MarkDone(s, i, mac)) == Done(s) + {i}
  {
  }

  lemma SoundMark(j: Job, s: TransferState, i: nat)
    requires WellFormed(j) && Sound(j, s) && i < |ChunkPlan(j)|
    ensures Sound(j, MarkDone(s, i, Some(j.mac(ChunkBytes(j, i)))))
  {
    var mac := Some(j.mac(ChunkBytes(j, i)));
    MarkKeepsValid(s, i, mac);
    MarkedDone(s, i, mac);
  }

  // ---- Every step keeps the invariant

  lemma FreshIsSound(j: Job)
    requires WellFormed(j)
    ensures Sound(j, FreshState(j)) && Done(FreshState(j)) == {}
  {
  }

  lemma StartStep(j: Job, y: Sys, autoResume: bool, y': Sys)
    requires WellFormed(j) && Inv(j, y) && Next(j, y, Start(autoResume), y')
    ensures Inv(j, y')
    ensures Resumes(j, y.disk, autoResume) && y.disk.doc.state.completed != [] ==> y'.disk.vol == y.disk.vol
  {
    FreshIsSound(j);
    var d := y.disk;
    var resume := Resumes(j, d, autoResume);
    var s := Begin(j, d, resume);
    if resume && s.live.completed != [] {
      assert s.live.completed[0] in Done(s.live);
      assert Holds(j, d.vol, s.live.completed[0]);
    }
    assert HoldsAll(j, y'.disk.vol, Done(s.live));
  }

  lemma WriteStep(j: Job, d: Disk, s: Session, i: nat, m: nat, d': Disk, s': Session)
    requires WellFormed(j) && DocBacked(j, d) && SessionOk(j, d, s) && SessionNext(j, d, s, WriteSome(i, m), d', s')
    ensures DocBacked(j, d') && SessionOk(j, d', s')
  {
    var n := if s.tasks[i].Writing? then s.tasks[i].n else 0;
    var c := ChunkPlan(j)[i];
    PlanRanges(j, i);
    assert TaskOk(j, d, s, i);
    forall k | Holds(j, d.vol, k) ensures Holds(j, d'.vol, k) {
      WriteIsLocal(j, d.vol.value, i, c.offset + n, c.offset + n + m, k);
    }
    forall k | 0 <= k < |s'.tasks| ensures TaskOk(j, d', s', k) {
      assert TaskOk(j, d, s, k);
      if k != i && s.tasks[k].Writing? {
        PlanRanges(j, k);
      }
    }
    forall k | 0 <= k < |s'.saves| ensures SaveOk(j, d', s', s'.saves[k]) { assert SaveOk(j, d, s, s.saves[k]); }
  }

  /** Marking a chunk extends the live state soundly and moves both counters by that chunk. */
  lemma MarkAdvances(j: Job, d: Disk, s: Session, i: nat)
    requires WellFormed(j) && SessionOk(j, d, s) && i < |s.tasks| && i < |ChunkPlan(j)| && s.tasks[i].Written?
    ensures var t := Marked(j, s, i);
            && Sound(j, t.live) && Done(t.live) == Done(s.live) + {i as int}
            && t.bytesDone == SumOver(Sizes(j), Done(t.live)) && t.chunksDone == SumOver(Ones(j), Done(t.live))
    ensures Holds(j, d.vol, i)
  {
    assert TaskOk(j, d, s, i);
    var mac := Some(j.mac(ChunkBytes(j, i)));
    SoundMark(j, s.live, i);
    MarkedDone(s.live, i, mac);
    assert Done(Bumped(MarkDone(s.live, i, mac))) == Done(MarkDone(s.live, i, mac));
    SumOverAdd(Sizes(j), Done(s.live), i);
    SumOverAdd(Ones(j), Done(s.live), i);
  }

  lemma MarkTasks(j: Job, d: Disk, s: Session, i: nat, k: nat)
    requires WellFormed(j) && SessionOk(j, d, s) && i < |s.tasks| && s.tasks[i].Written? && k < |s.tasks|
    ensures TaskOk(j, d, Marked(j, s, i), k)
  {
    assert TaskOk(j, d, s, k);
    assert k != i ==> (k in MarkDone(s.live, i, None).completed <==> k in s.live.completed);
  }

  lemma SaveStaysOk(j: Job, d: Disk, s: Session, t: Session, v: Save)
    requires SaveOk(j, d, s, v) && Done(s.live) <= Done(t.live)
    ensures SaveOk(j, d, t, v)
  {
  }

  lemma MarkStep(j: Job, d: Disk, s: Session, i: nat, d': Disk, s': Session)
    requires WellFormed(j) && DocBacked(j, d) && SessionOk(j, d, s) && SessionNext(j, d, s, Action.Mark(i), d', s')
    ensures SessionOk(j, d', s')
  {
    MarkAdvances(j, d, s, i);
    forall k | 0 <= k < |s'.tasks| ensures TaskOk(j, d', s', k) { MarkTasks(j, d, s, i, k); }
    forall k | 0 <= k < |s'.saves| ensures SaveOk(j, d', s', s'.saves[k]) {
      if k < |s.saves| { SaveStaysOk(j, d, s, s', s.saves[k]); }
    }
  }

  lemma CommitStep(j: Job, d: Disk, s: Session, k: nat, d': Disk, s': Session)
    requires WellFormed(j) && DocBacked(j, d) && SessionOk(j, d, s) && SessionNext(j, d, s, Commit(k), d', s')
    ensures DocBacked(j, d') && SessionOk(j, d', s')
  {
    assert SaveOk(j, d, s, s.saves[k]);
    assert HoldsAll(j, d.vol, Done(s.saves[k].snap));
    forall i | 0 <= i < |s'.tasks| ensures TaskOk(j, d', s', i) { assert TaskOk(j, d, s, i); }
    forall i | 0 <= i < |s'.saves| ensures SaveOk(j, d', s', s'.saves[i]) {
      assert SaveOk(j, d, s, s.saves[if i < k then i else i + 1]);
    }
  }

  /** Every chunk marked: the file is the plaintext, byte for byte. */
  lemma CoverageIsCompletion(j: Job, file: Option<Bytes>, s: TransferState)
    requires Covers(j, s) && HoldsAll(j, file, Done(s)) && file.Some? && |file.value| == |j.plain|
    ensures file == Some(j.plain)
  {
    forall b | 0 <= b < |j.plain| ensures file.value[b] == j.plain[b] {
      PlanCoversOnce(|j.plain|, b);
      var k: nat :| k < |ChunkPlan(j)| && Chunks.Holds(ChunkPlan(j)[k], b);
      assert k in s.completed && Holds(j, file, k);
    }
    assert file.value == j.plain;
  }

  lemma FinishStep(j: Job, d: Disk, s: Session, keep: bool, verified: bool, d': Disk, s': Session)
    requires WellFormed(j) && DocBacked(j, d) && SessionOk(j, d, s)
    requires SessionNext(j, d, s, FinalCheck(keep, verified), d', s')
    ensures DocBacked(j, d') && SessionOk(j, d', s')
  {
    forall i | 0 <= i < |s'.tasks| ensures TaskOk(j, d', s', i) { assert TaskOk(j, d, s, i); }
    if s'.phase.Returned? {
      forall i | 0 <= i < |ChunkPlan(j)| ensures i in s.live.completed {
        assert i in Done(s.phase.committed);
      }
      CoverageIsCompletion(j, d.vol, s.live);
    }
  }

  /** Steps that only change flags and tasks, or claim the main thread's snapshot. */
  lemma FlagStep(j: Job, d: Disk, s: Session, a: Action, d': Disk, s': Session)
    requires WellFormed(j) && DocBacked(j, d) && SessionOk(j, d, s) && SessionNext(j, d, s, a, d', s')
    requires a.Leave? || a.Fail? || a.StopRequest? || a.MainError? || a.FinalSnapshot?
    ensures DocBacked(j, d') && SessionOk(j, d', s')
  {
    assert Done(s'.live) == Done(s.live);
    forall i | 0 <= i < |s'.tasks| ensures TaskOk(j, d', s', i) { assert TaskOk(j, d, s, i); }
    forall i | 0 <= i < |s'.saves| ensures SaveOk(j, d', s', s'.saves[i]) {
      if i < |s.saves| { assert SaveOk(j, d, s, s.saves[i]); }
    }
  }

  /** Steps of a save in flight that do not reach the state file. */
  lemma SaveStep(j: Job, d: Disk, s: Session, a: Action, d': Disk, s': Session)
    requires WellFormed(j) && DocBacked(j, d) && SessionOk(j, d, s) && SessionNext(j, d, s, a, d', s')
    requires a.Flush? || a.DropSave? || a.SaveFails?
    ensures DocBacked(j, d') && SessionOk(j, d', s')
  {
    forall i | 0 <= i < |s'.tasks| ensures TaskOk(j, d', s', i) { assert TaskOk(j, d, s, i); }
    forall i | 0 <= i < |s'.saves| ensures SaveOk(j, d', s', s'.saves[i]) {
      assert SaveOk(j, d, s, s.saves[if a.Flush? || i < a.k then i else i + 1]);
    }
  }

  lemma WritebackStep(j: Job, y: Sys, dur: Option<Bytes>, y': Sys)
    requires WellFormed(j) && Inv(j, y) && Next(j, y, Writeback(dur), y')
    ensures Inv(j, y')
  {
    var d := y.disk;
    if d.doc.Parsed? && OwnSnapshot(d.doc.state) && Matches(j, d.doc.state) {
      MixKeeps(j, d.dur, d.vol, dur, Done(d.doc.state));
    }
    if y.session.Some? {
      var s := y.session.value;
      forall k | 0 <= k < |s.saves| ensures SaveOk(j, y'.disk, s, s.saves[k]) {
        assert SaveOk(j, d, s, s.saves[k]);
        if s.saves[k].flushed { MixKeeps(j, d.dur, d.vol, dur, Done(s.saves[k].snap)); }
      }
      forall i | 0 <= i < |s.tasks| ensures TaskOk(j, y'.disk, s, i) { assert TaskOk(j, d, s, i); }
    }
  }

  lemma SessionStep(j: Job, d: Disk, s: Session, a: Action, d': Disk, s': Session)
    requires WellFormed(j) && DocBacked(j, d) && SessionOk(j, d, s) && SessionNext(j, d, s, a, d', s')
    ensures DocBacked(j, d') && SessionOk(j, d', s')
  {
    match a {
      case WriteSome(i, m) => WriteStep(j, d, s, i, m, d', s');
      case Mark(i) => MarkStep(j, d, s, i, d', s');
      case Commit(k) => CommitStep(j, d, s, k, d', s');
      case FinalCheck(keep, v) => FinishStep(j, d, s, keep, v, d', s');
      case Flush(_) => SaveStep(j, d, s, a, d', s');
      case DropSave(_) => SaveStep(j, d, s, a, d', s');
      case SaveFails(_) => SaveStep(j, d, s, a, d', s');
      case _ => FlagStep(j, d, s, a, d', s');
    }
  }

  lemma WithinSessionStep(j: Job, y: Sys, a: Action, y': Sys)
    requires WellFormed(j) && Inv(j, y) && WithinSession(j, y, a, y')
    ensures Inv(j, y')
  {
    SessionStep(j, y.disk, y.session.value, a, y'.disk, y'.session.value);
  }

  /** Steps that start nothing: a refused attempt, the end of one, a crash. */
  lemma IdleStep(j: Job, y: Sys, a: Action, y': Sys)
    requires WellFormed(j) && Inv(j, y) && Next(j, y, a, y')
    requires a.StartRefused? || a.Crash? || a.End?
    ensures Inv(j, y')
  {
  }

  lemma StepKeepsInv(j: Job, y: Sys, a: Action, y': Sys)
    requires WellFormed(j) && Inv(j, y) && Next(j, y, a, y')
    ensures Inv(j, y')
  {
    if a.Start? {
      StartStep(j, y, a.autoResume, y');
    } else if a.StartRefused? || a.Crash? || a.End? {
      IdleStep(j, y, a, y');
    } else if a.Writeback? {
      WritebackStep(j, y, a.dur, y');
    } else {
      WithinSessionStep(j, y, a, y');
    }
  }

  // ---- Whole runs

  /** Any number of download attempts, crashes and background writebacks. */
  datatype Run = Run(states: seq<Sys>, actions: seq<Action>)

  ghost predicate Link(j: Job, r: Run, k: nat)
    requires k < |r.actions| && |r.states| == |r.actions| + 1
  {
    Next(j, r.states[k], r.actions[k], r.states[k + 1])
  }

  /** A run from any disk whose state file does not already vouch for unwritten chunks of this transfer. */
  ghost predicate IsRun(j: Job, r: Run) {
    && WellFormed(j)
    && |r.states| == |r.actions| + 1
    && r.states[0].session == None && DocBacked(j, r.states[0].disk)
    && forall k :: 0 <= k < |r.actions| ==> Link(j, r, k)
  }

  lemma {:induction false} RunKeepsInv(j: Job, r: Run, k: nat)
    requires IsRun(j, r) && k <= |r.actions|
    ensures Inv(j, r.states[k])
  {
    if k > 0 {
      RunKeepsInv(j, r, k - 1);
      assert Link(j, r, k - 1);
      StepKeepsInv(j, r.states[k - 1], r.actions[k - 1], r.states[k]);
    }
  }

  /**
   * Crash consistency. At every moment of every run, a chunk that the state file names for this
   * transfer has its plaintext both in the destination and in what a crash right now would leave.
   */
  lemma NamedChunksAreDurable(j: Job, r: Run, k: nat, i: int)
    requires IsRun(j, r) && k <= |r.actions|
    requires var doc := r.states[k].disk.doc;
             doc.Parsed? && OwnSnapshot(doc.state) && Matches(j, doc.state) && i in doc.state.completed
    ensures Holds(j, r.states[k].disk.dur, i) && Holds(j, r.states[k].disk.vol, i)
  {
    RunKeepsInv(j, r, k);
    assert i in Done(r.states[k].disk.doc.state);
  }

  /** A state file this transfer wrote is never turned away, even right after a crash. */
  lemma ResumeAccepts(j: Job, d: Disk)
    requires DocBacked(j, d) && d.doc.Parsed? && OwnSnapshot(d.doc.state) && Matches(j, d.doc.state)
    ensures Resumes(j, d, true)
  {
    var t := d.doc.state;
    if t.completed != [] {
      assert t.completed[0] in Done(t);
      assert Holds(j, d.vol, t.completed[0]);
      forall i | 0 <= i < |t.completed|
        ensures 0 <= t.completed[i] < |ChunkPlan(j)| && t.completed[i] in t.macs
      {
        assert t.completed[i] in Done(t) && t.completed[i] in t.macs.Keys;
        assert Holds(j, d.vol, t.completed[i]);
      }
    }
  }

  /** The chunks an attempt skips are correct in the destination it starts from. */
  lemma SkippedChunksAreCorrect(j: Job, y: Sys, autoResume: bool, y': Sys, i: nat)
    requires WellFormed(j) && Inv(j, y) && Next(j, y, Start(autoResume), y')
    requires i < |y'.session.value.tasks| && y'.session.value.tasks[i] == Exited
    ensures Holds(j, y'.disk.vol, i)
  {
    StartStep(j, y, autoResume, y');
    var s := y'.session.value;
    assert i in s.live.completed;
    assert i in Done(s.live);
  }

  /**
   * Resume. An attempt with resume on takes up exactly the state the file holds for this transfer;
   * it skips only chunks that are correct in the destination, which it does not truncate.
   */
  lemma ResumeIsSafeAndComplete(j: Job, r: Run, k: nat, autoResume: bool)
    requires IsRun(j, r) && k < |r.actions| && r.actions[k] == Start(autoResume)
    ensures r.states[k + 1].session.Some?
    ensures var d, y' := r.states[k].disk, r.states[k + 1];
            autoResume && d.doc.Parsed? && OwnSnapshot(d.doc.state) && Matches(j, d.doc.state) ==>
              && y'.session.value.live == d.doc.state && y'.disk.doc == d.doc
              && (d.doc.state.completed != [] ==> y'.disk.vol == d.vol)
    ensures var y' := r.states[k + 1];
            forall i :: 0 <= i < |y'.session.value.tasks| && y'.session.value.tasks[i] == Exited ==> Holds(j, y'.disk.vol, i)
  {
    RunKeepsInv(j, r, k);
    assert Link(j, r, k);
    var d, y' := r.states[k].disk, r.states[k + 1];
    forall i | 0 <= i < |y'.session.value.tasks| && y'.session.value.tasks[i] == Exited ensures Holds(j, y'.disk.vol, i) {
      SkippedChunksAreCorrect(j, r.states[k], autoResume, y', i);
    }
    if autoResume && d.doc.Parsed? && OwnSnapshot(d.doc.state) && Matches(j, d.doc.state) {
      ResumeAccepts(j, d);
      StartStep(j, r.states[k], autoResume, y');
    }
  }

  /** A download result is returned only when every chunk is committed and the file is the plaintext. */
  lemma ResultMeansComplete(j: Job, r: Run, k: nat)
    requires IsRun(j, r) && k <= |r.actions|
    requires r.states[k].session.Some? && r.states[k].session.value.phase.Returned?
    ensures r.states[k].disk.vol == Some(j.plain)
    ensures Covers(j, r.states[k].session.value.live)
  {
    RunKeepsInv(j, r, k);
  }

  /** The progress counters are the sum and the number of the committed chunks, whatever was retried. */
  lemma CountersMatchCommitted(j: Job, r: Run, k: nat)
    requires IsRun(j, r) && k <= |r.actions| && r.states[k].session.Some?
    ensures var s := r.states[k].session.value;
            s.bytesDone == SumOver(Sizes(j), Done(s.live)) && s.chunksDone == SumOver(Ones(j), Done(s.live))
  {
    RunKeepsInv(j, r, k);
  }
}
