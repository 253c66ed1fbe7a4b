/**
 * A resumable upload (core/uploader.py, core/upload_transport.py, core/upload_identity.py): chunk
 * workers, slot refresh, saves in flight, a source file that may change, crashes, and the endpoint.
 */
module UploadMachine {
  import opened Basics
  import opened Chunks
  import opened StateStore

  const SOURCE_IDENTITY_VERSION := 2

  // ---- Source identity

  predicate Truthy(o: Option<string>) { o.Some? && o.value != "" }

  /** `identities_match`. */
  predicate IdentitiesMatch(recorded: Option<Identity>, current: Identity) {
    && recorded.Some?
    && var r := recorded.value;
       && r.version == SOURCE_IDENTITY_VERSION
       && r.path == current.path && r.size == current.size && r.mtime == current.mtime && r.sha256 == current.sha256
       && !(Truthy(r.fileId) && Truthy(current.fileId) && r.fileId != current.fileId)
  }

  /** The source as it is on disk right now. */
  datatype File = File(content: Bytes, mtime: int, fileId: Option<string>)

  /** What stays fixed: where the source is, how it is hashed, and how a chunk is MACed. */
  datatype Job = Job(path: string, statePath: string, sha256: Bytes -> string, mac: (Bytes, Bytes, Bytes) -> Bytes)

  ghost predicate WellFormed(j: Job) {
    forall k: Bytes, n: Bytes, x: Bytes :: |j.mac(k, n, x)| == MAC_BYTE_LENGTH
  }

  function IdentityOf(j: Job, f: File): Identity {
    Identity(SOURCE_IDENTITY_VERSION, j.path, |f.content|, f.mtime, j.sha256(f.content), f.fileId)
  }

  /** `is_resumable_upload_state`. */
  predicate IsResumable(j: Job, s: TransferState, size: nat, identity: Identity) {
    && s.transferType == "upload" && s.totalSize == size && s.source == j.path
    && IdentitiesMatch(s.metadata.sourceIdentity, identity)
  }

  /** A state the upload can be continued from: resumable, with its key, nonce and endpoint recorded. */
  predicate Usable(j: Job, s: TransferState, size: nat, identity: Identity) {
    IsResumable(j, s, size, identity) && s.metadata.aesKey.Some? && s.metadata.nonce.Some? && s.metadata.uploadUrl.Some?
  }

  // ---- State

  /** One chunk's worker: not posting, plaintext read, posted and answered by nobody yet, or gone. */
  datatype Task = Idle | Read(data: Bytes) | Posted(data: Bytes) | Exited

  datatype Phase = Running | Finishing | Registered(token: Bytes, macs: seq<Bytes>, identity: Identity) | Raised

  datatype Session = Session(
    startIdentity: Identity, live: TransferState, slot: Url, token: Option<Bytes>,
    tasks: seq<Task>, saves: seq<TransferState>, chunksDone: int,
    stop: bool, failed: bool, expired: bool, refreshed: bool, phase: Phase)

  /**
   * The source, the state file, and the endpoint: slots handed out, the last body received for each
   * chunk of a slot, and the completion tokens answered.
   */
  datatype Sys = Sys(
    file: File, doc: StateDoc, slots: set<Url>, received: map<(Url, nat), Bytes>, tokens: set<(Url, nat, Bytes)>,
    session: Option<Session>)

  datatype Action =
    | Start(size: nat, url: Url, aesKey: Bytes, nonce: Bytes, autoResume: bool)
    | ReadChunk(i: nat) | Post(i: nat) | Retry(i: nat) | Answer(i: nat, body: Bytes)
    | Leave(i: nat) | Fail(i: nat) | Expire(i: nat)
    | Commit(k: nat) | DropSave(k: nat)
    | StopRequest | MainError | Refresh(url: Url) | ExpiredAgain | PoolDone | Abandon(clear: bool) | Register
    | End | Crash | ChangeSource(file: File)

  function ChunkPlan(s: TransferState): seq<Chunk> { Plan(s.totalSize) }

  function Done(s: TransferState): set<int> { ToSet(s.completed) }

  function Without<T>(s: seq<T>, k: nat): seq<T>
    requires k < |s|
  {
    s[..k] + s[k + 1..]
  }

  function FreshState(j: Job, size: nat, url: Url, aesKey: Bytes, nonce: Bytes, identity: Identity): TransferState {
    TransferState("upload", j.path, j.statePath, size, STATE_FORMAT_VERSION, [], map[],
                  Metadata(Some(aesKey), Some(nonce), Some(url), None, Some(identity)), 0)
  }

  function PendingTasks(s: TransferState): seq<Task> {
    seq(|ChunkPlan(s)|, i => if i in s.completed then Exited else Idle)
  }

  function Begin(s: TransferState, slot: Url, identity: Identity): Session {
    Session(identity, s, slot, s.metadata.completionToken, PendingTasks(s), [], |s.completed|,
            false, false, false, false, Running)
  }

  predicate Quiet(s: Session) {
    (forall i :: 0 <= i < |s.tasks| ==> s.tasks[i] == Exited) && s.saves == []
  }

  function ChunkMac(j: Job, s: TransferState, data: Bytes): Bytes
    requires s.metadata.aesKey.Some? && s.metadata.nonce.Some?
  {
    j.mac(s.metadata.aesKey.value, s.metadata.nonce.value, data)
  }

  /** The worker's locked section after a well-formed answer. */
  function Acknowledged(j: Job, s: Session, i: nat, data: Bytes, body: Bytes): Session
    requires i < |s.tasks| && s.live.metadata.aesKey.Some? && s.live.metadata.nonce.Some?
  {
    var marked := MarkDone(s.live, i, Some(ChunkMac(j, s.live, data)));
    var takes := body != [] && s.token == None;
    var live := if takes then marked.(metadata := marked.metadata.(completionToken := Some(body))) else marked;
    var chunks := s.chunksDone + 1;
    var t := s.(tasks := s.tasks[i := Exited], chunksDone := chunks, token := if takes then Some(body) else s.token);
    if chunks % 8 == 0 || body != []
    then t.(live := Bumped(live), saves := s.saves + [Bumped(live)])
    else t.(live := live)
  }

  /** The MACs the file key is built from, if every chunk has one. */
  function CollectMacs(s: TransferState, n: nat): Option<seq<Bytes>> {
    if n == 0 then Some([])
    else match CollectMacs(s, n - 1)
      case None => None
      case Some(ms) => if n - 1 in s.macs then Some(ms + [s.macs[n - 1]]) else None
  }

  // ---- Transitions

  /** A state of another format version is neither loaded nor cleared: the upload refuses. */
  predicate ForeignVersion(d: StateDoc) { d.Parsed? && d.state.formatVersion != STATE_FORMAT_VERSION }

  ghost predicate Resumes(j: Job, d: StateDoc, size: nat, identity: Identity, autoResume: bool) {
    autoResume && d.Parsed? && OwnSnapshot(d.state) && Usable(j, d.state, size, identity)
  }

  ghost predicate Next(j: Job, y: Sys, a: Action, y': Sys) {
    match a
    case Start(size, url, aesKey, nonce, autoResume) =>
      var identity := IdentityOf(j, y.file);
      && y.session == None && !ForeignVersion(y.doc) && size > 0
      && (if Resumes(j, y.doc, size, identity, autoResume)
          then y' == y.(session := Some(Begin(y.doc.state, y.doc.state.metadata.uploadUrl.value, identity)))
          else && url !in y.slots && url.trusted && |aesKey| == 16 && |nonce| == 8
               && y' == y.(doc := Cleared(y.doc), slots := y.slots + {url},
                           session := Some(Begin(FreshState(j, size, url, aesKey, nonce, identity), url, identity))))
    case Crash => y' == y.(session := None)
    case ChangeSource(f) => y' == y.(file := f)
    case End =>
      && y.session.Some? && Quiet(y.session.value) && (y.session.value.phase.Registered? || y.session.value.phase.Raised?)
      && y' == y.(session := None)
    case _ => y.session.Some? && SessionNext(j, y, y.session.value, a, y')
  }

  /** HTTP 200 with a token exactly from the chunk carrying the last byte; any other answer fails the worker. */
  predicate WellFormedAnswer(s: Session, i: nat, body: Bytes) {
    && i < |s.tasks| && i < |ChunkPlan(s.live)| && s.tasks[i].Posted?
    && s.live.metadata.aesKey.Some? && s.live.metadata.nonce.Some?
    && |body| <= 4096 && (body != [] <==> IsFinalChunk(ChunkPlan(s.live)[i], s.live.totalSize))
  }

  function Answered(j: Job, y: Sys, s: Session, i: nat, body: Bytes): Sys
    requires WellFormedAnswer(s, i, body)
  {
    y.(tokens := if body != [] then y.tokens + {(s.slot, i, body)} else y.tokens,
       session := Some(Acknowledged(j, s, i, s.tasks[i].data, body)))
  }

  function WithTask(s: Session, i: nat, t: Task): Session
    requires i < |s.tasks|
  {
    s.(tasks := s.tasks[i := t])
  }

  ghost predicate SessionNext(j: Job, y: Sys, s: Session, a: Action, y': Sys) {
    match a
    case ReadChunk(i) =>
      && i < |s.tasks| && i < |ChunkPlan(s.live)| && s.tasks[i].Idle?
      && ChunkPlan(s.live)[i].End() <= |y.file.content|
      && y' == y.(session := Some(WithTask(s, i, Read(y.file.content[ChunkPlan(s.live)[i].offset..ChunkPlan(s.live)[i].End()]))))
    case Post(i) =>
      && i < |s.tasks| && s.tasks[i].Read?
      && y' == y.(received := y.received[(s.slot, i) := s.tasks[i].data],
                  session := Some(WithTask(s, i, Posted(s.tasks[i].data))))
    case Retry(i) =>
      // A network fault or a 5xx, before or after the endpoint took the body.
      && i < |s.tasks| && (s.tasks[i].Read? || s.tasks[i].Posted?)
      && y' == y.(session := Some(WithTask(s, i, Idle)))
    case Answer(i, body) =>
      WellFormedAnswer(s, i, body) && y' == Answered(j, y, s, i, body)
    case Leave(i) =>
      i < |s.tasks| && s.tasks[i].Idle? && s.stop && y' == y.(session := Some(WithTask(s, i, Exited)))
    case Fail(i) =>
      i < |s.tasks| && s.tasks[i] != Exited && y' == y.(session := Some(WithTask(s, i, Exited).(failed := true)))
    case Expire(i) =>
      // The main loop sets the stop event when it sees the expiry.
      && i < |s.tasks| && s.tasks[i].Read?
      && y' == y.(session := Some(WithTask(s, i, Exited).(expired := true, stop := true)))
    case Commit(k) =>
      && k < |s.saves|
      && y' == y.(doc := Committed(y.doc, s.saves[k]), session := Some(s.(saves := Without(s.saves, k))))
    case DropSave(k) => k < |s.saves| && y' == y.(session := Some(s.(saves := Without(s.saves, k))))
    case StopRequest => y' == y.(session := Some(s.(stop := true)))
    case MainError =>
      && s.phase.Running? && s.failed
      && y' == y.(session := Some(s.(stop := true, phase := Raised, live := Bumped(s.live), saves := s.saves + [Bumped(s.live)])))
    case Refresh(url) =>
      // Every worker has exited when the main loop reacts.
      && s.phase.Running? && s.expired && !s.refreshed && Quiet(s) && url !in y.slots && url.trusted
      && var live := Bumped(Refreshed(s.live, url));
         y' == y.(slots := y.slots + {url},
                  session := Some(s.(live := live, slot := url, token := None, tasks := PendingTasks(live), saves := [live],
                                     chunksDone := 0, stop := false, failed := false, expired := false, refreshed := true)))
    case ExpiredAgain =>
      && s.phase.Running? && s.expired && s.refreshed && Quiet(s)
      && y' == y.(session := Some(s.(phase := Raised, live := Bumped(s.live), saves := [Bumped(s.live)])))
    case PoolDone =>
      s.phase.Running? && !s.failed && !s.expired && Quiet(s) && y' == y.(session := Some(s.(phase := Finishing)))
    case Abandon(clear) =>
      // No token, source gone or changed, or a chunk without MAC.
      && s.phase.Finishing?
      && y' == y.(doc := if clear then Cleared(y.doc) else y.doc, session := Some(s.(phase := Raised)))
    case Register =>
      // The checks before `_register_node`.
      && s.phase.Finishing? && s.token.Some?
      && var identity := IdentityOf(j, y.file);
         && IdentitiesMatch(Some(s.startIdentity), identity)
         && var macs := CollectMacs(s.live, |ChunkPlan(s.live)|);
            && macs.Some?
            && y' == y.(session := Some(s.(phase := Registered(s.token.value, macs.value, identity))))
    case _ => false
  }

  // ---- Invariant

  /**
   * What a state claims about its slot is true: each MAC is that of the body the slot last received
   * for the chunk, and the token was answered by the slot to the last chunk.
   */
  ghost predicate Sound(j: Job, y: Sys, s: TransferState) {
    && OwnSnapshot(s) && s.totalSize > 0
    && s.metadata.aesKey.Some? && s.metadata.nonce.Some? && s.metadata.uploadUrl.Some?
    && s.metadata.uploadUrl.value in y.slots
    && s.macs.Keys == Done(s)
    && (forall i :: i in s.macs ==>
          && 0 <= i < |ChunkPlan(s)| && (s.metadata.uploadUrl.value, i) in y.received
          && s.macs[i] == ChunkMac(j, s, y.received[(s.metadata.uploadUrl.value, i)]))
    && (s.metadata.completionToken.Some? ==>
          |ChunkPlan(s)| > 0 &&
          (s.metadata.uploadUrl.value, |ChunkPlan(s)| - 1, s.metadata.completionToken.value) in y.tokens)
  }

  /** A copy of the live state: sound, and within the live progress when it is of the current slot. */
  ghost predicate CopyOk(j: Job, y: Sys, s: Session, v: TransferState) {
    && Sound(j, y, v)
    && (v.metadata.uploadUrl == Some(s.slot) ==> v.macs.Keys <= s.live.macs.Keys)
  }

  ghost predicate TaskOk(y: Sys, s: Session, i: nat)
    requires i < |s.tasks|
  {
    && (s.tasks[i] != Exited ==> i !in s.live.macs)
    && (s.tasks[i].Posted? ==> (s.slot, i) in y.received && y.received[(s.slot, i)] == s.tasks[i].data)
  }

  ghost predicate SessionOk(j: Job, y: Sys, s: Session) {
    && Sound(j, y, s.live) && s.live.metadata.uploadUrl == Some(s.slot)
    && s.token == s.live.metadata.completionToken
    && |s.tasks| == |ChunkPlan(s.live)|
    && (forall i :: 0 <= i < |s.tasks| ==> TaskOk(y, s, i))
    && (forall k :: 0 <= k < |s.saves| ==> CopyOk(j, y, s, s.saves[k]))
    && (y.doc == Absent || (y.doc.Parsed? && CopyOk(j, y, s, y.doc.state)))
    && (s.phase.Registered? ==> RegistrationOk(j, y, s))
  }

  /** What must be true of a registered upload. */
  ghost predicate RegistrationOk(j: Job, y: Sys, s: Session) {
    && s.phase.Registered?
    && s.live.metadata.aesKey.Some? && s.live.metadata.nonce.Some?
    && var n := |ChunkPlan(s.live)|;
       && n > 0 && |s.phase.macs| == n
       && (forall i :: 0 <= i < n ==>
             (s.slot, i) in y.received && s.phase.macs[i] == ChunkMac(j, s.live, y.received[(s.slot, i)]))
       && IsFinalChunk(ChunkPlan(s.live)[n - 1], s.live.totalSize)
       && (s.slot, n - 1, s.phase.token) in y.tokens
       && IdentitiesMatch(Some(s.startIdentity), s.phase.identity)
       && (forall i :: 0 <= i < |s.tasks| ==> s.tasks[i] == Exited)
  }

  /** A state file this upload could resume from is sound. */
  ghost predicate DocOk(j: Job, y: Sys) {
    y.doc.Parsed? && OwnSnapshot(y.doc.state) && y.doc.state.transferType == "upload" ==> Sound(j, y, y.doc.state)
  }

  ghost predicate Inv(j: Job, y: Sys) {
    && DocOk(j, y)
    && (y.session.Some? ==> SessionOk(j, y, y.session.value))
  }

  // ---- Steps keep the invariant

  /** Soundness survives growth of the endpoint's record away from the state's own chunks. */
  lemma SoundStays(j: Job, y: Sys, y': Sys, s: TransferState)
    requires Sound(j, y, s)
    requires y.slots <= y'.slots && y.tokens <= y'.tokens
    requires forall i :: i in s.macs && i >= 0 && (s.metadata.uploadUrl.value, i) in y.received ==>
               (s.metadata.uploadUrl.value, i) in y'.received &&
               y'.received[(s.metadata.uploadUrl.value, i)] == y.received[(s.metadata.uploadUrl.value, i)]
    ensures Sound(j, y', s)
  {
  }

  /** So does a copy, while the slot stays and the live progress only grows. */
  lemma CopyStays(j: Job, y: Sys, s: Session, y': Sys, t: Session, v: TransferState)
    requires CopyOk(j, y, s, v)
    requires y.slots <= y'.slots && y.tokens <= y'.tokens
    requires t.slot == s.slot && s.live.macs.Keys <= t.live.macs.Keys
    requires forall u, i :: (u, i) in y.received && (u != s.slot || i in s.live.macs) ==>
               (u, i) in y'.received && y'.received[(u, i)] == y.received[(u, i)]
    ensures CopyOk(j, y', t, v)
  {
    SoundStays(j, y, y', v);
  }

  /** The saves in flight and the state file stay consistent when a session moves on within its slot. */
  lemma Carry(j: Job, y: Sys, s: Session, y': Sys, t: Session)
    requires Inv(j, y) && y.session == Some(s)
    requires y.slots <= y'.slots && y.tokens <= y'.tokens
    requires t.slot == s.slot && s.live.macs.Keys <= t.live.macs.Keys
    requires forall u, i :: (u, i) in y.received && (u != s.slot || i in s.live.macs) ==>
               (u, i) in y'.received && y'.received[(u, i)] == y.received[(u, i)]
    ensures forall k :: 0 <= k < |s.saves| ==> CopyOk(j, y', t, s.saves[k])
    ensures y.doc == Absent || (y.doc.Parsed? && CopyOk(j, y', t, y.doc.state))
  {
    forall k | 0 <= k < |s.saves| ensures CopyOk(j, y', t, s.saves[k]) { CopyStays(j, y, s, y', t, s.saves[k]); }
    if y.doc.Parsed? { CopyStays(j, y, s, y', t, y.doc.state); }
  }

  lemma PostStep(j: Job, y: Sys, s: Session, i: nat, y': Sys)
    requires WellFormed(j) && Inv(j, y) && y.session == Some(s) && SessionNext(j, y, s, Post(i), y')
    ensures Inv(j, y')
  {
    var t := y'.session.value;
    assert TaskOk(y, s, i);
    SoundStays(j, y, y', s.live);
    forall k | 0 <= k < |t.tasks| ensures TaskOk(y', t, k) { assert TaskOk(y, s, k); }
    Carry(j, y, s, y', t);
  }

  lemma CollectedMacs(s: TransferState, n: nat)
    requires CollectMacs(s, n).Some?
    ensures |CollectMacs(s, n).value| == n
    ensures forall i :: 0 <= i < n ==> i in s.macs && CollectMacs(s, n).value[i] == s.macs[i]
  {
  }

  lemma MarkedIsSound(j: Job, y: Sys, s: TransferState, i: nat, data: Bytes)
    requires WellFormed(j) && Sound(j, y, s) && i < |ChunkPlan(s)|
    requires (s.metadata.uploadUrl.value, i) in y.received && y.received[(s.metadata.uploadUrl.value, i)] == data
    ensures var m := MarkDone(s, i, Some(ChunkMac(j, s, data)));
            Sound(j, y, m) && m.macs.Keys == s.macs.Keys + {i as int} && m.metadata == s.metadata
  {
    var mac := ChunkMac(j, s, data);
    MarkKeepsValid(s, i, Some(mac));
    var m := MarkDone(s, i, Some(mac));
    assert Done(m) == Done(s) + {i as int};
  }

  lemma TokenIsSound(j: Job, y: Sys, s: TransferState, body: Bytes)
    requires Sound(j, y, s) && 0 < |body| <= 4096 && |ChunkPlan(s)| > 0
    requires (s.metadata.uploadUrl.value, |ChunkPlan(s)| - 1, body) in y.tokens
    ensures Sound(j, y, s.(metadata := s.metadata.(completionToken := Some(body))))
  {
    var t := s.(metadata := s.metadata.(completionToken := Some(body)));
    assert Done(t) == Done(s);
  }

  lemma BumpedIsSound(j: Job, y: Sys, s: TransferState)
    requires Sound(j, y, s)
    ensures Sound(j, y, Bumped(s))
  {
    assert Done(Bumped(s)) == Done(s);
  }

  /** An acknowledged chunk extends the live state soundly. */
  lemma AcknowledgedIsSound(j: Job, y: Sys, s: Session, i: nat, body: Bytes)
    requires WellFormed(j) && SessionOk(j, y, s) && WellFormedAnswer(s, i, body)
    ensures var t := Acknowledged(j, s, i, s.tasks[i].data, body);
            && Sound(j, Answered(j, y, s, i, body), t.live) && t.live.macs.Keys == s.live.macs.Keys + {i as int}
            && t.live.metadata.uploadUrl == Some(s.slot) && t.token == t.live.metadata.completionToken
  {
    assert TaskOk(y, s, i);
    var y' := Answered(j, y, s, i, body);
    var data := s.tasks[i].data;
    SoundStays(j, y, y', s.live);
    MarkedIsSound(j, y', s.live, i, data);
    var marked := MarkDone(s.live, i, Some(ChunkMac(j, s.live, data)));
    if body != [] && s.token == None {
      FinalChunkIsLast(s.live.totalSize, i);
      TokenIsSound(j, y', marked, body);
      BumpedIsSound(j, y', marked.(metadata := marked.metadata.(completionToken := Some(body))));
    } else {
      BumpedIsSound(j, y', marked);
    }
  }

  lemma AnswerTasks(j: Job, y: Sys, s: Session, i: nat, body: Bytes, k: nat)
    requires WellFormed(j) && WellFormedAnswer(s, i, body) && k < |s.tasks| && TaskOk(y, s, k)
    ensures TaskOk(Answered(j, y, s, i, body), Acknowledged(j, s, i, s.tasks[i].data, body), k)
  {
  }

  lemma AnswerSaves(j: Job, y: Sys, s: Session, i: nat, body: Bytes)
    requires WellFormed(j) && Inv(j, y) && y.session == Some(s) && WellFormedAnswer(s, i, body)
    ensures var y' := Answered(j, y, s, i, body);
      && (forall k :: 0 <= k < |y'.session.value.saves| ==> CopyOk(j, y', y'.session.value, y'.session.value.saves[k]))
      && (y'.doc == Absent || (y'.doc.Parsed? && CopyOk(j, y', y'.session.value, y'.doc.state)))
  {
    var y' := Answered(j, y, s, i, body);
    var t := y'.session.value;
    AcknowledgedIsSound(j, y, s, i, body);
    Carry(j, y, s, y', t);
    forall k | 0 <= k < |t.saves| ensures CopyOk(j, y', t, t.saves[k]) {
      assert t.saves[k] == if k < |s.saves| then s.saves[k] else t.live;
    }
  }

  lemma AnswerStep(j: Job, y: Sys, s: Session, i: nat, body: Bytes)
    requires WellFormed(j) && Inv(j, y) && y.session == Some(s) && WellFormedAnswer(s, i, body)
    ensures Inv(j, Answered(j, y, s, i, body))
  {
    var y' := Answered(j, y, s, i, body);
    var t := y'.session.value;
    AcknowledgedIsSound(j, y, s, i, body);
    AnswerSaves(j, y, s, i, body);
    forall k | 0 <= k < |t.tasks| ensures TaskOk(y', t, k) {
      assert TaskOk(y, s, k);
      AnswerTasks(j, y, s, i, body, k);
    }
  }

  lemma RefreshStep(j: Job, y: Sys, s: Session, url: Url, y': Sys)
    requires WellFormed(j) && Inv(j, y) && y.session == Some(s) && SessionNext(j, y, s, Action.Refresh(url), y')
    ensures Inv(j, y')
  {
    var t := y'.session.value;
    assert Done(t.live) == {};
    if y.doc.Parsed? { SoundStays(j, y, y', y.doc.state); }
    forall k | 0 <= k < |t.saves| ensures CopyOk(j, y', t, t.saves[k]) { assert t.saves[k] == t.live; }
  }

  lemma RegisterStep(j: Job, y: Sys, s: Session, y': Sys)
    requires WellFormed(j) && Inv(j, y) && y.session == Some(s) && SessionNext(j, y, s, Register, y')
    ensures Inv(j, y')
  {
    var t := y'.session.value;
    var n := |ChunkPlan(s.live)|;
    CollectedMacs(s.live, n);
    PlanEnds(s.live.totalSize);
    FinalChunkIsLast(s.live.totalSize, n - 1);
    forall i | 0 <= i < |s.tasks| ensures s.tasks[i] == Exited {
      assert TaskOk(y, s, i) && i in s.live.macs;
    }
    forall k | 0 <= k < |t.tasks| ensures TaskOk(y', t, k) { assert TaskOk(y, s, k); }
    SoundStays(j, y, y', s.live);
    Carry(j, y, s, y', t);
  }

  /** Steps of one worker before its answer. */
  lemma TaskStep(j: Job, y: Sys, s: Session, a: Action, y': Sys)
    requires WellFormed(j) && Inv(j, y) && y.session == Some(s) && SessionNext(j, y, s, a, y')
    requires a.ReadChunk? || a.Retry? || a.Leave? || a.Fail? || a.Expire?
    ensures Inv(j, y')
  {
    var t := y'.session.value;
    SoundStays(j, y, y', s.live);
    forall k | 0 <= k < |t.tasks| ensures TaskOk(y', t, k) { assert TaskOk(y, s, k); }
    Carry(j, y, s, y', t);
  }

  /** Steps of the main thread that only move its phase, or drop the state file. */
  lemma PhaseStep(j: Job, y: Sys, s: Session, a: Action, y': Sys)
    requires WellFormed(j) && Inv(j, y) && y.session == Some(s) && SessionNext(j, y, s, a, y')
    requires a.StopRequest? || a.PoolDone? || a.Abandon?
    ensures Inv(j, y')
  {
    var t := y'.session.value;
    SoundStays(j, y, y', s.live);
    forall k | 0 <= k < |t.tasks| ensures TaskOk(y', t, k) { assert TaskOk(y, s, k); }
    Carry(j, y, s, y', t);
  }

  /** A save in flight reaches the state file, or gives up. */
  lemma SaveStep(j: Job, y: Sys, s: Session, k: nat, doc: StateDoc, y': Sys)
    requires WellFormed(j) && Inv(j, y) && y.session == Some(s) && k < |s.saves|
    requires doc == y.doc || doc == Committed(y.doc, s.saves[k])
    requires y' == y.(doc := doc, session := Some(s.(saves := Without(s.saves, k))))
    ensures Inv(j, y')
  {
    var t := y'.session.value;
    SoundStays(j, y, y', s.live);
    forall i | 0 <= i < |t.tasks| ensures TaskOk(y', t, i) { assert TaskOk(y, s, i); }
    Carry(j, y, s, y', t);
    assert forall i :: 0 <= i < |t.saves| ==> t.saves[i] == s.saves[if i < k then i else i + 1];
  }

  /** The main thread gives up: it claims one more snapshot. */
  lemma ErrorStep(j: Job, y: Sys, s: Session, a: Action, y': Sys)
    requires WellFormed(j) && Inv(j, y) && y.session == Some(s) && SessionNext(j, y, s, a, y')
    requires a.MainError? || a.ExpiredAgain?
    ensures Inv(j, y')
  {
    var t := y'.session.value;
    SoundStays(j, y, y', s.live);
    BumpedIsSound(j, y', s.live);
    forall k | 0 <= k < |t.tasks| ensures TaskOk(y', t, k) { assert TaskOk(y, s, k); }
    Carry(j, y, s, y', t);
  }

  lemma StartStep(j: Job, y: Sys, a: Action, y': Sys)
    requires WellFormed(j) && Inv(j, y) && a.Start? && Next(j, y, a, y')
    ensures Inv(j, y')
  {
    var t := y'.session.value;
    if !Resumes(j, y.doc, a.size, IdentityOf(j, y.file), a.autoResume) {
      assert Done(t.live) == {};
    }
    forall k | 0 <= k < |t.tasks| ensures TaskOk(y', t, k) {
      if t.tasks[k] != Exited { assert k !in Done(t.live); }
    }
  }

  lemma OutsideStep(j: Job, y: Sys, a: Action, y': Sys)
    requires WellFormed(j) && Inv(j, y) && Next(j, y, a, y')
    requires a.Crash? || a.End? || a.ChangeSource?
    ensures Inv(j, y')
  {
    if y'.session.Some? {
      var s := y.session.value;
      forall k | 0 <= k < |s.tasks| ensures TaskOk(y', s, k) { assert TaskOk(y, s, k); }
      forall k | 0 <= k < |s.saves| ensures CopyOk(j, y', s, s.saves[k]) {
        assert CopyOk(j, y, s, s.saves[k]);
        SoundStays(j, y, y', s.saves[k]);
      }
      SoundStays(j, y, y', s.live);
    }
    if y.doc.Parsed? && Sound(j, y, y.doc.state) { SoundStays(j, y, y', y.doc.state); }
  }

  /** Steps that a chunk's worker takes. */
  predicate OfWorker(a: Action) {
    a.ReadChunk? || a.Post? || a.Retry? || a.Answer? || a.Leave? || a.Fail? || a.Expire?
  }

  lemma WorkerStep(j: Job, y: Sys, a: Action, y': Sys)
    requires WellFormed(j) && Inv(j, y) && Next(j, y, a, y') && OfWorker(a)
    ensures Inv(j, y')
  {
    var s := y.session.value;
    if a.Post? {
      PostStep(j, y, s, a.i, y');
    } else if a.Answer? {
      AnswerStep(j, y, s, a.i, a.body);
    } else {
      TaskStep(j, y, s, a, y');
    }
  }

  /** Steps of the main thread and of saves in flight, within a session. */
  lemma MainStep(j: Job, y: Sys, a: Action, y': Sys)
    requires WellFormed(j) && Inv(j, y) && y.session.Some? && SessionNext(j, y, y.session.value, a, y') && !OfWorker(a)
    ensures Inv(j, y')
  {
    var s := y.session.value;
    if a.Refresh? {
      RefreshStep(j, y, s, a.url, y');
    } else if a.Register? {
      RegisterStep(j, y, s, y');
    } else if a.Commit? || a.DropSave? {
      SaveStep(j, y, s, a.k, y'.doc, y');
    } else if a.MainError? || a.ExpiredAgain? {
      ErrorStep(j, y, s, a, y');
    } else {
      PhaseStep(j, y, s, a, y');
    }
  }

  lemma StepKeepsInv(j: Job, y: Sys, a: Action, y': Sys)
    requires WellFormed(j) && Inv(j, y) && Next(j, y, a, y')
    ensures Inv(j, y')
  {
    if a.Start? {
      StartStep(j, y, a, y');
    } else if a.Crash? || a.End? || a.ChangeSource? {
      OutsideStep(j, y, a, y');
    } else if OfWorker(a) {
      WorkerStep(j, y, a, y');
    } else {
      MainStep(j, y, a, y');
    }
  }

  // ---- Whole runs

  datatype Run = Run(states: seq<Sys>, actions: seq<Action>)

  ghost predicate Link(j: Job, r: Run, k: nat)
    requires k < |r.actions| && |r.states| == |r.actions| + 1
  {
    Next(j, r.states[k], r.actions[k], r.states[k + 1])
  }

  ghost predicate IsRun(j: Job, r: Run) {
    && WellFormed(j)
    && |r.states| == |r.actions| + 1
    && r.states[0].session == None && DocOk(j, r.states[0])
    && forall k :: 0 <= k < |r.actions| ==> Link(j, r, k)
  }

  lemma {:induction false} RunKeepsInv(j: Job, r: Run, k: nat)
    requires IsRun(j, r) && k <= |r.actions|
    ensures Inv(j, r.states[k])
  {
    if k > 0 {
      RunKeepsInv(j, r, k - 1);
      assert Link(j, r, k - 1);
      StepKeepsInv(j, r.states[k - 1], r.actions[k - 1], r.states[k]);
    }
  }

  /**
   * Registration safety. In every run, whatever was resumed, expired, refreshed, retried or crashed,
   * a node is registered only with one MAC per chunk, each that of the body the current slot holds
   * for the chunk, with a token that slot answered to the chunk carrying the last byte, and while
   * the source still has the identity it had at the start.
   */
  lemma RegistrationIsSafe(j: Job, r: Run, k: nat)
    requires IsRun(j, r) && k <= |r.actions|
    requires r.states[k].session.Some? && r.states[k].session.value.phase.Registered?
    ensures RegistrationOk(j, r.states[k], r.states[k].session.value)
  {
    RunKeepsInv(j, r, k);
  }

  /** A resume never mixes slots: the state it takes up describes the very slot it posts to. */
  lemma ResumedStateIsSound(j: Job, r: Run, k: nat)
    requires IsRun(j, r) && k <= |r.actions| && r.states[k].session.Some?
    ensures var s := r.states[k].session.value;
            Sound(j, r.states[k], s.live) && s.live.metadata.uploadUrl == Some(s.slot)
  {
    RunKeepsInv(j, r, k);
  }
}
