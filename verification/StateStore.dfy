/** Resume state and its file (core/state.py). */
module StateStore {
  import opened Basics

  const STATE_FORMAT_VERSION := 1
  const MAC_BYTE_LENGTH := 16

  /** An upload endpoint; `trusted` is the verdict of the host and scheme check on its text. */
  datatype Url = Url(text: string, trusted: bool)

  /** The local file an upload was made from (core/upload_identity.py). */
  datatype Identity = Identity(version: int, path: string, size: int, mtime: int, sha256: string, fileId: Option<string>)

  datatype Metadata = Metadata(
    aesKey: Option<Bytes>, nonce: Option<Bytes>,
    uploadUrl: Option<Url>, completionToken: Option<Bytes>, sourceIdentity: Option<Identity>)

  datatype TransferState = TransferState(
    transferType: string, source: string, destination: string, totalSize: int, formatVersion: int,
    completed: seq<int>, macs: map<int, Bytes>, metadata: Metadata, revision: int)

  /** What the `.mbstate` file holds: nothing, bytes that do not parse, or a parsed document. */
  datatype StateDoc = Absent | Unparsable | Parsed(state: TransferState)

  predicate ValidMetadata(m: Metadata) {
    && (m.aesKey.Some? ==> |m.aesKey.value| == 16)
    && (m.nonce.Some? ==> |m.nonce.value| == 8)
    && (m.completionToken.Some? ==> 0 < |m.completionToken.value| <= 4096)
    && (m.uploadUrl.Some? ==> m.uploadUrl.value.trusted)
  }

  /** `validate_state_dict` accepts the document. */
  ghost predicate ValidState(s: TransferState) {
    && s.transferType in {"download", "upload"}
    && s.totalSize >= 0
    && (forall i :: 0 <= i < |s.completed| ==> s.completed[i] >= 0)
    && NoDuplicates(s.completed)
    && (forall k :: k in s.macs ==> k in s.completed && |s.macs[k]| == MAC_BYTE_LENGTH)
    && ValidMetadata(s.metadata)
    && s.revision >= 0
  }

  // ---- The live state

  function MarkDone(s: TransferState, index: int, mac: Option<Bytes>): TransferState {
    s.(completed := if index in s.completed then s.completed else s.completed + [index],
       macs := if mac.Some? then s.macs[index := mac.value] else s.macs)
  }

  /** Claiming a snapshot bumps the live revision and copies the state. */
  function Bumped(s: TransferState): TransferState { s.(revision := s.revision + 1) }

  /** The uploader's reaction to an expired slot: new endpoint, nothing transferred. */
  function Refreshed(s: TransferState, url: Url): TransferState {
    s.(metadata := s.metadata.(uploadUrl := Some(url), completionToken := None), completed := [], macs := map[])
  }

  // ---- The file

  /** `_disk_guard`: the version and revision a save must not regress. */
  ghost function DiskGuard(d: StateDoc): (int, int) {
    match d
    case Absent => (STATE_FORMAT_VERSION, -1)
    case Unparsable => (STATE_FORMAT_VERSION, -1)
    case Parsed(s) =>
      if s.formatVersion > STATE_FORMAT_VERSION then (s.formatVersion, s.revision)
      else if !ValidState(s) then (STATE_FORMAT_VERSION, -1)
      else (s.formatVersion, s.revision)
  }

  /** The file after a save that got the lock: replaced unless what is there is newer. */
  ghost function Committed(d: StateDoc, snap: TransferState): StateDoc {
    var (version, revision) := DiskGuard(d);
    if version > STATE_FORMAT_VERSION || revision > snap.revision then d else Parsed(snap)
  }

  /** The file after a clear that got the lock. */
  ghost function Cleared(d: StateDoc): StateDoc {
    if DiskGuard(d).0 > STATE_FORMAT_VERSION then d else Absent
  }

  ghost function CommittedAll(d: StateDoc, saves: seq<TransferState>): StateDoc {
    if saves == [] then d else Committed(CommittedAll(d, saves[..|saves| - 1]), saves[|saves| - 1])
  }

  /** A snapshot this client writes. */
  ghost predicate OwnSnapshot(s: TransferState) { ValidState(s) && s.formatVersion == STATE_FORMAT_VERSION }

  ghost predicate Replaceable(d: StateDoc) { DiskGuard(d).0 <= STATE_FORMAT_VERSION }

  /** A revision names one snapshot: the live state is bumped for each one claimed. */
  ghost predicate OneSnapshotPerRevision(saves: seq<TransferState>) {
    forall i, j :: 0 <= i < |saves| && 0 <= j < |saves| && saves[i].revision == saves[j].revision ==> saves[i] == saves[j]
  }

  /** The newest of the saved snapshots and the file before them. */
  ghost predicate IsNewest(d: StateDoc, saves: seq<TransferState>, r: StateDoc) {
    && (r == d || exists k :: 0 <= k < |saves| && r == Parsed(saves[k]))
    && DiskGuard(d).1 <= DiskGuard(r).1
    && (forall k :: 0 <= k < |saves| ==> saves[k].revision <= DiskGuard(r).1)
  }

  /** In whatever order snapshots are saved, the file never goes back and ends as the newest one. */
  lemma {:induction false} FileIsNewest(d: StateDoc, saves: seq<TransferState>)
    requires Replaceable(d) && forall k :: 0 <= k < |saves| ==> OwnSnapshot(saves[k])
    ensures Replaceable(CommittedAll(d, saves))
    ensures IsNewest(d, saves, CommittedAll(d, saves))
  {
    if saves != [] {
      var n := |saves| - 1;
      var before := saves[..n];
      FileIsNewest(d, before);
      var m := CommittedAll(d, before);
      var r := CommittedAll(d, saves);
      assert OwnSnapshot(saves[n]);
      assert DiskGuard(m).1 <= DiskGuard(r).1;
      forall k | 0 <= k < |saves| ensures saves[k].revision <= DiskGuard(r).1 {
        if k < n { assert saves[k] == before[k]; }
      }
      if r != d && r == m {
        var k :| 0 <= k < |before| && r == Parsed(before[k]);
        assert r == Parsed(saves[k]);
      }
    }
  }

  /** After any prefix of the saves the revision on disk is at most what it is later. */
  lemma {:induction false} RevisionNeverDecreases(d: StateDoc, saves: seq<TransferState>, i: nat)
    requires Replaceable(d) && i <= |saves| && forall k :: 0 <= k < |saves| ==> OwnSnapshot(saves[k])
    ensures DiskGuard(CommittedAll(d, saves[..i])).1 <= DiskGuard(CommittedAll(d, saves)).1
  {
    if i == |saves| {
      assert saves[..i] == saves;
    } else {
      var before := saves[..|saves| - 1];
      RevisionNeverDecreases(d, before, i);
      assert before[..i] == saves[..i];
      FileIsNewest(d, before);
      assert OwnSnapshot(saves[|saves| - 1]);
    }
  }

  lemma SameMembers<T>(a: seq<T>, b: seq<T>)
    requires multiset(a) == multiset(b)
    ensures forall x :: x in a <==> x in b
  {
    forall x ensures x in a <==> x in b {
      assert x in multiset(a) <==> x in multiset(b);
    }
  }

  /** The newest snapshot of a set is unique. */
  lemma NewestIsUnique(d: StateDoc, a: seq<TransferState>, b: seq<TransferState>, i: nat, j: nat)
    requires i < |a| && j < |b| && OwnSnapshot(a[i]) && OwnSnapshot(b[j])
    requires forall x :: x in a <==> x in b
    requires OneSnapshotPerRevision(a)
    requires IsNewest(d, a, Parsed(a[i])) && IsNewest(d, b, Parsed(b[j]))
    ensures a[i] == b[j]
  {
    assert b[j] in a && a[i] in b;
    var k :| 0 <= k < |a| && a[k] == b[j];
    var l :| 0 <= l < |b| && b[l] == a[i];
  }

  /** The final file does not depend on the order of the saves. */
  lemma SaveOrderIrrelevant(d: StateDoc, a: seq<TransferState>, b: seq<TransferState>)
    requires Replaceable(d) && multiset(a) == multiset(b) && OneSnapshotPerRevision(a)
    requires forall x :: x in a ==> OwnSnapshot(x) && x.revision > DiskGuard(d).1
    ensures CommittedAll(d, a) == CommittedAll(d, b)
  {
    SameMembers(a, b);
    forall k | 0 <= k < |a| ensures OwnSnapshot(a[k]) { assert a[k] in a; }
    forall k | 0 <= k < |b| ensures OwnSnapshot(b[k]) { assert b[k] in a; }
    FileIsNewest(d, a);
    FileIsNewest(d, b);
    if a == [] {
      assert |b| == |multiset(b)| == 0;
    } else {
      assert a[0] in a && a[0] in b && |b| > 0 && b[0] in a;
      var i :| 0 <= i < |a| && CommittedAll(d, a) == Parsed(a[i]);
      var j :| 0 <= j < |b| && CommittedAll(d, b) == Parsed(b[j]);
      NewestIsUnique(d, a, b, i, j);
    }
  }

  // ---- Snapshots of one live state

  /** An edit of the live state under the transfer lock, or a claimed snapshot. */
  datatype Edit = Mark(index: int, mac: Option<Bytes>) | Refresh(url: Url) | Snap

  function EditState(s: TransferState, e: Edit): TransferState {
    match e
    case Mark(i, mac) => MarkDone(s, i, mac)
    case Refresh(url) => Refreshed(s, url)
    case Snap => Bumped(s)
  }

  /** The live state after the first k edits. */
  function Live(s: TransferState, edits: seq<Edit>, k: nat): TransferState
    requires k <= |edits|
  {
    if k == 0 then s else EditState(Live(s, edits, k - 1), edits[k - 1])
  }

  predicate LegalEdit(e: Edit) {
    match e
    case Mark(i, mac) => i >= 0 && (mac.Some? ==> |mac.value| == MAC_BYTE_LENGTH)
    case Refresh(url) => url.trusted
    case Snap => true
  }

  /** The snapshot claimed by edit k. */
  function SnapshotAt(s: TransferState, edits: seq<Edit>, k: nat): TransferState
    requires k < |edits| && edits[k].Snap?
  {
    Live(s, edits, k + 1)
  }

  lemma MarkKeepsValid(s: TransferState, index: int, mac: Option<Bytes>)
    requires ValidState(s) && index >= 0 && (mac.Some? ==> |mac.value| == MAC_BYTE_LENGTH)
    ensures ValidState(MarkDone(s, index, mac))
  {
    var t := MarkDone(s, index, mac);
    forall k | k in t.macs ensures k in t.completed && |t.macs[k]| == MAC_BYTE_LENGTH {
      if k in s.completed { assert k in t.completed; }
    }
  }

  lemma {:induction false} LiveStaysValid(s: TransferState, edits: seq<Edit>, k: nat)
    requires OwnSnapshot(s) && k <= |edits| && forall i :: 0 <= i < |edits| ==> LegalEdit(edits[i])
    ensures OwnSnapshot(Live(s, edits, k)) && Live(s, edits, k).revision >= s.revision
  {
    if k > 0 {
      LiveStaysValid(s, edits, k - 1);
      match edits[k - 1]
      case Mark(i, mac) => assert LegalEdit(edits[k - 1]); MarkKeepsValid(Live(s, edits, k - 1), i, mac);
      case Refresh(url) => assert LegalEdit(edits[k - 1]);
      case Snap =>
    }
  }

  lemma {:induction false} RevisionGrows(s: TransferState, edits: seq<Edit>, i: nat, j: nat)
    requires i <= j <= |edits|
    ensures Live(s, edits, i).revision <= Live(s, edits, j).revision
    ensures (exists k :: i <= k < j && edits[k].Snap?) ==> Live(s, edits, i).revision < Live(s, edits, j).revision
  {
    if i < j { RevisionGrows(s, edits, i, j - 1); }
  }

  /** Snapshots claimed from one live state carry strictly increasing revisions. */
  lemma LaterSnapshotsOutrank(s: TransferState, edits: seq<Edit>, i: nat, j: nat)
    requires i < j < |edits| && edits[i].Snap? && edits[j].Snap?
    ensures SnapshotAt(s, edits, i).revision < SnapshotAt(s, edits, j).revision
  {
    RevisionGrows(s, edits, i + 1, j + 1);
    assert i + 1 <= j < j + 1 && edits[j].Snap?;
  }

  /** Without a slot refresh in between, completed chunks only grow. */
  lemma {:induction false} ProgressGrows(s: TransferState, edits: seq<Edit>, i: nat, j: nat)
    requires i <= j <= |edits| && forall k :: i <= k < j ==> !edits[k].Refresh?
    ensures Live(s, edits, i).completed <= Live(s, edits, j).completed
    ensures Live(s, edits, i).macs.Keys <= Live(s, edits, j).macs.Keys
  {
    if i < j { ProgressGrows(s, edits, i, j - 1); }
  }

  /** How many slot refreshes precede edit k. */
  function Generation(edits: seq<Edit>, k: nat): nat
    requires k <= |edits|
  {
    if k == 0 then 0 else Generation(edits, k - 1) + if edits[k - 1].Refresh? then 1 else 0
  }

  lemma {:induction false} GenerationGrows(edits: seq<Edit>, i: nat, j: nat)
    requires i <= j <= |edits|
    ensures Generation(edits, i) <= Generation(edits, j)
    ensures Generation(edits, i) == Generation(edits, j) ==> forall k :: i <= k < j ==> !edits[k].Refresh?
  {
    if i < j { GenerationGrows(edits, i, j - 1); }
  }

  /** Snapshots of one live state, named by the edits that claimed them, in the order they are saved. */
  ghost function Claimed(s: TransferState, edits: seq<Edit>, order: seq<nat>): seq<TransferState>
    requires forall p :: 0 <= p < |order| ==> order[p] < |edits| && edits[order[p]].Snap?
  {
    seq(|order|, p requires 0 <= p < |order| => SnapshotAt(s, edits, order[p]))
  }

  lemma SnapshotIsOwn(s: TransferState, edits: seq<Edit>, k: nat)
    requires OwnSnapshot(s) && k < |edits| && edits[k].Snap?
    requires forall i :: 0 <= i < |edits| ==> LegalEdit(edits[i])
    ensures OwnSnapshot(SnapshotAt(s, edits, k)) && SnapshotAt(s, edits, k).revision > s.revision
  {
    LiveStaysValid(s, edits, k + 1);
    LiveStaysValid(s, edits, k);
  }

  /** A later snapshot of the same slot contains an earlier one's chunks. */
  lemma LaterSnapshotContains(s: TransferState, edits: seq<Edit>, i: nat, j: nat)
    requires i <= j < |edits| && edits[i].Snap? && edits[j].Snap?
    ensures Generation(edits, i) <= Generation(edits, j)
    ensures Generation(edits, i) == Generation(edits, j) ==>
              SnapshotAt(s, edits, i).completed <= SnapshotAt(s, edits, j).completed
  {
    GenerationGrows(edits, i, j);
    if Generation(edits, i) == Generation(edits, j) {
      GenerationGrows(edits, i + 1, j + 1);
      ProgressGrows(s, edits, i + 1, j + 1);
    }
  }

  /**
   * Out-of-order saves never regress. Snapshots of one live state are saved in any order, even twice.
   * The file is the snapshot with the latest claim saved so far; so it never returns from a refreshed
   * upload slot to an older one, and within one slot its completed chunks contain those of every
   * snapshot saved.
   */
  lemma OutOfOrderSavesNeverRegress(d: StateDoc, s: TransferState, edits: seq<Edit>, order: seq<nat>, p: nat)
    requires OwnSnapshot(s) && Replaceable(d) && DiskGuard(d).1 <= s.revision
    requires forall i :: 0 <= i < |edits| ==> LegalEdit(edits[i])
    requires forall i :: 0 <= i < |order| ==> order[i] < |edits| && edits[order[i]].Snap?
    requires p < |order|
    ensures exists m :: 0 <= m < |order| && order[p] <= order[m] &&
              CommittedAll(d, Claimed(s, edits, order)) == Parsed(SnapshotAt(s, edits, order[m])) &&
              Generation(edits, order[p]) <= Generation(edits, order[m]) &&
              (Generation(edits, order[p]) == Generation(edits, order[m]) ==>
                 SnapshotAt(s, edits, order[p]).completed <= SnapshotAt(s, edits, order[m]).completed)
  {
    var saves := Claimed(s, edits, order);
    forall k | 0 <= k < |saves| ensures OwnSnapshot(saves[k]) && saves[k].revision > s.revision {
      SnapshotIsOwn(s, edits, order[k]);
    }
    FileIsNewest(d, saves);
    var r := CommittedAll(d, saves);
    assert saves[p].revision <= DiskGuard(r).1;
    var m :| 0 <= m < |saves| && r == Parsed(saves[m]);
    assert OwnSnapshot(saves[m]) && saves[p].revision <= saves[m].revision;
    if order[m] < order[p] {
      LaterSnapshotsOutrank(s, edits, order[m], order[p]);
    }
    LaterSnapshotContains(s, edits, order[p], order[m]);
  }
}
