/**
 * The objects the transfer code updates in place (core/state.py, core/download_transport.py): the
 * live state, the destination file, the state file, and the downloader's shared counters.
 */
module TransferFiles {
  import opened Basics
  import opened Chunks
  import opened StateStore
  import DM = DownloadMachine

  datatype TransferError = CorruptValue | NotDurable | NotSaved

  /** `TransferState`: the lists and maps workers mutate under the transfer lock. */
  class LiveState {
    const transferType: string
    const source: string
    const destination: string
    const totalSize: int
    var completed: seq<int>
    var macs: map<int, Bytes>
    var metadata: Metadata
    var revision: int

    function State(): TransferState
      reads this
    {
      TransferState(transferType, source, destination, totalSize, STATE_FORMAT_VERSION,
                    completed, macs, metadata, revision)
    }

    constructor (s: TransferState)
      requires s.formatVersion == STATE_FORMAT_VERSION
      ensures State() == s
    {
      transferType, source, destination, totalSize := s.transferType, s.source, s.destination, s.totalSize;
      completed, macs, metadata, revision := s.completed, s.macs, s.metadata, s.revision;
    }

    /** `mark_chunk_done`: a MAC the reader would reject is refused before anything changes. */
    method MarkChunkDone(index: int, mac: Option<Bytes>) returns (r: Result<(), TransferError>)
      modifies this`completed, this`macs
      ensures r.Err? <==> mac.Some? && |mac.value| != MAC_BYTE_LENGTH
      ensures State() == if r.Ok? then MarkDone(old(State()), index, mac) else old(State())
    {
      if mac.Some? && |mac.value| != MAC_BYTE_LENGTH {
        return Err(CorruptValue);
      }
      if index !in completed {
        completed := completed + [index];
      }
      if mac.Some? {
        macs := macs[index := mac.value];
      }
      return Ok(());
    }

    /** `snapshot_state`: claims the next revision and copies. */
    method Snapshot() returns (snap: TransferState)
      modifies this`revision
      ensures State() == Bumped(old(State())) == snap
    {
      revision := revision + 1;
      snap := State();
    }
  }

  /** The download's destination: contents, and what the platter is known to hold. */
  class Destination {
    var exists_: bool
    var contents: Bytes
    var durable: Option<Bytes>

    constructor ()
      ensures View() == (None, None)
    {
      exists_, contents, durable := false, [], None;
    }

    function View(): (Option<Bytes>, Option<Bytes>)
      reads this
    {
      (if exists_ then Some(contents) else None, durable)
    }

    /** Open, seek, write. */
    method WriteAt(offset: nat, data: Bytes)
      requires exists_ && offset + |data| <= |contents|
      modifies this`contents
      ensures |contents| == old(|contents|)
      ensures forall b :: 0 <= b < |contents| ==>
                contents[b] == if offset <= b < offset + |data| then data[b - offset] else old(contents)[b]
    {
      contents := contents[..offset] + data + contents[offset + |data|..];
    }

    method Fsync()
      modifies this`durable
      ensures View() == (old(View()).0, old(View()).0)
    {
      durable := if exists_ then Some(contents) else None;
    }
  }

  /** Why the destination could not be opened or flushed, if it could not. */
  datatype Fault = NoFault | OpenDenied | FsyncFailed

  /** `validate_state_dict`, with its loop over a growing set of seen indices. */
  method Validate(s: TransferState) returns (ok: bool)
    ensures ok <==> ValidState(s)
  {
    if s.transferType !in {"download", "upload"} || s.totalSize < 0 {
      return false;
    }
    var seen: set<int> := {};
    for i := 0 to |s.completed|
      invariant seen == set k | 0 <= k < i :: s.completed[k]
      invariant forall k :: 0 <= k < i ==> s.completed[k] >= 0
      invariant forall k, l :: 0 <= k < l < i ==> s.completed[k] != s.completed[l]
    {
      if s.completed[i] < 0 || s.completed[i] in seen {
        return false;
      }
      seen := seen + {s.completed[i]};
    }
    return (forall k :: k in s.macs ==> k in seen && |s.macs[k]| == MAC_BYTE_LENGTH)
           && ValidMetadata(s.metadata) && s.revision >= 0;
  }

  /** The `.mbstate` file, written only through `SaveState` and `ClearState`. */
  class StateFile {
    var doc: StateDoc

    constructor ()
      ensures doc == Absent
    {
      doc := Absent;
    }

    /** `_disk_guard`. */
    method ReadGuard() returns (version: int, revision: int)
      ensures (version, revision) == DiskGuard(doc)
    {
      if !doc.Parsed? {
        return STATE_FORMAT_VERSION, -1;
      }
      if doc.state.formatVersion > STATE_FORMAT_VERSION {
        return doc.state.formatVersion, doc.state.revision;
      }
      var ok := Validate(doc.state);
      if !ok {
        return STATE_FORMAT_VERSION, -1;
      }
      return doc.state.formatVersion, doc.state.revision;
    }

    /** `_flush_transferred_data`: a missing destination is tolerated only while nothing is vouched for. */
    static method FlushTransferredData(snap: TransferState, dest: Destination, fault: Fault)
      returns (r: Result<(), TransferError>)
      modifies dest`durable
      ensures snap.transferType != "download" ==> r.Ok? && dest.View() == old(dest.View())
      ensures snap.transferType == "download" && r.Ok? ==>
                (dest.exists_ && dest.View() == (old(dest.View()).0, old(dest.View()).0)) ||
                (!dest.exists_ && snap.completed == [] && dest.View() == old(dest.View()))
      ensures r.Err? ==> dest.View() == old(dest.View())
    {
      if snap.transferType != "download" {
        return Ok(());
      }
      if !dest.exists_ {
        return if snap.completed != [] then Err(NotDurable) else Ok(());
      }
      if fault != NoFault {
        return Err(NotDurable);
      }
      dest.Fsync();
      return Ok(());
    }

    /**
     * `save_state`: barrier first, then read-verify-replace under the lock. The file changes only to
     * the snapshot, only when nothing newer is there, and for a download with chunks only behind a
     * flush of everything written so far. `landed` tells whether the temporary file could be written and
     * moved into place within the retries; if not, the call raises and the file stays.
     */
    method SaveState(snap: TransferState, dest: Destination, fault: Fault, lockFree: bool, landed: bool)
      returns (r: Result<(), TransferError>)
      modifies this, dest`durable
      ensures r.Ok? && lockFree ==> doc == Committed(old(doc), snap)
      ensures r.Err? || !lockFree ==> doc == old(doc)
      ensures !landed && lockFree && Committed(old(doc), snap) == Parsed(snap) != old(doc) ==> r.Err?
      ensures doc != old(doc) && snap.transferType == "download" && snap.completed != [] ==>
                dest.exists_ && dest.durable == Some(dest.contents)
    {
      r := FlushTransferredData(snap, dest, fault);
      if r.Err? || !lockFree {
        return;
      }
      var version, revision := ReadGuard();
      if version > STATE_FORMAT_VERSION {
        return;
      }
      if revision > snap.revision {
        return;
      }
      if !landed {
        return Err(NotSaved);
      }
      doc := Parsed(snap);
    }

    /** `clear_state`. */
    method ClearState(lockFree: bool)
      modifies this
      ensures doc == if lockFree then Cleared(old(doc)) else old(doc)
    {
      if !lockFree {
        return;
      }
      var version, _ := ReadGuard();
      if version > STATE_FORMAT_VERSION {
        return;
      }
      doc := Absent;
    }
  }

  /** The fields chunk workers share. */
  class Downloader {
    const state: LiveState
    var bytesDone: int
    var chunksDone: int

    /** The counters as `_run_claimed_download` computes them before the pool starts. */
    constructor (job: DM.Job, state: LiveState)
      ensures this.state == state
      ensures bytesDone == DM.SumOver(DM.Sizes(job), DM.Done(state.State()))
      ensures chunksDone == DM.SumOver(DM.Ones(job), DM.Done(state.State()))
    {
      var chunks := IterChunks(|job.plain|);
      var bytes, count := 0, 0;
      for i := 0 to |chunks|
        invariant bytes == DM.SumOver(DM.Sizes(job)[..i], DM.Done(state.State()))
        invariant count == DM.SumOver(DM.Ones(job)[..i], DM.Done(state.State()))
      {
        assert DM.Sizes(job)[..i + 1][..i] == DM.Sizes(job)[..i] && DM.Ones(job)[..i + 1][..i] == DM.Ones(job)[..i];
        if i in state.completed {
          bytes := bytes + chunks[i].size;
          count := count + 1;
        }
      }
      assert DM.Sizes(job)[..|chunks|] == DM.Sizes(job) && DM.Ones(job)[..|chunks|] == DM.Ones(job);
      this.state := state;
      this.bytesDone := bytes;
      this.chunksDone := count;
    }

    /**
     * The locked section that ends `fetch_chunk`: it is the machine's `Mark` step on the session these
     * fields make up.
     */
    method CommitChunk(job: DM.Job, i: nat, mac: Bytes, ghost s: DM.Session) returns (toSave: Option<TransferState>)
      requires i < |DM.ChunkPlan(job)| && i < |s.tasks|
      requires mac == job.mac(DM.ChunkBytes(job, i)) && |mac| == MAC_BYTE_LENGTH
      requires s.live == state.State() && s.bytesDone == bytesDone && s.chunksDone == chunksDone
      modifies this, state`completed, state`macs, state`revision
      ensures var t := DM.Marked(job, s, i);
              && t.live == state.State() && t.bytesDone == bytesDone && t.chunksDone == chunksDone
              && t.saves == s.saves + if toSave.Some? then [DM.Save(toSave.value, false)] else []
    {
      var chunks := IterChunks(|job.plain|);
      var _ := state.MarkChunkDone(i, Some(mac));
      bytesDone := bytesDone + chunks[i].size;
      chunksDone := chunksDone + 1;
      toSave := None;
      if chunksDone % 16 == 0 {
        var snap := state.Snapshot();
        toSave := Some(snap);
      }
    }
  }
}
