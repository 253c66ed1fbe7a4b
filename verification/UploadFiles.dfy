/**
 * The uploader's fields as its locked sections and slot loop change them (core/uploader.py,
 * core/upload_transport.py): each is the matching step of the upload machine.
 */
module UploadFiles {
  import opened Basics
  import opened Chunks
  import opened StateStore
  import opened TransferFiles
  import UM = UploadMachine

  datatype UploadError = NoToken | SourceGone | SourceChanged | MissingMac

  class Uploader {
    const state: LiveState
    var uploadUrl: Url
    var token: Option<Bytes>
    var bytesDone: int
    var chunksDone: int

    /** These fields are those of a session of the machine. */
    ghost predicate Mirrors(s: UM.Session)
      reads this, state
    {
      s.live == state.State() && s.slot == uploadUrl && s.token == token && s.chunksDone == chunksDone
    }

    constructor (state: LiveState, uploadUrl: Url)
      ensures this.state == state && this.uploadUrl == uploadUrl && token == state.metadata.completionToken
      ensures chunksDone == |state.completed|
    {
      this.state, this.uploadUrl := state, uploadUrl;
      token := state.metadata.completionToken;
      bytesDone, chunksDone := 0, |state.completed|;
    }

    /**
     * The locked section that ends `upload_chunk`: the MAC recorded, the counters moved, the first
     * token kept, and a snapshot claimed every eighth chunk or with a token.
     */
    method CommitChunk(job: UM.Job, chunk: Chunk, data: Bytes, body: Bytes, ghost s: UM.Session)
      returns (toSave: Option<TransferState>)
      requires UM.WellFormed(job) && Mirrors(s) && chunk.index < |s.tasks|
      requires state.metadata.aesKey.Some? && state.metadata.nonce.Some?
      modifies this, state
      ensures var t := UM.Acknowledged(job, s, chunk.index, data, body);
        Mirrors(t) && t.saves == s.saves + if toSave.Some? then [toSave.value] else []
      ensures bytesDone == old(bytesDone) + chunk.size
    {
      var mac := job.mac(state.metadata.aesKey.value, state.metadata.nonce.value, data);
      var _ := state.MarkChunkDone(chunk.index, Some(mac));
      assert state.State() == MarkDone(s.live, chunk.index, Some(UM.ChunkMac(job, s.live, data)));
      bytesDone := bytesDone + chunk.size;
      chunksDone := chunksDone + 1;
      if body != [] && token == None {
        token := Some(body);
        state.metadata := state.metadata.(completionToken := Some(body));
      }
      ghost var marked := MarkDone(s.live, chunk.index, Some(UM.ChunkMac(job, s.live, data)));
      ghost var takes := body != [] && s.token == None;
      assert state.State() == if takes then marked.(metadata := marked.metadata.(completionToken := Some(body))) else marked;
      toSave := None;
      if chunksDone % 8 == 0 || body != [] {
        var snap := state.Snapshot();
        toSave := Some(snap);
      }
    }

    /** The slot loop after the first expiry: everything known of the old slot is forgotten before the next save. */
    method TakeFreshSlot(url: Url, job: UM.Job, ghost y: UM.Sys, ghost s: UM.Session) returns (toSave: TransferState, ghost t: UM.Session)
      requires Mirrors(s) && y.session == Some(s)
      requires s.phase.Running? && s.expired && !s.refreshed && UM.Quiet(s) && url !in y.slots && url.trusted
      modifies this, state
      ensures UM.Next(job, y, UM.Refresh(url), y.(slots := y.slots + {url}, session := Some(t)))
      ensures Mirrors(t) && t.saves == [toSave]
    {
      uploadUrl := url;
      state.metadata := state.metadata.(uploadUrl := Some(url), completionToken := None);
      state.completed, state.macs := [], map[];
      token := None;
      assert state.State() == Refreshed(s.live, url);
      toSave := state.Snapshot();
      bytesDone, chunksDone := 0, 0;
      t := s.(live := toSave, slot := url, token := None, tasks := UM.PendingTasks(toSave), saves := [toSave],
              chunksDone := 0, stop := false, failed := false, expired := false, refreshed := true);
    }

    /** The loop that lists the chunk MACs in plan order, or finds one missing. */
    method CollectChunkMacs(n: nat) returns (r: Option<seq<Bytes>>)
      ensures r == UM.CollectMacs(state.State(), n)
    {
      var macs := [];
      for i := 0 to n
        invariant UM.CollectMacs(state.State(), i) == Some(macs)
      {
        if i !in state.macs {
          MissingStays(state.State(), i + 1, n);
          return None;
        }
        macs := macs + [state.macs[i]];
      }
      r := Some(macs);
    }

    /**
     * What stands between the last chunk and `_register_node`. It passes exactly when the machine may
     * register, with the same token and MACs; a source that went away or changed clears the state file.
     */
    method Finalize(job: UM.Job, startIdentity: Identity, current: Option<Identity>, file: StateFile, lockFree: bool)
      returns (r: Result<(Bytes, seq<Bytes>), UploadError>)
      modifies file
      ensures r.Ok? <==> (token.Some? && current.Some? && UM.IdentitiesMatch(Some(startIdentity), current.value)
                          && UM.CollectMacs(state.State(), |Plan(state.totalSize)|).Some?)
      ensures r.Ok? ==> r.value == (token.value, UM.CollectMacs(state.State(), |Plan(state.totalSize)|).value)
      ensures r.Err? ==> r.error == (if token.None? then NoToken else if current.None? then SourceGone
        else if !UM.IdentitiesMatch(Some(startIdentity), current.value) then SourceChanged else MissingMac)
      ensures file.doc == if r.Err? && (r.error.SourceGone? || r.error.SourceChanged?) && lockFree then Cleared(old(file.doc)) else old(file.doc)
    {
      if token.None? { return Err(NoToken); }
      if current.None? {
        file.ClearState(lockFree);
        return Err(SourceGone);
      }
      if !UM.IdentitiesMatch(Some(startIdentity), current.value) {
        file.ClearState(lockFree);
        return Err(SourceChanged);
      }
      var chunks := IterChunks(state.totalSize);
      var macs := CollectChunkMacs(|chunks|);
      if macs.None? { return Err(MissingMac); }
      r := Ok((token.value, macs.value));
    }
  }

  lemma {:induction false} MissingStays(s: TransferState, k: nat, n: nat)
    requires k <= n && UM.CollectMacs(s, k).None?
    ensures UM.CollectMacs(s, n).None?
    decreases n - k
  {
    if k < n { MissingStays(s, k, n - 1); }
  }
}
