/**
 * What a registered upload says of its source (core/uploader.py): the MACs the upload machine collects
 * combine to the MAC of the whole file, as the download's integrity check computes it.
 */
module UploadedMac {
  import opened Basics
  import opened Chunks
  import opened Crypto
  import opened FileMac
  import opened UploadMachine

  function Octet(b: Byte): bv8 { b as bv8 }

  function AsOctets(x: Bytes): (r: Octets)
    ensures |r| == |x|
  {
    seq(|x|, i requires 0 <= i < |x| => Octet(x[i]))
  }

  /** The job's chunk MAC is the one of core/chunks.py over this cipher. */
  ghost predicate MacsWith(j: Job, aes: Aes) {
    forall k: Bytes, n: Bytes, x: Bytes :: |n| == 8 ==> AsOctets(j.mac(k, n, x)) == FileMac.ChunkMac(aes, AsOctets(k), AsOctets(n), AsOctets(x))
  }

  // ---- While the source keeps its bytes, every body is a slice of it

  function Piece(content: Bytes, i: nat): Bytes
    requires i < |Plan(|content|)|
  {
    PieceIsWellPlaced(|content|, i);
    content[Plan(|content|)[i].offset..Plan(|content|)[i].End()]
  }

  ghost predicate TaskHolds(t: Task, content: Bytes, i: nat) {
    (t.Read? || t.Posted?) ==> i < |Plan(|content|)| && t.data == Piece(content, i)
  }

  ghost predicate ReceivedIs(y: Sys, content: Bytes, u: StateStore.Url, i: nat)
    requires (u, i) in y.received
  {
    i < |Plan(|content|)| && y.received[(u, i)] == Piece(content, i)
  }

  ghost predicate SessionHolds(s: Session, content: Bytes) {
    s.live.totalSize == |content| && forall i :: 0 <= i < |s.tasks| ==> TaskHolds(s.tasks[i], content, i)
  }

  ghost predicate Truthful(y: Sys, content: Bytes) {
    && (forall u, i :: (u, i) in y.received ==> ReceivedIs(y, content, u, i))
    && (y.session.Some? ==> SessionHolds(y.session.value, content))
  }

  lemma StartIsTruthful(j: Job, y: Sys, a: Action, y': Sys, content: Bytes)
    requires a.Start? && a.size == |content| && Truthful(y, content) && Next(j, y, a, y')
    ensures Truthful(y', content)
  {
    var s := y'.session.value;
    assert forall i :: 0 <= i < |s.tasks| ==> s.tasks[i] == Idle || s.tasks[i] == Exited;
    SameRecord(y, y', content);
  }

  /** The endpoint's record stays, and so does its truth. */
  lemma SameRecord(y: Sys, y': Sys, content: Bytes)
    requires Truthful(y, content) && y'.received == y.received
    ensures forall u, i :: (u, i) in y'.received ==> ReceivedIs(y', content, u, i)
  {
    forall u, i | (u, i) in y'.received ensures ReceivedIs(y', content, u, i) { assert ReceivedIs(y, content, u, i); }
  }

  lemma WorkerIsTruthful(j: Job, y: Sys, a: Action, y': Sys, content: Bytes)
    requires y.session.Some? && SessionNext(j, y, y.session.value, a, y') && OfWorker(a) && !a.Post?
    requires y.file.content == content && Truthful(y, content)
    ensures Truthful(y', content)
  {
    var s, t := y.session.value, y'.session.value;
    SameRecord(y, y', content);
    forall i | 0 <= i < |t.tasks| ensures TaskHolds(t.tasks[i], content, i) {
      assert TaskHolds(s.tasks[i], content, i);
    }
  }

  lemma MainIsTruthful(j: Job, y: Sys, a: Action, y': Sys, content: Bytes)
    requires y.session.Some? && SessionNext(j, y, y.session.value, a, y') && !OfWorker(a) && Truthful(y, content)
    ensures Truthful(y', content)
  {
    var s, t := y.session.value, y'.session.value;
    SameRecord(y, y', content);
    if !a.Refresh? {
      assert t.tasks == s.tasks && t.live.totalSize == s.live.totalSize;
    }
  }

  lemma PostIsTruthful(j: Job, y: Sys, i: nat, y': Sys, content: Bytes)
    requires y.session.Some? && SessionNext(j, y, y.session.value, Post(i), y') && Truthful(y, content)
    ensures Truthful(y', content)
  {
    var s, t := y.session.value, y'.session.value;
    assert TaskHolds(s.tasks[i], content, i);
    forall k | 0 <= k < |t.tasks| ensures TaskHolds(t.tasks[k], content, k) { assert TaskHolds(s.tasks[k], content, k); }
    forall u, k | (u, k) in y'.received ensures ReceivedIs(y', content, u, k) {
      if (u, k) in y.received { assert ReceivedIs(y, content, u, k); }
    }
  }

  lemma StepIsTruthful(j: Job, y: Sys, a: Action, y': Sys, content: Bytes)
    requires y.file.content == content && (a.Start? ==> a.size == |content|) && Truthful(y, content) && Next(j, y, a, y')
    ensures Truthful(y', content)
  {
    if a.Start? {
      StartIsTruthful(j, y, a, y', content);
    } else if a.Post? {
      PostIsTruthful(j, y, a.i, y', content);
    } else if a.Crash? || a.End? || a.ChangeSource? {
      SameRecord(y, y', content);
    } else if OfWorker(a) {
      WorkerIsTruthful(j, y, a, y', content);
    } else {
      MainIsTruthful(j, y, a, y', content);
    }
  }

  /** The source keeps its bytes up to step k, every start sees its size, and nothing was posted before. */
  ghost predicate Steady(r: Run, k: nat, content: Bytes)
    requires |r.states| == |r.actions| + 1 && k <= |r.actions|
  {
    && r.states[0].received == map[]
    && (forall i :: 0 <= i <= k ==> r.states[i].file.content == content)
    && (forall i :: 0 <= i < k && r.actions[i].Start? ==> r.actions[i].size == |content|)
  }

  lemma {:induction false} RunIsTruthful(j: Job, r: Run, k: nat, content: Bytes)
    requires IsRun(j, r) && k <= |r.actions| && Steady(r, k, content)
    ensures Truthful(r.states[k], content)
  {
    if k > 0 {
      RunIsTruthful(j, r, k - 1, content);
      assert Link(j, r, k - 1);
      StepIsTruthful(j, r.states[k - 1], r.actions[k - 1], r.states[k], content);
    }
  }

  // ---- The combined MAC

  function MacBlocks(macs: seq<Bytes>): seq<Octets> { seq(|macs|, i requires 0 <= i < |macs| => AsOctets(macs[i])) }

  lemma PieceIsSlice(content: Bytes, i: nat)
    requires i < |Plan(|content|)|
    ensures Plan(|content|)[i].End() <= |content|
    ensures AsOctets(Piece(content, i)) == Slice(AsOctets(content), Plan(|content|)[i])
  {
    PieceIsWellPlaced(|content|, i);
  }

  /** The MACs of a registration over the source's own pieces are the MACs of its plan. */
  lemma RegisteredBlocks(j: Job, aes: Aes, y: Sys, s: Session, content: Bytes)
    requires MacsWith(j, aes) && RegistrationOk(j, y, s) && Truthful(y, content) && s.live.totalSize == |content|
    requires |s.live.metadata.nonce.value| == 8
    ensures Within(Plan(|content|), |content|)
    ensures MacBlocks(s.phase.macs)
         == PlanMacs(aes, AsOctets(s.live.metadata.aesKey.value), AsOctets(s.live.metadata.nonce.value), Plan(|content|), AsOctets(content))
  {
    PlanIsWithin(|content|);
    forall i | 0 <= i < |Plan(|content|)|
      ensures AsOctets(s.phase.macs[i])
           == FileMac.ChunkMac(aes, AsOctets(s.live.metadata.aesKey.value), AsOctets(s.live.metadata.nonce.value), Slice(AsOctets(content), Plan(|content|)[i]))
    {
      assert ReceivedIs(y, content, s.slot, i);
      PieceIsSlice(content, i);
    }
  }

  /**
   * In every run over a source that keeps its bytes (crashes, resumes, expired slots, retries and any order
   * of the workers included), the MACs a registered upload carries combine to the MAC of that very source.
   */
  lemma RegisteredMacIsTheSources(j: Job, aes: Aes, r: Run, k: nat, content: Bytes)
    requires IsRun(j, r) && MacsWith(j, aes) && k <= |r.actions| && Steady(r, k, content)
    requires r.states[k].session.Some? && r.states[k].session.value.phase.Registered?
    ensures var s := r.states[k].session.value;
      && s.live.metadata.aesKey.Some? && s.live.metadata.nonce.Some? && |s.live.metadata.nonce.value| == 8
      && (forall m :: m in MacBlocks(s.phase.macs) ==> |m| == 16)
      && CombinedMac(aes, AsOctets(s.live.metadata.aesKey.value), MacBlocks(s.phase.macs))
      == MacOf(aes, AsOctets(s.live.metadata.aesKey.value), AsOctets(s.live.metadata.nonce.value), AsOctets(content))
  {
    RunKeepsInv(j, r, k);
    RunIsTruthful(j, r, k, content);
    var s := r.states[k].session.value;
    RegisteredBlocks(j, aes, r.states[k], s, content);
  }
}
