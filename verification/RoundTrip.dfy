/** Uploading a file and downloading it again, chunk by chunk in any order, gives the file back. */
module RoundTrip {
  import opened Basics
  import opened Chunks
  import opened Crypto
  import opened FileMac

  // ---- Writing the pieces of a target file one chunk at a time

  /** `seek(offset)` and `write(piece)` inside a preallocated file. */
  function Overwrite(file: Octets, offset: nat, piece: Octets): (r: Octets)
    requires offset + |piece| <= |file|
    ensures |r| == |file|
  {
    file[..offset] + piece + file[offset + |piece|..]
  }

  /** A schedule of chunk indices: workers may take them in any order, and retries repeat them. */
  ghost predicate Schedule(order: seq<nat>, fileSize: nat) { forall k :: k in order ==> k < |Plan(fileSize)| }

  ghost predicate Covers(order: seq<nat>, fileSize: nat) {
    Schedule(order, fileSize) && forall k: nat :: k < |Plan(fileSize)| ==> k in order
  }

  lemma ChunkFits(fileSize: nat, k: nat)
    requires k < |Plan(fileSize)|
    ensures Plan(fileSize)[k].End() <= fileSize && Plan(fileSize)[k].offset % 16 == 0
  {
    PieceIsWellPlaced(fileSize, k);
  }

  lemma LastScheduled(order: seq<nat>, fileSize: nat)
    requires Schedule(order, fileSize) && order != []
    ensures Schedule(order[..|order| - 1], fileSize) && order[|order| - 1] < |Plan(fileSize)|
    ensures Plan(fileSize)[order[|order| - 1]].End() <= fileSize && Plan(fileSize)[order[|order| - 1]].offset % 16 == 0
  {
    var n := |order| - 1;
    assert order[n] in order;
    forall k | k in order[..n] ensures k in order {}
    ChunkFits(fileSize, order[n]);
  }

  /** The file after the chunks of `target` named by `order` were written over it. */
  ghost function Scatter(target: Octets, order: seq<nat>, file: Octets): (r: Octets)
    requires |file| == |target| && Schedule(order, |target|)
    ensures |r| == |target|
  {
    if order == [] then file
    else
      var n := |order| - 1;
      LastScheduled(order, |target|);
      var c := Plan(|target|)[order[n]];
      Overwrite(Scatter(target, order[..n], file), c.offset, Slice(target, c))
  }

  lemma OverwriteAt(file: Octets, target: Octets, c: Chunk, b: nat)
    requires |file| == |target| && c.End() <= |target| && b < |target|
    ensures Overwrite(file, c.offset, Slice(target, c))[b] == if Holds(c, b) then target[b] else file[b]
  {
  }

  lemma {:induction false} ScatterAt(target: Octets, order: seq<nat>, file: Octets, b: nat)
    requires |file| == |target| && Schedule(order, |target|) && b < |target|
    ensures var r := Scatter(target, order, file);
      r[b] == if exists k :: k in order && Holds(Plan(|target|)[k], b) then target[b] else file[b]
  {
    if order != [] {
      var n := |order| - 1;
      LastScheduled(order, |target|);
      ScatterAt(target, order[..n], file, b);
      assert order == order[..n] + [order[n]];
      OverwriteAt(Scatter(target, order[..n], file), target, Plan(|target|)[order[n]], b);
    }
  }

  /** Whatever the order, the repetitions and the old contents, covering the plan writes the target. */
  lemma CoveringScatter(target: Octets, order: seq<nat>, file: Octets)
    requires |file| == |target| && Covers(order, |target|)
    ensures Scatter(target, order, file) == target
  {
    forall b | 0 <= b < |target| ensures Scatter(target, order, file)[b] == target[b] {
      ScatterAt(target, order, file, b);
      PlanCoversOnce(|target|, b);
    }
  }

  // ---- The two transfers

  /** What `upload_chunk` posts and what `fetch_chunk` writes: the chunk's bytes at its own counter. */
  ghost function CipherChunk(aes: Aes, key: Key, nonce: Nonce, file: Octets, k: nat): (r: Octets)
    requires k < |Plan(|file|)|
    ensures |r| == Plan(|file|)[k].size
  {
    ChunkFits(|file|, k);
    var c := Plan(|file|)[k];
    CtrCipher(aes, key, nonce, CounterOfOffset(c.offset).value, Slice(file, c)).value
  }

  /** The other side's copy after the chunks named by `order` crossed the wire. */
  ghost function Carried(aes: Aes, key: Key, nonce: Nonce, from: Octets, order: seq<nat>, to: Octets): (r: Octets)
    requires |from| == |to| && Schedule(order, |from|)
    ensures |r| == |from|
  {
    if order == [] then to
    else
      var n := |order| - 1;
      LastScheduled(order, |from|);
      Overwrite(Carried(aes, key, nonce, from, order[..n], to), Plan(|from|)[order[n]].offset,
                CipherChunk(aes, key, nonce, from, order[n]))
  }

  /** Chunkwise transfers write the slices of the whole file's counter-mode image. */
  lemma {:induction false} CarriedIsScatter(aes: Aes, key: Key, nonce: Nonce, from: Octets, order: seq<nat>, to: Octets)
    requires |from| == |to| && Schedule(order, |from|)
    ensures Carried(aes, key, nonce, from, order, to) == Scatter(Ctr(aes, key, nonce, 0, from), order, to)
  {
    if order != [] {
      var n := |order| - 1;
      LastScheduled(order, |from|);
      CarriedIsScatter(aes, key, nonce, from, order[..n], to);
      var c := Plan(|from|)[order[n]];
      ChunkedEqualsWhole(aes, key, nonce, from, c.offset, c.End());
    }
  }

  /** In every order, with any repetitions, a complete chunkwise transfer is whole-file counter mode. */
  lemma CompleteTransferIsCtr(aes: Aes, key: Key, nonce: Nonce, from: Octets, order: seq<nat>, to: Octets)
    requires |from| == |to| && Covers(order, |from|)
    ensures Carried(aes, key, nonce, from, order, to) == Ctr(aes, key, nonce, 0, from)
  {
    CarriedIsScatter(aes, key, nonce, from, order, to);
    CoveringScatter(Ctr(aes, key, nonce, 0, from), order, to);
  }

  // ---- The key's journey

  /** `_register_node`: the file key packed and wrapped under the master key. */
  function WrappedFileKey(aes: Aes, master: Octets, key: Key, nonce: Nonce, macIv: MacIv): Octets
  {
    Wrapped(aes, master, A32ToBytes(PackFileKey(key, nonce, macIv)))
  }

  /** Unwrapping a node's key, as every reader of the account's nodes does. */
  function OpenedFileKey(aes: Aes, master: Octets, wrapped: Octets): Result<FileKey, CryptoError> {
    if |wrapped| % 16 != 0 then Err(UnalignedKeyWrap)
    else UnpackFileKey(BytesToA32(Unwrapped(aes, master, wrapped)))
  }

  lemma KeySurvives(aes: Aes, master: Octets, key: Key, nonce: Nonce, macIv: MacIv)
    requires Lawful(aes)
    ensures OpenedFileKey(aes, master, WrappedFileKey(aes, master, key, nonce, macIv)) == Ok(FileKey(key, nonce, macIv))
  {
    var packed := PackFileKey(key, nonce, macIv);
    KeyWrapInverse(aes, master, A32ToBytes(packed));
    WordsOfBytes(packed);
    UnpackPacked(key, nonce, macIv);
  }

  lemma SourceVerifies(aes: Aes, key: Octets, nonce: Nonce, source: Octets)
    ensures Verified(aes, key, nonce, CondenseMac(MacOf(aes, key, nonce, source)), |source|, Some(source))
  {
    assert source[..|source|] == source;
  }

  // ---- Main result

  /** With the key a reader unwrapped, the stored bytes come back as the source, and pass the integrity check. */
  ghost predicate Arrives(aes: Aes, key: Key, nonce: Nonce, macIv: MacIv, source: Octets, stored: Octets, down: seq<nat>, destination: Octets)
    requires |stored| == |source| == |destination| && Schedule(down, |stored|)
  {
    && Carried(aes, key, nonce, stored, down, destination) == source
    && Verified(aes, key, nonce, macIv, |source|, Some(source))
  }

  lemma CiphertextArrives(aes: Aes, key: Key, nonce: Nonce, source: Octets, down: seq<nat>, destination: Octets)
    requires |source| == |destination| && Covers(down, |source|)
    ensures Arrives(aes, key, nonce, CondenseMac(MacOf(aes, key, nonce, source)), source, Ctr(aes, key, nonce, 0, source), down, destination)
  {
    CompleteTransferIsCtr(aes, key, nonce, Ctr(aes, key, nonce, 0, source), down, destination);
    CtrTwice(aes, key, nonce, 0, source);
    SourceVerifies(aes, key, nonce, source);
  }

  /**
   * For every file (the empty one too), every order and repetition of chunk uploads and downloads, and
   * whatever the slot and the preallocated destination held before: the server holds the whole file's
   * counter-mode ciphertext, the wrapped key opens to what the uploader used, and with those three parts
   * the destination ends as the source and the on-disk integrity check passes.
   */
  lemma UploadThenDownload(aes: Aes, master: Octets, key: Key, nonce: Nonce, source: Octets,
                           up: seq<nat>, slot: Octets, down: seq<nat>, destination: Octets)
    requires Lawful(aes)
    requires |slot| == |source| == |destination| && Covers(up, |source|) && Covers(down, |source|)
    ensures var macIv := CondenseMac(MacOf(aes, key, nonce, source));
      var stored := Carried(aes, key, nonce, source, up, slot);
      && stored == Ctr(aes, key, nonce, 0, source)
      && OpenedFileKey(aes, master, WrappedFileKey(aes, master, key, nonce, macIv)) == Ok(FileKey(key, nonce, macIv))
      && Arrives(aes, key, nonce, macIv, source, stored, down, destination)
  {
    CompleteTransferIsCtr(aes, key, nonce, source, up, slot);
    CiphertextArrives(aes, key, nonce, source, down, destination);
    KeySurvives(aes, master, key, nonce, CondenseMac(MacOf(aes, key, nonce, source)));
  }

  /** An incomplete download leaves the bytes of every chunk not carried exactly as they were. */
  lemma UncarriedBytesUntouched(aes: Aes, key: Key, nonce: Nonce, from: Octets, order: seq<nat>, to: Octets, b: nat)
    requires |from| == |to| && Schedule(order, |from|) && b < |from|
    requires forall k :: k in order ==> !Holds(Plan(|from|)[k], b)
    ensures Carried(aes, key, nonce, from, order, to)[b] == to[b]
  {
    CarriedIsScatter(aes, key, nonce, from, order, to);
    ScatterAt(Ctr(aes, key, nonce, 0, from), order, to, b);
  }
}
