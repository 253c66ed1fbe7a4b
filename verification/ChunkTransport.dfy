/**
 * One chunk across the wire: the reading loop and its length guards, the cipher, the MAC and the write
 * (core/download_transport.py), and the other direction (core/upload_transport.py).
 */
module ChunkTransport {
  import opened Basics
  import opened Chunks
  import opened Crypto
  import opened FileMac
  import opened RoundTrip
  import S = Streaming

  /** How reading a response body ends. */
  datatype Body = Cancelled | TooLong | Short(got: nat) | Whole(bytes: Octets)

  /** What a body of these blocks must come to when nobody stops the transfer, however it is cut. */
  function Verdict(blocks: seq<Octets>, size: nat): Body {
    var body := S.Concat(blocks);
    if |body| > size then TooLong else if |body| < size then Short(|body|) else Whole(body)
  }

  /**
   * The loop of `fetch_chunk`: never more than the chunk is worth is kept, and the verdict does not
   * depend on the fragmentation. `stopped(k)` is the stop event as seen at the k-th block.
   */
  method ReadBody(blocks: seq<Octets>, size: nat, stopped: nat -> bool) returns (r: Body)
    ensures r.Cancelled? ==> exists k: nat :: k < |blocks| && stopped(k)
    ensures !r.Cancelled? ==> r == Verdict(blocks, size)
  {
    var encrypted: Octets := [];
    for k := 0 to |blocks|
      invariant encrypted == S.Concat(blocks[..k]) && |encrypted| <= size
    {
      if stopped(k) { return Cancelled; }
      var block := blocks[k];
      S.ConcatNext(blocks, k + 1);
      if |encrypted| + |block| > size {
        S.ConcatGrows(blocks, k + 1);
        return TooLong;
      }
      encrypted := encrypted + block;
    }
    assert blocks[..|blocks|] == blocks;
    r := if |encrypted| != size then Short(|encrypted|) else Whole(encrypted);
  }

  /** A preallocated file opened for update. */
  class TargetFile {
    var contents: Octets

    constructor (contents: Octets)
      ensures this.contents == contents
    {
      this.contents := contents;
    }

    method WriteAt(offset: nat, piece: Octets)
      requires offset + |piece| <= |contents|
      modifies this
      ensures contents == Overwrite(old(contents), offset, piece)
    {
      contents := contents[..offset] + piece + contents[offset + |piece|..];
    }
  }

  datatype FetchError = Stopped | SentTooMuch | ShortRead

  /**
   * `fetch_chunk` up to the locked section: nothing is written unless the body is exactly the chunk's
   * length, and then the deciphered body goes to the chunk's place and its MAC is returned.
   */
  method FetchChunk(aes: Aes, key: Key, nonce: Nonce, fileSize: nat, k: nat, blocks: seq<Octets>, stopped: nat -> bool, file: TargetFile)
    returns (r: Result<Block, FetchError>)
    requires k < |Plan(fileSize)| && |file.contents| == fileSize
    modifies file
    ensures r.Err? ==> file.contents == old(file.contents)
    ensures r.Ok? ==> |S.Concat(blocks)| == Plan(fileSize)[k].size && Plan(fileSize)[k].End() <= fileSize
    ensures r.Ok? ==> Fetched(aes, key, nonce, Plan(fileSize)[k], S.Concat(blocks), old(file.contents), file.contents, r.value)
    ensures (forall i :: !stopped(i)) ==> (r.Ok? <==> |S.Concat(blocks)| == Plan(fileSize)[k].size)
    ensures (forall i :: !stopped(i)) && r.Err? ==> r.error == if |S.Concat(blocks)| > Plan(fileSize)[k].size then SentTooMuch else ShortRead
  {
    var chunks := IterChunks(fileSize);
    var c := chunks[k];
    ChunkFits(fileSize, k);
    var body := ReadBody(blocks, c.size, stopped);
    match body {
      case Cancelled => return Err(Stopped);
      case TooLong => return Err(SentTooMuch);
      case Short(_) => return Err(ShortRead);
      case Whole(bytes) =>
        var plaintext := CtrCipher(aes, key, nonce, CounterOfOffset(c.offset).value, bytes).value;
        var mac := ChunkMac(aes, key, nonce, plaintext);
        file.WriteAt(c.offset, plaintext);
        r := Ok(mac);
    }
  }

  ghost predicate Fetched(aes: Aes, key: Octets, nonce: Nonce, c: Chunk, body: Octets, was: Octets, now: Octets, mac: Block)
    requires |body| == c.size && c.End() <= |was|
  {
    var plaintext := Ctr(aes, key, nonce, c.offset / 16, body);
    now == Overwrite(was, c.offset, plaintext) && mac == ChunkMac(aes, key, nonce, plaintext)
  }

  /**
   * From an honest server, which holds the source's counter-mode image, a fetched chunk is the source's
   * slice at its own place, with the MAC the uploader recorded for it.
   */
  lemma HonestFetch(aes: Aes, key: Key, nonce: Nonce, source: Octets, k: nat, body: Octets, was: Octets, now: Octets, mac: Block)
    requires k < |Plan(|source|)| && |was| == |source|
    requires Plan(|source|)[k].End() <= |source| && body == Slice(Ctr(aes, key, nonce, 0, source), Plan(|source|)[k])
    requires Fetched(aes, key, nonce, Plan(|source|)[k], body, was, now, mac)
    ensures var c := Plan(|source|)[k];
      now == Overwrite(was, c.offset, Slice(source, c)) && mac == ChunkMac(aes, key, nonce, Slice(source, c))
  {
    var c := Plan(|source|)[k];
    ChunkFits(|source|, k);
    S.DecryptedSlice(aes, key, nonce, source, c.offset, c.End());
  }

  datatype PostError = LocalShortRead

  /** `upload_chunk` up to the post: the chunk read, its MAC, and the ciphertext for its offset. */
  method PrepareChunk(aes: Aes, key: Key, nonce: Nonce, fileSize: nat, k: nat, disk: Octets) returns (r: Result<(Block, Octets), PostError>)
    requires k < |Plan(fileSize)|
    ensures r.Err? <==> |disk| < Plan(fileSize)[k].End()
    ensures r.Ok? ==> Plan(fileSize)[k].End() <= |disk|
    ensures r.Ok? ==> r.value.0 == ChunkMac(aes, key, nonce, Slice(disk, Plan(fileSize)[k]))
    ensures r.Ok? ==> r.value.1 == Slice(Ctr(aes, key, nonce, 0, disk), Plan(fileSize)[k])
  {
    var chunks := IterChunks(fileSize);
    var c := chunks[k];
    ChunkFits(fileSize, k);
    PieceIsWellPlaced(fileSize, k);
    var plaintext := FileMac.Read(disk, c.offset, c.size);
    if |plaintext| != c.size { return Err(LocalShortRead); }
    ChunkedEqualsWhole(aes, key, nonce, disk, c.offset, c.End());
    r := Ok((ChunkMac(aes, key, nonce, plaintext), CtrCipher(aes, key, nonce, CounterOfOffset(c.offset).value, plaintext).value));
  }
}
