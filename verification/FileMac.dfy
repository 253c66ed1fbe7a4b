/** Chunk MACs, their combination, and the check of a downloaded file (core/chunks.py, core/download_verify.py). */
module FileMac {
  import opened Basics
  import opened Chunks
  import opened Crypto

  /** `chunk_mac`: the last CBC block of the zero-padded plaintext, from the doubled nonce. */
  function ChunkMac(aes: Aes, key: Octets, nonce: Nonce, plaintext: Octets): Block
  {
    if plaintext == [] then ZERO_BLOCK
    else
      var padded := plaintext + Zeros((-|plaintext|) % 16);
      LastBlock(Cbc(aes, key, nonce + nonce, padded))
  }

  function LastBlock(data: Octets): Block
    requires |data| >= 16
  {
    data[|data| - 16..]
  }

  /** The CBC-MAC chain over the chunk MACs. */
  function CombinedMac(aes: Aes, key: Octets, macs: seq<Block>): Block {
    if macs == [] then ZERO_BLOCK
    else Cbc(aes, key, ZERO_BLOCK, Xor(CombinedMac(aes, key, macs[..|macs| - 1]), macs[|macs| - 1]))
  }

  /** `combine_chunk_macs`. */
  method CombineChunkMacs(aes: Aes, macs: seq<Octets>, key: Octets) returns (r: Result<Block, CryptoError>)
    ensures r.Ok? <==> (forall m :: m in macs ==> |m| == 16) && (macs == [] || AesKey(key))
    ensures r.Ok? ==> r.value == CombinedMac(aes, key, macs)
  {
    var state := ZERO_BLOCK;
    for i := 0 to |macs|
      invariant forall m :: m in macs[..i] ==> |m| == 16
      invariant i > 0 ==> AesKey(key)
      invariant state == CombinedMac(aes, key, macs[..i])
    {
      var mac := macs[i];
      if |mac| != 16 { return Err(BadMacLength); }
      if !AesKey(key) { return Err(BadKeyLength); }
      state := Cbc(aes, key, ZERO_BLOCK, Xor(state, mac));
      assert macs[..i + 1][..i] == macs[..i];
    }
    assert macs[..|macs|] == macs;
    r := Ok(state);
  }

  /** `condense_mac`: the two 64-bit halves folded to one word each. */
  function CondenseMac(mac: Block): (r: Words)
    ensures |r| == 2
  {
    var a := BytesToA32(mac);
    [a[0] ^ a[1], a[2] ^ a[3]]
  }

  // ---- The MAC of a whole file, cut into the chunk plan

  function Slice(data: Octets, c: Chunk): (r: Octets)
    requires c.End() <= |data|
    ensures |r| == c.size
  {
    data[c.offset..c.End()]
  }

  ghost predicate Within(plan: seq<Chunk>, size: nat) { forall c :: c in plan ==> c.End() <= size }

  function PlanMacs(aes: Aes, key: Octets, nonce: Nonce, plan: seq<Chunk>, data: Octets): (r: seq<Block>)
    requires Within(plan, |data|)
    ensures |r| == |plan|
  {
    seq(|plan|, k requires 0 <= k < |plan| => ChunkMac(aes, key, nonce, Slice(data, plan[k])))
  }

  lemma PlanIsWithin(fileSize: nat)
    ensures Within(Plan(fileSize), fileSize)
  {
    PlanIsContiguous(fileSize);
  }

  function MacOf(aes: Aes, key: Octets, nonce: Nonce, data: Octets): Block
  {
    PlanIsWithin(|data|);
    CombinedMac(aes, key, PlanMacs(aes, key, nonce, Plan(|data|), data))
  }

  /** The file on disk (None: unreadable) is long enough and its first bytes have the MAC in the key. */
  predicate Verified(aes: Aes, key: Octets, nonce: Nonce, macIv: MacIv, fileSize: nat, disk: Option<Octets>)
  {
    disk.Some? && |disk.value| >= fileSize && CondenseMac(MacOf(aes, key, nonce, disk.value[..fileSize])) == macIv
  }

  /** `seek` and `read`: short past the end of the file. */
  function Read(data: Octets, offset: nat, size: nat): Octets {
    if offset >= |data| then [] else data[offset..Min(offset + size, |data|)]
  }

  lemma ReadsItsChunk(fileSize: nat, data: Octets, k: nat)
    requires k < |Plan(fileSize)|
    ensures var c := Plan(fileSize)[k]; var piece := Read(data, c.offset, c.size);
      && c.End() <= fileSize && (|piece| == c.size <==> c.End() <= |data|)
      && (c.End() <= |data| ==> piece == Slice(data, c))
  {
    PieceIsWellPlaced(fileSize, k);
  }

  /** The reading half of `_verify_file_on_disk`: the MACs of the chunks on disk, or None at a short read. */
  method DiskMacs(aes: Aes, fileSize: nat, key: Octets, nonce: Nonce, data: Octets) returns (r: Option<seq<Block>>)
    ensures r.Some? <==> |data| >= fileSize
    ensures r.Some? ==> Within(Plan(fileSize), |data|) && r.value == PlanMacs(aes, key, nonce, Plan(fileSize), data)
  {
    var chunks := IterChunks(fileSize);
    var macs: seq<Block> := [];
    for i := 0 to |chunks|
      invariant |macs| == i
      invariant forall k :: 0 <= k < i ==> chunks[k].End() <= |data| && macs[k] == ChunkMac(aes, key, nonce, Slice(data, chunks[k]))
    {
      var c := chunks[i];
      var piece := Read(data, c.offset, c.size);
      ReadsItsChunk(fileSize, data, i);
      if |piece| != c.size {
        return None;
      }
      macs := macs + [ChunkMac(aes, key, nonce, piece)];
    }
    PlanEnds(fileSize);
    r := Some(macs);
  }

  lemma PrefixMacs(aes: Aes, key: Octets, nonce: Nonce, fileSize: nat, data: Octets)
    requires |data| >= fileSize
    ensures Within(Plan(fileSize), fileSize)
    ensures PlanMacs(aes, key, nonce, Plan(fileSize), data) == PlanMacs(aes, key, nonce, Plan(fileSize), data[..fileSize])
  {
    PlanIsWithin(fileSize);
    forall c | c in Plan(fileSize) ensures Slice(data, c) == Slice(data[..fileSize], c) {}
  }

  predicate SameTwoWords(a: Words, b: Words)
    requires |a| == 2 && |b| == 2
    ensures SameTwoWords(a, b) <==> a == b
  {
    a[0] == b[0] && a[1] == b[1]
  }

  /** `_verify_file_on_disk`. */
  method VerifyFileOnDisk(aes: Aes, fileSize: nat, key: Octets, nonce: Nonce, macIv: MacIv, disk: Option<Octets>)
    returns (ok: bool)
    requires AesKey(key)
    ensures ok <==> Verified(aes, key, nonce, macIv, fileSize, disk)
  {
    if disk.None? { return false; }
    var macs := DiskMacs(aes, fileSize, key, nonce, disk.value);
    if macs.None? { return false; }
    PrefixMacs(aes, key, nonce, fileSize, disk.value);
    var combined := CombineChunkMacs(aes, macs.value, key);
    ok := SameTwoWords(CondenseMac(combined.value), macIv);
  }

  // ---- What the full 128-bit MAC cannot miss

  /** One aligned 16-byte block differs and nothing else. */
  ghost predicate DifferInBlock(a: Octets, b: Octets, j: nat) {
    |a| == |b| && a != b && forall i :: 0 <= i < |a| && !(16 * j <= i < 16 * j + 16) ==> a[i] == b[i]
  }

  lemma EncInjective(aes: Aes, key: Octets, x: Block, y: Block)
    requires Lawful(aes) && x != y
    ensures aes.enc(key, x) != aes.enc(key, y)
  {
    assert aes.dec(key, aes.enc(key, x)) == x && aes.dec(key, aes.enc(key, y)) == y;
  }

  function Step(aes: Aes, key: Octets, state: Block, block: Block): Block { aes.enc(key, Xor(block, state)) }

  lemma StepInjective(aes: Aes, key: Octets, s: Block, s': Block, b: Block, b': Block)
    requires Lawful(aes) && ((s == s' && b != b') || (s != s' && b == b'))
    ensures Step(aes, key, s, b) != Step(aes, key, s', b')
  {
    if s == s' {
      XorCommutes(b, s);
      XorCommutes(b', s);
      XorInjective(s, b, b');
    } else {
      XorInjective(b, s, s');
    }
    EncInjective(aes, key, Xor(b, s), Xor(b', s'));
  }

  lemma XorCommutes(a: Block, b: Block)
    ensures Xor(a, b) == Xor(b, a)
  {
    forall i | 0 <= i < 16 ensures a[i] ^ b[i] == b[i] ^ a[i] {}
  }

  /** The chaining value after some whole blocks. */
  function Chain(aes: Aes, key: Octets, state: Block, data: Octets): Block
    requires |data| % 16 == 0
    decreases |data|
  {
    if data == [] then state else Chain(aes, key, Step(aes, key, state, data[..16]), data[16..])
  }

  lemma {:induction false} LastBlockIsChain(aes: Aes, key: Octets, iv: Block, data: Octets)
    requires data != [] && |data| % 16 == 0
    ensures LastBlock(Cbc(aes, key, iv, data)) == Chain(aes, key, iv, data)
    decreases |data|
  {
    if |data| == 16 {
      assert data[16..] == [];
    } else {
      LastBlockIsChain(aes, key, Step(aes, key, iv, data[..16]), data[16..]);
    }
  }

  /** Two chaining values that differ stay different. */
  lemma {:induction false} ChainCarries(aes: Aes, key: Octets, s: Block, s': Block, data: Octets)
    requires Lawful(aes) && s != s' && |data| % 16 == 0
    ensures Chain(aes, key, s, data) != Chain(aes, key, s', data)
    decreases |data|
  {
    if data != [] {
      StepInjective(aes, key, s, s', data[..16], data[..16]);
      ChainCarries(aes, key, Step(aes, key, s, data[..16]), Step(aes, key, s', data[..16]), data[16..]);
    }
  }

  lemma {:induction false} ChainSeesBlock(aes: Aes, key: Octets, s: Block, a: Octets, b: Octets, j: nat)
    requires Lawful(aes) && |a| % 16 == 0 && DifferInBlock(a, b, j)
    ensures Chain(aes, key, s, a) != Chain(aes, key, s, b)
    decreases j
  {
    if j == 0 {
      assert a[16..] == b[16..];
      assert a == a[..16] + a[16..] && b == b[..16] + b[16..];
      StepInjective(aes, key, s, s, a[..16], b[..16]);
      ChainCarries(aes, key, Step(aes, key, s, a[..16]), Step(aes, key, s, b[..16]), a[16..]);
    } else {
      assert a[..16] == b[..16];
      assert a == a[..16] + a[16..] && b == b[..16] + b[16..];
      ChainSeesBlock(aes, key, Step(aes, key, s, a[..16]), a[16..], b[16..], j - 1);
    }
  }

  lemma PaddedDiffer(a: Octets, b: Octets, pad: Octets, j: nat)
    requires DifferInBlock(a, b, j)
    ensures DifferInBlock(a + pad, b + pad, j)
  {
    assert (a + pad)[..|a|] == a && (b + pad)[..|a|] == b;
  }

  /** Two equally long chunks that differ in one block have different chunk MACs. */
  lemma ChunkMacSeesBlock(aes: Aes, key: Octets, nonce: Nonce, a: Octets, b: Octets, j: nat)
    requires Lawful(aes) && DifferInBlock(a, b, j)
    ensures ChunkMac(aes, key, nonce, a) != ChunkMac(aes, key, nonce, b)
  {
    var pad := Zeros((-|a|) % 16);
    PaddedDiffer(a, b, pad, j);
    LastBlockIsChain(aes, key, nonce + nonce, a + pad);
    LastBlockIsChain(aes, key, nonce + nonce, b + pad);
    ChainSeesBlock(aes, key, nonce + nonce, a + pad, b + pad, j);
  }

  /** Two MAC lists that differ in one entry combine to different file MACs. */
  lemma {:induction false} CombinedSeesMac(aes: Aes, key: Octets, m: seq<Block>, m': seq<Block>, k: nat)
    requires Lawful(aes) && |m| == |m'| && k < |m| && m[k] != m'[k]
    requires forall i :: 0 <= i < |m| && i != k ==> m[i] == m'[i]
    ensures CombinedMac(aes, key, m) != CombinedMac(aes, key, m')
  {
    var n := |m| - 1;
    CombinedStep(aes, key, m);
    CombinedStep(aes, key, m');
    if k == n {
      assert m[..n] == m'[..n];
      StepInjective(aes, key, m[n], m'[n], CombinedMac(aes, key, m[..n]), CombinedMac(aes, key, m'[..n]));
    } else {
      CombinedSeesMac(aes, key, m[..n], m'[..n], k);
      StepInjective(aes, key, m[n], m'[n], CombinedMac(aes, key, m[..n]), CombinedMac(aes, key, m'[..n]));
    }
  }

  lemma CombinedStep(aes: Aes, key: Octets, m: seq<Block>)
    requires m != []
    ensures CombinedMac(aes, key, m) == Step(aes, key, m[|m| - 1], CombinedMac(aes, key, m[..|m| - 1]))
  {
    var x: Block := Xor(CombinedMac(aes, key, m[..|m| - 1]), m[|m| - 1]);
    assert x[..16] == x && x[16..] == [];
    XorWithZeros(x);
  }

  lemma XorWithZeros(a: Block)
    ensures Xor(a, ZERO_BLOCK) == a
  {
    forall i | 0 <= i < 16 ensures a[i] ^ 0 == a[i] {}
  }

  /** A block lies inside the one chunk that holds any of its bytes. */
  lemma OtherChunksMiss(fileSize: nat, i: nat, j: nat, k: nat, m: nat)
    requires k < |Plan(fileSize)| && m < |Plan(fileSize)| && m != k && Holds(Plan(fileSize)[k], i) && 16 * j <= i < 16 * j + 16
    ensures Plan(fileSize)[m].End() <= 16 * j || Plan(fileSize)[m].offset >= 16 * j + 16
  {
    PieceIsWellPlaced(fileSize, k);
    PieceIsWellPlaced(fileSize, m);
    if m < k { PlanDisjoint(fileSize, m, k); } else { PlanDisjoint(fileSize, k, m); }
    AlignedBeside(Plan(fileSize)[m], Plan(fileSize)[k], i, j);
  }

  /** Two ranges that start on block boundaries and do not meet cannot share a block's bytes. */
  lemma AlignedBeside(c: Chunk, d: Chunk, i: nat, j: nat)
    requires c.offset % 16 == 0 && d.offset % 16 == 0 && (c.End() <= d.offset || d.End() <= c.offset)
    requires Holds(d, i) && 16 * j <= i < 16 * j + 16
    ensures c.End() <= 16 * j || c.offset >= 16 * j + 16
  {
    SameBlock(d.offset / 16, i, j);
    if d.End() <= c.offset { LaterBlock(c.offset / 16, i, j); }
  }

  lemma SameBlock(q: nat, i: nat, j: nat)
    requires 16 * q <= i < 16 * j + 16
    ensures q <= j
  {
  }

  lemma LaterBlock(p: nat, i: nat, j: nat)
    requires 16 * j <= i < 16 * p
    ensures p >= j + 1
  {
  }

  lemma OtherChunksAgree(a: Octets, b: Octets, i: nat, j: nat, k: nat, m: nat)
    requires DifferInBlock(a, b, j) && k < |Plan(|a|)| && m < |Plan(|a|)| && m != k
    requires Holds(Plan(|a|)[k], i) && 16 * j <= i < 16 * j + 16
    ensures Plan(|a|)[m].End() <= |a| && Slice(a, Plan(|a|)[m]) == Slice(b, Plan(|a|)[m])
  {
    PieceIsWellPlaced(|a|, m);
    OtherChunksMiss(|a|, i, j, k, m);
  }

  /** The damaged chunk, on its own, is damaged in one block. */
  lemma DamagedChunk(a: Octets, b: Octets, c: Chunk, i: nat, j: nat)
    requires DifferInBlock(a, b, j) && c.End() <= |a| && c.offset % 16 == 0 && Holds(c, i) && a[i] != b[i]
    ensures j >= c.offset / 16 && DifferInBlock(Slice(a, c), Slice(b, c), j - c.offset / 16)
  {
    assert 16 * j >= c.offset;
    assert Slice(a, c)[i - c.offset] == a[i] && Slice(b, c)[i - c.offset] == b[i];
  }

  /**
   * Damage confined to one 16-byte block, anywhere in a file of any size, always changes the 128-bit
   * file MAC; only the final folding to 64 bits can hide it.
   */
  lemma DamagedBlockIsSeen(aes: Aes, key: Octets, nonce: Nonce, a: Octets, b: Octets, j: nat)
    requires Lawful(aes) && DifferInBlock(a, b, j)
    ensures MacOf(aes, key, nonce, a) != MacOf(aes, key, nonce, b)
  {
    var plan := Plan(|a|);
    PlanIsWithin(|a|);
    var i :| 0 <= i < |a| && a[i] != b[i];
    PlanCoversOnce(|a|, i);
    var k: nat :| k < |plan| && Holds(plan[k], i);
    PieceIsWellPlaced(|a|, k);
    var c := plan[k];
    DamagedChunk(a, b, c, i, j);
    ChunkMacSeesBlock(aes, key, nonce, Slice(a, c), Slice(b, c), j - c.offset / 16);
    forall m | 0 <= m < |plan| && m != k ensures Slice(a, plan[m]) == Slice(b, plan[m]) {
      OtherChunksAgree(a, b, i, j, k, m);
    }
    CombinedSeesMac(aes, key, PlanMacs(aes, key, nonce, plan, a), PlanMacs(aes, key, nonce, plan, b), k);
  }
}
