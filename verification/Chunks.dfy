/** MEGA's non-uniform chunk partition (core/chunks.py). */
module Chunks {
  import opened Basics

  const CHUNK_SIZES_KB: seq<nat> := [128, 256, 384, 512, 640, 768, 896, 1024]
  const MAX_CHUNK_SIZE: nat := 1024 * 1024
  const MAX_CHUNKS: nat := 200_000
  // Sum of the first eight sizes, plus 1 MiB for each remaining chunk.
  const MAX_FILE_SIZE: nat :=
    (128 + 256 + 384 + 512 + 640 + 768 + 896 + 1024) * 1024 + (MAX_CHUNKS - 8) * MAX_CHUNK_SIZE

  /** The byte range [offset, offset + size) of a file. */
  datatype Chunk = Chunk(index: nat, offset: nat, size: nat) {
    function End(): nat { offset + size }
  }

  // ---- Reference definition: chunk i starts where the nominal sizes before it end

  function NominalSize(i: nat): (r: nat)
    ensures r > 0
  {
    if i < 8 then CHUNK_SIZES_KB[i] * 1024 else MAX_CHUNK_SIZE
  }

  function NominalOffset(i: nat): nat {
    if i == 0 then 0 else NominalOffset(i - 1) + NominalSize(i - 1)
  }

  function PlanFrom(fileSize: int, i: nat): seq<Chunk>
    decreases fileSize - NominalOffset(i)
  {
    if NominalOffset(i) >= fileSize then []
    else [Chunk(i, NominalOffset(i), Min(NominalSize(i), fileSize - NominalOffset(i)))] + PlanFrom(fileSize, i + 1)
  }

  /** The chunk plan of a file. */
  function Plan(fileSize: int): seq<Chunk> { PlanFrom(fileSize, 0) }

  /** True when this chunk carries the last byte of the file. */
  predicate IsFinalChunk(c: Chunk, totalSize: int) { c.End() >= totalSize }

  // ---- Shape of the plan

  lemma {:induction false} PlanFromAt(fileSize: int, i: nat, k: nat)
    requires k < |PlanFrom(fileSize, i)|
    ensures NominalOffset(i + k) < fileSize
    ensures PlanFrom(fileSize, i)[k] ==
            Chunk(i + k, NominalOffset(i + k), Min(NominalSize(i + k), fileSize - NominalOffset(i + k)))
    decreases k
  {
    if k > 0 {
      PlanFromAt(fileSize, i + 1, k - 1);
      assert PlanFrom(fileSize, i)[k] == PlanFrom(fileSize, i + 1)[k - 1];
    }
  }

  /** The plan stops exactly at the first nominal offset past the end. */
  lemma {:induction false} PlanFromLength(fileSize: int, i: nat)
    ensures NominalOffset(i + |PlanFrom(fileSize, i)|) >= fileSize
    decreases fileSize - NominalOffset(i)
  {
    if NominalOffset(i) < fileSize {
      PlanFromLength(fileSize, i + 1);
      assert i + |PlanFrom(fileSize, i)| == i + 1 + |PlanFrom(fileSize, i + 1)|;
    }
  }

  lemma {:induction false} NominalOffsetMonotone(i: nat, j: nat)
    requires i <= j
    ensures NominalOffset(i) <= NominalOffset(j)
    ensures i < j ==> NominalOffset(i) + NominalSize(i) <= NominalOffset(j)
  {
    if i < j { NominalOffsetMonotone(i, j - 1); }
  }

  /** Number of 16-byte cipher blocks before chunk i. */
  function NominalBlocks(i: nat): nat {
    if i == 0 then 0 else NominalBlocks(i - 1) + if i <= 8 then CHUNK_SIZES_KB[i - 1] * 64 else 65_536
  }

  lemma {:induction false} NominalOffsetAligned(i: nat)
    ensures NominalOffset(i) == 16 * NominalBlocks(i)
  {
    if i > 0 { NominalOffsetAligned(i - 1); }
  }

  predicate WellPlaced(c: Chunk, k: nat, fileSize: nat) {
    c.index == k && 0 < c.size <= MAX_CHUNK_SIZE && c.offset % 16 == 0 && c.End() <= fileSize
  }

  lemma PieceIsWellPlaced(fileSize: nat, k: nat)
    requires k < |Plan(fileSize)|
    ensures WellPlaced(Plan(fileSize)[k], k, fileSize)
  {
    PlanFromAt(fileSize, 0, k);
    NominalOffsetAligned(k);
    assert NominalSize(k) <= MAX_CHUNK_SIZE;
  }

  lemma PiecesAreContiguous(fileSize: nat, k: nat)
    requires 0 < k < |Plan(fileSize)|
    ensures Plan(fileSize)[k].offset == Plan(fileSize)[k - 1].End()
  {
    PlanFromAt(fileSize, 0, k);
    PlanFromAt(fileSize, 0, k - 1);
  }

  lemma PlanEnds(fileSize: nat)
    ensures |Plan(fileSize)| == 0 <==> fileSize == 0
    ensures fileSize > 0 ==>
              Plan(fileSize)[0].offset == 0 && Plan(fileSize)[|Plan(fileSize)| - 1].End() == fileSize
  {
    var n := |Plan(fileSize)|;
    PlanFromLength(fileSize, 0);
    if fileSize > 0 {
      PlanFromAt(fileSize, 0, n - 1);
      assert NominalOffset(n) == NominalOffset(n - 1) + NominalSize(n - 1);
    }
  }

  /** Indices count up, pieces are positive, contiguous, start on a cipher block and end at the file size. */
  lemma PlanIsContiguous(fileSize: nat)
    ensures forall k :: 0 <= k < |Plan(fileSize)| ==> WellPlaced(Plan(fileSize)[k], k, fileSize)
    ensures forall k :: 0 < k < |Plan(fileSize)| ==> Plan(fileSize)[k].offset == Plan(fileSize)[k - 1].End()
    ensures |Plan(fileSize)| == 0 <==> fileSize == 0
    ensures fileSize > 0 ==>
              Plan(fileSize)[0].offset == 0 && Plan(fileSize)[|Plan(fileSize)| - 1].End() == fileSize
  {
    forall k | 0 <= k < |Plan(fileSize)| ensures WellPlaced(Plan(fileSize)[k], k, fileSize) {
      PieceIsWellPlaced(fileSize, k);
    }
    forall k | 0 < k < |Plan(fileSize)| ensures Plan(fileSize)[k].offset == Plan(fileSize)[k - 1].End() {
      PiecesAreContiguous(fileSize, k);
    }
    PlanEnds(fileSize);
  }

  /** Two different chunks share no byte, and come in offset order. */
  lemma PlanDisjoint(fileSize: nat, i: nat, j: nat)
    requires i < j < |Plan(fileSize)|
    ensures Plan(fileSize)[i].End() <= Plan(fileSize)[j].offset
  {
    PlanFromAt(fileSize, 0, i);
    PlanFromAt(fileSize, 0, j);
    NominalOffsetMonotone(i, j);
  }

  /** The index of the chunk holding a byte, found by walking the plan. */
  function ChunkOf(fileSize: nat, b: nat, i: nat): (k: nat)
    requires b < fileSize && NominalOffset(i) <= b
    ensures i <= k && NominalOffset(k) <= b < NominalOffset(k + 1)
    decreases fileSize - NominalOffset(i)
  {
    if b < NominalOffset(i + 1) then i else ChunkOf(fileSize, b, i + 1)
  }

  lemma {:induction false} PlanReaches(fileSize: nat, i: nat, k: nat)
    requires i <= k && NominalOffset(k) < fileSize
    ensures k - i < |PlanFrom(fileSize, i)|
    decreases k - i
  {
    NominalOffsetMonotone(i, k);
    if i < k {
      PlanReaches(fileSize, i + 1, k);
    }
  }

  predicate Holds(c: Chunk, b: int) { c.offset <= b < c.End() }

  /** Every byte of the file lies in exactly one chunk. */
  lemma PlanCoversOnce(fileSize: nat, b: nat)
    requires b < fileSize
    ensures exists k: nat :: k < |Plan(fileSize)| && Holds(Plan(fileSize)[k], b)
    ensures forall j, k :: 0 <= j < k < |Plan(fileSize)| && Holds(Plan(fileSize)[j], b) ==> !Holds(Plan(fileSize)[k], b)
  {
    var p := Plan(fileSize);
    var k := ChunkOf(fileSize, b, 0);
    PlanReaches(fileSize, 0, k);
    PlanFromAt(fileSize, 0, k);
    assert Holds(p[k], b);
    forall j, m | 0 <= j < m < |p| ensures p[j].End() <= p[m].offset {
      PlanDisjoint(fileSize, j, m);
    }
  }

  /** Exactly one chunk is final: the last one. */
  lemma FinalChunkIsLast(fileSize: nat, k: nat)
    requires k < |Plan(fileSize)|
    ensures IsFinalChunk(Plan(fileSize)[k], fileSize) <==> k == |Plan(fileSize)| - 1
  {
    PlanIsContiguous(fileSize);
    if k < |Plan(fileSize)| - 1 {
      PlanDisjoint(fileSize, k, |Plan(fileSize)| - 1);
    }
  }

  // ---- The source's loops

  /** Where a loop over the chunks stands before the k-th: at its offset, or at the end of the file. */
  ghost predicate AtChunk(fileSize: int, k: nat, offset: int) {
    offset >= 0 && if NominalOffset(k) < fileSize then offset == NominalOffset(k) else offset >= fileSize
  }

  /** One more turn of a loop that has collected the chunks before the k-th. */
  lemma OneMoreChunk(fileSize: int, k: nat, offset: nat, size: nat, out: seq<Chunk>)
    requires offset < fileSize && AtChunk(fileSize, k, offset) && size == NominalSize(k)
    ensures var actual := Min(size, fileSize - offset);
      && out + PlanFrom(fileSize, k) == out + [Chunk(k, offset, actual)] + PlanFrom(fileSize, k + 1)
      && AtChunk(fileSize, k + 1, offset + actual)
  {
    var c := [Chunk(k, offset, Min(size, fileSize - offset))];
    assert PlanFrom(fileSize, k) == c + PlanFrom(fileSize, k + 1);
    assert out + (c + PlanFrom(fileSize, k + 1)) == out + c + PlanFrom(fileSize, k + 1);
    assert NominalOffset(k + 1) == NominalOffset(k) + size;
  }

  lemma NoMoreChunks(fileSize: int, k: nat, offset: nat, out: seq<Chunk>)
    requires offset >= fileSize && AtChunk(fileSize, k, offset)
    ensures out + PlanFrom(fileSize, k) == out
  {
  }

  /** `iter_chunks`, collected. */
  method IterChunks(fileSize: int) returns (out: seq<Chunk>)
    ensures out == Plan(fileSize)
  {
    var offset, index := 0, 0;
    out := [];
    for k := 0 to 8
      invariant index == k && AtChunk(fileSize, k, offset)
      invariant out + PlanFrom(fileSize, k) == Plan(fileSize)
    {
      var size := CHUNK_SIZES_KB[k] * 1024;
      if offset >= fileSize {
        NoMoreChunks(fileSize, k, offset, out);
        return;
      }
      var actual := Min(size, fileSize - offset);
      OneMoreChunk(fileSize, k, offset, size, out);
      out := out + [Chunk(index, offset, actual)];
      offset := offset + actual;
      index := index + 1;
    }
    while offset < fileSize
      invariant index >= 8 && AtChunk(fileSize, index, offset)
      invariant out + PlanFrom(fileSize, index) == Plan(fileSize)
    {
      var actual := Min(MAX_CHUNK_SIZE, fileSize - offset);
      OneMoreChunk(fileSize, index, offset, MAX_CHUNK_SIZE, out);
      out := out + [Chunk(index, offset, actual)];
      offset := offset + actual;
      index := index + 1;
    }
    NoMoreChunks(fileSize, index, offset, out);
  }

  /** From the ninth chunk on the remaining count is a rounded-up division. */
  lemma {:induction false} TailCount(fileSize: int, i: nat)
    requires i >= 8
    ensures |PlanFrom(fileSize, i)| ==
            if NominalOffset(i) >= fileSize then 0
            else (fileSize - NominalOffset(i) + MAX_CHUNK_SIZE - 1) / MAX_CHUNK_SIZE
    decreases fileSize - NominalOffset(i)
  {
    if NominalOffset(i) < fileSize {
      TailCount(fileSize, i + 1);
    }
  }

  /** `chunk_count`: the length of the plan, without building it. */
  method ChunkCount(fileSize: int) returns (count: nat)
    ensures count == |Plan(fileSize)|
  {
    if fileSize <= 0 {
      return 0;
    }
    var offset := 0;
    count := 0;
    for k := 0 to 8
      invariant count == k && offset == Min(NominalOffset(k), fileSize)
      invariant k + |PlanFrom(fileSize, k)| == |Plan(fileSize)|
      invariant k > 0 ==> NominalOffset(k - 1) < fileSize
    {
      if offset >= fileSize {
        return;
      }
      offset := offset + Min(CHUNK_SIZES_KB[k] * 1024, fileSize - offset);
      count := count + 1;
    }
    var remaining := fileSize - offset;
    TailCount(fileSize, 8);
    count := count + (remaining + MAX_CHUNK_SIZE - 1) / MAX_CHUNK_SIZE;
  }

  lemma {:induction false} NominalOffsetTail(i: nat)
    requires i >= 8
    ensures NominalOffset(i) == 4_718_592 + (i - 8) * MAX_CHUNK_SIZE
  {
    if i == 8 {
      assert NominalOffset(4) == 1_310_720;
    } else {
      NominalOffsetTail(i - 1);
    }
  }

  /** The two halves of the declared-size guard say the same thing. */
  lemma SizeGuardAgrees(fileSize: nat)
    ensures |Plan(fileSize)| <= MAX_CHUNKS <==> fileSize <= MAX_FILE_SIZE
  {
    NominalOffsetTail(MAX_CHUNKS);
    assert NominalOffset(MAX_CHUNKS) == MAX_FILE_SIZE;
    var n := |Plan(fileSize)|;
    PlanFromLength(fileSize, 0);
    if n <= MAX_CHUNKS {
      NominalOffsetMonotone(n, MAX_CHUNKS);
    } else {
      PlanFromAt(fileSize, 0, MAX_CHUNKS);
    }
  }

  // ---- Range selection

  /** The chunk and the half-open range [start, end) share a byte. */
  ghost predicate Overlaps(c: Chunk, start: int, end: int) {
    exists b: int :: Holds(c, b) && start <= b < end
  }

  /** What the loop keeps: chunks ending after `start` and beginning before `end`. */
  predicate Touches(c: Chunk, start: int, end: int) { c.End() > start && c.offset < end }

  function Select(p: seq<Chunk>, start: int, end: int): seq<Chunk> {
    if p == [] then []
    else
      var last := p[|p| - 1];
      Select(p[..|p| - 1], start, end) + if Touches(last, start, end) then [last] else []
  }

  lemma {:induction false} SelectMembers(p: seq<Chunk>, start: int, end: int, c: Chunk)
    ensures c in Select(p, start, end) <==> c in p && Touches(c, start, end)
  {
    if p != [] {
      SelectMembers(p[..|p| - 1], start, end, c);
      assert p == p[..|p| - 1] + [p[|p| - 1]];
    }
  }

  lemma {:induction false} SelectPrefix(p: seq<Chunk>, k: nat, start: int, end: int)
    requires k <= |p|
    requires forall j :: k <= j < |p| ==> !Touches(p[j], start, end)
    ensures Select(p, start, end) == Select(p[..k], start, end)
  {
    if k < |p| {
      SelectPrefix(p[..|p| - 1], k, start, end);
      assert p[..|p| - 1][..k] == p[..k];
    } else {
      assert p[..k] == p;
    }
  }

  /** `chunks_for_range`: the early exit drops nothing. */
  method ChunksForRange(fileSize: nat, start: int, end: int) returns (out: seq<Chunk>)
    ensures out == Select(Plan(fileSize), start, end)
  {
    var chunks := IterChunks(fileSize);
    out := [];
    for k := 0 to |chunks|
      invariant out == Select(chunks[..k], start, end)
    {
      var ch := chunks[k];
      assert chunks[..k + 1][..k] == chunks[..k];
      if ch.End() <= start {
        continue;
      }
      if ch.offset >= end {
        forall j | k <= j < |chunks| ensures !Touches(chunks[j], start, end) {
          if k < j { PlanDisjoint(fileSize, k, j); }
        }
        SelectPrefix(chunks, k, start, end);
        return;
      }
      out := out + [ch];
    }
    assert chunks == chunks[..|chunks|];
  }

  /** Where the chunk holding byte b starts, whatever the size of the file. */
  function ChunkStart(b: nat): (o: nat)
    ensures o <= b
  {
    if b < 128 * 1024 then 0
    else if b < 384 * 1024 then 128 * 1024
    else if b < 768 * 1024 then 384 * 1024
    else if b < 1280 * 1024 then 768 * 1024
    else if b < 1920 * 1024 then 1280 * 1024
    else if b < 2688 * 1024 then 1920 * 1024
    else if b < 3584 * 1024 then 2688 * 1024
    else if b < 4608 * 1024 then 3584 * 1024
    else b - (b - 4608 * 1024) % MAX_CHUNK_SIZE
  }

  lemma FirstOffsets()
    ensures NominalOffset(1) == 128 * 1024 && NominalOffset(2) == 384 * 1024 && NominalOffset(3) == 768 * 1024
    ensures NominalOffset(4) == 1280 * 1024 && NominalOffset(5) == 1920 * 1024 && NominalOffset(6) == 2688 * 1024
    ensures NominalOffset(7) == 3584 * 1024 && NominalOffset(8) == 4608 * 1024
  {
    assert NominalOffset(2) == 384 * 1024;
    assert NominalOffset(4) == 1280 * 1024;
    assert NominalOffset(6) == 2688 * 1024;
  }

  lemma RemainderOf(q: nat, r: nat)
    requires r < MAX_CHUNK_SIZE
    ensures (q * MAX_CHUNK_SIZE + r) % MAX_CHUNK_SIZE == r
  {
  }

  lemma LateChunkStart(k: nat, b: nat)
    requires k >= 8 && NominalOffset(k) <= b < NominalOffset(k + 1)
    ensures ChunkStart(b) == NominalOffset(k)
  {
    NominalOffsetTail(k);
    RemainderOf(k - 8, b - NominalOffset(k));
  }

  lemma EarlyChunkStart(k: nat, b: nat)
    requires k < 8 && NominalOffset(k) <= b < NominalOffset(k + 1)
    ensures ChunkStart(b) == NominalOffset(k)
  {
    FirstOffsets();
    assert NominalOffset(0) == 0;
    if k < 4 {
      assert k == 0 || k == 1 || k == 2 || k == 3;
    } else {
      assert k == 4 || k == 5 || k == 6 || k == 7;
    }
  }

  /** The closed form agrees with the walk over the plan. */
  lemma ChunkStartIsOffset(fileSize: nat, b: nat)
    requires b < fileSize
    ensures ChunkStart(b) == NominalOffset(ChunkOf(fileSize, b, 0))
  {
    var k := ChunkOf(fileSize, b, 0);
    if k < 8 { EarlyChunkStart(k, b); } else { LateChunkStart(k, b); }
  }

  ghost predicate SelectsOverlaps(fileSize: nat, start: int, end: int) {
    forall c :: c in Plan(fileSize) ==> (c in Select(Plan(fileSize), start, end) <==> Overlaps(c, start, end))
  }

  lemma SelectsTouching(fileSize: nat, start: int, end: int)
    ensures SelectsOverlaps(fileSize, start, end) <==> start < end || forall c :: c in Plan(fileSize) ==> !Touches(c, start, end)
  {
    var p := Plan(fileSize);
    PlanIsContiguous(fileSize);
    forall c | c in p
      ensures c in Select(p, start, end) <==> Touches(c, start, end)
      ensures start < end ==> (Touches(c, start, end) <==> Overlaps(c, start, end))
    {
      SelectMembers(p, start, end, c);
      if start < end && Touches(c, start, end) {
        var b := Max(c.offset, start);
        assert Holds(c, b) && start <= b < end;
      }
    }
  }

  /** The chunk holding a byte, by its place in the plan. */
  lemma HolderOf(fileSize: nat, b: nat) returns (k: nat)
    requires b < fileSize
    ensures k < |Plan(fileSize)| && Holds(Plan(fileSize)[k], b) && Plan(fileSize)[k].offset == ChunkStart(b)
    ensures forall c :: c in Plan(fileSize) && Holds(c, b) ==> c == Plan(fileSize)[k]
  {
    k := ChunkOf(fileSize, b, 0);
    ChunkStartIsOffset(fileSize, b);
    PlanReaches(fileSize, 0, k);
    PlanFromAt(fileSize, 0, k);
    PlanCoversOnce(fileSize, b);
  }

  /** A chunk touching an empty or backward range holds the byte `start`. */
  lemma TouchedByGap(fileSize: nat, start: int, end: int)
    requires end <= start
    ensures (exists c :: c in Plan(fileSize) && Touches(c, start, end)) <==> 0 < end && start < fileSize && ChunkStart(start) < end
  {
    PlanIsContiguous(fileSize);
    if 0 < end && start < fileSize {
      var k := HolderOf(fileSize, start);
      assert Plan(fileSize)[k] in Plan(fileSize);
    }
  }

  /**
   * For a nonempty range the selection is exactly the overlapping chunks. For an empty or backward range
   * nothing overlaps, and the selection is right exactly when `end` is not inside the chunk holding `start`.
   */
  lemma RangeSelectionExact(fileSize: nat, start: int, end: int)
    ensures SelectsOverlaps(fileSize, start, end) <==> start < end || end <= 0 || start >= fileSize || end <= ChunkStart(start)
  {
    SelectsTouching(fileSize, start, end);
    if end <= start { TouchedByGap(fileSize, start, end); }
  }

  lemma SmallPlan(fileSize: nat)
    requires 0 < fileSize <= 128 * 1024
    ensures Plan(fileSize) == [Chunk(0, 0, fileSize)]
  {
    assert NominalOffset(0) == 0 && NominalOffset(1) == 128 * 1024;
    assert PlanFrom(fileSize, 1) == [];
  }

  /** The empty range in the middle of a ten-byte file selects its only chunk. */
  lemma EmptyRangeSelectsAChunk()
    ensures Select(Plan(10), 5, 5) == Plan(10) == [Chunk(0, 0, 10)] && !SelectsOverlaps(10, 5, 5)
  {
    SmallPlan(10);
    var p := [Chunk(0, 0, 10)];
    assert p[..0] == [];
    assert Select(p, 5, 5) == [] + [Chunk(0, 0, 10)];
    RangeSelectionExact(10, 5, 5);
  }
}
