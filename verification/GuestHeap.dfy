/**
 The allocator for guest memory: it claims chunks of a linear memory by growing it, while
 the guest grows the same memory for itself, and serves 16-byte aligned allocations from an
 offset allocator per chunk. The offset allocator and the growing of memory are contracts:
 they may answer anything those allow, and may fail.
 */
module GuestHeap {
  import opened Basics
  import opened BudgetedMemories
  import opened ChargeSteps
  import opened SharedBudget

  const UNIT: nat := 16
  const U32: nat := 0x1_0000_0000
  const MIN_CHUNK_BYTES: nat := 1024 * 1024
  const PREFUND_BYTES: nat := 16 * 1024 * 1024
  const LOW_WATER_BYTES: nat := 4 * 1024 * 1024

  function Max(x: nat, y: nat): nat { if x >= y then x else y }

  function Saturate(x: nat): nat { if x < U32 then x else U32 - 1 }

  function DivCeil(x: nat, y: nat): nat
    requires y > 0
  {
    (x + y - 1) / y
  }

  /** Bytes to claim for a chunk that must serve `minBytes`. */
  function ChunkSizeFor(minBytes: nat): nat {
    Max(Saturate(Saturate(minBytes + minBytes / 8) + PAGE), MIN_CHUNK_BYTES)
  }

  function ChunkPagesFor(minBytes: nat): nat { DivCeil(ChunkSizeFor(minBytes), PAGE) }

  /** What the offset allocator may round `units` up to: an eighth more. */
  function Bin(units: nat): nat { units + DivCeil(units, 8) }

  /** A chunk claimed for `units` has room for them, and the length it records is exact, unless
      the claim is of all 65536 pages: that length does not fit 32 bits and is recorded as 0. */
  lemma ChunkHasRoom(units: nat)
    requires 0 < units && units * UNIT < U32
    ensures var len := ChunkPagesFor(units * UNIT) * PAGE;
            && 0 < len <= U32 && (len == U32 <==> ChunkSizeFor(units * UNIT) > U32 - PAGE)
            && (len < U32 <==> Bin(units) <= (len % U32) / UNIT)
  {
    assert units * UNIT / 8 == 2 * units;
  }

  /** Claiming nearly 4 GiB at once in an empty memory records a chunk of length 0, from which
      nothing can be allocated. */
  lemma WholeMemoryChunkIsEmpty()
    ensures var units := 0xF00_0000;
            && ChunkSizeFor(units * UNIT) > U32 - PAGE
            && units * UNIT < U32 && ChunkPagesFor(units * UNIT) == 65536
            && (ChunkPagesFor(units * UNIT) * PAGE) % U32 == 0
  {
  }

  // --------------------------------------------------------------------------
  // Regions of one chunk
  // --------------------------------------------------------------------------

  /** What the offset allocator has reserved, in units from the start of the chunk. */
  datatype Region = Region(offset: nat, size: nat)

  datatype Chunk = Chunk(start: nat, len: nat, regions: seq<Region>)

  datatype LiveAlloc = LiveAlloc(chunkIdx: nat, region: Region, len: nat)

  predicate Apart(r: Region, q: Region) { r.offset + r.size <= q.offset || q.offset + q.size <= r.offset }

  ghost predicate RegionsOk(regions: seq<Region>, capacity: nat) {
    && (forall k | 0 <= k < |regions| :: 0 < regions[k].size && regions[k].offset + regions[k].size <= capacity)
    && forall j, k | 0 <= j < k < |regions| :: Apart(regions[j], regions[k])
  }

  function Reserved(regions: seq<Region>): nat {
    if regions == [] then 0 else Reserved(regions[..|regions| - 1]) + regions[|regions| - 1].size
  }

  ghost function Units(r: Region): (units: set<nat>)
    ensures forall x: nat :: x in units <==> r.offset <= x < r.offset + r.size
    decreases r.size
  {
    if r.size == 0 then {} else Units(Region(r.offset, r.size - 1)) + {r.offset + r.size - 1}
  }

  ghost function AllUnits(regions: seq<Region>): set<nat> {
    if regions == [] then {} else AllUnits(regions[..|regions| - 1]) + Units(regions[|regions| - 1])
  }

  lemma {:induction false} UnitsCount(r: Region)
    ensures |Units(r)| == r.size
    decreases r.size
  {
    if r.size > 0 { UnitsCount(Region(r.offset, r.size - 1)); }
  }

  lemma {:induction false} RegionOf(regions: seq<Region>, x: nat) returns (k: nat)
    requires x in AllUnits(regions)
    ensures k < |regions| && x in Units(regions[k])
  {
    var n := |regions| - 1;
    if x in Units(regions[n]) { k := n; } else { k := RegionOf(regions[..n], x); }
  }

  lemma {:induction false} AllUnitsCount(regions: seq<Region>, capacity: nat)
    requires RegionsOk(regions, capacity)
    ensures |AllUnits(regions)| == Reserved(regions)
  {
    if regions != [] {
      var n := |regions| - 1;
      AllUnitsCount(regions[..n], capacity);
      UnitsCount(regions[n]);
      forall x <- AllUnits(regions[..n]) ensures x !in Units(regions[n]) {
        var k := RegionOf(regions[..n], x);
        assert Apart(regions[k], regions[n]);
      }
      assert AllUnits(regions[..n]) !! Units(regions[n]);
    }
  }

  lemma SubsetCount(a: set<nat>, b: set<nat>)
    requires a <= b
    ensures |a| <= |b|
  {
    assert b == a + (b - a);
  }

  /** Disjoint regions within a chunk add up to no more than the chunk. */
  lemma Packing(regions: seq<Region>, capacity: nat)
    requires RegionsOk(regions, capacity)
    ensures Reserved(regions) <= capacity
  {
    AllUnitsCount(regions, capacity);
    var whole := Region(0, capacity);
    UnitsCount(whole);
    forall x | x in AllUnits(regions) ensures x in Units(whole) {
      var k := RegionOf(regions, x);
    }
    SubsetCount(AllUnits(regions), Units(whole));
  }

  lemma ReservedPush(regions: seq<Region>, r: Region)
    ensures Reserved(regions + [r]) == Reserved(regions) + r.size
  {
    assert (regions + [r])[..|regions|] == regions;
  }

  lemma {:induction false} ReservedWithout(regions: seq<Region>, k: nat)
    requires k < |regions|
    ensures Reserved(regions[..k] + regions[k + 1..]) + regions[k].size == Reserved(regions)
  {
    var n := |regions| - 1;
    if k == n {
      assert regions[..k] + regions[k + 1..] == regions[..n];
    } else {
      ReservedWithout(regions[..n], k);
      assert (regions[..k] + regions[k + 1..])[..n - 1] == regions[..n][..k] + regions[..n][k + 1..];
    }
  }

  // --------------------------------------------------------------------------
  // Chunks and live allocations
  // --------------------------------------------------------------------------

  /** Chunks lie in the memory in the order they were claimed, on whole pages. */
  ghost predicate ChunksOk(chunks: seq<Chunk>, bytes: nat) {
    && (forall i | 0 <= i < |chunks| ::
          && chunks[i].start % PAGE == 0 && chunks[i].len % PAGE == 0 && chunks[i].len < U32
          && chunks[i].start + chunks[i].len <= bytes && RegionsOk(chunks[i].regions, chunks[i].len / UNIT))
    && forall i, j | 0 <= i < j < |chunks| :: chunks[i].start + chunks[i].len <= chunks[j].start
  }

  function OffsetOf(c: Chunk, r: Region): nat { c.start + r.offset * UNIT }

  /** Live allocations are the reserved regions, one for one. */
  ghost predicate LiveOk(chunks: seq<Chunk>, live: map<nat, LiveAlloc>) {
    && (forall o <- live ::
          && live[o].chunkIdx < |chunks| && live[o].region in chunks[live[o].chunkIdx].regions
          && o == OffsetOf(chunks[live[o].chunkIdx], live[o].region) && 0 < live[o].len <= live[o].region.size * UNIT)
    && forall i, k | 0 <= i < |chunks| && 0 <= k < |chunks[i].regions| ::
         var o := OffsetOf(chunks[i], chunks[i].regions[k]);
         o in live && live[o].chunkIdx == i && live[o].region == chunks[i].regions[k]
  }

  function TotalFree(chunks: seq<Chunk>): int {
    if chunks == [] then 0
    else
      var c := chunks[|chunks| - 1];
      TotalFree(chunks[..|chunks| - 1]) + c.len - Reserved(c.regions) * UNIT
  }

  lemma {:induction false} TotalFreeUpdate(chunks: seq<Chunk>, i: nat, c: Chunk)
    requires i < |chunks|
    ensures TotalFree(chunks[i := c]) ==
              TotalFree(chunks) - (chunks[i].len - Reserved(chunks[i].regions) * UNIT) + c.len -
                Reserved(c.regions) * UNIT
  {
    var n := |chunks| - 1;
    if i == n {
      assert chunks[i := c][..n] == chunks[..n];
    } else {
      assert chunks[i := c][..n] == chunks[..n][i := c];
      TotalFreeUpdate(chunks[..n], i, c);
    }
  }

  lemma TotalFreePush(chunks: seq<Chunk>, c: Chunk)
    ensures TotalFree(chunks + [c]) == TotalFree(chunks) + c.len - Reserved(c.regions) * UNIT
  {
    assert (chunks + [c])[..|chunks|] == chunks;
  }

  /** What is free in any one chunk is part of the total, which is never negative. */
  lemma {:induction false} FreeInChunk(chunks: seq<Chunk>, i: nat, bytes: nat)
    requires ChunksOk(chunks, bytes) && i < |chunks|
    ensures 0 <= chunks[i].len - Reserved(chunks[i].regions) * UNIT <= TotalFree(chunks)
  {
    var n := |chunks| - 1;
    Packing(chunks[n].regions, chunks[n].len / UNIT);
    if i < n {
      FreeInChunk(chunks[..n], i, bytes);
    } else if n > 0 {
      FreeInChunk(chunks[..n], n - 1, bytes);
    }
  }

  ghost predicate HeapOk(chunks: seq<Chunk>, live: map<nat, LiveAlloc>, freeBytes: nat, bytes: nat) {
    ChunksOk(chunks, bytes) && LiveOk(chunks, live) && freeBytes == TotalFree(chunks)
  }

  lemma RegionEnd(c: Chunk, r: Region)
    requires c.len % PAGE == 0 && r.offset + r.size <= c.len / UNIT
    ensures OffsetOf(c, r) + r.size * UNIT <= c.start + c.len
  {
    assert c.len == c.len / UNIT * UNIT;
    assert (r.offset + r.size) * UNIT <= c.len / UNIT * UNIT;
  }

  /** A live allocation is 16-byte aligned, inside one chunk and inside the memory. */
  lemma LiveInsideChunk(chunks: seq<Chunk>, live: map<nat, LiveAlloc>, freeBytes: nat, bytes: nat, o: nat)
    requires HeapOk(chunks, live, freeBytes, bytes) && o in live
    ensures live[o].chunkIdx < |chunks|
    ensures var c := chunks[live[o].chunkIdx];
              o % UNIT == 0 && c.start <= o && o + live[o].len <= c.start + c.len <= bytes
  {
    var c, r := chunks[live[o].chunkIdx], live[o].region;
    var k :| 0 <= k < |c.regions| && c.regions[k] == r;
    Aligned(c, r);
    RegionEnd(c, r);
  }

  lemma Aligned(c: Chunk, r: Region)
    requires c.start % PAGE == 0
    ensures OffsetOf(c, r) % UNIT == 0
  {
    assert c.start == c.start / PAGE * 4096 * UNIT;
    assert OffsetOf(c, r) == (c.start / PAGE * 4096 + r.offset) * UNIT;
  }

  /** Two live allocations never overlap. */
  lemma LiveDisjoint(chunks: seq<Chunk>, live: map<nat, LiveAlloc>, freeBytes: nat, bytes: nat, o: nat, q: nat)
    requires HeapOk(chunks, live, freeBytes, bytes) && o in live && q in live && o != q
    ensures o + live[o].len <= q || q + live[q].len <= o
  {
    LiveInsideChunk(chunks, live, freeBytes, bytes, o);
    LiveInsideChunk(chunks, live, freeBytes, bytes, q);
    var i, j := live[o].chunkIdx, live[q].chunkIdx;
    if i == j {
      InSameChunk(chunks[i], live[o], live[q]);
    } else if i < j {
      assert chunks[i].start + chunks[i].len <= chunks[j].start;
    } else {
      assert chunks[j].start + chunks[j].len <= chunks[i].start;
    }
  }

  lemma InSameChunk(c: Chunk, a: LiveAlloc, b: LiveAlloc)
    requires RegionsOk(c.regions, c.len / UNIT) && a.region in c.regions && b.region in c.regions
             && a.region != b.region
    requires a.len <= a.region.size * UNIT && b.len <= b.region.size * UNIT
    ensures OffsetOf(c, a.region) + a.len <= OffsetOf(c, b.region)
            || OffsetOf(c, b.region) + b.len <= OffsetOf(c, a.region)
  {
    var k :| 0 <= k < |c.regions| && c.regions[k] == a.region;
    var m :| 0 <= m < |c.regions| && c.regions[m] == b.region;
    assert if k < m then Apart(c.regions[k], c.regions[m]) else Apart(c.regions[m], c.regions[k]);
  }

  // --------------------------------------------------------------------------
  // Allocating and freeing, on values
  // --------------------------------------------------------------------------

  /** What the offset allocator may answer for `units`: a free region at least that big. */
  predicate MayOffer(c: Chunk, units: nat, r: Region) {
    && units <= r.size && 0 < r.size && r.offset + r.size <= c.len / UNIT
    && forall k | 0 <= k < |c.regions| :: Apart(c.regions[k], r)
  }

  function WithRegion(chunks: seq<Chunk>, i: nat, r: Region): seq<Chunk>
    requires i < |chunks|
  {
    chunks[i := chunks[i].(regions := chunks[i].regions + [r])]
  }

  function WithoutRegion(chunks: seq<Chunk>, i: nat, k: nat): seq<Chunk>
    requires i < |chunks| && k < |chunks[i].regions|
  {
    chunks[i := chunks[i].(regions := chunks[i].regions[..k] + chunks[i].regions[k + 1..])]
  }

  /** An offered region lies in the memory: none of the 32-bit products and sums overflows, the
      subtraction from the free bytes is exact, and its offset is not that of a live allocation. */
  lemma OfferFits(chunks: seq<Chunk>, live: map<nat, LiveAlloc>, freeBytes: nat, bytes: nat, i: nat, units: nat,
      r: Region)
    requires HeapOk(chunks, live, freeBytes, bytes) && bytes <= U32 && i < |chunks| && 0 < units
             && MayOffer(chunks[i], units, r)
    ensures r.offset * UNIT < U32 && units * UNIT < U32 && r.offset * UNIT + units * UNIT <= chunks[i].len
    ensures OffsetOf(chunks[i], r) < U32 && r.size * UNIT <= freeBytes
    ensures OffsetOf(chunks[i], r) !in live
  {
    RegionEnd(chunks[i], r);
    RoomForOffer(chunks, bytes, i, units, r);
    forall q <- live ensures q != OffsetOf(chunks[i], r) {
      OfferElsewhere(chunks, live, freeBytes, bytes, i, units, r, q);
    }
  }

  lemma RoomForOffer(chunks: seq<Chunk>, bytes: nat, i: nat, units: nat, r: Region)
    requires ChunksOk(chunks, bytes) && i < |chunks| && MayOffer(chunks[i], units, r)
    ensures r.size * UNIT <= TotalFree(chunks) && RegionsOk(chunks[i].regions + [r], chunks[i].len / UNIT)
  {
    FreeInChunk(chunks, i, bytes);
    OfferKeepsRegions(chunks[i].regions, chunks[i].len / UNIT, r);
    Packing(chunks[i].regions + [r], chunks[i].len / UNIT);
    ReservedPush(chunks[i].regions, r);
  }

  lemma OfferKeepsRegions(regions: seq<Region>, capacity: nat, r: Region)
    requires RegionsOk(regions, capacity) && 0 < r.size && r.offset + r.size <= capacity
    requires forall k | 0 <= k < |regions| :: Apart(regions[k], r)
    ensures RegionsOk(regions + [r], capacity)
  {
  }

  lemma OfferElsewhere(chunks: seq<Chunk>, live: map<nat, LiveAlloc>, freeBytes: nat, bytes: nat, i: nat, units: nat,
      r: Region, q: nat)
    requires HeapOk(chunks, live, freeBytes, bytes) && i < |chunks| && 0 < units && MayOffer(chunks[i], units, r)
             && q in live
    ensures q != OffsetOf(chunks[i], r)
  {
    LiveInsideChunk(chunks, live, freeBytes, bytes, q);
    RegionEnd(chunks[i], r);
    var j := live[q].chunkIdx;
    if j == i {
      var k :| 0 <= k < |chunks[i].regions| && chunks[i].regions[k] == live[q].region;
      assert Apart(chunks[i].regions[k], r);
    } else if j < i {
      assert chunks[j].start + chunks[j].len <= chunks[i].start;
    } else {
      assert chunks[i].start + chunks[i].len <= chunks[j].start;
    }
  }

  lemma AllocKeeps(chunks: seq<Chunk>, live: map<nat, LiveAlloc>, freeBytes: nat, bytes: nat, i: nat, units: nat,
      r: Region)
    requires HeapOk(chunks, live, freeBytes, bytes) && bytes <= U32 && i < |chunks| && 0 < units
             && MayOffer(chunks[i], units, r)
    ensures r.size * UNIT <= freeBytes
    ensures HeapOk(WithRegion(chunks, i, r), live[OffsetOf(chunks[i], r) := LiveAlloc(i, r, units * UNIT)],
                   freeBytes - r.size * UNIT, bytes)
  {
    OfferFits(chunks, live, freeBytes, bytes, i, units, r);
    RoomForOffer(chunks, bytes, i, units, r);
    ReservedPush(chunks[i].regions, r);
    TotalFreeUpdate(chunks, i, WithRegion(chunks, i, r)[i]);
    RegionsKeepChunks(chunks, bytes, i, chunks[i].regions + [r]);
    AllocKeepsLive(chunks, live, i, units, r);
  }

  lemma RegionsKeepChunks(chunks: seq<Chunk>, bytes: nat, i: nat, regions: seq<Region>)
    requires ChunksOk(chunks, bytes) && i < |chunks| && RegionsOk(regions, chunks[i].len / UNIT)
    ensures ChunksOk(chunks[i := chunks[i].(regions := regions)], bytes)
  {
  }

  lemma AllocKeepsLive(chunks: seq<Chunk>, live: map<nat, LiveAlloc>, i: nat, units: nat, r: Region)
    requires LiveOk(chunks, live) && i < |chunks| && 0 < units <= r.size && OffsetOf(chunks[i], r) !in live
    ensures LiveOk(WithRegion(chunks, i, r), live[OffsetOf(chunks[i], r) := LiveAlloc(i, r, units * UNIT)])
  {
    var chunks', o := WithRegion(chunks, i, r), OffsetOf(chunks[i], r);
    var live' := live[o := LiveAlloc(i, r, units * UNIT)];
    assert chunks'[i].regions[|chunks[i].regions|] == r;
    forall q <- live' ensures live'[q].chunkIdx < |chunks'| && live'[q].region in chunks'[live'[q].chunkIdx].regions {
      if q != o { assert live[q].region in chunks[live[q].chunkIdx].regions; }
    }
    forall j, k | 0 <= j < |chunks'| && 0 <= k < |chunks'[j].regions|
      ensures var q := OffsetOf(chunks'[j], chunks'[j].regions[k]);
              q in live' && live'[q].chunkIdx == j && live'[q].region == chunks'[j].regions[k]
    {
      if j != i || k < |chunks[i].regions| {
        assert chunks'[j].regions[k] == chunks[j].regions[k];
        assert OffsetOf(chunks[j], chunks[j].regions[k]) in live;
      }
    }
  }

  lemma FreeKeeps(chunks: seq<Chunk>, live: map<nat, LiveAlloc>, freeBytes: nat, bytes: nat, o: nat, k: nat)
    requires HeapOk(chunks, live, freeBytes, bytes) && o in live && live[o].chunkIdx < |chunks|
    requires k < |chunks[live[o].chunkIdx].regions| && chunks[live[o].chunkIdx].regions[k] == live[o].region
    ensures HeapOk(WithoutRegion(chunks, live[o].chunkIdx, k), live - {o}, freeBytes + live[o].region.size * UNIT,
                   bytes)
  {
    var i := live[o].chunkIdx;
    var now := chunks[i].regions[..k] + chunks[i].regions[k + 1..];
    ReservedWithout(chunks[i].regions, k);
    TotalFreeUpdate(chunks, i, chunks[i].(regions := now));
    WithoutKeepsRegions(chunks[i].regions, chunks[i].len / UNIT, k);
    RegionsKeepChunks(chunks, bytes, i, now);
    FreeKeepsLive(chunks, live, bytes, o, k);
  }

  lemma WithoutKeepsRegions(regions: seq<Region>, capacity: nat, k: nat)
    requires RegionsOk(regions, capacity) && k < |regions|
    ensures RegionsOk(regions[..k] + regions[k + 1..], capacity)
  {
    var now := regions[..k] + regions[k + 1..];
    forall m | 0 <= m < |now| ensures now[m] == regions[if m < k then m else m + 1] {}
    forall j, m | 0 <= j < m < |now| ensures Apart(now[j], now[m]) {
      assert Apart(regions[if j < k then j else j + 1], regions[if m < k then m else m + 1]);
    }
  }

  lemma FreeKeepsLive(chunks: seq<Chunk>, live: map<nat, LiveAlloc>, bytes: nat, o: nat, k: nat)
    requires ChunksOk(chunks, bytes) && LiveOk(chunks, live) && o in live && live[o].chunkIdx < |chunks|
    requires k < |chunks[live[o].chunkIdx].regions| && chunks[live[o].chunkIdx].regions[k] == live[o].region
    ensures LiveOk(WithoutRegion(chunks, live[o].chunkIdx, k), live - {o})
  {
    var i := live[o].chunkIdx;
    var chunks', live' := WithoutRegion(chunks, i, k), live - {o};
    forall q <- live' ensures live'[q].region in chunks'[live'[q].chunkIdx].regions {
      FreeKeepsEntry(chunks, live, o, k, q);
    }
    forall j, m | 0 <= j < |chunks'| && 0 <= m < |chunks'[j].regions|
      ensures var q := OffsetOf(chunks'[j], chunks'[j].regions[m]);
              q in live' && live'[q].chunkIdx == j && live'[q].region == chunks'[j].regions[m]
    {
      FreeKeepsRegion(chunks, live, bytes, o, k, j, m);
    }
  }

  lemma FreeKeepsEntry(chunks: seq<Chunk>, live: map<nat, LiveAlloc>, o: nat, k: nat, q: nat)
    requires LiveOk(chunks, live) && o in live && q in live && q != o && live[o].chunkIdx < |chunks|
             && live[q].chunkIdx < |chunks|
    requires k < |chunks[live[o].chunkIdx].regions| && chunks[live[o].chunkIdx].regions[k] == live[o].region
    ensures live[q].region in WithoutRegion(chunks, live[o].chunkIdx, k)[live[q].chunkIdx].regions
  {
    var i := live[o].chunkIdx;
    if live[q].chunkIdx == i {
      var was := chunks[i].regions;
      var now := was[..k] + was[k + 1..];
      var m :| 0 <= m < |was| && was[m] == live[q].region;
      assert m != k;
      assert now[if m < k then m else m - 1] == was[m];
    }
  }

  lemma FreeKeepsRegion(chunks: seq<Chunk>, live: map<nat, LiveAlloc>, bytes: nat, o: nat, k: nat, j: nat, m: nat)
    requires ChunksOk(chunks, bytes) && LiveOk(chunks, live) && o in live && live[o].chunkIdx < |chunks| && j < |chunks|
    requires k < |chunks[live[o].chunkIdx].regions| && chunks[live[o].chunkIdx].regions[k] == live[o].region
    requires m < |WithoutRegion(chunks, live[o].chunkIdx, k)[j].regions|
    ensures var c := WithoutRegion(chunks, live[o].chunkIdx, k)[j];
            var q := OffsetOf(c, c.regions[m]);
            q in live && q != o && live[q].chunkIdx == j && live[q].region == c.regions[m]
  {
    var i := live[o].chunkIdx;
    var m' := if j == i && m >= k then m + 1 else m;
    var c := WithoutRegion(chunks, i, k)[j];
    assert c.regions[m] == chunks[j].regions[m'];
    RegionIsLive(chunks, live, j, m');
    if j == i { ApartStarts(chunks[i].regions, chunks[i].len / UNIT, m', k); }
  }

  lemma RegionIsLive(chunks: seq<Chunk>, live: map<nat, LiveAlloc>, j: nat, m: nat)
    requires LiveOk(chunks, live) && j < |chunks| && m < |chunks[j].regions|
    ensures var q := OffsetOf(chunks[j], chunks[j].regions[m]);
            q in live && live[q].chunkIdx == j && live[q].region == chunks[j].regions[m]
  {
  }

  lemma ApartStarts(regions: seq<Region>, capacity: nat, m: nat, k: nat)
    requires RegionsOk(regions, capacity) && m < |regions| && k < |regions| && m != k
    ensures regions[m].offset != regions[k].offset
  {
    assert if m < k then Apart(regions[m], regions[k]) else Apart(regions[k], regions[m]);
  }

  lemma ClaimKeeps(chunks: seq<Chunk>, live: map<nat, LiveAlloc>, freeBytes: nat, bytes: nat, c: Chunk, bytes': nat)
    requires HeapOk(chunks, live, freeBytes, bytes) && c.regions == [] && bytes <= c.start && c.start + c.len <= bytes'
    requires c.start % PAGE == 0 && c.len % PAGE == 0 && c.len < U32
    ensures HeapOk(chunks + [c], live, freeBytes + c.len, bytes')
  {
    ClaimKeepsChunks(chunks, bytes, c, bytes');
    ClaimKeepsLive(chunks, live, c);
    hide ChunksOk, LiveOk;
    TotalFreePush(chunks, c);
  }

  lemma ClaimKeepsChunks(chunks: seq<Chunk>, bytes: nat, c: Chunk, bytes': nat)
    requires ChunksOk(chunks, bytes) && c.regions == [] && bytes <= c.start && c.start + c.len <= bytes'
    requires c.start % PAGE == 0 && c.len % PAGE == 0 && c.len < U32
    ensures ChunksOk(chunks + [c], bytes')
  {
  }

  lemma ClaimKeepsLive(chunks: seq<Chunk>, live: map<nat, LiveAlloc>, c: Chunk)
    requires LiveOk(chunks, live) && c.regions == []
    ensures LiveOk(chunks + [c], live)
  {
    hide OffsetOf;
  }

  // --------------------------------------------------------------------------
  // The memory and who grew it
  // --------------------------------------------------------------------------

  ghost function HeapPages(byHeap: seq<bool>): nat {
    if byHeap == [] then 0 else HeapPages(byHeap[..|byHeap| - 1]) + if byHeap[|byHeap| - 1] then 1 else 0
  }

  lemma {:induction false} HeapPagesGrow(byHeap: seq<bool>, delta: nat, heap: bool)
    ensures HeapPages(byHeap + seq(delta, _ => heap)) == HeapPages(byHeap) + if heap then delta else 0
    decreases delta
  {
    var grown := byHeap + seq(delta, _ => heap);
    if delta == 0 {
      assert grown == byHeap;
    } else {
      HeapPagesGrow(byHeap, delta - 1, heap);
      assert grown[..|grown| - 1] == byHeap + seq(delta - 1, _ => heap);
    }
  }

  /** The linear memory of a heap: one of the memories on the heap's budget, budgeted or plain.
      It never shrinks or moves while the heap lives; `byHeap` says of each page whether the heap
      or the guest claimed it. */
  class LinearMemory {
    const memories: Memories
    const handle: nat
    ghost var byHeap: seq<bool>

    ghost predicate Valid()
      reads this, memories, memories.ledger
    {
      memories.Valid() && memories.IsHandle(handle) && |byHeap| == Pages() <= MaxPages() <= 65536
    }

    function Pages(): nat
      reads memories
    {
      if handle < |memories.memories| then memories.memories[handle].pages else 0
    }

    function MaxPages(): nat
      reads memories
    {
      if handle < |memories.memories| then memories.memories[handle].maximum else 0
    }

    predicate Budgeted()
      reads memories
    {
      handle < |memories.memories| && memories.memories[handle].budgeted
    }

    /** What all the other memories on the budget are charged. */
    ghost function Others(): int
      reads memories
    {
      TotalCharged(memories.memories) -
      if handle < |memories.memories| then BudgetedMemories.Charged(memories.memories[handle]) else 0
    }

    constructor (memories: Memories, handle: nat)
      requires memories.Valid() && memories.IsHandle(handle) && memories.memories[handle].maximum <= 65536
      ensures Valid() && this.memories == memories && this.handle == handle && HeapPages(byHeap) == 0
    {
      this.memories, this.handle := memories, handle;
      byHeap := seq(memories.memories[handle].pages, _ => false);
      new;
      assert memories.memories[handle] in memories.memories;
      HeapPagesGrow([], Pages(), false);
      assert [] + seq(Pages(), _ => false) == byHeap;
    }

    /** Grows by `delta` pages and returns the old size. Growth by the heap and by the guest are
        the same operation, which charges a budgeted memory. */
    method Grow(delta: nat, grows: bool, accept: bool, ghost heap: bool) returns (previous: Option<nat>)
      requires Valid()
      modifies this, memories`memories, memories.ledger
      ensures Valid() && MaxPages() == old(MaxPages()) && Budgeted() == old(Budgeted()) && Others() == old(Others())
      ensures previous.Some? <==>
                && old(memories.ledger.Admits(if Budgeted() then delta * PAGE else 0, accept))
                && grows && old(Pages()) + delta <= MaxPages()
      ensures if previous.None? then
                Pages() == old(Pages()) && byHeap == old(byHeap) && memories.ledger.pools == old(memories.ledger.pools)
              else
                && previous.value == old(Pages()) && Pages() == old(Pages()) + delta
                && byHeap == old(byHeap) + seq(delta, _ => heap)
                && memories.ledger.pools.wasmLinear ==
                   old(memories.ledger.pools).wasmLinear + if Budgeted() then delta * PAGE else 0
    {
      ghost var ms := memories.memories;
      previous := memories.Grow(handle, delta, grows, accept);
      if previous.Some? {
        byHeap := byHeap + seq(delta, _ => heap);
        TotalUpdate(ms, handle, memories.memories[handle]);
      }
    }
  }

  /** The offset allocator: any free region that is big enough, or nothing; but an empty chunk
      with room for the rounded request does serve it. */
  method Offer(c: Chunk, units: nat) returns (r: Option<Region>)
    requires 0 < units
    ensures r.Some? ==> MayOffer(c, units, r.value)
    ensures c.regions == [] && Bin(units) <= c.len / UNIT ==> r.Some?
  {
    var offset: nat := *;
    var size: nat := *;
    if MayOffer(c, units, Region(offset, size)) { return Some(Region(offset, size)); }
    if c.regions == [] && Bin(units) <= c.len / UNIT { return Some(Region(0, units)); }
    r := None;
  }

  // --------------------------------------------------------------------------
  // The heap
  // --------------------------------------------------------------------------

  predicate InChunk(c: Chunk, p: nat) { c.start <= p * PAGE < c.start + c.len }

  /** Every page of the chunk was claimed by the heap. */
  ghost predicate OnHeapPages(c: Chunk, byHeap: seq<bool>) {
    forall p: nat | InChunk(c, p) :: p < |byHeap| && byHeap[p]
  }

  ghost predicate LayoutOk(chunks: seq<Chunk>, live: map<nat, LiveAlloc>, freeBytes: nat, pages: nat,
      byHeap: seq<bool>) {
    HeapOk(chunks, live, freeBytes, pages * PAGE) && forall i | 0 <= i < |chunks| :: OnHeapPages(chunks[i], byHeap)
  }

  function SaturatingSub(x: nat, y: nat): nat { if y <= x then x - y else 0 }

  function UnitsFor(len: nat): nat { DivCeil(Max(len, 1), UNIT) }

  /** All of a claim is admitted exactly if its charges are, one by one. */
  lemma AdmitsInTurn(b: Budget, mem: nat, share: nat, bytes: nat, budgeted: bool, accept: bool)
    ensures ChargeSteps.Admits(b, mem, share, ClaimCost(b, budgeted, bytes), accept) <==>
              && (b.Accounted? || ChargeSteps.Admits(b, mem, share, bytes, accept))
              && ChargeSteps.Admits(b, mem + if b.Accounted? then 0 else bytes, share,
                                    if budgeted then bytes else 0, accept)
  {
  }

  /** What a budget is charged for bytes that a heap claims: by the heap, unless an embedder
      accounts for them, and by the memory, if that is budgeted. */
  function ClaimCost(b: Budget, budgeted: bool, bytes: nat): nat {
    (if b.Accounted? then 0 else bytes) + (if budgeted then bytes else 0)
  }

  class Heap {
    const memory: LinearMemory
    const memories: Memories
    const ledger: Ledger
    const base: nat
    var chunks: seq<Chunk>
    var live: map<nat, LiveAlloc>
    var freeBytes: nat
    var pendingWant: nat
    var charged: nat
    var observedLen: nat
    // when the heap was made: the pool, what others than the heap and its memory were charged in
    // it, and the memory's size
    ghost const poolBefore: nat
    ghost const restBefore: int
    ghost const pagesBefore: nat

    function MaxBytes(): nat
      reads memory.memories
    {
      memory.MaxPages() * PAGE
    }

    /** wasm_is_externally_accounted: an embedder has an accountant of its own. */
    predicate External() { ledger.budget.Accounted? }

    function PoolCost(bytes: nat): nat
      reads memory.memories
    {
      ClaimCost(ledger.budget, memory.Budgeted(), bytes)
    }

    /** What everybody else is charged in the pool: others than the heap and its memory. */
    ghost function Rest(): int
      reads this, memory, memories, memory.memories
    {
      memories.others - charged + memory.Others()
    }

    /** What the heap charged is what it claimed, unless an embedder accounts for it. The memory's
        own charge is kept by the memory. */
    ghost predicate Accounted()
      reads this, memory, memories, ledger
    {
      && memory.memories == memories && memories.ledger == ledger && memory.Valid()
      && charged == (if External() then 0 else HeapPages(memory.byHeap) * PAGE)
      && charged <= memories.others && pagesBefore <= memory.Pages()
      && poolBefore == restBefore + if memory.Budgeted() then pagesBefore * PAGE else 0
    }

    ghost predicate Valid()
      reads this, memory, memories, ledger
    {
      && Accounted() && LayoutOk(chunks, live, freeBytes, memory.Pages(), memory.byHeap)
      && observedLen <= memory.Pages() * PAGE && pendingWant < U32
    }

    /** A heap without any chunk; see `Create` for the arena claimed first. */
    constructor (memory: LinearMemory, base: nat)
      requires memory.Valid() && HeapPages(memory.byHeap) == 0
      ensures Valid() && this.memory == memory && this.base == base
      ensures live == map[] && chunks == [] && freeBytes == 0 && charged == 0 && pendingWant == 0
      ensures poolBefore == ledger.pools.wasmLinear && pagesBefore == memory.Pages() && restBefore == Rest()
    {
      this.memory, this.memories, this.ledger, this.base := memory, memory.memories, memory.memories.ledger, base;
      chunks, live, freeBytes, pendingWant, charged := [], map[], 0, 0, 0;
      observedLen := memory.Pages() * PAGE;
      poolBefore, pagesBefore := memory.memories.ledger.pools.wasmLinear, memory.Pages();
      restBefore := memory.memories.others + memory.Others();
    }

    /** GuestHeap::new: claims an arena at once, if it can. */
    static method Create(memory: LinearMemory, base: nat, grows: bool, accept: bool) returns (heap: Heap)
      requires memory.Valid() && HeapPages(memory.byHeap) == 0
      modifies memory, memory.memories, memory.memories.ledger
      ensures fresh(heap) && heap.Valid() && heap.memory == memory && heap.base == base && heap.live == map[]
      ensures heap.poolBefore == old(memory.memories.ledger.pools.wasmLinear) && heap.pagesBefore == old(memory.Pages())
      ensures heap.restBefore == old(memory.memories.others + memory.Others()) == heap.Rest()
      ensures memory.Budgeted() == old(memory.Budgeted()) && memory.MaxPages() == old(memory.MaxPages())
      ensures var claimed := grows && old(memory.Pages()) + ChunkPagesFor(PREFUND_BYTES) <= old(memory.MaxPages())
                && old(memory.memories.ledger.Admits(PrefundCost(memory), accept));
              && memory.Pages() == old(memory.Pages()) + (if claimed then ChunkPagesFor(PREFUND_BYTES) else 0)
              && heap.chunks == if claimed then [ClaimedChunk(old(memory.Pages()), ChunkPagesFor(PREFUND_BYTES))]
                                else []
      ensures heap.charged == if heap.External() then 0 else (memory.Pages() - heap.pagesBefore) * PAGE
    {
      heap := new Heap(memory, base);
      assert [] + [ClaimedChunk(memory.Pages(), ChunkPagesFor(PREFUND_BYTES))] ==
             [ClaimedChunk(memory.Pages(), ChunkPagesFor(PREFUND_BYTES))];
      var _ := heap.Refill(true, PREFUND_BYTES, grows, accept);
    }

    /** In every state of every run the pool is what it was, plus what the heap charged, plus what
        a budgeted memory grew by, whoever grew it, plus what everybody else was charged since. */
    lemma PoolEquation()
      requires Valid()
      ensures ledger.pools.wasmLinear ==
              poolBefore + charged + (Rest() - restBefore) +
              if memory.Budgeted() then (memory.Pages() - pagesBefore) * PAGE else 0
    {
    }

    /** What the pool holds for the pages the heap claimed: all of it but what everybody
        else is charged and what the guest's pages cost. */
    ghost function PoolOfHeapPages(): int
      reads this, memory, memories, memory.memories, ledger
    {
      ledger.pools.wasmLinear - Rest() -
      if memory.Budgeted() then (memory.Pages() - HeapPages(memory.byHeap)) * PAGE else 0
    }

    /** An embedder's own tunables meter the growth of a memory that is not budgeted here. */
    ghost function MeteredByEmbedder(): nat
      reads memory, memory.memories
    {
      if External() && !memory.Budgeted() then HeapPages(memory.byHeap) * PAGE else 0
    }

    /** The pages the heap claimed are counted exactly once if and only if exactly one of the two
        applies: something meters the memory's growth (an embedder, or the memory being
        budgeted), and the heap charges for itself. So without an embedder's accountant they are
        counted once exactly if the memory is not budgeted, and otherwise twice. */
    lemma CountedOnceIff()
      requires Valid() && HeapPages(memory.byHeap) > 0
      ensures PoolOfHeapPages() == PoolCost(HeapPages(memory.byHeap) * PAGE)
      ensures PoolOfHeapPages() + MeteredByEmbedder() == HeapPages(memory.byHeap) * PAGE <==>
              (External() || memory.Budgeted()) != !External()
      ensures !External() ==>
                (PoolOfHeapPages() == HeapPages(memory.byHeap) * PAGE <==> !memory.Budgeted())
                && (PoolOfHeapPages() == 2 * HeapPages(memory.byHeap) * PAGE <==> memory.Budgeted())
    {
    }

    /** The guest grows its memory for itself, between any two operations of the heap; a budgeted
        memory is charged for it. */
    method GuestGrows(delta: nat, grows: bool, accept: bool) returns (previous: Option<nat>)
      requires Valid()
      modifies memory, memories, ledger
      ensures Valid() && memory.Pages() == old(memory.Pages()) + if previous.Some? then delta else 0
      ensures previous.Some? <==>
                && old(ledger.Admits(if memory.Budgeted() then delta * PAGE else 0, accept))
                && grows && old(memory.Pages()) + delta <= memory.MaxPages()
      ensures ledger.pools.wasmLinear == old(ledger.pools.wasmLinear) +
                if previous.Some? && memory.Budgeted() then delta * PAGE else 0
      ensures charged == old(charged) && Rest() == old(Rest())
    {
      HeapPagesGrow(memory.byHeap, delta, false);
      ghost var was := memory.byHeap;
      previous := memory.Grow(delta, grows, accept, false);
      GrowthKeepsLayout(chunks, live, freeBytes, old(memory.Pages()), was, memory.Pages(), memory.byHeap);
    }

    /** No byte of a live allocation is on a page that the guest claimed. */
    lemma LiveIsNotGuests(o: nat, x: nat)
      requires Valid() && o in live && o <= x < o + live[o].len
      ensures x / PAGE < memory.Pages() && memory.byHeap[x / PAGE]
    {
      LiveInsideChunk(chunks, live, freeBytes, memory.Pages() * PAGE, o);
      PageOf(chunks[live[o].chunkIdx], x);
      assert OnHeapPages(chunks[live[o].chunkIdx], memory.byHeap);
    }

    /** Makes an offered region a live allocation. The 32-bit arithmetic on the way is exact. */
    method Take(idx: nat, offered: Region, units: nat) returns (offset: nat)
      requires Valid() && idx < |chunks| && 0 < units && MayOffer(chunks[idx], units, offered)
      modifies this`chunks, this`live, this`freeBytes
      ensures Valid()
      ensures offset == OffsetOf(old(chunks)[idx], offered)
      ensures offset !in old(live) && live == old(live)[offset := LiveAlloc(idx, offered, units * UNIT)]
      ensures chunks == WithRegion(old(chunks), idx, offered) && freeBytes + offered.size * UNIT == old(freeBytes)
    {
      ghost var bytes := memory.Pages() * PAGE;
      OfferFits(chunks, live, freeBytes, bytes, idx, units, offered);
      AllocKeepsLayout(chunks, live, freeBytes, memory.Pages(), memory.byHeap, idx, units, offered);
      offset := Record(idx, offered, units);
    }

    method Record(idx: nat, offered: Region, units: nat) returns (offset: nat)
      requires idx < |chunks| && offered.size * UNIT <= freeBytes
      requires offered.offset * UNIT < U32 && units * UNIT < U32
               && offered.offset * UNIT + units * UNIT <= chunks[idx].len
      requires OffsetOf(chunks[idx], offered) < U32
      modifies this`chunks, this`live, this`freeBytes
      ensures offset == OffsetOf(old(chunks)[idx], offered)
      ensures live == old(live)[offset := LiveAlloc(idx, offered, units * UNIT)]
      ensures chunks == WithRegion(old(chunks), idx, offered) && freeBytes == old(freeBytes) - offered.size * UNIT
    {
      var c := chunks[idx];
      var rel := offered.offset * UNIT;
      assert rel < U32 && units * UNIT < U32 && rel + units * UNIT <= c.len && c.start + rel < U32;
      offset := c.start + rel;
      freeBytes := SaturatingSub(freeBytes, offered.size * UNIT);
      live := live[offset := LiveAlloc(idx, offered, units * UNIT)];
      chunks := chunks[idx := c.(regions := c.regions + [offered])];
    }

    /** Tries the chunks in order. `i` and `region` tell where an allocation went. */
    method TryChunks(units: nat) returns (r: Option<nat>, ghost i: nat, ghost region: Region)
      requires Valid() && 0 < units
      modifies this`chunks, this`live, this`freeBytes
      ensures Valid()
      ensures r.None? ==>
                && chunks == old(chunks) && live == old(live) && freeBytes == old(freeBytes)
                && forall j | 0 <= j < |chunks| && chunks[j].regions == [] :: chunks[j].len / UNIT < Bin(units)
      ensures r.Some? ==>
                && i < |old(chunks)| && MayOffer(old(chunks)[i], units, region)
                && r.value == OffsetOf(old(chunks)[i], region)
                && r.value !in old(live) && live == old(live)[r.value := LiveAlloc(i, region, units * UNIT)]
                && chunks == WithRegion(old(chunks), i, region) && freeBytes + region.size * UNIT == old(freeBytes)
    {
      i, region := 0, Region(0, 0);
      var idx := 0;
      while idx < |chunks|
        invariant 0 <= idx <= |chunks| && Valid()
        invariant chunks == old(chunks) && live == old(live) && freeBytes == old(freeBytes)
        invariant forall j | 0 <= j < idx && chunks[j].regions == [] :: chunks[j].len / UNIT < Bin(units)
      {
        var c := chunks[idx];
        var offered := Offer(c, units);
        if offered.Some? {
          i, region := idx, offered.value;
          var offset := Take(idx, offered.value, units);
          r := Some(offset);
          return;
        }
        idx := idx + 1;
      }
      r := None;
    }

    /** Allocates without a store: only from what was claimed before. */
    method Alloc(len: nat) returns (r: Option<nat>)
      requires Valid()
      modifies this`chunks, this`live, this`freeBytes, this`pendingWant
      ensures Valid()
      ensures r.None? ==> live == old(live) && chunks == old(chunks) && freeBytes == old(freeBytes)
      ensures r.None? ==>
                pendingWant ==
                  if len > MaxBytes() then old(pendingWant) else Max(old(pendingWant), Saturate(UnitsFor(len) * UNIT))
      ensures r.Some? ==>
                && r.value !in old(live) && r.value in live && live == old(live)[r.value := live[r.value]]
                && len <= live[r.value].len && pendingWant == old(pendingWant)
    {
      if len > MaxBytes() { return None; }
      var units := UnitsFor(len);
      ghost var i, region;
      r, i, region := TryChunks(units);
      if r.None? { pendingWant := Max(pendingWant, Saturate(units * UNIT)); }
    }

    /** A refill for `minBytes` goes through: the store owns the memory, the budget admits the
        pages as often as they are charged, and the engine grows the memory. */
    predicate CanRefill(storeOwnsMemory: bool, minBytes: nat, grows: bool, accept: bool)
      reads memory, memory.memories, ledger
    {
      && storeOwnsMemory && ledger.Admits(PoolCost(ChunkPagesFor(minBytes) * PAGE), accept)
      && grows && memory.Pages() + ChunkPagesFor(minBytes) <= memory.MaxPages()
    }

    /** refill_with_store_locked: charges for a chunk, grows the memory and adds the chunk. */
    method Refill(storeOwnsMemory: bool, minBytes: nat, grows: bool, accept: bool) returns (ok: bool)
      requires Valid() && minBytes < U32
      modifies this`chunks, this`freeBytes, this`pendingWant, this`charged, memory, memories, ledger
      ensures Valid() && live == old(live) && ok == old(CanRefill(storeOwnsMemory, minBytes, grows, accept))
      ensures memory.MaxPages() == old(memory.MaxPages()) && memory.Budgeted() == old(memory.Budgeted())
      ensures Rest() == old(Rest())
      ensures !ok ==>
                && chunks == old(chunks) && freeBytes == old(freeBytes) && pendingWant == old(pendingWant)
                && charged == old(charged) && memory.Pages() == old(memory.Pages()) && ledger.pools == old(ledger.pools)
      ensures ok ==>
                var delta := ChunkPagesFor(minBytes);
                && memory.Pages() == old(memory.Pages()) + delta && pendingWant == 0
                && chunks == old(chunks) + [ClaimedChunk(old(memory.Pages()), delta)]
                && charged == old(charged) + (if External() then 0 else delta * PAGE)
                && ledger.pools.wasmLinear == old(ledger.pools.wasmLinear) + PoolCost(delta * PAGE)
    {
      hide LayoutOk;
      if !storeOwnsMemory { return false; }
      var deltaPages := ChunkPagesFor(minBytes);
      ghost var was := memory.byHeap;
      var previous := ChargeAndGrow(deltaPages, grows, accept);
      if previous.None? { return false; }
      FinishClaim(previous.value, deltaPages, was);
      ok := true;
    }

    /** Charges for the pages, unless an embedder does, then grows the memory, which charges for
        them again if it is budgeted; a failure costs nothing. */
    method ChargeAndGrow(deltaPages: nat, grows: bool, accept: bool) returns (previous: Option<nat>)
      requires Accounted()
      modifies this`charged, memory, memories, ledger
      ensures Accounted() && memory.MaxPages() == old(memory.MaxPages()) && memory.Budgeted() == old(memory.Budgeted())
      ensures Rest() == old(Rest())
      ensures previous.Some? <==>
                && old(ledger.Admits(PoolCost(deltaPages * PAGE), accept))
                && grows && old(memory.Pages()) + deltaPages <= memory.MaxPages()
      ensures if previous.None? then
                && charged == old(charged) && memory.Pages() == old(memory.Pages())
                && memory.byHeap == old(memory.byHeap) && ledger.pools == old(ledger.pools)
              else
                && previous.value == old(memory.Pages()) && memory.Pages() == previous.value + deltaPages
                && memory.byHeap == old(memory.byHeap) + seq(deltaPages, _ => true)
                && charged == old(charged) + (if External() then 0 else deltaPages * PAGE)
                && ledger.pools.wasmLinear == old(ledger.pools.wasmLinear) + PoolCost(deltaPages * PAGE)
    {
      hide ChargeSteps.Admits, HeapPages, TotalCharged, MemoryOk, BudgetOk;
      ghost var admitted, booked := ledger.memCharged, ledger.share;
      AdmitsInTurn(ledger.budget, admitted, booked, deltaPages * PAGE, memory.Budgeted(), accept);
      var charge := ChargeForItself(deltaPages * PAGE, accept);
      if charge.None? { return None; }
      HeapPagesGrow(memory.byHeap, deltaPages, true);
      previous := GrowPaid(deltaPages, grows, accept, charge.value);
      assert previous.None? ==> ledger.pools == old(ledger.pools);
    }

    /** Grows the memory and books what the heap has charged for it, or gives that back. */
    method GrowPaid(deltaPages: nat, grows: bool, accept: bool, charge: nat) returns (previous: Option<nat>)
      requires memory.Valid() && memory.memories == memories && memories.ledger == ledger
      requires charge <= memories.others
      modifies this`charged, memory, memories, ledger
      ensures memory.Valid() && memory.MaxPages() == old(memory.MaxPages())
      ensures memory.Budgeted() == old(memory.Budgeted()) && memory.Others() == old(memory.Others())
      ensures previous.Some? <==>
                && old(ledger.Admits(if memory.Budgeted() then deltaPages * PAGE else 0, accept))
                && grows && old(memory.Pages()) + deltaPages <= memory.MaxPages()
      ensures if previous.None? then
                && charged == old(charged) && memories.others == old(memories.others) - charge
                && memory.Pages() == old(memory.Pages()) && memory.byHeap == old(memory.byHeap)
                && ledger.pools == old(ledger.pools).With(WasmLinear, old(ledger.pools).wasmLinear - charge)
              else
                && charged == old(charged) + charge && memories.others == old(memories.others)
                && previous.value == old(memory.Pages()) && memory.Pages() == previous.value + deltaPages
                && memory.byHeap == old(memory.byHeap) + seq(deltaPages, _ => true)
                && ledger.pools.wasmLinear ==
                   old(ledger.pools).wasmLinear + if memory.Budgeted() then deltaPages * PAGE else 0
    {
      hide ChargeSteps.Admits, TotalCharged, MemoryOk, BudgetOk;
      previous := memory.Grow(deltaPages, grows, accept, true);
      if previous.None? {
        memories.UnchargeForOther(charge);
      } else {
        charged := charged + charge;
      }
    }

    /** What the heap itself charges for pages it is about to claim. */
    method ChargeForItself(bytes: nat, accept: bool) returns (charge: Option<nat>)
      requires memories.Valid() && memories.ledger == ledger
      modifies memories`others, ledger
      ensures memories.Valid() && (charge.Some? <==> External() || old(ledger.Admits(bytes, accept)))
      ensures ledger.share == old(ledger.share)
      ensures var paid := if charge.None? then 0 else charge.value;
              && paid == (if External() || charge.None? then 0 else bytes)
              && memories.others == old(memories.others) + paid
              && ledger.memCharged == old(ledger.memCharged) + paid
              && ledger.pools == old(ledger.pools).With(WasmLinear, old(ledger.pools).wasmLinear + paid)
    {
      assert ledger.pools.With(WasmLinear, ledger.pools.wasmLinear) == ledger.pools;
      if External() { return Some(0); }
      var ok := memories.ChargeForOther(bytes, accept);
      charge := if ok then Some(bytes) else None;
    }

    /** The end of finish_claim: the chunk starts where the memory ended. Its end is within the
        maximum, and its length is kept in 32 bits. */
    method FinishClaim(previous: nat, deltaPages: nat, ghost was: seq<bool>)
      requires Accounted() && LayoutOk(chunks, live, freeBytes, previous, was) && |was| == previous
      requires memory.Pages() == previous + deltaPages && memory.byHeap == was + seq(deltaPages, _ => true)
      requires observedLen <= previous * PAGE
      modifies this`chunks, this`freeBytes, this`pendingWant
      ensures Valid() && pendingWant == 0
      ensures chunks == old(chunks) + [ClaimedChunk(previous, deltaPages)]
    {
      hide LayoutOk;
      ClaimKeepsLayout(chunks, live, freeBytes, previous, deltaPages, was);
      pendingWant := 0;
      PushChunk(previous, deltaPages);
    }

    method PushChunk(previous: nat, deltaPages: nat)
      requires previous + deltaPages <= memory.MaxPages()
      modifies this`chunks, this`freeBytes
      ensures chunks == old(chunks) + [ClaimedChunk(previous, deltaPages)]
      ensures freeBytes == old(freeBytes) + ClaimedChunk(previous, deltaPages).len
    {
      var start, len := previous * PAGE, deltaPages * PAGE;
      assert start + len <= MaxBytes();
      chunks := chunks + [Chunk(start, len % U32, [])];
      freeBytes := freeBytes + len % U32;
    }

    /** Allocates, claiming a chunk if need be. Whenever the refill it would need can be made, the
        allocation succeeds, unless the memory was empty and all 65536 pages were claimed at once;
        and then it fails although the pages were claimed. */
    method AllocWithStore(storeOwnsMemory: bool, len: nat, grows: bool, accept: bool)
      returns (r: Option<nat>, ghost refilled: bool)
      requires Valid()
      modifies this, memory, memories, ledger
      ensures Valid()
      ensures memory.MaxPages() == old(memory.MaxPages()) && memory.Budgeted() == old(memory.Budgeted())
      ensures Rest() == old(Rest())
      ensures r.None? ==> live == old(live)
      ensures r.Some? ==>
                && r.value !in old(live) && r.value in live && live == old(live)[r.value := live[r.value]]
                && len <= live[r.value].len
      ensures len > MaxBytes() || UnitsFor(len) * UNIT >= U32 ==> !refilled
      ensures !(len > MaxBytes() || UnitsFor(len) * UNIT >= U32) && r.None? ==>
                refilled == old(CanRefill(storeOwnsMemory, UnitsFor(len) * UNIT, grows, accept))
      ensures r.Some? && !refilled ==> live[r.value].chunkIdx < |old(chunks)|
      ensures refilled ==> memory.Pages() == old(memory.Pages()) + ChunkPagesFor(UnitsFor(len) * UNIT)
      ensures refilled ==> (r.Some? <==> old(memory.Pages()) > 0 || ChunkSizeFor(UnitsFor(len) * UNIT) <= U32 - PAGE)
      ensures !refilled ==>
                memory.Pages() == old(memory.Pages()) && ledger.pools == old(ledger.pools) && charged == old(charged)
    {
      hide LayoutOk, HeapPages, TotalCharged;
      refilled := false;
      if len > MaxBytes() { return None, false; }
      var units := UnitsFor(len);
      ghost var i, region;
      r, i, region := TryChunks(units);
      if r.Some? { return; }
      var neededBytes := units * UNIT;
      if neededBytes >= U32 { return None, false; }
      r, refilled := ClaimAndRetry(storeOwnsMemory, units, grows, accept);
    }

    method ClaimAndRetry(storeOwnsMemory: bool, units: nat, grows: bool, accept: bool)
      returns (r: Option<nat>, ghost refilled: bool)
      requires Valid() && 0 < units && units * UNIT < U32
      modifies this, memory, memories, ledger
      ensures Valid() && refilled == old(CanRefill(storeOwnsMemory, units * UNIT, grows, accept))
      ensures memory.MaxPages() == old(memory.MaxPages()) && memory.Budgeted() == old(memory.Budgeted())
      ensures Rest() == old(Rest())
      ensures r.None? ==>
                live == old(live) && pendingWant == Max(if refilled then 0 else old(pendingWant), units * UNIT)
      ensures r.Some? ==>
                r.value !in old(live) && r.value in live && live == old(live)[r.value := live[r.value]]
                && live[r.value].len == units * UNIT
      ensures refilled ==> memory.Pages() == old(memory.Pages()) + ChunkPagesFor(units * UNIT)
      ensures refilled ==> (r.Some? <==> old(memory.Pages()) > 0 || ChunkSizeFor(units * UNIT) <= U32 - PAGE)
      ensures !refilled ==>
                r.None? && memory.Pages() == old(memory.Pages()) && ledger.pools == old(ledger.pools)
                && charged == old(charged)
    {
      hide LayoutOk, HeapPages, TotalCharged, MemoryOk, BudgetOk;
      var neededBytes := units * UNIT;
      ghost var before, pages := chunks, memory.Pages();
      NoChunkInNoMemory(chunks, live, freeBytes, memory.Pages(), memory.byHeap);
      var ok := Refill(storeOwnsMemory, neededBytes, grows, accept);
      if !ok {
        pendingWant := Max(pendingWant, neededBytes);
        return None, false;
      }
      refilled := true;
      ChunkHasRoom(units);
      ghost var claimed := chunks;
      ghost var i, region;
      r, i, region := TryChunks(units);
      if r.None? {
        assert claimed[|claimed| - 1] == ClaimedChunk(pages, ChunkPagesFor(neededBytes));
        pendingWant := Max(pendingWant, neededBytes);
      } else {
        OnlyTheClaim(before, claimed, pages, units, i, region);
      }
    }

    /** Tops the arena up when free space is low or an allocation came up short. */
    method MaybeRefill(storeOwnsMemory: bool, grows: bool, accept: bool) returns (refilled: bool)
      requires Valid()
      modifies this`chunks, this`freeBytes, this`pendingWant, this`charged, memory, memories, ledger
      ensures Valid() && live == old(live)
      ensures memory.MaxPages() == old(memory.MaxPages()) && memory.Budgeted() == old(memory.Budgeted())
      ensures Rest() == old(Rest())
      ensures refilled <==> (old(freeBytes) < LOW_WATER_BYTES || old(pendingWant) != 0)
                            && old(CanRefill(storeOwnsMemory, Max(pendingWant, PREFUND_BYTES), grows, accept))
      ensures refilled ==> |chunks| == |old(chunks)| + 1 && pendingWant == 0
                           && memory.Pages() ==
                                old(memory.Pages()) + ChunkPagesFor(Max(old(pendingWant), PREFUND_BYTES))
      ensures !refilled ==> chunks == old(chunks) && freeBytes == old(freeBytes) && pendingWant == old(pendingWant)
                            && memory.Pages() == old(memory.Pages()) && charged == old(charged)
                            && ledger.pools == old(ledger.pools)
    {
      if freeBytes >= LOW_WATER_BYTES && pendingWant == 0 { return false; }
      refilled := Refill(storeOwnsMemory, Max(pendingWant, PREFUND_BYTES), grows, accept);
    }

    /** Frees a live allocation; anything else changes nothing. */
    method FreeOffset(offset: nat) returns (freed: bool)
      requires Valid()
      modifies this`chunks, this`live, this`freeBytes
      ensures Valid() && freed == (offset in old(live))
      ensures !freed ==> chunks == old(chunks) && live == old(live) && freeBytes == old(freeBytes)
      ensures freed ==>
                live == old(live) - {offset} && freeBytes == old(freeBytes) + old(live)[offset].region.size * UNIT
    {
      hide LayoutOk;
      if offset !in live { return false; }
      EntryInChunk(chunks, live, freeBytes, memory.Pages(), memory.byHeap, offset);
      var k := FindRegion(chunks[live[offset].chunkIdx].regions, live[offset].region);
      FreeKeepsLayout(chunks, live, freeBytes, memory.Pages(), memory.byHeap, offset, k);
      Forget(offset, k);
      freed := true;
    }

    method Forget(offset: nat, k: nat)
      requires offset in live && live[offset].chunkIdx < |chunks| && k < |chunks[live[offset].chunkIdx].regions|
      modifies this`chunks, this`live, this`freeBytes
      ensures live == old(live) - {offset} && freeBytes == old(freeBytes) + old(live)[offset].region.size * UNIT
      ensures chunks == WithoutRegion(old(chunks), old(live)[offset].chunkIdx, k)
    {
      var entry := live[offset];
      var regions := chunks[entry.chunkIdx].regions;
      live := live - {offset};
      chunks := chunks[entry.chunkIdx := chunks[entry.chunkIdx].(regions := regions[..k] + regions[k + 1..])];
      freeBytes := freeBytes + entry.region.size * UNIT;
    }

    /** Frees by host address, unless it is not the start of a live allocation that long. */
    method FreeHostPtr(ptr: nat, len: nat) returns (freed: bool)
      requires Valid()
      modifies this`chunks, this`live, this`freeBytes
      ensures Valid()
      ensures freed <==>
                base <= ptr < base + MaxBytes() && (ptr - base) in old(live)
                && (len == 0 || len <= old(live)[ptr - base].len)
      ensures !freed ==> chunks == old(chunks) && live == old(live) && freeBytes == old(freeBytes)
      ensures freed ==> live == old(live) - {ptr - base}
    {
      hide LayoutOk, HeapPages, TotalCharged;
      if !(base <= ptr < base + MaxBytes()) { return false; }
      var offset := ptr - base;
      assert offset < U32;
      if offset !in live { return false; }
      if len != 0 && live[offset].len < len { return false; }
      freed := FreeOffset(offset);
    }

    /** Host address of a guest range: the cached length gives the same answer as the memory's
        own length would, however the memory grew meanwhile. */
    method HostRange(offset: nat, len: nat) returns (host: Option<nat>)
      requires Valid() && offset < U64 && len < U64
      modifies this`observedLen
      ensures Valid() && old(observedLen) <= observedLen
      ensures host == if offset + len <= memory.Pages() * PAGE then Some(base + offset) else None
      ensures host.Some? ==> offset + len <= MaxBytes()
    {
      var end := offset + len;
      if end >= U64 { return None; }
      if end > observedLen {
        var now := memory.Pages() * PAGE;
        observedLen := Max(observedLen, now);
        if end > now { return None; }
      }
      if end > MaxBytes() { return None; }
      host := Some(base + offset);
    }

    /** Dropping the heap returns exactly what it charged; what a budgeted memory was charged stays
        with the memory. */
    method Drop()
      requires Valid()
      modifies memories, ledger
      ensures memory.Valid() && memories.others == old(memories.others) - charged
              && memories.memories == old(memories.memories)
      ensures ledger.pools.wasmLinear + (if External() then 0 else HeapPages(memory.byHeap) * PAGE) ==
              old(ledger.pools.wasmLinear)
    {
      if charged > 0 { memories.UnchargeForOther(charged); }
    }
  }

  /** What the first arena costs: the pool is charged for each of its pages by the heap, unless an
      embedder accounts for them, and by a budgeted memory. */
  function PrefundCost(memory: LinearMemory): nat
    reads memory.memories
  {
    ClaimCost(memory.memories.ledger.budget, memory.Budgeted(), ChunkPagesFor(PREFUND_BYTES) * PAGE)
  }

  /** Without an accountant, a first arena on a budgeted memory claims 289 pages, and the pool
      rises by 578, if it has room for them. */
  method PrefundIsCountedTwice(memory: LinearMemory, base: nat) returns (heap: Heap)
    requires memory.Valid() && HeapPages(memory.byHeap) == 0
    requires memory.Budgeted() && !memory.memories.ledger.budget.Accounted?
    requires memory.Pages() + 289 <= memory.MaxPages() && memory.memories.ledger.Admits(578 * PAGE, true)
    modifies memory, memory.memories, memory.memories.ledger
    ensures heap.Valid() && heap.memory == memory
    ensures memory.Pages() == old(memory.Pages()) + 289 && HeapPages(memory.byHeap) == 289
    ensures heap.ledger.pools.wasmLinear == old(memory.memories.ledger.pools.wasmLinear) + 578 * PAGE
  {
    hide LayoutOk, HeapPages, TotalCharged;
    assert ChunkPagesFor(PREFUND_BYTES) == 289;
    heap := Heap.Create(memory, base, true, true);
    heap.PoolEquation();
  }

  /** A budgeted memory of up to 65536 pages on an unlimited budget. */
  method FreshMemory(ledger: Ledger, pages: nat) returns (memory: LinearMemory)
    requires ledger.Valid() && ledger.budget == Unlimited && pages <= 65536
    modifies ledger
    ensures memory.Valid() && fresh(memory) && fresh(memory.memories) && memory.memories.ledger == ledger
    ensures memory.Budgeted() && memory.Pages() == pages && memory.MaxPages() == 65536 && HeapPages(memory.byHeap) == 0
    ensures ledger.pools.wasmLinear == old(ledger.pools.wasmLinear) + pages * PAGE
  {
    var memories := new Memories(ledger);
    var handle := memories.New(pages, 65536, true, true);
    memory := new LinearMemory(memories, handle.value);
    TotalPush([], memories.memories[handle.value]);
    assert [] + [memories.memories[handle.value]] == memories.memories;
  }

  /** So a memory of one page and its heap have 290 pages, and the pool 579. */
  method FirstArena(ledger: Ledger) returns (pages: nat, poolPages: nat)
    requires ledger.Valid() && ledger.budget == Unlimited && ledger.pools.wasmLinear == 0
    modifies ledger
    ensures pages == 290 && poolPages == 579
  {
    var memory := FreshMemory(ledger, 1);
    var _ := PrefundIsCountedTwice(memory, 0);
    pages, poolPages := memory.Pages(), ledger.pools.wasmLinear / PAGE;
  }

  /** The same from the making of the ledger on. */
  method CountedTwiceFromTheStart() returns (pages: nat, poolPages: nat)
    ensures pages == 290 && poolPages == 579
  {
    hide *;
    var ledger := new Ledger(Unlimited);
    pages, poolPages := FirstArena(ledger);
  }

  /** On an empty memory whose first arena could not be claimed, an allocation of 0xF000_0000
      bytes claims all 65536 pages and fails. */
  method WholeMemoryClaimFails(ledger: Ledger, base: nat) returns (heap: Heap, r: Option<nat>)
    requires ledger.Valid() && ledger.budget == Unlimited
    modifies ledger
    ensures heap.Valid() && heap.memory.Pages() == 65536 && heap.live == map[] && r == None
  {
    hide LayoutOk, HeapPages, TotalCharged;
    var memory := FreshMemory(ledger, 0);
    heap := Heap.Create(memory, base, false, true);
    WholeMemoryChunkIsEmpty();
    assert UnitsFor(0xF000_0000) == 0xF00_0000;
    ghost var refilled;
    r, refilled := heap.AllocWithStore(true, 0xF000_0000, true, true);
  }

  method FindRegion(regions: seq<Region>, r: Region) returns (k: nat)
    requires r in regions
    ensures k < |regions| && regions[k] == r
  {
    k := 0;
    while regions[k] != r
      invariant k < |regions| && forall j | 0 <= j < k :: regions[j] != r
      decreases |regions| - k
    {
      k := k + 1;
    }
  }

  lemma SamePlaces(c: Chunk, d: Chunk, byHeap: seq<bool>)
    requires OnHeapPages(c, byHeap) && d.start == c.start && d.len == c.len
    ensures OnHeapPages(d, byHeap)
  {
    forall p: nat | InChunk(d, p) ensures p < |byHeap| && byHeap[p] {
      assert InChunk(c, p);
    }
  }

  lemma GrowthKeepsLayout(chunks: seq<Chunk>, live: map<nat, LiveAlloc>, freeBytes: nat, pages: nat, byHeap: seq<bool>,
      pages': nat, byHeap': seq<bool>)
    requires LayoutOk(chunks, live, freeBytes, pages, byHeap) && pages <= pages' && byHeap <= byHeap'
    ensures LayoutOk(chunks, live, freeBytes, pages', byHeap')
  {
    forall i | 0 <= i < |chunks| ensures OnHeapPages(chunks[i], byHeap') {
      assert OnHeapPages(chunks[i], byHeap);
    }
  }

  /** The chunk recorded for pages just claimed: its length is cut to 32 bits. */
  function ClaimedChunk(previous: nat, deltaPages: nat): Chunk {
    Chunk(previous * PAGE, deltaPages * PAGE % U32, [])
  }

  lemma ClaimedPlace(previous: nat, deltaPages: nat, byHeap: seq<bool>)
    requires |byHeap| == previous && previous + deltaPages <= 65536
    ensures var c := ClaimedChunk(previous, deltaPages);
            && c.len % PAGE == 0 && c.len <= deltaPages * PAGE && c.start % PAGE == 0
            && OnHeapPages(c, byHeap + seq(deltaPages, _ => true))
  {
  }

  lemma ClaimKeepsLayout(chunks: seq<Chunk>, live: map<nat, LiveAlloc>, freeBytes: nat, pages: nat, deltaPages: nat,
      byHeap: seq<bool>)
    requires LayoutOk(chunks, live, freeBytes, pages, byHeap) && |byHeap| == pages && pages + deltaPages <= 65536
    ensures var c := ClaimedChunk(pages, deltaPages);
            LayoutOk(chunks + [c], live, freeBytes + c.len, pages + deltaPages, byHeap + seq(deltaPages, _ => true))
  {
    var c := ClaimedChunk(pages, deltaPages);
    ClaimedPlace(pages, deltaPages, byHeap);
    ClaimKeeps(chunks, live, freeBytes, pages * PAGE, c, (pages + deltaPages) * PAGE);
    GrowthKeepsLayout(chunks, live, freeBytes, pages, byHeap, pages + deltaPages, byHeap + seq(deltaPages, _ => true));
  }

  lemma AllocKeepsLayout(chunks: seq<Chunk>, live: map<nat, LiveAlloc>, freeBytes: nat, pages: nat, byHeap: seq<bool>,
      i: nat, units: nat, r: Region)
    requires LayoutOk(chunks, live, freeBytes, pages, byHeap) && pages <= 65536 && i < |chunks| && 0 < units
             && MayOffer(chunks[i], units, r)
    ensures r.size * UNIT <= freeBytes
    ensures LayoutOk(WithRegion(chunks, i, r), live[OffsetOf(chunks[i], r) := LiveAlloc(i, r, units * UNIT)],
                     freeBytes - r.size * UNIT, pages, byHeap)
  {
    AllocKeeps(chunks, live, freeBytes, pages * PAGE, i, units, r);
    SamePlaces(chunks[i], WithRegion(chunks, i, r)[i], byHeap);
  }

  /** In an empty memory every chunk is empty. */
  lemma NoChunkInNoMemory(chunks: seq<Chunk>, live: map<nat, LiveAlloc>, freeBytes: nat, pages: nat, byHeap: seq<bool>)
    requires LayoutOk(chunks, live, freeBytes, pages, byHeap)
    ensures pages == 0 ==> forall i | 0 <= i < |chunks| :: chunks[i].len == 0
  {
  }

  /** What was served from an empty memory and one claim was served from that claim. */
  lemma OnlyTheClaim(before: seq<Chunk>, claimed: seq<Chunk>, pages: nat, units: nat, i: nat, r: Region)
    requires 0 < units && units * UNIT < U32 && (pages == 0 ==> forall j | 0 <= j < |before| :: before[j].len == 0)
    requires claimed == before + [ClaimedChunk(pages, ChunkPagesFor(units * UNIT))] && i < |claimed|
             && MayOffer(claimed[i], units, r)
    ensures pages > 0 || ChunkSizeFor(units * UNIT) <= U32 - PAGE
  {
    ChunkHasRoom(units);
    assert pages == 0 ==> claimed[i] == claimed[|before|] || claimed[i].len == 0;
  }

  lemma EntryInChunk(chunks: seq<Chunk>, live: map<nat, LiveAlloc>, freeBytes: nat, pages: nat, byHeap: seq<bool>,
      o: nat)
    requires LayoutOk(chunks, live, freeBytes, pages, byHeap) && o in live
    ensures live[o].chunkIdx < |chunks| && live[o].region in chunks[live[o].chunkIdx].regions
  {
  }

  lemma FreeKeepsLayout(chunks: seq<Chunk>, live: map<nat, LiveAlloc>, freeBytes: nat, pages: nat, byHeap: seq<bool>,
      o: nat, k: nat)
    requires LayoutOk(chunks, live, freeBytes, pages, byHeap) && o in live && live[o].chunkIdx < |chunks|
    requires k < |chunks[live[o].chunkIdx].regions| && chunks[live[o].chunkIdx].regions[k] == live[o].region
    ensures LayoutOk(WithoutRegion(chunks, live[o].chunkIdx, k), live - {o}, freeBytes + live[o].region.size * UNIT,
                     pages, byHeap)
  {
    var i := live[o].chunkIdx;
    FreeKeeps(chunks, live, freeBytes, pages * PAGE, o, k);
    SamePlaces(chunks[i], WithoutRegion(chunks, i, k)[i], byHeap);
  }

  /** The page of a byte in a chunk is one of the chunk's pages. */
  lemma PageOf(c: Chunk, x: nat)
    requires c.start % PAGE == 0 && c.start <= x < c.start + c.len
    ensures InChunk(c, x / PAGE)
  {
  }
}
