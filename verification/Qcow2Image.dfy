/** The whole pass: sizes, offsets, and then every section in its place. */
module Qcow2Image {
  import opened Bytes
  import opened Qcow2Math
  import opened Qcow2Bitmap
  import opened Qcow2Sizing
  import opened Qcow2Format
  import opened Qcow2Writer
  import opened Qcow2Refcounts
  import opened Qcow2Header

  const SIZE_LIMIT: nat := 0x20_0000_0000_0000

  function HeaderOf(p: Plan, raw: bool): Header {
    var cs := p.g.ClusterSize();
    Header(p.g.clusterBits, p.diskSize, p.l1Entries, if p.l1Tables == 0 then 0 else Offset(p.L1Cluster(), cs),
           Offset(1, cs), p.tables, if p.external then 4 else 0, if raw then 2 else 0, p.g.refcountOrder)
  }

  // ---------------------------------------------------------------------------------------
  // What an emitted image is.

  ghost predicate HeaderAt(out: seq<bytes>, p: Plan, raw: bool, extensions: bytes) {
    && |out| > 0 && HEADER_LENGTH + |extensions| <= p.g.ClusterSize()
    && out[0] == HeaderCluster(HeaderOf(p, raw), extensions, p.g.ClusterSize())
  }

  ghost predicate RefcountTablesAt(out: seq<bytes>, p: Plan) {
    forall k :: 1 <= k < p.BlockCluster() && k < |out| ==>
      IsRefcountTable(out[k], p.BlockCluster(), p.blocks, p.g.ClusterSize(), Offset(k - 1, p.g.Entries()), p.g.Entries())
  }

  ghost predicate RefcountBlocksAt(out: seq<bytes>, p: Plan)
    requires p.g.Valid()
  {
    forall k :: p.BlockCluster() <= k < p.L1Cluster() && k < |out| ==>
      CountsFirst(out[k], p.g.refcountOrder, Left(p.Total(), Offset(k - p.BlockCluster(), p.g.RefcountsPerBlock())),
                  p.g.RefcountsPerBlock())
  }

  ghost predicate L1TablesAt(out: seq<bytes>, p: Plan) {
    forall k :: p.L1Cluster() <= k < p.L2Cluster() && k < |out| ==>
      IsMapTable(out[k], p.l1, p.L2Cluster(), p.g.ClusterSize(), false, Offset(k - p.L1Cluster(), p.g.Entries()), p.g.Entries())
  }

  ghost predicate L2TablesAt(out: seq<bytes>, p: Plan) {
    L2TablesTo(out, p.L2Cluster(), p.l1, p.l2, p.DataCluster(), p.g.ClusterSize(), p.external, p.g.Entries(), p.l1Entries)
  }

  /** Every section stands at the cluster it was given before anything was written. */
  ghost predicate IsImage(out: seq<bytes>, p: Plan, input: bytes, raw: bool, extensions: bytes)
    requires p.g.Valid()
  {
    && |out| == p.Written()
    && (forall k :: 0 <= k < |out| ==> |out[k]| == p.g.ClusterSize())
    && HeaderAt(out, p, raw, extensions)
    && RefcountTablesAt(out, p) && RefcountBlocksAt(out, p) && L1TablesAt(out, p) && L2TablesAt(out, p)
    && (!p.external ==> DataTo(out, p.DataCluster(), p.l2, input, p.g.ClusterSize(), p.clusters))
  }

  // ---------------------------------------------------------------------------------------
  // Every offset fits.

  /** The sizes follow from that of the disk; no more than two data clusters are counted for a bit. */
  ghost predicate Sized(p: Plan)
    requires p.g.Valid()
  {
    && p.diskSize <= SIZE_LIMIT
    && p.clusters == CeilDiv(p.diskSize, p.g.ClusterSize())
    && p.l1Entries == CeilDiv(p.clusters, p.g.Entries())
    && p.l1Tables == CeilDiv(p.l1Entries, p.g.Entries())
    && p.claimed <= 2 * |p.l2|
  }

  /** The clusters that are there without the refcounts. */
  function Uncounted(p: Plan): nat {
    1 + p.l1Tables + Count(p.l1) + if p.external then 0 else p.claimed
  }

  /** A quarter of what is to be counted would be blocks enough. */
  lemma {:induction false} QuarterSuffices(n: nat, perBlock: nat, perTable: nat)
    requires perBlock >= 64 && perTable > 0
    ensures Suffices(n, CeilDiv(n, 4), perBlock, perTable)
  {
    var b := CeilDiv(n, 4);
    CeilDivBounds(n, 4);
    CeilDivAtMost(b, perTable);
    MulMonotone(64, perBlock, b);
  }

  lemma {:induction false} ProductsWithin(n: nat, clusters: nat, e: nat, cs: nat, diskSize: nat)
    requires n <= clusters + e && clusters * cs <= diskSize + cs
    requires e <= 0x4_0000 && cs <= 0x20_0000 && diskSize <= SIZE_LIMIT
    ensures n * cs <= SIZE_LIMIT + 0x100_0000_0000
  {
    MulMonotone(n, clusters + e, cs);
    MulMonotone(e, 0x4_0000, cs);
    assert (clusters + e) * cs == clusters * cs + e * cs;
  }

  lemma {:induction false} EntriesWithin(clusters: nat, cs: nat, e: nat, diskSize: nat, l1Entries: nat)
    requires 0 < e <= 0x4_0000 && 0 < cs <= 0x20_0000 && diskSize <= SIZE_LIMIT
    requires clusters == CeilDiv(diskSize, cs) && l1Entries == CeilDiv(clusters, e)
    ensures Offset(Offset(l1Entries, e), cs) <= SIZE_LIMIT + 0x100_0000_0000
    ensures clusters <= Offset(l1Entries, e) && l1Entries <= clusters
  {
    CeilDivAtMost(clusters, e);
    OffsetIsProduct(l1Entries, e);
    RoundedUp(clusters, e);
    RoundedUp(diskSize, cs);
    var n := Offset(l1Entries, e);
    OffsetIsProduct(n, cs);
    ProductsWithin(n, clusters, e, cs, diskSize);
  }

  /** Six clusters for every L2 entry are more than all sections take. */
  lemma {:induction false} OffsetsWithin(total: nat, entries: nat, cs: nat)
    requires total <= 6 * entries + 6 && 512 <= cs <= 0x20_0000
    requires Offset(entries, cs) <= SIZE_LIMIT + 0x100_0000_0000
    ensures Offset(total, cs) < OFFSET_LIMIT
  {
    OffsetIsProduct(total, cs);
    OffsetIsProduct(entries, cs);
    MulMonotone(total, 6 * entries + 6, cs);
    assert (6 * entries + 6) * cs == 6 * (entries * cs) + 6 * cs;
  }

  lemma {:induction false} FewTables(blocks: nat, l1Entries: nat, e: nat)
    requires e > 0 && blocks <= Offset(l1Entries, e) + e
    ensures CeilDiv(blocks, e) <= l1Entries + 1
  {
    OffsetIsProduct(l1Entries + 1, e);
    CeilDivLeast(blocks, e, l1Entries + 1);
  }

  /** With the least number of blocks, no offset leaves its field. */
  lemma {:induction false} SizedFits(p: Plan)
    requires p.g.Valid() && Sized(p) && |p.l2| == Offset(p.l1Entries, p.g.Entries()) && Count(p.l1) <= p.l1Entries
    requires p.tables == CeilDiv(p.blocks, p.g.Entries())
    requires p.blocks <= CeilDiv(Uncounted(p), 4)
    ensures p.Fits() && p.tables <= p.l1Entries + 1
  {
    GeometryFacts(p.g);
    EntriesWithin(p.clusters, p.g.ClusterSize(), p.g.Entries(), p.diskSize, p.l1Entries);
    CeilDivBounds(Uncounted(p), 4);
    CeilDivAtMost(p.l1Entries, p.g.Entries());
    CeilDivAtMost(p.blocks, p.g.Entries());
    OffsetsWithin(p.Total(), |p.l2|, p.g.ClusterSize());
    OffsetGrows(|p.l2|, 6 * |p.l2| + 6, p.g.ClusterSize());
    OffsetsWithin(6 * |p.l2| + 6, |p.l2|, p.g.ClusterSize());
    FewTables(p.blocks, p.l1Entries, p.g.Entries());
  }

  // ---------------------------------------------------------------------------------------
  // Writing it.

  lemma {:induction false} EntriesFitFor(p: Plan)
    requires p.Valid()
    ensures EntriesFit(p.l1, p.L2Cluster(), p.g.ClusterSize(), false)
    ensures EntriesFit(p.l2, p.DataCluster(), p.g.ClusterSize(), p.external)
  {
    var cs := p.g.ClusterSize();
    forall j: nat ensures EntryFits(p.l1, p.L2Cluster(), cs, false, j) {
      MapEntryFits(p.l1, p.L2Cluster(), cs, false, j, p.Total());
    }
    forall j: nat ensures EntryFits(p.l2, p.DataCluster(), cs, p.external, j) {
      MapEntryFits(p.l2, p.DataCluster(), cs, p.external, j, if p.external then |p.l2| else p.Total());
    }
  }

  lemma {:induction false} BackedFor(p: Plan)
    requires p.g.Valid() && p.Mapped()
    ensures forall t: nat :: Backed(p.l1, p.l2, p.g.Entries(), t)
    ensures Rank(p.l1, p.l1Entries) == Count(p.l1) && Rank(p.l2, p.clusters) == Count(p.l2)
  {
    var e := p.g.Entries();
    RankClear(p.l1, p.l1Entries, |p.l1|);
    RankClear(p.l2, p.clusters, |p.l2|);
    forall t: nat ensures Backed(p.l1, p.l2, e, t) {
      if t < |p.l1| && !p.l1[t] && Offset(t, e) <= Offset(t + 1, e) <= |p.l2| {
        if t >= p.l1Entries {
          OffsetGrows(p.l1Entries, t, e);
        } else {
          EmptyWindow(p, t);
        }
      }
    }
  }

  lemma {:induction false} HeaderFits(p: Plan, raw: bool)
    requires p.Valid() && Sized(p) && p.l1Entries <= MAX_L1_ENTRIES && p.tables <= p.l1Entries + 1
    ensures HeaderOf(p, raw).Fits()
  {
    OffsetGrows(1, p.Total(), p.g.ClusterSize());
    OffsetGrows(p.L1Cluster(), p.Total(), p.g.ClusterSize());
  }

  /** What was written stays when more is appended. */
  lemma {:induction false} RefcountsKept(out: seq<bytes>, out': seq<bytes>, p: Plan)
    requires p.g.Valid() && out <= out' && |out| >= p.L1Cluster()
    requires RefcountTablesAt(out, p) && RefcountBlocksAt(out, p)
    ensures RefcountTablesAt(out', p) && RefcountBlocksAt(out', p)
  {
  }

  lemma {:induction false} ExtendsTwice(a: seq<bytes>, b: seq<bytes>, c: seq<bytes>, m: nat, n: nat, clusterSize: nat)
    requires Extends(a, b, m, clusterSize) && Extends(b, c, n, clusterSize)
    ensures Extends(a, c, m + n, clusterSize)
  {
  }

  lemma {:induction false} MappingsKept(out: seq<bytes>, out': seq<bytes>, p: Plan)
    requires p.g.Valid() && out <= out' && |out| >= p.DataCluster()
    requires L1TablesAt(out, p) && L2TablesAt(out, p)
    ensures L1TablesAt(out', p) && L2TablesAt(out', p)
  {
    var cs, e := p.g.ClusterSize(), p.g.Entries();
    forall t: nat | t < p.l1Entries
      ensures L2TableAt(out', p.L2Cluster(), p.l1, p.l2, p.DataCluster(), cs, p.external, e, t)
    {
      assert L2TableAt(out, p.L2Cluster(), p.l1, p.l2, p.DataCluster(), cs, p.external, e, t);
    }
  }

  method WriteTables(before: seq<bytes>, g: Geometry, blocks: nat, blockOffset: nat, ghost p: Plan)
    returns (out: seq<bytes>)
    requires p.Valid() && g == p.g && blocks == p.blocks
    requires |before| == 1 && blockOffset == Offset(p.BlockCluster(), g.ClusterSize())
    ensures Extends(before, out, p.tables, g.ClusterSize()) && RefcountTablesAt(out, p)
  {
    GeometryFacts(g);
    OffsetGrows(p.L1Cluster(), p.Total(), g.ClusterSize());
    out := WriteRefcountTable(before, blocks, g.Entries(), g.ClusterSize(), blockOffset, p.BlockCluster());
  }

  method WriteBlocks(before: seq<bytes>, g: Geometry, blocks: nat, total: nat, ghost p: Plan)
    returns (out: seq<bytes>)
    requires p.Valid() && g == p.g && blocks == p.blocks && total == p.Total() && |before| == p.BlockCluster()
    ensures Extends(before, out, p.blocks, g.ClusterSize()) && RefcountBlocksAt(out, p)
  {
    BlockHoldsCluster(g);
    out := WriteRefcountBlocks(before, blocks, g.RefcountsPerBlock(), g.refcountOrder, g.ClusterSize(), total);
  }

  /** The refcount table and the refcount blocks. */
  method WriteRefcounts(before: seq<bytes>, g: Geometry, blocks: nat, total: nat, blockOffset: nat, ghost p: Plan)
    returns (out: seq<bytes>)
    requires p.Valid() && g == p.g && blocks == p.blocks && total == p.Total()
    requires |before| == 1 && blockOffset == Offset(p.BlockCluster(), g.ClusterSize())
    ensures Extends(before, out, p.L1Cluster() - 1, g.ClusterSize())
    ensures RefcountTablesAt(out, p) && RefcountBlocksAt(out, p)
  {
    var mid := WriteTables(before, g, blocks, blockOffset, p);
    out := WriteBlocks(mid, g, blocks, total, p);
    ExtendsTwice(before, mid, out, p.tables, p.blocks, g.ClusterSize());
  }

  /** What the two passes over the bitmaps rely on. */
  ghost predicate MappingsReady(p: Plan) {
    && p.g.ClusterSize() == 8 * p.g.Entries() && |p.l1| == Offset(p.l1Tables, p.g.Entries())
    && p.l1Entries <= |p.l1| && |p.l2| == Offset(p.l1Entries, p.g.Entries()) && Rank(p.l1, p.l1Entries) == Count(p.l1)
    && EntriesFit(p.l1, p.L2Cluster(), p.g.ClusterSize(), false)
    && EntriesFit(p.l2, p.DataCluster(), p.g.ClusterSize(), p.external)
    && forall t: nat :: Backed(p.l1, p.l2, p.g.Entries(), t)
  }

  lemma {:induction false} MappingsReadyFor(p: Plan)
    requires p.Valid()
    ensures MappingsReady(p)
  {
    EightEntries(p.g);
    EntriesFitFor(p);
    BackedFor(p);
  }

  /** The L1 table and the L2 tables. */
  method WriteMappings(before: seq<bytes>, g: Geometry, l1: Bitmap, l2: Bitmap, l1Entries: nat, l1Tables: nat,
                       l2TableOffset: nat, dataOffset: nat, external: bool, ghost p: Plan)
    returns (out: seq<bytes>)
    requires g == p.g && l1Entries == p.l1Entries && l1Tables == p.l1Tables && external == p.external
    requires l1.Valid() && l1.bits == p.l1 && l2.Valid() && l2.bits == p.l2 && |before| == p.L1Cluster()
    requires MappingsReady(p)
    requires l2TableOffset == Offset(p.L2Cluster(), g.ClusterSize()) && dataOffset == Offset(p.DataCluster(), g.ClusterSize())
    ensures Extends(before, out, p.DataCluster() - p.L1Cluster(), g.ClusterSize())
    ensures L1TablesAt(out, p) && L2TablesAt(out, p)
  {
    var mid := WriteL1(before, l1, l1Tables, g.Entries(), g.ClusterSize(), l2TableOffset, p.l1, p.L2Cluster());
    assert L1TablesAt(mid, p);
    out := WriteL2(mid, l1, l2, l1Entries, g.Entries(), g.ClusterSize(), dataOffset, external, p.l1, p.l2, p.DataCluster());
  }

  /** The header, in a cluster of its own. */
  method WriteHeader(g: Geometry, diskSize: nat, l1Entries: nat, l1Tables: nat, l1Offset: nat, tables: nat,
                     external: bool, raw: bool, extensions: bytes, ghost p: Plan)
    returns (out: seq<bytes>)
    requires HeaderOf(p, raw).Fits() && HEADER_LENGTH + |extensions| <= g.ClusterSize()
    requires g == p.g && diskSize == p.diskSize && external == p.external && tables == p.tables
    requires l1Entries == p.l1Entries && l1Tables == p.l1Tables && l1Offset == Offset(p.L1Cluster(), g.ClusterSize())
    ensures Extends([], out, 1, g.ClusterSize())
    ensures HeaderAt(out, p, raw, extensions)
  {
    var cs := g.ClusterSize();
    var tableOffset := ProductOffset(1, cs);
    var h := Header(g.clusterBits, diskSize, l1Entries, if l1Tables == 0 then 0 else l1Offset, tableOffset, tables,
                    if external then 4 else 0, if raw then 2 else 0, g.refcountOrder);
    HeaderClusterReads(h, extensions, cs, []);
    out := [HeaderCluster(h, extensions, cs)];
  }

  /** All offsets, before anything is written. */
  method Layout(g: Geometry, l1Tables: nat, l2Tables: nat, blocks: nat, tables: nat, ghost p: Plan)
    returns (blockOffset: nat, l1Offset: nat, l2Offset: nat, dataOffset: nat)
    requires g == p.g && l1Tables == p.l1Tables && l2Tables == Count(p.l1) && blocks == p.blocks && tables == p.tables
    ensures blockOffset == Offset(p.BlockCluster(), g.ClusterSize()) && l1Offset == Offset(p.L1Cluster(), g.ClusterSize())
    ensures l2Offset == Offset(p.L2Cluster(), g.ClusterSize()) && dataOffset == Offset(p.DataCluster(), g.ClusterSize())
  {
    var cs, cluster := g.ClusterSize(), 1 + tables;
    blockOffset := ProductOffset(cluster, cs);
    cluster := cluster + blocks;
    l1Offset := ProductOffset(cluster, cs);
    cluster := cluster + l1Tables;
    l2Offset := ProductOffset(cluster, cs);
    cluster := cluster + l2Tables;
    dataOffset := ProductOffset(cluster, cs);
  }

  /** Everything but the data is in its place, and nothing else. */
  ghost predicate MetadataWritten(out: seq<bytes>, p: Plan, raw: bool, extensions: bytes)
    requires p.g.Valid()
  {
    && Extends([], out, p.DataCluster(), p.g.ClusterSize())
    && HeaderAt(out, p, raw, extensions)
    && RefcountTablesAt(out, p) && RefcountBlocksAt(out, p) && L1TablesAt(out, p) && L2TablesAt(out, p)
  }

  /** The header and the tables: all clusters that hold no data. */
  method WriteMetadata(g: Geometry, diskSize: nat, l1Entries: nat, l1Tables: nat, l2Tables: nat,
                       total: nat, blocks: nat, tables: nat, l1: Bitmap, l2: Bitmap,
                       external: bool, raw: bool, extensions: bytes, ghost p: Plan)
    returns (out: seq<bytes>)
    requires p.Valid() && HeaderOf(p, raw).Fits() && HEADER_LENGTH + |extensions| <= g.ClusterSize()
    requires l1.Valid() && l1.bits == p.l1 && l2.Valid() && l2.bits == p.l2
    requires g == p.g && diskSize == p.diskSize && external == p.external
    requires l1Entries == p.l1Entries && l1Tables == p.l1Tables && l2Tables == Count(p.l1)
    requires total == p.Total() && blocks == p.blocks && tables == p.tables
    ensures MetadataWritten(out, p, raw, extensions)
  {
    var blockOffset, l1Offset, l2Offset, dataOffset := Layout(g, l1Tables, l2Tables, blocks, tables, p);
    var header := WriteHeader(g, diskSize, l1Entries, l1Tables, l1Offset, tables, external, raw, extensions, p);
    var counted := WriteRefcounts(header, g, blocks, total, blockOffset, p);
    MappingsReadyFor(p);
    out := WriteMappings(counted, g, l1, l2, l1Entries, l1Tables, l2Offset, dataOffset, external, p);
  }

  const MAX_L1_ENTRIES: nat := 0x40_0000

  lemma {:induction false} SameMapping(p: Plan, q: Plan)
    requires p.g.Valid() && p.Mapped() && q == p.(blocks := q.blocks, tables := q.tables)
    ensures q.Mapped()
  {
    forall j: int ensures q.MappedAt(j) {
      assert p.MappedAt(j);
    }
  }

  /** The least number of refcount blocks, for which all that is to be written fits. */
  lemma {:induction false} SizedPlan(p: Plan, blocks: nat)
    requires p.g.Valid() && p.Mapped() && Sized(p) && (p.external || Count(p.l2) <= p.claimed)
    requires Suffices(Uncounted(p), blocks, p.g.RefcountsPerBlock(), p.g.Entries())
    requires forall b: nat :: Suffices(Uncounted(p), b, p.g.RefcountsPerBlock(), p.g.Entries()) ==> blocks <= b
    ensures var q := p.(blocks := blocks, tables := CeilDiv(blocks, p.g.Entries()));
            q.Valid() && Sized(q) && q.tables <= q.l1Entries + 1
  {
    var q := p.(blocks := blocks, tables := CeilDiv(blocks, p.g.Entries()));
    GeometryFacts(p.g);
    QuarterSuffices(Uncounted(p), p.g.RefcountsPerBlock(), p.g.Entries());
    OffsetIsProduct(blocks, p.g.RefcountsPerBlock());
    SameMapping(p, q);
    BackedFor(p);
    SizedFits(q);
  }

  /** The data after everything else. */
  method AppendData(before: seq<bytes>, g: Geometry, clusters: nat, l2: Bitmap, input: bytes,
                    ghost raw: bool, ghost extensions: bytes, ghost p: Plan)
    returns (out: seq<bytes>)
    requires p.Valid() && !p.external && g == p.g && clusters == p.clusters && l2.Valid() && l2.bits == p.l2
    requires MetadataWritten(before, p, raw, extensions)
    ensures IsImage(out, p, input, raw, extensions)
  {
    BackedFor(p);
    out := WriteData(before, l2, input, clusters, g.ClusterSize(), p.l2);
    ImageComplete(before, out, p, input, raw, extensions);
  }

  lemma {:induction false} ImageComplete(before: seq<bytes>, out: seq<bytes>, p: Plan, input: bytes, raw: bool, extensions: bytes)
    requires p.g.Valid() && !p.external && MetadataWritten(before, p, raw, extensions)
    requires Extends(before, out, Count(p.l2), p.g.ClusterSize())
    requires DataTo(out, p.DataCluster(), p.l2, input, p.g.ClusterSize(), p.clusters)
    ensures IsImage(out, p, input, raw, extensions)
  {
    RefcountsKept(before, out, p);
    MappingsKept(before, out, p);
    ExtendsTwice([], before, out, p.DataCluster(), Count(p.l2), p.g.ClusterSize());
  }

  /** Sizes the refcounts. */
  method SizeImage(g: Geometry, n: nat, ghost p: Plan, ghost raw: bool) returns (blocks: nat, tables: nat, ghost q: Plan)
    requires g.Valid() && g == p.g && n == Uncounted(p) && p.l1Entries <= MAX_L1_ENTRIES
    requires p.Mapped() && Sized(p) && (p.external || Count(p.l2) <= p.claimed)
    ensures q == p.(blocks := blocks, tables := tables) && q.Valid() && Sized(q) && HeaderOf(q, raw).Fits()
  {
    GeometryFacts(g);
    blocks, tables := SizeRefcounts(n, g.RefcountsPerBlock(), g.Entries());
    q := p.(blocks := blocks, tables := tables);
    SizedPlan(p, blocks);
    HeaderFits(q, raw);
  }

  /** Sizes the refcounts, computes the offsets and writes the image. */
  method WriteImage(g: Geometry, diskSize: nat, clusters: nat, l1Entries: nat, l1Tables: nat, l2Tables: nat, claimed: nat,
                    l1: Bitmap, l2: Bitmap, input: bytes, external: bool, raw: bool, extensions: bytes, ghost p: Plan)
    returns (out: seq<bytes>, ghost q: Plan)
    requires g.Valid() && HEADER_LENGTH + |extensions| <= g.ClusterSize()
    requires l1.Valid() && l2.Valid() && l2Tables == Count(p.l1) && l1Entries <= MAX_L1_ENTRIES
    requires p == Plan(g, diskSize, clusters, l1.bits, l2.bits, l1Entries, l1Tables, claimed, 0, 0, external)
    requires p.Mapped() && Sized(p) && (external || Count(p.l2) <= claimed)
    ensures q == p.(blocks := q.blocks, tables := q.tables)
    ensures q.Valid() && Sized(q) && HeaderOf(q, raw).Fits() && IsImage(out, q, input, raw, extensions)
  {
    var n := 1 + l1Tables + l2Tables + if external then 0 else claimed;
    var blocks, tables;
    blocks, tables, q := SizeImage(g, n, p, raw);
    out := WriteMetadata(g, diskSize, l1Entries, l1Tables, l2Tables, n + tables + blocks, blocks, tables,
                         l1, l2, external, raw, extensions, q);
    if !external {
      out := AppendData(out, g, clusters, l2, input, raw, extensions, q);
    }
  }
}
