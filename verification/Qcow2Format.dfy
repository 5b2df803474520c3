/**
 The layout of the image the writer emits, by cluster number, and the fields of its tables
 (sections "Header", "Host cluster management" and "Cluster mapping" of QEMU's qcow2 document).
 */
module Qcow2Format {
  import opened Bytes
  import opened Qcow2Math

  /** The cluster sizes and refcount widths the command line offers are powers of two. */
  datatype Geometry = Geometry(clusterBits: nat, refcountOrder: nat) {
    predicate Valid() {
      9 <= clusterBits <= 21 && refcountOrder <= 6
    }

    function ClusterSize(): nat {
      Pow2(clusterBits)
    }

    function RefcountBits(): nat {
      Pow2(refcountOrder)
    }

    /** Entries of 8 bytes in a cluster. */
    function Entries(): nat {
      if clusterBits < 3 then 1 else Pow2(clusterBits - 3)
    }

    function RefcountsPerBlock(): nat {
      if clusterBits + 3 < refcountOrder then 1 else Pow2(clusterBits + 3 - refcountOrder)
    }
  }

  /** The bounds the writer relies on. */
  lemma {:induction false} GeometryFacts(g: Geometry)
    requires g.Valid()
    ensures g.ClusterSize() == 8 * g.Entries() && 64 <= g.Entries() <= 0x4_0000
    ensures g.ClusterSize() % 512 == 0 && 512 <= g.ClusterSize() <= 0x20_0000
    ensures 64 <= g.RefcountsPerBlock()
  {
    ClusterFacts(g);
    RefcountFacts(g);
  }

  lemma {:induction false} EightEntries(g: Geometry)
    requires g.Valid()
    ensures g.ClusterSize() == 8 * g.Entries() && g.Entries() > 0
  {
    Eighteen();
    Pow2Add(3, g.clusterBits - 3);
  }

  lemma {:induction false} WholeSectors(g: Geometry)
    requires g.Valid()
    ensures g.ClusterSize() % 512 == 0
  {
    Eighteen();
    Pow2Add(9, g.clusterBits - 9);
    DivModOf(Pow2(g.clusterBits - 9), 0, 512);
  }

  lemma {:induction false} ClusterFacts(g: Geometry)
    requires g.Valid()
    ensures g.ClusterSize() == 8 * g.Entries() && 64 <= g.Entries() <= 0x4_0000
    ensures g.ClusterSize() % 512 == 0
  {
    EightEntries(g);
    WholeSectors(g);
    Eighteen();
    Pow2Grows(6, g.clusterBits - 3);
    Pow2Grows(g.clusterBits - 3, 18);
  }

  lemma {:induction false} RefcountFacts(g: Geometry)
    requires g.Valid()
    ensures g.RefcountsPerBlock() * g.RefcountBits() == 8 * g.ClusterSize()
    ensures 64 <= g.RefcountsPerBlock()
  {
    var c, o := g.clusterBits, g.refcountOrder;
    Eighteen();
    Pow2Grows(6, c + 3 - o);
    Pow2Add(c, 3);
    Pow2Add(c + 3 - o, o);
  }

  lemma {:induction false} QuotientsExact(g: Geometry)
    requires g.Valid()
    ensures g.Entries() == g.ClusterSize() / 8
    ensures g.RefcountsPerBlock() == g.ClusterSize() * 8 / g.RefcountBits()
  {
    GeometryFacts(g);
    RefcountFacts(g);
    DivModOf(g.Entries(), 0, 8);
    DivModOf(g.RefcountsPerBlock(), 0, g.RefcountBits());
  }

  lemma {:induction false} Eighteen()
    ensures Pow2(3) == 8 && Pow2(6) == 64 && Pow2(9) == 512 && Pow2(18) == 0x4_0000 && Pow2(21) == 0x20_0000
  {
    Pow2Add(9, 9);
    Pow2Add(18, 3);
    assert Pow2(3) == 8;
    assert Pow2(9) == 512;
  }

  const COPIED: nat := 0x8000_0000_0000_0000
  const U64_LIMIT: nat := 0x1_0000_0000_0000_0000
  const OFFSET_LIMIT: nat := 0x100_0000_0000_0000

  /** The big-endian number in `n` bytes of a file. */
  function NumberAt(file: bytes, at: nat, n: nat): nat
    requires at + n <= |file|
  {
    if n == 0 then 0 else NumberAt(file, at, n - 1) * 256 + file[at + n - 1]
  }

  /** The same, or 0 past the end of the file. */
  function UintAt(file: bytes, offset: nat, n: nat): nat {
    if offset + n <= |file| then NumberAt(file, offset, n) else 0
  }

  lemma {:induction false} NumberIs(file: bytes, at: nat, n: nat)
    requires at + n <= |file|
    ensures NumberAt(file, at, n) == FromBe(file[at..at + n])
  {
    if n > 0 {
      var s := file[at..at + n];
      assert s[..n - 1] == file[at..at + n - 1] && s[n - 1] == file[at + n - 1];
      NumberIs(file, at, n - 1);
    }
  }

  /** The same bytes are the same number. */
  lemma {:induction false} SameNumber(a: bytes, i: nat, b: bytes, j: nat, n: nat)
    requires i + n <= |a| && j + n <= |b| && forall p :: i <= p < i + n ==> a[p] == b[j + (p - i)]
    ensures NumberAt(a, i, n) == NumberAt(b, j, n)
  {
    if n > 0 {
      SameNumber(a, i, b, j, n - 1);
    }
  }

  /** Entry `i` of a table of 8-byte entries. */
  function EntryAt(table: bytes, i: nat): nat {
    UintAt(table, 8 * i, 8)
  }

  /** Where piece `n` begins if every piece has the same size. */
  function Offset(n: nat, clusterSize: nat): nat {
    if n == 0 then 0 else Offset(n - 1, clusterSize) + clusterSize
  }

  lemma {:induction false} OffsetIsProduct(n: nat, clusterSize: nat)
    ensures Offset(n, clusterSize) == n * clusterSize
  {
    if n > 0 {
      OffsetIsProduct(n - 1, clusterSize);
      assert n * clusterSize == (n - 1) * clusterSize + clusterSize;
    }
  }

  lemma {:induction false} OffsetGrows(m: nat, n: nat, clusterSize: nat)
    requires m <= n
    ensures Offset(m, clusterSize) <= Offset(n, clusterSize)
    ensures m < n ==> Offset(m, clusterSize) + clusterSize <= Offset(n, clusterSize)
  {
    if m < n {
      OffsetGrows(m, n - 1, clusterSize);
    }
  }

  /** A set entry points at the next cluster from `first` on, or at its own in an external file. */
  function MapEntry(bits: seq<bool>, first: nat, clusterSize: nat, external: bool, j: nat): nat {
    if j < |bits| && bits[j] then Offset(if external then j else first + Rank(bits, j), clusterSize) + COPIED else 0
  }

  /** Entry `j` of the refcount table, whose blocks stand from cluster `first` on. */
  function TableEntry(first: nat, blocks: nat, clusterSize: nat, j: nat): nat {
    if j < blocks then Offset(first + j, clusterSize) else 0
  }

  /**
   What is to be written: which L1 and L2 entries are set, and how many clusters the tables take.
   `claimed` is how many data clusters were counted while they were being marked; `external` says
   that the data stays in a file of its own.
   */
  datatype Plan = Plan(
    g: Geometry, diskSize: nat, clusters: nat, l1: seq<bool>, l2: seq<bool>,
    l1Entries: nat, l1Tables: nat, claimed: nat, blocks: nat, tables: nat, external: bool) {

    function BlockCluster(): nat {
      1 + tables
    }

    function L1Cluster(): nat {
      BlockCluster() + blocks
    }

    function L2Cluster(): nat {
      L1Cluster() + l1Tables
    }

    function DataCluster(): nat {
      L2Cluster() + Count(l1)
    }

    /** The clusters that the refcounts are sized for. */
    function Total(): nat {
      DataCluster() + if external then 0 else claimed
    }

    /** The clusters that there are. */
    function Written(): nat {
      DataCluster() + if external then 0 else Count(l2)
    }

    function RefcountTableEntry(j: nat): nat {
      TableEntry(BlockCluster(), blocks, g.ClusterSize(), j)
    }

    function L1Entry(j: nat): nat {
      MapEntry(l1, L2Cluster(), g.ClusterSize(), false, j)
    }

    function L2Entry(j: nat): nat {
      MapEntry(l2, DataCluster(), g.ClusterSize(), external, j)
    }

    /** Where the data of an allocated guest cluster is. */
    function HostCluster(j: nat): nat
      requires j <= |l2|
    {
      if external then j else DataCluster() + Rank(l2, j)
    }

    /** The L2 table that maps a guest cluster, and its place in that table. */
    function TableOf(j: nat): nat {
      Quotient(j, g.Entries())
    }

    function PlaceOf(j: nat): nat {
      Remainder(j, g.Entries())
    }

    /** A set L2 entry lies in a table that its L1 entry points at. */
    ghost predicate MappedAt(j: int) {
      0 <= j < |l2| && l2[j] ==> TableOf(j) < |l1| && l1[TableOf(j)]
    }

    /** The bitmaps are as long as their tables, and agree. */
    ghost predicate Mapped() {
      && |l1| == Offset(l1Tables, g.Entries()) && |l2| == Offset(l1Entries, g.Entries())
      && l1Entries <= |l1| && clusters <= |l2|
      && (forall j :: l1Entries <= j < |l1| ==> !l1[j])
      && (forall j :: clusters <= j < |l2| ==> !l2[j])
      && (forall j: int :: MappedAt(j))
    }

    /** The refcount blocks count every cluster, and the table has an entry for every block. */
    ghost predicate Counted() {
      (external || Count(l2) <= claimed) && tables == CeilDiv(blocks, g.Entries()) && Total() <= Offset(blocks, g.RefcountsPerBlock())
    }

    /** Every offset fits its field. */
    ghost predicate Fits() {
      Offset(Total(), g.ClusterSize()) < OFFSET_LIMIT && Offset(|l2|, g.ClusterSize()) < OFFSET_LIMIT
    }

    ghost predicate Valid() {
      g.Valid() && Mapped() && Counted() && Fits()
    }
  }

  /** Which table an index belongs to, and at which place. */
  lemma {:induction false} TableWindow(p: Plan, t: nat, j: nat)
    requires p.g.Valid() && Offset(t, p.g.Entries()) <= j < Offset(t + 1, p.g.Entries())
    ensures p.TableOf(j) == t && p.PlaceOf(j) == j - Offset(t, p.g.Entries())
  {
    OffsetIsProduct(t, p.g.Entries());
    DivModOf(t, j - Offset(t, p.g.Entries()), p.g.Entries());
    QuotientIs(j, p.g.Entries());
  }

  lemma {:induction false} TableBounds(p: Plan, j: nat)
    requires p.g.Valid()
    ensures j == Offset(p.TableOf(j), p.g.Entries()) + p.PlaceOf(j) && p.PlaceOf(j) < p.g.Entries()
  {
    OffsetIsProduct(p.TableOf(j), p.g.Entries());
    QuotientIs(j, p.g.Entries());
  }

  /** The entries of a map whose clusters end at `last` are below the limit of their field. */
  lemma {:induction false} MapEntryFits(bits: seq<bool>, first: nat, clusterSize: nat, external: bool, j: nat, last: nat)
    requires (if external then |bits| else first + Count(bits)) <= last && Offset(last, clusterSize) < OFFSET_LIMIT
    ensures MapEntry(bits, first, clusterSize, external, j) < COPIED + OFFSET_LIMIT
  {
    if j < |bits| && bits[j] {
      RankGrows(bits, j, |bits|);
      OffsetGrows(if external then j else first + Rank(bits, j), last, clusterSize);
    }
  }

  ghost predicate EntryFits(bits: seq<bool>, first: nat, clusterSize: nat, external: bool, j: nat) {
    MapEntry(bits, first, clusterSize, external, j) < COPIED + OFFSET_LIMIT
  }

  ghost predicate EntriesFit(bits: seq<bool>, first: nat, clusterSize: nat, external: bool) {
    forall j: nat :: EntryFits(bits, first, clusterSize, external, j)
  }

  // ---------------------------------------------------------------------------------------
  // Tables of 8-byte entries.

  /** The cluster holds the entries of an L1 or L2 table from `base` on. */
  ghost predicate IsMapTable(cluster: bytes, bits: seq<bool>, first: nat, clusterSize: nat, external: bool,
                             base: nat, n: nat) {
    && |cluster| == 8 * n
    && forall i :: 0 <= i < n ==> EntryAt(cluster, i) == MapEntry(bits, first, clusterSize, external, base + i)
  }
}
