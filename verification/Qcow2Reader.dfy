/**
 A reader of qcow2 files, written from QEMU's qcow2 document alone (sections "Header", "Host
 cluster management" and "Cluster mapping"), and what it finds in an emitted image.
 */
module Qcow2Reader {
  import opened Collections
  import opened Wrappers
  import opened Bytes
  import opened Packing
  import opened Qcow2Math
  import opened Qcow2Format
  import opened Qcow2Writer
  import opened Qcow2Refcounts
  import opened Qcow2Header
  import opened Qcow2Image

  // ---------------------------------------------------------------------------------------
  // The reader. It knows the file and nothing of how it was made.

  /** Bits 9 to 55 of an L1 or L2 entry. */
  function HostOffset(entry: nat): nat {
    Remainder(Quotient(entry, 512), 0x8000_0000_0000) * 512
  }

  /** Bit 63 of an entry. */
  predicate IsCopied(entry: nat) {
    Remainder(Quotient(entry, 0x8000_0000_0000_0000), 2) == 1
  }

  /** Bit 62 of an L2 entry. */
  predicate IsCompressed(entry: nat) {
    Remainder(Quotient(entry, 0x4000_0000_0000_0000), 2) == 1
  }

  /** Bit 0 of an L2 entry. */
  predicate ReadsZero(entry: nat) {
    Remainder(entry, 2) == 1
  }

  function Slice(file: bytes, from: nat, n: nat): (r: bytes)
    ensures |r| <= n
  {
    if |file| <= from then [] else if |file| < from + n then file[from..] else file[from..from + n]
  }

  /** The bit that says that the data is in another file. */
  predicate IsExternal(h: Header) {
    h.incompatible / 4 % 2 == 1
  }

  predicate Readable(h: Header) {
    9 <= h.clusterBits <= 21 && h.refcountOrder <= 6
  }

  /** The L1 entry of an L2 table, 0 past the end of the L1 table. */
  function L1EntryOf(file: bytes, h: Header, t: nat): nat {
    if t < h.l1Entries then UintAt(file, h.l1Offset + 8 * t, 8) else 0
  }

  /** An entry of the L2 table that an L1 entry points at, 0 if it points at none. */
  function L2EntryAt(file: bytes, l1Entry: nat, place: nat): nat {
    if HostOffset(l1Entry) == 0 then 0 else UintAt(file, HostOffset(l1Entry) + 8 * place, 8)
  }

  /** The L2 entry of a guest cluster. */
  function L2EntryOf(file: bytes, h: Header, guest: nat): nat
    requires Readable(h)
  {
    var entries := Pow2(h.clusterBits - 3);
    L2EntryAt(file, L1EntryOf(file, h, Quotient(guest, entries)), Remainder(guest, entries))
  }

  /** What an L2 entry says of its cluster. */
  datatype Lookup = Unallocated | AllZero | At(offset: nat) | Compressed

  /** An offset of 0 means unallocated, but in an external file 0 is a place like any other. */
  function Decode(h: Header, entry: nat): Lookup {
    if IsCompressed(entry) then Compressed
    else if ReadsZero(entry) then AllZero
    else if HostOffset(entry) != 0 || (IsExternal(h) && IsCopied(entry)) then At(HostOffset(entry))
    else Unallocated
  }

  function LookUp(file: bytes, h: Header, guest: nat): Lookup
    requires Readable(h)
  {
    Decode(h, L2EntryOf(file, h, guest))
  }

  /** A cluster of data, where it is; compressed ones are not for this reader. */
  function Fetch(found: Lookup, source: bytes, cs: nat): (r: Option<bytes>)
    ensures r.Some? ==> |r.value| == cs
  {
    match found
    case Unallocated => Some(Zeros(cs))
    case AllZero => Some(Zeros(cs))
    case At(offset) => Some(Pad(Slice(source, offset, cs), cs))
    case Compressed => None
  }

  /** What a guest sees in one of its clusters; `data` is the external file, if there is one. */
  function ReadGuest(file: bytes, data: bytes, h: Header, guest: nat): Option<bytes>
    requires Readable(h)
  {
    Fetch(LookUp(file, h, guest), if IsExternal(h) then data else file, Pow2(h.clusterBits))
  }

  /** What a guest reads at byte `x` of its disk. */
  function GuestByte(file: bytes, data: bytes, h: Header, x: nat): Option<byte>
    requires Readable(h)
  {
    var cs := Pow2(h.clusterBits);
    match ReadGuest(file, data, h, Quotient(x, cs))
    case None => None
    case Some(cluster) => Some(cluster[Remainder(x, cs)])
  }

  /** The refcount table's entry for the block that counts a host cluster, 0 if it has none. */
  function BlockOffset(file: bytes, h: Header, cluster: nat): nat
    requires Readable(h)
  {
    var b := Quotient(cluster, Pow2(h.clusterBits + 3 - h.refcountOrder));
    if Offset(h.tableClusters, Pow2(h.clusterBits - 3)) <= b then 0 else UintAt(file, h.tableOffset + 8 * b, 8)
  }

  /** The refcount of a host cluster. */
  function RefcountOf(file: bytes, h: Header, cluster: nat): nat
    requires Readable(h)
  {
    var entry := BlockOffset(file, h, cluster);
    var place := Remainder(cluster, Pow2(h.clusterBits + 3 - h.refcountOrder));
    if entry == 0 then 0 else RefcountAt(Slice(file, entry, Pow2(h.clusterBits)), place, h.refcountOrder)
  }

  // ---------------------------------------------------------------------------------------
  // The file is its clusters one after the other.

  function Flatten(out: seq<bytes>): bytes {
    if out == [] then [] else Flatten(out[..|out| - 1]) + out[|out| - 1]
  }

  ghost predicate AllOfSize(out: seq<bytes>, cs: nat) {
    forall k :: 0 <= k < |out| ==> |out[k]| == cs
  }

  lemma {:induction false} ClusterAt(out: seq<bytes>, cs: nat, k: nat)
    requires AllOfSize(out, cs)
    ensures |Flatten(out)| == Offset(|out|, cs)
    ensures k < |out| ==> Offset(k, cs) + cs <= |Flatten(out)| && Flatten(out)[Offset(k, cs)..Offset(k, cs) + cs] == out[k]
  {
    if out != [] {
      var init, last := out[..|out| - 1], out[|out| - 1];
      ClusterAt(init, cs, k);
      if k < |init| {
        SliceAppend(Flatten(init), last, Offset(k, cs), Offset(k, cs) + cs);
      }
    }
  }

  /** A number inside a cluster. */
  lemma {:induction false} UintInCluster(out: seq<bytes>, cs: nat, k: nat, i: nat, n: nat, at: nat)
    requires AllOfSize(out, cs) && k < |out| && i + n <= cs && at == Offset(k, cs) + i
    ensures UintAt(Flatten(out), at, n) == UintAt(out[k], i, n)
  {
    ClusterAt(out, cs, k);
    UintInSlice(Flatten(out), Offset(k, cs), cs, i, n);
  }

  lemma {:induction false} UintInSlice(file: bytes, from: nat, length: nat, i: nat, n: nat)
    requires from + length <= |file| && i + n <= length
    ensures UintAt(file[from..from + length], i, n) == UintAt(file, from + i, n)
  {
    SameNumber(file[from..from + length], i, file, from + i, n);
  }

  lemma {:induction false} OffsetSum(a: nat, b: nat, size: nat)
    ensures Offset(a + b, size) == Offset(a, size) + Offset(b, size)
  {
    if b > 0 {
      OffsetSum(a, b - 1, size);
      assert a + b - 1 == a + (b - 1);
    }
  }

  lemma {:induction false} OffsetOfEight(n: nat, e: nat, cs: nat)
    requires cs == 8 * e
    ensures Offset(n, cs) == 8 * Offset(n, e)
  {
    if n > 0 {
      OffsetOfEight(n - 1, e, cs);
    }
  }

  /** Where entry `j` of a table stands, if it is entry `i` of cluster `k`. */
  lemma {:induction false} EntryPlace(e: nat, cs: nat, first: nat, k: nat, i: nat, j: nat)
    requires cs == 8 * e && j == Offset(k, e) + i
    ensures Offset(first, cs) + 8 * j == Offset(first + k, cs) + 8 * i
  {
    OffsetSum(first, k, cs);
    OffsetOfEight(k, e, cs);
  }

  /** An entry of a table that takes several clusters, from cluster `first` on. */
  lemma {:induction false} EntryInTable(out: seq<bytes>, e: nat, cs: nat, first: nat, k: nat, i: nat, j: nat)
    requires cs == 8 * e && AllOfSize(out, cs) && first + k < |out| && i < e && j == Offset(k, e) + i
    ensures UintAt(Flatten(out), Offset(first, cs) + 8 * j, 8) == EntryAt(out[first + k], i)
  {
    EntryPlace(e, cs, first, k, i, j);
    UintInCluster(out, cs, first + k, 8 * i, 8, Offset(first, cs) + 8 * j);
  }

  // ---------------------------------------------------------------------------------------
  // Offsets in entries.

  lemma {:induction false} OffsetAligned(n: nat, cs: nat)
    requires cs % 512 == 0
    ensures Offset(n, cs) % 512 == 0
  {
    if n > 0 {
      OffsetAligned(n - 1, cs);
    }
  }

  lemma {:induction false} HostOffsetOf(offset: nat)
    requires offset % 512 == 0 && offset < OFFSET_LIMIT
    ensures HostOffset(offset + COPIED) == offset
  {
    var q := offset / 512;
    QuotientIs(offset + COPIED, 512);
    QuotientIs(q + 0x40_0000_0000_0000, 0x8000_0000_0000);
    assert offset == 512 * q;
    assert (offset + COPIED) / 512 == q + 0x40_0000_0000_0000;
  }

  lemma {:induction false} FlagsOf(offset: nat)
    requires offset % 512 == 0 && offset < OFFSET_LIMIT
    ensures IsCopied(offset + COPIED) && !IsCompressed(offset + COPIED) && !ReadsZero(offset + COPIED)
  {
    QuotientIs(offset + COPIED, COPIED);
    QuotientIs(offset + COPIED, 0x4000_0000_0000_0000);
    QuotientIs(offset + COPIED, 2);
    assert (offset + COPIED) / 0x4000_0000_0000_0000 == 2;
  }

  /** Decoding an entry of the writer's. */
  lemma {:induction false} MapEntryDecoded(bits: seq<bool>, first: nat, g: Geometry, external: bool, j: nat)
    requires g.Valid() && EntryFits(bits, first, g.ClusterSize(), external, j) && j < |bits|
    ensures var entry := MapEntry(bits, first, g.ClusterSize(), external, j);
            && HostOffset(entry) == (if bits[j] then Offset(if external then j else first + Rank(bits, j), g.ClusterSize()) else 0)
            && (IsCopied(entry) <==> bits[j]) && !IsCompressed(entry) && !ReadsZero(entry)
  {
    GeometryFacts(g);
    if bits[j] {
      var n := if external then j else first + Rank(bits, j);
      OffsetAligned(n, g.ClusterSize());
      HostOffsetOf(Offset(n, g.ClusterSize()));
      FlagsOf(Offset(n, g.ClusterSize()));
    }
  }

  // ---------------------------------------------------------------------------------------
  // What the reader finds.

  lemma {:induction false} HeaderFound(out: seq<bytes>, p: Plan, raw: bool, extensions: bytes)
    requires p.g.Valid() && AllOfSize(out, p.g.ClusterSize())
    requires HeaderAt(out, p, raw, extensions) && HeaderOf(p, raw).Fits()
    ensures ReadHeader(Flatten(out)) == Some(HeaderOf(p, raw))
  {
    var cs, file := p.g.ClusterSize(), Flatten(out);
    ClusterAt(out, cs, 0);
    HeaderClusterReads(HeaderOf(p, raw), extensions, cs, file[cs..]);
    Rejoin(file, cs);
  }

  lemma {:induction false} Rejoin<T>(s: seq<T>, n: nat)
    requires n <= |s|
    ensures s[0..n] + s[n..] == s
  {
  }

  /** Around the fields that the reader takes: what it may ignore, and the extensions. */
  lemma {:induction false} HeaderAround(out: seq<bytes>, p: Plan, raw: bool, extensions: bytes)
    requires p.g.Valid() && AllOfSize(out, p.g.ClusterSize())
    requires HeaderAt(out, p, raw, extensions) && HeaderOf(p, raw).Fits()
    ensures var file := Flatten(out);
            && UintAt(file, 60, 4) == 0 && UintAt(file, 64, 8) == 0 && UintAt(file, 80, 8) == 0
            && p.g.ClusterSize() <= |file| && file[104..p.g.ClusterSize()] ==
                 Zeros(8) + extensions + Zeros(p.g.ClusterSize() - 112 - |extensions|)
  {
    var cs, file, h := p.g.ClusterSize(), Flatten(out), HeaderOf(p, raw);
    var fields := Pack(h.Fields());
    var after := Zeros(8) + extensions + Zeros(cs - 112 - |extensions|);
    ClusterAt(out, cs, 0);
    Rejoin(file, cs);
    ConcatAssociates(fields, after, file[cs..]);
    HeaderUnused(h, after + file[cs..]);
    HeaderRoundTrip(h, after);
    assert (fields + after)[104..] == after;
    SliceAppend(fields + after, file[cs..], 104, cs);
  }

  lemma {:induction false} HeaderReadable(p: Plan, raw: bool)
    requires p.g.Valid()
    ensures Readable(HeaderOf(p, raw)) && (IsExternal(HeaderOf(p, raw)) <==> p.external)
  {
  }

  lemma {:induction false} OffsetBelow(a: nat, b: nat, size: nat)
    requires Offset(a, size) < Offset(b, size)
    ensures a < b
  {
    if b <= a {
      OffsetGrows(b, a, size);
    }
  }

  lemma {:induction false} L1EntryAt(out: seq<bytes>, p: Plan, k: nat, i: nat, j: nat)
    requires L1TablesAt(out, p) && p.L2Cluster() <= |out| && k < p.l1Tables && i < p.g.Entries()
    requires j == Offset(k, p.g.Entries()) + i
    ensures EntryAt(out[p.L1Cluster() + k], i) == p.L1Entry(j)
  {
    var e, c := p.g.Entries(), p.L1Cluster() + k;
    assert IsMapTable(out[c], p.l1, p.L2Cluster(), p.g.ClusterSize(), false, Offset(c - p.L1Cluster(), e), e);
  }

  lemma {:induction false} L1EntryFound(out: seq<bytes>, p: Plan, t: nat)
    requires p.g.Valid() && AllOfSize(out, p.g.ClusterSize()) && L1TablesAt(out, p) && p.L2Cluster() <= |out|
    requires t < |p.l1| == Offset(p.l1Tables, p.g.Entries())
    ensures UintAt(Flatten(out), Offset(p.L1Cluster(), p.g.ClusterSize()) + 8 * t, 8) == p.L1Entry(t)
  {
    var k, i := p.TableOf(t), p.PlaceOf(t);
    TableBounds(p, t);
    OffsetBelow(k, p.l1Tables, p.g.Entries());
    EightEntries(p.g);
    EntryInTable(out, p.g.Entries(), p.g.ClusterSize(), p.L1Cluster(), k, i, t);
    L1EntryAt(out, p, k, i, t);
  }

  /** The L2 table that an L1 entry points at. */
  lemma {:induction false} L2TableFound(out: seq<bytes>, p: Plan, t: nat, i: nat)
    requires p.g.Valid() && AllOfSize(out, p.g.ClusterSize()) && L2TablesAt(out, p)
    requires t < p.l1Entries <= |p.l1| && p.l1[t] && i < p.g.Entries()
    ensures UintAt(Flatten(out), Offset(p.L2Cluster() + Rank(p.l1, t), p.g.ClusterSize()) + 8 * i, 8) ==
            p.L2Entry(Offset(t, p.g.Entries()) + i)
  {
    var e, cs := p.g.Entries(), p.g.ClusterSize();
    EightEntries(p.g);
    var c := p.L2Cluster() + Rank(p.l1, t);
    assert L2TableAt(out, p.L2Cluster(), p.l1, p.l2, p.DataCluster(), cs, p.external, e, t);
    UintInCluster(out, cs, c, 8 * i, 8, Offset(c, cs) + 8 * i);
    assert EntryAt(out[c], i) == p.L2Entry(Offset(t, e) + i);
  }

  /** A guest cluster's data, from its rank on. */
  lemma {:induction false} DataFound(out: seq<bytes>, p: Plan, input: bytes, guest: nat)
    requires AllOfSize(out, p.g.ClusterSize()) && DataAt(out, p.DataCluster(), p.l2, input, p.g.ClusterSize(), guest)
    requires guest < |p.l2| && p.l2[guest]
    ensures var cs := p.g.ClusterSize();
            Pad(Slice(Flatten(out), Offset(p.DataCluster() + Rank(p.l2, guest), cs), cs), cs) == PaddedCluster(input, guest, cs)
  {
    var cs := p.g.ClusterSize();
    var c := p.DataCluster() + Rank(p.l2, guest);
    SliceAt(out, cs, c);
    PadFull(out[c], cs);
  }

  lemma {:induction false} SliceAt(out: seq<bytes>, cs: nat, c: nat)
    requires AllOfSize(out, cs) && c < |out|
    ensures Slice(Flatten(out), Offset(c, cs), cs) == out[c]
  {
    ClusterAt(out, cs, c);
  }

  lemma {:induction false} PadFull(cluster: bytes, cs: nat)
    requires |cluster| == cs
    ensures Pad(cluster, cs) == cluster
  {
  }

  lemma {:induction false} RefcountEntryAt(out: seq<bytes>, p: Plan, k: nat, i: nat, b: nat)
    requires RefcountTablesAt(out, p) && p.BlockCluster() <= |out| && k < p.tables && i < p.g.Entries()
    requires b == Offset(k, p.g.Entries()) + i
    ensures EntryAt(out[1 + k], i) == p.RefcountTableEntry(b)
  {
    var e, c := p.g.Entries(), 1 + k;
    assert IsRefcountTable(out[c], p.BlockCluster(), p.blocks, p.g.ClusterSize(), Offset(c - 1, e), e);
  }

  lemma {:induction false} RefcountEntryFound(out: seq<bytes>, p: Plan, b: nat)
    requires p.g.Valid() && AllOfSize(out, p.g.ClusterSize()) && RefcountTablesAt(out, p) && p.BlockCluster() <= |out|
    requires b < Offset(p.tables, p.g.Entries())
    ensures UintAt(Flatten(out), Offset(1, p.g.ClusterSize()) + 8 * b, 8) == p.RefcountTableEntry(b)
  {
    var k, i := p.TableOf(b), p.PlaceOf(b);
    TableBounds(p, b);
    OffsetBelow(k, p.tables, p.g.Entries());
    EightEntries(p.g);
    EntryInTable(out, p.g.Entries(), p.g.ClusterSize(), 1, k, i, b);
    RefcountEntryAt(out, p, k, i, b);
  }

  lemma {:induction false} BlockFound(out: seq<bytes>, p: Plan, b: nat, i: nat)
    requires p.g.Valid() && AllOfSize(out, p.g.ClusterSize()) && RefcountBlocksAt(out, p) && p.L1Cluster() <= |out|
    requires b < p.blocks && i < p.g.RefcountsPerBlock()
    ensures p.RefcountTableEntry(b) != 0
    ensures RefcountAt(Slice(Flatten(out), p.RefcountTableEntry(b), p.g.ClusterSize()), i, p.g.refcountOrder) ==
              if Offset(b, p.g.RefcountsPerBlock()) + i < p.Total() then 1 else 0
  {
    var cs := p.g.ClusterSize();
    var c := p.BlockCluster() + b;
    OffsetGrows(1, c, cs);
    SliceAt(out, cs, c);
    assert CountsFirst(out[c], p.g.refcountOrder, Left(p.Total(), Offset(c - p.BlockCluster(), p.g.RefcountsPerBlock())),
                       p.g.RefcountsPerBlock());
  }

  // ---------------------------------------------------------------------------------------
  // The whole image.

  /** An image that was written whole. */
  ghost predicate Emitted(out: seq<bytes>, p: Plan, input: bytes, raw: bool, extensions: bytes) {
    p.Valid() && HeaderOf(p, raw).Fits() && IsImage(out, p, input, raw, extensions)
  }

  lemma {:induction false} L1EntryStands(out: seq<bytes>, p: Plan, h: Header, t: nat)
    requires p.g.Valid() && AllOfSize(out, p.g.ClusterSize()) && L1TablesAt(out, p) && p.L2Cluster() <= |out|
    requires t < p.l1Entries <= |p.l1| == Offset(p.l1Tables, p.g.Entries())
    requires h.l1Entries == p.l1Entries && h.l1Offset == Offset(p.L1Cluster(), p.g.ClusterSize())
    ensures L1EntryOf(Flatten(out), h, t) == p.L1Entry(t)
  {
    L1EntryFound(out, p, t);
  }

  lemma {:induction false} L2EntryStands(out: seq<bytes>, p: Plan, t: nat, i: nat)
    requires p.g.Valid() && AllOfSize(out, p.g.ClusterSize()) && L2TablesAt(out, p)
    requires t < p.l1Entries <= |p.l1| && i < p.g.Entries() && EntryFits(p.l1, p.L2Cluster(), p.g.ClusterSize(), false, t)
    requires !p.l1[t] ==> p.L2Entry(Offset(t, p.g.Entries()) + i) == 0
    ensures L2EntryAt(Flatten(out), p.L1Entry(t), i) == p.L2Entry(Offset(t, p.g.Entries()) + i)
  {
    L1Decoded(p, t);
    if p.l1[t] {
      L2TableFound(out, p, t, i);
    }
  }

  lemma {:induction false} L2EntryIn(out: seq<bytes>, p: Plan, h: Header, guest: nat)
    requires p.g.Valid() && p.Mapped() && guest < |p.l2| && AllOfSize(out, p.g.ClusterSize()) && p.DataCluster() <= |out|
    requires L1TablesAt(out, p) && L2TablesAt(out, p) && EntriesFit(p.l1, p.L2Cluster(), p.g.ClusterSize(), false)
    requires h.clusterBits == p.g.clusterBits && h.refcountOrder <= 6 && h.l1Entries == p.l1Entries
    requires h.l1Offset == Offset(p.L1Cluster(), p.g.ClusterSize())
    ensures Readable(h) && L2EntryOf(Flatten(out), h, guest) == p.L2Entry(guest)
  {
    var t, i := p.TableOf(guest), p.PlaceOf(guest);
    TableBounds(p, guest);
    OffsetBelow(t, p.l1Entries, p.g.Entries());
    assert EntryFits(p.l1, p.L2Cluster(), p.g.ClusterSize(), false, t);
    assert p.MappedAt(guest);
    L1EntryStands(out, p, h, t);
    L2EntryStands(out, p, t, i);
  }

  lemma {:induction false} L2EntryFound(out: seq<bytes>, p: Plan, input: bytes, raw: bool, extensions: bytes, guest: nat)
    requires Emitted(out, p, input, raw, extensions) && guest < |p.l2|
    ensures Readable(HeaderOf(p, raw))
    ensures L2EntryOf(Flatten(out), HeaderOf(p, raw), guest) == p.L2Entry(guest)
  {
    EntriesFitFor(p);
    L2EntryIn(out, p, HeaderOf(p, raw), guest);
  }

  lemma {:induction false} L1Decoded(p: Plan, t: nat)
    requires p.g.Valid() && t < |p.l1| && EntryFits(p.l1, p.L2Cluster(), p.g.ClusterSize(), false, t)
    ensures if p.l1[t] then HostOffset(p.L1Entry(t)) == Offset(p.L2Cluster() + Rank(p.l1, t), p.g.ClusterSize()) > 0
            else HostOffset(p.L1Entry(t)) == 0
  {
    MapEntryDecoded(p.l1, p.L2Cluster(), p.g, false, t);
    OffsetGrows(1, p.L2Cluster() + Rank(p.l1, t), p.g.ClusterSize());
  }

  lemma {:induction false} L2Decoded(p: Plan, raw: bool, j: nat)
    requires p.g.Valid() && j < |p.l2| && EntryFits(p.l2, p.DataCluster(), p.g.ClusterSize(), p.external, j)
    ensures Decode(HeaderOf(p, raw), p.L2Entry(j)) ==
            if p.l2[j] then At(Offset(p.HostCluster(j), p.g.ClusterSize())) else Unallocated
  {
    HeaderReadable(p, raw);
    MapEntryDecoded(p.l2, p.DataCluster(), p.g, p.external, j);
    OffsetGrows(1, p.DataCluster() + Rank(p.l2, j), p.g.ClusterSize());
  }

  /**
   Every guest cluster the writer allocated is found, in the external file at its own place and
   else in the image, and no other is.
   */
  lemma {:induction false} GuestFound(out: seq<bytes>, p: Plan, input: bytes, raw: bool, extensions: bytes, guest: nat)
    requires Emitted(out, p, input, raw, extensions) && guest < |p.l2|
    ensures Readable(HeaderOf(p, raw))
    ensures LookUp(Flatten(out), HeaderOf(p, raw), guest) ==
            if p.l2[guest] then At(Offset(p.HostCluster(guest), p.g.ClusterSize())) else Unallocated
  {
    L2EntryFound(out, p, input, raw, extensions, guest);
    EntriesFitFor(p);
    assert EntryFits(p.l2, p.DataCluster(), p.g.ClusterSize(), p.external, guest);
    L2Decoded(p, raw, guest);
  }

  lemma {:induction false} SliceIsCluster(file: bytes, k: nat, cs: nat)
    ensures Pad(Slice(file, Offset(k, cs), cs), cs) == PaddedCluster(file, k, cs)
  {
  }

  /** What stands at the place of an allocated cluster, in the file or in the external data. */
  lemma {:induction false} HostHolds(out: seq<bytes>, p: Plan, input: bytes, data: bytes, guest: nat)
    requires AllOfSize(out, p.g.ClusterSize()) && guest < |p.l2| && p.l2[guest]
    requires if p.external then data == input else DataAt(out, p.DataCluster(), p.l2, input, p.g.ClusterSize(), guest)
    ensures var cs := p.g.ClusterSize();
            Fetch(At(Offset(p.HostCluster(guest), cs)), if p.external then data else Flatten(out), cs) ==
            Some(PaddedCluster(input, guest, cs))
  {
    if p.external {
      SliceIsCluster(data, guest, p.g.ClusterSize());
    } else {
      DataFound(out, p, input, guest);
    }
  }

  lemma {:induction false} DataStands(out: seq<bytes>, p: Plan, input: bytes, raw: bool, extensions: bytes, guest: nat)
    requires Emitted(out, p, input, raw, extensions) && guest < |p.l2| && p.l2[guest]
    ensures p.external || DataAt(out, p.DataCluster(), p.l2, input, p.g.ClusterSize(), guest)
  {
    assert guest < p.clusters;
  }

  /** A guest reads its padded input where a cluster was allocated, and zeros where none was. */
  lemma {:induction false} GuestReads(out: seq<bytes>, p: Plan, input: bytes, raw: bool, extensions: bytes, data: bytes, guest: nat)
    requires Emitted(out, p, input, raw, extensions) && guest < |p.l2| && (p.external ==> data == input)
    ensures Readable(HeaderOf(p, raw))
    ensures ReadGuest(Flatten(out), data, HeaderOf(p, raw), guest) ==
            Some(if p.l2[guest] then PaddedCluster(input, guest, p.g.ClusterSize()) else Zeros(p.g.ClusterSize()))
  {
    GuestFound(out, p, input, raw, extensions, guest);
    HeaderReadable(p, raw);
    if p.l2[guest] {
      DataStands(out, p, input, raw, extensions, guest);
      HostHolds(out, p, input, data, guest);
    }
  }

  /** Where a cluster is counted. */
  lemma {:induction false} BlockOf(cluster: nat, perBlock: nat)
    requires perBlock > 0
    ensures cluster == Offset(Quotient(cluster, perBlock), perBlock) + Remainder(cluster, perBlock)
    ensures Remainder(cluster, perBlock) < perBlock
  {
    OffsetIsProduct(Quotient(cluster, perBlock), perBlock);
    QuotientIs(cluster, perBlock);
  }

  lemma {:induction false} TablesHoldBlocks(blocks: nat, e: nat)
    requires e > 0
    ensures blocks <= Offset(CeilDiv(blocks, e), e)
  {
    OffsetIsProduct(CeilDiv(blocks, e), e);
    CeilDivBounds(blocks, e);
  }

  /** A header that describes the refcounts of a plan. */
  ghost predicate Describes(h: Header, p: Plan)
    requires p.g.Valid()
  {
    && h.clusterBits == p.g.clusterBits && h.refcountOrder == p.g.refcountOrder
    && h.tableClusters == p.tables && h.tableOffset == Offset(1, p.g.ClusterSize())
    && p.Total() <= Offset(p.blocks, p.g.RefcountsPerBlock()) && p.blocks <= Offset(p.tables, p.g.Entries())
  }

  /** The sizes that a reader derives from such a header. */
  lemma {:induction false} SizesOf(h: Header, p: Plan)
    requires p.g.Valid() && Describes(h, p)
    ensures Readable(h) && Pow2(h.clusterBits) == p.g.ClusterSize() && Pow2(h.clusterBits - 3) == p.g.Entries()
    ensures Pow2(h.clusterBits + 3 - h.refcountOrder) == p.g.RefcountsPerBlock()
  {
  }

  lemma {:induction false} BlockOffsetIs(file: bytes, h: Header, cluster: nat, b: nat, entry: nat)
    requires Readable(h) && b == Quotient(cluster, Pow2(h.clusterBits + 3 - h.refcountOrder))
    requires b < Offset(h.tableClusters, Pow2(h.clusterBits - 3)) && UintAt(file, h.tableOffset + 8 * b, 8) == entry
    ensures BlockOffset(file, h, cluster) == entry
  {
  }

  lemma {:induction false} BlockOffsetFound(out: seq<bytes>, p: Plan, h: Header, cluster: nat, b: nat)
    requires p.g.Valid() && AllOfSize(out, p.g.ClusterSize()) && RefcountTablesAt(out, p) && p.L1Cluster() <= |out|
    requires Describes(h, p) && b == Quotient(cluster, p.g.RefcountsPerBlock()) < Offset(p.tables, p.g.Entries())
    ensures Readable(h) && BlockOffset(Flatten(out), h, cluster) == p.RefcountTableEntry(b)
  {
    SizesOf(h, p);
    RefcountEntryFound(out, p, b);
    assert h.tableOffset == Offset(1, p.g.ClusterSize());
    BlockOffsetIs(Flatten(out), h, cluster, b, p.RefcountTableEntry(b));
  }

  lemma {:induction false} BlockOffsetPast(file: bytes, h: Header, cluster: nat, b: nat)
    requires Readable(h) && b == Quotient(cluster, Pow2(h.clusterBits + 3 - h.refcountOrder))
    requires b >= Offset(h.tableClusters, Pow2(h.clusterBits - 3))
    ensures BlockOffset(file, h, cluster) == 0
  {
  }

  /** Once the block and the count in it are known. */
  lemma {:induction false} RefcountIs(file: bytes, h: Header, cluster: nat, offset: nat, cs: nat, place: nat, count: nat)
    requires Readable(h) && BlockOffset(file, h, cluster) == offset && cs == Pow2(h.clusterBits)
    requires place == Remainder(cluster, Pow2(h.clusterBits + 3 - h.refcountOrder))
    requires offset != 0 && RefcountAt(Slice(file, offset, cs), place, h.refcountOrder) == count
    ensures RefcountOf(file, h, cluster) == count
  {
  }

  lemma {:induction false} RefcountCounted(out: seq<bytes>, p: Plan, h: Header, cluster: nat, b: nat, i: nat)
    requires p.g.Valid() && AllOfSize(out, p.g.ClusterSize()) && RefcountBlocksAt(out, p) && p.L1Cluster() <= |out|
    requires Describes(h, p) && BlockOffset(Flatten(out), h, cluster) == p.RefcountTableEntry(b) && b < p.blocks
    requires i == Remainder(cluster, p.g.RefcountsPerBlock()) && cluster == Offset(b, p.g.RefcountsPerBlock()) + i
    ensures Readable(h) && RefcountOf(Flatten(out), h, cluster) == if cluster < p.Total() then 1 else 0
  {
    SizesOf(h, p);
    BlockFound(out, p, b, i);
    RefcountIs(Flatten(out), h, cluster, p.RefcountTableEntry(b), p.g.ClusterSize(), i, if cluster < p.Total() then 1 else 0);
  }

  lemma {:induction false} RefcountPast(file: bytes, p: Plan, h: Header, cluster: nat, b: nat, i: nat)
    requires p.g.Valid() && Describes(h, p) && BlockOffset(file, h, cluster) == p.RefcountTableEntry(b) && b >= p.blocks
    requires cluster == Offset(b, p.g.RefcountsPerBlock()) + i
    ensures Readable(h) && RefcountOf(file, h, cluster) == 0 && cluster >= p.Total()
  {
    OffsetGrows(p.blocks, b, p.g.RefcountsPerBlock());
  }

  lemma {:induction false} RefcountIn(out: seq<bytes>, p: Plan, h: Header, cluster: nat)
    requires p.g.Valid() && AllOfSize(out, p.g.ClusterSize()) && RefcountTablesAt(out, p) && RefcountBlocksAt(out, p)
    requires p.L1Cluster() <= |out| && Describes(h, p)
    ensures Readable(h) && RefcountOf(Flatten(out), h, cluster) == if cluster < p.Total() then 1 else 0
  {
    var per := p.g.RefcountsPerBlock();
    var b, i := Quotient(cluster, per), Remainder(cluster, per);
    BlockOf(cluster, per);
    SizesOf(h, p);
    if b < Offset(p.tables, p.g.Entries()) {
      BlockOffsetFound(out, p, h, cluster, b);
    } else {
      BlockOffsetPast(Flatten(out), h, cluster, b);
    }
    if b < p.blocks {
      RefcountCounted(out, p, h, cluster, b, i);
    } else {
      RefcountPast(Flatten(out), p, h, cluster, b, i);
    }
  }

  /** A cluster is counted once if the writer counted it, and not at all if it did not. */
  lemma {:induction false} RefcountFound(out: seq<bytes>, p: Plan, input: bytes, raw: bool, extensions: bytes, cluster: nat)
    requires Emitted(out, p, input, raw, extensions)
    ensures Readable(HeaderOf(p, raw))
    ensures RefcountOf(Flatten(out), HeaderOf(p, raw), cluster) == if cluster < p.Total() then 1 else 0
  {
    TablesHoldBlocks(p.blocks, p.g.Entries());
    RefcountIn(out, p, HeaderOf(p, raw), cluster);
  }

  /** No two guest clusters share a host cluster. */
  lemma {:induction false} ClustersDistinct(out: seq<bytes>, p: Plan, input: bytes, raw: bool, extensions: bytes, a: nat, b: nat)
    requires Emitted(out, p, input, raw, extensions) && a < |p.l2| && b < |p.l2| && a != b
    ensures var h, file := HeaderOf(p, raw), Flatten(out);
            Readable(h) && (LookUp(file, h, a).At? ==> LookUp(file, h, a) != LookUp(file, h, b))
  {
    GuestFound(out, p, input, raw, extensions, a);
    GuestFound(out, p, input, raw, extensions, b);
    if p.l2[a] && p.l2[b] {
      PlacesDiffer(p, a, b);
    }
  }

  lemma {:induction false} PlacesDiffer(p: Plan, a: nat, b: nat)
    requires a < |p.l2| && b < |p.l2| && a != b && p.l2[a] && p.l2[b]
    ensures Offset(p.HostCluster(a), p.g.ClusterSize()) != Offset(p.HostCluster(b), p.g.ClusterSize())
  {
    RankInjective(p.l2, a, b);
    OffsetsDiffer(p.HostCluster(a), p.HostCluster(b), p.g.ClusterSize());
  }

  lemma {:induction false} OffsetsDiffer(i: nat, j: nat, size: nat)
    requires i != j && size > 0
    ensures Offset(i, size) != Offset(j, size)
  {
    if i < j {
      OffsetGrows(i, j, size);
    } else {
      OffsetGrows(j, i, size);
    }
  }
}
