/** The header cluster: fixed fields, header extensions, zeros (section "Header" of QEMU's qcow2 document). */
module Qcow2Header {
  import opened Collections
  import opened Wrappers
  import opened Bytes
  import opened Packing
  import opened Qcow2Format
  import opened Qcow2Writer

  const MAGIC: nat := 0x5146_49fb
  const HEADER_LENGTH: nat := 112

  /** What a reader needs of the header. */
  datatype Header = Header(
    clusterBits: nat, diskSize: nat, l1Entries: nat, l1Offset: nat, tableOffset: nat, tableClusters: nat,
    incompatible: nat, autoclear: nat, refcountOrder: nat) {

    ghost predicate Fits() {
      && clusterBits < 0x1_0000_0000 && diskSize < U64_LIMIT && l1Entries < 0x1_0000_0000 && l1Offset < U64_LIMIT
      && tableOffset < U64_LIMIT && tableClusters < 0x1_0000_0000
      && incompatible < U64_LIMIT && autoclear < U64_LIMIT && refcountOrder < 0x1_0000_0000
    }

    /** A version 3 image that a reader need not refuse: of the incompatible features, at most external data. */
    predicate Supported() {
      incompatible == 0 || incompatible == 4
    }

    /** The fields in the order they are packed in. */
    function Fields(): seq<Packed> {
      [Packed(MAGIC, 4), Packed(3, 4), Packed(0, 8), Packed(0, 4), Packed(clusterBits, 4), Packed(diskSize, 8),
       Packed(0, 4), Packed(l1Entries, 4), Packed(l1Offset, 8), Packed(tableOffset, 8), Packed(tableClusters, 4),
       Packed(0, 4), Packed(0, 8), Packed(incompatible, 8), Packed(0, 8), Packed(autoclear, 8),
       Packed(refcountOrder, 4), Packed(HEADER_LENGTH, 4)]
    }
  }

  /** The document's byte offsets. A backing file, encryption or an unknown incompatible feature is refused. */
  function ReadHeader(file: bytes): Option<Header> {
    var h := Header(
      UintAt(file, 20, 4), UintAt(file, 24, 8), UintAt(file, 36, 4), UintAt(file, 40, 8), UintAt(file, 48, 8),
      UintAt(file, 56, 4), UintAt(file, 72, 8), UintAt(file, 88, 8), UintAt(file, 96, 4));
    if UintAt(file, 0, 4) != 0x5146_49fb || UintAt(file, 4, 4) != 3 || UintAt(file, 100, 4) != 112 then None
    else if UintAt(file, 8, 8) != 0 || UintAt(file, 32, 4) != 0 || !h.Supported() then None
    else Some(h)
  }

  lemma {:induction false} HeaderStarts(fields: seq<Packed>, h: Header)
    requires fields == h.Fields()
    ensures Start(fields, 0) == 0 && Start(fields, 1) == 4 && Start(fields, 2) == 8 && Start(fields, 4) == 20
    ensures Start(fields, 5) == 24 && Start(fields, 6) == 32 && Start(fields, 7) == 36 && Start(fields, 8) == 40
    ensures Start(fields, 9) == 48 && Start(fields, 10) == 56 && Start(fields, 11) == 60 && Start(fields, 12) == 64
    ensures Start(fields, 14) == 80
    ensures Start(fields, 13) == 72 && Start(fields, 15) == 88 && Start(fields, 16) == 96 && Start(fields, 17) == 100
    ensures Start(fields, 18) == 104
  {
    assert Start(fields, 1) == 4;
    assert Start(fields, 3) == 16;
    assert Start(fields, 4) == 20;
    assert Start(fields, 6) == 32;
    assert Start(fields, 8) == 40;
    assert Start(fields, 10) == 56;
    assert Start(fields, 12) == 64;
    assert Start(fields, 14) == 80;
    assert Start(fields, 16) == 96;
  }

  lemma {:induction false} UintAppend(a: bytes, b: bytes, offset: nat, n: nat)
    requires offset + n <= |a|
    ensures UintAt(a + b, offset, n) == UintAt(a, offset, n)
  {
    SameNumber(a + b, offset, a, offset, n);
  }

  /** Field `k` of a header stands at `offset`, whatever follows the fields. */
  lemma {:induction false} HeaderField(h: Header, rest: bytes, k: nat, offset: nat, width: nat, value: nat)
    requires k < 18 && h.Fields()[k] == Packed(value, width) && Start(h.Fields(), k) == offset && value < Pow256(width)
    ensures UintAt(Pack(h.Fields()) + rest, offset, width) == value
  {
    PackedAt(h.Fields(), k);
    NumberIs(Pack(h.Fields()), offset, width);
    UintAppend(Pack(h.Fields()), rest, offset, width);
  }

  /** Reading a header gives back what was packed. */
  lemma {:induction false} HeaderRoundTrip(h: Header, rest: bytes)
    requires h.Fits() && h.Supported()
    ensures |Pack(h.Fields())| == 104
    ensures ReadHeader(Pack(h.Fields()) + rest) == Some(h)
  {
    Widths();
    PackLength(h.Fields());
    HeaderStarts(h.Fields(), h);
    HeaderField(h, rest, 0, 0, 4, MAGIC);
    HeaderField(h, rest, 1, 4, 4, 3);
    HeaderField(h, rest, 2, 8, 8, 0);
    HeaderField(h, rest, 4, 20, 4, h.clusterBits);
    HeaderField(h, rest, 5, 24, 8, h.diskSize);
    HeaderField(h, rest, 6, 32, 4, 0);
    HeaderField(h, rest, 7, 36, 4, h.l1Entries);
    HeaderField(h, rest, 8, 40, 8, h.l1Offset);
    HeaderField(h, rest, 9, 48, 8, h.tableOffset);
    HeaderField(h, rest, 10, 56, 4, h.tableClusters);
    HeaderField(h, rest, 13, 72, 8, h.incompatible);
    HeaderField(h, rest, 15, 88, 8, h.autoclear);
    HeaderField(h, rest, 16, 96, 4, h.refcountOrder);
    HeaderField(h, rest, 17, 100, 4, HEADER_LENGTH);
  }

  /** Snapshots and compatible features, which a reader may ignore: there are none. */
  lemma {:induction false} HeaderUnused(h: Header, rest: bytes)
    ensures UintAt(Pack(h.Fields()) + rest, 60, 4) == 0 && UintAt(Pack(h.Fields()) + rest, 64, 8) == 0
    ensures UintAt(Pack(h.Fields()) + rest, 80, 8) == 0
  {
    Widths();
    HeaderStarts(h.Fields(), h);
    HeaderField(h, rest, 11, 60, 4, 0);
    HeaderField(h, rest, 12, 64, 8, 0);
    HeaderField(h, rest, 14, 80, 8, 0);
  }

  /** The header cluster, with the header extensions after the header. */
  function HeaderCluster(h: Header, extensions: bytes, clusterSize: nat): bytes
    requires HEADER_LENGTH + |extensions| <= clusterSize
  {
    Pack(h.Fields()) + (Zeros(8) + extensions + Zeros(clusterSize - HEADER_LENGTH - |extensions|))
  }

  lemma {:induction false} HeaderClusterReads(h: Header, extensions: bytes, clusterSize: nat, rest: bytes)
    requires h.Fits() && h.Supported() && HEADER_LENGTH + |extensions| <= clusterSize
    ensures |HeaderCluster(h, extensions, clusterSize)| == clusterSize
    ensures ReadHeader(HeaderCluster(h, extensions, clusterSize) + rest) == Some(h)
  {
    var after := Zeros(8) + extensions + Zeros(clusterSize - HEADER_LENGTH - |extensions|);
    HeaderRoundTrip(h, after);
    HeaderRoundTrip(h, after + rest);
    ConcatAssociates(Pack(h.Fields()), after, rest);
  }
}
