/** From an input file to a qcow2 image, and what a reader gets back from it. */
module Qcow2Convert {
  import opened Wrappers
  import opened Bytes
  import opened Qcow2Math
  import opened Qcow2Format
  import opened Qcow2Writer
  import opened Qcow2Header
  import opened Qcow2Image
  import opened Qcow2Reader
  import opened Qcow2Allocation
  import opened Qcow2Interval
  import opened Qcow2Modes
  import opened Qcow2Differences

  /** A virtual size and the clusters that have data, found by other means than reading. */
  datatype Listing = Listing(size: nat, clusters: seq<Range>)

  /** What the command line asks for. */
  datatype Job = Job(
    g: Geometry, external: bool, raw: bool, extensions: bytes,
    diff: Option<bytes>, listed: Option<Listing>, diffListed: Option<Listing>) {

    function DiskSize(input: bytes): nat {
      if listed.Some? then listed.value.size else AlignUp(|input|, 512)
    }

    function Clusters(input: bytes): nat {
      CeilDiv(DiskSize(input), g.ClusterSize())
    }

    function LastDiff(): nat {
      match diff
      case None => 0
      case Some(d) =>
        CeilDiv(if listed.Some? && diffListed.Some? then diffListed.value.size else |d|, g.ClusterSize())
    }

    /**
     Raw data is external; an original is no longer than the input; listed clusters are where they
     can be, each once.
     */
    ghost predicate Valid(input: bytes) {
      && g.Valid() && (raw ==> external) && DiskSize(input) <= SIZE_LIMIT
      && (!raw ==> ValidLists(input))
    }

    ghost predicate ValidLists(input: bytes) {
      && LastDiff() <= Clusters(input)
      && (listed.Some? ==> Disjoint(listed.value.clusters) && InRange(listed.value.clusters, Clusters(input)))
      && (listed.Some? && diff.Some? && diffListed.Some? ==>
            && Disjoint(diffListed.value.clusters) && InRange(diffListed.value.clusters, LastDiff()))
    }

    /** The image is refused: too large an L1 table, no list for the original, or a header that overflows. */
    predicate Refused(input: bytes) {
      || CeilDiv(Clusters(input), g.Entries()) * 8 > 32 * 1024 * 1024
      || (!raw && listed.Some? && diff.Some? && diffListed.None?)
      || HEADER_LENGTH + |extensions| > g.ClusterSize()
    }

    /** The lists and images of a comparison of lists. */
    function Lists(input: bytes): Pair
      requires listed.Some? && diff.Some? && diffListed.Some?
    {
      Pair(LastDiff(), listed.value.clusters, diffListed.value.clusters, Changed(input, diff.value, g.ClusterSize()))
    }

    /** Which clusters are allocated, and how many were counted, in each mode. */
    ghost predicate Allocates(input: bytes, l2: seq<bool>, claimed: nat) {
      var cs, n := g.ClusterSize(), Clusters(input);
      if raw then SetBelow(l2, n)
      else match listed
        case None =>
          MarkedTo(l2, n, Unlike(input, if diff.Some? then diff.value else [], LastDiff(), cs)) && claimed == Count(l2)
        case Some(l) =>
          if diff.None? then claimed == Count(l2) && forall j :: 0 <= j < |l2| ==> (l2[j] <==> Covers(l.clusters, j))
          else diffListed.Some? ==>
            && MarkedEnough(l2, Lists(input))
            && (Ascending(l.clusters) ==> MarkedAll(l2, Lists(input)) && CountsDoubled(l2, claimed, Lists(input)))
    }
  }

  /** The size of a sector divides that of a cluster, so rounding to it first changes nothing. */
  lemma {:induction false} SectorsFirst(n: nat, cs: nat)
    requires cs > 0 && cs % 512 == 0
    ensures CeilDiv(AlignUp(n, 512), cs) == CeilDiv(n, cs)
  {
    var r, m := CeilDiv(n, cs), AlignUp(n, 512);
    CeilDivBounds(n, cs);
    CeilDivBounds(n, 512);
    var k := cs / 512;
    assert cs == 512 * k;
    assert r * cs == 512 * (r * k);
    assert r * k >= CeilDiv(n, 512) by { CeilDivLeast(n, 512, r * k); }
    CeilDivIs(m, cs, r);
  }

  /** Chooses the clusters; the branches are those of the command line's modes. */
  method Choose(a: Allocation, job: Job, input: bytes)
    requires job.Valid(input) && !job.Refused(input) && a.Valid() && a.s.g == job.g && a.s.clusters == job.Clusters(input)
    requires a.data == 0 && AllClear(a.l2.bits) && Count(a.l2.bits) == 0
    modifies a, a.l1, a.l1.bytes, a.l2, a.l2.bytes
    ensures a.Valid() && job.Allocates(input, a.l2.bits, a.data)
    ensures (job.external || Count(a.l2.bits) <= a.data) && a.data <= 2 * |a.l2.bits|
  {
    var cs := job.g.ClusterSize();
    if job.raw {
      MarkAll(a);
    } else if job.listed.Some? {
      if job.diff.Some? {
        MarkDifferences(a, job.listed.value.clusters, job.diffListed.value.clusters, input, job.diff.value, job.LastDiff(), cs);
      } else {
        MarkNonzero(a, job.listed.value.clusters);
      }
    } else {
      GeometryFacts(job.g);
      SectorsFirst(|input|, cs);
      var last := CeilDiv(|input|, cs);
      if job.diff.Some? {
        ScanDiff(a, input, job.diff.value, last, cs);
      } else {
        ScanInput(a, input, last, cs);
      }
    }
  }

  /** An image that was made for a job. */
  ghost predicate Converted(job: Job, input: bytes, out: seq<bytes>, p: Plan) {
    && Emitted(out, p, input, job.raw, job.extensions)
    && p.g == job.g && p.external == job.external && p.diskSize == job.DiskSize(input)
    && p.clusters == job.Clusters(input) && p.clusters <= |p.l2| && Sized(p)
    && job.Allocates(input, p.l2, p.claimed)
  }

  lemma {:induction false} CeilDivWithin(n: nat, d: nat, k: nat)
    requires d > 0
    ensures CeilDiv(n, d) <= k <==> n <= k * d
  {
    CeilDivBounds(n, d);
    if CeilDiv(n, d) <= k {
      MulMonotone(CeilDiv(n, d), k, d);
    } else {
      MulMonotone(k, CeilDiv(n, d) - 1, d);
    }
  }

  /**
   A job is accepted exactly if 2^22 L1 entries, which take 32 MiB, reach the end of the disk, the
   lists are both there or not needed, and the header has room for its extensions.
   */
  lemma {:induction false} AcceptedIff(job: Job, input: bytes)
    requires job.g.Valid()
    ensures !job.Refused(input) <==>
              && job.DiskSize(input) <= 0x40_0000 * (job.g.ClusterSize() / 8) * job.g.ClusterSize()
              && (job.raw || job.listed.None? || job.diff.None? || job.diffListed.Some?)
              && 112 + |job.extensions| <= job.g.ClusterSize()
  {
    GeometryFacts(job.g);
    QuotientsExact(job.g);
    CeilDivWithin(job.Clusters(input), job.g.Entries(), 0x40_0000);
    CeilDivWithin(job.DiskSize(input), job.g.ClusterSize(), 0x40_0000 * job.g.Entries());
  }

  /** `write_qcow2_content` */
  method Convert(job: Job, input: bytes) returns (image: Option<seq<bytes>>, ghost p: Plan)
    requires job.Valid(input)
    ensures image.None? <==> job.Refused(input)
    ensures image.Some? <==>
              && job.DiskSize(input) <= 0x40_0000 * (job.g.ClusterSize() / 8) * job.g.ClusterSize()
              && (job.raw || job.listed.None? || job.diff.None? || job.diffListed.Some?)
              && 112 + |job.extensions| <= job.g.ClusterSize()
    ensures image.Some? ==> Converted(job, input, image.value, p)
  {
    var g, diskSize, clusters := job.g, job.DiskSize(input), job.Clusters(input);
    p := Plan(g, diskSize, 0, [], [], 0, 0, 0, 0, 0, false);
    AcceptedIff(job, input);
    if job.Refused(input) {
      return None, p;
    }
    var l1Entries := CeilDiv(clusters, g.Entries());
    var s := Sizes(g, clusters, l1Entries, CeilDiv(l1Entries, g.Entries()));
    var a := new Allocation(s);
    Choose(a, job, input);
    p := s.PlanOf(diskSize, a.l1.bits, a.l2.bits, a.data, job.external);
    AgreeMapped(s, a.l1.bits, a.l2.bits, diskSize, a.data, job.external);
    var out;
    out, p := WriteImage(g, diskSize, clusters, l1Entries, s.l1Tables, a.tables, a.data, a.l1, a.l2, input,
                         job.external, job.raw, job.extensions, p);
    image := Some(out);
  }

  // ---------------------------------------------------------------------------------------
  // What comes back. `h` is what the reader finds in the file's own header.

  lemma {:induction false} HeaderComesBack(job: Job, input: bytes, out: seq<bytes>, p: Plan)
    requires Converted(job, input, out, p)
    ensures ReadHeader(Flatten(out)) == Some(HeaderOf(p, job.raw)) && Readable(HeaderOf(p, job.raw))
    ensures HeaderOf(p, job.raw).diskSize == job.DiskSize(input)
  {
    HeaderFound(out, p, job.raw, job.extensions);
  }

  /** The disk is as large as the list says, or as the input in whole sectors. */
  ghost predicate IsDiskSize(job: Job, input: bytes, size: nat) {
    match job.listed
    case Some(l) => size == l.size
    case None => |input| <= size < |input| + 512 && size % 512 == 0
  }

  /** An L1 table of n entries reaches the end of the disk, and one of n - 1 does not. */
  ghost predicate JustReaches(n: nat, size: nat, cs: nat) {
    size <= n * (cs / 8) * cs && (n > 0 ==> (n - 1) * (cs / 8) * cs < size)
  }

  lemma {:induction false} CeilDivTwice(size: nat, cs: nat, e: nat)
    requires cs > 0 && e > 0
    ensures var n := CeilDiv(CeilDiv(size, cs), e);
            size <= (n * e) * cs && (n > 0 ==> ((n - 1) * e) * cs < size)
  {
    var n := CeilDiv(CeilDiv(size, cs), e);
    CeilDivWithin(CeilDiv(size, cs), e, n);
    CeilDivWithin(size, cs, n * e);
    if n > 0 {
      CeilDivWithin(CeilDiv(size, cs), e, n - 1);
      CeilDivWithin(size, cs, (n - 1) * e);
    }
  }

  lemma {:induction false} EntriesReach(size: nat, g: Geometry)
    requires g.Valid()
    ensures JustReaches(CeilDiv(CeilDiv(size, g.ClusterSize()), g.Entries()), size, g.ClusterSize())
  {
    EightEntries(g);
    QuotientsExact(g);
    CeilDivTwice(size, g.ClusterSize(), g.Entries());
  }

  /** The numbers that a reader takes from a header, at the offsets of the format document. */
  lemma {:induction false} HeaderNumbers(file: bytes, h: Header)
    requires Some(h) == ReadHeader(file)
    ensures UintAt(file, 0, 4) == 0x5146_49fb && UintAt(file, 4, 4) == 3 && UintAt(file, 8, 8) == 0
    ensures UintAt(file, 20, 4) == h.clusterBits && UintAt(file, 24, 8) == h.diskSize && UintAt(file, 32, 4) == 0
    ensures UintAt(file, 36, 4) == h.l1Entries && UintAt(file, 40, 8) == h.l1Offset && UintAt(file, 48, 8) == h.tableOffset
    ensures UintAt(file, 72, 8) == h.incompatible && UintAt(file, 88, 8) == h.autoclear
    ensures UintAt(file, 96, 4) == h.refcountOrder && UintAt(file, 100, 4) == 112
  {
  }

  lemma {:induction false} NoTables(cs: nat, e: nat)
    requires cs > 0 && e > 0
    ensures CeilDiv(CeilDiv(CeilDiv(0, cs), e), e) == 0
  {
    CeilDivAtMost(0, cs);
    CeilDivAtMost(0, e);
  }

  lemma {:induction false} PlanReaches(p: Plan)
    requires p.g.Valid() && Sized(p)
    ensures JustReaches(p.l1Entries, p.diskSize, p.g.ClusterSize())
    ensures p.diskSize == 0 ==> p.l1Tables == 0
    ensures Offset(1, p.g.ClusterSize()) == p.g.ClusterSize()
  {
    EntriesReach(p.diskSize, p.g);
    GeometryFacts(p.g);
    NoTables(p.g.ClusterSize(), p.g.Entries());
  }

  /** What stands in the header, number by number, for the job alone. */
  lemma {:induction false} HeaderHolds(job: Job, input: bytes, out: seq<bytes>, p: Plan)
    requires Converted(job, input, out, p)
    ensures var file := Flatten(out);
            && UintAt(file, 0, 4) == 0x5146_49fb && UintAt(file, 4, 4) == 3
            && UintAt(file, 8, 8) == 0 && UintAt(file, 20, 4) == job.g.clusterBits
            && IsDiskSize(job, input, UintAt(file, 24, 8)) && UintAt(file, 32, 4) == 0
            && JustReaches(UintAt(file, 36, 4), UintAt(file, 24, 8), job.g.ClusterSize())
            && UintAt(file, 48, 8) == job.g.ClusterSize() && (UintAt(file, 24, 8) == 0 ==> UintAt(file, 40, 8) == 0)
            && UintAt(file, 72, 8) == (if job.external then 4 else 0)
            && UintAt(file, 88, 8) == (if job.raw then 2 else 0)
            && UintAt(file, 96, 4) == job.g.refcountOrder && UintAt(file, 100, 4) == 112
  {
    HeaderFound(out, p, job.raw, job.extensions);
    HeaderNumbers(Flatten(out), HeaderOf(p, job.raw));
    PlanReaches(p);
  }

  /** No snapshots and no compatible features; after the header come the extensions, and then zeros up to the end of the cluster. */
  lemma {:induction false} ExtensionsStand(job: Job, input: bytes, out: seq<bytes>, p: Plan)
    requires Converted(job, input, out, p)
    ensures var file, cs, end := Flatten(out), job.g.ClusterSize(), 112 + |job.extensions|;
            && UintAt(file, 60, 4) == 0 && UintAt(file, 64, 8) == 0 && UintAt(file, 80, 8) == 0
            && end <= cs <= |file| && file[112..end] == job.extensions
            && forall k :: 104 <= k < 112 || end <= k < cs ==> file[k] == 0
  {
    HeaderAround(out, p, job.raw, job.extensions);
    var cs, n := job.g.ClusterSize(), |job.extensions|;
    SectionsStand(Flatten(out), Zeros(8), job.extensions, Zeros(cs - 112 - n), 104, cs);
  }

  lemma {:induction false} SectionsStand(file: bytes, a: bytes, b: bytes, c: bytes, from: nat, to: nat)
    requires from <= to <= |file| && file[from..to] == a + b + c
    ensures file[from + |a|..from + |a| + |b|] == b
    ensures forall k :: from <= k < from + |a| ==> file[k] == a[k - from]
    ensures forall k :: from + |a| + |b| <= k < to ==> file[k] == c[k - (from + |a| + |b|)]
  {
    var s := file[from..to];
    assert |s| == |a| + |b| + |c|;
    assert forall k :: from <= k < to ==> file[k] == s[k - from];
    assert forall k :: 0 <= k < |b| ==> s[|a| + k] == b[k];
  }

  /** Without an original, every cluster reads as the input's, padded with zeros. */
  lemma {:induction false} InputComesBack(job: Job, input: bytes, out: seq<bytes>, p: Plan, data: bytes, guest: nat, h: Header)
    requires Converted(job, input, out, p) && (job.raw || job.diff.None?)
    requires (job.external ==> data == input) && guest < job.Clusters(input)
    requires !job.raw && job.listed.Some? ==> Truthful(job.listed.value.clusters, input, job.g.ClusterSize())
    requires Some(h) == ReadHeader(Flatten(out))
    ensures Readable(h) && ReadGuest(Flatten(out), data, h, guest) == Some(PaddedCluster(input, guest, job.g.ClusterSize()))
  {
    HeaderComesBack(job, input, out, p);
    GuestReads(out, p, input, job.raw, job.extensions, data, guest);
    if !job.raw && job.listed.None? {
      assert MarkedAt(p.l2, p.clusters, Unlike(input, [], 0, p.g.ClusterSize()), guest);
    }
  }

  /** A byte of a file, 0 after its end. */
  function ByteAt(file: bytes, x: nat): byte {
    if x < |file| then file[x] else 0
  }

  lemma {:induction false} PaddedByte(input: bytes, k: nat, cs: nat, i: nat)
    requires i < cs
    ensures PaddedCluster(input, k, cs)[i] == ByteAt(input, Offset(k, cs) + i)
  {
  }

  lemma {:induction false} ByteOfCluster(input: bytes, x: nat, size: nat, cs: nat)
    requires cs > 0 && x < size
    ensures Quotient(x, cs) < CeilDiv(size, cs)
    ensures PaddedCluster(input, Quotient(x, cs), cs)[Remainder(x, cs)] == ByteAt(input, x)
  {
    BlockOf(x, cs);
    PaddedByte(input, Quotient(x, cs), cs, Remainder(x, cs));
    QuotientIs(x, cs);
    BelowCeil(x, size, cs);
  }

  /** Byte for byte: on all of the disk a guest reads the input, and zeros after its end. */
  lemma {:induction false} BytesComeBack(job: Job, input: bytes, out: seq<bytes>, p: Plan, data: bytes, x: nat, h: Header)
    requires Converted(job, input, out, p) && (job.raw || job.diff.None?) && (job.external ==> data == input)
    requires !job.raw && job.listed.Some? ==> Truthful(job.listed.value.clusters, input, job.g.ClusterSize())
    requires Some(h) == ReadHeader(Flatten(out)) && x < h.diskSize
    ensures Readable(h) && GuestByte(Flatten(out), data, h, x) == Some(if x < |input| then input[x] else 0)
  {
    var cs := job.g.ClusterSize();
    HeaderComesBack(job, input, out, p);
    ByteOfCluster(input, x, h.diskSize, cs);
    InputComesBack(job, input, out, p, data, Quotient(x, cs), h);
  }

  lemma {:induction false} ZeroBytes(input: bytes, k: nat, cs: nat)
    ensures PaddedCluster(input, k, cs) == Zeros(cs) <==>
            forall x :: Offset(k, cs) <= x < Offset(k, cs) + cs && x < |input| ==> input[x] == 0
  {
    var a, from := PaddedCluster(input, k, cs), Offset(k, cs);
    forall i | 0 <= i < cs ensures a[i] == ByteAt(input, from + i) {
      PaddedByte(input, k, cs, i);
    }
    if a == Zeros(cs) {
      forall x | from <= x < from + cs && x < |input| ensures input[x] == 0 {
        assert a[x - from] == 0;
      }
    }
  }

  /** Without an original or a list, exactly the clusters that are all zeros have no entry. */
  lemma {:induction false} ZerosStayUnset(job: Job, input: bytes, out: seq<bytes>, p: Plan, guest: nat, h: Header)
    requires Converted(job, input, out, p) && !job.raw && job.diff.None? && job.listed.None? && guest < job.Clusters(input)
    requires Some(h) == ReadHeader(Flatten(out))
    ensures Readable(h)
    ensures var from := Offset(guest, job.g.ClusterSize());
            LookUp(Flatten(out), h, guest) == Unallocated <==>
              forall x :: from <= x < from + job.g.ClusterSize() && x < |input| ==> input[x] == 0
  {
    HeaderComesBack(job, input, out, p);
    GuestFound(out, p, input, job.raw, job.extensions, guest);
    assert MarkedAt(p.l2, p.clusters, Unlike(input, [], 0, p.g.ClusterSize()), guest);
    ZeroBytes(input, guest, p.g.ClusterSize());
  }

  /** What a guest sees if the original is below the image. */
  function ReadOver(file: bytes, data: bytes, h: Header, original: bytes, guest: nat): Option<bytes>
    requires Readable(h)
  {
    if LookUp(file, h, guest) == Unallocated then Some(PaddedCluster(original, guest, Pow2(h.clusterBits)))
    else ReadGuest(file, data, h, guest)
  }

  /** With an original, every cluster reads as the input's over the original. */
  lemma {:induction false} InputComesBackOver(job: Job, input: bytes, out: seq<bytes>, p: Plan, data: bytes, guest: nat, h: Header)
    requires Converted(job, input, out, p) && !job.raw && job.diff.Some? && !job.Refused(input)
    requires (job.external ==> data == input) && guest < job.Clusters(input)
    requires job.listed.Some? && job.diffListed.Some? ==>
               && Truthful(job.listed.value.clusters, input, job.g.ClusterSize())
               && Truthful(job.diffListed.value.clusters, job.diff.value, job.g.ClusterSize())
    requires Some(h) == ReadHeader(Flatten(out))
    ensures Readable(h)
    ensures ReadOver(Flatten(out), data, h, job.diff.value, guest) == Some(PaddedCluster(input, guest, job.g.ClusterSize()))
  {
    HeaderComesBack(job, input, out, p);
    GuestFound(out, p, input, job.raw, job.extensions, guest);
    GuestReads(out, p, input, job.raw, job.extensions, data, guest);
    if job.listed.None? {
      OverlayIsInput(p.l2, input, job.diff.value, p.g.ClusterSize(), p.clusters, guest);
    } else {
      ListedOverlayIsInput(p.l2, job.Lists(input), input, job.diff.value, p.g.ClusterSize(), guest);
    }
  }

  /** What a guest reads at byte `x` of its disk if the original is below the image. */
  function ByteOver(file: bytes, data: bytes, h: Header, original: bytes, x: nat): Option<byte>
    requires Readable(h)
  {
    if LookUp(file, h, Quotient(x, Pow2(h.clusterBits))) != Unallocated then GuestByte(file, data, h, x)
    else Some(if x < |original| then original[x] else 0)
  }

  /** Byte for byte: over the original too a guest reads the input, and zeros after its end. */
  lemma {:induction false} BytesComeBackOver(job: Job, input: bytes, out: seq<bytes>, p: Plan, data: bytes, x: nat, h: Header)
    requires Converted(job, input, out, p) && !job.raw && job.diff.Some? && !job.Refused(input)
    requires (job.external ==> data == input)
    requires job.listed.Some? && job.diffListed.Some? ==>
               && Truthful(job.listed.value.clusters, input, job.g.ClusterSize())
               && Truthful(job.diffListed.value.clusters, job.diff.value, job.g.ClusterSize())
    requires Some(h) == ReadHeader(Flatten(out)) && x < h.diskSize
    ensures Readable(h)
    ensures ByteOver(Flatten(out), data, h, job.diff.value, x) == Some(if x < |input| then input[x] else 0)
  {
    var cs := job.g.ClusterSize();
    HeaderComesBack(job, input, out, p);
    ByteOfCluster(input, x, h.diskSize, cs);
    ByteOfCluster(job.diff.value, x, h.diskSize, cs);
    InputComesBackOver(job, input, out, p, data, Quotient(x, cs), h);
  }

  /** With a list and no original, exactly the clusters in none of its ranges have no entry. */
  lemma {:induction false} ListedAreSet(job: Job, input: bytes, out: seq<bytes>, p: Plan, guest: nat, h: Header)
    requires Converted(job, input, out, p) && !job.raw && job.diff.None? && job.listed.Some? && guest < job.Clusters(input)
    requires Some(h) == ReadHeader(Flatten(out))
    ensures Readable(h)
    ensures LookUp(Flatten(out), h, guest) != Unallocated <==>
            exists r :: r in job.listed.value.clusters && r.lo <= guest <= r.hi
  {
    HeaderComesBack(job, input, out, p);
    GuestFound(out, p, input, job.raw, job.extensions, guest);
  }

  /** The two files read the same on `[from, from + n)`, and the original does not end inside. */
  ghost predicate ReadsSame(input: bytes, original: bytes, from: nat, n: nat) {
    && !(from < |original| < from + n)
    && forall x :: from <= x < from + n ==> ByteAt(input, x) == ByteAt(original, x)
  }

  lemma {:induction false} SameBytes(input: bytes, original: bytes, k: nat, cs: nat)
    requires cs > 0
    ensures PaddedCluster(input, k, cs) == PaddedCluster(original, k, cs) && !(0 < |ReadCluster(original, k, cs)| < cs)
            <==> ReadsSame(input, original, Offset(k, cs), cs)
  {
    var a, b, from := PaddedCluster(input, k, cs), PaddedCluster(original, k, cs), Offset(k, cs);
    forall i | 0 <= i < cs ensures a[i] == ByteAt(input, from + i) && b[i] == ByteAt(original, from + i) {
      PaddedByte(input, k, cs, i);
      PaddedByte(original, k, cs, i);
    }
    if a == b {
      forall x | from <= x < from + cs ensures ByteAt(input, x) == ByteAt(original, x) {
        assert a[x - from] == b[x - from];
      }
    }
    if ReadsSame(input, original, from, cs) {
      assert forall i :: 0 <= i < cs ==> a[i] == b[i];
    }
  }

  /** With an original and no lists, exactly the clusters that read the same in both, byte for byte, have no entry. */
  lemma {:induction false} SameStayUnset(job: Job, input: bytes, out: seq<bytes>, p: Plan, guest: nat, h: Header)
    requires Converted(job, input, out, p) && !job.raw && job.diff.Some? && job.listed.None? && guest < job.Clusters(input)
    requires Some(h) == ReadHeader(Flatten(out))
    ensures Readable(h)
    ensures LookUp(Flatten(out), h, guest) == Unallocated <==>
            ReadsSame(input, job.diff.value, Offset(guest, job.g.ClusterSize()), job.g.ClusterSize())
  {
    HeaderComesBack(job, input, out, p);
    GuestFound(out, p, input, job.raw, job.extensions, guest);
    assert MarkedAt(p.l2, p.clusters, Unlike(input, job.diff.value, job.LastDiff(), p.g.ClusterSize()), guest);
    DiffersMeans(input, job.diff.value, p.g.ClusterSize(), guest);
    SameBytes(input, job.diff.value, guest, p.g.ClusterSize());
  }

  /** Where an entry is left unset for a comparison of two ascending lists. */
  ghost predicate UnsetBetween(job: Job, input: bytes, guest: nat)
    requires job.listed.Some? && job.diff.Some? && job.diffListed.Some?
  {
    var cs, list, original := job.g.ClusterSize(), job.listed.value.clusters, job.diffListed.value.clusters;
    if exists r :: r in list && r.lo <= guest <= r.hi then
      && (exists r :: r in original && r.lo <= guest <= r.hi)
      && ReadsSame(input, job.diff.value, Offset(guest, cs), cs) && Offset(guest, cs) < |job.diff.value|
      && !Skipped(list, original, guest)
    else
      !exists r :: r in original && r.lo <= guest <= r.hi
  }

  lemma {:induction false} SameWhole(input: bytes, original: bytes, k: nat, cs: nat)
    requires cs > 0
    ensures PaddedCluster(input, k, cs) == ReadCluster(original, k, cs) <==>
            ReadsSame(input, original, Offset(k, cs), cs) && Offset(k, cs) < |original|
  {
    SameBytes(input, original, k, cs);
    if |ReadCluster(original, k, cs)| == cs {
      assert Pad(ReadCluster(original, k, cs), cs) == ReadCluster(original, k, cs);
    }
  }

  lemma {:induction false} UnsetIsUnmarked(job: Job, input: bytes, guest: nat)
    requires job.g.Valid() && job.listed.Some? && job.diff.Some? && job.diffListed.Some?
    requires InRange(job.diffListed.value.clusters, job.LastDiff())
    ensures UnsetBetween(job, input, guest) <==> !Marked(job.Lists(input), guest)
  {
    var pair := job.Lists(input);
    SameWhole(input, job.diff.value, guest, job.g.ClusterSize());
    CoversMember(pair.list, guest);
    CoversMember(pair.original, guest);
    assert Covers(pair.original, guest) ==> guest < pair.lastDiff;
  }

  /**
   With two lists, the input's in ascending order: of its clusters exactly those have no entry that the
   original's list has too and that read the same, unless the query left them in that list; of the others
   exactly those that the original's list does not have either.
   */
  lemma {:induction false} ComparedStayUnset(job: Job, input: bytes, out: seq<bytes>, p: Plan, guest: nat, h: Header)
    requires Converted(job, input, out, p) && !job.raw && job.diff.Some? && job.listed.Some? && job.diffListed.Some?
    requires guest < job.Clusters(input) && Ascending(job.listed.value.clusters)
    requires InRange(job.diffListed.value.clusters, job.LastDiff())
    requires Some(h) == ReadHeader(Flatten(out))
    ensures Readable(h)
    ensures LookUp(Flatten(out), h, guest) == Unallocated <==> UnsetBetween(job, input, guest)
  {
    HeaderComesBack(job, input, out, p);
    GuestFound(out, p, input, job.raw, job.extensions, guest);
    UnsetIsUnmarked(job, input, guest);
  }

  /** An entry of an image with external data points at the cluster's own place in the data. */
  lemma {:induction false} ExternalInPlace(job: Job, input: bytes, out: seq<bytes>, p: Plan, guest: nat, h: Header)
    requires Converted(job, input, out, p) && job.external && guest < job.Clusters(input)
    requires Some(h) == ReadHeader(Flatten(out))
    ensures Readable(h) && IsExternal(h)
    ensures LookUp(Flatten(out), h, guest) == At(Offset(guest, job.g.ClusterSize())) ||
            (LookUp(Flatten(out), h, guest) == Unallocated && !job.raw)
  {
    HeaderComesBack(job, input, out, p);
    HeaderReadable(p, job.raw);
    GuestFound(out, p, input, job.raw, job.extensions, guest);
  }

  /** Two lists are compared and the data goes into the image: the one case where the count can be wrong. */
  predicate ComparesLists(job: Job) {
    !job.external && job.listed.Some? && job.diff.Some? && job.diffListed.Some?
  }

  /**
   The file has as many clusters as were planned, and every one of them and no other has the
   refcount 1, except if two lists are compared and a cluster is counted twice: then the refcounts
   go beyond the end of the file.
   */
  lemma {:induction false} CountsComeBack(job: Job, input: bytes, out: seq<bytes>, p: Plan, h: Header)
    requires Converted(job, input, out, p) && !job.Refused(input) && (job.raw ==> job.external)
    requires ComparesLists(job) ==> Ascending(job.listed.value.clusters)
    requires Some(h) == ReadHeader(Flatten(out))
    ensures Readable(h) && |Flatten(out)| == Offset(|out|, job.g.ClusterSize())
    ensures |out| <= p.Total() && forall c: nat :: RefcountOf(Flatten(out), h, c) == if c < p.Total() then 1 else 0
    ensures |out| == p.Total() <==>
            (ComparesLists(job) ==> forall j :: 0 <= j < |p.l2| ==> !Doubled(job.Lists(input), j))
  {
    HeaderComesBack(job, input, out, p);
    ClusterAt(out, job.g.ClusterSize(), 0);
    forall c: nat ensures RefcountOf(Flatten(out), h, c) == if c < p.Total() then 1 else 0 {
      RefcountFound(out, p, input, job.raw, job.extensions, c);
    }
    if ComparesLists(job) {
      CountedOnceIff(p.l2, p.claimed, job.Lists(input));
    }
  }

  /** Such a cluster: 1, inside the original's range 0 to 2, with other data than the original has. */
  lemma {:induction false} DoubledExample()
    ensures var input, diff := Zeros(512) + [1], Zeros(1536);
            && Doubled(Pair(3, [Range(1, 1)], [Range(0, 2)], Changed(input, diff, 512)), 1)
            && Truthful([Range(1, 1)], input, 512)
  {
    var input, diff, list := Zeros(512) + [1], Zeros(1536), [Range(1, 1)];
    assert Offset(1, 512) == 512;
    CoversOne(Range(0, 2), 1);
    CoversOne(Range(1, 1), 1);
    CoversOne(Range(1, 1), 0);
    assert PaddedCluster(input, 1, 512)[0] == 1;
    assert ReadCluster(diff, 1, 512)[0] == 0;
    forall j: nat ensures Covers(list, j) || PaddedCluster(input, j, 512) == Zeros(512) {
      if j == 0 {
        assert ReadCluster(input, 0, 512) == Zeros(512);
      } else if j >= 2 {
        OffsetGrows(2, j, 512);
        assert Offset(2, 512) == 1024;
        assert ReadCluster(input, j, 512) == [];
      } else {
        CoversOne(Range(1, 1), j);
      }
    }
  }

  /** A job with that pair of lists. */
  function DoublingJob(): Job {
    Job(Geometry(9, 4), false, false, [], Some(Zeros(1536)), Some(Listing(1536, [Range(1, 1)])), Some(Listing(1536, [Range(0, 2)])))
  }

  /** It is accepted, and the cluster after the end of the file it makes has the refcount 1. */
  lemma {:induction false} RefcountsPassEnd(out: seq<bytes>, p: Plan, h: Header)
    ensures var input := Zeros(512) + [1];
            && DoublingJob().Valid(input) && !DoublingJob().Refused(input)
            && (Converted(DoublingJob(), input, out, p) && Some(h) == ReadHeader(Flatten(out)) ==>
                  Readable(h) && |Flatten(out)| == Offset(|out|, 512) && RefcountOf(Flatten(out), h, |out|) == 1)
  {
    var job, input := DoublingJob(), Zeros(512) + [1];
    DoublingSizes(input);
    if Converted(job, input, out, p) && Some(h) == ReadHeader(Flatten(out)) {
      DoubledExample();
      CountsComeBack(job, input, out, p, h);
      assert Doubled(job.Lists(input), 1) && 1 < |p.l2|;
    }
  }

  lemma {:induction false} DoublingSizes(input: bytes)
    ensures DoublingJob().g.ClusterSize() == 512 && DoublingJob().LastDiff() == DoublingJob().Clusters(input) == 3
    ensures DoublingJob().Valid(input) && !DoublingJob().Refused(input)
  {
    var job := DoublingJob();
    Eighteen();
    CeilDivIs(1536, 512, 3);
    CeilDivIs(3, 64, 1);
  }
}
