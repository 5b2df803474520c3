/** Which clusters the image will have: the two bitmaps and the two counters. */
module Qcow2Allocation {
  import opened Bytes
  import opened Qcow2Math
  import opened Qcow2Bitmap
  import opened Qcow2Format
  import opened Qcow2Writer

  lemma {:induction false} CountSet(bits: seq<bool>, i: nat)
    requires i < |bits|
    ensures Count(bits[i := true]) == Count(bits) + if bits[i] then 0 else 1
  {
    RankSet(bits, i, |bits|);
  }

  /** The sizes that a disk of `size` bytes needs. */
  datatype Sizes = Sizes(g: Geometry, clusters: nat, l1Entries: nat, l1Tables: nat) {
    ghost predicate Valid() {
      g.Valid() && l1Entries == CeilDiv(clusters, g.Entries()) && l1Tables == CeilDiv(l1Entries, g.Entries())
    }

    function L1Bits(): nat {
      Offset(l1Tables, g.Entries())
    }

    function L2Bits(): nat {
      Offset(l1Entries, g.Entries())
    }

    function PlanOf(diskSize: nat, l1: seq<bool>, l2: seq<bool>, claimed: nat, external: bool): Plan {
      Plan(g, diskSize, clusters, l1, l2, l1Entries, l1Tables, claimed, 0, 0, external)
    }
  }

  /** The bitmaps agree: no L2 entry is set without the L1 entry of its table. */
  ghost predicate Agree(s: Sizes, l1: seq<bool>, l2: seq<bool>) {
    s.PlanOf(0, l1, l2, 0, false).Mapped()
  }

  lemma {:induction false} AgreeMapped(s: Sizes, l1: seq<bool>, l2: seq<bool>, diskSize: nat, claimed: nat, external: bool)
    requires Agree(s, l1, l2)
    ensures s.PlanOf(diskSize, l1, l2, claimed, external).Mapped()
  {
    var p, q := s.PlanOf(0, l1, l2, 0, false), s.PlanOf(diskSize, l1, l2, claimed, external);
    forall j: int ensures q.MappedAt(j) {
      assert p.MappedAt(j);
    }
  }

  /** The L1 entry of a cluster in range is in range. */
  lemma {:induction false} TableInRange(s: Sizes, idx: nat)
    requires s.Valid() && idx < s.clusters
    ensures Quotient(idx, s.g.Entries()) < s.l1Entries <= s.L1Bits() && s.clusters <= s.L2Bits()
  {
    var e := s.g.Entries();
    QuotientIs(idx, e);
    BelowCeil(idx, s.clusters, e);
    RangesHold(s);
  }

  lemma {:induction false} RangesHold(s: Sizes)
    requires s.Valid()
    ensures s.l1Entries <= s.L1Bits() && s.clusters <= s.L2Bits()
  {
    var e := s.g.Entries();
    OffsetIsProduct(s.l1Entries, e);
    OffsetIsProduct(s.l1Tables, e);
    CeilDivBounds(s.clusters, e);
    CeilDivBounds(s.l1Entries, e);
  }

  /** Setting both bits keeps the bitmaps in agreement. */
  lemma {:induction false} AgreeSet(s: Sizes, l1: seq<bool>, l2: seq<bool>, idx: nat)
    requires s.Valid() && Agree(s, l1, l2) && idx < s.clusters
    ensures Quotient(idx, s.g.Entries()) < |l1| && idx < |l2|
    ensures Agree(s, l1[Quotient(idx, s.g.Entries()) := true], l2[idx := true])
  {
    TableInRange(s, idx);
    var t := Quotient(idx, s.g.Entries());
    var p, q := s.PlanOf(0, l1, l2, 0, false), s.PlanOf(0, l1[t := true], l2[idx := true], 0, false);
    forall j: int ensures q.MappedAt(j) {
      assert p.MappedAt(j);
    }
  }

  /** The bitmaps and the counters while clusters are being allocated. */
  class Allocation {
    const s: Sizes
    const l1: Bitmap
    const l2: Bitmap
    var tables: nat
    var data: nat

    ghost predicate Valid()
      reads this, l1, l1.bytes, l2, l2.bytes
    {
      && s.Valid() && l1.Valid() && l2.Valid() && l1 != l2 && l1.bytes != l2.bytes
      && Agree(s, l1.bits, l2.bits)
      && tables == Count(l1.bits)
    }

    constructor (s: Sizes)
      requires s.Valid()
      ensures this.s == s && Valid() && fresh(l1) && fresh(l1.bytes) && fresh(l2) && fresh(l2.bytes)
      ensures data == 0 && Count(l2.bits) == 0
      ensures forall j :: 0 <= j < |l2.bits| ==> !l2.bits[j]
    {
      this.s := s;
      var n := ByteLength(s, s.l1Tables);
      var m := ByteLength(s, s.l1Entries);
      l1 := new Bitmap(n);
      l2 := new Bitmap(m);
      tables, data := 0, 0;
      new;
      RankClear(l1.bits, 0, |l1.bits|);
      RankClear(l2.bits, 0, |l2.bits|);
      NothingAgrees(s, l1.bits, l2.bits);
    }

    /** `allocate_cluster` */
    method Allocate(idx: nat)
      requires Valid() && idx < s.clusters
      modifies this, l1, l1.bytes, l2, l2.bytes
      ensures Valid() && data == old(data) + 1
      ensures idx < |old(l2.bits)| && l2.bits == old(l2.bits)[idx := true]
    {
      AgreeSet(s, l1.bits, l2.bits, idx);
      l2.Set(idx);
      data := data + 1;
      var t := Quotient(idx, s.g.Entries());
      CountSet(l1.bits, t);
      var isSet := l1.IsSet(t);
      if !isSet {
        l1.Set(t);
        tables := tables + 1;
      } else {
        assert l1.bits[t := true] == l1.bits;
      }
    }

    /** `check_cluster_allocate`: the padded cluster is allocated if it differs. */
    method CheckAllocate(idx: nat, cluster: bytes, compared: bytes)
      requires Valid() && idx < s.clusters && |cluster| <= s.g.ClusterSize()
      modifies this, l1, l1.bytes, l2, l2.bytes
      ensures Valid() && idx < |old(l2.bits)|
      ensures if Pad(cluster, s.g.ClusterSize()) != compared
              then l2.bits == old(l2.bits)[idx := true] && data == old(data) + 1
              else l2.bits == old(l2.bits) && data == old(data)
    {
      TableInRange(s, idx);
      var padded := cluster;
      if |cluster| < s.g.ClusterSize() {
        padded := cluster + Zeros(s.g.ClusterSize() - |cluster|);
      }
      assert padded == Pad(cluster, s.g.ClusterSize());
      if padded != compared {
        Allocate(idx);
      }
    }
  }

  method ByteLength(s: Sizes, n: nat) returns (length: nat)
    requires s.Valid()
    ensures 8 * length == Offset(n, s.g.Entries())
  {
    EntriesOfBytes(s.g);
    EighthOf(n, s.g.Entries());
    length := n * s.g.Entries() / 8;
  }

  lemma {:induction false} EighthOf(n: nat, e: nat)
    requires e % 8 == 0
    ensures 8 * (n * e / 8) == Offset(n, e)
  {
    OffsetIsProduct(n, e);
    var m := e / 8;
    assert e == 8 * m;
    EightTimes(n, m);
  }

  lemma {:induction false} EightTimes(n: nat, m: nat)
    ensures n * (8 * m) / 8 * 8 == n * (8 * m)
  {
    var k := n * m;
    assert n * (8 * m) == 8 * k;
  }

  lemma {:induction false} EntriesOfBytes(g: Geometry)
    requires g.Valid()
    ensures g.Entries() % 8 == 0
  {
    var k := Pow2(g.clusterBits - 6);
    Eighteen();
    Pow2Add(3, g.clusterBits - 6);
    assert g.Entries() == 8 * k;
  }

  lemma {:induction false} NothingAgrees(s: Sizes, l1: seq<bool>, l2: seq<bool>)
    requires s.Valid() && |l1| == s.L1Bits() && |l2| == s.L2Bits()
    requires (forall j :: 0 <= j < |l1| ==> !l1[j]) && (forall j :: 0 <= j < |l2| ==> !l2[j])
    ensures Agree(s, l1, l2)
  {
    RangesHold(s);
  }
}
