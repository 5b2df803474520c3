/** The single pass that emits the image, one cluster after the other. */
module Qcow2Writer {
  import opened Bytes
  import opened Qcow2Math
  import opened Qcow2Bitmap
  import opened Qcow2Format

  function Zeros(n: nat): (r: bytes)
    ensures |r| == n
  {
    seq(n, _ => 0)
  }

  lemma {:induction false} ZerosRead(w: nat)
    ensures FromBe(Zeros(w)) == 0
  {
    if w > 0 {
      ZerosRead(w - 1);
      assert Zeros(w)[..w - 1] == Zeros(w - 1);
    }
  }

  /** `struct.pack_into` of one big-endian number. */
  method PackBe(a: array<byte>, at: nat, v: nat, n: nat)
    requires at + n <= a.Length
    modifies a
    ensures a[..at] == old(a[..at]) && a[at..at + n] == ToBe(v, n) && a[at + n..] == old(a[at + n..])
  {
    var s := ToBe(v, n);
    forall k | 0 <= k < n {
      a[at + k] := s[k];
    }
  }

  /** Entry `i` of a table cluster of which the first `n` are written and the rest is still blank. */
  ghost predicate FilledAt(c: bytes, n: nat, want: nat -> nat, i: nat) {
    8 * i + 8 <= |c| ==> EntryAt(c, i) == if i < n then want(i) else 0
  }

  ghost predicate Filled(c: bytes, n: nat, want: nat -> nat) {
    forall i: nat :: FilledAt(c, n, want, i)
  }

  lemma {:induction false} BlankEntry(c: bytes, i: nat)
    requires (forall k :: 0 <= k < |c| ==> c[k] == 0) && 8 * i + 8 <= |c|
    ensures EntryAt(c, i) == 0
  {
    assert c[8 * i..8 * i + 8] == Zeros(8);
    ZerosRead(8);
    NumberIs(c, 8 * i, 8);
  }

  lemma {:induction false} FilledNone(c: bytes, want: nat -> nat)
    requires forall k :: 0 <= k < |c| ==> c[k] == 0
    ensures Filled(c, 0, want)
  {
    forall i: nat ensures FilledAt(c, 0, want, i) {
      if 8 * i + 8 <= |c| {
        BlankEntry(c, i);
      }
    }
  }

  /** An entry left blank is an entry 0. */
  lemma {:induction false} FilledSkip(c: bytes, n: nat, m: nat, want: nat -> nat)
    requires Filled(c, n, want) && want(n) == 0 && m == n + 1
    ensures Filled(c, m, want)
  {
    forall i: nat ensures FilledAt(c, m, want, i) {
      assert FilledAt(c, n, want, i);
    }
  }

  /** Writing an entry changes no other. */
  lemma {:induction false} EntryPut(before: bytes, after: bytes, idx: nat, v: nat, i: nat)
    requires |before| == |after| && 8 * idx + 8 <= |after| && 8 * i + 8 <= |after| && v < U64_LIMIT
    requires after[..8 * idx] == before[..8 * idx] && after[8 * idx + 8..] == before[8 * idx + 8..]
    requires after[8 * idx..8 * idx + 8] == ToBe(v, 8)
    ensures EntryAt(after, i) == if i == idx then v else EntryAt(before, i)
  {
    if i == idx {
      Widths();
      FromToBe(v, 8);
      NumberIs(after, 8 * i, 8);
    } else {
      forall p | 8 * i <= p < 8 * i + 8 ensures after[p] == before[p] {
        if i < idx {
          assert after[..8 * idx][p] == before[..8 * idx][p];
        } else {
          var from := 8 * idx + 8;
          assert after[from..][p - from] == before[from..][p - from];
        }
      }
      SameNumber(after, 8 * i, before, 8 * i, 8);
    }
  }

  lemma {:induction false} FilledPut(before: bytes, after: bytes, n: nat, m: nat, want: nat -> nat)
    requires Filled(before, n, want) && want(n) < U64_LIMIT && m == n + 1
    requires |before| == |after| && 8 * n + 8 <= |after|
    requires after[..8 * n] == before[..8 * n] && after[8 * n + 8..] == before[8 * n + 8..]
    requires after[8 * n..8 * n + 8] == ToBe(want(n), 8)
    ensures Filled(after, m, want)
  {
    forall i: nat ensures FilledAt(after, m, want, i) {
      assert FilledAt(before, n, want, i);
      if 8 * i + 8 <= |after| {
        EntryPut(before, after, n, want(n), i);
      }
    }
  }

  /** Writes the next entry of a table. */
  method PutEntry(c: array<byte>, idx: nat, v: nat, ghost want: nat -> nat)
    requires Filled(c[..], idx, want) && v == want(idx) < U64_LIMIT && 8 * idx + 8 <= c.Length
    modifies c
    ensures Filled(c[..], idx + 1, want)
  {
    ghost var before := c[..];
    PackBe(c, idx * 8, v, 8);
    ghost var after := c[..];
    assert after[..8 * idx] == c[..8 * idx] && after[8 * idx..8 * idx + 8] == c[8 * idx..8 * idx + 8];
    assert after[8 * idx + 8..] == c[8 * idx + 8..];
    assert before[..8 * idx] == old(c[..8 * idx]) && before[8 * idx + 8..] == old(c[8 * idx + 8..]);
    FilledPut(before, after, idx, idx + 1, want);
  }

  method ProductOffset(n: nat, clusterSize: nat) returns (offset: nat)
    ensures offset == Offset(n, clusterSize)
  {
    OffsetIsProduct(n, clusterSize);
    offset := n * clusterSize;
  }

  /** The entry for bit `j`: 0 if it is clear, else the running offset, or its own place. */
  method NextEntry(bitmap: Bitmap, j: nat, clusterSize: nat, offset: nat, external: bool,
                   ghost bits: seq<bool>, ghost first: nat)
    returns (entry: nat, next: nat)
    requires bitmap.Valid() && bitmap.bits == bits && j < |bits|
    requires !external ==> offset == Offset(first + Rank(bits, j), clusterSize)
    ensures entry == MapEntry(bits, first, clusterSize, external, j)
    ensures !external ==> next == Offset(first + Rank(bits, j + 1), clusterSize)
  {
    var isSet := bitmap.IsSet(j);
    if !isSet {
      return 0, offset;
    }
    if external {
      var at := ProductOffset(j, clusterSize);
      return at + COPIED, offset;
    }
    return offset + COPIED, offset + clusterSize;
  }

  /** Only a set entry is written; the cluster is blank where it is not. */
  method PutUnlessZero(c: array<byte>, idx: nat, v: nat, ghost want: nat -> nat)
    requires Filled(c[..], idx, want) && v == want(idx) < U64_LIMIT && 8 * idx + 8 <= c.Length
    modifies c
    ensures Filled(c[..], idx + 1, want)
  {
    if v != 0 {
      PutEntry(c, idx, v, want);
    } else {
      FilledSkip(c[..], idx, idx + 1, want);
    }
  }

  /** The entries of the table from `base` on. */
  function MapEntries(bits: seq<bool>, first: nat, clusterSize: nat, external: bool, base: nat): nat -> nat {
    (i: nat) => MapEntry(bits, first, clusterSize, external, base + i)
  }

  /** Fills a blank cluster with the entries of `[base, end)`. */
  method FillMapTable(c: array<byte>, bitmap: Bitmap, base: nat, end: nat, clusterSize: nat, start: nat, external: bool,
                      ghost bits: seq<bool>, ghost first: nat, ghost want: nat -> nat)
    returns (next: nat)
    requires bitmap.Valid() && bitmap.bits == bits && base <= end <= |bits|
    requires c != bitmap.bytes && c.Length == 8 * (end - base)
    requires want == MapEntries(bits, first, clusterSize, external, base) && Filled(c[..], 0, want)
    requires EntriesFit(bits, first, clusterSize, external)
    requires !external ==> start == Offset(first + Rank(bits, base), clusterSize)
    modifies c
    ensures Filled(c[..], end - base, want)
    ensures !external ==> next == Offset(first + Rank(bits, end), clusterSize)
  {
    next := start;
    for j := base to end
      invariant bitmap.Valid() && bitmap.bits == bits && Filled(c[..], j - base, want)
      invariant !external ==> next == Offset(first + Rank(bits, j), clusterSize)
    {
      next := FillEntry(c, bitmap, base, j, clusterSize, next, external, bits, first, want);
    }
  }

  /** The next entry of such a cluster. */
  method FillEntry(c: array<byte>, bitmap: Bitmap, base: nat, j: nat, clusterSize: nat, start: nat, external: bool,
                   ghost bits: seq<bool>, ghost first: nat, ghost want: nat -> nat)
    returns (next: nat)
    requires bitmap.Valid() && bitmap.bits == bits && base <= j < |bits|
    requires c != bitmap.bytes && 8 * (j - base) + 8 <= c.Length
    requires want == MapEntries(bits, first, clusterSize, external, base) && Filled(c[..], j - base, want)
    requires EntriesFit(bits, first, clusterSize, external)
    requires !external ==> start == Offset(first + Rank(bits, j), clusterSize)
    modifies c
    ensures Filled(c[..], j + 1 - base, want)
    ensures !external ==> next == Offset(first + Rank(bits, j + 1), clusterSize)
  {
    var entry;
    entry, next := NextEntry(bitmap, j, clusterSize, start, external, bits, first);
    assert EntryFits(bits, first, clusterSize, external, j);
    assert want(j - base) == entry;
    PutUnlessZero(c, j - base, entry, want);
  }

  /** One cluster of an L1 or L2 table: an entry for every set bit, at a running offset. */
  method MapTable(bitmap: Bitmap, base: nat, entries: nat, clusterSize: nat, start: nat, external: bool,
                  ghost bits: seq<bool>, ghost first: nat)
    returns (cluster: bytes, next: nat)
    requires bitmap.Valid() && bitmap.bits == bits && base + entries <= |bits|
    requires !external ==> start == Offset(first + Rank(bits, base), clusterSize)
    requires EntriesFit(bits, first, clusterSize, external)
    ensures IsMapTable(cluster, bits, first, clusterSize, external, base, entries)
    ensures !external ==> next == Offset(first + Rank(bits, base + entries), clusterSize)
  {
    var c := new byte[8 * entries](_ => 0);
    ghost var want := MapEntries(bits, first, clusterSize, external, base);
    FilledNone(c[..], want);
    next := FillMapTable(c, bitmap, base, base + entries, clusterSize, start, external, bits, first, want);
    cluster := c[..];
    MapTableDone(cluster, bits, first, clusterSize, external, base, entries);
  }

  lemma {:induction false} MapTableDone(c: bytes, bits: seq<bool>, first: nat, clusterSize: nat, external: bool, base: nat, n: nat)
    requires |c| == 8 * n && Filled(c, n, MapEntries(bits, first, clusterSize, external, base))
    ensures IsMapTable(c, bits, first, clusterSize, external, base, n)
  {
    var want := MapEntries(bits, first, clusterSize, external, base);
    forall i | 0 <= i < n ensures EntryAt(c, i) == MapEntry(bits, first, clusterSize, external, base + i) {
      assert FilledAt(c, n, want, i);
    }
  }

  // ---------------------------------------------------------------------------------------
  // Sections. Each is a run of clusters appended to what was written before.

  /** The image so far is the earlier one with `n` clusters of the right size after it. */
  ghost predicate Extends(before: seq<bytes>, out: seq<bytes>, n: nat, clusterSize: nat) {
    && |out| == |before| + n && before <= out
    && forall k :: |before| <= k < |out| ==> |out[k]| == clusterSize
  }

  /** The L1 table: every cluster of it, with an entry for every L2 table there will be. */
  method WriteL1(before: seq<bytes>, l1: Bitmap, tables: nat, entries: nat, clusterSize: nat, l2TableOffset: nat,
                 ghost bits: seq<bool>, ghost first: nat)
    returns (out: seq<bytes>)
    requires l1.Valid() && l1.bits == bits && |bits| == Offset(tables, entries) && clusterSize == 8 * entries
    requires l2TableOffset == Offset(first, clusterSize) && EntriesFit(bits, first, clusterSize, false)
    ensures Extends(before, out, tables, clusterSize)
    ensures forall k :: |before| <= k < |out| ==>
              IsMapTable(out[k], bits, first, clusterSize, false, Offset(k - |before|, entries), entries)
  {
    out := before;
    var cur, base := l2TableOffset, 0;
    for tbl := 0 to tables
      invariant base == Offset(tbl, entries) <= |bits|
      invariant cur == Offset(first + Rank(bits, base), clusterSize)
      invariant Extends(before, out, tbl, clusterSize)
      invariant forall k :: |before| <= k < |out| ==>
                  IsMapTable(out[k], bits, first, clusterSize, false, Offset(k - |before|, entries), entries)
    {
      OffsetGrows(tbl + 1, tables, entries);
      var cluster;
      cluster, cur := MapTable(l1, base, entries, clusterSize, cur, false, bits, first);
      out := out + [cluster];
      base := base + entries;
    }
  }

  /** A table that no L1 entry points at has no entries. */
  lemma {:induction false} EmptyWindow(p: Plan, t: nat)
    requires p.g.Valid() && p.Mapped() && t < p.l1Entries && !p.l1[t]
    requires Offset(t + 1, p.g.Entries()) <= |p.l2|
    ensures Offset(t, p.g.Entries()) <= Offset(t + 1, p.g.Entries())
    ensures Rank(p.l2, Offset(t + 1, p.g.Entries())) == Rank(p.l2, Offset(t, p.g.Entries()))
  {
    var from, end := Offset(t, p.g.Entries()), Offset(t + 1, p.g.Entries());
    forall j | from <= j < end ensures !p.l2[j] {
      TableWindow(p, t, j);
      assert p.MappedAt(j);
    }
    RankClear(p.l2, from, end);
  }

  /** No L2 entry is set in a table whose L1 entry is clear. */
  ghost predicate Backed(l1: seq<bool>, l2: seq<bool>, entries: nat, t: nat) {
    t < |l1| && !l1[t] && Offset(t, entries) <= Offset(t + 1, entries) <= |l2| ==>
      Rank(l2, Offset(t + 1, entries)) == Rank(l2, Offset(t, entries))
  }

  /** The L2 table for L1 entry `t`, if that is set, stands at its rank from cluster `n` on. */
  ghost predicate L2TableAt(out: seq<bytes>, n: nat, used: seq<bool>, bits: seq<bool>, first: nat, clusterSize: nat,
                            external: bool, entries: nat, t: nat) {
    t < |used| && used[t] ==>
      && n + Rank(used, t) < |out|
      && IsMapTable(out[n + Rank(used, t)], bits, first, clusterSize, external, Offset(t, entries), entries)
  }

  ghost predicate L2TablesTo(out: seq<bytes>, n: nat, used: seq<bool>, bits: seq<bool>, first: nat, clusterSize: nat,
                             external: bool, entries: nat, end: nat) {
    forall t: nat :: t < end ==> L2TableAt(out, n, used, bits, first, clusterSize, external, entries, t)
  }

  lemma {:induction false} L2TablesStep(out: seq<bytes>, n: nat, used: seq<bool>, bits: seq<bool>, first: nat, clusterSize: nat,
                     external: bool, entries: nat, t: nat, cluster: bytes)
    requires L2TablesTo(out, n, used, bits, first, clusterSize, external, entries, t) && t < |used|
    requires |out| == n + Rank(used, t)
    requires used[t] ==> IsMapTable(cluster, bits, first, clusterSize, external, Offset(t, entries), entries)
    ensures L2TablesTo(if used[t] then out + [cluster] else out, n, used, bits, first, clusterSize, external, entries, t + 1)
  {
    var out' := if used[t] then out + [cluster] else out;
    forall u: nat | u < t + 1 ensures L2TableAt(out', n, used, bits, first, clusterSize, external, entries, u) {
      if u < t {
        assert L2TableAt(out, n, used, bits, first, clusterSize, external, entries, u);
      }
    }
  }

  /** The next L2 table, if there is one. */
  method AppendL2(before: seq<bytes>, sofar: seq<bytes>, l1: Bitmap, l2: Bitmap, tbl: nat, base: nat, entries: nat,
                  clusterSize: nat, cur: nat, external: bool, ghost used: seq<bool>, ghost bits: seq<bool>, ghost first: nat)
    returns (out: seq<bytes>, next: nat)
    requires l1.Valid() && l1.bits == used && l2.Valid() && l2.bits == bits && clusterSize == 8 * entries
    requires tbl < |used| && base == Offset(tbl, entries) && base + entries <= |bits|
    requires Backed(used, bits, entries, tbl) && EntriesFit(bits, first, clusterSize, external)
    requires !external ==> cur == Offset(first + Rank(bits, base), clusterSize)
    requires Extends(before, sofar, Rank(used, tbl), clusterSize)
    requires L2TablesTo(sofar, |before|, used, bits, first, clusterSize, external, entries, tbl)
    ensures !external ==> next == Offset(first + Rank(bits, base + entries), clusterSize)
    ensures Extends(before, out, Rank(used, tbl + 1), clusterSize)
    ensures L2TablesTo(out, |before|, used, bits, first, clusterSize, external, entries, tbl + 1)
  {
    out, next := sofar, cur;
    var isSet := l1.IsSet(tbl);
    if isSet {
      var cluster;
      cluster, next := MapTable(l2, base, entries, clusterSize, cur, external, bits, first);
      L2TablesStep(sofar, |before|, used, bits, first, clusterSize, external, entries, tbl, cluster);
      out := sofar + [cluster];
    } else {
      L2TablesStep(sofar, |before|, used, bits, first, clusterSize, external, entries, tbl, []);
    }
  }

  /** The L2 tables that exist, one cluster each, in order. */
  method WriteL2(before: seq<bytes>, l1: Bitmap, l2: Bitmap, l1Entries: nat, entries: nat, clusterSize: nat,
                 dataOffset: nat, external: bool, ghost used: seq<bool>, ghost bits: seq<bool>, ghost first: nat)
    returns (out: seq<bytes>)
    requires l1.Valid() && l1.bits == used && l2.Valid() && l2.bits == bits && clusterSize == 8 * entries
    requires l1Entries <= |used| && |bits| == Offset(l1Entries, entries)
    requires forall t: nat :: Backed(used, bits, entries, t)
    requires dataOffset == Offset(first, clusterSize) && EntriesFit(bits, first, clusterSize, external)
    ensures Extends(before, out, Rank(used, l1Entries), clusterSize)
    ensures L2TablesTo(out, |before|, used, bits, first, clusterSize, external, entries, l1Entries)
  {
    out := before;
    var cur, base := dataOffset, 0;
    for tbl := 0 to l1Entries
      invariant base == Offset(tbl, entries) <= |bits|
      invariant !external ==> cur == Offset(first + Rank(bits, base), clusterSize)
      invariant Extends(before, out, Rank(used, tbl), clusterSize)
      invariant L2TablesTo(out, |before|, used, bits, first, clusterSize, external, entries, tbl)
    {
      OffsetGrows(tbl + 1, l1Entries, entries);
      assert Backed(used, bits, entries, tbl);
      out, cur := AppendL2(before, out, l1, l2, tbl, base, entries, clusterSize, cur, external, used, bits, first);
      base := base + entries;
    }
  }

  // ---------------------------------------------------------------------------------------
  // Data.

  /** `pread` of one cluster: what the file has of it. */
  function ReadCluster(input: bytes, idx: nat, clusterSize: nat): (r: bytes)
    ensures |r| <= clusterSize
  {
    var from := Offset(idx, clusterSize);
    if |input| <= from then []
    else if |input| < from + clusterSize then input[from..]
    else input[from..from + clusterSize]
  }

  function Pad(cluster: bytes, clusterSize: nat): (r: bytes)
    requires |cluster| <= clusterSize
    ensures |r| == clusterSize
  {
    cluster + Zeros(clusterSize - |cluster|)
  }

  /** A cluster of a file, with zeros where the file has ended. */
  function PaddedCluster(input: bytes, idx: nat, clusterSize: nat): (r: bytes)
    ensures |r| == clusterSize
  {
    Pad(ReadCluster(input, idx, clusterSize), clusterSize)
  }

  /** The data of guest cluster `j`, if that is allocated, stands at its rank from cluster `n` on. */
  ghost predicate DataAt(out: seq<bytes>, n: nat, bits: seq<bool>, input: bytes, clusterSize: nat, j: nat) {
    j < |bits| && bits[j] ==>
      n + Rank(bits, j) < |out| && out[n + Rank(bits, j)] == PaddedCluster(input, j, clusterSize)
  }

  ghost predicate DataTo(out: seq<bytes>, n: nat, bits: seq<bool>, input: bytes, clusterSize: nat, end: nat) {
    forall j: nat :: j < end ==> DataAt(out, n, bits, input, clusterSize, j)
  }

  lemma {:induction false} DataStep(out: seq<bytes>, n: nat, bits: seq<bool>, input: bytes, clusterSize: nat, j: nat)
    requires DataTo(out, n, bits, input, clusterSize, j) && j < |bits| && |out| == n + Rank(bits, j)
    ensures DataTo(if bits[j] then out + [PaddedCluster(input, j, clusterSize)] else out,
                   n, bits, input, clusterSize, j + 1)
  {
    var out' := if bits[j] then out + [PaddedCluster(input, j, clusterSize)] else out;
    forall i: nat | i < j + 1 ensures DataAt(out', n, bits, input, clusterSize, i) {
      if i < j {
        assert DataAt(out, n, bits, input, clusterSize, i);
      }
    }
  }

  /** The data clusters, in the order of the guest clusters they belong to. */
  method WriteData(before: seq<bytes>, l2: Bitmap, input: bytes, count: nat, clusterSize: nat, ghost bits: seq<bool>)
    returns (out: seq<bytes>)
    requires l2.Valid() && l2.bits == bits && count <= |bits|
    ensures Extends(before, out, Rank(bits, count), clusterSize)
    ensures DataTo(out, |before|, bits, input, clusterSize, count)
  {
    out := before;
    for idx := 0 to count
      invariant Extends(before, out, Rank(bits, idx), clusterSize)
      invariant DataTo(out, |before|, bits, input, clusterSize, idx)
    {
      DataStep(out, |before|, bits, input, clusterSize, idx);
      var isSet := l2.IsSet(idx);
      if isSet {
        var cluster := ReadCluster(input, idx, clusterSize);
        if |cluster| < clusterSize {
          cluster := cluster + Zeros(clusterSize - |cluster|);
        }
        out := out + [cluster];
      }
    }
  }
}
