/** The refcount table and the refcount blocks, in all seven widths. */
module Qcow2Refcounts {
  import opened Collections
  import opened Bytes
  import opened Qcow2Math
  import opened Qcow2Bitmap
  import opened Qcow2Format
  import opened Qcow2Writer

  // ---------------------------------------------------------------------------------------
  // Reading a refcount.

  /** `b >> k` */
  function Shr(b: nat, k: nat): nat {
    if k == 0 then b else Shr(b / 2, k - 1)
  }

  /** The bytes of an entry of at least 8 bits. */
  function EntryBytes(order: nat): nat
    requires 3 <= order <= 6
  {
    if order == 3 then 1 else if order == 4 then 2 else if order == 5 then 4 else 8
  }

  /** The bits of an entry of less than 8, and how many of them a byte has. */
  function EntryBits(order: nat): nat
    requires order < 3
  {
    if order == 0 then 1 else if order == 1 then 2 else 4
  }

  function EntriesPerByte(order: nat): nat
    requires order < 3
  {
    if order == 0 then 8 else if order == 1 then 4 else 2
  }

  /** Entry `idx` of a block; in a byte that holds several, bit 0 is the least significant. */
  function RefcountAt(block: bytes, idx: nat, order: nat): nat
    requires order <= 6
  {
    if order >= 3 then UintAt(block, Offset(idx, EntryBytes(order)), EntryBytes(order))
    else
      var q, place := Quotient(idx, EntriesPerByte(order)), Remainder(idx, EntriesPerByte(order));
      if q >= |block| then 0 else BitsAt(block[q], place, order)
  }

  /** A field of a byte that holds several. */
  function BitsAt(b: byte, place: nat, order: nat): nat
    requires order < 3
  {
    var field := Shr(b, place * EntryBits(order));
    if order == 0 then field % 2 else if order == 1 then field % 4 else field % 16
  }

  /** The first `n` entries of the block are 1 and the others are 0. */
  ghost predicate CountsFirst(block: bytes, order: nat, n: nat, perBlock: nat)
    requires order <= 6
  {
    forall idx :: 0 <= idx < perBlock ==> RefcountAt(block, idx, order) == if idx < n then 1 else 0
  }

  // ---------------------------------------------------------------------------------------
  // Entries of whole bytes.

  function Ones(n: nat, w: nat): (r: bytes) {
    if n == 0 then [] else Ones(n - 1, w) + ToBe(1, w)
  }

  lemma {:induction false} OnesLength(n: nat, w: nat)
    ensures |Ones(n, w)| == Offset(n, w)
  {
    if n > 0 {
      OnesLength(n - 1, w);
    }
  }

  lemma {:induction false} OnesAt(n: nat, w: nat, i: nat)
    requires i < n && w > 0
    ensures Offset(i, w) + w <= |Ones(n, w)| && Ones(n, w)[Offset(i, w)..Offset(i, w) + w] == ToBe(1, w)
  {
    OnesLength(n, w);
    OnesLength(n - 1, w);
    if i < n - 1 {
      OnesAt(n - 1, w, i);
      SliceAppend(Ones(n - 1, w), ToBe(1, w), Offset(i, w), Offset(i, w) + w);
    }
  }

  lemma {:induction false} OnesRead(n: nat, w: nat, blank: nat, i: nat)
    requires 1 <= w && i < n
    ensures UintAt(Ones(n, w) + Zeros(blank), Offset(i, w), w) == 1
  {
    OnesAt(n, w, i);
    SliceAppend(Ones(n, w), Zeros(blank), Offset(i, w), Offset(i, w) + w);
    FromToBe(1, w);
    NumberIs(Ones(n, w) + Zeros(blank), Offset(i, w), w);
  }

  lemma {:induction false} BlankRead(head: bytes, w: nat, blank: nat, from: nat)
    requires |head| <= from && from + w <= |head| + blank
    ensures UintAt(head + Zeros(blank), from, w) == 0
  {
    SliceAppend(head, Zeros(blank), from, from + w);
    assert Zeros(blank)[from - |head|..from + w - |head|] == Zeros(w);
    ZerosRead(w);
    NumberIs(head + Zeros(blank), from, w);
  }

  /** Reading a block of ones and then zeros. */
  lemma {:induction false} OnesThenZeros(n: nat, w: nat, blank: nat, i: nat)
    requires 1 <= w && Offset(i, w) + w <= Offset(n, w) + blank
    ensures UintAt(Ones(n, w) + Zeros(blank), Offset(i, w), w) == if i < n then 1 else 0
  {
    OnesLength(n, w);
    if i < n {
      OnesRead(n, w, blank, i);
    } else {
      OffsetGrows(n, i, w);
      BlankRead(Ones(n, w), w, blank, Offset(i, w));
    }
  }

  /** A block whose entries take `w` bytes each. */
  method ByteCounts(length: nat, w: nat, n: nat) returns (block: bytes)
    requires Offset(n, w) <= length
    ensures block == Ones(n, w) + Zeros(length - Offset(n, w))
  {
    var c := new byte[length](_ => 0);
    var at := 0;
    assert c[..] == Ones(0, w) + Zeros(length);
    for idx := 0 to n
      invariant at == Offset(idx, w) <= length
      invariant c[..] == Ones(idx, w) + Zeros(length - at)
    {
      OffsetGrows(idx + 1, n, w);
      PutOne(c, idx, at, w);
      at := at + w;
    }
    block := c[..];
  }

  /** The next of them. */
  method PutOne(c: array<byte>, ghost idx: nat, at: nat, w: nat)
    requires at == Offset(idx, w) && at + w <= c.Length && c[..] == Ones(idx, w) + Zeros(c.Length - at)
    modifies c
    ensures c[..] == Ones(idx + 1, w) + Zeros(c.Length - at - w)
  {
    OnesLength(idx, w);
    assert c[..at] == Ones(idx, w) && c[at + w..] == Zeros(c.Length - at - w) by {
      assert c[..][..at] == c[..at] && c[..][at + w..] == c[at + w..];
    }
    PackBe(c, at, 1, w);
    assert c[..] == c[..at] + c[at..at + w] + c[at + w..];
  }

  // ---------------------------------------------------------------------------------------
  // Entries of less than a byte.

  lemma {:induction false} ShrBit(b: nat, k: nat, i: nat)
    ensures Bit(Shr(b, k), i) <==> Bit(b, k + i)
  {
    if k > 0 {
      ShrBit(b / 2, k - 1, i);
    }
  }

  lemma {:induction false} LowPair(x: nat)
    ensures x % 4 == (if Bit(x, 0) then 1 else 0) + if Bit(x, 1) then 2 else 0
    ensures x % 2 == if Bit(x, 0) then 1 else 0
  {
    var y := x / 2;
    assert Bit(x, 1) == Bit(y, 0);
  }

  /** Four bits of which only the lowest may be set. */
  lemma {:induction false} LowField(x: nat)
    ensures (x % 2 == 1 <==> Bit(x, 0)) && x % 2 <= 1
    ensures !Bit(x, 1) ==> x % 4 == x % 2
    ensures !Bit(x, 1) && !Bit(x, 2) && !Bit(x, 3) ==> x % 16 == x % 2
  {
    LowPair(x);
    LowPair(x / 4);
    BitTwoUp(x, 0);
    BitTwoUp(x, 1);
    assert x % 16 == x % 4 + 4 * (x / 4 % 4);
  }

  lemma {:induction false} BitTwoUp(x: nat, k: nat)
    ensures Bit(x, k + 2) == Bit(x / 4, k)
  {
    var y := x / 2;
    assert Bit(x, k + 2) == Bit(y, k + 1) == Bit(y / 2, k);
    assert y / 2 == x / 4;
  }

  /** Bit `g` of the block is set exactly if it is the lowest of one of the first `n` entries. */
  ghost predicate MarksFirst(bits: seq<bool>, w: nat, n: nat)
    requires w > 0
  {
    forall g :: 0 <= g < |bits| ==> (bits[g] <==> g % w == 0 && g / w < n)
  }

  /** A block whose entries share bytes. */
  method BitCounts(length: nat, order: nat, n: nat) returns (block: Bitmap)
    requires order < 3 && n <= length * EntriesPerByte(order)
    ensures fresh(block) && block.Valid() && block.bytes.Length == length
    ensures MarksFirst(block.bits, EntryBits(order), n)
  {
    block := new Bitmap(length);
    for idx := 0 to n
      invariant fresh(block) && fresh(block.bytes) && block.Valid() && |block.bits| == 8 * length
      invariant MarksFirst(block.bits, EntryBits(order), idx)
    {
      block.Set(idx * EntryBits(order));
    }
  }

  /** Reading an entry of a marked block, wherever in its byte it is. */
  lemma {:induction false} MarkedCount(b: byte, order: nat, place: nat, counted: bool)
    requires order < 3 && place < EntriesPerByte(order)
    requires forall k :: place * EntryBits(order) <= k < place * EntryBits(order) + EntryBits(order) ==>
               (Bit(b, k) <==> k == place * EntryBits(order) && counted)
    ensures BitsAt(b, place, order) == if counted then 1 else 0
  {
    var s := place * EntryBits(order);
    var field := Shr(b, s);
    ShrBit(b, s, 0);
    ShrBit(b, s, 1);
    ShrBit(b, s, 2);
    ShrBit(b, s, 3);
    LowField(field);
  }

  lemma {:induction false} MarkedBlock(block: Bitmap, order: nat, n: nat, idx: nat)
    requires order < 3 && block.Valid() && MarksFirst(block.bits, EntryBits(order), n)
    requires idx / EntriesPerByte(order) < block.bytes.Length
    ensures RefcountAt(block.bytes[..], idx, order) == if idx < n then 1 else 0
  {
    var per, w := EntriesPerByte(order), EntryBits(order);
    var q, place := idx / per, idx % per;
    QuotientIs(idx, per);
    var b := block.bytes[q];
    forall k | place * w <= k < place * w + w ensures Bit(b, k) <==> k == place * w && idx < n {
      var g := 8 * q + k;
      assert g / 8 == q && g % 8 == k;
      assert block.Holds(g) == block.bits[g];
      assert g % w == 0 <==> k == place * w;
      assert k == place * w ==> g / w == idx;
    }
    MarkedCount(b, order, place, idx < n);
  }

  /** The entries of a block, whatever their width, and the bytes they take. */
  ghost predicate BlockHolds(length: nat, perBlock: nat, order: nat)
    requires order <= 6
  {
    if order >= 3 then length == Offset(perBlock, EntryBytes(order))
    else perBlock == length * EntriesPerByte(order)
  }

  /** One refcount block: as many ones as there are clusters left to count. */
  method RefcountBlock(length: nat, order: nat, n: nat, perBlock: nat) returns (block: bytes)
    requires order <= 6 && n <= perBlock && BlockHolds(length, perBlock, order)
    ensures |block| == length && CountsFirst(block, order, n, perBlock)
  {
    if order >= 3 {
      var w := EntryBytes(order);
      OffsetGrows(n, perBlock, w);
      OnesLength(n, w);
      block := ByteCounts(length, w, n);
      forall idx | 0 <= idx < perBlock ensures RefcountAt(block, idx, order) == if idx < n then 1 else 0 {
        OffsetGrows(idx + 1, perBlock, w);
        OnesThenZeros(n, w, length - Offset(n, w), idx);
      }
    } else {
      var bitmap := BitCounts(length, order, n);
      block := bitmap.bytes[..];
      forall idx | 0 <= idx < perBlock ensures RefcountAt(block, idx, order) == if idx < n then 1 else 0 {
        assert idx / EntriesPerByte(order) < length;
        MarkedBlock(bitmap, order, n, idx);
      }
    }
  }

  // ---------------------------------------------------------------------------------------
  // The two sections.

  function TableEntries(first: nat, blocks: nat, clusterSize: nat, base: nat): nat -> nat {
    (i: nat) => TableEntry(first, blocks, clusterSize, base + i)
  }

  /** The cluster holds the entries of the refcount table from `base` on. */
  ghost predicate IsRefcountTable(cluster: bytes, first: nat, blocks: nat, clusterSize: nat, base: nat, n: nat) {
    && |cluster| == 8 * n
    && forall i :: 0 <= i < n ==> EntryAt(cluster, i) == TableEntry(first, blocks, clusterSize, base + i)
  }

  lemma {:induction false} TableEntryFits(first: nat, blocks: nat, clusterSize: nat, j: nat)
    requires Offset(first + blocks, clusterSize) < U64_LIMIT
    ensures TableEntry(first, blocks, clusterSize, j) < U64_LIMIT
  {
    if j < blocks {
      OffsetGrows(first + j, first + blocks, clusterSize);
    }
  }

  /** The entries after the last block are the blank rest of the cluster. */
  lemma {:induction false} RefcountTableDone(c: bytes, first: nat, blocks: nat, clusterSize: nat, base: nat, m: nat, n: nat)
    requires |c| == 8 * n && m <= n && (m < n ==> blocks <= base + m)
    requires Filled(c, m, TableEntries(first, blocks, clusterSize, base))
    ensures IsRefcountTable(c, first, blocks, clusterSize, base, n)
  {
    var want := TableEntries(first, blocks, clusterSize, base);
    forall i | 0 <= i < n ensures EntryAt(c, i) == TableEntry(first, blocks, clusterSize, base + i) {
      assert FilledAt(c, m, want, i);
    }
  }

  method FillRefcountTable(c: array<byte>, base: nat, end: nat, clusterSize: nat, start: nat,
                           ghost first: nat, ghost blocks: nat, ghost want: nat -> nat)
    returns (next: nat)
    requires base <= end <= blocks && 8 * (end - base) <= c.Length
    requires want == TableEntries(first, blocks, clusterSize, base) && Filled(c[..], 0, want)
    requires start == Offset(first + base, clusterSize) && Offset(first + blocks, clusterSize) < U64_LIMIT
    modifies c
    ensures Filled(c[..], end - base, want)
    ensures next == Offset(first + end, clusterSize)
  {
    next := start;
    for j := base to end
      invariant next == Offset(first + j, clusterSize) && Filled(c[..], j - base, want)
    {
      TableEntryFits(first, blocks, clusterSize, j);
      assert want(j - base) == next;
      PutEntry(c, j - base, next, want);
      next := next + clusterSize;
    }
  }

  /** One cluster of the refcount table, with `end - base` entries. */
  method RefcountTable(base: nat, end: nat, entries: nat, clusterSize: nat, start: nat, ghost first: nat, ghost blocks: nat)
    returns (cluster: bytes, next: nat)
    requires base <= end <= base + entries && end <= blocks && (end < base + entries ==> end == blocks)
    requires start == Offset(first + base, clusterSize) && Offset(first + blocks, clusterSize) < U64_LIMIT
    ensures IsRefcountTable(cluster, first, blocks, clusterSize, base, entries)
    ensures next == Offset(first + end, clusterSize)
  {
    var c := new byte[8 * entries](_ => 0);
    ghost var want := TableEntries(first, blocks, clusterSize, base);
    FilledNone(c[..], want);
    next := FillRefcountTable(c, base, end, clusterSize, start, first, blocks, want);
    cluster := c[..];
    RefcountTableDone(cluster, first, blocks, clusterSize, base, end - base, entries);
  }

  lemma {:induction false} TableCount(blocks: nat, entries: nat, n: nat)
    requires entries > 0 && blocks <= Offset(n, entries) && (n > 0 ==> Offset(n - 1, entries) < blocks)
    ensures n == CeilDiv(blocks, entries)
  {
    OffsetIsProduct(n, entries);
    if n > 0 {
      OffsetIsProduct(n - 1, entries);
    }
    CeilDivIs(blocks, entries, n);
  }

  /** The refcount table: an entry for every block, in as few clusters as hold them. */
  method WriteRefcountTable(before: seq<bytes>, blocks: nat, entries: nat, clusterSize: nat, blockOffset: nat, ghost first: nat)
    returns (out: seq<bytes>)
    requires clusterSize == 8 * entries && entries > 0
    requires blockOffset == Offset(first, clusterSize) && Offset(first + blocks, clusterSize) < U64_LIMIT
    ensures Extends(before, out, CeilDiv(blocks, entries), clusterSize)
    ensures forall k :: |before| <= k < |out| ==>
              IsRefcountTable(out[k], first, blocks, clusterSize, Offset(k - |before|, entries), entries)
  {
    out := before;
    var cur, remaining := blockOffset, blocks;
    ghost var n := 0;
    while remaining > 0
      invariant Extends(before, out, n, clusterSize)
      invariant remaining <= blocks && cur == Offset(first + (blocks - remaining), clusterSize)
      invariant remaining > 0 ==> Offset(n, entries) == blocks - remaining
      invariant blocks - remaining <= Offset(n, entries) && (n > 0 ==> Offset(n - 1, entries) < blocks)
      invariant forall k :: |before| <= k < |out| ==>
                  IsRefcountTable(out[k], first, blocks, clusterSize, Offset(k - |before|, entries), entries)
    {
      var toWrite := if remaining < entries then remaining else entries;
      var base := blocks - remaining;
      remaining := remaining - toWrite;
      var cluster;
      cluster, cur := RefcountTable(base, base + toWrite, entries, clusterSize, cur, first, blocks);
      out := out + [cluster];
      n := n + 1;
    }
    TableCount(blocks, entries, n);
  }

  /** How many clusters are left to count from `from` on. */
  function Left(total: nat, from: nat): nat {
    if from <= total then total - from else 0
  }

  /** The refcount blocks, which together count the first `total` clusters. */
  method WriteRefcountBlocks(before: seq<bytes>, blocks: nat, perBlock: nat, order: nat, clusterSize: nat, total: nat)
    returns (out: seq<bytes>)
    requires order <= 6 && BlockHolds(clusterSize, perBlock, order)
    ensures Extends(before, out, blocks, clusterSize)
    ensures forall k :: |before| <= k < |out| ==>
              CountsFirst(out[k], order, Left(total, Offset(k - |before|, perBlock)), perBlock)
  {
    out := before;
    var remaining := total;
    for tbl := 0 to blocks
      invariant remaining == Left(total, Offset(tbl, perBlock))
      invariant Extends(before, out, tbl, clusterSize)
      invariant forall k :: |before| <= k < |out| ==>
                  CountsFirst(out[k], order, Left(total, Offset(k - |before|, perBlock)), perBlock)
    {
      var toWrite := if remaining < perBlock then remaining else perBlock;
      var cluster := RefcountBlock(clusterSize, order, toWrite, perBlock);
      remaining := remaining - toWrite;
      out := out + [cluster];
    }
  }

  lemma {:induction false} BlockHoldsOrder(length: nat, perBlock: nat, order: nat, bits: nat)
    requires order <= 6 && perBlock * bits == 8 * length
    requires bits == if order < 3 then EntryBits(order) else 8 * EntryBytes(order)
    ensures BlockHolds(length, perBlock, order)
  {
    if order >= 3 {
      OffsetIsProduct(perBlock, EntryBytes(order));
    }
  }

  /** A cluster holds a block of the geometry's refcounts. */
  lemma {:induction false} BlockHoldsCluster(g: Geometry)
    requires g.Valid()
    ensures BlockHolds(g.ClusterSize(), g.RefcountsPerBlock(), g.refcountOrder)
  {
    RefcountFacts(g);
    BlockHoldsOrder(g.ClusterSize(), g.RefcountsPerBlock(), g.refcountOrder, g.RefcountBits());
  }
}
