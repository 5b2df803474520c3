/** The refcount sizing loop: how many refcount blocks and tables count themselves as well. */
module Qcow2Sizing {
  import opened Qcow2Math

  /** `b` blocks and their tables can count `n` clusters and themselves. */
  ghost predicate Suffices(n: nat, b: nat, perBlock: nat, perTable: nat)
    requires perTable > 0
  {
    b * perBlock >= n + b + CeilDiv(b, perTable)
  }

  lemma ManySuffice(n: nat, perBlock: nat, perTable: nat)
    requires perBlock >= 3 && perTable > 0
    ensures Suffices(n, n, perBlock, perTable)
  {
    CeilDivAtMost(n, perTable);
    MulMonotone(3, perBlock, n);
  }

  /** One round of the recalculation stays below every number that suffices. */
  lemma RoundIsBelow(n: nat, b: nat, enough: nat, perBlock: nat, perTable: nat)
    requires perBlock > 0 && perTable > 0 && b <= enough && Suffices(n, enough, perBlock, perTable)
    ensures CeilDiv(n + CeilDiv(b, perTable) + b, perBlock) <= enough
  {
    CeilDivMonotone(b, enough, perTable);
    CeilDivLeast(n + CeilDiv(b, perTable) + b, perBlock, enough);
  }

  /** Where the recalculation changes nothing, the blocks are enough. */
  lemma RoundSettles(n: nat, b: nat, perBlock: nat, perTable: nat)
    requires perBlock > 0 && perTable > 0 && CeilDiv(n + CeilDiv(b, perTable) + b, perBlock) <= b
    ensures Suffices(n, b, perBlock, perTable)
  {
    CeilDivBounds(n + CeilDiv(b, perTable) + b, perBlock);
    MulMonotone(CeilDiv(n + CeilDiv(b, perTable) + b, perBlock), b, perBlock);
  }

  lemma FirstIsBelow(n: nat, enough: nat, perBlock: nat, perTable: nat)
    requires perBlock > 0 && perTable > 0 && Suffices(n, enough, perBlock, perTable)
    ensures CeilDiv(n, perBlock) <= enough
  {
    CeilDivLeast(n, perBlock, enough);
  }

  /** Recalculates until the numbers no longer change; what it finds is the least that suffices. */
  method SizeRefcounts(n: nat, perBlock: nat, perTable: nat) returns (blocks: nat, tables: nat)
    requires perBlock >= 3 && perTable > 0
    ensures tables == CeilDiv(blocks, perTable)
    ensures Suffices(n, blocks, perBlock, perTable)
    ensures forall b: nat :: Suffices(n, b, perBlock, perTable) ==> blocks <= b
  {
    blocks := CeilDiv(n, perBlock);
    tables := CeilDiv(blocks, perTable);
    ManySuffice(n, perBlock, perTable);
    forall b: nat | Suffices(n, b, perBlock, perTable) ensures blocks <= b {
      FirstIsBelow(n, b, perBlock, perTable);
    }
    while true
      invariant tables == CeilDiv(blocks, perTable)
      invariant forall b: nat :: Suffices(n, b, perBlock, perTable) ==> blocks <= b
      decreases n - blocks
    {
      var newBlocks := CeilDiv(n + tables + blocks, perBlock);
      forall b: nat | Suffices(n, b, perBlock, perTable) ensures newBlocks <= b {
        RoundIsBelow(n, blocks, b, perBlock, perTable);
      }
      if newBlocks > blocks {
        blocks := newBlocks;
        tables := CeilDiv(blocks, perTable);
      } else {
        RoundSettles(n, blocks, perBlock, perTable);
        break;
      }
    }
  }
}
