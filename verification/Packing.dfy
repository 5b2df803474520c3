/** Structures packed from big-endian numbers, one field after the other. */
module Packing {
  import opened Collections
  import opened Bytes

  datatype Packed = Packed(value: nat, width: nat)

  function Pack(fields: seq<Packed>): (r: bytes) {
    if fields == [] then []
    else Pack(fields[..|fields| - 1]) + ToBe(fields[|fields| - 1].value, fields[|fields| - 1].width)
  }

  /** Where a field begins. */
  function Start(fields: seq<Packed>, k: nat): nat
    requires k <= |fields|
  {
    if k == 0 then 0 else Start(fields, k - 1) + fields[k - 1].width
  }

  lemma {:induction false} StartOfPrefix(fields: seq<Packed>, n: nat, k: nat)
    requires k <= n <= |fields|
    ensures Start(fields[..n], k) == Start(fields, k)
  {
    if k > 0 {
      StartOfPrefix(fields, n, k - 1);
    }
  }

  lemma {:induction false} PackLength(fields: seq<Packed>)
    ensures |Pack(fields)| == Start(fields, |fields|)
  {
    if fields != [] {
      var n := |fields| - 1;
      PackLength(fields[..n]);
      StartOfPrefix(fields, n, n);
    }
  }

  /** A packed field can be read where it begins. */
  lemma {:induction false} PackedAt(fields: seq<Packed>, k: nat)
    requires k < |fields| && fields[k].value < Pow256(fields[k].width)
    ensures var from := Start(fields, k);
            var end := from + fields[k].width;
            end <= |Pack(fields)| && FromBe(Pack(fields)[from..end]) == fields[k].value
  {
    var n := |fields| - 1;
    var init, last := fields[..n], ToBe(fields[n].value, fields[n].width);
    var from, end := Start(fields, k), Start(fields, k) + fields[k].width;
    PackLength(init);
    StartOfPrefix(fields, n, k);
    StartOfPrefix(fields, n, n);
    SliceAppend(Pack(init), last, from, end);
    if k == n {
      assert last[0..|last|] == last;
      FromToBe(fields[n].value, fields[n].width);
    } else {
      PackedAt(init, k);
    }
  }

  /** Field `k` is what these bytes have where it belongs. */
  ghost predicate StandsIn(fields: seq<Packed>, k: nat, s: bytes) {
    k < |fields| && Start(fields, k) + fields[k].width <= |s|
    && ToBe(fields[k].value, fields[k].width) == s[Start(fields, k)..Start(fields, k) + fields[k].width]
  }

  /** Bytes that have all fields where they belong are the fields packed. */
  lemma {:induction false} PackSlices(fields: seq<Packed>, s: bytes, n: nat)
    requires n <= |fields| && forall k: nat :: k < n ==> StandsIn(fields, k, s)
    ensures Start(fields, n) <= |s| && Pack(fields[..n]) == s[..Start(fields, n)]
  {
    if n > 0 {
      PackSlices(fields, s, n - 1);
      assert StandsIn(fields, n - 1, s);
      assert fields[..n][..n - 1] == fields[..n - 1];
      SliceSplit(s, 0, Start(fields, n - 1), Start(fields, n));
    }
  }
}
