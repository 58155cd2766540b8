/** Sorting a function's block list by address. */
module BlockSort {
  import opened BasicBlocks

  predicate Ascending(bs: seq<Block>)
  {
    forall i, j :: 0 <= i < j < |bs| ==> bs[i].addr <= bs[j].addr
  }

  lemma InsertKeepsOrder(sorted: seq<Block>, x: Block, j: nat)
    requires Ascending(sorted) && j <= |sorted|
    requires forall a :: 0 <= a < j ==> sorted[a].addr <= x.addr
    requires forall a :: j <= a < |sorted| ==> x.addr <= sorted[a].addr
    ensures var r := sorted[..j] + ([x] + sorted[j..]); Ascending(r) && multiset(r) == multiset(sorted + [x])
  {
    var r := sorted[..j] + ([x] + sorted[j..]);
    forall a, b | 0 <= a < b < |r|
      ensures r[a].addr <= r[b].addr
    {
      assert r[a] == if a < j then sorted[a] else if a == j then x else sorted[a - 1];
      assert r[b] == if b < j then sorted[b] else if b == j then x else sorted[b - 1];
    }
    assert sorted == sorted[..j] + sorted[j..];
  }

  /** Inserts a block into a list sorted by address, behind those at its own. */
  method InsertSorted(sorted: seq<Block>, x: Block) returns (r: seq<Block>)
    requires Ascending(sorted)
    ensures multiset(r) == multiset(sorted + [x]) && Ascending(r)
  {
    hide Ascending;
    var j := |sorted|;
    while j > 0 && sorted[j - 1].addr > x.addr
      invariant 0 <= j <= |sorted| && forall a :: j <= a < |sorted| ==> sorted[a].addr > x.addr
    {
      j := j - 1;
    }
    LowerPart(sorted, x, j);
    InsertKeepsOrder(sorted, x, j);
    r := sorted[..j] + ([x] + sorted[j..]);
  }

  lemma LowerPart(sorted: seq<Block>, x: Block, j: nat)
    requires Ascending(sorted) && j <= |sorted| && (j > 0 ==> sorted[j - 1].addr <= x.addr)
    ensures forall a :: 0 <= a < j ==> sorted[a].addr <= x.addr
  {
  }

  /** Insertion sort. */
  method SortByAddr(bs: seq<Block>) returns (sorted: seq<Block>)
    ensures multiset(sorted) == multiset(bs) && Ascending(sorted)
  {
    hide Ascending;
    sorted := [];
    NoneAscends();
    for i := 0 to |bs|
      invariant multiset(sorted) == multiset(bs[..i]) && Ascending(sorted)
    {
      assert bs[..i + 1] == bs[..i] + [bs[i]];
      sorted := InsertSorted(sorted, bs[i]);
    }
    assert bs[..|bs|] == bs;
  }

  lemma NoneAscends()
    ensures Ascending([])
  {
  }
}
