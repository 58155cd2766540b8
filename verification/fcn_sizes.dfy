/** How large a function is said to be: which ends of blocks its size was fitted to. */
module FcnSizes {
  import opened Wrappers
  import opened BasicBlocks
  import opened FcnBlocks
  import opened FcnTraces
  import opened FcnFlow
  import opened FcnBounds

  /** The starts from which the code was walked; the blocks, by start and end, to which the
      size was fitted; ends to which it was not, as the block had been split by then; the
      blocks to which it is still to be fitted; and ends from earlier analyses. */
  datatype Sizing = Sizing(explored: set<nat>, measured: set<(nat, nat)>, torn: set<nat>, pending: set<(nat, nat)>, prior: set<nat>)

  predicate Measured(z: Sizing, e: nat)
  {
    exists m :: m in z.measured && m.1 == e
  }

  predicate Pending(z: Sizing, e: nat)
  {
    exists m :: m in z.pending && m.1 == e
  }

  /** An end that is accounted for. */
  predicate Known(z: Sizing, e: nat)
  {
    Measured(z, e) || Pending(z, e) || e in z.torn || e in z.prior
  }

  /** Some block, other than the one that is still growing, ends there. */
  predicate IsEnd(bs: seq<Block>, e: nat, skip: Option<nat>)
  {
    exists i :: 0 <= i < |bs| && bs[i].addr + bs[i].size == e && skip != Some(bs[i].addr)
  }

  ghost predicate Within(z: Sizing, x: nat)
  {
    exists e: nat :: x <= e && Known(z, e)
  }

  /** No block reaches beyond the known ends. */
  ghost predicate AllWithin(bs: seq<Block>, z: Sizing, skip: Option<nat>)
  {
    forall i :: 0 <= i < |bs| && skip != Some(bs[i].addr) ==> Within(z, bs[i].addr + bs[i].size)
  }

  ghost predicate AllEnds(bs: seq<Block>, z: Sizing, skip: Option<nat>)
  {
    forall e: nat :: Known(z, e) ==> IsEnd(bs, e, skip)
  }

  /** The size is that of the largest fitted block, unless one was too large. */
  predicate SizeFits(addr: nat, size: nat, z: Sizing)
  {
    (forall m :: m in z.measured ==> m.1 <= addr + MAX_FCN_SIZE) ==>
      && (forall m :: m in z.measured ==> m.1 <= addr + size)
      && (size == 0 || Measured(z, addr + size))
  }

  /** The instruction may have targets. */
  predicate HasTargets(w: World, a: nat)
  {
    w.code(a).kind.Branch? || w.code(a).kind.Jump? || (w.pushes && w.code(a).kind.Return?)
  }

  /** The block that ended there led on: to targets, or into another block. */
  ghost predicate LedOn(w: World, e: nat)
  {
    exists a: nat :: EndsInstruction(w, a, e) && (HasTargets(w, a) || (!MustEnd(w.code(a).kind) && Walkable(w, e)))
  }

  predicate EndsInstruction(w: World, a: nat, e: nat)
  {
    w.starts(a) && Decodes(w.code(a)) && a + w.code(a).size == e
  }

  ghost predicate SizesRight(w: World, bs: seq<Block>, addr: nat, size: nat, z: Sizing, skip: Option<nat>)
  {
    && AllWithin(bs, z, skip) && AllEnds(bs, z, skip) && SizeFits(addr, size, z)
    && (forall a :: a in z.explored ==> HasStart(bs, a))
    && (forall e :: e in z.torn ==> LedOn(w, e))
    && (forall m :: m in z.measured || m in z.pending ==> m.0 in z.explored)
    && size <= MAX_FCN_SIZE && (z.torn != {} ==> MayTear(w))
  }

  /** Some blocks are not fitted before their targets are followed. */
  predicate MayTear(w: World)
  {
    !w.early || w.pushes
  }

  /** What a step of the analysis does to this: it explores addresses that no block had
      contained, and fits the size to blocks that start there, apart from `extra`. */
  ghost predicate SizedBy(was: seq<Block>, y: Sizing, z: Sizing, extra: set<(nat, nat)>)
  {
    && y.explored <= z.explored && y.measured <= z.measured && y.torn <= z.torn
    && z.pending == y.pending && z.prior == y.prior
    && (forall a :: a in z.explored && a !in y.explored ==> !HasStart(was, a) && !Covers(was, a))
    && (forall m :: m in z.measured && m !in y.measured ==> m.0 !in y.explored || m in extra)
  }

  lemma SizedItself(was: seq<Block>, z: Sizing)
    ensures SizedBy(was, z, z, {})
  {
  }

  lemma SizedMore(was: seq<Block>, y: Sizing, z: Sizing, extra: set<(nat, nat)>)
    requires SizedBy(was, y, z, {})
    ensures SizedBy(was, y, z, extra)
  {
  }

  lemma SizedTrans(was: seq<Block>, y: Sizing, mid: seq<Block>, z: Sizing, q: Sizing, extra: set<(nat, nat)>, more: set<(nat, nat)>)
    requires SizedBy(was, y, z, extra) && Extends(was, mid) && SizedBy(mid, z, q, more)
    ensures SizedBy(was, y, q, extra + more)
  {
  }

  lemma SizedEarlier(was: seq<Block>, mid: seq<Block>, z: Sizing, q: Sizing)
    requires Extends(was, mid) && SizedBy(mid, z, q, {})
    ensures SizedBy(was, z, q, {})
  {
  }

  lemma PendingExplored(w: World, bs: seq<Block>, addr: nat, size: nat, z: Sizing)
    requires SizesRight(w, bs, addr, size, z, None)
    ensures forall m :: m in z.measured || m in z.pending ==> m.0 in z.explored
  {
  }

  lemma StillPending(mid: seq<Block>, pended: Sizing, z: Sizing, extra: set<(nat, nat)>, b: Block)
    requires SizedBy(mid, pended, z, extra) && Extent(b) in pended.pending && b.addr in pended.explored
    ensures Extent(b) in z.pending && b.addr in z.explored
  {
  }

  /** The whole of exploring an address: it was walked from, and the size fitted to the
      block there, before or after its targets were followed. */
  lemma ExploreSized(was: seq<Block>, at: nat, y: Sizing, mid: seq<Block>, last: Block, z: Sizing, extra: set<(nat, nat)>, q: Sizing)
    requires at !in y.explored && !HasStart(was, at) && !Covers(was, at) && Extends(was, mid)
    requires (forall m :: m in y.pending ==> m.0 in y.explored) && last.addr == at && forall m :: m in extra ==> m.0 == at
    requires SizedBy(mid, Pended(y.(explored := y.explored + {at}), last), z, extra)
    requires q == z || exists x: nat :: q == z.(measured := z.measured + {(at, x)})
    ensures SizedBy(was, y, Settled(q, (at, last.addr + last.size)), {})
  {
    var m, p := (at, last.addr + last.size), Pended(y.(explored := y.explored + {at}), last);
    assert m !in y.pending && p.pending - {m} == y.pending;
    forall a | a in z.explored && a !in y.explored
      ensures !HasStart(was, a) && !Covers(was, a)
    {
      if a != at {
        assert a !in p.explored;
      }
    }
  }

  /** Some block starts and ends there. */
  predicate EndAt(bs: seq<Block>, a: nat, e: nat)
  {
    exists i :: 0 <= i < |bs| && bs[i].addr == a && bs[i].addr + bs[i].size == e
  }

  // ----- blocks within the known ends -----

  lemma WithinMore(x: nat, z: Sizing, q: Sizing)
    requires Within(z, x) && forall e: nat :: Known(z, e) ==> Known(q, e)
    ensures Within(q, x)
  {
    hide Known;
    var e: nat :| x <= e && Known(z, e);
    assert Known(q, e);
  }

  lemma WithinLess(x: nat, y: nat, z: Sizing)
    requires Within(z, y) && x <= y
    ensures Within(z, x)
  {
    hide Known;
    var e: nat :| y <= e && Known(z, e);
  }

  lemma AllWithinMore(bs: seq<Block>, z: Sizing, q: Sizing, skip: Option<nat>)
    requires AllWithin(bs, z, skip) && forall e: nat :: Known(z, e) ==> Known(q, e)
    ensures AllWithin(bs, q, skip)
  {
    hide Known, Within;
    forall i | 0 <= i < |bs| && skip != Some(bs[i].addr)
      ensures Within(q, bs[i].addr + bs[i].size)
    {
      WithinMore(bs[i].addr + bs[i].size, z, q);
    }
  }

  lemma WithinSplit(bs: seq<Block>, k: nat, first: Block, second: Block, z: Sizing)
    requires AllWithin(bs, z, None) && k < |bs|
    requires first.addr + first.size <= bs[k].addr + bs[k].size == second.addr + second.size
    ensures AllWithin(bs[k := first] + [second], z, None)
  {
    hide Within;
    var now, n := bs[k := first] + [second], |bs|;
    assert now[n] == second && now[k] == first && forall i :: 0 <= i < n && i != k ==> now[i] == bs[i];
    assert Within(z, bs[k].addr + bs[k].size);
    WithinLess(first.addr + first.size, bs[k].addr + bs[k].size, z);
  }

  lemma WithinReordered(bs: seq<Block>, now: seq<Block>, z: Sizing, skip: Option<nat>)
    requires AllWithin(bs, z, skip) && forall b :: b in now ==> b in bs
    ensures AllWithin(now, z, skip)
  {
    hide Within;
    forall i | 0 <= i < |now| && skip != Some(now[i].addr)
      ensures Within(z, now[i].addr + now[i].size)
    {
      assert now[i] in bs;
      var j :| 0 <= j < |bs| && bs[j] == now[i];
    }
  }

  // ----- known ends are ends of blocks -----

  lemma AllEndsFewer(bs: seq<Block>, z: Sizing, q: Sizing, skip: Option<nat>)
    requires AllEnds(bs, z, skip) && forall e: nat :: Known(q, e) ==> Known(z, e) || IsEnd(bs, e, skip)
    ensures AllEnds(bs, q, skip)
  {
    hide Known, IsEnd;
  }

  lemma EndsStay(bs: seq<Block>, now: seq<Block>, z: Sizing, skip: Option<nat>, other: Option<nat>)
    requires AllEnds(bs, z, skip) && forall e: nat :: IsEnd(bs, e, skip) ==> IsEnd(now, e, other)
    ensures AllEnds(now, z, other)
  {
    hide Known, IsEnd;
  }

  lemma UpdateKeepsEnds(bs: seq<Block>, k: nat, b: Block, skip: Option<nat>, e: nat)
    requires IsEnd(bs, e, skip) && k < |bs| && b.addr == bs[k].addr && (skip == Some(b.addr) || b.size == bs[k].size)
    ensures IsEnd(bs[k := b], e, skip)
  {
    var i :| 0 <= i < |bs| && bs[i].addr + bs[i].size == e && skip != Some(bs[i].addr);
    assert bs[k := b][i].addr + bs[k := b][i].size == e;
  }

  lemma SplitKeepsEnds(bs: seq<Block>, k: nat, first: Block, second: Block, e: nat)
    requires IsEnd(bs, e, None) && k < |bs| && second.addr + second.size == bs[k].addr + bs[k].size
    ensures IsEnd(bs[k := first] + [second], e, None)
  {
    var now := bs[k := first] + [second];
    var i :| 0 <= i < |bs| && bs[i].addr + bs[i].size == e;
    var j := if i == k then |bs| else i;
    assert now[j].addr + now[j].size == e;
  }

  lemma OrderKeepsEnds(bs: seq<Block>, now: seq<Block>, skip: Option<nat>, e: nat)
    requires IsEnd(bs, e, skip) && forall b :: b in bs ==> b in now
    ensures IsEnd(now, e, skip)
  {
    var i :| 0 <= i < |bs| && bs[i].addr + bs[i].size == e && skip != Some(bs[i].addr);
    assert bs[i] in now;
    var j :| 0 <= j < |now| && now[j] == bs[i];
    assert now[j].addr + now[j].size == e;
  }

  lemma AppendKeepsEnds(bs: seq<Block>, b: Block, e: nat)
    requires IsEnd(bs, e, None) && forall i :: 0 <= i < |bs| ==> bs[i].addr != b.addr
    ensures IsEnd(bs + [b], e, Some(b.addr))
  {
    var i :| 0 <= i < |bs| && bs[i].addr + bs[i].size == e;
    assert (bs + [b])[i] == bs[i];
  }

  lemma OrderKeepsStarts(bs: seq<Block>, now: seq<Block>, a: nat)
    requires HasStart(bs, a) && forall b :: b in bs ==> b in now
    ensures HasStart(now, a)
  {
    var i :| 0 <= i < |bs| && bs[i].addr == a;
    assert bs[i] in now;
    var j :| 0 <= j < |now| && now[j] == bs[i];
  }

  lemma StartsStay(bs: seq<Block>, now: seq<Block>, z: Sizing)
    requires (forall a :: a in z.explored ==> HasStart(bs, a)) && Extends(bs, now)
    ensures forall a :: a in z.explored ==> HasStart(now, a)
  {
  }

  // ----- what keeps sizes right -----

  /** A block is replaced by one that ends there too, or that is still growing. */
  lemma SizesUpdate(w: World, bs: seq<Block>, k: nat, b: Block, addr: nat, size: nat, z: Sizing, skip: Option<nat>)
    requires SizesRight(w, bs, addr, size, z, skip) && k < |bs| && b.addr == bs[k].addr && Extends(bs, bs[k := b])
    requires skip == Some(b.addr) || b.size == bs[k].size
    ensures SizesRight(w, bs[k := b], addr, size, z, skip)
  {
    hide SizeFits, Known, Within, LedOn, IsEnd, AllEnds, Extends;
    forall e: nat | IsEnd(bs, e, skip)
      ensures IsEnd(bs[k := b], e, skip)
    {
      UpdateKeepsEnds(bs, k, b, skip, e);
    }
    EndsStay(bs, bs[k := b], z, skip, skip);
    StartsStay(bs, bs[k := b], z);
  }

  lemma SizesAppend(w: World, bs: seq<Block>, a: nat, addr: nat, size: nat, z: Sizing)
    requires SizesRight(w, bs, addr, size, z, None) && (forall i :: 0 <= i < |bs| ==> bs[i].addr != a)
    requires Extends(bs, bs + [NewBlock(a)]) && HasStart(bs + [NewBlock(a)], a)
    ensures SizesRight(w, bs + [NewBlock(a)], addr, size, z.(explored := z.explored + {a}), Some(a))
  {
    hide SizeFits, LedOn, AllEnds, AllWithin, IsEnd, Extends, Known;
    var now, q := bs + [NewBlock(a)], z.(explored := z.explored + {a});
    SameKnown(z, q);
    forall e: nat | IsEnd(bs, e, None)
      ensures IsEnd(now, e, Some(a))
    {
      AppendKeepsEnds(bs, NewBlock(a), e);
    }
    EndsStay(bs, now, z, None, Some(a));
    AllEndsFewer(now, z, q, Some(a));
    WithinAppend(bs, a, z);
    AllWithinMore(now, z, q, Some(a));
    StartsStay(bs, now, z);
    SameFits(addr, size, z, q);
  }

  lemma WithinAppend(bs: seq<Block>, a: nat, z: Sizing)
    requires AllWithin(bs, z, None)
    ensures AllWithin(bs + [NewBlock(a)], z, Some(a))
  {
    hide Within;
    var now := bs + [NewBlock(a)];
    forall i | 0 <= i < |now| && now[i].addr != a
      ensures Within(z, now[i].addr + now[i].size)
    {
      assert now[i] == bs[i];
    }
  }

  lemma SameKnown(z: Sizing, q: Sizing)
    requires q == z.(explored := q.explored)
    ensures forall e: nat :: Known(q, e) == Known(z, e)
  {
    assert forall e: nat :: Measured(q, e) == Measured(z, e) && Pending(q, e) == Pending(z, e);
  }

  lemma SameFits(addr: nat, size: nat, z: Sizing, q: Sizing)
    requires SizeFits(addr, size, z) && q.measured == z.measured
    ensures SizeFits(addr, size, q)
  {
    assert Measured(z, addr + size) == Measured(q, addr + size);
  }

  lemma SizesSplit(w: World, bs: seq<Block>, k: nat, first: Block, second: Block, addr: nat, size: nat, z: Sizing)
    requires SizesRight(w, bs, addr, size, z, None) && k < |bs| && Extends(bs, bs[k := first] + [second])
    requires first.addr + first.size == second.addr && second.addr + second.size == bs[k].addr + bs[k].size
    ensures SizesRight(w, bs[k := first] + [second], addr, size, z, None)
  {
    hide SizeFits, LedOn, AllEnds, AllWithin, IsEnd, Extends;
    var now := bs[k := first] + [second];
    forall e: nat | IsEnd(bs, e, None)
      ensures IsEnd(now, e, None)
    {
      SplitKeepsEnds(bs, k, first, second, e);
    }
    EndsStay(bs, now, z, None, None);
    WithinSplit(bs, k, first, second, z);
    StartsStay(bs, now, z);
  }

  /** The same blocks in another order. */
  lemma SizesReordered(w: World, bs: seq<Block>, now: seq<Block>, addr: nat, size: nat, z: Sizing, skip: Option<nat>)
    requires SizesRight(w, bs, addr, size, z, skip) && forall b :: b in now <==> b in bs
    ensures SizesRight(w, now, addr, size, z, skip)
  {
    hide SizeFits, LedOn, AllEnds, AllWithin, IsEnd, HasStart;
    forall e: nat | IsEnd(bs, e, skip)
      ensures IsEnd(now, e, skip)
    {
      OrderKeepsEnds(bs, now, skip, e);
    }
    EndsStay(bs, now, z, skip, skip);
    WithinReordered(bs, now, z, skip);
    forall a | a in z.explored
      ensures HasStart(now, a)
    {
      OrderKeepsStarts(bs, now, a);
    }
  }

  /** Where a block starts and ends. */
  function Extent(b: Block): (nat, nat)
  {
    (b.addr, b.addr + b.size)
  }

  /** The block that was growing is complete: the size is still to be fitted to it. */
  function Pended(z: Sizing, b: Block): Sizing
  {
    z.(pending := z.pending + {Extent(b)})
  }

  lemma SizesPend(w: World, bs: seq<Block>, k: nat, addr: nat, size: nat, z: Sizing)
    requires k < |bs| && SizesRight(w, bs, addr, size, z, Some(bs[k].addr)) && bs[k].addr in z.explored
    requires forall i :: 0 <= i < |bs| && i != k ==> bs[i].addr != bs[k].addr
    ensures SizesRight(w, bs, addr, size, Pended(z, bs[k]), None)
  {
    hide SizeFits, LedOn, AllEnds, AllWithin, IsEnd, Known;
    var q := Pended(z, bs[k]);
    PendedKnown(z, bs[k]);
    LastIsEnd(bs, k);
    forall e: nat | IsEnd(bs, e, Some(bs[k].addr))
      ensures IsEnd(bs, e, None)
    {
      FewerSkipped(bs, e, Some(bs[k].addr));
    }
    EndsStay(bs, bs, z, Some(bs[k].addr), None);
    AllEndsFewer(bs, z, q, None);
    AllWithinMore(bs, z, q, Some(bs[k].addr));
    WithinLast(bs, k, q);
    SameFits(addr, size, z, q);
  }

  lemma PendedKnown(z: Sizing, b: Block)
    ensures forall e: nat :: Known(Pended(z, b), e) <==> Known(z, e) || e == b.addr + b.size
  {
    var q, m := Pended(z, b), Extent(b);
    forall e: nat
      ensures Known(q, e) <==> Known(z, e) || e == m.1
    {
      assert m in q.pending && Measured(q, e) == Measured(z, e);
      assert Pending(q, e) <==> Pending(z, e) || e == m.1;
    }
  }

  lemma LastIsEnd(bs: seq<Block>, k: nat)
    requires k < |bs|
    ensures IsEnd(bs, bs[k].addr + bs[k].size, None)
  {
  }

  lemma FewerSkipped(bs: seq<Block>, e: nat, skip: Option<nat>)
    requires IsEnd(bs, e, skip)
    ensures IsEnd(bs, e, None)
  {
  }

  lemma WithinLast(bs: seq<Block>, k: nat, z: Sizing)
    requires k < |bs| && AllWithin(bs, z, Some(bs[k].addr)) && Known(z, bs[k].addr + bs[k].size)
    requires forall i :: 0 <= i < |bs| && i != k ==> bs[i].addr != bs[k].addr
    ensures AllWithin(bs, z, None)
  {
    hide Known;
  }

  /** The size that fitting it to an end gives, and 0 for a function that is too large. */
  function Fitted(addr: nat, size: nat, e: nat): nat
  {
    var n := if e > addr + size then (e - addr) % 0x1_0000_0000 else size;
    if n <= MAX_FCN_SIZE then n else 0
  }

  function Fit(z: Sizing, b: Block): Sizing
  {
    z.(measured := z.measured + {Extent(b)})
  }

  /** The size is fitted to a block. */
  lemma SizesFit(w: World, bs: seq<Block>, k: nat, addr: nat, size: nat, z: Sizing)
    requires SizesRight(w, bs, addr, size, z, None) && k < |bs| && bs[k].addr in z.explored
    ensures SizesRight(w, bs, addr, Fitted(addr, size, bs[k].addr + bs[k].size), Fit(z, bs[k]), None)
  {
    hide SizeFits, LedOn, AllEnds, AllWithin, IsEnd, Known;
    var q := Fit(z, bs[k]);
    FitKnown(z, bs[k]);
    LastIsEnd(bs, k);
    AllEndsFewer(bs, z, q, None);
    AllWithinMore(bs, z, q, None);
    FitsMore(addr, size, z, bs[k]);
  }

  lemma FitKnown(z: Sizing, b: Block)
    ensures forall e: nat :: Known(Fit(z, b), e) <==> Known(z, e) || e == b.addr + b.size
  {
    var q, m := Fit(z, b), Extent(b);
    forall e: nat
      ensures Known(q, e) <==> Known(z, e) || e == m.1
    {
      assert m in q.measured && Pending(q, e) == Pending(z, e);
      assert Measured(q, e) <==> Measured(z, e) || e == m.1;
    }
  }

  lemma FitsMore(addr: nat, size: nat, z: Sizing, b: Block)
    requires SizeFits(addr, size, z) && size <= MAX_FCN_SIZE
    ensures SizeFits(addr, Fitted(addr, size, b.addr + b.size), Fit(z, b))
  {
    var q, m, e := Fit(z, b), Extent(b), b.addr + b.size;
    var n := Fitted(addr, size, e);
    assert m in q.measured && forall x :: x in z.measured ==> x in q.measured;
    if forall x :: x in q.measured ==> x.1 <= addr + MAX_FCN_SIZE {
      assert e <= addr + MAX_FCN_SIZE;
      if e > addr + size {
        assert n == e - addr && Measured(q, addr + n);
      } else {
        assert n == size;
        if size != 0 {
          var x :| x in z.measured && x.1 == addr + size;
          assert Measured(q, addr + size);
        }
      }
    }
  }

  /** The fitting is over; the end is left out if the block has been split since. */
  function Settled(z: Sizing, m: (nat, nat)): Sizing
  {
    z.(pending := z.pending - {m}, torn := if Measured(z, m.1) then z.torn else z.torn + {m.1})
  }

  lemma SizesSettle(w: World, bs: seq<Block>, addr: nat, size: nat, z: Sizing, m: (nat, nat))
    requires SizesRight(w, bs, addr, size, z, None) && m in z.pending && (Measured(z, m.1) || (LedOn(w, m.1) && MayTear(w)))
    ensures SizesRight(w, bs, addr, size, Settled(z, m), None)
  {
    hide SizeFits, LedOn, AllEnds, AllWithin, IsEnd, Known, Measured;
    var q := Settled(z, m);
    SettledKnown(z, m);
    AllEndsFewer(bs, z, q, None);
    AllWithinMore(bs, z, q, None);
    SameFits(addr, size, z, q);
  }

  lemma SettledKnown(z: Sizing, m: (nat, nat))
    requires m in z.pending
    ensures forall e: nat :: Known(Settled(z, m), e) <==> Known(z, e)
  {
    var q := Settled(z, m);
    forall e: nat
      ensures Known(q, e) <==> Known(z, e)
    {
      assert Measured(q, e) == Measured(z, e);
      assert Pending(z, m.1);
      if Pending(z, e) && e != m.1 {
        var y :| y in z.pending && y.1 == e;
        assert y in q.pending;
      }
      if Pending(q, e) {
        var y :| y in q.pending && y.1 == e;
        assert y in z.pending;
      }
    }
  }

  /** A new analysis starts from size 0. */
  function Restarted(bs: seq<Block>, z: Sizing): Sizing
  {
    Sizing(z.explored, {}, {}, {}, set b | b in bs :: b.addr + b.size)
  }

  lemma SizesRestart(w: World, bs: seq<Block>, addr: nat, size: nat, z: Sizing)
    requires SizesRight(w, bs, addr, size, z, None)
    ensures SizesRight(w, bs, addr, 0, Restarted(bs, z), None)
  {
    hide LedOn, AllEnds, AllWithin;
    RestartWithin(bs, z);
    RestartEnds(bs, z);
  }

  lemma RestartWithin(bs: seq<Block>, z: Sizing)
    ensures AllWithin(bs, Restarted(bs, z), None)
  {
    var q := Restarted(bs, z);
    forall i | 0 <= i < |bs|
      ensures Within(q, bs[i].addr + bs[i].size)
    {
      assert bs[i] in bs;
      assert Known(q, bs[i].addr + bs[i].size);
    }
  }

  lemma RestartEnds(bs: seq<Block>, z: Sizing)
    ensures AllEnds(bs, Restarted(bs, z), None)
  {
    var q := Restarted(bs, z);
    forall e: nat | Known(q, e)
      ensures IsEnd(bs, e, None)
    {
      assert e in q.prior;
      var b :| b in bs && b.addr + b.size == e;
      var i :| 0 <= i < |bs| && bs[i] == b;
    }
  }

  // ----- what the size is -----

  /** No block ends beyond the function's size. */
  predicate Spans(bs: seq<Block>, addr: nat, size: nat)
  {
    forall i :: 0 <= i < |bs| ==> bs[i].addr + bs[i].size <= addr + size
  }

  predicate AllSmall(bs: seq<Block>, addr: nat)
  {
    Spans(bs, addr, 0x4_0000)
  }

  lemma EndIsSmall(bs: seq<Block>, addr: nat, size: nat, e: nat)
    requires IsEnd(bs, e, None) && Spans(bs, addr, size)
    ensures e <= addr + size
  {
  }

  lemma IsMeasured(z: Sizing, m: (nat, nat))
    ensures m in z.measured ==> Measured(z, m.1)
  {
  }

  lemma MeasuredIsKnown(z: Sizing, e: nat)
    requires Measured(z, e)
    ensures Known(z, e)
  {
  }

  lemma SmallFits(bs: seq<Block>, addr: nat, size: nat, z: Sizing)
    requires AllEnds(bs, z, None) && SizeFits(addr, size, z) && AllSmall(bs, addr)
    ensures forall m :: m in z.measured ==> m.1 <= addr + size
    ensures size == 0 || IsEnd(bs, addr + size, None)
  {
    hide Known, IsEnd, Spans;
    forall m | m in z.measured
      ensures m.1 <= addr + MAX_FCN_SIZE
    {
      assert Measured(z, m.1);
      MeasuredIsKnown(z, m.1);
      EndIsSmall(bs, addr, MAX_FCN_SIZE, m.1);
    }
    if size != 0 {
      MeasuredIsKnown(z, addr + size);
    }
  }

  /** Within the largest size, no block ends beyond the function exactly when none does to
      which the size was not fitted, which is so under the options that fit it early; and
      some block ends at its end. */
  lemma SizeIsExact(w: World, bs: seq<Block>, addr: nat, size: nat, z: Sizing)
    requires SizesRight(w, bs, addr, size, z, None) && z.prior == {} && z.pending == {} && AllSmall(bs, addr)
    ensures Spans(bs, addr, size) <==> forall e :: e in z.torn ==> e <= addr + size
    ensures !MayTear(w) ==> Spans(bs, addr, size)
    ensures size == 0 || IsEnd(bs, addr + size, None)
  {
    hide LedOn, AllSmall, IsEnd, SizeFits, AllWithin, AllEnds;
    SmallFits(bs, addr, size, z);
    if forall e :: e in z.torn ==> e <= addr + size {
      TornReach(bs, addr, size, z);
    }
    if Spans(bs, addr, size) {
      forall e | e in z.torn
        ensures e <= addr + size
      {
        TornIsEnd(bs, z, e);
        EndIsSmall(bs, addr, size, e);
      }
    }
  }

  lemma TornIsEnd(bs: seq<Block>, z: Sizing, e: nat)
    requires AllEnds(bs, z, None) && e in z.torn
    ensures IsEnd(bs, e, None)
  {
    assert Known(z, e);
  }

  lemma TornReach(bs: seq<Block>, addr: nat, size: nat, z: Sizing)
    requires AllWithin(bs, z, None) && z.prior == {} && z.pending == {}
    requires forall m :: m in z.measured ==> m.1 <= addr + size
    requires forall e :: e in z.torn ==> e <= addr + size
    ensures Spans(bs, addr, size)
  {
    forall i | 0 <= i < |bs|
      ensures bs[i].addr + bs[i].size <= addr + size
    {
      var x := bs[i].addr + bs[i].size;
      assert Within(z, x);
      var e: nat :| x <= e && Known(z, e);
      assert !Pending(z, e);
      if Measured(z, e) {
        var m :| m in z.measured && m.1 == e;
      }
    }
  }

  /** So none does if the instruction that ends last has no targets. */
  lemma LastWithoutTargets(w: World, p: Past, bs: seq<Block>, addr: nat, size: nat, z: Sizing, x: nat)
    requires Finished(w, p, bs) && GaveUpNothing(p) && SizesRight(w, bs, addr, size, z, None)
    requires z.prior == {} && z.pending == {} && AllSmall(bs, addr)
    requires w.starts(x) && Covers(bs, x) && !HasTargets(w, x) && Ends(bs, x + w.code(x).size)
    ensures Spans(bs, addr, size)
  {
    hide AllSmall, IsEnd, SizeFits, AllWithin, AllEnds, Covers, Ends, LedOn, Traced;
    var end := x + w.code(x).size;
    SmallFits(bs, addr, size, z);
    LastIsKnown(w, p, bs, x, z);
    if end in z.torn {
      NothingBehind(w, p, bs, x);
    }
    assert Measured(z, end);
    var m :| m in z.measured && m.1 == end;
    EndsReach(bs, end, addr, size);
  }

  /** No block ends beyond the address. */
  predicate Ends(bs: seq<Block>, end: nat)
  {
    forall i :: 0 <= i < |bs| ==> bs[i].addr + bs[i].size <= end
  }

  lemma EndsReach(bs: seq<Block>, end: nat, addr: nat, size: nat)
    requires Ends(bs, end) && end <= addr + size
    ensures Spans(bs, addr, size)
  {
  }

  lemma LastIsKnown(w: World, p: Past, bs: seq<Block>, x: nat, z: Sizing)
    requires Finished(w, p, bs) && w.starts(x) && Covers(bs, x) && Ends(bs, x + w.code(x).size)
    requires AllWithin(bs, z, None) && AllEnds(bs, z, None)
    ensures Known(z, x + w.code(x).size)
  {
    hide Finished, Known, Covers, Within, IsEnd;
    var end := x + w.code(x).size;
    var k, i := PlaceOf(w, p, bs, x);
    assert bs[k].addr + bs[k].size == end;
    assert Within(z, end);
    WithinIsKnown(bs, z, end);
  }

  lemma WithinIsKnown(bs: seq<Block>, z: Sizing, end: nat)
    requires Within(z, end) && AllEnds(bs, z, None) && Ends(bs, end)
    ensures Known(z, end)
  {
    hide Known;
    var e: nat :| end <= e && Known(z, e);
    assert IsEnd(bs, e, None);
  }

  /** The flow does not lead on from the instruction that ends last. */
  lemma NothingBehind(w: World, p: Past, bs: seq<Block>, x: nat)
    requires Finished(w, p, bs) && GaveUpNothing(p) && w.starts(x) && Covers(bs, x) && !HasTargets(w, x)
    requires Ends(bs, x + w.code(x).size)
    ensures !LedOn(w, x + w.code(x).size)
  {
    hide Sound, Traced, Covers, GaveUpNothing;
    var end := x + w.code(x).size;
    if LedOn(w, end) {
      var a: nat :| EndsInstruction(w, a, end) && (HasTargets(w, a) || (!MustEnd(w.code(a).kind) && Walkable(w, end)));
      OneInstructionEnds(w, p, bs, a, x);
      NextIsCovered(w, p, bs, x);
      NoneCovers(bs, end);
    }
  }

  lemma NoneCovers(bs: seq<Block>, end: nat)
    requires Ends(bs, end)
    ensures !Covers(bs, end)
  {
  }

  lemma OneInstructionEnds(w: World, p: Past, bs: seq<Block>, a: nat, x: nat)
    requires Finished(w, p, bs) && w.starts(x) && Covers(bs, x) && EndsInstruction(w, a, x + w.code(x).size)
    ensures a == x
  {
    hide Sound, Traced;
    var k, i := PlaceOf(w, p, bs, x);
  }
}
