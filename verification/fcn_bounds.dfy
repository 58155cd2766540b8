/** What limits the recursion over a function's code, and when it does not matter. */
module FcnBounds {
  import opened BasicBlocks
  import opened FcnBlocks
  import opened FcnTraces
  import opened FcnFlow

  /** The largest block that is read at once. */
  const MAXBBSIZE: nat := 16 * 1024

  const MAX_FCN_SIZE: nat := 1024 * 256

  const FCN_DEPTH: int := 512

  // ----- targets -----

  /** Wherever an instruction from the given addresses leads is a goal; with `pushes` also
      where a return after a push does. */
  ghost predicate Aimed(code: Code, starts: nat -> bool, goals: nat -> bool, pushes: bool)
  {
    && (forall g: nat :: goals(g) ==> starts(g))
    && forall a: nat :: starts(a) && Decodes(code(a)) ==>
         TargetsIn(code(a), goals) && (pushes ==> PushIn(code, a, goals))
  }

  /** An address pushed right before a return. */
  predicate PushIn(code: Code, a: nat, goals: nat -> bool)
  {
    code(a).kind.Push? && code(a + code(a).size).kind.Return? ==> goals(code(a).kind.v)
  }

  /** A goal that the flow comes to. */
  ghost predicate Arrived(w: World, p: Past, a: nat)
  {
    p.goals(a) && Came(w, p.entries, a)
  }

  /** Blocks start at such addresses only. */
  ghost predicate StartsIn(w: World, bs: seq<Block>, p: Past)
  {
    forall i :: 0 <= i < |bs| ==> Arrived(w, p, bs[i].addr)
  }

  // ----- walks that ran out -----

  /** The first n instructions decode and let the flow go on. */
  predicate PlainRun(code: Code, a: nat, n: nat)
  {
    Runs(code, a, n) && forall i :: 0 <= i < n ==> !MustEnd(code(After(code, a, i)).kind)
  }

  /** So many instructions use up what was read, but for fewer than five bytes. */
  predicate UsesUp(code: Code, a: nat, n: nat, len: nat)
  {
    PlainRun(code, a, n) && After(code, a, n) + 5 > a + len
  }

  ghost predicate LongRun(code: Code, a: nat, len: nat)
  {
    exists n: nat :: UsesUp(code, a, n, len)
  }

  ghost predicate CutRight(code: Code, p: Past, c: Cut)
  {
    && p.goals(c.from) && p.least <= c.len
    && exists n: nat :: UsesUp(code, c.from, n, c.len) && c.end == After(code, c.from, n)
  }

  // ----- functions that grew too large -----

  predicate ReachesTo(bs: seq<Block>, x: nat)
  {
    HasStart(bs, x) || (x > 0 && Covers(bs, x - 1))
  }

  /** The function reaches further than its entry and the largest size. */
  ghost predicate Far(starts: nat -> bool, addr: nat, bs: seq<Block>)
  {
    exists x: nat :: x > addr + MAX_FCN_SIZE && starts(x) && ReachesTo(bs, x)
  }

  /** All that was given up is accounted for. */
  ghost predicate Accounted(w: World, addr: nat, bs: seq<Block>, p: Past)
  {
    && StartsIn(w, bs, p) && (forall e :: e in p.entries ==> p.goals(e)) && p.least <= MAXBBSIZE
    && (forall c :: c in p.cuts ==> CutRight(w.code, p, c))
    && (p.deep != {} ==> |bs| >= FCN_DEPTH)
    && (p.large != {} ==> Far(w.starts, addr, bs))
  }

  lemma AccountedStays(w: World, addr: nat, was: seq<Block>, now: seq<Block>, p: Past)
    requires Accounted(w, addr, was, p) && Extends(was, now) && |was| <= |now| && StartsIn(w, now, p)
    ensures Accounted(w, addr, now, p)
  {
    if p.large != {} {
      var x: nat :| x > addr + MAX_FCN_SIZE && w.starts(x) && ReachesTo(was, x);
      assert ReachesTo(now, x);
    }
  }

  lemma AccountedUpdate(w: World, addr: nat, bs: seq<Block>, k: nat, b: Block, p: Past)
    requires Accounted(w, addr, bs, p) && k < |bs| && b.addr == bs[k].addr && Extends(bs, bs[k := b])
    ensures Accounted(w, addr, bs[k := b], p)
  {
    AccountedStays(w, addr, bs, bs[k := b], p);
  }

  lemma AccountedAppend(w: World, addr: nat, bs: seq<Block>, b: Block, p: Past)
    requires Accounted(w, addr, bs, p) && Arrived(w, p, b.addr) && Extends(bs, bs + [b])
    ensures Accounted(w, addr, bs + [b], p)
  {
    AccountedStays(w, addr, bs, bs + [b], p);
  }

  lemma AccountedSplit(w: World, addr: nat, bs: seq<Block>, k: nat, first: Block, second: Block, p: Past)
    requires Accounted(w, addr, bs, p) && k < |bs| && first.addr == bs[k].addr && Arrived(w, p, second.addr)
    requires Extends(bs, bs[k := first] + [second])
    ensures Accounted(w, addr, bs[k := first] + [second], p)
  {
    AccountedStays(w, addr, bs, bs[k := first] + [second], p);
  }

  /** A walk that has fewer than five bytes left. */
  lemma CutIsRight(w: World, p: Past, b: Block, len: nat)
    requires Decoded(w.code, w.starts, b) && Straight(w, b) && Flowing(w, b) && p.goals(b.addr)
    requires b.size + 5 > len >= p.least
    ensures CutRight(w.code, p, Cut(b.addr, len, b.addr + b.size))
  {
    forall i | 0 <= i < b.ninstr
      ensures !MustEnd(w.code(After(w.code, b.addr, i)).kind)
    {
      assert !StopsAt(w, b, i);
    }
    assert UsesUp(w.code, b.addr, b.ninstr, len);
  }

  /** A block that ends too far away. */
  lemma FarBlock(code: Code, starts: nat -> bool, addr: nat, bs: seq<Block>, k: nat)
    requires Consistent(code, starts) && Sound(code, starts, bs) && k < |bs| && bs[k].addr + bs[k].size > addr + MAX_FCN_SIZE
    ensures Far(starts, addr, bs)
  {
    var x := bs[k].addr + bs[k].size;
    EndIsStart(code, starts, bs[k]);
    if bs[k].size == 0 {
      assert HasStart(bs, x);
    } else {
      assert InBlock(bs[k], x - 1);
    }
    assert ReachesTo(bs, x);
  }

  // ----- when nothing is given up -----

  /** Code that the limits do not touch: there are fewer targets than levels of recursion,
      no run of instructions from a target is longer than what is read, and all code lies
      within the largest size of a function. */
  ghost predicate Manageable(code: Code, starts: nat -> bool, addr: nat, p: Past, targets: set<nat>)
  {
    && |targets| < 512 && (forall g: nat :: p.goals(g) ==> g in targets)
    && (forall g: nat :: p.goals(g) ==> !LongRun(code, g, p.least))
    && (forall x: nat :: starts(x) ==> x <= addr + 0x4_0000)
  }

  lemma {:induction false} DistinctStarts(bs: seq<Block>, targets: set<nat>)
    requires Disjoint(bs) && forall i :: 0 <= i < |bs| ==> bs[i].addr in targets
    ensures |bs| <= |targets|
  {
    if bs != [] {
      var n := |bs| - 1;
      var front, rest := bs[..n], targets - {bs[n].addr};
      forall i, j | 0 <= i < n && 0 <= j < n && i != j
        ensures Apart(front[i], front[j])
      {
        assert Apart(bs[i], bs[j]);
      }
      forall i | 0 <= i < n
        ensures front[i].addr in rest
      {
        assert Apart(bs[i], bs[n]);
      }
      DistinctStarts(front, rest);
    }
  }

  lemma CutIsLong(code: Code, p: Past, c: Cut)
    requires CutRight(code, p, c)
    ensures p.goals(c.from) && LongRun(code, c.from, p.least)
  {
    var n: nat :| UsesUp(code, c.from, n, c.len) && c.end == After(code, c.from, n);
    assert UsesUp(code, c.from, n, p.least);
  }

  lemma NothingIsGivenUp(w: World, addr: nat, bs: seq<Block>, p: Past, targets: set<nat>)
    requires Sound(w.code, w.starts, bs) && Accounted(w, addr, bs, p) && p.open == {}
    requires Manageable(w.code, w.starts, addr, p, targets)
    ensures GaveUpNothing(p)
  {
    forall i | 0 <= i < |bs|
      ensures bs[i].addr in targets
    {
      assert Arrived(w, p, bs[i].addr);
    }
    DistinctStarts(bs, targets);
    if p.cuts != {} {
      var c :| c in p.cuts;
      CutIsLong(w.code, p, c);
    }
  }

  // ----- blocks already found -----

  /** Another block starts inside this one's range. */
  predicate WasSplit(b: Block, now: seq<Block>)
  {
    exists i :: 0 <= i < |now| && b.addr < now[i].addr < b.addr + b.size
  }

  /** Blocks are only ever split. */
  predicate Preserves(was: seq<Block>, now: seq<Block>)
  {
    forall b :: b in was ==> b in now || WasSplit(b, now)
  }

  lemma PreservesTrans(a: seq<Block>, b: seq<Block>, c: seq<Block>)
    requires Preserves(a, b) && Preserves(b, c) && Extends(b, c)
    ensures Preserves(a, c)
  {
    forall x | x in a
      ensures x in c || WasSplit(x, c)
    {
      if x !in b {
        var i :| 0 <= i < |b| && x.addr < b[i].addr < x.addr + x.size;
        assert HasStart(b, b[i].addr);
        var j :| 0 <= j < |c| && c[j].addr == b[i].addr;
      }
    }
  }

  lemma SplitPreservesOthers(bs: seq<Block>, k: nat, first: Block, second: Block)
    requires k < |bs| && bs[k].addr < second.addr < bs[k].addr + bs[k].size
    ensures Preserves(bs, bs[k := first] + [second])
  {
    var now := bs[k := first] + [second];
    assert now[|bs|] == second;
    forall b | b in bs
      ensures b in now || WasSplit(b, now)
    {
      var i :| 0 <= i < |bs| && bs[i] == b;
      if i != k {
        assert now[i] == b;
      }
    }
  }
}
