/** Block lists of a function: blocks stop where the flow of control does, and their
    edges have been followed. */
module FcnTraces {
  import opened Wrappers
  import opened BasicBlocks
  import opened FcnBlocks

  // ----- the ends of blocks -----

  /** The instruction always ends a walk. */
  predicate MustEnd(k: Kind)
  {
    match k
    case Illegal => true
    case Trap => true
    case Jump(_, _, _, _) => true
    case Branch(_, _) => true
    case Call(noReturn) => noReturn
    case IndirectJump => true
    case Return(conditional) => !conditional
    case _ => false
  }

  function KindAt(code: Code, b: Block, i: nat): Kind
  {
    code(After(code, b.addr, i)).kind
  }

  function LastKind(code: Code, b: Block): Kind
    requires b.ninstr > 0
  {
    KindAt(code, b, b.ninstr - 1)
  }

  /** The code, where walks must stop, which addresses cannot be followed, which jumps are
      recorded as edges, and which targets an instruction has; whether a return goes to an
      address pushed right before it; whether edges that lead to the next instruction are
      never overwritten; whether branches never get a second edge, and which may lose it. */
  datatype World = World(code: Code, starts: nat -> bool, stops: nat -> bool, refused: nat -> bool,
                         jumps: Kind -> bool, follows: Kind -> set<nat>, pushes: bool, falls: bool,
                         early: bool, back: Kind -> bool)

  /** The block's return goes to the address that the instruction before it pushes. */
  predicate Pushed(w: World, b: Block, i: nat)
    requires i < b.ninstr
  {
    w.pushes && i > 0 && KindAt(w.code, b, i).Return? && KindAt(w.code, b, i - 1).Push?
  }

  /** The walk along the block stops at its i-th instruction. */
  predicate StopsAt(w: World, b: Block, i: nat)
    requires i < b.ninstr
  {
    MustEnd(KindAt(w.code, b, i)) || Pushed(w, b, i)
  }

  /** No instruction but the last one ends the flow, and walks may stand at all of them. */
  predicate Straight(w: World, b: Block)
  {
    forall i :: 0 <= i < b.ninstr ==> !w.stops(After(w.code, b.addr, i)) && (i < b.ninstr - 1 ==> !StopsAt(w, b, i))
  }

  /** The last instruction of the block, if any, lets the flow go on. */
  predicate Flowing(w: World, b: Block)
  {
    b.ninstr > 0 ==> !StopsAt(w, b, b.ninstr - 1)
  }

  /** An address is pushed right before this one. */
  ghost predicate AfterPush(w: World, x: nat)
  {
    exists a: nat :: w.starts(a) && w.code(a).kind.Push? && a + w.code(a).size == x
  }

  /** A walk may stop at the instruction: always, or if it is a return right behind a push,
      where returns go to pushed addresses. */
  ghost predicate MayEndAt(w: World, x: nat)
  {
    MustEnd(w.code(x).kind) || (w.pushes && w.code(x).kind.Return? && AfterPush(w, x))
  }

  ghost predicate LastEnds(w: World, b: Block)
  {
    b.ninstr > 0 && MayEndAt(w, After(w.code, b.addr, b.ninstr - 1))
  }

  /** A walk that read `len` bytes from `from` and had fewer than five left at `end`. */
  datatype Cut = Cut(from: nat, len: nat, end: nat)

  /** What happened so far: where the bytes of a walk ran out, which targets are about to
      be followed, and which were given up because the depth ran out or the function grew
      too large; where the program was told to start; and what bounds it: the addresses
      that may be targets, and the least number of bytes that any walk may have. */
  datatype Past = Past(cuts: set<Cut>, open: set<nat>, deep: set<nat>, large: set<nat>, entries: set<nat>,
                       goals: nat -> bool, least: nat)

  predicate CutAt(p: Past, end: nat)
  {
    exists c :: c in p.cuts && c.end == end
  }

  /** The edges of a block whose last instruction lets the flow go on: it leads to the next
      instruction, unless the walk could not go on there. */
  predicate FallsRight(w: World, p: Past, b: Block)
  {
    var end := b.addr + b.size;
    && b.fail == None
    && (b.jump == Some(end) || (b.jump == None && (!Decodes(w.code(end)) || w.stops(end) || CutAt(p, end))))
  }

  /** The edges are the targets of the last instruction. A return leads to the address
      that is pushed before it in the same block, and may lead to one pushed before. */
  predicate EdgesRight(w: World, p: Past, b: Block)
  {
    if Flowing(w, b) then b.fail == None && (w.falls ==> FallsRight(w, p, b))
    else
      match LastKind(w.code, b)
      case Branch(jump, fail) => b.jump == jump && SecondRight(w, LastKind(w.code, b), b.fail)
      case Jump(to, _, _, _) => b.jump == (if w.jumps(LastKind(w.code, b)) then to else None) && b.fail == None
      case Return(_) =>
        && b.fail == None && (w.falls ==> b.jump == None)
        && (Pushed(w, b, b.ninstr - 1) ==> b.jump == Some(KindAt(w.code, b, b.ninstr - 2).v))
      case _ => b.jump == None && b.fail == None
  }

  /** The second edge of a branch is its second target, unless branches have none, or it
      was taken back. */
  predicate SecondRight(w: World, kind: Kind, fail: Option<nat>)
    requires kind.Branch?
  {
    if w.early then fail == None else fail == kind.fail || (w.back(kind) && fail == None)
  }

  /** A block ends at an instruction that ends the flow, or where another block starts,
      or where the walk could not go on. */
  ghost predicate Ended(w: World, p: Past, bs: seq<Block>, b: Block)
  {
    var end := b.addr + b.size;
    || LastEnds(w, b) || (b.size > 0 && HasStart(bs, end))
    || !Decodes(w.code(end)) || w.stops(end) || CutAt(p, end)
  }

  /** A block starts at the address, or it cannot be followed, is about to be, or was given
      up. */
  predicate Reaches(w: World, p: Past, bs: seq<Block>, t: nat)
  {
    HasStart(bs, t) || w.refused(t) || t in p.open || t in p.deep || t in p.large
  }

  predicate Leads(w: World, p: Past, bs: seq<Block>, target: Option<nat>)
  {
    target.Some? ==> Reaches(w, p, bs, target.value)
  }

  /** The address that the block's last instruction, a return, goes to. */
  function PushedInside(w: World, b: Block): Option<nat>
  {
    if b.ninstr > 0 && Pushed(w, b, b.ninstr - 1) then Some(KindAt(w.code, b, b.ninstr - 2).v) else None
  }

  /** The address that the block's last instruction pushes and the return behind it goes to. */
  function PushedBehind(w: World, b: Block): Option<nat>
  {
    var end := b.addr + b.size;
    if b.ninstr > 0 && w.pushes && LastKind(w.code, b).Push? && w.code(end).kind.Return? && !w.stops(end) then
      Some(LastKind(w.code, b).v)
    else None
  }

  /** All targets of the instruction that ends the block are reached, and so are pushed
      addresses, unless the bytes ran out before the return. */
  predicate TargetsLead(w: World, p: Past, bs: seq<Block>, b: Block)
  {
    && (!Flowing(w, b) ==> forall t :: t in w.follows(LastKind(w.code, b)) ==> Reaches(w, p, bs, t))
    && Leads(w, p, bs, PushedInside(w, b))
    && (Leads(w, p, bs, PushedBehind(w, b)) || CutAt(p, b.addr + b.size))
  }

  ghost predicate Closed(w: World, p: Past, bs: seq<Block>, b: Block)
  {
    Ended(w, p, bs, b) && EdgesRight(w, p, b) && TargetsLead(w, p, bs, b)
  }

  /** What holds of a block; the one at `skip` is still growing. */
  ghost predicate BlockTraced(w: World, p: Past, bs: seq<Block>, b: Block, skip: Option<nat>)
  {
    && Straight(w, b) && (skip == Some(b.addr) || Closed(w, p, bs, b))
    && Leads(w, p, bs, b.jump) && Leads(w, p, bs, b.fail)
  }

  /** All entries were followed. */
  predicate EntriesFound(w: World, p: Past, bs: seq<Block>)
  {
    forall e :: e in p.entries ==> Reaches(w, p, bs, e)
  }

  ghost predicate Traced(w: World, p: Past, bs: seq<Block>, skip: Option<nat>)
  {
    EntriesFound(w, p, bs) && forall i :: 0 <= i < |bs| ==> BlockTraced(w, p, bs, bs[i], skip)
  }

  ghost predicate Later(p: Past, q: Past)
  {
    p.cuts <= q.cuts && p.deep <= q.deep && p.large <= q.large && q.entries == p.entries && q.goals == p.goals && q.least == p.least
  }

  /** Every target that was about to be followed has been. */
  predicate Settles(w: World, p: Past, q: Past, bs: seq<Block>)
  {
    forall t :: t in p.open ==> Reaches(w, q, bs, t)
  }

  lemma BlockStays(w: World, p: Past, q: Past, was: seq<Block>, now: seq<Block>, b: Block, skip: Option<nat>)
    requires BlockTraced(w, p, was, b, skip) && Later(p, q) && Settles(w, p, q, now) && Extends(was, now)
    ensures BlockTraced(w, q, now, b, skip)
  {
  }

  lemma EntriesStay(w: World, p: Past, q: Past, was: seq<Block>, now: seq<Block>)
    requires EntriesFound(w, p, was) && Later(p, q) && Settles(w, p, q, now) && Extends(was, now)
    ensures EntriesFound(w, q, now)
  {
    forall e | e in q.entries
      ensures Reaches(w, q, now, e)
    {
      assert Reaches(w, p, was, e);
    }
  }

  /** A list whose blocks were all there before, up to order. */
  lemma TracedStays(w: World, p: Past, q: Past, was: seq<Block>, now: seq<Block>, skip: Option<nat>)
    requires Traced(w, p, was, skip) && Later(p, q) && Settles(w, p, q, now) && Extends(was, now)
    requires forall i :: 0 <= i < |now| ==> now[i] in was
    ensures Traced(w, q, now, skip)
  {
    EntriesStay(w, p, q, was, now);
    forall i | 0 <= i < |now|
      ensures BlockTraced(w, q, now, now[i], skip)
    {
      var k :| 0 <= k < |was| && was[k] == now[i];
      BlockStays(w, p, q, was, now, now[i], skip);
    }
  }

  lemma TracedAppend(w: World, p: Past, bs: seq<Block>, a: nat)
    requires Traced(w, p, bs, None) && Extends(bs, bs + [NewBlock(a)])
    ensures Traced(w, p, bs + [NewBlock(a)], Some(a))
  {
    var now := bs + [NewBlock(a)];
    EntriesStay(w, p, p, bs, now);
    forall i | 0 <= i < |now|
      ensures BlockTraced(w, p, now, now[i], Some(a))
    {
      if i < |bs| {
        assert BlockTraced(w, p, bs, bs[i], None);
        BlockStays(w, p, p, bs, now, bs[i], None);
      }
    }
  }

  /** Replacing one block by another that is traced. */
  lemma TracedUpdate(w: World, p: Past, q: Past, bs: seq<Block>, k: nat, b: Block, skip: Option<nat>)
    requires Traced(w, p, bs, skip) && k < |bs| && Extends(bs, bs[k := b]) && Later(p, q) && Settles(w, p, q, bs[k := b])
    requires BlockTraced(w, q, bs[k := b], b, skip)
    ensures Traced(w, q, bs[k := b], skip)
  {
    var now := bs[k := b];
    EntriesStay(w, p, q, bs, now);
    forall i | 0 <= i < |now|
      ensures BlockTraced(w, q, now, now[i], skip)
    {
      if i != k {
        BlockStays(w, p, q, bs, now, bs[i], skip);
      }
    }
  }

  /** An instruction is added behind one that lets the flow go on. */
  lemma TracedGrow(w: World, p: Past, bs: seq<Block>, k: nat, size: nat)
    requires k < |bs| && Traced(w, p, bs, Some(bs[k].addr)) && bs[k].size < 0x1_0000
    requires Flowing(w, bs[k]) && !w.stops(After(w.code, bs[k].addr, bs[k].ninstr))
    requires Extends(bs, bs[k := Grown(bs[k], size)])
    ensures Traced(w, p, bs[k := Grown(bs[k], size)], Some(bs[k].addr))
  {
    var b, g := bs[k], Grown(bs[k], size);
    assert BlockTraced(w, p, bs, b, Some(b.addr));
    BlockStays(w, p, p, bs, bs[k := g], b, Some(b.addr));
    GrownStraight(w, b, size);
    TracedUpdate(w, p, p, bs, k, g, Some(b.addr));
  }

  lemma GrownStraight(w: World, b: Block, size: nat)
    requires Straight(w, b) && Flowing(w, b) && !w.stops(After(w.code, b.addr, b.ninstr)) && b.size < 0x1_0000
    ensures Straight(w, Grown(b, size))
  {
    var g := Grown(b, size);
    forall i | 0 <= i < g.ninstr
      ensures !w.stops(After(w.code, g.addr, i)) && (i < g.ninstr - 1 ==> !StopsAt(w, g, i))
    {
      if i < b.ninstr {
        assert !w.stops(After(w.code, b.addr, i)) && !StopsAt(w, b, i);
      }
    }
  }

  lemma TracedEdges(w: World, p: Past, bs: seq<Block>, k: nat, jump: Option<nat>, fail: Option<nat>, skip: Option<nat>)
    requires Traced(w, p, bs, skip) && k < |bs|
    requires Leads(w, p, bs, jump) && Leads(w, p, bs, fail)
    requires skip == Some(bs[k].addr) || EdgesRight(w, p, bs[k].(jump := jump, fail := fail))
    requires Extends(bs, bs[k := bs[k].(jump := jump, fail := fail)])
    ensures Traced(w, p, bs[k := bs[k].(jump := jump, fail := fail)], skip)
  {
    var b := bs[k].(jump := jump, fail := fail);
    assert BlockTraced(w, p, bs, bs[k], skip);
    BlockStays(w, p, p, bs, bs[k := b], bs[k], skip);
    TracedUpdate(w, p, p, bs, k, b, skip);
  }

  /** Both halves of a split block: the first one leads to the second, which ends like
      the whole. */
  lemma TracedSplit(w: World, p: Past, bs: seq<Block>, k: nat, first: Block, second: Block)
    requires Traced(w, p, bs, None) && k < |bs| && Extends(bs, bs[k := first] + [second])
    requires Decoded(w.code, w.starts, first) && Decoded(w.code, w.starts, second) && Decoded(w.code, w.starts, bs[k])
    requires first.addr == bs[k].addr && first.addr + first.size == second.addr && first.size > 0
    requires second.addr + second.size == bs[k].addr + bs[k].size && first.ninstr + second.ninstr == bs[k].ninstr
    requires first.jump == Some(second.addr) && first.fail == None && second.jump == bs[k].jump && second.fail == bs[k].fail
    requires second.ninstr > 0 && second.size > 0 && (w.pushes ==> !w.falls)
    ensures Traced(w, p, bs[k := first] + [second], None)
  {
    var b, now := bs[k], bs[k := first] + [second];
    assert now[|bs|] == second && HasStart(now, second.addr);
    assert BlockTraced(w, p, bs, b, None);
    BlockStays(w, p, p, bs, now, b, None);
    HalvesStraight(w, b, first, second);
    HalvesEdges(w, p, now, b, first, second);
    HalvesTraced(w, p, now, b, first, second);
    EntriesStay(w, p, p, bs, now);
    hide BlockTraced, Extends, Decoded;
    forall i | 0 <= i < |now|
      ensures BlockTraced(w, p, now, now[i], None)
    {
      if i < |bs| && i != k {
        BlockStays(w, p, p, bs, now, bs[i], None);
      }
    }
  }

  lemma HalvesTraced(w: World, p: Past, now: seq<Block>, b: Block, first: Block, second: Block)
    requires BlockTraced(w, p, now, b, None) && HasStart(now, second.addr)
    requires Straight(w, first) && Straight(w, second) && LastEnds(w, second) == LastEnds(w, b)
    requires EdgesRight(w, p, first) && EdgesRight(w, p, second) && TargetsLead(w, p, now, first) && TargetsLead(w, p, now, second)
    requires first.addr + first.size == second.addr && first.size > 0 && second.size > 0
    requires second.addr + second.size == b.addr + b.size
    requires first.jump == Some(second.addr) && first.fail == None && second.jump == b.jump && second.fail == b.fail
    ensures BlockTraced(w, p, now, first, None) && BlockTraced(w, p, now, second, None)
  {
    hide Straight, LastEnds, HasStart, Decodes, EdgesRight, TargetsLead;
  }

  /** The second half has the last instructions of the whole. */
  lemma HalvesKinds(w: World, b: Block, first: Block, second: Block)
    requires first.addr == b.addr && second.addr == After(w.code, b.addr, first.ninstr)
    requires first.ninstr + second.ninstr == b.ninstr
    ensures forall i: nat :: i < first.ninstr ==> KindAt(w.code, first, i) == KindAt(w.code, b, i)
    ensures forall i: nat :: i < second.ninstr ==>
              After(w.code, second.addr, i) == After(w.code, b.addr, first.ninstr + i)
              && KindAt(w.code, second, i) == KindAt(w.code, b, first.ninstr + i)
  {
    forall i: nat | i < second.ninstr
      ensures After(w.code, second.addr, i) == After(w.code, b.addr, first.ninstr + i)
    {
      AfterSum(w.code, b.addr, first.ninstr, i);
    }
  }

  lemma HalvesEdges(w: World, p: Past, bs: seq<Block>, b: Block, first: Block, second: Block)
    requires Straight(w, b) && EdgesRight(w, p, b) && TargetsLead(w, p, bs, b) && (w.pushes ==> !w.falls)
    requires first.addr == b.addr && second.addr == After(w.code, b.addr, first.ninstr)
    requires first.addr + first.size == second.addr && second.addr + second.size == b.addr + b.size
    requires first.ninstr + second.ninstr == b.ninstr && second.ninstr > 0 && second.jump == b.jump && second.fail == b.fail
    requires first.jump == Some(second.addr) && first.fail == None
    ensures EdgesRight(w, p, first) && EdgesRight(w, p, second) && TargetsLead(w, p, bs, first) && TargetsLead(w, p, bs, second)
  {
    hide CutAt, Decodes, Reaches, MustEnd, After;
    HalvesKinds(w, b, first, second);
    var n := b.ninstr;
    assert LastKind(w.code, second) == LastKind(w.code, b);
    assert FallsRight(w, p, first) && Flowing(w, first);
    assert FallsRight(w, p, second) == FallsRight(w, p, b);
    if second.ninstr > 1 {
      assert KindAt(w.code, second, second.ninstr - 2) == KindAt(w.code, b, n - 2);
    }
    if first.ninstr > 0 {
      assert second.addr == After(w.code, b.addr, first.ninstr);
      assert PushedBehind(w, first).Some? ==> Pushed(w, b, first.ninstr);
      assert first.ninstr < n - 1 ==> !StopsAt(w, b, first.ninstr);
      assert PushedBehind(w, first).Some? ==> PushedInside(w, b) == PushedBehind(w, first);
    }
    assert PushedInside(w, first) == None;
    assert PushedBehind(w, second) == PushedBehind(w, b);
  }

  lemma LastStops(w: World, b: Block, c: Block)
    requires Straight(w, c) && b.addr == c.addr && !Flowing(w, b)
    ensures b.ninstr >= c.ninstr
  {
  }

  /** Two blocks from the same start that both end at an instruction that ends the flow
      are equally long. */
  lemma SameLast(w: World, b: Block, c: Block)
    requires Straight(w, b) && Straight(w, c) && b.addr == c.addr && !Flowing(w, b) && !Flowing(w, c)
    ensures b.ninstr == c.ninstr
  {
    LastStops(w, b, c);
    LastStops(w, c, b);
  }

  lemma HalvesStraight(w: World, b: Block, first: Block, second: Block)
    requires Straight(w, b) && second.addr == After(w.code, b.addr, first.ninstr)
    requires first.addr == b.addr && first.ninstr + second.ninstr == b.ninstr && second.ninstr > 0
    ensures Straight(w, first) && Straight(w, second) && LastEnds(w, second) == LastEnds(w, b)
  {
    hide After, MustEnd, MayEndAt;
    var k := first.ninstr;
    HalvesKinds(w, b, first, second);
    forall i | 0 <= i < first.ninstr
      ensures !w.stops(After(w.code, first.addr, i)) && (i < first.ninstr - 1 ==> !StopsAt(w, first, i))
    {
      assert !w.stops(After(w.code, b.addr, i)) && !StopsAt(w, b, i);
    }
    forall i | 0 <= i < second.ninstr
      ensures !w.stops(After(w.code, second.addr, i)) && (i < second.ninstr - 1 ==> !StopsAt(w, second, i))
    {
      assert !w.stops(After(w.code, b.addr, k + i)) && (k + i < b.ninstr - 1 ==> !StopsAt(w, b, k + i));
      assert i > 0 ==> KindAt(w.code, second, i - 1) == KindAt(w.code, b, k + (i - 1));
    }
  }
}
