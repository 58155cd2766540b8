/** Inputs on which the recursion loses edges or flow, for all options that allow it. */
module FcnLost {
  import opened Wrappers
  import opened BasicBlocks
  import opened FcnBlocks
  import opened FcnTraces
  import opened FcnFlow
  import opened FcnBounds
  import opened FcnSizes
  import opened FcnRecurse

  // ----- short code -----

  /** Instructions of four bytes between 4 and 24. */
  predicate Aligned(a: nat)
  {
    a == 4 || a == 8 || a == 12 || a == 16 || a == 20 || a == 24
  }

  /** Code that ends before address 24. */
  ghost predicate Short(code: Code)
  {
    Consistent(code, Aligned) && !Decodes(code(24))
  }

  lemma NoLongRun(code: Code, a: nat, len: nat)
    requires Short(code) && Aligned(a) && len > 32
    ensures !LongRun(code, a, len)
  {
    forall n: nat
      ensures !UsesUp(code, a, n, len)
    {
      if Runs(code, a, n) {
        RunStarts(code, Aligned, a, n);
      }
    }
  }

  lemma ShortIsManageable(code: Code, addr: nat, p: Past)
    requires Short(code) && (forall g: nat :: p.goals(g) ==> Aligned(g)) && p.least > 32
    ensures Manageable(code, Aligned, addr, p, {4, 8, 12, 16, 20, 24})
  {
    forall g: nat | p.goals(g)
      ensures !LongRun(code, g, p.least)
    {
      NoLongRun(code, g, p.least);
    }
  }

  /** The block between two neighbouring starts. */
  lemma BlockBetween(w: World, p: Past, bs: seq<Block>, a: nat) returns (k: nat)
    requires Finished(w, p, bs) && GaveUpNothing(p) && w.starts == Aligned && Aligned(a) && Walkable(w, a)
    requires HasStart(bs, a) && HasStart(bs, a + 4) && w.code(a).size == 4 && !MustEnd(w.code(a).kind)
    ensures k < |bs| && bs[k].addr == a && bs[k].size == 4 && Flowing(w, bs[k])
  {
    hide GaveUpNothing, Traced, Decodes, MustEnd, Shape, OffsetsRight;
    StartIsCovered(w, p, bs, a);
    k :| 0 <= k < |bs| && bs[k].addr == a;
    var j :| 0 <= j < |bs| && InBlock(bs[j], a);
    var i :| 0 <= i < |bs| && bs[i].addr == a + 4;
    assert Apart(bs[k], bs[i]);
    BlocksApart(bs, j, k);
    OneInstruction(w.code, w.starts, bs[k]);
  }

  lemma BlocksApart(bs: seq<Block>, i: nat, j: nat)
    requires Disjoint(bs) && i < |bs| && j < |bs|
    ensures i == j || Apart(bs[i], bs[j])
  {
  }

  lemma OneInstruction(code: Code, starts: nat -> bool, b: Block)
    requires Consistent(code, starts) && Decoded(code, starts, b) && 0 < b.size <= 4 && code(b.addr).size == 4
    ensures b.size == 4 && b.ninstr == 1
  {
    if b.ninstr > 1 {
      AfterGrows(code, starts, b.addr, 1, b.ninstr);
    }
    assert After(code, b.addr, 1) == b.addr + 4 by {
      assert After(code, b.addr, 0) == b.addr;
    }
  }

  // ----- a branch back before the function -----

  function BranchCode(a: nat): Op
  {
    if a == 4 then Op(4, Jump(Some(12), Some(8), false, false))
    else if a == 8 || a == 12 then Op(4, Plain)
    else if a == 16 then Op(4, Branch(Some(4), Some(20)))
    else if a == 20 then Op(4, Return(false))
    else Op(0, Unknown)
  }

  function Anywhere(a: nat): bool
  {
    true
  }

  function Nowhere(a: nat): bool
  {
    false
  }

  lemma BranchCodeIsShort()
    ensures Short(BranchCode) && Consistent(BranchCode, Aligned)
    ensures Aimed(BranchCode, Aligned, Aligned, true) && Aimed(BranchCode, Aligned, Aligned, false)
  {
  }

  /** Nothing is refused, and the targets of the code above are followed. */
  ghost predicate BranchWorld(w: World)
  {
    && w.code == BranchCode && w.starts == Aligned && (forall a: nat :: !w.refused(a)) && (forall a: nat :: !w.stops(a))
    && w.follows(BranchCode(16).kind) == {4, 20} && w.follows(BranchCode(4).kind) == {12}
  }

  /** All of the code has been found. */
  lemma BranchCodeIsFound(w: World, p: Past, bs: seq<Block>)
    requires Finished(w, p, bs) && GaveUpNothing(p) && BranchWorld(w) && HasStart(bs, 8)
    ensures HasStart(bs, 12)
  {
    hide Finished, HasStart, Covers;
    StartIsCovered(w, p, bs, 8);
    StepIsCovered(w, p, bs, 8, 12);
    StepIsCovered(w, p, bs, 12, 16);
    TargetsAreFound(w, p, bs, 16);
    assert 4 in w.follows(w.code(16).kind);
    StartIsCovered(w, p, bs, 4);
    TargetsAreFound(w, p, bs, 4);
    assert 12 in w.follows(w.code(4).kind);
  }

  /** The block at 8 ends at 12 and leads elsewhere. */
  lemma BranchEdgeIsWrong(w: World, p: Past, bs: seq<Block>) returns (k: nat)
    requires Finished(w, p, bs) && GaveUpNothing(p) && BranchWorld(w) && EdgeAt(bs, 8, Some(4))
    ensures k < |bs| && bs[k].addr == 8 && bs[k].size == 4 && Flowing(w, bs[k]) && HasStart(bs, 12)
    ensures bs[k].jump == Some(4) && !FallsRight(w, p, bs[k])
  {
    hide Flowing, Decoded, Traced, Consistent, GaveUpNothing;
    var i :| 0 <= i < |bs| && bs[i].addr == 8 && bs[i].jump == Some(4);
    assert HasStart(bs, 8);
    BranchCodeIsFound(w, p, bs);
    k := BlockBetween(w, p, bs, 8);
    BlocksApart(bs, k, i);
  }

  lemma BranchScan(f: Function)
    requires f.code == BranchCode && f.options.limit == None
    ensures f.Scan(8, 0, MAXBBSIZE, None) == Follow(BranchCode(16).kind, None)
  {
    assert f.Scan(8, 0, MAXBBSIZE, None) == f.Scan(8, 4, MAXBBSIZE, None) == f.Scan(8, 8, MAXBBSIZE, None);
  }

  lemma BranchIsRewritten(f: Function)
    requires !f.options.afterJump && !f.options.eobJump && f.addr == 8
    requires f.Rewritten([], 8, Follow(BranchCode(16).kind, None), f.bbs)
    ensures EdgeAt(f.bbs, 8, Some(4))
  {
  }

  lemma BranchOf(f: Function) returns (k: nat)
    requires f.Valid() && f.growing == None && GaveUpNothing(f.past) && f.code == BranchCode && f.starts == Aligned
    requires f.readable == Anywhere && f.executable == Anywhere && f.taken == Nowhere && f.options.limit == None
    requires !f.options.eobJump && f.addr == 8 && EdgeAt(f.bbs, 8, Some(4))
    ensures k < |f.bbs| && f.bbs[k].addr == 8 && f.bbs[k].size == 4 && Flowing(f.Scene(), f.bbs[k]) && HasStart(f.bbs, 12)
    ensures f.bbs[k].jump == Some(4) && !FallsRight(f.Scene(), f.past, f.bbs[k])
  {
    hide SizesRight, Sound, Traced, Accounted, Aimed, FallsKnown, HasStart, EdgeAt, FallsRight, Flowing, Consistent, GaveUpNothing;
    k := BranchEdgeIsWrong(f.Scene(), f.past, f.bbs);
  }

  /** The function at 8 branches back to 4, from where a jump leads to 12 and splits the
      first block. Its first half, which ends at 12, gets the edge of the branch. */
  method LostToBranch(options: Options) returns (f: Function, ghost k: nat)
    requires !options.afterJump && !options.eobJump && options.limit == None
    ensures f.Valid() && f.growing == None && GaveUpNothing(f.past) && f.options == options && f.code == BranchCode
    ensures k < |f.bbs| && f.bbs[k].addr == 8 && f.bbs[k].size == 4 && Flowing(f.Scene(), f.bbs[k]) && HasStart(f.bbs, 12)
    ensures f.bbs[k].jump == Some(4) && !FallsRight(f.Scene(), f.past, f.bbs[k])
  {
    hide SizesRight, Function.LoopSized, Function.TooLargeIsGivenUp, AllSmall, Spans, IsEnd, Sound, Traced, Accounted, Aimed, FallsKnown, HasStart, EdgeAt, FallsRight, Flowing, Manageable, Consistent, Preserves,
      GaveUpNothing, Function.Scan, Extends, Hits, Function.Rewritten;
    BranchCodeIsShort();
    f := new Function(BranchCode, Anywhere, Anywhere, Nowhere, options, Aligned, Aligned, 8);
    BranchScan(f);
    var _ := f.Analyse(8, MAXBBSIZE);
    BranchIsRewritten(f);
    ShortIsManageable(BranchCode, 8, f.past);
    k := BranchOf(f);
  }

  // ----- a return after a push -----

  function ReturnCode(a: nat): Op
  {
    if a == 12 then Op(4, Plain)
    else if a == 16 then Op(4, Push(20))
    else if a == 20 then Op(4, Return(false))
    else Op(0, Unknown)
  }

  predicate FirstGoals(a: nat)
  {
    a == 16 || a == 20
  }

  predicate SecondGoals(a: nat)
  {
    a == 12 || FirstGoals(a)
  }

  lemma ReturnCodeIsShort()
    ensures Short(ReturnCode) && Consistent(ReturnCode, Aligned)
    ensures forall pushes :: Aimed(ReturnCode, Aligned, FirstGoals, pushes) && Aimed(ReturnCode, Aligned, SecondGoals, pushes)
  {
  }

  /** The block at 12 ends at 16 and leads elsewhere. */
  lemma ReturnEdgeIsWrong(w: World, p: Past, was: seq<Block>, bs: seq<Block>) returns (k: nat)
    requires Finished(w, p, bs) && GaveUpNothing(p) && w.code == ReturnCode && w.starts == Aligned && !w.stops(12) && !w.stops(16)
    requires HasStart(was, 16) && Extends(was, bs) && HasStart(bs, 12) && Left(was, 12, Some(20), bs)
    ensures k < |bs| && bs[k].addr == 12 && bs[k].size == 4 && Flowing(w, bs[k]) && HasStart(bs, 16)
    ensures bs[k].jump == Some(20) && !FallsRight(w, p, bs[k])
  {
    hide Flowing, Decoded, Traced, Consistent, GaveUpNothing;
    assert HasStart(bs, 16);
    k := BlockBetween(w, p, bs, 12);
    var b: Block :| LeftBlock(was, b, 12, Some(20), bs);
    assert b.addr + b.size <= 16 by {
      var i :| 0 <= i < |was| && was[i].addr == 16;
    }
    NoneBetween(w, bs, b);
    var i :| 0 <= i < |bs| && bs[i] == b;
    BlocksApart(bs, k, i);
  }

  lemma NoneBetween(w: World, bs: seq<Block>, b: Block)
    requires Sound(w.code, w.starts, bs) && w.starts == Aligned && b.addr == 12 && b.addr + b.size <= 16
    ensures !WasSplit(b, bs)
  {
    forall i | 0 <= i < |bs|
      ensures !(b.addr < bs[i].addr < b.addr + b.size)
    {
      assert Decoded(w.code, w.starts, bs[i]);
    }
  }

  lemma NoneIsHit(w: World, addr: nat, bs: seq<Block>, p: Past, a: nat)
    requires Accounted(w, addr, bs, p) && forall g: nat :: p.goals(g) ==> g > a
    ensures forall i :: 0 <= i < |bs| ==> !Hits(bs[i], a)
  {
  }

  lemma ReturnScan(f: Function)
    requires f.code == ReturnCode && f.options.limit == None && f.options.pushReturn
    ensures f.Scan(12, 0, MAXBBSIZE, None) == Follow(Return(false), Some(20))
  {
    assert f.Scan(12, 0, MAXBBSIZE, None) == f.Scan(12, 4, MAXBBSIZE, None) == f.Scan(12, 8, MAXBBSIZE, Some(20));
  }

  lemma ReturnIsRewritten(f: Function, was: seq<Block>)
    requires f.Rewritten(was, 12, Follow(Return(false), Some(20)), f.bbs)
    ensures Left(was, 12, Some(20), f.bbs)
  {
  }

  method FollowedFrom16(options: Options) returns (f: Function)
    ensures fresh(f) && f.Valid() && f.growing == None && f.code == ReturnCode && f.starts == Aligned && f.options == options && f.addr == 12
    ensures f.readable == Anywhere && f.executable == Anywhere && f.taken == Nowhere
    ensures f.past.goals == FirstGoals && f.past.open == {} && f.past.least == MAXBBSIZE && HasStart(f.bbs, 16)
    ensures forall i :: 0 <= i < |f.bbs| ==> !Hits(f.bbs[i], 12)
  {
    hide SizesRight, Function.LoopSized, Function.TooLargeIsGivenUp, AllSmall, Spans, IsEnd, Sound, Traced, FallsKnown, HasStart, Manageable, Accounted, Aimed, Hits, Extends, Consistent, Preserves, Function.Scan,
      Function.Rewritten;
    ReturnCodeIsShort();
    f := new Function(ReturnCode, Anywhere, Anywhere, Nowhere, options, Aligned, FirstGoals, 12);
    var _ := f.Analyse(16, MAXBBSIZE);
    NoneIsHit(f.Scene(), 12, f.bbs, f.past, 12);
  }

  /** After the code at 16 was followed, the walk from 12 runs into it, and goes on to the
      return, whose edge replaces the one to 16. */
  method LostToReturn(options: Options) returns (f: Function, ghost k: nat)
    requires options.pushReturn && options.limit == None
    ensures f.Valid() && f.growing == None && GaveUpNothing(f.past) && f.options == options && f.code == ReturnCode
    ensures k < |f.bbs| && f.bbs[k].addr == 12 && f.bbs[k].size == 4 && Flowing(f.Scene(), f.bbs[k]) && HasStart(f.bbs, 16)
    ensures f.bbs[k].jump == Some(20) && !FallsRight(f.Scene(), f.past, f.bbs[k])
  {
    hide SizesRight, Function.LoopSized, Function.TooLargeIsGivenUp, AllSmall, Spans, IsEnd, Sound, Traced, FallsKnown, HasStart, Left, FallsRight, Flowing, Manageable, Accounted, Aimed, Hits, Extends, Consistent,
      Preserves, Function.Scan, Function.Rewritten;
    ReturnCodeIsShort();
    f := FollowedFrom16(options);
    ghost var was := f.bbs;
    f.Widen(SecondGoals);
    ReturnScan(f);
    var _ := f.Analyse(12, MAXBBSIZE);
    ReturnIsRewritten(f, was);
    ShortIsManageable(ReturnCode, 12, f.past);
    k := ReturnEdgeIsWrong(f.Scene(), f.past, was, f.bbs);
  }

  // ----- behind a conditional return -----

  function ConditionalCode(a: nat): Op
  {
    if a == 8 then Op(4, Push(20))
    else if a == 12 then Op(4, Return(true))
    else if a == 16 || a == 20 then Op(4, Return(false))
    else Op(0, Unknown)
  }

  predicate ConditionalGoals(a: nat)
  {
    a == 8 || a == 20
  }

  lemma ConditionalCodeIsShort()
    ensures Short(ConditionalCode) && Consistent(ConditionalCode, Aligned)
    ensures forall pushes :: Aimed(ConditionalCode, Aligned, ConditionalGoals, pushes)
  {
  }

  /** No block goes on behind a return whose address was pushed in it. */
  lemma BehindReturnIsLost(w: World, p: Past, bs: seq<Block>)
    requires Finished(w, p, bs) && w.code == ConditionalCode && w.starts == Aligned && w.pushes
    requires forall i :: 0 <= i < |bs| ==> ConditionalGoals(bs[i].addr)
    ensures !Covers(bs, 16)
  {
    hide Finished, Covers;
    if Covers(bs, 16) {
      var k, i := PlaceOf(w, p, bs, 16);
      assert ConditionalGoals(bs[k].addr) && bs[k].addr == 8;
      ThirdAt16(i);
      OnlyLastStops(w, bs[k], 1);
    }
  }

  lemma ThirdAt16(i: nat)
    requires After(ConditionalCode, 8, i) == 16
    ensures i == 2 && After(ConditionalCode, 8, 1) == 12
  {
    assert After(ConditionalCode, 8, 0) == 8 && After(ConditionalCode, 8, 1) == 12 && After(ConditionalCode, 8, 2) == 16;
    if i > 2 {
      FarAt20(i);
    }
  }

  lemma {:induction false} FarAt20(i: nat)
    requires i > 2
    ensures After(ConditionalCode, 8, i) >= 20
  {
    if i > 3 {
      FarAt20(i - 1);
    } else {
      assert After(ConditionalCode, 8, 0) == 8 && After(ConditionalCode, 8, 1) == 12 && After(ConditionalCode, 8, 2) == 16;
    }
  }

  /** The flow goes on behind the return, when it is not taken. */
  lemma BehindReturnCame(w: World, entries: set<nat>)
    requires w.code == ConditionalCode && 8 in entries && (forall a: nat :: !w.refused(a)) && (forall a: nat :: !w.stops(a))
    ensures Came(w, entries, 16) && Walkable(w, 16)
  {
    hide Came;
    EntryCame(w, entries, 8);
    StepCame(w, entries, 8, 12);
    StepCame(w, entries, 12, 16);
  }

  lemma StartsAreGoals(w: World, addr: nat, bs: seq<Block>, p: Past)
    requires Accounted(w, addr, bs, p)
    ensures forall i :: 0 <= i < |bs| ==> p.goals(bs[i].addr)
  {
    hide Came;
    forall i | 0 <= i < |bs|
      ensures p.goals(bs[i].addr)
    {
      assert Arrived(w, p, bs[i].addr);
    }
  }

  /** A conditional return behind a push is followed to the pushed address only: what the
      flow comes to when the return is not taken is not found. */
  method LostBehindReturn(options: Options) returns (f: Function)
    requires options.pushReturn && options.limit == None
    ensures f.Valid() && f.growing == None && GaveUpNothing(f.past) && f.options == options && f.code == ConditionalCode
    ensures Came(f.Scene(), f.past.entries, 16) && Walkable(f.Scene(), 16) && !Covers(f.bbs, 16)
  {
    hide SizesRight, Function.LoopSized, Function.TooLargeIsGivenUp, AllSmall, Spans, IsEnd, Sound, Traced, FallsKnown, HasStart, Manageable, Accounted, Aimed, Hits, Extends, Consistent, Preserves, Function.Scan,
      Function.Rewritten, Came, Covers;
    ConditionalCodeIsShort();
    f := new Function(ConditionalCode, Anywhere, Anywhere, Nowhere, options, Aligned, ConditionalGoals, 8);
    var _ := f.Analyse(8, MAXBBSIZE);
    ShortIsManageable(ConditionalCode, 8, f.past);
    StartsAreGoals(f.Scene(), 8, f.bbs, f.past);
    BehindReturnIsLost(f.Scene(), f.past, f.bbs);
    BehindReturnCame(f.Scene(), f.past.entries);
  }

  // ----- the second edge of a branch -----

  function SecondCode(a: nat): Op
  {
    if a == 8 then Op(4, Branch(Some(4), Some(12)))
    else if a == 4 || a == 12 then Op(4, Return(false))
    else Op(0, Unknown)
  }

  lemma SecondCodeIsShort()
    ensures Short(SecondCode) && Consistent(SecondCode, Aligned)
    ensures forall pushes :: Aimed(SecondCode, Aligned, Aligned, pushes)
  {
  }

  lemma SecondScan(f: Function)
    requires f.code == SecondCode && f.options.limit == None
    ensures f.Scan(8, 0, MAXBBSIZE, None) == Follow(SecondCode(8).kind, None)
  {
  }

  /** The block at 8 is the branch, without its second edge. */
  lemma SecondEdgeIsLost(w: World, p: Past, bs: seq<Block>) returns (k: nat)
    requires Finished(w, p, bs) && GaveUpNothing(p) && w.code == SecondCode && w.starts == Aligned && !w.stops(8)
    requires HasStart(bs, 8) && (w.early || EdgeAt(bs, 8, Some(4)))
    ensures k < |bs| && bs[k].addr == 8 && bs[k].size == 4 && bs[k].jump == Some(4) && bs[k].fail == None
  {
    hide Consistent, Traced, Decoded, Flowing, Straight, Ended, TargetsLead;
    StartIsCovered(w, p, bs, 8);
    k := EndIsLast(w, p, bs, 8);
    var j :| 0 <= j < |bs| && bs[j].addr == 8;
    EndsAt12(w, bs, j, k);
    if !w.early {
      var i :| 0 <= i < |bs| && bs[i].addr == 8 && bs[i].jump == Some(4) && bs[i].fail == None;
      BlocksApart(bs, i, k);
    } else {
      BranchLast(w, p, bs[k]);
    }
  }

  lemma BranchLast(w: World, p: Past, b: Block)
    requires EdgesRight(w, p, b) && b.ninstr > 0 && LastKind(w.code, b).Branch? && w.early
    ensures b.jump == LastKind(w.code, b).jump && b.fail == None
  {
  }

  lemma EndsAt12(w: World, bs: seq<Block>, j: nat, k: nat)
    requires Consistent(w.code, w.starts) && Sound(w.code, w.starts, bs) && w.starts == Aligned
    requires j < |bs| && k < |bs| && bs[j].addr == 8 && bs[k].ninstr > 0 && bs[k].addr + bs[k].size == 12
    ensures bs[k].addr == 8 && bs[k].size == 4
  {
    hide Consistent, Shape, OffsetsRight;
    assert Decoded(w.code, w.starts, bs[k]);
    AfterGrows(w.code, w.starts, bs[k].addr, 0, bs[k].ninstr);
    BlocksApart(bs, j, k);
  }

  /** A branch back before the function loses its second edge unless the option to go on
      after jumps is set. */
  method LostSecondEdge(options: Options) returns (f: Function, ghost k: nat)
    requires !options.afterJump && options.limit == None
    ensures f.Valid() && f.growing == None && GaveUpNothing(f.past) && f.options == options && f.code == SecondCode
    ensures k < |f.bbs| && f.bbs[k].addr == 8 && f.bbs[k].size == 4 && f.code(8).kind == Branch(Some(4), Some(12))
    ensures f.bbs[k].jump == Some(4) && f.bbs[k].fail == None
  {
    hide SizesRight, Function.LoopSized, Function.TooLargeIsGivenUp, AllSmall, Spans, IsEnd, Sound, Traced, Accounted, Aimed, FallsKnown, HasStart, EdgeAt, Manageable, Consistent, Preserves, Function.Scan, Extends,
      Hits, Function.Rewritten;
    SecondCodeIsShort();
    f := new Function(SecondCode, Anywhere, Anywhere, Nowhere, options, Aligned, Aligned, 8);
    SecondScan(f);
    var _ := f.Analyse(8, MAXBBSIZE);
    SecondIsRewritten(f);
    ShortIsManageable(SecondCode, 8, f.past);
    k := SecondEdgeIsLost(f.Scene(), f.past, f.bbs);
  }

  lemma SecondIsRewritten(f: Function)
    requires !f.options.afterJump && f.addr == 8 && f.Rewritten([], 8, Follow(SecondCode(8).kind, None), f.bbs)
    ensures f.options.eobJump || EdgeAt(f.bbs, 8, Some(4))
  {
  }

  // ----- the size of a function that loops into its first block -----

  /** With pushed addresses, or a branch. */
  function LoopCode(pushes: bool): Code
  {
    if pushes then PushLoop else BranchLoop
  }

  function BranchLoop(a: nat): Op
  {
    if a == 8 then Op(4, Plain) else if a == 12 then Op(4, Branch(Some(12), None)) else Op(0, Unknown)
  }

  function PushLoop(a: nat): Op
  {
    if a == 8 then Op(4, Push(12)) else if a == 12 then Op(4, Return(false)) else Op(0, Unknown)
  }

  /** The jump back to itself, whichever it is. */
  function LoopKind(pushes: bool): Kind
  {
    if pushes then Return(false) else Branch(Some(12), None)
  }

  predicate LoopGoals(a: nat)
  {
    a == 8 || a == 12
  }

  lemma LoopCodeIsShort(pushes: bool)
    ensures Short(LoopCode(pushes)) && Consistent(LoopCode(pushes), Aligned)
    ensures forall any :: Aimed(LoopCode(pushes), Aligned, LoopGoals, any)
  {
  }

  lemma LoopScan(f: Function, pushes: bool)
    requires f.code == LoopCode(pushes) && f.options.limit == None && f.addr == 8 && (pushes ==> f.options.pushReturn)
    ensures f.Scan(8, 0, MAXBBSIZE, None) == Follow(LoopKind(pushes), if pushes then Some(12) else None)
  {
    assert f.Scan(8, 0, MAXBBSIZE, None) == f.Scan(8, 4, MAXBBSIZE, if pushes then Some(12) else None);
  }

  /** The block that was walked leads to 12. */
  lemma PushIsSplit(w: World, p: Past, bs: seq<Block>)
    requires Traced(w, p, bs, None) && GaveUpNothing(p) && p.open == {} && (forall a: nat :: !w.refused(a)) && Left([], 8, Some(12), bs)
    requires forall k :: 0 <= k < |bs| ==> LoopGoals(bs[k].addr)
    ensures HasStart(bs, 12)
  {
    hide Straight, EdgesRight, Ended, TargetsLead, LastEnds;
    var b: Block :| LeftBlock([], b, 8, Some(12), bs);
    if b in bs {
      var k :| 0 <= k < |bs| && bs[k] == b;
      assert BlockTraced(w, p, bs, bs[k], None);
    } else {
      var i :| 0 <= i < |bs| && b.addr < bs[i].addr < b.addr + b.size;
    }
  }

  /** The jump to itself splits the block in front of it. */
  lemma LoopIsSplit(w: World, p: Past, bs: seq<Block>, pushes: bool) returns (i: nat, k: nat)
    requires Finished(w, p, bs) && GaveUpNothing(p) && w.code == LoopCode(pushes) && w.starts == Aligned && HasStart(bs, 8)
    requires (forall a: nat :: !w.refused(a)) && (forall a: nat :: !w.stops(a))
    requires if pushes then HasStart(bs, 12) else w.follows(LoopKind(false)) == {12}
    ensures i < |bs| && bs[i].addr == 8 && bs[i].size == 4
    ensures k < |bs| && bs[k].addr == 12 && bs[k].size == 4
  {
    hide Consistent, Traced, Decoded, Flowing, Straight, Ended, TargetsLead, Disjoint, GaveUpNothing;
    if !pushes {
      StartIsCovered(w, p, bs, 8);
      StepIsCovered(w, p, bs, 8, 12);
      TargetsAreFound(w, p, bs, 12);
      assert 12 in w.follows(w.code(12).kind);
    }
    i := BlockBetween(w, p, bs, 8);
    StartIsCovered(w, p, bs, 12);
    k := EndIsLast(w, p, bs, 12);
    var j :| 0 <= j < |bs| && bs[j].addr == 12;
    EndsAt16(w, bs, j, k);
  }

  lemma EndsAt16(w: World, bs: seq<Block>, j: nat, k: nat)
    requires Consistent(w.code, w.starts) && Sound(w.code, w.starts, bs) && w.starts == Aligned
    requires j < |bs| && k < |bs| && bs[j].addr == 12 && bs[k].ninstr > 0 && bs[k].addr + bs[k].size == 16
    ensures bs[k].addr == 12 && bs[k].size == 4
  {
    hide Consistent, Shape, OffsetsRight;
    assert Decoded(w.code, w.starts, bs[k]);
    AfterGrows(w.code, w.starts, bs[k].addr, 0, bs[k].ninstr);
    BlocksApart(bs, j, k);
  }

  /** Only the first half was there to be measured. */
  lemma OnlyHalfIsMeasured(w: World, p: Past, bs: seq<Block>, i: nat, size: nat, z: Sizing)
    requires Sound(w.code, w.starts, bs) && SizesRight(w, bs, 8, size, z, None) && i < |bs| && bs[i].addr == 8 && bs[i].size == 4
    requires forall k :: 0 <= k < |bs| ==> LoopGoals(bs[k].addr)
    requires forall a :: a in z.explored ==> a == 8 || a < 8 || a >= 16
    requires forall m :: m in z.measured && m.0 == 8 ==> EndAt(bs, 8, m.1)
    requires exists x: nat :: (8, x) in z.measured
    ensures size == 4
  {
    hide AllWithin, AllEnds, LedOn, Decoded;
    forall m | m in z.measured
      ensures m.1 == 12
    {
      assert m.0 in z.explored && HasStart(bs, m.0);
      var k :| 0 <= k < |bs| && bs[k].addr == m.0;
      assert LoopGoals(m.0) && m.0 == 8;
      var j :| 0 <= j < |bs| && bs[j].addr == 8 && bs[j].addr + bs[j].size == m.1;
      BlocksApart(bs, i, j);
    }
    var x: nat :| (8, x) in z.measured;
    assert size == 0 || Measured(z, 8 + size);
  }

  lemma OneJumpEndsAt16(f: Function, e: nat, pushes: bool)
    requires f.code == LoopCode(pushes) && f.starts == Aligned && f.EndedAt(e, LoopKind(pushes))
    ensures e == 16
  {
    var a: nat :| EndsInstruction(f.Scene(), a, e) && f.code(a).kind == LoopKind(pushes);
  }

  lemma LoopIsMeasured(f: Function, y: Sizing, pushes: bool, pushed: Option<nat>)
    requires f.code == LoopCode(pushes) && f.starts == Aligned && f.addr == 8 && y.explored == {} && y.measured == {}
    requires (pushes || !f.NoSecond()) && f.LoopSized([], y, 8, Follow(LoopKind(pushes), pushed), f.bbs, f.sizing)
    ensures forall a :: a in f.sizing.explored ==> a == 8 || a < 8 || a >= 16
    ensures forall m :: m in f.sizing.measured && m.0 == 8 ==> EndAt(f.bbs, 8, m.1)
    ensures exists x: nat :: (8, x) in f.sizing.measured
  {
    hide EndAt, Function.EndedAt;
    var e: nat :| f.SizedOnce(8, LoopKind(pushes), e, y, f.bbs, f.sizing);
    OneJumpEndsAt16(f, e, pushes);
  }

  lemma PushIsLeft(f: Function, pushed: Option<nat>)
    requires f.Rewritten([], 8, Follow(Return(false), pushed), f.bbs)
    ensures Left([], 8, pushed, f.bbs)
  {
  }

  lemma LoopIsSmall(f: Function, y: Sizing, pushes: bool, pushed: Option<nat>) returns (k: nat)
    requires f.Valid() && f.growing == None && GaveUpNothing(f.past) && f.code == LoopCode(pushes) && f.starts == Aligned
    requires f.readable == Anywhere && f.executable == Anywhere && f.taken == Nowhere && f.options.limit == None
    requires f.addr == 8 && f.past.goals == LoopGoals && f.past.open == {} && HasStart(f.bbs, 8) && y.explored == {} && y.measured == {}
    requires if pushes then pushed == Some(12) else !f.NoSecond()
    requires f.LoopSized([], y, 8, Follow(LoopKind(pushes), pushed), f.bbs, f.sizing)
    requires f.Rewritten([], 8, Follow(LoopKind(pushes), pushed), f.bbs)
    ensures f.size == 4 && k < |f.bbs| && f.bbs[k].addr == 12 && f.bbs[k].size == 4
  {
    hide SizesRight, Function.LoopSized, Sound, Traced, Accounted, Aimed, FallsKnown, HasStart, Consistent, Function.Rewritten, GaveUpNothing,
      LoopCode, Left;
    StartsAreGoals(f.Scene(), 8, f.bbs, f.past);
    if pushes {
      PushIsLeft(f, pushed);
      PushIsSplit(f.Scene(), f.past, f.bbs);
    }
    var i;
    i, k := LoopIsSplit(f.Scene(), f.past, f.bbs, pushes);
    LoopIsMeasured(f, y, pushes, pushed);
    OnlyHalfIsMeasured(f.Scene(), f.past, f.bbs, i, f.size, f.sizing);
  }

  /** A jump into the block that it ends: when the size is fitted, the block has been split,
      and the half that holds the jump lies beyond the size. There is such code for all
      options but those that fit every block early. */
  method LostSize(options: Options) returns (f: Function, ghost k: nat)
    requires (options.afterJump || !options.eobJump || options.pushReturn) && options.limit == None
    ensures f.Valid() && f.growing == None && GaveUpNothing(f.past) && f.options == options
    ensures f.addr == 8 && f.size == 4 && k < |f.bbs| && f.bbs[k].addr == 12 && f.bbs[k].size == 4
  {
    hide SizesRight, Function.LoopSized, Function.TooLargeIsGivenUp, AllSmall, Spans, IsEnd, Sound, Traced, Accounted, Aimed, FallsKnown,
      HasStart, Manageable, Consistent, Preserves, Function.Scan, Extends, Hits, Function.Rewritten, GaveUpNothing, LoopCode, Left;
    var pushes := options.pushReturn;
    LoopCodeIsShort(pushes);
    f := new Function(LoopCode(pushes), Anywhere, Anywhere, Nowhere, options, Aligned, LoopGoals, 8);
    LoopScan(f, pushes);
    ghost var y, pushed := Restarted(f.bbs, f.sizing), if pushes then Some(12) else None;
    var _ := f.Analyse(8, MAXBBSIZE);
    ShortIsManageable(LoopCode(pushes), 8, f.past);
    k := LoopIsSmall(f, y, pushes, pushed);
  }
}
