/** Recursive descent over the code of a function: its block list is appended to, grown,
    split and sorted in place. */
module FcnRecurse {
  import opened Wrappers
  import opened BasicBlocks
  import opened BlockSort
  import opened FcnBlocks
  import opened FcnTraces
  import opened FcnFlow
  import opened FcnBounds
  import opened FcnSizes

  datatype Options = Options(afterJump: bool, eobJump: bool, jumpAbove: bool, pushReturn: bool, continueSplit: bool,
                             limit: Option<(nat, nat)>)

  datatype Ret = End | Error

  datatype SplitRet = Dup | Halved | Absent

  /** Why a walk along the code stops: for good, or at an instruction with targets. */
  datatype Stop = Finish(ret: Ret) | Follow(kind: Kind, pushed: Option<nat>)

  // ----- rearranging distinct items -----

  lemma {:induction false} CountOnce<T>(xs: seq<T>, x: T)
    requires forall i, j :: 0 <= i < j < |xs| ==> xs[i] != xs[j]
    ensures multiset(xs)[x] <= 1
  {
    if xs != [] {
      var rest := xs[1..];
      assert xs == [xs[0]] + rest;
      assert forall i :: 0 <= i < |rest| ==> rest[i] == xs[i + 1];
      CountOnce(rest, x);
    }
  }

  lemma CountTwice<T>(xs: seq<T>, i: nat, j: nat)
    requires i < j < |xs| && xs[i] == xs[j]
    ensures multiset(xs)[xs[i]] >= 2
  {
    assert xs == xs[..j] + ([xs[j]] + xs[j + 1..]);
    assert xs[..j][i] == xs[i];
    assert xs[i] in multiset(xs[..j]);
  }

  ghost function IndexOf<T>(xs: seq<T>, x: T): (i: nat)
    requires x in xs
    ensures i < |xs| && xs[i] == x
  {
    var i: nat :| i < |xs| && xs[i] == x;
    i
  }

  /** Where each item of a rearranged list was before. */
  ghost function Origin<T>(xs: seq<T>, ys: seq<T>): (p: seq<nat>)
    requires forall y :: y in ys ==> y in xs
    ensures |p| == |ys| && forall i :: 0 <= i < |p| ==> p[i] < |xs| && ys[i] == xs[p[i]]
  {
    seq(|ys|, i requires 0 <= i < |ys| => IndexOf(xs, ys[i]))
  }

  lemma OriginIsOrder<T>(xs: seq<T>, ys: seq<T>)
    requires multiset(ys) == multiset(xs)
    requires forall i, j :: 0 <= i < j < |xs| ==> xs[i] != xs[j]
    ensures |ys| == |xs| && (forall y :: y in ys ==> y in xs)
    ensures var p := Origin(xs, ys);
            && (forall i, j :: 0 <= i < |p| && 0 <= j < |p| && i != j ==> p[i] != p[j])
            && (forall k :: 0 <= k < |xs| ==> k in p)
  {
    assert |ys| == |multiset(ys)| == |multiset(xs)| == |xs|;
    forall y | y in ys
      ensures y in xs
    {
      assert y in multiset(ys);
    }
    forall i, j | 0 <= i < j < |ys|
      ensures ys[i] != ys[j]
    {
      CountOnce(xs, ys[i]);
      if ys[i] == ys[j] {
        CountTwice(ys, i, j);
      }
    }
    var p := Origin(xs, ys);
    forall k | 0 <= k < |xs|
      ensures k in p
    {
      assert xs[k] in multiset(xs);
      assert xs[k] in ys;
      var i :| 0 <= i < |ys| && ys[i] == xs[k];
      assert xs[p[i]] == xs[k];
      assert p[i] == k;
    }
  }

  lemma SortedKeeps(code: Code, starts: nat -> bool, bs: seq<Block>, now: seq<Block>)
    requires Sound(code, starts, bs) && multiset(now) == multiset(bs)
    ensures Sound(code, starts, now) && Extends(bs, now)
  {
    hide Decoded;
    forall i, j | 0 <= i < j < |bs|
      ensures bs[i] != bs[j]
    {
      assert Apart(bs[i], bs[j]);
    }
    OriginIsOrder(bs, now);
    ReorderKeeps(code, starts, bs, now, Origin(bs, now));
  }

  // ----- falls -----

  /** All these addresses are where blocks start. */
  predicate FallsKnown(bs: seq<Block>, falls: set<nat>)
  {
    forall a :: a in falls ==> HasStart(bs, a)
  }

  lemma FallsStay(was: seq<Block>, now: seq<Block>, falls: set<nat>)
    requires FallsKnown(was, falls) && Extends(was, now)
    ensures FallsKnown(now, falls)
  {
  }

  lemma FallsGrow(was: seq<Block>, now: seq<Block>, falls: set<nat>, x: nat)
    requires FallsKnown(was, falls) && Extends(was, now) && HasStart(was, x)
    ensures FallsKnown(now, falls + {x}) && HasStart(now, x)
  {
  }

  lemma ExtendsItself(bs: seq<Block>)
    ensures Extends(bs, bs)
  {
  }

  /** A block found at the end of another one starts there. */
  lemma OverlapIsStart(code: Code, starts: nat -> bool, bs: seq<Block>, k: nat, g: nat, x: nat)
    requires Sound(code, starts, bs) && k < |bs| && g < |bs| && g != k && x == bs[k].addr + bs[k].size && bs[k].size > 0
    requires Hits(bs[g], x)
    ensures bs[g].addr == x && HasStart(bs, x)
  {
    assert Apart(bs[g], bs[k]);
  }

  lemma SizeBelow(code: Code, starts: nat -> bool, bs: seq<Block>, k: nat)
    requires Sound(code, starts, bs) && k < |bs|
    ensures bs[k].size < 0x8000 && Shape(bs[k])
  {
    assert Decoded(code, starts, bs[k]);
  }

  lemma BlockIsDecoded(code: Code, starts: nat -> bool, bs: seq<Block>, k: nat)
    requires Sound(code, starts, bs) && k < |bs|
    ensures Decoded(code, starts, bs[k])
  {
  }

  lemma GrownShape(b: Block, w: nat)
    requires b.size < 0x1_0000
    ensures Grown(b, w).addr == b.addr && Grown(b, w).size == b.size + w
    ensures Grown(b, w).jump == b.jump && Grown(b, w).fail == b.fail
  {
  }

  lemma NoOtherStart(bs: seq<Block>, k: nat, at: nat)
    requires Disjoint(bs) && k < |bs| && bs[k].addr < at < bs[k].addr + bs[k].size
    ensures !HasStart(bs, at)
  {
    forall i | 0 <= i < |bs|
      ensures bs[i].addr != at
    {
      if i != k {
        assert Apart(bs[i], bs[k]);
      }
    }
  }

  lemma NextIsStart(code: Code, starts: nat -> bool, a: nat)
    requires Consistent(code, starts) && starts(a) && Decodes(code(a))
    ensures 1 <= code(a).size < 0x100 && starts(a + code(a).size)
  {
  }

  class Function {
    const code: Code
    /** Addresses that can be read, hold code, or start another function. */
    const readable: nat -> bool
    const executable: nat -> bool
    const taken: nat -> bool
    const options: Options
    ghost const starts: nat -> bool

    const addr: nat
    var bbs: seq<Block>
    var size: nat
    var ninstr: nat

    /** The addresses at which a walk ran into another block. */
    ghost var falls: set<nat>
    ghost var past: Past
    ghost var sizing: Sizing
    /** The block that a walk is growing. */
    ghost var growing: Option<nat>

    predicate Outside(a: nat)
    {
      options.limit.Some? && (a < options.limit.value.0 || a + 1 > options.limit.value.1)
    }

    predicate Refused(a: nat)
    {
      !executable(a) || !readable(a) || taken(a)
    }

    // ----- what instructions call for -----

    /** A jump that is followed at all. */
    predicate Taken(k: Kind)
    {
      k.Jump? && k.to.Some? && !k.noReturn && (k.to.value >= addr || options.jumpAbove)
    }

    /** A jump that is followed as an edge of its block. */
    predicate Recorded(k: Kind)
    {
      Taken(k) && !options.eobJump && !k.otherSection
    }

    /** Where the flow is followed from an instruction that ends it. */
    function Followed(k: Kind): set<nat>
    {
      match k
      case Branch(jump, fail) => TargetSet(jump) + TargetSet(fail)
      case Jump(to, after, _, _) => if !Taken(k) then {} else if Recorded(k) then TargetSet(to) else TargetSet(after)
      case _ => {}
    }

    /** Edges that lead to the next instruction are never overwritten. */
    predicate KeepsFalls()
    {
      (options.afterJump || options.eobJump) && !options.pushReturn
    }

    /** Branches get no second edge. */
    predicate NoSecond()
    {
      !options.afterJump && options.eobJump
    }

    /** A branch to an address before the function, whose second edge is taken back. */
    predicate BackBranch(k: Kind)
    {
      k.Branch? && !options.afterJump && !options.eobJump && k.jump.Some? && k.jump.value < addr
    }

    ghost function Scene(): World
    {
      World(code, starts, (a: nat) => Outside(a), (a: nat) => Refused(a), (k: Kind) => Recorded(k),
            (k: Kind) => Followed(k), options.pushReturn, KeepsFalls(), NoSecond(), (k: Kind) => BackBranch(k))
    }

    /** What an instruction that decodes does to the walk: None to go on. */
    function Flow(kind: Kind, pushed: Option<nat>): (stop: Option<Stop>)
      ensures stop.Some? && stop.value.Follow? ==> stop.value == Follow(kind, pushed)
      ensures stop.Some? && stop.value.Follow? ==>
                Taken(kind) || kind.Branch? || (kind.Return? && pushed.Some? && options.pushReturn)
      ensures stop.Some? && stop.value.Finish? ==> MustEnd(kind) && !Taken(kind) && !kind.Branch? && Followed(kind) == {}
      ensures stop.Some? <==> MustEnd(kind) || (kind.Return? && pushed.Some? && options.pushReturn)
    {
      match kind
      case Illegal => Some(Finish(End))
      case Trap => Some(Finish(End))
      case Jump(to, _, noReturn, _) =>
        if to.None? || noReturn || (to.value < addr && !options.jumpAbove) then Some(Finish(End))
        else Some(Follow(kind, pushed))
      case Branch(_, _) => Some(Follow(kind, pushed))
      case Call(noReturn) => if noReturn then Some(Finish(End)) else None
      case IndirectJump => Some(Finish(End))
      case Return(conditional) =>
        if pushed.Some? && options.pushReturn then Some(Follow(kind, pushed))
        else if !conditional then Some(Finish(End))
        else None
      case _ => None
    }

    /** Where a walk that is `idx` bytes into a block stops, given the code alone. */
    function Scan(at: nat, idx: nat, len: nat, pushed: Option<nat>): Stop
      decreases if idx < len then len - idx else 0
    {
      if len < idx + 5 then Finish(End)
      else
        var op := code(at + idx);
        if Outside(at + idx) || !Decodes(op) || op.size == 0 then
          Finish(if op.kind.Invalid? && !Outside(at + idx) then Error else End)
        else
          match Flow(op.kind, pushed)
          case Some(stop) => stop
          case None => Scan(at, idx + op.size, len, if op.kind.Push? then Some(op.kind.v) else None)
    }

    // ----- invariants -----

    /** No two blocks overlap, each is a straight run of instructions that stops where the
        flow of control does, edges are right and have been followed, every walk that ran
        into another block did so at its start, what was given up is accounted for, and the
        size was fitted as it should be. */
    ghost predicate Valid()
      reads this
    {
      && Consistent(code, starts) && Sound(code, starts, bbs) && FallsKnown(bbs, falls)
      && Traced(Scene(), past, bbs, growing)
      && Aimed(code, starts, past.goals, options.pushReturn) && Accounted(Scene(), addr, bbs, past)
      && SizesRight(Scene(), bbs, addr, size, sizing, growing)
    }

    /** Starts and covered bytes are kept, and so is what is known about the past. */
    ghost predicate Kept(was: seq<Block>, fell: set<nat>, before: Past)
      reads this
    {
      Extends(was, bbs) && |was| <= |bbs| && fell <= falls && Later(before, past) && past.open == before.open
    }

    lemma KeptTrans(was: seq<Block>, fell: set<nat>, before: Past, mid: seq<Block>, midFell: set<nat>, between: Past)
      requires Extends(was, mid) && |was| <= |mid| && fell <= midFell && Later(before, between) && between.open == before.open
      requires Kept(mid, midFell, between)
      ensures Kept(was, fell, before)
    {
      ExtendsTrans(was, mid, bbs);
    }

    /** A target has been followed: a block starts there, or it cannot be followed, or it
        was given up. */
    ghost predicate Reached(a: nat)
      reads this
    {
      HasStart(bbs, a) || Refused(a) || a in past.deep || a in past.large
    }

    ghost predicate ReachedIf(target: Option<nat>)
      reads this
    {
      target.Some? ==> Reached(target.value)
    }

    ghost predicate ReachedBoth(k: Kind)
      reads this
    {
      k.Branch? ==> ReachedIf(k.jump) && ReachedIf(k.fail)
    }

    lemma ReachedStays(was: seq<Block>, fell: set<nat>, before: Past, target: Option<nat>)
      requires Kept(was, fell, before)
      requires target.Some? ==> HasStart(was, target.value) || Refused(target.value)
                                || target.value in before.deep || target.value in before.large
      ensures ReachedIf(target)
    {
    }

    /** A target that may be followed: the flow comes there, if it can be followed. */
    ghost predicate Wanted(a: nat)
      reads this
    {
      past.goals(a) && (Refused(a) || Came(Scene(), past.entries, a))
    }

    /** Every level of the recursion that was entered has added a block. */
    ghost predicate Levels(depth: int)
      reads this
    {
      FCN_DEPTH - depth <= |bbs|
    }

    constructor (code: Code, readable: nat -> bool, executable: nat -> bool, taken: nat -> bool, options: Options,
                 ghost starts: nat -> bool, ghost goals: nat -> bool, addr: nat)
      requires Consistent(code, starts) && Aimed(code, starts, goals, options.pushReturn)
      ensures Valid() && growing == None && bbs == [] && size == 0 && falls == {}
      ensures past == Past({}, {}, {}, {}, {}, goals, MAXBBSIZE) && sizing == Sizing({}, {}, {}, {}, {})
      ensures this.code == code && this.starts == starts && this.addr == addr && this.options == options
      ensures this.readable == readable && this.executable == executable && this.taken == taken
    {
      this.code, this.readable, this.executable, this.taken, this.options := code, readable, executable, taken, options;
      this.starts, this.addr, bbs, size, ninstr := starts, addr, [], 0, 0;
      falls, past, growing := {}, Past({}, {}, {}, {}, {}, goals, MAXBBSIZE), None;
      sizing := Sizing({}, {}, {}, {}, {});
    }

    // ----- the block list -----

    /** The first block that contains the address, or is empty and starts there. */
    method BbGet(at: nat) returns (r: Option<nat>)
      ensures r.None? ==> forall i :: 0 <= i < |bbs| ==> !Hits(bbs[i], at)
      ensures r.Some? ==> r.value < |bbs| && Hits(bbs[r.value], at) && forall i :: 0 <= i < r.value ==> !Hits(bbs[i], at)
    {
      for i := 0 to |bbs|
        invariant forall k :: 0 <= k < i ==> !Hits(bbs[k], at)
      {
        var end := bbs[i].addr + bbs[i].size;
        if bbs[i].addr >= end && at == bbs[i].addr {
          return Some(i);
        }
        if at >= bbs[i].addr && at < end {
          return Some(i);
        }
      }
      return None;
    }

    /** Splits the block that contains the address, unless one starts there. */
    method SplitBb(at: nat) returns (r: SplitRet)
      requires Valid() && growing == None && Arrived(Scene(), past, at)
      modifies this`bbs
      ensures Valid() && Kept(old(bbs), old(falls), old(past)) && Preserves(old(bbs), bbs)
      ensures r.Dup? ==> bbs == old(bbs) && HasStart(bbs, at)
      ensures r.Halved? ==> exists k :: 0 <= k < |old(bbs)| && Shape(old(bbs)[k]) && old(bbs)[k].size < 0x8000
                              && old(bbs)[k].addr < at < old(bbs)[k].addr + old(bbs)[k].size
                              && var (first, second) := SplitBlock(old(bbs)[k], at); bbs == old(bbs)[k := first] + [second]
      ensures r.Halved? ==> HasStart(bbs, at) && !HasStart(old(bbs), at)
                            && forall x: nat :: Covers(bbs, x) <==> Covers(old(bbs), x)
      ensures r.Absent? ==> bbs == old(bbs) && !HasStart(bbs, at) && !Covers(bbs, at)
    {
      hide SizesRight, Consistent, Sound, FallsKnown, Extends, Traced, Decoded, Accounted, WasSplit, Came;
      ghost var was := bbs;
      ExtendsItself(bbs);
      assert starts(at);
      for i := 0 to |bbs|
        invariant bbs == was && Valid()
        invariant forall k :: 0 <= k < i ==> was[k].addr != at && !InBlock(was[k], at)
      {
        if at == bbs[i].addr {
          return Dup;
        }
        if at > bbs[i].addr && at < bbs[i].addr + bbs[i].size {
          SizeBelow(code, starts, was, i);
          SoundIsDisjoint(code, starts, was);
          NoOtherStart(was, i, at);
          SplitKeeps(code, starts, was, i, at);
          var halves := SplitBlock(bbs[i], at);
          BlockIsDecoded(code, starts, was, i);
          SplitIsDecoded(code, starts, was[i], at);
          TracedSplit(Scene(), past, was, i, halves.0, halves.1);
          AccountedSplit(Scene(), addr, was, i, halves.0, halves.1, past);
          SplitPreservesOthers(was, i, halves.0, halves.1);
          SizesSplit(Scene(), was, i, halves.0, halves.1, addr, size, sizing);
          bbs := bbs[i := halves.0] + [halves.1];
          FallsStay(was, bbs, falls);
          return Halved;
        }
      }
      return Absent;
    }

    /** Sorts the block list by address. */
    method SortBlocks()
      requires Valid()
      modifies this`bbs
      ensures Valid() && Kept(old(bbs), old(falls), old(past)) && multiset(bbs) == multiset(old(bbs)) && Ascending(bbs)
      ensures Preserves(old(bbs), bbs)
    {
      hide SizesRight, Consistent, Sound, FallsKnown, Extends, Traced, Accounted, Aimed, WasSplit;
      var sorted := SortByAddr(bbs);
      SortedKeeps(code, starts, bbs, sorted);
      FallsStay(bbs, sorted, falls);
      SameMembers(bbs, sorted);
      NothingOpens(Scene(), past, sorted);
      TracedStays(Scene(), past, past, bbs, sorted, growing);
      AccountedSorted(Scene(), addr, bbs, sorted, past);
      SameMembers(sorted, bbs);
      SizesReordered(Scene(), bbs, sorted, addr, size, sizing, growing);
      bbs := sorted;
    }

    /** The block at an address may have these edges. */
    ghost predicate EdgesFit(at: nat, jump: Option<nat>, fail: Option<nat>)
      reads this
    {
      forall k :: 0 <= k < |bbs| && bbs[k].addr == at ==> EdgesRight(Scene(), past, bbs[k].(jump := jump, fail := fail))
    }

    /** Sets the edges of the block at an address. */
    method SetEdges(at: nat, jump: Option<nat>, fail: Option<nat>)
      requires Valid() && HasStart(bbs, at)
      requires Leads(Scene(), past, bbs, jump) && Leads(Scene(), past, bbs, fail)
      requires growing == Some(at) || EdgesFit(at, jump, fail)
      modifies this`bbs
      ensures Valid() && Kept(old(bbs), old(falls), old(past)) && HasStart(bbs, at)
      ensures exists k :: 0 <= k < |old(bbs)| && old(bbs)[k].addr == at && bbs == old(bbs)[k := old(bbs)[k].(jump := jump, fail := fail)]
    {
      hide SizesRight, Consistent, Sound, FallsKnown, Extends, Traced, Leads, EdgesRight, Accounted, Aimed;
      var k := FindStart(at);
      var b := bbs[k].(jump := jump, fail := fail);
      EdgesKeep(code, starts, bbs, k, b);
      FallsStay(bbs, bbs[k := b], falls);
      StartStays(bbs, bbs[k := b], at);
      TracedEdges(Scene(), past, bbs, k, jump, fail, growing);
      AccountedUpdate(Scene(), addr, bbs, k, b, past);
      SizesUpdate(Scene(), bbs, k, b, addr, size, sizing, growing);
      bbs := bbs[k := b];
      assert old(bbs)[k].addr == at;
    }

    method FindStart(at: nat) returns (k: nat)
      requires HasStart(bbs, at)
      ensures k < |bbs| && bbs[k].addr == at
    {
      k := 0;
      while k < |bbs| && bbs[k].addr != at
        invariant k <= |bbs| && forall i :: 0 <= i < k ==> bbs[i].addr != at
      {
        k := k + 1;
      }
    }

    /** Widens the function to the end of the block at an address; a function that is too
        large is given up. The distance is kept in 32 bits. */
    method FitSize(at: nat) returns (ok: bool, ghost k: nat)
      requires Valid() && growing == None && HasStart(bbs, at) && at in sizing.explored
      modifies this`size, this`sizing
      ensures Valid() && (!ok ==> size == 0 && Far(starts, addr, bbs))
      ensures FitsTo(k, at, old(size), old(sizing), ok)
    {
      hide SizesRight, Consistent, Sound, FallsKnown, Traced, Accounted, Aimed, Far;
      var b := FindStart(at);
      k := b;
      SizesFit(Scene(), bbs, b, addr, size, sizing);
      SizeIsSmall(Scene(), bbs, addr, size, sizing, None);
      var n := bbs[b].addr + bbs[b].size - addr;
      if n >= 0 && size < n {
        size := n % 0x1_0000_0000;
      }
      ok := size <= MAX_FCN_SIZE;
      if !ok {
        FarBlock(code, starts, addr, bbs, b);
        size := 0;
      }
      sizing := Fit(sizing, bbs[b]);
    }

    /** The size has been fitted to the block at an address. */
    ghost predicate FitsTo(k: nat, at: nat, was: nat, before: Sizing, ok: bool)
      reads this
    {
      && k < |bbs| && bbs[k].addr == at && was <= MAX_FCN_SIZE && size == Fitted(addr, was, bbs[k].addr + bbs[k].size)
      && sizing == Fit(before, bbs[k]) && ok == !Oversize(was, bbs[k].addr + bbs[k].size)
    }

    /** The end is too far away, as far as 32 bits tell. */
    predicate Oversize(was: nat, e: nat)
    {
      e > addr + was && (e - addr) % 0x1_0000_0000 > 0x4_0000
    }

    // ----- following the code -----

    /** The block being grown. */
    function Last(): Block
      requires bbs != []
      reads this
    {
      bbs[|bbs| - 1]
    }

    /** The block being grown has no edges yet. */
    predicate Bare()
      reads this
    {
      bbs != [] && Last().jump == None && Last().fail == None
    }

    /** The block being grown leads to its end. */
    predicate Linked()
      reads this
    {
      bbs != [] && Last().jump == Some(Last().addr + Last().size) && Last().fail == None
    }

    /** The block being grown is the last one, ends where the walk is, and has no
        instruction that ends the flow. */
    ghost predicate Walking(at: nat, idx: nat)
      reads this
    {
      && Bare() && Last().addr == at && Last().size == idx && starts(at + idx)
      && (idx == 0 ==> forall i :: 0 <= i < |bbs| - 1 ==> !Hits(bbs[i], at))
      && growing == Some(at) && Flowing(Scene(), Last())
    }

    /** The block being grown does not end at an instruction that ends the flow, and leads
        to the next one. */
    ghost predicate Joined()
      reads this
    {
      Linked() && Last().size > 0 && Flowing(Scene(), Last())
    }

    /** The block being grown ends at such an instruction, and has no edges yet. */
    ghost predicate EndsAt(kind: Kind)
      reads this
    {
      Bare() && Last().ninstr > 0 && LastKind(code, Last()) == kind
    }

    /** The block being grown has come to its end. */
    ghost predicate Complete(at: nat)
      reads this
    {
      bbs != [] && Last().addr == at && growing == Some(at) && Ended(Scene(), past, bbs, Last())
    }

    /** The edges of the block being grown are right. */
    ghost predicate Edged()
      reads this
    {
      bbs != [] && EdgesRight(Scene(), past, Last())
    }

    /** The targets of the block being grown are reached, or about to be. */
    ghost predicate Led()
      reads this
    {
      bbs != [] && TargetsLead(Scene(), past, bbs, Last())
    }

    /** The block being grown is complete; the size is still to be fitted to it. */
    ghost method FinishWalk(at: nat)
      requires Valid() && Complete(at) && Edged() && Led() && at in sizing.explored
      modifies this`growing, this`sizing
      ensures Valid() && growing == None && sizing == Pended(old(sizing), Last())
    {
      hide SizesRight, Consistent, Sound, FallsKnown, Traced, Ended, EdgesRight, TargetsLead, Accounted, Aimed;
      EndedIsTraced(code, starts, Scene(), past, bbs, at);
      OthersStart(code, starts, bbs);
      SizesPend(Scene(), bbs, |bbs| - 1, addr, size, sizing);
      sizing := Pended(sizing, Last());
      growing := None;
    }

    /** The walk has fewer than five bytes left. */
    ghost method CutWalk(at: nat, idx: nat, len: nat)
      requires Valid() && Walking(at, idx) && idx + 5 > len >= past.least
      modifies this`past
      ensures Valid() && past == old(past).(cuts := old(past).cuts + {Cut(at, len, at + idx)})
      ensures Complete(at) && Edged() && Led()
    {
      hide SizesRight, Consistent, Sound, FallsKnown, Traced, Aimed, Extends, Came, Straight, Decoded, Flowing, LastKind, After, Ended,
        EdgesRight, TargetsLead, CutRight;
      var c := Cut(at, len, at + idx);
      var q := past.(cuts := past.cuts + {c});
      ExtendsItself(bbs);
      NothingOpens(Scene(), q, bbs);
      TracedStays(Scene(), past, q, bbs, bbs, growing);
      assert Arrived(Scene(), past, Last().addr);
      BlockIsDecoded(code, starts, bbs, |bbs| - 1);
      StraightAt(Scene(), past, bbs, |bbs| - 1, growing);
      CutIsRight(Scene(), past, Last(), len);
      AccountedCut(Scene(), addr, bbs, past, c);
      assert c in q.cuts;
      CutIsClosed(Scene(), q, bbs, Last());
      past := q;
    }

    /** Whether the walk has run into another block; if so, the block being grown leads
        there, and a block starts there. */
    method CheckOverlap(at: nat, idx: nat) returns (hit: bool)
      requires Valid() && Walking(at, idx)
      modifies this`falls, this`bbs
      ensures Valid() && Kept(old(bbs), old(falls), old(past)) && HasStart(bbs, at)
      ensures hit ==> falls == old(falls) + {at + idx} && HasStart(bbs, at + idx) && Complete(at) && Joined() && |bbs| > 1
                      && bbs == old(bbs)[|old(bbs)| - 1 := old(bbs)[|old(bbs)| - 1].(jump := Some(at + idx))]
      ensures !hit ==> bbs == old(bbs) && Walking(at, idx) && forall i :: 0 <= i < |bbs| - 1 ==> !Hits(bbs[i], at + idx)
    {
      hide SizesRight, Consistent, Sound, FallsKnown, Extends, Traced, LastEnds, Decodes, Accounted, Aimed;
      ExtendsItself(bbs);
      hit := false;
      var k := |bbs| - 1;
      if idx > 0 {
        var g := BbGet(at + idx);
        if g.Some? && g.value != k {
          OverlapIsStart(code, starts, bbs, k, g.value, at + idx);
          var b := bbs[k].(jump := Some(at + idx));
          EdgesKeep(code, starts, bbs, k, b);
          FallsGrow(bbs, bbs[k := b], falls, at + idx);
          TracedEdges(Scene(), past, bbs, k, Some(at + idx), bbs[k].fail, growing);
          AccountedUpdate(Scene(), addr, bbs, k, b, past);
          SizesUpdate(Scene(), bbs, k, b, addr, size, sizing, growing);
          bbs := bbs[k := b];
          falls := falls + {at + idx};
          hit := true;
        }
      }
      assert bbs[k].addr == at;
    }

    /** Takes the instruction at the walk's position into the block. */
    method TakeInstruction(at: nat, idx: nat)
      requires Valid() && Walking(at, idx) && idx < 0x7000 && Walkable(Scene(), at + idx)
      requires forall i :: 0 <= i < |bbs| - 1 ==> !Hits(bbs[i], at + idx)
      modifies this`ninstr, this`bbs
      ensures Valid() && Kept(old(bbs), old(falls), old(past)) && HasStart(bbs, at)
      ensures bbs == old(bbs)[|old(bbs)| - 1 := Grown(old(bbs)[|old(bbs)| - 1], code(at + idx).size)]
      ensures 1 <= code(at + idx).size < 0x100
      ensures EndsAt(code(at + idx).kind)
      ensures if Flowing(Scene(), Last()) then Walking(at, idx + code(at + idx).size) else Complete(at)
      ensures PushedInside(Scene(), Last()) == if options.pushReturn && code(at + idx).kind.Return? then old(LastPush()) else None
    {
      hide SizesRight, Consistent, Sound, FallsKnown, Extends, Traced, HasStart, Decodes, MustEnd, After, Accounted, Aimed, Grown, Ended, LastEnds;
      var k, w := |bbs| - 1, code(at + idx).size;
      GrowKeeps(code, starts, bbs, k);
      GrownShape(bbs[k], w);
      FallsStay(bbs, bbs[k := Grown(bbs[k], w)], falls);
      NextIsStart(code, starts, at + idx);
      LastIsHere(code, starts, bbs, k);
      TracedGrow(Scene(), past, bbs, k, w);
      AccountedUpdate(Scene(), addr, bbs, k, Grown(bbs[k], w), past);
      GrownPushes(Scene(), bbs[k], w);
      SizesUpdate(Scene(), bbs, k, Grown(bbs[k], w), addr, size, sizing, growing);
      bbs := bbs[k := Grown(bbs[k], w)];
      ninstr := ninstr + 1;
      LastStarts(bbs);
      if !Flowing(Scene(), Last()) {
        StopIsEnd(Scene(), past, bbs, k);
      }
    }

    /** The address that the block's last instruction pushes. */
    function LastPush(): Option<nat>
      requires bbs != []
      reads this
    {
      if Last().ninstr > 0 && LastKind(code, Last()).Push? then Some(LastKind(code, Last()).v) else None
    }

    /** An address that was pushed right before `x`, by an instruction that the flow comes
        to. */
    ghost predicate PushedBefore(entries: set<nat>, x: nat, pushed: Option<nat>)
    {
      pushed.Some? ==> exists a: nat :: PushesAt(entries, a, x, pushed.value)
    }

    ghost predicate PushesAt(entries: set<nat>, a: nat, x: nat, v: nat)
    {
      && starts(a) && Walkable(Scene(), a) && Came(Scene(), entries, a)
      && code(a).kind == Push(v) && a + code(a).size == x
    }

    /** Targets to go on at are wanted. */
    ghost predicate StopFits(stop: Stop)
      reads this
    {
      stop.Follow? ==>
        && (forall t :: t in Followed(stop.kind) ==> Wanted(t))
        && (stop.kind.Return? ==> stop.pushed.Some? && Wanted(stop.pushed.value) && options.pushReturn)
        && (Taken(stop.kind) || stop.kind.Branch? || stop.kind.Return?)
    }

    lemma FlowFits(x: nat, pushed: Option<nat>)
      requires Consistent(code, starts) && Aimed(code, starts, past.goals, options.pushReturn)
      requires starts(x) && Walkable(Scene(), x) && Came(Scene(), past.entries, x) && PushedBefore(past.entries, x, pushed)
      ensures Flow(code(x).kind, pushed).Some? ==> StopFits(Flow(code(x).kind, pushed).value)
    {
      hide Came;
      var kind := code(x).kind;
      forall t | t in Followed(kind)
        ensures Wanted(t)
      {
        if !Refused(t) {
          assert Goes(Scene(), x, t);
          StepCame(Scene(), past.entries, x, t);
        }
      }
      if kind.Return? && pushed.Some? && options.pushReturn {
        var v := pushed.value;
        var a: nat :| PushesAt(past.entries, a, x, v);
        assert PushIn(code, a, past.goals);
        if !Refused(v) {
          assert Goes(Scene(), a, v);
          StepCame(Scene(), past.entries, a, v);
        }
      }
    }

    /** What a walk that stopped leaves behind. */
    ghost predicate Stopped(at: nat, stop: Stop, overlapped: bool)
      reads this
    {
      && Complete(at) && HasStart(bbs, at) && StopFits(stop)
      && (overlapped ==> Joined() && |bbs| > 1 && Walkable(Scene(), Last().addr + Last().size))
      && if stop.Finish? then Edged() && Led() else Open(Scene(), Last(), stop.kind, stop.pushed, overlapped)
    }

    /** All blocks but the one being grown are as before. */
    predicate OthersSame(was: seq<Block>)
      reads this
    {
      |bbs| == |was| && bbs != [] && bbs[..|bbs| - 1] == was[..|bbs| - 1]
    }

    /** Walks from a new block at `at` until the flow of control leaves it, or the bytes
        run out. Behind another block's start the walk goes on without taking
        instructions. */
    method Walk(at: nat, len: nat) returns (stop: Stop, overlapped: bool)
      requires Valid() && bbs != [] && Walking(at, 0) && Last().ninstr == 0 && Came(Scene(), past.entries, at)
      requires past.least <= len <= MAXBBSIZE
      modifies this`falls, this`ninstr, this`bbs, this`past
      ensures Valid() && Kept(old(bbs), old(falls), old(past)) && OthersSame(old(bbs))
      ensures stop == Scan(at, 0, len, None) && Stopped(at, stop, overlapped)
    {
      hide SizesRight, Consistent, Sound, FallsKnown, Extends, HasStart, Traced, Ended, EdgesRight, Accounted, Aimed, TargetsLead, Flow, Came,
        PushedBehind, PushedBefore, Joined, Walking, LastPush, StopFits, Open;
      overlapped := false;
      var idx, pushed: Option<nat> := 0, None;
      ExtendsItself(bbs);
      WalkBegins(at);
      while idx < len
        invariant Valid() && Kept(old(bbs), old(falls), old(past)) && OthersSame(old(bbs)) && past == old(past)
        invariant 0 <= idx < len + 0x100 && OnWalk(at, idx, pushed, overlapped)
        invariant Scan(at, 0, len, None) == Scan(at, idx, len, pushed)
        decreases len - idx
      {
        if len - idx < 5 {
          break;
        }
        var op := code(at + idx);
        if Outside(at + idx) || op.kind.Invalid? || op.kind.Unknown? {
          stop := Finish(if op.kind.Invalid? && !Outside(at + idx) then Error else End);
          NoWayOn(at, idx, pushed, overlapped, stop);
          return stop, overlapped;
        }
        ghost var mid, midFell, between := bbs, falls, past;
        var flow;
        flow, overlapped := Turn(at, idx, pushed, overlapped);
        KeptTrans(old(bbs), old(falls), old(past), mid, midFell, between);
        if flow.Some? {
          return flow.value, overlapped;
        }
        idx := idx + op.size;
        pushed := if op.kind.Push? then Some(op.kind.v) else None;
      }
      OutOfBytes(at, idx, len, pushed, overlapped);
      return Finish(End), overlapped;
    }

    /** The walk has fewer than five bytes left, and has met another block or not. */
    ghost method OutOfBytes(at: nat, idx: nat, len: nat, pushed: Option<nat>, overlapped: bool)
      requires Valid() && OnWalk(at, idx, pushed, overlapped) && idx + 5 > len >= past.least
      modifies this`past
      ensures Valid() && Kept(old(bbs), old(falls), old(past)) && Stopped(at, Finish(End), overlapped)
    {
      hide SizesRight, Consistent, Sound, FallsKnown, Extends, Traced, HasStart, Accounted, Aimed, Came, Ended, EdgesRight, TargetsLead, Flowing,
        PushedBehind;
      ghost var between := past;
      ExtendsItself(bbs);
      if !overlapped {
        CutWalk(at, idx, len);
        CutIsLater(between, Cut(at, len, at + idx));
      } else {
        JoinedIsRight(Scene(), past, bbs, Last());
      }
    }

    /** A walk that is `idx` bytes beyond `at`: it has met another block, or has just taken
        an instruction. */
    ghost predicate OnWalk(at: nat, idx: nat, pushed: Option<nat>, overlapped: bool)
      reads this
    {
      && HasStart(bbs, at) && starts(at + idx) && Came(Scene(), past.entries, at + idx)
      && PushedBefore(past.entries, at + idx, pushed)
      && if overlapped then Complete(at) && Joined() && |bbs| > 1 && PushedBehind(Scene(), Last()) == None
                            && Walkable(Scene(), Last().addr + Last().size)
         else Walking(at, idx) && pushed == LastPush()
    }

    lemma NoWayOn(at: nat, idx: nat, pushed: Option<nat>, overlapped: bool, stop: Stop)
      requires OnWalk(at, idx, pushed, overlapped) && !Walkable(Scene(), at + idx) && stop.Finish?
      ensures Stopped(at, stop, overlapped)
    {
      hide HasStart, Came, Ended, EdgesRight, TargetsLead, Flowing, PushedBehind;
      if overlapped {
        JoinedIsRight(Scene(), past, bbs, Last());
      } else {
        CannotGoOn(Scene(), past, bbs, Last());
      }
    }

    /** One turn of the walk, at an instruction: looks for another block there, takes the
        instruction otherwise, and decides how to go on. */
    method Turn(at: nat, idx: nat, pushed: Option<nat>, met: bool) returns (flow: Option<Stop>, overlapped: bool)
      requires Valid() && OnWalk(at, idx, pushed, met) && idx < 0x7000 && Walkable(Scene(), at + idx)
      modifies this`falls, this`ninstr, this`bbs
      ensures Valid() && Kept(old(bbs), old(falls), old(past)) && OthersSame(old(bbs))
      ensures 1 <= code(at + idx).size < 0x100 && flow == Flow(code(at + idx).kind, pushed)
      ensures flow.Some? ==> Stopped(at, flow.value, overlapped)
      ensures flow.None? ==>
                OnWalk(at, idx + code(at + idx).size, if code(at + idx).kind.Push? then Some(code(at + idx).kind.v) else None, overlapped)
    {
      hide SizesRight, Consistent, Sound, FallsKnown, Extends, HasStart, Hits, Traced, Ended, MustEnd, Flowing, EdgesRight, LastKind, Accounted,
        Aimed, TargetsLead, Flow, Came, PushedInside, PushedBehind, PushesAt, StopFits, Open, PushedBefore, EndsAt, LastPush;
      var op := code(at + idx);
      NextIsStart(code, starts, at + idx);
      ExtendsItself(bbs);
      overlapped := met;
      if !overlapped {
        overlapped := OverlapOrTake(at, idx);
      }
      flow := Flow(op.kind, pushed);
      FlowFits(at + idx, pushed);
      if flow.Some? {
        FlowStops(at + idx, op.kind, pushed, overlapped, overlapped && !met);
      } else {
        FlowGoesOn(at + idx, pushed, overlapped, overlapped && !met);
      }
    }

    lemma WalkBegins(at: nat)
      requires Walking(at, 0) && Last().ninstr == 0 && Came(Scene(), past.entries, at)
      ensures OnWalk(at, 0, None, false)
    {
      hide Came, Flowing;
      LastStarts(bbs);
    }

    /** The walk has an instruction that lets the flow go on; it has just been taken, or
        belongs to a block that was met, in this turn or before. */
    lemma FlowGoesOn(x: nat, pushed: Option<nat>, overlapped: bool, joining: bool)
      requires Flow(code(x).kind, pushed).None? && bbs != [] && starts(x) && Walkable(Scene(), x) && Came(Scene(), past.entries, x)
      requires if !overlapped then EndsAt(code(x).kind) && PushedInside(Scene(), Last()) == (if options.pushReturn && code(x).kind.Return? then pushed else None)
               else if joining then Last().addr + Last().size == x && pushed == LastPush()
               else PushedBehind(Scene(), Last()) == None
      ensures Came(Scene(), past.entries, x + code(x).size)
      ensures PushedBefore(past.entries, x + code(x).size, if code(x).kind.Push? then Some(code(x).kind.v) else None)
      ensures if overlapped then PushedBehind(Scene(), Last()) == None
              else Flowing(Scene(), Last()) && LastPush() == if code(x).kind.Push? then Some(code(x).kind.v) else None
    {
      hide Came;
      assert Goes(Scene(), x, x + code(x).size);
      StepCame(Scene(), past.entries, x, x + code(x).size);
      if code(x).kind.Push? {
        assert PushesAt(past.entries, x, x + code(x).size, code(x).kind.v);
      }
    }

    /** A walk stops at the instruction it has just taken, or after it met another block. */
    lemma FlowStops(x: nat, kind: Kind, pushed: Option<nat>, overlapped: bool, joining: bool)
      requires Flow(kind, pushed).Some? && kind == code(x).kind && bbs != [] && Walkable(Scene(), x)
      requires if overlapped then Joined() else EndsAt(kind)
      requires if !overlapped then PushedInside(Scene(), Last()) == (if options.pushReturn && kind.Return? then pushed else None)
               else if joining then Last().addr + Last().size == x && pushed == LastPush()
               else PushedBehind(Scene(), Last()) == None
      ensures var stop := Flow(kind, pushed).value;
              && (!overlapped ==> !Flowing(Scene(), Last()))
              && (stop.Finish? ==> Edged() && Led())
              && (stop.Follow? ==> stop == Follow(kind, pushed) && Open(Scene(), Last(), kind, pushed, overlapped))
    {
      if overlapped {
        if joining && PushedBehind(Scene(), Last()).Some? {
          assert kind.Return? && pushed == PushedBehind(Scene(), Last());
        } else {
          JoinedIsRight(Scene(), past, bbs, Last());
        }
      }
    }

    /** One turn of the walk while no other block was met. */
    method OverlapOrTake(at: nat, idx: nat) returns (overlapped: bool)
      requires Valid() && Walking(at, idx) && idx < 0x7000 && Walkable(Scene(), at + idx)
      modifies this`falls, this`ninstr, this`bbs
      ensures Valid() && Kept(old(bbs), old(falls), old(past)) && HasStart(bbs, at) && OthersSame(old(bbs))
      ensures overlapped ==> Complete(at) && Joined() && |bbs| > 1 && LastPush() == old(LastPush())
      ensures overlapped ==> Last().addr + Last().size == at + idx
      ensures !overlapped ==> EndsAt(code(at + idx).kind)
      ensures !overlapped ==> if Flowing(Scene(), Last()) then Walking(at, idx + code(at + idx).size) else Complete(at)
      ensures !overlapped ==>
                PushedInside(Scene(), Last()) == if options.pushReturn && code(at + idx).kind.Return? then old(LastPush()) else None
    {
      hide SizesRight, Consistent, Sound, FallsKnown, Extends, Grown, HasStart, Hits, Traced, Ended, MustEnd, Flowing, EdgesRight,
        Accounted, Aimed, PushedInside;
      ghost var was, fell, before := bbs, falls, past;
      overlapped := CheckOverlap(at, idx);
      if !overlapped {
        ghost var mid, midFell, between := bbs, falls, past;
        TakeInstruction(at, idx);
        KeptTrans(was, fell, before, mid, midFell, between);
      }
    }

    // ----- recursion -----

    /** Reads code at an address and follows it; unreadable addresses, such as that of a
        missing target, yield an error. */
    method RecurseAt(target: Option<nat>, depth: int) returns (ret: Ret)
      requires Valid() && growing == None && (target.Some? ==> Wanted(target.value)) && depth >= 0 && Levels(depth)
      modifies this
      ensures Valid() && growing == None && Kept(old(bbs), old(falls), old(past)) && Ascending(bbs)
      ensures ReachedIf(target) && Preserves(old(bbs), bbs) && SizedBy(old(bbs), old(sizing), sizing, {})
      decreases depth, 1
    {
      hide SizesRight, Consistent, Sound, FallsKnown, Extends, Traced, HasStart, Accounted, Aimed, Preserves;
      ghost var was, fell, before := bbs, falls, past;
      ret := Error;
      ExtendsItself(bbs);
      PreservesItself(bbs);
      SizedItself(bbs, sizing);
      LeastIsBelow(Scene(), addr, bbs, past);
      if target.Some? {
        ret := Recurse(target.value, MAXBBSIZE, depth);
      }
      ghost var mid, midFell, between := bbs, falls, past;
      SortBlocks();
      KeptTrans(was, fell, before, mid, midFell, between);
      PreservesTrans(was, mid, bbs);
      ReachedStays(mid, midFell, between, target);
    }

    /** The edges that are written whatever has become of the block: those of a return
        after a push, and, if no other block was there, of a branch back before the
        function. */
    ghost predicate Rewritten(was: seq<Block>, at: nat, stop: Stop, now: seq<Block>)
    {
      stop.Follow? ==>
        && (stop.kind.Return? ==> Left(was, at, stop.pushed, now))
        && (BackBranch(stop.kind) && was == [] ==> EdgeAt(now, at, JumpOf(stop.kind)))
    }

    /** Follows the code from an address: splits the block that contains it, or appends a
        block, walks along it, and goes on at the targets of its last instruction. It ends
        for every code; afterwards the block list is sound and complete, still covers all
        it covered, and the address has been reached. */
    method Recurse(at: nat, len: nat, depth: int) returns (ret: Ret)
      requires Valid() && growing == None && Wanted(at) && past.least <= len <= MAXBBSIZE && Levels(depth)
      modifies this
      ensures Valid() && growing == None && Kept(old(bbs), old(falls), old(past)) && Reached(at)
      ensures Preserves(old(bbs), bbs) && SizedBy(old(bbs), old(sizing), sizing, {})
      ensures depth >= 1 && !Refused(at) ==> HasStart(bbs, at)
      ensures depth >= 1 && !Refused(at) && (forall i :: 0 <= i < |old(bbs)| ==> !Hits(old(bbs)[i], at)) ==>
                && Rewritten(old(bbs), at, Scan(at, 0, len, None), bbs) && TooLargeIsGivenUp(old(bbs), at, Scan(at, 0, len, None), ret, bbs, size)
                && LoopSized(old(bbs), old(sizing), at, Scan(at, 0, len, None), bbs, sizing)
      decreases depth, 0
    {
      hide SizesRight, Consistent, Sound, FallsKnown, Extends, Hits, HasStart, Traced, Ended, Flowing, EdgesRight, LastKind, Accounted,
        Aimed, Preserves, Scan, Left, EdgeAt, TargetsLead, Came, Open, SizedBy, LoopSized;
      ExtendsItself(bbs);
      PreservesItself(bbs);
      SizedItself(bbs, sizing);
      if depth < 1 {
        RunOut(at);
        return Error;
      }
      if !executable(at) {
        return End;
      }
      if !readable(at) || taken(at) {
        return Error;
      }
      ghost var was, fell, before := bbs, falls, past;
      var g := BbGet(at);
      if g.Some? {
        var r := SplitBb(at);
        HitIsStart(was, g.value, at);
        return if options.continueSplit then End else Error;
      }
      ret := Explore(at, len, depth);
    }

    /** Appends a block at an address that no block contains, and follows the code from
        there. */
    method Explore(at: nat, len: nat, depth: int) returns (ret: Ret)
      requires Valid() && growing == None && Arrived(Scene(), past, at) && past.least <= len <= MAXBBSIZE && depth >= 1 && Levels(depth)
      requires forall i :: 0 <= i < |bbs| ==> !Hits(bbs[i], at)
      modifies this
      ensures Valid() && growing == None && Kept(old(bbs), old(falls), old(past)) && HasStart(bbs, at)
      ensures Preserves(old(bbs), bbs) && SizedBy(old(bbs), old(sizing), sizing, {})
      ensures Rewritten(old(bbs), at, Scan(at, 0, len, None), bbs) && TooLargeIsGivenUp(old(bbs), at, Scan(at, 0, len, None), ret, bbs, size)
      ensures LoopSized(old(bbs), old(sizing), at, Scan(at, 0, len, None), bbs, sizing)
      decreases depth - 1, 8
    {
      hide SizesRight, Consistent, Sound, FallsKnown, Extends, Hits, HasStart, Traced, Ended, Flowing, EdgesRight, LastKind, Accounted,
        Aimed, Preserves, Scan, Rewritten, TargetsLead, Came, SizedBy, LedOn, LoopSized, TooLargeIsGivenUp, Stopped, Walking,
        StopFits, Complete;
      ghost var was, fell, before, first := bbs, falls, past, sizing;
      PendingExplored(Scene(), bbs, addr, size, sizing);
      Append(at);
      ghost var mid, midFell, between := bbs, falls, past;
      var stop, overlapped := Walk(at, len);
      KeptTrans(was, fell, before, mid, midFell, between);
      assert Extends(was, bbs);
      mid, midFell, between := bbs, falls, past;
      ghost var last := Last();
      assert mid == was + [last];
      var sized;
      WalkLed(at, stop, overlapped);
      ret, sized := FollowStop(was, last, at, stop, overlapped, depth);
      KeptTrans(was, fell, before, mid, midFell, between);
      StartStays(mid, bbs, at);
      ret := FitAtEnd(was, at, first, mid, last, stop, overlapped, ret, sized);
    }

    /** Goes on at the targets of a walk that stopped, if there are any. */
    method FollowStop(ghost was: seq<Block>, ghost last: Block, at: nat, stop: Stop, overlapped: bool, depth: int)
      returns (ret: Ret, sized: bool)
      requires Valid() && Stopped(at, stop, overlapped) && depth >= 1 && Levels(depth - 1) && at in sizing.explored
      requires bbs == was + [last]
      modifies this
      ensures Valid() && growing == None && Kept(old(bbs), old(falls), old(past))
      ensures SizedBy(old(bbs), Pended(old(sizing), last), sizing, EarlyFits(at, stop, last))
      ensures (sized ==> EarlyFits(at, stop, last) != {}) && (stop.Follow? && !FittedLate(stop.kind) ==> Extent(last) in sizing.measured)
      ensures stop.Follow? && FitsOnce(stop.kind) ==> sized
      ensures sized && (FitsOnce(stop.kind) ==> Oversize(0x4_0000, Extent(last).1)) ==> ret.Error? && size == 0
      ensures Preserves(was, bbs) && (stop.Finish? ==> bbs == old(bbs))
      ensures Rewritten(was, at, stop, bbs)
      decreases depth - 1, 7
    {
      hide SizesRight, Consistent, Sound, FallsKnown, Extends, HasStart, Traced, Ended, Flowing, EdgesRight, LastKind, Accounted,
        Aimed, Preserves, Left, EdgeAt, TargetsLead, Came, Open, SizedBy;
      ExtendsItself(bbs);
      match stop
      case Finish(r) =>
        FinishWalk(at);
        ret, sized := r, false;
        PreservesPrefix(was, bbs);
        SizedItself(bbs, sizing);
        SizedMore(bbs, sizing, sizing, EarlyFits(at, stop, last));
      case Follow(kind, pushed) =>
        ret, sized := FollowTargets(was, last, at, kind, pushed, overlapped, depth);
    }

    /** At the end of a walk and of what it led to, the size is fitted to the block where
        the walk began, unless that was done before. */
    method FitAtEnd(ghost was: seq<Block>, at: nat, ghost first: Sizing, ghost mid: seq<Block>, ghost last: Block, ghost stop: Stop,
                    ghost overlapped: bool, got: Ret, sized: bool) returns (ret: Ret)
      requires Valid() && growing == None && HasStart(bbs, at) && mid == was + [last] && last.addr == at
      requires at !in first.explored && !HasStart(was, at) && !Covers(was, at) && Extends(was, mid)
      requires forall m :: m in first.measured || m in first.pending ==> m.0 in first.explored
      requires SizedBy(mid, Pended(first.(explored := first.explored + {at}), last), sizing, EarlyFits(at, stop, last))
      requires (sized ==> EarlyFits(at, stop, last) != {}) && (stop.Follow? && !FittedLate(stop.kind) ==> Extent(last) in sizing.measured)
      requires stop.Follow? && FittedLate(stop.kind) ==> !AlwaysEarly()
      requires sized && (FitsOnce(stop.kind) ==> Oversize(0x4_0000, Extent(last).1)) ==> got.Error? && size == 0
      requires stop.Follow? && FitsOnce(stop.kind) ==> sized
      requires stop.Finish? ==> bbs == mid
      requires stop.Follow? ==> LedOn(Scene(), last.addr + last.size) && last.size > 0
      requires stop.Follow? && !overlapped ==> EndedAt(last.addr + last.size, stop.kind)
      requires overlapped ==> was != []
      modifies this`size, this`sizing
      ensures Valid() && SizedBy(was, first, sizing, {}) && TooLargeIsGivenUp(was, at, stop, ret, bbs, size)
      ensures LoopSized(was, first, at, stop, bbs, sizing)
    {
      hide SizesRight, Consistent, Sound, FallsKnown, Extends, HasStart, Traced, Accounted, Aimed, LastKind, SizedBy, LedOn, SizedOnce, Oversize,
        EndAt, Fitted, Covers, FitsTo, LoopSized, Settled, Measured, EndedAt, TooLargeIsGivenUp, LargeIsGivenUp;
      ghost var followed, m := sizing, Extent(last);
      ret := got;
      StillPending(mid, Pended(first.(explored := first.explored + {at}), last), followed, EarlyFits(at, stop, last), last);
      if !sized {
        ghost var before := size;
        var ok, k := FitSize(at);
        if !ok {
          ret := Error;
        }
        FittedToo(k, before, at, mid, last, followed, ok, ret);
      } else if FitsOnce(stop.kind) && was == [] {
        assert WalkedIsGivenUp(last.addr + last.size, stop.kind, ret, size);
      }
      OnceOrGivenUp(was, at, stop, sized, ret);
      ExploreSized(was, at, first, mid, last, followed, EarlyFits(at, stop, last), sizing);
      LoopIsSized(was, at, first, last, followed, stop, sized, overlapped);
      IsMeasured(sizing, m);
      SettleSize(m);
    }

    lemma OnceOrGivenUp(was: seq<Block>, at: nat, stop: Stop, sized: bool, ret: Ret)
      requires sized ==> stop.Follow?
      requires sized && !FitsOnce(stop.kind) ==> ret.Error? && size == 0
      requires sized && FitsOnce(stop.kind) && was == [] ==> exists e: nat :: WalkedIsGivenUp(e, stop.kind, ret, size)
      requires !sized ==> LargeIsGivenUp(at, ret, bbs, size) && (stop.Follow? ==> !FitsOnce(stop.kind))
      ensures TooLargeIsGivenUp(was, at, stop, ret, bbs, size)
    {
    }

    /** An instruction of this kind ends there. */
    ghost predicate EndedAt(e: nat, kind: Kind)
    {
      exists a: nat :: EndsInstruction(Scene(), a, e) && code(a).kind == kind
    }

    /** Blocks that are fitted before their targets are followed. */
    ghost function EarlyFits(at: nat, stop: Stop, b: Block): set<(nat, nat)>
    {
      if stop.Finish? then {} else ExtraFits(at, stop.kind, b)
    }

    /** Blocks that are fitted before their targets are followed. */
    ghost function ExtraFits(at: nat, kind: Kind, b: Block): set<(nat, nat)>
    {
      if FittedLate(kind) then {} else {Extent(b)}
    }

    /** The size is fitted only when the targets have been followed. */
    predicate FittedLate(k: Kind)
    {
      Recorded(k) || k.Return? || (k.Branch? && !NoSecond())
    }

    /** Every block is fitted before its targets are followed. */
    predicate AlwaysEarly()
    {
      NoSecond() && !options.pushReturn
    }

    /** Branches that get no second edge: the size is fitted before they are followed, and
        not again. */
    predicate FitsOnce(k: Kind)
    {
      NoSecond() && k.Branch?
    }

    /** A block that ends too far away makes the function be given up, with size 0: the
        block where the walk began as it is in the end, or the whole of it if the size is
        not fitted again. */
    ghost predicate TooLargeIsGivenUp(was: seq<Block>, at: nat, stop: Stop, ret: Ret, now: seq<Block>, size: nat)
    {
      if stop.Follow? && FitsOnce(stop.kind) then was == [] ==> exists e: nat :: WalkedIsGivenUp(e, stop.kind, ret, size)
      else LargeIsGivenUp(at, ret, now, size)
    }

    ghost predicate WalkedIsGivenUp(e: nat, kind: Kind, ret: Ret, size: nat)
    {
      EndedAt(e, kind) && (Oversize(0x4_0000, e) ==> ret.Error? && size == 0)
    }

    /** The block at the address is not too large, or was given up. */
    predicate LargeIsGivenUp(at: nat, ret: Ret, now: seq<Block>, size: nat)
    {
      forall k :: 0 <= k < |now| && now[k].addr == at && Oversize(0x4_0000, now[k].addr + now[k].size) ==> ret.Error? && size == 0
    }

    /** From an empty list, after a walk whose targets come first, the size was fitted just
        once to the block at the entry, as it was in the end; and nothing was explored
        within the bytes of the walk. */
    ghost predicate LoopSized(was: seq<Block>, y: Sizing, at: nat, stop: Stop, now: seq<Block>, z: Sizing)
    {
      was == [] && stop.Follow? && FittedLate(stop.kind) ==> exists e: nat :: SizedOnce(at, stop.kind, e, y, now, z)
    }

    ghost predicate SizedOnce(at: nat, kind: Kind, e: nat, y: Sizing, now: seq<Block>, z: Sizing)
    {
      && EndedAt(e, kind)
      && (forall x :: x in z.explored && x !in y.explored ==> x == at || x < at || x >= e)
      && (forall m :: m in z.measured && m !in y.measured && m.0 == at ==> EndAt(now, at, m.1))
      && (exists x: nat :: (at, x) in z.measured && (at, x) !in y.measured)
    }

    lemma FittedToo(k: nat, was: nat, at: nat, mid: seq<Block>, last: Block, followed: Sizing, ok: bool, ret: Ret)
      requires Sound(code, starts, bbs) && FitsTo(k, at, was, followed, ok)
      requires (!ok ==> ret.Error? && size == 0) && last.addr == at && mid != [] && mid[|mid| - 1] == last
      ensures LargeIsGivenUp(at, ret, bbs, size)
      ensures exists x: nat :: sizing == followed.(measured := followed.measured + {(at, x)}) && EndAt(bbs, at, x)
      ensures bbs == mid ==> Measured(sizing, last.addr + last.size)
    {
      hide Decoded, Fitted;
      var x := bbs[k].addr + bbs[k].size;
      forall j | 0 <= j < |bbs| && bbs[j].addr == at
        ensures j == k
      {
        OneStart(code, starts, bbs, j, k);
      }
      assert sizing == followed.(measured := followed.measured + {(at, x)}) && EndAt(bbs, at, x);
      assert (at, x) in sizing.measured;
    }

    lemma LoopIsSized(was: seq<Block>, at: nat, first: Sizing, last: Block, followed: Sizing, stop: Stop, sized: bool, overlapped: bool)
      requires last.addr == at && forall m :: m in first.measured ==> m.0 in first.explored
      requires stop.Follow? && !overlapped ==> EndedAt(last.addr + last.size, stop.kind)
      requires (overlapped ==> was != []) && at !in first.explored
      requires SizedBy(was + [last], Pended(first.(explored := first.explored + {at}), last), followed, EarlyFits(at, stop, last))
      requires sized ==> stop.Follow? && EarlyFits(at, stop, last) != {}
      requires !sized ==> exists x: nat :: sizing == followed.(measured := followed.measured + {(at, x)}) && EndAt(bbs, at, x)
      requires last.size > 0 || !stop.Follow?
      ensures LoopSized(was, first, at, stop, bbs, Settled(sizing, Extent(last)))
    {
      hide EndsInstruction, EndAt;
      if was == [] && stop.Follow? && FittedLate(stop.kind) {
        var x: nat :| sizing == followed.(measured := followed.measured + {(at, x)}) && EndAt(bbs, at, x);
        var e := last.addr + last.size;
        var z := Settled(sizing, (at, e));
        forall a | a in z.explored && a !in first.explored
          ensures a == at || a < at || a >= e
        {
          if a != at {
            assert was + [last] == [last];
            NotInside(last, a);
          }
        }
        forall m | m in z.measured && m !in first.measured && m.0 == at
          ensures EndAt(bbs, at, m.1)
        {
          assert m in followed.measured ==> m.0 !in first.explored + {at};
        }
        assert (at, x) in z.measured && (at, x) !in first.measured;
        assert SizedOnce(at, stop.kind, e, first, bbs, z);
      }
    }

    lemma NotInside(b: Block, a: nat)
      requires !Covers([b], a)
      ensures !InBlock(b, a)
    {
      assert [b][0] == b;
    }

    ghost method SettleSize(m: (nat, nat))
      requires Valid() && growing == None && m in sizing.pending
      requires Measured(sizing, m.1) || (LedOn(Scene(), m.1) && !AlwaysEarly())
      modifies this`sizing
      ensures Valid() && sizing == Settled(old(sizing), m)
    {
      hide SizesRight, Consistent, Sound, FallsKnown, Traced, Accounted, Aimed, LedOn, Measured;
      SizesSettle(Scene(), bbs, addr, size, sizing, m);
      sizing := Settled(sizing, m);
    }

    /** A walk with targets ended at an instruction that leads on. */
    lemma WalkLed(at: nat, stop: Stop, overlapped: bool)
      requires Valid() && Stopped(at, stop, overlapped)
      ensures Last().addr == at && HasStart(bbs, at) && (overlapped ==> |bbs| > 1)
      ensures stop.Follow? ==> LedOn(Scene(), Last().addr + Last().size) && Last().size > 0 && (FittedLate(stop.kind) ==> !AlwaysEarly())
      ensures stop.Follow? && !overlapped ==> EndedAt(Last().addr + Last().size, stop.kind)
    {
      hide SizesRight, Consistent, Sound, FallsKnown, Traced, Accounted, Aimed, Ended, HasStart, StopFits, PushedInside, PushedBehind, LedOn,
        LastKind;
      if stop.Follow? {
        BlockIsDecoded(code, starts, bbs, |bbs| - 1);
        LastHasSize(code, starts, Last());
        OpenHasInstructions(stop, overlapped);
        var a := LastInstruction(code, starts, bbs);
        FollowedHasTargets(stop);
        InstructionLedOn(Scene(), Last(), a, Last().addr + Last().size);
      }
    }

    lemma OpenHasInstructions(stop: Stop, overlapped: bool)
      requires bbs != [] && stop.Follow? && Open(Scene(), Last(), stop.kind, stop.pushed, overlapped)
      requires Last().ninstr > 0 <==> Last().size > 0
      requires overlapped ==> Joined()
      ensures Last().ninstr > 0 && Last().size > 0
    {
    }

    lemma FollowedHasTargets(stop: Stop)
      requires StopFits(stop) && stop.Follow?
      ensures stop.kind.Branch? || stop.kind.Jump? || (options.pushReturn && stop.kind.Return?)
      ensures FittedLate(stop.kind) ==> !AlwaysEarly()
    {
    }

    /** Notes a target that will not be followed because there are as many blocks as levels
        of recursion. */
    ghost method RunOut(target: nat)
      requires Valid() && |bbs| >= FCN_DEPTH
      modifies this`past
      ensures Valid() && past == old(past).(deep := old(past).deep + {target})
    {
      hide SizesRight, Consistent, Sound, FallsKnown, Traced, Aimed;
      var q := past.(deep := past.deep + {target});
      ExtendsItself(bbs);
      NothingOpens(Scene(), q, bbs);
      TracedStays(Scene(), past, q, bbs, bbs, growing);
      past := q;
    }

    /** Notes targets that will not be followed because the function is too large. */
    ghost method GiveUp(first: Option<nat>, second: Option<nat>)
      requires Valid() && Far(starts, addr, bbs)
      modifies this`past
      ensures Valid() && past == old(past).(large := old(past).large + TargetSet(first) + TargetSet(second))
    {
      hide SizesRight, Consistent, Sound, FallsKnown, Traced, Aimed, Far;
      var q := past.(large := past.large + TargetSet(first) + TargetSet(second));
      ExtendsItself(bbs);
      NothingOpens(Scene(), q, bbs);
      TracedStays(Scene(), past, q, bbs, bbs, growing);
      past := q;
    }

    method Append(at: nat)
      requires Valid() && growing == None && Arrived(Scene(), past, at) && forall i :: 0 <= i < |bbs| ==> !Hits(bbs[i], at)
      modifies this`bbs, this`growing, this`sizing
      ensures Valid() && Kept(old(bbs), old(falls), old(past)) && bbs == old(bbs) + [NewBlock(at)] && Walking(at, 0)
      ensures sizing == old(sizing).(explored := old(sizing).explored + {at})
      ensures at !in old(sizing).explored && !HasStart(old(bbs), at) && !Covers(old(bbs), at)
    {
      hide SizesRight, Consistent, Sound, FallsKnown, Extends, Traced, Accounted;
      assert starts(at);
      AppendKeeps(code, starts, bbs, at);
      FallsStay(bbs, bbs + [NewBlock(at)], falls);
      TracedAppend(Scene(), past, bbs, at);
      AccountedAppend(Scene(), addr, bbs, NewBlock(at), past);
      NoneHit(Scene(), bbs, at, addr, size, sizing);
      SizesAppend(Scene(), bbs, at, addr, size, sizing);
      sizing := sizing.(explored := sizing.explored + {at});
      bbs := bbs + [NewBlock(at)];
      growing := Some(at);
    }

    /** The walk over a function's code from its entry, with the usual depth. Nothing is
        given up if the limits do not touch the code. */
    method Analyse(entry: nat, len: nat) returns (ret: Ret)
      requires Valid() && growing == None && past.open == {} && past.goals(entry) && len <= MAXBBSIZE
      modifies this
      ensures Valid() && growing == None && past.open == {} && Ascending(bbs)
      ensures Extends(old(bbs), bbs) && Preserves(old(bbs), bbs)
      ensures past.goals == old(past).goals && past.entries == old(past).entries + {entry}
      ensures past.least == if len < old(past).least then len else old(past).least
      ensures Refused(entry) || HasStart(bbs, entry)
      ensures sizing.pending == {} && sizing.prior == Restarted(old(bbs), old(sizing)).prior
      ensures sizing.prior == {} && AllSmall(bbs, addr) ==>
                && (Spans(bbs, addr, size) <==> forall e :: e in sizing.torn ==> e <= addr + size)
                && (AlwaysEarly() ==> Spans(bbs, addr, size)) && (size == 0 || IsEnd(bbs, addr + size, None))
      ensures forall targets: set<nat> :: Manageable(code, starts, addr, past, targets) ==> GaveUpNothing(past)
      ensures !Refused(entry) && (forall i :: 0 <= i < |old(bbs)| ==> !Hits(old(bbs)[i], entry)) ==>
                && Rewritten(old(bbs), entry, Scan(entry, 0, len, None), bbs)
                && TooLargeIsGivenUp(old(bbs), entry, Scan(entry, 0, len, None), ret, bbs, size)
                && LoopSized(old(bbs), Restarted(old(bbs), old(sizing)), entry, Scan(entry, 0, len, None), bbs, sizing)
    {
      hide SizesRight, Consistent, Sound, FallsKnown, Traced, Extends, Accounted, Aimed, HasStart, Preserves, Scan, Hits, LeftBlock, Manageable,
        Came, GaveUpNothing, LoopSized, Spans, AllSmall, IsEnd;
      ghost var was, first := bbs, Restarted(bbs, sizing);
      Restart();
      Lower(len);
      ghost var before := past;
      Enter(entry);
      ghost var entered := past;
      ret := Recurse(entry, len, FCN_DEPTH);
      ghost var mid, midFell, between := bbs, falls, past;
      SortBlocks();
      KeptTrans(was, old(falls), entered, mid, midFell, between);
      ReachedStays(mid, midFell, between, Some(entry));
      StartStays(mid, bbs, entry);
      Settle(Some(entry), None, before);
      PreservesTrans(was, mid, bbs);
      if !Refused(entry) && forall i :: 0 <= i < |was| ==> !Hits(was[i], entry) {
        StillRewritten(was, mid, entry, Scan(entry, 0, len, None));
        StillSized(was, first, mid, entry, Scan(entry, 0, len, None));
        StillGivenUp(was, entry, Scan(entry, 0, len, None), ret, mid);
      }
      if sizing.prior == {} && AllSmall(bbs, addr) {
        SizeIsExact(Scene(), bbs, addr, size, sizing);
      }
      forall targets: set<nat> | Manageable(code, starts, addr, past, targets)
        ensures GaveUpNothing(past)
      {
        NothingIsGivenUp(Scene(), addr, bbs, past, targets);
      }
    }

    /** Sorting changes no edges. */
    lemma StillRewritten(was: seq<Block>, mid: seq<Block>, at: nat, stop: Stop)
      requires multiset(bbs) == multiset(mid) && Rewritten(was, at, stop, mid)
      ensures Rewritten(was, at, stop, bbs)
    {
      SameMembers(bbs, mid);
      if stop.Follow? && stop.kind.Return? {
        var b: Block :| LeftBlock(was, b, at, stop.pushed, mid);
        SortedLeft(was, b, at, stop.pushed, mid, bbs);
      }
      if stop.Follow? && BackBranch(stop.kind) && was == [] {
        var k :| 0 <= k < |mid| && mid[k].addr == at && mid[k].jump == stop.kind.jump && mid[k].fail == None;
        assert mid[k] in bbs;
      }
    }

    /** The size is found out anew. */
    method Restart()
      requires Valid() && growing == None
      modifies this`size, this`sizing
      ensures Valid() && size == 0 && sizing == Restarted(bbs, old(sizing))
    {
      hide SizesRight, Consistent, Sound, FallsKnown, Traced, Accounted, Aimed;
      SizesRestart(Scene(), bbs, addr, size, sizing);
      size := 0;
      sizing := Restarted(bbs, sizing);
    }

    lemma StillSized(was: seq<Block>, y: Sizing, mid: seq<Block>, at: nat, stop: Stop)
      requires multiset(bbs) == multiset(mid) && LoopSized(was, y, at, stop, mid, sizing)
      ensures LoopSized(was, y, at, stop, bbs, sizing)
    {
      SameMembers(bbs, mid);
      if was == [] && stop.Follow? && FittedLate(stop.kind) {
        var e: nat :| SizedOnce(at, stop.kind, e, y, mid, sizing);
        forall m | m in sizing.measured && m !in y.measured && m.0 == at
          ensures EndAt(bbs, at, m.1)
        {
          var i :| 0 <= i < |mid| && mid[i].addr == at && mid[i].addr + mid[i].size == m.1;
          assert mid[i] in bbs;
        }
        assert SizedOnce(at, stop.kind, e, y, bbs, sizing);
      }
    }

    lemma StillGivenUp(was: seq<Block>, at: nat, stop: Stop, ret: Ret, mid: seq<Block>)
      requires multiset(bbs) == multiset(mid) && TooLargeIsGivenUp(was, at, stop, ret, mid, size)
      ensures TooLargeIsGivenUp(was, at, stop, ret, bbs, size)
    {
      hide EndedAt, Oversize;
      SameMembers(mid, bbs);
      forall k | 0 <= k < |bbs| && bbs[k].addr == at && Oversize(0x4_0000, bbs[k].addr + bbs[k].size)
        ensures LargeIsGivenUp(at, ret, mid, size) ==> ret.Error? && size == 0
      {
        assert bbs[k] in mid;
      }
    }

    /** Notes an entry, which is about to be followed. */
    ghost method Enter(entry: nat)
      requires Valid() && growing == None && past.goals(entry)
      modifies this`past
      ensures Valid() && past == old(past).(entries := old(past).entries + {entry}, open := old(past).open + {entry})
      ensures Wanted(entry)
    {
      hide SizesRight, Consistent, Sound, FallsKnown, Aimed, Came;
      var q := past.(entries := past.entries + {entry}, open := past.open + {entry});
      EnterIsRight(Scene(), addr, past, q, bbs, entry);
      past := q;
      if !Refused(entry) {
        EntryCame(Scene(), past.entries, entry);
      }
    }

    /** Notes that a walk will have so many bytes. */
    ghost method Lower(len: nat)
      requires Valid() && growing == None
      modifies this`past
      ensures Valid() && past == old(past).(least := if len < old(past).least then len else old(past).least)
    {
      hide SizesRight, Consistent, Sound, FallsKnown, Aimed;
      var q := past.(least := if len < past.least then len else past.least);
      LowerIsRight(Scene(), addr, past, q, bbs);
      past := q;
    }

    /** More addresses may be targets. */
    ghost method Widen(goals: nat -> bool)
      requires Valid() && growing == None
      requires Aimed(code, starts, goals, options.pushReturn) && forall g: nat :: past.goals(g) ==> goals(g)
      modifies this`past
      ensures Valid() && past == old(past).(goals := goals)
    {
      hide SizesRight, Consistent, Sound, FallsKnown, Aimed;
      var q := past.(goals := goals);
      WidenIsRight(Scene(), addr, past, q, bbs);
      past := q;
    }

    // ----- what the recursion has found -----

    /** Every edge leads to the start of a block or to an address that cannot be followed;
        edges are the targets of the last instruction, which is the only one that ends the
        flow. */
    lemma EdgesAreFollowed(k: nat)
      requires Valid() && growing == None && GaveUpNothing(past) && k < |bbs|
      ensures bbs[k].jump.Some? ==> HasStart(bbs, bbs[k].jump.value) || Refused(bbs[k].jump.value)
      ensures bbs[k].fail.Some? ==> HasStart(bbs, bbs[k].fail.value) || Refused(bbs[k].fail.value)
      ensures EdgesRight(Scene(), past, bbs[k]) && Straight(Scene(), bbs[k])
      ensures LastEnds(Scene(), bbs[k]) || (bbs[k].size > 0 && HasStart(bbs, bbs[k].addr + bbs[k].size))
              || !Walkable(Scene(), bbs[k].addr + bbs[k].size)
    {
      hide SizesRight;
      assert BlockTraced(Scene(), past, bbs, bbs[k], growing);
      assert !CutAt(past, bbs[k].addr + bbs[k].size);
    }

    /** The flow comes to instructions only. */
    lemma {:induction false} PathStarts(path: seq<nat>)
      requires Valid() && Path(Scene(), past.entries, path)
      requires forall i :: 0 <= i < |path| - 1 ==> Walkable(Scene(), path[i])
      ensures forall i :: 0 <= i < |path| ==> starts(path[i])
    {
      hide SizesRight, Sound, Traced, FallsKnown;
      var n := |path| - 1;
      if n > 0 {
        var front := path[..n];
        assert Goes(Scene(), path[n - 1], path[n - 1 + 1]);
        forall i | 0 <= i < |front| - 1
          ensures Goes(Scene(), front[i], front[i + 1]) && Walkable(Scene(), front[i])
        {
          assert Goes(Scene(), path[i], path[i + 1]);
        }
        PathStarts(front);
        assert front[n - 1] == path[n - 1];
        assert starts(path[n]);
        assert forall i :: 0 <= i < n ==> path[i] == front[i];
      }
    }

    lemma PathWalks(path: seq<nat>)
      requires Path(Scene(), past.entries, path)
      ensures forall i :: 0 <= i < |path| - 1 ==> Walkable(Scene(), path[i])
    {
      forall i | 0 <= i < |path| - 1
        ensures Walkable(Scene(), path[i])
      {
        assert Goes(Scene(), path[i], path[i + 1]);
      }
    }

    lemma SureIsPath(path: seq<nat>)
      requires SurePath(Scene(), past.entries, path)
      ensures Path(Scene(), past.entries, path)
    {
      forall i | 0 <= i < |path| - 1
        ensures Goes(Scene(), path[i], path[i + 1])
      {
        assert GoesSurely(Scene(), path[i], path[i + 1]);
      }
    }

    /** Nothing is missing: what the program surely follows from its entries is covered. */
    lemma ReachableIsCovered(path: seq<nat>)
      requires Valid() && growing == None && GaveUpNothing(past)
      requires SurePath(Scene(), past.entries, path) && Walkable(Scene(), path[|path| - 1])
      ensures Covers(bbs, path[|path| - 1])
    {
      hide SizesRight, Path, SurePath, Covers, GaveUpNothing;
      SureIsPath(path);
      PathWalks(path);
      PathStarts(path);
      PathIsCovered(Scene(), past, bbs, path);
    }

    /** Nothing is too much: the flow comes to every covered instruction, even if something
        was given up. */
    lemma CoveredIsReachable(x: nat)
      requires Valid() && growing == None && starts(x) && Covers(bbs, x)
      ensures Came(Scene(), past.entries, x) && Walkable(Scene(), x)
    {
      hide SizesRight, Came, Covers;
      forall i | 0 <= i < |bbs|
        ensures Came(Scene(), past.entries, bbs[i].addr)
      {
        assert Arrived(Scene(), past, bbs[i].addr);
      }
      CoveredCame(Scene(), past, bbs, x);
    }

    /** Where returns do not go to pushed addresses, the covered instructions are exactly
        those that the flow comes to from an entry. */
    lemma CoveredIffReachable(x: nat)
      requires Valid() && growing == None && GaveUpNothing(past) && !options.pushReturn && starts(x)
      ensures Covers(bbs, x) <==> Came(Scene(), past.entries, x) && Walkable(Scene(), x)
    {
      hide SizesRight, Covers, GaveUpNothing;
      if Covers(bbs, x) {
        CoveredIsReachable(x);
      }
      if Came(Scene(), past.entries, x) && Walkable(Scene(), x) {
        var path :| Path(Scene(), past.entries, path) && EndsWith(path, x);
        forall i | 0 <= i < |path| - 1
          ensures GoesSurely(Scene(), path[i], path[i + 1])
        {
          SureWithoutPushes(Scene(), path[i], path[i + 1]);
        }
        ReachableIsCovered(path);
      }
    }

    /** A covered branch ends a block with its targets as edges: the first always, the second
        unless the options rule it out or it was taken back; both were followed. */
    lemma BranchHasEdges(a: nat) returns (k: nat)
      requires Valid() && growing == None && starts(a) && Covers(bbs, a) && code(a).kind.Branch?
      ensures k < |bbs| && bbs[k].addr + bbs[k].size == a + code(a).size && bbs[k].jump == code(a).kind.jump
      ensures SecondRight(Scene(), code(a).kind, bbs[k].fail)
      ensures GaveUpNothing(past) ==> forall t :: t in Followed(code(a).kind) ==> HasStart(bbs, t) || Refused(t)
    {
      hide SizesRight, Consistent, Sound, Traced, Accounted, Aimed, FallsKnown, Ended, TargetsLead, After, Straight, Covers;
      k := EndIsLast(Scene(), past, bbs, a);
      assert !Flowing(Scene(), bbs[k]);
      if GaveUpNothing(past) {
        TargetsAreFound(Scene(), past, bbs, a);
        assert forall t :: t in Followed(code(a).kind) ==> Found(Scene(), bbs, t);
      }
    }

    /** A covered jump ends a block too: its target is the block's only edge, if it has one,
        comes back, lies in the same section, not before the function unless that is
        allowed, and jumps do not end blocks early. */
    lemma JumpHasEdge(a: nat) returns (k: nat)
      requires Valid() && growing == None && starts(a) && Covers(bbs, a) && code(a).kind.Jump?
      ensures k < |bbs| && bbs[k].addr + bbs[k].size == a + code(a).size && bbs[k].fail == None
      ensures var j := code(a).kind;
              bbs[k].jump == if j.to.Some? && !j.noReturn && !j.otherSection && (addr <= j.to.value || options.jumpAbove) && !options.eobJump
                             then j.to else None
      ensures GaveUpNothing(past) && bbs[k].jump.Some? ==> HasStart(bbs, bbs[k].jump.value) || Refused(bbs[k].jump.value)
    {
      hide SizesRight, Consistent, Sound, Traced, Accounted, Aimed, FallsKnown, Ended, TargetsLead, After, Straight, Covers;
      k := EndIsLast(Scene(), past, bbs, a);
      assert !Flowing(Scene(), bbs[k]);
      if GaveUpNothing(past) {
        TargetsAreFound(Scene(), past, bbs, a);
        if bbs[k].jump.Some? {
          assert bbs[k].jump.value in Followed(code(a).kind) && Found(Scene(), bbs, bbs[k].jump.value);
        }
      }
    }

    /** No instruction outside the limits is taken. */
    lemma CoveredIsInside(x: nat)
      requires Valid() && growing == None && starts(x) && Covers(bbs, x)
      ensures Decodes(code(x)) && (options.limit.Some? ==> options.limit.value.0 <= x < options.limit.value.1)
    {
      hide SizesRight, Consistent, Sound, Traced, Accounted, Aimed, FallsKnown, Covers, Came;
      CoveredIsReachable(x);
    }

    /** With the options under which such edges are never overwritten, a block that lets the
        flow go on leads to the next instruction and nowhere else. */
    lemma FallsAreRight(k: nat)
      requires Valid() && growing == None && GaveUpNothing(past) && k < |bbs| && Flowing(Scene(), bbs[k]) && KeepsFalls()
      ensures bbs[k].fail == None
      ensures var end := bbs[k].addr + bbs[k].size;
              if bbs[k].jump.Some? then bbs[k].jump == Some(end) && (HasStart(bbs, end) || Refused(end))
              else !Walkable(Scene(), end)
    {
      hide SizesRight, Flowing, Consistent, Sound, Traced, FallsKnown, Accounted, Aimed, GaveUpNothing;
      FallEdges(Scene(), past, bbs, k);
    }

    /** Within the largest size the function ends where its last block does, if the
        instruction there has no targets. */
    lemma SizeIsRight(x: nat)
      requires Valid() && growing == None && GaveUpNothing(past) && sizing.prior == {} && sizing.pending == {}
      requires AllSmall(bbs, addr) && starts(x) && Covers(bbs, x) && !HasTargets(Scene(), x) && Ends(bbs, x + code(x).size)
      ensures Spans(bbs, addr, size) && (size == 0 || IsEnd(bbs, addr + size, None))
    {
      hide SizesRight, Consistent, Sound, Traced, FallsKnown, Accounted, Aimed, GaveUpNothing, AllSmall, Spans, Ends, IsEnd, Covers;
      LastWithoutTargets(Scene(), past, bbs, addr, size, sizing, x);
      SizeIsExact(Scene(), bbs, addr, size, sizing);
    }

    // ----- targets -----

    /** Sets the edges that an instruction with targets calls for, and recurses there. */
    method FollowTargets(ghost was: seq<Block>, ghost last: Block, at: nat, kind: Kind, pushed: Option<nat>, overlapped: bool, depth: int)
      returns (ret: Ret, sized: bool)
      requires Valid() && Stopped(at, Follow(kind, pushed), overlapped) && depth >= 1 && Levels(depth - 1)
      requires bbs == was + [last] && at in sizing.explored
      modifies this
      ensures Valid() && growing == None && Kept(old(bbs), old(falls), old(past)) && HasStart(bbs, at)
      ensures SizedBy(old(bbs), Pended(old(sizing), last), sizing, ExtraFits(at, kind, last))
      ensures (sized ==> ExtraFits(at, kind, last) != {}) && (!FittedLate(kind) ==> Extent(last) in sizing.measured)
      ensures FitsOnce(kind) ==> sized
      ensures sized && (FitsOnce(kind) ==> Oversize(0x4_0000, Extent(last).1)) ==> ret.Error? && size == 0
      ensures Preserves(was, bbs) && (kind.Return? ==> Left(was, at, pushed, bbs))
      ensures BackBranch(kind) && !overlapped ==> EdgeAt(bbs, at, JumpOf(kind))
      decreases depth - 1, 6
    {
      hide SizesRight, Consistent, Sound, FallsKnown, Extends, HasStart, Traced, Ended, Flowing, Accounted, Aimed, Preserves, EdgesRight,
        TargetsLead, Left, EdgeAt, LastKind;
      sized := false;
      match kind
      case Jump(to, after, _, otherSection) =>
        if options.eobJump || otherSection {
          ret, sized := EndWithJump(was, last, at, kind, pushed, overlapped, depth);
        } else {
          JumpIsEdged(Scene(), past, bbs, Last(), kind, pushed, overlapped);
          ret := JumpTo(was, at, to, overlapped, depth);
        }
      case Branch(jump, fail) => ret, sized := FollowBranch(was, last, at, kind, pushed, overlapped, depth);
      case Return(_) =>
        ReturnIsEdged(Scene(), past, bbs, Last(), kind, pushed, overlapped);
        ret := JumpTo(was, at, pushed, false, depth);
    }

    /** A jump that ends the analysis of its block early: only the address behind it is
        followed. */
    method EndWithJump(ghost was: seq<Block>, ghost last: Block, at: nat, kind: Kind, ghost pushed: Option<nat>, overlapped: bool, depth: int)
      returns (ret: Ret, sized: bool)
      requires Valid() && Stopped(at, Follow(kind, pushed), overlapped) && depth >= 1 && Levels(depth - 1) && at in sizing.explored
      requires bbs == was + [last] && kind.Jump? && Taken(kind) && (options.eobJump || kind.otherSection)
      modifies this
      ensures Valid() && growing == None && Kept(old(bbs), old(falls), old(past)) && HasStart(bbs, at)
      ensures Preserves(was, bbs) && ReachedIf(kind.after)
      ensures SizedBy(old(bbs), Pended(old(sizing), last), sizing, {Extent(last)})
      ensures Extent(last) in sizing.measured && (sized ==> ret.Error? && size == 0)
      decreases depth - 1, 5
    {
      hide SizesRight, Consistent, Sound, FallsKnown, Extends, HasStart, Traced, Ended, Flowing, Accounted, Aimed, Preserves, EdgesRight,
        TargetsLead, LastKind;
      ghost var mid, before, first := bbs, past, sizing;
      EndedJumpIsEdged(Scene(), past, bbs, Last(), kind, pushed, overlapped);
      Announce(None, kind.after);
      OpenLeads(Scene(), past, bbs, None, kind.after);
      EndedLater(Scene(), before, past, bbs, Last());
      AimsLead(Scene(), past, bbs, Last(), TargetSet(kind.after));
      FinishWalk(at);
      ExtendsItself(bbs);
      PreservesPrefix(was, bbs);
      var ok;
      ret, ok := FitThenRecurse(mid, last, first, at, None, kind.after, depth);
      PreservesTrans(was, mid, bbs);
      sized := !ok;
      Settle(None, kind.after, before);
    }

    /** Fits the size to the block of a walk before its targets are followed, unless the
        function is too large. */
    method FitThenRecurse(ghost mid: seq<Block>, ghost last: Block, ghost first: Sizing, at: nat, one: Option<nat>, other: Option<nat>,
                          depth: int) returns (ret: Ret, ok: bool)
      requires Valid() && growing == None && HasStart(bbs, at) && at in sizing.explored && depth >= 1 && Levels(depth - 1)
      requires (one.Some? ==> Wanted(one.value)) && (other.Some? ==> Wanted(other.value))
      requires Extends(mid, bbs) && SameLastBlock(mid, last, at) && sizing == Pended(first, last)
      modifies this
      ensures Valid() && growing == None && Kept(old(bbs), old(falls), old(past)) && HasStart(bbs, at)
      ensures ReachedIf(one) && ReachedIf(other) && Preserves(old(bbs), bbs)
      ensures SizedBy(mid, Pended(first, last), sizing, {Extent(last)})
      ensures Extent(last) in sizing.measured && (!ok ==> ret.Error? && size == 0)
      ensures Oversize(0x4_0000, Extent(last).1) ==> !ok
      decreases depth - 1, 3
    {
      hide SizesRight, Consistent, Sound, FallsKnown, Extends, HasStart, Traced, Accounted, Aimed, Preserves, Fitted, Oversize;
      ghost var size0, was := size, bbs;
      ghost var k;
      ok, k := FitSize(at);
      FitsLast(k, size0, at, mid, last, first, ok);
      ghost var fitted := sizing;
      ExtendsItself(bbs);
      PreservesItself(bbs);
      if ok {
        ret := RecurseTwice(at, one, other, depth);
      } else {
        GiveUp(one, other);
        SizedItself(was, sizing);
        ret := Error;
      }
      SizedTrans(mid, Pended(first, last), was, fitted, sizing, {Extent(last)}, {});
    }

    /** The last block is still that of the walk, but for its edges. */
    predicate SameLastBlock(mid: seq<Block>, last: Block, at: nat)
      reads this
    {
      && mid != [] && last == mid[|mid| - 1] && last.addr == at && |bbs| == |mid|
      && bbs[|bbs| - 1].addr == at && bbs[|bbs| - 1].size == last.size
    }

    /** Right after a walk the size is fitted to the whole block. */
    lemma FitsLast(k: nat, was: nat, at: nat, mid: seq<Block>, last: Block, first: Sizing, ok: bool)
      requires Sound(code, starts, bbs) && SameLastBlock(mid, last, at)
      requires FitsTo(k, at, was, Pended(first, last), ok)
      ensures Oversize(0x4_0000, Extent(last).1) ==> !ok
      ensures sizing == Fit(Pended(first, last), last)
      ensures SizedBy(mid, Pended(first, last), sizing, {Extent(last)})
    {
      hide Decoded, Fitted;
      OneStart(code, starts, bbs, k, |bbs| - 1);
    }

    /** Sets the edges of the block that was grown, unless it leads to another block. */
    method CloseWalk(at: nat, jump: Option<nat>, fail: Option<nat>, overlapped: bool)
      requires Valid() && Complete(at) && HasStart(bbs, at) && Led() && at in sizing.explored
      requires Leads(Scene(), past, bbs, jump) && Leads(Scene(), past, bbs, fail)
      requires if overlapped then Edged() else EdgesRight(Scene(), past, Last().(jump := jump, fail := fail))
      modifies this`bbs, this`growing, this`sizing
      ensures Valid() && growing == None && Kept(old(bbs), old(falls), old(past)) && HasStart(bbs, at)
      ensures sizing == Pended(old(sizing), old(Last()))
      ensures bbs == if overlapped then old(bbs) else old(bbs)[|old(bbs)| - 1 := old(bbs)[|old(bbs)| - 1].(jump := jump, fail := fail)]
    {
      hide SizesRight, Consistent, Sound, FallsKnown, Extends, HasStart, Traced, Leads, EdgesRight, Accounted, Aimed, Ended, TargetsLead;
      ExtendsItself(bbs);
      if !overlapped {
        var k := |bbs| - 1;
        var b := bbs[k].(jump := jump, fail := fail);
        EdgesKeep(code, starts, bbs, k, b);
        FallsStay(bbs, bbs[k := b], falls);
        StartStays(bbs, bbs[k := b], at);
        TracedEdges(Scene(), past, bbs, k, jump, fail, growing);
        EndedStays(Scene(), past, bbs, bbs[k := b], bbs[k], b);
        LedStays(Scene(), past, bbs, bbs[k := b], bbs[k], b);
        AccountedUpdate(Scene(), addr, bbs, k, b, past);
        SizesUpdate(Scene(), bbs, k, b, addr, size, sizing, growing);
        bbs := bbs[k := b];
      }
      FinishWalk(at);
    }

    /** Announces targets, so that edges may lead there before they are followed. */
    ghost method Announce(first: Option<nat>, second: Option<nat>)
      requires Valid()
      modifies this`past
      ensures Valid() && past == old(past).(open := old(past).open + TargetSet(first) + TargetSet(second))
    {
      hide SizesRight, Consistent, Sound, FallsKnown, Traced, Aimed;
      var q := past.(open := past.open + TargetSet(first) + TargetSet(second));
      ExtendsItself(bbs);
      StillOpen(Scene(), past, q, bbs);
      TracedStays(Scene(), past, q, bbs, bbs, growing);
      past := q;
    }

    /** Takes back what was announced, once it has been followed. */
    ghost method Settle(first: Option<nat>, second: Option<nat>, before: Past)
      requires Valid() && ReachedIf(first) && ReachedIf(second)
      requires past.open == before.open + TargetSet(first) + TargetSet(second)
      modifies this`past
      ensures Valid() && past == old(past).(open := before.open)
    {
      hide SizesRight, Consistent, Sound, FallsKnown, Traced, Aimed;
      var q := past.(open := before.open);
      ExtendsItself(bbs);
      SettleTargets(Scene(), past, q, bbs, first, second);
      TracedStays(Scene(), past, q, bbs, bbs, growing);
      past := q;
    }

    method JumpTo(ghost was: seq<Block>, at: nat, to: Option<nat>, overlapped: bool, depth: int) returns (ret: Ret)
      requires Valid() && Complete(at) && HasStart(bbs, at) && (to.Some? ==> Wanted(to.value))
      requires depth >= 1 && Levels(depth - 1) && bbs[..|bbs| - 1] == was && at in sizing.explored
      requires if overlapped then Edged() else EdgesRight(Scene(), past, Last().(jump := to, fail := None))
      requires AimsAt(Scene(), Last(), TargetSet(to))
      modifies this
      ensures Valid() && growing == None && Kept(old(bbs), old(falls), old(past)) && HasStart(bbs, at)
      ensures ReachedIf(to) && Preserves(was, bbs) && (!overlapped ==> Left(was, at, to, bbs))
      ensures SizedBy(old(bbs), Pended(old(sizing), old(Last())), sizing, {})
      decreases depth - 1, 3
    {
      hide SizesRight, Consistent, Sound, FallsKnown, Extends, HasStart, Traced, EdgesRight, Ended, Accounted, Aimed, Preserves, TargetsLead,
        AimsAt, Leads;
      ghost var mid0, fell, before, pended := bbs, falls, past, Pended(sizing, Last());
      Announce(to, None);
      EndedLater(Scene(), before, past, bbs, Last());
      EdgesLater(Scene(), before, past, Last());
      EdgesLater(Scene(), before, past, Last().(jump := to, fail := None));
      OpenLeads(Scene(), past, bbs, to, None);
      AimsLead(Scene(), past, bbs, Last(), TargetSet(to));
      CloseWalk(at, to, None, overlapped);
      ghost var mid, midFell, between := bbs, falls, past;
      assert mid[..|mid| - 1] == was;
      PreservesPrefix(was, mid);
      ret := RecurseAt(to, depth - 1);
      StartStays(mid, bbs, at);
      PreservesTrans(was, mid, bbs);
      if !overlapped {
        LeftIs(code, starts, was, mid, at, to, bbs);
      }
      Settle(to, None, before);
      SizedEarlier(mid0, mid, pended, sizing);
      ExtendsTrans(mid0, mid, bbs);
    }

    method RecurseTwice(at: nat, first: Option<nat>, second: Option<nat>, depth: int) returns (ret: Ret)
      requires Valid() && growing == None && HasStart(bbs, at) && depth >= 1 && Levels(depth - 1)
      requires (first.Some? ==> Wanted(first.value)) && (second.Some? ==> Wanted(second.value))
      modifies this
      ensures Valid() && growing == None && Kept(old(bbs), old(falls), old(past)) && HasStart(bbs, at)
      ensures ReachedIf(first) && ReachedIf(second) && Preserves(old(bbs), bbs) && SizedBy(old(bbs), old(sizing), sizing, {})
      decreases depth - 1, 2
    {
      hide SizesRight, Consistent, Sound, FallsKnown, Extends, HasStart, Traced, Accounted, Aimed, Preserves;
      ghost var was, fell, before, y := bbs, falls, past, sizing;
      var _ := RecurseAt(first, depth - 1);
      ghost var mid, midFell, between, z := bbs, falls, past, sizing;
      ret := RecurseAt(second, depth - 1);
      SizedTrans(was, y, mid, z, sizing, {}, {});
      ReachedStays(mid, midFell, between, first);
      KeptTrans(was, fell, before, mid, midFell, between);
      PreservesTrans(was, mid, bbs);
      StartStays(was, bbs, at);
    }

    lemma ReachedLeads(target: Option<nat>)
      requires ReachedIf(target)
      ensures Leads(Scene(), past, bbs, target) && Leads(Scene(), past, bbs, None)
    {
    }

    /** Follows both targets of a branch. The second edge is left out and the size is
        checked first when jumps end blocks early. */
    method FollowBoth(ghost was: seq<Block>, ghost last: Block, at: nat, kind: Kind, ghost pushed: Option<nat>, overlapped: bool, early: bool, depth: int)
      returns (ret: Ret)
      requires Valid() && Stopped(at, Follow(kind, pushed), overlapped) && kind.Branch? && early == NoSecond() && at in sizing.explored && depth >= 1 && Levels(depth - 1)
      requires bbs == was + [last]
      modifies this
      ensures Valid() && growing == None && Kept(old(bbs), old(falls), old(past)) && HasStart(bbs, at)
      ensures ReachedBoth(kind) && Preserves(was, bbs)
      ensures SizedBy(old(bbs), Pended(old(sizing), last), sizing, ExtraFits(at, kind, last))
      ensures early ==> Extent(last) in sizing.measured
      ensures early && Oversize(0x4_0000, Extent(last).1) ==> ret.Error? && size == 0
      decreases depth - 1, 4
    {
      hide SizesRight, Consistent, Sound, FallsKnown, Extends, HasStart, Traced, Ended, Flowing, EdgesRight, LastKind, Leads, Accounted, Aimed,
        Preserves, TargetsLead, AimsAt, Open, SizedBy, Came, Oversize;
      var jump, fail := kind.jump, kind.fail;
      ghost var mid0, before, first := bbs, past, sizing;
      BranchIsEdged(Scene(), past, bbs, Last(), kind, pushed, overlapped);
      Announce(jump, fail);
      EndedLater(Scene(), before, past, bbs, Last());
      EdgesLater(Scene(), before, past, Last());
      EdgesLater(Scene(), before, past, Last().(jump := jump, fail := if early then None else fail));
      OpenLeads(Scene(), past, bbs, jump, fail);
      AimsLead(Scene(), past, bbs, Last(), TargetSet(jump) + TargetSet(fail));
      CloseWalk(at, jump, if early then None else fail, overlapped);
      ghost var mid := bbs;
      assert mid[..|mid| - 1] == was;
      PreservesPrefix(was, mid);
      if early {
        var ok;
        ret, ok := FitThenRecurse(mid0, last, first, at, jump, fail, depth);
        if ok {
          ret := End;
        }
      } else {
        ret := RecurseTwice(at, jump, fail, depth);
        SizedEarlier(mid0, mid, Pended(first, last), sizing);
      }
      ExtendsTrans(mid0, mid, bbs);
      PreservesTrans(was, mid, bbs);
      Settle(jump, fail, before);
    }

    method FollowBranch(ghost was: seq<Block>, ghost last: Block, at: nat, kind: Kind, ghost pushed: Option<nat>, overlapped: bool, depth: int)
      returns (ret: Ret, sized: bool)
      requires Valid() && Stopped(at, Follow(kind, pushed), overlapped) && kind.Branch? && depth >= 1 && Levels(depth - 1)
      requires bbs == was + [last] && at in sizing.explored
      modifies this
      ensures Valid() && growing == None && Kept(old(bbs), old(falls), old(past)) && HasStart(bbs, at)
      ensures ReachedBoth(kind) && Preserves(was, bbs)
      ensures SizedBy(old(bbs), Pended(old(sizing), last), sizing, ExtraFits(at, kind, last))
      ensures sized == NoSecond() && (sized ==> Extent(last) in sizing.measured)
      ensures sized && Oversize(0x4_0000, Extent(last).1) ==> ret.Error? && size == 0
      ensures !overlapped ==> BranchEdged(Scene(), bbs, Extent(last).1, kind) && (BackBranch(kind) ==> EdgeAt(bbs, at, JumpOf(kind)))
      decreases depth - 1, 5
    {
      hide SizesRight, Consistent, Sound, FallsKnown, Extends, HasStart, Traced, Ended, Flowing, EdgesRight, LastKind, Leads, Accounted, Aimed,
        Preserves, TargetsLead;
      ghost var mid0, fell, before, b := bbs, falls, past, Last();
      StraightAt(Scene(), past, bbs, |bbs| - 1, growing);
      SoundIsDisjoint(code, starts, bbs);
      NoneStartsAt(bbs, was, at);
      ghost var a := 0;
      if !overlapped {
        a := LastInstruction(code, starts, bbs);
      }
      var early := !options.afterJump && options.eobJump;
      ret := FollowBoth(was, last, at, kind, pushed, overlapped, early, depth);
      sized := early;
      if !options.afterJump && !early && kind.jump.Some? && kind.jump.value < addr {
        if !overlapped {
          ghost var mid, midFell, between := bbs, falls, past;
          BranchStays(Scene(), past, bbs, b, kind, at);
          ReachedLeads(kind.jump);
          SetEdges(at, kind.jump, None);
          KeptTrans(mid0, fell, before, mid, midFell, between);
          PreservesEdges(was, mid, bbs, at);
          ReachedStays(mid, midFell, between, kind.jump);
          ReachedStays(mid, midFell, between, kind.fail);
        }
        ret := End;
      }
      if !overlapped {
        CoveredStays(mid0, bbs, a);
        ghost var k := BranchHasEdges(a);
      }
    }
  }
  // ----- about traces -----

  function TargetSet(t: Option<nat>): set<nat>
  {
    if t.Some? then {t.value} else {}
  }

  lemma SameMembers(xs: seq<Block>, ys: seq<Block>)
    requires multiset(ys) == multiset(xs)
    ensures forall i :: 0 <= i < |ys| ==> ys[i] in xs
  {
    forall i | 0 <= i < |ys|
      ensures ys[i] in xs
    {
      assert ys[i] in multiset(ys);
    }
  }

  lemma NothingOpens(w: World, p: Past, bs: seq<Block>)
    ensures forall q: Past :: q.open == p.open ==> Settles(w, q, p, bs)
  {
  }

  lemma StillOpen(w: World, p: Past, q: Past, bs: seq<Block>)
    requires p.open <= q.open
    ensures Settles(w, p, q, bs)
  {
  }

  lemma SettleTargets(w: World, p: Past, q: Past, bs: seq<Block>, first: Option<nat>, second: Option<nat>)
    requires p.open == q.open + TargetSet(first) + TargetSet(second) && q.deep == p.deep && q.large == p.large
    requires first.Some? ==> HasStart(bs, first.value) || w.refused(first.value) || first.value in q.deep || first.value in q.large
    requires second.Some? ==> HasStart(bs, second.value) || w.refused(second.value) || second.value in q.deep || second.value in q.large
    ensures Settles(w, p, q, bs)
  {
  }

  lemma CutIsLater(p: Past, c: Cut)
    ensures Later(p, p.(cuts := p.cuts + {c}))
  {
  }

  lemma AccountedCut(w: World, addr: nat, bs: seq<Block>, p: Past, c: Cut)
    requires Accounted(w, addr, bs, p) && CutRight(w.code, p, c)
    ensures Accounted(w, addr, bs, p.(cuts := p.cuts + {c}))
  {
    hide UsesUp, Came;
    var q := p.(cuts := p.cuts + {c});
    forall d | d in q.cuts
      ensures CutRight(w.code, q, d)
    {
      assert CutRight(w.code, p, d);
    }
    SameArrived(w, bs, p, q);
  }

  lemma SameArrived(w: World, bs: seq<Block>, p: Past, q: Past)
    requires StartsIn(w, bs, p) && p.entries <= q.entries && forall g: nat :: p.goals(g) ==> q.goals(g)
    ensures StartsIn(w, bs, q)
  {
    hide Came;
    forall i | 0 <= i < |bs|
      ensures Arrived(w, q, bs[i].addr)
    {
      assert Arrived(w, p, bs[i].addr);
      MoreCame(w, p.entries, q.entries, bs[i].addr);
    }
  }

  lemma AccountedSorted(w: World, addr: nat, bs: seq<Block>, now: seq<Block>, p: Past)
    requires Accounted(w, addr, bs, p) && Extends(bs, now) && multiset(now) == multiset(bs)
    ensures Accounted(w, addr, now, p) && |now| == |bs| && Preserves(bs, now)
  {
    hide Came;
    SameMembers(bs, now);
    assert |now| == |multiset(now)| == |multiset(bs)| == |bs|;
    forall i | 0 <= i < |now|
      ensures Arrived(w, p, now[i].addr)
    {
      assert now[i] in bs;
      var j :| 0 <= j < |bs| && bs[j] == now[i];
      assert Arrived(w, p, bs[j].addr);
    }
    forall b | b in bs
      ensures b in now
    {
      assert b in multiset(bs);
    }
    AccountedStays(w, addr, bs, now, p);
  }

  lemma LeastIsBelow(w: World, addr: nat, bs: seq<Block>, p: Past)
    requires Accounted(w, addr, bs, p)
    ensures p.least <= MAXBBSIZE
  {
  }

  /** A shorter walk, or more addresses as targets. */
  lemma LowerIsRight(w: World, addr: nat, p: Past, q: Past, bs: seq<Block>)
    requires Accounted(w, addr, bs, p) && Traced(w, p, bs, None) && q == p.(least := q.least) && q.least <= p.least
    ensures Accounted(w, addr, bs, q) && Traced(w, q, bs, None)
  {
    hide UsesUp, Came;
    forall c | c in q.cuts
      ensures CutRight(w.code, q, c)
    {
      assert CutRight(w.code, p, c);
    }
    SameArrived(w, bs, p, q);
    SameOutlook(w, p, q, bs);
  }

  lemma WidenIsRight(w: World, addr: nat, p: Past, q: Past, bs: seq<Block>)
    requires Accounted(w, addr, bs, p) && Traced(w, p, bs, None) && q == p.(goals := q.goals)
    requires forall g: nat :: p.goals(g) ==> q.goals(g)
    ensures Accounted(w, addr, bs, q) && Traced(w, q, bs, None)
  {
    hide UsesUp, Came;
    forall c | c in q.cuts
      ensures CutRight(w.code, q, c)
    {
      assert CutRight(w.code, p, c);
    }
    SameArrived(w, bs, p, q);
    SameOutlook(w, p, q, bs);
  }

  /** An entry that is about to be followed. */
  lemma EnterIsRight(w: World, addr: nat, p: Past, q: Past, bs: seq<Block>, entry: nat)
    requires Accounted(w, addr, bs, p) && Traced(w, p, bs, None) && p.goals(entry)
    requires q == p.(entries := p.entries + {entry}, open := p.open + {entry})
    ensures Accounted(w, addr, bs, q) && Traced(w, q, bs, None)
  {
    hide UsesUp, Came;
    forall c | c in q.cuts
      ensures CutRight(w.code, q, c)
    {
      assert CutRight(w.code, p, c);
    }
    SameArrived(w, bs, p, q);
    var r := p.(open := q.open);
    StillOpen(w, p, r, bs);
    ExtendsItself(bs);
    TracedStays(w, p, r, bs, bs, None);
    EnterTraced(w, r, q, bs, entry);
  }

  lemma EnterTraced(w: World, p: Past, q: Past, bs: seq<Block>, entry: nat)
    requires Traced(w, p, bs, None) && entry in p.open && q == p.(entries := p.entries + {entry})
    ensures Traced(w, q, bs, None)
  {
    hide Straight, LastEnds, EdgesRight, Ended, TargetsLead;
    assert forall e: nat :: CutAt(p, e) == CutAt(q, e);
    assert forall t: nat :: Reaches(w, p, bs, t) == Reaches(w, q, bs, t);
    forall i | 0 <= i < |bs|
      ensures BlockTraced(w, q, bs, bs[i], None)
    {
      assert BlockTraced(w, p, bs, bs[i], None);
      SameClosed(w, p, q, bs, bs[i]);
    }
  }

  lemma SameClosed(w: World, p: Past, q: Past, bs: seq<Block>, b: Block)
    requires Closed(w, p, bs, b) && q == p.(entries := q.entries)
    ensures Closed(w, q, bs, b)
  {
    hide LastEnds, Flowing;
    assert forall e: nat :: CutAt(p, e) == CutAt(q, e);
    assert forall t: nat :: Reaches(w, p, bs, t) == Reaches(w, q, bs, t);
  }

  /** Traces do not depend on what bounds the recursion. */
  lemma SameOutlook(w: World, p: Past, q: Past, bs: seq<Block>)
    requires Traced(w, p, bs, None) && q == p.(goals := q.goals, least := q.least)
    ensures Traced(w, q, bs, None)
  {
    hide Straight, LastEnds;
    forall i | 0 <= i < |bs|
      ensures BlockTraced(w, q, bs, bs[i], None)
    {
      assert BlockTraced(w, p, bs, bs[i], None);
      assert forall e: nat :: CutAt(p, e) == CutAt(q, e);
      assert forall t: nat :: Reaches(w, p, bs, t) == Reaches(w, q, bs, t);
    }
  }

  // ----- edges -----

  lemma CannotGoOn(w: World, p: Past, bs: seq<Block>, b: Block)
    requires !Decodes(w.code(b.addr + b.size)) || w.stops(b.addr + b.size)
    requires Flowing(w, b) && b.jump == None && b.fail == None
    ensures Ended(w, p, bs, b) && EdgesRight(w, p, b) && TargetsLead(w, p, bs, b)
  {
  }

  lemma CutIsClosed(w: World, p: Past, bs: seq<Block>, b: Block)
    requires CutAt(p, b.addr + b.size) && Flowing(w, b) && b.jump == None && b.fail == None
    ensures Ended(w, p, bs, b) && EdgesRight(w, p, b) && TargetsLead(w, p, bs, b)
  {
  }

  lemma JoinedIsRight(w: World, p: Past, bs: seq<Block>, b: Block)
    requires Flowing(w, b) && b.jump == Some(b.addr + b.size) && b.fail == None
    ensures EdgesRight(w, p, b) && (PushedBehind(w, b) == None ==> TargetsLead(w, p, bs, b))
  {
  }

  /** A block before its edges are set: it either leads to the block it met, or ends at
      the instruction that calls for edges; that one is a return if an address was pushed. */
  predicate Open(w: World, b: Block, kind: Kind, pushed: Option<nat>, overlapped: bool)
  {
    && b.fail == None
    && (if overlapped then Flowing(w, b) && b.jump == Some(b.addr + b.size)
        else b.jump == None && b.ninstr > 0 && LastKind(w.code, b) == kind && !Flowing(w, b))
    && (PushedInside(w, b).Some? ==> kind.Return? && PushedInside(w, b) == pushed)
    && (PushedBehind(w, b).Some? ==> kind.Return? && PushedBehind(w, b) == pushed)
  }

  /** The targets that the block's last instruction has, if it ends the flow, and the pushed
      addresses that it leads to, are these. */
  predicate AimsAt(w: World, b: Block, targets: set<nat>)
  {
    && (!Flowing(w, b) ==> w.follows(LastKind(w.code, b)) <= targets)
    && TargetSet(PushedInside(w, b)) <= targets && TargetSet(PushedBehind(w, b)) <= targets
  }

  lemma AimsLead(w: World, p: Past, bs: seq<Block>, b: Block, targets: set<nat>)
    requires AimsAt(w, b, targets) && targets <= p.open
    ensures TargetsLead(w, p, bs, b)
  {
    hide Flowing, PushedInside, PushedBehind;
  }

  lemma JumpIsEdged(w: World, p: Past, bs: seq<Block>, b: Block, kind: Kind, pushed: Option<nat>, overlapped: bool)
    requires Open(w, b, kind, pushed, overlapped) && kind.Jump? && w.jumps(kind) && w.follows(kind) == TargetSet(kind.to)
    ensures if overlapped then EdgesRight(w, p, b) else EdgesRight(w, p, b.(jump := kind.to, fail := None))
    ensures AimsAt(w, b, TargetSet(kind.to))
  {
    SameFlowing(w, b, b.(jump := kind.to, fail := None));
  }

  lemma EndedJumpIsEdged(w: World, p: Past, bs: seq<Block>, b: Block, kind: Kind, pushed: Option<nat>, overlapped: bool)
    requires Open(w, b, kind, pushed, overlapped) && kind.Jump? && !w.jumps(kind) && w.follows(kind) == TargetSet(kind.after)
    ensures AimsAt(w, b, TargetSet(kind.after)) && forall q: Past :: EdgesRight(w, q, b)
  {
  }

  lemma ReturnIsEdged(w: World, p: Past, bs: seq<Block>, b: Block, kind: Kind, pushed: Option<nat>, overlapped: bool)
    requires Open(w, b, kind, pushed, overlapped) && kind.Return? && !w.falls && w.follows(kind) == {}
    ensures EdgesRight(w, p, b.(jump := pushed, fail := None)) && AimsAt(w, b, TargetSet(pushed))
  {
    SameFlowing(w, b, b.(jump := pushed, fail := None));
  }

  lemma BranchIsEdged(w: World, p: Past, bs: seq<Block>, b: Block, kind: Kind, pushed: Option<nat>, overlapped: bool)
    requires Open(w, b, kind, pushed, overlapped) && kind.Branch? && w.follows(kind) == TargetSet(kind.jump) + TargetSet(kind.fail)
    ensures if overlapped then EdgesRight(w, p, b)
            else EdgesRight(w, p, b.(jump := kind.jump, fail := if w.early then None else kind.fail))
    ensures AimsAt(w, b, TargetSet(kind.jump) + TargetSet(kind.fail))
  {
    SameFlowing(w, b, b.(jump := kind.jump, fail := if w.early then None else kind.fail));
  }

  /** Edges do not matter for what the instructions are. */
  lemma SameFlowing(w: World, b: Block, c: Block)
    requires SameUpToEdges(b, c)
    ensures Flowing(w, c) == Flowing(w, b) && PushedInside(w, c) == PushedInside(w, b) && PushedBehind(w, c) == PushedBehind(w, b)
    ensures b.ninstr > 0 ==> LastKind(w.code, c) == LastKind(w.code, b) && Pushed(w, c, c.ninstr - 1) == Pushed(w, b, b.ninstr - 1)
  {
  }

  lemma GrownPushes(w: World, b: Block, size: nat)
    requires b.size < 0x1_0000
    ensures var g := Grown(b, size);
            && g.ninstr == b.ninstr + 1 && LastKind(w.code, g) == w.code(After(w.code, b.addr, b.ninstr)).kind
            && PushedInside(w, g) == if w.pushes && LastKind(w.code, g).Return? && b.ninstr > 0 && LastKind(w.code, b).Push?
                                     then Some(LastKind(w.code, b).v) else None
  {
  }

  /** A block that ends the flow has come to its end. */
  lemma StopIsEnd(w: World, p: Past, bs: seq<Block>, k: nat)
    requires Consistent(w.code, w.starts) && Sound(w.code, w.starts, bs) && k < |bs| && !Flowing(w, bs[k])
    ensures Ended(w, p, bs, bs[k])
  {
    var b, n := bs[k], bs[k].ninstr;
    assert Decoded(w.code, w.starts, b);
    if Pushed(w, b, n - 1) {
      RunPrefix(w.code, b.addr, n, n - 2);
      RunStarts(w.code, w.starts, b.addr, n - 2);
      var a := After(w.code, b.addr, n - 2);
      assert w.starts(a) && w.code(a).kind.Push? && a + w.code(a).size == After(w.code, b.addr, n - 1);
    }
  }

  lemma OpenLeads(w: World, p: Past, bs: seq<Block>, first: Option<nat>, second: Option<nat>)
    requires TargetSet(first) + TargetSet(second) <= p.open
    ensures Leads(w, p, bs, first) && Leads(w, p, bs, second) && Leads(w, p, bs, None)
  {
  }

  /** A block from the same start as one that ended at a branch ends there too, or has
      been split. */
  lemma BranchStays(w: World, p: Past, bs: seq<Block>, b: Block, kind: Kind, at: nat)
    requires Traced(w, p, bs, None) && Straight(w, b) && b.addr == at && !w.falls && !w.early && w.back(kind)
    requires b.ninstr > 0 && LastKind(w.code, b) == kind && kind.Branch?
    ensures forall k :: 0 <= k < |bs| && bs[k].addr == at ==> EdgesRight(w, p, bs[k].(jump := kind.jump, fail := None))
  {
    forall k | 0 <= k < |bs| && bs[k].addr == at
      ensures EdgesRight(w, p, bs[k].(jump := kind.jump, fail := None))
    {
      assert BlockTraced(w, p, bs, bs[k], None);
      SameFlowing(w, bs[k], bs[k].(jump := kind.jump, fail := None));
      assert !Flowing(w, b);
      if !Flowing(w, bs[k]) {
        SameLast(w, b, bs[k]);
      }
    }
  }

  lemma StraightAt(w: World, p: Past, bs: seq<Block>, k: nat, skip: Option<nat>)
    requires Traced(w, p, bs, skip) && k < |bs|
    ensures Straight(w, bs[k])
  {
    assert BlockTraced(w, p, bs, bs[k], skip);
  }

  lemma EndedLater(w: World, p: Past, q: Past, bs: seq<Block>, b: Block)
    requires Ended(w, p, bs, b) && p.cuts <= q.cuts
    ensures Ended(w, q, bs, b)
  {
  }

  lemma EdgesLater(w: World, p: Past, q: Past, b: Block)
    requires p.cuts <= q.cuts
    ensures EdgesRight(w, p, b) ==> EdgesRight(w, q, b)
  {
  }

  lemma LedStays(w: World, p: Past, was: seq<Block>, now: seq<Block>, b: Block, c: Block)
    requires TargetsLead(w, p, was, b) && Extends(was, now) && SameUpToEdges(b, c)
    ensures TargetsLead(w, p, now, c)
  {
    hide PushedInside, PushedBehind, LastKind;
    SameFlowing(w, b, c);
    if !Flowing(w, c) {
      forall t | t in w.follows(LastKind(w.code, c))
        ensures Reaches(w, p, now, t)
      {
        assert Reaches(w, p, was, t);
      }
    }
  }

  lemma EndedStays(w: World, p: Past, was: seq<Block>, now: seq<Block>, b: Block, c: Block)
    requires Ended(w, p, was, b) && Extends(was, now) && SameUpToEdges(b, c)
    ensures Ended(w, p, now, c)
  {
  }

  /** Only one block starts at an address. */
  lemma EndedIsTraced(code: Code, starts: nat -> bool, w: World, p: Past, bs: seq<Block>, a: nat)
    requires Sound(code, starts, bs) && Traced(w, p, bs, Some(a))
    requires bs != [] && bs[|bs| - 1].addr == a && Closed(w, p, bs, bs[|bs| - 1])
    ensures Traced(w, p, bs, None)
  {
    hide Closed, Leads, Straight;
    forall i | 0 <= i < |bs|
      ensures BlockTraced(w, p, bs, bs[i], None)
    {
      assert BlockTraced(w, p, bs, bs[i], Some(a));
      if i != |bs| - 1 {
        assert Apart(bs[i], bs[|bs| - 1]);
      }
    }
  }

  /** After an instruction was taken it is the block's last one. */
  lemma LastIsHere(code: Code, starts: nat -> bool, bs: seq<Block>, k: nat)
    requires Sound(code, starts, bs) && k < |bs|
    ensures bs[k].size < 0x8000
    ensures var x, g := bs[k].addr + bs[k].size, Grown(bs[k], code(bs[k].addr + bs[k].size).size);
            g.ninstr == bs[k].ninstr + 1 && After(code, g.addr, g.ninstr - 1) == x
  {
    assert Decoded(code, starts, bs[k]);
  }

  lemma OneStart(code: Code, starts: nat -> bool, bs: seq<Block>, i: nat, j: nat)
    requires Sound(code, starts, bs) && i < |bs| && j < |bs| && bs[i].addr == bs[j].addr
    ensures i == j
  {
    ApartOrSame(code, starts, bs, i, j);
  }

  lemma ApartOrSame(code: Code, starts: nat -> bool, bs: seq<Block>, i: nat, j: nat)
    requires Sound(code, starts, bs) && i < |bs| && j < |bs|
    ensures i == j || Apart(bs[i], bs[j])
  {
  }

  lemma OthersStart(code: Code, starts: nat -> bool, bs: seq<Block>)
    requires Sound(code, starts, bs) && bs != []
    ensures forall i :: 0 <= i < |bs| && i != |bs| - 1 ==> bs[i].addr != bs[|bs| - 1].addr
  {
    forall i | 0 <= i < |bs| && i != |bs| - 1
      ensures bs[i].addr != bs[|bs| - 1].addr
    {
      assert Apart(bs[i], bs[|bs| - 1]);
    }
  }

  lemma LastHasSize(code: Code, starts: nat -> bool, b: Block)
    requires Consistent(code, starts) && Decoded(code, starts, b)
    ensures b.ninstr > 0 <==> b.size > 0
  {
    if b.ninstr > 0 {
      AfterGrows(code, starts, b.addr, 0, b.ninstr);
    }
  }

  /** Where no block is hit none starts, none covers, and nothing was explored. */
  lemma NoneHit(w: World, bs: seq<Block>, a: nat, addr: nat, size: nat, z: Sizing)
    requires (forall i :: 0 <= i < |bs| ==> !Hits(bs[i], a)) && SizesRight(w, bs, addr, size, z, None)
    ensures (forall i :: 0 <= i < |bs| ==> bs[i].addr != a) && a !in z.explored && !HasStart(bs, a) && !Covers(bs, a)
  {
    hide AllWithin, AllEnds, FcnSizes.SizeFits, LedOn;
    forall i | 0 <= i < |bs|
      ensures bs[i].addr != a && !InBlock(bs[i], a)
    {
      assert !Hits(bs[i], a);
    }
    assert !HasStart(bs, a);
  }

  /** The last instruction of a block leads on. */
  lemma InstructionLedOn(w: World, b: Block, a: nat, e: nat)
    requires b.ninstr > 0 && EndsInstruction(w, a, e) && w.code(a).kind == LastKind(w.code, b)
    requires (Flowing(w, b) && Walkable(w, e)) || LastKind(w.code, b).Branch? || LastKind(w.code, b).Jump?
             || (w.pushes && LastKind(w.code, b).Return?)
    ensures LedOn(w, e)
  {
    assert EndsInstruction(w, a, e);
  }

  lemma SizeIsSmall(w: World, bs: seq<Block>, addr: nat, size: nat, z: Sizing, skip: Option<nat>)
    requires SizesRight(w, bs, addr, size, z, skip)
    ensures size <= MAX_FCN_SIZE
  {
  }

  lemma LastStarts(bs: seq<Block>)
    ensures bs != [] ==> HasStart(bs, bs[|bs| - 1].addr)
  {
  }

  lemma StartStays(was: seq<Block>, now: seq<Block>, a: nat)
    requires Extends(was, now)
    ensures HasStart(was, a) ==> HasStart(now, a)
  {
  }

  lemma SoundIsDisjoint(code: Code, starts: nat -> bool, bs: seq<Block>)
    requires Sound(code, starts, bs)
    ensures Disjoint(bs)
  {
  }

  /** A block that the lookup finds starts at the address or contains it. */
  lemma HitIsStart(bs: seq<Block>, k: nat, a: nat)
    requires k < |bs| && Hits(bs[k], a)
    ensures HasStart(bs, a) || Covers(bs, a)
  {
    if bs[k].size != 0 {
      assert InBlock(bs[k], a);
    }
  }

  function JumpOf(k: Kind): Option<nat>
  {
    if k.Branch? then k.jump else None
  }

  /** A block ends there with the targets of the branch as edges. */
  predicate BranchEdged(w: World, bs: seq<Block>, end: nat, kind: Kind)
  {
    kind.Branch? &&
    exists k :: 0 <= k < |bs| && bs[k].addr + bs[k].size == end && bs[k].jump == kind.jump
                && SecondRight(w, kind, bs[k].fail)
  }

  lemma LastInstruction(code: Code, starts: nat -> bool, bs: seq<Block>) returns (a: nat)
    requires Consistent(code, starts) && Sound(code, starts, bs) && bs != [] && bs[|bs| - 1].ninstr > 0
    ensures var b := bs[|bs| - 1];
            starts(a) && Covers(bs, a) && Decodes(code(a)) && code(a).kind == LastKind(code, b) && a + code(a).size == b.addr + b.size
  {
    hide After, Runs, Consistent, Apart, OffsetsRight, Shape;
    var b := bs[|bs| - 1];
    assert Decoded(code, starts, b);
    LastInRun(code, starts, b.addr, b.ninstr);
    a := After(code, b.addr, b.ninstr - 1);
    assert InBlock(b, a);
  }

  lemma LastInRun(code: Code, starts: nat -> bool, a: nat, n: nat)
    requires Consistent(code, starts) && starts(a) && Runs(code, a, n) && n > 0
    ensures var x := After(code, a, n - 1);
            starts(x) && Decodes(code(x)) && a <= x < After(code, a, n) && x + code(x).size == After(code, a, n)
  {
    RunPrefix(code, a, n, n - 1);
    RunStarts(code, starts, a, n - 1);
    if n > 1 {
      AfterGrows(code, starts, a, 0, n - 1);
    }
  }

  lemma CoveredStays(was: seq<Block>, now: seq<Block>, x: nat)
    requires Extends(was, now)
    ensures Covers(was, x) ==> Covers(now, x)
  {
  }

  // ----- blocks left behind -----

  lemma PreservesItself(bs: seq<Block>)
    ensures Preserves(bs, bs)
  {
  }

  lemma PreservesPrefix(was: seq<Block>, now: seq<Block>)
    requires |was| <= |now| && now[..|was|] == was
    ensures Preserves(was, now)
  {
    forall b | b in was
      ensures b in now
    {
      var i :| 0 <= i < |was| && was[i] == b;
      assert now[i] == b;
    }
  }

  /** A block apart from the ones before it, with an edge to the target; it may have been
      split since. */
  predicate LeftBlock(was: seq<Block>, b: Block, at: nat, target: Option<nat>, now: seq<Block>)
  {
    && b.addr == at && b.jump == target && (b in now || WasSplit(b, now))
    && forall i :: 0 <= i < |was| && was[i].addr > at ==> b.addr + b.size <= was[i].addr
  }

  ghost predicate Left(was: seq<Block>, at: nat, target: Option<nat>, now: seq<Block>)
  {
    exists b: Block :: LeftBlock(was, b, at, target, now)
  }

  /** The block at the address has just this edge. */
  predicate EdgeAt(bs: seq<Block>, at: nat, jump: Option<nat>)
  {
    exists k :: 0 <= k < |bs| && bs[k].addr == at && bs[k].jump == jump && bs[k].fail == None
  }

  lemma LeftIs(code: Code, starts: nat -> bool, was: seq<Block>, mid: seq<Block>, at: nat, target: Option<nat>, now: seq<Block>)
    requires Sound(code, starts, mid) && mid != [] && was == mid[..|mid| - 1] && Preserves(mid, now)
    requires mid[|mid| - 1].addr == at && mid[|mid| - 1].jump == target
    ensures Left(was, at, target, now)
  {
    hide Decoded;
    var b := mid[|mid| - 1];
    forall i | 0 <= i < |was| && was[i].addr > at
      ensures b.addr + b.size <= was[i].addr
    {
      assert Apart(mid[i], b);
    }
    assert LeftBlock(was, b, at, target, now);
  }

  lemma SortedLeft(was: seq<Block>, b: Block, at: nat, target: Option<nat>, mid: seq<Block>, now: seq<Block>)
    requires LeftBlock(was, b, at, target, mid) && forall x :: x in mid ==> x in now
    ensures LeftBlock(was, b, at, target, now)
  {
    if b !in mid {
      var i :| 0 <= i < |mid| && b.addr < mid[i].addr < b.addr + b.size;
      assert mid[i] in now;
      var j :| 0 <= j < |now| && now[j] == mid[i];
    }
  }

  lemma NoneStartsAt(bs: seq<Block>, was: seq<Block>, at: nat)
    requires Disjoint(bs) && bs != [] && bs[|bs| - 1].addr == at && bs[..|bs| - 1] == was
    ensures forall b :: b in was ==> b.addr != at
  {
    forall b | b in was
      ensures b.addr != at
    {
      var i :| 0 <= i < |was| && was[i] == b;
      assert bs[i] == b && Apart(bs[i], bs[|bs| - 1]);
    }
  }

  /** Setting the edges of a block elsewhere. */
  lemma PreservesEdges(was: seq<Block>, mid: seq<Block>, now: seq<Block>, at: nat)
    requires Preserves(was, mid) && forall b :: b in was ==> b.addr != at
    requires |now| == |mid| && forall i :: 0 <= i < |mid| ==> now[i].addr == mid[i].addr && (mid[i].addr != at ==> now[i] == mid[i])
    ensures Preserves(was, now)
  {
    forall b | b in was
      ensures b in now || WasSplit(b, now)
    {
      if b in mid {
        var i :| 0 <= i < |mid| && mid[i] == b;
        assert now[i] == b;
      } else {
        var i :| 0 <= i < |mid| && b.addr < mid[i].addr < b.addr + b.size;
        assert b.addr < now[i].addr < b.addr + b.size;
      }
    }
  }
}
