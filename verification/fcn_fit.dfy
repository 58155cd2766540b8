/** Fitting functions: cutting each at the start of the next one. */
module FcnFit {
  import opened Words
  import opened Wrappers
  import opened BasicBlocks
  import opened BlockSort

  /** A function's start, its size in 32 bits, and its blocks. */
  datatype Fcn = Fcn(addr: Word, size: nat, bbs: seq<Block>)

  predicate SizeFits(f: Fcn)
  {
    f.size < 0x1_0000_0000
  }

  /** The low 32 bits of a difference, as a signed number. */
  function ToInt32(x: nat): int
  {
    var w := x % 0x1_0000_0000;
    if w < 0x8000_0000 then w else w - 0x1_0000_0000
  }

  // ----- resizing -----

  function Drop(target: Option<nat>, eof: nat): Option<nat>
  {
    if target.Some? && target.value >= eof then None else target
  }

  /** A block that starts below the new end, cut there. */
  function TrimBlock(b: Block, eof: nat): Block
    requires b.addr < eof
  {
    b.(size := if b.addr + b.size >= eof then eof - b.addr else b.size, jump := Drop(b.jump, eof), fail := Drop(b.fail, eof))
  }

  /** The blocks that start below the new end. */
  function Trimmed(bs: seq<Block>, eof: nat): seq<Block>
  {
    if bs == [] then []
    else if bs[0].addr >= eof then Trimmed(bs[1..], eof) else [TrimBlock(bs[0], eof)] + Trimmed(bs[1..], eof)
  }

  predicate BlockBelow(b: Block, eof: nat)
  {
    && b.addr + b.size <= eof
    && (b.jump.Some? ==> b.jump.value < eof) && (b.fail.Some? ==> b.fail.value < eof)
  }

  predicate AllBelow(bs: seq<Block>, eof: nat)
  {
    forall b :: b in bs ==> BlockBelow(b, eof)
  }

  lemma {:induction false} TrimmedBelow(bs: seq<Block>, eof: nat)
    ensures AllBelow(Trimmed(bs, eof), eof)
  {
    if bs != [] {
      TrimmedBelow(bs[1..], eof);
    }
  }

  /** No byte below the new end is lost, and none is gained. */
  lemma {:induction false} TrimmedCovers(bs: seq<Block>, eof: nat, x: nat)
    ensures (exists b :: b in Trimmed(bs, eof) && InBlock(b, x)) <==> x < eof && exists b :: b in bs && InBlock(b, x)
  {
    if bs != [] {
      TrimmedCovers(bs[1..], eof, x);
      var t := Trimmed(bs, eof);
      assert forall b :: b in bs <==> b == bs[0] || b in bs[1..];
      if bs[0].addr < eof {
        assert forall b :: b in t <==> b == TrimBlock(bs[0], eof) || b in Trimmed(bs[1..], eof);
        assert InBlock(TrimBlock(bs[0], eof), x) <==> x < eof && InBlock(bs[0], x);
      }
    }
  }

  /** The end of a function, with wrap-around. */
  function EndOf(f: Fcn): Word
  {
    (f.addr + f.size) % TWO64
  }

  /** What resizing leaves of a function. */
  predicate Resized(f: Fcn, size: nat, r: Fcn)
  {
    && r.addr == f.addr && r.size == size
    && multiset(r.bbs) == multiset(Trimmed(f.bbs, EndOf(r))) && Ascending(r.bbs)
  }

  /** A resized function has all its blocks and targets below its new end. */
  lemma ResizedIsBelow(f: Fcn, size: nat, r: Fcn)
    requires Resized(f, size, r)
    ensures AllBelow(r.bbs, EndOf(r))
  {
    TrimmedBelow(f.bbs, EndOf(r));
    forall b | b in r.bbs
      ensures BlockBelow(b, EndOf(r))
    {
      assert b in multiset(r.bbs);
      assert b in Trimmed(f.bbs, EndOf(r));
    }
  }

  // ----- what is kept -----

  /** An edge is kept exactly if it leads below the new end. */
  predicate EdgeKept(was: Option<nat>, now: Option<nat>, eof: nat)
  {
    match was
    case None => now == None
    case Some(t) => if t < eof then now == Some(t) else now == None
  }

  /** One block is what is left of the other: its instructions are the same, its bytes
      those below the new end, and so its edges. */
  predicate IsCut(b: Block, c: Block, eof: nat)
  {
    && c.addr == b.addr && c.ninstr == b.ninstr && c.opPos == b.opPos
    && c.size == (if b.addr + b.size <= eof then b.size else eof - b.addr)
    && EdgeKept(b.jump, c.jump, eof) && EdgeKept(b.fail, c.fail, eof)
  }

  function CountBelow(bs: seq<Block>, eof: nat): nat
  {
    if bs == [] then 0 else (if bs[0].addr < eof then 1 else 0) + CountBelow(bs[1..], eof)
  }

  /** Something of the block is left. */
  ghost predicate IsLeft(b: Block, now: seq<Block>, eof: nat)
  {
    exists c :: c in now && IsCut(b, c, eof)
  }

  ghost predicate ComesFrom(c: Block, was: seq<Block>, eof: nat)
  {
    exists b :: b in was && b.addr < eof && IsCut(b, c, eof)
  }

  /** The blocks left are those that started below the new end, each cut there. */
  ghost predicate CutBlocks(was: seq<Block>, now: seq<Block>, eof: nat)
  {
    && |now| == CountBelow(was, eof)
    && (forall b :: b in was && b.addr < eof ==> IsLeft(b, now, eof))
    && (forall c :: c in now ==> ComesFrom(c, was, eof))
  }

  lemma {:induction false} TrimmedIsCut(bs: seq<Block>, eof: nat)
    ensures CutBlocks(bs, Trimmed(bs, eof), eof)
  {
    if bs != [] {
      TrimmedIsCut(bs[1..], eof);
      if bs[0].addr < eof {
        TrimIsCut(bs[0], eof);
        FirstCut(bs, TrimBlock(bs[0], eof), Trimmed(bs[1..], eof), eof);
      } else {
        FirstDropped(bs, Trimmed(bs[1..], eof), eof);
      }
    }
  }

  lemma TrimIsCut(b: Block, eof: nat)
    requires b.addr < eof
    ensures IsCut(b, TrimBlock(b, eof), eof)
  {
  }

  lemma LeftMore(b: Block, t: seq<Block>, c: Block, eof: nat)
    requires IsLeft(b, t, eof)
    ensures IsLeft(b, [c] + t, eof)
  {
    hide IsCut;
    var x :| x in t && IsCut(b, x, eof);
    assert x in [c] + t;
  }

  lemma ComesMore(x: Block, b: Block, rest: seq<Block>, eof: nat)
    requires ComesFrom(x, rest, eof)
    ensures ComesFrom(x, [b] + rest, eof)
  {
    hide IsCut;
    var y :| y in rest && y.addr < eof && IsCut(y, x, eof);
    assert y in [b] + rest;
  }

  lemma FirstCut(bs: seq<Block>, c: Block, t: seq<Block>, eof: nat)
    requires bs != [] && bs[0].addr < eof && IsCut(bs[0], c, eof) && CutBlocks(bs[1..], t, eof)
    ensures CutBlocks(bs, [c] + t, eof)
  {
    hide IsCut, IsLeft, ComesFrom;
    var first, rest, now := bs[0], bs[1..], [c] + t;
    assert bs == [first] + rest;
    Alone(first, c, rest, t, eof);
    forall b | b in bs && b.addr < eof
      ensures IsLeft(b, now, eof)
    {
      if b in rest {
        LeftMore(b, t, c, eof);
      }
    }
    forall x | x in now
      ensures ComesFrom(x, bs, eof)
    {
      if x in t {
        ComesMore(x, first, rest, eof);
      }
    }
  }

  lemma Alone(b: Block, c: Block, rest: seq<Block>, t: seq<Block>, eof: nat)
    requires b.addr < eof && IsCut(b, c, eof)
    ensures IsLeft(b, [c] + t, eof) && ComesFrom(c, [b] + rest, eof)
  {
    assert ([c] + t)[0] == c && ([b] + rest)[0] == b;
  }

  lemma FirstDropped(bs: seq<Block>, t: seq<Block>, eof: nat)
    requires bs != [] && bs[0].addr >= eof && CutBlocks(bs[1..], t, eof)
    ensures CutBlocks(bs, t, eof)
  {
    hide IsCut;
    forall x | x in t
      ensures ComesFrom(x, bs, eof)
    {
      assert ComesFrom(x, bs[1..], eof);
    }
  }

  /** Order does not matter. */
  lemma CutInAnyOrder(bs: seq<Block>, t: seq<Block>, now: seq<Block>, eof: nat)
    requires CutBlocks(bs, t, eof) && multiset(now) == multiset(t)
    ensures CutBlocks(bs, now, eof)
  {
    hide IsCut, CountBelow;
    assert |now| == |multiset(now)| == |multiset(t)| == |t|;
    forall b | b in bs && b.addr < eof
      ensures IsLeft(b, now, eof)
    {
      assert IsLeft(b, t, eof);
      var c :| c in t && IsCut(b, c, eof);
      assert c in multiset(t);
      assert c in now;
    }
    forall c | c in now
      ensures ComesFrom(c, bs, eof)
    {
      assert c in multiset(now);
      assert c in t;
    }
  }

  /** Resizing keeps all that lies below the new end. */
  lemma ResizedKeeps(f: Fcn, size: nat, r: Fcn)
    requires Resized(f, size, r)
    ensures CutBlocks(f.bbs, r.bbs, EndOf(r))
  {
    hide CutBlocks, Trimmed, Ascending;
    TrimmedIsCut(f.bbs, EndOf(r));
    CutInAnyOrder(f.bbs, Trimmed(f.bbs, EndOf(r)), r.bbs, EndOf(r));
  }

  /** Nothing of the function was lost but what lies behind its new end. */
  ghost predicate NothingLost(f: Fcn, r: Fcn)
  {
    r == f || CutBlocks(f.bbs, r.bbs, EndOf(r))
  }

  lemma FittedKeeps(f: Fcn, next: Option<nat>, r: Fcn)
    requires FittedTo(f, next, r)
    ensures NothingLost(f, r)
  {
    hide CutBlocks, Resized;
    if r != f {
      ResizedKeeps(f, ToInt32(next.value - f.addr), r);
    }
  }

  // ----- the next function -----

  predicate Distinct(fs: seq<Fcn>)
  {
    forall i, j :: 0 <= i < j < |fs| ==> fs[i].addr != fs[j].addr
  }

  predicate AllSizesFit(fs: seq<Fcn>)
  {
    forall i :: 0 <= i < |fs| ==> SizeFits(fs[i])
  }

  /** The index of the function with the lowest start above an address. */
  predicate IsNext(fs: seq<Fcn>, a: nat, k: Option<nat>)
  {
    match k
    case None => forall i :: 0 <= i < |fs| ==> fs[i].addr <= a
    case Some(n) => n < |fs| && fs[n].addr > a && forall i :: 0 <= i < |fs| && fs[i].addr > a ==> fs[n].addr <= fs[i].addr
  }

  // ----- fitting one function -----

  /** What fitting does to f when the next function starts at `next`: it is cut there if
      it is seen to reach beyond, and the distance is a positive 32-bit number. */
  predicate FittedTo(f: Fcn, next: Option<nat>, r: Fcn)
  {
    if next.Some? && EndOf(f) > next.value >= f.addr && ToInt32(next.value - f.addr) >= 1
    then Resized(f, ToInt32(next.value - f.addr), r)
    else r == f
  }

  /** The gap to the next function is wide enough, or the overlap is one that fitting
      notices and can express: the end does not wrap, and the gap is below 2 GB. */
  predicate CanFit(f: Fcn, next: nat)
    requires f.addr < next
  {
    f.size <= next - f.addr || (f.addr + f.size < TWO64 && next - f.addr < 0x8000_0000)
  }

  /** After fitting, a function ends before the next one exactly when that condition
      holds. */
  lemma FittedEnds(f: Fcn, next: Word, r: Fcn)
    requires SizeFits(f) && f.addr < next && FittedTo(f, Some(next), r)
    ensures r.addr == f.addr && SizeFits(r)
    ensures r.addr + r.size <= next <==> CanFit(f, next)
  {
    var gap := next - f.addr;
    if f.addr + f.size < TWO64 {
      ModuloUnique(f.addr + f.size, TWO64, 0, f.addr + f.size);
    } else {
      ModuloUnique(f.addr + f.size, TWO64, 1, f.addr + f.size - TWO64);
    }
    if gap < 0x1_0000_0000 {
      ModuloUnique(gap, 0x1_0000_0000, 0, gap);
    }
  }

  /** A function that was cut ends where the next one starts, and so do its blocks and
      their targets. */
  lemma CutIsBelow(f: Fcn, next: Word, r: Fcn)
    requires SizeFits(f) && f.addr < next && FittedTo(f, Some(next), r) && r != f
    ensures r.addr + r.size == next && AllBelow(r.bbs, next)
  {
    FittedEnds(f, next, r);
    var gap := next - f.addr;
    if f.addr + f.size >= TWO64 {
      ModuloUnique(f.addr + f.size, TWO64, 1, f.addr + f.size - TWO64);
    } else {
      ModuloUnique(f.addr + f.size, TWO64, 0, f.addr + f.size);
    }
    ModuloUnique(gap, 0x1_0000_0000, 0, gap);
    ModuloUnique(next, TWO64, 0, next);
    ResizedIsBelow(f, gap, r);
  }

  // ----- fitting all functions -----

  /** Every function of the list was fitted, in place. */
  ghost predicate AllFitted(fs: seq<Fcn>, rs: seq<Fcn>)
  {
    |rs| == |fs| && forall i :: 0 <= i < |fs| ==> Fitted(fs, i, rs[i])
  }

  ghost predicate Fitted(fs: seq<Fcn>, i: nat, r: Fcn)
    requires i < |fs|
  {
    exists k: Option<nat> :: IsNext(fs, fs[i].addr, k) && FittedTo(fs[i], if k.Some? then Some(fs[k.value].addr) else None, r)
  }

  predicate Before(f: Fcn, g: Fcn)
  {
    f.addr + f.size <= g.addr
  }

  /** Of any two functions one lies before the other. */
  predicate DisjointRanges(fs: seq<Fcn>)
  {
    forall i, j :: 0 <= i < j < |fs| ==> Before(fs[i], fs[j]) || Before(fs[j], fs[i])
  }

  /** No function has an overlap that fitting misses. */
  predicate NoneMissed(fs: seq<Fcn>)
  {
    forall i, j :: 0 <= i < |fs| && 0 <= j < |fs| && fs[i].addr < fs[j].addr && IsNext(fs, fs[i].addr, Some(j))
      ==> CanFit(fs[i], fs[j].addr)
  }

  lemma FittedAt(fs: seq<Fcn>, i: nat, j: nat, r: Fcn)
    requires i < |fs| && j < |fs| && SizeFits(fs[i]) && IsNext(fs, fs[i].addr, Some(j)) && Fitted(fs, i, r)
    ensures r.addr == fs[i].addr && (r.addr + r.size <= fs[j].addr <==> CanFit(fs[i], fs[j].addr))
  {
    var k: Option<nat> :| IsNext(fs, fs[i].addr, k) && FittedTo(fs[i], if k.Some? then Some(fs[k.value].addr) else None, r);
    assert k.Some? && fs[k.value].addr == fs[j].addr;
    FittedEnds(fs[i], fs[j].addr, r);
  }

  lemma FittedLoses(fs: seq<Fcn>, i: nat, r: Fcn)
    requires i < |fs| && Fitted(fs, i, r)
    ensures NothingLost(fs[i], r)
  {
    hide NothingLost, FittedTo;
    var k: Option<nat> :| IsNext(fs, fs[i].addr, k) && FittedTo(fs[i], if k.Some? then Some(fs[k.value].addr) else None, r);
    FittedKeeps(fs[i], if k.Some? then Some(fs[k.value].addr) else None, r);
  }

  lemma FittedKeepsAddr(fs: seq<Fcn>, i: nat, r: Fcn)
    requires i < |fs| && Fitted(fs, i, r)
    ensures r.addr == fs[i].addr
  {
  }

  /** Some function above an address is the next one. */
  lemma NextExists(fs: seq<Fcn>, a: nat, j: nat) returns (n: nat)
    requires j < |fs| && fs[j].addr > a
    ensures n < |fs| && IsNext(fs, a, Some(n)) && fs[n].addr <= fs[j].addr
  {
    n := j;
    var i := 0;
    while i < |fs|
      invariant i <= |fs| && n < |fs| && a < fs[n].addr <= fs[j].addr
      invariant forall k :: 0 <= k < i && fs[k].addr > a ==> fs[n].addr <= fs[k].addr
    {
      if a < fs[i].addr < fs[n].addr {
        n := i;
      }
      i := i + 1;
    }
  }

  /** Fitting all functions leaves their ranges disjoint exactly when there was no
      overlap of the kind it misses. Functions of one list have different starts. */
  lemma FittingIsExact(fs: seq<Fcn>, rs: seq<Fcn>)
    requires AllSizesFit(fs) && AllFitted(fs, rs) && Distinct(fs)
    ensures DisjointRanges(rs) <==> NoneMissed(fs)
  {
    hide SizeFits, Fitted, IsNext, CanFit;
    if NoneMissed(fs) {
      forall i, j | 0 <= i < j < |rs|
        ensures Before(rs[i], rs[j]) || Before(rs[j], rs[i])
      {
        FittedKeepsAddr(fs, i, rs[i]);
        FittedKeepsAddr(fs, j, rs[j]);
        if fs[i].addr < fs[j].addr {
          LowerIsBefore(fs, rs, i, j);
        } else {
          LowerIsBefore(fs, rs, j, i);
        }
      }
    } else {
      var i, j :| 0 <= i < |fs| && 0 <= j < |fs| && fs[i].addr < fs[j].addr && IsNext(fs, fs[i].addr, Some(j))
                  && !CanFit(fs[i], fs[j].addr);
      FittedAt(fs, i, j, rs[i]);
      FittedKeepsAddr(fs, j, rs[j]);
      assert !Before(rs[i], rs[j]) && !Before(rs[j], rs[i]);
    }
  }

  lemma LowerIsBefore(fs: seq<Fcn>, rs: seq<Fcn>, i: nat, j: nat)
    requires AllSizesFit(fs) && AllFitted(fs, rs) && NoneMissed(fs)
    requires i < |fs| && j < |fs| && fs[i].addr < fs[j].addr
    ensures Before(rs[i], rs[j])
  {
    hide SizeFits, Fitted, CanFit;
    FittedKeepsAddr(fs, i, rs[i]);
    FittedKeepsAddr(fs, j, rs[j]);
    var n := NextExists(fs, fs[i].addr, j);
    FittedAt(fs, i, n, rs[i]);
  }

  /** A function whose end is beyond the address space is not cut. */
  lemma WrappedEndIsMissed(f: Fcn, next: Word, r: Fcn)
    requires SizeFits(f) && f.addr < next < f.addr + f.size && f.addr + f.size >= TWO64 && FittedTo(f, Some(next), r)
    ensures r == f
  {
    ModuloUnique(f.addr + f.size, TWO64, 1, f.addr + f.size - TWO64);
  }

  lemma TrimmedStep(bs: seq<Block>, i: nat, eof: nat, kept: seq<Block>)
    requires i < |bs|
    ensures kept + Trimmed(bs[i..], eof)
         == (if bs[i].addr < eof then kept + [TrimBlock(bs[i], eof)] else kept) + Trimmed(bs[i + 1..], eof)
  {
    hide TrimBlock;
    assert bs[i..][1..] == bs[i + 1..];
    if bs[i].addr < eof {
      assert kept + ([TrimBlock(bs[i], eof)] + Trimmed(bs[i + 1..], eof))
          == (kept + [TrimBlock(bs[i], eof)]) + Trimmed(bs[i + 1..], eof);
    }
  }

  lemma TrimmedNone(kept: seq<Block>, eof: nat)
    ensures kept + Trimmed([], eof) == kept
  {
  }

  // ----- the list of functions -----

  class Analysis {
    var fcns: seq<Fcn>

    constructor ()
      ensures fcns == []
    {
      fcns := [];
    }

    method FunctionAt(a: nat) returns (k: Option<nat>)
      ensures k.None? ==> forall i :: 0 <= i < |fcns| ==> fcns[i].addr != a
      ensures k.Some? ==> k.value < |fcns| && fcns[k.value].addr == a
    {
      for i := 0 to |fcns|
        invariant forall j :: 0 <= j < i ==> fcns[j].addr != a
      {
        if fcns[i].addr == a {
          return Some(i);
        }
      }
      return None;
    }

    /** Adds a function, unless one has the same start. */
    method Insert(f: Fcn) returns (ok: bool)
      modifies this
      ensures fcns == if ok then old(fcns) + [f] else old(fcns)
      ensures ok <==> forall i :: 0 <= i < |old(fcns)| ==> old(fcns)[i].addr != f.addr
      ensures Distinct(old(fcns)) ==> Distinct(fcns)
    {
      var k := FunctionAt(f.addr);
      if k.Some? {
        return false;
      }
      fcns := fcns + [f];
      return true;
    }

    /** The function with the lowest start above an address. */
    method Next(a: nat) returns (closer: Option<nat>)
      ensures IsNext(fcns, a, closer)
    {
      closer := None;
      for i := 0 to |fcns|
        invariant match closer
                  case None => forall j :: 0 <= j < i ==> fcns[j].addr <= a
                  case Some(n) => n < i && fcns[n].addr > a && forall j :: 0 <= j < i && fcns[j].addr > a ==> fcns[n].addr <= fcns[j].addr
      {
        if fcns[i].addr > a && (closer.None? || fcns[i].addr < fcns[closer.value].addr) {
          closer := Some(i);
        }
      }
    }

    /** Cuts a function to a size, if that is positive. */
    method Resize(k: nat, size: int) returns (ok: bool)
      requires k < |fcns| && size < 0x8000_0000
      modifies this
      ensures ok == (size >= 1) && |fcns| == |old(fcns)|
      ensures if ok then Resized(old(fcns)[k], size, fcns[k]) && fcns == old(fcns)[k := fcns[k]] else fcns == old(fcns)
      ensures ok ==> CutBlocks(old(fcns)[k].bbs, fcns[k].bbs, EndOf(fcns[k]))
    {
      hide Trimmed, TrimBlock, CutBlocks;
      if size < 1 {
        return false;
      }
      var f := fcns[k];
      var eof := (f.addr + size) % TWO64;
      var kept: seq<Block> := [];
      for i := 0 to |f.bbs|
        invariant kept + Trimmed(f.bbs[i..], eof) == Trimmed(f.bbs, eof) && fcns == old(fcns)
      {
        TrimmedStep(f.bbs, i, eof, kept);
        if f.bbs[i].addr < eof {
          kept := kept + [TrimBlock(f.bbs[i], eof)];
        }
      }
      TrimmedNone(kept, eof);
      assert f.bbs[|f.bbs|..] == [];
      var sorted := SortByAddr(kept);
      fcns := fcns[k := Fcn(f.addr, size, sorted)];
      ResizedKeeps(f, size, fcns[k]);
      return true;
    }

    /** Cuts one function at the start of the next one. */
    method Fit(k: nat)
      requires k < |fcns|
      modifies this
      ensures |fcns| == |old(fcns)| && fcns == old(fcns)[k := fcns[k]] && Fitted(old(fcns), k, fcns[k])
    {
      var f := fcns[k];
      var next := Next(f.addr);
      ghost var start := if next.Some? then Some(fcns[next.value].addr) else None;
      if next.Some? {
        if EndOf(f) > fcns[next.value].addr {
          var _ := Resize(k, ToInt32(fcns[next.value].addr - f.addr));
        }
      }
      assert FittedTo(f, start, fcns[k]);
    }

    /** Fits every function of the list. */
    method FitOverlaps()
      requires AllSizesFit(fcns)
      modifies this
      ensures AllFitted(old(fcns), fcns)
      ensures forall i :: 0 <= i < |fcns| ==> NothingLost(old(fcns)[i], fcns[i])
      ensures Distinct(old(fcns)) ==> (DisjointRanges(fcns) <==> NoneMissed(old(fcns)))
    {
      ghost var was := fcns;
      for i := 0 to |fcns|
        invariant |fcns| == |was|
        invariant forall k :: 0 <= k < i ==> Fitted(was, k, fcns[k])
        invariant forall k :: i <= k < |was| ==> fcns[k] == was[k]
        invariant forall k :: 0 <= k < |was| ==> fcns[k].addr == was[k].addr
      {
        ghost var mid := fcns;
        Fit(i);
        SameNext(was, mid, i, fcns[i]);
      }
      forall i | 0 <= i < |was|
        ensures NothingLost(was[i], fcns[i])
      {
        FittedLoses(was, i, fcns[i]);
      }
      hide DisjointRanges, NoneMissed, Distinct;
      if Distinct(was) {
        FittingIsExact(was, fcns);
      }
    }
  }

  /** Only the starts of other functions matter. */
  lemma SameNext(was: seq<Fcn>, mid: seq<Fcn>, i: nat, r: Fcn)
    requires |mid| == |was| && i < |was| && mid[i] == was[i] && (forall k :: 0 <= k < |was| ==> mid[k].addr == was[k].addr)
    requires Fitted(mid, i, r)
    ensures Fitted(was, i, r) && r.addr == was[i].addr
  {
    var k: Option<nat> :| IsNext(mid, mid[i].addr, k) && FittedTo(mid[i], if k.Some? then Some(mid[k.value].addr) else None, r);
    assert IsNext(was, was[i].addr, k);
  }
}
