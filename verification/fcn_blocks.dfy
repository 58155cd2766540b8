/** The block list of a function while its code is being followed: blocks are runs of
    consecutive instructions, and no two of them overlap. */
module FcnBlocks {
  import opened Words
  import opened Wrappers
  import opened BasicBlocks

  // ----- code -----

  /** What an instruction does to the flow of control. Invalid and Unknown are bytes
      that do not decode. */
  datatype Kind =
    | Invalid | Unknown
    | Plain
    | Illegal | Trap
    | Jump(to: Option<nat>, after: Option<nat>, noReturn: bool, otherSection: bool)
    | Branch(jump: Option<nat>, fail: Option<nat>)
    | Call(noReturn: bool)
    | IndirectJump
    | Push(v: nat)
    | Return(conditional: bool)

  datatype Op = Op(size: nat, kind: Kind)

  type Code = nat -> Op

  predicate Decodes(o: Op)
  {
    !o.kind.Invalid? && !o.kind.Unknown?
  }

  /** Where jumps and branches lead. */
  predicate TargetsIn(o: Op, starts: nat -> bool)
  {
    match o.kind
    case Jump(to, after, _, _) => (to.Some? ==> starts(to.value)) && (after.Some? ==> starts(after.value))
    case Branch(jump, fail) => (jump.Some? ==> starts(jump.value)) && (fail.Some? ==> starts(fail.value))
    case _ => true
  }

  /** Instructions from the given addresses on lie one behind the other: each is followed
      by another start, has none inside, and leads to starts only. */
  ghost predicate Consistent(code: Code, starts: nat -> bool)
  {
    forall a: nat :: starts(a) && Decodes(code(a)) ==>
      && 1 <= code(a).size < 0x100 && starts(a + code(a).size) && TargetsIn(code(a), starts)
      && forall x: nat :: a < x < a + code(a).size ==> !starts(x)
  }

  /** Code of fixed-width instructions, aligned to their width. */
  lemma FixedWidthIsConsistent(code: Code, w: nat, starts: nat -> bool)
    requires 1 <= w < 0x100 && forall a: nat :: starts(a) <==> a % w == 0
    requires forall a: nat :: Decodes(code(a)) ==> code(a).size == w && TargetsIn(code(a), starts)
    ensures Consistent(code, starts)
  {
    forall a: nat | starts(a) && Decodes(code(a))
      ensures 1 <= code(a).size < 0x100 && starts(a + code(a).size) && TargetsIn(code(a), starts)
      ensures forall x: nat :: a < x < a + code(a).size ==> !starts(x)
    {
      NextMultiple(a, w);
      forall x: nat | a < x < a + w
        ensures !starts(x)
      {
        BetweenMultiples(a, w, x);
      }
    }
  }

  lemma NextMultiple(a: nat, w: nat)
    requires w > 0 && a % w == 0
    ensures (a + w) % w == 0
  {
    ModuloShift(a, w, 1);
  }

  lemma BetweenMultiples(a: nat, w: nat, x: nat)
    requires w > 0 && a % w == 0 && a < x < a + w
    ensures x % w != 0
  {
    ModuloUnique(x, w, a / w, x - a);
  }

  // ----- runs of instructions -----

  /** The address behind n instructions. */
  function After(code: Code, a: nat, n: nat): nat
  {
    if n == 0 then a else var x := After(code, a, n - 1); x + code(x).size
  }

  /** The first n instructions decode. */
  predicate Runs(code: Code, a: nat, n: nat)
  {
    n == 0 || (Runs(code, a, n - 1) && Decodes(code(After(code, a, n - 1))))
  }

  lemma {:induction false} RunStarts(code: Code, starts: nat -> bool, a: nat, n: nat)
    requires Consistent(code, starts) && starts(a) && Runs(code, a, n)
    ensures starts(After(code, a, n))
  {
    if n > 0 {
      RunStarts(code, starts, a, n - 1);
    }
  }

  lemma {:induction false} RunPrefix(code: Code, a: nat, n: nat, k: nat)
    requires Runs(code, a, n) && k <= n
    ensures Runs(code, a, k)
  {
    if k < n {
      RunPrefix(code, a, n - 1, k);
    }
  }

  /** Running k instructions and then n more. */
  lemma {:induction false} AfterSum(code: Code, a: nat, k: nat, n: nat)
    ensures After(code, a, k + n) == After(code, After(code, a, k), n)
    ensures Runs(code, a, k + n) <==> Runs(code, a, k) && Runs(code, After(code, a, k), n)
    decreases n
  {
    if n > 0 {
      AfterSum(code, a, k, n - 1);
      assert k + n - 1 == k + (n - 1);
    }
  }

  lemma {:induction false} AfterGrows(code: Code, starts: nat -> bool, a: nat, i: nat, j: nat)
    requires Consistent(code, starts) && starts(a) && Runs(code, a, j) && i < j
    ensures After(code, a, i) < After(code, a, j)
  {
    RunPrefix(code, a, j, j - 1);
    RunStarts(code, starts, a, j - 1);
    if i < j - 1 {
      AfterGrows(code, starts, a, i, j - 1);
    }
  }

  /** A start inside a run is where one of its instructions begins. */
  lemma {:induction false} StartInRun(code: Code, starts: nat -> bool, a: nat, n: nat, x: nat) returns (k: nat)
    requires Consistent(code, starts) && starts(a) && Runs(code, a, n) && starts(x) && a <= x < After(code, a, n)
    ensures k < n && x == After(code, a, k)
  {
    RunStarts(code, starts, a, n - 1);
    if x < After(code, a, n - 1) {
      k := StartInRun(code, starts, a, n - 1, x);
    } else {
      k := n - 1;
    }
  }

  // ----- blocks -----

  /** A block is a run of instructions from a start, and knows where each of them is. */
  ghost predicate Decoded(code: Code, starts: nat -> bool, b: Block)
  {
    && starts(b.addr) && Shape(b) && b.size < 0x8000
    && Runs(code, b.addr, b.ninstr) && b.addr + b.size == After(code, b.addr, b.ninstr)
    && OffsetsRight(code, b)
  }

  predicate OffsetsRight(code: Code, b: Block)
    requires Shape(b)
  {
    forall i :: 0 <= i < b.ninstr ==> b.addr + OffsetInst(b, i) == After(code, b.addr, i)
  }

  lemma DecodedIsWellFormed(code: Code, starts: nat -> bool, b: Block)
    requires Consistent(code, starts) && Decoded(code, starts, b) && b.ninstr > 0
    ensures WellFormed(b)
  {
    forall i, j | 0 <= i < j < b.ninstr
      ensures OffsetInst(b, i) < OffsetInst(b, j)
    {
      RunPrefix(code, b.addr, b.ninstr, j);
      AfterGrows(code, starts, b.addr, i, j);
    }
    AfterGrows(code, starts, b.addr, b.ninstr - 1, b.ninstr);
  }

  /** The block list's lookup: a block that contains the address, or an empty one there. */
  predicate Hits(b: Block, a: nat)
  {
    (b.size == 0 && a == b.addr) || (b.addr <= a < b.addr + b.size)
  }

  predicate Apart(a: Block, b: Block)
  {
    a.addr != b.addr && (a.addr + a.size <= b.addr || b.addr + b.size <= a.addr)
  }

  ghost predicate AllDecoded(code: Code, starts: nat -> bool, bs: seq<Block>)
  {
    forall i :: 0 <= i < |bs| ==> Decoded(code, starts, bs[i])
  }

  /** No two blocks share a start or a byte. */
  predicate Disjoint(bs: seq<Block>)
  {
    forall i, j :: 0 <= i < |bs| && 0 <= j < |bs| && i != j ==> Apart(bs[i], bs[j])
  }

  ghost predicate Sound(code: Code, starts: nat -> bool, bs: seq<Block>)
  {
    AllDecoded(code, starts, bs) && Disjoint(bs)
  }

  predicate HasStart(bs: seq<Block>, a: nat)
  {
    exists i :: 0 <= i < |bs| && bs[i].addr == a
  }

  predicate Covers(bs: seq<Block>, x: nat)
  {
    exists i :: 0 <= i < |bs| && InBlock(bs[i], x)
  }

  /** Starts and covered bytes only grow. */
  ghost predicate Extends(was: seq<Block>, now: seq<Block>)
  {
    && (forall a: nat :: HasStart(was, a) ==> HasStart(now, a))
    && (forall x: nat :: Covers(was, x) ==> Covers(now, x))
  }

  lemma ExtendsTrans(a: seq<Block>, b: seq<Block>, c: seq<Block>)
    requires Extends(a, b) && Extends(b, c)
    ensures Extends(a, c)
  {
  }

  // ----- appending -----

  lemma AppendKeeps(code: Code, starts: nat -> bool, bs: seq<Block>, a: nat)
    requires Sound(code, starts, bs) && starts(a) && forall i :: 0 <= i < |bs| ==> !Hits(bs[i], a)
    ensures Sound(code, starts, bs + [NewBlock(a)]) && Extends(bs, bs + [NewBlock(a)])
    ensures HasStart(bs + [NewBlock(a)], a)
  {
    var now, b := bs + [NewBlock(a)], NewBlock(a);
    assert Decoded(code, starts, b);
    forall i | 0 <= i < |bs|
      ensures Apart(bs[i], b) && Apart(b, bs[i])
    {
      assert !Hits(bs[i], a);
    }
    assert forall i :: 0 <= i < |bs| ==> now[i] == bs[i];
    assert now[|bs|] == b;
    SameBlocksExtend(bs, now);
  }

  lemma SameBlocksExtend(bs: seq<Block>, now: seq<Block>)
    requires |bs| <= |now| && forall i :: 0 <= i < |bs| ==> now[i].addr == bs[i].addr && now[i].size >= bs[i].size
    ensures Extends(bs, now)
  {
    forall a: nat | HasStart(bs, a)
      ensures HasStart(now, a)
    {
      var i :| 0 <= i < |bs| && bs[i].addr == a;
      assert now[i].addr == a;
    }
    forall x: nat | Covers(bs, x)
      ensures Covers(now, x)
    {
      var i :| 0 <= i < |bs| && InBlock(bs[i], x);
      assert InBlock(now[i], x);
    }
  }

  // ----- growing by an instruction -----

  lemma GrownIsDecoded(code: Code, starts: nat -> bool, b: Block)
    requires Consistent(code, starts) && Decoded(code, starts, b) && b.size < 0x7000
    requires Decodes(code(b.addr + b.size))
    ensures Decoded(code, starts, Grown(b, code(b.addr + b.size).size))
  {
    RunStarts(code, starts, b.addr, b.ninstr);
    if b.ninstr > 0 {
      AfterGrows(code, starts, b.addr, 0, b.ninstr);
    }
    GrownOffsets(code, b, code(b.addr + b.size).size);
  }

  lemma GrownOffsets(code: Code, b: Block, w: nat)
    requires Shape(b) && OffsetsRight(code, b) && b.size < 0x7000 && b.addr + b.size == After(code, b.addr, b.ninstr)
    requires b.ninstr > 0 ==> b.size > 0
    ensures var r := Grown(b, w); Shape(r) && r.ninstr == b.ninstr + 1 && OffsetsRight(code, r)
  {
    hide After;
    var r := Grown(b, w);
    forall i | 0 <= i < r.ninstr
      ensures r.addr + OffsetInst(r, i) == After(code, r.addr, i)
    {
      if i < b.ninstr {
        assert OffsetInst(r, i) == OffsetInst(b, i);
      } else if i == 0 {
        NoneIsHere(code, b);
      }
    }
  }

  lemma NoneIsHere(code: Code, b: Block)
    requires b.addr + b.size == After(code, b.addr, 0)
    ensures b.size == 0
  {
  }

  /** An instruction that no other block reaches can be added. */
  lemma GrowKeeps(code: Code, starts: nat -> bool, bs: seq<Block>, k: nat)
    requires Consistent(code, starts) && Sound(code, starts, bs) && k < |bs| && bs[k].size < 0x7000
    requires Decodes(code(bs[k].addr + bs[k].size))
    requires forall i :: 0 <= i < |bs| && i != k ==> !Hits(bs[i], bs[k].addr + bs[k].size)
    ensures var now := bs[k := Grown(bs[k], code(bs[k].addr + bs[k].size).size)];
            Sound(code, starts, now) && Extends(bs, now)
  {
    hide Decoded;
    var b, x := bs[k], bs[k].addr + bs[k].size;
    assert Decoded(code, starts, b);
    var g := Grown(b, code(x).size);
    GrownIsDecoded(code, starts, b);
    var now := bs[k := g];
    EndIsStart(code, starts, b);
    forall i | 0 <= i < |bs| && i != k
      ensures Apart(now[i], g) && Apart(g, now[i])
    {
      assert Apart(bs[i], b) && !Hits(bs[i], x) && Decoded(code, starts, bs[i]);
      EndIsStart(code, starts, bs[i]);
      ApartGrows(code, starts, bs[i], b, g);
    }
    forall i, j | 0 <= i < |now| && 0 <= j < |now| && i != j
      ensures Apart(now[i], now[j])
    {
      if i != k && j != k {
        assert Apart(bs[i], bs[j]);
      }
    }
    SameBlocksExtend(bs, now);
  }

  lemma EndIsStart(code: Code, starts: nat -> bool, b: Block)
    requires Consistent(code, starts) && Decoded(code, starts, b)
    ensures starts(b.addr) && starts(b.addr + b.size)
  {
    RunStarts(code, starts, b.addr, b.ninstr);
  }

  lemma ApartGrows(code: Code, starts: nat -> bool, c: Block, b: Block, g: Block)
    requires Consistent(code, starts) && Apart(c, b) && starts(c.addr) && starts(b.addr + b.size)
    requires Decodes(code(b.addr + b.size)) && !Hits(c, b.addr + b.size)
    requires g.addr == b.addr && g.size == b.size + code(b.addr + b.size).size
    ensures Apart(c, g) && Apart(g, c)
  {
    var x := b.addr + b.size;
    assert !(x < c.addr < x + code(x).size);
  }

  // ----- splitting -----

  lemma SplitIsDecoded(code: Code, starts: nat -> bool, b: Block, at: nat)
    requires Consistent(code, starts) && Decoded(code, starts, b) && starts(at) && b.addr < at < b.addr + b.size
    ensures var (first, second) := SplitBlock(b, at);
            && Decoded(code, starts, first) && Decoded(code, starts, second)
            && first.addr == b.addr && first.addr + first.size == at && second.addr == at
            && second.addr + second.size == b.addr + b.size
            && InstAddrs(first) + InstAddrs(second) == InstAddrs(b)
            && first.ninstr + second.ninstr == b.ninstr && second.ninstr > 0
            && first.jump == Some(at) && first.fail == None && second.jump == b.jump && second.fail == b.fail
  {
    DecodedIsWellFormed(code, starts, b);
    var k := StartInRun(code, starts, b.addr, b.ninstr, at);
    var (first, second) := SplitBlock(b, at);
    SplitPreserves(b, k, at);
    HalvesCount(code, starts, b, k, first, second);
    HalvesAreRuns(code, starts, b, k, first, second);
  }

  lemma HalvesAreRuns(code: Code, starts: nat -> bool, b: Block, k: nat, first: Block, second: Block)
    requires Consistent(code, starts) && Decoded(code, starts, b) && 0 < k < b.ninstr && starts(second.addr)
    requires WellFormed(first) && WellFormed(second) && InstAddrs(first) + InstAddrs(second) == InstAddrs(b)
    requires first.addr == b.addr && first.addr + first.size == second.addr == After(code, b.addr, k)
    requires second.addr + second.size == b.addr + b.size
    ensures Decoded(code, starts, first) && Decoded(code, starts, second)
  {
    HalvesCount(code, starts, b, k, first, second);
    hide WellFormed, After, Runs;
    RunPrefix(code, b.addr, b.ninstr, k);
    AfterSum(code, b.addr, k, second.ninstr);
    FirstOffsets(code, b, first, second);
    SecondOffsets(code, b, k, first, second);
  }

  lemma FirstOffsets(code: Code, b: Block, first: Block, second: Block)
    requires Shape(b) && Shape(first) && Shape(second) && OffsetsRight(code, b) && first.addr == b.addr
    requires InstAddrs(first) + InstAddrs(second) == InstAddrs(b)
    ensures OffsetsRight(code, first)
  {
    hide OffsetInst;
    forall i | 0 <= i < first.ninstr
      ensures first.addr + OffsetInst(first, i) == After(code, first.addr, i)
    {
      assert InstAddrs(first)[i] == (InstAddrs(first) + InstAddrs(second))[i] == InstAddrs(b)[i];
    }
  }

  lemma SecondOffsets(code: Code, b: Block, k: nat, first: Block, second: Block)
    requires Shape(b) && Shape(first) && Shape(second) && OffsetsRight(code, b) && first.ninstr == k
    requires InstAddrs(first) + InstAddrs(second) == InstAddrs(b) && second.addr == After(code, b.addr, k)
    ensures OffsetsRight(code, second)
  {
    hide OffsetInst;
    forall i | 0 <= i < second.ninstr
      ensures second.addr + OffsetInst(second, i) == After(code, second.addr, i)
    {
      assert InstAddrs(second)[i] == (InstAddrs(first) + InstAddrs(second))[k + i] == InstAddrs(b)[k + i];
      AfterSum(code, b.addr, k, i);
    }
  }

  /** The first half has as many instructions as lie before the split. */
  lemma HalvesCount(code: Code, starts: nat -> bool, b: Block, k: nat, first: Block, second: Block)
    requires Consistent(code, starts) && Decoded(code, starts, b) && 0 < k < b.ninstr
    requires WellFormed(first) && WellFormed(second) && InstAddrs(first) + InstAddrs(second) == InstAddrs(b)
    requires first.addr == b.addr && first.addr + first.size == second.addr == After(code, b.addr, k)
    ensures first.ninstr == k && first.ninstr + second.ninstr == b.ninstr
  {
    var n := first.ninstr;
    assert |InstAddrs(first) + InstAddrs(second)| == n + second.ninstr;
    assert InstAddrs(b)[n] == (InstAddrs(first) + InstAddrs(second))[n] == InstAddrs(second)[0] == second.addr;
    assert InstAddrs(b)[n] == After(code, b.addr, n);
    if n < k {
      RunPrefix(code, b.addr, b.ninstr, k);
      AfterGrows(code, starts, b.addr, n, k);
    } else if k < n {
      RunPrefix(code, b.addr, b.ninstr, n);
      AfterGrows(code, starts, b.addr, k, n);
    }
  }

  /** Splitting a block of the list keeps the list sound and covers the same bytes. */
  lemma SplitKeeps(code: Code, starts: nat -> bool, bs: seq<Block>, k: nat, at: nat)
    requires Consistent(code, starts) && Sound(code, starts, bs) && k < |bs| && starts(at)
    requires Shape(bs[k]) && bs[k].size < 0x8000 && bs[k].addr < at < bs[k].addr + bs[k].size
    ensures var (first, second) := SplitBlock(bs[k], at);
            var now := bs[k := first] + [second];
            && Sound(code, starts, now) && Extends(bs, now) && HasStart(now, at)
            && (forall x: nat :: Covers(now, x) <==> Covers(bs, x))
  {
    hide Decoded;
    var b := bs[k];
    assert Decoded(code, starts, b);
    SplitIsDecoded(code, starts, b, at);
    var (first, second) := SplitBlock(b, at);
    var now, n := bs[k := first] + [second], |bs|;
    assert forall i :: 0 <= i < n && i != k ==> now[i] == bs[i];
    assert now[k] == first && now[n] == second;
    forall i, j | 0 <= i < |now| && 0 <= j < |now| && i != j
      ensures Apart(now[i], now[j])
    {
      if i != k && i < n {
        assert Apart(bs[i], b) && Apart(b, bs[i]);
      }
      if j != k && j < n {
        assert Apart(bs[j], b) && Apart(b, bs[j]);
      }
      if i != k && j != k && i < n && j < n {
        assert Apart(bs[i], bs[j]);
      }
    }
    SplitCovers(bs, k, first, second);
  }

  lemma SplitCovers(bs: seq<Block>, k: nat, first: Block, second: Block)
    requires k < |bs| && first.addr == bs[k].addr && first.addr + first.size == second.addr
    requires second.addr + second.size == bs[k].addr + bs[k].size
    ensures var now := bs[k := first] + [second];
            && Extends(bs, now) && HasStart(now, second.addr)
            && (forall x: nat :: Covers(now, x) <==> Covers(bs, x))
  {
    var now, n := bs[k := first] + [second], |bs|;
    assert now[n] == second && now[k] == first && forall i :: 0 <= i < n && i != k ==> now[i] == bs[i];
    forall a: nat | HasStart(bs, a)
      ensures HasStart(now, a)
    {
      var i :| 0 <= i < |bs| && bs[i].addr == a;
      assert now[i].addr == a;
    }
    forall x: nat
      ensures Covers(now, x) <==> Covers(bs, x)
    {
      if Covers(bs, x) {
        var i :| 0 <= i < |bs| && InBlock(bs[i], x);
        assert InBlock(now[if i == k && x >= second.addr then n else i], x);
      }
      if Covers(now, x) {
        var i :| 0 <= i < |now| && InBlock(now[i], x);
        assert InBlock(bs[if i == n then k else i], x);
      }
    }
  }

  // ----- order and edges -----

  /** Reordering the list, and changing edges, affects none of this. */
  predicate SameUpToEdges(b: Block, c: Block)
  {
    c == b.(jump := c.jump, fail := c.fail)
  }

  lemma EdgesKeep(code: Code, starts: nat -> bool, bs: seq<Block>, k: nat, c: Block)
    requires Sound(code, starts, bs) && k < |bs| && SameUpToEdges(bs[k], c)
    ensures Sound(code, starts, bs[k := c]) && Extends(bs, bs[k := c])
  {
    var now := bs[k := c];
    assert Decoded(code, starts, bs[k]);
    assert Decoded(code, starts, c) by {
      assert forall i :: 0 <= i < c.ninstr ==> OffsetInst(c, i) == OffsetInst(bs[k], i);
    }
    forall i, j | 0 <= i < |now| && 0 <= j < |now| && i != j
      ensures Apart(now[i], now[j])
    {
      assert Apart(bs[i], bs[j]);
    }
    SameBlocksExtend(bs, now);
  }

  /** The list `now` has the blocks of `bs` in the order p. */
  predicate Reordered(bs: seq<Block>, now: seq<Block>, p: seq<nat>)
  {
    && |p| == |now| == |bs|
    && (forall i :: 0 <= i < |p| ==> p[i] < |bs| && now[i] == bs[p[i]])
    && (forall i, j :: 0 <= i < |p| && 0 <= j < |p| && i != j ==> p[i] != p[j])
    && (forall k :: 0 <= k < |bs| ==> k in p)
  }

  lemma ReorderKeeps(code: Code, starts: nat -> bool, bs: seq<Block>, now: seq<Block>, p: seq<nat>)
    requires Sound(code, starts, bs) && Reordered(bs, now, p)
    ensures Sound(code, starts, now) && Extends(bs, now)
  {
    hide Decoded, Apart;
    forall i, j | 0 <= i < |now| && 0 <= j < |now| && i != j
      ensures Apart(now[i], now[j])
    {
      assert Apart(bs[p[i]], bs[p[j]]);
    }
    forall a: nat | HasStart(bs, a)
      ensures HasStart(now, a)
    {
      var k :| 0 <= k < |bs| && bs[k].addr == a;
      assert k in p;
      var i :| 0 <= i < |p| && p[i] == k;
      assert now[i].addr == a;
    }
    forall x: nat | Covers(bs, x)
      ensures Covers(now, x)
    {
      var k :| 0 <= k < |bs| && InBlock(bs[k], x);
      assert k in p;
      var i :| 0 <= i < |p| && p[i] == k;
      assert InBlock(now[i], x);
    }
  }
}
