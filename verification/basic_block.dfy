/** Basic blocks: where their instructions are, and what splitting one preserves. */
module BasicBlocks {
  import opened Wrappers

  /** The end-of-graph address is None. `opPos` holds the offsets of the instructions but
      the first, and may have spare room. */
  datatype Block = Block(addr: nat, size: nat, jump: Option<nat>, fail: Option<nat>, ninstr: nat, opPos: seq<nat>)

  /** Room for the first few instructions of a new block. */
  const DFLT_NINSTR: nat := 3

  /** Offsets are kept in sixteen bits. */
  const NO_OFFSET: nat := 0xffff

  function Zeros(n: nat): (s: seq<nat>)
    ensures |s| == n
  {
    seq(n, _ => 0)
  }

  function NewBlock(addr: nat): Block
  {
    Block(addr, 0, None, None, 0, Zeros(DFLT_NINSTR))
  }

  predicate Shape(b: Block)
  {
    b.ninstr <= |b.opPos| + 1
  }

  /** The offset of the i-th instruction. */
  function OffsetInst(b: Block, i: int): nat
    requires Shape(b)
  {
    if i < 0 || i >= b.ninstr then NO_OFFSET else if i > 0 then b.opPos[i - 1] else 0
  }

  /** Records an offset, doubling the room when it runs out; offset 0 is not recorded. */
  function SetOffset(b: Block, i: nat, v: nat): (r: Block)
    requires v < 0x1_0000
    ensures r == b.(opPos := r.opPos) && |r.opPos| >= |b.opPos|
    ensures i > 0 && v > 0 ==> |r.opPos| >= i && r.opPos[i - 1] == v
    ensures forall k :: 0 <= k < |b.opPos| && k != i - 1 ==> r.opPos[k] == b.opPos[k]
  {
    if i > 0 && v > 0 then
      var grown := if i >= |b.opPos| then b.opPos + Zeros(2 * i - |b.opPos|) else b.opPos;
      b.(opPos := grown[i - 1 := v])
    else b
  }

  /** Adds an instruction that starts at the given offset. */
  function AddInst(b: Block, v: nat): (r: Block)
    requires v < 0x1_0000
  {
    SetOffset(b, b.ninstr, v).(ninstr := b.ninstr + 1)
  }

  /** A block with one more instruction, of the given size. */
  function Grown(b: Block, size: nat): Block
    requires b.size < 0x1_0000
  {
    AddInst(b, b.size).(size := b.size + size)
  }

  /** A block with instructions: their offsets start at 0, increase, and lie inside. */
  predicate WellFormed(b: Block)
  {
    && Shape(b) && b.ninstr >= 1 && b.size < 0x1_0000
    && (forall i, j :: 0 <= i < j < b.ninstr ==> OffsetInst(b, i) < OffsetInst(b, j))
    && OffsetInst(b, b.ninstr - 1) < b.size
  }

  function InstAddrs(b: Block): (s: seq<nat>)
    requires Shape(b)
    ensures |s| == b.ninstr
  {
    seq(b.ninstr, i requires 0 <= i < b.ninstr => b.addr + OffsetInst(b, i))
  }

  predicate InBlock(b: Block, x: nat)
  {
    b.addr <= x < b.addr + b.size
  }

  // ----- the instruction at an address -----

  function OpAddrFrom(b: Block, delta: nat, i: nat, last: nat): Option<nat>
    requires Shape(b) && i <= b.ninstr
    decreases b.ninstr - i
  {
    if i == b.ninstr then None
    else if OffsetInst(b, i) > delta then Some(b.addr + last)
    else OpAddrFrom(b, delta, i + 1, OffsetInst(b, i))
  }

  function OpAddrAt(b: Block, off: nat): Option<nat>
    requires Shape(b)
  {
    if !InBlock(b, off) then None else OpAddrFrom(b, (off - b.addr) % 0x1_0000, 0, 0)
  }

  /** Instruction k occupies the offset. */
  predicate Occupies(b: Block, k: nat, delta: nat)
    requires WellFormed(b)
  {
    && k < b.ninstr && OffsetInst(b, k) <= delta < b.size
    && (k + 1 < b.ninstr ==> delta < OffsetInst(b, k + 1))
  }

  lemma {:induction false} SomeInstOccupies(b: Block, delta: nat, i: nat) returns (k: nat)
    requires WellFormed(b) && delta < b.size && i < b.ninstr && OffsetInst(b, i) <= delta
    ensures Occupies(b, k, delta)
    decreases b.ninstr - i
  {
    if i + 1 < b.ninstr && OffsetInst(b, i + 1) <= delta {
      k := SomeInstOccupies(b, delta, i + 1);
    } else {
      k := i;
    }
  }

  lemma {:induction false} OpAddrFinds(b: Block, delta: nat, i: nat, last: nat, k: nat)
    requires WellFormed(b) && Occupies(b, k, delta) && i <= k + 1
    requires i == k + 1 ==> last == OffsetInst(b, k)
    ensures OpAddrFrom(b, delta, i, last) == if k + 1 < b.ninstr then Some(b.addr + OffsetInst(b, k)) else None
    decreases b.ninstr - i
  {
    if i <= k {
      assert i < k ==> OffsetInst(b, i) < OffsetInst(b, k);
      OpAddrFinds(b, delta, i + 1, OffsetInst(b, i), k);
    }
  }

  /** The lookup gives the start of the instruction that occupies the address, except
      that it gives nothing for the block's last instruction. */
  lemma OpAddrIsExact(b: Block, off: nat, k: nat)
    requires WellFormed(b) && InBlock(b, off) && Occupies(b, k, off - b.addr)
    ensures OpAddrAt(b, off) == if k + 1 < b.ninstr then Some(InstAddrs(b)[k]) else None
  {
    OpAddrFinds(b, off - b.addr, 0, 0, k);
  }

  // ----- splitting -----

  /** How many of the leading instructions start before the offset. */
  function CountBefore(b: Block, size: nat, i: nat): (n: nat)
    requires Shape(b) && i <= b.ninstr
    ensures i <= n <= b.ninstr
    ensures forall k :: i <= k < n ==> OffsetInst(b, k) < size
    ensures n < b.ninstr ==> OffsetInst(b, n) >= size
    decreases b.ninstr - i
  {
    if i < b.ninstr && OffsetInst(b, i) < size then CountBefore(b, size, i + 1) else i
  }

  function Wrap16(x: int): nat
  {
    x % 0x1_0000
  }

  /** Copies instructions from i on, relative to the split. */
  function CopyFrom(b: Block, size: nat, i: nat, second: Block): (r: Block)
    requires Shape(b) && i <= b.ninstr && b.size < 0x1_0000
    ensures r == second.(ninstr := r.ninstr, opPos := r.opPos)
    decreases b.ninstr - i
  {
    if i < b.ninstr && OffsetInst(b, i) < b.size
    then CopyFrom(b, size, i + 1, AddInst(second, Wrap16(OffsetInst(b, i) - size)))
    else second
  }

  /** Both halves of a block split at an address inside it. */
  function SplitBlock(b: Block, at: nat): (r: (Block, Block))
    requires Shape(b) && b.size < 0x1_0000 && b.addr < at < b.addr + b.size
  {
    var size := at - b.addr;
    var n := CountBefore(b, size, 0);
    var second := NewBlock(at).(size := b.size - size, jump := b.jump, fail := b.fail);
    (b.(size := size, jump := Some(at), fail := None, ninstr := n),
     if OffsetInst(b, n) == size then CopyFrom(b, size, n, second) else second)
  }

  /** The copied block's offsets are the old ones less the size of the first half. */
  predicate Copied(b: Block, size: nat, n: nat, second: Block)
    requires Shape(b) && n <= b.ninstr
  {
    && Shape(second) && n + second.ninstr <= b.ninstr
    && forall k :: 0 <= k < second.ninstr ==> size + OffsetInst(second, k) == OffsetInst(b, n + k)
  }

  lemma AddInstKeeps(b: Block, size: nat, n: nat, second: Block)
    requires WellFormed(b) && n <= b.ninstr && Copied(b, size, n, second) && n + second.ninstr < b.ninstr
    requires OffsetInst(b, n) == size
    ensures Copied(b, size, n, AddInst(second, Wrap16(OffsetInst(b, n + second.ninstr) - size)))
  {
    var i := n + second.ninstr;
    assert i > n ==> OffsetInst(b, n) < OffsetInst(b, i);
    assert i < b.ninstr - 1 ==> OffsetInst(b, i) < OffsetInst(b, b.ninstr - 1);
    assert Wrap16(OffsetInst(b, i) - size) == OffsetInst(b, i) - size;
    var r := AddInst(second, OffsetInst(b, i) - size);
    forall k | 0 <= k < r.ninstr
      ensures size + OffsetInst(r, k) == OffsetInst(b, n + k)
    {
      if k < second.ninstr {
        assert OffsetInst(r, k) == OffsetInst(second, k);
      }
    }
  }

  /** One step of the copy. */
  lemma CopyStep(b: Block, size: nat, n: nat, i: nat, second: Block)
    requires WellFormed(b) && n <= i < b.ninstr && Copied(b, size, n, second) && i == n + second.ninstr
    requires OffsetInst(b, n) == size
    ensures var next := AddInst(second, Wrap16(OffsetInst(b, i) - size));
            && Copied(b, size, n, next) && i + 1 == n + next.ninstr && CopyFrom(b, size, i, second) == CopyFrom(b, size, i + 1, next)
  {
    AddInstKeeps(b, size, n, second);
    OffsetInside(b, i);
    hide AddInst, Copied, OffsetInst;
    AddInstCounts(second, Wrap16(OffsetInst(b, i) - size));
  }

  lemma {:induction false} CopyCopies(b: Block, size: nat, n: nat, i: nat, second: Block)
    requires WellFormed(b) && n <= i <= b.ninstr && Copied(b, size, n, second) && i == n + second.ninstr
    requires n < b.ninstr && OffsetInst(b, n) == size
    ensures var r := CopyFrom(b, size, i, second); Copied(b, size, n, r) && n + r.ninstr == b.ninstr
    decreases b.ninstr - i
  {
    if i < b.ninstr {
      CopyStep(b, size, n, i, second);
      CopyCopies(b, size, n, i + 1, AddInst(second, Wrap16(OffsetInst(b, i) - size)));
    }
  }

  lemma OffsetInside(b: Block, i: nat)
    requires WellFormed(b) && i < b.ninstr
    ensures OffsetInst(b, i) < b.size
  {
    assert i < b.ninstr - 1 ==> OffsetInst(b, i) < OffsetInst(b, b.ninstr - 1);
  }

  lemma AddInstCounts(b: Block, v: nat)
    requires v < 0x1_0000
    ensures AddInst(b, v).ninstr == b.ninstr + 1
  {
  }

  /** An address where an instruction of the block starts. */
  predicate Boundary(b: Block, k: nat, at: nat)
    requires WellFormed(b)
  {
    0 < k < b.ninstr && at == b.addr + OffsetInst(b, k)
  }

  lemma CountAtBoundary(b: Block, k: nat, i: nat)
    requires WellFormed(b) && 0 < k < b.ninstr && i <= k
    ensures CountBefore(b, OffsetInst(b, k), i) == k
    decreases k - i
  {
    if i < k {
      assert OffsetInst(b, i) < OffsetInst(b, k);
      CountAtBoundary(b, k, i + 1);
    }
  }

  /** Splitting at an instruction: both halves are well formed, cover the same bytes one
      after the other, and list the same instructions in order; the first half leads to
      the second, which keeps the edges. */
  lemma SplitPreserves(b: Block, k: nat, at: nat)
    requires WellFormed(b) && Boundary(b, k, at)
    ensures b.addr < at < b.addr + b.size
    ensures var (first, second) := SplitBlock(b, at);
            && WellFormed(first) && WellFormed(second)
            && first.addr == b.addr && first.addr + first.size == second.addr == at
            && second.addr + second.size == b.addr + b.size
            && InstAddrs(first) + InstAddrs(second) == InstAddrs(b)
            && first.jump == Some(second.addr) && first.fail == None
            && second.jump == b.jump && second.fail == b.fail
  {
    assert k < b.ninstr - 1 ==> OffsetInst(b, k) < OffsetInst(b, b.ninstr - 1);
    assert OffsetInst(b, 0) < OffsetInst(b, k);
    var size := at - b.addr;
    CountAtBoundary(b, k, 0);
    var blank := NewBlock(at).(size := b.size - size, jump := b.jump, fail := b.fail);
    CopyCopies(b, size, k, k, blank);
    var (first, second) := SplitBlock(b, at);
    hide CopyFrom, CountBefore, Copied;
    SecondHalf(b, size, k, second);
    FirstHalf(b, k, first);
    assert InstAddrs(first) + InstAddrs(second) == InstAddrs(b);
  }

  lemma FirstHalf(b: Block, k: nat, first: Block)
    requires WellFormed(b) && 0 < k < b.ninstr && OffsetInst(b, k) < b.size
    requires first == b.(size := OffsetInst(b, k), jump := first.jump, fail := first.fail, ninstr := k)
    ensures WellFormed(first) && forall i :: 0 <= i < k ==> InstAddrs(first)[i] == InstAddrs(b)[i]
  {
    assert forall i :: 0 <= i < k ==> OffsetInst(first, i) == OffsetInst(b, i);
  }

  lemma SecondHalf(b: Block, size: nat, k: nat, second: Block)
    requires WellFormed(b) && 0 < k < b.ninstr && OffsetInst(b, k) == size < b.size
    requires Copied(b, size, k, second) && k + second.ninstr == b.ninstr
    requires second.addr == b.addr + size && second.size == b.size - size
    ensures WellFormed(second) && forall i :: 0 <= i < second.ninstr ==> InstAddrs(second)[i] == InstAddrs(b)[k + i]
  {
    forall i, j | 0 <= i < j < second.ninstr
      ensures OffsetInst(second, i) < OffsetInst(second, j)
    {
      assert OffsetInst(b, k + i) < OffsetInst(b, k + j);
    }
  }

  // ----- cyclomatic complexity -----

  function EdgesOf(b: Block): nat
  {
    if b.jump.None? then 0 else if b.fail.None? then 1 else 2
  }

  function Edges(bs: seq<Block>): nat
  {
    if bs == [] then 0 else EdgesOf(bs[0]) + Edges(bs[1..])
  }

  /** Edges less nodes plus two. */
  function Complexity(bs: seq<Block>): int
  {
    Edges(bs) - |bs| + 2
  }

  /** How many blocks have so many edges: an end of the function has none, a branch two. */
  function Many(bs: seq<Block>, edges: nat): nat
  {
    if bs == [] then 0
    else
      var b := bs[0];
      (if edges == (if b.jump == None then 0 else if b.fail == None then 1 else 2) then 1 else 0) + Many(bs[1..], edges)
  }

  /** Every branch adds one and every end takes one away; a function with one end has one
      more than it has branches. */
  lemma {:induction false} ComplexityCounts(bs: seq<Block>)
    ensures Complexity(bs) == Many(bs, 2) - Many(bs, 0) + 2
    ensures Many(bs, 0) == 1 ==> Complexity(bs) == Many(bs, 2) + 1
  {
    if bs != [] {
      ComplexityCounts(bs[1..]);
    }
  }

  lemma {:induction false} EdgesAppend(bs: seq<Block>, b: Block)
    ensures Edges(bs + [b]) == Edges(bs) + EdgesOf(b)
  {
    if bs == [] {
      assert [b][1..] == [];
    } else {
      assert (bs + [b])[1..] == bs[1..] + [b];
      EdgesAppend(bs[1..], b);
    }
  }

  lemma {:induction false} EdgesUpdate(bs: seq<Block>, i: nat, b: Block)
    requires i < |bs|
    ensures Edges(bs[i := b]) == Edges(bs) - EdgesOf(bs[i]) + EdgesOf(b)
  {
    if i == 0 {
      assert bs[0 := b][1..] == bs[1..];
    } else {
      assert bs[i := b][1..] == bs[1..][i - 1 := b];
      EdgesUpdate(bs[1..], i - 1, b);
    }
  }

  /** Replacing a block of a function by its halves adds a node and an edge. */
  lemma SplitKeepsComplexity(bs: seq<Block>, i: nat, at: nat)
    requires i < |bs| && Shape(bs[i]) && bs[i].size < 0x1_0000 && bs[i].addr < at < bs[i].addr + bs[i].size
    ensures var (first, second) := SplitBlock(bs[i], at);
            Complexity(bs[i := first] + [second]) == Complexity(bs)
  {
    var (first, second) := SplitBlock(bs[i], at);
    EdgesUpdate(bs, i, first);
    EdgesAppend(bs[i := first], second);
  }

  // ----- the block as an object -----

  class BasicBlock {
    var addr: nat
    var size: nat
    var jump: Option<nat>
    var fail: Option<nat>
    var ninstr: nat
    var opPos: array<nat>

    constructor (addr: nat)
      ensures fresh(opPos) && Now() == NewBlock(addr)
    {
      this.addr, size, jump, fail, ninstr := addr, 0, None, None, 0;
      opPos := new nat[DFLT_NINSTR](_ => 0);
      new;
      assert opPos[..] == Zeros(DFLT_NINSTR);
    }

    function Now(): Block
      reads this, opPos
    {
      Block(addr, size, jump, fail, ninstr, opPos[..])
    }

    /** Where the i-th instruction starts. In a block with instructions the largest offset
        tells that there is no such one, as no instruction can start there. */
    method OffsetOf(i: int) returns (v: nat)
      requires Shape(Now())
      ensures v == OffsetInst(Now(), i)
      ensures 0 <= i < ninstr ==> InstAddrs(Now())[i] == addr + v
      ensures WellFormed(Now()) ==> (v == NO_OFFSET <==> i < 0 || i >= ninstr) && (v != NO_OFFSET ==> InBlock(Now(), addr + v))
    {
      if WellFormed(Now()) && 0 <= i < ninstr {
        OffsetInside(Now(), i);
      }
      if i < 0 || i >= ninstr {
        return NO_OFFSET;
      }
      return if i > 0 then opPos[i - 1] else 0;
    }

    /** Records an offset in place, moving to a larger array when needed. */
    method SetOffsetOf(i: nat, v: nat)
      requires v < 0x1_0000
      modifies this`opPos, opPos
      ensures Now() == SetOffset(old(Now()), i, v)
      ensures opPos == old(opPos) || fresh(opPos)
    {
      if i > 0 && v > 0 {
        if i >= opPos.Length {
          Grow(2 * i);
        }
        opPos[i - 1] := v;
      }
    }

    method Grow(n: nat)
      requires n >= opPos.Length
      modifies this`opPos
      ensures fresh(opPos) && opPos.Length == n && Now() == old(Now()).(opPos := old(Now()).opPos + Zeros(n - |old(Now()).opPos|))
    {
      var was := opPos[..];
      var bigger := new nat[n](i requires 0 <= i < n => if i < |was| then was[i] else 0);
      opPos := bigger;
      assert opPos[..] == was + Zeros(n - |was|);
    }

    method AddInstAt(v: nat)
      requires v < 0x1_0000
      modifies this`opPos, this`ninstr, opPos
      ensures Now() == AddInst(old(Now()), v)
      ensures opPos == old(opPos) || fresh(opPos)
    {
      SetOffsetOf(ninstr, v);
      ninstr := ninstr + 1;
    }

    method Extend(w: nat)
      requires size < 0x1_0000
      modifies this`opPos, this`ninstr, this`size, opPos
      ensures Now() == Grown(old(Now()), w)
      ensures opPos == old(opPos) || fresh(opPos)
    {
      AddInstAt(size);
      size := size + w;
    }

    /** The address of the instruction that occupies an address. */
    method OpAddr(off: nat) returns (r: Option<nat>)
      requires Shape(Now())
      ensures r == OpAddrAt(Now(), off)
    {
      if !(addr <= off < addr + size) {
        return None;
      }
      var delta, last: nat := (off - addr) % 0x1_0000, 0;
      for i := 0 to ninstr
        invariant OpAddrFrom(Now(), delta, i, last) == OpAddrAt(Now(), off)
      {
        var d := OffsetOf(i);
        if d > delta {
          return Some(addr + last);
        }
        last := d;
      }
      return None;
    }

    method SetRange(newSize: nat, newJump: Option<nat>, newFail: Option<nat>)
      modifies this`size, this`jump, this`fail
      ensures Now() == old(Now()).(size := newSize, jump := newJump, fail := newFail)
    {
      size, jump, fail := newSize, newJump, newFail;
    }

    method SetCount(n: nat)
      modifies this`ninstr
      ensures Now() == old(Now()).(ninstr := n)
    {
      ninstr := n;
    }

    method CountBeforeSplit(limit: nat) returns (i: nat)
      requires Shape(Now())
      ensures i == CountBefore(Now(), limit, 0)
    {
      i := 0;
      while i < ninstr
        invariant i <= ninstr && CountBefore(Now(), limit, i) == CountBefore(Now(), limit, 0)
      {
        var d := OffsetOf(i);
        if d >= limit {
          return;
        }
        i := i + 1;
      }
    }

    /** Moves the instructions from i on into another block; `b` is this block before its
        range was cut. */
    method CopyInto(second: BasicBlock, start: nat, ghost b: Block)
      requires second != this && second.opPos != opPos && Shape(b) && b.size < 0x1_0000 && start <= b.ninstr
      requires Now() == b.(size := size, jump := jump, fail := fail)
      requires size + second.size == b.size
      modifies second`opPos, second`ninstr, second.opPos
      ensures second.Now() == CopyFrom(b, size, start, old(second.Now()))
      ensures second.opPos == old(second.opPos) || fresh(second.opPos)
    {
      hide AddInst, WellFormed, InstAddrs;
      ghost var goal := CopyFrom(b, size, start, second.Now());
      var i := start;
      while i < ninstr
        invariant start <= i <= b.ninstr && Now() == b.(size := size, jump := jump, fail := fail)
        invariant second.opPos != opPos && size + second.size == b.size
        invariant second.opPos == old(second.opPos) || fresh(second.opPos)
        invariant CopyFrom(b, size, i, second.Now()) == goal
      {
        var d := OffsetOf(i);
        assert d == OffsetInst(b, i);
        if d >= size + second.size {
          return;
        }
        second.AddInstAt(Wrap16(d - size));
        i := i + 1;
      }
    }

    /** Cuts this block at an address and returns its second half. */
    method Split(at: nat) returns (second: BasicBlock)
      requires Shape(Now()) && size < 0x1_0000 && addr < at < addr + size
      modifies this`size, this`jump, this`fail, this`ninstr
      ensures fresh(second) && fresh(second.opPos) && (Now(), second.Now()) == SplitBlock(old(Now()), at)
    {
      hide CopyFrom, CountBefore, WellFormed, InstAddrs;
      ghost var b := Now();
      var cut := at - addr;
      second := new BasicBlock(at);
      second.SetRange(size - cut, jump, fail);
      SetRange(cut, Some(at), None);
      var n := CountBeforeSplit(cut);
      SameCount(b, Now(), cut, 0);
      var d := OffsetOf(n);
      if d == cut {
        CopyInto(second, n, b);
      }
      SetCount(n);
    }
  }

  lemma {:induction false} SameCount(b: Block, c: Block, size: nat, i: nat)
    requires Shape(b) && Shape(c) && c.ninstr == b.ninstr && c.opPos == b.opPos && i <= b.ninstr
    ensures CountBefore(c, size, i) == CountBefore(b, size, i)
    decreases b.ninstr - i
  {
    if i < b.ninstr {
      SameCount(b, c, size, i + 1);
    }
  }
}
