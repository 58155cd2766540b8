/** The ESIL stack machine: its state, and what each of its words does to it.

    A machine is a value, and a word a function from machines to an outcome. Registers are
    read when a word uses them, not when their names are pushed. Words that fail may
    have popped their operands by then, as in the program. */
module EsilMachine {
  import opened Words
  import opened Wrappers
  import opened EsilFlags

  // ----- words -----

  /** Internal values that are recomputed from the last assignment when read. */
  datatype Flag =
    | Borrow(bit: nat)
    | Carry(pos: CarryBit)
    | OverflowFlag
    | SignFlag
    | RegSize

  type CarryBit = b: nat | b < 64

  /** A stack entry is text, evaluated only when popped: a number, a register name, an
      internal flag, or something that means nothing. */
  datatype Entry = Num(n: Word) | Reg(name: string) | Internal(flag: Flag) | Bad(text: string)

  datatype BinOp = OpAdd | OpSub | OpMul | OpDiv | OpMod | OpAnd | OpOr | OpXor | OpShl | OpShr

  /** The operators that have a memory form here. */
  type MemOp = b: BinOp | b != OpMod && b != OpShl && b != OpShr witness OpAdd

  /** Access widths in bytes. */
  type Width = w: nat | w == 1 || w == 2 || w == 4 || w == 8 witness 1

  datatype Op =
    | Binary(b: BinOp)
    | Update(b: BinOp)
    | Inc | Dec | IncEq | DecEq | Not | NotEq
    | Assign | Compare
    | Peek(w: Width) | Poke(w: Width)
    | MemUpdate(mb: MemOp, mw: Width)
    | Clear | Drop | Dup | Swap | NumOf

  // ----- state -----

  datatype Trap = NoTrap | DivByZero | InternalTrap

  /** `scratch` is what an uninitialised eight-byte buffer happens to hold. */
  datatype Machine = Machine(
    sizes: map<string, nat>, regs: map<string, Word>,
    stack: seq<Entry>, limit: nat,
    prev: Word, cur: Word, lastsz: nat,
    mem: map<nat, Byte>, bigEndian: bool, scratch: seq<Byte>, trap: Trap)

  predicate Valid(m: Machine)
  {
    && m.sizes.Keys == m.regs.Keys
    && (forall r :: r in m.sizes ==> 1 <= m.sizes[r] <= 64)
    && (forall r :: r in m.regs ==> m.regs[r] < Pow2(m.sizes[r]))
    && |m.stack| <= m.limit
    && m.lastsz <= 64
    && |m.scratch| == 8
  }

  /** What a word leaves: whether to go on, and the state. */
  datatype Outcome = Outcome(ok: bool, m: Machine)

  // ----- stack -----

  function Push(m: Machine, e: Entry): (o: Outcome)
    ensures Valid(m) ==> Valid(o.m)
  {
    if |m.stack| < m.limit then Outcome(true, m.(stack := m.stack + [e])) else Outcome(false, m)
  }

  /** A number is pushed if there is room, and dropped silently otherwise. */
  function PushNum(m: Machine, n: Word): (r: Machine)
    ensures Valid(m) ==> Valid(r)
  {
    Push(m, Num(n)).m
  }

  function Top(m: Machine): Option<Entry>
  {
    if m.stack == [] then None else Some(m.stack[|m.stack| - 1])
  }

  function Pop(m: Machine): (r: Machine)
    ensures Valid(m) ==> Valid(r)
  {
    if m.stack == [] then m else m.(stack := m.stack[..|m.stack| - 1])
  }

  // ----- operands -----

  function ReadFlag(m: Machine, f: Flag): Word
    requires Valid(m)
  {
    match f
    case Borrow(bit) => if BorrowCheck(m.prev, m.cur, bit) then 1 else 0
    case Carry(bit) => if CarryCheck(m.prev, m.cur, bit) then 1 else 0
    case OverflowFlag => if OverflowCheck(m.prev, m.cur, m.lastsz) then 1 else 0
    case SignFlag => if SignCheck(m.cur, m.lastsz) then 1 else 0
    case RegSize => 8
  }

  /** The value of an operand. */
  function Value(m: Machine, e: Option<Entry>): Option<Word>
    requires Valid(m)
  {
    match e
    case None => None
    case Some(Num(n)) => Some(n)
    case Some(Reg(r)) => if r in m.regs then Some(m.regs[r]) else None
    case Some(Internal(f)) => Some(ReadFlag(m, f))
    case Some(Bad(_)) => None
  }

  /** Operands do not depend on the stack. */
  lemma ValueIgnoresStack(m: Machine, n: Machine, e: Option<Entry>)
    requires Valid(m) && Valid(n) && n == m.(stack := n.stack)
    ensures Value(n, e) == Value(m, e)
  {
  }

  /** The value of a destination, which must have a name. */
  function ReadDst(m: Machine, e: Option<Entry>): Option<Word>
    requires Valid(m)
  {
    if e.Some? && e.value.Num? then None else Value(m, e)
  }

  /** What a register of the given size keeps of a value; a one-bit register keeps
      whether it is zero. */
  function Fit(v: Word, size: nat): (r: Word)
    requires 1 <= size <= 64
    ensures r < Pow2(size)
  {
    Pow2Monotone(1, size);
    Pow2AtMost64(size);
    if size == 1 then (if v != 0 then 1 else 0) else v % Pow2(size)
  }

  function WriteReg(m: Machine, e: Entry, v: Word): (o: Outcome)
    requires Valid(m)
    ensures Valid(o.m)
  {
    if e.Reg? && e.name in m.regs then Outcome(true, m.(regs := m.regs[e.name := Fit(v, m.sizes[e.name])]))
    else Outcome(false, m)
  }

  function SizeOf(m: Machine, e: Entry): (n: nat)
    ensures Valid(m) ==> n <= 64
  {
    if e.Reg? && e.name in m.sizes then m.sizes[e.name] else 0
  }

  function Track(m: Machine, prev: Word, cur: Word, lastsz: nat): (r: Machine)
    ensures Valid(m) && lastsz <= 64 ==> Valid(r)
  {
    m.(prev := prev, cur := cur, lastsz := lastsz)
  }

  // ----- arithmetic -----

  /** d op s. Shift counts of 64 and more, undefined in C, are taken modulo 64. */
  function Apply(b: BinOp, d: Word, s: Word): Word
    requires b == OpDiv || b == OpMod ==> s != 0
  {
    match b
    case OpAdd => Add(d, s)
    case OpSub => Sub(d, s)
    case OpMul => Mul(d, s)
    case OpDiv => Quotient(d, s)
    case OpMod => d % s
    case OpAnd => AndW(d, s)
    case OpOr => OrW(d, s)
    case OpXor => XorW(d, s)
    case OpShl => Shl(d, s % 64)
    case OpShr => Shr(d, s % 64)
  }

  function Quotient(d: Word, s: Word): Word
    requires s != 0
  {
    ShrStays(d, s);
    d / s
  }

  lemma ShrStays(x: nat, d: nat)
    requires d >= 1
    ensures x / d <= x
  {
    var q := x / d;
    assert x == d * q + x % d;
    MulAtLeastFactor(d, q);
  }

  lemma MulAtLeastFactor(d: nat, q: nat)
    requires d >= 1
    ensures d * q >= q
  {
    assert d * q == (d - 1) * q + q;
  }

  function Divides(b: BinOp): bool
  {
    b == OpDiv || b == OpMod
  }

  function RunBinary(m: Machine, b: BinOp): (o: Outcome)
    requires Valid(m)
    ensures Valid(o.m)
  {
    var m1 := Pop(m);
    var d := Value(m1, Top(m));
    if b == OpSub && d.None? then Outcome(false, m1)
    else
      var m2, s := Pop(m1), Value(Pop(m1), Top(m1));
      if d.None? || s.None? then Outcome(false, m2)
      else if Divides(b) && s.value == 0 then Outcome(true, m2.(trap := DivByZero))
      else Outcome(true, PushNum(m2, Apply(b, d.value, s.value)))
  }

  function RunUpdate(m: Machine, b: BinOp): (o: Outcome)
    requires Valid(m)
    ensures Valid(o.m)
  {
    var dst, m1 := Top(m), Pop(m);
    var src, m2 := Top(m1), Pop(m1);
    var d, s := ReadDst(m2, dst), Value(m2, src);
    if d.None? || s.None? then Outcome(false, m2)
    else if Divides(b) && s.value == 0 then Outcome(true, m2.(trap := DivByZero))
    else
      var v := Apply(b, d.value, s.value);
      var m3 := if src.value.Internal? && b != OpShl && b != OpShr then m2
                else Track(m2, d.value, v, SizeOf(m2, dst.value));
      Outcome(true, WriteReg(m3, dst.value, v).m)
  }

  function RunStep(m: Machine, b: BinOp): (o: Outcome)
    requires Valid(m) && (b == OpAdd || b == OpSub)
    ensures Valid(o.m)
  {
    var s := Value(Pop(m), Top(m));
    if s.None? then Outcome(false, Pop(m)) else Outcome(true, PushNum(Pop(m), Apply(b, s.value, 1)))
  }

  function RunStepEq(m: Machine, b: BinOp): (o: Outcome)
    requires Valid(m) && (b == OpAdd || b == OpSub)
    ensures Valid(o.m)
  {
    var e, m1 := Top(m), Pop(m);
    if e.None? || !e.value.Reg? || e.value.name !in m.regs then Outcome(false, m1)
    else
      var d := m.regs[e.value.name];
      var v := Apply(b, d, 1);
      Outcome(true, Track(WriteReg(m1, e.value, v).m, d, v, SizeOf(m1, e.value)))
  }

  function IsZero(v: Word): Word
  {
    if v == 0 then 1 else 0
  }

  function RunNot(m: Machine): (o: Outcome)
    requires Valid(m)
    ensures Valid(o.m)
  {
    var s := Value(Pop(m), Top(m));
    if s.None? then Outcome(false, Pop(m)) else Outcome(true, PushNum(Pop(m), IsZero(s.value)))
  }

  function RunNotEq(m: Machine): (o: Outcome)
    requires Valid(m)
    ensures Valid(o.m)
  {
    var e, m1 := Top(m), Pop(m);
    var d := ReadDst(m1, e);
    if d.None? then Outcome(false, m1) else Outcome(true, WriteReg(m1, e.value, IsZero(d.value)).m)
  }

  function RunAssign(m: Machine): (o: Outcome)
    requires Valid(m)
    ensures Valid(o.m)
  {
    var dst, m1 := Top(m), Pop(m);
    var src, m2 := Top(m1), Pop(m1);
    var d, s := ReadDst(m2, dst), Value(m2, src);
    if d.None? || s.None? then Outcome(false, m2)
    else
      var w := WriteReg(m2, dst.value, s.value);
      if w.ok && !src.value.Internal?
      then Outcome(true, Track(w.m, d.value, s.value, SizeOf(m2, dst.value)))
      else w
  }

  function RunCompare(m: Machine): (o: Outcome)
    requires Valid(m)
    ensures Valid(o.m)
  {
    var dst, m1 := Top(m), Pop(m);
    var src, m2 := Top(m1), Pop(m1);
    var d, s := Value(m2, dst), Value(m2, src);
    if d.None? || s.None? then Outcome(false, m2)
    else
      var size := if SizeOf(m2, dst.value) != 0 then SizeOf(m2, dst.value)
                  else if SizeOf(m2, src.value) != 0 then SizeOf(m2, src.value) else 64;
      Outcome(true, PushNum(Track(m2, d.value, Sub(d.value, s.value), size), if d.value == s.value then 1 else 0))
  }

  // ----- memory -----

  /** Unmapped memory reads as ones. */
  function ReadByte(mem: map<nat, Byte>, a: nat): Byte
  {
    if a in mem then mem[a] else 0xff
  }

  function ReadBytes(mem: map<nat, Byte>, a: nat, n: nat): (r: seq<Byte>)
    ensures |r| == n
    decreases n
  {
    if n == 0 then [] else [ReadByte(mem, a)] + ReadBytes(mem, a + 1, n - 1)
  }

  function WriteBytes(mem: map<nat, Byte>, a: nat, bs: seq<Byte>): map<nat, Byte>
    decreases |bs|
  {
    if bs == [] then mem else WriteBytes(mem[a := bs[0]], a + 1, bs[1..])
  }

  function Reversed(bs: seq<Byte>): (r: seq<Byte>)
    ensures |r| == |bs|
  {
    if bs == [] then [] else Reversed(bs[1..]) + [bs[0]]
  }

  function DecodeLE(bs: seq<Byte>): nat
  {
    if bs == [] then 0 else bs[0] + 0x100 * DecodeLE(bs[1..])
  }

  function EncodeLE(v: nat, n: nat): (r: seq<Byte>)
    ensures |r| == n
  {
    if n == 0 then [] else [v % 0x100] + EncodeLE(v / 0x100, n - 1)
  }

  function Decode(bs: seq<Byte>, bigEndian: bool): nat
  {
    DecodeLE(if bigEndian then Reversed(bs) else bs)
  }

  function Encode(v: nat, n: nat, bigEndian: bool): (r: seq<Byte>)
    ensures |r| == n
  {
    if bigEndian then Reversed(EncodeLE(v, n)) else EncodeLE(v, n)
  }

  lemma {:induction false} DecodeBelow(bs: seq<Byte>)
    ensures DecodeLE(bs) < Pow2(8 * |bs|)
  {
    if bs != [] {
      DecodeBelow(bs[1..]);
      Pow2Byte(8 * |bs| - 8);
    }
  }

  /** A word of the given bytes. */
  function DecodeWord(bs: seq<Byte>, bigEndian: bool): Word
    requires |bs| <= 8
  {
    DecodeBelow(if bigEndian then Reversed(bs) else bs);
    Pow2AtMost64(8 * |bs|);
    Decode(bs, bigEndian)
  }

  function ReadWord(m: Machine, a: nat, w: Width): Word
  {
    DecodeWord(ReadBytes(m.mem, a, w), m.bigEndian)
  }

  function RunPeek(m: Machine, w: Width): (o: Outcome)
    requires Valid(m)
    ensures Valid(o.m)
  {
    var a := Value(Pop(m), Top(m));
    if a.None? then Outcome(false, Pop(m))
    else
      var m1 := PushNum(Pop(m), ReadWord(Pop(m), a.value, w));
      Outcome(true, Track(m1, m1.prev, m1.cur, 8 * w))
  }

  /** What an eight-byte buffer holds after w bytes were read into it. */
  function ReadBuffer(m: Machine, a: nat, w: Width): Word
    requires Valid(m)
  {
    DecodeWord(ReadBytes(m.mem, a, w) + m.scratch[w..], m.bigEndian)
  }

  function StoreWord(m: Machine, a: nat, v: Word, w: Width): (r: Machine)
    ensures Valid(m) ==> Valid(r)
  {
    m.(mem := WriteBytes(m.mem, a, Encode(v, w, m.bigEndian)))
  }

  function RunPoke(m: Machine, w: Width): (o: Outcome)
    requires Valid(m)
    ensures Valid(o.m)
  {
    var dst, m1 := Top(m), Pop(m);
    var src, m2 := Top(m1), Pop(m1);
    var v, a := Value(m2, src), Value(m2, dst);
    if v.None? || a.None? then Outcome(false, m2)
    else
      var m3 := if src.value.Internal? then m2 else Track(m2, ReadBuffer(m2, a.value, w), v.value, 8 * w);
      Outcome(true, StoreWord(m3, a.value, v.value, w))
  }

  /** Read, modify, write: the memory forms of the assignment words. */
  function RunMemUpdate(m: Machine, b: MemOp, w: Width): (o: Outcome)
    requires Valid(m)
    ensures Valid(o.m)
  {
    var dst, m1 := Top(m), Pop(m);
    var src, m2 := Top(m1), Pop(m1);
    var s := Value(m2, src);
    if s.None? then Outcome(false, m2)
    else if b == OpDiv && s.value == 0 then Outcome(false, m2.(trap := DivByZero))
    else ReplaceWord(m2, b, s.value, dst.value, w)
  }

  /** Peeks at dst, combines what was there with s, and pokes the result back. */
  function ReplaceWord(m: Machine, b: MemOp, s: Word, dst: Entry, w: Width): (o: Outcome)
    requires Valid(m) && (b == OpDiv ==> s != 0)
    ensures Valid(o.m)
  {
    var peeked := RunPeek(Push(m, dst).m, w);
    var m1 := Pop(peeked.m);
    var d := Value(m1, Top(peeked.m));
    if d.None? then Outcome(false, m1)
    else
      var poked := PokeBack(m1, Apply(b, d.value, s), dst, w);
      Outcome(peeked.ok && poked.ok, poked.m)
  }

  function PokeBack(m: Machine, v: Word, dst: Entry, w: Width): (o: Outcome)
    requires Valid(m)
    ensures Valid(o.m)
  {
    RunPoke(Push(PushNum(m, v), dst).m, w)
  }

  // ----- stack words -----

  function RunDup(m: Machine): (o: Outcome)
    ensures Valid(m) ==> Valid(o.m)
  {
    if m.stack == [] then Outcome(false, m) else Push(m, m.stack[|m.stack| - 1])
  }

  function RunSwap(m: Machine): (o: Outcome)
    ensures Valid(m) ==> Valid(o.m)
  {
    var n := |m.stack|;
    if n < 2 then Outcome(false, m)
    else Outcome(true, m.(stack := m.stack[..n - 2] + [m.stack[n - 1], m.stack[n - 2]]))
  }

  function RunNum(m: Machine): (o: Outcome)
    requires Valid(m)
    ensures Valid(o.m)
  {
    var v := Value(Pop(m), Top(m));
    if v.None? then Outcome(false, Pop(m)) else Push(Pop(m), Num(v.value))
  }

  /** What a word does. The words that steer the program are in EsilControl. */
  function Run(m: Machine, op: Op): (o: Outcome)
    requires Valid(m)
    ensures Valid(o.m)
  {
    match op
    case Binary(b) => RunBinary(m, b)
    case Update(b) => RunUpdate(m, b)
    case Inc => RunStep(m, OpAdd)
    case Dec => RunStep(m, OpSub)
    case IncEq => RunStepEq(m, OpAdd)
    case DecEq => RunStepEq(m, OpSub)
    case Not => RunNot(m)
    case NotEq => RunNotEq(m)
    case Assign => RunAssign(m)
    case Compare => RunCompare(m)
    case Peek(w) => RunPeek(m, w)
    case Poke(w) => RunPoke(m, w)
    case MemUpdate(b, w) => RunMemUpdate(m, b, w)
    case Clear => Outcome(true, m.(stack := []))
    case Drop => Outcome(true, Pop(m))
    case Dup => RunDup(m)
    case Swap => RunSwap(m)
    case NumOf => RunNum(m)
  }
}
