/** The translation of ESIL words to REIL.

    The words run on the stack that ESIL itself uses, but push the names of temporaries
    where ESIL pushes values, and emit instructions. What a word does depends on what the
    stack holds at translation time only: registers, numbers and temporaries are told
    apart, their values are not known. */
module EsilToReil {
  import opened Words
  import opened Wrappers
  import opened EsilMachine
  import opened Reil

  /** A stack entry is an ESIL word, or an argument marshalled together with its size. */
  datatype Slot = Raw(e: Entry) | Sized(a: Arg)

  /** `prior` and `cur` name the last destination before and after its assignment. */
  datatype Trans = Trans(
    sizes: map<string, nat>, pc: string,
    stack: seq<Slot>, limit: nat,
    next: nat, code: seq<Inst>,
    prior: Slot, cur: Slot, lastsz: nat)

  /** The temporaries named on the stack and for the flags have been written, and the
      code numbers its temporaries in order. */
  predicate Wf(t: Trans)
  {
    && Numbered(t.code) == Some(t.next)
    && |t.stack| <= t.limit
    && AllBelow(t.stack, t.next) && SlotBelow(t.prior, t.next) && SlotBelow(t.cur, t.next)
  }

  predicate SlotBelow(x: Slot, n: nat)
  {
    x.Sized? ==> Below(x.a, n)
  }

  predicate AllBelow(xs: seq<Slot>, n: nat)
  {
    forall i :: 0 <= i < |xs| ==> SlotBelow(xs[i], n)
  }

  /** What a word leaves: whether it succeeded, and the translator. */
  datatype Result = Result(ok: bool, t: Trans)

  // ----- stack -----

  function PushSlot(t: Trans, x: Slot): (r: Trans)
    ensures r.pc == t.pc
    ensures Wf(t) && SlotBelow(x, t.next) ==> Wf(r)
    ensures r.next == t.next
  {
    if |t.stack| < t.limit then t.(stack := t.stack + [x]) else t
  }

  function PushArg(t: Trans, a: Arg): (r: Trans)
    ensures r.pc == t.pc
    ensures Wf(t) && Below(a, t.next) ==> Wf(r)
    ensures r.next == t.next
  {
    PushSlot(t, Sized(a))
  }

  function PushConst(t: Trans, n: Word): (r: Trans)
    ensures r.pc == t.pc
    ensures Wf(t) ==> Wf(r)
    ensures r.next == t.next
  {
    PushSlot(t, Raw(Num(n)))
  }

  /** An entry that carries no size gets that of its register, or 64. */
  function Resolve(sizes: map<string, nat>, x: Slot): Arg
  {
    match x
    case Sized(a) => a
    case Raw(Num(n)) => ConstArg(n, 64)
    case Raw(Reg(r)) => if r in sizes then RegArg(r, sizes[r]) else NoArg(0)
    case Raw(Internal(f)) => FlagArg(f, 0)
    case Raw(Bad(_)) => NoArg(0)
  }

  datatype Popped = Popped(a: Option<Arg>, t: Trans)

  function PopArg(t: Trans): (p: Popped)
    ensures p.t.pc == t.pc
    ensures Wf(t) ==> Wf(p.t)
    ensures Wf(t) && p.a.Some? ==> Below(p.a.value, t.next)
    ensures p.t.next == t.next
  {
    if t.stack == [] then Popped(None, t)
    else
      assert Wf(t) ==> SlotBelow(t.stack[|t.stack| - 1], t.next);
      Popped(Some(Resolve(t.sizes, t.stack[|t.stack| - 1])), t.(stack := t.stack[..|t.stack| - 1]))
  }

  // ----- emitting -----

  /** The instruction reads temporaries below n only, and writes none. */
  predicate InOrder(i: Inst, n: nat)
  {
    && Below(i.a0, n) && Below(i.a1, n)
    && (if i.op == Jump then Below(i.a2, n) else !i.a2.TempArg?)
  }

  function Emit(t: Trans, i: Inst): (r: Trans)
    ensures r.pc == t.pc
    ensures Wf(t) && InOrder(i, t.next) ==> Wf(r)
    ensures r.next == t.next
  {
    assert Wf(t) && InOrder(i, t.next) ==> Numbered(t.code + [i]) == Some(t.next) by {
      if Wf(t) && InOrder(i, t.next) {
        NumberedAppend(t.code, i, t.next);
      }
    }
    t.(code := t.code + [i])
  }

  /** Emits an instruction whose destination is the next temporary. */
  function EmitTemp(t: Trans, op: Opcode, a0: Arg, a1: Arg, size: nat): (r: Trans)
    requires op != Jump
    ensures r.pc == t.pc
    ensures Wf(t) && Below(a0, t.next) && Below(a1, t.next) ==> Wf(r)
    ensures r.next == t.next + 1
  {
    var i := Inst(op, a0, a1, TempArg(t.next, size));
    assert Wf(t) && Below(a0, t.next) && Below(a1, t.next) ==> Wf(t.(code := t.code + [i], next := t.next + 1)) by {
      if Wf(t) && Below(a0, t.next) && Below(a1, t.next) {
        NumberedAppend(t.code, i, t.next);
        BelowGrows(t.stack, t.next);
      }
    }
    t.(code := t.code + [i], next := t.next + 1)
  }

  lemma BelowGrows(xs: seq<Slot>, n: nat)
    requires AllBelow(xs, n)
    ensures AllBelow(xs, n + 1)
  {
    forall i | 0 <= i < |xs|
      ensures SlotBelow(xs[i], n + 1)
    {
      assert SlotBelow(xs[i], n);
    }
  }

  // ----- words -----

  function Wider(a: Arg, b: Arg): nat
  {
    if a.size < b.size then b.size else a.size
  }

  /** The words that combine two operands into a temporary as wide as the wider one. */
  function BinaryOp(t: Trans, op: Opcode): (r: Result)
    requires op != Jump
    ensures r.t.pc == t.pc
    ensures Wf(t) ==> Wf(r.t)
    ensures r.t.next >= t.next
  {
    var p2 := PopArg(t);
    if p2.a.None? then Result(false, p2.t)
    else
      var p1 := PopArg(p2.t);
      if p1.a.None? then Result(false, p1.t)
      else
        var size := if op == Less then 1 else Wider(p2.a.value, p1.a.value);
        Result(true, PushArg(EmitTemp(p1.t, op, p2.a.value, p1.a.value, size), TempArg(p1.t.next, size)))
  }

  /** Brings a source to the size of its destination. */
  function CastSize(t: Trans, src: Arg, dst: Arg): (r: Trans)
    ensures r.pc == t.pc
    ensures Wf(t) && Below(src, t.next) ==> Wf(r)
  {
    if src.size == dst.size then PushArg(t, src)
    else PushArg(EmitTemp(t, Arith(OpOr), src, ConstArg(0, dst.size), dst.size), TempArg(t.next, dst.size))
  }

  function StepOp(t: Trans, b: BinOp): (r: Result)
    ensures r.t.pc == t.pc
    ensures Wf(t) ==> Wf(r.t)
    ensures t.stack != [] && |t.stack| <= t.limit ==> |r.t.stack| < r.t.limit
    ensures r.t.next >= t.next
  {
    var p := PopArg(t);
    if p.a.None? then Result(false, p.t)
    else Result(true, BinaryOp(PushArg(PushConst(p.t, 1), p.a.value), Arith(b)).t)
  }

  function NotOp(t: Trans): (r: Result)
    ensures r.t.pc == t.pc
    ensures Wf(t) ==> Wf(r.t)
    ensures t.stack != [] ==> |r.t.stack| <= |t.stack|
    ensures r.t.limit == t.limit && r.t.next >= t.next
  {
    var p := PopArg(t);
    if p.a.None? then Result(false, p.t)
    else
      var q := PopArg(PushConst(p.t, 0));
      if q.a.None? then Result(false, q.t)
      else
        var zero := if p.a.value.size < q.a.value.size then Resize(q.a.value, p.a.value.size) else q.a.value;
        Result(true, PushArg(EmitTemp(q.t, Equal, p.a.value, zero, 1), TempArg(q.t.next, 1)))
  }

  function Resize(a: Arg, size: nat): (r: Arg)
    ensures forall n :: Below(a, n) ==> Below(r, n)
  {
    a.(size := size)
  }

  /** Sets what the flags will be computed from. */
  function SetFlags(t: Trans, prior: Slot, cur: Slot, lastsz: nat): (r: Trans)
    ensures r.pc == t.pc && r.next == t.next
    ensures Wf(t) && SlotBelow(prior, t.next) && SlotBelow(cur, t.next) ==> Wf(r)
  {
    t.(prior := prior, cur := cur, lastsz := lastsz)
  }

  function CompareOp(t: Trans): (r: Result)
    ensures r.t.pc == t.pc
    ensures Wf(t) ==> Wf(r.t)
  {
    var p2 := PopArg(t);
    if p2.a.None? then Result(false, p2.t)
    else
      var p1 := PopArg(p2.t);
      if p1.a.None? then Result(false, p1.t)
      else
        var dst, src, temp := p2.a.value, p1.a.value, TempArg(p1.t.next, 1);
        var lastsz := if dst.RegArg? then dst.size else if src.RegArg? then src.size else t.lastsz;
        Result(true, PushArg(SetFlags(EmitTemp(p1.t, Equal, dst, src, 1), Sized(dst), Sized(temp), lastsz), temp))
  }

  /** a > b as b < a. */
  function GreaterOp(t: Trans): (r: Result)
    ensures r.t.pc == t.pc
    ensures Wf(t) ==> Wf(r.t)
  {
    var p2 := PopArg(t);
    if p2.a.None? then Result(false, p2.t)
    else
      var p1 := PopArg(p2.t);
      if p1.a.None? then Result(false, p1.t)
      else Result(true, BinaryOp(PushArg(PushArg(p1.t, p2.a.value), p1.a.value), Less).t)
  }

  // ----- internal flags -----

  /** (2 << bits) - 1. */
  function MaskCode(t: Trans): (r: Trans)
    ensures r.pc == t.pc
    ensures Wf(t) ==> Wf(r)
  {
    StepOp(BinaryOp(PushConst(t, 2), Arith(OpShl)).t, OpSub).t
  }

  /** Both values of the last destination under the mask on top of the stack. */
  function MaskedPair(t: Trans): (r: Trans)
    ensures r.pc == t.pc
    ensures Wf(t) ==> Wf(r)
  {
    var p := PopArg(MaskCode(t));
    if p.a.None? then p.t
    else
      var t1 := BinaryOp(PushArg(PushSlot(p.t, p.t.prior), p.a.value), Arith(OpAnd)).t;
      BinaryOp(PushArg(PushSlot(t1, t1.cur), p.a.value), Arith(OpAnd)).t
  }

  function MaskBit(t: Trans): (r: Trans)
    ensures r.pc == t.pc
    ensures Wf(t) ==> Wf(r)
  {
    BinaryOp(PushConst(t, 0x3f), Arith(OpAnd)).t
  }

  function CarryCode(t: Trans, bit: Word): (r: Trans)
    ensures r.pc == t.pc
    ensures Wf(t) ==> Wf(r)
  {
    BinaryOp(MaskedPair(MaskBit(PushConst(t, bit))), Less).t
  }

  function BorrowCode(t: Trans, bit: Word): (r: Trans)
    ensures r.pc == t.pc
    ensures Wf(t) ==> Wf(r)
  {
    var t1 := MaskBit(PushConst(t, bit));
    GreaterOp(MaskedPair(MaskBit(BinaryOp(PushConst(t1, 0x3f), Arith(OpAdd)).t))).t
  }

  /** The last destination under (1 << (size - 1)). */
  function SignMasked(t: Trans): (r: Trans)
    ensures r.pc == t.pc
    ensures Wf(t) ==> Wf(r)
  {
    var t1 := BinaryOp(PushConst(PushConst(t, ByteWord(t.lastsz as int - 1)), 1), Arith(OpShl)).t;
    BinaryOp(PushSlot(t1, t1.cur), Arith(OpAnd)).t
  }

  /** The top bit of the last destination. */
  function SignCode(t: Trans): (r: Trans)
    ensures r.pc == t.pc
    ensures Wf(t) ==> Wf(r)
  {
    if t.lastsz == 0 then PushConst(t, 0)
    else
      var p := PopArg(SignMasked(t));
      if p.a.None? then p.t
      else BinaryOp(PushArg(PushConst(p.t, ByteWord(t.lastsz as int - 1)), p.a.value), Arith(OpShr)).t
  }

  /** Sizes and bit numbers are kept in bytes. */
  function ByteWord(n: int): Word
  {
    n % 0x100
  }

  function OverflowCode(t: Trans): (r: Trans)
    ensures r.pc == t.pc
    ensures Wf(t) ==> Wf(r)
  {
    var t1 := if t.lastsz < 2 then PushConst(t, 0) else t;
    var size := t.lastsz as int;
    BinaryOp(CarryCode(BorrowCode(t1, ByteWord(size)), ByteWord(size - 2)), Arith(OpXor)).t
  }

  /** The code that recomputes an internal flag and leaves it on the stack. */
  function FlagCode(t: Trans, f: Flag): (r: Trans)
    ensures r.pc == t.pc
    ensures Wf(t) ==> Wf(r)
  {
    match f
    case Borrow(bit) => BorrowCode(t, ByteWord(bit))
    case Carry(bit) => CarryCode(t, ByteWord(bit))
    case OverflowFlag => OverflowCode(t)
    case SignFlag => SignCode(t)
    case RegSize => PushConst(t, 8)
  }

  // ----- assignment -----

  /** The source of an assignment: a flag is computed first, and a register is copied
      to a temporary. */
  function Source(t: Trans, src: Arg): (p: Popped)
    ensures p.t.pc == t.pc
    ensures Wf(t) && Below(src, t.next) ==> Wf(p.t) && (p.a.Some? ==> Below(p.a.value, p.t.next))
  {
    match src
    case FlagArg(f, _) => PopArg(FlagCode(t, f))
    case RegArg(_, size) => PopArg(PushArg(EmitTemp(t, Store, src, NoArg(0), size), TempArg(t.next, size)))
    case _ => Popped(Some(src), t)
  }

  /** Keeps the old value of the destination for the flags. */
  function SaveDst(t: Trans, dst: Arg): (r: Trans)
    ensures r.pc == t.pc
    ensures Wf(t) && Below(dst, t.next) ==> Wf(r)
    ensures r.next >= t.next
  {
    SetFlags(EmitTemp(t, Store, dst, NoArg(0), dst.size), Sized(TempArg(t.next, dst.size)), Sized(dst), dst.size)
  }

  /** Assigning to the program counter is a jump. */
  function JumpTo(t: Trans, src: Arg): (r: Result)
    ensures r.t.pc == t.pc
    ensures Wf(t) && Below(src, t.next) ==> Wf(r.t)
  {
    var p := PopArg(PushArg(t, ConstArg(1, 1)));
    if p.a.None? then Result(false, p.t) else Result(true, Emit(p.t, Inst(Jump, p.a.value, NoArg(0), src)))
  }

  function StoreTo(t: Trans, src: Arg, dst: Arg): (r: Result)
    ensures r.t.pc == t.pc
    ensures Wf(t) && Below(src, t.next) && !dst.TempArg? ==> Wf(r.t)
  {
    var p := PopArg(CastSize(t, src, dst));
    if p.a.None? then Result(false, p.t) else Result(true, Emit(p.t, Inst(Store, p.a.value, NoArg(0), dst)))
  }

  function Move(t: Trans, src: Arg, dst: Arg): (r: Result)
    ensures r.t.pc == t.pc
    ensures Wf(t) && Below(src, t.next) && !dst.TempArg? ==> Wf(r.t)
  {
    if dst.RegArg? && dst.name == t.pc then JumpTo(t, src) else StoreTo(t, src, dst)
  }

  function AssignOp(t: Trans): (r: Result)
    ensures r.t.pc == t.pc
    ensures Wf(t) && NamesDst(t) ==> Wf(r.t)
  {
    var p2 := PopArg(t);
    if p2.a.None? then Result(false, p2.t)
    else
      var dst, p1 := p2.a.value, PopArg(p2.t);
      if p1.a.None? then Result(false, p1.t)
      else
        var s := Source(p1.t, p1.a.value);
        if s.a.None? then Result(false, s.t)
        else Move(if !p1.a.value.FlagArg? && dst.RegArg? then SaveDst(s.t, dst) else s.t, s.a.value, dst)
  }

  /** The top of the stack is no temporary. */
  predicate NamesDst(t: Trans)
  {
    var p := PopArg(t);
    p.a.Some? ==> !p.a.value.TempArg?
  }

  /** Assigns the top of the stack to a destination that was popped before. */
  function AssignTo(t: Trans, dst: Arg): (r: Result)
    ensures r.t.pc == t.pc
    ensures Wf(t) && |t.stack| < t.limit && !dst.TempArg? ==> Wf(r.t)
  {
    AssignOp(PushArg(t, dst))
  }

  function UpdateOp(t: Trans, b: BinOp): (r: Result)
    ensures r.t.pc == t.pc
    ensures Wf(t) && NamesDst(t) ==> Wf(r.t)
  {
    var p := PopArg(t);
    if p.a.None? then Result(false, p.t)
    else
      var t1 := BinaryOp(PushArg(p.t, p.a.value), Arith(b));
      var t2 := AssignTo(t1.t, p.a.value);
      Result(t1.ok && t2.ok, t2.t)
  }

  function StepAssignOp(t: Trans, b: BinOp): (r: Result)
    ensures r.t.pc == t.pc
    ensures Wf(t) && NamesDst(t) ==> Wf(r.t)
  {
    var p := PopArg(t);
    if p.a.None? then Result(false, p.t)
    else
      var t1 := StepOp(PushArg(p.t, p.a.value), b).t;
      Result(true, AssignTo(t1, p.a.value).t)
  }

  function NotAssignOp(t: Trans): (r: Result)
    ensures r.t.pc == t.pc
    ensures Wf(t) && NamesDst(t) && |t.stack| < t.limit ==> Wf(r.t)
  {
    var p := PopArg(t);
    if p.a.None? then Result(false, p.t)
    else
      var t1 := NotOp(PushArg(p.t, p.a.value)).t;
      Result(true, AssignTo(t1, p.a.value).t)
  }

  // ----- programs -----

  /** Words that have a translation, or that only move stack entries around and are
      shared with ESIL. */
  predicate Translated(op: Op)
  {
    match op
    case Binary(b) => b != OpMod
    case Update(b) => b != OpMod
    case Peek(_) => false
    case Poke(_) => false
    case MemUpdate(_, _) => false
    case NumOf => false
    case _ => true
  }

  function DupOp(t: Trans): (r: Result)
    ensures r.t.pc == t.pc
    ensures Wf(t) ==> Wf(r.t)
  {
    if t.stack == [] || |t.stack| >= t.limit then Result(false, t)
    else
      assert Wf(t) ==> SlotBelow(t.stack[|t.stack| - 1], t.next);
      Result(true, PushSlot(t, t.stack[|t.stack| - 1]))
  }

  function SwapOp(t: Trans): (r: Result)
    ensures r.t.pc == t.pc
    ensures Wf(t) ==> Wf(r.t)
  {
    var n := |t.stack|;
    if n < 2 then Result(false, t)
    else
      assert Wf(t) ==> SlotBelow(t.stack[n - 1], t.next) && SlotBelow(t.stack[n - 2], t.next);
      Result(true, t.(stack := t.stack[..n - 2] + [t.stack[n - 1], t.stack[n - 2]]))
  }

  /** The words that assign find a destination that is no temporary. */
  predicate Assignable(t: Trans, op: Op)
  {
    && (op.Assign? || op.Update? || op.IncEq? || op.DecEq? || op.NotEq? ==> NamesDst(t))
    && (op.NotEq? ==> |t.stack| < t.limit)
  }

  /** Whatever is on the stack, the emitted code keeps numbering its temporaries in
      order, as long as assignments do not name temporaries. */
  function Translate(t: Trans, op: Op): (r: Result)
    requires Translated(op)
    ensures r.t.pc == t.pc
    ensures Wf(t) && Assignable(t, op) ==> Wf(r.t)
  {
    match op
    case Binary(b) => BinaryOp(t, Arith(b))
    case Update(b) => UpdateOp(t, b)
    case Inc => StepOp(t, OpAdd)
    case Dec => StepOp(t, OpSub)
    case IncEq => StepAssignOp(t, OpAdd)
    case DecEq => StepAssignOp(t, OpSub)
    case Not => NotOp(t)
    case NotEq => NotAssignOp(t)
    case Assign => AssignOp(t)
    case Compare => CompareOp(t)
    case Clear => Result(true, t.(stack := []))
    case Drop => Result(true, PopArg(t).t)
    case Dup => DupOp(t)
    case Swap => SwapOp(t)
  }
}
