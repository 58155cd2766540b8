/** The translator as a program: words pop and push a stack buffer that is shared with
    ESIL, count temporaries, and append instructions. */
module ReilTranslator {
  import opened Words
  import opened Wrappers
  import opened EsilMachine
  import opened Reil
  import opened EsilToReil
  import EsilControl
  import ReilProgram

  class Translator {
    const sizes: map<string, nat>
    const pc: string
    const stack: array<Slot>
    var stackptr: nat
    var nextTemp: nat
    var code: seq<Inst>
    var prior: Slot
    var cur: Slot
    var lastsz: nat

    function Now(): Trans
      requires stackptr <= stack.Length
      reads this, stack
    {
      Trans(sizes, pc, stack[..stackptr], stack.Length, nextTemp, code, prior, cur, lastsz)
    }

    constructor (sizes: map<string, nat>, pc: string, stackSize: nat)
      ensures fresh(stack) && stackptr == 0
      ensures Now() == Trans(sizes, pc, [], stackSize, 0, [], Raw(Bad("")), Raw(Bad("")), 0)
    {
      this.sizes, this.pc := sizes, pc;
      stack := new Slot[stackSize](_ => Raw(Num(0)));
      stackptr, nextTemp, code := 0, 0, [];
      prior, cur, lastsz := Raw(Bad("")), Raw(Bad("")), 0;
    }

    // ----- stack -----

    method PushSlot(x: Slot)
      requires stackptr <= stack.Length
      modifies `stackptr, stack
      ensures stackptr <= stack.Length && Now() == EsilToReil.PushSlot(old(Now()), x)
    {
      if stackptr < stack.Length {
        stack[stackptr] := x;
        stackptr := stackptr + 1;
      }
    }

    method PushArg(a: Arg)
      requires stackptr <= stack.Length
      modifies `stackptr, stack
      ensures stackptr <= stack.Length && Now() == EsilToReil.PushArg(old(Now()), a)
    {
      PushSlot(Sized(a));
    }

    method PushConst(n: Word)
      requires stackptr <= stack.Length
      modifies `stackptr, stack
      ensures stackptr <= stack.Length && Now() == EsilToReil.PushConst(old(Now()), n)
    {
      PushSlot(Raw(Num(n)));
    }

    method PopArg() returns (a: Option<Arg>)
      requires stackptr <= stack.Length
      modifies `stackptr
      ensures stackptr <= stack.Length && Popped(a, Now()) == EsilToReil.PopArg(old(Now()))
    {
      if stackptr == 0 {
        return None;
      }
      stackptr := stackptr - 1;
      return Some(Resolve(sizes, stack[stackptr]));
    }

    // ----- emitting -----

    method PrintInst(i: Inst)
      requires stackptr <= stack.Length
      modifies `code
      ensures Now() == Emit(old(Now()), i)
    {
      code := code + [i];
    }

    /** Emits into the next temporary, and hands it out. */
    method PrintTemp(op: Opcode, a0: Arg, a1: Arg, size: nat) returns (temp: Arg)
      requires stackptr <= stack.Length && op != Jump
      modifies `code, `nextTemp
      ensures Now() == EmitTemp(old(Now()), op, a0, a1, size) && temp == TempArg(old(nextTemp), size)
    {
      temp := TempArg(nextTemp, size);
      nextTemp := nextTemp + 1;
      code := code + [Inst(op, a0, a1, temp)];
    }

    method SetFlags(before: Slot, after: Slot, size: nat)
      requires stackptr <= stack.Length
      modifies `prior, `cur, `lastsz
      ensures Now() == EsilToReil.SetFlags(old(Now()), before, after, size)
    {
      prior, cur, lastsz := before, after, size;
    }

    // ----- words -----

    method BinaryWord(op: Opcode) returns (ok: bool)
      requires stackptr <= stack.Length && op != Jump
      modifies `stackptr, `code, `nextTemp, stack
      ensures stackptr <= stack.Length && Result(ok, Now()) == BinaryOp(old(Now()), op)
    {
      var op2 := PopArg();
      if op2.None? {
        return false;
      }
      var op1 := PopArg();
      if op1.None? {
        return false;
      }
      var size := op2.value.size;
      if size < op1.value.size {
        size := op1.value.size;
      }
      if op == Less {
        size := 1;
      }
      var temp := PrintTemp(op, op2.value, op1.value, size);
      PushArg(temp);
      return true;
    }

    method StepWord(b: BinOp) returns (ok: bool)
      requires stackptr <= stack.Length
      modifies `stackptr, `code, `nextTemp, stack
      ensures stackptr <= stack.Length && Result(ok, Now()) == StepOp(old(Now()), b)
    {
      hide BinaryOp;
      var op := PopArg();
      if op.None? {
        return false;
      }
      PushConst(1);
      PushArg(op.value);
      var _ := BinaryWord(Arith(b));
      return true;
    }

    method NotWord() returns (ok: bool)
      requires stackptr <= stack.Length
      modifies `stackptr, `code, `nextTemp, stack
      ensures stackptr <= stack.Length && Result(ok, Now()) == NotOp(old(Now()))
    {
      var op := PopArg();
      if op.None? {
        return false;
      }
      PushConst(0);
      var zero := PopArg();
      if zero.None? {
        return false;
      }
      var z := zero.value;
      if op.value.size < z.size {
        z := Resize(z, op.value.size);
      }
      var temp := PrintTemp(Equal, op.value, z, 1);
      PushArg(temp);
      return true;
    }

    method CompareWord() returns (ok: bool)
      requires stackptr <= stack.Length
      modifies `stackptr, `code, `nextTemp, `prior, `cur, `lastsz, stack
      ensures stackptr <= stack.Length && Result(ok, Now()) == CompareOp(old(Now()))
    {
      var op2 := PopArg();
      if op2.None? {
        return false;
      }
      var op1 := PopArg();
      if op1.None? {
        return false;
      }
      var temp := PrintTemp(Equal, op2.value, op1.value, 1);
      var size := lastsz;
      if op2.value.RegArg? {
        size := op2.value.size;
      } else if op1.value.RegArg? {
        size := op1.value.size;
      }
      SetFlags(Sized(op2.value), Sized(temp), size);
      PushArg(temp);
      return true;
    }

    method GreaterWord() returns (ok: bool)
      requires stackptr <= stack.Length
      modifies `stackptr, `code, `nextTemp, stack
      ensures stackptr <= stack.Length && Result(ok, Now()) == GreaterOp(old(Now()))
    {
      hide BinaryOp;
      var op2 := PopArg();
      if op2.None? {
        return false;
      }
      var op1 := PopArg();
      if op1.None? {
        return false;
      }
      PushArg(op2.value);
      PushArg(op1.value);
      var _ := BinaryWord(Less);
      return true;
    }

    // ----- internal flags -----

    method GenerateMask()
      requires stackptr <= stack.Length
      modifies `stackptr, `code, `nextTemp, stack
      ensures stackptr <= stack.Length && Now() == MaskCode(old(Now()))
    {
      hide BinaryOp, StepOp;
      PushConst(2);
      var _ := BinaryWord(Arith(OpShl));
      var _ := StepWord(OpSub);
    }

    method MaskLowBits()
      requires stackptr <= stack.Length
      modifies `stackptr, `code, `nextTemp, stack
      ensures stackptr <= stack.Length && Now() == MaskBit(old(Now()))
    {
      hide BinaryOp;
      PushConst(0x3f);
      var _ := BinaryWord(Arith(OpAnd));
    }

    method MaskOne(x: Slot, mask: Arg)
      requires stackptr <= stack.Length
      modifies `stackptr, `code, `nextTemp, stack
      ensures stackptr <= stack.Length
      ensures Now() == BinaryOp(EsilToReil.PushArg(EsilToReil.PushSlot(old(Now()), x), mask), Arith(OpAnd)).t
    {
      hide BinaryOp;
      PushSlot(x);
      PushArg(mask);
      var _ := BinaryWord(Arith(OpAnd));
    }

    /** The common part of the carry and borrow flags; a missing mask ends it early. */
    method GeneratePair()
      requires stackptr <= stack.Length
      modifies `stackptr, `code, `nextTemp, stack
      ensures stackptr <= stack.Length && Now() == MaskedPair(old(Now()))
    {
      hide BinaryOp, MaskCode;
      GenerateMask();
      var op1 := PopArg();
      if op1.None? {
        return;
      }
      MaskOne(prior, op1.value);
      MaskOne(cur, op1.value);
    }

    method GenerateCarry(bit: Word)
      requires stackptr <= stack.Length
      modifies `stackptr, `code, `nextTemp, stack
      ensures stackptr <= stack.Length && Now() == CarryCode(old(Now()), bit)
    {
      hide BinaryOp, MaskBit, MaskedPair;
      PushConst(bit);
      MaskLowBits();
      GeneratePair();
      var _ := BinaryWord(Less);
    }

    method GenerateBorrow(bit: Word)
      requires stackptr <= stack.Length
      modifies `stackptr, `code, `nextTemp, stack
      ensures stackptr <= stack.Length && Now() == BorrowCode(old(Now()), bit)
    {
      hide BinaryOp, MaskBit, MaskedPair, GreaterOp;
      PushConst(bit);
      MaskLowBits();
      PushConst(0x3f);
      var _ := BinaryWord(Arith(OpAdd));
      MaskLowBits();
      GeneratePair();
      var _ := GreaterWord();
    }

    method MaskSign()
      requires stackptr <= stack.Length
      modifies `stackptr, `code, `nextTemp, stack
      ensures stackptr <= stack.Length && Now() == SignMasked(old(Now()))
    {
      hide BinaryOp;
      PushConst(ByteWord(lastsz as int - 1));
      PushConst(1);
      var _ := BinaryWord(Arith(OpShl));
      PushSlot(cur);
      var _ := BinaryWord(Arith(OpAnd));
    }

    method GenerateSign()
      requires stackptr <= stack.Length
      modifies `stackptr, `code, `nextTemp, stack
      ensures stackptr <= stack.Length && Now() == SignCode(old(Now()))
    {
      hide BinaryOp, SignMasked;
      if lastsz == 0 {
        PushConst(0);
        return;
      }
      MaskSign();
      var op := PopArg();
      if op.None? {
        return;
      }
      PushConst(ByteWord(lastsz as int - 1));
      PushArg(op.value);
      var _ := BinaryWord(Arith(OpShr));
    }

    method GenerateOverflow()
      requires stackptr <= stack.Length
      modifies `stackptr, `code, `nextTemp, stack
      ensures stackptr <= stack.Length && Now() == OverflowCode(old(Now()))
    {
      hide BinaryOp, CarryCode, BorrowCode;
      if lastsz < 2 {
        PushConst(0);
      }
      GenerateBorrow(ByteWord(lastsz));
      GenerateCarry(ByteWord(lastsz as int - 2));
      var _ := BinaryWord(Arith(OpXor));
    }

    method SpewFlag(f: Flag)
      requires stackptr <= stack.Length
      modifies `stackptr, `code, `nextTemp, stack
      ensures stackptr <= stack.Length && Now() == FlagCode(old(Now()), f)
    {
      hide CarryCode, BorrowCode, SignCode, OverflowCode;
      match f
      case Borrow(bit) => GenerateBorrow(ByteWord(bit));
      case Carry(bit) => GenerateCarry(ByteWord(bit));
      case OverflowFlag => GenerateOverflow();
      case SignFlag => GenerateSign();
      case RegSize => PushConst(8);
    }

    // ----- assignment -----

    method CastSource(src: Arg, dst: Arg)
      requires stackptr <= stack.Length
      modifies `stackptr, `code, `nextTemp, stack
      ensures stackptr <= stack.Length && Now() == CastSize(old(Now()), src, dst)
    {
      if src.size == dst.size {
        PushArg(src);
        return;
      }
      var temp := PrintTemp(Arith(OpOr), src, ConstArg(0, dst.size), dst.size);
      PushArg(temp);
    }

    method ResolveSource(src: Arg) returns (a: Option<Arg>)
      requires stackptr <= stack.Length
      modifies `stackptr, `code, `nextTemp, stack
      ensures stackptr <= stack.Length && Popped(a, Now()) == Source(old(Now()), src)
    {
      hide FlagCode;
      if src.FlagArg? {
        SpewFlag(src.flag);
        a := PopArg();
      } else if src.RegArg? {
        var temp := PrintTemp(Store, src, NoArg(0), src.size);
        PushArg(temp);
        a := PopArg();
      } else {
        a := Some(src);
      }
    }

    method SaveDestination(dst: Arg)
      requires stackptr <= stack.Length
      modifies `code, `nextTemp, `prior, `cur, `lastsz
      ensures Now() == SaveDst(old(Now()), dst)
    {
      var temp := PrintTemp(Store, dst, NoArg(0), dst.size);
      SetFlags(Sized(temp), Sized(dst), dst.size);
    }

    method MoveTo(src: Arg, dst: Arg) returns (ok: bool)
      requires stackptr <= stack.Length
      modifies `stackptr, `code, `nextTemp, stack
      ensures stackptr <= stack.Length && Result(ok, Now()) == Move(old(Now()), src, dst)
    {
      hide CastSize;
      var a0: Option<Arg>;
      if dst.RegArg? && dst.name == pc {
        PushArg(ConstArg(1, 1));
        a0 := PopArg();
        if a0.None? {
          return false;
        }
        PrintInst(Inst(Jump, a0.value, NoArg(0), src));
        return true;
      }
      CastSource(src, dst);
      a0 := PopArg();
      if a0.None? {
        return false;
      }
      PrintInst(Inst(Store, a0.value, NoArg(0), dst));
      return true;
    }

    method AssignWord() returns (ok: bool)
      requires stackptr <= stack.Length
      modifies `stackptr, `code, `nextTemp, `prior, `cur, `lastsz, stack
      ensures stackptr <= stack.Length && Result(ok, Now()) == AssignOp(old(Now()))
    {
      hide Source, SaveDst, Move;
      var dst := PopArg();
      if dst.None? {
        return false;
      }
      var src := PopArg();
      if src.None? {
        return false;
      }
      var value := ResolveSource(src.value);
      if value.None? {
        return false;
      }
      if !src.value.FlagArg? && dst.value.RegArg? {
        SaveDestination(dst.value);
      }
      ok := MoveTo(value.value, dst.value);
    }

    method AssignToWord(dst: Arg) returns (ok: bool)
      requires stackptr <= stack.Length
      modifies `stackptr, `code, `nextTemp, `prior, `cur, `lastsz, stack
      ensures stackptr <= stack.Length && Result(ok, Now()) == AssignTo(old(Now()), dst)
    {
      hide AssignOp;
      PushArg(dst);
      ok := AssignWord();
    }

    method UpdateWord(b: BinOp) returns (ok: bool)
      requires stackptr <= stack.Length
      modifies `stackptr, `code, `nextTemp, `prior, `cur, `lastsz, stack
      ensures stackptr <= stack.Length && Result(ok, Now()) == UpdateOp(old(Now()), b)
    {
      hide BinaryOp, AssignTo;
      var op := PopArg();
      if op.None? {
        return false;
      }
      PushArg(op.value);
      ok := BinaryWord(Arith(b));
      var stored := AssignToWord(op.value);
      ok := ok && stored;
    }

    method StepAssignWord(b: BinOp) returns (ok: bool)
      requires stackptr <= stack.Length
      modifies `stackptr, `code, `nextTemp, `prior, `cur, `lastsz, stack
      ensures stackptr <= stack.Length && Result(ok, Now()) == StepAssignOp(old(Now()), b)
    {
      hide StepOp, AssignTo;
      var op := PopArg();
      if op.None? {
        return false;
      }
      PushArg(op.value);
      var _ := StepWord(b);
      var _ := AssignToWord(op.value);
      return true;
    }

    method NotAssignWord() returns (ok: bool)
      requires stackptr <= stack.Length
      modifies `stackptr, `code, `nextTemp, `prior, `cur, `lastsz, stack
      ensures stackptr <= stack.Length && Result(ok, Now()) == NotAssignOp(old(Now()))
    {
      hide NotOp, AssignTo;
      var op := PopArg();
      if op.None? {
        return false;
      }
      PushArg(op.value);
      var _ := NotWord();
      var _ := AssignToWord(op.value);
      return true;
    }

    // ----- shared stack words -----

    method DupWord() returns (ok: bool)
      requires stackptr <= stack.Length
      modifies `stackptr, stack
      ensures stackptr <= stack.Length && Result(ok, Now()) == DupOp(old(Now()))
    {
      if stackptr < 1 || stackptr >= stack.Length {
        return false;
      }
      PushSlot(stack[stackptr - 1]);
      return true;
    }

    method SwapWord() returns (ok: bool)
      requires stackptr <= stack.Length
      modifies stack
      ensures Result(ok, Now()) == SwapOp(old(Now()))
    {
      if stackptr < 2 {
        return false;
      }
      stack[stackptr - 1], stack[stackptr - 2] := stack[stackptr - 2], stack[stackptr - 1];
      return true;
    }

    /** One word of the program being translated. */
    method Word(op: Op) returns (ok: bool)
      requires stackptr <= stack.Length && Translated(op)
      modifies `stackptr, `code, `nextTemp, `prior, `cur, `lastsz, stack
      ensures stackptr <= stack.Length && Result(ok, Now()) == Translate(old(Now()), op)
    {
      hide BinaryOp, UpdateOp, StepOp, StepAssignOp, NotOp, NotAssignOp, AssignOp, CompareOp, DupOp, SwapOp;
      match op
      case Binary(b) => ok := BinaryWord(Arith(b));
      case Update(b) => ok := UpdateWord(b);
      case Inc => ok := StepWord(OpAdd);
      case Dec => ok := StepWord(OpSub);
      case IncEq => ok := StepAssignWord(OpAdd);
      case DecEq => ok := StepAssignWord(OpSub);
      case Not => ok := NotWord();
      case NotEq => ok := NotAssignWord();
      case Assign => ok := AssignWord();
      case Compare => ok := CompareWord();
      case Clear => stackptr := 0; ok := true;
      case Drop => var _ := PopArg(); ok := true;
      case Dup => ok := DupWord();
      case Swap => ok := SwapWord();
    }

    /** A whole program: operands are pushed as they are, words are translated. */
    method Program(ts: ReilProgram.Program)
      requires stackptr <= stack.Length
      modifies `stackptr, `code, `nextTemp, `prior, `cur, `lastsz, stack
      ensures stackptr <= stack.Length && Now() == ReilProgram.TranslateAll(old(Now()), ts)
    {
      hide Translate;
      ghost var goal := ReilProgram.TranslateAll(Now(), ts);
      for i := 0 to |ts|
        invariant stackptr <= stack.Length && ReilProgram.TranslateAll(Now(), ts[i..]) == goal
      {
        assert ts[i] in ts && ts[i..][0] == ts[i] && ts[i..][1..] == ts[i + 1..];
        var ok := true;
        match ts[i]
        case Operand(e) => PushSlot(Raw(e));
        case Cmd(op) => ok := Word(op);
        if !ok {
          return;
        }
      }
    }
  }
}
