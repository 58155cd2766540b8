/** The ESIL machine as a program that updates its stack buffer and fields in place. */
module Esil {
  import opened Words
  import opened Wrappers
  import opened EsilFlags
  import opened EsilMachine
  import opened EsilControl
  import EsilParse

  class Machine64 {
    const sizes: map<string, nat>
    const bigEndian: bool
    const scratch: seq<Byte>
    const decode: string -> Token
    const gotoLimit: int

    var regs: map<string, Word>
    const stack: array<Entry>
    var stackptr: nat
    var prev: Word
    var cur: Word
    var lastsz: nat
    var mem: map<nat, Byte>
    var trap: Trap

    var skip: bool
    var parseGoto: int
    var parseStop: nat
    var gotoCount: int

    function Now(): Machine
      requires stackptr <= stack.Length
      reads this, stack
    {
      Machine(sizes, regs, stack[..stackptr], stack.Length, prev, cur, lastsz, mem, bigEndian, scratch, trap)
    }

    function State(): Control
      requires stackptr <= stack.Length
      reads this, stack
    {
      Control(Now(), skip, parseGoto, parseStop, gotoCount)
    }

    ghost predicate Ok()
      reads this, stack
    {
      stackptr <= stack.Length && Valid(Now())
    }

    constructor (sizes: map<string, nat>, stackSize: nat, bigEndian: bool, scratch: seq<Byte>,
                 decode: string -> Token, gotoLimit: int)
      requires forall r :: r in sizes ==> 1 <= sizes[r] <= 64
      requires |scratch| == 8
      ensures Ok() && fresh(stack) && stackptr == 0 && stack.Length == stackSize
      ensures this.gotoLimit == gotoLimit && this.decode == decode
    {
      this.sizes, this.bigEndian, this.scratch, this.decode, this.gotoLimit :=
        sizes, bigEndian, scratch, decode, gotoLimit;
      regs := map r | r in sizes :: 0;
      stack := new Entry[stackSize](_ => Num(0));
      stackptr, prev, cur, lastsz, mem, trap := 0, 0, 0, 0, map[], NoTrap;
      skip, parseGoto, parseStop, gotoCount := false, -1, 0, gotoLimit;
    }

    method PushEntry(e: Entry) returns (ok: bool)
      requires Ok()
      modifies `stackptr, stack
      ensures Ok() && Outcome(ok, Now()) == Push(old(Now()), e)
    {
      if stackptr > stack.Length - 1 {
        return false;
      }
      stack[stackptr] := e;
      stackptr := stackptr + 1;
      return true;
    }

    method PopEntry() returns (e: Option<Entry>)
      requires Ok()
      modifies `stackptr
      ensures Ok() && e == Top(old(Now())) && Now() == Pop(old(Now()))
    {
      if stackptr < 1 {
        return None;
      }
      stackptr := stackptr - 1;
      return Some(stack[stackptr]);
    }

    method PushNumber(n: Word)
      requires Ok()
      modifies `stackptr, stack
      ensures Ok() && Now() == PushNum(old(Now()), n)
    {
      var _ := PushEntry(Num(n));
    }

    /** The value of an operand that has been popped. */
    method GetParm(e: Option<Entry>) returns (v: Option<Word>)
      requires Ok()
      ensures v == Value(Now(), e)
    {
      match e
      case None => v := None;
      case Some(Num(n)) => v := Some(n);
      case Some(Reg(r)) => v := if r in regs then Some(regs[r]) else None;
      case Some(Internal(f)) => v := Some(ReadFlag(Now(), f));
      case Some(Bad(_)) => v := None;
    }

    method RegRead(e: Option<Entry>) returns (v: Option<Word>)
      requires Ok()
      ensures v == ReadDst(Now(), e)
    {
      if e.Some? && e.value.Num? {
        return None;
      }
      v := GetParm(e);
    }

    method RegWrite(e: Entry, v: Word) returns (ok: bool)
      requires Ok()
      modifies `regs
      ensures Ok() && Outcome(ok, Now()) == WriteReg(old(Now()), e, v)
    {
      if e.Reg? && e.name in regs {
        regs := regs[e.name := Fit(v, sizes[e.name])];
        return true;
      }
      return false;
    }

    method SetFlags(before: Word, after: Word, size: nat)
      requires Ok() && size <= 64
      modifies `prev, `cur, `lastsz
      ensures Ok() && Now() == Track(old(Now()), before, after, size)
    {
      prev, cur, lastsz := before, after, size;
    }

    method SetTrap(t: Trap)
      requires Ok()
      modifies `trap
      ensures Ok() && Now() == old(Now()).(trap := t)
    {
      trap := t;
    }

    method StoreMemory(a: nat, v: Word, w: Width)
      requires Ok()
      modifies `mem
      ensures Ok() && Now() == StoreWord(old(Now()), a, v, w)
    {
      mem := WriteBytes(mem, a, Encode(v, w, bigEndian));
    }

    /** The words that combine two operands and push the result. */
    method BinaryWord(b: BinOp) returns (ok: bool)
      requires Ok()
      modifies `regs, `stackptr, `prev, `cur, `lastsz, `mem, `trap, stack
      ensures Ok() && Outcome(ok, Now()) == RunBinary(old(Now()), b)
    {
      var dst := PopEntry();
      var d := GetParm(dst);
      if b == OpSub && d.None? {
        return false;
      }
      var src := PopEntry();
      var s := GetParm(src);
      if d.None? || s.None? {
        return false;
      }
      if Divides(b) && s.value == 0 {
        SetTrap(DivByZero);
      } else {
        PushNumber(Apply(b, d.value, s.value));
      }
      return true;
    }

    /** The words that combine a register with an operand, in place. */
    method UpdateWord(b: BinOp) returns (ok: bool)
      requires Ok()
      modifies `regs, `stackptr, `prev, `cur, `lastsz, `mem, `trap, stack
      ensures Ok() && Outcome(ok, Now()) == RunUpdate(old(Now()), b)
    {
      var dst := PopEntry();
      var src := PopEntry();
      var s := GetParm(src);
      var d := RegRead(dst);
      if d.None? || s.None? {
        return false;
      }
      if Divides(b) && s.value == 0 {
        SetTrap(DivByZero);
        return true;
      }
      var v := Apply(b, d.value, s.value);
      if !src.value.Internal? || b == OpShl || b == OpShr {
        SetFlags(d.value, v, SizeOf(Now(), dst.value));
      }
      var _ := RegWrite(dst.value, v);
      return true;
    }

    /** Increment and decrement of the top of the stack. */
    method StepWord(b: BinOp) returns (ok: bool)
      requires Ok() && (b == OpAdd || b == OpSub)
      modifies `regs, `stackptr, `prev, `cur, `lastsz, `mem, `trap, stack
      ensures Ok() && Outcome(ok, Now()) == RunStep(old(Now()), b)
    {
      var src := PopEntry();
      var s := GetParm(src);
      if s.None? {
        return false;
      }
      PushNumber(Apply(b, s.value, 1));
      return true;
    }

    /** Increment and decrement of a register. */
    method StepEqWord(b: BinOp) returns (ok: bool)
      requires Ok() && (b == OpAdd || b == OpSub)
      modifies `regs, `stackptr, `prev, `cur, `lastsz, `mem, `trap, stack
      ensures Ok() && Outcome(ok, Now()) == RunStepEq(old(Now()), b)
    {
      var e := PopEntry();
      if e.None? || !e.value.Reg? || e.value.name !in regs {
        return false;
      }
      var d := regs[e.value.name];
      var v := Apply(b, d, 1);
      var _ := RegWrite(e.value, v);
      SetFlags(d, v, SizeOf(Now(), e.value));
      return true;
    }

    method NotWord() returns (ok: bool)
      requires Ok()
      modifies `regs, `stackptr, `prev, `cur, `lastsz, `mem, `trap, stack
      ensures Ok() && Outcome(ok, Now()) == RunNot(old(Now()))
    {
      var src := PopEntry();
      var s := GetParm(src);
      if s.None? {
        return false;
      }
      PushNumber(IsZero(s.value));
      return true;
    }

    method NotEqWord() returns (ok: bool)
      requires Ok()
      modifies `regs, `stackptr, `prev, `cur, `lastsz, `mem, `trap, stack
      ensures Ok() && Outcome(ok, Now()) == RunNotEq(old(Now()))
    {
      var dst := PopEntry();
      var d := RegRead(dst);
      if d.None? {
        return false;
      }
      var _ := RegWrite(dst.value, IsZero(d.value));
      return true;
    }

    method AssignWord() returns (ok: bool)
      requires Ok()
      modifies `regs, `stackptr, `prev, `cur, `lastsz, `mem, `trap, stack
      ensures Ok() && Outcome(ok, Now()) == RunAssign(old(Now()))
    {
      var dst := PopEntry();
      var src := PopEntry();
      var d := RegRead(dst);
      var s := GetParm(src);
      if d.None? || s.None? {
        return false;
      }
      ok := RegWrite(dst.value, s.value);
      if ok && !src.value.Internal? {
        SetFlags(d.value, s.value, SizeOf(Now(), dst.value));
      }
    }

    method CompareWord() returns (ok: bool)
      requires Ok()
      modifies `regs, `stackptr, `prev, `cur, `lastsz, `mem, `trap, stack
      ensures Ok() && Outcome(ok, Now()) == RunCompare(old(Now()))
    {
      var dst := PopEntry();
      var src := PopEntry();
      var d := GetParm(dst);
      var s := GetParm(src);
      if d.None? || s.None? {
        return false;
      }
      var size := 64;
      if SizeOf(Now(), dst.value) != 0 {
        size := SizeOf(Now(), dst.value);
      } else if SizeOf(Now(), src.value) != 0 {
        size := SizeOf(Now(), src.value);
      }
      SetFlags(d.value, Sub(d.value, s.value), size);
      PushNumber(if d.value == s.value then 1 else 0);
      return true;
    }

    method PeekWord(w: Width) returns (ok: bool)
      requires Ok()
      modifies `regs, `stackptr, `prev, `cur, `lastsz, `mem, `trap, stack
      ensures Ok() && Outcome(ok, Now()) == RunPeek(old(Now()), w)
    {
      var dst := PopEntry();
      var a := GetParm(dst);
      if a.None? {
        return false;
      }
      PushNumber(ReadWord(Now(), a.value, w));
      SetFlags(prev, cur, 8 * w);
      return true;
    }

    method PokeWord(w: Width) returns (ok: bool)
      requires Ok()
      modifies `regs, `stackptr, `prev, `cur, `lastsz, `mem, `trap, stack
      ensures Ok() && Outcome(ok, Now()) == RunPoke(old(Now()), w)
    {
      var dst := PopEntry();
      var src := PopEntry();
      var v := GetParm(src);
      var a := GetParm(dst);
      if v.None? || a.None? {
        return false;
      }
      if !src.value.Internal? {
        SetFlags(ReadBuffer(Now(), a.value, w), v.value, 8 * w);
      }
      StoreMemory(a.value, v.value, w);
      return true;
    }

    method MemUpdateWord(b: MemOp, w: Width) returns (ok: bool)
      requires Ok()
      modifies `regs, `stackptr, `prev, `cur, `lastsz, `mem, `trap, stack
      ensures Ok() && Outcome(ok, Now()) == RunMemUpdate(old(Now()), b, w)
    {
      var dst := PopEntry();
      var src := PopEntry();
      var s := GetParm(src);
      if s.None? {
        return false;
      }
      if b == OpDiv && s.value == 0 {
        SetTrap(DivByZero);
        return false;
      }
      ok := ReplaceAt(b, s.value, dst.value, w);
    }

    method ReplaceAt(b: MemOp, s: Word, dst: Entry, w: Width) returns (ok: bool)
      requires Ok() && (b == OpDiv ==> s != 0)
      modifies `regs, `stackptr, `prev, `cur, `lastsz, `mem, `trap, stack
      ensures Ok() && Outcome(ok, Now()) == ReplaceWord(old(Now()), b, s, dst, w)
    {
      ghost var m := Now();
      var peekOk, src1 := PeekAt(dst, w);
      var d := GetParm(src1);
      ok := false;
      if d.Some? {
        var pokeOk := PokeBackAt(Apply(b, d.value, s), dst, w);
        ok := peekOk && pokeOk;
      }
      assert Outcome(ok, Now()) == ReplaceWord(m, b, s, dst, w);
    }

    method PeekAt(dst: Entry, w: Width) returns (ok: bool, e: Option<Entry>)
      requires Ok()
      modifies `regs, `stackptr, `prev, `cur, `lastsz, `mem, `trap, stack
      ensures Ok()
      ensures var p := RunPeek(Push(old(Now()), dst).m, w); ok == p.ok && e == Top(p.m) && Now() == Pop(p.m)
    {
      var _ := PushEntry(dst);
      ok := PeekWord(w);
      e := PopEntry();
    }

    method PokeBackAt(v: Word, dst: Entry, w: Width) returns (ok: bool)
      requires Ok()
      modifies `regs, `stackptr, `prev, `cur, `lastsz, `mem, `trap, stack
      ensures Ok() && Outcome(ok, Now()) == PokeBack(old(Now()), v, dst, w)
    {
      PushNumber(v);
      var _ := PushEntry(dst);
      ok := PokeWord(w);
    }

    method DupWord() returns (ok: bool)
      requires Ok()
      modifies `regs, `stackptr, `prev, `cur, `lastsz, `mem, `trap, stack
      ensures Ok() && Outcome(ok, Now()) == RunDup(old(Now()))
    {
      if stackptr < 1 || stackptr > stack.Length - 1 {
        return false;
      }
      ok := PushEntry(stack[stackptr - 1]);
    }

    method SwapWord() returns (ok: bool)
      requires Ok()
      modifies `regs, `stackptr, `prev, `cur, `lastsz, `mem, `trap, stack
      ensures Ok() && Outcome(ok, Now()) == RunSwap(old(Now()))
    {
      if stackptr < 2 {
        return false;
      }
      stack[stackptr - 1], stack[stackptr - 2] := stack[stackptr - 2], stack[stackptr - 1];
      return true;
    }

    method ClearWord()
      requires Ok()
      modifies `regs, `stackptr, `prev, `cur, `lastsz, `mem, `trap, stack
      ensures Ok() && Now() == old(Now()).(stack := [])
    {
      ghost var m := Now();
      while stackptr > 0
        invariant Ok() && Now() == m.(stack := Now().stack)
      {
        var _ := PopEntry();
      }
    }

    method NumWord() returns (ok: bool)
      requires Ok()
      modifies `regs, `stackptr, `prev, `cur, `lastsz, `mem, `trap, stack
      ensures Ok() && Outcome(ok, Now()) == RunNum(old(Now()))
    {
      var e := PopEntry();
      var v := GetParm(e);
      if v.None? {
        return false;
      }
      ok := PushEntry(Num(v.value));
    }

    /** The words that compute. */
    method Command(op: Op) returns (ok: bool)
      requires Ok()
      modifies `regs, `stackptr, `prev, `cur, `lastsz, `mem, `trap, stack
      ensures Ok() && Outcome(ok, Now()) == Run(old(Now()), op)
    {
      hide RunBinary, RunUpdate, RunStep, RunStepEq, RunNot, RunNotEq, RunAssign, RunCompare;
      hide RunPeek, RunPoke, RunMemUpdate, RunDup, RunSwap, RunNum, Valid;
      match op
      case Binary(b) => ok := BinaryWord(b);
      case Update(b) => ok := UpdateWord(b);
      case Inc => ok := StepWord(OpAdd);
      case Dec => ok := StepWord(OpSub);
      case IncEq => ok := StepEqWord(OpAdd);
      case DecEq => ok := StepEqWord(OpSub);
      case Not => ok := NotWord();
      case NotEq => ok := NotEqWord();
      case Assign => ok := AssignWord();
      case Compare => ok := CompareWord();
      case Peek(w) => ok := PeekWord(w);
      case Poke(w) => ok := PokeWord(w);
      case MemUpdate(b, w) => ok := MemUpdateWord(b, w);
      case Clear => ClearWord(); ok := true;
      case Drop => var _ := PopEntry(); ok := true;
      case Dup => ok := DupWord();
      case Swap => ok := SwapWord();
      case NumOf => ok := NumWord();
    }

    // ----- steering the program -----

    method IfWord() returns (ok: bool)
      requires Ok()
      modifies `stackptr, `skip, `parseStop
      ensures Ok() && Step(ok, State()) == RunIf(old(State()))
    {
      var src := PopEntry();
      if src.None? {
        return false;
      }
      var v := GetParm(src);
      if v.None? {
        parseStop := 1;
      } else if v.value == 0 {
        skip := true;
      }
      return true;
    }

    method GotoWord() returns (ok: bool)
      requires Ok()
      modifies `stackptr, `parseGoto, `parseStop
      ensures Ok() && Step(ok, State()) == RunGoto(old(State()))
    {
      var src := PopEntry();
      var v := GetParm(src);
      if src.Some? {
        if v.Some? {
          parseGoto := Truncate32(v.value);
        } else {
          parseStop := 1;
        }
      }
      return true;
    }

    method ExecuteWord(t: Token) returns (ok: bool)
      requires Ok() && t != Else && t != EndIf
      modifies this, stack
      ensures Ok() && Step(ok, State()) == Execute(old(State()), t) && gotoCount == old(gotoCount)
    {
      hide Run, RunIf, RunGoto, Valid;
      match t
      case If => ok := IfWord();
      case Goto => ok := GotoWord();
      case Break => parseStop := 1; ok := true;
      case Todo => parseStop := 2; ok := true;
      case Cmd(op) => ok := Command(op);
      case Operand(e) =>
        ok := PushEntry(e);
        if !ok {
          SetTrap(InternalTrap);
        }
        ok := true;
      case _ => ok := true;
    }

    method RunWord(t: Token) returns (ok: bool)
      requires Ok()
      modifies this, stack
      ensures Ok() && Step(ok, State()) == EsilControl.RunWord(old(State()), t)
    {
      hide Execute, Valid;
      gotoCount := gotoCount - 1;
      if gotoCount < 1 {
        SetTrap(InternalTrap);
        parseStop := 1;
        return false;
      }
      if t == Else {
        skip := !skip;
        return true;
      } else if t == EndIf {
        skip := false;
        return true;
      }
      if skip {
        return true;
      }
      ok := ExecuteWord(t);
    }

    // ----- the text -----

    /** Finds the n-th word. */
    method FindWord(str: string, n: int) returns (g: Option<nat>)
      ensures g == EsilParse.GotoWord(str, n, 0, 0, 0)
    {
      var i, start, count := 0, 0, 0;
      while i < |str|
        invariant i <= |str| && start <= i + 1
        invariant EsilParse.GotoWord(str, n, i, start, count) == EsilParse.GotoWord(str, n, 0, 0, 0)
      {
        if count == n {
          return Some(start);
        }
        i := i + 1;
        if i < |str| && str[i] == ',' {
          start := i + 1;
          count := count + 1;
        }
      }
      return None;
    }

    method EvalWord(str: string, pos: nat) returns (v: EsilParse.Verdict)
      requires Ok() && pos <= |str|
      modifies `parseGoto
      ensures Ok() && v == EsilParse.EvalWord(str, pos, old(State())) && State() == v.c
    {
      if pos + 1 < |str| && str[pos + 1] == ',' {
        return EsilParse.Resume(pos, State());
      }
      if parseGoto != -1 {
        var g := FindWord(str, parseGoto);
        if g.Some? {
          parseGoto := -1;
          return EsilParse.Resume(g.value, State());
        }
        return EsilParse.Halt(State());
      }
      if parseStop != 0 {
        return EsilParse.Halt(State());
      }
      return EsilParse.Normal(State());
    }

    /** Runs the word that ends at pos, and tells where to go from there. */
    method TakeWord(str: string, pos: nat, word: string) returns (n: EsilParse.Next)
      requires Ok() && pos <= |str| && word != ""
      modifies this, stack
      ensures Ok() && n == EsilParse.AfterWord(decode, str, pos, word, old(State()))
      ensures State() == if n.Done? then n.r.c else n.c
    {
      hide EsilControl.RunWord, EsilParse.EvalWord, Valid;
      var ok := RunWord(EsilParse.Classify(decode, word));
      if !ok {
        return EsilParse.Done(EsilParse.Parsed(0, State()));
      }
      var v := EvalWord(str, pos);
      match v
      case Halt(d) => n := EsilParse.Done(EsilParse.Parsed(0, d));
      case Resume(p, d) => n := EsilParse.Again(p, d);
      case Normal(d) =>
        n := if pos == |str| then EsilParse.Done(EsilParse.Parsed(1, d))
             else if str[pos] == ';' then EsilParse.Done(EsilParse.Parsed(0, d)) else EsilParse.Advance(d);
    }

    method Begin()
      requires Ok()
      modifies `skip, `parseGoto, `parseStop, `gotoCount, `trap
      ensures Ok() && State() == Control(old(Now()).(trap := NoTrap), false, -1, 0, gotoLimit)
    {
      trap := NoTrap;
      skip, parseGoto, parseStop, gotoCount := false, -1, 0, gotoLimit;
    }

    /** Runs a program given as text, reading its words into a buffer of 64 characters. */
    method Parse(str: string) returns (code: int)
      requires Ok()
      modifies this, stack
      ensures Ok() && EsilParse.Parsed(code, State()) == EsilParse.Parse(decode, str, old(State()), gotoLimit)
    {
      hide EsilParse.ParseFrom, Valid;
      if str == "" {
        return 0;
      }
      Begin();
      ghost var goal := EsilParse.ParseFrom(decode, str, 0, "", State());
      var word := new char[64];
      var pos: nat := 0;
      while true
        invariant Ok() && pos <= |str| && EsilParse.ParseFrom(decode, str, pos, "", State()) == goal
        decreases EsilParse.NonNegative(gotoCount)
      {
        var wordi, stopped;
        stopped, code, pos, wordi := ReadWords(str, pos, word, goal);
        if stopped {
          return;
        }
        if wordi == 0 {
          EsilParse.SeparatorStep(decode, str, pos, State());
          return 1;
        }
        EsilParse.WordStep(decode, str, pos, word[..wordi], State());
        var n := TakeWord(str, pos, word[..wordi]);
        match n
        case Done(r) => return r.code;
        case Again(p, _) => pos := p;
        case Advance(_) => assert false;
      }
    }

    /** Reads and runs words until the text ends or the program stops. */
    method ReadWords(str: string, start: nat, word: array<char>, ghost goal: EsilParse.Parsed)
      returns (stopped: bool, code: int, pos: nat, wordi: nat)
      requires Ok() && word.Length == 64 && start <= |str|
      requires EsilParse.ParseFrom(decode, str, start, "", State()) == goal
      modifies this, stack, word
      ensures Ok() && EsilParse.NonNegative(gotoCount) <= old(EsilParse.NonNegative(gotoCount))
      ensures stopped ==> EsilParse.Parsed(code, State()) == goal
      ensures !stopped ==> pos == |str| && wordi <= 63 && EsilParse.ParseFrom(decode, str, pos, word[..wordi], State()) == goal
    {
      hide EsilParse.AfterWord, EsilParse.ParseFrom, Valid;
      stopped, code, pos, wordi := false, 0, start, 0;
      while pos < |str|
        invariant Ok() && wordi <= 63 && pos <= |str|
        invariant EsilParse.NonNegative(gotoCount) <= old(EsilParse.NonNegative(gotoCount))
        invariant EsilParse.ParseFrom(decode, str, pos, word[..wordi], State()) == goal
        decreases EsilParse.NonNegative(gotoCount), |str| - pos
      {
        if wordi > 62 {
          EsilParse.LongWord(decode, str, pos, word[..wordi], State());
          return true, -1, pos, wordi;
        }
        if EsilParse.IsEnd(str[pos]) {
          if wordi > 0 {
            EsilParse.WordStep(decode, str, pos, word[..wordi], State());
            var n := TakeWord(str, pos, word[..wordi]);
            wordi := 0;
            if n.Done? {
              return true, n.r.code, pos, wordi;
            }
            if n.Again? {
              pos := n.pos;
              continue;
            }
          } else {
            EsilParse.SeparatorStep(decode, str, pos, State());
          }
          pos := pos + 1;
          assert word[..wordi] == "" && EsilParse.ReadFirst(decode, str, pos, State()) == goal;
          EsilParse.SeparatorStep(decode, str, |str|, State());
        } else {
          EsilParse.CharStep(decode, str, pos, word[..wordi], State());
        }
        if pos < |str| {
          ghost var read := word[..wordi];
          StoreChar(word, wordi, str[pos]);
          wordi := wordi + 1;
          assert word[..wordi] == read + [str[pos]] && (read == "" ==> word[..wordi] == [str[pos]]);
          pos := pos + 1;
        }
      }
    }

    method StoreChar(word: array<char>, i: nat, ch: char)
      requires i < word.Length
      modifies word
      ensures word[..i + 1] == old(word[..i]) + [ch]
    {
      word[i] := ch;
    }
  }
}
