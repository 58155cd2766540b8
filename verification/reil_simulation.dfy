/** What executing the translation of one word does to REIL's state: which temporaries it
    sets, which register it stores, and what it leaves alone. The effects are stated for
    the instructions a word emits, from whatever state the code before it has reached,
    and are what the agreement with ESIL is proved from. Temporaries at and above the
    next number are free; those below it are never written again. */
module ReilSimulation {
  import opened Words
  import opened Wrappers
  import opened EsilMachine
  import opened Reil
  import opened EsilToReil

  // ----- what the translation of each kind of word comes to -----

  /** The state that executing the code emitted so far leads to. */
  function Now(s0: State, t: Trans): State
  {
    Exec(s0, t.code)
  }

  /** One instruction into a fresh temporary, which replaces the operands on the stack. */
  function Computed(t: Trans, rest: seq<Slot>, op: Opcode, a0: Arg, a1: Arg, size: nat): Trans
    requires op != Jump
  {
    EmitTemp(t, op, a0, a1, size).(stack := rest + [Sized(TempArg(t.next, size))])
  }

  /** Executing it fills that temporary and changes nothing else. */
  lemma ComputedEffect(s0: State, t: Trans, rest: seq<Slot>, op: Opcode, a0: Arg, a1: Arg, size: nat)
    requires op != Jump
    ensures var s := Now(s0, t);
            Now(s0, Computed(t, rest, op, a0, a1, size)) ==
              s.(temps := s.temps[t.next := Truncate(Compute(op, Read(s, a0), Read(s, a1)), size)])
  {
    ExecAppend(s0, t.code, Inst(op, a0, a1, TempArg(t.next, size)));
  }

  lemma PopLast(t: Trans, rest: seq<Slot>, x: Slot)
    requires t.stack == rest + [x]
    ensures PopArg(t) == Popped(Some(Resolve(t.sizes, x)), t.(stack := rest))
  {
    assert t.stack[..|t.stack| - 1] == rest;
  }

  lemma BinaryComputes(t: Trans, rest: seq<Slot>, x1: Slot, x2: Slot, op: Opcode)
    requires op != Jump && t.stack == rest + [x1, x2] && |t.stack| <= t.limit
    ensures var a0, a1 := Resolve(t.sizes, x2), Resolve(t.sizes, x1);
            BinaryOp(t, op) == Result(true, Computed(t, rest, op, a0, a1, if op == Less then 1 else Wider(a0, a1)))
  {
    assert t.stack == (rest + [x1]) + [x2];
    PopLast(t, rest + [x1], x2);
    PopLast(t.(stack := rest + [x1]), rest, x1);
  }

  lemma StepComputes(t: Trans, rest: seq<Slot>, x: Slot, b: BinOp)
    requires t.stack == rest + [x] && |rest| + 2 <= t.limit
    ensures var a := Resolve(t.sizes, x);
            StepOp(t, b) == Result(true, Computed(t, rest, Arith(b), a, ConstArg(1, 64), Wider(a, ConstArg(1, 64))))
  {
    var a := Resolve(t.sizes, x);
    PopLast(t, rest, x);
    var u := PushArg(PushConst(t.(stack := rest), 1), a);
    assert u.stack == rest + [Raw(Num(1)), Sized(a)];
    BinaryComputes(u, rest, Raw(Num(1)), Sized(a), Arith(b));
  }

  lemma NotComputes(t: Trans, rest: seq<Slot>, x: Slot)
    requires t.stack == rest + [x] && |t.stack| <= t.limit
    ensures var a := Resolve(t.sizes, x);
            NotOp(t) == Result(true, Computed(t, rest, Equal, a, ConstArg(0, if a.size < 64 then a.size else 64), 1))
  {
    PopLast(t, rest, x);
    PopLast(PushConst(t.(stack := rest), 0), rest, Raw(Num(0)));
  }

  lemma CompareComputes(t: Trans, rest: seq<Slot>, x1: Slot, x2: Slot)
    requires t.stack == rest + [x1, x2] && |t.stack| <= t.limit
    ensures var a0, a1 := Resolve(t.sizes, x2), Resolve(t.sizes, x1);
            var r, c := CompareOp(t), Computed(t, rest, Equal, a0, a1, 1);
            r.ok && r.t == c.(cur := r.t.cur, prior := r.t.prior, lastsz := r.t.lastsz)
  {
    assert t.stack == (rest + [x1]) + [x2];
    PopLast(t, rest + [x1], x2);
    PopLast(t.(stack := rest + [x1]), rest, x1);
  }

  // ----- assignments -----

  /** Temporaries below n keep their values. */
  predicate SameTemps(s: State, u: State, n: nat)
  {
    forall i: nat :: i < n ==> TempAt(u, i) == TempAt(s, i)
  }

  /** More code was emitted: the stack and all temporaries so far are as before. */
  predicate Extends(s0: State, t: Trans, u: Trans)
  {
    && u.sizes == t.sizes && u.pc == t.pc && u.limit == t.limit && u.stack == t.stack && u.next >= t.next
    && SameTemps(Now(s0, t), Now(s0, u), t.next)
  }

  lemma ExtendsTrans(s0: State, t: Trans, u: Trans, v: Trans)
    requires Extends(s0, t, u) && Extends(s0, u, v)
    ensures Extends(s0, t, v)
  {
    hide Now;
    forall i: nat | i < t.next
      ensures TempAt(Now(s0, v), i) == TempAt(Now(s0, t), i)
    {
      assert TempAt(Now(s0, u), i) == TempAt(Now(s0, t), i);
    }
  }

  lemma TruncateFits(v: Word, n: nat)
    requires v < Pow2(n)
    ensures Truncate(v, n) == v
  {
    ModuloUnique(v, Pow2(n), 0, v);
  }

  /** Emitting into a fresh temporary. */
  lemma EmitTempEffect(s0: State, t: Trans, op: Opcode, a0: Arg, a1: Arg, size: nat)
    requires op != Jump
    ensures var s, u := Now(s0, t), EmitTemp(t, op, a0, a1, size);
            && Extends(s0, t, u)
            && Now(s0, u).regs == s.regs
            && TempAt(Now(s0, u), t.next) == Truncate(Compute(op, Read(s, a0), Read(s, a1)), size)
  {
    hide Compute, Exec;
    ComputedEffect(s0, t, t.stack, op, a0, a1, size);
  }

  lemma PushPop(t: Trans, a: Arg)
    requires |t.stack| < t.limit
    ensures PopArg(PushArg(t, a)) == Popped(Some(a), t)
  {
    PopLast(PushArg(t, a), t.stack, Sized(a));
  }

  /** A source that is no flag keeps its value while it is copied. */
  lemma SourceKeepsValue(s0: State, t: Trans, src: Arg)
    requires |t.stack| < t.limit && Below(src, t.next) && !src.FlagArg?
    requires src.RegArg? ==> Read(Now(s0, t), src) < Pow2(src.size)
    ensures var p := Source(t, src);
            && p.a.Some? && p.a.value.size == src.size && Below(p.a.value, p.t.next)
            && Extends(s0, t, p.t) && Now(s0, p.t).regs == Now(s0, t).regs
            && Read(Now(s0, p.t), p.a.value) == Read(Now(s0, t), src)
            && p.t.lastsz == t.lastsz && p.t.cur == t.cur && p.t.prior == t.prior
            && !p.a.value.RegArg?
  {
    if src.RegArg? {
      EmitTempEffect(s0, t, Store, src, NoArg(0), src.size);
      PushPop(EmitTemp(t, Store, src, NoArg(0), src.size), TempArg(t.next, src.size));
      TruncateFits(Read(Now(s0, t), src), src.size);
    }
  }

  /** Moving a value into a register truncates it to the register's size. */
  lemma MoveStores(s0: State, t: Trans, src: Arg, dst: Arg)
    requires |t.stack| < t.limit && Below(src, t.next) && dst.RegArg? && dst.name != t.pc
    requires dst.name in Now(s0, t).regs
    ensures var s, r := Now(s0, t), Move(t, src, dst);
            && r.ok && Extends(s0, t, r.t)
            && Now(s0, r.t).regs == s.regs[dst.name := Truncate(Read(s, src), dst.size)]
            && r.t.lastsz == t.lastsz && r.t.cur == t.cur && r.t.prior == t.prior
  {
    var s := Now(s0, t);
    if src.size == dst.size {
      PushPop(t, src);
      StoreEffect(s0, t, src, dst);
    } else {
      var u, temp := EmitTemp(t, Arith(OpOr), src, ConstArg(0, dst.size), dst.size), TempArg(t.next, dst.size);
      EmitTempEffect(s0, t, Arith(OpOr), src, ConstArg(0, dst.size), dst.size);
      OrWithZero(Read(s, src));
      PushPop(u, temp);
      StoreEffect(s0, u, temp, dst);
      ExtendsTrans(s0, t, u, Move(t, src, dst).t);
      TruncateFits(Truncate(Read(s, src), dst.size), dst.size);
    }
  }

  lemma OrWithZero(v: Word)
    ensures Compute(Arith(OpOr), v, 0) == v
  {
    OrZero(v);
  }

  lemma StoreEffect(s0: State, t: Trans, src: Arg, dst: Arg)
    requires dst.RegArg? && dst.name in Now(s0, t).regs
    ensures var s, u := Now(s0, t), Emit(t, Inst(Store, src, NoArg(0), dst));
            && Extends(s0, t, u)
            && Now(s0, u).regs == s.regs[dst.name := Truncate(Read(s, src), dst.size)]
  {
    ExecAppend(s0, t.code, Inst(Store, src, NoArg(0), dst));
  }

  /** The flag registers of the translator: the destination, and a temporary that holds
      the value it had before. */
  predicate Saved(s0: State, u: Trans, dst: Arg, before: Word)
  {
    && u.cur == Sized(dst) && u.lastsz == dst.size
    && u.prior.Sized? && u.prior.a.TempArg? && u.prior.a.size == dst.size && u.prior.a.id < u.next
    && TempAt(Now(s0, u), u.prior.a.id) == before
  }

  lemma SaveDstSaves(s0: State, t: Trans, dst: Arg)
    requires Read(Now(s0, t), dst) < Pow2(dst.size)
    ensures var u := SaveDst(t, dst);
            Extends(s0, t, u) && Now(s0, u).regs == Now(s0, t).regs && Saved(s0, u, dst, Read(Now(s0, t), dst))
  {
    EmitTempEffect(s0, t, Store, dst, NoArg(0), dst.size);
    TruncateFits(Read(Now(s0, t), dst), dst.size);
  }

  lemma SavedLater(s0: State, u: Trans, v: Trans, dst: Arg, before: Word)
    requires Saved(s0, u, dst, before) && Extends(s0, u, v)
    requires v.cur == u.cur && v.prior == u.prior && v.lastsz == u.lastsz
    ensures Saved(s0, v, dst, before)
  {
    hide Now;
  }

  lemma ReadLater(s0: State, t: Trans, u: Trans, a: Arg)
    requires Extends(s0, t, u) && Below(a, t.next) && !a.RegArg?
    ensures Read(Now(s0, u), a) == Read(Now(s0, t), a)
  {
    hide Now;
  }

  /** A register of the machine, with a value of its size. */
  predicate KnownReg(s: State, a: Arg)
  {
    a.RegArg? && a.name in s.regs && s.regs[a.name] < Pow2(a.size)
  }

  predicate Readable(s: State, a: Arg, n: nat)
  {
    KnownReg(s, a) || a.ConstArg? || (a.TempArg? && a.id < n)
  }

  /** The tail of an assignment whose source is no flag. */
  lemma SaveAndMove(s0: State, t: Trans, src: Arg, dst: Arg)
    requires |t.stack| < t.limit && Below(src, t.next) && !src.RegArg?
    requires KnownReg(Now(s0, t), dst) && dst.name != t.pc
    ensures var s, r := Now(s0, t), Move(SaveDst(t, dst), src, dst);
            && r.ok && Extends(s0, t, r.t)
            && Now(s0, r.t).regs == s.regs[dst.name := Truncate(Read(s, src), dst.size)]
            && Saved(s0, r.t, dst, Read(s, dst))
  {
    hide SaveDst, Move, Now;
    var u := SaveDst(t, dst);
    SaveDstSaves(s0, t, dst);
    ReadLater(s0, t, u, src);
    KeptFields(t, dst);
    MoveStores(s0, u, src, dst);
    var v := Move(u, src, dst).t;
    ExtendsTrans(s0, t, u, v);
    SavedLater(s0, u, v, dst, Read(Now(s0, t), dst));
  }

  lemma KeptFields(t: Trans, dst: Arg)
    ensures var u := SaveDst(t, dst); u.stack == t.stack && u.limit == t.limit && u.pc == t.pc && u.next >= t.next
  {
  }

  /** An assignment stores the truncated value, and saves what the flags need. */
  lemma AssignStores(s0: State, t: Trans, rest: seq<Slot>, x1: Slot, x2: Slot)
    requires t.stack == rest + [x1, x2] && |t.stack| <= t.limit
    requires Readable(Now(s0, t), Resolve(t.sizes, x1), t.next)
    requires KnownReg(Now(s0, t), Resolve(t.sizes, x2)) && Resolve(t.sizes, x2).name != t.pc
    ensures var s, r, src, dst := Now(s0, t), AssignOp(t), Resolve(t.sizes, x1), Resolve(t.sizes, x2);
            && r.ok && Extends(s0, t.(stack := rest), r.t)
            && Now(s0, r.t).regs == s.regs[dst.name := Truncate(Read(s, src), dst.size)]
            && Saved(s0, r.t, dst, Read(s, dst))
  {
    hide SaveDst, Move, Source, Exec;
    var src, dst, t1 := Resolve(t.sizes, x1), Resolve(t.sizes, x2), t.(stack := rest);
    assert t.stack == (rest + [x1]) + [x2];
    PopLast(t, rest + [x1], x2);
    PopLast(t.(stack := rest + [x1]), rest, x1);
    SourceKeepsValue(s0, t1, src);
    var p := Source(t1, src);
    SaveAndMove(s0, p.t, p.a.value, dst);
    ExtendsTrans(s0, t1, p.t, AssignOp(t).t);
  }

  /** Where code takes the program with its last instruction. */
  function Leads(s0: State, code: seq<Inst>): Option<Word>
  {
    if code == [] then None else JumpsTo(Exec(s0, code[..|code| - 1]), code[|code| - 1])
  }

  lemma OneIsOne(s: State)
    ensures Read(s, ConstArg(1, 1)) == 1
  {
  }

  lemma JumpLeads(s0: State, t: Trans, src: Arg)
    requires |t.stack| < t.limit
    ensures var r := JumpTo(t, src); r.ok && Now(s0, r.t).regs == Now(s0, t).regs && Leads(s0, r.t.code) == Some(Read(Now(s0, t), src))
  {
    hide Exec, Read;
    PushPop(t, ConstArg(1, 1));
    OneIsOne(Now(s0, t));
    var i := Inst(Jump, ConstArg(1, 1), NoArg(0), src);
    ExecAppend(s0, t.code, i);
    assert (t.code + [i])[..|t.code|] == t.code;
  }

  /** An assignment to the program counter jumps to the value, always, and changes no
      register. */
  lemma AssignJumps(s0: State, t: Trans, rest: seq<Slot>, x1: Slot, x2: Slot)
    requires t.stack == rest + [x1, x2] && |t.stack| <= t.limit
    requires Readable(Now(s0, t), Resolve(t.sizes, x1), t.next)
    requires KnownReg(Now(s0, t), Resolve(t.sizes, x2)) && Resolve(t.sizes, x2).name == t.pc
    ensures var s, r := Now(s0, t), AssignOp(t);
            r.ok && Leads(s0, r.t.code) == Some(Read(s, Resolve(t.sizes, x1))) && Now(s0, r.t).regs == s.regs
  {
    hide SaveDst, Source, Exec, JumpTo, Leads, Now;
    var src, dst, t1 := Resolve(t.sizes, x1), Resolve(t.sizes, x2), t.(stack := rest);
    assert t.stack == (rest + [x1]) + [x2];
    PopLast(t, rest + [x1], x2);
    PopLast(t.(stack := rest + [x1]), rest, x1);
    SameNow(s0, t, t1);
    SourceKeepsValue(s0, t1, src);
    var p := Source(t1, src);
    SaveDstSaves(s0, p.t, dst);
    var u := SaveDst(p.t, dst);
    ReadLater(s0, p.t, u, p.a.value);
    KeptFields(p.t, dst);
    JumpLeads(s0, u, p.a.value);
  }

  lemma SameNow(s0: State, t: Trans, u: Trans)
    requires u == t.(stack := u.stack)
    ensures Now(s0, u) == Now(s0, t)
  {
  }

  /** Computing into a temporary and assigning it to a register. */
  lemma ComputeAndAssign(s0: State, t: Trans, rest: seq<Slot>, op: Opcode, a0: Arg, a1: Arg, size: nat, dst: Arg)
    requires op != Jump && |rest| + 2 <= t.limit
    requires KnownReg(Now(s0, t), dst) && dst.name != t.pc
    ensures var s, r := Now(s0, t), AssignTo(Computed(t, rest, op, a0, a1, size), dst);
            var v := Truncate(Compute(op, Read(s, a0), Read(s, a1)), size);
            && r.ok && Extends(s0, t.(stack := rest), r.t)
            && Now(s0, r.t).regs == s.regs[dst.name := Truncate(v, dst.size)]
            && Saved(s0, r.t, dst, Read(s, dst))
  {
    hide AssignOp, Exec, Compute;
    var c, temp := Computed(t, rest, op, a0, a1, size), TempArg(t.next, size);
    ComputedEffect(s0, t, rest, op, a0, a1, size);
    var u := PushArg(c, dst);
    assert u.stack == rest + [Sized(temp), Sized(dst)];
    AssignStores(s0, u, rest, Sized(temp), Sized(dst));
    assert Extends(s0, t.(stack := rest), u.(stack := rest));
    ExtendsTrans(s0, t.(stack := rest), u.(stack := rest), AssignOp(u).t);
  }

  lemma UpdateStores(s0: State, t: Trans, rest: seq<Slot>, x1: Slot, x2: Slot, b: BinOp)
    requires t.stack == rest + [x1, x2] && |t.stack| <= t.limit
    requires KnownReg(Now(s0, t), Resolve(t.sizes, x2)) && Resolve(t.sizes, x2).name != t.pc
    ensures var s, r, src, dst := Now(s0, t), UpdateOp(t, b), Resolve(t.sizes, x1), Resolve(t.sizes, x2);
            var v := Truncate(Compute(Arith(b), Read(s, dst), Read(s, src)), Wider(dst, src));
            && r.ok && Extends(s0, t.(stack := rest), r.t)
            && Now(s0, r.t).regs == s.regs[dst.name := Truncate(v, dst.size)]
            && Saved(s0, r.t, dst, Read(s, dst))
  {
    hide AssignOp, AssignTo, Exec, BinaryOp, Compute;
    var src, dst := Resolve(t.sizes, x1), Resolve(t.sizes, x2);
    assert t.stack == (rest + [x1]) + [x2];
    PopLast(t, rest + [x1], x2);
    var u := PushArg(t.(stack := rest + [x1]), dst);
    assert u.stack == rest + [x1, Sized(dst)];
    BinaryComputes(u, rest, x1, Sized(dst), Arith(b));
    ComputeAndAssign(s0, u, rest, Arith(b), dst, src, Wider(dst, src), dst);
  }

  lemma StepAssignStores(s0: State, t: Trans, rest: seq<Slot>, x: Slot, b: BinOp)
    requires t.stack == rest + [x] && |rest| + 2 <= t.limit
    requires KnownReg(Now(s0, t), Resolve(t.sizes, x)) && Resolve(t.sizes, x).name != t.pc
    ensures var s, r, dst := Now(s0, t), StepAssignOp(t, b), Resolve(t.sizes, x);
            var v := Truncate(Compute(Arith(b), Read(s, dst), 1), Wider(dst, ConstArg(1, 64)));
            && r.ok && Extends(s0, t.(stack := rest), r.t)
            && Now(s0, r.t).regs == s.regs[dst.name := Truncate(v, dst.size)]
            && Saved(s0, r.t, dst, Read(s, dst))
  {
    hide AssignOp, AssignTo, Exec, StepOp, Compute;
    var dst := Resolve(t.sizes, x);
    PopLast(t, rest, x);
    var u := PushArg(t.(stack := rest), dst);
    StepComputes(u, rest, Sized(dst), b);
    ComputeAndAssign(s0, u, rest, Arith(b), dst, ConstArg(1, 64), Wider(dst, ConstArg(1, 64)), dst);
  }

  lemma NotAssignStores(s0: State, t: Trans, rest: seq<Slot>, x: Slot)
    requires t.stack == rest + [x] && |rest| + 2 <= t.limit
    requires KnownReg(Now(s0, t), Resolve(t.sizes, x)) && Resolve(t.sizes, x).name != t.pc
    ensures var s, r, dst := Now(s0, t), NotAssignOp(t), Resolve(t.sizes, x);
            && r.ok && Extends(s0, t.(stack := rest), r.t)
            && Now(s0, r.t).regs == s.regs[dst.name := Truncate(Truncate(IsZero(Read(s, dst)), 1), dst.size)]
  {
    hide AssignOp, AssignTo, Exec, NotOp;
    var dst := Resolve(t.sizes, x);
    PopLast(t, rest, x);
    var u, size := PushArg(t.(stack := rest), dst), if dst.size < 64 then dst.size else 64;
    NotComputes(u, rest, Sized(dst));
    ComputeAndAssign(s0, u, rest, Equal, dst, ConstArg(0, size), 1, dst);
  }
}
