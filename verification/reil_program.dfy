/** Whole programs: how far executing the translation agrees with running ESIL.

    A program is followed word by word, with the register whose flags are known after
    each. The main result says that agreement after every prefix is the same as every
    result fitting the size that REIL computes it with; programs over 64-bit registers
    that avoid one-bit results always meet that condition, and one program that does
    not meet it is given. */
module ReilProgram {
  import opened Words
  import opened Wrappers
  import opened EsilFlags
  import opened EsilMachine
  import opened EsilControl
  import opened Reil
  import opened EsilToReil
  import opened ReilSimulation
  import opened ReilAgreement
  import opened ReilFlags

  // ----- which flags are known -----

  /** The register of the last assignment, until something else is written to it or the
      two flag registers come to mean different things. */
  function Track(known: Option<string>, m: Machine, op: Op): Option<string>
  {
    match op
    case Update(_) => if m.stack != [] && FromTop(m, 1).Reg? then Some(FromTop(m, 1).name) else None
    case IncEq => if m.stack != [] && FromTop(m, 1).Reg? then Some(FromTop(m, 1).name) else None
    case DecEq => if m.stack != [] && FromTop(m, 1).Reg? then Some(FromTop(m, 1).name) else None
    case Assign =>
      if |m.stack| < 2 || !FromTop(m, 1).Reg? then None
      else if !FromTop(m, 2).Internal? then Some(FromTop(m, 1).name)
      else if known == Some(FromTop(m, 1).name) then None else known
    case NotEq => None
    case Compare => None
    case _ => known
  }

  predicate Knows(m: Machine, s0: State, t: Trans, known: Option<string>)
  {
    known.Some? ==> FlagsKnown(m, s0, t, known.value)
  }

  /** A known flag copied to a register. */
  predicate FlagCopy(m: Machine, pc: string, known: Option<string>)
  {
    FlagAssign(m, pc) && known.Some? && known.value in m.sizes && Computable(FromTop(m, 2).flag, m.sizes[known.value])
  }

  predicate WordAllowed(m: Machine, pc: string, known: Option<string>, op: Op)
  {
    Allowed(m, pc, op) || (op.Assign? && FlagCopy(m, pc, known))
  }

  predicate WordFits(m: Machine, t: Trans, known: Option<string>, op: Op)
    requires Valid(m) && WordAllowed(m, t.pc, known, op) && |t.stack| == |m.stack|
  {
    if Allowed(m, t.pc, op) then Fits(m, t, op)
    else Keeps(ReadFlag(m, FromTop(m, 2).flag), m.sizes[FromTop(m, 1).name])
  }

  // ----- flags survive the words that only compute -----

  /** Nothing that the flags depend on has changed. */
  lemma FlagsSurvive(m: Machine, o: Machine, s0: State, t: Trans, u: Trans, known: Option<string>)
    requires Knows(m, s0, t, known)
    requires o.sizes == m.sizes && o.regs == m.regs && o.prev == m.prev && o.cur == m.cur && o.lastsz == m.lastsz
    requires u.cur == t.cur && u.prior == t.prior && u.lastsz == t.lastsz && u.next >= t.next
    requires SameTemps(Now(s0, t), Now(s0, u), t.next)
    ensures Knows(o, s0, u, known)
  {
    hide Now;
  }

  lemma ComputedKeepsTemps(s0: State, t: Trans, rest: seq<Slot>, op: Opcode, a0: Arg, a1: Arg, size: nat)
    requires op != Jump
    ensures var u := Computed(t, rest, op, a0, a1, size);
            SameTemps(Now(s0, t), Now(s0, u), t.next) && u.next == t.next + 1 && u.cur == t.cur && u.prior == t.prior && u.lastsz == t.lastsz
  {
    ComputedHolds(s0, t, rest, op, a0, a1, size);
  }

  lemma BinaryKnows(m: Machine, s0: State, t: Trans, known: Option<string>, b: BinOp)
    requires Valid(m) && Wf(t) && Agree(m, s0, t) && Allowed(m, t.pc, Binary(b)) && Knows(m, s0, t, known)
    ensures Knows(RunBinary(m, b).m, s0, BinaryOp(t, Arith(b)).t, known)
  {
    hide Exec, Apply, AllBelow, StackAgrees, BinaryOp, RunBinary, Knows, Valid;
    var n := |m.stack|;
    TopTwo(m, s0, t);
    EsilBinary(m, m.stack[..n - 2], m.stack[n - 2], m.stack[n - 1], b);
    var rest, x1, x2 := t.stack[..n - 2], t.stack[n - 2], t.stack[n - 1];
    BinaryComputes(t, rest, x1, x2, Arith(b));
    var a0, a1 := Resolve(t.sizes, x2), Resolve(t.sizes, x1);
    ComputedKeepsTemps(s0, t, rest, Arith(b), a0, a1, Wider(a0, a1));
    FlagsSurvive(m, RunBinary(m, b).m, s0, t, BinaryOp(t, Arith(b)).t, known);
  }

  lemma StepKnows(m: Machine, s0: State, t: Trans, known: Option<string>, b: BinOp)
    requires Valid(m) && Wf(t) && Agree(m, s0, t) && (b == OpAdd || b == OpSub) && Knows(m, s0, t, known)
    requires |m.stack| >= 1 && IsOperand(m, FromTop(m, 1)) && Room(m)
    ensures Knows(RunStep(m, b).m, s0, StepOp(t, b).t, known)
  {
    hide Exec, Apply, AllBelow, StackAgrees, StepOp, RunStep, Knows, Valid;
    var n := |m.stack|;
    TopOne(m, s0, t);
    EsilStep(m, m.stack[..n - 1], m.stack[n - 1], b);
    var rest, x := t.stack[..n - 1], t.stack[n - 1];
    StepComputes(t, rest, x, b);
    var a, one := Resolve(t.sizes, x), ConstArg(1, 64);
    ComputedKeepsTemps(s0, t, rest, Arith(b), a, one, Wider(a, one));
    FlagsSurvive(m, RunStep(m, b).m, s0, t, StepOp(t, b).t, known);
  }

  lemma NotKnows(m: Machine, s0: State, t: Trans, known: Option<string>)
    requires Valid(m) && Wf(t) && Agree(m, s0, t) && Knows(m, s0, t, known)
    requires |m.stack| >= 1 && IsOperand(m, FromTop(m, 1))
    ensures Knows(RunNot(m).m, s0, NotOp(t).t, known)
  {
    hide Exec, AllBelow, StackAgrees, NotOp, RunNot, Knows, Valid;
    var n := |m.stack|;
    TopOne(m, s0, t);
    EsilNot(m, m.stack[..n - 1], m.stack[n - 1]);
    var rest, x := t.stack[..n - 1], t.stack[n - 1];
    NotComputes(t, rest, x);
    var a := Resolve(t.sizes, x);
    ComputedKeepsTemps(s0, t, rest, Equal, a, ConstArg(0, if a.size < 64 then a.size else 64), 1);
    FlagsSurvive(m, RunNot(m).m, s0, t, NotOp(t).t, known);
  }

  // ----- words that only move entries -----

  predicate Moves(op: Op)
  {
    op.Clear? || op.Drop? || op.Dup? || op.Swap?
  }

  /** Both stacks were rearranged alike. */
  lemma SameMove(m: Machine, s0: State, t: Trans, xs: seq<Slot>, es: seq<Entry>)
    requires Agree(m, s0, t) && StackAgrees(Now(s0, t), xs, es)
    ensures Agree(m.(stack := es), s0, t.(stack := xs))
  {
    hide Exec, StackAgrees;
  }

  lemma DropAgrees(m: Machine, s0: State, t: Trans)
    requires Wf(t) && Agree(m, s0, t)
    ensures Agree(Pop(m), s0, PopArg(t).t)
  {
    hide Exec;
    var n := |m.stack|;
    if n > 0 {
      hide StackAgrees;
      TopOne(m, s0, t);
      SameMove(m, s0, t, t.stack[..n - 1], m.stack[..n - 1]);
    }
  }

  lemma DupAgrees(m: Machine, s0: State, t: Trans)
    requires Valid(m) && Wf(t) && Agree(m, s0, t) && m.stack != [] && Room(m)
    ensures var o, r := RunDup(m), DupOp(t);
            o.ok && r.ok && Agree(o.m, s0, r.t) && o.m == m.(stack := o.m.stack) && r.t == t.(stack := r.t.stack)
  {
    hide Exec, StackAgrees;
    var n := |m.stack|;
    TopOne(m, s0, t);
    StackGrows(Now(s0, t), t.stack, m.stack, t.stack[n - 1], m.stack[n - 1]);
    SameMove(m, s0, t, t.stack + [t.stack[n - 1]], m.stack + [m.stack[n - 1]]);
  }

  lemma SwapAgrees(m: Machine, s0: State, t: Trans)
    requires Wf(t) && Agree(m, s0, t) && |m.stack| >= 2
    ensures var o, r := RunSwap(m), SwapOp(t);
            o.ok && r.ok && Agree(o.m, s0, r.t) && o.m == m.(stack := o.m.stack) && r.t == t.(stack := r.t.stack)
  {
    hide Exec, StackAgrees;
    var n := |m.stack|;
    TopTwo(m, s0, t);
    var xs, es, x1, x2, e1, e2 := t.stack[..n - 2], m.stack[..n - 2], t.stack[n - 2], t.stack[n - 1], m.stack[n - 2], m.stack[n - 1];
    StackGrows(Now(s0, t), xs, es, x2, e2);
    StackGrows(Now(s0, t), xs + [x2], es + [e2], x1, e1);
    assert (xs + [x2]) + [x1] == xs + [x2, x1] && (es + [e2]) + [e1] == es + [e2, e1];
    SameMove(m, s0, t, xs + [x2, x1], es + [e2, e1]);
  }

  lemma ClearAgrees(m: Machine, s0: State, t: Trans)
    requires Agree(m, s0, t)
    ensures Agree(m.(stack := []), s0, t.(stack := []))
  {
    hide Exec;
    SameMove(m, s0, t, [], []);
  }

  lemma MovesAgree(m: Machine, s0: State, t: Trans, op: Op)
    requires Valid(m) && Wf(t) && Agree(m, s0, t) && Allowed(m, t.pc, op) && Moves(op)
    ensures var o, r := Run(m, op), Translate(t, op);
            && o.ok && r.ok && Agree(o.m, s0, r.t)
            && o.m == m.(stack := o.m.stack) && r.t == t.(stack := r.t.stack)
  {
    hide Exec, StackAgrees, Agree, Wf, DupOp, SwapOp, RunDup, RunSwap, Valid;
    match op
    case Clear => ClearAgrees(m, s0, t);
    case Drop => DropAgrees(m, s0, t);
    case Dup => DupAgrees(m, s0, t);
    case Swap => SwapAgrees(m, s0, t);
    case _ =>
  }

  lemma MovesKnow(m: Machine, o: Machine, s0: State, t: Trans, u: Trans, known: Option<string>)
    requires Knows(m, s0, t, known) && o == m.(stack := o.stack) && u == t.(stack := u.stack)
    ensures Knows(o, s0, u, known)
  {
  }

  // ----- one word -----

  /** The words that push a result. */
  lemma PushWordAgrees(m: Machine, s0: State, t: Trans, known: Option<string>, op: Op)
    requires Valid(m) && Wf(t) && Agree(m, s0, t) && Allowed(m, t.pc, op) && Knows(m, s0, t, known)
    requires op.Binary? || op.Inc? || op.Dec? || op.Not?
    ensures Agreeing(m, s0, t, known, op)
  {
    hide Exec, StackAgrees, Agree, Wf, Valid, Knows, BinaryOp, RunBinary, StepOp, RunStep, NotOp, RunNot;
    match op
    case Binary(b) => BinaryAgrees(m, s0, t, b); BinaryKnows(m, s0, t, known, b);
    case Inc => StepAgrees(m, s0, t, OpAdd); StepKnows(m, s0, t, known, OpAdd);
    case Dec => StepAgrees(m, s0, t, OpSub); StepKnows(m, s0, t, known, OpSub);
    case Not => NotAgrees(m, s0, t); NotKnows(m, s0, t, known);
    case _ =>
  }

  /** The words that assign to a register. */
  lemma AssignWordAgrees(m: Machine, s0: State, t: Trans, known: Option<string>, op: Op)
    requires Valid(m) && Wf(t) && Agree(m, s0, t) && Allowed(m, t.pc, op) && Knows(m, s0, t, known)
    requires op.Update? || op.IncEq? || op.DecEq? || op.NotEq? || op.Assign?
    ensures Agreeing(m, s0, t, known, op)
  {
    hide Exec, StackAgrees, Agree, Wf, Valid, UpdateOp, RunUpdate, StepAssignOp, RunStepEq, NotAssignOp, RunNotEq, AssignOp, RunAssign, FlagsKnown;
    match op
    case Update(b) => UpdateAgrees(m, s0, t, b);
    case IncEq => StepAssignAgrees(m, s0, t, OpAdd);
    case DecEq => StepAssignAgrees(m, s0, t, OpSub);
    case NotEq => NotAssignAgrees(m, s0, t);
    case Assign => AssignAgrees(m, s0, t);
    case _ =>
  }

  /** Both sides succeed at a word; they agree afterwards exactly when it fits, and then
      the flags that should be known are. */
  predicate Agreeing(m: Machine, s0: State, t: Trans, known: Option<string>, op: Op)
    requires Valid(m) && WordAllowed(m, t.pc, known, op) && Agree(m, s0, t)
  {
    var o, r := Run(m, op), Translate(t, op);
    && o.ok && r.ok
    && (Agree(o.m, s0, r.t) <==> WordFits(m, t, known, op))
    && (WordFits(m, t, known, op) ==> Knows(o.m, s0, r.t, Track(known, m, op)))
  }

  lemma WordAgrees(m: Machine, s0: State, t: Trans, known: Option<string>, op: Op)
    requires Valid(m) && Wf(t) && Agree(m, s0, t) && Knows(m, s0, t, known) && WordAllowed(m, t.pc, known, op)
    ensures Agreeing(m, s0, t, known, op)
    ensures Wf(Translate(t, op).t)
  {
    WordWf(m, s0, t, known, op);
    hide Exec, StackAgrees, Agree, Wf, Valid, Translate, Run, Agreeing, Knows;
    if !Allowed(m, t.pc, op) {
      FlagCopyAgrees(m, s0, t, known);
    } else if Moves(op) {
      MoveWordAgrees(m, s0, t, known, op);
    } else if op.Compare? {
      CompareWordAgrees(m, s0, t, known);
    } else if op.Binary? || op.Inc? || op.Dec? || op.Not? {
      PushWordAgrees(m, s0, t, known, op);
    } else {
      AssignWordAgrees(m, s0, t, known, op);
    }
  }

  lemma CompareWordAgrees(m: Machine, s0: State, t: Trans, known: Option<string>)
    requires Valid(m) && Wf(t) && Agree(m, s0, t) && Allowed(m, t.pc, Compare)
    ensures Agreeing(m, s0, t, known, Compare)
  {
    hide Exec, StackAgrees, Agree, Wf, Valid, CompareOp, RunCompare;
    CompareAgrees(m, s0, t);
  }

  lemma MoveWordAgrees(m: Machine, s0: State, t: Trans, known: Option<string>, op: Op)
    requires Valid(m) && Wf(t) && Agree(m, s0, t) && Allowed(m, t.pc, op) && Knows(m, s0, t, known) && Moves(op)
    ensures Agreeing(m, s0, t, known, op)
  {
    hide Exec, StackAgrees, Agree, Wf, Valid, Knows, Run, Translate;
    MovesAgree(m, s0, t, op);
    MovesKnow(m, Run(m, op).m, s0, t, Translate(t, op).t, known);
  }

  lemma FlagCopyAgrees(m: Machine, s0: State, t: Trans, known: Option<string>)
    requires Valid(m) && Wf(t) && Agree(m, s0, t) && Knows(m, s0, t, known) && FlagCopy(m, t.pc, known)
    ensures Agreeing(m, s0, t, known, Assign)
  {
    hide Exec, StackAgrees, Agree, Wf, Valid, AssignOp, RunAssign, FlagsKnown;
    FlagAssignAgrees(m, s0, t, known.value);
  }

  /** Destinations are registers on both sides, so the numbering of temporaries is kept. */
  lemma WordWf(m: Machine, s0: State, t: Trans, known: Option<string>, op: Op)
    requires Valid(m) && Wf(t) && Agree(m, s0, t) && WordAllowed(m, t.pc, known, op)
    ensures Wf(Translate(t, op).t)
  {
    hide Exec, StackAgrees, Translate;
    if op.Assign? || op.Update? {
      TopTwo(m, s0, t);
    } else if op.IncEq? || op.DecEq? || op.NotEq? {
      TopOne(m, s0, t);
    }
  }

  // ----- programs -----

  predicate TokenTranslated(w: Token)
  {
    w.Operand? || (w.Cmd? && Translated(w.op))
  }

  type Program = ts: seq<Token> | forall w :: w in ts ==> TokenTranslated(w)

  function TranslateToken(t: Trans, w: Token): (r: Result)
    requires TokenTranslated(w)
    ensures r.t.pc == t.pc
  {
    match w
    case Operand(e) => Result(true, PushSlot(t, Raw(e)))
    case Cmd(op) => Translate(t, op)
  }

  predicate TokenAllowed(m: Machine, pc: string, known: Option<string>, w: Token)
  {
    match w
    case Operand(_) => Room(m)
    case Cmd(op) => WordAllowed(m, pc, known, op)
    case _ => false
  }

  predicate TokenFits(m: Machine, t: Trans, known: Option<string>, w: Token)
    requires Valid(m) && TokenAllowed(m, t.pc, known, w)
  {
    |t.stack| == |m.stack| && (w.Cmd? ==> WordFits(m, t, known, w.op))
  }

  function TrackToken(known: Option<string>, m: Machine, w: Token): Option<string>
  {
    if w.Cmd? then Track(known, m, w.op) else known
  }

  /** Every word of the program is one of those considered when its turn comes. */
  predicate InFragment(m: Machine, pc: string, known: Option<string>, ts: Program)
    requires Valid(m)
    decreases |ts|
  {
    ts == [] ||
    (assert ts[0] in ts;
     TokenAllowed(m, pc, known, ts[0]) && InFragment(DoPlain(m, ts[0]).m, pc, TrackToken(known, m, ts[0]), ts[1..]))
  }

  predicate AllFit(m: Machine, t: Trans, known: Option<string>, ts: Program)
    requires Valid(m) && InFragment(m, t.pc, known, ts)
    decreases |ts|
  {
    ts == [] ||
    (assert ts[0] in ts;
     TokenFits(m, t, known, ts[0])
     && AllFit(DoPlain(m, ts[0]).m, TranslateToken(t, ts[0]).t, TrackToken(known, m, ts[0]), ts[1..]))
  }

  /** After every prefix of the program the two sides agree. */
  predicate AgreeThroughout(m: Machine, s0: State, t: Trans, ts: Program)
    requires Valid(m)
    decreases |ts|
  {
    Agree(m, s0, t) &&
    (ts == [] ||
     (assert ts[0] in ts;
      AgreeThroughout(DoPlain(m, ts[0]).m, s0, TranslateToken(t, ts[0]).t, ts[1..])))
  }

  lemma OperandAgrees(m: Machine, s0: State, t: Trans, known: Option<string>, e: Entry)
    requires Valid(m) && Wf(t) && Agree(m, s0, t) && Knows(m, s0, t, known) && Room(m)
    ensures var o, u := DoPlain(m, Operand(e)), PushSlot(t, Raw(e));
            o.ok && Agree(o.m, s0, u) && Wf(u) && Knows(o.m, s0, u, known)
  {
    hide Exec, StackAgrees;
    SameHeight(m, s0, t);
    StackGrows(Now(s0, t), t.stack, m.stack, Raw(e), e);
    MovesKnow(m, Push(m, e).m, s0, t, PushSlot(t, Raw(e)), known);
  }

  lemma SameHeight(m: Machine, s0: State, t: Trans)
    ensures Agree(m, s0, t) ==> |t.stack| == |m.stack|
  {
  }

  lemma TokenAgrees(m: Machine, s0: State, t: Trans, known: Option<string>, w: Token)
    requires Valid(m) && Wf(t) && Agree(m, s0, t) && Knows(m, s0, t, known) && TokenAllowed(m, t.pc, known, w)
    ensures var o, r := DoPlain(m, w), TranslateToken(t, w);
            && o.ok && r.ok && Wf(r.t)
            && (Agree(o.m, s0, r.t) <==> TokenFits(m, t, known, w))
            && (TokenFits(m, t, known, w) ==> Knows(o.m, s0, r.t, TrackToken(known, m, w)))
  {
    hide Exec, StackAgrees, Wf, Valid, Knows, WordAllowed, WordFits, Run, Translate;
    SameHeight(m, s0, t);
    if w.Operand? {
      OperandAgrees(m, s0, t, known, w.e);
    } else {
      WordAgrees(m, s0, t, known, w.op);
    }
  }

  /** Executing the translation agrees with running the program, after every word,
      exactly when every result fits. */
  lemma {:induction false} AgreesIffFits(m: Machine, s0: State, t: Trans, known: Option<string>, ts: Program)
    requires Valid(m) && Wf(t) && Agree(m, s0, t) && Knows(m, s0, t, known) && InFragment(m, t.pc, known, ts)
    ensures AgreeThroughout(m, s0, t, ts) <==> AllFit(m, t, known, ts)
    decreases |ts|
  {
    hide Exec, StackAgrees, Agree, Wf, Valid, Knows, TokenAllowed, TokenFits, DoPlain, TranslateToken, TrackToken;
    if ts != [] {
      assert ts[0] in ts;
      var o, r := DoPlain(m, ts[0]).m, TranslateToken(t, ts[0]).t;
      TokenAgrees(m, s0, t, known, ts[0]);
      if TokenFits(m, t, known, ts[0]) {
        AgreesIffFits(o, s0, r, TrackToken(known, m, ts[0]), ts[1..]);
      } else {
        Disagree(o, s0, r, ts[1..]);
      }
    }
  }

  lemma Disagree(m: Machine, s0: State, t: Trans, ts: Program)
    requires Valid(m) && !Agree(m, s0, t)
    ensures !AgreeThroughout(m, s0, t, ts)
  {
  }

  // ----- from the start -----

  function Start(m: Machine, pc: string): Trans
  {
    Trans(m.sizes, pc, [], m.limit, 0, [], Raw(Bad("")), Raw(Bad("")), 0)
  }

  /** A word that fails ends the translation. */
  function TranslateAll(t: Trans, ts: Program): Trans
    decreases |ts|
  {
    if ts == [] then t
    else
      assert ts[0] in ts;
      var r := TranslateToken(t, ts[0]);
      if r.ok then TranslateAll(r.t, ts[1..]) else r.t
  }

  lemma ProgramIsBlock(ts: Program)
    ensures forall w :: w in ts ==> Plain(w)
  {
    forall w | w in ts
      ensures Plain(w)
    {
      assert TokenTranslated(w);
    }
  }

  lemma {:induction false} FittingRun(m: Machine, s0: State, t: Trans, known: Option<string>, ts: Program)
    requires Valid(m) && Wf(t) && Agree(m, s0, t) && Knows(m, s0, t, known)
    requires InFragment(m, t.pc, known, ts) && AllFit(m, t, known, ts)
    ensures forall w :: w in ts ==> Plain(w)
    ensures var o, u := DoBlock(m, ts), TranslateAll(t, ts); o.ok && Agree(o.m, s0, u) && Wf(u)
    decreases |ts|
  {
    hide Exec, StackAgrees, Agree, Wf, Valid, Knows, TokenAllowed, TokenFits, DoPlain, TranslateToken, TrackToken;
    ProgramIsBlock(ts);
    if ts != [] {
      assert ts[0] in ts;
      TokenAgrees(m, s0, t, known, ts[0]);
      FittingRun(DoPlain(m, ts[0]).m, s0, TranslateToken(t, ts[0]).t, TrackToken(known, m, ts[0]), ts[1..]);
    }
  }

  /** A program whose results fit can be run either way: executing its translation from
      the same registers ends in the same registers, and every temporary of the emitted
      code is written once, before it is read. */
  lemma TranslationPreservesMeaning(m: Machine, pc: string, ts: Program)
    requires Valid(m) && m.stack == [] && InFragment(m, pc, None, ts) && AllFit(m, Start(m, pc), None, ts)
    ensures forall w :: w in ts ==> Plain(w)
    ensures var code := TranslateAll(Start(m, pc), ts).code;
            && Exec(State(m.regs, map[]), code).regs == DoBlock(m, ts).m.regs
            && Numbered(code).Some?
  {
    FittingRun(m, State(m.regs, map[]), Start(m, pc), None, ts);
  }

  // ----- programs that always fit -----

  /** Every register and every temporary on the stack is 64 bits wide. */
  predicate Wide(t: Trans)
  {
    && (forall r :: r in t.sizes ==> t.sizes[r] == 64)
    && (forall i :: 0 <= i < |t.stack| && t.stack[i].Sized? ==> t.stack[i].a.size == 64)
  }

  /** Words that leave no one-bit temporary behind. */
  predicate WideToken(w: Token)
  {
    w.Operand? || (w.Cmd? && !w.op.Not? && !w.op.Compare?)
  }

  lemma WideWordFits(m: Machine, s0: State, t: Trans, known: Option<string>, op: Op)
    requires Valid(m) && Wf(t) && Agree(m, s0, t) && WordAllowed(m, t.pc, known, op) && Wide(t)
    ensures WordFits(m, t, known, op)
  {
    hide Exec, StackAgrees, Apply, ReadFlag, Pow2;
    SameHeight(m, s0, t);
    Pow2Is64();
    if op.Binary? {
      TopTwo(m, s0, t);
      WideOperand(m, s0, t, t.stack[|t.stack| - 1], FromTop(m, 1), |t.stack| - 1);
      WideOperand(m, s0, t, t.stack[|t.stack| - 2], FromTop(m, 2), |t.stack| - 2);
      assert MaxWidth(t) == 64;
    }
  }

  lemma WideTake(t: Trans, u: Trans, n: nat)
    requires Wide(t) && u.sizes == t.sizes && n <= |t.stack| && u.stack == t.stack[..n]
    ensures Wide(u)
  {
  }

  /** A word that leaves the rest of the stack and a 64-bit temporary. */
  lemma WideComputed(t: Trans, n: nat, op: Opcode, a0: Arg, a1: Arg, u: Trans)
    requires Wide(t) && n <= |t.stack| && op != Jump && u == Computed(t, t.stack[..n], op, a0, a1, 64)
    ensures Wide(u)
  {
  }

  lemma WidePush(m: Machine, s0: State, t: Trans, op: Op)
    requires Valid(m) && Wf(t) && Agree(m, s0, t) && Allowed(m, t.pc, op) && Wide(t)
    requires op.Binary? || op.Inc? || op.Dec?
    ensures Wide(Translate(t, op).t)
  {
    hide Exec, StackAgrees, BinaryOp, StepOp, Wide;
    var n := |m.stack|;
    if op.Binary? {
      TopTwo(m, s0, t);
      var x1, x2 := t.stack[n - 2], t.stack[n - 1];
      BinaryComputes(t, t.stack[..n - 2], x1, x2, Arith(op.b));
      WideOperand(m, s0, t, x1, m.stack[n - 2], n - 2);
      WideOperand(m, s0, t, x2, m.stack[n - 1], n - 1);
      WideComputed(t, n - 2, Arith(op.b), Resolve(t.sizes, x2), Resolve(t.sizes, x1), BinaryOp(t, Arith(op.b)).t);
    } else {
      TopOne(m, s0, t);
      var b, a := if op.Inc? then OpAdd else OpSub, Resolve(t.sizes, t.stack[n - 1]);
      StepComputes(t, t.stack[..n - 1], t.stack[n - 1], b);
      WideOperand(m, s0, t, t.stack[n - 1], m.stack[n - 1], n - 1);
      WideComputed(t, n - 1, Arith(b), a, ConstArg(1, 64), StepOp(t, b).t);
    }
  }

  lemma WideOperand(m: Machine, s0: State, t: Trans, x: Slot, e: Entry, i: nat)
    requires Valid(m) && t.sizes == m.sizes && Wide(t) && i < |t.stack| && t.stack[i] == x
    requires SlotAgrees(Now(s0, t), x, e) && IsOperand(m, e)
    ensures Resolve(t.sizes, x).size == 64
  {
  }

  lemma WideStore(m: Machine, s0: State, t: Trans, op: Op)
    requires Valid(m) && Wf(t) && Agree(m, s0, t) && Allowed(m, t.pc, op) && Wide(t)
    requires op.Update? || op.IncEq? || op.DecEq? || op.NotEq? || op.Assign?
    ensures Wide(Translate(t, op).t)
  {
    if op.Update? || op.Assign? {
      WideStoreTwo(m, s0, t, op);
    } else {
      WideStoreOne(m, s0, t, op);
    }
  }

  lemma WideStoreTwo(m: Machine, s0: State, t: Trans, op: Op)
    requires Valid(m) && Wf(t) && Agree(m, s0, t) && Allowed(m, t.pc, op) && Wide(t) && (op.Update? || op.Assign?)
    ensures Wide(Translate(t, op).t)
  {
    hide Exec, StackAgrees, UpdateOp, AssignOp, Wide, AllBelow;
    var n := |m.stack|;
    TopTwo(m, s0, t);
    SlotValue(m, Now(s0, t), t, t.stack[n - 2], m.stack[n - 2]);
    SlotValue(m, Now(s0, t), t, t.stack[n - 1], m.stack[n - 1]);
    if op.Update? {
      UpdateStores(s0, t, t.stack[..n - 2], t.stack[n - 2], t.stack[n - 1], op.b);
    } else {
      AssignStores(s0, t, t.stack[..n - 2], t.stack[n - 2], t.stack[n - 1]);
    }
    WideTake(t, Translate(t, op).t, n - 2);
  }

  lemma WideStoreOne(m: Machine, s0: State, t: Trans, op: Op)
    requires Valid(m) && Wf(t) && Agree(m, s0, t) && Allowed(m, t.pc, op) && Wide(t) && (op.IncEq? || op.DecEq? || op.NotEq?)
    ensures Wide(Translate(t, op).t)
  {
    hide Exec, StackAgrees, StepAssignOp, NotAssignOp, Wide, AllBelow;
    var n := |m.stack|;
    TopOne(m, s0, t);
    SlotValue(m, Now(s0, t), t, t.stack[n - 1], m.stack[n - 1]);
    if op.NotEq? {
      NotAssignStores(s0, t, t.stack[..n - 1], t.stack[n - 1]);
    } else {
      StepAssignStores(s0, t, t.stack[..n - 1], t.stack[n - 1], if op.IncEq? then OpAdd else OpSub);
    }
    WideTake(t, Translate(t, op).t, n - 1);
  }

  lemma WideFlag(m: Machine, s0: State, t: Trans, known: Option<string>)
    requires Valid(m) && Wf(t) && Agree(m, s0, t) && FlagCopy(m, t.pc, known) && Knows(m, s0, t, known) && Wide(t)
    ensures Wide(AssignOp(t).t)
  {
    hide Exec, StackAgrees, AssignOp, Wide, Source, SourceHolds, Computable, FlagsKnown;
    var n := |m.stack|;
    TopTwo(m, s0, t);
    SlotValue(m, Now(s0, t), t, t.stack[n - 1], m.stack[n - 1]);
    var rest, f := t.stack[..n - 2], m.stack[n - 2].flag;
    FlagsSurvive(m, m, s0, t, t.(stack := rest), known);
    FlagCodeAgrees(m, s0, t.(stack := rest), known.value, f);
    FlagStores(s0, t, rest, f, t.stack[n - 1], ReadFlag(m, f));
    WideTake(t, AssignOp(t).t, n - 2);
  }

  lemma WideMove(m: Machine, s0: State, t: Trans, op: Op)
    requires Agree(m, s0, t) && Allowed(m, t.pc, op) && Wide(t) && Moves(op)
    ensures Wide(Translate(t, op).t)
  {
    hide Exec;
  }

  lemma WideTokenStays(m: Machine, s0: State, t: Trans, known: Option<string>, w: Token)
    requires Valid(m) && Wf(t) && Agree(m, s0, t) && Knows(m, s0, t, known) && TokenAllowed(m, t.pc, known, w)
    requires Wide(t) && WideToken(w)
    ensures TokenFits(m, t, known, w) && Wide(TranslateToken(t, w).t)
  {
    hide Exec, StackAgrees, Wide, Translate, FlagsKnown, Agree, Wf, Valid, WordFits;
    SameHeight(m, s0, t);
    if w.Operand? {
      WidePushed(t, w.e);
    } else {
      WideWordFits(m, s0, t, known, w.op);
      if !Allowed(m, t.pc, w.op) {
        WideFlag(m, s0, t, known);
        FlagIsAssign(t, w.op);
      } else if Moves(w.op) {
        WideMove(m, s0, t, w.op);
      } else if w.op.Binary? || w.op.Inc? || w.op.Dec? {
        WidePush(m, s0, t, w.op);
      } else {
        WideStore(m, s0, t, w.op);
      }
    }
  }

  lemma FlagIsAssign(t: Trans, op: Op)
    ensures op.Assign? ==> Translate(t, op) == AssignOp(t)
  {
  }

  lemma WidePushed(t: Trans, e: Entry)
    requires Wide(t)
    ensures Wide(PushSlot(t, Raw(e)))
  {
  }

  /** With 64-bit registers only, and without the two words that leave one-bit results
      on the stack, everything fits. */
  lemma {:induction false} WideProgramsFit(m: Machine, s0: State, t: Trans, known: Option<string>, ts: Program)
    requires Valid(m) && Wf(t) && Agree(m, s0, t) && Knows(m, s0, t, known) && InFragment(m, t.pc, known, ts)
    requires Wide(t) && forall w :: w in ts ==> WideToken(w)
    ensures AllFit(m, t, known, ts)
    decreases |ts|
  {
    hide Exec, StackAgrees, Agree, Wf, Valid, Knows, TokenAllowed, TokenFits, DoPlain, TranslateToken, TrackToken, Wide;
    if ts != [] {
      assert ts[0] in ts;
      WideTokenStays(m, s0, t, known, ts[0]);
      TokenAgrees(m, s0, t, known, ts[0]);
      WideProgramsFit(DoPlain(m, ts[0]).m, s0, TranslateToken(t, ts[0]).t, TrackToken(known, m, ts[0]), ts[1..]);
    }
  }

  /** The sum of two one-bit results is one bit wide: 1 + 1 comes out as 0. */
  lemma OneBitSum(m: Machine, s0: State, t: Trans)
    requires Valid(m) && Wf(t) && Agree(m, s0, t) && |m.stack| >= 2
    requires FromTop(m, 1) == Num(1) && FromTop(m, 2) == Num(1) && WidthOf(t, 1) == 1 && WidthOf(t, 2) == 1
    ensures !Agree(Run(m, Binary(OpAdd)).m, s0, Translate(t, Binary(OpAdd)).t)
  {
    hide Exec, StackAgrees;
    BinaryAgrees(m, s0, t, OpAdd);
    assert Pow2(1) == 2;
  }

  lemma NotLeavesBit(m: Machine, t: Trans, es: seq<Entry>, rest: seq<Slot>, r: string)
    requires Valid(m) && m.stack == es + [Reg(r)] && r in m.regs && m.regs[r] == 0
    requires t.stack == rest + [Raw(Reg(r))] && |t.stack| <= t.limit
    ensures DoPlain(m, Cmd(Not)) == Outcome(true, m.(stack := es + [Num(1)]))
    ensures var u := TranslateToken(t, Cmd(Not)).t;
            u.stack == rest + [Sized(TempArg(t.next, 1))] && u.limit == t.limit
  {
    hide RunNot, NotOp;
    EsilNot(m, es, Reg(r));
    NotComputes(t, rest, Raw(Reg(r)));
  }

  lemma AfterFirst(m: Machine, s0: State, t: Trans, w: Token, ws: Program, m1: Machine, t1: Trans)
    requires Valid(m) && TokenTranslated(w) && (forall x :: x in [w] + ws ==> TokenTranslated(x))
    requires AgreeThroughout(m, s0, t, [w] + ws) && m1 == DoPlain(m, w).m && t1 == TranslateToken(t, w).t
    ensures AgreeThroughout(m1, s0, t1, ws)
  {
    hide DoPlain, TranslateToken, Agree;
    assert ([w] + ws)[0] == w && ([w] + ws)[1..] == ws;
  }

  /** Over the one-bit results of `!` a sum loses its carry: with both registers zero,
      this program pushes 2 and its translation 0. */
  lemma OneBitProgram(m: Machine, pc: string, a: string, b: string)
    requires Valid(m) && m.stack == [] && m.limit >= 2 && a in m.regs && b in m.regs && m.regs[a] == 0 && m.regs[b] == 0
    ensures var ts := [Operand(Reg(a)), Cmd(Not), Operand(Reg(b)), Cmd(Not), Cmd(Binary(OpAdd))];
            (forall w :: w in ts ==> TokenTranslated(w)) && !AgreeThroughout(m, State(m.regs, map[]), Start(m, pc), ts)
  {
    hide Exec, Agree, Valid, AgreeThroughout;
    var ts: Program := [Operand(Reg(a)), Cmd(Not), Operand(Reg(b)), Cmd(Not), Cmd(Binary(OpAdd))];
    OneBitRun(m, State(m.regs, map[]), Start(m, pc), a, b, ts);
  }

  lemma Pushed(m: Machine, t: Trans, e: Entry)
    requires Valid(m) && Room(m) && |t.stack| < t.limit
    ensures DoPlain(m, Operand(e)) == Outcome(true, m.(stack := m.stack + [e]))
    ensures TranslateToken(t, Operand(e)).t == t.(stack := t.stack + [Raw(e)])
  {
  }

  /** Pushing the negation of a zero register: a one-bit temporary for the number 1. */
  lemma PushNegation(m: Machine, s0: State, t: Trans, r: string, ws: Program) returns (m2: Machine, t2: Trans)
    requires Valid(m) && |m.stack| < m.limit && r in m.regs && m.regs[r] == 0 && |t.stack| == |m.stack| && t.limit == m.limit
    requires forall w :: w in [Operand(Reg(r))] + ([Cmd(Not)] + ws) ==> TokenTranslated(w)
    requires Wf(t) && AgreeThroughout(m, s0, t, [Operand(Reg(r))] + ([Cmd(Not)] + ws))
    ensures m2 == m.(stack := m.stack + [Num(1)]) && Valid(m2)
    ensures t2.stack == t.stack + [Sized(TempArg(t.next, 1))] && t2.limit == t.limit && Wf(t2)
    ensures AgreeThroughout(m2, s0, t2, ws)
  {
    hide Exec, Agree, DoPlain, TranslateToken, AgreeThroughout, Valid, Wf;
    Pushed(m, t, Reg(r));
    var m1, t1 := DoPlain(m, Operand(Reg(r))).m, TranslateToken(t, Operand(Reg(r))).t;
    AfterFirst(m, s0, t, Operand(Reg(r)), [Cmd(Not)] + ws, m1, t1);
    NotLeavesBit(m1, t1, m.stack, t.stack, r);
    m2, t2 := DoPlain(m1, Cmd(Not)).m, TranslateToken(t1, Cmd(Not)).t;
    AfterFirst(m1, s0, t1, Cmd(Not), ws, m2, t2);
    NotKeepsOrder(t, t1, Reg(r));
  }

  lemma NotKeepsOrder(t: Trans, t1: Trans, e: Entry)
    requires Wf(t) && |t.stack| < t.limit && t1 == t.(stack := t.stack + [Raw(e)])
    ensures Wf(t1) && Wf(TranslateToken(t1, Cmd(Not)).t)
  {
    assert PushSlot(t, Raw(e)) == t1;
    assert TranslateToken(t1, Cmd(Not)) == NotOp(t1);
  }

  lemma OneBitRun(m: Machine, s0: State, t: Trans, a: string, b: string, ts: Program)
    requires Valid(m) && m.stack == [] && m.limit >= 2 && a in m.regs && b in m.regs && m.regs[a] == 0 && m.regs[b] == 0
    requires t.stack == [] && t.limit == m.limit && Wf(t)
    requires ts == [Operand(Reg(a)), Cmd(Not), Operand(Reg(b)), Cmd(Not), Cmd(Binary(OpAdd))]
    ensures !AgreeThroughout(m, s0, t, ts)
  {
    hide Exec, Agree, DoPlain, TranslateToken, AgreeThroughout, Valid, Wf, TokenTranslated;
    var ts2: Program, ts4: Program := ts[2..], ts[4..];
    if AgreeThroughout(m, s0, t, ts) {
      assert ts == [Operand(Reg(a))] + ([Cmd(Not)] + ts2);
      assert ts2 == [Operand(Reg(b))] + ([Cmd(Not)] + ts4);
      var m2, t2 := PushNegation(m, s0, t, a, ts2);
      var m4, t4 := PushNegation(m2, s0, t2, b, ts4);
      LastSum(m4, s0, t4, ts4);
      assert false;
    }
  }

  lemma LastSum(m: Machine, s0: State, t: Trans, ts: Program)
    requires Valid(m) && |m.stack| >= 2 && |t.stack| == |m.stack|
    requires FromTop(m, 1) == Num(1) && FromTop(m, 2) == Num(1) && WidthOf(t, 1) == 1 && WidthOf(t, 2) == 1
    requires Wf(t) && ts == [Cmd(Binary(OpAdd))]
    ensures !AgreeThroughout(m, s0, t, ts)
  {
    hide Exec, Agree, DoPlain, TranslateToken, Valid, Wf;
    if AgreeThroughout(m, s0, t, ts) {
      assert ts == [Cmd(Binary(OpAdd))] + [];
      AfterFirst(m, s0, t, Cmd(Binary(OpAdd)), [], DoPlain(m, Cmd(Binary(OpAdd))).m, TranslateToken(t, Cmd(Binary(OpAdd))).t);
      OneBitSum(m, s0, t);
      SumToken(m, t);
      assert false;
    }
  }

  lemma SumToken(m: Machine, t: Trans)
    requires Valid(m)
    ensures DoPlain(m, Cmd(Binary(OpAdd))) == Run(m, Binary(OpAdd))
    ensures TranslateToken(t, Cmd(Binary(OpAdd))) == Translate(t, Binary(OpAdd))
  {
    hide Run, Translate;
  }

  // ----- the emitted flags against arithmetic -----

  /** After a translated `+=` the code for a carry flag computes the carry of the sum. */
  lemma CarryCodeIsCarry(m: Machine, s0: State, t: Trans, k: CarryBit)
    requires Valid(m) && Wf(t) && Agree(m, s0, t) && Allowed(m, t.pc, Update(OpAdd)) && Fits(m, t, Update(OpAdd))
    requires k < m.sizes[FromTop(m, 1).name] && |m.stack| + 1 <= m.limit
    ensures var d, s, u := ValueOf(m, FromTop(m, 1)), ValueOf(m, FromTop(m, 2)), UpdateOp(t, OpAdd).t;
            SourceHolds(s0, u, Source(u, FlagArg(Carry(k), 0)), Bit(d % Pow2(k + 1) + s % Pow2(k + 1) >= Pow2(k + 1)))
  {
    hide Exec, StackAgrees, UpdateOp, RunUpdate, FlagsKnown, SourceHolds, CarryCheck, Source, Agree;
    var d, s, u, o := ValueOf(m, FromTop(m, 1)), ValueOf(m, FromTop(m, 2)), UpdateOp(t, OpAdd).t, RunUpdate(m, OpAdd).m;
    UpdateAgrees(m, s0, t, OpAdd);
    UpdateLeaves(m, OpAdd);
    AgreeParts(o, s0, u);
    FlagCodeAgrees(o, s0, u, FromTop(m, 1).name, Carry(k));
    CarryAfterAdd(d, s, k);
  }

  /** After a translated `-=` the code for a borrow flag computes the borrow of the low
      bits, up to the one that the flag's number is masked to. */
  lemma BorrowCodeIsBorrow(m: Machine, s0: State, t: Trans, b: nat)
    requires Valid(m) && Wf(t) && Agree(m, s0, t) && Allowed(m, t.pc, Update(OpSub)) && Fits(m, t, Update(OpSub))
    requires BorrowBit(b) < m.sizes[FromTop(m, 1).name] && |m.stack| + 1 <= m.limit
    ensures var d, s, u := ValueOf(m, FromTop(m, 1)), ValueOf(m, FromTop(m, 2)), UpdateOp(t, OpSub).t;
            var n := BorrowBit(b) + 1;
            SourceHolds(s0, u, Source(u, FlagArg(Borrow(b), 0)), Bit(d % Pow2(n) < s % Pow2(n)))
  {
    hide BorrowBit, Exec, StackAgrees, UpdateOp, RunUpdate, FlagsKnown, SourceHolds, BorrowCheck, Source, Agree;
    var d, s, u, o := ValueOf(m, FromTop(m, 1)), ValueOf(m, FromTop(m, 2)), UpdateOp(t, OpSub).t, RunUpdate(m, OpSub).m;
    UpdateAgrees(m, s0, t, OpSub);
    UpdateLeaves(m, OpSub);
    AgreeParts(o, s0, u);
    FlagCodeAgrees(o, s0, u, FromTop(m, 1).name, Borrow(b));
    BorrowAfterSub(d, s, b);
  }

  lemma AgreeParts(o: Machine, s0: State, u: Trans)
    requires Agree(o, s0, u)
    ensures |u.stack| == |o.stack| && u.limit == o.limit && u.sizes == o.sizes && Now(s0, u).regs == o.regs
  {
  }

  lemma UpdateLeaves(m: Machine, b: BinOp)
    requires Valid(m) && |m.stack| >= 2 && IsOperand(m, FromTop(m, 2)) && Defined(b, ValueOf(m, FromTop(m, 2)))
    requires FromTop(m, 1).Reg? && FromTop(m, 1).name in m.regs
    ensures var o := RunUpdate(m, b).m;
            && o.sizes == m.sizes && o.limit == m.limit && |o.stack| + 2 == |m.stack|
            && o.prev == ValueOf(m, FromTop(m, 1)) && o.cur == Apply(b, ValueOf(m, FromTop(m, 1)), ValueOf(m, FromTop(m, 2)))
  {
    hide RunUpdate, Apply;
    var n := |m.stack|;
    assert m.stack == m.stack[..n - 2] + [m.stack[n - 2], m.stack[n - 1]];
    EsilUpdate(m, m.stack[..n - 2], m.stack[n - 2], m.stack[n - 1], b);
  }

  /** On a full stack the translation of `++` and `--` loses an entry, as the second of
      its two pushes is dropped; ESIL itself needs no spare slot. */
  lemma StepNeedsRoom(m: Machine, s0: State, t: Trans, b: BinOp)
    requires Valid(m) && Wf(t) && Agree(m, s0, t) && (b == OpAdd || b == OpSub)
    requires |m.stack| >= 1 && IsOperand(m, FromTop(m, 1)) && !Room(m)
    ensures RunStep(m, b).ok && !Agree(RunStep(m, b).m, s0, StepOp(t, b).t)
  {
    hide StepOp, RunStep, Exec;
    var n := |m.stack|;
    assert m.stack == m.stack[..n - 1] + [m.stack[n - 1]];
    EsilStep(m, m.stack[..n - 1], m.stack[n - 1], b);
  }

  // ----- full stacks -----

  /** An operation on the two top entries of the stack. */
  lemma BinaryStack(t: Trans, rest: seq<Slot>, x1: Slot, x2: Slot, op: Opcode)
    requires op != Jump && t.stack == rest + [x1, x2] && |t.stack| <= t.limit
    ensures var r := BinaryOp(t, op);
            && r.ok && |r.t.stack| == |rest| + 1 && r.t.stack[..|rest|] == rest && r.t.limit == t.limit
            && r.t.stack[|rest|].Sized? && r.t.stack[|rest|].a.TempArg?
  {
    hide EmitTemp, BinaryOp;
    BinaryComputes(t, rest, x1, x2, op);
    SameLimit(t, op, Resolve(t.sizes, x2), Resolve(t.sizes, x1), if op == Less then 1 else Wider(Resolve(t.sizes, x2), Resolve(t.sizes, x1)));
  }

  lemma SameLimit(t: Trans, op: Opcode, a0: Arg, a1: Arg, size: nat)
    requires op != Jump
    ensures EmitTemp(t, op, a0, a1, size).limit == t.limit
  {
  }

  /** With a full stack the second operand of a one-operand word is dropped, and the entry
      below is taken for it. */
  lemma StepOnFull(t: Trans, rest: seq<Slot>, x: Slot, b: BinOp)
    requires t.stack == rest + [x] && |t.stack| == t.limit
    ensures rest == [] ==> StepOp(t, b) == Result(true, t.(stack := []))
    ensures rest != [] ==>
      var u := StepOp(t, b).t;
      && |u.stack| == |rest| && u.limit == t.limit && u.stack[..|rest| - 1] == rest[..|rest| - 1]
      && u.stack[|rest| - 1].Sized? && u.stack[|rest| - 1].a.TempArg?
  {
    hide BinaryOp;
    PopLast(t, rest, x);
    var u := PushConst(t.(stack := rest), 1);
    assert u.stack == rest + [Raw(Num(1))];
    assert PushArg(u, Resolve(t.sizes, x)) == u;
    if rest != [] {
      var y := rest[|rest| - 1];
      assert u.stack == rest[..|rest| - 1] + [y, Raw(Num(1))];
      BinaryStack(u, rest[..|rest| - 1], y, Raw(Num(1)), Arith(b));
    } else {
      BinaryOnOne(u, Raw(Num(1)), Arith(b));
    }
  }

  lemma BinaryOnOne(t: Trans, x: Slot, op: Opcode)
    requires op != Jump && t.stack == [x]
    ensures BinaryOp(t, op) == Result(false, t.(stack := []))
  {
    PopLast(t, [], x);
  }

  /** An assignment takes both operands. */
  lemma AssignTakesTwo(t: Trans, rest: seq<Slot>, x1: Slot, x2: Slot)
    requires t.stack == rest + [x1, x2] && |rest| < t.limit && !Resolve(t.sizes, x1).FlagArg?
    ensures AssignOp(t).t.stack == rest
  {
    hide Move, Source, SaveDst;
    assert t.stack == (rest + [x1]) + [x2];
    PopLast(t, rest + [x1], x2);
    PopLast(t.(stack := rest + [x1]), rest, x1);
    var src, dst := Resolve(t.sizes, x1), Resolve(t.sizes, x2);
    SourceKeepsStack(t.(stack := rest), src);
    var p := Source(t.(stack := rest), src);
    SaveKeepsStack(p.t, dst);
    MoveKeepsStack(p.t, p.a.value, dst);
    MoveKeepsStack(SaveDst(p.t, dst), p.a.value, dst);
  }

  lemma SourceKeepsStack(t: Trans, src: Arg)
    requires |t.stack| < t.limit && !src.FlagArg?
    ensures var p := Source(t, src); p.a.Some? && p.t.stack == t.stack && p.t.limit == t.limit
  {
    if src.RegArg? {
      var a := TempArg(t.next, src.size);
      PopLast(PushArg(EmitTemp(t, Store, src, NoArg(0), src.size), a), t.stack, Sized(a));
    }
  }

  lemma SaveKeepsStack(t: Trans, dst: Arg)
    ensures SaveDst(t, dst).stack == t.stack && SaveDst(t, dst).limit == t.limit
  {
  }

  lemma MoveKeepsStack(t: Trans, src: Arg, dst: Arg)
    requires |t.stack| < t.limit
    ensures Move(t, src, dst).t.stack == t.stack
  {
    PopLast(PushArg(t, ConstArg(1, 1)), t.stack, Sized(ConstArg(1, 1)));
    PopLast(PushArg(t, src), t.stack, Sized(src));
    var u, a := EmitTemp(t, Arith(OpOr), src, ConstArg(0, dst.size), dst.size), TempArg(t.next, dst.size);
    PopLast(PushArg(u, a), t.stack, Sized(a));
  }

  lemma AssignTakesOne(t: Trans, x: Slot)
    requires t.stack == [x]
    ensures AssignOp(t) == Result(false, t.(stack := []))
  {
    PopLast(t, [], x);
  }

  /** An assigning one-operand word on a full stack. */
  lemma StepAssignOnFull(t: Trans, rest: seq<Slot>, x: Slot, b: BinOp)
    requires t.stack == rest + [x] && |t.stack| == t.limit
    ensures rest == [] ==> StepAssignOp(t, b).t == t.(stack := [])
    ensures rest != [] ==> |StepAssignOp(t, b).t.stack| == |rest| - 1
  {
    hide StepOp, AssignOp;
    PopLast(t, rest, x);
    var a := Resolve(t.sizes, x);
    var q := PushArg(t.(stack := rest), a);
    assert q.stack == rest + [Sized(a)];
    StepOnFull(q, rest, Sized(a), b);
    var u := StepOp(q, b).t;
    if rest == [] {
      assert PushArg(u, a).stack == [Sized(a)];
      AssignTakesOne(PushArg(u, a), Sized(a));
    } else {
      assert PushArg(u, a).stack == u.stack[..|rest| - 1] + [u.stack[|rest| - 1], Sized(a)];
      AssignTakesTwo(PushArg(u, a), u.stack[..|rest| - 1], u.stack[|rest| - 1], Sized(a));
    }
  }

  lemma NotAssignOnFull(t: Trans, rest: seq<Slot>, x: Slot)
    requires t.stack == rest + [x] && |t.stack| == t.limit
    requires rest != [] ==> !Resolve(t.sizes, rest[|rest| - 1]).FlagArg?
    ensures rest == [] ==>
      var a := Resolve(t.sizes, x);
      var zero := ConstArg(0, if a.size < 64 then a.size else 64);
      NotAssignOp(t).t == Computed(t.(stack := [Sized(a)]), [], Equal, a, zero, 1).(stack := [])
    ensures rest != [] ==> |NotAssignOp(t).t.stack| == |rest| - 1
  {
    hide NotOp, AssignOp;
    PopLast(t, rest, x);
    var a := Resolve(t.sizes, x);
    var q := PushArg(t.(stack := rest), a);
    assert q.stack == rest + [Sized(a)];
    NotComputes(q, rest, Sized(a));
    var u := NotOp(q).t;
    assert PushArg(u, a) == u;
    if rest == [] {
      AssignTakesOne(u, u.stack[0]);
    } else {
      assert u.stack == rest[..|rest| - 1] + [rest[|rest| - 1], u.stack[|rest|]];
      AssignTakesTwo(u, rest[..|rest| - 1], rest[|rest| - 1], u.stack[|rest|]);
    }
  }

  /** On a full stack the translation of `++=` and `--=` takes another entry for one, or
      assigns nothing. */
  lemma StepAssignNeedsRoom(m: Machine, s0: State, t: Trans, b: BinOp)
    requires Valid(m) && Wf(t) && Agree(m, s0, t) && (b == OpAdd || b == OpSub)
    requires |m.stack| >= 1 && Target(m, t.pc, FromTop(m, 1)) && !Room(m)
    ensures var o, e := RunStepEq(m, b), FromTop(m, 1);
            && o.ok
            && (Agree(o.m, s0, StepAssignOp(t, b).t) <==>
                 |m.stack| == 1 && Fit(Apply(b, ValueOf(m, e), 1), m.sizes[e.name]) == m.regs[e.name])
  {
    hide RunStepEq, Exec, Apply, Fit, StepAssignOp, StackAgrees, AllBelow;
    var n := |m.stack|;
    TopOne(m, s0, t);
    assert m.stack == m.stack[..n - 1] + [m.stack[n - 1]];
    EsilStepEq(m, m.stack[..n - 1], m.stack[n - 1], b);
    StepAssignOnFull(t, t.stack[..n - 1], t.stack[n - 1], b);
    SameHeight(RunStepEq(m, b).m, s0, StepAssignOp(t, b).t);
    if n == 1 {
      NothingAssigned(m, s0, t, RunStepEq(m, b).m, FromTop(m, 1).name, Fit(Apply(b, ValueOf(m, FromTop(m, 1)), 1), m.sizes[FromTop(m, 1).name]));
    }
  }

  /** With the operands gone and nothing emitted, agreement means that ESIL's assignment
      changed nothing. */
  lemma NothingAssigned(m: Machine, s0: State, t: Trans, o: Machine, name: string, v: Word)
    requires Agree(m, s0, t) && name in m.regs && o.regs == m.regs[name := v]
    requires o.stack == [] && o.sizes == m.sizes && o.limit == m.limit
    ensures Agree(o, s0, t.(stack := [])) <==> v == m.regs[name]
  {
    hide Exec;
    if v == m.regs[name] {
      assert o.regs == m.regs;
    } else {
      assert o.regs[name] != m.regs[name];
    }
  }

  /** The same for `!=`. */
  lemma NotAssignNeedsRoom(m: Machine, s0: State, t: Trans)
    requires Valid(m) && Wf(t) && Agree(m, s0, t)
    requires |m.stack| >= 1 && Target(m, t.pc, FromTop(m, 1)) && !Room(m) && (|m.stack| > 1 ==> IsOperand(m, FromTop(m, 2)))
    ensures RunNotEq(m).ok && !Agree(RunNotEq(m).m, s0, NotAssignOp(t).t)
  {
    hide RunNotEq, Exec, Fit, NotAssignOp, StackAgrees, AllBelow;
    var n := |m.stack|;
    TopOne(m, s0, t);
    assert m.stack == m.stack[..n - 1] + [m.stack[n - 1]];
    EsilNotEq(m, m.stack[..n - 1], m.stack[n - 1]);
    SameHeight(RunNotEq(m).m, s0, NotAssignOp(t).t);
    if n > 1 {
      SecondIsNoFlag(m, s0, t);
      NotAssignOnFull(t, t.stack[..n - 1], t.stack[n - 1]);
    } else {
      NotAssignOnOne(m, s0, t);
    }
  }

  lemma NotAssignOnOne(m: Machine, s0: State, t: Trans)
    requires Valid(m) && Wf(t) && Agree(m, s0, t) && |m.stack| == 1 && Target(m, t.pc, FromTop(m, 1)) && !Room(m)
    ensures RunNotEq(m).ok && !Agree(RunNotEq(m).m, s0, NotAssignOp(t).t)
  {
    hide RunNotEq, Exec, NotAssignOp, StackAgrees, AllBelow, Computed;
    TopOne(m, s0, t);
    assert m.stack == [] + [m.stack[0]] && t.stack == [] + [t.stack[0]];
    EsilNotEq(m, [], m.stack[0]);
    NotAssignOnFull(t, [], t.stack[0]);
    var a := Resolve(t.sizes, t.stack[0]);
    ComputedEffect(s0, t.(stack := [Sized(a)]), [], Equal, a, ConstArg(0, if a.size < 64 then a.size else 64), 1);
    var name := m.stack[0].name;
    NotChanges(m.regs[name], m.sizes[name]);
    assert RunNotEq(m).m.regs[name] != m.regs[name];
  }

  lemma NotChanges(v: Word, size: nat)
    requires 1 <= size <= 64
    ensures Fit(IsZero(v), size) != v
  {
    Pow2Monotone(1, size);
  }

  lemma SecondIsNoFlag(m: Machine, s0: State, t: Trans)
    requires Valid(m) && Wf(t) && Agree(m, s0, t) && |m.stack| >= 2 && IsOperand(m, FromTop(m, 2))
    ensures !Resolve(t.sizes, t.stack[..|m.stack| - 1][|m.stack| - 2]).FlagArg?
  {
    hide Exec;
    TopTwo(m, s0, t);
  }

  /** With two slots left, the pair of masked values becomes one. */
  lemma MaskedOnFull(t: Trans, rest: seq<Slot>, x: Slot)
    requires t.stack == rest + [x] && |rest| + 2 == t.limit
    ensures var u := MaskedPair(t); |u.stack| == |rest| + 1 && u.stack[..|rest|] == rest && u.limit == t.limit
  {
    hide BinaryOp, StepOp, Computed;
    var t1 := PushConst(t, 2);
    assert t1.stack == rest + [x, Raw(Num(2))];
    BinaryStack(t1, rest, x, Raw(Num(2)), Arith(OpShl));
    var t2 := BinaryOp(t1, Arith(OpShl)).t;
    assert t2.stack == rest + [t2.stack[|rest|]];
    StepComputes(t2, rest, t2.stack[|rest|], OpSub);
    ComputedStack(t2, rest, Resolve(t2.sizes, t2.stack[|rest|]));
    var t3 := MaskCode(t);
    PopLast(t3, rest, t3.stack[|rest|]);
    MaskOperands(t3.(stack := rest), rest, t3.stack[|rest|].a);
  }

  lemma ComputedStack(t: Trans, rest: seq<Slot>, a: Arg)
    ensures var u := Computed(t, rest, Arith(OpSub), a, ConstArg(1, 64), Wider(a, ConstArg(1, 64)));
            |u.stack| == |rest| + 1 && u.stack == rest + [u.stack[|rest|]] && u.stack[|rest|].Sized? && u.limit == t.limit
  {
  }

  lemma MaskOperands(t: Trans, rest: seq<Slot>, a: Arg)
    requires t.stack == rest && |rest| + 2 == t.limit
    ensures var t1 := BinaryOp(PushArg(PushSlot(t, t.prior), a), Arith(OpAnd)).t;
            var u := BinaryOp(PushArg(PushSlot(t1, t1.cur), a), Arith(OpAnd)).t;
            |u.stack| == |rest| + 1 && u.stack[..|rest|] == rest && u.limit == t.limit
  {
    hide BinaryOp;
    var q := PushArg(PushSlot(t, t.prior), a);
    assert q.stack == rest + [t.prior, Sized(a)];
    BinaryStack(q, rest, t.prior, Sized(a), Arith(OpAnd));
    var t1 := BinaryOp(q, Arith(OpAnd)).t;
    var r := PushSlot(t1, t1.cur);
    assert r.stack == rest + [t1.stack[|rest|], t1.cur] && PushArg(r, a) == r;
    BinaryStack(r, rest, t1.stack[|rest|], t1.cur, Arith(OpAnd));
  }

  /** A constant combined with the top of the stack. */
  lemma ConstantStack(t: Trans, rest: seq<Slot>, n: Word, op: Opcode)
    requires op != Jump && |t.stack| == |rest| + 1 && t.stack[..|rest|] == rest && |rest| + 2 <= t.limit
    ensures var u := BinaryOp(PushConst(t, n), op).t; |u.stack| == |rest| + 1 && u.stack[..|rest|] == rest && u.limit == t.limit
  {
    hide BinaryOp;
    assert PushConst(t, n).stack == rest + [t.stack[|rest|], Raw(Num(n))];
    BinaryStack(PushConst(t, n), rest, t.stack[|rest|], Raw(Num(n)), op);
  }

  /** What the code for a borrow or carry leaves on the stack then: it takes an entry. */
  lemma FlagCodeOnFull(t: Trans, f: Flag)
    requires |t.stack| + 2 == t.limit && (f.Carry? || f.Borrow?)
    ensures var u := FlagCode(t, f); |u.stack| == |t.stack| && u.limit == t.limit
  {
    hide BinaryOp, MaskedPair;
    var rest := t.stack;
    match f
    case Carry(bit) =>
      ConstantStack(PushConst(t, ByteWord(bit)), rest, 0x3f, Arith(OpAnd));
      var t1 := MaskBit(PushConst(t, ByteWord(bit)));
      MaskedOnFull(t1, rest, t1.stack[|rest|]);
      LessOnFull(MaskedPair(t1), rest);
    case Borrow(bit) =>
      ConstantStack(PushConst(t, ByteWord(bit)), rest, 0x3f, Arith(OpAnd));
      var t1 := MaskBit(PushConst(t, ByteWord(bit)));
      ConstantStack(t1, rest, 0x3f, Arith(OpAdd));
      var t2 := BinaryOp(PushConst(t1, 0x3f), Arith(OpAdd)).t;
      ConstantStack(t2, rest, 0x3f, Arith(OpAnd));
      var t3 := MaskBit(t2);
      MaskedOnFull(t3, rest, t3.stack[|rest|]);
      LessOnFull(MaskedPair(t3), rest);
  }

  lemma LessOnFull(t: Trans, rest: seq<Slot>)
    requires |t.stack| == |rest| + 1 && t.stack[..|rest|] == rest && |t.stack| < t.limit
    ensures var u := BinaryOp(t, Less).t; |u.stack| == |rest| && u.limit == t.limit
    ensures var u := GreaterOp(t).t; |u.stack| == |rest| && u.limit == t.limit
  {
    hide BinaryOp;
    var x, n := t.stack[|rest|], |rest|;
    assert t.stack == rest + [x];
    PopLast(t, rest, x);
    if n == 0 {
      BinaryOnOne(t, x, Less);
    } else {
      var y := rest[n - 1];
      assert t.stack == rest[..n - 1] + [y, x] && rest == rest[..n - 1] + [y];
      BinaryStack(t, rest[..n - 1], y, x, Less);
      PopLast(t.(stack := rest), rest[..n - 1], y);
      var a2, a1 := Resolve(t.sizes, x), Resolve(t.sizes, y);
      var q := PushArg(PushArg(t.(stack := rest[..n - 1]), a2), a1);
      assert q.stack == rest[..n - 1] + [Sized(a2), Sized(a1)];
      BinaryStack(q, rest[..n - 1], Sized(a2), Sized(a1), Less);
    }
  }

  /** On a full stack, copying a carry or borrow flag takes an entry too many, or fails. */
  lemma FlagNeedsRoom(m: Machine, s0: State, t: Trans)
    requires Valid(m) && Wf(t) && Agree(m, s0, t) && |m.stack| >= 2 && !Room(m)
    requires Target(m, t.pc, FromTop(m, 1)) && FromTop(m, 2).Internal? && (FromTop(m, 2).flag.Carry? || FromTop(m, 2).flag.Borrow?)
    ensures RunAssign(m).ok && !(AssignOp(t).ok && Agree(RunAssign(m).m, s0, AssignOp(t).t))
  {
    hide RunAssign, Exec, Fit, ReadFlag, StackAgrees, AllBelow, FlagCode, Move;
    var n := |m.stack|;
    TopTwo(m, s0, t);
    var es, rest, f := m.stack[..n - 2], t.stack[..n - 2], m.stack[n - 2].flag;
    EsilFlagAssign(m, es, f, m.stack[n - 1]);
    assert t.stack == (rest + [t.stack[n - 2]]) + [t.stack[n - 1]];
    PopLast(t, rest + [t.stack[n - 2]], t.stack[n - 1]);
    PopLast(t.(stack := rest + [t.stack[n - 2]]), rest, t.stack[n - 2]);
    var t1 := t.(stack := rest);
    FlagCodeOnFull(t1, f);
    if n > 2 {
      var p := PopArg(FlagCode(t1, f));
      MoveKeepsStack(p.t, p.a.value, Resolve(t.sizes, t.stack[n - 1]));
    }
    SameHeight(RunAssign(m).m, s0, AssignOp(t).t);
  }
}
