/** REIL: three-address code over registers and numbered temporaries, what it computes,
    and the discipline its temporaries obey. */
module Reil {
  import opened Words
  import opened Wrappers
  import opened EsilMachine

  datatype Arg =
    | RegArg(name: string, size: nat)
    | TempArg(id: nat, size: nat)
    | ConstArg(n: Word, size: nat)
    | FlagArg(flag: Flag, size: nat)
    | NoArg(size: nat)

  datatype Opcode = Store | Arith(b: BinOp) | Equal | Less | Jump

  datatype Inst = Inst(op: Opcode, a0: Arg, a1: Arg, a2: Arg)

  // ----- meaning -----

  datatype State = State(regs: map<string, Word>, temps: map<nat, Word>)

  function TempAt(s: State, i: nat): Word
  {
    if i in s.temps then s.temps[i] else 0
  }

  /** Operands are zero-extended to 64 bits. */
  function Read(s: State, a: Arg): Word
  {
    match a
    case RegArg(r, _) => if r in s.regs then s.regs[r] else 0
    case TempArg(i, _) => TempAt(s, i)
    case ConstArg(n, _) => n
    case FlagArg(_, _) => 0
    case NoArg(_) => 0
  }

  /** Comparisons are unsigned. */
  function Compute(op: Opcode, x: Word, y: Word): Word
  {
    match op
    case Store => x
    case Arith(b) => if Divides(b) && y == 0 then 0 else Apply(b, x, y)
    case Equal => if x == y then 1 else 0
    case Less => if x < y then 1 else 0
    case Jump => 0
  }

  /** Results are truncated to the size of their destination. */
  function Truncate(v: Word, size: nat): (r: Word)
    ensures r < Pow2(size)
  {
    RemainderBelow(v, Pow2(size));
    v % Pow2(size)
  }

  function Write(s: State, a: Arg, v: Word): State
  {
    match a
    case RegArg(r, size) => if r in s.regs then s.(regs := s.regs[r := Truncate(v, size)]) else s
    case TempArg(i, size) => s.(temps := s.temps[i := Truncate(v, size)])
    case _ => s
  }

  function Effect(s: State, i: Inst): State
  {
    if i.op == Jump then s else Write(s, i.a2, Compute(i.op, Read(s, i.a0), Read(s, i.a1)))
  }

  /** Where an instruction takes the program, if it does: a jump whose condition is not
      zero. */
  function JumpsTo(s: State, i: Inst): Option<Word>
  {
    if i.op == Jump && Read(s, i.a0) != 0 then Some(Read(s, i.a2)) else None
  }

  function Exec(s: State, code: seq<Inst>): State
  {
    if code == [] then s else Effect(Exec(s, code[..|code| - 1]), code[|code| - 1])
  }

  lemma ExecAppend(s: State, code: seq<Inst>, i: Inst)
    ensures Exec(s, code + [i]) == Effect(Exec(s, code), i)
  {
    assert (code + [i])[..|code|] == code;
  }

  // ----- temporaries -----

  /** The argument names no temporary from n on. */
  predicate Below(a: Arg, n: nat)
  {
    a.TempArg? ==> a.id < n
  }

  predicate Reads(i: Inst, id: nat)
  {
    (i.a0.TempArg? && i.a0.id == id) || (i.a1.TempArg? && i.a1.id == id) || (i.op == Jump && i.a2.TempArg? && i.a2.id == id)
  }

  predicate Writes(i: Inst, id: nat)
  {
    i.op != Jump && i.a2.TempArg? && i.a2.id == id
  }

  /** The number of temporaries that the code writes, if it is numbered in order: each
      instruction reads temporaries already written and writes at most the next one. */
  function Numbered(code: seq<Inst>): Option<nat>
  {
    if code == [] then Some(0)
    else
      var n, i := Numbered(code[..|code| - 1]), code[|code| - 1];
      if n.None? || !Below(i.a0, n.value) || !Below(i.a1, n.value) then None
      else if i.op == Jump then (if Below(i.a2, n.value) then n else None)
      else if !i.a2.TempArg? then n
      else if i.a2.id == n.value then Some(n.value + 1) else None
  }

  lemma NumberedAppend(code: seq<Inst>, i: Inst, n: nat)
    requires Numbered(code) == Some(n) && Below(i.a0, n) && Below(i.a1, n)
    ensures i.op != Jump && i.a2.TempArg? && i.a2.id == n ==> Numbered(code + [i]) == Some(n + 1)
    ensures i.op != Jump && !i.a2.TempArg? ==> Numbered(code + [i]) == Some(n)
    ensures i.op == Jump && Below(i.a2, n) ==> Numbered(code + [i]) == Some(n)
  {
    assert (code + [i])[..|code|] == code;
  }

  lemma {:induction false} NumberedPrefix(code: seq<Inst>, k: nat)
    requires Numbered(code).Some? && k <= |code|
    ensures Numbered(code[..k]).Some? && Numbered(code[..k]).value <= Numbered(code).value
    decreases |code|
  {
    if k == |code| {
      assert code[..k] == code;
    } else {
      var init := code[..|code| - 1];
      assert init[..k] == code[..k];
      NumberedPrefix(init, k);
    }
  }

  lemma NumberedAt(code: seq<Inst>, k: nat)
    requires Numbered(code).Some? && k < |code|
    ensures Numbered(code[..k]).Some? && Numbered(code[..k + 1]).Some?
    ensures var n, i := Numbered(code[..k]).value, code[k];
            && Below(i.a0, n) && Below(i.a1, n) && (i.op == Jump ==> Below(i.a2, n))
            && (i.op != Jump && i.a2.TempArg? ==> i.a2.id == n && Numbered(code[..k + 1]).value == n + 1)
            && (i.op == Jump || !i.a2.TempArg? ==> Numbered(code[..k + 1]).value == n)
  {
    NumberedPrefix(code, k);
    NumberedPrefix(code, k + 1);
    assert code[..k + 1][..k] == code[..k];
  }

  /** The instruction that writes a temporary below the count. */
  lemma {:induction false} Writer(code: seq<Inst>, id: nat) returns (k: nat)
    requires Numbered(code).Some? && id < Numbered(code).value
    ensures k < |code| && Writes(code[k], id)
    decreases |code|
  {
    var init := code[..|code| - 1];
    if id < Numbered(init).value {
      k := Writer(init, id);
    } else {
      k := |code| - 1;
    }
  }

  /** In numbered code every temporary is written once, and before it is read. */
  lemma WrittenOnceBeforeRead(code: seq<Inst>, j: nat, id: nat)
    requires Numbered(code).Some? && j < |code|
    ensures Reads(code[j], id) ==> exists k :: 0 <= k < j && Writes(code[k], id)
    ensures Writes(code[j], id) ==> forall k :: 0 <= k < |code| && Writes(code[k], id) ==> k == j
  {
    NumberedAt(code, j);
    if Reads(code[j], id) {
      var k := Writer(code[..j], id);
      assert Writes(code[k], id);
    }
    if Writes(code[j], id) {
      forall k | 0 <= k < |code| && Writes(code[k], id)
        ensures k == j
      {
        NumberedAt(code, k);
        if k < j {
          assert code[..j][..k + 1] == code[..k + 1];
          NumberedPrefix(code[..j], k + 1);
        } else if k > j {
          assert code[..k][..j + 1] == code[..j + 1];
          NumberedPrefix(code[..k], j + 1);
        }
      }
    }
  }
}
