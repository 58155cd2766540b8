/** How an ESIL program is run, word by word, with one skip flag and a limit. */
module EsilControl {
  import opened Words
  import opened Wrappers
  import opened EsilMachine

  /** `Blank` is a word that starts with a comma, which only empty words produce. */
  datatype Token = Operand(e: Entry) | Cmd(op: Op) | If | Else | EndIf | Goto | Break | Todo | Blank

  /** The run state: no goto is pending while `goto` is -1, and `fuel` counts the words
      that may still be run, plus one. */
  datatype Control = Control(m: Machine, skip: bool, goto: int, stop: nat, fuel: int)

  datatype Step = Step(ok: bool, c: Control)

  function RunIf(c: Control): Step
    requires Valid(c.m)
  {
    var v, d := Value(Pop(c.m), Top(c.m)), c.(m := Pop(c.m));
    if Top(c.m).None? then Step(false, d)
    else if v.None? then Step(true, d.(stop := 1))
    else Step(true, if v.value == 0 then d.(skip := true) else d)
  }

  /** The goto target is kept in a signed 32-bit field. */
  function Truncate32(v: Word): int
  {
    var w := v % 0x1_0000_0000;
    if w < 0x8000_0000 then w else w - 0x1_0000_0000
  }

  function RunGoto(c: Control): Step
    requires Valid(c.m)
  {
    var v, d := Value(Pop(c.m), Top(c.m)), c.(m := Pop(c.m));
    Step(true, if Top(c.m).None? then d else if v.None? then d.(stop := 1) else d.(goto := Truncate32(v.value)))
  }

  /** What a word does when it is not skipped. */
  function Execute(c: Control, t: Token): (s: Step)
    requires Valid(c.m) && t != Else && t != EndIf
    ensures Valid(s.c.m)
  {
    match t
    case If => RunIf(c)
    case Goto => RunGoto(c)
    case Break => Step(true, c.(stop := 1))
    case Todo => Step(true, c.(stop := 2))
    case Cmd(op) => var o := Run(c.m, op); Step(o.ok, c.(m := o.m))
    case Operand(e) =>
      var o := Push(c.m, e);
      Step(true, c.(m := if o.ok then o.m else o.m.(trap := InternalTrap)))
    case _ => Step(true, c)
  }

  /** One word of a program: counts against the limit, then honours the skip flag. */
  function RunWord(c: Control, t: Token): (s: Step)
    requires Valid(c.m)
    ensures Valid(s.c.m) && s.c.fuel == c.fuel - 1
  {
    var d := c.(fuel := c.fuel - 1);
    if d.fuel < 1 then Step(false, d.(stop := 1, m := d.m.(trap := InternalTrap)))
    else if t == Else then Step(true, d.(skip := !c.skip))
    else if t == EndIf then Step(true, d.(skip := false))
    else if c.skip then Step(true, d)
    else Execute(d, t)
  }

  /** A list of words, run until one fails or stops the program. */
  function RunWords(c: Control, ts: seq<Token>): (s: Step)
    requires Valid(c.m)
    ensures Valid(s.c.m)
    decreases |ts|
  {
    if ts == [] then Step(true, c)
    else
      var s := RunWord(c, ts[0]);
      if !s.ok || s.c.stop != 0 then Step(false, s.c) else RunWords(s.c, ts[1..])
  }

  // ----- structured conditionals -----

  /** Words that neither steer the program nor delimit conditionals. */
  predicate Plain(t: Token)
  {
    t.Operand? || t.Cmd?
  }

  type Block = ts: seq<Token> | forall t :: t in ts ==> Plain(t)

  /** The items of a structured program; conditionals test the top of the stack. */
  datatype Item = Do(t: Token) | When(yes: seq<Item>) | Choose(yes: seq<Item>, no: seq<Item>)

  predicate Structured(items: seq<Item>)
  {
    forall i :: 0 <= i < |items| ==>
      match items[i]
      case Do(t) => Plain(t)
      case When(yes) => Structured(yes)
      case Choose(yes, no) => Structured(yes) && Structured(no)
  }

  function Flatten(items: seq<Item>): seq<Token>
  {
    if items == [] then []
    else
      var first := match items[0]
                   case Do(t) => [t]
                   case When(yes) => [If] + (Flatten(yes) + [EndIf])
                   case Choose(yes, no) => [If] + ((Flatten(yes) + [Else]) + (Flatten(no) + [EndIf]));
      first + Flatten(items[1..])
  }

  // ----- their meaning, without skip flag and limit -----

  function DoPlain(m: Machine, t: Token): (o: Outcome)
    requires Valid(m) && Plain(t)
    ensures Valid(o.m)
  {
    match t
    case Cmd(op) => Run(m, op)
    case Operand(e) => var o := Push(m, e); Outcome(true, if o.ok then o.m else o.m.(trap := InternalTrap))
  }

  function DoBlock(m: Machine, ts: Block): (o: Outcome)
    requires Valid(m)
    ensures Valid(o.m)
    decreases |ts|
  {
    if ts == [] then Outcome(true, m)
    else
      var o := DoPlain(m, ts[0]);
      if !o.ok then o else DoBlock(o.m, ts[1..])
  }

  function DoItems(m: Machine, items: seq<Item>): (o: Outcome)
    requires Valid(m) && Structured(items)
    ensures Valid(o.m)
    decreases items
  {
    if items == [] then Outcome(true, m)
    else
      var o := match items[0]
               case Do(t) => DoPlain(m, t)
               case When(yes) =>
                 var v, p := Value(Pop(m), Top(m)), Pop(m);
                 if v.None? then Outcome(false, p) else if v.value != 0 then DoItems(p, yes) else Outcome(true, p)
               case Choose(yes, no) =>
                 var v, p := Value(Pop(m), Top(m)), Pop(m);
                 if v.None? then Outcome(false, p) else DoItems(p, if v.value != 0 then yes else no);
      if !o.ok then o else DoItems(o.m, items[1..])
  }

  // ----- passing over a branch -----

  /** The skip flag after passing over words, or None when one of them would be run. */
  function Skim(ts: seq<Token>, skip: bool): Option<bool>
  {
    if ts == [] then Some(skip)
    else if ts[0] == Else then Skim(ts[1..], !skip)
    else if ts[0] == EndIf then Skim(ts[1..], false)
    else if skip then Skim(ts[1..], true)
    else None
  }

  lemma {:induction false} SkimConcat(a: seq<Token>, b: seq<Token>, skip: bool)
    ensures Skim(a + b, skip) == if Skim(a, skip).Some? then Skim(b, Skim(a, skip).value) else None
  {
    if a == [] {
      assert a + b == b;
    } else {
      assert (a + b)[0] == a[0] && (a + b)[1..] == a[1..] + b;
      SkimConcat(a[1..], b, if a[0] == Else then !skip else if a[0] == EndIf then false else skip);
    }
  }

  /** No conditional in the list. */
  predicate Flat(items: seq<Item>)
  {
    forall i :: 0 <= i < |items| ==> items[i].Do?
  }

  /** The list's only conditional, if any, is its last item, and is passed over itself:
      without an alternative its branch is; with one, either that is empty and the first
      branch has no conditional, or both branches are passed over and the first one does
      end with a conditional. */
  predicate PassedOver(items: seq<Item>)
  {
    items == [] ||
      var front, last := items[..|items| - 1], items[|items| - 1];
      && Flat(front)
      && match last
         case Do(_) => true
         case When(yes) => PassedOver(yes)
         case Choose(yes, no) => PassedOver(yes) && if Flat(yes) then no == [] else PassedOver(no)
  }

  /** Every branch that may be skipped is passed over; one with an alternative leaves the
      flag set, so that the alternative is run, if there is anything to run. */
  predicate Passable(items: seq<Item>)
  {
    forall i :: 0 <= i < |items| ==>
      match items[i]
      case Do(_) => true
      case When(yes) => Passable(yes) && PassedOver(yes)
      case Choose(yes, no) =>
        && Passable(yes) && Passable(no) && PassedOver(no)
        && (Flat(yes) || (PassedOver(yes) && no == []))
  }

  lemma WordsFirst(items: seq<Item>)
    requires items != [] && Structured(items)
    ensures Flatten(items) != [] && Flatten(items)[0] != Else && Flatten(items)[0] != EndIf
  {
  }

  /** Exactly what passing over a branch does to the flag: it stays set if there is no
      conditional, is cleared by one at the end, and else some word would be run. */
  lemma {:induction false} SkimIsExact(items: seq<Item>)
    requires Structured(items)
    ensures Skim(Flatten(items), true) == if Flat(items) then Some(true) else if PassedOver(items) then Some(false) else None
    decreases items, 1
  {
    if items != [] {
      var rest := items[1..];
      if items[0].Do? {
        assert Flatten(items) == [items[0].t] + Flatten(rest);
        SkimConcat([items[0].t], Flatten(rest), true);
        SkimIsExact(rest);
        FirstDo(items);
      } else {
        SkimConditional(items);
        if rest != [] {
          WordsFirst(rest);
          assert items[..|items| - 1][0] == items[0];
        }
      }
    }
  }

  lemma FirstDo(items: seq<Item>)
    requires items != [] && items[0].Do?
    ensures Flat(items) <==> Flat(items[1..])
    ensures PassedOver(items) <==> PassedOver(items[1..])
  {
    var rest := items[1..];
    if Flat(rest) {
      forall i | 0 <= i < |items|
        ensures items[i].Do?
      {
        assert i > 0 ==> rest[i - 1].Do?;
      }
    }
    if rest != [] {
      var front, short := items[..|items| - 1], rest[..|rest| - 1];
      assert front[0].Do? && front[1..] == short && items[|items| - 1] == rest[|rest| - 1];
      if Flat(short) {
        forall i | 0 <= i < |front|
          ensures front[i].Do?
        {
          assert i > 0 ==> short[i - 1].Do?;
        }
      }
      if Flat(front) {
        assert forall i :: 0 <= i < |short| ==> short[i] == front[i + 1];
      }
    }
  }

  lemma {:induction false} SkimConditional(items: seq<Item>)
    requires Structured(items) && items != [] && !items[0].Do?
    ensures Skim(Flatten(items), true) == if PassedOver([items[0]]) then Skim(Flatten(items[1..]), false) else None
    decreases items, 0
  {
    var rest, one := Flatten(items[1..]), [items[0]];
    assert one[..0] == [] && one[0] == items[0];
    match items[0]
    case When(yes) =>
      var y := Flatten(yes);
      SkimIsExact(yes);
      assert Flatten(items) == [If] + (y + [EndIf]) + rest;
      SkimWhen(y, rest);
    case Choose(yes, no) =>
      var y, n := Flatten(yes), Flatten(no);
      SkimIsExact(yes);
      SkimIsExact(no);
      NothingToRun(no);
      assert Flatten(items) == [If] + ((y + [Else]) + (n + [EndIf])) + rest;
      SkimChoose(y, n, rest);
  }

  lemma SkimWhen(y: seq<Token>, rest: seq<Token>)
    ensures Skim([If] + (y + [EndIf]) + rest, true) == if Skim(y, true).Some? then Skim(rest, false) else None
  {
    SkimConcat([If] + (y + [EndIf]), rest, true);
    SkimConcat([If], y + [EndIf], true);
    SkimThen(y, EndIf, true);
  }

  lemma SkimChoose(y: seq<Token>, n: seq<Token>, rest: seq<Token>)
    ensures Skim([If] + ((y + [Else]) + (n + [EndIf])) + rest, true) ==
      if Skim(y, true).Some? && Skim(n, !Skim(y, true).value).Some? then Skim(rest, false) else None
  {
    SkimConcat([If] + ((y + [Else]) + (n + [EndIf])), rest, true);
    SkimConcat([If], (y + [Else]) + (n + [EndIf]), true);
    SkimConcat(y + [Else], n + [EndIf], true);
    SkimThen(y, Else, true);
    SkimThen(n, EndIf, true);
    SkimThen(n, EndIf, false);
  }

  lemma NothingToRun(items: seq<Item>)
    requires Structured(items)
    ensures Skim(Flatten(items), false).Some? <==> items == []
    ensures items == [] ==> Flatten(items) == []
  {
    if items != [] {
      WordsFirst(items);
    }
  }

  lemma SkimThen(ts: seq<Token>, t: Token, skip: bool)
    requires t == Else || t == EndIf
    ensures Skim(ts + [t], skip) ==
      if Skim(ts, skip).None? then None else Some(t == Else && !Skim(ts, skip).value)
  {
    SkimConcat(ts, [t], skip);
    assert [t][1..] == [];
  }

  // ----- the flat program means the same -----

  /** Ready to run n more words: nothing skipped, pending or stopped. */
  predicate Ready(c: Control, n: nat)
  {
    Valid(c.m) && !c.skip && c.goto == -1 && c.stop == 0 && c.fuel > n
  }

  /** The step ends like the outcome; if it went on, it used up n words and is ready. */
  predicate Agrees(s: Step, c: Control, n: nat, o: Outcome)
  {
    && s.ok == o.ok && s.c.m == o.m
    && (s.ok ==> s.c == c.(m := o.m, fuel := c.fuel - n))
  }

  lemma {:induction false} RunConcat(c: Control, a: seq<Token>, b: seq<Token>)
    requires Valid(c.m)
    ensures var s := RunWords(c, a);
            RunWords(c, a + b) == if s.ok then RunWords(s.c, b) else s
    decreases |a|
  {
    if a == [] {
      assert a + b == b;
    } else {
      assert (a + b)[0] == a[0] && (a + b)[1..] == a[1..] + b;
      var s := RunWord(c, a[0]);
      if s.ok && s.c.stop == 0 {
        RunConcat(s.c, a[1..], b);
      }
    }
  }

  /** Plain words do what they mean, one after the other. */
  lemma {:induction false} PlainBlockRuns(c: Control, ts: Block)
    requires Ready(c, |ts|)
    ensures Agrees(RunWords(c, ts), c, |ts|, DoBlock(c.m, ts))
    decreases |ts|
  {
    if ts != [] {
      hide RunWord, Valid, DoPlain;
      assert ts[0] in ts && Plain(ts[0]);
      PlainWordRuns(c, ts[0]);
      var s := RunWord(c, ts[0]);
      if s.ok {
        PlainBlockRuns(s.c, ts[1..]);
      }
    }
  }

  lemma PlainWordRuns(c: Control, t: Token)
    requires Ready(c, 1) && Plain(t)
    ensures Agrees(RunWord(c, t), c, 1, DoPlain(c.m, t))
    ensures RunWord(c, t).ok ==> RunWord(c, t).c.stop == 0
  {
    hide Run, Push;
  }

  /** Words that are passed over only change the flag and count against the limit. */
  lemma {:induction false} SkimRuns(c: Control, ts: seq<Token>)
    requires Valid(c.m) && c.stop == 0 && c.fuel > |ts| && Skim(ts, c.skip).Some?
    ensures RunWords(c, ts) == Step(true, c.(fuel := c.fuel - |ts|, skip := Skim(ts, c.skip).value))
    decreases |ts|
  {
    if ts != [] {
      hide RunWord, Valid;
      SkimWord(c, ts[0]);
      SkimRuns(RunWord(c, ts[0]).c, ts[1..]);
    }
  }

  lemma SkimWord(c: Control, t: Token)
    requires Valid(c.m) && c.fuel > 1 && (t == Else || t == EndIf || c.skip)
    ensures RunWord(c, t) == Step(true, c.(fuel := c.fuel - 1, skip := if t == Else then !c.skip else t != EndIf))
  {
  }

  /** Otherwise the run gets to one of the words with the flag cleared. */
  lemma {:induction false} SkimStops(c: Control, ts: seq<Token>) returns (k: nat)
    requires Valid(c.m) && c.stop == 0 && c.fuel > |ts| && Skim(ts, c.skip).None?
    ensures k < |ts| && ts[k] != Else && ts[k] != EndIf
    ensures RunWords(c, ts[..k]) == Step(true, c.(fuel := c.fuel - k, skip := false))
    decreases |ts|
  {
    if ts[0] != Else && ts[0] != EndIf && !c.skip {
      k := 0;
    } else {
      hide RunWord, Valid;
      SkimWord(c, ts[0]);
      var j := SkimStops(RunWord(c, ts[0]).c, ts[1..]);
      k := j + 1;
      assert ts[..k][0] == ts[0] && ts[..k][1..] == ts[1..][..j];
    }
  }

  lemma OneWord(c: Control, t: Token)
    requires Valid(c.m)
    ensures var s := RunWord(c, t);
            RunWords(c, [t]) == if !s.ok || s.c.stop != 0 then Step(false, s.c) else s
  {
    assert [t][1..] == [];
  }

  /** A list that ran, then the delimiter behind it. */
  lemma RanThen(c: Control, ts: seq<Token>, t: Token, o: Outcome)
    requires Ready(c, |ts| + 1) && (t == Else || t == EndIf) && Agrees(RunWords(c, ts), c, |ts|, o)
    ensures var s := RunWords(c, ts + [t]);
            && s.ok == o.ok && s.c.m == o.m
            && (s.ok ==> s.c == c.(m := o.m, fuel := c.fuel - |ts| - 1, skip := (t == Else)))
  {
    RunConcat(c, ts, [t]);
    var s := RunWords(c, ts);
    if s.ok {
      OneWord(s.c, t);
    }
  }

  /** The test itself: pops the condition and sets the skip flag. */
  lemma TestRuns(c: Control)
    requires Ready(c, 1)
    ensures var v, s := Value(Pop(c.m), Top(c.m)), RunWords(c, [If]);
            && s.c.m == Pop(c.m)
            && (v.None? ==> !s.ok)
            && (v.Some? ==> s == Step(true, c.(m := Pop(c.m), fuel := c.fuel - 1, skip := (v.value == 0))))
  {
    OneWord(c, If);
  }

  /** The branch taken, without alternative. */
  lemma YesRuns(d: Control, y: seq<Token>, o: Outcome)
    requires Ready(d, |y| + 1) && Agrees(RunWords(d, y), d, |y|, o)
    ensures Agrees(RunWords(d, y + [EndIf]), d, |y| + 1, o)
  {
    RanThen(d, y, EndIf, o);
  }

  /** The branch passed over, without alternative. */
  lemma NoneRuns(d: Control, y: seq<Token>)
    requires Ready(d, |y| + 1) && Skim(y, true).Some?
    ensures Agrees(RunWords(d.(skip := true), y + [EndIf]), d, |y| + 1, Outcome(true, d.m))
  {
    SkimThen(y, EndIf, true);
    SkimRuns(d.(skip := true), y + [EndIf]);
  }

  lemma FirstBranchRuns(d: Control, y: seq<Token>, n: seq<Token>, o: Outcome)
    requires Ready(d, |y| + |n| + 2) && Agrees(RunWords(d, y), d, |y|, o) && Skim(n, true).Some?
    ensures Agrees(RunWords(d, (y + [Else]) + (n + [EndIf])), d, |y| + |n| + 2, o)
  {
    hide RunWords, Skim;
    RunConcat(d, y + [Else], n + [EndIf]);
    RanThen(d, y, Else, o);
    var s := RunWords(d, y + [Else]);
    if s.ok {
      SkimThen(n, EndIf, true);
      SkimRuns(s.c, n + [EndIf]);
    }
  }

  lemma SecondBranchRuns(d: Control, y: seq<Token>, n: seq<Token>, o: Outcome)
    requires Ready(d, |y| + |n| + 2) && Skim(y, true) == Some(true)
    requires var f := d.(fuel := d.fuel - |y| - 1); Agrees(RunWords(f, n), f, |n|, o)
    ensures Agrees(RunWords(d.(skip := true), (y + [Else]) + (n + [EndIf])), d, |y| + |n| + 2, o)
  {
    hide RunWords, Skim, Valid;
    var e, f := d.(skip := true), d.(fuel := d.fuel - |y| - 1);
    SkimThen(y, Else, true);
    SkimRuns(e, y + [Else]);
    assert RunWords(e, y + [Else]) == Step(true, f);
    RunConcat(e, y + [Else], n + [EndIf]);
    RanThen(f, n, EndIf, o);
    assert |(y + [Else]) + (n + [EndIf])| == |y| + |n| + 2;
  }

  lemma OnePlain(m: Machine, t: Token)
    requires Valid(m) && Plain(t)
    ensures DoBlock(m, [t]) == DoPlain(m, t)
  {
    assert [t][1..] == [];
  }

  /** What is left to do after the first item. */
  function DoRest(o: Outcome, items: seq<Item>): (r: Outcome)
    requires Valid(o.m) && Structured(items) && items != []
    ensures Valid(r.m)
  {
    if o.ok then DoItems(o.m, items[1..]) else o
  }

  lemma RestIsStructured(items: seq<Item>)
    requires Structured(items) && Passable(items) && items != []
    ensures Structured(items[1..]) && Passable(items[1..])
  {
  }

  /** Flattened conditionals keep their meaning: while the limit lasts, the flat word
      list ends in the same machine, with the same verdict, as the structured program, if
      its branches can be passed over with the one flag. */
  lemma {:induction false} FlattenKeepsMeaning(c: Control, items: seq<Item>)
    requires Structured(items) && Passable(items) && Ready(c, |Flatten(items)|)
    ensures Agrees(RunWords(c, Flatten(items)), c, |Flatten(items)|, DoItems(c.m, items))
    decreases items, 2
  {
    if items != [] {
      match items[0]
      case Do(t) =>
        PlainBlockRuns(c, [t]);
        OnePlain(c.m, t);
        FirstThenRest(c, items, [t], DoPlain(c.m, t));
      case When(yes) => WhenRuns(c, items);
      case Choose(yes, no) => ChooseRuns(c, items);
    }
  }

  /** The words of the first item ran as they should; then the rest does. */
  lemma {:induction false} FirstThenRest(c: Control, items: seq<Item>, first: seq<Token>, o: Outcome)
    requires Structured(items) && Passable(items) && items != [] && Flatten(items) == first + Flatten(items[1..])
    requires Ready(c, |Flatten(items)|) && Valid(o.m) && Agrees(RunWords(c, first), c, |first|, o)
    ensures Agrees(RunWords(c, Flatten(items)), c, |Flatten(items)|, DoRest(o, items))
    decreases items, 0
  {
    hide Flatten, DoItems;
    RestIsStructured(items);
    RunConcat(c, first, Flatten(items[1..]));
    if o.ok {
      FlattenKeepsMeaning(RunWords(c, first).c, items[1..]);
    }
  }

  lemma WhenWords(items: seq<Item>)
    requires items != [] && items[0].When? && Structured(items) && Passable(items)
    ensures var yes := items[0].yes;
            && Structured(yes) && Passable(yes) && PassedOver(yes)
            && Flatten(items) == ([If] + (Flatten(yes) + [EndIf])) + Flatten(items[1..])
  {
  }

  lemma WhenMeans(m: Machine, items: seq<Item>)
    requires Valid(m) && items != [] && items[0].When? && Structured(items) && Structured(items[0].yes)
    ensures var v, p := Value(Pop(m), Top(m)), Pop(m);
            DoItems(m, items) == DoRest(if v.None? then Outcome(false, p) else if v.value != 0 then DoItems(p, items[0].yes)
                                        else Outcome(true, p), items)
  {
  }

  lemma {:induction false} WhenRuns(c: Control, items: seq<Item>)
    requires Structured(items) && Passable(items) && items != [] && items[0].When? && Ready(c, |Flatten(items)|)
    ensures Agrees(RunWords(c, Flatten(items)), c, |Flatten(items)|, DoItems(c.m, items))
    decreases items, 1
  {
    hide RunWords, Skim, Flatten, DoItems, Structured, Passable, PassedOver, Flat, DoRest;
    var yes, y := items[0].yes, Flatten(items[0].yes);
    var first, v, p := [If] + (y + [EndIf]), Value(Pop(c.m), Top(c.m)), Pop(c.m);
    WhenWords(items);
    WhenMeans(c.m, items);
    RunConcat(c, [If], y + [EndIf]);
    TestRuns(c);
    var d := c.(m := p, fuel := c.fuel - 1);
    var o := if v.None? then Outcome(false, p) else if v.value != 0 then DoItems(p, yes) else Outcome(true, p);
    if v.Some? && v.value != 0 {
      FlattenKeepsMeaning(d, yes);
      YesRuns(d, y, o);
    } else if v.Some? {
      SkimIsExact(yes);
      FlatIsPassedOver(yes);
      NoneRuns(d, y);
    }
    FirstThenRest(c, items, first, o);
  }

  lemma ChooseWords(items: seq<Item>)
    requires items != [] && items[0].Choose? && Structured(items) && Passable(items)
    ensures var yes, no := items[0].yes, items[0].no;
            && Structured(yes) && Passable(yes) && Structured(no) && Passable(no) && PassedOver(no)
            && (Flat(yes) || (PassedOver(yes) && no == []))
            && Flatten(items) == ([If] + ((Flatten(yes) + [Else]) + (Flatten(no) + [EndIf]))) + Flatten(items[1..])
            && (no == [] ==> Flatten(no) == [])
  {
  }

  lemma ChooseMeans(m: Machine, items: seq<Item>)
    requires Valid(m) && items != [] && items[0].Choose? && Structured(items)
    requires Structured(items[0].yes) && Structured(items[0].no)
    ensures var v, p := Value(Pop(m), Top(m)), Pop(m);
            DoItems(m, items) == DoRest(if v.None? then Outcome(false, p)
                                        else DoItems(p, if v.value != 0 then items[0].yes else items[0].no), items)
    ensures items[0].no == [] ==> DoItems(Pop(m), items[0].no) == Outcome(true, Pop(m))
  {
  }

  lemma {:induction false} ChooseRuns(c: Control, items: seq<Item>)
    requires Structured(items) && Passable(items) && items != [] && items[0].Choose? && Ready(c, |Flatten(items)|)
    ensures Agrees(RunWords(c, Flatten(items)), c, |Flatten(items)|, DoItems(c.m, items))
    decreases items, 1
  {
    hide RunWords, Skim, Flatten, DoItems, Structured, Passable, PassedOver, Flat, DoRest;
    var yes, no, y, n := items[0].yes, items[0].no, Flatten(items[0].yes), Flatten(items[0].no);
    var first, v, p := [If] + ((y + [Else]) + (n + [EndIf])), Value(Pop(c.m), Top(c.m)), Pop(c.m);
    ChooseWords(items);
    ChooseMeans(c.m, items);
    RunConcat(c, [If], (y + [Else]) + (n + [EndIf]));
    TestRuns(c);
    var d := c.(m := p, fuel := c.fuel - 1);
    var o := if v.None? then Outcome(false, p) else DoItems(p, if v.value != 0 then yes else no);
    SkimIsExact(yes);
    SkimIsExact(no);
    FlatIsPassedOver(no);
    if v.Some? && v.value != 0 {
      FlattenKeepsMeaning(d, yes);
      FirstBranchRuns(d, y, n, o);
    } else if v.Some? && Flat(yes) {
      FlattenKeepsMeaning(d.(fuel := d.fuel - |y| - 1), no);
      SecondBranchRuns(d, y, n, o);
    } else if v.Some? {
      NeitherRuns(d, y, n);
    }
    FirstThenRest(c, items, first, o);
  }

  /** The branch passed over, and an empty alternative with it. */
  lemma NeitherRuns(d: Control, y: seq<Token>, n: seq<Token>)
    requires Ready(d, |y| + |n| + 2) && Skim(y, true).Some? && n == []
    ensures Agrees(RunWords(d.(skip := true), (y + [Else]) + (n + [EndIf])), d, |y| + |n| + 2, Outcome(true, d.m))
  {
    hide RunWords;
    assert n + [EndIf] == [EndIf];
    SkimThen(y, Else, true);
    SkimThen(y + [Else], EndIf, true);
    SkimRuns(d.(skip := true), (y + [Else]) + [EndIf]);
  }

  /** Exactly when a branch is skipped as it should be: without an alternative it must be
      passed over, with one it must have no conditional. Otherwise one of its words is run,
      or the flag is off where the alternative begins, so that the alternative is not. */
  lemma SkippedBranch(c: Control, yes: seq<Item>) returns (k: nat)
    requires Structured(yes) && Ready(c, |Flatten(yes)| + 1)
    ensures var e, y := c.(skip := true), Flatten(yes);
            && (PassedOver(yes) ==> RunWords(e, y + [EndIf]) == Step(true, c.(fuel := c.fuel - |y| - 1)))
            && (PassedOver(yes) ==> RunWords(e, y + [Else]) == Step(true, c.(fuel := c.fuel - |y| - 1, skip := !Flat(yes))))
            && (!PassedOver(yes) ==> k < |y| && y[k] != Else && y[k] != EndIf
                                     && RunWords(e, y[..k]) == Step(true, c.(fuel := c.fuel - k)))
  {
    var e, y := c.(skip := true), Flatten(yes);
    SkimIsExact(yes);
    k := 0;
    if PassedOver(yes) {
      SkimThen(y, EndIf, true);
      SkimThen(y, Else, true);
      SkimRuns(e, y + [EndIf]);
      SkimRuns(e, y + [Else]);
      FlatIsPassedOver(yes);
    } else {
      FlatIsPassedOver(yes);
      k := SkimStops(e, y);
    }
  }

  lemma FlatIsPassedOver(items: seq<Item>)
    ensures Flat(items) ==> PassedOver(items)
  {
  }

  /** For instance, behind a conditional in a skipped branch the words run. */
  lemma NestedSkipBreaks(c: Control, inner: Block, rest: Block)
    requires Ready(c, |inner| + |rest| + 2)
    ensures Agrees(RunWords(c.(skip := true), ([If] + (inner + [EndIf])) + rest), c, |inner| + |rest| + 2,
                   DoBlock(c.m, rest))
  {
    hide RunWords, Skim, DoBlock, Valid;
    var e, f := c.(skip := true), c.(fuel := c.fuel - |inner| - 2);
    var first := [If] + (inner + [EndIf]);
    BlockIsSkimmed(inner);
    SkimWhen(inner, []);
    assert first + [] == first && |first| == |inner| + 2;
    SkimRuns(e, first);
    assert RunWords(e, first) == Step(true, f);
    RunConcat(e, first, rest);
    PlainBlockRuns(f, rest);
  }

  lemma {:induction false} BlockIsSkimmed(ts: Block)
    ensures Skim(ts, true) == Some(true) && Skim([], false) == Some(false)
    decreases |ts|
  {
    if ts != [] {
      assert ts[0] in ts && Plain(ts[0]);
      BlockIsSkimmed(ts[1..]);
    }
  }
}
