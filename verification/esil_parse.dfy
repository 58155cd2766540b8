/** Running an ESIL program given as text, with jumps to the n-th word. */
module EsilParse {
  import opened Wrappers
  import opened EsilMachine
  import opened EsilControl
  import opened Words
  import opened EsilWords

  /** Longest word that the parser's buffer takes before it gives up. */
  const MAX_WORD: nat := 62

  datatype Parsed = Parsed(code: int, c: Control)

  /** The start of the n-th word from position i, which starts word number `count`. */
  function GotoWord(s: string, n: int, i: nat, start: nat, count: nat): Option<nat>
    requires start <= i + 1 && i <= |s|
    decreases |s| - i
  {
    if i == |s| then None
    else if count == n then Some(start)
    else if i + 1 < |s| && s[i + 1] == ',' then GotoWord(s, n, i + 1, i + 2, count + 1)
    else GotoWord(s, n, i + 1, start, count)
  }

  lemma {:induction false} GotoInside(s: string, n: int, i: nat, start: nat, count: nat)
    requires start <= i + 1 && i <= |s|
    ensures var g := GotoWord(s, n, i, start, count); g.Some? ==> g.value <= |s|
    decreases |s| - i
  {
    if i < |s| && count != n {
      if i + 1 < |s| && s[i + 1] == ',' {
        GotoInside(s, n, i + 1, i + 2, count + 1);
      } else {
        GotoInside(s, n, i + 1, start, count);
      }
    }
  }

  /** Where a jump to the n-th word leads. */
  function Target(s: string, n: int): (g: Option<nat>)
    ensures g.Some? ==> g.value <= |s|
  {
    GotoInside(s, n, 0, 0, 0);
    GotoWord(s, n, 0, 0, 0)
  }

  /** What to do after a word: stop, read on from a position, or go on normally. */
  datatype Verdict = Halt(c: Control) | Resume(pos: nat, c: Control) | Normal(c: Control)

  function EvalWord(s: string, pos: nat, c: Control): (v: Verdict)
    requires pos <= |s|
    ensures v.Resume? ==> v.pos <= |s|
    ensures v.c.fuel == c.fuel && v.c.m == c.m
  {
    if pos + 1 < |s| && s[pos + 1] == ',' then Resume(pos, c)
    else if c.goto != -1 then
      var g := Target(s, c.goto);
      if g.Some? then Resume(g.value, c.(goto := -1)) else Halt(c)
    else if c.stop != 0 then Halt(c)
    else Normal(c)
  }

  function Classify(decode: string -> Token, word: string): Token
    requires word != ""
  {
    if word[0] == ',' then Blank else decode(word)
  }

  function NonNegative(n: int): nat
  {
    if n < 0 then 0 else n
  }

  predicate IsEnd(ch: char)
  {
    ch == ',' || ch == ';'
  }

  /** Where the parser goes after a word. */
  datatype Next = Done(r: Parsed) | Again(pos: nat, c: Control) | Advance(c: Control)

  /** Runs the word that ends at pos. */
  function AfterWord(decode: string -> Token, s: string, pos: nat, word: string, c: Control): (n: Next)
    requires Valid(c.m) && pos <= |s| && word != ""
    ensures n.Done? ==> Valid(n.r.c.m) && n.r.c.fuel == c.fuel - 1
    ensures !n.Done? ==> Valid(n.c.m) && n.c.fuel == c.fuel - 1 && c.fuel >= 2
    ensures n.Again? ==> n.pos <= |s|
    ensures n.Advance? ==> pos < |s|
  {
    var r := RunWord(c, Classify(decode, word));
    if !r.ok then Done(Parsed(0, r.c))
    else
      match EvalWord(s, pos, r.c)
      case Halt(d) => Done(Parsed(0, d))
      case Resume(p, d) => Again(p, d)
      case Normal(d) =>
        if pos == |s| then Done(Parsed(1, d)) else if s[pos] == ';' then Done(Parsed(0, d)) else Advance(d)
  }

  /** The parser from position pos on, with the characters of `word` already read. */
  function ParseFrom(decode: string -> Token, s: string, pos: nat, word: string, c: Control): (r: Parsed)
    requires Valid(c.m) && pos <= |s|
    ensures Valid(r.c.m)
    ensures r.c.fuel <= c.fuel && (c.fuel >= 1 ==> 0 <= r.c.fuel)
    decreases NonNegative(c.fuel), |s| - pos
  {
    if pos == |s| && word == "" then Parsed(1, c)
    else if pos < |s| && |word| > MAX_WORD then Parsed(-1, c)
    else if pos < |s| && !IsEnd(s[pos]) then ParseFrom(decode, s, pos + 1, word + [s[pos]], c)
    else if word == "" then ReadFirst(decode, s, pos + 1, c)
    else
      match AfterWord(decode, s, pos, word, c)
      case Done(r) => r
      case Again(p, d) => ParseFrom(decode, s, p, "", d)
      case Advance(d) => ReadFirst(decode, s, pos + 1, d)
  }

  /** After a separator the next character is taken whatever it is. */
  function ReadFirst(decode: string -> Token, s: string, pos: nat, c: Control): (r: Parsed)
    requires Valid(c.m) && pos <= |s|
    ensures Valid(r.c.m)
    ensures r.c.fuel <= c.fuel && (c.fuel >= 1 ==> 0 <= r.c.fuel)
    decreases NonNegative(c.fuel), |s| - pos, 0
  {
    if pos == |s| then Parsed(1, c) else ParseFrom(decode, s, pos + 1, [s[pos]], c)
  }

  /** A fresh run of a text with the given goto limit. */
  function Parse(decode: string -> Token, s: string, c: Control, limit: int): (r: Parsed)
    requires Valid(c.m)
    ensures Valid(r.c.m)
  {
    if s == "" then Parsed(0, c)
    else ParseFrom(decode, s, 0, "", Control(c.m.(trap := NoTrap), false, -1, 0, limit))
  }

  /** Every run of every text ends, with the stack within its bounds, after at most
      `limit` words. */
  lemma ParseIsBounded(decode: string -> Token, s: string, c: Control, limit: int)
    requires Valid(c.m) && limit >= 1 && s != ""
    ensures var r := Parse(decode, s, c, limit);
            |r.c.m.stack| <= r.c.m.limit && 0 <= limit - r.c.fuel <= limit
  {
  }

  // ----- a text of words is run word by word -----

  predicate WordOk(w: string)
  {
    1 <= |w| <= 62 && forall i :: 0 <= i < |w| ==> !IsEnd(w[i])
  }

  function JoinWords(ws: seq<string>): string
    requires ws != []
  {
    if |ws| == 1 then ws[0] else ws[0] + "," + JoinWords(ws[1..])
  }

  function Tokens(decode: string -> Token, ws: seq<string>): (ts: seq<Token>)
    ensures |ts| == |ws|
  {
    if ws == [] then [] else [decode(ws[0])] + Tokens(decode, ws[1..])
  }

  lemma CharStep(decode: string -> Token, s: string, pos: nat, word: string, c: Control)
    requires Valid(c.m) && pos < |s| && |word| <= MAX_WORD && !IsEnd(s[pos])
    ensures ParseFrom(decode, s, pos, word, c) == ParseFrom(decode, s, pos + 1, word + [s[pos]], c)
  {
  }

  /** Where a word ends the parser runs it and goes on as the word says. */
  lemma WordStep(decode: string -> Token, s: string, pos: nat, word: string, c: Control)
    requires Valid(c.m) && pos <= |s| && word != ""
    requires pos < |s| ==> |word| <= MAX_WORD && IsEnd(s[pos])
    ensures ParseFrom(decode, s, pos, word, c) ==
              match AfterWord(decode, s, pos, word, c)
              case Done(r) => r
              case Again(p, d) => ParseFrom(decode, s, p, "", d)
              case Advance(d) => ReadFirst(decode, s, pos + 1, d)
  {
    hide AfterWord;
  }

  lemma LongWord(decode: string -> Token, s: string, pos: nat, word: string, c: Control)
    requires Valid(c.m) && pos < |s| && |word| > MAX_WORD
    ensures ParseFrom(decode, s, pos, word, c) == Parsed(-1, c)
  {
  }

  lemma SeparatorStep(decode: string -> Token, s: string, pos: nat, c: Control)
    requires Valid(c.m) && pos <= |s|
    ensures pos < |s| && IsEnd(s[pos]) ==> ParseFrom(decode, s, pos, "", c) == ReadFirst(decode, s, pos + 1, c)
    ensures pos == |s| ==> ParseFrom(decode, s, pos, "", c) == Parsed(1, c)
  {
  }

  /** The parser collects the characters of a word. */
  lemma {:induction false} WordIsRead(decode: string -> Token, s: string, pos: nat, word: string, w: string, c: Control)
    requires Valid(c.m) && pos + |w| <= |s| && s[pos..pos + |w|] == w
    requires |word| + |w| <= MAX_WORD && forall i :: 0 <= i < |w| ==> !IsEnd(w[i])
    ensures ParseFrom(decode, s, pos, word, c) == ParseFrom(decode, s, pos + |w|, word + w, c)
    decreases |w|
  {
    hide ParseFrom;
    if w == "" {
      assert word + w == word;
    } else {
      assert s[pos] == s[pos..pos + |w|][0] == w[0];
      CharStep(decode, s, pos, word, c);
      assert s[pos + 1..pos + 1 + |w[1..]|] == s[pos..pos + |w|][1..] == w[1..];
      WordIsRead(decode, s, pos + 1, word + [w[0]], w[1..], c);
      assert word + [w[0]] + w[1..] == word + w;
    }
  }

  lemma GotoStays(c: Control, t: Token)
    requires Valid(c.m) && t != Goto
    ensures RunWord(c, t).c.goto == c.goto
  {
  }

  /** The last word of a text. */
  lemma LastWordRuns(decode: string -> Token, s: string, w: string, c: Control)
    requires Valid(c.m) && c.goto == -1 && WordOk(w) && decode(w) != Goto
    ensures var r, t := ParseFrom(decode, s, |s|, w, c), RunWords(c, [decode(w)]);
            r.c == t.c && r.code == if t.ok then 1 else 0
  {
    hide RunWords, RunWord;
    GotoStays(c, decode(w));
    OneWord(c, decode(w));
  }

  /** A word before a comma and another word. */
  lemma InnerWordRuns(decode: string -> Token, s: string, pos: nat, w: string, c: Control)
    requires Valid(c.m) && c.goto == -1 && WordOk(w) && decode(w) != Goto
    requires pos + 1 < |s| && s[pos] == ',' && !IsEnd(s[pos + 1])
    ensures var r, o := ParseFrom(decode, s, pos, w, c), RunWord(c, decode(w));
            r == if !o.ok || o.c.stop != 0 then Parsed(0, o.c) else ParseFrom(decode, s, pos + 1, "", o.c)
  {
    GotoStays(c, decode(w));
    var o := RunWord(c, decode(w));
    if o.ok && o.c.stop == 0 {
      CharStep(decode, s, pos + 1, "", o.c);
      assert "" + [s[pos + 1]] == [s[pos + 1]];
    }
  }

  lemma WordFromStart(decode: string -> Token, s: string, pos: nat, ws: seq<string>, c: Control)
    requires ws != [] && Valid(c.m) && WordOk(ws[0]) && pos <= |s| && s[pos..] == JoinWords(ws)
    ensures pos + |ws[0]| <= |s|
    ensures ParseFrom(decode, s, pos, "", c) == ParseFrom(decode, s, pos + |ws[0]|, ws[0], c)
  {
    hide ParseFrom, RunWords, RunWord;
    TextStarts(s, pos, ws);
    WordIsRead(decode, s, pos, "", ws[0], c);
    assert "" + ws[0] == ws[0];
  }

  lemma TextStarts(s: string, pos: nat, ws: seq<string>)
    requires ws != [] && pos <= |s| && s[pos..] == JoinWords(ws)
    ensures pos + |ws[0]| <= |s| && s[pos..pos + |ws[0]|] == ws[0]
  {
    assert s[pos..pos + |ws[0]|] == s[pos..][..|ws[0]|] == ws[0];
  }

  predicate Readable(decode: string -> Token, s: string, pos: nat, ws: seq<string>, c: Control)
  {
    && ws != [] && (forall w :: w in ws ==> WordOk(w) && decode(w) != Goto)
    && pos <= |s| && s[pos..] == JoinWords(ws)
    && Valid(c.m) && c.goto == -1 && c.stop == 0
  }

  lemma OneWordText(decode: string -> Token, s: string, pos: nat, ws: seq<string>, c: Control)
    requires Readable(decode, s, pos, ws, c) && |ws| == 1
    ensures SameRun(ParseFrom(decode, s, pos, "", c), RunWords(c, Tokens(decode, ws)))
  {
    hide ParseFrom, RunWords, RunWord;
    assert ws[0] in ws;
    WordFromStart(decode, s, pos, ws, c);
    assert Tokens(decode, ws) == [decode(ws[0])];
    LastWordRuns(decode, s, ws[0], c);
  }

  lemma RestIsReadable(decode: string -> Token, s: string, pos: nat, ws: seq<string>, c: Control, r: Step)
    requires Readable(decode, s, pos, ws, c) && |ws| >= 2 && r == RunWord(c, decode(ws[0]))
    ensures r.ok && r.c.stop == 0 ==> Readable(decode, s, pos + |ws[0]| + 1, ws[1..], r.c)
  {
    assert ws[0] in ws;
    GotoStays(c, decode(ws[0]));
    NextWord(s, pos, ws);
  }

  lemma MoreWordsText(decode: string -> Token, s: string, pos: nat, ws: seq<string>, c: Control, r: Step)
    requires Readable(decode, s, pos, ws, c) && |ws| >= 2 && r == RunWord(c, decode(ws[0]))
    ensures pos + |ws[0]| + 1 <= |s|
    ensures ParseFrom(decode, s, pos, "", c) ==
              if !r.ok || r.c.stop != 0 then Parsed(0, r.c)
              else ParseFrom(decode, s, pos + |ws[0]| + 1, "", r.c)
  {
    hide ParseFrom, RunWords, RunWord;
    assert ws[0] in ws;
    WordFromStart(decode, s, pos, ws, c);
    NextWord(s, pos, ws);
    InnerWordRuns(decode, s, pos + |ws[0]|, ws[0], c);
  }

  lemma SameRunChains(r: Step, p: Parsed, p1: Parsed, t: Step, t1: Step)
    requires p == if !r.ok || r.c.stop != 0 then Parsed(0, r.c) else p1
    requires t == if !r.ok || r.c.stop != 0 then Step(false, r.c) else t1
    requires r.ok && r.c.stop == 0 ==> SameRun(p1, t1)
    ensures SameRun(p, t)
  {
  }

  /** Without jumps, a text does what its list of words does. */
  lemma {:induction false} TextRunsItsWords(decode: string -> Token, s: string, pos: nat, ws: seq<string>, c: Control)
    requires Readable(decode, s, pos, ws, c)
    ensures SameRun(ParseFrom(decode, s, pos, "", c), RunWords(c, Tokens(decode, ws)))
    decreases |ws|
  {
    hide ParseFrom, RunWords, RunWord;
    if |ws| == 1 {
      OneWordText(decode, s, pos, ws, c);
    } else {
      var r, next := RunWord(c, decode(ws[0])), pos + |ws[0]| + 1;
      NextWord(s, pos, ws);
      RestIsReadable(decode, s, pos, ws, c, r);
      if r.ok && r.c.stop == 0 {
        TextRunsItsWords(decode, s, next, ws[1..], r.c);
      }
      MoreWordsText(decode, s, pos, ws, c, r);
      FirstToken(decode, ws, c);
      SameRunChains(r, ParseFrom(decode, s, pos, "", c), ParseFrom(decode, s, next, "", r.c),
                    RunWords(c, Tokens(decode, ws)), RunWords(r.c, Tokens(decode, ws[1..])));
    }
  }

  /** The parser's return code and final state are those of the list of words. */
  predicate SameRun(r: Parsed, t: Step)
  {
    r.c == t.c && r.code == if t.ok then 1 else 0
  }

  lemma FirstToken(decode: string -> Token, ws: seq<string>, c: Control)
    requires ws != [] && Valid(c.m)
    ensures var r := RunWord(c, decode(ws[0]));
            RunWords(c, Tokens(decode, ws)) ==
              if !r.ok || r.c.stop != 0 then Step(false, r.c) else RunWords(r.c, Tokens(decode, ws[1..]))
  {
    assert Tokens(decode, ws)[1..] == Tokens(decode, ws[1..]);
  }

  lemma NextWord(s: string, pos: nat, ws: seq<string>)
    requires |ws| >= 2 && (forall w :: w in ws ==> WordOk(w))
    requires pos <= |s| && s[pos..] == JoinWords(ws)
    ensures var end := pos + |ws[0]|;
            && end + 1 < |s| && s[end] == ',' && s[end + 1..] == JoinWords(ws[1..]) && !IsEnd(s[end + 1])
  {
    var t, n := JoinWords(ws[1..]), |ws[0]|;
    assert s[pos..][n] == ',' && s[pos..][n + 1..] == t;
    assert s[pos + n] == s[pos..][n] && s[pos + n + 1..] == s[pos..][n + 1..];
    assert ws[1] in ws;
    assert t[0] == ws[1][0];
    assert s[pos + n + 1] == s[pos + n + 1..][0];
  }

  // ----- jumps -----

  predicate AllOk(ws: seq<string>)
  {
    forall w :: w in ws ==> WordOk(w)
  }

  /** The search passes over a word that is not the one it looks for. */
  lemma {:induction false} WordIsPassed(s: string, n: int, i: nat, pos: nat, ws: seq<string>, count: nat)
    requires ws != [] && AllOk(ws) && pos <= |s| && s[pos..] == JoinWords(ws) && pos <= i < pos + |ws[0]| && count != n
    ensures i < |s| && GotoWord(s, n, i, pos, count) ==
                         if |ws| == 1 then None else GotoWord(s, n, pos + |ws[0]|, pos + |ws[0]| + 1, count + 1)
    decreases pos + |ws[0]| - i
  {
    assert ws[0] in ws;
    TextStarts(s, pos, ws);
    var end := pos + |ws[0]|;
    if |ws| >= 2 {
      NextWord(s, pos, ws);
    }
    if i + 1 < end {
      assert s[i + 1] == s[pos..end][i + 1 - pos] == ws[0][i + 1 - pos];
      WordIsPassed(s, n, i + 1, pos, ws, count);
    }
  }

  /** From the start of a word, or the comma before it. */
  lemma {:induction false} GotoFrom(s: string, n: int, i: nat, pos: nat, ws: seq<string>, count: nat)
    requires ws != [] && AllOk(ws) && pos <= |s| && s[pos..] == JoinWords(ws) && (i == pos || i + 1 == pos)
    ensures var g := GotoWord(s, n, i, pos, count);
            if count <= n < count + |ws| then g.Some? && g.value <= |s| && s[g.value..] == JoinWords(ws[n - count..]) else g == None
    decreases |ws|
  {
    assert ws[0] in ws;
    TextStarts(s, pos, ws);
    if count != n {
      assert !IsEnd(ws[0][0]) && s[pos] == s[pos..pos + |ws[0]|][0];
      if i != pos {
        assert GotoWord(s, n, i, pos, count) == GotoWord(s, n, pos, pos, count);
      }
      WordIsPassed(s, n, pos, pos, ws, count);
      if |ws| >= 2 {
        NextWord(s, pos, ws);
        GotoFrom(s, n, pos + |ws[0]|, pos + |ws[0]| + 1, ws[1..], count + 1);
        if count + 1 <= n < count + |ws| {
          assert ws[1..][n - count - 1..] == ws[n - count..];
        }
      }
    } else {
      assert ws[0..] == ws;
    }
  }

  /** Where a jump leads: to the start of the n-th word, and nowhere for other numbers. */
  lemma TargetIsExact(ws: seq<string>, n: int)
    requires ws != [] && AllOk(ws)
    ensures var s, g := JoinWords(ws), Target(JoinWords(ws), n);
            if 0 <= n < |ws| then g.Some? && s[g.value..] == JoinWords(ws[n..]) else g == None
  {
    assert JoinWords(ws)[0..] == JoinWords(ws);
    GotoFrom(JoinWords(ws), n, 0, 0, ws, 0);
  }

  /** The operand of a jump, as a signed 32-bit number. */
  lemma GotoTakes(c: Control, rest: seq<Entry>, e: Entry)
    requires Valid(c.m) && c.m.stack == rest + [e] && !c.skip && c.fuel >= 2 && Value(c.m, Some(e)).Some?
    ensures var s, v := RunWord(c, Goto), Value(c.m, Some(e)).value;
            && s == Step(true, c.(m := c.m.(stack := rest), fuel := c.fuel - 1, goto := s.c.goto))
            && -0x8000_0000 <= s.c.goto < 0x8000_0000
            && exists k: nat :: v == s.c.goto + k * 0x1_0000_0000
  {
    assert c.m.stack[..|rest|] == rest;
    ValueIgnoresStack(c.m, Pop(c.m), Some(e));
    var v: int := Value(c.m, Some(e)).value;
    var k: int := v / 0x1_0000_0000;
    var g := RunWord(c, Goto).c.goto;
    assert v == g + (if g < 0 then k + 1 else k) * 0x1_0000_0000;
  }

  /** A list of words with jumps: runs from the j-th word until the last one is done, a
      word fails or stops the program, or a jump leads nowhere. */
  function RunProgram(decode: string -> Token, ws: seq<string>, j: nat, c: Control): (r: Parsed)
    requires Valid(c.m) && j < |ws|
    ensures Valid(r.c.m)
    decreases NonNegative(c.fuel)
  {
    var r := RunWord(c, decode(ws[j]));
    if !r.ok then Parsed(0, r.c)
    else if r.c.goto != -1 then
      if 0 <= r.c.goto < |ws| then RunProgram(decode, ws, r.c.goto, r.c.(goto := -1)) else Parsed(0, r.c)
    else if r.c.stop != 0 then Parsed(0, r.c)
    else if j + 1 == |ws| then Parsed(1, r.c)
    else RunProgram(decode, ws, j + 1, r.c)
  }

  /** What the parser does after a word, before a comma or at the end of the text. */
  lemma AfterAnyWord(decode: string -> Token, s: string, pos: nat, w: string, c: Control)
    requires Valid(c.m) && WordOk(w) && pos <= |s| && (pos < |s| ==> pos + 1 < |s| && s[pos] == ',' && !IsEnd(s[pos + 1]))
    ensures var r, d := ParseFrom(decode, s, pos, w, c), RunWord(c, decode(w)).c;
            r == if !RunWord(c, decode(w)).ok then Parsed(0, d)
                 else if d.goto != -1 then
                   match Target(s, d.goto)
                   case Some(p) => ParseFrom(decode, s, p, "", d.(goto := -1))
                   case None => Parsed(0, d)
                 else if d.stop != 0 then Parsed(0, d)
                 else if pos == |s| then Parsed(1, d)
                 else ParseFrom(decode, s, pos + 1, "", d)
  {
    hide Target, RunWord, ParseFrom;
    WordStep(decode, s, pos, w, c);
    var d := RunWord(c, decode(w)).c;
    if pos < |s| {
      CharStep(decode, s, pos + 1, "", d);
      assert "" + [s[pos + 1]] == [s[pos + 1]];
    }
  }

  /** The parser runs the text of a list of words, jumps included, as the list. */
  lemma {:induction false} TextRunsProgram(decode: string -> Token, s: string, pos: nat, ws: seq<string>, j: nat, c: Control)
    requires j < |ws| && AllOk(ws) && s == JoinWords(ws) && pos <= |s| && s[pos..] == JoinWords(ws[j..])
    requires Valid(c.m) && c.goto == -1
    ensures ParseFrom(decode, s, pos, "", c) == RunProgram(decode, ws, j, c)
    decreases NonNegative(c.fuel)
  {
    hide ParseFrom, RunWord, Target;
    var w, end := ws[j], pos + |ws[j]|;
    assert ws[j..][0] == w && w in ws;
    WordFromStart(decode, s, pos, ws[j..], c);
    var r := RunWord(c, decode(w));
    if j + 1 < |ws| {
      NextWord(s, pos, ws[j..]);
      assert ws[j..][1..] == ws[j + 1..];
    } else {
      assert ws[j..] == [w];
    }
    AfterAnyWord(decode, s, end, w, c);
    OkCounts(c, decode(w));
    if r.ok && r.c.goto != -1 {
      TargetIsExact(ws, r.c.goto);
      if 0 <= r.c.goto < |ws| {
        TextRunsProgram(decode, s, Target(s, r.c.goto).value, ws, r.c.goto, r.c.(goto := -1));
      }
    } else if r.ok && r.c.stop == 0 && j + 1 < |ws| {
      TextRunsProgram(decode, s, end + 1, ws, j + 1, r.c);
    }
  }

  /** A semicolon ends the text behind its word, unless a comma follows. */
  lemma SemicolonEnds(decode: string -> Token, s: string, pos: nat, w: string, c: Control)
    requires Valid(c.m) && WordOk(w) && pos < |s| && s[pos] == ';' && (pos + 1 < |s| ==> s[pos + 1] != ',')
    ensures var r := RunWord(c, decode(w)); r.ok && r.c.goto == -1 ==> ParseFrom(decode, s, pos, w, c) == Parsed(0, r.c)
  {
    hide ParseFrom, RunWord;
    WordStep(decode, s, pos, w, c);
  }

  /** A word of 63 characters is refused, unless it is the end of the text. */
  lemma LongWordFails(decode: string -> Token, s: string, c: Control, limit: int)
    requires Valid(c.m) && |s| >= 64 && forall i :: 0 <= i < 63 ==> !IsEnd(s[i])
    ensures Parse(decode, s, c, limit) == Parsed(-1, Control(c.m.(trap := NoTrap), false, -1, 0, limit))
  {
    hide ParseFrom;
    var d, w := Control(c.m.(trap := NoTrap), false, -1, 0, limit), s[..62];
    assert s[0..0 + |w|] == w && "" + w == w;
    WordIsRead(decode, s, 0, "", w, d);
    CharStep(decode, s, 62, w, d);
    LongWord(decode, s, 63, w + [s[62]], d);
  }

  lemma FiveWords()
    ensures var ws := ["2", "GOTO", "7", "rax", "="]; AllOk(ws) && JoinWords(ws) == "2,GOTO,7,rax,="
  {
    var ws := ["2", "GOTO", "7", "rax", "="];
    hide JoinWords;
    OneJoined("=");
    MoreJoined("rax", ["="]);
    assert ["rax"] + ["="] == ["rax", "="] && "rax" + "," + "=" == "rax,=";
    MoreJoined("7", ["rax", "="]);
    assert ["7"] + ["rax", "="] == ["7", "rax", "="] && "7" + "," + "rax,=" == "7,rax,=";
    MoreJoined("GOTO", ["7", "rax", "="]);
    assert ["GOTO"] + ["7", "rax", "="] == ["GOTO", "7", "rax", "="] && "GOTO" + "," + "7,rax,=" == "GOTO,7,rax,=";
    MoreJoined("2", ["GOTO", "7", "rax", "="]);
    assert ["2"] + ["GOTO", "7", "rax", "="] == ["2", "GOTO", "7", "rax", "="] && "2" + "," + "GOTO,7,rax,=" == "2,GOTO,7,rax,=";
  }

  lemma OneJoined(w: string)
    ensures JoinWords([w]) == w
  {
  }

  lemma MoreJoined(w: string, ws: seq<string>)
    requires ws != []
    ensures JoinWords([w] + ws) == w + "," + JoinWords(ws)
  {
    assert ([w] + ws)[1..] == ws;
  }

  lemma OkCounts(c: Control, t: Token)
    requires Valid(c.m)
    ensures RunWord(c, t).ok ==> c.fuel >= 2
  {
  }

  /** BREAK and TODO end the run with code 0, and so does the limit, with a trap. */
  lemma RunsEnd(decode: string -> Token, ws: seq<string>, j: nat, c: Control)
    requires Valid(c.m) && j < |ws| && c.goto == -1
    ensures c.fuel >= 2 && !c.skip && (decode(ws[j]) == Break || decode(ws[j]) == Todo) ==>
              RunProgram(decode, ws, j, c) == Parsed(0, c.(fuel := c.fuel - 1, stop := if decode(ws[j]) == Break then 1 else 2))
    ensures c.fuel <= 1 ==>
              RunProgram(decode, ws, j, c) == Parsed(0, c.(fuel := c.fuel - 1, stop := 1, m := c.m.(trap := InternalTrap)))
  {
  }

  /** A jump to the third word, with a decoder for the five words. */
  lemma JumpsOver(decode: string -> Token, c: Control, limit: int)
    requires Valid(c.m) && |c.m.stack| + 2 <= c.m.limit && "rax" in c.m.regs && c.m.sizes["rax"] == 64 && limit >= 6
    requires decode("2") == Operand(Num(2)) && decode("GOTO") == Goto && decode("7") == Operand(Num(7))
    requires decode("rax") == Operand(Reg("rax")) && decode("=") == Cmd(Assign)
    ensures var r := Parse(decode, "2,GOTO,7,rax,=", c, limit);
            r.code == 1 && "rax" in r.c.m.regs && r.c.m.regs["rax"] == 7 && r.c.m.trap == NoTrap && r.c.m.stack == c.m.stack
  {
    hide ParseFrom, RunWord, Run, RunProgram;
    var ws := ["2", "GOTO", "7", "rax", "="];
    var s, m := "2,GOTO,7,rax,=", c.m.(trap := NoTrap);
    FiveWords();
    var c0 := Control(m, false, -1, 0, limit);
    assert s[0..] == s && ws[0..] == ws;
    TextRunsProgram(decode, s, 0, ws, 0, c0);
    FirstTwoRun(decode, ws, c0);
    LastThreeRun(decode, ws, c0.(fuel := limit - 2));
  }

  lemma FirstTwoRun(decode: string -> Token, ws: seq<string>, c: Control)
    requires Valid(c.m) && !c.skip && c.goto == -1 && c.stop == 0 && |c.m.stack| + 2 <= c.m.limit && c.fuel >= 4
    requires |ws| == 5 && decode(ws[0]) == Operand(Num(2)) && decode(ws[1]) == Goto
    ensures RunProgram(decode, ws, 0, c) == RunProgram(decode, ws, 2, c.(fuel := c.fuel - 2))
  {
    hide RunWord, RunProgram, Run, Valid;
    OperandIsPushed(c, Num(2));
    var d := RunWord(c, decode(ws[0])).c;
    NextRuns(decode, ws, 0, c);
    GotoTakes(d, c.m.stack, Num(2));
    JumpRuns(decode, ws, 1, d);
    assert RunWord(d, decode(ws[1])).c.(goto := -1) == c.(fuel := c.fuel - 2);
  }

  lemma LastThreeRun(decode: string -> Token, ws: seq<string>, c: Control)
    requires Valid(c.m) && !c.skip && c.goto == -1 && c.stop == 0 && |c.m.stack| + 2 <= c.m.limit && c.fuel >= 4
    requires "rax" in c.m.regs && c.m.sizes["rax"] == 64 && |ws| == 5
    requires decode(ws[2]) == Operand(Num(7)) && decode(ws[3]) == Operand(Reg("rax")) && decode(ws[4]) == Cmd(Assign)
    ensures var r := RunProgram(decode, ws, 2, c);
            r.code == 1 && "rax" in r.c.m.regs && r.c.m.regs["rax"] == 7 && r.c.m.trap == c.m.trap && r.c.m.stack == c.m.stack
  {
    hide RunWord, RunProgram, Run, Valid, Value;
    OperandIsPushed(c, Num(7));
    var d := RunWord(c, decode(ws[2])).c;
    NextRuns(decode, ws, 2, c);
    OperandIsPushed(d, Reg("rax"));
    var e := RunWord(d, decode(ws[3])).c;
    NextRuns(decode, ws, 3, d);
    assert e.m.stack == c.m.stack + [Num(7), Reg("rax")];
    SevenIsAssigned(e, c.m.stack);
    LastRuns(decode, ws, e);
  }

  lemma NextRuns(decode: string -> Token, ws: seq<string>, j: nat, c: Control)
    requires Valid(c.m) && j + 1 < |ws|
    ensures var r := RunWord(c, decode(ws[j]));
            r.ok && r.c.goto == -1 && r.c.stop == 0 ==> RunProgram(decode, ws, j, c) == RunProgram(decode, ws, j + 1, r.c)
  {
    hide RunWord;
  }

  lemma JumpRuns(decode: string -> Token, ws: seq<string>, j: nat, c: Control)
    requires Valid(c.m) && j < |ws|
    ensures var r := RunWord(c, decode(ws[j]));
            r.ok && 0 <= r.c.goto < |ws| ==> RunProgram(decode, ws, j, c) == RunProgram(decode, ws, r.c.goto, r.c.(goto := -1))
  {
    hide RunWord;
  }

  lemma LastRuns(decode: string -> Token, ws: seq<string>, c: Control)
    requires Valid(c.m) && ws != []
    ensures var r := RunWord(c, decode(ws[|ws| - 1]));
            r.ok && r.c.goto == -1 && r.c.stop == 0 ==> RunProgram(decode, ws, |ws| - 1, c) == Parsed(1, r.c)
  {
    hide RunWord;
  }

  lemma OperandIsPushed(c: Control, e: Entry)
    requires Valid(c.m) && !c.skip && c.fuel >= 2 && |c.m.stack| < c.m.limit
    ensures RunWord(c, Operand(e)) == Step(true, c.(m := c.m.(stack := c.m.stack + [e]), fuel := c.fuel - 1))
  {
  }

  lemma SevenIsAssigned(c: Control, rest: seq<Entry>)
    requires Valid(c.m) && !c.skip && c.fuel >= 2 && c.m.stack == rest + [Num(7), Reg("rax")]
    requires "rax" in c.m.regs && c.m.sizes["rax"] == 64
    ensures var r := RunWord(c, Cmd(Assign));
            && r.ok && r.c.goto == c.goto && r.c.stop == c.stop && r.c.m.stack == rest && r.c.m.trap == c.m.trap
            && "rax" in r.c.m.regs && r.c.m.regs["rax"] == 7
  {
    hide Run;
    AssignEffect(c.m, rest, Num(7), "rax");
    KeptSeven(Run(c.m, Assign).m.regs["rax"]);
  }

  lemma KeptSeven(r: Word)
    ensures Kept(64, 7, r) ==> r == 7
  {
    Pow2Is64();
    if Kept(64, 7, r) {
      var k: nat :| Division(7, Pow2(64), k, r);
      ModuloUnique(7, Pow2(64), k, r);
      ModuloUnique(7, Pow2(64), 0, 7);
    }
  }

  // ----- a text of structured conditionals -----

  lemma {:induction false} TokenAt(decode: string -> Token, ws: seq<string>, i: nat)
    requires i < |ws|
    ensures Tokens(decode, ws)[i] == decode(ws[i])
  {
    if i > 0 {
      TokenAt(decode, ws[1..], i - 1);
    }
  }

  lemma {:induction false} FlatWithoutJumps(items: seq<Item>)
    requires Structured(items)
    ensures Goto !in Flatten(items)
    decreases items
  {
    if items != [] {
      FlatWithoutJumps(items[1..]);
      match items[0]
      case Do(t) =>
      case When(yes) => FlatWithoutJumps(yes);
      case Choose(yes, no) =>
        FlatWithoutJumps(yes);
        FlatWithoutJumps(no);
    }
  }

  /** A text that spells a structured program runs as that program: conditionals choose
      their branch, words do their work, and the return code tells whether one failed. */
  lemma StructuredText(decode: string -> Token, ws: seq<string>, items: seq<Item>, c: Control, limit: int)
    requires ws != [] && forall w :: w in ws ==> WordOk(w)
    requires Structured(items) && Passable(items) && Tokens(decode, ws) == Flatten(items)
    requires Valid(c.m) && limit > |ws|
    ensures var r, o := Parse(decode, JoinWords(ws), c, limit), DoItems(c.m.(trap := NoTrap), items);
            r.c.m == o.m && r.code == if o.ok then 1 else 0
  {
    hide ParseFrom, RunWords;
    var s, start := JoinWords(ws), Control(c.m.(trap := NoTrap), false, -1, 0, limit);
    FlatWithoutJumps(items);
    forall w | w in ws
      ensures decode(w) != Goto
    {
      var i :| 0 <= i < |ws| && ws[i] == w;
      TokenAt(decode, ws, i);
    }
    assert ws[0] in ws && s[0..] == s;
    TextRunsItsWords(decode, s, 0, ws, start);
    FlattenKeepsMeaning(start, items);
  }
}
