/** The drawing levels of jump lines beside a disassembly, as an interval colouring. */
module Reflines {

  // ----- line ends -----

  /** One end of the line with the given index, at the given (truncated) address. */
  datatype End = End(val: int, isFrom: bool, line: nat)

  /** The ends of n lines: every line has each of its two ends exactly once. */
  ghost predicate TwoEndsEach(ends: seq<End>, n: nat)
  {
    && (forall i :: 0 <= i < |ends| ==> ends[i].line < n)
    && DistinctEnds(ends)
    && (forall l, f :: 0 <= l < n ==> Seen(ends, l, f))
  }

  predicate DistinctEnds(ends: seq<End>)
  {
    forall i, j :: 0 <= i < j < |ends| && ends[i].line == ends[j].line ==> ends[i].isFrom != ends[j].isFrom
  }

  predicate Seen(ends: seq<End>, l: int, f: bool)
  {
    exists i :: 0 <= i < |ends| && ends[i].line == l && ends[i].isFrom == f
  }

  predicate Sorted(ends: seq<End>)
  {
    forall i, j :: 0 <= i < j < |ends| ==> ends[i].val <= ends[j].val
  }

  /** A line is open once one of its ends has been passed and the other has not. */
  predicate IsOpen(ends: seq<End>, l: int)
  {
    Seen(ends, l, true) != Seen(ends, l, false)
  }

  function OpenLines(ends: seq<End>, n: nat): set<nat>
  {
    set l: nat | l < n && IsOpen(ends, l)
  }

  /** The largest number of lines open at once over all prefixes of the ends. */
  function MaxOpen(ends: seq<End>, n: nat): nat
  {
    if ends == [] then 0
    else
      var before := MaxOpen(ends[..|ends| - 1], n);
      if |OpenLines(ends, n)| > before then |OpenLines(ends, n)| else before
  }

  lemma {:induction false} MaxOpenBounds(ends: seq<End>, n: nat, k: nat)
    requires k <= |ends|
    ensures |OpenLines(ends[..k], n)| <= MaxOpen(ends, n)
    ensures MaxOpen(ends[..k], n) <= MaxOpen(ends, n)
  {
    if k == |ends| {
      assert ends[..k] == ends;
      if ends == [] {
        assert OpenLines(ends, n) == {};
      }
    } else {
      var most := ends[..|ends| - 1];
      assert most[..k] == ends[..k];
      MaxOpenBounds(most, n, k);
    }
  }

  // ----- sorted insertion -----

  /** The position that the list insertion picks: before the first end that is not smaller. */
  function Position(ends: seq<End>, e: End): (p: nat)
    ensures p <= |ends|
    ensures forall i :: 0 <= i < p ==> ends[i].val < e.val
    ensures p < |ends| ==> e.val <= ends[p].val
  {
    if ends != [] && e.val > ends[0].val then 1 + Position(ends[1..], e) else 0
  }

  function Insert(ends: seq<End>, e: End): seq<End>
  {
    ends[..Position(ends, e)] + [e] + ends[Position(ends, e)..]
  }

  lemma InsertSeen(ends: seq<End>, e: End, l: int, f: bool)
    ensures Seen(Insert(ends, e), l, f) <==> Seen(ends, l, f) || (e.line == l && e.isFrom == f)
  {
    var p, s := Position(ends, e), Insert(ends, e);
    if Seen(ends, l, f) {
      var i :| 0 <= i < |ends| && ends[i].line == l && ends[i].isFrom == f;
      assert s[if i < p then i else i + 1] == ends[i];
    }
    if e.line == l && e.isFrom == f {
      assert s[p] == e;
    }
    if Seen(s, l, f) {
      var i :| 0 <= i < |s| && s[i].line == l && s[i].isFrom == f;
      assert s[i] == if i < p then ends[i] else if i == p then e else ends[i - 1];
    }
  }

  lemma InsertKeepsOrder(ends: seq<End>, e: End)
    requires Sorted(ends)
    ensures Sorted(Insert(ends, e))
  {
  }

  lemma InsertKeepsEnds(ends: seq<End>, e: End)
    requires DistinctEnds(ends) && !Seen(ends, e.line, e.isFrom)
    ensures DistinctEnds(Insert(ends, e))
  {
    var p, s := Position(ends, e), Insert(ends, e);
    forall i, j | 0 <= i < j < |s| && s[i].line == s[j].line
      ensures s[i].isFrom != s[j].isFrom
    {
      assert s[i] == if i < p then ends[i] else if i == p then e else ends[i - 1];
      assert s[j] == if j < p then ends[j] else if j == p then e else ends[j - 1];
    }
  }

  lemma InsertKeepsLines(ends: seq<End>, e: End, n: nat)
    requires e.line < n
    requires forall i :: 0 <= i < |ends| ==> ends[i].line < n
    ensures forall i :: 0 <= i < |Insert(ends, e)| ==> Insert(ends, e)[i].line < n
  {
  }

  /** Adding both ends of a new line keeps the list sorted and complete. */
  lemma AddLineEnds(ends: seq<End>, n: nat, from: int, to: int)
    requires TwoEndsEach(ends, n) && Sorted(ends)
    ensures var s := Insert(Insert(ends, End(from, true, n)), End(to, false, n));
            TwoEndsEach(s, n + 1) && Sorted(s)
  {
    var a, b := End(from, true, n), End(to, false, n);
    var mid := Insert(ends, a);
    InsertKeepsOrder(ends, a);
    InsertKeepsOrder(mid, b);
    InsertKeepsEnds(ends, a);
    InsertSeen(ends, a, n, false);
    InsertKeepsEnds(mid, b);
    InsertKeepsLines(ends, a, n + 1);
    InsertKeepsLines(mid, b, n + 1);
    forall l, f | 0 <= l < n + 1
      ensures Seen(Insert(mid, b), l, f)
    {
      InsertSeen(ends, a, l, f);
      InsertSeen(mid, b, l, f);
      assert l < n ==> Seen(ends, l, f);
    }
  }

  // ----- the level scan -----

  /** The scan's variables: level of each line (-1 for none yet), which slots are
      taken, and the cursor on the lowest free slot. */
  datatype Scan = Scan(level: seq<int>, taken: seq<bool>, min: nat)

  /** The first free slot from i on, or the length if there is none. */
  function NextFree(taken: seq<bool>, i: nat): (r: nat)
    requires i <= |taken|
    ensures i <= r <= |taken|
    ensures forall j :: i <= j < r ==> taken[j]
    ensures r < |taken| ==> !taken[r]
    decreases |taken| - i
  {
    if i < |taken| && taken[i] then NextFree(taken, i + 1) else i
  }

  predicate ScanFits(s: Scan, n: nat)
  {
    && |s.level| == n && |s.taken| == n + 1 && s.min <= n
    && forall l :: 0 <= l < n ==> s.level[l] == -1 || 1 <= s.level[l] <= n + 1
  }

  /** What the scan does at an end of line l. */
  function PassEnd(s: Scan, l: nat): Scan
    requires ScanFits(s, |s.level|) && l < |s.level|
  {
    if s.level[l] == -1 then
      var taken := s.taken[s.min := true];
      Scan(s.level[l := s.min + 1], taken, NextFree(taken, s.min + 1))
    else
      var slot := s.level[l] - 1;
      Scan(s.level, s.taken[slot := false], if s.min > slot then slot else s.min)
  }

  function StartScan(n: nat): Scan
  {
    Scan(seq(n, _ => -1), seq(n + 1, _ => false), 0)
  }

  predicate SlotOwned(ends: seq<End>, s: Scan, slot: nat)
  {
    exists l: nat :: l < |s.level| && IsOpen(ends, l) && s.level[l] == slot + 1
  }

  predicate DistinctLevels(ends: seq<End>, level: seq<int>)
  {
    forall a: nat, b: nat :: a < b < |level| && IsOpen(ends, a) && IsOpen(ends, b) ==> level[a] != level[b]
  }

  predicate StartedHaveLevels(ends: seq<End>, level: seq<int>)
  {
    forall l: nat :: l < |level| ==> (level[l] == -1 <==> !Seen(ends, l, true) && !Seen(ends, l, false))
  }

  predicate TakenAreOwned(ends: seq<End>, s: Scan)
  {
    forall j: nat :: j < |s.taken| ==> (s.taken[j] <==> SlotOwned(ends, s, j))
  }

  /** Open lines have different levels, the taken slots are exactly theirs, and the
      cursor is on the lowest free slot. */
  predicate Consistent(ends: seq<End>, s: Scan)
  {
    && ScanFits(s, |s.level|)
    && StartedHaveLevels(ends, s.level)
    && TakenAreOwned(ends, s)
    && DistinctLevels(ends, s.level)
    && !s.taken[s.min]
    && (forall j: nat :: j < s.min ==> s.taken[j])
  }

  lemma StartConsistent(n: nat)
    ensures Consistent([], StartScan(n))
  {
  }

  // ----- counting open lines -----

  /** Lines open up to the given level. */
  function OpenUpTo(ends: seq<End>, level: seq<int>, m: nat): set<nat>
  {
    set l: nat | l < |level| && IsOpen(ends, l) && level[l] <= m
  }

  /** If the m lowest slots are owned, at least m lines are open. */
  lemma {:induction false} OwnedSlotsAreLines(ends: seq<End>, s: Scan, m: nat)
    requires forall j: nat :: j < m ==> SlotOwned(ends, s, j)
    ensures |OpenUpTo(ends, s.level, m)| >= m
  {
    if m > 0 {
      OwnedSlotsAreLines(ends, s, m - 1);
      assert SlotOwned(ends, s, m - 1);
      var l: nat :| l < |s.level| && IsOpen(ends, l) && s.level[l] == m;
      SubsetSize(OpenUpTo(ends, s.level, m - 1) + {l}, OpenUpTo(ends, s.level, m));
    }
  }

  /** At most m open lines have levels up to m. */
  lemma {:induction false} LinesFitLevels(ends: seq<End>, level: seq<int>, m: nat)
    requires DistinctLevels(ends, level)
    requires forall l: nat :: l < |level| && IsOpen(ends, l) ==> level[l] >= 1
    ensures |OpenUpTo(ends, level, m)| <= m
  {
    if m == 0 {
      assert OpenUpTo(ends, level, 0) == {};
    } else {
      LinesFitLevels(ends, level, m - 1);
      if l: nat :| l < |level| && IsOpen(ends, l) && level[l] == m {
        assert OpenUpTo(ends, level, m) == OpenUpTo(ends, level, m - 1) + {l};
      } else {
        assert OpenUpTo(ends, level, m) == OpenUpTo(ends, level, m - 1);
      }
    }
  }

  lemma SubsetSize<T>(a: set<T>, b: set<T>)
    requires a <= b
    ensures |a| <= |b|
  {
    assert b == a + (b - a);
  }

  function Below(n: nat): (s: set<nat>)
    ensures |s| == n
    ensures forall x: nat :: x in s <==> x < n
  {
    if n == 0 then {} else Below(n - 1) + {n - 1}
  }

  lemma OpenLinesFit(ends: seq<End>, n: nat)
    ensures |OpenLines(ends, n)| <= n
  {
    SubsetSize(OpenLines(ends, n), Below(n));
  }

  // ----- one end -----

  lemma SeenAppend(ends: seq<End>, e: End, l: int, f: bool)
    ensures Seen(ends + [e], l, f) <==> Seen(ends, l, f) || (e.line == l && e.isFrom == f)
  {
    if Seen(ends, l, f) {
      var i :| 0 <= i < |ends| && ends[i].line == l && ends[i].isFrom == f;
      assert (ends + [e])[i] == ends[i];
    }
    if e.line == l && e.isFrom == f {
      assert (ends + [e])[|ends|] == e;
    }
  }

  lemma OpenAppend(ends: seq<End>, e: End, n: nat)
    requires !Seen(ends, e.line, e.isFrom)
    ensures forall l: nat :: l != e.line ==> IsOpen(ends + [e], l) == IsOpen(ends, l)
    ensures IsOpen(ends + [e], e.line) == !Seen(ends, e.line, !e.isFrom)
  {
    forall l: nat, f: bool
      ensures Seen(ends + [e], l, f) <==> Seen(ends, l, f) || (e.line == l && e.isFrom == f)
    {
      SeenAppend(ends, e, l, f);
    }
  }

  lemma UpToAreOpen(ends: seq<End>, level: seq<int>, m: nat)
    ensures OpenUpTo(ends, level, m) <= OpenLines(ends, |level|)
  {
  }

  /** The first end of a line opens it in the lowest free slot. */
  lemma OpeningIsConsistent(ends: seq<End>, s: Scan, e: End)
    requires Consistent(ends, s) && e.line < |s.level| && s.level[e.line] == -1
    ensures Consistent(ends + [e], PassEnd(s, e.line))
    ensures s.min + 1 <= |OpenLines(ends + [e], |s.level|)|
  {
    hide Seen, SlotOwned, DistinctLevels, OpenLines, OpenUpTo;
    var n, l, after, t := |s.level|, e.line, ends + [e], PassEnd(s, e.line);
    forall k: nat, f: bool
      ensures Seen(after, k, f) <==> Seen(ends, k, f) || (l == k && e.isFrom == f)
    {
      SeenAppend(ends, e, k, f);
    }
    OpenAppend(ends, e, n);
    forall j: nat | j < n + 1
      ensures t.taken[j] <==> SlotOwned(after, t, j)
    {
      OpeningOwners(ends, s, e, j);
    }
    OpeningIsDistinct(ends, s, e);
    forall j: nat | j < s.min + 1
      ensures SlotOwned(after, t, j)
    {
      assert t.taken[j];
    }
    OwnedSlotsAreLines(after, t, s.min + 1);
    UpToAreOpen(after, t.level, s.min + 1);
    SubsetSize(OpenUpTo(after, t.level, s.min + 1), OpenLines(after, n));
    OpenLinesFit(after, n);
    if t.min == n + 1 {
      forall j: nat | j < n + 1
        ensures SlotOwned(after, t, j)
      {
        assert t.taken[j];
      }
      OwnedSlotsAreLines(after, t, n + 1);
      UpToAreOpen(after, t.level, n + 1);
      SubsetSize(OpenUpTo(after, t.level, n + 1), OpenLines(after, n));
      assert false;
    }
  }

  lemma OpeningIsDistinct(ends: seq<End>, s: Scan, e: End)
    requires Consistent(ends, s) && e.line < |s.level| && s.level[e.line] == -1
    ensures DistinctLevels(ends + [e], s.level[e.line := s.min + 1])
  {
    OpenAppend(ends, e, |s.level|);
    assert !SlotOwned(ends, s, s.min);
  }

  lemma OpeningOwners(ends: seq<End>, s: Scan, e: End, j: nat)
    requires Consistent(ends, s) && e.line < |s.level| && s.level[e.line] == -1 && j < |s.taken|
    ensures PassEnd(s, e.line).taken[j] <==> SlotOwned(ends + [e], PassEnd(s, e.line), j)
  {
    var l, after, t := e.line, ends + [e], PassEnd(s, e.line);
    OpenAppend(ends, e, |s.level|);
    assert IsOpen(after, l) && t.level[l] == s.min + 1;
    if SlotOwned(ends, s, j) {
      var k: nat :| k < |s.level| && IsOpen(ends, k) && s.level[k] == j + 1;
      assert IsOpen(after, k) && t.level[k] == j + 1;
    }
    if SlotOwned(after, t, j) && j != s.min {
      var k: nat :| k < |t.level| && IsOpen(after, k) && t.level[k] == j + 1;
      assert IsOpen(ends, k) && s.level[k] == j + 1;
    }
  }

  /** The second end of a line frees its slot. */
  lemma ClosingIsConsistent(ends: seq<End>, s: Scan, e: End)
    requires Consistent(ends, s) && e.line < |s.level| && s.level[e.line] != -1
    requires !Seen(ends, e.line, e.isFrom)
    ensures Consistent(ends + [e], PassEnd(s, e.line))
  {
    var n, l, after, t := |s.level|, e.line, ends + [e], PassEnd(s, e.line);
    forall k: nat, f: bool
      ensures Seen(after, k, f) <==> Seen(ends, k, f) || (l == k && e.isFrom == f)
    {
      SeenAppend(ends, e, k, f);
    }
    OpenAppend(ends, e, n);
    forall j: nat | j < n + 1
      ensures t.taken[j] <==> SlotOwned(after, t, j)
    {
      ClosingOwners(ends, s, e, j);
    }
  }

  lemma ClosingOwners(ends: seq<End>, s: Scan, e: End, j: nat)
    requires Consistent(ends, s) && e.line < |s.level| && s.level[e.line] != -1 && j < |s.taken|
    requires !Seen(ends, e.line, e.isFrom)
    ensures PassEnd(s, e.line).taken[j] <==> SlotOwned(ends + [e], PassEnd(s, e.line), j)
  {
    var l, after, t := e.line, ends + [e], PassEnd(s, e.line);
    OpenAppend(ends, e, |s.level|);
    assert IsOpen(ends, l) && !IsOpen(after, l);
    if SlotOwned(ends, s, j) && j != s.level[l] - 1 {
      var k: nat :| k < |s.level| && IsOpen(ends, k) && s.level[k] == j + 1;
      assert IsOpen(after, k) && t.level[k] == j + 1;
    }
    if SlotOwned(after, t, j) {
      var k: nat :| k < |t.level| && IsOpen(after, k) && t.level[k] == j + 1;
      assert IsOpen(ends, k) && s.level[k] == j + 1;
    }
  }

  // ----- the whole scan -----

  predicate ValidEnds(ends: seq<End>, n: nat)
  {
    DistinctEnds(ends) && forall i :: 0 <= i < |ends| ==> ends[i].line < n
  }

  lemma PrefixValid(ends: seq<End>, n: nat, k: nat)
    requires ValidEnds(ends, n) && k < |ends|
    ensures ValidEnds(ends[..k], n) && !Seen(ends[..k], ends[k].line, ends[k].isFrom)
    ensures ends[..k + 1] == ends[..k] + [ends[k]]
  {
  }

  /** The scan's variables after all the given ends. */
  function ScanAll(ends: seq<End>, n: nat): (s: Scan)
    requires ValidEnds(ends, n)
    ensures |s.level| == n && Consistent(ends, s)
    ensures forall l: nat :: l < n ==> s.level[l] <= MaxOpen(ends, n)
    decreases |ends|
  {
    if ends == [] then
      StartConsistent(n);
      StartScan(n)
    else
      var before, e := ends[..|ends| - 1], ends[|ends| - 1];
      PrefixValid(ends, n, |ends| - 1);
      assert before + [e] == ends;
      var s := ScanAll(before, n);
      EndIsConsistent(before, s, e);
      PassEnd(s, e.line)
  }

  lemma EndIsConsistent(ends: seq<End>, s: Scan, e: End)
    requires Consistent(ends, s) && e.line < |s.level| && !Seen(ends, e.line, e.isFrom)
    ensures Consistent(ends + [e], PassEnd(s, e.line))
    ensures s.level[e.line] == -1 ==> s.min + 1 <= |OpenLines(ends + [e], |s.level|)|
  {
    if s.level[e.line] == -1 {
      OpeningIsConsistent(ends, s, e);
    } else {
      ClosingIsConsistent(ends, s, e);
    }
  }

  /** A level, once given, is final. */
  lemma {:induction false} LevelIsFinal(ends: seq<End>, n: nat, k: nat, l: nat)
    requires ValidEnds(ends, n) && k <= |ends| && l < n && ValidEnds(ends[..k], n)
    requires ScanAll(ends[..k], n).level[l] != -1
    ensures ScanAll(ends, n).level[l] == ScanAll(ends[..k], n).level[l]
    decreases |ends|
  {
    if k == |ends| {
      assert ends[..k] == ends;
    } else {
      var before := ends[..|ends| - 1];
      PrefixValid(ends, n, |ends| - 1);
      assert before[..k] == ends[..k];
      LevelIsFinal(before, n, k, l);
      LevelKept(ScanAll(before, n), ends[|ends| - 1].line, l);
    }
  }

  lemma LevelKept(s: Scan, line: nat, l: nat)
    requires ScanFits(s, |s.level|) && line < |s.level| && l < |s.level| && s.level[l] != -1
    ensures PassEnd(s, line).level[l] == s.level[l]
  {
  }

  /** Lines that are open at the same time get different levels. */
  lemma OpenTogetherDiffer(ends: seq<End>, n: nat, k: nat, a: nat, b: nat)
    requires ValidEnds(ends, n) && k <= |ends| && a < n && b < n && a != b
    requires IsOpen(ends[..k], a) && IsOpen(ends[..k], b)
    ensures ScanAll(ends, n).level[a] != ScanAll(ends, n).level[b]
  {
    assert ValidEnds(ends[..k], n);
    LevelIsFinal(ends, n, k, a);
    LevelIsFinal(ends, n, k, b);
  }

  /** The largest level given, or zero without lines. */
  function LargestLevel(level: seq<int>): (m: int)
    ensures m >= 0
    ensures forall l :: 0 <= l < |level| ==> level[l] <= m
    ensures m > 0 ==> m in level
  {
    if level == [] then 0
    else
      var m := LargestLevel(level[1..]);
      if level[0] > m then level[0] else m
  }

  /** The colouring is optimal: it uses exactly as many levels as lines are ever open
      at once. */
  lemma {:induction false} LevelsAreOptimal(ends: seq<End>, n: nat)
    requires ValidEnds(ends, n)
    ensures LargestLevel(ScanAll(ends, n).level) == MaxOpen(ends, n)
  {
    var k := BusiestPrefix(ends, n);
    assert ValidEnds(ends[..k], n);
    var level, final := ScanAll(ends[..k], n).level, ScanAll(ends, n).level;
    var m := LargestLevel(final);
    forall l: nat | l < n && IsOpen(ends[..k], l)
      ensures level[l] <= m
    {
      LevelIsFinal(ends, n, k, l);
    }
    assert OpenUpTo(ends[..k], level, m) == OpenLines(ends[..k], n);
    LinesFitLevels(ends[..k], level, m);
  }

  lemma {:induction false} BusiestPrefix(ends: seq<End>, n: nat) returns (k: nat)
    ensures k <= |ends| && |OpenLines(ends[..k], n)| == MaxOpen(ends, n)
  {
    if ends == [] {
      k := 0;
      assert OpenLines(ends[..0], n) == {};
    } else {
      var before := ends[..|ends| - 1];
      k := BusiestPrefix(before, n);
      assert before[..k] == ends[..k];
      if |OpenLines(ends, n)| > MaxOpen(before, n) {
        k := |ends|;
        assert ends[..k] == ends;
      }
    }
  }

  // ----- address ranges -----

  /** The 32-bit signed value that an end keeps of a 64-bit address. */
  function Key(addr: nat): int
  {
    var w := addr % 0x1_0000_0000;
    if w < 0x8000_0000 then w else w - 0x1_0000_0000
  }

  datatype Jump = Jump(from: nat, to: nat) {
    function Low(): int { if Key(from) < Key(to) then Key(from) else Key(to) }
    function High(): int { if Key(from) < Key(to) then Key(to) else Key(from) }
  }

  /** The ends carry the keys of the lines' addresses. */
  predicate EndsOf(ends: seq<End>, jumps: seq<Jump>)
  {
    forall i :: 0 <= i < |ends| ==>
      && ends[i].line < |jumps|
      && ends[i].val == Key(if ends[i].isFrom then jumps[ends[i].line].from else jumps[ends[i].line].to)
  }

  /** Lines whose open key ranges intersect are open together, hence drawn apart. */
  lemma IntersectingLinesDiffer(ends: seq<End>, jumps: seq<Jump>, a: nat, b: nat)
    requires TwoEndsEach(ends, |jumps|) && Sorted(ends) && EndsOf(ends, jumps)
    requires a < |jumps| && b < |jumps| && a != b
    requires jumps[a].Low() < jumps[b].High() && jumps[b].Low() < jumps[a].High()
    requires jumps[a].Low() < jumps[a].High() && jumps[b].Low() < jumps[b].High()
    ensures ScanAll(ends, |jumps|).level[a] != ScanAll(ends, |jumps|).level[b]
  {
    var a0, a1 := EndPositions(ends, jumps, a);
    var b0, b1 := EndPositions(ends, jumps, b);
    var k := if a0 < b0 then b0 + 1 else a0 + 1;
    OpenBetween(ends, a, a0, a1, k);
    OpenBetween(ends, b, b0, b1, k);
    OpenTogetherDiffer(ends, |jumps|, k, a, b);
  }

  /** Where the lower and the upper end of a line are. */
  lemma EndPositions(ends: seq<End>, jumps: seq<Jump>, l: nat) returns (lo: nat, hi: nat)
    requires TwoEndsEach(ends, |jumps|) && Sorted(ends) && EndsOf(ends, jumps)
    requires l < |jumps| && jumps[l].Low() < jumps[l].High()
    ensures lo < hi < |ends| && ends[lo].line == ends[hi].line == l
    ensures ends[lo].val == jumps[l].Low() && ends[hi].val == jumps[l].High()
  {
    assert Seen(ends, l, true) && Seen(ends, l, false);
    var f :| 0 <= f < |ends| && ends[f].line == l && ends[f].isFrom == true;
    var t :| 0 <= t < |ends| && ends[t].line == l && ends[t].isFrom == false;
    lo, hi := if f < t then f else t, if f < t then t else f;
  }

  lemma OpenBetween(ends: seq<End>, l: nat, lo: nat, hi: nat, k: nat)
    requires DistinctEnds(ends) && lo < hi < |ends| && ends[lo].line == ends[hi].line == l
    requires lo < k <= hi
    ensures IsOpen(ends[..k], l)
  {
    assert ends[..k][lo] == ends[lo];
  }

  /** The true address range of a jump contains a point of the other's. */
  predicate RangesIntersect(a: Jump, b: Jump)
  {
    && a.from != a.to && b.from != b.to
    && (a.from < b.from || a.from < b.to || a.to < b.from || a.to < b.to)
    && (b.from < a.from || b.from < a.to || b.to < a.from || b.to < a.to)
  }

  /** Keys count from the last odd multiple of 2^31, so they start over at each of them. */
  function Lap(addr: nat): nat
  {
    (addr + 0x8000_0000) / 0x1_0000_0000
  }

  lemma KeyInLap(x: nat)
    ensures Key(x) == x - Lap(x) * 0x1_0000_0000
    ensures -0x8000_0000 <= Key(x) < 0x8000_0000
  {
    var q, w := x / 0x1_0000_0000, x % 0x1_0000_0000;
    assert x == q * 0x1_0000_0000 + w;
    if w < 0x8000_0000 {
      assert Lap(x) == q;
    } else {
      assert Lap(x) == q + 1;
    }
  }

  /** Keys order addresses of one lap alike. */
  lemma KeyKeepsOrder(x: nat, y: nat)
    requires Lap(x) == Lap(y)
    ensures x < y <==> Key(x) < Key(y)
  {
    KeyInLap(x);
    KeyInLap(y);
  }

  /** The ends of lines, added one line after the other. */
  function EndsOfLines(jumps: seq<Jump>): seq<End>
  {
    if jumps == [] then []
    else
      var n := |jumps| - 1;
      Insert(Insert(EndsOfLines(jumps[..n]), End(Key(jumps[n].from), true, n)), End(Key(jumps[n].to), false, n))
  }

  lemma InsertKeepsEndsOf(ends: seq<End>, e: End, jumps: seq<Jump>)
    requires EndsOf(ends, jumps) && EndsOf([e], jumps)
    ensures EndsOf(Insert(ends, e), jumps)
  {
    var p, s := Position(ends, e), Insert(ends, e);
    assert [e][0] == e;
    forall i | 0 <= i < |s|
      ensures s[i] == e || s[i] in ends
    {
      assert s[i] == if i < p then ends[i] else if i == p then e else ends[i - 1];
    }
  }

  lemma {:induction false} EndsAreRight(jumps: seq<Jump>)
    ensures TwoEndsEach(EndsOfLines(jumps), |jumps|) && Sorted(EndsOfLines(jumps)) && EndsOf(EndsOfLines(jumps), jumps)
  {
    if jumps != [] {
      var n := |jumps| - 1;
      var before, a, b := EndsOfLines(jumps[..n]), End(Key(jumps[n].from), true, n), End(Key(jumps[n].to), false, n);
      EndsAreRight(jumps[..n]);
      AddLineEnds(before, n, a.val, b.val);
      assert EndsOf(before, jumps);
      InsertKeepsEndsOf(before, a, jumps);
      InsertKeepsEndsOf(Insert(before, a), b, jumps);
    }
  }

  predicate InWindow(j: Jump, lo: nat, hi: nat)
  {
    lo <= j.from <= hi && lo <= j.to <= hi
  }

  predicate DrawnApart(jumps: seq<Jump>, a: nat, b: nat)
    requires ValidEnds(EndsOfLines(jumps), |jumps|) && a < |jumps| && b < |jumps|
  {
    ScanAll(EndsOfLines(jumps), |jumps|).level[a] != ScanAll(EndsOfLines(jumps), |jumps|).level[b]
  }

  /** Two of the given lines within the window have ranges that intersect. */
  predicate Meet(jumps: seq<Jump>, a: nat, b: nat, lo: nat, hi: nat)
  {
    && a < |jumps| && b < |jumps| && a != b
    && InWindow(jumps[a], lo, hi) && InWindow(jumps[b], lo, hi) && RangesIntersect(jumps[a], jumps[b])
  }

  /** Whatever the lines, those within the window whose ranges intersect are drawn apart. */
  ghost predicate WindowWorks(lo: nat, hi: nat)
  {
    forall jumps: seq<Jump>, a: nat, b: nat :: Meet(jumps, a, b, lo, hi) ==>
      ValidEnds(EndsOfLines(jumps), |jumps|) && DrawnApart(jumps, a, b)
  }

  /** Exactly when lines whose address ranges intersect are drawn apart: the addresses do
      not pass an odd multiple of 2^31, or there are only two of them. */
  lemma TrueRangesDiffer(lo: nat, hi: nat)
    requires lo <= hi
    ensures WindowWorks(lo, hi) <==> Lap(lo) == Lap(hi) || hi < lo + 2
  {
    if Lap(lo) == Lap(hi) || hi < lo + 2 {
      forall jumps: seq<Jump>, a: nat, b: nat | Meet(jumps, a, b, lo, hi)
        ensures ValidEnds(EndsOfLines(jumps), |jumps|) && DrawnApart(jumps, a, b)
      {
        EndsAreRight(jumps);
        WindowKeysIntersect(jumps[a], jumps[b], lo, hi);
        WindowKeysIntersect(jumps[b], jumps[a], lo, hi);
        IntersectingLinesDiffer(EndsOfLines(jumps), jumps, a, b);
      }
    } else {
      var jumps := TruncatedKeysCollide(lo, hi);
      assert !DrawnApart(jumps, 0, 1);
    }
  }

  lemma LapGrows(x: nat, y: nat)
    requires x <= y
    ensures Lap(x) <= Lap(y)
  {
  }

  lemma WindowKeysIntersect(a: Jump, b: Jump, lo: nat, hi: nat)
    requires InWindow(a, lo, hi) && InWindow(b, lo, hi) && RangesIntersect(a, b) && (Lap(lo) == Lap(hi) || hi < lo + 2)
    ensures a.Low() < b.High() && a.Low() < a.High()
  {
    hide Key, Lap;
    if Lap(lo) == Lap(hi) {
      forall x: nat | lo <= x <= hi
        ensures Lap(x) == Lap(lo)
      {
        LapGrows(lo, x);
        LapGrows(x, hi);
      }
      KeyKeepsOrder(a.from, a.to);
      KeyKeepsOrder(a.to, a.from);
      KeyKeepsOrder(a.from, b.from);
      KeyKeepsOrder(a.from, b.to);
      KeyKeepsOrder(a.to, b.from);
      KeyKeepsOrder(a.to, b.to);
    } else {
      KeyInLap(lo);
      KeyInLap(hi);
    }
  }

  /** The keys of the second line lie before those of the first, but for one in common. */
  predicate KeysTouch(jumps: seq<Jump>)
    requires |jumps| == 2
  {
    var a, b, c, d := Key(jumps[0].from), Key(jumps[0].to), Key(jumps[1].from), Key(jumps[1].to);
    (c < d == b < a) || (d < c == a < b)
  }

  /** Across an odd multiple of 2^31 any three addresses have two lines like that. */
  lemma TouchingLines(lo: nat, hi: nat) returns (jumps: seq<Jump>)
    requires Lap(lo) != Lap(hi) && hi >= lo + 2
    ensures |jumps| == 2 && InWindow(jumps[0], lo, hi) && InWindow(jumps[1], lo, hi) && RangesIntersect(jumps[0], jumps[1])
    ensures KeysTouch(jumps)
  {
    var edge := Lap(hi) * 0x1_0000_0000 - 0x8000_0000;
    LapGrows(lo, hi);
    KeyInLap(lo);
    KeyInLap(hi);
    assert lo < edge <= hi;
    KeyAtEdge(edge, Lap(hi));
    if edge < hi {
      jumps := [Jump(edge - 1, edge + 1), Jump(edge, edge + 1)];
    } else {
      jumps := [Jump(edge - 2, edge - 1), Jump(edge - 2, edge)];
    }
  }

  lemma KeyAtEdge(edge: nat, n: nat)
    requires edge == n * 0x1_0000_0000 - 0x8000_0000 && edge >= 2
    ensures Key(edge) == -0x8000_0000 && Key(edge + 1) == -0x7fff_ffff
    ensures Key(edge - 1) == 0x7fff_ffff && Key(edge - 2) == 0x7fff_fffe
  {
    KeyInLap(edge);
    KeyInLap(edge + 1);
    KeyInLap(edge - 1);
    KeyInLap(edge - 2);
    assert Lap(edge) == n && Lap(edge + 1) == n && Lap(edge - 1) == n - 1 && Lap(edge - 2) == n - 1;
  }

  /** There the promise fails: two lines whose ranges intersect are both drawn on level
      one. */
  lemma TruncatedKeysCollide(lo: nat, hi: nat) returns (jumps: seq<Jump>)
    requires Lap(lo) != Lap(hi) && hi >= lo + 2
    ensures |jumps| == 2 && InWindow(jumps[0], lo, hi) && InWindow(jumps[1], lo, hi) && RangesIntersect(jumps[0], jumps[1])
    ensures ValidEnds(EndsOfLines(jumps), 2) && ScanAll(EndsOfLines(jumps), 2).level == [1, 1]
  {
    hide KeysTouch, Key, RangesIntersect, EndsOf, Seen;
    jumps := TouchingLines(lo, hi);
    EndsAreRight(jumps);
    var ends := FourEnds(jumps);
    forall k | 0 <= k <= 4
      ensures |OpenLines(ends[..k], 2)| <= 1
    {
      ApartInFour(ends, k);
    }
    DisjointLinesShareLevel(ends);
  }

  /** The ends of the lines above. */
  lemma FourEnds(jumps: seq<Jump>) returns (ends: seq<End>)
    requires |jumps| == 2 && KeysTouch(jumps)
    ensures ends == EndsOfLines(jumps) && |ends| == 4
    ensures ends[0].line == ends[1].line == 1 && ends[2].line == ends[3].line == 0
    ensures ends[0].isFrom != ends[1].isFrom && ends[2].isFrom != ends[3].isFrom
  {
    ends := EndsOfLines(jumps);
    var a, b := End(Key(jumps[0].from), true, 0), End(Key(jumps[0].to), false, 0);
    var c, d := End(Key(jumps[1].from), true, 1), End(Key(jumps[1].to), false, 1);
    assert EndsOfLines(jumps[..0]) == [] && EndsOfLines(jumps[..1][..0]) == [];
    assert jumps[..1][0] == jumps[0];
    var one := EndsOfLines(jumps[..1]);
    assert one == Insert(Insert([], a), b);
    assert Insert([], a) == [a];
    if b.val < a.val {
      assert one == [b, a];
      assert Insert(one, c) == [c, b, a];
      assert Position([c, b, a], d) == 1;
      assert ends == [c, d, b, a];
    } else {
      assert one == [a, b];
      assert Insert(one, c) == [c, a, b];
      assert ends == [d, c, a, b];
    }
  }

  lemma ApartInFour(ends: seq<End>, k: nat)
    requires |ends| == 4 && k <= 4
    requires ends[0].line == 1 && ends[1].line == 1 && ends[2].line == 0 && ends[3].line == 0
    requires ends[0].isFrom != ends[1].isFrom
    ensures |OpenLines(ends[..k], 2)| <= 1
  {
    var open := OpenLines(ends[..k], 2);
    if k >= 2 {
      assert ends[..k][0] == ends[0] && ends[..k][1] == ends[1];
      assert 1 !in open;
      SubsetSize(open, {0});
    } else {
      assert 0 !in open;
      SubsetSize(open, {1});
    }
  }

  /** Lines of which no two are ever open together are all drawn on level one. */
  lemma DisjointLinesShareLevel(ends: seq<End>)
    requires TwoEndsEach(ends, 2)
    requires forall k :: 0 <= k <= |ends| ==> |OpenLines(ends[..k], 2)| <= 1
    ensures ScanAll(ends, 2).level == [1, 1]
  {
    var k := BusiestPrefix(ends, 2);
    var level := ScanAll(ends, 2).level;
    forall l: nat | l < 2
      ensures level[l] == 1
    {
      assert Seen(ends, l, true);
    }
  }

  // ----- the lists and the loop -----

  /** A line to draw. */
  class Refline {
    const from: nat
    const to: nat
    const index: nat
    var level: int

    constructor (from: nat, to: nat, index: nat)
      ensures this.from == from && this.to == to && this.index == index && level == -1
    {
      this.from, this.to, this.index, level := from, to, index, -1;
    }
  }

  datatype ReflineEnd = ReflineEnd(val: int, isFrom: bool, r: Refline)

  function Abstract(e: ReflineEnd): End
  {
    End(e.val, e.isFrom, e.r.index)
  }

  function AbstractAll(sten: seq<ReflineEnd>): (ends: seq<End>)
    ensures |ends| == |sten|
    ensures forall i :: 0 <= i < |sten| ==> ends[i] == Abstract(sten[i])
  {
    seq(|sten|, i requires 0 <= i < |sten| => Abstract(sten[i]))
  }

  function InsertAt<T>(s: seq<T>, e: T, p: nat): seq<T>
    requires p <= |s|
  {
    s[..p] + [e] + s[p..]
  }

  lemma InsertAbstract(s: seq<ReflineEnd>, e: ReflineEnd)
    ensures AbstractAll(InsertAt(s, e, Position(AbstractAll(s), Abstract(e)))) == Insert(AbstractAll(s), Abstract(e))
  {
  }

  lemma InsertedFrom(s: seq<ReflineEnd>, e: ReflineEnd, p: nat)
    requires p <= |s|
    ensures forall x :: x in InsertAt(s, e, p) <==> x in s || x == e
  {
    assert s == s[..p] + s[p..];
  }

  function JumpsOf(list: seq<Refline>): seq<Jump>
  {
    seq(|list|, i requires 0 <= i < |list| => Jump(list[i].from, list[i].to))
  }

  /** The lists agree: both ends of every line are present, in order of their keys. */
  ghost predicate WellFormed(list: seq<Refline>, sten: seq<ReflineEnd>)
  {
    && (forall i :: 0 <= i < |list| ==> list[i].index == i)
    && (forall i :: 0 <= i < |sten| ==> sten[i].r in list)
    && TwoEndsEach(AbstractAll(sten), |list|)
    && Sorted(AbstractAll(sten))
    && EndsOf(AbstractAll(sten), JumpsOf(list))
  }

  function InsertEndInto(sten: seq<ReflineEnd>, e: ReflineEnd): seq<ReflineEnd>
  {
    InsertAt(sten, e, Position(AbstractAll(sten), Abstract(e)))
  }

  lemma AddKeepsWellFormed(list: seq<Refline>, sten: seq<ReflineEnd>, item: Refline)
    requires WellFormed(list, sten) && item.index == |list|
    ensures var re1, re2 := ReflineEnd(Key(item.from), true, item), ReflineEnd(Key(item.to), false, item);
            WellFormed(list + [item], InsertEndInto(InsertEndInto(sten, re1), re2))
    ensures JumpsOf(list + [item]) == JumpsOf(list) + [Jump(item.from, item.to)]
  {
    hide Key;
    var re1, re2 := ReflineEnd(Key(item.from), true, item), ReflineEnd(Key(item.to), false, item);
    var ends, mid := AbstractAll(sten), InsertEndInto(sten, re1);
    InsertAbstract(sten, re1);
    InsertAbstract(mid, re2);
    AddLineEnds(ends, |list|, Key(item.from), Key(item.to));
    assert JumpsOf(list + [item]) == JumpsOf(list) + [Jump(item.from, item.to)];
    EndsOfGrows(ends, JumpsOf(list), item.from, item.to);
    EndsOfLinesIn(list, sten, item, re1, re2);
  }

  lemma EndsOfLinesIn(list: seq<Refline>, sten: seq<ReflineEnd>, item: Refline, re1: ReflineEnd, re2: ReflineEnd)
    requires (forall e :: e in sten ==> e.r in list) && re1.r == item && re2.r == item
    ensures forall e :: e in InsertEndInto(InsertEndInto(sten, re1), re2) ==> e.r in list + [item]
  {
    var mid := InsertEndInto(sten, re1);
    forall e | e in InsertEndInto(mid, re2)
      ensures e.r in list + [item]
    {
      InsertedFrom(sten, re1, Position(AbstractAll(sten), Abstract(re1)));
      InsertedFrom(mid, re2, Position(AbstractAll(mid), Abstract(re2)));
    }
  }

  class Reflines {
    /** All lines, in the order they were found. */
    var list: seq<Refline>
    /** The ends of all lines, by ascending key. */
    var sten: seq<ReflineEnd>

    function Jumps(): seq<Jump>
      reads this
    {
      JumpsOf(list)
    }

    function Ends(): seq<End>
      reads this
    {
      AbstractAll(sten)
    }

    function Levels(): seq<int>
      reads this, list
    {
      seq(|list|, i requires 0 <= i < |list| reads this, list => list[i].level)
    }

    ghost predicate Valid()
      reads this
    {
      WellFormed(list, sten)
    }

    constructor ()
      ensures Valid() && list == []
    {
      list, sten := [], [];
    }

    method InsertEnd(e: ReflineEnd)
      modifies this`sten
      ensures sten == InsertEndInto(old(sten), e)
    {
      var i := 0;
      while i < |sten| && e.val > sten[i].val
        invariant i <= |sten|
        invariant forall j :: 0 <= j < i ==> sten[j].val < e.val
      {
        i := i + 1;
      }
      PositionUnique(AbstractAll(sten), Abstract(e), i);
      sten := InsertAt(sten, e, i);
    }

    /** Appends a line and inserts its two ends. */
    method AddRefline(from: nat, to: nat)
      requires Valid()
      modifies this
      ensures Valid() && Jumps() == old(Jumps()) + [Jump(from, to)]
      ensures |list| == |old(list)| + 1 && list[..|old(list)|] == old(list)
      ensures fresh(list[|old(list)|]) && list[|old(list)|].level == -1
    {
      var item := new Refline(from, to, |list|);
      AddKeepsWellFormed(list, sten, item);
      list := list + [item];
      InsertEnd(ReflineEnd(Key(from), true, item));
      InsertEnd(ReflineEnd(Key(to), false, item));
    }

    /** Gives every line its level. */
    method AssignLevels()
      requires Valid() && forall i :: 0 <= i < |list| ==> list[i].level == -1
      modifies list
      ensures Valid() && Levels() == ScanAll(Ends(), |list|).level
    {
      ghost var ends := Ends();
      var n := |list|;
      var freeLevels := new bool[n + 1](_ => false);
      var min: nat := 0;
      var k := 0;
      assert ends[..0] == [];
      while k < |sten|
        invariant k <= |sten| && min <= n && ValidEnds(ends[..k], n)
        invariant Scan(Levels(), freeLevels[..], min) == ScanAll(ends[..k], n)
      {
        ScanPrefixStep(ends, n, k);
        min := PassOne(sten[k], freeLevels, min);
        k := k + 1;
      }
      assert ends[..k] == ends;
    }

    /** The loop body: occupies the lowest free level at the first end of a line, and
        frees the line's level at the second. */
    method PassOne(el: ReflineEnd, freeLevels: array<bool>, cursor: nat) returns (min: nat)
      requires forall i :: 0 <= i < |list| ==> list[i].index == i
      requires el.r in list && freeLevels.Length == |list| + 1
      requires var s := Scan(Levels(), freeLevels[..], cursor);
               ScanFits(s, |list|) && ScanFits(PassEnd(s, el.r.index), |list|)
      modifies el.r, freeLevels
      ensures Scan(Levels(), freeLevels[..], min) == old(PassEnd(Scan(Levels(), freeLevels[..], cursor), el.r.index))
    {
      ghost var level := Levels();
      min := cursor;
      if el.r.level == -1 {
        el.r.level := min + 1;
        freeLevels[min] := true;
        ghost var taken := freeLevels[..];
        assert Levels() == level[el.r.index := min + 1];
        min := min + 1;
        while freeLevels[min]
          invariant freeLevels[..] == taken && min <= |list| && NextFree(taken, min) == NextFree(taken, cursor + 1)
          decreases |list| - min
        {
          min := min + 1;
        }
      } else {
        freeLevels[el.r.level - 1] := false;
        if min > el.r.level - 1 {
          min := el.r.level - 1;
        }
        assert Levels() == level;
      }
    }
  }

  lemma ScanPrefixStep(ends: seq<End>, n: nat, k: nat)
    requires ValidEnds(ends, n) && k < |ends|
    ensures ValidEnds(ends[..k], n) && ValidEnds(ends[..k + 1], n)
    ensures ScanAll(ends[..k + 1], n) == PassEnd(ScanAll(ends[..k], n), ends[k].line)
    ensures ScanFits(ScanAll(ends[..k + 1], n), n)
  {
    PrefixValid(ends, n, k);
    assert ends[..k + 1][..k] == ends[..k];
  }

  lemma {:induction false} PositionUnique(ends: seq<End>, e: End, p: nat)
    requires p <= |ends|
    requires forall i :: 0 <= i < p ==> ends[i].val < e.val
    requires p < |ends| ==> e.val <= ends[p].val
    ensures p == Position(ends, e)
  {
    if p > 0 {
      PositionUnique(ends[1..], e, p - 1);
    }
  }

  lemma EndsOfGrows(ends: seq<End>, jumps: seq<Jump>, from: nat, to: nat)
    requires EndsOf(ends, jumps)
    ensures var n := |jumps|;
            EndsOf(Insert(Insert(ends, End(Key(from), true, n)), End(Key(to), false, n)), jumps + [Jump(from, to)])
  {
    var n := |jumps|;
    var more, a, b := jumps + [Jump(from, to)], End(Key(from), true, n), End(Key(to), false, n);
    assert EndsOf(ends, more);
    InsertKeepsKeys(ends, a, more);
    InsertKeepsKeys(Insert(ends, a), b, more);
  }

  lemma InsertKeepsKeys(ends: seq<End>, e: End, jumps: seq<Jump>)
    requires EndsOf(ends, jumps) && EndsOf([e], jumps)
    ensures EndsOf(Insert(ends, e), jumps)
  {
    assert [e][0] == e;
  }
}
