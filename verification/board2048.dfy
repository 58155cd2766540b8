/** The 2048 board, whose cells hold the exponents of their tiles, or zero. */
module Board2048 {
  import opened Words
  import opened Wrappers

  // ----- one line -----

  /** The tiles of a line, from the leading edge. */
  function Compress(s: seq<nat>): (r: seq<nat>)
    ensures |r| <= |s|
    ensures forall i :: 0 <= i < |r| ==> r[i] != 0
  {
    if s == [] then [] else if s[0] == 0 then Compress(s[1..]) else [s[0]] + Compress(s[1..])
  }

  /** Merges equal adjacent pairs, each tile at most once, from the leading edge. */
  function Merge(s: seq<nat>): (r: seq<nat>)
    ensures |r| <= |s|
    ensures s != [] ==> r != [] && (r[0] == s[0] || r[0] == s[0] + 1)
  {
    if |s| < 2 then s
    else if s[0] == s[1] then [s[0] + 1] + Merge(s[2..])
    else [s[0]] + Merge(s[1..])
  }

  /** What the merges of a line are worth. */
  function MergeGain(s: seq<nat>): nat
  {
    if |s| < 2 then 0
    else if s[0] == s[1] then Pow2(s[0] + 1) + MergeGain(s[2..])
    else MergeGain(s[1..])
  }

  function With(s: seq<nat>, i: nat, x: nat): seq<nat>
    requires i < |s|
  {
    s[i := x]
  }

  function Zeros(n: nat): seq<nat>
  {
    seq(n, _ => 0)
  }

  function Slid(s: seq<nat>): (r: seq<nat>)
    ensures |r| == |s|
  {
    var m := Merge(Compress(s));
    m + Zeros(|s| - |m|)
  }

  function Gain(s: seq<nat>): nat
  {
    MergeGain(Compress(s))
  }

  // ----- the loop on one line -----

  /** Where the next tile after position i is, or |s|. */
  function NextTile(s: seq<nat>, i: nat): (j: nat)
    requires i <= |s|
    ensures i <= j <= |s|
    ensures forall k :: i <= k < j ==> s[k] == 0
    ensures j < |s| ==> s[j] != 0
    decreases |s| - i
  {
    if i < |s| && s[i] == 0 then NextTile(s, i + 1) else i
  }

  lemma {:induction false} CompressZeros(s: seq<nat>)
    requires forall k :: 0 <= k < |s| ==> s[k] == 0
    ensures Compress(s) == []
  {
    if s != [] {
      CompressZeros(s[1..]);
    }
  }

  lemma {:induction false} CompressConcat(a: seq<nat>, b: seq<nat>)
    ensures Compress(a + b) == Compress(a) + Compress(b)
  {
    if a == [] {
      assert a + b == b;
    } else {
      assert (a + b)[1..] == a[1..] + b;
      CompressConcat(a[1..], b);
    }
  }

  lemma CompressSkips(z: seq<nat>, s: seq<nat>)
    requires forall k :: 0 <= k < |z| ==> z[k] == 0
    ensures Compress(z + s) == Compress(s)
  {
    CompressConcat(z, s);
    CompressZeros(z);
  }

  /** Emptying position j, the first tile, leaves the tiles after it. */
  lemma CompressFrom(s: seq<nat>, j: nat)
    requires j < |s| && s[j] != 0 && forall k :: 0 <= k < j ==> s[k] == 0
    ensures Compress(s) == [s[j]] + Compress(s[j + 1..])
    ensures Compress(s[j := 0]) == Compress(s[j + 1..])
  {
    CompressSkips(s[..j], s[j..]);
    assert s == s[..j] + s[j..] && s[j..][1..] == s[j + 1..];
    var z := s[..j] + [0];
    CompressSkips(z, s[j + 1..]);
    assert s[j := 0] == z + s[j + 1..];
  }

  lemma SlidZeros(s: seq<nat>)
    requires forall k :: 0 <= k < |s| ==> s[k] == 0
    ensures Slid(s) == s && Gain(s) == 0
  {
    CompressZeros(s);
  }

  /** The head is a tile and the next tile differs: the head stays. */
  lemma SlideKeeps(s: seq<nat>)
    requires s != [] && s[0] != 0
    requires Compress(s[1..]) == [] || Compress(s[1..])[0] != s[0]
    ensures Slid(s) == [s[0]] + Slid(s[1..]) && Gain(s) == Gain(s[1..])
  {
    var c := Compress(s[1..]);
    assert Compress(s) == [s[0]] + c;
    assert ([s[0]] + c)[1..] == c;
    assert Merge([s[0]] + c) == [s[0]] + Merge(c);
    assert Zeros(|s| - |Merge(Compress(s))|) == Zeros(|s[1..]| - |Merge(c)|);
  }

  /** The next tile, at j, moves into the empty head. */
  lemma SlideMoves(s: seq<nat>, j: nat)
    requires 0 < j < |s| && s[0] == 0 && s[j] != 0 && forall k :: 0 < k < j ==> s[k] == 0
    ensures Slid(s[0 := s[j]][j := 0]) == Slid(s) && Gain(s[0 := s[j]][j := 0]) == Gain(s)
  {
    var t := s[0 := s[j]][j := 0];
    CompressFrom(s, j);
    assert t[1..] == s[1..][j - 1 := 0];
    CompressFrom(s[1..], j - 1);
    assert s[1..][j..] == s[j + 1..];
  }

  /** The next tile, at j, equals the head and merges into it. */
  lemma SlideMerges(s: seq<nat>, j: nat)
    requires 0 < j < |s| && s[0] != 0 && s[j] == s[0] && forall k :: 0 < k < j ==> s[k] == 0
    ensures var t := s[0 := s[0] + 1][j := 0];
            Slid(s) == [s[0] + 1] + Slid(t[1..]) && Gain(s) == Pow2(s[0] + 1) + Gain(t[1..])
  {
    var t := s[0 := s[0] + 1][j := 0];
    CompressFrom(s[1..], j - 1);
    assert s[1..][j..] == s[j + 1..];
    assert t[1..] == s[1..][j - 1 := 0];
    MergePair(s[0], Compress(s[j + 1..]));
    assert Compress(s) == [s[0], s[0]] + Compress(s[j + 1..]);
  }

  lemma MergePair(x: nat, c: seq<nat>)
    ensures Merge([x, x] + c) == [x + 1] + Merge(c) && MergeGain([x, x] + c) == Pow2(x + 1) + MergeGain(c)
  {
    assert ([x, x] + c)[2..] == c;
  }

  /** One pass of the loop at position i: the new line, the points won, and the next
      position (the same one after a move into it). */
  datatype Step = Step(line: seq<nat>, gain: nat, next: nat)

  function StepAt(s: seq<nat>, i: nat): Step
    requires i < |s|
  {
    var j := NextTile(s, i + 1);
    if j == |s| then Step(s, 0, i + 1)
    else if s[i] == 0 then Step(s[i := s[j]][j := 0], 0, i)
    else if s[i] == s[j] then Step(s[i := s[i] + 1][j := 0], Pow2(s[i] + 1), i + 1)
    else Step(s, 0, i + 1)
  }

  lemma StepStays(s: seq<nat>, i: nat)
    requires i < |s|
    requires var j := NextTile(s, i + 1); j == |s| || (s[i] != 0 && s[i] != s[j])
    ensures s[..i + 1] + Slid(s[i + 1..]) == s[..i] + Slid(s[i..])
    ensures Gain(s[i + 1..]) == Gain(s[i..])
  {
    var j, r := NextTile(s, i + 1), s[i..];
    assert r[1..] == s[i + 1..];
    if j == |s| && r[0] == 0 {
      SlidZeros(r);
      SlidZeros(r[1..]);
    } else if j == |s| {
      CompressZeros(r[1..]);
      SlideKeeps(r);
    } else {
      CompressFrom(r[1..], j - i - 1);
      SlideKeeps(r);
    }
    assert Slid(r) == [r[0]] + Slid(r[1..]);
    Regroup(s, i, Slid(s[i + 1..]));
  }

  lemma Regroup(s: seq<nat>, i: nat, rest: seq<nat>)
    requires i < |s|
    ensures s[..i + 1] + rest == s[..i] + ([s[i]] + rest)
  {
  }

  lemma StepMoves(s: seq<nat>, i: nat, j: nat)
    requires i < j < |s| && j == NextTile(s, i + 1) && s[i] == 0
    ensures var t := s[i := s[j]][j := 0];
            t[..i] + Slid(t[i..]) == s[..i] + Slid(s[i..]) && Gain(t[i..]) == Gain(s[i..])
  {
    SlideMoves(s[i..], j - i);
    assert s[i := s[j]][j := 0][i..] == s[i..][0 := s[i..][j - i]][j - i := 0];
  }

  lemma StepMerges(s: seq<nat>, i: nat, j: nat)
    requires i < j < |s| && j == NextTile(s, i + 1) && s[i] != 0 && s[i] == s[j]
    ensures var t := s[i := s[i] + 1][j := 0];
            && t[..i + 1] + Slid(t[i + 1..]) == s[..i] + Slid(s[i..])
            && Pow2(s[i] + 1) + Gain(t[i + 1..]) == Gain(s[i..])
  {
    var r, t := s[i..], s[i := s[i] + 1][j := 0];
    SlideMerges(r, j - i);
    assert t[i + 1..] == r[0 := r[0] + 1][j - i := 0][1..];
    assert t[..i + 1] == s[..i] + [s[i] + 1];
  }

  /** Each pass leaves what the rest of the line slides to. */
  lemma StepKeepsSlide(s: seq<nat>, i: nat)
    requires i < |s|
    ensures var t := StepAt(s, i);
            && |t.line| == |s| && i <= t.next <= i + 1
            && t.line[..t.next] + Slid(t.line[t.next..]) == s[..i] + Slid(s[i..])
            && t.gain + Gain(t.line[t.next..]) == Gain(s[i..])
  {
    var j := NextTile(s, i + 1);
    if j < |s| && s[i] == 0 {
      StepMoves(s, i, j);
    } else if j < |s| && s[i] == s[j] {
      StepMerges(s, i, j);
    } else {
      StepStays(s, i);
    }
  }

  /** A quantity that every change to the line lowers. */
  function Spread(s: seq<nat>): nat
  {
    if s == [] then 0
    else (if s[|s| - 1] != 0 then |s| else 0) + Spread(s[..|s| - 1])
  }

  lemma {:induction false} SpreadUpdate(s: seq<nat>, i: nat, x: nat)
    requires i < |s|
    ensures Spread(s[i := x]) == Spread(s) - (if s[i] != 0 then i + 1 else 0) + (if x != 0 then i + 1 else 0)
  {
    var n := |s| - 1;
    if i == n {
      assert s[i := x][..n] == s[..n];
    } else {
      assert s[i := x][..n] == s[..n][i := x];
      SpreadUpdate(s[..n], i, x);
    }
  }

  lemma StepSpreads(s: seq<nat>, i: nat)
    requires i < |s|
    ensures StepAt(s, i).line == s || Spread(StepAt(s, i).line) < Spread(s)
  {
    var j := NextTile(s, i + 1);
    if j < |s| {
      var x := if s[i] == 0 then s[j] else s[i] + 1;
      SpreadUpdate(s, i, x);
      SpreadUpdate(s[i := x], j, 0);
    }
  }

  /** Sliding changes nothing on exactly these lines: tiles first, neighbours unequal. */
  predicate Settled(s: seq<nat>)
  {
    forall i :: 0 <= i < |s| - 1 ==> (s[i] == 0 ==> s[i + 1] == 0) && (s[i] != 0 ==> s[i] != s[i + 1])
  }

  lemma {:induction false} SlidSettled(s: seq<nat>)
    ensures Slid(s) == s <==> Settled(s)
  {
    if s == [] {
    } else if s[0] == 0 {
      if Compress(s) == [] {
        NoTiles(s);
        SlidZeros(s);
      } else {
        assert Slid(s)[0] == Merge(Compress(s))[0] != 0;
        if Settled(s) {
          ZerosFollow(s);
          CompressZeros(s);
        }
      }
    } else {
      var t := s[1..];
      SlidSettled(t);
      FirstTile(t);
      if Compress(t) != [] && Compress(t)[0] == s[0] {
        MergePair(s[0], Compress(t)[1..]);
        assert Compress(s) == [s[0], s[0]] + Compress(t)[1..];
        assert Slid(s)[0] == s[0] + 1;
        SettledNeighbours(s);
      } else {
        SlideKeeps(s);
        assert s == [s[0]] + t;
        SettledTail(s);
      }
    }
  }

  /** In a settled line the first tile behind a tile differs from it. */
  lemma SettledNeighbours(s: seq<nat>)
    ensures s != [] && s[0] != 0 && Settled(s) ==> Compress(s[1..]) == [] || Compress(s[1..])[0] != s[0]
  {
    if s != [] && s[0] != 0 && Settled(s) {
      var t := s[1..];
      SettledTail(s);
      FirstTile(t);
      if t != [] && t[0] == 0 {
        ZerosFollow(t);
        CompressZeros(t);
      }
    }
  }

  lemma FirstTile(s: seq<nat>)
    ensures s != [] && s[0] != 0 ==> Compress(s) != [] && Compress(s)[0] == s[0]
  {
  }

  lemma SettledTail(s: seq<nat>)
    requires s != []
    ensures Settled(s) <==> Settled(s[1..]) && (|s| > 1 ==> (s[0] == 0 ==> s[1] == 0) && (s[0] != 0 ==> s[0] != s[1]))
  {
    if Settled(s[1..]) && |s| > 1 && (s[0] == 0 ==> s[1] == 0) && (s[0] != 0 ==> s[0] != s[1]) {
      forall i | 0 <= i < |s| - 1
        ensures (s[i] == 0 ==> s[i + 1] == 0) && (s[i] != 0 ==> s[i] != s[i + 1])
      {
        if i > 0 {
          assert s[1..][i - 1] == s[i] && s[1..][i] == s[i + 1];
        }
      }
    }
    if Settled(s) {
      forall i | 0 <= i < |s[1..]| - 1
        ensures (s[1..][i] == 0 ==> s[1..][i + 1] == 0) && (s[1..][i] != 0 ==> s[1..][i] != s[1..][i + 1])
      {
        assert s[1..][i] == s[i + 1] && s[1..][i + 1] == s[i + 1 + 1];
      }
    }
  }

  lemma {:induction false} ZerosFollow(s: seq<nat>)
    requires Settled(s) && s != [] && s[0] == 0
    ensures forall k :: 0 <= k < |s| ==> s[k] == 0
  {
    if |s| > 1 {
      SettledTail(s);
      ZerosFollow(s[1..]);
      assert forall k :: 1 <= k < |s| ==> s[k] == s[1..][k - 1];
    }
  }

  lemma {:induction false} NoTiles(s: seq<nat>)
    requires Compress(s) == []
    ensures forall k :: 0 <= k < |s| ==> s[k] == 0
  {
    if s != [] {
      NoTiles(s[1..]);
      assert forall k :: 1 <= k < |s| ==> s[k] == s[1..][k - 1];
    }
  }

  // ----- conserved quantities -----

  function Times(a: nat, b: nat): nat
  {
    a * b
  }

  /** What a tile has scored: its own value times the merges below it. */
  function Worth(e: nat): nat
  {
    if e == 0 then 0 else Times(e - 1, Pow2(e))
  }

  /** The value of a tile. */
  function Value(e: nat): nat
  {
    if e == 0 then 0 else Pow2(e)
  }

  function Sum(f: nat -> nat, s: seq<nat>): nat
  {
    if s == [] then 0 else f(s[0]) + Sum(f, s[1..])
  }

  lemma WorthOfMerge(e: nat)
    requires e != 0
    ensures 2 * Worth(e) + Pow2(e + 1) == Worth(e + 1) && 2 * Value(e) == Value(e + 1)
  {
  }

  lemma {:induction false} SumConcat(f: nat -> nat, a: seq<nat>, b: seq<nat>)
    ensures Sum(f, a + b) == Sum(f, a) + Sum(f, b)
  {
    if a == [] {
      assert a + b == b;
    } else {
      assert (a + b)[1..] == a[1..] + b;
      SumConcat(f, a[1..], b);
    }
  }

  lemma {:induction false} SumCompress(f: nat -> nat, s: seq<nat>)
    requires f(0) == 0
    ensures Sum(f, Compress(s)) == Sum(f, s)
  {
    if s != [] {
      SumCompress(f, s[1..]);
      assert s[0] != 0 ==> Compress(s)[1..] == Compress(s[1..]);
    }
  }

  lemma {:induction false} SumZeros(f: nat -> nat, n: nat)
    requires f(0) == 0
    ensures Sum(f, Zeros(n)) == 0
  {
    if n > 0 {
      assert Zeros(n)[1..] == Zeros(n - 1);
      SumZeros(f, n - 1);
    }
  }

  lemma {:induction false} SumMerge(s: seq<nat>)
    requires forall i :: 0 <= i < |s| ==> s[i] != 0
    ensures Sum(Worth, Merge(s)) == Sum(Worth, s) + MergeGain(s)
    ensures Sum(Value, Merge(s)) == Sum(Value, s)
    decreases |s|
  {
    if |s| >= 2 {
      if s[0] == s[1] {
        SumMerge(s[2..]);
        WorthOfMerge(s[0]);
        assert s[1..][1..] == s[2..] && s[1..][0] == s[0];
        assert ([s[0] + 1] + Merge(s[2..]))[1..] == Merge(s[2..]);
      } else {
        SumMerge(s[1..]);
        assert ([s[0]] + Merge(s[1..]))[1..] == Merge(s[1..]);
      }
    }
  }

  /** Sliding a line adds exactly the points won to its worth and keeps its value. */
  lemma SlideConserves(s: seq<nat>)
    ensures Sum(Worth, Slid(s)) == Sum(Worth, s) + Gain(s)
    ensures Sum(Value, Slid(s)) == Sum(Value, s)
  {
    var m := Merge(Compress(s));
    SumCompress(Worth, s);
    SumCompress(Value, s);
    SumMerge(Compress(s));
    SumConcat(Worth, m, Zeros(|s| - |m|));
    SumConcat(Value, m, Zeros(|s| - |m|));
    SumZeros(Worth, |s| - |m|);
    SumZeros(Value, |s| - |m|);
  }

  /** A line that changes ends with an empty cell. */
  lemma ChangedLineHasRoom(s: seq<nat>)
    requires Slid(s) != s
    ensures 0 in Slid(s)
  {
    var m := Merge(Compress(s));
    if |m| == |s| {
      FullMerge(Compress(s));
      FullCompress(s);
    } else {
      assert Slid(s)[|s| - 1] == 0;
    }
  }

  lemma {:induction false} FullMerge(s: seq<nat>)
    requires |Merge(s)| == |s|
    ensures Merge(s) == s
    decreases |s|
  {
    if |s| >= 2 && s[0] != s[1] {
      FullMerge(s[1..]);
    }
  }

  lemma {:induction false} FullCompress(s: seq<nat>)
    requires |Compress(s)| == |s|
    ensures Compress(s) == s
  {
    if s != [] {
      FullCompress(s[1..]);
    }
  }

  // ----- the board -----

  ghost predicate Is4x4(g: seq<seq<nat>>)
  {
    |g| == 4 && forall r :: 0 <= r < 4 ==> |g[r]| == 4
  }

  type Grid = g: seq<seq<nat>> | Is4x4(g) witness Blank()

  function Blank(): seq<seq<nat>>
  {
    seq(4, _ => seq(4, _ => 0))
  }

  /** The cell at position i, from the leading edge, of line k in direction (u, v). */
  function Row(u: bool, v: bool, k: nat, i: nat): (r: nat)
    requires k < 4 && i < 4
    ensures r < 4
  {
    if u then k else if v then i else 3 - i
  }

  function Col(u: bool, v: bool, k: nat, i: nat): (c: nat)
    requires k < 4 && i < 4
    ensures c < 4
  {
    if !u then k else if v then i else 3 - i
  }

  function Line(g: Grid, u: bool, v: bool, k: nat): (s: seq<nat>)
    requires k < 4
    ensures |s| == 4
  {
    seq(4, i requires 0 <= i < 4 => g[Row(u, v, k, i)][Col(u, v, k, i)])
  }

  /** The line of direction (u, v) that a cell is on, and its position there. */
  function LineAt(u: bool, r: nat, c: nat): nat
  {
    if u then r else c
  }

  function PositionAt(u: bool, v: bool, r: nat, c: nat): (i: nat)
    requires r < 4 && c < 4
    ensures i < 4
  {
    var p := if u then c else r;
    if v then p else 3 - p
  }

  /** All four lines slid in direction (u, v). */
  function SlidGrid(g: Grid, u: bool, v: bool): Grid
  {
    seq(4, r requires 0 <= r < 4 =>
      seq(4, c requires 0 <= c < 4 => Slid(Line(g, u, v, LineAt(u, r, c)))[PositionAt(u, v, r, c)]))
  }

  function Backwards(s: seq<nat>): (r: seq<nat>)
    requires |s| == 4
    ensures |r| == 4
  {
    [s[3], s[2], s[1], s[0]]
  }

  function Column(g: Grid, c: nat): (s: seq<nat>)
    requires c < 4
    ensures |s| == 4
  {
    [g[0][c], g[1][c], g[2][c], g[3][c]]
  }

  /** The four directions: rows to the left and to the right, columns up and down. */
  lemma DirectionsAre(g: Grid, k: nat)
    requires k < 4
    ensures SlidGrid(g, true, true)[k] == Slid(g[k])
    ensures SlidGrid(g, true, false)[k] == Backwards(Slid(Backwards(g[k])))
    ensures Column(SlidGrid(g, false, true), k) == Slid(Column(g, k))
    ensures Column(SlidGrid(g, false, false), k) == Backwards(Slid(Backwards(Column(g, k))))
  {
    hide Slid;
    assert Line(g, true, true, k) == g[k] && Line(g, true, false, k) == Backwards(g[k]);
    assert Line(g, false, true, k) == Column(g, k) && Line(g, false, false, k) == Backwards(Column(g, k));
  }

  /** Pairs merge from the leading edge, and a merged tile does not merge again. */
  lemma SlidesAre(a: nat, b: nat)
    requires a != 0 && b != 0 && b != a && b != a + 1
    ensures Slid([a, a, a, a]) == [a + 1, a + 1, 0, 0] && Slid([0, a, a, a]) == [a + 1, a, 0, 0]
    ensures Slid([a, a, a + 1, 0]) == [a + 1, a + 1, 0, 0] && Slid([0, a, b, a]) == [a, b, a, 0]
  {
    hide Compress, Merge;
    OneTile(a);
    OneTile(a + 1);
    CompressZeros([0]);
    PairMerges(a, [a, a]);
    PairMerges(a, []);
    PairMerges(a, [a]);
    PairMerges(a, [a + 1]);
    ApartStays(a, [b, a]);
    ApartStays(b, [a]);
    Tiles([a, a, a, a]);
    Tiles([a, a, a]);
    Tiles([a, a, a + 1]);
    Tiles([a, b, a]);
    CompressSkips([0], [a, a, a]);
    CompressSkips([0], [a, b, a]);
    CompressConcat([a, a, a + 1], [0]);
    assert [0] + [a, a, a] == [0, a, a, a] && [0] + [a, b, a] == [0, a, b, a] && [a, a, a + 1] + [0] == [a, a, a + 1, 0];
    assert [a, a] + [a, a] == [a, a, a, a] && [a, a] + [a] == [a, a, a] && [a, a] + [] == [a, a] && [a, a] + [a + 1] == [a, a, a + 1];
    assert [a] + [b, a] == [a, b, a] && [b] + [a] == [b, a];
    assert Compress([a, a, a + 1, 0]) == [a, a, a + 1] && Merge([a, a, a + 1]) == [a + 1, a + 1];
  }

  lemma OneTile(a: nat)
    ensures Merge([a]) == [a] && Merge([]) == []
  {
  }

  lemma PairMerges(a: nat, s: seq<nat>)
    ensures Merge([a, a] + s) == [a + 1] + Merge(s)
  {
    assert ([a, a] + s)[2..] == s;
  }

  lemma ApartStays(a: nat, s: seq<nat>)
    requires s != [] && s[0] != a
    ensures Merge([a] + s) == [a] + Merge(s)
  {
    assert ([a] + s)[1..] == s;
  }

  lemma {:induction false} Tiles(s: seq<nat>)
    requires forall i :: 0 <= i < |s| ==> s[i] != 0
    ensures Compress(s) == s
  {
    if s != [] {
      Tiles(s[1..]);
    }
  }

  lemma LinesOfSlidGrid(g: Grid, u: bool, v: bool, k: nat)
    requires k < 4
    ensures Line(SlidGrid(g, u, v), u, v, k) == Slid(Line(g, u, v, k))
  {
  }

  /** A grid is determined by its lines in any one direction. */
  lemma LinesDetermineGrid(g: Grid, h: Grid, u: bool, v: bool)
    requires forall k: nat :: k < 4 ==> Line(g, u, v, k) == Line(h, u, v, k)
    ensures g == h
  {
    forall r, c | 0 <= r < 4 && 0 <= c < 4
      ensures g[r][c] == h[r][c]
    {
      assert Line(g, u, v, LineAt(u, r, c))[PositionAt(u, v, r, c)] == g[r][c];
      assert Line(h, u, v, LineAt(u, r, c))[PositionAt(u, v, r, c)] == h[r][c];
    }
    assert forall r :: 0 <= r < 4 ==> g[r] == h[r];
  }

  /** What the slides of the first k lines win. */
  function GainUpTo(g: Grid, u: bool, v: bool, k: nat): nat
    requires k <= 4
  {
    if k == 0 then 0 else GainUpTo(g, u, v, k - 1) + Gain(Line(g, u, v, k - 1))
  }

  function GainOf(g: Grid, u: bool, v: bool): nat
  {
    GainUpTo(g, u, v, 4)
  }

  lemma GainOfLines(g: Grid, u: bool, v: bool)
    ensures GainOf(g, u, v) == Gain(Line(g, u, v, 0)) + Gain(Line(g, u, v, 1))
                             + Gain(Line(g, u, v, 2)) + Gain(Line(g, u, v, 3))
  {
    assert GainUpTo(g, u, v, 1) == Gain(Line(g, u, v, 0));
    assert GainUpTo(g, u, v, 2) == Gain(Line(g, u, v, 0)) + Gain(Line(g, u, v, 1));
    assert GainUpTo(g, u, v, 3) == Gain(Line(g, u, v, 0)) + Gain(Line(g, u, v, 1)) + Gain(Line(g, u, v, 2));
  }

  // ----- totals -----

  function Total(f: nat -> nat, g: Grid): nat
  {
    Sum(f, g[0]) + Sum(f, g[1]) + Sum(f, g[2]) + Sum(f, g[3])
  }

  lemma SumOfFour(f: nat -> nat, s: seq<nat>)
    requires |s| == 4
    ensures Sum(f, s) == f(s[0]) + f(s[1]) + f(s[2]) + f(s[3])
  {
    var t := s[1..];
    var w := t[1..];
    var z := w[1..];
    assert z[1..] == [];
    assert Sum(f, z) == f(s[3]);
    assert Sum(f, w) == f(s[2]) + f(s[3]);
  }

  lemma TotalByLines(f: nat -> nat, g: Grid, u: bool, v: bool)
    ensures Total(f, g) == Sum(f, Line(g, u, v, 0)) + Sum(f, Line(g, u, v, 1))
                         + Sum(f, Line(g, u, v, 2)) + Sum(f, Line(g, u, v, 3))
  {
    SumOfRow(f, g, 0);
    SumOfRow(f, g, 1);
    SumOfRow(f, g, 2);
    SumOfRow(f, g, 3);
    SumOfLine(f, g, u, v, 0);
    SumOfLine(f, g, u, v, 1);
    SumOfLine(f, g, u, v, 2);
    SumOfLine(f, g, u, v, 3);
  }

  lemma SumOfRow(f: nat -> nat, g: Grid, r: nat)
    requires r < 4
    ensures Sum(f, g[r]) == f(g[r][0]) + f(g[r][1]) + f(g[r][2]) + f(g[r][3])
  {
    SumOfFour(f, g[r]);
  }

  lemma SumOfLine(f: nat -> nat, g: Grid, u: bool, v: bool, k: nat)
    requires k < 4
    ensures Sum(f, Line(g, u, v, k)) == if u then f(g[k][0]) + f(g[k][1]) + f(g[k][2]) + f(g[k][3])
                                             else f(g[0][k]) + f(g[1][k]) + f(g[2][k]) + f(g[3][k])
  {
    SumOfFour(f, Line(g, u, v, k));
  }

  /** A slide adds the points won to the worth of the board and keeps its value. */
  lemma SlidGridConserves(g: Grid, u: bool, v: bool)
    ensures Total(Worth, SlidGrid(g, u, v)) == Total(Worth, g) + GainOf(g, u, v)
    ensures Total(Value, SlidGrid(g, u, v)) == Total(Value, g)
  {
    var h := SlidGrid(g, u, v);
    GainOfLines(g, u, v);
    TotalByLines(Worth, g, u, v);
    TotalByLines(Worth, h, u, v);
    TotalByLines(Value, g, u, v);
    TotalByLines(Value, h, u, v);
    forall k: nat | k < 4
      ensures Sum(Worth, Line(h, u, v, k)) == Sum(Worth, Line(g, u, v, k)) + Gain(Line(g, u, v, k))
      ensures Sum(Value, Line(h, u, v, k)) == Sum(Value, Line(g, u, v, k))
    {
      LinesOfSlidGrid(g, u, v, k);
      SlideConserves(Line(g, u, v, k));
    }
  }

  function Put(g: Grid, r: nat, c: nat, x: nat): Grid
    requires r < 4 && c < 4
  {
    var row: seq<nat> := g[r][c := x];
    g[r := row]
  }

  lemma PutTotal(f: nat -> nat, g: Grid, r: nat, c: nat, x: nat)
    requires r < 4 && c < 4
    ensures Total(f, Put(g, r, c, x)) == Total(f, g) - f(g[r][c]) + f(x)
  {
    SumOfFour(f, g[r]);
    SumOfFour(f, Put(g, r, c, x)[r]);
  }

  // ----- runs -----

  datatype Turn =
    | Spawn(r: nat, c: nat, x: nat)
    | Move(u: bool, v: bool, r: nat, c: nat, x: nat)

  /** A game with two tallies: how many exponent-two tiles were spawned, and the total
      value spawned. */
  datatype Game = Game(grid: Grid, score: nat, fours: nat, spawned: nat)

  /** New tiles have exponent one or two and appear on an empty cell. */
  predicate CanSpawn(g: Grid, r: nat, c: nat, x: nat)
  {
    r < 4 && c < 4 && g[r][c] == 0 && 1 <= x <= 2
  }

  predicate CanTurn(s: Game, t: Turn)
  {
    match t
    case Spawn(r, c, x) => CanSpawn(s.grid, r, c, x)
    case Move(u, v, r, c, x) =>
      SlidGrid(s.grid, u, v) == s.grid || CanSpawn(SlidGrid(s.grid, u, v), r, c, x)
  }

  function WithSpawn(s: Game, r: nat, c: nat, x: nat): Game
    requires CanSpawn(s.grid, r, c, x)
  {
    Game(Put(s.grid, r, c, x), s.score, s.fours + (if x == 2 then 1 else 0), s.spawned + Value(x))
  }

  function AfterTurn(s: Game, t: Turn): Game
    requires CanTurn(s, t)
  {
    match t
    case Spawn(r, c, x) => WithSpawn(s, r, c, x)
    case Move(u, v, r, c, x) =>
      var g := SlidGrid(s.grid, u, v);
      if g == s.grid then s
      else WithSpawn(s.(grid := g, score := s.score + GainOf(s.grid, u, v)), r, c, x)
  }

  /** The state after a sequence of turns, if all of them can be taken. */
  function Play(run: seq<Turn>): Option<Game>
  {
    if run == [] then Some(Game(Blank(), 0, 0, 0))
    else
      var t := run[|run| - 1];
      match Play(run[..|run| - 1])
      case None => None
      case Some(s) => if CanTurn(s, t) then Some(AfterTurn(s, t)) else None
  }

  lemma BlankTotals()
    ensures Total(Worth, Blank()) == 0 && Total(Value, Blank()) == 0
  {
    SumZeros(Worth, 4);
    SumZeros(Value, 4);
    assert forall r :: 0 <= r < 4 ==> Blank()[r] == Zeros(4);
  }

  lemma SpawnTotals(s: Game, r: nat, c: nat, x: nat)
    requires CanSpawn(s.grid, r, c, x)
    ensures var t := WithSpawn(s, r, c, x);
            && Total(Worth, t.grid) - 4 * t.fours == Total(Worth, s.grid) - 4 * s.fours
            && Total(Value, t.grid) - t.spawned == Total(Value, s.grid) - s.spawned
  {
    PutTotal(Worth, s.grid, r, c, x);
    PutTotal(Value, s.grid, r, c, x);
    assert Worth(1) == 0 && Worth(2) == 4;
  }

  /** Over every run the score and the spawned fours account for the worth of the
      board, and the board holds exactly the value that was spawned. */
  lemma {:induction false} ScoringLaw(run: seq<Turn>, s: Game)
    requires Play(run) == Some(s)
    ensures s.score + 4 * s.fours == Total(Worth, s.grid)
    ensures Total(Value, s.grid) == s.spawned
  {
    if run == [] {
      BlankTotals();
    } else {
      var p := Play(run[..|run| - 1]).value;
      ScoringLaw(run[..|run| - 1], p);
      TurnKeepsLaw(p, run[|run| - 1]);
    }
  }

  lemma TurnKeepsLaw(p: Game, t: Turn)
    requires CanTurn(p, t)
    ensures var s := AfterTurn(p, t);
            && Total(Worth, s.grid) - 4 * s.fours - s.score == Total(Worth, p.grid) - 4 * p.fours - p.score
            && Total(Value, s.grid) - s.spawned == Total(Value, p.grid) - p.spawned
  {
    match t
    case Spawn(r, c, x) =>
      SpawnTotals(p, r, c, x);
    case Move(u, v, r, c, x) =>
      var g := SlidGrid(p.grid, u, v);
      if g != p.grid {
        SlidGridConserves(p.grid, u, v);
        SpawnTotals(p.(grid := g, score := p.score + GainOf(p.grid, u, v)), r, c, x);
      }
  }

  /** After a slide that changes the board an empty cell exists. */
  lemma ChangedGridHasRoom(g: Grid, u: bool, v: bool) returns (r: nat, c: nat)
    requires SlidGrid(g, u, v) != g
    ensures r < 4 && c < 4 && SlidGrid(g, u, v)[r][c] == 0
  {
    var h := SlidGrid(g, u, v);
    if forall k: nat :: k < 4 ==> Line(h, u, v, k) == Line(g, u, v, k) {
      LinesDetermineGrid(h, g, u, v);
    }
    var k: nat :| k < 4 && Line(h, u, v, k) != Line(g, u, v, k);
    LinesOfSlidGrid(g, u, v, k);
    ChangedLineHasRoom(Line(g, u, v, k));
    var i :| 0 <= i < 4 && Line(h, u, v, k)[i] == 0;
    r, c := Row(u, v, k, i), Col(u, v, k, i);
  }

  // ----- the game-over test -----

  ghost predicate HasTile(g: Grid)
  {
    exists r, c :: 0 <= r < 4 && 0 <= c < 4 && g[r][c] != 0
  }

  ghost predicate CanMove(g: Grid)
  {
    exists u, v :: SlidGrid(g, u, v) != g
  }

  /** What the test looks for: an empty cell, or two equal neighbours. */
  ghost predicate HasOption(g: Grid)
  {
    || (exists r, c :: 0 <= r < 4 && 0 <= c < 4 && g[r][c] == 0)
    || EqualInRow(g)
    || EqualInCol(g)
  }

  predicate EqualRight(g: Grid, r: nat, c: nat)
    requires r < 4 && c < 3
  {
    g[r][c] == g[r][c + 1]
  }

  predicate EqualBelow(g: Grid, r: nat, c: nat)
    requires r < 3 && c < 4
  {
    g[r][c] == g[r + 1][c]
  }

  ghost predicate EqualInRow(g: Grid)
  {
    exists r: nat, c: nat :: r < 4 && c < 3 && EqualRight(g, r, c)
  }

  ghost predicate EqualInCol(g: Grid)
  {
    exists r: nat, c: nat :: r < 3 && c < 4 && EqualBelow(g, r, c)
  }

  /** A direction changes nothing exactly when all its lines are settled. */
  lemma UnmovedIsSettled(g: Grid, u: bool, v: bool)
    ensures SlidGrid(g, u, v) == g <==> forall k: nat :: k < 4 ==> Settled(Line(g, u, v, k))
  {
    forall k: nat | k < 4
      ensures Line(SlidGrid(g, u, v), u, v, k) == Line(g, u, v, k) <==> Settled(Line(g, u, v, k))
    {
      LinesOfSlidGrid(g, u, v, k);
      SlidSettled(Line(g, u, v, k));
    }
    if forall k: nat :: k < 4 ==> Settled(Line(g, u, v, k)) {
      LinesDetermineGrid(SlidGrid(g, u, v), g, u, v);
    }
    if SlidGrid(g, u, v) == g {
      forall k: nat | k < 4
        ensures Settled(Line(g, u, v, k))
      {
        assert Line(SlidGrid(g, u, v), u, v, k) == Line(g, u, v, k);
      }
    }
  }

  /** A line settled in both directions is empty, or full without equal neighbours. */
  predicate SettledBothWays(s: seq<nat>)
  {
    forall i :: 0 <= i < |s| - 1 ==> (s[i] == 0 <==> s[i + 1] == 0) && (s[i] != 0 ==> s[i] != s[i + 1])
  }

  lemma BothWays(g: Grid, u: bool, k: nat)
    requires k < 4
    ensures Settled(Line(g, u, true, k)) && Settled(Line(g, u, false, k)) <==> SettledBothWays(Line(g, u, true, k))
  {
    var s, t := Line(g, u, true, k), Line(g, u, false, k);
    assert t[0] == s[3] && t[1] == s[2] && t[2] == s[1] && t[3] == s[0];
    if SettledBothWays(s) {
      assert forall i :: 0 <= i < 3 ==> t[i] == s[3 - i];
    }
    if Settled(s) && Settled(t) {
      forall i | 0 <= i < 3
        ensures (s[i] == 0 <==> s[i + 1] == 0) && (s[i] != 0 ==> s[i] != s[i + 1])
      {
        assert t[2 - i] == s[i + 1] && t[2 - i + 1] == s[i];
      }
    }
  }

  lemma StuckLines(g: Grid)
    ensures !CanMove(g) <==>
      forall u: bool, k: nat :: k < 4 ==> SettledBothWays(Line(g, u, true, k))
  {
    forall u: bool, v: bool
      ensures SlidGrid(g, u, v) == g <==> forall k: nat :: k < 4 ==> Settled(Line(g, u, v, k))
    {
      UnmovedIsSettled(g, u, v);
    }
    forall u: bool, k: nat | k < 4
      ensures Settled(Line(g, u, true, k)) && Settled(Line(g, u, false, k)) <==> SettledBothWays(Line(g, u, true, k))
    {
      BothWays(g, u, k);
    }
    if !CanMove(g) {
      forall u: bool, k: nat | k < 4
        ensures SettledBothWays(Line(g, u, true, k))
      {
        assert SlidGrid(g, u, true) == g && SlidGrid(g, u, false) == g;
      }
    }
  }

  lemma LineIsUniform(s: seq<nat>)
    requires |s| == 4 && SettledBothWays(s)
    ensures forall i :: 0 <= i < 4 ==> (s[i] == 0 <==> s[0] == 0)
  {
    assert s[0] == 0 <==> s[0 + 1] == 0;
    assert s[1] == 0 <==> s[1 + 1] == 0;
    assert s[2] == 0 <==> s[2 + 1] == 0;
  }

  /** The test is exact: on every board with a tile it finds an option exactly when some
      direction changes the board. */
  lemma GameOverIsExact(g: Grid)
    requires HasTile(g)
    ensures HasOption(g) <==> CanMove(g)
  {
    StuckLines(g);
    if !CanMove(g) {
      forall u: bool, k: nat | k < 4
        ensures forall i :: 0 <= i < 4 ==> (Line(g, u, true, k)[i] == 0 <==> Line(g, u, true, k)[0] == 0)
      {
        LineIsUniform(Line(g, u, true, k));
      }
      StuckHasNoOption(g);
    } else {
      var u: bool, k: nat :| k < 4 && !SettledBothWays(Line(g, u, true, k));
      var s := Line(g, u, true, k);
      var i :| 0 <= i < |s| - 1 && !((s[i] == 0 <==> s[i + 1] == 0) && (s[i] != 0 ==> s[i] != s[i + 1]));
      assert s[i] == g[Row(u, true, k, i)][Col(u, true, k, i)];
      assert s[i + 1] == g[Row(u, true, k, i + 1)][Col(u, true, k, i + 1)];
      if s[i] == s[i + 1] {
        if u {
          assert EqualRight(g, k, i);
        } else {
          assert EqualBelow(g, i, k);
        }
      }
    }
  }

  lemma StuckHasNoOption(g: Grid)
    requires HasTile(g)
    requires forall u: bool, k: nat :: k < 4 ==> SettledBothWays(Line(g, u, true, k))
    requires forall u: bool, k: nat :: k < 4 ==>
      forall i :: 0 <= i < 4 ==> (Line(g, u, true, k)[i] == 0 <==> Line(g, u, true, k)[0] == 0)
    ensures !HasOption(g)
  {
    var r0, c0 :| 0 <= r0 < 4 && 0 <= c0 < 4 && g[r0][c0] != 0;
    forall r: nat, c: nat | r < 4 && c < 4
      ensures g[r][c] != 0
    {
      assert Line(g, true, true, r0)[c0] == g[r0][c0] && Line(g, true, true, r0)[c] == g[r0][c];
      assert Line(g, false, true, c)[r0] == g[r0][c] && Line(g, false, true, c)[r] == g[r][c];
      assert Line(g, true, true, r0)[0] != 0;
      assert Line(g, false, true, c)[0] != 0;
    }
    forall r: nat, c: nat | r < 4 && c < 3
      ensures !EqualRight(g, r, c)
    {
      var s := Line(g, true, true, r);
      assert SettledBothWays(s) && s[c] == g[r][c] && s[c + 1] == g[r][c + 1];
    }
    forall r: nat, c: nat | r < 3 && c < 4
      ensures !EqualBelow(g, r, c)
    {
      var s := Line(g, false, true, c);
      assert SettledBothWays(s) && s[r] == g[r][c] && s[r + 1] == g[r + 1][c];
    }
  }

  /** On the empty board the test still says that the game goes on, though nothing moves. */
  lemma EmptyBoardCannotMove(g: Grid)
    requires !HasTile(g)
    ensures HasOption(g) && !CanMove(g)
  {
    assert g[0][0] == 0;
    forall u: bool, k: nat | k < 4
      ensures SettledBothWays(Line(g, u, true, k))
    {
    }
    StuckLines(g);
  }

  // ----- the program -----

  class Board {
    const cells: array2<nat>
    var score: nat
    var moves: nat

    ghost predicate Valid()
    {
      cells.Length0 == 4 && cells.Length1 == 4
    }

    function Snapshot(): Grid
      requires Valid()
      reads cells
    {
      seq(4, r requires 0 <= r < 4 reads cells requires Valid() =>
        seq(4, c requires 0 <= c < 4 reads cells requires Valid() => cells[r, c]))
    }

    constructor ()
      ensures Valid() && fresh(cells) && Snapshot() == Blank() && score == 0 && moves == 0
    {
      cells := new nat[4, 4]((_, _) => 0);
      score, moves := 0, 0;
      new;
      SameCells(Snapshot(), Blank());
    }

    /** Clears the board and the score; the move counter keeps counting. */
    method Init()
      requires Valid()
      modifies this`score, cells
      ensures Snapshot() == Blank() && score == 0
    {
      score := 0;
      for i := 0 to 4
        invariant score == 0 && forall r, c :: 0 <= r < i && 0 <= c < 4 ==> cells[r, c] == 0
      {
        for j := 0 to 4
          invariant score == 0
          invariant forall r, c :: 0 <= r < i && 0 <= c < 4 ==> cells[r, c] == 0
          invariant forall c :: 0 <= c < j ==> cells[i, c] == 0
        {
          cells[i, j] := 0;
        }
      }
      SameCells(Snapshot(), Blank());
    }

    /** Puts a new tile on some empty cell. */
    method Add() returns (r: nat, c: nat, x: nat)
      requires Valid() && exists r, c :: 0 <= r < 4 && 0 <= c < 4 && Snapshot()[r][c] == 0
      modifies cells
      ensures CanSpawn(old(Snapshot()), r, c, x) && Snapshot() == Put(old(Snapshot()), r, c, x)
    {
      ghost var g := Snapshot();
      ghost var r0, c0 :| 0 <= r0 < 4 && 0 <= c0 < 4 && g[r0][c0] == 0;
      assert cells[r0, c0] == 0;
      r, c :| 0 <= r < 4 && 0 <= c < 4 && cells[r, c] == 0;
      x :| 1 <= x <= 2;
      assert g[r][c] == 0;
      cells[r, c] := x;
      SameCells(Snapshot(), Put(g, r, c, x));
    }

    method Fin() returns (goesOn: bool)
      requires Valid()
      ensures goesOn <==> HasOption(Snapshot())
    {
      ghost var g := Snapshot();
      for i := 0 to 4
        invariant forall r, c :: 0 <= r < i && 0 <= c < 4 ==> g[r][c] != 0
      {
        for j := 0 to 4
          invariant forall c :: 0 <= c < j ==> g[i][c] != 0
        {
          assert cells[i, j] == g[i][j];
          if cells[i, j] == 0 {
            return true;
          }
        }
      }
      for i := 0 to 4
        invariant forall r: nat, c: nat :: r < i && c < 3 ==> !EqualRight(g, r, c)
      {
        for j := 0 to 3
          invariant forall c: nat :: c < j ==> !EqualRight(g, i, c)
        {
          assert cells[i, j] == g[i][j] && cells[i, j + 1] == g[i][j + 1];
          if cells[i, j] == cells[i, j + 1] {
            assert EqualRight(g, i, j);
            return true;
          }
        }
      }
      for i := 0 to 3
        invariant forall r: nat, c: nat :: r < i && c < 4 ==> !EqualBelow(g, r, c)
      {
        for j := 0 to 4
          invariant forall c: nat :: c < j ==> !EqualBelow(g, i, c)
        {
          assert cells[i, j] == g[i][j] && cells[i + 1, j] == g[i + 1][j];
          if cells[i, j] == cells[i + 1, j] {
            assert EqualBelow(g, i, j);
            return true;
          }
        }
      }
      return false;
    }

    /** The lines of direction (u, v), each from its leading edge. */
    function LinesNow(u: bool, v: bool): (ls: seq<seq<nat>>)
      requires Valid()
      reads cells
      ensures |ls| == 4 && forall k :: 0 <= k < 4 ==> |ls[k]| == 4
    {
      seq(4, k requires 0 <= k < 4 && Valid() reads cells =>
        seq(4, i requires 0 <= i < 4 && Valid() reads cells => cells[Row(u, v, k, i), Col(u, v, k, i)]))
    }

    method Store(u: bool, v: bool, k: nat, i: nat, x: nat)
      requires Valid() && k < 4 && i < 4
      modifies cells
      ensures LinesNow(u, v) == old(LinesNow(u, v)[k := With(LinesNow(u, v)[k], i, x)])
    {
      ghost var ls := LinesNow(u, v);
      cells[Row(u, v, k, i), Col(u, v, k, i)] := x;
      assert forall m :: 0 <= m < 4 ==> LinesNow(u, v)[m] == if m == k then With(ls[k], i, x) else ls[m];
    }

    method Load(u: bool, v: bool, k: nat, i: nat) returns (x: nat)
      requires Valid() && k < 4 && i < 4
      ensures x == LinesNow(u, v)[k][i]
    {
      x := cells[Row(u, v, k, i), Col(u, v, k, i)];
    }

    /** The next tile of line k after position i, or 4. */
    method FindTile(u: bool, v: bool, k: nat, i: nat) returns (j: nat)
      requires Valid() && k < 4 && i < 4
      ensures j == NextTile(LinesNow(u, v)[k], i + 1)
    {
      ghost var s := LinesNow(u, v)[k];
      j := i + 1;
      while j < 4 && cells[Row(u, v, k, j), Col(u, v, k, j)] == 0
        invariant i < j <= 4 && NextTile(s, j) == NextTile(s, i + 1)
      {
        assert s[j] == 0;
        j := j + 1;
      }
      assert j < 4 ==> s[j] != 0;
    }

    /** Slides line k in place; the index steps back after a move into an empty cell. */
    method SlideLine(u: bool, v: bool, k: nat) returns (moved: bool)
      requires Valid() && k < 4
      modifies this`score, cells
      ensures LinesNow(u, v) == old(LinesNow(u, v)[k := Slid(LinesNow(u, v)[k])])
      ensures score == old(score) + Gain(old(LinesNow(u, v)[k]))
      ensures moved <==> Slid(old(LinesNow(u, v)[k])) != old(LinesNow(u, v)[k])
    {
      hide SlideState, Slid, Gain;
      ghost var ls, points, s := LinesNow(u, v), score, LinesNow(u, v)[k];
      SlideStateBegins(s);
      var i := 0;
      moved := false;
      while i < 4
        invariant 0 <= i <= 4
        invariant LinesNow(u, v) == ls[k := s] && |s| == 4 && SlideState(ls[k], s, i, score - points, moved)
        decreases 4 - i, if i < 4 && s[i] == 0 then 1 else 0
      {
        var acted, back;
        acted, back, s := SlideStep(u, v, k, i, ls[k], score - points, moved);
        moved := moved || acted;
        if back {
          i := i - 1;
        }
        i := i + 1;
      }
      SlideStateEnds(ls[k], s, score - points, moved);
    }

    /** The loop body; `back` says that the index steps back. It keeps the invariant of
        the loop, which started on the line `start`. */
    method SlideStep(u: bool, v: bool, k: nat, i: nat, ghost start: seq<nat>, ghost won: int, ghost moved: bool)
      returns (acted: bool, back: bool, ghost t: seq<nat>)
      requires Valid() && k < 4 && i < 4
      requires SlideState(start, LinesNow(u, v)[k], i, won, moved)
      modifies this`score, cells
      ensures |t| == 4 && LinesNow(u, v) == old(LinesNow(u, v))[k := t]
      ensures SlideState(start, t, if back then i else i + 1, won + score - old(score), moved || acted)
      ensures back ==> old(LinesNow(u, v)[k])[i] == 0 && t[i] != 0
    {
      ghost var s := LinesNow(u, v)[k];
      t := StepAt(s, i).line;
      StepKeepsState(start, s, i, won, moved);
      acted, back := SlideOnce(u, v, k, i);
    }

    method SlideOnce(u: bool, v: bool, k: nat, i: nat) returns (acted: bool, back: bool)
      requires Valid() && k < 4 && i < 4
      modifies this`score, cells
      ensures var s := old(LinesNow(u, v)[k]);
              && LinesNow(u, v) == old(LinesNow(u, v))[k := StepAt(s, i).line]
              && acted == Acts(s, i)
              && score == old(score) + StepAt(s, i).gain
              && back == (acted && s[i] == 0)
    {
      acted, back := false, false;
      var j := FindTile(u, v, k, i);
      if j < 4 {
        var here := Load(u, v, k, i);
        var there := Load(u, v, k, j);
        if here == 0 {
          Store(u, v, k, i, there);
          Store(u, v, k, j, 0);
          acted, back := true, true;
        } else if here == there {
          Store(u, v, k, i, here + 1);
          Store(u, v, k, j, 0);
          score := score + Pow2(here + 1);
          acted := true;
        }
      }
    }

    /** One move of the game: all four lines, then a new tile if anything changed. */
    method Move(u: bool, v: bool) returns (moved: bool, r: nat, c: nat, x: nat)
      requires Valid()
      modifies this, cells
      ensures moved <==> SlidGrid(old(Snapshot()), u, v) != old(Snapshot())
      ensures score == old(score) + GainOf(old(Snapshot()), u, v)
      ensures moves == old(moves) + (if moved then 1 else 0)
      ensures if moved then
                var g := SlidGrid(old(Snapshot()), u, v);
                CanSpawn(g, r, c, x) && Snapshot() == Put(g, r, c, x)
              else Snapshot() == old(Snapshot())
    {
      ghost var g := Snapshot();
      moved := SlideAll(u, v);
      r, c, x := 0, 0, 0;
      if moved {
        ghost var r0, c0 := ChangedGridHasRoom(g, u, v);
        r, c, x := Add();
        moves := moves + 1;
      }
    }

    method SlideAll(u: bool, v: bool) returns (moved: bool)
      requires Valid()
      modifies this`score, cells
      ensures Snapshot() == SlidGrid(old(Snapshot()), u, v)
      ensures moved <==> Snapshot() != old(Snapshot())
      ensures score == old(score) + GainOf(old(Snapshot()), u, v)
    {
      ghost var g := Snapshot();
      LinesAreNow(u, v);
      assert LinesNow(u, v) == SlidLines(g, u, v, 0);
      moved := false;
      for k := 0 to 4
        invariant LinesNow(u, v) == SlidLines(g, u, v, k)
        invariant moved <==> MovesUpTo(g, u, v, k)
        invariant score == old(score) + GainUpTo(g, u, v, k)
      {
        SlidLinesStep(g, u, v, k);
        var lineMoved := SlideLine(u, v, k);
        moved := moved || lineMoved;
      }
      GridFromLines(g, u, v);
    }

    lemma GridFromLines(g: Grid, u: bool, v: bool)
      requires Valid() && LinesNow(u, v) == SlidLines(g, u, v, 4)
      ensures Snapshot() == SlidGrid(g, u, v)
      ensures Snapshot() != g <==> MovesUpTo(g, u, v, 4)
    {
      LinesAreNow(u, v);
      SlidByLines(g, Snapshot(), u, v);
    }

    lemma LinesAreNow(u: bool, v: bool)
      requires Valid()
      ensures forall k: nat :: k < 4 ==> LinesNow(u, v)[k] == Line(Snapshot(), u, v, k)
    {
    }
  }

  /** The lines of a grid, the first n of them slid. */
  function SlidLines(g: Grid, u: bool, v: bool, n: nat): seq<seq<nat>>
  {
    seq(4, k requires 0 <= k < 4 => if k < n then Slid(Line(g, u, v, k)) else Line(g, u, v, k))
  }

  lemma SlidLinesStep(g: Grid, u: bool, v: bool, n: nat)
    requires n < 4
    ensures SlidLines(g, u, v, n)[n] == Line(g, u, v, n)
    ensures SlidLines(g, u, v, n + 1) == SlidLines(g, u, v, n)[n := Slid(Line(g, u, v, n))]
  {
  }

  lemma SameCells(g: Grid, h: Grid)
    requires forall r, c :: 0 <= r < 4 && 0 <= c < 4 ==> g[r][c] == h[r][c]
    ensures g == h
  {
    assert forall r :: 0 <= r < 4 ==> g[r] == h[r];
  }

  /** The invariant of the loop on a line: what is done, won and left to do. */
  predicate SlideState(start: seq<nat>, s: seq<nat>, i: nat, gain: int, moved: bool)
  {
    && |s| == |start| && i <= |s|
    && s[..i] + Slid(s[i..]) == Slid(start)
    && gain + Gain(s[i..]) == Gain(start)
    && (if moved then Spread(s) < Spread(start) else s == start)
  }

  lemma SlideStateBegins(s: seq<nat>)
    ensures SlideState(s, s, 0, 0, false)
  {
    assert s[0..] == s;
  }

  /** Whether the pass at position i changes the line. */
  predicate Acts(s: seq<nat>, i: nat)
    requires i < |s|
  {
    var j := NextTile(s, i + 1);
    j < |s| && (s[i] == 0 || s[i] == s[j])
  }

  lemma StepKeepsState(start: seq<nat>, s: seq<nat>, i: nat, gain: int, moved: bool)
    requires SlideState(start, s, i, gain, moved) && i < |s|
    ensures var t := StepAt(s, i);
            SlideState(start, t.line, t.next, gain + t.gain, moved || Acts(s, i))
  {
    StepKeepsSlide(s, i);
    StepSpreads(s, i);
  }

  lemma SlideStateEnds(start: seq<nat>, s: seq<nat>, gain: int, moved: bool)
    requires SlideState(start, s, |s|, gain, moved)
    ensures s == Slid(start) && gain == Gain(start) && (moved <==> s != start)
  {
    assert s[..|s|] + Slid(s[|s|..]) == s;
  }

  /** Whether sliding changes one of the first n lines. */
  predicate MovesUpTo(g: Grid, u: bool, v: bool, n: nat)
    requires n <= 4
  {
    n > 0 && (MovesUpTo(g, u, v, n - 1) || Slid(Line(g, u, v, n - 1)) != Line(g, u, v, n - 1))
  }

  lemma {:induction false} MovesUpToWitness(g: Grid, u: bool, v: bool, n: nat)
    requires n <= 4
    ensures MovesUpTo(g, u, v, n) <==> exists m: nat :: m < n && Slid(Line(g, u, v, m)) != Line(g, u, v, m)
  {
    hide Slid, Line;
    if n > 0 {
      MovesUpToWitness(g, u, v, n - 1);
    }
  }

  lemma SlidByLines(g: Grid, h: Grid, u: bool, v: bool)
    requires forall k: nat :: k < 4 ==> Line(h, u, v, k) == Slid(Line(g, u, v, k))
    ensures h == SlidGrid(g, u, v)
    ensures h != g <==> MovesUpTo(g, u, v, 4)
  {
    MovesUpToWitness(g, u, v, 4);
    forall m: nat | m < 4
      ensures Line(h, u, v, m) == Line(SlidGrid(g, u, v), u, v, m)
    {
      LinesOfSlidGrid(g, u, v, m);
    }
    LinesDetermineGrid(h, SlidGrid(g, u, v), u, v);
    if forall m: nat :: m < 4 ==> Slid(Line(g, u, v, m)) == Line(g, u, v, m) {
      LinesDetermineGrid(h, g, u, v);
    }
  }
}
