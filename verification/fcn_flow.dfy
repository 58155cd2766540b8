/** What a block list says about the code: it covers what the flow of control comes to. */
module FcnFlow {
  import opened Wrappers
  import opened BasicBlocks
  import opened FcnBlocks
  import opened FcnTraces

  /** No walk ran out of bytes and no target was given up. */
  predicate GaveUpNothing(p: Past)
  {
    p.cuts == {} && p.open == {} && p.deep == {} && p.large == {}
  }

  /** A target that was followed, where nothing was given up. */
  predicate Found(w: World, bs: seq<Block>, t: nat)
  {
    HasStart(bs, t) || w.refused(t)
  }

  /** A walk may stand at the address. */
  predicate Walkable(w: World, a: nat)
  {
    Decodes(w.code(a)) && !w.stops(a)
  }

  /** The program may follow the flow from one instruction to the other, other than to the
      next one: to a target, or past a push to the address that the return behind it goes
      to. */
  predicate Jumps(w: World, a: nat, t: nat)
  {
    var o := w.code(a);
    && !w.refused(t)
    && ((MustEnd(o.kind) && t in w.follows(o.kind))
        || (w.pushes && o.kind == Push(t) && Walkable(w, a + o.size) && w.code(a + o.size).kind.Return?))
  }

  /** The flow goes from one instruction to the other. */
  predicate Goes(w: World, a: nat, t: nat)
  {
    Walkable(w, a) && (Jumps(w, a, t) || (!MustEnd(w.code(a).kind) && t == a + w.code(a).size))
  }

  /** The program always follows that flow: it does not go on behind a return that goes to
      a pushed address. */
  ghost predicate GoesSurely(w: World, a: nat, t: nat)
  {
    Walkable(w, a) && (Jumps(w, a, t) || (!MayEndAt(w, a) && t == a + w.code(a).size))
  }

  /** A path of the flow from an entry, along instructions where walks may stand. */
  ghost predicate Path(w: World, entries: set<nat>, path: seq<nat>)
  {
    && path != [] && path[0] in entries && !w.refused(path[0])
    && forall i :: 0 <= i < |path| - 1 ==> Goes(w, path[i], path[i + 1])
  }

  ghost predicate SurePath(w: World, entries: set<nat>, path: seq<nat>)
  {
    && path != [] && path[0] in entries && !w.refused(path[0])
    && forall i :: 0 <= i < |path| - 1 ==> GoesSurely(w, path[i], path[i + 1])
  }

  predicate EndsWith(path: seq<nat>, x: nat)
  {
    path != [] && path[|path| - 1] == x
  }

  /** The flow comes from an entry to the address. */
  ghost predicate Came(w: World, entries: set<nat>, x: nat)
  {
    exists path :: Path(w, entries, path) && EndsWith(path, x)
  }

  lemma EntryCame(w: World, entries: set<nat>, x: nat)
    requires x in entries && !w.refused(x)
    ensures Came(w, entries, x)
  {
    assert Path(w, entries, [x]) && EndsWith([x], x);
  }

  lemma StepCame(w: World, entries: set<nat>, a: nat, t: nat)
    requires Came(w, entries, a) && Goes(w, a, t)
    ensures Came(w, entries, t)
  {
    var path :| Path(w, entries, path) && EndsWith(path, a);
    var longer := path + [t];
    forall i | 0 <= i < |longer| - 1
      ensures Goes(w, longer[i], longer[i + 1])
    {
      if i < |path| - 1 {
        assert Goes(w, path[i], path[i + 1]);
      }
    }
    assert Path(w, entries, longer) && EndsWith(longer, t);
  }

  lemma MoreCame(w: World, entries: set<nat>, more: set<nat>, x: nat)
    requires Came(w, entries, x) && entries <= more
    ensures Came(w, more, x)
  {
    var path :| Path(w, entries, path) && EndsWith(path, x);
    assert Path(w, more, path);
  }

  /** Where returns do not go to pushed addresses the two kinds of flow are one. */
  lemma SureWithoutPushes(w: World, a: nat, t: nat)
    requires !w.pushes
    ensures GoesSurely(w, a, t) <==> Goes(w, a, t)
  {
  }

  /** A block list as the recursion leaves it. */
  ghost predicate Finished(w: World, p: Past, bs: seq<Block>)
  {
    Consistent(w.code, w.starts) && Sound(w.code, w.starts, bs) && Traced(w, p, bs, None)
  }

  lemma StartIsCovered(w: World, p: Past, bs: seq<Block>, t: nat)
    requires Finished(w, p, bs) && GaveUpNothing(p) && HasStart(bs, t) && Walkable(w, t)
    ensures Covers(bs, t)
  {
    var k :| 0 <= k < |bs| && bs[k].addr == t;
    hide Straight, EdgesRight, TargetsLead, OffsetsRight, Shape, Disjoint, Leads, Consistent;
    assert BlockTraced(w, p, bs, bs[k], None) && Decoded(w.code, w.starts, bs[k]);
    if bs[k].ninstr > 0 {
      AfterGrows(w.code, w.starts, t, 0, bs[k].ninstr);
    }
    assert !CutAt(p, t);
    assert InBlock(bs[k], t);
  }

  /** The block around an instruction, and the instruction's place in it. */
  lemma PlaceOf(w: World, p: Past, bs: seq<Block>, a: nat) returns (k: nat, i: nat)
    requires Finished(w, p, bs) && w.starts(a) && Covers(bs, a)
    ensures k < |bs| && InBlock(bs[k], a) && i < bs[k].ninstr && a == After(w.code, bs[k].addr, i)
    ensures Decodes(w.code(a)) && a + w.code(a).size == After(w.code, bs[k].addr, i + 1) <= bs[k].addr + bs[k].size
    ensures bs[k].addr + bs[k].size == After(w.code, bs[k].addr, bs[k].ninstr)
    ensures BlockTraced(w, p, bs, bs[k], None)
  {
    hide BlockTraced, OffsetsRight, Shape, Apart, Disjoint, Consistent;
    k :| 0 <= k < |bs| && InBlock(bs[k], a);
    var b := bs[k];
    assert Decoded(w.code, w.starts, b) && BlockTraced(w, p, bs, b, None);
    i := StartInRun(w.code, w.starts, b.addr, b.ninstr, a);
    RunPrefix(w.code, b.addr, b.ninstr, i + 1);
    if i + 1 < b.ninstr {
      AfterGrows(w.code, w.starts, b.addr, i + 1, b.ninstr);
    }
  }

  lemma LastPlace(w: World, p: Past, bs: seq<Block>, k: nat, i: nat)
    requires Finished(w, p, bs) && k < |bs| && i < bs[k].ninstr
    requires After(w.code, bs[k].addr, i + 1) == bs[k].addr + bs[k].size
    ensures i == bs[k].ninstr - 1
  {
    hide Straight, Leads, Closed, OffsetsRight, Shape, Disjoint, Consistent, Traced, Runs;
    assert Decoded(w.code, w.starts, bs[k]);
    if i + 1 < bs[k].ninstr {
      AfterGrows(w.code, w.starts, bs[k].addr, i + 1, bs[k].ninstr);
    }
  }

  lemma OnlyLastStops(w: World, b: Block, i: nat)
    requires Straight(w, b) && i < b.ninstr && StopsAt(w, b, i)
    ensures i == b.ninstr - 1
  {
  }

  /** An instruction at which walks stop is the last one of its block, whose edges it has. */
  lemma EndIsLast(w: World, p: Past, bs: seq<Block>, a: nat) returns (k: nat)
    requires Finished(w, p, bs) && w.starts(a) && Covers(bs, a) && MustEnd(w.code(a).kind)
    ensures k < |bs| && bs[k].ninstr > 0 && bs[k].addr + bs[k].size == a + w.code(a).size
    ensures LastKind(w.code, bs[k]) == w.code(a).kind && Closed(w, p, bs, bs[k])
  {
    hide Consistent, Disjoint, Apart, Decoded, Covers, Ended, EdgesRight, TargetsLead;
    var i;
    k, i := PlaceOf(w, p, bs, a);
    OnlyLastStops(w, bs[k], i);
  }

  /** Every target of a covered instruction that ends the flow was followed. */
  lemma TargetsAreFound(w: World, p: Past, bs: seq<Block>, a: nat)
    requires Finished(w, p, bs) && GaveUpNothing(p) && w.starts(a) && Covers(bs, a) && MustEnd(w.code(a).kind)
    ensures forall t :: t in w.follows(w.code(a).kind) ==> Found(w, bs, t)
  {
    hide After, Ended, EdgesRight, Decoded, Disjoint;
    var k := EndIsLast(w, p, bs, a);
    forall t | t in w.follows(w.code(a).kind)
      ensures Found(w, bs, t)
    {
      assert Reaches(w, p, bs, t);
    }
  }

  /** So was the address that a covered instruction pushes, if a return goes there. */
  lemma PushIsFound(w: World, p: Past, bs: seq<Block>, a: nat)
    requires Finished(w, p, bs) && GaveUpNothing(p) && w.starts(a) && Covers(bs, a) && w.pushes && w.code(a).kind.Push?
    requires Walkable(w, a + w.code(a).size) && w.code(a + w.code(a).size).kind.Return?
    ensures Found(w, bs, w.code(a).kind.v)
  {
    hide Ended, EdgesRight, Decoded, Disjoint, Consistent;
    var k, i := PlaceOf(w, p, bs, a);
    var b := bs[k];
    if i == b.ninstr - 1 {
      assert !CutAt(p, b.addr + b.size);
      assert PushedBehind(w, b) == Some(w.code(a).kind.v);
    } else {
      assert Pushed(w, b, i + 1);
      OnlyLastStops(w, b, i + 1);
      assert PushedInside(w, b) == Some(w.code(a).kind.v);
    }
  }

  /** Behind a covered instruction at which walks do not stop the next one is covered. */
  lemma NextIsCovered(w: World, p: Past, bs: seq<Block>, a: nat)
    requires Finished(w, p, bs) && GaveUpNothing(p) && w.starts(a) && Covers(bs, a) && !MayEndAt(w, a)
    requires Walkable(w, a + w.code(a).size)
    ensures Covers(bs, a + w.code(a).size)
  {
    hide OffsetsRight, Shape, Apart, After, Runs, Straight, EdgesRight, TargetsLead, Leads, Consistent, MayEndAt;
    var t := a + w.code(a).size;
    var k, i := PlaceOf(w, p, bs, a);
    if t < bs[k].addr + bs[k].size {
      assert InBlock(bs[k], t);
    } else {
      LastPlace(w, p, bs, k, i);
      assert !CutAt(p, t);
      StartIsCovered(w, p, bs, t);
    }
  }

  /** One step along the flow of control stays inside. */
  lemma StepIsCovered(w: World, p: Past, bs: seq<Block>, a: nat, t: nat)
    requires Finished(w, p, bs) && GaveUpNothing(p) && w.starts(a) && Covers(bs, a) && GoesSurely(w, a, t) && Walkable(w, t)
    ensures Covers(bs, t)
  {
    hide Finished, Covers, MayEndAt, HasStart;
    if Jumps(w, a, t) {
      if MustEnd(w.code(a).kind) && t in w.follows(w.code(a).kind) {
        TargetsAreFound(w, p, bs, a);
      } else {
        PushIsFound(w, p, bs, a);
      }
      assert Found(w, bs, t);
      StartIsCovered(w, p, bs, t);
    } else {
      NextIsCovered(w, p, bs, a);
    }
  }

  lemma EntryIsFound(w: World, p: Past, bs: seq<Block>, e: nat)
    requires Finished(w, p, bs) && GaveUpNothing(p) && e in p.entries
    ensures Found(w, bs, e)
  {
    assert Reaches(w, p, bs, e);
  }

  /** Nothing is missing: what the program surely follows from an entry, along any path, is
      covered. */
  lemma {:induction false} PathIsCovered(w: World, p: Past, bs: seq<Block>, path: seq<nat>)
    requires Finished(w, p, bs) && GaveUpNothing(p)
    requires SurePath(w, p.entries, path) && (forall i :: 0 <= i < |path| ==> w.starts(path[i])) && Walkable(w, path[|path| - 1])
    ensures Covers(bs, path[|path| - 1])
  {
    hide Finished, Covers;
    var n := |path| - 1;
    if n == 0 {
      EntryIsFound(w, p, bs, path[0]);
      StartIsCovered(w, p, bs, path[0]);
    } else {
      var front := path[..n];
      assert front[|front| - 1] == path[n - 1];
      assert GoesSurely(w, path[n - 1], path[n - 1 + 1]);
      forall i | 0 <= i < |front| - 1
        ensures GoesSurely(w, front[i], front[i + 1])
      {
        assert GoesSurely(w, path[i], path[i + 1]);
      }
      PathIsCovered(w, p, bs, front);
      StepIsCovered(w, p, bs, path[n - 1], path[n]);
    }
  }

  /** Blocks start where the flow comes to. */
  ghost predicate StartsCame(w: World, entries: set<nat>, bs: seq<Block>)
  {
    forall i :: 0 <= i < |bs| ==> Came(w, entries, bs[i].addr)
  }

  /** Nothing is too much: every covered instruction is one that the flow comes to. */
  lemma CoveredCame(w: World, p: Past, bs: seq<Block>, x: nat)
    requires Finished(w, p, bs) && StartsCame(w, p.entries, bs) && w.starts(x) && Covers(bs, x)
    ensures Came(w, p.entries, x) && Walkable(w, x)
  {
    hide Came, After, Goes, Covers, Consistent, Disjoint, Apart, OffsetsRight, Closed;
    var k, i := PlaceOf(w, p, bs, x);
    assert Decoded(w.code, w.starts, bs[k]);
    RunCame(w, p.entries, bs[k], i);
  }

  lemma {:induction false} RunCame(w: World, entries: set<nat>, b: Block, i: nat)
    requires Straight(w, b) && Came(w, entries, b.addr) && Runs(w.code, b.addr, b.ninstr) && i < b.ninstr
    ensures Came(w, entries, After(w.code, b.addr, i)) && Walkable(w, After(w.code, b.addr, i))
  {
    RunPrefix(w.code, b.addr, b.ninstr, i + 1);
    assert !w.stops(After(w.code, b.addr, i));
    if i > 0 {
      RunCame(w, entries, b, i - 1);
      assert !StopsAt(w, b, i - 1);
      StepCame(w, entries, After(w.code, b.addr, i - 1), After(w.code, b.addr, i));
    }
  }

  /** A block that does not end the flow leads to the next instruction, where a block
      starts, or stops where no walk can stand; unless such edges may be overwritten. */
  lemma FallEdges(w: World, p: Past, bs: seq<Block>, k: nat)
    requires Finished(w, p, bs) && GaveUpNothing(p) && k < |bs| && Flowing(w, bs[k]) && w.falls
    ensures var b, end := bs[k], bs[k].addr + bs[k].size;
            && b.fail == None
            && ((b.jump == Some(end) && Found(w, bs, end)) || (b.jump == None && !Walkable(w, end)))
  {
    assert BlockTraced(w, p, bs, bs[k], None);
    assert !CutAt(p, bs[k].addr + bs[k].size);
  }
}
