/** The first-fit allocator, whose chunks lie end to end behind headers in one arena. */
module FirstFitHeap {
  import opened Wrappers

  /** Header size, and so the least size of a chunk. */
  const HEADER: nat := 8

  // ----- headers in memory -----

  function Word(mem: seq<Byte>, p: nat): nat
    requires p + 4 <= |mem|
  {
    (mem[p] as nat) + 0x100 * (mem[p + 1] as nat) + 0x1_0000 * (mem[p + 2] as nat) + 0x100_0000 * (mem[p + 3] as nat)
  }

  /** The byte k of a 32-bit word. */
  function WordByte(w: nat, k: nat): Byte
    requires k < 4
  {
    if k == 0 then w % 0x100
    else if k == 1 then w / 0x100 % 0x100
    else if k == 2 then w / 0x1_0000 % 0x100
    else w / 0x100_0000 % 0x100
  }

  /** A little-endian signed 32-bit word. */
  function Int32(mem: seq<Byte>, p: nat): int
    requires p + 4 <= |mem|
  {
    var w := Word(mem, p);
    if w < 0x8000_0000 then w else w - 0x1_0000_0000
  }

  predicate HoldsWord(mem: seq<Byte>, p: nat, w: nat)
    requires p + 4 <= |mem|
  {
    && mem[p] == WordByte(w, 0) && mem[p + 1] == WordByte(w, 1)
    && mem[p + 2] == WordByte(w, 2) && mem[p + 3] == WordByte(w, 3)
  }

  lemma WordRoundTrip(mem: seq<Byte>, p: nat, w: nat)
    requires p + 4 <= |mem| && w < 0x8000_0000 && HoldsWord(mem, p, w)
    ensures Int32(mem, p) == w
  {
    WordDigits(w);
  }

  lemma WordDigits(w: nat)
    requires w < 0x1_0000_0000
    ensures w == w % 0x100 + 0x100 * (w / 0x100 % 0x100) + 0x1_0000 * (w / 0x1_0000 % 0x100)
               + 0x100_0000 * (w / 0x100_0000 % 0x100)
  {
    assert w / 0x1_0000 == w / 0x100 / 0x100 && w / 0x100_0000 == w / 0x1_0000 / 0x100;
  }

  // ----- chunks -----

  datatype Chunk = Chunk(size: nat, live: bool)

  /** The address of the i-th chunk's header; Start(cs, |cs|) is the untouched tail. */
  function Start(cs: seq<Chunk>, i: nat): nat
    requires i <= |cs|
  {
    if i == 0 then 0 else Start(cs, i - 1) + cs[i - 1].size
  }

  function LiveBytes(cs: seq<Chunk>): nat
  {
    if cs == [] then 0
    else LiveBytes(cs[..|cs| - 1]) + (if cs[|cs| - 1].live then cs[|cs| - 1].size else 0)
  }

  function LiveCount(cs: seq<Chunk>): nat
  {
    if cs == [] then 0 else LiveCount(cs[..|cs| - 1]) + (if cs[|cs| - 1].live then 1 else 0)
  }

  predicate Sized(cs: seq<Chunk>)
  {
    forall i :: 0 <= i < |cs| ==> HEADER <= cs[i].size
  }

  lemma {:induction false} StartPrefix(cs: seq<Chunk>, ds: seq<Chunk>, i: nat)
    requires i <= |cs| && i <= |ds|
    requires forall k :: 0 <= k < i ==> cs[k].size == ds[k].size
    ensures Start(cs, i) == Start(ds, i)
  {
    if i > 0 {
      StartPrefix(cs, ds, i - 1);
    }
  }

  lemma {:induction false} StartGrows(cs: seq<Chunk>, i: nat, j: nat)
    requires i < j <= |cs| && Sized(cs)
    ensures Start(cs, i) + cs[i].size <= Start(cs, j)
  {
    if i < j - 1 {
      StartGrows(cs, i, j - 1);
    }
  }

  lemma {:induction false} LiveBytesBound(cs: seq<Chunk>)
    requires Sized(cs)
    ensures LiveBytes(cs) <= Start(cs, |cs|)
    ensures HEADER * LiveCount(cs) <= LiveBytes(cs)
  {
    if cs != [] {
      var n := |cs| - 1;
      LiveBytesBound(cs[..n]);
      StartPrefix(cs, cs[..n], n);
    }
  }

  /** Changing one chunk changes the totals by that chunk's share. */
  lemma {:induction false} LiveUpdate(cs: seq<Chunk>, i: nat, c: Chunk)
    requires i < |cs| && c.size == cs[i].size
    ensures LiveBytes(cs[i := c]) == LiveBytes(cs) - (if cs[i].live then c.size else 0) + (if c.live then c.size else 0)
    ensures LiveCount(cs[i := c]) == LiveCount(cs) - (if cs[i].live then 1 else 0) + (if c.live then 1 else 0)
  {
    var n := |cs| - 1;
    if i == n {
      assert cs[i := c][..n] == cs[..n];
    } else {
      assert cs[i := c][..n] == cs[..n][i := c];
      LiveUpdate(cs[..n], i, c);
    }
  }

  lemma LiveAppend(cs: seq<Chunk>, c: Chunk)
    ensures LiveBytes(cs + [c]) == LiveBytes(cs) + (if c.live then c.size else 0)
    ensures LiveCount(cs + [c]) == LiveCount(cs) + (if c.live then 1 else 0)
  {
    assert (cs + [c])[..|cs|] == cs;
  }

  /** Payloads of different chunks are disjoint and inside the arena. */
  lemma PayloadsDisjoint(cs: seq<Chunk>, cap: nat, i: nat, j: nat)
    requires Sized(cs) && Start(cs, |cs|) <= cap && i < j < |cs|
    ensures Start(cs, i) + cs[i].size <= Start(cs, j)
    ensures Start(cs, j) + cs[j].size <= cap
  {
    StartGrows(cs, i, j);
    StartGrows(cs, j, |cs|);
  }

  // ----- the calls, on chunks -----

  predicate Fits(c: Chunk, need: nat)
  {
    !c.live && need <= c.size
  }

  /** The first free chunk, from i on, that is large enough; |cs| if there is none. */
  function FirstFit(cs: seq<Chunk>, need: nat, i: nat): (r: nat)
    requires i <= |cs|
    ensures i <= r <= |cs|
    ensures forall k :: i <= k < r ==> !Fits(cs[k], need)
    ensures r < |cs| ==> Fits(cs[r], need)
    decreases |cs| - i
  {
    if i == |cs| || Fits(cs[i], need) then i else FirstFit(cs, need, i + 1)
  }

  predicate TailFits(cs: seq<Chunk>, cap: nat, need: nat)
  {
    Start(cs, |cs|) + need < cap
  }

  predicate Servable(cs: seq<Chunk>, cap: nat, need: nat)
  {
    (exists k :: 0 <= k < |cs| && Fits(cs[k], need)) || TailFits(cs, cap, need)
  }

  /** The chunks after a request, and the payload address that was handed out. */
  function Allocate(cs: seq<Chunk>, cap: nat, elem: nat): (seq<Chunk>, Option<nat>)
  {
    var need := elem + HEADER;
    var k := FirstFit(cs, need, 0);
    if k < |cs| then (cs[k := cs[k].(live := true)], Some(Start(cs, k) + HEADER))
    else if TailFits(cs, cap, need) then (cs + [Chunk(need, true)], Some(Start(cs, |cs|) + HEADER))
    else (cs, None)
  }

  predicate IsChunkAt(cs: seq<Chunk>, p: nat, i: nat)
  {
    i < |cs| && p == Start(cs, i) + HEADER
  }

  /** The index of the chunk whose payload starts at p. */
  function IndexOf(cs: seq<Chunk>, p: nat): (i: nat)
    requires exists k: nat :: IsChunkAt(cs, p, k)
    requires Sized(cs)
    ensures IsChunkAt(cs, p, i)
    ensures forall k: nat :: IsChunkAt(cs, p, k) ==> k == i
  {
    UniqueChunk(cs, p);
    var i: nat :| IsChunkAt(cs, p, i);
    i
  }

  lemma UniqueChunk(cs: seq<Chunk>, p: nat)
    requires Sized(cs)
    ensures forall i: nat, j: nat :: IsChunkAt(cs, p, i) && IsChunkAt(cs, p, j) ==> i == j
  {
    forall i: nat, j: nat | IsChunkAt(cs, p, i) && IsChunkAt(cs, p, j)
      ensures i == j
    {
      if i < j {
        StartGrows(cs, i, j);
      } else if j < i {
        StartGrows(cs, j, i);
      }
    }
  }

  function Release(cs: seq<Chunk>, i: nat): seq<Chunk>
    requires i < |cs|
  {
    cs[i := cs[i].(live := false)]
  }

  /** What every sequence of calls keeps. The tail never reaches the very end. */
  predicate Sound(cs: seq<Chunk>, cap: nat)
  {
    Sized(cs) && (cs != [] ==> Start(cs, |cs|) < cap)
  }

  lemma MallocKeepsSound(cs: seq<Chunk>, cap: nat, elem: nat)
    requires Sound(cs, cap)
    ensures Sound(Allocate(cs, cap, elem).0, cap)
  {
    var k := FirstFit(cs, elem + HEADER, 0);
    if k < |cs| {
      StartPrefix(cs, cs[k := cs[k].(live := true)], |cs|);
    } else {
      StartPrefix(cs, cs + [Chunk(elem + HEADER, true)], |cs|);
    }
  }

  lemma FreeKeepsSound(cs: seq<Chunk>, cap: nat, i: nat)
    requires Sound(cs, cap) && i < |cs|
    ensures Sound(Release(cs, i), cap)
  {
    StartPrefix(cs, Release(cs, i), |cs|);
  }

  /** The early test on the running totals never refuses a request that can be served. */
  lemma EarlyRejectIsSafe(cs: seq<Chunk>, cap: nat, need: nat)
    requires Sound(cs, cap) && Servable(cs, cap, need)
    ensures need <= cap - LiveBytes(cs)
  {
    LiveBytesBound(cs);
    if k :| 0 <= k < |cs| && Fits(cs[k], need) {
      LiveUpdate(cs, k, cs[k].(live := true));
      var ds := cs[k := cs[k].(live := true)];
      StartPrefix(cs, ds, |cs|);
      LiveBytesBound(ds);
    }
  }

  /** After a chunk is freed, any request that is no larger than it succeeds. */
  lemma FreeThenMalloc(cs: seq<Chunk>, cap: nat, i: nat, elem: nat)
    requires i < |cs| && elem + HEADER <= cs[i].size
    ensures Allocate(Release(cs, i), cap, elem).1.Some?
  {
    assert Fits(Release(cs, i)[i], elem + HEADER);
  }

  /** A successful request turns one non-live chunk live, at least as large as asked,
      and leaves every other chunk where and as it was. */
  lemma MallocEffect(cs: seq<Chunk>, cap: nat, elem: nat)
    requires Sound(cs, cap) && Allocate(cs, cap, elem).1.Some?
    ensures var (ds, r) := Allocate(cs, cap, elem);
            exists k: nat ::
              && IsChunkAt(ds, r.value, k) && ds[k].live && elem + HEADER <= ds[k].size
              && (k < |cs| ==> !cs[k].live)
              && |cs| <= |ds|
              && forall j: nat :: j < |cs| && j != k ==> ds[j] == cs[j] && Start(ds, j) == Start(cs, j)
  {
    var (ds, r) := Allocate(cs, cap, elem);
    var k := FirstFit(cs, elem + HEADER, 0);
    forall j: nat | j <= |cs|
      ensures Start(ds, j) == Start(cs, j)
    {
      StartPrefix(cs, ds, j);
    }
    assert IsChunkAt(ds, r.value, k);
  }

  /** A request is served exactly when a free chunk or the tail has room for it and its
      header; it gets the first such chunk whole, and the tail, in its own size, only if
      there is none. */
  lemma MallocIsFirstFit(cs: seq<Chunk>, cap: nat, elem: nat)
    ensures var (ds, r) := Allocate(cs, cap, elem);
            && (r.Some? <==> (exists k :: 0 <= k < |cs| && !cs[k].live && elem + 8 <= cs[k].size) || Start(cs, |cs|) + elem + 8 < cap)
            && (r.None? ==> ds == cs)
            && (forall k: nat :: k < |cs| && !cs[k].live && elem + 8 <= cs[k].size
                                 && (forall j :: 0 <= j < k ==> cs[j].live || cs[j].size < elem + 8)
                                 ==> ds == cs[k := Chunk(cs[k].size, true)] && r == Some(Start(cs, k) + 8))
            && ((forall j :: 0 <= j < |cs| ==> cs[j].live || cs[j].size < elem + 8) && r.Some? ==>
                  ds == cs + [Chunk(elem + 8, true)] && r == Some(Start(cs, |cs|) + 8))
  {
    var k := FirstFit(cs, elem + HEADER, 0);
    assert k < |cs| ==> Fits(cs[k], elem + HEADER);
  }

  // ----- runs -----

  datatype Call = MallocCall(elem: nat) | FreeCall(index: nat)

  /** The chunks after a sequence of calls; freeing goes by chunk. */
  function Run(calls: seq<Call>, cap: nat): seq<Chunk>
  {
    if calls == [] then []
    else
      var cs := Run(calls[..|calls| - 1], cap);
      match calls[|calls| - 1]
      case MallocCall(elem) => Allocate(cs, cap, elem).0
      case FreeCall(i) => if i < |cs| then Release(cs, i) else cs
  }

  /** Over every sequence of calls chunks stay apart and in bounds. */
  lemma {:induction false} EveryRunIsSound(calls: seq<Call>, cap: nat)
    ensures Sound(Run(calls, cap), cap)
    ensures forall i: nat, j: nat :: i < j < |Run(calls, cap)| ==>
              Start(Run(calls, cap), i) + Run(calls, cap)[i].size <= Start(Run(calls, cap), j)
    ensures forall i: nat :: i < |Run(calls, cap)| ==> Start(Run(calls, cap), i) + Run(calls, cap)[i].size < cap
  {
    if calls != [] {
      var before, last := calls[..|calls| - 1], calls[|calls| - 1];
      EveryRunIsSound(before, cap);
      if last.MallocCall? {
        MallocKeepsSound(Run(before, cap), cap, last.elem);
      } else if last.index < |Run(before, cap)| {
        FreeKeepsSound(Run(before, cap), cap, last.index);
      }
    }
    var cs := Run(calls, cap);
    forall i: nat, j: nat | i < j <= |cs|
      ensures Start(cs, i) + cs[i].size <= Start(cs, j)
    {
      StartGrows(cs, i, j);
    }
  }

  // ----- the arena -----

  /** The chunks as they stand in memory: a header before each, zeros after the last. */
  ghost predicate Layout(mem: seq<Byte>, cs: seq<Chunk>)
  {
    && Sound(cs, |mem|)
    && (forall i: nat :: i < |cs| ==> HeaderIn(mem, cs, i))
    && (forall a: nat :: Start(cs, |cs|) <= a < |mem| ==> mem[a] == 0)
  }

  predicate HeaderIn(mem: seq<Byte>, cs: seq<Chunk>, i: nat)
    requires i < |cs|
  {
    HeaderOf(mem, Start(cs, i), cs[i])
  }

  predicate HeaderOf(mem: seq<Byte>, p: nat, c: Chunk)
  {
    p + HEADER <= |mem| && Int32(mem, p) == (if c.live then 1 else 0) && Int32(mem, p + 4) == c.size
  }

  lemma HeaderUnchanged(mem: seq<Byte>, after: seq<Byte>, p: nat, c: Chunk)
    requires HeaderOf(mem, p, c) && |after| == |mem|
    requires forall a: nat :: p <= a < p + HEADER ==> after[a] == mem[a]
    ensures HeaderOf(after, p, c)
  {
    assert after[p] == mem[p] && after[p + 1] == mem[p + 1] && after[p + 2] == mem[p + 2] && after[p + 3] == mem[p + 3];
    assert after[p + 4] == mem[p + 4] && after[p + 5] == mem[p + 5] && after[p + 6] == mem[p + 6] && after[p + 7] == mem[p + 7];
  }

  /** Memory differs only at the header at p. */
  predicate SameOutside(mem: seq<Byte>, after: seq<Byte>, p: nat, len: nat)
  {
    |mem| == |after| && forall a: nat :: a < |mem| && !(p <= a < p + len) ==> after[a] == mem[a]
  }

  /** Rewriting the header of chunk i, with its size kept. */
  lemma RelabelKeepsLayout(mem: seq<Byte>, after: seq<Byte>, cs: seq<Chunk>, i: nat, c: Chunk)
    requires Layout(mem, cs) && i < |cs| && c.size == cs[i].size
    requires SameOutside(mem, after, Start(cs, i), HEADER) && HeaderOf(after, Start(cs, i), c)
    ensures Layout(after, cs[i := c])
  {
    var ds := cs[i := c];
    forall k: nat | k <= |cs|
      ensures Start(ds, k) == Start(cs, k)
    {
      StartPrefix(cs, ds, k);
    }
    forall k: nat | k < |cs| && k != i
      ensures HeaderIn(after, ds, k)
    {
      ApartHeaders(cs, i, k);
      assert HeaderIn(mem, cs, k);
      HeaderUnchanged(mem, after, Start(cs, k), cs[k]);
    }
    StartGrows(cs, i, |cs|);
  }

  lemma ApartHeaders(cs: seq<Chunk>, i: nat, k: nat)
    requires Sized(cs) && i < |cs| && k < |cs| && k != i
    ensures Start(cs, k) + HEADER <= Start(cs, i) || Start(cs, i) + HEADER <= Start(cs, k)
  {
    if k < i {
      StartGrows(cs, k, i);
    } else {
      StartGrows(cs, i, k);
    }
  }

  /** Writing the header of a new chunk at the tail. */
  lemma AppendKeepsLayout(mem: seq<Byte>, after: seq<Byte>, cs: seq<Chunk>, c: Chunk)
    requires Layout(mem, cs) && HEADER <= c.size && Start(cs, |cs|) + c.size < |mem|
    requires SameOutside(mem, after, Start(cs, |cs|), HEADER) && HeaderOf(after, Start(cs, |cs|), c)
    ensures Layout(after, cs + [c])
  {
    var ds := cs + [c];
    forall k: nat | k <= |cs|
      ensures Start(ds, k) == Start(cs, k)
    {
      StartPrefix(cs, ds, k);
    }
    forall k: nat | k < |cs|
      ensures HeaderIn(after, ds, k)
    {
      StartGrows(cs, k, |cs|);
      assert HeaderIn(mem, cs, k);
      HeaderUnchanged(mem, after, Start(cs, k), cs[k]);
    }
  }

  /** Writing inside the payload of a chunk. */
  lemma PayloadKeepsLayout(mem: seq<Byte>, after: seq<Byte>, cs: seq<Chunk>, i: nat, a: nat)
    requires Layout(mem, cs) && i < |cs|
    requires Start(cs, i) + HEADER <= a < Start(cs, i) + cs[i].size
    requires SameOutside(mem, after, a, 1)
    ensures Layout(after, cs)
  {
    forall k: nat | k < |cs|
      ensures HeaderIn(after, cs, k)
    {
      if k < i {
        StartGrows(cs, k, i);
      } else if i < k {
        StartGrows(cs, i, k);
      }
      assert HeaderIn(mem, cs, k);
      HeaderUnchanged(mem, after, Start(cs, k), cs[k]);
    }
    StartGrows(cs, i, |cs|);
  }

  /** The untouched tail reads as a free chunk of size zero. */
  lemma TailHeader(mem: seq<Byte>, cs: seq<Chunk>)
    requires Layout(mem, cs) && Start(cs, |cs|) + HEADER <= |mem|
    ensures Int32(mem, Start(cs, |cs|)) == 0 && Int32(mem, Start(cs, |cs|) + 4) == 0
  {
  }

  class Heap {
    const arena: array<Byte>
    /** Payload bytes of live chunks, and their number. */
    var allocatedMem: int
    var mcbCount: int
    /** The chunks that the arena holds. */
    ghost var chunks: seq<Chunk>

    ghost predicate Valid()
      reads this, arena
    {
      && arena.Length < 0x8000_0000
      && Layout(arena[..], chunks)
      && mcbCount == LiveCount(chunks)
      && allocatedMem == LiveBytes(chunks) - HEADER * LiveCount(chunks)
    }

    constructor (size: nat)
      requires size < 0x8000_0000
      ensures Valid() && fresh(arena) && arena.Length == size && chunks == []
    {
      arena := new Byte[size](_ => 0);
      allocatedMem, mcbCount, chunks := 0, 0, [];
    }

    method WriteInt32(p: nat, w: nat)
      requires p + 4 <= arena.Length && w < 0x8000_0000
      modifies arena
      ensures Int32(arena[..], p) == w && SameOutside(old(arena[..]), arena[..], p, 4)
    {
      arena[p] := WordByte(w, 0);
      arena[p + 1] := WordByte(w, 1);
      arena[p + 2] := WordByte(w, 2);
      arena[p + 3] := WordByte(w, 3);
      WordRoundTrip(arena[..], p, w);
    }

    method ReadInt32(p: nat) returns (w: int)
      requires p + 4 <= arena.Length
      ensures w == Int32(arena[..], p)
    {
      var u := (arena[p] as nat) + 0x100 * (arena[p + 1] as nat) + 0x1_0000 * (arena[p + 2] as nat)
             + 0x100_0000 * (arena[p + 3] as nat);
      w := if u < 0x8000_0000 then u else u - 0x1_0000_0000;
    }

    method WriteHeader(p: nat, live: bool, size: nat)
      requires p + HEADER <= arena.Length && size < 0x8000_0000
      modifies arena
      ensures HeaderOf(arena[..], p, Chunk(size, live)) && SameOutside(old(arena[..]), arena[..], p, HEADER)
    {
      WriteInt32(p, if live then 1 else 0);
      ghost var mem := arena[..];
      WriteInt32(p + 4, size);
      assert arena[..][p] == mem[p] && arena[..][p + 1] == mem[p + 1]
          && arena[..][p + 2] == mem[p + 2] && arena[..][p + 3] == mem[p + 3];
    }

    /** The walk: the offset of the chunk to use, whether it is new, and its size. */
    method FindChunk(need: nat) returns (found: bool, isNew: bool, p: nat, size: nat)
      requires Valid() && HEADER <= need
      ensures found <==> Servable(chunks, arena.Length, need)
      ensures found ==>
        var k := FirstFit(chunks, need, 0);
        p == Start(chunks, k) && isNew == (k == |chunks|) && (!isNew ==> size == chunks[k].size)
    {
      found, isNew, p, size := false, false, 0, 0;
      ghost var i := 0;
      while arena.Length > p + need
        invariant i <= |chunks| && p == Start(chunks, i)
        invariant FirstFit(chunks, need, i) == FirstFit(chunks, need, 0)
        decreases |chunks| - i
      {
        if i < |chunks| {
          assert HeaderIn(arena[..], chunks, i);
        } else {
          TailHeader(arena[..], chunks);
        }
        var avail := ReadInt32(p);
        var sz := ReadInt32(p + 4);
        if avail == 0 {
          if sz == 0 {
            found, isNew := true, true;
            return;
          }
          if sz >= need {
            found, size := true, sz;
            return;
          }
        }
        p := p + sz;
        i := i + 1;
      }
      NothingFits(chunks, arena.Length, need, i);
    }

    method Malloc(elem: nat) returns (r: Option<nat>)
      requires Valid()
      modifies this, arena
      ensures Valid() && (chunks, r) == Allocate(old(chunks), arena.Length, elem)
      ensures r.None? <==> !Servable(old(chunks), arena.Length, elem + HEADER)
      ensures if r.None? then arena[..] == old(arena[..])
              else r.value >= HEADER && SameOutside(old(arena[..]), arena[..], r.value - HEADER, HEADER)
    {
      var need := elem + HEADER;
      if need > arena.Length - (allocatedMem + mcbCount * HEADER) {
        assert !Servable(chunks, arena.Length, need) by {
          if Servable(chunks, arena.Length, need) {
            EarlyRejectIsSafe(chunks, arena.Length, need);
          }
        }
        return None;
      }
      var found, isNew, p, size := FindChunk(need);
      if !found {
        return None;
      }
      Take(need, p, isNew, size);
      return Some(p + HEADER);
    }

    /** Marks the chunk that the walk found as in use. */
    method Take(need: nat, p: nat, isNew: bool, size: nat)
      requires Valid() && HEADER <= need
      requires var k := FirstFit(chunks, need, 0);
               && p == Start(chunks, k) && isNew == (k == |chunks|)
               && (if isNew then TailFits(chunks, arena.Length, need) else size == chunks[k].size)
      modifies this, arena
      ensures Valid() && chunks == Allocate(old(chunks), arena.Length, need - HEADER).0
      ensures SameOutside(old(arena[..]), arena[..], p, HEADER)
    {
      ghost var cs, mem, k := chunks, arena[..], FirstFit(chunks, need, 0);
      var chunkSize := if isNew then need else size;
      if !isNew {
        StartGrows(cs, k, |cs|);
      }
      WriteHeader(p, true, chunkSize);
      ghost var c := Chunk(chunkSize, true);
      if isNew {
        AppendKeepsLayout(mem, arena[..], cs, c);
        LiveAppend(cs, c);
        chunks := cs + [c];
      } else {
        RelabelKeepsLayout(mem, arena[..], cs, k, c);
        LiveUpdate(cs, k, c);
        chunks := cs[k := c];
      }
      mcbCount := mcbCount + 1;
      allocatedMem := allocatedMem + chunkSize - HEADER;
    }

    /** Frees the chunk behind p; freeing it again changes nothing. */
    method Free(p: nat)
      requires Valid() && exists k: nat :: IsChunkAt(chunks, p, k)
      modifies this, arena
      ensures Valid() && chunks == Release(old(chunks), IndexOf(old(chunks), p))
      ensures SameOutside(old(arena[..]), arena[..], p - HEADER, HEADER)
    {
      ghost var cs, mem, i := chunks, arena[..], IndexOf(chunks, p);
      assert HeaderIn(mem, cs, i);
      var avail := ReadInt32(p - HEADER);
      if avail != 0 {
        var size := ReadInt32(p - 4);
        mcbCount := mcbCount - 1;
        WriteHeader(p - HEADER, false, size);
        allocatedMem := allocatedMem - (size - HEADER);
        ghost var c := Chunk(size, false);
        RelabelKeepsLayout(mem, arena[..], cs, i, c);
        LiveUpdate(cs, i, c);
        chunks := cs[i := c];
      } else {
        assert cs[i := cs[i].(live := false)] == cs;
      }
    }

    /** The owner of a live chunk writes a byte of its payload. */
    method Store(p: nat, offset: nat, b: Byte)
      requires Valid() && exists k: nat :: IsChunkAt(chunks, p, k)
      requires var c := chunks[IndexOf(chunks, p)]; c.live && offset + HEADER < c.size
      modifies arena
      ensures Valid()
    {
      ghost var mem, i := arena[..], IndexOf(chunks, p);
      StartGrows(chunks, i, |chunks|);
      arena[p + offset] := b;
      PayloadKeepsLayout(mem, arena[..], chunks, i, p + offset);
    }
  }

  /** Once the walk stops for want of room, nothing later can fit. */
  lemma NothingFits(cs: seq<Chunk>, cap: nat, need: nat, i: nat)
    requires Sound(cs, cap) && i <= |cs| && cap <= Start(cs, i) + need
    requires FirstFit(cs, need, i) == FirstFit(cs, need, 0)
    ensures !Servable(cs, cap, need)
  {
    forall k | i <= k < |cs|
      ensures !Fits(cs[k], need)
    {
      StartGrows(cs, k, |cs|);
      if i < k {
        StartGrows(cs, i, k);
      }
    }
    if i < |cs| {
      StartGrows(cs, i, |cs|);
    }
    assert FirstFit(cs, need, 0) == |cs|;
  }
}
