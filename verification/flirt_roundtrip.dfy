/** Reading a written signature tree gives that tree back, and stops right behind it.

    There is one lemma for each part of the format, from numbers of one to five bytes over
    functions, modules and leaves to whole trees; each says what the reader returns when
    the writer's bytes stand at its position, whatever follows them. */
module FlirtRoundTrip {
  import opened Words
  import opened Wrappers
  import opened FlirtFormat

  // ----- numbers -----

  lemma Max2RoundTrip(x: nat, rest: seq<Byte>)
    requires x < 0x8000
    ensures ReadMax2(Max2Bytes(x) + rest) == Ok(x, rest)
  {
    var bs := Max2Bytes(x) + rest;
    assert bs[|Max2Bytes(x)|..] == rest;
  }

  lemma MultiRoundTrip(x: nat, rest: seq<Byte>)
    requires x < 0x1_0000_0000
    ensures ReadMulti(MultiBytes(x) + rest) == Ok(x, rest)
  {
    var bs := MultiBytes(x) + rest;
    assert bs[|MultiBytes(x)|..] == rest;
    FourDigits(x);
  }

  lemma FourDigits(x: nat)
    requires x < 0x1_0000_0000
    ensures x == x / 0x100_0000 * 0x100_0000 + x / 0x1_0000 % 0x100 * 0x1_0000 + x / 0x100 % 0x100 * 0x100 + x % 0x100
  {
    var a := x / 0x100;
    var b := a / 0x100;
    assert b == x / 0x1_0000 && b / 0x100 == x / 0x100_0000;
  }

  lemma OffsetRoundTrip(v: nat, x: nat, rest: seq<Byte>)
    requires OffsetFits(v, x)
    ensures ReadOffset(v, OffsetBytes(v, x) + rest) == Ok(x, rest)
  {
    hide ReadMulti, MultiBytes, ReadMax2, Max2Bytes;
    if v >= 9 {
      MultiRoundTrip(x, rest);
    } else {
      Max2RoundTrip(x, rest);
    }
  }

  // ----- functions -----

  lemma {:induction false} NameRoundTrip(name: seq<Byte>, flags: Byte, left: nat, rest: seq<Byte>)
    requires name != [] && NameFits(name) && flags < 0x20 && |name| <= left
    ensures ReadName(name[1..] + ([flags] + rest), name[0], left) == Ok((name, flags), rest)
    decreases |name|
  {
    var bs := name[1..] + ([flags] + rest);
    if |name| == 1 {
      assert bs == [flags] + rest && bs[1..] == rest;
      assert [name[0]] + [] == name;
    } else {
      NameRoundTrip(name[1..], flags, left - 1, rest);
      assert bs[0] == name[1] && bs[1..] == name[1..][1..] + ([flags] + rest);
      assert [name[0]] + name[1..] == name;
    }
  }

  /** A name and the flags after it, however the name is introduced. */
  lemma NamedRoundTrip(f: Function, flags: Byte, rest: seq<Byte>)
    requires NameFits(f.name) && flags < 0x20
    ensures ReadNamed(NamedBytes(f) + ([flags] + rest), f.offset) == Ok((f, flags), rest)
  {
    hide ReadName, NameFits;
    var bs := NamedBytes(f) + ([flags] + rest);
    FunctionFlags(f.isLocal, f.isCollision);
    if f.name == [] {
      assert bs[1] == flags && bs[2..] == rest;
      NoName(rest, flags);
    } else {
      NameIsPrintable(f.name);
      NameRoundTrip(f.name, flags, NAME_MAX, rest);
      if f.isLocal || f.isCollision {
        assert bs[1] == f.name[0] && bs[2..] == f.name[1..] + ([flags] + rest);
      } else {
        assert bs[0] == f.name[0] && bs[1..] == f.name[1..] + ([flags] + rest);
      }
    }
  }

  lemma NoName(rest: seq<Byte>, flags: Byte)
    requires flags < 0x20
    ensures ReadName(rest, flags, NAME_MAX) == Ok(([], flags), rest)
  {
  }

  lemma NameIsPrintable(name: seq<Byte>)
    requires name != [] && NameFits(name)
    ensures name[0] >= 0x20 && |name| < NAME_MAX
  {
  }

  lemma FunctionFlags(l: bool, c: bool)
    ensures var b: Byte := (if l then 2 else 0) + (if c then 8 else 0); Has(b, 2) == l && Has(b, 8) == c && b < 0x20
  {
  }

  lemma DeltaAdds(prev: nat, offset: nat)
    requires prev < 0x1_0000 && offset < 0x1_0000
    ensures (prev + Delta(prev, offset)) % 0x1_0000 == offset
  {
  }

  lemma {:induction false} FunctionsRoundTrip(v: nat, fs: seq<Function>, prev: nat, flags: Byte, rest: seq<Byte>)
    requires fs != [] && prev < 0x1_0000 && FunctionsFit(v, fs, prev) && flags < 0x20 && !Has(flags, 1)
    ensures ReadFunctions(v, FunctionBytes(v, fs, prev, flags) + rest, prev) == Ok((fs, flags), rest)
    decreases |fs|
  {
    hide ReadNamed, NamedBytes, ReadOffset, OffsetBytes, NameFits, Delta;
    var f, last := fs[0], |fs| == 1;
    var next: seq<Byte> := if last then rest else FunctionBytes(v, fs[1..], f.offset, flags) + rest;
    var flag: Byte := if last then flags else 1;
    var o, n := OffsetBytes(v, Delta(prev, f.offset)), NamedBytes(f);
    assert FunctionBytes(v, fs, prev, flags) + rest == o + (n + ([flag] + next));
    OffsetRoundTrip(v, Delta(prev, f.offset), n + ([flag] + next));
    DeltaAdds(prev, f.offset);
    NamedRoundTrip(f, flag, next);
    assert Has(1, 1);
    if !last {
      FunctionsRoundTrip(v, fs[1..], f.offset, flags, rest);
      assert [f] + fs[1..] == fs;
    } else {
      assert [f] == fs;
    }
  }

  // ----- tail bytes and references -----

  lemma {:induction false} TailsRoundTrip(v: nat, ts: seq<TailByte>, rest: seq<Byte>)
    requires EachTailFits(v, ts)
    ensures ReadTails(v, TailBytes(v, ts) + rest, |ts|) == Ok(ts, rest)
    decreases |ts|
  {
    if ts == [] {
      assert TailBytes(v, ts) + rest == rest;
    } else {
      hide ReadOffset, OffsetBytes;
      var o, next := OffsetBytes(v, ts[0].offset), TailBytes(v, ts[1..]) + rest;
      assert TailBytes(v, ts) + rest == o + ([ts[0].value] + next);
      OffsetRoundTrip(v, ts[0].offset, [ts[0].value] + next);
      assert ([ts[0].value] + next)[1..] == next;
      TailsRoundTrip(v, ts[1..], rest);
      assert [ts[0]] + ts[1..] == ts;
    }
  }

  lemma CountRoundTrip(v: nat, n: nat, rest: seq<Byte>)
    requires n < 0x100 && (v < 8 ==> n == 1)
    ensures ReadCount(v, CountBytes(v, n) + rest) == Ok(n, rest)
  {
    assert CountBytes(v, n) + rest == if v < 8 then rest else [n] + rest;
    assert v >= 8 ==> ([n] + rest)[1..] == rest;
  }

  lemma NameLengthRoundTrip(n: nat, rest: seq<Byte>)
    requires n < NAME_MAX
    ensures ReadNameLength(NameLengthBytes(n) + rest) == Ok(n, rest)
  {
    hide ReadMulti, MultiBytes;
    if 1 <= n < 0x100 {
      assert ([n] + rest)[1..] == rest;
    } else {
      assert ([0] + MultiBytes(n)) + rest == [0] + (MultiBytes(n) + rest);
      assert ([0] + (MultiBytes(n) + rest))[1..] == MultiBytes(n) + rest;
      MultiRoundTrip(n, rest);
    }
  }

  lemma ReferenceRoundTrip(v: nat, x: Reference, rest: seq<Byte>)
    requires ReferenceFits(v, x)
    ensures ReadReference(v, ReferenceBytes(v, x) + rest) == Ok(x, rest)
  {
    hide ReadOffset, OffsetBytes, ReadNameLength, NameLengthBytes;
    var o, l := OffsetBytes(v, x.offset), NameLengthBytes(|x.name|);
    assert ReferenceBytes(v, x) + rest == o + (l + (x.name + rest));
    OffsetRoundTrip(v, x.offset, l + (x.name + rest));
    NameLengthRoundTrip(|x.name|, x.name + rest);
    assert (x.name + rest)[..|x.name|] == x.name && (x.name + rest)[|x.name|..] == rest;
  }

  lemma ReferencesStep(v: nat, bs: seq<Byte>, n: nat, x: Reference, bs1: seq<Byte>, xs: seq<Reference>, rest: seq<Byte>)
    requires n > 0 && ReadReference(v, bs) == Ok(x, bs1) && ReadReferences(v, bs1, n - 1) == Ok(xs, rest)
    ensures ReadReferences(v, bs, n) == Ok([x] + xs, rest)
  {
    hide ReadReference;
  }

  lemma {:induction false} ReferencesRoundTrip(v: nat, xs: seq<Reference>, rest: seq<Byte>)
    requires EachReferenceFits(v, xs)
    ensures ReadReferences(v, ReferencesBytes(v, xs) + rest, |xs|) == Ok(xs, rest)
    decreases |xs|
  {
    if xs == [] {
      assert ReferencesBytes(v, xs) + rest == rest;
    } else {
      hide ReadReference, ReadReferences, ReferenceBytes, ReferenceFits;
      var next := ReferencesBytes(v, xs[1..]) + rest;
      assert ReferencesBytes(v, xs) + rest == ReferenceBytes(v, xs[0]) + next;
      ReferenceRoundTrip(v, xs[0], next);
      ReferencesRoundTrip(v, xs[1..], rest);
      ReferencesStep(v, ReferenceBytes(v, xs[0]) + next, |xs|, xs[0], next, xs[1..], rest);
      assert [xs[0]] + xs[1..] == xs;
    }
  }

  lemma TailPartRoundTrip(v: nat, ts: seq<TailByte>, flags: Byte, rest: seq<Byte>)
    requires TailsFit(v, ts) && Has(flags, 2) == (ts != [])
    ensures ReadTailPart(v, TailPart(v, ts) + rest, flags) == Ok(ts, rest)
  {
    hide Has, ReadCount, CountBytes;
    if ts == [] {
      assert TailPart(v, ts) + rest == rest;
    } else {
      CountRoundTrip(v, |ts|, TailBytes(v, ts) + rest);
      TailsRoundTrip(v, ts, rest);
      assert TailPart(v, ts) + rest == CountBytes(v, |ts|) + (TailBytes(v, ts) + rest);
    }
  }

  lemma ReferencePartRoundTrip(v: nat, xs: seq<Reference>, flags: Byte, rest: seq<Byte>)
    requires ReferencesFit(v, xs) && Has(flags, 4) == (xs != [])
    ensures ReadReferencePart(v, ReferencePart(v, xs) + rest, flags) == Ok(xs, rest)
  {
    hide Has, ReadCount, CountBytes, EachReferenceFits, ReadReferences, ReferencesBytes;
    if xs == [] {
      assert ReferencePart(v, xs) + rest == rest;
    } else {
      CountRoundTrip(v, |xs|, ReferencesBytes(v, xs) + rest);
      ReferencesRoundTrip(v, xs, rest);
      assert ReferencePart(v, xs) + rest == CountBytes(v, |xs|) + (ReferencesBytes(v, xs) + rest);
    }
  }

  // ----- leaves -----

  lemma FlagBits(m: Module, more: Byte)
    requires more == 0 || more == 8 || more == 16
    ensures var f := ModuleFlags(m, more);
            && f < 0x20 && !Has(f, 1) && Has(f, 2) == (m.tails != []) && Has(f, 4) == (m.references != [])
            && Has(f, 8) == (more == 8) && Has(f, 16) == (more == 16)
  {
  }

  lemma ModuleRoundTrip(v: nat, m: Module, more: Byte, rest: seq<Byte>)
    requires ModuleFits(v, m) && (more == 0 || more == 8 || more == 16)
    ensures ReadModule(v, ModuleBytes(v, m, more) + rest, m.crcLength, m.crc) == Ok((m, ModuleFlags(m, more)), rest)
  {
    hide ReadOffset, OffsetBytes, ReadFunctions, FunctionBytes, ReadTailPart, TailPart, ReadReferencePart, ReferencePart, ModuleFlags, Has;
    hide FunctionsFit, TailsFit, ReferencesFit;
    var flags := ModuleFlags(m, more);
    FlagBits(m, more);
    var o, f, t, x := OffsetBytes(v, m.length), FunctionBytes(v, m.functions, 0, flags), TailPart(v, m.tails), ReferencePart(v, m.references);
    assert ModuleBytes(v, m, more) + rest == o + (f + (t + (x + rest)));
    OffsetRoundTrip(v, m.length, f + (t + (x + rest)));
    FunctionsRoundTrip(v, m.functions, 0, flags, t + (x + rest));
    TailPartRoundTrip(v, m.tails, flags, x + rest);
    ReferencePartRoundTrip(v, m.references, flags, rest);
  }

  lemma RestFits(v: nat, ms: seq<Module>)
    requires ModulesFit(v, ms) && |ms| > 1
    ensures ModulesFit(v, ms[1..])
  {
    hide ModuleFits;
    assert forall m :: m in ms[1..] ==> m in ms;
  }

  lemma {:induction false} ModulesRoundTrip(v: nat, ms: seq<Module>, rest: seq<Byte>)
    requires ModulesFit(v, ms)
    ensures ReadModules(v, ModulesBytes(v, ms) + rest, ms[0].crcLength, ms[0].crc) == Ok(ms, rest)
    decreases |ms|, 0
  {
    hide ReadModule, ModuleBytes, ModuleFlags, Has, ReadLeaf, LeafBytes, ModuleFits;
    assert ms[0] in ms;
    var m := ms[0];
    if |ms| == 1 {
      ModuleRoundTrip(v, m, 0, rest);
      FlagBits(m, 0);
      assert [m] == ms;
    } else {
      assert [m] + ms[1..] == ms && ms[1] in ms;
      RestFits(v, ms);
      var more: Byte := if SameCrc(m, ms[1]) then 8 else 16;
      var next := if SameCrc(m, ms[1]) then ModulesBytes(v, ms[1..]) else LeafBytes(v, ms[1..]);
      FlagBits(m, more);
      ModuleRoundTrip(v, m, more, next + rest);
      assert ModulesBytes(v, ms) + rest == ModuleBytes(v, m, more) + (next + rest);
      if SameCrc(m, ms[1]) {
        ModulesRoundTrip(v, ms[1..], rest);
      } else {
        LeafRoundTrip(v, ms[1..], rest);
      }
    }
  }

  lemma {:induction false} LeafRoundTrip(v: nat, ms: seq<Module>, rest: seq<Byte>)
    requires ModulesFit(v, ms)
    ensures ReadLeaf(v, LeafBytes(v, ms) + rest) == Ok(ms, rest)
    decreases |ms|, 1
  {
    hide ReadModules, ModulesBytes;
    assert ms[0] in ms;
    var bs := LeafBytes(v, ms) + rest;
    assert bs[3..] == ModulesBytes(v, ms) + rest;
    ModulesRoundTrip(v, ms, rest);
  }

  // ----- nodes -----

  lemma MaskRoundTrip(p: Pattern, rest: seq<Byte>)
    requires PatternFits(p) && |p| < 0x100
    ensures ReadMask(|p|, MaskBytes(p) + rest) == Ok(if |p| <= 0x40 then MaskOf(p) else 0, rest)
  {
    hide ReadMulti, MultiBytes, ReadMax2, Max2Bytes, MaskOf, Pow2;
    MaskBelow(p);
    if |p| < 0x10 {
      Max2RoundTrip(MaskOf(p), rest);
    } else if |p| <= 0x20 {
      MultiRoundTrip(MaskOf(p), rest);
    } else if |p| <= 0x40 {
      WideMaskRoundTrip(|p|, MaskOf(p), rest);
    } else {
      assert MaskBytes(p) + rest == rest;
    }
  }

  lemma WideMaskRoundTrip(length: Byte, m: nat, rest: seq<Byte>)
    requires 0x20 < length <= 0x40 && m / 0x1_0000_0000 < 0x1_0000_0000
    ensures ReadMask(length, (MultiBytes(m / 0x1_0000_0000) + MultiBytes(m % 0x1_0000_0000)) + rest) == Ok(m, rest)
  {
    hide ReadMulti, MultiBytes;
    var hi, lo := m / 0x1_0000_0000, m % 0x1_0000_0000;
    assert (MultiBytes(hi) + MultiBytes(lo)) + rest == MultiBytes(hi) + (MultiBytes(lo) + rest);
    MultiRoundTrip(hi, MultiBytes(lo) + rest);
    MultiRoundTrip(lo, rest);
    TwoHalves(m);
  }

  lemma TwoHalves(m: nat)
    ensures m / 0x1_0000_0000 * 0x1_0000_0000 + m % 0x1_0000_0000 == m
  {
  }

  /** The mask's lower bits are those of the rest of the pattern. */
  predicate MaskAgrees(mask: nat, p: Pattern)
  {
    mask % Pow2(|p|) == MaskOf(p)
  }

  lemma MaskSplits(mask: nat, p: Pattern)
    requires p != [] && MaskAgrees(mask, p)
    ensures mask / Pow2(|p| - 1) % 2 == (if p[0].None? then 1 else 0)
    ensures MaskAgrees(mask, p[1..])
  {
    BitAbove(mask, Pow2(|p| - 1));
  }

  lemma {:induction false} PatternRoundTrip(mask: nat, p: Pattern, rest: seq<Byte>)
    requires MaskAgrees(mask, p)
    ensures ReadPattern(mask, |p|, Fixed(p) + rest) == Ok(p, rest)
    decreases |p|
  {
    if p == [] {
      assert Fixed(p) + rest == rest;
    } else {
      hide MaskOf, MaskAgrees;
      MaskSplits(mask, p);
      PatternRoundTrip(mask, p[1..], rest);
      assert [p[0]] + p[1..] == p;
      if p[0].Some? {
        assert (Fixed(p) + rest)[1..] == Fixed(p[1..]) + rest;
      }
    }
  }

  lemma {:induction false} NoWildcards(p: Pattern)
    requires forall x :: x in p ==> x.Some?
    ensures MaskOf(p) == 0
  {
    if p != [] {
      assert p[0] in p;
      NoWildcards(p[1..]);
    }
  }

  lemma HeaderRoundTrip(p: Pattern, rest: seq<Byte>)
    requires PatternFits(p)
    ensures ReadHeader(HeaderBytes(p) + rest) == Ok(p, rest)
  {
    hide ReadMask, MaskBytes, ReadPattern, MaskOf, Fixed, Pow2;
    var bs := HeaderBytes(p) + rest;
    assert bs[1..] == MaskBytes(p) + (Fixed(p) + rest);
    MaskRoundTrip(p, Fixed(p) + rest);
    var mask := if |p| <= 0x40 then MaskOf(p) else 0;
    if |p| > 0x40 {
      NoWildcards(p);
    }
    WholeMask(p);
    PatternRoundTrip(mask, p, rest);
  }

  lemma WholeMask(p: Pattern)
    ensures MaskAgrees(MaskOf(p), p)
  {
    ModuloUnique(MaskOf(p), Pow2(|p|), 0, MaskOf(p));
  }

  /** The parser inverts the documented format on every tree that the format can hold. */
  lemma {:induction false} TreeRoundTrip(v: nat, t: Tree, rest: seq<Byte>)
    requires TreeFits(v, t)
    ensures ReadTree(v, TreeBytes(v, t) + rest) == Ok(t, rest)
    decreases t
  {
    hide ReadMulti, MultiBytes, ReadLeaf, LeafBytes, ReadNodes, NodesBytes, ModulesFit;
    match t
    case Leaf(ms) =>
      assert TreeBytes(v, t) + rest == [0] + (LeafBytes(v, ms) + rest);
      assert MultiBytes(0) == [0] by {
        ZeroIsOneByte();
      }
      MultiRoundTrip(0, LeafBytes(v, ms) + rest);
      LeafRoundTrip(v, ms, rest);
    case Branch(ns) =>
      assert TreeBytes(v, t) + rest == MultiBytes(|ns|) + (NodesBytes(v, ns) + rest);
      MultiRoundTrip(|ns|, NodesBytes(v, ns) + rest);
      NodesRoundTrip(v, ns, rest);
  }

  lemma ZeroIsOneByte()
    ensures MultiBytes(0) == [0]
  {
  }

  lemma {:induction false} NodesRoundTrip(v: nat, ns: seq<Node>, rest: seq<Byte>)
    requires NodesFit(v, ns)
    ensures ReadNodes(v, NodesBytes(v, ns) + rest, |ns|) == Ok(ns, rest)
    decreases ns
  {
    if ns == [] {
      assert NodesBytes(v, ns) + rest == rest;
    } else {
      hide ReadHeader, HeaderBytes, ReadTree, TreeBytes, PatternFits;
      var n, next := ns[0], NodesBytes(v, ns[1..]) + rest;
      assert NodesBytes(v, ns) + rest == HeaderBytes(n.pattern) + (TreeBytes(v, n.tree) + next);
      HeaderRoundTrip(n.pattern, TreeBytes(v, n.tree) + next);
      TreeRoundTrip(v, n.tree, next);
      NodesRoundTrip(v, ns[1..], rest);
      assert [Node(n.pattern, n.tree)] + ns[1..] == ns;
    }
  }

  // ----- a tree and its bytes -----

  function SampleModule(): Module
  {
    Module(1, 0x78f0, 0x40, [Function([0x61], 0x10, false, false), Function([0x62, 0x63], 0x210, true, false)],
           [TailByte(3, 0xc3)], [Reference([0x64], 0x4105)])
  }

  lemma SampleFits()
    ensures ModuleFits(10, SampleModule()) && FunctionsFit(10, SampleModule().functions, 0)
  {
    var fs := SampleModule().functions;
    assert fs[1..][1..] == [] && fs[1..][0] == fs[1];
  }

  /** Offsets of functions count from the one before; a flags byte precedes the name of a
      local one, and separates functions from the rest. */
  lemma SampleFunctions()
    requires FunctionsFit(10, SampleModule().functions, 0)
    ensures FunctionBytes(10, SampleModule().functions, 0, 6) == [0x10, 0x61, 1, 0x82, 0, 2, 0x62, 0x63, 6]
  {
    var fs := SampleModule().functions;
    assert fs[1..] == [fs[1]];
    assert FunctionBytes(10, fs[1..], 0x10, 6) == [0x82, 0] + ([2] + [0x62, 0x63] + [6]);
  }

  lemma SampleModuleBytes()
    requires ModuleFits(10, SampleModule())
    ensures ModuleBytes(10, SampleModule(), 0)
         == [0x40, 0x10, 0x61, 1, 0x82, 0, 2, 0x62, 0x63, 6, 1, 3, 0xc3, 1, 0xc0, 0, 0x41, 5, 1, 0x64]
  {
    var m := SampleModule();
    SampleFunctions();
    assert m.tails[1..] == [] && m.references[1..] == [];
    assert TailPart(10, m.tails) == [1, 3, 0xc3];
    assert ReferenceBytes(10, m.references[0]) == [0xc0, 0, 0x41, 5] + ([1] + [0x64]);
    assert ReferencePart(10, m.references) == [1, 0xc0, 0, 0x41, 5, 1, 0x64];
  }

  lemma SampleHeader(p: Pattern)
    requires p == [Some(0x55), None]
    ensures PatternFits(p) && HeaderBytes(p) == [2, 1, 0x55]
  {
    assert p[1..] == [p[1]] && p[1..][1..] == [];
    assert Fixed(p[1..][1..]) == [] && Fixed(p[1..]) == [] && Pow2(0) == 1 && MaskOf(p[1..][1..]) == 0;
    assert MaskOf(p[1..]) == 1;
    assert MaskOf(p) == 1 && Fixed(p) == [0x55] + [];
    assert HeaderBytes(p) == [2] + ([1] + [0x55]);
  }

  lemma SampleLeaf()
    ensures ModulesFit(10, [SampleModule()])
    ensures TreeBytes(10, Leaf([SampleModule()])) == [0, 1, 0x78, 0xf0] + ModuleBytes(10, SampleModule(), 0)
  {
    hide ModuleBytes, ModuleFits;
    SampleFits();
    assert LeafBytes(10, [SampleModule()]) == [1] + [0x78, 0xf0] + ModuleBytes(10, SampleModule(), 0);
  }

  lemma OneNodeBytes(n: Node)
    requires PatternFits(n.pattern) && TreeFits(10, n.tree)
    ensures TreeFits(10, Branch([n])) && TreeBytes(10, Branch([n])) == [1] + HeaderBytes(n.pattern) + TreeBytes(10, n.tree)
  {
    hide HeaderBytes, PatternFits;
    assert [n][1..] == [];
    assert NodesFit(10, [n]);
    assert NodesBytes(10, [n]) == HeaderBytes(n.pattern) + (TreeBytes(10, n.tree) + []);
  }

  lemma SampleBytes(bs: seq<Byte>)
    requires bs == [0x40, 0x10, 0x61, 1, 0x82, 0, 2, 0x62, 0x63, 6, 1, 3, 0xc3, 1, 0xc0, 0, 0x41, 5, 1, 0x64]
    ensures [1] + [2, 1, 0x55] + ([0, 1, 0x78, 0xf0] + bs)
         == [1, 2, 1, 0x55, 0, 1, 0x78, 0xf0, 0x40, 0x10, 0x61, 1, 0x82, 0, 2, 0x62, 0x63, 6, 1, 3, 0xc3, 1, 0xc0, 0, 0x41, 5, 1, 0x64]
  {
  }

  /** A signature of one node with one module, and its bytes. */
  lemma SampleTree(rest: seq<Byte>)
    ensures ReadTree(10, [1, 2, 1, 0x55, 0, 1, 0x78, 0xf0, 0x40, 0x10, 0x61, 1, 0x82, 0, 2, 0x62, 0x63, 6, 1, 3, 0xc3, 1, 0xc0, 0, 0x41, 5,
                          1, 0x64] + rest)
         == Ok(Branch([Node([Some(0x55), None], Leaf([SampleModule()]))]), rest)
  {
    hide TreeBytes, HeaderBytes, ModuleBytes, ReadTree, PatternFits, ModulesFit;
    var n := Node([Some(0x55), None], Leaf([SampleModule()]));
    SampleHeader(n.pattern);
    SampleFits();
    SampleLeaf();
    SampleModuleBytes();
    OneNodeBytes(n);
    SampleBytes(ModuleBytes(10, SampleModule(), 0));
    TreeRoundTrip(10, Branch([n]), rest);
  }
}
