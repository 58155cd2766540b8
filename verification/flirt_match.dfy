/** Matching a buffer against a signature tree, and against the list of its paths. */
module FlirtMatch {
  import opened Words
  import opened Wrappers
  import opened FlirtFormat

  // ----- checksum -----

  const POLY: nat := 0x8408

  lemma XorIn16Bits(x: nat, y: nat)
    requires x < 0x1_0000 && y < 0x1_0000
    ensures Xor(x, y) < 0x1_0000
  {
    Pow2Is64();
    OrXorBelow(x, y, 16);
  }

  function CrcBit(crc: nat, data: nat): (r: nat)
    requires crc < 0x1_0000
    ensures r < 0x1_0000
  {
    XorIn16Bits(crc / 2, POLY);
    if crc % 2 != data % 2 then Xor(crc / 2, POLY) else crc / 2
  }

  function CrcBits(crc: nat, data: nat, n: nat): (r: nat)
    requires crc < 0x1_0000
    ensures r < 0x1_0000
    decreases n
  {
    if n == 0 then crc else CrcBits(CrcBit(crc, data), data / 2, n - 1)
  }

  function CrcBytes(crc: nat, bs: seq<Byte>): (r: nat)
    requires crc < 0x1_0000
    ensures r < 0x1_0000
    decreases |bs|
  {
    if bs == [] then crc else CrcBytes(CrcBits(crc, bs[0], 8), bs[1..])
  }

  /** Complemented, with its two bytes exchanged. */
  function Crc16(bs: seq<Byte>): nat
  {
    if bs == [] then 0
    else
      var c := 0xffff - CrcBytes(0xffff, bs);
      c % 0x100 * 0x100 + c / 0x100
  }

  // ----- what the checksum is -----

  /** The coefficient of x^i of a polynomial over two elements, highest power first. */
  function Coef(p: seq<bool>, i: int): bool
  {
    0 <= i < |p| && p[|p| - 1 - i]
  }

  /** The message's polynomial times x^16, plus ones for the register's first value. */
  function Dividend(ms: seq<bool>, i: int): bool
  {
    Coef(ms, i - 16) != (|ms| <= i < |ms| + 16)
  }

  /** The product with x^16 + x^12 + x^5 + 1. */
  function Product(q: seq<bool>, i: int): bool
  {
    ((Coef(q, i - 16) != Coef(q, i - 12)) != Coef(q, i - 5)) != Coef(q, i)
  }

  /** A register holds the coefficient of x^15 in its lowest bit. */
  function Register(r: nat, i: int): bool
  {
    0 <= i < 16 && BitAt(r, 15 - i)
  }

  /** Dividing by that polynomial gives q and leaves the register. */
  ghost predicate Leaves(ms: seq<bool>, q: seq<bool>, r: nat)
  {
    |q| == |ms| && forall i: nat :: LeavesAt(ms, q, r, i)
  }

  predicate LeavesAt(ms: seq<bool>, q: seq<bool>, r: nat, i: nat)
  {
    Dividend(ms, i) == (Product(q, i) != Register(r, i))
  }

  /** The bits of a byte, lowest first. */
  function ByteBits(data: nat, n: nat): (r: seq<bool>)
    ensures |r| == n
    decreases n
  {
    if n == 0 then [] else [data % 2 == 1] + ByteBits(data / 2, n - 1)
  }

  function MessageBits(bs: seq<Byte>): seq<bool>
  {
    if bs == [] then [] else ByteBits(bs[0], 8) + MessageBits(bs[1..])
  }

  /** The register after shifting in some bits. */
  function Shifted(crc: nat, ms: seq<bool>): (r: nat)
    requires crc < 0x1_0000
    ensures r < 0x1_0000
    decreases |ms|
  {
    if ms == [] then crc else Shifted(CrcBit(crc, if ms[0] then 1 else 0), ms[1..])
  }

  lemma {:induction false} ShiftedJoined(crc: nat, xs: seq<bool>, ys: seq<bool>)
    requires crc < 0x1_0000
    ensures Shifted(crc, xs + ys) == Shifted(Shifted(crc, xs), ys)
    decreases |xs|
  {
    if xs == [] {
      assert xs + ys == ys;
    } else {
      assert (xs + ys)[1..] == xs[1..] + ys;
      ShiftedJoined(CrcBit(crc, if xs[0] then 1 else 0), xs[1..], ys);
    }
  }

  lemma {:induction false} BitsAreShifted(crc: nat, data: nat, n: nat)
    requires crc < 0x1_0000
    ensures CrcBits(crc, data, n) == Shifted(crc, ByteBits(data, n))
    decreases n
  {
    if n > 0 {
      var bs := ByteBits(data, n);
      assert bs[1..] == ByteBits(data / 2, n - 1);
      assert CrcBit(crc, data) == CrcBit(crc, if bs[0] then 1 else 0);
      BitsAreShifted(CrcBit(crc, data), data / 2, n - 1);
    }
  }

  lemma {:induction false} BytesAreShifted(crc: nat, bs: seq<Byte>)
    requires crc < 0x1_0000
    ensures CrcBytes(crc, bs) == Shifted(crc, MessageBits(bs))
    decreases |bs|
  {
    if bs != [] {
      BitsAreShifted(crc, bs[0], 8);
      BytesAreShifted(CrcBits(crc, bs[0], 8), bs[1..]);
      ShiftedJoined(crc, ByteBits(bs[0], 8), MessageBits(bs[1..]));
    }
  }

  /** The i-th digit in base two, by halving. */
  function Digit(x: nat, i: nat): bool
  {
    if i == 0 then x % 2 == 1 else Digit(x / 2, i - 1)
  }

  lemma {:induction false} BitIsDigit(x: nat, i: nat)
    ensures BitAt(x, i) == Digit(x, i)
    decreases i
  {
    BitOfHalf(x, i);
    if i > 0 {
      BitIsDigit(x / 2, i - 1);
    }
  }

  lemma {:induction false} NoBitsAbove(x: nat, n: nat, i: nat)
    requires x < Pow2(n) && n <= i
    ensures !BitAt(x, i)
    decreases i
  {
    BitOfHalf(x, i);
    if n > 0 {
      NoBitsAbove(x / 2, n - 1, i - 1);
    } else {
      NoBits(i);
    }
  }

  lemma PolyBits(j: nat)
    ensures BitAt(POLY, j) <==> j == 3 || j == 10 || j == 15
  {
    BitIsDigit(0x8408, j);
    if j >= 16 {
      Pow2Is64();
      NoBitsAbove(0x8408, 16, j);
    } else {
      assert !Digit(0x8408, 0) && !Digit(0x8408, 1) && !Digit(0x8408, 2) && Digit(0x8408, 3);
      assert !Digit(0x8408, 4) && !Digit(0x8408, 5) && !Digit(0x8408, 6) && !Digit(0x8408, 7);
      if j >= 8 {
        EightDown(0x8408, j);
        assert !Digit(0x84, 0) && !Digit(0x84, 1) && Digit(0x84, 2) && !Digit(0x84, 3);
        assert !Digit(0x84, 4) && !Digit(0x84, 5) && !Digit(0x84, 6) && Digit(0x84, 7);
      }
    }
  }

  lemma EightDown(x: nat, j: nat)
    requires j >= 8
    ensures Digit(x, j) == Digit(x / 0x100, j - 8)
  {
    assert Digit(x, j) == Digit(x / 2 / 2, j - 2) == Digit(x / 4 / 2 / 2, j - 4);
    assert Digit(x / 16, j - 4) == Digit(x / 16 / 2 / 2, j - 6) == Digit(x / 64 / 2 / 2, j - 8);
  }

  lemma {:induction false} BitOfOnes(n: nat, j: nat)
    requires j < n
    ensures BitAt(Pow2(n) - 1, j)
    decreases j
  {
    hide BitAt;
    var h := Pow2(n - 1);
    assert (2 * h - 1) / 2 == h - 1 && (2 * h - 1) % 2 == 1;
    BitOfHalf(2 * h - 1, j);
    if j > 0 {
      BitOfOnes(n - 1, j - 1);
    }
  }

  /** Shifting in a bit moves the register along and, when a one comes out, changes three
      of its bits. */
  lemma BitShiftedIn(crc: nat, b: bool, j: nat)
    requires crc < 0x1_0000
    ensures var t := (crc % 2 == 1) != b;
            BitAt(CrcBit(crc, if b then 1 else 0), j) <==> (BitAt(crc, j + 1) != (t && (j == 3 || j == 10 || j == 15)))
  {
    BitOfHalf(crc, j + 1);
    BitOfXor(crc / 2, POLY, j);
    PolyBits(j);
  }

  lemma CoefOfMore(p: seq<bool>, b: bool, i: int)
    ensures Coef(p + [b], i) == if i == 0 then b else Coef(p, i - 1)
  {
  }

  lemma ProductOfMore(q: seq<bool>, t: bool, i: nat)
    ensures Product(q + [t], i) == ((i > 0 && Product(q, i - 1)) != (t && (i == 16 || i == 12 || i == 5 || i == 0)))
  {
    CoefOfMore(q, t, i);
    CoefOfMore(q, t, i - 5);
    CoefOfMore(q, t, i - 12);
    CoefOfMore(q, t, i - 16);
  }

  lemma RegisterOfMore(r: nat, b: bool, i: nat)
    requires r < 0x1_0000
    ensures var t := (r % 2 == 1) != b;
            Register(CrcBit(r, if b then 1 else 0), i)
            == (i < 16 && ((i > 0 && Register(r, i - 1)) != (t && (i == 12 || i == 5 || i == 0))))
  {
    if i < 16 {
      BitShiftedIn(r, b, 15 - i);
      Pow2Is64();
      NoBitsAbove(r, 16, 16);
    }
  }

  lemma DivisionStepAt(ms: seq<bool>, q: seq<bool>, r: nat, b: bool, i: nat)
    requires r < 0x1_0000 && Leaves(ms, q, r)
    ensures LeavesAt(ms + [b], q + [(r % 2 == 1) != b], CrcBit(r, if b then 1 else 0), i)
  {
    var t := (r % 2 == 1) != b;
    CoefOfMore(ms, b, i - 16);
    ProductOfMore(q, t, i);
    RegisterOfMore(r, b, i);
    BitOfHalf(r, 0);
    if i > 0 {
      assert LeavesAt(ms, q, r, i - 1);
    }
  }

  /** One more bit. */
  lemma DivisionStep(ms: seq<bool>, q: seq<bool>, r: nat, b: bool)
    requires r < 0x1_0000 && Leaves(ms, q, r)
    ensures Leaves(ms + [b], q + [(r % 2 == 1) != b], CrcBit(r, if b then 1 else 0))
  {
    hide LeavesAt;
    var more, p, x := ms + [b], q + [(r % 2 == 1) != b], CrcBit(r, if b then 1 else 0);
    forall i: nat
      ensures LeavesAt(more, p, x, i)
    {
      DivisionStepAt(ms, q, r, b, i);
    }
  }

  lemma {:induction false} ShiftingDivides(ms: seq<bool>, q: seq<bool>, r: nat, rest: seq<bool>) returns (p: seq<bool>)
    requires r < 0x1_0000 && Leaves(ms, q, r)
    ensures Leaves(ms + rest, p, Shifted(r, rest))
    decreases |rest|
  {
    hide Leaves;
    if rest == [] {
      assert ms + rest == ms;
      p := q;
    } else {
      DivisionStep(ms, q, r, rest[0]);
      assert ms + [rest[0]] + rest[1..] == ms + rest;
      p := ShiftingDivides(ms + [rest[0]], q + [(r % 2 == 1) != rest[0]], CrcBit(r, if rest[0] then 1 else 0), rest[1..]);
    }
  }

  lemma NothingShifted()
    ensures Leaves([], [], 0xffff)
  {
    forall i: nat
      ensures LeavesAt([], [], 0xffff, i)
    {
      Pow2Is64();
      if i < 16 {
        BitOfOnes(16, 15 - i);
      }
    }
  }

  // ----- there is only one remainder -----

  lemma {:induction false} QuotientsAgree(ms: seq<bool>, p: seq<bool>, x: nat, q: seq<bool>, y: nat, k: nat)
    requires Leaves(ms, p, x) && Leaves(ms, q, y) && k <= |ms|
    ensures forall j: int :: j >= k ==> Coef(p, j) == Coef(q, j)
    decreases |ms| - k
  {
    if k < |ms| {
      QuotientsAgree(ms, p, x, q, y, k + 1);
      assert LeavesAt(ms, p, x, k + 16) && LeavesAt(ms, q, y, k + 16);
      assert Coef(p, k) == Coef(q, k);
    }
  }

  lemma OneRemainder(ms: seq<bool>, p: seq<bool>, x: nat, q: seq<bool>, y: nat)
    requires Leaves(ms, p, x) && Leaves(ms, q, y) && x < 0x1_0000 && y < 0x1_0000
    ensures x == y
  {
    QuotientsAgree(ms, p, x, q, y, 0);
    Pow2Is64();
    forall j: nat
      ensures BitAt(x, j) == BitAt(y, j)
    {
      if j < 16 {
        SameRegister(ms, p, x, q, y, 15 - j);
      } else {
        NoBitsAbove(x, 16, j);
        NoBitsAbove(y, 16, j);
      }
    }
    SameBitsSame(x, y);
  }

  lemma SameRegister(ms: seq<bool>, p: seq<bool>, x: nat, q: seq<bool>, y: nat, i: nat)
    requires Leaves(ms, p, x) && Leaves(ms, q, y) && i < 16
    requires forall j: int :: j >= 0 ==> Coef(p, j) == Coef(q, j)
    ensures BitAt(x, 15 - i) == BitAt(y, 15 - i)
  {
    assert LeavesAt(ms, p, x, i) && LeavesAt(ms, q, y, i);
    assert Product(p, i) == Product(q, i);
  }

  /** The checksum of some bytes: their bits, lowest first, as a polynomial times x^16 plus
      that of the register's first value, leave a remainder by x^16 + x^12 + x^5 + 1, and
      there is only one; it is complemented, and its bytes are exchanged. */
  lemma ChecksumIsRemainder(bs: seq<Byte>, r: nat)
    requires bs != [] && r < 0x1_0000
    ensures (exists q: seq<bool> :: Leaves(MessageBits(bs), q, r))
       <==> exists high: Byte, low: Byte :: Exchanged(r, high, low, Crc16(bs))
  {
    hide Leaves, Exchanged, Crc16;
    var x, ms := CrcBytes(0xffff, bs), MessageBits(bs);
    var p := BytesDivide(bs);
    var h, l := BytesExchanged(bs);
    if q: seq<bool> :| Leaves(ms, q, r) {
      OneRemainder(ms, p, x, q, r);
    }
    if high: Byte, low: Byte :| Exchanged(r, high, low, Crc16(bs)) {
      ExchangedOnce(r, high, low, x, h, l, Crc16(bs));
    }
  }

  lemma BytesDivide(bs: seq<Byte>) returns (q: seq<bool>)
    ensures Leaves(MessageBits(bs), q, CrcBytes(0xffff, bs))
  {
    hide Leaves;
    BytesAreShifted(0xffff, bs);
    NothingShifted();
    assert [] + MessageBits(bs) == MessageBits(bs);
    q := ShiftingDivides([], [], 0xffff, MessageBits(bs));
  }

  lemma BytesExchanged(bs: seq<Byte>) returns (high: Byte, low: Byte)
    requires bs != []
    ensures Exchanged(CrcBytes(0xffff, bs), high, low, Crc16(bs))
  {
    var c := 0xffff - CrcBytes(0xffff, bs);
    high, low := c / 0x100, c % 0x100;
  }

  predicate Exchanged(r: nat, high: Byte, low: Byte, crc: nat)
  {
    r + high * 0x100 + low == 0xffff && crc == low * 0x100 + high
  }

  lemma ExchangedOnce(r: nat, high: Byte, low: Byte, x: nat, h: Byte, l: Byte, crc: nat)
    requires Exchanged(r, high, low, crc) && Exchanged(x, h, l, crc)
    ensures r == x
  {
  }

  lemma RegisterOfZero(j: nat)
    ensures BitAt(0x0f87, j) <==> j < 3 || 7 <= j < 12
  {
    BitIsDigit(0x0f87, j);
    if j >= 16 {
      Pow2Is64();
      NoBitsAbove(0x0f87, 16, j);
    } else if j >= 8 {
      EightDown(0x0f87, j);
      assert Digit(0x0f, 0) && Digit(0x0f, 1) && Digit(0x0f, 2) && Digit(0x0f, 3);
      assert !Digit(0x0f, 4) && !Digit(0x0f, 5) && !Digit(0x0f, 6) && !Digit(0x0f, 7);
    } else {
      assert Digit(0x0f87, 0) && Digit(0x0f87, 1) && Digit(0x0f87, 2) && !Digit(0x0f87, 3);
      assert !Digit(0x0f87, 4) && !Digit(0x0f87, 5) && !Digit(0x0f87, 6) && Digit(0x0f87, 7);
    }
  }

  lemma ZeroLeaves(ms: seq<bool>, q: seq<bool>, i: nat)
    requires ms == [false, false, false, false, false, false, false, false]
    requires q == [true, true, true, true, false, false, false, false]
    ensures LeavesAt(ms, q, 0x0f87, i)
  {
    hide BitAt;
    if i < 16 {
      RegisterOfZero(15 - i);
    }
    assert Register(0x0f87, i) <==> i < 16 && (12 < i || 3 < i <= 8);
  }

  lemma BitsOfZero()
    ensures MessageBits([0]) == [false, false, false, false, false, false, false, false]
  {
    assert ByteBits(0, 2) == [false, false];
    assert ByteBits(0, 4) == [false, false, false, false];
    assert ByteBits(0, 6) == [false, false, false, false, false, false];
    assert [0][1..] == [];
  }

  /** The checksum of a zero byte. */
  lemma ChecksumOfZero()
    ensures Crc16([0]) == 0x78f0
  {
    hide LeavesAt, Crc16;
    var ms := [false, false, false, false, false, false, false, false];
    var q := [true, true, true, true, false, false, false, false];
    BitsOfZero();
    forall i: nat
      ensures LeavesAt(ms, q, 0x0f87, i)
    {
      ZeroLeaves(ms, q, i);
    }
    assert Leaves(ms, q, 0x0f87);
    ChecksumIsRemainder([0], 0x0f87);
  }

  // ----- modules -----

  /** Bytes beyond the buffer are not compared. */
  predicate TailMatches(t: TailByte, crcLength: nat, buf: seq<Byte>)
  {
    var i := 32 + crcLength + t.offset;
    i < |buf| ==> buf[i] == t.value
  }

  predicate ModuleMatches(m: Module, buf: seq<Byte>)
  {
    && (32 + m.crcLength as nat < |buf| ==> m.crc == Crc16(buf[32..32 + m.crcLength as nat]))
    && (forall i :: 0 <= i < |m.tails| ==> TailMatches(m.tails[i], m.crcLength, buf))
  }

  /** A module whose checksum is taken of one zero byte, with one byte four places on. */
  lemma ZeroByteMatches(m: Module, buf: seq<Byte>)
    requires m.crcLength == 1 && |m.tails| == 1 && m.tails[0].offset == 3 && |buf| > 36 && buf[32] == 0
    ensures ModuleMatches(m, buf) <==> m.crc == 0x78f0 && buf[36] == m.tails[0].value
  {
    hide Crc16;
    assert buf[32..33] == [0];
    ChecksumOfZero();
    if ModuleMatches(m, buf) {
      assert TailMatches(m.tails[0], 1, buf);
    }
  }

  function FirstModule(ms: seq<Module>, buf: seq<Byte>): Option<Module>
  {
    if ms == [] then None
    else if ModuleMatches(ms[0], buf) then Some(ms[0]) else FirstModule(ms[1..], buf)
  }

  // ----- the tree search -----

  predicate PatternMatches(p: Pattern, buf: seq<Byte>, at: nat)
    requires at + |p| <= |buf|
  {
    forall i :: 0 <= i < |p| ==> p[i].None? || p[i].value == buf[at + i]
  }

  /** Every path from position `at` on ends within a buffer of n bytes. */
  predicate TreeWithin(t: Tree, at: nat, n: nat)
    decreases t
  {
    match t
    case Leaf(_) => at <= n
    case Branch(ns) => at <= n && NodesWithin(ns, at, n)
  }

  predicate NodesWithin(ns: seq<Node>, at: nat, n: nat)
    decreases ns
  {
    ns == [] ||
    (at + |ns[0].pattern| <= n && TreeWithin(ns[0].tree, at + |ns[0].pattern|, n) && NodesWithin(ns[1..], at, n))
  }

  /** The module that the depth-first search applies. */
  function MatchTree(t: Tree, buf: seq<Byte>, at: nat): Option<Module>
    requires TreeWithin(t, at, |buf|)
    decreases t
  {
    match t
    case Leaf(ms) => FirstModule(ms, buf)
    case Branch(ns) => MatchNodes(ns, buf, at)
  }

  function MatchNodes(ns: seq<Node>, buf: seq<Byte>, at: nat): Option<Module>
    requires NodesWithin(ns, at, |buf|)
    decreases ns
  {
    if ns == [] then None
    else
      var found := if PatternMatches(ns[0].pattern, buf, at) then MatchTree(ns[0].tree, buf, at + |ns[0].pattern|) else None;
      if found.Some? then found else MatchNodes(ns[1..], buf, at)
  }

  // ----- the list of paths -----

  /** A whole path through the tree, and a module at its end. */
  datatype Path = Path(pattern: Pattern, m: Module)

  function LeafPaths(ms: seq<Module>, prefix: Pattern): seq<Path>
  {
    if ms == [] then [] else [Path(prefix, ms[0])] + LeafPaths(ms[1..], prefix)
  }

  function Paths(t: Tree, prefix: Pattern): seq<Path>
    decreases t
  {
    match t
    case Leaf(ms) => LeafPaths(ms, prefix)
    case Branch(ns) => NodesPaths(ns, prefix)
  }

  function NodesPaths(ns: seq<Node>, prefix: Pattern): seq<Path>
    decreases ns
  {
    if ns == [] then [] else Paths(ns[0].tree, prefix + ns[0].pattern) + NodesPaths(ns[1..], prefix)
  }

  predicate PathMatches(p: Path, buf: seq<Byte>)
  {
    |p.pattern| <= |buf| && PatternMatches(p.pattern, buf, 0) && ModuleMatches(p.m, buf)
  }

  /** The first entry of a list that matches. */
  function Scan(ps: seq<Path>, buf: seq<Byte>): Option<Module>
  {
    if ps == [] then None else if PathMatches(ps[0], buf) then Some(ps[0].m) else Scan(ps[1..], buf)
  }

  lemma {:induction false} ScanAppend(ps: seq<Path>, qs: seq<Path>, buf: seq<Byte>)
    ensures Scan(ps + qs, buf) == if Scan(ps, buf).Some? then Scan(ps, buf) else Scan(qs, buf)
    decreases |ps|
  {
    if ps == [] {
      assert ps + qs == qs;
    } else {
      hide PathMatches;
      assert (ps + qs)[0] == ps[0] && (ps + qs)[1..] == ps[1..] + qs;
      ScanAppend(ps[1..], qs, buf);
    }
  }

  /** The scan finds the first match, and only if there is none finds nothing. */
  lemma {:induction false} ScanIsFirst(ps: seq<Path>, buf: seq<Byte>)
    ensures Scan(ps, buf).None? <==> forall i :: 0 <= i < |ps| ==> !PathMatches(ps[i], buf)
    ensures Scan(ps, buf).Some? ==>
              exists k :: 0 <= k < |ps| && PathMatches(ps[k], buf) && ps[k].m == Scan(ps, buf).value
                          && forall i :: 0 <= i < k ==> !PathMatches(ps[i], buf)
    decreases |ps|
  {
    hide PathMatches;
    if ps != [] && !PathMatches(ps[0], buf) {
      ScanIsFirst(ps[1..], buf);
      if Scan(ps, buf).Some? {
        var k :| 0 <= k < |ps[1..]| && PathMatches(ps[1..][k], buf) && ps[1..][k].m == Scan(ps, buf).value
                 && forall i :: 0 <= i < k ==> !PathMatches(ps[1..][i], buf);
        assert ps[k + 1] == ps[1..][k];
        assert forall i :: 0 < i < k + 1 ==> ps[i] == ps[1..][i - 1];
      }
    }
  }

  lemma PatternSplits(p: Pattern, q: Pattern, buf: seq<Byte>)
    requires |p| + |q| <= |buf|
    ensures PatternMatches(p + q, buf, 0) <==> PatternMatches(p, buf, 0) && PatternMatches(q, buf, |p|)
  {
    if PatternMatches(p + q, buf, 0) {
      forall i | 0 <= i < |p|
        ensures p[i].None? || p[i].value == buf[i]
      {
        assert (p + q)[i] == p[i];
      }
      forall i | 0 <= i < |q|
        ensures q[i].None? || q[i].value == buf[|p| + i]
      {
        assert (p + q)[|p| + i] == q[i];
      }
    }
  }

  lemma {:induction false} LeafScans(ms: seq<Module>, prefix: Pattern, buf: seq<Byte>)
    requires |prefix| <= |buf|
    ensures Scan(LeafPaths(ms, prefix), buf) == if PatternMatches(prefix, buf, 0) then FirstModule(ms, buf) else None
    decreases |ms|
  {
    if ms != [] {
      hide PatternMatches, ModuleMatches;
      LeafScans(ms[1..], prefix, buf);
      assert LeafPaths(ms, prefix)[1..] == LeafPaths(ms[1..], prefix);
    }
  }

  /** The search below a position is the scan of the paths through it. */
  lemma {:induction false} TreeScans(t: Tree, prefix: Pattern, buf: seq<Byte>)
    requires TreeWithin(t, |prefix|, |buf|)
    ensures |prefix| <= |buf|
    ensures Scan(Paths(t, prefix), buf) == if PatternMatches(prefix, buf, 0) then MatchTree(t, buf, |prefix|) else None
    decreases t
  {
    hide PatternMatches;
    match t
    case Leaf(ms) => LeafScans(ms, prefix, buf);
    case Branch(ns) => NodesScan(ns, prefix, buf);
  }

  lemma {:induction false} NodesScan(ns: seq<Node>, prefix: Pattern, buf: seq<Byte>)
    requires |prefix| <= |buf| && NodesWithin(ns, |prefix|, |buf|)
    ensures Scan(NodesPaths(ns, prefix), buf) == if PatternMatches(prefix, buf, 0) then MatchNodes(ns, buf, |prefix|) else None
    decreases ns
  {
    if ns != [] {
      hide PatternMatches, Paths, MatchTree, TreeWithin;
      var n := ns[0];
      TreeScans(n.tree, prefix + n.pattern, buf);
      PatternSplits(prefix, n.pattern, buf);
      NodesScan(ns[1..], prefix, buf);
      ScanAppend(Paths(n.tree, prefix + n.pattern), NodesPaths(ns[1..], prefix), buf);
    }
  }

  /** On a buffer at least as long as every path, the search of the tree applies the
      module of the first path, in depth-first order, whose wildcard pattern matches and
      whose checksum and tail bytes agree; and none when there is no such path. */
  lemma {:induction false} SearchIsScan(root: Tree, buf: seq<Byte>)
    requires TreeWithin(root, 0, |buf|)
    ensures MatchTree(root, buf, 0) == Scan(Paths(root, []), buf)
    ensures MatchTree(root, buf, 0).Some? <==> exists i :: 0 <= i < |Paths(root, [])| && PathMatches(Paths(root, [])[i], buf)
  {
    TreeScans(root, [], buf);
    ScanIsFirst(Paths(root, []), buf);
  }
}
