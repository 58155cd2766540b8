/** The memory words of ESIL: peek after poke, and the read-modify-write words.

    A poke writes the low bytes of a value in either byte order, and a peek reads them
    back. The words that combine a register with memory are built from the two, so what
    they do to the addressed word and to all other bytes follows. */
module EsilMemory {
  import opened Words
  import opened Wrappers
  import opened EsilMachine
  import opened EsilWords

  // ----- byte order -----

  lemma {:induction false} ReversedTwice(bs: seq<Byte>)
    ensures Reversed(Reversed(bs)) == bs
  {
    if bs != [] {
      ReversedTwice(bs[1..]);
      ReversedAppend(Reversed(bs[1..]), bs[0]);
    }
  }

  lemma {:induction false} ReversedAppend(bs: seq<Byte>, b: Byte)
    ensures Reversed(bs + [b]) == [b] + Reversed(bs)
  {
    if bs != [] {
      assert (bs + [b])[1..] == bs[1..] + [b];
      ReversedAppend(bs[1..], b);
    }
  }

  /** Decoding an encoded value gives its low bytes back. */
  lemma {:induction false} LittleRoundTrip(v: nat, n: nat)
    ensures DecodeLE(EncodeLE(v, n)) == v % Pow2(8 * n)
    decreases n
  {
    if n > 0 {
      LittleRoundTrip(v / 0x100, n - 1);
      Pow2Byte(8 * n - 8);
      LowByteFirst(v, Pow2(8 * n - 8));
      assert EncodeLE(v, n)[1..] == EncodeLE(v / 0x100, n - 1);
    }
  }

  lemma LowByteFirst(v: nat, m: nat)
    requires m > 0
    ensures v % (0x100 * m) == v % 0x100 + 0x100 * (v / 0x100 % m)
  {
    var q, r := v / 0x100 / m, v / 0x100 % m;
    assert v / 0x100 == m * q + r;
    MulScale(0x100, m, q);
    ModuloUnique(v, 0x100 * m, q, v % 0x100 + 0x100 * r);
  }

  /** In either byte order. */
  lemma RoundTrip(v: nat, n: nat, bigEndian: bool)
    ensures Decode(Encode(v, n, bigEndian), bigEndian) == v % Pow2(8 * n)
  {
    ReversedTwice(EncodeLE(v, n));
    LittleRoundTrip(v, n);
  }

  /** Joined bytes are digits to the base 256, the first one lowest. */
  lemma {:induction false} DecodeJoined(xs: seq<Byte>, ys: seq<Byte>)
    ensures DecodeLE(xs + ys) == DecodeLE(xs) + Pow2(8 * |xs|) * DecodeLE(ys)
  {
    if xs == [] {
      assert xs + ys == ys;
    } else {
      assert (xs + ys)[1..] == xs[1..] + ys;
      DecodeJoined(xs[1..], ys);
      Pow2Byte(8 * |xs| - 8);
      MulScale(0x100, Pow2(8 * |xs| - 8), DecodeLE(ys));
    }
  }

  lemma {:induction false} ReversedAt(bs: seq<Byte>, k: nat)
    requires k < |bs|
    ensures Reversed(bs)[k] == bs[|bs| - 1 - k]
  {
    if k < |bs| - 1 {
      ReversedAt(bs[1..], k);
    }
  }

  /** A number's k-th byte from below comes k-th, or k-th from the end. */
  lemma ByteOfWord(bs: seq<Byte>, bigEndian: bool, k: nat)
    requires k < |bs|
    ensures Decode(bs, bigEndian) / Pow2(8 * k) % 0x100 == bs[if bigEndian then |bs| - 1 - k else k]
  {
    var xs := if bigEndian then Reversed(bs) else bs;
    if bigEndian {
      ReversedAt(bs, k);
    }
    assert xs == xs[..k] + xs[k..];
    DecodeJoined(xs[..k], xs[k..]);
    DecodeBelow(xs[..k]);
    var m, rest := Pow2(8 * k), DecodeLE(xs[k..]);
    ModuloUnique(DecodeLE(xs), m, rest, DecodeLE(xs[..k]));
    ModuloUnique(rest, 0x100, DecodeLE(xs[k..][1..]), xs[k]);
  }

  // ----- reading what was written -----

  /** Writing leaves every other byte alone. */
  lemma {:induction false} WriteElsewhere(mem: map<nat, Byte>, a: nat, bs: seq<Byte>, x: nat)
    requires x < a || a + |bs| <= x
    ensures ReadByte(WriteBytes(mem, a, bs), x) == ReadByte(mem, x)
    decreases |bs|
  {
    if bs != [] {
      WriteElsewhere(mem[a := bs[0]], a + 1, bs[1..], x);
    }
  }

  lemma {:induction false} ReadSame(mem: map<nat, Byte>, other: map<nat, Byte>, a: nat, n: nat)
    requires forall x: nat :: a <= x < a + n ==> ReadByte(mem, x) == ReadByte(other, x)
    ensures ReadBytes(mem, a, n) == ReadBytes(other, a, n)
    decreases n
  {
    if n > 0 {
      ReadSame(mem, other, a + 1, n - 1);
    }
  }

  lemma {:induction false} ReadWritten(mem: map<nat, Byte>, a: nat, bs: seq<Byte>)
    ensures ReadBytes(WriteBytes(mem, a, bs), a, |bs|) == bs
    decreases |bs|
  {
    if bs != [] {
      ReadWritten(mem[a := bs[0]], a + 1, bs[1..]);
      WriteElsewhere(mem[a := bs[0]], a + 1, bs[1..], a);
    }
  }

  // ----- the words -----

  /** The value of an operand that is not an internal flag depends on registers only. */
  function Fixed(regs: map<string, Word>, e: Entry): Option<Word>
  {
    match e
    case Num(n) => Some(n)
    case Reg(r) => if r in regs then Some(regs[r]) else None
    case _ => None
  }

  /** The word at an address after its bytes are replaced by those of v. */
  lemma WordWritten(mem: map<nat, Byte>, a: nat, v: Word, w: Width, bigEndian: bool)
    ensures var after := WriteBytes(mem, a, Encode(v, w, bigEndian));
            && DecodeWord(ReadBytes(after, a, w), bigEndian) == v % Pow2(8 * w)
            && forall x: nat :: x < a || a + w <= x ==> ReadByte(after, x) == ReadByte(mem, x)
  {
    var bs := Encode(v, w, bigEndian);
    ReadWritten(mem, a, bs);
    RoundTrip(v, w, bigEndian);
    forall x: nat | x < a || a + w <= x
      ensures ReadByte(WriteBytes(mem, a, bs), x) == ReadByte(mem, x)
    {
      WriteElsewhere(mem, a, bs, x);
    }
  }

  lemma PeekStep(m: Machine, rest: seq<Entry>, dst: Entry, w: Width)
    requires Valid(m) && m.stack == rest + [dst] && Fixed(m.regs, dst).Some?
    ensures var o := RunPeek(m, w);
            o == Outcome(true, m.(stack := rest + [Num(ReadWord(m, Fixed(m.regs, dst).value, w))], lastsz := 8 * w))
  {
  }

  lemma PokeStep(m: Machine, rest: seq<Entry>, src: Entry, dst: Entry, w: Width)
    requires Valid(m) && m.stack == rest + [src, dst]
    requires Fixed(m.regs, dst).Some? && Value(m, Some(src)).Some?
    ensures var a, v := Fixed(m.regs, dst).value, Value(m, Some(src)).value;
            var n := if src.Internal? then m else m.(prev := ReadBuffer(m, a, w), cur := v, lastsz := 8 * w);
            RunPoke(m, w) == Outcome(true, n.(stack := rest, mem := WriteBytes(m.mem, a, Encode(v, w, m.bigEndian))))
  {
    hide ReadBuffer, Encode, WriteBytes;
    TopTwo(m, rest, src, dst);
    SameBuffer(m, m.(stack := rest), Fixed(m.regs, dst).value, w);
  }

  lemma {:induction false} ByteRead(mem: map<nat, Byte>, a: nat, n: nat, k: nat)
    requires k < n
    ensures ReadBytes(mem, a, n)[k] == ReadByte(mem, a + k)
    decreases n
  {
    if k > 0 {
      ByteRead(mem, a + 1, n - 1, k - 1);
    }
  }

  /** A peek replaces an address by the bytes there as a number, in the machine's order;
      bytes that are not there read as ones. */
  lemma PeekEffect(m: Machine, rest: seq<Entry>, dst: Entry, w: Width, k: nat)
    requires Valid(m) && m.stack == rest + [dst] && Fixed(m.regs, dst).Some? && k < w
    ensures var a, o := Fixed(m.regs, dst).value, Run(m, Peek(w));
            && o.ok && |o.m.stack| == |rest| + 1 && o.m.stack[|rest|].Num?
            && o.m == m.(stack := rest + [o.m.stack[|rest|]], lastsz := 8 * w)
            && o.m.stack[|rest|].n < Pow2(8 * w)
            && var x := a + if m.bigEndian then w - 1 - k else k;
               o.m.stack[|rest|].n / Pow2(8 * k) % 0x100 == if x in m.mem then m.mem[x] else 0xff
  {
    hide Pow2, DecodeWord, ReadWord, RunPeek;
    PeekStep(m, rest, dst, w);
    WordBytes(m, Fixed(m.regs, dst).value, w, k);
  }

  lemma WordBytes(m: Machine, a: nat, w: Width, k: nat)
    requires k < w
    ensures var v, x := ReadWord(m, a, w), a + if m.bigEndian then w - 1 - k else k;
            v < Pow2(8 * w) && v / Pow2(8 * k) % 0x100 == if x in m.mem then m.mem[x] else 0xff
  {
    hide Pow2, DecodeLE, ReadBytes, Reversed;
    var bs := ReadBytes(m.mem, a, w);
    ByteOfWord(bs, m.bigEndian, k);
    ByteRead(m.mem, a, w, if m.bigEndian then w - 1 - k else k);
    DecodeBelow(if m.bigEndian then Reversed(bs) else bs);
  }

  lemma SameBuffer(m: Machine, n: Machine, a: nat, w: Width)
    requires Valid(m) && Valid(n) && n == m.(stack := n.stack)
    ensures ReadBuffer(n, a, w) == ReadBuffer(m, a, w)
  {
  }

  /** What an eight-byte buffer holds after a word was read into it. */
  lemma BufferHolds(m: Machine, a: nat, w: Width)
    requires Valid(m)
    ensures w == 8 ==> ReadBuffer(m, a, w) == ReadWord(m, a, w)
    ensures !m.bigEndian ==> ReadBuffer(m, a, w) % Pow2(8 * w) == ReadWord(m, a, w)
  {
    hide Pow2, DecodeLE, ReadBytes, Reversed;
    var bs := ReadBytes(m.mem, a, w);
    if w == 8 {
      assert bs + m.scratch[w..] == bs;
    }
    DecodeJoined(bs, m.scratch[w..]);
    DecodeBelow(bs);
    if !m.bigEndian {
      ModuloUnique(DecodeLE(bs + m.scratch[w..]), Pow2(8 * w), DecodeLE(m.scratch[w..]), DecodeLE(bs));
    }
  }

  /** A poke notes the value and what was there before, unless the value is a flag. */
  lemma PokeNotes(m: Machine, rest: seq<Entry>, src: Entry, dst: Entry, w: Width)
    requires Valid(m) && m.stack == rest + [src, dst]
    requires Fixed(m.regs, dst).Some? && Value(m, Some(src)).Some?
    ensures var a, o := Fixed(m.regs, dst).value, Run(m, Poke(w));
            if src.Internal? then o.m.prev == m.prev && o.m.cur == m.cur && o.m.lastsz == m.lastsz
            else o.m.cur == Value(m, Some(src)).value && o.m.lastsz == 8 * w
                 && (w == 8 ==> o.m.prev == ReadWord(m, a, w))
                 && (!m.bigEndian ==> o.m.prev % Pow2(8 * w) == ReadWord(m, a, w))
  {
    hide Pow2, ReadBuffer, ReadWord, Encode, WriteBytes, RunPoke, Valid, Value;
    PokeStep(m, rest, src, dst, w);
    BufferHolds(m, Fixed(m.regs, dst).value, w);
  }

  /** A poke takes its two operands and stores the value's low bytes, nothing else. */
  lemma PokeEffect(m: Machine, rest: seq<Entry>, src: Entry, dst: Entry, w: Width)
    requires Valid(m) && m.stack == rest + [src, dst]
    requires Fixed(m.regs, dst).Some? && Value(m, Some(src)).Some?
    ensures var a, o := Fixed(m.regs, dst).value, RunPoke(m, w);
            && o.ok && o.m.stack == rest && o.m.regs == m.regs
            && ReadWord(o.m, a, w) == Value(m, Some(src)).value % Pow2(8 * w)
            && forall x: nat :: x < a || a + w <= x ==> ReadByte(o.m.mem, x) == ReadByte(m.mem, x)
  {
    PokeStep(m, rest, src, dst, w);
    WordWritten(m.mem, Fixed(m.regs, dst).value, Value(m, Some(src)).value, w, m.bigEndian);
  }

  /** Poking a value and peeking at the same address pushes the value modulo 2^(8w). */
  lemma PeekAfterPoke(m: Machine, rest: seq<Entry>, src: Entry, dst: Entry, w: Width)
    requires Valid(m) && m.stack == rest + [src, dst]
    requires Fixed(m.regs, dst).Some? && Value(m, Some(src)).Some?
    ensures Value(m, Some(src)).value % Pow2(8 * w) < TWO64
    ensures var p := RunPeek(Push(RunPoke(m, w).m, dst).m, w);
            p.ok && p.m.stack == rest + [Num(Value(m, Some(src)).value % Pow2(8 * w))]
  {
    var o := RunPoke(m, w);
    PokeStep(m, rest, src, dst, w);
    WordWritten(m.mem, Fixed(m.regs, dst).value, Value(m, Some(src)).value, w, m.bigEndian);
    PeekStep(Push(o.m, dst).m, rest, dst, w);
  }

  /** The read-modify-write words: the addressed word becomes the result of the operator
      on the old word and the source, modulo 2^(8w), the result is noted, every other byte
      and all registers stay, and the stack loses exactly its two operands. */
  lemma MemUpdateEffect(m: Machine, rest: seq<Entry>, src: Entry, dst: Entry, b: MemOp, w: Width)
    requires Valid(m) && m.stack == rest + [src, dst]
    requires Fixed(m.regs, dst).Some? && Value(m, Some(src)).Some?
    requires b == OpDiv ==> Value(m, Some(src)).value != 0
    ensures var a, s, o := Fixed(m.regs, dst).value, Value(m, Some(src)).value, RunMemUpdate(m, b, w);
            && o.ok && Means(b, ReadWord(m, a, w), s, o.m.cur) && o.m.lastsz == 8 * w
            && ReadWord(o.m, a, w) == o.m.cur % Pow2(8 * w)
            && (forall x: nat :: x < a || a + w <= x ==> ReadByte(o.m.mem, x) == ReadByte(m.mem, x))
            && o.m.stack == rest && o.m.regs == m.regs
  {
    hide Means;
    TopTwo(m, rest, src, dst);
    ApplyMeans(b, ReadWord(m, Fixed(m.regs, dst).value, w), Value(m, Some(src)).value,
               Apply(b, ReadWord(m, Fixed(m.regs, dst).value, w), Value(m, Some(src)).value));
    ReplaceEffect(Pop(Pop(m)), src, dst, b, Value(m, Some(src)).value, w);
  }

  lemma ReplaceEffect(m: Machine, src: Entry, dst: Entry, b: MemOp, s: Word, w: Width)
    requires Valid(m) && |m.stack| + 2 <= m.limit && Fixed(m.regs, dst).Some? && (b == OpDiv ==> s != 0)
    ensures var a, o := Fixed(m.regs, dst).value, ReplaceWord(m, b, s, dst, w);
            && o.ok && o.m.cur == Apply(b, ReadWord(m, a, w), s) && o.m.lastsz == 8 * w
            && ReadWord(o.m, a, w) == o.m.cur % Pow2(8 * w)
            && (forall x: nat :: x < a || a + w <= x ==> ReadByte(o.m.mem, x) == ReadByte(m.mem, x))
            && o.m.stack == m.stack && o.m.regs == m.regs
  {
    PeekStep(Push(m, dst).m, m.stack, dst, w);
    var peeked := RunPeek(Push(m, dst).m, w);
    var m1 := Pop(peeked.m);
    assert m1.stack == m.stack;
    assert Value(m1, Top(peeked.m)) == Some(ReadWord(m, Fixed(m.regs, dst).value, w));
    PokeBackEffect(m1, Apply(b, ReadWord(m, Fixed(m.regs, dst).value, w), s), dst, w);
  }

  lemma PokeBackEffect(m: Machine, v: Word, dst: Entry, w: Width)
    requires Valid(m) && |m.stack| + 2 <= m.limit && Fixed(m.regs, dst).Some?
    ensures var a, o := Fixed(m.regs, dst).value, PokeBack(m, v, dst, w);
            && o.ok && ReadWord(o.m, a, w) == v % Pow2(8 * w) && o.m.cur == v && o.m.lastsz == 8 * w
            && (forall x: nat :: x < a || a + w <= x ==> ReadByte(o.m.mem, x) == ReadByte(m.mem, x))
            && o.m.stack == m.stack && o.m.regs == m.regs
  {
    var p := Push(PushNum(m, v), dst).m;
    assert p.stack == m.stack + [Num(v), dst];
    PokeEffect(p, m.stack, Num(v), dst, w);
    PokeNotes(p, m.stack, Num(v), dst, w);
  }

  /** Division by zero traps: memory is left alone and both operands are gone. */
  lemma MemDivByZeroTraps(m: Machine, rest: seq<Entry>, src: Entry, dst: Entry, w: Width)
    requires Valid(m) && m.stack == rest + [src, dst] && Value(m, Some(src)) == Some(0)
    ensures RunMemUpdate(m, OpDiv, w) == Outcome(false, m.(stack := rest, trap := DivByZero))
  {
    TopTwo(m, rest, src, dst);
  }
}
