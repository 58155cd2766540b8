/** FLIRT signature trees and their byte format.

    Reading follows the parser of the program, and writing the comment that documents the
    format. Both work on a sequence of bytes and a position; reading fails where the
    parser raises its error flags. */
module FlirtFormat {
  import opened Words
  import opened Wrappers

  // ----- trees -----

  datatype TailByte = TailByte(offset: nat, value: Byte)

  datatype Function = Function(name: seq<Byte>, offset: nat, isLocal: bool, isCollision: bool)

  datatype Reference = Reference(name: seq<Byte>, offset: nat)

  datatype Module = Module(crcLength: Byte, crc: nat, length: nat, functions: seq<Function>, tails: seq<TailByte>, references: seq<Reference>)

  /** The wildcard is None. */
  type Pattern = seq<Option<Byte>>

  datatype Node = Node(pattern: Pattern, tree: Tree)

  datatype Tree = Leaf(modules: seq<Module>) | Branch(children: seq<Node>)

  /** Names are read into a buffer of this size. */
  const NAME_MAX: nat := 1024

  // ----- numbers -----

  datatype Read<+T> = Fail | Ok(value: T, rest: seq<Byte>)

  function ReadByte(bs: seq<Byte>): (r: Read<Byte>)
    ensures r.Ok? ==> |r.rest| + 1 == |bs|
  {
    if bs == [] then Fail else Ok(bs[0], bs[1..])
  }

  function ReadShort(bs: seq<Byte>): (r: Read<nat>)
    ensures r.Ok? ==> |r.rest| + 2 == |bs| && r.value < 0x1_0000
  {
    if |bs| < 2 then Fail else Ok(bs[0] as nat * 0x100 + bs[1], bs[2..])
  }

  /** One byte, or fifteen bits in two bytes. */
  function ReadMax2(bs: seq<Byte>): (r: Read<nat>)
    ensures r.Ok? ==> |r.rest| < |bs| && r.value < 0x8000
  {
    if bs == [] then Fail
    else if bs[0] < 0x80 then Ok(bs[0], bs[1..])
    else if |bs| < 2 then Fail
    else Ok((bs[0] as nat - 0x80) * 0x100 + bs[1], bs[2..])
  }

  /** One, two, four or five bytes, by the leading bits. */
  function ReadMulti(bs: seq<Byte>): (r: Read<nat>)
    ensures r.Ok? ==> |r.rest| < |bs| && r.value < 0x1_0000_0000
  {
    if bs == [] then Fail
    else if bs[0] < 0x80 then Ok(bs[0], bs[1..])
    else if bs[0] < 0xc0 then if |bs| < 2 then Fail else Ok((bs[0] as nat - 0x80) * 0x100 + bs[1], bs[2..])
    else if bs[0] < 0xe0 then
      if |bs| < 4 then Fail
      else Ok((bs[0] as nat - 0xc0) * 0x100_0000 + bs[1] as nat * 0x1_0000 + bs[2] as nat * 0x100 + bs[3], bs[4..])
    else if |bs| < 5 then Fail
    else Ok(bs[1] as nat * 0x100_0000 + bs[2] as nat * 0x1_0000 + bs[3] as nat * 0x100 + bs[4], bs[5..])
  }

  /** Lengths and offsets are wider since version 9, and kept in sixteen bits. */
  function ReadOffset(v: nat, bs: seq<Byte>): (r: Read<nat>)
    ensures r.Ok? ==> |r.rest| < |bs| && r.value < 0x1_0000
  {
    if v >= 9 then
      match ReadMulti(bs)
      case Fail => Fail
      case Ok(x, rest) => Ok(x % 0x1_0000, rest)
    else ReadMax2(bs)
  }

  /** The bit of a flags byte with weight w. */
  predicate Has(flags: Byte, w: nat)
    requires w > 0
  {
    flags as nat / w % 2 == 1
  }

  // ----- public functions -----

  /** Name characters from c on, up to a byte below 0x20 or the buffer's end; that last
      byte is handed on. */
  function ReadName(bs: seq<Byte>, c: Byte, left: nat): (r: Read<(seq<Byte>, Byte)>)
    ensures r.Ok? ==> |r.rest| <= |bs| && |r.value.0| <= left
    decreases left
  {
    if c < 0x20 || left == 0 then Ok(([], c), bs)
    else if bs == [] then Fail
    else
      match ReadName(bs[1..], bs[0], left - 1)
      case Fail => Fail
      case Ok(n, rest) => Ok(([c] + n.0, n.1), rest)
  }

  function Clip(name: seq<Byte>): seq<Byte>
  {
    if |name| < NAME_MAX then name else name[..NAME_MAX - 1]
  }

  /** A function's flags byte, if the next byte is one, and its name. */
  function ReadNamed(bs: seq<Byte>, offset: nat): (r: Read<(Function, Byte)>)
    ensures r.Ok? ==> |r.rest| < |bs| && r.value.0.offset == offset
  {
    if bs == [] then Fail
    else
      var c := bs[0];
      if c >= 0x20 then
        match ReadName(bs[1..], c, NAME_MAX)
        case Fail => Fail
        case Ok(n, rest) => Ok((Function(Clip(n.0), offset, false, false), n.1), rest)
      else if |bs| < 2 then Fail
      else
        match ReadName(bs[2..], bs[1], NAME_MAX)
        case Fail => Fail
        case Ok(n, rest) => Ok((Function(Clip(n.0), offset, Has(c, 2), Has(c, 8)), n.1), rest)
  }

  /** Offsets are relative to the previous function; the byte after the last name holds
      the module's flags. */
  function ReadFunctions(v: nat, bs: seq<Byte>, prev: nat): (r: Read<(seq<Function>, Byte)>)
    ensures r.Ok? ==> |r.rest| < |bs|
    decreases |bs|
  {
    match ReadOffset(v, bs)
    case Fail => Fail
    case Ok(d, bs1) =>
      var offset := (prev + d) % 0x1_0000;
      match ReadNamed(bs1, offset)
      case Fail => Fail
      case Ok(f, bs2) =>
        if !Has(f.1, 1) then Ok(([f.0], f.1), bs2)
        else
          match ReadFunctions(v, bs2, offset)
          case Fail => Fail
          case Ok(fs, rest) => Ok(([f.0] + fs.0, fs.1), rest)
  }

  // ----- tail bytes and references -----

  /** Counts were introduced in version 8. */
  function ReadCount(v: nat, bs: seq<Byte>): (r: Read<nat>)
    ensures r.Ok? ==> |r.rest| <= |bs|
  {
    if v < 8 then Ok(1, bs) else if bs == [] then Fail else Ok(bs[0], bs[1..])
  }

  function ReadTails(v: nat, bs: seq<Byte>, n: nat): (r: Read<seq<TailByte>>)
    ensures r.Ok? ==> |r.rest| <= |bs|
    decreases n
  {
    if n == 0 then Ok([], bs)
    else
      match ReadOffset(v, bs)
      case Fail => Fail
      case Ok(o, bs1) =>
        if bs1 == [] then Fail
        else
          match ReadTails(v, bs1[1..], n - 1)
          case Fail => Fail
          case Ok(ts, rest) => Ok([TailByte(o, bs1[0])] + ts, rest)
  }

  /** A length of zero announces a longer number. */
  function ReadNameLength(bs: seq<Byte>): (r: Read<nat>)
    ensures r.Ok? ==> |r.rest| < |bs|
  {
    if bs == [] then Fail else if bs[0] != 0 then Ok(bs[0], bs[1..]) else ReadMulti(bs[1..])
  }

  /** Lengths beyond the name buffer are refused here. */
  function ReadReference(v: nat, bs: seq<Byte>): (r: Read<Reference>)
    ensures r.Ok? ==> |r.rest| < |bs|
  {
    match ReadOffset(v, bs)
    case Fail => Fail
    case Ok(o, bs1) =>
      match ReadNameLength(bs1)
      case Fail => Fail
      case Ok(n, bs2) => if n >= NAME_MAX || n > |bs2| then Fail else Ok(Reference(bs2[..n], o), bs2[n..])
  }

  function ReadReferences(v: nat, bs: seq<Byte>, n: nat): (r: Read<seq<Reference>>)
    ensures r.Ok? ==> |r.rest| <= |bs|
    decreases n
  {
    if n == 0 then Ok([], bs)
    else
      match ReadReference(v, bs)
      case Fail => Fail
      case Ok(x, bs1) =>
        match ReadReferences(v, bs1, n - 1)
        case Fail => Fail
        case Ok(xs, rest) => Ok([x] + xs, rest)
  }

  function ReadTailPart(v: nat, bs: seq<Byte>, flags: Byte): (r: Read<seq<TailByte>>)
    ensures r.Ok? ==> |r.rest| <= |bs|
  {
    if !Has(flags, 2) then Ok([], bs)
    else
      match ReadCount(v, bs)
      case Fail => Fail
      case Ok(n, bs1) => ReadTails(v, bs1, n)
  }

  function ReadReferencePart(v: nat, bs: seq<Byte>, flags: Byte): (r: Read<seq<Reference>>)
    ensures r.Ok? ==> |r.rest| <= |bs|
  {
    if !Has(flags, 4) then Ok([], bs)
    else
      match ReadCount(v, bs)
      case Fail => Fail
      case Ok(n, bs1) => ReadReferences(v, bs1, n)
  }

  // ----- leaves -----

  function ReadModule(v: nat, bs: seq<Byte>, crcLength: Byte, crc: nat): (r: Read<(Module, Byte)>)
    ensures r.Ok? ==> |r.rest| < |bs|
  {
    match ReadOffset(v, bs)
    case Fail => Fail
    case Ok(length, bs1) =>
      match ReadFunctions(v, bs1, 0)
      case Fail => Fail
      case Ok(fs, bs2) =>
        match ReadTailPart(v, bs2, fs.1)
        case Fail => Fail
        case Ok(ts, bs3) =>
          match ReadReferencePart(v, bs3, fs.1)
          case Fail => Fail
          case Ok(xs, rest) => Ok((Module(crcLength, crc, length, fs.0, ts, xs), fs.1), rest)
  }

  /** Modules up to one whose flags announce no other; a module with another checksum
      brings its own header. */
  function ReadModules(v: nat, bs: seq<Byte>, crcLength: Byte, crc: nat): (r: Read<seq<Module>>)
    ensures r.Ok? ==> |r.rest| < |bs|
    decreases |bs|, 0
  {
    match ReadModule(v, bs, crcLength, crc)
    case Fail => Fail
    case Ok(m, bs1) =>
      if !Has(m.1, 8) && !Has(m.1, 16) then Ok([m.0], bs1)
      else
        match if Has(m.1, 8) then ReadModules(v, bs1, crcLength, crc) else ReadLeaf(v, bs1)
        case Fail => Fail
        case Ok(ms, rest) => Ok([m.0] + ms, rest)
  }

  function ReadLeaf(v: nat, bs: seq<Byte>): (r: Read<seq<Module>>)
    ensures r.Ok? ==> |r.rest| < |bs|
    decreases |bs|, 1
  {
    if |bs| < 3 then Fail else ReadModules(v, bs[3..], bs[0], bs[1] as nat * 0x100 + bs[2])
  }

  // ----- nodes -----

  /** The mask of wildcards, in as many bytes as the node's length calls for. */
  function ReadMask(length: Byte, bs: seq<Byte>): (r: Read<nat>)
    ensures r.Ok? ==> |r.rest| <= |bs|
  {
    if length < 0x10 then ReadMax2(bs)
    else if length <= 0x20 then ReadMulti(bs)
    else if length <= 0x40 then
      match ReadMulti(bs)
      case Fail => Fail
      case Ok(hi, bs1) =>
        match ReadMulti(bs1)
        case Fail => Fail
        case Ok(lo, rest) => Ok(hi * 0x1_0000_0000 + lo, rest)
    else Ok(0, bs)
  }

  /** The bytes of a pattern, skipping those that the mask declares variant; the last
      byte has the mask's lowest bit. */
  function ReadPattern(mask: nat, length: nat, bs: seq<Byte>): (r: Read<Pattern>)
    ensures r.Ok? ==> |r.rest| <= |bs| && |r.value| == length
    decreases length
  {
    if length == 0 then Ok([], bs)
    else if mask / Pow2(length - 1) % 2 == 1 then
      match ReadPattern(mask, length - 1, bs)
      case Fail => Fail
      case Ok(p, rest) => Ok([None] + p, rest)
    else if bs == [] then Fail
    else
      match ReadPattern(mask, length - 1, bs[1..])
      case Fail => Fail
      case Ok(p, rest) => Ok([Some(bs[0])] + p, rest)
  }

  function ReadHeader(bs: seq<Byte>): (r: Read<Pattern>)
    ensures r.Ok? ==> |r.rest| < |bs|
  {
    if bs == [] then Fail
    else
      match ReadMask(bs[0], bs[1..])
      case Fail => Fail
      case Ok(mask, bs1) => ReadPattern(mask, bs[0], bs1)
  }

  /** A count of zero is a leaf. Counts of 2^31 and more are negative to the program. */
  function ReadTree(v: nat, bs: seq<Byte>): (r: Read<Tree>)
    ensures r.Ok? ==> |r.rest| < |bs|
    decreases |bs|, 0
  {
    match ReadMulti(bs)
    case Fail => Fail
    case Ok(n, bs1) =>
      if n == 0 then
        match ReadLeaf(v, bs1)
        case Fail => Fail
        case Ok(ms, rest) => Ok(Leaf(ms), rest)
      else
        match ReadNodes(v, bs1, if n < 0x8000_0000 then n else 0)
        case Fail => Fail
        case Ok(ns, rest) => Ok(Branch(ns), rest)
  }

  function ReadNodes(v: nat, bs: seq<Byte>, n: nat): (r: Read<seq<Node>>)
    ensures r.Ok? ==> |r.rest| <= |bs|
    decreases |bs|, 1
  {
    if n == 0 then Ok([], bs)
    else
      match ReadHeader(bs)
      case Fail => Fail
      case Ok(p, bs1) =>
        match ReadTree(v, bs1)
        case Fail => Fail
        case Ok(t, bs2) =>
          match ReadNodes(v, bs2, n - 1)
          case Fail => Fail
          case Ok(ns, rest) => Ok([Node(p, t)] + ns, rest)
  }

  // ----- writing -----

  function ShortBytes(x: nat): seq<Byte>
    requires x < 0x1_0000
  {
    [x / 0x100, x % 0x100]
  }

  function Max2Bytes(x: nat): seq<Byte>
    requires x < 0x8000
  {
    if x < 0x80 then [x] else [0x80 + x / 0x100, x % 0x100]
  }

  function MultiBytes(x: nat): seq<Byte>
    requires x < 0x1_0000_0000
  {
    if x < 0x80 then [x]
    else if x < 0x4000 then [0x80 + x / 0x100, x % 0x100]
    else if x < 0x2000_0000 then [0xc0 + x / 0x100_0000, x / 0x1_0000 % 0x100, x / 0x100 % 0x100, x % 0x100]
    else [0xe0, x / 0x100_0000, x / 0x1_0000 % 0x100, x / 0x100 % 0x100, x % 0x100]
  }

  /** What an offset or length may be. */
  predicate OffsetFits(v: nat, x: nat)
  {
    x < 0x1_0000 && (v < 9 ==> x < 0x8000)
  }

  function OffsetBytes(v: nat, x: nat): seq<Byte>
    requires OffsetFits(v, x)
  {
    if v >= 9 then MultiBytes(x) else Max2Bytes(x)
  }

  /** The step from one function's offset to the next, modulo 2^16. */
  function Delta(prev: nat, offset: nat): nat
    requires prev < 0x1_0000 && offset < 0x1_0000
  {
    if prev <= offset then offset - prev else offset + 0x1_0000 - prev
  }

  /** Names are printable; longer ones do not fit the buffer. */
  predicate NameFits(name: seq<Byte>)
  {
    |name| < NAME_MAX && forall i :: 0 <= i < |name| ==> name[i] >= 0x20
  }

  predicate FunctionsFit(v: nat, fs: seq<Function>, prev: nat)
    requires prev < 0x1_0000
  {
    fs == [] ||
    (&& fs[0].offset < 0x1_0000 && OffsetFits(v, Delta(prev, fs[0].offset)) && NameFits(fs[0].name)
     && FunctionsFit(v, fs[1..], fs[0].offset))
  }

  /** The flags byte is written when there is a flag, or no name to start with. */
  function NamedBytes(f: Function): seq<Byte>
  {
    (if f.isLocal || f.isCollision || f.name == [] then [(if f.isLocal then 2 else 0) + (if f.isCollision then 8 else 0)] else [])
    + f.name
  }

  function FunctionBytes(v: nat, fs: seq<Function>, prev: nat, flags: Byte): seq<Byte>
    requires fs != [] && prev < 0x1_0000 && FunctionsFit(v, fs, prev)
    decreases |fs|
  {
    OffsetBytes(v, Delta(prev, fs[0].offset)) +
    (NamedBytes(fs[0]) + if |fs| == 1 then [flags] else [1] + FunctionBytes(v, fs[1..], fs[0].offset, flags))
  }

  predicate EachTailFits(v: nat, ts: seq<TailByte>)
  {
    ts == [] || (OffsetFits(v, ts[0].offset) && EachTailFits(v, ts[1..]))
  }

  predicate TailsFit(v: nat, ts: seq<TailByte>)
  {
    (if v < 8 then |ts| <= 1 else |ts| < 0x100) && EachTailFits(v, ts)
  }

  function CountBytes(v: nat, n: nat): seq<Byte>
    requires n < 0x100
  {
    if v < 8 then [] else [n]
  }

  function TailBytes(v: nat, ts: seq<TailByte>): seq<Byte>
    requires EachTailFits(v, ts)
  {
    if ts == [] then [] else OffsetBytes(v, ts[0].offset) + ([ts[0].value] + TailBytes(v, ts[1..]))
  }

  predicate ReferenceFits(v: nat, x: Reference)
  {
    OffsetFits(v, x.offset) && |x.name| < NAME_MAX
  }

  predicate EachReferenceFits(v: nat, xs: seq<Reference>)
  {
    xs == [] || (ReferenceFits(v, xs[0]) && EachReferenceFits(v, xs[1..]))
  }

  predicate ReferencesFit(v: nat, xs: seq<Reference>)
  {
    (if v < 8 then |xs| <= 1 else |xs| < 0x100) && EachReferenceFits(v, xs)
  }

  function NameLengthBytes(n: nat): seq<Byte>
    requires n < NAME_MAX
  {
    if 1 <= n < 0x100 then [n] else [0] + MultiBytes(n)
  }

  function ReferenceBytes(v: nat, x: Reference): seq<Byte>
    requires ReferenceFits(v, x)
  {
    OffsetBytes(v, x.offset) + (NameLengthBytes(|x.name|) + x.name)
  }

  function ReferencesBytes(v: nat, xs: seq<Reference>): seq<Byte>
    requires EachReferenceFits(v, xs)
  {
    if xs == [] then [] else ReferenceBytes(v, xs[0]) + ReferencesBytes(v, xs[1..])
  }

  predicate ModuleFits(v: nat, m: Module)
  {
    && m.crc < 0x1_0000 && OffsetFits(v, m.length)
    && m.functions != [] && FunctionsFit(v, m.functions, 0)
    && TailsFit(v, m.tails) && ReferencesFit(v, m.references)
  }

  function ModuleFlags(m: Module, more: Byte): Byte
    requires more == 0 || more == 8 || more == 16
  {
    more + (if m.tails != [] then 2 else 0) + (if m.references != [] then 4 else 0)
  }

  function TailPart(v: nat, ts: seq<TailByte>): seq<Byte>
    requires TailsFit(v, ts)
  {
    if ts == [] then [] else CountBytes(v, |ts|) + TailBytes(v, ts)
  }

  function ReferencePart(v: nat, xs: seq<Reference>): seq<Byte>
    requires ReferencesFit(v, xs)
  {
    if xs == [] then [] else CountBytes(v, |xs|) + ReferencesBytes(v, xs)
  }

  function ModuleBytes(v: nat, m: Module, more: Byte): seq<Byte>
    requires ModuleFits(v, m) && (more == 0 || more == 8 || more == 16)
  {
    OffsetBytes(v, m.length) +
    (FunctionBytes(v, m.functions, 0, ModuleFlags(m, more)) + (TailPart(v, m.tails) + ReferencePart(v, m.references)))
  }

  predicate SameCrc(a: Module, b: Module)
  {
    a.crcLength == b.crcLength && a.crc == b.crc
  }

  predicate ModulesFit(v: nat, ms: seq<Module>)
  {
    ms != [] && forall m :: m in ms ==> ModuleFits(v, m)
  }

  /** Modules after the header of the first one. */
  function ModulesBytes(v: nat, ms: seq<Module>): seq<Byte>
    requires ModulesFit(v, ms)
    decreases |ms|, 0
  {
    assert ms[0] in ms;
    if |ms| == 1 then ModuleBytes(v, ms[0], 0)
    else if SameCrc(ms[0], ms[1]) then ModuleBytes(v, ms[0], 8) + ModulesBytes(v, ms[1..])
    else ModuleBytes(v, ms[0], 16) + LeafBytes(v, ms[1..])
  }

  function LeafBytes(v: nat, ms: seq<Module>): seq<Byte>
    requires ModulesFit(v, ms)
    decreases |ms|, 1
  {
    assert ms[0] in ms;
    ([ms[0].crcLength] + ShortBytes(ms[0].crc)) + ModulesBytes(v, ms)
  }

  /** The mask has a bit for every wildcard. */
  function MaskOf(p: Pattern): (m: nat)
    ensures m < Pow2(|p|)
  {
    if p == [] then 0 else (if p[0].None? then Pow2(|p| - 1) else 0) + MaskOf(p[1..])
  }

  predicate PatternFits(p: Pattern)
  {
    |p| <= 64 || (|p| < 0x100 && forall x :: x in p ==> x.Some?)
  }

  function Fixed(p: Pattern): seq<Byte>
  {
    if p == [] then [] else if p[0].None? then Fixed(p[1..]) else [p[0].value] + Fixed(p[1..])
  }

  lemma MaskBelow(p: Pattern)
    ensures |p| < 0x10 ==> MaskOf(p) < 0x8000
    ensures |p| <= 0x20 ==> MaskOf(p) < 0x1_0000_0000
    ensures |p| <= 0x40 ==> MaskOf(p) / 0x1_0000_0000 < 0x1_0000_0000
  {
    Pow2Is64();
    if |p| < 0x10 {
      Pow2Monotone(|p|, 15);
      assert 2 * Pow2(15) == Pow2(16);
    }
    if |p| <= 0x20 {
      Pow2Monotone(|p|, 32);
    }
    if |p| <= 0x40 {
      Pow2Monotone(|p|, 64);
    }
  }

  function MaskBytes(p: Pattern): seq<Byte>
  {
    MaskBelow(p);
    if |p| < 0x10 then Max2Bytes(MaskOf(p))
    else if |p| <= 0x20 then MultiBytes(MaskOf(p))
    else if |p| <= 0x40 then MultiBytes(MaskOf(p) / 0x1_0000_0000) + MultiBytes(MaskOf(p) % 0x1_0000_0000)
    else []
  }

  function HeaderBytes(p: Pattern): seq<Byte>
    requires PatternFits(p)
  {
    [|p|] + (MaskBytes(p) + Fixed(p))
  }

  predicate TreeFits(v: nat, t: Tree)
    decreases t
  {
    match t
    case Leaf(ms) => ModulesFit(v, ms)
    case Branch(ns) => 0 < |ns| < 0x8000_0000 && NodesFit(v, ns)
  }

  predicate NodesFit(v: nat, ns: seq<Node>)
    decreases ns
  {
    ns == [] || (PatternFits(ns[0].pattern) && TreeFits(v, ns[0].tree) && NodesFit(v, ns[1..]))
  }

  function TreeBytes(v: nat, t: Tree): seq<Byte>
    requires TreeFits(v, t)
    decreases t
  {
    match t
    case Leaf(ms) => [0] + LeafBytes(v, ms)
    case Branch(ns) => MultiBytes(|ns|) + NodesBytes(v, ns)
  }

  function NodesBytes(v: nat, ns: seq<Node>): seq<Byte>
    requires NodesFit(v, ns)
    decreases ns
  {
    if ns == [] then [] else HeaderBytes(ns[0].pattern) + (TreeBytes(v, ns[0].tree) + NodesBytes(v, ns[1..]))
  }
}
