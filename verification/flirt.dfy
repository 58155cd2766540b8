/** The FLIRT parser and matcher as programs: a cursor over a buffer with a sticky error
    flag, and nested loops steered by flag bytes. */
module Flirt {
  import opened Words
  import opened Wrappers
  import opened FlirtFormat
  import opened FlirtMatch

  // ----- results of loops -----

  /** Items read before, in front of the items that r reads. */
  function Prepend<T>(pre: seq<T>, r: Read<seq<T>>): Read<seq<T>>
  {
    match r
    case Fail => Fail
    case Ok(xs, rest) => Ok(pre + xs, rest)
  }

  function PrependTo<T>(pre: seq<T>, r: Read<(seq<T>, Byte)>): Read<(seq<T>, Byte)>
  {
    match r
    case Fail => Fail
    case Ok(x, rest) => Ok((pre + x.0, x.1), rest)
  }

  lemma PrependTwice<T>(pre: seq<T>, x: T, r: Read<seq<T>>)
    ensures Prepend(pre, Prepend([x], r)) == Prepend(pre + [x], r)
    ensures Prepend([], r) == r
  {
    if r.Ok? {
      assert pre + ([x] + r.value) == (pre + [x]) + r.value;
      assert [] + r.value == r.value;
    }
  }

  lemma PrependToTwice<T>(pre: seq<T>, x: T, r: Read<(seq<T>, Byte)>)
    ensures PrependTo(pre, PrependTo([x], r)) == PrependTo(pre + [x], r)
    ensures PrependTo([], r) == r
  {
    if r.Ok? {
      assert pre + ([x] + r.value.0) == (pre + [x]) + r.value.0;
      assert [] + r.value.0 == r.value.0;
    }
  }

  /** One more character of a name, or its end. */
  lemma NameStep(bs: seq<Byte>, c: Byte, left: nat)
    ensures ReadName(bs, c, left) ==
              if c < 0x20 || left == 0 then Ok(([], c), bs)
              else if bs == [] then Fail else PrependTo([c], ReadName(bs[1..], bs[0], left - 1))
  {
  }

  class SigReader {
    const buf: seq<Byte>
    const version: nat
    var cur: nat
    var err: bool

    constructor (buf: seq<Byte>, version: nat)
      ensures this.buf == buf && this.version == version && cur == 0 && !err
    {
      this.buf, this.version, cur, err := buf, version, 0, false;
    }

    function Rest(): seq<Byte>
      requires cur <= |buf|
      reads this
    {
      buf[cur..]
    }

    /** The reader did what the specification says: failed, or produced its value and
        stands where it stopped. */
    ghost predicate Follows<T>(spec: Read<T>, x: T)
      reads this
    {
      cur <= |buf| && if spec.Fail? then err else !err && x == spec.value && Rest() == spec.rest
    }

    // ----- numbers -----

    method GetByte() returns (r: Byte)
      requires cur <= |buf|
      modifies this
      ensures old(err) ==> err && cur == old(cur)
      ensures !old(err) ==> Follows(ReadByte(old(Rest())), r)
      ensures cur <= |buf|
    {
      r := 0;
      if err {
        return;
      }
      if cur == |buf| {
        err := true;
        return;
      }
      r := buf[cur];
      cur := cur + 1;
    }

    method GetShort() returns (r: nat)
      requires cur <= |buf|
      modifies this
      ensures old(err) ==> err
      ensures !old(err) ==> Follows(ReadShort(old(Rest())), r)
      ensures cur <= |buf|
    {
      var hi := GetByte();
      var lo := GetByte();
      r := hi as nat * 0x100 + lo;
    }

    method GetMax2() returns (r: nat)
      requires cur <= |buf|
      modifies this
      ensures old(err) ==> err
      ensures !old(err) ==> Follows(ReadMax2(old(Rest())), r)
      ensures cur <= |buf|
    {
      var b := GetByte();
      r := b;
      if b >= 0x80 {
        var lo := GetByte();
        r := (b as nat - 0x80) * 0x100 + lo;
      }
    }

    method GetMulti() returns (r: nat)
      requires cur <= |buf|
      modifies this
      ensures old(err) ==> err
      ensures !old(err) ==> Follows(ReadMulti(old(Rest())), r)
      ensures cur <= |buf|
    {
      var b := GetByte();
      if b < 0x80 {
        return b;
      }
      if b < 0xc0 {
        var lo := GetByte();
        return (b as nat - 0x80) * 0x100 + lo;
      }
      if b < 0xe0 {
        var mid := GetByte();
        var low := GetShort();
        return (b as nat - 0xc0) * 0x100_0000 + mid as nat * 0x1_0000 + low;
      }
      var high := GetShort();
      var low := GetShort();
      return high * 0x1_0000 + low;
    }

    method GetOffset() returns (r: nat)
      requires cur <= |buf|
      modifies this
      ensures old(err) ==> err
      ensures !old(err) ==> Follows(ReadOffset(version, old(Rest())), r)
      ensures cur <= |buf|
    {
      if version >= 9 {
        r := GetMulti();
        r := r % 0x1_0000;
      } else {
        r := GetMax2();
      }
    }

    // ----- public functions -----

    /** Collects a name that starts with c, and returns the byte that ends it. */
    method GetName(c: Byte) returns (name: seq<Byte>, last: Byte)
      requires cur <= |buf| && !err
      modifies this
      ensures Follows(ReadName(old(Rest()), c, NAME_MAX), (name, last))
    {
      hide ReadName;
      ghost var goal := ReadName(Rest(), c, NAME_MAX);
      name, last := [], c;
      PrependToTwice([], c, goal);
      while last >= 0x20 && |name| < NAME_MAX
        invariant cur <= |buf| && !err && |name| <= NAME_MAX
        invariant PrependTo(name, ReadName(Rest(), last, NAME_MAX - |name|)) == goal
        decreases |buf| - cur
      {
        NameStep(Rest(), last, NAME_MAX - |name|);
        var next := GetByte();
        if err {
          return;
        }
        PrependToTwice(name, last, ReadName(Rest(), next, NAME_MAX - |name| - 1));
        name := name + [last];
        last := next;
      }
      NameStep(Rest(), last, NAME_MAX - |name|);
      assert name + [] == name;
    }

    method GetNamed(offset: nat) returns (f: Function, last: Byte)
      requires cur <= |buf| && !err
      modifies this
      ensures Follows(ReadNamed(old(Rest()), offset), (f, last))
    {
      hide ReadName;
      f, last := Function([], offset, false, false), 0;
      ghost var start := Rest();
      var c := GetByte();
      if err {
        return;
      }
      var isLocal, isCollision := false, false;
      if c < 0x20 {
        isLocal, isCollision := Has(c, 2), Has(c, 8);
        c := GetByte();
        if err {
          return;
        }
        assert c == start[1] && Rest() == start[2..];
      }
      var name;
      name, last := GetName(c);
      f := Function(Clip(name), offset, isLocal, isCollision);
    }

    /** One turn of the loop over public functions. */
    method GetFunction(prev: nat) returns (f: Function, flags: Byte)
      requires cur <= |buf| && !err
      modifies this
      ensures cur <= |buf|
      ensures var r := ReadFunctions(version, old(Rest()), prev);
              if err then r.Fail?
              else |Rest()| < old(|Rest()|) &&
                   r == if Has(flags, 1) then PrependTo([f], ReadFunctions(version, Rest(), f.offset)) else Ok(([f], flags), Rest())
    {
      hide ReadNamed, ReadOffset;
      f, flags := Function([], 0, false, false), 0;
      var d := GetOffset();
      if err {
        return;
      }
      f, flags := GetNamed((prev + d) % 0x1_0000);
    }

    method GetFunctions() returns (fs: seq<Function>, flags: Byte)
      requires cur <= |buf| && !err
      modifies this
      ensures Follows(ReadFunctions(version, old(Rest()), 0), (fs, flags))
    {
      hide ReadFunctions;
      ghost var goal := ReadFunctions(version, Rest(), 0);
      fs, flags := [], 0;
      var offset := 0;
      PrependToTwice([], Function([], 0, false, false), goal);
      while true
        invariant cur <= |buf| && !err
        invariant PrependTo(fs, ReadFunctions(version, Rest(), offset)) == goal
        decreases |buf| - cur
      {
        var f;
        f, flags := GetFunction(offset);
        if err {
          return;
        }
        offset := f.offset;
        PrependToTwice(fs, f, ReadFunctions(version, Rest(), offset));
        fs := fs + [f];
        if !Has(flags, 1) {
          return;
        }
      }
    }

    // ----- tail bytes and references -----

    method GetCount() returns (n: nat)
      requires cur <= |buf| && !err
      modifies this
      ensures Follows(ReadCount(version, old(Rest())), n)
    {
      n := 1;
      if version >= 8 {
        n := GetByte();
      }
    }

    method GetTails() returns (ts: seq<TailByte>)
      requires cur <= |buf| && !err
      modifies this
      ensures Follows(match ReadCount(version, old(Rest()))
                      case Fail => Fail
                      case Ok(n, bs) => ReadTails(version, bs, n), ts)
    {
      hide ReadOffset;
      ts := [];
      var n := GetCount();
      if err {
        return;
      }
      ghost var goal := ReadTails(version, Rest(), n);
      PrependTwice([], TailByte(0, 0), goal);
      for i := 0 to n
        invariant cur <= |buf| && !err
        invariant Prepend(ts, ReadTails(version, Rest(), n - i)) == goal
      {
        var offset := GetOffset();
        if err {
          return;
        }
        var value := GetByte();
        if err {
          return;
        }
        PrependTwice(ts, TailByte(offset, value), ReadTails(version, Rest(), n - i - 1));
        ts := ts + [TailByte(offset, value)];
      }
      assert ts + [] == ts;
    }

    method GetChars(n: nat) returns (name: seq<Byte>)
      requires cur <= |buf| && !err
      modifies this
      ensures cur <= |buf|
      ensures if n > |old(Rest())| then err else !err && name == old(Rest())[..n] && Rest() == old(Rest())[n..]
    {
      ghost var from := Rest();
      name := [];
      for j := 0 to n
        invariant cur <= |buf| && !err && j <= |from|
        invariant name == from[..j] && Rest() == from[j..]
      {
        var ch := GetByte();
        if err {
          return;
        }
        name := name + [ch];
      }
    }

    method GetReference() returns (x: Reference)
      requires cur <= |buf| && !err
      modifies this
      ensures Follows(ReadReference(version, old(Rest())), x)
    {
      hide ReadOffset, ReadMulti;
      x := Reference([], 0);
      var offset := GetOffset();
      if err {
        return;
      }
      ghost var start := Rest();
      var b := GetByte();
      if err {
        return;
      }
      var n: nat := b;
      if n == 0 {
        n := GetMulti();
        if err {
          return;
        }
      }
      if n >= NAME_MAX {
        err := true;
        return;
      }
      var name := GetChars(n);
      if err {
        return;
      }
      x := Reference(name, offset);
    }

    method GetReferences() returns (xs: seq<Reference>)
      requires cur <= |buf| && !err
      modifies this
      ensures Follows(match ReadCount(version, old(Rest()))
                      case Fail => Fail
                      case Ok(n, bs) => ReadReferences(version, bs, n), xs)
    {
      hide ReadReference;
      xs := [];
      var n := GetCount();
      if err {
        return;
      }
      ghost var goal := ReadReferences(version, Rest(), n);
      PrependTwice([], Reference([], 0), goal);
      for i := 0 to n
        invariant cur <= |buf| && !err
        invariant Prepend(xs, ReadReferences(version, Rest(), n - i)) == goal
      {
        var x := GetReference();
        if err {
          return;
        }
        PrependTwice(xs, x, ReadReferences(version, Rest(), n - i - 1));
        xs := xs + [x];
      }
      assert xs + [] == xs;
    }

    // ----- leaves -----

    method GetModule(crcLength: Byte, crc: nat) returns (m: Module, flags: Byte)
      requires cur <= |buf| && !err
      modifies this
      ensures Follows(ReadModule(version, old(Rest()), crcLength, crc), (m, flags))
    {
      hide ReadOffset, ReadFunctions, ReadTails, ReadReferences, ReadCount;
      m, flags := Module(crcLength, crc, 0, [], [], []), 0;
      var length := GetOffset();
      if err {
        return;
      }
      var fs;
      fs, flags := GetFunctions();
      if err {
        return;
      }
      var ts := [];
      if Has(flags, 2) {
        ts := GetTails();
        if err {
          return;
        }
      }
      var xs := [];
      if Has(flags, 4) {
        xs := GetReferences();
        if err {
          return;
        }
      }
      m := Module(crcLength, crc, length, fs, ts, xs);
    }

    /** The modules that share a checksum. */
    method GetSameCrc(crcLength: Byte, crc: nat, before: seq<Module>, ghost goal: Read<seq<Module>>)
      returns (ms: seq<Module>, flags: Byte)
      requires cur <= |buf| && !err
      requires Prepend(before, ReadModules(version, Rest(), crcLength, crc)) == goal
      modifies this
      ensures cur <= |buf|
      ensures err ==> goal.Fail?
      ensures !err ==> |Rest()| < old(|Rest()|)
                       && goal == if Has(flags, 16) then Prepend(ms, ReadLeaf(version, Rest())) else Ok(ms, Rest())
    {
      hide ReadModule, ReadLeaf, Has;
      ms, flags := before, 0;
      while true
        invariant cur <= |buf| && !err && |Rest()| <= old(|Rest()|)
        invariant Prepend(ms, ReadModules(version, Rest(), crcLength, crc)) == goal
        decreases |buf| - cur
      {
        var m;
        m, flags := GetModule(crcLength, crc);
        if err {
          return;
        }
        PrependTwice(ms, m, ReadModules(version, Rest(), crcLength, crc));
        PrependTwice(ms, m, ReadLeaf(version, Rest()));
        ms := ms + [m];
        if !Has(flags, 8) {
          return;
        }
      }
    }

    method ParseLeaf() returns (ms: seq<Module>)
      requires cur <= |buf| && !err
      modifies this
      ensures Follows(ReadLeaf(version, old(Rest())), ms)
    {
      hide ReadModules, Has;
      ghost var goal := ReadLeaf(version, Rest());
      ms := [];
      PrependTwice([], Module(0, 0, 0, [], [], []), goal);
      while true
        invariant cur <= |buf| && !err
        invariant Prepend(ms, ReadLeaf(version, Rest())) == goal
        decreases |buf| - cur
      {
        ghost var start := Rest();
        var crcLength := GetByte();
        var crc := GetShort();
        if err {
          return;
        }
        assert Rest() == start[3..];
        var flags;
        ms, flags := GetSameCrc(crcLength, crc, ms, goal);
        if err {
          return;
        }
        if !Has(flags, 16) {
          return;
        }
      }
    }

    // ----- nodes -----

    method GetMask(length: Byte) returns (mask: nat)
      requires cur <= |buf| && !err
      modifies this
      ensures Follows(ReadMask(length, old(Rest())), mask)
    {
      hide ReadMulti, ReadMax2;
      mask := 0;
      if length < 0x10 {
        mask := GetMax2();
      } else if length <= 0x20 {
        mask := GetMulti();
      } else if length <= 0x40 {
        var hi := GetMulti();
        var lo := GetMulti();
        mask := hi * 0x1_0000_0000 + lo;
      }
    }

    method GetPattern(mask: nat, length: nat) returns (p: Pattern)
      requires cur <= |buf| && !err
      modifies this
      ensures Follows(ReadPattern(mask, length, old(Rest())), p)
    {
      hide Pow2;
      ghost var goal := ReadPattern(mask, length, Rest());
      p := [];
      PrependTwice([], None, goal);
      for i := 0 to length
        invariant cur <= |buf| && !err
        invariant Prepend(p, ReadPattern(mask, length - i, Rest())) == goal
      {
        if mask / Pow2(length - i - 1) % 2 == 1 {
          PrependTwice(p, None, ReadPattern(mask, length - i - 1, Rest()));
          p := p + [None];
        } else {
          var b := GetByte();
          if err {
            return;
          }
          PrependTwice(p, Some(b), ReadPattern(mask, length - i - 1, Rest()));
          p := p + [Some(b)];
        }
      }
      assert p + [] == p;
    }

    method GetHeader() returns (p: Pattern)
      requires cur <= |buf| && !err
      modifies this
      ensures Follows(ReadHeader(old(Rest())), p)
    {
      hide ReadMask, ReadPattern;
      p := [];
      var length := GetByte();
      if err {
        return;
      }
      var mask := GetMask(length);
      if err {
        return;
      }
      p := GetPattern(mask, length);
    }

    /** Parses a tree; on every buffer it ends, and either fails or returns the tree that
        the bytes describe. */
    method ParseTree() returns (t: Tree)
      requires cur <= |buf| && !err
      modifies this
      ensures Follows(ReadTree(version, old(Rest())), t)
      decreases |buf| - cur, 1
    {
      hide ReadMulti, ReadLeaf, ReadNodes;
      t := Leaf([]);
      var count := GetMulti();
      if err {
        return;
      }
      if count == 0 {
        var ms := ParseLeaf();
        t := Leaf(ms);
        return;
      }
      var ns := ParseNodes(if count < 0x8000_0000 then count else 0);
      t := Branch(ns);
    }

    method ParseNodes(count: nat) returns (ns: seq<Node>)
      requires cur <= |buf| && !err
      modifies this
      ensures Follows(ReadNodes(version, old(Rest()), count), ns)
      decreases |buf| - cur, 2
    {
      hide ReadHeader, ReadTree;
      ghost var goal := ReadNodes(version, Rest(), count);
      ns := [];
      PrependTwice([], Node([], Leaf([])), goal);
      for i := 0 to count
        invariant cur <= |buf| && !err && old(cur) <= cur
        invariant Prepend(ns, ReadNodes(version, Rest(), count - i)) == goal
      {
        var p := GetHeader();
        if err {
          return;
        }
        var t := ParseTree();
        if err {
          return;
        }
        PrependTwice(ns, Node(p, t), ReadNodes(version, Rest(), count - i - 1));
        ns := ns + [Node(p, t)];
      }
      assert ns + [] == ns;
    }
  }

  // ----- matching -----

  /** Eight steps of the checksum for one byte. */
  method CrcOfByte(crc: nat, b: Byte) returns (r: nat)
    requires crc < 0x1_0000
    ensures r < 0x1_0000 && r == CrcBits(crc, b, 8)
  {
    hide Xor;
    r := crc;
    var data: nat := b;
    for i := 0 to 8
      invariant r < 0x1_0000 && CrcBits(r, data, 8 - i) == CrcBits(crc, b, 8)
    {
      r := CrcBit(r, data);
      data := data / 2;
    }
  }

  method Crc(bs: seq<Byte>) returns (r: nat)
    ensures r == Crc16(bs)
  {
    hide CrcBits;
    if bs == [] {
      return 0;
    }
    var crc := 0xffff;
    for i := 0 to |bs|
      invariant crc < 0x1_0000 && CrcBytes(crc, bs[i..]) == CrcBytes(0xffff, bs)
    {
      assert bs[i..][1..] == bs[i + 1..];
      crc := CrcOfByte(crc, bs[i]);
    }
    var c := 0xffff - crc;
    return c % 0x100 * 0x100 + c / 0x100;
  }

  method MatchModule(m: Module, buf: seq<Byte>) returns (ok: bool)
    ensures ok == ModuleMatches(m, buf)
  {
    hide Crc16;
    if 32 + m.crcLength as nat < |buf| {
      var crc := Crc(buf[32..32 + m.crcLength as nat]);
      if m.crc != crc {
        return false;
      }
    }
    for i := 0 to |m.tails|
      invariant forall k :: 0 <= k < i ==> TailMatches(m.tails[k], m.crcLength, buf)
    {
      if !TailMatches(m.tails[i], m.crcLength, buf) {
        return false;
      }
    }
    return true;
  }

  method MatchPattern(p: Pattern, buf: seq<Byte>, at: nat) returns (ok: bool)
    requires at + |p| <= |buf|
    ensures ok == PatternMatches(p, buf, at)
  {
    for i := 0 to |p|
      invariant forall k :: 0 <= k < i ==> p[k].None? || p[k].value == buf[at + k]
    {
      if p[i].Some? && p[i].value != buf[at + i] {
        return false;
      }
    }
    return true;
  }

  /** Tries the modules of a leaf in turn. */
  method MatchLeaf(ms: seq<Module>, buf: seq<Byte>) returns (found: Option<Module>)
    ensures found == FirstModule(ms, buf)
  {
    hide ModuleMatches;
    for i := 0 to |ms|
      invariant FirstModule(ms[i..], buf) == FirstModule(ms, buf)
    {
      assert ms[i..][1..] == ms[i + 1..];
      var ok := MatchModule(ms[i], buf);
      if ok {
        return Some(ms[i]);
      }
    }
    return None;
  }

  /** Descends into every child whose pattern matches, until a module applies. */
  method MatchBelow(t: Tree, buf: seq<Byte>, at: nat) returns (found: Option<Module>)
    requires TreeWithin(t, at, |buf|)
    ensures found == MatchTree(t, buf, at)
    decreases t
  {
    hide PatternMatches;
    if t.Leaf? {
      found := MatchLeaf(t.modules, buf);
      return;
    }
    var ns := t.children;
    for i := 0 to |ns|
      invariant NodesWithin(ns[i..], at, |buf|) && MatchNodes(ns[i..], buf, at) == MatchTree(t, buf, at)
    {
      assert ns[i..][1..] == ns[i + 1..];
      var ok := MatchPattern(ns[i].pattern, buf, at);
      if ok {
        found := MatchBelow(ns[i].tree, buf, at + |ns[i].pattern|);
        if found.Some? {
          return;
        }
      }
    }
    return None;
  }

  /** The search of a buffer is the scan of the signature's paths. */
  method Search(root: Tree, buf: seq<Byte>) returns (found: Option<Module>)
    requires TreeWithin(root, 0, |buf|)
    ensures found == Scan(Paths(root, []), buf)
  {
    found := MatchBelow(root, buf, 0);
    SearchIsScan(root, buf);
  }
}
