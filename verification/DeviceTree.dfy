/** The flattened-device-tree reader: one scan over the structure block, with three uses. */
module DeviceTree {
  import opened Errors
  import Bits
  import opened BigEndian

  type Bytes = seq<nat>

  const MAX_DT_DEPTH: nat := 32
  const FDT_BEGIN_NODE: nat := 1
  const FDT_END_NODE: nat := 2
  const FDT_PROP: nat := 3
  const FDT_NOP: nat := 4
  const FDT_END: nat := 9
  const SLASH: nat := 0x2F

  // blob: the bytes from the base address to totalsize. All offsets count from the base.
  // utf8: the string check of the language's library.
  datatype Parser = Parser(blob: Bytes, offStruct: nat, sizeStruct: nat, offStrings: nat, utf8: Bytes -> bool)

  // A callback sees every call so far, the present one last.
  datatype Visit = Visit(path: Bytes, pos: nat, depth: nat)
  type Callback = seq<Visit> -> Result<bool>

  // The bytes of a word of the structure block.
  function Width(): nat { 4 }

  // ----- reading -----

  function ReadBe(b: Bytes, o: nat, k: nat): nat
    requires o + k <= |b|
    decreases k
  {
    if k == 0 then 0 else ReadBe(b, o, k - 1) * 256 + b[o + k - 1]
  }

  function ReadU32(p: Parser, o: nat): Option<nat> {
    if o + 4 > |p.blob| then None
    else Some(ReadBe(p.blob, o, Width()))
  }

  // The number of bytes before the first zero from o + len on; strings longer than 256 are refused.
  function StringLen(p: Parser, o: nat, len: nat): (r: Option<nat>)
    ensures r.Some? ==> o + r.value < |p.blob|
    decreases |p.blob| - (o + len)
  {
    if o + len >= |p.blob| then None
    else if p.blob[o + len] == 0 then Some(len)
    else if len + 1 > 256 then None
    else StringLen(p, o, len + 1)
  }

  function ReadString(p: Parser, o: nat): Option<Bytes> {
    match StringLen(p, o, 0)
    case None => None
    case Some(len) => if p.utf8(p.blob[o..o + len]) then Some(p.blob[o..o + len]) else None
  }

  // (n + 3) & !3, by RoundUpIsMask
  function RoundUp(n: nat): nat {
    (n + 3) - (n + 3) % 4
  }

  lemma RoundUpIsMask(n: nat)
    requires n + 3 < Bits.Pow2(64)
    ensures 3 < Bits.Pow2(64) && Bits.And(n + 3, Bits.Not(64, 3)) == RoundUp(n)
  {
    Bits.Pow2Words();
    Bits.ClearLowBits(n + 3, 2, 64);
  }

  // A slice the readers make without looking at the end of the blob: its bytes, or where it lies outside.
  datatype Value = Inside(bytes: Bytes) | Outside(at: nat, len: nat)

  function Slice(b: Bytes, from: nat, len: nat): Value {
    if from + len <= |b| then Inside(b[from..from + len]) else Outside(from, len)
  }

  // ----- paths -----

  function Join(path: Bytes, name: Bytes, depth: nat): Bytes {
    if path != [] && depth > 0 then path + [SLASH] + name else path + name
  }

  // Cut at the last slash, or to nothing.
  function Parent(path: Bytes): Bytes {
    if path == [] then []
    else if path[|path| - 1] == SLASH then path[..|path| - 1]
    else Parent(path[..|path| - 1])
  }

  // Leaving a node takes exactly its own name off the path.
  lemma {:induction false} ParentOfJoin(path: Bytes, name: Bytes, depth: nat)
    requires SLASH !in name && (depth == 0 ==> path == [])
    ensures Join(path, name, depth) == (if path != [] && depth > 0 then path + [0x2F] + name else path + name)
    ensures Parent(Join(path, name, depth)) == path
    decreases |name|
  {
    var j := Join(path, name, depth);
    if name == [] {
      assert path != [] ==> j[..|j| - 1] == path;
    } else {
      var short := name[..|name| - 1];
      assert j[|j| - 1] == name[|name| - 1];
      assert j[..|j| - 1] == Join(path, short, depth);
      ParentOfJoin(path, short, depth);
    }
  }

  // ----- the three uses -----

  datatype Use =
    | WalkNodes(callback: Callback)
    | ReadProperty(nodePath: Bytes, propName: Bytes)
    | AllProperties(nodePath: Bytes)

  datatype State = State(
    trace: seq<Visit>, result: Result<()>,      // walk_nodes
    inTarget: bool,                             // the other two
    found: Option<Value>, all: seq<(Bytes, Value)>)

  const START: State := State([], Ok(()), false, None, [])

  datatype Flow = Go(st: State) | Halt(st: State)

  function Enter(use: Use, st: State, path: Bytes, pos: nat, depth: nat): Flow {
    match use
    case WalkNodes(callback) =>
      if depth > MAX_DT_DEPTH then Halt(st.(result := Err(BadAddress)))
      else
        var trace := st.trace + [Visit(path, pos, depth)];
        (match callback(trace)
         case Err(e) => Halt(st.(trace := trace, result := Err(e)))
         case Ok(more) => if more then Go(st.(trace := trace)) else Halt(st.(trace := trace)))
    case ReadProperty(nodePath, _) => Go(st.(inTarget := path == nodePath))
    case AllProperties(nodePath) => Go(st.(inTarget := path == nodePath))
  }

  function Leave(use: Use, st: State): State {
    if use.WalkNodes? then st else st.(inTarget := false)
  }

  function Property(p: Parser, use: Use, st: State, nameoff: nat, data: nat, len: nat): Flow {
    if !st.inTarget then Go(st)
    else match use
      case WalkNodes(_) => Go(st)
      case ReadProperty(_, propName) =>
        if ReadString(p, p.offStrings + nameoff) == Some(propName) then Halt(st.(found := Some(Slice(p.blob, data, len)))) else Go(st)
      case AllProperties(_) =>
        match ReadString(p, p.offStrings + nameoff)
        case None => Go(st)
        case Some(name) => Go(st.(all := st.all + [(name, Slice(p.blob, data, len))]))
  }

  // How a scan ends: at the end of the block or its end token, by its user, or on bytes it cannot read.
  datatype End = Finished(st: State, depth: nat) | Halted(st: State) | Malformed(st: State)

  datatype Move = Done(end: End) | On(off: nat, depth: nat, path: Bytes, st: State)

  // One pass of the scanning loop, at offset `off` of the structure block.
  function Pass(p: Parser, use: Use, off: nat, depth: nat, path: Bytes, st: State): (m: Move)
    ensures m.On? ==> off < m.off && off < p.sizeStruct
  {
    if off >= p.sizeStruct then Done(Finished(st, depth))
    else
      var token := ReadU32(p, p.offStruct + off);
      var o := off + 4;
      if token == Some(FDT_BEGIN_NODE) then
        match ReadString(p, p.offStruct + o)
        case None => Done(Malformed(st))
        case Some(name) =>
          var inside := o + RoundUp(|name| + 1);
          (match Enter(use, st, Join(path, name, depth), p.offStruct + inside, depth + 1)
           case Halt(st') => Done(Halted(st'))
           case Go(st') => On(inside, depth + 1, Join(path, name, depth), st'))
      else if token == Some(FDT_END_NODE) then
        if depth == 0 then Done(Malformed(st)) else On(o, depth - 1, Parent(path), Leave(use, st))
      else if token == Some(FDT_PROP) then
        match (ReadU32(p, p.offStruct + o), ReadU32(p, p.offStruct + o + 4))
        case (Some(len), Some(nameoff)) =>
          (match Property(p, use, st, nameoff, p.offStruct + o + 8, len)
           case Halt(st') => Done(Halted(st'))
           case Go(st') => On(o + 8 + RoundUp(len), depth, path, st'))
        case _ => Done(Malformed(st))
      else if token == Some(FDT_NOP) then On(o, depth, path, st)
      else if token == Some(FDT_END) then Done(Finished(st, depth))
      else Done(Malformed(st))
  }

  // One pass after another.
  function Scan(p: Parser, use: Use, off: nat, depth: nat, path: Bytes, st: State): End
    decreases if off < p.sizeStruct then p.sizeStruct - off else 0
  {
    match Pass(p, use, off, depth, path, st)
    case Done(e) => e
    case On(off', depth', path', st') => Scan(p, use, off', depth', path', st')
  }

  // ----- device trees and their flat form -----

  // What may stand before a node's children: properties, and tokens that mean nothing.
  datatype Item = Nop | Prop(nameoff: nat, value: Bytes)

  datatype Node = Node(name: Bytes, items: seq<Item>, kids: Kids)

  // The children in order, each followed by some tokens that mean nothing.
  datatype Kids = NoKids | Kid(node: Node, nops: nat, rest: Kids)

  function Be32(n: nat): Bytes {
    ToBytes(n, Width())
  }

  function Zeros(n: nat): Bytes {
    seq(n, _ => 0)
  }

  // Padded with zeros to a multiple of four.
  function Padded(b: Bytes): Bytes {
    b + Zeros(RoundUp(|b|) - |b|)
  }

  function Nops(n: nat): Bytes {
    if n == 0 then [] else Be32(FDT_NOP) + Nops(n - 1)
  }

  function FlattenItem(item: Item): Bytes {
    match item
    case Nop => Be32(FDT_NOP)
    case Prop(nameoff, value) => Be32(FDT_PROP) + (Be32(|value|) + (Be32(nameoff) + Padded(value)))
  }

  function FlattenItems(items: seq<Item>): Bytes {
    if items == [] then [] else FlattenItem(items[0]) + FlattenItems(items[1..])
  }

  // Section 5.4 of the Devicetree Specification.
  function Flatten(node: Node): Bytes {
    Be32(FDT_BEGIN_NODE) + (Padded(node.name + [0]) + (FlattenItems(node.items) + (FlattenKids(node.kids) + Be32(FDT_END_NODE))))
  }

  function FlattenKids(kids: Kids): Bytes {
    match kids
    case NoKids => []
    case Kid(node, nops, rest) => Flatten(node) + (Nops(nops) + FlattenKids(rest))
  }

  // A word, most significant byte first.
  lemma WordIs(n: nat)
    requires n < 0x1_0000_0000
    ensures Be32(n) == [n / 0x100_0000, n / 0x1_0000 % 256, n / 0x100 % 256, n % 256]
  {
    FourBytes(n, [0, 0, 0, 0]);
    assert n / 0x100_0000 % 256 == n / 0x100_0000;
  }

  lemma PaddedIs(b: Bytes)
    ensures |Padded(b)| % 4 == 0 && |b| <= |Padded(b)| < |b| + 4 && b <= Padded(b) && forall k :: |b| <= k < |Padded(b)| ==> Padded(b)[k] == 0
  {
  }

  // The tokens in bytes: 1 begins a node, 2 ends it, 3 is a property with its length and the offset of its name, 4
  // means nothing, and 9, at the end of the block, ends the tree. Names end with a zero, and names and values are
  // filled up with zeros to a multiple of four.
  lemma FlattenIs(node: Node, nameoff: nat, value: Bytes, b: Bytes)
    ensures Flatten(node) ==
              [0, 0, 0, 1] + (Padded(node.name + [0]) + (FlattenItems(node.items) + (FlattenKids(node.kids) + [0, 0, 0, 2])))
    ensures FlattenItem(Prop(nameoff, value)) == [0, 0, 0, 3] + (Be32(|value|) + (Be32(nameoff) + Padded(value)))
    ensures FlattenItem(Nop) == [0, 0, 0, 4] == Nops(1) && Be32(FDT_END) == [0, 0, 0, 9]
    ensures |Padded(b)| % 4 == 0 && |b| <= |Padded(b)| < |b| + 4 && b <= Padded(b) && forall k :: |b| <= k < |Padded(b)| ==> Padded(b)[k] == 0
  {
    PaddedIs(b);
    TokensAre();
    assert Nops(0) == [] && Nops(1) == Be32(FDT_NOP) + Nops(0);
  }

  lemma TokensAre()
    ensures Be32(FDT_BEGIN_NODE) == [0, 0, 0, 1] && Be32(FDT_END_NODE) == [0, 0, 0, 2] && Be32(FDT_PROP) == [0, 0, 0, 3]
    ensures Be32(FDT_NOP) == [0, 0, 0, 4] && Be32(FDT_END) == [0, 0, 0, 9]
  {
    WordIs(1);
    WordIs(2);
    WordIs(3);
    WordIs(4);
    WordIs(9);
  }

  // Names are short strings without a slash; numbers fit 32 bits.
  predicate NameOk(p: Parser, name: Bytes) {
    |name| <= 256 && SLASH !in name && 0 !in name && p.utf8(name)
  }

  predicate ItemsOk(items: seq<Item>) {
    forall i :: 0 <= i < |items| && items[i].Prop? ==> |items[i].value| < 0x1_0000_0000 && items[i].nameoff < 0x1_0000_0000
  }

  predicate NodeOk(p: Parser, node: Node) {
    NameOk(p, node.name) && ItemsOk(node.items) && KidsOk(p, node.kids)
  }

  predicate KidsOk(p: Parser, kids: Kids) {
    match kids
    case NoKids => true
    case Kid(node, _, rest) => NodeOk(p, node) && KidsOk(p, rest)
  }

  // ----- sizes in the structure block -----

  function NameSize(name: Bytes): nat {
    4 + RoundUp(|name| + 1)
  }

  function ItemSize(item: Item): nat {
    match item
    case Nop => 4
    case Prop(_, value) => 12 + RoundUp(|value|)
  }

  function ItemsSize(items: seq<Item>): nat {
    if items == [] then 0 else ItemSize(items[0]) + ItemsSize(items[1..])
  }

  function NodeSize(node: Node): nat {
    NameSize(node.name) + ItemsSize(node.items) + KidsSize(node.kids) + 4
  }

  function KidsSize(kids: Kids): nat {
    match kids
    case NoKids => 0
    case Kid(node, nops, rest) => NodeSize(node) + 4 * nops + KidsSize(rest)
  }

  // ----- what a use makes of a tree, node by node -----

  function FoldItems(p: Parser, use: Use, items: seq<Item>, off: nat, st: State): Flow
    decreases |items|
  {
    if items == [] then Go(st)
    else match items[0]
      case Nop => FoldItems(p, use, items[1..], off + ItemSize(items[0]), st)
      case Prop(nameoff, value) =>
        match Property(p, use, st, nameoff, p.offStruct + off + 12, |value|)
        case Halt(st') => Halt(st')
        case Go(st') => FoldItems(p, use, items[1..], off + ItemSize(items[0]), st')
  }

  function FoldNode(p: Parser, use: Use, node: Node, off: nat, depth: nat, path: Bytes, st: State): Flow
    decreases node, 1
  {
    var inside := off + NameSize(node.name);
    var own := Join(path, node.name, depth);
    match Enter(use, st, own, p.offStruct + inside, depth + 1)
    case Halt(s1) => Halt(s1)
    case Go(s1) =>
      match FoldItems(p, use, node.items, inside, s1)
      case Halt(s2) => Halt(s2)
      case Go(s2) =>
        match FoldKids(p, use, node.kids, inside + ItemsSize(node.items), depth + 1, own, s2)
        case Halt(s3) => Halt(s3)
        case Go(s3) => Go(Leave(use, s3))
  }

  function FoldKids(p: Parser, use: Use, kids: Kids, off: nat, depth: nat, path: Bytes, st: State): Flow
    decreases kids, 0
  {
    match kids
    case NoKids => Go(st)
    case Kid(node, nops, rest) =>
      match FoldNode(p, use, node, off, depth, path, st)
      case Halt(s1) => Halt(s1)
      case Go(s1) => FoldKids(p, use, rest, off + NodeSize(node) + 4 * nops, depth, path, s1)
  }

  // ----- the scan reads the tree back -----

  ghost predicate HasAt(b: Bytes, pos: nat, s: Bytes) {
    pos + |s| <= |b| && forall k {:trigger s[k]} :: 0 <= k < |s| ==> b[pos + k] == s[k]
  }

  // The scan as a value, so that a proof can speak of it without unfolding it.
  type Scanner = (nat, nat, Bytes, State) -> End

  ghost predicate IsScan(f: Scanner, p: Parser, use: Use) {
    forall off: nat, depth: nat, path, st {:trigger Scan(p, use, off, depth, path, st)} ::
      f(off, depth, path, st) == Scan(p, use, off, depth, path, st)
  }

  lemma HasAtSplit(b: Bytes, pos: nat, s: Bytes, t: Bytes)
    requires HasAt(b, pos, s + t)
    ensures HasAt(b, pos, s) && HasAt(b, pos + |s|, t)
  {
    forall k | 0 <= k < |s| ensures b[pos + k] == s[k] { assert (s + t)[k] == s[k]; }
    forall k | 0 <= k < |t| ensures b[pos + |s| + k] == t[k] { assert (s + t)[|s| + k] == t[k]; }
  }

  lemma HasAtSplit4(b: Bytes, pos: nat, s1: Bytes, s2: Bytes, s3: Bytes, s4: Bytes)
    requires HasAt(b, pos, s1 + (s2 + (s3 + s4)))
    ensures HasAt(b, pos, s1) && HasAt(b, pos + |s1|, s2) && HasAt(b, pos + |s1| + |s2|, s3)
    ensures HasAt(b, pos + |s1| + |s2| + |s3|, s4)
  {
    HasAtSplit(b, pos, s1, s2 + (s3 + s4));
    HasAtSplit(b, pos + |s1|, s2, s3 + s4);
    HasAtSplit(b, pos + |s1| + |s2|, s3, s4);
  }

  lemma {:induction false} ReadBeBack(b: Bytes, o: nat, n: nat, k: nat)
    requires n < Limit(k) && HasAt(b, o, ToBytes(n, k))
    ensures ReadBe(b, o, k) == n
    decreases k
  {
    if k > 0 {
      HasAtSplit(b, o, ToBytes(n / 256, k - 1), [n % 256]);
      ReadBeBack(b, o, n / 256, k - 1);
      assert b[o + k - 1] == [n % 256][0];
    }
  }

  lemma ReadBack(p: Parser, o: nat, n: nat)
    requires n < 0x1_0000_0000 && HasAt(p.blob, o, Be32(n))
    ensures ReadU32(p, o) == Some(n)
  {
    assert Limit(1) == 256 && Limit(2) == 0x1_0000 && Limit(3) == 0x100_0000 && Limit(4) == 0x1_0000_0000;
    ReadBeBack(p.blob, o, n, Width());
  }

  lemma {:induction false} NameLen(p: Parser, o: nat, name: Bytes, len: nat)
    requires |name| <= 256 && 0 !in name && HasAt(p.blob, o, name + [0]) && len <= |name|
    ensures StringLen(p, o, len) == Some(|name|)
    decreases |name| - len
  {
    var s := name + [0];
    assert p.blob[o + len] == s[len];
    if len < |name| {
      assert s[len] in name;
      NameLen(p, o, name, len + 1);
    }
  }

  lemma ReadName(p: Parser, o: nat, name: Bytes)
    requires NameOk(p, name) && HasAt(p.blob, o, Padded(name + [0]))
    ensures ReadString(p, o) == Some(name)
  {
    HasAtSplit(p.blob, o, name + [0], Zeros(RoundUp(|name + [0]|) - |name + [0]|));
    NameLen(p, o, name, 0);
    HasAtSplit(p.blob, o, name, [0]);
    assert p.blob[o..o + |name|] == name;
  }

  // The two read functions as values.
  datatype Reader = Reader(word: nat -> Option<nat>, str: nat -> Option<Bytes>)

  ghost predicate IsReader(r: Reader, p: Parser) {
    && (forall o: nat {:trigger ReadU32(p, o)} :: r.word(o) == ReadU32(p, o))
    && (forall o: nat {:trigger ReadString(p, o)} :: r.str(o) == ReadString(p, o))
  }

  // ----- one pass, token by token -----

  lemma ScanOnce(f: Scanner, p: Parser, use: Use, off: nat, depth: nat, path: Bytes, st: State)
    requires IsScan(f, p, use)
    ensures f(off, depth, path, st) ==
              match Pass(p, use, off, depth, path, st)
              case Done(e) => e
              case On(off', depth', path', st') => f(off', depth', path', st')
  {
    var end := Scan(p, use, off, depth, path, st);
    var m := Pass(p, use, off, depth, path, st);
    if m.On? { assert end == Scan(p, use, m.off, m.depth, m.path, m.st); }
  }

  // No bytes left, or the end token.
  lemma AtStop(f: Scanner, r: Reader, p: Parser, use: Use, off: nat, depth: nat, path: Bytes, st: State)
    requires IsScan(f, p, use) && IsReader(r, p) && (off >= p.sizeStruct || r.word(p.offStruct + off) == Some(FDT_END))
    ensures f(off, depth, path, st) == Finished(st, depth)
  {
    ScanOnce(f, p, use, off, depth, path, st);
  }

  predicate IsToken(n: nat) {
    n == FDT_BEGIN_NODE || n == FDT_END_NODE || n == FDT_PROP || n == FDT_NOP || n == FDT_END
  }

  lemma AtBad(f: Scanner, r: Reader, p: Parser, use: Use, off: nat, depth: nat, path: Bytes, st: State)
    requires IsScan(f, p, use) && IsReader(r, p) && off < p.sizeStruct
    requires var token := r.word(p.offStruct + off); token.None? || !IsToken(token.value)
    ensures f(off, depth, path, st) == Malformed(st)
  {
    ScanOnce(f, p, use, off, depth, path, st);
  }

  lemma AtNop(f: Scanner, r: Reader, p: Parser, use: Use, off: nat, depth: nat, path: Bytes, st: State)
    requires IsScan(f, p, use) && IsReader(r, p) && off < p.sizeStruct && r.word(p.offStruct + off) == Some(FDT_NOP)
    ensures f(off, depth, path, st) == f(off + 4, depth, path, st)
  {
    ScanOnce(f, p, use, off, depth, path, st);
  }

  lemma AtBegin(f: Scanner, r: Reader, p: Parser, use: Use, off: nat, depth: nat, path: Bytes, st: State, name: Option<Bytes>)
    requires IsScan(f, p, use) && IsReader(r, p) && off < p.sizeStruct && r.word(p.offStruct + off) == Some(FDT_BEGIN_NODE)
    requires name == r.str(p.offStruct + off + 4)
    ensures f(off, depth, path, st) ==
              match name
              case None => Malformed(st)
              case Some(name) =>
                var (inside, own) := (off + NameSize(name), Join(path, name, depth));
                match Enter(use, st, own, p.offStruct + inside, depth + 1)
                case Halt(s) => Halted(s)
                case Go(s) => f(inside, depth + 1, own, s)
  {
    assert ReadU32(p, p.offStruct + off) == Some(FDT_BEGIN_NODE) && ReadString(p, p.offStruct + (off + 4)) == name;
    PassBegin(p, use, off, depth, path, st, name);
    ScanOnce(f, p, use, off, depth, path, st);
  }

  lemma PassBegin(p: Parser, use: Use, off: nat, depth: nat, path: Bytes, st: State, name: Option<Bytes>)
    requires off < p.sizeStruct && ReadU32(p, p.offStruct + off) == Some(FDT_BEGIN_NODE) && ReadString(p, p.offStruct + (off + 4)) == name
    ensures Pass(p, use, off, depth, path, st) ==
              match name
              case None => Done(Malformed(st))
              case Some(name) =>
                var (inside, own) := (off + NameSize(name), Join(path, name, depth));
                match Enter(use, st, own, p.offStruct + inside, depth + 1)
                case Halt(s) => Done(Halted(s))
                case Go(s) => On(inside, depth + 1, own, s)
  {
  }

  lemma AtBeginTarget(f: Scanner, r: Reader, p: Parser, use: Use, off: nat, depth: nat, path: Bytes, st: State, name: Option<Bytes>)
    requires IsScan(f, p, use) && IsReader(r, p) && off < p.sizeStruct && r.word(p.offStruct + off) == Some(FDT_BEGIN_NODE)
    requires name == r.str(p.offStruct + off + 4) && !use.WalkNodes?
    ensures f(off, depth, path, st) ==
              match name
              case None => Malformed(st)
              case Some(name) =>
                f(off + 4 + RoundUp(|name| + 1), depth + 1, Join(path, name, depth), st.(inTarget := Join(path, name, depth) == use.nodePath))
  {
    AtBegin(f, r, p, use, off, depth, path, st, name);
  }

  lemma AtEnd(f: Scanner, r: Reader, p: Parser, use: Use, off: nat, depth: nat, path: Bytes, st: State)
    requires IsScan(f, p, use) && IsReader(r, p) && off < p.sizeStruct && r.word(p.offStruct + off) == Some(FDT_END_NODE)
    ensures f(off, depth, path, st) == if depth == 0 then Malformed(st) else f(off + 4, depth - 1, Parent(path), Leave(use, st))
  {
    ScanOnce(f, p, use, off, depth, path, st);
  }

  lemma AtProp(f: Scanner, r: Reader, p: Parser, use: Use, off: nat, depth: nat, path: Bytes, st: State, len: Option<nat>, nameoff: Option<nat>)
    requires IsScan(f, p, use) && IsReader(r, p) && off < p.sizeStruct && r.word(p.offStruct + off) == Some(FDT_PROP)
    requires len == r.word(p.offStruct + off + 4) && nameoff == r.word(p.offStruct + off + 8)
    ensures f(off, depth, path, st) ==
              if len.None? || nameoff.None? then Malformed(st)
              else match Property(p, use, st, nameoff.value, p.offStruct + off + 12, len.value)
                case Halt(s) => Halted(s)
                case Go(s) => f(off + 12 + RoundUp(len.value), depth, path, s)
  {
    ScanOnce(f, p, use, off, depth, path, st);
  }

  lemma AtPropFind(f: Scanner, r: Reader, p: Parser, use: Use, off: nat, depth: nat, path: Bytes, st: State, len: Option<nat>, nameoff: Option<nat>)
    requires IsScan(f, p, use) && IsReader(r, p) && off < p.sizeStruct && r.word(p.offStruct + off) == Some(FDT_PROP) && use.ReadProperty?
    requires len == r.word(p.offStruct + off + 4) && nameoff == r.word(p.offStruct + off + 8)
    ensures f(off, depth, path, st) ==
              if len.None? || nameoff.None? then Malformed(st)
              else if st.inTarget && r.str(p.offStrings + nameoff.value) == Some(use.propName)
              then Halted(st.(found := Some(Slice(p.blob, p.offStruct + off + 12, len.value))))
              else f(off + 12 + RoundUp(len.value), depth, path, st)
  {
    AtProp(f, r, p, use, off, depth, path, st, len, nameoff);
  }

  lemma AtPropList(f: Scanner, r: Reader, p: Parser, use: Use, off: nat, depth: nat, path: Bytes, st: State, len: Option<nat>, nameoff: Option<nat>)
    requires IsScan(f, p, use) && IsReader(r, p) && off < p.sizeStruct && r.word(p.offStruct + off) == Some(FDT_PROP) && use.AllProperties?
    requires len == r.word(p.offStruct + off + 4) && nameoff == r.word(p.offStruct + off + 8)
    ensures f(off, depth, path, st) ==
              if len.None? || nameoff.None? then Malformed(st)
              else
                var name := if st.inTarget then r.str(p.offStrings + nameoff.value) else None;
                var value := Slice(p.blob, p.offStruct + off + 12, len.value);
                f(off + 12 + RoundUp(len.value), depth, path, if name.Some? then st.(all := st.all + [(name.value, value)]) else st)
  {
    AtProp(f, r, p, use, off, depth, path, st, len, nameoff);
  }

  // ----- what the reader finds where a tree has been laid down -----

  ghost predicate TokenAt(r: Reader, p: Parser, off: nat, token: nat) {
    r.word(p.offStruct + off) == Some(token)
  }

  ghost predicate NopsAt(r: Reader, p: Parser, off: nat, n: nat)
    decreases n
  {
    n == 0 || (TokenAt(r, p, off, FDT_NOP) && NopsAt(r, p, off + 4, n - 1))
  }

  ghost predicate ItemAt(r: Reader, p: Parser, off: nat, item: Item) {
    match item
    case Nop => TokenAt(r, p, off, FDT_NOP)
    case Prop(nameoff, value) =>
      && TokenAt(r, p, off, FDT_PROP) && TokenAt(r, p, off + 4, |value|) && TokenAt(r, p, off + 8, nameoff)
      && Slice(p.blob, p.offStruct + off + 12, |value|) == Inside(value)
  }

  ghost predicate ItemsAt(r: Reader, p: Parser, off: nat, items: seq<Item>)
    decreases |items|
  {
    items == [] || (ItemAt(r, p, off, items[0]) && ItemsAt(r, p, off + ItemSize(items[0]), items[1..]))
  }

  ghost predicate NodeAt(r: Reader, p: Parser, off: nat, node: Node)
    decreases node, 1
  {
    var inside := off + NameSize(node.name);
    var after := inside + ItemsSize(node.items);
    && TokenAt(r, p, off, FDT_BEGIN_NODE) && r.str(p.offStruct + off + 4) == Some(node.name)
    && ItemsAt(r, p, inside, node.items) && KidsAt(r, p, after, node.kids)
    && TokenAt(r, p, after + KidsSize(node.kids), FDT_END_NODE)
  }

  ghost predicate KidsAt(r: Reader, p: Parser, off: nat, kids: Kids)
    decreases kids, 0
  {
    match kids
    case NoKids => true
    case Kid(node, nops, rest) =>
      NodeAt(r, p, off, node) && NopsAt(r, p, off + NodeSize(node), nops) && KidsAt(r, p, off + NodeSize(node) + 4 * nops, rest)
  }

  // The flattening functions as values.
  datatype Flat = Flat(item: Item -> Bytes, items: seq<Item> -> Bytes, node: Node -> Bytes, kids: Kids -> Bytes, nops: nat -> Bytes)

  ghost predicate IsFlat(w: Flat) {
    && (forall i {:trigger FlattenItem(i)} :: w.item(i) == FlattenItem(i))
    && (forall i {:trigger FlattenItems(i)} :: w.items(i) == FlattenItems(i))
    && (forall n {:trigger Flatten(n)} :: w.node(n) == Flatten(n))
    && (forall k {:trigger FlattenKids(k)} :: w.kids(k) == FlattenKids(k))
    && (forall n: nat {:trigger Nops(n)} :: w.nops(n) == Nops(n))
  }

  lemma TokenLaid(r: Reader, p: Parser, off: nat, n: nat)
    requires IsReader(r, p) && n < 0x1_0000_0000 && HasAt(p.blob, p.offStruct + off, Be32(n))
    ensures TokenAt(r, p, off, n)
  {
    ReadBack(p, p.offStruct + off, n);
  }

  lemma NameLaid(r: Reader, p: Parser, off: nat, name: Bytes)
    requires IsReader(r, p) && NameOk(p, name) && HasAt(p.blob, p.offStruct + off + 4, Padded(name + [0]))
    ensures r.str(p.offStruct + off + 4) == Some(name)
    ensures 4 + |Padded(name + [0])| == NameSize(name)
  {
    ReadName(p, p.offStruct + off + 4, name);
    PaddedSplit(p.blob, p.offStruct + off + 4, name + [0]);
  }

  lemma PaddedSplit(b: Bytes, pos: nat, s: Bytes)
    requires HasAt(b, pos, Padded(s))
    ensures HasAt(b, pos, s) && |Padded(s)| == RoundUp(|s|)
  {
    HasAtSplit(b, pos, s, Zeros(RoundUp(|s|) - |s|));
  }

  lemma NopsSplit(w: Flat, b: Bytes, at: nat, n: nat)
    requires IsFlat(w) && HasAt(b, at, w.nops(n))
    ensures n == 0 ==> |w.nops(n)| == 0
    ensures n > 0 ==> HasAt(b, at, Be32(FDT_NOP)) && HasAt(b, at + 4, w.nops(n - 1)) && |w.nops(n)| == 4 + |w.nops(n - 1)|
  {
    assert w.nops(n) == Nops(n);
    if n > 0 {
      assert w.nops(n - 1) == Nops(n - 1);
      HasAtSplit(b, at, Be32(FDT_NOP), Nops(n - 1));
    }
  }

  lemma {:induction false} NopsLaid(w: Flat, r: Reader, p: Parser, off: nat, n: nat)
    requires IsFlat(w) && IsReader(r, p) && HasAt(p.blob, p.offStruct + off, w.nops(n))
    ensures NopsAt(r, p, off, n) && |w.nops(n)| == 4 * n
    decreases n
  {
    NopsSplit(w, p.blob, p.offStruct + off, n);
    if n > 0 {
      TokenLaid(r, p, off, FDT_NOP);
      NopsLaid(w, r, p, off + 4, n - 1);
    }
  }

  lemma ValueLaid(b: Bytes, at: nat, value: Bytes)
    requires HasAt(b, at, Padded(value))
    ensures Slice(b, at, |value|) == Inside(value) && |Padded(value)| == RoundUp(|value|)
  {
    PaddedSplit(b, at, value);
    assert b[at..at + |value|] == value;
  }

  // The four parts of a property, each where it belongs.
  ghost predicate PropPieces(b: Bytes, at: nat, nameoff: nat, value: Bytes) {
    && HasAt(b, at, Be32(FDT_PROP)) && HasAt(b, at + 4, Be32(|value|)) && HasAt(b, at + 8, Be32(nameoff))
    && HasAt(b, at + 12, Padded(value))
  }

  lemma PropSplit(b: Bytes, at: nat, nameoff: nat, value: Bytes)
    requires HasAt(b, at, FlattenItem(Prop(nameoff, value)))
    ensures PropPieces(b, at, nameoff, value) && |FlattenItem(Prop(nameoff, value))| == 12 + RoundUp(|value|)
  {
    HasAtSplit4(b, at, Be32(FDT_PROP), Be32(|value|), Be32(nameoff), Padded(value));
  }

  lemma ItemLaid(w: Flat, r: Reader, p: Parser, off: nat, item: Item)
    requires IsFlat(w) && IsReader(r, p) && (item.Prop? ==> |item.value| < 0x1_0000_0000 && item.nameoff < 0x1_0000_0000)
    requires HasAt(p.blob, p.offStruct + off, w.item(item))
    ensures ItemAt(r, p, off, item) && |w.item(item)| == ItemSize(item)
  {
    assert w.item(item) == FlattenItem(item);
    match item
    case Nop => TokenLaid(r, p, off, FDT_NOP);
    case Prop(nameoff, value) => PropItemLaid(r, p, off, nameoff, value);
  }

  lemma PropItemLaid(r: Reader, p: Parser, off: nat, nameoff: nat, value: Bytes)
    requires IsReader(r, p) && |value| < 0x1_0000_0000 && nameoff < 0x1_0000_0000
    requires HasAt(p.blob, p.offStruct + off, FlattenItem(Prop(nameoff, value)))
    ensures ItemAt(r, p, off, Prop(nameoff, value)) && |FlattenItem(Prop(nameoff, value))| == 12 + RoundUp(|value|)
  {
    PropSplit(p.blob, p.offStruct + off, nameoff, value);
    PropLaid(r, p, off, nameoff, value);
  }

  lemma PropLaid(r: Reader, p: Parser, off: nat, nameoff: nat, value: Bytes)
    requires IsReader(r, p) && |value| < 0x1_0000_0000 && nameoff < 0x1_0000_0000
    requires PropPieces(p.blob, p.offStruct + off, nameoff, value)
    ensures ItemAt(r, p, off, Prop(nameoff, value))
  {
    TokenLaid(r, p, off, FDT_PROP);
    TokenLaid(r, p, off + 4, |value|);
    TokenLaid(r, p, off + 8, nameoff);
    ValueLaid(p.blob, p.offStruct + off + 12, value);
  }

  lemma ItemsPieces(w: Flat, b: Bytes, at: nat, items: seq<Item>)
    requires IsFlat(w) && HasAt(b, at, w.items(items))
    ensures items == [] ==> |w.items(items)| == 0
    ensures items != [] ==>
              && |w.items(items)| == |w.item(items[0])| + |w.items(items[1..])|
              && HasAt(b, at, w.item(items[0])) && HasAt(b, at + |w.item(items[0])|, w.items(items[1..]))
  {
    ItemsShape(w, items);
    if items != [] { HasAtSplit(b, at, w.item(items[0]), w.items(items[1..])); }
  }

  lemma ItemsShape(w: Flat, items: seq<Item>)
    requires IsFlat(w)
    ensures w.items(items) == if items == [] then [] else w.item(items[0]) + w.items(items[1..])
  {
    assert w.items(items) == FlattenItems(items);
    if items != [] { assert w.items(items[1..]) == FlattenItems(items[1..]) && w.item(items[0]) == FlattenItem(items[0]); }
  }

  lemma {:induction false} ItemsLaid(w: Flat, r: Reader, p: Parser, off: nat, items: seq<Item>)
    requires IsFlat(w) && IsReader(r, p) && ItemsOk(items) && HasAt(p.blob, p.offStruct + off, w.items(items))
    ensures ItemsAt(r, p, off, items) && |w.items(items)| == ItemsSize(items)
    decreases |items|
  {
    ItemsPieces(w, p.blob, p.offStruct + off, items);
    if items != [] {
      ItemLaid(w, r, p, off, items[0]);
      ItemsLaid(w, r, p, off + ItemSize(items[0]), items[1..]);
    }
  }

  lemma NodeShape(w: Flat, node: Node)
    requires IsFlat(w)
    ensures w.node(node) ==
              Be32(FDT_BEGIN_NODE) + (Padded(node.name + [0]) + (w.items(node.items) + (w.kids(node.kids) + Be32(FDT_END_NODE))))
  {
    assert w.node(node) == Flatten(node);
    assert w.items(node.items) == FlattenItems(node.items) && w.kids(node.kids) == FlattenKids(node.kids);
  }

  // The pieces of a flat node, each where it belongs.
  lemma NodeSplit(w: Flat, b: Bytes, at: nat, node: Node)
    requires IsFlat(w) && HasAt(b, at, w.node(node))
    ensures var name, items, kids := |Padded(node.name + [0])|, |w.items(node.items)|, |w.kids(node.kids)|;
            && HasAt(b, at, Be32(FDT_BEGIN_NODE)) && HasAt(b, at + 4, Padded(node.name + [0]))
            && HasAt(b, at + 4 + name, w.items(node.items)) && HasAt(b, at + 4 + name + items, w.kids(node.kids))
            && HasAt(b, at + 4 + name + items + kids, Be32(FDT_END_NODE))
            && |w.node(node)| == name + items + kids + 8
  {
    NodeShape(w, node);
    var name, items, kids, end := Padded(node.name + [0]), w.items(node.items), w.kids(node.kids), Be32(FDT_END_NODE);
    HasAtSplit(b, at, Be32(FDT_BEGIN_NODE), name + (items + (kids + end)));
    HasAtSplit4(b, at + 4, name, items, kids, end);
  }

  lemma NodePieces(w: Flat, r: Reader, p: Parser, off: nat, node: Node)
    requires IsFlat(w) && IsReader(r, p) && NameOk(p, node.name) && HasAt(p.blob, p.offStruct + off, w.node(node))
    ensures var at := p.offStruct + off + NameSize(node.name);
            var items, kids := |w.items(node.items)|, |w.kids(node.kids)|;
            && TokenAt(r, p, off, FDT_BEGIN_NODE) && r.str(p.offStruct + off + 4) == Some(node.name)
            && HasAt(p.blob, at, w.items(node.items)) && HasAt(p.blob, at + items, w.kids(node.kids))
            && TokenAt(r, p, off + NameSize(node.name) + items + kids, FDT_END_NODE)
            && |w.node(node)| == NameSize(node.name) + items + kids + 4
  {
    NodeSplit(w, p.blob, p.offStruct + off, node);
    TokenLaid(r, p, off, FDT_BEGIN_NODE);
    NameLaid(r, p, off, node.name);
    TokenLaid(r, p, off + NameSize(node.name) + |w.items(node.items)| + |w.kids(node.kids)|, FDT_END_NODE);
  }

  lemma {:induction false} NodeLaid(w: Flat, r: Reader, p: Parser, off: nat, node: Node)
    requires IsFlat(w) && IsReader(r, p) && NodeOk(p, node) && HasAt(p.blob, p.offStruct + off, w.node(node))
    ensures NodeAt(r, p, off, node) && |w.node(node)| == NodeSize(node)
    decreases node, 1
  {
    NodePieces(w, r, p, off, node);
    var inside := off + NameSize(node.name);
    ItemsLaid(w, r, p, inside, node.items);
    KidsLaid(w, r, p, inside + ItemsSize(node.items), node.kids);
  }

  lemma KidsPieces(w: Flat, b: Bytes, at: nat, node: Node, nops: nat, rest: Kids)
    requires IsFlat(w) && HasAt(b, at, w.kids(Kid(node, nops, rest)))
    ensures var own, gap := |w.node(node)|, |w.nops(nops)|;
            && HasAt(b, at, w.node(node)) && HasAt(b, at + own, w.nops(nops)) && HasAt(b, at + own + gap, w.kids(rest))
            && |w.kids(Kid(node, nops, rest))| == own + gap + |w.kids(rest)|
  {
    KidsShape(w, node, nops, rest);
    HasAtSplit(b, at, w.node(node), w.nops(nops) + w.kids(rest));
    HasAtSplit(b, at + |w.node(node)|, w.nops(nops), w.kids(rest));
  }

  lemma KidsShape(w: Flat, node: Node, nops: nat, rest: Kids)
    requires IsFlat(w)
    ensures w.kids(Kid(node, nops, rest)) == w.node(node) + (w.nops(nops) + w.kids(rest))
  {
    assert w.kids(Kid(node, nops, rest)) == FlattenKids(Kid(node, nops, rest)) && w.kids(rest) == FlattenKids(rest);
    assert w.node(node) == Flatten(node) && w.nops(nops) == Nops(nops);
  }

  lemma {:induction false} KidsLaid(w: Flat, r: Reader, p: Parser, off: nat, kids: Kids)
    requires IsFlat(w) && IsReader(r, p) && KidsOk(p, kids) && HasAt(p.blob, p.offStruct + off, w.kids(kids))
    ensures KidsAt(r, p, off, kids) && |w.kids(kids)| == KidsSize(kids)
    decreases kids, 0
  {
    match kids
    case NoKids => assert w.kids(kids) == FlattenKids(kids);
    case Kid(node, nops, rest) =>
      var size := NodeSize(node);
      KidsPieces(w, p.blob, p.offStruct + off, node, nops, rest);
      NodeLaid(w, r, p, off, node);
      NopsLaid(w, r, p, off + size, nops);
      KidsLaid(w, r, p, off + size + 4 * nops, rest);
  }

  // ----- the scan follows the tree -----

  lemma {:induction false} ScanNops(f: Scanner, r: Reader, p: Parser, use: Use, n: nat, off: nat, depth: nat, path: Bytes, st: State)
    requires IsScan(f, p, use) && IsReader(r, p) && NopsAt(r, p, off, n) && off + 4 * n <= p.sizeStruct
    ensures f(off, depth, path, st) == f(off + 4 * n, depth, path, st)
    decreases n
  {
    if n > 0 {
      AtNop(f, r, p, use, off, depth, path, st);
      ScanNops(f, r, p, use, n - 1, off + 4, depth, path, st);
    }
  }

  lemma ScanProp(f: Scanner, r: Reader, p: Parser, use: Use, item: Item, off: nat, depth: nat, path: Bytes, st: State)
    requires IsScan(f, p, use) && IsReader(r, p) && item.Prop? && ItemAt(r, p, off, item) && off < p.sizeStruct
    ensures f(off, depth, path, st) ==
              match Property(p, use, st, item.nameoff, p.offStruct + off + 12, |item.value|)
              case Halt(s) => Halted(s)
              case Go(s) => f(off + ItemSize(item), depth, path, s)
  {
    AtProp(f, r, p, use, off, depth, path, st, Some(|item.value|), Some(item.nameoff));
  }

  // The folds as values.
  datatype Folder = Folder(
    items: (seq<Item>, nat, State) -> Flow, node: (Node, nat, nat, Bytes, State) -> Flow, kids: (Kids, nat, nat, Bytes, State) -> Flow)

  ghost predicate IsFolder(g: Folder, p: Parser, use: Use) {
    && (forall items, off: nat, st {:trigger FoldItems(p, use, items, off, st)} :: g.items(items, off, st) == FoldItems(p, use, items, off, st))
    && (forall node, off: nat, depth: nat, path, st {:trigger FoldNode(p, use, node, off, depth, path, st)} ::
          g.node(node, off, depth, path, st) == FoldNode(p, use, node, off, depth, path, st))
    && (forall kids, off: nat, depth: nat, path, st {:trigger FoldKids(p, use, kids, off, depth, path, st)} ::
          g.kids(kids, off, depth, path, st) == FoldKids(p, use, kids, off, depth, path, st))
  }

  function FolderValue(p: Parser, use: Use): (g: Folder)
    ensures IsFolder(g, p, use)
  {
    Folder((items: seq<Item>, off: nat, st: State) => FoldItems(p, use, items, off, st),
           (node: Node, off: nat, depth: nat, path: Bytes, st: State) => FoldNode(p, use, node, off, depth, path, st),
           (kids: Kids, off: nat, depth: nat, path: Bytes, st: State) => FoldKids(p, use, kids, off, depth, path, st))
  }

  lemma ItemsFold(g: Folder, p: Parser, use: Use, items: seq<Item>, off: nat, st: State)
    requires IsFolder(g, p, use)
    ensures items == [] ==> g.items(items, off, st) == Go(st)
    ensures items != [] && items[0].Nop? ==> g.items(items, off, st) == g.items(items[1..], off + 4, st)
    ensures items != [] && items[0].Prop? ==>
              g.items(items, off, st) ==
                match Property(p, use, st, items[0].nameoff, p.offStruct + off + 12, |items[0].value|)
                case Halt(s) => Halt(s)
                case Go(s) => g.items(items[1..], off + ItemSize(items[0]), s)
  {
    var flow := FoldItems(p, use, items, off, st);
    if items != [] && items[0].Nop? {
      assert flow == FoldItems(p, use, items[1..], off + 4, st);
    } else if items != [] {
      var own := Property(p, use, st, items[0].nameoff, p.offStruct + off + 12, |items[0].value|);
      if own.Go? { assert flow == FoldItems(p, use, items[1..], off + ItemSize(items[0]), own.st); }
    }
  }

  lemma NodeFold(g: Folder, p: Parser, use: Use, node: Node, off: nat, depth: nat, path: Bytes, st: State)
    requires IsFolder(g, p, use)
    ensures var (own, inside) := (Join(path, node.name, depth), off + NameSize(node.name));
            g.node(node, off, depth, path, st) ==
              match Enter(use, st, own, p.offStruct + inside, depth + 1)
              case Halt(s1) => Halt(s1)
              case Go(s1) =>
                match g.items(node.items, inside, s1)
                case Halt(s2) => Halt(s2)
                case Go(s2) =>
                  match g.kids(node.kids, inside + ItemsSize(node.items), depth + 1, own, s2)
                  case Halt(s3) => Halt(s3)
                  case Go(s3) => Go(Leave(use, s3))
  {
    var own, inside := Join(path, node.name, depth), off + NameSize(node.name);
    var after := inside + ItemsSize(node.items);
    var flow := FoldNode(p, use, node, off, depth, path, st);
    var f1 := Enter(use, st, own, p.offStruct + inside, depth + 1);
    if f1.Go? {
      var f2 := FoldItems(p, use, node.items, inside, f1.st);
      if f2.Go? {
        var f3 := FoldKids(p, use, node.kids, after, depth + 1, own, f2.st);
        assert flow == if f3.Go? then Go(Leave(use, f3.st)) else f3;
      }
    }
  }

  lemma KidsFold(g: Folder, p: Parser, use: Use, kids: Kids, off: nat, depth: nat, path: Bytes, st: State)
    requires IsFolder(g, p, use)
    ensures g.kids(kids, off, depth, path, st) ==
              match kids
              case NoKids => Go(st)
              case Kid(node, nops, rest) =>
                match g.node(node, off, depth, path, st)
                case Halt(s1) => Halt(s1)
                case Go(s1) => g.kids(rest, off + NodeSize(node) + 4 * nops, depth, path, s1)
  {
    var flow := FoldKids(p, use, kids, off, depth, path, st);
    if kids.Kid? {
      var f1 := FoldNode(p, use, kids.node, off, depth, path, st);
      if f1.Go? { assert flow == FoldKids(p, use, kids.rest, off + NodeSize(kids.node) + 4 * kids.nops, depth, path, f1.st); }
    }
  }

  lemma {:induction false} ScanItems(f: Scanner, g: Folder, r: Reader, p: Parser, use: Use, items: seq<Item>, off: nat, depth: nat, path: Bytes, st: State)
    requires IsScan(f, p, use) && IsFolder(g, p, use) && IsReader(r, p) && ItemsAt(r, p, off, items) && off + ItemsSize(items) <= p.sizeStruct
    ensures f(off, depth, path, st) ==
              match g.items(items, off, st)
              case Halt(s) => Halted(s)
              case Go(s) => f(off + ItemsSize(items), depth, path, s)
    decreases |items|
  {
    ItemsFold(g, p, use, items, off, st);
    if items != [] {
      var after := off + ItemSize(items[0]);
      if items[0].Nop? {
        AtNop(f, r, p, use, off, depth, path, st);
        ScanItems(f, g, r, p, use, items[1..], after, depth, path, st);
      } else {
        ScanProp(f, r, p, use, items[0], off, depth, path, st);
        var flow := Property(p, use, st, items[0].nameoff, p.offStruct + off + 12, |items[0].value|);
        if flow.Go? { ScanItems(f, g, r, p, use, items[1..], after, depth, path, flow.st); }
      }
    }
  }

  // Entering and leaving a node.
  lemma ScanBegin(f: Scanner, r: Reader, p: Parser, use: Use, name: Bytes, off: nat, depth: nat, path: Bytes, st: State)
    requires IsScan(f, p, use) && IsReader(r, p) && off < p.sizeStruct
    requires TokenAt(r, p, off, FDT_BEGIN_NODE) && r.str(p.offStruct + off + 4) == Some(name)
    ensures var inside := off + NameSize(name);
            f(off, depth, path, st) ==
              match Enter(use, st, Join(path, name, depth), p.offStruct + inside, depth + 1)
              case Halt(s) => Halted(s)
              case Go(s) => f(inside, depth + 1, Join(path, name, depth), s)
  {
    AtBegin(f, r, p, use, off, depth, path, st, Some(name));
  }

  lemma ScanEnd(f: Scanner, r: Reader, p: Parser, use: Use, name: Bytes, off: nat, depth: nat, path: Bytes, st: State)
    requires IsScan(f, p, use) && IsReader(r, p) && SLASH !in name && off < p.sizeStruct && (depth == 0 ==> path == [])
    requires TokenAt(r, p, off, FDT_END_NODE)
    ensures f(off, depth + 1, Join(path, name, depth), st) == f(off + 4, depth, path, Leave(use, st))
  {
    ParentOfJoin(path, name, depth);
    AtEnd(f, r, p, use, off, depth + 1, Join(path, name, depth), st);
  }

  // Scanning the flat form of a node does to the state what folding the node does, and moves on behind it.
  lemma {:induction false} ScanNode(f: Scanner, g: Folder, r: Reader, p: Parser, use: Use, node: Node, off: nat, depth: nat, path: Bytes, st: State)
    requires IsScan(f, p, use) && IsFolder(g, p, use) && IsReader(r, p) && NodeOk(p, node) && (depth == 0 ==> path == [])
    requires NodeAt(r, p, off, node) && off + NodeSize(node) <= p.sizeStruct
    ensures f(off, depth, path, st) ==
              match g.node(node, off, depth, path, st)
              case Halt(s) => Halted(s)
              case Go(s) => f(off + NodeSize(node), depth, path, s)
    decreases node, 2
  {
    var own, inside := Join(path, node.name, depth), off + NameSize(node.name);
    NodeFold(g, p, use, node, off, depth, path, st);
    ScanBegin(f, r, p, use, node.name, off, depth, path, st);
    var entered := Enter(use, st, own, p.offStruct + inside, depth + 1);
    if entered.Go? { ScanInside(f, g, r, p, use, node, off, depth, path, entered.st); }
  }

  // From behind its name on.
  lemma {:induction false} ScanInside(f: Scanner, g: Folder, r: Reader, p: Parser, use: Use, node: Node, off: nat, depth: nat, path: Bytes, st: State)
    requires IsScan(f, p, use) && IsFolder(g, p, use) && IsReader(r, p) && NodeOk(p, node) && (depth == 0 ==> path == [])
    requires NodeAt(r, p, off, node) && off + NodeSize(node) <= p.sizeStruct
    ensures var (own, inside) := (Join(path, node.name, depth), off + NameSize(node.name));
            f(inside, depth + 1, own, st) ==
              match g.items(node.items, inside, st)
              case Halt(s) => Halted(s)
              case Go(s) =>
                match g.kids(node.kids, inside + ItemsSize(node.items), depth + 1, own, s)
                case Halt(s) => Halted(s)
                case Go(s) => f(off + NodeSize(node), depth, path, Leave(use, s))
    decreases node, 1
  {
    var own, inside := Join(path, node.name, depth), off + NameSize(node.name);
    var after := inside + ItemsSize(node.items);
    ScanItems(f, g, r, p, use, node.items, inside, depth + 1, own, st);
    var items := g.items(node.items, inside, st);
    if items.Go? {
      ScanKids(f, g, r, p, use, node.kids, after, depth + 1, own, items.st);
      var kids := g.kids(node.kids, after, depth + 1, own, items.st);
      if kids.Go? { ScanEnd(f, r, p, use, node.name, after + KidsSize(node.kids), depth, path, kids.st); }
    }
  }

  lemma {:induction false} ScanKids(f: Scanner, g: Folder, r: Reader, p: Parser, use: Use, kids: Kids, off: nat, depth: nat, path: Bytes, st: State)
    requires IsScan(f, p, use) && IsFolder(g, p, use) && IsReader(r, p) && KidsOk(p, kids) && depth > 0
    requires KidsAt(r, p, off, kids) && off + KidsSize(kids) <= p.sizeStruct
    ensures f(off, depth, path, st) ==
              match g.kids(kids, off, depth, path, st)
              case Halt(s) => Halted(s)
              case Go(s) => f(off + KidsSize(kids), depth, path, s)
    decreases kids, 0
  {
    KidsFold(g, p, use, kids, off, depth, path, st);
    match kids
    case NoKids =>
    case Kid(node, nops, rest) =>
      var after := off + NodeSize(node);
      ScanNode(f, g, r, p, use, node, off, depth, path, st);
      var f1 := g.node(node, off, depth, path, st);
      if f1.Go? {
        ScanNops(f, r, p, use, nops, after, depth, path, f1.st);
        ScanKids(f, g, r, p, use, rest, after + 4 * nops, depth, path, f1.st);
      }
  }

  // ----- a whole structure block -----

  // Some empty tokens, the flat root node, some more, and the end token; anything may follow.
  ghost predicate HoldsTree(p: Parser, lead: nat, root: Node, trail: nat) {
    && NodeOk(p, root)
    && HasAt(p.blob, p.offStruct, Nops(lead) + (Flatten(root) + (Nops(trail) + Be32(FDT_END))))
    && |Nops(lead)| + |Flatten(root)| + |Nops(trail)| + 4 <= p.sizeStruct
  }

  lemma TreeLaid(w: Flat, r: Reader, p: Parser, lead: nat, root: Node, trail: nat)
    requires IsFlat(w) && IsReader(r, p) && HoldsTree(p, lead, root, trail)
    ensures NopsAt(r, p, 0, lead) && NodeAt(r, p, 4 * lead, root) && NopsAt(r, p, 4 * lead + NodeSize(root), trail)
    ensures TokenAt(r, p, 4 * lead + NodeSize(root) + 4 * trail, FDT_END)
    ensures 4 * lead + NodeSize(root) + 4 * trail + 4 <= p.sizeStruct
  {
    TreeSplit(w, p, lead, root, trail);
    TreePiecesLaid(w, r, p, lead, root, trail);
  }

  lemma TreePiecesLaid(w: Flat, r: Reader, p: Parser, lead: nat, root: Node, trail: nat)
    requires IsFlat(w) && IsReader(r, p) && NodeOk(p, root) && TreePieces(w, p, lead, root, trail)
    ensures NopsAt(r, p, 0, lead) && NodeAt(r, p, 4 * lead, root) && NopsAt(r, p, 4 * lead + NodeSize(root), trail)
    ensures TokenAt(r, p, 4 * lead + NodeSize(root) + 4 * trail, FDT_END)
    ensures 4 * lead + NodeSize(root) + 4 * trail + 4 <= p.sizeStruct
  {
    NopsLaid(w, r, p, 0, lead);
    assert |w.nops(lead)| == 4 * lead;
    NodeLaid(w, r, p, 4 * lead, root);
    assert |w.node(root)| == NodeSize(root);
    TrailLaid(w, r, p, 4 * lead + NodeSize(root), trail);
  }

  lemma TrailLaid(w: Flat, r: Reader, p: Parser, off: nat, trail: nat)
    requires IsFlat(w) && IsReader(r, p) && HasAt(p.blob, p.offStruct + off, w.nops(trail))
    requires HasAt(p.blob, p.offStruct + off + |w.nops(trail)|, Be32(FDT_END)) && off + |w.nops(trail)| + 4 <= p.sizeStruct
    ensures NopsAt(r, p, off, trail) && TokenAt(r, p, off + 4 * trail, FDT_END) && off + 4 * trail + 4 <= p.sizeStruct
  {
    NopsLaid(w, r, p, off, trail);
    assert |w.nops(trail)| == 4 * trail;
    TokenLaid(r, p, off + 4 * trail, FDT_END);
  }

  // The four parts of a structure block, each where it belongs.
  ghost predicate TreePieces(w: Flat, p: Parser, lead: nat, root: Node, trail: nat) {
    var l, n, t := |w.nops(lead)|, |w.node(root)|, |w.nops(trail)|;
    && HasAt(p.blob, p.offStruct, w.nops(lead)) && HasAt(p.blob, p.offStruct + l, w.node(root))
    && HasAt(p.blob, p.offStruct + l + n, w.nops(trail)) && HasAt(p.blob, p.offStruct + l + n + t, Be32(FDT_END))
    && l + n + t + 4 <= p.sizeStruct
  }

  lemma TreeSplit(w: Flat, p: Parser, lead: nat, root: Node, trail: nat)
    requires IsFlat(w) && HoldsTree(p, lead, root, trail)
    ensures TreePieces(w, p, lead, root, trail)
  {
    assert w.nops(lead) == Nops(lead) && w.nops(trail) == Nops(trail) && w.node(root) == Flatten(root);
    HasAtSplit4(p.blob, p.offStruct, w.nops(lead), w.node(root), w.nops(trail), Be32(FDT_END));
  }

  lemma ScanFinish(f: Scanner, r: Reader, p: Parser, use: Use, off: nat, st: State)
    requires IsScan(f, p, use) && IsReader(r, p) && TokenAt(r, p, off, FDT_END) && off < p.sizeStruct
    ensures f(off, 0, [], st) == Finished(st, 0)
  {
    AtStop(f, r, p, use, off, 0, [], st);
  }

  // The whole scan is the fold over the tree.
  lemma ScanTree(p: Parser, use: Use, lead: nat, root: Node, trail: nat)
    requires HoldsTree(p, lead, root, trail)
    ensures Scan(p, use, 0, 0, [], START) ==
              match FoldNode(p, use, root, 4 * lead, 0, [], START)
              case Halt(s) => Halted(s)
              case Go(s) => Finished(s, 0)
  {
    var f: Scanner := (off: nat, depth: nat, path: Bytes, st: State) => Scan(p, use, off, depth, path, st);
    var w, r := FlatValues(), Reader(o => ReadU32(p, o), o => ReadString(p, o));
    TreeLaid(w, r, p, lead, root, trail);
    ScanAll(f, r, p, use, lead, root, trail);
  }

  lemma ScanAll(f: Scanner, r: Reader, p: Parser, use: Use, lead: nat, root: Node, trail: nat)
    requires IsScan(f, p, use) && IsReader(r, p) && NodeOk(p, root)
    requires NopsAt(r, p, 0, lead) && NodeAt(r, p, 4 * lead, root) && NopsAt(r, p, 4 * lead + NodeSize(root), trail)
    requires TokenAt(r, p, 4 * lead + NodeSize(root) + 4 * trail, FDT_END)
    requires 4 * lead + NodeSize(root) + 4 * trail + 4 <= p.sizeStruct
    ensures f(0, 0, [], START) ==
              match FoldNode(p, use, root, 4 * lead, 0, [], START)
              case Halt(s) => Halted(s)
              case Go(s) => Finished(s, 0)
  {
    ScanNops(f, r, p, use, lead, 0, 0, [], START);
    var g := FolderValue(p, use);
    ScanNode(f, g, r, p, use, root, 4 * lead, 0, [], START);
    var flow := FoldNode(p, use, root, 4 * lead, 0, [], START);
    if flow.Go? { ScanTrail(f, r, p, use, trail, 4 * lead + NodeSize(root), flow.st); }
  }

  lemma ScanTrail(f: Scanner, r: Reader, p: Parser, use: Use, trail: nat, off: nat, st: State)
    requires IsScan(f, p, use) && IsReader(r, p) && NopsAt(r, p, off, trail)
    requires TokenAt(r, p, off + 4 * trail, FDT_END) && off + 4 * trail + 4 <= p.sizeStruct
    ensures f(off, 0, [], st) == Finished(st, 0)
  {
    ScanNops(f, r, p, use, trail, off, 0, [], st);
    ScanFinish(f, r, p, use, off + 4 * trail, st);
  }

  function FlatValues(): (w: Flat)
    ensures IsFlat(w)
  {
    Flat(i => FlattenItem(i), i => FlattenItems(i), n => Flatten(n), k => FlattenKids(k), n => Nops(n))
  }

  // ----- walk_nodes: the nodes in preorder -----

  function WalkResult(e: End): Result<()> {
    match e
    case Finished(_, depth) => if depth != 0 then Err(BadAddress) else Ok(())
    case Halted(st) => st.result
    case Malformed(_) => Err(BadAddress)
  }

  function Visits(p: Parser, node: Node, off: nat, depth: nat, path: Bytes): seq<Visit>
    decreases node, 1
  {
    var inside := off + NameSize(node.name);
    var own := Join(path, node.name, depth);
    [Visit(own, p.offStruct + inside, depth + 1)] + KidsVisits(p, node.kids, inside + ItemsSize(node.items), depth + 1, own)
  }

  function KidsVisits(p: Parser, kids: Kids, off: nat, depth: nat, path: Bytes): seq<Visit>
    decreases kids, 0
  {
    match kids
    case NoKids => []
    case Kid(node, nops, rest) =>
      Visits(p, node, off, depth, path) + KidsVisits(p, rest, off + NodeSize(node) + 4 * nops, depth, path)
  }

  function Deliver(use: Use, st: State, visits: seq<Visit>): Flow
    decreases |visits|
  {
    if visits == [] then Go(st)
    else match Enter(use, st, visits[0].path, visits[0].pos, visits[0].depth)
      case Halt(s) => Halt(s)
      case Go(s) => Deliver(use, s, visits[1..])
  }

  lemma {:induction false} DeliverConcat(use: Use, st: State, a: seq<Visit>, b: seq<Visit>)
    ensures Deliver(use, st, a + b) ==
              match Deliver(use, st, a)
              case Halt(s) => Halt(s)
              case Go(s) => Deliver(use, s, b)
    decreases |a|
  {
    if a == [] {
      assert a + b == b;
    } else {
      assert (a + b)[1..] == a[1..] + b;
      var flow := Enter(use, st, a[0].path, a[0].pos, a[0].depth);
      if flow.Go? { DeliverConcat(use, flow.st, a[1..], b); }
    }
  }

  lemma {:induction false} ItemsIgnored(g: Folder, p: Parser, use: Use, items: seq<Item>, off: nat, st: State)
    requires use.WalkNodes? && IsFolder(g, p, use)
    ensures g.items(items, off, st) == Go(st)
    decreases |items|
  {
    ItemsFold(g, p, use, items, off, st);
    if items != [] { ItemsIgnored(g, p, use, items[1..], off + ItemSize(items[0]), st); }
  }

  lemma {:induction false} NodeDelivers(g: Folder, p: Parser, use: Use, node: Node, off: nat, depth: nat, path: Bytes, st: State)
    requires use.WalkNodes? && IsFolder(g, p, use)
    ensures g.node(node, off, depth, path, st) == Deliver(use, st, Visits(p, node, off, depth, path))
    decreases node, 1
  {
    var own, inside := Join(path, node.name, depth), off + NameSize(node.name);
    var after := inside + ItemsSize(node.items);
    var first := [Visit(own, p.offStruct + inside, depth + 1)];
    NodeFold(g, p, use, node, off, depth, path, st);
    DeliverConcat(use, st, first, KidsVisits(p, node.kids, after, depth + 1, own));
    var flow := Enter(use, st, own, p.offStruct + inside, depth + 1);
    assert Deliver(use, st, first) == flow;
    if flow.Go? {
      ItemsIgnored(g, p, use, node.items, inside, flow.st);
      KidsDeliver(g, p, use, node.kids, after, depth + 1, own, flow.st);
    }
  }

  lemma {:induction false} KidsDeliver(g: Folder, p: Parser, use: Use, kids: Kids, off: nat, depth: nat, path: Bytes, st: State)
    requires use.WalkNodes? && IsFolder(g, p, use)
    ensures g.kids(kids, off, depth, path, st) == Deliver(use, st, KidsVisits(p, kids, off, depth, path))
    decreases kids, 0
  {
    KidsFold(g, p, use, kids, off, depth, path, st);
    match kids
    case NoKids =>
    case Kid(node, nops, rest) =>
      var after := off + NodeSize(node) + 4 * nops;
      NodeDelivers(g, p, use, node, off, depth, path, st);
      DeliverConcat(use, st, Visits(p, node, off, depth, path), KidsVisits(p, rest, after, depth, path));
      var flow := Deliver(use, st, Visits(p, node, off, depth, path));
      if flow.Go? { KidsDeliver(g, p, use, rest, after, depth, path, flow.st); }
  }

  // The walk reaches the k-th visit and not the next: every callback before said to go on, and either
  // nothing is left, or the last callback ended it, or the next node lies too deep.
  ghost predicate StopsAt(callback: Callback, done: seq<Visit>, visits: seq<Visit>, k: nat)
    requires k <= |visits|
  {
    && (forall i :: 0 <= i < k ==> visits[i].depth <= MAX_DT_DEPTH)
    && (forall i :: 0 < i < k ==> callback(done + visits[..i]) == Ok(true))
    && (k < |visits| && (k == 0 || callback(done + visits[..k]) == Ok(true)) ==> visits[k].depth > MAX_DT_DEPTH)
  }

  function StopResult(callback: Callback, done: seq<Visit>, visits: seq<Visit>, k: nat): Result<()>
    requires k <= |visits|
  {
    if k == 0 then if visits == [] then Ok(()) else Err(BadAddress)
    else match callback(done + visits[..k])
      case Err(e) => Err(e)
      case Ok(more) => if more && k < |visits| then Err(BadAddress) else Ok(())
  }

  lemma {:induction false} DeliverPrefix(use: Use, st: State, visits: seq<Visit>) returns (k: nat)
    requires use.WalkNodes? && st.result == Ok(())
    ensures k <= |visits| && StopsAt(use.callback, st.trace, visits, k)
    ensures var flow := Deliver(use, st, visits);
            && flow.st.trace == st.trace + visits[..k]
            && flow.st.result == StopResult(use.callback, st.trace, visits, k)
            && (flow.Go? <==> k == |visits| && (k == 0 || use.callback(st.trace + visits) == Ok(true)))
    decreases |visits|
  {
    k := 0;
    if visits != [] && visits[0].depth <= MAX_DT_DEPTH {
      k := 1;
      assert visits[..1] == [visits[0]] && Visit(visits[0].path, visits[0].pos, visits[0].depth) == visits[0];
      var flow := Enter(use, st, visits[0].path, visits[0].pos, visits[0].depth);
      if flow.Go? {
        var j := DeliverPrefix(use, flow.st, visits[1..]);
        StopsLater(use.callback, st.trace, visits, j);
        k := j + 1;
        assert st.trace + visits == flow.st.trace + visits[1..];
      } else if |visits| == 1 {
        assert visits[..1] == visits;
      }
    }
  }

  // Where the walk of the rest stops, one further on.
  lemma StopsLater(callback: Callback, done: seq<Visit>, visits: seq<Visit>, j: nat)
    requires visits != [] && j < |visits| && visits[0].depth <= MAX_DT_DEPTH
    requires callback(done + [visits[0]]) == Ok(true) && StopsAt(callback, done + [visits[0]], visits[1..], j)
    ensures StopsAt(callback, done, visits, j + 1)
    ensures StopResult(callback, done, visits, j + 1) == StopResult(callback, done + [visits[0]], visits[1..], j)
    ensures done + visits[..j + 1] == done + [visits[0]] + visits[1..][..j]
  {
    var now, rest := done + [visits[0]], visits[1..];
    forall i: nat | i <= |rest| ensures done + visits[..i + 1] == now + rest[..i] {}
    assert rest[..0] == [] && now + [] == now;
    forall i | 0 < i < j + 1 ensures callback(done + visits[..i]) == Ok(true) {
      assert done + visits[..(i - 1) + 1] == now + rest[..i - 1];
    }
  }

  function Height(node: Node): nat { 1 + KidsHeight(node.kids) }

  function KidsHeight(kids: Kids): nat {
    match kids
    case NoKids => 0
    case Kid(node, _, rest) => if Height(node) > KidsHeight(rest) then Height(node) else KidsHeight(rest)
  }

  ghost predicate AllWithin(visits: seq<Visit>, depth: nat) {
    forall i :: 0 <= i < |visits| ==> visits[i].depth <= depth
  }

  lemma {:induction false} HeightIsDepth(p: Parser, node: Node, off: nat, depth: nat, path: Bytes, max: nat)
    ensures AllWithin(Visits(p, node, off, depth, path), max) <==> depth + Height(node) <= max
    decreases node, 1
  {
    var inside := off + NameSize(node.name);
    var own := Join(path, node.name, depth);
    var kids := KidsVisits(p, node.kids, inside + ItemsSize(node.items), depth + 1, own);
    KidsHeightIsDepth(p, node.kids, inside + ItemsSize(node.items), depth + 1, own, max);
    var all := Visits(p, node, off, depth, path);
    assert all[0].depth == depth + 1 && kids == all[1..];
    if AllWithin(all, max) { assert AllWithin(kids, max); }
  }

  lemma {:induction false} KidsHeightIsDepth(p: Parser, kids: Kids, off: nat, depth: nat, path: Bytes, max: nat)
    ensures AllWithin(KidsVisits(p, kids, off, depth, path), max) <==> (KidsHeight(kids) == 0 || depth + KidsHeight(kids) <= max)
    decreases kids, 0
  {
    match kids
    case NoKids =>
    case Kid(node, nops, rest) =>
      var after := off + NodeSize(node) + 4 * nops;
      HeightIsDepth(p, node, off, depth, path, max);
      KidsHeightIsDepth(p, rest, after, depth, path, max);
      WithinConcat(Visits(p, node, off, depth, path), KidsVisits(p, rest, after, depth, path), max);
  }

  lemma WithinConcat(a: seq<Visit>, b: seq<Visit>, max: nat)
    ensures AllWithin(a + b, max) <==> AllWithin(a, max) && AllWithin(b, max)
  {
    if AllWithin(a + b, max) {
      forall i | 0 <= i < |a| ensures a[i].depth <= max { assert (a + b)[i] == a[i]; }
      forall i | 0 <= i < |b| ensures b[i].depth <= max { assert (a + b)[|a| + i] == b[i]; }
    }
  }

  // walk_nodes calls back the nodes in preorder, each with its joined path, the offset behind its
  // name and its depth, up to where the callback stops it or the depth limit does.
  lemma WalkNodesPreorder(p: Parser, callback: Callback, lead: nat, root: Node, trail: nat) returns (k: nat)
    requires HoldsTree(p, lead, root, trail)
    ensures var e := Scan(p, Use.WalkNodes(callback), 0, 0, [], START);
            var visits := Visits(p, root, 4 * lead, 0, []);
            && k <= |visits| && StopsAt(callback, [], visits, k)
            && e.st.trace == visits[..k] && WalkResult(e) == StopResult(callback, [], visits, k)
  {
    var use := Use.WalkNodes(callback);
    var visits := Visits(p, root, 4 * lead, 0, []);
    ScanTree(p, use, lead, root, trail);
    NodeDelivers(FolderValue(p, use), p, use, root, 4 * lead, 0, [], START);
    k := DeliverPrefix(use, START, visits);
    assert [] + visits[..k] == visits[..k];
    assert visits[..|visits|] == visits;
  }

  // With a callback that never stops it, the walk succeeds exactly on trees of at most 32 levels,
  // and then it has called back every node.
  lemma WalkNodesAll(p: Parser, callback: Callback, lead: nat, root: Node, trail: nat)
    requires HoldsTree(p, lead, root, trail) && (forall t :: callback(t) == Ok(true))
    ensures var e := Scan(p, Use.WalkNodes(callback), 0, 0, [], START);
            && (WalkResult(e) == Ok(()) <==> Height(root) <= 32)
            && (WalkResult(e) == Ok(()) ==> e.st.trace == Visits(p, root, 4 * lead, 0, []))
  {
    var use := Use.WalkNodes(callback);
    var visits := Visits(p, root, 4 * lead, 0, []);
    ScanTree(p, use, lead, root, trail);
    NodeDelivers(FolderValue(p, use), p, use, root, 4 * lead, 0, [], START);
    HeightIsDepth(p, root, 4 * lead, 0, [], MAX_DT_DEPTH);
    var k := DeliverPrefix(use, START, visits);
    assert [] + visits[..k] == visits[..k];
    if k == |visits| {
      assert visits[..k] == visits;
    } else {
      assert visits[k].depth > MAX_DT_DEPTH;
    }
  }

  // ----- read_property and get_all_properties: the node a path names -----

  function PropertyResult(e: End): Option<Value> {
    if e.Halted? then e.st.found else None
  }

  // The nodes whose joined path is `target`, in preorder.
  function Named(node: Node, depth: nat, path: Bytes, target: Bytes): seq<Node>
    decreases node, 1
  {
    var own := Join(path, node.name, depth);
    (if own == target then [node] else []) + KidsNamed(node.kids, depth + 1, own, target)
  }

  function KidsNamed(kids: Kids, depth: nat, path: Bytes, target: Bytes): seq<Node>
    decreases kids, 0
  {
    match kids
    case NoKids => []
    case Kid(node, _, rest) => Named(node, depth, path, target) + KidsNamed(rest, depth, path, target)
  }

  // What one property of the target node does to the state.
  function Take(p: Parser, use: Use, st: State, nameoff: nat, value: Bytes): Flow {
    match use
    case WalkNodes(_) => Go(st)
    case ReadProperty(_, propName) =>
      if ReadString(p, p.offStrings + nameoff) == Some(propName) then Halt(st.(found := Some(Inside(value)))) else Go(st)
    case AllProperties(_) =>
      match ReadString(p, p.offStrings + nameoff)
      case None => Go(st)
      case Some(name) => Go(st.(all := st.all + [(name, Inside(value))]))
  }

  function TakeItems(p: Parser, use: Use, items: seq<Item>, st: State): Flow
    decreases |items|
  {
    if items == [] then Go(st)
    else match items[0]
      case Nop => TakeItems(p, use, items[1..], st)
      case Prop(nameoff, value) =>
        match Take(p, use, st, nameoff, value)
        case Halt(s) => Halt(s)
        case Go(s) => TakeItems(p, use, items[1..], s)
  }

  // What the properties of some nodes do, one node after another.
  function TakeNodes(p: Parser, use: Use, nodes: seq<Node>, st: State): Flow
    decreases |nodes|
  {
    if nodes == [] then Go(st.(inTarget := false))
    else match TakeItems(p, use, nodes[0].items, st.(inTarget := true))
      case Halt(s) => Halt(s)
      case Go(s) => TakeNodes(p, use, nodes[1..], s)
  }

  lemma {:induction false} TakeConcat(p: Parser, use: Use, a: seq<Node>, b: seq<Node>, st: State)
    ensures TakeNodes(p, use, a + b, st) ==
              match TakeNodes(p, use, a, st)
              case Halt(s) => Halt(s)
              case Go(s) => TakeNodes(p, use, b, s)
    decreases |a|
  {
    if a == [] {
      assert a + b == b;
      TakeAnyFlag(p, use, b, st, st.(inTarget := false));
    } else {
      assert (a + b)[1..] == a[1..] + b;
      var flow := TakeItems(p, use, a[0].items, st.(inTarget := true));
      if flow.Go? { TakeConcat(p, use, a[1..], b, flow.st); }
    }
  }

  // The flag the scan arrives with does not matter.
  lemma TakeAnyFlag(p: Parser, use: Use, nodes: seq<Node>, st: State, st': State)
    requires st.(inTarget := true) == st'.(inTarget := true)
    ensures TakeNodes(p, use, nodes, st) == TakeNodes(p, use, nodes, st')
  {
    assert st.(inTarget := false) == st.(inTarget := true).(inTarget := false);
    assert st'.(inTarget := false) == st'.(inTarget := true).(inTarget := false);
  }

  lemma {:induction false} ItemsOutside(g: Folder, p: Parser, use: Use, items: seq<Item>, off: nat, st: State)
    requires !st.inTarget && IsFolder(g, p, use)
    ensures g.items(items, off, st) == Go(st)
    decreases |items|
  {
    ItemsFold(g, p, use, items, off, st);
    if items != [] { ItemsOutside(g, p, use, items[1..], off + ItemSize(items[0]), st); }
  }

  lemma ItemInside(r: Reader, p: Parser, use: Use, item: Item, off: nat, st: State)
    requires st.inTarget && item.Prop? && ItemAt(r, p, off, item)
    ensures var flow := Property(p, use, st, item.nameoff, p.offStruct + off + 12, |item.value|);
            flow == Take(p, use, st, item.nameoff, item.value) && (flow.Go? ==> flow.st.inTarget)
  {
  }

  lemma {:induction false} ItemsInside(g: Folder, r: Reader, p: Parser, use: Use, items: seq<Item>, off: nat, st: State)
    requires st.inTarget && ItemsAt(r, p, off, items) && IsFolder(g, p, use)
    ensures g.items(items, off, st) == TakeItems(p, use, items, st)
    decreases |items|
  {
    ItemsFold(g, p, use, items, off, st);
    if items != [] {
      if items[0].Nop? {
        ItemsInside(g, r, p, use, items[1..], off + ItemSize(items[0]), st);
      } else {
        ItemInside(r, p, use, items[0], off, st);
        var flow := Take(p, use, st, items[0].nameoff, items[0].value);
        if flow.Go? { ItemsInside(g, r, p, use, items[1..], off + ItemSize(items[0]), flow.st); }
      }
    }
  }

  // The same flow, but for the flag left behind.
  predicate SameFlow(flow: Flow, goal: Flow) {
    goal == if flow.Go? then Go(flow.st.(inTarget := false)) else flow
  }

  lemma ItemsHere(g: Folder, r: Reader, p: Parser, use: Use, target: Bytes, node: Node, off: nat, own: Bytes, st: State)
    requires !use.WalkNodes? && use.nodePath == target && ItemsAt(r, p, off, node.items) && IsFolder(g, p, use)
    ensures SameFlow(g.items(node.items, off, st.(inTarget := own == target)),
                     TakeNodes(p, use, if own == target then [node] else [], st))
  {
    if own == target {
      ItemsInside(g, r, p, use, node.items, off, st.(inTarget := true));
      assert [node][1..] == [];
    } else {
      ItemsOutside(g, p, use, node.items, off, st.(inTarget := false));
    }
  }

  // Folding a subtree looks at exactly the nodes whose path is the target.
  lemma {:induction false} NodeFinds(g: Folder, r: Reader, p: Parser, use: Use, target: Bytes, node: Node, off: nat, depth: nat, path: Bytes, st: State)
    requires !use.WalkNodes? && use.nodePath == target && NodeAt(r, p, off, node) && IsFolder(g, p, use)
    ensures g.node(node, off, depth, path, st) == TakeNodes(p, use, Named(node, depth, path, target), st)
    decreases node, 1
  {
    var own, inside := Join(path, node.name, depth), off + NameSize(node.name);
    NodeFold(g, p, use, node, off, depth, path, st);
    TakeConcat(p, use, if own == target then [node] else [], KidsNamed(node.kids, depth + 1, own, target), st);
    ItemsHere(g, r, p, use, target, node, inside, own, st);
    var f2 := g.items(node.items, inside, st.(inTarget := own == target));
    if f2.Go? {
      KidsFind(g, r, p, use, target, node.kids, inside + ItemsSize(node.items), depth + 1, own, f2.st);
      TakeAnyFlag(p, use, KidsNamed(node.kids, depth + 1, own, target), f2.st, f2.st.(inTarget := false));
    }
  }

  lemma {:induction false} KidsFind(g: Folder, r: Reader, p: Parser, use: Use, target: Bytes, kids: Kids, off: nat, depth: nat, path: Bytes, st: State)
    requires !use.WalkNodes? && use.nodePath == target && KidsAt(r, p, off, kids) && IsFolder(g, p, use)
    ensures SameFlow(g.kids(kids, off, depth, path, st), TakeNodes(p, use, KidsNamed(kids, depth, path, target), st))
    decreases kids, 0
  {
    KidsFold(g, p, use, kids, off, depth, path, st);
    match kids
    case NoKids =>
    case Kid(node, nops, rest) =>
      TakeConcat(p, use, Named(node, depth, path, target), KidsNamed(rest, depth, path, target), st);
      NodeFinds(g, r, p, use, target, node, off, depth, path, st);
      var f1 := g.node(node, off, depth, path, st);
      if f1.Go? { KidsFind(g, r, p, use, target, rest, off + NodeSize(node) + 4 * nops, depth, path, f1.st); }
  }

  // The value of the first property of that name.
  function FirstProp(p: Parser, items: seq<Item>, name: Bytes): Option<Value> {
    if items == [] then None
    else if items[0].Prop? && ReadString(p, p.offStrings + items[0].nameoff) == Some(name) then Some(Inside(items[0].value))
    else FirstProp(p, items[1..], name)
  }

  function FirstAmong(p: Parser, nodes: seq<Node>, name: Bytes): Option<Value> {
    if nodes == [] then None
    else if FirstProp(p, nodes[0].items, name).Some? then FirstProp(p, nodes[0].items, name)
    else FirstAmong(p, nodes[1..], name)
  }

  // Every property whose name can be read, in order.
  function AllProps(p: Parser, items: seq<Item>): seq<(Bytes, Value)> {
    if items == [] then []
    else
      (match items[0]
       case Nop => []
       case Prop(nameoff, value) =>
         match ReadString(p, p.offStrings + nameoff) case None => [] case Some(name) => [(name, Inside(value))])
      + AllProps(p, items[1..])
  }

  function AllAmong(p: Parser, nodes: seq<Node>): seq<(Bytes, Value)> {
    if nodes == [] then [] else AllProps(p, nodes[0].items) + AllAmong(p, nodes[1..])
  }

  lemma {:induction false} TakeFirst(p: Parser, use: Use, items: seq<Item>, st: State)
    requires use.ReadProperty?
    ensures var v := FirstProp(p, items, use.propName);
            TakeItems(p, use, items, st) == if v.Some? then Halt(st.(found := v)) else Go(st)
    decreases |items|
  {
    if items != [] { TakeFirst(p, use, items[1..], st); }
  }

  lemma {:induction false} TakeFirstAmong(p: Parser, use: Use, nodes: seq<Node>, st: State) returns (flag: bool)
    requires use.ReadProperty?
    ensures var v := FirstAmong(p, nodes, use.propName);
            TakeNodes(p, use, nodes, st) ==
              if v.Some? then Halt(st.(inTarget := flag, found := v)) else Go(st.(inTarget := false))
    decreases |nodes|
  {
    flag := true;
    if nodes != [] {
      TakeFirst(p, use, nodes[0].items, st.(inTarget := true));
      flag := TakeFirstAmong(p, use, nodes[1..], st.(inTarget := true));
      if FirstProp(p, nodes[0].items, use.propName).Some? { flag := true; }
    }
  }

  lemma {:induction false} TakeAll(p: Parser, use: Use, items: seq<Item>, st: State)
    requires use.AllProperties?
    ensures TakeItems(p, use, items, st) == Go(st.(all := st.all + AllProps(p, items)))
    decreases |items|
  {
    if items == [] {
      assert st.all + [] == st.all;
    } else {
      var head := AllProps(p, items)[..|AllProps(p, items)| - |AllProps(p, items[1..])|];
      var next := st.(all := st.all + head);
      assert AllProps(p, items) == head + AllProps(p, items[1..]);
      assert next.all + AllProps(p, items[1..]) == st.all + AllProps(p, items);
      assert head == [] ==> next == st by { assert st.all + [] == st.all; }
      TakeAll(p, use, items[1..], next);
    }
  }

  lemma {:induction false} TakeAllAmong(p: Parser, use: Use, nodes: seq<Node>, st: State)
    requires use.AllProperties?
    ensures TakeNodes(p, use, nodes, st) == Go(st.(inTarget := false, all := st.all + AllAmong(p, nodes)))
    decreases |nodes|
  {
    if nodes == [] {
      assert st.all + [] == st.all;
    } else {
      var inside := st.(inTarget := true);
      var own := AllProps(p, nodes[0].items);
      TakeAll(p, use, nodes[0].items, inside);
      TakeAllAmong(p, use, nodes[1..], inside.(all := st.all + own));
      assert st.all + own + AllAmong(p, nodes[1..]) == st.all + AllAmong(p, nodes);
    }
  }

  lemma ScanFinds(p: Parser, use: Use, lead: nat, root: Node, trail: nat)
    requires !use.WalkNodes? && HoldsTree(p, lead, root, trail)
    ensures Scan(p, use, 0, 0, [], START) ==
              match TakeNodes(p, use, Named(root, 0, [], use.nodePath), START)
              case Halt(s) => Halted(s)
              case Go(s) => Finished(s, 0)
  {
    var w, r := FlatValues(), Reader((o: nat) => ReadU32(p, o), (o: nat) => ReadString(p, o));
    TreeLaid(w, r, p, lead, root, trail);
    ScanTree(p, use, lead, root, trail);
    NodeFinds(FolderValue(p, use), r, p, use, use.nodePath, root, 4 * lead, 0, [], START);
  }

  // read_property finds the first property of the given name among the nodes of the given path.
  lemma ReadPropertyFinds(p: Parser, target: Bytes, name: Bytes, lead: nat, root: Node, trail: nat)
    requires HoldsTree(p, lead, root, trail)
    ensures PropertyResult(Scan(p, ReadProperty(target, name), 0, 0, [], START)) == FirstAmong(p, Named(root, 0, [], target), name)
  {
    var use := ReadProperty(target, name);
    ScanFinds(p, use, lead, root, trail);
    var flag := TakeFirstAmong(p, use, Named(root, 0, [], target), START);
  }

  // get_all_properties lists all the properties of the nodes of the given path.
  lemma AllPropertiesFinds(p: Parser, target: Bytes, lead: nat, root: Node, trail: nat)
    requires HoldsTree(p, lead, root, trail)
    ensures Scan(p, AllProperties(target), 0, 0, [], START).st.all == AllAmong(p, Named(root, 0, [], target))
  {
    var use := AllProperties(target);
    ScanFinds(p, use, lead, root, trail);
    TakeAllAmong(p, use, Named(root, 0, [], target), START);
    assert START.all + AllAmong(p, Named(root, 0, [], target)) == AllAmong(p, Named(root, 0, [], target));
  }

  // ----- one node a path -----

  // The nodes with their joined paths, in preorder.
  function Nodes(node: Node, depth: nat, path: Bytes): seq<(Bytes, Node)>
    decreases node, 1
  {
    var own := Join(path, node.name, depth);
    [(own, node)] + KidsNodes(node.kids, depth + 1, own)
  }

  function KidsNodes(kids: Kids, depth: nat, path: Bytes): seq<(Bytes, Node)>
    decreases kids, 0
  {
    match kids
    case NoKids => []
    case Kid(node, _, rest) => Nodes(node, depth, path) + KidsNodes(rest, depth, path)
  }

  function Select(s: seq<(Bytes, Node)>, target: Bytes): seq<Node> {
    if s == [] then [] else (if s[0].0 == target then [s[0].1] else []) + Select(s[1..], target)
  }

  lemma {:induction false} SelectConcat(a: seq<(Bytes, Node)>, b: seq<(Bytes, Node)>, target: Bytes)
    ensures Select(a + b, target) == Select(a, target) + Select(b, target)
    decreases |a|
  {
    if a == [] {
      assert a + b == b;
    } else {
      assert (a + b)[1..] == a[1..] + b;
      SelectConcat(a[1..], b, target);
      var first, rest, more := if a[0].0 == target then [a[0].1] else [], Select(a[1..], target), Select(b, target);
      assert Select(a + b, target) == first + (rest + more);
      assert first + (rest + more) == (first + rest) + more;
    }
  }

  lemma {:induction false} NamedSelects(node: Node, depth: nat, path: Bytes, target: Bytes)
    ensures Named(node, depth, path, target) == Select(Nodes(node, depth, path), target)
    decreases node, 1
  {
    var own := Join(path, node.name, depth);
    var s := Nodes(node, depth, path);
    assert s[1..] == KidsNodes(node.kids, depth + 1, own);
    KidsNamedSelect(node.kids, depth + 1, own, target);
  }

  lemma {:induction false} KidsNamedSelect(kids: Kids, depth: nat, path: Bytes, target: Bytes)
    ensures KidsNamed(kids, depth, path, target) == Select(KidsNodes(kids, depth, path), target)
    decreases kids, 0
  {
    match kids
    case NoKids =>
    case Kid(node, _, rest) =>
      NamedSelects(node, depth, path, target);
      KidsNamedSelect(rest, depth, path, target);
      SelectConcat(Nodes(node, depth, path), KidsNodes(rest, depth, path), target);
  }

  ghost predicate PathsDistinct(s: seq<(Bytes, Node)>) {
    forall i, j :: 0 <= i < j < |s| ==> s[i].0 != s[j].0
  }

  lemma {:induction false} SelectNone(s: seq<(Bytes, Node)>, target: Bytes)
    requires forall i :: 0 <= i < |s| ==> s[i].0 != target
    ensures Select(s, target) == []
    decreases |s|
  {
    if s != [] { SelectNone(s[1..], target); }
  }

  lemma {:induction false} SelectOne(s: seq<(Bytes, Node)>, i: nat)
    requires PathsDistinct(s) && i < |s|
    ensures Select(s, s[i].0) == [s[i].1]
    decreases |s|
  {
    if i == 0 {
      SelectNone(s[1..], s[0].0);
    } else {
      assert s[1..][i - 1] == s[i];
      SelectOne(s[1..], i - 1);
    }
  }

  function KidNames(kids: Kids): seq<Bytes> {
    match kids
    case NoKids => []
    case Kid(node, _, rest) => [node.name] + KidNames(rest)
  }

  // Below the root no name is empty, none holds a slash, and siblings differ.
  ghost predicate WellNamed(node: Node)
    decreases node, 1
  {
    KidsWellNamed(node.kids)
  }

  ghost predicate KidsWellNamed(kids: Kids)
    decreases kids, 0
  {
    match kids
    case NoKids => true
    case Kid(node, _, rest) =>
      && node.name != [] && SLASH !in node.name && node.name !in KidNames(rest)
      && WellNamed(node) && KidsWellNamed(rest)
  }

  // q is `own`, or goes on from it with a slash.
  predicate Under(q: Bytes, own: Bytes) {
    q == own || (|own| < |q| && q[..|own|] == own && q[|own|] == SLASH)
  }

  lemma UnderJoin(q: Bytes, own: Bytes, name: Bytes, depth: nat)
    requires own != [] && depth > 0 && Under(q, Join(own, name, depth))
    ensures Under(q, own) && q != own
  {
    var j := Join(own, name, depth);
    assert j[..|own|] == own && j[|own|] == SLASH;
    assert q[..|j|] == j;
    assert q[..|own|] == q[..|j|][..|own|];
    assert q[|own|] == q[..|j|][|own|];
  }

  // A path below `base + a` cannot go on within a longer name.
  lemma UnderLonger(q: Bytes, base: Bytes, a: Bytes, b: Bytes)
    requires SLASH !in b && Under(q, base + a) && Under(q, base + b)
    ensures |b| <= |a| && (|b| == |a| ==> a == b)
  {
    var ja, jb := base + a, base + b;
    assert q[..|ja|] == ja && q[..|jb|] == jb;
    forall k | 0 <= k < |a| ensures q[|base| + k] == a[k] { assert q[..|ja|][|base| + k] == ja[|base| + k]; }
    forall k | 0 <= k < |b| ensures q[|base| + k] == b[k] { assert q[..|jb|][|base| + k] == jb[|base| + k]; }
    assert forall k :: 0 <= k < |b| ==> b[k] != SLASH;
  }

  // Below two different names no path is the same.
  lemma UnderTwo(q: Bytes, path: Bytes, a: Bytes, b: Bytes, depth: nat)
    requires SLASH !in a && SLASH !in b
    requires Under(q, Join(path, a, depth)) && Under(q, Join(path, b, depth))
    ensures a == b
  {
    var base := Join(path, [], depth);
    assert Join(path, a, depth) == base + a && Join(path, b, depth) == base + b;
    UnderLonger(q, base, a, b);
    UnderLonger(q, base, b, a);
  }

  ghost predicate AllUnder(s: seq<(Bytes, Node)>, own: Bytes) {
    forall i :: 0 <= i < |s| ==> Under(s[i].0, own)
  }

  // Each path lies below a child of one of the given names.
  ghost predicate Below(q: Bytes, path: Bytes, depth: nat, names: seq<Bytes>) {
    exists k :: 0 <= k < |names| && Under(q, Join(path, names[k], depth))
  }

  ghost predicate AllBelow(s: seq<(Bytes, Node)>, path: Bytes, depth: nat, names: seq<Bytes>) {
    forall i :: 0 <= i < |s| ==> Below(s[i].0, path, depth, names)
  }

  lemma AllBelowConcat(a: seq<(Bytes, Node)>, b: seq<(Bytes, Node)>, path: Bytes, depth: nat, name: Bytes, names: seq<Bytes>)
    requires AllUnder(a, Join(path, name, depth)) && AllBelow(b, path, depth, names)
    ensures AllBelow(a + b, path, depth, [name] + names)
  {
    var all, more := a + b, [name] + names;
    forall i | 0 <= i < |all| ensures Below(all[i].0, path, depth, more) {
      if i < |a| {
        assert Under(a[i].0, Join(path, more[0], depth));
      } else {
        assert Below(b[i - |a|].0, path, depth, names);
        var k :| 0 <= k < |names| && Under(b[i - |a|].0, Join(path, names[k], depth));
        assert more[k + 1] == names[k];
      }
    }
  }

  lemma {:induction false} NodesUnder(node: Node, depth: nat, path: Bytes)
    requires Join(path, node.name, depth) != []
    ensures AllUnder(Nodes(node, depth, path), Join(path, node.name, depth))
    decreases node, 1
  {
    var own := Join(path, node.name, depth);
    var s, t := Nodes(node, depth, path), KidsNodes(node.kids, depth + 1, own);
    KidsBelow(node.kids, depth + 1, own);
    forall i | 0 <= i < |s| ensures Under(s[i].0, own) {
      if i > 0 {
        assert s[i] == t[i - 1];
        assert Below(t[i - 1].0, own, depth + 1, KidNames(node.kids));
        var k :| 0 <= k < |KidNames(node.kids)| && Under(t[i - 1].0, Join(own, KidNames(node.kids)[k], depth + 1));
        UnderJoin(s[i].0, own, KidNames(node.kids)[k], depth + 1);
      }
    }
  }

  lemma {:induction false} KidsBelow(kids: Kids, depth: nat, path: Bytes)
    requires path != [] || KidsWellNamed(kids)
    ensures AllBelow(KidsNodes(kids, depth, path), path, depth, KidNames(kids))
    decreases kids, 0
  {
    match kids
    case NoKids =>
    case Kid(node, _, rest) =>
      NodesUnder(node, depth, path);
      KidsBelow(rest, depth, path);
      AllBelowConcat(Nodes(node, depth, path), KidsNodes(rest, depth, path), path, depth, node.name, KidNames(rest));
  }

  lemma {:induction false} NamesSlashFree(kids: Kids)
    requires KidsWellNamed(kids)
    ensures forall k :: 0 <= k < |KidNames(kids)| ==> KidNames(kids)[k] != [] && SLASH !in KidNames(kids)[k]
    decreases kids
  {
    match kids
    case NoKids =>
    case Kid(_, _, rest) => NamesSlashFree(rest);
  }

  lemma DistinctConcat(a: seq<(Bytes, Node)>, b: seq<(Bytes, Node)>)
    requires PathsDistinct(a) && PathsDistinct(b)
    requires forall i, j :: 0 <= i < |a| && 0 <= j < |b| ==> a[i].0 != b[j].0
    ensures PathsDistinct(a + b)
  {
  }

  lemma NoneIsOwn(t: seq<(Bytes, Node)>, own: Bytes, depth: nat, names: seq<Bytes>)
    requires depth > 0 && AllBelow(t, own, depth, names) && forall k :: 0 <= k < |names| ==> names[k] != []
    ensures forall j :: 0 <= j < |t| ==> own != t[j].0
  {
    forall j | 0 <= j < |t| ensures own != t[j].0 {
      assert Below(t[j].0, own, depth, names);
      var k :| 0 <= k < |names| && Under(t[j].0, Join(own, names[k], depth));
      if own != [] { UnderJoin(t[j].0, own, names[k], depth); }
    }
  }

  // In a well-named tree the joined paths are all different.
  lemma {:induction false} PathsDiffer(node: Node, depth: nat, path: Bytes)
    requires WellNamed(node)
    requires depth == 0 || Join(path, node.name, depth) != []
    ensures PathsDistinct(Nodes(node, depth, path))
    decreases node, 1
  {
    var own := Join(path, node.name, depth);
    var t := KidsNodes(node.kids, depth + 1, own);
    var names := KidNames(node.kids);
    KidsPathsDiffer(node.kids, depth + 1, own);
    KidsBelow(node.kids, depth + 1, own);
    NamesSlashFree(node.kids);
    NoneIsOwn(t, own, depth + 1, names);
    DistinctConcat([(own, node)], t);
  }

  lemma {:induction false} KidsPathsDiffer(kids: Kids, depth: nat, path: Bytes)
    requires KidsWellNamed(kids) && depth > 0
    ensures PathsDistinct(KidsNodes(kids, depth, path))
    decreases kids, 0
  {
    match kids
    case NoKids =>
    case Kid(node, _, rest) =>
      var a, b := Nodes(node, depth, path), KidsNodes(rest, depth, path);
      var names := KidNames(rest);
      PathsDiffer(node, depth, path);
      KidsPathsDiffer(rest, depth, path);
      NodesUnder(node, depth, path);
      KidsBelow(rest, depth, path);
      NamesSlashFree(rest);
      forall i, j | 0 <= i < |a| && 0 <= j < |b| ensures a[i].0 != b[j].0 {
        assert Below(b[j].0, path, depth, names);
        var k :| 0 <= k < |names| && Under(b[j].0, Join(path, names[k], depth));
        if a[i].0 == b[j].0 { UnderTwo(a[i].0, path, node.name, names[k], depth); }
      }
      DistinctConcat(a, b);
  }

  // In a well-named tree the path of a node leads read_property and get_all_properties to that node.
  lemma PropertyOfNode(p: Parser, i: nat, name: Bytes, lead: nat, root: Node, trail: nat)
    requires HoldsTree(p, lead, root, trail) && WellNamed(root) && i < |Nodes(root, 0, [])|
    ensures var (target, node) := Nodes(root, 0, [])[i];
            && PropertyResult(Scan(p, ReadProperty(target, name), 0, 0, [], START)) == FirstProp(p, node.items, name)
            && Scan(p, AllProperties(target), 0, 0, [], START).st.all == AllProps(p, node.items)
  {
    var (target, node) := Nodes(root, 0, [])[i];
    ReadPropertyFinds(p, target, name, lead, root, trail);
    AllPropertiesFinds(p, target, lead, root, trail);
    NamedSelects(root, 0, [], target);
    PathsDiffer(root, 0, []);
    SelectOne(Nodes(root, 0, []), i);
    assert [node][1..] == [];
  }

  // A path that no node has leads to nothing.
  lemma PropertyOfNone(p: Parser, target: Bytes, name: Bytes, lead: nat, root: Node, trail: nat)
    requires HoldsTree(p, lead, root, trail)
    requires forall i :: 0 <= i < |Nodes(root, 0, [])| ==> Nodes(root, 0, [])[i].0 != target
    ensures PropertyResult(Scan(p, ReadProperty(target, name), 0, 0, [], START)) == None
    ensures Scan(p, AllProperties(target), 0, 0, [], START).st.all == []
  {
    ReadPropertyFinds(p, target, name, lead, root, trail);
    AllPropertiesFinds(p, target, lead, root, trail);
    NamedSelects(root, 0, [], target);
    SelectNone(Nodes(root, 0, []), target);
  }

  // The walk shows those same paths.
  lemma {:induction false} VisitsAreNodes(p: Parser, node: Node, off: nat, depth: nat, path: Bytes)
    ensures var (v, s) := (Visits(p, node, off, depth, path), Nodes(node, depth, path));
            |v| == |s| && forall i :: 0 <= i < |v| ==> v[i].path == s[i].0
    decreases node, 1
  {
    var own := Join(path, node.name, depth);
    KidsVisitsAreNodes(p, node.kids, off + NameSize(node.name) + ItemsSize(node.items), depth + 1, own);
  }

  lemma {:induction false} KidsVisitsAreNodes(p: Parser, kids: Kids, off: nat, depth: nat, path: Bytes)
    ensures var (v, s) := (KidsVisits(p, kids, off, depth, path), KidsNodes(kids, depth, path));
            |v| == |s| && forall i :: 0 <= i < |v| ==> v[i].path == s[i].0
    decreases kids, 0
  {
    match kids
    case NoKids =>
    case Kid(node, nops, rest) =>
      VisitsAreNodes(p, node, off, depth, path);
      KidsVisitsAreNodes(p, rest, off + NodeSize(node) + 4 * nops, depth, path);
  }

  // ----- the loops -----

  method ReadStringAt(p: Parser, o: nat) returns (r: Option<Bytes>)
    ensures r == ReadString(p, o)
  {
    var len := 0;
    while true
      invariant len <= 256 && StringLen(p, o, len) == StringLen(p, o, 0)
      decreases 257 - len
    {
      if o + len >= |p.blob| { return None; }
      if p.blob[o + len] == 0 { break; }
      len := len + 1;
      if len > 256 { return None; }
    }
    var bytes := p.blob[o..o + len];
    return if p.utf8(bytes) then Some(bytes) else None;
  }

  method Descend(path: Bytes, name: Bytes, depth: nat) returns (own: Bytes)
    ensures own == Join(path, name, depth)
  {
    own := path;
    if own != [] && depth > 0 { own := own + [SLASH]; }
    own := own + name;
  }

  method ReadWord(ghost r: Reader, p: Parser, o: nat) returns (w: Option<nat>)
    requires IsReader(r, p)
    ensures w == r.word(o)
  {
    w := ReadU32(p, o);
  }

  method ReadText(ghost r: Reader, p: Parser, o: nat) returns (name: Option<Bytes>)
    requires IsReader(r, p)
    ensures name == r.str(o)
  {
    name := ReadStringAt(p, o);
  }

  lemma ScanValue(p: Parser, use: Use) returns (f: Scanner)
    ensures IsScan(f, p, use)
  {
    f := (off: nat, depth: nat, path: Bytes, st: State) => Scan(p, use, off, depth, path, st);
  }

  lemma ReaderValue(p: Parser) returns (r: Reader)
    ensures IsReader(r, p)
  {
    r := Reader((o: nat) => ReadU32(p, o), (o: nat) => ReadString(p, o));
  }

  // The callback is told of every call so far; `calls` are all of them. The loops speak of the scan
  // through its value f.
  method Walk(p: Parser, callback: Callback) returns (r: Result<()>, calls: seq<Visit>)
    ensures var e := Scan(p, Use.WalkNodes(callback), 0, 0, [], START);
            r == WalkResult(e) && calls == e.st.trace
  {
    ghost var f := ScanValue(p, Use.WalkNodes(callback));
    ghost var reader := ReaderValue(p);
    r, calls := WalkLoop(f, reader, p, callback);
  }

  method WalkLoop(ghost f: Scanner, ghost reader: Reader, p: Parser, callback: Callback) returns (r: Result<()>, calls: seq<Visit>)
    requires IsReader(reader, p) && IsScan(f, p, Use.WalkNodes(callback))
    ensures var e := f(0, 0, [], START);
            r == WalkResult(e) && calls == e.st.trace
  {
    ghost var use := Use.WalkNodes(callback);
    ghost var goal := f(0, 0, [], START);
    var offset, depth, path := 0, 0, [];
    calls := [];
    while offset < p.sizeStruct
      invariant f(offset, depth, path, START.(trace := calls)) == goal
    {
      ghost var at, st := offset, START.(trace := calls);
      var token := ReadWord(reader, p, p.offStruct + offset);
      if token.None? {
        AtBad(f, reader, p, use, at, depth, path, st);
        return Err(BadAddress), calls;
      }
      offset := offset + 4;
      if token.value == FDT_BEGIN_NODE {
        var name := ReadText(reader, p, p.offStruct + offset);
        AtBegin(f, reader, p, use, at, depth, path, st, name);
        if name.None? { return Err(BadAddress), calls; }
        offset := offset + RoundUp(|name.value| + 1);
        path := Descend(path, name.value, depth);
        depth := depth + 1;
        if depth > MAX_DT_DEPTH { return Err(BadAddress), calls; }
        calls := calls + [Visit(path, p.offStruct + offset, depth)];
        var more := callback(calls);
        if more.Err? { return Err(more.error), calls; }
        if !more.value { return Ok(()), calls; }
      } else if token.value == FDT_END_NODE {
        AtEnd(f, reader, p, use, at, depth, path, st);
        if depth == 0 { return Err(BadAddress), calls; }
        depth := depth - 1;
        path := Parent(path);
      } else if token.value == FDT_PROP {
        var len := ReadWord(reader, p, p.offStruct + offset);
        var nameoff := ReadWord(reader, p, p.offStruct + offset + 4);
        AtProp(f, reader, p, use, at, depth, path, st, len, nameoff);
        if len.None? || nameoff.None? { return Err(BadAddress), calls; }
        offset := offset + 8 + RoundUp(len.value);
      } else if token.value == FDT_NOP {
        AtNop(f, reader, p, use, at, depth, path, st);
      } else if token.value == FDT_END {
        AtStop(f, reader, p, use, at, depth, path, st);
        break;
      } else {
        AtBad(f, reader, p, use, at, depth, path, st);
        return Err(BadAddress), calls;
      }
    }
    if offset >= p.sizeStruct { AtStop(f, reader, p, use, offset, depth, path, START.(trace := calls)); }
    if depth != 0 { return Err(BadAddress), calls; }
    return Ok(()), calls;
  }

  method FindProperty(p: Parser, nodePath: Bytes, propName: Bytes) returns (r: Option<Value>)
    ensures r == PropertyResult(Scan(p, ReadProperty(nodePath, propName), 0, 0, [], START))
  {
    ghost var f := ScanValue(p, ReadProperty(nodePath, propName));
    ghost var reader := ReaderValue(p);
    r := FindLoop(f, reader, p, nodePath, propName);
  }

  method FindLoop(ghost f: Scanner, ghost reader: Reader, p: Parser, nodePath: Bytes, propName: Bytes) returns (r: Option<Value>)
    requires IsReader(reader, p) && IsScan(f, p, ReadProperty(nodePath, propName))
    ensures r == PropertyResult(f(0, 0, [], START))
  {
    ghost var use := ReadProperty(nodePath, propName);
    ghost var goal := f(0, 0, [], START);
    var offset, depth, path, inTarget := 0, 0, [], false;
    while offset < p.sizeStruct
      invariant f(offset, depth, path, START.(inTarget := inTarget)) == goal
    {
      ghost var at, st := offset, START.(inTarget := inTarget);
      var token := ReadWord(reader, p, p.offStruct + offset);
      if token.None? {
        AtBad(f, reader, p, use, at, depth, path, st);
        return None;
      }
      offset := offset + 4;
      if token.value == FDT_BEGIN_NODE {
        var name := ReadText(reader, p, p.offStruct + offset);
        AtBeginTarget(f, reader, p, use, at, depth, path, st, name);
        if name.None? { return None; }
        offset := offset + RoundUp(|name.value| + 1);
        path := Descend(path, name.value, depth);
        depth := depth + 1;
        inTarget := path == nodePath;
      } else if token.value == FDT_END_NODE {
        AtEnd(f, reader, p, use, at, depth, path, st);
        if depth == 0 { return None; }
        depth := depth - 1;
        path := Parent(path);
        inTarget := false;
      } else if token.value == FDT_PROP {
        var len := ReadWord(reader, p, p.offStruct + offset);
        var nameoff := ReadWord(reader, p, p.offStruct + offset + 4);
        AtPropFind(f, reader, p, use, at, depth, path, st, len, nameoff);
        if len.None? || nameoff.None? { return None; }
        var dataOffset := offset + 8;
        if inTarget {
          var name := ReadText(reader, p, p.offStrings + nameoff.value);
          if name == Some(propName) { return Some(Slice(p.blob, p.offStruct + dataOffset, len.value)); }
        }
        offset := dataOffset + RoundUp(len.value);
      } else if token.value == FDT_NOP {
        AtNop(f, reader, p, use, at, depth, path, st);
      } else if token.value == FDT_END {
        AtStop(f, reader, p, use, at, depth, path, st);
        break;
      } else {
        AtBad(f, reader, p, use, at, depth, path, st);
        return None;
      }
    }
    if offset >= p.sizeStruct { AtStop(f, reader, p, use, offset, depth, path, START.(inTarget := inTarget)); }
    return None;
  }

  method ListProperties(p: Parser, nodePath: Bytes) returns (all: seq<(Bytes, Value)>)
    ensures all == Scan(p, AllProperties(nodePath), 0, 0, [], START).st.all
  {
    ghost var f := ScanValue(p, AllProperties(nodePath));
    ghost var reader := ReaderValue(p);
    all := ListLoop(f, reader, p, nodePath);
  }

  method ListLoop(ghost f: Scanner, ghost reader: Reader, p: Parser, nodePath: Bytes) returns (all: seq<(Bytes, Value)>)
    requires IsReader(reader, p) && IsScan(f, p, AllProperties(nodePath))
    ensures all == f(0, 0, [], START).st.all
  {
    ghost var use := AllProperties(nodePath);
    ghost var goal := f(0, 0, [], START);
    var offset, depth, path, inTarget := 0, 0, [], false;
    all := [];
    while offset < p.sizeStruct
      invariant f(offset, depth, path, START.(inTarget := inTarget, all := all)) == goal
    {
      ghost var at, st := offset, START.(inTarget := inTarget, all := all);
      var token := ReadWord(reader, p, p.offStruct + offset);
      if token.None? {
        AtBad(f, reader, p, use, at, depth, path, st);
        break;
      }
      offset := offset + 4;
      if token.value == FDT_BEGIN_NODE {
        var name := ReadText(reader, p, p.offStruct + offset);
        AtBeginTarget(f, reader, p, use, at, depth, path, st, name);
        if name.None? { break; }
        offset := offset + RoundUp(|name.value| + 1);
        path := Descend(path, name.value, depth);
        depth := depth + 1;
        inTarget := path == nodePath;
      } else if token.value == FDT_END_NODE {
        AtEnd(f, reader, p, use, at, depth, path, st);
        if depth == 0 { break; }
        depth := depth - 1;
        path := Parent(path);
        inTarget := false;
      } else if token.value == FDT_PROP {
        var len := ReadWord(reader, p, p.offStruct + offset);
        var nameoff := ReadWord(reader, p, p.offStruct + offset + 4);
        AtPropList(f, reader, p, use, at, depth, path, st, len, nameoff);
        if len.None? || nameoff.None? { break; }
        var dataOffset := offset + 8;
        if inTarget {
          var name := ReadText(reader, p, p.offStrings + nameoff.value);
          if name.Some? { all := all + [(name.value, Slice(p.blob, p.offStruct + dataOffset, len.value))]; }
        }
        offset := dataOffset + RoundUp(len.value);
      } else if token.value == FDT_NOP {
        AtNop(f, reader, p, use, at, depth, path, st);
      } else {
        if token.value == FDT_END { AtStop(f, reader, p, use, at, depth, path, st); } else { AtBad(f, reader, p, use, at, depth, path, st); }
        break;
      }
    }
    if offset >= p.sizeStruct { AtStop(f, reader, p, use, offset, depth, path, START.(inTarget := inTarget, all := all)); }
  }
}
