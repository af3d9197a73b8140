/** The RAM file system: a forest kept in a table of inodes. */
module RamFs {
  import Opt = Errors

  type Bytes = seq<nat>

  const MAX_INODES: nat := 256
  const BUF_SIZE: nat := 4096
  const MAX_DIR_ENTRIES: nat := 64
  const MAX_NAME: nat := 255

  datatype FileType = Regular | Directory | CharDev | BlockDev

  datatype DirEntry = DirEntry(name: Bytes, inode: nat)

  datatype Inode = Inode(ftype: FileType, data: Bytes, size: nat, entries: seq<DirEntry>, inUse: bool)

  datatype FsError = NoSpace | NotFound | NotDirectory | NotFile | NameTooLong | DirFull | InvalidInode

  datatype FsResult<T> = Ok(value: T) | Err(error: FsError)

  type Table = seq<Inode>

  // ----- what the operations do -----

  function ZeroData(): (data: Bytes)
    ensures |data| == BUF_SIZE && forall k :: 0 <= k < BUF_SIZE ==> data[k] == 0
  {
    seq(BUF_SIZE, _ => 0)
  }

  function NewInode(ftype: FileType): Inode {
    Inode(ftype, if ftype == Regular then ZeroData() else [], 0, [], true)
  }

  const UNUSED: Inode := Inode(Regular, [], 0, [], false)

  // The lowest free slot from i on.
  function FreeSlot(fs: Table, i: nat): (r: Opt.Option<nat>)
    ensures r.Some? ==> i <= r.value < |fs| && !fs[r.value].inUse && forall k :: i <= k < r.value ==> fs[k].inUse
    ensures r.None? ==> forall k :: i <= k < |fs| ==> fs[k].inUse
    decreases |fs| - i
  {
    if i >= |fs| then Opt.None else if !fs[i].inUse then Opt.Some(i) else FreeSlot(fs, i + 1)
  }

  predicate LiveDir(fs: Table, d: nat) {
    d < |fs| && fs[d].inUse && fs[d].ftype == Directory
  }

  function CreateResult(fs: Table, parent: nat, name: Bytes): FsResult<nat>
    requires parent < |fs|
  {
    if |name| > MAX_NAME then Err(NameTooLong)
    else if !LiveDir(fs, parent) then Err(NotDirectory)
    else if |fs[parent].entries| >= MAX_DIR_ENTRIES then Err(DirFull)
    else match FreeSlot(fs, 1) case None => Err(NoSpace) case Some(id) => Ok(id)
  }

  function Create(fs: Table, parent: nat, name: Bytes, ftype: FileType): Table
    requires parent < |fs|
  {
    match CreateResult(fs, parent, name)
    case Err(_) => fs
    case Ok(id) =>
      fs[id := NewInode(ftype)][parent := fs[parent].(entries := fs[parent].entries + [DirEntry(name, id)])]
  }

  // The first entry of that name, or the number of entries.
  function Position(entries: seq<DirEntry>, name: Bytes): (pos: nat)
    ensures pos <= |entries| && (forall i :: 0 <= i < pos ==> entries[i].name != name)
    ensures pos < |entries| ==> entries[pos].name == name
  {
    if entries == [] || entries[0].name == name then 0 else 1 + Position(entries[1..], name)
  }

  function Lookup(fs: Table, parent: nat, name: Bytes): FsResult<nat> {
    if parent >= |fs| || !fs[parent].inUse then Err(InvalidInode)
    else if fs[parent].ftype != Directory then Err(NotDirectory)
    else
      var pos := Position(fs[parent].entries, name);
      if pos < |fs[parent].entries| then Ok(fs[parent].entries[pos].inode) else Err(NotFound)
  }

  function Unlink(fs: Table, parent: nat, name: Bytes): Table {
    match Lookup(fs, parent, name)
    case Err(_) => fs
    case Ok(id) =>
      var pos := Position(fs[parent].entries, name);
      var shorter := fs[parent := fs[parent].(entries := fs[parent].entries[..pos] + fs[parent].entries[pos + 1..])];
      if id < |fs| then shorter[id := shorter[id].(inUse := false, data := [], entries := [])] else shorter
  }

  predicate LiveFile(fs: Table, f: nat) {
    f < |fs| && fs[f].inUse && fs[f].ftype == Regular
  }

  function FileError(fs: Table, f: nat): FsError {
    if f >= |fs| || !fs[f].inUse then InvalidInode else NotFile
  }

  function Min(a: nat, b: nat): nat { if a < b then a else b }

  // The bytes of a file with some written over, up to the end of the buffer.
  function Overwrite(data: Bytes, offset: nat, bytes: Bytes): (r: Bytes)
    requires |data| == BUF_SIZE && offset <= BUF_SIZE
    ensures |r| == BUF_SIZE
  {
    var end := Min(offset + |bytes|, BUF_SIZE);
    data[..offset] + bytes[..end - offset] + data[end..]
  }

  function Write(fs: Table, f: nat, offset: nat, bytes: Bytes): Table
    requires offset <= BUF_SIZE && (LiveFile(fs, f) ==> |fs[f].data| == BUF_SIZE)
  {
    if !LiveFile(fs, f) then fs
    else
      var end := Min(offset + |bytes|, BUF_SIZE);
      fs[f := fs[f].(data := Overwrite(fs[f].data, offset, bytes), size := if end > fs[f].size then end else fs[f].size)]
  }

  // How many bytes a read takes.
  function ReadLen(node: Inode, offset: nat, room: nat): nat {
    if offset >= node.size then 0 else Min(room, node.size - offset)
  }

  // ----- when they succeed, and what they leave -----

  // Creating succeeds exactly for names of up to 255 bytes in a live directory of fewer than 64 entries while one of
  // the slots 1 to 255 is free, and gives the lowest of these; otherwise the first of the four that fails is named.
  lemma CreateIff(fs: Table, parent: nat, name: Bytes)
    requires |fs| == 256 && parent < 256
    ensures var (r, d) := (CreateResult(fs, parent, name), fs[parent]);
            var dir := d.inUse && d.ftype == Directory;
            && (r.Ok? <==> |name| <= 255 && dir && |d.entries| < 64 && exists k: nat :: 1 <= k < 256 && !fs[k].inUse)
            && (r.Ok? ==> 1 <= r.value < 256 && !fs[r.value].inUse && forall k :: 1 <= k < r.value ==> fs[k].inUse)
            && (r == Err(NameTooLong) <==> |name| > 255)
            && (r == Err(NotDirectory) <==> |name| <= 255 && !dir)
            && (r == Err(DirFull) <==> |name| <= 255 && dir && |d.entries| >= 64)
            && (r == Err(NoSpace) <==> |name| <= 255 && dir && |d.entries| < 64 && forall k :: 1 <= k < 256 ==> fs[k].inUse)
  {
    var free := FreeSlot(fs, 1);
    if exists k: nat :: 1 <= k < 256 && !fs[k].inUse {
      var k: nat :| 1 <= k < 256 && !fs[k].inUse;
      assert free.Some?;
    }
  }

  // The slot then holds an empty inode of that type, a file with a buffer of 4096 zeros, the directory has one entry
  // more at its end, and nothing else changes.
  lemma CreateMakes(fs: Table, parent: nat, name: Bytes, ftype: FileType)
    requires |fs| == 256 && parent < 256
    ensures var (r, fs') := (CreateResult(fs, parent, name), Create(fs, parent, name, ftype));
            if r.Err? then fs' == fs
            else
              var made := fs'[r.value];
              && |fs'| == 256 && made.ftype == ftype && made.inUse && made.size == 0 && made.entries == []
              && |made.data| == (if ftype == Regular then 4096 else 0) && (forall k :: 0 <= k < |made.data| ==> made.data[k] == 0)
              && fs'[parent] == fs[parent].(entries := fs[parent].entries + [DirEntry(name, r.value)])
              && forall n :: 0 <= n < 256 && n != parent && n != r.value ==> fs'[n] == fs[n]
  {
  }

  // A name leads to the first entry that bears it.
  lemma LookupIff(fs: Table, parent: nat, name: Bytes)
    requires |fs| == 256
    ensures var r := Lookup(fs, parent, name);
            && (r == Err(InvalidInode) <==> parent >= 256 || !fs[parent].inUse)
            && (r == Err(NotDirectory) <==> parent < 256 && fs[parent].inUse && fs[parent].ftype != Directory)
            && (r == Err(NotFound) <==>
                  && parent < 256 && fs[parent].inUse && fs[parent].ftype == Directory
                  && forall i :: 0 <= i < |fs[parent].entries| ==> fs[parent].entries[i].name != name)
            && (r.Ok? ==> exists i: nat :: FirstNamed(fs[parent].entries, name, i) && r.value == fs[parent].entries[i].inode)
  {
    if Lookup(fs, parent, name).Ok? { assert FirstNamed(fs[parent].entries, name, Position(fs[parent].entries, name)); }
  }

  predicate FirstNamed(entries: seq<DirEntry>, name: Bytes, i: nat) {
    i < |entries| && entries[i].name == name && forall k :: 0 <= k < i ==> entries[k].name != name
  }

  // Writing replaces the bytes from the offset on, as many as the buffer holds, and lengthens the file at most.
  lemma WriteLeaves(fs: Table, f: nat, offset: nat, bytes: Bytes)
    requires |fs| == 256 && offset <= 4096 && (f < 256 && fs[f].inUse && fs[f].ftype == Regular ==> |fs[f].data| == 4096)
    ensures var fs' := Write(fs, f, offset, bytes);
            if f >= 256 || !fs[f].inUse || fs[f].ftype != Regular then fs' == fs
            else
              var end := if offset + |bytes| <= 4096 then offset + |bytes| else 4096;
              && |fs'| == 256 && (forall n :: 0 <= n < 256 && n != f ==> fs'[n] == fs[n])
              && fs'[f] == fs[f].(data := fs'[f].data, size := if end > fs[f].size then end else fs[f].size)
              && |fs'[f].data| == 4096
              && forall k :: 0 <= k < 4096 ==> fs'[f].data[k] == if offset <= k < end then bytes[k - offset] else fs[f].data[k]
  {
  }

  // ----- the forest -----

  predicate EntryAt(fs: Table, d: nat, i: nat) {
    d < |fs| && i < |fs[d].entries|
  }

  function Child(fs: Table, d: nat, i: nat): nat
    requires EntryAt(fs, d, i)
  {
    fs[d].entries[i].inode
  }

  ghost predicate SlotsOk(fs: Table) {
    && |fs| == MAX_INODES && LiveDir(fs, 0)
    && forall d :: 0 <= d < MAX_INODES ==>
         && (fs[d].entries != [] ==> LiveDir(fs, d) && |fs[d].entries| <= MAX_DIR_ENTRIES)
         && (LiveFile(fs, d) ==> |fs[d].data| == BUF_SIZE && fs[d].size <= BUF_SIZE)
  }

  // Every entry names a live inode other than the root, of a higher rank than its directory.
  ghost predicate EntriesOk(fs: Table, rank: seq<nat>) {
    && |rank| == |fs|
    && forall d: nat, i: nat :: EntryAt(fs, d, i) ==>
         0 < Child(fs, d, i) < |fs| && fs[Child(fs, d, i)].inUse && rank[d] < rank[Child(fs, d, i)]
  }

  // No inode is named twice.
  ghost predicate NamedOnce(fs: Table) {
    forall d: nat, i: nat, e: nat, j: nat ::
      EntryAt(fs, d, i) && EntryAt(fs, e, j) && Child(fs, d, i) == Child(fs, e, j) ==> d == e && i == j
  }

  ghost predicate Forest(fs: Table, rank: seq<nat>) {
    SlotsOk(fs) && EntriesOk(fs, rank) && NamedOnce(fs)
  }

  function FreshTable(): (fs: Table)
    ensures |fs| == MAX_INODES && fs[0] == NewInode(Directory) && forall i :: 1 <= i < MAX_INODES ==> fs[i] == UNUSED
  {
    seq(MAX_INODES, i => if i == 0 then NewInode(Directory) else UNUSED)
  }

  function Ranked(fs: Table, rank: seq<nat>, parent: nat, name: Bytes): seq<nat>
    requires parent < |fs| == |rank|
  {
    match CreateResult(fs, parent, name)
    case Err(_) => rank
    case Ok(id) => rank[id := rank[parent] + 1]
  }

  // Each entry is the new last one of the parent, or was there before.
  ghost predicate Grown(fs: Table, fs': Table, parent: nat, id: nat) {
    parent < |fs| && forall d: nat, i: nat :: EntryAt(fs', d, i) ==>
      || (d == parent && i == |fs[parent].entries| && Child(fs', d, i) == id)
      || (EntryAt(fs, d, i) && Child(fs', d, i) == Child(fs, d, i) && Child(fs, d, i) != id && d != id)
  }

  lemma CreateGrows(fs: Table, rank: seq<nat>, parent: nat, name: Bytes, ftype: FileType, id: nat)
    requires SlotsOk(fs) && EntriesOk(fs, rank) && parent < MAX_INODES && CreateResult(fs, parent, name) == Ok(id)
    ensures Grown(fs, Create(fs, parent, name, ftype), parent, id)
    ensures 0 < id < |fs| && id != parent && !fs[id].inUse
  {
    assert forall d: nat, i: nat :: EntryAt(fs, d, i) ==> Child(fs, d, i) != id && d != id;
  }

  lemma GrownNamedOnce(fs: Table, fs': Table, parent: nat, id: nat)
    requires NamedOnce(fs) && Grown(fs, fs', parent, id)
    ensures NamedOnce(fs')
  {
  }

  lemma GrownEntriesOk(fs: Table, fs': Table, rank: seq<nat>, parent: nat, id: nat)
    requires EntriesOk(fs, rank) && Grown(fs, fs', parent, id) && |fs'| == |fs| && 0 < id < |fs| && id != parent
    requires fs'[id].inUse && forall n :: 0 <= n < |fs| && fs[n].inUse ==> fs'[n].inUse
    ensures EntriesOk(fs', rank[id := rank[parent] + 1])
  {
  }

  lemma CreateSlots(fs: Table, parent: nat, name: Bytes, ftype: FileType)
    requires SlotsOk(fs) && parent < MAX_INODES
    ensures SlotsOk(Create(fs, parent, name, ftype))
  {
  }

  lemma CreateKeeps(fs: Table, rank: seq<nat>, parent: nat, name: Bytes, ftype: FileType)
    requires Forest(fs, rank) && parent < MAX_INODES
    ensures Forest(Create(fs, parent, name, ftype), Ranked(fs, rank, parent, name))
  {
    var r := CreateResult(fs, parent, name);
    if r.Ok? {
      var fs' := Create(fs, parent, name, ftype);
      CreateGrows(fs, rank, parent, name, ftype, r.value);
      CreateSlots(fs, parent, name, ftype);
      GrownNamedOnce(fs, fs', parent, r.value);
      GrownEntriesOk(fs, fs', rank, parent, r.value);
    }
  }

  // Where entry i of directory d stood before entry pos of the parent was taken out.
  function Former(d: nat, i: nat, parent: nat, pos: nat): nat {
    if d == parent && i >= pos then i + 1 else i
  }

  // Each entry left was an entry before, neither of the inode that is gone nor naming it.
  ghost predicate Shrunk(fs: Table, fs': Table, parent: nat, pos: nat, id: nat) {
    forall d: nat, i: nat :: EntryAt(fs', d, i) ==>
      && d != id && EntryAt(fs, d, Former(d, i, parent, pos))
      && Child(fs', d, i) == Child(fs, d, Former(d, i, parent, pos)) && Child(fs', d, i) != id
  }

  lemma UnlinkShrinks(fs: Table, rank: seq<nat>, parent: nat, name: Bytes, id: nat)
    requires Forest(fs, rank) && Lookup(fs, parent, name) == Ok(id)
    ensures parent < |fs| && Shrunk(fs, Unlink(fs, parent, name), parent, Position(fs[parent].entries, name), id)
  {
    var pos := Position(fs[parent].entries, name);
    var fs' := Unlink(fs, parent, name);
    assert EntryAt(fs, parent, pos) && Child(fs, parent, pos) == id;
    forall d: nat, i: nat | EntryAt(fs', d, i)
      ensures d != id && EntryAt(fs, d, Former(d, i, parent, pos))
      ensures Child(fs', d, i) == Child(fs, d, Former(d, i, parent, pos)) && Child(fs', d, i) != id
    {
    }
  }

  // Unlinking takes the first entry of the name out and empties its inode, and changes nothing else.
  lemma UnlinkTakes(fs: Table, rank: seq<nat>, parent: nat, name: Bytes) returns (i: nat)
    requires Forest(fs, rank)
    ensures var (r, fs') := (Lookup(fs, parent, name), Unlink(fs, parent, name));
            if r.Err? then fs' == fs
            else
              && parent < 256 && 0 < r.value < 256 && r.value != parent && |fs'| == 256
              && FirstNamed(fs[parent].entries, name, i) && fs[parent].entries[i].inode == r.value
              && fs'[parent] == fs[parent].(entries := fs[parent].entries[..i] + fs[parent].entries[i + 1..])
              && fs'[r.value] == fs[r.value].(inUse := false, data := [], entries := [])
              && forall n :: 0 <= n < 256 && n != parent && n != r.value ==> fs'[n] == fs[n]
  {
    i := if parent < 256 then Position(fs[parent].entries, name) else 0;
    if Lookup(fs, parent, name).Ok? { assert EntryAt(fs, parent, i) && rank[parent] < rank[Child(fs, parent, i)]; }
  }

  lemma ShrunkNamedOnce(fs: Table, fs': Table, parent: nat, pos: nat, id: nat)
    requires NamedOnce(fs) && Shrunk(fs, fs', parent, pos, id)
    ensures NamedOnce(fs')
  {
  }

  lemma ShrunkEntriesOk(fs: Table, fs': Table, rank: seq<nat>, parent: nat, pos: nat, id: nat)
    requires EntriesOk(fs, rank) && Shrunk(fs, fs', parent, pos, id) && |fs'| == |fs|
    requires forall n :: 0 <= n < |fs| && n != id && fs[n].inUse ==> fs'[n].inUse
    ensures EntriesOk(fs', rank)
  {
  }

  lemma UnlinkKeeps(fs: Table, rank: seq<nat>, parent: nat, name: Bytes)
    requires Forest(fs, rank)
    ensures Forest(Unlink(fs, parent, name), rank)
  {
    var r := Lookup(fs, parent, name);
    if r.Ok? {
      var pos, fs' := Position(fs[parent].entries, name), Unlink(fs, parent, name);
      UnlinkShrinks(fs, rank, parent, name, r.value);
      ShrunkNamedOnce(fs, fs', parent, pos, r.value);
      ShrunkEntriesOk(fs, fs', rank, parent, pos, r.value);
      UnlinkSlots(fs, rank, parent, name);
    }
  }

  lemma UnlinkSlots(fs: Table, rank: seq<nat>, parent: nat, name: Bytes)
    requires SlotsOk(fs) && EntriesOk(fs, rank)
    ensures SlotsOk(Unlink(fs, parent, name))
  {
    var r := Lookup(fs, parent, name);
    assert r.Ok? ==> EntryAt(fs, parent, Position(fs[parent].entries, name));
  }

  lemma WriteKeeps(fs: Table, rank: seq<nat>, f: nat, offset: nat, bytes: Bytes)
    requires Forest(fs, rank) && offset <= BUF_SIZE
    ensures Forest(Write(fs, f, offset, bytes), rank)
  {
    var fs' := Write(fs, f, offset, bytes);
    assert forall d: nat, i: nat :: EntryAt(fs', d, i) ==> EntryAt(fs, d, i) && Child(fs', d, i) == Child(fs, d, i);
  }

  // ----- runs -----

  datatype Op =
    | OpCreate(parent: nat, name: Bytes, ftype: FileType)
    | OpUnlink(parent: nat, name: Bytes)
    | OpWrite(f: nat, offset: nat, bytes: Bytes)

  // What the code demands: it indexes the table by the parent, and slices the buffer at the offset.
  predicate Allowed(op: Op) {
    match op
    case OpCreate(parent, _, _) => parent < MAX_INODES
    case OpUnlink(_, _) => true
    case OpWrite(_, offset, _) => offset <= BUF_SIZE
  }

  function Step(fs: Table, op: Op): Table
    requires Allowed(op) && SlotsOk(fs)
  {
    match op
    case OpCreate(parent, name, ftype) => Create(fs, parent, name, ftype)
    case OpUnlink(parent, name) => Unlink(fs, parent, name)
    case OpWrite(f, offset, bytes) => Write(fs, f, offset, bytes)
  }

  ghost predicate IsForest(fs: Table) {
    exists rank :: Forest(fs, rank)
  }

  lemma FreshKeeps()
    ensures IsForest(FreshTable()) && AllNamed(FreshTable())
  {
    assert Forest(FreshTable(), seq(MAX_INODES, _ => 0));
  }

  lemma StepKeeps(fs: Table, op: Op)
    requires IsForest(fs) && Allowed(op)
    ensures IsForest(Step(fs, op))
  {
    var rank :| Forest(fs, rank);
    match op
    case OpCreate(parent, name, ftype) => CreateKeeps(fs, rank, parent, name, ftype);
    case OpUnlink(parent, name) => UnlinkKeeps(fs, rank, parent, name);
    case OpWrite(f, offset, bytes) => WriteKeeps(fs, rank, f, offset, bytes);
  }

  predicate AllAllowed(ops: seq<Op>) {
    forall i :: 0 <= i < |ops| ==> Allowed(ops[i])
  }

  // The table after a run of create, unlink and write: from a forest always a forest.
  ghost function From(fs: Table, ops: seq<Op>): (r: Table)
    requires IsForest(fs) && AllAllowed(ops)
    ensures IsForest(r)
    decreases |ops|
  {
    if ops == [] then fs
    else
      var before := From(fs, ops[..|ops| - 1]);
      StepKeeps(before, ops[|ops| - 1]);
      Step(before, ops[|ops| - 1])
  }

  // ----- what a forest means -----

  ghost predicate Names(fs: Table, d: nat, n: nat) {
    exists i: nat :: EntryAt(fs, d, i) && Child(fs, d, i) == n
  }

  // From directory to entry, from one end to the other.
  ghost predicate Chain(fs: Table, path: seq<nat>) {
    forall k :: 0 <= k < |path| - 1 ==> Names(fs, path[k], path[k + 1])
  }

  // No way down ever comes back to where it has been.
  lemma {:induction false} NoCycle(fs: Table, rank: seq<nat>, path: seq<nat>)
    requires Forest(fs, rank) && Chain(fs, path) && |path| > 1
    ensures path[0] < |fs| && path[|path| - 1] < |fs| && rank[path[0]] < rank[path[|path| - 1]] && path[0] != path[|path| - 1]
    decreases |path|
  {
    var n := |path|;
    assert Names(fs, path[n - 2], path[n - 2 + 1]);
    if n > 2 {
      var short := path[..n - 1];
      forall k | 0 <= k < |short| - 1 ensures Names(fs, short[k], short[k + 1]) { assert Names(fs, path[k], path[k + 1]); }
      NoCycle(fs, rank, short);
    }
  }

  predicate Live(fs: Table, n: nat) {
    n < |fs| && fs[n].inUse
  }

  // Every live inode but the root stands in some directory.
  ghost predicate AllNamed(fs: Table) {
    forall n: nat {:trigger Live(fs, n)} :: n > 0 && Live(fs, n) ==> exists d: nat :: Names(fs, d, n)
  }

  // Then all that is live can be reached from the root, by one way only.
  lemma {:induction false} ReachedFromRoot(fs: Table, rank: seq<nat>, n: nat) returns (path: seq<nat>)
    requires Forest(fs, rank) && AllNamed(fs) && n < |fs| && fs[n].inUse
    ensures Chain(fs, path) && |path| > 0 && path[0] == 0 && path[|path| - 1] == n
    decreases rank[n]
  {
    if n == 0 { return [0]; }
    assert Live(fs, n);
    var d: nat :| Names(fs, d, n);
    var i: nat :| EntryAt(fs, d, i) && Child(fs, d, i) == n;
    var up := ReachedFromRoot(fs, rank, d);
    path := up + [n];
    forall k | 0 <= k < |path| - 1 ensures Names(fs, path[k], path[k + 1]) {
      if k < |up| - 1 { assert Names(fs, up[k], up[k + 1]); }
    }
  }

  lemma {:induction false} OneWay(fs: Table, rank: seq<nat>, a: seq<nat>, b: seq<nat>)
    requires Forest(fs, rank) && Chain(fs, a) && Chain(fs, b)
    requires |a| > 0 && |b| > 0 && a[0] == 0 == b[0] && a[|a| - 1] == b[|b| - 1]
    ensures a == b
    decreases |a|
  {
    if |a| > 1 { assert Names(fs, a[|a| - 2], a[|a| - 2 + 1]); }
    if |b| > 1 { assert Names(fs, b[|b| - 2], b[|b| - 2 + 1]); }
    if |a| > 1 && |b| > 1 {
      var a', b' := a[..|a| - 1], b[..|b| - 1];
      assert a[|a| - 2] == b[|b| - 2];
      forall k | 0 <= k < |a'| - 1 ensures Names(fs, a'[k], a'[k + 1]) { assert Names(fs, a[k], a[k + 1]); }
      forall k | 0 <= k < |b'| - 1 ensures Names(fs, b'[k], b'[k + 1]) { assert Names(fs, b[k], b[k + 1]); }
      OneWay(fs, rank, a', b');
      assert a == a' + [a[|a| - 1]] && b == b' + [b[|b| - 1]];
    }
  }

  // All stay named if no live inode loses its name and the one new inode has one.
  lemma NamesKept(fs: Table, fs': Table, extra: nat)
    requires AllNamed(fs) && |fs| == |fs'| && (extra == 0 || exists d: nat :: Names(fs', d, extra))
    requires forall n: nat {:trigger Live(fs', n)} :: Live(fs', n) && n != extra ==> Live(fs, n)
    requires forall d: nat, i: nat :: EntryAt(fs, d, i) && Live(fs', Child(fs, d, i)) ==> Names(fs', d, Child(fs, d, i))
    ensures AllNamed(fs')
  {
    forall n: nat | 0 < n && Live(fs', n) && n != extra ensures exists d: nat :: Names(fs', d, n) {
      var d: nat :| Names(fs, d, n);
      var i: nat :| EntryAt(fs, d, i) && Child(fs, d, i) == n;
      assert Names(fs', d, n);
    }
  }

  lemma CreateNames(fs: Table, rank: seq<nat>, parent: nat, name: Bytes, ftype: FileType)
    requires SlotsOk(fs) && EntriesOk(fs, rank) && AllNamed(fs) && parent < MAX_INODES
    ensures AllNamed(Create(fs, parent, name, ftype))
  {
    var r, fs' := CreateResult(fs, parent, name), Create(fs, parent, name, ftype);
    if r.Ok? {
      assert EntryAt(fs', parent, |fs[parent].entries|) && Child(fs', parent, |fs[parent].entries|) == r.value;
      assert Names(fs', parent, r.value);
      forall d: nat, i: nat | EntryAt(fs, d, i) ensures Names(fs', d, Child(fs, d, i)) {
        assert EntryAt(fs', d, i) && Child(fs', d, i) == Child(fs, d, i);
      }
      NamesKept(fs, fs', r.value);
    }
  }

  lemma UnlinkLeaf(fs: Table, rank: seq<nat>, parent: nat, name: Bytes, id: nat)
    requires SlotsOk(fs) && EntriesOk(fs, rank) && AllNamed(fs)
    requires Lookup(fs, parent, name) == Ok(id) && id < |fs| && fs[id].entries == []
    ensures AllNamed(Unlink(fs, parent, name))
  {
    var pos, fs' := Position(fs[parent].entries, name), Unlink(fs, parent, name);
    forall d: nat, i: nat | EntryAt(fs, d, i) && Live(fs', Child(fs, d, i))
      ensures Names(fs', d, Child(fs, d, i))
    {
      var k := if d == parent && i > pos then i - 1 else i;
      assert EntryAt(fs', d, k) && Child(fs', d, k) == Child(fs, d, i);
    }
    NamesKept(fs, fs', 0);
  }

  lemma UnlinkFull(fs: Table, rank: seq<nat>, parent: nat, name: Bytes, id: nat)
    requires Forest(fs, rank) && Lookup(fs, parent, name) == Ok(id) && id < |fs| && fs[id].entries != []
    ensures !AllNamed(Unlink(fs, parent, name))
  {
    var fs', c := Unlink(fs, parent, name), Child(fs, id, 0);
    UnlinkShrinks(fs, rank, parent, name, id);
    assert EntryAt(fs, id, 0) && c != id && Live(fs', c);
    forall d: nat ensures !Names(fs', d, c) {
      assert forall i: nat :: EntryAt(fs', d, i) ==> Child(fs', d, i) != c;
    }
  }

  // Unlinking keeps everything reachable exactly when what it unlinks has no entries of its own; the
  // entries of a directory that has some stay live, in no directory, for good.
  lemma UnlinkOrphans(fs: Table, rank: seq<nat>, parent: nat, name: Bytes)
    requires Forest(fs, rank) && AllNamed(fs) && Lookup(fs, parent, name).Ok?
    ensures var id := Lookup(fs, parent, name).value;
            id < |fs| && (AllNamed(Unlink(fs, parent, name)) <==> fs[id].entries == [])
  {
    var id := Lookup(fs, parent, name).value;
    assert EntryAt(fs, parent, Position(fs[parent].entries, name));
    if fs[id].entries == [] {
      UnlinkLeaf(fs, rank, parent, name, id);
    } else {
      UnlinkFull(fs, rank, parent, name, id);
    }
  }

  // An inode in use that stands in no directory: it can neither be found nor unlinked any more.
  ghost predicate Nameless(fs: Table, n: nat) {
    n > 0 && Live(fs, n) && forall d: nat :: !Names(fs, d, n)
  }

  lemma NamelessStays(fs: Table, rank: seq<nat>, op: Op, n: nat)
    requires Forest(fs, rank) && Allowed(op) && Nameless(fs, n)
    ensures Nameless(Step(fs, op), n)
  {
    assert forall d: nat, i: nat :: EntryAt(fs, d, i) ==> Names(fs, d, Child(fs, d, i));
    assert forall d: nat, i: nat :: EntryAt(fs, d, i) ==> Child(fs, d, i) != n;
    match op
    case OpCreate(parent, name, ftype) => CreateNamesNot(fs, rank, parent, name, ftype, n);
    case OpUnlink(parent, name) => UnlinkNamesNot(fs, rank, parent, name, n);
    case OpWrite(f, offset, bytes) =>
      assert forall d: nat, i: nat :: EntryAt(Step(fs, op), d, i) ==> EntryAt(fs, d, i) && Child(Step(fs, op), d, i) == Child(fs, d, i);
  }

  lemma CreateNamesNot(fs: Table, rank: seq<nat>, parent: nat, name: Bytes, ftype: FileType, n: nat)
    requires Forest(fs, rank) && parent < MAX_INODES && n > 0 && Live(fs, n)
    requires forall d: nat, i: nat :: EntryAt(fs, d, i) ==> Child(fs, d, i) != n
    ensures Nameless(Create(fs, parent, name, ftype), n)
  {
    if CreateResult(fs, parent, name).Ok? {
      CreateGrows(fs, rank, parent, name, ftype, CreateResult(fs, parent, name).value);
    }
  }

  lemma UnlinkNamesNot(fs: Table, rank: seq<nat>, parent: nat, name: Bytes, n: nat)
    requires Forest(fs, rank) && n > 0 && Live(fs, n)
    requires forall d: nat, i: nat :: EntryAt(fs, d, i) ==> Child(fs, d, i) != n
    ensures Nameless(Unlink(fs, parent, name), n)
  {
    if Lookup(fs, parent, name).Ok? {
      assert EntryAt(fs, parent, Position(fs[parent].entries, name));
      UnlinkShrinks(fs, rank, parent, name, Lookup(fs, parent, name).value);
    }
  }

  // What the operation unlinks, if it does, has no entries of its own.
  predicate UnlinksLeaf(fs: Table, op: Op) {
    op.OpUnlink? && Lookup(fs, op.parent, op.name).Ok? ==>
      var id := Lookup(fs, op.parent, op.name).value; id < |fs| && fs[id].entries == []
  }

  lemma StepNames(fs: Table, rank: seq<nat>, op: Op)
    requires Forest(fs, rank) && Allowed(op)
    ensures AllNamed(Step(fs, op)) <==> AllNamed(fs) && UnlinksLeaf(fs, op)
  {
    if AllNamed(fs) {
      match op
      case OpCreate(parent, name, ftype) => CreateNames(fs, rank, parent, name, ftype);
      case OpUnlink(parent, name) => if Lookup(fs, parent, name).Ok? { UnlinkOrphans(fs, rank, parent, name); }
      case OpWrite(f, offset, bytes) => WriteNames(fs, f, offset, bytes);
    } else {
      var n: nat :| n > 0 && Live(fs, n) && !exists d: nat :: Names(fs, d, n);
      NamelessStays(fs, rank, op, n);
      assert Nameless(Step(fs, op), n);
    }
  }

  lemma WriteNames(fs: Table, f: nat, offset: nat, bytes: Bytes)
    requires SlotsOk(fs) && AllNamed(fs) && offset <= BUF_SIZE
    ensures AllNamed(Write(fs, f, offset, bytes))
  {
    var fs' := Write(fs, f, offset, bytes);
    forall d: nat, i: nat | EntryAt(fs, d, i) ensures Names(fs', d, Child(fs, d, i)) {
      assert EntryAt(fs', d, i) && Child(fs', d, i) == Child(fs, d, i);
    }
    NamesKept(fs, fs', 0);
  }

  ghost predicate UnlinksLeaves(fs: Table, ops: seq<Op>)
    requires IsForest(fs) && AllAllowed(ops)
    decreases |ops|
  {
    ops == [] || (UnlinksLeaves(fs, ops[..|ops| - 1]) && UnlinksLeaf(From(fs, ops[..|ops| - 1]), ops[|ops| - 1]))
  }

  // After any run all that is in use can be reached exactly when the run has unlinked nothing that had entries:
  // an inode that has lost its last name once never gets one again.
  lemma {:induction false} RunNames(ops: seq<Op>)
    requires AllAllowed(ops)
    ensures IsForest(FreshTable())
    ensures AllNamed(From(FreshTable(), ops)) <==> UnlinksLeaves(FreshTable(), ops)
    decreases |ops|
  {
    FreshKeeps();
    if ops != [] {
      RunNames(ops[..|ops| - 1]);
      var before := From(FreshTable(), ops[..|ops| - 1]);
      var rank :| Forest(before, rank);
      StepNames(before, rank, ops[|ops| - 1]);
    }
  }

  // ----- names -----

  lemma {:induction false} PositionAppend(entries: seq<DirEntry>, e: DirEntry, name: Bytes)
    ensures Position(entries + [e], name) ==
              if Position(entries, name) < |entries| || e.name == name then Position(entries, name) else |entries| + 1
    decreases |entries|
  {
    if entries != [] && entries[0].name != name {
      assert (entries + [e])[1..] == entries[1..] + [e];
      PositionAppend(entries[1..], e, name);
    }
  }

  // What create has made is found under its name exactly when the name was free; other names are found as before.
  lemma LookupAfterCreate(fs: Table, rank: seq<nat>, parent: nat, name: Bytes, ftype: FileType, other: Bytes)
    requires Forest(fs, rank) && parent < MAX_INODES && CreateResult(fs, parent, name).Ok?
    ensures var (id, fs') := (CreateResult(fs, parent, name).value, Create(fs, parent, name, ftype));
            && (Lookup(fs', parent, name) == Ok(id) <==> Lookup(fs, parent, name) == Err(NotFound))
            && (other != name || Lookup(fs, parent, name).Ok? ==> Lookup(fs', parent, other) == Lookup(fs, parent, other))
  {
    var id := CreateResult(fs, parent, name).value;
    var entries := fs[parent].entries;
    PositionAppend(entries, DirEntry(name, id), name);
    PositionAppend(entries, DirEntry(name, id), other);
    assert forall i: nat :: i < |entries| ==> EntryAt(fs, parent, i) && Child(fs, parent, i) == entries[i].inode;
  }

  function CountName(entries: seq<DirEntry>, name: Bytes): nat {
    if entries == [] then 0 else (if entries[0].name == name then 1 else 0) + CountName(entries[1..], name)
  }

  lemma {:induction false} PositionCounts(entries: seq<DirEntry>, name: Bytes)
    ensures Position(entries, name) < |entries| <==> CountName(entries, name) > 0
    ensures var pos := Position(entries, name);
            pos < |entries| ==> CountName(entries[..pos] + entries[pos + 1..], name) == CountName(entries, name) - 1
    decreases |entries|
  {
    if entries != [] && entries[0].name != name {
      PositionCounts(entries[1..], name);
      var pos := Position(entries, name);
      if pos < |entries| {
        var t := entries[1..];
        assert (entries[..pos] + entries[pos + 1..])[1..] == t[..pos - 1] + t[pos..];
      }
    } else if entries != [] {
      assert entries[..0] + entries[1..] == entries[1..];
    }
  }

  // After unlink the name is gone exactly when it stood there once.
  lemma LookupAfterUnlink(fs: Table, rank: seq<nat>, parent: nat, name: Bytes)
    requires Forest(fs, rank) && Lookup(fs, parent, name).Ok?
    ensures Lookup(Unlink(fs, parent, name), parent, name) == Err(NotFound) <==> CountName(fs[parent].entries, name) == 1
  {
    var entries := fs[parent].entries;
    var pos := Position(entries, name);
    assert EntryAt(fs, parent, pos);
    PositionCounts(entries, name);
    PositionCounts(entries[..pos] + entries[pos + 1..], name);
  }

  // Unlinking what has just been created under a free name leaves every inode in use as it was.
  lemma CreateThenUnlink(fs: Table, rank: seq<nat>, parent: nat, name: Bytes, ftype: FileType, n: nat)
    requires Forest(fs, rank) && parent < MAX_INODES && n < MAX_INODES
    requires CreateResult(fs, parent, name).Ok? && Lookup(fs, parent, name) == Err(NotFound)
    ensures var after := Unlink(Create(fs, parent, name, ftype), parent, name);
            after[n].inUse == fs[n].inUse && (fs[n].inUse ==> after[n] == fs[n])
  {
    var id, entries := CreateResult(fs, parent, name).value, fs[parent].entries;
    PositionAppend(entries, DirEntry(name, id), name);
    LastUnlinked(Create(fs, parent, name, ftype), parent, name, id, entries);
  }

  lemma LastUnlinked(fs: Table, parent: nat, name: Bytes, id: nat, entries: seq<DirEntry>)
    requires LiveDir(fs, parent) && id < |fs| && id != parent && fs[parent].entries == entries + [DirEntry(name, id)]
    requires Position(entries + [DirEntry(name, id)], name) == |entries|
    ensures Unlink(fs, parent, name) ==
              fs[parent := fs[parent].(entries := entries)][id := fs[id].(inUse := false, data := [], entries := [])]
  {
    var longer := entries + [DirEntry(name, id)];
    assert longer[..|entries|] + longer[|entries| + 1..] == entries;
  }

  // ----- two runs -----

  lemma RunOne(fs: Table, ops: seq<Op>, op: Op)
    requires IsForest(fs) && AllAllowed(ops) && Allowed(op)
    ensures AllAllowed(ops + [op]) && From(fs, ops + [op]) == Step(From(fs, ops), op)
  {
    assert (ops + [op])[..|ops|] == ops;
  }

  lemma RunThree(fs: Table, a: Op, b: Op, c: Op)
    requires IsForest(fs) && Allowed(a) && Allowed(b) && Allowed(c)
    ensures IsForest(Step(fs, a)) && IsForest(Step(Step(fs, a), b))
    ensures From(fs, [a, b]) == Step(Step(fs, a), b) && From(fs, [a, b, c]) == Step(Step(Step(fs, a), b), c)
  {
    StepKeeps(fs, a);
    StepKeeps(Step(fs, a), b);
    RunOne(fs, [], a);
    RunOne(fs, [a], b);
    RunOne(fs, [a, b], c);
    assert [] + [a] == [a] && [a] + [b] == [a, b] && [a, b] + [c] == [a, b, c];
  }

  // A directory of the root, a file in it, and the directory unlinked: the file stays in use and nameless.
  lemma OrphanRun(name: Bytes, inner: Bytes)
    requires |name| <= MAX_NAME && |inner| <= MAX_NAME
    ensures IsForest(FreshTable())
    ensures var fs := From(FreshTable(), [OpCreate(0, name, Directory), OpCreate(1, inner, Regular), OpUnlink(0, name)]);
            LiveFile(fs, 2) && !AllNamed(fs)
  {
    FreshKeeps();
    var fs0 := FreshTable();
    RunThree(fs0, OpCreate(0, name, Directory), OpCreate(1, inner, Regular), OpUnlink(0, name));
    var fs1 := Create(fs0, 0, name, Directory);
    FreeSlotIs(fs0, 1, 1);
    FreeSlotIs(fs1, 1, 2);
    var rank0, rank1 :| Forest(fs0, rank0) && Forest(fs1, rank1);
    CreateNames(fs0, rank0, 0, name, Directory);
    InnerOrphaned(fs1, rank1, name, inner);
  }

  lemma InnerOrphaned(fs: Table, rank: seq<nat>, name: Bytes, inner: Bytes)
    requires Forest(fs, rank) && AllNamed(fs) && FreeSlot(fs, 1) == Opt.Some(2) && |inner| <= MAX_NAME
    requires LiveDir(fs, 1) && fs[1].entries == [] && fs[0].entries == [DirEntry(name, 1)]
    ensures var after := Unlink(Create(fs, 1, inner, Regular), 0, name);
            LiveFile(after, 2) && !AllNamed(after)
  {
    var fs', rank' := Create(fs, 1, inner, Regular), Ranked(fs, rank, 1, inner);
    CreateNames(fs, rank, 1, inner, Regular);
    CreateKeeps(fs, rank, 1, inner, Regular);
    assert fs'[1].entries == [DirEntry(inner, 2)] && Position(fs'[0].entries, name) == 0;
    UnlinkOrphans(fs', rank', 0, name);
  }

  // Two files under one name: the older is found, and after unlinking it the newer, under the unlinked name.
  lemma DuplicateRun(name: Bytes)
    requires |name| <= MAX_NAME
    ensures IsForest(FreshTable())
    ensures var (one, two) := (OpCreate(0, name, Regular), OpUnlink(0, name));
            Lookup(From(FreshTable(), [one, one]), 0, name) == Ok(1) && Lookup(From(FreshTable(), [one, one, two]), 0, name) == Ok(2)
  {
    FreshKeeps();
    var fs0 := FreshTable();
    var create := OpCreate(0, name, Regular);
    RunThree(fs0, create, create, OpUnlink(0, name));
    FreeSlotIs(fs0, 1, 1);
    var fs1 := Create(fs0, 0, name, Regular);
    FreeSlotIs(fs1, 1, 2);
    var fs2 := Create(fs1, 0, name, Regular);
    var entries := [DirEntry(name, 1), DirEntry(name, 2)];
    assert fs2[0].entries == entries && Position(entries, name) == 0;
    assert entries[..0] + entries[1..] == [DirEntry(name, 2)] && Position([DirEntry(name, 2)], name) == 0;
  }

  lemma FreeSlotIs(fs: Table, i: nat, r: nat)
    requires i <= r < |fs| && !fs[r].inUse && forall k :: i <= k < r ==> fs[k].inUse
    ensures FreeSlot(fs, i) == Opt.Some(r)
  {
  }

  // ----- file contents -----

  datatype Piece = Piece(offset: nat, bytes: Bytes)

  // The byte a file of 4096 zeros has at k after the writes: the last one that covers k decides.
  function ByteAt(ws: seq<Piece>, k: nat): nat
    decreases |ws|
  {
    if ws == [] then 0
    else
      var w := ws[|ws| - 1];
      if w.offset <= k < w.offset + |w.bytes| then w.bytes[k - w.offset] else ByteAt(ws[..|ws| - 1], k)
  }

  // The furthest end of a write, within the buffer.
  function EndOf(ws: seq<Piece>): (end: nat)
    decreases |ws|
  {
    if ws == [] then 0
    else
      var end := Min(ws[|ws| - 1].offset + |ws[|ws| - 1].bytes|, BUF_SIZE);
      if end > EndOf(ws[..|ws| - 1]) then end else EndOf(ws[..|ws| - 1])
  }

  ghost predicate IsFile(fs: Table, f: nat, ws: seq<Piece>) {
    LiveFile(fs, f) && |fs[f].data| == BUF_SIZE && fs[f].size == EndOf(ws) && forall k :: 0 <= k < BUF_SIZE ==> fs[f].data[k] == ByteAt(ws, k)
  }

  lemma OneWrite(fs: Table, f: nat, ws: seq<Piece>, w: Piece)
    requires w.offset <= BUF_SIZE && IsFile(fs, f, ws)
    ensures IsFile(Write(fs, f, w.offset, w.bytes), f, ws + [w])
  {
    var data := fs[f].data;
    var end := Min(w.offset + |w.bytes|, BUF_SIZE);
    var after := Overwrite(data, w.offset, w.bytes);
    assert (ws + [w])[..|ws|] == ws;
    forall k | 0 <= k < BUF_SIZE ensures after[k] == if w.offset <= k < end then w.bytes[k - w.offset] else data[k] {}
  }

  // What a run writes to inode f.
  function WritesTo(f: nat, ops: seq<Op>): seq<Piece>
    decreases |ops|
  {
    if ops == [] then []
    else
      var before := WritesTo(f, ops[..|ops| - 1]);
      match ops[|ops| - 1]
      case OpWrite(g, offset, bytes) => if g == f then before + [Piece(offset, bytes)] else before
      case _ => before
  }

  predicate Unlinks(fs: Table, op: Op, f: nat) {
    op.OpUnlink? && Lookup(fs, op.parent, op.name) == Ok(f)
  }

  // No operation of the run unlinks inode f.
  ghost predicate Survives(fs: Table, f: nat, ops: seq<Op>)
    requires IsForest(fs) && AllAllowed(ops)
    decreases |ops|
  {
    ops == [] || (Survives(fs, f, ops[..|ops| - 1]) && !Unlinks(From(fs, ops[..|ops| - 1]), ops[|ops| - 1], f))
  }

  lemma StepOnFile(fs: Table, f: nat, ws: seq<Piece>, op: Op)
    requires SlotsOk(fs) && Allowed(op) && IsFile(fs, f, ws) && !Unlinks(fs, op, f)
    ensures IsFile(Step(fs, op), f, if op.OpWrite? && op.f == f then ws + [Piece(op.offset, op.bytes)] else ws)
  {
    if op.OpWrite? && op.f == f {
      OneWrite(fs, f, ws, Piece(op.offset, op.bytes));
    } else {
      assert Step(fs, op)[f] == fs[f];
    }
  }

  lemma {:induction false} FileKept(fs: Table, f: nat, ops: seq<Op>)
    requires IsForest(fs) && AllAllowed(ops) && Survives(fs, f, ops) && IsFile(fs, f, [])
    ensures IsFile(From(fs, ops), f, WritesTo(f, ops))
    decreases |ops|
  {
    if ops != [] {
      FileKept(fs, f, ops[..|ops| - 1]);
      StepOnFile(From(fs, ops[..|ops| - 1]), f, WritesTo(f, ops[..|ops| - 1]), ops[|ops| - 1]);
    }
  }

  // A file that is created and then not unlinked holds, after any run of all three operations, the zeros it began
  // with written over by the writes to it, and its size is the furthest end of one.
  lemma FileAfterWrites(fs: Table, parent: nat, name: Bytes, f: nat, ops: seq<Op>)
    requires IsForest(fs) && parent < MAX_INODES && CreateResult(fs, parent, name) == Ok(f) && AllAllowed(ops)
    ensures var start := Step(fs, OpCreate(parent, name, Regular));
            IsForest(start) && (Survives(start, f, ops) ==> IsFile(From(start, ops), f, WritesTo(f, ops)))
  {
    var start := Step(fs, OpCreate(parent, name, Regular));
    StepKeeps(fs, OpCreate(parent, name, Regular));
    assert IsFile(start, f, []);
    if Survives(start, f, ops) { FileKept(start, f, ops); }
  }

  // What a read takes from a file: the bytes of the writes, as many as there are before the size and room for.
  ghost predicate ReadsBack(node: Inode, ws: seq<Piece>, offset: nat, room: nat) {
    var n := ReadLen(node, offset, room);
    && n == (if offset >= EndOf(ws) then 0 else Min(room, EndOf(ws) - offset))
    && (n > 0 ==> offset + n <= BUF_SIZE == |node.data|)
    && (forall k: nat :: offset <= k < offset + n ==> node.data[k] == ByteAt(ws, k))
  }

  lemma {:induction false} EndInBuffer(ws: seq<Piece>)
    ensures EndOf(ws) <= BUF_SIZE
    decreases |ws|
  {
    if ws != [] { EndInBuffer(ws[..|ws| - 1]); }
  }

  lemma FileReads(fs: Table, f: nat, ws: seq<Piece>, offset: nat, room: nat)
    requires IsFile(fs, f, ws)
    ensures ReadsBack(fs[f], ws, offset, room)
  {
    EndInBuffer(ws);
  }

  // So a read from such a file brings those bytes back.
  lemma ReadAfterWrites(fs: Table, f: nat, ops: seq<Op>, offset: nat, room: nat)
    requires IsForest(fs) && AllAllowed(ops) && Survives(fs, f, ops) && IsFile(fs, f, [])
    ensures f < |From(fs, ops)| && ReadsBack(From(fs, ops)[f], WritesTo(f, ops), offset, room)
  {
    FileKept(fs, f, ops);
    FileReads(From(fs, ops), f, WritesTo(f, ops), offset, room);
  }

  // ----- in place -----

  class RamFs {
    const inodes: array<Inode>
    ghost var rank: seq<nat>

    ghost predicate Valid()
      reads this, inodes
    {
      inodes.Length == MAX_INODES && Forest(inodes[..], rank)
    }

    constructor ()
      ensures Valid() && fresh(inodes) && inodes[..] == FreshTable()
    {
      inodes := new Inode[MAX_INODES](i => if i == 0 then NewInode(Directory) else UNUSED);
      rank := seq(MAX_INODES, _ => 0);
      new;
      assert inodes[..] == FreshTable();
    }

    method AllocInode(ftype: FileType) returns (r: FsResult<nat>)
      requires Valid()
      modifies inodes
      ensures r == match FreeSlot(old(inodes[..]), 1) case None => Err(NoSpace) case Some(id) => Ok(id)
      ensures inodes[..] == if r.Ok? then old(inodes[..])[r.value := NewInode(ftype)] else old(inodes[..])
    {
      ghost var fs := inodes[..];
      for i := 1 to MAX_INODES
        invariant inodes[..] == fs && FreeSlot(fs, 1) == FreeSlot(fs, i)
      {
        if !inodes[i].inUse {
          inodes[i] := NewInode(ftype);
          return Ok(i);
        }
      }
      return Err(NoSpace);
    }

    method Create(parent: nat, name: Bytes, ftype: FileType) returns (r: FsResult<nat>)
      requires Valid() && parent < MAX_INODES
      modifies this, inodes
      ensures Valid() && inodes[..] == Step(old(inodes[..]), OpCreate(parent, name, ftype))
      ensures r == CreateResult(old(inodes[..]), parent, name)
    {
      if |name| > MAX_NAME { return Err(NameTooLong); }
      if !inodes[parent].inUse || inodes[parent].ftype != Directory { return Err(NotDirectory); }
      if |inodes[parent].entries| >= MAX_DIR_ENTRIES { return Err(DirFull); }
      ghost var fs := inodes[..];
      r := AllocInode(ftype);
      if r.Err? { return; }
      assert inodes[..][parent] == fs[parent];
      inodes[parent] := inodes[parent].(entries := inodes[parent].entries + [DirEntry(name, r.value)]);
      CreateKeeps(fs, rank, parent, name, ftype);
      rank := Ranked(fs, rank, parent, name);
    }

    // The position of the first entry of that name, or their number.
    method FindEntry(parent: nat, name: Bytes) returns (pos: nat)
      requires Valid() && parent < MAX_INODES
      ensures pos == Position(inodes[parent].entries, name)
    {
      var entries := inodes[parent].entries;
      pos := 0;
      while pos < |entries|
        invariant pos <= |entries| && forall i :: 0 <= i < pos ==> entries[i].name != name
      {
        if entries[pos].name == name { break; }
        pos := pos + 1;
      }
      PositionIs(entries, name, pos);
    }

    method Find(parent: nat, name: Bytes) returns (r: FsResult<nat>)
      requires Valid()
      ensures r == Lookup(inodes[..], parent, name)
    {
      if parent >= MAX_INODES || !inodes[parent].inUse { return Err(InvalidInode); }
      if inodes[parent].ftype != Directory { return Err(NotDirectory); }
      var pos := FindEntry(parent, name);
      if pos == |inodes[parent].entries| { return Err(NotFound); }
      return Ok(inodes[parent].entries[pos].inode);
    }

    method Remove(parent: nat, name: Bytes) returns (r: FsResult<()>)
      requires Valid()
      modifies inodes
      ensures Valid() && inodes[..] == Step(old(inodes[..]), OpUnlink(parent, name))
      ensures var l := Lookup(old(inodes[..]), parent, name); r == if l.Ok? then Ok(()) else Err(l.error)
    {
      if parent >= MAX_INODES || !inodes[parent].inUse { return Err(InvalidInode); }
      if inodes[parent].ftype != Directory { return Err(NotDirectory); }
      ghost var fs := inodes[..];
      var pos := FindEntry(parent, name);
      var entries := inodes[parent].entries;
      if pos == |entries| { return Err(NotFound); }
      var id := entries[pos].inode;
      assert EntryAt(fs, parent, pos) && Child(fs, parent, pos) == id;
      UnlinkKeeps(fs, rank, parent, name);
      inodes[parent] := inodes[parent].(entries := entries[..pos] + entries[pos + 1..]);
      inodes[id] := inodes[id].(inUse := false, data := [], entries := []);
      return Ok(());
    }

    method Read(f: nat, offset: nat, buf: array<nat>) returns (r: FsResult<nat>)
      requires Valid()
      modifies buf
      ensures r.Err? <==> f >= 256 || !inodes[f].inUse || inodes[f].ftype != Regular
      ensures r.Err? ==> r.error == (if f >= 256 || !inodes[f].inUse then InvalidInode else NotFile) && buf[..] == old(buf[..])
      ensures r.Ok? ==>
                var node := inodes[f];
                && r.value == ReadLen(node, offset, buf.Length) && (r.value > 0 ==> offset + r.value <= |node.data|)
                && r.value == (if offset >= node.size then 0 else if buf.Length <= node.size - offset then buf.Length else node.size - offset)
                && forall k :: 0 <= k < buf.Length ==> buf[k] == if k < r.value then node.data[offset + k] else old(buf[k])
    {
      if f >= MAX_INODES || !inodes[f].inUse { return Err(InvalidInode); }
      if inodes[f].ftype != Regular { return Err(NotFile); }
      var node := inodes[f];
      assert node == inodes[..][f];
      if offset >= node.size { return Ok(0); }
      var avail := node.size - offset;
      var n := Min(buf.Length, avail);
      forall k | 0 <= k < n { buf[k] := node.data[offset + k]; }
      return Ok(n);
    }

    method Write(f: nat, offset: nat, bytes: Bytes) returns (r: FsResult<nat>)
      requires Valid() && offset <= BUF_SIZE
      modifies inodes
      ensures Valid() && inodes[..] == Step(old(inodes[..]), OpWrite(f, offset, bytes))
      ensures r == if f >= 256 || !old(inodes[f]).inUse then Err(InvalidInode)
                   else if old(inodes[f]).ftype != Regular then Err(NotFile)
                   else Ok(if offset + |bytes| <= 4096 then |bytes| else 4096 - offset)
    {
      ghost var fs := inodes[..];
      WriteKeeps(fs, rank, f, offset, bytes);
      if f >= MAX_INODES || !inodes[f].inUse { return Err(InvalidInode); }
      if inodes[f].ftype != Regular { return Err(NotFile); }
      assert inodes[f] == fs[f];
      var node := inodes[f];
      var end := Min(offset + |bytes|, BUF_SIZE);
      var n := end - offset;
      node := node.(data := node.data[..offset] + bytes[..n] + node.data[end..]);
      if end > node.size { node := node.(size := end); }
      inodes[f] := node;
      return Ok(n);
    }
  }

  lemma {:induction false} PositionIs(entries: seq<DirEntry>, name: Bytes, pos: nat)
    requires pos <= |entries| && (forall i :: 0 <= i < pos ==> entries[i].name != name)
    requires pos < |entries| ==> entries[pos].name == name
    ensures pos == Position(entries, name)
  {
  }
}
