/** Packing a directory into a ustar archive, the estimate of its size, and extraction.

    A file tree is what the recursive iteration over a directory sees; an archive is the sequence of
    its records, and `Stream` lays them out as the "ustar Interchange Format" of IEEE Std 1003.1
    does: a header block, the data padded to whole blocks, and two closing blocks. */
module Tar {
  import opened Paths
  import opened Words
  import opened BlockSize
  import Wire
  import opened TaskStatus

  type Byte = Wire.Byte

  const BLOCK: nat := 512

  /** A link is seen through, except that iteration does not descend into a linked directory; a
      broken link is one whose target is missing or is neither a file nor a directory. */
  datatype Node =
    | File(data: seq<Byte>) | LinkToFile(data: seq<Byte>)
    | Dir(children: seq<Child>) | LinkToDir
    | BrokenLink | Special
  {
    predicate IsRegular() { File? || LinkToFile? }
    predicate IsDirectory() { Dir? || LinkToDir? }
    predicate IsSymlink() { LinkToFile? || LinkToDir? || BrokenLink? }
    predicate IsPacked() { IsRegular() || IsDirectory() }
  }

  datatype Child = Child(name: string, node: Node)

  datatype Visit = Visit(path: seq<string>, node: Node)

  /** The recursive iteration: each entry, then what is below it, then its siblings. */
  function Walk(children: seq<Child>, at: seq<string>): seq<Visit>
    decreases children
  {
    if children == [] then []
    else
      var c := children[0];
      [Visit(at + [c.name], c.node)]
        + (if c.node.Dir? then Walk(c.node.children, at + [c.name]) else [])
        + Walk(children[1..], at)
  }

  datatype Record = DirRecord(name: seq<Elem>) | FileRecord(name: seq<Elem>, data: seq<Byte>)

  // ---- the stream ----

  function Padding(n: nat): (p: nat)
    ensures p < BLOCK && (n + p) % BLOCK == 0
  {
    assert n == BLOCK * (n / BLOCK) + n % BLOCK;
    if n % BLOCK == 0 then 0 else BLOCK - n % BLOCK
  }

  function Data(r: Record): seq<Byte> { if r.FileRecord? then r.data else [] }

  /** The bytes of the records, for any encoding of a record's header as one block. */
  ghost function Layout(records: seq<Record>, header: Record -> seq<Byte>): seq<Byte> {
    if records == [] then []
    else
      var r := records[|records| - 1];
      Layout(records[..|records| - 1], header) + header(r) + Data(r) + Wire.Zeros(Padding(|Data(r)|))
  }

  ghost function Stream(records: seq<Record>, header: Record -> seq<Byte>): seq<Byte> {
    Layout(records, header) + Wire.Zeros(2 * BLOCK)
  }

  ghost predicate OneBlockHeaders(header: Record -> seq<Byte>) {
    forall r :: |header(r)| == BLOCK
  }

  /** The length of one record: its header and its data, filled up to whole blocks. */
  function RecordSize(r: Record): nat { BLOCK + |Data(r)| + Padding(|Data(r)|) }

  function TotalSize(records: seq<Record>): nat {
    if records == [] then 0 else TotalSize(records[..|records| - 1]) + RecordSize(records[|records| - 1])
  }

  lemma SizeOneMore(records: seq<Record>, r: Record)
    ensures TotalSize(records + [r]) == TotalSize(records) + RecordSize(r)
  {
    assert (records + [r])[..|records|] == records;
  }

  lemma {:induction false} LayoutLength(records: seq<Record>, header: Record -> seq<Byte>)
    requires OneBlockHeaders(header)
    ensures |Layout(records, header)| == TotalSize(records)
  {
    if records != [] {
      LayoutLength(records[..|records| - 1], header);
    }
  }

  lemma BlockIsPow2()
    ensures Pow2(9) == BLOCK
  {
    assert Pow2(3) == 8 && Pow2(6) == 8 * Pow2(3) && Pow2(9) == 8 * Pow2(6);
  }

  /** On every size that a file can have, the mask form of the rounding is the padded size, up to
      the wrap of 64-bit sums. */
  lemma XAlignIsPadded(n: nat)
    requires n < WORD64
    ensures XAlign(n, BLOCK) == (n + Padding(n)) % WORD64
  {
    BlockIsPow2();
    AlignIsFloor(n, 9);
    MultipleBelowWord(n, 9);
  }

  method AlignedSize(n: nat) returns (size: nat)
    requires n < WORD64
    ensures size == (n + Padding(n)) % WORD64
  {
    XAlignIsPadded(n);
    size := XAlign(n, BLOCK);
  }

  // ---- names ----

  /** Replace the real parent by the normalised archive parent. */
  method Transform(source: seq<Elem>, realParent: seq<Elem>, archiveParent: seq<Elem>) returns (r: seq<Elem>)
    ensures r == Renamed(source, realParent, archiveParent)
  {
    var normSource := LexicalNormalize(source, false);
    var normRealParent := LexicalNormalize(realParent, false);
    var normArchiveParent := LexicalNormalize(archiveParent, false);
    var rel := Relative(Elements(normSource), Elements(normRealParent), [ROOT]);
    r := Elements(if normArchiveParent.Empty? then Rooted([], false) else normArchiveParent) + rel;
  }

  function Renamed(source: seq<Elem>, realParent: seq<Elem>, archiveParent: seq<Elem>): seq<Elem> {
    var a := Normalize(archiveParent, false);
    Elements(if a.Empty? then Rooted([], false) else a)
      + RelativeTo(Absolute(Elements(Normalize(source, false)), [ROOT]),
        Absolute(Elements(Normalize(realParent, false)), [ROOT]))
  }

  lemma NormalizePlain(names: seq<string>)
    requires AllPlain(names)
    ensures Normalize([ROOT] + names, false) == Rooted(names, false)
  {
    assert ([ROOT] + names)[1..] == names;
    ReducePlain([], names);
  }

  lemma RelativeBelow(base: seq<Elem>, path: seq<Elem>)
    ensures RelativeTo(base + path, base) == path
  {
    CommonIsLongest(base + path, base, |base|);
    assert base[|base|..] == [] && (base + path)[|base|..] == path;
  }

  /** Every entry is stored under the surviving names of the archive directory followed by its own
      path below the source. */
  lemma StoredName(source: seq<string>, path: seq<string>, archiveDir: seq<Elem>)
    requires AllPlain(source) && AllPlain(path)
    ensures Renamed([ROOT] + source + path, [ROOT] + source, archiveDir) == [ROOT] + Survivors(archiveDir) + path
  {
    var base := [ROOT] + source;
    assert base + path == [ROOT] + (source + path);
    NormalizePlain(source + path);
    NormalizePlain(source);
    RelativeBelow(base, path);
    NormalizeIsSurvivors(archiveDir);
    assert Elements(Rooted(source + path, false)) == base + path && Elements(Rooted(source, false)) == base;
    var a := Normalize(archiveDir, false);
    assert Elements(if a.Empty? then Rooted([], false) else a) == [ROOT] + Survivors(archiveDir);
  }

  // ---- packing ----

  function Packed(v: Visit, source: seq<Elem>, archiveDir: seq<Elem>): Record
    requires v.node.IsPacked()
  {
    RecordFor(Renamed(source + v.path, source, archiveDir), v.node)
  }

  function RecordFor(name: seq<Elem>, node: Node): Record
    requires node.IsPacked()
  {
    if node.IsRegular() then FileRecord(name, node.data) else DirRecord(name)
  }

  function PackAll(visits: seq<Visit>, source: seq<Elem>, archiveDir: seq<Elem>): seq<Record> {
    if visits == [] then [DirRecord(Renamed(source, source, archiveDir))]
    else
      var v := visits[|visits| - 1];
      PackAll(visits[..|visits| - 1], source, archiveDir)
        + (if v.node.IsPacked() then [Packed(v, source, archiveDir)] else [])
  }

  /** The loop that appends a record for the source directory and for everything below it. */
  method AddDirectory(children: seq<Child>, source: seq<Elem>, archiveDir: seq<Elem>) returns (records: seq<Record>)
    ensures records == PackAll(Walk(children, []), source, archiveDir)
  {
    var name := Transform(source, source, archiveDir);
    records := [DirRecord(name)];
    var visits := Walk(children, []);
    for i := 0 to |visits|
      invariant records == PackAll(visits[..i], source, archiveDir)
    {
      var v := visits[i];
      PackOneMore(visits, i, source, archiveDir);
      name := Transform(source + v.path, source, archiveDir);
      if v.node.IsRegular() {
        records := records + [FileRecord(name, v.node.data)];
      } else if v.node.IsDirectory() {
        records := records + [DirRecord(name)];
      }
    }
    assert visits[..|visits|] == visits;
  }

  datatype ReadOutcome = Interrupted | ReadFailed(code: int) | Chunk(n: nat)

  /** How much of the file the reads return, if they are all made. */
  function Returned(preads: seq<ReadOutcome>): nat {
    if preads == [] then 0
    else
      var last := preads[|preads| - 1];
      Returned(preads[..|preads| - 1]) + if last.Chunk? then last.n else 0
  }

  lemma ReturnedNext(preads: seq<ReadOutcome>, i: nat)
    requires i < |preads|
    ensures Returned(preads[..i + 1]) == Returned(preads[..i]) + if preads[i].Chunk? then preads[i].n else 0
  {
    assert preads[..i + 1][..i] == preads[..i];
  }

  function Least(a: nat, b: nat): nat { if a < b then a else b }

  /** Append a file's bytes with reads of any positive size and any number of interruptions; the
      outcomes are those of the reads that take place, `used` of them before the one that decides, and
      the call is over when `done` is set. What is appended is what the reads returned; the call ends
      with an error if and only if the deciding read failed before the whole size was there, and with
      that read's code; and it ends without one if and only if the size or the file is exhausted. */
  method AppendFileData(file: seq<Byte>, size: nat, preads: seq<ReadOutcome>)
    returns (appended: seq<Byte>, error: int, done: bool, ghost used: nat)
    requires forall i :: 0 <= i < |preads| && preads[i].Chunk? ==> 0 < preads[i].n <= 16384
    requires forall i :: 0 <= i < |preads| && preads[i].ReadFailed? ==> preads[i].code != 0
    ensures used <= |preads| && forall i :: 0 <= i < used ==> !preads[i].ReadFailed?
    ensures appended == file[..Least(Returned(preads[..used]), |file|)]
    ensures error != 0 <==> |appended| < size && used < |preads| && preads[used].ReadFailed?
    ensures error != 0 ==> done && preads[used] == ReadFailed(error)
    ensures done && error == 0 ==> |appended| >= size || appended == file
    ensures done && error == 0 && size == |file| ==> appended == file
    ensures !done ==> used == |preads|
  {
    appended, error, done := [], 0, false;
    var i := 0;
    while |appended| < size
      invariant i <= |preads| && appended == file[..Least(Returned(preads[..i]), |file|)]
      invariant forall k :: 0 <= k < i ==> !preads[k].ReadFailed?
      decreases |preads| - i
    {
      if i == |preads| {
        return appended, 0, false, i;
      }
      ReturnedNext(preads, i);
      var read, offset := preads[i], |appended|;
      if read.ReadFailed? {
        return appended, read.code, true, i;
      }
      if read.Chunk? {
        var n := Least(|file| - offset, read.n);
        if n == 0 {
          return appended, 0, true, i;
        }
        appended := appended + file[offset..offset + n];
      }
      i := i + 1;
    }
    return appended, 0, true, i;
  }

  // ---- the estimate ----

  /** The size of a file is a 64-bit number. */
  ghost predicate SizesFit(visits: seq<Visit>) {
    forall i :: 0 <= i < |visits| && visits[i].node.IsRegular() ==> |visits[i].node.data| < WORD64
  }

  predicate NoBrokenLinks(visits: seq<Visit>) {
    forall i :: 0 <= i < |visits| ==> !visits[i].node.BrokenLink?
  }

  /** The source of a packing: a directory, a file, or something that has no size. */
  datatype Source = FromDirectory(children: seq<Child>) | FromFile(data: seq<Byte>) | FromOther

  /** An error code, an exception, or a size. */
  datatype Estimate = Unknown | Thrown | Size(bytes: nat)

  /** What packing the source records. */
  function PackSource(src: Source, source: seq<Elem>, archiveDir: seq<Elem>): seq<Record>
    requires !src.FromOther?
  {
    if src.FromFile? then [FileRecord(archiveDir, src.data)] else PackAll(Walk(src.children, []), source, archiveDir)
  }

  ghost predicate SourceFits(src: Source) {
    match src
    case FromDirectory(children) => SizesFit(Walk(children, []))
    case FromFile(data) => |data| < WORD64
    case FromOther => true
  }

  /** What one visited entry adds to the estimate, and to the stream. */
  function Cost(node: Node): nat {
    if node.IsDirectory() then BLOCK
    else if node.IsRegular() then BLOCK + |node.data| + Padding(|node.data|)
    else 0
  }

  lemma PackedCost(name: seq<Elem>, node: Node)
    requires node.IsPacked()
    ensures RecordSize(RecordFor(name, node)) == Cost(node)
  {
    assert node.IsDirectory() ==> Data(RecordFor(name, node)) == [];
  }

  lemma CostIsExact(records: seq<Record>, v: Visit, source: seq<Elem>, archiveDir: seq<Elem>)
    ensures TotalSize(records + if v.node.IsPacked() then [Packed(v, source, archiveDir)] else []) ==
            TotalSize(records) + Cost(v.node)
  {
    if v.node.IsPacked() {
      SizeOneMore(records, Packed(v, source, archiveDir));
      PackedCost(Renamed(source + v.path, source, archiveDir), v.node);
    } else {
      assert records + [] == records;
    }
  }

  lemma PackOneMore(visits: seq<Visit>, i: nat, source: seq<Elem>, archiveDir: seq<Elem>)
    requires i < |visits|
    ensures PackAll(visits[..i + 1], source, archiveDir) ==
            PackAll(visits[..i], source, archiveDir)
              + if visits[i].node.IsPacked() then [Packed(visits[i], source, archiveDir)] else []
  {
    assert visits[..i + 1][..i] == visits[..i];
  }

  function TotalCost(visits: seq<Visit>): nat {
    if visits == [] then 0 else TotalCost(visits[..|visits| - 1]) + Cost(visits[|visits| - 1].node)
  }

  lemma CostOneMore(visits: seq<Visit>, i: nat)
    requires i < |visits|
    ensures TotalCost(visits[..i + 1]) == TotalCost(visits[..i]) + Cost(visits[i].node)
  {
    assert visits[..i + 1][..i] == visits[..i];
  }

  lemma WrapSum(a: nat, b: nat, c: nat)
    ensures (a % WORD64 + b) % WORD64 == (a + b) % WORD64
    ensures (a % WORD64 + b + c % WORD64) % WORD64 == (a + b + c) % WORD64
  {
    var x, y := a % WORD64, c % WORD64;
    assert a == x + WORD64 * (a / WORD64) && c == y + WORD64 * (c / WORD64);
    DropWraps(x + b, a / WORD64);
    DropWraps(x + b + y, a / WORD64 + c / WORD64);
    assert WORD64 * (a / WORD64 + c / WORD64) == WORD64 * (a / WORD64) + WORD64 * (c / WORD64);
  }

  lemma {:induction false} DropWraps(x: nat, k: nat)
    ensures (x + WORD64 * k) % WORD64 == x % WORD64
  {
    if k > 0 {
      DropWraps(x, k - 1);
      var y := x + WORD64 * (k - 1);
      assert x + WORD64 * k == y + WORD64;
    }
  }

  /** The loop over the entries of a directory: it fails exactly when it meets a broken link, and
      otherwise adds up the costs, with the wrap of 64-bit sums. */
  method EstimateEntries(visits: seq<Visit>) returns (ok: bool, sz: nat)
    requires SizesFit(visits)
    ensures ok <==> NoBrokenLinks(visits)
    ensures ok ==> sz == TotalCost(visits) % WORD64
  {
    sz := 0;
    for i := 0 to |visits|
      invariant NoBrokenLinks(visits[..i]) && sz == TotalCost(visits[..i]) % WORD64
    {
      var v := visits[i];
      CostOneMore(visits, i);
      ghost var padded := if v.node.IsRegular() then |v.node.data| + Padding(|v.node.data|) else 0;
      WrapSum(TotalCost(visits[..i]), BLOCK, padded);
      if v.node.IsDirectory() {
        sz := (sz + BLOCK) % WORD64;
      } else if v.node.IsRegular() || v.node.IsSymlink() {
        if v.node.BrokenLink? {
          return false, 0;
        }
        var aligned := AlignedSize(|v.node.data|);
        sz := (sz + BLOCK + aligned) % WORD64;
      }
    }
    assert visits[..|visits|] == visits;
    return true, sz;
  }

  method EstimateCost(src: Source) returns (e: Estimate)
    requires SourceFits(src)
    ensures e.Thrown? <==> src.FromOther?
    ensures e.Unknown? <==> src.FromDirectory? && !NoBrokenLinks(Walk(src.children, []))
    ensures e.Size? ==> e.bytes == (SourceCost(src) + 2 * BLOCK) % WORD64
  {
    var sz := 0;
    match src {
      case FromOther => return Thrown;
      case FromDirectory(children) =>
        var ok;
        ok, sz := EstimateEntries(Walk(children, []));
        if !ok {
          return Estimate.Unknown;
        }
        WrapSum(TotalCost(Walk(children, [])), BLOCK, 0);
        sz := (sz + BLOCK) % WORD64;
      case FromFile(data) =>
        var aligned := AlignedSize(|data|);
        WrapSum(0, BLOCK, |data| + Padding(|data|));
        sz := (sz + BLOCK + aligned) % WORD64;
    }
    WrapSum(SourceCost(src), 2 * BLOCK, 0);
    sz := (sz + 2 * BLOCK) % WORD64;
    return Size(sz);
  }

  /** The estimate, for every source, is the length of the very stream that packing it emits, whatever
      its names and headers are, up to the wrap of 64-bit sums; a directory with a broken link has
      none, and neither has a source that is not a file or a directory. */
  method EstimateSizeOncePacked(src: Source, ghost source: seq<Elem>, ghost archiveDir: seq<Elem>,
                                ghost header: Record -> seq<Byte>)
    returns (e: Estimate)
    requires SourceFits(src) && OneBlockHeaders(header)
    ensures e.Thrown? <==> src.FromOther?
    ensures e.Unknown? <==> src.FromDirectory? && !NoBrokenLinks(Walk(src.children, []))
    ensures e.Size? ==> e.bytes == |Stream(PackSource(src, source, archiveDir), header)| % WORD64
    ensures src.FromDirectory? && Proper(src.children) ==>
      (e.Unknown? <==> exists path :: Lookup(src.children, path) == Some(BrokenLink))
  {
    e := EstimateCost(src);
    if src.FromDirectory? && Proper(src.children) {
      BrokenIff(src.children);
    }
    if e.Size? {
      StreamIsCost(src, source, archiveDir, header);
    }
  }

  function SourceCost(src: Source): nat
    requires !src.FromOther?
  {
    if src.FromFile? then BLOCK + |src.data| + Padding(|src.data|) else TotalCost(Walk(src.children, [])) + BLOCK
  }

  lemma StreamIsCost(src: Source, source: seq<Elem>, archiveDir: seq<Elem>, header: Record -> seq<Byte>)
    requires OneBlockHeaders(header) && !src.FromOther?
    ensures |Stream(PackSource(src, source, archiveDir), header)| == SourceCost(src) + 2 * BLOCK
  {
    if src.FromFile? {
      FileIsExact(src.data, archiveDir, header);
    } else {
      EstimateIsExact(src.children, source, archiveDir, header);
    }
  }

  lemma FileIsExact(data: seq<Byte>, name: seq<Elem>, header: Record -> seq<Byte>)
    requires OneBlockHeaders(header)
    ensures |Stream([FileRecord(name, data)], header)| == BLOCK + |data| + Padding(|data|) + 2 * BLOCK
  {
    SizeOneMore([], FileRecord(name, data));
    assert [] + [FileRecord(name, data)] == [FileRecord(name, data)];
    LayoutLength([FileRecord(name, data)], header);
  }

  lemma {:induction false} SizeIsCost(visits: seq<Visit>, n: nat, source: seq<Elem>, archiveDir: seq<Elem>)
    requires n <= |visits|
    ensures TotalSize(PackAll(visits[..n], source, archiveDir)) == BLOCK + TotalCost(visits[..n])
  {
    if n == 0 {
      RootCost(source, archiveDir);
    } else {
      SizeIsCost(visits, n - 1, source, archiveDir);
      PackOneMore(visits, n - 1, source, archiveDir);
      CostIsExact(PackAll(visits[..n - 1], source, archiveDir), visits[n - 1], source, archiveDir);
      CostOneMore(visits, n - 1);
    }
  }

  /** What the estimate adds up is the length of the very stream that packing the directory emits,
      whatever its names and headers are. */
  lemma EstimateIsExact(children: seq<Child>, source: seq<Elem>, archiveDir: seq<Elem>, header: Record -> seq<Byte>)
    requires OneBlockHeaders(header)
    ensures TotalCost(Walk(children, [])) + 3 * BLOCK ==
      |Stream(PackAll(Walk(children, []), source, archiveDir), header)|
  {
    var visits := Walk(children, []);
    SizeIsCost(visits, |visits|, source, archiveDir);
    assert visits[..|visits|] == visits;
    LayoutLength(PackAll(visits, source, archiveDir), header);
  }

  /** The stream of an empty directory: one header and two closing blocks. */
  lemma EmptyDirectory(source: seq<Elem>, archiveDir: seq<Elem>, header: Record -> seq<Byte>)
    requires OneBlockHeaders(header)
    ensures |Stream(PackAll([], source, archiveDir), header)| == 3 * 512
  {
    RootCost(source, archiveDir);
    LayoutLength(PackAll([], source, archiveDir), header);
  }

  lemma RootCost(source: seq<Elem>, archiveDir: seq<Elem>)
    ensures TotalSize(PackAll([], source, archiveDir)) == BLOCK
  {
    var root := DirRecord(Renamed(source, source, archiveDir));
    assert [root][..0] == [] && Data(root) == [];
  }

  // ---- distinct paths ----

  /** Directory entries: plain names, distinct among siblings, at every level. */
  ghost predicate Proper(children: seq<Child>)
    decreases children
  {
    && (forall i :: 0 <= i < |children| ==> Plain(children[i].name))
    && (forall i, j :: 0 <= i < j < |children| ==> children[i].name != children[j].name)
    && (forall i :: 0 <= i < |children| && children[i].node.Dir? ==> Proper(children[i].node.children))
  }

  lemma ProperParts(children: seq<Child>)
    requires Proper(children) && children != []
    ensures Proper(children[1..]) && Plain(children[0].name)
    ensures children[0].node.Dir? ==> Proper(children[0].node.children)
    ensures forall k :: 0 <= k < |children[1..]| ==> children[1..][k].name != children[0].name
  {
  }

  function Below(c: Child, at: seq<string>): seq<Visit> {
    if c.node.Dir? then Walk(c.node.children, at + [c.name]) else []
  }

  /** The visits of the first child, of what is below it, and of its siblings. */
  lemma WalkParts(children: seq<Child>, at: seq<string>, i: nat)
    requires i < |Walk(children, at)|
    ensures children != []
    ensures var c, n := children[0], 1 + |Below(children[0], at)|;
      && (i == 0 ==> Walk(children, at)[i] == Visit(at + [c.name], c.node))
      && (0 < i < n ==> Walk(children, at)[i] == Below(c, at)[i - 1])
      && (n <= i ==> i - n < |Walk(children[1..], at)| && Walk(children, at)[i] == Walk(children[1..], at)[i - n])
  {
    var c := children[0];
    ThreeParts(Visit(at + [c.name], c.node), Below(c, at), Walk(children[1..], at), i);
  }

  lemma ThreeParts(v: Visit, below: seq<Visit>, rest: seq<Visit>, i: nat)
    requires i < |[v] + below + rest|
    ensures var n := 1 + |below|;
      ([v] + below + rest)[i] == if i == 0 then v else if i < n then below[i - 1] else rest[i - n]
  {
  }

  /** The path lies strictly below `at`, where it goes on with the name of one of the siblings. */
  ghost predicate LeadsBelow(path: seq<string>, at: seq<string>, children: seq<Child>) {
    && |path| > |at| && path[..|at|] == at && AllPlain(path)
    && exists k :: 0 <= k < |children| && children[k].name == path[|at|]
  }

  lemma LeadsDown(path: seq<string>, at: seq<string>, children: seq<Child>, below: seq<Child>)
    requires children != [] && LeadsBelow(path, at + [children[0].name], below)
    ensures LeadsBelow(path, at, children) && path[|at|] == children[0].name && |path| > |at| + 1
  {
    var n := |at|;
    assert path[..n] == path[..n + 1][..n] && path[n] == path[..n + 1][n];
  }

  lemma LeadsAside(path: seq<string>, at: seq<string>, children: seq<Child>)
    requires children != [] && LeadsBelow(path, at, children[1..])
    ensures LeadsBelow(path, at, children)
  {
    var k :| 0 <= k < |children[1..]| && children[1..][k].name == path[|at|];
    assert children[k + 1].name == path[|at|];
  }

  lemma {:induction false} WalkBelow(children: seq<Child>, at: seq<string>, i: nat)
    requires Proper(children) && AllPlain(at) && i < |Walk(children, at)|
    ensures LeadsBelow(Walk(children, at)[i].path, at, children)
    decreases children
  {
    WalkParts(children, at, i);
    ProperParts(children);
    var c, n := children[0], 1 + |Below(children[0], at)|;
    if i == 0 {
      assert children[0].name == (at + [c.name])[|at|];
    } else if i < n {
      WalkBelow(c.node.children, at + [c.name], i - 1);
      LeadsDown(Walk(children, at)[i].path, at, children, c.node.children);
    } else {
      WalkBelow(children[1..], at, i - n);
      LeadsAside(Walk(children, at)[i].path, at, children);
    }
  }

  lemma PlainSnoc(names: seq<string>, name: string)
    requires AllPlain(names) && Plain(name)
    ensures AllPlain(names + [name])
  {
  }

  ghost predicate Apart(visits: seq<Visit>) {
    forall i, j :: 0 <= i < j < |visits| ==> visits[i].path != visits[j].path
  }

  /** Every path is longer than `n` names, of which name number `n` is `name`. */
  ghost predicate Through(visits: seq<Visit>, n: nat, name: string) {
    forall i :: 0 <= i < |visits| ==> |visits[i].path| > n + 1 && visits[i].path[n] == name
  }

  ghost predicate Beside(visits: seq<Visit>, n: nat, name: string) {
    forall i :: 0 <= i < |visits| ==> |visits[i].path| > n && visits[i].path[n] != name
  }

  lemma BelowGoesThrough(c: Child, at: seq<string>)
    requires AllPlain(at) && Plain(c.name) && (c.node.Dir? ==> Proper(c.node.children))
    ensures Through(Below(c, at), |at|, c.name)
  {
    PlainSnoc(at, c.name);
    forall i | 0 <= i < |Below(c, at)|
      ensures |Below(c, at)[i].path| > |at| + 1 && Below(c, at)[i].path[|at|] == c.name
    {
      WalkBelow(c.node.children, at + [c.name], i);
      LeadsDown(Below(c, at)[i].path, at, [c], c.node.children);
    }
  }

  lemma SiblingsGoBeside(children: seq<Child>, at: seq<string>, name: string)
    requires Proper(children) && AllPlain(at)
    requires forall k :: 0 <= k < |children| ==> children[k].name != name
    ensures Beside(Walk(children, at), |at|, name)
  {
    forall i | 0 <= i < |Walk(children, at)|
      ensures |Walk(children, at)[i].path| > |at| && Walk(children, at)[i].path[|at|] != name
    {
      WalkBelow(children, at, i);
    }
  }

  // ---- every entry is visited ----

  /** The node of the sibling with the name. */
  function Named(children: seq<Child>, name: string): Option<Node> {
    if children == [] then None
    else if children[0].name == name then Some(children[0].node)
    else Named(children[1..], name)
  }

  /** The node to which a path leads, following names through directories. */
  function Lookup(children: seq<Child>, path: seq<string>): Option<Node>
    decreases |path|
  {
    if path == [] then None
    else
      match Named(children, path[0])
      case None => None
      case Some(node) =>
        if |path| == 1 then Some(node)
        else if node.Dir? then Lookup(node.children, path[1..])
        else None
  }

  lemma NotThrough(visits: seq<Visit>, at: seq<string>, path: seq<string>, node: Node, name: string)
    requires Through(visits, |at|, name) && path != [] && (path[0] != name || |path| == 1)
    ensures Visit(at + path, node) !in visits
  {
    assert (at + path)[|at|] == path[0] && |at + path| == |at| + |path|;
  }

  lemma NotBeside(visits: seq<Visit>, at: seq<string>, path: seq<string>, node: Node)
    requires path != [] && Beside(visits, |at|, path[0])
    ensures Visit(at + path, node) !in visits
  {
    assert (at + path)[|at|] == path[0];
  }

  lemma SameEnd(at: seq<string>, path: seq<string>, name: string)
    requires path != []
    ensures at + path == at + [name] <==> path == [name]
    ensures path[0] == name ==> at + path == at + [name] + path[1..]
  {
    assert (at + path)[|at|..] == path && (at + [name])[|at|..] == [name];
  }

  lemma VisitParts(children: seq<Child>, at: seq<string>, v: Visit)
    requires children != []
    ensures v in Walk(children, at) <==>
      || v == Visit(at + [children[0].name], children[0].node)
      || v in Below(children[0], at)
      || v in Walk(children[1..], at)
  {
    var head := Visit(at + [children[0].name], children[0].node);
    assert Walk(children, at) == [head] + Below(children[0], at) + Walk(children[1..], at);
  }

  /** A path leads to a node if and only if the traversal visits that node under that path. */
  lemma {:induction false} VisitedIff(children: seq<Child>, at: seq<string>, path: seq<string>, node: Node)
    requires Proper(children) && AllPlain(at) && path != []
    ensures Visit(at + path, node) in Walk(children, at) <==> Lookup(children, path) == Some(node)
    decreases children
  {
    if children != [] {
      var c, rest := children[0], children[1..];
      ProperParts(children);
      BelowGoesThrough(c, at);
      VisitParts(children, at, Visit(at + path, node));
      SameEnd(at, path, c.name);
      if path[0] == c.name {
        SiblingsGoBeside(rest, at, c.name);
        NotBeside(Walk(rest, at), at, path, node);
        if |path| == 1 {
          NotThrough(Below(c, at), at, path, node, c.name);
          assert path == [c.name];
        } else if c.node.Dir? {
          PlainSnoc(at, c.name);
          VisitedIff(c.node.children, at + [c.name], path[1..], node);
        }
      } else {
        NotThrough(Below(c, at), at, path, node, c.name);
        VisitedIff(rest, at, path, node);
        OtherName(children, path);
      }
    }
  }

  lemma OtherName(children: seq<Child>, path: seq<string>)
    requires children != [] && path != [] && children[0].name != path[0]
    ensures Lookup(children, path) == Lookup(children[1..], path)
  {
  }

  /** The traversal of a tree visits every entry: a path leads to a node if and only if it is visited,
      and then it is visited once. */
  lemma LookupIff(children: seq<Child>, path: seq<string>, node: Node)
    requires Proper(children)
    ensures Lookup(children, path) == Some(node) <==> Visit(path, node) in Walk(children, [])
    ensures Apart(Walk(children, []))
  {
    WalkDistinct(children, []);
    if path != [] {
      VisitedIff(children, [], path, node);
      assert [] + path == path;
    } else {
      RootNotVisited(children, node);
    }
  }

  lemma BrokenIff(children: seq<Child>)
    requires Proper(children)
    ensures NoBrokenLinks(Walk(children, [])) <==> forall path :: Lookup(children, path) != Some(BrokenLink)
  {
    var visits := Walk(children, []);
    forall path | Lookup(children, path) == Some(BrokenLink) ensures !NoBrokenLinks(visits) {
      LookupIff(children, path, BrokenLink);
      var i :| 0 <= i < |visits| && visits[i] == Visit(path, BrokenLink);
    }
    if !NoBrokenLinks(visits) {
      var i :| 0 <= i < |visits| && visits[i].node.BrokenLink?;
      LookupIff(children, visits[i].path, BrokenLink);
      assert visits[i] == Visit(visits[i].path, BrokenLink);
    }
  }

  lemma RootNotVisited(children: seq<Child>, node: Node)
    requires Proper(children)
    ensures Visit([], node) !in Walk(children, [])
  {
    forall i | 0 <= i < |Walk(children, [])| ensures Walk(children, [])[i].path != [] {
      WalkBelow(children, [], i);
    }
  }

  lemma PartsApart(v: Visit, below: seq<Visit>, rest: seq<Visit>, n: nat, name: string)
    requires |v.path| == n + 1 && v.path[n] == name
    requires Apart(below) && Apart(rest) && Through(below, n, name) && Beside(rest, n, name)
    ensures Apart([v] + below + rest)
  {
    var all, m := [v] + below + rest, 1 + |below|;
    forall i, j | 0 <= i < j < |all| ensures all[i].path != all[j].path {
      if i >= m {
        assert rest[i - m].path != rest[j - m].path;
      } else if 0 < i && j < m {
        assert below[i - 1].path != below[j - 1].path;
      }
    }
  }

  /** No two entries of a tree have the same path. */
  lemma {:induction false} WalkDistinct(children: seq<Child>, at: seq<string>)
    requires Proper(children) && AllPlain(at)
    ensures Apart(Walk(children, at))
    decreases children
  {
    if children != [] {
      var c, rest := children[0], children[1..];
      ProperParts(children);
      PlainSnoc(at, c.name);
      if c.node.Dir? {
        WalkDistinct(c.node.children, at + [c.name]);
      }
      WalkDistinct(rest, at);
      BelowGoesThrough(c, at);
      SiblingsGoBeside(rest, at, c.name);
      PartsApart(Visit(at + [c.name], c.node), Below(c, at), Walk(rest, at), |at|, c.name);
    }
  }
}
