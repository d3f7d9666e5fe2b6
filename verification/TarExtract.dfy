/** Extraction, and what packing followed by extraction yields. */
module TarExtract {
  import opened Paths
  import opened Tar
  import opened TaskStatus

  datatype Content = Directory | Regular(data: seq<Byte>)

  function ContentOf(r: Record): Content {
    if r.FileRecord? then Regular(r.data) else Directory
  }

  function WithoutLeadingSeparator(name: seq<Elem>): seq<Elem> {
    if name != [] && name[0] == ROOT then name[1..] else name
  }

  /** The path an entry is extracted to. */
  function NewPath(parent: seq<Elem>, r: Record): seq<Elem> {
    parent + WithoutLeadingSeparator(r.name)
  }

  predicate Climbs(parent: seq<Elem>, r: Record) { UP in NewPath(parent, r) }

  type Tree = map<seq<string>, Content>

  function Place(records: seq<Record>, parent: seq<Elem>): Tree {
    if records == [] then map[]
    else
      var r := records[|records| - 1];
      Place(records[..|records| - 1], parent)[Reduce([], NewPath(parent, r)) := ContentOf(r)]
  }

  predicate NoClimbing(records: seq<Record>, parent: seq<Elem>) {
    forall i :: 0 <= i < |records| ==> !Climbs(parent, records[i])
  }

  lemma OneMorePlaced(records: seq<Record>, i: nat, parent: seq<Elem>)
    requires i < |records|
    ensures NoClimbing(records[..i + 1], parent) <==> NoClimbing(records[..i], parent) && !Climbs(parent, records[i])
    ensures NoClimbing(records, parent) ==> !Climbs(parent, records[i])
    ensures Place(records[..i + 1], parent) ==
            Place(records[..i], parent)[Reduce([], NewPath(parent, records[i])) := ContentOf(records[i])]
  {
    assert records[..i + 1] == records[..i] + [records[i]];
    OneMoreRecord(records[..i], records[i], parent);
    assert records[..i + 1][..i] == records[..i];
  }

  /** The extraction loop: an entry whose path holds ".." is refused, and ends it. */
  method Extract(records: seq<Record>, parent: seq<Elem>) returns (ok: bool, tree: Tree)
    ensures ok <==> NoClimbing(records, parent)
    ensures ok ==> tree == Place(records, parent)
  {
    tree := map[];
    for i := 0 to |records|
      invariant NoClimbing(records[..i], parent)
      invariant tree == Place(records[..i], parent)
    {
      OneMorePlaced(records, i, parent);
      if Climbs(parent, records[i]) {
        return false, tree;
      }
      tree := tree[Reduce([], NewPath(parent, records[i])) := ContentOf(records[i])];
    }
    assert records[..|records|] == records;
    return true, tree;
  }

  // ---- where everything ends up ----

  /** The destination of the entry at `path` below the source. */
  function Destination(parent: seq<Elem>, archiveDir: seq<Elem>, path: seq<string>): seq<string> {
    Reduce([], parent + Survivors(archiveDir)) + path
  }

  /** What a packed entry becomes. */
  function Unpacked(node: Node): Content
    requires node.IsPacked()
  {
    if node.IsRegular() then Regular(node.data) else Directory
  }

  lemma RecordName(v: Visit, source: seq<string>, archiveDir: seq<Elem>)
    requires AllPlain(source) && AllPlain(v.path) && v.node.IsPacked()
    ensures Packed(v, [ROOT] + source, archiveDir).name == [ROOT] + Survivors(archiveDir) + v.path
  {
    StoredName(source, v.path, archiveDir);
  }

  lemma RecordPath(v: Visit, source: seq<string>, archiveDir: seq<Elem>, parent: seq<Elem>)
    requires AllPlain(source) && AllPlain(v.path) && v.node.IsPacked()
    ensures NewPath(parent, Packed(v, [ROOT] + source, archiveDir)) == parent + Survivors(archiveDir) + v.path
  {
    RecordName(v, source, archiveDir);
    PathOfName(Packed(v, [ROOT] + source, archiveDir), Survivors(archiveDir), v.path, parent);
  }

  lemma PathOfName(r: Record, dir: seq<Elem>, path: seq<Elem>, parent: seq<Elem>)
    requires r.name == [ROOT] + dir + path
    ensures NewPath(parent, r) == parent + dir + path
  {
    assert r.name[1..] == dir + path;
    assert parent + (dir + path) == parent + dir + path;
  }

  lemma RecordOf(v: Visit, source: seq<string>, archiveDir: seq<Elem>, parent: seq<Elem>)
    requires AllPlain(source) && AllPlain(v.path) && v.node.IsPacked()
    ensures ContentOf(Packed(v, [ROOT] + source, archiveDir)) == Unpacked(v.node)
    ensures Reduce([], NewPath(parent, Packed(v, [ROOT] + source, archiveDir))) ==
      Destination(parent, archiveDir, v.path)
    ensures Climbs(parent, Packed(v, [ROOT] + source, archiveDir)) <==> UP in parent + Survivors(archiveDir)
  {
    RecordPath(v, source, archiveDir, parent);
    var base := parent + Survivors(archiveDir);
    ReduceConcat([], base, v.path);
    ReducePlain(Reduce([], base), v.path);
    PlainHasNoUp(v.path);
  }

  /** The visit of the source directory itself. */
  const SELF := Visit([], Dir([]))

  lemma RootRecord(source: seq<string>, archiveDir: seq<Elem>, parent: seq<Elem>)
    requires AllPlain(source)
    ensures PackAll([], [ROOT] + source, archiveDir) == [Packed(SELF, [ROOT] + source, archiveDir)]
  {
    assert [ROOT] + source + [] == [ROOT] + source;
  }

  ghost predicate PlainPaths(visits: seq<Visit>) {
    forall i :: 0 <= i < |visits| ==> AllPlain(visits[i].path)
  }

  /** No stored name holds "..", unless the archive directory's own surviving names do. */
  lemma {:induction false} NamesDoNotClimb(visits: seq<Visit>, source: seq<string>, archiveDir: seq<Elem>,
                                           parent: seq<Elem>)
    requires AllPlain(source) && PlainPaths(visits)
    ensures NoClimbing(PackAll(visits, [ROOT] + source, archiveDir), parent) <==> UP !in parent + Survivors(archiveDir)
  {
    var s := [ROOT] + source;
    if visits == [] {
      RootRecord(source, archiveDir, parent);
      RecordOf(SELF, source, archiveDir, parent);
      OneMoreRecord([], Packed(SELF, s, archiveDir), parent);
      assert [] + [Packed(SELF, s, archiveDir)] == [Packed(SELF, s, archiveDir)];
    } else {
      var v := visits[|visits| - 1];
      NamesDoNotClimb(visits[..|visits| - 1], source, archiveDir, parent);
      if v.node.IsPacked() {
        assert AllPlain(visits[|visits| - 1].path);
        RecordOf(v, source, archiveDir, parent);
        OneMoreRecord(PackAll(visits[..|visits| - 1], s, archiveDir), Packed(v, s, archiveDir), parent);
      } else {
        assert PackAll(visits, s, archiveDir) == PackAll(visits[..|visits| - 1], s, archiveDir);
      }
    }
  }

  lemma OneMoreRecord(records: seq<Record>, r: Record, parent: seq<Elem>)
    ensures NoClimbing(records + [r], parent) <==> NoClimbing(records, parent) && !Climbs(parent, r)
  {
    var all := records + [r];
    assert all[|records|] == r;
    assert forall i :: 0 <= i < |records| ==> all[i] == records[i];
  }

  lemma PlainHasNoUp(names: seq<string>)
    requires AllPlain(names)
    ensures UP !in names
  {
  }

  ghost predicate DistinctPaths(visits: seq<Visit>) {
    && (forall i :: 0 <= i < |visits| ==> visits[i].path != [])
    && Apart(visits)
  }

  /** The tree holds the root and the packed entries among `visits`, each at its destination with
      its own content, and nothing else. */
  ghost predicate Mirrors(tree: Tree, visits: seq<Visit>, archiveDir: seq<Elem>, parent: seq<Elem>) {
    && Destination(parent, archiveDir, []) in tree && tree[Destination(parent, archiveDir, [])].Directory?
    && (forall i :: 0 <= i < |visits| && visits[i].node.IsPacked() ==>
          && Destination(parent, archiveDir, visits[i].path) in tree
          && tree[Destination(parent, archiveDir, visits[i].path)] == Unpacked(visits[i].node))
    && (forall key :: key in tree && key != Destination(parent, archiveDir, []) ==>
          exists i :: 0 <= i < |visits| && visits[i].node.IsPacked() &&
            key == Destination(parent, archiveDir, visits[i].path))
  }

  lemma {:induction false} PlaceMirrors(visits: seq<Visit>, source: seq<string>, archiveDir: seq<Elem>,
                                        parent: seq<Elem>)
    requires AllPlain(source) && PlainPaths(visits) && DistinctPaths(visits)
    ensures Mirrors(Place(PackAll(visits, [ROOT] + source, archiveDir), parent), visits, archiveDir, parent)
  {
    if visits == [] {
      PlaceRoot(source, archiveDir, parent);
    } else {
      PlaceMirrors(visits[..|visits| - 1], source, archiveDir, parent);
      PlaceOneMore(PackAll(visits[..|visits| - 1], [ROOT] + source, archiveDir), visits, source, archiveDir, parent);
    }
  }

  lemma PlaceOneMore(before: seq<Record>, visits: seq<Visit>, source: seq<string>, archiveDir: seq<Elem>,
                     parent: seq<Elem>)
    requires AllPlain(source) && PlainPaths(visits) && DistinctPaths(visits) && visits != []
    requires Mirrors(Place(before, parent), visits[..|visits| - 1], archiveDir, parent)
    ensures var v := visits[|visits| - 1];
      Mirrors(Place(before + if v.node.IsPacked() then [Packed(v, [ROOT] + source, archiveDir)] else [], parent),
        visits, archiveDir, parent)
  {
    var v := visits[|visits| - 1];
    if v.node.IsPacked() {
      assert AllPlain(v.path);
      RecordOf(v, source, archiveDir, parent);
      PlaceSnoc(before, Packed(v, [ROOT] + source, archiveDir), parent);
      MirrorsOneMore(Place(before, parent), visits, archiveDir, parent);
    } else {
      assert before + [] == before;
      MirrorsSame(Place(before, parent), visits, archiveDir, parent);
    }
  }

  lemma PlaceSnoc(records: seq<Record>, r: Record, parent: seq<Elem>)
    ensures Place(records + [r], parent) == Place(records, parent)[Reduce([], NewPath(parent, r)) := ContentOf(r)]
  {
    assert (records + [r])[..|records|] == records;
  }

  lemma PlaceRoot(source: seq<string>, archiveDir: seq<Elem>, parent: seq<Elem>)
    requires AllPlain(source)
    ensures Mirrors(Place(PackAll([], [ROOT] + source, archiveDir), parent), [], archiveDir, parent)
  {
    RootRecord(source, archiveDir, parent);
    RecordOf(SELF, source, archiveDir, parent);
    var root := Packed(SELF, [ROOT] + source, archiveDir);
    PlaceSnoc([], root, parent);
    assert [] + [root] == [root] && Destination(parent, archiveDir, SELF.path) == Destination(parent, archiveDir, []);
    OnlyRoot(archiveDir, parent);
  }

  lemma OnlyRoot(archiveDir: seq<Elem>, parent: seq<Elem>)
    ensures Mirrors(map[Destination(parent, archiveDir, []) := Directory], [], archiveDir, parent)
  {
  }

  lemma MirrorsSame(tree: Tree, visits: seq<Visit>, archiveDir: seq<Elem>, parent: seq<Elem>)
    requires visits != [] && !visits[|visits| - 1].node.IsPacked()
    requires Mirrors(tree, visits[..|visits| - 1], archiveDir, parent)
    ensures Mirrors(tree, visits, archiveDir, parent)
  {
    var n := |visits| - 1;
    assert forall i :: 0 <= i < n ==> visits[..n][i] == visits[i];
  }

  lemma MirrorsOneMore(tree: Tree, visits: seq<Visit>, archiveDir: seq<Elem>, parent: seq<Elem>)
    requires visits != [] && DistinctPaths(visits)
    requires Mirrors(tree, visits[..|visits| - 1], archiveDir, parent)
    requires visits[|visits| - 1].node.IsPacked()
    ensures var v := visits[|visits| - 1];
      Mirrors(tree[Destination(parent, archiveDir, v.path) := Unpacked(v.node)], visits, archiveDir, parent)
  {
    var n := |visits| - 1;
    var v := visits[n];
    var there := Destination(parent, archiveDir, v.path);
    var tree' := tree[there := Unpacked(v.node)];
    DestinationInjective(parent, archiveDir, v.path, []);
    forall i | 0 <= i < |visits| && visits[i].node.IsPacked()
      ensures Destination(parent, archiveDir, visits[i].path) in tree'
      ensures tree'[Destination(parent, archiveDir, visits[i].path)] == Unpacked(visits[i].node)
    {
      if i < n {
        assert visits[..n][i] == visits[i];
        DestinationInjective(parent, archiveDir, v.path, visits[i].path);
      }
    }
    forall key | key in tree' && key != Destination(parent, archiveDir, [])
      ensures exists i ::
        0 <= i < |visits| && visits[i].node.IsPacked() && key == Destination(parent, archiveDir, visits[i].path)
    {
      if key == there {
        assert visits[n].node.IsPacked() && key == Destination(parent, archiveDir, visits[n].path);
      } else {
        var i :| 0 <= i < n && visits[..n][i].node.IsPacked() &&
          key == Destination(parent, archiveDir, visits[..n][i].path);
        assert visits[i].node.IsPacked() && key == Destination(parent, archiveDir, visits[i].path);
      }
    }
  }

  lemma DestinationInjective(parent: seq<Elem>, archiveDir: seq<Elem>, p: seq<string>, q: seq<string>)
    requires p != q
    ensures Destination(parent, archiveDir, p) != Destination(parent, archiveDir, q)
  {
    var base := Reduce([], parent + Survivors(archiveDir));
    assert (base + p)[|base|..] == p && (base + q)[|base|..] == q;
  }

  /** The tree of the children is restored under `base`: the base is a directory, every path below it
      that leads to a file or to a link to one holds that file's data, every path that leads to a
      directory or to a link to one is a directory, and there is nothing else. */
  ghost predicate Restored(tree: Tree, children: seq<Child>, base: seq<string>) {
    && base in tree && tree[base] == Directory
    && (forall key :: key in tree ==> base <= key)
    && forall path :: path != [] ==> RestoredAt(tree, base + path, Lookup(children, path))
  }

  ghost predicate RestoredAt(tree: Tree, key: seq<string>, found: Option<Node>) {
    match found
    case Some(File(data)) => key in tree && tree[key] == Regular(data)
    case Some(LinkToFile(data)) => key in tree && tree[key] == Regular(data)
    case Some(Dir(_)) => key in tree && tree[key] == Directory
    case Some(LinkToDir) => key in tree && tree[key] == Directory
    case _ => key !in tree
  }

  /** Packing a directory and extracting the archive under `parent`: extraction succeeds exactly
      when neither the parent nor the archive directory's surviving names hold "..", and then the
      entries placed are those of the files and directories of the tree and of the source itself, each
      at parent / archive directory / its path below the source, with its own content. */
  method PackThenExtract(children: seq<Child>, source: seq<string>, archiveDir: seq<Elem>, parent: seq<Elem>)
    returns (ok: bool, tree: Tree)
    requires Proper(children) && AllPlain(source)
    ensures ok <==> UP !in parent + Survivors(archiveDir)
    ensures ok ==> Restored(tree, children, Reduce([], parent + Survivors(archiveDir)))
  {
    var records := AddDirectory(children, [ROOT] + source, archiveDir);
    ok, tree := Extract(records, parent);
    TreeIsDistinct(children);
    NamesDoNotClimb(Walk(children, []), source, archiveDir, parent);
    PlaceMirrors(Walk(children, []), source, archiveDir, parent);
    if ok {
      MirrorsRestores(tree, children, archiveDir, parent);
    }
  }

  lemma MirrorsRestores(tree: Tree, children: seq<Child>, archiveDir: seq<Elem>, parent: seq<Elem>)
    requires Proper(children) && Mirrors(tree, Walk(children, []), archiveDir, parent)
    ensures Restored(tree, children, Reduce([], parent + Survivors(archiveDir)))
  {
    var base := Reduce([], parent + Survivors(archiveDir));
    assert base + [] == base;
    forall path | path != [] ensures RestoredAt(tree, base + path, Lookup(children, path)) {
      MirrorsAt(tree, children, archiveDir, parent, path);
    }
  }

  lemma MirrorsAt(tree: Tree, children: seq<Child>, archiveDir: seq<Elem>, parent: seq<Elem>, path: seq<string>)
    requires Proper(children) && Mirrors(tree, Walk(children, []), archiveDir, parent) && path != []
    ensures RestoredAt(tree, Destination(parent, archiveDir, path), Lookup(children, path))
  {
    var key, found := Destination(parent, archiveDir, path), Lookup(children, path);
    if found.Some? {
      LookupIff(children, path, found.value);
      var i :| 0 <= i < |Walk(children, [])| && Walk(children, [])[i] == Visit(path, found.value);
    }
    if key in tree {
      OnlyPacked(tree, children, archiveDir, parent, path);
    }
  }

  /** Whatever is in the tree below the base is an entry that was packed. */
  lemma OnlyPacked(tree: Tree, children: seq<Child>, archiveDir: seq<Elem>, parent: seq<Elem>, path: seq<string>)
    requires Proper(children) && Mirrors(tree, Walk(children, []), archiveDir, parent) && path != []
    requires Destination(parent, archiveDir, path) in tree
    ensures Lookup(children, path).Some? && Lookup(children, path).value.IsPacked()
  {
    var visits := Walk(children, []);
    DestinationInjective(parent, archiveDir, path, []);
    var i :| 0 <= i < |visits| && visits[i].node.IsPacked()
      && Destination(parent, archiveDir, path) == Destination(parent, archiveDir, visits[i].path);
    if visits[i].path != path {
      DestinationInjective(parent, archiveDir, path, visits[i].path);
      assert false;
    }
    LookupIff(children, path, visits[i].node);
    assert visits[i] == Visit(path, visits[i].node);
  }

  lemma TreeIsDistinct(children: seq<Child>)
    requires Proper(children)
    ensures PlainPaths(Walk(children, [])) && DistinctPaths(Walk(children, []))
  {
    forall i | 0 <= i < |Walk(children, [])|
      ensures AllPlain(Walk(children, [])[i].path) && Walk(children, [])[i].path != []
    {
      WalkBelow(children, [], i);
    }
    WalkDistinct(children, []);
  }
}
