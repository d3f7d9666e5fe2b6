/** Resources of a namespace that is mounted at a directory. */
module PosixNamespace {
  import opened Paths

  /** What canonicalisation of a path yields: an error code, or the names of an existing path. */
  datatype Canonical = Missing(code: int) | At(names: seq<string>)

  datatype Outcome = NoEntry | Failed(code: int) | Resource(subpath: seq<Elem>)

  method Contains(path: seq<Elem>, e: Elem) returns (found: bool)
    ensures found <==> e in path
  {
    for i := 0 to |path|
      invariant e !in path[..i]
    {
      if path[i] == e {
        return true;
      }
    }
    return false;
  }

  /** The path that a lookup canonicalises. */
  function Target(mount: seq<Elem>, datapath: seq<Elem>): seq<Elem> {
    mount + Elements(Normalize(datapath, false))
  }

  /** Canonicalisation resolves "." and ".." and yields plain names only. */
  ghost predicate Canonicalises(canonical: seq<Elem> -> Canonical) {
    forall path :: canonical(path).At? ==> AllPlain(canonical(path).names)
  }

  /** The mount has nothing but "." beyond its common prefix with the path of these names. */
  predicate Covers(mount: seq<Elem>, names: seq<string>) {
    AllDots(mount[Common(Elements(Rooted(names, false)), mount)..])
  }

  /** Lookup of an existing resource. Whatever path canonicalisation returns, a lookup that succeeds
      yields a subpath without ".." which, appended to the mount, is that canonical path; and it
      succeeds exactly when the mount has nothing but "." beyond its common prefix with it. */
  method GetResource(mount: seq<Elem>, cwd: seq<Elem>, datapath: seq<Elem>, canonical: seq<Elem> -> Canonical,
                     isDirectory: bool)
    returns (r: Outcome)
    requires Canonicalises(canonical)
    ensures datapath == [] ==> r == NoEntry
    ensures datapath != [] && canonical(Target(mount, datapath)).Missing? ==>
      r == Failed(canonical(Target(mount, datapath)).code)
    ensures r.Resource? ==>
      && canonical(Target(mount, datapath)).At?
      && UP !in r.subpath && [ROOT] <= r.subpath && (isDirectory <==> r.subpath[|r.subpath| - 1] == DOT)
      && Reduce([], Absolute(mount, cwd) + r.subpath) == canonical(Target(mount, datapath)).names
    ensures r.Resource? <==>
      && datapath != [] && canonical(Target(mount, datapath)).At?
      && Covers(Absolute(mount, cwd), canonical(Target(mount, datapath)).names)
  {
    var nsSubpath := LexicalNormalize(datapath, false);
    if nsSubpath.Empty? {
      return NoEntry;
    }
    var c := canonical(mount + Elements(nsSubpath));
    if c.Missing? {
      return Failed(c.code);
    }
    var canonicalPath := Elements(Rooted(c.names, false));
    var rel := Relative(canonicalPath, mount, cwd);
    var tail := if isDirectory then [DOT] else [];
    var absSubpath := [ROOT] + rel + tail;
    NoUps(Rooted(c.names, false));
    ClimbsIff(canonicalPath, Absolute(mount, cwd));
    var outside := Contains(absSubpath, UP);
    if outside {
      return NoEntry;
    }
    SubpathLeadsToCanonical(Absolute(mount, cwd), c.names, rel, tail);
    PlainBelow(Absolute(mount, cwd), c.names, rel);
    return Resource(absSubpath);
  }

  lemma SubpathLeadsToCanonical(mount: seq<Elem>, names: seq<string>, rel: seq<Elem>, tail: seq<Elem>)
    requires AllPlain(names) && rel == RelativeTo(Elements(Rooted(names, false)), mount)
    requires Covers(mount, names) && (tail == [] || tail == [DOT])
    ensures Reduce([], mount + ([ROOT] + rel + tail)) == names
  {
    var pe := Elements(Rooted(names, false));
    RelativeLeadsBack(pe, mount);
    ReduceElements(Rooted(names, false));
    RootAndTail(mount, rel, tail);
  }

  lemma PlainBelow(mount: seq<Elem>, names: seq<string>, rel: seq<Elem>)
    requires AllPlain(names) && rel == RelativeTo(Elements(Rooted(names, false)), mount) && Covers(mount, names)
    ensures DOT !in rel
  {
    var pe := Elements(Rooted(names, false));
    ClimbIsUps(mount[Common(pe, mount)..]);
    forall i | 0 <= i < |pe| ensures pe[i] != DOT {
      ElementAt(Rooted(names, false), i);
    }
  }

  /** What a lookup, a size query or a removal goes to is the place of the path's surviving names under
      the mount, whatever "." and ".." the path holds. */
  lemma TargetUnderMount(mount: seq<Elem>, datapath: seq<Elem>)
    requires AllWellFormed(datapath) && !Tainted(datapath) && datapath != []
    ensures Reduce([], Target(mount, datapath)) == Reduce([], mount) + Survivors(datapath)
  {
    var names := Survivors(datapath);
    NormalizeIsSurvivors(datapath);
    PlainUnlessTainted(datapath);
    RootedElements(mount, names);
    AppendNames(mount, names);
    ReducePlain(Reduce([], mount), names);
  }

  /** A root in between and a final "." make no difference. */
  lemma RootAndTail(mount: seq<Elem>, rel: seq<Elem>, tail: seq<Elem>)
    requires tail == [] || tail == [DOT]
    ensures Reduce([], mount + ([ROOT] + rel + tail)) == Reduce([], mount + rel)
  {
    assert mount + ([ROOT] + rel + tail) == mount + [ROOT] + (rel + tail);
    AppendNames(mount, rel + tail);
    ReduceConcat([], mount, rel);
    ReduceConcat(Reduce([], mount), rel, tail);
    if tail == [DOT] {
      ReduceFirst(Reduce([], mount + rel), DOT, []);
    }
  }

  /** For a normalised mount, an existing target is found exactly when it lies under the mount. */
  lemma FoundIffUnderMount(mount: NormPath, names: seq<string>)
    requires mount.Rooted? && AllPlain(mount.names) && AllPlain(names)
    ensures Covers(Elements(mount), names) <==> mount.names <= names
  {
    PrefixIff(Rooted(names, false), mount);
  }

  function ParentPath(p: NormPath): NormPath {
    match p
    case Empty => Empty
    case Rooted(names, trailing) =>
      if trailing then Rooted(names, false)
      else if names == [] then Empty
      else Rooted(names[..|names| - 1], false)
  }

  /** The components that iterating over a path can yield: only the first has a doubled separator. */
  predicate Components(path: seq<Elem>) {
    AllWellFormed(path) && forall i :: 1 <= i < |path| ==> !IsDoubled(path[i])
  }

  /** Directories with these names leave the mount when appended to it: they begin with a "..", which
      takes away the mount's last name, and do not go back there. */
  predicate Escapes(mount: seq<string>, parents: seq<string>) {
    parents != [] && parents[0] == UP && mount != [] && (|parents| == 1 || parents[1] != mount[|mount| - 1])
  }

  /** Names of which all but the first are plain. */
  predicate PlainButFirst(names: seq<string>) {
    && (names != [] ==> Plain(names[0]) || names[0] == DOT || names[0] == UP)
    && AllPlain(names[if names == [] then 0 else 1..])
  }

  /** The names of the directories that have to be there before the resource. */
  function ParentNames(datapath: seq<Elem>, isCollection: bool): seq<string> {
    var names := Reduce([], datapath);
    if names == [] || isCollection then names else names[..|names| - 1]
  }

  /** Creation of a resource: its parents, if there are any, are created first, appended to the
      mount. They lie under the mount exactly when they do not escape from it, and always above the
      resource. */
  method NewResource(mount: seq<Elem>, datapath: seq<Elem>, isCollection: bool, mkdirError: int)
    returns (r: Outcome, created: seq<Elem>)
    ensures datapath == [] <==> r == NoEntry
    ensures r.Resource? ==> r.subpath == Elements(Normalize(datapath, isCollection))
    ensures created == [] <==> datapath == [] || ParentNames(datapath, isCollection) == []
    ensures created != [] ==>
      var names := Survivors(datapath);
      && names != []
      && (isCollection ==> created == mount + [ROOT] + names)
      && (!isCollection ==> created + [names[|names| - 1]] == mount + [ROOT] + names)
    ensures created != [] ==>
      r == if mkdirError != 0 then Failed(mkdirError) else Resource(Elements(Normalize(datapath, isCollection)))
    ensures created != [] && Components(datapath) ==>
      && (Reduce([], mount) <= Reduce([], created) <==>
        !Escapes(Reduce([], mount), ParentNames(datapath, isCollection)))
      && Reduce([], created) <= Reduce([], mount + Elements(Normalize(datapath, isCollection)))
    ensures r.Resource? && Components(datapath) ==>
      (Reduce([], mount) <= Reduce([], mount + r.subpath) <==> !Escapes(Reduce([], mount), Reduce([], datapath)))
  {
    created := [];
    var nsSubpath := LexicalNormalize(datapath, isCollection);
    if nsSubpath.Empty? {
      return NoEntry, [];
    }
    if Components(datapath) {
      ResourcePlaced(mount, datapath, isCollection);
    }
    var parents := ParentPath(nsSubpath);
    ParentsAre(datapath, isCollection);
    if !parents.Empty? && parents != Rooted([], false) {
      created := mount + Elements(parents);
      CreatedPlace(mount, datapath, isCollection);
      if Components(datapath) {
        ParentsPlaced(mount, datapath, isCollection);
      }
      if mkdirError != 0 {
        return Failed(mkdirError), created;
      }
    }
    return Resource(Elements(nsSubpath)), created;
  }

  lemma ParentsAre(datapath: seq<Elem>, isCollection: bool)
    requires datapath != []
    ensures var parents, names := ParentPath(Normalize(datapath, isCollection)), ParentNames(datapath, isCollection);
      if names == [] then parents == Empty || parents == Rooted([], false) else parents == Rooted(names, false)
  {
  }

  lemma CreatedPlace(mount: seq<Elem>, datapath: seq<Elem>, isCollection: bool)
    requires datapath != [] && ParentNames(datapath, isCollection) != []
    ensures var names, parents := Survivors(datapath), ParentNames(datapath, isCollection);
      var created := mount + Elements(Rooted(parents, false));
      && names != [] && created != [] && created == mount + [ROOT] + parents
      && (isCollection ==> created == mount + [ROOT] + names)
      && (!isCollection ==> created + [names[|names| - 1]] == mount + [ROOT] + names)
  {
    var names, parents := Survivors(datapath), ParentNames(datapath, isCollection);
    NormalizeIsSurvivors(datapath);
    RootedElements(mount, parents);
    if !isCollection {
      LastApart(mount, names);
    }
  }

  lemma LastApart(mount: seq<Elem>, names: seq<string>)
    requires names != []
    ensures mount + [ROOT] + names[..|names| - 1] + [names[|names| - 1]] == mount + [ROOT] + names
  {
  }

  lemma RootedElements(mount: seq<Elem>, names: seq<string>)
    ensures mount + Elements(Rooted(names, false)) == mount + [ROOT] + names
  {
  }

  lemma OnlyFirstDoubled(path: seq<Elem>)
    requires Components(path)
    ensures PlainButFirst(Survivors(path))
  {
    if path != [] {
      var rest := path[1..];
      assert forall i :: 0 <= i < |rest| ==> rest[i] == path[i + 1];
      NotTainted(rest);
      PlainUnlessTainted(rest);
      if Survivors(path) != [] {
        SurvivorShape(path, 0);
      }
      if Pushes(path[0]) && Dip(rest) == 0 {
        assert Survivors(path)[1..] == Survivors(rest);
      }
    }
  }

  lemma {:induction false} NotTainted(path: seq<Elem>)
    requires forall i :: 0 <= i < |path| ==> !IsDoubled(path[i])
    ensures !Tainted(path)
  {
    if path != [] {
      NotTainted(path[1..]);
    }
  }

  lemma AppendNames(mount: seq<Elem>, names: seq<string>)
    ensures Reduce([], mount + [ROOT] + names) == Reduce(Reduce([], mount), names)
  {
    ReduceConcat([], mount + [ROOT], names);
    ReduceConcat([], mount, [ROOT]);
    assert [ROOT][1..] == [];
  }

  /** Where names of which all but the first are plain lead to. */
  lemma LeadTo(stack: seq<string>, names: seq<string>)
    requires PlainButFirst(names) && names != []
    ensures Reduce(stack, names) == Apply(stack, names[0]) + names[1..]
  {
    ReducePlain(Apply(stack, names[0]), names[1..]);
  }

  /** Appended to a mount, such names stay under it if and only if they do not escape. */
  lemma UnderMountIff(mount: seq<string>, parents: seq<string>)
    requires PlainButFirst(parents)
    ensures mount <= Reduce(mount, parents) <==> !Escapes(mount, parents)
  {
    if parents != [] {
      LeadTo(mount, parents);
      if parents[0] == UP && mount != [] {
        var n := |mount| - 1;
        var all := mount[..n] + parents[1..];
        assert |parents| > 1 ==> all[n] == parents[1] && all[..n + 1] == mount[..n] + [parents[1]];
        assert mount == mount[..n] + [mount[n]];
      }
    }
  }

  lemma ParentsPlaced(mount: seq<Elem>, datapath: seq<Elem>, isCollection: bool)
    requires Components(datapath) && datapath != [] && ParentNames(datapath, isCollection) != []
    ensures var parents, all := ParentNames(datapath, isCollection), Elements(Normalize(datapath, isCollection));
      var base := Reduce([], mount);
      && (base <= Reduce([], mount + [ROOT] + parents) <==> !Escapes(base, parents))
      && Reduce([], mount + [ROOT] + parents) <= Reduce([], mount + all)
  {
    var names, parents, base := Reduce([], datapath), ParentNames(datapath, isCollection), Reduce([], mount);
    NormalizeIsSurvivors(datapath);
    OnlyFirstDoubled(datapath);
    AppendNames(mount, parents);
    AppendNames(mount, names);
    PrefixPlain(names, |parents|);
    UnderMountIff(base, parents);
    TrailingDot(mount, names, isCollection && names != []);
    ParentsAbove(base, names, parents);
  }

  /** A path appended to the mount leads to a place under it if and only if its names do not escape. */
  lemma ResourcePlaced(mount: seq<Elem>, datapath: seq<Elem>, isCollection: bool)
    requires Components(datapath) && datapath != []
    ensures var all, base := Elements(Normalize(datapath, isCollection)), Reduce([], mount);
      && Reduce([], mount + all) == Reduce(base, Reduce([], datapath))
      && (base <= Reduce([], mount + all) <==> !Escapes(base, Reduce([], datapath)))
  {
    var names := Reduce([], datapath);
    NormalizeIsSurvivors(datapath);
    OnlyFirstDoubled(datapath);
    AppendNames(mount, names);
    TrailingDot(mount, names, isCollection && names != []);
    UnderMountIff(Reduce([], mount), names);
  }

  datatype Removal = NotThere | CannotResolve(code: int) | CannotRemove(code: int) | Removed

  /** Removal of a resource: a symbolic link is removed itself, at the place to which the path leads,
      and anything else at the place that canonicalisation returns. Nothing tests that this place is
      under the mount: for a link it is exactly when the path's names do not escape. */
  method Remove(mount: seq<Elem>, datapath: seq<Elem>, isSymlink: bool, existsError: int,
                canonical: seq<Elem> -> Canonical, removeError: int)
    returns (r: Removal, target: seq<string>)
    ensures r.NotThere? <==> datapath == []
    ensures r.CannotResolve? <==>
      (datapath != [] && if isSymlink then existsError != 0 else canonical(Target(mount, datapath)).Missing?)
    ensures r.CannotRemove? || r.Removed? ==>
      && (r.Removed? <==> removeError == 0)
      && (!isSymlink ==> canonical(Target(mount, datapath)) == At(target))
      && (isSymlink ==> target == Reduce([], Target(mount, datapath)))
    ensures (r.CannotRemove? || r.Removed?) && isSymlink && Components(datapath) ==>
      (Reduce([], mount) <= target <==> !Escapes(Reduce([], mount), Reduce([], datapath)))
  {
    target := [];
    var nsSubpath := LexicalNormalize(datapath, false);
    if nsSubpath.Empty? {
      return NotThere, [];
    }
    var p := mount + Elements(nsSubpath);
    if isSymlink {
      if existsError != 0 {
        return CannotResolve(existsError), [];
      }
      target := Reduce([], p);
      if Components(datapath) {
        ResourcePlaced(mount, datapath, false);
      }
    } else {
      var c := canonical(p);
      if c.Missing? {
        return CannotResolve(c.code), [];
      }
      target := c.names;
    }
    return if removeError != 0 then CannotRemove(removeError) else Removed, target;
  }

  /** A canonicalisation that resolves nothing but "." and "..", as where there are no links. */
  predicate Linkless(canonical: seq<Elem> -> Canonical, path: seq<Elem>) {
    canonical(path) == At(Reduce([], path))
  }

  /** The path "//.." removes the directory above a mount at "/m", and all that is in it. */
  method RemoveAboveMount(canonical: seq<Elem> -> Canonical) returns (r: Removal, target: seq<string>)
    requires Linkless(canonical, Target([ROOT, "m"], ["//.."]))
    ensures r == Removed && target == [] && Components(["//.."]) && Escapes(["m"], Reduce([], ["//.."]))
  {
    AboveMount();
    r, target := Remove([ROOT, "m"], ["//.."], false, 0, canonical, 0);
  }

  lemma AboveMount()
    ensures Components(["//.."]) && Escapes(["m"], Reduce([], ["//.."]))
    ensures Reduce([], Target([ROOT, "m"], ["//.."])) == []
  {
    DisguisedUp();
    AtMount();
    ResourcePlaced([ROOT, "m"], ["//.."], false);
    ReduceFirst(["m"], UP, []);
  }

  lemma DisguisedUp()
    ensures Components(["//.."]) && Reduce([], ["//.."]) == [UP]
  {
    assert "//.."[2..] == UP;
    ReduceFirst([], "//..", []);
  }

  lemma AtMount()
    ensures Reduce([], [ROOT, "m"]) == ["m"]
  {
    ReduceFirst([], ROOT, ["m"]);
    ReduceFirst([], "m", []);
  }

  lemma ParentsAbove(base: seq<string>, names: seq<string>, parents: seq<string>)
    requires names != [] && PlainButFirst(names)
    requires parents != [] && (parents == names || parents == names[..|names| - 1])
    ensures Reduce(base, parents) <= Reduce(base, names)
  {
    if parents != names {
      var last := names[|parents|];
      assert last == names[1..][|parents| - 1] && names == parents + [last];
      ReduceConcat(base, parents, [last]);
      ReducePlain(Reduce(base, parents), [last]);
    }
  }

  lemma TrailingDot(mount: seq<Elem>, names: seq<string>, trailing: bool)
    ensures Reduce([], mount + Elements(Rooted(names, trailing))) == Reduce([], mount + [ROOT] + names)
  {
    var tail := if trailing then [DOT] else [];
    assert mount + Elements(Rooted(names, trailing)) == mount + [ROOT] + names + tail;
    ReduceConcat([], mount + [ROOT] + names, tail);
    assert tail == [] || tail[1..] == [];
  }

  /** The components of "//../x/y" make the parents of a new resource leave a mount at "/m". */
  lemma EscapeHappens()
    ensures var datapath := ["//..", ROOT, "x", "y"];
      && Components(datapath) && ParentNames(datapath, false) == [UP, "x"] && Escapes(["m"], [UP, "x"])
      && Reduce([], [ROOT, "m"] + [ROOT] + [UP, "x"]) == ["x"]
  {
    var datapath := ["//..", ROOT, "x", "y"];
    assert "//.."[2..] == UP && Plain("x") && Plain("y");
    FirstThree();
    assert datapath == ["//..", ROOT, "x"] + ["y"];
    ReduceConcat([], ["//..", ROOT, "x"], ["y"]);
    ReduceFirst([UP, "x"], "y", []);
    assert [UP, "x", "y"][..2] == [UP, "x"];
    OutOfMount();
  }

  lemma OutOfMount()
    ensures Reduce([], [ROOT, "m"] + [ROOT] + [UP, "x"]) == ["x"]
  {
    AppendNames([ROOT, "m"], [UP, "x"]);
    AtMount();
    ReduceFirst(["m"], UP, ["x"]);
    ReduceFirst([], "x", []);
  }

  lemma FirstThree()
    ensures Reduce([], ["//..", ROOT, "x"]) == [UP, "x"]
  {
    assert "//.."[2..] == UP;
    ReduceFirst([], "//..", [ROOT, "x"]);
    ReduceFirst([UP], ROOT, ["x"]);
    ReduceFirst([UP], "x", []);
  }

  lemma PrefixPlain(names: seq<string>, n: nat)
    requires PlainButFirst(names) && n <= |names|
    ensures PlainButFirst(names[..n])
  {
    if n > 0 {
      assert names[..n][1..] == names[1..][..n - 1];
    }
  }
}
