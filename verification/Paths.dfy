/** Lexical path algebra on the component sequences that a path iterates over.

    The root is the component "/", a trailing separator shows up as a final ".", and some versions
    of the path library fold a leading double separator into the first name, as in "//a". */
module Paths {

  type Elem = string

  const ROOT: Elem := "/"
  const DOT: Elem := "."
  const UP: Elem := ".."

  /** The only component of the path "//". */
  const DOUBLE: Elem := "//"

  /** The result of normalisation: nothing, or a rooted path, possibly with a final separator. */
  datatype NormPath = Empty | Rooted(names: seq<string>, trailing: bool)

  predicate IsDoubled(e: Elem) { |e| > 2 && e[0] == '/' && e[1] == '/' }

  /** Whether the component adds a name, and which. */
  predicate Pushes(e: Elem) { e != UP && e != DOT && e != ROOT && e != DOUBLE }

  function NameOf(e: Elem): string { if IsDoubled(e) then e[2..] else e }

  // ---- the stack semantics ----

  function Apply(stack: seq<string>, e: Elem): seq<string> {
    if e == UP then (if stack == [] then [] else stack[..|stack| - 1])
    else if Pushes(e) then stack + [NameOf(e)]
    else stack
  }

  function Reduce(stack: seq<string>, elems: seq<Elem>): seq<string>
    decreases elems
  {
    if elems == [] then stack else Reduce(Apply(stack, elems[0]), elems[1..])
  }

  function Normalize(elems: seq<Elem>, asDirectory: bool): NormPath {
    if elems == [] then Empty
    else var names := Reduce([], elems); Rooted(names, asDirectory && names != [])
  }

  /** The components that iterating over a normalised path yields. */
  function Elements(p: NormPath): seq<Elem> {
    match p
    case Empty => []
    case Rooted(names, trailing) => [ROOT] + names + (if trailing then [DOT] else [])
  }

  /** The loop that removes "." and ".." from a pathname. */
  method LexicalNormalize(pathname: seq<Elem>, asDirectory: bool) returns (r: NormPath)
    ensures r == Normalize(pathname, asDirectory)
  {
    if pathname == [] {
      return Empty;
    }
    if pathname == [ROOT] {
      assert Reduce([], pathname) == Reduce([], pathname[1..]);
      return Rooted([], false);
    }
    var tmp: seq<string> := [];
    var i := 0;
    while i < |pathname|
      invariant i <= |pathname|
      invariant Reduce(tmp, pathname[i..]) == Reduce([], pathname)
    {
      var elem := pathname[i];
      assert pathname[i..][1..] == pathname[i + 1..];
      if elem == UP {
        if tmp != [] {
          tmp := tmp[..|tmp| - 1];
        }
      } else if elem != DOT && elem != ROOT {
        if |elem| > 2 && elem[0] == '/' && elem[1] == '/' {
          tmp := tmp + [elem[2..]];
        } else if elem != DOUBLE {
          // Appending two separators to the root gives a path that equals the root.
          tmp := tmp + [elem];
        }
      }
      i := i + 1;
    }
    assert pathname[i..] == [];
    return Rooted(tmp, tmp != [] && asDirectory);
  }

  // ---- a definition without a stack ----

  /** How many names from before `elems` its ".." components take away. */
  function Dip(elems: seq<Elem>): nat {
    if elems == [] then 0
    else
      var d := Dip(elems[1..]);
      if elems[0] == UP then d + 1
      else if Pushes(elems[0]) then (if d == 0 then 0 else d - 1)
      else d
  }

  /** The names of `elems` that nothing after them takes away, in order. */
  function Survivors(elems: seq<Elem>): seq<string> {
    if elems == [] then []
    else if Pushes(elems[0]) && Dip(elems[1..]) == 0 then [NameOf(elems[0])] + Survivors(elems[1..])
    else Survivors(elems[1..])
  }

  function DropLast(stack: seq<string>, n: nat): seq<string> {
    if n >= |stack| then [] else stack[..|stack| - n]
  }

  lemma DropPushed(stack: seq<string>, name: string, n: nat)
    ensures DropLast(stack + [name], n) == if n == 0 then stack + [name] else DropLast(stack, n - 1)
  {
  }

  lemma DropPopped(stack: seq<string>, n: nat)
    ensures DropLast(if stack == [] then [] else stack[..|stack| - 1], n) == DropLast(stack, n + 1)
  {
  }

  lemma {:induction false} ReduceKeeps(stack: seq<string>, elems: seq<Elem>)
    ensures Reduce(stack, elems) == DropLast(stack, Dip(elems)) + Survivors(elems)
    decreases elems
  {
    if elems != [] {
      ReduceKeeps(Apply(stack, elems[0]), elems[1..]);
      if elems[0] == UP {
        DropPopped(stack, Dip(elems[1..]));
      } else if Pushes(elems[0]) {
        DropPushed(stack, NameOf(elems[0]), Dip(elems[1..]));
        var name, rest := [NameOf(elems[0])], Survivors(elems[1..]);
        assert stack + name + rest == stack + (name + rest);
      }
    }
  }

  /** Normalisation computes exactly the surviving names, under the root, and ends with a separator when
      asked to, except at the root; nothing stays nothing. */
  lemma NormalizeIsSurvivors(elems: seq<Elem>)
    ensures Reduce([], elems) == Survivors(elems)
    ensures forall d ::
      Normalize(elems, d) == if elems == [] then Empty else Rooted(Survivors(elems), d && Survivors(elems) != [])
  {
    ReduceKeeps([], elems);
  }

  lemma {:induction false} ReduceConcat(stack: seq<string>, a: seq<Elem>, b: seq<Elem>)
    ensures Reduce(stack, a + b) == Reduce(Reduce(stack, a), b)
    decreases a
  {
    if a == [] {
      assert a + b == b;
    } else {
      assert (a + b)[1..] == a[1..] + b;
      ReduceConcat(Apply(stack, a[0]), a[1..], b);
    }
  }

  // ---- plain names ----

  predicate Plain(n: string) { n != "" && '/' !in n && n != DOT && n != UP }

  predicate AllPlain(names: seq<string>) { forall i :: 0 <= i < |names| ==> Plain(names[i]) }

  /** The shapes of component that iteration can yield. */
  predicate WellFormed(e: Elem) {
    e == ROOT || e == DOUBLE || e == DOT || e == UP || Plain(e) || (IsDoubled(e) && '/' !in e[2..])
  }

  predicate AllWellFormed(elems: seq<Elem>) { forall i :: 0 <= i < |elems| ==> WellFormed(elems[i]) }

  /** A doubled separator glued to "." or "..", which escapes the tests for both. */
  predicate IsDisguised(e: Elem) { IsDoubled(e) && (e[2..] == DOT || e[2..] == UP) }

  /** Some disguised component is not taken away by what follows it. */
  predicate Tainted(elems: seq<Elem>) {
    elems != [] && ((IsDisguised(elems[0]) && Dip(elems[1..]) == 0) || Tainted(elems[1..]))
  }

  /** The normalised names are free of "." and ".." exactly when no disguised component survives. */
  lemma {:induction false} PlainUnlessTainted(elems: seq<Elem>)
    requires AllWellFormed(elems)
    ensures AllPlain(Survivors(elems)) <==> !Tainted(elems)
  {
    if elems != [] {
      PlainUnlessTainted(elems[1..]);
      var rest := Survivors(elems[1..]);
      if Pushes(elems[0]) && Dip(elems[1..]) == 0 {
        var all := [NameOf(elems[0])] + rest;
        assert WellFormed(elems[0]);
        assert Plain(all[0]) <==> !IsDisguised(elems[0]);
        assert AllPlain(all) <==> Plain(all[0]) && AllPlain(rest) by {
          assert forall i :: 0 <= i < |rest| ==> rest[i] == all[i + 1];
        }
      }
    }
  }

  /** The claim that normalisation never leaves a ".." is false of the components of "//../a". */
  lemma DisguisedCounterexample()
    ensures Normalize(["//..", ROOT, "a"], false) == Rooted([UP, "a"], false)
  {
    assert "//.."[2..] == UP;
    ReduceFirst([], "//..", [ROOT, "a"]);
    ReduceFirst([UP], ROOT, ["a"]);
    ReduceFirst([UP], "a", []);
  }

  lemma ReduceFirst(stack: seq<string>, e: Elem, rest: seq<Elem>)
    ensures Reduce(stack, [e] + rest) == Reduce(Apply(stack, e), rest)
  {
    assert ([e] + rest)[1..] == rest;
  }

  lemma {:induction false} ReducePlain(stack: seq<string>, names: seq<string>)
    requires AllPlain(names)
    ensures Reduce(stack, names) == stack + names
    decreases names
  {
    if names != [] {
      assert Plain(names[0]) && AllPlain(names[1..]);
      ReducePlain(stack + [names[0]], names[1..]);
    }
  }

  /** Starting from a clean path's own components gives back its names. */
  lemma ReduceElements(p: NormPath)
    requires p.Rooted? ==> AllPlain(p.names)
    ensures Reduce([], Elements(p)) == if p.Empty? then [] else p.names
  {
    if p.Rooted? {
      var tail := if p.trailing then [DOT] else [];
      assert Elements(p) == [ROOT] + (p.names + tail);
      assert Elements(p)[1..] == p.names + tail;
      ReduceConcat([], p.names, tail);
      ReducePlain([], p.names);
      assert tail == [] || tail[1..] == [];
    }
  }

  /** Every surviving name is plain unless it was disguised. */
  lemma {:induction false} SurvivorShape(elems: seq<Elem>, i: nat)
    requires AllWellFormed(elems) && i < |Survivors(elems)|
    ensures Plain(Survivors(elems)[i]) || Survivors(elems)[i] == DOT || Survivors(elems)[i] == UP
  {
    assert WellFormed(elems[0]);
    var first := Pushes(elems[0]) && Dip(elems[1..]) == 0;
    if !first {
      SurvivorShape(elems[1..], i);
    } else if i > 0 {
      SurvivorShape(elems[1..], i - 1);
    }
  }

  /** Only components that all add a name can leave as many names as there are components. */
  lemma {:induction false} ReduceShrinks(stack: seq<string>, elems: seq<Elem>)
    ensures |Reduce(stack, elems)| <= |stack| + |elems|
    ensures |Reduce(stack, elems)| == |stack| + |elems| ==> forall i :: 0 <= i < |elems| ==> Pushes(elems[i])
    decreases elems
  {
    if elems != [] {
      ReduceShrinks(Apply(stack, elems[0]), elems[1..]);
      assert forall i :: 1 <= i < |elems| ==> elems[i] == elems[1..][i - 1];
    }
  }

  lemma DropTail(names: seq<string>, trailing: bool)
    ensures Reduce([], Elements(Rooted(names, trailing))) == Reduce([], names)
  {
    var tail := if trailing then [DOT] else [];
    assert Elements(Rooted(names, trailing)) == [ROOT] + (names + tail);
    assert Elements(Rooted(names, trailing))[1..] == names + tail;
    ReduceConcat([], names, tail);
    assert tail == [] || tail[1..] == [];
  }

  /** A second normalisation leaves the names alone exactly when no disguised component survived
      the first one. */
  lemma ReduceAgain(elems: seq<Elem>, trailing: bool)
    requires AllWellFormed(elems)
    ensures Reduce([], Elements(Rooted(Survivors(elems), trailing))) == Survivors(elems) <==> !Tainted(elems)
  {
    var names := Survivors(elems);
    PlainUnlessTainted(elems);
    DropTail(names, trailing);
    if Tainted(elems) {
      var i :| 0 <= i < |names| && !Plain(names[i]);
      SurvivorShape(elems, i);
      ReduceShrinks([], names);
    } else {
      ReducePlain([], names);
    }
  }

  /** Normalisation is idempotent on a path exactly when no disguised component survives in it. */
  lemma NormalizeIdempotent(elems: seq<Elem>, asDirectory: bool)
    requires AllWellFormed(elems)
    ensures Normalize(Elements(Normalize(elems, asDirectory)), asDirectory) == Normalize(elems, asDirectory) <==>
      !Tainted(elems)
  {
    NormalizeIsSurvivors(elems);
    ReduceAgain(elems, asDirectory && Survivors(elems) != []);
  }

  /** Normalising `a / b` is normalising `(normalised a) / b` for every `b`, exactly when no
      disguised component survives in `a`. */
  lemma NormalizeConcat(a: seq<Elem>, d: bool, asDirectory: bool)
    requires AllWellFormed(a) && a != []
    ensures (forall b :: Normalize(Elements(Normalize(a, d)) + b, asDirectory) == Normalize(a + b, asDirectory)) <==>
      !Tainted(a)
  {
    var first := Elements(Normalize(a, d));
    NormalizeIsSurvivors(a);
    ReduceAgain(a, d && Survivors(a) != []);
    if Tainted(a) {
      assert first + [] == first && a + [] == a;
      assert Normalize(first + [], asDirectory) != Normalize(a + [], asDirectory);
    } else {
      forall b ensures Normalize(first + b, asDirectory) == Normalize(a + b, asDirectory) {
        ReduceConcat([], first, b);
        ReduceConcat([], a, b);
      }
    }
  }

  // ---- relative paths ----

  function Absolute(p: seq<Elem>, cwd: seq<Elem>): seq<Elem> {
    if p != [] && p[0] == ROOT then p else cwd + p
  }

  /** An absolute path stays as it is, and any other leads on from the current directory. */
  lemma AbsoluteLeads(p: seq<Elem>, cwd: seq<Elem>)
    ensures [ROOT] <= p ==> Absolute(p, cwd) == p
    ensures !([ROOT] <= p) ==> Reduce([], Absolute(p, cwd)) == Reduce(Reduce([], cwd), p)
  {
    ReduceConcat([], cwd, p);
  }

  /** The length of the longest common prefix. */
  function Common(p: seq<Elem>, base: seq<Elem>): (c: nat)
    ensures c <= |p| && c <= |base| && p[..c] == base[..c]
    ensures c < |p| && c < |base| ==> p[c] != base[c]
  {
    if p == [] || base == [] || p[0] != base[0] then 0 else 1 + Common(p[1..], base[1..])
  }

  /** One ".." for each component that is not ".". */
  function Climb(elems: seq<Elem>): seq<Elem> {
    if elems == [] then []
    else (if elems[0] != DOT then [UP] else []) + Climb(elems[1..])
  }

  function RelativeTo(p: seq<Elem>, base: seq<Elem>): seq<Elem> {
    var c := Common(p, base);
    Climb(base[c..]) + p[c..]
  }

  lemma {:induction false} CommonIsLongest(p: seq<Elem>, base: seq<Elem>, c: nat)
    requires c <= |p| && c <= |base| && p[..c] == base[..c]
    requires c < |p| && c < |base| ==> p[c] != base[c]
    ensures Common(p, base) == c
  {
    if c > 0 {
      assert p[0] == p[..c][0] == base[..c][0] == base[0];
      assert p[1..][..c - 1] == p[..c][1..] && base[1..][..c - 1] == base[..c][1..];
      CommonIsLongest(p[1..], base[1..], c - 1);
    }
  }

  lemma {:induction false} ClimbSnoc(elems: seq<Elem>, e: Elem)
    ensures Climb(elems + [e]) == Climb(elems) + (if e != DOT then [UP] else [])
  {
    if elems == [] {
      assert (elems + [e])[1..] == [];
    } else {
      assert (elems + [e])[1..] == elems[1..] + [e];
      ClimbSnoc(elems[1..], e);
    }
  }

  /** Navigate backwards from `base` past the common prefix of length `c`. */
  method ClimbFrom(base: seq<Elem>, c: nat) returns (ret: seq<Elem>)
    requires c <= |base|
    ensures ret == Climb(base[c..])
  {
    ret := [];
    var b := c;
    while b < |base|
      invariant c <= b <= |base| && ret == Climb(base[c..b])
    {
      ClimbSnoc(base[c..b], base[b]);
      assert base[c..b + 1] == base[c..b] + [base[b]];
      if base[b] != DOT {
        ret := ret + [UP];
      }
      b := b + 1;
    }
    assert base[c..b] == base[c..];
  }

  method Relative(path: seq<Elem>, basePath: seq<Elem>, cwd: seq<Elem>) returns (ret: seq<Elem>)
    ensures ret == RelativeTo(Absolute(path, cwd), Absolute(basePath, cwd))
  {
    var base := Absolute(basePath, cwd);
    var p := Absolute(path, cwd);
    var i := 0;
    while i < |base| && i < |p| && base[i] == p[i]
      invariant i <= |base| && i <= |p| && p[..i] == base[..i]
    {
      assert p[..i + 1] == p[..i] + [p[i]] && base[..i + 1] == base[..i] + [base[i]];
      i := i + 1;
    }
    CommonIsLongest(p, base, i);
    ret := ClimbFrom(base, i);
    ret := ret + p[i..];
  }

  // ---- relative paths lead back ----

  predicate PlainOrDot(elems: seq<Elem>) {
    forall i :: 0 <= i < |elems| ==> Plain(elems[i]) || elems[i] == DOT
  }

  predicate AllDots(elems: seq<Elem>) {
    forall i :: 0 <= i < |elems| ==> elems[i] == DOT
  }

  lemma {:induction false} ClimbIsUps(elems: seq<Elem>)
    ensures forall i :: 0 <= i < |Climb(elems)| ==> Climb(elems)[i] == UP
    ensures Climb(elems) == [] <==> AllDots(elems)
  {
    if elems != [] {
      ClimbIsUps(elems[1..]);
      assert AllDots(elems) <==> elems[0] == DOT && AllDots(elems[1..]);
    }
  }

  lemma ClimbShape(e: Elem, rest: seq<Elem>)
    ensures [e] + rest + Climb([e] + rest) == [e] + (rest + Climb(rest) + if e != DOT then [UP] else [])
  {
    assert ([e] + rest)[1..] == rest;
    ClimbIsUps(rest);
    assert [UP] + Climb(rest) == Climb(rest) + [UP];
  }

  /** Going down a branch and climbing back changes nothing. */
  lemma {:induction false} ClimbUndoes(stack: seq<string>, elems: seq<Elem>)
    requires PlainOrDot(elems)
    ensures Reduce(stack, elems + Climb(elems)) == stack
    decreases elems
  {
    if elems != [] {
      var e, rest := elems[0], elems[1..];
      assert elems == [e] + rest && (Plain(e) || e == DOT);
      ClimbShape(e, rest);
      ReduceFirst(stack, e, rest + Climb(rest) + if e != DOT then [UP] else []);
      ClimbUndoes(Apply(stack, e), rest);
      if e != DOT {
        StepUp(stack, e, rest + Climb(rest));
      } else {
        assert rest + Climb(rest) + [] == rest + Climb(rest);
      }
    }
  }

  lemma StepUp(stack: seq<string>, name: string, between: seq<Elem>)
    requires Reduce(stack + [name], between) == stack + [name]
    ensures Reduce(stack + [name], between + [UP]) == stack
  {
    ReduceConcat(stack + [name], between, [UP]);
    assert [UP][1..] == [];
  }

  /** From `base`, the path relative to it leads to `p`, whenever what `base` has beyond their
      common prefix is made of plain names and ".". */
  lemma RelativeLeadsBack(p: seq<Elem>, base: seq<Elem>)
    requires PlainOrDot(base[Common(p, base)..])
    ensures Reduce([], base + RelativeTo(p, base)) == Reduce([], p)
  {
    var c := Common(p, base);
    var own, beyond := base[c..], p[c..];
    assert base + RelativeTo(p, base) == base[..c] + (own + Climb(own) + beyond);
    ReduceConcat([], base[..c], own + Climb(own) + beyond);
    ReduceConcat(Reduce([], base[..c]), own + Climb(own), beyond);
    ClimbUndoes(Reduce([], base[..c]), own);
    assert p == p[..c] + beyond;
    ReduceConcat([], p[..c], beyond);
  }

  /** The relative path climbs exactly when `base` has more than "." beyond the common prefix. */
  lemma ClimbsIff(p: seq<Elem>, base: seq<Elem>)
    requires UP !in p
    ensures UP in RelativeTo(p, base) <==> !AllDots(base[Common(p, base)..])
  {
    var own := base[Common(p, base)..];
    ClimbIsUps(own);
    if !AllDots(own) {
      assert Climb(own)[0] == UP && RelativeTo(p, base)[0] == UP;
    }
  }

  lemma ElementAt(p: NormPath, i: nat)
    requires p.Rooted? && i < |Elements(p)| && AllPlain(p.names)
    ensures Elements(p)[i] == if i == 0 then ROOT else if i <= |p.names| then p.names[i - 1] else DOT
    ensures Plain(Elements(p)[i]) <==> 1 <= i <= |p.names|
  {
  }

  /** Agreement on the first components of two normalised paths is agreement on their names. */
  lemma CommonNames(p: NormPath, base: NormPath, i: nat)
    requires p.Rooted? && base.Rooted? && AllPlain(p.names) && AllPlain(base.names)
    requires 1 <= i <= |base.names| && i < Common(Elements(p), Elements(base))
    ensures i <= |p.names| && p.names[i - 1] == base.names[i - 1]
  {
    var c := Common(Elements(p), Elements(base));
    assert Elements(base)[i] == Elements(base)[..c][i] == Elements(p)[..c][i] == Elements(p)[i];
    ElementAt(base, i);
    ElementAt(p, i);
  }

  lemma PrefixIff(p: NormPath, base: NormPath)
    requires p.Rooted? && base.Rooted? && AllPlain(p.names) && AllPlain(base.names)
    ensures AllDots(Elements(base)[Common(Elements(p), Elements(base))..]) <==> base.names <= p.names
    ensures PlainOrDot(Elements(base)[Common(Elements(p), Elements(base))..])
  {
    var be := Elements(base);
    var c := Common(Elements(p), be);
    assert c >= 1;
    forall i | c <= i < |be| ensures Plain(be[i]) || be[i] == DOT {
      ElementAt(base, i);
    }
    if c > |base.names| {
      if base.names != [] {
        CommonNames(p, base, |base.names|);
      }
      forall i | 0 <= i < |base.names| ensures p.names[i] == base.names[i] {
        CommonNames(p, base, i + 1);
      }
      assert base.names == p.names[..|base.names|];
    } else {
      ElementAt(base, c);
      assert be[c..][0] == be[c];
      if c < |Elements(p)| {
        ElementAt(p, c);
      }
    }
  }

  /** For all normalised absolute paths: appending the relative path to the base and normalising
      gives the path back, and the relative path holds ".." exactly when the base is not a prefix
      of the path. */
  lemma RelativeRoundTrip(p: NormPath, base: NormPath)
    requires p.Rooted? && base.Rooted? && AllPlain(p.names) && AllPlain(base.names)
    ensures Reduce([], Elements(base) + RelativeTo(Elements(p), Elements(base))) == p.names
    ensures UP in RelativeTo(Elements(p), Elements(base)) <==> !(base.names <= p.names)
  {
    PrefixIff(p, base);
    RelativeLeadsBack(Elements(p), Elements(base));
    ReduceElements(p);
    NoUps(p);
    ClimbsIff(Elements(p), Elements(base));
  }

  lemma NoUps(p: NormPath)
    requires p.Rooted? ==> AllPlain(p.names)
    ensures UP !in Elements(p)
  {
    if p.Rooted? {
      forall i | 0 <= i < |Elements(p)| ensures Elements(p)[i] != UP {
        if 1 <= i <= |p.names| {
          assert Elements(p)[i] == p.names[i - 1];
        }
      }
    }
  }
}
