/** Links of a document, before and after: where each leads from the document, and from its page. */
module Retarget {
  import opened Book
  import opened Paths
  import opened Prelude
  import opened Text

  // ----- paths as text -----

  function PartOf(part: string): Component {
    if part == "" || part == "." then CurDir else if part == ".." then ParentDir else Normal(part)
  }

  function Parts(path: string): seq<Component> {
    var parts := Split(path, '/');
    seq(|parts|, i requires 0 <= i < |parts| => PartOf(parts[i]))
  }

  /** `Resolve` on text. */
  function Normalise(path: string): Option<string> {
    match Resolve(Parts(path)) case Some(names) => Some(Join(names, '/')) case None => None
  }

  method NormalisePath(path: string) returns (normal: Option<string>)
    ensures normal == Normalise(path)
  {
    var parts := Split(path, '/');
    var names: seq<string> := [];
    ghost var cs := Parts(path);
    for i := 0 to |parts|
      invariant Resolve(cs[..i]) == Some(names)
    {
      assert cs[..i + 1][..i] == cs[..i];
      if parts[i] == "" || parts[i] == "." {
      } else if parts[i] == ".." {
        if names == [] {
          ResolvePrefixFails(cs, i + 1);
          return None;
        }
        names := names[..|names| - 1];
      } else {
        names := names + [parts[i]];
      }
    }
    assert cs[..|parts|] == cs;
    return Some(Join(names, '/'));
  }

  /** What comes before the last `/`, or nothing. */
  function Parent(path: string): string
    decreases |path|
  {
    if path == [] then []
    else if path[|path| - 1] == '/' then path[..|path| - 1]
    else Parent(path[..|path| - 1])
  }

  function NonEmpty(parts: seq<string>): seq<string> {
    if parts == [] then []
    else (if parts[0] == "" then [] else [parts[0]]) + NonEmpty(parts[1..])
  }

  /** How many names `a` and `b` share from the start. */
  function Shared(a: seq<string>, b: seq<string>): (n: nat)
    ensures n <= |a| && n <= |b| && a[..n] == b[..n]
    ensures n < |a| && n < |b| ==> a[n] != b[n]
  {
    if a != [] && b != [] && a[0] == b[0] then 1 + Shared(a[1..], b[1..]) else 0
  }

  function RelativeNames(from: seq<string>, to: seq<string>): seq<string> {
    var shared := Shared(from, to);
    Ups(|from| - shared) + to[shared..]
  }

  /** `RelativeNames` on text. */
  function Relative(from: string, to: string): string {
    Join(RelativeNames(NonEmpty(Split(from, '/')), NonEmpty(Split(to, '/'))), '/')
  }

  // ----- what the paths mean -----

  lemma PartsOfJoin(names: seq<string>)
    requires PlainNames(names) || (forall name :: name in names ==> name == ".." || PlainName(name))
    ensures Parts(Join(names, '/'))
            == if names == [] then [CurDir] else seq(|names|, i requires 0 <= i < |names| => PartOf(names[i]))
  {
    if names != [] {
      SplitOfJoin(names, '/');
    }
  }

  lemma NormalsOfPlain(names: seq<string>)
    requires PlainNames(names)
    ensures seq(|names|, i requires 0 <= i < |names| => PartOf(names[i])) == Normals(names)
  {
    forall i | 0 <= i < |names| ensures PartOf(names[i]) == Normal(names[i]) {
      assert names[i] in names;
    }
  }

  lemma ResolvePlain(names: seq<string>)
    requires PlainNames(names)
    ensures Resolve(Parts(Join(names, '/'))) == Some(names)
  {
    PartsOfJoin(names);
    NormalsOfPlain(names);
    ConfineIsIdempotent(names);
    if names == [] {
      assert [CurDir][..0] == [];
    }
  }

  /** A path read from a directory: the directory's names, then the path's own steps. */
  lemma ReadFrom(dir: seq<string>, path: string)
    requires PlainNames(dir)
    ensures Resolve(Parts(Join(dir, '/') + "/" + path)) == Resolve(Normals(dir) + Parts(path))
  {
    var text := Join(dir, '/');
    SplitConcat(text, '/', path);
    assert Parts(text + "/" + path) == Parts(text) + Parts(path);
    ResolvePlain(dir);
    ResolveAfter(Parts(text), dir, Parts(path));
  }

  lemma StaysThere(names: Clean)
    ensures Resolve(Normals(names) + [CurDir]) == Some(names)
  {
    ConfineIsIdempotent(names);
    assert (Normals(names) + [CurDir])[..|names|] == Normals(names);
  }

  lemma {:induction false} NonEmptyPlain(names: seq<string>)
    requires PlainNames(names)
    ensures NonEmpty(names) == names
  {
    if names != [] {
      assert names[0] in names && forall name :: name in names[1..] ==> name in names;
      NonEmptyPlain(names[1..]);
    }
  }

  lemma NamesOf(names: seq<string>)
    requires PlainNames(names)
    ensures NonEmpty(Split(Join(names, '/'), '/')) == names
  {
    if names != [] {
      SplitOfJoin(names, '/');
    }
    NonEmptyPlain(names);
  }

  lemma RelativeIs(at: seq<string>, to: seq<string>)
    requires PlainNames(at) && PlainNames(to)
    ensures Relative(Join(at, '/'), Join(to, '/')) == Join(RelativeNames(at, to), '/')
  {
    NamesOf(at);
    NamesOf(to);
  }

  /** The path from a directory to a place, resolved from the directory, is the place. */
  lemma RelativeLeadsThere(at: seq<string>, to: seq<string>)
    requires PlainNames(at) && PlainNames(to)
    ensures Normalise(Join(to, '/')) == Some(Join(to, '/'))
    ensures Normalise(Join(at, '/') + "/" + Relative(Join(at, '/'), Join(to, '/'))) == Some(Join(to, '/'))
  {
    ResolvePlain(to);
    RelativeIs(at, to);
    ReadFrom(at, Join(RelativeNames(at, to), '/'));
    StepsOfRelative(at, to);
  }

  lemma StepsOfRelative(at: seq<string>, to: seq<string>)
    requires PlainNames(at) && PlainNames(to)
    ensures Resolve(Normals(at) + Parts(Join(RelativeNames(at, to), '/'))) == Some(to)
  {
    hide Resolve;
    var n := Shared(at, to);
    RelativeParts(at, to, n);
    if RelativeNames(at, to) == [] {
      assert |Ups(|at| - n)| == 0 && |to[n..]| == 0;
      assert at == at[..n] && to == to[..n];
      StaysThere(at);
    } else {
      ClimbThenName(at, |at| - n, to[n..]);
      assert at[..|at| - (|at| - n)] + to[n..] == to;
    }
  }

  lemma RelativeParts(at: seq<string>, to: seq<string>, n: nat)
    requires PlainNames(at) && PlainNames(to) && n == Shared(at, to)
    ensures var path := RelativeNames(at, to);
            Parts(Join(path, '/')) == if path == [] then [CurDir] else Climb(|at| - n) + Normals(to[n..])
  {
    hide Shared, Join, Resolve;
    var path := RelativeNames(at, to);
    var rest := to[n..];
    assert forall name :: name in rest ==> name in to;
    PartsOfJoin(path);
    NormalsOfPlain(rest);
    var k := |at| - n;
    forall i | 0 <= i < |path| ensures PartOf(path[i]) == (Climb(k) + Normals(rest))[i] {
      if i >= k {
        assert path[i] == rest[i - k] && rest[i - k] in rest;
      }
    }
  }

  // ----- a design document and its page -----

  const BOOK_DIR: seq<string> := ["book", "src"]

  /** What is left of `path` once every `docs/` it starts with has been taken off. */
  function TrimDocs(path: string): string
    decreases |path|
  {
    if "docs/" <= path then TrimDocs(path[5..]) else path
  }

  function PageOf(document: string): string {
    MIRROR + "/" + TrimDocs(document)
  }

  /** A link's target as the path it names and the anchor there. */
  function Cut(target: string): (string, string) {
    match SplitOnce(target, '#') case Some(cut) => cut case None => (target, "")
  }

  predicate External(target: string) {
    "#" <= target || Contains(target, "://") || "mailto:" <= target || Cut(target).0 == ""
  }

  /** Where a relative link leads from a directory: the path it resolves to, and the anchor there. */
  function Where(dir: string, target: string): Option<(string, string)> {
    var (path, anchor) := Cut(target);
    match Normalise(dir + "/" + path) case Some(resolved) => Some((resolved, anchor)) case None => None
  }

  predicate Contains(s: string, part: string) {
    part <= s || (s != [] && Contains(s[1..], part))
  }

  /** Where a link should point from the page, if elsewhere. */
  function NewTarget(target: string, from: string, at: string, gitRef: string, dirs: set<string>): Option<string> {
    if "#" <= target || Contains(target, "://") || "mailto:" <= target then None
    else
      var (path, anchor) := Cut(target);
      if path == "" then None
      else match Normalise(from + "/" + path)
        case None => None
        case Some(resolved) =>
          if "docs/" <= resolved then None
          else
            var suffix := if anchor == "" then "" else "#" + anchor;
            if "book/src/" <= resolved then Some(Relative(at, resolved) + suffix)
            else
              Some(REPOSITORY + "/" + (if resolved in dirs then "tree" else "blob") + "/" + gitRef + "/" + resolved
                   + suffix)
  }

  /** Whether `part` begins somewhere in `s`. */
  lemma {:induction false} ContainsAt(s: string, part: string)
    ensures Contains(s, part) <==> exists i :: 0 <= i <= |s| && part <= s[i..]
    decreases |s|
  {
    assert s[0..] == s;
    if s != [] {
      ContainsAt(s[1..], part);
      assert forall i :: 1 <= i <= |s| ==> s[i..] == s[1..][i - 1..];
      if Contains(s[1..], part) {
        var i :| 0 <= i <= |s[1..]| && part <= s[1..][i..];
        assert s[i + 1..] == s[1..][i..];
      }
    }
  }

  /** Exactly those links change that name a path, are no address, lead somewhere inside the repository, and not into
      `docs/`. */
  lemma ChangesExactly(target: string, from: string, at: string, gitRef: string, dirs: set<string>)
    ensures NewTarget(target, from, at, gitRef, dirs).Some?
            <==> && target != "" && target[0] != '#' && !("mailto:" <= target)
                 && !(exists i :: 0 <= i <= |target| && "://" <= target[i..])
                 && Where(from, target).Some? && !("docs/" <= Where(from, target).value.0)
  {
    ContainsAt(target, "://");
    PathOf(target);
  }

  /** A target names no path exactly when it is empty or all anchor. */
  lemma PathOf(target: string)
    ensures Cut(target).0 == "" <==> target == "" || target[0] == '#'
    ensures "#" <= target <==> target != "" && target[0] == '#'
  {
    SplitOnceNone(target, '#');
    assert target != "" && target[0] == '#' ==> "#" <= target;
  }

  // ----- where a document and its page are -----

  const MIRROR_DIR: seq<string> := ["book", "src", "design"]

  lemma MirrorIs()
    ensures MIRROR == Join(MIRROR_DIR, '/') && PlainNames(MIRROR_DIR)
  {
    assert MIRROR_DIR[1..] == ["src", "design"] && MIRROR_DIR[1..][1..] == ["design"];
  }

  lemma {:induction false} JoinConcat(a: seq<string>, b: seq<string>)
    requires a != [] && b != []
    ensures Join(a + b, '/') == Join(a, '/') + "/" + Join(b, '/')
    decreases |a|
  {
    assert (a + b)[1..] == a[1..] + b;
    if |a| > 1 {
      JoinConcat(a[1..], b);
    } else {
      assert a[1..] + b == b;
    }
  }

  lemma {:induction false} ParentPast(dir: string, file: string)
    requires '/' !in file
    ensures Parent(dir + "/" + file) == dir
    decreases |file|
  {
    var path := dir + "/" + file;
    if file == [] {
      assert path[..|path| - 1] == dir;
    } else {
      assert path[..|path| - 1] == dir + "/" + file[..|file| - 1];
      assert file[|file| - 1] in file;
      ParentPast(dir, file[..|file| - 1]);
    }
  }

  lemma ParentOf(dir: seq<string>, file: string)
    requires dir != [] && PlainName(file)
    ensures Parent(Join(dir + [file], '/')) == Join(dir, '/')
  {
    JoinConcat(dir, [file]);
    ParentPast(Join(dir, '/'), file);
  }

  /** A normal path is inside a directory at the root exactly when it has that name first, and more. */
  lemma StartsIn(first: string, names: seq<string>)
    requires PlainName(first) && PlainNames(names)
    ensures first + "/" <= Join(names, '/') <==> |names| >= 2 && names[0] == first
  {
    hide Split;
    var text := Join(names, '/');
    if |names| >= 2 && names[0] == first {
      assert text == first + "/" + Join(names[1..], '/');
    }
    if first + "/" <= text {
      assert text != [] && names != [];
      StartOf(first, text[|first| + 1..]);
      assert text == first + "/" + text[|first| + 1..];
      SplitOfJoin(names, '/');
    }
  }

  lemma StartOf(first: string, rest: string)
    requires '/' !in first
    ensures |Split(first + "/" + rest, '/')| >= 2 && Split(first + "/" + rest, '/')[0] == first
  {
    SplitConcat(first, '/', rest);
    SplitPlain(first, '/');
  }

  lemma TrimOnce(rest: string)
    ensures TrimDocs("docs/" + rest) == TrimDocs(rest)
    ensures TrimDocs(rest) == rest <==> !("docs/" <= rest)
  {
    assert ("docs/" + rest)[5..] == rest;
    Shorter(rest);
  }

  lemma {:induction false} Shorter(rest: string)
    ensures |TrimDocs(rest)| <= |rest|
    ensures "docs/" <= rest ==> |TrimDocs(rest)| < |rest|
    decreases |rest|
  {
    if "docs/" <= rest {
      Shorter(rest[5..]);
    }
  }

  function DocumentAt(dir: seq<string>, file: string): string {
    Join(["docs"] + dir + [file], '/')
  }

  /** A document's page is at its own place in the mirror exactly when it is not in a directory of `docs/`
      that is called `docs` itself: that name is taken off too. */
  lemma PageIsItsMirror(dir: seq<string>, file: string)
    requires PlainNames(dir) && PlainName(file)
    ensures PageOf(DocumentAt(dir, file)) == Join(MIRROR_DIR + dir + [file], '/')
            <==> !(dir != [] && dir[0] == "docs")
  {
    var rest := Join(dir + [file], '/');
    DocumentIs(dir, file);
    TrimOnce(rest);
    StartsIn("docs", dir + [file]);
    MirrorIs();
    assert MIRROR_DIR + dir + [file] == MIRROR_DIR + (dir + [file]);
    JoinConcat(MIRROR_DIR, dir + [file]);
    SameAfter(MIRROR + "/", TrimDocs(rest), rest);
  }

  lemma DocumentIs(dir: seq<string>, file: string)
    ensures DocumentAt(dir, file) == "docs/" + Join(dir + [file], '/')
  {
    assert ["docs"] + dir + [file] == ["docs"] + (dir + [file]);
    JoinConcat(["docs"], dir + [file]);
  }

  lemma SameAfter(a: string, b: string, c: string)
    ensures a + b == a + c <==> b == c
  {
    assert (a + b)[|a|..] == b && (a + c)[|a|..] == c;
  }

  /** So two documents can be written over each other. */
  lemma PagesCollide()
    ensures DocumentAt(["docs"], "x.md") != DocumentAt([], "x.md")
    ensures PageOf(DocumentAt(["docs"], "x.md")) == PageOf(DocumentAt([], "x.md"))
  {
    var x := "x.md";
    assert ["docs"] + [] + [x] == ["docs", x] && ["docs", x][1..] == [x];
    assert ["docs"] + ["docs"] + [x] == ["docs", "docs", x] && ["docs", "docs", x][1..] == ["docs", x];
    var once := DocumentAt([], x);
    JoinConcat(["docs"], [x]);
    assert once == "docs/" + x;
    assert DocumentAt(["docs"], x) == "docs/" + once;
    TrimOnce(once);
  }

  // ----- a link left alone -----

  /** How a path resolves from below a base, by how it resolves when the base is the root. */
  lemma {:induction false} ResolveAbove(base: Clean, dir: Clean, cs: seq<Component>)
    requires Resolve(Normals(dir) + cs).Some?
    ensures Resolve(Normals(base + dir) + cs) == Some(base + Resolve(Normals(dir) + cs).value)
    decreases |cs|
  {
    hide Resolve;
    if cs == [] {
      assert Normals(dir) + cs == Normals(dir) && Normals(base + dir) + cs == Normals(base + dir);
      ConfineIsIdempotent(dir);
      ConfineIsIdempotent(base + dir);
    } else {
      var front, c := cs[..|cs| - 1], cs[|cs| - 1];
      ResolveThen(dir, front, c);
      ResolveThen(base + dir, front, c);
      assert front + [c] == cs;
      ResolveAbove(base, dir, front);
      FollowAbove(base, Resolve(Normals(dir) + front).value, c);
    }
  }

  lemma ResolveThen(names: Clean, front: seq<Component>, c: Component)
    ensures Resolve(Normals(names) + (front + [c]))
            == match Resolve(Normals(names) + front) case None => None case Some(stack) => Paths.Follow(stack, c)
  {
    assert Normals(names) + (front + [c]) == Normals(names) + front + [c];
    ResolveSnoc(Normals(names) + front, c);
  }

  lemma FollowAbove(base: Clean, stack: Clean, c: Component)
    requires Paths.Follow(stack, c).Some?
    ensures Paths.Follow(base + stack, c) == Some(base + Paths.Follow(stack, c).value)
  {
    match c
    case Normal(name) => assert base + stack + [name] == base + (stack + [name]);
    case ParentDir => assert (base + stack)[..|base + stack| - 1] == base + stack[..|stack| - 1];
    case _ =>
  }

  /** A path that climbs out of one directory climbs out of any other put in its place, and what it goes
      on to name is next to that directory, not in it. */
  lemma {:induction false} ResolveOutside(
      docs: string, outer: Clean, design: string, dir: Clean, cs: seq<Component>)
    requires Resolve(Normals(dir) + cs).None?
    requires Resolve(Normals([docs] + dir) + cs).Some?
    ensures Resolve(Normals(outer + [design] + dir) + cs)
            == Some(outer + Resolve(Normals([docs] + dir) + cs).value)
    decreases |cs|
  {
    hide Resolve;
    if cs == [] {
      assert Normals(dir) + cs == Normals(dir);
      ConfineIsIdempotent(dir);
    } else {
      var front, c := cs[..|cs| - 1], cs[|cs| - 1];
      assert front + [c] == cs;
      ResolveThen(dir, front, c);
      ResolveThen([docs] + dir, front, c);
      ResolveThen(outer + [design] + dir, front, c);
      if Resolve(Normals(dir) + front).None? {
        ResolveOutside(docs, outer, design, dir, front);
        FollowAbove(outer, Resolve(Normals([docs] + dir) + front).value, c);
      } else {
        var names := Resolve(Normals(dir) + front).value;
        ResolveAbove([docs], dir, front);
        ResolveAbove(outer + [design], dir, front);
        LeavesTogether(docs, outer, design, names, c);
      }
    }
  }

  lemma LeavesTogether(docs: string, outer: Clean, design: string, names: Clean, c: Component)
    requires Paths.Follow(names, c).None? && Paths.Follow([docs] + names, c).Some?
    ensures Paths.Follow(outer + [design] + names, c) == Some(outer + Paths.Follow([docs] + names, c).value)
  {
    assert names == [] && outer + [design] + names == outer + [design] && [docs] + names == [docs];
    assert (outer + [design])[..|outer|] == outer + [docs][..0];
  }

  lemma PartsArePlain(path: string)
    ensures forall c :: c in Parts(path) && c.Normal? ==> PlainName(c.name)
  {
    SplitHasNone(path, '/');
    var parts := Split(path, '/');
    forall i | 0 <= i < |parts| ensures Parts(path)[i].Normal? ==> PlainName(Parts(path)[i].name) {
      assert parts[i] in parts;
    }
  }

  /** What a path resolves to is plain names: the directory's, or the path's own. */
  lemma {:induction false} ResolvedNames(dir: Clean, cs: seq<Component>)
    requires Resolve(Normals(dir) + cs).Some?
    ensures forall name :: name in Resolve(Normals(dir) + cs).value ==> name in dir || Normal(name) in cs
    decreases |cs|
  {
    hide Resolve;
    if cs == [] {
      assert Normals(dir) + cs == Normals(dir);
      ConfineIsIdempotent(dir);
    } else {
      var front, c := cs[..|cs| - 1], cs[|cs| - 1];
      assert front + [c] == cs;
      ResolveThen(dir, front, c);
      ResolvedNames(dir, front);
      assert c in cs && forall d :: d in front ==> d in cs;
    }
  }

  lemma ResolvesPlainly(dir: Clean, path: string)
    requires PlainNames(dir) && Resolve(Normals(dir) + Parts(path)).Some?
    ensures PlainNames(Resolve(Normals(dir) + Parts(path)).value)
  {
    ResolvedNames(dir, Parts(path));
    PartsArePlain(path);
  }

  /** A link between design documents, left alone because it resolves inside `docs/`, names from the page
      the mirror of what it names from the document exactly when it never climbs above `docs/` on its way. */
  lemma DesignLinkStands(dir: seq<string>, path: string, resolved: string)
    requires PlainNames(dir)
    requires Normalise(Join(["docs"] + dir, '/') + "/" + path) == Some(resolved) && "docs/" <= resolved
    ensures Normalise(Join(MIRROR_DIR + dir, '/') + "/" + path) == Some(MIRROR + "/" + resolved[5..])
            <==> Normalise(Join(dir, '/') + "/" + path).Some?
  {
    hide Resolve, Parts, PlainName;
    var cs := Parts(path);
    PlainDirs(dir);
    ReadFrom(dir, path);
    ReadFrom(["docs"] + dir, path);
    ReadFrom(MIRROR_DIR + dir, path);
    var names := Resolve(Normals(["docs"] + dir) + cs).value;
    ResolvesPlainly(["docs"] + dir, path);
    InDocs(names);
    if Resolve(Normals(dir) + cs).Some? {
      var below := Resolve(Normals(dir) + cs).value;
      ResolveAbove(["docs"], dir, cs);
      ResolveAbove(MIRROR_DIR, dir, cs);
      assert names[1..] == below;
    } else {
      ResolveOutside("docs", BOOK_DIR, "design", dir, cs);
      assert BOOK_DIR + ["design"] == MIRROR_DIR;
      ResolvesPlainly(MIRROR_DIR + dir, path);
      NotTheMirror(names);
    }
  }

  lemma PlainDirs(dir: seq<string>)
    requires PlainNames(dir)
    ensures PlainNames(["docs"] + dir) && PlainNames(MIRROR_DIR + dir)
  {
  }

  lemma InDocs(names: seq<string>)
    requires PlainNames(names) && "docs/" <= Join(names, '/')
    ensures names != [] && names[0] == "docs" && names[1..] != [] && names == ["docs"] + names[1..]
    ensures Join(names, '/') == "docs/" + Join(names[1..], '/')
    ensures MIRROR + "/" + Join(names, '/')[5..] == Join(MIRROR_DIR + names[1..], '/')
  {
    assert "docs" + "/" == "docs/";
    StartsIn("docs", names);
    MirrorIs();
    JoinConcat(["docs"], names[1..]);
    JoinConcat(MIRROR_DIR, names[1..]);
  }

  lemma NotTheMirror(names: seq<string>)
    requires PlainNames(names) && names != [] && names[0] == "docs" && names[1..] != []
    requires PlainNames(BOOK_DIR + names)
    ensures Join(BOOK_DIR + names, '/') != Join(MIRROR_DIR + names[1..], '/')
  {
    PlainDirs(names[1..]);
    NamesOf(BOOK_DIR + names);
    NamesOf(MIRROR_DIR + names[1..]);
    assert (BOOK_DIR + names)[2] == "docs" && (MIRROR_DIR + names[1..])[2] == "design";
    assert "docs" != "design" by { assert |"docs"| != |"design"|; }
  }

  // ----- a link given a new target -----

  /** What a path out of a directory resolves to is all its own, once the directory's first name is gone. */
  lemma {:induction false} LeavesNothing(first: string, dir: Clean, cs: seq<Component>)
    requires Resolve(Normals([first] + dir) + cs).Some?
    ensures var names := Resolve(Normals([first] + dir) + cs).value;
            (names != [] && names[0] == first) || forall name :: name in names ==> Normal(name) in cs
    decreases |cs|
  {
    hide Resolve;
    if cs == [] {
      assert Normals([first] + dir) + cs == Normals([first] + dir);
      ConfineIsIdempotent([first] + dir);
    } else {
      var front, c := cs[..|cs| - 1], cs[|cs| - 1];
      assert front + [c] == cs;
      ResolveThen([first] + dir, front, c);
      LeavesNothing(first, dir, front);
      assert c in cs && forall d :: d in front ==> d in cs;
    }
  }

  lemma {:induction false} SplitKeepsOut(s: string, out: char)
    requires out !in s
    ensures forall part :: part in Split(s, '/') ==> out !in part
  {
    if s != [] {
      SplitKeepsOut(s[1..], out);
    }
  }

  lemma {:induction false} JoinKeepsOut(parts: seq<string>, out: char)
    requires out != '/' && forall part :: part in parts ==> out !in part
    ensures out !in Join(parts, '/')
  {
    if |parts| > 1 {
      JoinKeepsOut(parts[1..], out);
    }
  }

  lemma PartsKeepOut(path: string, out: char)
    requires out !in path
    ensures forall c :: c in Parts(path) && c.Normal? ==> out !in c.name
  {
    SplitKeepsOut(path, out);
    var parts := Split(path, '/');
    forall i | 0 <= i < |parts| ensures Parts(path)[i].Normal? ==> out !in Parts(path)[i].name {
      assert parts[i] in parts;
    }
  }

  lemma RelativeKeepsOut(at: seq<string>, to: seq<string>, out: char)
    requires PlainNames(at) && PlainNames(to) && out != '/' && out != '.'
    requires forall name :: name in to ==> out !in name
    ensures out !in Relative(Join(at, '/'), Join(to, '/'))
  {
    RelativeIs(at, to);
    var rest := to[Shared(at, to)..];
    assert forall name :: name in rest ==> name in to;
    JoinKeepsOut(RelativeNames(at, to), out);
  }

  lemma CutBack(path: string, anchor: string)
    requires '#' !in path
    ensures Cut(path + if anchor == "" then "" else "#" + anchor) == (path, anchor)
  {
    if anchor == "" {
      assert path + "" == path;
      SplitOnceNone(path, '#');
    } else {
      SplitOnceAt(path, '#', anchor);
      assert path + ("#" + anchor) == path + "#" + anchor;
    }
  }

  lemma CutHasNone(target: string)
    ensures '#' !in Cut(target).0
  {
    SplitOnceNone(target, '#');
  }

  /** A link to a page of the book, given its new target, leads from the mirrored page to the page and the
      anchor it led to from the document. */
  lemma BookLinkLeadsThere(dir: seq<string>, target: string, resolved: string)
    requires PlainNames(dir)
    requires Normalise(Join(["docs"] + dir, '/') + "/" + Cut(target).0) == Some(resolved)
    requires "book/src/" <= resolved
    ensures var at := Join(MIRROR_DIR + dir, '/');
            var suffix := if Cut(target).1 == "" then "" else "#" + Cut(target).1;
            Where(at, Relative(at, resolved) + suffix) == Some((resolved, Cut(target).1))
  {
    hide Resolve, Parts, PlainName, Relative, Cut, Join;
    var path := Cut(target).0;
    PlainDirs(dir);
    ReadFrom(["docs"] + dir, path);
    ResolvesPlainly(["docs"] + dir, path);
    var names := Resolve(Normals(["docs"] + dir) + Parts(path)).value;
    InBook(names);
    LeavesNothing("docs", dir, Parts(path));
    CutHasNone(target);
    PartsKeepOut(path, '#');
    RelativeKeepsOut(MIRROR_DIR + dir, names, '#');
    RelativeLeadsThere(MIRROR_DIR + dir, names);
    CutBack(Relative(Join(MIRROR_DIR + dir, '/'), resolved), Cut(target).1);
  }

  lemma InBook(names: seq<string>)
    requires PlainNames(names) && "book/src/" <= Join(names, '/')
    ensures names != [] && names[0] != "docs"
  {
    assert "book" + "/" <= "book/src/";
    assert PlainName("book");
    StartsIn("book", names);
    assert "book" != "docs" by { assert "book"[0] != "docs"[0]; }
  }

  lemma DirsOf(dir: seq<string>, file: string)
    requires PlainNames(dir) && PlainName(file) && !(dir != [] && dir[0] == "docs")
    ensures Parent(DocumentAt(dir, file)) == Join(["docs"] + dir, '/')
    ensures Parent(PageOf(DocumentAt(dir, file))) == Join(MIRROR_DIR + dir, '/')
  {
    PageIsItsMirror(dir, file);
    ParentOf(["docs"] + dir, file);
    ParentOf(MIRROR_DIR + dir, file);
  }

  /** What rewriting a link does to where it leads. From the page, a link to the book leads where it led
      from the document; a link left alone leads to the mirror of where it led exactly when it never climbs
      above `docs/`; and any other names, at the ref published, the path it resolved to. */
  lemma RetargetKeepsMeaning(
      dir: seq<string>, file: string, target: string, gitRef: string, dirs: set<string>, resolved: string)
    requires PlainNames(dir) && PlainName(file) && !(dir != [] && dir[0] == "docs") && !External(target)
    requires var from := Parent(DocumentAt(dir, file)); Where(from, target) == Some((resolved, Cut(target).1))
    requires '#' !in gitRef
    ensures var from, at := Parent(DocumentAt(dir, file)), Parent(PageOf(DocumentAt(dir, file)));
            match NewTarget(target, from, at, gitRef, dirs)
            case None =>
              && "docs/" <= resolved
              && (Where(at, target) == Some((MIRROR + "/" + resolved[5..], Cut(target).1))
                  <==> Normalise(Join(dir, '/') + "/" + Cut(target).0).Some?)
            case Some(moved) =>
              if "book/src/" <= resolved then Where(at, moved) == Where(from, target)
              else
                var kind := if resolved in dirs then "tree" else "blob";
                Cut(moved) == (REPOSITORY + "/" + kind + "/" + gitRef + "/" + resolved, Cut(target).1)
  {
    hide Resolve, Parts, PlainName, Relative, Cut, Join, Parent, Contains, PageOf, DocumentAt, Normalise;
    DirsOf(dir, file);
    if "docs/" <= resolved {
      DesignLinkStands(dir, Cut(target).0, resolved);
    } else if "book/src/" <= resolved {
      BookLinkLeadsThere(dir, target, resolved);
    } else {
      OutsideDocs(dir, target, resolved);
      CodeLinkIs(resolved, Cut(target).1, gitRef, if resolved in dirs then "tree" else "blob");
    }
  }

  lemma OutsideDocs(dir: seq<string>, target: string, resolved: string)
    requires PlainNames(dir)
    requires Normalise(Join(["docs"] + dir, '/') + "/" + Cut(target).0) == Some(resolved)
    requires !("docs/" <= resolved)
    ensures '#' !in resolved
  {
    hide Resolve, Parts, PlainName, Cut, Join;
    var path := Cut(target).0;
    PlainDirs(dir);
    ReadFrom(["docs"] + dir, path);
    ResolvesPlainly(["docs"] + dir, path);
    var names := Resolve(Normals(["docs"] + dir) + Parts(path)).value;
    NotInDocs(names);
    LeavesNothing("docs", dir, Parts(path));
    CutHasNone(target);
    PartsKeepOut(path, '#');
    assert '#' !in "docs";
    JoinKeepsOut(names, '#');
  }

  lemma NotInDocs(names: seq<string>)
    requires PlainNames(names) && !("docs/" <= Join(names, '/'))
    ensures names != [] && names[0] == "docs" ==> names == ["docs"]
  {
    assert "docs" + "/" == "docs/" && PlainName("docs");
    StartsIn("docs", names);
  }

  lemma CodeLinkIs(resolved: string, anchor: string, gitRef: string, kind: string)
    requires '#' !in resolved && '#' !in gitRef && '#' !in kind
    ensures var url := REPOSITORY + "/" + kind + "/" + gitRef + "/" + resolved;
            Cut(url + (if anchor == "" then "" else "#" + anchor)) == (url, anchor)
  {
    hide Cut;
    assert '#' !in REPOSITORY;
    CutBack(REPOSITORY + "/" + kind + "/" + gitRef + "/" + resolved, anchor);
  }

  // ----- a whole document -----

  /** What rewriting `document` makes of each link's target. */
  function Retargeter(document: string, gitRef: string, dirs: set<string>): Change {
    target => NewTarget(target, Parent(document), Parent(PageOf(document)), gitRef, dirs)
  }

  /** `Rewrite` with `document`'s own retargeter. `dirs` are the paths that are directories. */
  method RewriteDocument(document: string, text: string, gitRef: string, dirs: set<string>) returns (page: string)
    ensures page == Concat(RewrittenLines(InclusiveLines(text), Retargeter(document, gitRef, dirs)))
  {
    page := Rewrite(text, Retargeter(document, gitRef, dirs));
  }

  /** What ends a target: a parenthesis, or white space. */
  predicate Ends(c: char) {
    c == '(' || c == ')' || IsWhitespace(c)
  }

  predicate Unbroken(text: string) {
    forall c :: c in text ==> !Ends(c)
  }

  lemma {:induction false} UnbrokenBalances(text: string, depth: nat)
    requires Unbroken(text)
    ensures Walk(text, depth) == Some(depth)
    decreases |text|
  {
    if text != [] {
      assert text[0] in text;
      UnbrokenBalances(text[1..], depth);
    }
  }

  lemma CutKeepsOut(target: string, out: char)
    requires out !in target
    ensures out !in Cut(target).0 && out !in Cut(target).1
  {
    SplitOnceNone(target, '#');
  }

  /** What a link resolves to holds nothing that was not in the document's directory or the link itself. */
  lemma ResolvedKeepsOut(dir: seq<string>, path: string, out: char)
    requires PlainNames(dir) && Ends(out) && out !in path && (forall name :: name in dir ==> out !in name)
    ensures var r := Resolve(Normals(["docs"] + dir) + Parts(path));
            r.Some? ==> out !in Join(r.value, '/') && forall name :: name in r.value ==> out !in name
  {
    PartsKeepOut(path, out);
    assert out !in "docs";
    if Resolve(Normals(["docs"] + dir) + Parts(path)).Some? {
      ResolvedNames(["docs"] + dir, Parts(path));
      JoinKeepsOut(Resolve(Normals(["docs"] + dir) + Parts(path)).value, out);
    }
  }

  lemma NewTargetKeepsOut(dir: seq<string>, target: string, gitRef: string, dirs: set<string>, out: char)
    requires PlainNames(dir) && Ends(out) && out !in target && out !in gitRef
    requires forall name :: name in dir ==> out !in name
    ensures var moved := NewTarget(target, Join(["docs"] + dir, '/'), Join(MIRROR_DIR + dir, '/'), gitRef, dirs);
            moved.Some? ==> out !in moved.value
  {
    hide Resolve, Parts, PlainName, Relative, Cut, Join, Contains;
    var path := Cut(target).0;
    CutKeepsOut(target, out);
    PlainDirs(dir);
    ReadFrom(["docs"] + dir, path);
    ResolvedKeepsOut(dir, path, out);
    if Resolve(Normals(["docs"] + dir) + Parts(path)).Some? {
      var names := Resolve(Normals(["docs"] + dir) + Parts(path)).value;
      ResolvesPlainly(["docs"] + dir, path);
      RelativeKeepsOut(MIRROR_DIR + dir, names, out);
      MovedKeepsOut(Join(MIRROR_DIR + dir, '/'), Join(names, '/'), Cut(target).1, gitRef, dirs, out);
    }
  }

  lemma MovedKeepsOut(at: string, resolved: string, anchor: string, gitRef: string, dirs: set<string>, out: char)
    requires Ends(out) && out !in resolved && out !in Relative(at, resolved) && out !in anchor && out !in gitRef
    ensures var suffix := if anchor == "" then "" else "#" + anchor;
            && out !in Relative(at, resolved) + suffix
            && out !in REPOSITORY + "/" + (if resolved in dirs then "tree" else "blob") + "/" + gitRef + "/"
                       + resolved + suffix
  {
    hide *;
    RepositoryKeepsOut(out);
    var kind := if resolved in dirs then "tree" else "blob";
    AllKeepOut(REPOSITORY, kind, gitRef, resolved, if anchor == "" then "" else "#" + anchor, out);
  }

  lemma RepositoryKeepsOut(out: char)
    requires Ends(out)
    ensures out !in REPOSITORY && out !in "tree" && out !in "blob" && out != '/' && out != '#'
  {
    assert out < '#' || '(' <= out < '-' || out > 'z';
    hide Ends;
    assert forall c :: c in REPOSITORY ==> '-' <= c <= 'z';
  }

  lemma AllKeepOut(repository: string, kind: string, gitRef: string, resolved: string, suffix: string, out: char)
    requires out !in repository && out !in kind && out !in gitRef && out !in resolved && out !in suffix && out != '/'
    ensures out !in repository + "/" + kind + "/" + gitRef + "/" + resolved + suffix
  {
  }

  lemma {:induction false} TargetsAreUnbroken(line: string)
    ensures forall piece :: piece in Parse(line) && piece.Link? ==> forall c :: c in piece.target ==> !IsWhitespace(c)
    decreases |line|
  {
    if line != [] {
      if IsLink(line) {
        TargetsAreUnbroken(After(line));
        ParseLink(line);
      } else {
        TargetsAreUnbroken(line[1..]);
        ParsePlain(line);
      }
    }
  }

  /** A line of a document whose link targets hold no parentheses reads back, on its page, as the same line
      with each of those targets, and nothing else, where rewriting moved it. */
  lemma PageLinksReadBack(dir: seq<string>, file: string, line: string, gitRef: string, dirs: set<string>)
    requires PlainNames(dir) && PlainName(file) && !(dir != [] && dir[0] == "docs")
    requires Unbroken(gitRef) && forall name :: name in dir ==> Unbroken(name)
    requires forall piece :: piece in Parse(line) && piece.Link? ==> '(' !in piece.target && ')' !in piece.target
    ensures var change := Retargeter(DocumentAt(dir, file), gitRef, dirs);
            Parse(Render(Parse(line), change)) == RetargetedAll(Parse(line), change)
  {
    var change := Retargeter(DocumentAt(dir, file), gitRef, dirs);
    TargetsAreUnbroken(line);
    forall piece | piece in Parse(line) ensures FitsLink(piece, change) {
      if piece.Link? {
        LinkFits(dir, file, piece, gitRef, dirs);
      }
    }
    RewrittenReadsBack(line, change);
  }

  lemma LinkFits(dir: seq<string>, file: string, link: Piece, gitRef: string, dirs: set<string>)
    requires PlainNames(dir) && PlainName(file) && !(dir != [] && dir[0] == "docs") && link.Link?
    requires Unbroken(gitRef) && (forall name :: name in dir ==> Unbroken(name)) && Unbroken(link.target)
    ensures FitsLink(link, Retargeter(DocumentAt(dir, file), gitRef, dirs))
  {
    hide Resolve, Parts, PlainName, Relative, Cut, Join, Contains, NewTarget, PageOf, DocumentAt, Parent;
    DirsOf(dir, file);
    UnbrokenBalances(link.target, 0);
    var moved := NewTarget(link.target, Join(["docs"] + dir, '/'), Join(MIRROR_DIR + dir, '/'), gitRef, dirs);
    if moved.Some? {
      forall c | Ends(c) ensures c !in moved.value {
        NewTargetKeepsOut(dir, link.target, gitRef, dirs, c);
      }
      UnbrokenBalances(moved.value, 0);
    }
  }
}
