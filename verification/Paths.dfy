/** Lexical confinement of a path to the directory it is relative to. */
module Paths {
  import opened Prelude
  import opened Text

  /** One component of a path, as it is written. */
  datatype Component = Normal(name: string) | CurDir | ParentDir | RootDir | Prefix(text: string)

  /** A path with nothing left to resolve: the names from the root down. */
  type Clean = seq<string>

  predicate Absolute(c: Component) {
    c.RootDir? || c.Prefix?
  }

  /** The components of a `/`-separated path: empty parts and every `.` but a leading one are dropped. */
  function Components(path: string): seq<Component> {
    var parts := Split(path, '/');
    (if path != [] && path[0] == '/' then [RootDir] else if parts[0] == "." then [CurDir] else [])
    + Named(parts)
  }

  function Named(parts: seq<string>): seq<Component> {
    if parts == [] then []
    else (if parts[0] == "" || parts[0] == "." then []
          else if parts[0] == ".." then [ParentDir] else [Normal(parts[0])]) + Named(parts[1..])
  }

  function Normals(names: Clean): seq<Component> {
    seq(|names|, i requires 0 <= i < |names| => Normal(names[i]))
  }

  /** `target` below the directory of `including`, unless it is absolute. */
  function ResolveRelative(including: Clean, target: seq<Component>): seq<Component> {
    if |including| <= 1 || (target != [] && Absolute(target[0])) then target
    else Normals(including[..|including| - 1]) + target
  }

  /** What one component makes of the stack of names before it, unless it escapes. */
  function Follow(stack: Clean, c: Component): Option<Clean> {
    match c
    case Normal(name) => Some(stack + [name])
    case CurDir => Some(stack)
    case ParentDir => if stack == [] then None else Some(stack[..|stack| - 1])
    case RootDir => None
    case Prefix(_) => None
  }

  /** The stack of names left after `cs`, or nothing when it escapes. */
  function Resolve(cs: seq<Component>): Option<Clean> {
    if cs == [] then Some([])
    else match Resolve(cs[..|cs| - 1])
      case None => None
      case Some(stack) => Follow(stack, cs[|cs| - 1])
  }

  lemma ResolveSnoc(cs: seq<Component>, c: Component)
    ensures Resolve(cs + [c]) == match Resolve(cs) case None => None case Some(stack) => Follow(stack, c)
  {
    assert (cs + [c])[..|cs|] == cs;
  }

  /** `Resolve`, but nothing for the root itself. */
  function Confine(cs: seq<Component>): Option<Clean> {
    match Resolve(cs)
    case None => None
    case Some(stack) => if stack == [] then None else Some(stack)
  }

  lemma {:induction false} ResolvePrefixFails(cs: seq<Component>, k: nat)
    requires k <= |cs| && Resolve(cs[..k]).None?
    ensures Resolve(cs).None?
    decreases |cs| - k
  {
    if k < |cs| {
      assert cs[..k + 1][..k] == cs[..k];
      ResolvePrefixFails(cs, k + 1);
    } else {
      assert cs[..k] == cs;
    }
  }

  /** Walks the components, pushing and popping one path. */
  method ConfinePath(cs: seq<Component>) returns (confined: Option<Clean>)
    ensures confined == Confine(cs)
  {
    var clean: Clean := [];
    for i := 0 to |cs|
      invariant Resolve(cs[..i]) == Some(clean)
    {
      assert cs[..i + 1][..i] == cs[..i];
      match cs[i] {
        case Normal(name) => clean := clean + [name];
        case CurDir =>
        case ParentDir =>
          if clean == [] {
            ResolvePrefixFails(cs, i + 1);
            return None;
          }
          clean := clean[..|clean| - 1];
        case RootDir =>
          ResolvePrefixFails(cs, i + 1);
          return None;
        case Prefix(_) =>
          ResolvePrefixFails(cs, i + 1);
          return None;
      }
    }
    assert cs[..|cs|] == cs;
    if clean == [] {
      return None;
    }
    return Some(clean);
  }

  // ----- what confining is -----

  /** How far below the root the first `k` components lead. */
  function Height(cs: seq<Component>, k: nat): int
    requires k <= |cs|
  {
    if k == 0 then 0
    else Height(cs, k - 1) + (match cs[k - 1] case Normal(_) => 1 case ParentDir => -1 case _ => 0)
  }

  predicate StaysInside(cs: seq<Component>) {
    && (forall c :: c in cs ==> !Absolute(c))
    && (forall k :: 0 <= k <= |cs| ==> Height(cs, k) >= 0)
  }

  /** Whether the name at `i` is still there at the end: nothing after it climbs back above it. */
  predicate Kept(cs: seq<Component>, i: nat)
    requires i < |cs|
  {
    cs[i].Normal? && forall k :: i < k <= |cs| ==> Height(cs, k) > Height(cs, i)
  }

  lemma {:induction false} HeightOfPrefix(cs: seq<Component>, n: nat, k: nat)
    requires k <= n <= |cs|
    ensures Height(cs[..n], k) == Height(cs, k)
    decreases k
  {
    if k > 0 {
      HeightOfPrefix(cs, n, k - 1);
    }
  }

  /** `at` lists, in order, the positions whose names are kept, one for each level of height. */
  ghost predicate Lists(cs: seq<Component>, at: seq<nat>, names: Clean) {
    && |at| == |names|
    && (forall j :: 0 <= j < |at| ==> at[j] < |cs| && cs[at[j]] == Normal(names[j]) && Height(cs, at[j]) == j)
    && (forall i, j :: 0 <= i < j < |at| ==> at[i] < at[j])
    && (forall i :: 0 <= i < |cs| ==> (i in at <==> Kept(cs, i)))
    && Height(cs, |cs|) == |at|
  }

  lemma {:induction false} KeptAfter(before: seq<Component>, c: Component, i: nat)
    requires i < |before|
    ensures Kept(before + [c], i)
            <==> Kept(before, i) && Height(before + [c], |before| + 1) > Height(before, i)
    ensures Height(before + [c], i) == Height(before, i)
  {
    var cs := before + [c];
    assert cs[..|before|] == before;
    forall k | 0 <= k <= |before| ensures Height(cs, k) == Height(before, k) {
      HeightOfPrefix(cs, |before|, k);
    }
  }

  lemma HeightSnoc(before: seq<Component>, c: Component)
    ensures Height(before + [c], |before| + 1)
            == Height(before, |before|) + match c case Normal(_) => 1 case ParentDir => -1 case _ => 0
    ensures Height(before + [c], |before|) == Height(before, |before|)
  {
    assert (before + [c])[..|before|] == before;
    HeightOfPrefix(before + [c], |before|, |before|);
  }

  /** Resolving keeps exactly the names nothing later climbs above, and fails exactly when some prefix
      climbs above the root or the path is not relative. */
  lemma {:induction false} ResolveKeeps(cs: seq<Component>) returns (at: seq<nat>)
    ensures Resolve(cs).Some? <==> StaysInside(cs)
    ensures Resolve(cs).Some? ==> Lists(cs, at, Resolve(cs).value)
    decreases |cs|
  {
    at := [];
    if cs != [] {
      var before, c := cs[..|cs| - 1], cs[|cs| - 1];
      assert cs == before + [c];
      at := ResolveKeeps(before);
      InsideSnoc(before, c);
      HeightSnoc(before, c);
      if Resolve(before).Some? && Resolve(cs).Some? {
        at := ListsSnoc(before, c, at, Resolve(before).value);
      }
    }
  }

  lemma InsideSnoc(before: seq<Component>, c: Component)
    ensures StaysInside(before + [c])
            <==> StaysInside(before) && !Absolute(c) && Height(before + [c], |before| + 1) >= 0
  {
    var cs := before + [c];
    assert cs[..|before|] == before;
    forall k | 0 <= k <= |before| ensures Height(cs, k) == Height(before, k) {
      HeightOfPrefix(cs, |before|, k);
    }
    assert cs[|before|] == c;
  }

  lemma HeightsOfSnoc(before: seq<Component>, c: Component)
    ensures forall i :: 0 <= i < |before| ==> Height(before + [c], i) == Height(before, i)
    ensures forall i :: 0 <= i < |before| ==>
      (Kept(before + [c], i) <==> Kept(before, i) && Height(before + [c], |before| + 1) > Height(before, i))
  {
    forall i | 0 <= i < |before|
      ensures Kept(before + [c], i) <==> Kept(before, i) && Height(before + [c], |before| + 1) > Height(before, i)
      ensures Height(before + [c], i) == Height(before, i)
    {
      KeptAfter(before, c, i);
    }
  }

  lemma ListsPushed(before: seq<Component>, name: string, at: seq<nat>, names: Clean)
    requires Lists(before, at, names)
    ensures Lists(before + [Normal(name)], at + [|before|], names + [name])
  {
    var cs := before + [Normal(name)];
    HeightSnoc(before, Normal(name));
    HeightsOfSnoc(before, Normal(name));
    forall i | 0 <= i < |cs| ensures i in at + [|before|] <==> Kept(cs, i) {
      if i < |before| && i in at {
        var j :| 0 <= j < |at| && at[j] == i;
        assert Height(before, i) == j;
      }
    }
  }

  lemma ListsPopped(before: seq<Component>, at: seq<nat>, names: Clean)
    requires Lists(before, at, names) && names != []
    ensures Lists(before + [ParentDir], at[..|at| - 1], names[..|names| - 1])
  {
    var cs := before + [ParentDir];
    HeightSnoc(before, ParentDir);
    HeightsOfSnoc(before, ParentDir);
    forall i | 0 <= i < |cs| ensures i in at[..|at| - 1] <==> Kept(cs, i) {
      if i < |before| && i in at {
        var j :| 0 <= j < |at| && at[j] == i;
        assert Height(before, i) == j;
        assert i in at[..|at| - 1] <==> j < |at| - 1;
      }
    }
  }

  lemma ListsStill(before: seq<Component>, at: seq<nat>, names: Clean)
    requires Lists(before, at, names)
    ensures Lists(before + [CurDir], at, names)
  {
    var cs := before + [CurDir];
    HeightSnoc(before, CurDir);
    HeightsOfSnoc(before, CurDir);
    forall i | 0 <= i < |cs| ensures i in at <==> Kept(cs, i) {
      if i < |before| && i in at {
        var j :| 0 <= j < |at| && at[j] == i;
        assert Height(before, i) == j;
      }
    }
  }

  lemma ListsSnoc(before: seq<Component>, c: Component, at: seq<nat>, names: Clean) returns (next: seq<nat>)
    requires Lists(before, at, names) && !Absolute(c) && (c.ParentDir? ==> names != [])
    ensures Lists(before + [c], next, match c
                                     case Normal(name) => names + [name]
                                     case ParentDir => names[..|names| - 1]
                                     case _ => names)
  {
    match c
    case Normal(name) =>
      next := at + [|before|];
      ListsPushed(before, name, at, names);
    case ParentDir =>
      next := at[..|at| - 1];
      ListsPopped(before, at, names);
    case CurDir =>
      next := at;
      ListsStill(before, at, names);
  }

  /** Confining is exactly lexical normalisation: it succeeds when no prefix climbs above the root and
      something remains, and what remains is every name nothing later climbs above, in order. */
  lemma ConfineIsNormalisation(cs: seq<Component>)
    ensures Confine(cs).Some? <==> StaysInside(cs) && Height(cs, |cs|) > 0
    ensures Confine(cs).Some? ==> exists at :: Lists(cs, at, Confine(cs).value)
  {
    var at := ResolveKeeps(cs);
  }

  /** A confined path is confined already, so however a file is spelled it has one canonical path. */
  lemma {:induction false} ConfineIsIdempotent(names: Clean)
    ensures Resolve(Normals(names)) == Some(names)
    ensures names != [] ==> Confine(Normals(names)) == Some(names)
    decreases |names|
  {
    if names != [] {
      var cs := Normals(names);
      assert cs[..|cs| - 1] == Normals(names[..|names| - 1]);
      ConfineIsIdempotent(names[..|names| - 1]);
      assert names[..|names| - 1] + [names[|names| - 1]] == names;
    }
  }

  // ----- paths as they are written -----

  function Ups(n: nat): seq<string> {
    seq(n, _ => "..")
  }

  predicate PlainName(name: string) {
    name != "" && name != "." && name != ".." && '/' !in name
  }

  predicate PlainNames(names: seq<string>) {
    forall name :: name in names ==> PlainName(name)
  }

  lemma {:induction false} ResolveAfter(a: seq<Component>, names: Clean, b: seq<Component>)
    requires Resolve(a) == Some(names)
    ensures Resolve(a + b) == Resolve(Normals(names) + b)
    decreases |b|
  {
    ConfineIsIdempotent(names);
    if b == [] {
      assert a + b == a && Normals(names) + b == Normals(names);
    } else {
      ResolveAfter(a, names, b[..|b| - 1]);
      assert (a + b)[..|a + b| - 1] == a + b[..|b| - 1];
      assert (Normals(names) + b)[..|Normals(names) + b| - 1] == Normals(names) + b[..|b| - 1];
    }
  }

  function Climb(k: nat): seq<Component> {
    seq(k, _ => ParentDir)
  }

  lemma {:induction false} ClimbUp(names: Clean, k: nat)
    requires k <= |names|
    ensures Resolve(Normals(names) + Climb(k)) == Some(names[..|names| - k])
    decreases k
  {
    var cs := Normals(names) + Climb(k);
    if k > 0 {
      assert cs[..|cs| - 1] == Normals(names) + Climb(k - 1);
      ClimbUp(names, k - 1);
      assert names[..|names| - (k - 1)][..|names| - k] == names[..|names| - k];
    } else {
      assert cs == Normals(names) && names[..|names|] == names;
      ConfineIsIdempotent(names);
    }
  }

  lemma ClimbThenName(names: Clean, k: nat, rest: Clean)
    requires k <= |names|
    ensures Resolve(Normals(names) + (Climb(k) + Normals(rest))) == Some(names[..|names| - k] + rest)
  {
    var base := names[..|names| - k];
    ClimbUp(names, k);
    ResolveAfter(Normals(names) + Climb(k), base, Normals(rest));
    assert Normals(names) + (Climb(k) + Normals(rest)) == Normals(names) + Climb(k) + Normals(rest);
    assert Normals(base) + Normals(rest) == Normals(base + rest);
    ConfineIsIdempotent(base + rest);
  }

  /** More steps up than there are names lead out. */
  lemma ClimbsOut(names: Clean, k: nat, rest: seq<Component>)
    requires k > |names|
    ensures Resolve(Normals(names) + (Climb(k) + rest)) == None
  {
    var n := |names|;
    var cs := Normals(names) + (Climb(k) + rest);
    ClimbUp(names, n);
    ResolveSnoc(Normals(names) + Climb(n), ParentDir);
    assert cs[..n + n + 1] == Normals(names) + Climb(n) + [ParentDir];
    ResolvePrefixFails(cs, n + n + 1);
  }

  lemma {:induction false} NamedConcat(a: seq<string>, b: seq<string>)
    ensures Named(a + b) == Named(a) + Named(b)
    decreases |a|
  {
    if a == [] {
      assert a + b == b;
    } else {
      assert (a + b)[1..] == a[1..] + b;
      NamedConcat(a[1..], b);
    }
  }

  lemma {:induction false} NamedClimb(k: nat, names: seq<string>)
    requires PlainNames(names)
    ensures Named(Ups(k) + names) == Climb(k) + Normals(names)
    decreases k + |names|
  {
    if k > 0 {
      assert (Ups(k) + names)[1..] == Ups(k - 1) + names && (Ups(k) + names)[0] == "..";
      NamedClimb(k - 1, names);
      assert Climb(k) == [ParentDir] + Climb(k - 1);
      assert [ParentDir] + (Climb(k - 1) + Normals(names)) == Climb(k) + Normals(names);
    } else {
      assert Ups(0) + names == names && Climb(0) + Normals(names) == Normals(names);
      NamedPlain(names);
    }
  }

  lemma {:induction false} NamedPlain(names: seq<string>)
    requires PlainNames(names)
    ensures Named(names) == Normals(names)
    decreases |names|
  {
    if names != [] {
      assert names[0] in names && forall name :: name in names[1..] ==> name in names;
      NamedPlain(names[1..]);
      assert Normals(names) == [Normal(names[0])] + Normals(names[1..]);
    }
  }

  lemma JoinStarts(parts: seq<string>)
    requires parts != [] && parts[0] != ""
    ensures Join(parts, '/') != [] && Join(parts, '/')[0] == parts[0][0]
  {
  }

  /** What is written as steps up and then names is read as that. */
  lemma ComponentsOfClimb(k: nat, names: seq<string>)
    requires PlainNames(names)
    ensures Components(Join(Ups(k) + names, '/')) == Climb(k) + Normals(names)
  {
    var parts := Ups(k) + names;
    if parts != [] {
      forall part | part in parts ensures part == ".." || PlainName(part) {
        assert part in names || part in Ups(k);
      }
      assert parts[0] in parts;
      SplitOfJoin(parts, '/');
      JoinStarts(parts);
      NamedClimb(k, names);
    }
  }

  lemma ComponentsOfParts(parts: seq<string>)
    requires parts != [] && parts[0] != "" && forall part :: part in parts ==> '/' !in part
    ensures Components(Join(parts, '/')) == (if parts[0] == "." then [CurDir] else []) + Named(parts)
  {
    hide Named;
    SplitOfJoin(parts, '/');
    JoinStarts(parts);
    assert parts[0] in parts;
  }

  lemma LeadsAsNamed(dir: Clean, parts: seq<string>)
    requires parts != [] && parts[0] != "" && forall part :: part in parts ==> '/' !in part
    ensures Resolve(Normals(dir) + Components(Join(parts, '/'))) == Resolve(Normals(dir) + Named(parts))
  {
    hide Named, Resolve, Components, Join;
    ComponentsOfParts(parts);
    StartsHere(dir, Named(parts));
    assert [] + Named(parts) == Named(parts);
  }

  /** A `.` or an empty part, anywhere but an empty one first, leads nowhere. */
  lemma DotsLeadNowhere(dir: Clean, a: seq<string>, dot: string, b: seq<string>)
    requires dot == "." || (dot == "" && a != [])
    requires a + b != [] && (a + b)[0] != "" && forall part :: part in a + b ==> '/' !in part
    ensures Resolve(Normals(dir) + Components(Join(a + [dot] + b, '/')))
            == Resolve(Normals(dir) + Components(Join(a + b, '/')))
  {
    hide Resolve, Components, Join, Named;
    NamedDotted(a, dot, b);
    LeadsAsNamed(dir, a + [dot] + b);
    LeadsAsNamed(dir, a + b);
  }

  lemma NamedDotted(a: seq<string>, dot: string, b: seq<string>)
    requires dot == "." || (dot == "" && a != [])
    requires a + b != [] && (a + b)[0] != "" && forall part :: part in a + b ==> '/' !in part
    ensures Named(a + [dot] + b) == Named(a + b)
    ensures (a + [dot] + b)[0] != "" && forall part :: part in a + [dot] + b ==> '/' !in part
  {
    NamedConcat(a, [dot] + b);
    NamedConcat([dot], b);
    NamedConcat(a, b);
    assert a + ([dot] + b) == a + [dot] + b;
    DotIsNothing(dot);
    hide Named;
    assert forall part :: part in a + [dot] + b ==> part == dot || part in a + b;
    assert a != [] ==> (a + [dot] + b)[0] == a[0] == (a + b)[0];
  }

  lemma DotIsNothing(dot: string)
    requires dot == "." || dot == ""
    ensures Named([dot]) == []
  {
    assert [dot][1..] == [];
  }

  lemma StartsHere(dir: Clean, rest: seq<Component>)
    ensures Resolve(Normals(dir) + ([CurDir] + rest)) == Resolve(Normals(dir) + rest)
  {
    ConfineIsIdempotent(dir);
    ResolveSnoc(Normals(dir), CurDir);
    ResolveAfter(Normals(dir) + [CurDir], dir, rest);
    assert Normals(dir) + ([CurDir] + rest) == Normals(dir) + [CurDir] + rest;
  }
}
