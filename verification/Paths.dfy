// Relative links between lexically absolute paths.
module Paths {
  import opened Events

  datatype Component = CurDir | ParentDir | Normal(name: string)

  /** An absolute path: its root, and the components after it. */
  datatype Path = Path(root: string, components: seq<Component>)

  /** One component taken into the parts read so far. */
  function Take(parts: seq<string>, c: Component): seq<string> {
    match c
    case CurDir => parts
    case ParentDir => if parts == [] then [] else parts[..|parts| - 1]
    case Normal(name) => parts + [name]
  }

  function TakeAll(parts: seq<string>, cs: seq<Component>): seq<string>
    decreases |cs|
  {
    if cs == [] then parts else TakeAll(Take(parts, cs[0]), cs[1..])
  }

  /** A path's normal parts, `.` dropped and `..` popped. */
  function Parts(path: Path): seq<string> {
    TakeAll([], path.components)
  }

  method Split(path: Path) returns (root: string, parts: seq<string>)
    ensures root == path.root && parts == Parts(path)
  {
    root, parts := path.root, [];
    for i := 0 to |path.components|
      invariant TakeAll(parts, path.components[i..]) == Parts(path)
    {
      assert path.components[i..][1..] == path.components[i + 1..];
      match path.components[i] {
        case CurDir =>
        case ParentDir =>
          if parts != [] {
            parts := parts[..|parts| - 1];
          }
        case Normal(name) =>
          parts := parts + [name];
      }
    }
  }

  /** How many leading parts two paths share. */
  function Shared(a: seq<string>, b: seq<string>): (n: nat)
    ensures n <= |a| && n <= |b| && a[..n] == b[..n]
    ensures n == |a| || n == |b| || a[n] != b[n]
  {
    if a == [] || b == [] || a[0] != b[0] then 0
    else
      var n := 1 + Shared(a[1..], b[1..]);
      assert a[..n] == [a[0]] + a[1..][..n - 1] && b[..n] == [b[0]] + b[1..][..n - 1];
      n
  }

  function Ups(n: nat): (u: seq<string>)
    ensures |u| == n
  {
    if n == 0 then [] else Ups(n - 1) + [".."]
  }

  /** From one directory's parts to another's, never empty. */
  function Relative(from: seq<string>, to: seq<string>): seq<string> {
    var n := Shared(from, to);
    var steps := Ups(|from| - n) + to[n..];
    if steps == [] then ["."] else steps
  }

  method CountShared(a: seq<string>, b: seq<string>) returns (shared: nat)
    ensures shared == Shared(a, b)
  {
    shared := 0;
    while shared < |a| && shared < |b| && a[shared] == b[shared]
      invariant shared <= |a| && shared <= |b|
      invariant shared + Shared(a[shared..], b[shared..]) == Shared(a, b)
    {
      assert a[shared..][1..] == a[shared + 1..] && b[shared..][1..] == b[shared + 1..];
      shared := shared + 1;
    }
  }

  /** One `..` for each part from `shared` on. */
  method ClimbFrom(shared: nat, length: nat) returns (up: seq<string>)
    requires shared <= length
    ensures up == Ups(length - shared)
  {
    up := [];
    for i := shared to length
      invariant up == Ups(i - shared)
    {
      up := up + [".."];
    }
  }

  method PushAll(start: seq<string>, parts: seq<string>) returns (out: seq<string>)
    ensures out == start + parts
  {
    out := start;
    for i := 0 to |parts|
      invariant out == start + parts[..i]
    {
      assert start + parts[..i] + [parts[i]] == start + parts[..i + 1];
      out := out + [parts[i]];
    }
    assert parts[..|parts|] == parts;
  }

  method RelativeFrom(from: Path, to: Path) returns (relative: Option<seq<string>>)
    ensures from.root != to.root ==> relative.None?
    ensures from.root == to.root ==> relative == Some(Relative(Parts(from), Parts(to)))
  {
    var fromRoot, fromParts := Split(from);
    var toRoot, toParts := Split(to);
    if fromRoot != toRoot {
      return None;
    }
    var shared := CountShared(fromParts, toParts);
    var up := ClimbFrom(shared, |fromParts|);
    var down := toParts[shared..];
    var out := PushAll(up, down);
    if out == [] {
      out := ["."];
    }
    relative := Some(out);
  }

  // ----- following a relative link

  /** A link's component as a browser reads it. */
  function Read(s: string): Component {
    if s == ".." then ParentDir else if s == "." then CurDir else Normal(s)
  }

  function ReadAll(link: seq<string>): (cs: seq<Component>)
    ensures |cs| == |link| && forall i :: 0 <= i < |link| ==> cs[i] == Read(link[i])
  {
    seq(|link|, i requires 0 <= i < |link| => Read(link[i]))
  }

  predicate NormalName(s: string) {
    s != "" && s != "." && s != ".."
  }

  /** Every normal component is one: path parsing yields no other. */
  ghost predicate WellFormed(path: Path) {
    forall i :: 0 <= i < |path.components| && path.components[i].Normal? ==> NormalName(path.components[i].name)
  }

  ghost predicate NormalParts(parts: seq<string>) {
    forall i :: 0 <= i < |parts| ==> NormalName(parts[i])
  }

  lemma {:induction false} PartsNormal(parts: seq<string>, cs: seq<Component>)
    requires NormalParts(parts)
    requires forall i :: 0 <= i < |cs| && cs[i].Normal? ==> NormalName(cs[i].name)
    ensures NormalParts(TakeAll(parts, cs))
    decreases |cs|
  {
    if cs != [] {
      PartsNormal(Take(parts, cs[0]), cs[1..]);
    }
  }

  lemma {:induction false} TakeConcat(parts: seq<string>, a: seq<Component>, b: seq<Component>)
    ensures TakeAll(parts, a + b) == TakeAll(TakeAll(parts, a), b)
    decreases |a|
  {
    if a == [] {
      assert a + b == b;
    } else {
      assert (a + b)[1..] == a[1..] + b;
      TakeConcat(Take(parts, a[0]), a[1..], b);
    }
  }

  lemma {:induction false} UpsGoUp(parts: seq<string>, n: nat)
    requires n <= |parts|
    ensures TakeAll(parts, ReadAll(Ups(n))) == parts[..|parts| - n]
  {
    if n == 0 {
      assert parts[..|parts|] == parts;
    } else {
      UpsGoUp(parts, n - 1);
      assert ReadAll(Ups(n)) == ReadAll(Ups(n - 1)) + [ParentDir];
      TakeConcat(parts, ReadAll(Ups(n - 1)), [ParentDir]);
      TakeOne(parts[..|parts| - (n - 1)], ParentDir);
    }
  }

  lemma TakeOne(parts: seq<string>, c: Component)
    ensures TakeAll(parts, [c]) == Take(parts, c)
  {
    assert [c][1..] == [];
  }

  lemma {:induction false} NamesGoDown(parts: seq<string>, names: seq<string>)
    requires NormalParts(names)
    ensures TakeAll(parts, ReadAll(names)) == parts + names
    decreases |names|
  {
    if names == [] {
      assert parts + names == parts;
    } else {
      assert ReadAll(names)[1..] == ReadAll(names[1..]);
      NamesGoDown(parts + [names[0]], names[1..]);
      assert parts + names == parts + [names[0]] + names[1..];
    }
  }

  /** Up past everything not shared, then down. */
  lemma UpAndDown(f: seq<string>, n: nat, up: seq<string>, down: seq<string>)
    requires n <= |f| && up == Ups(|f| - n) && NormalParts(down)
    ensures TakeAll(f, ReadAll(up + down)) == f[..n] + down
  {
    UpsGoUp(f, |f| - n);
    NamesGoDown(f[..n], down);
    assert ReadAll(up + down) == ReadAll(up) + ReadAll(down);
    TakeConcat(f, ReadAll(up), ReadAll(down));
  }

  lemma LinkReaches(f: seq<string>, t: seq<string>)
    requires NormalParts(t)
    ensures TakeAll(f, ReadAll(Relative(f, t))) == t
  {
    var n := Shared(f, t);
    assert t[..n] + t[n..] == t;
    UpAndDown(f, n, Ups(|f| - n), t[n..]);
    if Ups(|f| - n) + t[n..] == [] {
      assert ReadAll([]) == [] && ReadAll(["."]) == [CurDir];
      TakeOne(f, CurDir);
    }
  }

  /** Following the relative link from `from` arrives at `to`. */
  lemma LinkArrives(from: Path, to: Path)
    requires WellFormed(to) && from.root == to.root
    ensures Relative(Parts(from), Parts(to)) != []
    ensures Parts(Path(from.root, from.components + ReadAll(Relative(Parts(from), Parts(to))))) == Parts(to)
  {
    PartsNormal([], to.components);
    TakeConcat([], from.components, ReadAll(Relative(Parts(from), Parts(to))));
    LinkReaches(Parts(from), Parts(to));
  }

  // ----- what a path's parts are, in four laws

  lemma DotIgnored(root: string, a: seq<Component>, b: seq<Component>)
    ensures Parts(Path(root, a + [CurDir] + b)) == Parts(Path(root, a + b))
  {
    TakeOne(TakeAll([], a), CurDir);
    TakeMiddle(a, [CurDir], b);
  }

  /** Components between that leave the parts as they are can go. */
  lemma TakeMiddle(a: seq<Component>, middle: seq<Component>, b: seq<Component>)
    requires TakeAll(TakeAll([], a), middle) == TakeAll([], a)
    ensures TakeAll([], a + middle + b) == TakeAll([], a + b)
  {
    TakeConcat([], a + middle, b);
    TakeConcat([], a, middle);
    TakeConcat([], a, b);
  }

  lemma UpAgain(parts: seq<string>, name: string)
    ensures TakeAll(parts, [Normal(name), ParentDir]) == parts
  {
    TakeConcat(parts, [Normal(name)], [ParentDir]);
    TakeOne(parts, Normal(name));
    TakeOne(parts + [name], ParentDir);
    assert [Normal(name), ParentDir] == [Normal(name)] + [ParentDir];
    assert (parts + [name])[..|parts|] == parts;
  }

  /** A name and the step up behind it cancel. */
  lemma NameThenUp(root: string, a: seq<Component>, name: string, b: seq<Component>)
    ensures Parts(Path(root, a + [Normal(name), ParentDir] + b)) == Parts(Path(root, a + b))
  {
    UpAgain(TakeAll([], a), name);
    TakeMiddle(a, [Normal(name), ParentDir], b);
  }

  /** There is nothing above the root. */
  lemma RootHasNoParent(root: string, b: seq<Component>)
    ensures Parts(Path(root, [ParentDir] + b)) == Parts(Path(root, b))
  {
    TakeConcat([], [ParentDir], b);
    TakeOne([], ParentDir);
  }

  /** Names alone are the parts. */
  lemma NamesAreParts(root: string, names: seq<string>)
    requires NormalParts(names)
    ensures Parts(Path(root, ReadAll(names))) == names
  {
    NamesGoDown([], names);
    assert [] + names == names;
  }

  // ----- no shorter link arrives

  /** How far apart two directories are: up to the last shared part, then down. */
  function Distance(f: seq<string>, t: seq<string>): nat {
    |f| - Shared(f, t) + |t| - Shared(f, t)
  }

  lemma SharedWithin(f: seq<string>, t: seq<string>, n: nat)
    requires n <= |f| && n <= |t| && f[..n] == t[..n]
    ensures n <= Shared(f, t)
  {
    forall i | 0 <= i < n ensures f[i] == t[i] {
      assert f[..n][i] == t[..n][i];
    }
  }

  /** One more part adds at most one to what is shared. */
  lemma SharedMore(f: seq<string>, x: string, t: seq<string>)
    ensures Shared(f, t) <= Shared(f + [x], t) <= Shared(f, t) + 1
  {
    var n, m := Shared(f, t), Shared(f + [x], t);
    assert (f + [x])[..n] == f[..n];
    SharedWithin(f + [x], t, n);
    if m <= |f| {
      assert (f + [x])[..m] == f[..m];
      SharedWithin(f, t, m);
    } else {
      assert (f + [x])[..m][..|f|] == f && t[..m][..|f|] == t[..|f|];
      SharedWithin(f, t, |f|);
    }
  }

  lemma OneStepNearer(f: seq<string>, c: Component, t: seq<string>)
    ensures Distance(f, t) <= Distance(Take(f, c), t) + 1
  {
    match c
    case CurDir =>
    case ParentDir =>
      if f != [] {
        var n := |f| - 1;
        assert f[..n] + [f[n]] == f;
        SharedMore(f[..n], f[n], t);
      }
    case Normal(name) => SharedMore(f, name, t);
  }

  lemma {:induction false} AtLeastDistance(f: seq<string>, cs: seq<Component>, t: seq<string>)
    requires TakeAll(f, cs) == t
    ensures Distance(f, t) <= |cs|
    decreases |cs|
  {
    if cs == [] {
      assert f[..|f|] == t[..|t|];
      SharedWithin(f, t, |f|);
    } else {
      OneStepNearer(f, cs[0], t);
      AtLeastDistance(Take(f, cs[0]), cs[1..], t);
    }
  }

  /** Any non-empty link that arrives has at least as many components. */
  lemma ShortestLink(from: Path, to: Path, link: seq<string>)
    requires link != [] && Parts(Path(from.root, from.components + ReadAll(link))) == Parts(to)
    ensures |Relative(Parts(from), Parts(to))| <= |link|
  {
    TakeConcat([], from.components, ReadAll(link));
    AtLeastDistance(Parts(from), ReadAll(link), Parts(to));
  }
}
