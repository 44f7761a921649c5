// What an asset reference may say, and when staging gets through.
module AssetLaws {
  import opened Events
  import opened Assets

  // ----- plain relative references, spelled out

  /** At `i` the text has a component that is exactly two dots. */
  predicate UpAt(text: string, i: int) {
    && 0 <= i && i + 2 <= |text|
    && text[i] == '.' && text[i + 1] == '.'
    && (i == 0 || text[i - 1] == '/')
    && (i + 2 == |text| || text[i + 2] == '/')
  }

  /** After a separator the components are those of what follows it. */
  lemma UpAfter(text: string, part: string, s: string, i: int)
    requires s != [] && s[0] == '/' && text == part + s && i > |part|
    ensures UpAt(text, i) <==> UpAt(s[1..], i - |part| - 1)
  {
  }

  /** Before the first one, or without any, the whole first component counts. */
  lemma UpBefore(text: string, part: string, s: string, i: int)
    requires text == part + s && (s == [] || s[0] == '/') && '/' !in part && i <= |part|
    ensures UpAt(text, i) <==> i == 0 && part == ".."
  {
    assert forall k :: 0 <= k < |part| ==> text[k] == part[k] && text[k] != '/';
  }

  lemma UpNext(text: string, part: string, s: string)
    requires s != [] && s[0] != '/' && text == part + s && '/' !in part
    ensures text == part + [s[0]] + s[1..] && '/' !in part + [s[0]]
  {
  }

  /** `s` is what remains of `text` after the component read so far. */
  lemma {:induction false} UpFound(text: string, part: string, s: string) returns (i: int)
    requires text == part + s && '/' !in part && GoesUp(s, part)
    ensures UpAt(text, i)
    decreases |s|
  {
    if s != [] && s[0] != '/' {
      UpNext(text, part, s);
      i := UpFound(text, part + [s[0]], s[1..]);
    } else if part == ".." {
      i := 0;
      UpBefore(text, part, s, i);
    } else {
      var j := UpFound(s[1..], "", s[1..]);
      i := j + |part| + 1;
      UpAfter(text, part, s, i);
    }
  }

  lemma {:induction false} UpMissed(text: string, part: string, s: string, i: int)
    requires text == part + s && '/' !in part && UpAt(text, i)
    ensures GoesUp(s, part)
    decreases |s|
  {
    if s != [] && s[0] != '/' {
      UpNext(text, part, s);
      UpMissed(text, part + [s[0]], s[1..], i);
    } else if i <= |part| {
      UpBefore(text, part, s, i);
    } else {
      UpAfter(text, part, s, i);
      UpMissed(s[1..], "", s[1..], i - |part| - 1);
    }
  }

  /** Refused as leaving its directory: an absolute name, or one with a component of two dots. */
  lemma EscapesIff(name: string)
    ensures Escapes(name) <==> (name != "" && name[0] == '/') || exists i :: UpAt(name, i)
  {
    assert "" + name == name;
    if GoesUp(name, "") {
      var i := UpFound(name, "", name);
    }
    if i :| UpAt(name, i) {
      UpMissed(name, "", name, i);
    }
  }

  /** The file of a qualified fragment is what stands before its first `#`. */
  lemma {:induction false} FragmentFileIs(fragment: string)
    ensures var file := FragmentFile(fragment);
            && '#' !in file && |file| <= |fragment| && file == fragment[..|file|]
            && (|file| < |fragment| ==> fragment[|file|] == '#')
  {
    if '#' in fragment {
      BeforeHashIs(fragment);
    }
  }

  lemma {:induction false} BeforeHashIs(s: string)
    ensures var t := BeforeHash(s);
            '#' !in t && |t| <= |s| && t == s[..|t|] && (|t| < |s| ==> s[|t|] == '#')
  {
    if s != [] && s[0] != '#' {
      BeforeHashIs(s[1..]);
    }
  }

  /**
   * Resolving accepts exactly the plain names whose file is there: of an inline
   * block beside the feature, of a fragment in the directory the text before its
   * first `#` was read from, and never one name from two directories.
   */
  lemma ResolvableIff(roots: Roots, nodes: Nodes, assets: seq<AssetRef>)
    ensures Resolvable(roots, nodes, assets) <==>
            && (forall i :: 0 <= i < |assets| ==> Plain(assets[i].name) && Found(roots, nodes, assets[i]))
            && (forall i, j :: 0 <= i < |assets| && 0 <= j < |assets| && assets[i].name == assets[j].name ==>
                  SourceDir(roots, assets[i]) == SourceDir(roots, assets[j]))
  {
    forall i | 0 <= i < |assets|
      ensures Readable(roots, nodes, assets[i]) <==> Plain(assets[i].name) && Found(roots, nodes, assets[i])
    {
      EscapesIff(assets[i].name);
    }
  }

  ghost predicate Plain(name: string) {
    (name == "" || name[0] != '/') && forall i :: !UpAt(name, i)
  }

  /** Its directory is known and holds a file of that name, links followed. */
  predicate Found(roots: Roots, nodes: Nodes, asset: AssetRef) {
    && (asset.fragment.Some? ==> FragmentFile(asset.fragment.value) in roots.fragments)
    && var dir := if asset.fragment.None? then roots.feature else roots.fragments[FragmentFile(asset.fragment.value)];
       var e := roots.entry(dir, asset.name);
       && e in nodes
       && (nodes[e].Link? ==> nodes[e].target in nodes && nodes[nodes[e].target].File?)
  }

  // ----- staging stops for one reason only

  /** Two different names are one entry in the destination. */
  ghost predicate Shared(items: seq<Item>, i: int, j: int) {
    0 <= i < |items| && 0 <= j < |items| && items[i].target == items[j].target && items[i].name != items[j].name
  }

  ghost predicate NoneShared(items: seq<Item>) {
    forall i, j :: !Shared(items, i, j)
  }

  /** The failure names two different references that are one file in the destination. */
  ghost predicate NamesShared(items: seq<Item>, failure: Failure) {
    exists i, j :: Shared(items, i, j) && failure == OneFile(items[i].name, items[j].name)
  }

  /** A copy into a destination of its own is refused only if another name landed there. */
  lemma ItemStopped(before: Nodes, d: Disk, items: seq<Item>, n: nat)
    requires n < |items| && Apart(before, items) && Invariant(before, d, items, n)
    requires StageItem(d, items[n]).Stopped?
    ensures NamesShared(items, StageItem(d, items[n]).failure)
  {
    SourceUntouched(before, d, items, n, n);
    UnlinkedKeeps(d.nodes, items[n].source, items[n].target);
    var e := items[n].target;
    assert Landed(before, d, items, n, e);
    var i :| 0 <= i < n && CopiedBy(before, d, items[i], e);
    assert Shared(items, i, n);
  }

  /** Staging stops for no other reason. */
  lemma {:induction false} StoppedShares(before: Nodes, items: seq<Item>, n: nat)
    requires Apart(before, items) && n <= |items|
    requires StageItems(Disk(before, map[]), items[..n]).Stopped?
    ensures NamesShared(items, StageItems(Disk(before, map[]), items[..n]).failure)
  {
    OneMoreItem(Disk(before, map[]), items, n);
    if StageItems(Disk(before, map[]), items[..n - 1]).Stopped? {
      StoppedShares(before, items, n - 1);
    } else {
      LastStopped(before, items, n);
    }
  }

  lemma OneMoreItem(d: Disk, items: seq<Item>, n: nat)
    requires n <= |items| && StageItems(d, items[..n]).Stopped?
    ensures n > 0
    ensures var before := StageItems(d, items[..n - 1]);
            StageItems(d, items[..n]) == if before.Stopped? then before else StageItem(before.disk, items[n - 1])
  {
    assert items[..n][..n - 1] == items[..n - 1];
  }

  lemma LastStopped(before: Nodes, items: seq<Item>, n: nat)
    requires Apart(before, items) && 0 < n <= |items|
    requires StageItems(Disk(before, map[]), items[..n - 1]).Staged?
    requires StageItem(StageItems(Disk(before, map[]), items[..n - 1]).disk, items[n - 1]).Stopped?
    ensures NamesShared(items, StageItem(StageItems(Disk(before, map[]), items[..n - 1]).disk, items[n - 1]).failure)
  {
    StagedInvariant(before, items, n - 1);
    ItemStopped(before, StageItems(Disk(before, map[]), items[..n - 1]).disk, items, n - 1);
  }

  /** In a destination without links, staging succeeds exactly when no two names are one file there. */
  lemma StagedIffNoneShared(before: Nodes, items: seq<Item>)
    requires Apart(before, items) && NoLinksAtTargets(before, items)
    ensures StageItems(Disk(before, map[]), items).Staged? <==> NoneShared(items)
  {
    var r := StageItems(Disk(before, map[]), items);
    assert items[..|items|] == items;
    if r.Stopped? {
      StoppedShares(before, items, |items|);
    } else {
      StagedInvariant(before, items, |items|);
      forall i, j | 0 <= i < |items| && 0 <= j < |items| && items[i].target == items[j].target
        ensures items[i].name == items[j].name
      {
        assert Accounted(before, r.disk, items[i]) && Accounted(before, r.disk, items[j]);
      }
    }
  }
}
