// Staging a scenario's assets on a filesystem where different names can be one file.
module Assets {
  import opened Events

  /** A directory entry: what a path denotes once the volume's own naming rules are applied. */
  type Entry = nat

  datatype Node = File(bytes: string) | Link(target: Entry)

  type Nodes = map<Entry, Node>

  /** The file an entry leads to, following a link. */
  function Canonical(nodes: Nodes, e: Entry): Option<Entry> {
    if e !in nodes then None
    else match nodes[e]
      case File(_) => Some(e)
      case Link(t) => if t in nodes && nodes[t].File? then Some(t) else None
  }

  function ReadFile(nodes: Nodes, e: Entry): Option<string> {
    var c := Canonical(nodes, e);
    if c.Some? then Some(nodes[c.value].bytes) else None
  }

  // ----- references and where they resolve

  datatype AssetRef = AssetRef(name: string, fragment: Option<string>)

  /** Where sources were read from, and what entry a name in a directory denotes. */
  datatype Roots = Roots(feature: string, fragments: map<string, string>, entry: (string, string) -> Entry)

  function BeforeHash(s: string): string {
    if s == [] || s[0] == '#' then [] else [s[0]] + BeforeHash(s[1..])
  }

  /** The file half of `file.hurl#name`, or the whole of an unqualified name. */
  function FragmentFile(fragment: string): string {
    if '#' in fragment then BeforeHash(fragment) else fragment
  }

  function SourceDir(roots: Roots, asset: AssetRef): Option<string> {
    if asset.fragment.None? then Some(roots.feature)
    else
      var file := FragmentFile(asset.fragment.value);
      if file in roots.fragments then Some(roots.fragments[file]) else None
  }

  /** Does some `/`-separated component of `s`, the first one read so far as `part`, go up? */
  predicate GoesUp(s: string, part: string) {
    if s == [] then part == ".."
    else if s[0] == '/' then part == ".." || GoesUp(s[1..], "")
    else GoesUp(s[1..], part + [s[0]])
  }

  /** Only plain components: not absolute, nothing that leaves the directory. */
  predicate Escapes(name: string) {
    (name != [] && name[0] == '/') || GoesUp(name, "")
  }

  datatype Failure = EscapesRoot(asset: string) | NoCorpusEntry(asset: string) | TwoSources(asset: string)
    | NotReadable(asset: string) | OneFile(previous: string, asset: string) | Io(asset: string)

  datatype Resolution = Resolved(dirs: seq<string>) | Refused(failure: Failure)

  /** What stands in the way of resolving `asset`, given the claims made so far. */
  function Refusal(roots: Roots, nodes: Nodes, claimed: map<string, string>, asset: AssetRef): Option<Failure> {
    var dir := SourceDir(roots, asset);
    if Escapes(asset.name) then Some(EscapesRoot(asset.name))
    else if dir.None? then Some(NoCorpusEntry(asset.name))
    else if asset.name in claimed && claimed[asset.name] != dir.value then Some(TwoSources(asset.name))
    else if Canonical(nodes, roots.entry(dir.value, asset.name)).None? then Some(NotReadable(asset.name))
    else None
  }

  /** A plain relative reference with a known directory and a file in it. */
  predicate Readable(roots: Roots, nodes: Nodes, asset: AssetRef) {
    && !Escapes(asset.name) && SourceDir(roots, asset).Some?
    && Canonical(nodes, roots.entry(SourceDir(roots, asset).value, asset.name)).Some?
  }

  /** Every asset can be read, and no two sources claim one name. */
  ghost predicate Resolvable(roots: Roots, nodes: Nodes, assets: seq<AssetRef>) {
    && (forall i :: 0 <= i < |assets| ==> Readable(roots, nodes, assets[i]))
    && (forall i, j :: 0 <= i < |assets| && 0 <= j < |assets| && assets[i].name == assets[j].name ==>
          SourceDir(roots, assets[i]) == SourceDir(roots, assets[j]))
  }

  /** The first reference that cannot be staged, and what the failure says of it. */
  ghost predicate Justified(roots: Roots, nodes: Nodes, assets: seq<AssetRef>, failure: Failure) {
    exists i :: 0 <= i < |assets| && JustifiedAt(roots, nodes, assets, i, failure)
  }

  ghost predicate JustifiedAt(roots: Roots, nodes: Nodes, assets: seq<AssetRef>, i: nat, failure: Failure)
    requires i < |assets|
  {
    && (forall j :: 0 <= j < i ==> Readable(roots, nodes, assets[j]))
    && match failure
       case EscapesRoot(name) => name == assets[i].name && Escapes(name)
       case NoCorpusEntry(name) => name == assets[i].name && !Escapes(name) && SourceDir(roots, assets[i]).None?
       case TwoSources(name) =>
         (name == assets[i].name && !Escapes(name) && SourceDir(roots, assets[i]).Some? && exists j ::
           0 <= j < i && assets[j].name == name && SourceDir(roots, assets[j]) != SourceDir(roots, assets[i]))
       case NotReadable(name) =>
         (name == assets[i].name && !Escapes(name) && SourceDir(roots, assets[i]).Some?
         && (forall j :: 0 <= j < i && assets[j].name == name ==>
               SourceDir(roots, assets[j]) == SourceDir(roots, assets[i]))
         && Canonical(nodes, roots.entry(SourceDir(roots, assets[i]).value, name)).None?)
       case OneFile(_, _) => false
       case Io(_) => false
  }

  /** The first `n` references claimed their names, each for its own directory. */
  ghost predicate Claims(roots: Roots, assets: seq<AssetRef>, n: nat, claimed: map<string, string>)
    requires n <= |assets|
  {
    && (forall j :: 0 <= j < n ==>
          assets[j].name in claimed && SourceDir(roots, assets[j]) == Some(claimed[assets[j].name]))
    && (forall name :: name in claimed ==> exists j :: 0 <= j < n && assets[j].name == name)
  }

  lemma RefusalJustified(roots: Roots, nodes: Nodes, assets: seq<AssetRef>, i: nat, claimed: map<string, string>)
    requires i < |assets| && Claims(roots, assets, i, claimed)
    requires forall j :: 0 <= j < i ==> Readable(roots, nodes, assets[j])
    requires Refusal(roots, nodes, claimed, assets[i]).Some?
    ensures Justified(roots, nodes, assets, Refusal(roots, nodes, claimed, assets[i]).value)
    ensures !Resolvable(roots, nodes, assets)
  {
    assert JustifiedAt(roots, nodes, assets, i, Refusal(roots, nodes, claimed, assets[i]).value);
  }

  // ----- staging, one asset at a time

  /** An asset with its source and target entries. */
  datatype Item = Item(name: string, source: Entry, target: Entry)

  datatype Disk = Disk(nodes: Nodes, landed: map<Entry, string>)

  datatype Outcome = Staged(disk: Disk) | Stopped(failure: Failure, disk: Disk)

  /** A link found at the target is removed, not written through. */
  function Unlinked(nodes: Nodes, e: Entry): Nodes {
    if e in nodes && nodes[e].Link? then nodes - {e} else nodes
  }

  /** Copying writes through a link, wherever it points. */
  function Copied(nodes: Nodes, e: Entry, bytes: string): Nodes {
    if e in nodes && nodes[e].Link? then nodes[nodes[e].target := File(bytes)] else nodes[e := File(bytes)]
  }

  /** The target already leads to the source: copying would destroy it. */
  predicate InPlace(nodes: Nodes, item: Item) {
    Canonical(nodes, item.source).Some? && Canonical(nodes, item.target) == Canonical(nodes, item.source)
  }

  function StageItem(d: Disk, item: Item): Outcome {
    if InPlace(d.nodes, item) then Staged(d)
    else
      var nodes := Unlinked(d.nodes, item.target);
      var bytes := ReadFile(nodes, item.source);
      if bytes.None? then Stopped(Io(item.name), d.(nodes := nodes))
      else
        var written := d.(nodes := Copied(nodes, item.target, bytes.value));
        if item.target in d.landed && d.landed[item.target] != item.name
        then Stopped(OneFile(d.landed[item.target], item.name), written)
        else Staged(written.(landed := d.landed[item.target := item.name]))
  }

  function StageItems(d: Disk, items: seq<Item>): Outcome {
    if items == [] then Staged(d)
    else
      var before := StageItems(d, items[..|items| - 1]);
      if before.Stopped? then before else StageItem(before.disk, items[|items| - 1])
  }

  function ItemOf(roots: Roots, dest: string, asset: AssetRef): Item
    requires SourceDir(roots, asset).Some?
  {
    Item(asset.name, roots.entry(SourceDir(roots, asset).value, asset.name), roots.entry(dest, asset.name))
  }

  function ItemsOf(roots: Roots, dest: string, assets: seq<AssetRef>): (items: seq<Item>)
    requires forall i :: 0 <= i < |assets| ==> SourceDir(roots, assets[i]).Some?
    ensures |items| == |assets|
  {
    seq(|assets|, i requires 0 <= i < |assets| => ItemOf(roots, dest, assets[i]))
  }

  /** The filesystem a run stages into. */
  class FileSystem {
    var nodes: Nodes

    /** Ask every question first; touch nothing. */
    method ResolveAssets(assets: seq<AssetRef>, roots: Roots) returns (r: Resolution)
      ensures r.Resolved? <==> Resolvable(roots, nodes, assets)
      ensures r.Resolved? ==>
                |r.dirs| == |assets| && forall i :: 0 <= i < |assets| ==> SourceDir(roots, assets[i]) == Some(r.dirs[i])
      ensures r.Refused? ==> Justified(roots, nodes, assets, r.failure)
    {
      var claimed: map<string, string> := map[];
      var dirs: seq<string> := [];
      for i := 0 to |assets|
        invariant |dirs| == i && Claims(roots, assets, i, claimed)
        invariant forall j :: 0 <= j < i ==> Readable(roots, nodes, assets[j])
        invariant forall j :: 0 <= j < i ==> SourceDir(roots, assets[j]) == Some(dirs[j])
      {
        var refusal := Refusal(roots, nodes, claimed, assets[i]);
        if refusal.Some? {
          RefusalJustified(roots, nodes, assets, i, claimed);
          return Refused(refusal.value);
        }
        var dir := SourceDir(roots, assets[i]).value;
        claimed := claimed[assets[i].name := dir];
        dirs := dirs + [dir];
      }
      r := Resolved(dirs);
    }

    /** Copy one asset unless it is in place already. */
    method StageOne(item: Item, landed: map<Entry, string>, ioFails: bool)
      returns (failure: Option<Failure>, landed': map<Entry, string>)
      modifies this
      ensures failure.None? ==> StageItem(Disk(old(nodes), landed), item) == Staged(Disk(nodes, landed'))
      ensures failure.Some? && !ioFails ==>
                StageItem(Disk(old(nodes), landed), item) == Stopped(failure.value, Disk(nodes, landed))
      ensures forall e :: e != item.target ==> SameAt(old(nodes), nodes, e)
    {
      failure, landed' := None, landed;
      if InPlace(nodes, item) {
        return;
      }
      nodes := Unlinked(nodes, item.target);
      var bytes := ReadFile(nodes, item.source);
      if ioFails || bytes.None? {
        return Some(Io(item.name)), landed;
      }
      nodes := Copied(nodes, item.target, bytes.value);
      if item.target in landed && landed[item.target] != item.name {
        return Some(OneFile(landed[item.target], item.name)), landed;
      }
      landed' := landed[item.target := item.name];
    }

    /** Copy in turn, until one copy fails. */
    method StageAll(items: seq<Item>, ioFails: seq<bool>) returns (failure: Option<Failure>)
      requires |ioFails| == |items|
      modifies this
      ensures failure.None? ==>
                var r := StageItems(Disk(old(nodes), map[]), items);
                r.Staged? && r.disk.nodes == nodes
      ensures failure.Some? && (forall i :: 0 <= i < |items| ==> !ioFails[i]) ==>
                var r := StageItems(Disk(old(nodes), map[]), items);
                r.Stopped? && r.failure == failure.value && r.disk.nodes == nodes
      ensures forall e :: (forall i :: 0 <= i < |items| ==> items[i].target != e) ==> SameAt(old(nodes), nodes, e)
    {
      ghost var start := Disk(nodes, map[]);
      var landed: map<Entry, string> := map[];
      for i := 0 to |items|
        invariant StageItems(start, items[..i]) == Staged(Disk(nodes, landed))
        invariant forall e :: (forall k :: 0 <= k < |items| ==> items[k].target != e) ==> SameAt(start.nodes, nodes, e)
      {
        assert items[..i + 1][..i] == items[..i];
        ghost var was := nodes;
        failure, landed := StageOne(items[i], landed, ioFails[i]);
        forall e | forall k :: 0 <= k < |items| ==> items[k].target != e ensures SameAt(start.nodes, nodes, e) {
          assert SameAt(start.nodes, was, e) && SameAt(was, nodes, e);
        }
        if failure.Some? {
          if !ioFails[i] {
            StoppedStays(start, items, i + 1);
          }
          return;
        }
      }
      assert items[..|items|] == items;
      failure := None;
    }

    /**
     * Resolve, then copy in turn. `ioFails` says which copies the filesystem
     * refuses for reasons of its own. Whatever happens, only targets change.
     */
    method StageAssets(assets: seq<AssetRef>, roots: Roots, dest: string, ioFails: seq<bool>)
      returns (failure: Option<Failure>)
      requires |ioFails| == |assets|
      modifies this
      ensures !Resolvable(roots, old(nodes), assets) ==>
                failure.Some? && nodes == old(nodes) && Justified(roots, nodes, assets, failure.value)
      ensures failure.None? ==>
                Resolvable(roots, old(nodes), assets)
                && StageItems(Disk(old(nodes), map[]), ItemsOf(roots, dest, assets)).Staged?
                && nodes == StageItems(Disk(old(nodes), map[]), ItemsOf(roots, dest, assets)).disk.nodes
      ensures Resolvable(roots, old(nodes), assets) && failure.Some?
              && (forall i :: 0 <= i < |assets| ==> !ioFails[i]) ==>
                var r := StageItems(Disk(old(nodes), map[]), ItemsOf(roots, dest, assets));
                r.Stopped? && r.failure == failure.value && r.disk.nodes == nodes
      ensures Resolvable(roots, old(nodes), assets) ==>
                forall e :: (forall i :: 0 <= i < |assets| ==> roots.entry(dest, assets[i].name) != e) ==>
                  SameAt(old(nodes), nodes, e)
    {
      var r := ResolveAssets(assets, roots);
      if r.Refused? {
        return Some(r.failure);
      }
      failure := StageAll(ItemsOf(roots, dest, assets), ioFails);
    }
  }

  predicate SameAt(before: Nodes, after: Nodes, e: Entry) {
    (e in before <==> e in after) && (e in before ==> before[e] == after[e])
  }

  /** Staging stops for good. */
  lemma {:induction false} StoppedStays(d: Disk, items: seq<Item>, n: nat)
    requires n <= |items| && StageItems(d, items[..n]).Stopped?
    ensures StageItems(d, items) == StageItems(d, items[..n])
    decreases |items| - n
  {
    if n == |items| {
      assert items[..n] == items;
    } else {
      assert items[..n + 1][..n] == items[..n];
      StoppedStays(d, items, n + 1);
    }
  }

  // ----- what ends up under the destination

  /** No source is, or leads to, an entry that is staged over. */
  ghost predicate Apart(nodes: Nodes, items: seq<Item>) {
    forall i, j :: 0 <= i < |items| && 0 <= j < |items| ==>
      && Canonical(nodes, items[i].source).Some?
      && items[i].source != items[j].target
      && Canonical(nodes, items[i].source).value != items[j].target
  }

  ghost predicate OneSourcePerName(items: seq<Item>) {
    forall i, j :: 0 <= i < |items| && 0 <= j < |items| && items[i].name == items[j].name ==>
      items[i].source == items[j].source && items[i].target == items[j].target
  }

  /** Asset `i` reads back the bytes its own source had before staging. */
  ghost predicate Right(before: Nodes, after: Nodes, item: Item) {
    ReadFile(after, item.target) == ReadFile(before, item.source)
  }

  /** Item `i` was copied, or its target already was a link to its source. */
  ghost predicate Accounted(before: Nodes, d: Disk, item: Item) {
    || (item.target in d.landed && d.landed[item.target] == item.name)
    || (item.target in before && before[item.target].Link?
        && Canonical(before, item.source) == Some(before[item.target].target))
  }

  /** Entry `e` holds what `item`, whose name landed there, has for bytes. */
  ghost predicate CopiedBy(before: Nodes, d: Disk, item: Item, e: Entry) {
    && item.target == e && e in d.landed && d.landed[e] == item.name
    && ReadFile(before, item.source).Some?
    && e in d.nodes && d.nodes[e] == File(ReadFile(before, item.source).value)
  }

  /** Where nothing landed, nothing changed. */
  ghost predicate KeptElsewhere(before: Nodes, d: Disk) {
    forall e :: e !in d.landed ==> (e in d.nodes <==> e in before) && (e in before ==> d.nodes[e] == before[e])
  }

  /** Entry `e` was copied to by one of the first `n` items. */
  ghost predicate Landed(before: Nodes, d: Disk, items: seq<Item>, n: nat, e: Entry)
    requires n <= |items|
  {
    exists j :: 0 <= j < n && CopiedBy(before, d, items[j], e)
  }

  /** After the first `n` items. */
  ghost predicate Invariant(before: Nodes, d: Disk, items: seq<Item>, n: nat)
    requires n <= |items|
  {
    && KeptElsewhere(before, d)
    && (forall e :: e in d.landed ==> Landed(before, d, items, n, e))
    && (forall i :: 0 <= i < n ==> Accounted(before, d, items[i]))
  }

  /** Staging elsewhere never changes what a source holds. */
  lemma SourceUntouched(before: Nodes, d: Disk, items: seq<Item>, n: nat, i: nat)
    requires Apart(before, items) && n <= |items| && i < |items| && Invariant(before, d, items, n)
    ensures Canonical(d.nodes, items[i].source) == Canonical(before, items[i].source)
    ensures ReadFile(d.nodes, items[i].source) == ReadFile(before, items[i].source)
  {
    var c := Canonical(before, items[i].source).value;
    forall e | e in d.landed ensures e != items[i].source && e != c {
      LandedIsFile(before, d, items, n, e);
    }
  }

  lemma UnlinkedKeeps(nodes: Nodes, source: Entry, target: Entry)
    requires Canonical(nodes, source).Some? && source != target && Canonical(nodes, source).value != target
    ensures ReadFile(Unlinked(nodes, target), source) == ReadFile(nodes, source)
  {
  }

  lemma LandedIsFile(before: Nodes, d: Disk, items: seq<Item>, n: nat, e: Entry)
    requires n <= |items| && Landed(before, d, items, n, e)
    ensures e in d.nodes && d.nodes[e].File? && exists j :: 0 <= j < |items| && items[j].target == e
  {
    var j :| 0 <= j < n && CopiedBy(before, d, items[j], e);
  }

  /** Entries copied to earlier stay so when nothing else changes them. */
  lemma LandedStays(before: Nodes, d: Disk, d': Disk, items: seq<Item>, n: nat, e: Entry)
    requires n < |items| && Landed(before, d, items, n, e)
    requires e in d'.landed && d'.landed[e] == d.landed[e] && e in d'.nodes && d'.nodes[e] == d.nodes[e]
    ensures Landed(before, d', items, n + 1, e)
  {
    var j :| 0 <= j < n && CopiedBy(before, d, items[j], e);
    assert CopiedBy(before, d', items[j], e);
  }

  /** A skipped item's target already led to its source. */
  lemma SkipFacts(before: Nodes, d: Disk, items: seq<Item>, n: nat)
    requires n < |items| && Apart(before, items) && Invariant(before, d, items, n)
    requires Canonical(d.nodes, items[n].target) == Canonical(d.nodes, items[n].source)
    ensures Accounted(before, d, items[n])
  {
    var e := items[n].target;
    SourceUntouched(before, d, items, n, n);
    assert items[n].source != e && Canonical(before, items[n].source).value != e;
    assert d.nodes[e].Link?;
    if e in d.landed {
      LandedIsFile(before, d, items, n, e);
    }
  }

  lemma SkipAccounted(before: Nodes, d: Disk, items: seq<Item>, n: nat)
    requires n < |items| && Apart(before, items) && Invariant(before, d, items, n)
    requires Canonical(d.nodes, items[n].target) == Canonical(d.nodes, items[n].source)
    ensures Invariant(before, d, items, n + 1)
  {
    SkipFacts(before, d, items, n);
    forall e | e in d.landed ensures Landed(before, d, items, n + 1, e) {
      LandedIsFile(before, d, items, n, e);
      LandedStays(before, d, d, items, n, e);
    }
  }

  /** A copied item's target holds its source's bytes under its name. */
  lemma CopyLands(before: Nodes, d: Disk, item: Item)
    requires Canonical(d.nodes, item.source).Some? && Canonical(d.nodes, item.source).value != item.target
    requires item.source != item.target && ReadFile(d.nodes, item.source) == ReadFile(before, item.source)
    requires !InPlace(d.nodes, item) && StageItem(d, item).Staged?
    ensures CopyOf(before, d, StageItem(d, item).disk, item)
  {
    UnlinkedKeeps(d.nodes, item.source, item.target);
  }

  /** `d'` is `d` with `item` copied. */
  ghost predicate CopyOf(before: Nodes, d: Disk, d': Disk, item: Item) {
    && CopiedBy(before, d', item, item.target)
    && d'.landed == d.landed[item.target := item.name]
    && (forall e :: e != item.target ==> SameAt(d.nodes, d'.nodes, e))
    && (item.target in d.landed ==> d.landed[item.target] == item.name)
  }

  lemma CopyKeepsElsewhere(before: Nodes, d: Disk, d': Disk, item: Item)
    requires KeptElsewhere(before, d) && CopyOf(before, d, d', item)
    ensures KeptElsewhere(before, d')
  {
    forall e | e !in d'.landed ensures SameAt(before, d'.nodes, e) {
      assert SameAt(d.nodes, d'.nodes, e);
    }
  }

  lemma CopyKeepsLanded(before: Nodes, d: Disk, d': Disk, items: seq<Item>, n: nat, e: Entry)
    requires n < |items| && CopyOf(before, d, d', items[n]) && e in d'.landed
    requires e != items[n].target ==> Landed(before, d, items, n, e)
    ensures Landed(before, d', items, n + 1, e)
  {
    if e != items[n].target {
      LandedIsFile(before, d, items, n, e);
      assert SameAt(d.nodes, d'.nodes, e);
      LandedStays(before, d, d', items, n, e);
    }
  }

  lemma CopyKeepsAccounted(before: Nodes, d: Disk, d': Disk, items: seq<Item>, n: nat, i: nat)
    requires i <= n < |items| && CopyOf(before, d, d', items[n])
    requires i < n ==> Accounted(before, d, items[i])
    ensures Accounted(before, d', items[i])
  {
  }

  /** A copy keeps the invariant. */
  lemma CopyKeeps(before: Nodes, d: Disk, d': Disk, items: seq<Item>, n: nat)
    requires n < |items| && Invariant(before, d, items, n) && CopyOf(before, d, d', items[n])
    ensures Invariant(before, d', items, n + 1)
  {
    CopyKeepsElsewhere(before, d, d', items[n]);
    forall e | e in d'.landed ensures Landed(before, d', items, n + 1, e) {
      CopyKeepsLanded(before, d, d', items, n, e);
    }
    forall i | 0 <= i < n + 1 ensures Accounted(before, d', items[i]) {
      CopyKeepsAccounted(before, d, d', items, n, i);
    }
  }

  lemma {:induction false} StagedInvariant(before: Nodes, items: seq<Item>, n: nat)
    requires Apart(before, items) && n <= |items|
    requires StageItems(Disk(before, map[]), items[..n]).Staged?
    ensures Invariant(before, StageItems(Disk(before, map[]), items[..n]).disk, items, n)
  {
    if n > 0 {
      assert items[..n][..n - 1] == items[..n - 1];
      StagedInvariant(before, items, n - 1);
      var d := StageItems(Disk(before, map[]), items[..n - 1]).disk;
      SourceUntouched(before, d, items, n - 1, n - 1);
      if Canonical(d.nodes, items[n - 1].target) == Canonical(d.nodes, items[n - 1].source) {
        SkipAccounted(before, d, items, n - 1);
      } else {
        CopyLands(before, d, items[n - 1]);
        CopyKeeps(before, d, StageItem(d, items[n - 1]).disk, items, n - 1);
      }
    }
  }

  /**
   * Two assets staged to one entry that beforehand was a link to the first one's
   * source, with different bytes: the first is skipped as already in place and
   * the second is copied over it.
   */
  ghost predicate LinkClash(before: Nodes, items: seq<Item>) {
    exists i, j :: 0 <= i < |items| && 0 <= j < |items|
      && items[i].target == items[j].target && items[i].target in before && before[items[i].target].Link?
      && Canonical(before, items[i].source) == Some(before[items[i].target].target)
      && ReadFile(before, items[i].source) != ReadFile(before, items[j].source)
  }

  /** A copied item reads back its own bytes; a skipped one too, unless it clashes. */
  lemma RightUnlessClash(before: Nodes, d: Disk, items: seq<Item>, i: nat)
    requires Apart(before, items) && OneSourcePerName(items) && Invariant(before, d, items, |items|) && i < |items|
    requires !LinkClash(before, items)
    ensures Right(before, d.nodes, items[i])
  {
    var item := items[i];
    assert Accounted(before, d, item);
    if item.target in d.landed {
      var j :| 0 <= j < |items| && CopiedBy(before, d, items[j], item.target);
    } else {
      var x := before[item.target].target;
      assert Canonical(before, item.source) == Some(x);
      assert x !in d.landed;
    }
  }

  /**
   * When staging succeeds, every name reads back its own source's bytes, distinct
   * spellings of one file included, if and only if there is no link clash. In
   * a destination without links there never is one.
   */
  lemma StagedRightIffNoClash(before: Nodes, items: seq<Item>)
    requires Apart(before, items) && OneSourcePerName(items)
    requires StageItems(Disk(before, map[]), items).Staged?
    ensures var after := StageItems(Disk(before, map[]), items).disk.nodes;
            (forall i :: 0 <= i < |items| ==> Right(before, after, items[i])) <==> !LinkClash(before, items)
  {
    var d := StageItems(Disk(before, map[]), items).disk;
    assert items[..|items|] == items;
    StagedInvariant(before, items, |items|);
    if !LinkClash(before, items) {
      forall i | 0 <= i < |items| ensures Right(before, d.nodes, items[i]) {
        RightUnlessClash(before, d, items, i);
      }
    }
  }

  ghost predicate NoLinksAtTargets(before: Nodes, items: seq<Item>) {
    forall i :: 0 <= i < |items| && items[i].target in before ==> before[items[i].target].File?
  }

  /** In a fresh destination, success means every asset is there with its own bytes. */
  lemma FreshStagingIsRight(before: Nodes, items: seq<Item>, i: nat)
    requires Apart(before, items) && OneSourcePerName(items) && NoLinksAtTargets(before, items)
    requires StageItems(Disk(before, map[]), items).Staged? && i < |items|
    ensures Right(before, StageItems(Disk(before, map[]), items).disk.nodes, items[i])
  {
    StagedRightIffNoClash(before, items);
  }

  /** What `resolve_assets` settles is what staging needs: one source per name. */
  lemma ResolvedOneSource(roots: Roots, nodes: Nodes, assets: seq<AssetRef>, dest: string)
    requires Resolvable(roots, nodes, assets)
    ensures OneSourcePerName(ItemsOf(roots, dest, assets))
    ensures forall i :: 0 <= i < |assets| ==> Canonical(nodes, ItemsOf(roots, dest, assets)[i].source).Some?
  {
  }

  /** The clash on a disk of three files: the first asset silently reads the second one's bytes. */
  lemma ClashExample()
    ensures var before: Nodes := map[0 := File("a"), 1 := File("b"), 2 := Link(0)];
            var items := [Item("x", 0, 2), Item("X", 1, 2)];
            var r := StageItems(Disk(before, map[]), items);
            && r.Staged? && Apart(before, items) && OneSourcePerName(items)
            && ReadFile(r.disk.nodes, 2) == Some("b") && ReadFile(before, 0) == Some("a")
  {
    var before: Nodes := map[0 := File("a"), 1 := File("b"), 2 := Link(0)];
    var items := [Item("x", 0, 2), Item("X", 1, 2)];
    assert items[..1] == [Item("x", 0, 2)] && items[..1][..0] == [];
    assert StageItems(Disk(before, map[]), items[..1]) == Staged(Disk(before, map[]));
  }
}
