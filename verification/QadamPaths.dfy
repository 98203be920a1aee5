/**
 * Which directories of the source tree are packages. Publishing looks for the outermost ones under
 * two roots; the other scripts list every one. A tree is a snapshot: nothing changes while it is read.
 */
module QadamPaths {
  import opened Wrappers

  /** The names from the working directory down. */
  type Path = seq<string>

  datatype Node = File | Dir(entries: seq<Entry>)
  datatype Entry = Entry(name: string, node: Node)

  /** A file system keeps the names in one directory apart. */
  ghost predicate IsTree(node: Node) {
    node.Dir? ==> HaveDistinctNames(node.entries) && forall entry :: entry in node.entries ==> IsTree(entry.node)
  }

  ghost predicate HaveDistinctNames(entries: seq<Entry>) {
    forall i, j :: 0 <= i < j < |entries| ==> entries[i].name != entries[j].name
  }

  predicate IsManifest(entry: Entry) {
    entry.node.File? && entry.name == "package.json"
  }

  predicate HasManifest(entries: seq<Entry>) {
    exists entry :: entry in entries && IsManifest(entry)
  }

  /** Whether the walks go into this entry. */
  predicate IsOpened(entry: Entry) {
    entry.node.Dir? && entry.name != "node_modules" && entry.name != "dist"
  }

  // ---------------------------------------------------------------- the two walks

  /** The outermost packages: a directory that is one is not searched. */
  function Collect(directory: Path, node: Node): seq<Path>
    decreases node
  {
    match node
    case File => []
    case Dir(entries) => if HasManifest(entries) then [directory] else CollectNested(directory, entries)
  }

  function CollectNested(directory: Path, entries: seq<Entry>): seq<Path>
    decreases entries
  {
    if entries == [] then []
    else CollectEntry(directory, entries[0]) + CollectNested(directory, entries[1..])
  }

  function CollectEntry(directory: Path, entry: Entry): seq<Path>
    decreases entry
  {
    if IsOpened(entry) then Collect(directory + [entry.name], entry.node) else []
  }

  /** Every package, in the order they are met. */
  ghost function Traverse(directory: Path, node: Node): seq<Path>
    decreases node
  {
    match node
    case File => []
    case Dir(entries) => TraverseEntries(directory, entries)
  }

  ghost function TraverseEntries(directory: Path, entries: seq<Entry>): seq<Path>
    decreases entries
  {
    if entries == [] then []
    else TraverseEntry(directory, entries[0]) + TraverseEntries(directory, entries[1..])
  }

  ghost function TraverseEntry(directory: Path, entry: Entry): seq<Path>
    decreases entry
  {
    if IsOpened(entry) then Traverse(directory + [entry.name], entry.node)
    else if IsManifest(entry) then [directory]
    else []
  }

  lemma TraverseOneMore(directory: Path, entries: seq<Entry>, i: nat, before: seq<Path>)
    requires i < |entries|
    ensures before + TraverseEntries(directory, entries[i..])
         == before + TraverseEntry(directory, entries[i]) + TraverseEntries(directory, entries[i + 1..])
  {
    assert entries[i..][1..] == entries[i + 1..];
  }

  method TraverseFolder(folderPath: Path, folder: Node) returns (paths: seq<Path>)
    ensures paths == Traverse(folderPath, folder)
    decreases folder
  {
    paths := [];
    if folder.Dir? {
      var files := folder.entries;
      for i := 0 to |files|
        invariant paths + TraverseEntries(folderPath, files[i..]) == TraverseEntries(folderPath, files)
      {
        var file := files[i];
        ghost var before := paths;
        assert file in files && file.node < file < folder;
        if file.node.Dir? && file.name != "node_modules" && file.name != "dist" {
          var nested := TraverseFolder(folderPath + [file.name], file.node);
          paths := paths + nested;
        } else if file.name == "package.json" {
          paths := paths + [folderPath];
        }
        assert paths == before + TraverseEntry(folderPath, file);
        TraverseOneMore(folderPath, files, i, before);
      }
    }
  }

  // ---------------------------------------------------------------- what the full walk finds

  /** Whether `path`, below `node`, leads through opened directories to one that holds a manifest. */
  ghost predicate IsPackage(node: Node, path: Path)
    decreases |path|, 1
  {
    node.Dir? && IsPackageAmong(node.entries, path)
  }

  ghost predicate IsPackageAmong(entries: seq<Entry>, path: Path)
    decreases |path|, 0
  {
    if path == [] then exists entry :: entry in entries && entry.name == "package.json" && entry.node.File?
    else
      && path[0] != "node_modules" && path[0] != "dist"
      && exists entry :: entry in entries && entry.name == path[0] && IsPackage(entry.node, path[1..])
  }

  /** The full walk reports exactly the packages there are. */
  lemma {:induction false} TraverseFindsExactly(directory: Path, node: Node, path: Path)
    ensures directory + path in Traverse(directory, node) <==> IsPackage(node, path)
    decreases node
  {
    if node.Dir? {
      EntriesFindExactly(directory, node.entries, path);
      assert path == [] ==> directory + path == directory;
    }
  }

  lemma {:induction false} EntriesFindExactly(directory: Path, entries: seq<Entry>, path: Path)
    ensures directory + path in TraverseEntries(directory, entries) <==> IsPackageAmong(entries, path)
    decreases entries
  {
    if entries != [] {
      var first, rest := entries[0], entries[1..];
      EntriesFindExactly(directory, rest, path);
      EntryFindsExactly(directory, first, path);
      assert entries == [first] + rest;
      assert IsPackageAmong(entries, path) <==> IsPackageAmong([first], path) || IsPackageAmong(rest, path);
    }
  }

  lemma {:induction false} EntryFindsExactly(directory: Path, entry: Entry, path: Path)
    ensures directory + path in TraverseEntry(directory, entry) <==> IsPackageAmong([entry], path)
    decreases entry
  {
    assert entry in [entry];
    assert path == [] ==> directory + path == directory;
    if IsOpened(entry) {
      EntryPathsAreBelow(directory, entry);
      assert path != [] ==> (directory + path)[|directory|] == path[0];
      if path != [] && path[0] == entry.name {
        TraverseFindsExactly(directory + [entry.name], entry.node, path[1..]);
        assert directory + path == directory + [entry.name] + path[1..];
      }
    } else if directory + path in TraverseEntry(directory, entry) {
      assert directory + path == directory;
      assert |path| == 0;
    }
  }

  // ---------------------------------------------------------------- where paths lie

  ghost predicate AllBelow(directory: Path, paths: seq<Path>) {
    forall path :: path in paths ==> directory <= path
  }

  lemma {:induction false} PathsAreBelow(directory: Path, node: Node)
    ensures AllBelow(directory, Traverse(directory, node)) && AllBelow(directory, Collect(directory, node))
    decreases node
  {
    if node.Dir? {
      NestedPathsAreBelow(directory, node.entries);
    }
  }

  lemma {:induction false} NestedPathsAreBelow(directory: Path, entries: seq<Entry>)
    ensures AllBelow(directory, TraverseEntries(directory, entries)) && AllBelow(directory, CollectNested(directory, entries))
    decreases entries
  {
    if entries != [] {
      EntryPathsAreBelow(directory, entries[0]);
      NestedPathsAreBelow(directory, entries[1..]);
    }
  }

  lemma {:induction false} EntryPathsAreBelow(directory: Path, entry: Entry)
    ensures IsOpened(entry) ==> AllBelow(directory + [entry.name], TraverseEntry(directory, entry))
    ensures AllBelow(directory, TraverseEntry(directory, entry))
    ensures AllBelow(directory + [entry.name], CollectEntry(directory, entry))
    decreases entry
  {
    if IsOpened(entry) {
      PathsAreBelow(directory + [entry.name], entry.node);
    }
  }

  // ---------------------------------------------------------------- the walk for publishing finds the outermost

  /** Those of `paths` that have no proper ancestor in `all`, in order. A path is below those it extends. */
  ghost function Outermost(all: seq<Path>, paths: seq<Path>): seq<Path> {
    if paths == [] then []
    else (if HasAncestor(all, paths[0]) then [] else [paths[0]]) + Outermost(all, paths[1..])
  }

  ghost predicate HasAncestor(all: seq<Path>, path: Path) {
    exists other :: other in all && other < path
  }

  ghost predicate AreApart(a: seq<Path>, b: seq<Path>) {
    forall p, q :: p in a && q in b ==> !(p <= q) && !(q <= p)
  }

  lemma Regroup<T>(a: seq<T>, b: seq<T>, c: seq<T>)
    ensures a + (b + c) == a + b + c
  {
  }

  lemma {:induction false} OutermostOfBoth(all: seq<Path>, a: seq<Path>, b: seq<Path>)
    ensures Outermost(all, a + b) == Outermost(all, a) + Outermost(all, b)
  {
    hide HasAncestor;
    if a == [] {
      assert a + b == b;
    } else {
      var one: seq<Path> := if HasAncestor(all, a[0]) then [] else [a[0]];
      OutermostOfBoth(all, a[1..], b);
      assert (a + b)[1..] == a[1..] + b && (a + b)[0] == a[0];
      assert Outermost(all, a + b) == one + Outermost(all, a[1..] + b);
      Regroup(one, Outermost(all, a[1..]), Outermost(all, b));
      hide Outermost;
    }
  }

  lemma {:induction false} OutermostWithin(all: seq<Path>, some: seq<Path>, paths: seq<Path>)
    requires forall path :: path in paths ==> (HasAncestor(all, path) <==> HasAncestor(some, path))
    ensures Outermost(all, paths) == Outermost(some, paths)
  {
    if paths != [] {
      OutermostWithin(all, some, paths[1..]);
    }
  }

  lemma AncestorAmongBoth(a: seq<Path>, b: seq<Path>, path: Path)
    ensures HasAncestor(a + b, path) <==> HasAncestor(a, path) || HasAncestor(b, path)
  {
    forall other | other in a || other in b
      ensures other in a + b
    {
    }
  }

  lemma OutermostOfApart(a: seq<Path>, b: seq<Path>)
    requires AreApart(a, b)
    ensures Outermost(a + b, a + b) == Outermost(a, a) + Outermost(b, b)
  {
    OutermostOfBoth(a + b, a, b);
    forall path | path in a
      ensures HasAncestor(a + b, path) <==> HasAncestor(a, path)
    {
      AncestorAmongBoth(a, b, path);
      assert !HasAncestor(b, path);
    }
    forall path | path in b
      ensures HasAncestor(a + b, path) <==> HasAncestor(b, path)
    {
      AncestorAmongBoth(a, b, path);
      assert !HasAncestor(a, path);
    }
    OutermostWithin(a + b, a, a);
    OutermostWithin(a + b, b, b);
  }

  lemma {:induction false} NoneOutermost(all: seq<Path>, paths: seq<Path>)
    requires forall path :: path in paths ==> HasAncestor(all, path)
    ensures Outermost(all, paths) == []
  {
    if paths != [] {
      NoneOutermost(all, paths[1..]);
    }
  }

  /** Entries with different names have unrelated paths below them. */
  lemma SiblingsAreApart(directory: Path, a: string, b: string, ps: seq<Path>, qs: seq<Path>)
    requires a != b && AllBelow(directory + [a], ps) && AllBelow(directory + [b], qs)
    ensures AreApart(ps, qs)
  {
    forall p, q | p in ps && q in qs
      ensures !(p <= q) && !(q <= p)
    {
      assert p[|directory|] == (directory + [a])[|directory|] == a;
      assert q[|directory|] == (directory + [b])[|directory|] == b;
    }
  }

  /** Paths of one entry and of later ones, when none of them is a manifest. */
  lemma {:induction false} EntriesAreApart(directory: Path, first: Entry, rest: seq<Entry>)
    requires forall entry :: entry in rest ==> entry.name != first.name
    requires !IsManifest(first) && !HasManifest(rest)
    ensures AreApart(TraverseEntry(directory, first), TraverseEntries(directory, rest))
    ensures AreApart(CollectEntry(directory, first), CollectNested(directory, rest))
  {
    if rest != [] {
      var second := rest[0];
      EntriesAreApart(directory, first, rest[1..]);
      EntryPathsAreBelow(directory, first);
      EntryPathsAreBelow(directory, second);
      SiblingsAreApart(directory, first.name, second.name, TraverseEntry(directory, first), TraverseEntry(directory, second));
      SiblingsAreApart(directory, first.name, second.name, CollectEntry(directory, first), CollectEntry(directory, second));
    }
  }

  /** A directory that is a package hides everything below it. */
  lemma {:induction false} OnlyThePackageItself(directory: Path, all: seq<Path>, entries: seq<Entry>)
    requires HaveDistinctNames(entries)
    requires directory in all && AllBelow(directory, all)
    ensures Outermost(all, TraverseEntries(directory, entries)) == if HasManifest(entries) then [directory] else []
  {
    if entries != [] {
      var first, rest := entries[0], entries[1..];
      OnlyThePackageItself(directory, all, rest);
      OutermostOfBoth(all, TraverseEntry(directory, first), TraverseEntries(directory, rest));
      assert entries == [first] + rest;
      assert HasManifest(entries) <==> IsManifest(first) || HasManifest(rest);
      if IsOpened(first) {
        EntryPathsAreBelow(directory, first);
        assert directory < directory + [first.name];
        NoneOutermost(all, TraverseEntry(directory, first));
      } else if IsManifest(first) {
        assert !HasManifest(rest);
        assert !HasAncestor(all, directory);
        assert Outermost(all, [directory]) == [directory] + Outermost(all, []);
      }
    }
  }

  /**
   * Publishing takes exactly the packages of the full walk that lie in no other package, in the
   * same order.
   */
  lemma {:induction false} CollectsTheOutermost(directory: Path, node: Node)
    requires IsTree(node)
    ensures Collect(directory, node) == Outermost(Traverse(directory, node), Traverse(directory, node))
    decreases node
  {
    if node.Dir? {
      var entries := node.entries;
      if HasManifest(entries) {
        PathsAreBelow(directory, node);
        TraverseFindsExactly(directory, node, []);
        assert directory + [] == directory;
        OnlyThePackageItself(directory, Traverse(directory, node), entries);
      } else {
        CollectsTheOutermostNested(directory, entries);
      }
    }
  }

  lemma {:induction false} CollectsTheOutermostNested(directory: Path, entries: seq<Entry>)
    requires HaveDistinctNames(entries) && !HasManifest(entries)
    requires forall entry :: entry in entries ==> IsTree(entry.node)
    ensures CollectNested(directory, entries)
         == Outermost(TraverseEntries(directory, entries), TraverseEntries(directory, entries))
    decreases entries
  {
    if entries != [] {
      var first, rest := entries[0], entries[1..];
      assert entries == [first] + rest;
      CollectsTheOutermostNested(directory, rest);
      if IsOpened(first) {
        CollectsTheOutermost(directory + [first.name], first.node);
      }
      EntriesAreApart(directory, first, rest);
      OutermostOfApart(TraverseEntry(directory, first), TraverseEntries(directory, rest));
    }
  }

  // ---------------------------------------------------------------- no package inside another

  ghost predicate IsAntichain(paths: seq<Path>) {
    forall i, j :: 0 <= i < |paths| && 0 <= j < |paths| && i != j ==> !(paths[i] <= paths[j])
  }

  lemma AntichainOfApart(a: seq<Path>, b: seq<Path>)
    requires IsAntichain(a) && IsAntichain(b) && AreApart(a, b)
    ensures IsAntichain(a + b)
  {
    forall i, j | 0 <= i < |a + b| && 0 <= j < |a + b| && i != j
      ensures !((a + b)[i] <= (a + b)[j])
    {
      assert i < |a| <= j ==> (a + b)[i] in a && (a + b)[j] in b;
      assert j < |a| <= i ==> (a + b)[j] in a && (a + b)[i] in b;
    }
  }

  /** No package to publish lies in another, and none is listed twice. */
  lemma {:induction false} CollectIsAntichain(directory: Path, node: Node)
    requires IsTree(node)
    ensures IsAntichain(Collect(directory, node))
    decreases node
  {
    if node.Dir? && !HasManifest(node.entries) {
      NestedIsAntichain(directory, node.entries);
    }
  }

  lemma {:induction false} NestedIsAntichain(directory: Path, entries: seq<Entry>)
    requires HaveDistinctNames(entries) && !HasManifest(entries)
    requires forall entry :: entry in entries ==> IsTree(entry.node)
    ensures IsAntichain(CollectNested(directory, entries))
    decreases entries
  {
    if entries != [] {
      var first, rest := entries[0], entries[1..];
      assert entries == [first] + rest;
      NestedIsAntichain(directory, rest);
      if IsOpened(first) {
        CollectIsAntichain(directory + [first.name], first.node);
      }
      EntriesAreApart(directory, first, rest);
      AntichainOfApart(CollectEntry(directory, first), CollectNested(directory, rest));
    }
  }

  /** Every path has an outermost ancestor-or-self among the paths it belongs to. */
  lemma {:induction false} OutermostCovers(all: seq<Path>, path: Path)
    requires path in all
    ensures exists top :: top in Outermost(all, all) && top <= path
    decreases |path|
  {
    if HasAncestor(all, path) {
      var other :| other in all && other < path;
      OutermostCovers(all, other);
    } else {
      OutermostKeeps(all, all, path);
    }
  }

  lemma {:induction false} OutermostKeeps(all: seq<Path>, paths: seq<Path>, path: Path)
    requires path in paths && !HasAncestor(all, path)
    ensures path in Outermost(all, paths)
  {
    if paths[0] != path {
      OutermostKeeps(all, paths[1..], path);
    }
  }

  lemma AncestorsCompare(p: Path, q: Path, path: Path)
    requires p <= path && q <= path
    ensures p <= q || q <= p
  {
    assert |p| <= |q| ==> p == path[..|p|] && q == path[..|q|];
  }

  /** Every package of the full walk is published exactly once, on its own or inside another. */
  lemma EveryPackageIsPublishedOnce(directory: Path, node: Node, path: Path)
    requires IsTree(node) && path in Traverse(directory, node)
    ensures var published := Collect(directory, node);
            exists i :: && 0 <= i < |published| && published[i] <= path
                        && forall j :: 0 <= j < |published| && published[j] <= path ==> j == i
  {
    hide *;
    CollectsTheOutermost(directory, node);
    CollectIsAntichain(directory, node);
    OutermostCovers(Traverse(directory, node), path);
    OneAncestor(Collect(directory, node), path);
  }

  lemma OneAncestor(published: seq<Path>, path: Path)
    requires IsAntichain(published) && exists top :: top in published && top <= path
    ensures exists i :: && 0 <= i < |published| && published[i] <= path
                        && forall j :: 0 <= j < |published| && published[j] <= path ==> j == i
  {
    var i :| 0 <= i < |published| && published[i] <= path;
    forall j | 0 <= j < |published| && published[j] <= path
      ensures j == i
    {
      AncestorsCompare(published[i], published[j], path);
    }
  }

  // ---------------------------------------------------------------- the published list

  const CORE_ROOT: Path := ["packages", "qadams", "core"]
  const COMMUNITY_ROOT: Path := ["packages", "qadams", "community"]

  /** The packages below both roots; a root may be missing. */
  function Found(core: Option<Node>, community: Option<Node>): seq<Path> {
    (if core.Some? then Collect(CORE_ROOT, core.value) else [])
    + (if community.Some? then Collect(COMMUNITY_ROOT, community.value) else [])
  }

  function Join(path: Path): string {
    if path == [] then "" else if |path| == 1 then path[0] else path[0] + "/" + Join(path[1..])
  }

  function JoinAll(paths: seq<Path>): seq<string> {
    if paths == [] then [] else [Join(paths[0])] + JoinAll(paths[1..])
  }

  /** The order that sorting strings uses, character by character. */
  predicate AtMost(a: string, b: string) {
    a == [] || (b != [] && (a[0] < b[0] || (a[0] == b[0] && AtMost(a[1..], b[1..]))))
  }

  predicate IsSorted(names: seq<string>) {
    forall i, j :: 0 <= i <= j < |names| ==> AtMost(names[i], names[j])
  }

  function Insert(name: string, names: seq<string>): seq<string> {
    if names == [] || AtMost(name, names[0]) then [name] + names else [names[0]] + Insert(name, names[1..])
  }

  function Sort(names: seq<string>): seq<string> {
    if names == [] then [] else Insert(names[0], Sort(names[1..]))
  }

  function OfficialQadamPackagePaths(core: Option<Node>, community: Option<Node>): seq<string> {
    Sort(JoinAll(Found(core, community)))
  }

  /** The two roots share no package either, so nothing is published twice. */
  lemma FoundIsAntichain(core: Option<Node>, community: Option<Node>)
    requires core.Some? ==> IsTree(core.value)
    requires community.Some? ==> IsTree(community.value)
    ensures IsAntichain(Found(core, community))
  {
    var shared := ["packages", "qadams"];
    var inCore := if core.Some? then Collect(CORE_ROOT, core.value) else [];
    var inCommunity := if community.Some? then Collect(COMMUNITY_ROOT, community.value) else [];
    if core.Some? {
      CollectIsAntichain(CORE_ROOT, core.value);
      PathsAreBelow(CORE_ROOT, core.value);
    }
    if community.Some? {
      CollectIsAntichain(COMMUNITY_ROOT, community.value);
      PathsAreBelow(COMMUNITY_ROOT, community.value);
    }
    assert shared + ["core"] == CORE_ROOT && shared + ["community"] == COMMUNITY_ROOT;
    SiblingsAreApart(shared, "core", "community", inCore, inCommunity);
    AntichainOfApart(inCore, inCommunity);
  }

  // ---------------------------------------------------------------- the order of entries does not matter

  /** The same tree, read with its directories' entries in another order at every level. */
  ghost predicate IsShuffled(a: Node, b: Node)
    decreases a
  {
    match a
    case File => b.File?
    case Dir(entries) => b.Dir? && AreShuffled(entries, b.entries)
  }

  ghost predicate AreShuffled(a: seq<Entry>, b: seq<Entry>)
    decreases a
  {
    if a == [] then b == []
    else exists k :: 0 <= k < |b| && a[0].name == b[k].name && IsShuffled(a[0].node, b[k].node)
                     && AreShuffled(a[1..], b[..k] + b[k + 1..])
  }

  lemma {:induction false} CollectNestedOfBoth(directory: Path, a: seq<Entry>, b: seq<Entry>)
    ensures CollectNested(directory, a + b) == CollectNested(directory, a) + CollectNested(directory, b)
  {
    hide CollectEntry, Collect;
    if a == [] {
      assert a + b == b;
    } else {
      var one, more := CollectEntry(directory, a[0]), CollectNested(directory, a[1..]);
      CollectNestedOfBoth(directory, a[1..], b);
      assert (a + b)[1..] == a[1..] + b && (a + b)[0] == a[0];
      assert CollectNested(directory, a + b) == one + CollectNested(directory, a[1..] + b);
      Regroup(one, more, CollectNested(directory, b));
      hide CollectNested;
    }
  }

  lemma {:induction false} JoinAllOfBoth(a: seq<Path>, b: seq<Path>)
    ensures JoinAll(a + b) == JoinAll(a) + JoinAll(b)
  {
    if a == [] {
      assert a + b == b;
    } else {
      JoinAllOfBoth(a[1..], b);
      assert (a + b)[1..] == a[1..] + b;
    }
  }

  /** The names found below some entries, whatever their order. */
  ghost function NestedNames(directory: Path, entries: seq<Entry>): multiset<string> {
    multiset(JoinAll(CollectNested(directory, entries)))
  }

  lemma NestedNamesWithout(directory: Path, entries: seq<Entry>, k: nat)
    requires k < |entries|
    ensures NestedNames(directory, entries)
         == multiset(JoinAll(CollectEntry(directory, entries[k]))) + NestedNames(directory, entries[..k] + entries[k + 1..])
  {
    var before, after := entries[..k], entries[k + 1..];
    var one := CollectEntry(directory, entries[k]);
    assert entries == before + ([entries[k]] + after);
    CollectNestedOfBoth(directory, before, [entries[k]] + after);
    CollectNestedOfBoth(directory, before, after);
    assert ([entries[k]] + after)[1..] == after;
    JoinAllOfBoth(CollectNested(directory, before), one + CollectNested(directory, after));
    JoinAllOfBoth(one, CollectNested(directory, after));
    JoinAllOfBoth(CollectNested(directory, before), CollectNested(directory, after));
  }

  /** The entry of `b` that the first one of `a` became. */
  lemma MatchOfFirst(a: seq<Entry>, b: seq<Entry>) returns (k: nat)
    requires a != [] && AreShuffled(a, b)
    ensures k < |b| && a[0].name == b[k].name && IsShuffled(a[0].node, b[k].node)
    ensures AreShuffled(a[1..], b[..k] + b[k + 1..])
  {
    k :| 0 <= k < |b| && a[0].name == b[k].name && IsShuffled(a[0].node, b[k].node)
         && AreShuffled(a[1..], b[..k] + b[k + 1..]);
  }

  lemma ManifestWithout(entries: seq<Entry>, k: nat)
    requires k < |entries|
    ensures HasManifest(entries) <==> IsManifest(entries[k]) || HasManifest(entries[..k] + entries[k + 1..])
  {
    hide IsManifest;
    assert entries == entries[..k] + [entries[k]] + entries[k + 1..];
  }

  lemma SameManifest(a: Entry, b: Entry)
    requires a.name == b.name && IsShuffled(a.node, b.node)
    ensures IsManifest(a) <==> IsManifest(b)
  {
  }

  lemma {:induction false} ShuffledManifest(a: seq<Entry>, b: seq<Entry>)
    requires AreShuffled(a, b)
    ensures HasManifest(a) <==> HasManifest(b)
  {
    if a == [] {
      assert b == [];
    } else {
      hide *;
      var k := MatchOfFirst(a, b);
      ShuffledManifest(a[1..], b[..k] + b[k + 1..]);
      SameManifest(a[0], b[k]);
      ManifestWithout(a, 0);
      ManifestWithout(b, k);
      assert a[..0] + a[1..] == a[1..];
    }
  }

  lemma {:induction false} ShuffledFindsTheSame(directory: Path, a: Node, b: Node)
    requires IsShuffled(a, b)
    ensures multiset(JoinAll(Collect(directory, a))) == multiset(JoinAll(Collect(directory, b)))
    decreases a
  {
    if a.Dir? {
      ShuffledManifest(a.entries, b.entries);
      ShuffledNested(directory, a.entries, b.entries);
    }
  }

  lemma {:induction false} ShuffledEntry(directory: Path, a: Entry, b: Entry)
    requires a.name == b.name && IsShuffled(a.node, b.node)
    ensures multiset(JoinAll(CollectEntry(directory, a))) == multiset(JoinAll(CollectEntry(directory, b)))
    decreases a
  {
    if IsOpened(a) {
      ShuffledFindsTheSame(directory + [a.name], a.node, b.node);
    }
  }

  lemma {:induction false} ShuffledNested(directory: Path, a: seq<Entry>, b: seq<Entry>)
    requires AreShuffled(a, b)
    ensures NestedNames(directory, a) == NestedNames(directory, b)
    decreases a
  {
    if a == [] {
      assert b == [];
    } else {
      hide *;
      var k := MatchOfFirst(a, b);
      ShuffledEntry(directory, a[0], b[k]);
      ShuffledNested(directory, a[1..], b[..k] + b[k + 1..]);
      NestedNamesWithout(directory, a, 0);
      NestedNamesWithout(directory, b, k);
      assert a[..0] + a[1..] == a[1..];
    }
  }

  // ---------------------------------------------------------------- sorting

  lemma {:induction false} AtMostIsTotal(a: string, b: string)
    ensures AtMost(a, b) || AtMost(b, a)
    ensures AtMost(a, b) && AtMost(b, a) ==> a == b
  {
    if a != [] && b != [] && a[0] == b[0] {
      AtMostIsTotal(a[1..], b[1..]);
      assert a == [a[0]] + a[1..] && b == [b[0]] + b[1..];
    }
  }

  /** Whether the texts agree up to `i` and the first has the smaller character there. */
  predicate FallsBehind(a: string, b: string, i: int) {
    0 <= i < |a| && i < |b| && a[i] < b[i] && a[..i] == b[..i]
  }

  /** Where two texts first differ decides; a text comes before those it begins. */
  ghost predicate ComesFirst(a: string, b: string) {
    a <= b || exists i :: FallsBehind(a, b, i)
  }

  lemma FallsBehindLater(a: string, b: string, i: int)
    requires a != "" && b != "" && a[0] == b[0]
    ensures FallsBehind(a, b, i + 1) <==> FallsBehind(a[1..], b[1..], i)
  {
    if 0 <= i < |a| - 1 && i < |b| - 1 {
      assert a[..i + 1] == [a[0]] + a[1..][..i] && b[..i + 1] == [b[0]] + b[1..][..i];
      assert a[..i + 1][1..] == a[1..][..i] && b[..i + 1][1..] == b[1..][..i];
    }
  }

  lemma {:induction false} AtMostByFirstDifference(a: string, b: string)
    ensures AtMost(a, b) <==> ComesFirst(a, b)
  {
    if a != "" && b != "" {
      if a[0] == b[0] {
        AtMostByFirstDifference(a[1..], b[1..]);
        SameFirst(a, b);
      } else {
        assert FallsBehind(a, b, 0) <==> a[0] < b[0];
      }
    }
  }

  lemma SameFirst(a: string, b: string)
    requires a != "" && b != "" && a[0] == b[0]
    ensures ComesFirst(a, b) <==> ComesFirst(a[1..], b[1..])
  {
    assert a == [a[0]] + a[1..] && b == [b[0]] + b[1..];
    assert a <= b <==> a[1..] <= b[1..];
    assert !FallsBehind(a, b, 0);
    if i :| FallsBehind(a, b, i) {
      assert FallsBehind(a[1..], b[1..], i - 1) by { FallsBehindLater(a, b, i - 1); }
    }
    if i :| FallsBehind(a[1..], b[1..], i) {
      assert FallsBehind(a, b, i + 1) by { FallsBehindLater(a, b, i); }
    }
    hide FallsBehind;
  }

  lemma {:induction false} AtMostIsTransitive(a: string, b: string, c: string)
    requires AtMost(a, b) && AtMost(b, c)
    ensures AtMost(a, c)
  {
    if a != [] && a[0] == b[0] == c[0] {
      AtMostIsTransitive(a[1..], b[1..], c[1..]);
    }
  }

  lemma SortedWithFirst(first: string, rest: seq<string>)
    requires IsSorted(rest) && forall name :: name in multiset(rest) ==> AtMost(first, name)
    ensures IsSorted([first] + rest)
  {
    AtMostIsTotal(first, first);
    hide AtMost;
    forall j | 0 <= j < |rest|
      ensures AtMost(first, rest[j])
    {
      assert rest[j] in multiset(rest);
    }
  }

  lemma {:induction false} InsertKeepsAll(name: string, names: seq<string>)
    ensures multiset(Insert(name, names)) == multiset(names) + multiset{name}
  {
    hide AtMost;
    if names != [] {
      assert names == [names[0]] + names[1..];
      if !AtMost(name, names[0]) {
        InsertKeepsAll(name, names[1..]);
      }
    }
  }

  lemma {:induction false} InsertSorts(name: string, names: seq<string>)
    requires IsSorted(names)
    ensures IsSorted(Insert(name, names))
  {
    hide AtMost;
    if names == [] || AtMost(name, names[0]) {
      forall other | other in multiset(names)
        ensures AtMost(name, other)
      {
        AtMostIsTransitive(name, names[0], other);
      }
      SortedWithFirst(name, names);
    } else {
      var rest := Insert(name, names[1..]);
      InsertSorts(name, names[1..]);
      InsertKeepsAll(name, names[1..]);
      AtMostIsTotal(name, names[0]);
      forall other | other in multiset(rest)
        ensures AtMost(names[0], other)
      {
        assert other == name || other in names[1..];
      }
      SortedWithFirst(names[0], rest);
    }
  }

  lemma {:induction false} SortSorts(names: seq<string>)
    ensures IsSorted(Sort(names)) && multiset(Sort(names)) == multiset(names)
  {
    if names != [] {
      SortSorts(names[1..]);
      InsertSorts(names[0], Sort(names[1..]));
      InsertKeepsAll(names[0], Sort(names[1..]));
      assert names == [names[0]] + names[1..];
    }
  }

  lemma SortedLeast(names: seq<string>, name: string)
    requires IsSorted(names) && name in multiset(names)
    ensures names != [] && AtMost(names[0], name)
  {
    hide AtMost;
    var i :| 0 <= i < |names| && names[i] == name;
  }

  lemma SortedTail(names: seq<string>)
    requires names != [] && IsSorted(names)
    ensures IsSorted(names[1..]) && multiset(names[1..]) == multiset(names) - multiset{names[0]}
  {
    hide AtMost;
    assert names == [names[0]] + names[1..];
  }

  lemma {:induction false} SortedIsUnique(a: seq<string>, b: seq<string>)
    requires IsSorted(a) && IsSorted(b) && multiset(a) == multiset(b)
    ensures a == b
  {
    hide *;
    assert |a| == |multiset(a)| == |multiset(b)| == |b|;
    if a != [] {
      SortedLeast(a, b[0]);
      SortedLeast(b, a[0]);
      AtMostIsTotal(a[0], b[0]);
      SortedTail(a);
      SortedTail(b);
      SortedIsUnique(a[1..], b[1..]);
      assert a == [a[0]] + a[1..] && b == [b[0]] + b[1..];
    }
  }

  /**
   * The published list is the sorted list of the packages found, and is identical however the file
   * system orders the entries of any directory.
   */
  lemma ListIgnoresDirectoryOrder(core: Option<Node>, community: Option<Node>, core2: Option<Node>, community2: Option<Node>)
    requires core.Some? == core2.Some? && (core.Some? ==> IsShuffled(core.value, core2.value))
    requires community.Some? == community2.Some? && (community.Some? ==> IsShuffled(community.value, community2.value))
    ensures OfficialQadamPackagePaths(core, community) == OfficialQadamPackagePaths(core2, community2)
    ensures IsSorted(OfficialQadamPackagePaths(core, community))
    ensures multiset(OfficialQadamPackagePaths(core, community)) == multiset(JoinAll(Found(core, community)))
  {
    FoundNames(core, community);
    FoundNames(core2, community2);
    if core.Some? {
      ShuffledFindsTheSame(CORE_ROOT, core.value, core2.value);
    }
    if community.Some? {
      ShuffledFindsTheSame(COMMUNITY_ROOT, community.value, community2.value);
    }
    SortSorts(JoinAll(Found(core, community)));
    SortSorts(JoinAll(Found(core2, community2)));
    SortedIsUnique(OfficialQadamPackagePaths(core, community), OfficialQadamPackagePaths(core2, community2));
  }

  lemma FoundNames(core: Option<Node>, community: Option<Node>)
    ensures multiset(JoinAll(Found(core, community)))
         == (if core.Some? then multiset(JoinAll(Collect(CORE_ROOT, core.value))) else multiset{})
          + (if community.Some? then multiset(JoinAll(Collect(COMMUNITY_ROOT, community.value))) else multiset{})
  {
    JoinAllOfBoth(if core.Some? then Collect(CORE_ROOT, core.value) else [],
                  if community.Some? then Collect(COMMUNITY_ROOT, community.value) else []);
  }

  // ---------------------------------------------------------------- the published list has no repeats

  ghost predicate IsPlain(path: Path) {
    forall name :: name in path ==> '/' !in name
  }

  /** No name in a file system holds the separator. */
  ghost predicate HasPlainNames(node: Node) {
    node.Dir? ==> forall entry :: entry in node.entries ==> '/' !in entry.name && HasPlainNames(entry.node)
  }

  ghost predicate ArePlain(paths: seq<Path>) {
    forall path :: path in paths ==> path != [] && IsPlain(path)
  }

  lemma {:induction false} CollectIsPlain(directory: Path, node: Node)
    requires directory != [] && IsPlain(directory) && HasPlainNames(node)
    ensures ArePlain(Collect(directory, node))
    decreases node
  {
    if node.Dir? {
      NestedIsPlain(directory, node.entries);
    }
  }

  lemma {:induction false} NestedIsPlain(directory: Path, entries: seq<Entry>)
    requires directory != [] && IsPlain(directory)
    requires forall entry :: entry in entries ==> '/' !in entry.name && HasPlainNames(entry.node)
    ensures ArePlain(CollectNested(directory, entries))
    decreases entries
  {
    if entries != [] {
      var first := entries[0];
      NestedIsPlain(directory, entries[1..]);
      if IsOpened(first) {
        CollectIsPlain(directory + [first.name], first.node);
      }
    }
  }

  function BeforeSeparator(s: string): string {
    if s == "" || s[0] == '/' then "" else [s[0]] + BeforeSeparator(s[1..])
  }

  lemma {:induction false} BeforeSeparatorOf(name: string, rest: string)
    requires '/' !in name && (rest == "" || rest[0] == '/')
    ensures BeforeSeparator(name + rest) == name
  {
    if name == "" {
      assert name + rest == rest;
    } else {
      BeforeSeparatorOf(name[1..], rest);
      assert (name + rest)[1..] == name[1..] + rest;
    }
  }

  /** What the text of a path has after its first name. */
  function JoinRest(path: Path): string
    requires path != []
  {
    if |path| == 1 then "" else "/" + Join(path[1..])
  }

  lemma FirstOfJoin(path: Path)
    requires path != [] && IsPlain(path)
    ensures Join(path) == path[0] + JoinRest(path) && BeforeSeparator(Join(path)) == path[0]
  {
    assert path[0] in path;
    BeforeSeparatorOf(path[0], JoinRest(path));
    if |path| > 1 {
      assert path[0] + "/" + Join(path[1..]) == path[0] + JoinRest(path);
    } else {
      assert path[0] + "" == path[0];
    }
  }

  /** Paths are told apart by their text. */
  lemma {:induction false} JoinIsInjective(a: Path, b: Path)
    requires a != [] && b != [] && IsPlain(a) && IsPlain(b) && Join(a) == Join(b)
    ensures a == b
    decreases |a|
  {
    FirstOfJoin(a);
    FirstOfJoin(b);
    hide Join, BeforeSeparator;
    assert JoinRest(a) == Join(a)[|a[0]|..] && JoinRest(b) == Join(b)[|b[0]|..];
    if |a| > 1 {
      assert Join(a[1..]) == JoinRest(a)[1..] && Join(b[1..]) == JoinRest(b)[1..];
      JoinIsInjective(a[1..], b[1..]);
      assert a == [a[0]] + a[1..] && b == [b[0]] + b[1..];
    }
  }

  ghost predicate AreDistinct(names: seq<string>) {
    forall i, j :: 0 <= i < j < |names| ==> names[i] != names[j]
  }

  lemma {:induction false} JoinAllAt(paths: seq<Path>, i: nat)
    requires i < |paths|
    ensures |JoinAll(paths)| == |paths| && JoinAll(paths)[i] == Join(paths[i])
  {
    hide Join;
    if |paths| > 1 {
      JoinAllAt(paths[1..], if i == 0 then 0 else i - 1);
    }
  }

  lemma JoinAllIsDistinct(paths: seq<Path>)
    requires IsAntichain(paths) && ArePlain(paths)
    ensures AreDistinct(JoinAll(paths))
  {
    hide Join;
    if paths != [] {
      JoinAllAt(paths, 0);
    }
    forall i, j | 0 <= i < j < |JoinAll(paths)|
      ensures JoinAll(paths)[i] != JoinAll(paths)[j]
    {
      JoinAllAt(paths, i);
      JoinAllAt(paths, j);
      if Join(paths[i]) == Join(paths[j]) {
        JoinIsInjective(paths[i], paths[j]);
      }
    }
  }

  lemma {:induction false} DistinctOccurOnce(names: seq<string>)
    requires AreDistinct(names)
    ensures forall name :: multiset(names)[name] <= 1
  {
    if names != [] {
      DistinctOccurOnce(names[1..]);
      assert names == [names[0]] + names[1..];
      assert names[0] !in names[1..];
    }
  }

  lemma RepeatsCount(names: seq<string>, i: nat, j: nat)
    requires i < j < |names| && names[i] == names[j]
    ensures multiset(names)[names[i]] >= 2
  {
    var before, after := names[..j], names[j + 1..];
    assert names == before + [names[j]] + after;
    assert before[i] == names[i];
    assert names[i] in before;
  }

  lemma OccurOnceIsDistinct(names: seq<string>)
    requires forall name :: multiset(names)[name] <= 1
    ensures AreDistinct(names)
  {
    forall i, j | 0 <= i < j < |names|
      ensures names[i] != names[j]
    {
      if names[i] == names[j] {
        RepeatsCount(names, i, j);
      }
    }
  }

  /** The published list is strictly ascending: no package is in it twice. */
  lemma ListIsStrictlyAscending(core: Option<Node>, community: Option<Node>)
    requires core.Some? ==> IsTree(core.value) && HasPlainNames(core.value)
    requires community.Some? ==> IsTree(community.value) && HasPlainNames(community.value)
    ensures var list := OfficialQadamPackagePaths(core, community);
            forall i, j :: 0 <= i < j < |list| ==> AtMost(list[i], list[j]) && list[i] != list[j]
  {
    FoundIsAntichain(core, community);
    if core.Some? {
      CollectIsPlain(CORE_ROOT, core.value);
    }
    if community.Some? {
      CollectIsPlain(COMMUNITY_ROOT, community.value);
    }
    var found := Found(core, community);
    assert ArePlain(found);
    hide *;
    JoinAllIsDistinct(found);
    SortSorts(JoinAll(found));
    ListIsSortedAndDistinct(core, community);
  }

  lemma ListIsSortedAndDistinct(core: Option<Node>, community: Option<Node>)
    requires AreDistinct(JoinAll(Found(core, community)))
    ensures var list := OfficialQadamPackagePaths(core, community);
            forall i, j :: 0 <= i < j < |list| ==> AtMost(list[i], list[j]) && list[i] != list[j]
  {
    hide Found, JoinAll, Sort, AtMost;
    var names := JoinAll(Found(core, community));
    SortSorts(names);
    DistinctOccurOnce(names);
    OccurOnceIsDistinct(Sort(names));
  }

  // ---------------------------------------------------------------- exactly what is published

  /** A package below `node` that lies in no other package there. */
  ghost predicate IsOutermostPackage(node: Node, path: Path) {
    IsPackage(node, path) && forall k :: 0 <= k < |path| ==> !IsPackage(node, path[..k])
  }

  lemma {:induction false} InOutermostExactly(all: seq<Path>, paths: seq<Path>, path: Path)
    ensures path in Outermost(all, paths) <==> path in paths && !HasAncestor(all, path)
  {
    hide HasAncestor;
    if paths != [] {
      InOutermostExactly(all, paths[1..], path);
      assert paths == [paths[0]] + paths[1..];
    }
  }

  lemma AncestorsBelow(directory: Path, node: Node, path: Path)
    ensures HasAncestor(Traverse(directory, node), directory + path)
            <==> exists k :: 0 <= k < |path| && IsPackage(node, path[..k])
  {
    var all, whole := Traverse(directory, node), directory + path;
    PathsAreBelow(directory, node);
    hide Traverse, IsPackage;
    if HasAncestor(all, whole) {
      var other :| other in all && other < whole;
      var k := |other| - |directory|;
      assert directory <= other;
      assert other == directory + path[..k];
      TraverseFindsExactly(directory, node, path[..k]);
    }
    if k :| 0 <= k < |path| && IsPackage(node, path[..k]) {
      TraverseFindsExactly(directory, node, path[..k]);
      assert directory + path[..k] < whole;
    }
  }

  /** The walk for publishing finds exactly the outermost packages. */
  lemma CollectFindsExactly(directory: Path, node: Node, path: Path)
    requires IsTree(node)
    ensures directory + path in Collect(directory, node) <==> IsOutermostPackage(node, path)
  {
    CollectsTheOutermost(directory, node);
    InOutermostExactly(Traverse(directory, node), Traverse(directory, node), directory + path);
    TraverseFindsExactly(directory, node, path);
    AncestorsBelow(directory, node, path);
    hide Collect, Traverse, Outermost, HasAncestor, IsPackage;
  }

  /** Whether a path is an outermost package of one of the two roots. */
  ghost predicate IsOfficial(core: Option<Node>, community: Option<Node>, path: Path) {
    exists rest ::
      || (core.Some? && path == ["packages", "qadams", "core"] + rest && IsOutermostPackage(core.value, rest))
      || (community.Some? && path == ["packages", "qadams", "community"] + rest && IsOutermostPackage(community.value, rest))
  }

  lemma FoundExactly(core: Option<Node>, community: Option<Node>, path: Path)
    requires core.Some? ==> IsTree(core.value)
    requires community.Some? ==> IsTree(community.value)
    ensures path in Found(core, community) <==> IsOfficial(core, community, path)
  {
    var inCore := if core.Some? then Collect(CORE_ROOT, core.value) else [];
    var inCommunity := if community.Some? then Collect(COMMUNITY_ROOT, community.value) else [];
    assert path in Found(core, community) <==> path in inCore || path in inCommunity;
    if core.Some? {
      PathsAreBelow(CORE_ROOT, core.value);
      forall rest
        ensures CORE_ROOT + rest in inCore <==> IsOutermostPackage(core.value, rest)
      {
        CollectFindsExactly(CORE_ROOT, core.value, rest);
      }
      assert path in inCore ==> path == CORE_ROOT + path[|CORE_ROOT|..];
    }
    if community.Some? {
      PathsAreBelow(COMMUNITY_ROOT, community.value);
      forall rest
        ensures COMMUNITY_ROOT + rest in inCommunity <==> IsOutermostPackage(community.value, rest)
      {
        CollectFindsExactly(COMMUNITY_ROOT, community.value, rest);
      }
      assert path in inCommunity ==> path == COMMUNITY_ROOT + path[|COMMUNITY_ROOT|..];
    }
    hide Collect, IsOutermostPackage, Found;
  }

  lemma {:induction false} InJoinAll(paths: seq<Path>, name: string)
    ensures name in JoinAll(paths) <==> exists path :: path in paths && Join(path) == name
  {
    hide Join;
    if paths != [] {
      InJoinAll(paths[1..], name);
      assert JoinAll(paths) == [Join(paths[0])] + JoinAll(paths[1..]);
      assert paths[0] in paths;
      assert forall path :: path in paths <==> path == paths[0] || path in paths[1..] by {
        assert paths == [paths[0]] + paths[1..];
      }
    }
  }

  /** The published list names exactly the outermost packages of the two roots. */
  lemma ListNamesExactly(core: Option<Node>, community: Option<Node>, name: string)
    requires core.Some? ==> IsTree(core.value)
    requires community.Some? ==> IsTree(community.value)
    ensures name in OfficialQadamPackagePaths(core, community)
            <==> exists path :: IsOfficial(core, community, path) && Join(path) == name
  {
    var names := JoinAll(Found(core, community));
    SortSorts(names);
    assert name in Sort(names) <==> name in multiset(Sort(names));
    InJoinAll(Found(core, community), name);
    forall path
      ensures path in Found(core, community) <==> IsOfficial(core, community, path)
    {
      FoundExactly(core, community, path);
    }
    hide Found, IsOfficial, Sort, JoinAll, Join;
  }
}
