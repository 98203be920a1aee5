/**
 * Publishing one package: its manifest is checked as written, a copy in the build output is
 * prepared and completed, and the copy is checked again before it is packed.
 */
module PublishPackage {
  import opened Wrappers
  import opened WorkspaceUtils

  datatype Manifest = Manifest(
    name: string, version: string,
    dependencies: Option<seq<Dep>>, devDependencies: Option<seq<Dep>>, peerDependencies: Option<seq<Dep>>,
    entry: Option<string>, types: Option<string>, license: Option<string>, repository: Option<string>)

  datatype Field = Dependencies | DevDependencies | PeerDependencies

  const DEP_FIELDS: seq<Field> := [Dependencies, DevDependencies, PeerDependencies]

  /** A missing field has no entries. */
  function DepsOf(json: Manifest, field: Field): seq<Dep> {
    var deps := match field
      case Dependencies => json.dependencies
      case DevDependencies => json.devDependencies
      case PeerDependencies => json.peerDependencies;
    if deps.Some? then deps.value else []
  }

  // ---------------------------------------------------------------- the two assertions

  datatype Check = NoSemverRanges | NoUnresolvedWorkspaceDeps

  predicate Offends(check: Check, dep: Dep) {
    match check
    case NoSemverRanges => !IsWorkspace(dep) && !IsExactVersion(dep.version)
    case NoUnresolvedWorkspaceDeps => IsWorkspace(dep)
  }

  datatype Finding = Finding(field: Field, dep: Dep)

  function FindingsIn(check: Check, field: Field, deps: seq<Dep>): seq<Finding> {
    if deps == [] then []
    else
      var last := deps[|deps| - 1];
      FindingsIn(check, field, deps[..|deps| - 1]) + if Offends(check, last) then [Finding(field, last)] else []
  }

  function FindingsOf(check: Check, json: Manifest, fields: seq<Field>): seq<Finding> {
    if fields == [] then []
    else
      var last := fields[|fields| - 1];
      FindingsOf(check, json, fields[..|fields| - 1]) + FindingsIn(check, last, DepsOf(json, last))
  }

  predicate Passes(check: Check, json: Manifest) {
    forall field: Field, k :: 0 <= k < |DepsOf(json, field)| ==> !Offends(check, DepsOf(json, field)[k])
  }

  datatype Refusal =
    | Found(check: Check, findings: seq<Finding>)
    | CannotPrepare(problem: Problem)

  /** Collects what offends, field by field; `None` lets the publish go on. */
  method Assert(check: Check, json: Manifest) returns (r: Option<Refusal>)
    ensures var findings := FindingsOf(check, json, DEP_FIELDS);
            r == if findings == [] then None else Some(Found(check, findings))
    ensures r.None? <==> Passes(check, json)
  {
    hide Offends, DepsOf, Passes;
    var findings: seq<Finding> := [];
    for f := 0 to |DEP_FIELDS|
      invariant findings == FindingsOf(check, json, DEP_FIELDS[..f])
    {
      var field := DEP_FIELDS[f];
      var deps := DepsOf(json, field);
      ghost var before := findings;
      for i := 0 to |deps|
        invariant findings == before + FindingsIn(check, field, deps[..i])
      {
        assert deps[..i + 1][..i] == deps[..i];
        if Offends(check, deps[i]) {
          findings := findings + [Finding(field, deps[i])];
        }
      }
      assert deps[..|deps|] == deps;
      assert DEP_FIELDS[..f + 1][..f] == DEP_FIELDS[..f];
    }
    assert DEP_FIELDS[..|DEP_FIELDS|] == DEP_FIELDS;
    NoFindingsExactly(check, json);
    return if findings == [] then None else Some(Found(check, findings));
  }

  lemma {:induction false} NothingIn(check: Check, field: Field, deps: seq<Dep>)
    ensures FindingsIn(check, field, deps) == [] <==> forall k :: 0 <= k < |deps| ==> !Offends(check, deps[k])
  {
    hide Offends;
    if deps != [] {
      NothingIn(check, field, deps[..|deps| - 1]);
      assert deps == deps[..|deps| - 1] + [deps[|deps| - 1]];
    }
  }

  lemma {:induction false} NothingInAny(check: Check, json: Manifest, fields: seq<Field>)
    ensures FindingsOf(check, json, fields) == []
            <==> forall field :: field in fields ==> forall k :: 0 <= k < |DepsOf(json, field)| ==> !Offends(check, DepsOf(json, field)[k])
  {
    hide Offends, DepsOf;
    if fields != [] {
      var front, last := fields[..|fields| - 1], fields[|fields| - 1];
      NothingInAny(check, json, front);
      NothingIn(check, last, DepsOf(json, last));
      assert fields == front + [last];
    }
  }

  lemma NoFindingsExactly(check: Check, json: Manifest)
    ensures FindingsOf(check, json, DEP_FIELDS) == [] <==> Passes(check, json)
  {
    hide Offends, DepsOf, FindingsOf;
    NothingInAny(check, json, DEP_FIELDS);
    assert DEP_FIELDS[0] == Dependencies && DEP_FIELDS[1] == DevDependencies && DEP_FIELDS[2] == PeerDependencies;
    forall field: Field
      ensures field in DEP_FIELDS
    {
      assert field.Dependencies? || field.DevDependencies? || field.PeerDependencies?;
    }
  }

  predicate AllExact(deps: Option<seq<Dep>>) {
    deps.Some? ==> forall k :: 0 <= k < |deps.value| ==> IsExactVersion(deps.value[k].version)
  }

  /** Both assertions together let exactly the manifests through whose versions are all exact. */
  lemma BothPassExactly(json: Manifest)
    ensures Passes(NoSemverRanges, json) && Passes(NoUnresolvedWorkspaceDeps, json)
            <==> AllExact(json.dependencies) && AllExact(json.devDependencies) && AllExact(json.peerDependencies)
  {
    forall field: Field, k | 0 <= k < |DepsOf(json, field)|
      ensures IsExactVersion(DepsOf(json, field)[k].version)
              <==> !Offends(NoSemverRanges, DepsOf(json, field)[k]) && !Offends(NoUnresolvedWorkspaceDeps, DepsOf(json, field)[k])
    {
      var dep := DepsOf(json, field)[k];
      if IsExactVersion(dep.version) {
        ExactIsPlain(dep.version);
      }
    }
    FieldsAre(json);
    hide IsExactVersion, DepsOf, Offends;
    assert forall field: Field :: field.Dependencies? || field.DevDependencies? || field.PeerDependencies?;
  }

  lemma FieldsAre(json: Manifest)
    ensures DepsOf(json, Dependencies) == (match json.dependencies case Some(deps) => deps case None => [])
    ensures DepsOf(json, DevDependencies) == (match json.devDependencies case Some(deps) => deps case None => [])
    ensures DepsOf(json, PeerDependencies) == (match json.peerDependencies case Some(deps) => deps case None => [])
  {
  }

  /** The findings are those of the three fields, each under its own name. */
  lemma FindingsByField(check: Check, json: Manifest)
    ensures FindingsOf(check, json, DEP_FIELDS)
         == FindingsIn(check, Dependencies, match json.dependencies case Some(deps) => deps case None => [])
          + FindingsIn(check, DevDependencies, match json.devDependencies case Some(deps) => deps case None => [])
          + FindingsIn(check, PeerDependencies, match json.peerDependencies case Some(deps) => deps case None => [])
  {
    FieldsAre(json);
    hide FindingsIn, DepsOf;
    var one, two: seq<Field> := [Dependencies], [Dependencies, DevDependencies];
    assert one[..0] == [] && two[..1] == one && DEP_FIELDS[..2] == two && DEP_FIELDS[2] == PeerDependencies;
    var a := FindingsIn(check, Dependencies, DepsOf(json, Dependencies));
    assert FindingsOf(check, json, one) == [] + a == a;
    assert FindingsOf(check, json, two) == a + FindingsIn(check, DevDependencies, DepsOf(json, DevDependencies));
  }

  /** The findings of a list are those of its parts, one after the other; an entry alone is one exactly if it offends. */
  lemma {:induction false} FindingsOfBoth(check: Check, field: Field, a: seq<Dep>, b: seq<Dep>)
    ensures FindingsIn(check, field, a + b) == FindingsIn(check, field, a) + FindingsIn(check, field, b)
  {
    hide Offends;
    if b == [] {
      assert a + b == a;
    } else {
      var front, last := b[..|b| - 1], b[|b| - 1];
      FindingsOfBoth(check, field, a, front);
      assert (a + b)[..|a + b| - 1] == a + front && (a + b)[|a + b| - 1] == last;
    }
  }

  lemma FindingsOfOne(field: Field, dep: Dep)
    ensures FindingsIn(NoSemverRanges, field, [dep])
         == if "workspace:" <= dep.version || IsExactVersion(dep.version) then [] else [Finding(field, dep)]
    ensures FindingsIn(NoUnresolvedWorkspaceDeps, field, [dep])
         == if "workspace:" <= dep.version then [Finding(field, dep)] else []
  {
    hide IsExactVersion;
    assert [dep][..0] == [];
  }

  // ---------------------------------------------------------------- preparing

  ghost predicate IsPreparableField(deps: Option<seq<Dep>>, versions: VersionMap) {
    deps.Some? ==> forall k :: 0 <= k < |deps.value| ==> IsPreparable(deps.value[k], versions)
  }

  /** Entry by entry, in the same order. */
  ghost predicate IsPreparedField(deps: Option<seq<Dep>>, versions: VersionMap, after: Option<seq<Dep>>) {
    && deps.Some? == after.Some?
    && (deps.Some? ==>
          && |after.value| == |deps.value|
          && forall k :: 0 <= k < |deps.value| ==>
               IsPreparable(deps.value[k], versions) && after.value[k] == Prepared(deps.value[k], versions))
  }

  ghost predicate IsPreparableManifest(json: Manifest, versions: VersionMap) {
    && IsPreparableField(json.dependencies, versions)
    && IsPreparableField(json.devDependencies, versions)
    && IsPreparableField(json.peerDependencies, versions)
  }

  /** What the three fields become; nothing is said of the others. */
  ghost predicate ArePrepared(json: Manifest, versions: VersionMap, after: Manifest) {
    && IsPreparedField(json.dependencies, versions, after.dependencies)
    && IsPreparedField(json.devDependencies, versions, after.devDependencies)
    && IsPreparedField(json.peerDependencies, versions, after.peerDependencies)
  }

  method PrepareField(deps: Option<seq<Dep>>, versions: VersionMap) returns (r: Result<Option<seq<Dep>>, Problem>)
    ensures r.Success? <==> IsPreparableField(deps, versions)
    ensures r.Success? ==> IsPreparedField(deps, versions, r.value)
  {
    hide IsExactVersion, Pinned, IsWorkspace;
    var resolved := ResolveWorkspaceDependencies(deps, versions);
    if resolved.Failure? {
      return resolved;
    }
    r := StripSemverRanges(resolved.value);
  }

  class Package {
    /** The manifest in the source tree. */
    const source: Manifest
    /** The manifest in the build output. */
    var dist: Manifest

    constructor (source: Manifest, dist: Manifest)
      ensures this.source == source && this.dist == dist
    {
      this.source := source;
      this.dist := dist;
    }

    method PrepareDist(versions: VersionMap) returns (r: Option<Problem>)
      modifies `dist
      ensures r.None? <==> IsPreparableManifest(source, versions)
      ensures r.None? ==>
                && ArePrepared(source, versions, dist)
                && dist == source.(dependencies := dist.dependencies, devDependencies := dist.devDependencies,
                                   peerDependencies := dist.peerDependencies)
      ensures r.Some? ==> dist == source
    {
      dist := source;
      var json := dist;
      var field := PrepareField(json.dependencies, versions);
      if field.Failure? {
        return Some(field.error);
      }
      json := json.(dependencies := field.value);
      field := PrepareField(json.devDependencies, versions);
      if field.Failure? {
        return Some(field.error);
      }
      json := json.(devDependencies := field.value);
      field := PrepareField(json.peerDependencies, versions);
      if field.Failure? {
        return Some(field.error);
      }
      json := json.(peerDependencies := field.value);
      dist := json;
      return None;
    }

    /**
     * Everything up to packing. A publish is refused for a range in the source manifest or for a
     * dependency that cannot be prepared, and for nothing else: the checks of the build output
     * never find anything.
     */
    method Publish(versions: VersionMap, ownRepository: string) returns (r: Option<Refusal>)
      modifies `dist
      ensures !Passes(NoSemverRanges, source) ==>
                r == Some(Found(NoSemverRanges, FindingsOf(NoSemverRanges, source, DEP_FIELDS))) && dist == old(dist)
      ensures Passes(NoSemverRanges, source) && !IsPreparableManifest(source, versions) ==>
                r.Some? && r.value.CannotPrepare? && dist == source
      ensures Passes(NoSemverRanges, source) && IsPreparableManifest(source, versions) ==>
                && r.None? && ArePrepared(source, versions, dist)
                && Passes(NoSemverRanges, dist) && Passes(NoUnresolvedWorkspaceDeps, dist)
                && dist.name == source.name && dist.version == source.version
                && dist.entry == Some("./src/index.js") && dist.types == Some("./src/index.d.ts")
                && dist.license == (if source.license.Some? then source.license else Some("MIT"))
                && dist.repository == (if source.repository.Some? then source.repository else Some(ownRepository))
    {
      hide Passes, FindingsOf, IsPreparableManifest, IsPreparedField;
      r := Assert(NoSemverRanges, source);
      if r.Some? {
        return;
      }
      var problem := PrepareDist(versions);
      if problem.Some? {
        return Some(CannotPrepare(problem.value));
      }
      var json := dist;
      json := json.(version := source.version, entry := Some("./src/index.js"), types := Some("./src/index.d.ts"));
      json := json.(license := if json.license.Some? then json.license else Some("MIT"));
      json := json.(repository := if json.repository.Some? then json.repository else Some(ownRepository));
      dist := json;
      PreparedPasses(source, versions, dist);
      r := Assert(NoUnresolvedWorkspaceDeps, dist);
      if r.Some? {
        return;
      }
      r := Assert(NoSemverRanges, dist);
    }
  }

  // ---------------------------------------------------------------- why both ends are checked

  lemma PreparedDeps(json: Manifest, versions: VersionMap, after: Manifest, field: Field)
    requires ArePrepared(json, versions, after)
    ensures |DepsOf(after, field)| == |DepsOf(json, field)|
    ensures forall k :: 0 <= k < |DepsOf(json, field)| ==>
              && IsPreparable(DepsOf(json, field)[k], versions)
              && DepsOf(after, field)[k] == Prepared(DepsOf(json, field)[k], versions)
  {
    hide IsPreparable, Prepared;
  }

  /** A prepared manifest passes both checks, whatever the source manifest said. */
  lemma PreparedPasses(json: Manifest, versions: VersionMap, after: Manifest)
    requires ArePrepared(json, versions, after)
    ensures Passes(NoSemverRanges, after) && Passes(NoUnresolvedWorkspaceDeps, after)
  {
    hide DepsOf, ArePrepared, IsExactVersion, IsWorkspace, IsPreparable, Prepared;
    forall field: Field, k | 0 <= k < |DepsOf(after, field)|
      ensures !Offends(NoSemverRanges, DepsOf(after, field)[k]) && !Offends(NoUnresolvedWorkspaceDeps, DepsOf(after, field)[k])
    {
      PreparedDeps(json, versions, after, field);
      PreparedIsExact(DepsOf(json, field)[k], versions);
    }
  }

  /**
   * So only the check of the source manifest can see a range that gets flattened: it passes exactly
   * when preparation leaves every dependency that is not a workspace reference as it was written.
   */
  lemma SourceCheckIsExact(json: Manifest, versions: VersionMap, after: Manifest)
    requires ArePrepared(json, versions, after)
    ensures forall field :: |DepsOf(after, field)| == |DepsOf(json, field)|
    ensures Passes(NoSemverRanges, json)
            <==> forall field: Field, k :: 0 <= k < |DepsOf(json, field)| && !IsWorkspace(DepsOf(json, field)[k])
                                           ==> DepsOf(after, field)[k] == DepsOf(json, field)[k]
  {
    hide DepsOf, ArePrepared, IsExactVersion, IsWorkspace, IsPreparable, Prepared;
    forall field: Field
      ensures |DepsOf(after, field)| == |DepsOf(json, field)|
    {
      PreparedDeps(json, versions, after, field);
    }
    forall field: Field, k | 0 <= k < |DepsOf(json, field)|
      ensures Offends(NoSemverRanges, DepsOf(json, field)[k])
              <==> !IsWorkspace(DepsOf(json, field)[k]) && DepsOf(after, field)[k] != DepsOf(json, field)[k]
    {
      PreparedDeps(json, versions, after, field);
      PreparedIsExact(DepsOf(json, field)[k], versions);
    }
    hide Offends;
  }

  /** Preparing what is already prepared changes nothing, whatever the workspace's versions are by then. */
  lemma PreparingIsIdempotent(json: Manifest, versions: VersionMap, after: Manifest, later: VersionMap)
    requires ArePrepared(json, versions, after)
    ensures ArePrepared(after, later, after)
  {
    FieldIsIdempotent(json.dependencies, versions, after.dependencies, later);
    FieldIsIdempotent(json.devDependencies, versions, after.devDependencies, later);
    FieldIsIdempotent(json.peerDependencies, versions, after.peerDependencies, later);
    hide IsPreparedField;
  }

  lemma FieldIsIdempotent(deps: Option<seq<Dep>>, versions: VersionMap, after: Option<seq<Dep>>, later: VersionMap)
    requires IsPreparedField(deps, versions, after)
    ensures IsPreparedField(after, later, after)
  {
    if deps.Some? {
      forall k | 0 <= k < |after.value|
        ensures IsPreparable(after.value[k], later) && after.value[k] == Prepared(after.value[k], later)
      {
        PreparingAgainChangesNothing(deps.value[k], versions, later);
      }
      hide IsPreparable, Prepared;
    }
  }
}
