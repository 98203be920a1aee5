/**
 * Dependency versions on the way to the registry: `workspace:` references become the version of the
 * package they name, and a leading `^` or `~` is dropped.
 */
module WorkspaceUtils {
  import opened Wrappers
  import opened Decimal

  /** One entry of a dependency object; the entries keep their order. */
  datatype Dep = Dep(name: string, version: string)

  type VersionMap = map<string, string>

  /** The entry at which a step gave up. */
  datatype Problem = NotInWorkspace(dep: Dep) | UnsupportedRange(dep: Dep)

  // ---------------------------------------------------------------- exact versions

  predicate IsWordChar(c: char) {
    'a' <= c <= 'z' || 'A' <= c <= 'Z' || IsDigit(c) || c == '_'
  }

  predicate IsTag(s: string) {
    s != "" && forall i :: 0 <= i < |s| ==> IsWordChar(s[i]) || s[i] == '.'
  }

  /** Numbers separated by dots, at most `most` of them. */
  predicate IsDotted(s: string, most: nat) {
    var run := DigitPrefix(s);
    && run != ""
    && (run == s || (most > 1 && s[|run|] == '.' && IsDotted(s[|run| + 1..], most - 1)))
  }

  function BeforeDash(s: string): (r: string)
    ensures r <= s && '-' !in r && (r != s ==> s[|r|] == '-')
  {
    if s == "" || s[0] == '-' then "" else [s[0]] + BeforeDash(s[1..])
  }

  predicate IsExactVersion(version: string) {
    var core := BeforeDash(version);
    IsDotted(core, 3) && (core == version || IsTag(version[|core| + 1..]))
  }

  function DotJoin(groups: seq<string>): string {
    if groups == [] then "" else if |groups| == 1 then groups[0] else groups[0] + "." + DotJoin(groups[1..])
  }

  ghost predicate AreNumbers(groups: seq<string>) {
    groups != [] && forall i :: 0 <= i < |groups| ==> groups[i] != "" && AllDigits(groups[i])
  }

  ghost predicate IsSpelled(version: string, groups: seq<string>, tag: Option<string>) {
    && AreNumbers(groups) && |groups| <= 3
    && (tag.Some? ==> IsTag(tag.value))
    && version == DotJoin(groups) + if tag.Some? then "-" + tag.value else ""
  }

  /** An exact version is one to three numbers joined by dots, and maybe a dash and a tag. */
  lemma ExactVersionShape(version: string)
    ensures IsExactVersion(version) <==> exists groups, tag :: IsSpelled(version, groups, tag)
  {
    hide *;
    if IsExactVersion(version) {
      var groups, tag := SpellingOf(version);
    }
    forall groups, tag | IsSpelled(version, groups, tag)
      ensures IsExactVersion(version)
    {
      SpelledIsExact(version, groups, tag);
    }
  }

  lemma SpellingOf(version: string) returns (groups: seq<string>, tag: Option<string>)
    requires IsExactVersion(version)
    ensures IsSpelled(version, groups, tag)
  {
    hide IsTag, DotJoin, AreNumbers, IsDotted;
    var core := BeforeDash(version);
    groups := GroupsOf(core, 3);
    if core == version {
      tag := None;
      assert version == core + "";
    } else {
      tag := Some(version[|core| + 1..]);
      assert version == core + ("-" + version[|core| + 1..]);
    }
  }

  lemma SpelledIsExact(version: string, groups: seq<string>, tag: Option<string>)
    requires IsSpelled(version, groups, tag)
    ensures IsExactVersion(version)
  {
    hide IsTag, DotJoin, AreNumbers, IsDotted, BeforeDash;
    var core := DotJoin(groups);
    GroupsAreDotted(groups, 3);
    BeforeDashOf(core, if tag.Some? then "-" + tag.value else "");
    if tag.Some? {
      assert version[|core| + 1..] == tag.value;
    } else {
      assert version == core;
    }
  }

  lemma {:induction false} GroupsOf(s: string, most: nat) returns (groups: seq<string>)
    requires IsDotted(s, most) && most > 0
    ensures AreNumbers(groups) && |groups| <= most && s == DotJoin(groups)
  {
    hide DotJoin, AreNumbers, AllDigits, DigitPrefix;
    var run := DigitPrefix(s);
    OneGroup(run);
    if run == s {
      groups := [run];
    } else {
      var rest := GroupsOf(s[|run| + 1..], most - 1);
      groups := [run] + rest;
      GroupInFront(run, rest);
      assert s == run + "." + s[|run| + 1..];
    }
  }

  lemma OneGroup(run: string)
    requires run != "" && AllDigits(run)
    ensures AreNumbers([run]) && DotJoin([run]) == run
  {
    hide AllDigits;
  }

  lemma GroupInFront(run: string, rest: seq<string>)
    requires run != "" && AllDigits(run) && AreNumbers(rest)
    ensures AreNumbers([run] + rest) && DotJoin([run] + rest) == run + "." + DotJoin(rest)
  {
    hide AllDigits;
    assert ([run] + rest)[1..] == rest;
  }

  lemma {:induction false} GroupsAreDotted(groups: seq<string>, most: nat)
    requires AreNumbers(groups) && |groups| <= most
    ensures IsDotted(DotJoin(groups), most) && '-' !in DotJoin(groups)
  {
    var first := groups[0];
    NoDash(first);
    if |groups| == 1 {
      DigitPrefixOfRun(first, "");
      assert first + "" == first;
    } else {
      var rest := DotJoin(groups[1..]);
      GroupsAreDotted(groups[1..], most - 1);
      DottedCons(first, rest, most);
    }
  }

  lemma NoDash(run: string)
    requires AllDigits(run)
    ensures '-' !in run
  {
  }

  lemma DottedCons(first: string, rest: string, most: nat)
    requires first != "" && AllDigits(first) && most > 1 && IsDotted(rest, most - 1)
    ensures IsDotted(first + "." + rest, most)
  {
    var all := first + "." + rest;
    DigitPrefixOfRun(first, "." + rest);
    assert first + ("." + rest) == all;
    assert all[|first|] == '.' && all[|first| + 1..] == rest;
    hide AllDigits, DigitPrefix;
  }

  lemma {:induction false} BeforeDashOf(core: string, rest: string)
    requires '-' !in core && (rest != "" ==> rest[0] == '-')
    ensures BeforeDash(core + rest) == core
  {
    if core == "" {
      assert core + rest == rest;
    } else {
      BeforeDashOf(core[1..], rest);
      assert (core + rest)[1..] == core[1..] + rest;
      assert core == [core[0]] + core[1..];
    }
  }

  // ---------------------------------------------------------------- one dependency

  predicate IsWorkspace(dep: Dep) {
    "workspace:" <= dep.version
  }

  predicate CanResolve(dep: Dep, versions: VersionMap) {
    IsWorkspace(dep) ==> dep.name in versions && versions[dep.name] != ""
  }

  function Resolved(dep: Dep, versions: VersionMap): Dep
    requires CanResolve(dep, versions)
  {
    if IsWorkspace(dep) then Dep(dep.name, versions[dep.name]) else dep
  }

  function Pinned(version: string): string {
    if version != "" && (version[0] == '^' || version[0] == '~') then version[1..] else version
  }

  predicate CanStrip(dep: Dep) {
    IsExactVersion(Pinned(dep.version))
  }

  function Stripped(dep: Dep): Dep {
    Dep(dep.name, Pinned(dep.version))
  }

  predicate AllResolve(deps: seq<Dep>, versions: VersionMap) {
    forall k :: 0 <= k < |deps| ==> CanResolve(deps[k], versions)
  }

  predicate AllStrip(deps: seq<Dep>) {
    forall k :: 0 <= k < |deps| ==> CanStrip(deps[k])
  }

  method ResolveWorkspaceDependencies(deps: Option<seq<Dep>>, versionMap: VersionMap)
    returns (r: Result<Option<seq<Dep>>, Problem>)
    ensures deps.None? ==> r == Success(None)
    ensures deps.Some? && r.Success? ==>
              && r.value.Some? && |r.value.value| == |deps.value|
              && AllResolve(deps.value, versionMap)
              && (forall k :: 0 <= k < |deps.value| ==> r.value.value[k] == Resolved(deps.value[k], versionMap))
              && forall k :: 0 <= k < |deps.value| ==>
                   && r.value.value[k].name == deps.value[k].name
                   && (if "workspace:" <= deps.value[k].version
                       then deps.value[k].name in versionMap && r.value.value[k].version == versionMap[deps.value[k].name] != ""
                       else r.value.value[k].version == deps.value[k].version)
    ensures r.Failure? ==>
              && deps.Some?
              && exists k :: && 0 <= k < |deps.value| && r.error == NotInWorkspace(deps.value[k])
                             && !CanResolve(deps.value[k], versionMap) && AllResolve(deps.value[..k], versionMap)
  {
    if deps.None? {
      return Success(None);
    }
    var resolved: seq<Dep> := [];
    for i := 0 to |deps.value|
      invariant |resolved| == i
      invariant forall k :: 0 <= k < i ==> CanResolve(deps.value[k], versionMap) && resolved[k] == Resolved(deps.value[k], versionMap)
    {
      var dep := deps.value[i];
      if "workspace:" <= dep.version {
        var resolvedVersion := if dep.name in versionMap then versionMap[dep.name] else "";
        if resolvedVersion != "" {
          resolved := resolved + [Dep(dep.name, resolvedVersion)];
        } else {
          return Failure(NotInWorkspace(dep));
        }
      } else {
        resolved := resolved + [dep];
      }
    }
    return Success(Some(resolved));
  }

  lemma StripOne(deps: seq<Dep>, i: nat)
    requires i < |deps|
    ensures CanStrip(deps[i]) <==> IsExactVersion(Pinned(deps[i].version))
    ensures Stripped(deps[i]) == Dep(deps[i].name, Pinned(deps[i].version))
    ensures AllStrip(deps[..i + 1]) <==> AllStrip(deps[..i]) && CanStrip(deps[i])
  {
    hide IsExactVersion;
  }

  lemma StripNone()
    ensures AllStrip([])
  {
  }

  method StripSemverRanges(deps: Option<seq<Dep>>) returns (r: Result<Option<seq<Dep>>, Problem>)
    ensures deps.None? ==> r == Success(None)
    ensures deps.Some? && r.Success? ==>
              && r.value.Some? && |r.value.value| == |deps.value|
              && AllStrip(deps.value)
              && forall k :: 0 <= k < |deps.value| ==> r.value.value[k] == Stripped(deps.value[k])
    ensures r.Failure? ==>
              && deps.Some?
              && exists k :: && 0 <= k < |deps.value| && r.error == UnsupportedRange(deps.value[k])
                             && !CanStrip(deps.value[k]) && AllStrip(deps.value[..k])
  {
    hide *;
    if deps.None? {
      return Success(None);
    }
    var stripped: seq<Dep> := [];
    StripNone();
    for i := 0 to |deps.value|
      invariant |stripped| == i && AllStrip(deps.value[..i])
      invariant forall k :: 0 <= k < i ==> stripped[k] == Stripped(deps.value[k])
    {
      var dep := deps.value[i];
      var pinned := Pinned(dep.version);
      StripOne(deps.value, i);
      if !IsExactVersion(pinned) {
        return Failure(UnsupportedRange(dep));
      }
      stripped := stripped + [Dep(dep.name, pinned)];
    }
    assert deps.value[..|deps.value|] == deps.value;
    return Success(Some(stripped));
  }

  // ---------------------------------------------------------------- both steps

  /** Whether a dependency survives both steps. */
  predicate IsPreparable(dep: Dep, versions: VersionMap) {
    CanResolve(dep, versions) && CanStrip(Resolved(dep, versions))
  }

  function Prepared(dep: Dep, versions: VersionMap): Dep
    requires IsPreparable(dep, versions)
  {
    Stripped(Resolved(dep, versions))
  }

  /** The version that both steps must accept: the package's own for a workspace reference. */
  lemma PreparableExactly(dep: Dep, versions: VersionMap)
    ensures IsPreparable(dep, versions)
            <==> if IsWorkspace(dep) then dep.name in versions && IsExactVersion(Pinned(versions[dep.name]))
                 else IsExactVersion(Pinned(dep.version))
  {
    assert !IsExactVersion("");
  }

  /** Stripping takes one leading range sign off and no more, so every exact version is its own floor. */
  lemma StrippingExactly(version: string)
    requires IsExactVersion(version)
    ensures Pinned("^" + version) == version && Pinned("~" + version) == version && Pinned(version) == version
    ensures !IsExactVersion("^" + version) && !IsExactVersion("~" + version)
  {
    ExactIsPlain(version);
    assert ("^" + version)[1..] == version && ("~" + version)[1..] == version;
    if IsExactVersion("^" + version) {
      ExactIsPlain("^" + version);
    }
    if IsExactVersion("~" + version) {
      ExactIsPlain("~" + version);
    }
    hide IsExactVersion;
  }

  /** What a text is if something exact remains of it. */
  lemma PinnedExactly(text: string, version: string)
    requires IsExactVersion(version)
    ensures Pinned(text) == version <==> text == version || text == "^" + version || text == "~" + version
  {
    StrippingExactly(version);
    hide IsExactVersion;
    if Pinned(text) == version && text != version {
      assert text == [text[0]] + text[1..];
    }
  }

  lemma ExactIsPlain(version: string)
    requires IsExactVersion(version)
    ensures version != "" && IsDigit(version[0])
    ensures Pinned(version) == version && !("workspace:" <= version)
  {
    assert DigitPrefix(BeforeDash(version)) <= BeforeDash(version) <= version;
    assert version[0] == DigitPrefix(BeforeDash(version))[0];
  }

  /**
   * What is prepared is exact, so it is no longer a workspace reference. A dependency that was not
   * one changes exactly when it was not exact before: that is the range whose floor gets published.
   */
  lemma PreparedIsExact(dep: Dep, versions: VersionMap)
    requires IsPreparable(dep, versions)
    ensures IsExactVersion(Prepared(dep, versions).version) && !IsWorkspace(Prepared(dep, versions))
    ensures Prepared(dep, versions).name == dep.name
    ensures !IsWorkspace(dep) ==> (Prepared(dep, versions) != dep <==> !IsExactVersion(dep.version))
    ensures IsWorkspace(dep) ==> (Prepared(dep, versions).version == versions[dep.name] <==> IsExactVersion(versions[dep.name]))
  {
    ExactIsPlain(Prepared(dep, versions).version);
    var version := Resolved(dep, versions).version;
    if IsExactVersion(version) {
      ExactIsPlain(version);
    }
    hide IsExactVersion;
  }

  /** Preparing again, even with other package versions, succeeds and changes nothing. */
  lemma PreparingAgainChangesNothing(dep: Dep, versions: VersionMap, others: VersionMap)
    requires IsPreparable(dep, versions)
    ensures IsPreparable(Prepared(dep, versions), others)
    ensures Prepared(Prepared(dep, versions), others) == Prepared(dep, versions)
  {
    ExactIsPlain(Prepared(dep, versions).version);
    hide IsExactVersion;
  }
}
