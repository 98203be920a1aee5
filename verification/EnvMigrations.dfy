/**
 * The environment on start: every `QF_` variable is mirrored onto its `AP_` name, deprecated names
 * are reported, and two old aliases are copied to their new names.
 */
module EnvMigrations {
  import opened Wrappers

  type Env = map<string, string>

  const NEW_DEV := "AP_DEV_QADAMS"
  const OLD_DEV := "AP_DEV_PIECES"
  const NEW_TRANSLATIONS := "AP_LOAD_TRANSLATIONS_FOR_DEV_QADAMS"
  const OLD_TRANSLATIONS := "AP_LOAD_TRANSLATIONS_FOR_DEV_PIECES"

  const SHELL_LAYER_ONLY_NAMES: set<string> := {
    "CONTAINER_TYPE", "PORT", "PM2_INSTANCES", "JWT_SECRET", "WORKER_TOKEN", "POSTGRES_DATABASE",
    "POSTGRES_PASSWORD", "POSTGRES_USERNAME", "QADAMS_SYNC_MODE", "WORKER_API_URL"
  }

  /** `None` is an unset variable. */
  function Get(env: Env, name: string): Option<string> {
    if name in env then Some(env[name]) else None
  }

  /** `order` lists the variables of `env`, each once. */
  ghost predicate Enumerates(order: seq<string>, env: Env) {
    && (forall name :: name in order <==> name in env)
    && forall i, j :: 0 <= i < j < |order| ==> order[i] != order[j]
  }

  // ---------------------------------------------------------------- mirroring

  predicate IsQf(name: string) {
    "QF_" <= name
  }

  predicate IsAp(name: string) {
    "AP_" <= name
  }

  /** A blank `QF_` variable counts as unset. */
  predicate IsSource(env: Env, name: string) {
    IsQf(name) && name in env && env[name] != ""
  }

  function Renamed(apName: string): string {
    if apName == OLD_DEV then NEW_DEV else if apName == OLD_TRANSLATIONS then NEW_TRANSLATIONS else apName
  }

  /** The variable that a `QF_` variable is mirrored onto. */
  function Target(name: string): string
    requires IsQf(name)
  {
    Renamed("AP_" + name[3..])
  }

  predicate Feeds(env: Env, name: string, target: string) {
    IsSource(env, name) && Target(name) == target
  }

  /** The value mirrored onto `target`: that of the last variable for it. */
  function Winner(env: Env, order: seq<string>, target: string): Option<string> {
    if order == [] then None
    else
      var last := order[|order| - 1];
      if Feeds(env, last, target) then Some(env[last]) else Winner(env, order[..|order| - 1], target)
  }

  function OrElse(value: Option<string>, other: Option<string>): Option<string> {
    if value.Some? then value else other
  }

  function Mirrored(env: Env, order: seq<string>, name: string): Option<string> {
    OrElse(Winner(env, order, name), Get(env, name))
  }

  predicate IsOldAlias(name: string) {
    name == OLD_DEV || name == OLD_TRANSLATIONS
  }

  /** The old alias that a new one falls back to. */
  function OldAlias(name: string): (r: Option<string>)
    ensures r.Some? ==> IsAp(name) && !IsOldAlias(name) && IsAp(r.value)
  {
    AliasesDiffer();
    if name == NEW_DEV then Some(OLD_DEV) else if name == NEW_TRANSLATIONS then Some(OLD_TRANSLATIONS) else None
  }

  function Final(env: Env, order: seq<string>, name: string): Option<string> {
    OrElse(Mirrored(env, order, name), if OldAlias(name).Some? then Mirrored(env, order, OldAlias(name).value) else None)
  }

  // ---------------------------------------------------------------- warnings

  /** Whether the operator is told to rename `name`. */
  predicate IsReported(env: Env, name: string) {
    && IsAp(name)
    && name[3..] !in SHELL_LAYER_ONLY_NAMES
    && name != OLD_DEV && name != OLD_TRANSLATIONS
    && !IsSource(env, "QF_" + name[3..])
  }

  /** A deprecated name and the one to use instead. */
  datatype Warning = Warning(name: string, rename: string)

  function Reported(env: Env, order: seq<string>): seq<Warning> {
    if order == [] then []
    else
      var last := order[|order| - 1];
      Reported(env, order[..|order| - 1]) + if IsReported(env, last) then [Warning(last, "QF_" + last[3..])] else []
  }

  function AliasWarning(env: Env, order: seq<string>, newName: string, oldName: string): seq<Warning> {
    if Mirrored(env, order, newName).None? && Mirrored(env, order, oldName).Some? then [Warning(oldName, newName)] else []
  }

  lemma WinnerOneMore(env: Env, order: seq<string>, i: nat, target: string)
    requires i < |order|
    ensures Winner(env, order[..i + 1], target)
         == if Feeds(env, order[i], target) then Some(env[order[i]]) else Winner(env, order[..i], target)
  {
    hide Feeds;
    assert order[..i + 1][..i] == order[..i];
  }

  class Process {
    var env: Env
    var warnings: seq<Warning>

    constructor (env: Env)
      ensures this.env == env && warnings == []
    {
      this.env := env;
      warnings := [];
    }

    /** Runs the three loops; `order` is the order in which the variables are listed. */
    method MigrateNames(order: seq<string>)
      requires Enumerates(order, env)
      modifies this
      ensures forall name :: Get(env, name) == Final(old(env), order, name)
      ensures warnings == old(warnings) + Reported(old(env), order)
                        + AliasWarning(old(env), order, NEW_DEV, OLD_DEV)
                        + AliasWarning(old(env), order, NEW_TRANSLATIONS, OLD_TRANSLATIONS)
    {
      var snapshot := env;
      MirrorNames(snapshot, order);
      ReportNames(snapshot, order);
      CopyAlias(NEW_DEV, OLD_DEV);
      CopyAlias(NEW_TRANSLATIONS, OLD_TRANSLATIONS);
      AliasesDiffer();
    }

    method MirrorNames(snapshot: Env, order: seq<string>)
      requires env == snapshot && Enumerates(order, snapshot)
      modifies `env
      ensures forall name :: Get(env, name) == Mirrored(snapshot, order, name)
    {
      for i := 0 to |order|
        invariant forall name :: Get(env, name) == Mirrored(snapshot, order[..i], name)
      {
        ghost var before := env;
        var name := order[i];
        var value := snapshot[name];
        if IsQf(name) && value != "" {
          var apName := "AP_" + name[3..];
          env := env[Renamed(apName) := value];
        }
        forall target
          ensures Get(env, target) == Mirrored(snapshot, order[..i + 1], target)
        {
          WinnerOneMore(snapshot, order, i, target);
          assert Get(before, target) == Mirrored(snapshot, order[..i], target);
        }
      }
      assert order[..|order|] == order;
    }

    method ReportNames(snapshot: Env, order: seq<string>)
      modifies `warnings
      ensures warnings == old(warnings) + Reported(snapshot, order)
    {
      for i := 0 to |order|
        invariant warnings == old(warnings) + Reported(snapshot, order[..i])
      {
        assert order[..i + 1][..i] == order[..i];
        var name := order[i];
        if IsAp(name) {
          var bareName := name[3..];
          if bareName !in SHELL_LAYER_ONLY_NAMES && name != OLD_DEV && name != OLD_TRANSLATIONS {
            var qfName := "QF_" + bareName;
            if !(qfName in snapshot && snapshot[qfName] != "") {
              warnings := warnings + [Warning(name, qfName)];
            }
          }
        }
      }
      assert order[..|order|] == order;
    }

    method CopyAlias(newName: string, oldName: string)
      modifies this
      ensures forall name :: Get(env, name)
                          == if name == newName then OrElse(Get(old(env), newName), Get(old(env), oldName)) else Get(old(env), name)
      ensures warnings == old(warnings)
                        + if newName !in old(env) && oldName in old(env) then [Warning(oldName, newName)] else []
    {
      if newName !in env && oldName in env {
        env := env[newName := env[oldName]];
        warnings := warnings + [Warning(oldName, newName)];
      }
    }
  }

  lemma AliasesDiffer()
    ensures NEW_DEV != OLD_DEV && NEW_TRANSLATIONS != OLD_TRANSLATIONS
    ensures NEW_DEV != NEW_TRANSLATIONS && NEW_DEV != OLD_TRANSLATIONS && OLD_DEV != NEW_TRANSLATIONS && OLD_DEV != OLD_TRANSLATIONS
    ensures IsAp(NEW_DEV) && IsAp(OLD_DEV) && IsAp(NEW_TRANSLATIONS) && IsAp(OLD_TRANSLATIONS)
  {
    assert NEW_DEV[7] == 'Q' && OLD_DEV[7] == 'P';
    assert NEW_TRANSLATIONS[29] == 'Q' && OLD_TRANSLATIONS[29] == 'P';
    assert |NEW_DEV| == |OLD_DEV| == 13 && |NEW_TRANSLATIONS| == |OLD_TRANSLATIONS| == 35;
  }

  // ---------------------------------------------------------------- which variables meet

  function Qf(apName: string): string
    requires IsAp(apName)
  {
    "QF_" + apName[3..]
  }

  /** A variable is fed by the `QF_` variable of its name and, for a new alias, by that of the old one. */
  lemma SourcesOf(name: string, target: string)
    requires IsQf(name)
    ensures Target(name) == target
            <==> && IsAp(target) && !IsOldAlias(target)
                 && (name == Qf(target) || (OldAlias(target).Some? && name == Qf(OldAlias(target).value)))
  {
    AliasesDiffer();
    NamesMatch(name, target);
    NamesMatch(name, OLD_DEV);
    NamesMatch(name, OLD_TRANSLATIONS);
    hide NEW_DEV, OLD_DEV, NEW_TRANSLATIONS, OLD_TRANSLATIONS, Qf;
    assert IsAp("AP_" + name[3..]);
  }

  lemma NamesMatch(name: string, apName: string)
    requires IsQf(name)
    ensures "AP_" + name[3..] == apName <==> IsAp(apName) && name == Qf(apName)
  {
    assert name == "QF_" + name[3..];
    if IsAp(apName) {
      assert apName == "AP_" + apName[3..];
      assert Qf(apName)[3..] == apName[3..];
    }
    assert ("AP_" + name[3..])[3..] == name[3..];
  }

  /** No two variables that are mirrored onto the same name disagree. */
  ghost predicate NoConflict(env: Env) {
    forall a, b :: IsSource(env, a) && IsSource(env, b) && Target(a) == Target(b) ==> env[a] == env[b]
  }

  predicate Agree(env: Env, a: string, b: string) {
    IsSource(env, a) && IsSource(env, b) ==> env[a] == env[b]
  }

  /** Only the `QF_` variables of an old and of its new alias can disagree. */
  lemma ConflictsExactly(env: Env)
    ensures NoConflict(env) <==> Agree(env, Qf(OLD_DEV), Qf(NEW_DEV)) && Agree(env, Qf(OLD_TRANSLATIONS), Qf(NEW_TRANSLATIONS))
  {
    hide Qf, Target, NEW_DEV, OLD_DEV, NEW_TRANSLATIONS, OLD_TRANSLATIONS, IsAp;
    AliasesDiffer();
    SameTarget(NEW_DEV, OLD_DEV);
    SameTarget(NEW_TRANSLATIONS, OLD_TRANSLATIONS);
    forall a, b | IsQf(a) && IsQf(b) && Target(a) == Target(b)
      ensures ArePair(a, b, OLD_DEV, NEW_DEV) || ArePair(a, b, OLD_TRANSLATIONS, NEW_TRANSLATIONS) || a == b
    {
      OnlyPairsMeet(a, b);
    }
  }

  predicate ArePair(a: string, b: string, x: string, y: string)
    requires IsAp(x) && IsAp(y)
  {
    (a == Qf(x) && b == Qf(y)) || (a == Qf(y) && b == Qf(x))
  }

  lemma OnlyPairsMeet(a: string, b: string)
    requires IsQf(a) && IsQf(b) && Target(a) == Target(b)
    ensures a == b || ArePair(a, b, OLD_DEV, NEW_DEV) || ArePair(a, b, OLD_TRANSLATIONS, NEW_TRANSLATIONS)
  {
    SourcesOf(a, Target(a));
    SourcesOf(b, Target(a));
    hide Qf, Target, NEW_DEV, OLD_DEV, NEW_TRANSLATIONS, OLD_TRANSLATIONS, IsAp;
  }

  lemma SameTarget(newName: string, oldName: string)
    requires OldAlias(newName) == Some(oldName)
    ensures IsQf(Qf(newName)) && IsQf(Qf(oldName)) && Target(Qf(newName)) == newName == Target(Qf(oldName))
  {
    SourcesOf(Qf(newName), newName);
    SourcesOf(Qf(oldName), newName);
  }

  // ---------------------------------------------------------------- what the migration leaves

  lemma {:induction false} WinnerFeeds(env: Env, order: seq<string>, target: string)
    ensures match Winner(env, order, target)
            case None => forall name :: name in order ==> !Feeds(env, name, target)
            case Some(value) => exists name :: name in order && Feeds(env, name, target) && env[name] == value
  {
    hide Feeds;
    if order != [] {
      var front, last := order[..|order| - 1], order[|order| - 1];
      WinnerFeeds(env, front, target);
      assert order == front + [last];
    }
  }

  /** The value of a `QF_` variable that counts as set. */
  function Given(env: Env, name: string): Option<string> {
    if IsSource(env, name) then Some(env[name]) else None
  }

  /** What a variable ends as, whatever the order. */
  function Expected(env: Env, name: string): Option<string> {
    if !IsAp(name) || IsOldAlias(name) then Get(env, name)
    else
      var own := Given(env, Qf(name));
      if OldAlias(name).None? then OrElse(own, Get(env, name))
      else
        var legacy := OldAlias(name).value;
        OrElse(own, OrElse(Given(env, Qf(legacy)), OrElse(Get(env, name), Get(env, legacy))))
  }

  lemma WinnerExpected(env: Env, order: seq<string>, target: string)
    requires Enumerates(order, env) && NoConflict(env)
    ensures !IsAp(target) || IsOldAlias(target) ==> Winner(env, order, target) == None
    ensures IsAp(target) && !IsOldAlias(target) && OldAlias(target).None? ==> Winner(env, order, target) == Given(env, Qf(target))
    ensures OldAlias(target).Some? ==>
              Winner(env, order, target) == OrElse(Given(env, Qf(target)), Given(env, Qf(OldAlias(target).value)))
  {
    hide NEW_DEV, OLD_DEV, NEW_TRANSLATIONS, OLD_TRANSLATIONS, Winner, IsAp, Qf, Target, IsOldAlias, OldAlias;
    WinnerFeeds(env, order, target);
    forall name | IsQf(name)
      ensures Target(name) == target
            <==> && IsAp(target) && !IsOldAlias(target)
                 && (name == Qf(target) || (OldAlias(target).Some? && name == Qf(OldAlias(target).value)))
    {
      SourcesOf(name, target);
    }
  }

  /**
   * Each `AP_X` ends as a non-blank `QF_X`, else as its own value; a new alias takes a non-blank
   * `QF_` value of either name, its own first, then its own old value, and last that of the old alias.
   */
  lemma EndsAsExpected(env: Env, order: seq<string>, name: string)
    requires Enumerates(order, env) && NoConflict(env)
    ensures Final(env, order, name) == Expected(env, name)
  {
    AliasesDiffer();
    WinnerExpected(env, order, name);
    WinnerExpected(env, order, OLD_DEV);
    WinnerExpected(env, order, OLD_TRANSLATIONS);
    hide NEW_DEV, OLD_DEV, NEW_TRANSLATIONS, OLD_TRANSLATIONS, Winner, IsAp, Qf, IsSource;
  }

  // ---------------------------------------------------------------- listing the variables

  lemma {:induction false} ListOf(names: set<string>) returns (order: seq<string>)
    ensures forall name :: name in order <==> name in names
    ensures forall i, j :: 0 <= i < j < |order| ==> order[i] != order[j]
    decreases |names|
  {
    if names == {} {
      order := [];
    } else {
      var name :| name in names;
      var rest := ListOf(names - {name});
      order := rest + [name];
    }
  }

  /** Some listing of the variables ends with `last`. */
  lemma ListEndingWith(env: Env, last: string) returns (order: seq<string>)
    requires last in env
    ensures Enumerates(order, env) && order != [] && order[|order| - 1] == last
  {
    var rest := ListOf(env.Keys - {last});
    order := rest + [last];
  }

  lemma LastSourceWins(env: Env, order: seq<string>, name: string)
    requires order != [] && order[|order| - 1] == name && IsSource(env, name)
    ensures Final(env, order, Target(name)) == Some(env[name])
  {
    hide Target, OldAlias;
  }

  // ---------------------------------------------------------------- the order matters only for conflicts

  /** The result is the same for every listing order exactly when no two variables conflict. */
  lemma OrderIsIrrelevantExactly(env: Env)
    ensures (forall order, other, name :: Enumerates(order, env) && Enumerates(other, env)
                                          ==> Final(env, order, name) == Final(env, other, name))
            <==> NoConflict(env)
  {
    if NoConflict(env) {
      forall order, other, name | Enumerates(order, env) && Enumerates(other, env)
        ensures Final(env, order, name) == Final(env, other, name)
      {
        EndsAsExpected(env, order, name);
        EndsAsExpected(env, other, name);
      }
    } else {
      hide *;
      var a, b := Conflict(env);
      var order := ListEndingWith(env, a);
      var other := ListEndingWith(env, b);
      LastSourceWins(env, order, a);
      LastSourceWins(env, other, b);
    }
  }

  lemma Conflict(env: Env) returns (a: string, b: string)
    requires !NoConflict(env)
    ensures IsQf(a) && IsQf(b) && a in env && b in env
    ensures IsSource(env, a) && IsSource(env, b) && Target(a) == Target(b) && env[a] != env[b]
  {
    hide Target;
    a, b :| IsSource(env, a) && IsSource(env, b) && Target(a) == Target(b) && env[a] != env[b];
  }

  /** `after` is what the migration of `env` leaves. */
  ghost predicate IsMigrated(env: Env, order: seq<string>, after: Env) {
    forall name :: Get(after, name) == Final(env, order, name)
  }

  lemma PrefixesDiffer(name: string)
    ensures !IsAp(name) || !IsQf(name)
  {
    assert IsAp(name) ==> name[0] == 'A';
    assert IsQf(name) ==> name[0] == 'Q';
  }

  /** The migration writes no `QF_` variable. */
  lemma SourcesStay(env: Env, order: seq<string>, after: Env, name: string)
    requires Enumerates(order, env) && IsMigrated(env, order, after) && IsQf(name)
    ensures Get(after, name) == Get(env, name)
  {
    WinnerFeeds(env, order, name);
    PrefixesDiffer(name);
    forall other | IsQf(other)
      ensures Target(other) != name
    {
      SourcesOf(other, name);
    }
    hide Target, Winner, IsAp, OldAlias;
    assert Get(after, name) == Final(env, order, name);
  }

  lemma SameSources(env: Env, order: seq<string>, after: Env)
    requires Enumerates(order, env) && IsMigrated(env, order, after)
    ensures forall name :: IsSource(after, name) == IsSource(env, name)
    ensures forall name :: IsSource(env, name) && IsSource(after, name) ==> after[name] == env[name]
    ensures NoConflict(after) <==> NoConflict(env)
  {
    forall name | IsQf(name)
      ensures Get(after, name) == Get(env, name)
    {
      SourcesStay(env, order, after, name);
    }
    hide Target, IsMigrated, IsQf;
  }

  /** Running the loops again, in any order, changes nothing exactly when no two variables conflict. */
  lemma RunningAgainExactly(env: Env, order: seq<string>, after: Env)
    requires Enumerates(order, env) && IsMigrated(env, order, after)
    ensures (forall again, name :: Enumerates(again, after) ==> Final(after, again, name) == Get(after, name))
            <==> NoConflict(env)
  {
    SameSources(env, order, after);
    if NoConflict(env) {
      forall again, name | Enumerates(again, after)
        ensures Final(after, again, name) == Get(after, name)
      {
        EndsAsExpected(after, again, name);
        ExpectedIsStable(env, order, after, name);
      }
    } else {
      hide *;
      var a, b := Conflict(env);
      var other := if Get(after, Target(a)) == Some(env[a]) then b else a;
      SourceIsListed(after, other);
      var again := ListEndingWith(after, other);
      LastSourceWins(after, again, other);
    }
  }

  lemma SourceIsListed(env: Env, name: string)
    requires IsSource(env, name)
    ensures name in env
  {
  }

  lemma ExpectedIsStable(env: Env, order: seq<string>, after: Env, name: string)
    requires Enumerates(order, env) && IsMigrated(env, order, after) && NoConflict(env)
    ensures Expected(after, name) == Get(after, name)
  {
    SameSources(env, order, after);
    EndsAsExpected(env, order, name);
    assert Get(after, name) == Final(env, order, name);
    assert forall other :: Given(after, other) == Given(env, other);
    if OldAlias(name).Some? {
      var legacy := OldAlias(name).value;
      EndsAsExpected(env, order, legacy);
      AliasesDiffer();
      assert Get(after, legacy) == Final(env, order, legacy) == Get(env, legacy);
    }
    hide NEW_DEV, OLD_DEV, NEW_TRANSLATIONS, OLD_TRANSLATIONS, Final, IsMigrated, IsSource, Qf, IsAp;
  }

  // ---------------------------------------------------------------- following the advice

  /** What an operator has who does the rename that a warning asks for. */
  function AfterRename(env: Env, name: string): Env
    requires name in env && IsAp(name)
  {
    (env - {name})[Qf(name) := env[name]]
  }

  /** Whether doing the rename changes the final value of no other variable, whatever the listing orders. */
  ghost predicate RenameIsSafe(env: Env, name: string)
    requires name in env && IsAp(name)
  {
    forall order, again, other ::
      Enumerates(order, env) && Enumerates(again, AfterRename(env, name)) && other != Qf(name)
      ==> Final(AfterRename(env, name), again, other) == Final(env, order, other)
  }

  /** What an operator can check before the rename. */
  ghost predicate MayRename(env: Env, name: string)
    requires name in env && IsAp(name)
  {
    if env[name] != "" then NoConflict(AfterRename(env, name))
    else
      && OldAlias(name).Some?
      && (IsSource(env, Qf(OldAlias(name).value)) || Get(env, OldAlias(name).value) == Some(""))
  }

  /**
   * Doing the rename that a warning asks for is safe exactly when no variables conflict yet and, for a
   * value that is not blank, the new name brings no conflict. A blank value is lost, so there the rename
   * is safe exactly for a new alias that its old alias covers: with a `QF_` value, or with a blank one
   * of its own.
   */
  lemma AdviceIsSafeExactly(env: Env, name: string)
    requires name in env && IsReported(env, name)
    ensures IsAp(name)
    ensures RenameIsSafe(env, name) <==> NoConflict(env) && MayRename(env, name)
  {
    hide *;
    ReportedIsAp(env, name);
    if !NoConflict(env) {
      ConflictStays(env, name);
    } else if env[name] == "" {
      BlankRename(env, name);
    } else {
      RenameSources(env, name);
      FullRename(env, name);
    }
  }

  /** A rename settles no conflict, and while there is one the listing order decides. */
  lemma ConflictStays(env: Env, name: string)
    requires name in env && IsAp(name) && IsReported(env, name) && !NoConflict(env)
    ensures !RenameIsSafe(env, name)
  {
    hide NEW_DEV, OLD_DEV, NEW_TRANSLATIONS, OLD_TRANSLATIONS, SHELL_LAYER_ONLY_NAMES, Target, Qf, Final, NoConflict,
      AfterRename, Enumerates, IsReported, IsSource, IsAp, IsQf;
    var a, b := Conflict(env);
    SourcesOf(a, Target(a));
    RenameKeepsSource(env, name, b);
    var order := ListEndingWith(env, a);
    var again := ListEndingWith(AfterRename(env, name), b);
    LastSourceWins(env, order, a);
    LastSourceWins(AfterRename(env, name), again, b);
    PrefixesDiffer(Target(a));
    QfIsQf(name);
  }

  lemma RenameKeepsSource(env: Env, name: string, source: string)
    requires name in env && IsAp(name) && IsReported(env, name) && IsSource(env, source)
    ensures source in AfterRename(env, name) && IsSource(AfterRename(env, name), source)
    ensures AfterRename(env, name)[source] == env[source]
  {
    PrefixesDiffer(name);
    hide SHELL_LAYER_ONLY_NAMES, OLD_DEV, OLD_TRANSLATIONS;
  }

  lemma ReportedIsAp(env: Env, name: string)
    requires IsReported(env, name)
    ensures IsAp(name)
  {
    hide SHELL_LAYER_ONLY_NAMES, OLD_DEV, OLD_TRANSLATIONS;
  }

  lemma FullRename(env: Env, name: string)
    requires name in env && IsReported(env, name) && env[name] != "" && NoConflict(env)
    ensures RenameIsSafe(env, name) <==> MayRename(env, name)
  {
    var renamed := AfterRename(env, name);
    if NoConflict(renamed) {
      forall order, again, other | Enumerates(order, env) && Enumerates(again, renamed) && other != Qf(name)
        ensures Final(renamed, again, other) == Final(env, order, other)
      {
        EndsAsExpected(env, order, other);
        EndsAsExpected(renamed, again, other);
        RenameKeepsExpected(env, name, other);
      }
    } else {
      RenameConflicts(env, name);
    }
    hide AfterRename, IsReported, NoConflict, Final, Enumerates, Qf, IsAp;
  }

  /** After the rename nobody is warned of the old name any more. */
  lemma RenameSilences(env: Env, name: string, again: seq<string>)
    requires name in env && IsReported(env, name) && Enumerates(again, AfterRename(env, name))
    ensures forall warning :: warning in Reported(AfterRename(env, name), again) ==> warning.name != name
  {
    PrefixesDiffer(name);
    hide IsReported, IsAp, IsQf, SHELL_LAYER_ONLY_NAMES, OLD_DEV, OLD_TRANSLATIONS;
    ReportedIsAp(env, name);
    QfIsQf(name);
    assert name !in AfterRename(env, name);
    OnlyListedAreReported(AfterRename(env, name), again);
  }

  lemma QfIsQf(name: string)
    requires IsAp(name)
    ensures IsQf(Qf(name))
  {
  }

  lemma {:induction false} OnlyListedAreReported(env: Env, order: seq<string>)
    ensures forall warning :: warning in Reported(env, order) ==> warning.name in order && IsReported(env, warning.name)
  {
    hide IsReported;
    if order != [] {
      var front, last := order[..|order| - 1], order[|order| - 1];
      OnlyListedAreReported(env, front);
      assert order == front + [last];
    }
  }

  lemma RenameSources(env: Env, name: string)
    requires name in env && IsReported(env, name) && env[name] != ""
    ensures var renamed := AfterRename(env, name);
            && !IsReported(renamed, name) && IsSource(renamed, Qf(name)) && !IsSource(env, Qf(name))
            && renamed[Qf(name)] == env[name]
            && (forall other :: other != Qf(name) ==> Given(renamed, other) == Given(env, other))
            && forall other :: other != Qf(name) && other != name ==> Get(renamed, other) == Get(env, other)
  {
    PrefixesDiffer(name);
    assert IsQf(Qf(name));
    hide SHELL_LAYER_ONLY_NAMES, OLD_DEV, OLD_TRANSLATIONS;
  }

  lemma RenameKeepsExpected(env: Env, name: string, other: string)
    requires name in env && IsReported(env, name) && env[name] != ""
    requires NoConflict(AfterRename(env, name)) && other != Qf(name)
    ensures Expected(AfterRename(env, name), other) == Expected(env, other)
  {
    hide NEW_DEV, OLD_DEV, NEW_TRANSLATIONS, OLD_TRANSLATIONS, SHELL_LAYER_ONLY_NAMES, IsAp, Qf, AfterRename, Target;
    var renamed := AfterRename(env, name);
    RenameSources(env, name);
    AliasesDiffer();
    assert !IsOldAlias(name);
    if IsAp(other) {
      NamesMatch(Qf(name), other);
      NamesMatch(Qf(name), name);
    }
    if OldAlias(other).Some? {
      var legacy := OldAlias(other).value;
      NamesMatch(Qf(name), legacy);
      SameTarget(other, legacy);
    }
    hide NEW_DEV, OLD_DEV, NEW_TRANSLATIONS, OLD_TRANSLATIONS, IsAp, Qf, AfterRename, IsReported, Target;
  }

  lemma RenameConflicts(env: Env, name: string)
    requires name in env && IsReported(env, name) && env[name] != ""
    requires NoConflict(env) && !NoConflict(AfterRename(env, name))
    ensures exists order, again, other ::
              && Enumerates(order, env) && Enumerates(again, AfterRename(env, name)) && other != Qf(name)
              && Final(AfterRename(env, name), again, other) != Final(env, order, other)
  {
    hide NEW_DEV, OLD_DEV, NEW_TRANSLATIONS, OLD_TRANSLATIONS, SHELL_LAYER_ONLY_NAMES, Target, Qf, Final, NoConflict, AfterRename, Enumerates;
    var renamed := AfterRename(env, name);
    RenameSources(env, name);
    var a, b := Conflict(renamed);
    var rival := if a == Qf(name) then b else a;
    RivalsMeet(env, name, a, b);
    var order := ListEndingWith(env, rival);
    var again := ListEndingWith(renamed, Qf(name));
    LastSourceWins(env, order, rival);
    LastSourceWins(renamed, again, Qf(name));
  }

  /** A conflict that the rename brings in is one with the new name. */
  lemma RivalsMeet(env: Env, name: string, a: string, b: string)
    requires name in env && IsReported(env, name) && env[name] != "" && NoConflict(env)
    requires IsSource(AfterRename(env, name), a) && IsSource(AfterRename(env, name), b)
    requires Target(a) == Target(b) && AfterRename(env, name)[a] != AfterRename(env, name)[b]
    ensures var rival := if a == Qf(name) then b else a;
            && (a == Qf(name) || b == Qf(name)) && rival != Qf(name)
            && IsSource(env, rival) && env[rival] != env[name]
            && IsQf(Qf(name)) && Target(Qf(name)) == name == Target(rival) && name != Qf(name)
  {
    RenameSources(env, name);
    SourcesOf(Qf(name), name);
    PrefixesDiffer(name);
    assert IsSource(env, a) ==> Given(AfterRename(env, name), a) == Given(env, a);
    hide Target, IsReported, AfterRename, Qf;
  }

  /** Renaming a blank variable takes it away and gives nothing: blank variables feed nothing. */
  lemma BlankSources(env: Env, name: string)
    requires name in env && IsReported(env, name) && env[name] == "" && NoConflict(env)
    ensures IsAp(name)
    ensures forall other :: Given(AfterRename(env, name), other) == Given(env, other)
    ensures forall other :: other != Qf(name) && other != name ==> Get(AfterRename(env, name), other) == Get(env, other)
    ensures Get(AfterRename(env, name), name) == None && Given(env, Qf(name)) == None
    ensures NoConflict(AfterRename(env, name))
  {
    var renamed := AfterRename(env, name);
    PrefixesDiffer(name);
    hide NEW_DEV, OLD_DEV, NEW_TRANSLATIONS, OLD_TRANSLATIONS, SHELL_LAYER_ONLY_NAMES, Target;
    assert forall other :: Given(renamed, other) == Given(env, other);
    forall a, b | IsSource(renamed, a) && IsSource(renamed, b) && Target(a) == Target(b)
      ensures renamed[a] == renamed[b]
    {
      assert IsSource(env, a) && IsSource(env, b);
    }
  }

  /** A blank variable is set before the rename; after it, only what its old alias can give is left. */
  lemma BlankRenameEnds(env: Env, name: string, order: seq<string>, again: seq<string>)
    requires name in env && IsReported(env, name) && env[name] == "" && NoConflict(env)
    requires IsAp(name) && Enumerates(order, env) && Enumerates(again, AfterRename(env, name))
    ensures OldAlias(name).None? ==>
              Final(env, order, name) == Some("") && Final(AfterRename(env, name), again, name) == None
    ensures OldAlias(name).Some? ==>
              var legacy := OldAlias(name).value;
              var given := Given(env, Qf(legacy));
              && Final(env, order, name) == OrElse(given, Some(""))
              && Final(AfterRename(env, name), again, name) == OrElse(given, Get(env, legacy))
  {
    BlankSources(env, name);
    EndsAsExpected(env, order, name);
    EndsAsExpected(AfterRename(env, name), again, name);
    AliasesDiffer();
    if OldAlias(name).Some? {
      PrefixesDiffer(OldAlias(name).value);
      QfIsQf(name);
    }
    assert !IsOldAlias(name);
    hide NEW_DEV, OLD_DEV, NEW_TRANSLATIONS, OLD_TRANSLATIONS, SHELL_LAYER_ONLY_NAMES, Final, AfterRename, IsSource, Given, IsAp, Qf, IsReported, IsQf;
  }

  /** Every other variable ends as before. */
  lemma BlankRenameKeeps(env: Env, name: string, order: seq<string>, again: seq<string>, other: string)
    requires name in env && IsReported(env, name) && env[name] == "" && NoConflict(env)
    requires IsAp(name) && Enumerates(order, env) && Enumerates(again, AfterRename(env, name))
    requires other != name && other != Qf(name)
    ensures Final(AfterRename(env, name), again, other) == Final(env, order, other)
  {
    BlankSources(env, name);
    EndsAsExpected(env, order, other);
    EndsAsExpected(AfterRename(env, name), again, other);
    AliasesDiffer();
    if OldAlias(other).Some? {
      PrefixesDiffer(OldAlias(other).value);
      QfIsQf(name);
    }
    assert !IsOldAlias(name);
    hide NEW_DEV, OLD_DEV, NEW_TRANSLATIONS, OLD_TRANSLATIONS, SHELL_LAYER_ONLY_NAMES, Final, AfterRename, IsSource, Given, IsAp, Qf, IsReported, IsQf;
  }

  lemma BlankRename(env: Env, name: string)
    requires name in env && IsAp(name) && IsReported(env, name) && env[name] == "" && NoConflict(env)
    ensures RenameIsSafe(env, name) <==> MayRename(env, name)
  {
    var renamed := AfterRename(env, name);
    PrefixesDiffer(name);
    QfIsQf(name);
    var order := ListOf(env.Keys);
    var again := ListOf(renamed.Keys);
    BlankRenameEnds(env, name, order, again);
    hide Final, AfterRename, IsReported, IsAp, Qf, OldAlias, NoConflict, IsQf;
    assert Enumerates(order, env) && Enumerates(again, renamed);
    if MayRename(env, name) {
      forall order, again, other | Enumerates(order, env) && Enumerates(again, renamed) && other != Qf(name)
        ensures Final(renamed, again, other) == Final(env, order, other)
      {
        if other == name {
          BlankRenameEnds(env, name, order, again);
        } else {
          BlankRenameKeeps(env, name, order, again, other);
        }
      }
    }
  }

  /** Doing the rename unsets a blank variable, unless its old alias has something to give. */
  lemma BlankRenameUnsets(env: Env, name: string, order: seq<string>, again: seq<string>)
    requires name in env && IsReported(env, name) && IsAp(name) && env[name] == "" && NoConflict(env)
    requires Enumerates(order, env) && Enumerates(again, AfterRename(env, name))
    ensures Final(env, order, name).Some?
    ensures Final(AfterRename(env, name), again, name).None?
            <==> OldAlias(name).None? || (!IsSource(env, Qf(OldAlias(name).value)) && OldAlias(name).value !in env)
  {
    BlankRenameEnds(env, name, order, again);
    hide Final, AfterRename, IsReported, IsAp, Qf, OldAlias, NoConflict, Enumerates;
  }

  // ---------------------------------------------------------------- exactly the right warnings

  /** Whether the operator should be told to rename a variable that is set. */
  predicate ShouldRename(env: Env, name: string) {
    && "AP_" <= name
    && name != "AP_DEV_PIECES" && name != "AP_LOAD_TRANSLATIONS_FOR_DEV_PIECES"
    && name[3..] !in SHELL_LAYER_ONLY_NAMES
    && ("QF_" + name[3..] in env ==> |env["QF_" + name[3..]]| == 0)
  }

  lemma ReportedIfShould(env: Env, name: string)
    ensures IsReported(env, name) <==> ShouldRename(env, name)
  {
    if "AP_" <= name {
      QfIsQf(name);
    }
    hide SHELL_LAYER_ONLY_NAMES;
  }

  /**
   * Each listed variable that should be renamed is warned about once, in listing order, with the name
   * to use instead, and no other variable is.
   */
  lemma {:induction false} WarningsExactly(env: Env, order: seq<string>)
    requires forall i, j :: 0 <= i < j < |order| ==> order[i] != order[j]
    ensures forall warning :: warning in Reported(env, order) ==>
              "AP_" <= warning.name && warning.rename == "QF_" + warning.name[3..]
    ensures forall name :: name in order && ShouldRename(env, name) <==> exists warning :: warning in Reported(env, order) && warning.name == name
    ensures forall i, j :: 0 <= i < j < |Reported(env, order)| ==> Reported(env, order)[i].name != Reported(env, order)[j].name
  {
    if order != [] {
      var front, last := order[..|order| - 1], order[|order| - 1];
      WarningsExactly(env, front);
      ReportedIfShould(env, last);
      ReportOneMore(env, front, last);
      hide IsReported, ShouldRename, Reported;
      assert order == front + [last];
      assert last !in front;
      var before, all := Reported(env, front), Reported(env, order);
      if IsReported(env, last) {
        var warning := Warning(last, "QF_" + last[3..]);
        assert all == before + [warning];
        assert warning in all;
        assert forall other :: other in all <==> other in before || other == warning;
      }
    }
  }

  lemma ReportOneMore(env: Env, front: seq<string>, last: string)
    ensures IsReported(env, last) ==> "AP_" <= last && Reported(env, front + [last]) == Reported(env, front) + [Warning(last, "QF_" + last[3..])]
    ensures !IsReported(env, last) ==> Reported(env, front + [last]) == Reported(env, front)
  {
    ReportedIfShould(env, last);
    hide IsReported;
    assert (front + [last])[..|front|] == front;
    assert Reported(env, front) + [] == Reported(env, front);
  }

  /** Warnings come in listing order. */
  lemma {:induction false} WarningsInOrder(env: Env, a: seq<string>, b: seq<string>)
    ensures Reported(env, a + b) == Reported(env, a) + Reported(env, b)
  {
    hide *;
    NothingReported(env);
    if b == [] {
      assert a + b == a;
      assert Reported(env, a) + [] == Reported(env, a);
    } else {
      var front, last := b[..|b| - 1], b[|b| - 1];
      WarningsInOrder(env, a, front);
      assert a + b == (a + front) + [last] && b == front + [last];
      ReportOneMore(env, a + front, last);
      ReportOneMore(env, front, last);
      Regroup(Reported(env, a), Reported(env, front), [Warning(last, "QF_" + if |last| >= 3 then last[3..] else "")]);
    }
  }

  lemma NothingReported(env: Env)
    ensures Reported(env, []) == []
  {
  }

  lemma Regroup(a: seq<Warning>, b: seq<Warning>, c: seq<Warning>)
    ensures a + (b + c) == a + b + c
  {
  }

  /** The old names of the two renamed variables and the names they stand for. */
  lemma AliasesAreListed()
    ensures Renamed("AP_DEV_PIECES") == "AP_DEV_QADAMS"
    ensures Renamed("AP_LOAD_TRANSLATIONS_FOR_DEV_PIECES") == "AP_LOAD_TRANSLATIONS_FOR_DEV_QADAMS"
    ensures OldAlias("AP_DEV_QADAMS") == Some("AP_DEV_PIECES")
    ensures OldAlias("AP_LOAD_TRANSLATIONS_FOR_DEV_QADAMS") == Some("AP_LOAD_TRANSLATIONS_FOR_DEV_PIECES")
    ensures forall name :: Renamed(name) != name ==> name == "AP_DEV_PIECES" || name == "AP_LOAD_TRANSLATIONS_FOR_DEV_PIECES"
  {
    AliasesDiffer();
  }

  /** The last loop copies an old alias, and says so, exactly when it is all there is. */
  lemma AliasIsCopiedExactly(env: Env, order: seq<string>, newName: string, oldName: string)
    requires Enumerates(order, env) && NoConflict(env) && OldAlias(newName) == Some(oldName)
    ensures AliasWarning(env, order, newName, oldName)
         == if oldName in env && newName !in env && Given(env, Qf(newName)).None? && Given(env, Qf(oldName)).None?
            then [Warning(oldName, newName)] else []
  {
    WinnerExpected(env, order, newName);
    WinnerExpected(env, order, oldName);
    AliasesDiffer();
    hide NEW_DEV, OLD_DEV, NEW_TRANSLATIONS, OLD_TRANSLATIONS, Winner, IsAp, Qf, IsSource, Given;
  }
}
