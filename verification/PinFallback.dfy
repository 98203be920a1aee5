/**
 * May a step whose pinned qadam version cannot be had move to the build the image ships? The
 * version order, the caret rule, the decision, and what applying it over many images does to a pin.
 */
module PinFallback {
  import opened Wrappers
  import opened QadamVersion

  // ---------------------------------------------------------------- order

  function Compare(a: Version, b: Version): int {
    if a.major != b.major then a.major - b.major
    else if a.minor != b.minor then a.minor - b.minor
    else if a.patch != b.patch then a.patch - b.patch
    else if a.snapshot == b.snapshot then 0
    else if a.snapshot.None? then 1
    else if b.snapshot.None? then -1
    else a.snapshot.value - b.snapshot.value
  }

  /** Section 11 of Semantic Versioning 2.0.0, for identifiers of any kind. */
  datatype Identifier = Numeric(n: nat) | Alphanumeric(text: string)

  predicate TextPrecedes(a: string, b: string) {
    b != "" && (a == "" || a[0] < b[0] || (a[0] == b[0] && TextPrecedes(a[1..], b[1..])))
  }

  predicate IdentifierPrecedes(a: Identifier, b: Identifier) {
    match (a, b)
    case (Numeric(m), Numeric(n)) => m < n
    case (Numeric(_), Alphanumeric(_)) => true
    case (Alphanumeric(_), Numeric(_)) => false
    case (Alphanumeric(s), Alphanumeric(t)) => TextPrecedes(s, t)
  }

  /** Identifiers from left to right; a longer list follows the list it extends. */
  predicate IdentifiersPrecede(a: seq<Identifier>, b: seq<Identifier>) {
    b != [] && (a == [] || IdentifierPrecedes(a[0], b[0]) || (a[0] == b[0] && IdentifiersPrecede(a[1..], b[1..])))
  }

  function Prerelease(v: Version): seq<Identifier> {
    if v.snapshot.None? then [] else [Alphanumeric("main"), Numeric(v.snapshot.value)]
  }

  /** A version with a prerelease precedes the one without. */
  predicate Precedes(a: Version, b: Version) {
    if a.major != b.major then a.major < b.major
    else if a.minor != b.minor then a.minor < b.minor
    else if a.patch != b.patch then a.patch < b.patch
    else if Prerelease(b) == [] then Prerelease(a) != []
    else Prerelease(a) != [] && IdentifiersPrecede(Prerelease(a), Prerelease(b))
  }

  lemma {:induction false} TextPrecedesIsStrict(a: string)
    ensures !TextPrecedes(a, a)
  {
    if a != "" {
      TextPrecedesIsStrict(a[1..]);
    }
  }

  /** The comparison is the precedence of the standard. */
  lemma CompareIsPrecedence(a: Version, b: Version)
    ensures Compare(a, b) < 0 <==> Precedes(a, b)
    ensures Compare(a, b) == 0 <==> a == b
    ensures Compare(a, b) > 0 <==> Precedes(b, a)
  {
    if a.snapshot.Some? && b.snapshot.Some? {
      SnapshotsPrecede(a, b);
      SnapshotsPrecede(b, a);
    }
    hide IdentifiersPrecede;
  }

  lemma SnapshotsPrecede(a: Version, b: Version)
    requires a.snapshot.Some? && b.snapshot.Some?
    ensures IdentifiersPrecede(Prerelease(a), Prerelease(b)) <==> a.snapshot.value < b.snapshot.value
  {
    TextPrecedesIsStrict("main");
    var m, n := [Numeric(a.snapshot.value)], [Numeric(b.snapshot.value)];
    assert Prerelease(a)[1..] == m && Prerelease(b)[1..] == n;
    assert m[1..] == [] && n[1..] == [];
    assert IdentifiersPrecede(m, n) <==> a.snapshot.value < b.snapshot.value;
  }

  /** It is a strict total order. */
  lemma CompareIsTotalOrder(a: Version, b: Version, c: Version)
    ensures Compare(a, b) < 0 <==> Compare(b, a) > 0
    ensures Compare(a, b) < 0 || a == b || Compare(b, a) < 0
    ensures Compare(a, b) < 0 && Compare(b, c) < 0 ==> Compare(a, c) < 0
  {
  }

  // ---------------------------------------------------------------- caret

  predicate IsInsideCaret(pin: Version, candidate: Version) {
    if Compare(candidate, pin) < 0 then false
    else if candidate.major != pin.major then false
    else if pin.major > 0 then true
    else if candidate.minor != pin.minor then false
    else if pin.minor > 0 then true
    else candidate.patch == pin.patch
  }

  /** The lowest snapshot of the next line that may break compatibility. */
  function NextLine(pin: Version): Version {
    if pin.major > 0 then Version(pin.major + 1, 0, 0, Some(0))
    else if pin.minor > 0 then Version(0, pin.minor + 1, 0, Some(0))
    else Version(0, 0, pin.patch + 1, Some(0))
  }

  /** The caret range is a half-open interval of the order, for every kind of major. */
  lemma CaretIsInterval(pin: Version, candidate: Version)
    ensures IsInsideCaret(pin, candidate) <==> Compare(pin, candidate) <= 0 && Compare(candidate, NextLine(pin)) < 0
  {
  }

  function Numbers(v: Version): seq<nat> {
    [v.major, v.minor, v.patch]
  }

  /** The position of the leftmost number that is not zero, the last one if all are. */
  function Leftmost(numbers: seq<nat>): (i: nat)
    requires numbers != []
    ensures i < |numbers|
  {
    if numbers[0] != 0 || |numbers| == 1 then 0 else 1 + Leftmost(numbers[1..])
  }

  /** A caret allows what is not below the pin and keeps every number up to the leftmost that is not zero. */
  lemma CaretKeepsLeftmost(pin: Version, candidate: Version)
    ensures IsInsideCaret(pin, candidate)
            <==> && !Precedes(candidate, pin)
                 && forall i :: 0 <= i <= Leftmost(Numbers(pin)) ==> Numbers(candidate)[i] == Numbers(pin)[i]
  {
    CompareIsPrecedence(candidate, pin);
    hide Precedes, Compare;
    var a, b := Numbers(pin), Numbers(candidate);
    assert a[1..] == [pin.minor, pin.patch] && a[1..][1..] == [pin.patch];
    assert Leftmost(a) == if pin.major != 0 then 0 else if pin.minor != 0 then 1 else 2;
    assert a[0] == pin.major && a[1] == pin.minor && a[2] == pin.patch;
    assert b[0] == candidate.major && b[1] == candidate.minor && b[2] == candidate.patch;
  }

  /** Moving inside the range keeps the upper end, so ranges nest. */
  lemma CaretIsTransitive(a: Version, b: Version, c: Version)
    requires IsInsideCaret(a, b)
    ensures NextLine(b) == NextLine(a)
    ensures IsInsideCaret(b, c) ==> IsInsideCaret(a, c)
  {
  }

  // ---------------------------------------------------------------- decision

  type Metadata = string

  datatype PinMetadata = Found(metadata: Metadata) | NeverPublished | Unknown

  datatype Target = Target(isAction: bool, name: string)

  datatype Props = Props(
    pin: PinMetadata, imageMetadata: Option<Metadata>, target: Option<Target>,
    check: (Metadata, Metadata, Target) -> bool)

  datatype Image = Image(version: string, loaded: bool)

  datatype PropsCheck = Compatible | NotCheckedNoMetadata

  datatype StayReason =
    | PinUnreadable | PinIsARange | ImageLacksQadam | ImageVersionUnreadable | PinIsImageVersion
    | OutsideCaret | SnapshotWithoutMetadata | PropsUnverifiable | PropsIncompatible | TargetNotLoaded

  datatype Verdict = Move(from: string, to: string, propsCheck: PropsCheck) | Stay(reason: StayReason)

  function CheckProps(pinIsSnapshot: bool, props: Props): Result<PropsCheck, StayReason> {
    if pinIsSnapshot && !props.pin.Found? then Failure(SnapshotWithoutMetadata)
    else if props.pin.Unknown? then Failure(PropsUnverifiable)
    else if props.pin.NeverPublished? then Success(NotCheckedNoMetadata)
    else if props.target.None? || props.imageMetadata.None? then Failure(PropsUnverifiable)
    else if !props.check(props.pin.metadata, props.imageMetadata.value, props.target.value) then Failure(PropsIncompatible)
    else Success(Compatible)
  }

  function Decide(pinnedVersion: string, image: Option<Image>, props: Props): Verdict {
    var pin := ParsePin(pinnedVersion);
    if pin.None? then Stay(PinUnreadable)
    else if pin.value.range.Some? then Stay(PinIsARange)
    else if image.None? then Stay(ImageLacksQadam)
    else
      var candidate := Parse(image.value.version);
      if candidate.None? then Stay(ImageVersionUnreadable)
      else if Compare(candidate.value, pin.value.version) == 0 then Stay(PinIsImageVersion)
      else if !IsInsideCaret(pin.value.version, candidate.value) then Stay(OutsideCaret)
      else
        var verdict := CheckProps(pin.value.version.snapshot.Some?, props);
        if verdict.Failure? then Stay(verdict.error)
        else if !image.value.loaded then Stay(TargetNotLoaded)
        else Move(pinnedVersion, image.value.version, verdict.value)
  }

  /** What the props must show: compatibility, or that a release pin never had any to compare. */
  predicate PropsAllow(pin: Version, props: Props) {
    match props.pin
    case Unknown => false
    case NeverPublished => pin.snapshot.None?
    case Found(metadata) =>
      props.target.Some? && props.imageMetadata.Some?
      && props.check(metadata, props.imageMetadata.value, props.target.value)
  }

  /** A pin moves exactly when it is exact and the image's build is above it, in range, fit and loaded. */
  lemma MovesExactly(pinned: string, image: Option<Image>, props: Props)
    ensures Decide(pinned, image, props).Move?
            <==> && Parse(pinned).Some?
                 && image.Some? && image.value.loaded && Parse(image.value.version).Some?
                 && var pin, candidate := Parse(pinned).value, Parse(image.value.version).value;
                    && Precedes(pin, candidate) && Precedes(candidate, NextLine(pin))
                    && PropsAllow(pin, props)
    ensures Decide(pinned, image, props).Move? ==>
              && Decide(pinned, image, props).from == pinned
              && Decide(pinned, image, props).to == image.value.version
              && (Decide(pinned, image, props).propsCheck == Compatible <==> props.pin.Found?)
  {
    hide Parse, ParsePin, Precedes, NextLine, IsInsideCaret, Compare;
    ExactPin(pinned);
    if Parse(pinned).Some? && image.Some? && Parse(image.value.version).Some? {
      var pin, candidate := Parse(pinned).value, Parse(image.value.version).value;
      CaretIsInterval(pin, candidate);
      CompareIsPrecedence(pin, candidate);
      CompareIsPrecedence(candidate, pin);
      CompareIsPrecedence(candidate, NextLine(pin));
    }
  }

  /** "Nothing to move" is said exactly when the exact pin and the image's build are the same text. */
  lemma SameVersionSameText(pinned: string, image: Image, props: Props)
    ensures Decide(pinned, Some(image), props) == Stay(PinIsImageVersion)
            <==> Parse(pinned).Some? && pinned == image.version
  {
    hide Parse, ParsePin, Print, InBounds, Precedes, IsInsideCaret, Compare;
    ExactPin(pinned);
    if Parse(pinned).Some? {
      PrintOfParse(pinned);
      if Parse(image.version).Some? {
        PrintOfParse(image.version);
        CompareIsPrecedence(Parse(image.version).value, Parse(pinned).value);
      }
    }
  }

  /** The order in which the checks are named. */
  function Rank(reason: StayReason): nat {
    match reason
    case PinUnreadable => 0
    case PinIsARange => 1
    case ImageLacksQadam => 2
    case ImageVersionUnreadable => 3
    case PinIsImageVersion => 4
    case OutsideCaret => 5
    case SnapshotWithoutMetadata => 6
    case PropsUnverifiable => 7
    case PropsIncompatible => 8
    case TargetNotLoaded => 9
  }

  /** Each check on its own, on inputs it can be asked about. */
  predicate Passes(reason: StayReason, pinned: string, image: Option<Image>, props: Props) {
    var pin := Parse(pinned);
    var candidate := if image.Some? then Parse(image.value.version) else None;
    match reason
    case PinUnreadable => ParsePin(pinned).Some?
    case PinIsARange => pin.Some?
    case ImageLacksQadam => image.Some?
    case ImageVersionUnreadable => candidate.Some?
    case PinIsImageVersion => image.Some? && image.value.version != pinned
    case OutsideCaret =>
      pin.Some? && candidate.Some?
      && !Precedes(candidate.value, pin.value) && Precedes(candidate.value, NextLine(pin.value))
    case SnapshotWithoutMetadata => pin.Some? && pin.value.snapshot.Some? ==> props.pin.Found?
    case PropsUnverifiable =>
      !props.pin.Unknown? && (props.pin.Found? ==> props.target.Some? && props.imageMetadata.Some?)
    case PropsIncompatible =>
      props.pin.Found? && props.target.Some? && props.imageMetadata.Some?
      ==> props.check(props.pin.metadata, props.imageMetadata.value, props.target.value)
    case TargetNotLoaded => image.Some? && image.value.loaded
  }

  /** A verdict to stay names the first check that fails, and a verdict to move means that none does. */
  lemma NamesFirstFailure(pinned: string, image: Option<Image>, props: Props, reason: StayReason)
    ensures Decide(pinned, image, props) == Stay(reason)
            <==> !Passes(reason, pinned, image, props)
                 && forall r :: Rank(r) < Rank(reason) ==> Passes(r, pinned, image, props)
    ensures Decide(pinned, image, props).Move? <==> forall r :: Passes(r, pinned, image, props)
  {
    FirstFailure(pinned, image, props);
    var verdict := Decide(pinned, image, props);
    hide Decide, Passes;
    if verdict.Stay? {
      assert Rank(reason) < Rank(verdict.reason) || reason == verdict.reason || Rank(verdict.reason) < Rank(reason);
    }
  }

  lemma FirstFailure(pinned: string, image: Option<Image>, props: Props)
    ensures match Decide(pinned, image, props)
            case Stay(reason) =>
              !Passes(reason, pinned, image, props)
              && forall r :: Rank(r) < Rank(reason) ==> Passes(r, pinned, image, props)
            case Move(_, _, _) => forall r :: Passes(r, pinned, image, props)
  {
    hide Parse, ParsePin, Print, InBounds, Precedes, NextLine, IsInsideCaret, Compare;
    ExactPin(pinned);
    if Parse(pinned).Some? && image.Some? && Parse(image.value.version).Some? {
      var pin, candidate := Parse(pinned).value, Parse(image.value.version).value;
      PrintOfParse(pinned);
      PrintOfParse(image.value.version);
      CaretIsInterval(pin, candidate);
      CompareIsPrecedence(pin, candidate);
      CompareIsPrecedence(candidate, pin);
      CompareIsPrecedence(candidate, NextLine(pin));
    }
  }

  /** The net that runs without props, load or audit checks. */
  function CheckNet(pinnedVersion: string, imageVersion: Option<string>): bool {
    var pin := Parse(pinnedVersion);
    if pin.None? then false
    else if pin.value.snapshot.Some? then false
    else if imageVersion.None? then false
    else
      var candidate := Parse(imageVersion.value);
      if candidate.None? || candidate.value.snapshot.Some? then false
      else IsInsideCaret(pin.value, candidate.value)
  }

  /** The net allows exactly pairs of releases in the caret interval, the pin's own version included. */
  lemma NetAllowsExactly(pinned: string, imageVersion: Option<string>)
    ensures CheckNet(pinned, imageVersion)
            <==> && Parse(pinned).Some? && imageVersion.Some? && Parse(imageVersion.value).Some?
                 && var pin, candidate := Parse(pinned).value, Parse(imageVersion.value).value;
                    && pin.snapshot.None? && candidate.snapshot.None?
                    && !Precedes(candidate, pin) && Precedes(candidate, NextLine(pin))
  {
    if Parse(pinned).Some? && imageVersion.Some? && Parse(imageVersion.value).Some? {
      var pin, candidate := Parse(pinned).value, Parse(imageVersion.value).value;
      CaretIsInterval(pin, candidate);
      CompareIsPrecedence(pin, candidate);
      CompareIsPrecedence(candidate, NextLine(pin));
    }
  }

  // ---------------------------------------------------------------- many images

  datatype Situation = Situation(image: Option<Image>, props: Props)

  function Adopt(pinned: string, s: Situation): string {
    match Decide(pinned, s.image, s.props)
    case Move(_, to, _) => to
    case Stay(_) => pinned
  }

  /** The pin before each situation, and after the last. */
  function Trail(pinned: string, situations: seq<Situation>): (pins: seq<string>)
    ensures |pins| == |situations| + 1
    decreases |situations|
  {
    if situations == [] then [pinned]
    else [pinned] + Trail(Adopt(pinned, situations[0]), situations[1..])
  }

  /** Never below, in the caret of the start, and either the same text or strictly above. */
  predicate Upgrades(from: string, to: string) {
    from == to
    || (&& Parse(from).Some? && Parse(to).Some?
        && Precedes(Parse(from).value, Parse(to).value)
        && IsInsideCaret(Parse(from).value, Parse(to).value))
  }

  lemma AdoptUpgrades(pinned: string, s: Situation)
    ensures Upgrades(pinned, Adopt(pinned, s))
    ensures Adopt(pinned, s) != pinned <==> Decide(pinned, s.image, s.props).Move?
  {
    MovesExactly(pinned, s.image, s.props);
    if Decide(pinned, s.image, s.props).Move? {
      var pin, candidate := Parse(pinned).value, Parse(s.image.value.version).value;
      CaretIsInterval(pin, candidate);
      CompareIsPrecedence(pin, candidate);
      CompareIsPrecedence(candidate, NextLine(pin));
    }
    hide Decide, Precedes, IsInsideCaret, Parse;
  }

  lemma UpgradesChain(a: string, b: string, c: string)
    requires Upgrades(a, b) && Upgrades(b, c)
    ensures Upgrades(a, c)
    ensures a == c ==> a == b == c
  {
    if a != b && b != c {
      var u, v, w := Parse(a).value, Parse(b).value, Parse(c).value;
      CompareIsPrecedence(u, v);
      CompareIsPrecedence(v, w);
      CompareIsPrecedence(u, w);
      CompareIsTotalOrder(u, v, w);
      CaretIsTransitive(u, v, w);
      hide Precedes, IsInsideCaret, Parse;
    }
  }

  lemma UpgradesItself(pinned: string)
    ensures Upgrades(pinned, pinned)
  {
  }

  lemma TrailStarts(pinned: string, situations: seq<Situation>)
    ensures Trail(pinned, situations)[0] == pinned
    ensures situations != [] ==>
              Trail(pinned, situations) == [pinned] + Trail(Adopt(pinned, situations[0]), situations[1..])
  {
    hide Adopt;
  }

  lemma {:induction false} TrailUpgrades(pinned: string, situations: seq<Situation>, i: nat, j: nat)
    requires i <= j <= |situations|
    ensures Upgrades(Trail(pinned, situations)[i], Trail(pinned, situations)[j])
    decreases |situations|
  {
    hide *;
    TrailStarts(pinned, situations);
    if j == 0 {
      UpgradesItself(pinned);
    } else {
      var next := Adopt(pinned, situations[0]);
      if i > 0 {
        TrailUpgrades(next, situations[1..], i - 1, j - 1);
      } else {
        AdoptUpgrades(pinned, situations[0]);
        TrailStarts(next, situations[1..]);
        TrailUpgrades(next, situations[1..], 0, j - 1);
        UpgradesChain(pinned, next, Trail(next, situations[1..])[j - 1]);
      }
    }
  }

  /**
   * Over any sequence of images a pin only goes up, stays in the caret range it started with, and
   * never comes back to a version it has left.
   */
  lemma TrailNeverReturns(pinned: string, situations: seq<Situation>, i: nat, j: nat, k: nat)
    requires i <= j <= k <= |situations|
    ensures var pins := Trail(pinned, situations);
            && Upgrades(pins[0], pins[k])
            && (pins[i] == pins[k] ==> pins[i] == pins[j] == pins[k])
  {
    TrailUpgrades(pinned, situations, 0, k);
    TrailUpgrades(pinned, situations, i, j);
    TrailUpgrades(pinned, situations, j, k);
    hide Upgrades, Trail;
    UpgradesChain(Trail(pinned, situations)[i], Trail(pinned, situations)[j], Trail(pinned, situations)[k]);
  }

  /** Asked again with the image just adopted, whatever the props say now, the answer is to stay. */
  lemma AskAgainStays(pinned: string, s: Situation, again: Props, loaded: bool)
    requires Decide(pinned, s.image, s.props).Move?
    ensures Decide(Adopt(pinned, s), Some(s.image.value.(loaded := loaded)), again) == Stay(PinIsImageVersion)
  {
    MovesExactly(pinned, s.image, s.props);
    SameVersionSameText(s.image.value.version, s.image.value.(loaded := loaded), again);
    hide Parse, Precedes;
  }
}
