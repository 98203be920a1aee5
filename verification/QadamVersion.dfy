/** The text form of qadam versions: `x.y.z`, `x.y.z-main.n`, and pins with an optional `^` or `~`. */
module QadamVersion {
  import opened Wrappers
  import Decimal

  datatype Version = Version(major: nat, minor: nat, patch: nat, snapshot: Option<nat>)

  datatype Range = Caret | Tilde

  datatype Pin = Pin(range: Option<Range>, version: Version)

  /** A number without leading zeros and of at most nine digits, and the text after it. */
  function Number(s: string): Option<(nat, string)> {
    var run := Decimal.DigitPrefix(s);
    if run == "" || |run| > 9 || (run[0] == '0' && |run| > 1) then None
    else Some((Decimal.ToNat(run), s[|run|..]))
  }

  /** What follows `prefix` in `s`. */
  function Expect(s: string, prefix: string): Option<string> {
    if prefix <= s then Some(s[|prefix|..]) else None
  }

  function NumberAfter(s: Option<string>, prefix: string): Option<(nat, string)> {
    if s.None? then None
    else
      var t := Expect(s.value, prefix);
      if t.None? then None else Number(t.value)
  }

  function Rest(r: Option<(nat, string)>): Option<string> {
    if r.None? then None else Some(r.value.1)
  }

  function Parse(s: string): Option<Version> {
    var major := Number(s);
    var minor := NumberAfter(Rest(major), ".");
    var patch := NumberAfter(Rest(minor), ".");
    if patch.None? then None
    else if patch.value.1 == "" then Some(Version(major.value.0, minor.value.0, patch.value.0, None))
    else
      var snapshot := NumberAfter(Rest(patch), "-main.");
      if snapshot.Some? && snapshot.value.1 == "" then
        Some(Version(major.value.0, minor.value.0, patch.value.0, Some(snapshot.value.0)))
      else None
  }

  function ParsePin(s: string): Option<Pin> {
    var range := if s == "" then None else if s[0] == '^' then Some(Caret) else if s[0] == '~' then Some(Tilde) else None;
    var version := Parse(if range.Some? then s[1..] else s);
    if version.None? then None else Some(Pin(range, version.value))
  }

  // ---------------------------------------------------------------- printing

  const LIMIT: nat := 1_000_000_000

  predicate InBounds(v: Version) {
    v.major < LIMIT && v.minor < LIMIT && v.patch < LIMIT && (v.snapshot.Some? ==> v.snapshot.value < LIMIT)
  }

  function SnapshotText(snapshot: Option<nat>): string {
    if snapshot.None? then "" else "-main." + Decimal.Print(snapshot.value)
  }

  function Print(v: Version): string {
    Decimal.Print(v.major) + ("." + (Decimal.Print(v.minor) + ("." + (Decimal.Print(v.patch) + SnapshotText(v.snapshot)))))
  }

  predicate EndsNumber(rest: string) {
    rest != "" ==> !Decimal.IsDigit(rest[0])
  }

  lemma NineDigits(n: nat)
    ensures n < LIMIT <==> |Decimal.Print(n)| <= 9
  {
    Decimal.PrintLength(n, 9);
    assert Decimal.Pow10(3) == 1000;
    assert Decimal.Pow10(6) == 1000 * Decimal.Pow10(3);
    assert Decimal.Pow10(9) == 1000 * Decimal.Pow10(6);
  }

  lemma NumberOfPrint(n: nat, rest: string)
    requires n < LIMIT && EndsNumber(rest)
    ensures Number(Decimal.Print(n) + rest) == Some((n, rest))
  {
    NineDigits(n);
    Decimal.PrintThenRead(n);
    Decimal.DigitPrefixOfRun(Decimal.Print(n), rest);
    assert (Decimal.Print(n) + rest)[|Decimal.Print(n)|..] == rest;
  }

  lemma PrintOfNumber(s: string)
    requires Number(s).Some?
    ensures var (n, rest) := Number(s).value; s == Decimal.Print(n) + rest && n < LIMIT && EndsNumber(rest)
  {
    var run := Decimal.DigitPrefix(s);
    Decimal.ReadThenPrint(run);
    NineDigits(Decimal.ToNat(run));
    assert s == run + s[|run|..];
  }

  lemma AfterPrefix(prefix: string, n: nat, rest: string)
    requires n < LIMIT && EndsNumber(rest)
    ensures NumberAfter(Some(prefix + (Decimal.Print(n) + rest)), prefix) == Some((n, rest))
  {
    var s := prefix + (Decimal.Print(n) + rest);
    assert s[|prefix|..] == Decimal.Print(n) + rest;
    NumberOfPrint(n, rest);
  }

  lemma BeforePrefix(s: Option<string>, prefix: string)
    requires NumberAfter(s, prefix).Some?
    ensures s.Some?
    ensures var (n, rest) := NumberAfter(s, prefix).value;
            s.value == prefix + (Decimal.Print(n) + rest) && n < LIMIT && EndsNumber(rest)
  {
    PrintOfNumber(s.value[|prefix|..]);
    assert s.value == prefix + s.value[|prefix|..];
  }

  /** The numbers stand in the order major, minor, patch, and a snapshot's number after `-main.`. */
  lemma NumbersInOrder(major: nat, minor: nat, patch: nat, snapshot: nat)
    requires major < LIMIT && minor < LIMIT && patch < LIMIT && snapshot < LIMIT
    ensures var release := Decimal.Print(major) + "." + Decimal.Print(minor) + "." + Decimal.Print(patch);
            && Parse(release) == Some(Version(major, minor, patch, None))
            && Parse(release + "-main." + Decimal.Print(snapshot)) == Some(Version(major, minor, patch, Some(snapshot)))
  {
    hide *;
    WithinBounds(major, minor, patch, snapshot);
    ParseOfPrint(Version(major, minor, patch, None));
    ParseOfPrint(Version(major, minor, patch, Some(snapshot)));
    PrintedForm(major, minor, patch, snapshot);
  }

  lemma WithinBounds(major: nat, minor: nat, patch: nat, snapshot: nat)
    requires major < LIMIT && minor < LIMIT && patch < LIMIT && snapshot < LIMIT
    ensures InBounds(Version(major, minor, patch, None)) && InBounds(Version(major, minor, patch, Some(snapshot)))
  {
  }

  lemma PrintedForm(major: nat, minor: nat, patch: nat, snapshot: nat)
    ensures var release := Decimal.Print(major) + "." + Decimal.Print(minor) + "." + Decimal.Print(patch);
            && Print(Version(major, minor, patch, None)) == release
            && Print(Version(major, minor, patch, Some(snapshot))) == release + "-main." + Decimal.Print(snapshot)
  {
    PrintOf(Version(major, minor, patch, None));
    PrintOf(Version(major, minor, patch, Some(snapshot)));
    hide *;
    Regroup(Decimal.Print(major), Decimal.Print(minor), Decimal.Print(patch), Decimal.Print(snapshot));
  }

  lemma PrintOf(v: Version)
    ensures Print(v) == Decimal.Print(v.major) + ("." + (Decimal.Print(v.minor) + ("." + (Decimal.Print(v.patch)
                        + if v.snapshot.None? then "" else "-main." + Decimal.Print(v.snapshot.value)))))
  {
    hide Decimal.Print;
  }

  lemma Regroup(a: string, b: string, c: string, d: string)
    ensures a + ("." + (b + ("." + (c + "")))) == a + "." + b + "." + c
    ensures a + ("." + (b + ("." + (c + ("-main." + d))))) == a + "." + b + "." + c + "-main." + d
  {
    var left, right := a + ("." + (b + ("." + (c + "")))), a + "." + b + "." + c;
    assert |left| == |right| && forall i :: 0 <= i < |left| ==> left[i] == right[i];
  }

  /** The grammar has exactly one text for each version within the bounds. */
  lemma ParseExactly(s: string, v: Version)
    ensures Parse(s) == Some(v) <==> InBounds(v) && s == Print(v)
  {
    if InBounds(v) && s == Print(v) {
      ParseOfPrint(v);
    }
    if Parse(s) == Some(v) {
      PrintOfParse(s);
    }
  }

  lemma ParseOfPrint(v: Version)
    requires InBounds(v)
    ensures Parse(Print(v)) == Some(v)
  {
    var tail := SnapshotText(v.snapshot);
    var afterMinor := "." + (Decimal.Print(v.patch) + tail);
    var afterMajor := "." + (Decimal.Print(v.minor) + afterMinor);
    NumberOfPrint(v.major, afterMajor);
    AfterPrefix(".", v.minor, afterMinor);
    AfterPrefix(".", v.patch, tail);
    if v.snapshot.Some? {
      AfterPrefix("-main.", v.snapshot.value, "");
      assert Decimal.Print(v.snapshot.value) + "" == Decimal.Print(v.snapshot.value);
    }
    hide Number, NumberAfter;
  }

  lemma PrintOfParse(s: string)
    requires Parse(s).Some?
    ensures InBounds(Parse(s).value) && s == Print(Parse(s).value)
  {
    var major := Number(s);
    var minor := NumberAfter(Rest(major), ".");
    var patch := NumberAfter(Rest(minor), ".");
    assert minor.Some? && major.Some?;
    hide Number, NumberAfter;
    PrintOfNumber(s);
    BeforePrefix(Rest(major), ".");
    BeforePrefix(Rest(minor), ".");
    if patch.value.1 != "" {
      BeforePrefix(Rest(patch), "-main.");
      assert Decimal.Print(Parse(s).value.snapshot.value) + "" == Decimal.Print(Parse(s).value.snapshot.value);
    }
  }

  /** The pins without a range are exactly the versions. */
  lemma ExactPin(s: string)
    ensures ParsePin(s).Some? && ParsePin(s).value.range.None? <==> Parse(s).Some?
    ensures Parse(s).Some? ==> ParsePin(s).value.version == Parse(s).value
  {
    hide Parse;
    if Parse(s).Some? {
      StartsWithDigit(s);
    }
  }

  lemma StartsWithDigit(s: string)
    requires Parse(s).Some?
    ensures s != "" && Decimal.IsDigit(s[0])
  {
    PrintOfParse(s);
    hide Parse;
    assert Decimal.IsDigit(Decimal.Print(Parse(s).value.major)[0]);
  }
}
