/**
 * Hex colours to hue, saturation and lightness, over exact reals, against the HSL to RGB rule of
 * section 7.1 of CSS Color Module Level 4. Hue is in degrees, the other components in 0..1.
 */
module ColorHsl {
  import opened Wrappers

  datatype Rgb = Rgb(r: real, g: real, b: real)
  datatype Hsl = Hsl(hue: real, saturation: real, lightness: real)

  function Max(x: real, y: real): real { if x >= y then x else y }

  function Min(x: real, y: real): real { if x <= y then x else y }

  function Mod(x: real, m: real): real
    requires m > 0.0
  {
    x - m * (x / m).Floor as real
  }

  // ---------------------------------------------------------------- the rule of the standard

  /** The piecewise linear wave of the rule. */
  function Wave(k: real): real {
    Max(-1.0, Min(Min(k - 3.0, 9.0 - k), 1.0))
  }

  function Channel(hsl: Hsl, n: real): real {
    var k := Mod(n + Mod(hsl.hue, 360.0) / 30.0, 12.0);
    var a := hsl.saturation * Min(hsl.lightness, 1.0 - hsl.lightness);
    hsl.lightness - a * Wave(k)
  }

  function HslToRgb(hsl: Hsl): Rgb {
    Rgb(Channel(hsl, 0.0), Channel(hsl, 8.0), Channel(hsl, 4.0))
  }

  // ---------------------------------------------------------------- reading hex

  function HexDigit(c: char): Option<nat> {
    if '0' <= c <= '9' then Some(c as int - '0' as int)
    else if 'a' <= c <= 'f' then Some(10 + c as int - 'a' as int)
    else if 'A' <= c <= 'F' then Some(10 + c as int - 'A' as int)
    else None
  }

  predicate IsHex(s: string) {
    forall i :: 0 <= i < |s| ==> HexDigit(s[i]).Some?
  }

  function Byte(high: char, low: char): nat
    requires HexDigit(high).Some? && HexDigit(low).Some?
  {
    16 * HexDigit(high).value + HexDigit(low).value
  }

  function Share(high: char, low: char): real
    requires HexDigit(high).Some? && HexDigit(low).Some?
  {
    Byte(high, low) as real / 255.0
  }

  /** The colour a text names: `rgb` or `rrggbb` with an optional `#`, anything after that ignored. */
  function Colour(hex: string): Option<Rgb> {
    var digits := if hex != "" && hex[0] == '#' then hex[1..] else hex;
    if |digits| == 3 && IsHex(digits) then
      Some(Rgb(Share(digits[0], digits[0]), Share(digits[1], digits[1]), Share(digits[2], digits[2])))
    else if |digits| >= 6 && IsHex(digits[..6]) then
      Some(Rgb(Share(digits[0], digits[1]), Share(digits[2], digits[3]), Share(digits[4], digits[5])))
    else None
  }

  const LOWER: string := "0123456789abcdef"
  const UPPER: string := "0123456789ABCDEF"

  /** A byte in two hex digits, the higher one first. */
  function TwoDigits(byte: nat, digits: string): string
    requires byte < 256 && |digits| == 16
  {
    [digits[byte / 16], digits[byte % 16]]
  }

  lemma DigitIsRead(d: nat)
    requires d < 16
    ensures HexDigit(LOWER[d]) == Some(d) && HexDigit(UPPER[d]) == Some(d)
  {
    assert d < 10 ==> LOWER[d] == UPPER[d] == ('0' as int + d) as char;
    assert d >= 10 ==> LOWER[d] == ('a' as int + d - 10) as char && UPPER[d] == ('A' as int + d - 10) as char;
  }

  lemma BytesAreRead(byte: nat, digits: string)
    requires byte < 256 && (digits == LOWER || digits == UPPER)
    ensures var text := TwoDigits(byte, digits);
            && |text| == 2 && text[0] != '#' && HexDigit(text[0]).Some? && HexDigit(text[1]).Some?
            && Share(text[0], text[1]) == byte as real / 255.0
  {
    DigitIsRead(byte / 16);
    DigitIsRead(byte % 16);
    hide LOWER, UPPER;
  }

  function WithHash(hash: bool, digits: string): string {
    if hash then "#" + digits else digits
  }

  lemma HashIsDropped(hash: bool, digits: string)
    requires digits != "" && digits[0] != '#'
    ensures var hex := WithHash(hash, digits);
            hex != "" && (if hex[0] == '#' then hex[1..] else hex) == digits
  {
    assert ("#" + digits)[1..] == digits;
  }

  lemma SixDigitsAreRead(hash: bool, digits: string)
    requires |digits| >= 6 && digits[0] != '#' && forall i :: 0 <= i < 6 ==> HexDigit(digits[i]).Some?
    ensures Colour(WithHash(hash, digits))
         == Some(Rgb(Share(digits[0], digits[1]), Share(digits[2], digits[3]), Share(digits[4], digits[5])))
  {
    HashIsDropped(hash, digits);
    hide WithHash, HexDigit, Share;
    assert forall i :: 0 <= i < 6 ==> digits[..6][i] == digits[i];
  }

  predicate IsHexChar(c: char) {
    c in LOWER || c in UPPER
  }

  lemma HexCharsExactly(c: char)
    ensures HexDigit(c).Some? <==> IsHexChar(c)
  {
    if HexDigit(c).Some? {
      var d := HexDigit(c).value;
      assert LOWER[d] == c || UPPER[d] == c;
    }
    if IsHexChar(c) {
      var d :| 0 <= d < 16 && (LOWER[d] == c || UPPER[d] == c);
      DigitIsRead(d);
    }
  }

  /** Exactly the texts with three digits, or at least six of which the first six count, name a colour. */
  lemma ReadableExactly(hash: bool, digits: string)
    requires hash || digits == "" || digits[0] != '#'
    ensures Colour(WithHash(hash, digits)).Some?
            <==> || (|digits| == 3 && forall i :: 0 <= i < 3 ==> IsHexChar(digits[i]))
                 || (|digits| >= 6 && forall i :: 0 <= i < 6 ==> IsHexChar(digits[i]))
  {
    hide HexDigit, IsHexChar;
    assert ("#" + digits)[1..] == digits;
    forall c
      ensures HexDigit(c).Some? <==> IsHexChar(c)
    {
      HexCharsExactly(c);
    }
    if |digits| >= 6 {
      assert forall i :: 0 <= i < 6 ==> digits[..6][i] == digits[i];
    }
  }

  /** Red, green and blue, each printed as two hex digits in either case, read back as themselves. */
  lemma PrintedColourIsRead(r: nat, g: nat, b: nat, cases: string, hash: bool, ignored: string)
    requires r < 256 && g < 256 && b < 256 && (cases == LOWER || cases == UPPER)
    ensures |cases| == 16
    ensures Colour(WithHash(hash, TwoDigits(r, cases) + TwoDigits(g, cases) + TwoDigits(b, cases) + ignored))
         == Some(Rgb(r as real / 255.0, g as real / 255.0, b as real / 255.0))
  {
    hide *;
    CasesAreSixteen();
    BytesAreRead(r, cases);
    BytesAreRead(g, cases);
    BytesAreRead(b, cases);
    SixInPairs(hash, TwoDigits(r, cases), TwoDigits(g, cases), TwoDigits(b, cases), ignored);
  }

  lemma CasesAreSixteen()
    ensures |LOWER| == |UPPER| == 16
  {
  }

  lemma SixInPairs(hash: bool, x: string, y: string, z: string, ignored: string)
    requires |x| == |y| == |z| == 2 && x[0] != '#'
    requires HexDigit(x[0]).Some? && HexDigit(x[1]).Some? && HexDigit(y[0]).Some?
    requires HexDigit(y[1]).Some? && HexDigit(z[0]).Some? && HexDigit(z[1]).Some?
    ensures Colour(WithHash(hash, x + y + z + ignored)) == Some(Rgb(Share(x[0], x[1]), Share(y[0], y[1]), Share(z[0], z[1])))
  {
    hide Colour, WithHash, Share, HexDigit;
    SixDigitsAreRead(hash, x + y + z + ignored);
  }

  lemma ThreeDigitsAreRead(hash: bool, digits: string)
    requires |digits| == 3 && digits[0] != '#' && forall i :: 0 <= i < 3 ==> HexDigit(digits[i]).Some?
    ensures Colour(WithHash(hash, digits))
         == Some(Rgb(Share(digits[0], digits[0]), Share(digits[1], digits[1]), Share(digits[2], digits[2])))
  {
    HashIsDropped(hash, digits);
    hide WithHash, HexDigit, Share;
  }

  lemma DoubledDigit(d: nat, cases: string)
    requires d < 16 && (cases == LOWER || cases == UPPER)
    ensures |cases| == 16 && cases[d] != '#' && HexDigit(cases[d]).Some?
    ensures Share(cases[d], cases[d]) == (17 * d) as real / 255.0
  {
    DigitIsRead(d);
    hide LOWER, UPPER;
  }

  /** A short colour doubles each of its digits. */
  lemma ShortColourIsRead(r: nat, g: nat, b: nat, cases: string, hash: bool)
    requires r < 16 && g < 16 && b < 16 && (cases == LOWER || cases == UPPER)
    ensures |cases| == 16
    ensures Colour(WithHash(hash, [cases[r], cases[g], cases[b]]))
         == Some(Rgb((17 * r) as real / 255.0, (17 * g) as real / 255.0, (17 * b) as real / 255.0))
  {
    DoubledDigit(r, cases);
    DoubledDigit(g, cases);
    DoubledDigit(b, cases);
    hide *;
    ThreeDigitsAreRead(hash, [cases[r], cases[g], cases[b]]);
  }

  predicate InUnit(x: real) {
    0.0 <= x <= 1.0
  }

  predicate IsGrey(rgb: Rgb) {
    rgb.r == rgb.g == rgb.b
  }

  predicate InGamut(rgb: Rgb) {
    InUnit(rgb.r) && InUnit(rgb.g) && InUnit(rgb.b)
  }

  lemma ShareInUnit(high: char, low: char)
    requires HexDigit(high).Some? && HexDigit(low).Some?
    ensures InUnit(Share(high, low))
  {
    assert Byte(high, low) <= 255;
  }

  // ---------------------------------------------------------------- the conversion

  predicate InRange(hsl: Hsl) {
    0.0 <= hsl.hue < 360.0 && InUnit(hsl.saturation) && InUnit(hsl.lightness)
  }

  /** The conversion is the inverse of the standard's rule on every colour it can read. */
  method ParseToHsl(hex: string) returns (hsl: Option<Hsl>)
    ensures hsl.Some? <==> Colour(hex).Some?
    ensures hsl.Some? ==> InRange(hsl.value) && HslToRgb(hsl.value) == Colour(hex).value
    ensures hsl.Some? && IsGrey(Colour(hex).value) ==> hsl.value.hue == hsl.value.saturation == 0.0
  {
    var digits := hex;
    if digits != "" && digits[0] == '#' {
      digits := digits[1..];
    }
    if |digits| == 3 {
      ghost var short := digits;
      digits := [digits[0], digits[0], digits[1], digits[1], digits[2], digits[2]];
      DoublingKeepsHex(short, digits);
    }
    if |digits| < 6 || !IsHex(digits[..6]) {
      return None;
    }
    var r := Share(digits[0], digits[1]);
    var g := Share(digits[2], digits[3]);
    var b := Share(digits[4], digits[5]);
    ShareInUnit(digits[0], digits[1]);
    ShareInUnit(digits[2], digits[3]);
    ShareInUnit(digits[4], digits[5]);
    var converted := Convert(Rgb(r, g, b));
    hsl := Some(converted);
  }

  lemma DoublingKeepsHex(short: string, long: string)
    requires |short| == 3 && long == [short[0], short[0], short[1], short[1], short[2], short[2]]
    ensures IsHex(long[..6]) <==> IsHex(short)
  {
    assert long[..6] == long;
    if IsHex(long) {
      assert HexDigit(long[0]).Some? && HexDigit(long[2]).Some? && HexDigit(long[4]).Some?;
    }
  }

  method Convert(rgb: Rgb) returns (hsl: Hsl)
    requires InGamut(rgb)
    ensures InRange(hsl) && HslToRgb(hsl) == rgb
    ensures IsGrey(rgb) ==> hsl.hue == hsl.saturation == 0.0
  {
    hide HslToRgb, Max, Min, InRange;
    MinBelowMax(rgb);
    var r, g, b := rgb.r, rgb.g, rgb.b;
    var max := Max(Max(r, g), b);
    var min := Min(Min(r, g), b);
    var lightness := (max + min) / 2.0;
    var hue, saturation := 0.0, 0.0;
    if max != min {
      var delta := max - min;
      saturation := if lightness > 0.5 then delta / (2.0 - max - min) else delta / (max + min);
      if max == r {
        hue := (g - b) / delta + (if g < b then 6.0 else 0.0);
      } else if max == g {
        hue := (b - r) / delta + 2.0;
      } else {
        hue := (r - g) / delta + 4.0;
      }
      Chromatic(rgb, max, min, hue, saturation);
      hue := hue / 6.0;
    } else {
      GreyIsFlat(lightness);
    }
    hue := hue * 360.0;
    hsl := Hsl(hue, saturation, lightness);
  }

  // ---------------------------------------------------------------- why it inverts

  function Wrap(x: real): real {
    if x >= 12.0 then x - 12.0 else x
  }

  lemma ModTwelve(x: real)
    requires 0.0 <= x < 24.0
    ensures Mod(x, 12.0) == Wrap(x)
  {
    assert (x / 12.0).Floor == if x >= 12.0 then 1 else 0;
  }

  lemma ModTurn(x: real)
    requires 0.0 <= x < 360.0
    ensures Mod(x, 360.0) == x
  {
    assert (x / 360.0).Floor == 0;
  }

  /** The extremes meet exactly for grey. */
  lemma MinBelowMax(rgb: Rgb)
    ensures var max, min := Max(Max(rgb.r, rgb.g), rgb.b), Min(Min(rgb.r, rgb.g), rgb.b);
            min <= max && (min == max <==> IsGrey(rgb)) && (min == max ==> (max + min) / 2.0 == rgb.r)
            && (InGamut(rgb) ==> 0.0 <= min && max <= 1.0)
  {
  }

  lemma GreyIsFlat(l: real)
    requires InUnit(l)
    ensures InRange(Hsl(0.0, 0.0, l))
    ensures HslToRgb(Hsl(0.0, 0.0, l)) == Rgb(l, l, l)
  {
    forall n: real
      ensures Channel(Hsl(0.0, 0.0, l), n) == l
    {
      FlatChannel(l, Mod(n + Mod(0.0, 360.0) / 30.0, 12.0));
    }
  }

  lemma FlatChannel(l: real, k: real)
    ensures l - (0.0 * Min(l, 1.0 - l)) * Wave(k) == l
  {
    assert 0.0 * Min(l, 1.0 - l) == 0.0;
  }

  lemma Quotient(x: real, d: real)
    requires d > 0.0
    ensures (x / d) * d == x
  {
  }

  lemma Degrees(turn: real)
    ensures turn / 6.0 * 360.0 == 60.0 * turn
  {
  }

  /** The branch for colours that are not grey. */
  lemma Chromatic(rgb: Rgb, max: real, min: real, turn: real, saturation: real)
    requires InGamut(rgb) && AreExtremes(rgb, max, min) && turn == Turn(rgb, max, min)
    requires saturation
          == if (max + min) / 2.0 > 0.5 then (max - min) / (2.0 - max - min) else (max - min) / (max + min)
    ensures var hsl := Hsl(turn / 6.0 * 360.0, saturation, (max + min) / 2.0);
            InRange(hsl) && HslToRgb(hsl) == rgb
  {
    hide *;
    Extremes(rgb, max, min);
    ExtremesInUnit(rgb, max, min);
    RangeOfTurn(rgb, max, min);
    Degrees(turn);
    Amplitude(max, min, saturation);
    var hsl := Hsl(turn / 6.0 * 360.0, saturation, (max + min) / 2.0);
    Inverts(rgb, max, min, hsl);
    Assembled(hsl, rgb);
  }

  lemma ExtremesInUnit(rgb: Rgb, max: real, min: real)
    requires InGamut(rgb) && AreExtremes(rgb, max, min)
    ensures 0.0 <= min < max <= 1.0
  {
  }

  lemma Assembled(hsl: Hsl, rgb: Rgb)
    requires 0.0 <= hsl.hue < 360.0 && InUnit(hsl.saturation) && 0.0 <= hsl.lightness <= 1.0
    requires Rgb(Channel(hsl, 0.0), Channel(hsl, 8.0), Channel(hsl, 4.0)) == rgb
    ensures InRange(hsl) && HslToRgb(hsl) == rgb
  {
    hide Channel;
  }

  lemma RangeOfTurn(rgb: Rgb, max: real, min: real)
    requires AreExtremes(rgb, max, min) && max > min
    ensures 0.0 <= Turn(rgb, max, min) < 6.0
  {
    hide *;
    TurnOf(rgb, max, min, Turn(rgb, max, min), max - min, (max - min) * Turn(rgb, max, min));
  }

  /** Either formula makes the saturation span exactly half the distance between the extremes. */
  lemma Amplitude(max: real, min: real, s: real)
    requires 0.0 <= min < max <= 1.0
    requires s == if (max + min) / 2.0 > 0.5 then (max - min) / (2.0 - max - min) else (max - min) / (max + min)
    ensures InUnit(s)
    ensures var l := (max + min) / 2.0; s * Min(l, 1.0 - l) == (max - min) / 2.0
  {
    var d := max - min;
    var whole := if (max + min) / 2.0 > 0.5 then 2.0 - max - min else max + min;
    Quotient(d, whole);
    QuotientInUnit(d, whole);
    var l := (max + min) / 2.0;
    assert Min(l, 1.0 - l) == whole / 2.0;
    HalfProduct(s, whole);
  }

  lemma HalfProduct(s: real, whole: real)
    ensures s * (whole / 2.0) == (s * whole) / 2.0
  {
  }

  lemma QuotientInUnit(x: real, d: real)
    requires 0.0 <= x <= d && d > 0.0
    ensures InUnit(x / d)
  {
  }

  /** A channel, as a multiple of the amplitude, when the hue is `turn` sixths of a circle. */
  lemma ChannelAt(hsl: Hsl, turn: real, half: real, n: real)
    requires 0.0 <= turn < 6.0 && hsl.hue == 60.0 * turn && 0.0 <= n <= 8.0
    requires hsl.saturation * Min(hsl.lightness, 1.0 - hsl.lightness) == half
    ensures Channel(hsl, n) == hsl.lightness - half * Wave(Wrap(n + 2.0 * turn))
  {
    ModTurn(hsl.hue);
    ModTwelve(n + 2.0 * turn);
    assert n + Mod(hsl.hue, 360.0) / 30.0 == n + 2.0 * turn;
  }

  /** The hue, in sixths of a circle. */
  function Turn(rgb: Rgb, max: real, min: real): real
    requires max > min
  {
    var d := max - min;
    if max == rgb.r then (rgb.g - rgb.b) / d + (if rgb.g < rgb.b then 6.0 else 0.0)
    else if max == rgb.g then (rgb.b - rgb.r) / d + 2.0
    else (rgb.r - rgb.g) / d + 4.0
  }

  predicate AreExtremes(rgb: Rgb, max: real, min: real) {
    && max == Max(Max(rgb.r, rgb.g), rgb.b)
    && min == Min(Min(rgb.r, rgb.g), rgb.b)
    && min < max
  }

  /** Where the hue lies, and what it is when multiplied by the distance `d` of the extremes. */
  predicate TurnFacts(rgb: Rgb, max: real, d: real, turn: real, product: real) {
    if max == rgb.r then
      if rgb.g < rgb.b then 5.0 <= turn && product == rgb.g - rgb.b + 6.0 * d
      else turn <= 1.0 && product == rgb.g - rgb.b
    else if max == rgb.g then
      1.0 <= turn <= 3.0 && product == rgb.b - rgb.r + 2.0 * d && (rgb.b <= rgb.r <==> turn <= 2.0)
    else
      3.0 <= turn <= 5.0 && product == rgb.r - rgb.g + 4.0 * d && (rgb.r <= rgb.g <==> turn <= 4.0)
  }

  /** The channel at `n`, as a function of the hue that is linear piece by piece. */
  predicate ChannelFacts(f: real, l: real, d: real, turn: real, n: real, product: real) {
    var x := n + 2.0 * turn;
    && (x <= 2.0 || 10.0 <= x <= 14.0 ==> f == l + d / 2.0)
    && (4.0 <= x <= 8.0 || 16.0 <= x ==> f == l - d / 2.0)
    && (2.0 <= x <= 4.0 ==> f == l - (n - 3.0) * d / 2.0 - product)
    && (8.0 <= x <= 10.0 ==> f == l - (9.0 - n) * d / 2.0 + product)
    && (14.0 <= x <= 16.0 ==> f == l - (n - 15.0) * d / 2.0 - product)
  }

  lemma Assemble(rgb: Rgb, max: real, min: real, turn: real, d: real, product: real, f0: real, f8: real, f4: real)
    requires AreExtremes(rgb, max, min) && 0.0 <= turn < 6.0 && d == max - min
    requires TurnFacts(rgb, max, d, turn, product)
    requires ChannelFacts(f0, (max + min) / 2.0, d, turn, 0.0, product)
    requires ChannelFacts(f8, (max + min) / 2.0, d, turn, 8.0, product)
    requires ChannelFacts(f4, (max + min) / 2.0, d, turn, 4.0, product)
    ensures Rgb(f0, f8, f4) == rgb
  {
  }

  /** The hue is in range, and times the distance it is linear in the channels. */
  lemma TurnOf(rgb: Rgb, max: real, min: real, turn: real, d: real, product: real)
    requires AreExtremes(rgb, max, min) && turn == Turn(rgb, max, min)
    requires d == max - min && product == d * turn
    ensures 0.0 <= turn < 6.0 && TurnFacts(rgb, max, d, turn, product)
  {
    Extremes(rgb, max, min);
    hide AreExtremes, Max, Min, TurnFacts;
    if max == rgb.r {
      TurnAtRed(rgb, max, min, turn, d, product);
    } else if max == rgb.g {
      Sector(rgb.b - rgb.r, d, 2.0, turn, product);
      TurnFactsOf(rgb, max, d, turn, product);
    } else {
      Sector(rgb.r - rgb.g, d, 4.0, turn, product);
      TurnFactsOf(rgb, max, d, turn, product);
    }
  }

  lemma TurnFactsOf(rgb: Rgb, max: real, d: real, turn: real, product: real)
    requires if max == rgb.r then
               if rgb.g < rgb.b then 5.0 <= turn && product == rgb.g - rgb.b + 6.0 * d
               else turn <= 1.0 && product == rgb.g - rgb.b
             else if max == rgb.g then
               1.0 <= turn <= 3.0 && product == rgb.b - rgb.r + 2.0 * d && (rgb.b - rgb.r <= 0.0 <==> turn <= 2.0)
             else
               3.0 <= turn <= 5.0 && product == rgb.r - rgb.g + 4.0 * d && (rgb.r - rgb.g <= 0.0 <==> turn <= 4.0)
    ensures TurnFacts(rgb, max, d, turn, product)
  {
  }

  lemma TurnAtRed(rgb: Rgb, max: real, min: real, turn: real, d: real, product: real)
    requires max == rgb.r && min < max && d == max - min && product == d * turn && turn == Turn(rgb, max, min)
    requires min <= rgb.g <= max && min <= rgb.b <= max
    ensures 0.0 <= turn < 6.0 && TurnFacts(rgb, max, d, turn, product)
  {
    if rgb.g < rgb.b {
      Sector(rgb.g - rgb.b, d, 6.0, turn, product);
      NotYetFull(rgb.g - rgb.b, d, turn);
    } else {
      Sector(rgb.g - rgb.b, d, 0.0, turn, product);
      if rgb.g == rgb.b {
        assert turn == 0.0;
      } else {
        Sector(rgb.b - rgb.g, d, 0.0, -turn, -product);
      }
    }
    TurnFactsOf(rgb, max, d, turn, product);
  }

  lemma NotYetFull(x: real, d: real, turn: real)
    requires x < 0.0 && d > 0.0 && turn == x / d + 6.0
    ensures turn < 6.0
  {
    Quotient(x, d);
    SignOfProduct(x / d, d);
  }

  lemma Extremes(rgb: Rgb, max: real, min: real)
    requires AreExtremes(rgb, max, min)
    ensures min <= rgb.r <= max && min <= rgb.g <= max && min <= rgb.b <= max
    ensures max == rgb.r || max == rgb.g || max == rgb.b
    ensures min == rgb.r || min == rgb.g || min == rgb.b
    ensures min < max
  {
  }

  lemma Sector(x: real, d: real, c: real, turn: real, product: real)
    requires -d <= x <= d && d > 0.0
    requires turn == x / d + c && product == d * turn
    ensures c - 1.0 <= turn <= c + 1.0 && product == x + c * d
    ensures x <= 0.0 <==> turn <= c
  {
    Quotient(x, d);
    Distribute(d, x / d, c);
    QuotientBounds(x / d, x, d);
  }

  /** Bounds of a quotient, from the product it stands for. */
  lemma QuotientBounds(q: real, x: real, d: real)
    requires d > 0.0 && q * d == x && -d <= x <= d
    ensures -1.0 <= q <= 1.0 && (x <= 0.0 <==> q <= 0.0)
  {
    SignOfProduct(q, d);
    SignOfProduct(q - 1.0, d);
    SignOfProduct(q + 1.0, d);
    assert (q - 1.0) * d == q * d - d && (q + 1.0) * d == q * d + d;
  }

  lemma SignOfProduct(q: real, d: real)
    requires d > 0.0
    ensures q > 0.0 <==> q * d > 0.0
    ensures q < 0.0 <==> q * d < 0.0
  {
  }

  lemma Distribute(d: real, q: real, c: real)
    ensures d * (q + c) == q * d + c * d
  {
  }

  /** The standard's rule takes the converted colour back. */
  lemma Inverts(rgb: Rgb, max: real, min: real, hsl: Hsl)
    requires AreExtremes(rgb, max, min) && max > min
    requires hsl.hue == 60.0 * Turn(rgb, max, min) && hsl.lightness == (max + min) / 2.0
    requires hsl.saturation * Min(hsl.lightness, 1.0 - hsl.lightness) == (max - min) / 2.0
    ensures Rgb(Channel(hsl, 0.0), Channel(hsl, 8.0), Channel(hsl, 4.0)) == rgb
  {
    hide *;
    var d, turn := max - min, Turn(rgb, max, min);
    var product := d * turn;
    TurnOf(rgb, max, min, turn, d, product);
    ThreeChannels(hsl, d, turn, product);
    Assemble(rgb, max, min, turn, d, product, Channel(hsl, 0.0), Channel(hsl, 8.0), Channel(hsl, 4.0));
  }

  lemma ThreeChannels(hsl: Hsl, d: real, turn: real, product: real)
    requires 0.0 <= turn < 6.0 && hsl.hue == 60.0 * turn && product == d * turn
    requires hsl.saturation * Min(hsl.lightness, 1.0 - hsl.lightness) == d / 2.0
    ensures ChannelFacts(Channel(hsl, 0.0), hsl.lightness, d, turn, 0.0, product)
    ensures ChannelFacts(Channel(hsl, 4.0), hsl.lightness, d, turn, 4.0, product)
    ensures ChannelFacts(Channel(hsl, 8.0), hsl.lightness, d, turn, 8.0, product)
  {
    hide *;
    ChannelIs(hsl, d, turn, 0.0, product);
    ChannelIs(hsl, d, turn, 4.0, product);
    ChannelIs(hsl, d, turn, 8.0, product);
  }

  lemma ChannelIs(hsl: Hsl, d: real, turn: real, n: real, product: real)
    requires 0.0 <= turn < 6.0 && hsl.hue == 60.0 * turn && 0.0 <= n <= 8.0 && product == d * turn
    requires hsl.saturation * Min(hsl.lightness, 1.0 - hsl.lightness) == d / 2.0
    ensures ChannelFacts(Channel(hsl, n), hsl.lightness, d, turn, n, product)
  {
    ChannelAt(hsl, turn, d / 2.0, n);
    hide Channel, Wave, Wrap, Mod;
    ScaledWave(d, turn, n, product);
  }

  /** The wave times half the distance `d`, for a channel at `n`, piece by piece and linear in `d * turn`. */
  lemma ScaledWave(d: real, turn: real, n: real, product: real)
    requires 0.0 <= turn < 6.0 && 0.0 <= n <= 8.0 && product == d * turn
    ensures var x, w := n + 2.0 * turn, d / 2.0 * Wave(Wrap(n + 2.0 * turn));
            && (x <= 2.0 || 10.0 <= x <= 14.0 ==> w == -d / 2.0)
            && (4.0 <= x <= 8.0 || 16.0 <= x ==> w == d / 2.0)
            && (2.0 <= x <= 4.0 ==> w == (n - 3.0) * d / 2.0 + product)
            && (8.0 <= x <= 10.0 ==> w == (9.0 - n) * d / 2.0 - product)
            && (14.0 <= x <= 16.0 ==> w == (n - 15.0) * d / 2.0 + product)
  {
    Spread(d, turn, n - 3.0);
    Spread(d, turn, n - 15.0);
    Spread(d, -turn, 9.0 - n);
  }

  lemma Spread(d: real, turn: real, c: real)
    ensures d / 2.0 * (c + 2.0 * turn) == c * d / 2.0 + d * turn
  {
  }
}
