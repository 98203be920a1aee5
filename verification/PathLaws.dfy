/**
 * What paths mean, in terms of their text and of the values they lead into: a grammar that covers every
 * path, and the laws of reading and writing at a path.
 */
module PathLaws {
  import Decimal
  import opened WhiteSpace
  import opened PathUtils

  // ---------------------------------------------------------------- numbers

  /** White space, at most one sign, digits, and whatever comes after the last of them. */
  ghost predicate IsNumberText(text: string, space: string, sign: string, digits: string, rest: string) {
    && text == space + (sign + (digits + rest))
    && (forall i :: 0 <= i < |space| ==> IsSpace(space[i]))
    && (sign == "" || sign == "+" || sign == "-")
    && |digits| > 0 && Decimal.AllDigits(digits)
    && (|rest| > 0 ==> !Decimal.IsDigit(rest[0]))
  }

  function Signed(sign: string, n: nat): int {
    if sign == "-" then 0 - n else n
  }

  ghost predicate ReadsAsNumber(text: string, n: int) {
    exists space, sign, digits, rest ::
      IsNumberText(text, space, sign, digits, rest) && n == Signed(sign, Decimal.ToNat(digits))
  }

  lemma {:induction false} SkipsSpace(space: string, rest: string)
    requires forall i :: 0 <= i < |space| ==> IsSpace(space[i])
    requires rest != "" ==> !IsSpace(rest[0])
    ensures SkipSpace(space + rest) == rest
  {
    if space == "" {
      assert space + rest == rest;
    } else {
      assert (space + rest)[1..] == space[1..] + rest;
      SkipsSpace(space[1..], rest);
    }
  }

  lemma SkipOne(s: string)
    ensures SkipSpace(s) == if s != "" && IsSpace(s[0]) then SkipSpace(s[1..]) else s
  {
    hide IsSpace;
  }

  lemma {:induction false} SplitAtSpace(s: string) returns (space: string)
    ensures s == space + SkipSpace(s)
    ensures forall i :: 0 <= i < |space| ==> IsSpace(space[i])
    ensures SkipSpace(s) != "" ==> !IsSpace(SkipSpace(s)[0])
  {
    hide IsSpace, SkipSpace;
    SkipOne(s);
    if s != "" && IsSpace(s[0]) {
      var more := SplitAtSpace(s[1..]);
      space := [s[0]] + more;
      assert s == [s[0]] + (more + SkipSpace(s[1..]));
    } else {
      space := "";
    }
  }

  lemma SignIsTaken(text: string, sign: string, number: string)
    requires SkipSpace(text) == sign + number && (sign == "" || sign == "+" || sign == "-")
    requires number != "" && Decimal.IsDigit(number[0])
    ensures ParseInt(text) == if sign == "-" then Negate(ParseNat(number)) else ParseNat(number)
  {
    hide SkipSpace, ParseNat, Negate;
    var signed := sign + number;
    if sign == "" {
      assert signed == number;
    } else {
      assert signed[0] == sign[0] && signed[1..] == number;
    }
  }

  lemma SignOrDigitFirst(sign: string, number: string)
    requires sign == "" || sign == "+" || sign == "-"
    requires number != "" && Decimal.IsDigit(number[0])
    ensures sign + number != "" && !IsSpace((sign + number)[0])
  {
    assert (sign + number)[0] == if sign == "" then number[0] else sign[0];
  }

  lemma DigitsParse(digits: string, rest: string)
    requires digits != "" && Decimal.AllDigits(digits) && (rest != "" ==> !Decimal.IsDigit(rest[0]))
    ensures digits + rest != "" && Decimal.IsDigit((digits + rest)[0])
    ensures ParseNat(digits + rest) == Int(Decimal.ToNat(digits))
  {
    hide Decimal.DigitPrefix, Decimal.ToNat;
    assert (digits + rest)[0] == digits[0];
    Decimal.DigitPrefixOfRun(digits, rest);
  }

  lemma NumberTextParses(text: string, space: string, sign: string, digits: string, rest: string)
    requires IsNumberText(text, space, sign, digits, rest)
    ensures ParseInt(text) == Int(Signed(sign, Decimal.ToNat(digits)))
  {
    hide SkipSpace, IsSpace, ParseInt, ParseNat, Decimal.DigitPrefix, Decimal.ToNat, Decimal.AllDigits, Decimal.IsDigit;
    DigitsParse(digits, rest);
    SignOrDigitFirst(sign, digits + rest);
    SkipsSpace(space, sign + (digits + rest));
    SignIsTaken(text, sign, digits + rest);
  }

  lemma SplitSign(text: string) returns (sign: string, number: string)
    ensures SkipSpace(text) == sign + number && (sign == "" || sign == "+" || sign == "-")
    ensures ParseInt(text) == if sign == "-" then Negate(ParseNat(number)) else ParseNat(number)
  {
    hide SkipSpace, ParseNat, Negate;
    var signed := SkipSpace(text);
    if signed != "" && (signed[0] == '-' || signed[0] == '+') {
      sign, number := [signed[0]], signed[1..];
    } else {
      sign, number := "", signed;
    }
  }

  lemma ParsesAsNumberText(text: string, n: int)
    requires ParseInt(text) == Int(n)
    ensures ReadsAsNumber(text, n)
  {
    hide ParseInt, SkipSpace, Decimal.DigitPrefix, Decimal.ToNat, IsSpace;
    var space := SplitAtSpace(text);
    var sign, number := SplitSign(text);
    var digits := Decimal.DigitPrefix(number);
    var rest := number[|digits|..];
    assert number == digits + rest;
    assert text == space + (sign + (digits + rest));
    assert IsNumberText(text, space, sign, digits, rest);
  }

  /** `parseInt` in full: which texts it reads as numbers, and as which. */
  lemma ParseIntExactly(text: string, n: int)
    ensures ParseInt(text) == Int(n) <==> ReadsAsNumber(text, n)
  {
    if ParseInt(text) == Int(n) {
      ParsesAsNumberText(text, n);
    }
    if ReadsAsNumber(text, n) {
      var space, sign, digits, rest :|
        IsNumberText(text, space, sign, digits, rest) && n == Signed(sign, Decimal.ToNat(digits));
      NumberTextParses(text, space, sign, digits, rest);
    }
  }

  // ---------------------------------------------------------------- the grammar of all paths

  /** One character of a quoted key, as it is or behind a backslash. */
  datatype Piece = Bare(c: char) | Escaped(c: char)

  function PieceText(piece: Piece): string {
    match piece
    case Bare(c) => [c]
    case Escaped(c) => ['\\', c]
  }

  function PiecesText(pieces: seq<Piece>): string {
    if pieces == [] then ""
    else PieceText(pieces[0]) + PiecesText(pieces[1..])
  }

  function PiecesKey(pieces: seq<Piece>): string {
    if pieces == [] then "" else [pieces[0].c] + PiecesKey(pieces[1..])
  }

  ghost predicate ArePieces(pieces: seq<Piece>, quote: char) {
    forall i :: 0 <= i < |pieces| && pieces[i].Bare? ==> pieces[i].c != quote && pieces[i].c != '\\'
  }

  /**
   * How a path may go on: a dot, a word up to the next dot or bracket, or a bracket. A bracket holds a
   * bare text or a quoted key; it may be left open at the end of the path, before or after the closing
   * quote, and what stands between the closing quote and the bracket is ignored.
   */
  datatype Shape =
    | Dot(rest: string)
    | Word(name: string, rest: string)
    | Bracket(text: string, rest: string)
    | OpenBracket(text: string)
    | QuotedKey(quote: char, pieces: seq<Piece>, ignored: string, rest: string)
    | OpenAfterKey(quote: char, pieces: seq<Piece>, ignored: string)
    | OpenKey(quote: char, pieces: seq<Piece>, backslash: bool)
  {
    ghost predicate Valid() {
      match this
      case Dot(_) => true
      case Word(name, rest) => IsPlain(name) && StartsStep(rest)
      case Bracket(text, _) => ']' !in text && (|text| > 0 ==> !IsQuote(text[0]))
      case OpenBracket(text) => ']' !in text && (|text| > 0 ==> !IsQuote(text[0]))
      case QuotedKey(quote, pieces, ignored, _) => IsQuote(quote) && ArePieces(pieces, quote) && ']' !in ignored
      case OpenAfterKey(quote, pieces, ignored) => IsQuote(quote) && ArePieces(pieces, quote) && ']' !in ignored
      case OpenKey(quote, pieces, _) => IsQuote(quote) && ArePieces(pieces, quote)
    }

    function Text(): string {
      match this
      case Dot(rest) => "." + rest
      case Word(name, rest) => name + rest
      case Bracket(text, rest) => "[" + (text + "]" + rest)
      case OpenBracket(text) => "[" + text
      case QuotedKey(quote, pieces, ignored, rest) => "[" + ([quote] + (PiecesText(pieces) + ([quote] + (ignored + ("]" + rest)))))
      case OpenAfterKey(quote, pieces, ignored) => "[" + ([quote] + (PiecesText(pieces) + ([quote] + ignored)))
      case OpenKey(quote, pieces, backslash) => "[" + ([quote] + (PiecesText(pieces) + if backslash then "\\" else ""))
    }

    function Rest(): string {
      match this
      case Dot(rest) => rest
      case Word(_, rest) => rest
      case Bracket(_, rest) => rest
      case QuotedKey(_, _, _, rest) => rest
      case _ => ""
    }
  }

  /** What a bare text in brackets means: an index if it reads as a number, else a key. */
  ghost predicate BareMeans(text: string, segment: Segment) {
    match segment
    case Index(n) => ReadsAsNumber(text, n)
    case Key(name) => name == text && forall n :: !ReadsAsNumber(text, n)
  }

  /** The segments that the beginning of a path stands for. */
  ghost predicate Means(shape: Shape, segments: seq<Segment>) {
    match shape
    case Dot(_) => segments == []
    case Word(name, _) => segments == [Key(name)]
    case Bracket(text, _) => |segments| == 1 && BareMeans(text, segments[0])
    case OpenBracket(text) => |segments| == 1 && BareMeans(text, segments[0])
    case QuotedKey(_, pieces, _, _) => segments == [Key(PiecesKey(pieces))]
    case OpenAfterKey(_, pieces, _) => segments == [Key(PiecesKey(pieces))]
    case OpenKey(_, pieces, backslash) => segments == [Key(PiecesKey(pieces) + if backslash then "\\" else "")]
  }

  lemma BareSegment(text: string)
    ensures BareMeans(text, IndexSegment(text))
  {
    forall n
      ensures ParseInt(text) == Int(n) <==> ReadsAsNumber(text, n)
    {
      ParseIntExactly(text, n);
    }
    hide ReadsAsNumber, ParseInt;
  }

  lemma ScanPiece(piece: Piece, quote: char, tail: string, key: string)
    requires ArePieces([piece], quote) && IsQuote(quote)
    ensures ScanKey(PieceText(piece) + tail, quote, key) == ScanKey(tail, quote, key + [piece.c])
  {
    assert [piece][0] == piece;
    var text := PieceText(piece) + tail;
    if piece.Bare? {
      assert text[0] == piece.c && text[1..] == tail;
    } else {
      assert text[0] == '\\' && text[1] == piece.c && text[2..] == tail;
    }
  }

  lemma {:induction false} ScanPieces(pieces: seq<Piece>, quote: char, rest: string, key: string)
    requires ArePieces(pieces, quote) && IsQuote(quote)
    ensures ScanKey(PiecesText(pieces) + rest, quote, key) == ScanKey(rest, quote, key + PiecesKey(pieces))
    decreases |pieces|
  {
    hide ScanKey, PieceText;
    if pieces == [] {
      assert PiecesText(pieces) + rest == rest && key + PiecesKey(pieces) == key;
    } else {
      var c, tail := pieces[0].c, PiecesText(pieces[1..]) + rest;
      assert PiecesText(pieces) + rest == PieceText(pieces[0]) + tail;
      ScanPiece(pieces[0], quote, tail, key);
      ScanPieces(pieces[1..], quote, rest, key + [c]);
      assert key + [c] + PiecesKey(pieces[1..]) == key + PiecesKey(pieces);
    }
  }

  lemma {:induction false} AfterIgnored(ignored: string, rest: string)
    requires ']' !in ignored
    ensures After(ignored + ("]" + rest), ']') == rest
  {
    var text := ignored + ("]" + rest);
    if ignored == "" {
      assert text == "]" + rest;
    } else {
      assert text[1..] == ignored[1..] + ("]" + rest);
      AfterIgnored(ignored[1..], rest);
    }
  }

  lemma {:induction false} NothingAfter(ignored: string)
    requires ']' !in ignored
    ensures After(ignored, ']') == ""
  {
    if ignored != "" {
      NothingAfter(ignored[1..]);
    }
  }

  lemma {:induction false} ScanOpenNumber(s: string, num: string)
    requires ']' !in s
    ensures ScanNumber(s, num) == (num + s, "")
    decreases |s|
  {
    if s == "" {
      assert num + s == num;
    } else {
      ScanOpenNumber(s[1..], num + [s[0]]);
      assert num + [s[0]] + s[1..] == num + s;
    }
  }

  /** The bracket that a shape begins with, and the text after it. */
  lemma BracketOfShape(shape: Shape)
    requires shape.Valid() && !shape.Dot? && !shape.Word?
    ensures var text := shape.Text();
            && text[0] == '[' && Means(shape, [PathUtils.Bracket(text[1..]).0])
            && PathUtils.Bracket(text[1..]).1 == shape.Rest()
  {
    match shape
    case Bracket(text, rest) => BareBracket(text, rest);
    case OpenBracket(text) => OpenBareBracket(text);
    case QuotedKey(quote, pieces, ignored, rest) =>
      var tail := [quote] + (ignored + ("]" + rest));
      KeyOf(quote, pieces, tail);
      ScanStops(tail, quote, PiecesKey(pieces));
      AfterIgnored(ignored, rest);
      assert tail[1..] == ignored + ("]" + rest);
      assert shape.Text()[1..] == [quote] + (PiecesText(pieces) + tail);
    case OpenAfterKey(quote, pieces, ignored) =>
      var tail := [quote] + ignored;
      KeyOf(quote, pieces, tail);
      ScanStops(tail, quote, PiecesKey(pieces));
      NothingAfter(ignored);
      assert tail[1..] == ignored;
      assert shape.Text()[1..] == [quote] + (PiecesText(pieces) + tail);
    case OpenKey(quote, pieces, backslash) =>
      var tail := if backslash then "\\" else "";
      KeyOf(quote, pieces, tail);
      ScanToEnd(backslash, quote, PiecesKey(pieces));
      assert shape.Text()[1..] == [quote] + (PiecesText(pieces) + tail);
  }

  lemma BareBracket(text: string, rest: string)
    requires ']' !in text && (|text| > 0 ==> !IsQuote(text[0]))
    ensures var s := Shape.Bracket(text, rest).Text();
            && s[0] == '[' && BareMeans(text, PathUtils.Bracket(s[1..]).0) && PathUtils.Bracket(s[1..]).1 == rest
  {
    var s := text + "]" + rest;
    assert ("[" + s)[1..] == s;
    ScanPlainNumber(text, rest, "");
    assert "" + text == text;
    BareSegment(text);
    hide IndexSegment, BareMeans, ScanNumber;
  }

  lemma OpenBareBracket(text: string)
    requires ']' !in text && (|text| > 0 ==> !IsQuote(text[0]))
    ensures var s := OpenBracket(text).Text();
            && s[0] == '[' && BareMeans(text, PathUtils.Bracket(s[1..]).0) && PathUtils.Bracket(s[1..]).1 == ""
  {
    assert ("[" + text)[1..] == text;
    ScanOpenNumber(text, "");
    assert "" + text == text;
    BareSegment(text);
    hide IndexSegment, BareMeans, ScanNumber;
  }

  lemma KeyOf(quote: char, pieces: seq<Piece>, tail: string)
    requires IsQuote(quote) && ArePieces(pieces, quote)
    ensures var s := [quote] + (PiecesText(pieces) + tail);
            var scanned := ScanKey(tail, quote, PiecesKey(pieces));
            PathUtils.Bracket(s) == (Key(scanned.0), After(if scanned.1 == "" then "" else scanned.1[1..], ']'))
  {
    var s := [quote] + (PiecesText(pieces) + tail);
    assert s[1..] == PiecesText(pieces) + tail;
    ScanPieces(pieces, quote, tail, "");
    assert "" + PiecesKey(pieces) == PiecesKey(pieces);
    hide ScanKey, After;
  }

  lemma ScanStops(tail: string, quote: char, key: string)
    requires tail != "" && tail[0] == quote
    ensures ScanKey(tail, quote, key) == (key, tail)
  {
  }

  lemma ScanToEnd(backslash: bool, quote: char, key: string)
    requires IsQuote(quote)
    ensures var tail := if backslash then "\\" else "";
            ScanKey(tail, quote, key) == (key + tail, "") && After("", ']') == ""
  {
    assert key + "" == key;
  }

  /** A path means what its beginning means, and then what the rest of it means. */
  lemma ShapeMeans(shape: Shape) returns (first: seq<Segment>)
    requires shape.Valid()
    ensures Means(shape, first) && Parse(shape.Text()) == first + Parse(shape.Rest())
  {
    match shape
    case Dot(rest) =>
      first := [];
      ParseDot(rest, "");
    case Word(name, rest) =>
      first := [Key(name)];
      AbsorbPlain(name, rest, "");
      assert "" + name == name;
      FlushFirst(rest, name);
    case _ =>
      BracketOfShape(shape);
      var s := shape.Text()[1..];
      first := [PathUtils.Bracket(s).0];
      ParseOpen(s, "");
      assert shape.Text() == "[" + s;
      hide Means, PathUtils.Bracket;
      assert [] + first == first;
  }

  lemma {:induction false} SplitWord(s: string) returns (name: string)
    ensures name <= s && '.' !in name && '[' !in name && StartsStep(s[|name|..])
    ensures s != "" && s[0] != '.' && s[0] != '[' ==> name != ""
  {
    if StartsStep(s) {
      name := "";
    } else {
      var more := SplitWord(s[1..]);
      name := [s[0]] + more;
      assert s[1..][|more|..] == s[|name|..];
    }
  }

  lemma {:induction false} SplitBracket(s: string) returns (text: string)
    ensures text <= s && ']' !in text && (|text| < |s| ==> s[|text|] == ']')
  {
    if s == "" || s[0] == ']' {
      text := "";
    } else {
      var more := SplitBracket(s[1..]);
      text := [s[0]] + more;
    }
  }

  lemma PieceInFront(piece: Piece, more: seq<Piece>, quote: char, tail: string)
    requires ArePieces([piece], quote) && ArePieces(more, quote)
    ensures ArePieces([piece] + more, quote)
    ensures PiecesText([piece] + more) + tail == PieceText(piece) + (PiecesText(more) + tail)
  {
    hide PieceText;
    assert [piece][0] == piece;
    assert ([piece] + more)[1..] == more;
  }

  /** A text in quotes is pieces up to the closing quote or the end, maybe with a last backslash. */
  lemma {:induction false} SplitPieces(s: string, quote: char) returns (pieces: seq<Piece>, tail: string)
    requires IsQuote(quote)
    ensures ArePieces(pieces, quote) && s == PiecesText(pieces) + tail
    ensures tail == "" || tail == "\\" || tail[0] == quote
    decreases |s|
  {
    if s == "" || s == "\\" || s[0] == quote {
      pieces, tail := [], s;
    } else {
      var piece := if s[0] == '\\' then Escaped(s[1]) else Bare(s[0]);
      var rest := s[|PieceText(piece)|..];
      assert s == PieceText(piece) + rest;
      hide PieceText, PiecesText, IsQuote;
      var more;
      more, tail := SplitPieces(rest, quote);
      pieces := [piece] + more;
      PieceInFront(piece, more, quote, tail);
    }
  }

  /** Every path begins in one of these ways, so the grammar gives every path a meaning. */
  lemma EveryPathHasShape(path: string) returns (shape: Shape)
    requires path != ""
    ensures shape.Valid() && shape.Text() == path && |shape.Rest()| < |path|
  {
    if path[0] == '.' {
      shape := Dot(path[1..]);
    } else if path[0] != '[' {
      var name := SplitWord(path);
      shape := Word(name, path[|name|..]);
    } else if |path| > 1 && IsQuote(path[1]) {
      shape := QuotedShape(path);
    } else {
      var s := path[1..];
      var text := SplitBracket(s);
      assert |text| > 0 ==> text[0] == s[0];
      if |text| < |s| {
        shape := Shape.Bracket(text, s[|text| + 1..]);
        assert s == text + "]" + s[|text| + 1..];
      } else {
        shape := OpenBracket(text);
      }
    }
  }

  lemma QuotedShape(path: string) returns (shape: Shape)
    requires |path| > 1 && path[0] == '[' && IsQuote(path[1])
    ensures shape.Valid() && shape.Text() == path && |shape.Rest()| < |path|
  {
    var quote, s := path[1], path[2..];
    var pieces, tail := SplitPieces(s, quote);
    assert path == "[" + ([quote] + (PiecesText(pieces) + tail));
    if tail != "" && tail[0] == quote {
      var ignored := SplitBracket(tail[1..]);
      if |ignored| < |tail| - 1 {
        var rest := tail[|ignored| + 2..];
        assert tail == [quote] + (ignored + ("]" + rest));
        shape := QuotedKey(quote, pieces, ignored, rest);
      } else {
        assert tail == [quote] + ignored;
        shape := OpenAfterKey(quote, pieces, ignored);
      }
    } else {
      shape := OpenKey(quote, pieces, tail == "\\");
    }
  }

  // ---------------------------------------------------------------- where a path leads

  function KeyText(segment: Segment): string {
    match segment
    case Key(name) => name
    case Index(n) => PrintInt(n)
  }

  /** Whether a segment means the position `n` of an array. */
  ghost predicate IsPosition(segment: Segment, n: int) {
    match segment
    case Index(m) => m == n
    case Key(name) => ReadsAsNumber(name, n)
  }

  /** Whether the segments lead from `value` to `found`, through elements and fields that are there. */
  ghost predicate LeadsTo(value: Value, segments: seq<Segment>, found: Value)
    decreases |segments|
  {
    if segments == [] then found == value
    else
      match value
      case Arr(items) => exists n :: 0 <= n < |items| && IsPosition(segments[0], n) && LeadsTo(items[n], segments[1..], found)
      case Obj(fields) => KeyText(segments[0]) in fields && LeadsTo(fields[KeyText(segments[0])], segments[1..], found)
      case _ => false
  }

  lemma OnePosition(segment: Segment, m: int, n: int)
    requires IsPosition(segment, m) && IsPosition(segment, n)
    ensures m == n
  {
    if segment.Key? {
      ParseIntExactly(segment.name, m);
      ParseIntExactly(segment.name, n);
    }
  }

  lemma StepInArray(items: seq<Value>, segment: Segment)
    ensures forall n :: 0 <= n < |items| && IsPosition(segment, n) ==> Step(Arr(items), segment) == items[n]
    ensures (forall n :: 0 <= n < |items| ==> !IsPosition(segment, n)) ==> Step(Arr(items), segment) == Undefined
  {
    var index := if segment.Index? then Int(segment.index) else ParseInt(segment.name);
    forall n
      ensures index == Int(n) <==> IsPosition(segment, n)
    {
      if segment.Key? {
        ParseIntExactly(segment.name, n);
      }
    }
    hide ParseInt, IsPosition;
    if index.Int? {
      assert IsPosition(segment, index.value);
    }
  }

  lemma {:induction false} NothingBeyond(segments: seq<Segment>)
    ensures Resolve(Undefined, segments) == Undefined
  {
    if segments != [] {
      ResolveUndefined(Undefined, segments);
    }
  }

  /** Resolving finds what the segments lead to; where they lead nowhere it is undefined. */
  lemma {:induction false} ResolveFinds(value: Value, segments: seq<Segment>)
    ensures forall found :: LeadsTo(value, segments, found) ==> Resolve(value, segments) == found
    ensures Resolve(value, segments) != Undefined ==> LeadsTo(value, segments, Resolve(value, segments))
    decreases |segments|
  {
    if segments != [] {
      var segment, rest := segments[0], segments[1..];
      hide IsPosition, Step;
      match value
      case Arr(items) =>
        StepInArray(items, segment);
        if n :| 0 <= n < |items| && IsPosition(segment, n) {
          ResolveFinds(items[n], rest);
          forall m | 0 <= m < |items| && IsPosition(segment, m)
            ensures m == n
          {
            OnePosition(segment, m, n);
          }
        } else {
          NothingBeyond(rest);
        }
      case Obj(fields) =>
        StepInObject(fields, segment);
        if KeyText(segment) in fields {
          ResolveFinds(fields[KeyText(segment)], rest);
        } else {
          NothingBeyond(rest);
        }
      case _ =>
        ResolveUndefined(value, segments);
    }
  }

  lemma StepInObject(fields: map<string, Value>, segment: Segment)
    ensures Step(Obj(fields), segment) == if KeyText(segment) in fields then fields[KeyText(segment)] else Undefined
  {
  }

  // ---------------------------------------------------------------- reading after writing

  /** `after` is `before` with `written` where the segments lead; every other element and field is as it was. */
  ghost predicate IsWritten(before: Value, segments: seq<Segment>, written: Value, after: Value)
    decreases |segments|
  {
    if segments == [] then after == written
    else
      match (before, after)
      case (Arr(a), Arr(b)) =>
        |a| == |b|
        && exists n :: 0 <= n < |a| && IsPosition(segments[0], n) && IsWritten(a[n], segments[1..], written, b[n])
                       && forall m :: 0 <= m < |a| && m != n ==> a[m] == b[m]
      case (Obj(f), Obj(g)) =>
        var key := KeyText(segments[0]);
        && key in f && f.Keys == g.Keys && IsWritten(f[key], segments[1..], written, g[key])
        && forall other :: other in f && other != key ==> f[other] == g[other]
      case _ => false
  }

  /** Whether two ways into a value part: at some step they mean different elements or fields. */
  ghost predicate Part(value: Value, a: seq<Segment>, b: seq<Segment>)
    decreases |a|
  {
    && a != [] && b != []
    && match value
       case Arr(items) =>
         || (forall n :: IsPosition(a[0], n) ==> !IsPosition(b[0], n))
         || exists n :: 0 <= n < |items| && IsPosition(a[0], n) && IsPosition(b[0], n) && Part(items[n], a[1..], b[1..])
       case Obj(fields) =>
         || KeyText(a[0]) != KeyText(b[0])
         || (KeyText(a[0]) in fields && Part(fields[KeyText(a[0])], a[1..], b[1..]))
       case _ => false
  }

  lemma {:induction false} WrittenIsThere(before: Value, segments: seq<Segment>, written: Value, after: Value)
    requires IsWritten(before, segments, written, after)
    ensures LeadsTo(after, segments, written)
    decreases |segments|
  {
    if segments != [] {
      match (before, after)
      case (Arr(a), Arr(b)) =>
        var n :| 0 <= n < |a| && IsPosition(segments[0], n) && IsWritten(a[n], segments[1..], written, b[n]);
        WrittenIsThere(a[n], segments[1..], written, b[n]);
      case (Obj(f), Obj(g)) =>
        var key := KeyText(segments[0]);
        WrittenIsThere(f[key], segments[1..], written, g[key]);
    }
  }

  /** What was written at a path is read at that path. */
  lemma ReadAfterWrite(before: Value, segments: seq<Segment>, written: Value, after: Value)
    requires IsWritten(before, segments, written, after)
    ensures Resolve(after, segments) == written
  {
    WrittenIsThere(before, segments, written, after);
    ResolveFinds(after, segments);
  }

  /** A path that parts from the one written to reads what it read before. */
  lemma {:induction false} OtherReadsStay(before: Value, segments: seq<Segment>, written: Value, after: Value, others: seq<Segment>)
    requires IsWritten(before, segments, written, after) && Part(before, segments, others)
    ensures Resolve(after, others) == Resolve(before, others)
    decreases |segments|
  {
    hide Step, IsPosition;
    match (before, after)
    case (Arr(a), Arr(b)) =>
      var n :| 0 <= n < |a| && IsPosition(segments[0], n) && IsWritten(a[n], segments[1..], written, b[n])
               && forall m :: 0 <= m < |a| && m != n ==> a[m] == b[m];
      StepInArray(a, others[0]);
      StepInArray(b, others[0]);
      if IsPosition(others[0], n) {
        var m :| 0 <= m < |a| && IsPosition(segments[0], m) && IsPosition(others[0], m) && Part(a[m], segments[1..], others[1..]);
        OnePosition(segments[0], m, n);
        OtherReadsStay(a[n], segments[1..], written, b[n], others[1..]);
      } else {
        assert Step(after, others[0]) == Step(before, others[0]);
      }
    case (Obj(f), Obj(g)) =>
      var key := KeyText(segments[0]);
      StepInObject(f, others[0]);
      StepInObject(g, others[0]);
      if KeyText(others[0]) == key {
        OtherReadsStay(f[key], segments[1..], written, g[key], others[1..]);
      }
  }

  // ---------------------------------------------------------------- what a lookup answers

  /** Whether the segments lead to something. */
  ghost predicate Leads(value: Value, segments: seq<Segment>) {
    exists found :: found != Undefined && LeadsTo(value, segments, found)
  }

  /** Whether a wrapper can stand in: the path does not begin with it already, and it leads to something. */
  ghost predicate StandsIn(obj: Value, segments: seq<Segment>, wrapper: string) {
    obj.Obj? && |segments| > 0 && segments[0] != Key(wrapper) && Leads(obj, [Key(wrapper)] + segments)
  }

  lemma LeadsExactly(value: Value, segments: seq<Segment>)
    ensures Leads(value, segments) <==> Resolve(value, segments) != Undefined
    ensures Leads(value, segments) ==> LeadsTo(value, segments, Resolve(value, segments))
  {
    ResolveFinds(value, segments);
    hide LeadsTo, Resolve;
  }

  lemma StandsInExactly(obj: Value, segments: seq<Segment>, wrapper: string)
    ensures StandsIn(obj, segments, wrapper) <==> Reaches(obj, segments, wrapper)
  {
    LeadsExactly(obj, [Key(wrapper)] + segments);
    if Reaches(obj, segments, wrapper) || StandsIn(obj, segments, wrapper) {
      assert ([Key(wrapper)] + segments)[0] == Key(wrapper);
      assert KeyText(Key(wrapper)) == wrapper;
    }
    hide Resolve;
  }

  /**
   * A lookup answers what the path leads to; where that is nothing, what the first wrapper that can
   * stand in leads to, under the path with that wrapper in front; and where there is none, nothing.
   */
  lemma LookupExactly(obj: Value, path: string, r: Lookup)
    requires IsLookup(obj, path, r)
    ensures path == "" ==> r == Lookup(obj, "")
    ensures path != "" && !obj.Obj? && !obj.Arr? ==> r == Lookup(Undefined, path)
    ensures path != "" && (obj.Obj? || obj.Arr?) && Leads(obj, Parse(path)) ==>
              r.resolvedPath == path && r.value != Undefined && LeadsTo(obj, Parse(path), r.value)
    ensures path != "" && (obj.Obj? || obj.Arr?) && !Leads(obj, Parse(path)) ==>
              forall i :: && 0 <= i < |COMMON_WRAPPERS| && StandsIn(obj, Parse(path), COMMON_WRAPPERS[i])
                          && (forall j :: 0 <= j < i ==> !StandsIn(obj, Parse(path), COMMON_WRAPPERS[j]))
                ==> && r.resolvedPath == COMMON_WRAPPERS[i] + "." + path && r.value != Undefined
                    && LeadsTo(obj, [Key(COMMON_WRAPPERS[i])] + Parse(path), r.value)
    ensures && path != "" && !Leads(obj, Parse(path))
            && (forall i :: 0 <= i < |COMMON_WRAPPERS| ==> !StandsIn(obj, Parse(path), COMMON_WRAPPERS[i]))
            ==> r == Lookup(Undefined, path)
  {
    LeadsExactly(obj, Parse(path));
    forall i | 0 <= i < |COMMON_WRAPPERS|
      ensures StandsIn(obj, Parse(path), COMMON_WRAPPERS[i]) <==> Reaches(obj, Parse(path), COMMON_WRAPPERS[i])
      ensures Reaches(obj, Parse(path), COMMON_WRAPPERS[i]) ==>
                LeadsTo(obj, [Key(COMMON_WRAPPERS[i])] + Parse(path), Through(obj, Parse(path), COMMON_WRAPPERS[i]))
    {
      StandsInExactly(obj, Parse(path), COMMON_WRAPPERS[i]);
      LeadsExactly(obj, [Key(COMMON_WRAPPERS[i])] + Parse(path));
    }
    hide COMMON_WRAPPERS, Parse, Resolve, Through, LeadsTo, Leads, StandsIn, Reaches;
    ReachedIsSomething(obj, Parse(path));
  }

  lemma ReachedIsSomething(obj: Value, segments: seq<Segment>)
    ensures forall wrapper :: Reaches(obj, segments, wrapper) ==> Through(obj, segments, wrapper) != Undefined
  {
  }
}
