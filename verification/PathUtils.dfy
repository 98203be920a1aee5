/**
 * Dot paths: the hand-written scanner, the resolver over untyped values, and the lookup that
 * falls back through common wrapper keys and reports the path it rewrote.
 */
module PathUtils {
  import Decimal
  import opened WhiteSpace

  // ---------------------------------------------------------------- parsing

  datatype Segment = Key(name: string) | Index(index: int)

  function Flush(buf: string): seq<Segment> {
    if buf == "" then [] else [Key(buf)]
  }

  /** The text after the first `c`, or nothing. */
  function After(s: string, c: char): (rest: string)
    ensures |rest| <= |s|
  {
    if s == "" then "" else if s[0] == c then s[1..] else After(s[1..], c)
  }

  /** An unquoted index: `num` and what follows it up to the closing bracket, then the text after that. */
  function ScanNumber(s: string, num: string): (scanned: (string, string))
    ensures |scanned.1| <= |s|
    decreases |s|
  {
    if s == "" then (num, "")
    else if s[0] == ']' then (num, s[1..])
    else ScanNumber(s[1..], num + [s[0]])
  }

  /** A quoted key: `key` and what follows it, unescaped, then the text from its closing quote on. */
  function ScanKey(s: string, quote: char, key: string): (scanned: (string, string))
    ensures |scanned.1| <= |s|
    decreases |s|
  {
    if s == "" || s[0] == quote then (key, s)
    else if s[0] == '\\' && |s| > 1 then ScanKey(s[2..], quote, key + [s[1]])
    else ScanKey(s[1..], quote, key + [s[0]])
  }

  predicate IsQuote(c: char) {
    c == '"' || c == '\''
  }

  datatype Number = NaN | Int(value: int)

  /** JavaScript's `parseInt(s, 10)`. */
  function ParseInt(s: string): Number {
    var t := SkipSpace(s);
    if t != "" && t[0] == '-' then Negate(ParseNat(t[1..]))
    else ParseNat(if t != "" && t[0] == '+' then t[1..] else t)
  }

  function ParseNat(s: string): Number {
    var digits := Decimal.DigitPrefix(s);
    if digits == "" then NaN else Int(Decimal.ToNat(digits))
  }

  function Negate(n: Number): Number {
    if n.NaN? then NaN else Int(-n.value)
  }

  function IndexSegment(text: string): Segment {
    match ParseInt(text)
    case NaN => Key(text)
    case Int(n) => Index(n)
  }

  /** The segment that follows an opening bracket, and the text after its closing one. */
  function Bracket(s: string): (r: (Segment, string))
    ensures |r.1| <= |s|
  {
    if s != "" && IsQuote(s[0]) then
      var (key, rest) := ScanKey(s[1..], s[0], "");
      (Key(key), After(if rest == "" then "" else rest[1..], ']'))
    else
      var (num, rest) := ScanNumber(s, "");
      (IndexSegment(num), rest)
  }

  /** The segments of the rest of a path when `buf` has been read and not yet flushed. */
  function ParseFrom(s: string, buf: string): seq<Segment>
    decreases |s|
  {
    if s == "" then Flush(buf)
    else if s[0] == '.' then Flush(buf) + ParseFrom(s[1..], "")
    else if s[0] == '[' then
      var (segment, rest) := Bracket(s[1..]);
      Flush(buf) + [segment] + ParseFrom(rest, "")
    else ParseFrom(s[1..], buf + [s[0]])
  }

  function Parse(path: string): seq<Segment> {
    ParseFrom(path, "")
  }

  /** What is left of `path` at index `i`, which the scanner may push past the end. */
  function Tail(path: string, i: nat): string {
    if i <= |path| then path[i..] else ""
  }

  method ParsePath(path: string) returns (segments: seq<Segment>)
    ensures segments == Parse(path)
  {
    segments := [];
    var i: nat := 0;
    var buf := "";
    while i < |path|
      invariant Parse(path) == segments + ParseFrom(Tail(path, i), buf)
      decreases |path| - i
    {
      var ch := path[i];
      TailStep(path, i);
      assert i + 1 == |path| ==> Tail(path, i + 1) == "";
      ReadOne(segments, Tail(path, i), buf);
      if ch == '.' {
        segments := segments + Flush(buf);
        buf := "";
        i := i + 1;
      } else if ch == '[' {
        segments := segments + Flush(buf);
        buf := "";
        var segment;
        segment, i := ParseBracket(path, i + 1);
        segments := segments + [segment];
      } else {
        buf := buf + [ch];
        i := i + 1;
      }
    }
    segments := segments + Flush(buf);
  }

  /** What one character does, with the segments read so far in front. */
  lemma ReadOne(read: seq<Segment>, s: string, buf: string)
    requires s != ""
    ensures s[0] == '.' ==> read + ParseFrom(s, buf) == read + Flush(buf) + ParseFrom(s[1..], "")
    ensures s[0] == '[' ==>
      var (segment, rest) := Bracket(s[1..]);
      read + ParseFrom(s, buf) == read + Flush(buf) + [segment] + ParseFrom(rest, "")
    ensures s[0] != '.' && s[0] != '[' ==> ParseFrom(s, buf) == ParseFrom(s[1..], buf + [s[0]])
  {
  }

  lemma TailStep(path: string, i: nat)
    requires i < |path|
    ensures Tail(path, i)[0] == path[i] && Tail(path, i)[1..] == Tail(path, i + 1)
  {
  }

  /** The inner scans of the loop above, from the character after an opening bracket. */
  method ParseBracket(path: string, start: nat) returns (segment: Segment, i: nat)
    requires start <= |path|
    ensures i > start
    ensures segment == Bracket(Tail(path, start)).0
    ensures Tail(path, i) == Bracket(Tail(path, start)).1
  {
    hide ScanKey, ScanNumber, After;
    if start < |path| && IsQuote(path[start]) {
      TailStep(path, start);
      var key;
      key, i := ParseKey(path, start + 1, path[start]);
      i := SkipPast(path, i, ']');
      segment := Key(key);
    } else {
      var num;
      num, i := ParseNumber(path, start);
      segment := IndexSegment(num);
    }
  }

  lemma ScanDigit(path: string, i: nat, num: string)
    requires i < |path| && path[i] != ']'
    ensures ScanNumber(Tail(path, i), num) == ScanNumber(Tail(path, i + 1), num + [path[i]])
  {
    TailStep(path, i);
  }

  lemma ScanNumberEnd(path: string, i: nat, num: string)
    requires i <= |path| && (i < |path| ==> path[i] == ']')
    ensures ScanNumber(Tail(path, i), num) == (num, Tail(path, i + 1))
  {
    if i < |path| {
      TailStep(path, i);
    }
  }

  method ParseNumber(path: string, start: nat) returns (num: string, i: nat)
    requires start <= |path|
    ensures i > start
    ensures (num, Tail(path, i)) == ScanNumber(Tail(path, start), "")
  {
    hide ScanNumber, Tail;
    num := "";
    i := start;
    while i < |path| && path[i] != ']'
      invariant start <= i <= |path|
      invariant ScanNumber(Tail(path, start), "") == ScanNumber(Tail(path, i), num)
    {
      ScanDigit(path, i, num);
      num := num + [path[i]];
      i := i + 1;
    }
    ScanNumberEnd(path, i, num);
    i := i + 1;
  }

  lemma {:induction false} ScanOne(path: string, i: nat, quote: char, key: string)
    requires i < |path| && path[i] != quote
    ensures ScanKey(Tail(path, i), quote, key)
         == if path[i] == '\\' && i + 1 < |path|
            then ScanKey(Tail(path, i + 2), quote, key + [path[i + 1]])
            else ScanKey(Tail(path, i + 1), quote, key + [path[i]])
  {
    TailStep(path, i);
    assert i + 1 < |path| ==> Tail(path, i)[2..] == Tail(path, i + 2);
  }

  lemma ScanEnd(path: string, i: nat, quote: char, key: string)
    requires i <= |path| && (i < |path| ==> path[i] == quote)
    ensures var rest := Tail(path, i);
            && ScanKey(rest, quote, key) == (key, rest)
            && Tail(path, i + 1) == if rest == "" then "" else rest[1..]
  {
  }

  /** The quoted key from `start` on; `i` is left one past its closing quote. */
  method ParseKey(path: string, start: nat, quote: char) returns (key: string, i: nat)
    requires start <= |path|
    ensures i > start
    ensures var (scanned, rest) := ScanKey(Tail(path, start), quote, "");
            key == scanned && Tail(path, i) == if rest == "" then "" else rest[1..]
  {
    hide ScanKey, Tail;
    i := start;
    key := "";
    while i < |path| && path[i] != quote
      invariant start <= i <= |path|
      invariant ScanKey(Tail(path, start), quote, "") == ScanKey(Tail(path, i), quote, key)
    {
      ScanOne(path, i, quote, key);
      if path[i] == '\\' && i + 1 < |path| {
        key := key + [path[i + 1]];
        i := i + 2;
      } else {
        key := key + [path[i]];
        i := i + 1;
      }
    }
    ScanEnd(path, i, quote, key);
    i := i + 1;
  }

  method SkipPast(path: string, start: nat, c: char) returns (i: nat)
    ensures i > start
    ensures Tail(path, i) == After(Tail(path, start), c)
  {
    i := start;
    while i < |path| && path[i] != c
      invariant start <= i
      invariant After(Tail(path, start), c) == After(Tail(path, i), c)
    {
      assert Tail(path, i + 1) == Tail(path, i)[1..];
      i := i + 1;
    }
    ghost var atEnd := Tail(path, i);
    assert Tail(path, i + 1) == if atEnd == "" then "" else atEnd[1..];
    i := i + 1;
  }

  // ---------------------------------------------------------------- printing

  /** One step of a path as it may be written: `.name`, `["name"]`, `['name']` or `[n]`. */
  datatype Token =
    | Dotted(name: string)
    | Quoted(name: string, quote: char)
    | Bracketed(index: int)
  {
    predicate Valid() {
      match this
      case Dotted(name) => IsPlain(name)
      case Quoted(_, quote) => IsQuote(quote)
      case Bracketed(_) => true
    }

    function Text(): string {
      match this
      case Dotted(name) => "." + name
      case Quoted(name, quote) => "[" + [quote] + Escape(name, quote) + [quote] + "]"
      case Bracketed(index) => "[" + PrintInt(index) + "]"
    }

    function Meaning(): Segment {
      match this
      case Dotted(name) => Key(name)
      case Quoted(name, _) => Key(name)
      case Bracketed(index) => Index(index)
    }
  }

  predicate IsPlain(name: string) {
    name != "" && '.' !in name && '[' !in name
  }

  function Escape(name: string, quote: char): string {
    if name == "" then ""
    else (if name[0] == quote || name[0] == '\\' then ['\\', name[0]] else [name[0]]) + Escape(name[1..], quote)
  }

  /** JavaScript's `String(n)` for an integer. */
  function PrintInt(n: int): string {
    if n < 0 then "-" + Decimal.Print(-n) else Decimal.Print(n)
  }

  function Text(tokens: seq<Token>): string {
    if tokens == [] then "" else tokens[0].Text() + Text(tokens[1..])
  }

  function Meaning(tokens: seq<Token>): seq<Segment> {
    if tokens == [] then [] else [tokens[0].Meaning()] + Meaning(tokens[1..])
  }

  ghost predicate AllValid(tokens: seq<Token>) {
    forall t :: t in tokens ==> t.Valid()
  }

  /** Whether a reader that reaches `s` flushes whatever it has buffered. */
  predicate StartsStep(s: string) {
    s == "" || s[0] == '.' || s[0] == '['
  }

  lemma {:induction false} ScanEscaped(name: string, quote: char, rest: string, key: string)
    requires IsQuote(quote)
    ensures ScanKey(Escape(name, quote) + [quote] + rest, quote, key) == (key + name, [quote] + rest)
    decreases |name|
  {
    var text := Escape(name, quote) + [quote] + rest;
    if name == "" {
      assert text == [quote] + rest;
      assert key + name == key;
    } else {
      ScanEscaped(name[1..], quote, rest, key + [name[0]]);
      var tail := Escape(name[1..], quote) + [quote] + rest;
      assert key + [name[0]] + name[1..] == key + name;
      if name[0] == quote || name[0] == '\\' {
        assert text[0] == '\\' && text[1] == name[0] && text[2..] == tail;
      } else {
        assert text[0] == name[0] && text[1..] == tail;
      }
    }
  }

  lemma {:induction false} ScanPlainNumber(s: string, rest: string, num: string)
    requires ']' !in s
    ensures ScanNumber(s + "]" + rest, num) == (num + s, rest)
    decreases |s|
  {
    var text := s + "]" + rest;
    if s == "" {
      assert text == "]" + rest && num + s == num;
    } else {
      ScanPlainNumber(s[1..], rest, num + [s[0]]);
      assert text[1..] == s[1..] + "]" + rest;
      assert num + [s[0]] + s[1..] == num + s;
    }
  }

  lemma {:induction false} ParsePrintedNat(n: nat)
    ensures var digits := Decimal.Print(n); SkipSpace(digits) == digits && ParseNat(digits) == Int(n)
  {
    var digits := Decimal.Print(n);
    assert Decimal.IsDigit(digits[0]);
    Decimal.DigitPrefixOfRun(digits, "");
    assert digits + "" == digits;
    Decimal.PrintThenRead(n);
  }

  lemma {:induction false} ParsePrintedInt(n: int)
    ensures ParseInt(PrintInt(n)) == Int(n)
  {
    if n < 0 {
      ParsePrintedNat(-n);
      var digits := Decimal.Print(-n);
      assert PrintInt(n) == "-" + digits;
      assert ("-" + digits)[1..] == digits;
    } else {
      ParsePrintedNat(n);
      assert Decimal.IsDigit(Decimal.Print(n)[0]);
    }
  }

  lemma {:induction false} PrintedIntIsPlain(n: int)
    ensures ']' !in PrintInt(n) && PrintInt(n) != "" && !IsQuote(PrintInt(n)[0])
  {
    var digits := Decimal.Print(if n < 0 then -n else n);
    forall i | 0 <= i < |digits|
      ensures digits[i] != ']' && !IsQuote(digits[i])
    {
      assert Decimal.IsDigit(digits[i]);
    }
  }

  /** Plain text is only buffered. */
  lemma {:induction false} AbsorbPlain(name: string, rest: string, buf: string)
    requires '.' !in name && '[' !in name
    ensures ParseFrom(name + rest, buf) == ParseFrom(rest, buf + name)
    decreases |name|
  {
    if name == "" {
      assert name + rest == rest && buf + name == buf;
    } else {
      assert (name + rest)[1..] == name[1..] + rest;
      assert buf + [name[0]] + name[1..] == buf + name;
      AbsorbPlain(name[1..], rest, buf + [name[0]]);
    }
  }

  lemma {:induction false} ParseDot(rest: string, buf: string)
    ensures ParseFrom("." + rest, buf) == Flush(buf) + Parse(rest)
  {
    assert ("." + rest)[1..] == rest;
  }

  lemma {:induction false} ParseOpen(s: string, buf: string)
    ensures ParseFrom("[" + s, buf) == Flush(buf) + [Bracket(s).0] + Parse(Bracket(s).1)
  {
    assert ("[" + s)[1..] == s;
  }

  lemma {:induction false} BracketOfQuoted(name: string, quote: char, rest: string)
    requires IsQuote(quote)
    ensures Bracket([quote] + Escape(name, quote) + [quote] + "]" + rest) == (Key(name), rest)
  {
    var s := [quote] + Escape(name, quote) + [quote] + "]" + rest;
    ScanEscaped(name, quote, "]" + rest, "");
    assert "" + name == name;
    assert s[1..] == Escape(name, quote) + [quote] + ("]" + rest);
    assert ([quote] + ("]" + rest))[1..] == "]" + rest;
    assert ("]" + rest)[1..] == rest;
  }

  lemma {:induction false} BracketOfIndex(index: int, rest: string)
    ensures Bracket(PrintInt(index) + "]" + rest) == (Index(index), rest)
  {
    ParsePrintedInt(index);
    PrintedIntIsPlain(index);
    ScanPlainNumber(PrintInt(index), rest, "");
    assert "" + PrintInt(index) == PrintInt(index);
  }

  /**
   * The scanner is compositional: any written steps, in any mixture of styles, read back as
   * themselves in front of whatever the rest of the path reads as.
   */
  lemma {:induction false} ParseSteps(tokens: seq<Token>, rest: string, buf: string)
    requires AllValid(tokens) && StartsStep(rest)
    ensures ParseFrom(Text(tokens) + rest, buf) == Flush(buf) + (Meaning(tokens) + Parse(rest))
    decreases |tokens|
  {
    hide *;
    if tokens == [] {
      NoSteps(rest);
      FlushFirst(rest, buf);
    } else {
      FirstStep(tokens, rest);
      ParseSteps(tokens[1..], rest, Pending(tokens[0]));
      ParseTokenBefore(tokens[0], Text(tokens[1..]) + rest, Meaning(tokens[1..]) + Parse(rest), buf);
    }
  }

  /** What a step leaves in the scanner's buffer. */
  function Pending(token: Token): string {
    if token.Dotted? then token.name else ""
  }

  lemma NoSteps(rest: string)
    ensures Text([]) + rest == rest && Meaning([]) + Parse(rest) == Parse(rest)
  {
    assert Text([]) + rest == rest;
  }

  lemma {:induction false} FirstStep(tokens: seq<Token>, rest: string)
    requires tokens != [] && AllValid(tokens)
    ensures tokens[0].Valid() && AllValid(tokens[1..])
    ensures Text(tokens) + rest == tokens[0].Text() + (Text(tokens[1..]) + rest)
    ensures Meaning(tokens) + Parse(rest) == [tokens[0].Meaning()] + (Meaning(tokens[1..]) + Parse(rest))
  {
    hide ParseFrom, Token.Text, Token.Meaning, Token.Valid;
    assert tokens[0] in tokens;
    Regroup(tokens[0].Text(), Text(tokens[1..]), rest);
    Regroup([tokens[0].Meaning()], Meaning(tokens[1..]), Parse(rest));
  }

  lemma {:induction false} ParseTokenBefore(token: Token, more: string, others: seq<Segment>, buf: string)
    requires token.Valid()
    requires ParseFrom(more, Pending(token)) == Flush(Pending(token)) + others
    ensures ParseFrom(token.Text() + more, buf) == Flush(buf) + ([token.Meaning()] + others)
  {
    ParseToken(token, more, buf);
    assert Flush("") + others == others;
    Regroup(Flush(buf), [token.Meaning()], others);
  }

  lemma Regroup<T>(a: seq<T>, b: seq<T>, c: seq<T>)
    ensures a + (b + c) == a + b + c
  {
  }

  lemma {:induction false} FlushFirst(rest: string, buf: string)
    requires StartsStep(rest)
    ensures ParseFrom(rest, buf) == Flush(buf) + Parse(rest)
  {
    if rest == "" {
      assert Flush(buf) + Parse("") == Flush(buf);
    } else if rest[0] == '.' {
      assert Parse(rest) == Parse(rest[1..]);
    } else {
      var (segment, after) := Bracket(rest[1..]);
      assert Flush(buf) + [segment] + Parse(after) == Flush(buf) + ([segment] + Parse(after));
      assert Parse(rest) == [segment] + Parse(after);
    }
  }

  /** One written step, in front of a text whose own first step is still to be read. */
  lemma {:induction false} ParseToken(token: Token, more: string, buf: string)
    requires token.Valid()
    ensures token.Dotted? ==> ParseFrom(token.Text() + more, buf) == Flush(buf) + ParseFrom(more, token.name)
    ensures !token.Dotted? ==> ParseFrom(token.Text() + more, buf) == Flush(buf) + [token.Meaning()] + Parse(more)
  {
    hide ParseFrom, Bracket, Escape, PrintInt, Flush;
    match token
    case Dotted(name) =>
      assert token.Text() + more == "." + (name + more);
      ParseDot(name + more, buf);
      AbsorbPlain(name, more, "");
      assert "" + name == name;
    case Quoted(name, quote) =>
      var s := [quote] + Escape(name, quote) + [quote] + "]" + more;
      assert token.Text() + more == "[" + s;
      ParseOpen(s, buf);
      BracketOfQuoted(name, quote, more);
    case Bracketed(index) =>
      var s := PrintInt(index) + "]" + more;
      assert token.Text() + more == "[" + s;
      ParseOpen(s, buf);
      BracketOfIndex(index, more);
  }

  /** Printing any steps and parsing the text gives the steps back. */
  lemma PrintParseRoundTrip(tokens: seq<Token>)
    requires AllValid(tokens)
    ensures Parse(Text(tokens)) == Meaning(tokens)
  {
    ParseSteps(tokens, "", "");
    assert Text(tokens) + "" == Text(tokens);
    assert Meaning(tokens) + Parse("") == Meaning(tokens);
  }

  /** The canonical printing: every key quoted, every index bracketed. */
  function Quote(segments: seq<Segment>): seq<Token> {
    if segments == [] then []
    else [match segments[0]
          case Key(name) => Quoted(name, '"')
          case Index(n) => Bracketed(n)] + Quote(segments[1..])
  }

  /** Every list of segments, with any text in its keys, can be written and read back. */
  lemma {:induction false} QuotedRoundTrip(segments: seq<Segment>)
    ensures AllValid(Quote(segments)) && Parse(Text(Quote(segments))) == segments
  {
    QuoteValid(segments);
    PrintParseRoundTrip(Quote(segments));
  }

  lemma {:induction false} QuoteValid(segments: seq<Segment>)
    ensures AllValid(Quote(segments)) && Meaning(Quote(segments)) == segments
  {
    if segments != [] {
      QuoteValid(segments[1..]);
    }
  }

  /** `a.b.c` */
  function DotJoin(names: seq<string>): string {
    if names == [] then "" else if |names| == 1 then names[0] else names[0] + "." + DotJoin(names[1..])
  }

  function Keys(names: seq<string>): seq<Segment> {
    seq(|names|, i requires 0 <= i < |names| => Key(names[i]))
  }

  /** The key lemma of the wrapper fallback: a plain word and a dot prepend one segment. */
  lemma {:induction false} PrependStep(word: string, path: string)
    requires IsPlain(word)
    ensures Parse(word + "." + path) == [Key(word)] + Parse(path)
  {
    AbsorbPlain(word, "." + path, "");
    assert word + "." + path == word + ("." + path);
    assert "" + word == word;
    ParseDot(path, word);
  }

  /** The dotted form of plain keys reads as the same segments as their quoted form. */
  lemma {:induction false} DottedAgreesWithQuoted(names: seq<string>)
    requires forall name :: name in names ==> IsPlain(name)
    ensures Parse(DotJoin(names)) == Keys(names) == Parse(Text(Quote(Keys(names))))
  {
    QuotedRoundTrip(Keys(names));
    DottedIsKeys(names);
  }

  lemma {:induction false} DottedIsKeys(names: seq<string>)
    requires forall name :: name in names ==> IsPlain(name)
    ensures Parse(DotJoin(names)) == Keys(names)
  {
    if |names| == 1 {
      assert names[0] in names;
      AbsorbPlain(names[0], "", "");
      assert names[0] + "" == names[0] == "" + names[0];
    } else if |names| > 1 {
      assert names[0] in names;
      PrependStep(names[0], DotJoin(names[1..]));
      DottedIsKeys(names[1..]);
      assert Keys(names) == [Key(names[0])] + Keys(names[1..]);
    }
  }

  predicate OnlyDots(path: string) {
    forall c :: c in path ==> c == '.'
  }

  /** A path has no segments exactly when it is made of dots only. */
  lemma {:induction false} NoSegments(path: string, buf: string)
    ensures ParseFrom(path, buf) == [] <==> buf == "" && OnlyDots(path)
    decreases |path|
  {
    if path != "" {
      assert path[0] in path;
      if path[0] == '.' {
        NoSegments(path[1..], "");
        assert forall c :: c in path <==> c == '.' || c in path[1..] by {
          assert path == ['.'] + path[1..];
        }
        assert ParseFrom(path, buf) == Flush(buf) + ParseFrom(path[1..], "");
      } else if path[0] != '[' {
        NoSegments(path[1..], buf + [path[0]]);
      }
    }
  }

  // ---------------------------------------------------------------- resolving

  /** An untyped value. `Undefined` is what JavaScript reads from a missing key or index. */
  datatype Value =
    | Undefined
    | Null
    | Primitive(text: string)
    | Arr(items: seq<Value>)
    | Obj(fields: map<string, Value>)

  function SegmentText(segment: Segment): string {
    match segment
    case Key(name) => name
    case Index(n) => PrintInt(n)
  }

  function Step(current: Value, segment: Segment): Value {
    match current
    case Arr(items) =>
      var index := if segment.Index? then Int(segment.index) else ParseInt(segment.name);
      if index.Int? && 0 <= index.value < |items| then items[index.value] else Undefined
    case Obj(fields) =>
      var key := SegmentText(segment);
      if key in fields then fields[key] else Undefined
    case _ => Undefined
  }

  function Resolve(value: Value, segments: seq<Segment>): Value
    decreases |segments|
  {
    if segments == [] then value else Resolve(Step(value, segments[0]), segments[1..])
  }

  lemma {:induction false} ResolveUndefined(value: Value, segments: seq<Segment>)
    requires !value.Arr? && !value.Obj? && segments != []
    ensures Resolve(value, segments) == Undefined
    decreases |segments|
  {
    if |segments| > 1 {
      ResolveUndefined(Undefined, segments[1..]);
    }
  }

  method ResolveSegments(obj: Value, segments: seq<Segment>) returns (current: Value)
    ensures current == Resolve(obj, segments)
  {
    current := obj;
    for i := 0 to |segments|
      invariant Resolve(obj, segments) == Resolve(current, segments[i..])
    {
      if current.Arr? || current.Obj? {
        current := Step(current, segments[i]);
        assert segments[i..][1..] == segments[i + 1..];
      } else {
        ResolveUndefined(current, segments[i..]);
        return Undefined;
      }
    }
  }

  // ---------------------------------------------------------------- wrapper fallback

  const COMMON_WRAPPERS: seq<string> :=
    ["properties", "data", "body", "payload", "result", "response", "value", "attributes", "fields"]

  datatype Lookup = Lookup(value: Value, resolvedPath: string)

  /** Whether `obj` has this wrapper and the path does not already start with it. */
  predicate Eligible(obj: Value, segments: seq<Segment>, wrapper: string) {
    obj.Obj? && segments != [] && wrapper in obj.fields && segments[0] != Key(wrapper)
  }

  function Through(obj: Value, segments: seq<Segment>, wrapper: string): Value {
    Resolve(obj, [Key(wrapper)] + segments)
  }

  predicate Reaches(obj: Value, segments: seq<Segment>, wrapper: string) {
    Eligible(obj, segments, wrapper) && Through(obj, segments, wrapper) != Undefined
  }

  /**
   * What a lookup promises. The direct value wins; otherwise the first wrapper of the list that
   * leads to something does; otherwise there is nothing and the path is reported as given.
   */
  ghost predicate IsLookup(obj: Value, path: string, r: Lookup) {
    var segments := Parse(path);
    var direct := Resolve(obj, segments);
    if path == "" then r == Lookup(obj, path)
    else if !obj.Obj? && !obj.Arr? then r == Lookup(Undefined, path)
    else if direct != Undefined then r == Lookup(direct, path)
    else
      || (&& r == Lookup(Undefined, path)
          && forall i :: 0 <= i < |COMMON_WRAPPERS| ==> !Reaches(obj, segments, COMMON_WRAPPERS[i]))
      || (exists i ::
            && 0 <= i < |COMMON_WRAPPERS|
            && Reaches(obj, segments, COMMON_WRAPPERS[i])
            && (forall j :: 0 <= j < i ==> !Reaches(obj, segments, COMMON_WRAPPERS[j]))
            && r == Lookup(Through(obj, segments, COMMON_WRAPPERS[i]), COMMON_WRAPPERS[i] + "." + path))
  }

  method ResolvePathWithWrapperFallback(obj: Value, path: string) returns (r: Lookup)
    ensures IsLookup(obj, path, r)
  {
    if path == "" {
      return Lookup(obj, path);
    }
    if !obj.Obj? && !obj.Arr? {
      return Lookup(Undefined, path);
    }
    var segments := ParsePath(path);
    var direct := ResolveSegments(obj, segments);
    if direct != Undefined {
      return Lookup(direct, path);
    }
    if segments == [] || !obj.Obj? {
      return Lookup(direct, path);
    }
    for i := 0 to |COMMON_WRAPPERS|
      invariant forall j :: 0 <= j < i ==> !Reaches(obj, segments, COMMON_WRAPPERS[j])
    {
      var wrapper := COMMON_WRAPPERS[i];
      if wrapper in obj.fields && segments[0] != Key(wrapper) {
        var fallback := ResolveSegments(obj, [Key(wrapper)] + segments);
        if fallback != Undefined {
          return Lookup(fallback, wrapper + "." + path);
        }
      }
    }
    return Lookup(direct, path);
  }

  lemma WrappersArePlain(i: nat)
    requires i < |COMMON_WRAPPERS|
    ensures IsPlain(COMMON_WRAPPERS[i])
  {
  }

  /** The promise determines the result. */
  lemma LookupIsUnique(obj: Value, path: string, r: Lookup, r': Lookup)
    requires IsLookup(obj, path, r) && IsLookup(obj, path, r')
    ensures r == r'
  {
  }

  /**
   * The reported path leads to the returned value, except in one family: a value that is neither
   * an object nor an array, looked up by a path of dots only. Such a path has no segments, so it
   * resolves to the value itself, while the lookup answers `undefined`.
   */
  lemma ReportedPathResolves(obj: Value, path: string, r: Lookup)
    requires IsLookup(obj, path, r)
    ensures r.value == Resolve(obj, Parse(r.resolvedPath))
            <==> !(path != "" && OnlyDots(path) && (obj.Null? || obj.Primitive?))
    ensures r.value != Undefined ==> r.value == Resolve(obj, Parse(r.resolvedPath))
  {
    var segments := Parse(path);
    NoSegments(path, "");
    if path != "" && !obj.Obj? && !obj.Arr? {
      if segments != [] {
        ResolveUndefined(obj, segments);
      }
    } else if r.resolvedPath != path {
      var i :| && 0 <= i < |COMMON_WRAPPERS|
               && Reaches(obj, segments, COMMON_WRAPPERS[i])
               && r == Lookup(Through(obj, segments, COMMON_WRAPPERS[i]), COMMON_WRAPPERS[i] + "." + path);
      WrappersArePlain(i);
      PrependStep(COMMON_WRAPPERS[i], path);
    }
  }

  /** Looking the reported path up again changes neither the value nor the path. */
  lemma LookupIsFixedPoint(obj: Value, path: string, r: Lookup)
    requires IsLookup(obj, path, r)
    ensures IsLookup(obj, r.resolvedPath, r)
  {
    if r.resolvedPath != path {
      ReportedPathResolves(obj, path, r);
    }
  }
}
