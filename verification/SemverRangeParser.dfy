/** Ranges as texts: the range parser, the printing of a range, and the way back. */
module SemverRangeParser {
  import opened Blocks
  import opened Decimals
  import opened Wrappers
  import opened SemverLexer
  import opened SemverGrammar
  import opened SemverParser
  import opened SemverAcceptance
  import opened SemverPrinter
  import opened SemverRange
  import opened SemverOrder
  import opened SemverLocality

  function SkipSpaces(tokens: seq<Token>, i: nat): (j: nat)
    requires At(tokens, i)
    ensures i <= j < |tokens| && tokens[j].kind != Space
    decreases |tokens| - i
  {
    if tokens[i].kind == Space then SkipSpaces(tokens, i + 1) else i
  }

  /** An operator, which may be missing and then is equality, and a version. */
  function ComparatorAt(tokens: seq<Token>, i: nat): (r: Step<Comparator>)
    requires At(tokens, i)
    ensures r.Ok? ==> i < r.value.1 < |tokens|
  {
    var given := tokens[i].kind == Operator;
    var op := if given then tokens[i].value.op else EqualTo;
    match VersionAt(tokens, SkipSpaces(tokens, if given then i + 1 else i))
    case Err(e) => Err(e)
    case Ok((v, j)) => Ok((Comparator(v, op), j))
  }

  function PrependOne<T>(x: T, step: Step<seq<T>>): Step<seq<T>> {
    match step
    case Err(e) => Err(e)
    case Ok((rest, j)) => Ok(([x] + rest, j))
  }

  /** One comparator, and more as long as an operator or a digit follows. */
  function RangeAt(tokens: seq<Token>, i: nat): (r: Step<Range>)
    requires At(tokens, i)
    ensures r.Ok? ==> i < r.value.1 < |tokens|
    decreases |tokens| - i
  {
    match ComparatorAt(tokens, SkipSpaces(tokens, i))
    case Err(e) => Err(e)
    case Ok((c, j)) =>
      var k := SkipSpaces(tokens, j);
      if tokens[k].kind == Operator || tokens[k].kind == Digit then PrependOne(c, RangeAt(tokens, k)) else Ok(([c], k))
  }

  /** Ranges with an or between them. */
  function RangesAt(tokens: seq<Token>, i: nat): (r: Step<seq<Range>>)
    requires At(tokens, i)
    ensures r.Ok? ==> i < r.value.1 < |tokens|
    decreases |tokens| - i
  {
    match RangeAt(tokens, i)
    case Err(e) => Err(e)
    case Ok((range, j)) =>
      var k := SkipSpaces(tokens, j);
      if tokens[k].kind == LogicalOr then PrependOne(range, RangesAt(tokens, k + 1)) else Ok(([range], k))
  }

  /** What parsing a text as a set of ranges gives; what follows the ranges does not matter. */
  function ParsedRanges(text: string): Result<seq<Range>, Failure> {
    match ScanFrom(text, 0)
    case Err(e) => Err(e)
    case Ok(tokens) =>
      match RangesAt(tokens, 0)
      case Err(e) => Err(e)
      case Ok((ranges, _)) => Ok(ranges)
  }

  // --- the methods ------------------------------------------------------------------------------------

  /**
   * Of the items from i on, done have been read: the rest is at the cursor, or there are no more. The
   * whole is what reading from i gives, the rest what reading from the cursor gives.
   */
  ghost predicate GoesOn<T>(whole: Step<seq<T>>, done: seq<T>, rest: Step<seq<T>>, cursor: nat, more: bool) {
    if !more then whole == Ok((done, cursor)) else
      match rest
      case Ok((items, k)) => whole == Ok((done + items, k))
      case Err(e) => whole == Err(e)
  }

  lemma GoesOnFirst<T>(whole: Step<seq<T>>, cursor: nat)
    ensures GoesOn(whole, [], whole, cursor, true)
  {
    assert whole.Ok? ==> [] + whole.value.0 == whole.value.0;
  }

  lemma GoesOnNext<T>(whole: Step<seq<T>>, done: seq<T>, x: T, step: Step<seq<T>>, cursor: nat)
    requires GoesOn(whole, done, PrependOne(x, step), cursor, true)
    ensures GoesOn(whole, done + [x], step, cursor, true)
  {
    if step.Ok? {
      Associative(done, [x], step.value.0);
    }
  }

  class RangeParser {
    const stream: TokenStream

    constructor (stream: TokenStream)
      ensures this.stream == stream
    {
      this.stream := stream;
    }

    function Success(): Result<int, Failure>
      requires stream.current < |stream.tokens|
      reads stream
    {
      Ok(stream.Peek(0).lexeme)
    }

    method SkipWhitespaces()
      requires stream.Valid()
      modifies stream`current
      ensures stream.Valid() && stream.current == SkipSpaces(stream.tokens, old(stream.current))
    {
      ghost var from := SkipSpaces(stream.tokens, stream.current);
      var more, _ := stream.AdvanceIfMatch(Space);
      while more
        invariant stream.Valid() && stream.tokens == old(stream.tokens)
        invariant SkipSpaces(stream.tokens, stream.current) == from
        invariant !more ==> stream.tokens[stream.current].kind != Space
        decreases |stream.tokens| - stream.current, more
      {
        var again, _ := stream.AdvanceIfMatch(Space);
        more := again;
      }
    }

    method ParseRangeComparator() returns (r: Result<int, Failure>, out: Comparator)
      requires stream.Valid()
      modifies stream`current
      ensures match ComparatorAt(stream.tokens, old(stream.current))
              case Ok((c, j)) => stream.current == j && stream.Valid() && r == Success() && out == c
              case Err(e) => r == Err(e)
    {
      hide VersionAt, SkipSpaces;
      var op := EqualTo;
      var given, t := stream.AdvanceIfMatch(Operator);
      if given {
        op := t.value.op;
      }
      out := Comparator(CLEARED, op);
      SkipWhitespaces();
      var parser := new VersionParser(stream);
      var version;
      r, version := parser.Parse();
      if r.Err? {
        return;
      }
      out := Comparator(version, op);
      r := Success();
    }

    method ParseRange() returns (r: Result<int, Failure>, out: Range)
      requires stream.Valid()
      modifies stream`current
      ensures match RangeAt(stream.tokens, old(stream.current))
              case Ok((range, j)) => stream.current == j && stream.Valid() && r == Success() && out == range
              case Err(e) => r == Err(e)
    {
      hide ComparatorAt, SkipSpaces;
      ghost var ts := stream.tokens;
      ghost var whole := RangeAt(ts, stream.current);
      out := [];
      GoesOnFirst(whole, stream.current);
      var more := true;
      while more
        invariant stream.tokens == ts && stream.Valid()
        invariant GoesOn(whole, out, RangeAt(ts, stream.current), stream.current, more)
        decreases |ts| - stream.current, more
      {
        ghost var i := stream.current;
        SkipWhitespaces();
        var step, c := ParseRangeComparator();
        if step.Err? {
          return step, out;
        }
        SkipWhitespaces();
        more := stream.Check(Operator) || stream.Check(Digit);
        if more {
          GoesOnNext(whole, out, c, RangeAt(ts, stream.current), stream.current);
        }
        out := out + [c];
      }
      r := Success();
    }

    method Parse() returns (r: Result<int, Failure>, out: seq<Range>)
      requires stream.Valid()
      modifies stream`current
      ensures match RangesAt(stream.tokens, old(stream.current))
              case Ok((ranges, j)) => stream.current == j && stream.Valid() && r == Success() && out == ranges
              case Err(e) => r == Err(e)
    {
      hide RangeAt, SkipSpaces;
      ghost var ts := stream.tokens;
      ghost var whole := RangesAt(ts, stream.current);
      out := [];
      GoesOnFirst(whole, stream.current);
      var more := true;
      while more
        invariant stream.tokens == ts && stream.Valid()
        invariant GoesOn(whole, out, RangesAt(ts, stream.current), stream.current, more)
        decreases |ts| - stream.current, more
      {
        var step, range := ParseRange();
        if step.Err? {
          return step, out;
        }
        SkipWhitespaces();
        var either, _ := stream.AdvanceIfMatch(LogicalOr);
        more := either;
        if more {
          GoesOnNext(whole, out, range, RangesAt(ts, stream.current), stream.current);
        }
        out := out + [range];
      }
      r := Success();
    }
  }

  /** Parses a text as a set of ranges. */
  method ParseRanges(text: string) returns (r: Result<int, Failure>, out: seq<Range>)
    ensures match ParsedRanges(text)
            case Ok(ranges) => r.Ok? && out == ranges
            case Err(e) => r == Err(e)
  {
    hide ScanFrom, RangesAt;
    out := [];
    var stream := new TokenStream();
    var lexer := new Lexer(text);
    r := lexer.ScanTokens(stream);
    if r.Err? {
      return;
    }
    assert stream.tokens == ScanFrom(text, 0).value;
    var parser := new RangeParser(stream);
    r, out := parser.Parse();
  }

  // --- printing, and the way back -----------------------------------------------------------------------

  function OperatorText(op: RangeOperator): (s: string)
    ensures 1 <= |s| <= 2
  {
    match op
    case LessThan => "<"
    case LessOrEqual => "<="
    case GreaterThan => ">"
    case GreaterOrEqual => ">="
    case EqualTo => "="
  }

  function ComparatorText(c: Comparator): string
    requires Printable(c.version)
  {
    OperatorText(c.op) + Printed(c.version)
  }

  predicate AllPrintable(range: Range) {
    forall i :: 0 <= i < |range| ==> Printable(range[i].version)
  }

  /** The comparators with spaces between them. */
  function RangeText(range: Range): string
    requires AllPrintable(range)
  {
    if range == [] then ""
    else if |range| == 1 then ComparatorText(range[0])
    else ComparatorText(range[0]) + (" " + RangeText(range[1..]))
  }

  /** The version of some text. */
  ghost predicate Readable(v: Version) {
    exists text :: Parsed(text) == Ok(v)
  }

  /** The text of such a version is plain and begins with a digit. */
  lemma PrintedIsPlain(v: Version)
    requires Readable(v)
    ensures Printable(v) && IsPlain(Printed(v)) && Printed(v) != "" && IsDigit(Printed(v)[0])
  {
    hide VersionAt;
    PrintedIsRead(v);
  }

  /** Alone, it is read back. */
  lemma PrintedIsRead(v: Version)
    requires Readable(v)
    ensures Printable(v) && IsPlain(Printed(v)) && Printed(v) != "" && IsDigit(Printed(v)[0])
    ensures VersionAt(PlainTokens(Printed(v)), 0) == Ok((v, |Printed(v)|))
  {
    hide VersionAt, ScanFrom, Decimal;
    var text :| Parsed(text) == Ok(v);
    PrintThenParse(text);
    var s := Printed(v);
    AcceptedIsPlain(s);
    var tokens := PlainTokens(s);
    var j := VersionAt(tokens, 0).value.1;
    assert tokens[j].kind == Eol;
    assert s[0] == Decimal(v.major)[0];
  }

  lemma HoldsFrom(text: string, pos: nat, s: string)
    requires Holds(text, pos, s) && s != ""
    ensures pos < |text| && text[pos] == s[0] && Holds(text, pos + 1, s[1..])
  {
    assert text[pos..pos + |s|][1..] == s[1..];
  }

  lemma SameAsPlain(text: string, pos: nat, s: string)
    requires pos < |text| && s != "" && IsPlain(s) && text[pos] == s[0]
    ensures SameToken(PlainToken(text, pos), PlainTokens(s)[0])
    ensures IsPlain(s[1..]) && forall k :: 0 < k < |s| ==> SameToken(PlainTokens(s[1..])[k - 1], PlainTokens(s)[k])
    ensures forall k :: 0 < k < |s| ==>
            PlainTokens(s[1..])[k - 1].kind == PlainTokens(s)[k].kind
            && !Stops(PlainTokens(s)[k])
  {
  }

  /** The tokens begin with those of the plain text. */
  ghost predicate StartsPlain(tokens: seq<Token>, s: string)
    requires IsPlain(s)
  {
    |tokens| > |s| && forall k :: 0 <= k < |s| ==> SameToken(tokens[k], PlainTokens(s)[k])
  }

  lemma StartsPlainStep(text: string, pos: nat, s: string, rest: seq<Token>)
    requires pos < |text| && s != "" && IsPlain(s) && text[pos] == s[0] && IsPlain(s[1..]) && StartsPlain(rest, s[1..])
    ensures StartsPlain([PlainToken(text, pos)] + rest, s)
  {
    hide PlainToken;
    SameAsPlain(text, pos, s);
    var tokens := [PlainToken(text, pos)] + rest;
    forall k | 0 <= k < |s|
      ensures SameToken(tokens[k], PlainTokens(s)[k])
    {
      if k > 0 {
        assert tokens[k] == rest[k - 1];
        assert SameToken(rest[k - 1], PlainTokens(s[1..])[k - 1]);
      }
    }
  }

  /** Scanning goes over a plain part of a text character by character. */
  lemma {:induction false} ScansPlainPart(text: string, pos: nat, s: string)
    requires Holds(text, pos, s) && IsPlain(s) && ScanFrom(text, pos + |s|).Ok?
    ensures ScanFrom(text, pos).Ok?
    ensures var tokens := ScanFrom(text, pos).value;
            StartsPlain(tokens, s) && tokens[|s|..] == ScanFrom(text, pos + |s|).value
    decreases |s|
  {
    hide ScanFrom, ScanOne, Holds, PlainToken, StartsPlain;
    HoldsWithin(text, pos, s);
    if s == "" {
      var tokens := ScanFrom(text, pos).value;
      assert tokens[0..] == tokens;
      StartsEmpty(tokens);
    } else {
      HoldsFrom(text, pos, s);
      ScansPlainPart(text, pos + 1, s[1..]);
      ScansPlainChar(text, pos);
      ScanStep(text, pos);
      var rest := ScanFrom(text, pos + 1).value;
      StartsPlainStep(text, pos, s, rest);
      StartsLonger(rest, s[1..]);
      assert ([PlainToken(text, pos)] + rest)[|s|..] == rest[|s| - 1..];
    }
  }

  lemma StartsEmpty(tokens: seq<Token>)
    requires |tokens| > 0
    ensures StartsPlain(tokens, "")
  {
  }

  lemma StartsLonger(tokens: seq<Token>, s: string)
    requires IsPlain(s) && StartsPlain(tokens, s)
    ensures |tokens| > |s|
  {
  }

  lemma ScansOperator(text: string, pos: nat, op: RangeOperator)
    requires Holds(text, pos, OperatorText(op)) && pos + |OperatorText(op)| < |text|
             && text[pos + |OperatorText(op)|] != '='
    ensures ScanOne(text, pos).Ok?
    ensures ScanOne(text, pos).value.0.kind == Operator && ScanOne(text, pos).value.0.value == OperatorOf(op)
    ensures ScanOne(text, pos).value.1 == pos + |OperatorText(op)|
  {
    var s := OperatorText(op);
    assert text[pos..pos + |s|][0] == s[0];
    assert |s| == 2 ==> text[pos..pos + |s|][1] == s[1];
  }

  /** From i on, the tokens are those of a comparator. */
  ghost predicate ComparatorTokens(tokens: seq<Token>, i: nat, c: Comparator)
    requires Printable(c.version) && IsPlain(Printed(c.version))
  {
    var n := |Printed(c.version)|;
    && i + 1 + n < |tokens| && tokens[i].kind == Operator && tokens[i].value == OperatorOf(c.op)
    && forall k :: i + 1 <= k < i + 1 + n ==> SameToken(tokens[k], PlainTokens(Printed(c.version))[k - i - 1])
  }

  lemma ComparatorScans(text: string, pos: nat, c: Comparator)
    requires Readable(c.version) && Printable(c.version) && Holds(text, pos, ComparatorText(c))
    requires ScanFrom(text, pos + |ComparatorText(c)|).Ok? && IsPlain(Printed(c.version))
    ensures ScanFrom(text, pos).Ok?
    ensures var tokens := ScanFrom(text, pos).value;
            && ComparatorTokens(tokens, 0, c)
            && tokens[1 + |Printed(c.version)|..] == ScanFrom(text, pos + |ComparatorText(c)|).value
  {
    hide ScanFrom, ScanOne, Holds, Printed, Readable, StartsPlain, ComparatorTokens;
    PrintedIsPlain(c.version);
    var op, v := OperatorText(c.op), Printed(c.version);
    HoldsParts(text, pos, op, v);
    ScansPlainPart(text, pos + |op|, v);
    HoldsFrom(text, pos + |op|, v);
    ScansOperator(text, pos, c.op);
    ScanStep(text, pos);
    var rest := ScanFrom(text, pos + |op|).value;
    var first := ScanOne(text, pos).value.0;
    StartsLonger(rest, v);
    ComparatorBegins(first, rest, c);
    assert ([first] + rest)[1 + |v|..] == rest[|v|..];
  }

  lemma ComparatorBegins(first: Token, rest: seq<Token>, c: Comparator)
    requires Printable(c.version) && IsPlain(Printed(c.version)) && StartsPlain(rest, Printed(c.version))
    requires first.kind == Operator && first.value == OperatorOf(c.op)
    ensures ComparatorTokens([first] + rest, 0, c)
  {
    hide Printed;
  }

  lemma ComparatorReads(tokens: seq<Token>, i: nat, c: Comparator)
    requires Readable(c.version) && Printable(c.version) && IsPlain(Printed(c.version))
    requires Complete(tokens) && ComparatorTokens(tokens, i, c) && Stops(tokens[i + 1 + |Printed(c.version)|])
    ensures ComparatorAt(tokens, i) == Ok((c, i + 1 + |Printed(c.version)|))
  {
    hide VersionAt, Printed;
    PrintedIsRead(c.version);
    var v := Printed(c.version);
    var plain, n, j := PlainTokens(v), |v|, i + 1;
    forall k: nat | k <= n
      ensures SameAt(plain, 0, tokens, j, k)
    {
      if k < n {
        assert SameToken(tokens[j + k], plain[j + k - i - 1]);
      }
    }
    VersionLocal(plain, 0, tokens, j, n);
    assert SameAt(plain, 0, tokens, j, 0);
    assert SkipSpaces(tokens, j) == j;
  }

  lemma ScansSpace(text: string, pos: nat)
    requires pos < |text| && text[pos] == ' ' && ScanFrom(text, pos + 1).Ok?
    ensures ScanFrom(text, pos) == Ok([Token(Space, NoValue, pos)] + ScanFrom(text, pos + 1).value)
  {
  }

  /** A part of a text that is a range, up to the end or an or. */
  ghost predicate IsRangeText(text: string, pos: nat, range: Range, end: nat)
    requires |range| > 0 && AllPrintable(range)
  {
    && Holds(text, pos, RangeText(range)) && pos + |RangeText(range)| == end
    && (end == |text| || Holds(text, end, " || "))
  }

  /** Its first comparator, and the others behind a space. */
  lemma FirstComparator(text: string, pos: nat, range: Range, end: nat)
    requires |range| > 0 && AllPrintable(range)
    requires IsRangeText(text, pos, range, end)
    ensures Holds(text, pos, ComparatorText(range[0]))
    ensures var next := pos + |ComparatorText(range[0])|;
            if |range| == 1 then next == end
            else next < |text| && text[next] == ' ' && IsRangeText(text, next + 1, range[1..], end)
  {
    hide ComparatorText;
    if |range| > 1 {
      var first, rest := ComparatorText(range[0]), RangeText(range[1..]);
      HoldsParts(text, pos, first, " " + rest);
      HoldsParts(text, pos + |first|, " ", rest);
    }
  }

  lemma {:induction false} RangeScans(text: string, pos: nat, range: Range, end: nat)
    requires |range| > 0 && forall i :: 0 <= i < |range| ==> Readable(range[i].version) && Printable(range[i].version)
    requires IsRangeText(text, pos, range, end) && end <= |text| && ScanFrom(text, end).Ok?
    ensures pos <= |text| && ScanFrom(text, pos).Ok?
    decreases |range|
  {
    hide ScanFrom, Printed, Readable, IsRangeText;
    var c := range[0];
    var next := pos + |ComparatorText(c)|;
    FirstComparator(text, pos, range, end);
    PrintedIsPlain(c.version);
    if |range| > 1 {
      RangeScans(text, next + 1, range[1..], end);
      ScansSpace(text, next);
    }
    ComparatorScans(text, pos, c);
  }

  /** What is at the end of a range: the end of the line, or a space and an or. */
  ghost predicate EndsRange(tokens: seq<Token>, j: nat, k: nat) {
    k < |tokens| && if j == k then tokens[k].kind == Eol
                    else j + 1 == k && tokens[j].kind == Space && tokens[k].kind == LogicalOr
  }

  lemma ScansOr(text: string, pos: nat)
    requires Holds(text, pos, " || ") && ScanFrom(text, pos + 4).Ok?
    ensures ScanFrom(text, pos)
            == Ok([Token(Space, NoValue, pos), Token(LogicalOr, NoValue, pos + 2), Token(Space, NoValue, pos + 3)]
                  + ScanFrom(text, pos + 4).value)
  {
    hide ScanFrom;
    assert text[pos..pos + 4][0] == ' ' && text[pos..pos + 4][1] == '|' && text[pos..pos + 4][2] == '|'
           && text[pos..pos + 4][3] == ' ';
    var last, either := Token(Space, NoValue, pos + 3), Token(LogicalOr, NoValue, pos + 2);
    var rest := ScanFrom(text, pos + 4).value;
    ScanStep(text, pos + 3);
    ScanStep(text, pos + 1);
    ScanStep(text, pos);
    var first := Token(Space, NoValue, pos);
    assert ScanFrom(text, pos + 1) == Ok([either] + ([last] + rest));
    assert [first] + ([either] + ([last] + rest)) == [first, either, last] + rest;
  }

  lemma EndScans(text: string, end: nat)
    requires end == |text| || (Holds(text, end, " || ") && ScanFrom(text, end + 4).Ok?)
    ensures ScanFrom(text, end).Ok?
    ensures EndsRange(ScanFrom(text, end).value, 0, if end == |text| then 0 else 1)
  {
    hide ScanFrom;
    if end == |text| {
      ScansEnd(text);
    } else {
      ScansOr(text, end);
    }
  }

  lemma {:induction false} RangeReads(tokens: seq<Token>, i: nat, text: string, pos: nat, range: Range, end: nat)
    requires |range| > 0 && forall k :: 0 <= k < |range| ==> Readable(range[k].version) && Printable(range[k].version)
    requires IsRangeText(text, pos, range, end) && pos <= |text| && end <= |text| && ScanFrom(text, end).Ok?
    requires EndsRange(ScanFrom(text, end).value, 0, if end == |text| then 0 else 1)
    requires At(tokens, i) && ScanFrom(text, pos) == Ok(tokens[i..])
    ensures tokens[i].kind == Operator
    ensures var j := |tokens| - |ScanFrom(text, end).value|;
            && j >= 0 && tokens[j..] == ScanFrom(text, end).value
            && RangeAt(tokens, i) == Ok((range, if end == |text| then j else j + 1))
    decreases |range|
  {
    hide ScanFrom, Printed, Readable, IsRangeText, RangeAt, ComparatorAt, Complete, EndsRange, ComparatorTokens;
    var c := range[0];
    var next, j := pos + |ComparatorText(c)|, i + 1 + |Printed(c.version)|;
    FirstComparator(text, pos, range, end);
    PrintedIsPlain(c.version);
    if |range| == 1 {
      ComparatorAtEnd(tokens, i, text, pos, c);
      EndsFurther(tokens, j, if end == |text| then 0 else 1);
      LastComparator(tokens, i, c, j, if end == |text| then j else j + 1);
      assert range == [c];
    } else {
      RangeScans(text, next + 1, range[1..], end);
      ComparatorInFront(tokens, i, text, pos, c);
      RangeReads(tokens, j + 1, text, next + 1, range[1..], end);
      NextComparator(tokens, i, c, j);
      assert range == [c] + range[1..];
    }
  }

  lemma EndsFurther(tokens: seq<Token>, j: nat, k: nat)
    requires j < |tokens| && EndsRange(tokens[j..], 0, k)
    ensures EndsRange(tokens, j, j + k)
  {
  }

  lemma ComparatorAtEnd(tokens: seq<Token>, i: nat, text: string, pos: nat, c: Comparator)
    requires Readable(c.version) && Printable(c.version) && Holds(text, pos, ComparatorText(c))
    requires IsPlain(Printed(c.version)) && i < |tokens| && pos <= |text| && ScanFrom(text, pos) == Ok(tokens[i..])
    requires ScanFrom(text, pos + |ComparatorText(c)|).Ok?
    ensures ComparatorTokens(tokens, i, c)
    ensures var j := i + 1 + |Printed(c.version)|;
            j < |tokens| && ScanFrom(text, pos + |ComparatorText(c)|) == Ok(tokens[j..])
  {
    hide ScanFrom, Printed, Readable;
    ComparatorScans(text, pos, c);
    ComparatorFurther(tokens, i, c);
  }

  /** A comparator with a space behind it. */
  lemma ComparatorInFront(tokens: seq<Token>, i: nat, text: string, pos: nat, c: Comparator)
    requires Readable(c.version) && Printable(c.version) && Holds(text, pos, ComparatorText(c))
    requires IsPlain(Printed(c.version)) && i < |tokens| && pos <= |text| && ScanFrom(text, pos) == Ok(tokens[i..])
    requires var next := pos + |ComparatorText(c)|;
             next < |text| && text[next] == ' ' && ScanFrom(text, next + 1).Ok?
    ensures ComparatorTokens(tokens, i, c)
    ensures var j := i + 1 + |Printed(c.version)|;
            && j + 1 < |tokens| && tokens[j].kind == Space
            && ScanFrom(text, pos + |ComparatorText(c)| + 1) == Ok(tokens[j + 1..])
  {
    hide ScanFrom, Printed, Readable;
    var next := pos + |ComparatorText(c)|;
    ScansSpace(text, next);
    ComparatorScans(text, pos, c);
    ComparatorFurther(tokens, i, c);
    SuffixAfter(tokens, i + 1 + |Printed(c.version)|, Token(Space, NoValue, next), ScanFrom(text, next + 1).value);
  }

  lemma ComparatorFurther(tokens: seq<Token>, i: nat, c: Comparator)
    requires i < |tokens| && Printable(c.version) && IsPlain(Printed(c.version)) && ComparatorTokens(tokens[i..], 0, c)
    ensures ComparatorTokens(tokens, i, c)
    ensures tokens[i..][1 + |Printed(c.version)|..] == tokens[i + 1 + |Printed(c.version)|..]
  {
    hide Printed;
    var n := |Printed(c.version)|;
    forall k | i + 1 <= k < i + 1 + n
      ensures SameToken(tokens[k], PlainTokens(Printed(c.version))[k - i - 1])
    {
      assert tokens[i..][k - i] == tokens[k];
    }
  }

  lemma SuffixAfter(tokens: seq<Token>, j: nat, t: Token, behind: seq<Token>)
    requires j < |tokens| && tokens[j..] == [t] + behind
    ensures tokens[j] == t && tokens[j + 1..] == behind
  {
    assert tokens[j..][1..] == tokens[j + 1..];
  }

  /** A comparator at the end of the line, or in front of an or, is the last one of a range. */
  lemma LastComparator(tokens: seq<Token>, i: nat, c: Comparator, j: nat, k: nat)
    requires Readable(c.version) && Printable(c.version) && IsPlain(Printed(c.version))
    requires At(tokens, i) && ComparatorTokens(tokens, i, c) && j == i + 1 + |Printed(c.version)|
    requires EndsRange(tokens, j, k)
    ensures tokens[i].kind == Operator && RangeAt(tokens, i) == Ok(([c], k))
  {
    hide ComparatorAt, Printed, Readable;
    ComparatorReads(tokens, i, c);
    assert SkipSpaces(tokens, j) == k;
  }

  /** A comparator that a space and an operator follow is one of several. */
  lemma NextComparator(tokens: seq<Token>, i: nat, c: Comparator, j: nat)
    requires Readable(c.version) && Printable(c.version) && IsPlain(Printed(c.version))
    requires At(tokens, i) && ComparatorTokens(tokens, i, c) && j == i + 1 + |Printed(c.version)|
    requires j + 1 < |tokens| && tokens[j].kind == Space && tokens[j + 1].kind == Operator
    ensures tokens[i].kind == Operator && RangeAt(tokens, i) == PrependOne(c, RangeAt(tokens, j + 1))
  {
    hide ComparatorAt, Printed, Readable;
    ComparatorReads(tokens, i, c);
    assert SkipSpaces(tokens, j) == j + 1;
  }

  /** A range of versions that were parsed is read back from its text, as the only one. */
  lemma {:induction false} RangePrintThenParse(range: Range)
    requires |range| > 0 && forall i :: 0 <= i < |range| ==> Readable(range[i].version)
    ensures AllPrintable(range)
    ensures ParsedRanges(RangeText(range)) == Ok([range])
  {
    hide RangeAt, ScanFrom, RangeText;
    forall i | 0 <= i < |range|
      ensures Printable(range[i].version)
    {
      PrintedIsPlain(range[i].version);
    }
    var text := RangeText(range);
    assert text[0..] == text && IsRangeText(text, 0, range, |text|);
    ScansEnd(text);
    RangeScans(text, 0, range, |text|);
    var tokens := ScanFrom(text, 0).value;
    assert tokens[0..] == tokens;
    RangeReads(tokens, 0, text, 0, range, |text|);
  }

  /** A version without an operator is a range, of that version only. */
  lemma BareVersionIsEqual(v: Version)
    requires Readable(v)
    ensures Printable(v) && ParsedRanges(Printed(v)) == Ok([[Comparator(v, EqualTo)]])
  {
    hide VersionAt, Printed, ScanFrom;
    PrintedIsRead(v);
    var text := Printed(v);
    ScansPlain(text, 0);
    var tokens, n := PlainTokens(text), |text|;
    assert tokens[0].kind == Digit && tokens[n].kind == Eol;
    assert SkipSpaces(tokens, 0) == 0 && SkipSpaces(tokens, n) == n;
    assert ComparatorAt(tokens, 0) == Ok((Comparator(v, EqualTo), n));
  }

  // --- sets of ranges -----------------------------------------------------------------------------------

  /** The ranges with spaces between them. */
  function SetText(ranges: seq<Range>): string
    requires forall i :: 0 <= i < |ranges| ==> AllPrintable(ranges[i])
  {
    if ranges == [] then ""
    else if |ranges| == 1 then RangeText(ranges[0])
    else RangeText(ranges[0]) + (" " + SetText(ranges[1..]))
  }

  /** The ranges with an or between them. */
  function AlternativesText(ranges: seq<Range>): string
    requires forall i :: 0 <= i < |ranges| ==> AllPrintable(ranges[i])
  {
    if ranges == [] then ""
    else if |ranges| == 1 then RangeText(ranges[0])
    else RangeText(ranges[0]) + (" || " + AlternativesText(ranges[1..]))
  }

  ghost predicate AreReadable(ranges: seq<Range>) {
    |ranges| > 0 && forall i :: 0 <= i < |ranges| ==>
      && ranges[i] != []
      && forall k :: 0 <= k < |ranges[i]| ==> Readable(ranges[i][k].version) && Printable(ranges[i][k].version)
  }

  ghost predicate AreAlternatives(text: string, pos: nat, ranges: seq<Range>)
    requires forall i :: 0 <= i < |ranges| ==> AllPrintable(ranges[i])
  {
    Holds(text, pos, AlternativesText(ranges)) && pos + |AlternativesText(ranges)| == |text|
  }

  lemma FirstAlternative(text: string, pos: nat, ranges: seq<Range>) returns (end: nat)
    requires |ranges| > 0 && forall i :: 0 <= i < |ranges| ==> ranges[i] != [] && AllPrintable(ranges[i])
    requires AreAlternatives(text, pos, ranges)
    ensures end <= |text| && pos <= |text| && IsRangeText(text, pos, ranges[0], end)
    ensures if |ranges| == 1 then end == |text|
            else end < |text| && Holds(text, end, " || ") && AreAlternatives(text, end + 4, ranges[1..])
  {
    hide RangeText;
    end := pos + |RangeText(ranges[0])|;
    if |ranges| > 1 {
      var first, rest := RangeText(ranges[0]), AlternativesText(ranges[1..]);
      HoldsParts(text, pos, first, " || " + rest);
      HoldsParts(text, pos + |first|, " || ", rest);
    }
  }

  lemma {:induction false} AlternativesScan(text: string, pos: nat, ranges: seq<Range>)
    requires AreReadable(ranges) && (forall i :: 0 <= i < |ranges| ==> AllPrintable(ranges[i]))
    requires AreAlternatives(text, pos, ranges)
    ensures pos <= |text| && ScanFrom(text, pos).Ok?
    decreases |ranges|
  {
    hide ScanFrom, Readable, AreAlternatives, IsRangeText, Printable, EndsRange;
    var end := FirstAlternative(text, pos, ranges);
    if |ranges| > 1 {
      AlternativesScan(text, end + 4, ranges[1..]);
    }
    EndScans(text, end);
    RangeScans(text, pos, ranges[0], end);
  }

  lemma {:induction false} AlternativesRead(tokens: seq<Token>, i: nat, text: string, pos: nat, ranges: seq<Range>)
    requires AreReadable(ranges) && (forall i :: 0 <= i < |ranges| ==> AllPrintable(ranges[i]))
    requires AreAlternatives(text, pos, ranges) && pos <= |text|
    requires At(tokens, i) && ScanFrom(text, pos) == Ok(tokens[i..])
    ensures RangesAt(tokens, i) == Ok((ranges, |tokens| - 1))
    decreases |ranges|
  {
    hide ScanFrom, Readable, AreAlternatives, IsRangeText, Printable, EndsRange, RangeAt, RangesAt, Complete;
    var end := FirstAlternative(text, pos, ranges);
    if |ranges| > 1 {
      AlternativesScan(text, end + 4, ranges[1..]);
      ScansOr(text, end);
    } else {
      ScansEnd(text);
    }
    EndScans(text, end);
    RangeReads(tokens, i, text, pos, ranges[0], end);
    var tail := ScanFrom(text, end).value;
    var j: nat := |tokens| - |tail|;
    if |ranges| == 1 {
      LastAlternative(tokens, i, ranges[0], j);
      assert ranges == [ranges[0]];
    } else {
      assert tokens[j + 3..] == tokens[j..][3..] == ScanFrom(text, end + 4).value;
      assert tokens[j] == tokens[j..][0] && tokens[j + 1] == tokens[j..][1] && tokens[j + 2] == tokens[j..][2];
      AlternativesRead(tokens, j + 3, text, end + 4, ranges[1..]);
      NextAlternative(tokens, i, ranges[0], j);
      assert ranges == [ranges[0]] + ranges[1..];
    }
  }

  lemma LastAlternative(tokens: seq<Token>, i: nat, range: Range, j: nat)
    requires At(tokens, i) && RangeAt(tokens, i) == Ok((range, j)) && |tokens[j..]| == 1
    ensures RangesAt(tokens, i) == Ok(([range], |tokens| - 1))
  {
    hide RangesAt, RangeAt, SkipSpaces;
    RangesStep(tokens, i);
    NoSpace(tokens, j);
  }

  lemma NextAlternative(tokens: seq<Token>, i: nat, range: Range, j: nat)
    requires At(tokens, i) && j + 3 < |tokens| && RangeAt(tokens, i) == Ok((range, j + 1))
    requires tokens[j + 1].kind == LogicalOr && tokens[j + 2].kind == Space
    ensures RangesAt(tokens, i) == PrependOne(range, RangesAt(tokens, j + 3))
  {
    hide RangesAt, RangeAt, SkipSpaces, Complete;
    RangesStep(tokens, i);
    NoSpace(tokens, j + 1);
    RangesBehindSpace(tokens, j + 2);
  }

  lemma NoSpace(tokens: seq<Token>, i: nat)
    requires At(tokens, i) && tokens[i].kind != Space
    ensures SkipSpaces(tokens, i) == i
  {
  }

  /** A space in front of ranges makes no difference. */
  lemma RangesBehindSpace(tokens: seq<Token>, i: nat)
    requires At(tokens, i + 1) && tokens[i].kind == Space
    ensures RangesAt(tokens, i) == RangesAt(tokens, i + 1)
  {
    hide RangesAt, RangeAt, SkipSpaces, Complete;
    RangeBehindSpace(tokens, i);
    RangesStep(tokens, i);
    RangesStep(tokens, i + 1);
  }

  lemma RangesStep(tokens: seq<Token>, i: nat)
    requires At(tokens, i)
    ensures RangesAt(tokens, i) == match RangeAt(tokens, i)
                                   case Err(e) => Err(e)
                                   case Ok((range, j)) =>
                                     var k := SkipSpaces(tokens, j);
                                     if tokens[k].kind == LogicalOr then PrependOne(range, RangesAt(tokens, k + 1))
                                     else Ok(([range], k))
  {
    hide RangeAt, SkipSpaces, Complete;
  }

  lemma RangeBehindSpace(tokens: seq<Token>, i: nat)
    requires At(tokens, i + 1) && tokens[i].kind == Space
    ensures RangeAt(tokens, i) == RangeAt(tokens, i + 1)
  {
    hide ComparatorAt, Complete;
    assert SkipSpaces(tokens, i) == SkipSpaces(tokens, i + 1);
  }

  /** With an or between the ranges, every set is read back as it is. */
  lemma AlternativesPrintThenParse(ranges: seq<Range>)
    requires |ranges| > 0 && forall i :: 0 <= i < |ranges| ==> ranges[i] != []
    requires forall i :: 0 <= i < |ranges| ==> forall k :: 0 <= k < |ranges[i]| ==> Readable(ranges[i][k].version)
    ensures forall i :: 0 <= i < |ranges| ==> AllPrintable(ranges[i])
    ensures ParsedRanges(AlternativesText(ranges)) == Ok(ranges)
  {
    hide Readable, RangesAt, ScanFrom, AlternativesText, Printable;
    forall i | 0 <= i < |ranges|
      ensures AllPrintable(ranges[i])
    {
      forall k | 0 <= k < |ranges[i]|
        ensures Printable(ranges[i][k].version)
      {
        PrintedIsPlain(ranges[i][k].version);
      }
    }
    var text := AlternativesText(ranges);
    assert text[0..] == text && AreAlternatives(text, 0, ranges);
    AlternativesScan(text, 0, ranges);
    var tokens := ScanFrom(text, 0).value;
    assert tokens[0..] == tokens;
    AlternativesRead(tokens, 0, text, 0, ranges);
  }

  lemma {:induction false} RangeTextConcat(a: Range, b: Range)
    requires a != [] && b != [] && AllPrintable(a) && AllPrintable(b)
    ensures AllPrintable(a + b) && RangeText(a + b) == RangeText(a) + (" " + RangeText(b))
  {
    hide RangeText, ComparatorText, AllPrintable;
    PrintableConcat(a, b);
    RangeTextStep(a + b);
    FirstOfConcat(a, b);
    if |a| == 1 {
      RangeTextOfOne(a);
    } else {
      RangeTextStep(a);
      RangeTextConcat(a[1..], b);
      TextsInARow(ComparatorText(a[0]), RangeText(a[1..]), RangeText(b));
    }
  }

  lemma FirstOfConcat(a: Range, b: Range)
    requires a != []
    ensures (a + b)[0] == a[0] && (a + b)[1..] == a[1..] + b
    ensures |a| == 1 ==> (a + b)[1..] == b
  {
  }

  lemma TextsInARow(first: string, rest: string, last: string)
    ensures first + (" " + (rest + (" " + last))) == (first + (" " + rest)) + (" " + last)
  {
    Associative(first, " " + rest, " " + last);
    Associative(" ", rest, " " + last);
  }

  lemma PrintableConcat(a: Range, b: Range)
    requires AllPrintable(a) && AllPrintable(b)
    ensures AllPrintable(a + b)
  {
    hide Printable;
  }

  lemma RangeTextOfOne(range: Range)
    requires |range| == 1 && AllPrintable(range)
    ensures Printable(range[0].version) && RangeText(range) == ComparatorText(range[0])
  {
  }

  lemma RangeTextStep(range: Range)
    requires |range| > 1 && AllPrintable(range)
    ensures Printable(range[0].version) && AllPrintable(range[1..])
            && RangeText(range) == ComparatorText(range[0]) + (" " + RangeText(range[1..]))
  {
  }

  lemma {:induction false} SetTextIsRangeText(ranges: seq<Range>)
    requires |ranges| > 0 && forall i :: 0 <= i < |ranges| ==> ranges[i] != [] && AllPrintable(ranges[i])
    ensures Flatten(ranges) != [] && AllPrintable(Flatten(ranges)) && SetText(ranges) == RangeText(Flatten(ranges))
  {
    hide RangeText;
    if |ranges| == 1 {
      assert ranges[1..] == [] && ranges[0] + [] == ranges[0];
    } else {
      SetTextIsRangeText(ranges[1..]);
      RangeTextConcat(ranges[0], Flatten(ranges[1..]));
    }
  }

  lemma {:induction false} FlattenReadable(ranges: seq<Range>)
    requires forall i :: 0 <= i < |ranges| ==> forall k :: 0 <= k < |ranges[i]| ==> Readable(ranges[i][k].version)
    ensures forall k :: 0 <= k < |Flatten(ranges)| ==> Readable(Flatten(ranges)[k].version)
  {
    hide Readable;
    if ranges != [] {
      FlattenReadable(ranges[1..]);
    }
  }

  /**
   * The text of a set of ranges is read back as one range of all their comparators, and so as the set
   * itself exactly if that has one range only.
   */
  lemma {:induction false} SetPrintThenParse(ranges: seq<Range>)
    requires |ranges| > 0 && forall i :: 0 <= i < |ranges| ==> ranges[i] != []
    requires forall i :: 0 <= i < |ranges| ==> forall k :: 0 <= k < |ranges[i]| ==> Readable(ranges[i][k].version)
    ensures forall i :: 0 <= i < |ranges| ==> AllPrintable(ranges[i])
    ensures ParsedRanges(SetText(ranges)) == Ok([Flatten(ranges)])
    ensures ParsedRanges(SetText(ranges)) == Ok(ranges) <==> |ranges| == 1
  {
    hide ParsedRanges, Readable, RangeText;
    forall i | 0 <= i < |ranges|
      ensures AllPrintable(ranges[i])
    {
      forall k | 0 <= k < |ranges[i]|
        ensures Printable(ranges[i][k].version)
      {
        PrintedIsPlain(ranges[i][k].version);
      }
    }
    SetTextIsRangeText(ranges);
    FlattenReadable(ranges);
    RangePrintThenParse(Flatten(ranges));
    if |ranges| == 1 {
      assert ranges[1..] == [] && ranges[0] + [] == ranges[0];
      assert ranges == [ranges[0]];
    }
  }

  lemma {:induction false} FlattenHolds(ranges: seq<Range>, v: Version)
    ensures RangeContains(Flatten(ranges), v, IncludePrerelease)
            <==> forall i :: 0 <= i < |ranges| ==> RangeContains(ranges[i], v, IncludePrerelease)
  {
    hide Satisfies;
    if ranges != [] {
      var rest := Flatten(ranges[1..]);
      FlattenHolds(ranges[1..], v);
      HoldsConcat(ranges[0], rest, v);
      hide RangeContains, Flatten;
      assert forall i :: 0 < i < |ranges| ==> ranges[i] == ranges[1..][i - 1];
      assert forall i :: 0 <= i < |ranges[1..]| ==> ranges[i + 1] == ranges[1..][i];
    }
  }

  lemma HoldsConcat(a: Range, b: Range, v: Version)
    ensures RangeContains(a + b, v, IncludePrerelease)
            <==> RangeContains(a, v, IncludePrerelease) && RangeContains(b, v, IncludePrerelease)
  {
    hide Satisfies;
    assert forall k :: 0 <= k < |a| ==> (a + b)[k] == a[k];
    assert forall k :: 0 <= k < |b| ==> (a + b)[|a| + k] == b[k];
  }

  lemma {:induction false} FlattenMatches(ranges: seq<Range>, v: Version)
    requires ranges != []
    ensures MatchesPrerelease(Flatten(ranges), v) <==> exists i :: 0 <= i < |ranges| && MatchesPrerelease(ranges[i], v)
  {
    var rest := Flatten(ranges[1..]);
    MatchesConcat(ranges[0], rest, v);
    if |ranges| > 1 {
      FlattenMatches(ranges[1..], v);
      assert forall i :: 0 < i < |ranges| ==> ranges[i] == ranges[1..][i - 1];
    }
  }

  lemma MatchesConcat(a: Range, b: Range, v: Version)
    ensures MatchesPrerelease(a + b, v) <==> MatchesPrerelease(a, v) || MatchesPrerelease(b, v)
  {
    hide VersionDifference;
    assert forall k :: 0 <= k < |a| ==> (a + b)[k] == a[k];
    assert forall k :: 0 <= k < |b| ==> (a + b)[|a| + k] == b[k];
  }

  /**
   * A set holds what one of its ranges holds; what is read back from its text holds only what all of them
   * hold, where it is enough that one of them names the prerelease.
   */
  lemma ReadBackContains(ranges: seq<Range>, v: Version) returns (back: seq<Range>)
    requires |ranges| > 0 && forall i :: 0 <= i < |ranges| ==> ranges[i] != []
    requires forall i :: 0 <= i < |ranges| ==> forall k :: 0 <= k < |ranges[i]| ==> Readable(ranges[i][k].version)
    ensures forall i :: 0 <= i < |ranges| ==> AllPrintable(ranges[i])
    ensures ParsedRanges(SetText(ranges)) == Ok(back)
    ensures SetContains(back, v, IncludePrerelease)
            <==> forall i :: 0 <= i < |ranges| ==> RangeContains(ranges[i], v, IncludePrerelease)
    ensures SetContains(back, v, ExcludePrerelease)
            <==> && (forall i :: 0 <= i < |ranges| ==> RangeContains(ranges[i], v, IncludePrerelease))
                 && (exists i :: 0 <= i < |ranges| && MatchesPrerelease(ranges[i], v))
  {
    hide ParsedRanges, Readable, SetText, MatchesPrerelease, Satisfies, Flatten;
    SetPrintThenParse(ranges);
    back := [Flatten(ranges)];
    assert back[0] == Flatten(ranges);
    FlattenHolds(ranges, v);
    FlattenMatches(ranges, v);
  }

  /** A version of three digits, and its text. */
  lemma PlainVersion(a: char, b: char, c: char) returns (v: Version)
    requires IsDigit(a) && IsDigit(b) && IsDigit(c)
    ensures v == Version(DigitValue(a), DigitValue(b), DigitValue(c), "", "", [])
    ensures Readable(v) && Printable(v) && Printed(v) == [a, '.', b, '.', c]
  {
    hide Parsed;
    var text := Semver([a], [b], [c], [], []);
    OneDigit(a);
    OneDigit(b);
    OneDigit(c);
    GrammarIsAccepted(text);
    v := Denoted(text);
  }

  lemma OneDigit(c: char)
    requires IsDigit(c)
    ensures IsNumeral([c]) && Natural([c]) == DigitValue(c) && Decimal(DigitValue(c)) == [c] && Fits([c])
  {
    assert [c][..0] == [];
  }

  lemma FlattenTwo(a: Range, b: Range)
    ensures Flatten([a, b]) == a + b
  {
    assert [a, b][1..] == [b] && [b][1..] == [];
    assert Flatten([b]) == b + Flatten([]);
  }

  /** The set of two ranges that is written ">=2.0.0" or "<1.0.0" is read back as one range, which nothing satisfies. */
  lemma TwoRangesBecomeOne() returns (ranges: seq<Range>, back: seq<Range>, v: Version)
    ensures |ranges| == 2 && |ranges[0]| == |ranges[1]| == 1
    ensures ranges[0][0] == Comparator(Version(2, 0, 0, "", "", []), GreaterOrEqual)
    ensures ranges[1][0] == Comparator(Version(1, 0, 0, "", "", []), LessThan)
    ensures AllPrintable(ranges[0]) && AllPrintable(ranges[1]) && SetText(ranges) == ">=2.0.0 <1.0.0"
    ensures ParsedRanges(SetText(ranges)) == Ok(back) && back == [[ranges[0][0], ranges[1][0]]]
    ensures SetContains(ranges, v, IncludePrerelease) && !SetContains(back, v, IncludePrerelease)
  {
    hide ParsedRanges, Readable;
    var two := PlainVersion('2', '0', '0');
    var one := PlainVersion('1', '0', '0');
    ranges := [[Comparator(two, GreaterOrEqual)], [Comparator(one, LessThan)]];
    v := Version(0, 5, 0, "", "", []);
    SetPrintThenParse(ranges);
    back := [Flatten(ranges)];
    FlattenTwo(ranges[0], ranges[1]);
    assert ranges == [ranges[0], ranges[1]];
    assert back[0] == [ranges[0][0], ranges[1][0]];
    assert RangeContains(ranges[1], v, IncludePrerelease);
    assert !Satisfies(back[0][0], v);
  }
}
