/** Version and range texts as tokens, and the cursor that the parsers move over them. */
module SemverLexer {
  import opened Blocks
  import opened Wrappers
  import opened Decimals

  datatype ErrorCode = InvalidArgument | ResultOutOfRange

  /** Where in the text an error was found. */
  datatype Failure = Failure(at: int, code: ErrorCode)

  datatype RangeOperator = LessThan | LessOrEqual | GreaterThan | GreaterOrEqual | EqualTo

  datatype TokenType = Eol | Space | Dot | Plus | Hyphen | Letter | Digit | Operator | LogicalOr

  datatype Value = NoValue | DigitOf(digit: nat) | LetterOf(letter: char) | OperatorOf(op: RangeOperator)

  datatype Token = Token(kind: TokenType, value: Value, lexeme: int) {
    /** The value is of the kind that the parsers will ask for. */
    predicate WellTyped() {
      && (kind == Digit ==> value.DigitOf? && value.digit <= 9)
      && (kind == Letter ==> value.LetterOf? && IsLetter(value.letter))
      && (kind == Operator ==> value.OperatorOf?)
    }

    predicate IsAlphanumeric() {
      kind == Hyphen || kind == Letter || kind == Digit
    }
  }

  predicate IsLetter(c: char) {
    'A' <= c <= 'Z' || 'a' <= c <= 'z'
  }

  /** Tokens that end with the only end-of-line token. */
  predicate Complete(tokens: seq<Token>) {
    && |tokens| > 0
    && (forall i :: 0 <= i < |tokens| ==> tokens[i].WellTyped())
    && (forall i :: 0 <= i < |tokens| ==> (tokens[i].kind == Eol <==> i == |tokens| - 1))
  }

  // --- what the lexer makes of a text ---------------------------------------------------------------

  function FollowedBy(text: string, pos: nat, c: char): bool {
    pos < |text| && text[pos] == c
  }

  /** The token that starts at pos and where the next one starts. */
  function ScanOne(text: string, pos: nat): (r: Result<(Token, nat), Failure>)
    requires pos < |text|
    ensures r.Ok? ==> r.value.0.WellTyped() && r.value.0.kind != Eol && pos < r.value.1 <= |text|
  {
    var c, next := text[pos], pos + 1;
    if c == ' ' then Ok((Token(Space, NoValue, pos), next))
    else if c == '.' then Ok((Token(Dot, NoValue, pos), next))
    else if c == '-' then Ok((Token(Hyphen, NoValue, pos), next))
    else if c == '+' then Ok((Token(Plus, NoValue, pos), next))
    else if c == '|' then
      if FollowedBy(text, next, '|') then Ok((Token(LogicalOr, NoValue, next), next + 1))
          else Err(Failure(pos, InvalidArgument))
    else if c == '<' then
      if FollowedBy(text, next, '=') then Ok((Token(Operator, OperatorOf(LessOrEqual), next), next + 1))
      else Ok((Token(Operator, OperatorOf(LessThan), pos), next))
    else if c == '>' then
      if FollowedBy(text, next, '=') then Ok((Token(Operator, OperatorOf(GreaterOrEqual), next), next + 1))
      else Ok((Token(Operator, OperatorOf(GreaterThan), pos), next))
    else if c == '=' then Ok((Token(Operator, OperatorOf(EqualTo), pos), next))
    else if IsDigit(c) then Ok((Token(Digit, DigitOf(DigitValue(c)), pos), next))
    else if IsLetter(c) then Ok((Token(Letter, LetterOf(c), pos), next))
    else Err(Failure(pos, InvalidArgument))
  }

  /** All tokens from pos on. */
  function ScanFrom(text: string, pos: nat): (r: Result<seq<Token>, Failure>)
    requires pos <= |text|
    ensures r.Ok? ==> Complete(r.value) && r.value[|r.value| - 1].lexeme == |text|
    decreases |text| - pos
  {
    if pos == |text| then Ok([Token(Eol, NoValue, pos)]) else
      match ScanOne(text, pos) {
        case Err(e) => Err(e)
        case Ok(one) =>
          match ScanFrom(text, one.1) {
            case Err(e) => Err(e)
            case Ok(rest) => Ok([one.0] + rest)
          }
      }
  }

  lemma ScansEnd(text: string)
    ensures ScanFrom(text, |text|) == Ok([Token(Eol, NoValue, |text|)])
  {
  }

  lemma ScanStep(text: string, pos: nat)
    requires pos < |text|
    ensures ScanFrom(text, pos).Ok? <==> ScanOne(text, pos).Ok? && ScanFrom(text, ScanOne(text, pos).value.1).Ok?
    ensures ScanFrom(text, pos).Ok? ==>
              ScanFrom(text, pos) == Ok([ScanOne(text, pos).value.0] + ScanFrom(text, ScanOne(text, pos).value.1).value)
  {
  }

  // --- the cursor -----------------------------------------------------------------------------------

  /** Tokens with a cursor. Looking at a token that does not exist is not allowed. */
  class TokenStream {
    var tokens: seq<Token>
    var current: nat

    constructor ()
      ensures tokens == [] && current == 0
    {
      tokens, current := [], 0;
    }

    /** The cursor is at one of the tokens of a complete list. */
    ghost predicate Valid()
      reads this
    {
      Complete(tokens) && current < |tokens|
    }

    method Push(t: Token)
      modifies `tokens
      ensures tokens == old(tokens) + [t]
    {
      tokens := tokens + [t];
    }

    method Advance() returns (t: Token)
      requires current < |tokens|
      modifies `current
      ensures t == tokens[old(current)] && current == old(current) + 1
    {
      t := Peek(0);
      current := current + 1;
    }

    function Peek(k: nat): Token
      requires current + k < |tokens|
      reads this
    {
      tokens[current + k]
    }

    function Previous(): Token
      requires 0 < current <= |tokens|
      reads this
    {
      tokens[current - 1]
    }

    /** Moves past the current token if it is of the given kind, which the end of the line never is. */
    method AdvanceIfMatch(kind: TokenType) returns (matched: bool, t: Token)
      requires Valid() && kind != Eol
      modifies `current
      ensures Valid() && matched == (old(Peek(0)).kind == kind) && t == old(Peek(0))
      ensures current == if matched then old(current) + 1 else old(current)
    {
      t := Peek(0);
      matched := t.kind == kind;
      if matched {
        var _ := Advance();
      }
    }

    method Consume(kind: TokenType) returns (matched: bool)
      requires current < |tokens|
      modifies `current
      ensures matched == (tokens[old(current)].kind == kind) && current == old(current) + 1
    {
      var t := Advance();
      matched := t.kind == kind;
    }

    predicate Check(kind: TokenType)
      requires current < |tokens|
      reads this
    {
      Peek(0).kind == kind
    }
  }

  class Lexer {
    const text: string
    var pos: nat

    constructor (text: string)
      ensures this.text == text && pos == 0
    {
      this.text := text;
      pos := 0;
    }

    predicate IsEol()
      reads this
    {
      pos >= |text|
    }

    method AdvanceIfMatch(c: char) returns (matched: bool)
      requires pos <= |text|
      modifies this
      ensures matched == FollowedBy(text, old(pos), c)
      ensures pos == (if matched then old(pos) + 1 else old(pos)) <= |text|
    {
      if IsEol() {
        return false;
      }
      if text[pos] != c {
        return false;
      }
      pos := pos + 1;
      matched := true;
    }

    method AddToken(stream: TokenStream, kind: TokenType, value: Value)
      modifies stream`tokens
      ensures stream.tokens == old(stream.tokens) + [Token(kind, value, pos - 1)]
    {
      stream.Push(Token(kind, value, pos - 1));
    }

    method ScanToken(stream: TokenStream) returns (r: Result<int, Failure>)
      requires pos < |text|
      modifies this, stream`tokens
      ensures var one := ScanOne(text, old(pos));
              match one
              case Ok(t) => r == Ok(pos - 1) && stream.tokens == old(stream.tokens) + [t.0] && pos == t.1
              case Err(e) => r == Err(e) && stream.tokens == old(stream.tokens)
    {
      var c := text[pos];
      pos := pos + 1;
      match c {
        case ' ' => AddToken(stream, Space, NoValue);
        case '.' => AddToken(stream, Dot, NoValue);
        case '-' => AddToken(stream, Hyphen, NoValue);
        case '+' => AddToken(stream, Plus, NoValue);
        case '|' =>
          var twice := AdvanceIfMatch('|');
          if !twice {
            return Err(Failure(pos - 1, InvalidArgument));
          }
          AddToken(stream, LogicalOr, NoValue);
        case '<' =>
          var orEqual := AdvanceIfMatch('=');
          AddToken(stream, Operator, OperatorOf(if orEqual then LessOrEqual else LessThan));
        case '>' =>
          var orEqual := AdvanceIfMatch('=');
          AddToken(stream, Operator, OperatorOf(if orEqual then GreaterOrEqual else GreaterThan));
        case '=' => AddToken(stream, Operator, OperatorOf(EqualTo));
        case _ =>
          if IsDigit(c) {
            AddToken(stream, Digit, DigitOf(DigitValue(c)));
          } else if IsLetter(c) {
            AddToken(stream, Letter, LetterOf(c));
          } else {
            return Err(Failure(pos - 1, InvalidArgument));
          }
      }
      r := Ok(pos - 1);
    }

    /** Appends all tokens of the text, the end of the line last. */
    method ScanTokens(stream: TokenStream) returns (r: Result<int, Failure>)
      requires pos == 0
      modifies this, stream`tokens
      ensures match ScanFrom(text, 0)
              case Ok(ts) => r.Ok? && stream.tokens == old(stream.tokens) + ts
              case Err(e) => r == Err(e)
    {
      hide ScanOne, Complete;
      ghost var before := stream.tokens;
      ghost var done := [];
      r := Ok(0);
      if ScanFrom(text, 0).Ok? {
        assert done + ScanFrom(text, 0).value == ScanFrom(text, 0).value;
      }
      while !IsEol()
        invariant pos <= |text| && r.Ok?
        invariant stream.tokens == before + done
        invariant match ScanFrom(text, pos)
                  case Ok(rest) => ScanFrom(text, 0) == Ok(done + rest)
                  case Err(e) => ScanFrom(text, 0) == Err(e)
        decreases |text| - pos
      {
        ghost var start := pos;
        r := ScanToken(stream);
        if r.Err? {
          return;
        }
        ghost var t := ScanOne(text, start).value.0;
        Associative(before, done, [t]);
        if ScanFrom(text, pos).Ok? {
          Associative(done, [t], ScanFrom(text, pos).value);
        }
        done := done + [t];
      }
      stream.Push(Token(Eol, NoValue, |text|));
      Associative(before, done, [Token(Eol, NoValue, |text|)]);
    }
  }
}
