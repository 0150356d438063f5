/** The version parser: what it makes of a list of tokens, and the methods that move the cursor over it. */
module SemverParser {
  import opened Blocks
  import opened Wrappers
  import opened Decimals
  import opened SemverLexer
  import opened SemverGrammar

  const MAX_INT: nat := 0x7FFF_FFFF
  const TWO_TO_64: nat := 0x1_0000_0000_0000_0000

  datatype Identifier = Identifier(numeric: bool, text: string)

  datatype Version = Version(major: int, minor: int, patch: int, tag: string, build: string, ids: seq<Identifier>)

  /** The version that an object holds before anything has been read into it. */
  const CLEARED: Version := Version(0, 1, 0, "", "", [])

  /** A value that was read, and where the cursor is then. */
  type Step<T> = Result<(T, nat), Failure>

  predicate At(tokens: seq<Token>, i: nat) {
    Complete(tokens) && i < |tokens|
  }

  /** The end of the run of digit tokens that starts at i. */
  function DigitsEnd(tokens: seq<Token>, i: nat): (j: nat)
    requires At(tokens, i)
    ensures i <= j < |tokens| && tokens[j].kind != Digit
    ensures forall k :: i <= k < j ==> tokens[k].kind == Digit
    decreases |tokens| - i
  {
    if tokens[i].kind == Digit then DigitsEnd(tokens, i + 1) else i
  }

  /** The end of the run of letters, digits and hyphens that starts at i. */
  function AlphanumericEnd(tokens: seq<Token>, i: nat): (j: nat)
    requires At(tokens, i)
    ensures i <= j < |tokens| && !tokens[j].IsAlphanumeric()
    ensures forall k :: i <= k < j ==> tokens[k].IsAlphanumeric()
    decreases |tokens| - i
  {
    if tokens[i].IsAlphanumeric() then AlphanumericEnd(tokens, i + 1) else i
  }

  function CharOf(t: Token): (c: char)
    requires t.WellTyped() && t.IsAlphanumeric()
    ensures IsIdentifierChar(c) && (t.kind == Digit <==> IsDigit(c))
  {
    match t.kind
    case Digit => DigitChar(t.value.digit)
    case Letter => t.value.letter
    case Hyphen => '-'
  }

  /** The text of the tokens from i up to j. */
  function Spell(tokens: seq<Token>, i: nat, j: nat): (s: string)
    requires i <= j <= |tokens|
    requires forall k :: i <= k < j ==> tokens[k].WellTyped() && tokens[k].IsAlphanumeric()
    ensures |s| == j - i && forall k :: i <= k < j ==> s[k - i] == CharOf(tokens[k])
  {
    seq(j - i, k requires 0 <= k < j - i => CharOf(tokens[i + k]))
  }

  /** The value that reading digits into 64 bits gives. */
  function Wrapped(digits: string): nat
    requires AllDigits(digits)
  {
    Natural(digits) % TWO_TO_64
  }

  function RunValue(tokens: seq<Token>, i: nat, j: nat): nat
    requires i <= j <= |tokens|
    requires forall k :: i <= k < j ==> tokens[k].WellTyped() && tokens[k].kind == Digit
  {
    Wrapped(Spell(tokens, i, j))
  }

  function NumberAt(tokens: seq<Token>, i: nat): (r: Step<nat>)
    requires At(tokens, i)
    ensures r.Ok? ==> i < r.value.1 < |tokens|
  {
    if tokens[i].kind != Digit then Err(Failure(tokens[i].lexeme, InvalidArgument))
    else if tokens[i].value.digit == 0 then Ok((0, i + 1))
    else
      var j := DigitsEnd(tokens, i);
      var n := RunValue(tokens, i, j);
      if n <= MAX_INT then Ok((n, j)) else Err(Failure(tokens[j - 1].lexeme, ResultOutOfRange))
  }

  /** A zero followed by digits only, and by at least one. */
  predicate LeadingZero(tokens: seq<Token>, i: nat)
    requires At(tokens, i)
  {
    && tokens[i].kind == Digit && tokens[i].value.digit == 0
    && var j := AlphanumericEnd(tokens, i + 1);
    i + 1 < j && DigitsEnd(tokens, i + 1) == j
  }

  function IdentifierAt(tokens: seq<Token>, i: nat, prerelease: bool): (r: Step<string>)
    requires At(tokens, i)
    ensures r.Ok? ==> i < r.value.1 < |tokens|
  {
    var j := AlphanumericEnd(tokens, i);
    if i == j then Err(Failure(tokens[i].lexeme, InvalidArgument))
    else if prerelease && LeadingZero(tokens, i) then Err(Failure(tokens[i].lexeme, InvalidArgument))
    else Ok((Spell(tokens, i, j), j))
  }

  /** A step whose identifiers come after others. */
  function Prepend(ids: seq<string>, step: Step<seq<string>>): Step<seq<string>> {
    match step
    case Err(e) => Err(e)
    case Ok((rest, j)) => Ok((ids + rest, j))
  }

  /** Identifiers with dots between them. */
  function IdentifiersAt(tokens: seq<Token>, i: nat, prerelease: bool): (r: Step<seq<string>>)
    requires At(tokens, i)
    ensures r.Ok? ==> i < r.value.1 < |tokens| && |r.value.0| > 0
    decreases |tokens| - i
  {
    match IdentifierAt(tokens, i, prerelease)
    case Err(e) => Err(e)
    case Ok((id, j)) =>
      if tokens[j].kind != Dot then Ok(([id], j)) else Prepend([id], IdentifiersAt(tokens, j + 1, prerelease))
  }

  /** Identifiers behind a token of the given kind, or none without it. */
  function OptionalAt(tokens: seq<Token>, i: nat, kind: TokenType, prerelease: bool): (r: Step<seq<string>>)
    requires At(tokens, i) && kind != Eol
    ensures r.Ok? ==> i <= r.value.1 < |tokens|
  {
    if tokens[i].kind == kind then IdentifiersAt(tokens, i + 1, prerelease) else Ok(([], i))
  }

  function MakeIdentifier(s: string): Identifier {
    Identifier(forall i :: 0 <= i < |s| ==> !(s[i] == '-' || IsLetter(s[i])), s)
  }

  function MakeIdentifiers(ids: seq<string>): (r: seq<Identifier>)
    ensures |r| == |ids| && forall i :: 0 <= i < |ids| ==> r[i] == MakeIdentifier(ids[i])
  {
    seq(|ids|, i requires 0 <= i < |ids| => MakeIdentifier(ids[i]))
  }

  /** A number and, behind it, a dot. */
  function NumberDotAt(tokens: seq<Token>, i: nat): (r: Step<nat>)
    requires At(tokens, i)
    ensures r.Ok? ==> i < r.value.1 < |tokens|
  {
    match NumberAt(tokens, i)
    case Err(e) => Err(e)
    case Ok((n, j)) => if tokens[j].kind == Dot then Ok((n, j + 1)) else Err(Failure(tokens[j].lexeme, InvalidArgument))
  }

  function VersionAt(tokens: seq<Token>, i: nat): (r: Step<Version>)
    requires At(tokens, i)
    ensures r.Ok? ==> i < r.value.1 < |tokens|
  {
    match NumberDotAt(tokens, i)
    case Err(e) => Err(e)
    case Ok((major, i1)) =>
      match NumberDotAt(tokens, i1)
      case Err(e) => Err(e)
      case Ok((minor, i2)) =>
        match NumberAt(tokens, i2)
        case Err(e) => Err(e)
        case Ok((patch, i3)) =>
          match OptionalAt(tokens, i3, Hyphen, true)
          case Err(e) => Err(e)
          case Ok((prerelease, i4)) =>
            match OptionalAt(tokens, i4, Plus, false)
            case Err(e) => Err(e)
            case Ok((build, i5)) =>
              Ok((Version(major, minor, patch, Join(prerelease), Join(build), MakeIdentifiers(prerelease)), i5))
  }

  /** What parsing a whole text as a version gives. */
  function Parsed(text: string): Result<Version, Failure> {
    match ScanFrom(text, 0)
    case Err(e) => Err(e)
    case Ok(tokens) =>
      match VersionAt(tokens, 0)
      case Err(e) => Err(e)
      case Ok((v, i)) => if tokens[i].kind == Eol then Ok(v) else Err(Failure(tokens[i].lexeme, InvalidArgument))
  }

  // --- the methods ----------------------------------------------------------------------------------

  lemma WrappedStep(n: nat, d: nat)
    ensures (n % TWO_TO_64 * 10 + d) % TWO_TO_64 == (10 * n + d) % TWO_TO_64
  {
    var q := n / TWO_TO_64;
    assert 10 * n + d == 10 * q * TWO_TO_64 + (n % TWO_TO_64 * 10 + d);
  }

  lemma FirstDigit(tokens: seq<Token>, i: nat)
    requires At(tokens, i) && tokens[i].kind == Digit
    ensures RunValue(tokens, i, i + 1) == tokens[i].value.digit
  {
    var s := Spell(tokens, i, i + 1);
    assert s[..0] == [] && Natural(s) == DigitValue(s[0]);
  }

  /** One more digit token at the end of a run. */
  lemma OneMoreDigit(tokens: seq<Token>, i: nat, j: nat)
    requires At(tokens, j) && i <= j && forall k :: i <= k <= j ==> tokens[k].kind == Digit
    ensures RunValue(tokens, i, j + 1) == (RunValue(tokens, i, j) * 10 + tokens[j].value.digit) % TWO_TO_64
  {
    var s := Spell(tokens, i, j + 1);
    assert s[..j - i] == Spell(tokens, i, j);
    WrappedStep(Natural(Spell(tokens, i, j)), tokens[j].value.digit);
  }

  /** A run ends where the first other token is. */
  lemma {:induction false} AlphanumericRunEnds(tokens: seq<Token>, i: nat, j: nat)
    requires At(tokens, j) && i <= j && (forall k :: i <= k < j ==> tokens[k].IsAlphanumeric())
             && !tokens[j].IsAlphanumeric()
    ensures AlphanumericEnd(tokens, i) == j
    decreases j - i
  {
    if i < j {
      AlphanumericRunEnds(tokens, i + 1, j);
    }
  }

  lemma {:induction false} DigitRunEnds(tokens: seq<Token>, i: nat, j: nat)
    requires At(tokens, j) && i <= j && (forall k :: i <= k < j ==> tokens[k].kind == Digit) && tokens[j].kind != Digit
    ensures DigitsEnd(tokens, i) == j
    decreases j - i
  {
    if i < j {
      DigitRunEnds(tokens, i + 1, j);
    }
  }

  lemma RunStarts(tokens: seq<Token>, i: nat)
    requires At(tokens, i)
    ensures AlphanumericEnd(tokens, i) == i <==> !tokens[i].IsAlphanumeric()
  {
  }

  lemma NothingSpelled(tokens: seq<Token>, i: nat)
    requires i <= |tokens|
    ensures Spell(tokens, i, i) == ""
  {
  }

  lemma SpellOneMore(tokens: seq<Token>, i: nat, j: nat)
    requires At(tokens, j) && i <= j && forall k :: i <= k <= j ==> tokens[k].IsAlphanumeric()
    ensures Spell(tokens, i, j + 1) == Spell(tokens, i, j) + [CharOf(tokens[j])]
  {
  }

  lemma JoinOneMore(ids: seq<string>, id: string)
    ensures Join([]) == "" && Join(ids + [id]) == (if ids == [] then id else Join(ids) + "." + id)
    ensures ids != [] && id != "" ==> Join(ids + [id]) != ""
  {
    if |ids| > 1 {
      JoinOneMore(ids[1..], id);
      assert (ids + [id])[1..] == ids[1..] + [id];
    } else if |ids| == 1 {
      assert (ids + [id])[1..] == [id];
    }
  }

  /**
   * Of the identifiers from i on, done have been read: the rest is at the cursor, or there are no more.
   */
  ghost predicate Continues(tokens: seq<Token>, i: nat, prerelease: bool, done: seq<string>, cursor: nat, more: bool)
    requires At(tokens, i) && At(tokens, cursor)
  {
    IdentifiersAt(tokens, i, prerelease)
    == if more then Prepend(done, IdentifiersAt(tokens, cursor, prerelease)) else Ok((done, cursor))
  }

  lemma BeforeFirst(tokens: seq<Token>, i: nat, prerelease: bool)
    requires At(tokens, i)
    ensures Continues(tokens, i, prerelease, [], i, true)
  {
    var step := IdentifiersAt(tokens, i, prerelease);
    assert step.Ok? ==> [] + step.value.0 == step.value.0;
  }

  lemma PrependTwice(a: seq<string>, b: seq<string>, step: Step<seq<string>>)
    ensures Prepend(a, Prepend(b, step)) == Prepend(a + b, step)
  {
    if step.Ok? {
      Associative(a, b, step.value.0);
    }
  }

  lemma IdentifiersStep(tokens: seq<Token>, i: nat, prerelease: bool, done: seq<string>, cursor: nat)
    requires At(tokens, i) && At(tokens, cursor) && Continues(tokens, i, prerelease, done, cursor, true)
    ensures var step := IdentifierAt(tokens, cursor, prerelease);
            && (step.Err? ==> IdentifiersAt(tokens, i, prerelease) == Err(step.error))
            && (step.Ok? ==>
                  var id, j := step.value.0, step.value.1;
                  var dot := tokens[j].kind == Dot;
                  id != "" && Continues(tokens, i, prerelease, done + [id], if dot then j + 1 else j, dot))
  {
    hide Spell, LeadingZero;
    var step := IdentifierAt(tokens, cursor, prerelease);
    if step.Ok? && tokens[step.value.1].kind == Dot {
      PrependTwice(done, [step.value.0], IdentifiersAt(tokens, step.value.1 + 1, prerelease));
    }
  }

  class VersionParser {
    const stream: TokenStream

    constructor (stream: TokenStream)
      ensures this.stream == stream
    {
      this.stream := stream;
    }

    /** The outcome of a step that succeeded: where the cursor is in the text. */
    function Success(): Result<int, Failure>
      requires stream.current < |stream.tokens|
      reads stream
    {
      Ok(stream.Peek(0).lexeme)
    }

    method ParseNumber() returns (r: Result<int, Failure>, out: nat)
      requires stream.Valid()
      modifies stream`current
      ensures match NumberAt(stream.tokens, old(stream.current))
              case Ok((n, j)) => stream.current == j && stream.Valid() && r == Success() && out == n
              case Err(e) => r == Err(e)
    {
      hide DigitsEnd, RunValue;
      ghost var ts, i := stream.tokens, stream.current;
      out := 0;
      var t := stream.Advance();
      if t.kind != Digit {
        return Err(Failure(t.lexeme, InvalidArgument)), out;
      }
      var result := t.value.digit;
      if result == 0 {
        return Success(), 0;
      }
      FirstDigit(ts, i);
      while stream.Check(Digit)
        invariant stream.tokens == ts && i < stream.current && stream.Valid()
        invariant forall k :: i <= k < stream.current ==> ts[k].kind == Digit
        invariant t == ts[stream.current - 1]
        invariant result == RunValue(ts, i, stream.current)
        decreases |ts| - stream.current
      {
        OneMoreDigit(ts, i, stream.current);
        t := stream.Advance();
        result := (result * 10 + t.value.digit) % TWO_TO_64;
      }
      DigitRunEnds(ts, i, stream.current);
      if result <= MAX_INT {
        return Success(), result;
      }
      return Err(Failure(t.lexeme, ResultOutOfRange)), out;
    }

    /** Whether a zero that was just read is followed by digits, and by nothing else that could follow. */
    method IsLeadingZero(digit: nat) returns (leading: bool)
      requires stream.Valid()
      ensures leading <==> digit == 0 && var j := AlphanumericEnd(stream.tokens, stream.current);
                           stream.current < j && DigitsEnd(stream.tokens, stream.current) == j
    {
      if digit != 0 {
        return false;
      }
      ghost var ts, i := stream.tokens, stream.current;
      var k, alphanumerics, digits := 0, 0, 0;
      while stream.Peek(k).IsAlphanumeric()
        invariant i + k < |ts| && alphanumerics == k && digits <= k
        invariant forall q :: i <= q < i + k ==> ts[q].IsAlphanumeric()
        invariant digits == k <==> forall q :: i <= q < i + k ==> ts[q].kind == Digit
        decreases |ts| - k
      {
        alphanumerics := alphanumerics + 1;
        if stream.Peek(k).kind == Digit {
          digits := digits + 1;
        }
        k := k + 1;
      }
      AlphanumericRunEnds(ts, i, i + k);
      if digits == k {
        DigitRunEnds(ts, i, i + k);
      }
      leading := digits > 0 && digits == alphanumerics;
    }

    /** Moves past a hyphen, a letter or a digit. */
    method AdvanceIfAlphanumeric() returns (matched: bool, t: Token)
      requires stream.Valid()
      modifies stream`current
      ensures stream.Valid() && t == old(stream.Peek(0)) && matched == t.IsAlphanumeric()
      ensures stream.current == if matched then old(stream.current) + 1 else old(stream.current)
    {
      matched, t := stream.AdvanceIfMatch(Hyphen);
      if !matched {
        matched, t := stream.AdvanceIfMatch(Letter);
      }
      if !matched {
        matched, t := stream.AdvanceIfMatch(Digit);
      }
    }

    method ParsePrereleaseIdentifier() returns (r: Result<int, Failure>, out: string)
      requires stream.Valid()
      modifies stream`current
      ensures match IdentifierAt(stream.tokens, old(stream.current), true)
              case Ok((s, j)) => stream.current == j && stream.Valid() && r == Success() && out == s
              case Err(e) => r == Err(e)
    {
      hide DigitsEnd, AlphanumericEnd, Spell;
      ghost var ts, i := stream.tokens, stream.current;
      out := "";
      var result := "";
      var t := stream.Advance();
      RunStarts(ts, i);
      NothingSpelled(ts, i);
      var more := true;
      while more
        invariant stream.tokens == ts && i < stream.current && (!more || stream.current > i + 1 ==> stream.Valid())
        invariant stream.current <= |ts|
        invariant !more || stream.current > i + 1 ==> forall k :: i <= k < stream.current ==> ts[k].IsAlphanumeric()
        invariant if more then t == ts[stream.current - 1] else stream.Valid() && !ts[stream.current].IsAlphanumeric()
        invariant result == Spell(ts, i, stream.current - (if more then 1 else 0))
        invariant !more || stream.current > i + 1 ==> !LeadingZero(ts, i)
        decreases |ts| - stream.current, more
      {
        if t.kind == Hyphen {
          result := result + ['-'];
        } else if t.kind == Letter {
          result := result + [t.value.letter];
        } else if t.kind == Digit {
          if result == "" {
            var leading := IsLeadingZero(t.value.digit);
            if leading {
              return Err(Failure(t.lexeme, InvalidArgument)), out;
            }
          }
          result := result + [DigitChar(t.value.digit)];
        } else {
          return Err(Failure(t.lexeme, InvalidArgument)), out;
        }
        SpellOneMore(ts, i, stream.current - 1);
        more, t := AdvanceIfAlphanumeric();
      }
      AlphanumericRunEnds(ts, i, stream.current);
      return Success(), result;
    }

    method ParseBuildIdentifier() returns (r: Result<int, Failure>, out: string)
      requires stream.Valid()
      modifies stream`current
      ensures match IdentifierAt(stream.tokens, old(stream.current), false)
              case Ok((s, j)) => stream.current == j && stream.Valid() && r == Success() && out == s
              case Err(e) => r == Err(e)
    {
      hide DigitsEnd, AlphanumericEnd, Spell;
      ghost var ts, i := stream.tokens, stream.current;
      out := "";
      var result := "";
      var t := stream.Advance();
      RunStarts(ts, i);
      NothingSpelled(ts, i);
      var more := true;
      while more
        invariant stream.tokens == ts && i < stream.current && (!more || stream.current > i + 1 ==> stream.Valid())
        invariant stream.current <= |ts|
        invariant !more || stream.current > i + 1 ==> forall k :: i <= k < stream.current ==> ts[k].IsAlphanumeric()
        invariant if more then t == ts[stream.current - 1] else stream.Valid() && !ts[stream.current].IsAlphanumeric()
        invariant result == Spell(ts, i, stream.current - (if more then 1 else 0))
        decreases |ts| - stream.current, more
      {
        if t.kind == Hyphen {
          result := result + ['-'];
        } else if t.kind == Letter {
          result := result + [t.value.letter];
        } else if t.kind == Digit {
          result := result + [DigitChar(t.value.digit)];
        } else {
          return Err(Failure(t.lexeme, InvalidArgument)), out;
        }
        SpellOneMore(ts, i, stream.current - 1);
        more, t := AdvanceIfAlphanumeric();
      }
      AlphanumericRunEnds(ts, i, stream.current);
      return Success(), result;
    }

    method ParsePrereleaseTag() returns (r: Result<int, Failure>, out: string, outIds: seq<Identifier>)
      requires stream.Valid()
      modifies stream`current
      ensures match IdentifiersAt(stream.tokens, old(stream.current), true)
              case Ok((ids, j)) => stream.current == j && stream.Valid() && r == Success() && out == Join(ids)
                  && outIds == MakeIdentifiers(ids)
              case Err(e) => r == Err(e)
    {
      hide IdentifierAt, IdentifiersAt, Join, Prepend;
      ghost var ts, i, done := stream.tokens, stream.current, [];
      var result, more := "", true;
      out, outIds := "", [];
      JoinOneMore([], "");
      BeforeFirst(ts, i, true);
      while more
        invariant stream.tokens == ts && stream.Valid() && i <= stream.current
        invariant result == Join(done) && (result == "" <==> done == []) && outIds == MakeIdentifiers(done)
        invariant Continues(ts, i, true, done, stream.current, more)
        decreases |ts| - stream.current, more
      {
        if result != "" {
          result := result + ['.'];
        }
        IdentifiersStep(ts, i, true, done, stream.current);
        var step, id := ParsePrereleaseIdentifier();
        if step.Err? {
          return step, out, outIds;
        }
        JoinOneMore(done, id);
        result := result + id;
        outIds := outIds + [MakeIdentifier(id)];
        done := done + [id];
        var dot, _ := stream.AdvanceIfMatch(Dot);
        more := dot;
      }
      out := result;
      r := Success();
    }

    method ParseBuildMetadata() returns (r: Result<int, Failure>, out: string)
      requires stream.Valid()
      modifies stream`current
      ensures match IdentifiersAt(stream.tokens, old(stream.current), false)
              case Ok((ids, j)) => stream.current == j && stream.Valid() && r == Success() && out == Join(ids)
              case Err(e) => r == Err(e)
    {
      hide IdentifierAt, IdentifiersAt, Join;
      ghost var ts, i, done := stream.tokens, stream.current, [];
      var result, more := "", true;
      out := "";
      JoinOneMore([], "");
      BeforeFirst(ts, i, false);
      while more
        invariant stream.tokens == ts && stream.Valid() && i <= stream.current
        invariant result == Join(done) && (result == "" <==> done == [])
        invariant Continues(ts, i, false, done, stream.current, more)
        decreases |ts| - stream.current, more
      {
        if result != "" {
          result := result + ['.'];
        }
        IdentifiersStep(ts, i, false, done, stream.current);
        var step, id := ParseBuildIdentifier();
        if step.Err? {
          return step, out;
        }
        JoinOneMore(done, id);
        result := result + id;
        done := done + [id];
        var dot, _ := stream.AdvanceIfMatch(Dot);
        more := dot;
      }
      out := result;
      r := Success();
    }

    /** A number and the dot that must come next. */
    method ParseNumberDot() returns (r: Result<int, Failure>, out: nat)
      requires stream.Valid()
      modifies stream`current
      ensures match NumberDotAt(stream.tokens, old(stream.current))
              case Ok((n, j)) => stream.current == j && stream.Valid() && r.Ok? && out == n
              case Err(e) => r == Err(e)
    {
      r, out := ParseNumber();
      if r.Err? {
        return;
      }
      var dot := stream.Consume(Dot);
      if !dot {
        return Err(Failure(stream.Previous().lexeme, InvalidArgument)), out;
      }
    }

    method ParseOptionalPrerelease() returns (r: Result<int, Failure>, tag: string, ids: seq<Identifier>)
      requires stream.Valid()
      modifies stream`current
      ensures match OptionalAt(stream.tokens, old(stream.current), Hyphen, true)
              case Ok((prerelease, j)) =>
                stream.current == j && stream.Valid() && r == Success() && tag == Join(prerelease)
                    && ids == MakeIdentifiers(prerelease)
              case Err(e) => r == Err(e)
    {
      hide IdentifiersAt;
      JoinOneMore([], "");
      tag, ids := "", [];
      var hyphen, _ := stream.AdvanceIfMatch(Hyphen);
      if hyphen {
        r, tag, ids := ParsePrereleaseTag();
      } else {
        r := Success();
      }
    }

    method ParseOptionalBuild() returns (r: Result<int, Failure>, build: string)
      requires stream.Valid()
      modifies stream`current
      ensures match OptionalAt(stream.tokens, old(stream.current), Plus, false)
              case Ok((ids, j)) => stream.current == j && stream.Valid() && r == Success() && build == Join(ids)
              case Err(e) => r == Err(e)
    {
      hide IdentifiersAt;
      JoinOneMore([], "");
      build := "";
      var plus, _ := stream.AdvanceIfMatch(Plus);
      if plus {
        r, build := ParseBuildMetadata();
      } else {
        r := Success();
      }
    }

    method Parse() returns (r: Result<int, Failure>, out: Version)
      requires stream.Valid()
      modifies stream`current
      ensures match VersionAt(stream.tokens, old(stream.current))
              case Ok((v, j)) => stream.current == j && stream.Valid() && r == Success() && out == v
              case Err(e) => r == Err(e)
    {
      hide NumberDotAt, NumberAt, OptionalAt, Join, MakeIdentifiers;
      out := CLEARED;
      var n, tag, ids, build;
      r, n := ParseNumberDot();
      if r.Err? {
        return;
      }
      out := out.(major := n);
      r, n := ParseNumberDot();
      if r.Err? {
        return;
      }
      out := out.(minor := n);
      r, n := ParseNumber();
      if r.Err? {
        return;
      }
      out := out.(patch := n);
      r, tag, ids := ParseOptionalPrerelease();
      if r.Err? {
        return;
      }
      out := out.(tag := tag, ids := ids);
      r, build := ParseOptionalBuild();
      if r.Err? {
        return;
      }
      out := out.(build := build);
    }
  }

  /** Parses a text as one version, to its end. */
  method ParseVersion(text: string) returns (r: Result<int, Failure>, out: Version)
    ensures match Parsed(text)
            case Ok(v) => r == Ok(|text|) && out == v
            case Err(e) => r == Err(e)
  {
    hide ScanFrom, VersionAt;
    out := CLEARED;
    var stream := new TokenStream();
    var lexer := new Lexer(text);
    r := lexer.ScanTokens(stream);
    if r.Err? {
      return;
    }
    assert stream.tokens == ScanFrom(text, 0).value;
    var parser := new VersionParser(stream);
    r, out := parser.Parse();
    if r.Err? {
      return;
    }
    var eol := stream.Consume(Eol);
    if !eol {
      return Err(Failure(stream.Previous().lexeme, InvalidArgument)), out;
    }
    r := Ok(stream.Previous().lexeme);
  }
}
