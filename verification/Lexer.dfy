/** The streaming lexer (magna-gqlmin `lex.rs`): byte loops that advance a cursor. */
module Lexers {
  import opened Basics
  import opened Syntax
  import opened Lexing

  /** What was lexed at `start`, as a token with its lexeme or as an error with its span. */
  function Located(src: string, start: nat, l: Lexed): Result<Token, ParseError> {
    match l
    case Lexed(kind, n) => Ok(Token(kind, Slice(src, start, start + n), Span(start, start + n)))
    case Bad(error, n) => Err(ParseError(Span(start, start + n), error))
  }

  function Slice(src: string, i: nat, j: nat): string {
    if i <= j <= |src| then src[i..j] else ""
  }

  /** The next token from `pos` on. */
  function NextFrom(src: string, pos: nat): Result<Token, ParseError>
    requires pos <= |src|
  {
    var start := pos + Skip(src[pos..]);
    if start == |src| then Ok(Token(Eof, "", Span(start, start))) else Located(src, start, Lex(src[start..]))
  }

  const BOM := "\U{EF}\U{BB}\U{BF}"

  function Beginning(src: string): (n: nat)
    ensures n <= |src|
  {
    if BOM <= src then 3 else 0
  }

  lemma {:induction false} SkipStep(src: string, pos: nat)
    requires pos < |src|
    ensures IsBlank(src[pos]) ==> Skip(src[pos..]) == 1 + Skip(src[pos+1..])
    ensures src[pos] == '#' ==>
      var n := 1 + Run(InComment, src[pos+1..]); pos + n <= |src| && Skip(src[pos..]) == n + Skip(src[pos+n..])
    ensures !IsBlank(src[pos]) && src[pos] != '#' ==> Skip(src[pos..]) == 0
  {
    hide Run;
    var s := src[pos..];
    assert s[0] == src[pos] && s[1..] == src[pos+1..];
    var n := 1 + Run(InComment, src[pos+1..]);
    assert s[n..] == src[pos+n..];
  }

  /** A run of characters in the source, as the length of a run in the rest of it. */
  lemma {:induction false} RunFrom(p: char -> bool, src: string, from: nat, to: nat)
    requires from <= to <= |src| && (forall k :: from <= k < to ==> p(src[k])) && (to < |src| ==> !p(src[to]))
    ensures Run(p, src[from..]) == to - from
  {
    hide Run;
    var s := src[from..];
    assert forall i :: 0 <= i < |s| ==> s[i] == src[from + i];
    RunIs(p, s, to - from);
  }

  lemma {:induction false} HasFrom(src: string, start: nat, i: nat, c: char)
    requires start <= i && start <= |src|
    ensures Has(src[start..], i - start, c) == Has(src, i, c)
    ensures DigitAt(src[start..], i - start) == DigitAt(src, i)
  {
  }

  lemma {:induction false} RestOfRest(src: string, start: nat, i: nat)
    requires start <= i <= |src|
    ensures src[start..][i-start..] == src[i..]
  {
  }

  /** The integer part of a number, from after the sign on. */
  lemma {:induction false} IntegerPart(src: string, start: nat, a: nat)
    requires start <= a && start <= |src|
    ensures var s := src[start..];
      && (Has(src, a, '0') && DigitAt(src, a + 1) ==> LexInteger(s, a - start) == Bad(InvalidNumber, a + 2 - start))
      && (Has(src, a, '0') && !DigitAt(src, a + 1) ==> LexInteger(s, a - start) == LexFraction(s, a + 1 - start))
      && (!Has(src, a, '0') && DigitAt(src, a) ==>
            LexInteger(s, a - start) == LexFraction(s, a + Run(IsDigit, src[a..]) - start))
      && (!Has(src, a, '0') && !DigitAt(src, a) ==> LexInteger(s, a - start) == Bad(InvalidNumber, a + 1 - start))
  {
    hide Run, LexFraction, IsDigit;
    HasFrom(src, start, a, '0');
    HasFrom(src, start, a + 1, '0');
    if DigitAt(src, a) {
      RestOfRest(src, start, a);
    }
  }

  lemma {:induction false} FractionPart(src: string, start: nat, p: nat)
    requires start <= p <= |src|
    ensures var s := src[start..];
      if Has(src, p, '.') then
        var n := Run(IsDigit, src[p+1..]);
        LexFraction(s, p - start) ==
          if n == 0 then Bad(InvalidNumber, p + 1 - start) else LexExponent(s, p + 1 + n - start, true)
      else LexFraction(s, p - start) == LexExponent(s, p - start, false)
  {
    hide Run, LexExponent;
    HasFrom(src, start, p, '.');
    if Has(src, p, '.') {
      RestOfRest(src, start, p + 1);
    }
    hide Has;
  }

  lemma {:induction false} ExponentPart(src: string, start: nat, p: nat, isFloat: bool)
    requires start <= p <= |src|
    ensures var s := src[start..];
      if HasExponent(src, p) then
        var f := AfterSign(src, p + 1);
        var n := Run(IsDigit, src[f..]);
        LexExponent(s, p - start, isFloat) ==
          if n == 0 then Bad(InvalidNumber, f - start) else LexNumberEnd(s, f + n - start, true)
      else LexExponent(s, p - start, isFloat) == LexNumberEnd(s, p - start, isFloat)
  {
    hide Run, LexNumberEnd;
    HasFrom(src, start, p, 'e');
    HasFrom(src, start, p, 'E');
    HasFrom(src, start, p + 1, '+');
    HasFrom(src, start, p + 1, '-');
    if HasExponent(src, p) {
      RestOfRest(src, start, AfterSign(src, p + 1));
    }
    hide Has;
  }

  /** One character, or one escape, of a string. */
  lemma {:induction false} QuotedStep(src: string, start: nat, p: nat)
    requires start <= p < |src|
    ensures var s, c := src[start..], src[p];
      && (c == '"' ==> LexQuoted(s, p - start) == Lexed(StringValue, p + 1 - start))
      && (c == '\n' || c == '\r' ==> LexQuoted(s, p - start) == Bad(InvalidString, p - start))
      && (c != '"' && c != '\n' && c != '\r' && c != '\\' ==> LexQuoted(s, p - start) == LexQuoted(s, p + 1 - start))
      && (c == '\\' && p + 1 == |src| ==> LexQuoted(s, p - start) == Bad(InvalidEscape, p - start))
  {
    hide BadHex, IsEscape;
    assert src[start..][p-start] == src[p];
  }

  lemma {:induction false} QuotedEnd(src: string, start: nat)
    requires start <= |src|
    ensures LexQuoted(src[start..], |src| - start) == Bad(InvalidString, |src| - start)
  {
  }

  lemma {:induction false} EscapeStep(src: string, start: nat, p: nat)
    requires start <= p && p + 1 < |src| && src[p] == '\\'
    ensures var s, c, bad := src[start..], src[p+1], BadHex(src, p, 2);
      && (IsEscape(c) ==> LexQuoted(s, p - start) == LexQuoted(s, p + 2 - start))
      && (c == 'u' && bad == 6 ==> p + 6 <= |src| && LexQuoted(s, p - start) == LexQuoted(s, p + 6 - start))
      && (c == 'u' && bad < 6 ==>
            LexQuoted(s, p - start) == Bad(InvalidEscape, if p + bad < |src| then p + bad - start else p - start))
      && (!IsEscape(c) && c != 'u' ==> LexQuoted(s, p - start) == Bad(InvalidEscape, p + 2 - start))
  {
    BadHexFrom(src, start, p, 2);
    hide BadHex;
    var s := src[start..];
    assert s[p-start] == src[p] && s[p+1-start] == src[p+1];
    if BadHex(src, p, 2) == 6 {
      assert HexAt(src, p + 5);
    }
  }

  lemma {:induction false} BadHexFrom(src: string, start: nat, p: nat, i: nat)
    requires start <= p <= |src| && i <= 6
    ensures BadHex(src[start..], p - start, i) == BadHex(src, p, i)
    decreases 6 - i
  {
    assert p + i < |src| ==> src[start..][p-start+i] == src[p+i];
    if i < 6 {
      BadHexFrom(src, start, p, i + 1);
    }
  }

  class Lexer {
    const src: string
    var pos: nat
    var started: bool

    ghost predicate Valid()
      reads this
    {
      pos <= |src| && (!started ==> pos == 0)
    }

    constructor (src: string)
      ensures Valid() && this.src == src && !started
    {
      this.src, pos, started := src, 0, false;
    }

    predicate At(i: nat, c: char)
      reads this
    {
      i < |src| && src[i] == c
    }

    method SkipComment()
      requires Valid() && started && pos < |src|
      modifies this`pos
      ensures Valid() && pos == old(pos) + 1 + Run(InComment, src[old(pos)+1..])
    {
      ghost var from := pos + 1;
      pos := pos + 1;
      while pos < |src| && InComment(src[pos])
        invariant from <= pos <= |src|
        invariant forall k :: from <= k < pos ==> InComment(src[k])
      {
        pos := pos + 1;
      }
      RunFrom(InComment, src, from, pos);
    }

    method SkipInsignificant()
      requires Valid() && started
      modifies this`pos
      ensures Valid() && pos == old(pos) + Skip(src[old(pos)..])
    {
      hide Skip, Run;
      while pos < |src|
        invariant old(pos) <= pos <= |src|
        invariant pos + Skip(src[pos..]) == old(pos) + Skip(src[old(pos)..])
        decreases |src| - pos
      {
        SkipStep(src, pos);
        var b := src[pos];
        if IsBlank(b) {
          pos := pos + 1;
        } else if b == '#' {
          SkipComment();
        } else {
          return;
        }
      }
    }

    method LexName() returns (r: Result<Token, ParseError>)
      requires Valid() && started && pos < |src| && IsNameStart(src[pos])
      modifies this`pos
      ensures Valid() && r == Located(src, old(pos), Lexed(NameToken, Run(IsNameChar, src[old(pos)..])))
      ensures r.Ok? ==> pos == r.value.span.end
    {
      hide Run, IsNameStart;
      var start := pos;
      pos := pos + 1;
      while pos < |src| && IsNameChar(src[pos])
        invariant start < pos <= |src|
        invariant forall k :: start < k < pos ==> IsNameChar(src[k])
      {
        pos := pos + 1;
      }
      RunFrom(IsNameChar, src, start, pos);
      r := Ok(Token(NameToken, src[start..pos], Span(start, pos)));
    }

    /** The digits from the cursor on. */
    method SkipDigits()
      requires Valid() && started
      modifies this`pos
      ensures Valid() && pos == old(pos) + Run(IsDigit, src[old(pos)..])
    {
      hide Run;
      ghost var from := pos;
      while pos < |src| && IsDigit(src[pos])
        invariant from <= pos <= |src|
        invariant forall k :: from <= k < pos ==> IsDigit(src[k])
      {
        pos := pos + 1;
      }
      RunFrom(IsDigit, src, from, pos);
    }

    method LexNumberToken() returns (r: Result<Token, ParseError>)
      requires Valid() && started && pos < |src|
      modifies this`pos
      ensures Valid() && r == Located(src, old(pos), LexNumber(src[old(pos)..]))
      ensures r.Ok? ==> pos == r.value.span.end
    {
      hide LexInteger, LexFraction, Run, Slice, IsDigit;
      var start := pos;
      HasFrom(src, start, start, '-');
      if At(pos, '-') {
        pos := pos + 1;
      }
      IntegerPart(src, start, pos);
      if At(pos, '0') {
        pos := pos + 1;
        if pos < |src| && IsDigit(src[pos]) {
          return Err(ParseError(Span(start, pos + 1), InvalidNumber));
        }
      } else if pos < |src| && IsDigit(src[pos]) {
        SkipDigits();
      } else {
        return Err(ParseError(Span(start, pos + 1), InvalidNumber));
      }
      r := LexFractionToken(start);
    }

    method LexFractionToken(start: nat) returns (r: Result<Token, ParseError>)
      requires Valid() && started && start <= pos
      modifies this`pos
      ensures Valid() && r == Located(src, start, LexFraction(src[start..], old(pos) - start))
      ensures r.Ok? ==> pos == r.value.span.end
    {
      hide LexFraction, LexExponent, Run, Slice, IsDigit;
      FractionPart(src, start, pos);
      var isFloat := false;
      if At(pos, '.') {
        isFloat := true;
        pos := pos + 1;
        var from := pos;
        SkipDigits();
        if pos == from {
          return Err(ParseError(Span(start, pos), InvalidNumber));
        }
      }
      r := LexExponentToken(start, isFloat);
    }

    method LexExponentToken(start: nat, isFloat: bool) returns (r: Result<Token, ParseError>)
      requires Valid() && started && start <= pos
      modifies this`pos
      ensures Valid() && r == Located(src, start, LexExponent(src[start..], old(pos) - start, isFloat))
      ensures r.Ok? ==> pos == r.value.span.end
    {
      hide LexExponent, Run, LexNumberEnd, Slice, IsDigit;
      ExponentPart(src, start, pos, isFloat);
      var float := isFloat;
      if At(pos, 'e') || At(pos, 'E') {
        float := true;
        pos := pos + 1;
        if At(pos, '+') || At(pos, '-') {
          pos := pos + 1;
        }
        var from := pos;
        SkipDigits();
        if pos == from {
          return Err(ParseError(Span(start, pos), InvalidNumber));
        }
      }
      r := LexNumberEndToken(start, float);
    }

    method LexNumberEndToken(start: nat, isFloat: bool) returns (r: Result<Token, ParseError>)
      requires Valid() && started && start <= pos
      ensures r == Located(src, start, LexNumberEnd(src[start..], pos - start, isFloat))
      ensures r.Ok? ==> pos == r.value.span.end
    {
      assert pos < |src| ==> src[start..][pos-start] == src[pos];
      if pos < |src| && (IsNameStart(src[pos]) || src[pos] == '.') {
        return Err(ParseError(Span(start, pos + 1), InvalidNumber));
      }
      r := Ok(Token(if isFloat then FloatValue else IntValue, src[start..pos], Span(start, pos)));
    }

    method LexBlockToken(start: nat) returns (r: Result<Token, ParseError>)
      requires Valid() && started && start <= pos
      modifies this`pos
      ensures Valid() && r == Located(src, start, LexBlock(src[start..], old(pos) - start))
      ensures r.Ok? ==> pos == r.value.span.end
    {
      ghost var s := src[start..];
      assert forall i :: 0 <= i < |s| ==> s[i] == src[start+i];
      while true
        invariant start <= pos <= |src|
        invariant LexBlock(s, pos - start) == LexBlock(s, old(pos) - start)
        decreases |src| - pos
      {
        if pos >= |src| {
          return Err(ParseError(Span(start, pos), InvalidBlockString));
        }
        if src[pos] == '\\' && At(pos + 1, '"') && At(pos + 2, '"') && At(pos + 3, '"') {
          assert TripleQuote(s, pos - start + 1);
          pos := pos + 4;
          continue;
        }
        if src[pos] == '"' && At(pos + 1, '"') && At(pos + 2, '"') {
          assert TripleQuote(s, pos - start);
          pos := pos + 3;
          return Ok(Token(BlockStringValue, src[start..pos], Span(start, pos)));
        }
        assert !TripleQuote(s, pos - start) && !(s[pos-start] == '\\' && TripleQuote(s, pos - start + 1));
        pos := pos + 1;
      }
    }

    /** The first of four characters after `\\u` that is missing or no hexadecimal digit, or 6. */
    method FirstBadHex() returns (i: nat)
      requires Valid()
      ensures i == BadHex(src, pos, 2)
    {
      i := 2;
      while i < 6 && pos + i < |src| && IsHex(src[pos+i])
        invariant 2 <= i <= 6 && BadHex(src, pos, 2) == BadHex(src, pos, i)
      {
        i := i + 1;
      }
    }

    /** One escape: the cursor moves past it, or it is an error. */
    method SkipEscape(start: nat) returns (r: Result<(), ParseError>)
      requires Valid() && started && start <= pos < |src| && src[pos] == '\\'
      modifies this`pos
      ensures Valid() && old(pos) <= pos
      ensures r.Ok? ==>
        old(pos) < pos && LexQuoted(src[start..], pos - start) == LexQuoted(src[start..], old(pos) - start)
      ensures r.Err? ==> Located(src, start, LexQuoted(src[start..], old(pos) - start)) == Err(r.error)
    {
      hide LexQuoted, BadHex, IsEscape, IsHex;
      if pos + 1 >= |src| {
        QuotedStep(src, start, pos);
        return Err(ParseError(Span(start, pos), InvalidEscape));
      }
      EscapeStep(src, start, pos);
      var esc := src[pos+1];
      if IsEscape(esc) {
        pos := pos + 2;
      } else if esc == 'u' {
        var bad := FirstBadHex();
        if bad < 6 {
          return Err(ParseError(Span(start, if pos + bad < |src| then pos + bad else pos), InvalidEscape));
        }
        pos := pos + 6;
      } else {
        return Err(ParseError(Span(start, pos + 2), InvalidEscape));
      }
      r := Ok(());
    }

    method LexQuotedToken(start: nat) returns (r: Result<Token, ParseError>)
      requires Valid() && started && start <= pos
      modifies this`pos
      ensures Valid() && r == Located(src, start, LexQuoted(src[start..], old(pos) - start))
      ensures r.Ok? ==> pos == r.value.span.end
    {
      ghost var lexed := LexQuoted(src[start..], pos - start);
      QuotedEnd(src, start);
      hide LexQuoted;
      while pos < |src|
        invariant start <= pos <= |src|
        invariant LexQuoted(src[start..], pos - start) == lexed
        decreases |src| - pos
      {
        QuotedStep(src, start, pos);
        var b := src[pos];
        if b == '"' {
          pos := pos + 1;
          return Ok(Token(StringValue, src[start..pos], Span(start, pos)));
        } else if b == '\n' || b == '\r' {
          return Err(ParseError(Span(start, pos), InvalidString));
        } else if b == '\\' {
          var _ :- SkipEscape(start);
        } else {
          pos := pos + 1;
        }
      }
      r := Err(ParseError(Span(start, pos), InvalidString));
    }

    method LexStringToken() returns (r: Result<Token, ParseError>)
      requires Valid() && started && pos < |src|
      modifies this`pos
      ensures Valid() && r == Located(src, old(pos), LexString(src[old(pos)..]))
      ensures r.Ok? ==> pos == r.value.span.end
    {
      hide LexBlock, LexQuoted;
      var start := pos;
      ghost var s := src[start..];
      assert forall i :: 0 <= i < |s| ==> s[i] == src[start+i];
      if At(start + 1, '"') && At(start + 2, '"') {
        pos := start + 3;
        r := LexBlockToken(start);
      } else {
        pos := pos + 1;
        r := LexQuotedToken(start);
      }
    }

    method LexToken() returns (r: Result<Token, ParseError>)
      requires Valid() && started && pos < |src|
      modifies this`pos
      ensures Valid() && r == Located(src, old(pos), Lex(src[old(pos)..]))
      ensures r.Ok? ==> pos == r.value.span.end
    {
      hide LexNumber, LexString, Run;
      var start := pos;
      var b := src[start];
      ghost var s := src[start..];
      assert s[0] == b;
      if Punctuator(b).Some? {
        pos := pos + 1;
        return Ok(Token(Punctuator(b).value, src[start..pos], Span(start, pos)));
      } else if b == '.' {
        assert (1 < |s| ==> s[1] == src[start+1]) && (2 < |s| ==> s[2] == src[start+2]);
        if At(start + 1, '.') && At(start + 2, '.') {
          pos := start + 3;
          return Ok(Token(Spread, src[start..pos], Span(start, pos)));
        }
        return Err(ParseError(Span(start, start + 1), UnexpectedChar));
      } else if IsNameStart(b) {
        r := LexName();
      } else if b == '-' || IsDigit(b) {
        r := LexNumberToken();
      } else if b == '"' {
        r := LexStringToken();
      } else {
        return Err(ParseError(Span(start, start + 1), UnexpectedChar));
      }
    }

    /** Each call delivers the next token, and at the end the end again and again. */
    method NextToken() returns (r: Result<Token, ParseError>)
      requires Valid()
      modifies this
      ensures Valid() && started
      ensures var from := if old(started) then old(pos) else Beginning(src);
        && r == NextFrom(src, from)
        && (r.Ok? ==> pos == r.value.span.end)
    {
      hide Lex, Skip, Located;
      if !started {
        started := true;
        if BOM <= src {
          pos := pos + 3;
        }
      }
      SkipInsignificant();
      var start := pos;
      if start >= |src| {
        return Ok(Token(Eof, "", Span(start, start)));
      }
      r := LexToken();
    }
  }
}
