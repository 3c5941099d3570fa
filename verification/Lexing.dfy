/** The lexical grammar that the lexer accepts (magna-gqlmin `lex.rs`), as functions of the text that
    is left. A character stands for one byte of the source. */
module Lexing {
  import opened Basics
  import opened Syntax

  predicate IsDigit(c: char) { '0' <= c <= '9' }

  predicate IsNameStart(c: char) { c == '_' || 'A' <= c <= 'Z' || 'a' <= c <= 'z' }

  predicate IsNameChar(c: char) { IsNameStart(c) || IsDigit(c) }

  predicate IsHex(c: char) { IsDigit(c) || 'A' <= c <= 'F' || 'a' <= c <= 'f' }

  predicate IsBlank(c: char) { c == ' ' || c == '\t' || c == '\r' || c == '\n' || c == ',' }

  predicate InComment(c: char) { c != '\n' && c != '\r' }

  /** A token of this length, or an error whose span has this length. */
  datatype Lexed = Lexed(kind: TokenKind, len: nat) | Bad(error: ErrorKind, len: nat)

  /** How many leading characters satisfy `p`. */
  function Run(p: char -> bool, s: string): (n: nat)
    ensures n <= |s|
    ensures forall i :: 0 <= i < n ==> p(s[i])
    ensures n < |s| ==> !p(s[n])
  {
    if s == [] || !p(s[0]) then 0 else 1 + Run(p, s[1..])
  }

  lemma {:induction false} RunIs(p: char -> bool, s: string, n: nat)
    requires n <= |s| && (forall i :: 0 <= i < n ==> p(s[i])) && (n < |s| ==> !p(s[n]))
    ensures Run(p, s) == n
  {
  }

  predicate Has(s: string, i: nat, c: char) {
    i < |s| && s[i] == c
  }

  predicate DigitAt(s: string, i: nat) {
    i < |s| && IsDigit(s[i])
  }

  /** The length of the insignificant text at the front. */
  function Skip(s: string): (n: nat)
    ensures n <= |s|
    decreases |s|
  {
    if s == [] then 0
    else if IsBlank(s[0]) then 1 + Skip(s[1..])
    else if s[0] == '#' then
      var n := 1 + Run(InComment, s[1..]);
      n + Skip(s[n..])
    else 0
  }

  // ----- numbers -----

  function LexNumber(s: string): Lexed {
    LexInteger(s, if Has(s, 0, '-') then 1 else 0)
  }

  /** From after the sign on. */
  function LexInteger(s: string, a: nat): Lexed {
    if Has(s, a, '0') then (if DigitAt(s, a + 1) then Bad(InvalidNumber, a + 2) else LexFraction(s, a + 1))
    else if DigitAt(s, a) then LexFraction(s, a + Run(IsDigit, s[a..]))
    else Bad(InvalidNumber, a + 1)
  }

  function LexFraction(s: string, e: nat): Lexed
    requires e <= |s|
  {
    if Has(s, e, '.') then
      var n := Run(IsDigit, s[e+1..]);
      if n == 0 then Bad(InvalidNumber, e + 1) else LexExponent(s, e + 1 + n, true)
    else LexExponent(s, e, false)
  }

  predicate HasExponent(s: string, e: nat) {
    Has(s, e, 'e') || Has(s, e, 'E')
  }

  function AfterSign(s: string, e: nat): (f: nat)
    requires e <= |s|
    ensures e <= f <= |s|
  {
    if Has(s, e, '+') || Has(s, e, '-') then e + 1 else e
  }

  function LexExponent(s: string, e: nat, isFloat: bool): Lexed
    requires e <= |s|
  {
    if HasExponent(s, e) then
      var f := AfterSign(s, e + 1);
      var n := Run(IsDigit, s[f..]);
      if n == 0 then Bad(InvalidNumber, f) else LexNumberEnd(s, f + n, true)
    else LexNumberEnd(s, e, isFloat)
  }

  function LexNumberEnd(s: string, e: nat, isFloat: bool): Lexed
    requires e <= |s|
  {
    if e < |s| && (IsNameStart(s[e]) || s[e] == '.') then Bad(InvalidNumber, e + 1)
    else Lexed(if isFloat then FloatValue else IntValue, e)
  }

  // ----- strings -----

  predicate TripleQuote(s: string, i: nat) {
    Has(s, i, '"') && Has(s, i + 1, '"') && Has(s, i + 2, '"')
  }

  function LexBlock(s: string, p: nat): Lexed
    requires p <= |s|
    decreases |s| - p
  {
    if p == |s| then Bad(InvalidBlockString, p)
    else if s[p] == '\\' && TripleQuote(s, p + 1) then LexBlock(s, p + 4)
    else if TripleQuote(s, p) then Lexed(BlockStringValue, p + 3)
    else LexBlock(s, p + 1)
  }

  predicate IsEscape(c: char) {
    c == '"' || c == '\\' || c == '/' || c == 'b' || c == 'f' || c == 'n' || c == 'r' || c == 't'
  }

  function LexQuoted(s: string, p: nat): Lexed
    requires p <= |s|
    decreases |s| - p
  {
    if p == |s| then Bad(InvalidString, p)
    else if s[p] == '"' then Lexed(StringValue, p + 1)
    else if s[p] == '\n' || s[p] == '\r' then Bad(InvalidString, p)
    else if s[p] == '\\' then
      if p + 1 == |s| then Bad(InvalidEscape, p)
      else if IsEscape(s[p+1]) then LexQuoted(s, p + 2)
      else if s[p+1] == 'u' then
        var bad := BadHex(s, p, 2);
        if bad < 6 then Bad(InvalidEscape, if p + bad < |s| then p + bad else p) else LexQuoted(s, p + 6)
      else Bad(InvalidEscape, p + 2)
    else LexQuoted(s, p + 1)
  }

  /** The first of the offsets `i` to 5 after `p` without a hexadecimal digit, or 6. */
  function BadHex(s: string, p: nat, i: nat): (r: nat)
    requires i <= 6
    ensures i <= r <= 6
    ensures forall k :: p + i <= k < p + r ==> HexAt(s, k)
    ensures r < 6 ==> !HexAt(s, p + r)
    decreases 6 - i
  {
    if i == 6 || !HexAt(s, p + i) then i else BadHex(s, p, i + 1)
  }

  predicate HexAt(s: string, k: nat) {
    k < |s| && IsHex(s[k])
  }

  function LexString(s: string): Lexed
    requires s != []
  {
    if Has(s, 1, '"') && Has(s, 2, '"') then LexBlock(s, 3) else LexQuoted(s, 1)
  }

  // ----- tokens -----

  function Punctuator(c: char): Option<TokenKind> {
    match c
    case '!' => Some(Bang)
    case '$' => Some(Dollar)
    case '&' => Some(Amp)
    case '(' => Some(LParen)
    case ')' => Some(RParen)
    case ':' => Some(Colon)
    case '=' => Some(Eq)
    case '@' => Some(At)
    case '[' => Some(LBracket)
    case ']' => Some(RBracket)
    case '{' => Some(LBrace)
    case '|' => Some(Pipe)
    case '}' => Some(RBrace)
    case _ => None
  }

  /** The token at the front of `s`. */
  function Lex(s: string): Lexed
    requires s != []
  {
    var c := s[0];
    if Punctuator(c).Some? then Lexed(Punctuator(c).value, 1)
    else if c == '.' then (if Has(s, 1, '.') && Has(s, 2, '.') then Lexed(Spread, 3) else Bad(UnexpectedChar, 1))
    else if IsNameStart(c) then Lexed(NameToken, Run(IsNameChar, s))
    else if c == '-' || IsDigit(c) then LexNumber(s)
    else if c == '"' then LexString(s)
    else Bad(UnexpectedChar, 1)
  }

  /** A token takes some of the text. */
  lemma {:induction false} LexLength(s: string)
    requires s != []
    ensures Lex(s).Lexed? ==> 0 < Lex(s).len <= |s| && Lex(s).kind != Eof
  {
    hide LexNumber, LexBlock, LexQuoted, Run, Punctuator;
    NumberLength(s);
    PunctuatorKind(s[0]);
    if Has(s, 1, '"') && Has(s, 2, '"') {
      BlockLength(s, 3);
    } else {
      QuotedLength(s, 1);
    }
    if IsNameStart(s[0]) {
      assert Run(IsNameChar, s) < |s| ==> !IsNameChar(s[Run(IsNameChar, s)]);
    }
  }

  lemma {:induction false} PunctuatorKind(c: char)
    ensures Punctuator(c).Some? ==> Punctuator(c).value != Eof
  {
  }

  lemma {:induction false} ExponentLength(s: string, e: nat, isFloat: bool)
    requires e <= |s|
    ensures var l := LexExponent(s, e, isFloat); l.Lexed? ==> e <= l.len <= |s| && l.kind in {IntValue, FloatValue}
  {
    hide Run;
  }

  lemma {:induction false} FractionLength(s: string, e: nat)
    requires e <= |s|
    ensures var l := LexFraction(s, e); l.Lexed? ==> e <= l.len <= |s| && l.kind in {IntValue, FloatValue}
  {
    hide Run, LexExponent;
    ExponentLength(s, e, false);
    if Has(s, e, '.') {
      ExponentLength(s, e + 1 + Run(IsDigit, s[e+1..]), true);
    }
  }

  lemma {:induction false} NumberLength(s: string)
    ensures var l := LexNumber(s); l.Lexed? ==> 0 < l.len <= |s| && l.kind in {IntValue, FloatValue}
  {
    hide Run, LexFraction;
    var a := if Has(s, 0, '-') then 1 else 0;
    if Has(s, a, '0') {
      FractionLength(s, a + 1);
    } else if a < |s| && IsDigit(s[a]) {
      FractionLength(s, a + Run(IsDigit, s[a..]));
    }
  }

  lemma {:induction false} BlockLength(s: string, p: nat)
    requires p <= |s|
    ensures LexBlock(s, p).Lexed? ==> p + 3 <= LexBlock(s, p).len <= |s| && LexBlock(s, p).kind == BlockStringValue
    decreases |s| - p
  {
    if p == |s| {
    } else if s[p] == '\\' && TripleQuote(s, p + 1) {
      BlockLength(s, p + 4);
    } else if !TripleQuote(s, p) {
      BlockLength(s, p + 1);
    }
  }

  lemma {:induction false} QuotedLength(s: string, p: nat)
    requires p <= |s|
    ensures LexQuoted(s, p).Lexed? ==> p < LexQuoted(s, p).len <= |s| && LexQuoted(s, p).kind == StringValue
    decreases |s| - p
  {
    if p == |s| || s[p] == '"' || s[p] == '\n' || s[p] == '\r' {
    } else if s[p] == '\\' {
      if p + 1 < |s| && IsEscape(s[p+1]) {
        QuotedLength(s, p + 2);
      } else if p + 1 < |s| && s[p+1] == 'u' && BadHex(s, p, 2) == 6 {
        QuotedLength(s, p + 6);
      }
    } else {
      QuotedLength(s, p + 1);
    }
  }

  // ----- what a token depends on -----

  /** Text that cannot continue a token. */
  predicate Separates(t: string) {
    t == [] || IsBlank(t[0]) || t[0] == '#'
  }

  /** A token is the same when it is cut out and something else follows, after a separator. */
  lemma {:induction false} LexIsLocal(s: string, t: string)
    requires s != [] && Lex(s).Lexed? && Separates(t)
    ensures Lex(s).len <= |s| && s[..Lex(s).len] != [] && Lex(s[..Lex(s).len] + t) == Lex(s)
  {
    LexLength(s);
    var n := Lex(s).len;
    var u := s[..n] + t;
    assert CutAt(s, u, n);
    hide LexNumber, LexBlock, LexQuoted;
    if IsNameStart(s[0]) {
      RunIs(IsNameChar, u, n);
    } else if s[0] == '-' || IsDigit(s[0]) {
      NumberIsLocal(s, u);
    } else if s[0] == '"' {
      if Has(s, 1, '"') && Has(s, 2, '"') {
        BlockLength(s, 3);
        BlockIsLocal(s, u, 3);
      } else {
        QuotedLength(s, 1);
        QuotedIsLocal(s, u, 1);
      }
    }
  }

  ghost predicate Agree(s: string, u: string, n: nat) {
    n <= |s| && n <= |u| && forall i :: 0 <= i < n ==> u[i] == s[i]
  }

  lemma {:induction false} BlockIsLocal(s: string, u: string, p: nat)
    requires p <= |s| && LexBlock(s, p).Lexed? && Agree(s, u, LexBlock(s, p).len) && p <= LexBlock(s, p).len
    ensures LexBlock(u, p) == LexBlock(s, p)
    decreases |s| - p
  {
    BlockLength(s, p);
    if s[p] == '\\' && TripleQuote(s, p + 1) {
      BlockLength(s, p + 4);
      BlockIsLocal(s, u, p + 4);
    } else if !TripleQuote(s, p) {
      BlockLength(s, p + 1);
      BlockIsLocal(s, u, p + 1);
    }
  }

  lemma {:induction false} QuotedIsLocal(s: string, u: string, p: nat)
    requires p <= |s| && LexQuoted(s, p).Lexed? && Agree(s, u, LexQuoted(s, p).len) && p <= LexQuoted(s, p).len
    ensures LexQuoted(u, p) == LexQuoted(s, p)
    decreases |s| - p
  {
    QuotedLength(s, p);
    if s[p] == '"' {
    } else if s[p] == '\\' {
      if IsEscape(s[p+1]) {
        QuotedLength(s, p + 2);
        QuotedIsLocal(s, u, p + 2);
      } else {
        QuotedLength(s, p + 6);
        QuotedIsLocal(s, u, p + 6);
      }
    } else {
      QuotedLength(s, p + 1);
      QuotedIsLocal(s, u, p + 1);
    }
  }

  /** `u` continues the first `n` characters of `s` with something that does not belong to a number. */
  ghost predicate CutAt(s: string, u: string, n: nat) {
    Agree(s, u, n) && (n < |u| ==> IsBlank(u[n]) || u[n] == '#')
  }

  lemma {:induction false} DigitsAreLocal(s: string, u: string, f: nat, n: nat)
    requires CutAt(s, u, n) && f <= n <= |s| && f + Run(IsDigit, s[f..]) <= n
    ensures f <= |u| && Run(IsDigit, u[f..]) == Run(IsDigit, s[f..])
  {
    var k := Run(IsDigit, s[f..]);
    assert forall i :: 0 <= i < k ==> u[f..][i] == s[f..][i];
    assert f + k < |u| ==> u[f..][k] == u[f+k];
    assert f + k < |s| ==> s[f..][k] == s[f+k];
    RunIs(IsDigit, u[f..], k);
  }

  lemma {:induction false} NumberEndIsLocal(s: string, u: string, e: nat, isFloat: bool)
    requires e <= |s| && LexNumberEnd(s, e, isFloat).Lexed? && CutAt(s, u, e)
    ensures LexNumberEnd(u, e, isFloat) == LexNumberEnd(s, e, isFloat)
  {
  }

  lemma {:induction false} WrittenExponentIsLocal(s: string, u: string, e: nat, f: nat, n: nat)
    requires HasExponent(s, e) && f == AfterSign(s, e + 1) && f < n <= |s| && n == f + Run(IsDigit, s[f..])
    requires LexNumberEnd(s, n, true).Lexed? && CutAt(s, u, n)
    ensures HasExponent(u, e) && AfterSign(u, e + 1) == f && f <= |u| && n == f + Run(IsDigit, u[f..])
    ensures LexNumberEnd(u, n, true) == LexNumberEnd(s, n, true)
  {
    hide LexNumberEnd, Run;
    AfterSignIsLocal(s, u, e, n);
    DigitsAreLocal(s, u, f, n);
    NumberEndIsLocal(s, u, n, true);
  }

  lemma {:induction false} ExponentIsLocal(s: string, u: string, e: nat, isFloat: bool)
    requires e <= |s| && LexExponent(s, e, isFloat).Lexed? && CutAt(s, u, LexExponent(s, e, isFloat).len)
    ensures e <= |u| && LexExponent(u, e, isFloat) == LexExponent(s, e, isFloat)
  {
    hide LexExponent, LexNumberEnd, Run, AfterSign;
    ExponentUnfolds(s, e, isFloat);
    if HasExponent(s, e) {
      var f := AfterSign(s, e + 1);
      var n := f + Run(IsDigit, s[f..]);
      NumberEndLength(s, n, true);
      WrittenExponentIsLocal(s, u, e, f, n);
      ExponentUnfolds(u, e, isFloat);
    } else {
      NumberEndLength(s, e, isFloat);
      NumberEndIsLocal(s, u, e, isFloat);
      assert !HasExponent(u, e);
      ExponentUnfolds(u, e, isFloat);
    }
  }

  lemma {:induction false} NumberEndLength(s: string, e: nat, isFloat: bool)
    requires e <= |s|
    ensures LexNumberEnd(s, e, isFloat).Lexed? ==> LexNumberEnd(s, e, isFloat).len == e
  {
  }

  lemma {:induction false} ExponentUnfolds(s: string, e: nat, isFloat: bool)
    requires e <= |s|
    ensures !HasExponent(s, e) ==> LexExponent(s, e, isFloat) == LexNumberEnd(s, e, isFloat)
    ensures HasExponent(s, e) ==>
      var f := AfterSign(s, e + 1);
      var n := Run(IsDigit, s[f..]);
      LexExponent(s, e, isFloat) == if n == 0 then Bad(InvalidNumber, f) else LexNumberEnd(s, f + n, true)
  {
    hide Run, LexNumberEnd, AfterSign;
  }

  lemma {:induction false} AfterSignIsLocal(s: string, u: string, e: nat, n: nat)
    requires HasExponent(s, e) && CutAt(s, u, n) && AfterSign(s, e + 1) < n
    ensures HasExponent(u, e) && AfterSign(u, e + 1) == AfterSign(s, e + 1)
  {
  }

  lemma {:induction false} FractionIsLocal(s: string, u: string, e: nat)
    requires e <= |s| && LexFraction(s, e).Lexed? && CutAt(s, u, LexFraction(s, e).len)
    ensures e <= |u| && LexFraction(u, e) == LexFraction(s, e)
  {
    hide LexExponent;
    var n := LexFraction(s, e).len;
    FractionLength(s, e);
    if Has(s, e, '.') {
      var k := Run(IsDigit, s[e+1..]);
      ExponentLength(s, e + 1 + k, true);
      DigitsAreLocal(s, u, e + 1, n);
      ExponentIsLocal(s, u, e + 1 + k, true);
    } else {
      ExponentIsLocal(s, u, e, false);
    }
    hide Run;
  }

  lemma {:induction false} NumberIsLocal(s: string, u: string)
    requires LexNumber(s).Lexed? && CutAt(s, u, LexNumber(s).len)
    ensures LexNumber(u) == LexNumber(s)
  {
    hide LexFraction;
    var n := LexNumber(s).len;
    NumberLength(s);
    var a := if Has(s, 0, '-') then 1 else 0;
    if Has(s, a, '0') {
      FractionLength(s, a + 1);
      FractionIsLocal(s, u, a + 1);
    } else {
      var k := Run(IsDigit, s[a..]);
      assert s[a..][0] == s[a];
      FractionLength(s, a + k);
      DigitsAreLocal(s, u, a, n);
      FractionIsLocal(s, u, a + k);
    }
    hide Run;
  }
}
