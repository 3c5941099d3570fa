/** The tokens of executable documents as texts, written down without the lexer (sections 2.1.6 to 2.1.9
    and 2.9 of GraphQL October 2021, with the strings that magna-gqlmin `lex.rs` accepts), and that the
    lexer finds exactly them. */
module LexicalGrammar {
  import opened Basics
  import opened Syntax
  import opened Lexing

  // ----- characters -----

  predicate Digit(c: char) { '0' <= c <= '9' }

  predicate Letter(c: char) { c == '_' || 'A' <= c <= 'Z' || 'a' <= c <= 'z' }

  predicate HexDigit(c: char) { '0' <= c <= '9' || 'a' <= c <= 'f' || 'A' <= c <= 'F' }

  predicate Blank(c: char) { c == ' ' || c == '\t' || c == '\r' || c == '\n' || c == ',' }

  predicate LineEnd(c: char) { c == '\n' || c == '\r' }

  // ----- names and numbers -----

  predicate Name(t: string) {
    t != "" && Letter(t[0]) && forall i :: 0 <= i < |t| ==> Letter(t[i]) || Digit(t[i])
  }

  predicate DigitText(t: string) {
    t != "" && forall i :: 0 <= i < |t| ==> Digit(t[i])
  }

  function Unsigned(t: string): string {
    if t != "" && t[0] == '-' then t[1..] else t
  }

  /** An optional sign, and `0` or digits that do not begin with `0`. */
  predicate Integer(t: string) {
    DigitText(Unsigned(t)) && (Unsigned(t)[0] == '0' ==> |Unsigned(t)| == 1)
  }

  predicate Fraction(t: string) {
    t != "" && t[0] == '.' && DigitText(t[1..])
  }

  function AfterE(t: string): string
    requires t != ""
  {
    if |t| > 1 && (t[1] == '+' || t[1] == '-') then t[2..] else t[1..]
  }

  predicate Exponent(t: string) {
    t != "" && (t[0] == 'e' || t[0] == 'E') && DigitText(AfterE(t))
  }

  /** An integer up to `i`, a fraction or nothing up to `j`, and an exponent or nothing. */
  predicate Parts(t: string, i: nat, j: nat) {
    && i <= j <= |t| && Integer(t[..i])
    && (i == j || Fraction(t[i..j])) && (j == |t| || Exponent(t[j..]))
  }

  /** An integer with a fraction, an exponent, or both. */
  ghost predicate Floating(t: string) {
    exists i, j :: 0 <= i <= j && i < |t| && Parts(t, i, j)
  }

  // ----- strings -----

  predicate Escapable(c: char) {
    c == '"' || c == '\\' || c == '/' || c == 'b' || c == 'f' || c == 'n' || c == 'r' || c == 't'
  }

  /** Characters, simple escapes and `\u` with four hexadecimal digits. */
  predicate StringBody(t: string)
    decreases |t|
  {
    || t == ""
    || (t[0] != '"' && t[0] != '\\' && t[0] != '\n' && t[0] != '\r' && StringBody(t[1..]))
    || (t[0] == '\\' && |t| >= 2 && Escapable(t[1]) && StringBody(t[2..]))
    || (t[0] == '\\' && |t| >= 6 && t[1] == 'u' && FourHex(t[2..6]) && StringBody(t[6..]))
  }

  predicate FourHex(t: string) {
    |t| == 4 && HexDigit(t[0]) && HexDigit(t[1]) && HexDigit(t[2]) && HexDigit(t[3])
  }

  predicate QuotedText(t: string) {
    |t| >= 2 && t[0] == '"' && t[|t|-1] == '"' && StringBody(t[1..|t|-1])
  }

  predicate Begins(t: string, start: string) {
    start <= t
  }

  /** The rest of a block string: up to the first three quotes that are not escaped. */
  predicate BlockRest(t: string)
    decreases |t|
  {
    || t == "\"\"\""
    || (Begins(t, "\\\"\"\"") && BlockRest(t[4..]))
    || (t != "" && !Begins(t, "\"\"\"") && !Begins(t, "\\\"\"\"") && BlockRest(t[1..]))
  }

  predicate BlockText(t: string) {
    Begins(t, "\"\"\"") && BlockRest(t[3..])
  }

  // ----- tokens -----

  ghost predicate TokenText(kind: TokenKind, t: string) {
    match kind
    case Bang => t == "!"
    case Dollar => t == "$"
    case Amp => t == "&"
    case LParen => t == "("
    case RParen => t == ")"
    case Spread => t == "..."
    case Colon => t == ":"
    case Eq => t == "="
    case At => t == "@"
    case LBracket => t == "["
    case RBracket => t == "]"
    case LBrace => t == "{"
    case Pipe => t == "|"
    case RBrace => t == "}"
    case NameToken => Name(t)
    case IntValue => Integer(t)
    case FloatValue => Floating(t)
    case StringValue => QuotedText(t)
    case BlockStringValue => BlockText(t)
    case Eof => false
  }

  /** What may stand right after a token: a name ends where its characters end, a number is not followed by
      a digit, a letter or a dot, and `""` not by a quote. */
  predicate MayFollow(kind: TokenKind, t: string, rest: string) {
    rest == "" ||
    match kind
    case NameToken => !Letter(rest[0]) && !Digit(rest[0])
    case IntValue => !Letter(rest[0]) && !Digit(rest[0]) && rest[0] != '.'
    case FloatValue => !Letter(rest[0]) && !Digit(rest[0]) && rest[0] != '.'
    case StringValue => |t| > 2 || rest[0] != '"'
    case _ => true
  }

  // ----- numbers -----

  /** The lexer's runs of digits are the grammar's. */
  lemma {:induction false} RunOfDigits(s: string, f: nat, n: nat)
    requires f <= n <= |s| && (forall i :: f <= i < n ==> Digit(s[i])) && (n < |s| ==> !Digit(s[n]))
    ensures Run(IsDigit, s[f..]) == n - f
  {
    var u := s[f..];
    assert forall i :: 0 <= i < |u| ==> u[i] == s[f + i];
    RunIs(IsDigit, u, n - f);
  }

  lemma {:induction false} DigitsOfRun(s: string, f: nat)
    requires f <= |s|
    ensures var n := f + Run(IsDigit, s[f..]);
      n <= |s| && (n > f ==> DigitText(s[f..n])) && (n < |s| ==> !Digit(s[n]))
  {
    var n := f + Run(IsDigit, s[f..]);
    assert forall i :: 0 <= i < n - f ==> s[f..n][i] == s[f..][i];
    assert n < |s| ==> s[f..][n - f] == s[n];
  }

  /** Where the integer part ends. */
  lemma {:induction false} IntegerEnds(s: string) returns (e: nat)
    requires LexNumber(s).Lexed?
    ensures 0 < e <= |s| && Integer(s[..e]) && LexNumber(s) == LexFraction(s, e) && (e < |s| ==> !Digit(s[e]))
  {
    hide Run, LexFraction;
    var a := if Has(s, 0, '-') then 1 else 0;
    if Has(s, a, '0') {
      e := a + 1;
      assert Unsigned(s[..e]) == "0";
    } else {
      e := a + Run(IsDigit, s[a..]);
      DigitsOfRun(s, a);
      assert s[a..][0] == s[a];
      assert Unsigned(s[..e]) == s[a..e];
    }
  }

  lemma {:induction false} IntegerReads(s: string, e: nat)
    requires e <= |s| && Integer(s[..e]) && (e < |s| ==> !Digit(s[e]))
    ensures LexNumber(s) == LexFraction(s, e)
  {
    hide Run, LexFraction;
    var t := s[..e];
    var a := if Has(s, 0, '-') then 1 else 0;
    assert t != "" && t[0] == s[0];
    assert Unsigned(t) == s[a..e];
    forall i | a <= i < e ensures Digit(s[i]) {
      assert s[a..e][i - a] == s[i];
    }
    assert s[a..e][0] == s[a];
    RunOfDigits(s, a, e);
  }

  lemma {:induction false} FractionEnds(s: string, e: nat) returns (j: nat)
    requires e <= |s| && LexFraction(s, e).Lexed? && (e < |s| ==> !Digit(s[e]))
    ensures e <= j <= |s| && (j == e || Fraction(s[e..j])) && (j < |s| ==> !Digit(s[j]))
    ensures LexFraction(s, e) == LexExponent(s, j, j > e)
  {
    hide Run, LexExponent;
    j := e;
    if Has(s, e, '.') {
      j := e + 1 + Run(IsDigit, s[e+1..]);
      DigitsOfRun(s, e + 1);
      assert s[e..j][1..] == s[e+1..j] && s[e..j][0] == s[e];
    }
  }

  lemma {:induction false} FractionReads(s: string, e: nat, j: nat)
    requires e <= j <= |s| && (j < |s| ==> !Digit(s[j]))
    requires if e == j then !Has(s, e, '.') else Fraction(s[e..j])
    ensures LexFraction(s, e) == LexExponent(s, j, j > e)
  {
    hide Run, LexExponent;
    if e < j {
      assert s[e..j][0] == s[e] && s[e..j][1..] == s[e+1..j];
      forall i | e + 1 <= i < j ensures Digit(s[i]) {
        assert s[e+1..j][i - e - 1] == s[i];
      }
      RunOfDigits(s, e + 1, j);
    }
  }

  lemma {:induction false} ExponentEnds(s: string, j: nat, isFloat: bool) returns (n: nat)
    requires j <= |s| && LexExponent(s, j, isFloat).Lexed? && (j < |s| ==> !Digit(s[j]))
    ensures j <= n <= |s| && (n == j || Exponent(s[j..n])) && (n < |s| ==> !Digit(s[n]))
    ensures LexExponent(s, j, isFloat) == LexNumberEnd(s, n, isFloat || n > j)
  {
    hide Run, LexNumberEnd;
    n := j;
    if HasExponent(s, j) {
      var f := AfterSign(s, j + 1);
      n := f + Run(IsDigit, s[f..]);
      DigitsOfRun(s, f);
      var t := s[j..n];
      assert t[0] == s[j] && t[1] == s[j+1];
      assert AfterE(t) == s[f..n];
    }
  }

  lemma {:induction false} ExponentReads(s: string, j: nat, n: nat, isFloat: bool)
    requires j <= n <= |s| && (n < |s| ==> !Digit(s[n]))
    requires if j == n then !HasExponent(s, j) else Exponent(s[j..n])
    ensures LexExponent(s, j, isFloat) == LexNumberEnd(s, n, isFloat || n > j)
  {
    hide Run, LexNumberEnd;
    if j < n {
      var t := s[j..n];
      assert t[0] == s[j];
      var f := AfterSign(s, j + 1);
      assert |t| > 1 ==> t[1] == s[j+1];
      assert AfterE(t) == s[f..n];
      forall i | f <= i < n ensures Digit(s[i]) {
        assert s[f..n][i - f] == s[i];
      }
      RunOfDigits(s, f, n);
    }
  }

  ghost predicate Ends(kind: TokenKind, s: string, n: nat) {
    0 < n <= |s| && TokenText(kind, s[..n]) && MayFollow(kind, s[..n], s[n..])
  }

  lemma {:induction false} PartsOf(s: string, e: nat, j: nat, n: nat)
    requires e <= j <= n <= |s| && Integer(s[..e]) && (j == e || Fraction(s[e..j])) && (n == j || Exponent(s[j..n]))
    ensures Parts(s[..n], e, j)
  {
    hide Integer, Fraction, Exponent;
    var t := s[..n];
    assert t[..e] == s[..e] && t[e..j] == s[e..j] && t[j..] == s[j..n];
  }

  lemma {:induction false} NumberEnds(s: string, n: nat, isFloat: bool)
    requires n <= |s| && LexNumberEnd(s, n, isFloat).Lexed? && (n < |s| ==> !Digit(s[n]))
    ensures LexNumberEnd(s, n, isFloat) == Lexed(if isFloat then FloatValue else IntValue, n)
    ensures MayFollow(IntValue, s[..n], s[n..]) && MayFollow(FloatValue, s[..n], s[n..])
  {
    assert n < |s| ==> s[n..][0] == s[n];
  }

  /** What the lexer takes for a number is one. */
  lemma {:induction false} NumberSound(s: string)
    requires LexNumber(s).Lexed?
    ensures LexNumber(s).kind in {IntValue, FloatValue} && Ends(LexNumber(s).kind, s, LexNumber(s).len)
  {
    hide LexNumber, LexFraction, LexExponent, LexNumberEnd, Integer, Fraction, Exponent, Parts, MayFollow;
    var e := IntegerEnds(s);
    var j := FractionEnds(s, e);
    var n := ExponentEnds(s, j, j > e);
    PartsOf(s, e, j, n);
    NumberEnds(s, n, j > e || n > j);
  }

  /** Every number that may end where it ends is taken. */
  lemma {:induction false} NumberComplete(s: string, n: nat, i: nat, j: nat)
    requires n <= |s| && Parts(s[..n], i, j) && MayFollow(IntValue, s[..n], s[n..])
    ensures LexNumber(s) == Lexed(if i < n then FloatValue else IntValue, n)
  {
    var t := s[..n];
    assert t[..i] == s[..i] && t[i..j] == s[i..j] && t[j..] == s[j..n];
    assert n < |s| ==> s[n..][0] == s[n];
    assert i < j ==> s[i..j][0] == s[i];
    assert j < n ==> s[j..n][0] == s[j];
    assert i < |s| ==> !Digit(s[i]);
    assert j < |s| ==> !Digit(s[j]);
    hide LexNumber, LexFraction, LexExponent, Integer;
    IntegerReads(s, i);
    FractionReads(s, i, j);
    ExponentReads(s, j, n, j > i);
  }

  lemma {:induction false} NumberIff(s: string, kind: TokenKind, n: nat)
    requires kind in {IntValue, FloatValue}
    ensures LexNumber(s) == Lexed(kind, n) <==> Ends(kind, s, n)
  {
    hide LexNumber, Parts;
    if LexNumber(s) == Lexed(kind, n) {
      NumberSound(s);
    }
    if Ends(kind, s, n) {
      if kind == IntValue {
        WholeParts(s[..n]);
        NumberComplete(s, n, n, n);
      } else {
        var i, j :| 0 <= i <= j && i < n && Parts(s[..n], i, j);
        NumberComplete(s, n, i, j);
      }
    }
  }

  lemma {:induction false} WholeParts(t: string)
    requires Integer(t)
    ensures Parts(t, |t|, |t|)
  {
    assert t[..|t|] == t;
  }

  // ----- names -----

  lemma {:induction false} NameIff(s: string, n: nat)
    requires s != "" && Letter(s[0])
    ensures Run(IsNameChar, s) == n <==> Ends(NameToken, s, n)
  {
    var r := Run(IsNameChar, s);
    assert r < |s| ==> s[r..][0] == s[r];
    assert forall i :: 0 <= i < r ==> s[..r][i] == s[i];
    if Ends(NameToken, s, n) {
      assert forall i :: 0 <= i < n ==> s[..n][i] == s[i];
      assert n < |s| ==> s[n..][0] == s[n];
      RunIs(IsNameChar, s, n);
    }
  }

  // ----- strings -----

  lemma {:induction false} QuotedIff(s: string, p: nat, n: nat)
    requires p <= |s|
    ensures LexQuoted(s, p) == Lexed(StringValue, n) <==> p < n <= |s| && s[n-1] == '"' && StringBody(s[p..n-1])
    decreases |s| - p, 2
  {
    if p == |s| || s[p] == '\n' || s[p] == '\r' {
      assert p < n - 1 <= |s| ==> s[p..n-1][0] == s[p];
    } else if s[p] == '"' {
      assert p < n - 1 <= |s| ==> s[p..n-1][0] == s[p];
      assert n == p + 1 ==> s[p..n-1] == "";
    } else if s[p] == '\\' {
      EscapeIff(s, p, n);
    } else {
      QuotedIff(s, p + 1, n);
      if p + 1 < n <= |s| {
        var t := s[p..n-1];
        assert t[0] == s[p] && t[1..] == s[p+1..n-1];
      }
    }
  }

  lemma {:induction false} EscapeIff(s: string, p: nat, n: nat)
    requires p < |s| && s[p] == '\\'
    ensures LexQuoted(s, p) == Lexed(StringValue, n) <==> p < n <= |s| && s[n-1] == '"' && StringBody(s[p..n-1])
    decreases |s| - p, 1
  {
    if p + 1 < |s| && IsEscape(s[p+1]) {
      QuotedIff(s, p + 2, n);
      hide LexQuoted;
      LexQuotedEscape(s, p);
      if p + 2 < n <= |s| {
        var t := s[p..n-1];
        assert t[0] == s[p] && t[1] == s[p+1] && t[2..] == s[p+2..n-1];
      } else if p < n - 1 <= |s| - 1 {
        assert |s[p..n-1]| == 1;
      }
    } else if p + 1 < |s| && s[p+1] == 'u' && BadHex(s, p, 2) == 6 {
      UnicodeIff(s, p, n);
    } else {
      hide LexQuoted;
      BadEscape(s, p);
      if p < n - 1 <= |s| - 1 {
        NotEscaped(s, p, n);
      }
    }
  }

  lemma {:induction false} LexQuotedEscape(s: string, p: nat)
    requires p + 1 < |s| && s[p] == '\\' && IsEscape(s[p+1])
    ensures LexQuoted(s, p) == LexQuoted(s, p + 2) && Escapable(s[p+1])
  {
  }

  lemma {:induction false} BadEscape(s: string, p: nat)
    requires p < |s| && s[p] == '\\'
    requires p + 1 < |s| ==> !IsEscape(s[p+1]) && (s[p+1] == 'u' ==> BadHex(s, p, 2) < 6)
    ensures LexQuoted(s, p).Bad?
  {
  }

  lemma {:induction false} NotEscaped(s: string, p: nat, n: nat)
    requires p < n - 1 <= |s| - 1 && s[p] == '\\'
    requires !IsEscape(s[p+1]) && (s[p+1] == 'u' ==> BadHex(s, p, 2) < 6)
    ensures !StringBody(s[p..n-1])
  {
    var t := s[p..n-1];
    assert t[0] == s[p];
    assert |t| >= 2 ==> t[1] == s[p+1];
    FourHexIff(s, p);
    if |t| >= 6 {
      SubText(s, p, n - 1, 2, 6);
    }
  }

  lemma {:induction false} SubText(s: string, p: nat, q: nat, i: nat, j: nat)
    requires p <= q <= |s| && i <= j <= q - p
    ensures s[p..q][i..j] == s[p+i..p+j]
  {
    var t := s[p..q];
    assert forall k :: i <= k < j ==> t[k] == s[p+k];
    assert |t[i..j]| == |s[p+i..p+j]|;
    assert forall k :: 0 <= k < j - i ==> t[i..j][k] == t[i+k] && s[p+i..p+j][k] == s[p+i+k];
  }

  lemma {:induction false} FourHexIff(s: string, p: nat)
    ensures BadHex(s, p, 2) == 6 <==> p + 6 <= |s| && FourHex(s[p+2..p+6])
  {
    assert BadHex(s, p, 6) == 6;
    if p + 6 <= |s| {
      var h := s[p+2..p+6];
      assert h[0] == s[p+2] && h[1] == s[p+3] && h[2] == s[p+4] && h[3] == s[p+5];
      assert HexAt(s, p + 2) == HexDigit(h[0]) && HexAt(s, p + 3) == HexDigit(h[1]);
      assert HexAt(s, p + 4) == HexDigit(h[2]) && HexAt(s, p + 5) == HexDigit(h[3]);
    }
    var bad := BadHex(s, p, 2);
    assert bad == 6 ==> HexAt(s, p + 5);
  }

  lemma {:induction false} UnicodeIff(s: string, p: nat, n: nat)
    requires p + 1 < |s| && s[p] == '\\' && s[p+1] == 'u' && BadHex(s, p, 2) == 6
    ensures LexQuoted(s, p) == Lexed(StringValue, n) <==> p < n <= |s| && s[n-1] == '"' && StringBody(s[p..n-1])
    decreases |s| - p, 0
  {
    assert HexAt(s, p + 2) && HexAt(s, p + 3) && HexAt(s, p + 4) && HexAt(s, p + 5);
    QuotedIff(s, p + 6, n);
    assert LexQuoted(s, p) == LexQuoted(s, p + 6);
    hide LexQuoted, BadHex;
    if p + 6 < n <= |s| {
      var t := s[p..n-1];
      assert t[0] == s[p] && t[1] == s[p+1] && t[6..] == s[p+6..n-1];
      assert t[2..6] == s[p+2..p+6];
      assert FourHex(t[2..6]);
    } else if p < n <= |s| && s[n-1] == '"' {
      ShortUnicode(s, p, n);
    }
  }

  lemma {:induction false} ShortUnicode(s: string, p: nat, n: nat)
    requires p < n <= |s| && n <= p + 6 && p + 1 < |s| && s[p] == '\\' && s[p+1] == 'u' && s[n-1] == '"'
    ensures !StringBody(s[p..n-1])
  {
    var t := s[p..n-1];
    assert |t| > 0 ==> t[0] == s[p];
    assert |t| > 1 ==> t[1] == s[p+1];
  }

  // ----- block strings -----

  lemma {:induction false} BeginsAt(s: string, p: nat, n: nat)
    requires p <= n <= |s|
    ensures n >= p + 3 ==> (Begins(s[p..n], "\"\"\"") <==> TripleQuote(s, p))
    ensures n >= p + 4 ==> (Begins(s[p..n], "\\\"\"\"") <==> s[p] == '\\' && TripleQuote(s, p + 1))
    ensures n < p + 3 ==> !Begins(s[p..n], "\"\"\"")
    ensures n < p + 4 ==> !Begins(s[p..n], "\\\"\"\"")
  {
    var t := s[p..n];
    assert forall i :: 0 <= i < |t| ==> t[i] == s[p+i];
    if n >= p + 3 {
      assert t[..3] == [s[p], s[p+1], s[p+2]];
    }
    if n >= p + 4 {
      assert t[..4] == [s[p], s[p+1], s[p+2], s[p+3]];
    }
  }

  lemma {:induction false} ShortRest(t: string)
    requires |t| < 3
    ensures !BlockRest(t)
  {
    if t != "" {
      ShortRest(t[1..]);
    }
  }

  lemma {:induction false} BlockIff(s: string, p: nat, n: nat)
    requires p <= |s|
    ensures LexBlock(s, p) == Lexed(BlockStringValue, n) <==> p <= n <= |s| && BlockRest(s[p..n])
    decreases |s| - p
  {
    if p == |s| {
      assert p <= n <= |s| ==> s[p..n] == "";
    } else if s[p] == '\\' && TripleQuote(s, p + 1) {
      BlockIff(s, p + 4, n);
      BlockEscape(s, p, n);
    } else if TripleQuote(s, p) {
      BlockEnd(s, p, n);
    } else {
      BlockIff(s, p + 1, n);
      BlockPlain(s, p, n);
    }
  }

  lemma {:induction false} BlockEscape(s: string, p: nat, n: nat)
    requires p < |s| && s[p] == '\\' && TripleQuote(s, p + 1)
    ensures p <= n <= |s| && BlockRest(s[p..n]) <==> p + 4 <= n <= |s| && BlockRest(s[p+4..n])
  {
    if p + 4 <= n <= |s| {
      BeginsAt(s, p, n);
      var t := s[p..n];
      assert t[4..] == s[p+4..n] && t[0] == s[p];
    } else if p <= n <= |s| {
      ShortEscape(s, p, n);
    }
  }

  lemma {:induction false} ShortEscape(s: string, p: nat, n: nat)
    requires p <= n < p + 4 <= |s| && s[p] == '\\'
    ensures !BlockRest(s[p..n])
  {
    var t := s[p..n];
    if |t| < 3 {
      ShortRest(t);
    } else {
      assert t[0] == s[p];
      ShortRest(t[1..]);
    }
  }

  lemma {:induction false} BlockEnd(s: string, p: nat, n: nat)
    requires TripleQuote(s, p)
    ensures p <= n <= |s| && BlockRest(s[p..n]) <==> n == p + 3
  {
    if p <= n <= |s| {
      var t := s[p..n];
      if n < p + 3 {
        ShortRest(t);
      } else {
        BeginsAt(s, p, n);
        assert t[0] == s[p];
        assert t[..3] == "\"\"\"";
      }
    }
  }

  lemma {:induction false} BlockPlain(s: string, p: nat, n: nat)
    requires p < |s| && !TripleQuote(s, p) && !(s[p] == '\\' && TripleQuote(s, p + 1))
    ensures p <= n <= |s| && BlockRest(s[p..n]) <==> p + 1 <= n <= |s| && BlockRest(s[p+1..n])
  {
    if p < n <= |s| {
      BeginsAt(s, p, n);
      var t := s[p..n];
      assert t[1..] == s[p+1..n];
    } else if n == p {
      ShortRest(s[p..n]);
    }
  }

  lemma {:induction false} StringIff(s: string, kind: TokenKind, n: nat)
    requires s != "" && s[0] == '"' && kind in {StringValue, BlockStringValue}
    ensures LexString(s) == Lexed(kind, n) <==> Ends(kind, s, n)
  {
    hide StringBody, BlockRest, LexQuoted, LexBlock;
    if Has(s, 1, '"') && Has(s, 2, '"') {
      BlockIff(s, 3, n);
      BlockKind(s, 3);
      if kind == BlockStringValue {
        BlockTextIs(s, n);
      } else {
        TripleIsNotQuoted(s, n);
      }
    } else {
      QuotedIff(s, 1, n);
      QuotedKind(s, 1);
      if kind == StringValue {
        QuotedTextIs(s, n);
      } else if 3 <= n <= |s| {
        assert s[..n][1] == s[1] && s[..n][2] == s[2];
      }
    }
  }

  lemma {:induction false} BlockKind(s: string, p: nat)
    requires p <= |s|
    ensures LexBlock(s, p).Lexed? ==> LexBlock(s, p).kind == BlockStringValue
  {
    BlockLength(s, p);
  }

  lemma {:induction false} QuotedKind(s: string, p: nat)
    requires p <= |s|
    ensures LexQuoted(s, p).Lexed? ==> LexQuoted(s, p).kind == StringValue
  {
    QuotedLength(s, p);
  }

  lemma {:induction false} BlockTextIs(s: string, n: nat)
    requires Has(s, 0, '"') && Has(s, 1, '"') && Has(s, 2, '"')
    ensures 0 < n <= |s| && BlockText(s[..n]) <==> 3 <= n <= |s| && BlockRest(s[3..n])
  {
    hide BlockRest;
    if 3 <= n <= |s| {
      var t := s[..n];
      assert t[..3] == "\"\"\"";
      assert t[3..] == s[3..n];
    }
  }

  lemma {:induction false} QuotedTextIs(s: string, n: nat)
    requires Has(s, 0, '"') && !(Has(s, 1, '"') && Has(s, 2, '"'))
    ensures Ends(StringValue, s, n) <==> 1 < n <= |s| && s[n-1] == '"' && StringBody(s[1..n-1])
  {
    hide StringBody;
    if 1 < n <= |s| {
      var t := s[..n];
      assert t[0] == s[0] && t[n-1] == s[n-1] && t[1..n-1] == s[1..n-1];
      assert n < |s| ==> s[n..][0] == s[n];
    }
  }

  lemma {:induction false} TripleIsNotQuoted(s: string, n: nat)
    requires Has(s, 0, '"') && Has(s, 1, '"') && Has(s, 2, '"')
    ensures !Ends(StringValue, s, n)
  {
    if 1 < n <= |s| {
      var t := s[..n];
      if n == 2 {
        assert s[n..][0] == s[2];
      } else {
        assert t[1..n-1][0] == t[1] == s[1];
      }
    }
  }

  // ----- all tokens -----

  lemma {:induction false} FirstCharacter(kind: TokenKind, t: string)
    requires TokenText(kind, t)
    ensures t != ""
    ensures kind == NameToken <==> Letter(t[0])
    ensures kind in {IntValue, FloatValue} <==> t[0] == '-' || Digit(t[0])
    ensures kind in {StringValue, BlockStringValue} <==> t[0] == '"'
    ensures kind == Spread <==> t[0] == '.'
  {
    if kind == FloatValue {
      var i, j :| 0 <= i <= j && i < |t| && Parts(t, i, j);
      assert Integer(t[..i]) && t[..i] != "" && t[..i][0] == t[0];
      assert Unsigned(t[..i])[0] == if t[0] == '-' then t[1] else t[0];
    }
  }

  lemma {:induction false} OneCharacter(kind: TokenKind, t: string)
    requires kind !in {NameToken, IntValue, FloatValue, StringValue, BlockStringValue, Spread}
    ensures TokenText(kind, t) <==> |t| == 1 && Punctuator(t[0]) == Some(kind)
  {
  }

  lemma {:induction false} PunctuatorStands(c: char)
    requires Punctuator(c).Some?
    ensures !Letter(c) && !Digit(c) && c != '-' && c != '"' && c != '.'
    ensures Punctuator(c).value !in {NameToken, IntValue, FloatValue, StringValue, BlockStringValue, Spread}
  {
  }

  lemma {:induction false} PunctuatorIff(s: string, kind: TokenKind, n: nat)
    requires s != "" && Punctuator(s[0]).Some?
    ensures Lex(s) == Lexed(kind, n) <==> Ends(kind, s, n)
  {
    hide TokenText, Punctuator;
    assert s[..1] == [s[0]];
    PunctuatorStands(s[0]);
    if kind in {NameToken, IntValue, FloatValue, StringValue, BlockStringValue, Spread} {
      if 0 < n <= |s| && TokenText(kind, s[..n]) {
        FirstCharacter(kind, s[..n]);
      }
    } else if 0 < n <= |s| {
      OneCharacter(kind, s[..n]);
    }
  }

  lemma {:induction false} SpreadIff(s: string, kind: TokenKind, n: nat)
    requires s != "" && s[0] == '.'
    ensures Lex(s) == Lexed(kind, n) <==> Ends(kind, s, n)
  {
    if 0 < n <= |s| && TokenText(kind, s[..n]) {
      FirstCharacter(kind, s[..n]);
      assert s[..n][0] == s[0];
    }
    if |s| >= 3 {
      assert s[..3] == [s[0], s[1], s[2]];
    }
  }

  /** The lexer finds a token exactly when the text begins with one that may end where it ends; so it fails
      exactly when the text begins with none. */
  lemma {:induction false} LexIff(s: string, kind: TokenKind, n: nat)
    requires s != ""
    ensures Lex(s) == Lexed(kind, n) <==> Ends(kind, s, n)
  {
    var c := s[0];
    if Punctuator(c).Some? {
      PunctuatorIff(s, kind, n);
    } else if c == '.' {
      SpreadIff(s, kind, n);
    } else {
      hide TokenText, MayFollow, LexNumber, LexString, Run;
      if 0 < n <= |s| && TokenText(kind, s[..n]) {
        FirstCharacter(kind, s[..n]);
        assert s[..n][0] == c;
        if kind !in {NameToken, IntValue, FloatValue, StringValue, BlockStringValue, Spread} {
          NoPunctuation(kind, s[..n]);
        }
      }
      if IsNameStart(c) {
        NameIff(s, n);
      } else if c == '-' || IsDigit(c) {
        NumberKinds(s);
        NumberIff(s, IntValue, n);
        NumberIff(s, FloatValue, n);
      } else if c == '"' {
        StringKinds(s);
        StringIff(s, StringValue, n);
        StringIff(s, BlockStringValue, n);
      }
    }
  }

  lemma {:induction false} NumberKinds(s: string)
    ensures LexNumber(s).Lexed? ==> LexNumber(s).kind in {IntValue, FloatValue}
  {
    NumberLength(s);
  }

  lemma {:induction false} StringKinds(s: string)
    requires s != ""
    ensures LexString(s).Lexed? ==> LexString(s).kind in {StringValue, BlockStringValue}
  {
    hide LexBlock, LexQuoted;
    if Has(s, 1, '"') && Has(s, 2, '"') {
      BlockKind(s, 3);
    } else {
      QuotedKind(s, 1);
    }
  }

  /** Any other text of a token is a punctuator's. */
  lemma {:induction false} NoPunctuation(kind: TokenKind, t: string)
    requires TokenText(kind, t)
    requires kind !in {NameToken, IntValue, FloatValue, StringValue, BlockStringValue, Spread}
    ensures t != "" && Punctuator(t[0]).Some?
  {
  }

  // ----- lexical errors -----

  /** Where a string goes wrong: after a good beginning, the line or the text ends, or an escape is bad. */
  ghost predicate GoesWrong(s: string, p: nat, q: nat, l: Lexed) {
    && l.Bad? && p <= q <= |s| && StringBody(s[p..q])
    && ((l.error == InvalidString && l.len == q && (q == |s| || s[q] == '\n' || s[q] == '\r')) ||
        (l.error == InvalidEscape && q <= l.len <= q + 5 && q < |s| && s[q] == '\\'))
  }

  lemma {:induction false} BodyExtends(s: string, p: nat, m: nat, q: nat)
    requires p <= m <= q <= |s| && StringBody(s[m..q])
    requires || (m == p + 1 && s[p] != '"' && s[p] != '\\' && s[p] != '\n' && s[p] != '\r')
             || (m == p + 2 && s[p] == '\\' && Escapable(s[p+1]))
             || (m == p + 6 && s[p] == '\\' && s[p+1] == 'u' && FourHex(s[p+2..p+6]))
    ensures StringBody(s[p..q])
  {
    var t := s[p..q];
    SubText(s, p, q, m - p, q - p);
    assert t[m-p..] == t[m-p..q-p] == s[m..q] && t[0] == s[p];
    if m == p + 6 {
      SubText(s, p, q, 2, 6);
    }
  }

  lemma {:induction false} QuotedGoesWrong(s: string, p: nat) returns (q: nat)
    requires p <= |s| && LexQuoted(s, p).Bad?
    ensures GoesWrong(s, p, q, LexQuoted(s, p))
    decreases |s| - p
  {
    hide StringBody;
    q := p;
    assert StringBody(s[p..p]) by {
      EmptyBody(s[p..p]);
    }
    if p < |s| && s[p] != '\n' && s[p] != '\r' {
      if s[p] != '\\' {
        q := QuotedGoesWrong(s, p + 1);
        BodyExtends(s, p, p + 1, q);
      } else if p + 1 < |s| && IsEscape(s[p+1]) {
        q := QuotedGoesWrong(s, p + 2);
        BodyExtends(s, p, p + 2, q);
      } else if p + 1 < |s| && s[p+1] == 'u' && BadHex(s, p, 2) == 6 {
        FourHexIff(s, p);
        q := QuotedGoesWrong(s, p + 6);
        BodyExtends(s, p, p + 6, q);
      }
    }
  }

  lemma {:induction false} EmptyBody(t: string)
    requires t == ""
    ensures StringBody(t)
  {
  }

  lemma {:induction false} BlockGoesWrong(s: string, p: nat)
    requires p <= |s| && LexBlock(s, p).Bad?
    ensures LexBlock(s, p) == Bad(InvalidBlockString, |s|)
    decreases |s| - p
  {
    if p < |s| {
      if s[p] == '\\' && TripleQuote(s, p + 1) {
        BlockGoesWrong(s, p + 4);
      } else {
        BlockGoesWrong(s, p + 1);
      }
    }
  }

  /** The kind of a lexical error, and its extent: a bad number; a block string without an end, which
      takes the whole text; a string that goes wrong; and otherwise one unexpected character. */
  lemma {:induction false} LexErrors(s: string)
    requires s != "" && Lex(s).Bad?
    ensures s[0] == '-' || Digit(s[0]) ==> Lex(s).error == InvalidNumber
    ensures Begins(s, "\"\"\"") ==> Lex(s) == Bad(InvalidBlockString, |s|)
    ensures s[0] == '"' && !Begins(s, "\"\"\"") ==> exists q :: GoesWrong(s, 1, q, Lex(s))
    ensures s[0] != '-' && !Digit(s[0]) && s[0] != '"' ==> Lex(s) == Bad(UnexpectedChar, 1)
  {
    if s[0] == '"' {
      assert Begins(s, "\"\"\"") <==> Has(s, 1, '"') && Has(s, 2, '"') by {
        if |s| >= 3 {
          assert s[..3] == [s[0], s[1], s[2]];
        }
      }
      hide LexBlock, LexQuoted;
      if Has(s, 1, '"') && Has(s, 2, '"') {
        BlockGoesWrong(s, 3);
      } else {
        var q := QuotedGoesWrong(s, 1);
      }
    } else if s[0] == '-' || IsDigit(s[0]) {
      hide LexNumber;
      NumberErrors(s);
    }
  }

  lemma {:induction false} ExponentErrors(s: string, e: nat, isFloat: bool)
    requires e <= |s|
    ensures LexExponent(s, e, isFloat).Bad? ==> LexExponent(s, e, isFloat).error == InvalidNumber
  {
    hide Run;
  }

  lemma {:induction false} FractionErrors(s: string, e: nat)
    requires e <= |s|
    ensures LexFraction(s, e).Bad? ==> LexFraction(s, e).error == InvalidNumber
  {
    hide Run, LexExponent;
    ExponentErrors(s, e, false);
    if Has(s, e, '.') {
      ExponentErrors(s, e + 1 + Run(IsDigit, s[e+1..]), true);
    }
  }

  lemma {:induction false} NumberErrors(s: string)
    ensures LexNumber(s).Bad? ==> LexNumber(s).error == InvalidNumber
  {
    hide Run, LexFraction;
    var a := if Has(s, 0, '-') then 1 else 0;
    if Has(s, a, '0') {
      FractionErrors(s, a + 1);
    } else if DigitAt(s, a) {
      FractionErrors(s, a + Run(IsDigit, s[a..]));
    }
  }
}
