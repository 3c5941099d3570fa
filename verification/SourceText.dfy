/** Source text and its tokens: the tokens tile the source, and tokens written out with spaces between
    them are read back (magna-gqlmin `lex.rs`, `parse/mod.rs`). */
module SourceText {
  import opened Basics
  import opened Syntax
  import opened Lexing
  import opened Lexers
  import LexicalGrammar
  import opened Printer
  import opened Soundness
  import opened Roundtrip
  import opened Positions
  import opened Documents
  import opened Arena
  import Reading
  import Partition
  import Grammar = TreeParser

  // ----- tokens of a source -----

  lemma {:induction false} NextIs(src: string, pos: nat)
    requires pos <= |src| && NextFrom(src, pos).Ok?
    ensures var t, start := NextFrom(src, pos).value, pos + Skip(src[pos..]);
      && t.span.start == start && start <= t.span.end <= |src| && t.text == src[start..t.span.end]
      && (t.kind == Eof <==> start == |src|) && (t.kind == Eof ==> t.span.end == start)
      && (t.kind != Eof ==> start < t.span.end && Lex(src[start..]) == Lexed(t.kind, t.span.end - start))
  {
    hide Lex, Skip;
    var start := pos + Skip(src[pos..]);
    if start < |src| {
      LexLength(src[start..]);
    }
  }

  lemma {:induction false} NextErrs(src: string, pos: nat)
    requires pos <= |src| && NextFrom(src, pos).Err?
    ensures NextFrom(src, pos).error.span.start == pos + Skip(src[pos..]) < |src|
  {
    hide Lex, Skip;
  }

  /** The tokens from `pos` on. */
  function StreamFrom(src: string, pos: nat): (s: Stream)
    requires pos <= |src|
    decreases |src| - pos
  {
    match NextFrom(src, pos)
    case Err(e) => Stream([], Broken(e), |src|)
    case Ok(t) =>
      NextIs(src, pos);
      if t.kind == Eof then Stream([], AtEnd(t.span.start), |src|)
      else
        var rest := StreamFrom(src, t.span.end);
        Stream([t] + rest.tokens, rest.ending, |src|)
  }

  function LexSource(src: string): Stream {
    StreamFrom(src, Beginning(src))
  }

  /** `tokens` have been read and the others begin at `from`. */
  ghost predicate ReadUpTo(src: string, tokens: seq<Token>, from: nat) {
    && from <= |src| && (forall i :: 0 <= i < |tokens| ==> tokens[i].kind != Eof)
    && var rest := StreamFrom(src, from);
       LexSource(src).tokens == tokens + rest.tokens && LexSource(src).ending == rest.ending
  }

  lemma {:induction false} StreamLength(src: string, from: nat)
    requires from <= |src|
    ensures StreamFrom(src, from).length == |src|
  {
  }

  lemma {:induction false} ReadOneMore(src: string, tokens: seq<Token>, from: nat)
    requires ReadUpTo(src, tokens, from)
    ensures var next := NextFrom(src, from);
      && (next.Err? ==> LexSource(src) == Stream(tokens, Broken(next.error), |src|))
      && (next.Ok? && next.value.kind == Eof ==> LexSource(src) == Stream(tokens, AtEnd(next.value.span.start), |src|))
      && (next.Ok? && next.value.kind != Eof ==>
            from < next.value.span.end && ReadUpTo(src, tokens + [next.value], next.value.span.end))
  {
    hide NextFrom;
    StreamLength(src, Beginning(src));
    var next := NextFrom(src, from);
    if next.Ok? {
      NextIs(src, from);
      if next.value.kind != Eof {
        var rest := StreamFrom(src, next.value.span.end).tokens;
        assert tokens + ([next.value] + rest) == (tokens + [next.value]) + rest;
      }
    }
  }

  method Tokenize(src: string) returns (s: Stream)
    ensures s == LexSource(src)
  {
    var lexer := new Lexer(src);
    var tokens: seq<Token> := [];
    ghost var from := Beginning(src);
    assert ReadUpTo(src, tokens, from);
    hide NextFrom, StreamFrom, LexSource, ReadUpTo;
    while true
      invariant lexer.Valid() && lexer.src == src && fresh(lexer)
      invariant from == (if lexer.started then lexer.pos else Beginning(src)) && from <= |src|
      invariant ReadUpTo(src, tokens, from)
      decreases |src| - from
    {
      var r := lexer.NextToken();
      ReadOneMore(src, tokens, from);
      if r.Err? {
        return Stream(tokens, Broken(r.error), |src|);
      }
      if r.value.kind == Eof {
        return Stream(tokens, AtEnd(r.value.span.start), |src|);
      }
      tokens := tokens + [r.value];
      from := lexer.pos;
    }
  }

  // ----- tiling -----

  /** The source from `a` to `b` holds no token: only blanks and comments. */
  ghost predicate IsGap(src: string, a: nat, b: nat) {
    a <= b <= |src| && forall i :: a <= i < b ==> LexicalGrammar.Blank(src[i]) || Commented(src, a, i)
  }

  /** Position `i` is in a comment that begins at `a` or later. */
  ghost predicate Commented(src: string, a: nat, i: nat)
    requires i < |src|
  {
    exists j :: a <= j <= i && src[j] == '#' && forall k :: j < k <= i ==> !LexicalGrammar.LineEnd(src[k])
  }

  lemma {:induction false} CommentIsGap(src: string, a: nat, n: nat)
    requires a < |src| && src[a] == '#' && n == 1 + Run(InComment, src[a+1..])
    ensures IsGap(src, a, a + n)
  {
    assert forall k :: a < k < a + n ==> src[a+1..][k-a-1] == src[k];
    assert forall k :: a < k < a + n ==> InComment(src[k]);
    forall i | a <= i < a + n ensures Commented(src, a, i) {
    }
  }

  lemma {:induction false} GapsJoin(src: string, a: nat, b: nat, c: nat)
    requires IsGap(src, a, b) && IsGap(src, b, c)
    ensures IsGap(src, a, c)
  {
    forall i | a <= i < c && !LexicalGrammar.Blank(src[i]) ensures Commented(src, a, i) {
      assert Commented(src, if i < b then a else b, i);
    }
  }

  lemma {:induction false} BlankIsGap(src: string, a: nat)
    requires a < |src|
    ensures IsBlank(src[a]) ==> IsGap(src, a, a + 1)
  {
  }

  lemma {:induction false} EmptyGap(src: string, a: nat)
    requires a <= |src|
    ensures IsGap(src, a, a)
  {
  }

  lemma {:induction false} SkippedIsGap(src: string, a: nat)
    requires a <= |src|
    ensures IsGap(src, a, a + Skip(src[a..]))
    decreases |src| - a
  {
    hide Skip, Run, IsGap;
    if a == |src| {
      NothingToSkip(src[a..]);
      EmptyGap(src, a);
    } else {
      SkipStep(src, a);
      if IsBlank(src[a]) {
        BlankIsGap(src, a);
        SkippedIsGap(src, a + 1);
        GapsJoin(src, a, a + 1, a + 1 + Skip(src[a+1..]));
      } else if src[a] == '#' {
        var m := a + 1 + Run(InComment, src[a+1..]);
        CommentIsGap(src, a, m - a);
        SkippedIsGap(src, m);
        GapsJoin(src, a, m, m + Skip(src[m..]));
      } else {
        EmptyGap(src, a);
      }
    }
  }

  /** Where the text before token `i` ends. */
  function EndBefore(tokens: seq<Token>, from: nat, i: nat): nat
    requires i <= |tokens|
  {
    if i == 0 then from else tokens[i-1].span.end
  }

  ghost predicate TileAt(src: string, from: nat, tokens: seq<Token>, i: nat)
    requires i < |tokens|
  {
    var t := tokens[i];
    && IsGap(src, EndBefore(tokens, from, i), t.span.start)
    && t.span.start < t.span.end <= |src| && t.text == src[t.span.start..t.span.end]
  }

  /** From `from` on, the source is gaps and tokens in turn, up to its end or to the lexical error. */
  ghost predicate Tiles(src: string, from: nat, s: Stream) {
    && (forall i :: 0 <= i < |s.tokens| ==> TileAt(src, from, s.tokens, i))
    && var last := EndBefore(s.tokens, from, |s.tokens|);
       match s.ending
       case AtEnd(offset) => offset == |src| && IsGap(src, last, |src|)
       case Broken(e) => e.span.start < |src| && IsGap(src, last, e.span.start)
  }

  lemma {:induction false} TilesPrepend(src: string, from: nat, t: Token, rest: Stream)
    requires t.kind != Eof && Tiles(src, t.span.end, rest) && TileAt(src, from, [t], 0)
    ensures Tiles(src, from, Stream([t] + rest.tokens, rest.ending, |src|))
  {
    hide IsGap;
    var all := [t] + rest.tokens;
    forall i | 0 <= i < |all| ensures TileAt(src, from, all, i) {
      if i > 0 {
        assert TileAt(src, t.span.end, rest.tokens, i - 1);
        assert EndBefore(all, from, i) == EndBefore(rest.tokens, t.span.end, i - 1);
      }
    }
    assert EndBefore(all, from, |all|) == EndBefore(rest.tokens, t.span.end, |rest.tokens|);
  }

  /** The tokens of every source tile it: they are nonempty, in order and disjoint, each carries its own
      text, and nothing but blanks and comments lies between them. */
  lemma {:induction false} TokensTile(src: string, from: nat)
    requires from <= |src|
    ensures Tiles(src, from, StreamFrom(src, from))
    decreases |src| - from
  {
    hide IsGap, Skip, Lex, NextFrom;
    SkippedIsGap(src, from);
    var next := NextFrom(src, from);
    if next.Err? {
      NextErrs(src, from);
    } else {
      NextIs(src, from);
      var t := next.value;
      if t.kind != Eof {
        TokensTile(src, t.span.end);
        assert TileAt(src, from, [t], 0);
        hide Tiles;
        TilesPrepend(src, from, t, StreamFrom(src, t.span.end));
      }
    }
  }

  // ----- the tiling determines the tokens -----

  /** Something other than a gap begins at `b`, after a gap from `a`. */
  ghost predicate Significant(src: string, a: nat, b: nat)
    requires b < |src|
  {
    !LexicalGrammar.Blank(src[b]) && src[b] != '#' && !Commented(src, a, b)
  }

  /** A gap that is not continued is skipped, all of it and nothing more. */
  lemma {:induction false} GapIsSkipped(src: string, a: nat, b: nat)
    requires IsGap(src, a, b) && (b < |src| ==> Significant(src, a, b))
    ensures Skip(src[a..]) == b - a
    decreases b - a
  {
    hide Skip, Run;
    if a < |src| {
      SkipStep(src, a);
    }
    if a == b {
      if b == |src| {
        NothingToSkip(src[a..]);
      }
    } else if IsBlank(src[a]) {
      LaterGap(src, a, a + 1, b);
      GapIsSkipped(src, a + 1, b);
    } else {
      assert Commented(src, a, a);
      var n := 1 + Run(InComment, src[a+1..]);
      CommentEnds(src, a, n, b);
      LaterGap(src, a, a + n, b);
      GapIsSkipped(src, a + n, b);
    }
  }

  lemma {:induction false} NothingToSkip(s: string)
    requires s == ""
    ensures Skip(s) == 0
  {
  }

  /** A comment from `a` is over before what follows the gap, and ends with a line. */
  lemma {:induction false} CommentEnds(src: string, a: nat, n: nat, b: nat)
    requires a < b <= |src| && src[a] == '#' && n == 1 + Run(InComment, src[a+1..])
    requires b < |src| ==> !Commented(src, a, b)
    ensures a + n <= b && (a + n < |src| ==> LexicalGrammar.LineEnd(src[a+n]))
  {
    assert forall k :: a < k < a + n ==> src[a+1..][k-a-1] == src[k];
    assert a + n < |src| ==> src[a+1..][n-1] == src[a+n];
  }

  /** A comment reaches past a blank or the end of a line only if it begins after it. */
  lemma {:induction false} LaterComment(src: string, a: nat, m: nat, i: nat)
    requires a < m <= i < |src|
    requires if m == a + 1 && LexicalGrammar.Blank(src[a]) then true else LexicalGrammar.LineEnd(src[m])
    ensures Commented(src, a, i) <==> Commented(src, m, i)
  {
    if Commented(src, a, i) {
      var j :| a <= j <= i && src[j] == '#' && forall k :: j < k <= i ==> !LexicalGrammar.LineEnd(src[k]);
      assert j >= m;
    }
  }

  /** The rest of a gap, after a blank or a whole comment. */
  lemma {:induction false} LaterGap(src: string, a: nat, m: nat, b: nat)
    requires IsGap(src, a, b) && (b < |src| ==> Significant(src, a, b)) && a < m <= b
    requires if m == a + 1 && LexicalGrammar.Blank(src[a]) then true
             else src[a] == '#' && (m < |src| ==> LexicalGrammar.LineEnd(src[m]))
    ensures IsGap(src, m, b) && (b < |src| ==> Significant(src, m, b))
  {
    hide Commented;
    forall i | m <= i < b && !LexicalGrammar.Blank(src[i]) ensures Commented(src, m, i) {
      LaterComment(src, a, m, i);
    }
    if b < |src| {
      LaterComment(src, a, m, b);
    }
  }

  /** Where skipping stops, something significant begins. */
  lemma {:induction false} SkipStopsOutside(src: string, a: nat)
    requires a <= |src|
    ensures var b := a + Skip(src[a..]); b < |src| ==> Significant(src, a, b)
    decreases |src| - a
  {
    hide Skip, Run;
    if a < |src| {
      SkipStep(src, a);
      var b := a + Skip(src[a..]);
      if IsBlank(src[a]) {
        SkipStopsOutside(src, a + 1);
        if b < |src| {
          EarlierGap(src, a, a + 1, b);
        }
      } else if src[a] == '#' {
        var n := 1 + Run(InComment, src[a+1..]);
        SkipStopsOutside(src, a + n);
        CommentEnds(src, a, n, |src|);
        if b < |src| {
          EarlierGap(src, a, a + n, b);
        }
      }
    }
  }

  lemma {:induction false} EarlierGap(src: string, a: nat, m: nat, b: nat)
    requires a < m <= b < |src| && Significant(src, m, b)
    requires if m == a + 1 && LexicalGrammar.Blank(src[a]) then true else LexicalGrammar.LineEnd(src[m])
    ensures Significant(src, a, b)
  {
  }

  ghost predicate GrammaticalAt(src: string, from: nat, tokens: seq<Token>, i: nat)
    requires i < |tokens|
  {
    var t, p := tokens[i], EndBefore(tokens, from, i);
    && TileAt(src, from, tokens, i) && Significant(src, p, t.span.start)
    && LexicalGrammar.TokenText(t.kind, t.text) && LexicalGrammar.MayFollow(t.kind, t.text, src[t.span.end..])
  }

  /** The source is, from `from` on, gaps and texts of tokens in turn, each token ending where it may, and no
      token beginning inside a comment. */
  ghost predicate IsTiling(src: string, from: nat, tokens: seq<Token>) {
    && (forall i :: 0 <= i < |tokens| ==> GrammaticalAt(src, from, tokens, i))
    && IsGap(src, EndBefore(tokens, from, |tokens|), |src|)
  }

  lemma {:induction false} TilingRest(src: string, from: nat, t: Token, rest: seq<Token>)
    ensures IsTiling(src, from, [t] + rest) <==> GrammaticalAt(src, from, [t], 0) && IsTiling(src, t.span.end, rest)
  {
    hide IsGap, Significant;
    var all := [t] + rest;
    assert EndBefore(all, from, |all|) == EndBefore(rest, t.span.end, |rest|);
    forall i | 0 <= i < |rest|
      ensures GrammaticalAt(src, t.span.end, rest, i) <==> GrammaticalAt(src, from, all, i + 1)
    {
      assert all[i+1] == rest[i];
      assert EndBefore(all, from, i + 1) == EndBefore(rest, t.span.end, i);
    }
    assert GrammaticalAt(src, from, [t], 0) <==> GrammaticalAt(src, from, all, 0);
    if IsTiling(src, from, all) {
      forall i | 0 <= i < |rest| ensures GrammaticalAt(src, t.span.end, rest, i) {
        assert GrammaticalAt(src, from, all, i + 1);
      }
    }
    if GrammaticalAt(src, from, [t], 0) && IsTiling(src, t.span.end, rest) {
      forall i | 0 <= i < |all| ensures GrammaticalAt(src, from, all, i) {
        if i > 0 {
          assert GrammaticalAt(src, t.span.end, rest, i - 1);
        }
      }
    }
  }

  lemma {:induction false} EndsIs(src: string, t: Token)
    requires t.span.start < t.span.end <= |src| && t.text == src[t.span.start..t.span.end]
    ensures LexicalGrammar.Ends(t.kind, src[t.span.start..], t.span.end - t.span.start) <==>
      LexicalGrammar.TokenText(t.kind, t.text) && LexicalGrammar.MayFollow(t.kind, t.text, src[t.span.end..])
  {
    hide LexicalGrammar.TokenText, LexicalGrammar.MayFollow;
    var s, n := src[t.span.start..], t.span.end - t.span.start;
    assert s[..n] == t.text && s[n..] == src[t.span.end..];
  }

  /** A token of the grammar after a gap is the next one. */
  lemma {:induction false} GrammaticalIsNext(src: string, from: nat, t: Token)
    requires from <= |src|
    ensures GrammaticalAt(src, from, [t], 0) <==> NextFrom(src, from) == Ok(t) && t.kind != Eof
  {
    hide LexicalGrammar.TokenText, LexicalGrammar.MayFollow, LexicalGrammar.Ends, Skip, Lex, IsGap, Significant;
    if GrammaticalAt(src, from, [t], 0) {
      GapIsSkipped(src, from, t.span.start);
      EndsIs(src, t);
      LexicalGrammar.LexIff(src[t.span.start..], t.kind, t.span.end - t.span.start);
      LexLength(src[t.span.start..]);
      hide GrammaticalAt;
    }
    if NextFrom(src, from) == Ok(t) && t.kind != Eof {
      NextIs(src, from);
      SkippedIsGap(src, from);
      SkipStopsOutside(src, from);
      EndsIs(src, t);
      LexicalGrammar.LexIff(src[t.span.start..], t.kind, t.span.end - t.span.start);
    }
  }

  /** A source lexes without error exactly when it can be tiled, and the tokens are those of the tiling. */
  lemma {:induction false} LexesIffTiled(src: string, from: nat, tokens: seq<Token>)
    requires from <= |src|
    ensures Ends(StreamFrom(src, from)) && StreamFrom(src, from).tokens == tokens <==> IsTiling(src, from, tokens)
    decreases |src| - from
  {
    hide GrammaticalAt, IsGap, NextFrom, StreamFrom, IsTiling;
    StreamCases(src, from);
    var next := NextFrom(src, from);
    if next.Ok? && next.value.kind != Eof {
      var t := next.value;
      NextIs(src, from);
      GrammaticalIsNext(src, from, t);
      if tokens != [] {
        assert tokens == [tokens[0]] + tokens[1..];
        TilingRest(src, from, tokens[0], tokens[1..]);
        GrammaticalIsNext(src, from, tokens[0]);
        if tokens[0] == t {
          LexesIffTiled(src, t.span.end, tokens[1..]);
        }
      } else {
        EmptyTiling(src, from);
      }
    } else if tokens != [] {
      assert tokens == [tokens[0]] + tokens[1..];
      TilingRest(src, from, tokens[0], tokens[1..]);
      GrammaticalIsNext(src, from, tokens[0]);
    } else {
      EmptyTiling(src, from);
    }
  }

  lemma {:induction false} StreamCases(src: string, from: nat)
    requires from <= |src|
    ensures var next, s := NextFrom(src, from), StreamFrom(src, from);
      && (next.Err? ==> !Ends(s))
      && (next.Ok? && next.value.kind == Eof ==> Ends(s) && s.tokens == [])
      && (next.Ok? && next.value.kind != Eof ==>
            && from < next.value.span.end <= |src|
            && s.tokens == [next.value] + StreamFrom(src, next.value.span.end).tokens
            && s.ending == StreamFrom(src, next.value.span.end).ending)
  {
    hide NextFrom;
    if NextFrom(src, from).Ok? {
      NextIs(src, from);
    }
  }

  lemma {:induction false} EmptyTiling(src: string, from: nat)
    requires from <= |src|
    ensures IsTiling(src, from, []) <==> NextFrom(src, from).Ok? && NextFrom(src, from).value.kind == Eof
  {
    hide Skip, Lex, LexicalGrammar.Blank;
    if IsTiling(src, from, []) {
      GapIsSkipped(src, from, |src|);
    } else if NextFrom(src, from).Ok? {
      NextIs(src, from);
      SkippedIsGap(src, from);
    }
  }

  // ----- writing tokens -----

  function Symbol(kind: TokenKind): string {
    match kind
    case Bang => "!"
    case Dollar => "$"
    case Amp => "&"
    case LParen => "("
    case RParen => ")"
    case Spread => "..."
    case Colon => ":"
    case Eq => "="
    case At => "@"
    case LBracket => "["
    case RBracket => "]"
    case LBrace => "{"
    case Pipe => "|"
    case RBrace => "}"
    case _ => ""
  }

  function Spelled(w: Lexeme): string {
    if CarriesText(w.kind) then w.text else Symbol(w.kind)
  }

  /** The lexeme, on its own, is a token of its kind. */
  predicate IsWord(w: Lexeme) {
    && Spelled(w) != [] && Lex(Spelled(w)) == Lexed(w.kind, |Spelled(w)|)
    && (!CarriesText(w.kind) ==> w.text == "")
  }

  predicate AreWords(ws: seq<Lexeme>) {
    forall i :: 0 <= i < |ws| ==> IsWord(ws[i])
  }

  /** Lexemes with a space after each. */
  function Written(ws: seq<Lexeme>): string {
    if ws == [] then "" else Spelled(ws[0]) + (" " + Written(ws[1..]))
  }

  /** A token begins with a significant character, which is not the first byte of a byte order mark. */
  lemma {:induction false} WordBegins(s: string)
    requires s != [] && Lex(s).Lexed?
    ensures !IsBlank(s[0]) && s[0] != '#' && s[0] != BOM[0]
  {
    hide LexNumber, LexString, Run;
  }

  /** Reading on after the space, or from the beginning. */
  lemma {:induction false} WrittenNext(src: string, pos: nat, ws: seq<Lexeme>)
    requires AreWords(ws) && pos <= |src| && (src[pos..] == Written(ws) || src[pos..] == " " + Written(ws))
    ensures NextFrom(src, pos).Ok?
    ensures ws == [] ==> NextFrom(src, pos).value.kind == Eof
    ensures ws != [] ==>
      var t := NextFrom(src, pos).value;
      && t.kind != Eof && Shape(t) == ws[0]
      && t.span.end <= |src| && src[t.span.end..] == " " + Written(ws[1..])
  {
    SkipToWord(src, pos, ws);
    var start := pos + Skip(src[pos..]);
    if ws == [] {
      assert src[start..] == "";
    } else {
      assert IsWord(ws[0]);
      WordAt(src, pos, ws[0], " " + Written(ws[1..]));
    }
  }

  lemma {:induction false} WordAt(src: string, pos: nat, w: Lexeme, rest: string)
    requires pos <= |src| && IsWord(w) && Separates(rest) && src[pos + Skip(src[pos..])..] == Spelled(w) + rest
    ensures NextFrom(src, pos).Ok?
    ensures var t := NextFrom(src, pos).value;
      t.kind != Eof && Shape(t) == w && t.span.end <= |src| && src[t.span.end..] == rest
  {
    hide Skip, Lex, Spelled, Separates;
    var start, text := pos + Skip(src[pos..]), Spelled(w);
    LexIsLocal(text, rest);
    assert text[..|text|] == text;
    assert NextFrom(src, pos) == Located(src, start, Lexed(w.kind, |text|));
    CutText(src, start, text, rest);
    SpelledText(w);
    WordKind(w);
  }

  lemma {:induction false} CutText(src: string, start: nat, text: string, rest: string)
    requires start <= |src| && src[start..] == text + rest
    ensures start + |text| <= |src| && src[start..start+|text|] == text && src[start+|text|..] == rest
  {
    assert src[start..][..|text|] == text;
    assert src[start..][|text|..] == rest;
  }

  lemma {:induction false} SpelledText(w: Lexeme)
    requires IsWord(w)
    ensures w == Lexeme(w.kind, if CarriesText(w.kind) then Spelled(w) else "")
  {
    hide Lex;
  }

  lemma {:induction false} WordKind(w: Lexeme)
    requires IsWord(w)
    ensures w.kind != Eof
  {
    hide Spelled;
    LexLength(Spelled(w));
    hide Lex;
  }

  lemma {:induction false} SkipToWord(src: string, pos: nat, ws: seq<Lexeme>)
    requires AreWords(ws) && pos <= |src| && (src[pos..] == Written(ws) || src[pos..] == " " + Written(ws))
    ensures src[pos + Skip(src[pos..])..] == Written(ws)
  {
    var s := Written(ws);
    assert Skip(s) == 0 by {
      if ws != [] {
        assert IsWord(ws[0]);
        WordBegins(Spelled(ws[0]));
        assert s[0] == Spelled(ws[0])[0];
      }
    }
    if src[pos..] != s {
      assert src[pos..][1..] == s;
      assert src[pos+1..] == s;
    }
  }

  /** Words written with spaces between them are read back, the same words in the same order. */
  lemma {:induction false} WrittenReads(src: string, pos: nat, ws: seq<Lexeme>)
    requires AreWords(ws) && pos <= |src| && (src[pos..] == Written(ws) || src[pos..] == " " + Written(ws))
    ensures var s := StreamFrom(src, pos);
      Ends(s) && |s.tokens| == |ws| && forall i :: 0 <= i < |ws| ==> Shape(s.tokens[i]) == ws[i]
    decreases |ws|
  {
    WrittenNext(src, pos, ws);
    hide Written, NextFrom, StreamFrom, Shape, IsWord;
    StreamUnfolds(src, pos);
    if ws != [] {
      var t := NextFrom(src, pos).value;
      NextIs(src, pos);
      assert AreWords(ws[1..]);
      WrittenReads(src, t.span.end, ws[1..]);
      var tokens, rest := StreamFrom(src, pos).tokens, StreamFrom(src, t.span.end).tokens;
      forall i | 0 <= i < |ws| ensures Shape(tokens[i]) == ws[i] {
        if i > 0 {
          assert tokens[i] == rest[i-1] && ws[i] == ws[1..][i-1];
        }
      }
    }
  }

  lemma {:induction false} StreamUnfolds(src: string, pos: nat)
    requires pos <= |src| && NextFrom(src, pos).Ok?
    ensures var t, s := NextFrom(src, pos).value, StreamFrom(src, pos);
      && (t.kind == Eof ==> s.tokens == [] && Ends(s))
      && (t.kind != Eof ==>
            && t.span.end <= |src| && s.tokens == [t] + StreamFrom(src, t.span.end).tokens
            && s.ending == StreamFrom(src, t.span.end).ending)
  {
    hide NextFrom;
    NextIs(src, pos);
  }

  lemma {:induction false} NoMark(ws: seq<Lexeme>)
    requires AreWords(ws)
    ensures Beginning(Written(ws)) == 0
  {
    if ws != [] {
      assert IsWord(ws[0]);
      WordBegins(Spelled(ws[0]));
      assert Written(ws)[0] == Spelled(ws[0])[0];
    }
  }

  /** The tokens of what was written, without positions, are the words. */
  lemma {:induction false} LexOfWritten(ws: seq<Lexeme>)
    requires AreWords(ws)
    ensures var s := LexSource(Written(ws)); Ends(s) && Text(s, 0, |s.tokens|) == ws
  {
    NoMark(ws);
    assert Written(ws)[0..] == Written(ws);
    WrittenReads(Written(ws), 0, ws);
  }

  // ----- the tokens of a source are words -----

  lemma {:induction false} SymbolOf(s: string)
    requires s != [] && Lex(s).Lexed? && !CarriesText(Lex(s).kind)
    ensures Lex(s).len <= |s| && s[..Lex(s).len] == Symbol(Lex(s).kind)
  {
    NumberLength(s);
    if Has(s, 1, '"') && Has(s, 2, '"') {
      BlockLength(s, 3);
    } else {
      QuotedLength(s, 1);
    }
    hide LexNumber, LexBlock, LexQuoted, Run;
  }

  predicate IsSpelled(t: Token) {
    IsWord(Shape(t)) && Spelled(Shape(t)) == t.text
  }

  lemma {:induction false} LexedIsWord(s: string, t: Token)
    requires s != [] && Lex(s) == Lexed(t.kind, |t.text|) && |t.text| <= |s| && t.text == s[..|t.text|]
    ensures IsSpelled(t)
  {
    LexIsLocal(s, "");
    assert t.text + "" == t.text;
    if !CarriesText(t.kind) {
      SymbolOf(s);
    }
    hide Lex;
  }

  lemma {:induction false} TokensAreWords(src: string, from: nat)
    requires from <= |src|
    ensures forall i :: 0 <= i < |StreamFrom(src, from).tokens| ==> IsSpelled(StreamFrom(src, from).tokens[i])
    decreases |src| - from
  {
    hide IsSpelled, Lex, Skip;
    var next := NextFrom(src, from);
    if next.Ok? {
      NextIs(src, from);
      var t := next.value;
      if t.kind != Eof {
        var s := src[t.span.start..];
        assert s[..|t.text|] == t.text;
        LexedIsWord(s, t);
        TokensAreWords(src, t.span.end);
      }
    }
  }

  /** Writing the tokens of any source with spaces between them, and lexing again, gives the same
      kinds and lexemes. */
  lemma {:induction false} LexAgain(src: string)
    ensures var s := LexSource(src);
      var ws := Text(s, 0, |s.tokens|);
      var again := LexSource(Written(ws));
      AreWords(ws) && Ends(again) && Text(again, 0, |again.tokens|) == ws
  {
    hide IsWord, Lex, StreamFrom, Written, Beginning;
    var s := LexSource(src);
    TokensAreWords(src, Beginning(src));
    var ws := Text(s, 0, |s.tokens|);
    forall i | 0 <= i < |ws| ensures IsWord(ws[i]) {
      assert IsSpelled(StreamFrom(src, Beginning(src)).tokens[i]);
    }
    LexOfWritten(ws);
  }

  // ----- whole documents -----

  /** Every well-formed document whose names and literals are lexically valid can be written as source
      text from which the parser gets it back, up to positions. */
  lemma {:induction false} SourceRoundTrip(defs: seq<Definition>)
    requires FineDocument(defs) && AreWords(PrintDocument(defs))
    ensures var g := Grammar.ParseDocument(LexSource(Written(PrintDocument(defs))));
      g.Done? && PlainDocument(g.value) == PlainDocument(defs)
  {
    hide FineDocument, PrintDocument, PlainDocument, Grammar.ParseDocument, LexSource, Written, AreWords, Text;
    LexOfWritten(PrintDocument(defs));
    DocumentReturns(LexSource(Written(PrintDocument(defs))), defs);
  }

  /** A source that parses can be rewritten from its tree alone: blanks, comments and commas do not
      matter, and the rewritten source has the same tree, up to positions. */
  lemma {:induction false} RewritingKeepsTheTree(src: string)
    requires Grammar.ParseDocument(LexSource(src)).Done?
    ensures var defs := Grammar.ParseDocument(LexSource(src)).value;
      var g := Grammar.ParseDocument(LexSource(Written(PrintDocument(defs))));
      g.Done? && PlainDocument(g.value) == PlainDocument(defs)
  {
    hide FineDocument, PrintDocument, PlainDocument, Grammar.ParseDocument, LexSource, Written, AreWords, Text;
    DocumentSound(LexSource(src));
    LexAgain(src);
    SourceRoundTrip(Grammar.ParseDocument(LexSource(src)).value);
  }

  // ----- positions in the source -----

  /** The source reads as the tree says where it says. */
  predicate StandsIn(src: string, p: Placed) {
    var w := Spelled(p.lexeme);
    match p.place
    case Anywhere => true
    case At(span) => span.start < span.end <= |src| && src[span.start..span.end] == w
    case From(offset) => offset < |src| && w <= src[offset..]
    case Until(offset) => |w| <= offset <= |src| && src[offset-|w|..offset] == w
  }

  lemma {:induction false} TokenStands(src: string, p: Placed, t: Token)
    requires Sits(p, t) && t.span.start < t.span.end <= |src| && t.text == src[t.span.start..t.span.end]
    requires Spelled(Shape(t)) == t.text
    ensures StandsIn(src, p)
  {
    if p.place.From? {
      assert src[t.span.start..] == t.text + src[t.span.end..];
    }
  }

  /** At the span of every name and string stands its text, a selection set begins with `{` and ends with `}`,
      and a definition begins with its keyword. */
  lemma {:induction false} SourcePlaced(src: string)
    requires Grammar.ParseDocument(LexSource(src)).Done?
    ensures var ps := PlaceDocument(Grammar.ParseDocument(LexSource(src)).value);
      forall i :: 0 <= i < |ps| ==> StandsIn(src, ps[i])
  {
    hide Grammar.ParseDocument, PlaceDocument, StandsIn, IsWord, Spelled, IsGap, Sits;
    var s := LexSource(src);
    DocumentPlaced(s);
    TokensTile(src, Beginning(src));
    TokensAreWords(src, Beginning(src));
    var ps := PlaceDocument(Grammar.ParseDocument(s).value);
    forall i | 0 <= i < |ps| ensures StandsIn(src, ps[i]) {
      assert Sits(ps[i], s.tokens[0+i]);
      assert TileAt(src, Beginning(src), s.tokens, i);
      assert IsSpelled(s.tokens[i]);
      TokenStands(src, ps[i], s.tokens[i]);
    }
  }

  /** The parser on source text. */
  method ParseSource(src: string) returns (r: Result<Document, ParseError>)
    ensures var g := Grammar.ParseDocument(LexSource(src));
      && (r.Ok? <==> g.Done?)
      && (r.Err? ==> g.error == r.error)
      && (r.Ok? ==> Reading.ReadsDocument(r.value, g.value) && Partition.IsPartitioned(r.value))
      && (r.Ok? ==> FineDocument(g.value))
      && (r.Ok? ==> Text(LexSource(src), 0, |LexSource(src).tokens|) == PrintDocument(g.value))
      && (r.Ok? ==> forall i :: 0 <= i < |PlaceDocument(g.value)| ==> StandsIn(src, PlaceDocument(g.value)[i]))
      && (r.Ok? ==> forall i :: 0 <= i < |g.value| ==> EndsWithItsSet(g.value[i]))
  {
    hide LexSource, FineDocument, PrintDocument, Grammar.ParseDocument, Text, PlaceDocument, StandsIn, EndsWithItsSet,
      Fits;
    var s := Tokenize(src);
    r := ParseExecutableDocument(s);
    if r.Ok? {
      SourcePlaced(src);
    }
  }
}
