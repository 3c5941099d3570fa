/** SQL text as words: runs of characters between spaces that stand outside quotes and parentheses. */
module SqlWords {
  import opened Sql

  /** How deep in parentheses, and whether inside quotes. */
  datatype Scan = Scan(depth: int, quoted: bool)

  const Outside := Scan(0, false)

  function Step(st: Scan, c: char): Scan {
    if c == '"' then Scan(st.depth, !st.quoted)
    else if st.quoted then st
    else if c == '(' then Scan(st.depth + 1, false)
    else if c == ')' then Scan(st.depth - 1, false)
    else st
  }

  function Scanned(st: Scan, text: string): Scan
    decreases |text|
  {
    if text == "" then st else Scanned(Step(st, text[0]), text[1..])
  }

  function Split(st: Scan, word: string, text: string): (ws: seq<string>)
    ensures ws != []
    decreases |text|
  {
    if text == "" then [word]
    else if st == Outside && text[0] == ' ' then [word] + Split(Outside, "", text[1..])
    else Split(Step(st, text[0]), word + [text[0]], text[1..])
  }

  function Words(text: string): (ws: seq<string>)
    ensures ws != []
  {
    Split(Outside, "", text)
  }

  function Spaced(ws: seq<string>): string {
    if ws == [] then "" else if |ws| == 1 then ws[0] else ws[0] + " " + Spaced(ws[1..])
  }

  /** Quotes and parentheses are closed. */
  predicate Closed(text: string) {
    Scanned(Outside, text) == Outside
  }

  /** No parenthesis is closed that was not opened. */
  predicate NeverBelow(st: Scan, text: string)
    decreases |text|
  {
    st.depth >= 0 && (text == "" || NeverBelow(Step(st, text[0]), text[1..]))
  }

  predicate Balanced(text: string) {
    Closed(text) && NeverBelow(Outside, text)
  }

  // ----- words and concatenation -----

  lemma {:induction false} Cons(a: string, b: string)
    requires a != ""
    ensures (a + b)[0] == a[0] && (a + b)[1..] == a[1..] + b
  {
  }

  lemma {:induction false} ScannedConcat(st: Scan, a: string, b: string)
    ensures Scanned(st, a + b) == Scanned(Scanned(st, a), b)
    decreases |a|
  {
    if a == "" {
      assert a + b == b;
    } else {
      Cons(a, b);
      ScannedConcat(Step(st, a[0]), a[1..], b);
    }
  }

  lemma {:induction false} ClosedConcat(a: string, b: string)
    requires Closed(a) && Closed(b)
    ensures Closed(a + b)
  {
    ScannedConcat(Outside, a, b);
  }

  /** Joining the words with spaces gives the text back. */
  lemma {:induction false} SpacedSplit(st: Scan, word: string, text: string)
    ensures Spaced(Split(st, word, text)) == word + text
    decreases |text|
  {
    if text == "" {
    } else if st == Outside && text[0] == ' ' {
      SpacedSplit(Outside, "", text[1..]);
      var rest := Split(Outside, "", text[1..]);
      assert ([word] + rest)[1..] == rest;
      assert "" + text[1..] == text[1..];
    } else {
      SpacedSplit(Step(st, text[0]), word + [text[0]], text[1..]);
      assert word + [text[0]] + text[1..] == word + text;
    }
  }

  lemma {:induction false} SpacedWords(text: string)
    ensures Spaced(Words(text)) == text
  {
    SpacedSplit(Outside, "", text);
    assert "" + text == text;
  }

  lemma {:induction false} SplitOver(st: Scan, word: string, a: string, b: string)
    requires Scanned(st, a) == Outside
    ensures Split(st, word, a + (" " + b)) == Split(st, word, a) + Words(b)
    decreases |a|
  {
    var rest := " " + b;
    if a == "" {
      assert a + rest == rest && rest[1..] == b;
    } else {
      Cons(a, rest);
      if st == Outside && a[0] == ' ' {
        SplitOver(Outside, "", a[1..], b);
        assert [word] + (Split(Outside, "", a[1..]) + Words(b)) == [word] + Split(Outside, "", a[1..]) + Words(b);
      } else {
        SplitOver(Step(st, a[0]), word + [a[0]], a[1..], b);
      }
    }
  }

  /** A space after closed text separates the words before it from those after it. */
  lemma {:induction false} WordsOver(a: string, b: string)
    requires Closed(a)
    ensures Words(a + (" " + b)) == Words(a) + Words(b)
    ensures Closed(b) ==> Closed(a + (" " + b))
  {
    SplitOver(Outside, "", a, b);
    ScannedConcat(Outside, a, " " + b);
    ScannedConcat(Outside, " ", b);
    assert " "[1..] == "";
  }

  function WithComma(ws: seq<string>): seq<string>
    requires ws != []
  {
    ws[..|ws|-1] + [ws[|ws|-1] + ","]
  }

  lemma {:induction false} SplitComma(st: Scan, word: string, a: string)
    requires Scanned(st, a) == Outside
    ensures Split(st, word, a + ",") == WithComma(Split(st, word, a))
    decreases |a|
  {
    if a == "" {
      assert a + "," == ",";
      assert ","[1..] == "";
    } else {
      Cons(a, ",");
      if st == Outside && a[0] == ' ' {
        SplitComma(Outside, "", a[1..]);
      } else {
        SplitComma(Step(st, a[0]), word + [a[0]], a[1..]);
      }
    }
  }

  lemma {:induction false} WordsComma(a: string)
    requires Closed(a)
    ensures Words(a + ",") == WithComma(Words(a)) && Closed(a + ",")
  {
    SplitComma(Outside, "", a);
    ScannedConcat(Outside, a, ",");
    assert ","[1..] == "";
  }

  // ----- single words -----

  /** No space stands outside quotes and parentheses. */
  predicate Solid(st: Scan, text: string)
    decreases |text|
  {
    text == "" || (!(st == Outside && text[0] == ' ') && Solid(Step(st, text[0]), text[1..]))
  }

  lemma {:induction false} SolidSplit(st: Scan, word: string, text: string)
    requires Solid(st, text)
    ensures Split(st, word, text) == [word + text]
    decreases |text|
  {
    if text == "" {
      assert word + text == word;
    } else {
      SolidSplit(Step(st, text[0]), word + [text[0]], text[1..]);
      assert word + [text[0]] + text[1..] == word + text;
    }
  }

  lemma {:induction false} SolidConcat(st: Scan, a: string, b: string)
    requires Solid(st, a) && Solid(Scanned(st, a), b)
    ensures Solid(st, a + b)
    decreases |a|
  {
    if a == "" {
      assert a + b == b;
    } else {
      Cons(a, b);
      SolidConcat(Step(st, a[0]), a[1..], b);
    }
  }

  ghost predicate IsWord(text: string) {
    Closed(text) && Words(text) == [text]
  }

  lemma {:induction false} SolidIsWord(text: string)
    requires Closed(text) && Solid(Outside, text)
    ensures IsWord(text)
  {
    SolidSplit(Outside, "", text);
    assert "" + text == text;
  }

  /** Text without spaces, quotes and parentheses. */
  predicate Inert(text: string) {
    forall i :: 0 <= i < |text| ==> text[i] != ' ' && text[i] != '"' && text[i] != '(' && text[i] != ')'
  }

  lemma {:induction false} InertIsSolid(st: Scan, text: string)
    requires Inert(text)
    ensures Solid(st, text) && Scanned(st, text) == st
    decreases |text|
  {
    if text != "" {
      InertIsSolid(st, text[1..]);
    }
  }

  lemma {:induction false} InertIsWord(text: string)
    requires Inert(text)
    ensures IsWord(text)
  {
    InertIsSolid(Outside, text);
    SolidIsWord(text);
  }

  lemma {:induction false} DoubledIsSolid(depth: int, s: string)
    ensures Solid(Scan(depth, true), Doubled(s)) && Scanned(Scan(depth, true), Doubled(s)) == Scan(depth, true)
  {
    if s != "" {
      DoubledIsSolid(depth, s[1..]);
      var rest := Doubled(s[1..]);
      if s[0] == '"' {
        assert Doubled(s) == ['"', '"'] + rest;
        assert Doubled(s)[1..] == ['"'] + rest;
        assert Doubled(s)[1..][1..] == rest;
      } else {
        assert Doubled(s) == [s[0]] + rest;
        assert Doubled(s)[1..] == rest;
      }
    }
  }

  /** A quoted identifier is one word, whatever its name. */
  lemma {:induction false} QuotedIsSolid(depth: int, s: string)
    ensures Solid(Scan(depth, false), Quoted(s)) && Scanned(Scan(depth, false), Quoted(s)) == Scan(depth, false)
  {
    var body := Doubled(s) + ['"'];
    assert Quoted(s) == ['"'] + body;
    assert Quoted(s)[1..] == body;
    DoubledIsSolid(depth, s);
    assert ['"'][1..] == "";
    SolidConcat(Scan(depth, true), Doubled(s), ['"']);
    ScannedConcat(Scan(depth, true), Doubled(s), ['"']);
  }

  lemma {:induction false} QuotedIsWord(s: string)
    ensures IsWord(Quoted(s))
  {
    QuotedIsSolid(0, s);
    SolidIsWord(Quoted(s));
  }

  lemma {:induction false} JoinedIsWord(a: string, b: string)
    requires Solid(Outside, a) && Closed(a) && Solid(Outside, b) && Closed(b)
    ensures Solid(Outside, a + b) && IsWord(a + b)
  {
    SolidConcat(Outside, a, b);
    ClosedConcat(a, b);
    SolidIsWord(a + b);
  }

  lemma {:induction false} TableIsWord(schema: string, table: string)
    ensures IsWord(Quoted(schema) + ("." + Quoted(table)))
  {
    QuotedIsSolid(0, schema);
    QuotedIsSolid(0, table);
    InertIsSolid(Outside, ".");
    JoinedIsWord(".", Quoted(table));
    JoinedIsWord(Quoted(schema), "." + Quoted(table));
  }

  // ----- parentheses -----

  function Deeper(st: Scan): Scan {
    Scan(st.depth + 1, st.quoted)
  }

  lemma {:induction false} DeeperIsSolid(st: Scan, text: string)
    requires NeverBelow(st, text)
    ensures Solid(Deeper(st), text) && Scanned(Deeper(st), text) == Deeper(Scanned(st, text))
    decreases |text|
  {
    if text != "" {
      DeeperIsSolid(Step(st, text[0]), text[1..]);
    }
  }

  /** Balanced text in parentheses is one word. */
  lemma {:induction false} WrappedIsWord(text: string)
    requires Balanced(text)
    ensures IsWord("(" + text + ")")
  {
    var rest := text + ")";
    assert "(" + text + ")" == "(" + rest;
    assert ("(" + rest)[1..] == rest;
    DeeperIsSolid(Outside, text);
    assert ")"[1..] == "";
    SolidConcat(Deeper(Outside), text, ")");
    ScannedConcat(Deeper(Outside), text, ")");
    SolidIsWord("(" + rest);
  }

  /** Text without quotes and parentheses. */
  predicate Plain(text: string) {
    forall i :: 0 <= i < |text| ==> text[i] != '"' && text[i] != '(' && text[i] != ')'
  }

  lemma {:induction false} PlainIsBalanced(text: string)
    requires Plain(text)
    ensures Balanced(text)
    decreases |text|
  {
    if text != "" {
      PlainIsBalanced(text[1..]);
    }
  }

  lemma {:induction false} NeverBelowConcat(st: Scan, a: string, b: string)
    requires NeverBelow(st, a) && NeverBelow(Scanned(st, a), b)
    ensures NeverBelow(st, a + b)
    decreases |a|
  {
    if a == "" {
      assert a + b == b;
    } else {
      Cons(a, b);
      NeverBelowConcat(Step(st, a[0]), a[1..], b);
    }
  }

  lemma {:induction false} BalancedConcat(a: string, b: string)
    requires Balanced(a) && Balanced(b)
    ensures Balanced(a + b)
  {
    ScannedConcat(Outside, a, b);
    NeverBelowConcat(Outside, a, b);
  }

  lemma {:induction false} DoubledNeverBelow(s: string)
    ensures NeverBelow(Scan(0, true), Doubled(s))
  {
    if s != "" {
      DoubledNeverBelow(s[1..]);
      var rest := Doubled(s[1..]);
      if s[0] == '"' {
        assert Doubled(s) == ['"', '"'] + rest;
        assert Doubled(s)[1..] == ['"'] + rest;
        assert Doubled(s)[1..][1..] == rest;
      } else {
        assert Doubled(s) == [s[0]] + rest;
        assert Doubled(s)[1..] == rest;
      }
    }
  }

  lemma {:induction false} QuotedIsBalanced(s: string)
    ensures Balanced(Quoted(s))
  {
    QuotedIsSolid(0, s);
    DoubledIsSolid(0, s);
    DoubledNeverBelow(s);
    assert ['"'][1..] == "";
    NeverBelowConcat(Scan(0, true), Doubled(s), ['"']);
    assert Quoted(s)[1..] == Doubled(s) + ['"'];
  }

  // ----- text that goes on after a space -----

  /** `text` is empty, or begins with a space and adds the words `ws`. */
  ghost predicate Tail(text: string, ws: seq<string>) {
    if text == "" then ws == [] else text[0] == ' ' && Closed(text[1..]) && Words(text[1..]) == ws
  }

  lemma {:induction false} TailOf(text: string, ws: seq<string>)
    requires Closed(text) && Words(text) == ws
    ensures Tail(" " + text, ws)
  {
    assert (" " + text)[1..] == text;
  }

  lemma {:induction false} TailAfter(a: string, text: string, ws: seq<string>)
    requires Closed(a) && Tail(text, ws)
    ensures Closed(a + text) && Words(a + text) == Words(a) + ws
  {
    if text == "" {
      assert a + text == a;
    } else {
      WordsOver(a, text[1..]);
      assert text == " " + text[1..];
    }
  }

  lemma {:induction false} TailConcat(a: string, v: seq<string>, b: string, w: seq<string>)
    requires Tail(a, v) && Tail(b, w)
    ensures Tail(a + b, v + w)
  {
    if a == "" {
      assert a + b == b && v + w == w;
    } else {
      TailAfter(a[1..], b, w);
      Cons(a, b);
    }
  }
}
