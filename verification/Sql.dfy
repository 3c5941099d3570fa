/** Composable SQL fragments (magna-sql `fragment.rs`). */
module Sql {
  import opened Basics
  import opened Decimal

  datatype PgValue =
    | Null | Bool(b: bool) | Int(n: int) | Float(r: real) | Text(s: string) | Uuid(bits: nat)
    | Timestamp(t: int) | Json(text: string) | Array(items: seq<PgValue>)

  datatype SqlPart = Literal(text: string) | Param(index: nat) | Identifier(name: string)

  datatype RawFragment = Fragment(parts: seq<SqlPart>, params: seq<PgValue>)

  /** The parameter slots of a fragment, in text order. */
  function Slots(parts: seq<SqlPart>): seq<nat> {
    if parts == [] then [] else (if parts[0].Param? then [parts[0].index] else []) + Slots(parts[1..])
  }

  predicate InBounds(parts: seq<SqlPart>, n: nat) {
    forall i :: 0 <= i < |parts| && parts[i].Param? ==> parts[i].index < n
  }

  predicate CountsFrom(slots: seq<nat>, first: nat) {
    forall i :: 0 <= i < |slots| ==> slots[i] == first + i
  }

  /** Each parameter is used once, and in text order. */
  predicate Orderly(f: RawFragment) {
    InBounds(f.parts, |f.params|) && |Slots(f.parts)| == |f.params| && CountsFrom(Slots(f.parts), 0)
  }

  type SqlFragment = f: RawFragment | Orderly(f)
    witness Fragment([], [])

  // ----- what a fragment means: text, and values bound at places in the text -----

  datatype Chunk = Fixed(text: string) | Bound(value: PgValue)

  function Doubled(s: string): string {
    if s == [] then [] else (if s[0] == '"' then ['"', '"'] else [s[0]]) + Doubled(s[1..])
  }

  function Quoted(s: string): string {
    ['"'] + Doubled(s) + ['"']
  }

  function ChunkOf(part: SqlPart, params: seq<PgValue>): Chunk
    requires part.Param? ==> part.index < |params|
  {
    match part
    case Literal(s) => Fixed(s)
    case Identifier(s) => Fixed(Quoted(s))
    case Param(i) => Bound(params[i])
  }

  function Chunks(parts: seq<SqlPart>, params: seq<PgValue>): seq<Chunk>
    requires InBounds(parts, |params|)
  {
    seq(|parts|, i requires 0 <= i < |parts| => ChunkOf(parts[i], params))
  }

  function Meaning(f: SqlFragment): seq<Chunk> {
    Chunks(f.parts, f.params)
  }

  /** The text of chunks whose first placeholder is `$c`. */
  function Rendered(chunks: seq<Chunk>, c: nat): string {
    if chunks == [] then [] else RenderedOne(chunks[0], c) + Rendered(chunks[1..], Next(chunks[0], c))
  }

  function RenderedOne(chunk: Chunk, c: nat): string {
    match chunk
    case Fixed(text) => text
    case Bound(_) => "$" + Digits(c)
  }

  function Next(chunk: Chunk, c: nat): nat {
    if chunk.Bound? then c + 1 else c
  }

  function Values(chunks: seq<Chunk>): seq<PgValue> {
    if chunks == [] then [] else
      (if chunks[0].Bound? then [chunks[0].value] else []) + Values(chunks[1..])
  }

  lemma {:induction false} Associative<T>(a: seq<T>, b: seq<T>, c: seq<T>)
    ensures (a + b) + c == a + (b + c)
  {
  }

  /** Taking the head of a concatenation apart. */
  lemma {:induction false} HeadOfConcat<T>(a: seq<T>, b: seq<T>)
    requires a != []
    ensures a + b != [] && (a + b)[0] == a[0] && (a + b)[1..] == a[1..] + b
  {
  }

  lemma {:induction false} ValuesConcat(a: seq<Chunk>, b: seq<Chunk>)
    ensures Values(a + b) == Values(a) + Values(b)
  {
    if a == [] {
      assert a + b == b;
    } else {
      var head := if a[0].Bound? then [a[0].value] else [];
      ValuesConcat(a[1..], b);
      HeadOfConcat(a, b);
      Associative(head, Values(a[1..]), Values(b));
    }
  }

  /** Rendering is a homomorphism: what follows goes on numbering where the first part ended. */
  lemma {:induction false} RenderedConcat(a: seq<Chunk>, b: seq<Chunk>, c: nat)
    ensures Rendered(a + b, c) == Rendered(a, c) + Rendered(b, c + |Values(a)|)
  {
    hide RenderedOne;
    if a == [] {
      assert a + b == b;
    } else {
      RenderedConcat(a[1..], b, Next(a[0], c));
      assert Next(a[0], c) + |Values(a[1..])| == c + |Values(a)|;
      HeadOfConcat(a, b);
      Associative(RenderedOne(a[0], c), Rendered(a[1..], Next(a[0], c)), Rendered(b, c + |Values(a)|));
    }
  }

  // ----- constructors -----

  function Ident(name: string): (f: SqlFragment)
    ensures Meaning(f) == [Fixed(Quoted(name))]
  {
    NoSlots([Identifier(name)]);
    Fragment([Identifier(name)], [])
  }

  function QualifiedIdent(schema: string, name: string): (f: SqlFragment)
    ensures Meaning(f) == [Fixed(Quoted(schema)), Fixed("."), Fixed(Quoted(name))]
  {
    var parts := [Identifier(schema), Literal("."), Identifier(name)];
    NoSlots(parts);
    Fragment(parts, [])
  }

  function ParamOf(v: PgValue): (f: SqlFragment)
    ensures Meaning(f) == [Bound(v)]
  {
    Fragment([Param(0)], [v])
  }

  function Raw(s: string): (f: SqlFragment)
    ensures Meaning(f) == [Fixed(s)]
  {
    NoSlots([Literal(s)]);
    Fragment([Literal(s)], [])
  }

  function Empty(): (f: SqlFragment)
    ensures Meaning(f) == []
  {
    Fragment([], [])
  }

  lemma {:induction false} NoSlots(parts: seq<SqlPart>)
    requires forall p :: p in parts ==> !p.Param?
    ensures Slots(parts) == []
  {
    if parts != [] {
      NoSlots(parts[1..]);
    }
  }

  // ----- composition -----

  function Shifted(parts: seq<SqlPart>, offset: nat): seq<SqlPart> {
    if offset == 0 then parts else seq(|parts|, i requires 0 <= i < |parts| => ShiftedPart(parts[i], offset))
  }

  function ShiftedPart(part: SqlPart, offset: nat): SqlPart {
    match part
    case Param(i) => Param(i + offset)
    case _ => part
  }

  lemma {:induction false} SlotsShifted(parts: seq<SqlPart>, offset: nat)
    ensures |Slots(Shifted(parts, offset))| == |Slots(parts)|
    ensures forall i :: 0 <= i < |Slots(parts)| ==> Slots(Shifted(parts, offset))[i] == Slots(parts)[i] + offset
  {
    if parts != [] && offset != 0 {
      SlotsShifted(parts[1..], offset);
      assert Shifted(parts, offset)[1..] == Shifted(parts[1..], offset);
    }
  }

  lemma {:induction false} SlotsConcat(a: seq<SqlPart>, b: seq<SqlPart>)
    ensures Slots(a + b) == Slots(a) + Slots(b)
  {
    if a == [] {
      assert a + b == b;
    } else {
      var head := if a[0].Param? then [a[0].index] else [];
      SlotsConcat(a[1..], b);
      HeadOfConcat(a, b);
      Associative(head, Slots(a[1..]), Slots(b));
    }
  }

  lemma {:induction false} AppendIsOrderly(a: SqlFragment, b: SqlFragment)
    ensures Orderly(Fragment(a.parts + Shifted(b.parts, |a.params|), a.params + b.params))
  {
    SlotsConcat(a.parts, Shifted(b.parts, |a.params|));
    SlotsShifted(b.parts, |a.params|);
  }

  /** Appending shifts the indices of `b`, and so means what `a` and `b` mean, one after the other. */
  function Append(a: SqlFragment, b: SqlFragment): (f: SqlFragment)
    ensures Meaning(f) == Meaning(a) + Meaning(b)
  {
    AppendIsOrderly(a, b);
    Fragment(a.parts + Shifted(b.parts, |a.params|), a.params + b.params)
  }

  function PushRaw(a: SqlFragment, s: string): (f: SqlFragment)
    ensures Meaning(f) == Meaning(a) + [Fixed(s)]
  {
    SlotsConcat(a.parts, [Literal(s)]);
    Fragment(a.parts + [Literal(s)], a.params)
  }

  function Join(a: SqlFragment, separator: string, b: SqlFragment): (f: SqlFragment)
    ensures Meaning(f) ==
      Meaning(a) + (if Meaning(a) != [] && Meaning(b) != [] then [Fixed(separator)] else []) + Meaning(b)
  {
    Append(if a.parts != [] && b.parts != [] then PushRaw(a, separator) else a, b)
  }

  // ----- the final text -----

  lemma {:induction false} ValuesOfSlots(parts: seq<SqlPart>, params: seq<PgValue>)
    requires InBounds(parts, |params|)
    ensures |Values(Chunks(parts, params))| == |Slots(parts)|
    ensures forall i :: 0 <= i < |Slots(parts)| ==>
      Slots(parts)[i] < |params| && Values(Chunks(parts, params))[i] == params[Slots(parts)[i]]
  {
    if parts != [] {
      ValuesOfSlots(parts[1..], params);
      assert Chunks(parts, params)[1..] == Chunks(parts[1..], params);
    }
  }

  /** The values of a fragment are its parameters, in the order of their places in the text. */
  lemma {:induction false} ParamsAreValues(f: SqlFragment)
    ensures Values(Meaning(f)) == f.params
  {
    ValuesOfSlots(f.parts, f.params);
  }

  /** What one part adds to the text and to the values. */
  lemma {:induction false} PartAdds(f: SqlFragment, i: nat)
    requires i < |f.parts|
    ensures var chunks, part := Meaning(f), f.parts[i];
      var before := Values(chunks[..i]);
      && (part.Param? ==> part.index < |f.params|)
      && Values(chunks[..i+1]) == (if part.Param? then before + [f.params[part.index]] else before)
      && Rendered(chunks[..i+1], 1) == Rendered(chunks[..i], 1) +
           (match part
            case Literal(s) => s
            case Identifier(s) => Quoted(s)
            case Param(_) => "$" + Digits(1 + |before|))
  {
    hide Rendered, Values, Quoted, Digits, Slots;
    OneMore(Meaning(f), i, 1);
    assert Meaning(f)[i] == ChunkOf(f.parts[i], f.params);
    assert Values(Meaning(f)[..i]) + [] == Values(Meaning(f)[..i]);
  }

  method Build(f: SqlFragment) returns (sql: string, params: seq<PgValue>)
    ensures sql == Rendered(Meaning(f), 1)
    ensures params == f.params
  {
    sql, params := "", [];
    var counter := 1;
    ghost var chunks := Meaning(f);
    assert Rendered(chunks[..0], 1) == "" && Values(chunks[..0]) == [] && |chunks| == |f.parts|;
    hide Rendered, Values, Digits, Meaning, Doubled;
    for i := 0 to |f.parts|
      invariant sql == Rendered(chunks[..i], 1)
      invariant params == Values(chunks[..i]) && counter == 1 + |params|
    {
      PartAdds(f, i);
      match f.parts[i] {
        case Literal(s) => sql := sql + s;
        case Identifier(s) => sql := sql + (['"'] + Doubled(s) + ['"']);
        case Param(k) =>
          sql := sql + ("$" + Digits(counter));
          counter := counter + 1;
          params := params + [f.params[k]];
      }
    }
    assert chunks[..|f.parts|] == chunks;
    ParamsAreValues(f);
  }

  lemma {:induction false} OneMore(chunks: seq<Chunk>, i: nat, c: nat)
    requires i < |chunks|
    ensures Rendered(chunks[..i+1], c) == Rendered(chunks[..i], c) + RenderedOne(chunks[i], c + |Values(chunks[..i])|)
    ensures Values(chunks[..i+1]) == Values(chunks[..i]) + if chunks[i].Bound? then [chunks[i].value] else []
  {
    assert chunks[..i+1] == chunks[..i] + [chunks[i]];
    RenderedConcat(chunks[..i], [chunks[i]], c);
    ValuesConcat(chunks[..i], [chunks[i]]);
  }

  /** The `n`-th bound value stands in the text as `$n`, and is the `n`-th of the parameter list. */
  lemma {:induction false} PlaceholderAt(chunks: seq<Chunk>, k: nat)
    requires k < |chunks| && chunks[k].Bound?
    ensures var n := |Values(chunks[..k])| + 1;
      && Rendered(chunks, 1) == Rendered(chunks[..k], 1) + "$" + Digits(n) + Rendered(chunks[k+1..], n + 1)
      && n <= |Values(chunks)| && Values(chunks)[n-1] == chunks[k].value
  {
    hide Rendered, Values, Digits;
    OneMore(chunks, k, 1);
    assert chunks == chunks[..k+1] + chunks[k+1..];
    RenderedConcat(chunks[..k+1], chunks[k+1..], 1);
    ValuesConcat(chunks[..k+1], chunks[k+1..]);
  }

  // ----- identifiers -----

  /** What a reader of SQL takes from after an opening quote: the identifier, and the text after the
      closing quote. */
  function ReadQuoted(s: string): Option<(string, string)> {
    if s == [] then None
    else if s[0] != '"' then Prepend(s[0], ReadQuoted(s[1..]))
    else if |s| > 1 && s[1] == '"' then Prepend('"', ReadQuoted(s[2..]))
    else Some(("", s[1..]))
  }

  function Prepend(c: char, r: Option<(string, string)>): Option<(string, string)> {
    if r.None? then None else Some(([c] + r.value.0, r.value.1))
  }

  /** A quoted identifier, whatever its name, is read back whole and ends where it ends. */
  lemma {:induction false} QuotedReadsBack(name: string, rest: string)
    requires rest == [] || rest[0] != '"'
    ensures Quoted(name)[0] == '"' && ReadQuoted(Quoted(name)[1..] + rest) == Some((name, rest))
  {
    var body := Doubled(name) + ['"'] + rest;
    assert Quoted(name)[1..] + rest == body;
    if name == [] {
      assert body == ['"'] + rest;
      assert body[1..] == rest;
    } else {
      var tail := Doubled(name[1..]) + ['"'] + rest;
      QuotedReadsBack(name[1..], rest);
      assert Quoted(name[1..])[1..] + rest == tail;
      if name[0] == '"' {
        assert body == ['"', '"'] + tail;
        assert body[2..] == tail;
      } else {
        assert body == [name[0]] + tail;
        assert body[1..] == tail;
      }
      assert name == [name[0]] + name[1..];
    }
  }
}
