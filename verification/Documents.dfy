/** Parsing an executable document into an arena, end to end (magna-gqlmin `parse/mod.rs`). */
module Documents {
  import opened Basics
  import opened Syntax
  import opened Arena
  import opened ArenaParser
  import opened Printer
  import Grammar = TreeParser
  import opened Reading
  import opened Partition
  import opened Decoding
  import opened Soundness
  import opened Roundtrip
  import opened Positions

  /** The document's ranges partition its arena; through them it reads as the tree of which the tokens
      are the printed form, at the positions that it gives them, and as no other; without a lexical error,
      parsing succeeds exactly on printed well-formed trees. */
  method ParseExecutableDocument(s: Stream) returns (r: Result<Document, ParseError>)
    ensures r.Err? <==> Grammar.ParseDocument(s).Fail?
    ensures r.Err? ==> Grammar.ParseDocument(s).error == r.error
    ensures r.Ok? ==>
      var defs := Grammar.ParseDocument(s).value;
      ReadsDocument(r.value, defs) && FineDocument(defs) && Text(s, 0, |s.tokens|) == PrintDocument(defs)
    ensures r.Ok? ==>
      var defs := Grammar.ParseDocument(s).value;
      && Fits(s, 0, |s.tokens|, PlaceDocument(defs))
      && forall i :: 0 <= i < |defs| ==> EndsWithItsSet(defs[i])
    ensures r.Ok? ==> IsPartitioned(r.value)
    ensures r.Ok? ==> forall other :: ReadsDocument(r.value, other) ==>
      LooseDocument(other) == LooseDocument(Grammar.ParseDocument(s).value)
    ensures Ends(s) ==>
      (r.Ok? <==> exists defs :: FineDocument(defs) && Text(s, 0, |s.tokens|) == PrintDocument(defs))
  {
    hide Grammar.ParseDocument, LayDocument, ReadsDocument, FineDocument, PrintDocument, Text, IsPartitioned,
      LooseDocument, PlaceDocument, Fits, EndsWithItsSet;
    var p := new Parser(s);
    r := p.ParseDocument();
    if r.Ok? {
      DocumentReads(Grammar.ParseDocument(s).value);
      DocumentSound(s);
      DocumentPlaced(s);
      LaidIsPartitioned(Grammar.ParseDocument(s).value);
      forall other | ReadsDocument(r.value, other)
        ensures LooseDocument(other) == LooseDocument(Grammar.ParseDocument(s).value)
      {
        DocumentReadsOnce(r.value, other, Grammar.ParseDocument(s).value);
      }
    }
    if Ends(s) {
      AcceptedLanguage(s);
    }
  }

  /** A printed well-formed document, at any positions, comes back out of the arena. */
  lemma {:induction false} ArenaRoundTrip(s: Stream, defs: seq<Definition>)
    requires Ends(s) && FineDocument(defs) && Text(s, 0, |s.tokens|) == PrintDocument(defs)
    ensures var g := Grammar.ParseDocument(s);
      g.Done? && ReadsDocument(LayDocument(g.value), g.value) && PlainDocument(g.value) == PlainDocument(defs)
  {
    hide Grammar.ParseDocument, LayDocument, ReadsDocument, FineDocument, PrintDocument, Text, PlainDocument;
    DocumentReturns(s, defs);
    DocumentReads(Grammar.ParseDocument(s).value);
  }
}
