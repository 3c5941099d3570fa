/** Tokens and syntax trees of executable GraphQL documents
    (magna-gqlmin `lex.rs`, `error.rs` and the types of `parse/mod.rs`). */
module Syntax {
  import opened Basics

  datatype Span = Span(start: nat, end: nat)

  datatype TokenKind =
    | Bang | Dollar | Amp | LParen | RParen | Spread | Colon | Eq | At
    | LBracket | RBracket | LBrace | Pipe | RBrace
    | NameToken | IntValue | FloatValue | StringValue | BlockStringValue | Eof

  /** A token together with its lexeme. */
  datatype Token = Token(kind: TokenKind, text: string, span: Span)

  datatype ErrorKind =
    | UnexpectedChar | InvalidString | InvalidBlockString | InvalidNumber | InvalidEscape
    | UnexpectedEof | UnexpectedToken | EmptySelectionSet | ExpectedOperationKind | ExpectedName
    | ExpectedColon | ExpectedType | ExpectedValue | ExpectedDollar | ExpectedOnKeyword
    | UnclosedDelimiter | UnknownDefinition

  datatype ParseError = ParseError(span: Span, kind: ErrorKind)

  /** What the lexer delivers: tokens, and then either the end of input at some offset, again and
      again, or a lexical error. */
  datatype Ending = AtEnd(offset: nat) | Broken(error: ParseError)

  datatype RawStream = Stream(tokens: seq<Token>, ending: Ending, length: nat)

  type Stream = s: RawStream | forall i :: 0 <= i < |s.tokens| ==> s.tokens[i].kind != Eof
    witness Stream([], AtEnd(0), 0)

  // ----- trees -----

  datatype Name = Name(value: string, span: Span)

  datatype Value =
    | Variable(name: Name)
    | Int(text: string)
    | Float(text: string)
    | String(raw: string, block: bool, span: Span)
    | Boolean(b: bool)
    | Null
    | Enum(name: Name)
    | List(items: seq<Value>)
    | Object(fields: seq<Entry>)

  /** A named value: an argument, or a field of an object literal. */
  datatype Entry = Entry(name: Name, value: Value)

  datatype Type = Named(name: Name) | ListOf(elem: Type) | NonNull(inner: Type)

  /** `arguments` is `None` without parentheses and `Some([])` for `()`, which the parser accepts. */
  datatype Directive = Directive(name: Name, arguments: Option<seq<Entry>>)

  datatype SelectionSet = SelectionSet(selections: seq<Selection>, span: Span)

  datatype Selection =
    | Field(alias: Option<Name>, name: Name, arguments: Option<seq<Entry>>, directives: seq<Directive>,
            selectionSet: Option<SelectionSet>)
    | FragmentSpread(name: Name, directives: seq<Directive>)
    | InlineFragment(typeCondition: Option<Name>, directives: seq<Directive>, selections: SelectionSet)

  datatype VariableDefinition =
    VariableDefinition(name: Name, varType: Type, default: Option<Value>, directives: seq<Directive>)

  datatype OperationKind = Query | Mutation | Subscription

  datatype Definition =
    | Shorthand(selectionSet: SelectionSet, span: Span)
    | Operation(kind: OperationKind, opName: Option<Name>, variables: Option<seq<VariableDefinition>>,
                directives: seq<Directive>, selectionSet: SelectionSet, span: Span)
    | Fragment(name: Name, typeCondition: Name, directives: seq<Directive>, selectionSet: SelectionSet, span: Span)

  function Keyword(kind: OperationKind): string {
    match kind
    case Query => "query"
    case Mutation => "mutation"
    case Subscription => "subscription"
  }

  function OperationOf(text: string): Option<OperationKind> {
    if text == "query" then Some(Query)
    else if text == "mutation" then Some(Mutation)
    else if text == "subscription" then Some(Subscription)
    else None
  }
}
