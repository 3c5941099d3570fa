/** The batched mode of the Postgres select step (magna-dataplan `pg_select.rs`), with the way its id
    array is bound (`codec.rs`). */
module PgSelect {
  import opened Basics
  import opened Steps
  import opened Sql

  type PgRow = map<string, PgValue>

  /** What a parent step delivers in one slot. */
  datatype Parent = RowParent(row: PgRow) | OtherParent

  datatype Kind =
    | NullKind | BoolKind | IntKind | FloatKind | TextKind | UuidKind | TimestampKind | JsonKind | ArrayKind

  datatype LoadError = WrongKind(column: Kind, bound: Kind)

  function KindOf(v: PgValue): Kind {
    match v
    case Null => NullKind
    case Bool(_) => BoolKind
    case Int(_) => IntKind
    case Float(_) => FloatKind
    case Text(_) => TextKind
    case Uuid(_) => UuidKind
    case Timestamp(_) => TimestampKind
    case Json(_) => JsonKind
    case Array(_) => ArrayKind
  }

  // ----- the database -----

  /** The column holds values of one kind, and nulls. */
  predicate IsColumn(table: seq<PgRow>, fk: string, kind: Kind) {
    forall i :: 0 <= i < |table| ==> fk in table[i] && KindOf(table[i][fk]) in {NullKind, kind}
  }

  function Project(cols: seq<string>, row: PgRow): PgRow {
    if cols == [] then row else map c | c in row && c in cols :: row[c]
  }

  predicate IsAmong(row: PgRow, fk: string, ids: seq<PgValue>) {
    fk in row && !row[fk].Null? && row[fk] in ids
  }

  /** `SELECT cols FROM table WHERE fk = ANY(ids)`, in table order. */
  function SelectAny(table: seq<PgRow>, cols: seq<string>, fk: string, ids: seq<PgValue>): seq<PgRow> {
    if table == [] then [] else
      var n := |table| - 1;
      SelectAny(table[..n], cols, fk, ids) + (if IsAmong(table[n], fk, ids) then [Project(cols, table[n])] else [])
  }

  /** `SELECT cols FROM table`. */
  function SelectAll(table: seq<PgRow>, cols: seq<string>): seq<PgRow> {
    if table == [] then [] else SelectAll(table[..|table|-1], cols) + [Project(cols, table[|table|-1])]
  }

  /** The children of one parent: the rows whose foreign key is its id, in table order. */
  function SelectOwn(table: seq<PgRow>, cols: seq<string>, fk: string, id: PgValue): seq<PgRow> {
    SelectAny(table, cols, fk, [id])
  }

  function IsChild(fk: string, id: PgValue): PgRow -> bool {
    row => id != Null && fk in row && row[fk] == id
  }

  function InColumns(cols: seq<string>): PgRow -> PgRow {
    row => Project(cols, row)
  }

  /** The children of a parent are all the rows whose foreign key is its id, each once and in table order, cut down
      to the selected columns. */
  lemma {:induction false} SelectOwnIs(table: seq<PgRow>, cols: seq<string>, fk: string, id: PgValue)
    ensures IsSelection(table, IsChild(fk, id), InColumns(cols), SelectOwn(table, cols, fk, id))
  {
    hide IsSelection, Project;
    if table == [] {
      EmptySelection(IsChild(fk, id), InColumns(cols));
    } else {
      var n := |table| - 1;
      var before := SelectOwn(table[..n], cols, fk, id);
      SelectOwnIs(table[..n], cols, fk, id);
      SelectionGrows(table[..n], IsChild(fk, id), InColumns(cols), before, table[n]);
      assert table == table[..n] + [table[n]];
      assert SelectOwn(table, cols, fk, id) ==
        if IsChild(fk, id)(table[n]) then before + [InColumns(cols)(table[n])] else before;
    }
  }

  // ----- binding the ids -----

  /** The element type of the bound array: decided by the first id, and text for all kinds but four. */
  function BoundKind(first: PgValue): Kind {
    if first.Int? || first.Text? || first.Uuid? || first.Bool? then KindOf(first) else TextKind
  }

  function OfKind(kind: Kind, ids: seq<PgValue>): seq<PgValue> {
    if ids == [] then [] else
      OfKind(kind, ids[..|ids|-1]) + (if KindOf(ids[|ids|-1]) == kind then [ids[|ids|-1]] else [])
  }

  /** Texts stay, and anything else becomes its debug text. */
  function AsTexts(debug: PgValue -> string, ids: seq<PgValue>): seq<PgValue> {
    seq(|ids|, i requires 0 <= i < |ids| => if ids[i].Text? then ids[i] else Text(debug(ids[i])))
  }

  /** The values that reach the database. */
  function BoundIds(debug: PgValue -> string, ids: seq<PgValue>): seq<PgValue>
    requires ids != []
  {
    if ids[0].Int? || ids[0].Text? || ids[0].Uuid? || ids[0].Bool? then OfKind(KindOf(ids[0]), ids)
    else AsTexts(debug, ids)
  }

  /** The query. The database refuses to compare the column with an array of another kind. */
  function Load(debug: PgValue -> string, table: seq<PgRow>, kind: Kind, cols: seq<string>, fk: string,
                ids: seq<PgValue>)
    : Result<seq<PgRow>, LoadError>
  {
    if ids == [] then Ok(SelectAll(table, cols))
    else if BoundKind(ids[0]) != kind then Err(WrongKind(kind, BoundKind(ids[0])))
    else Ok(SelectAny(table, cols, fk, BoundIds(debug, ids)))
  }

  // ----- the step -----

  /** The equality that the step partitions by. */
  predicate PgValueEq(a: PgValue, b: PgValue) {
    match (a, b)
    case (Bool(x), Bool(y)) => x == y
    case (Int(x), Int(y)) => x == y
    case (Float(x), Float(y)) => x == y
    case (Text(x), Text(y)) => x == y
    case (Uuid(x), Uuid(y)) => x == y
    case _ => false
  }

  function Matching(rows: seq<PgRow>, fk: string, id: PgValue): seq<PgRow> {
    if rows == [] then [] else
      var n := |rows| - 1;
      Matching(rows[..n], fk, id) + (if fk in rows[n] && PgValueEq(rows[n][fk], id) then [rows[n]] else [])
  }

  function IdOf(pk: string, parent: Parent): Option<PgValue> {
    if parent.RowParent? && pk in parent.row then Some(parent.row[pk]) else None
  }

  /** The ids that go into the query: of parents in good order, the keys that are not null. */
  function ParentIds(pk: string, parents: seq<Parent>, flags: seq<StepFlags>): seq<PgValue>
    requires |parents| == |flags|
  {
    if parents == [] then [] else
      var n := |parents| - 1;
      var id := IdOf(pk, parents[n]);
      ParentIds(pk, parents[..n], flags[..n]) +
      (if IsValue(flags[n]) && id.Some? && !id.value.Null? then [id.value] else [])
  }

  /** What one slot holds. */
  function Slot(rows: seq<PgRow>, fk: string, pk: string, parent: Parent, flag: StepFlags): seq<PgRow> {
    if !IsValue(flag) || IdOf(pk, parent).None? then [] else Matching(rows, fk, IdOf(pk, parent).value)
  }

  function AllSlots(rows: seq<PgRow>, fk: string, pk: string, parents: seq<Parent>,
                    flags: seq<StepFlags>): seq<seq<PgRow>>
    requires |parents| == |flags|
  {
    seq(|parents|, i requires 0 <= i < |parents| => Slot(rows, fk, pk, parents[i], flags[i]))
  }

  /** The output values of the step, or the error that fails it as a whole. */
  function Output(debug: PgValue -> string, table: seq<PgRow>, kind: Kind, cols: seq<string>, fk: string, pk: string,
                  parents: seq<Parent>, flags: seq<StepFlags>)
    : Result<seq<seq<PgRow>>, LoadError>
    requires |parents| == |flags|
  {
    var rows := Load(debug, table, kind, cols, fk, ParentIds(pk, parents, flags));
    if rows.Err? then Err(rows.error) else Ok(AllSlots(rows.value, fk, pk, parents, flags))
  }

  method ExecuteSelect(debug: PgValue -> string, table: seq<PgRow>, kind: Kind, cols: seq<string>, fk: string,
                       pk: string,
                       parents: seq<Parent>, flags: seq<StepFlags>)
    returns (r: Result<(seq<seq<PgRow>>, seq<StepFlags>), LoadError>)
    requires |parents| == |flags|
    ensures r.Err? ==> Output(debug, table, kind, cols, fk, pk, parents, flags) == Err(r.error)
    ensures r.Ok? ==> Output(debug, table, kind, cols, fk, pk, parents, flags) == Ok(r.value.0) && r.value.1 == flags
    ensures r.Ok? ==> |r.value.0| == |parents| && forall i :: 0 <= i < |parents| ==>
      (flags[i] != NONE || !parents[i].RowParent? || pk !in parents[i].row ==> r.value.0[i] == [])
  {
    hide Load, ParentIds, Matching;
    var loaded := Load(debug, table, kind, cols, fk, ParentIds(pk, parents, flags));
    if loaded.Err? {
      return Err(loaded.error);
    }
    var rows, values, flags' := loaded.value, [], [];
    for i := 0 to |parents|
      invariant |values| == i && flags' == flags[..i]
      invariant forall j :: 0 <= j < i ==> values[j] == Slot(rows, fk, pk, parents[j], flags[j])
    {
      if !IsValue(flags[i]) {
        values, flags' := values + [[]], flags' + [flags[i]];
        continue;
      }
      var id := IdOf(pk, parents[i]);
      values := values + [if id.Some? then Matching(rows, fk, id.value) else []];
      flags' := flags' + [NONE];
    }
    assert values == AllSlots(rows, fk, pk, parents, flags);
    r := Ok((values, flags'));
  }

  // ----- partitioning -----

  /** The foreign key comes back with the rows, so that they can be partitioned by it. */
  predicate Visible(cols: seq<string>, fk: string) {
    cols == [] || fk in cols
  }

  predicate Handled(v: PgValue) {
    v.Bool? || v.Int? || v.Float? || v.Text? || v.Uuid?
  }

  lemma {:induction false} PartitionEquality(a: PgValue, b: PgValue)
    ensures PgValueEq(a, b) <==> Handled(b) && a == b
  {
  }

  lemma {:induction false} MatchingStep(rows: seq<PgRow>, row: PgRow, cols: seq<string>, fk: string, id: PgValue)
    ensures Matching(rows + [Project(cols, row)], fk, id) == Matching(rows, fk, id) +
      (if Visible(cols, fk) && fk in row && Handled(id) && row[fk] == id then [Project(cols, row)] else [])
  {
    var p := Project(cols, row);
    assert (rows + [p])[..|rows|] == rows && (rows + [p])[|rows|] == p;
    assert fk in p <==> Visible(cols, fk) && fk in row;
    if fk in p {
      assert p[fk] == row[fk];
      PartitionEquality(p[fk], id);
    }
    hide PgValueEq, Project;
  }

  /** Partitioning what was fetched for many ids. */
  lemma {:induction false} MatchingOfAny(table: seq<PgRow>, cols: seq<string>, fk: string, ids: seq<PgValue>,
                                         id: PgValue)
    ensures !Visible(cols, fk) || !Handled(id) ==> Matching(SelectAny(table, cols, fk, ids), fk, id) == []
    ensures id in ids && Visible(cols, fk) && Handled(id) ==>
      Matching(SelectAny(table, cols, fk, ids), fk, id) == SelectOwn(table, cols, fk, id)
  {
    if table != [] {
      var n := |table| - 1;
      MatchingOfAny(table[..n], cols, fk, ids, id);
      var rows := SelectAny(table[..n], cols, fk, ids);
      hide Matching, Project, PgValueEq;
      if IsAmong(table[n], fk, ids) {
        MatchingStep(rows, table[n], cols, fk, id);
      } else {
        assert SelectAny(table, cols, fk, ids) == rows;
      }
    }
  }

  /** An id of another kind than the column is in no row. */
  lemma {:induction false} ForeignOwn(table: seq<PgRow>, kind: Kind, cols: seq<string>, fk: string, id: PgValue)
    requires IsColumn(table, fk, kind) && KindOf(id) != kind
    ensures SelectOwn(table, cols, fk, id) == []
  {
    hide Project;
    if table != [] {
      ForeignOwn(table[..|table|-1], kind, cols, fk, id);
    }
  }

  lemma {:induction false} ForeignAny(table: seq<PgRow>, kind: Kind, cols: seq<string>, fk: string, ids: seq<PgValue>,
                                      id: PgValue)
    requires IsColumn(table, fk, kind) && KindOf(id) != kind
    ensures Matching(SelectAny(table, cols, fk, ids), fk, id) == []
  {
    hide Matching, Project;
    if table == [] {
      MatchingNothing(fk, id);
    } else {
      var n := |table| - 1;
      ForeignAny(table[..n], kind, cols, fk, ids, id);
      MatchingForeign(SelectAny(table[..n], cols, fk, ids), table[n], kind, cols, fk, id);
      assert SelectAny(table[..n], cols, fk, ids) + [] == SelectAny(table[..n], cols, fk, ids);
    }
  }

  lemma {:induction false} ForeignAll(table: seq<PgRow>, kind: Kind, cols: seq<string>, fk: string, id: PgValue)
    requires IsColumn(table, fk, kind) && KindOf(id) != kind
    ensures Matching(SelectAll(table, cols), fk, id) == []
  {
    hide Matching, Project;
    if table == [] {
      MatchingNothing(fk, id);
    } else {
      var n := |table| - 1;
      ForeignAll(table[..n], kind, cols, fk, id);
      MatchingForeign(SelectAll(table[..n], cols), table[n], kind, cols, fk, id);
    }
  }

  lemma {:induction false} MatchingNothing(fk: string, id: PgValue)
    ensures Matching([], fk, id) == []
  {
  }

  lemma {:induction false} MatchingForeign(rows: seq<PgRow>, row: PgRow, kind: Kind, cols: seq<string>, fk: string,
                                           id: PgValue)
    requires fk in row && KindOf(row[fk]) in {NullKind, kind} && KindOf(id) != kind
    ensures Matching(rows + [Project(cols, row)], fk, id) == Matching(rows, fk, id)
  {
    hide Matching, Project;
    MatchingStep(rows, row, cols, fk, id);
    assert !(Handled(id) && row[fk] == id);
  }

  lemma {:induction false} IdsHave(pk: string, parents: seq<Parent>, flags: seq<StepFlags>, i: nat)
    requires |parents| == |flags| && i < |parents|
    requires IsValue(flags[i]) && IdOf(pk, parents[i]).Some? && !IdOf(pk, parents[i]).value.Null?
    ensures IdOf(pk, parents[i]).value in ParentIds(pk, parents, flags)
  {
    if i < |parents| - 1 {
      IdsHave(pk, parents[..|parents|-1], flags[..|parents|-1], i);
    }
  }

  lemma {:induction false} OfKindHas(kind: Kind, ids: seq<PgValue>, id: PgValue)
    requires id in ids && KindOf(id) == kind
    ensures id in OfKind(kind, ids)
  {
    var n := |ids| - 1;
    if id != ids[n] {
      OfKindHas(kind, ids[..n], id);
    }
  }

  /** An id of the kind that is bound reaches the database. */
  lemma {:induction false} BoundHas(debug: PgValue -> string, ids: seq<PgValue>, id: PgValue)
    requires id in ids && KindOf(id) == BoundKind(ids[0])
    ensures id in BoundIds(debug, ids) && Handled(id)
  {
    if BoundKind(ids[0]) == KindOf(ids[0]) {
      OfKindHas(KindOf(ids[0]), ids, id);
    } else {
      var i :| 0 <= i < |ids| && ids[i] == id;
      assert AsTexts(debug, ids)[i] == id;
    }
  }

  // ----- batching against one query per parent -----

  /** Slot `i` holds the children of parent `i`. */
  ghost predicate GivesOwn(debug: PgValue -> string, table: seq<PgRow>, kind: Kind, cols: seq<string>, fk: string,
                           pk: string,
                           parents: seq<Parent>, flags: seq<StepFlags>, i: nat)
    requires |parents| == |flags| && i < |parents| && IdOf(pk, parents[i]).Some?
  {
    var out := Output(debug, table, kind, cols, fk, pk, parents, flags);
    out.Ok? && out.value[i] == SelectOwn(table, cols, fk, IdOf(pk, parents[i]).value)
  }

  /** The database takes the bound ids: there are none, or the first one decides for the column's kind. */
  predicate Binds(kind: Kind, ids: seq<PgValue>) {
    ids == [] || BoundKind(ids[0]) == kind
  }

  /** The rows that a query whose ids bind brings back. */
  function Fetched(debug: PgValue -> string, table: seq<PgRow>, cols: seq<string>, fk: string,
                   ids: seq<PgValue>): seq<PgRow> {
    if ids == [] then SelectAll(table, cols) else SelectAny(table, cols, fk, BoundIds(debug, ids))
  }

  lemma {:induction false} OutputIs(debug: PgValue -> string, table: seq<PgRow>, kind: Kind, cols: seq<string>,
                                    fk: string,
                                    pk: string, parents: seq<Parent>, flags: seq<StepFlags>)
    requires |parents| == |flags|
    ensures var out, ids := Output(debug, table, kind, cols, fk, pk, parents, flags), ParentIds(pk, parents, flags);
      && (out.Ok? <==> Binds(kind, ids))
      && (out.Ok? ==> out.value == AllSlots(Fetched(debug, table, cols, fk, ids), fk, pk, parents, flags))
  {
    hide ParentIds, SelectAny, SelectAll, AllSlots, BoundIds, BoundKind;
  }

  lemma {:induction false} GivesOwnWhen(debug: PgValue -> string, table: seq<PgRow>, kind: Kind, cols: seq<string>,
                                        fk: string,
                                        pk: string, parents: seq<Parent>, flags: seq<StepFlags>, i: nat)
    requires |parents| == |flags| && i < |parents| && IsValue(flags[i]) && IdOf(pk, parents[i]).Some?
    requires kind != NullKind && IsColumn(table, fk, kind) && Binds(kind, ParentIds(pk, parents, flags))
    requires KindOf(IdOf(pk, parents[i]).value) == kind ==> Visible(cols, fk)
    ensures GivesOwn(debug, table, kind, cols, fk, pk, parents, flags, i)
  {
    hide Output, ParentIds, SelectAny, SelectAll, SelectOwn, Matching, BoundIds, IsColumn, Visible, IdOf;
    OutputIs(debug, table, kind, cols, fk, pk, parents, flags);
    var id, ids := IdOf(pk, parents[i]).value, ParentIds(pk, parents, flags);
    if KindOf(id) == kind {
      IdsHave(pk, parents, flags, i);
      BoundHas(debug, ids, id);
      MatchingOfAny(table, cols, fk, BoundIds(debug, ids), id);
    } else {
      ForeignOwn(table, kind, cols, fk, id);
      ForeignAll(table, kind, cols, fk, id);
      if ids != [] {
        ForeignAny(table, kind, cols, fk, BoundIds(debug, ids), id);
      }
    }
  }

  /** A table on which the batch does not give parent `i` its children, when the condition fails. */
  lemma {:induction false} LosesOwn(debug: PgValue -> string, kind: Kind, cols: seq<string>, fk: string, pk: string,
                                    parents: seq<Parent>, flags: seq<StepFlags>, i: nat)
    returns (table: seq<PgRow>)
    requires |parents| == |flags| && i < |parents| && IsValue(flags[i]) && IdOf(pk, parents[i]).Some?
    requires kind != NullKind
    requires !Binds(kind, ParentIds(pk, parents, flags)) ||
             (KindOf(IdOf(pk, parents[i]).value) == kind && !Visible(cols, fk))
    ensures IsColumn(table, fk, kind) && !GivesOwn(debug, table, kind, cols, fk, pk, parents, flags, i)
  {
    var id, ids := IdOf(pk, parents[i]).value, ParentIds(pk, parents, flags);
    hide Output, ParentIds, SelectAny, SelectAll, SelectOwn, Matching, BoundIds, Visible, IdOf, Project, BoundKind;
    if !Binds(kind, ids) {
      table := [];
      OutputIs(debug, table, kind, cols, fk, pk, parents, flags);
    } else {
      table := [map[fk := id]];
      LosesOne(debug, table, kind, cols, fk, pk, parents, flags, i);
    }
  }

  lemma {:induction false} LosesOne(debug: PgValue -> string, table: seq<PgRow>, kind: Kind, cols: seq<string>,
                                    fk: string,
                                    pk: string, parents: seq<Parent>, flags: seq<StepFlags>, i: nat)
    requires |parents| == |flags| && i < |parents| && IsValue(flags[i]) && IdOf(pk, parents[i]).Some?
    requires kind != NullKind && Binds(kind, ParentIds(pk, parents, flags)) && !Visible(cols, fk)
    requires KindOf(IdOf(pk, parents[i]).value) == kind && table == [map[fk := IdOf(pk, parents[i]).value]]
    ensures !GivesOwn(debug, table, kind, cols, fk, pk, parents, flags, i)
  {
    var id, ids := IdOf(pk, parents[i]).value, ParentIds(pk, parents, flags);
    hide Output, ParentIds, SelectAny, SelectAll, SelectOwn, Matching, BoundIds, Visible, IdOf, Project, BoundKind;
    OutputIs(debug, table, kind, cols, fk, pk, parents, flags);
    OneRow(table[0], cols, fk, id);
    IdsHave(pk, parents, flags, i);
    MatchingOfAny(table, cols, fk, BoundIds(debug, ids), id);
  }

  /** When exactly a parent in good order gets from the batch, on every table whose foreign key has the
      given kind, what its own query would give: the ids bind as that kind, and the foreign key is among
      the selected columns if the parent's id is of that kind at all. */
  lemma {:induction false} SelectIsPerParent(debug: PgValue -> string, kind: Kind, cols: seq<string>, fk: string,
                                             pk: string,
                                             parents: seq<Parent>, flags: seq<StepFlags>, i: nat)
    requires |parents| == |flags| && i < |parents| && IsValue(flags[i]) && IdOf(pk, parents[i]).Some?
    requires kind != NullKind
    ensures
      (forall table :: IsColumn(table, fk, kind) ==>
         GivesOwn(debug, table, kind, cols, fk, pk, parents, flags, i)) <==>
      Binds(kind, ParentIds(pk, parents, flags)) && (KindOf(IdOf(pk, parents[i]).value) == kind ==> Visible(cols, fk))
  {
    hide GivesOwn, ParentIds, Binds, IsColumn;
    var ids, id := ParentIds(pk, parents, flags), IdOf(pk, parents[i]).value;
    if Binds(kind, ids) && (KindOf(id) == kind ==> Visible(cols, fk)) {
      forall table | IsColumn(table, fk, kind) ensures GivesOwn(debug, table, kind, cols, fk, pk, parents, flags, i) {
        GivesOwnWhen(debug, table, kind, cols, fk, pk, parents, flags, i);
      }
    } else {
      var table := LosesOwn(debug, kind, cols, fk, pk, parents, flags, i);
    }
  }

  /** Ids of the column's own kind bind exactly for integers, texts, uuids and booleans. */
  lemma {:induction false} UniformIdsBind(kind: Kind, ids: seq<PgValue>)
    requires ids != [] && forall id :: id in ids ==> KindOf(id) == kind
    ensures Binds(kind, ids) <==> kind in {IntKind, TextKind, UuidKind, BoolKind}
  {
    assert KindOf(ids[0]) == kind;
  }

  /** An input on which the batch loses rows: the foreign key is not selected. */
  lemma {:induction false} UnselectedKeyLosesRows(debug: PgValue -> string)
    ensures var row: PgRow := map["author" := Int(1), "title" := Text("t")];
      var parents := [RowParent(map["id" := Int(1)])];
      && SelectOwn([row], ["title"], "author", Int(1)) != []
      && Output(debug, [row], IntKind, ["title"], "author", "id", parents, [NONE]) == Ok([[]])
  {
    var row: PgRow := map["author" := Int(1), "title" := Text("t")];
    var parents := [RowParent(map["id" := Int(1)])];
    OneParent("id", map["id" := Int(1)]);
    OutputIs(debug, [row], IntKind, ["title"], "author", "id", parents, [NONE]);
    MatchingOfAny([row], ["title"], "author", BoundIds(debug, [Int(1)]), Int(1));
    OneRow(row, ["title"], "author", Int(1));
    hide SelectAny, SelectAll, Matching, BoundIds, ParentIds, Project, Output;
    var rows := Fetched(debug, [row], ["title"], "author", [Int(1)]);
    assert AllSlots(rows, "author", "id", parents, [NONE]) == [Slot(rows, "author", "id", parents[0], NONE)];
  }

  lemma {:induction false} OneParent(pk: string, row: PgRow)
    requires pk in row && !row[pk].Null?
    ensures ParentIds(pk, [RowParent(row)], [NONE]) == [row[pk]]
  {
    assert [RowParent(row)][..0] == [] && [NONE][..0] == [];
    assert ParentIds(pk, [], []) == [];
  }

  lemma {:induction false} OneRow(row: PgRow, cols: seq<string>, fk: string, id: PgValue)
    requires fk in row && !row[fk].Null?
    ensures SelectOwn([row], cols, fk, id) == if row[fk] == id then [Project(cols, row)] else []
  {
    hide Project;
    assert [row][0] == row && [row][..0] == [];
    assert SelectAny([], cols, fk, [id]) == [];
  }

  /** An input on which the whole step fails: the id is a float. */
  lemma {:induction false} FloatKeyFailsTheStep(debug: PgValue -> string)
    ensures var row: PgRow := map["score" := Float(1.5)];
      var parents := [RowParent(map["id" := Float(1.5)])];
      && SelectOwn([row], [], "score", Float(1.5)) == [row]
      && Output(debug, [row], FloatKind, [], "score", "id", parents, [NONE]) == Err(WrongKind(FloatKind, TextKind))
  {
    var row: PgRow := map["score" := Float(1.5)];
    var parents := [RowParent(map["id" := Float(1.5)])];
    OneParent("id", map["id" := Float(1.5)]);
    OneRow(row, [], "score", Float(1.5));
    hide SelectAny, ParentIds;
  }

  // ----- the parent key column, which the fingerprint leaves out -----

  /** Two steps that differ only in the parent's key column agree whenever both succeed. */
  ghost predicate AgreeWhenLoaded(debug: PgValue -> string, cols: seq<string>, fk: string, pk: string, pk': string) {
    forall table, kind, parents, flags ::
      |parents| == |flags| && kind != NullKind && IsColumn(table, fk, kind) ==>
      SameIfOk(Output(debug, table, kind, cols, fk, pk, parents, flags),
               Output(debug, table, kind, cols, fk, pk', parents, flags))
  }

  ghost predicate SameIfOk(a: Result<seq<seq<PgRow>>, LoadError>, b: Result<seq<seq<PgRow>>, LoadError>) {
    a.Ok? && b.Ok? ==> a == b
  }

  ghost predicate AgreeAlways(debug: PgValue -> string, cols: seq<string>, fk: string, pk: string, pk': string) {
    forall table, kind, parents, flags ::
      |parents| == |flags| && kind != NullKind && IsColumn(table, fk, kind) ==>
      Output(debug, table, kind, cols, fk, pk, parents, flags) ==
        Output(debug, table, kind, cols, fk, pk', parents, flags)
  }

  lemma {:induction false} HiddenKey(table: seq<PgRow>, cols: seq<string>, fk: string, id: PgValue)
    requires !Visible(cols, fk)
    ensures Matching(SelectAll(table, cols), fk, id) == []
  {
    if table != [] {
      var n := |table| - 1;
      HiddenKey(table[..n], cols, fk, id);
      hide Matching, Project;
      MatchingStep(SelectAll(table[..n], cols), table[n], cols, fk, id);
    }
  }

  /** Without the foreign key among the columns every slot is empty. */
  lemma {:induction false} HiddenSlots(debug: PgValue -> string, table: seq<PgRow>, cols: seq<string>, fk: string,
                                       ids: seq<PgValue>,
                                       pk: string, parents: seq<Parent>, flags: seq<StepFlags>)
    requires !Visible(cols, fk) && |parents| == |flags|
    ensures AllSlots(Fetched(debug, table, cols, fk, ids), fk, pk, parents, flags) == seq(|parents|, _ => [])
  {
    hide SelectAny, SelectAll, Matching, BoundIds, Visible, IdOf;
    forall i | 0 <= i < |parents|
      ensures Slot(Fetched(debug, table, cols, fk, ids), fk, pk, parents[i], flags[i]) == [] {
      if IdOf(pk, parents[i]).Some? {
        var id := IdOf(pk, parents[i]).value;
        HiddenKey(table, cols, fk, id);
        MatchingOfAny(table, cols, fk, if ids == [] then [] else BoundIds(debug, ids), id);
      }
    }
  }

  /** One parent and one row, to tell two key columns apart. */
  lemma {:induction false} OneSlot(debug: PgValue -> string, cols: seq<string>, fk: string, pk: string, parent: PgRow,
                                   id: PgValue)
    requires pk in parent && KindOf(parent[pk]) == KindOf(id) && id.Int?
    ensures Output(debug, [map[fk := id]], KindOf(id), cols, fk, pk, [RowParent(parent)], [NONE]) ==
      Ok([if Visible(cols, fk) && parent[pk] == id then [Project(cols, map[fk := id])] else []])
  {
    var table: seq<PgRow> := [map[fk := id]];
    OneParent(pk, parent);
    OutputIs(debug, table, KindOf(id), cols, fk, pk, [RowParent(parent)], [NONE]);
    BoundHas(debug, [parent[pk]], parent[pk]);
    MatchingOfAny(table, cols, fk, BoundIds(debug, [parent[pk]]), parent[pk]);
    OneRow(map[fk := id], cols, fk, parent[pk]);
    hide SelectAny, SelectAll, Matching, BoundIds, ParentIds, Project, Output;
    var rows := Fetched(debug, table, cols, fk, [parent[pk]]);
    assert AllSlots(rows, fk, pk, [RowParent(parent)], [NONE]) == [Slot(rows, fk, pk, RowParent(parent), NONE)];
  }

  /** The fingerprint contract, for steps that differ only in the parent's key column, which their
      fingerprints leave out: they agree always exactly when the columns are the same, and agree whenever
      both succeed exactly when the columns are the same or no slot ever holds a row. */
  lemma {:induction false} KeyColumnMatters(debug: PgValue -> string, cols: seq<string>, fk: string, pk: string,
                                            pk': string)
    ensures AgreeAlways(debug, cols, fk, pk, pk') <==> pk == pk'
    ensures AgreeWhenLoaded(debug, cols, fk, pk, pk') <==> pk == pk' || !Visible(cols, fk)
  {
    hide Output, IsColumn, Visible, AllSlots, Fetched;
    if pk != pk' {
      OneKeyFails(debug, cols, fk, pk, pk');
      if Visible(cols, fk) {
        KeysDiffer(debug, cols, fk, pk, pk');
      } else {
        HiddenAgree(debug, cols, fk, pk, pk');
      }
    }
  }

  lemma {:induction false} HiddenAgree(debug: PgValue -> string, cols: seq<string>, fk: string, pk: string, pk': string)
    requires !Visible(cols, fk)
    ensures AgreeWhenLoaded(debug, cols, fk, pk, pk')
  {
    hide Output, Visible, AllSlots, Fetched, ParentIds;
    forall table: seq<PgRow>, kind: Kind, parents: seq<Parent>, flags: seq<StepFlags> | |parents| == |flags|
      ensures SameIfOk(Output(debug, table, kind, cols, fk, pk, parents, flags),
                       Output(debug, table, kind, cols, fk, pk', parents, flags))
    {
      OutputIs(debug, table, kind, cols, fk, pk, parents, flags);
      OutputIs(debug, table, kind, cols, fk, pk', parents, flags);
      HiddenSlots(debug, table, cols, fk, ParentIds(pk, parents, flags), pk, parents, flags);
      HiddenSlots(debug, table, cols, fk, ParentIds(pk', parents, flags), pk', parents, flags);
    }
  }

  /** An input on which two key columns give different outputs: a text id against an integer column
      fails one of the steps. */
  lemma {:induction false} OneKeyFails(debug: PgValue -> string, cols: seq<string>, fk: string, pk: string, pk': string)
    requires pk != pk'
    ensures var table: seq<PgRow>, parents := [map[fk := Int(1)]], [RowParent(map[pk := Int(1), pk' := Text("a")])];
      && IsColumn(table, fk, IntKind)
      && Output(debug, table, IntKind, cols, fk, pk, parents, [NONE]).Ok?
      && Output(debug, table, IntKind, cols, fk, pk', parents, [NONE]).Err?
  {
    hide Output, ParentIds, Project, SelectAny, Matching, AllSlots, Fetched, Visible;
    var parent: PgRow := map[pk := Int(1), pk' := Text("a")];
    OneSlot(debug, cols, fk, pk, parent, Int(1));
    OneParent(pk', parent);
    OutputIs(debug, [map[fk := Int(1)]], IntKind, cols, fk, pk', [RowParent(parent)], [NONE]);
  }

  /** And one on which both succeed: two different integers. */
  lemma {:induction false} KeysDiffer(debug: PgValue -> string, cols: seq<string>, fk: string, pk: string, pk': string)
    requires pk != pk' && Visible(cols, fk)
    ensures var table: seq<PgRow>, parents := [map[fk := Int(1)]], [RowParent(map[pk := Int(1), pk' := Int(2)])];
      && IsColumn(table, fk, IntKind)
      && !SameIfOk(Output(debug, table, IntKind, cols, fk, pk, parents, [NONE]),
                   Output(debug, table, IntKind, cols, fk, pk', parents, [NONE]))
  {
    hide Output, Project, Visible;
    var parent: PgRow := map[pk := Int(1), pk' := Int(2)];
    OneSlot(debug, cols, fk, pk, parent, Int(1));
    OneSlot(debug, cols, fk, pk', parent, Int(1));
    assert [[Project(cols, map[fk := Int(1)])]][0] != [[]][0];
  }
}
