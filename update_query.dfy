/**
 * The partial-update statement of `PUT /api/todos/:id`: the handler builds
 * the SQL text and its parameter array step by step, numbering `$n`
 * placeholders with a running counter. The text is specified by the
 * statement it renders (which column takes which placeholder), and the
 * statement is given a meaning: how the database applies it to a row.
 */
module UpdateQuery {
  import opened Wrappers
  import opened JsText
  import opened Decimal
  import opened Todos

  /** The columns a request may set besides `updated_at`. */
  datatype Column = TextColumn | CompletedColumn

  /** A bound parameter value. */
  datatype Param = TextValue(text: string) | BoolValue(flag: bool) | IdValue(id: int)

  /** `column = $placeholder` in a SET list. */
  datatype Assignment = Assignment(column: Column, placeholder: nat)

  /** `UPDATE todos SET updated_at = CURRENT_TIMESTAMP, <sets> WHERE id = $<wherePlaceholder> RETURNING *` */
  datatype UpdateStatement = UpdateStatement(sets: seq<Assignment>, wherePlaceholder: nat)

  const UpdateHead := "UPDATE todos SET updated_at = CURRENT_TIMESTAMP"

  function ColumnName(c: Column): string {
    match c
    case TextColumn => "text"
    case CompletedColumn => "completed"
  }

  function Placeholder(n: nat): string {
    "$" + ShowNat(n)
  }

  /** `, column = $n` */
  function Clause(a: Assignment): string {
    ", " + ColumnName(a.column) + " = " + Placeholder(a.placeholder)
  }

  function RenderSets(sets: seq<Assignment>): string {
    if sets == [] then "" else Clause(sets[0]) + RenderSets(sets[1..])
  }

  lemma {:induction false} RenderSetsAppend(sets: seq<Assignment>, a: Assignment)
    ensures RenderSets(sets + [a]) == RenderSets(sets) + Clause(a)
  {
    if sets == [] {
      assert sets + [a] == [a];
    } else {
      assert (sets + [a])[1..] == sets[1..] + [a];
      RenderSetsAppend(sets[1..], a);
    }
  }

  /** The SQL text of a statement. */
  function Render(st: UpdateStatement): string {
    UpdateHead + RenderSets(st.sets) + " WHERE id = " + Placeholder(st.wherePlaceholder) + " RETURNING *"
  }

  /** The columns the request supplies: `text` exactly when it is present,
      `completed` exactly when it is present, each at most once and `text` first. */
  function SuppliedColumns(text: Option<string>, completed: Option<bool>): (cols: seq<Column>)
    ensures TextColumn in cols <==> text.Some?
    ensures CompletedColumn in cols <==> completed.Some?
    ensures forall i, j :: 0 <= i < j < |cols| ==> cols[i] == TextColumn && cols[j] == CompletedColumn
  {
    (if text.Some? then [TextColumn] else []) + (if completed.Some? then [CompletedColumn] else [])
  }

  /** Assignments for `cols` with consecutive placeholders starting at `first`. */
  function Numbered(cols: seq<Column>, first: nat): (sets: seq<Assignment>)
    ensures |sets| == |cols|
    ensures forall k :: 0 <= k < |sets| ==> sets[k] == Assignment(cols[k], first + k)
  {
    if cols == [] then [] else [Assignment(cols[0], first)] + Numbered(cols[1..], first + 1)
  }

  /** The statement a request describes: its supplied columns numbered from `$1`,
      the id bound to the next placeholder. */
  function BuiltStatement(text: Option<string>, completed: Option<bool>): UpdateStatement {
    var cols := SuppliedColumns(text, completed);
    UpdateStatement(Numbered(cols, 1), |cols| + 1)
  }

  /** The value a supplied column is set to; text is trimmed, never rejected. */
  function ValueFor(c: Column, text: Option<string>, completed: Option<bool>): Param
    requires c == TextColumn ==> text.Some?
    requires c == CompletedColumn ==> completed.Some?
  {
    match c
    case TextColumn => TextValue(Trim(text.value))
    case CompletedColumn => BoolValue(completed.value)
  }

  /** The values pushed for the supplied text, trimmed. */
  function TextValues(text: Option<string>): seq<Param> {
    if text.Some? then [TextValue(Trim(text.value))] else []
  }

  /** The value pushed for the supplied completion flag. */
  function CompletedValues(completed: Option<bool>): seq<Param> {
    if completed.Some? then [BoolValue(completed.value)] else []
  }

  /** The parameter array in the order the handler pushes it. */
  function BoundValues(id: int, text: Option<string>, completed: Option<bool>): seq<Param> {
    TextValues(text) + CompletedValues(completed) + [IdValue(id)]
  }

  /** The value placeholder `$p` stands for. */
  function Bind(values: seq<Param>, p: nat): Option<Param> {
    if 1 <= p <= |values| then Some(values[p - 1]) else None
  }

  /** The SQL text and parameters of the update, built as the handler builds them. */
  method BuildUpdate(id: int, text: Option<string>, completed: Option<bool>)
    returns (query: string, values: seq<Param>)
    ensures query == Render(BuiltStatement(text, completed))
    ensures values == BoundValues(id, text, completed)
  {
    BuiltSets(text, completed);
    query := UpdateHead;
    values := [];
    var paramCount: nat := 1;
    ghost var sets: seq<Assignment> := [];
    if text.Some? {
      ExtendQuery(query, sets, Assignment(TextColumn, paramCount));
      ClauseText(Assignment(TextColumn, paramCount));
      AppendLiteral(query, ", text = ", Placeholder(paramCount));
      query := query + ", text = " + Placeholder(paramCount);
      sets := sets + [Assignment(TextColumn, paramCount)];
      paramCount := paramCount + 1;
      values := values + [TextValue(Trim(text.value))];
    }
    assert values == TextValues(text) && |values| + 1 == paramCount;
    if completed.Some? {
      ExtendQuery(query, sets, Assignment(CompletedColumn, paramCount));
      ClauseText(Assignment(CompletedColumn, paramCount));
      AppendLiteral(query, ", completed = ", Placeholder(paramCount));
      query := query + ", completed = " + Placeholder(paramCount);
      sets := sets + [Assignment(CompletedColumn, paramCount)];
      paramCount := paramCount + 1;
      values := values + [BoolValue(completed.value)];
    }
    assert values == TextValues(text) + CompletedValues(completed);
    ghost var st := BuiltStatement(text, completed);
    assert sets == st.sets && paramCount == st.wherePlaceholder;
    FinishQuery(query, sets, paramCount);
    query := query + " WHERE id = " + Placeholder(paramCount) + " RETURNING *";
    values := values + [IdValue(id)];
  }

  /** The last step of the builder: the WHERE clause closes the rendering of the statement. */
  lemma FinishQuery(query: string, sets: seq<Assignment>, p: nat)
    requires query == UpdateHead + RenderSets(sets)
    ensures query + " WHERE id = " + Placeholder(p) + " RETURNING *" == Render(UpdateStatement(sets, p))
  {
  }

  /** One step of the builder: appending `, column = $n` to the text renders one more assignment. */
  lemma ExtendQuery(query: string, sets: seq<Assignment>, a: Assignment)
    requires query == UpdateHead + RenderSets(sets)
    ensures query + Clause(a) == UpdateHead + RenderSets(sets + [a])
  {
    var head, rs := UpdateHead, RenderSets(sets);
    RenderSetsAppend(sets, a);
    AppendLiteral(head, rs, Clause(a));
  }

  /** Proof helper: the rendered clause of each column, spelled as the handler spells it. */
  lemma ClauseText(a: Assignment)
    ensures a.column == TextColumn ==> Clause(a) == ", text = " + Placeholder(a.placeholder)
    ensures a.column == CompletedColumn ==> Clause(a) == ", completed = " + Placeholder(a.placeholder)
  {
    assert ", " + "text" + " = " == ", text = ";
    assert ", " + "completed" + " = " == ", completed = ";
  }

  /** Proof helper: regroups a concatenation so that the builder's appended
      literal and placeholder line up with the rendered clause. */
  lemma AppendLiteral(q: string, lit: string, p: string)
    ensures q + lit + p == q + (lit + p)
  {
  }

  /** The assignments of a built statement, case by case. */
  lemma BuiltSets(text: Option<string>, completed: Option<bool>)
    ensures BuiltStatement(text, completed).sets
         == (if text.Some? then [Assignment(TextColumn, 1)] else [])
          + (if completed.Some? then [Assignment(CompletedColumn, if text.Some? then 2 else 1)] else [])
  {
  }

  /** Placeholders run `$1 .. $|values|` in order: each supplied column binds the
      value computed for it, and the last placeholder, in the WHERE clause, binds the id. */
  lemma PlaceholdersMatchValues(id: int, text: Option<string>, completed: Option<bool>)
    ensures var st, values := BuiltStatement(text, completed), BoundValues(id, text, completed);
      && st.wherePlaceholder == |values|
      && Bind(values, st.wherePlaceholder) == Some(IdValue(id))
      && forall k :: 0 <= k < |st.sets| ==>
           && st.sets[k].placeholder == k + 1
           && (st.sets[k].column == TextColumn ==> text.Some?)
           && (st.sets[k].column == CompletedColumn ==> completed.Some?)
           && Bind(values, k + 1) == Some(ValueFor(st.sets[k].column, text, completed))
  {
    var st, values := BuiltStatement(text, completed), BoundValues(id, text, completed);
    BuiltSets(text, completed);
    if text.Some? && completed.Some? {
      assert values == [TextValue(Trim(text.value)), BoolValue(completed.value), IdValue(id)];
    } else if text.Some? {
      assert values == [TextValue(Trim(text.value)), IdValue(id)];
    } else if completed.Some? {
      assert values == [BoolValue(completed.value), IdValue(id)];
    } else {
      assert values == [IdValue(id)];
    }
  }

  /** The database applies the SET list left to right, each column taking the value of its placeholder. */
  function ApplySets(row: Todo, sets: seq<Assignment>, values: seq<Param>): Todo
    decreases |sets|
  {
    if sets == [] then row
    else
      var row' := match (sets[0].column, Bind(values, sets[0].placeholder))
        case (TextColumn, Some(TextValue(s))) => row.(text := s)
        case (CompletedColumn, Some(BoolValue(b))) => row.(completed := b)
        case _ => row;
      ApplySets(row', sets[1..], values)
  }

  /** The WHERE clause: the row's id is the value of the WHERE placeholder. */
  predicate RowMatches(row: Todo, st: UpdateStatement, values: seq<Param>) {
    Bind(values, st.wherePlaceholder) == Some(IdValue(row.id))
  }

  /** The table after the statement: matching rows get the new timestamp and the SET list. */
  function ExecuteUpdate(rows: seq<Todo>, st: UpdateStatement, values: seq<Param>, now: nat): seq<Todo> {
    seq(|rows|, k requires 0 <= k < |rows| =>
      if RowMatches(rows[k], st, values) then ApplySets(rows[k].(updatedAt := now), st.sets, values) else rows[k])
  }

  /** The intended partial update: supplied fields take their new values
      (text trimmed), omitted ones keep theirs, `updated_at` becomes `now`. */
  function PatchedRow(row: Todo, text: Option<string>, completed: Option<bool>, now: nat): Todo {
    row.(text := if text.Some? then Trim(text.value) else row.text,
         completed := if completed.Some? then completed.value else row.completed,
         updatedAt := now)
  }

  /** `RETURNING *`: the updated versions of the matching rows, in table order. */
  function ReturningRows(rows: seq<Todo>, st: UpdateStatement, values: seq<Param>, now: nat): seq<Todo> {
    if rows == [] then []
    else if RowMatches(rows[0], st, values) then
      [ApplySets(rows[0].(updatedAt := now), st.sets, values)] + ReturningRows(rows[1..], st, values, now)
    else ReturningRows(rows[1..], st, values, now)
  }

  /** With table ids unique, a statement whose WHERE clause selects exactly
      the rows with `id` returns nothing when no row has it, and otherwise
      exactly that row, updated. */
  lemma {:induction false} ReturnsSelected(rows: seq<Todo>, st: UpdateStatement, values: seq<Param>, id: int, now: nat)
    requires forall i, j :: 0 <= i < j < |rows| ==> rows[i].id != rows[j].id
    requires forall k :: 0 <= k < |rows| ==> (RowMatches(rows[k], st, values) <==> rows[k].id == id)
    ensures var returned := ReturningRows(rows, st, values, now);
      && (returned == [] <==> !HasId(rows, id))
      && forall k :: 0 <= k < |rows| && rows[k].id == id ==>
           returned == [ApplySets(rows[k].(updatedAt := now), st.sets, values)]
  {
    if rows != [] {
      var rest := rows[1..];
      assert forall k :: 0 <= k < |rest| ==> rest[k] == rows[k + 1];
      ReturnsSelected(rest, st, values, id, now);
      if rows[0].id == id {
        assert !HasId(rest, id);
      } else {
        assert HasId(rows, id) ==> HasId(rest, id) by {
          if HasId(rows, id) {
            var k :| 0 <= k < |rows| && rows[k].id == id;
            assert rest[k - 1] == rows[k];
          }
        }
      }
    }
  }

  /** With table ids unique, a built statement returns nothing when no row has
      the id, and otherwise exactly that row, patched. */
  lemma BuiltUpdateReturns(rows: seq<Todo>, id: int, text: Option<string>, completed: Option<bool>, now: nat)
    requires forall i, j :: 0 <= i < j < |rows| ==> rows[i].id != rows[j].id
    ensures var returned := ReturningRows(rows, BuiltStatement(text, completed), BoundValues(id, text, completed), now);
      && (returned == [] <==> !HasId(rows, id))
      && forall k :: 0 <= k < |rows| && rows[k].id == id ==> returned == [PatchedRow(rows[k], text, completed, now)]
  {
    var st, values := BuiltStatement(text, completed), BoundValues(id, text, completed);
    forall k | 0 <= k < |rows|
      ensures RowMatches(rows[k], st, values) <==> rows[k].id == id
      ensures ApplySets(rows[k].(updatedAt := now), st.sets, values) == PatchedRow(rows[k], text, completed, now)
    {
      BuiltUpdateMeaning(rows[k], id, text, completed, now);
    }
    ReturnsSelected(rows, st, values, id, now);
  }

  /** Applying `text = $1, completed = $2`. */
  lemma ApplyBoth(r: Todo, values: seq<Param>, t: string, c: bool)
    requires Bind(values, 1) == Some(TextValue(t)) && Bind(values, 2) == Some(BoolValue(c))
    ensures ApplySets(r, [Assignment(TextColumn, 1), Assignment(CompletedColumn, 2)], values)
         == r.(text := t, completed := c)
  {
    var sets := [Assignment(TextColumn, 1), Assignment(CompletedColumn, 2)];
    assert sets[1..] == [Assignment(CompletedColumn, 2)];
    assert sets[1..][1..] == [];
    calc {
      ApplySets(r, sets, values);
      ApplySets(r.(text := t), sets[1..], values);
      ApplySets(r.(text := t, completed := c), [], values);
    }
  }

  /** Applying a single `column = $1`. */
  lemma ApplyOne(r: Todo, a: Assignment, values: seq<Param>)
    requires a.placeholder == 1
    ensures a.column == TextColumn && Bind(values, 1).Some? && Bind(values, 1).value.TextValue? ==>
      ApplySets(r, [a], values) == r.(text := Bind(values, 1).value.text)
    ensures a.column == CompletedColumn && Bind(values, 1).Some? && Bind(values, 1).value.BoolValue? ==>
      ApplySets(r, [a], values) == r.(completed := Bind(values, 1).value.flag)
  {
    assert [a][1..] == [];
  }

  /** What a built statement does to a row: it selects exactly the row with the
      requested id, and changes exactly the supplied fields (text trimmed),
      refreshes `updated_at`, and keeps `id`, `created_at` and every omitted field. */
  lemma BuiltUpdateMeaning(row: Todo, id: int, text: Option<string>, completed: Option<bool>, now: nat)
    ensures var st, values := BuiltStatement(text, completed), BoundValues(id, text, completed);
      && (RowMatches(row, st, values) <==> row.id == id)
      && ApplySets(row.(updatedAt := now), st.sets, values) == PatchedRow(row, text, completed, now)
  {
    var st, values := BuiltStatement(text, completed), BoundValues(id, text, completed);
    PlaceholdersMatchValues(id, text, completed);
    BuiltSets(text, completed);
    var r := row.(updatedAt := now);
    if text.Some? && completed.Some? {
      assert st.sets[0].column == TextColumn && st.sets[1].column == CompletedColumn;
      ApplyBoth(r, values, Trim(text.value), completed.value);
    } else if text.Some? {
      assert st.sets[0].column == TextColumn;
      ApplyOne(r, st.sets[0], values);
    } else if completed.Some? {
      assert st.sets[0].column == CompletedColumn;
      ApplyOne(r, st.sets[0], values);
    } else {
      assert st.sets == [];
    }
  }
}
