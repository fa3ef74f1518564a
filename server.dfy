/**
 * The REST handlers of the API service over the `todos` table. The table is
 * an in-memory store: its rows in insertion order, the next value of the
 * `SERIAL` id sequence, and a clock read as `CURRENT_TIMESTAMP`. A failing
 * database call is an argument `fail` of each handler.
 */
module TodoServer {
  import opened Wrappers
  import opened JsText
  import opened Todos
  import opened UpdateQuery

  datatype Body =
    | TodoBody(todo: Todo)
    | TodoListBody(todos: seq<Todo>)
    | MessageBody(message: string)
    | ErrorBody(error: string)

  datatype Response = Response(status: nat, body: Body)

  const TextRequired := "Todo text is required"
  const FetchFailed := "Failed to fetch todos"
  const CreateFailed := "Failed to create todo"
  const UpdateFailed := "Failed to update todo"
  const DeleteFailed := "Failed to delete todo"
  const NotFound := "Todo not found"
  const Deleted := "Todo deleted successfully"

  /** The last value of a `SERIAL` sequence: the column is a 4-byte integer,
      and once the sequence is exhausted every insert fails. */
  const MaxSerial := 2147483647

  /** The create validator: an absent, empty or all-white-space `text` is
      rejected; any other is accepted trimmed, which leaves text that is not
      empty and neither starts nor ends with white space. */
  function ValidatedText(text: Option<string>): (r: Option<string>)
    ensures r.None? <==> text.None? || forall k :: 0 <= k < |text.value| ==> IsWhiteSpace(text.value[k])
    ensures r.Some? ==> r.value != "" && !IsWhiteSpace(r.value[0]) && !IsWhiteSpace(r.value[|r.value| - 1])
    ensures r.Some? ==> |r.value| <= |text.value|
    ensures r.Some? ==> r.value == Trim(text.value)
  {
    if text.None? then None
    else
      BlankIffAllWhiteSpace(text.value);
      if IsBlank(text.value) then None else Some(Trim(text.value))
  }

  /** The table invariant: ids are unique, positive, below the next
      sequence value and within the `SERIAL` range; no row was touched after `clock` or before it was
      created; stored text is always trimmed. */
  ghost predicate WellFormed(rows: seq<Todo>, nextId: int, clock: nat) {
    && 1 <= nextId <= MaxSerial + 1
    && (forall k :: 0 <= k < |rows| ==> 1 <= rows[k].id < nextId)
    && (forall i, j :: 0 <= i < j < |rows| ==> rows[i].id != rows[j].id)
    && (forall k :: 0 <= k < |rows| ==> rows[k].createdAt <= rows[k].updatedAt <= clock)
    && (forall k :: 0 <= k < |rows| ==> IsTrimmed(rows[k].text))
  }

  /** Patching the rows with one id keeps a table well-formed when the patch
      keeps ids and creation times, stamps the current time and stores trimmed text. */
  lemma PatchKeepsWellFormed(rows: seq<Todo>, rows': seq<Todo>, nextId: int, clock: nat,
                             id: int, text: Option<string>, completed: Option<bool>)
    requires WellFormed(rows, nextId, clock)
    requires |rows'| == |rows|
    requires forall k :: 0 <= k < |rows| ==>
      rows'[k] == if rows[k].id == id then PatchedRow(rows[k], text, completed, clock) else rows[k]
    ensures WellFormed(rows', nextId, clock)
  {
  }

  /** Running a built update patches exactly the rows with the id and leaves the others as they are. */
  lemma UpdateEffect(rows: seq<Todo>, id: int, text: Option<string>, completed: Option<bool>, now: nat)
    ensures var rows' := ExecuteUpdate(rows, BuiltStatement(text, completed), BoundValues(id, text, completed), now);
      && |rows'| == |rows|
      && forall k :: 0 <= k < |rows| ==>
           rows'[k] == if rows[k].id == id then PatchedRow(rows[k], text, completed, now) else rows[k]
  {
    forall k | 0 <= k < |rows| {
      BuiltUpdateMeaning(rows[k], id, text, completed, now);
    }
  }

  /** Running the built update on a well-formed table keeps it well-formed. */
  lemma UpdateKeepsWellFormed(rows: seq<Todo>, nextId: int, clock: nat, id: int, text: Option<string>, completed: Option<bool>)
    requires WellFormed(rows, nextId, clock)
    ensures WellFormed(ExecuteUpdate(rows, BuiltStatement(text, completed), BoundValues(id, text, completed), clock), nextId, clock)
  {
    var rows' := ExecuteUpdate(rows, BuiltStatement(text, completed), BoundValues(id, text, completed), clock);
    UpdateEffect(rows, id, text, completed, clock);
    PatchKeepsWellFormed(rows, rows', nextId, clock, id, text, completed);
  }

  /** The reply of the built update on a well-formed table: no returned row
      exactly when no row has the id, and the table is then unchanged;
      otherwise the first returned row has the id and is in the new table. */
  lemma UpdateReply(rows: seq<Todo>, nextId: int, clock: nat, id: int, text: Option<string>, completed: Option<bool>)
    requires WellFormed(rows, nextId, clock)
    ensures var st, values := BuiltStatement(text, completed), BoundValues(id, text, completed);
      var rows', returned := ExecuteUpdate(rows, st, values, clock), ReturningRows(rows, st, values, clock);
      && (returned == [] <==> !HasId(rows, id))
      && (returned == [] ==> rows' == rows)
      && (returned != [] ==> returned[0].id == id && returned[0] in rows')
  {
    var st, values := BuiltStatement(text, completed), BoundValues(id, text, completed);
    var rows', returned := ExecuteUpdate(rows, st, values, clock), ReturningRows(rows, st, values, clock);
    BuiltUpdateReturns(rows, id, text, completed, clock);
    UpdateEffect(rows, id, text, completed, clock);
    if returned != [] {
      var k :| 0 <= k < |rows| && rows[k].id == id;
      assert returned[0] == rows'[k];
    }
  }

  /** Adding a row with the next id, while the sequence is not exhausted,
      stamped now and with trimmed text, keeps a table well-formed. */
  lemma AppendKeepsWellFormed(rows: seq<Todo>, nextId: int, clock: nat, row: Todo)
    requires WellFormed(rows, nextId, clock)
    requires row.id == nextId <= MaxSerial && row.createdAt <= row.updatedAt <= clock && IsTrimmed(row.text)
    ensures WellFormed(rows + [row], nextId + 1, clock)
  {
    var r := rows + [row];
    assert forall k :: 0 <= k < |rows| ==> r[k] == rows[k];
    assert r[|rows|] == row;
    assert forall i, j :: 0 <= i < j < |r| ==> r[i].id != r[j].id by {
      forall i, j | 0 <= i < j < |r| ensures r[i].id != r[j].id {
        if j == |rows| {
          assert r[i].id < nextId;
        }
      }
    }
  }

  /** Taking one row out of a well-formed table leaves it well-formed. */
  lemma RemoveAtKeepsWellFormed(rows: seq<Todo>, nextId: int, clock: nat, k: nat)
    requires WellFormed(rows, nextId, clock) && k < |rows|
    ensures WellFormed(rows[..k] + rows[k + 1..], nextId, clock)
  {
    var rest := rows[..k] + rows[k + 1..];
    assert forall j :: 0 <= j < |rest| ==> rest[j] == rows[if j < k then j else j + 1];
  }

  /** Deleting an id that a row of a well-formed table has removes exactly
      that one row and keeps the table well-formed. */
  lemma DeleteKeepsWellFormed(rows: seq<Todo>, nextId: int, clock: nat, id: int)
    requires WellFormed(rows, nextId, clock) && HasId(rows, id)
    ensures WellFormed(RemoveById(rows, id), nextId, clock)
    ensures |RemoveById(rows, id)| == |rows| - 1
  {
    var k :| 0 <= k < |rows| && rows[k].id == id;
    RemoveUniqueId(rows, k);
    RemoveAtKeepsWellFormed(rows, nextId, clock, k);
  }

  class TodoTable {
    var rows: seq<Todo>
    var nextId: int
    var clock: nat

    /** The table invariant holds of the current contents. */
    ghost predicate Valid()
      reads this
    {
      WellFormed(rows, nextId, clock)
    }

    /** `CREATE TABLE IF NOT EXISTS todos (...)` on a fresh database. */
    constructor ()
      ensures Valid()
      ensures rows == [] && nextId == 1 && clock == 0
    {
      rows, nextId, clock := [], 1, 0;
    }

    /** Time passes; `CURRENT_TIMESTAMP` only moves forward. */
    method AdvanceClock(elapsed: nat)
      requires Valid()
      modifies this
      ensures Valid()
      ensures rows == old(rows) && nextId == old(nextId) && clock == old(clock) + elapsed
    {
      clock := clock + elapsed;
    }

    /** `GET /api/todos`: every row exactly once, newest first. */
    method List(fail: bool) returns (resp: Response)
      ensures fail ==> resp == Response(500, ErrorBody(FetchFailed))
      ensures !fail ==> resp.status == 200 && resp.body.TodoListBody?
      ensures !fail ==> multiset(resp.body.todos) == multiset(rows) && SortedNewestFirst(resp.body.todos)
    {
      if fail {
        return Response(500, ErrorBody(FetchFailed));
      }
      resp := Response(200, TodoListBody(SortNewestFirst(rows)));
    }

    /** `POST /api/todos`. */
    method Create(text: Option<string>, fail: bool) returns (resp: Response)
      requires Valid()
      modifies this
      ensures Valid() && clock == old(clock)
      ensures (text.None? || IsBlank(text.value)) ==>
        resp == Response(400, ErrorBody(TextRequired)) && rows == old(rows) && nextId == old(nextId)
      ensures text.Some? && !IsBlank(text.value) && fail ==>
        resp == Response(500, ErrorBody(CreateFailed)) && rows == old(rows) && nextId == old(nextId)
      ensures text.Some? && !IsBlank(text.value) && !fail && old(nextId) > MaxSerial ==>
        resp == Response(500, ErrorBody(CreateFailed)) && rows == old(rows) && nextId == old(nextId)
      ensures text.Some? && !IsBlank(text.value) && !fail && old(nextId) <= MaxSerial ==>
        var row := Todo(old(nextId), Trim(text.value), false, clock, clock);
        && resp == Response(201, TodoBody(row))
        && rows == old(rows) + [row]
        && nextId == old(nextId) + 1
        && 1 <= row.id <= MaxSerial
        && forall k :: 0 <= k < |old(rows)| ==> old(rows)[k].id < row.id
    {
      var accepted := ValidatedText(text);
      if accepted.None? {
        return Response(400, ErrorBody(TextRequired));
      }
      if fail || nextId > MaxSerial {
        return Response(500, ErrorBody(CreateFailed));
      }
      var row := Todo(nextId, accepted.value, false, clock, clock);
      AppendKeepsWellFormed(rows, nextId, clock, row);
      rows := rows + [row];
      nextId := nextId + 1;
      resp := Response(201, TodoBody(row));
    }

    /** `PUT /api/todos/:id`: the statement is built, then run against the table. */
    method Update(id: int, text: Option<string>, completed: Option<bool>, fail: bool) returns (resp: Response)
      requires Valid()
      modifies this
      ensures Valid() && nextId == old(nextId) && clock == old(clock)
      ensures fail ==> resp == Response(500, ErrorBody(UpdateFailed)) && rows == old(rows)
      ensures !fail && !HasId(old(rows), id) ==> resp == Response(404, ErrorBody(NotFound)) && rows == old(rows)
      ensures !fail && HasId(old(rows), id) ==>
        && |rows| == |old(rows)|
        && (forall k :: 0 <= k < |rows| ==>
              rows[k] == if old(rows)[k].id == id then PatchedRow(old(rows)[k], text, completed, clock) else old(rows)[k])
        && resp.status == 200 && resp.body.TodoBody?
        && resp.body.todo.id == id && resp.body.todo in rows
    {
      var query, values := BuildUpdate(id, text, completed);
      resp := RunUpdate(id, text, completed, values, fail);
    }

    /** `client.query(query, values)` for a built update, and the reply made
        from the rows it returns. */
    method RunUpdate(id: int, text: Option<string>, completed: Option<bool>, values: seq<Param>, fail: bool)
      returns (resp: Response)
      requires Valid() && values == BoundValues(id, text, completed)
      modifies this
      ensures Valid() && nextId == old(nextId) && clock == old(clock)
      ensures fail ==> resp == Response(500, ErrorBody(UpdateFailed)) && rows == old(rows)
      ensures !fail && !HasId(old(rows), id) ==> resp == Response(404, ErrorBody(NotFound)) && rows == old(rows)
      ensures !fail && HasId(old(rows), id) ==>
        && |rows| == |old(rows)|
        && (forall k :: 0 <= k < |rows| ==>
              rows[k] == if old(rows)[k].id == id then PatchedRow(old(rows)[k], text, completed, clock) else old(rows)[k])
        && resp.status == 200 && resp.body.TodoBody?
        && resp.body.todo.id == id && resp.body.todo in rows
    {
      if fail {
        return Response(500, ErrorBody(UpdateFailed));
      }
      var st := BuiltStatement(text, completed);
      var returned := ReturningRows(rows, st, values, clock);
      UpdateEffect(rows, id, text, completed, clock);
      UpdateKeepsWellFormed(rows, nextId, clock, id, text, completed);
      UpdateReply(rows, nextId, clock, id, text, completed);
      rows := ExecuteUpdate(rows, st, values, clock);
      if |returned| == 0 {
        return Response(404, ErrorBody(NotFound));
      }
      resp := Response(200, TodoBody(returned[0]));
    }

    /** `DELETE /api/todos/:id`: the row goes, the others stay in order, and
        the reply is a confirmation rather than the row. */
    method Delete(id: int, fail: bool) returns (resp: Response)
      requires Valid()
      modifies this
      ensures Valid() && nextId == old(nextId) && clock == old(clock)
      ensures fail ==> resp == Response(500, ErrorBody(DeleteFailed)) && rows == old(rows)
      ensures !fail && !HasId(old(rows), id) ==> resp == Response(404, ErrorBody(NotFound)) && rows == old(rows)
      ensures !fail && HasId(old(rows), id) ==>
        && resp == Response(200, MessageBody(Deleted))
        && rows == RemoveById(old(rows), id)
        && |rows| == |old(rows)| - 1
    {
      if fail {
        return Response(500, ErrorBody(DeleteFailed));
      }
      if !HasId(rows, id) {
        RemoveByIdAbsent(rows, id);
        return Response(404, ErrorBody(NotFound));
      }
      DeleteKeepsWellFormed(rows, nextId, clock, id);
      rows := RemoveById(rows, id);
      resp := Response(200, MessageBody(Deleted));
    }
  }
}
