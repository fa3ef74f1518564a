/**
 * The todo record, one row of the `todos` table and one element of the
 * client's list, and the whole-list operations both sides perform on it.
 */
module Todos {

  /** A row of `todos(id SERIAL, text TEXT, completed BOOLEAN, created_at, updated_at)`;
      timestamps are readings of an abstract clock. */
  datatype Todo = Todo(id: int, text: string, completed: bool, createdAt: nat, updatedAt: nat)

  predicate HasId(todos: seq<Todo>, id: int) {
    exists k :: 0 <= k < |todos| && todos[k].id == id
  }

  /** `todos.map(t => t.id === u.id ? u : t)`: same length, every entry
      with `u`'s id replaced by `u`, every other entry unchanged in its place. */
  function ReplaceById(todos: seq<Todo>, u: Todo): (r: seq<Todo>)
    ensures |r| == |todos|
    ensures forall k :: 0 <= k < |r| ==> r[k] == if todos[k].id == u.id then u else todos[k]
  {
    if todos == [] then []
    else [if todos[0].id == u.id then u else todos[0]] + ReplaceById(todos[1..], u)
  }

  /** `todos.filter(t => t.id !== id)`, and the table's `DELETE ... WHERE id = $1`:
      what is left is exactly the entries with another id. */
  function RemoveById(todos: seq<Todo>, id: int): (r: seq<Todo>)
    ensures |r| <= |todos|
    ensures forall t :: t in r <==> t in todos && t.id != id
  {
    if todos == [] then []
    else if todos[0].id == id then RemoveById(todos[1..], id)
    else [todos[0]] + RemoveById(todos[1..], id)
  }

  /** Filtering commutes with concatenation, so the entries that stay keep their relative order. */
  lemma {:induction false} RemoveByIdAppend(a: seq<Todo>, b: seq<Todo>, id: int)
    ensures RemoveById(a + b, id) == RemoveById(a, id) + RemoveById(b, id)
  {
    if a == [] {
      assert a + b == b;
    } else {
      assert (a + b)[1..] == a[1..] + b;
      RemoveByIdAppend(a[1..], b, id);
    }
  }

  /** A list without the id is left exactly as it was. */
  lemma {:induction false} RemoveByIdAbsent(todos: seq<Todo>, id: int)
    requires !HasId(todos, id)
    ensures RemoveById(todos, id) == todos
  {
    if todos != [] {
      assert !HasId(todos[1..], id) by {
        forall k | 0 <= k < |todos[1..]| ensures todos[1..][k].id != id {
          assert todos[1..][k] == todos[k + 1];
        }
      }
      RemoveByIdAbsent(todos[1..], id);
    }
  }

  /** Removing an id that occurs exactly once shortens the list by exactly one. */
  lemma {:induction false} RemoveUniqueId(todos: seq<Todo>, i: nat)
    requires i < |todos|
    requires forall k :: 0 <= k < |todos| && k != i ==> todos[k].id != todos[i].id
    ensures RemoveById(todos, todos[i].id) == todos[..i] + todos[i + 1..]
  {
    var id := todos[i].id;
    assert todos == todos[..i] + ([todos[i]] + todos[i + 1..]);
    RemoveByIdAppend(todos[..i], [todos[i]] + todos[i + 1..], id);
    RemoveByIdAppend([todos[i]], todos[i + 1..], id);
    assert !HasId(todos[..i], id) by {
      forall k | 0 <= k < i ensures todos[..i][k].id != id {
        assert todos[..i][k] == todos[k];
      }
    }
    var after := todos[i + 1..];
    assert !HasId(after, id) by {
      forall k | 0 <= k < |after| ensures after[k].id != id {
        assert after[k] == todos[i + 1 + k];
      }
    }
    RemoveByIdAbsent(todos[..i], id);
    RemoveByIdAbsent(todos[i + 1..], id);
    assert RemoveById([todos[i]], id) == [];
  }

  /** `todos.filter(t => t.completed).length`, never more than `todos.length`. */
  function CompletedCount(todos: seq<Todo>): (n: nat)
    ensures n <= |todos|
  {
    if todos == [] then 0
    else (if todos[0].completed then 1 else 0) + CompletedCount(todos[1..])
  }

  /** The count of completed entries reaches the total exactly when every
      entry is completed, and is zero exactly when none is. */
  lemma {:induction false} CompletedCountExtremes(todos: seq<Todo>)
    ensures CompletedCount(todos) == |todos| <==> forall k :: 0 <= k < |todos| ==> todos[k].completed
    ensures CompletedCount(todos) == 0 <==> forall k :: 0 <= k < |todos| ==> !todos[k].completed
  {
    if todos != [] {
      CompletedCountExtremes(todos[1..]);
      assert forall k :: 1 <= k < |todos| ==> todos[k] == todos[1..][k - 1];
    }
  }

  /** Replacing the one entry that carries `u`'s id changes the completed
      count by exactly the difference between the old entry and `u`. */
  lemma {:induction false} CompletedCountReplace(todos: seq<Todo>, i: nat, u: Todo)
    requires i < |todos| && todos[i].id == u.id
    requires forall k :: 0 <= k < |todos| && k != i ==> todos[k].id != u.id
    ensures CompletedCount(ReplaceById(todos, u)) + (if todos[i].completed then 1 else 0)
         == CompletedCount(todos) + (if u.completed then 1 else 0)
  {
    var r := ReplaceById(todos, u);
    assert r[1..] == ReplaceById(todos[1..], u);
    if i == 0 {
      assert r[1..] == todos[1..];
    } else {
      CompletedCountReplace(todos[1..], i - 1, u);
    }
  }

  /** Counting is additive over concatenation. */
  lemma {:induction false} CompletedCountAppend(a: seq<Todo>, b: seq<Todo>)
    ensures CompletedCount(a + b) == CompletedCount(a) + CompletedCount(b)
  {
    if a == [] {
      assert a + b == b;
    } else {
      assert (a + b)[1..] == a[1..] + b;
      CompletedCountAppend(a[1..], b);
    }
  }

  /** Newest first: `ORDER BY created_at DESC`. */
  ghost predicate SortedNewestFirst(s: seq<Todo>) {
    forall i, j :: 0 <= i < j < |s| ==> s[i].createdAt >= s[j].createdAt
  }

  ghost predicate StrictlyNewestFirst(s: seq<Todo>) {
    forall i, j :: 0 <= i < j < |s| ==> s[i].createdAt > s[j].createdAt
  }

  /** Places `t` before the first entry that is not newer than it. */
  function InsertNewestFirst(t: Todo, s: seq<Todo>): (r: seq<Todo>)
    ensures multiset(r) == multiset(s) + multiset{t}
    ensures forall k :: 0 <= k < |r| ==> r[k] == t || r[k] in s
  {
    if s == [] || s[0].createdAt <= t.createdAt then [t] + s
    else
      assert s == [s[0]] + s[1..];
      [s[0]] + InsertNewestFirst(t, s[1..])
  }

  lemma {:induction false} InsertKeepsSorted(t: Todo, s: seq<Todo>)
    requires SortedNewestFirst(s)
    ensures SortedNewestFirst(InsertNewestFirst(t, s))
  {
    if s != [] && s[0].createdAt > t.createdAt {
      InsertKeepsSorted(t, s[1..]);
      var r := InsertNewestFirst(t, s[1..]);
      forall k | 0 <= k < |r| ensures s[0].createdAt >= r[k].createdAt {
        if r[k] != t {
          var m :| 0 <= m < |s[1..]| && s[1..][m] == r[k];
          assert s[1..][m] == s[m + 1];
        }
      }
    }
  }

  /** The rows as `ORDER BY created_at DESC` returns them: the same rows,
      newest first. Rows with equal timestamps come in table order (the
      database leaves their order open; this is one admissible choice). */
  function SortNewestFirst(rows: seq<Todo>): (r: seq<Todo>)
    ensures multiset(r) == multiset(rows)
    ensures SortedNewestFirst(r)
  {
    if rows == [] then []
    else
      assert rows == [rows[0]] + rows[1..];
      InsertKeepsSorted(rows[0], SortNewestFirst(rows[1..]));
      InsertNewestFirst(rows[0], SortNewestFirst(rows[1..]))
  }

  lemma {:induction false} InsertStrict(t: Todo, s: seq<Todo>)
    requires StrictlyNewestFirst(s)
    requires forall k :: 0 <= k < |s| ==> s[k].createdAt != t.createdAt
    ensures StrictlyNewestFirst(InsertNewestFirst(t, s))
  {
    if s != [] && s[0].createdAt > t.createdAt {
      InsertStrict(t, s[1..]);
      var r := InsertNewestFirst(t, s[1..]);
      forall j | 0 <= j < |r| ensures s[0].createdAt > r[j].createdAt {
        assert r[j] in multiset(s[1..]) + multiset{t};
      }
    }
  }

  /** Rows created at pairwise distinct times are listed strictly newest first. */
  lemma {:induction false} DistinctTimesListStrictly(rows: seq<Todo>)
    requires forall i, j :: 0 <= i < j < |rows| ==> rows[i].createdAt != rows[j].createdAt
    ensures StrictlyNewestFirst(SortNewestFirst(rows))
  {
    if rows != [] {
      var rest := rows[1..];
      DistinctTimesListStrictly(rest);
      var s := SortNewestFirst(rest);
      forall k | 0 <= k < |s| ensures s[k].createdAt != rows[0].createdAt {
        assert s[k] in multiset(rest);
        var m :| 0 <= m < |rest| && rest[m] == s[k];
        assert rest[m] == rows[m + 1];
      }
      InsertStrict(rows[0], s);
    }
  }
}
