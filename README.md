# Todo list: API handlers, client list state and URL joining

This project models the logic of a small todo-list application in Dafny and
proves properties of it. The application has three parts, and the model covers
the logic of each:

- **The REST service** (`server/index.js`) over a `todos` table.
  - The four handlers: `GET`, `POST`, `PUT` and `DELETE` on `/api/todos[/:id]`.
  - Their status codes: 200, 201, 400, 404 and 500.
  - The create validator, which rejects absent or blank text and trims the rest.
  - The partial-update builder. It concatenates `SET` clauses and numbers `$n`
    placeholders with a running counter.
  - The table is an in-memory store (class `TodoServer.TodoTable`) with three
    fields:
    - its rows, in insertion order;
    - the next value of the `SERIAL` id sequence;
    - a clock read as `CURRENT_TIMESTAMP`.
  - A failing database call is the argument `fail` of each handler.
  - The update builder is an imperative method (`UpdateQuery.BuildUpdate`).
    It is proved to produce the rendering of an abstract statement.
  - A database semantics for that statement (`ExecuteUpdate`, `ReturningRows`)
    is proved equal to the intended partial update (`PatchedRow`).
- **The client list view** (`src/App.jsx`).
  - Class `TodoApp.App` holds the component state: `todos`, `inputValue`,
    `loading` and `error`.
  - There is one method per handler. The outcome of the handler's awaited
    request is an argument `Reply`, and the request it sends is its result.
  - Replace by id and filter by id are functions with "nothing else changes"
    contracts. Prepending is written inline in `AddTodo`. The derived
    completed count is a function with lemmas about how it changes.
- **URL joining** (`src/config.js`): `getApiUrl`, with the configured base URL
  as a parameter.

Modules and files:

| module | file | contents |
|---|---|---|
| `Wrappers` | wrappers.dfy | `Option` |
| `JsText` | js_text.dfy | `String.prototype.trim` over the JavaScript white-space set |
| `Decimal` | decimal.dfy | decimal rendering of ids in URLs, with its inverse |
| `Config` | config.dfy | `getApiUrl` |
| `Todos` | todos.dfy | the todo record and the list operations both sides use |
| `UpdateQuery` | update_query.dfy | the `PUT` statement builder and the statement's meaning |
| `TodoServer` | server.dfy | the validator, the table invariant and the four handlers |
| `TodoApp` | app.dfy | the client component's state and handlers |

## Model

| member | source | states |
|---|---|---|
| JsText.TrimStart | server/index.js:69 | drops only characters from the front, and what is left does not start with white space |
| JsText.TrimEnd | server/index.js:69 | drops only characters from the back, and what is left does not end with white space |
| JsText.TrimStartIsSuffix | server/index.js:69 | the result of trimming the front is a suffix of the input, and every dropped character is white space |
| JsText.TrimEndIsPrefix | server/index.js:69 | the result of trimming the back is a prefix of the input, and every dropped character is white space |
| JsText.Trim | server/index.js:69 | `trim()` never lengthens its input and leaves no white space at either end |
| JsText.TrimIsInfix | server/index.js:75 | the trimmed text is a contiguous piece of the input, and exactly the white space around it is removed |
| JsText.BlankIffAllWhiteSpace | server/index.js:69 | `text.trim() === ''` holds exactly when every character is white space |
| JsText.TrimFixedPoints | server/index.js:75 | trimming leaves a string unchanged exactly when it has no white space at either end |
| JsText.TrimIdempotent | server/index.js:96 | trimming already-trimmed text changes nothing |
| Decimal.DigitChar | src/App.jsx:55 | a digit value maps to its own digit character |
| Decimal.DigitValue | src/App.jsx:55 | a digit character has a value below ten |
| Decimal.ShowNat | src/App.jsx:55 | the decimal rendering of a number is never empty |
| Decimal.ShowNatDigits | src/App.jsx:55 | the rendering consists of digits only, and has no leading zero unless the number is 0 |
| Decimal.ShowInt | src/App.jsx:55 | `${id}` is never empty and starts with `-` exactly for negative ids |
| Decimal.ParseShowNat | src/App.jsx:55 | reading the rendering back gives the number again |
| Decimal.ShowNatInjective | src/App.jsx:55 | different naturals render as different digit strings |
| Decimal.ShowIntInjective | src/App.jsx:55 | different integers, negative ones included, render as different strings |
| TodoApp.TodoPathInjective | src/App.jsx:73 | different ids give different paths `/api/todos/${id}` |
| Config.DropLeadingSlash | src/config.js:8 | removes exactly one leading `/` when there is one, and otherwise changes nothing |
| Config.DropTrailingSlash | src/config.js:9 | `replace(/\/$/, '')` removes exactly one trailing `/` when there is one, and otherwise changes nothing |
| Config.GetApiUrl | src/config.js:6-10 | with an empty base the path comes back unchanged; otherwise the length is base part + 1 + path part |
| Config.JoinShape | src/config.js:8-9 | with a base, the URL is `b + "/" + p`, where `b` is the base with its one trailing `/` removed if it has one, and `p` is the path with its one leading `/` removed if it has one |
| Config.LeadingSlashIrrelevant | src/config.js:8 | with a base, `"/" + p` and `p` give the same URL when `p` does not start with `/` |
| Config.SingleSeparator | src/config.js:8-9 | when the base does not end in `//` and the path does not start with `//`, exactly one `/` sits at the joint |
| Config.OnlyOneSlashStripped | src/config.js:8-9 | a path `//x` keeps one leading slash, and a base ending in `//` keeps one trailing slash |
| Todos.ReplaceById | src/App.jsx:63 | `map` keeps the length; each entry with the updated todo's id becomes it, and every other entry stays in its place |
| Todos.RemoveById | src/App.jsx:78 | `filter` keeps exactly the entries with another id |
| Todos.RemoveByIdAppend | src/App.jsx:78 | filtering commutes with concatenation, so the remaining entries keep their relative order |
| Todos.RemoveByIdAbsent | server/index.js:124-128 | deleting an id that no row has changes nothing |
| Todos.RemoveUniqueId | server/index.js:124 | deleting a unique id removes exactly that row and keeps the rows before and after it in order |
| Todos.CompletedCount | src/App.jsx:86-87 | `completedCount` is never more than `totalCount` |
| Todos.CompletedCountExtremes | src/App.jsx:86-87 | the completed count equals the total exactly when every entry is completed, and is 0 exactly when none is |
| Todos.CompletedCountAppend | src/App.jsx:44 | counting is additive, so prepending adds the new entry's contribution |
| Todos.CompletedCountReplace | src/App.jsx:63 | replacing the one entry with a given id changes the completed count by the difference between the old entry and the new one |
| Todos.InsertNewestFirst | server/index.js:57 | insertion adds exactly the new row, as a multiset |
| Todos.InsertKeepsSorted | server/index.js:57 | inserting into a list ordered by `created_at` descending keeps it ordered |
| Todos.SortNewestFirst | server/index.js:57 | `ORDER BY created_at DESC` gives a permutation of the rows, sorted by creation time descending |
| Todos.InsertStrict | server/index.js:57 | with distinct creation times, insertion keeps the order strict |
| Todos.DistinctTimesListStrictly | server/index.js:57 | with distinct creation times, the listing order is strictly newest first |
| UpdateQuery.RenderSetsAppend | server/index.js:95-100 | rendering one more assignment appends its `, column = $n` clause |
| UpdateQuery.SuppliedColumns | server/index.js:94-102 | the `text` clause is present exactly when text is supplied, the `completed` clause exactly when completed is supplied, and text comes first |
| UpdateQuery.Numbered | server/index.js:92-100 | the supplied columns get consecutive placeholders from the starting number |
| UpdateQuery.BuildUpdate | server/index.js:90-105 | the built query is the rendering of the abstract statement (head `updated_at = CURRENT_TIMESTAMP`, supplied clauses, `WHERE id = $n RETURNING *`), and the values are the trimmed text, the flag and then the id |
| UpdateQuery.ExtendQuery | server/index.js:95-100 | appending `, text = $n` or `, completed = $n` to the query renders one more assignment |
| UpdateQuery.ClauseText | server/index.js:95-100 | the rendered clause of each column is the source's literal text |
| UpdateQuery.BuiltSets | server/index.js:92-100 | the assignments, case by case: text at `$1`, and completed at `$2` after text or at `$1` alone |
| UpdateQuery.FinishQuery | server/index.js:104 | the WHERE clause completes the rendering |
| UpdateQuery.PlaceholdersMatchValues | server/index.js:91-105 | placeholders run `$1 .. $|values|`; each supplied column binds its own value, and the last placeholder, in WHERE, binds the id |
| UpdateQuery.BuiltUpdateMeaning | server/index.js:90-105 | the statement selects exactly the row with the id; it sets exactly the supplied fields (text trimmed, blank not rejected), refreshes `updated_at`, and keeps `id`, `created_at` and omitted fields |
| UpdateQuery.ReturnsSelected | server/index.js:107-111 | with unique ids, a statement whose WHERE selects exactly the rows with the id returns nothing exactly when no row has it, and otherwise just that row, updated |
| UpdateQuery.BuiltUpdateReturns | server/index.js:107-111 | with unique ids, `RETURNING *` is empty exactly when no row has the id, and otherwise is that row, patched |
| TodoServer.ValidatedText | server/index.js:69-75 | absent, empty or all-white-space text is rejected; accepted text is exactly `text.trim()`, which is then non-empty, has no white space at either end and is no longer than the input |
| TodoServer.PatchKeepsWellFormed | server/index.js:90-101 | a patch that keeps ids and creation times, stamps now and stores trimmed text keeps the table invariant |
| TodoServer.UpdateEffect | server/index.js:107 | running the built update patches exactly the rows with the id and leaves every other row as it was |
| TodoServer.UpdateKeepsWellFormed | server/index.js:90-107 | running the built update on a well-formed table leaves it well-formed |
| TodoServer.UpdateReply | server/index.js:107-113 | the update returns no row exactly when no row has the id, and the table is then unchanged; otherwise its first returned row has the id and is in the new table |
| TodoServer.AppendKeepsWellFormed | server/index.js:73-76 | inserting a row with the next id, while the `SERIAL` sequence is not exhausted, stamped now and with trimmed text, keeps the table invariant |
| TodoServer.DeleteKeepsWellFormed | server/index.js:124 | deleting an id that a row has removes exactly one row and keeps the table invariant |
| TodoServer.RemoveAtKeepsWellFormed | server/index.js:124 | removing a row keeps the table invariant |
| TodoServer.TodoTable.constructor | server/index.js:38-44 | a new table is empty, its sequence starts at 1, and it satisfies the invariant |
| TodoServer.TodoTable.AdvanceClock | server/index.js:42-43 | time only moves forward and the rows are untouched |
| TodoServer.TodoTable.List | server/index.js:55-63 | on failure 500 with "Failed to fetch todos"; otherwise 200 with every row exactly once, newest first |
| TodoServer.TodoTable.Create | server/index.js:66-82 | 400 "Todo text is required" for absent or blank text; 500 "Failed to create todo" on failure or once the `SERIAL` sequence has passed 2147483647, both with the table unchanged; otherwise 201 with one appended row (fresh id within the int4 range and above all existing ids, trimmed text, not completed, created = updated = now) |
| TodoServer.TodoTable.Update | server/index.js:85-118 | builds the statement, then runs it: 500 on failure and 404 "Todo not found" for an unknown id, both with the table unchanged; otherwise 200 with the row, where only that row is patched and the invariant is kept |
| TodoServer.TodoTable.RunUpdate | server/index.js:107-117 | running the built statement: 500 on failure and 404 for an unknown id, both with the table unchanged; otherwise exactly the row with the id is patched, the invariant is kept, and the reply is that row |
| TodoServer.TodoTable.Delete | server/index.js:121-135 | 500 on failure and 404 for an unknown id, both with the table unchanged; otherwise exactly that row goes, the rest keep their order, and the reply is "Todo deleted successfully" |
| TodoApp.App.constructor | src/App.jsx:6-9 | the initial state is an empty list, an empty input, loading, and no error |
| TodoApp.App.SetInputValue | src/App.jsx:101 | typing replaces the input and nothing else |
| TodoApp.App.FetchTodos | src/App.jsx:15-29 | GETs `getApiUrl('/api/todos')`; success sets the list to the data and clears the error; failure sets the error and keeps the list; loading is false afterwards |
| TodoApp.App.AddTodo | src/App.jsx:31-51 | blank input sends nothing and changes nothing; otherwise POSTs the untrimmed input; success prepends the new todo and clears input and error; failure sets the error and keeps list and input |
| TodoApp.App.ToggleTodo | src/App.jsx:53-69 | PUTs `completed = !currentCompleted`; success replaces by id; failure sets the error and keeps list and input |
| TodoApp.App.DeleteTodo | src/App.jsx:71-84 | sends DELETE; success leaves no entry with the id and the rest in order; failure sets the error and keeps list and input |

## Left out

- Express wiring, CORS, `dotenv`, `app.listen` and the Postgres connection
  (server/index.js:1-52, 137-139) are I/O and framework plumbing. The DDL is
  used only as the schema of the store.
- Real SQL execution and real timestamps. The table is a sequence of rows and
  `CURRENT_TIMESTAMP` is a natural-number clock advanced by `AdvanceClock`.
- Postgres coercion of the string `req.params.id` is not modelled. The id is
  an integer, and a non-numeric id (a 500 from Postgres) is not modelled.
- JavaScript typing quirks.
  - `text` is `Option<string>`: absent or a string.
  - A non-string `text` makes `.trim()` throw. That 500 path is not modelled.
  - A `null` text or completed flag in a `PUT` is not modelled either.
- TodoServer.TodoTable.Create: `id SERIAL` is a 4-byte integer. The model
  answers 500 once the sequence passes 2147483647, and the table invariant
  keeps every id within that range. But an insert that fails in Postgres still
  uses up a sequence value, and the model does not advance `nextId` on a
  failure. So later ids, and the point where the sequence runs out, may differ
  from the database's. Ids stay unique and increasing.
- TodoServer.TodoTable.Update, TodoServer.TodoTable.Delete: an id outside the
  4-byte integer range makes Postgres reject the query with a 500. The model
  answers 404 for such an id, since no row can have it.
- TodoServer.TodoTable.List: rows with equal `created_at` come in table order.
  Postgres leaves their order unspecified, so only the sort order and the
  permutation are promised.
- TodoServer.TodoTable.Update: the reply is stated as the row with the id that
  is now in the table. This identifies it because ids are unique.
- Blank text in an update. Validation applies only to create. An update trims
  the text and stores it even when the result is empty, and the model follows
  the code. The invariant therefore says that stored text is trimmed, not that
  it is non-empty.
- Asynchronous behaviour of the client.
  - Each handler is one atomic step.
  - Interleavings such as a double submit or a toggle racing a delete are not
    modelled.
  - `loading` being true while a fetch is in flight is not modelled.
- The `useEffect` initial fetch, `fetch` and JSON serialisation, React
  rendering and the markup (src/App.jsx:11-13, 89 onwards) are not modelled.
- The `console.error` logging in the server's and the client's failure paths
  (server/index.js:60, 79, 115, 132; src/App.jsx:25, 49, 67, 82) is output
  only and is not modelled.
- `import.meta.env` is not modelled. The base URL is a parameter.
- The regular-expression engine is not modelled. `/\/$/` is "drop one
  trailing slash if present".
- server/test.js is an integration test against a live database and is not
  part of this model.
