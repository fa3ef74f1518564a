/**
 * The client's list view: its state (`todos`, `inputValue`, `loading`,
 * `error`) and the handlers that call the API and update that state. Each
 * handler runs as one step: the outcome of its awaited request is an
 * argument, and the request it issues is its result.
 */
module TodoApp {
  import opened Wrappers
  import opened JsText
  import opened Decimal
  import opened Config
  import opened Todos

  /** The outcome of an awaited `fetch` and its JSON decoding: a successful
      response with its data, a response that is not ok, or an exception
      (network failure, unreadable body) with its message. */
  datatype Reply<T> = Ok(data: T) | HttpError | Thrown(message: string)

  /** A request the client sends. */
  datatype Request =
    | Get(url: string)
    | Post(url: string, text: string)
    | Put(url: string, completed: bool)
    | Delete(url: string)

  const TodosPath := "/api/todos"

  /** `/api/todos/${id}` */
  function TodoPath(id: int): string {
    TodosPath + "/" + ShowInt(id)
  }

  /** Different ids address different todos: the path determines the id. */
  lemma TodoPathInjective(m: int, n: int)
    requires TodoPath(m) == TodoPath(n)
    ensures m == n
  {
    assert TodoPath(m)[|TodosPath| + 1..] == ShowInt(m);
    assert TodoPath(n)[|TodosPath| + 1..] == ShowInt(n);
    ShowIntInjective(m, n);
  }

  /** The message `catch (err)` stores: a response that is not ok is thrown
      as an error carrying the handler's own message. */
  function FailureMessage<T>(reply: Reply<T>, own: string): string {
    match reply
    case Thrown(message) => message
    case _ => own
  }

  class App {
    const apiBase: string
    var todos: seq<Todo>
    var inputValue: string
    var loading: bool
    var error: Option<string>

    /** The initial state: an empty list, an empty input, loading, no error. */
    constructor (apiBase: string)
      ensures this.apiBase == apiBase
      ensures todos == [] && inputValue == "" && loading && error == None
    {
      this.apiBase := apiBase;
      todos, inputValue, loading, error := [], "", true, None;
    }

    /** The input field's change handler. */
    method SetInputValue(value: string)
      modifies this
      ensures inputValue == value
      ensures todos == old(todos) && loading == old(loading) && error == old(error)
    {
      inputValue := value;
    }

    /** `fetchTodos`: on success the list becomes the fetched one and the
        error is cleared; on failure the list stays; either way loading ends. */
    method FetchTodos(reply: Reply<seq<Todo>>) returns (request: Request)
      modifies this
      ensures request == Get(GetApiUrl(apiBase, TodosPath))
      ensures !loading && inputValue == old(inputValue)
      ensures reply.Ok? ==> todos == reply.data && error == None
      ensures !reply.Ok? ==> todos == old(todos) && error == Some(FailureMessage(reply, "Failed to fetch todos"))
    {
      loading := true;
      request := Get(GetApiUrl(apiBase, TodosPath));
      if reply.Ok? {
        todos := reply.data;
        error := None;
      } else {
        error := Some(FailureMessage(reply, "Failed to fetch todos"));
      }
      loading := false;
    }

    /** `addTodo`: blank input sends nothing and changes nothing; otherwise the
        untrimmed input is posted, and on success the created todo is put in
        front, the input cleared and the error reset. */
    method AddTodo(reply: Reply<Todo>) returns (request: Option<Request>)
      modifies this
      ensures loading == old(loading)
      ensures IsBlank(old(inputValue)) ==>
        request == None && todos == old(todos) && inputValue == old(inputValue) && error == old(error)
      ensures !IsBlank(old(inputValue)) ==> request == Some(Post(GetApiUrl(apiBase, TodosPath), old(inputValue)))
      ensures !IsBlank(old(inputValue)) && reply.Ok? ==>
        todos == [reply.data] + old(todos) && inputValue == "" && error == None
      ensures !IsBlank(old(inputValue)) && !reply.Ok? ==>
        todos == old(todos) && inputValue == old(inputValue) && error == Some(FailureMessage(reply, "Failed to create todo"))
    {
      if IsBlank(inputValue) {
        return None;
      }
      request := Some(Post(GetApiUrl(apiBase, TodosPath), inputValue));
      if reply.Ok? {
        todos := [reply.data] + todos;
        inputValue := "";
        error := None;
      } else {
        error := Some(FailureMessage(reply, "Failed to create todo"));
      }
    }

    /** `toggleTodo`: asks for the opposite of the current completion; on
        success every entry with the returned todo's id is replaced by it. */
    method ToggleTodo(id: int, currentCompleted: bool, reply: Reply<Todo>) returns (request: Request)
      modifies this
      ensures request == Put(GetApiUrl(apiBase, TodoPath(id)), !currentCompleted)
      ensures inputValue == old(inputValue) && loading == old(loading)
      ensures reply.Ok? ==> todos == ReplaceById(old(todos), reply.data) && error == None
      ensures !reply.Ok? ==> todos == old(todos) && error == Some(FailureMessage(reply, "Failed to update todo"))
    {
      request := Put(GetApiUrl(apiBase, TodoPath(id)), !currentCompleted);
      if reply.Ok? {
        todos := ReplaceById(todos, reply.data);
        error := None;
      } else {
        error := Some(FailureMessage(reply, "Failed to update todo"));
      }
    }

    /** `deleteTodo`: on success every entry with the id is dropped, the rest keep their order. */
    method DeleteTodo(id: int, reply: Reply<()>) returns (request: Request)
      modifies this
      ensures request == Delete(GetApiUrl(apiBase, TodoPath(id)))
      ensures inputValue == old(inputValue) && loading == old(loading)
      ensures reply.Ok? ==> todos == RemoveById(old(todos), id) && !HasId(todos, id) && error == None
      ensures !reply.Ok? ==> todos == old(todos) && error == Some(FailureMessage(reply, "Failed to delete todo"))
    {
      request := Delete(GetApiUrl(apiBase, TodoPath(id)));
      if reply.Ok? {
        todos := RemoveById(todos, id);
        error := None;
      } else {
        error := Some(FailureMessage(reply, "Failed to delete todo"));
      }
    }
  }
}
