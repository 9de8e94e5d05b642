/** The todo list (todo-app/script.js): an ordered list of todos that the
    handlers append to, toggle in place and filter by id, a view derived from
    a status filter and a search query, and a mirror of the list in the store
    under `todos_v1`. */
module TodoApp {
  import opened Sequences
  import opened Text
  import opened Storage

  const TodosKey := "todos_v1"

  /** One todo. `id` is the string form of the numeric id, because every
      comparison the list makes goes through `String(...)`. */
  datatype Todo = Todo(id: string, text: string, completed: bool, createdAt: string)

  function IsCompleted(t: Todo): bool { t.completed }

  function IsActive(t: Todo): bool { !t.completed }

  /** `todos.findIndex(t => String(t.id) === String(id))`: the first position
      holding `id`, or -1 when no todo has it. */
  function IndexOfId(todos: seq<Todo>, id: string): (r: int)
    ensures -1 <= r < |todos|
    ensures r == -1 <==> forall k :: 0 <= k < |todos| ==> todos[k].id != id
    ensures 0 <= r ==> todos[r].id == id && forall k :: 0 <= k < r ==> todos[k].id != id
  {
    if todos == [] then -1
    else if todos[0].id == id then 0
    else
      var r := IndexOfId(todos[1..], id);
      if r == -1 then -1 else r + 1
  }

  /** The list after `toggleTodo(id)`: the first todo with that id has its
      `completed` flag negated; every other todo, the length and the order
      stay as they were. */
  function Toggled(todos: seq<Todo>, id: string): (r: seq<Todo>)
    ensures |r| == |todos|
    ensures forall k :: 0 <= k < |r| ==> r[k].(completed := todos[k].completed) == todos[k]
    ensures forall k :: 0 <= k < |r| ==> (r[k].completed != todos[k].completed <==> k == IndexOfId(todos, id))
  {
    var idx := IndexOfId(todos, id);
    if idx == -1 then todos
    else todos[idx := todos[idx].(completed := !todos[idx].completed)]
  }

  /** Toggling the same id twice restores the list. */
  lemma ToggledTwice(todos: seq<Todo>, id: string)
    ensures Toggled(Toggled(todos, id), id) == todos
  {
    var once := Toggled(todos, id);
    assert forall k :: 0 <= k < |once| ==> once[k].id == todos[k].id;
    assert IndexOfId(once, id) == IndexOfId(todos, id);
  }

  /** The list after `deleteTodo(id)`: exactly the todos whose id differs, in
      their original order, each as often as before. */
  function RemoveId(todos: seq<Todo>, id: string): (r: seq<Todo>)
    ensures IsSubsequence(r, todos)
    ensures forall t :: t in r <==> t in todos && t.id != id
    ensures forall t :: multiset(r)[t] == if t.id != id then multiset(todos)[t] else 0
  {
    var keep := (t: Todo) => t.id != id;
    FilterCounts(keep, todos);
    Filter(keep, todos)
  }

  /** Deleting the same id twice is the same as deleting it once. */
  lemma RemoveIdIdempotent(todos: seq<Todo>, id: string)
    ensures RemoveId(RemoveId(todos, id), id) == RemoveId(todos, id)
  {
    FilterIdempotent((t: Todo) => t.id != id, todos);
  }

  datatype TodoCounts = TodoCounts(total: nat, completed: nat)

  /** The numbers `updateCounts` shows: all todos, and how many are completed;
      the active ones make up the rest. */
  function Counts(todos: seq<Todo>): (c: TodoCounts)
    ensures c.total == |todos|
    ensures c.completed + |Filter(IsActive, todos)| == c.total
  {
    FilterSplitsLength(IsCompleted, IsActive, todos);
    TodoCounts(|todos|, |Filter(IsCompleted, todos)|)
  }

  /** Toggling moves exactly one todo between completed and active, and only
      when some todo has the id. */
  lemma ToggledCounts(todos: seq<Todo>, id: string)
    ensures var idx := IndexOfId(todos, id);
      Counts(Toggled(todos, id)).completed ==
        if idx == -1 then Counts(todos).completed
        else if todos[idx].completed then Counts(todos).completed - 1
        else Counts(todos).completed + 1
  {
    var idx := IndexOfId(todos, id);
    if idx != -1 {
      FilterLengthUpdate(IsCompleted, todos, idx, todos[idx].(completed := !todos[idx].completed));
    }
  }

  /** A new todo adds one to the total and none to the completed count. */
  lemma AppendedCounts(todos: seq<Todo>, t: Todo)
    requires !t.completed
    ensures Counts(todos + [t]) == TodoCounts(Counts(todos).total + 1, Counts(todos).completed)
  {
    FilterAppend(IsCompleted, todos, t);
  }

  /** What the status filter lets through: `active` only open todos,
      `completed` only finished ones, any other value everything. */
  predicate StatusAdmits(filter: string, t: Todo)
  {
    (filter == "active" ==> !t.completed) && (filter == "completed" ==> t.completed)
  }

  /** What the search lets through: a blank query everything, otherwise the
      todos whose lower-cased text contains the trimmed, lower-cased query. */
  predicate QueryAdmits(query: string, t: Todo)
  {
    Trim(query) == [] || Contains(Lower(t.text), Lower(Trim(query)))
  }

  predicate Shown(filter: string, query: string, t: Todo)
  {
    StatusAdmits(filter, t) && QueryAdmits(query, t)
  }

  function Matches(q: string): Todo -> bool
  {
    (t: Todo) => Contains(Lower(t.text), Lower(q))
  }

  /** `getFilteredTodos`: the status filter first, then the search. */
  function FilteredTodos(todos: seq<Todo>, filter: string, query: string): seq<Todo>
  {
    var byActive := if filter == "active" then Filter(IsActive, todos) else todos;
    var byStatus := if filter == "completed" then Filter(IsCompleted, byActive) else byActive;
    var q := Trim(query);
    if q != [] then Filter(Matches(q), byStatus) else byStatus
  }

  /** The view is a single filter over the list by `Shown`: an order-preserving
      subsequence holding every todo that passes both the status filter and
      the search, as often as it occurs in the list, and nothing else. */
  lemma FilteredTodosSpec(todos: seq<Todo>, filter: string, query: string)
    ensures FilteredTodos(todos, filter, query) == Filter(t => Shown(filter, query, t), todos)
    ensures var r := FilteredTodos(todos, filter, query);
      IsSubsequence(r, todos)
      && (forall t :: t in r <==> t in todos && Shown(filter, query, t))
      && (forall t :: multiset(r)[t] == if Shown(filter, query, t) then multiset(todos)[t] else 0)
  {
    var shown := (t: Todo) => Shown(filter, query, t);
    var q := Trim(query);
    var status := (t: Todo) => StatusAdmits(filter, t);
    var byStatus := if filter == "active" then Filter(IsActive, todos)
      else if filter == "completed" then Filter(IsCompleted, todos) else todos;
    if filter == "active" {
      FilterExtensional(IsActive, status, todos);
    } else if filter == "completed" {
      FilterExtensional(IsCompleted, status, todos);
    } else {
      FilterKeepsAll(status, todos);
    }
    assert byStatus == Filter(status, todos);
    if q != [] {
      FilterFusion(status, Matches(q), shown, todos);
    } else {
      FilterExtensional(status, shown, todos);
    }
    FilterCounts(shown, todos);
  }

  /** Under `active` only open todos are shown, under `completed` only
      finished ones, and under a non-blank query only todos whose lower-cased
      text contains the trimmed, lower-cased query. */
  lemma FilteredTodosAdmit(todos: seq<Todo>, filter: string, query: string)
    ensures forall t :: t in FilteredTodos(todos, filter, query) ==>
      (filter == "active" ==> !t.completed)
      && (filter == "completed" ==> t.completed)
      && (Trim(query) != [] ==> Contains(Lower(t.text), Lower(Trim(query))))
  {
    FilteredTodosSpec(todos, filter, query);
  }

  /** Which of the three outcomes `render` shows. */
  datatype TodoPanel = EmptyState | NoResults | Items(shown: seq<Todo>)

  datatype TodoScreen = TodoScreen(panel: TodoPanel, counts: TodoCounts)

  /** `render`: the empty-list message exactly when there are no todos, the
      no-match message exactly when there are todos but none is shown, the
      filtered todos in list order otherwise; the counts always. */
  function Render(todos: seq<Todo>, filter: string, query: string): (v: TodoScreen)
    ensures v.counts == Counts(todos)
    ensures v.panel == EmptyState <==> todos == []
    ensures v.panel == NoResults <==> todos != [] && FilteredTodos(todos, filter, query) == []
    ensures v.panel.Items? ==> v.panel.shown == FilteredTodos(todos, filter, query) != []
  {
    var list := FilteredTodos(todos, filter, query);
    var panel := if todos == [] then EmptyState else if list == [] then NoResults else Items(list);
    TodoScreen(panel, Counts(todos))
  }

  /** With no status filter and a blank query every todo is shown, so the
      no-match message never appears. */
  lemma UnrestrictedRenderShowsAll(todos: seq<Todo>, filter: string, query: string)
    requires filter != "active" && filter != "completed" && Trim(query) == []
    ensures Render(todos, filter, query).panel == if todos == [] then EmptyState else Items(todos)
  {
    FilteredTodosSpec(todos, filter, query);
    FilterKeepsAll(t => Shown(filter, query, t), todos);
  }

  /** The page state: the list, the filter and the query the handlers set, and
      what was last rendered. */
  class TodoList {
    var todos: seq<Todo>
    var currentFilter: string
    var currentQuery: string
    var screen: TodoScreen
    const store: Store<Todo>

    /** The screen shows the current state: every handler ends with `render`. */
    ghost predicate Rendered()
      reads this
    {
      screen == Render(todos, currentFilter, currentQuery)
    }

    /** Page start: load the list, no filter, no query, first render. */
    constructor (store: Store<Todo>)
      ensures this.store == store
      ensures todos == store.Load(TodosKey)
      ensures currentFilter == "all" && currentQuery == ""
      ensures Rendered()
    {
      this.store := store;
      todos := store.Load(TodosKey);
      currentFilter := "all";
      currentQuery := "";
      new;
      Refresh();
    }

    /** `render`: redraw the screen from the list, the filter and the query. */
    method Refresh()
      modifies this`screen
      ensures Rendered()
    {
      screen := Render(todos, currentFilter, currentQuery);
    }

    /** `addTodo(text)`; `id` and `createdAt` stand for `uid()` and the
        current time. Blank text is refused without saving or rendering;
        otherwise one todo is appended, the list saved and rendered. */
    method AddTodo(text: string, id: string, createdAt: string) returns (added: bool)
      modifies this, store
      ensures added <==> Trim(text) != []
      ensures added ==> todos == old(todos) + [Todo(id, Trim(text), false, createdAt)] && Rendered()
      ensures !added ==> todos == old(todos) && screen == old(screen) && store.entries == old(store.entries)
      ensures added ==> WrittenOrKept(old(store.entries), store.entries, TodosKey, todos)
      ensures currentFilter == old(currentFilter) && currentQuery == old(currentQuery)
    {
      var trimmed := Trim(text);
      if trimmed == [] {
        return false;
      }
      todos := todos + [Todo(id, trimmed, false, createdAt)];
      var _ := store.Save(TodosKey, todos);
      Refresh();
      added := true;
    }

    /** `toggleTodo(id)`: flips the first todo with that id, then saves and
        renders; an unknown id changes nothing and saves nothing. */
    method ToggleTodo(id: string)
      modifies this, store
      ensures todos == Toggled(old(todos), id)
      ensures IndexOfId(old(todos), id) != -1 ==> Rendered()
      ensures IndexOfId(old(todos), id) == -1 ==> screen == old(screen) && store.entries == old(store.entries)
      ensures IndexOfId(old(todos), id) != -1 ==> WrittenOrKept(old(store.entries), store.entries, TodosKey, todos)
      ensures currentFilter == old(currentFilter) && currentQuery == old(currentQuery)
    {
      var idx := IndexOfId(todos, id);
      if idx == -1 {
        return;
      }
      todos := todos[idx := todos[idx].(completed := !todos[idx].completed)];
      var _ := store.Save(TodosKey, todos);
      Refresh();
    }

    /** `deleteTodo(id)`: drops every todo with that id, then saves and
        renders, whether or not anything was dropped. */
    method DeleteTodo(id: string)
      modifies this, store
      ensures Rendered()
      ensures todos == RemoveId(old(todos), id)
      ensures WrittenOrKept(old(store.entries), store.entries, TodosKey, todos)
      ensures currentFilter == old(currentFilter) && currentQuery == old(currentQuery)
    {
      todos := RemoveId(todos, id);
      var _ := store.Save(TodosKey, todos);
      Refresh();
    }

    /** A filter button: remember its filter value and render. */
    method SetFilter(filter: string)
      modifies this
      ensures Rendered()
      ensures currentFilter == filter
      ensures todos == old(todos) && currentQuery == old(currentQuery)
    {
      currentFilter := filter;
      Refresh();
    }

    /** The (debounced) search input: remember the raw query and render. */
    method SetQuery(query: string)
      modifies this
      ensures Rendered()
      ensures currentQuery == query
      ensures todos == old(todos) && currentFilter == old(currentFilter)
    {
      currentQuery := query;
      Refresh();
    }
  }
}
