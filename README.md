# Todo list and contact-message history, modelled in Dafny

Two small browser widgets each keep an ordered list of records in memory, change it with a few list operations, and mirror it to the browser's key-value store:

- The todo app (`todo-app/script.js`) has these operations:
  - `addTodo` appends a todo with trimmed text.
  - `toggleTodo` flips the `completed` flag of the first todo with a given id.
  - `deleteTodo` drops every todo with a given id.
  - `render` shows a view built by `getFilteredTodos`. That view applies a status filter (`all` / `active` / `completed`) and then a case-insensitive search.
  - `updateCounts` shows the total and completed numbers.
- The contact form (`contact_form/script.js`) has these operations:
  - The submit handler appends a message with trimmed fields.
  - The delete handler drops every message with the clicked id.
  - `renderMessages` shows the list newest first, or a placeholder when it is empty.
- Both files carry the same `escapeHtml`: five global replacements, `&` first.

The project is organised by module:

- `Sequences` holds `Array.prototype.filter` and `slice().reverse()`, and what they preserve.
- `Text` holds `trim`, ASCII `toLowerCase` and `includes`.
- `HtmlEscape` holds `escapeHtml`, a one-pass reference for it, and an entity decoder that is its inverse.
- `Storage` holds the store. It is a map from key to what `JSON.parse` makes of the stored text. Load is fail-soft. Save may fail, and which outcome happens is outside the program's control.
- `TodoApp` holds:
  - the pure list operations and the view reducer;
  - the `TodoList` class, whose fields are the module-level state the handlers update (`todos`, `currentFilter`, `currentQuery`), plus what was last rendered.
- `ContactForm` holds:
  - the delete filter and the newest-first view;
  - the `MessageBoard` class with the `messages` list, the rendered view, the count text and the status line.

Ids, timestamps and the raw input values are parameters of the operations. Whether a save succeeds is a nondeterministic choice inside `Storage.Store.Save`.

## Model

| member | source | states |
|---|---|---|
| Sequences.Filter | todo-app/script.js:143 | the result is an order-preserving subsequence of the input, no longer than it, holding exactly the elements that satisfy the predicate |
| Sequences.FilterCounts | contact_form/script.js:134 | every kept element occurs as often as in the input; every dropped value does not occur at all |
| Sequences.FilterIdempotent | todo-app/script.js:143 | filtering twice with the same predicate equals filtering once |
| Sequences.FilterFusion | todo-app/script.js:63-67 | two successive filters equal one filter by the conjunction of their predicates |
| Sequences.FilterSplitsLength | todo-app/script.js:56-57 | the elements kept by a predicate and by its negation together number the whole list |
| Sequences.FilterAppend | todo-app/script.js:126 | filtering a list extended at the end gives the old filtered list, extended by the new element when it is kept |
| Sequences.FilterLengthUpdate | todo-app/script.js:136 | replacing one element changes the kept count only by what the predicate says of the old and the new element |
| Sequences.Reversed | contact_form/script.js:37 | same length; position k holds the element at position length-1-k of the input |
| Text.LeadingSpace | todo-app/script.js:118 | counts a prefix made only of whitespace, followed by a non-whitespace character or the end |
| Text.TrailingSpace | todo-app/script.js:118 | counts a suffix made only of whitespace, preceded by a non-whitespace character or the start |
| Text.Trim | todo-app/script.js:118 | the result is no longer than the input, and neither end of a non-empty result is whitespace |
| Text.TrimSpec | contact_form/script.js:103-105 | the trimmed text occurs in the input right after the leading whitespace, and every character before and after it is whitespace |
| Text.TrimEmptyIffBlank | todo-app/script.js:118-119 | `trim` yields the empty string exactly when the input consists only of whitespace |
| Text.TrimIsInfix | contact_form/script.js:103-105 | the trimmed text is a contiguous piece of the input |
| Text.Contains | todo-app/script.js:67 | `includes`: some index of the text holds an occurrence of the query as a contiguous piece |
| Text.Lower | todo-app/script.js:66-67 | same length, no capital ASCII letter remains, and each character is unchanged or is a capital letter moved to its small letter |
| HtmlEscape.ReplaceAll | todo-app/script.js:34 | one `.replace(/c/g, rep)` pass; its properties are stated by ReplaceAllMembers and ReplaceAllAppend |
| HtmlEscape.EscapeHtml | contact_form/script.js:55-62 | the five passes, `&` first, in the source's order; its contract is stated by EscapeHtmlSafe, EscapeHtmlAmpersandsBeginEntities, EscapeHtmlIsPerChar and UnescapeEscapeHtml |
| HtmlEscape.ReplaceAllMembers | todo-app/script.js:34 | one global replacement leaves a string without the character unchanged, removes the character when the replacement does not contain it, and introduces no character that is not in the input or the replacement |
| HtmlEscape.ReplaceAllAppend | contact_form/script.js:56-61 | a global replacement of a concatenation is the concatenation of the replacements |
| HtmlEscape.EscapeHtmlOneChar | contact_form/script.js:56-61 | on a single character the five-pass chain yields exactly that character's entity, or the character itself |
| HtmlEscape.EscapeHtmlIsPerChar | contact_form/script.js:55-62 | the five sequential passes equal escaping each character independently, so no pass rewrites what an earlier pass produced |
| HtmlEscape.EscapeEachSafe | contact_form/script.js:55-62 | the per-character escape holds no `<`, `>`, `"` or `'`, is never shorter than its input, and is the identity on text without special characters |
| HtmlEscape.EscapeHtmlSafe | todo-app/script.js:34 | the output of `escapeHtml` holds no `<`, `>`, `"` or `'`, is never shorter than the input, and equals the input when the input holds none of the five special characters |
| HtmlEscape.EscapeEachAmpersands | contact_form/script.js:55-62 | every `&` in the per-character escape starts one of the five entities |
| HtmlEscape.EscapeHtmlAmpersandsBeginEntities | contact_form/script.js:55-62 | every `&` in the output of `escapeHtml` starts one of the five entities |
| HtmlEscape.UnescapeStep | contact_form/script.js:57-61 | decoding an escaped character followed by any text yields the character followed by the decoding of that text |
| HtmlEscape.UnescapeEscapeEach | contact_form/script.js:55-62 | decoding the per-character escape recovers the input |
| HtmlEscape.UnescapeEscapeHtml | todo-app/script.js:34 | decoding the five entities in the output of `escapeHtml` recovers the input |
| Storage.LoadFrom | contact_form/script.js:6-16 | the stored array when the key holds one; the empty list when the key is absent, its text unparsable or not an array |
| Storage.Store.Load | todo-app/script.js:6-16 | `loadTodos` / `loadMessages` on the current store: LoadFrom of its entries, whose contract gives the stored array or the empty list |
| Storage.Store.Save | todo-app/script.js:17-25 | on success the key holds the whole list and loading it gives the list back; on failure the store is unchanged |
| TodoApp.IndexOfId | todo-app/script.js:134 | -1 exactly when no todo has the id; otherwise a position holding the id with no earlier position holding it |
| TodoApp.Toggled | todo-app/script.js:133-136 | same length and order; every todo keeps its id, text and date; the flag changes exactly at the first position with the id and nowhere else |
| TodoApp.ToggledTwice | todo-app/script.js:136 | toggling the same id twice restores the list |
| TodoApp.RemoveId | todo-app/script.js:142-143 | an order-preserving subsequence holding exactly the todos whose id differs, each as often as before |
| TodoApp.RemoveIdIdempotent | todo-app/script.js:142-143 | deleting an id twice equals deleting it once |
| TodoApp.Counts | todo-app/script.js:55-59 | the total is the list length, and completed plus active todos make up the total |
| TodoApp.ToggledCounts | todo-app/script.js:133-136 | a toggle moves exactly one todo between completed and active, and only when some todo has the id |
| TodoApp.AppendedCounts | todo-app/script.js:120-126 | appending an open todo adds one to the total and nothing to the completed count |
| TodoApp.FilteredTodos | todo-app/script.js:61-70 | `getFilteredTodos`: the `active` filter, then the `completed` filter, then the search on a non-blank trimmed query; its contract is stated by FilteredTodosSpec and FilteredTodosAdmit |
| TodoApp.FilteredTodosSpec | todo-app/script.js:61-70 | the view is one filter of the list by "passes the status filter and the search": an order-preserving subsequence holding exactly those todos, each as often as in the list |
| TodoApp.FilteredTodosAdmit | todo-app/script.js:63-67 | under `active` only open todos are shown, under `completed` only finished ones, and under a non-blank query only todos whose lower-cased text contains the trimmed, lower-cased query |
| TodoApp.Render | todo-app/script.js:72-115 | the empty-list message exactly when there are no todos; the no-match message exactly when there are todos but none passes; otherwise the filtered todos; the counts of the whole list always |
| TodoApp.UnrestrictedRenderShowsAll | todo-app/script.js:61-70 | with a filter other than `active`/`completed` and a blank query, every todo is shown |
| TodoApp.TodoList.constructor | todo-app/script.js:49-51 | the list is what the store holds under `todos_v1`, the filter is `all`, the query empty, and the screen rendered |
| TodoApp.TodoList.Refresh | todo-app/script.js:72-115 | the screen shows the current list, filter and query |
| TodoApp.TodoList.AddTodo | todo-app/script.js:117-131 | accepted exactly when the trimmed text is non-empty; a refusal changes nothing and saves nothing; an acceptance appends exactly one open todo with the trimmed text at the end, saves the list or leaves the store as it was, and renders |
| TodoApp.TodoList.ToggleTodo | todo-app/script.js:133-140 | the list becomes its toggled form; an unknown id changes nothing and saves nothing; otherwise the list is saved or the store left as it was, and rendered |
| TodoApp.TodoList.DeleteTodo | todo-app/script.js:142-147 | the list keeps exactly the todos with another id; it is saved or the store left as it was, and rendered |
| TodoApp.TodoList.SetFilter | todo-app/script.js:174-181 | the filter takes the button's value, nothing else changes, and the screen is rendered |
| TodoApp.TodoList.SetQuery | todo-app/script.js:168-171 | the query takes the input's raw value, nothing else changes, and the screen is rendered |
| ContactForm.RemoveMessage | contact_form/script.js:134 | an order-preserving subsequence holding exactly the messages whose id differs, each as often as before |
| ContactForm.RemoveAppended | contact_form/script.js:134 | deleting the id of the message just appended restores the list, when no earlier message carried that id |
| ContactForm.View | contact_form/script.js:31-37 | the placeholder exactly when the list is empty; otherwise one card per message, newest first |
| ContactForm.MessageBoard.constructor | contact_form/script.js:96 | the list is what the store holds under `contact_messages_v1`, it is rendered, and an empty list leaves the count text as the page had it |
| ContactForm.MessageBoard.RenderMessages | contact_form/script.js:28-37 | the view is the placeholder or the newest-first cards; the count shows the length for a non-empty list and keeps its old text for an empty one |
| ContactForm.MessageBoard.Submit | contact_form/script.js:98-117 | exactly one message with the trimmed name, email and text is appended at the end, with no emptiness check; it is kept whether or not the save succeeds; the status line reports the outcome; the list is rendered |
| ContactForm.MessageBoard.Delete | contact_form/script.js:128-139 | an empty id does nothing; otherwise the list keeps exactly the messages with another id, with no rollback when the save fails, a warning exactly when it fails, and the list rendered; when the list becomes empty the count keeps its old text |

## Left out

- DOM lookups, `innerHTML` templates, `classList`/`style` toggles, focus handling and the event listeners' wiring (`todo-app/script.js:36-47, 154-166, 183-197`; `contact_form/script.js:81-94`) are not modelled. Each handler is a method that takes the value the listener would read from the page.
- TodoApp.Render: the `if (!todoList) return` guard for a missing list element is not modelled. The rendered screen is the outcome (empty message, no-match message or the shown todos) plus the counts, not the HTML.
- `debounce` and `setTimeout` are not modelled (`todo-app/script.js:3`, `contact_form/script.js:125`). SetQuery is the debounced callback itself.
- `formatDate` / `formatSent` wrap `Intl.DateTimeFormat`. Timestamps are carried as opaque strings.
- `uid()`, `Date.now`, `Math.random` and `toISOString` are not modelled. Ids and timestamps are parameters, and nothing says ids are unique, because the code does not ensure it.
- `localStorage`, `JSON.stringify` and `JSON.parse` are abstracted by Storage.Store. The elements of a loaded array are taken to be well-formed records. The code does not check their shape.
- The `window._todos` / `window.todoApp` / `window.addTodo` debug mirrors are not modelled. Neither is the aliasing they create.
- ContactForm.MessageBoard.Submit stops after `renderMessages`. The `showError` calls at `contact_form/script.js:120-122` name a function that is defined nowhere, so they throw. `form.reset` is not modelled, and the timer that clears the status line is never scheduled.
- ContactForm.MessageBoard.constructor: the stray `-` at `contact_form/script.js:141` turns the initial call into `-renderMessages()`. The call still runs, and the model keeps only the call.
- TodoApp.TodoList.AddTodo: `(text || '')` for a missing input value is not modelled. The text is always a string.
- TodoApp.TodoList.ToggleTodo, TodoApp.TodoList.DeleteTodo: the list's click handler skips an empty `data-id` (`todo-app/script.js:187`). The methods model `toggleTodo`/`deleteTodo` called with any id.
- TodoApp.Todo: ids are kept in their `String(...)` form, since every id comparison in the todo app goes through `String`.
- Text.Lower: only the ASCII letters are case-folded. Unicode-aware `toLowerCase` is not modelled.
- Text.Trim: it works on Unicode scalar values, not UTF-16 code units. The set of removed characters is ECMAScript's WhiteSpace and LineTerminator.
- HtmlEscape.EscapeHtml: the default argument and the `String(...)` coercion of non-string input are not modelled. The input is always a string.
- No field validation is modelled, because neither widget has any.
