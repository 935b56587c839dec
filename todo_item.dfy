/** The list entry and the two intents a rendered row emits
    (src/components/TodoItem.tsx). A row holds no state of its own. */
module TodoItem {

  /** One entry of the list: an id, a title and a completion flag, nothing else.
      The source's `number` id is modelled as an integer, the only kind of value
      the list ever stores (the seed ids and clock readings). */
  datatype Todo = Todo(id: int, title: string, completed: bool)

  /** The payload of the toggle intent: the id of the row and the new flag. */
  datatype ToggleRequest = ToggleRequest(id: int, completed: bool)

  /** Clicking the title of a row asks to set its flag to the opposite of
      what the row currently shows. */
  function ToggleIntent(todo: Todo): (r: ToggleRequest)
    ensures r.id == todo.id
    ensures r.completed != todo.completed
  {
    ToggleRequest(todo.id, !todo.completed)
  }

  /** Clicking the delete button of a row sends the row's id and nothing else. */
  function DeleteIntent(todo: Todo): (r: int)
    ensures r == todo.id
  {
    todo.id
  }

  /** Two toggle intents in a row, the second taken from the entry the first
      produced, ask for the flag the row started with. */
  lemma ToggleIntentTwice(todo: Todo)
    ensures var once := todo.(completed := ToggleIntent(todo).completed);
            ToggleIntent(once) == ToggleRequest(todo.id, todo.completed)
  {
  }
}
