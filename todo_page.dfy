/** The state owner (src/app/page.tsx): the ordered list of entries and the
    three transitions the page hands to its children. Each transition builds a
    new list from the old one; none of them fails. */
module TodoPage {
  import opened TodoItem

  /** The seed list shown before any interaction. */
  function InitialTodos(): (r: seq<Todo>)
    ensures |r| == 3
    ensures UniqueIds(r)
    ensures forall k :: 0 <= k < |r| ==> r[k].id == k + 1
    ensures r[0].completed && !r[1].completed && !r[2].completed
  {
    [ Todo(1, "Learn Next.js", true),
      Todo(2, "Build a TODO App", false),
      Todo(3, "Deploy to Vercel", false) ]
  }

  /** No two entries share an id. The page assumes this but never enforces it. */
  predicate UniqueIds(todos: seq<Todo>)
  {
    forall i, j :: 0 <= i < j < |todos| ==> todos[i].id != todos[j].id
  }

  /** Some entry carries `id`. */
  predicate HasId(todos: seq<Todo>, id: int)
  {
    exists k :: 0 <= k < |todos| && todos[k].id == id
  }

  /** How many entries carry `id`. */
  function CountId(todos: seq<Todo>, id: int): (n: nat)
    ensures n <= |todos|
    ensures n == 0 <==> !HasId(todos, id)
  {
    if todos == [] then 0
    else (if todos[0].id == id then 1 else 0) + CountId(todos[1..], id)
  }

  /** Add: append a fresh, not completed entry with the given id and title.
      The id stands for the clock reading; nothing checks that it is new, and
      the title is taken as given, untrimmed and unvalidated. */
  function Add(todos: seq<Todo>, id: int, title: string): (r: seq<Todo>)
    ensures |r| == |todos| + 1
    ensures r[..|todos|] == todos
    ensures r[|todos|] == Todo(id, title, false)
  {
    todos + [Todo(id, title, false)]
  }

  /** The per-entry step of Toggle: a matching entry gets the new flag,
      keeping its id and title; any other entry is returned as it is. */
  function Toggled(todo: Todo, id: int, completed: bool): (r: Todo)
    ensures r.id == todo.id && r.title == todo.title
    ensures r.completed == (if todo.id == id then completed else todo.completed)
  {
    if todo.id == id then todo.(completed := completed) else todo
  }

  /** ToggleComplete: every entry whose id matches gets `completed`;
      the others are kept as they are, in place. */
  function Toggle(todos: seq<Todo>, id: int, completed: bool): (r: seq<Todo>)
    ensures |r| == |todos|
  {
    if todos == [] then []
    else [Toggled(todos[0], id, completed)] + Toggle(todos[1..], id, completed)
  }

  /** Delete: keep exactly the entries whose id differs, in their order. */
  function Delete(todos: seq<Todo>, id: int): (r: seq<Todo>)
    ensures |r| <= |todos|
    ensures forall k :: 0 <= k < |r| ==> r[k].id != id
  {
    if todos == [] then []
    else (if todos[0].id == id then [] else [todos[0]]) + Delete(todos[1..], id)
  }

  // ----- Add -----

  /** Adding an id nobody has keeps the ids unique; an id already in use breaks it. */
  lemma {:induction false} AddUniqueIds(todos: seq<Todo>, id: int, title: string)
    requires UniqueIds(todos)
    ensures UniqueIds(Add(todos, id, title)) <==> !HasId(todos, id)
  {
    var r := Add(todos, id, title);
    if HasId(todos, id) {
      var k :| 0 <= k < |todos| && todos[k].id == id;
      assert r[k].id == r[|todos|].id;
    }
  }

  // ----- Toggle -----

  /** Toggle changes a matching entry's flag only, and leaves every other entry alone. */
  lemma {:induction false} TogglePointwise(todos: seq<Todo>, id: int, completed: bool)
    ensures var r := Toggle(todos, id, completed);
            forall k :: 0 <= k < |todos| ==>
              if todos[k].id == id then r[k] == Todo(id, todos[k].title, completed)
              else r[k] == todos[k]
  {
    if todos != [] {
      TogglePointwise(todos[1..], id, completed);
      var r := Toggle(todos, id, completed);
      forall k | 1 <= k < |todos|
        ensures r[k] == Toggle(todos[1..], id, completed)[k - 1]
      {
      }
    }
  }

  /** Toggle of an id no entry carries gives back the same list. */
  lemma {:induction false} ToggleAbsent(todos: seq<Todo>, id: int, completed: bool)
    requires !HasId(todos, id)
    ensures Toggle(todos, id, completed) == todos
  {
    if todos != [] {
      assert todos[0].id != id;
      ToggleAbsent(todos[1..], id, completed);
      assert todos == [todos[0]] + todos[1..];
    }
  }

  /** A second toggle of the same id overrides the first. */
  lemma ToggleOverride(todos: seq<Todo>, id: int, first: bool, second: bool)
    ensures Toggle(Toggle(todos, id, first), id, second) == Toggle(todos, id, second)
  {
    var once := Toggle(todos, id, first);
    TogglePointwise(todos, id, first);
    TogglePointwise(once, id, second);
    TogglePointwise(todos, id, second);
  }

  /** Toggling twice with the same flag is the same as toggling once. */
  lemma ToggleIdempotent(todos: seq<Todo>, id: int, completed: bool)
    ensures Toggle(Toggle(todos, id, completed), id, completed) == Toggle(todos, id, completed)
  {
    ToggleOverride(todos, id, completed, completed);
  }

  /** Setting the flag every matching entry already has changes nothing; so
      toggling away and back restores the list exactly. */
  lemma ToggleRestores(todos: seq<Todo>, id: int, completed: bool, other: bool)
    requires forall k :: 0 <= k < |todos| && todos[k].id == id ==> todos[k].completed == completed
    ensures Toggle(todos, id, completed) == todos
    ensures Toggle(Toggle(todos, id, other), id, completed) == todos
  {
    TogglePointwise(todos, id, completed);
    ToggleOverride(todos, id, other, completed);
  }

  /** Toggle changes no id, so it keeps them unique. */
  lemma ToggleUniqueIds(todos: seq<Todo>, id: int, completed: bool)
    requires UniqueIds(todos)
    ensures UniqueIds(Toggle(todos, id, completed))
  {
    TogglePointwise(todos, id, completed);
  }

  // ----- Delete -----

  /** Deleting from a joined list deletes from each part: order is kept. */
  lemma {:induction false} DeleteConcat(a: seq<Todo>, b: seq<Todo>, id: int)
    ensures Delete(a + b, id) == Delete(a, id) + Delete(b, id)
  {
    if a == [] {
      assert a + b == b;
    } else {
      assert (a + b)[1..] == a[1..] + b;
      DeleteConcat(a[1..], b, id);
    }
  }

  /** Delete keeps each entry with a different id as often as it occurred, and
      no entry with the id. */
  lemma {:induction false} DeleteMultiset(todos: seq<Todo>, id: int)
    ensures forall t :: multiset(Delete(todos, id))[t] == if t.id == id then 0 else multiset(todos)[t]
  {
    if todos != [] {
      DeleteMultiset(todos[1..], id);
      assert todos == [todos[0]] + todos[1..];
      assert multiset(todos) == multiset{todos[0]} + multiset(todos[1..]);
    }
  }

  /** Delete drops exactly as many entries as carry the id. */
  lemma {:induction false} DeleteLength(todos: seq<Todo>, id: int)
    ensures |Delete(todos, id)| == |todos| - CountId(todos, id)
  {
    if todos != [] {
      DeleteLength(todos[1..], id);
    }
  }

  /** Delete of an id no entry carries gives back the same list. */
  lemma DeleteAbsent(todos: seq<Todo>, id: int)
    requires !HasId(todos, id)
    ensures Delete(todos, id) == todos
  {
    DeleteLength(todos, id);
    DeleteRemovingNothing(todos, id);
  }

  /** A Delete that drops no entry returns the list it was given. */
  lemma {:induction false} DeleteRemovingNothing(todos: seq<Todo>, id: int)
    ensures |Delete(todos, id)| == |todos| ==> Delete(todos, id) == todos
  {
    if todos != [] {
      DeleteRemovingNothing(todos[1..], id);
      if |Delete(todos, id)| == |todos| {
        assert todos[0].id != id;
        assert todos == [todos[0]] + todos[1..];
      }
    }
  }

  /** Deleting the same id twice is the same as deleting it once. */
  lemma DeleteIdempotent(todos: seq<Todo>, id: int)
    ensures Delete(Delete(todos, id), id) == Delete(todos, id)
  {
    DeleteAbsent(Delete(todos, id), id);
  }

  /** An entry is deleted whatever its flag: a toggle before a delete of the
      same id makes no difference. */
  lemma {:induction false} DeleteAfterToggle(todos: seq<Todo>, id: int, completed: bool)
    ensures Delete(Toggle(todos, id, completed), id) == Delete(todos, id)
  {
    if todos != [] {
      DeleteAfterToggle(todos[1..], id, completed);
      assert Toggle(todos, id, completed)[1..] == Toggle(todos[1..], id, completed);
    }
  }

  /** Adding an entry under a new id and deleting that id gives back the list. */
  lemma AddThenDelete(todos: seq<Todo>, id: int, title: string)
    requires !HasId(todos, id)
    ensures Delete(Add(todos, id, title), id) == todos
  {
    DeleteConcat(todos, [Todo(id, title, false)], id);
    DeleteAbsent(todos, id);
    assert Delete([Todo(id, title, false)], id) == [];
  }

  /** An entry survives Delete exactly when it was in the list under another id. */
  lemma DeleteMembers(todos: seq<Todo>, id: int)
    ensures forall t :: t in Delete(todos, id) <==> t in todos && t.id != id
  {
    DeleteMultiset(todos, id);
  }

  /** Delete keeps the ids unique. */
  lemma {:induction false} DeleteUniqueIds(todos: seq<Todo>, id: int)
    requires UniqueIds(todos)
    ensures UniqueIds(Delete(todos, id))
  {
    if todos != [] {
      var rest := Delete(todos[1..], id);
      DeleteUniqueIds(todos[1..], id);
      if todos[0].id != id {
        forall j | 0 <= j < |rest| ensures rest[j].id != todos[0].id {
          DeleteMembers(todos[1..], id);
          assert rest[j] in todos[1..];
        }
        assert Delete(todos, id) == [todos[0]] + rest;
      }
    }
  }
}
