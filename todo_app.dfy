/** The page wired to its children (src/app/page.tsx:45-55): the form's submit
    feeds Add, each rendered row's intents feed Toggle and Delete. */
module TodoApp {
  import opened TodoItem
  import opened TodoPage
  import opened AddTodoForm

  /** Everything the page and its form hold: the list and the form's buffer. */
  datatype State = State(todos: seq<Todo>, buffer: string)

  /** One user gesture. `Submit` carries the clock reading used as the new id;
      the row gestures name the row by its position in the rendered list. */
  datatype Event =
    | Type(value: string)
    | Submit(now: int)
    | ClickTitle(row: nat)
    | ClickDelete(row: nat)

  /** The page as first shown: the seed list and an empty field. */
  function Init(): (r: State)
    ensures r.todos == InitialTodos() && r.buffer == ""
    ensures |r.todos| == 3 && UniqueIds(r.todos)
  {
    State(InitialTodos(), "")
  }

  /** The effect of one gesture. Typing touches only the field, row clicks
      only the list, and no gesture grows the list by more than one entry. */
  function Step(s: State, e: Event): (r: State)
    ensures e.Type? ==> r == State(s.todos, e.value)
    ensures e.ClickTitle? || e.ClickDelete? ==> r.buffer == s.buffer
    ensures e.Submit? ==> r == SubmitForm(s, e.now)
    ensures e.ClickTitle? ==> r == ClickRowTitle(s, e.row)
    ensures e.ClickDelete? ==> r == ClickRowDelete(s, e.row)
    ensures |r.todos| <= |s.todos| + 1
  {
    match e
    case Type(value) => s.(buffer := value)
    case Submit(now) => SubmitForm(s, now)
    case ClickTitle(row) => ClickRowTitle(s, row)
    case ClickDelete(row) => ClickRowDelete(s, row)
  }

  /** The form's submit wired to Add, the clock reading becoming the id: a
      blank field changes nothing; otherwise the raw text is appended as a new,
      not completed entry and the field is cleared. */
  function SubmitForm(s: State, now: int): (r: State)
    ensures AllWhitespace(s.buffer) ==> r == s
    ensures !AllWhitespace(s.buffer) ==>
              && |r.todos| == |s.todos| + 1
              && r.todos[..|s.todos|] == s.todos
              && r.todos[|s.todos|] == Todo(now, s.buffer, false)
              && r.buffer == ""
  {
    match Submitted(s.buffer)
    case None => s
    case Some(title) => State(Add(s.todos, now, title), "")
  }

  /** A row's title click wired to Toggle: the clicked row flips its flag and
      keeps its id and title, every entry with another id stays as it is, and
      the field is untouched. A click on a row that is not rendered cannot
      happen; it is given no effect here. */
  function ClickRowTitle(s: State, row: nat): (r: State)
    ensures |r.todos| == |s.todos| && r.buffer == s.buffer
    ensures row < |s.todos| ==> r.todos == Toggle(s.todos, s.todos[row].id, !s.todos[row].completed)
    ensures row < |s.todos| ==> r.todos[row] == s.todos[row].(completed := !s.todos[row].completed)
    ensures row < |s.todos| ==>
              forall k :: 0 <= k < |s.todos| && s.todos[k].id != s.todos[row].id ==> r.todos[k] == s.todos[k]
    ensures row >= |s.todos| ==> r == s
  {
    if row < |s.todos| then
      var req := ToggleIntent(s.todos[row]);
      TogglePointwise(s.todos, req.id, req.completed);
      s.(todos := Toggle(s.todos, req.id, req.completed))
    else s
  }

  /** A row's delete click wired to Delete: the list gets shorter, no entry
      with the clicked row's id is left, every entry with another id is kept,
      and the field is untouched. */
  function ClickRowDelete(s: State, row: nat): (r: State)
    ensures r.buffer == s.buffer
    ensures row < |s.todos| ==> r.todos == Delete(s.todos, s.todos[row].id)
    ensures row < |s.todos| ==>
              && |r.todos| < |s.todos|
              && forall k :: 0 <= k < |r.todos| ==> r.todos[k].id != s.todos[row].id
    ensures row < |s.todos| ==>
              forall t :: t in r.todos <==> t in s.todos && t.id != s.todos[row].id
    ensures row >= |s.todos| ==> r == s
  {
    if row < |s.todos| then
      var id := DeleteIntent(s.todos[row]);
      DeleteLength(s.todos, id);
      DeleteMembers(s.todos, id);
      assert CountId(s.todos, id) > 0 by {
        assert HasId(s.todos, id) by { assert s.todos[row].id == id; }
      }
      s.(todos := Delete(s.todos, id))
    else s
  }

  /** The effect of a sequence of gestures, in order. */
  function Run(s: State, events: seq<Event>): (r: State)
    decreases |events|
  {
    if events == [] then s else Run(Step(s, events[0]), events[1..])
  }

  /** No entry's title is empty or whitespace only: no title is one the
      form's guard would reject (`BlankIffAllWhitespace`). */
  predicate NoBlankTitles(todos: seq<Todo>)
  {
    forall k :: 0 <= k < |todos| ==> !AllWhitespace(todos[k].title)
  }

  /** The seed list has no blank title. */
  lemma InitialTitlesNotBlank()
    ensures NoBlankTitles(Init().todos)
  {
    var todos := InitialTodos();
    forall k | 0 <= k < 3 ensures !AllWhitespace(todos[k].title) {
      assert !IsWhitespace(todos[k].title[0]);
    }
  }

  /** No gesture lets a blank title into the list: the form's guard is the only
      way in, and toggle and delete keep titles as they are. */
  lemma StepKeepsTitlesNotBlank(s: State, e: Event)
    requires NoBlankTitles(s.todos)
    ensures NoBlankTitles(Step(s, e).todos)
  {
    match e
    case Type(_) =>
    case Submit(now) =>
      SubmitKeepsTitlesNotBlank(s.todos, s.buffer, now);
    case ClickTitle(row) =>
      if row < |s.todos| {
        ToggleKeepsTitlesNotBlank(s.todos, s.todos[row].id, !s.todos[row].completed);
      }
    case ClickDelete(row) =>
      if row < |s.todos| {
        DeleteKeepsTitlesNotBlank(s.todos, s.todos[row].id);
      }
  }

  /** Add by itself has no guard: a whitespace-only title passed straight to
      it does end up in the list. Only the form keeps such titles out. */
  lemma AddLetsBlankIn(todos: seq<Todo>, id: int)
    ensures !NoBlankTitles(Add(todos, id, "   "))
  {
    var r := Add(todos, id, "   ");
    assert r[|todos|].title == "   ";
    assert AllWhitespace("   ");
  }

  /** What the form lets through keeps the list free of blank titles. */
  lemma SubmitKeepsTitlesNotBlank(todos: seq<Todo>, buffer: string, now: int)
    requires NoBlankTitles(todos)
    ensures Submitted(buffer).Some? ==> NoBlankTitles(Add(todos, now, Submitted(buffer).value))
  {
  }

  /** Toggle keeps every title, so it keeps them non-blank. */
  lemma ToggleKeepsTitlesNotBlank(todos: seq<Todo>, id: int, completed: bool)
    requires NoBlankTitles(todos)
    ensures NoBlankTitles(Toggle(todos, id, completed))
  {
    TogglePointwise(todos, id, completed);
    var r := Toggle(todos, id, completed);
    forall k | 0 <= k < |r| ensures r[k].title == todos[k].title {
    }
  }

  /** Delete keeps only entries that were there, so titles stay non-blank. */
  lemma DeleteKeepsTitlesNotBlank(todos: seq<Todo>, id: int)
    requires NoBlankTitles(todos)
    ensures NoBlankTitles(Delete(todos, id))
  {
    DeleteMembers(todos, id);
    var r := Delete(todos, id);
    forall k | 0 <= k < |r| ensures !AllWhitespace(r[k].title) {
      assert r[k] in todos;
    }
  }

  /** The form object driven through typing and submit agrees with the
      gestures `Type` and `Submit` of the wired page. */
  method TypeAndSubmit(s: State, value: string, now: int) returns (r: State)
    ensures r == Step(Step(s, Type(value)), Submit(now))
  {
    var form := new Form();
    form.Change(value);
    var emitted := form.Submit();
    ghost var typed := State(s.todos, value);
    assert Step(s, Type(value)) == typed;
    assert Step(typed, Submit(now)) == SubmitForm(typed, now);
    if emitted.Some? {
      r := State(Add(s.todos, now, emitted.value), form.buffer);
    } else {
      r := State(s.todos, form.buffer);
    }
  }

  /** From the first render on, whatever the user does, no title is blank. */
  lemma {:induction false} RunKeepsTitlesNotBlank(s: State, events: seq<Event>)
    requires NoBlankTitles(s.todos)
    ensures NoBlankTitles(Run(s, events).todos)
    decreases |events|
  {
    if events != [] {
      StepKeepsTitlesNotBlank(s, events[0]);
      RunKeepsTitlesNotBlank(Step(s, events[0]), events[1..]);
    }
  }

  /** Every reachable list has no blank title. */
  lemma ReachableTitlesNotBlank(events: seq<Event>)
    ensures NoBlankTitles(Run(Init(), events).todos)
  {
    InitialTitlesNotBlank();
    RunKeepsTitlesNotBlank(Init(), events);
  }

  /** Clicking a row's title twice gives the row back its flag, id and title;
      when no other row shares its id, the whole list is as before. */
  lemma ClickTitleTwice(s: State, row: nat)
    requires row < |s.todos|
    ensures var twice := Step(Step(s, ClickTitle(row)), ClickTitle(row));
            |twice.todos| == |s.todos| && twice.todos[row] == s.todos[row]
    ensures UniqueIds(s.todos) ==> Step(Step(s, ClickTitle(row)), ClickTitle(row)) == s
  {
    var t := s.todos[row];
    var once := Step(s, ClickTitle(row));
    TogglePointwise(s.todos, t.id, !t.completed);
    assert once.todos[row] == t.(completed := !t.completed);
    ToggleOverride(s.todos, t.id, !t.completed, t.completed);
    TogglePointwise(s.todos, t.id, t.completed);
    if UniqueIds(s.todos) {
      ToggleRestores(s.todos, t.id, t.completed, !t.completed);
    }
  }

  /** Gestures take effect one after another, in the order they happen. */
  lemma {:induction false} RunSnoc(s: State, events: seq<Event>, e: Event)
    ensures Run(s, events + [e]) == Step(Run(s, events), e)
    decreases |events|
  {
    if events == [] {
      assert ([] + [e])[1..] == [];
    } else {
      assert (events + [e])[1..] == events[1..] + [e];
      RunSnoc(Step(s, events[0]), events[1..], e);
    }
  }

  /** The walk-through, first step: typing "Write tests" and submitting appends it. */
  lemma ScenarioAdd(now: int)
    ensures Step(Step(Init(), Type("Write tests")), Submit(now))
         == State(InitialTodos() + [Todo(now, "Write tests", false)], "")
  {
    assert !IsWhitespace("Write tests"[0]);
  }

  /** Second step: clicking the second row's title marks entry 2 done, nothing else. */
  lemma ScenarioToggle(now: int)
    requires now != 2
    ensures Step(State(InitialTodos() + [Todo(now, "Write tests", false)], ""), ClickTitle(1))
         == State([ Todo(1, "Learn Next.js", true), Todo(2, "Build a TODO App", true),
                    Todo(3, "Deploy to Vercel", false), Todo(now, "Write tests", false) ], "")
  {
    TogglePointwise(InitialTodos() + [Todo(now, "Write tests", false)], 2, true);
  }

  /** Third step: clicking the third row's delete button removes entry 3 only. */
  lemma ScenarioDelete(now: int)
    requires now != 3
    ensures Step(State([ Todo(1, "Learn Next.js", true), Todo(2, "Build a TODO App", true),
                         Todo(3, "Deploy to Vercel", false), Todo(now, "Write tests", false) ], ""),
                 ClickDelete(2))
         == State([ Todo(1, "Learn Next.js", true), Todo(2, "Build a TODO App", true),
                    Todo(now, "Write tests", false) ], "")
  {
    var toggled := [ Todo(1, "Learn Next.js", true), Todo(2, "Build a TODO App", true),
                     Todo(3, "Deploy to Vercel", false), Todo(now, "Write tests", false) ];
    DeleteConcat(toggled[..2], toggled[2..], 3);
    assert toggled == toggled[..2] + toggled[2..];
    DeleteAbsent(toggled[..2], 3);
    assert Delete(toggled[2..], 3) == Delete(toggled[3..], 3);
    assert toggled[3..] == [Todo(now, "Write tests", false)];
  }

  /** The whole walk-through as one run of gestures from the first render. */
  lemma Scenario(now: int)
    requires now != 1 && now != 2 && now != 3
    ensures Run(Init(), [Type("Write tests"), Submit(now), ClickTitle(1), ClickDelete(2)]).todos
         == [ Todo(1, "Learn Next.js", true), Todo(2, "Build a TODO App", true),
              Todo(now, "Write tests", false) ]
  {
    var e1 := [Type("Write tests")];
    var e2 := e1 + [Submit(now)];
    var e3 := e2 + [ClickTitle(1)];
    var s1 := State(InitialTodos() + [Todo(now, "Write tests", false)], "");
    var s2 := State([ Todo(1, "Learn Next.js", true), Todo(2, "Build a TODO App", true),
                      Todo(3, "Deploy to Vercel", false), Todo(now, "Write tests", false) ], "");
    assert e3 + [ClickDelete(2)] == [Type("Write tests"), Submit(now), ClickTitle(1), ClickDelete(2)];
    calc {
      Run(Init(), e3 + [ClickDelete(2)]);
    == { RunSnoc(Init(), e3, ClickDelete(2)); }
      Step(Run(Init(), e3), ClickDelete(2));
    == { RunSnoc(Init(), e2, ClickTitle(1)); }
      Step(Step(Run(Init(), e2), ClickTitle(1)), ClickDelete(2));
    == { RunSnoc(Init(), e1, Submit(now)); assert e1[1..] == []; }
      Step(Step(Step(Step(Init(), Type("Write tests")), Submit(now)), ClickTitle(1)), ClickDelete(2));
    == { ScenarioAdd(now); }
      Step(Step(s1, ClickTitle(1)), ClickDelete(2));
    == { ScenarioToggle(now); }
      Step(s2, ClickDelete(2));
    }
    ScenarioDelete(now);
  }
}
