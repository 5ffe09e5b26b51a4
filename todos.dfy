/**
 * The task list and the rest of the app state: the list operations as
 * functions on sequences of records, and the class `Board` holding the
 * shared `todos`, `goals` and `reflections` arrays and the `stats` object,
 * whose methods are the button and checkbox handlers. What a dialog returns
 * (`prompt`, `confirm`), today's day number, ids and creation stamps are
 * supplied by the caller.
 */
module Todos {
  import opened Basics
  import opened Text
  import Progress

  datatype Todo = Todo(id: string, title: string, goal: string, note: string, done: bool, created: string)

  datatype Goal = Goal(id: string, name: string, created: string)

  datatype Reflection = Reflection(id: string, text: string, date: string)

  /** A task counts as having a goal when its goal name is not empty (JavaScript truthiness). */
  predicate HasGoal(t: Todo) {
    t.goal != ""
  }

  /** `todos.find(x => x.id === id)`, as a position: the first task with that id, if any. */
  function FindIndex(todos: seq<Todo>, id: string): (r: Option<nat>)
    ensures r.Some? ==> r.value < |todos| && todos[r.value].id == id
    ensures r.Some? ==> forall j :: 0 <= j < r.value ==> todos[j].id != id
    ensures r.None? ==> forall j :: 0 <= j < |todos| ==> todos[j].id != id
    decreases |todos|
  {
    if todos == [] then None
    else if todos[0].id == id then Some(0)
    else
      match FindIndex(todos[1..], id)
      case None => None
      case Some(k) => Some(k + 1)
  }

  /** Lookup depends on the ids alone: changing other fields of tasks keeps every task where it is found. */
  lemma {:induction false} FindIndexSameIds(a: seq<Todo>, b: seq<Todo>, id: string)
    requires |a| == |b| && forall j :: 0 <= j < |a| ==> a[j].id == b[j].id
    ensures FindIndex(a, id) == FindIndex(b, id)
    decreases |a|
  {
    if a != [] {
      FindIndexSameIds(a[1..], b[1..], id);
    }
  }

  /**
   * `todos.filter(t => t.id !== id)`: every task with that id goes, every
   * other one stays, in order. What is kept is stated by `DeleteKeeps`, the
   * no-match case by `DeleteAbsent`, and the order by `DeleteAppend`.
   */
  function Delete(todos: seq<Todo>, id: string): (r: seq<Todo>)
    ensures |r| <= |todos|
    decreases |todos|
  {
    if todos == [] then [] else (if todos[0].id == id then [] else [todos[0]]) + Delete(todos[1..], id)
  }

  /** The number of completed tasks. */
  function DoneCount(todos: seq<Todo>): (n: nat)
    ensures n <= |todos|
    ensures n == 0 <==> forall j :: 0 <= j < |todos| ==> !todos[j].done
    decreases |todos|
  {
    if todos == [] then 0
    else
      var rest := DoneCount(todos[1..]);
      assert forall j :: 1 <= j < |todos| ==> todos[j] == todos[1..][j - 1];
      (if todos[0].done then 1 else 0) + rest
  }

  /**
   * `todos.filter(t => !t.done)`: the open tasks stay, the completed ones go,
   * and the number removed is the number that were completed. What is kept
   * is stated by `ClearCompletedKeeps`, and the order by `ClearCompletedAppend`.
   */
  function ClearCompleted(todos: seq<Todo>): (r: seq<Todo>)
    ensures |r| == |todos| - DoneCount(todos)
    decreases |todos|
  {
    if todos == [] then [] else (if todos[0].done then [] else [todos[0]]) + ClearCompleted(todos[1..])
  }

  /** A task survives the delete exactly when it was in the list under another id. */
  lemma {:induction false} DeleteKeeps(todos: seq<Todo>, id: string, t: Todo)
    ensures t in Delete(todos, id) <==> t in todos && t.id != id
    decreases |todos|
  {
    if todos != [] {
      DeleteKeeps(todos[1..], id, t);
      assert todos == [todos[0]] + todos[1..];
    }
  }

  /** Deleting an id no task has changes nothing. */
  lemma {:induction false} DeleteAbsent(todos: seq<Todo>, id: string)
    requires forall j :: 0 <= j < |todos| ==> todos[j].id != id
    ensures Delete(todos, id) == todos
    decreases |todos|
  {
    if todos != [] {
      assert todos[0].id != id;
      DeleteAbsent(todos[1..], id);
      assert todos == [todos[0]] + todos[1..];
    }
  }

  /** A task survives clearing exactly when it was in the list and open. */
  lemma {:induction false} ClearCompletedKeeps(todos: seq<Todo>, t: Todo)
    ensures t in ClearCompleted(todos) <==> t in todos && !t.done
    decreases |todos|
  {
    if todos != [] {
      ClearCompletedKeeps(todos[1..], t);
      assert todos == [todos[0]] + todos[1..];
    }
  }

  /** Clearing completed tasks twice is clearing them once. */
  lemma {:induction false} ClearCompletedIdempotent(todos: seq<Todo>)
    ensures ClearCompleted(ClearCompleted(todos)) == ClearCompleted(todos)
    decreases |todos|
  {
    if todos != [] {
      ClearCompletedIdempotent(todos[1..]);
      var rest := ClearCompleted(todos[1..]);
      var r := ClearCompleted(todos);
      if todos[0].done {
        assert r == [] + rest == rest;
      } else {
        assert r == [todos[0]] + rest;
        assert r[0] == todos[0] && r[1..] == rest;
      }
    }
  }

  lemma {:induction false} DeleteAppend(a: seq<Todo>, b: seq<Todo>, id: string)
    ensures Delete(a + b, id) == Delete(a, id) + Delete(b, id)
    decreases |a|
  {
    if a == [] {
      assert a + b == b;
    } else {
      assert (a + b)[1..] == a[1..] + b;
      DeleteAppend(a[1..], b, id);
    }
  }

  lemma {:induction false} ClearCompletedAppend(a: seq<Todo>, b: seq<Todo>)
    ensures ClearCompleted(a + b) == ClearCompleted(a) + ClearCompleted(b)
    decreases |a|
  {
    if a == [] {
      assert a + b == b;
    } else {
      assert (a + b)[1..] == a[1..] + b;
      ClearCompletedAppend(a[1..], b);
    }
  }

  /**
   * The new task built by the add button: the trimmed input as its title,
   * the chosen goal, no note, not done. An input that is empty once trimmed
   * gives no task.
   */
  function NewTask(input: string, goal: string, id: string, created: string): (r: Option<Todo>)
    ensures r.None? <==> AllWhitespace(input)
    ensures r.Some? ==> r.value == Todo(id, Trim(input), goal, "", false, created)
    ensures r.Some? ==> r.value.title != [] && !IsWhitespace(r.value.title[0])
  {
    var title := Trim(input);
    if title == "" then None else Some(Todo(id, title, goal, "", false, created))
  }

  /** Deleting a task just added under an id no other task has gives back the list before the add. */
  lemma DeleteUndoesAdd(todos: seq<Todo>, t: Todo)
    requires forall j :: 0 <= j < |todos| ==> todos[j].id != t.id
    ensures Delete(todos + [t], t.id) == todos
  {
    DeleteAppend(todos, [t], t.id);
    DeleteAbsent(todos, t.id);
    assert Delete([t], t.id) == [] by {
      assert [t][1..] == [];
    }
    assert todos + [] == todos;
  }

  /** A task just added is open, so clearing completed tasks keeps it, last. */
  lemma ClearCompletedKeepsNewTask(todos: seq<Todo>, input: string, goal: string, id: string, created: string)
    requires NewTask(input, goal, id, created).Some?
    ensures var t := NewTask(input, goal, id, created).value;
            ClearCompleted(todos + [t]) == ClearCompleted(todos) + [t]
  {
    var t := NewTask(input, goal, id, created).value;
    ClearCompletedAppend(todos, [t]);
    assert [t][1..] == [];
  }

  /** The sample goal the app adds when it loads without goals. */
  function SampleGoal(created: string): Goal {
    Goal("g_sample", "Belajar 1 jam/hari", created)
  }

  /** What the add-goal button does with the answer of its dialog. */
  datatype GoalOutcome =
    | GoalAdded
    | GoalIgnored            // the trimmed name is empty
    | CancelThrows           // the dialog was cancelled: `null.trim()` throws a TypeError

  /** The app state: the shared arrays and the `stats` object. */
  class Board {
    var todos: seq<Todo>
    var goals: seq<Goal>
    var reflections: seq<Reflection>
    const stats: Progress.Tracker

    /**
     * Page load: the stored collections (empty when nothing is stored), the
     * sample goal when there are no goals, then `updateStreakOnLoad`.
     */
    constructor Load(storedTodos: seq<Todo>, storedGoals: seq<Goal>, storedStats: Progress.Stats,
                     storedReflections: seq<Reflection>, today: Day, sampleCreated: string)
      ensures todos == storedTodos && reflections == storedReflections
      ensures goals == if storedGoals == [] then [SampleGoal(sampleCreated)] else storedGoals
      ensures fresh(stats) && stats.Snapshot() == Progress.AfterReconcile(storedStats, today)
    {
      todos := storedTodos;
      goals := storedGoals;
      reflections := storedReflections;
      stats := new Progress.Tracker(storedStats);
      new;
      if |goals| == 0 {
        goals := goals + [SampleGoal(sampleCreated)];
      }
      stats.UpdateStreakOnLoad(today);
    }

    /** The add-task button, given the input text and the selected goal ("" for none). */
    method AddTask(input: string, goal: string, id: string, created: string) returns (added: bool)
      modifies this
      ensures added <==> NewTask(input, goal, id, created).Some?
      ensures todos == if added then old(todos) + [NewTask(input, goal, id, created).value] else old(todos)
      ensures goals == old(goals) && reflections == old(reflections)
    {
      var title := Trim(input);
      if title == "" {
        return false;
      }
      var task := Todo(id, title, goal, "", false, created);
      todos := todos + [task];
      added := true;
    }

    /**
     * The edit button of task `id`, given what its dialog returned (`None`
     * when cancelled): a non-empty trimmed answer becomes the title. No task
     * with that id, no change (the handler stops with an error there).
     */
    method EditTask(id: string, answer: Option<string>) returns (edited: bool)
      modifies this
      ensures FindIndex(old(todos), id).None? ==> !edited && todos == old(todos)
      ensures FindIndex(old(todos), id).Some? ==>
                var i := FindIndex(old(todos), id).value;
                edited == (answer.Some? && Trim(answer.value) != "")
                && todos == if edited then old(todos)[i := old(todos)[i].(title := Trim(answer.value))] else old(todos)
      ensures goals == old(goals) && reflections == old(reflections)
    {
      var found := FindIndex(todos, id);
      if found.None? {
        return false;
      }
      var i := found.value;
      if answer.Some? && Trim(answer.value) != "" {
        todos := todos[i := todos[i].(title := Trim(answer.value))];
        edited := true;
      } else {
        edited := false;
      }
    }

    /**
     * The checkbox of task `id` changed to `checked`: the task's `done`
     * follows it, and a check (never an uncheck) awards the completion on
     * `today`. Every check awards it again. No task with that id, no change.
     */
    method SetDone(id: string, checked: bool, today: Day) returns (found: bool)
      modifies this, stats
      ensures found == FindIndex(old(todos), id).Some?
      ensures !found ==> todos == old(todos) && stats.Snapshot() == old(stats.Snapshot())
      ensures found ==>
                var i := FindIndex(old(todos), id).value;
                todos == old(todos)[i := old(todos)[i].(done := checked)]
                && stats.Snapshot() ==
                   if checked then Progress.AfterCompletion(old(stats.Snapshot()), HasGoal(old(todos)[i]), today)
                   else old(stats.Snapshot())
      ensures goals == old(goals) && reflections == old(reflections)
    {
      var k := FindIndex(todos, id);
      if k.None? {
        return false;
      }
      var i := k.value;
      var t := todos[i];
      todos := todos[i := t.(done := checked)];
      if checked {
        stats.CompleteTask(HasGoal(t), today);
      }
      found := true;
    }

    /** The delete button of task `id`. */
    method DeleteTask(id: string)
      modifies this
      ensures todos == Delete(old(todos), id)
      ensures goals == old(goals) && reflections == old(reflections)
    {
      todos := Delete(todos, id);
    }

    /** The clear-completed button; `removed` is the count its message shows. */
    method ClearCompletedTasks() returns (removed: int)
      modifies this
      ensures todos == ClearCompleted(old(todos))
      ensures removed == DoneCount(old(todos))
      ensures goals == old(goals) && reflections == old(reflections)
    {
      var before := |todos|;
      todos := ClearCompleted(todos);
      removed := before - |todos|;
    }

    /** The add-goal button, given what its dialog returned (`None` when cancelled). */
    method AddGoal(answer: Option<string>, id: string, created: string) returns (outcome: GoalOutcome)
      modifies this
      ensures answer.None? ==> outcome == CancelThrows && goals == old(goals)
      ensures answer.Some? && Trim(answer.value) == "" ==> outcome == GoalIgnored && goals == old(goals)
      ensures answer.Some? && Trim(answer.value) != "" ==>
                outcome == GoalAdded && goals == old(goals) + [Goal(id, Trim(answer.value), created)]
      ensures todos == old(todos) && reflections == old(reflections)
    {
      if answer.None? {
        return CancelThrows;
      }
      var name := Trim(answer.value);
      if name == "" {
        return GoalIgnored;
      }
      goals := goals + [Goal(id, name, created)];
      outcome := GoalAdded;
    }

    /** The save-reflection button: a non-empty trimmed text is appended. */
    method SaveReflection(text: string, id: string, date: string) returns (saved: bool)
      modifies this
      ensures saved <==> Trim(text) != ""
      ensures reflections == if saved then old(reflections) + [Reflection(id, Trim(text), date)] else old(reflections)
      ensures todos == old(todos) && goals == old(goals)
    {
      var t := Trim(text);
      if t == "" {
        return false;
      }
      reflections := reflections + [Reflection(id, t, date)];
      saved := true;
    }

    /** The reset-all button, given the answer of its confirmation dialog. */
    method ResetAll(confirmed: bool)
      modifies this, stats
      ensures !confirmed ==> todos == old(todos) && goals == old(goals) && reflections == old(reflections)
                             && stats.Snapshot() == old(stats.Snapshot())
      ensures confirmed ==> todos == [] && goals == [] && reflections == [] && stats.Snapshot() == Progress.Initial
    {
      if !confirmed {
        return;
      }
      todos := [];
      goals := [];
      stats.Reset();
      reflections := [];
    }
  }

  /**
   * Checking, unchecking and checking again the same task awards the
   * completion twice: the handler rewards every check, not only the first.
   */
  method RecheckAwardsAgain(b: Board, id: string, today: Day)
    requires FindIndex(b.todos, id).Some?
    modifies b, b.stats
    ensures b.stats.xp == old(b.stats.xp) + 2 * Progress.TaskReward(HasGoal(old(b.todos)[FindIndex(old(b.todos), id).value]))
    ensures b.stats.completedToday == old(b.stats.completedToday) + 2
  {
    ghost var before := b.todos;
    var found := b.SetDone(id, true, today);
    FindIndexSameIds(before, b.todos, id);
    ghost var middle := b.todos;
    found := b.SetDone(id, false, today);
    FindIndexSameIds(middle, b.todos, id);
    found := b.SetDone(id, true, today);
  }
}
