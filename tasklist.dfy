/**
 * The inspector's personal task list (components/TaskList.tsx): adding,
 * toggling and deleting tasks, each building a new array for `setTasks`.
 */
module TaskList {
  import opened Strings
  import Seqs

  datatype Task = Task(id: int, text: string, completed: bool)

  /** The component's state: the tasks and the text in the input box. */
  datatype TaskForm = TaskForm(tasks: seq<Task>, newTaskText: string)

  /**
   * `handleAddTask`, with `now` the value of `Date.now()`. Blank input is
   * rejected and leaves everything, the input box included, as it was;
   * otherwise one task with the trimmed text is appended and the box cleared.
   */
  function AddTask(f: TaskForm, now: int): (r: TaskForm)
    ensures AllWhitespace(f.newTaskText) ==> r == f
    ensures !AllWhitespace(f.newTaskText) ==>
      r.tasks == f.tasks + [Task(now, Trim(f.newTaskText), false)] && r.newTaskText == ""
    ensures |r.tasks| > |f.tasks| ==>
      r.tasks[|f.tasks|].text != [] && !IsJsWhitespace(r.tasks[|f.tasks|].text[0])
  {
    TrimEmptyIff(f.newTaskText);
    var text := Trim(f.newTaskText);
    if text == "" then f
    else TaskForm(f.tasks + [Task(now, text, false)], "")
  }

  /** `tasks.map(task => task.id === id ? { ...task, completed: !task.completed } : task)`. */
  function ToggleTask(tasks: seq<Task>, id: int): (r: seq<Task>)
    ensures |r| == |tasks|
    ensures forall i :: 0 <= i < |tasks| ==> r[i].id == tasks[i].id && r[i].text == tasks[i].text
    ensures forall i :: 0 <= i < |tasks| ==>
      r[i].completed == if tasks[i].id == id then !tasks[i].completed else tasks[i].completed
  {
    seq(|tasks|, i requires 0 <= i < |tasks| =>
      if tasks[i].id == id then tasks[i].(completed := !tasks[i].completed) else tasks[i])
  }

  /** Toggling the same id twice restores the list. */
  lemma ToggleTwiceRestores(tasks: seq<Task>, id: int)
    ensures ToggleTask(ToggleTask(tasks, id), id) == tasks
  {
    var r := ToggleTask(ToggleTask(tasks, id), id);
    assert forall i :: 0 <= i < |tasks| ==> r[i] == tasks[i];
  }

  function OtherTaskId(id: int): Task -> bool
  {
    (t: Task) => t.id != id
  }

  /** `tasks.filter(task => task.id !== id)`. */
  function DeleteTask(tasks: seq<Task>, id: int): (r: seq<Task>)
    ensures forall t :: t in r ==> t in tasks && t.id != id
    ensures forall t :: t in tasks && t.id != id ==> multiset(r)[t] == multiset(tasks)[t]
  {
    Seqs.Filter(tasks, OtherTaskId(id))
  }

  /** Deletion keeps the order of the remaining tasks. */
  lemma DeleteTaskKeepsOrder(a: seq<Task>, b: seq<Task>, id: int)
    ensures DeleteTask(a + b, id) == DeleteTask(a, id) + DeleteTask(b, id)
  {
    Seqs.FilterAppend(a, b, OtherTaskId(id));
  }

  /** Deleting an id no task carries changes nothing. */
  lemma DeleteUnknownTaskIsNoop(tasks: seq<Task>, id: int)
    requires forall t :: t in tasks ==> t.id != id
    ensures DeleteTask(tasks, id) == tasks
  {
    Seqs.FilterKeepsAll(tasks, OtherTaskId(id));
  }

  /** Deleting a task just added with a fresh id gives back the earlier list. */
  lemma AddThenDeleteRestores(f: TaskForm, now: int)
    requires !AllWhitespace(f.newTaskText)
    requires forall t :: t in f.tasks ==> t.id != now
    ensures DeleteTask(AddTask(f, now).tasks, now) == f.tasks
  {
    var added := Task(now, Trim(f.newTaskText), false);
    DeleteTaskKeepsOrder(f.tasks, [added], now);
    DeleteUnknownTaskIsNoop(f.tasks, now);
    assert DeleteTask([added], now) == [];
  }
}
