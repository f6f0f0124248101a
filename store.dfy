/** The task store of `main.py`: an ordered list of tasks, each a title with
    an ordered list of subtask texts, addressed by 1-based position, and the
    one-shot status message the last operation left. Every operation checks
    its indices against `1 <= i <= len` and reports a bad index only through
    the message; none of them fails.

    The functions here are the specification of the store: each takes the
    application state before the call and gives the state after it. The
    class `App.TodoApp` performs the same operations in place and is proved
    against these functions. */
module Store {
  import opened Text

  datatype Task = Task(title: string, subtasks: seq<string>)

  /** The colorama prefix of a message; only its kind is kept. */
  datatype Colour = Red | Blue

  /** `message_buffer`: empty, or a coloured text. */
  datatype Message = NoMessage | Notice(colour: Colour, text: string)

  /** The three globals of `main.py`: `tasks`, `message_buffer`, `show_commands`. */
  datatype AppState = AppState(tasks: seq<Task>, message: Message, showCommands: bool)

  /** The second argument of `delete_subtask`: the sentinel `"all"` or an `int`. */
  datatype SubtaskRef = AllSubtasks | Number(n: int)

  /** The state every run starts from. */
  const Initial := AppState([], NoMessage, false)

  /** The bounds test shared by every operation, on a 1-based index. */
  predicate InRange(i: int, len: nat) {
    1 <= i <= len
  }

  /** `b` equals `a` except possibly at position `k` (0-based). */
  predicate SameExcept<T(==)>(a: seq<T>, b: seq<T>, k: int) {
    |a| == |b| && forall j :: 0 <= j < |a| && j != k ==> a[j] == b[j]
  }

  /** `b` is `a` with position `k` (0-based) taken out and the rest closed up. */
  predicate RemovedAt<T(==)>(a: seq<T>, b: seq<T>, k: int) {
    && 0 <= k < |a|
    && |b| == |a| - 1
    && (forall j :: 0 <= j < k ==> b[j] == a[j])
    && (forall j :: k <= j < |b| ==> b[j] == a[j + 1])
  }

  function RemoveAt<T(==)>(s: seq<T>, k: nat): (r: seq<T>)
    requires k < |s|
    ensures RemovedAt(s, r, k)
  {
    s[..k] + s[k + 1..]
  }

  // The message texts, one per outcome.

  function TaskMissing(i: int): Message {
    Notice(Red, "Task " + (IntToString(i) + " does not exist, subtask couldn't be added."))
  }

  function InvalidTaskNumber(i: int): Message {
    Notice(Red, "Invalid task number: " + IntToString(i))
  }

  /** `edit_task`'s invalid-index message, which does not name the index. */
  function InvalidTaskNumberNoIndex(): Message {
    Notice(Red, "Invalid task number.")
  }

  function InvalidSubtaskNumber(i: int, j: int): Message {
    Notice(Red, "For task " + (IntToString(i) + (", invalid subtask number: " + IntToString(j))))
  }

  function DeletedTask(title: string): Message {
    Notice(Red, "Deleted task: " + title)
  }

  function DeletedAllSubtasks(title: string): Message {
    Notice(Red, "Deleted all subtasks for task: " + title)
  }

  function DeletedSubtask(text: string): Message {
    Notice(Red, "Deleted subtask: " + text)
  }

  function EditedTask(before: string, after: string): Message {
    Notice(Blue, "Edited task: '" + before + "' to '" + after + "'")
  }

  function EditedSubtask(before: string, after: string): Message {
    Notice(Blue, "Edited subtask: '" + before + "' to '" + after + "'")
  }

  /** Equal strings with a common prefix agree after it. */
  lemma CancelPrefix(p: string, x: string, y: string)
    requires p + x == p + y
    ensures x == y
  {
    assert x == (p + x)[|p|..];
    assert y == (p + y)[|p|..];
  }

  /** The messages that print a task or subtask number tell the numbers apart:
      equal messages name equal numbers. */
  lemma TaskMissingNamesTask(i: int, j: int)
    requires TaskMissing(i) == TaskMissing(j)
    ensures i == j
  {
    var tail := " does not exist, subtask couldn't be added.";
    CancelPrefix("Task ", IntToString(i) + tail, IntToString(j) + tail);
    IntToStringPrefix(i, j, tail, tail);
  }

  lemma InvalidTaskNumberNamesTask(i: int, j: int)
    requires InvalidTaskNumber(i) == InvalidTaskNumber(j)
    ensures i == j
  {
    CancelPrefix("Invalid task number: ", IntToString(i), IntToString(j));
    IntToStringInjective(i, j);
  }

  lemma InvalidSubtaskNumberNamesBoth(i: int, j: int, k: int, l: int)
    requires InvalidSubtaskNumber(i, j) == InvalidSubtaskNumber(k, l)
    ensures i == k && j == l
  {
    var mid := ", invalid subtask number: ";
    CancelPrefix("For task ", IntToString(i) + (mid + IntToString(j)), IntToString(k) + (mid + IntToString(l)));
    IntToStringPrefix(i, k, mid + IntToString(j), mid + IntToString(l));
    CancelPrefix(mid, IntToString(j), IntToString(l));
    IntToStringInjective(j, l);
  }

  /** `add_task`: a new task with no subtasks goes at the end; the message is
      left as it was. */
  function AddTask(st: AppState, title: string): (r: AppState)
    ensures |r.tasks| == |st.tasks| + 1
    ensures r.tasks[..|st.tasks|] == st.tasks
    ensures r.tasks[|st.tasks|] == Task(title, [])
    ensures r.message == st.message && r.showCommands == st.showCommands
  {
    st.(tasks := st.tasks + [Task(title, [])])
  }

  /** `add_subtask`: appends to the subtasks of task `i` only, or names the
      missing task `i` in the message and changes no task. */
  function AddSubtask(st: AppState, i: int, subtask: string): (r: AppState)
    ensures r.showCommands == st.showCommands
    ensures InRange(i, |st.tasks|) ==>
      && SameExcept(st.tasks, r.tasks, i - 1)
      && r.tasks[i - 1] == Task(st.tasks[i - 1].title, st.tasks[i - 1].subtasks + [subtask])
      && r.message == st.message
    ensures !InRange(i, |st.tasks|) ==> r.tasks == st.tasks && r.message == TaskMissing(i)
  {
    if InRange(i, |st.tasks|) then
      var t := st.tasks[i - 1];
      st.(tasks := st.tasks[i - 1 := Task(t.title, t.subtasks + [subtask])])
    else
      st.(message := TaskMissing(i))
  }

  /** `delete_all_tasks`: empties the list. The function assigns a local
      `message_buffer` (it declares only `tasks` global), so the status
      message is left as it was. */
  function DeleteAllTasks(st: AppState): (r: AppState)
    ensures r.tasks == []
    ensures r.message == st.message && r.showCommands == st.showCommands
  {
    st.(tasks := [])
  }

  /** `delete_task`: removes task `i`, later tasks move up one place, and the
      message names the removed title; a bad index changes no task. */
  function DeleteTask(st: AppState, i: int): (r: AppState)
    ensures r.showCommands == st.showCommands
    ensures InRange(i, |st.tasks|) ==>
      RemovedAt(st.tasks, r.tasks, i - 1) && r.message == DeletedTask(st.tasks[i - 1].title)
    ensures !InRange(i, |st.tasks|) ==> r.tasks == st.tasks && r.message == InvalidTaskNumber(i)
  {
    if InRange(i, |st.tasks|) then
      AppState(RemoveAt(st.tasks, i - 1), DeletedTask(st.tasks[i - 1].title), st.showCommands)
    else
      st.(message := InvalidTaskNumber(i))
  }

  /** `delete_subtask`: with a valid task `i`, the sentinel empties its
      subtasks and a valid subtask number removes that one subtask (later ones
      move up); any other number changes nothing but the message. The title of
      task `i` and every other task are kept in all cases. */
  function DeleteSubtask(st: AppState, i: int, which: SubtaskRef): (r: AppState)
    ensures r.showCommands == st.showCommands
    ensures !InRange(i, |st.tasks|) ==> r.tasks == st.tasks && r.message == InvalidTaskNumber(i)
    ensures InRange(i, |st.tasks|) ==>
      && SameExcept(st.tasks, r.tasks, i - 1)
      && r.tasks[i - 1].title == st.tasks[i - 1].title
    ensures InRange(i, |st.tasks|) && which.AllSubtasks? ==>
      r.tasks[i - 1].subtasks == [] && r.message == DeletedAllSubtasks(st.tasks[i - 1].title)
    ensures InRange(i, |st.tasks|) && which.Number? && InRange(which.n, |st.tasks[i - 1].subtasks|) ==>
      && RemovedAt(st.tasks[i - 1].subtasks, r.tasks[i - 1].subtasks, which.n - 1)
      && r.message == DeletedSubtask(st.tasks[i - 1].subtasks[which.n - 1])
    ensures InRange(i, |st.tasks|) && which.Number? && !InRange(which.n, |st.tasks[i - 1].subtasks|) ==>
      r.tasks == st.tasks && r.message == InvalidSubtaskNumber(i, which.n)
  {
    if !InRange(i, |st.tasks|) then
      st.(message := InvalidTaskNumber(i))
    else
      var t := st.tasks[i - 1];
      match which
      case AllSubtasks =>
        AppState(st.tasks[i - 1 := Task(t.title, [])], DeletedAllSubtasks(t.title), st.showCommands)
      case Number(j) =>
        if InRange(j, |t.subtasks|) then
          AppState(st.tasks[i - 1 := Task(t.title, RemoveAt(t.subtasks, j - 1))],
                   DeletedSubtask(t.subtasks[j - 1]), st.showCommands)
        else
          st.(message := InvalidSubtaskNumber(i, j))
  }

  /** `edit_task`: replaces the title of task `i` in place, keeping its
      subtasks; a bad index gives a message without the number. */
  function EditTask(st: AppState, i: int, title: string): (r: AppState)
    ensures r.showCommands == st.showCommands
    ensures InRange(i, |st.tasks|) ==>
      && SameExcept(st.tasks, r.tasks, i - 1)
      && r.tasks[i - 1] == Task(title, st.tasks[i - 1].subtasks)
      && r.message == EditedTask(st.tasks[i - 1].title, title)
    ensures !InRange(i, |st.tasks|) ==> r.tasks == st.tasks && r.message == InvalidTaskNumberNoIndex()
  {
    if InRange(i, |st.tasks|) then
      var t := st.tasks[i - 1];
      AppState(st.tasks[i - 1 := Task(title, t.subtasks)], EditedTask(t.title, title), st.showCommands)
    else
      st.(message := InvalidTaskNumberNoIndex())
  }

  /** `edit_subtask`: replaces subtask `j` of task `i` in place; every length,
      every title and every other subtask stay as they were. */
  function EditSubtask(st: AppState, i: int, j: int, text: string): (r: AppState)
    ensures r.showCommands == st.showCommands
    ensures !InRange(i, |st.tasks|) ==> r.tasks == st.tasks && r.message == InvalidTaskNumber(i)
    ensures InRange(i, |st.tasks|) && !InRange(j, |st.tasks[i - 1].subtasks|) ==>
      r.tasks == st.tasks && r.message == InvalidSubtaskNumber(i, j)
    ensures InRange(i, |st.tasks|) && InRange(j, |st.tasks[i - 1].subtasks|) ==>
      && SameExcept(st.tasks, r.tasks, i - 1)
      && r.tasks[i - 1].title == st.tasks[i - 1].title
      && SameExcept(st.tasks[i - 1].subtasks, r.tasks[i - 1].subtasks, j - 1)
      && r.tasks[i - 1].subtasks[j - 1] == text
      && r.message == EditedSubtask(st.tasks[i - 1].subtasks[j - 1], text)
  {
    if !InRange(i, |st.tasks|) then
      st.(message := InvalidTaskNumber(i))
    else
      var t := st.tasks[i - 1];
      if InRange(j, |t.subtasks|) then
        AppState(st.tasks[i - 1 := Task(t.title, t.subtasks[j - 1 := text])],
                 EditedSubtask(t.subtasks[j - 1], text), st.showCommands)
      else
        st.(message := InvalidSubtaskNumber(i, j))
  }

  /** The one state effect of `display_tasks`: a pending message is shown
      once and then cleared. */
  function Displayed(st: AppState): (r: AppState)
    ensures r.message == NoMessage
    ensures r.tasks == st.tasks && r.showCommands == st.showCommands
  {
    st.(message := NoMessage)
  }

  // Partners: operations that undo one another.

  /** A task just added is removed again by deleting the last position. */
  lemma DeleteUndoesAddTask(st: AppState, title: string)
    ensures DeleteTask(AddTask(st, title), |st.tasks| + 1).tasks == st.tasks
  {
    var added := AddTask(st, title);
    assert added.tasks[..|st.tasks|] == st.tasks;
  }

  /** A subtask just added to a valid task is removed again by deleting the
      last subtask of that task. */
  lemma DeleteSubtaskUndoesAddSubtask(st: AppState, i: int, text: string)
    requires InRange(i, |st.tasks|)
    ensures
      var added := AddSubtask(st, i, text);
      DeleteSubtask(added, i, Number(|st.tasks[i - 1].subtasks| + 1)).tasks == st.tasks
  {
    var added := AddSubtask(st, i, text);
    var t := st.tasks[i - 1];
    var removed := DeleteSubtask(added, i, Number(|t.subtasks| + 1));
    assert removed.tasks[i - 1].subtasks == t.subtasks;
    assert removed.tasks[i - 1] == t;
  }

  /** Editing a title back to what it was restores the task list. */
  lemma EditTaskUndone(st: AppState, i: int, title: string)
    requires InRange(i, |st.tasks|)
    ensures EditTask(EditTask(st, i, title), i, st.tasks[i - 1].title).tasks == st.tasks
  {
    var back := EditTask(EditTask(st, i, title), i, st.tasks[i - 1].title);
    assert back.tasks[i - 1] == st.tasks[i - 1];
  }

  /** Editing a subtask back to what it was restores the task list. */
  lemma EditSubtaskUndone(st: AppState, i: int, j: int, text: string)
    requires InRange(i, |st.tasks|) && InRange(j, |st.tasks[i - 1].subtasks|)
    ensures EditSubtask(EditSubtask(st, i, j, text), i, j, st.tasks[i - 1].subtasks[j - 1]).tasks == st.tasks
  {
    var t := st.tasks[i - 1];
    var back := EditSubtask(EditSubtask(st, i, j, text), i, j, t.subtasks[j - 1]);
    assert back.tasks[i - 1].subtasks == t.subtasks;
    assert back.tasks[i - 1] == t;
  }

  /** Adding a task, a subtask to it and then editing that subtask leaves the
      new task with its title and exactly the edited subtask. */
  lemma AddThenEditSubtask(st: AppState, x: string, y: string, z: string)
    ensures
      var n := |st.tasks| + 1;
      var r := EditSubtask(AddSubtask(AddTask(st, x), n, y), n, 1, z);
      && r.tasks[..n - 1] == st.tasks
      && r.tasks[n - 1] == Task(x, [z])
      && r.message == EditedSubtask(y, z)
  {
    var n := |st.tasks| + 1;
    var a := AddTask(st, x);
    var b := AddSubtask(a, n, y);
    assert b.tasks[n - 1] == Task(x, [y]);
    var r := EditSubtask(b, n, 1, z);
    assert r.tasks[n - 1].subtasks == [z];
    assert r.tasks[..n - 1] == st.tasks by {
      assert a.tasks[..n - 1] == st.tasks;
    }
  }
}
