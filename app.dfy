/** The application object of `main.py`: its three module globals become the
    fields of one `TodoApp`, and each store function and the body of the read
    loop become methods that update those fields in place. Every method is
    proved to leave exactly the state that the matching function of `Store`
    or `Interpreter` specifies. */
module App {
  import opened Text
  import Store
  import Interpreter

  class TodoApp {
    /** `tasks`: the titles with their subtasks, in display order. */
    var tasks: seq<Store.Task>
    /** `message_buffer`: the status line shown by the next display. */
    var message: Store.Message
    /** `show_commands`: whether the prompt lists the commands. */
    var showCommands: bool

    /** The fields as one value, for comparison with the specification. */
    function State(): Store.AppState
      reads this
    {
      Store.AppState(tasks, message, showCommands)
    }

    /** The initial values of the three globals. */
    constructor ()
      ensures State() == Store.Initial
    {
      tasks := [];
      message := Store.NoMessage;
      showCommands := false;
    }

    method AddTask(title: string)
      modifies this
      ensures State() == Store.AddTask(old(State()), title)
    {
      tasks := tasks + [Store.Task(title, [])];
    }

    method AddSubtask(i: int, subtask: string)
      modifies this
      ensures State() == Store.AddSubtask(old(State()), i, subtask)
    {
      if 1 <= i <= |tasks| {
        var t := tasks[i - 1];
        tasks := tasks[i - 1 := Store.Task(t.title, t.subtasks + [subtask])];
      } else {
        message := Store.TaskMissing(i);
      }
    }

    /** Empties the list and, like the original, leaves the message alone. */
    method DeleteAllTasks()
      modifies this
      ensures State() == Store.DeleteAllTasks(old(State()))
    {
      tasks := [];
    }

    method DeleteTask(i: int)
      modifies this
      ensures State() == Store.DeleteTask(old(State()), i)
    {
      if 1 <= i <= |tasks| {
        var deleted := tasks[i - 1];
        tasks := tasks[..i - 1] + tasks[i..];
        message := Store.DeletedTask(deleted.title);
      } else {
        message := Store.InvalidTaskNumber(i);
      }
    }

    method DeleteSubtask(i: int, which: Store.SubtaskRef)
      modifies this
      ensures State() == Store.DeleteSubtask(old(State()), i, which)
    {
      if 1 <= i <= |tasks| {
        var t := tasks[i - 1];
        if which.AllSubtasks? {
          tasks := tasks[i - 1 := Store.Task(t.title, [])];
          message := Store.DeletedAllSubtasks(t.title);
        } else if 1 <= which.n <= |t.subtasks| {
          var j := which.n;
          var deleted := t.subtasks[j - 1];
          tasks := tasks[i - 1 := Store.Task(t.title, t.subtasks[..j - 1] + t.subtasks[j..])];
          message := Store.DeletedSubtask(deleted);
        } else {
          message := Store.InvalidSubtaskNumber(i, which.n);
        }
      } else {
        message := Store.InvalidTaskNumber(i);
      }
    }

    method EditTask(i: int, title: string)
      modifies this
      ensures State() == Store.EditTask(old(State()), i, title)
    {
      if 1 <= i <= |tasks| {
        var before := tasks[i - 1];
        tasks := tasks[i - 1 := Store.Task(title, before.subtasks)];
        message := Store.EditedTask(before.title, title);
      } else {
        message := Store.InvalidTaskNumberNoIndex();
      }
    }

    method EditSubtask(i: int, j: int, text: string)
      modifies this
      ensures State() == Store.EditSubtask(old(State()), i, j, text)
    {
      if 1 <= i <= |tasks| {
        var t := tasks[i - 1];
        if 1 <= j <= |t.subtasks| {
          var before := t.subtasks[j - 1];
          tasks := tasks[i - 1 := Store.Task(t.title, t.subtasks[j - 1 := text])];
          message := Store.EditedSubtask(before, text);
        } else {
          message := Store.InvalidSubtaskNumber(i, j);
        }
      } else {
        message := Store.InvalidTaskNumber(i);
      }
    }

    /** The state change of `display_tasks`: a pending message is consumed. */
    method DisplayTasks()
      modifies this
      ensures State() == Store.Displayed(old(State()))
    {
      if message != Store.NoMessage {
        message := Store.NoMessage;
      }
    }

    /** Calls the operation a classified line asks for. */
    method Execute(c: Interpreter.Command)
      modifies this
      ensures State() == Interpreter.Execute(old(State()), c)
    {
      match c
      case Clear => DeleteAllTasks();
      case DeleteTask(i) => DeleteTask(i);
      case DeleteSubtask(i, which) => DeleteSubtask(i, which);
      case EditTask(i, text) => EditTask(i, text);
      case EditSubtask(i, j, text) => EditSubtask(i, j, text);
      case AddSubtask(i, text) => AddSubtask(i, text);
      case SetHelp(show) => showCommands := show;
      case AddTask(title) => AddTask(title);
      case Nothing =>
    }

    /** Acts on one line read at the prompt: strips it, finds the first test
        of the dispatch chain that succeeds and calls that operation. */
    method Dispatch(input: string)
      modifies this
      ensures State() == Interpreter.Dispatch(old(State()), input)
    {
      var line := Strip(input);
      var c := Interpreter.Classify(line);
      Execute(c);
    }

    /** One turn of the read loop: display, then dispatch the line read. */
    method Iterate(input: string)
      modifies this
      ensures State() == Interpreter.Iteration(old(State()), input)
    {
      DisplayTasks();
      Dispatch(input);
    }

    /** The read loop, run over the given lines in order. */
    method Run(lines: seq<string>)
      modifies this
      ensures State() == Interpreter.Run(old(State()), lines)
    {
      ghost var start := State();
      for k := 0 to |lines|
        invariant State() == Interpreter.Run(start, lines[..k])
      {
        Interpreter.RunPrefix(start, lines, k);
        Iterate(lines[k]);
      }
      assert lines[..|lines|] == lines;
    }
  }
}
