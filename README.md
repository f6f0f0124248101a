# Quick to-do list: a verified model

`main.py` is a terminal to-do list with two levels: an ordered list of
tasks, each a title with an ordered list of subtasks, addressed by 1-based
numbers. A read loop takes one line at a time and decides what to do with
it:

- `clear` empties the list;
- `d N`, `d N.M` and `d N.all` delete a task, a subtask or all subtasks;
- `e N text` and `e N.M text` rewrite a title or a subtask;
- `N text` adds a subtask;
- `help` and `help off` show or hide the command list;
- any other non-empty line becomes a new task.

Errors (a bad task or subtask number) and successful deletes and edits are
reported through a one-shot status message: the next display of the list
shows it and then clears it. Adding a task, adding a subtask to an existing
task, `clear` and `help` set no message and leave a pending one as it is.

This project models that program in Dafny and proves what it does. It has
five modules:

- `Text` (`text.dfy`, with `Optional` in `optional.dfy`) holds the ASCII
  string handling the program relies on: `strip`, `lower`, `isdecimal`,
  `int(m)` and the printing of an `int`. For `strip`, the result is proved
  unique (`StripExact`); for `lower`, that it keeps a string decimal exactly
  when it was (`LowerDecimal`); for `int(m)` and integer printing, their
  round trips (`DecimalRoundTrip`, `IntToStringRoundTrip`).
- `Store` (`store.dfy`) is the specification of the task store. It has one
  function per store operation, taking the state before the call and giving
  the state after it. Their contracts state the bounds checks, the error
  messages and that nothing else changes. The message texts, one function
  each from `TaskMissing` to `EditedSubtask`, are the f-strings of
  main.py:66-132; lemmas prove that those which print a number name it
  unambiguously. Further lemmas prove which operations undo one another.
- `Interpreter` (`interpreter.dfy`) holds `parse_indexes`, a recogniser for
  each of the four regular expressions and the `if`/`elif` chain of the
  loop body (`Classify`, then `Execute`). Each recogniser comes with a
  predicate that describes the lines its pattern accepts, piece by piece.
  Two lemmas prove that the recogniser accepts exactly those lines and
  returns their capture groups. Further lemmas prove which command each
  kind of line produces, including the program's quirks: zero subtask
  numbers, case-insensitive deletes, `helpoff`, and malformed deletes that
  become tasks.
- `App` (`app.dfy`) is the program's own form of the store: the class
  `TodoApp` holds the three globals as fields. Its methods update those
  fields in place and are proved to produce exactly the states the `Store`
  and `Interpreter` functions specify. `Run` is the read loop over a finite
  list of input lines.
- `Scenarios` (`scenarios.dfy`) works out concrete sessions and lines with
  the general lemmas.

Some behaviours of the code are easy to miss when reading it; the model
keeps each of them as written:

- `delete_all_tasks` declares only `tasks` as global, so the message it
  builds at main.py:73 is assigned to a local name and never shown. `clear`
  therefore sets no message and keeps whatever message was pending.
- `edit_task` reports an invalid number as `Invalid task number.`, without
  the number (main.py:119).
- The chain tests the add-subtask pattern (main.py:205) before `help`
  (main.py:210). The two patterns begin with different characters (a digit,
  `h`), and `PatternsExclusive` proves that the order makes no difference.
- `d N.all` reports the title of the task (main.py:95), not how many
  subtasks were deleted.
- A subtask number of `0` is falsy at main.py:189 and main.py:200, so
  `d N.0` deletes task `N` and `e N.0 text` retitles it.

## Model

| member | source | states |
|---|---|---|
| Text.Strip | main.py:174 | the result has no whitespace at either end and is the input with only whitespace removed before and after it |
| Text.StripExact | main.py:174 | any stripped text framed by whitespace is exactly what `strip` returns, so the contract of `Strip` fixes its result |
| Text.Split | main.py:14-17 | the greedy run `[class]*` of a regex: the prefix is in the class, the rest is empty or starts outside it, and the two make up the input |
| Text.SplitExact | main.py:14-17 | a run of the class followed by the end or by a character outside it is exactly how `Split` divides the line |
| Text.Lower | main.py:176 | lower-casing keeps the length and maps every character through ASCII lower-casing |
| Text.LowerDecimal | main.py:176 | a string is decimal after lower-casing exactly when it was decimal before, so the task and subtask numbers of a delete survive `lower()` |
| Text.DecimalValue | main.py:206 | `int(m)` of a run of `n` digits is a natural number below `10` to the power `n`; its value on every digit string is fixed by `DecimalValueLeadingZero` and `DecimalValueCanonical` |
| Text.DecimalValueLeadingZero | main.py:149 | a leading zero does not change `int(m)`: `01` reads as `1`, and `00` as the falsy `0` that sends `d N.00` to `delete_task` |
| Text.DecimalValueCanonical | main.py:149 | printing the value of a digit string without a leading zero gives that string back |
| Text.NatToDecimal | main.py:66 | an `int` prints as a non-empty digit string with no leading zero |
| Text.DecimalRoundTrip | main.py:149 | `int()` of the printed digits of `n` is `n` |
| Text.IntToString | main.py:84 | the printed text of an `int` is non-empty and starts with a minus sign exactly when the number is negative |
| Text.IntToStringShape | main.py:84 | the printed text of an `int` is a minus sign or a digit, followed by digits only |
| Text.IntToStringRoundTrip | main.py:84 | the number printed in a message reads back as the same `int`, sign included |
| Text.IntToStringInjective | main.py:104 | messages built from different indices print different numbers |
| Text.IntToStringPrefix | main.py:104 | a printed number followed by text that starts with neither a digit nor a minus sign is read off unambiguously: the number and the text after it are both determined |
| Store.RemoveAt | main.py:80 | `list.pop(k)`: the element at `k` is removed, earlier ones keep their places and later ones move up one |
| Store.TaskMissingNamesTask | main.py:66 | two `Task i does not exist` messages are equal only when they name the same `i` |
| Store.InvalidTaskNumberNamesTask | main.py:84 | two `Invalid task number: i` messages are equal only when they name the same `i` |
| Store.InvalidSubtaskNumberNamesBoth | main.py:104 | two `For task i, invalid subtask number: j` messages are equal only when they name the same `i` and the same `j` |
| Store.AddTask | main.py:55-56 | the list grows by one, every earlier task is unchanged, the new last task is `(title, [])`, and neither the message nor the help flag changes |
| Store.AddSubtask | main.py:59-67 | for `1 <= i <= len`, only task `i` changes, its title is kept and `subtask` is appended to its subtasks, with no message; otherwise the list is unchanged and the message names the missing task `i` |
| Store.DeleteAllTasks | main.py:70-73 | the list becomes empty and the pending message is left unchanged |
| Store.DeleteTask | main.py:76-84 | for a valid `i`, task `i` is removed (earlier tasks in place, later ones up one) and the message names its title; otherwise the list is unchanged and the message is `Invalid task number: i` |
| Store.DeleteSubtask | main.py:87-107 | an invalid task number changes no task. For a valid one, only task `i` may change and it keeps its title. The sentinel empties its subtasks. A valid subtask number removes that one subtask, with later subtasks moving up. Any other number leaves all tasks as they were. Each case sets its own message |
| Store.EditTask | main.py:110-119 | for a valid `i`, only task `i` changes, its title is replaced and its subtasks kept, and the message quotes the old and new titles; otherwise no task changes and the message has no number |
| Store.EditSubtask | main.py:122-142 | for valid `i` and `j`, subtask `j` of task `i` is replaced and every title, every length and every other subtask is kept; otherwise no task changes and the message names the bad task or subtask number |
| Store.Displayed | main.py:49-51 | after display no message is pending; tasks and help flag are unchanged |
| Store.DeleteUndoesAddTask | main.py:76-81 | deleting the last position right after `add_task` restores the list |
| Store.DeleteSubtaskUndoesAddSubtask | main.py:97-99 | deleting the last subtask right after `add_subtask` to a valid task restores the list |
| Store.EditTaskUndone | main.py:110-116 | editing a title back to its old value restores the list |
| Store.EditSubtaskUndone | main.py:122-133 | editing a subtask back to its old value restores the list |
| Store.AddThenEditSubtask | main.py:122-133 | after adding a task, a subtask of it and editing that subtask, the earlier tasks are unchanged, the new task holds exactly the edited subtask, and the message reports the edit |
| Interpreter.ParseIndexes | main.py:145-151 | the output has the input's length; element `k` is the sentinel exactly when input `k` is `"all"` and the sentinel is accepted, is `int(m)` exactly when input `k` is a non-empty decimal string, and is `None` exactly when neither holds |
| Interpreter.ParseIndex | main.py:149 | one element: the sentinel exactly for `"all"` when it is accepted, `int(m)` exactly for a non-empty decimal `m`, otherwise `None` |
| Interpreter.Truthy | main.py:189 | the truth test of `if subtask_index:`: `None` and `0` are exactly the false values, so a non-zero `int` and the sentinel `"all"` are true |
| Interpreter.ParseIndexOfDecimal | main.py:149 | the printed digits of `n` parse back to the index `n`, with or without the sentinel |
| Interpreter.Tail | main.py:15-17 | the capture of the tail `\s+(.+)$` is a newline-free text starting after the whole whitespace run, shorter than what it was cut from |
| Interpreter.TailSound | main.py:15 | what the tail `\s+(.+)$` accepts is a whitespace run followed by a newline-free text that starts after the whole run |
| Interpreter.TailComplete | main.py:15 | every such whitespace run and text is accepted, with the text as the capture |
| Interpreter.MatchDelete | main.py:14 | a match starts with `d`, its task group is decimal and its subtask group, when present, is decimal or `all` |
| Interpreter.MatchDeleteSound | main.py:14 | every line the delete recogniser accepts has the shape `d`, whitespace, task digits, and optionally `.` with digits or `all`, with those groups |
| Interpreter.MatchDeleteComplete | main.py:14 | every line of that shape is accepted with exactly those groups |
| Interpreter.MatchEdit | main.py:17 | a match starts with `e`, its task group is decimal and its subtask group, when present, is decimal |
| Interpreter.EditRest | main.py:17 | the part after the task number keeps the task group and yields a decimal subtask group when one is present |
| Interpreter.EditRestSound | main.py:17 | what follows the task number in an accepted edit line is the optional `.digits`, a whitespace run and the text |
| Interpreter.EditRestComplete | main.py:17 | every such remainder is accepted with those groups |
| Interpreter.MatchEditPrefix | main.py:17 | after `e`, whitespace and the task digits, the recogniser's answer depends only on the rest of the line |
| Interpreter.MatchEditSound | main.py:17 | every line the edit recogniser accepts is `e`, whitespace, task digits, optional `.digits`, whitespace and a newline-free text starting after the run, with those groups |
| Interpreter.MatchEditComplete | main.py:17 | every line of that shape is accepted with exactly those groups |
| Interpreter.MatchAddSubtask | main.py:15 | a match starts with a digit and its task group is decimal |
| Interpreter.MatchAddSubtaskSound | main.py:15 | every accepted line is task digits, whitespace and a text starting after the run |
| Interpreter.MatchAddSubtaskComplete | main.py:15 | every line of that shape is accepted with exactly those groups |
| Interpreter.MatchHelp | main.py:16 | a match starts with `help`, and its group, when present, is `off` |
| Interpreter.MatchHelpSound | main.py:16 | every accepted line is `help`, optional whitespace and an optional `off` |
| Interpreter.MatchHelpComplete | main.py:16 | every line of that shape is accepted, with `off` captured exactly when it is present |
| Interpreter.Classify | main.py:181-215 | the chain does nothing exactly on the empty line, and a line that falls through to the end is added verbatim |
| Interpreter.Execute | main.py:181-215 | only the help command changes the help flag, and it changes nothing else; the empty line's command leaves the state as it was |
| Interpreter.PatternsExclusive | main.py:176-179 | at most one of `clear` and the four patterns accepts any line, so the chain's order matters only against the fallback |
| Interpreter.ClassifyDelete | main.py:184-192 | a delete line, matched after lower-casing, gives `delete_task(N)` when the subtask part is absent or `0`, the sentinel for `all` in any case, and `delete_subtask(N, M)` otherwise |
| Interpreter.ClassifyEdit | main.py:194-203 | an edit line gives `edit_subtask(N, M, text)` for a non-zero `M` and `edit_task(N, text)` when `M` is absent or `0`, with the text after the whole whitespace run |
| Interpreter.ClassifyAddSubtask | main.py:205-208 | `N text` gives `add_subtask(N, text)` |
| Interpreter.ClassifyHelp | main.py:210-212 | `help` turns the command list on; `help off` with any whitespace, or none, turns it off |
| Interpreter.MatchDeleteRejectsJunk | main.py:14 | a delete line whose part after the dot is neither digits nor `all` is rejected |
| Interpreter.MalformedDeleteIsNewTask | main.py:214-215 | a line `d N.junk` or `D N.junk` whose `junk` is, after lower-casing, neither digits nor `all` matches nothing and is added as a task with its original text |
| Interpreter.FallbackExactly | main.py:181-215 | a line becomes a task exactly when it is non-empty, not `clear`, and none of the four patterns matches |
| Interpreter.PlainLineIsNewTask | main.py:214-215 | a non-empty line that is not `clear` and starts with none of `d`, `D`, `e`, `h` or a digit is added verbatim |
| Interpreter.Dispatch | main.py:174-215 | one line either changes the help flag or acts on the tasks and the message, never both |
| Interpreter.DispatchFrame | main.py:174-215 | a line that is blank after stripping leaves the state as it was; only a `help` line changes the help flag, and it changes neither the tasks nor the message |
| Interpreter.Iteration | main.py:170-215 | a turn that changes the help flag leaves the tasks as they were and no message pending |
| Interpreter.PendingMessageForgotten | main.py:49-51 | the message pending before a turn has no effect on the state after it, since display consumes it first |
| Interpreter.Run | main.py:170-215 | with no lines the state is as it was; `RunAppend`, `BlankLinesKeepTasks` and `HelpFlagOnlyByHelp` state what longer runs do |
| Interpreter.RunAppend | main.py:170-174 | running one more line is one more turn of the loop after the others |
| Interpreter.BlankLinesKeepTasks | main.py:214 | a run of lines that are all blank keeps the tasks and the help flag |
| Interpreter.HelpFlagOnlyByHelp | main.py:210-212 | over any run of lines without a `help` command the help flag keeps its value |
| App.TodoApp.constructor | main.py:10-12 | the fields start as the empty list, no message and commands hidden |
| App.TodoApp.AddTask | main.py:55-56 | the fields after the call are `Store.AddTask` of the fields before it |
| App.TodoApp.AddSubtask | main.py:59-67 | the fields after the call are `Store.AddSubtask` of the fields before it |
| App.TodoApp.DeleteAllTasks | main.py:70-73 | the fields after the call are `Store.DeleteAllTasks` of the fields before it, so the message is untouched |
| App.TodoApp.DeleteTask | main.py:76-84 | the fields after the call are `Store.DeleteTask` of the fields before it |
| App.TodoApp.DeleteSubtask | main.py:87-107 | the fields after the call are `Store.DeleteSubtask` of the fields before it |
| App.TodoApp.EditTask | main.py:110-119 | the fields after the call are `Store.EditTask` of the fields before it |
| App.TodoApp.EditSubtask | main.py:122-142 | the fields after the call are `Store.EditSubtask` of the fields before it |
| App.TodoApp.DisplayTasks | main.py:49-51 | a pending message is consumed and nothing else changes |
| App.TodoApp.Execute | main.py:181-215 | calling the operation a command names gives `Interpreter.Execute` of the fields before it |
| App.TodoApp.Dispatch | main.py:174-215 | handling one input line gives `Interpreter.Dispatch` of the fields before it |
| App.TodoApp.Iterate | main.py:170-215 | one turn of the loop (display, then dispatch) gives `Interpreter.Iteration` of the fields before it |
| App.TodoApp.Run | main.py:170-215 | the loop over a list of lines gives `Interpreter.Run` of the fields before it |
| Scenarios.BuyMilkSession | main.py:170-215 | from an empty list, `buy milk`, `1 urgent`, `e 1.1 very urgent`, `d 1.all` leave the one task `buy milk` with no subtasks and the message `Deleted all subtasks for task: buy milk` |
| Scenarios.DeleteFromEmptyList | main.py:76-84 | `d 5` on any state with an empty list keeps it empty, reports `Invalid task number: 5` and keeps the help flag |
| Scenarios.UpperCaseDelete | main.py:176 | `D 3` deletes task 3 |
| Scenarios.UpperCaseDeleteAll | main.py:176 | `d 1.ALL` deletes all subtasks of task 1 |
| Scenarios.UpperCaseEditIsTask | main.py:179 | `E 1 x` is added as a task |
| Scenarios.UpperCaseClearIsTask | main.py:181 | `Clear` is added as a task |
| Scenarios.HelpOffWithoutSpace | main.py:16 | `helpoff` hides the command list |
| Scenarios.HelpOff | main.py:16 | `help off` hides the command list |
| Scenarios.HelpOn | main.py:16 | `help` shows the command list |
| Scenarios.ZeroSubtaskDeletesTask | main.py:189-192 | `d 2.0` deletes task 2 |
| Scenarios.ZeroSubtaskEditsTask | main.py:200-203 | `e 2.0 x` retitles task 2 to `x` |
| Scenarios.BadSubtaskIsTask | main.py:214-215 | `d 2.x` is added as a task |
| Scenarios.ClearKeepsMessage | main.py:70-73 | `clear` empties the list and keeps the pending message and the help flag |

## Left out

- Terminal I/O is not modelled. This covers `clear_screen` (main.py:32-33), the prompt and `click.prompt` (main.py:154-162), the `click` command wrapper and the `__main__` entry point. The line read at the prompt is a parameter of `Dispatch`, `Iterate` and `Run`.
- `display_tasks` is modelled only by its effect on the state: it clears a pending message (main.py:49-51). Its printing is not modelled.
- The colorama prefixes are kept only as a message kind, `Red` or `Blue`. `init` and the escape text are not modelled.
- The endless `while True` loop is modelled as `Run` over a finite list of lines, because an unbounded loop over input has no state to prove about.
- Unicode is not modelled: digits, whitespace and lower-casing are ASCII only. Python's `\d`, `\s`, `isdecimal`, `int()`, `strip()` and `lower()` also accept other Unicode digits and spaces. Outside ASCII the model keeps characters as they are.
- The recognisers are stated for a stripped line, which is all the program ever passes them, and are exact for such lines. On unstripped text, the regex cases of `$` before a final newline and of `\s+` giving back part of a trailing whitespace run are not modelled.
- Store.DeleteSubtask: the subtask argument is the sentinel or an `int`. No other string reaches it from the read loop, so a string other than `"all"` is not representable.
- The subtask lists are not modelled as shared mutable objects. `add_subtask` appends to the list inside the task's tuple (main.py:63), `delete_subtask` pops from it (main.py:98) and `edit_subtask` assigns into it (main.py:130). `AddSubtask`, `DeleteSubtask` and `EditSubtask` instead rebuild that task's entry as a new value. This gives the same visible state, because the program creates no other reference to those lists.
- Text.DecimalValue and Interpreter.Classify: `int()` in Python 3.10.7 and later refuses a digit string longer than the integer-string conversion limit (4300 digits by default) and raises `ValueError`, which nothing in the program catches. `d ` followed by such a run, or such a run followed by a space and text, therefore ends the program with a traceback. The model has no limit: it converts the digits and reports an invalid task number or a missing task.
