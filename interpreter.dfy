/** The command interpreter of `main.py`: the four regular expressions that
    recognise a command line, `parse_indexes`, and one pass of the `if`/`elif`
    chain in the body of the read loop, which turns a stripped line into one
    call on the task store (or a change of the help flag, or nothing).

    Each recogniser is a hand-written function over the line; beside it a
    predicate describes, piece by piece, the lines its pattern accepts, and
    two lemmas prove that the recogniser accepts exactly those lines and
    returns exactly their capture groups. Digits and whitespace are ASCII. */
module Interpreter {
  import opened Optional
  import opened Text
  import Store

  // ---------------------------------------------------------------------
  // parse_indexes

  /** An element of the list `parse_indexes` returns: `None`, the string
      `"all"`, or an `int`. */
  datatype Index = NoIndex | AllIndex | IntIndex(value: nat)

  /** One element of the comprehension: `m` itself when it is `"all"` and the
      sentinel is accepted, `int(m)` when `m` is a non-empty decimal string,
      otherwise `None`. */
  function ParseIndex(m: Option<string>, acceptAll: bool): (r: Index)
    ensures r == AllIndex <==> m == Some("all") && acceptAll
    ensures r.IntIndex? <==> m.Some? && IsDecimal(m.value)
    ensures r.IntIndex? ==> m.Some? && IsDecimal(m.value) && r.value == DecimalValue(m.value)
  {
    if m == Some("all") && acceptAll then
      assert !IsDigit(m.value[0]);
      AllIndex
    else if m.Some? && IsDecimal(m.value) then IntIndex(DecimalValue(m.value))
    else NoIndex
  }

  /** `parse_indexes(matches, accept_all)`. */
  function ParseIndexes(matches: seq<Option<string>>, acceptAll: bool): (r: seq<Index>)
    ensures |r| == |matches|
    ensures forall k :: 0 <= k < |r| ==>
      (r[k] == AllIndex <==> matches[k] == Some("all") && acceptAll)
    ensures forall k :: 0 <= k < |r| ==>
      (r[k].IntIndex? <==> matches[k].Some? && IsDecimal(matches[k].value))
    ensures forall k :: 0 <= k < |r| && r[k].IntIndex? ==>
      matches[k].Some? && IsDecimal(matches[k].value) && r[k].value == DecimalValue(matches[k].value)
    ensures forall k :: 0 <= k < |r| ==>
      (r[k] == NoIndex <==>
        !(matches[k] == Some("all") && acceptAll) && !(matches[k].Some? && IsDecimal(matches[k].value)))
  {
    seq(|matches|, k requires 0 <= k < |matches| => ParseIndex(matches[k], acceptAll))
  }

  /** The printed digits of `n` parse back to `n`. */
  lemma ParseIndexOfDecimal(n: nat, acceptAll: bool)
    ensures ParseIndexes([Some(NatToDecimal(n))], acceptAll) == [IntIndex(n)]
  {
    DecimalRoundTrip(n);
    assert NatToDecimal(n) != "all" by {
      assert IsDigit(NatToDecimal(n)[0]);
    }
  }

  /** Python truthiness of an element: `None` and `0` are false, `"all"` and
      any other `int` are true. */
  predicate Truthy(x: Index): (b: bool)
    ensures b <==> !(x == NoIndex || x == IntIndex(0))
    ensures x == AllIndex ==> b
  {
    x.AllIndex? || (x.IntIndex? && x.value != 0)
  }

  // ---------------------------------------------------------------------
  // Shapes shared by the patterns

  /** `\s+`: a non-empty run of whitespace. */
  predicate IsGap(ws: string) {
    |ws| > 0 && All(ws, IsSpace)
  }

  /** The capture `(.+)` after a whitespace run on a stripped line: non-empty,
      starting after the whole run, and free of newlines (`.` matches no
      newline). */
  predicate IsText(text: string) {
    |text| > 0 && !IsSpace(text[0]) && '\n' !in text
  }

  /** The optional segment `.<sub>` of a delete or edit command. */
  function Dotted(sub: Option<string>): string {
    if sub.Some? then "." + sub.value else ""
  }

  /** The tail `\s+(.+)$` of a pattern, on what is left of the line: a
      whitespace run, then the rest of the line as the capture. */
  function Tail(s: string): (r: Option<string>)
    ensures r.Some? ==> IsText(r.value) && |r.value| < |s|
  {
    var (ws, text) := Split(s, IsSpace);
    if ws != [] && text != [] && '\n' !in text then Some(text) else None
  }

  lemma TailSound(s: string)
    requires Tail(s).Some?
    ensures exists ws :: s == ws + Tail(s).value && IsGap(ws) && IsText(Tail(s).value)
  {
    var (ws, text) := Split(s, IsSpace);
    assert s == ws + text && IsGap(ws);
  }

  lemma TailComplete(ws: string, text: string)
    requires IsGap(ws) && IsText(text)
    ensures Tail(ws + text) == Some(text)
  {
    SplitExact(ws, text, IsSpace);
  }

  // ---------------------------------------------------------------------
  // delete_pattern = ^d\s+(\d+)(?:\.(?:(\d+|all)))?$   (matched on the lowered line)

  datatype DeleteGroups = DeleteGroups(task: string, sub: Option<string>)

  /** `delete_pattern.match(s)` on a stripped line: groups 1 and 2. */
  function MatchDelete(s: string): (r: Option<DeleteGroups>)
    ensures r.Some? ==> |s| > 0 && s[0] == 'd' && IsDecimal(r.value.task)
    ensures r.Some? && r.value.sub.Some? ==> IsDecimal(r.value.sub.value) || r.value.sub.value == "all"
  {
    if |s| == 0 || s[0] != 'd' then None
    else
      var (ws, afterGap) := Split(s[1..], IsSpace);
      var (task, rest) := Split(afterGap, IsDigit);
      if ws == [] || task == [] then None
      else if rest == [] then Some(DeleteGroups(task, None))
      else if rest[0] == '.' && (IsDecimal(rest[1..]) || rest[1..] == "all") then
        Some(DeleteGroups(task, Some(rest[1..])))
      else None
  }

  /** The lines `delete_pattern` accepts, with their capture groups. */
  predicate IsDeleteLine(s: string, ws: string, task: string, sub: Option<string>) {
    && s == "d" + ws + task + Dotted(sub)
    && IsGap(ws)
    && IsDecimal(task)
    && (sub.Some? ==> IsDecimal(sub.value) || sub.value == "all")
  }

  lemma MatchDeleteSound(s: string)
    requires MatchDelete(s).Some?
    ensures exists ws :: IsDeleteLine(s, ws, MatchDelete(s).value.task, MatchDelete(s).value.sub)
  {
    var g := MatchDelete(s).value;
    var (ws, afterGap) := Split(s[1..], IsSpace);
    var (task, rest) := Split(afterGap, IsDigit);
    assert rest == Dotted(g.sub) by {
      if rest != [] { assert rest == [rest[0]] + rest[1..]; }
    }
    assert s == [s[0]] + s[1..];
    assert IsDeleteLine(s, ws, g.task, g.sub);
  }

  lemma MatchDeleteComplete(s: string, ws: string, task: string, sub: Option<string>)
    requires IsDeleteLine(s, ws, task, sub)
    ensures MatchDelete(s) == Some(DeleteGroups(task, sub))
  {
    var rest := Dotted(sub);
    assert s[1..] == ws + (task + rest);
    assert (task + rest)[0] == task[0];
    SplitExact(ws, task + rest, IsSpace);
    SplitExact(task, rest, IsDigit);
    if sub.Some? {
      assert rest[1..] == sub.value;
    }
  }

  // ---------------------------------------------------------------------
  // edit_pattern = ^e\s+(\d+)(?:\.(\d+))?\s+(.+)$

  datatype EditGroups = EditGroups(task: string, sub: Option<string>, text: string)

  /** `edit_pattern.match(s)` on a stripped line: groups 1, 2 and 3. */
  function MatchEdit(s: string): (r: Option<EditGroups>)
    ensures r.Some? ==> |s| > 0 && s[0] == 'e' && IsDecimal(r.value.task)
    ensures r.Some? && r.value.sub.Some? ==> IsDecimal(r.value.sub.value)
  {
    if |s| == 0 || s[0] != 'e' then None
    else
      var (ws, afterGap) := Split(s[1..], IsSpace);
      var (task, rest) := Split(afterGap, IsDigit);
      if ws == [] || task == [] then None else EditRest(task, rest)
  }

  /** The part `(?:\.(\d+))?\s+(.+)$` of the edit pattern, after the task
      number. The optional `.<digits>` must be taken when a dot follows the
      task number, since `\s+` cannot match the dot. */
  function EditRest(task: string, rest: string): (r: Option<EditGroups>)
    ensures r.Some? ==> r.value.task == task
    ensures r.Some? && r.value.sub.Some? ==> IsDecimal(r.value.sub.value)
  {
    if rest != [] && rest[0] == '.' then
      var (sub, tail) := Split(rest[1..], IsDigit);
      if sub == [] then None
      else match Tail(tail)
        case Some(text) => Some(EditGroups(task, Some(sub), text))
        case None => None
    else match Tail(rest)
      case Some(text) => Some(EditGroups(task, None, text))
      case None => None
  }

  /** The lines `edit_pattern` accepts, with their capture groups. */
  predicate IsEditLine(s: string, ws1: string, task: string, sub: Option<string>, ws2: string, text: string) {
    && s == "e" + ws1 + task + Dotted(sub) + ws2 + text
    && IsGap(ws1)
    && IsDecimal(task)
    && (sub.Some? ==> IsDecimal(sub.value))
    && IsGap(ws2)
    && IsText(text)
  }

  lemma EditRestSound(task: string, rest: string)
    requires EditRest(task, rest).Some?
    ensures var g := EditRest(task, rest).value;
      exists ws2 :: rest == Dotted(g.sub) + ws2 + g.text && IsGap(ws2) && IsText(g.text)
  {
    var g := EditRest(task, rest).value;
    if rest != [] && rest[0] == '.' {
      var (sub, tail) := Split(rest[1..], IsDigit);
      assert Tail(tail) == Some(g.text);
      DottedRestSound(rest, sub, tail, g.text);
    } else {
      assert Tail(rest) == Some(g.text);
      TailSound(rest);
      var ws2 :| rest == ws2 + g.text && IsGap(ws2) && IsText(g.text);
      assert rest == Dotted(g.sub) + ws2 + g.text;
    }
  }

  /** The dotted case of `EditRestSound`: a rest that starts with `.` and the
      subtask digits, followed by an accepted tail. */
  lemma DottedRestSound(rest: string, sub: string, tail: string, text: string)
    requires rest != [] && rest[0] == '.' && rest[1..] == sub + tail
    requires Tail(tail) == Some(text)
    ensures exists ws2 :: rest == Dotted(Some(sub)) + ws2 + text && IsGap(ws2) && IsText(text)
  {
    TailSound(tail);
    var ws2 :| tail == ws2 + text && IsGap(ws2) && IsText(text);
    assert rest == [rest[0]] + rest[1..];
    assert rest == "." + sub + ws2 + text;
  }

  lemma EditRestComplete(task: string, sub: Option<string>, ws2: string, text: string)
    requires sub.Some? ==> IsDecimal(sub.value)
    requires IsGap(ws2) && IsText(text)
    ensures EditRest(task, Dotted(sub) + ws2 + text) == Some(EditGroups(task, sub, text))
  {
    if sub.Some? {
      Associate(".", sub.value, ws2, text);
      TailComplete(ws2, text);
      assert (ws2 + text)[0] == ws2[0];
      DottedRestComplete(task, sub.value, ws2 + text, text);
    } else {
      assert Dotted(sub) + ws2 + text == ws2 + text;
      TailComplete(ws2, text);
      assert (ws2 + text)[0] == ws2[0];
    }
  }

  /** The dotted case of `EditRestComplete`. */
  lemma DottedRestComplete(task: string, sub: string, tail: string, text: string)
    requires IsDecimal(sub) && Tail(tail) == Some(text) && tail != [] && IsSpace(tail[0])
    ensures EditRest(task, "." + (sub + tail)) == Some(EditGroups(task, Some(sub), text))
  {
    var rest := "." + (sub + tail);
    assert rest[0] == '.' && rest[1..] == sub + tail;
    SplitExact(sub, tail, IsDigit);
  }

  /** Reassembles an edit line from the pieces the recogniser cut it into. */
  lemma EditLineOf(s: string, ws1: string, task: string, rest: string, sub: Option<string>, ws2: string, text: string)
    requires |s| > 0 && s[0] == 'e' && s[1..] == ws1 + task + rest
    requires rest == Dotted(sub) + ws2 + text
    requires IsGap(ws1) && IsDecimal(task) && (sub.Some? ==> IsDecimal(sub.value)) && IsGap(ws2) && IsText(text)
    ensures IsEditLine(s, ws1, task, sub, ws2, text)
  {
    assert s == [s[0]] + s[1..];
    Associate6("e", ws1, task, Dotted(sub), ws2, text);
  }

  /** Regroups the six pieces of an edit line (`e`, gap, task, dotted part,
      gap, text) as `MatchEditSound` reassembles them. */
  lemma Associate6(a: string, b: string, c: string, d: string, e: string, f: string)
    ensures a + b + c + d + e + f == a + (b + c + (d + e + f))
  {
  }

  lemma MatchEditSound(s: string)
    requires MatchEdit(s).Some?
    ensures var g := MatchEdit(s).value;
      exists ws1, ws2 :: IsEditLine(s, ws1, g.task, g.sub, ws2, g.text)
  {
    var g := MatchEdit(s).value;
    var (ws1, afterGap) := Split(s[1..], IsSpace);
    var (task, rest) := Split(afterGap, IsDigit);
    assert MatchEdit(s) == EditRest(task, rest);
    assert g.task == task;
    EditRestSound(task, rest);
    var ws2 :| rest == Dotted(g.sub) + ws2 + g.text && IsGap(ws2) && IsText(g.text);
    EditLineOf(s, ws1, task, rest, g.sub, ws2, g.text);
  }

  /** Regroups the pieces `.`, subtask digits, gap and text of a dotted edit
      remainder for `EditRestComplete`. */
  lemma Associate(a: string, b: string, c: string, d: string)
    ensures a + b + c + d == a + (b + (c + d))
  {
  }

  /** After `e`, a gap and the task number, the rest of the line is left to `EditRest`. */
  lemma MatchEditPrefix(s: string, ws1: string, task: string, rest: string)
    requires s == "e" + (ws1 + (task + rest))
    requires IsGap(ws1) && IsDecimal(task)
    requires rest == [] || !IsDigit(rest[0])
    ensures MatchEdit(s) == EditRest(task, rest)
  {
    assert s[1..] == ws1 + (task + rest);
    assert (task + rest)[0] == task[0];
    SplitExact(ws1, task + rest, IsSpace);
    SplitExact(task, rest, IsDigit);
  }

  lemma MatchEditComplete(s: string, ws1: string, task: string, sub: Option<string>, ws2: string, text: string)
    requires IsEditLine(s, ws1, task, sub, ws2, text)
    ensures MatchEdit(s) == Some(EditGroups(task, sub, text))
  {
    var rest := Dotted(sub) + ws2 + text;
    Associate5("e", ws1, task, Dotted(sub) + ws2, text);
    RestAfterTaskNumber(sub, ws2, text);
    MatchEditPrefix(s, ws1, task, rest);
    EditRestComplete(task, sub, ws2, text);
  }

  /** Regroups an edit line as `e` followed by the gap, the task digits and
      the remainder, the form `MatchEditPrefix` takes, for `MatchEditComplete`. */
  lemma Associate5(a: string, b: string, c: string, d: string, e: string)
    ensures a + b + c + d + e == a + (b + (c + (d + e)))
  {
  }

  /** What follows the task number of an edit line starts with the dot or the
      whitespace run, so the task digits end there. */
  lemma RestAfterTaskNumber(sub: Option<string>, ws2: string, text: string)
    requires IsGap(ws2)
    ensures var rest := Dotted(sub) + ws2 + text; rest != [] && !IsDigit(rest[0])
  {
    var rest := Dotted(sub) + ws2 + text;
    if sub.Some? {
      assert rest[0] == '.';
    } else {
      assert rest[0] == ws2[0];
    }
  }

  // ---------------------------------------------------------------------
  // add_subtask_pattern = ^(\d+)\s+(.+)$

  datatype SubtaskGroups = SubtaskGroups(task: string, text: string)

  /** `add_subtask_pattern.match(s)` on a stripped line: groups 1 and 2. */
  function MatchAddSubtask(s: string): (r: Option<SubtaskGroups>)
    ensures r.Some? ==> |s| > 0 && IsDigit(s[0]) && IsDecimal(r.value.task)
  {
    var (task, rest) := Split(s, IsDigit);
    if task == [] then None
    else match Tail(rest)
      case Some(text) => Some(SubtaskGroups(task, text))
      case None => None
  }

  /** The lines `add_subtask_pattern` accepts, with their capture groups. */
  predicate IsAddSubtaskLine(s: string, task: string, ws: string, text: string) {
    s == task + ws + text && IsDecimal(task) && IsGap(ws) && IsText(text)
  }

  lemma MatchAddSubtaskSound(s: string)
    requires MatchAddSubtask(s).Some?
    ensures exists ws :: IsAddSubtaskLine(s, MatchAddSubtask(s).value.task, ws, MatchAddSubtask(s).value.text)
  {
    var g := MatchAddSubtask(s).value;
    var (task, rest) := Split(s, IsDigit);
    TailSound(rest);
    var ws :| rest == ws + g.text && IsGap(ws) && IsText(g.text);
    assert IsAddSubtaskLine(s, g.task, ws, g.text);
  }

  lemma MatchAddSubtaskComplete(s: string, task: string, ws: string, text: string)
    requires IsAddSubtaskLine(s, task, ws, text)
    ensures MatchAddSubtask(s) == Some(SubtaskGroups(task, text))
  {
    assert s == task + (ws + text);
    assert (ws + text)[0] == ws[0];
    SplitExact(task, ws + text, IsDigit);
    TailComplete(ws, text);
  }

  // ---------------------------------------------------------------------
  // commands_pattern = ^help\s*(off)?$

  /** `commands_pattern.match(s)` on a stripped line: `None` when it fails,
      otherwise group 1, which is `"off"` or absent. */
  function MatchHelp(s: string): (r: Option<Option<string>>)
    ensures r.Some? ==> |s| >= 4 && s[..4] == "help"
    ensures r.Some? && r.value.Some? ==> r.value.value == "off"
  {
    if |s| < 4 || s[..4] != "help" then None
    else
      var (ws, rest) := Split(s[4..], IsSpace);
      if rest == "" then Some(None)
      else if rest == "off" then Some(Some("off"))
      else None
  }

  function OffText(switch: Option<string>): string {
    if switch.Some? then switch.value else ""
  }

  /** The lines `commands_pattern` accepts, with their capture group. */
  predicate IsHelpLine(s: string, ws: string, switch: Option<string>) {
    && s == "help" + ws + OffText(switch)
    && All(ws, IsSpace)
    && (switch.Some? ==> switch.value == "off")
  }

  lemma MatchHelpSound(s: string)
    requires MatchHelp(s).Some?
    ensures exists ws :: IsHelpLine(s, ws, MatchHelp(s).value)
  {
    var (ws, rest) := Split(s[4..], IsSpace);
    assert s == s[..4] + s[4..];
    assert rest == OffText(MatchHelp(s).value);
    assert IsHelpLine(s, ws, MatchHelp(s).value);
  }

  lemma MatchHelpComplete(s: string, ws: string, switch: Option<string>)
    requires IsHelpLine(s, ws, switch)
    ensures MatchHelp(s) == Some(switch)
  {
    var rest := OffText(switch);
    assert s[..4] == "help" && s[4..] == ws + rest;
    assert rest != [] ==> rest[0] == 'o';
    SplitExact(ws, rest, IsSpace);
  }

  // ---------------------------------------------------------------------
  // The dispatch chain

  /** What one stripped line asks the application to do. */
  datatype Command =
    | Clear
    | DeleteTask(task: nat)
    | DeleteSubtask(task: nat, which: Store.SubtaskRef)
    | EditTask(task: nat, text: string)
    | EditSubtask(task: nat, sub: nat, text: string)
    | AddSubtask(task: nat, text: string)
    | SetHelp(show: bool)
    | AddTask(title: string)
    | Nothing

  /** The `if`/`elif` chain of the loop body applied to a stripped line: the
      literal `clear`, then the delete pattern on the lower-cased line, then
      edit, add-subtask and help on the line as typed, and finally the line
      itself as a new task unless it is empty. A subtask index that is absent
      or `0` is falsy and selects the task-level delete or edit. */
  function Classify(line: string): (c: Command)
    ensures c.Nothing? <==> line == ""
    ensures c.AddTask? ==> c.title == line
  {
    var deleteMatch := MatchDelete(Lower(line));
    var editMatch := MatchEdit(line);
    var subtaskMatch := MatchAddSubtask(line);
    var commandsMatch := MatchHelp(line);
    if line == "clear" then Clear
    else if deleteMatch.Some? then
      var indexes := ParseIndexes([Some(deleteMatch.value.task), deleteMatch.value.sub], true);
      var task := indexes[0].value;
      if Truthy(indexes[1]) then
        DeleteSubtask(task, if indexes[1].AllIndex? then Store.AllSubtasks else Store.Number(indexes[1].value))
      else
        DeleteTask(task)
    else if editMatch.Some? then
      var indexes := ParseIndexes([Some(editMatch.value.task), editMatch.value.sub], false);
      var task := indexes[0].value;
      if Truthy(indexes[1]) then
        EditSubtask(task, indexes[1].value, editMatch.value.text)
      else
        EditTask(task, editMatch.value.text)
    else if subtaskMatch.Some? then
      AddSubtask(DecimalValue(subtaskMatch.value.task), subtaskMatch.value.text)
    else if commandsMatch.Some? then
      SetHelp(commandsMatch.value != Some("off"))
    else if line != "" then
      AddTask(line)
    else
      Nothing
  }

  /** The store call (or flag update) the chain makes for a command. Only
      `SetHelp` touches the help flag, and it touches nothing else. */
  function Execute(st: Store.AppState, c: Command): (r: Store.AppState)
    ensures !c.SetHelp? ==> r.showCommands == st.showCommands
    ensures c.SetHelp? ==> r == st.(showCommands := c.show)
    ensures c.Nothing? ==> r == st
  {
    match c
    case Clear => Store.DeleteAllTasks(st)
    case DeleteTask(i) => Store.DeleteTask(st, i)
    case DeleteSubtask(i, which) => Store.DeleteSubtask(st, i, which)
    case EditTask(i, text) => Store.EditTask(st, i, text)
    case EditSubtask(i, j, text) => Store.EditSubtask(st, i, j, text)
    case AddSubtask(i, text) => Store.AddSubtask(st, i, text)
    case SetHelp(show) => st.(showCommands := show)
    case AddTask(title) => Store.AddTask(st, title)
    case Nothing => st
  }

  /** The loop body after `display_tasks`: strip the line read, classify it,
      act on it. A line either changes the help flag or acts on the store,
      never both. */
  function Dispatch(st: Store.AppState, input: string): (r: Store.AppState)
    ensures r.showCommands == st.showCommands || (r.tasks == st.tasks && r.message == st.message)
  {
    Execute(st, Classify(Strip(input)))
  }

  /** One turn of the read loop: display (which clears a pending message),
      then dispatch the line read. A turn that changes the help flag leaves
      the tasks as they were and no message pending. */
  function Iteration(st: Store.AppState, input: string): (r: Store.AppState)
    ensures r.showCommands == st.showCommands || (r.tasks == st.tasks && r.message == Store.NoMessage)
  {
    Dispatch(Store.Displayed(st), input)
  }

  /** The read loop over a finite sequence of input lines; with no lines the
      state is as it was. */
  function Run(st: Store.AppState, lines: seq<string>): (r: Store.AppState)
    ensures lines == [] ==> r == st
    decreases |lines|
  {
    if lines == [] then st else Iteration(Run(st, lines[..|lines| - 1]), lines[|lines| - 1])
  }

  /** The message pending before a turn has no effect on the state after it:
      display consumes it before the line is acted on. */
  lemma PendingMessageForgotten(st: Store.AppState, m: Store.Message, input: string)
    ensures Iteration(st, input) == Iteration(st.(message := m), input)
  {
    assert Store.Displayed(st) == Store.Displayed(st.(message := m));
  }

  // ---------------------------------------------------------------------
  // Properties of the dispatch

  /** The patterns start with different characters (`c`, `d`/`D`, `e`, a
      digit, `h`), so at most one of the chain's tests succeeds on any line;
      the order of the chain only matters against the final fallback. */
  lemma PatternsExclusive(line: string)
    ensures MatchDelete(Lower(line)).Some? ==>
      line != "clear" && MatchEdit(line).None? && MatchAddSubtask(line).None? && MatchHelp(line).None?
    ensures MatchEdit(line).Some? ==>
      line != "clear" && MatchAddSubtask(line).None? && MatchHelp(line).None?
    ensures MatchAddSubtask(line).Some? ==> line != "clear" && MatchHelp(line).None?
    ensures MatchHelp(line).Some? ==> line != "clear"
  {
    if MatchHelp(line).Some? {
      assert line[0] == 'h';
    }
  }

  /** Delete lines, matched after lower-casing: `d N` deletes task N, `d N.all`
      empties its subtasks, `d N.M` deletes subtask M, except that `M = 0` is
      falsy and deletes task N instead. */
  lemma ClassifyDelete(line: string, ws: string, task: string, sub: Option<string>)
    requires IsDeleteLine(Lower(line), ws, task, sub)
    ensures var n := DecimalValue(task);
      Classify(line) ==
        if sub.None? then DeleteTask(n)
        else if sub.value == "all" then DeleteSubtask(n, Store.AllSubtasks)
        else if DecimalValue(sub.value) == 0 then DeleteTask(n)
        else DeleteSubtask(n, Store.Number(DecimalValue(sub.value)))
  {
    MatchDeleteComplete(Lower(line), ws, task, sub);
    assert LowerChar(line[0]) == 'd';
    assert line != "clear";
    if sub.Some? && sub.value == "all" {
      assert !IsDecimal(sub.value) by { assert !IsDigit(sub.value[0]); }
    }
  }

  /** Edit lines: `e N text` retitles task N and `e N.M text` rewrites subtask
      M, except that `M = 0` is falsy and retitles task N; the text is what
      follows the whole whitespace run after the index. */
  lemma ClassifyEdit(line: string, ws1: string, task: string, sub: Option<string>, ws2: string, text: string)
    requires IsEditLine(line, ws1, task, sub, ws2, text)
    ensures var n := DecimalValue(task);
      Classify(line) ==
        if sub.Some? && DecimalValue(sub.value) != 0 then EditSubtask(n, DecimalValue(sub.value), text)
        else EditTask(n, text)
  {
    MatchEditComplete(line, ws1, task, sub, ws2, text);
    PatternsExclusive(line);
    assert Lower(line)[0] == 'e';
  }

  /** `N text` appends `text` to the subtasks of task N. */
  lemma ClassifyAddSubtask(line: string, task: string, ws: string, text: string)
    requires IsAddSubtaskLine(line, task, ws, text)
    ensures Classify(line) == AddSubtask(DecimalValue(task), text)
  {
    MatchAddSubtaskComplete(line, task, ws, text);
    assert line[0] == task[0];
    assert Lower(line)[0] == line[0];
  }

  /** `help` shows the command list; `help off`, with any whitespace between
      the words or none, hides it. */
  lemma ClassifyHelp(line: string, ws: string, switch: Option<string>)
    requires IsHelpLine(line, ws, switch)
    ensures Classify(line) == SetHelp(switch.None?)
  {
    MatchHelpComplete(line, ws, switch);
    PatternsExclusive(line);
    assert Lower(line)[0] == 'h';
  }

  /** The delete pattern rejects a dot followed by anything but digits or `all`. */
  lemma MatchDeleteRejectsJunk(ws: string, task: string, junk: string)
    requires IsGap(ws) && IsDecimal(task)
    requires !IsDecimal(junk) && junk != "all"
    ensures MatchDelete("d" + ws + task + "." + junk).None?
  {
    var s := "d" + ws + task + "." + junk;
    var rest := "." + junk;
    assert s == "d" + (ws + (task + rest));
    assert s[1..] == ws + (task + rest);
    assert (task + rest)[0] == task[0];
    SplitExact(ws, task + rest, IsSpace);
    SplitExact(task, rest, IsDigit);
    assert rest[1..] == junk;
  }

  /** A line that looks like a delete, in either case, but whose part after
      the dot is neither a number nor `all` (such as `d 2.x`, `D 2.X` or
      `d 1.`) matches no pattern and is added as a task with the line's own
      text, not its lower-cased form. */
  lemma MalformedDeleteIsNewTask(d: char, ws: string, task: string, junk: string)
    requires d == 'd' || d == 'D'
    requires IsGap(ws) && IsDecimal(task)
    requires !IsDecimal(junk) && Lower(junk) != "all"
    ensures var line := [d] + ws + task + "." + junk;
      Classify(line) == AddTask(line)
  {
    var line := [d] + ws + task + "." + junk;
    LowerDeleteLine(d, ws, task, junk);
    LowerDecimal(junk);
    MatchDeleteRejectsJunk(ws, task, Lower(junk));
    assert line[0] == d;
    assert MatchHelp(line).None? by {
      if |line| >= 4 { assert line[..4][0] == d; }
    }
  }

  /** Lower-casing a delete-like line changes only its leading letter and
      the part after the dot. */
  lemma LowerDeleteLine(d: char, ws: string, task: string, junk: string)
    requires d == 'd' || d == 'D'
    requires All(ws, IsSpace) && All(task, IsDigit)
    ensures Lower([d] + ws + task + "." + junk) == "d" + ws + task + "." + Lower(junk)
  {
    LowerAppend([d] + ws + task + ".", junk);
    LowerAppend([d] + ws + task, ".");
    LowerAppend([d] + ws, task);
    LowerAppend([d], ws);
    LowerNoUpper(ws);
    LowerNoUpper(task);
    assert Lower([d]) == "d";
  }

  /** A line becomes a new task exactly when it is non-empty, is not `clear`
      and none of the four patterns matches it. */
  lemma FallbackExactly(line: string)
    ensures Classify(line).AddTask? <==>
      && line != "" && line != "clear"
      && MatchDelete(Lower(line)).None? && MatchEdit(line).None?
      && MatchAddSubtask(line).None? && MatchHelp(line).None?
  {
  }

  /** A line that starts with none of the characters the patterns begin with
      (and is not `clear`) is added as a task, exactly as typed. */
  lemma PlainLineIsNewTask(line: string)
    requires line != "" && line != "clear"
    requires line[0] !in "dDeh" && !IsDigit(line[0])
    ensures Classify(line) == AddTask(line)
  {
    assert Lower(line)[0] != 'd';
    if |line| >= 4 {
      assert line[..4][0] == line[0];
    }
  }

  /** Which part of the state one line can change: a line that is blank after
      stripping changes nothing, only a `help` line changes the help flag, and
      a `help` line changes nothing else. */
  lemma DispatchFrame(st: Store.AppState, input: string)
    ensures Strip(input) == "" ==> Dispatch(st, input) == st
    ensures !Classify(Strip(input)).SetHelp? ==> Dispatch(st, input).showCommands == st.showCommands
    ensures Classify(Strip(input)).SetHelp? ==>
      Dispatch(st, input).tasks == st.tasks && Dispatch(st, input).message == st.message
  {
  }

  /** Running one more line is one more turn of the loop. */
  lemma RunAppend(st: Store.AppState, lines: seq<string>, line: string)
    ensures Run(st, lines + [line]) == Iteration(Run(st, lines), line)
  {
    assert (lines + [line])[..|lines|] == lines;
  }

  /** Blank lines leave the tasks and the help flag as they were; all they
      do is let display consume the pending message. */
  lemma {:induction false} BlankLinesKeepTasks(st: Store.AppState, lines: seq<string>)
    requires forall k :: 0 <= k < |lines| ==> Strip(lines[k]) == ""
    ensures Run(st, lines).tasks == st.tasks
    ensures Run(st, lines).showCommands == st.showCommands
    decreases |lines|
  {
    if lines != [] {
      var front := lines[..|lines| - 1];
      assert forall k :: 0 <= k < |front| ==> front[k] == lines[k];
      DispatchFrame(Store.Displayed(Run(st, front)), lines[|lines| - 1]);
      BlankLinesKeepTasks(st, front);
    }
  }

  /** Over any run of lines the help flag changes only if one of them is a
      `help` command. */
  lemma {:induction false} HelpFlagOnlyByHelp(st: Store.AppState, lines: seq<string>)
    requires forall k :: 0 <= k < |lines| ==> !Classify(Strip(lines[k])).SetHelp?
    ensures Run(st, lines).showCommands == st.showCommands
    decreases |lines|
  {
    if lines != [] {
      var front := lines[..|lines| - 1];
      assert forall k :: 0 <= k < |front| ==> front[k] == lines[k];
      DispatchFrame(Store.Displayed(Run(st, front)), lines[|lines| - 1]);
      HelpFlagOnlyByHelp(st, front);
    }
  }

  /** `RunAppend` on prefixes of one sequence of lines. */
  lemma RunPrefix(st: Store.AppState, lines: seq<string>, k: nat)
    requires k < |lines|
    ensures Run(st, lines[..k + 1]) == Iteration(Run(st, lines[..k]), lines[k])
  {
    assert lines[..k + 1] == lines[..k] + [lines[k]];
    RunAppend(st, lines[..k], lines[k]);
  }
}
