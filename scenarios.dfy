/** Concrete sessions of the application, each worked out through the
    general lemmas of `Interpreter` and `Store`. */
module Scenarios {
  import opened Optional
  import opened Text
  import Store
  import Interpreter

  /** A line typed without surrounding whitespace is dispatched as it is. */
  lemma Typed(line: string)
    requires IsStripped(line)
    ensures Strip(line) == line
  {
    StripExact([], line, []);
    assert [] + line + [] == line;
  }

  // The lines of the sessions below are typed without surrounding whitespace.

  lemma TypedBuyMilk()
    ensures Strip("buy milk") == "buy milk"
  {
    Typed("buy milk");
  }

  lemma TypedUrgent()
    ensures Strip("1 urgent") == "1 urgent"
  {
    Typed("1 urgent");
  }

  lemma TypedEdit()
    ensures Strip("e 1.1 very urgent") == "e 1.1 very urgent"
  {
    Typed("e 1.1 very urgent");
  }

  lemma TypedDeleteAll()
    ensures Strip("d 1.all") == "d 1.all"
  {
    Typed("d 1.all");
  }

  lemma TypedDelete5()
    ensures Strip("d 5") == "d 5"
  {
    Typed("d 5");
  }

  // How each line of the sessions below is classified.

  lemma ClassifyBuyMilk()
    ensures Interpreter.Classify("buy milk") == Interpreter.AddTask("buy milk")
  {
    Interpreter.PlainLineIsNewTask("buy milk");
  }

  lemma ClassifyUrgent()
    ensures Interpreter.Classify("1 urgent") == Interpreter.AddSubtask(1, "urgent")
  {
    assert "1 urgent" == "1" + " " + "urgent";
    assert Interpreter.IsGap(" ") && IsDecimal("1");
    assert Interpreter.IsText("urgent");
    Interpreter.ClassifyAddSubtask("1 urgent", "1", " ", "urgent");
    assert DecimalValue("1") == 1;
  }

  lemma ClassifyEditVeryUrgent()
    ensures Interpreter.Classify("e 1.1 very urgent") == Interpreter.EditSubtask(1, 1, "very urgent")
  {
    assert "e 1.1 very urgent" == "e" + " " + "1" + Interpreter.Dotted(Some("1")) + " " + "very urgent";
    assert Interpreter.IsGap(" ") && IsDecimal("1");
    assert Interpreter.IsText("very urgent");
    Interpreter.ClassifyEdit("e 1.1 very urgent", " ", "1", Some("1"), " ", "very urgent");
    assert DecimalValue("1") == 1;
  }

  lemma ClassifyDeleteAll()
    ensures Interpreter.Classify("d 1.all") == Interpreter.DeleteSubtask(1, Store.AllSubtasks)
  {
    assert Lower("d 1.all") == "d" + " " + "1" + Interpreter.Dotted(Some("all"));
    assert Interpreter.IsGap(" ") && IsDecimal("1");
    Interpreter.ClassifyDelete("d 1.all", " ", "1", Some("all"));
    assert DecimalValue("1") == 1;
  }

  lemma ClassifyDelete5()
    ensures Interpreter.Classify("d 5") == Interpreter.DeleteTask(5)
  {
    assert Lower("d 5") == "d" + " " + "5" + Interpreter.Dotted(None);
    assert Interpreter.IsGap(" ") && IsDecimal("5");
    Interpreter.ClassifyDelete("d 5", " ", "5", None);
    assert DecimalValue("5") == 5;
  }

  // The four lines of the session below, dispatched from any state.

  lemma DispatchBuyMilk(st: Store.AppState)
    ensures Interpreter.Dispatch(st, "buy milk") == Store.AddTask(st, "buy milk")
  {
    TypedBuyMilk();
    ClassifyBuyMilk();
  }

  lemma DispatchUrgent(st: Store.AppState)
    ensures Interpreter.Dispatch(st, "1 urgent") == Store.AddSubtask(st, 1, "urgent")
  {
    TypedUrgent();
    ClassifyUrgent();
  }

  lemma DispatchEdit(st: Store.AppState)
    ensures Interpreter.Dispatch(st, "e 1.1 very urgent") == Store.EditSubtask(st, 1, 1, "very urgent")
  {
    TypedEdit();
    ClassifyEditVeryUrgent();
  }

  lemma DispatchDeleteAll(st: Store.AppState)
    ensures Interpreter.Dispatch(st, "d 1.all") == Store.DeleteSubtask(st, 1, Store.AllSubtasks)
  {
    TypedDeleteAll();
    ClassifyDeleteAll();
  }

  /** One line more at the end of a literal list of lines is one turn more. */
  lemma RunOneMore(st: Store.AppState, lines: seq<string>, line: string, all: seq<string>)
    requires all == lines + [line]
    ensures Interpreter.Run(st, all) == Interpreter.Iteration(Interpreter.Run(st, lines), line)
  {
    Interpreter.RunAppend(st, lines, line);
  }

  /** Two lines run from `st` are two turns in a row. */
  lemma RunTwo(st: Store.AppState, a: string, b: string)
    ensures Interpreter.Run(st, [a, b]) == Interpreter.Iteration(Interpreter.Iteration(st, a), b)
  {
    RunOneMore(st, [], a, [a]);
    RunOneMore(st, [a], b, [a, b]);
  }

  lemma RunThree(st: Store.AppState, a: string, b: string, c: string)
    ensures Interpreter.Run(st, [a, b, c])
      == Interpreter.Iteration(Interpreter.Iteration(Interpreter.Iteration(st, a), b), c)
  {
    RunTwo(st, a, b);
    RunOneMore(st, [a, b], c, [a, b, c]);
  }

  lemma RunFour(st: Store.AppState, a: string, b: string, c: string, d: string)
    ensures Interpreter.Run(st, [a, b, c, d])
      == Interpreter.Iteration(Interpreter.Iteration(Interpreter.Iteration(Interpreter.Iteration(st, a), b), c), d)
  {
    RunThree(st, a, b, c);
    RunOneMore(st, [a, b, c], d, [a, b, c, d]);
  }

  /** Starting from an empty list, adding `buy milk`, giving it a subtask,
      editing that subtask and then deleting all subtasks leaves one task with
      no subtasks, and the status line names the task. */
  lemma BuyMilkTurns(st: Store.AppState)
    requires st.tasks == []
    ensures
      var r := Interpreter.Iteration(Interpreter.Iteration(Interpreter.Iteration(Interpreter.Iteration(
        st, "buy milk"), "1 urgent"), "e 1.1 very urgent"), "d 1.all");
      && r.tasks == [Store.Task("buy milk", [])]
      && r.message == Store.DeletedAllSubtasks("buy milk")
      && r.showCommands == st.showCommands
  {
    var s1 := Interpreter.Iteration(st, "buy milk");
    DispatchBuyMilk(Store.Displayed(st));
    assert s1.tasks == [Store.Task("buy milk", [])];
    var s2 := Interpreter.Iteration(s1, "1 urgent");
    DispatchUrgent(Store.Displayed(s1));
    assert s2.tasks[0] == Store.Task("buy milk", ["urgent"]);
    var s3 := Interpreter.Iteration(s2, "e 1.1 very urgent");
    DispatchEdit(Store.Displayed(s2));
    assert s3.tasks[0] == Store.Task("buy milk", ["very urgent"]);
    DispatchDeleteAll(Store.Displayed(s3));
  }

  /** The same session as a run of the read loop over the four lines. */
  lemma BuyMilkSession(st: Store.AppState)
    requires st.tasks == []
    ensures
      var r := Interpreter.Run(st, ["buy milk", "1 urgent", "e 1.1 very urgent", "d 1.all"]);
      && r.tasks == [Store.Task("buy milk", [])]
      && r.message == Store.DeletedAllSubtasks("buy milk")
      && r.showCommands == st.showCommands
  {
    RunFour(st, "buy milk", "1 urgent", "e 1.1 very urgent", "d 1.all");
    BuyMilkTurns(st);
  }

  /** `d 5` on an empty list reports the bad number and keeps the list empty. */
  lemma DeleteFromEmptyList(st: Store.AppState)
    requires st.tasks == []
    ensures
      var r := Interpreter.Iteration(st, "d 5");
      r.tasks == [] && r.message == Store.InvalidTaskNumber(5) && r.showCommands == st.showCommands
  {
    DispatchDelete5(Store.Displayed(st));
  }

  lemma DispatchDelete5(st: Store.AppState)
    ensures Interpreter.Dispatch(st, "d 5") == Store.DeleteTask(st, 5)
  {
    TypedDelete5();
    ClassifyDelete5();
  }

  /** Upper-case delete commands are recognised, since the delete pattern is
      tried on the lower-cased line. */
  lemma UpperCaseDelete()
    ensures Interpreter.Classify("D 3") == Interpreter.DeleteTask(3)
  {
    assert Lower("D 3") == "d" + " " + "3" + Interpreter.Dotted(None);
    assert Interpreter.IsGap(" ") && IsDecimal("3");
    Interpreter.ClassifyDelete("D 3", " ", "3", None);
    assert DecimalValue("3") == 3;
  }

  lemma UpperCaseDeleteAll()
    ensures Interpreter.Classify("d 1.ALL") == Interpreter.DeleteSubtask(1, Store.AllSubtasks)
  {
    assert Lower("d 1.ALL") == "d" + " " + "1" + Interpreter.Dotted(Some("all"));
    assert Interpreter.IsGap(" ") && IsDecimal("1");
    Interpreter.ClassifyDelete("d 1.ALL", " ", "1", Some("all"));
    assert DecimalValue("1") == 1;
  }

  /** The other commands are case-sensitive: `E 1 x` and `Clear` are new tasks. */
  lemma UpperCaseEditIsTask()
    ensures Interpreter.Classify("E 1 x") == Interpreter.AddTask("E 1 x")
  {
    Interpreter.PlainLineIsNewTask("E 1 x");
  }

  lemma UpperCaseClearIsTask()
    ensures Interpreter.Classify("Clear") == Interpreter.AddTask("Clear")
  {
    Interpreter.PlainLineIsNewTask("Clear");
  }

  /** `helpoff` hides the commands just as `help off` does; `help` shows them. */
  lemma HelpOffWithoutSpace()
    ensures Interpreter.Classify("helpoff") == Interpreter.SetHelp(false)
  {
    assert "helpoff" == "help" + "" + Interpreter.OffText(Some("off"));
    Interpreter.ClassifyHelp("helpoff", "", Some("off"));
  }

  lemma HelpOff()
    ensures Interpreter.Classify("help off") == Interpreter.SetHelp(false)
  {
    assert "help off" == "help" + " " + Interpreter.OffText(Some("off"));
    Interpreter.ClassifyHelp("help off", " ", Some("off"));
  }

  lemma HelpOn()
    ensures Interpreter.Classify("help") == Interpreter.SetHelp(true)
  {
    assert "help" == "help" + "" + Interpreter.OffText(None);
    Interpreter.ClassifyHelp("help", "", None);
  }

  /** A zero subtask number is falsy, so it addresses the task itself. */
  lemma ZeroSubtaskDeletesTask()
    ensures Interpreter.Classify("d 2.0") == Interpreter.DeleteTask(2)
  {
    LowerNoUpper("d 2.0");
    assert "d 2.0" == "d" + " " + "2" + Interpreter.Dotted(Some("0"));
    assert Interpreter.IsGap(" ") && IsDecimal("2") && IsDecimal("0");
    assert DecimalValue("2") == 2 && DecimalValue("0") == 0;
    Interpreter.ClassifyDelete("d 2.0", " ", "2", Some("0"));
  }

  lemma ZeroSubtaskEditsTask()
    ensures Interpreter.Classify("e 2.0 x") == Interpreter.EditTask(2, "x")
  {
    assert "e 2.0 x" == "e" + " " + "2" + Interpreter.Dotted(Some("0")) + " " + "x";
    assert Interpreter.IsGap(" ") && IsDecimal("2") && IsDecimal("0");
    assert DecimalValue("2") == 2 && DecimalValue("0") == 0;
    assert Interpreter.IsText("x");
    Interpreter.ClassifyEdit("e 2.0 x", " ", "2", Some("0"), " ", "x");
  }

  /** `d 2.x` is neither a delete nor any other command: it becomes a task. */
  lemma BadSubtaskIsTask()
    ensures Interpreter.Classify("d 2.x") == Interpreter.AddTask("d 2.x")
  {
    BadSubtaskShape("d 2.x");
  }

  lemma BadSubtaskShape(line: string)
    requires line == "d" + " " + "2" + "." + "x"
    ensures Interpreter.Classify(line) == Interpreter.AddTask(line)
  {
    assert Lower("x") == "x";
    assert !IsDigit("x"[0]);
    assert Interpreter.IsGap(" ") && IsDecimal("2");
    Interpreter.MalformedDeleteIsNewTask('d', " ", "2", "x");
  }

  /** `clear` empties the list but keeps the message left by the previous
      operation, because it never assigns the global message. */
  lemma ClearKeepsMessage(st: Store.AppState)
    ensures
      var r := Interpreter.Dispatch(st, "clear");
      r.tasks == [] && r.message == st.message && r.showCommands == st.showCommands
  {
    Typed("clear");
  }
}
