/**
 * Concrete runs of run.js stated as lemmas: the process lists the locator
 * extracts from small listings, and a whole session that launches two
 * frida processes and quits on q.
 */
module Scenarios {
  import opened Basics
  import opened JsString
  import opened Locator
  import opened Supervisor

  /** The filter passes a line when it matches, up to case, the characters
      of the line from position i on. */
  lemma {:induction false} FilterPsAt(line: string, filter: string, i: nat)
    requires i + |filter| <= |line|
    requires forall k :: 0 <= k < |filter| ==> LowerChar(line[i + k]) == LowerChar(filter[k])
    ensures FilterPs(line, filter)
  {
    var s, t := ToLowerCase(line), ToLowerCase(filter);
    assert s[i..i + |t|] == t by {
      forall k | 0 <= k < |t|
        ensures s[i..i + |t|][k] == t[k]
      {
        assert s[i + k] == LowerChar(line[i + k]);
      }
    }
    assert OccursAt(s, t, i);
    FilterPsIff(line, filter);
  }

  /** A listing of two newline-terminated lines gives what each line
      contributes, in order. */
  lemma {:induction false} TwoLines(a: string, b: string, filter: string)
    requires '\n' !in a && '\n' !in b
    ensures Pids(a + "\n" + b + "\n", filter) ==
      OptionToSeq(LinePid(a, filter)) + OptionToSeq(LinePid(b, filter))
  {
    var rest := b + "\n";
    ConcatAssoc(a + "\n", b, "\n");
    PidsConcat(a, rest, filter);
    PidsOfOneLine(a, filter);
    OneLine(b, filter);
  }

  /** The two listings above, cut at their newlines. */
  lemma {:induction false} Lines(output: string, a: string, b: string)
    requires (output == "1234 myapp\n5678 other\n" && a == "1234 myapp" && b == "5678 other")
      || (output == "12 FooBar\n34 foobar\n" && a == "12 FooBar" && b == "34 foobar")
    ensures output == a + "\n" + b + "\n"
    ensures '\n' !in a && '\n' !in b
  {
  }

  /** A listing of one newline-terminated line gives what that line
      contributes. */
  lemma {:induction false} OneLine(a: string, filter: string)
    requires '\n' !in a
    ensures Pids(a + "\n", filter) == OptionToSeq(LinePid(a, filter))
  {
    assert a + "\n" == a + "\n" + "";
    PidsConcat(a, "", filter);
    PidsOfOneLine(a, filter);
    PidsOfEmptyOutput(filter);
    var pa := OptionToSeq(LinePid(a, filter));
    assert pa + [] == pa;
  }

  /** The third listing, cut at its newline. */
  lemma {:induction false} OneLineText(output: string, a: string)
    requires output == "abc not-a-pid\n" && a == "abc not-a-pid"
    ensures output == a + "\n" && '\n' !in a
  {
  }

  /** What two lines contribute, as a list. */
  lemma {:induction false} Contribute(x: Option<int>, y: Option<int>)
    ensures x.Some? && y.Some? ==> OptionToSeq(x) + OptionToSeq(y) == [x.value, y.value]
    ensures x.Some? && y.None? ==> OptionToSeq(x) + OptionToSeq(y) == [x.value]
    ensures x.None? && y.None? ==> OptionToSeq(x) + OptionToSeq(y) == []
  {
  }

  /** A row "<pid> <name>" that passes the filter contributes pid. */
  lemma {:induction false} RowOfPid(line: string, pid: int, rest: string, filter: string)
    requires line == NumberToString(pid) + " " + rest
    requires FilterPs(line, filter)
    ensures LinePid(line, filter) == Some(pid)
  {
    assert line == "" + NumberToString(pid) + (" " + rest);
    RowPid("", pid, " " + rest, filter);
  }

  /** "1234 myapp" passes the filter "myapp" and contributes 1234. */
  lemma {:induction false} RowMyApp()
    ensures LinePid("1234 myapp", "myapp") == Some(1234)
  {
    var line := "1234 myapp";
    DecimalTexts();
    assert line == NumberToString(1234) + " " + "myapp";
    FilterPsAt(line, "myapp", 5);
    RowOfPid(line, 1234, "myapp", "myapp");
  }

  /** "5678 other" has no 'm', so the filter "myapp" drops it. */
  lemma {:induction false} RowOther()
    ensures LinePid("5678 other", "myapp") == None
  {
    var b := "5678 other";
    assert forall k :: 0 <= k < |b| ==> LowerChar(b[k]) != 'm';
    FilterPsMissing(b, "myapp", 0);
    LinePidIff(b, "myapp");
  }

  /** The filter drops a line in which one of its characters does not
      occur, up to case. */
  lemma {:induction false} FilterPsMissing(line: string, filter: string, j: nat)
    requires j < |filter|
    requires forall k :: 0 <= k < |line| ==> LowerChar(line[k]) != LowerChar(filter[j])
    ensures !FilterPs(line, filter)
  {
    FilterPsNeedsChars(line, filter);
    var s := ToLowerCase(line);
    assert forall k :: 0 <= k < |s| ==> s[k] != LowerChar(filter[j]);
    assert ToLowerCase(filter)[j] == LowerChar(filter[j]);
  }

  /** "1234 myapp\n5678 other\n" with filter "myapp" gives [1234]. */
  lemma {:induction false} ScenarioOneMatch(output: string, filter: string)
    requires output == "1234 myapp\n5678 other\n" && filter == "myapp"
    ensures Pids(output, filter) == [1234]
  {
    var a, b := "1234 myapp", "5678 other";
    Lines(output, a, b);
    TwoLines(a, b, filter);
    RowMyApp();
    RowOther();
    Contribute(Some(1234), None);
  }

  /** "12 FooBar" and "34 foobar" both pass the filter "foobar". */
  lemma {:induction false} RowsFooBar()
    ensures LinePid("12 FooBar", "foobar") == Some(12)
    ensures LinePid("34 foobar", "foobar") == Some(34)
  {
    RowFooBarUpper();
    RowFooBarLower();
  }

  lemma {:induction false} RowFooBarUpper()
    ensures LinePid("12 FooBar", "foobar") == Some(12)
  {
    var line := "12 FooBar";
    DecimalTexts();
    assert line == NumberToString(12) + " " + "FooBar";
    FilterPsAt(line, "foobar", 3);
    RowOfPid(line, 12, "FooBar", "foobar");
  }

  lemma {:induction false} RowFooBarLower()
    ensures LinePid("34 foobar", "foobar") == Some(34)
  {
    var line := "34 foobar";
    DecimalTexts();
    assert line == NumberToString(34) + " " + "foobar";
    FilterPsAt(line, "foobar", 3);
    RowOfPid(line, 34, "foobar", "foobar");
  }

  /** The decimal texts of the identifiers in the listings above. */
  lemma {:induction false} DecimalTexts()
    ensures NumberToString(1234) == "1234"
    ensures NumberToString(12) == "12" && NumberToString(34) == "34"
  {
  }

  /** "12 FooBar\n34 foobar\n" with filter "foobar" gives [12, 34]: the
      match ignores case. */
  lemma {:induction false} ScenarioIgnoreCase(output: string, filter: string)
    requires output == "12 FooBar\n34 foobar\n" && filter == "foobar"
    ensures Pids(output, filter) == [12, 34]
  {
    var a, b := "12 FooBar", "34 foobar";
    Lines(output, a, b);
    TwoLines(a, b, filter);
    RowsFooBar();
    Contribute(Some(12), Some(34));
  }

  /** The trimmed "abc not-a-pid" starts with the token "abc". */
  lemma {:induction false} FirstTokenAbc()
    ensures !IsBlank("abc not-a-pid") && FirstToken(Trim("abc not-a-pid")) == "abc"
  {
    var tok, tail := "abc", " not-a-pid";
    assert "abc not-a-pid" == "" + tok + tail;
    assert forall k :: 0 <= k < |tok| ==> !IsWhiteSpace(tok[k]);
    assert IsWhiteSpace(tail[0]);
    RowToken("", tok, tail);
  }

  /** "abc not-a-pid" passes its filter, but its first token "abc" is NaN. */
  lemma {:induction false} RowNaN()
    ensures LinePid("abc not-a-pid", "not-a-pid") == None
  {
    var a := "abc not-a-pid";
    FilterPsAt(a, "not-a-pid", 4);
    FirstTokenAbc();
    LinePidIff(a, "not-a-pid");
    ParseIntNoDigit("abc");
  }

  /** "abc not-a-pid\n" with filter "not-a-pid" gives []. */
  lemma {:induction false} ScenarioNaNToken(output: string, filter: string)
    requires output == "abc not-a-pid\n" && filter == "not-a-pid"
    ensures Pids(output, filter) == []
  {
    var a := "abc not-a-pid";
    OneLineText(output, a);
    OneLine(a, filter);
    RowNaN();
  }

  /** A listing in which nothing matches: main exits with status 0 and
      launches nothing. */
  method ScenarioNothingFound() returns (session: Session)
    ensures session.phase == Exited(0) && session.processes == []
  {
    PidsOfEmptyOutput("myapp");
    session := Session.Run(Listed(""), "myapp");
  }

  /** A failed listing is treated like an empty one. */
  method ScenarioListingFails() returns (session: Session)
    ensures session.phase == Exited(0) && session.processes == []
  {
    session := Session.Run(ListingFailed("frida-ps: command not found"), "myapp");
  }

  /** The plan for two identifiers: two launches, in order. */
  lemma {:induction false} PlanOfTwo(p: int, q: int)
    ensures StartPlan([p, q]) == Attach([FridaArgv(p), FridaArgv(q)])
  {
    assert Map(FridaArgv, [p, q]) == [FridaArgv(p), FridaArgv(q)];
  }

  /** Two processes found: two frida processes are launched, in order,
      and main listens for keys. */
  method ScenarioLaunch() returns (session: Session)
    ensures fresh(session) && session.Valid()
    ensures session.Follows(Attach([FridaArgv(12), FridaArgv(34)]))
    ensures forall k :: 0 <= k < |session.processes| ==> fresh(session.processes[k])
  {
    var output, filter := "12 FooBar\n34 foobar\n", "foobar";
    ScenarioIgnoreCase(output, filter);
    PlanOfTwo(12, 34);
    session := Session.Run(Listed(output), filter);
  }

  /** After the launch, a key other than q leaves both frida processes
      running; then Q kills both and main exits with status 0. */
  method ScenarioQuit() returns (session: Session)
    ensures session.phase == Exited(0) && |session.processes| == 2
    ensures session.processes[0].argv == FridaArgv(12) && session.processes[1].argv == FridaArgv(34)
    ensures session.processes[0].signals == [QuitSignal] && session.processes[1].signals == [QuitSignal]
  {
    session := ScenarioLaunch();
    IsQuitIff("x");
    session.OnData("x");
    IsQuitIff("Q");
    session.OnData("Q");
  }
}
