/**
 * The main function of run.js: attach one frida process to every process
 * the locator finds, or exit at once when there is none, and kill every
 * attached frida process when the user types q.
 */
module Supervisor {
  import opened Basics
  import opened JsString
  import opened Locator

  /** The two instrumentation scripts every frida process loads. */
  const ConfigScript: string := "config.js"
  const HookScript: string := "native-connect-hook.js"

  /** The signal sent to every frida process on quit. */
  const QuitSignal: string := "SIGKILL"

  // ---------------------------------------------------------------------
  // Launch plan

  /** The command-line arguments of the frida process attached to pid:
      "-p", the decimal text of pid, then the two scripts, each after "-l". */
  function FridaArgv(pid: int): (argv: seq<string>)
    ensures |argv| == 6
    ensures argv[0] == "-p" && argv[2] == "-l" && argv[4] == "-l"
    ensures argv[3] == ConfigScript && argv[5] == HookScript
    ensures argv[1] == NumberToString(pid)
  {
    ["-p", NumberToString(pid), "-l", ConfigScript, "-l", HookScript]
  }

  /** The "-p" argument reads back, with parseInt, as the identifier the
      frida process is attached to. */
  lemma {:induction false} FridaArgvTarget(pid: int)
    ensures ParseInt(FridaArgv(pid)[1]) == Some(pid)
  {
    ParseIntOfText(pid);
  }

  /** Different processes get different frida command lines. */
  lemma {:induction false} FridaArgvInjective(p: int, q: int)
    ensures FridaArgv(p) == FridaArgv(q) <==> p == q
  {
    if FridaArgv(p) == FridaArgv(q) {
      FridaArgvTarget(p);
      FridaArgvTarget(q);
      assert Some(p) == ParseInt(FridaArgv(q)[1]) == Some(q);
    }
  }

  /** What main does with the located identifiers before it waits for keys. */
  datatype Plan =
    | ExitEarly(status: int)
    | Attach(argvs: seq<seq<string>>)

  /** Exit with status 0 when nothing was found; otherwise one frida launch
      per identifier, in the order of the list. */
  function StartPlan(pids: seq<int>): (s: Plan)
    ensures s.ExitEarly? <==> pids == []
    ensures s.ExitEarly? ==> s.status == 0
    ensures s.Attach? ==> |s.argvs| == |pids|
  {
    if pids == [] then ExitEarly(0) else Attach(Map(FridaArgv, pids))
  }

  /** Launch k of the plan attaches to the k-th identifier: its "-p"
      argument reads back as exactly that identifier. */
  lemma {:induction false} StartPlanTargets(pids: seq<int>)
    requires pids != []
    ensures forall k :: 0 <= k < |pids| ==> StartPlan(pids).argvs[k] == FridaArgv(pids[k])
    ensures forall k :: 0 <= k < |pids| ==>
      |StartPlan(pids).argvs[k]| == 6 && StartPlan(pids).argvs[k][0] == "-p"
      && ParseInt(StartPlan(pids).argvs[k][1]) == Some(pids[k])
  {
    var argvs := StartPlan(pids).argvs;
    forall k | 0 <= k < |pids|
      ensures argvs[k] == FridaArgv(pids[k])
      ensures |argvs[k]| == 6 && argvs[k][0] == "-p" && ParseInt(argvs[k][1]) == Some(pids[k])
    {
      assert argvs[k] == FridaArgv(pids[k]);
      FridaArgvTarget(pids[k]);
    }
  }

  /** Two launches of one plan attach to the same process only when that
      process was listed twice. */
  lemma {:induction false} StartPlanDistinct(pids: seq<int>, i: int, j: int)
    requires pids != []
    requires 0 <= i < |pids| && 0 <= j < |pids|
    ensures StartPlan(pids).argvs[i] == StartPlan(pids).argvs[j] <==> pids[i] == pids[j]
  {
    var argvs := StartPlan(pids).argvs;
    assert argvs[i] == FridaArgv(pids[i]) && argvs[j] == FridaArgv(pids[j]);
    FridaArgvInjective(pids[i], pids[j]);
  }

  // ---------------------------------------------------------------------
  // Quit rule

  /** The key chunk that ends the session: "q" up to case. */
  predicate IsQuit(chunk: string): (b: bool)
    ensures b ==> |chunk| == 1
  {
    ToLowerCase(chunk) == "q"
  }

  /** Exactly the chunks "q" and "Q" quit; a longer chunk, even one that
      starts with q, does not. */
  lemma {:induction false} IsQuitIff(chunk: string)
    ensures IsQuit(chunk) <==> chunk == "q" || chunk == "Q"
  {
    var low := ToLowerCase(chunk);
    if |chunk| == 1 {
      assert low == [LowerChar(chunk[0])];
      if chunk[0] == 'Q' {
        assert LowerChar('Q') == 'q';
      }
      if LowerChar(chunk[0]) == 'q' && !IsUpper(chunk[0]) {
        assert chunk[0] == 'q';
      }
      assert chunk == [chunk[0]];
    }
  }

  // ---------------------------------------------------------------------
  // Frida processes and the session

  /** A launched frida process: the arguments it was started with, and the
      signals sent to it so far. */
  class FridaProcess {
    const argv: seq<string>
    var signals: seq<string>

    constructor Spawn(argv: seq<string>)
      ensures this.argv == argv && signals == []
    {
      this.argv := argv;
      signals := [];
    }

    /** proc.kill(signal). */
    method Kill(signal: string)
      modifies this
      ensures signals == old(signals) + [signal]
    {
      signals := signals + [signal];
    }
  }

  /** pids.map(attachFridaToProcess) once the arguments of each launch are
      known: one fresh frida process per command line, in order, none of
      them signalled yet. */
  method LaunchAll(argvs: seq<seq<string>>) returns (procs: seq<FridaProcess>)
    ensures |procs| == |argvs|
    ensures forall k :: 0 <= k < |argvs| ==>
      fresh(procs[k]) && procs[k].argv == argvs[k] && procs[k].signals == []
    ensures forall i, j :: 0 <= i < j < |procs| ==> procs[i] != procs[j]
  {
    procs := [];
    for k := 0 to |argvs|
      invariant |procs| == k
      invariant forall j :: 0 <= j < k ==>
        fresh(procs[j]) && procs[j].argv == argvs[j] && procs[j].signals == []
      invariant forall i, j :: 0 <= i < j < k ==> procs[i] != procs[j]
    {
      var p := new FridaProcess.Spawn(argvs[k]);
      procs := procs + [p];
    }
  }

  /** Whether main still waits for keys or has exited with a status. */
  datatype Phase = Listening | Exited(status: int)

  /** The state main leaves behind: the frida processes it launched and
      whether it still listens for keys. */
  class Session {
    var processes: seq<FridaProcess>
    var phase: Phase

    /** The launched processes are distinct objects. */
    ghost predicate Valid()
      reads this
    {
      forall i, j :: 0 <= i < j < |processes| ==> processes[i] != processes[j]
    }

    /** The session is where the plan leads: exited with the plan's status
        and nothing launched, or listening with one process per launch of
        the plan, started with that launch's arguments and not signalled. */
    ghost predicate Follows(plan: Plan)
      reads this, processes
    {
      match plan
      case ExitEarly(status) => phase == Exited(status) && processes == []
      case Attach(argvs) =>
        && phase == Listening && |processes| == |argvs|
        && forall k :: 0 <= k < |argvs| ==> processes[k].argv == argvs[k] && processes[k].signals == []
    }

    /** The part of main after the processes are located: follow
        StartPlan, that is exit with its status, or launch one fresh frida
        process per identifier, in order, and listen for keys. */
    constructor Start(pids: seq<int>)
      ensures Valid() && Follows(StartPlan(pids))
      ensures forall k :: 0 <= k < |processes| ==> fresh(processes[k])
    {
      match StartPlan(pids)
      case ExitEarly(status) =>
        processes := [];
        phase := Exited(status);
      case Attach(argvs) =>
        var procs := LaunchAll(argvs);
        processes := procs;
        phase := Listening;
    }

    /** main (run.js): locate the processes, then start the session on them. */
    static method Run(listing: Listing, filter: string) returns (session: Session)
      ensures fresh(session) && session.Valid()
      ensures session.Follows(StartPlan(if listing.Listed? then Pids(listing.stdout, filter) else []))
      ensures forall k :: 0 <= k < |session.processes| ==> fresh(session.processes[k])
    {
      var pids := GetPids(listing, filter);
      session := new Session.Start(pids);
    }

    /** The 'data' callback: on a quit chunk every launched process gets
        SIGKILL, none skipped, and main exits with status 0; any other
        chunk changes nothing. */
    method OnData(chunk: string)
      requires Valid() && phase == Listening
      modifies this, processes
      ensures Valid() && processes == old(processes)
      ensures IsQuit(chunk) ==> (phase == Exited(0)
        && forall k :: 0 <= k < |processes| ==> processes[k].signals == old(processes[k].signals) + [QuitSignal])
      ensures !IsQuit(chunk) ==> (phase == Listening
        && forall k :: 0 <= k < |processes| ==> processes[k].signals == old(processes[k].signals))
    {
      if IsQuit(chunk) {
        var procs := processes;
        for i := 0 to |procs|
          invariant processes == procs
          invariant forall k :: 0 <= k < i ==> procs[k].signals == old(procs[k].signals) + [QuitSignal]
          invariant forall k :: i <= k < |procs| ==> procs[k].signals == old(procs[k].signals)
        {
          procs[i].Kill(QuitSignal);
        }
        phase := Exited(0);
      }
    }
  }
}
