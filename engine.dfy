/**
 * What the shell does with one input line (dash.c:98-311), as a function from
 * the session before the line to the trace of outcomes it produces and the
 * session after it. Each `&`-group is parsed, then dispatched to `path`,
 * `exit`, `cd` or an external command; a group that ends in `continue` in the
 * source is not counted against the limit of ten groups per line.
 *
 * Writing the error message, forking, redirecting descriptors and waiting are
 * outcomes in the trace, not effects.
 */
module Engine {
  import opened Text
  import opened Parser
  import opened Builtins

  /** The source's `par_i < 10`: at most this many counted groups per line. */
  const MaxGroups: nat := 10

  /** The delimiter between parallel groups. */
  const Ampersand: string := "&"

  /** Why the generic error message was written. */
  datatype ErrorKind =
    | ParseError       // malformed or duplicate redirection, extra tokens
    | PathWithoutArgs  // `path` with nothing after it
    | CdArity          // `cd` with no argument or more than one
    | ChdirFailed      // `chdir` refused the directory
    | NotFound         // no executable candidate on the search path

  /** One observable outcome of a line. */
  datatype Event =
    | Error(kind: ErrorKind)
    | Chdir(dir: string)
    | Spawn(path: string, argv: seq<string>, redirect: Redirect)
    | AbortLine        // `path` without arguments: the rest of the line is dropped
    | Terminate        // `exit`: the whole shell ends with status 0
    | Unspecified      // a group with no token reads the uninitialised `command`

  /** The session state the engine reads and changes: search path and working directory. */
  datatype Session = Session(paths: seq<string>, cwd: string)

  /** How the group loop goes on after a group: next group (counted or not), stop the line, or exit. */
  datatype Flow = Next(counted: bool) | StopLine | Exit

  datatype GroupResult = GroupResult(events: seq<Event>, session: Session, flow: Flow)

  datatype LineResult = LineResult(trace: seq<Event>, session: Session, counted: nat)

  /** Number of launched commands in a trace. */
  function Spawns(trace: seq<Event>): nat
  {
    if trace == [] then 0 else (if trace[0].Spawn? then 1 else 0) + Spawns(trace[1..])
  }

  lemma {:induction false} SpawnsAppend(a: seq<Event>, b: seq<Event>)
    ensures Spawns(a + b) == Spawns(a) + Spawns(b)
    decreases |a|
  {
    if a == [] {
      assert a + b == b;
    } else {
      assert (a + b)[1..] == a[1..] + b;
      SpawnsAppend(a[1..], b);
    }
  }

  /**
   * One `&`-group (dash.c:110-310): parse, then `path`, `exit`, `cd` or an
   * external command, in that order of tests.
   */
  function RunGroup(s: Session, group: string, executable: (string, string) -> bool,
                    changeDir: (string, string) -> Option<string>): (r: GroupResult)
    requires ValidPaths(s.paths)
    ensures ValidPaths(r.session.paths)
    // a skipped group changes nothing and reports exactly one error
    ensures r.flow == Next(false) ==> r.session == s && |r.events| == 1 && r.events[0].Error?
    // only `path` changes the search path, only a successful `cd` the directory
    ensures r.session.cwd != s.cwd ==> r.flow == Next(true) && exists d :: r.events == [Chdir(d)]
    ensures "-o" !in s.paths ==> "-o" !in r.session.paths
    ensures Terminate in r.events <==> r.flow == Exit
    ensures r.flow == Exit ==> r.events == [Terminate]
    ensures AbortLine in r.events ==> r.events == [Error(PathWithoutArgs), AbortLine] && r.flow == StopLine
    // the group ends the shell exactly when its command is `exit`
    ensures r.flow == Exit <==> ParseText(group).Parsed? && ParseText(group).st.command == Some("exit")
    // `path` with no argument reports its error and abandons the line
    ensures (ParseText(group).Parsed? && ParseText(group).st.command == Some("path")
             && |ParseText(group).st.args| < 2) ==> r.events == [Error(PathWithoutArgs), AbortLine]
    // at most one command is launched, and only by a counted group
    ensures Spawns(r.events) <= (if r.flow == Next(true) then 1 else 0)
  {
    ParseTextWellFormed(group);
    match ParseText(group)
    case Failed => GroupResult([Error(ParseError)], s, Next(false))
    case Parsed(st) =>
      if st.command.None? then GroupResult([Unspecified], s, StopLine)
      else
        var command := st.command.value;
        if command == "path" then
          if |st.args| < 2 then GroupResult([Error(PathWithoutArgs), AbortLine], s, StopLine)
          else
            PathUpdateValid(s.paths, st.args);
            PathNeverHoldsFlag(s.paths, st.args);
            GroupResult([], s.(paths := PathUpdate(s.paths, st.args)), Next(true))
        else if command == "exit" then GroupResult([Terminate], s, Exit)
        else if command == "cd" then
          if |st.args| != 2 then GroupResult([Error(CdArity)], s, Next(false))
          else match changeDir(s.cwd, st.args[1])
            case Some(dir) => GroupResult([Chdir(st.args[1])], s.(cwd := dir), Next(true))
            case None => GroupResult([Error(ChdirFailed)], s, Next(true))
        else match FirstExecutable(s.paths, command, s.cwd, executable)
          case None => GroupResult([Error(NotFound)], s, Next(false))
          case Some(path) => GroupResult([Spawn(path, Argv(path, st), RedirectOf(st))], s, Next(true))
  }

  /** The group loop (dash.c:109-311) over the remaining groups, `counted` of them already counted. */
  function RunGroups(s: Session, groups: seq<string>, counted: nat, executable: (string, string) -> bool,
                     changeDir: (string, string) -> Option<string>): (r: LineResult)
    requires ValidPaths(s.paths)
    ensures ValidPaths(r.session.paths)
    decreases |groups|
  {
    if groups == [] || counted >= MaxGroups then LineResult([], s, counted)
    else
      var g := RunGroup(s, groups[0], executable, changeDir);
      match g.flow
      case Next(c) =>
        var rest := RunGroups(g.session, groups[1..], if c then counted + 1 else counted, executable, changeDir);
        LineResult(g.events + rest.trace, rest.session, rest.counted)
      case StopLine => LineResult(g.events, g.session, counted)
      case Exit => LineResult(g.events, g.session, counted)
  }

  /** One input line: strip the newline, split on `&`, run the groups. */
  function RunLine(s: Session, line: string, executable: (string, string) -> bool,
                   changeDir: (string, string) -> Option<string>): LineResult
    requires ValidPaths(s.paths)
  {
    RunGroups(s, Tokens(StripNewline(line), Ampersand), 0, executable, changeDir)
  }

  // ---------------------------------------------------------------------
  // Properties of a line

  /**
   * At most ten groups of a line are counted, so at most ten commands are
   * launched per line, whatever the number of `&`-groups.
   */
  lemma {:induction false} AtMostTenLaunches(s: Session, groups: seq<string>, counted: nat,
                                             executable: (string, string) -> bool,
                                             changeDir: (string, string) -> Option<string>)
    requires ValidPaths(s.paths) && counted <= MaxGroups
    ensures RunGroups(s, groups, counted, executable, changeDir).counted <= MaxGroups
    ensures Spawns(RunGroups(s, groups, counted, executable, changeDir).trace) <= MaxGroups - counted
    decreases |groups|
  {
    if groups != [] && counted < MaxGroups {
      var g := RunGroup(s, groups[0], executable, changeDir);
      if g.flow.Next? {
        var c := if g.flow.counted then counted + 1 else counted;
        AtMostTenLaunches(g.session, groups[1..], c, executable, changeDir);
        SpawnsAppend(g.events, RunGroups(g.session, groups[1..], c, executable, changeDir).trace);
      }
    }
  }

  lemma AtMostTenLaunchesPerLine(s: Session, line: string, executable: (string, string) -> bool,
                                 changeDir: (string, string) -> Option<string>)
    requires ValidPaths(s.paths)
    ensures Spawns(RunLine(s, line, executable, changeDir).trace) <= MaxGroups
  {
    AtMostTenLaunches(s, Tokens(StripNewline(line), Ampersand), 0, executable, changeDir);
  }

  /** `Terminate` occurs in `trace` at most as its last element. */
  ghost predicate NoTerminateBeforeLast(trace: seq<Event>)
  {
    forall j :: 0 <= j < |trace| - 1 ==> trace[j] != Terminate
  }

  lemma TerminateOnlyLast(a: seq<Event>, b: seq<Event>)
    requires Terminate !in a
    requires NoTerminateBeforeLast(b)
    ensures NoTerminateBeforeLast(a + b)
  {
    forall j | 0 <= j < |a + b| - 1 ensures (a + b)[j] != Terminate {
      if j < |a| {
        assert (a + b)[j] == a[j];
      } else {
        assert (a + b)[j] == b[j - |a|];
      }
    }
  }

  /** `exit` ends the line: `Terminate` is the last outcome of a trace, if present. */
  lemma {:induction false} TerminateIsLast(s: Session, groups: seq<string>, counted: nat,
                                           executable: (string, string) -> bool,
                                           changeDir: (string, string) -> Option<string>)
    requires ValidPaths(s.paths)
    ensures NoTerminateBeforeLast(RunGroups(s, groups, counted, executable, changeDir).trace)
    decreases |groups|
  {
    if groups != [] && counted < MaxGroups {
      var g := RunGroup(s, groups[0], executable, changeDir);
      if g.flow.Next? {
        var c := if g.flow.counted then counted + 1 else counted;
        var rest := RunGroups(g.session, groups[1..], c, executable, changeDir);
        TerminateIsLast(g.session, groups[1..], c, executable, changeDir);
        TerminateOnlyLast(g.events, rest.trace);
      } else {
        assert forall j :: 0 <= j < |g.events| ==> g.events[j] in g.events;
      }
    }
  }

  /**
   * `path` with no argument abandons the rest of the line: whatever groups
   * follow, the line's outcome is that error and nothing else.
   */
  lemma PathWithoutArgsAbandonsLine(s: Session, group: string, rest: seq<string>, counted: nat,
                                    executable: (string, string) -> bool,
                                    changeDir: (string, string) -> Option<string>)
    requires ValidPaths(s.paths) && counted < MaxGroups
    requires ParseText(group).Parsed? && ParseText(group).st.command == Some("path")
    requires |ParseText(group).st.args| < 2
    ensures RunGroups(s, [group] + rest, counted, executable, changeDir)
         == LineResult([Error(PathWithoutArgs), AbortLine], s, counted)
  {
    assert ([group] + rest)[0] == group;
  }

  /**
   * A `cd` with the wrong number of arguments skips only its own group: the
   * session and the count are untouched and the later groups still run.
   */
  lemma CdArityErrorSkipsOnlyItsGroup(s: Session, group: string, rest: seq<string>, counted: nat,
                                      executable: (string, string) -> bool,
                                      changeDir: (string, string) -> Option<string>)
    requires ValidPaths(s.paths) && counted < MaxGroups
    requires ParseText(group).Parsed? && ParseText(group).st.command == Some("cd")
    requires |ParseText(group).st.args| != 2
    ensures var after := RunGroups(s, rest, counted, executable, changeDir);
      RunGroups(s, [group] + rest, counted, executable, changeDir)
        == LineResult([Error(CdArity)] + after.trace, after.session, after.counted)
  {
    assert ([group] + rest)[0] == group;
    assert ([group] + rest)[1..] == rest;
  }

  /** `exit` ends the line and the shell: nothing after it runs and the session is as it was. */
  lemma ExitTerminatesLine(s: Session, group: string, rest: seq<string>, counted: nat,
                           executable: (string, string) -> bool,
                           changeDir: (string, string) -> Option<string>)
    requires ValidPaths(s.paths) && counted < MaxGroups
    requires ParseText(group).Parsed? && ParseText(group).st.command == Some("exit")
    ensures RunGroups(s, [group] + rest, counted, executable, changeDir) == LineResult([Terminate], s, counted)
  {
    assert ([group] + rest)[0] == group;
  }

  /**
   * A `cd` with one argument whose `chdir` succeeds moves to the new
   * directory, reports it, and counts; the later groups run from there.
   */
  lemma CdSuccessChangesDirectory(s: Session, group: string, rest: seq<string>, counted: nat,
                                  executable: (string, string) -> bool,
                                  changeDir: (string, string) -> Option<string>)
    requires ValidPaths(s.paths) && counted < MaxGroups
    requires ParseText(group).Parsed? && ParseText(group).st.command == Some("cd")
    requires |ParseText(group).st.args| == 2
    requires changeDir(s.cwd, ParseText(group).st.args[1]).Some?
    ensures var dir := ParseText(group).st.args[1];
      var after := RunGroups(s.(cwd := changeDir(s.cwd, dir).value), rest, counted + 1, executable, changeDir);
      RunGroups(s, [group] + rest, counted, executable, changeDir)
        == LineResult([Chdir(dir)] + after.trace, after.session, after.counted)
  {
    assert ([group] + rest)[0] == group;
    assert ([group] + rest)[1..] == rest;
  }

  /**
   * A command that is not a built-in and has no executable candidate on the
   * search path reports one error and is skipped: it does not count, and the
   * later groups still run.
   */
  lemma NotFoundSkipsOnlyItsGroup(s: Session, group: string, rest: seq<string>, counted: nat,
                                  executable: (string, string) -> bool,
                                  changeDir: (string, string) -> Option<string>)
    requires ValidPaths(s.paths) && counted < MaxGroups
    requires ParseText(group).Parsed? && ParseText(group).st.command.Some?
    requires ParseText(group).st.command.value !in ["path", "exit", "cd"]
    requires FirstExecutable(s.paths, ParseText(group).st.command.value, s.cwd, executable).None?
    ensures var after := RunGroups(s, rest, counted, executable, changeDir);
      RunGroups(s, [group] + rest, counted, executable, changeDir)
        == LineResult([Error(NotFound)] + after.trace, after.session, after.counted)
  {
    assert ([group] + rest)[0] == group;
    assert ([group] + rest)[1..] == rest;
  }

  /**
   * A `cd` whose `chdir` fails reports an error but is not skipped: the
   * directory stays, and the group counts against the ten of the line.
   */
  lemma ChdirFailureStillCounts(s: Session, group: string, rest: seq<string>, counted: nat,
                                executable: (string, string) -> bool,
                                changeDir: (string, string) -> Option<string>)
    requires ValidPaths(s.paths) && counted < MaxGroups
    requires ParseText(group).Parsed? && ParseText(group).st.command == Some("cd")
    requires |ParseText(group).st.args| == 2
    requires changeDir(s.cwd, ParseText(group).st.args[1]).None?
    ensures var after := RunGroups(s, rest, counted + 1, executable, changeDir);
      RunGroups(s, [group] + rest, counted, executable, changeDir)
        == LineResult([Error(ChdirFailed)] + after.trace, after.session, after.counted)
  {
    assert ([group] + rest)[0] == group;
    assert ([group] + rest)[1..] == rest;
  }

  /**
   * A group that fails to parse reports one error and is skipped; it does
   * not use up one of the ten counted groups.
   */
  lemma ParseErrorSkipsOnlyItsGroup(s: Session, group: string, rest: seq<string>, counted: nat,
                                    executable: (string, string) -> bool,
                                    changeDir: (string, string) -> Option<string>)
    requires ValidPaths(s.paths) && counted < MaxGroups
    requires ParseText(group) == Failed
    ensures var after := RunGroups(s, rest, counted, executable, changeDir);
      RunGroups(s, [group] + rest, counted, executable, changeDir)
        == LineResult([Error(ParseError)] + after.trace, after.session, after.counted)
  {
    assert ([group] + rest)[0] == group;
    assert ([group] + rest)[1..] == rest;
  }

  /** Over a whole line the search path stays valid and never holds `-o`. */
  lemma {:induction false} SearchPathStaysClean(s: Session, groups: seq<string>, counted: nat,
                                                executable: (string, string) -> bool,
                                                changeDir: (string, string) -> Option<string>)
    requires ValidPaths(s.paths) && "-o" !in s.paths
    ensures "-o" !in RunGroups(s, groups, counted, executable, changeDir).session.paths
    decreases |groups|
  {
    if groups != [] && counted < MaxGroups {
      var g := RunGroup(s, groups[0], executable, changeDir);
      if g.flow.Next? {
        var c := if g.flow.counted then counted + 1 else counted;
        SearchPathStaysClean(g.session, groups[1..], c, executable, changeDir);
      }
    }
  }

  /**
   * A launched command is looked up by its name on the search path in index
   * order, and its argument vector starts with the path that was found.
   */
  lemma SpawnUsesFirstExecutable(s: Session, group: string, executable: (string, string) -> bool,
                                 changeDir: (string, string) -> Option<string>)
    requires ValidPaths(s.paths)
    requires RunGroup(s, group, executable, changeDir).events != []
    requires RunGroup(s, group, executable, changeDir).events[0].Spawn?
    ensures var e := RunGroup(s, group, executable, changeDir).events[0];
      && ParseText(group).Parsed?
      && ParseText(group).st.command.Some?
      && (exists k: nat :: FirstExecutableAt(s.paths, k, ParseText(group).st.command.value, s.cwd, executable)
            && e.path == Candidate(s.paths[k], ParseText(group).st.command.value))
      && e.argv[0] == e.path
  {
    ParseTextWellFormed(group);
    var st := ParseText(group).st;
    FirstExecutableIsFirst(s.paths, st.command.value, s.cwd, executable);
  }
}
