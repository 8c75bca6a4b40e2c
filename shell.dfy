/**
 * The shell's mutable session and the per-line loop of `main` (dash.c:48-53,
 * 98-311). The search path is the source's fixed array `searchpath[10]` with
 * its count `num_paths`; the working directory, an attribute of the process
 * in the source, is a field. Each method does in place what `Engine` and
 * `Builtins` specify, and is proved to.
 */
module Shell {
  import opened Text
  import opened Parser
  import opened Builtins
  import opened Engine

  class SessionState {
    var searchpath: array<string>
    var numPaths: nat
    var cwd: string

    ghost predicate Valid()
      reads this, searchpath
    {
      searchpath.Length == MaxPaths && 1 <= numPaths <= MaxPaths && searchpath[0] == ""
    }

    /** The search path in use: `searchpath[0..num_paths)`. */
    ghost function Paths(): (p: seq<string>)
      reads this, searchpath
      requires Valid()
      ensures ValidPaths(p)
    {
      searchpath[..numPaths]
    }

    ghost function Current(): Session
      reads this, searchpath
      requires Valid()
    {
      Session(Paths(), cwd)
    }

    /** Start-up: the search path holds only the empty entry (dash.c:49-53). */
    constructor (startDir: string)
      ensures Valid() && fresh(searchpath)
      ensures Paths() == InitialPaths && cwd == startDir
    {
      searchpath := new string[MaxPaths](_ => "");
      numPaths := |InitialPaths|;
      cwd := startDir;
      new;
      assert searchpath[..numPaths] == [searchpath[0]];
    }

    /** `searchpath[num_paths++] = entry` (dash.c:208-209). */
    method AppendPath(entry: string)
      requires Valid() && numPaths < MaxPaths
      modifies this, searchpath
      ensures Valid() && searchpath == old(searchpath) && cwd == old(cwd)
      ensures Paths() == old(Paths()) + [entry]
    {
      searchpath[numPaths] := entry;
      numPaths := numPaths + 1;
      assert Paths() == old(Paths()) + [entry];
    }

    /**
     * `path` with at least one argument (dash.c:199-211): `-o` first resets
     * the count, then the loop over `args` appends every other non-`-o`
     * argument while there is room.
     */
    method RunPath(args: seq<string>)
      requires Valid() && |args| >= 2
      modifies this, searchpath
      ensures Valid() && searchpath == old(searchpath) && cwd == old(cwd)
      ensures Paths() == PathUpdate(old(Paths()), args)
    {
      ghost var top := if |args| < MaxArgs then |args| else MaxArgs;
      if args[1] == "-o" {
        numPaths := |InitialPaths|;
      }
      assert Paths() == (if args[1] == "-o" then old(Paths())[..1] else old(Paths()));
      var i := 0;
      while i < MaxArgs
        invariant Valid() && searchpath == old(searchpath) && cwd == old(cwd)
        invariant i <= top || i == 0
        invariant AddPaths(Paths(), args[(if i == 0 then 1 else i)..top]) == PathUpdate(old(Paths()), args)
        decreases MaxArgs - i
      {
        if numPaths >= MaxPaths {
          break;
        }
        if i >= |args| {
          break;
        }
        if i == 0 || args[i] == "-o" {
          i := i + 1;
          continue;
        }
        assert args[i..top][0] == args[i] && args[i..top][1..] == args[i + 1..top];
        AppendPath(args[i]);
        i := i + 1;
      }
      assert AddPaths(Paths(), args[(if i == 0 then 1 else i)..top]) == Paths();
    }

    /**
     * The search for an external command (dash.c:263-277): the candidates
     * `searchpath[i] + "/" + command` (no `/` after an empty entry) are
     * tried in index order and the first executable one wins.
     */
    method Resolve(command: string, executable: (string, string) -> bool) returns (path: Option<string>)
      requires Valid()
      ensures path == FirstExecutable(Paths(), command, cwd, executable)
    {
      var i := 0;
      while i < numPaths
        invariant i <= numPaths
        invariant FirstExecutable(Paths()[i..], command, cwd, executable) == FirstExecutable(Paths(), command, cwd, executable)
      {
        assert Paths()[i..][0] == searchpath[i] && Paths()[i..][1..] == Paths()[i + 1..];
        var candidate := searchpath[i];
        if searchpath[i] != "" {
          candidate := candidate + "/";
        }
        candidate := candidate + command;
        assert candidate == Candidate(searchpath[i], command);
        if executable(cwd, candidate) {
          return Some(candidate);
        }
        i := i + 1;
      }
      return None;
    }

    static lemma RunGroupsDone(s: Session, groups: seq<string>, counted: nat,
                               executable: (string, string) -> bool,
                               changeDir: (string, string) -> Option<string>)
      requires ValidPaths(s.paths) && (groups == [] || counted >= MaxGroups)
      ensures RunGroups(s, groups, counted, executable, changeDir).trace == []
      ensures RunGroups(s, groups, counted, executable, changeDir).session == s
    {
    }

    static lemma RunGroupsStep(s: Session, group: string, rest: seq<string>, counted: nat,
                               executable: (string, string) -> bool,
                               changeDir: (string, string) -> Option<string>)
      requires ValidPaths(s.paths) && counted < MaxGroups
      ensures var g := RunGroup(s, group, executable, changeDir);
        var r := RunGroups(s, [group] + rest, counted, executable, changeDir);
        if g.flow.Next? then
          var tail := RunGroups(g.session, rest, if g.flow.counted then counted + 1 else counted, executable, changeDir);
          r.trace == g.events + tail.trace && r.session == tail.session
        else r.trace == g.events && r.session == g.session
    {
      assert ([group] + rest)[0] == group;
      assert ([group] + rest)[1..] == rest;
    }

    /** One `&`-group: the body of the group loop (dash.c:110-310). */
    method RunGroupHere(group: string, executable: (string, string) -> bool,
                        changeDir: (string, string) -> Option<string>)
      returns (events: seq<Event>, flow: Flow)
      requires Valid()
      modifies this, searchpath
      ensures Valid() && searchpath == old(searchpath)
      ensures var g := RunGroup(old(Current()), group, executable, changeDir);
        events == g.events && flow == g.flow && Current() == g.session
    {
      ParseTextWellFormed(group);
      var parsed := ParseGroup(group);
      if parsed.Failed? {
        return [Error(ParseError)], Next(false);
      }
      var st := parsed.st;
      if st.command.None? {
        return [Unspecified], StopLine;
      }
      var command := st.command.value;
      if command == "path" {
        if |st.args| < 2 {
          return [Error(PathWithoutArgs), AbortLine], StopLine;
        }
        RunPath(st.args);
        return [], Next(true);
      }
      if command == "exit" {
        return [Terminate], Exit;
      }
      if command == "cd" {
        var dir := CdTarget(st.args);
        if dir.None? {
          return [Error(CdArity)], Next(false);
        }
        match changeDir(cwd, dir.value)
        case Some(newDir) =>
          cwd := newDir;
          return [Chdir(dir.value)], Next(true);
        case None =>
          return [Error(ChdirFailed)], Next(true);
      }
      var path := Resolve(command, executable);
      if path.None? {
        return [Error(NotFound)], Next(false);
      }
      return [Spawn(path.value, Argv(path.value, st), RedirectOf(st))], Next(true);
    }

    /**
     * One pass of the group loop: runs `group`, then says how the rest of the
     * line, `rest`, is to go on, in the terms of `Engine.RunGroups`.
     */
    method RunOneGroup(group: string, rest: string, counted: nat,
                       executable: (string, string) -> bool,
                       changeDir: (string, string) -> Option<string>)
      returns (events: seq<Event>, flow: Flow, counted': nat)
      requires Valid() && counted < MaxGroups
      modifies this, searchpath
      ensures Valid() && searchpath == old(searchpath)
      ensures var whole := RunGroups(old(Current()), [group] + Tokens(rest, Ampersand), counted, executable, changeDir);
        if flow.Next? then
          var tail := RunGroups(Current(), Tokens(rest, Ampersand), counted', executable, changeDir);
          events + tail.trace == whole.trace && tail.session == whole.session
        else events == whole.trace && Current() == whole.session
    {
      RunGroupsStep(Current(), group, Tokens(rest, Ampersand), counted, executable, changeDir);
      events, flow := RunGroupHere(group, executable, changeDir);
      counted' := if flow.Next? && flow.counted then counted + 1 else counted;
    }

    /**
     * What is left of a line: running the groups of `rest`, with `counted`
     * groups counted so far, from the current session completes `trace` to
     * the trace `goal` of the whole line and ends in its session.
     */
    ghost predicate Owes(trace: seq<Event>, rest: string, counted: nat, goal: LineResult,
                         executable: (string, string) -> bool,
                         changeDir: (string, string) -> Option<string>)
      reads this, searchpath
    {
      Valid() &&
      var tail := RunGroups(Current(), Tokens(rest, Ampersand), counted, executable, changeDir);
      trace + tail.trace == goal.trace && tail.session == goal.session
    }

    /**
     * One pass of the group loop of dash.c:109-310: take the next `&`-group
     * with `strtok_r` unless none is left or ten have been counted, and run it.
     */
    method NextGroup(trace: seq<Event>, rest: string, counted: nat, ghost goal: LineResult,
                     executable: (string, string) -> bool,
                     changeDir: (string, string) -> Option<string>)
      returns (trace': seq<Event>, rest': string, counted': nat, done: bool)
      requires Owes(trace, rest, counted, goal, executable, changeDir)
      modifies this, searchpath
      ensures Valid() && searchpath == old(searchpath)
      ensures done ==> trace' == goal.trace && Current() == goal.session
      ensures !done ==> Owes(trace', rest', counted', goal, executable, changeDir) && |rest'| < |rest|
    {
      var next := NextToken(rest, Ampersand);
      TokensStep(rest, Ampersand);
      if next.None? || counted >= MaxGroups {
        RunGroupsDone(Current(), Tokens(rest, Ampersand), counted, executable, changeDir);
        assert trace + [] == trace;
        return trace, rest, counted, true;
      }
      rest' := next.value.1;
      var events, flow;
      events, flow, counted' := RunOneGroup(next.value.0, rest', counted, executable, changeDir);
      trace' := trace + events;
      done := !flow.Next?;
      if !done {
        ghost var tail := RunGroups(Current(), Tokens(rest', Ampersand), counted', executable, changeDir);
        assert trace' + tail.trace == trace + (events + tail.trace);
      }
    }

    /**
     * One input line (dash.c:99-311): strip the newline, then take the
     * `&`-groups one by one with `strtok_r` while fewer than ten have been
     * counted; `path` without arguments stops the line and `exit` ends the
     * shell.
     */
    method RunLine(line: string, executable: (string, string) -> bool,
                   changeDir: (string, string) -> Option<string>)
      returns (trace: seq<Event>)
      requires Valid()
      modifies this, searchpath
      ensures Valid() && searchpath == old(searchpath)
      ensures var r := Engine.RunLine(old(Current()), line, executable, changeDir);
        trace == r.trace && Current() == r.session
    {
      ghost var goal := Engine.RunLine(Current(), line, executable, changeDir);
      var rest := StripNewline(line);
      var counted: nat := 0;
      trace := [];
      assert [] + goal.trace == goal.trace;
      while true
        invariant searchpath == old(searchpath)
        invariant Owes(trace, rest, counted, goal, executable, changeDir)
        decreases |rest|
      {
        var done;
        trace, rest, counted, done := NextGroup(trace, rest, counted, goal, executable, changeDir);
        if done {
          return;
        }
      }
    }
  }
}
