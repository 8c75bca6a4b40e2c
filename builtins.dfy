/**
 * The specifications behind the built-ins `path` and `cd` (dash.c:188-241) and
 * behind the search for an external command's executable (dash.c:262-284).
 * The shell runs them in place on its session state (see `Shell`); here they
 * are functions of the values involved, with the properties the shell relies on.
 */
module Builtins {
  import opened Text
  import Parser

  /** Capacity of the source's `searchpath` array. */
  const MaxPaths: nat := 10

  /** The search path at start-up: one empty entry, meaning "as typed". */
  const InitialPaths: seq<string> := [""]

  /** What every search path the shell ever holds satisfies. */
  ghost predicate ValidPaths(paths: seq<string>)
  {
    1 <= |paths| <= MaxPaths && paths[0] == ""
  }

  // ---------------------------------------------------------------------
  // path

  /**
   * The copying loop of dash.c:202-211, one argument at a time: stop once the
   * search path is full, skip `-o`, append anything else.
   */
  function AddPaths(paths: seq<string>, args: seq<string>): seq<string>
    decreases |args|
  {
    if args == [] || |paths| >= MaxPaths then paths
    else if args[0] == "-o" then AddPaths(paths, args[1..])
    else AddPaths(paths + [args[0]], args[1..])
  }

  /**
   * The effect of `path a1 ... an` (n >= 1) on the search path: `-o` first
   * resets it to its initial entry, then the arguments among the first ten
   * slots of `args` are copied in.
   */
  function PathUpdate(paths: seq<string>, args: seq<string>): seq<string>
    requires |paths| >= 1 && |args| >= 2
  {
    var base := if args[1] == "-o" then paths[..|InitialPaths|] else paths;
    AddPaths(base, args[1..if |args| < Parser.MaxArgs then |args| else Parser.MaxArgs])
  }

  /** The arguments with every `-o` removed. */
  function DropFlags(args: seq<string>): (r: seq<string>)
    ensures "-o" !in r
    ensures |r| <= |args|
  {
    if args == [] then []
    else if args[0] == "-o" then DropFlags(args[1..])
    else [args[0]] + DropFlags(args[1..])
  }

  /** How many more entries the search path has room for. */
  function Room(paths: seq<string>): nat
  {
    if |paths| >= MaxPaths then 0 else MaxPaths - |paths|
  }

  /** The first `n` elements of `xs`, or all of them when there are fewer. */
  function Take(xs: seq<string>, n: nat): (r: seq<string>)
  {
    xs[..if |xs| < n then |xs| else n]
  }

  lemma TakeCons(x: string, xs: seq<string>, n: nat)
    requires n >= 1
    ensures Take([x] + xs, n) == [x] + Take(xs, n - 1)
  {
    assert ([x] + xs)[1..] == xs;
  }

  /**
   * Closed form of the copying loop: the non-`-o` arguments are appended in
   * order until the search path holds `MaxPaths` entries; the rest are dropped.
   */
  lemma {:induction false} AddPathsAppendsInOrder(paths: seq<string>, args: seq<string>)
    ensures AddPaths(paths, args) == paths + Take(DropFlags(args), Room(paths))
    decreases |args|
  {
    if args == [] || |paths| >= MaxPaths {
      assert paths + [] == paths;
    } else if args[0] == "-o" {
      AddPathsAppendsInOrder(paths, args[1..]);
    } else {
      AddPathsAppendsInOrder(paths + [args[0]], args[1..]);
      assert DropFlags(args) == [args[0]] + DropFlags(args[1..]);
      TakeAfterAppend(paths, args[0], DropFlags(args[1..]));
    }
  }

  /** Appending one entry and then taking one fewer is taking one more. */
  lemma TakeAfterAppend(paths: seq<string>, x: string, add: seq<string>)
    requires |paths| < MaxPaths
    ensures (paths + [x]) + Take(add, Room(paths + [x])) == paths + Take([x] + add, Room(paths))
  {
    assert Room(paths + [x]) == Room(paths) - 1;
    TakeCons(x, add, Room(paths));
    assert (paths + [x]) + Take(add, Room(paths) - 1) == paths + ([x] + Take(add, Room(paths) - 1));
  }

  /**
   * `path` keeps the search path valid: never more than ten entries, and the
   * empty entry stays first, whether or not `-o` reset it.
   */
  lemma PathUpdateValid(paths: seq<string>, args: seq<string>)
    requires ValidPaths(paths) && |args| >= 2
    ensures ValidPaths(PathUpdate(paths, args))
  {
    var base := if args[1] == "-o" then paths[..1] else paths;
    AddPathsAppendsInOrder(base, args[1..if |args| < Parser.MaxArgs then |args| else Parser.MaxArgs]);
  }

  /**
   * `path -o a b ...` discards every entry but the initial empty one and then
   * appends `a b ...`, in order, minus any `-o`, up to the capacity.
   */
  lemma PathResetKeepsOnlyInitial(paths: seq<string>, args: seq<string>)
    requires ValidPaths(paths) && |args| >= 2 && args[1] == "-o"
    ensures var add := DropFlags(args[2..if |args| < Parser.MaxArgs then |args| else Parser.MaxArgs]);
      PathUpdate(paths, args) == [""] + add[..if |add| < MaxPaths - 1 then |add| else MaxPaths - 1]
  {
    var top := if |args| < Parser.MaxArgs then |args| else Parser.MaxArgs;
    AddPathsAppendsInOrder(paths[..1], args[1..top]);
    assert DropFlags(args[1..top]) == DropFlags(args[2..top]) by {
      assert args[1..top][1..] == args[2..top];
    }
  }

  /** Without `-o` first, the old entries stay and the new ones follow them in order. */
  lemma PathAppendKeepsOld(paths: seq<string>, args: seq<string>)
    requires ValidPaths(paths) && |args| >= 2 && args[1] != "-o"
    ensures var add := DropFlags(args[1..if |args| < Parser.MaxArgs then |args| else Parser.MaxArgs]);
      var room := MaxPaths - |paths|;
      PathUpdate(paths, args) == paths + add[..if |add| < room then |add| else room]
  {
    AddPathsAppendsInOrder(paths, args[1..if |args| < Parser.MaxArgs then |args| else Parser.MaxArgs]);
  }

  /** The flag `-o` never ends up in the search path. */
  lemma PathNeverHoldsFlag(paths: seq<string>, args: seq<string>)
    requires ValidPaths(paths) && |args| >= 2
    ensures "-o" !in paths ==> "-o" !in PathUpdate(paths, args)
  {
    if "-o" in paths {
      return;
    }
    var base := if args[1] == "-o" then paths[..1] else paths;
    var add := DropFlags(args[1..if |args| < Parser.MaxArgs then |args| else Parser.MaxArgs]);
    AddPathsAppendsInOrder(base, args[1..if |args| < Parser.MaxArgs then |args| else Parser.MaxArgs]);
    assert "-o" !in base;
    var room := MaxPaths - |base|;
    var taken := add[..if |add| < room then |add| else room];
    assert forall j :: 0 <= j < |taken| ==> taken[j] == add[j];
    assert "-o" !in taken;
  }

  // ---------------------------------------------------------------------
  // cd

  /**
   * The argument check of `cd` (dash.c:221-234): the directory when there is
   * exactly one argument after the command name, nothing otherwise. The
   * source counts with a loop that stops at the first null slot or at the
   * third slot.
   */
  method CdTarget(args: seq<string>) returns (dir: Option<string>)
    ensures dir.Some? <==> |args| == 2
    ensures dir.Some? ==> dir.value == args[1]
  {
    if |args| < 2 {
      return None;
    }
    var i := 0;
    while i < Parser.MaxArgs
      invariant i <= 2 && i <= |args|
    {
      if i >= |args| {
        break;
      }
      if i > 1 {
        break;
      }
      i := i + 1;
    }
    if i > 1 && i < |args| {
      return None;
    }
    return Some(args[1]);
  }

  // ---------------------------------------------------------------------
  // Resolution of an external command

  /** The path tried for `command` under search-path entry `entry`: no `/` after an empty entry. */
  function Candidate(entry: string, command: string): string
  {
    if entry == "" then command else entry + "/" + command
  }

  /**
   * The first candidate, in search-path order, that the `access(..., X_OK)`
   * oracle accepts from working directory `cwd`.
   */
  function FirstExecutable(paths: seq<string>, command: string, cwd: string,
                           executable: (string, string) -> bool): Option<string>
  {
    if paths == [] then None
    else if executable(cwd, Candidate(paths[0], command)) then Some(Candidate(paths[0], command))
    else FirstExecutable(paths[1..], command, cwd, executable)
  }

  /** `k` is the first search-path index whose candidate is executable. */
  ghost predicate FirstExecutableAt(paths: seq<string>, k: nat, command: string, cwd: string,
                                    executable: (string, string) -> bool)
  {
    k < |paths| && executable(cwd, Candidate(paths[k], command))
    && forall j :: 0 <= j < k ==> !executable(cwd, Candidate(paths[j], command))
  }

  /**
   * Resolution finds the executable candidate with the smallest search-path
   * index, and fails only when no candidate is executable.
   */
  lemma {:induction false} FirstExecutableIsFirst(paths: seq<string>, command: string, cwd: string,
                                                  executable: (string, string) -> bool)
    ensures FirstExecutable(paths, command, cwd, executable).None? <==>
      forall k :: 0 <= k < |paths| ==> !executable(cwd, Candidate(paths[k], command))
    ensures FirstExecutable(paths, command, cwd, executable).Some? ==>
      exists k: nat :: FirstExecutableAt(paths, k, command, cwd, executable)
        && FirstExecutable(paths, command, cwd, executable).value == Candidate(paths[k], command)
  {
    if paths == [] {
    } else if executable(cwd, Candidate(paths[0], command)) {
      assert FirstExecutableAt(paths, 0, command, cwd, executable);
    } else {
      var tail := paths[1..];
      assert FirstExecutable(paths, command, cwd, executable) == FirstExecutable(tail, command, cwd, executable);
      FirstExecutableIsFirst(tail, command, cwd, executable);
      assert forall k :: 0 <= k < |tail| ==> tail[k] == paths[k + 1];
      if FirstExecutable(tail, command, cwd, executable).Some? {
        var k: nat :| FirstExecutableAt(tail, k, command, cwd, executable)
          && FirstExecutable(tail, command, cwd, executable).value == Candidate(tail[k], command);
        assert FirstExecutableAt(paths, k + 1, command, cwd, executable) by {
          forall j | 0 <= j < k + 1
            ensures !executable(cwd, Candidate(paths[j], command))
          {
            if j > 0 {
              assert paths[j] == tail[j - 1];
            }
          }
        }
      } else {
        assert forall k :: 0 <= k < |paths| ==> !executable(cwd, Candidate(paths[k], command)) by {
          forall k | 0 <= k < |paths|
            ensures !executable(cwd, Candidate(paths[k], command))
          {
            if k > 0 {
              assert paths[k] == tail[k - 1];
            }
          }
        }
      }
    }
  }
}
