/**
 * The tokeniser and redirection parser that the shell runs on each `&`-group
 * (dash.c:112-186), and the argument vector and redirection target it hands
 * to an external command (dash.c:186, 254-260, 285).
 *
 * The parse is specified step by step by `Step` and `ParseFrom` over the
 * group's blank-separated tokens; `ParseGroup` is the loop of the source,
 * proved to compute exactly that.
 */
module Parser {
  import opened Text

  /** Capacity of the source's `args` array; a token is read only while fewer are stored. */
  const MaxArgs: nat := 10
  /** The delimiters `strtok_r` splits a group on. */
  const Blanks: string := " \t"

  /**
   * What the parse loop has built so far: the stored arguments `args[0..i)`,
   * the redirection index (`-1` in the source is `None` here) and the command
   * name (`None` while the source's `command` is still uninitialised).
   */
  datatype PState = PState(args: seq<string>, redir: Option<nat>, command: Option<string>)

  /** A group either fails to parse (`parse_error`) or yields a final parse state. */
  datatype Parsed = Failed | Parsed(st: PState)

  const Start: PState := PState([], None, None)

  /**
   * What `temp_token` holds after `strtok(temp_token, ">")`, for a token whose
   * only `>` sits at `k` and is not its last character. `strtok` ends its
   * token by overwriting the first delimiter after it with a terminator; a
   * leading `>` is skipped, not overwritten, so the copy then stays whole.
   * The value `strtok` returns is not used.
   */
  function LeftOfRedirect(tok: string, k: nat): (r: string)
    requires k < |tok| - 1
    ensures r != [] && r <= tok
    // the `>` is cut off together with everything after it ...
    ensures k > 0 ==> r + tok[k..] == tok
    // ... unless nothing precedes it
    ensures k == 0 ==> r == tok
  {
    if k == 0 then tok else tok[..k]
  }

  /** One iteration of the tokeniser loop on token `tok` (dash.c:122-177). */
  function Step(st: PState, tok: string): Parsed
  {
    var k := FirstIndexOf(tok, ">");
    // a `>` that is not the token's last character: an embedded redirection
    if k < |tok| - 1 then StepRedirectIn(st, tok, k)
    // a standalone `>`
    else if tok == ">" then
      if st.redir.None? then Parsed(PState(st.args, Some(|st.args|), CommandAfter(st, tok))) else Failed
    // an ordinary token, including one whose only `>` is its last character
    else if st.redir.Some? && |st.args| > st.redir.value + 1 then Failed
    else Parsed(PState(st.args + [tok], st.redir, CommandAfter(st, tok)))
  }

  /** `command` after reading `tok`: set from every token read while no argument is stored. */
  function CommandAfter(st: PState, tok: string): Option<string>
  {
    if |st.args| == 0 then Some(tok) else st.command
  }

  /** A token whose first `>`, at `k`, is not its last character (dash.c:129-162). */
  function StepRedirectIn(st: PState, tok: string, k: nat): Parsed
    requires k < |tok| - 1
  {
    // `strcmp(redir, redir_r) != 0`: a second `>` further on
    if '>' in tok[k + 1..] then Failed
    else if st.redir.Some? then Failed
    else
      var left := LeftOfRedirect(tok, k);
      Parsed(PState(st.args + [left, tok[k + 1..]], Some(|st.args| + 1), CommandAfter(st, left)))
  }

  /** The tokeniser loop from state `st` over the remaining tokens `toks`. */
  function ParseFrom(st: PState, toks: seq<string>): Parsed
    decreases |toks|
  {
    if toks == [] || |st.args| >= MaxArgs then Parsed(st)
    else match Step(st, toks[0])
      case Failed => Failed
      case Parsed(next) => ParseFrom(next, toks[1..])
  }

  function Parse(toks: seq<string>): Parsed
  {
    ParseFrom(Start, toks)
  }

  /** The parse of one `&`-group's text. */
  function ParseText(group: string): Parsed
  {
    Parse(Tokens(group, Blanks))
  }

  lemma StepEmbedded(st: PState, tok: string, k: nat, left: string, target: string)
    requires k == FirstIndexOf(tok, ">") && k < |tok| - 1
    requires left == LeftOfRedirect(tok, k) && target == tok[k + 1..] && '>' !in target
    requires st.redir.None?
    ensures Step(st, tok) == Parsed(PState(st.args + [left, target], Some(|st.args| + 1), CommandAfter(st, left)))
  {
    assert Step(st, tok) == StepRedirectIn(st, tok, k);
  }

  lemma ParseFromToken(st: PState, s: string, tok: string, rest: string)
    requires NextToken(s, Blanks) == Some((tok, rest))
    requires |st.args| < MaxArgs
    ensures ParseFrom(st, Tokens(s, Blanks)) == match Step(st, tok)
      case Failed => Failed
      case Parsed(after) => ParseFrom(after, Tokens(rest, Blanks))
  {
    assert Tokens(s, Blanks) == [tok] + Tokens(rest, Blanks);
  }

  /**
   * The body of the tokeniser loop for one token (dash.c:122-177): updates the
   * stored arguments, the redirection index and the command name in place,
   * or raises `parse_error`.
   */
  method ScanToken(args: seq<string>, redirectionIdx: int, command: Option<string>, token: string)
    returns (args': seq<string>, redirectionIdx': int, command': Option<string>, parseError: bool)
    requires -1 <= redirectionIdx
    ensures -1 <= redirectionIdx'
    ensures var before := PState(args, if redirectionIdx == -1 then None else Some(redirectionIdx as nat), command);
      Step(before, token) ==
        if parseError then Failed
        else Parsed(PState(args', if redirectionIdx' == -1 then None else Some(redirectionIdx' as nat), command'))
  {
    ghost var before := PState(args, if redirectionIdx == -1 then None else Some(redirectionIdx as nat), command);
    var i := |args|;
    args', redirectionIdx', command', parseError := args, redirectionIdx, command, false;
    if i == 0 {
      command' := Some(token);
    }
    var k := FirstIndexOf(token, ">");
    if k < |token| - 1 {
      if '>' in token[k + 1..] {
        parseError := true;
        return;
      }
      var left := LeftOfRedirect(token, k);
      args' := args' + [left];
      if i == 0 {
        command' := Some(left);
      }
      i := i + 1;
      if redirectionIdx' == -1 {
        redirectionIdx' := i;
      } else {
        parseError := true;
        return;
      }
      args' := args' + [token[k + 1..]];
      StepEmbedded(before, token, k, left, token[k + 1..]);
      assert args' == args + [left, token[k + 1..]];
      return;
    }
    if token == ">" {
      if redirectionIdx' == -1 {
        redirectionIdx' := i;
      } else {
        parseError := true;
      }
      return;
    }
    if redirectionIdx' != -1 && i > redirectionIdx' + 1 {
      parseError := true;
      return;
    }
    args' := args' + [token];
  }

  /** The loop of dash.c:112-186, with `strtok_r` advancing over the group. */
  method ParseGroup(group: string) returns (r: Parsed)
    ensures r == ParseText(group)
  {
    var rest := group;
    var redirectionIdx := -1;
    var args: seq<string> := [];
    var command: Option<string> := None;
    var parseError := false;
    while true
      invariant -1 <= redirectionIdx
      invariant ParseFrom(PState(args, if redirectionIdx == -1 then None else Some(redirectionIdx as nat), command),
                          Tokens(rest, Blanks)) == ParseText(group)
      decreases |rest|
    {
      var next := NextToken(rest, Blanks);
      if next.None? || |args| >= MaxArgs {
        break;
      }
      var token := next.value.0;
      ParseFromToken(PState(args, if redirectionIdx == -1 then None else Some(redirectionIdx as nat), command),
                     rest, token, next.value.1);
      rest := next.value.1;
      args, redirectionIdx, command, parseError := ScanToken(args, redirectionIdx, command, token);
      if parseError {
        return Failed;
      }
    }
    r := Parsed(PState(args, if redirectionIdx == -1 then None else Some(redirectionIdx as nat), command));
  }

  // ---------------------------------------------------------------------
  // What every reachable parse state satisfies

  /** Invariant of the tokeniser's state between two tokens. */
  ghost predicate WellFormed(st: PState)
  {
    && |st.args| <= MaxArgs + 1
    && (st.redir.Some? ==> st.redir.value <= |st.args|)
    && (forall j :: 0 <= j < |st.args| ==> st.args[j] != [])
    && (|st.args| >= 1 ==> st.command == Some(st.args[0]))
    && (|st.args| == 0 ==> (st.command == None && st.redir == None) || (st.command == Some(">") && st.redir == Some(0)))
  }

  lemma StepWellFormed(st: PState, tok: string)
    requires WellFormed(st) && |st.args| < MaxArgs && tok != []
    ensures Step(st, tok).Parsed? ==> WellFormed(Step(st, tok).st)
  {
  }

  /**
   * Between tokens the stored arguments are never empty strings, at most 11
   * of them are stored (the `args[10]` slot of the source is written when the
   * tenth argument is an embedded redirection), the redirection index never
   * passes the number of stored arguments, and the command name is the first
   * stored argument.
   */
  lemma {:induction false} ParseWellFormed(st: PState, toks: seq<string>)
    requires WellFormed(st)
    requires forall j :: 0 <= j < |toks| ==> toks[j] != []
    ensures ParseFrom(st, toks).Parsed? ==> WellFormed(ParseFrom(st, toks).st)
    decreases |toks|
  {
    if toks != [] && |st.args| < MaxArgs {
      StepWellFormed(st, toks[0]);
      match Step(st, toks[0])
      case Failed =>
      case Parsed(next) => ParseWellFormed(next, toks[1..]);
    }
  }

  lemma ParseTextWellFormed(group: string)
    ensures ParseText(group).Parsed? ==> WellFormed(ParseText(group).st)
  {
    var toks := Tokens(group, Blanks);
    TokensWellFormed(group, Blanks);
    assert forall j :: 0 <= j < |toks| ==> toks[j] in toks;
    ParseWellFormed(Start, toks);
  }

  /** Stored arguments are only ever appended to. */
  lemma {:induction false} ParseExtends(st: PState, toks: seq<string>)
    ensures ParseFrom(st, toks).Parsed? ==> st.args <= ParseFrom(st, toks).st.args
    decreases |toks|
  {
    if toks != [] && |st.args| < MaxArgs {
      match Step(st, toks[0])
      case Failed =>
      case Parsed(next) => ParseExtends(next, toks[1..]);
    }
  }

  /** The tokeniser over a concatenation runs over the first part, then over the second. */
  lemma {:induction false} ParseAppend(st: PState, a: seq<string>, b: seq<string>)
    ensures ParseFrom(st, a + b) == match ParseFrom(st, a)
      case Failed => Failed
      case Parsed(mid) => ParseFrom(mid, b)
    decreases |a|
  {
    if a == [] {
      assert a + b == b;
    } else if |st.args| >= MaxArgs {
    } else {
      assert (a + b)[0] == a[0];
      assert (a + b)[1..] == a[1..] + b;
      match Step(st, a[0])
      case Failed =>
      case Parsed(next) => ParseAppend(next, a[1..], b);
    }
  }

  // ---------------------------------------------------------------------
  // How one token is classified

  /** The token holds two or more `>` characters. */
  ghost predicate HasTwoRedirects(tok: string)
  {
    exists p, q :: 0 <= p < q < |tok| && tok[p] == '>' && tok[q] == '>'
  }

  /** The token's one and only `>` is at position `p`. */
  ghost predicate OnlyRedirectAt(tok: string, p: nat)
  {
    p < |tok| && tok[p] == '>' && forall j :: 0 <= j < |tok| && j != p ==> tok[j] != '>'
  }

  lemma FirstRedirectIs(tok: string, p: nat)
    requires OnlyRedirectAt(tok, p)
    ensures FirstIndexOf(tok, ">") == p
    ensures '>' !in tok[p + 1..]
  {
    assert tok[p] in ">";
    var after := tok[p + 1..];
    assert forall j :: 0 <= j < |after| ==> after[j] == tok[p + 1 + j];
  }

  /**
   * Each of these raises `parse_error` on a token the loop reaches: a token
   * with two or more `>`; a standalone `>` once a redirection is recorded; an
   * embedded `left>right` once a redirection is recorded.
   */
  lemma StepFailures(st: PState, tok: string)
    ensures HasTwoRedirects(tok) ==> Step(st, tok) == Failed
    ensures tok == ">" && st.redir.Some? ==> Step(st, tok) == Failed
    ensures (exists p: nat :: OnlyRedirectAt(tok, p) && p < |tok| - 1) && st.redir.Some? ==> Step(st, tok) == Failed
  {
    if HasTwoRedirects(tok) {
      var p, q :| 0 <= p < q < |tok| && tok[p] == '>' && tok[q] == '>';
      var k := FirstIndexOf(tok, ">");
      assert tok[p] in ">";
      assert tok[k + 1..][q - k - 1] == '>';
    }
    if (exists p: nat :: OnlyRedirectAt(tok, p) && p < |tok| - 1) && st.redir.Some? {
      var p: nat :| OnlyRedirectAt(tok, p) && p < |tok| - 1;
      FirstRedirectIs(tok, p);
    }
  }

  /**
   * A standalone `>` read while no redirection is recorded is accepted in
   * every state: it stores nothing and points the redirection at the next
   * free slot.
   */
  lemma StepStandaloneRedirect(st: PState)
    requires st.redir.None?
    ensures Step(st, ">") == Parsed(PState(st.args, Some(|st.args|), CommandAfter(st, ">")))
  {
    assert FirstIndexOf(">", ">") == 0;
  }

  /**
   * A parse error on a token the loop reaches makes the whole group fail,
   * whatever follows it.
   */
  lemma ParseFailsAt(pre: seq<string>, tok: string, post: seq<string>)
    requires Parse(pre).Parsed? && |Parse(pre).st.args| < MaxArgs
    requires HasTwoRedirects(tok)
          || (tok == ">" && Parse(pre).st.redir.Some?)
          || ((exists p: nat :: OnlyRedirectAt(tok, p) && p < |tok| - 1) && Parse(pre).st.redir.Some?)
    ensures Parse(pre + [tok] + post) == Failed
  {
    StepFailures(Parse(pre).st, tok);
    ParseAppend(Start, pre, [tok] + post);
    assert pre + [tok] + post == pre + ([tok] + post);
  }

  /**
   * An embedded `left>right` (one `>`, not the last character) stores `left`
   * then `right` and records the redirection at `right`'s index. When the `>`
   * is the first character, the whole token is stored in `left`'s place.
   */
  lemma StepEmbeddedRedirect(st: PState, tok: string, p: nat)
    requires OnlyRedirectAt(tok, p) && p < |tok| - 1
    requires st.redir.None?
    ensures var left := if p == 0 then tok else tok[..p];
      Step(st, tok) == Parsed(PState(st.args + [left, tok[p + 1..]], Some(|st.args| + 1),
                                     if st.args == [] then Some(left) else st.command))
  {
    FirstRedirectIs(tok, p);
  }

  /**
   * A token whose only `>` is its last character, such as `ls>`, is not a
   * redirection: it goes through the same check as an ordinary token and is
   * stored verbatim.
   */
  lemma StepTrailingRedirectIsPlain(st: PState, tok: string)
    requires |tok| >= 2 && OnlyRedirectAt(tok, |tok| - 1)
    ensures Step(st, tok) ==
      if st.redir.Some? && |st.args| > st.redir.value + 1 then Failed
      else Parsed(PState(st.args + [tok], st.redir, if st.args == [] then Some(tok) else st.command))
  {
    FirstRedirectIs(tok, |tok| - 1);
    assert tok != ">";
  }

  /**
   * Once a redirection is recorded at index `r`, an ordinary token is refused
   * only when more than `r + 1` arguments are already stored: the target and
   * one stray token after it are accepted.
   */
  lemma StepAfterRedirect(st: PState, tok: string)
    requires st.redir.Some?
    requires tok != [] && forall j :: 0 <= j < |tok| ==> tok[j] != '>'
    ensures Step(st, tok) == Failed <==> |st.args| > st.redir.value + 1
    ensures Step(st, tok) != Failed ==> Step(st, tok).st == PState(st.args + [tok], st.redir, CommandAfter(st, tok))
  {
    assert FirstIndexOf(tok, ">") == |tok|;
    assert tok != ">" by { assert tok[0] != '>'; }
  }

  /** The first token, when it holds no `>`, is the command name and the first argument. */
  lemma CommandIsFirstToken(toks: seq<string>)
    requires toks != [] && toks[0] != []
    requires forall j :: 0 <= j < |toks[0]| ==> toks[0][j] != '>'
    requires forall j :: 0 <= j < |toks| ==> toks[j] != []
    requires Parse(toks).Parsed?
    ensures Parse(toks).st.command == Some(toks[0])
    ensures |Parse(toks).st.args| >= 1 && Parse(toks).st.args[0] == toks[0]
  {
    var first := PState([toks[0]], None, Some(toks[0]));
    assert FirstIndexOf(toks[0], ">") == |toks[0]|;
    assert toks[0] != ">" by { assert toks[0][0] != '>'; }
    assert Step(Start, toks[0]) == Parsed(first);
    assert Parse(toks) == ParseFrom(first, toks[1..]);
    ParseWellFormed(first, toks[1..]);
    ParseExtends(first, toks[1..]);
  }

  /**
   * The first token `left>right` makes `left` the command name; a first token
   * `>right` is itself the command name.
   */
  lemma CommandIsLeftOfFirstToken(toks: seq<string>, p: nat)
    requires toks != [] && OnlyRedirectAt(toks[0], p) && p < |toks[0]| - 1
    requires forall j :: 0 <= j < |toks| ==> toks[j] != []
    requires Parse(toks).Parsed?
    ensures Parse(toks).st.command == Some(if p == 0 then toks[0] else toks[0][..p])
    ensures Parse(toks).st.redir == Some(1)
  {
    var left := if p == 0 then toks[0] else toks[0][..p];
    StepEmbeddedRedirect(Start, toks[0], p);
    var first := PState([left, toks[0][p + 1..]], Some(1), Some(left));
    assert Start.args + [left, toks[0][p + 1..]] == first.args;
    assert Step(Start, toks[0]) == Parsed(first);
    assert Parse(toks) == ParseFrom(first, toks[1..]);
    ParseWellFormed(first, toks[1..]);
    ParseExtends(first, toks[1..]);
    RedirectStays(first, toks[1..]);
  }

  /** A recorded redirection index never changes afterwards. */
  lemma {:induction false} RedirectStays(st: PState, toks: seq<string>)
    requires st.redir.Some?
    ensures ParseFrom(st, toks).Parsed? ==> ParseFrom(st, toks).st.redir == st.redir
    decreases |toks|
  {
    if toks != [] && |st.args| < MaxArgs {
      match Step(st, toks[0])
      case Failed =>
      case Parsed(next) => RedirectStays(next, toks[1..]);
    }
  }

  // ---------------------------------------------------------------------
  // What an external command is launched with

  /** Where the launched command's output goes. */
  datatype Redirect =
    | NoRedirect
    | ToFile(name: string)
      // the source opens `args[redirection_idx]`, which is the terminator
      // when a trailing `>` has no target
    | MissingTarget

  /** The redirection target of a parsed group (dash.c:254-255). */
  function RedirectOf(st: PState): (r: Redirect)
    requires st.redir.Some? ==> st.redir.value <= |st.args|
    ensures r.NoRedirect? <==> st.redir.None?
    ensures r.MissingTarget? <==> st.redir == Some(|st.args|)
    ensures r.ToFile? ==> r.name == st.args[st.redir.value]
  {
    if st.redir.None? then NoRedirect
    else if st.redir.value < |st.args| then ToFile(st.args[st.redir.value])
    else MissingTarget
  }

  /** A null-terminated vector read the way `execv` reads it: up to the first null slot. */
  function UpToNull(slots: seq<Option<string>>): seq<string>
  {
    if slots == [] || slots[0].None? then [] else [slots[0].value] + UpToNull(slots[1..])
  }

  lemma {:induction false} UpToNullPrefix(slots: seq<Option<string>>, n: nat)
    requires n <= |slots|
    requires forall j :: 0 <= j < n ==> slots[j].Some?
    requires n < |slots| ==> slots[n].None?
    ensures |UpToNull(slots)| == n
    ensures forall j :: 0 <= j < n ==> UpToNull(slots)[j] == slots[j].value
  {
    if n > 0 {
      UpToNullPrefix(slots[1..], n - 1);
    }
  }

  /**
   * The `args` array as `execv` receives it: the stored arguments, the null
   * written after them (dash.c:186), the null written over the redirection
   * target (dash.c:260), and the resolved path written into slot 0 (dash.c:285).
   */
  function ArgSlots(path: string, st: PState): (slots: seq<Option<string>>)
    requires st.redir.Some? ==> st.redir.value <= |st.args|
    ensures |slots| == |st.args| + 1
  {
    var stored := seq(|st.args|, j requires 0 <= j < |st.args| => Some(st.args[j])) + [None];
    var cut := if st.redir.Some? then stored[st.redir.value := None] else stored;
    cut[0 := Some(path)]
  }

  /**
   * The argument vector of a launched command: the resolved path, then the
   * stored arguments after the command name up to the redirection index, so
   * the redirection target and every token after it are left out. A
   * redirection recorded at index 0 (a group starting with `>`) is overwritten
   * by the path and cuts nothing.
   */
  function Argv(path: string, st: PState): (r: seq<string>)
    requires st.redir.Some? ==> st.redir.value <= |st.args|
    ensures var end := if st.redir.Some? && st.redir.value >= 1 then st.redir.value else |st.args|;
      |r| == (if end == 0 then 1 else end)
    ensures r[0] == path
    ensures forall j :: 1 <= j < |r| ==> r[j] == st.args[j]
  {
    var slots := ArgSlots(path, st);
    var end := if st.redir.Some? && st.redir.value >= 1 then st.redir.value else |st.args|;
    var n := if end == 0 then 1 else end;
    UpToNullPrefix(slots, n);
    UpToNull(slots)
  }

  // ---------------------------------------------------------------------
  // The quirks of the source, on concrete groups

  /** After `ls > a`: one more plain token is accepted, a second one is not. */
  lemma StrayTokensAfterTarget()
    ensures ParseFrom(PState(["ls", "a"], Some(1), Some("ls")), ["b"]) == Parsed(PState(["ls", "a", "b"], Some(1), Some("ls")))
    ensures ParseFrom(PState(["ls", "a"], Some(1), Some("ls")), ["b", "c"]) == Failed
  {
    var s3 := PState(["ls", "a"], Some(1), Some("ls"));
    var s4 := PState(["ls", "a", "b"], Some(1), Some("ls"));
    StepAfterRedirect(s3, "b");
    StepAfterRedirect(s4, "c");
    assert ["b", "c"][1..] == ["c"];
  }

  /** `ls >` followed by the target `a`, then the tokens `rest`. */
  lemma ParseLsToA(rest: seq<string>)
    ensures Parse(["ls", ">", "a"] + rest) == ParseFrom(PState(["ls", "a"], Some(1), Some("ls")), rest)
  {
    var s2 := PState(["ls"], Some(1), Some("ls"));
    assert Parse(["ls", ">", "a"] + rest) == ParseFrom(s2, ["a"] + rest) by {
      TrailingRedirectHasNoTarget();
      ParseAppend(Start, ["ls", ">"], ["a"] + rest);
      assert ["ls", ">"] + (["a"] + rest) == ["ls", ">", "a"] + rest;
    }
    assert ParseFrom(s2, ["a"] + rest) == ParseFrom(PState(["ls", "a"], Some(1), Some("ls")), rest) by {
      StepAfterRedirect(s2, "a");
      assert ["ls"] + ["a"] == ["ls", "a"];
      assert Step(s2, "a") == Parsed(PState(["ls", "a"], Some(1), Some("ls")));
      assert (["a"] + rest)[0] == "a";
      assert (["a"] + rest)[1..] == rest;
    }
  }

  /**
   * `ls > a b` parses (the extra-token check admits one token after the
   * target); `b` is dropped from the argument vector.
   */
  lemma OneStrayTokenAccepted()
    ensures Parse(["ls", ">", "a", "b"]) == Parsed(PState(["ls", "a", "b"], Some(1), Some("ls")))
    ensures Argv("/bin/ls", PState(["ls", "a", "b"], Some(1), Some("ls"))) == ["/bin/ls"]
  {
    ParseLsToA(["b"]);
    StrayTokensAfterTarget();
    assert ["ls", ">", "a"] + ["b"] == ["ls", ">", "a", "b"];
  }

  /** `ls > a b c` is a parse error: the second token after the target is one too many. */
  lemma TwoStrayTokensRejected()
    ensures Parse(["ls", ">", "a", "b", "c"]) == Failed
  {
    ParseLsToA(["b", "c"]);
    StrayTokensAfterTarget();
    assert ["ls", ">", "a"] + ["b", "c"] == ["ls", ">", "a", "b", "c"];
  }

  /** `ls >` is not a parse error: the redirection points at the terminator. */
  lemma TrailingRedirectHasNoTarget()
    ensures Parse(["ls", ">"]) == Parsed(PState(["ls"], Some(1), Some("ls")))
    ensures RedirectOf(PState(["ls"], Some(1), Some("ls"))) == MissingTarget
  {
    var s1 := PState(["ls"], None, Some("ls"));
    assert Step(Start, "ls") == Parsed(s1) by { assert FirstIndexOf("ls", ">") == 2; }
    assert Step(s1, ">") == Parsed(PState(["ls"], Some(1), Some("ls")));
  }

  /**
   * A `>` ending any group that parses without a redirection and with fewer
   * than ten arguments is not a parse error: the arguments stay as they were
   * and the redirection points at the terminator.
   */
  lemma TrailingRedirectParses(pre: seq<string>)
    requires Parse(pre).Parsed? && Parse(pre).st.redir.None? && |Parse(pre).st.args| < MaxArgs
    ensures Parse(pre + [">"]).Parsed?
    ensures Parse(pre + [">"]).st.args == Parse(pre).st.args
    ensures Parse(pre + [">"]).st.redir == Some(|Parse(pre).st.args|)
    ensures RedirectOf(Parse(pre + [">"]).st) == MissingTarget
  {
    ParseAppend(Start, pre, [">"]);
    StepStandaloneRedirect(Parse(pre).st);
  }

  /**
   * `ls >out` stores the whole token `>out` and then `out`, redirects to
   * `out`, and launches with `argv = [path, ">out"]`.
   */
  lemma LeadingRedirectKeepsWholeToken()
    ensures Parse(["ls", ">out"]) == Parsed(PState(["ls", ">out", "out"], Some(2), Some("ls")))
    ensures Argv("/bin/ls", PState(["ls", ">out", "out"], Some(2), Some("ls"))) == ["/bin/ls", ">out"]
    ensures RedirectOf(PState(["ls", ">out", "out"], Some(2), Some("ls"))) == ToFile("out")
  {
    assert Parse(["ls", ">out"]) == Parsed(PState(["ls", ">out", "out"], Some(2), Some("ls"))) by {
      var s1 := PState(["ls"], None, Some("ls"));
      assert Step(Start, "ls") == Parsed(s1) by { assert FirstIndexOf("ls", ">") == 2; }
      assert OnlyRedirectAt(">out", 0);
      StepEmbeddedRedirect(s1, ">out", 0);
      assert ">out"[1..] == "out";
      assert Parse(["ls", ">out"]) == ParseFrom(PState(["ls", ">out", "out"], Some(2), Some("ls")), []);
    }
  }

  /** `>exit` is not the built-in `exit`: the command is the whole token, the output goes to `exit`. */
  lemma LeadingRedirectIsNotExit()
    ensures Parse([">exit"]) == Parsed(PState([">exit", "exit"], Some(1), Some(">exit")))
  {
    assert OnlyRedirectAt(">exit", 0);
    StepEmbeddedRedirect(Start, ">exit", 0);
    assert ">exit"[1..] == "exit";
    assert Start.args + [">exit", "exit"] == [">exit", "exit"];
    assert Parse([">exit"]) == ParseFrom(PState([">exit", "exit"], Some(1), Some(">exit")), []);
  }
}
