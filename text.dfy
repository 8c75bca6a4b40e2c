/**
 * Character-level helpers used by the shell's line engine: the newline strip
 * applied to every input line and a model of the C library's `strtok_r`, which
 * the engine uses both to split a line on `&` and to split a group on blanks.
 */
module Text {

  datatype Option<T> = None | Some(value: T)

  /** Removes one trailing newline, as `getline` leaves it at the end of a line. */
  function StripNewline(line: string): (r: string)
    ensures |line| > 0 && line[|line| - 1] == '\n' ==> r + ['\n'] == line
    ensures !(|line| > 0 && line[|line| - 1] == '\n') ==> r == line
  {
    if |line| > 0 && line[|line| - 1] == '\n' then line[..|line| - 1] else line
  }

  /** Index of the first character of `s` that belongs to `delims`, or `|s|` if none does. */
  function FirstIndexOf(s: string, delims: string): (k: nat)
    ensures k <= |s|
    ensures forall j :: 0 <= j < k ==> s[j] !in delims
    ensures k < |s| ==> s[k] in delims
  {
    if s == [] then 0
    else if s[0] in delims then 0
    else 1 + FirstIndexOf(s[1..], delims)
  }

  /** Drops the leading delimiters of `s`. */
  function SkipDelims(s: string, delims: string): (r: string)
    ensures |r| <= |s|
    ensures r != [] ==> r[0] !in delims && s[|s| - |r|] !in delims
    ensures r == [] ==> forall j :: 0 <= j < |s| ==> s[j] in delims
  {
    if s != [] && s[0] in delims then SkipDelims(s[1..], delims) else s
  }

  /**
   * One call of `strtok_r(s, delims, &rest)`: skips leading delimiters; if
   * nothing is left there is no token; otherwise the token is the maximal run
   * of non-delimiters, and the saved position is just past the delimiter that
   * ended it (that delimiter is overwritten by the terminator).
   */
  function NextToken(s: string, delims: string): (r: Option<(string, string)>)
    ensures r.None? <==> forall j :: 0 <= j < |s| ==> s[j] in delims
    ensures r.Some? ==> |r.value.1| < |s|
    ensures r.Some? ==> r.value.0 != [] && forall j :: 0 <= j < |r.value.0| ==> r.value.0[j] !in delims
  {
    var t := SkipDelims(s, delims);
    if t == [] then None
    else
      var k := FirstIndexOf(t, delims);
      Some((t[..k], if k < |t| then t[k + 1..] else []))
  }

  /** Every token successive calls of `strtok_r` return, in order. */
  function Tokens(s: string, delims: string): (r: seq<string>)
    decreases |s|
  {
    match NextToken(s, delims)
    case None => []
    case Some((tok, rest)) => [tok] + Tokens(rest, delims)
  }

  /** One call of `strtok_r` takes the first of the tokens; the remaining calls take the rest. */
  lemma TokensStep(s: string, delims: string)
    ensures NextToken(s, delims).None? ==> Tokens(s, delims) == []
    ensures NextToken(s, delims).Some? ==>
      Tokens(s, delims) == [NextToken(s, delims).value.0] + Tokens(NextToken(s, delims).value.1, delims)
  {
  }

  /** Independent reference: the fields between every two delimiters, empty ones included. */
  function Fields(s: string, delims: string): (r: seq<string>)
    ensures |r| >= 1
    decreases |s|
  {
    var k := FirstIndexOf(s, delims);
    if k == |s| then [s] else [s[..k]] + Fields(s[k + 1..], delims)
  }

  function NonEmpty(xs: seq<string>): (r: seq<string>)
    ensures forall j :: 0 <= j < |r| ==> r[j] != []
    ensures |r| <= |xs|
  {
    if xs == [] then []
    else if xs[0] == [] then NonEmpty(xs[1..])
    else [xs[0]] + NonEmpty(xs[1..])
  }

  lemma {:induction false} TokensSkipDelim(s: string, delims: string)
    requires s != [] && s[0] in delims
    ensures Tokens(s, delims) == Tokens(s[1..], delims)
  {
    assert SkipDelims(s, delims) == SkipDelims(s[1..], delims);
    assert NextToken(s, delims) == NextToken(s[1..], delims);
  }

  /**
   * The tokens are exactly the non-empty fields: leading, trailing and
   * consecutive delimiters never produce an empty token, and each token is a
   * maximal delimiter-free run of the input.
   */
  lemma {:induction false} TokensAreNonEmptyFields(s: string, delims: string)
    ensures Tokens(s, delims) == NonEmpty(Fields(s, delims))
    decreases |s|
  {
    if s == [] {
      assert Fields(s, delims) == [[]];
    } else if s[0] in delims {
      TokensSkipDelim(s, delims);
      TokensAreNonEmptyFields(s[1..], delims);
      assert FirstIndexOf(s, delims) == 0;
      assert Fields(s, delims) == [[]] + Fields(s[1..], delims);
      assert NonEmpty(Fields(s, delims)) == NonEmpty(Fields(s[1..], delims));
    } else {
      var k := FirstIndexOf(s, delims);
      assert SkipDelims(s, delims) == s;
      assert s[..k] != [];
      if k == |s| {
        assert s[..k] == s;
        assert NextToken(s, delims) == Some((s, []));
        assert Tokens([], delims) == [];
        assert Tokens(s, delims) == [s];
        assert NonEmpty(Fields(s, delims)) == [s] + NonEmpty([]);
      } else {
        TokensAreNonEmptyFields(s[k + 1..], delims);
        assert NextToken(s, delims) == Some((s[..k], s[k + 1..]));
        assert Fields(s, delims) == [s[..k]] + Fields(s[k + 1..], delims);
        assert Fields(s, delims)[1..] == Fields(s[k + 1..], delims);
      }
    }
  }

  /** Each token is non-empty and free of delimiters. */
  lemma {:induction false} TokensWellFormed(s: string, delims: string)
    ensures forall t :: t in Tokens(s, delims) ==> t != [] && forall j :: 0 <= j < |t| ==> t[j] !in delims
    decreases |s|
  {
    match NextToken(s, delims)
    case None =>
    case Some((tok, rest)) =>
      TokensWellFormed(rest, delims);
  }

  /** A text with no delimiter at all is one token, itself, when non-empty. */
  lemma {:induction false} TokensOfPlainText(s: string, delims: string)
    requires s != []
    requires forall j :: 0 <= j < |s| ==> s[j] !in delims
    ensures Tokens(s, delims) == [s]
  {
    assert SkipDelims(s, delims) == s;
    assert FirstIndexOf(s, delims) == |s|;
    assert s[..|s|] == s;
    assert NextToken(s, delims) == Some((s, []));
    assert NextToken([], delims) == None;
  }
}
