/**
 * The JavaScript string and array built-ins the note logic relies on:
 * `trim`, `slice(0, n)`, `filter(Boolean)` on strings, `join("\n")` and
 * `split(/\n+/)`, with the lines of a text to describe what a join builds.
 * Strings are sequences of characters.
 */
module Text {

  function Min(a: int, b: int): int {
    if a <= b then a else b
  }

  function Max(a: int, b: int): int {
    if a <= b then b else a
  }

  /** The characters `String.prototype.trim` removes and `\s` matches in a
      regular expression: the WhiteSpace and LineTerminator code points of
      ECMA-262. */
  predicate IsSpace(c: char) {
    || c == '\t' || c == '\n' || c == '\U{B}' || c == '\U{C}' || c == '\r'
    || c == ' ' || c == '\U{A0}' || c == '\U{1680}'
    || ('\U{2000}' <= c <= '\U{200A}')
    || c == '\U{2028}' || c == '\U{2029}' || c == '\U{202F}' || c == '\U{205F}'
    || c == '\U{3000}' || c == '\U{FEFF}'
  }

  /** Every character is white space: `s.trim()` is the empty string. */
  predicate IsBlank(s: string) {
    forall i :: 0 <= i < |s| ==> IsSpace(s[i])
  }

  /** `s` neither begins nor ends with white space. */
  predicate IsTrimmed(s: string) {
    s == [] || (!IsSpace(s[0]) && !IsSpace(s[|s| - 1]))
  }

  /** Leading white space removed (also `/^\s*` replaced by nothing). */
  function TrimStart(s: string): (r: string)
    ensures |r| <= |s| && r == s[|s| - |r|..]
    ensures forall i :: 0 <= i < |s| - |r| ==> IsSpace(s[i])
    ensures r == [] || !IsSpace(r[0])
  {
    if s != [] && IsSpace(s[0]) then TrimStart(s[1..]) else s
  }

  /** Trailing white space removed. */
  function TrimEnd(s: string): (r: string)
    ensures |r| <= |s| && r == s[..|r|]
    ensures forall i :: |r| <= i < |s| ==> IsSpace(s[i])
    ensures r == [] || !IsSpace(r[|r| - 1])
  {
    if s != [] && IsSpace(s[|s| - 1]) then TrimEnd(s[..|s| - 1]) else s
  }

  /** `s.trim()`. */
  function Trim(s: string): (r: string)
    ensures IsTrimmed(r)
    ensures r == [] <==> IsBlank(s)
  {
    assert IsTrimmed(TrimEnd(TrimStart(s))) && (TrimEnd(TrimStart(s)) == [] <==> IsBlank(s)) by {
      TrimBothEnds(s);
    }
    TrimEnd(TrimStart(s))
  }

  lemma TrimBothEnds(s: string)
    ensures IsTrimmed(TrimEnd(TrimStart(s)))
    ensures TrimEnd(TrimStart(s)) == [] <==> IsBlank(s)
  {
    var t := TrimStart(s);
    var r := TrimEnd(t);
    if r != [] {
      assert r[0] == t[0];
    }
    if t != [] {
      assert t[0] == s[|s| - |t|];
    }
  }

  /** Trimming adds no character. */
  lemma TrimKeeps(s: string, c: char)
    requires c !in s
    ensures c !in Trim(s)
  {
    var t := TrimStart(s);
    var r := TrimEnd(t);
    forall i | 0 <= i < |r| ensures r[i] != c {
      assert r[i] == t[i] == s[|s| - |t| + i];
    }
  }

  /** Trimming removes exactly the white space around a trimmed text. */
  lemma {:induction false} TrimAround(before: string, u: string, after: string)
    requires IsBlank(before) && IsBlank(after) && u != [] && IsTrimmed(u)
    ensures Trim(before + (u + after)) == u
  {
    var rest := u + after;
    assert rest[0] == u[0];
    TrimStartSkips(before, rest);
    TrimEndSkips(u, after);
  }

  lemma {:induction false} TrimStartSkips(w: string, u: string)
    requires IsBlank(w) && u != [] && !IsSpace(u[0])
    ensures TrimStart(w + u) == u
    decreases |w|
  {
    if w != [] {
      BlankTail(w);
      TrimStartStep(w + u);
      AppendTail(w, u);
      TrimStartSkips(w[1..], u);
    } else {
      assert w + u == u;
    }
  }

  lemma {:induction false} TrimEndSkips(u: string, w: string)
    requires IsBlank(w) && u != [] && !IsSpace(u[|u| - 1])
    ensures TrimEnd(u + w) == u
    decreases |w|
  {
    if w != [] {
      BlankFront(w);
      TrimEndStep(u + w);
      AppendFront(u, w);
      TrimEndSkips(u, w[..|w| - 1]);
    } else {
      assert u + w == u;
    }
  }

  lemma TrimStartStep(s: string)
    requires s != [] && IsSpace(s[0])
    ensures TrimStart(s) == TrimStart(s[1..])
  {
  }

  lemma TrimEndStep(s: string)
    requires s != [] && IsSpace(s[|s| - 1])
    ensures TrimEnd(s) == TrimEnd(s[..|s| - 1])
  {
  }

  lemma BlankTail(w: string)
    requires w != [] && IsBlank(w)
    ensures IsBlank(w[1..]) && IsSpace(w[0])
  {
  }

  lemma BlankFront(w: string)
    requires w != [] && IsBlank(w)
    ensures IsBlank(w[..|w| - 1]) && IsSpace(w[|w| - 1])
  {
  }

  lemma AppendTail(w: string, u: string)
    requires w != []
    ensures (w + u)[0] == w[0] && (w + u)[1..] == w[1..] + u
  {
  }

  lemma AppendFront(u: string, w: string)
    requires w != []
    ensures (u + w)[|u + w| - 1] == w[|w| - 1] && (u + w)[..|u + w| - 1] == u + w[..|w| - 1]
  {
  }

  /** A string without white space at either end is its own trim. */
  lemma TrimmedIsFixed(s: string)
    requires IsTrimmed(s)
    ensures Trim(s) == s
  {
  }

  /** `s.slice(0, n)` for a non-negative `n`, on strings and arrays alike. */
  function Take<T>(s: seq<T>, n: nat): (r: seq<T>)
    ensures r <= s
    ensures |r| == Min(n, |s|)
  {
    if |s| <= n then s else s[..n]
  }

  /** `xs.filter(Boolean)` on strings: the empty strings dropped, the rest kept in order. */
  function DropEmpty(xs: seq<string>): (r: seq<string>)
    ensures |r| <= |xs|
    ensures forall i :: 0 <= i < |r| ==> r[i] != []
    ensures forall x :: x in r <==> x in xs && x != []
  {
    if xs == [] then []
    else
      var rest := DropEmpty(xs[1..]);
      assert forall x :: x in xs <==> x == xs[0] || x in xs[1..];
      if xs[0] == [] then rest else [xs[0]] + rest
  }

  /** Taking at least everything takes everything. */
  lemma TakeAll<T>(s: seq<T>, n: nat)
    requires |s| <= n
    ensures Take(s, n) == s
  {
  }

  /** Only empty strings leave nothing. */
  lemma {:induction false} DropEmptyOfEmpties(xs: seq<string>)
    requires forall i :: 0 <= i < |xs| ==> xs[i] == []
    ensures DropEmpty(xs) == []
    decreases |xs|
  {
    if xs != [] {
      DropEmptyOfEmpties(xs[1..]);
    }
  }

  /** Filtering commutes with concatenation, so the kept strings keep their
      relative order. */
  lemma {:induction false} DropEmptyAppend(xs: seq<string>, ys: seq<string>)
    ensures DropEmpty(xs + ys) == DropEmpty(xs) + DropEmpty(ys)
  {
    if xs == [] {
      assert xs + ys == ys;
    } else {
      assert (xs + ys)[1..] == xs[1..] + ys;
      DropEmptyAppend(xs[1..], ys);
    }
  }

  /** A list without empty strings passes the filter unchanged. */
  lemma {:induction false} DropEmptyKeepsNonEmpty(xs: seq<string>)
    requires forall i :: 0 <= i < |xs| ==> xs[i] != []
    ensures DropEmpty(xs) == xs
  {
    if xs != [] {
      DropEmptyKeepsNonEmpty(xs[1..]);
    }
  }

  /** `lines.join("\n")`: the first line starts the text, and a line feed
      follows it when more lines come. */
  function Join(lines: seq<string>): (r: string)
    ensures lines != [] ==> lines[0] <= r
    ensures |lines| > 1 ==> |r| > |lines[0]| && r[|lines[0]|] == '\n'
  {
    if |lines| == 0 then ""
    else if |lines| == 1 then lines[0]
    else lines[0] + "\n" + Join(lines[1..])
  }

  /** Joining no lines gives the empty text, and joining one line gives
      that line. */
  lemma JoinBase(x: string)
    ensures Join([]) == ""
    ensures Join([x]) == x
  {
  }

  /** Joining a list that starts with `x`. */
  lemma JoinCons(x: string, lines: seq<string>)
    requires lines != []
    ensures Join([x] + lines) == x + "\n" + Join(lines)
  {
    assert ([x] + lines)[1..] == lines;
  }

  /** Joining two non-empty lists puts one separator between their joins. */
  lemma {:induction false} JoinAppend(xs: seq<string>, ys: seq<string>)
    requires xs != [] && ys != []
    ensures Join(xs + ys) == Join(xs) + "\n" + Join(ys)
  {
    if |xs| == 1 {
      JoinCons(xs[0], ys);
      assert xs + ys == [xs[0]] + ys;
    } else {
      JoinAppend(xs[1..], ys);
      assert xs + ys == [xs[0]] + (xs[1..] + ys);
      JoinCons(xs[0], xs[1..] + ys);
    }
  }

  /** The first position of `c` in `s`. */
  function IndexOf(s: string, c: char): (i: nat)
    requires c in s
    ensures i < |s| && s[i] == c
    ensures forall j :: 0 <= j < i ==> s[j] != c
  {
    if s[0] == c then 0 else 1 + IndexOf(s[1..], c)
  }

  /** `c` at position `k` with no `c` before it: `k` is the first position. */
  lemma IndexOfAt(s: string, c: char, k: nat)
    requires k < |s| && s[k] == c
    requires forall j :: 0 <= j < k ==> s[j] != c
    ensures IndexOf(s, c) == k
  {
  }

  /** The lines of a text: the pieces between single line feeds. It undoes
      `Join`, and states what lines a joined text is made of. */
  function SplitLines(s: string): (r: seq<string>)
    ensures r != []
    ensures forall k :: 0 <= k < |r| ==> '\n' !in r[k]
    decreases |s|
  {
    if '\n' !in s then [s]
    else
      var i := IndexOf(s, '\n');
      [s[..i]] + SplitLines(s[i + 1..])
  }

  /** A line without line feeds, a line feed, then the rest: the line is
      the first piece. */
  lemma SplitLinesAt(a: string, b: string)
    requires '\n' !in a
    ensures SplitLines(a + "\n" + b) == [a] + SplitLines(b)
  {
    var s := a + "\n" + b;
    assert s[|a|] == '\n';
    assert s[..|a|] == a;
    IndexOfAt(s, '\n', |a|);
    assert s[|a| + 1..] == b;
  }

  /** Splitting on line feeds undoes joining lines that contain none. */
  lemma {:induction false} SplitJoin(lines: seq<string>)
    requires lines != []
    requires forall k :: 0 <= k < |lines| ==> '\n' !in lines[k]
    ensures SplitLines(Join(lines)) == lines
    decreases |lines|
  {
    if |lines| > 1 {
      JoinCons(lines[0], lines[1..]);
      assert lines == [lines[0]] + lines[1..];
      SplitLinesAt(lines[0], Join(lines[1..]));
      SplitJoin(lines[1..]);
    }
  }

  /** Joining undoes splitting: no character is lost or added. */
  lemma {:induction false} JoinSplit(s: string)
    ensures Join(SplitLines(s)) == s
    decreases |s|
  {
    if '\n' in s {
      var i := IndexOf(s, '\n');
      var tail := SplitLines(s[i + 1..]);
      JoinSplit(s[i + 1..]);
      JoinCons(s[..i], tail);
      assert s == s[..i] + "\n" + s[i + 1..];
    }
  }

  /** The line feeds at the front of `s` removed. */
  function SkipNewlines(s: string): (r: string)
    ensures |r| <= |s| && r == s[|s| - |r|..]
    ensures forall j :: 0 <= j < |s| - |r| ==> s[j] == '\n'
    ensures r == [] || r[0] != '\n'
    ensures s != [] && s[0] == '\n' ==> |r| < |s|
  {
    if s != [] && s[0] == '\n' then SkipNewlines(s[1..]) else s
  }

  /** `s.split(/\n+/)`: the pieces between runs of line feeds. Only the first
      and the last piece can be empty. */
  function SplitRuns(s: string): (r: seq<string>)
    ensures r != []
    ensures forall k :: 0 <= k < |r| ==> '\n' !in r[k]
    ensures forall k :: 0 < k < |r| - 1 ==> r[k] != []
    ensures s != [] && s[0] != '\n' ==> r[0] != []
    decreases |s|
  {
    if '\n' !in s then [s]
    else
      var i := IndexOf(s, '\n');
      var rest := SplitRuns(SkipNewlines(s[i..]));
      assert s[0] != '\n' ==> i > 0;
      [s[..i]] + rest
  }

  /** Skipping line feeds in text made of line feeds alone leaves nothing. */
  lemma {:induction false} SkipAllNewlines(s: string)
    requires forall i :: 0 <= i < |s| ==> s[i] == '\n'
    ensures SkipNewlines(s) == []
    decreases |s|
  {
    if s != [] {
      SkipAllNewlines(s[1..]);
    }
  }

  /** Skipping line feeds stops at the first other character. */
  lemma SkipNewlinesStops(s: string, j: nat)
    requires j < |s| && s[j] != '\n'
    ensures SkipNewlines(s) != [] && SplitRuns(SkipNewlines(s))[0] != []
  {
  }

  /** Text that starts with line feeds splits into an empty piece and the
      pieces of what follows them. */
  lemma SplitRunsLeadingBreak(s: string)
    requires s != [] && s[0] == '\n'
    ensures SplitRuns(s) == [""] + SplitRuns(SkipNewlines(s))
  {
    assert s[0] in s;
    IndexOfAt(s, '\n', 0);
    assert s[0..] == s;
  }

  /** What `s.split(/\n+/)` can return: at least one piece, no piece holds a
      line feed, and no piece strictly inside the list is empty. */
  predicate IsRunSplit(pieces: seq<string>) {
    && pieces != []
    && (forall k :: 0 <= k < |pieces| ==> '\n' !in pieces[k])
    && (forall k :: 0 < k < |pieces| - 1 ==> pieces[k] != [])
  }

  /** A piece without line feeds, one line feed, then text that does not
      start with a line feed: the piece is the first one. */
  lemma SplitRunsAt(a: string, b: string)
    requires '\n' !in a
    requires b == [] || b[0] != '\n'
    ensures SplitRuns(a + "\n" + b) == [a] + SplitRuns(b)
  {
    var s := a + "\n" + b;
    assert s[|a|] == '\n';
    assert s[..|a|] == a;
    IndexOfAt(s, '\n', |a|);
    assert s[|a|..] == "\n" + b;
    assert ("\n" + b)[1..] == b;
  }

  /** A piece without line feeds, a run of line feeds, then text that does
      not start with a line feed: the piece is the first one, and the whole
      run counts as one break. */
  lemma SplitRunsRun(a: string, w: string, b: string)
    requires '\n' !in a
    requires IsBreak(w)
    requires b == [] || b[0] != '\n'
    ensures SplitRuns(a + w + b) == [a] + SplitRuns(b)
  {
    var s := a + w + b;
    assert s[|a|] == w[0] == '\n';
    assert s[..|a|] == a;
    IndexOfAt(s, '\n', |a|);
    assert s[|a|..] == w + b;
    SkipRun(w, b);
  }

  /** A run of line feeds, at least one. */
  predicate IsBreak(w: string) {
    w != [] && forall i :: 0 <= i < |w| ==> w[i] == '\n'
  }

  /** Skipping line feeds removes a whole run and stops at what follows. */
  lemma {:induction false} SkipRun(w: string, b: string)
    requires forall i :: 0 <= i < |w| ==> w[i] == '\n'
    requires b == [] || b[0] != '\n'
    ensures SkipNewlines(w + b) == b
    decreases |w|
  {
    if w == [] {
      assert w + b == b;
    } else {
      assert (w + b)[1..] == w[1..] + b;
      SkipRun(w[1..], b);
    }
  }

  /** The pieces joined by the given runs of line feeds, `breaks[k]` between
      `pieces[k]` and `pieces[k + 1]`. */
  function JoinBy(pieces: seq<string>, breaks: seq<string>): (r: string)
    requires pieces != [] && |breaks| == |pieces| - 1
    ensures pieces[0] <= r
    decreases |pieces|
  {
    if |pieces| == 1 then pieces[0]
    else pieces[0] + breaks[0] + JoinBy(pieces[1..], breaks[1..])
  }

  /** Splitting on runs of line feeds undoes joining by any runs of line
      feeds: how long each run is makes no difference. */
  lemma {:induction false} SplitRunsJoinBy(pieces: seq<string>, breaks: seq<string>)
    requires IsRunSplit(pieces) && |breaks| == |pieces| - 1
    requires forall k :: 0 <= k < |breaks| ==> IsBreak(breaks[k])
    ensures SplitRuns(JoinBy(pieces, breaks)) == pieces
    decreases |pieces|
  {
    if |pieces| > 1 {
      var rest := JoinBy(pieces[1..], breaks[1..]);
      assert JoinBy(pieces, breaks) == pieces[0] + breaks[0] + rest;
      RunSplitTail(pieces, breaks);
      JoinByStart(pieces[1..], breaks[1..]);
      SplitRunsRun(pieces[0], breaks[0], rest);
      SplitRunsJoinBy(pieces[1..], breaks[1..]);
      assert pieces == [pieces[0]] + pieces[1..];
    }
  }

  /** What follows the first piece and run has the same shape. */
  lemma RunSplitTail(pieces: seq<string>, breaks: seq<string>)
    requires IsRunSplit(pieces) && |pieces| > 1 && |breaks| == |pieces| - 1
    requires forall k :: 0 <= k < |breaks| ==> IsBreak(breaks[k])
    ensures IsRunSplit(pieces[1..]) && IsBreak(breaks[0]) && '\n' !in pieces[0]
    ensures forall k :: 0 <= k < |breaks[1..]| ==> IsBreak(breaks[1..][k])
    ensures |pieces| > 2 ==> pieces[1] != []
  {
    assert forall k :: 0 <= k < |pieces[1..]| ==> pieces[1..][k] == pieces[k + 1];
    assert forall k :: 0 <= k < |breaks[1..]| ==> breaks[1..][k] == breaks[k + 1];
  }

  /** Joined pieces start with no line feed when the first piece has none
      and is not empty unless it stands alone. */
  lemma JoinByStart(pieces: seq<string>, breaks: seq<string>)
    requires pieces != [] && |breaks| == |pieces| - 1
    requires '\n' !in pieces[0]
    requires |pieces| > 1 ==> pieces[0] != []
    ensures JoinBy(pieces, breaks) == [] || JoinBy(pieces, breaks)[0] != '\n'
  {
    if |pieces| > 1 {
      assert JoinBy(pieces, breaks)[0] == pieces[0][0];
    }
  }

  /** Splitting on runs of line feeds undoes joining with single line feeds. */
  lemma {:induction false} SplitRunsJoin(pieces: seq<string>)
    requires IsRunSplit(pieces)
    ensures SplitRuns(Join(pieces)) == pieces
    decreases |pieces|
  {
    if |pieces| > 1 {
      var rest := Join(pieces[1..]);
      JoinCons(pieces[0], pieces[1..]);
      assert pieces == [pieces[0]] + pieces[1..];
      SplitRunsAt(pieces[0], rest);
      SplitRunsJoin(pieces[1..]);
    }
  }
}
