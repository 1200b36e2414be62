/** The plain-text fallback of the health check: Python's `str.splitlines`,
    `str.strip` and the "last non-empty line" scan over a pod log. */
module Text {
  import opened Wrappers

  /** The characters `str.splitlines` treats as line boundaries. */
  predicate IsLineBreak(c: char) {
    c == '\n' || c == '\r' || c == '\U{0B}' || c == '\U{0C}' || c == '\U{1C}' || c == '\U{1D}'
    || c == '\U{1E}' || c == '\U{85}' || c == '\U{2028}' || c == '\U{2029}'
  }

  /** The characters `str.isspace` accepts, which `str.strip()` removes. */
  predicate IsSpace(c: char) {
    IsLineBreak(c) || c == ' ' || c == '\t' || c == '\U{1F}' || c == '\U{A0}' || c == '\U{1680}'
    || ('\U{2000}' <= c <= '\U{200A}') || c == '\U{202F}' || c == '\U{205F}' || c == '\U{3000}'
  }

  predicate AllSpace(s: string) {
    forall i :: 0 <= i < |s| ==> IsSpace(s[i])
  }

  predicate NoLineBreak(s: string) {
    forall i :: 0 <= i < |s| ==> !IsLineBreak(s[i])
  }

  /** `s` with its trailing whitespace removed. */
  function TrimEnd(s: string): (r: string)
    ensures r <= s
    ensures AllSpace(s[|r|..])
    ensures r == [] || !IsSpace(r[|r| - 1])
    decreases |s|
  {
    if |s| > 0 && IsSpace(s[|s| - 1]) then TrimEnd(s[..|s| - 1]) else s
  }

  /** `s` with its leading whitespace removed. */
  function TrimStart(s: string): (r: string)
    ensures |r| <= |s| && r == s[|s| - |r|..]
    ensures AllSpace(s[..|s| - |r|])
    ensures r == [] || !IsSpace(r[0])
  {
    if |s| > 0 && IsSpace(s[0]) then TrimStart(s[1..]) else s
  }

  /** `str.strip()` with no argument. */
  function Strip(s: string): string {
    TrimStart(TrimEnd(s))
  }

  /** `strip()` cuts `s` at two positions, with only whitespace outside them. */
  lemma StripSlice(s: string) returns (i: nat, j: nat)
    ensures i <= j <= |s| && Strip(s) == s[i..j]
    ensures AllSpace(s[..i]) && AllSpace(s[j..])
  {
    var e := TrimEnd(s);
    var r := TrimStart(e);
    i, j := |e| - |r|, |e|;
    assert e == s[..j];
    assert r == e[i..];
    assert e[i..] == s[i..j];
    assert s[..i] == e[..i];
  }

  /** A stripped string is empty exactly when the input was all whitespace,
      and otherwise starts and ends with a non-space character that the
      input holds at some position, with only whitespace outside it. */
  lemma StripCharacterised(s: string)
    ensures Strip(s) == [] <==> AllSpace(s)
    ensures Strip(s) != [] ==> !IsSpace(Strip(s)[0]) && !IsSpace(Strip(s)[|Strip(s)| - 1])
    ensures exists i, j :: 0 <= i <= j <= |s| && Strip(s) == s[i..j] && AllSpace(s[..i]) && AllSpace(s[j..])
  {
    var i, j := StripSlice(s);
    var r := Strip(s);
    if r == [] {
      assert s == s[..i] + s[j..];
      AllSpaceConcat(s[..i], s[j..]);
    } else {
      assert s[i] == r[0];
    }
    StripEnds(s);
  }

  lemma AllSpaceConcat(a: string, b: string)
    requires AllSpace(a) && AllSpace(b)
    ensures AllSpace(a + b)
  {
    forall k | 0 <= k < |a + b| ensures IsSpace((a + b)[k]) {
      if k < |a| { assert (a + b)[k] == a[k]; } else { assert (a + b)[k] == b[k - |a|]; }
    }
  }

  /** Both ends of a non-empty `strip()` are non-space. */
  lemma StripEnds(s: string)
    ensures Strip(s) != [] ==> !IsSpace(Strip(s)[0]) && !IsSpace(Strip(s)[|Strip(s)| - 1])
  {
    var e := TrimEnd(s);
    var r := TrimStart(e);
    if r != [] {
      assert r[|r| - 1] == e[|e| - 1];
    }
  }

  /** Index of the first line boundary at or after `k`, or `|s|`. */
  function BreakFrom(s: string, k: nat): (i: nat)
    requires k <= |s|
    ensures k <= i <= |s|
    ensures i < |s| ==> IsLineBreak(s[i])
    ensures forall j :: k <= j < i ==> !IsLineBreak(s[j])
    decreases |s| - k
  {
    if k == |s| || IsLineBreak(s[k]) then k else BreakFrom(s, k + 1)
  }

  /** `str.splitlines()`: the lines of `s` without their boundaries, where
      `\r\n` counts as one boundary and a trailing boundary opens no new line. */
  function SplitLines(s: string): (lines: seq<string>)
    ensures forall l :: 0 <= l < |lines| ==> NoLineBreak(lines[l])
    ensures |s| == 0 <==> |lines| == 0
    decreases |s|
  {
    if |s| == 0 then []
    else
      var i := BreakFrom(s, 0);
      if i == |s| then [s]
      else
        var next := if s[i] == '\r' && i + 1 < |s| && s[i + 1] == '\n' then i + 2 else i + 1;
        [s[..i]] + SplitLines(s[next..])
  }

  /** A log that ends with a boundary followed by a break-free line has that
      line as its last line, whatever comes before. */
  lemma {:induction false} SplitLinesLast(t: string, line: string)
    requires |line| > 0 && NoLineBreak(line)
    ensures var lines := SplitLines(t + "\n" + line); |lines| > 0 && lines[|lines| - 1] == line
    decreases |t|
  {
    var s := t + "\n" + line;
    assert IsLineBreak(s[|t|]);
    var i := BreakFrom(s, 0);
    var next := SplitLinesStep(s);
    var rest := s[next..];
    if next == |t| + 1 {
      assert rest == line by { SuffixAfterBreak(t, line, next); }
      SplitLinesSingle(line);
    } else {
      assert rest == t[next..] + "\n" + line by { SuffixAfterBreak(t, line, next); }
      SplitLinesLast(t[next..], line);
    }
    LastOfCons(s[..i], SplitLines(rest));
  }

  lemma SuffixAfterBreak(t: string, line: string, next: nat)
    requires next <= |t| + 1
    ensures next == |t| + 1 ==> (t + "\n" + line)[next..] == line
    ensures next <= |t| ==> (t + "\n" + line)[next..] == t[next..] + "\n" + line
  {
  }

  lemma LastOfCons(x: string, rest: seq<string>)
    requires |rest| > 0
    ensures ([x] + rest)[|[x] + rest| - 1] == rest[|rest| - 1]
  {
  }

  /** One step of `splitlines`: the text up to the first boundary, then the
      lines after that boundary. */
  lemma SplitLinesStep(s: string) returns (next: nat)
    requires exists j :: 0 <= j < |s| && IsLineBreak(s[j])
    ensures BreakFrom(s, 0) < next <= |s|
    ensures next == if s[BreakFrom(s, 0)] == '\r' && BreakFrom(s, 0) + 1 < |s| && s[BreakFrom(s, 0) + 1] == '\n'
                    then BreakFrom(s, 0) + 2 else BreakFrom(s, 0) + 1
    ensures SplitLines(s) == [s[..BreakFrom(s, 0)]] + SplitLines(s[next..])
  {
    var i := BreakFrom(s, 0);
    next := if s[i] == '\r' && i + 1 < |s| && s[i + 1] == '\n' then i + 2 else i + 1;
  }

  /** A non-empty text without boundaries is one line. */
  lemma SplitLinesSingle(line: string)
    requires |line| > 0 && NoLineBreak(line)
    ensures SplitLines(line) == [line]
  {
    assert BreakFrom(line, 0) == |line|;
  }

  /** Line `l` is not blank and every line after it is. */
  predicate LastNonBlankAt(lines: seq<string>, l: int) {
    0 <= l < |lines| && !AllSpace(lines[l]) && forall m :: l < m < |lines| ==> AllSpace(lines[m])
  }

  /** Position of the last line that is not blank, scanning from the end as
      repeated `pop()`s do; `None` when every line is blank. */
  function LastNonBlankIndex(lines: seq<string>): (r: Option<nat>)
    ensures r.None? <==> forall l :: 0 <= l < |lines| ==> AllSpace(lines[l])
    ensures r.Some? ==> LastNonBlankAt(lines, r.value)
  {
    if |lines| == 0 then None
    else if !AllSpace(lines[|lines| - 1]) then Some(|lines| - 1)
    else
      var init := lines[..|lines| - 1];
      assert forall l :: 0 <= l < |init| ==> init[l] == lines[l];
      LastNonBlankIndex(init)
  }

  /** The last non-blank line, stripped: a non-empty string with no
      whitespace at either end. */
  function LastNonBlank(lines: seq<string>): (r: Option<string>)
    ensures r.Some? ==> r.value != [] && !IsSpace(r.value[0]) && !IsSpace(r.value[|r.value| - 1])
  {
    match LastNonBlankIndex(lines)
    case None => None
    case Some(l) => StripCharacterised(lines[l]); Some(Strip(lines[l]))
  }

  /** The message a plain-text pod log yields: its last non-blank line, stripped. */
  function LastLogLine(log: string): Option<string> {
    LastNonBlank(SplitLines(log))
  }

  /** Every line of a list is free of line boundaries. */
  predicate BreakFree(lines: seq<string>) {
    forall l :: 0 <= l < |lines| ==> NoLineBreak(lines[l])
  }

  /** `"\n".join(lines)`. */
  function Joined(lines: seq<string>): string
    decreases |lines|
  {
    if |lines| == 0 then ""
    else if |lines| == 1 then lines[0]
    else lines[0] + "\n" + Joined(lines[1..])
  }

  /** A break-free line followed by `\n` is split off as the first line. */
  lemma SplitLinesCons(x: string, rest: string)
    requires NoLineBreak(x)
    ensures SplitLines(x + "\n" + rest) == [x] + SplitLines(rest)
  {
    var s := x + "\n" + rest;
    assert s[|x|] == '\n';
    assert forall j :: 0 <= j < |x| ==> s[j] == x[j];
    assert BreakFrom(s, 0) == |x|;
    assert s[..|x|] == x;
    assert s[|x| + 1..] == rest;
  }

  /** Lines joined by `\n` split back into those lines when the last one is
      not empty (an empty last line leaves no trace in the text). */
  lemma {:induction false} SplitJoined(lines: seq<string>)
    requires |lines| > 0 && BreakFree(lines) && lines[|lines| - 1] != []
    ensures SplitLines(Joined(lines)) == lines
    decreases |lines|
  {
    if |lines| == 1 {
      SplitLinesSingle(lines[0]);
    } else {
      SplitLinesCons(lines[0], Joined(lines[1..]));
      SplitJoined(lines[1..]);
      assert lines == [lines[0]] + lines[1..];
    }
  }

  /** One trailing boundary opens no new line: lines joined by `\n` and
      followed by one more `\n` split back into those lines, whatever they
      are. */
  lemma {:induction false} SplitTerminated(lines: seq<string>)
    requires |lines| > 0 && BreakFree(lines)
    ensures SplitLines(Joined(lines) + "\n") == lines
    decreases |lines|
  {
    if |lines| == 1 {
      SplitLinesCons(lines[0], "");
      assert lines[0] + "\n" + "" == Joined(lines) + "\n";
    } else {
      var rest := Joined(lines[1..]) + "\n";
      assert Joined(lines) + "\n" == lines[0] + "\n" + rest;
      SplitLinesCons(lines[0], rest);
      SplitTerminated(lines[1..]);
      assert lines == [lines[0]] + lines[1..];
    }
  }

  /** Every boundary of the text is a `\n`. */
  predicate NewlinesOnly(s: string) {
    forall i :: 0 <= i < |s| && IsLineBreak(s[i]) ==> s[i] == '\n'
  }

  /** A text whose boundaries are all `\n` is its lines joined by `\n`,
      followed by one more `\n` exactly when the text ends with one. */
  lemma {:induction false} JoinSplitLines(s: string)
    requires NewlinesOnly(s)
    ensures s == Joined(SplitLines(s)) + (if |s| > 0 && s[|s| - 1] == '\n' then "\n" else "")
    decreases |s|
  {
    if |s| > 0 {
      if BreakFrom(s, 0) == |s| {
        SplitLinesSingle(s);
      } else {
        var x, rest := FirstNewline(s);
        SplitLinesCons(x, rest);
        JoinSplitLines(rest);
        JoinedStep(x, rest, SplitLines(rest));
      }
    }
  }

  /** A text with a boundary, all of them `\n`, is a break-free line, a
      `\n` and a shorter such text. */
  lemma FirstNewline(s: string) returns (x: string, rest: string)
    requires NewlinesOnly(s) && BreakFrom(s, 0) < |s|
    ensures s == x + "\n" + rest && NoLineBreak(x) && NewlinesOnly(rest)
  {
    var i := BreakFrom(s, 0);
    x, rest := s[..i], s[i + 1..];
    assert s == x + "\n" + rest;
    forall j | 0 <= j < |x| ensures !IsLineBreak(x[j]) { assert x[j] == s[j]; }
    forall j | 0 <= j < |rest| && IsLineBreak(rest[j]) ensures rest[j] == '\n' { assert rest[j] == s[i + 1 + j]; }
  }

  /** The inductive step of `JoinSplitLines`: prefixing a line and a `\n`
      to a text rebuilt from its lines rebuilds the longer text. */
  lemma JoinedStep(x: string, rest: string, more: seq<string>)
    requires |rest| == 0 <==> |more| == 0
    requires rest == Joined(more) + (if |rest| > 0 && rest[|rest| - 1] == '\n' then "\n" else "")
    ensures var s := x + "\n" + rest;
            s == Joined([x] + more) + (if s[|s| - 1] == '\n' then "\n" else "")
  {
    var s := x + "\n" + rest;
    if |more| == 0 {
      assert s == x + "\n";
    } else {
      assert s[|s| - 1] == rest[|rest| - 1];
      assert ([x] + more)[1..] == more;
      assert Joined([x] + more) == x + "\n" + Joined(more);
    }
  }

  /** At most one line is the last non-blank one. */
  lemma LastNonBlankAtUnique(lines: seq<string>, l: int, m: int)
    requires LastNonBlankAt(lines, l) && LastNonBlankAt(lines, m)
    ensures l == m
  {
  }

  /** The message of any plain-text log: `None` exactly when every line is
      blank, and otherwise the last non-blank line, stripped. */
  lemma LastLogLineIs(log: string)
    ensures var lines := SplitLines(log);
            && (LastLogLine(log).None? <==> forall l :: 0 <= l < |lines| ==> AllSpace(lines[l]))
            && (LastLogLine(log).Some? ==> exists l :: LastNonBlankAt(lines, l))
            && forall l :: LastNonBlankAt(lines, l) ==> LastLogLine(log) == Some(Strip(lines[l]))
  {
    var lines := SplitLines(log);
    var i := LastNonBlankIndex(lines);
    if i.Some? {
      forall l | LastNonBlankAt(lines, l) ensures LastLogLine(log) == Some(Strip(lines[l])) {
        LastNonBlankAtUnique(lines, i.value, l);
      }
    }
  }

  /** A log written as lines separated by `\n`, with or without a final
      `\n`, reports its last non-blank line, stripped. */
  lemma LastLogLineOfLines(lines: seq<string>, l: int)
    requires BreakFree(lines) && LastNonBlankAt(lines, l)
    ensures LastLogLine(Joined(lines) + "\n") == Some(Strip(lines[l]))
    ensures lines[|lines| - 1] != [] ==> LastLogLine(Joined(lines)) == Some(Strip(lines[l]))
  {
    SplitTerminated(lines);
    LastLogLineIs(Joined(lines) + "\n");
    if lines[|lines| - 1] != [] {
      SplitJoined(lines);
      LastLogLineIs(Joined(lines));
    }
  }
}
