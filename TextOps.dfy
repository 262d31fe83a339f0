/**
  The two Python string operations the bot applies to message text:
  `str.strip()` (no argument) and `str.splitlines()` (no `keepends`).
  Both are modelled on Unicode scalar values (`char`), with Python's own
  whitespace set and its own set of line boundaries.
 */
module TextOps {

  /** The characters for which Python's `str.isspace()` holds. */
  predicate IsSpace(c: char) {
    || c == '\t' || c == '\n' || c == '\U{0B}' || c == '\U{0C}' || c == '\r'
    || c == '\U{1C}' || c == '\U{1D}' || c == '\U{1E}' || c == '\U{1F}'
    || c == ' ' || c == '\U{85}' || c == '\U{A0}' || c == '\U{1680}'
    || ('\U{2000}' <= c <= '\U{200A}')
    || c == '\U{2028}' || c == '\U{2029}' || c == '\U{202F}' || c == '\U{205F}'
    || c == '\U{3000}'
  }

  /** The characters at which Python's `str.splitlines()` ends a line
      (`"\r\n"` is a single boundary, handled in `LineEnd`). */
  predicate IsLineBreak(c: char) {
    || c == '\n' || c == '\r' || c == '\U{0B}' || c == '\U{0C}'
    || c == '\U{1C}' || c == '\U{1D}' || c == '\U{1E}' || c == '\U{85}'
    || c == '\U{2028}' || c == '\U{2029}'
  }

  ghost predicate AllSpace(s: string) {
    forall k :: 0 <= k < |s| ==> IsSpace(s[k])
  }

  predicate NoLineBreak(s: string) {
    forall k :: 0 <= k < |s| ==> !IsLineBreak(s[k])
  }

  /** True when `s` has neither leading nor trailing whitespace. */
  predicate Trimmed(s: string) {
    s == [] || (!IsSpace(s[0]) && !IsSpace(s[|s| - 1]))
  }

  // ---------------------------------------------------------------- strip

  /** `s` with its leading whitespace removed (`str.lstrip()`). */
  function StripStart(s: string): (r: string)
    ensures |r| <= |s| && r == s[|s| - |r|..]
    ensures AllSpace(s[..|s| - |r|])
    ensures r == [] || !IsSpace(r[0])
  {
    if s != [] && IsSpace(s[0]) then StripStart(s[1..]) else s
  }

  /** `s` with its trailing whitespace removed (`str.rstrip()`). */
  function StripEnd(s: string): (r: string)
    ensures |r| <= |s| && r == s[..|r|]
    ensures AllSpace(s[|r|..])
    ensures r == [] || !IsSpace(r[|r| - 1])
  {
    if s != [] && IsSpace(s[|s| - 1]) then StripEnd(s[..|s| - 1]) else s
  }

  /** `s` occurs in `t` at offset `i`, framed by whitespace on both sides. */
  ghost predicate FramedBySpace(t: string, i: int, s: string) {
    0 <= i && i + |s| <= |t| && t[i..i + |s|] == s
    && AllSpace(t[..i]) && AllSpace(t[i + |s|..])
  }

  /** Python's `s.strip()`: leading and then trailing whitespace removed. */
  function Strip(s: string): string {
    StripEnd(StripStart(s))
  }

  /** The stripped text neither starts nor ends with whitespace, and it is
      what is left of `s` once the whitespace around it is dropped. */
  lemma StripSpec(s: string)
    ensures Trimmed(Strip(s))
    ensures exists i :: FramedBySpace(s, i, Strip(s))
  {
    var a := StripStart(s);
    var b := StripEnd(a);
    assert b != [] ==> b[0] == a[0];
    assert FramedBySpace(s, |s| - |a|, b) by {
      assert s[|s| - |a|..][..|b|] == b;
      assert s[|s| - |a| + |b|..] == a[|b|..];
    }
  }

  /** Text already free of surrounding whitespace is left as it is. */
  lemma StripTrimmed(s: string)
    requires Trimmed(s)
    ensures Strip(s) == s
  {
    assert StripStart(s) == s;
    assert StripEnd(s) == s;
  }

  lemma StripIdempotent(s: string)
    ensures Strip(Strip(s)) == Strip(s)
  {
    StripSpec(s);
    StripTrimmed(Strip(s));
  }

  /** Whitespace-only text strips to the empty string, and only such text. */
  lemma StripEmpty(s: string)
    ensures Strip(s) == [] <==> AllSpace(s)
  {
    var r := Strip(s);
    StripSpec(s);
    var i :| FramedBySpace(s, i, r);
    if r == [] {
      forall k | 0 <= k < |s|
        ensures IsSpace(s[k])
      {
        if k < i {
          assert s[k] == s[..i][k];
        } else {
          assert s[k] == s[i..][k - i];
        }
      }
    } else {
      assert s[i] == s[i..i + |r|][0] == r[0];
      assert !IsSpace(s[i]);
    }
  }

  // ----------------------------------------------------------- splitlines

  /** Index of the first line boundary in `s`, or `|s|` when there is none. */
  function LineEnd(s: string): (k: nat)
    ensures k <= |s|
    ensures NoLineBreak(s[..k])
    ensures k < |s| ==> IsLineBreak(s[k])
  {
    if s == [] || IsLineBreak(s[0]) then 0
    else
      var k := 1 + LineEnd(s[1..]);
      assert s[..k] == [s[0]] + s[1..][..k - 1];
      k
  }

  /** Where the next line starts: past the boundary at `LineEnd(s)`,
      which is two characters long for `"\r\n"`. */
  function NextLineStart(s: string): (j: nat)
    ensures LineEnd(s) <= j <= |s|
    ensures LineEnd(s) < |s| ==> LineEnd(s) < j && IsBoundary(s[LineEnd(s)..j], s[j..])
  {
    var k := LineEnd(s);
    if k == |s| then k
    else if s[k] == '\r' && k + 1 < |s| && s[k + 1] == '\n' then k + 2
    else k + 1
  }

  /** Python's `s.splitlines()`: the lines of `s` without their
      boundaries; a final boundary does not start an empty last line. */
  function SplitLines(s: string): (lines: seq<string>)
    ensures lines == [] <==> s == []
    ensures forall n :: 0 <= n < |lines| ==> NoLineBreak(lines[n])
    ensures |lines| <= |s|
    decreases |s|
  {
    if s == [] then []
    else
      var rest := SplitLines(s[NextLineStart(s)..]);
      [s[..LineEnd(s)]] + rest
  }

  /** The inverse of `SplitLines`: lines joined with `"\n"` between them. */
  function JoinLines(lines: seq<string>): string {
    if lines == [] then []
    else if |lines| == 1 then lines[0]
    else lines[0] + "\n" + JoinLines(lines[1..])
  }

  /** The first boundary of a boundary-free line followed by text that is
      empty or starts with a boundary is the end of that line. */
  lemma LineEndOfLine(line: string, tail: string)
    requires NoLineBreak(line)
    requires tail == [] || IsLineBreak(tail[0])
    ensures LineEnd(line + tail) == |line|
  {
    var s := line + tail;
    assert forall j :: 0 <= j < |line| ==> s[j] == line[j];
    assert tail != [] ==> s[|line|] == tail[0];
  }

  /** `b` is one line boundary as `str.splitlines()` reads it, when `rest`
      follows it: `"\r\n"`, or a single boundary character, where a lone
      `"\r"` must not be followed by `"\n"` (the two would be one boundary). */
  predicate IsBoundary(b: string, rest: string) {
    b == "\r\n" || (|b| == 1 && IsLineBreak(b[0]) && (b == "\r" ==> rest == [] || rest[0] != '\n'))
  }

  /** A line without boundaries, one boundary of any kind and more text
      split into that line followed by the lines of the rest. */
  lemma SplitCons(line: string, b: string, rest: string)
    requires NoLineBreak(line)
    requires IsBoundary(b, rest)
    ensures SplitLines(line + b + rest) == [line] + SplitLines(rest)
  {
    var s := line + b + rest;
    assert s == line + (b + rest);
    LineEndOfLine(line, b + rest);
    assert s[|line|] == b[0];
    if b == "\r\n" {
      assert s[|line| + 1] == '\n';
    } else if b == "\r" && rest != [] {
      assert s[|line| + 1] == rest[0];
    }
    assert NextLineStart(s) == |line| + |b|;
    assert s[..|line|] == line;
    assert s[|line| + |b|..] == rest;
  }

  /** Joining lines and splitting the text again gives the same lines,
      provided no line holds a boundary and the text does not end in one
      (an empty last line would be dropped by `SplitLines`). */
  lemma {:induction false} SplitJoin(lines: seq<string>)
    requires lines != [] && lines[|lines| - 1] != []
    requires forall n :: 0 <= n < |lines| ==> NoLineBreak(lines[n])
    ensures SplitLines(JoinLines(lines)) == lines
  {
    if |lines| == 1 {
      SingleLine(lines[0]);
    } else {
      var rest := lines[1..];
      assert rest[|rest| - 1] == lines[|lines| - 1];
      assert forall n :: 0 <= n < |rest| ==> rest[n] == lines[n + 1];
      SplitJoin(rest);
      SplitCons(lines[0], "\n", JoinLines(rest));
      assert lines == [lines[0]] + rest;
    }
  }

  /** Non-empty text without any line boundary is exactly one line. */
  lemma SingleLine(s: string)
    requires s != [] && NoLineBreak(s)
    ensures SplitLines(s) == [s]
  {
    LineEndOfLine(s, []);
    assert s[..|s|] == s;
  }
}
