/** `clean_command`, which flattens a multi-line SQL statement into one line
    for the debug log, with the two Python string operations it is built on:
    `str.splitlines` and `str.strip` (no arguments). */
module Command {

  /** The characters `str.splitlines` breaks at: "\r\n" is one break, and
      each of these alone is one. */
  predicate IsLineBoundary(c: char) {
    c == '\n' || c == '\r' || c == '\U{B}' || c == '\U{C}'
    || c == '\U{1C}' || c == '\U{1D}' || c == '\U{1E}'
    || c == '\U{85}' || c == '\U{2028}' || c == '\U{2029}'
  }

  /** The characters `str.strip` removes: Python's whitespace. */
  predicate IsSpace(c: char) {
    || ('\U{9}' <= c <= '\U{D}')
    || ('\U{1C}' <= c <= '\U{20}')
    || c == '\U{85}' || c == '\U{A0}' || c == '\U{1680}'
    || ('\U{2000}' <= c <= '\U{200A}')
    || c == '\U{2028}' || c == '\U{2029}' || c == '\U{202F}'
    || c == '\U{205F}' || c == '\U{3000}'
  }

  predicate NoBoundary(s: string) {
    forall i :: 0 <= i < |s| ==> !IsLineBoundary(s[i])
  }

  /** Where the first line of `s` ends: the first line boundary, or `|s|`. */
  function LineEnd(s: string): (k: nat)
    ensures k <= |s|
    ensures NoBoundary(s[..k])
    ensures k < |s| ==> IsLineBoundary(s[k])
  {
    if s == "" || IsLineBoundary(s[0]) then 0
    else 1 + LineEnd(s[1..])
  }

  /** `str.splitlines()`: the lines of `s` without their terminators; a
      terminator at the very end does not start another, empty line. */
  function SplitLines(s: string): (lines: seq<string>)
    ensures forall i :: 0 <= i < |lines| ==> NoBoundary(lines[i])
    ensures lines == [] <==> s == ""
    decreases |s|
  {
    if s == "" then []
    else
      var k := LineEnd(s);
      if k == |s| then [s]
      else
        var next := if s[k] == '\r' && k + 1 < |s| && s[k + 1] == '\n' then k + 2 else k + 1;
        [s[..k]] + SplitLines(s[next..])
  }

  /** Each line followed by "\n": the text a list of lines is the split of. */
  function Terminated(lines: seq<string>): string {
    if lines == [] then "" else lines[0] + "\n" + Terminated(lines[1..])
  }

  /** Splitting undoes terminating: `splitlines` gives back exactly the lines
      of a text whose every line ends with a newline. */
  lemma {:induction false} SplitTerminated(lines: seq<string>)
    requires forall i :: 0 <= i < |lines| ==> NoBoundary(lines[i])
    ensures SplitLines(Terminated(lines)) == lines
  {
    if lines != [] {
      var s := Terminated(lines);
      var l := lines[0];
      assert s == l + ("\n" + Terminated(lines[1..]));
      assert LineEnd(s) == |l| by {
        LineEndPrefix(l, "\n" + Terminated(lines[1..]));
      }
      assert s[|l|] == '\n';
      assert s[..|l|] == l;
      assert s[|l| + 1..] == Terminated(lines[1..]);
      SplitTerminated(lines[1..]);
      assert lines == [l] + lines[1..];
    }
  }

  /** Splitting a text whose last line has no terminator gives back the
      terminated lines and then that last line: the shape of every statement
      `clean_command` is given. */
  lemma {:induction false} SplitUnterminated(lines: seq<string>, last: string)
    requires forall i :: 0 <= i < |lines| ==> NoBoundary(lines[i])
    requires NoBoundary(last) && last != ""
    ensures SplitLines(Terminated(lines) + last) == lines + [last]
  {
    if lines == [] {
      assert Terminated(lines) + last == last;
      assert LineEnd(last) == |last|;
    } else {
      var l := lines[0];
      var rest := Terminated(lines[1..]) + last;
      var s := Terminated(lines) + last;
      assert s == l + ("\n" + rest);
      LineEndPrefix(l, "\n" + rest);
      assert s[|l|] == '\n';
      assert s[..|l|] == l;
      assert s[|l| + 1..] == rest;
      SplitUnterminated(lines[1..], last);
      assert lines + [last] == [l] + (lines[1..] + [last]);
    }
  }

  /** A line with no boundary, followed by a boundary, is the first line. */
  lemma {:induction false} LineEndPrefix(l: string, rest: string)
    requires NoBoundary(l)
    requires rest != "" && IsLineBoundary(rest[0])
    ensures LineEnd(l + rest) == |l|
  {
    if l != "" {
      assert (l + rest)[1..] == l[1..] + rest;
      assert NoBoundary(l[1..]);
      LineEndPrefix(l[1..], rest);
    } else {
      assert l + rest == rest;
    }
  }

  /** The first index at or after `i` that does not hold whitespace. */
  function SkipSpace(s: string, i: nat): (k: nat)
    requires i <= |s|
    ensures i <= k <= |s|
    ensures forall j :: i <= j < k ==> IsSpace(s[j])
    ensures k < |s| ==> !IsSpace(s[k])
    decreases |s| - i
  {
    if i < |s| && IsSpace(s[i]) then SkipSpace(s, i + 1) else i
  }

  /** Where the whitespace that ends `s[lo..j]` begins. */
  function SkipSpaceBack(s: string, lo: nat, j: nat): (k: nat)
    requires lo <= j <= |s|
    ensures lo <= k <= j
    ensures forall x :: k <= x < j ==> IsSpace(s[x])
    ensures k > lo ==> !IsSpace(s[k - 1])
    decreases j
  {
    if j > lo && IsSpace(s[j - 1]) then SkipSpaceBack(s, lo, j - 1) else j
  }

  /** `str.strip()`: the slice of `s` that starts at the first non-whitespace
      character; all that is cut off on either side is whitespace, and the
      result neither starts nor ends with whitespace. */
  function Strip(s: string): (r: string)
    ensures var lo := SkipSpace(s, 0);
            && lo + |r| <= |s| && r == s[lo..lo + |r|]
            && forall k :: 0 <= k < |s| && !(lo <= k < lo + |r|) ==> IsSpace(s[k])
    ensures r == "" || (!IsSpace(r[0]) && !IsSpace(r[|r| - 1]))
  {
    var lo := SkipSpace(s, 0);
    var hi := SkipSpaceBack(s, lo, |s|);
    s[lo..hi]
  }

  /** Stripping keeps only characters of the line. */
  lemma StripNoBoundary(s: string)
    ensures NoBoundary(s) ==> NoBoundary(Strip(s))
  {
    var r := Strip(s);
    var lo := SkipSpace(s, 0);
    forall k | 0 <= k < |r| && NoBoundary(s)
      ensures !IsLineBoundary(r[k])
    {
      assert r[k] == s[lo + k];
    }
  }

  /** `str.replace(c, "")`: every character of the result comes from `s`,
      and `c` never does. With `RemoveAppend` this fixes the result on every
      input (on a single character, it is that character unless it is `c`). */
  function Remove(s: string, c: char): (r: string)
    ensures c !in r
    ensures forall x :: x in r ==> x in s
    ensures c !in s ==> r == s
    ensures NoBoundary(s) ==> NoBoundary(r)
  {
    if s == "" then ""
    else (if s[0] == c then "" else [s[0]]) + Remove(s[1..], c)
  }

  /** Removal keeps order: it works on each part of a text separately. */
  lemma {:induction false} RemoveAppend(a: string, b: string, c: char)
    ensures Remove(a + b, c) == Remove(a, c) + Remove(b, c)
  {
    if a == "" {
      assert a + b == b;
    } else {
      assert (a + b)[0] == a[0];
      assert (a + b)[1..] == a[1..] + b;
      RemoveAppend(a[1..], b, c);
    }
  }

  lemma NoNewline(s: string)
    ensures NoBoundary(s) ==> '\n' !in s
  {
    forall i | 0 <= i < |s| && NoBoundary(s)
      ensures s[i] != '\n'
    {
      assert !IsLineBoundary(s[i]);
    }
  }

  lemma NoBoundaryAppend(a: string, b: string)
    ensures NoBoundary(a) && NoBoundary(b) ==> NoBoundary(a + b)
  {
    forall i | 0 <= i < |a + b| && NoBoundary(a) && NoBoundary(b)
      ensures !IsLineBoundary((a + b)[i])
    {
      if i >= |a| {
        assert (a + b)[i] == b[i - |a|];
      }
    }
  }

  /** What one iteration of `clean_command` appends for `line`. */
  function CleanLine(line: string): (r: string)
    ensures NoBoundary(line) ==> NoBoundary(r)
    ensures NoBoundary(line) ==>
              var t := Strip(line);
              r == if t != "" && t[|t| - 1] == ',' then t + " " else t
  {
    var t := Remove(Strip(line), '\n');
    StripNoBoundary(line);
    NoNewline(Strip(line));
    NoBoundaryAppend(t, " ");
    assert t + "" == t;
    t + if t != "" && t[|t| - 1] == ',' then " " else ""
  }

  /** The concatenation of `CleanLine` over `lines`, in order. */
  function Cleaned(lines: seq<string>): (r: string)
  {
    if lines == [] then ""
    else Cleaned(lines[..|lines| - 1]) + CleanLine(lines[|lines| - 1])
  }

  lemma CleanedSnoc(lines: seq<string>, n: nat)
    requires n < |lines|
    ensures Cleaned(lines[..n + 1]) == Cleaned(lines[..n]) + CleanLine(lines[n])
  {
    assert lines[..n + 1][..n] == lines[..n];
  }

  /** No line boundary survives cleaning the lines of a split. */
  lemma {:induction false} CleanedNoBoundary(lines: seq<string>)
    requires forall i :: 0 <= i < |lines| ==> NoBoundary(lines[i])
    ensures NoBoundary(Cleaned(lines))
  {
    if lines != [] {
      var init := lines[..|lines| - 1];
      CleanedNoBoundary(init);
      NoBoundaryAppend(Cleaned(init), CleanLine(lines[|lines| - 1]));
    }
  }

  /** `clean_command`: every line of `command` stripped, a space after each
      stripped line that ends in ",", all joined into one line. */
  method CleanCommand(command: string) returns (ret: string)
    ensures ret == Cleaned(SplitLines(command))
    ensures NoBoundary(ret) && '\n' !in ret
    ensures command == "" ==> ret == ""
  {
    var lines := SplitLines(command);
    ret := "";
    for n := 0 to |lines|
      invariant ret == Cleaned(lines[..n])
    {
      var line := Remove(Strip(lines[n]), '\n');
      line := line + if line != "" && line[|line| - 1] == ',' then " " else "";
      assert line == CleanLine(lines[n]);
      CleanedSnoc(lines, n);
      ret := ret + line;
    }
    assert lines[..|lines|] == lines;
    CleanedNoBoundary(lines);
    NoNewline(ret);
  }
}
