/** Python's `strip`, `splitlines` and the newline join, on texts as character sequences. */
module Lines {

  predicate IsSpace(c: char) {
    || c == ' ' || '\t' <= c <= '\r' || '\U{1C}' <= c <= '\U{1F}' || c == '\U{85}' || c == '\U{A0}'
    || c == '\U{1680}' || '\U{2000}' <= c <= '\U{200A}' || c == '\U{2028}' || c == '\U{2029}'
    || c == '\U{202F}' || c == '\U{205F}' || c == '\U{3000}'
  }

  /** The characters `splitlines` ends a line at. */
  predicate IsBreak(c: char) {
    '\n' <= c <= '\r' || '\U{1C}' <= c <= '\U{1E}' || c == '\U{85}' || c == '\U{2028}' || c == '\U{2029}'
  }

  /** `strip` takes every line break away, and beside them the blanks inside a line. */
  lemma SpacesAndBreaks(c: char)
    ensures IsBreak(c)
       <==> c in {'\n', '\U{0B}', '\U{0C}', '\r', '\U{1C}', '\U{1D}', '\U{1E}', '\U{85}', '\U{2028}', '\U{2029}'}
    ensures IsBreak(c) ==> IsSpace(c)
    ensures IsSpace(c) && !IsBreak(c)
       <==> || c in {'\t', ' ', '\U{1F}', '\U{A0}', '\U{1680}', '\U{202F}', '\U{205F}', '\U{3000}'}
            || '\U{2000}' <= c <= '\U{200A}'
  {
  }

  function StripLeft(s: string): string {
    if s != "" && IsSpace(s[0]) then StripLeft(s[1..]) else s
  }

  function StripRight(s: string): string {
    if s != "" && IsSpace(s[|s| - 1]) then StripRight(s[..|s| - 1]) else s
  }

  /** `s.strip()` */
  function Strip(s: string): string {
    StripRight(StripLeft(s))
  }

  predicate OneLine(s: string) {
    forall k :: 0 <= k < |s| ==> !IsBreak(s[k])
  }

  /** Length of the text in front of the first line break. */
  function LineLength(s: string): (n: nat)
    ensures n <= |s| && OneLine(s[..n]) && (n < |s| ==> IsBreak(s[n]))
  {
    if s == "" || IsBreak(s[0]) then 0
    else
      var n := 1 + LineLength(s[1..]);
      assert forall k :: 1 <= k < n ==> s[k] == s[1..][k - 1];
      n
  }

  /** The index of the last character of the line break at `n`: of the LF in a CR LF. */
  function EndAt(s: string, n: nat): (end: nat)
    requires n < |s|
    ensures n <= end < |s|
  {
    if n + 1 < |s| && s[n] == '\r' && s[n + 1] == '\n' then n + 1 else n
  }

  /** `s.splitlines()` */
  function SplitLines(s: string): (lines: seq<string>)
    ensures forall k :: 0 <= k < |lines| ==> OneLine(lines[k])
  {
    if s == "" then []
    else if LineLength(s) == |s| then
      assert s[..|s|] == s;
      [s]
    else [s[..LineLength(s)]] + SplitLines(s[EndAt(s, LineLength(s)) + 1..])
  }

  /** Every line followed by a line feed; for a non-empty list this is `"\n".join(lines) + "\n"`. */
  function Unlines(lines: seq<string>): string {
    if lines == [] then "" else lines[0] + "\n" + Unlines(lines[1..])
  }

  lemma {:induction false} LineLengthIs(line: string, rest: string)
    requires OneLine(line)
    ensures LineLength(line + "\n" + rest) == |line|
  {
    if line == "" {
      assert (line + "\n" + rest)[0] == '\n';
    } else {
      assert (line + "\n" + rest)[1..] == line[1..] + "\n" + rest;
      LineLengthIs(line[1..], rest);
    }
  }

  /** Splitting undoes joining for any list of single lines. */
  lemma {:induction false} SplitUndoesUnlines(lines: seq<string>)
    requires forall k :: 0 <= k < |lines| ==> OneLine(lines[k])
    ensures SplitLines(Unlines(lines)) == lines
  {
    if lines != [] {
      var rest := Unlines(lines[1..]);
      var s := lines[0] + "\n" + rest;
      SplitUndoesUnlines(lines[1..]);
      LineLengthIs(lines[0], rest);
      assert s[..|lines[0]|] == lines[0];
      assert s[|lines[0]|] == '\n';
      assert s[|lines[0]| + 1..] == rest;
    }
  }

  // ---------- lines that end with LF or CR LF only ----------

  function LfIndex(s: string): (n: nat)
    ensures n <= |s| && (forall k :: 0 <= k < n ==> s[k] != '\n') && (n < |s| ==> s[n] == '\n')
  {
    if s == "" || s[0] == '\n' then 0
    else
      var n := 1 + LfIndex(s[1..]);
      assert forall k :: 1 <= k < n ==> s[k] == s[1..][k - 1];
      n
  }

  function DropReturn(s: string): string {
    if s != "" && s[|s| - 1] == '\r' then s[..|s| - 1] else s
  }

  /** The lines of a text as TOML has them: a line ends at LF or CR LF and nowhere else. */
  function TomlLines(s: string): seq<string> {
    if s == "" then []
    else
      var n := LfIndex(s);
      if n == |s| then [s] else [DropReturn(s[..n])] + TomlLines(s[n + 1..])
  }

  /** The character at `k` is a line break of `splitlines`, but no LF and not in front of one. */
  predicate OddBreakAt(s: string, k: nat)
    requires k < |s|
  {
    IsBreak(s[k]) && s[k] != '\n' && !(s[k] == '\r' && k + 1 < |s| && s[k + 1] == '\n')
  }

  predicate LineEndsOnly(s: string) {
    forall k :: 0 <= k < |s| ==> !OddBreakAt(s, k)
  }

  lemma LineEndsBehind(s: string, n: nat)
    requires LineEndsOnly(s) && n <= |s|
    ensures LineEndsOnly(s[n..])
  {
    forall k | 0 <= k < |s| - n ensures !OddBreakAt(s[n..], k) {
      assert !OddBreakAt(s, n + k);
    }
  }

  lemma LfIndexIs(s: string, n: nat)
    requires n <= |s| && (forall k :: 0 <= k < n ==> s[k] != '\n') && (n < |s| ==> s[n] == '\n')
    ensures LfIndex(s) == n
  {
  }

  lemma TomlStep(s: string, end: nat)
    requires end < |s| && s[end] == '\n' && forall k :: 0 <= k < end ==> s[k] != '\n'
    ensures TomlLines(s) == [DropReturn(s[..end])] + TomlLines(s[end + 1..])
  {
    LfIndexIs(s, end);
  }

  lemma NoReturnInLine(line: string)
    requires OneLine(line)
    ensures DropReturn(line) == line && DropReturn(line + "\r") == line
  {
    assert (line + "\r")[..|line|] == line;
  }

  /** The first line break of such a text, seen by both readings. */
  lemma FirstBreak(s: string, n: nat)
    requires n < |s| && LineEndsOnly(s) && OneLine(s[..n]) && IsBreak(s[n])
    ensures forall k :: 0 <= k < n ==> s[k] != '\n' && s[k] != '\r'
    ensures s[n] == '\n' || (s[n] == '\r' && n + 1 < |s| && s[n + 1] == '\n' && s[..n + 1] == s[..n] + "\r")
  {
    assert !OddBreakAt(s, n);
    forall k | 0 <= k < n ensures s[k] != '\n' && s[k] != '\r' { assert s[..n][k] == s[k]; }
  }

  lemma OneLineSplits(s: string)
    requires s != "" && LineLength(s) == |s|
    ensures SplitLines(s) == [s] == TomlLines(s)
  {
    assert s[..|s|] == s;
    LfIndexIs(s, |s|);
  }

  lemma FirstEnd(s: string, n: nat)
    requires n < |s| && LineEndsOnly(s) && OneLine(s[..n]) && IsBreak(s[n])
    ensures s[EndAt(s, n)] == '\n' && forall k :: 0 <= k < EndAt(s, n) ==> s[k] != '\n'
    ensures DropReturn(s[..EndAt(s, n)]) == s[..n]
  {
    FirstBreak(s, n);
    NoReturnInLine(s[..n]);
  }

  /** Both readings take the same first line and go on behind it. */
  lemma BothStep(s: string) returns (first: string, rest: string)
    requires LineEndsOnly(s) && LineLength(s) < |s|
    ensures |rest| < |s| && LineEndsOnly(rest)
    ensures SplitLines(s) == [first] + SplitLines(rest)
    ensures TomlLines(s) == [first] + TomlLines(rest)
  {
    var n := LineLength(s);
    var end := EndAt(s, n);
    first, rest := s[..n], s[end + 1..];
    FirstEnd(s, n);
    TomlStep(s, end);
    LineEndsBehind(s, end + 1);
  }

  lemma {:induction false} SplitIsToml(s: string)
    requires LineEndsOnly(s)
    ensures SplitLines(s) == TomlLines(s)
    decreases |s|
  {
    if s != "" && LineLength(s) == |s| {
      OneLineSplits(s);
    } else if s != "" {
      var first, rest := BothStep(s);
      SplitIsToml(rest);
    }
  }

  lemma OddBreakStays(s: string, n: nat, k: nat)
    requires k < n < |s| && s[n] == '\n' && OddBreakAt(s, k)
    ensures !OneLine(DropReturn(s[..n]))
  {
    assert s[..n][k] == s[k];
    assert k == n - 1 ==> s[k] != '\r';
    assert DropReturn(s[..n])[k] == s[k];
  }

  predicate SomeBroken(lines: seq<string>) {
    exists j :: 0 <= j < |lines| && !OneLine(lines[j])
  }

  lemma BrokenBehind(first: string, lines: seq<string>)
    requires !OneLine(first) || SomeBroken(lines)
    ensures SomeBroken([first] + lines)
  {
    if OneLine(first) {
      var j :| 0 <= j < |lines| && !OneLine(lines[j]);
      assert ([first] + lines)[j + 1] == lines[j];
    } else {
      assert ([first] + lines)[0] == first;
    }
  }

  lemma {:induction false} OddBreakInSomeLine(s: string, k: nat)
    requires k < |s| && OddBreakAt(s, k)
    ensures SomeBroken(TomlLines(s))
  {
    var n := LfIndex(s);
    if n == |s| {
      assert TomlLines(s) == [s] + [];
      BrokenBehind(s, []);
    } else {
      TomlStep(s, n);
      if k < n {
        OddBreakStays(s, n, k);
      } else {
        assert OddBreakAt(s[n + 1..], k - n - 1);
        OddBreakInSomeLine(s[n + 1..], k - n - 1);
      }
      BrokenBehind(DropReturn(s[..n]), TomlLines(s[n + 1..]));
    }
  }

  /** `splitlines` finds the lines of a TOML text exactly when the text holds no other line break. */
  lemma LinesSurviveExactly(s: string)
    ensures SplitLines(s) == TomlLines(s) <==> LineEndsOnly(s)
  {
    if LineEndsOnly(s) {
      SplitIsToml(s);
    } else {
      var k :| 0 <= k < |s| && OddBreakAt(s, k);
      OddBreakInSomeLine(s, k);
    }
  }

  lemma {:induction false} UnlinesLineEnds(lines: seq<string>)
    requires forall k :: 0 <= k < |lines| ==> OneLine(lines[k])
    ensures LineEndsOnly(Unlines(lines))
  {
    if lines != [] {
      UnlinesLineEnds(lines[1..]);
      var first, rest := lines[0] + "\n", Unlines(lines[1..]);
      forall k | 0 <= k < |first + rest| ensures !OddBreakAt(first + rest, k) {
        if k >= |first| { assert !OddBreakAt(rest, k - |first|); }
      }
    }
  }

  /** Joined single lines are read back as they are. */
  lemma UnlinesIsToml(lines: seq<string>)
    requires forall k :: 0 <= k < |lines| ==> OneLine(lines[k])
    ensures LineEndsOnly(Unlines(lines)) && TomlLines(Unlines(lines)) == lines
  {
    UnlinesLineEnds(lines);
    SplitIsToml(Unlines(lines));
    SplitUndoesUnlines(lines);
  }

  lemma {:induction false} LineLengthUpTo(line: string, brk: char, rest: string)
    requires OneLine(line) && IsBreak(brk)
    ensures LineLength(line + [brk] + rest) == |line|
  {
    if line == "" {
      assert (line + [brk] + rest)[0] == brk;
    } else {
      assert (line + [brk] + rest)[1..] == line[1..] + [brk] + rest;
      LineLengthUpTo(line[1..], brk, rest);
    }
  }

  lemma SplitAtBreak(line: string, brk: char, rest: string)
    requires OneLine(line) && IsBreak(brk) && brk != '\r'
    ensures SplitLines(line + [brk] + rest) == [line] + SplitLines(rest)
  {
    var s := line + [brk] + rest;
    LineLengthUpTo(line, brk, rest);
    assert s[..|line|] == line && s[|line|..][0] == brk && s[|line| + 1..] == rest;
  }

  lemma BreaksTwice(text: string, a: string, brk: char, b: string)
    requires OneLine(a) && OneLine(b) && IsBreak(brk) && brk != '\r' && text == a + [brk] + (b + "\n")
    ensures SplitLines(text) == [a, b]
  {
    SplitAtBreak(a, brk, b + "\n");
    assert b + "\n" == b + ['\n'] + "";
    SplitAtBreak(b, '\n', "");
  }

  /** A line separator inside a comment: its tail becomes a line of its own. */
  lemma SeparatorBreaksComment(text: string)
    requires text == "#\U{2028}b\n"
    ensures TomlLines(text) == ["#\U{2028}b"] && SplitLines(text) == ["#", "b"]
  {
    var line := "#\U{2028}b";
    TomlStep(text, 3);
    assert text[..3] == line && text[4..] == "" && DropReturn(line) == line;
    BreaksTwice(text, "#", '\U{2028}', "b");
  }

  /** A non-space first character behind leading spaces opens the stripped text. */
  lemma {:induction false} StripOpensWith(pad: string, s: string)
    requires s != "" && !IsSpace(s[0])
    requires forall k :: 0 <= k < |pad| ==> IsSpace(pad[k])
    ensures Strip(pad + s) != "" && Strip(pad + s)[0] == s[0]
  {
    StripLeftPad(pad, s);
    StripRightKeepsHead(s);
  }

  lemma {:induction false} StripLeftPad(pad: string, s: string)
    requires s != "" && !IsSpace(s[0])
    requires forall k :: 0 <= k < |pad| ==> IsSpace(pad[k])
    ensures StripLeft(pad + s) == s
    decreases |pad|
  {
    if pad == "" {
      assert pad + s == s;
    } else {
      assert (pad + s)[1..] == pad[1..] + s;
      StripLeftPad(pad[1..], s);
    }
  }

  lemma {:induction false} StripRightKeepsHead(s: string)
    requires s != "" && !IsSpace(s[0])
    ensures StripRight(s) != "" && StripRight(s)[0] == s[0]
  {
    if IsSpace(s[|s| - 1]) {
      StripRightKeepsHead(s[..|s| - 1]);
    }
  }

  lemma StripKeeps(s: string)
    requires s != "" && !IsSpace(s[0]) && !IsSpace(s[|s| - 1])
    ensures Strip(s) == s
  {
  }

  // ---------- what `strip` leaves ----------

  predicate AllSpace(s: string) {
    forall k :: 0 <= k < |s| ==> IsSpace(s[k])
  }

  lemma SpaceJoins(a: string, b: string)
    requires AllSpace(a) && AllSpace(b)
    ensures AllSpace(a + b)
  {
  }

  lemma {:induction false} StripLeftCuts(s: string) returns (pad: string)
    ensures s == pad + StripLeft(s) && AllSpace(pad)
    ensures StripLeft(s) != "" ==> !IsSpace(StripLeft(s)[0])
  {
    if s != "" && IsSpace(s[0]) {
      var head, tail := [s[0]], s[1..];
      var rest := StripLeftCuts(tail);
      pad := head + rest;
      SpaceJoins(head, rest);
      assert s == head + tail && StripLeft(s) == StripLeft(tail);
      assert head + (rest + StripLeft(tail)) == pad + StripLeft(tail);
    } else {
      pad := "";
    }
  }

  lemma {:induction false} StripRightCuts(s: string) returns (pad: string)
    ensures s == StripRight(s) + pad && AllSpace(pad)
    ensures StripRight(s) != "" ==> !IsSpace(StripRight(s)[|StripRight(s)| - 1])
  {
    if s != "" && IsSpace(s[|s| - 1]) {
      var front, last := s[..|s| - 1], [s[|s| - 1]];
      var rest := StripRightCuts(front);
      pad := rest + last;
      SpaceJoins(rest, last);
      assert s == front + last && StripRight(s) == StripRight(front);
      assert (StripRight(front) + rest) + last == StripRight(front) + pad;
    } else {
      pad := "";
    }
  }

  /** Stripping takes white space off both ends, nothing else, and leaves none there. */
  lemma StripCuts(s: string) returns (before: string, behind: string)
    ensures s == before + Strip(s) + behind && AllSpace(before) && AllSpace(behind)
    ensures Strip(s) != "" ==> !IsSpace(Strip(s)[0]) && !IsSpace(Strip(s)[|Strip(s)| - 1])
  {
    before := StripLeftCuts(s);
    behind := StripRightCuts(StripLeft(s));
    assert before + (Strip(s) + behind) == before + Strip(s) + behind;
    if Strip(s) != "" { StripRightKeepsHead(StripLeft(s)); }
  }
}
