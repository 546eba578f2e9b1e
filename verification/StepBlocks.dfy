/** The step splitter of scripts/lint_skills.py. */
module StepBlocks {

  /** A SKILL.md line with what the two heading patterns make of it. */
  datatype Kind = Section(isSteps: bool) | Heading(title: string) | Other

  datatype Line = Line(text: string, kind: Kind)

  // ---------- the declarative reading ----------

  /** The line lies in a Steps section: the last section line at or before it opens one. */
  predicate InSteps(lines: seq<Line>, i: nat)
    requires i < |lines|
  {
    match lines[i].kind
    case Section(isSteps) => isSteps
    case _ => i > 0 && InSteps(lines, i - 1)
  }

  /** A step starts at its heading inside a Steps section. */
  predicate Starts(lines: seq<Line>, i: nat)
    requires i < |lines|
  {
    lines[i].kind.Heading? && InSteps(lines, i)
  }

  /** A section line or the start of a step ends the step before it. */
  predicate Ends(lines: seq<Line>, i: nat)
    requires i < |lines|
  {
    lines[i].kind.Section? || Starts(lines, i)
  }

  /** The lines from `s` up to but not including `e` are one step: it starts at `s`, and `e` is the
      first line behind it that ends it, or the end of the file. */
  ghost predicate IsStep(lines: seq<Line>, s: nat, e: nat) {
    && s < e <= |lines| && Starts(lines, s)
    && (forall i :: s < i < e ==> !Ends(lines, i))
    && (e < |lines| ==> Ends(lines, e))
  }

  function Texts(lines: seq<Line>): seq<string> {
    seq(|lines|, k requires 0 <= k < |lines| => lines[k].text)
  }

  // ---------- the splitter ----------

  /** One numbered step; line numbers are 1-based, the end exclusive. */
  class StepBlock {
    var startLine: nat
    var endLine: nat
    var title: string
    var bodyLines: seq<string>

    constructor (startLine: nat, endLine: nat, title: string, bodyLines: seq<string>)
      ensures this.startLine == startLine && this.endLine == endLine
      ensures this.title == title && this.bodyLines == bodyLines
    {
      this.startLine, this.endLine, this.title, this.bodyLines := startLine, endLine, title, bodyLines;
    }

    /** The block is the step from `startLine` to `endLine`, with exactly its lines. */
    ghost predicate Holds(lines: seq<Line>)
      reads this
    {
      && startLine > 0 && endLine > 0
      && IsStep(lines, startLine - 1, endLine - 1)
      && title == lines[startLine - 1].kind.title
      && bodyLines == Texts(lines[startLine - 1..endLine - 1])
    }

    /** The block is open: its step runs at least up to `i`. */
    ghost predicate Open(lines: seq<Line>, i: nat)
      reads this
    {
      && 0 < startLine <= i <= |lines| && endLine == |lines| + 1
      && Starts(lines, startLine - 1)
      && (forall j :: startLine <= j < i ==> !Ends(lines, j))
      && title == lines[startLine - 1].kind.title
      && bodyLines == Texts(lines[startLine - 1..i])
    }

    /** Take one more line of the step. */
    method Append(lines: seq<Line>, i: nat)
      requires i < |lines| && Open(lines, i) && !Ends(lines, i)
      modifies this`bodyLines
      ensures Open(lines, i + 1)
    {
      assert lines[startLine - 1..i + 1] == lines[startLine - 1..i] + [lines[i]];
      bodyLines := bodyLines + [lines[i].text];
    }

    /** The step ends in front of line `i`. */
    method EndAt(lines: seq<Line>, i: nat)
      requires Open(lines, i) && (i < |lines| ==> Ends(lines, i))
      modifies this`endLine
      ensures endLine == i + 1 && Holds(lines)
    {
      endLine := i + 1;
    }
  }

  /** The indices in front of `i` at which a step starts, ascending. */
  function StartsBefore(lines: seq<Line>, i: nat): seq<nat>
    requires i <= |lines|
  {
    if i == 0 then []
    else StartsBefore(lines, i - 1) + if Starts(lines, i - 1) then [i - 1] else []
  }

  /** Every block is the whole step at its start. */
  ghost predicate AllHold(lines: seq<Line>, blocks: seq<StepBlock>, starts: seq<nat>)
    reads blocks
  {
    |blocks| == |starts| && forall k :: 0 <= k < |blocks| ==> blocks[k].Holds(lines) && blocks[k].startLine == starts[k] + 1
  }

  lemma AllHoldOneMore(lines: seq<Line>, blocks: seq<StepBlock>, starts: seq<nat>, b: StepBlock, s: nat)
    requires AllHold(lines, blocks, starts) && b.Holds(lines) && b.startLine == s + 1
    ensures AllHold(lines, blocks + [b], starts + [s])
  {
  }

  class Splitter {
    const lines: seq<Line>
    var blocks: seq<StepBlock>
    var current: StepBlock?
    var inSteps: bool

    constructor (lines: seq<Line>)
      ensures this.lines == lines && blocks == [] && current == null && !inSteps
    {
      this.lines, blocks, current, inSteps := lines, [], null, false;
    }

    /** After `i` lines: the closed blocks, and the open one if a step is running. */
    ghost predicate Read(i: nat)
      reads this, blocks, if current == null then {} else {current}
    {
      && i <= |lines|
      && inSteps == (i > 0 && InSteps(lines, i - 1))
      && (if current == null then AllHold(lines, blocks, StartsBefore(lines, i))
          else
            && inSteps && current !in blocks && current.Open(lines, i)
            && StartsBefore(lines, i) != []
            && AllHold(lines, blocks, Front(StartsBefore(lines, i)))
            && current.startLine == StartsBefore(lines, i)[|StartsBefore(lines, i)| - 1] + 1)
    }

    /** Close the open block in front of line `i`, which ends its step. */
    method Close(i: nat)
      requires Read(i) && (i < |lines| ==> Ends(lines, i))
      modifies this`blocks, this`current, if current == null then {} else {current}
      ensures current == null && inSteps == old(inSteps)
      ensures AllHold(lines, blocks, StartsBefore(lines, i))
    {
      if current != null {
        ghost var starts := StartsBefore(lines, i);
        current.EndAt(lines, i);
        assert AllHold(lines, blocks, Front(starts));
        AllHoldOneMore(lines, blocks, Front(starts), current, starts[|starts| - 1]);
        blocks := blocks + [current];
        assert starts == Front(starts) + [starts[|starts| - 1]];
        current := null;
      }
    }

    /** One line of the input. */
    method Take(i: nat)
      requires i < |lines| && Read(i)
      modifies this, if current == null then {} else {current}
      ensures Read(i + 1)
      ensures current == null || current == old(current) || fresh(current)
    {
      match lines[i].kind {
        case Section(isSteps) =>
          Close(i);
          inSteps := isSteps;
        case Heading(title) =>
          if inSteps {
            Close(i);
            StartBlock(i, title);
          }
        case Other =>
          if current != null {
            Extend(i);
          }
      }
    }

    method StartBlock(i: nat, title: string)
      requires i < |lines| && inSteps && Starts(lines, i) && title == lines[i].kind.title
      requires current == null && AllHold(lines, blocks, StartsBefore(lines, i))
      modifies this`current
      ensures Read(i + 1) && fresh(current)
    {
      current := new StepBlock(i + 1, |lines| + 1, title, [lines[i].text]);
      assert lines[i..i + 1] == [lines[i]];
      assert Front(StartsBefore(lines, i + 1)) == StartsBefore(lines, i);
    }

    method Extend(i: nat)
      requires i < |lines| && Read(i) && current != null && lines[i].kind.Other?
      modifies current`bodyLines
      ensures Read(i + 1)
    {
      assert StartsBefore(lines, i + 1) == StartsBefore(lines, i);
      current.Append(lines, i);
    }
  }

  function Front(s: seq<nat>): seq<nat>
    requires s != []
  {
    s[..|s| - 1]
  }

  /** `_split_into_steps`: one block for every start of a step, in order, each with exactly the lines
      of its step. */
  method SplitIntoSteps(lines: seq<Line>) returns (blocks: seq<StepBlock>)
    ensures AllHold(lines, blocks, StartsBefore(lines, |lines|))
  {
    var s := new Splitter(lines);
    for i := 0 to |lines|
      invariant s.lines == lines && s.Read(i)
      invariant s.current != null ==> fresh(s.current)
    {
      s.Take(i);
    }
    s.Close(|lines|);
    return s.blocks;
  }

  // ---------- what the reading promises ----------

  lemma {:induction false} StartsBeforeLists(lines: seq<Line>, i: nat)
    requires i <= |lines|
    ensures forall s :: s in StartsBefore(lines, i) <==> 0 <= s < i && Starts(lines, s)
    ensures forall j, k :: 0 <= j < k < |StartsBefore(lines, i)| ==> StartsBefore(lines, i)[j] < StartsBefore(lines, i)[k]
  {
    if i > 0 {
      StartsBeforeLists(lines, i - 1);
      var before := StartsBefore(lines, i - 1);
      forall k | 0 <= k < |before| ensures before[k] < i - 1 {
        assert before[k] in before;
      }
    }
  }

  /** Steps do not overlap, and a start has only one end. */
  lemma StepsAreDisjoint(lines: seq<Line>, s: nat, e: nat, s': nat, e': nat)
    requires IsStep(lines, s, e) && IsStep(lines, s', e')
    ensures s < s' ==> e <= s'
    ensures s == s' ==> e == e'
  {
    if s < s' {
      assert Ends(lines, s');
    }
  }

  lemma {:induction false} StepFrom(lines: seq<Line>, s: nat, i: nat) returns (e: nat)
    requires s < i <= |lines| && Starts(lines, s) && forall j :: s < j < i ==> !Ends(lines, j)
    ensures i <= e && IsStep(lines, s, e)
    decreases |lines| - i
  {
    if i == |lines| || Ends(lines, i) {
      e := i;
    } else {
      e := StepFrom(lines, s, i + 1);
    }
  }

  /** From the first step heading of a Steps section on, every line of the section lies in exactly
      one step. */
  lemma {:induction false} EveryLineInOneStep(lines: seq<Line>, first: nat, i: nat) returns (s: nat, e: nat)
    requires first <= i < |lines| && Starts(lines, first)
    requires forall j :: first < j <= i ==> !lines[j].kind.Section?
    ensures IsStep(lines, s, e) && s <= i < e
    ensures forall s': nat, e': nat :: IsStep(lines, s', e') && s' <= i < e' ==> s' == s && e' == e
  {
    if i == first || Starts(lines, i) {
      s := i;
      e := StepFrom(lines, i, i + 1);
    } else {
      s, e := EveryLineInOneStep(lines, first, i - 1);
      assert !Ends(lines, i);
    }
    forall s': nat, e': nat | IsStep(lines, s', e') && s' <= i < e' ensures s' == s && e' == e {
      StepsAreDisjoint(lines, s, e, s', e');
      StepsAreDisjoint(lines, s', e', s, e);
    }
  }
}
