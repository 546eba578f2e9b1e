/** The `[tool.mutmut]` array rewriter of scripts/run_mutation.py. */
module ArrayRewrite {
  import opened Text
  import opened Lines

  const TABLE: string := "[tool.mutmut]"

  datatype Error = KeyAbsent

  predicate IsHeader(line: string) {
    var s := Strip(line);
    s != "" && s[0] == '[' && s[|s| - 1] == ']'
  }

  /** Whether the scan is inside the mutmut table after looking at `line`. */
  predicate InTable(line: string, on: bool) {
    if IsHeader(line) then Strip(line) == TABLE else on
  }

  predicate Opens(line: string, key: string) {
    key <= Strip(line)
  }

  /** Number of lines the skip consumes: up to and with the first one that holds ']'. */
  function ArrayLength(lines: seq<string>): (n: nat)
    ensures n <= |lines| && (lines != [] ==> n > 0)
    ensures forall k :: 0 <= k < n - 1 ==> ']' !in lines[k]
    ensures 0 < n < |lines| ==> ']' in lines[n - 1]
  {
    if lines == [] then 0
    else if ']' in lines[0] then 1
    else 1 + ArrayLength(lines[1..])
  }

  function Rewrite(lines: seq<string>, key: string, block: seq<string>, on: bool): seq<string>
    decreases |lines|
  {
    if lines == [] then []
    else
      var on' := InTable(lines[0], on);
      if on' && Opens(lines[0], key) then block + Rewrite(lines[ArrayLength(lines)..], key, block, on')
      else [lines[0]] + Rewrite(lines[1..], key, block, on')
  }

  predicate Found(lines: seq<string>, key: string, on: bool)
    decreases |lines|
  {
    lines != [] &&
    var on' := InTable(lines[0], on);
    ((on' && Opens(lines[0], key)) || Found(lines[1..], key, on'))
  }

  function ValueLines(values: seq<string>): seq<string> {
    seq(|values|, k requires 0 <= k < |values| => "    \"" + values[k] + "\",")
  }

  function Block(key: string, values: seq<string>): seq<string> {
    [key + " = ["] + ValueLines(values) + ["]"]
  }

  /** The inner skip loop: move from the key's line behind the closing bracket (or to the end). */
  method SkipArray(lines: seq<string>, start: nat) returns (i: nat)
    requires start < |lines|
    ensures i == start + ArrayLength(lines[start..]) <= |lines|
    ensures lines[start..][ArrayLength(lines[start..])..] == lines[i..]
  {
    i := start;
    ghost var n := ArrayLength(lines[start..]);
    while i < |lines| && ']' !in lines[i]
      invariant start <= i <= |lines|
      invariant n == i - start + ArrayLength(lines[i..])
    {
      assert lines[i..][0] == lines[i] && lines[i..][1..] == lines[i + 1..];
      i := i + 1;
    }
    i := if i < |lines| then i + 1 else i;
  }

  lemma LineByLine(lines: seq<string>, i: nat, key: string, block: seq<string>, on: bool)
    requires i < |lines|
    ensures var on' := InTable(lines[i], on);
            if on' && Opens(lines[i], key) then
              && Found(lines[i..], key, on)
              && Rewrite(lines[i..], key, block, on)
                 == block + Rewrite(lines[i..][ArrayLength(lines[i..])..], key, block, on')
            else
              && (Found(lines[i..], key, on) <==> Found(lines[i + 1..], key, on'))
              && Rewrite(lines[i..], key, block, on) == [lines[i]] + Rewrite(lines[i + 1..], key, block, on')
  {
    assert lines[i..][0] == lines[i] && lines[i..][1..] == lines[i + 1..];
  }

  /** The line loop of `_replace_named_array`. */
  method ReplaceLines(lines: seq<string>, key: string, values: seq<string>) returns (r: Result<seq<string>, Error>)
    ensures r == if Found(lines, key, false) then Ok(Rewrite(lines, key, Block(key, values), false))
                 else Err(KeyAbsent)
  {
    var out: seq<string> := [];
    var inMutmut, replaced := false, false;
    var newBlock := Block(key, values);
    ghost var goal := Rewrite(lines, key, newBlock, false);
    var i: nat := 0;
    assert lines[0..] == lines;
    while i < |lines|
      invariant i <= |lines|
      invariant out + Rewrite(lines[i..], key, newBlock, inMutmut) == goal
      invariant if replaced then Found(lines, key, false)
                else Found(lines[i..], key, inMutmut) <==> Found(lines, key, false)
    {
      var line := lines[i];
      LineByLine(lines, i, key, newBlock, inMutmut);
      inMutmut := InTable(line, inMutmut);
      if inMutmut && Opens(line, key) {
        ghost var done := out;
        i := SkipArray(lines, i);
        out := out + newBlock;
        replaced := true;
        Associate(done, newBlock, Rewrite(lines[i..], key, newBlock, inMutmut));
      } else {
        ghost var done := out;
        out := out + [line];
        i := i + 1;
        Associate(done, [line], Rewrite(lines[i..], key, newBlock, inMutmut));
      }
    }
    if !replaced {
      return Err(KeyAbsent);
    }
    assert lines[i..] == [] && out + [] == out;
    return Ok(out);
  }

  // ---------- the scan's own segmentation, on which rewrites commute ----------

  /** A line the scan copies, or a stretch of lines it takes for the array of some key. */
  datatype Item = Line(text: string) | Array(key: string, body: seq<string>)

  function Body(item: Item): seq<string> {
    if item.Line? then [item.text] else item.body
  }

  function Flatten(items: seq<Item>): seq<string> {
    if items == [] then [] else Body(items[0]) + Flatten(items[1..])
  }

  /** Every stretch taken for `key` becomes the block, all else stays. */
  function Substitute(items: seq<Item>, key: string, block: seq<string>): seq<Item> {
    seq(|items|, k requires 0 <= k < |items| =>
      if items[k].Array? && items[k].key == key then Array(key, block) else items[k])
  }

  predicate HasArray(items: seq<Item>, key: string) {
    exists k :: 0 <= k < |items| && items[k].Array? && items[k].key == key
  }

  /** The line neither changes the table nor opens the key. */
  predicate Inert(line: string, key: string) {
    !IsHeader(line) && !Opens(line, key)
  }

  /** The body of an array value: only its last line holds ']', unless the text ends inside it. */
  predicate Delimited(body: seq<string>, atEnd: bool) {
    && body != []
    && (forall k :: 0 <= k < |body| - 1 ==> ']' !in body[k])
    && (atEnd || ']' in body[|body| - 1])
  }

  /** The items are the scan's segmentation of their text for `key`, in the table state `on`. */
  predicate ReadsFor(items: seq<Item>, key: string, on: bool)
    decreases |items|
  {
    items == [] ||
    match items[0]
    case Line(text) =>
      var on' := InTable(text, on);
      !(on' && Opens(text, key)) && ReadsFor(items[1..], key, on')
    case Array(k, body) =>
      if k == key then
        && Delimited(body, |items| == 1)
        && InTable(body[0], on) && Opens(body[0], key)
        && ReadsFor(items[1..], key, true)
      else
        (forall l :: 0 <= l < |body| ==> Inert(body[l], key)) && ReadsFor(items[1..], key, on)
  }

  /** Every list of lines has a segmentation for one key. */
  function Read(lines: seq<string>, key: string, on: bool): (items: seq<Item>)
    ensures ReadsFor(items, key, on) && Flatten(items) == lines
    ensures lines == [] ==> items == []
    decreases |lines|
  {
    if lines == [] then []
    else
      var on' := InTable(lines[0], on);
      if on' && Opens(lines[0], key) then
        var n := ArrayLength(lines);
        assert lines == lines[..n] + lines[n..];
        [Array(key, lines[..n])] + Read(lines[n..], key, true)
      else
        assert lines == [lines[0]] + lines[1..];
        [Line(lines[0])] + Read(lines[1..], key, on')
  }

  lemma {:induction false} ArrayLengthIs(body: seq<string>, rest: seq<string>)
    requires Delimited(body, rest == [])
    ensures ArrayLength(body + rest) == |body|
  {
    var s := body + rest;
    assert s[0] == body[0];
    if |body| > 1 {
      assert s[1..] == body[1..] + rest;
      ArrayLengthIs(body[1..], rest);
    } else {
      assert rest == [] ==> s[1..] == [];
    }
  }

  lemma {:induction false} RewriteKeepsInert(body: seq<string>, rest: seq<string>, key: string, block: seq<string>, on: bool)
    requires forall l :: 0 <= l < |body| ==> Inert(body[l], key)
    ensures Rewrite(body + rest, key, block, on) == body + Rewrite(rest, key, block, on)
    ensures Found(body + rest, key, on) == Found(rest, key, on)
    decreases |body|
  {
    if body == [] {
      assert body + rest == rest;
    } else {
      var s := body + rest;
      assert s[0] == body[0] && s[1..] == body[1..] + rest;
      RewriteKeepsInert(body[1..], rest, key, block, on);
      assert [body[0]] + body[1..] == body;
      Associate([body[0]], body[1..], Rewrite(rest, key, block, on));
    }
  }

  lemma SubstituteHead(items: seq<Item>, key: string, block: seq<string>)
    requires items != []
    ensures Substitute(items, key, block)[1..] == Substitute(items[1..], key, block)
    ensures HasArray(items, key) <==> ((items[0].Array? && items[0].key == key) || HasArray(items[1..], key))
  {
    if HasArray(items, key) {
      var k :| 0 <= k < |items| && items[k].Array? && items[k].key == key;
      assert k > 0 ==> items[1..][k - 1] == items[k];
    }
    if k :| 0 <= k < |items| - 1 && items[1..][k].Array? && items[1..][k].key == key {
      assert items[k + 1] == items[1..][k];
    }
  }

  /** The scan substitutes the block for its own stretches and keeps the other lines, in order. */
  lemma {:induction false} RewriteReplacesArrays(items: seq<Item>, key: string, block: seq<string>, on: bool)
    requires ReadsFor(items, key, on)
    ensures Rewrite(Flatten(items), key, block, on) == Flatten(Substitute(items, key, block))
    ensures Found(Flatten(items), key, on) <==> HasArray(items, key)
    decreases |items|
  {
    if items != [] {
      var rest := Flatten(items[1..]);
      var lines := Flatten(items);
      SubstituteHead(items, key, block);
      match items[0]
      case Line(text) =>
        RewriteReplacesArrays(items[1..], key, block, InTable(text, on));
        assert lines[0] == text && lines[1..] == rest;
      case Array(k, body) =>
        if k == key {
          RewriteReplacesArrays(items[1..], key, block, true);
          assert |items| == 1 ==> rest == [];
          ArrayLengthIs(body, rest);
          assert lines[0] == body[0] && lines[|body|..] == rest;
        } else {
          RewriteReplacesArrays(items[1..], key, block, on);
          RewriteKeepsInert(body, rest, key, block, on);
        }
    }
  }

  // ---------- keys, blocks and repeated rewrites ----------

  /** A TOML bare key. */
  predicate BareKey(key: string) {
    key != "" && forall k :: 0 <= k < |key| ==>
      'a' <= key[k] <= 'z' || 'A' <= key[k] <= 'Z' || '0' <= key[k] <= '9' || key[k] == '_' || key[k] == '-'
  }

  /** No value holds the bracket the skip loop stops at. */
  predicate BracketFree(values: seq<string>) {
    forall k :: 0 <= k < |values| ==> ']' !in values[k]
  }

  lemma BlockLineKinds(key: string, values: seq<string>)
    requires BareKey(key)
    ensures Opens(key + " = [", key) && !IsHeader(key + " = [") && ']' !in key + " = ["
    ensures forall other, l :: BareKey(other) && 0 < l < |Block(key, values)| ==> Inert(Block(key, values)[l], other)
    ensures forall other :: BareKey(other) && !(other <= key) ==> Inert(key + " = [", other)
  {
    StripKeeps(key + " = [");
    forall other, l | BareKey(other) && 0 < l < |Block(key, values)| ensures Inert(Block(key, values)[l], other) {
      var line := Block(key, values)[l];
      if l == |values| + 1 {
        StripKeeps("]");
      } else {
        StripOpensWith("    ", "\"" + values[l - 1] + "\",");
        assert line == "    " + ("\"" + values[l - 1] + "\",");
      }
    }
    forall other | BareKey(other) && !(other <= key) ensures Inert(key + " = [", other) {
      PrefixOfAssignment(other, key);
    }
  }

  lemma PrefixOfAssignment(other: string, key: string)
    requires BareKey(other)
    ensures other <= key + " = [" ==> other <= key
  {
    if |other| > |key| {
      assert other[|key|] != (key + " = [")[|key|];
    }
  }

  /** What a second rewrite of the same key leaves behind of the first one's block. */
  function Leftover(key: string, values: seq<string>): seq<string> {
    Block(key, values)[ArrayLength(Block(key, values))..]
  }

  lemma LeftoverExactly(key: string, values: seq<string>)
    requires BareKey(key)
    ensures Leftover(key, values) == [] <==> BracketFree(values)
  {
    var block := Block(key, values);
    var n := ArrayLength(block);
    assert forall k :: 0 <= k < |values| ==> block[k + 1] == "    \"" + values[k] + "\",";
    if n < |block| {
      assert ']' in block[n - 1];
      BlockLineKinds(key, values);
      assert ']' in values[n - 2];
    } else {
      forall k | 0 <= k < |values| ensures ']' !in values[k] {
        var c := "    \"" + values[k] + "\",";
        assert block[k + 1] == c && ']' !in c;
        forall j | 0 <= j < |values[k]| ensures values[k][j] != ']' {
          assert c[j + 5] == values[k][j];
        }
      }
    }
  }

  lemma {:induction false} ArrayLengthOfPrefix(block: seq<string>, rest: seq<string>)
    requires block != [] && ']' in block[|block| - 1]
    ensures ArrayLength(block + rest) == ArrayLength(block)
  {
    assert (block + rest)[0] == block[0];
    if ']' !in block[0] {
      assert (block + rest)[1..] == block[1..] + rest;
      ArrayLengthOfPrefix(block[1..], rest);
    }
  }

  lemma OpeningLineIsNoHeader(line: string, key: string)
    requires BareKey(key) && Opens(line, key)
    ensures !IsHeader(line)
  {
    assert Strip(line)[0] == key[0];
  }

  lemma RewriteBlock(key: string, values: seq<string>, rest: seq<string>, block: seq<string>)
    requires BareKey(key)
    ensures Rewrite(Block(key, values) + rest, key, block, true)
         == block + Leftover(key, values) + Rewrite(rest, key, block, true)
  {
    var first := Block(key, values);
    var lines := first + rest;
    BlockLineKinds(key, values);
    assert first[|first| - 1] == "]";
    ArrayLengthOfPrefix(first, rest);
    assert lines[0] == first[0] == key + " = [";
    DropInFirst(first, rest, ArrayLength(first));
    LeftoverIsInert(key, values);
    RewriteKeepsInert(Leftover(key, values), rest, key, block, true);
    Associate(block, Leftover(key, values), Rewrite(rest, key, block, true));
  }

  lemma DropInFirst<T>(a: seq<T>, b: seq<T>, n: nat)
    requires n <= |a|
    ensures (a + b)[n..] == a[n..] + b
  {
  }

  lemma LeftoverIsInert(key: string, values: seq<string>)
    requires BareKey(key)
    ensures forall l :: 0 <= l < |Leftover(key, values)| ==> Inert(Leftover(key, values)[l], key)
  {
    var first := Block(key, values);
    var n := ArrayLength(first);
    BlockLineKinds(key, values);
    forall l | 0 <= l < |Leftover(key, values)| ensures Inert(Leftover(key, values)[l], key) {
      assert Leftover(key, values)[l] == first[n + l];
    }
  }

  /** A second rewrite of a key acts as one rewrite whose block drags the leftover along. */
  lemma {:induction false} RewriteTwice(lines: seq<string>, key: string, values: seq<string>, block: seq<string>, on: bool)
    requires BareKey(key)
    ensures Rewrite(Rewrite(lines, key, Block(key, values), on), key, block, on)
         == Rewrite(lines, key, block + Leftover(key, values), on)
    ensures Found(Rewrite(lines, key, Block(key, values), on), key, on) == Found(lines, key, on)
    decreases |lines|
  {
    if lines != [] {
      var first := Block(key, values);
      var on' := InTable(lines[0], on);
      if on' && Opens(lines[0], key) {
        var rest := lines[ArrayLength(lines)..];
        var tail := Rewrite(rest, key, first, on');
        OpeningLineIsNoHeader(lines[0], key);
        RewriteTwice(rest, key, values, block, on');
        RewriteBlock(key, values, tail, block);
        BlockLineKinds(key, values);
        assert (first + tail)[0] == key + " = [";
      } else {
        var tail := Rewrite(lines[1..], key, first, on');
        RewriteTwice(lines[1..], key, values, block, on');
        assert ([lines[0]] + tail)[0] == lines[0] && ([lines[0]] + tail)[1..] == tail;
      }
    }
  }

  lemma {:induction false} LongerBlock(lines: seq<string>, key: string, block: seq<string>, extra: seq<string>, on: bool)
    ensures |Rewrite(lines, key, block + extra, on)| >= |Rewrite(lines, key, block, on)|
    ensures Found(lines, key, on) && extra != [] ==>
              |Rewrite(lines, key, block + extra, on)| > |Rewrite(lines, key, block, on)|
    decreases |lines|
  {
    if lines != [] {
      var on' := InTable(lines[0], on);
      if on' && Opens(lines[0], key) {
        LongerBlock(lines[ArrayLength(lines)..], key, block, extra, on');
      } else {
        LongerBlock(lines[1..], key, block, extra, on');
      }
    }
  }

  /** Last write wins for a key exactly when the first values hold no ']'; taking the same values
      twice, this is idempotence. Nothing is asked of the document. */
  lemma LastWriteWins(lines: seq<string>, key: string, first: seq<string>, second: seq<string>)
    requires BareKey(key) && Found(lines, key, false)
    ensures Found(Rewrite(lines, key, Block(key, first), false), key, false)
    ensures Rewrite(Rewrite(lines, key, Block(key, first), false), key, Block(key, second), false)
         == Rewrite(lines, key, Block(key, second), false)
       <==> BracketFree(first)
  {
    RewriteTwice(lines, key, first, Block(key, second), false);
    LeftoverExactly(key, first);
    LongerBlock(lines, key, Block(key, second), Leftover(key, first), false);
    assert Block(key, second) + [] == Block(key, second);
  }

  lemma {:induction false} SubstituteKeepsReading(items: seq<Item>, key: string, values: seq<string>, other: string, on: bool)
    requires BareKey(key) && BareKey(other) && key != other && !(other <= key)
    requires ReadsFor(items, other, on)
    ensures ReadsFor(Substitute(items, key, Block(key, values)), other, on)
    ensures HasArray(Substitute(items, key, Block(key, values)), other) == HasArray(items, other)
    decreases |items|
  {
    if items != [] {
      var out := Substitute(items, key, Block(key, values));
      SubstituteHead(items, key, Block(key, values));
      SubstituteHead(items, other, []);
      SubstituteHead(out, other, []);
      BlockLineKinds(key, values);
      match items[0]
      case Line(text) =>
        SubstituteKeepsReading(items[1..], key, values, other, InTable(text, on));
      case Array(k, body) =>
        SubstituteKeepsReading(items[1..], key, values, other, if k == other then true else on);
    }
  }

  /** Rewrites of two keys commute on every text with a common segmentation: no line of one stretch
      is a table header or opens the other key. The values are free. */
  lemma RewritesCommute(items: seq<Item>, k1: string, v1: seq<string>, k2: string, v2: seq<string>)
    requires BareKey(k1) && BareKey(k2) && !(k1 <= k2) && !(k2 <= k1)
    requires ReadsFor(items, k1, false) && ReadsFor(items, k2, false)
    ensures Rewrite(Rewrite(Flatten(items), k1, Block(k1, v1), false), k2, Block(k2, v2), false)
         == Rewrite(Rewrite(Flatten(items), k2, Block(k2, v2), false), k1, Block(k1, v1), false)
         == Flatten(Substitute(Substitute(items, k1, Block(k1, v1)), k2, Block(k2, v2)))
  {
    RewriteBoth(items, k1, v1, k2, v2);
    RewriteBoth(items, k2, v2, k1, v1);
    SubstitutesCommute(items, k1, Block(k1, v1), k2, Block(k2, v2));
  }

  lemma RewriteBoth(items: seq<Item>, k1: string, v1: seq<string>, k2: string, v2: seq<string>)
    requires BareKey(k1) && BareKey(k2) && k1 != k2 && !(k2 <= k1)
    requires ReadsFor(items, k1, false) && ReadsFor(items, k2, false)
    ensures Rewrite(Rewrite(Flatten(items), k1, Block(k1, v1), false), k2, Block(k2, v2), false)
         == Flatten(Substitute(Substitute(items, k1, Block(k1, v1)), k2, Block(k2, v2)))
  {
    RewriteReplacesArrays(items, k1, Block(k1, v1), false);
    SubstituteKeepsReading(items, k1, v1, k2, false);
    RewriteReplacesArrays(Substitute(items, k1, Block(k1, v1)), k2, Block(k2, v2), false);
  }

  lemma SubstitutesCommute(items: seq<Item>, k1: string, b1: seq<string>, k2: string, b2: seq<string>)
    requires k1 != k2
    ensures Substitute(Substitute(items, k1, b1), k2, b2) == Substitute(Substitute(items, k2, b2), k1, b1)
  {
  }

  // ---------- whole texts ----------

  predicate OneLineEach(lines: seq<string>) {
    forall k :: 0 <= k < |lines| ==> OneLine(lines[k])
  }

  function ReplaceText(text: string, key: string, values: seq<string>): Result<string, Error> {
    var lines := SplitLines(text);
    if Found(lines, key, false) then Ok(Unlines(Rewrite(lines, key, Block(key, values), false)))
    else Err(KeyAbsent)
  }

  /** `_replace_named_array` */
  method ReplaceNamedArray(text: string, key: string, values: seq<string>) returns (r: Result<string, Error>)
    ensures r == ReplaceText(text, key, values)
  {
    var lines := ReplaceLines(SplitLines(text), key, values);
    return match lines case Ok(out) => Ok(Unlines(out)) case Err(e) => Err(e);
  }

  lemma {:induction false} RewriteKeepsOneLine(lines: seq<string>, key: string, block: seq<string>, on: bool)
    requires OneLineEach(lines) && OneLineEach(block)
    ensures OneLineEach(Rewrite(lines, key, block, on))
    decreases |lines|
  {
    if lines != [] {
      var on' := InTable(lines[0], on);
      if on' && Opens(lines[0], key) {
        RewriteKeepsOneLine(lines[ArrayLength(lines)..], key, block, on');
      } else {
        RewriteKeepsOneLine(lines[1..], key, block, on');
      }
    }
  }

  lemma BlockIsOneLineEach(key: string, values: seq<string>)
    requires BareKey(key) && OneLineEach(values)
    ensures OneLineEach(Block(key, values))
  {
    var block := Block(key, values);
    forall k | 0 < k < |block| - 1 ensures OneLine(block[k]) {
      var value := values[k - 1];
      assert block[k] == "    \"" + value + "\",";
      forall j | 0 <= j < |block[k]| ensures !IsBreak(block[k][j]) {
        assert 5 <= j < 5 + |value| ==> block[k][j] == value[j - 5];
      }
    }
    assert OneLine(block[0]) && block[|block| - 1] == "]";
  }

  /** The text a rewrite produces splits back into the rewritten lines. */
  lemma RewrittenTextSplits(lines: seq<string>, key: string, values: seq<string>)
    requires BareKey(key) && OneLineEach(values) && OneLineEach(lines)
    ensures OneLineEach(Rewrite(lines, key, Block(key, values), false))
    ensures SplitLines(Unlines(Rewrite(lines, key, Block(key, values), false)))
         == Rewrite(lines, key, Block(key, values), false)
  {
    BlockIsOneLineEach(key, values);
    RewriteKeepsOneLine(lines, key, Block(key, values), false);
    SplitUndoesUnlines(Rewrite(lines, key, Block(key, values), false));
  }

  /** Last write wins on whole texts, for every document that has the key. */
  lemma TextLastWriteWins(text: string, key: string, first: seq<string>, second: seq<string>)
    requires BareKey(key) && OneLineEach(first) && OneLineEach(second)
    requires ReplaceText(text, key, first).Ok?
    ensures ReplaceText(ReplaceText(text, key, first).value, key, second) == ReplaceText(text, key, second)
       <==> BracketFree(first)
  {
    var lines := SplitLines(text);
    var mid := Rewrite(lines, key, Block(key, first), false);
    RewrittenTextSplits(lines, key, first);
    RewrittenTextSplits(lines, key, second);
    RewrittenTextSplits(mid, key, second);
    LastWriteWins(lines, key, first, second);
  }

  // ---------- the scoped pyproject ----------

  datatype ModuleScope = ModuleScope(source: string, tests: seq<string>, deselect: seq<string>)

  const PATHS: string := "paths_to_mutate"
  const TESTS: string := "tests_dir"
  const ARGS: string := "pytest_add_cli_args"

  function DeselectArgs(scope: ModuleScope): seq<string> {
    seq(|scope.deselect|, k requires 0 <= k < |scope.deselect| => "--deselect=" + scope.deselect[k])
  }

  /** `render_scoped_pyproject`; `existing` is the parsed argument list of the committed file. */
  function RenderScoped(text: string, scope: ModuleScope, existing: seq<string>): Result<string, Error> {
    var r1 := ReplaceText(text, PATHS, [scope.source]);
    if r1.Err? then r1 else
    var r2 := ReplaceText(r1.value, TESTS, scope.tests);
    if r2.Err? || scope.deselect == [] then r2
    else ReplaceText(r2.value, ARGS, existing + DeselectArgs(scope))
  }
}
