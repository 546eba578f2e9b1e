/** The frontmatter split and render of scripts/build_primitive_frontmatter.py. */
module Frontmatter {
  import opened Text

  const OPEN: string := "---\n"
  const CLOSE: string := "\n---\n"
  const CLOSE_AT_EOF: string := "\n---"

  predicate EndsWith(s: string, p: string) {
    |p| <= |s| && s[|s| - |p|..] == p
  }

  /** `_split_frontmatter`: the yaml block and the body behind the closing marker. */
  function Split(text: string): (string, string) {
    if !(OPEN <= text) then ("", text)
    else
      var end := Find(text, CLOSE, 4);
      if end.Some? then (text[4..end.value], text[end.value + |CLOSE|..])
      else if EndsWith(text, CLOSE_AT_EOF) then
        // a Python slice whose end lies before its start is empty
        (if 4 <= |text| - 4 then text[4..|text| - 4] else "", "")
      else ("", text)
  }

  /** The text layout of `_render_doc`. */
  function Render(block: string, body: string): string {
    OPEN + block + CLOSE + body
  }

  /** The block neither holds a closing marker nor ends in one that lacks only its line break. */
  predicate Closed(block: string) {
    !Contains(block, CLOSE) && !EndsWith(block, CLOSE_AT_EOF)
  }

  lemma FirstClose(block: string, body: string)
    ensures Find(Render(block, body), CLOSE, 4).Some?
    ensures Find(Render(block, body), CLOSE, 4).value <= 4 + |block|
    ensures Find(Render(block, body), CLOSE, 4) == Some(4 + |block|) <==> Closed(block)
  {
    var s := Render(block, body);
    var m := 4 + |block|;
    RenderedClose(block, body);
    if Closed(block) {
      forall j | 4 <= j < m ensures !OccursAt(s, CLOSE, j) {
        NoEarlyClose(block, body, j);
      }
      FindIs(s, CLOSE, 4, m);
    } else {
      var i := EarlyClose(block, body);
    }
  }

  lemma RenderedClose(block: string, body: string)
    ensures OccursAt(Render(block, body), CLOSE, 4 + |block|)
  {
    SameWindow(Render(block, body), 4 + |block|, CLOSE, 0, CLOSE);
  }

  lemma EarlyClose(block: string, body: string) returns (i: nat)
    requires !Closed(block)
    ensures 4 <= i < 4 + |block| && OccursAt(Render(block, body), CLOSE, i)
  {
    var s := Render(block, body);
    if Contains(block, CLOSE) {
      i := Find(block, CLOSE, 0).value + 4;
      SameWindow(s, i, block, i - 4, CLOSE);
    } else {
      // the block's last four characters and the line break in front of the real marker
      i := |block|;
      forall k | i <= k < i + 5 ensures s[k] == CLOSE[k - i] {
        assert k < i + 4 ==> s[k] == block[|block| - 4..][k - i];
      }
      SameWindow(s, i, CLOSE, 0, CLOSE);
    }
  }

  lemma NoEarlyClose(block: string, body: string, j: nat)
    requires Closed(block) && 4 <= j < 4 + |block|
    ensures !OccursAt(Render(block, body), CLOSE, j)
  {
    var s := Render(block, body);
    var m := 4 + |block|;
    if j + 5 <= m {
      SameWindow(s, j, block, j - 4, CLOSE);
    } else if j == m - 4 {
      // the block would end in a marker that lacks only its line break
      var k :| 0 <= k < 4 && block[|block| - 4 + k] != CLOSE_AT_EOF[k];
      Mismatch(s, CLOSE, j, k);
    } else {
      // the line break that opens the real marker stands where a dash would have to
      Mismatch(s, CLOSE, j, m - j);
    }
  }

  /** Split undoes render exactly when the block is closed, whatever the body holds. */
  lemma SplitUndoesRender(block: string, body: string)
    ensures Split(Render(block, body)) == (block, body) <==> Closed(block)
  {
    FirstClose(block, body);
    RenderedParts(block, body);
    SplitAt(Render(block, body), Find(Render(block, body), CLOSE, 4).value);
  }

  lemma RenderedParts(block: string, body: string)
    ensures OPEN <= Render(block, body) && |Render(block, body)| == 9 + |block| + |body|
    ensures Render(block, body)[4..4 + |block|] == block && Render(block, body)[9 + |block|..] == body
  {
  }

  lemma SplitAt(text: string, e: nat)
    requires OPEN <= text && Find(text, CLOSE, 4) == Some(e)
    ensures Split(text) == (text[4..e], text[e + 5..]) && |Split(text).1| == |text| - e - 5
  {
  }

  /** Render undoes split exactly on the documents whose frontmatter is closed by a full marker line; on
      those the block is closed. */
  lemma RenderUndoesSplit(text: string)
    ensures Render(Split(text).0, Split(text).1) == text <==> OPEN <= text && Find(text, CLOSE, 4).Some?
    ensures OPEN <= text && Find(text, CLOSE, 4).Some? ==> Closed(Split(text).0)
  {
    if OPEN <= text && Find(text, CLOSE, 4).Some? {
      Reassemble(text, Find(text, CLOSE, 4).value);
      FirstClose(Split(text).0, Split(text).1);
    } else {
      OtherwiseLonger(text);
    }
  }

  /** Without a full closing line rendering adds to the text: a line break, or a whole block. */
  lemma OtherwiseLonger(text: string)
    requires !(OPEN <= text && Find(text, CLOSE, 4).Some?)
    ensures |Render(Split(text).0, Split(text).1)| > |text|
  {
  }

  lemma Reassemble(text: string, e: nat)
    requires OPEN <= text && 4 <= e && OccursAt(text, CLOSE, e)
    ensures Render(text[4..e], text[e + 5..]) == text
  {
    assert text[..4] == OPEN;
    Pieces(text, 4, e, e + 5);
  }

  lemma Pieces(text: string, i: nat, j: nat, k: nat)
    requires i <= j <= k <= |text|
    ensures text[..i] + text[i..j] + text[j..k] + text[k..] == text
  {
  }

  /** One regeneration: the body is carried over, the block is written anew. */
  function Regenerate(block: string, text: string): string {
    Render(block, Split(text).1)
  }

  function RegenerateAll(blocks: seq<string>, text: string): string {
    if blocks == [] then text
    else Regenerate(blocks[|blocks| - 1], RegenerateAll(blocks[..|blocks| - 1], text))
  }

  /** Any number of regenerations keeps the body and leaves only the newest block. */
  lemma {:induction false} RegenerationKeepsBody(blocks: seq<string>, text: string)
    requires blocks != [] && forall k :: 0 <= k < |blocks| ==> Closed(blocks[k])
    ensures RegenerateAll(blocks, text) == Render(blocks[|blocks| - 1], Split(text).1)
    ensures Split(RegenerateAll(blocks, text)) == (blocks[|blocks| - 1], Split(text).1)
  {
    var last := blocks[|blocks| - 1];
    var before := blocks[..|blocks| - 1];
    if before != [] {
      RegenerationKeepsBody(before, text);
    }
    SplitUndoesRender(last, Split(text).1);
  }

  /** A block that is not closed makes the body grow at the next regeneration. */
  lemma OpenBlockLeaksIntoBody(block: string, text: string)
    requires !Closed(block)
    ensures |Split(Regenerate(block, text)).1| > |Split(text).1|
  {
    var body := Split(text).1;
    FirstClose(block, body);
    RenderedParts(block, body);
    SplitAt(Render(block, body), Find(Render(block, body), CLOSE, 4).value);
  }

  /** Without the opening marker, or without any closing one, all is body; a block closed at the end of the
      file by a marker that lacks its line break is split off, and no body is left. */
  lemma SplitOtherwise(text: string, block: string)
    ensures !(OPEN <= text) ==> Split(text) == ("", text)
    ensures OPEN <= text && Find(text, CLOSE, 4).None? && !EndsWith(text, CLOSE_AT_EOF) ==> Split(text) == ("", text)
    ensures text == OPEN + block + CLOSE_AT_EOF && Find(text, CLOSE, 4).None? ==> Split(text) == (block, "")
  {
    if text == OPEN + block + CLOSE_AT_EOF {
      assert text[4..|text| - 4] == block && text[|text| - 4..] == CLOSE_AT_EOF;
    }
  }
}
