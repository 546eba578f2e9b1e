/** The marker-region rewrite of scripts/build_principles_index.py, for any pair of markers. */
module IndexSplice {
  import opened Text

  datatype Markers = Markers(begin: string, end: string)

  datatype Error = MissingMarkers

  /** All that is used about an END marker: it is one non-empty line. */
  predicate OneLine(marker: string) {
    marker != "" && '\n' !in marker
  }

  /** `splice_index` */
  function SpliceIndex(m: Markers, doc: string, table: string): Result<string, Error> {
    if !Contains(doc, m.begin) || !Contains(doc, m.end) then Err(MissingMarkers)
    else
      var (pre, rest) := Partition(doc, m.begin);
      var (_, post) := Partition(rest, m.end);
      Ok(pre + m.begin + "\n" + table + "\n" + m.end + post)
  }

  /** Everything up to the end of the first BEGIN. */
  function Head(m: Markers, doc: string): string
    requires Contains(doc, m.begin)
  {
    doc[..Find(doc, m.begin, 0).value + |m.begin|]
  }

  /** The text from the first END behind the first BEGIN, or a fresh END when there is none. */
  function Tail(m: Markers, doc: string): string
    requires Contains(doc, m.begin)
  {
    var e := Find(doc, m.end, |Head(m, doc)|);
    if e.Some? then doc[e.value..] else m.end
  }

  /** What stands between head and tail after a write. */
  function Region(table: string): string {
    "\n" + table + "\n"
  }

  /** The rewrite touches nothing outside the marker region: head and tail are the document's own. */
  lemma SpliceFrame(m: Markers, doc: string, table: string)
    requires SpliceIndex(m, doc, table).Ok?
    ensures SpliceIndex(m, doc, table).value == Head(m, doc) + Region(table) + Tail(m, doc)
  {
    var h := |Head(m, doc)|;
    var (pre, rest) := Partition(doc, m.begin);
    assert pre + m.begin == Head(m, doc) && rest == doc[h..];
    var (_, post) := Partition(rest, m.end);
    assert Tail(m, doc) == m.end + post by { TailIsEndAndPost(m, doc); }
    Regroup(pre + m.begin, table, m.end, post);
  }

  lemma Regroup(head: string, table: string, end: string, post: string)
    ensures head + "\n" + table + "\n" + end + post == head + Region(table) + (end + post)
  {
  }

  lemma TailIsEndAndPost(m: Markers, doc: string)
    requires Contains(doc, m.begin)
    ensures Tail(m, doc) == m.end + Partition(doc[|Head(m, doc)|..], m.end).1
  {
    var h := |Head(m, doc)|;
    FindInRest(doc, m.end, h);
    var e := Find(doc, m.end, h);
    if e.Some? {
      assert doc[e.value..] == doc[e.value..e.value + |m.end|] + doc[e.value + |m.end|..];
      assert doc[h..][e.value - h + |m.end|..] == doc[e.value + |m.end|..];
    }
  }

  /** The text from some END on survives behind the region exactly when an END stands behind the
      first BEGIN; otherwise everything behind BEGIN is dropped. */
  lemma TailKeptExactly(m: Markers, doc: string, table: string)
    requires SpliceIndex(m, doc, table).Ok?
    ensures (exists e: nat :: |Head(m, doc)| <= e && OccursAt(doc, m.end, e) && Ends(m, doc, table, doc[e..]))
       <==> Find(doc, m.end, |Head(m, doc)|).Some?
    ensures Find(doc, m.end, |Head(m, doc)|).None? ==> Ends(m, doc, table, m.end)
  {
    SpliceFrame(m, doc, table);
    var e := Find(doc, m.end, |Head(m, doc)|);
    if e.Some? {
      assert OccursAt(doc, m.end, e.value) && Ends(m, doc, table, doc[e.value..]);
    }
  }

  /** What a splice writes behind the region. */
  predicate Ends(m: Markers, doc: string, table: string, tail: string)
    requires SpliceIndex(m, doc, table).Ok?
  {
    SpliceIndex(m, doc, table).value == Head(m, doc) + Region(table) + tail
  }

  /** In the written region, END is first found behind the table iff the table does not hold it. */
  lemma EndBehindTable(end: string, table: string, post: string)
    requires OneLine(end)
    ensures Find(Region(table) + (end + post), end, 0).Some?
    ensures Find(Region(table) + (end + post), end, 0).value <= |table| + 2
    ensures Find(Region(table) + (end + post), end, 0) == Some(|table| + 2) <==> !Contains(table, end)
  {
    var s := Region(table) + (end + post);
    SameWindow(s, |table| + 2, end, 0, end);
    if Contains(table, end) {
      var i := Find(table, end, 0).value;
      SameWindow(s, i + 1, table, i, end);
    } else {
      forall j: nat | j < |table| + 2 ensures !OccursAt(s, end, j) {
        if j == 0 {
          Mismatch(s, end, 0, 0);
        } else if j + |end| <= |table| + 1 {
          SameWindow(s, j, table, j - 1, end);
        } else {
          Mismatch(s, end, j, |table| + 1 - j);
        }
      }
      FindIs(s, end, 0, |table| + 2);
    }
  }

  /** The head never moves under a rewrite. */
  lemma HeadStays(m: Markers, doc: string, rest: string)
    requires Contains(doc, m.begin)
    ensures Contains(Head(m, doc) + rest, m.begin)
    ensures Head(m, Head(m, doc) + rest) == Head(m, doc)
  {
    FindSharesPrefix(doc, Head(m, doc) + rest, m.begin, Find(doc, m.begin, 0).value);
  }

  lemma EndInRest(m: Markers, doc: string, table: string)
    requires OneLine(m.end) && Contains(doc, m.begin)
    ensures var rest := Region(table) + Tail(m, doc);
            && Find(rest, m.end, 0).Some?
            && (if Contains(table, m.end) then |rest[Find(rest, m.end, 0).value..]| > |Tail(m, doc)|
                else rest[Find(rest, m.end, 0).value..] == Tail(m, doc))
  {
    TailIsEndAndPost(m, doc);
    EndBehindTable(m.end, table, Partition(doc[|Head(m, doc)|..], m.end).1);
  }

  /** The tail of a written document is the old one iff the table carries no END, and grows otherwise. */
  lemma TailAfterWrite(m: Markers, doc: string, table: string)
    requires OneLine(m.end) && Contains(doc, m.begin)
    ensures var out := Head(m, doc) + (Region(table) + Tail(m, doc));
            && Contains(out, m.begin) && Contains(out, m.end)
            && (if Contains(table, m.end) then |Tail(m, out)| > |Tail(m, doc)|
                else Tail(m, out) == Tail(m, doc))
  {
    EndInRest(m, doc, table);
    TailOfWritten(m, doc, Region(table) + Tail(m, doc));
  }

  /** Whatever is written behind the head, the new tail begins at the first END in it. */
  lemma TailOfWritten(m: Markers, doc: string, rest: string)
    requires Contains(doc, m.begin) && Find(rest, m.end, 0).Some?
    ensures Contains(Head(m, doc) + rest, m.begin) && Contains(Head(m, doc) + rest, m.end)
    ensures Tail(m, Head(m, doc) + rest) == rest[Find(rest, m.end, 0).value..]
  {
    var head := Head(m, doc);
    HeadStays(m, doc, rest);
    SuffixIsRest(head, rest);
    TailAtFind(m, head + rest, head, rest);
  }

  lemma TailAtFind(m: Markers, out: string, head: string, rest: string)
    requires out == head + rest && out[|head|..] == rest && Find(rest, m.end, 0).Some?
    requires Contains(out, m.begin) && Head(m, out) == head
    ensures Contains(out, m.end) && Tail(m, out) == rest[Find(rest, m.end, 0).value..]
  {
    var e := Find(rest, m.end, 0).value;
    FindInSuffix(out, m.end, |head|, rest);
    DropBehind(head, rest, e);
    assert OccursAt(out, m.end, |head| + e);
  }

  lemma WrittenParts(m: Markers, doc: string, table: string)
    requires OneLine(m.end) && SpliceIndex(m, doc, table).Ok?
    ensures var out := SpliceIndex(m, doc, table).value;
            && Contains(out, m.begin) && Contains(out, m.end)
            && Head(m, out) == Head(m, doc)
            && (Tail(m, out) == Tail(m, doc) <==> !Contains(table, m.end))
  {
    SpliceFrame(m, doc, table);
    Associate(Head(m, doc), Region(table), Tail(m, doc));
    HeadStays(m, doc, Region(table) + Tail(m, doc));
    TailAfterWrite(m, doc, table);
  }

  lemma Cancel(front: string, x: string, y: string)
    ensures front + x == front + y <==> x == y
  {
    DropBehind(front, x, 0);
    DropBehind(front, y, 0);
  }

  /** Last write wins, for every second table, exactly when the first table does not hold END. */
  lemma LastWriteWins(m: Markers, doc: string, t1: string, t2: string)
    requires OneLine(m.end) && SpliceIndex(m, doc, t1).Ok?
    ensures SpliceIndex(m, doc, t2).Ok? && SpliceIndex(m, SpliceIndex(m, doc, t1).value, t2).Ok?
    ensures SpliceIndex(m, SpliceIndex(m, doc, t1).value, t2) == SpliceIndex(m, doc, t2)
       <==> !Contains(t1, m.end)
  {
    var mid := SpliceIndex(m, doc, t1).value;
    WrittenParts(m, doc, t1);
    SpliceFrame(m, doc, t2);
    SpliceFrame(m, mid, t2);
    Cancel(Head(m, doc) + Region(t2), Tail(m, mid), Tail(m, doc));
  }

  /** The index file on disk. */
  class IndexFile {
    var text: string

    constructor (text: string)
      ensures this.text == text
    {
      this.text := text;
    }

    /** `build`: rewrite (or only compare) the listing; an error leaves the file alone. */
    method Build(m: Markers, table: string, write: bool) returns (rc: Result<int, Error>)
      modifies this
      ensures SpliceIndex(m, old(text), table).Err? ==> rc.Err? && text == old(text)
      ensures SpliceIndex(m, old(text), table).Ok? ==>
                text == if write then SpliceIndex(m, old(text), table).value else old(text)
      ensures SpliceIndex(m, old(text), table).Ok? ==>
                rc == Ok(if write || SpliceIndex(m, old(text), table).value == old(text) then 0 else 1)
    {
      var spliced := SpliceIndex(m, text, table);
      if spliced.Err? {
        return Err(spliced.error);
      }
      if text == spliced.value {
        return Ok(0);
      }
      if !write {
        return Ok(1);
      }
      text := spliced.value;
      return Ok(0);
    }

    /** A write followed by a check passes exactly when the table does not hold END. */
    method WriteThenCheck(m: Markers, table: string) returns (rc: int)
      requires OneLine(m.end) && SpliceIndex(m, text, table).Ok?
      modifies this
      ensures text == SpliceIndex(m, old(text), table).value
      ensures rc == 0 <==> !Contains(table, m.end)
    {
      var first := Build(m, table, true);
      LastWriteWins(m, old(text), table, table);
      assert SpliceIndex(m, text, table).Ok?;
      var second := Build(m, table, false);
      rc := second.value;
    }
  }

  /** The splice is refused exactly when one of the markers is nowhere in the text. */
  lemma RefusedExactly(m: Markers, doc: string, table: string)
    ensures SpliceIndex(m, doc, table).Err?
       <==> (forall i: nat :: !OccursAt(doc, m.begin, i)) || (forall i: nat :: !OccursAt(doc, m.end, i))
  {
    if Contains(doc, m.begin) { assert OccursAt(doc, m.begin, Find(doc, m.begin, 0).value); }
    if Contains(doc, m.end) { assert OccursAt(doc, m.end, Find(doc, m.end, 0).value); }
  }
}
