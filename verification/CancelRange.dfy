/** The cancel-command composition of scripts/sandbox_anomaly_matrix.py. */
module CancelRange {
  import opened Text
  import opened Lines
  import opened Division

  // ---------- splitting and joining ----------

  /** `s.split(sep)` for a single separator element; also used on lists of words. */
  function Split<T(==)>(s: seq<T>, sep: T): (parts: seq<seq<T>>)
    ensures parts != []
  {
    if s == [] then [[]]
    else
      var rest := Split(s[1..], sep);
      if s[0] == sep then [[]] + rest else [[s[0]] + rest[0]] + rest[1..]
  }

  function Join<T>(parts: seq<seq<T>>, sep: T): seq<T> {
    if parts == [] then []
    else if |parts| == 1 then parts[0]
    else parts[0] + [sep] + Join(parts[1..], sep)
  }

  lemma {:induction false} SplitOfPart<T>(part: seq<T>, sep: T)
    requires sep !in part
    ensures Split(part, sep) == [part]
  {
    if part != [] {
      SplitOfPart(part[1..], sep);
      assert [part[0]] + part[1..] == part;
    }
  }

  lemma {:induction false} SplitBehindPart<T>(part: seq<T>, sep: T, rest: seq<T>)
    requires sep !in part
    ensures Split(part + [sep] + rest, sep) == [part] + Split(rest, sep)
  {
    var s := part + [sep] + rest;
    if part == [] {
      assert s[1..] == rest;
    } else {
      assert s[1..] == part[1..] + [sep] + rest;
      SplitBehindPart(part[1..], sep, rest);
      assert [part[0]] + part[1..] == part;
    }
  }

  /** Splitting undoes joining when no part holds the separator. */
  lemma {:induction false} SplitUndoesJoin<T>(parts: seq<seq<T>>, sep: T)
    requires parts != [] && forall k :: 0 <= k < |parts| ==> sep !in parts[k]
    ensures Split(Join(parts, sep), sep) == parts
  {
    if |parts| == 1 {
      SplitOfPart(parts[0], sep);
    } else {
      SplitBehindPart(parts[0], sep, Join(parts[1..], sep));
      SplitUndoesJoin(parts[1..], sep);
    }
  }

  lemma {:induction false} SplitKeepsElements<T>(s: seq<T>, sep: T, x: T)
    requires x in s && x != sep
    ensures exists k :: 0 <= k < |Split(s, sep)| && x in Split(s, sep)[k]
  {
    var rest := Split(s[1..], sep);
    var parts := Split(s, sep);
    if s[0] == x {
      assert x in parts[0];
    } else {
      SplitKeepsElements(s[1..], sep, x);
      var k :| 0 <= k < |rest| && x in rest[k];
      assert x in (if s[0] == sep then parts[k + 1] else parts[k]);
    }
  }

  lemma {:induction false} JoinConcat<T>(a: seq<seq<T>>, b: seq<seq<T>>, sep: T)
    requires a != [] && b != []
    ensures Join(a + b, sep) == Join(a, sep) + [sep] + Join(b, sep)
    decreases |a|
  {
    assert (a + b)[1..] == a[1..] + b;
    if |a| > 1 {
      JoinConcat(a[1..], b, sep);
    }
  }

  // ---------- task ranges ----------

  predicate Digits(s: string) {
    s != "" && forall k :: 0 <= k < |s| ==> '0' <= s[k] <= '9'
  }

  function NatOf(s: string): nat
    requires forall k :: 0 <= k < |s| ==> '0' <= s[k] <= '9'
  {
    if s == "" then 0 else NatOf(s[..|s| - 1]) * 10 + (s[|s| - 1] as int - '0' as int)
  }

  /** `n[-m[:s]]` */
  datatype Range = Range(first: nat, last: nat, step: nat)

  function ParseSegment(seg: string): Option<Range> {
    var halves := Split(seg, '-');
    if !Digits(halves[0]) || |halves| > 2 then None
    else
      var n := NatOf(halves[0]);
      if |halves| == 1 then Some(Range(n, n, 1))
      else
        var right := Split(halves[1], ':');
        if !Digits(right[0]) || |right| > 2 then None
        else if |right| == 1 then Some(Range(n, NatOf(right[0]), 1))
        else if Digits(right[1]) && NatOf(right[1]) > 0 then Some(Range(n, NatOf(right[0]), NatOf(right[1])))
        else None
  }

  predicate InSegment(seg: string, task: nat) {
    match ParseSegment(seg)
    case None => false
    case Some(r) => r.step > 0 && r.first <= task <= r.last && (task - r.first) % r.step == 0
  }

  // ---------- the segment grammar `n[-m[:s]]` ----------

  function Digit1(d: nat): char
    requires d < 10
  {
    ('0' as int + d) as char
  }

  /** A number in decimal. */
  function Decimal(n: nat): string {
    if n < 10 then [Digit1(n)] else Decimal(n / 10) + [Digit1(n % 10)]
  }

  lemma {:induction false} DecimalReads(n: nat)
    ensures Digits(Decimal(n)) && NatOf(Decimal(n)) == n
  {
    if n < 10 {
      var s := [Digit1(n)];
      assert s[..|s| - 1] == "" && NatOf("") == 0;
    } else {
      DecimalReads(n / 10);
      var s := Decimal(n);
      assert s[..|s| - 1] == Decimal(n / 10);
    }
  }

  lemma DigitsLack(s: string, c: char)
    requires Digits(s) && !('0' <= c <= '9')
    ensures c !in s
  {
  }

  lemma SplitOnce(a: string, sep: char, b: string)
    requires sep !in a && sep !in b
    ensures Split(a + ([sep] + b), sep) == [a, b]
  {
    assert a + ([sep] + b) == a + [sep] + b;
    SplitBehindPart(a, sep, b);
    SplitOfPart(b, sep);
  }

  /** One number is one task; two are a range in steps of one; a third, not zero, is the step. */
  lemma SegmentsRead(n: nat, m: nat, step: nat)
    ensures ParseSegment(Decimal(n)) == Some(Range(n, n, 1))
    ensures ParseSegment(Decimal(n) + ("-" + Decimal(m))) == Some(Range(n, m, 1))
    ensures ParseSegment(Decimal(n) + ("-" + (Decimal(m) + (":" + Decimal(step)))))
         == if step > 0 then Some(Range(n, m, step)) else None
  {
    DecimalReads(n);
    DecimalReads(m);
    DecimalReads(step);
    DigitsLack(Decimal(n), '-');
    DigitsLack(Decimal(m), '-');
    DigitsLack(Decimal(m), ':');
    DigitsLack(Decimal(step), ':');
    DigitsLack(Decimal(step), '-');
    SplitOfPart(Decimal(n), '-');
    SplitOfPart(Decimal(m), ':');
    SplitOnce(Decimal(n), '-', Decimal(m));
    var right := Decimal(m) + (":" + Decimal(step));
    assert '-' !in right;
    SplitOnce(Decimal(n), '-', right);
    SplitOnce(Decimal(m), ':', Decimal(step));
  }

  predicate RangeChar(c: char) {
    '0' <= c <= '9' || c == '-' || c == ':'
  }

  lemma SegmentChars(seg: string)
    requires ParseSegment(seg).Some?
    ensures seg != "" && forall k :: 0 <= k < |seg| ==> RangeChar(seg[k])
  {
    var halves := Split(seg, '-');
    forall k | 0 <= k < |seg| ensures RangeChar(seg[k]) {
      if seg[k] != '-' {
        SplitKeepsElements(seg, '-', seg[k]);
        var h :| 0 <= h < |halves| && seg[k] in halves[h];
        if h == 1 && seg[k] != ':' {
          SplitKeepsElements(halves[1], ':', seg[k]);
        }
      }
    }
  }

  // ---------- the composition ----------

  datatype Scheduler = Slurm | Sge | Unknown

  datatype Refusal = UnknownScheduler | NoJobIds

  function KeepIds(ids: seq<string>): seq<string> {
    if ids == [] then [] else (if Strip(ids[0]) != "" then [ids[0]] else []) + KeepIds(ids[1..])
  }

  function Segments(parts: seq<string>): seq<string> {
    if parts == [] then [] else (if Strip(parts[0]) != "" then [Strip(parts[0])] else []) + Segments(parts[1..])
  }

  function Target(id: string, range: string): string {
    id + "_[" + range + "]"
  }

  function Targets(ids: seq<string>, range: string): seq<string> {
    seq(|ids|, k requires 0 <= k < |ids| => Target(ids[k], range))
  }

  function Qdel(ids: seq<string>, seg: string): string {
    "qdel " + Join(ids, ' ') + " -t " + seg
  }

  /** `" ; ".join(...)` over one deletion per segment. */
  function Deletions(ids: seq<string>, segs: seq<string>): string {
    if segs == [] then ""
    else if |segs| == 1 then Qdel(ids, segs[0])
    else Qdel(ids, segs[0]) + " ; " + Deletions(ids, segs[1..])
  }

  /** `compose_cancel_command`; an absent range is the empty text. */
  function ComposeCancel(scheduler: Scheduler, jobIds: seq<string>, range: string): Result<string, Refusal> {
    if scheduler.Unknown? then Err(UnknownScheduler)
    else
      var ids := KeepIds(jobIds);
      if ids == [] then Err(NoJobIds)
      else if scheduler.Slurm? then
        Ok("scancel " + Join(if range != "" then Targets(ids, range) else ids, ' '))
      else if range != "" then Ok(Deletions(ids, Segments(Split(range, ','))))
      else Ok("qdel " + Join(ids, ' '))
  }

  // ---------- what the cluster makes of a command ----------

  /** The words of a shell command: white space separates, runs of it count once. */
  function Words(command: string): seq<string> {
    NonEmpty(Split(Blanked(command), ' '))
  }

  /** Every white space character as a blank. */
  function Blanked(s: string): string {
    seq(|s|, k requires 0 <= k < |s| => if IsSpace(s[k]) then ' ' else s[k])
  }

  function NonEmpty(words: seq<string>): seq<string> {
    if words == [] then [] else (if words[0] != "" then [words[0]] else []) + NonEmpty(words[1..])
  }

  predicate Solid(s: string) {
    forall k :: 0 <= k < |s| ==> !IsSpace(s[k])
  }

  lemma BlankedConcat(a: string, b: string)
    ensures Blanked(a + b) == Blanked(a) + Blanked(b)
  {
  }

  lemma {:induction false} NonEmptyMember(words: seq<string>, w: string)
    ensures w in NonEmpty(words) <==> w in words && w != ""
  {
    if words != [] {
      NonEmptyMember(words[1..], w);
    }
  }

  lemma {:induction false} NonEmptyKeeps(words: seq<string>)
    requires "" !in words
    ensures NonEmpty(words) == words
  {
    if words != [] {
      NonEmptyKeeps(words[1..]);
    }
  }

  lemma {:induction false} BlankedJoin(words: seq<string>)
    requires forall k :: 0 <= k < |words| ==> Solid(words[k])
    ensures Blanked(Join(words, ' ')) == Join(words, ' ')
  {
    if |words| > 1 {
      BlankedJoin(words[1..]);
      BlankedConcat(words[0] + [' '], Join(words[1..], ' '));
    }
  }

  /** Joined with blanks, solid words are read back as they are. */
  lemma WordsOfJoin(words: seq<string>)
    requires words != [] && forall k :: 0 <= k < |words| ==> words[k] != "" && Solid(words[k])
    ensures Words(Join(words, ' ')) == words
  {
    BlankedJoin(words);
    forall k | 0 <= k < |words| ensures ' ' !in words[k] {
      assert IsSpace(' ');
    }
    SplitUndoesJoin(words, ' ');
    NonEmptyKeeps(words);
  }

  /** scancel's subscripted target: the job id and its comma list. */
  function ReadTarget(word: string): Option<(string, string)> {
    var i := Find(word, "_[", 0);
    if i.None? || word[|word| - 1] != ']' || i.value + 2 > |word| - 1 then None
    else Some((word[..i.value], word[i.value + 2..|word| - 1]))
  }

  /** The tasks one scancel invocation with subscripted targets cancels. */
  ghost predicate SlurmCancels(command: string, id: string, task: nat) {
    var words := Words(command);
    && words != [] && words[0] == "scancel"
    && exists w, list :: 0 < w < |words| && ReadTarget(words[w]) == Some((id, list)) && InList(list, task)
  }

  predicate InList(list: string, task: nat) {
    exists k :: 0 <= k < |Split(list, ',')| && InSegment(Split(list, ',')[k], task)
  }

  /** One `qdel <ids> -t <range>`: qdel takes a single range. */
  predicate QdelCancels(cmd: seq<string>, id: string, task: nat) {
    && |cmd| >= 3 && cmd[0] == "qdel" && cmd[|cmd| - 2] == "-t"
    && id in cmd[1..|cmd| - 2] && InSegment(cmd[|cmd| - 1], task)
  }

  /** The tasks a sequence of qdel commands cancels. */
  ghost predicate SgeCancels(command: string, id: string, task: nat) {
    exists k :: 0 <= k < |Split(Words(command), ";")| && QdelCancels(Split(Words(command), ";")[k], id, task)
  }

  /** A scheduler job id: no blank, separator or subscript characters. */
  predicate PlainId(id: string) {
    id != "" && forall k :: 0 <= k < |id| ==> !IsSpace(id[k]) && id[k] !in {';', '_', ',', '[', ']'}
  }

  // ---------- the SLURM form ----------

  lemma ReadTargetOf(id: string, range: string)
    requires PlainId(id)
    ensures ReadTarget(Target(id, range)) == Some((id, range))
  {
    var word := Target(id, range);
    assert word[|id|] == '_' && word[|id| + 1] == '[';
    assert word[|id|..|id| + 2] == "_[";
    forall j: nat | j < |id| ensures !OccursAt(word, "_[", j) {
      Mismatch(word, "_[", j, 0);
    }
    FindIs(word, "_[", 0, |id|);
    assert word[..|id|] == id;
    assert word[|id| + 2..|word| - 1] == range;
    assert word[|word| - 1] == ']';
  }

  lemma {:induction false} PartsLackSep<T>(s: seq<T>, sep: T)
    ensures forall k :: 0 <= k < |Split(s, sep)| ==> sep !in Split(s, sep)[k]
  {
    if s != [] {
      PartsLackSep(s[1..], sep);
    }
  }

  ghost predicate AllPlain(ids: seq<string>) {
    forall k :: 0 <= k < |ids| ==> PlainId(ids[k])
  }

  lemma TargetIsSolid(id: string, range: string)
    requires PlainId(id) && Solid(range)
    ensures Solid(Target(id, range)) && Target(id, range) != ""
  {
  }

  lemma ScancelWords(ids: seq<string>, range: string)
    requires ids != [] && AllPlain(ids) && Solid(range)
    ensures Words("scancel " + Join(Targets(ids, range), ' ')) == ["scancel"] + Targets(ids, range)
  {
    var words := ["scancel"] + Targets(ids, range);
    assert words[1..] == Targets(ids, range);
    assert Join(words, ' ') == "scancel" + [' '] + Join(Targets(ids, range), ' ');
    assert "scancel" + [' '] == "scancel ";
    forall k | 0 <= k < |words| ensures words[k] != "" && Solid(words[k]) {
      if k > 0 { TargetIsSolid(ids[k - 1], range); }
    }
    WordsOfJoin(words);
  }

  lemma SlurmCancelsExactly(ids: seq<string>, range: string, id: string, task: nat)
    requires ids != [] && AllPlain(ids) && Solid(range)
    ensures SlurmCancels("scancel " + Join(Targets(ids, range), ' '), id, task) <==> id in ids && InList(range, task)
  {
    var command := "scancel " + Join(Targets(ids, range), ' ');
    var words := ["scancel"] + Targets(ids, range);
    ScancelWords(ids, range);
    forall w | 0 < w < |words| ensures ReadTarget(words[w]) == Some((ids[w - 1], range)) {
      ReadTargetOf(ids[w - 1], range);
    }
    if id in ids && InList(range, task) {
      var k :| 0 <= k < |ids| && ids[k] == id;
      assert ReadTarget(Words(command)[k + 1]) == Some((id, range));
    }
  }

  // ---------- a range with white space ----------

  lemma {:induction false} SplitConcat<T>(a: seq<T>, sep: T, b: seq<T>)
    ensures Split(a + [sep] + b, sep) == Split(a, sep) + Split(b, sep)
  {
    var s := a + [sep] + b;
    if a == [] {
      assert s[1..] == b;
    } else {
      assert s[0] == a[0] && s[1..] == a[1..] + [sep] + b;
      SplitConcat(a[1..], sep, b);
      var x, y := Split(a[1..], sep), Split(b, sep);
      if a[0] == sep {
        Associate([[]], x, y);
      } else {
        assert (x + y)[0] == x[0] && (x + y)[1..] == x[1..] + y;
        Associate([[a[0]] + x[0]], x[1..], y);
      }
    }
  }

  /** A word of joined texts is a word of one of them. */
  lemma {:induction false} WordOfJoin<T>(parts: seq<seq<T>>, sep: T, w: seq<T>)
    requires parts != [] && w in Split(Join(parts, sep), sep)
    ensures exists k :: 0 <= k < |parts| && w in Split(parts[k], sep)
  {
    if |parts| > 1 {
      SplitConcat(parts[0], sep, Join(parts[1..], sep));
      if w in Split(parts[0], sep) {
      } else {
        WordOfJoin(parts[1..], sep, w);
        var k :| 0 <= k < |parts[1..]| && w in Split(parts[1..][k], sep);
        assert w in Split(parts[k + 1], sep);
      }
    }
  }

  /** No part holds both an element found only in front of a separator and one found only behind it. */
  lemma NotAcross<T>(s: seq<T>, sep: T, part: seq<T>, mid: nat, x: T, y: T)
    requires part in Split(s, sep) && mid < |s| && s[mid] == sep
    requires x !in s[mid + 1..] && y !in s[..mid]
    ensures !(x in part && y in part)
  {
    assert s == s[..mid] + [sep] + s[mid + 1..];
    SplitConcat(s[..mid], sep, s[mid + 1..]);
    if part in Split(s[..mid], sep) {
      if y in part { PartElements(s[..mid], sep, part, y); }
    } else {
      if x in part { PartElements(s[mid + 1..], sep, part, x); }
    }
  }

  lemma {:induction false} PartElements<T>(s: seq<T>, sep: T, part: seq<T>, x: T)
    requires part in Split(s, sep) && x in part
    ensures x in s
  {
    if s != [] {
      var rest := Split(s[1..], sep);
      if part in rest {
        PartElements(s[1..], sep, part, x);
      } else if s[0] != sep && x != s[0] {
        assert part == [s[0]] + rest[0] && x in rest[0];
        PartElements(s[1..], sep, rest[0], x);
      }
    }
  }

  lemma {:induction false} BlankedOfJoin(words: seq<string>)
    ensures Blanked(Join(words, ' ')) == Join(AllBlanked(words), ' ')
  {
    if |words| > 1 {
      BlankedOfJoin(words[1..]);
      BlankedConcat(words[0] + [' '], Join(words[1..], ' '));
      BlankedConcat(words[0], [' ']);
      assert AllBlanked(words)[1..] == AllBlanked(words[1..]);
    }
  }

  function AllBlanked(words: seq<string>): seq<string> {
    seq(|words|, k requires 0 <= k < |words| => Blanked(words[k]))
  }

  /** A range with white space tears every target between its brackets. */
  lemma TornTarget(id: string, range: string, w: string)
    requires PlainId(id) && !Solid(range) && '[' !in range && ']' !in range
    requires w in Split(Blanked(Target(id, range)), ' ')
    ensures !('[' in w && ']' in w)
  {
    var s := Blanked(Target(id, range));
    var k :| 0 <= k < |range| && IsSpace(range[k]);
    var mid := |id| + 2 + k;
    assert s[mid] == ' ';
    forall j | 0 <= j < |s| ensures (s[j] == '[' ==> j < mid) && (s[j] == ']' ==> j > mid) {
      assert j < |id| ==> Target(id, range)[j] == id[j];
      assert |id| + 2 <= j < |s| - 1 ==> Target(id, range)[j] == range[j - |id| - 2];
    }
    NotAcross(s, ' ', w, mid, '[', ']');
  }

  lemma ReadTargetBrackets(word: string)
    requires word != "" && ReadTarget(word).Some?
    ensures '[' in word && ']' in word
  {
    var i := Find(word, "_[", 0).value;
    assert word[i..i + 2][1] == '[';
  }

  lemma ScancelSpelling(ids: seq<string>, range: string)
    requires ids != []
    ensures "scancel " + Join(Targets(ids, range), ' ') == Join(["scancel"] + Targets(ids, range), ' ')
  {
    var parts := ["scancel"] + Targets(ids, range);
    assert parts[1..] == Targets(ids, range);
    assert "scancel" + [' '] == "scancel ";
  }

  ghost predicate WordOfTarget(ids: seq<string>, range: string, w: string) {
    exists k :: 0 <= k < |ids| && w in Split(Blanked(Target(ids[k], range)), ' ')
  }

  lemma WordComesFrom(ids: seq<string>, range: string, w: string)
    requires ids != [] && w in Words(Join(["scancel"] + Targets(ids, range), ' '))
    ensures w in Split(Blanked("scancel"), ' ') || WordOfTarget(ids, range, w)
  {
    var parts := ["scancel"] + Targets(ids, range);
    BlankedOfJoin(parts);
    NonEmptyMember(Split(Join(AllBlanked(parts), ' '), ' '), w);
    WordOfJoin(AllBlanked(parts), ' ', w);
    var k :| 0 <= k < |parts| && w in Split(AllBlanked(parts)[k], ' ');
    assert k > 0 ==> parts[k] == Target(ids[k - 1], range);
  }

  lemma WordsOfTorn(ids: seq<string>, range: string, w: string)
    requires ids != [] && AllPlain(ids) && !Solid(range) && '[' !in range && ']' !in range
    requires w in Words("scancel " + Join(Targets(ids, range), ' '))
    ensures w != "" && !('[' in w && ']' in w)
  {
    ScancelSpelling(ids, range);
    NonEmptyMember(Split(Blanked("scancel " + Join(Targets(ids, range), ' ')), ' '), w);
    WordComesFrom(ids, range, w);
    if k :| 0 <= k < |ids| && w in Split(Blanked(Target(ids[k], range)), ' ') {
      TornTarget(ids[k], range, w);
    } else {
      ScancelIsNoTarget(w);
    }
  }

  lemma ScancelIsNoTarget(w: string)
    requires w in Split(Blanked("scancel"), ' ')
    ensures '[' !in w
  {
    var s := Blanked("scancel");
    assert '[' !in s;
    if '[' in w { PartElements(s, ' ', w, '['); }
  }

  lemma WhiteSpaceCancelsNothing(ids: seq<string>, range: string, id: string, task: nat)
    requires ids != [] && AllPlain(ids) && !Solid(range) && '[' !in range && ']' !in range
    ensures !SlurmCancels("scancel " + Join(Targets(ids, range), ' '), id, task)
  {
    var words := Words("scancel " + Join(Targets(ids, range), ' '));
    forall k | 0 <= k < |words| ensures ReadTarget(words[k]).None? {
      WordsOfTorn(ids, range, words[k]);
      if ReadTarget(words[k]).Some? { ReadTargetBrackets(words[k]); }
    }
  }

  /** The subscripted targets reach scancel as whole words exactly when the range holds no white space. */
  lemma TargetsArriveWhole(ids: seq<string>, range: string, id: string)
    requires AllPlain(ids) && id in ids
    ensures Target(id, range) in Words("scancel " + Join(Targets(ids, range), ' ')) <==> Solid(range)
  {
    var command := "scancel " + Join(Targets(ids, range), ' ');
    if Solid(range) {
      ScancelWords(ids, range);
      var k :| 0 <= k < |ids| && ids[k] == id;
      assert Targets(ids, range)[k] == Target(id, range);
    } else {
      var k :| 0 <= k < |range| && IsSpace(range[k]);
      assert Target(id, range)[|id| + 2 + k] == range[k];
      if Target(id, range) in Words(command) {
        WordsAreSolid(command, Target(id, range));
      }
    }
  }

  lemma WordsAreSolid(command: string, w: string)
    requires w in Words(command)
    ensures Solid(w)
  {
    NonEmptyMember(Split(Blanked(command), ' '), w);
    PartsLackSep(Blanked(command), ' ');
    forall k | 0 <= k < |w| ensures !IsSpace(w[k]) {
      PartElements(Blanked(command), ' ', w, w[k]);
    }
  }

  // ---------- the SGE form ----------

  function QdelWords(ids: seq<string>, seg: string): seq<string> {
    ["qdel"] + ids + ["-t", seg]
  }

  function AllQdels(ids: seq<string>, segs: seq<string>): seq<seq<string>> {
    seq(|segs|, k requires 0 <= k < |segs| => QdelWords(ids, segs[k]))
  }

  lemma QdelSpelling(ids: seq<string>, seg: string)
    requires ids != []
    ensures Qdel(ids, seg) == Join(QdelWords(ids, seg), ' ')
  {
    var tail := ["-t", seg];
    assert tail[1..] == [seg];
    assert Join(tail, ' ') == "-t" + [' '] + seg;
    JoinConcat(ids, tail, ' ');
    JoinConcat(["qdel"], ids + tail, ' ');
    assert QdelWords(ids, seg) == ["qdel"] + (ids + tail);
    assert "qdel" + [' '] == "qdel " && [' '] + ("-t" + [' ']) == " -t ";
    calc {
      Join(QdelWords(ids, seg), ' ');
      "qdel" + [' '] + (Join(ids, ' ') + [' '] + ("-t" + [' '] + seg));
      "qdel " + Join(ids, ' ') + ([' '] + ("-t" + [' '])) + seg;
      Qdel(ids, seg);
    }
  }

  /** The whole command is its words joined: the deletions, separated by a lone semicolon. */
  lemma {:induction false} DeletionsSpelling(ids: seq<string>, segs: seq<string>)
    requires ids != [] && segs != []
    ensures Deletions(ids, segs) == Join(Join(AllQdels(ids, segs), ";"), ' ')
  {
    var first := QdelWords(ids, segs[0]);
    QdelSpelling(ids, segs[0]);
    if |segs| > 1 {
      var rest := Join(AllQdels(ids, segs[1..]), ";");
      assert AllQdels(ids, segs)[1..] == AllQdels(ids, segs[1..]);
      DeletionsSpelling(ids, segs[1..]);
      JoinIsNotEmpty(ids, segs[1..]);
      assert Join(AllQdels(ids, segs), ";") == first + ([";"] + rest);
      JoinConcat([";"], rest, ' ');
      JoinConcat(first, [";"] + rest, ' ');
      assert [' '] + (";" + [' ']) == " ; ";
      assert Join(first, ' ') + [' '] + (";" + [' '] + Join(rest, ' '))
          == Join(first, ' ') + ([' '] + (";" + [' '])) + Join(rest, ' ');
    }
  }

  lemma JoinIsNotEmpty(ids: seq<string>, segs: seq<string>)
    requires segs != []
    ensures Join(AllQdels(ids, segs), ";") != []
  {
    assert AllQdels(ids, segs)[0] != [];
  }

  ghost predicate WellFormed(segs: seq<string>) {
    forall k :: 0 <= k < |segs| ==> ParseSegment(segs[k]).Some?
  }

  lemma QdelWordsAreClean(ids: seq<string>, seg: string)
    requires AllPlain(ids) && ParseSegment(seg).Some?
    ensures forall x :: x in QdelWords(ids, seg) ==> x != "" && Solid(x) && x != ";"
  {
    SegmentChars(seg);
    forall x | x in QdelWords(ids, seg) ensures x != "" && Solid(x) && x != ";" {
      if x in ids {
        assert PlainId(x);
        assert x[0] != ';' && ";"[0] == ';';
      }
    }
    assert seg[0] != ';' && ";"[0] == ';';
  }

  lemma {:induction false} ElementsOfJoin(parts: seq<seq<string>>, sep: string, x: string)
    ensures x in Join(parts, sep) ==> x == sep || exists k :: 0 <= k < |parts| && x in parts[k]
  {
    if |parts| > 1 {
      ElementsOfJoin(parts[1..], sep, x);
      if k :| 0 <= k < |parts[1..]| && x in parts[1..][k] {
        assert x in parts[k + 1];
      }
    }
  }

  lemma DeletionWords(ids: seq<string>, segs: seq<string>)
    requires ids != [] && segs != [] && AllPlain(ids) && WellFormed(segs)
    ensures Split(Words(Deletions(ids, segs)), ";") == AllQdels(ids, segs)
  {
    var words := Join(AllQdels(ids, segs), ";");
    forall k | 0 <= k < |segs|
      ensures forall x :: x in AllQdels(ids, segs)[k] ==> x != "" && Solid(x) && x != ";"
    {
      QdelWordsAreClean(ids, segs[k]);
    }
    forall x | x in words ensures x != "" && Solid(x) {
      ElementsOfJoin(AllQdels(ids, segs), ";", x);
    }
    JoinIsNotEmpty(ids, segs);
    DeletionsSpelling(ids, segs);
    forall k | 0 <= k < |words| ensures words[k] != "" && Solid(words[k]) {
      assert words[k] in words;
    }
    WordsOfJoin(words);
    SplitUndoesJoin(AllQdels(ids, segs), ";");
  }

  ghost predicate InSome(segs: seq<string>, task: nat) {
    exists k :: 0 <= k < |segs| && InSegment(segs[k], task)
  }

  lemma SgeCancelsExactly(ids: seq<string>, segs: seq<string>, id: string, task: nat)
    requires ids != [] && segs != [] && AllPlain(ids) && WellFormed(segs)
    ensures SgeCancels(Deletions(ids, segs), id, task) <==> id in ids && InSome(segs, task)
  {
    DeletionWords(ids, segs);
    var cmds := Split(Words(Deletions(ids, segs)), ";");
    forall k | 0 <= k < |segs| ensures QdelCancels(cmds[k], id, task) <==> id in ids && InSegment(segs[k], task) {
      QdelCancelsExactly(ids, segs[k], id, task);
    }
  }

  lemma QdelCancelsExactly(ids: seq<string>, seg: string, id: string, task: nat)
    requires ids != []
    ensures QdelCancels(QdelWords(ids, seg), id, task) <==> id in ids && InSegment(seg, task)
  {
    var cmd := QdelWords(ids, seg);
    assert cmd[1..|cmd| - 2] == ids;
  }

  // ---------- both forms ----------

  lemma {:induction false} SegmentsMember(parts: seq<string>, seg: string)
    ensures seg in Segments(parts) <==> seg != "" && exists k :: 0 <= k < |parts| && Strip(parts[k]) == seg
  {
    if parts != [] {
      SegmentsMember(parts[1..], seg);
      if k :| 0 <= k < |parts[1..]| && Strip(parts[1..][k]) == seg {
        assert Strip(parts[k + 1]) == seg;
      }
      if k :| 0 <= k < |parts| && Strip(parts[k]) == seg {
        assert k > 0 ==> Strip(parts[1..][k - 1]) == seg;
      }
    }
  }

  lemma SolidStrips(s: string)
    requires Solid(s)
    ensures Strip(s) == s
  {
    if s != "" {
      StripKeeps(s);
    }
  }

  lemma PartsOfSolid(range: string)
    requires Solid(range)
    ensures forall k :: 0 <= k < |Split(range, ',')| ==> Solid(Split(range, ',')[k])
  {
    forall k | 0 <= k < |Split(range, ',')| ensures Solid(Split(range, ',')[k]) {
      var part := Split(range, ',')[k];
      forall j | 0 <= j < |part| ensures !IsSpace(part[j]) {
        PartElements(range, ',', part, part[j]);
      }
    }
  }

  /** Without white space both schedulers read the same segments. */
  lemma SolidRangeReadsTheSame(range: string, task: nat)
    requires Solid(range)
    ensures InList(range, task) <==> InSome(Segments(Split(range, ',')), task)
  {
    var parts := Split(range, ',');
    var segs := Segments(parts);
    PartsOfSolid(range);
    if k :| 0 <= k < |parts| && InSegment(parts[k], task) {
      SegmentChars(parts[k]);
      SolidStrips(parts[k]);
      SegmentsMember(parts, parts[k]);
      var j :| 0 <= j < |segs| && segs[j] == parts[k];
    }
    if j :| 0 <= j < |segs| && InSegment(segs[j], task) {
      SegmentsMember(parts, segs[j]);
      var k :| 0 <= k < |parts| && Strip(parts[k]) == segs[j];
      SolidStrips(parts[k]);
    }
  }

  lemma {:induction false} StripLeftDropsSpace(s: string, c: char)
    requires c in s && !IsSpace(c)
    ensures c in StripLeft(s)
  {
    if IsSpace(s[0]) {
      StripLeftDropsSpace(s[1..], c);
    }
  }

  lemma {:induction false} StripRightDropsSpace(s: string, c: char)
    requires c in s && !IsSpace(c)
    ensures c in StripRight(s)
  {
    if IsSpace(s[|s| - 1]) {
      StripRightDropsSpace(s[..|s| - 1], c);
    }
  }

  /** A range of well-formed segments holds no brackets. */
  lemma NoBrackets(range: string, c: char)
    requires WellFormed(Segments(Split(range, ','))) && c in {'[', ']'}
    ensures c !in range
  {
    var parts := Split(range, ',');
    assert !RangeChar(c) && !IsSpace(c);
    if c in range {
      SplitKeepsElements(range, ',', c);
      var k :| 0 <= k < |parts| && c in parts[k];
      StripLeftDropsSpace(parts[k], c);
      StripRightDropsSpace(StripLeft(parts[k]), c);
      SegmentsMember(parts, Strip(parts[k]));
      SegmentChars(Strip(parts[k]));
    }
  }

  /** Every segment ends before it begins. */
  ghost predicate AllEmpty(segs: seq<string>)
    requires WellFormed(segs)
  {
    forall k :: 0 <= k < |segs| ==> ParseSegment(segs[k]).value.first > ParseSegment(segs[k]).value.last
  }

  lemma AllEmptyMeans(segs: seq<string>)
    requires WellFormed(segs)
    ensures AllEmpty(segs) <==> forall task: nat :: !InSome(segs, task)
  {
    if forall task: nat :: !InSome(segs, task) {
      forall k | 0 <= k < |segs| ensures ParseSegment(segs[k]).value.first > ParseSegment(segs[k]).value.last {
        var r := ParseSegment(segs[k]).value;
        ParsedStep(segs[k]);
        assert !InSome(segs, r.first);
        assert !InSegment(segs[k], r.first);
      }
    }
  }

  lemma ParsedStep(seg: string)
    requires ParseSegment(seg).Some?
    ensures ParseSegment(seg).value.step > 0
  {
  }

  /** Both commands cancel the same tasks of the same jobs. */
  ghost predicate SameTasks(sge: string, slurm: string) {
    forall id, task: nat :: SgeCancels(sge, id, task) <==> SlurmCancels(slurm, id, task)
  }

  /** Some character of the id is no white space. */
  predicate Nonblank(id: string) {
    exists k :: 0 <= k < |id| && !IsSpace(id[k])
  }

  lemma {:induction false} StripLeftIsEmpty(s: string)
    ensures StripLeft(s) == "" <==> !Nonblank(s)
    ensures StripLeft(s) != "" ==> !IsSpace(StripLeft(s)[0])
  {
    if s != "" && IsSpace(s[0]) {
      StripLeftIsEmpty(s[1..]);
      if k :| 0 <= k < |s| && !IsSpace(s[k]) { assert !IsSpace(s[1..][k - 1]); }
      if k :| 0 <= k < |s[1..]| && !IsSpace(s[1..][k]) { assert !IsSpace(s[k + 1]); }
    } else if s != "" {
      assert !IsSpace(s[0]);
    }
  }

  lemma StripIsEmpty(s: string)
    ensures Strip(s) == "" <==> !Nonblank(s)
  {
    StripLeftIsEmpty(s);
    if StripLeft(s) != "" { StripRightKeepsHead(StripLeft(s)); }
  }

  /** The ids that are kept: every id that is not blank, in order, as often as it is given. */
  lemma {:induction false} KeepIdsFilters(a: seq<string>, b: seq<string>)
    ensures KeepIds(a + b) == KeepIds(a) + KeepIds(b)
    decreases |a|
  {
    if a == [] {
      assert a + b == b;
    } else {
      assert (a + b)[0] == a[0] && (a + b)[1..] == a[1..] + b;
      KeepIdsFilters(a[1..], b);
      Associate(if Strip(a[0]) != "" then [a[0]] else [], KeepIds(a[1..]), KeepIds(b));
    }
  }

  lemma KeepIdsOfOne(id: string)
    ensures KeepIds([id]) == if Nonblank(id) then [id] else []
  {
    StripIsEmpty(id);
    assert [id][1..] == [];
  }

  lemma {:induction false} KeptIds(jobIds: seq<string>, id: string)
    ensures id in KeepIds(jobIds) <==> id in jobIds && Nonblank(id)
  {
    if jobIds != [] {
      KeptIds(jobIds[1..], id);
      StripIsEmpty(jobIds[0]);
    }
  }

  /** There is an id to cancel, and every id but blank ones is plain. */
  ghost predicate GoodIds(jobIds: seq<string>) {
    && (exists id :: id in jobIds && Nonblank(id))
    && (forall id :: id in jobIds && Nonblank(id) ==> PlainId(id))
  }

  lemma GoodIdsAreKept(jobIds: seq<string>)
    requires GoodIds(jobIds)
    ensures KeepIds(jobIds) != [] && AllPlain(KeepIds(jobIds))
  {
    var id :| id in jobIds && Nonblank(id);
    KeptIds(jobIds, id);
    forall k | 0 <= k < |KeepIds(jobIds)| ensures PlainId(KeepIds(jobIds)[k]) {
      KeptIds(jobIds, KeepIds(jobIds)[k]);
    }
  }

  /** Some part of the range, white space around it ignored, is a segment that holds the task. */
  ghost predicate TaskInRange(range: string, task: nat) {
    exists k :: 0 <= k < |Split(range, ',')| && InSegment(Strip(Split(range, ',')[k]), task)
  }

  lemma TaskInRangeIs(range: string, task: nat)
    ensures TaskInRange(range, task) <==> InSome(Segments(Split(range, ',')), task)
  {
    var parts := Split(range, ',');
    var segs := Segments(parts);
    if k :| 0 <= k < |parts| && InSegment(Strip(parts[k]), task) {
      SegmentsMember(parts, Strip(parts[k]));
      var j :| 0 <= j < |segs| && segs[j] == Strip(parts[k]);
    }
    if j :| 0 <= j < |segs| && InSegment(segs[j], task) {
      SegmentsMember(parts, segs[j]);
      var k :| 0 <= k < |parts| && Strip(parts[k]) == segs[j];
    }
  }

  lemma BothSides(jobIds: seq<string>, range: string, id: string, task: nat)
    requires GoodIds(jobIds) && range != "" && WellFormed(Segments(Split(range, ',')))
    ensures ComposeCancel(Sge, jobIds, range).Ok? && ComposeCancel(Slurm, jobIds, range).Ok?
    ensures SgeCancels(ComposeCancel(Sge, jobIds, range).value, id, task)
       <==> id in jobIds && Nonblank(id) && TaskInRange(range, task)
    ensures SlurmCancels(ComposeCancel(Slurm, jobIds, range).value, id, task)
       <==> Solid(range) && id in jobIds && Nonblank(id) && TaskInRange(range, task)
  {
    GoodIdsAreKept(jobIds);
    SgeSide(jobIds, range, id, task);
    SlurmSide(jobIds, range, id, task);
    KeptIds(jobIds, id);
    TaskInRangeIs(range, task);
  }

  /** For any range whose stripped, non-empty parts are well-formed segments: the SGE sequence cancels
      exactly every id that is not blank in every task of the range, and the one SLURM call cancels the same
      exactly when the range holds no white space, or nothing to cancel. */
  lemma SameCancellation(jobIds: seq<string>, range: string)
    requires GoodIds(jobIds)
    requires range != "" && WellFormed(Segments(Split(range, ',')))
    ensures ComposeCancel(Sge, jobIds, range).Ok? && ComposeCancel(Slurm, jobIds, range).Ok?
    ensures forall id, task: nat :: SgeCancels(ComposeCancel(Sge, jobIds, range).value, id, task)
              <==> id in jobIds && Nonblank(id) && TaskInRange(range, task)
    ensures SameTasks(ComposeCancel(Sge, jobIds, range).value, ComposeCancel(Slurm, jobIds, range).value)
       <==> Solid(range) || forall task: nat :: !TaskInRange(range, task)
  {
    RefusedExactly(Sge, jobIds, range);
    RefusedExactly(Slurm, jobIds, range);
    var sge, slurm := ComposeCancel(Sge, jobIds, range).value, ComposeCancel(Slurm, jobIds, range).value;
    forall id, task: nat
      ensures SgeCancels(sge, id, task) <==> id in jobIds && Nonblank(id) && TaskInRange(range, task)
      ensures SlurmCancels(slurm, id, task) <==> Solid(range) && SgeCancels(sge, id, task)
    {
      BothSides(jobIds, range, id, task);
    }
    if SameTasks(sge, slurm) && !Solid(range) {
      var id :| id in jobIds && Nonblank(id);
      forall task: nat ensures !TaskInRange(range, task) {
        assert !SlurmCancels(slurm, id, task);
      }
    }
  }

  /** Nothing is to be cancelled exactly when every segment ends before it begins. */
  lemma NothingToCancel(range: string)
    requires WellFormed(Segments(Split(range, ',')))
    ensures (forall task: nat :: !TaskInRange(range, task)) <==> AllEmpty(Segments(Split(range, ',')))
  {
    forall task: nat ensures TaskInRange(range, task) <==> InSome(Segments(Split(range, ',')), task) {
      TaskInRangeIs(range, task);
    }
    AllEmptyMeans(Segments(Split(range, ',')));
  }

  /** The refusals: an unknown scheduler, and nothing but blank ids. */
  lemma RefusedExactly(scheduler: Scheduler, jobIds: seq<string>, range: string)
    ensures ComposeCancel(scheduler, jobIds, range).Ok?
       <==> scheduler != Unknown && exists id :: id in jobIds && Nonblank(id)
    ensures ComposeCancel(scheduler, jobIds, range) == Err(UnknownScheduler) <==> scheduler == Unknown
  {
    if id :| id in jobIds && Nonblank(id) { KeptIds(jobIds, id); }
    if KeepIds(jobIds) != [] { KeptIds(jobIds, KeepIds(jobIds)[0]); }
  }

  /** Without a range both commands name exactly the ids that are not blank. */
  lemma WholeJobs(scheduler: Scheduler, jobIds: seq<string>)
    requires GoodIds(jobIds) && scheduler != Unknown
    ensures ComposeCancel(scheduler, jobIds, "").Ok?
    ensures Words(ComposeCancel(scheduler, jobIds, "").value)
         == [if scheduler == Slurm then "scancel" else "qdel"] + KeepIds(jobIds)
  {
    GoodIdsAreKept(jobIds);
    var verb := if scheduler == Slurm then "scancel" else "qdel";
    var words := [verb] + KeepIds(jobIds);
    assert words[1..] == KeepIds(jobIds);
    assert Join(words, ' ') == verb + [' '] + Join(KeepIds(jobIds), ' ');
    assert "scancel" + [' '] == "scancel " && "qdel" + [' '] == "qdel ";
    forall k | 0 <= k < |words| ensures words[k] != "" && Solid(words[k]) {
      assert k > 0 ==> PlainId(KeepIds(jobIds)[k - 1]);
    }
    WordsOfJoin(words);
  }

  lemma SgeSide(jobIds: seq<string>, range: string, id: string, task: nat)
    requires KeepIds(jobIds) != [] && AllPlain(KeepIds(jobIds))
    requires range != "" && WellFormed(Segments(Split(range, ',')))
    ensures SgeCancels(ComposeCancel(Sge, jobIds, range).value, id, task)
       <==> id in KeepIds(jobIds) && InSome(Segments(Split(range, ',')), task)
  {
    if Segments(Split(range, ',')) == [] {
      EmptyRangeCancelsNothing(jobIds, range);
    } else {
      SgeCancelsExactly(KeepIds(jobIds), Segments(Split(range, ',')), id, task);
    }
  }

  lemma SlurmSide(jobIds: seq<string>, range: string, id: string, task: nat)
    requires KeepIds(jobIds) != [] && AllPlain(KeepIds(jobIds))
    requires range != "" && WellFormed(Segments(Split(range, ',')))
    ensures SlurmCancels(ComposeCancel(Slurm, jobIds, range).value, id, task)
       <==> Solid(range) && id in KeepIds(jobIds) && InSome(Segments(Split(range, ',')), task)
  {
    if Solid(range) {
      SlurmCancelsExactly(KeepIds(jobIds), range, id, task);
      SolidRangeReadsTheSame(range, task);
    } else {
      NoBrackets(range, '[');
      NoBrackets(range, ']');
      WhiteSpaceCancelsNothing(KeepIds(jobIds), range, id, task);
    }
  }

  /** One blank is enough: for job 7 and the range "1, 2" the SGE form cancels task 2, the SLURM form
      does not. */
  lemma BlankLosesTasks(jobIds: seq<string>, range: string)
    requires jobIds == ["7"] && range == "1, 2"
    ensures SgeCancels(ComposeCancel(Sge, jobIds, range).value, "7", 2)
    ensures !SlurmCancels(ComposeCancel(Slurm, jobIds, range).value, "7", 2)
  {
    TwoDigits(range, '1', '2');
    assert "7"[0] == '7';
    StripKeeps(jobIds[0]);
    assert jobIds[1..] == [] && KeepIds(jobIds) == jobIds;
    assert IsSpace(range[2]);
    assert InSegment(['2'], 2);
    assert InSegment([['1'], ['2']][1], 2);
    WhiteSpaceLoses(jobIds, range, "7", 2);
  }

  lemma WhiteSpaceLoses(jobIds: seq<string>, range: string, id: string, task: nat)
    requires KeepIds(jobIds) != [] && AllPlain(KeepIds(jobIds)) && id in KeepIds(jobIds)
    requires WellFormed(Segments(Split(range, ','))) && !Solid(range) && InSome(Segments(Split(range, ',')), task)
    ensures SgeCancels(ComposeCancel(Sge, jobIds, range).value, id, task)
    ensures !SlurmCancels(ComposeCancel(Slurm, jobIds, range).value, id, task)
  {
    SgeSide(jobIds, range, id, task);
    SlurmSide(jobIds, range, id, task);
  }

  /** Two one-digit segments behind a comma and a blank. */
  lemma TwoDigits(range: string, c: char, d: char)
    requires '0' <= c <= '9' && '0' <= d <= '9' && range == [c, ',', ' ', d]
    ensures Segments(Split(range, ',')) == [[c], [d]] && WellFormed([[c], [d]])
    ensures ParseSegment([d]) == Some(Range(d as int - '0' as int, d as int - '0' as int, 1))
  {
    SplitTwo(range, c, d);
    SegmentsOfTwo(c, d);
    Digit(c);
    Digit(d);
  }

  lemma SplitTwo(range: string, c: char, d: char)
    requires c != ',' && d != ',' && range == [c, ',', ' ', d]
    ensures Split(range, ',') == [[c], [' ', d]]
  {
    assert range == [c] + [','] + [' ', d];
    SplitBehindPart([c], ',', [' ', d]);
    SplitOfPart([' ', d], ',');
  }

  lemma SegmentsOfTwo(c: char, d: char)
    requires !IsSpace(c) && !IsSpace(d)
    ensures Segments([[c], [' ', d]]) == [[c], [d]]
  {
    var parts := [[c], [' ', d]];
    StripKeeps([c]);
    StripKeeps([d]);
    assert [' ', d][1..] == [d];
    assert Strip(parts[0]) == [c] && Strip(parts[1]) == [d];
    assert parts[1..][0] == parts[1] && parts[1..][1..] == [];
    assert Segments(parts[1..]) == [[d]];
  }

  lemma Digit(c: char)
    requires '0' <= c <= '9'
    ensures var n := c as int - '0' as int; ParseSegment([c]) == Some(Range(n, n, 1))
  {
    var s := [c];
    SplitOfPart(s, '-');
    assert s[..|s| - 1] == "" && NatOf("") == 0;
    assert NatOf(s) == c as int - '0' as int;
  }

  /** A range of commas and blanks alone composes to an empty SGE command: nothing is cancelled. */
  lemma EmptyRangeCancelsNothing(jobIds: seq<string>, range: string)
    requires KeepIds(jobIds) != [] && range != "" && Segments(Split(range, ',')) == []
    ensures ComposeCancel(Sge, jobIds, range) == Ok("")
    ensures forall id, task: nat :: !SgeCancels("", id, task)
  {
  }

  /** A segment holds the tasks it steps through from its first to its last. */
  lemma InSegmentExactly(seg: string, task: nat)
    ensures InSegment(seg, task)
       <==> ParseSegment(seg).Some?
            && var r := ParseSegment(seg).value; task <= r.last && exists i: nat :: task == Stepped(r, i)
  {
    if ParseSegment(seg).Some? {
      var r := ParseSegment(seg).value;
      ParsedStep(seg);
      if InSegment(seg, task) {
        var i := (task - r.first) / r.step;
        assert task == Stepped(r, i);
      }
      if i: nat :| task == Stepped(r, i) {
        assert i * r.step >= 0;
        Remainder(task - r.first, i, 0, r.step);
      }
    }
  }

  /** The task `i` steps behind the first. */
  function Stepped(r: Range, i: nat): nat {
    r.first + i * r.step
  }
}
