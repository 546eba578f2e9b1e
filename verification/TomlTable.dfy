/** What the line rewriter of scripts/run_mutation.py does to a TOML document: headers and entries are read
    on their own terms (dotted names with blanks and quotes, brackets counted outside quotes and comments). */
module TomlTable {
  import opened Text
  import opened Lines
  import opened ArrayRewrite
  import opened DottedNames

  // ---------- documents ----------

  datatype Key = Bare(name: string) | Marked(mark: char, name: string)

  /** One segment of a dotted name, with the blanks around it. */
  datatype Part = Part(before: string, key: Key, after: string)

  /** `many` marks a header of an array of tables. The `value` of an entry is the text behind `=`, with all
      its further lines. */
  datatype Piece =
    | Idle(line: string)
    | Header(indent: string, name: seq<Part>, many: bool, trailer: string)
    | Entry(indent: string, name: seq<Part>, value: seq<string>)

  /** The path of the table a piece stands in; None in an array of tables. */
  type Table = Option<seq<string>>

  const ROOT: Table := Some([])
  const SECTION: seq<string> := ["tool", "mutmut"]

  function Spelling(key: Key): string {
    match key
    case Bare(name) => name
    case Marked(mark, name) => [mark] + name + [mark]
  }

  function Segment(p: Part): string {
    p.before + Spelling(p.key) + p.after
  }

  function Written(name: seq<Part>): string {
    if name == [] then ""
    else if |name| == 1 then Segment(name[0])
    else Segment(name[0]) + ("." + Written(name[1..]))
  }

  function Bracketed(name: string, many: bool): string {
    if many then "[[" + name + "]]" else "[" + name + "]"
  }

  function PathOf(name: seq<Part>): (path: seq<string>)
    ensures |path| == |name|
  {
    seq(|name|, k requires 0 <= k < |name| => name[k].key.name)
  }

  function FirstLine(p: Piece): string
    requires p.Entry? ==> p.value != []
  {
    match p
    case Idle(line) => line
    case Header(indent, name, many, trailer) =>
      indent + (Bracketed(Written(name), many) + trailer)
    case Entry(indent, name, value) => indent + (Written(name) + "=" + value[0])
  }

  function MoreLines(p: Piece): seq<string> {
    if p.Entry? && p.value != [] then p.value[1..] else []
  }

  predicate Shaped(doc: seq<Piece>) {
    forall k :: 0 <= k < |doc| && doc[k].Entry? ==> doc[k].value != []
  }

  function Flat(doc: seq<Piece>): seq<string>
    requires Shaped(doc)
  {
    if doc == [] then [] else [FirstLine(doc[0])] + MoreLines(doc[0]) + Flat(doc[1..])
  }

  // ---------- well-formed pieces ----------

  predicate Blanks(s: string) {
    forall k :: 0 <= k < |s| ==> IsSpace(s[k])
  }

  predicate IsMark(c: char) {
    c == '"' || c == '\''
  }

  predicate KeyChar(c: char) {
    !IsSpace(c) && !IsMark(c) && c !in {'=', '.', '#', '[', ']', '{', '}', ','}
  }

  predicate GoodKey(key: Key) {
    match key
    case Bare(name) => name != "" && forall k :: 0 <= k < |name| ==> KeyChar(name[k])
    case Marked(mark, name) => IsMark(mark) && mark !in name
  }

  predicate GoodName(name: seq<Part>) {
    name != [] && forall k :: 0 <= k < |name| ==> Blanks(name[k].before) && Blanks(name[k].after) && GoodKey(name[k].key)
  }

  /** Nothing but white space, or a comment. */
  predicate IdleText(s: string) {
    Strip(s) == "" || Strip(s)[0] == '#'
  }

  /** Bracket depth behind a line: brackets inside quotes and comments do not count. */
  function Scan(s: string, depth: nat, quote: Option<char>): nat {
    if s == "" then depth
    else if quote.Some? then Scan(s[1..], depth, if s[0] == quote.value then None else quote)
    else if s[0] == '#' then depth
    else if IsMark(s[0]) then Scan(s[1..], depth, Some(s[0]))
    else if s[0] == '[' then Scan(s[1..], depth + 1, None)
    else if s[0] == ']' && depth > 0 then Scan(s[1..], depth - 1, None)
    else Scan(s[1..], depth, None)
  }

  function Depth(value: seq<string>): nat {
    if value == [] then 0 else Scan(value[|value| - 1], Depth(value[..|value| - 1]), None)
  }

  /** The array opened on the first line is closed on the last one, not before. */
  predicate ClosesAtEnd(value: seq<string>) {
    && value != [] && Depth(value) == 0
    && (forall n :: 0 < n < |value| ==> Depth(value[..n]) > 0)
  }

  /** How a further line of an array can begin: it is idle, or its first character is one no key starts with. */
  predicate Continues(line: string) {
    IdleText(line) || IsMark(Strip(line)[0]) || Strip(line)[0] in {',', ']', '[', '{', '}'}
  }

  /** A further line of an array of strings: a string is not followed by `=` or a dot. */
  predicate StringLine(line: string) {
    || IdleText(line) || Strip(line)[0] in {',', ']'}
    || (IsMark(Strip(line)[0]) && !KeyBehindQuote(Strip(line)))
  }

  /** The text's leading quoted string is followed by what follows a key. */
  predicate KeyBehindQuote(s: string)
    requires s != ""
  {
    var e := Find(s, [s[0]], 1);
    e.Some? && StripLeft(s[e.value + 1..]) != "" && StripLeft(s[e.value + 1..])[0] in {'=', '.'}
  }

  predicate IsList(p: Piece) {
    p.Entry? && p.value != [] && StripLeft(p.value[0]) != "" && StripLeft(p.value[0])[0] == '['
  }

  /** The piece begins the way its kind does. */
  predicate GoodHead(p: Piece) {
    match p
    case Idle(line) => IdleText(line)
    case Header(indent, name, many, trailer) => Blanks(indent) && GoodName(name) && IdleText(trailer)
    case Entry(indent, name, value) => Blanks(indent) && GoodName(name) && name[0].before == "" && value != []
  }

  predicate WellFormed(p: Piece) {
    && GoodHead(p)
    && (p.Entry? ==> if IsList(p) then ClosesAtEnd(p.value) && forall k :: 0 < k < |p.value| ==> Continues(p.value[k])
                     else |p.value| == 1)
  }

  predicate Names(p: Piece, key: string) {
    p.Entry? && p.name != [] && p.name[|p.name| - 1].key.name == key
  }

  /** The further lines of an entry are those of a string array. */
  predicate HoldsStrings(p: Piece) {
    p.Entry? && forall l :: 0 < l < |p.value| ==> StringLine(p.value[l])
  }

  /** A document whose arrays of `key` hold strings. */
  predicate IsDocument(doc: seq<Piece>, key: string) {
    forall k :: 0 <= k < |doc| ==> IsPiece(doc[k], key)
  }

  predicate IsPiece(p: Piece, key: string) {
    WellFormed(p) && (Names(p, key) && IsList(p) ==> HoldsStrings(p))
  }

  // ---------- what the rewrite is meant to do, and when it does ----------

  /** The piece is the array of `tool.mutmut.<key>`, however header and key spell that. */
  predicate Target(p: Piece, key: string, table: Table) {
    table.Some? && IsList(p) && table.value + PathOf(p.name) == SECTION + [key]
  }

  lemma TargetIsNamed(p: Piece, key: string, table: Table)
    requires Target(p, key, table) && GoodHead(p)
    ensures Names(p, key)
  {
    var path := table.value + PathOf(p.name);
    assert path[|path| - 1] == key;
  }

  function NewValue(values: seq<string>): seq<string> {
    [" ["] + ValueLines(values) + ["]"]
  }

  /** The entry with the new array: under its plain key it is laid out afresh, a longer name is kept. */
  function Replaced(p: Piece, key: string, values: seq<string>): Piece
    requires p.Entry?
  {
    if |p.name| == 1 then Entry("", [Part("", Bare(key), " ")], NewValue(values)) else p.(value := NewValue(values))
  }

  function Behind(p: Piece, table: Table): Table {
    if p.Header? then (if p.many then None else Some(PathOf(p.name))) else table
  }

  /** The key's array in the mutmut table gets the values, every other piece stays. */
  function Replace(doc: seq<Piece>, key: string, values: seq<string>, table: Table): (r: seq<Piece>)
    requires Shaped(doc)
    ensures Shaped(r) && |r| == |doc|
  {
    if doc == [] then []
    else
      var p := if Target(doc[0], key, table) then Replaced(doc[0], key, values) else doc[0];
      [p] + Replace(doc[1..], key, values, Behind(doc[0], table))
  }

  /** The piece is an entry whose name, as it is written, begins with `key`. */
  predicate BeginsWith(p: Piece, key: string) {
    p.Entry? && p.name != [] && p.name[0].key.Bare? && key <= p.name[0].key.name
  }

  /** What the scan thinks about the table behind some lines. */
  function OnAfter(lines: seq<string>, on: bool): bool {
    if lines == [] then on else OnAfter(lines[1..], InTable(lines[0], on))
  }

  function OnBehind(p: Piece, on: bool): bool
    requires p.Entry? ==> p.value != []
  {
    OnAfter([FirstLine(p)] + MoreLines(p), on)
  }

  /** No ']' stands in front of the line that closes the array. */
  predicate BracketsLast(p: Piece)
    requires p.Entry? && p.value != []
  {
    forall k :: 0 <= k < |p.value| - 1 ==> ']' !in p.value[k]
  }

  /** The scan is right about every piece: wherever it believes itself in the table, the only entry that
      begins with the key is the key's own array, it believes so at that array, the array stands there under
      the plain key, and its closing line is the first one with a ']'. `on` is what the scan believes, `table`
      what is the case; the two part at a mutmut header that is not spelled the one expected way or has a
      comment behind it, at any other header with a comment, and at an array line that looks like a header. */
  predicate Clear(doc: seq<Piece>, key: string, on: bool, table: Table)
    requires Shaped(doc)
  {
    doc == [] ||
    var p := doc[0];
    && ((on && BeginsWith(p, key)) <==> Target(p, key, table))
    && (Target(p, key, table) ==> |p.name| == 1 && BracketsLast(p))
    && Clear(doc[1..], key, OnBehind(p, on), Behind(p, table))
  }

  // ---------- first characters ----------

  lemma StripOf(indent: string, s: string)
    requires Blanks(indent) && s != "" && !IsSpace(s[0])
    ensures Strip(indent + s) == StripRight(s) && StripRight(s) != "" && StripRight(s)[0] == s[0]
  {
    StripLeftPad(indent, s);
    StripRightKeepsHead(s);
  }

  lemma {:induction false} StripRightKeepsPrefix(a: string, b: string)
    requires a != "" && !IsSpace(a[|a| - 1])
    ensures a <= StripRight(a + b)
    decreases |b|
  {
    if b != "" && IsSpace(b[|b| - 1]) {
      assert (a + b)[..|a + b| - 1] == a + b[..|b| - 1];
      StripRightKeepsPrefix(a, b[..|b| - 1]);
    } else if b == "" {
      assert a + b == a;
    }
  }

  /** What stands behind the first key of an entry's name, up to the value. */
  function BehindKey(name: seq<Part>): string
    requires name != []
  {
    name[0].after + ((if |name| == 1 then "" else "." + Written(name[1..])) + "=")
  }

  lemma BehindKeyBegins(name: seq<Part>)
    requires GoodName(name) && name[0].before == ""
    ensures Written(name) + "=" == Spelling(name[0].key) + BehindKey(name)
    ensures BehindKey(name) != "" && (IsSpace(BehindKey(name)[0]) || BehindKey(name)[0] in {'=', '.'})
  {
    Glue(Spelling(name[0].key), name[0].after, if |name| == 1 then "" else "." + Written(name[1..]));
    assert Segment(name[0]) + "" == Segment(name[0]);
    if name[0].after != "" { assert IsSpace(name[0].after[0]); }
  }

  lemma Glue(key: string, after: string, rest: string)
    ensures "" + key + after + rest + "=" == key + (after + (rest + "="))
  {
  }

  /** An entry's line begins with its first key and goes on with blanks, a dot or `=`. */
  lemma EntryLine(p: Piece)
    requires p.Entry? && GoodHead(p)
    ensures Spelling(p.name[0].key) + BehindKey(p.name) <= Strip(FirstLine(p))
    ensures Strip(FirstLine(p))[0] == Spelling(p.name[0].key)[0] && !IsSpace(Spelling(p.name[0].key)[0])
  {
    BehindKeyBegins(p.name);
    var a := Spelling(p.name[0].key) + BehindKey(p.name);
    assert a[|a| - 1] == '=';
    StripOf(p.indent, a + p.value[0]);
    StripRightKeepsPrefix(a, p.value[0]);
  }

  lemma HeaderBegins(p: Piece)
    requires p.Header? && GoodHead(p)
    ensures Strip(FirstLine(p)) != "" && Strip(FirstLine(p))[0] == '['
  {
    StripOf(p.indent, Bracketed(Written(p.name), p.many) + p.trailer);
  }

  /** The prefix test fires at an entry exactly when its name begins with the searched key. */
  lemma OpensAtEntry(p: Piece, key: string)
    requires BareKey(key) && p.Entry? && GoodHead(p)
    ensures Opens(FirstLine(p), key) <==> BeginsWith(p, key)
    ensures !IsHeader(FirstLine(p))
  {
    EntryLine(p);
    BehindKeyBegins(p.name);
    var s := Strip(FirstLine(p));
    match p.name[0].key
    case Marked(mark, name) => assert s[0] == mark;
    case Bare(name) => PrefixOfName(key, name, BehindKey(p.name), s);
  }

  /** In front of something no key character begins, only the name decides. */
  lemma PrefixOfName(key: string, name: string, behind: string, s: string)
    requires BareKey(key) && name + behind <= s && behind != "" && (IsSpace(behind[0]) || behind[0] in {'=', '.'})
    ensures key <= s <==> key <= name
  {
    var head := name + behind;
    if |key| > |name| {
      assert s[|name|] == head[|name|] == behind[0];
      NoPrefix(key, s, |name|);
    } else {
      assert s[..|key|] == head[..|key|] == name[..|key|];
    }
  }

  lemma NoPrefix(key: string, s: string, k: nat)
    requires k < |key| && k < |s| && key[k] != s[k]
    ensures !(key <= s)
  {
  }

  lemma QuietLine(line: string, key: string)
    requires BareKey(key) && Continues(line)
    ensures !Opens(line, key)
    ensures StringLine(line) ==> Inert(line, key)
  {
  }

  lemma QuietHead(p: Piece, key: string)
    requires BareKey(key) && GoodHead(p) && !p.Entry?
    ensures !Opens(FirstLine(p), key)
  {
    if p.Header? { HeaderBegins(p); }
  }

  // ---------- where an array closes ----------

  lemma {:induction false} ScanWithoutClose(s: string, depth: nat, quote: Option<char>)
    requires ']' !in s
    ensures Scan(s, depth, quote) >= depth
  {
    if s != "" {
      ScanWithoutClose(s[1..], depth, if quote.Some? && s[0] != quote.value then quote else None);
      ScanWithoutClose(s[1..], depth, Some(s[0]));
      ScanWithoutClose(s[1..], depth + 1, None);
    }
  }

  lemma {:induction false} ScanIdle(s: string, depth: nat)
    requires StripLeft(s) == "" || StripLeft(s)[0] == '#'
    ensures Scan(s, depth, None) == depth
  {
    if s != "" && IsSpace(s[0]) {
      ScanIdle(s[1..], depth);
    }
  }

  lemma {:induction false} ScanOpens(s: string)
    requires StripLeft(s) != "" && StripLeft(s)[0] == '[' && ']' !in s
    ensures Scan(s, 0, None) > 0
  {
    if IsSpace(s[0]) {
      ScanOpens(s[1..]);
    } else {
      ScanWithoutClose(s[1..], 1, None);
    }
  }

  lemma IdleLeft(line: string)
    requires IdleText(line)
    ensures StripLeft(line) == "" || StripLeft(line)[0] == '#'
  {
    var s := StripLeft(line);
    StripLeftEnds(line);
    if s != "" { StripRightKeepsHead(s); }
  }

  lemma {:induction false} StripLeftEnds(s: string)
    ensures StripLeft(s) == "" || !IsSpace(StripLeft(s)[0])
  {
    if s != "" && IsSpace(s[0]) { StripLeftEnds(s[1..]); }
  }

  /** The closing line holds a bracket, and is not idle. */
  lemma ClosingLine(p: Piece)
    requires IsList(p) && WellFormed(p)
    ensures ']' in p.value[|p.value| - 1]
    ensures |p.value| > 1 ==> !IdleText(p.value[|p.value| - 1])
  {
    var n := |p.value| - 1;
    var last := p.value[n];
    if n == 0 {
      assert p.value[..0] == [];
      if ']' !in last { ScanOpens(last); }
    } else {
      assert Depth(p.value[..n]) > 0;
      if ']' !in last { ScanWithoutClose(last, Depth(p.value[..n]), None); }
      if IdleText(last) {
        IdleLeft(last);
        ScanIdle(last, Depth(p.value[..n]));
      }
    }
  }

  // ---------- the rewrite, piece by piece ----------

  lemma {:induction false} RewritePasses(lines: seq<string>, rest: seq<string>, key: string, block: seq<string>, on: bool)
    requires forall k :: 0 <= k < |lines| ==> !Opens(lines[k], key)
    ensures Rewrite(lines + rest, key, block, on) == lines + Rewrite(rest, key, block, OnAfter(lines, on))
    ensures Found(lines + rest, key, on) == Found(rest, key, OnAfter(lines, on))
    decreases |lines|
  {
    if lines == [] {
      assert lines + rest == rest;
    } else {
      var s := lines + rest;
      assert s[0] == lines[0] && s[1..] == lines[1..] + rest;
      RewritePasses(lines[1..], rest, key, block, InTable(lines[0], on));
      assert [lines[0]] + lines[1..] == lines;
      Associate([lines[0]], lines[1..], Rewrite(rest, key, block, OnAfter(lines, on)));
    }
  }

  /** A piece the scan does not open is copied. */
  lemma RewriteCopies(p: Piece, rest: seq<string>, key: string, block: seq<string>, on: bool)
    requires BareKey(key) && WellFormed(p) && !(on && BeginsWith(p, key))
    ensures Rewrite([FirstLine(p)] + MoreLines(p) + rest, key, block, on)
         == [FirstLine(p)] + MoreLines(p) + Rewrite(rest, key, block, OnBehind(p, on))
    ensures Found([FirstLine(p)] + MoreLines(p) + rest, key, on) == Found(rest, key, OnBehind(p, on))
  {
    var more := MoreLines(p);
    if p.Entry? { OpensAtEntry(p, key); } else { QuietHead(p, key); }
    forall k | 0 <= k < |more| ensures !Opens(more[k], key) {
      assert Continues(p.value[k + 1]);
      QuietLine(more[k], key);
    }
    RewriteSteps(FirstLine(p), more, rest, key, block, on);
  }

  lemma RewriteSteps(first: string, more: seq<string>, rest: seq<string>, key: string, block: seq<string>, on: bool)
    requires !(InTable(first, on) && Opens(first, key)) && forall k :: 0 <= k < |more| ==> !Opens(more[k], key)
    ensures Rewrite([first] + more + rest, key, block, on)
         == [first] + more + Rewrite(rest, key, block, OnAfter([first] + more, on))
    ensures Found([first] + more + rest, key, on) == Found(rest, key, OnAfter([first] + more, on))
  {
    var s := [first] + more + rest;
    assert s[0] == first && s[1..] == more + rest;
    assert ([first] + more)[1..] == more;
    RewritePasses(more, rest, key, block, InTable(first, on));
    Associate([first], more, Rewrite(rest, key, block, OnAfter(more, InTable(first, on))));
  }

  /** The key's array, opened by the scan and closed on the first line with a bracket, is replaced. */
  lemma RewriteReplaces(p: Piece, rest: seq<string>, key: string, block: seq<string>)
    requires BareKey(key) && WellFormed(p) && IsList(p) && BeginsWith(p, key) && |p.name| == 1 && BracketsLast(p) && HoldsStrings(p)
    ensures Rewrite([FirstLine(p)] + MoreLines(p) + rest, key, block, true) == block + Rewrite(rest, key, block, true)
    ensures OnBehind(p, true)
  {
    var body := [FirstLine(p)] + MoreLines(p);
    OpensAtEntry(p, key);
    ClosingLine(p);
    FirstLineBracket(p);
    forall k | 0 <= k < |body| - 1 ensures ']' !in body[k] {
      assert ']' !in p.value[k];
    }
    ArrayLengthIs(body, rest);
    assert (body + rest)[0] == body[0] && (body + rest)[|body|..] == rest;
    StringLinesKeepOn(p, key);
  }

  /** On the first line of an entry with a plain key only the value can hold a bracket. */
  lemma FirstLineBracket(p: Piece)
    requires p.Entry? && GoodHead(p) && |p.name| == 1 && p.name[0].key.Bare?
    ensures ']' in FirstLine(p) <==> ']' in p.value[0]
  {
    BehindKeyBegins(p.name);
    var head := p.indent + (p.name[0].key.name + BehindKey(p.name));
    assert FirstLine(p) == head + p.value[0];
    assert ']' !in head;
  }

  lemma StringLinesKeepOn(p: Piece, key: string)
    requires BareKey(key) && WellFormed(p) && HoldsStrings(p)
    ensures forall on :: OnBehind(p, on) == on
  {
    OpensAtEntry(p, key);
    forall on: bool ensures OnBehind(p, on) == on {
      var lines := [FirstLine(p)] + MoreLines(p);
      forall k | 0 <= k < |lines| ensures !IsHeader(lines[k]) {
        if k > 0 { QuietLine(p.value[k], key); assert Continues(p.value[k]); }
      }
      OnStays(lines, on);
    }
  }

  lemma {:induction false} OnStays(lines: seq<string>, on: bool)
    requires forall k :: 0 <= k < |lines| ==> !IsHeader(lines[k])
    ensures OnAfter(lines, on) == on
  {
    if lines != [] { OnStays(lines[1..], on); }
  }

  lemma ReplacedLines(p: Piece, key: string, values: seq<string>)
    requires p.Entry? && |p.name| == 1
    ensures [FirstLine(Replaced(p, key, values))] + MoreLines(Replaced(p, key, values)) == Block(key, values)
  {
    var name := [Part("", Bare(key), " ")];
    assert Written(name) == key + " ";
    assert "" + (key + " " + "=" + " [") == key + " = [";
  }

  predicate HasTarget(doc: seq<Piece>, key: string, table: Table) {
    doc != [] && (Target(doc[0], key, table) || HasTarget(doc[1..], key, Behind(doc[0], table)))
  }

  /** On a clear document the line scan is the replacement, and finds the key if it is there. */
  lemma {:induction false} ClearIsRight(doc: seq<Piece>, key: string, values: seq<string>, on: bool, table: Table)
    requires BareKey(key) && Shaped(doc) && IsDocument(doc, key) && Clear(doc, key, on, table)
    ensures Rewrite(Flat(doc), key, Block(key, values), on) == Flat(Replace(doc, key, values, table))
    ensures Found(Flat(doc), key, on) <==> HasTarget(doc, key, table)
  {
    if doc != [] {
      var p, rest := doc[0], doc[1..];
      ClearIsRight(rest, key, values, OnBehind(p, on), Behind(p, table));
      if Target(p, key, table) {
        ReplacedLines(p, key, values);
        TargetIsNamed(p, key, table);
        RewriteReplaces(p, Flat(rest), key, Block(key, values));
        OpensAtEntry(p, key);
        assert Flat(doc)[0] == FirstLine(p);
      } else {
        RewriteCopies(p, Flat(rest), key, Block(key, values), on);
      }
    }
  }

  // ---------- on any other document it is wrong ----------

  /** Longer than every line. */
  predicate Longer(value: string, lines: seq<string>) {
    forall k :: 0 <= k < |lines| ==> |lines[k]| < |value|
  }

  predicate EndsOpen(line: string) {
    line != "" && line[|line| - 1] == '['
  }

  /** The first value's line of a block, with a value that is in no line of the document. */
  lemma FreshLine(key: string, values: seq<string>, lines: seq<string>)
    requires values != [] && Longer(values[0], lines)
    ensures Block(key, values)[1] == NewValue(values)[1]
    ensures Block(key, values)[1] !in lines && !EndsOpen(Block(key, values)[1]) && EndsOpen(Block(key, values)[0])
  {
    assert Block(key, values)[1] == "    \"" + values[0] + "\",";
  }

  lemma FirstOut(lines: seq<string>, key: string, block: seq<string>, on: bool)
    requires block != [] && Rewrite(lines, key, block, on) != []
    ensures lines != [] && Rewrite(lines, key, block, on)[0] in {lines[0], block[0]}
  {
  }

  lemma ReplacedEndsOpen(p: Piece, key: string, values: seq<string>)
    requires p.Entry?
    ensures EndsOpen(FirstLine(Replaced(p, key, values)))
  {
  }

  lemma FirstMeant(doc: seq<Piece>, key: string, values: seq<string>, table: Table)
    requires Shaped(doc) && Flat(Replace(doc, key, values, table)) != []
    ensures Flat(doc) != []
    ensures var first := Flat(Replace(doc, key, values, table))[0]; first == Flat(doc)[0] || EndsOpen(first)
  {
    if Target(doc[0], key, table) { ReplacedEndsOpen(doc[0], key, values); }
  }

  /** Two lists that differ at index 1 (or of which only one reaches that far) differ. */
  lemma SecondDiffers(a: seq<string>, b: seq<string>, x: string)
    requires |a| > 1 && a[1] == x && (|b| > 1 ==> b[1] != x)
    ensures a != b
  {
  }

  lemma FlatHead(doc: seq<Piece>)
    requires doc != [] && Shaped(doc)
    ensures Flat(doc)[0] == FirstLine(doc[0]) && Flat(doc)[1..] == MoreLines(doc[0]) + Flat(doc[1..])
  {
  }

  lemma SecondLine(doc: seq<Piece>, key: string, values: seq<string>, table: Table)
    requires doc != [] && Shaped(doc) && !Target(doc[0], key, table)
    ensures var meant := Flat(Replace(doc, key, values, table));
            |meant| > 1 ==> |Flat(doc)| > 1 && (meant[1] == Flat(doc)[1] || EndsOpen(meant[1]))
  {
    var r := Replace(doc, key, values, table);
    FlatHead(doc);
    FlatHead(r);
    assert r[1..] == Replace(doc[1..], key, values, Behind(doc[0], table));
    if MoreLines(doc[0]) == [] && |Flat(r)| > 1 {
      assert Flat(r)[1] == Flat(r)[1..][0] == Flat(r[1..])[0];
      FirstMeant(doc[1..], key, values, Behind(doc[0], table));
      assert Flat(doc)[1] == Flat(doc)[1..][0];
    } else if |Flat(r)| > 1 {
      assert Flat(r)[1] == Flat(r)[1..][0] == MoreLines(doc[0])[0];
      assert Flat(doc)[1] == Flat(doc)[1..][0] == MoreLines(doc[0])[0];
    }
  }

  /** An entry of another key, or a scalar, that the scan opens is overwritten. */
  lemma OverwritesEntry(doc: seq<Piece>, key: string, values: seq<string>, on: bool, table: Table)
    requires BareKey(key) && doc != [] && Shaped(doc) && IsDocument(doc, key)
    requires values != [] && Longer(values[0], Flat(doc))
    requires on && BeginsWith(doc[0], key) && !Target(doc[0], key, table)
    ensures Rewrite(Flat(doc), key, Block(key, values), on) != Flat(Replace(doc, key, values, table))
  {
    OpensAtEntry(doc[0], key);
    FlatHead(doc);
    FreshLine(key, values, Flat(doc));
    SecondLine(doc, key, values, table);
    SecondDiffers(Rewrite(Flat(doc), key, Block(key, values), on), Flat(Replace(doc, key, values, table)), Block(key, values)[1]);
  }

  /** An array of the key that the scan does not open stays as it was. */
  lemma MissesArray(doc: seq<Piece>, key: string, values: seq<string>, on: bool, table: Table)
    requires BareKey(key) && doc != [] && Shaped(doc) && IsDocument(doc, key)
    requires values != [] && Longer(values[0], Flat(doc))
    requires !(on && BeginsWith(doc[0], key)) && Target(doc[0], key, table)
    ensures Rewrite(Flat(doc), key, Block(key, values), on) != Flat(Replace(doc, key, values, table))
  {
    var block := Block(key, values);
    var out, meant := Rewrite(Flat(doc), key, block, on), Flat(Replace(doc, key, values, table));
    OpensAtEntry(doc[0], key);
    FlatHead(doc);
    FreshLine(key, values, Flat(doc));
    FlatHead(Replace(doc, key, values, table));
    assert meant[1] == meant[1..][0] == block[1];
    if |out| > 1 {
      assert out[1] == out[1..][0];
      FirstOut(Flat(doc)[1..], key, block, InTable(Flat(doc)[0], on));
      assert Flat(doc)[1] == Flat(doc)[1..][0];
    }
    SecondDiffers(meant, out, block[1]);
  }

  /** An array under a longer name gets that name's table wrong: the new array goes under the bare key. */
  lemma MisnamesArray(doc: seq<Piece>, key: string, values: seq<string>, table: Table)
    requires BareKey(key) && doc != [] && Shaped(doc) && IsDocument(doc, key)
    requires BeginsWith(doc[0], key) && Target(doc[0], key, table) && |doc[0].name| > 1
    ensures Rewrite(Flat(doc), key, Block(key, values), true) != Flat(Replace(doc, key, values, table))
  {
    OpensAtEntry(doc[0], key);
    FlatHead(doc);
    FlatHead(Replace(doc, key, values, table));
    KeptNameHasDot(doc[0], key, values);
    assert Rewrite(Flat(doc), key, Block(key, values), true)[0] == key + " = [";
  }

  lemma KeptNameHasDot(p: Piece, key: string, values: seq<string>)
    requires BareKey(key) && p.Entry? && |p.name| > 1
    ensures FirstLine(Replaced(p, key, values)) != key + " = ["
  {
    DotInName(p.name);
    DotInLine(p.indent, Written(p.name), NewValue(values)[0]);
    assert '.' !in key + " = [";
  }

  lemma DotInName(name: seq<Part>)
    requires |name| > 1
    ensures '.' in Written(name)
  {
    var head := name[0].before + Spelling(name[0].key) + name[0].after;
    assert Written(name) == head + ("." + Written(name[1..]));
    assert Written(name)[|head|] == '.';
  }

  lemma DotInLine(indent: string, name: string, value: string)
    requires '.' in name
    ensures '.' in indent + (name + "=" + value)
  {
    var k :| 0 <= k < |name| && name[k] == '.';
    assert (indent + (name + "=" + value))[|indent| + k] == '.';
  }

  /** A further line of a string array can not begin a piece, unless it is idle. */
  lemma HeadIsNoStringLine(p: Piece)
    requires GoodHead(p) && !p.Idle?
    ensures !StringLine(FirstLine(p))
  {
    if p.Header? {
      HeaderBegins(p);
    } else {
      EntryLine(p);
      match p.name[0].key
      case Bare(name) => assert KeyChar(name[0]);
      case Marked(mark, name) =>
        var behind := (if |p.name| == 1 then "" else "." + Written(p.name[1..])) + "=";
        MarkedKeyGoesOn(Strip(FirstLine(p)), mark, name, p.name[0].after, behind);
    }
  }

  lemma MarkedKeyGoesOn(s: string, mark: char, name: string, gap: string, behind: string)
    requires IsMark(mark) && mark !in name && Blanks(gap) && behind != "" && behind[0] in {'=', '.'}
    requires [mark] + name + [mark] + (gap + behind) <= s
    ensures KeyBehindQuote(s)
  {
    var n := |name| + 1;
    var head := [mark] + name + [mark] + (gap + behind);
    assert s[..|head|] == head;
    assert s[0] == head[0] && s[n] == head[n] == mark;
    assert s[n..n + 1] == [mark];
    forall j | 1 <= j < n ensures !OccursAt(s, [mark], j) {
      assert s[j] == head[j] == name[j - 1];
      Mismatch(s, [mark], j, 0);
    }
    FindIs(s, [s[0]], 1, n);
    TailBehindGap(s, head, n + 1, gap, behind);
    StripLeftPad(gap, behind + s[|head|..]);
  }

  lemma TailBehindGap(s: string, head: string, n: nat, gap: string, behind: string)
    requires head <= s && n <= |head| && head[n..] == gap + behind
    ensures s[n..] == gap + (behind + s[|head|..])
  {
    assert s == head + s[|head|..];
  }

  /** Further lines of a string array up to its closing one. */
  predicate StringTail(left: seq<string>) {
    left != [] && !IdleText(left[|left| - 1]) && forall k :: 0 <= k < |left| ==> StringLine(left[k])
  }

  predicate AllHeads(doc: seq<Piece>) {
    forall k :: 0 <= k < |doc| ==> GoodHead(doc[k])
  }

  /** What is left of a string array does not look like the beginning of a document. */
  lemma {:induction false} LeftoverIsNoDocument(left: seq<string>, doc: seq<Piece>)
    requires StringTail(left) && Shaped(doc) && AllHeads(doc)
    ensures !(left <= Flat(doc))
    decreases |left|
  {
    if doc != [] && left[0] == FirstLine(doc[0]) {
      FlatHead(doc);
      if doc[0].Idle? {
        if |left| > 1 { LeftoverIsNoDocument(left[1..], doc[1..]); }
        PrefixTail(left, Flat(doc));
      } else {
        HeadIsNoStringLine(doc[0]);
      }
    } else if doc != [] {
      FlatHead(doc);
      assert left[0] != Flat(doc)[0];
    }
  }

  lemma PrefixTail(a: seq<string>, b: seq<string>)
    requires a != [] && b != []
    ensures a <= b ==> a[1..] <= b[1..]
  {
  }

  lemma ReplaceKeepsHeads(doc: seq<Piece>, key: string, values: seq<string>, table: Table)
    requires BareKey(key) && Shaped(doc) && AllHeads(doc)
    ensures AllHeads(Replace(doc, key, values, table))
  {
    if doc != [] {
      ReplaceKeepsHeads(doc[1..], key, values, Behind(doc[0], table));
      if doc[0].Entry? {
        assert GoodKey(Bare(key));
        assert GoodHead(Replaced(doc[0], key, values));
      }
    }
  }

  lemma StopsEarly(p: Piece, rest: seq<string>, k: nat) returns (n: nat)
    requires p.Entry? && GoodHead(p) && |p.name| == 1 && p.name[0].key.Bare? && k < |p.value| && ']' in p.value[k]
    ensures 0 < n <= k + 1 && n == ArrayLength([FirstLine(p)] + MoreLines(p) + rest)
  {
    BracketInLines(p, rest, k);
    EarlyLength([FirstLine(p)] + MoreLines(p) + rest, k);
    n := ArrayLength([FirstLine(p)] + MoreLines(p) + rest);
  }

  /** The lines of an array that the skip leaves behind, being stopped in front of the last. */
  lemma LeftBehind(p: Piece, key: string, n: nat)
    requires BareKey(key) && WellFormed(p) && IsList(p) && HoldsStrings(p) && 0 < n < |p.value|
    ensures StringTail(p.value[n..]) && forall l :: n <= l < |p.value| ==> Inert(p.value[l], key)
  {
    ClosingLine(p);
    TailOfStrings(p.value, n);
    InertStrings(p.value, key);
  }

  lemma InertStrings(value: seq<string>, key: string)
    requires BareKey(key) && forall l :: 0 < l < |value| ==> StringLine(value[l])
    ensures forall l :: 0 < l < |value| ==> Inert(value[l], key)
  {
    forall l | 0 < l < |value| ensures Inert(value[l], key) {
      QuietLine(value[l], key);
    }
  }

  lemma BracketInLines(p: Piece, rest: seq<string>, k: nat)
    requires p.Entry? && GoodHead(p) && |p.name| == 1 && p.name[0].key.Bare? && k < |p.value| && ']' in p.value[k]
    ensures ']' in ([FirstLine(p)] + MoreLines(p) + rest)[k]
  {
    if k == 0 { FirstLineBracket(p); }
  }

  lemma EarlyLength(lines: seq<string>, k: nat)
    requires k < |lines| && ']' in lines[k]
    ensures 0 < ArrayLength(lines) <= k + 1
  {
  }

  lemma TailOfStrings(value: seq<string>, n: nat)
    requires n < |value| && !IdleText(value[|value| - 1]) && forall l :: n <= l < |value| ==> StringLine(value[l])
    ensures StringTail(value[n..])
  {
    var left := value[n..];
    forall l | 0 <= l < |left| ensures StringLine(left[l]) {
      assert left[l] == value[n + l];
    }
  }

  lemma RewriteLeaves(p: Piece, rest: seq<string>, key: string, block: seq<string>, n: nat)
    requires BareKey(key) && WellFormed(p) && p.Entry? && BeginsWith(p, key) && 0 < n < |p.value|
    requires n == ArrayLength([FirstLine(p)] + MoreLines(p) + rest)
    requires forall l :: n <= l < |p.value| ==> Inert(p.value[l], key)
    ensures Rewrite([FirstLine(p)] + MoreLines(p) + rest, key, block, true)
         == block + (p.value[n..] + Rewrite(rest, key, block, true))
  {
    OpensAtEntry(p, key);
    assert ([FirstLine(p)] + MoreLines(p))[n..] == p.value[n..];
    SkipLeaves([FirstLine(p)] + MoreLines(p), rest, key, block, n);
  }

  lemma SkipLeaves(body: seq<string>, rest: seq<string>, key: string, block: seq<string>, n: nat)
    requires body != [] && Opens(body[0], key) && !IsHeader(body[0]) && n == ArrayLength(body + rest) && n <= |body|
    requires forall l :: n <= l < |body| ==> Inert(body[l], key)
    ensures Rewrite(body + rest, key, block, true) == block + (body[n..] + Rewrite(rest, key, block, true))
  {
    assert (body + rest)[0] == body[0];
    DropInFirst(body, rest, n);
    RewriteKeepsInert(body[n..], rest, key, block, true);
  }

  lemma LeavesRest(doc: seq<Piece>, key: string, values: seq<string>, table: Table)
    requires BareKey(key) && doc != [] && Shaped(doc) && IsDocument(doc, key)
    requires BeginsWith(doc[0], key) && Target(doc[0], key, table) && |doc[0].name| == 1 && !BracketsLast(doc[0])
    ensures Rewrite(Flat(doc), key, Block(key, values), true) != Flat(Replace(doc, key, values, table))
  {
    var p, lines, block := doc[0], Flat(doc[1..]), Block(key, values);
    var tail := Replace(doc[1..], key, values, Behind(p, table));
    TargetIsNamed(p, key, table);
    var k :| 0 <= k < |p.value| - 1 && ']' in p.value[k];
    var n := StopsEarly(p, lines, k);
    LeftBehind(p, key, n);
    RewriteLeaves(p, lines, key, block, n);
    ReplaceKeepsHeads(doc[1..], key, values, Behind(p, table));
    LeftoverIsNoTail(p.value[n..], Rewrite(lines, key, block, true), tail);
    MeantAtTarget(doc, key, values, table);
    SameFront(block, p.value[n..] + Rewrite(lines, key, block, true), Flat(tail));
  }

  lemma MeantAtTarget(doc: seq<Piece>, key: string, values: seq<string>, table: Table)
    requires doc != [] && Shaped(doc) && Target(doc[0], key, table) && |doc[0].name| == 1
    ensures Flat(Replace(doc, key, values, table))
         == Block(key, values) + Flat(Replace(doc[1..], key, values, Behind(doc[0], table)))
    ensures Flat(doc) == [FirstLine(doc[0])] + MoreLines(doc[0]) + Flat(doc[1..])
  {
    ReplacedLines(doc[0], key, values);
  }

  lemma LeftoverIsNoTail(left: seq<string>, more: seq<string>, tail: seq<Piece>)
    requires StringTail(left) && Shaped(tail) && AllHeads(tail)
    ensures left + more != Flat(tail)
  {
    LeftoverIsNoDocument(left, tail);
    assert left <= left + more;
  }

  /** On a document that is not clear, values with a new first line show the rewrite to be wrong. */
  lemma {:induction false} UnclearIsWrong(doc: seq<Piece>, key: string, values: seq<string>, on: bool, table: Table)
    requires BareKey(key) && Shaped(doc) && IsDocument(doc, key) && !Clear(doc, key, on, table)
    requires values != [] && Longer(values[0], Flat(doc))
    ensures Rewrite(Flat(doc), key, Block(key, values), on) != Flat(Replace(doc, key, values, table))
  {
    var p, rest := doc[0], doc[1..];
    var block := Block(key, values);
    var opens, target := on && BeginsWith(p, key), Target(p, key, table);
    if opens && !target {
      OverwritesEntry(doc, key, values, on, table);
    } else if target && !opens {
      MissesArray(doc, key, values, on, table);
    } else if target && |p.name| > 1 {
      MisnamesArray(doc, key, values, table);
    } else if target && !BracketsLast(p) {
      LeavesRest(doc, key, values, table);
    } else {
      LongerBehind(p, rest, values[0]);
      UnclearIsWrong(rest, key, values, OnBehind(p, on), Behind(p, table));
      var front := if target then block else [FirstLine(p)] + MoreLines(p);
      if target {
        TargetIsNamed(p, key, table);
        ReplacedLines(p, key, values);
        RewriteReplaces(p, Flat(rest), key, block);
      } else {
        RewriteCopies(p, Flat(rest), key, block, on);
      }
      SameFront(front, Rewrite(Flat(rest), key, block, OnBehind(p, on)), Flat(Replace(rest, key, values, Behind(p, table))));
    }
  }

  lemma SameFront(front: seq<string>, x: seq<string>, y: seq<string>)
    requires x != y
    ensures front + x != front + y
  {
    assert (front + x)[|front|..] == x && (front + y)[|front|..] == y;
  }

  lemma LongerBehind(p: Piece, rest: seq<Piece>, value: string)
    requires Shaped([p] + rest) && Shaped(rest) && Longer(value, Flat([p] + rest))
    ensures Longer(value, Flat(rest))
  {
    var n := 1 + |MoreLines(p)|;
    var all := [p] + rest;
    assert all[1..] == rest;
    assert Flat(all) == [FirstLine(p)] + MoreLines(p) + Flat(rest);
    forall k | 0 <= k < |Flat(rest)| ensures |Flat(rest)[k]| < |value| {
      assert Flat(rest)[k] == Flat(all)[n + k];
    }
  }

  function LongValue(lines: seq<string>): (v: string)
    ensures Longer(v, lines)
  {
    if lines == [] then ""
    else
      var v := LongValue(lines[1..]) + lines[0] + "x";
      assert forall k :: 0 < k < |lines| ==> lines[k] == lines[1..][k - 1];
      v
  }

  /** The rewriter replaces the key's array and nothing else, whatever the values. */
  ghost predicate RightOn(doc: seq<Piece>, key: string)
    requires Shaped(doc)
  {
    forall values :: Rewrite(Flat(doc), key, Block(key, values), false) == Flat(Replace(doc, key, values, ROOT))
  }

  /** The rewriter replaces the key's array in the mutmut table and keeps every other entry exactly on the
      clear documents. */
  lemma RightExactlyWhenClear(doc: seq<Piece>, key: string)
    requires BareKey(key) && Shaped(doc) && IsDocument(doc, key)
    ensures RightOn(doc, key) <==> Clear(doc, key, false, ROOT)
  {
    if Clear(doc, key, false, ROOT) {
      forall values ensures Rewrite(Flat(doc), key, Block(key, values), false) == Flat(Replace(doc, key, values, ROOT)) {
        ClearIsRight(doc, key, values, false, ROOT);
      }
    } else {
      var values := [LongValue(Flat(doc))];
      UnclearIsWrong(doc, key, values, false, ROOT);
      assert Rewrite(Flat(doc), key, Block(key, values), false) != Flat(Replace(doc, key, values, ROOT));
    }
  }

  // ---------- the condition in plain documents ----------

  /** Headers without comments, the mutmut table's spelled the one expected way, and no array line that looks
      like a header. */
  predicate Plain(doc: seq<Piece>) {
    forall k :: 0 <= k < |doc| ==>
      && (doc[k].Header? ==> Blanks(doc[k].trailer))
      && (doc[k].Header? && !doc[k].many && PathOf(doc[k].name) == SECTION ==> Written(doc[k].name) == Dots(SECTION))
      && (doc[k].Entry? ==> forall l :: 0 < l < |doc[k].value| ==> !IsHeader(doc[k].value[l]))
  }

  /** The table the `i`th piece stands in. */
  function TableAt(doc: seq<Piece>, i: nat, table: Table): Table
    requires i < |doc|
  {
    if i == 0 then table else TableAt(doc[1..], i - 1, Behind(doc[0], table))
  }

  /** In the mutmut table an entry begins with the key only if it is the key's own array; that array stands
      under the plain key in this table and nowhere else, and its first ']' is on the closing line. */
  predicate Fine(p: Piece, key: string, table: Table)
    requires p.Entry? ==> p.value != []
  {
    && ((table == Some(SECTION) && BeginsWith(p, key)) <==> Target(p, key, table))
    && (Target(p, key, table) ==> |p.name| == 1 && BracketsLast(p))
  }

  lemma {:induction false} StripRightPad(s: string, pad: string)
    requires s != "" && !IsSpace(s[|s| - 1]) && Blanks(pad)
    ensures StripRight(s + pad) == s
    decreases |pad|
  {
    if pad == "" {
      assert s + pad == s;
    } else {
      assert (s + pad)[..|s + pad| - 1] == s + pad[..|pad| - 1];
      StripRightPad(s, pad[..|pad| - 1]);
    }
  }

  /** Blanks and quotes of a part show in its text. */
  lemma PartShows(p: Part)
    requires Blanks(p.before) && Blanks(p.after) && GoodKey(p.key)
    ensures var head := p.before + Spelling(p.key) + p.after;
            && (p.before != "" ==> head != "" && IsSpace(head[0]))
            && (p.after != "" ==> head != "" && IsSpace(head[|head| - 1]))
            && (p.before == "" && p.key.Marked? ==> head != "" && IsMark(head[0]))
  {
  }

  lemma PlainPart(p: Part, w: string)
    requires Blanks(p.before) && Blanks(p.after) && GoodKey(p.key) && p.before + Spelling(p.key) + p.after <= w
    requires NoBlankNoMark(w)
    ensures p.before == "" && p.after == "" && p.key.Bare? && p.before + Spelling(p.key) + p.after == p.key.name
  {
    var head := p.before + Spelling(p.key) + p.after;
    PartShows(p);
    assert forall k :: 0 <= k < |head| ==> w[k] == head[k];
  }

  predicate NoBlankNoMark(w: string) {
    forall k :: 0 <= k < |w| ==> !IsSpace(w[k]) && !IsMark(w[k])
  }

  lemma PlainRest(w: string, head: string, rest: string)
    requires w == head + ("." + rest) && NoBlankNoMark(w)
    ensures NoBlankNoMark(rest)
  {
    forall k | 0 <= k < |rest| ensures !IsSpace(rest[k]) && !IsMark(rest[k]) {
      assert rest[k] == w[|head| + 1 + k];
    }
  }

  /** Without blanks and quotes a dotted name is written as its path. */
  lemma {:induction false} WrittenPlainly(name: seq<Part>)
    requires GoodName(name) && NoBlankNoMark(Written(name))
    ensures Written(name) == Dots(PathOf(name)) && Segments(PathOf(name))
  {
    var p, w, path := name[0], Written(name), PathOf(name);
    WrittenUnfolds(name);
    PlainPart(p, w);
    if |name| > 1 {
      var tail := Written(name[1..]);
      PlainRest(w, p.key.name, tail);
      WrittenPlainly(name[1..]);
      DotsUnfold(w, path, tail);
    }
  }

  lemma WrittenUnfolds(name: seq<Part>)
    requires name != []
    ensures Written(name) == if |name| == 1 then Segment(name[0]) else Segment(name[0]) + ("." + Written(name[1..]))
    ensures PathOf(name)[0] == name[0].key.name && PathOf(name)[1..] == PathOf(name[1..])
  {
  }

  lemma DotsUnfold(w: string, path: seq<string>, tail: string)
    requires |path| > 1 && path[0] != "" && '.' !in path[0] && Segments(path[1..])
    requires w == path[0] + ("." + tail) && tail == Dots(path[1..])
    ensures w == Dots(path) && Segments(path)
  {
    SegmentsCons(path);
    assert path[0] + "." + tail == path[0] + ("." + tail);
  }

  lemma SegmentsCons(path: seq<string>)
    requires |path| > 1 && path[0] != "" && '.' !in path[0] && Segments(path[1..])
    ensures Segments(path) && Dots(path) == path[0] + "." + Dots(path[1..])
  {
    forall k | 0 <= k < |path| ensures path[k] != "" && '.' !in path[k] {
      assert k > 0 ==> path[k] == path[1..][k - 1];
    }
  }

  lemma SectionIsWritten(name: seq<Part>)
    requires GoodName(name) && Written(name) == Dots(SECTION)
    ensures PathOf(name) == SECTION
  {
    SectionText(Written(name));
    WrittenPlainly(name);
    SectionSegments(SECTION);
    DotsInjective(PathOf(name), SECTION);
  }

  lemma SectionText(w: string)
    requires w == Dots(SECTION)
    ensures w == "tool.mutmut" && NoBlankNoMark(w)
  {
    assert SECTION[1..] == ["mutmut"];
  }

  lemma SectionSegments(path: seq<string>)
    requires path == SECTION
    ensures Segments(path)
  {
  }

  lemma PlainHeader(p: Piece, on: bool)
    requires p.Header? && GoodHead(p) && Plain([p])
    ensures InTable(FirstLine(p), on) <==> Behind(p, ROOT) == Some(SECTION)
  {
    assert [p][0] == p;
    var s := Bracketed(Written(p.name), p.many);
    StripOf(p.indent, s + p.trailer);
    StripRightPad(s, p.trailer);
    BracketedIsTable(Written(p.name), p.many);
    if Written(p.name) == Dots(SECTION) { SectionIsWritten(p.name); }
  }

  lemma BracketedIsTable(name: string, many: bool)
    ensures Bracketed(name, many) == TABLE <==> !many && name == Dots(SECTION)
    ensures var s := Bracketed(name, many); s[0] == '[' && s[|s| - 1] == ']' && !IsSpace(s[0]) && !IsSpace(s[|s| - 1])
  {
    var s := Bracketed(name, many);
    SectionText(Dots(SECTION));
    assert TABLE == "[" + Dots(SECTION) + "]" && TABLE[1] == 't';
    if !many { assert s[1..|s| - 1] == name; }
    assert TABLE[1..|TABLE| - 1] == Dots(SECTION);
  }

  /** In a plain document the scan always knows where it is. */
  lemma PlainPiece(p: Piece, key: string, table: Table)
    requires BareKey(key) && WellFormed(p) && Plain([p])
    ensures OnBehind(p, table == Some(SECTION)) <==> Behind(p, table) == Some(SECTION)
  {
    assert [p][0] == p;
    var lines, on := [FirstLine(p)] + MoreLines(p), table == Some(SECTION);
    if p.Header? {
      PlainHeader(p, on);
      assert OnAfter(lines, on) == OnAfter([], InTable(FirstLine(p), on)) by { assert lines[1..] == []; }
    } else {
      forall k | 0 <= k < |lines| ensures !IsHeader(lines[k]) {
        if k > 0 { assert lines[k] == p.value[k]; } else if p.Entry? { OpensAtEntry(p, key); }
      }
      OnStays(lines, on);
    }
  }

  /** A plain document is clear exactly when every piece is fine in its table. */
  lemma {:induction false} PlainIsClearWhenFine(doc: seq<Piece>, key: string, table: Table)
    requires BareKey(key) && Shaped(doc) && IsDocument(doc, key) && Plain(doc)
    ensures Clear(doc, key, table == Some(SECTION), table)
       <==> forall i :: 0 <= i < |doc| ==> Fine(doc[i], key, TableAt(doc, i, table))
  {
    if doc != [] {
      var p, rest, behind := doc[0], doc[1..], Behind(doc[0], table);
      assert Plain([p]) && Plain(rest);
      PlainPiece(p, key, table);
      PlainIsClearWhenFine(rest, key, behind);
      AllFineFirst(doc, key, table);
    }
  }

  lemma AllFineFirst(doc: seq<Piece>, key: string, table: Table)
    requires doc != [] && Shaped(doc)
    ensures (forall i :: 0 <= i < |doc| ==> Fine(doc[i], key, TableAt(doc, i, table)))
       <==> Fine(doc[0], key, table)
            && forall i :: 0 <= i < |doc[1..]| ==> Fine(doc[1..][i], key, TableAt(doc[1..], i, Behind(doc[0], table)))
  {
    var rest, behind := doc[1..], Behind(doc[0], table);
    forall i | 0 <= i < |rest| ensures TableAt(rest, i, behind) == TableAt(doc, i + 1, table) && rest[i] == doc[i + 1] {}
    assert TableAt(doc, 0, table) == table;
    if forall i :: 0 <= i < |doc| ==> Fine(doc[i], key, TableAt(doc, i, table)) {
      assert Fine(doc[0], key, TableAt(doc, 0, table));
    }
  }

  // ---------- inputs on which it is wrong ----------

  const KEY: string := "tests_dir"

  /** A sibling key that merely begins with the searched one is overwritten. */
  lemma SiblingIsOverwritten(values: seq<string>)
    ensures Rewrite([TABLE, "tests_dir_extra = [", "]"], KEY, Block(KEY, values), false) == [TABLE] + Block(KEY, values)
  {
    var lines := [TABLE, "tests_dir_extra = [", "]"];
    StripKeeps(TABLE);
    StripKeeps(lines[1]);
    RewriteTail(lines, KEY, Block(KEY, values));
  }

  /** Behind a scalar value the scan eats the following keys up to the next bracket. */
  lemma ScalarSwallowsNextKeys(values: seq<string>)
    ensures Rewrite([TABLE, "tests_dir = 't'", "runner = 'r'", "also_copy = ['a']"], KEY, Block(KEY, values), false)
         == [TABLE] + Block(KEY, values)
  {
    var lines := [TABLE, "tests_dir = 't'", "runner = 'r'", "also_copy = ['a']"];
    StripKeeps(TABLE);
    StripKeeps(lines[1]);
    RewriteTail(lines, KEY, Block(KEY, values));
  }

  /** A bracket inside a string ends the array early: the rest of it stays behind the new block. */
  lemma BracketInStringLeavesRest(values: seq<string>)
    ensures Rewrite([TABLE, "tests_dir = [", "'t[a]',", "'u',", "]"], KEY, Block(KEY, values), false)
         == [TABLE] + Block(KEY, values) + ["'u',", "]"]
  {
    var lines := [TABLE, "tests_dir = [", "'t[a]',", "'u',", "]"];
    StripKeeps(TABLE);
    assert lines[1..] == ["tests_dir = [", "'t[a]',", "'u',", "]"];
    RestStays(Block(KEY, values));
  }

  lemma RestStays(block: seq<string>)
    ensures Rewrite(["tests_dir = [", "'t[a]',", "'u',", "]"], KEY, block, true) == block + ["'u',", "]"]
  {
    var tail, rest := ["tests_dir = [", "'t[a]',", "'u',", "]"], ["'u',", "]"];
    StripKeeps(tail[0]);
    StripKeeps("'u',");
    StripKeeps("]");
    RewriteKeepsInert(rest, [], KEY, block, true);
    assert rest + [] == rest;
    assert tail[1..][0] == "'t[a]'," && tail[2..] == rest;
    assert "'t[a]',"[4] == ']' && ArrayLength(tail) == 2;
  }

  /** Behind a commented header the table is not recognized and the key not found. */
  lemma CommentHidesTable()
    ensures !Found(["[tool.mutmut] # sweep", "tests_dir = [", "]"], KEY, false)
  {
    StripKeeps("[tool.mutmut] # sweep");
    StripKeeps("tests_dir = [");
    StripKeeps("]");
  }

  lemma TwoLines(doc: seq<Piece>)
    requires |doc| == 2 && Shaped(doc) && MoreLines(doc[0]) == [] && MoreLines(doc[1]) == []
    ensures Flat(doc) == [FirstLine(doc[0]), FirstLine(doc[1])]
  {
    var rest := doc[1..];
    assert rest[0] == doc[1] && rest[1..] == [];
    assert Flat(rest) == [FirstLine(doc[1])] + [] + [];
    assert Flat(doc) == [FirstLine(doc[0])] + [] + Flat(rest);
  }

  lemma HiddenTable(header: string, entry: string, key: string)
    requires !InTable(header, false) && !IsHeader(entry)
    ensures !Found([header, entry], key, false)
  {
    var lines := [header, entry];
    assert lines[1..] == [entry] && lines[1..][1..] == [];
    assert Found(lines, key, false) == Found(lines[1..], key, false) == Found([], key, false);
  }

  lemma OnePart(a: Part)
    ensures Written([a]) == a.before + Spelling(a.key) + a.after
  {
    assert Written([a]) == a.before + Spelling(a.key) + a.after + "";
  }

  lemma TwoParts(a: Part, b: Part)
    ensures Written([a, b]) == a.before + Spelling(a.key) + a.after + ("." + Written([b]))
  {
    assert [a, b][1..] == [b];
  }

  lemma HasSecond(head: Piece, entry: Piece, key: string)
    requires Target(entry, key, Behind(head, ROOT))
    ensures HasTarget([head, entry], key, ROOT)
  {
    var doc := [head, entry];
    assert doc[1..][0] == entry;
  }

  /** An array that is there, under a header that does not look like the table's. */
  lemma HiddenArray(head: Piece, entry: Piece, header: string, line: string, key: string)
    requires head.Header? && GoodHead(head) && entry.Entry? && |entry.value| == 1
    requires FirstLine(head) == header && FirstLine(entry) == line
    requires Target(entry, key, Behind(head, ROOT))
    requires Strip(header) == header != TABLE && Strip(line) == line != "" && line[0] != '['
    ensures HasTarget([head, entry], key, ROOT) && !Found(Flat([head, entry]), key, false)
  {
    TwoLines([head, entry]);
    HiddenTable(header, line, key);
    HasSecond(head, entry, key);
  }

  lemma BlankHeaderLine(head: Piece)
    requires head == Header("", [Part(" ", Bare("tool"), ""), Part("", Bare("mutmut"), " ")], false, "")
    ensures FirstLine(head) == "[ tool.mutmut ]"
  {
    var a, b := Part(" ", Bare("tool"), ""), Part("", Bare("mutmut"), " ");
    OnePart(b);
    TwoParts(a, b);
    assert Written([b]) == "mutmut ";
    assert Written([a, b]) == " tool.mutmut ";
  }

  lemma PlainEntryLine(entry: Piece)
    requires entry == Entry("", [Part("", Bare(KEY), " ")], [" []"])
    ensures FirstLine(entry) == "tests_dir = []"
  {
    OnePart(Part("", Bare(KEY), " "));
    assert Written(entry.name) == "tests_dir ";
  }

  lemma BlankTarget(head: Piece, entry: Piece)
    requires head == Header("", [Part(" ", Bare("tool"), ""), Part("", Bare("mutmut"), " ")], false, "")
    requires entry == Entry("", [Part("", Bare(KEY), " ")], [" []"])
    ensures Target(entry, KEY, Behind(head, ROOT)) && GoodHead(head)
  {
    assert PathOf(head.name) == SECTION && PathOf(entry.name) == [KEY];
    assert entry.value[0][1..] == "[]";
  }

  /** Blanks inside the brackets of the header hide the table as well. */
  lemma BlanksHideTable(head: Piece, entry: Piece)
    requires head == Header("", [Part(" ", Bare("tool"), ""), Part("", Bare("mutmut"), " ")], false, "")
    requires entry == Entry("", [Part("", Bare(KEY), " ")], [" []"])
    ensures FirstLine(head) == "[ tool.mutmut ]" && FirstLine(entry) == "tests_dir = []"
    ensures HasTarget([head, entry], KEY, ROOT) && !Found(Flat([head, entry]), KEY, false)
  {
    BlankHeaderLine(head);
    PlainEntryLine(entry);
    StripKeeps("[ tool.mutmut ]");
    StripKeeps("tests_dir = []");
    BlankTarget(head, entry);
    HiddenArray(head, entry, "[ tool.mutmut ]", "tests_dir = []", KEY);
  }

  lemma ToolHeaderLine(head: Piece)
    requires head == Header("", [Part("", Bare("tool"), "")], false, "")
    ensures FirstLine(head) == "[tool]"
  {
    OnePart(Part("", Bare("tool"), ""));
  }

  lemma DottedEntryLine(entry: Piece)
    requires entry == Entry("", [Part("", Bare("mutmut"), ""), Part("", Bare(KEY), " ")], [" []"])
    ensures FirstLine(entry) == "mutmut.tests_dir = []"
  {
    var a, b := Part("", Bare("mutmut"), ""), Part("", Bare(KEY), " ");
    OnePart(b);
    TwoParts(a, b);
    assert Written([b]) == "tests_dir ";
    assert Written(entry.name) == "mutmut.tests_dir ";
  }

  /** So does a dotted key in the table above. */
  lemma DottedKeyHidesArray(head: Piece, entry: Piece)
    requires head == Header("", [Part("", Bare("tool"), "")], false, "")
    requires entry == Entry("", [Part("", Bare("mutmut"), ""), Part("", Bare(KEY), " ")], [" []"])
    ensures FirstLine(head) == "[tool]" && FirstLine(entry) == "mutmut.tests_dir = []"
    ensures HasTarget([head, entry], KEY, ROOT) && !Found(Flat([head, entry]), KEY, false)
  {
    ToolHeaderLine(head);
    DottedEntryLine(entry);
    StripKeeps("[tool]");
    StripKeeps("mutmut.tests_dir = []");
    assert PathOf(head.name) == ["tool"] && PathOf(entry.name) == ["mutmut", KEY];
    assert entry.value[0][1..] == "[]";
    HiddenArray(head, entry, "[tool]", "mutmut.tests_dir = []", KEY);
  }

  /** A table line, an opening line, and no bracket in front of the last line: one block is all that is left. */
  lemma RewriteTail(lines: seq<string>, key: string, block: seq<string>)
    requires |lines| > 1 && Strip(lines[0]) == TABLE && BareKey(key) && !Opens(lines[0], key)
    requires !IsHeader(lines[1]) && Opens(lines[1], key) && forall k :: 0 < k < |lines| - 1 ==> ']' !in lines[k]
    ensures Rewrite(lines, key, block, false) == [lines[0]] + block
  {
    var rest := lines[1..];
    forall k | 0 <= k < |rest| - 1 ensures ']' !in rest[k] {
      assert rest[k] == lines[k + 1];
    }
    ArrayLengthIs(rest, []);
    assert rest + [] == rest && rest[0] == lines[1] && rest[|rest|..] == [] && block + [] == block;
    assert Rewrite(rest, key, block, true) == block;
  }
}
