/** The array rewriter on whole TOML texts, and the scoped pyproject of scripts/run_mutation.py. */
module ScopedPyproject {
  import opened Text
  import opened Lines
  import opened ArrayRewrite
  import opened TomlTable

  // ---------- one rewrite of a whole text ----------

  predicate Gives(r: Result<string, Error>, doc: seq<Piece>)
    requires Shaped(doc)
  {
    r.Ok? && TomlLines(r.value) == Flat(doc)
  }

  /** The text comes out as its document with just the key's array replaced, whatever the values. */
  ghost predicate RightOnText(text: string, doc: seq<Piece>, key: string)
    requires Shaped(doc)
  {
    forall values :: OneLineEach(values) ==> Gives(ReplaceText(text, key, values), Replace(doc, key, values, ROOT))
  }

  /** The lines of the key's arrays hold no line break. */
  predicate TargetsOneLine(doc: seq<Piece>, key: string, table: Table)
    requires Shaped(doc)
  {
    doc == []
    || ((Target(doc[0], key, table) ==> OneLineEach([FirstLine(doc[0])] + MoreLines(doc[0])))
        && TargetsOneLine(doc[1..], key, Behind(doc[0], table)))
  }

  /** What is written are single lines: those of the rewritten `splitlines`. */
  lemma WrittenLines(text: string, key: string, values: seq<string>)
    requires BareKey(key) && OneLineEach(values) && ReplaceText(text, key, values).Ok?
    ensures var out := ReplaceText(text, key, values).value;
            && LineEndsOnly(out) && OneLineEach(TomlLines(out))
            && TomlLines(out) == Rewrite(SplitLines(text), key, Block(key, values), false)
  {
    BlockIsOneLineEach(key, values);
    RewriteKeepsOneLine(SplitLines(text), key, Block(key, values), false);
    UnlinesIsToml(Rewrite(SplitLines(text), key, Block(key, values), false));
  }

  /** Any line of the text that `splitlines` breaks is gone from the output, whether it belongs to the key's
      array or not. */
  lemma BrokenLineIsLost(text: string, key: string, values: seq<string>, line: string)
    requires BareKey(key) && OneLineEach(values) && ReplaceText(text, key, values).Ok?
    requires line in TomlLines(text) && !OneLine(line)
    ensures line !in TomlLines(ReplaceText(text, key, values).value)
  {
    WrittenLines(text, key, values);
  }

  lemma LineOfPiece(doc: seq<Piece>, line: string)
    requires doc != [] && Shaped(doc)
    ensures line in Flat(doc) <==> line in [FirstLine(doc[0])] + MoreLines(doc[0]) || line in Flat(doc[1..])
  {
  }

  /** A broken line outside the key's arrays is meant to stay. */
  lemma {:induction false} BrokenLineIsMeant(doc: seq<Piece>, key: string, values: seq<string>, table: Table, line: string)
    requires Shaped(doc) && line in Flat(doc) && !OneLine(line) && TargetsOneLine(doc, key, table)
    ensures line in Flat(Replace(doc, key, values, table))
  {
    var r := Replace(doc, key, values, table);
    LineOfPiece(doc, line);
    LineOfPiece(r, line);
    assert r[1..] == Replace(doc[1..], key, values, Behind(doc[0], table));
    if line in Flat(doc[1..]) {
      BrokenLineIsMeant(doc[1..], key, values, Behind(doc[0], table), line);
    } else {
      assert !Target(doc[0], key, table);
    }
  }

  lemma LongValueIsOneLine(lines: seq<string>)
    requires OneLineEach(lines)
    ensures OneLine(LongValue(lines))
  {
    if lines != [] { LongValueIsOneLine(lines[1..]); }
  }

  lemma RightTextIsClear(text: string, doc: seq<Piece>, key: string)
    requires BareKey(key) && Shaped(doc) && IsDocument(doc, key) && TomlLines(text) == Flat(doc) && LineEndsOnly(text)
    requires RightOnText(text, doc, key)
    ensures Clear(doc, key, false, ROOT)
  {
    LinesSurviveExactly(text);
    var values := [LongValue(Flat(doc))];
    LongValueIsOneLine(Flat(doc));
    assert OneLineEach(values);
    assert Gives(ReplaceText(text, key, values), Replace(doc, key, values, ROOT));
    WrittenLines(text, key, values);
    if !Clear(doc, key, false, ROOT) {
      UnclearIsWrong(doc, key, values, false, ROOT);
    }
  }

  /** One rewrite of a clear text. */
  lemma ClearTextIsRight(text: string, doc: seq<Piece>, key: string, values: seq<string>)
    requires BareKey(key) && Shaped(doc) && IsDocument(doc, key) && TomlLines(text) == Flat(doc) && LineEndsOnly(text)
    requires Clear(doc, key, false, ROOT) && OneLineEach(values)
    ensures if HasTarget(doc, key, ROOT) then
              && Gives(ReplaceText(text, key, values), Replace(doc, key, values, ROOT))
              && LineEndsOnly(ReplaceText(text, key, values).value)
            else ReplaceText(text, key, values) == Err(KeyAbsent)
  {
    LinesSurviveExactly(text);
    ClearIsRight(doc, key, values, false, ROOT);
    if HasTarget(doc, key, ROOT) { WrittenLines(text, key, values); }
  }

  /** On a text that holds the key's array the rewrite is right exactly when the document is clear and the
      text holds no line break but LF and CR LF. */
  lemma RightOnTextExactly(text: string, doc: seq<Piece>, key: string)
    requires BareKey(key) && Shaped(doc) && IsDocument(doc, key) && TomlLines(text) == Flat(doc)
    requires HasTarget(doc, key, ROOT) && TargetsOneLine(doc, key, ROOT)
    ensures RightOnText(text, doc, key) <==> Clear(doc, key, false, ROOT) && LineEndsOnly(text)
  {
    if LineEndsOnly(text) {
      if Clear(doc, key, false, ROOT) {
        forall values | OneLineEach(values)
          ensures Gives(ReplaceText(text, key, values), Replace(doc, key, values, ROOT))
        {
          ClearTextIsRight(text, doc, key, values);
        }
      } else if RightOnText(text, doc, key) {
        RightTextIsClear(text, doc, key);
      }
    } else {
      var line := BrokenLine(text);
      BrokenLineIsMeant(doc, key, [], ROOT, line);
      assert OneLineEach([]);
      if ReplaceText(text, key, []).Ok? { WrittenLines(text, key, []); }
      assert !Gives(ReplaceText(text, key, []), Replace(doc, key, [], ROOT));
    }
  }

  lemma BrokenLine(text: string) returns (line: string)
    requires !LineEndsOnly(text)
    ensures line in TomlLines(text) && !OneLine(line)
  {
    var k :| 0 <= k < |text| && OddBreakAt(text, k);
    OddBreakInSomeLine(text, k);
    var j :| 0 <= j < |TomlLines(text)| && !OneLine(TomlLines(text)[j]);
    line := TomlLines(text)[j];
  }

  // ---------- reading the arrays ----------

  /** The quoted strings of a line, comments left out; `quote` is the string being read. */
  function StringsIn(s: string, quote: Option<(char, string)>): seq<string> {
    if s == "" then []
    else if quote.Some? then
      if s[0] == quote.value.0 then [quote.value.1] + StringsIn(s[1..], None)
      else StringsIn(s[1..], Some((quote.value.0, quote.value.1 + [s[0]])))
    else if s[0] == '#' then []
    else StringsIn(s[1..], if IsMark(s[0]) then Some((s[0], "")) else None)
  }

  function Strings(value: seq<string>): seq<string> {
    if value == [] then [] else StringsIn(value[0], None) + Strings(value[1..])
  }

  /** The strings of the key's array in the mutmut table. */
  function ValuesOf(doc: seq<Piece>, key: string, table: Table): seq<string> {
    if doc == [] then []
    else if Target(doc[0], key, table) then Strings(doc[0].value)
    else ValuesOf(doc[1..], key, Behind(doc[0], table))
  }

  /** A value that is written as it is: TOML gives quotes and backslashes a meaning of their own. */
  predicate Verbatim(values: seq<string>) {
    forall k :: 0 <= k < |values| ==> '"' !in values[k] && '\\' !in values[k]
  }

  lemma {:induction false} StringsQuoted(v: string, rest: string, got: string)
    requires '"' !in v
    ensures StringsIn(v + "\"" + rest, Some(('"', got))) == [got + v] + StringsIn(rest, None)
  {
    var s := v + "\"" + rest;
    if v == "" {
      assert s[0] == '"' && s[1..] == rest && got + v == got;
    } else {
      assert s[0] == v[0] && s[1..] == v[1..] + "\"" + rest;
      assert got + [v[0]] + v[1..] == got + v;
      StringsQuoted(v[1..], rest, got + [v[0]]);
    }
  }

  lemma BlankHasNoStrings(s: string)
    ensures StringsIn(" " + s, None) == StringsIn(s, None)
  {
    assert (" " + s)[1..] == s;
  }

  lemma ValueLineHolds(v: string)
    requires '"' !in v
    ensures StringsIn("    \"" + v + "\",", None) == [v]
  {
    var quoted := "\"" + v + "\",";
    FourBlanks(quoted);
    assert "    \"" + v + "\"," == "    " + quoted;
    assert quoted[0] == '"' && quoted[1..] == v + "\"" + ",";
    StringsQuoted(v, ",", "");
    assert "" + v == v && StringsIn(",", None) == [];
  }

  /** A value followed by a comment, which may hold quotes of its own. */
  lemma CommentIsNotRead(v: string, comment: string)
    requires '"' !in v
    ensures StringsIn("\"" + v + "\", #" + comment, None) == [v]
  {
    var s := "\"" + v + "\", #" + comment;
    var rest := ", #" + comment;
    assert s[0] == '"' && s[1..] == v + "\"" + rest;
    StringsQuoted(v, rest, "");
    assert rest[1..] == " #" + comment && (" #" + comment)[1..] == "#" + comment;
    assert "" + v == v && StringsIn("#" + comment, None) == [];
  }

  lemma FourBlanks(s: string)
    ensures StringsIn("    " + s, None) == StringsIn(s, None)
  {
    BlankHasNoStrings(s);
    BlankHasNoStrings(" " + s);
    BlankHasNoStrings("  " + s);
    BlankHasNoStrings("   " + s);
    assert " " + (" " + s) == "  " + s && " " + ("  " + s) == "   " + s && " " + ("   " + s) == "    " + s;
  }

  lemma {:induction false} StringsConcat(a: seq<string>, b: seq<string>)
    ensures Strings(a + b) == Strings(a) + Strings(b)
  {
    if a == [] {
      assert a + b == b;
    } else {
      assert (a + b)[0] == a[0] && (a + b)[1..] == a[1..] + b;
      StringsConcat(a[1..], b);
      Associate(StringsIn(a[0], None), Strings(a[1..]), Strings(b));
    }
  }

  lemma {:induction false} ValueLinesHold(values: seq<string>)
    requires Verbatim(values)
    ensures Strings(ValueLines(values)) == values
  {
    if values != [] {
      ValueLineHolds(values[0]);
      ValueLinesHold(values[1..]);
      assert ValueLines(values)[1..] == ValueLines(values[1..]);
      assert [values[0]] + values[1..] == values;
    }
  }

  /** What a rewrite writes reads back as the values. */
  lemma NewValueHolds(values: seq<string>)
    requires Verbatim(values)
    ensures Strings(NewValue(values)) == values
  {
    ValueLinesHold(values);
    StringsConcat([" ["] + ValueLines(values), ["]"]);
    StringsConcat([" ["], ValueLines(values));
    assert " ["[1..] == "[" && "["[1..] == "" && "]"[1..] == "";
    assert StringsIn(" [", None) == [] && StringsIn("]", None) == [];
    NoStringsAlone();
    assert [] + values + [] == values;
  }

  lemma NoStringsAlone()
    ensures Strings([" ["]) == [] && Strings(["]"]) == []
  {
    assert " ["[1..] == "[" && "["[1..] == "" && "]"[1..] == "";
    assert [" ["][1..] == [] && ["]"][1..] == [];
  }

  // ---------- what a replacement keeps ----------

  lemma ValueLineScan(v: string)
    requires '"' !in v
    ensures Scan("    \"" + v + "\",", 1, None) == 1
  {
    var quoted := "\"" + v + "\",";
    assert "    \"" + v + "\"," == "    " + quoted;
    SkipFour(quoted, 1);
    assert quoted[0] == '"' && quoted[1..] == v + "\"" + ",";
    ScanQuoted(v, ",", 1);
    assert Scan(",", 1, None) == 1;
  }

  lemma {:induction false} ScanQuoted(v: string, rest: string, depth: nat)
    requires '"' !in v
    ensures Scan(v + "\"" + rest, depth, Some('"')) == Scan(rest, depth, None)
  {
    var s := v + "\"" + rest;
    if v == "" {
      assert s[0] == '"' && s[1..] == rest;
    } else {
      assert s[0] == v[0] && s[1..] == v[1..] + "\"" + rest;
      ScanQuoted(v[1..], rest, depth);
    }
  }

  lemma SkipFour(s: string, depth: nat)
    ensures Scan("    " + s, depth, None) == Scan(s, depth, None)
  {
    SkipBlank(s, depth);
    SkipBlank(" " + s, depth);
    SkipBlank("  " + s, depth);
    SkipBlank("   " + s, depth);
    assert " " + (" " + s) == "  " + s && " " + ("  " + s) == "   " + s && " " + ("   " + s) == "    " + s;
  }

  lemma SkipBlank(s: string, depth: nat)
    ensures Scan(" " + s, depth, None) == Scan(s, depth, None)
  {
    assert (" " + s)[1..] == s;
  }

  lemma {:induction false} DepthOfValues(values: seq<string>)
    requires Verbatim(values)
    ensures Depth([" ["] + ValueLines(values)) == 1
  {
    var value := [" ["] + ValueLines(values);
    if values == [] {
      assert value[..0] == [] && value == [" ["];
      assert " ["[1..] == "[";
    } else {
      var n := |values| - 1;
      assert value[..|value| - 1] == [" ["] + ValueLines(values[..n]);
      DepthOfValues(values[..n]);
      ValueLineScan(values[n]);
    }
  }

  lemma NewValueCloses(values: seq<string>)
    requires Verbatim(values)
    ensures ClosesAtEnd(NewValue(values))
  {
    var value := NewValue(values);
    forall n | 0 < n < |value| ensures Depth(value[..n]) == 1 {
      assert value[..n] == [" ["] + ValueLines(values[..n - 1]);
      DepthOfValues(values[..n - 1]);
    }
    assert Depth(value) == Scan("]", 1, None);
  }

  /** The further lines of a new array. */
  lemma NewValueLines(values: seq<string>)
    ensures forall l :: 0 < l < |NewValue(values)| ==> Continues(NewValue(values)[l]) && !IsHeader(NewValue(values)[l])
    ensures StripLeft(NewValue(values)[0]) == "["
  {
    var value := NewValue(values);
    assert " ["[1..] == "[";
    StripKeeps("]");
    forall l | 0 < l < |value| ensures Continues(value[l]) && !IsHeader(value[l]) {
      if l < |value| - 1 { NewLine(values[l - 1]); }
    }
  }

  lemma NewLine(v: string)
    ensures Continues("    \"" + v + "\",") && !IsHeader("    \"" + v + "\",")
  {
    assert "    \"" + v + "\"," == "    " + ("\"" + v + "\",");
    StripOpensWith("    ", "\"" + v + "\",");
  }

  lemma ReplacedIsWellFormed(p: Piece, key: string, values: seq<string>)
    requires BareKey(key) && Verbatim(values) && p.Entry? && GoodHead(p)
    ensures WellFormed(Replaced(p, key, values)) && IsList(Replaced(p, key, values))
  {
    NewValueCloses(values);
    NewValueLines(values);
    assert GoodKey(Bare(key));
    assert GoodHead(Replaced(p, key, values));
  }

  /** The replaced entry is the same entry: the key's, and no other key's. */
  lemma ReplacedIsTarget(p: Piece, key: string, values: seq<string>, table: Table, other: string)
    requires Target(p, key, table)
    ensures Target(Replaced(p, key, values), other, table) <==> other == key
  {
    NewValueLines(values);
    var r := Replaced(p, key, values);
    var path := table.value + PathOf(p.name);
    assert path[|path| - 1] == key;
    if |p.name| == 1 {
      assert PathOf(p.name) == [key] && PathOf(r.name) == [key];
    }
    assert table.value + PathOf(r.name) == SECTION + [key];
    assert (SECTION + [other])[2] == other && (SECTION + [key])[2] == key;
  }

  lemma {:induction false} ReplaceGives(doc: seq<Piece>, key: string, values: seq<string>, table: Table)
    requires Shaped(doc) && HasTarget(doc, key, table) && Verbatim(values)
    ensures ValuesOf(Replace(doc, key, values, table), key, table) == values
  {
    var r := Replace(doc, key, values, table);
    assert r[1..] == Replace(doc[1..], key, values, Behind(doc[0], table));
    if Target(doc[0], key, table) {
      ReplacedIsTarget(doc[0], key, values, table, key);
      NewValueHolds(values);
    } else {
      ReplaceGives(doc[1..], key, values, Behind(doc[0], table));
    }
  }

  lemma TargetOfOne(p: Piece, key: string, other: string, table: Table)
    requires Target(p, key, table) && Target(p, other, table)
    ensures key == other
  {
    assert (SECTION + [other])[2] == other && (SECTION + [key])[2] == key;
  }

  lemma {:induction false} ReplaceKeepsOthers(doc: seq<Piece>, key: string, values: seq<string>, other: string, table: Table)
    requires key != other && Shaped(doc)
    ensures ValuesOf(Replace(doc, key, values, table), other, table) == ValuesOf(doc, other, table)
    ensures HasTarget(Replace(doc, key, values, table), other, table) == HasTarget(doc, other, table)
    ensures TargetsOneLine(doc, other, table) ==> TargetsOneLine(Replace(doc, key, values, table), other, table)
  {
    if doc != [] {
      var r := Replace(doc, key, values, table);
      assert r[1..] == Replace(doc[1..], key, values, Behind(doc[0], table));
      ReplaceKeepsOthers(doc[1..], key, values, other, Behind(doc[0], table));
      if Target(doc[0], key, table) {
        ReplacedIsTarget(doc[0], key, values, table, other);
        if Target(doc[0], other, table) { TargetOfOne(doc[0], key, other, table); }
      }
    }
  }

  lemma {:induction false} ReplaceKeepsDocument(doc: seq<Piece>, key: string, values: seq<string>, other: string, table: Table)
    requires BareKey(key) && key != other && Verbatim(values)
    requires Shaped(doc) && IsDocument(doc, other)
    ensures IsDocument(Replace(doc, key, values, table), other)
  {
    if doc != [] {
      ReplaceKeepsDocument(doc[1..], key, values, other, Behind(doc[0], table));
      var r := Replace(doc, key, values, table);
      assert r[1..] == Replace(doc[1..], key, values, Behind(doc[0], table));
      if Target(doc[0], key, table) {
        ReplacedIsPiece(doc[0], key, values, other, table);
      }
      forall k | 0 <= k < |r| ensures IsPiece(r[k], other) {
        if k > 0 { assert r[k] == r[1..][k - 1]; }
      }
    }
  }

  lemma ReplacedIsPiece(p: Piece, key: string, values: seq<string>, other: string, table: Table)
    requires BareKey(key) && key != other && Verbatim(values) && Target(p, key, table) && GoodHead(p)
    ensures IsPiece(Replaced(p, key, values), other)
  {
    ReplacedIsWellFormed(p, key, values);
    TargetIsNamed(p, key, table);
    assert !Names(Replaced(p, key, values), other);
  }

  /** Replacing one key's array leaves a document clear for another key. */
  lemma {:induction false} ReplaceKeepsClear(doc: seq<Piece>, key: string, values: seq<string>, other: string, on: bool, table: Table)
    requires BareKey(key) && BareKey(other) && !(other <= key)
    requires Shaped(doc) && IsDocument(doc, key) && Clear(doc, other, on, table)
    ensures Clear(Replace(doc, key, values, table), other, on, table)
  {
    if doc != [] {
      var p, rest := doc[0], doc[1..];
      ReplaceKeepsClear(rest, key, values, other, OnBehind(p, on), Behind(p, table));
      var r := Replace(doc, key, values, table);
      assert r[1..] == Replace(rest, key, values, Behind(p, table));
      if Target(p, key, table) {
        ReplacedIsTarget(p, key, values, table, other);
        TargetIsNamed(p, key, table);
        ReplacedKeepsOn(p, key, values, on);
        ReplacedBegins(p, key, values, other);
        if Target(p, other, table) { TargetOfOne(p, key, other, table); }
      }
    }
  }

  lemma ReplacedBegins(p: Piece, key: string, values: seq<string>, other: string)
    requires p.Entry? && !(other <= key)
    ensures BeginsWith(Replaced(p, key, values), other) ==> BeginsWith(p, other)
  {
  }

  lemma ReplacedKeepsOn(p: Piece, key: string, values: seq<string>, on: bool)
    requires BareKey(key) && WellFormed(p) && HoldsStrings(p)
    ensures OnBehind(Replaced(p, key, values), on) == OnBehind(p, on)
  {
    var r := Replaced(p, key, values);
    StringLinesKeepOn(p, key);
    NewValueLines(values);
    assert GoodKey(Bare(key));
    assert GoodHead(r);
    OpensAtEntry(r, key);
    var lines := [FirstLine(r)] + MoreLines(r);
    forall k | 0 <= k < |lines| ensures !IsHeader(lines[k]) {
      assert k > 0 ==> lines[k] == r.value[k];
    }
    OnStays(lines, on);
  }

  // ---------- the scoped pyproject ----------

  /** The key has its array in the table, and the scan is right about it. */
  predicate Rewritable(doc: seq<Piece>, key: string)
    requires Shaped(doc)
  {
    IsDocument(doc, key) && Clear(doc, key, false, ROOT) && HasTarget(doc, key, ROOT)
  }

  lemma ReplaceKeepsRewritable(doc: seq<Piece>, key: string, values: seq<string>, other: string)
    requires BareKey(key) && BareKey(other) && !(other <= key) && Verbatim(values)
    requires Shaped(doc) && IsDocument(doc, key) && Rewritable(doc, other)
    ensures Rewritable(Replace(doc, key, values, ROOT), other)
  {
    ReplaceKeepsDocument(doc, key, values, other, ROOT);
    ReplaceKeepsOthers(doc, key, values, other, ROOT);
    ReplaceKeepsClear(doc, key, values, other, false, ROOT);
  }

  lemma KeysAreApart()
    ensures BareKey(PATHS) && BareKey(TESTS) && BareKey(ARGS)
    ensures !(PATHS <= TESTS) && !(TESTS <= PATHS) && !(PATHS <= ARGS) && !(ARGS <= PATHS)
    ensures !(TESTS <= ARGS) && !(ARGS <= TESTS)
  {
    assert PATHS[1] == 'a' && TESTS[1] == 'e' && ARGS[1] == 'y';
  }

  /** The arguments the committed file gives, as its parser reads them. */
  function Existing(doc: seq<Piece>): seq<string> {
    ValuesOf(doc, ARGS, ROOT)
  }

  /** The committed document with the named arrays replaced. */
  function Scoped(doc: seq<Piece>, scope: ModuleScope): (r: seq<Piece>)
    requires Shaped(doc)
    ensures Shaped(r)
  {
    var two := Replace(Replace(doc, PATHS, [scope.source], ROOT), TESTS, scope.tests, ROOT);
    if scope.deselect == [] then two else Replace(two, ARGS, Existing(doc) + DeselectArgs(scope), ROOT)
  }

  predicate Scopable(doc: seq<Piece>, scope: ModuleScope)
    requires Shaped(doc)
  {
    && Rewritable(doc, PATHS) && Rewritable(doc, TESTS) && Rewritable(doc, ARGS)
    && TargetsOneLine(doc, PATHS, ROOT) && TargetsOneLine(doc, TESTS, ROOT) && TargetsOneLine(doc, ARGS, ROOT)
    && OneLineEach([scope.source]) && OneLineEach(scope.tests) && OneLineEach(scope.deselect)
    && Verbatim([scope.source]) && Verbatim(scope.tests)
  }

  lemma DeselectArgsAreOneLine(scope: ModuleScope)
    requires OneLineEach(scope.deselect)
    ensures OneLineEach(DeselectArgs(scope))
  {
    forall k | 0 <= k < |scope.deselect| ensures OneLine(DeselectArgs(scope)[k]) {
      var arg := DeselectArgs(scope)[k];
      forall j | 0 <= j < |arg| ensures !IsBreak(arg[j]) {
        assert j >= 11 ==> arg[j] == scope.deselect[k][j - 11];
      }
    }
  }

  lemma {:induction false} StringsAreOneLine(s: string, quote: Option<(char, string)>)
    requires OneLine(s) && (quote.Some? ==> OneLine(quote.value.1))
    ensures OneLineEach(StringsIn(s, quote))
  {
    if s != "" {
      var next := if quote.Some? then (if s[0] == quote.value.0 then None else Some((quote.value.0, quote.value.1 + [s[0]])))
                  else if IsMark(s[0]) then Some((s[0], "")) else None;
      StringsAreOneLine(s[1..], next);
    }
  }

  lemma {:induction false} AllStringsAreOneLine(value: seq<string>)
    requires OneLineEach(value)
    ensures OneLineEach(Strings(value))
  {
    if value != [] {
      StringsAreOneLine(value[0], None);
      AllStringsAreOneLine(value[1..]);
    }
  }

  lemma ValueIsOneLine(p: Piece)
    requires p.Entry? && p.value != [] && OneLineEach([FirstLine(p)] + MoreLines(p))
    ensures OneLineEach(p.value)
  {
    var lines := [FirstLine(p)] + MoreLines(p);
    assert OneLine(lines[0]);
    var head := p.indent + (Written(p.name) + "=");
    assert FirstLine(p) == head + p.value[0];
    forall j | 0 <= j < |p.value[0]| ensures !IsBreak(p.value[0][j]) {
      assert FirstLine(p)[|head| + j] == p.value[0][j];
    }
    forall k | 0 <= k < |p.value| ensures OneLine(p.value[k]) {
      if k > 0 { assert OneLine(lines[k]) && lines[k] == p.value[k]; }
    }
  }

  lemma {:induction false} ValuesAreOneLine(doc: seq<Piece>, key: string, table: Table)
    requires Shaped(doc) && TargetsOneLine(doc, key, table)
    ensures OneLineEach(ValuesOf(doc, key, table))
  {
    if doc != [] {
      if Target(doc[0], key, table) {
        ValueIsOneLine(doc[0]);
        AllStringsAreOneLine(doc[0].value);
      } else {
        ValuesAreOneLine(doc[1..], key, Behind(doc[0], table));
      }
    }
  }

  lemma ScopedTextIsRight(text: string, doc: seq<Piece>, scope: ModuleScope)
    requires Shaped(doc) && TomlLines(text) == Flat(doc) && Scopable(doc, scope) && LineEndsOnly(text)
    ensures Gives(RenderScoped(text, scope, Existing(doc)), Scoped(doc, scope))
  {
    KeysAreApart();
    var one := Replace(doc, PATHS, [scope.source], ROOT);
    StepIsRight(text, doc, PATHS, [scope.source]);
    var text1 := ReplaceText(text, PATHS, [scope.source]).value;
    ReplaceKeepsRewritable(doc, PATHS, [scope.source], TESTS);
    StepIsRight(text1, one, TESTS, scope.tests);
    if scope.deselect != [] {
      ReplaceKeepsRewritable(doc, PATHS, [scope.source], ARGS);
      ArgsStepIsRight(text1, one, doc, scope);
    }
  }

  predicate Holds(text: string, doc: seq<Piece>) {
    Shaped(doc) && TomlLines(text) == Flat(doc) && LineEndsOnly(text)
  }

  lemma StepIsRight(text: string, doc: seq<Piece>, key: string, values: seq<string>)
    requires BareKey(key) && Holds(text, doc) && Rewritable(doc, key) && OneLineEach(values)
    ensures ReplaceText(text, key, values).Ok?
    ensures Holds(ReplaceText(text, key, values).value, Replace(doc, key, values, ROOT))
  {
    ClearTextIsRight(text, doc, key, values);
  }

  /** The tests and then the arguments. */
  lemma ArgsStepIsRight(text: string, one: seq<Piece>, doc: seq<Piece>, scope: ModuleScope)
    requires Shaped(doc) && Scopable(doc, scope) && Holds(text, one)
    requires Rewritable(one, TESTS) && Rewritable(one, ARGS)
    ensures var args := Existing(doc) + DeselectArgs(scope);
            && ReplaceText(text, TESTS, scope.tests).Ok?
            && Gives(ReplaceText(ReplaceText(text, TESTS, scope.tests).value, ARGS, args),
                     Replace(Replace(one, TESTS, scope.tests, ROOT), ARGS, args, ROOT))
  {
    KeysAreApart();
    StepIsRight(text, one, TESTS, scope.tests);
    ReplaceKeepsRewritable(one, TESTS, scope.tests, ARGS);
    DeselectArgsAreOneLine(scope);
    ValuesAreOneLine(doc, ARGS, ROOT);
    StepIsRight(ReplaceText(text, TESTS, scope.tests).value, Replace(one, TESTS, scope.tests, ROOT), ARGS,
                Existing(doc) + DeselectArgs(scope));
  }

  lemma BrokenLineIsScoped(doc: seq<Piece>, scope: ModuleScope, line: string)
    requires Shaped(doc) && Scopable(doc, scope) && line in Flat(doc) && !OneLine(line)
    ensures line in Flat(Scoped(doc, scope))
  {
    KeysAreApart();
    var one := Replace(doc, PATHS, [scope.source], ROOT);
    var two := Replace(one, TESTS, scope.tests, ROOT);
    BrokenLineIsMeant(doc, PATHS, [scope.source], ROOT, line);
    ReplaceKeepsOthers(doc, PATHS, [scope.source], TESTS, ROOT);
    BrokenLineIsMeant(one, TESTS, scope.tests, ROOT, line);
    if scope.deselect != [] {
      ReplaceKeepsOthers(doc, PATHS, [scope.source], ARGS, ROOT);
      ReplaceKeepsOthers(one, TESTS, scope.tests, ARGS, ROOT);
      BrokenLineIsMeant(two, ARGS, Existing(doc) + DeselectArgs(scope), ROOT, line);
    }
  }

  lemma ScopedLinesAreSingle(text: string, scope: ModuleScope, existing: seq<string>)
    requires OneLineEach([scope.source]) && OneLineEach(scope.tests) && OneLineEach(existing) && OneLineEach(scope.deselect)
    requires RenderScoped(text, scope, existing).Ok?
    ensures OneLineEach(TomlLines(RenderScoped(text, scope, existing).value))
  {
    KeysAreApart();
    var text1 := ReplaceText(text, PATHS, [scope.source]).value;
    WrittenLines(text1, TESTS, scope.tests);
    if scope.deselect != [] {
      DeselectArgsAreOneLine(scope);
      WrittenLines(ReplaceText(text1, TESTS, scope.tests).value, ARGS, existing + DeselectArgs(scope));
    }
  }

  /** The scoped file is the committed one with just the named arrays replaced, entry for entry, exactly when
      the committed file holds no line break but LF and CR LF. */
  lemma RenderReplacesTheNamedArrays(text: string, doc: seq<Piece>, scope: ModuleScope)
    requires Shaped(doc) && TomlLines(text) == Flat(doc) && Scopable(doc, scope)
    ensures Gives(RenderScoped(text, scope, Existing(doc)), Scoped(doc, scope)) <==> LineEndsOnly(text)
  {
    if LineEndsOnly(text) {
      ScopedTextIsRight(text, doc, scope);
    } else {
      var line := BrokenLine(text);
      BrokenLineIsScoped(doc, scope, line);
      ValuesAreOneLine(doc, ARGS, ROOT);
      if RenderScoped(text, scope, Existing(doc)).Ok? {
        ScopedLinesAreSingle(text, scope, Existing(doc));
        assert OneLineEach(TomlLines(RenderScoped(text, scope, Existing(doc)).value));
      }
    }
  }

  /** Read back, the scoped file names the one source and its tests, and has the deselect arguments behind the
      committed ones. */
  lemma ScopedReadsBack(doc: seq<Piece>, scope: ModuleScope)
    requires Shaped(doc) && Scopable(doc, scope) && Verbatim(Existing(doc)) && Verbatim(scope.deselect)
    ensures ValuesOf(Scoped(doc, scope), "paths_to_mutate", ROOT) == [scope.source]
    ensures ValuesOf(Scoped(doc, scope), "tests_dir", ROOT) == scope.tests
    ensures ValuesOf(Scoped(doc, scope), "pytest_add_cli_args", ROOT)
         == ValuesOf(doc, "pytest_add_cli_args", ROOT)
          + seq(|scope.deselect|, k requires 0 <= k < |scope.deselect| => "--deselect=" + scope.deselect[k])
  {
    KeysAreApart();
    var one := Replace(doc, PATHS, [scope.source], ROOT);
    var two := Replace(one, TESTS, scope.tests, ROOT);
    var args := Existing(doc) + DeselectArgs(scope);
    ReplaceGives(doc, PATHS, [scope.source], ROOT);
    ReplaceKeepsOthers(doc, PATHS, [scope.source], TESTS, ROOT);
    ReplaceKeepsOthers(doc, PATHS, [scope.source], ARGS, ROOT);
    ReplaceGives(one, TESTS, scope.tests, ROOT);
    ReplaceKeepsOthers(one, TESTS, scope.tests, PATHS, ROOT);
    ReplaceKeepsOthers(one, TESTS, scope.tests, ARGS, ROOT);
    if scope.deselect == [] {
      assert args == Existing(doc);
    } else {
      DeselectArgsAreVerbatim(scope);
      ReplaceGives(two, ARGS, args, ROOT);
      ReplaceKeepsOthers(two, ARGS, args, PATHS, ROOT);
      ReplaceKeepsOthers(two, ARGS, args, TESTS, ROOT);
    }
  }

  lemma DeselectArgsAreVerbatim(scope: ModuleScope)
    requires Verbatim(scope.deselect)
    ensures Verbatim(DeselectArgs(scope))
  {
    forall k | 0 <= k < |scope.deselect| ensures '"' !in DeselectArgs(scope)[k] && '\\' !in DeselectArgs(scope)[k] {
      var arg := DeselectArgs(scope)[k];
      forall j | 0 <= j < |arg| ensures arg[j] != '"' && arg[j] != '\\' {
        assert j >= 11 ==> arg[j] == scope.deselect[k][j - 11];
      }
    }
  }

  // ---------- two keys ----------

  /** The scan's segmentation of a document for two keys. */
  function Segments2(doc: seq<Piece>, k1: string, k2: string, table: Table): seq<Item>
    requires Shaped(doc)
  {
    if doc == [] then []
    else
      var lines := [FirstLine(doc[0])] + MoreLines(doc[0]);
      (if Target(doc[0], k1, table) then [Array(k1, lines)]
       else if Target(doc[0], k2, table) then [Array(k2, lines)]
       else AsLines(lines))
      + Segments2(doc[1..], k1, k2, Behind(doc[0], table))
  }

  function AsLines(lines: seq<string>): seq<Item> {
    seq(|lines|, k requires 0 <= k < |lines| => Line(lines[k]))
  }

  lemma {:induction false} FlattenLines(lines: seq<string>, rest: seq<Item>)
    ensures Flatten(AsLines(lines) + rest) == lines + Flatten(rest)
  {
    var items := AsLines(lines) + rest;
    if lines == [] {
      assert items == rest;
    } else {
      assert items[0] == Line(lines[0]) && items[1..] == AsLines(lines[1..]) + rest;
      FlattenLines(lines[1..], rest);
      assert [lines[0]] + lines[1..] == lines;
      Associate([lines[0]], lines[1..], Flatten(rest));
    }
  }

  lemma {:induction false} Segments2Flat(doc: seq<Piece>, k1: string, k2: string, table: Table)
    requires Shaped(doc)
    ensures Flatten(Segments2(doc, k1, k2, table)) == Flat(doc)
  {
    if doc != [] {
      var rest := Segments2(doc[1..], k1, k2, Behind(doc[0], table));
      var lines := [FirstLine(doc[0])] + MoreLines(doc[0]);
      Segments2Flat(doc[1..], k1, k2, Behind(doc[0], table));
      FlattenLines(lines, rest);
      assert ([Array(k1, lines)] + rest)[1..] == rest && ([Array(k2, lines)] + rest)[1..] == rest;
    }
  }

  lemma {:induction false} LinesRead(lines: seq<string>, rest: seq<Item>, key: string, on: bool)
    requires ReadsFor(rest, key, OnAfter(lines, on)) && QuietLines(lines, key, on)
    ensures ReadsFor(AsLines(lines) + rest, key, on)
  {
    var items := AsLines(lines) + rest;
    if lines == [] {
      assert items == rest;
    } else {
      assert items[0] == Line(lines[0]) && items[1..] == AsLines(lines[1..]) + rest;
      LinesRead(lines[1..], rest, key, InTable(lines[0], on));
    }
  }

  predicate QuietLines(lines: seq<string>, key: string, on: bool) {
    lines == [] || (!(InTable(lines[0], on) && Opens(lines[0], key)) && QuietLines(lines[1..], key, InTable(lines[0], on)))
  }

  lemma {:induction false} AllQuiet(lines: seq<string>, key: string, on: bool)
    requires forall k :: 0 <= k < |lines| ==> !Opens(lines[k], key)
    ensures QuietLines(lines, key, on)
  {
    if lines != [] { AllQuiet(lines[1..], key, InTable(lines[0], on)); }
  }

  lemma QuietPiece(p: Piece, key: string, on: bool)
    requires BareKey(key) && WellFormed(p) && !(on && BeginsWith(p, key))
    ensures QuietLines([FirstLine(p)] + MoreLines(p), key, on)
  {
    var lines := [FirstLine(p)] + MoreLines(p);
    if p.Entry? { OpensAtEntry(p, key); } else { QuietHead(p, key); }
    forall k | 0 <= k < |lines| - 1 ensures !Opens(lines[1..][k], key) {
      assert Continues(p.value[k + 1]);
      QuietLine(p.value[k + 1], key);
    }
    AllQuiet(lines[1..], key, InTable(lines[0], on));
  }

  /** The key's own array, as the scan delimits it. */
  lemma OwnArray(p: Piece, key: string, on: bool)
    requires BareKey(key) && WellFormed(p) && IsList(p) && BeginsWith(p, key) && |p.name| == 1 && BracketsLast(p) && on
    ensures var body := [FirstLine(p)] + MoreLines(p);
            Delimited(body, false) && InTable(body[0], on) && Opens(body[0], key)
  {
    OpensAtEntry(p, key);
    ClosingLine(p);
    FirstLineBracket(p);
    var body := [FirstLine(p)] + MoreLines(p);
    forall k | 0 <= k < |body| - 1 ensures ']' !in body[k] {
      assert ']' !in p.value[k];
    }
  }

  lemma OtherArray(p: Piece, key: string)
    requires BareKey(key) && WellFormed(p) && HoldsStrings(p) && !BeginsWith(p, key)
    ensures forall l :: 0 <= l < |[FirstLine(p)] + MoreLines(p)| ==> Inert(([FirstLine(p)] + MoreLines(p))[l], key)
  {
    OpensAtEntry(p, key);
    InertStrings(p.value, key);
  }

  predicate BothClear(doc: seq<Piece>, k1: string, k2: string, on: bool, table: Table)
    requires Shaped(doc)
  {
    IsDocument(doc, k1) && IsDocument(doc, k2) && Clear(doc, k1, on, table) && Clear(doc, k2, on, table)
  }

  /** The segmentation is right for the key, which is one of the two. */
  lemma {:induction false} Segments2Read(doc: seq<Piece>, k1: string, k2: string, key: string, on: bool, table: Table)
    requires BareKey(k1) && BareKey(k2) && k1 != k2 && key in {k1, k2}
    requires Shaped(doc) && BothClear(doc, k1, k2, on, table)
    ensures ReadsFor(Segments2(doc, k1, k2, table), key, on)
  {
    if doc != [] {
      var p := doc[0];
      var lines, rest := [FirstLine(p)] + MoreLines(p), Segments2(doc[1..], k1, k2, Behind(p, table));
      Segments2Read(doc[1..], k1, k2, key, OnBehind(p, on), Behind(p, table));
      if Target(p, k1, table) || Target(p, k2, table) {
        var own := if Target(p, k1, table) then k1 else k2;
        TargetIsNamed(p, own, table);
        StringLinesKeepOn(p, own);
        assert ([Array(own, lines)] + rest)[1..] == rest;
        if own == key {
          OwnArray(p, key, on);
        } else {
          if Target(p, key, table) { TargetOfOne(p, own, key, table); }
          OtherArray(p, key);
        }
      } else {
        QuietPiece(p, key, on);
        LinesRead(lines, rest, key, on);
      }
    }
  }

  /** A key whose array is there does not begin with another rewritable key. */
  lemma {:induction false} NoPrefixOfTarget(doc: seq<Piece>, key: string, other: string, on: bool, table: Table)
    requires Shaped(doc) && IsDocument(doc, other) && HasTarget(doc, other, table) && key != other
    requires Clear(doc, key, on, table) && Clear(doc, other, on, table)
    ensures !(key <= other)
  {
    var p := doc[0];
    if Target(p, other, table) {
      TargetIsNamed(p, other, table);
      assert p.name[0].key.name == other && on;
      if key <= other {
        assert BeginsWith(p, key);
        TargetOfOne(p, key, other, table);
      }
    } else {
      NoPrefixOfTarget(doc[1..], key, other, OnBehind(p, on), Behind(p, table));
    }
  }

  /** Rewrites of two keys commute on every document that is rewritable for both, whatever the values. */
  lemma RewritesCommute(doc: seq<Piece>, k1: string, v1: seq<string>, k2: string, v2: seq<string>)
    requires BareKey(k1) && BareKey(k2) && k1 != k2 && Shaped(doc) && Rewritable(doc, k1) && Rewritable(doc, k2)
    ensures Rewrite(Rewrite(Flat(doc), k1, Block(k1, v1), false), k2, Block(k2, v2), false)
         == Rewrite(Rewrite(Flat(doc), k2, Block(k2, v2), false), k1, Block(k1, v1), false)
  {
    var items := Segments2(doc, k1, k2, ROOT);
    NoPrefixOfTarget(doc, k1, k2, false, ROOT);
    NoPrefixOfTarget(doc, k2, k1, false, ROOT);
    Segments2Flat(doc, k1, k2, ROOT);
    Segments2Read(doc, k1, k2, k1, false, ROOT);
    Segments2Read(doc, k1, k2, k2, false, ROOT);
    ArrayRewrite.RewritesCommute(items, k1, v1, k2, v2);
  }
}
