/** Test selection through the reverse import map of scripts/suggest_tests.py. */
module SuggestTests {
  import opened DottedNames

  /** A parsed source or test file: its own name and the modules it imports. */
  datatype Parsed = Parsed(name: string, imports: set<string>)

  type ReverseDeps = map<string, set<string>>

  // ---------- the reverse map ----------

  ghost predicate Imports(files: seq<Parsed>, importer: string, imported: string) {
    exists k :: 0 <= k < |files| && files[k].name == importer && imported in files[k].imports
  }

  function Importers(rev: ReverseDeps, imported: string): set<string> {
    if imported in rev then rev[imported] else {}
  }

  /** `_reverse_src_deps`: the exact inverse of the import relation. */
  method ReverseSrcDeps(files: seq<Parsed>) returns (rev: ReverseDeps)
    ensures forall imported, importer :: importer in Importers(rev, imported) <==> Imports(files, importer, imported)
  {
    rev := map[];
    for n := 0 to |files|
      invariant forall imported, importer :: importer in Importers(rev, imported) <==> Imports(files[..n], importer, imported)
    {
      var before := rev;
      rev := AddImporter(rev, files[n]);
      forall imported, importer
        ensures importer in Importers(rev, imported) <==> Imports(files[..n + 1], importer, imported)
      {
        ImportsOneMore(files, n, importer, imported);
      }
    }
    assert files[..|files|] == files;
  }

  lemma ImportsOneMore(files: seq<Parsed>, n: nat, importer: string, imported: string)
    requires n < |files|
    ensures Imports(files[..n + 1], importer, imported)
       <==> Imports(files[..n], importer, imported) || (files[n].name == importer && imported in files[n].imports)
  {
    var shorter, longer := files[..n], files[..n + 1];
    assert longer == shorter + [files[n]];
    if k :| 0 <= k < n && shorter[k].name == importer && imported in shorter[k].imports {
      assert longer[k] == shorter[k];
    }
    if k :| 0 <= k < n + 1 && longer[k].name == importer && imported in longer[k].imports {
      assert k < n ==> shorter[k] == longer[k];
    }
    assert longer[n] == files[n];
  }

  /** The inner loop: `setdefault(imported, set()).add(importer)` for every import of a file. */
  method AddImporter(rev: ReverseDeps, file: Parsed) returns (out: ReverseDeps)
    ensures forall imported, importer :: importer in Importers(out, imported) <==>
              importer in Importers(rev, imported) || (file.name == importer && imported in file.imports)
  {
    out := rev;
    var left := file.imports;
    while left != {}
      invariant left <= file.imports
      invariant forall imported, importer :: importer in Importers(out, imported) <==>
                  importer in Importers(rev, imported) || (file.name == importer && imported in file.imports - left)
    {
      var imported :| imported in left;
      out := out[imported := Importers(out, imported) + {file.name}];
      left := left - {imported};
    }
  }

  // ---------- reach and selection ----------

  /** `_module_matches`: the file names the target or something below it. */
  predicate ModuleMatches(imports: set<string>, target: string) {
    exists i :: i in imports && Under(i, target)
  }

  /** `r` is a changed module, or imports one or something below one. */
  predicate Reached(modules: set<string>, rev: ReverseDeps, r: string) {
    r in modules || ImportsFrom(modules, rev, r)
  }

  /** `r` imports one of the modules or something below one. */
  predicate ImportsFrom(modules: set<string>, rev: ReverseDeps, r: string) {
    exists m, x :: m in modules && x in rev && Under(x, m) && r in rev[x]
  }

  /** `_reach_modules` */
  method ReachModules(modules: set<string>, rev: ReverseDeps) returns (reach: set<string>)
    ensures forall r :: r in reach <==> Reached(modules, rev, r)
  {
    reach := modules;
    var left := modules;
    while left != {}
      invariant left <= modules
      invariant forall r :: r in reach <==> r in modules || ImportsFrom(modules - left, rev, r)
    {
      var m :| m in left;
      var below := ImportersBelow(m, rev);
      ghost var past := modules - left;
      reach := reach + Importers(rev, m) + below;
      left := left - {m};
      assert modules - left == past + {m};
    }
  }

  method ImportersBelow(m: string, rev: ReverseDeps) returns (out: set<string>)
    ensures forall r :: r in out <==> ImportsFrom({m}, rev, r)
  {
    out := {};
    var left := rev.Keys;
    while left != {}
      invariant left <= rev.Keys
      invariant forall r :: r in out <==> exists x :: x in rev.Keys - left && Under(x, m) && r in rev[x]
    {
      var x :| x in left;
      if Under(x, m) {
        out := out + rev[x];
      }
      left := left - {x};
    }
  }

  type TestImports = map<string, set<string>>

  /** `import_graph_targets` */
  method ImportGraphTargets(changed: set<string>, tests: TestImports, rev: ReverseDeps) returns (targets: set<string>)
    ensures targets == GraphTargets(changed, tests, rev)
  {
    var reach := ReachModules(changed, rev);
    targets := set t | t in tests && exists m :: m in reach && ModuleMatches(tests[t], m);
  }

  ghost function GraphTargets(changed: set<string>, tests: TestImports, rev: ReverseDeps): set<string> {
    set t | t in tests && exists m :: Reached(changed, rev, m) && ModuleMatches(tests[t], m)
  }

  /** A test is selected exactly when it names a changed module (or something below it), or names (or
      names something below) a source file that imports a changed module or something below one. */
  lemma SelectedExactly(changed: set<string>, tests: TestImports, files: seq<Parsed>, rev: ReverseDeps, t: string)
    requires forall imported, importer :: importer in Importers(rev, imported) <==> Imports(files, importer, imported)
    requires t in tests
    ensures t in GraphTargets(changed, tests, rev)
       <==> exists c :: c in changed && (ModuleMatches(tests[t], c) || NamesAnImporter(tests[t], files, c))
  {
    if t in GraphTargets(changed, tests, rev) {
      var m :| Reached(changed, rev, m) && ModuleMatches(tests[t], m);
      if m !in changed {
        var c, x :| c in changed && x in rev && Under(x, c) && m in rev[x];
        assert m in Importers(rev, x) && Imports(files, m, x);
        var k :| 0 <= k < |files| && files[k].name == m && x in files[k].imports;
        assert NamesAnImporter(tests[t], files, c);
      }
    }
    if c :| c in changed && (ModuleMatches(tests[t], c) || NamesAnImporter(tests[t], files, c)) {
      if !ModuleMatches(tests[t], c) {
        var k :| 0 <= k < |files| && ModuleMatches(files[k].imports, c) && ModuleMatches(tests[t], files[k].name);
        var x :| x in files[k].imports && Under(x, c);
        assert Imports(files, files[k].name, x);
        assert files[k].name in Importers(rev, x);
        assert Reached(changed, rev, files[k].name);
      } else {
        assert Reached(changed, rev, c);
      }
    }
  }

  /** The test names a source file that imports `c` or something below it. */
  ghost predicate NamesAnImporter(imports: set<string>, files: seq<Parsed>, c: string) {
    exists k :: 0 <= k < |files| && ModuleMatches(files[k].imports, c) && ModuleMatches(imports, files[k].name)
  }

  /** Selection distributes over the changed modules: file by file is as good as one batch. */
  lemma TargetsOfUnion(a: set<string>, b: set<string>, tests: TestImports, rev: ReverseDeps)
    ensures GraphTargets(a + b, tests, rev) == GraphTargets(a, tests, rev) + GraphTargets(b, tests, rev)
  {
    forall m ensures Reached(a + b, rev, m) <==> Reached(a, rev, m) || Reached(b, rev, m) {}
    forall t | t in GraphTargets(a + b, tests, rev)
      ensures t in GraphTargets(a, tests, rev) || t in GraphTargets(b, tests, rev)
    {
      var m :| Reached(a + b, rev, m) && ModuleMatches(tests[t], m);
      assert Reached(a, rev, m) || Reached(b, rev, m);
    }
  }

  lemma TargetsOfNothing(tests: TestImports, rev: ReverseDeps)
    ensures GraphTargets({}, tests, rev) == {}
  {
  }

  // ---------- the suggest pass ----------

  const PKG: string := "src/hpc_agent/"

  /** A changed file the passes look at: below the package, with the suffix `.py` (a bare `.py` has
      no suffix). */
  predicate IsSource(f: string) {
    PKG <= f && |f| >= |PKG| + 4 && f[|f| - 3..] == ".py" && f[|f| - 4] != '/'
  }

  function Slashes(s: string): string {
    if s == "" then "" else [if s[0] == '/' then '.' else s[0]] + Slashes(s[1..])
  }

  /** `_module_of` on a source file: dotted, with `__init__` collapsed to its package. */
  function ModuleOf(f: string): string
    requires IsSource(f)
  {
    var name := Slashes(f[4..|f| - 3]);
    var tail := ".__init__";
    if |name| >= |tail| && name[|name| - |tail|..] == tail then name[..|name| - |tail|] else name
  }

  /** The three passes: path mirror and curated consumers as the tree and table give them, and the
      import graph. */
  datatype Passes = Passes(mirror: string -> set<string>, consumers: string -> set<string>, tests: TestImports, rev: ReverseDeps)

  ghost function Graph(p: Passes, f: string): set<string>
    requires IsSource(f)
  {
    GraphTargets({ModuleOf(f)}, p.tests, p.rev)
  }

  ghost function Contribution(p: Passes, f: string): set<string> {
    if IsSource(f) then p.mirror(f) + p.consumers(f) + Graph(p, f) else {}
  }

  datatype Reason = Mirror | ImportGraph | CrossConsumer

  class Selection {
    var targets: set<string>
    var unmapped: seq<string>
    var nonSrc: seq<string>
    var reasons: map<Reason, set<string>>

    constructor ()
      ensures targets == {} && unmapped == [] && nonSrc == []
      ensures reasons == map[Mirror := {}, ImportGraph := {}, CrossConsumer := {}]
    {
      targets, unmapped, nonSrc := {}, [], [];
      reasons := map[Mirror := {}, ImportGraph := {}, CrossConsumer := {}];
    }

    /** `add` */
    method Add(paths: set<string>, reason: Reason) returns (any: bool)
      requires reason in reasons
      modifies this`targets, this`reasons
      ensures targets == old(targets) + paths
      ensures reasons == old(reasons)[reason := old(reasons)[reason] + paths]
      ensures any <==> paths != {}
    {
      targets := targets + paths;
      reasons := reasons[reason := reasons[reason] + paths];
      any := paths != {};
    }

    /** The passes over one changed file. */
    method Consider(p: Passes, f: string)
      requires HasReasons()
      modifies this
      ensures HasReasons()
      ensures targets == old(targets) + Contribution(p, f)
      ensures nonSrc == old(nonSrc) + if IsSource(f) then [] else [f]
      ensures unmapped == old(unmapped) + if IsUnmapped(p, f) then [f] else []
      ensures reasons[ImportGraph] == old(reasons)[ImportGraph] + if IsSource(f) then Graph(p, f) else {}
      ensures reasons[Mirror] == old(reasons)[Mirror] + if IsSource(f) then p.mirror(f) else {}
      ensures reasons[CrossConsumer] == old(reasons)[CrossConsumer] + if IsSource(f) then p.consumers(f) else {}
    {
      if !IsSource(f) {
        nonSrc := nonSrc + [f];
        return;
      }
      var mapped := AddAll(p, f);
      if !mapped {
        unmapped := unmapped + [f];
      }
    }

    /** The three passes over a source file. */
    method AddAll(p: Passes, f: string) returns (mapped: bool)
      requires HasReasons() && IsSource(f)
      modifies this`targets, this`reasons
      ensures HasReasons() && targets == old(targets) + Contribution(p, f)
      ensures mapped <==> Contribution(p, f) != {}
      ensures reasons[ImportGraph] == old(reasons)[ImportGraph] + Graph(p, f)
      ensures reasons[Mirror] == old(reasons)[Mirror] + p.mirror(f)
      ensures reasons[CrossConsumer] == old(reasons)[CrossConsumer] + p.consumers(f)
    {
      mapped := Add(p.mirror(f), Mirror);
      var any := Add(p.consumers(f), CrossConsumer);
      mapped := any || mapped;
      var graph := ImportGraphTargets({ModuleOf(f)}, p.tests, p.rev);
      any := Add(graph, ImportGraph);
      mapped := any || mapped;
    }

    ghost predicate HasReasons()
      reads this`reasons
    {
      Mirror in reasons && ImportGraph in reasons && CrossConsumer in reasons
    }
  }

  ghost predicate IsUnmapped(p: Passes, f: string) {
    IsSource(f) && Contribution(p, f) == {}
  }

  function NonSources(files: seq<string>): seq<string> {
    if files == [] then []
    else NonSources(files[..|files| - 1]) + if IsSource(files[|files| - 1]) then [] else [files[|files| - 1]]
  }

  ghost function Unmapped(p: Passes, files: seq<string>): seq<string> {
    if files == [] then []
    else Unmapped(p, files[..|files| - 1]) + if IsUnmapped(p, files[|files| - 1]) then [files[|files| - 1]] else []
  }

  ghost function Contributed(p: Passes, files: seq<string>): set<string> {
    if files == [] then {}
    else Contributed(p, files[..|files| - 1]) + Contribution(p, files[|files| - 1])
  }

  /** What one pass finds for the source files among the changed ones. */
  function Gathered(pass: string -> set<string>, files: seq<string>): set<string> {
    if files == [] then {}
    else Gathered(pass, files[..|files| - 1]) + if IsSource(files[|files| - 1]) then pass(files[|files| - 1]) else {}
  }

  lemma {:induction false} GatheredExactly(pass: string -> set<string>, files: seq<string>, t: string)
    ensures t in Gathered(pass, files) <==> exists f :: f in files && IsSource(f) && t in pass(f)
  {
    if files != [] {
      var n := |files| - 1;
      GatheredExactly(pass, files[..n], t);
      assert files == files[..n] + [files[n]];
    }
  }

  lemma {:induction false} ChangedModulesExactly(files: seq<string>, m: string)
    ensures m in ChangedModules(files) <==> exists f :: f in files && IsSource(f) && m == ModuleOf(f)
  {
    if files != [] {
      var n := |files| - 1;
      ChangedModulesExactly(files[..n], m);
      assert files == files[..n] + [files[n]];
    }
  }

  function ChangedModules(files: seq<string>): set<string> {
    if files == [] then {}
    else ChangedModules(files[..|files| - 1]) + if IsSource(files[|files| - 1]) then {ModuleOf(files[|files| - 1])} else {}
  }

  /** `suggest`: every changed file is considered once, and the per-file import-graph selections add
      up to the one batched call over all changed modules. */
  method Suggest(p: Passes, files: seq<string>) returns (sel: Selection)
    ensures fresh(sel) && sel.HasReasons()
    ensures sel.targets == Contributed(p, files)
    ensures sel.nonSrc == NonSources(files) && sel.unmapped == Unmapped(p, files)
    ensures sel.reasons[ImportGraph] == GraphTargets(ChangedModules(files), p.tests, p.rev)
    ensures sel.reasons[Mirror] == Gathered(p.mirror, files) && sel.reasons[CrossConsumer] == Gathered(p.consumers, files)
  {
    sel := new Selection();
    TargetsOfNothing(p.tests, p.rev);
    for n := 0 to |files|
      invariant fresh(sel) && sel.HasReasons()
      invariant sel.targets == Contributed(p, files[..n])
      invariant sel.nonSrc == NonSources(files[..n]) && sel.unmapped == Unmapped(p, files[..n])
      invariant sel.reasons[ImportGraph] == GraphTargets(ChangedModules(files[..n]), p.tests, p.rev)
      invariant sel.reasons[Mirror] == Gathered(p.mirror, files[..n])
      invariant sel.reasons[CrossConsumer] == Gathered(p.consumers, files[..n])
    {
      assert files[..n + 1][..n] == files[..n];
      if IsSource(files[n]) {
        TargetsOfUnion(ChangedModules(files[..n]), {ModuleOf(files[n])}, p.tests, p.rev);
      }
      sel.Consider(p, files[n]);
    }
    assert files[..|files|] == files;
  }

  /** Every changed path is in exactly one of: not a source file, unmapped, or contributing a target
      that is selected. */
  lemma {:induction false} EveryPathOnce(p: Passes, files: seq<string>, f: string)
    requires f in files
    ensures f in NonSources(files) <==> !IsSource(f)
    ensures f in Unmapped(p, files) <==> IsSource(f) && Contribution(p, f) == {}
    ensures Contribution(p, f) <= Contributed(p, files)
  {
    var n := |files| - 1;
    assert files == files[..n] + [files[n]];
    if f in files[..n] {
      EveryPathOnce(p, files[..n], f);
    } else {
      AbsentIsUnlisted(p, files[..n], f);
    }
  }

  lemma {:induction false} AbsentIsUnlisted(p: Passes, files: seq<string>, f: string)
    requires f !in files
    ensures f !in NonSources(files) && f !in Unmapped(p, files)
  {
    if files != [] {
      assert forall g :: g in files[..|files| - 1] ==> g in files;
      AbsentIsUnlisted(p, files[..|files| - 1], f);
    }
  }

  // ---------- paths and modules ----------

  function SlashJoin(parts: seq<string>): string {
    if parts == [] then "" else if |parts| == 1 then parts[0] else parts[0] + ("/" + SlashJoin(parts[1..]))
  }

  /** Path components: as the segments of a module name, and without a slash. */
  predicate PathParts(parts: seq<string>) {
    Segments(parts) && forall k :: 0 <= k < |parts| ==> '/' !in parts[k]
  }

  lemma {:induction false} SlashesKeep(s: string, rest: string)
    requires '/' !in s
    ensures Slashes(s + rest) == s + Slashes(rest)
  {
    if s == "" {
      assert s + rest == rest;
    } else {
      assert (s + rest)[0] == s[0] && (s + rest)[1..] == s[1..] + rest;
      SlashesKeep(s[1..], rest);
      assert [s[0]] + (s[1..] + Slashes(rest)) == s + Slashes(rest);
    }
  }

  lemma {:induction false} SlashesOfJoin(parts: seq<string>)
    requires parts != [] && PathParts(parts)
    ensures Slashes(SlashJoin(parts)) == Dots(parts)
  {
    if |parts| == 1 {
      SlashesKeep(parts[0], "");
      assert parts[0] + "" == parts[0];
    } else {
      var rest := SlashJoin(parts[1..]);
      SlashesKeep(parts[0], "/" + rest);
      assert ("/" + rest)[1..] == rest;
      SlashesOfJoin(parts[1..]);
      assert parts[0] + ("." + Dots(parts[1..])) == parts[0] + "." + Dots(parts[1..]);
    }
  }

  lemma DotsEndIn(parts: seq<string>, last: string)
    requires |parts| >= 2 && Segments(parts) && last != "" && '.' !in last
    ensures var tail := "." + last;
            && (parts[|parts| - 1] == last ==> Dots(parts) == Dots(parts[..|parts| - 1]) + tail)
            && (parts[|parts| - 1] != last ==>
                  |Dots(parts)| < |tail| || Dots(parts)[|Dots(parts)| - |tail|..] != tail)
  {
    var n := |parts| - 1;
    var front, end, tail := Dots(parts[..n]), parts[n], "." + last;
    assert parts == parts[..n] + [end];
    DotsConcat(parts[..n], [end]);
    var name := front + "." + end;
    if end == last {
      assert front + "." + last == front + tail;
    } else if |name| >= |tail| {
      NotTheEnd(front, end, last);
    }
  }

  lemma NotTheEnd(front: string, end: string, last: string)
    requires '.' !in end && '.' !in last && end != last && |front + "." + end| >= |"." + last|
    ensures (front + "." + end)[|front + "." + end| - |"." + last|..] != "." + last
  {
    var name := front + "." + end;
    var i := |name| - |last| - 1;
    if |end| > |last| {
      assert name[i..][0] == name[i] == end[i - |front| - 1];
    } else if |end| < |last| {
      assert name[i..][|last| - |end|] == name[|front|] == '.';
      assert ("." + last)[|last| - |end|] == last[|last| - |end| - 1];
    } else {
      assert name[i..][1..] == end && ("." + last)[1..] == last;
    }
  }

  /** The module of a source file: its path below `src` with dots, a package's `__init__` being the package. */
  lemma ModuleOfPath(f: string, parts: seq<string>)
    requires |parts| >= 2 && PathParts(parts) && parts[0] == "hpc_agent" && f == "src/" + SlashJoin(parts) + ".py"
    ensures IsSource(f)
    ensures ModuleOf(f) == if parts[|parts| - 1] == "__init__" then Dots(parts[..|parts| - 1]) else Dots(parts)
  {
    PathIsSource(f, parts);
    NameInPath(f, SlashJoin(parts));
    SlashesOfJoin(parts);
    DotsEndIn(parts, "__init__");
    ModuleOfName(f, Dots(parts), Dots(parts[..|parts| - 1]));
  }

  lemma NameInPath(f: string, name: string)
    requires f == "src/" + name + ".py"
    ensures |f| >= 7 && f[4..|f| - 3] == name
  {
  }

  /** A module name with and without a last segment `__init__`. */
  lemma ModuleOfName(f: string, name: string, front: string)
    requires IsSource(f) && Slashes(f[4..|f| - 3]) == name
    ensures name == front + ("." + "__init__") ==> ModuleOf(f) == front
    ensures |name| < 9 || name[|name| - 9..] != "." + "__init__" ==> ModuleOf(f) == name
  {
    assert "." + "__init__" == ".__init__";
    var longer := front + ".__init__";
    assert longer[..|front|] == front && longer[|front|..] == ".__init__";
  }

  lemma PathIsSource(f: string, parts: seq<string>)
    requires |parts| >= 2 && PathParts(parts) && parts[0] == "hpc_agent" && f == "src/" + SlashJoin(parts) + ".py"
    ensures IsSource(f)
  {
    var rest := SlashJoin(parts[1..]);
    SlashJoinEnds(parts[1..]);
    Regrouped(rest);
    assert SlashJoin(parts) == parts[0] + ("/" + rest);
    BelowPackage(f, rest);
  }

  lemma Regrouped(rest: string)
    ensures "src/" + ("hpc_agent" + ("/" + rest)) + ".py" == PKG + rest + ".py"
  {
  }

  lemma BelowPackage(f: string, rest: string)
    requires f == PKG + rest + ".py" && rest != "" && rest[|rest| - 1] != '/'
    ensures IsSource(f)
  {
    assert f[|f| - 3..] == ".py" && f[|f| - 4] == rest[|rest| - 1];
  }

  lemma {:induction false} SlashJoinEnds(parts: seq<string>)
    requires parts != [] && PathParts(parts)
    ensures SlashJoin(parts) != "" && SlashJoin(parts)[|SlashJoin(parts)| - 1] != '/'
  {
    if |parts| > 1 { SlashJoinEnds(parts[1..]); } else { assert parts[0][|parts[0]| - 1] in parts[0]; }
  }

  /** A path below the package whose name has the suffix `.py`. */
  predicate BelowSource(f: string, rest: string) {
    f == "src/hpc_agent/" + rest + ".py" && rest != "" && rest[|rest| - 1] != '/'
  }

  /** The files the passes look at are exactly those. */
  lemma IsSourceExactly(f: string)
    ensures IsSource(f) <==> exists rest :: BelowSource(f, rest)
  {
    if IsSource(f) {
      CutSource(f);
    }
    if rest :| BelowSource(f, rest) {
      BelowPackage(f, rest);
    }
  }

  lemma CutSource(f: string)
    requires IsSource(f)
    ensures BelowSource(f, f[14..|f| - 3])
  {
    var rest, last := f[14..|f| - 3], f[|f| - 3..];
    assert f == f[..14] + rest + last;
    assert f[..14] == PKG && last == ".py";
    assert rest[|rest| - 1] == f[|f| - 4];
  }

  /** The selected tests: for some changed source file its mirrored tests, its curated consumers, or tests
      that the import graph leads to from its module. */
  lemma {:induction false} SelectedForSomeFile(p: Passes, files: seq<string>, t: string)
    ensures t in Contributed(p, files)
       <==> exists f :: f in files && IsSource(f)
              && (t in p.mirror(f) || t in p.consumers(f) || t in GraphTargets({ModuleOf(f)}, p.tests, p.rev))
  {
    if files != [] {
      var n := |files| - 1;
      SelectedForSomeFile(p, files[..n], t);
      assert files == files[..n] + [files[n]];
    }
  }
}
