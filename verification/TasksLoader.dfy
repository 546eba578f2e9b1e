/** `load_tasks_module` of src/hpc_agent/__init__.py: interpreter state around a user's module body. */
module TasksLoader {
  import opened DottedNames

  datatype Module = Module(id: nat)

  /** The interpreter state the loader touches: `sys.path` and `sys.modules`. */
  datatype Interp = Interp(path: seq<string>, modules: map<string, Module>)

  /** A directory as `isdir` and `listdir` see it. */
  datatype Directory = Missing | Unlistable | Listed(children: seq<string>)

  /** What the loader finds on disk for one tasks.py; `exposes` says whether the finished module
      defines both entry points. */
  datatype Tasks = Tasks(
    modName: string, mod: Module,
    hpcDir: string, hpc: Directory,
    expRoot: string, root: Directory,
    exposes: bool)

  datatype Outcome = Loaded | BodyRaised | Incomplete | ListingRaised

  function Stem(child: string): string {
    if |child| >= 3 && child[|child| - 3..] == ".py" then child[..|child| - 3] else child
  }

  /** Python's `isidentifier`: all that matters here is that an identifier holds no dot. */
  ghost predicate DotFree(isIdentifier: string -> bool) {
    forall s :: isIdentifier(s) ==> '.' !in s
  }

  /** The importable names a directory offers. */
  function Offered(d: Directory, isIdentifier: string -> bool): set<string> {
    if d.Listed? then set c | c in d.children && isIdentifier(Stem(c)) :: Stem(c) else {}
  }

  // ---------- the specification ----------

  /** `sys.path` while the body runs. */
  function Inserted(path: seq<string>, t: Tasks): seq<string> {
    var p := if t.hpcDir in path then path else [t.hpcDir] + path;
    if t.expRoot in p then p else [t.expRoot] + p
  }

  /** The cached modules that a set of names shadows. */
  function Shadowed(modules: map<string, Module>, names: set<string>): map<string, Module> {
    map k | k in modules && Top(k) in names :: modules[k]
  }

  /** The cached modules that stay. */
  function Prune(modules: map<string, Module>, names: set<string>): map<string, Module> {
    map k | k in modules && Top(k) !in names :: modules[k]
  }

  lemma PruneTwice(m: map<string, Module>, a: set<string>, b: set<string>)
    ensures Prune(Prune(m, a), b) == Prune(m, a + b)
    ensures Shadowed(m, a) + Shadowed(Prune(m, a), b) == Shadowed(m, a + b)
  {
  }

  lemma PruneNothing(m: map<string, Module>)
    ensures Prune(m, {}) == m && Shadowed(m, {}) == map[]
  {
  }

  function Names(t: Tasks, isIdentifier: string -> bool): set<string> {
    Offered(t.hpc, isIdentifier) + Offered(t.root, isIdentifier)
  }

  /** The state in which the body is executed. */
  function Entry(s: Interp, t: Tasks, isIdentifier: string -> bool): Interp {
    var registered := s.modules[t.modName := t.mod];
    Interp(Inserted(s.path, t), Prune(registered, Names(t, isIdentifier)))
  }

  /** The state after the body: the old path, and the shadowed entries put back over whatever the
      body left. */
  function Exit(s: Interp, t: Tasks, isIdentifier: string -> bool, left: Interp): Interp {
    Interp(s.path, left.modules + Shadowed(s.modules[t.modName := t.mod], Names(t, isIdentifier)))
  }

  predicate Listable(t: Tasks) {
    !t.hpc.Unlistable? && !t.root.Unlistable?
  }

  /** The names whose cached modules are gone when a listing raises. */
  function Lost(t: Tasks, isIdentifier: string -> bool): set<string> {
    if t.hpc.Unlistable? then {} else Offered(t.hpc, isIdentifier)
  }

  /** The state after a load, whose body (if it comes to that) left the state `left`. */
  function After(s: Interp, t: Tasks, isIdentifier: string -> bool, left: Interp): Interp {
    if Listable(t) then Exit(s, t, isIdentifier, left)
    else Interp(Inserted(s.path, t), Prune(s.modules[t.modName := t.mod], Lost(t, isIdentifier)))
  }

  // ---------- the loader ----------

  class Interpreter {
    var path: seq<string>
    var modules: map<string, Module>

    constructor (path: seq<string>, modules: map<string, Module>)
      ensures this.path == path && this.modules == modules
    {
      this.path := path;
      this.modules := modules;
    }

    ghost function State(): Interp
      reads this
    {
      Interp(path, modules)
    }

    method InsertFront(entry: string)
      modifies this`path
      ensures path == if entry in old(path) then old(path) else [entry] + old(path)
    {
      if entry !in path {
        path := [entry] + path;
      }
    }

    /** Pop every cached entry of one name. */
    method PopStem(stem: string) returns (popped: map<string, Module>)
      requires '.' !in stem
      modifies this`modules
      ensures modules == Prune(old(modules), {stem}) && popped == Shadowed(old(modules), {stem})
    {
      forall k ensures Under(k, stem) <==> Top(k) == stem { UnderIsTop(k, stem); }
      var keys := set k | k in modules && Under(k, stem);
      popped := map k | k in keys :: modules[k];
      modules := map k | k in modules && k !in keys :: modules[k];
    }

    /** Pop every cached entry that one directory's children shadow. */
    method PopShadowed(children: seq<string>, isIdentifier: string -> bool) returns (popped: map<string, Module>)
      requires DotFree(isIdentifier)
      modifies this`modules
      ensures modules == Prune(old(modules), Offered(Listed(children), isIdentifier))
      ensures popped == Shadowed(old(modules), Offered(Listed(children), isIdentifier))
    {
      popped := map[];
      ghost var names: set<string> := {};
      PruneNothing(modules);
      for i := 0 to |children|
        invariant names == Offered(Listed(children[..i]), isIdentifier)
        invariant modules == Prune(old(modules), names) && popped == Shadowed(old(modules), names)
      {
        var stem := Stem(children[i]);
        assert children[..i + 1] == children[..i] + [children[i]];
        if isIdentifier(stem) {
          var more := PopStem(stem);
          popped := popped + more;
          PruneTwice(old(modules), names, {stem});
          names := names + {stem};
        }
      }
      assert children[..|children|] == children;
    }

    /** The listing loop over one directory; false when `listdir` raises. */
    method PopDirectory(d: Directory, isIdentifier: string -> bool) returns (ok: bool, popped: map<string, Module>)
      requires DotFree(isIdentifier)
      modifies this`modules
      ensures ok <==> !d.Unlistable?
      ensures modules == Prune(old(modules), Offered(d, isIdentifier))
      ensures popped == Shadowed(old(modules), Offered(d, isIdentifier))
    {
      popped := map[];
      PruneNothing(modules);
      if d.Listed? {
        popped := PopShadowed(d.children, isIdentifier);
      }
      ok := !d.Unlistable?;
    }

    /** The listing loop over `.hpc` and then the experiment root. */
    method ShadowBoth(t: Tasks, isIdentifier: string -> bool) returns (ok: bool, shadowed: map<string, Module>)
      requires DotFree(isIdentifier)
      modifies this`modules
      ensures ok <==> Listable(t)
      ensures ok ==> modules == Prune(old(modules), Names(t, isIdentifier)) && shadowed == Shadowed(old(modules), Names(t, isIdentifier))
      ensures !ok ==> modules == Prune(old(modules), Lost(t, isIdentifier))
    {
      ok, shadowed := PopDirectory(t.hpc, isIdentifier);
      if ok {
        var more: map<string, Module>;
        PruneTwice(old(modules), Offered(t.hpc, isIdentifier), Offered(t.root, isIdentifier));
        PruneTwice(old(modules), Offered(t.hpc, isIdentifier), {});
        assert Offered(t.hpc, isIdentifier) + {} == Offered(t.hpc, isIdentifier);
        ok, more := PopDirectory(t.root, isIdentifier);
        shadowed := shadowed + more;
      }
    }

    /** `load_tasks_module` on an existing, loadable file; `body` is whatever the user's module does
        to the interpreter, and whether it raises. */
    method LoadTasksModule(t: Tasks, isIdentifier: string -> bool, body: Interp -> (Interp, bool))
      returns (r: Outcome)
      requires DotFree(isIdentifier)
      modifies this
      ensures var (left, raised) := body(Entry(old(State()), t, isIdentifier));
              && State() == After(old(State()), t, isIdentifier, left)
              && r == (if !Listable(t) then ListingRaised
                       else if raised then BodyRaised else if t.exposes then Loaded else Incomplete)
    {
      modules := modules[t.modName := t.mod];
      var saved := path;
      InsertFront(t.hpcDir);
      InsertFront(t.expRoot);
      var listed, shadowed := ShadowBoth(t, isIdentifier);
      if !listed {
        return ListingRaised;
      }
      var (left, raised) := body(Interp(path, modules));
      path := saved;
      modules := left.modules + shadowed;
      if raised {
        return BodyRaised;
      }
      return if t.exposes then Loaded else Incomplete;
    }
  }

  // ---------- what the loader promises ----------

  /** A directory offers exactly the identifiers it has as a child or as a child with the suffix `.py`. */
  lemma OfferedIsImportable(d: Directory, isIdentifier: string -> bool, name: string)
    requires DotFree(isIdentifier)
    ensures name in Offered(d, isIdentifier)
       <==> d.Listed? && isIdentifier(name) && (name in d.children || name + ".py" in d.children)
  {
    if d.Listed? && isIdentifier(name) {
      StemOfName(name);
      if name in d.children { assert Stem(name) == name; }
      if name + ".py" in d.children { assert Stem(name + ".py") == name; }
    }
    if name in Offered(d, isIdentifier) {
      var c :| c in d.children && isIdentifier(Stem(c)) && Stem(c) == name;
      assert c == Stem(c) || c == Stem(c) + ".py";
    }
  }

  lemma StemOfName(name: string)
    requires '.' !in name
    ensures Stem(name) == name && Stem(name + ".py") == name
  {
    var file := name + ".py";
    assert file[|file| - 3..] == ".py" && file[..|file| - 3] == name;
    if |name| >= 3 { assert name[|name| - 3..][0] == name[|name| - 3]; }
  }

  /** One of the two directories has the name as an importable child. */
  predicate Importable(t: Tasks, isIdentifier: string -> bool, name: string) {
    isIdentifier(name) && (HasChild(t.hpc, name) || HasChild(t.root, name))
  }

  predicate HasChild(d: Directory, name: string) {
    d.Listed? && (name in d.children || name + ".py" in d.children)
  }

  /** While the body runs a key of the host's cache, or of the tasks module, is cached exactly when it is not,
      and is not below, a name that either directory has as a module or package; and then it is the host's. */
  lemma NothingStaleAtEntry(s: Interp, t: Tasks, isIdentifier: string -> bool, key: string)
    requires DotFree(isIdentifier) && key in s.modules[t.modName := t.mod]
    ensures key in Entry(s, t, isIdentifier).modules
       <==> !exists name :: Importable(t, isIdentifier, name) && Under(key, name)
    ensures key in Entry(s, t, isIdentifier).modules ==>
              Entry(s, t, isIdentifier).modules[key] == s.modules[t.modName := t.mod][key]
  {
    var top := Top(key);
    OfferedIsImportable(t.hpc, isIdentifier, top);
    OfferedIsImportable(t.root, isIdentifier, top);
    UnderIsTop(key, top);
    forall name | Importable(t, isIdentifier, name) && Under(key, name) ensures top in Names(t, isIdentifier) {
      UnderIsTop(key, name);
    }
    if top in Names(t, isIdentifier) {
      assert Importable(t, isIdentifier, top) && Under(key, top);
    }
  }

  /** Nothing else is cached while the body runs. */
  lemma OnlyTheHostsAtEntry(s: Interp, t: Tasks, isIdentifier: string -> bool)
    ensures Entry(s, t, isIdentifier).modules.Keys <= s.modules.Keys + {t.modName}
  {
  }

  /** The path while the body runs is the old one behind the directories it lacked. */
  lemma InsertedInFront(path: seq<string>, t: Tasks)
    ensures exists front :: && Inserted(path, t) == front + path
                            && forall d :: d in front <==> d in {t.hpcDir, t.expRoot} && d !in path
  {
    var a := if t.hpcDir in path then [] else [t.hpcDir];
    var p := a + path;
    var b := if t.expRoot in p then [] else [t.expRoot];
    assert [] + path == path;
    assert Inserted(path, t) == b + (a + path) == (b + a) + path;
    forall d ensures d in b + a <==> d in {t.hpcDir, t.expRoot} && d !in path {}
  }

  /** Whatever the body did, nested loads included: the path is the old one and every shadowed key
      maps to its own module again. */
  lemma ShadowedComeBack(s: Interp, t: Tasks, isIdentifier: string -> bool, left: Interp, key: string)
    requires key in s.modules && key != t.modName && Top(key) in Names(t, isIdentifier)
    ensures var after := Exit(s, t, isIdentifier, left);
            after.path == s.path && key in after.modules && after.modules[key] == s.modules[key]
  {
  }

  /** For a body that only imports, the host's cache is intact exactly when the host had already cached,
      under the same names, whatever the body brought in; every other module it imported stays. */
  lemma ImportsLeaveCacheIntactExactly(s: Interp, t: Tasks, isIdentifier: string -> bool, imported: map<string, Module>)
    requires imported.Keys !! Entry(s, t, isIdentifier).modules.Keys
    ensures var entry := Entry(s, t, isIdentifier);
            Exit(s, t, isIdentifier, Interp(entry.path, entry.modules + imported)).modules == s.modules[t.modName := t.mod]
            <==> imported.Keys <= s.modules.Keys + {t.modName}
  {
    ImportsOver(s.modules[t.modName := t.mod], Names(t, isIdentifier), imported);
  }

  lemma ImportsOver(m: map<string, Module>, names: set<string>, imported: map<string, Module>)
    requires imported.Keys !! Prune(m, names).Keys
    ensures Prune(m, names) + imported + Shadowed(m, names) == m <==> imported.Keys <= m.Keys
  {
    var after := Prune(m, names) + imported + Shadowed(m, names);
    assert after.Keys == m.Keys + imported.Keys;
    if imported.Keys <= m.Keys {
      forall k | k in m ensures after[k] == m[k] {}
    }
  }

  /** A submodule the body imports below a shadowed package outlives the load: the host's package
      comes back, with the experiment's submodule cached under it. */
  lemma ImportedSubmoduleStays(s: Interp, t: Tasks, isIdentifier: string -> bool, left: Interp, package: string, sub: string)
    requires '.' !in package && package in Names(t, isIdentifier) && Under(sub, package)
    requires package in s.modules && package != t.modName
    requires sub in left.modules && sub !in s.modules && sub != t.modName
    ensures var after := Exit(s, t, isIdentifier, left).modules;
            package in after && after[package] == s.modules[package] && sub in after && after[sub] == left.modules[sub]
  {
    UnderIsTop(package, package);
    PutBack(left.modules, s.modules[t.modName := t.mod], Names(t, isIdentifier), package);
    PutBack(left.modules, s.modules[t.modName := t.mod], Names(t, isIdentifier), sub);
  }

  lemma PutBack(left: map<string, Module>, m: map<string, Module>, names: set<string>, key: string)
    ensures var after := left + Shadowed(m, names);
            && (key in m && Top(key) in names ==> key in after && after[key] == m[key])
            && (key in left && key !in m ==> key in after && after[key] == left[key])
  {
  }

  /** The path is the old one after a load exactly when both directories could be listed, or stood
      on the path already: a listing that raises does so before the restoring block is entered. */
  lemma PathRestoredExactly(s: Interp, t: Tasks, isIdentifier: string -> bool, left: Interp)
    ensures After(s, t, isIdentifier, left).path == s.path <==> Listable(t) || (t.hpcDir in s.path && t.expRoot in s.path)
  {
    assert |Inserted(s.path, t)| == |s.path| <==> t.hpcDir in s.path && t.expRoot in s.path;
  }

  /** Every cached key that either directory shadows maps to its own module after the load. */
  ghost predicate ShadowedBack(s: Interp, t: Tasks, isIdentifier: string -> bool, left: Interp) {
    var registered, after := s.modules[t.modName := t.mod], After(s, t, isIdentifier, left).modules;
    forall k :: k in registered && Top(k) in Names(t, isIdentifier) ==> k in after && after[k] == registered[k]
  }

  /** The shadowed modules are back after a load exactly when both directories could be listed, or the
      listing raised before anything was popped: at `.hpc`, or because `.hpc` shadows nothing. */
  lemma ShadowedBackExactly(s: Interp, t: Tasks, isIdentifier: string -> bool, left: Interp)
    ensures ShadowedBack(s, t, isIdentifier, left)
       <==> Listable(t) || t.hpc.Unlistable?
            || Shadowed(s.modules[t.modName := t.mod], Offered(t.hpc, isIdentifier)) == map[]
  {
    var registered, names := s.modules[t.modName := t.mod], Offered(t.hpc, isIdentifier);
    if !Listable(t) && !t.hpc.Unlistable? {
      assert Names(t, isIdentifier) == names;
      if k :| k in registered && Top(k) in names {
        assert k in Shadowed(registered, names) && k !in Prune(registered, names);
      } else {
        assert Shadowed(registered, names).Keys == {};
      }
    }
  }

  /** A shadowed key that was popped when a listing raised is gone. */
  lemma LostKey(s: Interp, t: Tasks, isIdentifier: string -> bool, left: Interp, key: string)
    requires !Listable(t) && key in s.modules && Top(key) in Lost(t, isIdentifier)
    ensures key !in After(s, t, isIdentifier, left).modules && !ShadowedBack(s, t, isIdentifier, left)
  {
    var registered := s.modules[t.modName := t.mod];
    assert key in registered && Top(key) in Names(t, isIdentifier);
  }

  /** A root that cannot be listed costs the host the `src` it had cached and that `.hpc` has a child of. */
  lemma UnlistableRootLosesSrc(s: Interp, t: Tasks, isIdentifier: string -> bool, left: Interp)
    requires t.hpc == Listed(["src"]) && t.root.Unlistable? && isIdentifier("src") && "src" in s.modules
    ensures "src" !in After(s, t, isIdentifier, left).modules && !ShadowedBack(s, t, isIdentifier, left)
  {
    assert "src" in t.hpc.children && Stem("src") == "src";
    assert "src" in Offered(t.hpc, isIdentifier);
    UnderIsTop("src", "src");
    LostKey(s, t, isIdentifier, left, "src");
  }

  function FirstIndex(path: seq<string>, entry: string): nat {
    if path == [] || path[0] == entry then 0 else 1 + FirstIndex(path[1..], entry)
  }

  /** The experiment root is searched in front of `.hpc` while the body runs, except when the root
      was on the path already and `.hpc` was not, or stood in front of it. */
  lemma RootBeforeHpcExactly(path: seq<string>, t: Tasks)
    requires t.hpcDir != t.expRoot
    ensures t.hpcDir in Inserted(path, t) && t.expRoot in Inserted(path, t)
    ensures FirstIndex(Inserted(path, t), t.expRoot) < FirstIndex(Inserted(path, t), t.hpcDir)
       <==> t.expRoot !in path || (t.hpcDir in path && FirstIndex(path, t.expRoot) < FirstIndex(path, t.hpcDir))
  {
    var p := if t.hpcDir in path then path else [t.hpcDir] + path;
    assert ([t.hpcDir] + path)[1..] == path;
    assert ([t.expRoot] + p)[1..] == p;
  }
}
