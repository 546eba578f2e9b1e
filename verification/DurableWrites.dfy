/** The per-function taint scan of scripts/lint_atomic_durable_writes.py. */
module DurableWrites {
  import opened Text
  import opened ScopeTree

  /** What counts as durable: variable names, and file names in a string constant. */
  datatype Rules = Rules(varnames: set<string>, basenames: set<string>)

  datatype Finding = Finding(line: nat, target: string, kind: string)

  function NameOf(n: Node): Option<string> {
    match n.kind case Name(id) => Some(id) case _ => None
  }

  /** `_receiver_name`: the bare name a method is called on. */
  function ReceiverName(call: Node): Option<string> {
    if call.kids != [] && call.kids[0].kind.Attribute? && call.kids[0].kids != [] then NameOf(call.kids[0].kids[0])
    else None
  }

  function CalleeName(call: Node): Option<string> {
    if call.kids == [] then None
    else match call.kids[0].kind
      case Name(id) => Some(id)
      case Attribute(attr) => Some(attr)
      case _ => None
  }

  function StringOf(n: Node): Option<string> {
    match n.kind case Constant(text) => text case _ => None
  }

  /** The constant `mode=` keyword, the last one if several. */
  function ModeKeyword(keywords: seq<Node>): Option<string> {
    if keywords == [] then None
    else
      var last := keywords[|keywords| - 1];
      if last.kind == Keyword("mode") && last.kids != [] && last.kids[0].kind.Constant? then StringOf(last.kids[0])
      else ModeKeyword(keywords[..|keywords| - 1])
  }

  /** `_is_zipfile_write`: the bare-name target of a truncating ZipFile call. */
  function ZipFileTarget(call: Node): Option<string>
    requires call.kind.Call?
  {
    var nargs := call.kind.nargs;
    if CalleeName(call) != Some("ZipFile") || |call.kids| < 1 + nargs then None
    else
      var args, keywords := call.kids[1..1 + nargs], call.kids[1 + nargs..];
      var mode := if nargs >= 2 && args[1].kind.Constant? then StringOf(args[1]) else ModeKeyword(keywords);
      if mode.None? || ('w' !in mode.value && 'x' !in mode.value) || nargs == 0 then None
      else NameOf(args[0])
  }

  /** The write a node is, if it is one: a truncating write method on a bare name, or a ZipFile. */
  function WriteOf(n: Node): Option<Finding> {
    if !n.kind.Call? then None
    else if n.kids != [] && n.kids[0].kind in {Attribute("write_text"), Attribute("write_bytes")} then
      match ReceiverName(n)
      case Some(name) => Some(Finding(n.line, name, n.kids[0].kind.attr))
      case None => None
    else match ZipFileTarget(n)
      case Some(name) => Some(Finding(n.line, name, "ZipFile"))
      case None => None
  }

  /** A durable file name stands in some constant at or below the node. */
  predicate HoldsBasename(n: Node, rules: Rules) {
    (StringOf(n).Some? && StringOf(n).value in rules.basenames) || exists k :: 0 <= k < |n.kids| && HoldsBasename(n.kids[k], rules)
  }

  /** `_assignment_taints`: the single bare name assigned from such an expression. */
  function TaintOf(n: Node, rules: Rules): Option<string> {
    if n.kind.Assign? && |n.kids| > 0 && HoldsBasename(n.kids[|n.kids| - 1], rules) && n.kind.ntargets == 1
    then NameOf(n.kids[0])
    else None
  }

  function Writes(nodes: seq<Node>): seq<Finding> {
    if nodes == [] then []
    else (match WriteOf(nodes[0]) case Some(f) => [f] case None => []) + Writes(nodes[1..])
  }

  function Taints(nodes: seq<Node>, rules: Rules): set<string> {
    if nodes == [] then {}
    else (match TaintOf(nodes[0], rules) case Some(name) => {name} case None => {}) + Taints(nodes[1..], rules)
  }

  lemma {:induction false} Concat(a: seq<Node>, b: seq<Node>, rules: Rules)
    ensures Writes(a + b) == Writes(a) + Writes(b)
    ensures Taints(a + b, rules) == Taints(a, rules) + Taints(b, rules)
  {
    if a == [] {
      assert a + b == b;
    } else {
      assert (a + b)[1..] == a[1..] + b;
      Concat(a[1..], b, rules);
    }
  }

  lemma {:induction false} TaintsMeansSome(nodes: seq<Node>, rules: Rules, name: string)
    ensures name in Taints(nodes, rules) <==> exists x :: x in nodes && TaintOf(x, rules) == Some(name)
  {
    if nodes != [] {
      TaintsMeansSome(nodes[1..], rules, name);
    }
  }

  lemma {:induction false} WritesMeansSome(nodes: seq<Node>, f: Finding)
    ensures f in Writes(nodes) <==> exists x :: x in nodes && WriteOf(x) == Some(f)
  {
    if nodes != [] {
      WritesMeansSome(nodes[1..], f);
    }
  }

  // ---------- the scan ----------

  class Scanner {
    const rules: Rules
    var tainted: set<string>
    var writes: seq<Finding>

    constructor (rules: Rules)
      ensures this.rules == rules && tainted == {} && writes == []
    {
      this.rules, tainted, writes := rules, {}, [];
    }

    /** The recursive walk of one function body; nested definitions are skipped. */
    method Walk(n: Node)
      modifies this
      ensures tainted == old(tainted) + Taints(Owned(n.kids), rules)
      ensures writes == old(writes) + Writes(Owned(n.kids))
      decreases n, 1
    {
      for i := 0 to |n.kids|
        invariant tainted == old(tainted) + Taints(Owned(n.kids[..i]), rules)
        invariant writes == old(writes) + Writes(Owned(n.kids[..i]))
      {
        WalkChild(n, i, old(tainted), old(writes));
      }
      assert n.kids[..|n.kids|] == n.kids;
    }

    method WalkChild(n: Node, i: nat, ghost tainted0: set<string>, ghost writes0: seq<Finding>)
      requires i < |n.kids|
      requires tainted == tainted0 + Taints(Owned(n.kids[..i]), rules)
      requires writes == writes0 + Writes(Owned(n.kids[..i]))
      modifies this
      ensures tainted == tainted0 + Taints(Owned(n.kids[..i + 1]), rules)
      ensures writes == writes0 + Writes(Owned(n.kids[..i + 1]))
      decreases n, 0
    {
      VisitGrowsBy(n.kids, i, rules);
      Associate(writes0, Writes(Owned(n.kids[..i])), Writes(OwnedOf(n.kids[i])));
      Visit(n.kids[i]);
    }

    method Visit(child: Node)
      modifies this
      ensures tainted == old(tainted) + Taints(OwnedOf(child), rules)
      ensures writes == old(writes) + Writes(OwnedOf(child))
      decreases child, 2
    {
      if IsDef(child) {
        return;
      }
      var taint := TaintOf(child, rules);
      if taint.Some? {
        tainted := tainted + {taint.value};
      }
      var write := WriteOf(child);
      if write.Some? {
        writes := writes + [write.value];
      }
      OwnedOfChild(child, rules);
      Walk(child);
    }
  }

  lemma OwnedOfChild(child: Node, rules: Rules)
    requires !IsDef(child)
    ensures Taints(OwnedOf(child), rules)
         == (match TaintOf(child, rules) case Some(name) => {name} case None => {}) + Taints(Owned(child.kids), rules)
    ensures Writes(OwnedOf(child)) == (match WriteOf(child) case Some(f) => [f] case None => []) + Writes(Owned(child.kids))
  {
    assert OwnedOf(child)[0] == child && OwnedOf(child)[1..] == Owned(child.kids);
  }

  lemma VisitGrowsBy(kids: seq<Node>, i: nat, rules: Rules)
    requires i < |kids|
    ensures Taints(Owned(kids[..i + 1]), rules) == Taints(Owned(kids[..i]), rules) + Taints(OwnedOf(kids[i]), rules)
    ensures Writes(Owned(kids[..i + 1])) == Writes(Owned(kids[..i])) + Writes(OwnedOf(kids[i]))
  {
    OneMoreChild(kids, i);
    Concat(Owned(kids[..i]), OwnedOf(kids[i]), rules);
  }

  function Durable(writes: seq<Finding>, names: set<string>): seq<Finding> {
    if writes == [] then []
    else (if writes[0].target in names then [writes[0]] else []) + Durable(writes[1..], names)
  }

  /** `_scan_function`: the function's own writes whose target is durable or tainted in it. */
  method ScanFunction(def: Node, rules: Rules) returns (r: seq<Finding>)
    ensures r == Found(def, rules)
  {
    var s := new Scanner(rules);
    s.Walk(def);
    assert s.tainted == Taints(Owned(def.kids), rules) && s.writes == Writes(Owned(def.kids));
    r := KeepDurable(s.writes, rules.varnames, s.tainted);
  }

  method KeepDurable(writes: seq<Finding>, varnames: set<string>, tainted: set<string>) returns (r: seq<Finding>)
    ensures r == Durable(writes, varnames + tainted)
  {
    r := [];
    for i := 0 to |writes|
      invariant r + Durable(writes[i..], varnames + tainted) == Durable(writes, varnames + tainted)
    {
      assert writes[i..][0] == writes[i] && writes[i..][1..] == writes[i + 1..];
      ghost var before := r;
      if writes[i].target in varnames || writes[i].target in tainted {
        r := r + [writes[i]];
        Associate(before, [writes[i]], Durable(writes[i + 1..], varnames + tainted));
      }
    }
  }

  lemma {:induction false} DurableMeans(writes: seq<Finding>, names: set<string>, f: Finding)
    ensures f in Durable(writes, names) <==> f in writes && f.target in names
  {
    if writes != [] {
      DurableMeans(writes[1..], names, f);
    }
  }

  /** The definition at `q` is the innermost scope around the write, and the write's target is durable by
      name, or tainted by an assignment anywhere in that same scope. */
  ghost predicate Flagged(t: Node, q: Path, rules: Rules, f: Finding) {
    && (exists p :: Innermost(t, q, p) && NodeAt(t, p).Some? && WriteOf(NodeAt(t, p).value) == Some(f))
    && (f.target in rules.varnames
        || exists p :: Innermost(t, q, p) && NodeAt(t, p).Some? && TaintOf(NodeAt(t, p).value, rules) == Some(f.target))
  }

  /** What the scan of one definition keeps. */
  function Found(def: Node, rules: Rules): seq<Finding> {
    Durable(Writes(Owned(def.kids)), rules.varnames + Taints(Owned(def.kids), rules))
  }

  /** The scan of a definition keeps exactly the flagged writes. */
  lemma FlaggedIsInnermost(t: Node, q: Path, rules: Rules, f: Finding)
    requires q != [] && NodeAt(t, q).Some? && IsScope(t, q)
    ensures f in Found(NodeAt(t, q).value, rules) <==> Flagged(t, q, rules, f)
  {
    var own := Owned(KidsAt(t, q));
    DurableMeans(Writes(own), rules.varnames + Taints(own, rules), f);
    WritesMeansSome(own, f);
    TaintsMeansSome(own, rules, f.target);
    forall x: Node | !IsDef(x) ensures x in own <==> exists p :: Innermost(t, q, p) && NodeAt(t, p) == Some(x) {
      OwnedIsInnermost(t, q, x);
    }
    if p :| Innermost(t, q, p) && NodeAt(t, p).Some? && WriteOf(NodeAt(t, p).value) == Some(f) {
      assert NodeAt(t, p).value in own;
    }
    if p :| Innermost(t, q, p) && NodeAt(t, p).Some? && TaintOf(NodeAt(t, p).value, rules) == Some(f.target) {
      assert NodeAt(t, p).value in own;
    }
  }

  // ---------- a whole file ----------

  /** A finding with the definition it is reported under. */
  datatype Report = Report(owner: string, finding: Finding)

  ghost predicate FlaggedInFile(t: Node, rules: Rules, allowed: set<string>, rep: Report) {
    exists q :: && q != [] && IsScope(t, q) && NodeAt(t, q).Some? && NodeAt(t, q).value.kind == FuncDef(rep.owner)
                && rep.owner !in allowed && Flagged(t, q, rules, rep.finding)
  }

  function Tagged(name: string, findings: seq<Finding>): seq<Report> {
    seq(|findings|, k requires 0 <= k < |findings| => Report(name, findings[k]))
  }

  lemma TaggedMember(name: string, findings: seq<Finding>, rep: Report)
    ensures rep in Tagged(name, findings) <==> rep.owner == name && rep.finding in findings
  {
    if rep.owner == name && rep.finding in findings {
      var k :| 0 <= k < |findings| && findings[k] == rep.finding;
      assert Tagged(name, findings)[k] == rep;
    }
  }

  ghost predicate FoundBefore(defs: seq<Node>, n: nat, rules: Rules, allowed: set<string>, rep: Report)
    requires n <= |defs|
  {
    exists k :: && 0 <= k < n && defs[k].kind == FuncDef(rep.owner)
                && rep.owner !in allowed && rep.finding in Found(defs[k], rules)
  }

  /** The findings of `lint_file`: a write is reported under a function exactly when some definition of
      that name, not exempt, is innermost around it and its target is durable or tainted there. */
  method LintFile(tree: Node, rules: Rules, allowed: set<string>) returns (r: seq<Report>)
    ensures forall rep :: rep in r <==> FlaggedInFile(tree, rules, allowed, rep)
  {
    r := [];
    var defs := Defs(tree.kids);
    DefsAreDefs(tree.kids);
    for n := 0 to |defs|
      invariant forall rep :: rep in r <==> FoundBefore(defs, n, rules, allowed, rep)
    {
      var name := defs[n].kind.name;
      if name !in allowed {
        var found := ScanFunction(defs[n], rules);
        forall rep ensures rep in Tagged(name, found) <==> rep.owner == name && rep.finding in found {
          TaggedMember(name, found, rep);
        }
        r := r + Tagged(name, found);
      }
    }
    forall rep ensures rep in r <==> FlaggedInFile(tree, rules, allowed, rep) {
      FoundIsFlagged(tree, rules, allowed, rep);
    }
  }

  lemma {:induction false} DefsAreDefs(kids: seq<Node>)
    ensures forall k :: 0 <= k < |Defs(kids)| ==> Defs(kids)[k].kind.FuncDef?
  {
    forall k | 0 <= k < |Defs(kids)| ensures Defs(kids)[k].kind.FuncDef? {
      DefsAreInForest(kids, Defs(kids)[k]);
    }
  }

  lemma FoundIsFlagged(t: Node, rules: Rules, allowed: set<string>, rep: Report)
    ensures FoundBefore(Defs(t.kids), |Defs(t.kids)|, rules, allowed, rep) <==> FlaggedInFile(t, rules, allowed, rep)
  {
    var defs := Defs(t.kids);
    if k :| && 0 <= k < |defs| && defs[k].kind == FuncDef(rep.owner)
            && rep.owner !in allowed && rep.finding in Found(defs[k], rules) {
      DefsAreScopes(t, defs[k]);
      var q :| q != [] && IsScope(t, q) && NodeAt(t, q) == Some(defs[k]);
      FlaggedIsInnermost(t, q, rules, rep.finding);
    }
    if q :| && q != [] && IsScope(t, q) && NodeAt(t, q).Some? && NodeAt(t, q).value.kind == FuncDef(rep.owner)
            && rep.owner !in allowed && Flagged(t, q, rules, rep.finding) {
      FlaggedIsInnermost(t, q, rules, rep.finding);
      DefsAreScopes(t, NodeAt(t, q).value);
      var k :| 0 <= k < |defs| && defs[k] == NodeAt(t, q).value;
    }
  }

  // ---------- every write once ----------

  function AllWrites(defs: seq<Node>): seq<Finding> {
    if defs == [] then [] else Writes(Owned(defs[0].kids)) + AllWrites(defs[1..])
  }

  lemma {:induction false} AllWritesConcat(a: seq<Node>, b: seq<Node>)
    ensures AllWrites(a + b) == AllWrites(a) + AllWrites(b)
  {
    if a == [] {
      assert a + b == b;
    } else {
      assert (a + b)[1..] == a[1..] + b;
      AllWritesConcat(a[1..], b);
    }
  }

  /** Scanning every definition sees each write below a root exactly once, save those that belong to
      the root itself, which no scan of a definition sees. */
  lemma {:induction false} EveryWriteScannedOnce(kids: seq<Node>)
    ensures multiset(Writes(Plain(kids))) == multiset(Writes(Owned(kids))) + multiset(AllWrites(Defs(kids)))
  {
    if kids != [] {
      EveryWriteScannedOnce(kids[0].kids);
      EveryWriteScannedOnce(kids[1..]);
      WritesOfFirst(kids);
      ScansOfFirst(kids);
    }
  }

  function Own(n: Node): seq<Finding> {
    match WriteOf(n) case Some(f) => [f] case None => []
  }

  lemma WritesOfFirst(kids: seq<Node>)
    requires kids != []
    ensures Writes(Plain(kids)) == (if IsDef(kids[0]) then [] else Own(kids[0])) + Writes(Plain(kids[0].kids)) + Writes(Plain(kids[1..]))
    ensures Writes(Owned(kids)) == (if IsDef(kids[0]) then [] else Own(kids[0]) + Writes(Owned(kids[0].kids))) + Writes(Owned(kids[1..]))
  {
    var k, none := kids[0], Rules({}, {});
    var head := if IsDef(k) then [] else [k];
    assert head != [] ==> head[1..] == [];
    Concat(head + Plain(k.kids), Plain(kids[1..]), none);
    Concat(head, Plain(k.kids), none);
    Concat(head + (if IsDef(k) then [] else Owned(k.kids)), Owned(kids[1..]), none);
    Concat(head, Owned(k.kids), none);
    assert IsDef(k) ==> head + [] == [];
  }

  lemma ScansOfFirst(kids: seq<Node>)
    requires kids != []
    ensures AllWrites(Defs(kids))
         == (if IsDef(kids[0]) then Writes(Owned(kids[0].kids)) else []) + AllWrites(Defs(kids[0].kids)) + AllWrites(Defs(kids[1..]))
  {
    var k := kids[0];
    var head := if IsDef(k) then [k] else [];
    AllWritesConcat(head + Defs(k.kids), Defs(kids[1..]));
    AllWritesConcat(head, Defs(k.kids));
    assert head != [] ==> head[1..] == [];
  }

  // ---------- what the nodes mean ----------

  ghost predicate DurableConstantBelow(n: Node, rules: Rules) {
    exists p :: NodeAt(n, p).Some? && StringOf(NodeAt(n, p).value).Some? && StringOf(NodeAt(n, p).value).value in rules.basenames
  }

  /** Some string constant at or below the node is a durable file name. */
  lemma {:induction false} HoldsBasenameExactly(n: Node, rules: Rules)
    ensures HoldsBasename(n, rules) <==> DurableConstantBelow(n, rules)
  {
    forall k | 0 <= k < |n.kids| ensures HoldsBasename(n.kids[k], rules) <==> DurableConstantBelow(n.kids[k], rules) {
      HoldsBasenameExactly(n.kids[k], rules);
    }
    if StringOf(n).Some? && StringOf(n).value in rules.basenames {
      assert NodeAt(n, []) == Some(n);
    }
    if k :| 0 <= k < |n.kids| && HoldsBasename(n.kids[k], rules) {
      BelowKid(n, k, rules);
    }
    if p :| NodeAt(n, p).Some? && StringOf(NodeAt(n, p).value).Some? && StringOf(NodeAt(n, p).value).value in rules.basenames {
      if p != [] {
        assert NodeAt(n.kids[p[0]], p[1..]) == NodeAt(n, p);
        assert DurableConstantBelow(n.kids[p[0]], rules);
      }
    }
  }

  lemma BelowKid(n: Node, k: nat, rules: Rules)
    requires k < |n.kids| && DurableConstantBelow(n.kids[k], rules)
    ensures DurableConstantBelow(n, rules)
  {
    var p :| NodeAt(n.kids[k], p).Some? && StringOf(NodeAt(n.kids[k], p).value).Some?
             && StringOf(NodeAt(n.kids[k], p).value).value in rules.basenames;
    assert ([k] + p)[0] == k && ([k] + p)[1..] == p;
    assert NodeAt(n, [k] + p) == NodeAt(n.kids[k], p);
  }

  /** An assignment taints the one bare name it assigns, if its value has a durable file name in it. */
  lemma TaintExactly(n: Node, rules: Rules, name: string)
    ensures TaintOf(n, rules) == Some(name)
       <==> && n.kind == Assign(1) && n.kids != [] && n.kids[0].kind == Name(name)
            && DurableConstantBelow(n.kids[|n.kids| - 1], rules)
  {
    if n.kids != [] { HoldsBasenameExactly(n.kids[|n.kids| - 1], rules); }
  }

  predicate IsMode(k: Node) {
    k.kind == Keyword("mode") && k.kids != [] && k.kids[0].kind.Constant?
  }

  /** The last constant `mode=` decides. */
  lemma {:induction false} LastModeDecides(keywords: seq<Node>, k: nat)
    requires k < |keywords| && IsMode(keywords[k]) && forall j :: k < j < |keywords| ==> !IsMode(keywords[j])
    ensures ModeKeyword(keywords) == keywords[k].kids[0].kind.text
    decreases |keywords|
  {
    var n := |keywords| - 1;
    if k < n {
      assert !IsMode(keywords[n]);
      LastModeDecides(keywords[..n], k);
    }
  }

  lemma {:induction false} NoModeGiven(keywords: seq<Node>)
    requires forall j :: 0 <= j < |keywords| ==> !IsMode(keywords[j])
    ensures ModeKeyword(keywords) == None
    decreases |keywords|
  {
    if keywords != [] {
      var n := |keywords| - 1;
      assert !IsMode(keywords[n]);
      NoModeGiven(keywords[..n]);
    }
  }

  /** The mode a ZipFile call is given: its second argument if that is a constant, else the mode keyword. */
  function ModeOf(call: Node): Option<string>
    requires call.kind.Call? && |call.kids| >= 1 + call.kind.nargs
  {
    var nargs := call.kind.nargs;
    if nargs >= 2 && call.kids[2].kind.Constant? then call.kids[2].kind.text else ModeKeyword(call.kids[1 + nargs..])
  }

  /** A write is a truncating write method called on a bare name, or a ZipFile opened on one in a mode with
      `w` or `x`; it is reported with the call's line, the name and the kind. */
  lemma WriteExactly(n: Node, f: Finding)
    requires n.kind.Call? ==> |n.kids| >= 1 + n.kind.nargs
    ensures WriteOf(n) == Some(f)
       <==> && n.kind.Call? && f.line == n.line
            && var callee := n.kids[0];
               if callee.kind in {Attribute("write_text"), Attribute("write_bytes")} then
                 && callee.kids != [] && callee.kids[0].kind == Name(f.target)
                 && f.kind == (if callee.kind == Attribute("write_text") then "write_text" else "write_bytes")
               else
                 && callee.kind in {Name("ZipFile"), Attribute("ZipFile")} && f.kind == "ZipFile"
                 && n.kind.nargs > 0 && n.kids[1].kind == Name(f.target)
                 && ModeOf(n).Some? && ('w' in ModeOf(n).value || 'x' in ModeOf(n).value)
  {
    if n.kind.Call? {
      var nargs := n.kind.nargs;
      assert n.kids[1..1 + nargs] == n.kids[1..][..nargs];
      assert nargs >= 2 ==> n.kids[1..1 + nargs][1] == n.kids[2];
      assert nargs >= 1 ==> n.kids[1..1 + nargs][0] == n.kids[1];
    }
  }
}
