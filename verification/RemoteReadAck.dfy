/** Candidate scopes of scripts/lint_remote_read_ack.py: an ssh_run call and a `.stdout` read. */
module RemoteReadAck {
  import opened Text
  import opened ScopeTree

  /** `_call_name(func) == "ssh_run"` on a call node. */
  predicate IsSshCall(n: Node) {
    && n.kind.Call? && n.kids != []
    && match n.kids[0].kind
       case Name(id) => id == "ssh_run"
       case Attribute(attr) => attr == "ssh_run"
       case _ => false
  }

  predicate IsStdoutRead(n: Node) {
    n.kind == Attribute("stdout")
  }

  predicate AnySsh(nodes: seq<Node>) {
    nodes != [] && (IsSshCall(nodes[0]) || AnySsh(nodes[1..]))
  }

  predicate AnyStdout(nodes: seq<Node>) {
    nodes != [] && (IsStdoutRead(nodes[0]) || AnyStdout(nodes[1..]))
  }

  lemma {:induction false} AnyMeansSome(nodes: seq<Node>)
    ensures AnySsh(nodes) <==> exists x :: x in nodes && IsSshCall(x)
    ensures AnyStdout(nodes) <==> exists x :: x in nodes && IsStdoutRead(x)
  {
    if nodes != [] {
      AnyMeansSome(nodes[1..]);
    }
  }

  /** A function (or the module) accumulating evidence. */
  class Scope {
    const name: string
    const line: nat
    var hasSsh: bool
    var hasStdout: bool

    constructor (name: string, line: nat)
      ensures this.name == name && this.line == line && !hasSsh && !hasStdout
    {
      this.name, this.line, hasSsh, hasStdout := name, line, false, false;
    }

    /** The scope object carries exactly the evidence its definition owns. */
    ghost predicate Holds(d: Node)
      reads this
    {
      && d.kind.FuncDef? && name == d.kind.name && line == d.line
      && hasSsh == AnySsh(Owned(d.kids)) && hasStdout == AnyStdout(Owned(d.kids))
    }
  }

  lemma {:induction false} AnyConcat(a: seq<Node>, b: seq<Node>)
    ensures AnySsh(a + b) == (AnySsh(a) || AnySsh(b))
    ensures AnyStdout(a + b) == (AnyStdout(a) || AnyStdout(b))
  {
    if a == [] {
      assert a + b == b;
    } else {
      assert (a + b)[1..] == a[1..] + b;
      AnyConcat(a[1..], b);
    }
  }

  ghost predicate AllHold(scopes: seq<Scope>, defs: seq<Node>)
    reads scopes
  {
    |scopes| == |defs| && forall k :: 0 <= k < |scopes| ==> scopes[k].Holds(defs[k])
  }

  lemma AllHoldConcat(a: seq<Scope>, da: seq<Node>, b: seq<Scope>, db: seq<Node>)
    requires AllHold(a, da) && AllHold(b, db)
    ensures AllHold(a + b, da + db)
  {
  }

  class Collector {
    var scopes: seq<Scope>

    constructor (scope: Scope)
      ensures scopes == [scope]
    {
      scopes := [scope];
    }

    /** After `i` children: the scopes opened so far, and the evidence `scope` has on top of what it
        started with. */
    ghost predicate Walked(kids: seq<Node>, i: nat, scope: Scope, base: seq<Scope>, added: seq<Scope>, ssh: bool, stdout: bool)
      requires i <= |kids|
      reads this, scope, added
    {
      && scopes == base + added && scope !in added
      && AllHold(added, Defs(kids[..i]))
      && scope.hasSsh == (ssh || AnySsh(Owned(kids[..i])))
      && scope.hasStdout == (stdout || AnyStdout(Owned(kids[..i])))
    }

    /** The recursive walk: evidence goes to `scope`, every nested definition gets its own. */
    method Walk(node: Node, scope: Scope) returns (ghost added: seq<Scope>)
      modifies this, scope
      ensures forall s :: s in added ==> fresh(s)
      ensures Walked(node.kids, |node.kids|, scope, old(scopes), added, old(scope.hasSsh), old(scope.hasStdout))
      decreases node, 1
    {
      added := [];
      for i := 0 to |node.kids|
        invariant forall s :: s in added ==> fresh(s)
        invariant Walked(node.kids, i, scope, old(scopes), added, old(scope.hasSsh), old(scope.hasStdout))
      {
        added := WalkChild(node, i, scope, old(scopes), added, old(scope.hasSsh), old(scope.hasStdout));
      }
    }

    method WalkChild(node: Node, i: nat, scope: Scope,
                     ghost base: seq<Scope>, ghost before: seq<Scope>, ghost ssh: bool, ghost stdout: bool)
      returns (ghost added: seq<Scope>)
      requires i < |node.kids| && Walked(node.kids, i, scope, base, before, ssh, stdout)
      modifies this, scope
      ensures forall s :: s in added ==> s in before || fresh(s)
      ensures Walked(node.kids, i + 1, scope, base, added, ssh, stdout)
      decreases node, 0
    {
      VisitGrowsBy(node.kids, i);
      ghost var more := Visit(node.kids[i], scope);
      assert AllHold(before, Defs(node.kids[..i]));
      AllHoldConcat(before, Defs(node.kids[..i]), more, DefsOf(node.kids[i]));
      added := before + more;
      assert base + before + more == base + added;
    }

    /** One child: a definition opens its own scope, any other node is charged to the current one. */
    method Visit(child: Node, scope: Scope) returns (ghost added: seq<Scope>)
      modifies this, scope
      ensures scopes == old(scopes) + added && (forall s :: s in added ==> fresh(s))
      ensures AllHold(added, DefsOf(child))
      ensures scope.hasSsh == (old(scope.hasSsh) || AnySsh(OwnedOf(child)))
      ensures scope.hasStdout == (old(scope.hasStdout) || AnyStdout(OwnedOf(child)))
      decreases child, 2
    {
      if child.kind.FuncDef? {
        var own := new Scope(child.kind.name, child.line);
        scopes := scopes + [own];
        ghost var inner := Walk(child, own);
        assert child.kids[..|child.kids|] == child.kids;
        added := [own] + inner;
      } else {
        if IsSshCall(child) {
          scope.hasSsh := true;
        }
        if IsStdoutRead(child) {
          scope.hasStdout := true;
        }
        added := Walk(child, scope);
        assert child.kids[..|child.kids|] == child.kids;
        AnyOfFirst(child, Owned(child.kids));
      }
    }
  }

  lemma AnyOfFirst(x: Node, rest: seq<Node>)
    ensures AnySsh([x] + rest) == (IsSshCall(x) || AnySsh(rest))
    ensures AnyStdout([x] + rest) == (IsStdoutRead(x) || AnyStdout(rest))
  {
    assert ([x] + rest)[1..] == rest;
  }

  lemma VisitGrowsBy(kids: seq<Node>, i: nat)
    requires i < |kids|
    ensures Owned(kids[..i + 1]) == Owned(kids[..i]) + OwnedOf(kids[i])
    ensures AnySsh(Owned(kids[..i + 1])) == (AnySsh(Owned(kids[..i])) || AnySsh(OwnedOf(kids[i])))
    ensures AnyStdout(Owned(kids[..i + 1])) == (AnyStdout(Owned(kids[..i])) || AnyStdout(OwnedOf(kids[i])))
    ensures Defs(kids[..i + 1]) == Defs(kids[..i]) + DefsOf(kids[i])
  {
    OneMoreChild(kids, i);
    AnyConcat(Owned(kids[..i]), OwnedOf(kids[i]));
  }

  /** A scope as it is reported. */
  datatype Label = Label(name: string, line: nat)

  predicate IsCandidate(kids: seq<Node>) {
    AnySsh(Owned(kids)) && AnyStdout(Owned(kids))
  }

  function LabelOf(d: Node): Label {
    Label(if d.kind.FuncDef? then d.kind.name else "<module>", d.line)
  }

  /** The candidates among some scopes, in their order. */
  function Candidates(defs: seq<Node>): seq<Label> {
    if defs == [] then []
    else
      var n := |defs| - 1;
      Candidates(defs[..n]) + if IsCandidate(defs[n].kids) then [LabelOf(defs[n])] else []
  }

  method Report(scopes: seq<Scope>, ghost defs: seq<Node>) returns (r: seq<Label>)
    requires AllHold(scopes, defs)
    ensures r == Candidates(defs)
  {
    r := [];
    for i := 0 to |scopes|
      invariant r == Candidates(defs[..i])
    {
      assert defs[..i + 1][..i] == defs[..i];
      assert scopes[i].Holds(defs[i]);
      if scopes[i].hasSsh && scopes[i].hasStdout {
        r := r + [Label(scopes[i].name, scopes[i].line)];
      }
    }
    assert defs[..|defs|] == defs;
  }

  lemma {:induction false} CandidatesMember(defs: seq<Node>, l: Label)
    ensures l in Candidates(defs) <==> exists d :: d in defs && IsCandidate(d.kids) && l == LabelOf(d)
  {
    if defs != [] {
      var n := |defs| - 1;
      CandidatesMember(defs[..n], l);
      assert defs == defs[..n] + [defs[n]];
    }
  }

  /** The scope at `q` is the innermost one around an ssh_run call and around a `.stdout` read. */
  ghost predicate ReadsRemote(t: Node, q: Path) {
    && (exists p :: Innermost(t, q, p) && NodeAt(t, p).Some? && IsSshCall(NodeAt(t, p).value))
    && (exists p :: Innermost(t, q, p) && NodeAt(t, p).Some? && IsStdoutRead(NodeAt(t, p).value))
  }

  const MODULE: Label := Label("<module>", 1)

  /** The label belongs to a scope of the tree that reads a remote. */
  ghost predicate LabelsReader(t: Node, l: Label) {
    || (l == MODULE && ReadsRemote(t, []))
    || exists q :: && q != [] && NodeAt(t, q).Some? && NodeAt(t, q).value.kind == FuncDef(l.name)
                   && NodeAt(t, q).value.line == l.line && ReadsRemote(t, q)
  }

  /** `_candidate_scopes`: the module, then every definition in walk order, if it owns both; so a label is
      returned exactly when its scope is innermost around an ssh_run call and a `.stdout` read. */
  method CandidateScopes(tree: Node) returns (r: seq<Label>)
    ensures r == (if IsCandidate(tree.kids) then [MODULE] else []) + Candidates(Defs(tree.kids))
    ensures forall l :: l in r <==> LabelsReader(tree, l)
  {
    var mod := new Scope("<module>", 1);
    var c := new Collector(mod);
    ghost var added := c.Walk(tree, mod);
    assert tree.kids[..|tree.kids|] == tree.kids;
    assert c.scopes[1..] == added;
    var nested := Report(c.scopes[1..], Defs(tree.kids));
    r := (if mod.hasSsh && mod.hasStdout then [Label(mod.name, mod.line)] else []) + nested;
    forall l ensures l in r <==> LabelsReader(tree, l) {
      ReturnedIsReader(tree, l);
    }
  }

  lemma ReturnedIsReader(t: Node, l: Label)
    ensures (l == MODULE && IsCandidate(t.kids)) || l in Candidates(Defs(t.kids)) <==> LabelsReader(t, l)
  {
    CandidateIsInnermost(t, []);
    CandidatesMember(Defs(t.kids), l);
    if d :| d in Defs(t.kids) && IsCandidate(d.kids) && l == LabelOf(d) {
      DefsAreScopes(t, d);
      var q :| q != [] && IsScope(t, q) && NodeAt(t, q) == Some(d);
      CandidateIsInnermost(t, q);
    }
    if q :| && q != [] && NodeAt(t, q).Some? && NodeAt(t, q).value.kind == FuncDef(l.name)
            && NodeAt(t, q).value.line == l.line && ReadsRemote(t, q) {
      CandidateIsInnermost(t, q);
      DefsAreScopes(t, NodeAt(t, q).value);
    }
  }

  /** A scope of the tree is a candidate exactly when it is the innermost scope around some ssh_run
      call and around some `.stdout` read. */
  lemma CandidateIsInnermost(t: Node, q: Path)
    requires NodeAt(t, q).Some? && IsScope(t, q)
    ensures IsCandidate(KidsAt(t, q)) <==> ReadsRemote(t, q)
  {
    var nodes := Owned(KidsAt(t, q));
    AnyMeansSome(nodes);
    forall x: Node | !IsDef(x)
      ensures x in nodes <==> exists p :: Innermost(t, q, p) && NodeAt(t, p) == Some(x)
    {
      OwnedIsInnermost(t, q, x);
    }
    if p :| Innermost(t, q, p) && NodeAt(t, p).Some? && IsSshCall(NodeAt(t, p).value) {
      assert NodeAt(t, p).value in nodes;
    }
    if p :| Innermost(t, q, p) && NodeAt(t, p).Some? && IsStdoutRead(NodeAt(t, p).value) {
      assert NodeAt(t, p).value in nodes;
    }
  }

  /** The evidence: a call of `ssh_run` or of an attribute of that name, and an attribute `stdout`. */
  lemma EvidenceExactly(n: Node)
    ensures IsSshCall(n)
       <==> n.kind.Call? && n.kids != [] && n.kids[0].kind in {Name("ssh_run"), Attribute("ssh_run")}
    ensures IsStdoutRead(n) <==> n.kind == Attribute("stdout")
  {
  }
}
