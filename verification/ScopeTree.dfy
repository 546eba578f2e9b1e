/** Syntax trees and the innermost-scope relation that the two scope lints rest on. */
module ScopeTree {
  import opened Text

  /** Node kinds with the children in the order `iter_child_nodes` yields them: a call's function,
      `nargs` arguments and keywords; an attribute's value; an assignment's targets and value. */
  datatype Kind =
    | FuncDef(name: string)
    | Call(nargs: nat)
    | Attribute(attr: string)
    | Name(id: string)
    | Constant(text: Option<string>)
    | Keyword(arg: string)
    | Assign(ntargets: nat)
    | Other

  datatype Node = Node(kind: Kind, line: nat, kids: seq<Node>)

  predicate IsDef(n: Node) {
    n.kind.FuncDef?
  }

  // ---------- the declarative relation ----------

  type Path = seq<nat>

  function NodeAt(t: Node, p: Path): Option<Node>
    decreases |p|
  {
    if p == [] then Some(t)
    else if p[0] < |t.kids| then NodeAt(t.kids[p[0]], p[1..])
    else None
  }

  /** A scope: the root, or a function definition. */
  predicate IsScope(t: Node, q: Path) {
    q == [] || (NodeAt(t, q).Some? && IsDef(NodeAt(t, q).value))
  }

  /** `q` is the innermost scope around the node at `p`: the longest proper prefix that is a scope. */
  ghost predicate Innermost(t: Node, q: Path, p: Path) {
    && |q| < |p| && q == p[..|q|] && IsScope(t, q)
    && forall n :: |q| < n < |p| ==> !IsScope(t, p[..n])
  }

  /** Every node below the root has exactly one innermost scope. */
  lemma {:induction false} InnermostExists(t: Node, p: Path, n: nat) returns (q: Path)
    requires n < |p| && forall m :: n < m < |p| ==> !IsScope(t, p[..m])
    ensures Innermost(t, q, p)
    ensures forall q' :: Innermost(t, q', p) ==> q' == q
  {
    if IsScope(t, p[..n]) {
      q := p[..n];
      assert forall q' :: Innermost(t, q', p) ==> |q'| >= n;
    } else {
      q := InnermostExists(t, p, n - 1);
    }
  }

  // ---------- what a walk sees ----------

  /** The nodes charged to the scope whose children are given, in walk order. */
  function Owned(kids: seq<Node>): seq<Node> {
    if kids == [] then []
    else (if IsDef(kids[0]) then [] else [kids[0]] + Owned(kids[0].kids)) + Owned(kids[1..])
  }

  /** The function definitions below the given children, outer before inner. */
  function Defs(kids: seq<Node>): seq<Node> {
    if kids == [] then []
    else (if IsDef(kids[0]) then [kids[0]] else []) + Defs(kids[0].kids) + Defs(kids[1..])
  }

  /** Every node below, definitions left out. */
  function Plain(kids: seq<Node>): seq<Node> {
    if kids == [] then []
    else (if IsDef(kids[0]) then [] else [kids[0]]) + Plain(kids[0].kids) + Plain(kids[1..])
  }

  function OwnedByAll(defs: seq<Node>): multiset<Node> {
    if defs == [] then multiset{}
    else multiset(Owned(defs[0].kids)) + OwnedByAll(defs[1..])
  }

  lemma {:induction false} OwnedConcat(a: seq<Node>, b: seq<Node>)
    ensures Owned(a + b) == Owned(a) + Owned(b)
    decreases |a|
  {
    if a == [] {
      assert a + b == b;
    } else {
      assert (a + b)[0] == a[0] && (a + b)[1..] == a[1..] + b;
      OwnedConcat(a[1..], b);
      Associate(OwnedOf(a[0]), Owned(a[1..]), Owned(b));
    }
  }

  lemma {:induction false} DefsConcat(a: seq<Node>, b: seq<Node>)
    ensures Defs(a + b) == Defs(a) + Defs(b)
    decreases |a|
  {
    if a == [] {
      assert a + b == b;
    } else {
      assert (a + b)[0] == a[0] && (a + b)[1..] == a[1..] + b;
      DefsConcat(a[1..], b);
      Associate(DefsOf(a[0]), Defs(a[1..]), Defs(b));
    }
  }

  /** What one child contributes to the scope it is visited in, and the definitions it brings. */
  function OwnedOf(child: Node): seq<Node> {
    if IsDef(child) then [] else [child] + Owned(child.kids)
  }

  function DefsOf(child: Node): seq<Node> {
    (if IsDef(child) then [child] else []) + Defs(child.kids)
  }

  lemma OneMoreChild(kids: seq<Node>, i: nat)
    requires i < |kids|
    ensures Owned(kids[..i + 1]) == Owned(kids[..i]) + OwnedOf(kids[i])
    ensures Defs(kids[..i + 1]) == Defs(kids[..i]) + DefsOf(kids[i])
  {
    assert kids[..i + 1] == kids[..i] + [kids[i]];
    OwnedConcat(kids[..i], [kids[i]]);
    DefsConcat(kids[..i], [kids[i]]);
    assert [kids[i]][1..] == [];
  }

  lemma {:induction false} OwnedByAllConcat(a: seq<Node>, b: seq<Node>)
    ensures OwnedByAll(a + b) == OwnedByAll(a) + OwnedByAll(b)
    decreases |a|
  {
    if a == [] {
      assert a + b == b;
    } else {
      assert (a + b)[1..] == a[1..] + b;
      OwnedByAllConcat(a[1..], b);
    }
  }

  /** Conservation: the scopes share out all nodes below a root, each occurrence to exactly one. */
  lemma {:induction false} EveryNodeChargedOnce(kids: seq<Node>)
    ensures multiset(Plain(kids)) == multiset(Owned(kids)) + OwnedByAll(Defs(kids))
  {
    if kids != [] {
      var k := kids[0];
      EveryNodeChargedOnce(k.kids);
      EveryNodeChargedOnce(kids[1..]);
      ChargesOfFirst(kids);
      NodesOfFirst(kids);
    }
  }

  lemma NodesOfFirst(kids: seq<Node>)
    requires kids != []
    ensures multiset(Plain(kids))
         == (if IsDef(kids[0]) then multiset{} else multiset{kids[0]})
          + multiset(Plain(kids[0].kids)) + multiset(Plain(kids[1..]))
    ensures multiset(Owned(kids))
         == (if IsDef(kids[0]) then multiset{} else multiset{kids[0]} + multiset(Owned(kids[0].kids)))
          + multiset(Owned(kids[1..]))
  {
  }

  lemma ChargesOfFirst(kids: seq<Node>)
    requires kids != []
    ensures OwnedByAll(Defs(kids))
         == (if IsDef(kids[0]) then multiset(Owned(kids[0].kids)) else multiset{})
          + OwnedByAll(Defs(kids[0].kids)) + OwnedByAll(Defs(kids[1..]))
  {
    var k := kids[0];
    var head := if IsDef(k) then [k] else [];
    OwnedByAllConcat(head + Defs(k.kids), Defs(kids[1..]));
    OwnedByAllConcat(head, Defs(k.kids));
    assert IsDef(k) ==> [k][1..] == [];
  }

  // ---------- the walk against the relation ----------

  /** The children of the node at `q`. */
  function KidsAt(t: Node, q: Path): seq<Node>
    requires NodeAt(t, q).Some?
  {
    NodeAt(t, q).value.kids
  }

  /** A node below the children of a scope that no definition separates from it. */
  ghost predicate Reachable(kids: seq<Node>, p: Path, x: Node)
    decreases |p|
  {
    && p != [] && p[0] < |kids| && !IsDef(kids[p[0]])
    && if |p| == 1 then kids[p[0]] == x else Reachable(kids[p[0]].kids, p[1..], x)
  }

  ghost predicate SomewhereBelow(kids: seq<Node>, x: Node) {
    exists p :: Reachable(kids, p, x)
  }

  lemma BelowFirstOrRest(kids: seq<Node>, x: Node)
    requires kids != []
    ensures SomewhereBelow(kids, x)
       <==> (!IsDef(kids[0]) && (x == kids[0] || SomewhereBelow(kids[0].kids, x))) || SomewhereBelow(kids[1..], x)
  {
    var k := kids[0];
    if p :| Reachable(kids, p, x) {
      if p[0] > 0 {
        var p' := [p[0] - 1] + p[1..];
        assert p'[1..] == p[1..] && kids[1..][p'[0]] == kids[p[0]];
        assert Reachable(kids[1..], p', x);
      } else if |p| > 1 {
        assert Reachable(k.kids, p[1..], x);
      }
    }
    if !IsDef(k) && x == k {
      assert Reachable(kids, [0], x);
    }
    if !IsDef(k) && SomewhereBelow(k.kids, x) {
      var p :| Reachable(k.kids, p, x);
      assert ([0] + p)[1..] == p;
      assert Reachable(kids, [0] + p, x);
    }
    if p :| Reachable(kids[1..], p, x) {
      var p' := [p[0] + 1] + p[1..];
      assert p'[1..] == p[1..] && kids[1..][p[0]] == kids[p'[0]];
      assert Reachable(kids, p', x);
    }
  }

  lemma {:induction false} OwnedIsReachable(kids: seq<Node>, x: Node)
    ensures x in Owned(kids) <==> SomewhereBelow(kids, x)
  {
    if kids != [] {
      OwnedIsReachable(kids[0].kids, x);
      OwnedIsReachable(kids[1..], x);
      BelowFirstOrRest(kids, x);
      assert x in Owned(kids) <==>
        (!IsDef(kids[0]) && x in [kids[0]] + Owned(kids[0].kids)) || x in Owned(kids[1..]);
    }
  }

  lemma {:induction false} NodeAtSplit(t: Node, q: Path, r: Path)
    requires NodeAt(t, q).Some?
    ensures NodeAt(t, q + r) == NodeAt(NodeAt(t, q).value, r)
    decreases |q|
  {
    if q == [] {
      assert q + r == r;
    } else {
      assert (q + r)[0] == q[0] && (q + r)[1..] == q[1..] + r;
      NodeAtSplit(t.kids[q[0]], q[1..], r);
    }
  }

  lemma {:induction false} ReachableIsUnseparated(n: Node, r: Path, x: Node)
    requires r != []
    ensures Reachable(n.kids, r, x)
       <==> NodeAt(n, r) == Some(x) && !IsDef(x) && forall m :: 0 < m < |r| ==> !IsScope(n, r[..m])
    decreases |r|
  {
    if r[0] < |n.kids| {
      var k := n.kids[r[0]];
      assert NodeAt(n, r) == NodeAt(k, r[1..]);
      assert r[..1] == [r[0]];
      assert |r| > 1 ==> NodeAt(n, r[..1]) == Some(k);
      if |r| > 1 {
        ReachableIsUnseparated(k, r[1..], x);
        forall m | 0 < m < |r| - 1 ensures IsScope(k, r[1..][..m]) == IsScope(n, r[..m + 1]) {
          assert r[..m + 1][1..] == r[1..][..m];
        }
        forall m | 1 < m < |r| ensures IsScope(n, r[..m]) == IsScope(k, r[1..][..m - 1]) {
          assert r[..m][1..] == r[1..][..m - 1];
        }
      }
    }
  }

  /** A node is charged to a scope exactly when that scope is the innermost one around it. */
  lemma OwnedIsInnermost(t: Node, q: Path, x: Node)
    requires NodeAt(t, q).Some? && IsScope(t, q) && !IsDef(x)
    ensures x in Owned(KidsAt(t, q)) <==> exists p :: Innermost(t, q, p) && NodeAt(t, p) == Some(x)
  {
    var n := NodeAt(t, q).value;
    OwnedIsReachable(n.kids, x);
    if SomewhereBelow(n.kids, x) {
      var r :| Reachable(n.kids, r, x);
      ReachableIsUnseparated(n, r, x);
      ScopesBelow(t, q, r);
      NodeAtSplit(t, q, r);
      assert Innermost(t, q, q + r);
    }
    if p :| Innermost(t, q, p) && NodeAt(t, p) == Some(x) {
      var r := p[|q|..];
      assert p == q + r;
      ScopesBelow(t, q, r);
      NodeAtSplit(t, q, r);
      ReachableIsUnseparated(n, r, x);
    }
  }

  lemma ScopesBelow(t: Node, q: Path, r: Path)
    requires NodeAt(t, q).Some? && IsScope(t, q) && r != []
    ensures Innermost(t, q, q + r) <==> forall m :: 0 < m < |r| ==> !IsScope(NodeAt(t, q).value, r[..m])
  {
    var p := q + r;
    assert p[..|q|] == q;
    forall m | 0 < m < |r| ensures IsScope(NodeAt(t, q).value, r[..m]) == IsScope(t, p[..|q| + m]) {
      assert p[..|q| + m] == q + r[..m];
      NodeAtSplit(t, q, r[..m]);
    }
    forall n | |q| < n < |p| ensures IsScope(t, p[..n]) == IsScope(NodeAt(t, q).value, r[..n - |q|]) {
      assert p[..n] == q + r[..n - |q|];
      NodeAtSplit(t, q, r[..n - |q|]);
    }
  }

  // ---------- the listed definitions are the nested scopes ----------

  ghost predicate InForest(kids: seq<Node>, p: Path, d: Node) {
    p != [] && p[0] < |kids| && NodeAt(kids[p[0]], p[1..]) == Some(d)
  }

  ghost predicate SomewhereIn(kids: seq<Node>, d: Node) {
    exists p :: InForest(kids, p, d)
  }

  lemma InFirstOrRest(kids: seq<Node>, d: Node)
    requires kids != []
    ensures SomewhereIn(kids, d) <==> d == kids[0] || SomewhereIn(kids[0].kids, d) || SomewhereIn(kids[1..], d)
  {
    if p :| InForest(kids, p, d) {
      if p[0] > 0 {
        var p' := [p[0] - 1] + p[1..];
        assert p'[1..] == p[1..] && kids[1..][p'[0]] == kids[p[0]];
        assert InForest(kids[1..], p', d);
      } else if |p| > 1 {
        assert InForest(kids[0].kids, p[1..], d);
      }
    }
    if d == kids[0] {
      assert InForest(kids, [0], d);
    }
    if p :| InForest(kids[0].kids, p, d) {
      assert ([0] + p)[1..] == p;
      assert InForest(kids, [0] + p, d);
    }
    if p :| InForest(kids[1..], p, d) {
      var p' := [p[0] + 1] + p[1..];
      assert p'[1..] == p[1..] && kids[1..][p[0]] == kids[p'[0]];
      assert InForest(kids, p', d);
    }
  }

  lemma {:induction false} DefsAreInForest(kids: seq<Node>, d: Node)
    ensures d in Defs(kids) <==> IsDef(d) && SomewhereIn(kids, d)
  {
    if kids != [] {
      DefsAreInForest(kids[0].kids, d);
      DefsAreInForest(kids[1..], d);
      InFirstOrRest(kids, d);
      DefsMember(kids, d);
    }
  }

  lemma DefsMember(kids: seq<Node>, d: Node)
    requires kids != []
    ensures d in Defs(kids) <==> (IsDef(kids[0]) && d == kids[0]) || d in Defs(kids[0].kids) || d in Defs(kids[1..])
  {
  }

  /** The definitions listed below a root are the nested scopes of the tree, no more and no less. */
  lemma DefsAreScopes(t: Node, d: Node)
    ensures d in Defs(t.kids) <==> exists q :: q != [] && IsScope(t, q) && NodeAt(t, q) == Some(d)
  {
    DefsAreInForest(t.kids, d);
    if p :| InForest(t.kids, p, d) && IsDef(d) {
      assert NodeAt(t, p) == Some(d) && IsScope(t, p);
    }
    if q :| q != [] && IsScope(t, q) && NodeAt(t, q) == Some(d) {
      assert InForest(t.kids, q, d);
    }
  }
}
