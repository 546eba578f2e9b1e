/** The fork/wait guard of scripts/_mutmut_guarded_run.py. */
module WaitGuard {
  import opened Text

  /** What one `os.wait` hands out. */
  datatype Reap = Reap(pid: nat, status: int)

  // ---------- the two patched functions ----------

  /** The closure state shared by the patched `os.fork` and `os.wait`. */
  class Guard {
    var forked: set<nat>

    constructor ()
      ensures forked == {}
    {
      forked := {};
    }

    /** `tracking_fork`, given what the original fork returned: 0 in the child, the pid in the parent. */
    method TrackingFork(origFork: nat) returns (pid: nat)
      modifies this
      ensures pid == origFork && forked == AfterFork(old(forked), origFork)
      ensures forall p :: p in forked <==> p in old(forked) || (p == origFork && p > 0)
    {
      pid := origFork;
      if pid > 0 {
        forked := forked + {pid};
      }
    }

    /** `guarded_wait`, given what the original wait hands out in turn before it raises for want of
        children. `n` counts the calls that returned. */
    method GuardedWait(reaps: seq<Reap>) returns (r: Option<Reap>, n: nat)
      modifies this
      ensures r == Drain(old(forked), reaps)
      ensures forked == if r.Some? then old(forked) - {r.value.pid} else old(forked)
      ensures n <= |reaps| && (r.Some? ==> n > 0 && r.value == reaps[n - 1]) && (r.None? ==> n == |reaps|)
      ensures forall k :: 0 <= k < (if r.Some? then n - 1 else n) ==> reaps[k].pid !in old(forked)
    {
      n := 0;
      assert reaps[0..] == reaps;
      while n < |reaps|
        invariant n <= |reaps| && forked == old(forked)
        invariant Drain(forked, reaps[n..]) == Drain(forked, reaps)
        invariant forall k :: 0 <= k < n ==> reaps[k].pid !in forked
      {
        var got := reaps[n];
        assert reaps[n..][0] == got && reaps[n..][1..] == reaps[n + 1..];
        n := n + 1;
        if got.pid in forked {
          forked := forked - {got.pid};
          return Some(got), n;
        }
      }
      return None, n;
    }
  }

  function AfterFork(forked: set<nat>, pid: nat): set<nat> {
    if pid > 0 then forked + {pid} else forked
  }

  function Drain(forked: set<nat>, reaps: seq<Reap>): Option<Reap> {
    if reaps == [] then None
    else if reaps[0].pid in forked then Some(reaps[0])
    else Drain(forked, reaps[1..])
  }

  // ---------- the process world around them ----------

  /** A child process; `birth` tells apart children that get the same pid one after the other. */
  datatype Child = Child(birth: nat, pid: nat, tracked: bool)

  /** `exited` are the children a wait can reap. The last four sets keep account of every child. */
  datatype World = World(
    forked: set<nat>, waiting: bool,
    unreaped: set<Child>, exited: set<Child>, born: nat,
    returned: set<Child>, dropped: set<Child>, elsewhere: set<Child>)

  const FRESH: World := World({}, false, {}, {}, 0, {}, {}, {})

  datatype Event =
    | Fork(pid: nat)          // the parent forks through the patched os.fork
    | Appear(pid: nat)        // some other child appears (started otherwise, or reparented)
    | Exit(child: Child)
    | ReapElsewhere(child: Child)  // a stray reaped by the code that started it
    | Wait                    // the parent enters guarded_wait
    | WaitReaps(child: Child) // one turn of its loop
    | WaitFails               // no children are left: os.wait raises

  ghost predicate FreePid(w: World, pid: nat) {
    pid > 0 && forall c :: c in w.unreaped ==> c.pid != pid
  }

  ghost predicate Enabled(w: World, e: Event) {
    match e
    case Fork(pid) => !w.waiting && FreePid(w, pid)
    case Appear(pid) => FreePid(w, pid)
    case Exit(c) => c in w.unreaped
    case ReapElsewhere(c) => !w.waiting && c in w.exited && !c.tracked
    case Wait => !w.waiting
    case WaitReaps(c) => w.waiting && c in w.exited
    case WaitFails => w.waiting && w.unreaped == {}
  }

  function Apply(w: World, e: Event): World {
    match e
    case Fork(pid) =>
      w.(forked := AfterFork(w.forked, pid), unreaped := w.unreaped + {Child(w.born, pid, true)}, born := w.born + 1)
    case Appear(pid) =>
      w.(unreaped := w.unreaped + {Child(w.born, pid, false)}, born := w.born + 1)
    case Exit(c) => w.(exited := w.exited + {c})
    case ReapElsewhere(c) => Gone(w, c).(elsewhere := w.elsewhere + {c})
    case Wait => w.(waiting := true)
    case WaitReaps(c) =>
      if c.pid in w.forked then
        Gone(w, c).(forked := w.forked - {c.pid}, returned := w.returned + {c}, waiting := false)
      else Gone(w, c).(dropped := w.dropped + {c})
    case WaitFails => w.(waiting := false)
  }

  function Gone(w: World, c: Child): World {
    w.(unreaped := w.unreaped - {c}, exited := w.exited - {c})
  }

  ghost predicate ValidRun(w: World, run: seq<Event>)
    decreases |run|
  {
    run == [] || (Enabled(w, run[0]) && ValidRun(Apply(w, run[0]), run[1..]))
  }

  ghost function After(w: World, run: seq<Event>): World
    decreases |run|
  {
    if run == [] then w else After(Apply(w, run[0]), run[1..])
  }

  ghost function TrackedPids(w: World): set<nat> {
    set c | c in w.unreaped && c.tracked :: c.pid
  }

  ghost predicate AllTracked(cs: set<Child>) {
    forall c :: c in cs ==> c.tracked
  }

  /** What the kernel guarantees by itself: children not yet reaped have different pids. */
  ghost predicate Plausible(w: World) {
    && w.exited <= w.unreaped
    && (forall c, d :: c in w.unreaped && d in w.unreaped && c.pid == d.pid ==> c == d)
    && 0 !in w.forked
  }

  /** Every child ever born is in exactly one of the four accounts. */
  ghost predicate Accounted(w: World) {
    Tally(w.unreaped, w.returned, w.dropped, w.elsewhere, w.born)
  }

  ghost predicate Tally(a: set<Child>, b: set<Child>, c: set<Child>, d: set<Child>, born: nat) {
    && a !! b && a !! c && a !! d && b !! c && b !! d && c !! d
    && Older(a, born) && Older(b, born) && Older(c, born) && Older(d, born)
    && |a| + |b| + |c| + |d| == born
  }

  ghost predicate Older(cs: set<Child>, born: nat) {
    forall c :: c in cs ==> c.birth < born
  }

  lemma BirthTallies(a: set<Child>, b: set<Child>, c: set<Child>, d: set<Child>, born: nat, x: Child)
    requires Tally(a, b, c, d, born) && x.birth == born
    ensures Tally(a + {x}, b, c, d, born + 1)
  {
    assert x !in a;
  }

  lemma MoveTallies(a: set<Child>, b: set<Child>, c: set<Child>, d: set<Child>, born: nat, x: Child)
    requires Tally(a, b, c, d, born) && x in a
    ensures Tally(a - {x}, b + {x}, c, d, born)
  {
    assert |a - {x}| == |a| - 1;
  }

  /** The guard's invariant: it knows exactly its own unreaped children, has returned only its
      own, and has dropped only strays. */
  ghost predicate Inv(w: World) {
    && Plausible(w) && Accounted(w)
    && w.forked == TrackedPids(w)
    && AllTracked(w.returned)
    && (forall c :: c in w.dropped || c in w.elsewhere ==> !c.tracked)
  }

  lemma PlausibleStep(w: World, e: Event)
    requires Plausible(w) && Enabled(w, e)
    ensures Plausible(Apply(w, e))
  {
  }

  lemma AccountedStep(w: World, e: Event)
    requires Plausible(w) && Accounted(w) && Enabled(w, e)
    ensures Accounted(Apply(w, e))
  {
    match e
    case Fork(pid) =>
      BirthTallies(w.unreaped, w.returned, w.dropped, w.elsewhere, w.born, Child(w.born, pid, true));
    case Appear(pid) =>
      BirthTallies(w.unreaped, w.returned, w.dropped, w.elsewhere, w.born, Child(w.born, pid, false));
    case ReapElsewhere(c) =>
      MoveTallies(w.unreaped, w.elsewhere, w.returned, w.dropped, w.born, c);
    case WaitReaps(c) =>
      if c.pid in w.forked {
        MoveTallies(w.unreaped, w.returned, w.dropped, w.elsewhere, w.born, c);
      } else {
        MoveTallies(w.unreaped, w.dropped, w.returned, w.elsewhere, w.born, c);
      }
    case _ =>
  }

  lemma TrackedPidsStep(w: World, e: Event)
    requires Plausible(w) && Enabled(w, e)
    ensures TrackedPids(Apply(w, e)) ==
      match e
      case Fork(pid) => TrackedPids(w) + {pid}
      case WaitReaps(c) => if c.tracked then TrackedPids(w) - {c.pid} else TrackedPids(w)
      case _ => TrackedPids(w)
  {
    var w' := Apply(w, e);
    match e
    case Fork(pid) =>
      assert Child(w.born, pid, true) in w'.unreaped;
      assert forall c :: c in w.unreaped ==> c in w'.unreaped;
    case Appear(pid) =>
      assert forall c :: c in w.unreaped ==> c in w'.unreaped;
    case ReapElsewhere(c) =>
      assert forall d :: d in w.unreaped && d.tracked ==> d in w'.unreaped;
    case WaitReaps(c) =>
      assert forall d :: d in w.unreaped && d != c ==> d in w'.unreaped;
    case _ =>
  }

  lemma KnownIsTracked(w: World, c: Child)
    requires Plausible(w) && c in w.unreaped
    ensures c.pid in TrackedPids(w) <==> c.tracked
  {
  }

  lemma InvStep(w: World, e: Event)
    requires Inv(w) && Enabled(w, e)
    ensures Inv(Apply(w, e))
  {
    PlausibleStep(w, e);
    AccountedStep(w, e);
    TrackedPidsStep(w, e);
    if e.WaitReaps? {
      KnownIsTracked(w, e.child);
    }
  }

  /** For every interleaving of forks, strays, exits and waits, from a fresh guard on. */
  lemma {:induction false} EveryRunKeepsInv(w: World, run: seq<Event>)
    requires Inv(w) && ValidRun(w, run)
    ensures Inv(After(w, run))
    decreases |run|
  {
    if run != [] {
      InvStep(w, run[0]);
      EveryRunKeepsInv(Apply(w, run[0]), run[1..]);
    }
  }

  /** One turn of the wait loop in a sound world: it returns exactly a tracked child that was not
      returned before, drops exactly a stray, and each drop uses up one unreaped stray. */
  lemma WaitTurn(w: World, c: Child)
    requires Inv(w) && Enabled(w, WaitReaps(c))
    ensures var w' := Apply(w, WaitReaps(c));
            if c.tracked then
              !w'.waiting && c !in w.returned && w'.returned == w.returned + {c} && w'.dropped == w.dropped
            else
              && w'.waiting && w'.returned == w.returned && w'.dropped == w.dropped + {c}
              && |Strays(w')| < |Strays(w)|
  {
    var w' := Apply(w, WaitReaps(c));
    KnownIsTracked(w, c);
    if !c.tracked {
      assert Strays(w') == Strays(w) - {c};
    }
  }

  ghost function Strays(w: World): set<Child> {
    set c | c in w.unreaped && !c.tracked
  }

  /** What can happen while the parent sits in one wait: its turns, exits, and strays that appear. */
  predicate DuringWait(e: Event) {
    e.WaitReaps? || e.Exit? || e.Appear?
  }

  function TurnsIn(run: seq<Event>): nat {
    if run == [] then 0 else (if run[0].WaitReaps? then 1 else 0) + TurnsIn(run[1..])
  }

  function ArrivalsIn(run: seq<Event>): nat {
    if run == [] then 0 else (if run[0].Appear? then 1 else 0) + ArrivalsIn(run[1..])
  }

  /** One wait takes at most one turn more than there are unreaped strays when it begins, and strays
      that arrive meanwhile; as long as it still waits, it has used up a stray for every turn. */
  lemma {:induction false} WaitIsBounded(w: World, run: seq<Event>)
    requires Inv(w) && w.waiting && ValidRun(w, run) && forall k :: 0 <= k < |run| ==> DuringWait(run[k])
    ensures TurnsIn(run) <= |Strays(w)| + ArrivalsIn(run) + 1
    ensures After(w, run).waiting ==> TurnsIn(run) + |Strays(After(w, run))| == |Strays(w)| + ArrivalsIn(run)
    decreases |run|
  {
    if run != [] {
      var e := run[0];
      var w' := Apply(w, e);
      InvStep(w, e);
      StraysStep(w, e);
      if w'.waiting {
        WaitIsBounded(w', run[1..]);
      } else {
        NoTurnOutsideAWait(w', run[1..]);
      }
    }
  }

  lemma StraysStep(w: World, e: Event)
    requires Inv(w) && w.waiting && Enabled(w, e) && DuringWait(e)
    ensures Apply(w, e).waiting <==> !(e.WaitReaps? && e.child.tracked)
    ensures Apply(w, e).waiting ==>
              |Strays(Apply(w, e))| == |Strays(w)| + (if e.Appear? then 1 else 0) - (if e.WaitReaps? then 1 else 0)
  {
    var w' := Apply(w, e);
    match e
    case WaitReaps(c) =>
      KnownIsTracked(w, c);
      if !c.tracked {
        assert Strays(w') == Strays(w) - {c};
      }
    case Appear(pid) =>
      var c := Child(w.born, pid, false);
      assert Strays(w') == Strays(w) + {c} && c !in Strays(w);
    case Exit(c) => assert Strays(w') == Strays(w);
  }

  lemma {:induction false} NoTurnOutsideAWait(w: World, run: seq<Event>)
    requires !w.waiting && ValidRun(w, run) && forall k :: 0 <= k < |run| ==> DuringWait(run[k])
    ensures TurnsIn(run) == 0 && !After(w, run).waiting
    decreases |run|
  {
    if run != [] {
      NoTurnOutsideAWait(Apply(w, run[0]), run[1..]);
    }
  }

  /** Conservation: created = returned + dropped + reaped elsewhere + still unreaped. */
  lemma CreatedIsAccountedFor(run: seq<Event>)
    requires ValidRun(FRESH, run)
    ensures var w := After(FRESH, run);
            && w.born == |w.returned| + |w.dropped| + |w.elsewhere| + |w.unreaped|
            && AllTracked(w.returned) && w.forked == TrackedPids(w)
  {
    EveryRunKeepsInv(FRESH, run);
  }

  // ---------- the loop against the world ----------

  function Handed(order: seq<Child>): seq<Reap> {
    seq(|order|, k requires 0 <= k < |order| => Reap(order[k].pid, 0))
  }

  /** Whatever order the kernel reaps in, `guarded_wait` ends at the first of its own children, and
      fails only when the kernel has none of them to offer. */
  lemma {:induction false} DrainFindsTheFirstTracked(w: World, order: seq<Child>)
    requires Inv(w) && forall k :: 0 <= k < |order| ==> order[k] in w.unreaped
    ensures match Drain(w.forked, Handed(order))
            case None => forall k :: 0 <= k < |order| ==> !order[k].tracked
            case Some(reap) =>
              exists k :: 0 <= k < |order| && order[k].tracked && reap == Reap(order[k].pid, 0)
                          && forall j :: 0 <= j < k ==> !order[j].tracked
  {
    if order != [] {
      var rest := order[1..];
      assert Handed(order)[0] == Reap(order[0].pid, 0) && Handed(order)[1..] == Handed(rest);
      KnownIsTracked(w, order[0]);
      if !order[0].tracked {
        DrainFindsTheFirstTracked(w, rest);
        if Drain(w.forked, Handed(rest)).Some? {
          var k :| 0 <= k < |rest| && rest[k].tracked && Drain(w.forked, Handed(rest)).value == Reap(rest[k].pid, 0)
                   && forall j :: 0 <= j < k ==> !rest[j].tracked;
          assert order[k + 1] == rest[k];
          forall j | 0 <= j < k + 1 ensures !order[j].tracked {
            if j > 0 { assert order[j] == rest[j - 1]; }
          }
        }
      }
    }
  }

  function Turns(order: seq<Child>): seq<Event> {
    seq(|order|, k requires 0 <= k < |order| => WaitReaps(order[k]))
  }

  ghost predicate Distinct(order: seq<Child>) {
    forall j, k :: 0 <= j < k < |order| ==> order[j] != order[k]
  }

  /** `guarded_wait` and the world agree: reaping strays and then a remembered child, in this order,
      is a run of the world that returns what `guarded_wait` returns, forgets just that pid, drops
      the strays and leaves the loop. */
  lemma {:induction false} WaitIsARun(w: World, order: seq<Child>)
    requires w.waiting && order != [] && Distinct(order)
    requires forall k :: 0 <= k < |order| ==> order[k] in w.exited
    requires forall k :: 0 <= k < |order| - 1 ==> order[k].pid !in w.forked
    requires order[|order| - 1].pid in w.forked
    ensures var last := order[|order| - 1];
            && Drain(w.forked, Handed(order)) == Some(Reap(last.pid, 0))
            && ValidRun(w, Turns(order))
            && After(w, Turns(order)).forked == w.forked - {last.pid} && !After(w, Turns(order)).waiting
            && After(w, Turns(order)).returned == w.returned + {last}
            && After(w, Turns(order)).dropped == w.dropped + (set k | 0 <= k < |order| - 1 :: order[k])
    decreases |order|
  {
    var rest := order[1..];
    assert Turns(order)[0] == WaitReaps(order[0]) && Turns(order)[1..] == Turns(rest);
    assert Handed(order)[0] == Reap(order[0].pid, 0) && Handed(order)[1..] == Handed(rest);
    if |order| > 1 {
      var w' := Apply(w, WaitReaps(order[0]));
      forall k | 0 <= k < |rest| ensures rest[k] in w'.exited {
        assert rest[k] == order[k + 1];
      }
      WaitIsARun(w', rest);
      BehindFirst(order);
    }
  }

  lemma BehindFirst(order: seq<Child>)
    requires |order| > 1
    ensures (set k | 0 <= k < |order| - 1 :: order[k])
         == {order[0]} + (set k | 0 <= k < |order[1..]| - 1 :: order[1..][k])
  {
    var rest := order[1..];
    forall k | 0 < k < |order| - 1 ensures order[k] in (set j | 0 <= j < |rest| - 1 :: rest[j]) {
      assert rest[k - 1] == order[k];
    }
  }

  // ---------- exactly when the caller is safe ----------

  ghost predicate CanLeak(w: World) {
    exists run :: ValidRun(w, run) && !AllTracked(After(w, run).returned)
  }

  /** From a plausible world that has returned no stray, some continuation hands the caller a
      stray pid exactly when a remembered pid belongs to no unreaped tracked child. */
  lemma LeaksExactlyWhenAPidIsStale(w: World)
    requires Plausible(w) && AllTracked(w.returned)
    ensures CanLeak(w) <==> !(w.forked <= TrackedPids(w))
  {
    if w.forked <= TrackedPids(w) {
      if run :| ValidRun(w, run) && !AllTracked(After(w, run).returned) {
        NoStaleNoLeak(w, run);
      }
    } else {
      var pid :| pid in w.forked && pid !in TrackedPids(w);
      if FreePid(w, pid) {
        var w' := Apply(w, Appear(pid));
        var c := Child(w.born, pid, false);
        PlausibleStep(w, Appear(pid));
        LeakOf(w', c);
        LeakEarlier(w, Appear(pid));
      } else {
        var c :| c in w.unreaped && c.pid == pid;
        LeakOf(w, c);
      }
    }
  }

  lemma LeakEarlier(w: World, e: Event)
    requires Enabled(w, e) && CanLeak(Apply(w, e))
    ensures CanLeak(w)
  {
    var run :| ValidRun(Apply(w, e), run) && !AllTracked(After(Apply(w, e), run).returned);
    var longer := [e] + run;
    assert longer[0] == e && longer[1..] == run;
    assert ValidRun(w, longer) && After(w, longer) == After(Apply(w, e), run);
  }

  /** An unreaped stray whose pid is remembered is handed out by the next wait that reaps it. */
  lemma LeakOf(w: World, c: Child)
    requires Plausible(w) && c in w.unreaped && !c.tracked && c.pid in w.forked
    ensures CanLeak(w)
  {
    var w1 := Apply(w, Exit(c));
    var w2 := if w1.waiting then w1 else Apply(w1, Wait);
    var w3 := Apply(w2, WaitReaps(c));
    assert c in w3.returned;
    assert ValidRun(w3, []) && !AllTracked(After(w3, []).returned);
    LeakEarlier(w2, WaitReaps(c));
    if !w1.waiting {
      LeakEarlier(w1, Wait);
    }
    LeakEarlier(w, Exit(c));
  }

  /** The assumption is needed: if other code reaps one of the guard's own children, its pid stays
      remembered, and a later stray that gets the pid can reach the caller. */
  lemma OwnChildReapedElsewhereLeaks(w: World, c: Child)
    requires Inv(w) && c in w.exited && c.tracked
    ensures CanLeak(Gone(w, c).(elsewhere := w.elsewhere + {c}))
  {
    var w' := Gone(w, c).(elsewhere := w.elsewhere + {c});
    KnownIsTracked(w, c);
    assert c.pid in w'.forked && c.pid !in TrackedPids(w');
    LeaksExactlyWhenAPidIsStale(w');
  }

  lemma {:induction false} NoStaleNoLeak(w: World, run: seq<Event>)
    requires Plausible(w) && AllTracked(w.returned) && w.forked <= TrackedPids(w)
    requires ValidRun(w, run)
    ensures AllTracked(After(w, run).returned)
    decreases |run|
  {
    if run != [] {
      PlausibleStep(w, run[0]);
      NoStaleStep(w, run[0]);
      NoStaleNoLeak(Apply(w, run[0]), run[1..]);
    }
  }

  lemma NoStaleStep(w: World, e: Event)
    requires Plausible(w) && AllTracked(w.returned) && w.forked <= TrackedPids(w) && Enabled(w, e)
    ensures Apply(w, e).forked <= TrackedPids(Apply(w, e)) && AllTracked(Apply(w, e).returned)
  {
    TrackedPidsStep(w, e);
    if e.WaitReaps? {
      KnownIsTracked(w, e.child);
    }
  }
}
