/** How many workers the driver of scripts/run_sandbox_proving.py gives a block, without and with a lease. */
module BlockWorkers {
  import opened Text
  import opened Json
  import opened BlockChain

  // ---------- workers without a lease ----------

  /** How many workers a block ever got if every launch were granted: an approve tick may launch the
      successor itself, an invocation launches the block. */
  function Spawned(trace: seq<Event>, advances: seq<bool>, b: Block): nat
    requires |trace| == |advances|
  {
    if trace == [] then 0
    else
      var n := |trace| - 1;
      Spawned(trace[..n], advances[..n], b) + Launches(trace[n], advances[n], b)
  }

  function Launches(e: Event, advance: bool, b: Block): nat {
    match e
    case Ticked(p) => if advance && Next(p) == b then 1 else 0
    case Invoked(x) => if x == b then 1 else 0
    case _ => 0
  }

  /** The probe right in front of the invocation at `k` reported no worker although there was one. */
  ghost predicate MissedAt(trace: seq<Event>, advances: seq<bool>, b: Block, k: nat)
    requires |trace| == |advances|
  {
    && 0 < k < |trace| && trace[k] == Invoked(b) && trace[k - 1] == Probed(b, false)
    && Spawned(trace[..k - 1], advances[..k - 1], b) > 0
  }

  lemma SafePrefix(env: Env, trace: seq<Event>, k: nat)
    requires SafeTrace(env, trace) && k <= |trace|
    ensures SafeTrace(env, trace[..k])
  {
    forall j | 0 <= j < k ensures Justified(env, trace[..k][..j], trace[..k][j]) {
      assert trace[..k][..j] == trace[..j];
    }
  }

  /** Each of the two ways to a worker is used at most once, and only after nothing else was. */
  lemma {:induction false} SpawnedSources(env: Env, trace: seq<Event>, advances: seq<bool>, b: Block)
    requires |trace| == |advances| && SafeTrace(env, trace)
    ensures Spawned(trace, advances, b)
         <= (if b != S1 && Prev(b) in Sum(trace).ticked then 1 else 0) + (if b in Sum(trace).invoked then 1 else 0)
  {
    if trace != [] {
      var n := |trace| - 1;
      SafePrefix(env, trace, n);
      SpawnedSources(env, trace[..n], advances[..n], b);
      assert Justified(env, trace[..n], trace[n]);
    }
  }

  lemma {:induction false} SpawnedGrows(trace: seq<Event>, advances: seq<bool>, b: Block, k: nat)
    requires |trace| == |advances| && k <= |trace|
    ensures Spawned(trace[..k], advances[..k], b) <= Spawned(trace, advances, b)
    decreases |trace|
  {
    var n := |trace| - 1;
    if k == |trace| {
      assert trace[..k] == trace && advances[..k] == advances;
    } else {
      SpawnedGrows(trace[..n], advances[..n], b, k);
      assert trace[..n][..k] == trace[..k] && advances[..n][..k] == advances[..k];
    }
  }

  /** What the driver guarantees by itself: without any lease a block gets a second worker exactly
      when it was invoked on a probe that missed the first one; a tick never makes the second. */
  lemma {:induction false} SecondWorkerExactly(env: Env, trace: seq<Event>, advances: seq<bool>, b: Block)
    requires |trace| == |advances| && SafeTrace(env, trace)
    ensures Spawned(trace, advances, b) > 1 <==> exists k :: MissedAt(trace, advances, b, k)
  {
    if k :| MissedAt(trace, advances, b, k) {
      MissedSpawnsTwo(trace, advances, b, k);
    }
    if Spawned(trace, advances, b) > 1 {
      var k := SecondWorkerIsInvoked(env, trace, advances, b);
    }
  }

  lemma MissedSpawnsTwo(trace: seq<Event>, advances: seq<bool>, b: Block, k: nat)
    requires |trace| == |advances| && MissedAt(trace, advances, b, k)
    ensures Spawned(trace, advances, b) > 1
  {
    var t, a := trace[..k + 1], advances[..k + 1];
    SpawnedGrows(trace, advances, b, k + 1);
    assert t[..k] == trace[..k] && a[..k] == advances[..k];
    ProbeSpawnsNone(trace, advances, b, k);
  }

  /** A probe changes nothing: in front of it and behind it there are as many workers. */
  lemma ProbeSpawnsNone(trace: seq<Event>, advances: seq<bool>, b: Block, k: nat)
    requires |trace| == |advances| && 0 < k <= |trace| && trace[k - 1].Probed?
    ensures Spawned(trace[..k], advances[..k], b) == Spawned(trace[..k - 1], advances[..k - 1], b)
  {
    assert trace[..k][..k - 1] == trace[..k - 1] && advances[..k][..k - 1] == advances[..k - 1];
  }

  lemma {:induction false} SecondWorkerIsInvoked(env: Env, trace: seq<Event>, advances: seq<bool>, b: Block) returns (k: nat)
    requires |trace| == |advances| && SafeTrace(env, trace) && Spawned(trace, advances, b) > 1
    ensures MissedAt(trace, advances, b, k)
    decreases |trace|
  {
    var n := |trace| - 1;
    SafePrefix(env, trace, n);
    if Spawned(trace[..n], advances[..n], b) > 1 {
      k := SecondWorkerIsInvoked(env, trace[..n], advances[..n], b);
      assert trace[..n][..k - 1] == trace[..k - 1] && advances[..n][..k - 1] == advances[..k - 1];
    } else {
      k := n;
      SecondComesLast(env, trace, advances, b);
    }
  }

  lemma SecondComesLast(env: Env, trace: seq<Event>, advances: seq<bool>, b: Block)
    requires |trace| == |advances| && SafeTrace(env, trace) && trace != []
    requires Spawned(trace, advances, b) > 1 >= Spawned(trace[..|trace| - 1], advances[..|trace| - 1], b)
    ensures MissedAt(trace, advances, b, |trace| - 1)
  {
    var n := |trace| - 1;
    SafePrefix(env, trace, n);
    assert Justified(env, trace[..n], trace[n]);
    SpawnedSources(env, trace[..n], advances[..n], b);
    assert trace[n] == Invoked(b);
    ProbeSpawnsNone(trace, advances, b, n);
  }

  /** With probes that miss nobody, no run of the driver gives a block two workers, whichever ticks
      launch the successor themselves. */
  lemma OneWorkerWithoutLease(env: Env, trace: seq<Event>, advances: seq<bool>, b: Block)
    requires |trace| == |advances| && SafeTrace(env, trace)
    requires forall k :: 0 <= k < |trace| && trace[k] == Probed(b, false) ==> Spawned(trace[..k], advances[..k], b) == 0
    ensures Spawned(trace, advances, b) <= 1
  {
    forall k: nat ensures !MissedAt(trace, advances, b, k) {
      if 0 < k < |trace| && trace[k - 1] == Probed(b, false) {
        assert Spawned(trace[..k - 1], advances[..k - 1], b) == 0;
      }
    }
    SecondWorkerExactly(env, trace, advances, b);
  }

  // ---------- workers under a lease ----------

  /** The cluster side: one lease per block, and how many workers each block ever had. */
  datatype Cluster = Cluster(leased: set<Block>, workers: map<Block, nat>)

  const IDLE: Cluster := Cluster({}, map[])

  function Workers(c: Cluster, b: Block): nat {
    if b in c.workers then c.workers[b] else 0
  }

  /** A launch attempt: granted once per block, refused ever after. */
  function Launch(c: Cluster, b: Block): Cluster {
    if b in c.leased then c else Cluster(c.leased + {b}, c.workers[b := Workers(c, b) + 1])
  }

  /** The driver's actions as the cluster sees them; an approve tick may launch the successor itself. */
  function Replay(trace: seq<Event>, advances: seq<bool>): Cluster
    requires |trace| == |advances|
  {
    if trace == [] then IDLE
    else
      var n := |trace| - 1;
      Act(Replay(trace[..n], advances[..n]), trace[n], advances[n])
  }

  function Act(c: Cluster, e: Event, advance: bool): Cluster {
    match e
    case Ticked(b) => if advance then Launch(c, Next(b)) else c
    case Invoked(b) => Launch(c, b)
    case _ => c
  }

  /** A worker that a probe reports is there; a probe may fail or report nothing. */
  ghost predicate ProbesHonest(trace: seq<Event>, advances: seq<bool>)
    requires |trace| == |advances|
  {
    forall k, b :: 0 <= k < |trace| && trace[k] == Probed(b, true) ==> b in Replay(trace[..k], advances[..k]).leased
  }

  /** No existing worker is missed. */
  ghost predicate ProbesComplete(trace: seq<Event>, advances: seq<bool>)
    requires |trace| == |advances|
  {
    forall k, b :: 0 <= k < |trace| && trace[k] == Probed(b, false) ==> b !in Replay(trace[..k], advances[..k]).leased
  }

  /** Whatever the driver does and the ticks launch, a block never has two workers. */
  lemma {:induction false} AtMostOneWorker(trace: seq<Event>, advances: seq<bool>, b: Block)
    requires |trace| == |advances|
    ensures Workers(Replay(trace, advances), b) == if b in Replay(trace, advances).leased then 1 else 0
  {
    if trace != [] {
      var n := |trace| - 1;
      AtMostOneWorker(trace[..n], advances[..n], b);
    }
  }

  lemma {:induction false} LeasesLast(trace: seq<Event>, advances: seq<bool>, k: nat)
    requires |trace| == |advances| && k <= |trace|
    ensures Replay(trace[..k], advances[..k]).leased <= Replay(trace, advances).leased
    decreases |trace|
  {
    var n := |trace| - 1;
    if k == |trace| {
      assert trace[..k] == trace && advances[..k] == advances;
    } else {
      LeasesLast(trace[..n], advances[..n], k);
      assert trace[..n][..k] == trace[..k] && advances[..n][..k] == advances[..k];
    }
  }

  /** A block the driver engaged with (as it does with all three on a passing run) has exactly one
      worker, whether the driver or a tick launched it. */
  lemma EngagedMeansOneWorker(trace: seq<Event>, advances: seq<bool>, b: Block)
    requires |trace| == |advances| && ProbesHonest(trace, advances) && Engaged(Sum(trace), b)
    ensures Workers(Replay(trace, advances), b) == 1
  {
    AtMostOneWorker(trace, advances, b);
    SumIsWhatHappened(trace, b);
    if Probed(b, true) in trace {
      var k :| 0 <= k < |trace| && trace[k] == Probed(b, true);
      LeasesLast(trace, advances, k);
    } else {
      var k :| 0 <= k < |trace| && trace[k] == Invoked(b);
      LeasesLast(trace, advances, k + 1);
      assert trace[..k + 1][..k] == trace[..k] && advances[..k + 1][..k] == advances[..k];
    }
  }

  /** With complete probes no invocation of a justified run is ever refused by the lease. */
  lemma InvocationsFindTheLeaseFree(env: Env, trace: seq<Event>, advances: seq<bool>, k: nat, b: Block)
    requires |trace| == |advances| && SafeTrace(env, trace) && ProbesComplete(trace, advances)
    requires k < |trace| && trace[k] == Invoked(b)
    ensures b !in Replay(trace[..k], advances[..k]).leased
  {
    assert Justified(env, trace[..k], trace[k]);
    assert trace[k - 1] == Probed(b, false);
    var t, a := trace[..k], advances[..k];
    assert t[..k - 1] == trace[..k - 1] && a[..k - 1] == advances[..k - 1];
  }

  // ---------- a run that needs the lease ----------

  /** One failed probe is enough. In any environment in which the chain gets to S2, its first tick launches S2
      itself and the probe comes back red, the run gives S2 a second worker: only the lease keeps it away. */
  lemma FailedProbeNeedsTheLease(env: Env, advances: seq<bool>)
    requires Started(env) && env.s2.probe.None?
    requires |advances| == |TraceOf(env)| && advances != [] && advances[0]
    ensures Spawned(TraceOf(env), advances, S2) > 1 && Workers(Replay(TraceOf(env), advances), S2) == 1
  {
    var trace := TraceOf(env);
    RedProbeTrace(env);
    TwoLaunches(trace, advances);
    SpawnedGrows(trace, advances, S2, 4);
    AtMostOneWorker(trace, advances, S2);
    LeasesLast(trace, advances, 4);
  }

  /** Such a run begins with the greenlight, the probe and the invocation. */
  lemma RedProbeTrace(env: Env)
    requires Started(env) && env.s2.probe.None?
    ensures [Ticked(S1), Committed(S1), Probed(S2, false), Invoked(S2)] <= TraceOf(env)
  {
    var turn := TurnTrace(env, S2);
    assert [Probed(S2, false), Invoked(S2)] <= turn <= LegTrace(env, S2, CanaryVerified) <= LegsTrace(env);
    assert TraceOf(env) == [Ticked(S1), Committed(S1)] + LegsTrace(env);
  }

  lemma TwoLaunches(trace: seq<Event>, advances: seq<bool>)
    requires |trace| == |advances| && [Ticked(S1), Committed(S1), Probed(S2, false), Invoked(S2)] <= trace && advances[0]
    ensures Spawned(trace[..4], advances[..4], S2) == 2 && S2 in Replay(trace[..4], advances[..4]).leased
  {
    OneMore(trace, advances, 0);
    OneMore(trace, advances, 1);
    OneMore(trace, advances, 2);
    OneMore(trace, advances, 3);
    assert trace[..0] == [] && advances[..0] == [];
  }

  lemma OneMore(trace: seq<Event>, advances: seq<bool>, k: nat)
    requires |trace| == |advances| && k < |trace|
    ensures Spawned(trace[..k + 1], advances[..k + 1], S2)
         == Spawned(trace[..k], advances[..k], S2) + Launches(trace[k], advances[k], S2)
    ensures Replay(trace[..k + 1], advances[..k + 1]) == Act(Replay(trace[..k], advances[..k]), trace[k], advances[k])
  {
    assert trace[..k + 1][..k] == trace[..k] && advances[..k + 1][..k] == advances[..k];
  }
}
