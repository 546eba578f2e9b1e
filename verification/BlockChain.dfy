/** The block-chain driver of scripts/run_sandbox_proving.py. */
module BlockChain {
  import opened Text
  import opened Json

  datatype Block = S1 | S2 | S3 | S4

  function Verb(b: Block): string {
    match b case S1 => "submit-s1" case S2 => "submit-s2" case S3 => "submit-s3" case S4 => "submit-s4"
  }

  function Next(b: Block): Block {
    match b case S1 => S2 case S2 => S3 case _ => S4
  }

  function Prev(b: Block): (p: Block)
    requires b != S1
    ensures Next(p) == b && p != S4
  {
    match b case S2 => S1 case S3 => S2 case _ => S3
  }

  // ---------- the environment: one reply per call site ----------

  /** A CLI call: None when it is red (the runner raised a refusal), else the envelope's data. */
  type Reply = Option<Json>

  datatype File = Absent | Garbled | Parsed(value: Json)

  /** What the approve call answers, and the decision journal read after it. */
  datatype Approval = Approval(tick: Reply, journal: seq<Json>)

  /** What one detached block's probe, invocation and wait answer, its terminal record, and the
      spec parked for it. */
  datatype Detached = Detached(parked: File, probe: Reply, launch: Reply, wait: Reply, record: File)

  datatype Interview = Readable | Unreadable | Malformed

  datatype Env = Env(
    fixture: Option<bool>, interview: Interview, seeded: bool, runName: string,
    entryPoint: bool, dataAxis: bool, homogeneousAxes: bool,
    bare: Reply, walk: Reply, resolve: Reply, expectedRunId: Option<string>, sidecar: bool,
    approve1: Approval, s2: Detached, approve2: Approval, s3: Detached, approve3: Approval, s4: Detached)

  /** The approve call that commits a block's greenlight. */
  function ApprovalOf(env: Env, b: Block): Approval
    requires b != S4
  {
    match b case S1 => env.approve1 case S2 => env.approve2 case _ => env.approve3
  }

  function DetachedOf(env: Env, b: Block): Detached
    requires b != S1
  {
    match b case S2 => env.s2 case S3 => env.s3 case _ => env.s4
  }

  // ---------- mechanical checks ----------

  predicate NonEmptyStr(v: Json) {
    v.Str? && v.s != ""
  }

  /** `assert_block_envelope` finds no problem. */
  predicate BlockEnvelope(data: Json) {
    && data.Obj?
    && {"block", "stage_reached", "needs_decision", "reason", "run_id", "brief"} <= data.fields.Keys
    && NonEmptyStr(Get(data, "stage_reached"))
    && Get(data, "needs_decision").Bool?
    && Get(data, "brief").Obj?
    && (Get(data, "next_block").Null? || Get(data, "next_block").Obj?)
  }

  /** `assert_block_drive_envelope` and the bare fresh-start checks find no problem. */
  predicate ActionableSkip(data: Json) {
    && data.Obj?
    && {"action", "run_id", "workflow", "current_verb", "next_verb", "reason"} <= data.fields.Keys
    && Get(data, "action") == Str("skip")
    && Get(data, "next_verb") == Str("submit-s1")
    && Get(data, "reason").Str? && Contains(Get(data, "reason").s, "cannot fresh-start submit-s1")
  }

  predicate CleanWalk(env: Env, data: Json) {
    var provenance := Get(Get(data, "brief"), "provenance");
    && BlockEnvelope(data)
    && (env.entryPoint ==> Get(provenance, "entry_point") == Str("resolved_on_disk"))
    && (env.dataAxis ==> Get(provenance, "data_axis") == Str("resolved_on_disk"))
    && (env.homogeneousAxes ==> Get(provenance, "homogeneous_axes") == Str("resolved_on_disk"))
    && !Truthy(Get(Get(data, "brief"), "ambiguities"))
    && Get(data, "stage_reached") == Str("resolved")
    && Get(data, "needs_decision") == Bool(true)
  }

  predicate Hex(s: string) {
    forall k :: 0 <= k < |s| ==> '0' <= s[k] <= '9' || 'a' <= s[k] <= 'f'
  }

  /** The run id pattern; `$` also matches in front of one final line feed. */
  predicate Minted(id: string, name: string) {
    var n := |name| + 9;
    && |id| >= n && id[..|name| + 1] == name + "-" && Hex(id[|name| + 1..n])
    && (id[n..] == "" || id[n..] == "\n")
  }

  /** The run id of a resolve reply: its own, or else the resolve brief's. */
  function RunIdOf(data: Json): Json {
    var own := Get(data, "run_id");
    if Truthy(own) then own else Get(Get(Get(data, "brief"), "resolve"), "run_id")
  }

  predicate ResolvedRun(env: Env, data: Json) {
    && BlockEnvelope(data)
    && Get(data, "stage_reached") == Str("resolved")
    && RunIdOf(data).Str? && Minted(RunIdOf(data).s, env.runName) && RunIdOf(data).s != "placeholder-run"
    && (env.expectedRunId.Some? && env.expectedRunId.value != "" ==> env.expectedRunId.value == RunIdOf(data).s)
    && env.sidecar
    && Get(Get(Get(data, "brief"), "resolve"), "submit_spec").Obj?
  }

  /** `compose_s2_spec` finds a spec to reuse. */
  predicate S2Composable(brief: Json) {
    var spec := Get(Get(brief, "resolve"), "submit_spec");
    spec.Obj? && spec.fields != map[]
  }

  /** A greenlight for `b` naming its successor. */
  predicate IsGreenlight(record: Json, b: Block) {
    && Get(record, "response") == Str("y")
    && Get(record, "block") == Str(Verb(b))
    && Get(Get(record, "resolved"), "next_block") == Str(Verb(Next(b)))
  }

  predicate Greenlit(journal: seq<Json>, b: Block) {
    exists k :: 0 <= k < |journal| && IsGreenlight(journal[k], b)
  }

  /** `find_greenlight`: the newest one. */
  method FindGreenlight(journal: seq<Json>, b: Block) returns (r: Option<Json>)
    ensures r.Some? <==> Greenlit(journal, b)
    ensures r.Some? ==> exists k :: 0 <= k < |journal| && r.value == journal[k] && IsGreenlight(journal[k], b)
                                    && forall j :: k < j < |journal| ==> !IsGreenlight(journal[j], b)
  {
    var n := |journal|;
    while n > 0
      invariant 0 <= n <= |journal|
      invariant forall j :: n <= j < |journal| ==> !IsGreenlight(journal[j], b)
    {
      n := n - 1;
      if IsGreenlight(journal[n], b) {
        return Some(journal[n]);
      }
    }
    return None;
  }

  /** What the probe reports: no worker (or nothing at all), a worker, or one that died unrecorded. */
  datatype Sighting = Vacant | Live | Lost

  function Sight(probe: Reply): Sighting {
    if probe.None? then Vacant
    else
      var state := Get(probe.value, "state");
      if state == Str("running") || state == Str("exited_recorded") then Live
      else if state == Str("exited_unrecorded") then Lost
      else Vacant
  }

  predicate WorkerPresent(d: Detached) {
    !Sight(d.probe).Vacant?
  }

  predicate LaunchedFine(d: Detached) {
    match Sight(d.probe)
    case Live => true
    case Lost => false
    case Vacant => Starts(d.launch)
  }

  predicate Starts(launch: Reply) {
    launch.Some? && Detaches(launch.value)
  }

  predicate Detaches(data: Json) {
    BlockEnvelope(data) && Get(data, "stage_reached") == Str("detached")
  }

  predicate TerminalFound(d: Detached) {
    && d.wait.Some? && Get(d.wait.value, "outcome") != Str("timeout")
    && d.record.Parsed? && Get(d.record.value, "result").Obj?
  }

  function Terminal(d: Detached): Json
    requires d.record.Parsed?
  {
    Get(d.record.value, "result")
  }

  /** A parked spec the driver can pass on: an object, or (by the containment test it applies
      first) a text or list that mentions "detach". */
  predicate Usable(parked: File) {
    match parked
    case Absent => true
    case Garbled => false
    case Parsed(Obj(_)) => true
    case Parsed(Str(s)) => Contains(s, "detach")
    case Parsed(Arr(items)) => Str("detach") in items
    case Parsed(_) => false
  }

  predicate CanaryVerified(result: Json) {
    Get(result, "stage_reached") == Str("canary_verified") && Get(Get(result, "brief"), "verified") == Bool(true)
  }

  predicate WatchedToEnd(result: Json) {
    && Get(result, "stage_reached") == Str("watching_terminal")
    && Get(Get(result, "brief"), "lifecycle_state") in {Str("complete"), Null}
  }

  predicate Harvested(result: Json) {
    && Get(result, "stage_reached") in {Str("harvested"), Str("harvest_partial")}
    && Truthy(Get(Get(result, "brief"), "results_table"))
  }

  // ---------- what a run depends on ----------

  function S1Brief(env: Env): Json
    requires env.resolve.Some?
  {
    Get(env.resolve.value, "brief")
  }

  predicate Prepared(env: Env) {
    && (env.fixture.Some? ==> env.fixture.value) && env.interview.Readable? && env.seeded
    && env.bare.Some? && ActionableSkip(env.bare.value)
    && env.walk.Some? && CleanWalk(env, env.walk.value)
    && env.resolve.Some? && ResolvedRun(env, env.resolve.value)
  }

  predicate Approved(a: Approval, b: Block) {
    a.tick.Some? && Greenlit(a.journal, b)
  }

  predicate Started(env: Env) {
    && Prepared(env) && BuildS1Greenlight(S1Brief(env)).Ok?
    && Approved(env.approve1, S1) && S2Composable(S1Brief(env))
  }

  /** A refusal escapes: for want of a resolved block, or, with the first greenlight in the journal already,
      for want of a submit spec. */
  predicate RefusedOn(env: Env) {
    && Prepared(env)
    && (BuildS1Greenlight(S1Brief(env)).Err? || (Approved(env.approve1, S1) && !S2Composable(S1Brief(env))))
  }

  predicate Ended(d: Detached) {
    LaunchedFine(d) && TerminalFound(d)
  }

  /** The block's worker ended at a good terminal, its greenlight was found in the journal, and the
      next block's spec can be passed on. */
  predicate LegDone(env: Env, b: Block, good: Json -> bool)
    requires b in {S2, S3}
  {
    && Ended(DetachedOf(env, b)) && good(Terminal(DetachedOf(env, b)))
    && Approved(ApprovalOf(env, b), b) && Usable(DetachedOf(env, Next(b)).parked)
  }

  /** Everything a passing run has shown, from the first tick to the harvested table. */
  predicate Complete(env: Env) {
    && Started(env)
    && LegDone(env, S2, CanaryVerified)
    && LegDone(env, S3, WatchedToEnd)
    && Ended(env.s4) && Harvested(Terminal(env.s4))
  }

  // ---------- evidence ----------

  datatype Row = Row(step: string, passed: bool)

  /** What the driver does to the outside world, in order. */
  datatype Event =
    | Ticked(block: Block)             // the approve call for the block's greenlight
    | Committed(block: Block)          // its greenlight was read back from the journal
    | Probed(block: Block, present: bool)
    | Invoked(block: Block)
    | Awaited(block: Block)

  /** How a step leaves the chain: on to the next, stopped at a failing row, a refusal that escapes,
      or an exception nothing catches. */
  datatype Flow = Go | Stop | Refused | Crashed

  /** `build_evidence`: the verdict over the rows. */
  predicate Verdict(rows: seq<Row>) {
    forall k :: 0 <= k < |rows| ==> rows[k].passed
  }

  ghost predicate OnlyLastFails(rows: seq<Row>, failedStep: Option<string>) {
    && (forall k :: 0 <= k < |rows| - 1 ==> rows[k].passed)
    && failedStep == if rows != [] && !rows[|rows| - 1].passed then Some(rows[|rows| - 1].step) else None
  }

  ghost predicate AllPass(rows: seq<Row>) {
    forall k :: 0 <= k < |rows| ==> rows[k].passed
  }

  // ---------- the trace of a run ----------

  /** Commit a block's greenlight. */
  function GreenTrace(env: Env, b: Block): seq<Event>
    requires b != S4
  {
    [Ticked(b)] + if Approved(ApprovalOf(env, b), b) then [Committed(b)] else []
  }

  /** Look for a worker, invoke if there is none, and wait if there is one now. */
  function TurnTrace(env: Env, b: Block): seq<Event>
    requires b != S1
  {
    var d := DetachedOf(env, b);
    [Probed(b, WorkerPresent(d))] + (if WorkerPresent(d) then [] else [Invoked(b)])
    + if LaunchedFine(d) then [Awaited(b)] else []
  }

  function LegTrace(env: Env, b: Block, good: Json -> bool): seq<Event>
    requires b in {S2, S3}
  {
    TurnTrace(env, b)
    + if Ended(DetachedOf(env, b)) && good(Terminal(DetachedOf(env, b))) then GreenTrace(env, b) else []
  }

  function LastLegsTrace(env: Env): seq<Event> {
    LegTrace(env, S3, WatchedToEnd) + if LegDone(env, S3, WatchedToEnd) then TurnTrace(env, S4) else []
  }

  function LegsTrace(env: Env): seq<Event> {
    LegTrace(env, S2, CanaryVerified) + if LegDone(env, S2, CanaryVerified) then LastLegsTrace(env) else []
  }

  function StartTrace(env: Env): seq<Event> {
    if Prepared(env) && BuildS1Greenlight(S1Brief(env)).Ok? then GreenTrace(env, S1) else []
  }

  /** What the driver does outside in a given environment. */
  function TraceOf(env: Env): seq<Event> {
    StartTrace(env) + if Started(env) then LegsTrace(env) else []
  }

  /** The blocks of a trace's events, kind by kind; `seen` are those a probe reported a worker of. */
  datatype Done = Done(ticked: set<Block>, committed: set<Block>, seen: set<Block>, invoked: set<Block>, awaited: set<Block>)

  const NOTHING: Done := Done({}, {}, {}, {}, {})

  function Note(d: Done, e: Event): Done {
    match e
    case Ticked(b) => d.(ticked := d.ticked + {b})
    case Committed(b) => d.(committed := d.committed + {b})
    case Probed(b, present) => if present then d.(seen := d.seen + {b}) else d
    case Invoked(b) => d.(invoked := d.invoked + {b})
    case Awaited(b) => d.(awaited := d.awaited + {b})
  }

  function Sum(trace: seq<Event>): Done {
    if trace == [] then NOTHING else Note(Sum(trace[..|trace| - 1]), trace[|trace| - 1])
  }

  lemma SumOneMore(trace: seq<Event>, e: Event)
    ensures Sum(trace + [e]) == Note(Sum(trace), e)
  {
    assert (trace + [e])[..|trace|] == trace;
  }

  /** The sets are those of the events. */
  lemma {:induction false} SumIsWhatHappened(trace: seq<Event>, b: Block)
    ensures b in Sum(trace).ticked <==> Ticked(b) in trace
    ensures b in Sum(trace).committed <==> Committed(b) in trace
    ensures b in Sum(trace).seen <==> Probed(b, true) in trace
    ensures b in Sum(trace).invoked <==> Invoked(b) in trace
    ensures b in Sum(trace).awaited <==> Awaited(b) in trace
  {
    if trace != [] {
      var n := |trace| - 1;
      SumIsWhatHappened(trace[..n], b);
      forall e: Event ensures e in trace <==> e in trace[..n] || e == trace[n] {
        assert trace == trace[..n] + [trace[n]];
      }
    }
  }

  /** The greenlight that names `b` as its next block was read back from the journal. */
  predicate Cleared(b: Block, d: Done) {
    b != S1 && Prev(b) in d.committed
  }

  /** The driver invoked the block or saw a worker of it. */
  predicate Engaged(d: Done, b: Block) {
    b in d.invoked || b in d.seen
  }

  function Rank(b: Block): nat {
    match b case S1 => 0 case S2 => 1 case S3 => 2 case S4 => 3
  }

  ghost predicate Below(blocks: set<Block>, n: nat) {
    forall b :: b in blocks ==> Rank(b) < n
  }

  /** All detached blocks below rank `n` are engaged. */
  ghost predicate EngagedBelow(d: Done, n: nat) {
    forall b :: 1 <= Rank(b) < n ==> Engaged(d, b)
  }

  /** It is the block's turn: cleared, all before it engaged, itself untouched. */
  ghost predicate Ready(d: Done, b: Block) {
    && Cleared(b, d) && EngagedBelow(d, Rank(b))
    && Below(d.ticked, Rank(b)) && Below(d.invoked, Rank(b)) && Below(d.awaited, Rank(b))
  }

  /** The block has a worker as far as the driver knows, and is not awaited yet. */
  ghost predicate Launched(d: Done, b: Block) {
    && Cleared(b, d) && EngagedBelow(d, Rank(b) + 1)
    && Below(d.ticked, Rank(b)) && Below(d.invoked, Rank(b) + 1) && Below(d.awaited, Rank(b))
  }

  /** The block's turn is over but for its greenlight. */
  ghost predicate Finished(d: Done, b: Block) {
    && b != S1 && EngagedBelow(d, Rank(b) + 1)
    && Below(d.ticked, Rank(b)) && Below(d.invoked, Rank(b) + 1) && Below(d.awaited, Rank(b) + 1)
  }

  lemma TurnStarts(d: Done, b: Block, e: Event)
    requires Ready(d, b) && e in {Probed(b, true), Invoked(b)}
    ensures Launched(Note(d, e), b)
  {
  }

  lemma TurnEnds(d: Done, b: Block)
    requires Launched(d, b)
    ensures Finished(Note(d, Awaited(b)), b)
  {
  }

  lemma TurnPasses(d: Done, b: Block)
    requires Finished(d, b) && b != S4
    ensures Ready(Note(Note(d, Ticked(b)), Committed(b)), Next(b))
  {
  }

  /** An event is justified by what came before it and by what the environment answered: a greenlight
      counts as committed only if the journal holds it, a probe says what the reply says, a block is
      invoked once, when cleared and right after a probe that saw no worker, and its greenlight's tick
      comes once and before that. */
  ghost predicate Justified(env: Env, before: seq<Event>, e: Event) {
    var d := Sum(before);
    match e
    case Ticked(b) => b != S4 && b !in d.ticked && Next(b) !in d.invoked
    case Committed(b) => b != S4 && b in d.ticked && Approved(ApprovalOf(env, b), b)
    case Probed(b, present) => b != S1 && present == WorkerPresent(DetachedOf(env, b))
    case Invoked(b) => before != [] && before[|before| - 1] == Probed(b, false) && b !in d.invoked && Cleared(b, d)
    case Awaited(b) => b !in d.awaited && Cleared(b, d)
  }

  ghost predicate SafeTrace(env: Env, trace: seq<Event>) {
    forall k :: 0 <= k < |trace| ==> Justified(env, trace[..k], trace[k])
  }

  lemma Extend(env: Env, trace: seq<Event>, e: Event)
    requires SafeTrace(env, trace) && Justified(env, trace, e)
    ensures SafeTrace(env, trace + [e])
  {
    var longer := trace + [e];
    forall k | 0 <= k < |longer| ensures Justified(env, longer[..k], longer[k]) {
      if k < |trace| {
        assert longer[..k] == trace[..k];
      } else {
        assert longer[..k] == trace;
      }
    }
  }

  /** A block was invoked or awaited only with the greenlight before it in the journal, and invoked
      only if the environment's probe reported no worker. */
  ghost predicate OnlyCleared(env: Env, trace: seq<Event>) {
    && (forall b :: Invoked(b) in trace || Awaited(b) in trace ==> b != S1 && Approved(ApprovalOf(env, Prev(b)), Prev(b)))
    && (forall b :: Invoked(b) in trace ==> b != S1 && !WorkerPresent(DetachedOf(env, b)))
  }

  lemma CommittedMeans(env: Env, trace: seq<Event>, b: Block)
    requires SafeTrace(env, trace) && Committed(b) in trace
    ensures b != S4 && Approved(ApprovalOf(env, b), b)
  {
    var k :| 0 <= k < |trace| && trace[k] == Committed(b);
    assert Justified(env, trace[..k], trace[k]);
  }

  lemma ClearedMeans(env: Env, trace: seq<Event>, b: Block)
    requires SafeTrace(env, trace) && (Invoked(b) in trace || Awaited(b) in trace)
    ensures b != S1 && Approved(ApprovalOf(env, Prev(b)), Prev(b))
  {
    var k :| 0 <= k < |trace| && (trace[k] == Invoked(b) || trace[k] == Awaited(b));
    assert Justified(env, trace[..k], trace[k]);
    SumIsWhatHappened(trace[..k], Prev(b));
    var j :| 0 <= j < k && trace[..k][j] == Committed(Prev(b));
    assert trace[j] in trace;
    CommittedMeans(env, trace, Prev(b));
  }

  lemma InvokedMeans(env: Env, trace: seq<Event>, b: Block)
    requires SafeTrace(env, trace) && Invoked(b) in trace
    ensures b != S1 && !WorkerPresent(DetachedOf(env, b))
  {
    var k :| 0 <= k < |trace| && trace[k] == Invoked(b);
    assert Justified(env, trace[..k], trace[k]);
    assert trace[k - 1] == Probed(b, false);
    assert Justified(env, trace[..k - 1], trace[k - 1]);
  }

  /** What a safe trace says about the world: the journal and the probes, not the driver's word. */
  lemma SafeMeansCleared(env: Env, trace: seq<Event>)
    requires SafeTrace(env, trace)
    ensures OnlyCleared(env, trace)
  {
    forall b | Invoked(b) in trace || Awaited(b) in trace
      ensures b != S1 && Approved(ApprovalOf(env, Prev(b)), Prev(b))
      ensures Invoked(b) in trace ==> !WorkerPresent(DetachedOf(env, b))
    {
      ClearedMeans(env, trace, b);
      if Invoked(b) in trace {
        InvokedMeans(env, trace, b);
      }
    }
  }

  /** `ChainState` in its environment, with the driver's outward actions recorded beside the rows. */
  class ChainState {
    const env: Env
    var rows: seq<Row>
    var failedStep: Option<string>
    ghost var trace: seq<Event>

    constructor (env: Env)
      ensures this.env == env && rows == [] && failedStep == None && trace == []
    {
      this.env, rows, failedStep, trace := env, [], None, [];
    }

    ghost predicate Valid()
      reads this
    {
      OnlyLastFails(rows, failedStep) && SafeTrace(env, trace)
    }

    /** No row has failed: the chain is still running. */
    ghost predicate Running()
      reads this
    {
      Valid() && AllPass(rows)
    }

    /** `record`: the first failing row names the failed step. */
    method Record(step: string, passed: bool)
      modifies this`rows, this`failedStep
      ensures rows == old(rows) + [Row(step, passed)]
      ensures failedStep == if !passed && old(failedStep).None? then Some(step) else old(failedStep)
      ensures old(Running()) ==> Valid() && (passed <==> AllPass(rows))
    {
      rows := rows + [Row(step, passed)];
      if !passed && failedStep.None? {
        failedStep := Some(step);
      }
      assert rows[|rows| - 1].passed == passed;
    }

    ghost method Log(e: Event)
      requires SafeTrace(env, trace) && Justified(env, trace, e)
      modifies this`trace
      ensures trace == old(trace) + [e] && SafeTrace(env, trace)
      ensures Sum(trace) == Note(Sum(old(trace)), e)
    {
      Extend(env, trace, e);
      SumOneMore(trace, e);
      trace := trace + [e];
    }

    /** `_commit_greenlight` */
    method CommitGreenlight(step: string, b: Block) returns (flow: Flow)
      requires Running() && Justified(env, trace, Ticked(b))
      modifies this
      ensures Valid()
      ensures flow == if Approved(ApprovalOf(env, b), b) then Go else Stop
      ensures flow.Go? <==> AllPass(rows)
      ensures trace == old(trace) + GreenTrace(env, b)
      ensures Sum(trace) == if flow.Go? then Note(Note(Sum(old(trace)), Ticked(b)), Committed(b)) else Note(Sum(old(trace)), Ticked(b))
    {
      var a := ApprovalOf(env, b);
      Log(Ticked(b));
      if a.tick.None? {
        Record(step, false);
        return Stop;
      }
      var committed := FindGreenlight(a.journal, b);
      Record(step, committed.Some?);
      if committed.None? {
        return Stop;
      }
      Log(Committed(b));
      return Go;
    }

    /** `poll_detached_state` */
    method PollDetachedState(b: Block) returns (snap: Sighting)
      requires Running() && b !in Sum(trace).invoked && Cleared(b, Sum(trace))
      modifies this`trace
      ensures Running() && snap == Sight(DetachedOf(env, b).probe)
      ensures trace == old(trace) + [Probed(b, !snap.Vacant?)]
      ensures snap.Vacant? ==> Justified(env, trace, Invoked(b))
      ensures Sum(trace) == Note(Sum(old(trace)), Probed(b, !snap.Vacant?))
    {
      snap := Sight(DetachedOf(env, b).probe);
      Log(Probed(b, !snap.Vacant?));
    }

    method InvokeDetached(step: string, b: Block) returns (flow: Flow)
      requires Running() && Justified(env, trace, Invoked(b))
      modifies this
      ensures Valid()
      ensures flow == if Starts(DetachedOf(env, b).launch) then Go else Stop
      ensures flow.Go? <==> AllPass(rows)
      ensures trace == old(trace) + [Invoked(b)]
      ensures Sum(trace) == Note(Sum(old(trace)), Invoked(b))
    {
      Log(Invoked(b));
      var detached := Starts(DetachedOf(env, b).launch);
      Record(step, detached);
      return if detached then Go else Stop;
    }

    /** `_launch_block_detached`: look for a worker first, invoke only when none is reported. */
    method LaunchBlockDetached(step: string, b: Block) returns (flow: Flow)
      requires Running() && b !in Sum(trace).invoked && Cleared(b, Sum(trace))
      modifies this
      ensures Valid()
      ensures flow == if LaunchedFine(DetachedOf(env, b)) then Go else Stop
      ensures flow.Go? <==> AllPass(rows)
      ensures var present := WorkerPresent(DetachedOf(env, b));
              && trace == old(trace) + [Probed(b, present)] + (if present then [] else [Invoked(b)])
              && Sum(trace) == Note(Sum(old(trace)), if present then Probed(b, true) else Invoked(b))
    {
      var snap := PollDetachedState(b);
      if snap.Vacant? {
        flow := InvokeDetached(step, b);
      } else {
        Record(step, snap.Live?);
        flow := if snap.Live? then Go else Stop;
      }
    }

    /** `wait_for_detached_terminal` */
    method WaitForDetachedTerminal(step: string, b: Block) returns (flow: Flow)
      requires Running()
      requires b !in Sum(trace).awaited && Cleared(b, Sum(trace))
      modifies this
      ensures flow.Go? <==> TerminalFound(DetachedOf(env, b))
      ensures flow in {Go, Stop, Crashed} && Valid()
      ensures flow.Stop? ==> !AllPass(rows)
      ensures flow.Go? ==> AllPass(rows)
      ensures trace == old(trace) + [Awaited(b)]
      ensures Sum(trace) == Note(Sum(old(trace)), Awaited(b))
    {
      var d := DetachedOf(env, b);
      Log(Awaited(b));
      if d.wait.None? || Get(d.wait.value, "outcome") == Str("timeout") || d.record.Absent? {
        Record(step, false);
        return Stop;
      }
      if d.record.Garbled? {
        return Crashed;
      }
      var result := Get(d.record.value, "result");
      Record(step, result.Obj?);
      return if result.Obj? then Go else Stop;
    }

    // ---------- the chain itself ----------

    /** Fixture, interview, utterance, bare tick, walk and resolve: everything before the first greenlight. */
    method Prepare() returns (flow: Flow)
      requires Running() && trace == []
      modifies this`rows, this`failedStep
      ensures Valid() && flow in {Go, Stop, Crashed}
      ensures flow.Go? <==> Prepared(env)
      ensures flow.Go? ==> AllPass(rows) && rows != []
      ensures flow.Stop? ==> !AllPass(rows)
    {
      if env.fixture.Some? {
        Record("fixture", env.fixture.value);
        if !env.fixture.value { return Stop; }
      }
      if env.interview.Malformed? { return Crashed; }
      Record("interview", env.interview.Readable?);
      if !env.interview.Readable? { return Stop; }
      Record("seed", env.seeded);
      if !env.seeded { return Stop; }
      var ok := env.bare.Some? && ActionableSkip(env.bare.value);
      Record("s1.block-drive-bare", ok);
      if !ok { return Stop; }
      ok := env.walk.Some? && CleanWalk(env, env.walk.value);
      Record("s1.walk", ok);
      if !ok { return Stop; }
      ok := env.resolve.Some? && ResolvedRun(env, env.resolve.value);
      Record("s1.resolve", ok);
      return if ok then Go else Stop;
    }

    /** The S1 greenlight: built from the brief, self-checked, committed. */
    method GreenlightS1() returns (flow: Flow)
      requires Running() && env.resolve.Some? && trace == []
      modifies this
      ensures Valid() && flow in {Go, Stop, Refused}
      ensures flow.Go? <==> BuildS1Greenlight(S1Brief(env)).Ok? && Approved(env.approve1, S1)
      ensures flow.Refused? <==> BuildS1Greenlight(S1Brief(env)).Err?
      ensures flow.Go? ==> AllPass(rows) && Ready(Sum(trace), S2)
      ensures flow.Stop? ==> !AllPass(rows)
      ensures trace == if flow.Refused? then [] else GreenTrace(env, S1)
    {
      var brief := S1Brief(env);
      var resolved := BuildS1Greenlight(brief);
      if resolved.Err? { return Refused; }
      var problems := ProvenanceShapeProblems(resolved.value, brief);
      forall k ensures k !in problems {
        if k in resolved.value && k != NEXT_BLOCK { GreenlightIsBriefShaped(brief, k); }
      }
      Record("s1.greenlight", problems == {});
      if problems != {} { return Stop; }
      flow := CommitGreenlight("s1.greenlight", S1);
    }

    /** The chain up to the composed S2 spec. */
    method Start() returns (flow: Flow)
      requires Running() && trace == []
      modifies this
      ensures Valid()
      ensures flow.Go? <==> Started(env)
      ensures flow.Go? ==> AllPass(rows) && Ready(Sum(trace), S2)
      ensures flow.Stop? ==> !AllPass(rows)
      ensures flow.Refused? <==> RefusedOn(env)
      ensures trace == StartTrace(env)
    {
      flow := Prepare();
      if !flow.Go? { return; }
      flow := GreenlightS1();
      if !flow.Go? { return; }
      return if S2Composable(S1Brief(env)) then Go else Refused;
    }

    /** The second half of a block's turn. */
    method JudgeTerminal(step: string, b: Block, good: Json -> bool) returns (flow: Flow)
      requires Running() && Launched(Sum(trace), b)
      modifies this
      ensures Valid() && flow in {Go, Stop, Crashed}
      ensures flow.Go? <==> TerminalFound(DetachedOf(env, b)) && good(Terminal(DetachedOf(env, b)))
      ensures flow.Go? ==> AllPass(rows) && Finished(Sum(trace), b)
      ensures flow.Stop? ==> !AllPass(rows)
      ensures trace == old(trace) + [Awaited(b)]
    {
      TurnEnds(Sum(trace), b);
      flow := WaitForDetachedTerminal(step, b);
      if !flow.Go? { return; }
      var ok := good(Terminal(DetachedOf(env, b)));
      Record(step, ok);
      return if ok then Go else Stop;
    }

    /** Launch a block, wait for its terminal and judge it. */
    method RunBlock(launchStep: string, endStep: string, b: Block, good: Json -> bool) returns (flow: Flow)
      requires Running() && Ready(Sum(trace), b)
      modifies this
      ensures Valid() && flow in {Go, Stop, Crashed}
      ensures flow.Go? <==> Ended(DetachedOf(env, b)) && good(Terminal(DetachedOf(env, b)))
      ensures flow.Go? ==> AllPass(rows)
      ensures flow.Stop? ==> !AllPass(rows)
      ensures flow.Go? ==> Finished(Sum(trace), b)
      ensures trace == old(trace) + TurnTrace(env, b)
    {
      TurnStarts(Sum(trace), b, if WorkerPresent(DetachedOf(env, b)) then Probed(b, true) else Invoked(b));
      flow := LaunchBlockDetached(launchStep, b);
      if flow.Go? {
        flow := JudgeTerminal(endStep, b, good);
      }
    }

    /** The source row in front of S3 and S4: which spec goes in. */
    method PickSpec(step: string, parked: File) returns (flow: Flow)
      requires Running()
      modifies this`rows, this`failedStep
      ensures Valid() && AllPass(rows)
      ensures flow == if Usable(parked) then Go else Crashed
    {
      if !Usable(parked) { return Crashed; }
      Record(step, true);
      return Go;
    }

    /** Commit a block's greenlight and pick the spec of the block it clears. */
    method Resume(b: Block) returns (flow: Flow)
      requires Running() && Finished(Sum(trace), b) && b in {S2, S3}
      modifies this
      ensures Valid() && flow in {Go, Stop, Crashed}
      ensures flow.Go? <==> Approved(ApprovalOf(env, b), b) && Usable(DetachedOf(env, Next(b)).parked)
      ensures flow.Go? ==> AllPass(rows) && Ready(Sum(trace), Next(b))
      ensures flow.Stop? ==> !AllPass(rows)
      ensures trace == old(trace) + GreenTrace(env, b)
    {
      TurnPasses(Sum(trace), b);
      flow := CommitGreenlight(if b == S2 then "s2.greenlight" else "s3.greenlight", b);
      if flow.Go? {
        flow := PickSpec(if b == S2 then "s3.spec" else "s4.spec", DetachedOf(env, Next(b)).parked);
      }
    }

    /** One leg of the chain: the block, its greenlight, and the next block's spec. */
    method Leg(launchStep: string, endStep: string, b: Block, good: Json -> bool) returns (flow: Flow)
      requires Running() && Ready(Sum(trace), b) && b in {S2, S3}
      modifies this
      ensures Valid() && flow in {Go, Stop, Crashed}
      ensures flow.Go? <==> LegDone(env, b, good)
      ensures flow.Go? ==> AllPass(rows)
      ensures flow.Stop? ==> !AllPass(rows)
      ensures flow.Go? ==> Ready(Sum(trace), Next(b))
      ensures trace == old(trace) + LegTrace(env, b, good)
    {
      flow := RunBlock(launchStep, endStep, b, good);
      if flow.Go? {
        flow := Resume(b);
      }
    }

    method LastLegs() returns (flow: Flow)
      requires Running() && Ready(Sum(trace), S3)
      modifies this
      ensures Valid() && flow in {Go, Stop, Crashed}
      ensures flow.Go? <==> LegDone(env, S3, WatchedToEnd) && Ended(env.s4) && Harvested(Terminal(env.s4))
      ensures flow.Go? ==> AllPass(rows) && forall b :: b != S1 ==> Engaged(Sum(trace), b)
      ensures flow.Stop? ==> !AllPass(rows)
      ensures trace == old(trace) + LastLegsTrace(env)
    {
      ghost var t := trace;
      flow := Leg("s3.submit", "s3.watch", S3, WatchedToEnd);
      if flow.Go? {
        flow := RunBlock("s4.harvest", "s4.table", S4, Harvested);
        Associate(t, LegTrace(env, S3, WatchedToEnd), TurnTrace(env, S4));
      }
    }

    method Legs() returns (flow: Flow)
      requires Running() && Ready(Sum(trace), S2)
      modifies this
      ensures Valid() && flow in {Go, Stop, Crashed}
      ensures flow.Go? <==> LegDone(env, S2, CanaryVerified) && LegDone(env, S3, WatchedToEnd)
                            && Ended(env.s4) && Harvested(Terminal(env.s4))
      ensures flow.Go? ==> AllPass(rows) && forall b :: b != S1 ==> Engaged(Sum(trace), b)
      ensures flow.Stop? ==> !AllPass(rows)
      ensures trace == old(trace) + LegsTrace(env)
    {
      ghost var t := trace;
      flow := Leg("s2.stage", "s2.canary", S2, CanaryVerified);
      if flow.Go? {
        flow := LastLegs();
        Associate(t, LegTrace(env, S2, CanaryVerified), LastLegsTrace(env));
      }
    }

    /** `run_chain`: it reaches its end exactly when every check of the chain holds, and however it
        leaves, it has invoked and awaited only blocks whose greenlight is in the journal. */
    method RunChain() returns (flow: Flow)
      requires Running() && rows == [] && trace == []
      modifies this
      ensures Valid() && OnlyCleared(env, trace)
      ensures flow.Go? <==> Complete(env)
      ensures flow.Go? ==> AllPass(rows) && forall b :: b != S1 ==> Engaged(Sum(trace), b)
      ensures flow.Stop? ==> !AllPass(rows)
      ensures flow.Refused? <==> RefusedOn(env)
      ensures trace == TraceOf(env)
    {
      flow := Start();
      if flow.Go? {
        flow := Legs();
      }
      SafeMeansCleared(env, trace);
    }
  }

  /** `main` from the chain on: a refusal that escapes is recorded as a failed setup row; an
      exception nothing catches leaves no evidence. `trace` is what the driver did outside. */
  method Prove(env: Env) returns (verdict: Option<bool>, flow: Flow, ghost trace: seq<Event>)
    ensures verdict == Some(true) <==> Complete(env)
    ensures verdict.None? <==> flow.Crashed?
    ensures flow.Refused? || flow.Stop? ==> verdict == Some(false)
    ensures flow.Refused? <==> RefusedOn(env)
    ensures trace == TraceOf(env) && SafeTrace(env, trace) && OnlyCleared(env, trace)
    ensures verdict == Some(true) ==> forall b :: b != S1 ==> Engaged(Sum(trace), b)
  {
    var state := new ChainState(env);
    flow := state.RunChain();
    trace := state.trace;
    if flow.Crashed? {
      return None, flow, trace;
    }
    if flow.Refused? {
      state := new ChainState(env);
      state.Record("setup", false);
      assert !state.rows[0].passed;
      return Some(Verdict(state.rows)), flow, trace;
    }
    return Some(Verdict(state.rows)), flow, trace;
  }

  /** A refusal escapes before any tick, or with the first greenlight committed and nothing launched. */
  lemma RefusedTrace(env: Env)
    requires RefusedOn(env)
    ensures TraceOf(env) == if BuildS1Greenlight(S1Brief(env)).Err? then [] else [Ticked(S1), Committed(S1)]
  {
  }

  // ---------- what the probe decides ----------

  /** The chain gets as far as the block's turn. */
  predicate Reached(env: Env, b: Block) {
    && b != S1 && Started(env)
    && (b != S2 ==> LegDone(env, S2, CanaryVerified))
    && (b == S4 ==> LegDone(env, S3, WatchedToEnd))
  }

  predicate TurnEvent(e: Event, b: Block) {
    match e
    case Probed(x, _) => x == b
    case Invoked(x) => x == b
    case Awaited(x) => x == b
    case _ => false
  }

  lemma TurnEventOfLeg(env: Env, x: Block, good: Json -> bool, e: Event, b: Block)
    requires x in {S2, S3} && b != S1 && TurnEvent(e, b)
    ensures e in LegTrace(env, x, good) <==> x == b && e in TurnTrace(env, b)
  {
    assert e !in GreenTrace(env, x);
    assert e in TurnTrace(env, x) ==> x == b;
  }

  /** The run probes, invokes and awaits a block in the block's own turn, if it gets there. */
  lemma TurnEventOfRun(env: Env, e: Event, b: Block)
    requires TurnEvent(e, b)
    ensures e in TraceOf(env) <==> Reached(env, b) && e in TurnTrace(env, b)
  {
    assert e !in StartTrace(env);
    if b == S1 {
      TurnEventsAreOfTurns(env, e);
    } else {
      TurnEventOfLeg(env, S2, CanaryVerified, e, b);
      TurnEventOfLeg(env, S3, WatchedToEnd, e, b);
      assert e in TurnTrace(env, S4) ==> b == S4;
      assert e in LastLegsTrace(env) <==>
        e in LegTrace(env, S3, WatchedToEnd) || (LegDone(env, S3, WatchedToEnd) && e in TurnTrace(env, S4));
      assert e in LegsTrace(env) <==>
        e in LegTrace(env, S2, CanaryVerified) || (LegDone(env, S2, CanaryVerified) && e in LastLegsTrace(env));
    }
  }

  lemma TurnEventsAreOfTurns(env: Env, e: Event)
    requires TurnEvent(e, S1)
    ensures e !in TraceOf(env)
  {
    assert e !in GreenTrace(env, S1) && e !in GreenTrace(env, S2) && e !in GreenTrace(env, S3);
    assert e !in TurnTrace(env, S2) && e !in TurnTrace(env, S3) && e !in TurnTrace(env, S4);
    assert e !in LegTrace(env, S2, CanaryVerified) && e !in LegTrace(env, S3, WatchedToEnd);
    assert e !in LastLegsTrace(env) && e !in LegsTrace(env);
  }

  /** The state a probe answers; Null for a red probe or a reply without one. */
  function ProbedState(probe: Reply): Json {
    if probe.None? then Null else Get(probe.value, "state")
  }

  lemma SightMeans(probe: Reply)
    ensures var state := ProbedState(probe);
            && (Sight(probe).Live? <==> state in {Str("running"), Str("exited_recorded")})
            && (Sight(probe).Lost? <==> state == Str("exited_unrecorded"))
  {
    assert "running" != "exited_unrecorded" && "exited_recorded" != "exited_unrecorded";
  }

  lemma InTurn(env: Env, b: Block)
    requires b != S1
    ensures Invoked(b) in TurnTrace(env, b) <==> Sight(DetachedOf(env, b).probe).Vacant?
    ensures Awaited(b) in TurnTrace(env, b) <==> LaunchedFine(DetachedOf(env, b))
  {
  }

  /** What a block's turn does, by the state its probe answers: "running" and "exited_recorded" are awaited
      without an invocation, "exited_unrecorded" is neither invoked nor awaited, and on any other answer, or a
      red probe, the block is invoked, and awaited if the invocation detaches. */
  lemma ProbeDecides(env: Env, b: Block)
    requires Reached(env, b)
    ensures var state := ProbedState(DetachedOf(env, b).probe);
            && (Invoked(b) in TraceOf(env)
                <==> state !in {Str("running"), Str("exited_recorded"), Str("exited_unrecorded")})
            && (Awaited(b) in TraceOf(env)
                <==> state in {Str("running"), Str("exited_recorded")}
                     || (Invoked(b) in TraceOf(env) && Starts(DetachedOf(env, b).launch)))
  {
    TurnEventOfRun(env, Invoked(b), b);
    TurnEventOfRun(env, Awaited(b), b);
    InTurn(env, b);
    SightMeans(DetachedOf(env, b).probe);
  }

  /** A block is invoked only after a probe that was red or answered none of the worker states. */
  lemma NoInvocationBesideAWorker(env: Env, b: Block)
    requires Invoked(b) in TraceOf(env)
    ensures b != S1
    ensures var probe := DetachedOf(env, b).probe;
            probe.None? || Get(probe.value, "state") !in {Str("running"), Str("exited_recorded"), Str("exited_unrecorded")}
  {
    TurnEventOfRun(env, Invoked(b), b);
    ProbeDecides(env, b);
  }
}
