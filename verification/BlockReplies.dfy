/** What the checks of scripts/run_sandbox_proving.py accept, field by field, and what a pass means. */
module BlockReplies {
  import opened Text
  import opened Json
  import opened BlockChain

  /** A "y" for `block` whose resolution names `next`. */
  predicate Says(record: Json, block: string, next: string) {
    && Field(record, ["response"]) == Some(Str("y"))
    && Field(record, ["block"]) == Some(Str(block))
    && Field(record, ["resolved", "next_block"]) == Some(Str(next))
  }

  lemma GreenlightSays(record: Json, b: Block)
    requires b != S4
    ensures IsGreenlight(record, b)
       <==> match b
            case S1 => Says(record, "submit-s1", "submit-s2")
            case S2 => Says(record, "submit-s2", "submit-s3")
            case _ => Says(record, "submit-s3", "submit-s4")
  {
    GetIsField(record, "response");
    GetIsField(record, "block");
    GetGetIsField(record, "resolved", "next_block");
  }

  /** The tick was green and the journal holds such a record. */
  predicate CommittedYes(a: Approval, block: string, next: string) {
    a.tick.Some? && exists k :: 0 <= k < |a.journal| && Says(a.journal[k], block, next)
  }

  lemma ApprovedSays(a: Approval, b: Block)
    requires b != S4
    ensures Approved(a, b)
       <==> match b
            case S1 => CommittedYes(a, "submit-s1", "submit-s2")
            case S2 => CommittedYes(a, "submit-s2", "submit-s3")
            case _ => CommittedYes(a, "submit-s3", "submit-s4")
  {
    forall k | 0 <= k < |a.journal| { GreenlightSays(a.journal[k], b); }
  }

  /** The three good terminals. */
  lemma TerminalsSay(result: Json)
    ensures CanaryVerified(result)
       <==> Field(result, ["stage_reached"]) == Some(Str("canary_verified"))
            && Field(result, ["brief", "verified"]) == Some(Bool(true))
    ensures WatchedToEnd(result)
       <==> Field(result, ["stage_reached"]) == Some(Str("watching_terminal"))
            && Field(result, ["brief", "lifecycle_state"]) in {Some(Str("complete")), Some(Null), None}
    ensures Harvested(result)
       <==> Field(result, ["stage_reached"]) in {Some(Str("harvested")), Some(Str("harvest_partial"))}
            && Field(result, ["brief", "results_table"])
               !in {None, Some(Null), Some(Bool(false)), Some(Num(0)), Some(Str("")), Some(Arr([])), Some(Obj(map[]))}
  {
    GetIsField(result, "stage_reached");
    GetGetIsField(result, "brief", "verified");
    GetGetIsField(result, "brief", "lifecycle_state");
    GetGetIsField(result, "brief", "results_table");
    FalsyExactly(Get(Get(result, "brief"), "results_table"));
  }

  /** The block's wait was no timeout and its terminal record has a result. */
  lemma TerminalSays(d: Detached)
    ensures TerminalFound(d)
       <==> && d.wait.Some? && Field(d.wait.value, ["outcome"]) != Some(Str("timeout"))
            && d.record.Parsed? && exists fields :: Field(d.record.value, ["result"]) == Some(Obj(fields))
    ensures TerminalFound(d) ==> Field(d.record.value, ["result"]) == Some(Terminal(d))
  {
    if d.wait.Some? { GetIsField(d.wait.value, "outcome"); }
    if d.record.Parsed? {
      GetIsField(d.record.value, "result");
      if Get(d.record.value, "result").Obj? {
        assert Field(d.record.value, ["result"]) == Some(Obj(Get(d.record.value, "result").fields));
      }
    }
  }

  ghost predicate TextAt(value: Json, keys: seq<string>) {
    exists s :: Field(value, keys) == Some(Str(s)) && s != ""
  }

  ghost predicate ObjectAt(value: Json, keys: seq<string>) {
    exists m :: Field(value, keys) == Some(Obj(m))
  }

  lemma ObjectAtIs(value: Json, a: string)
    ensures ObjectAt(value, [a]) <==> Get(value, a).Obj?
    ensures TextAt(value, [a]) <==> NonEmptyStr(Get(value, a))
  {
    GetIsField(value, a);
    if Get(value, a).Obj? { assert Field(value, [a]) == Some(Obj(Get(value, a).fields)); }
    if NonEmptyStr(Get(value, a)) { assert Field(value, [a]) == Some(Str(Get(value, a).s)); }
  }

  /** A block's envelope has its six fields, a stage that is a text, a decision flag and a brief that is an
      object, and a next block that is absent, null or an object. */
  lemma EnvelopeSays(data: Json)
    ensures BlockEnvelope(data)
       <==> && (forall key :: key in {"block", "stage_reached", "needs_decision", "reason", "run_id", "brief"} ==>
                  Field(data, [key]).Some?)
            && TextAt(data, ["stage_reached"]) && ObjectAt(data, ["brief"])
            && Field(data, ["needs_decision"]) in {Some(Bool(true)), Some(Bool(false))}
            && (Field(data, ["next_block"]) in {None, Some(Null)} || ObjectAt(data, ["next_block"]))
  {
    FieldsThere(data, {"block", "stage_reached", "needs_decision", "reason", "run_id", "brief"});
    ObjectAtIs(data, "stage_reached");
    ObjectAtIs(data, "brief");
    ObjectAtIs(data, "next_block");
    GetIsField(data, "needs_decision");
    GetIsField(data, "next_block");
  }

  lemma FieldsThere(data: Json, keys: set<string>)
    ensures (forall key :: key in keys ==> Field(data, [key]).Some?) <==> keys == {} || (data.Obj? && keys <= data.fields.Keys)
  {
    forall key ensures Field(data, [key]).Some? <==> data.Obj? && key in data.fields {
      FieldUnfolds(data, key, []);
      assert [key] + [] == [key];
      if data.Obj? && key in data.fields { FieldUnfolds(data.fields[key], key, []); }
    }
  }

  /** An invocation or a probe-free launch counts as detached exactly for a sound envelope that says so. */
  lemma DetachedSays(launch: Reply)
    ensures Starts(launch)
       <==> launch.Some? && BlockEnvelope(launch.value) && Field(launch.value, ["stage_reached"]) == Some(Str("detached"))
  {
    if launch.Some? { GetIsField(launch.value, "stage_reached"); }
  }

  /** The bare tick is the actionable skip exactly with these fields. */
  lemma SkipSays(data: Json)
    ensures ActionableSkip(data)
       <==> && (forall key :: key in {"action", "run_id", "workflow", "current_verb", "next_verb", "reason"} ==>
                  Field(data, [key]).Some?)
            && Field(data, ["action"]) == Some(Str("skip")) && Field(data, ["next_verb"]) == Some(Str("submit-s1"))
            && exists reason, i: nat :: Field(data, ["reason"]) == Some(Str(reason))
                                        && OccursAt(reason, "cannot fresh-start submit-s1", i)
  {
    FieldsThere(data, {"action", "run_id", "workflow", "current_verb", "next_verb", "reason"});
    GetIsField(data, "action");
    GetIsField(data, "next_verb");
    GetIsField(data, "reason");
    ReasonSays(Get(data, "reason"));
  }

  lemma ReasonSays(reason: Json)
    ensures (reason.Str? && Contains(reason.s, "cannot fresh-start submit-s1"))
       <==> exists s, i: nat :: reason == Str(s) && OccursAt(s, "cannot fresh-start submit-s1", i)
  {
    if reason.Str? && Contains(reason.s, "cannot fresh-start submit-s1") {
      var i := Find(reason.s, "cannot fresh-start submit-s1", 0).value;
      assert reason == Str(reason.s) && OccursAt(reason.s, "cannot fresh-start submit-s1", i);
    }
  }

  /** The run id is the reply's own, unless that is missing or empty, and then the resolve brief's. */
  lemma RunIdSays(data: Json)
    ensures var own := Field(data, ["run_id"]);
            if own in {None, Some(Null), Some(Bool(false)), Some(Num(0)), Some(Str("")), Some(Arr([])), Some(Obj(map[]))} then
              RunIdOf(data) == match Field(data, ["brief", "resolve", "run_id"]) case Some(v) => v case None => Null
            else own == Some(RunIdOf(data))
  {
    GetIsField(data, "run_id");
    FalsyExactly(Get(data, "run_id"));
    GetGetGetIsField(data, "brief", "resolve", "run_id");
  }

  /** The resolve reply is accepted exactly with these fields. */
  lemma ResolvedSays(env: Env, data: Json)
    ensures ResolvedRun(env, data)
       <==> && BlockEnvelope(data) && Field(data, ["stage_reached"]) == Some(Str("resolved"))
            && ObjectAt(data, ["brief", "resolve", "submit_spec"]) && env.sidecar
            && exists id :: && RunIdOf(data) == Str(id) && Minted(id, env.runName) && id != "placeholder-run"
                            && env.expectedRunId in {None, Some(""), Some(id)}
  {
    GetIsField(data, "stage_reached");
    GetGetGetIsField(data, "brief", "resolve", "submit_spec");
    var spec := Get(Get(Get(data, "brief"), "resolve"), "submit_spec");
    if spec.Obj? { assert Field(data, ["brief", "resolve", "submit_spec"]) == Some(Obj(spec.fields)); }
    RunIdOfText(env, RunIdOf(data));
  }

  lemma RunIdOfText(env: Env, id: Json)
    ensures && id.Str? && Minted(id.s, env.runName) && id.s != "placeholder-run"
            && (env.expectedRunId.Some? && env.expectedRunId.value != "" ==> env.expectedRunId.value == id.s)
       <==> exists s :: && id == Str(s) && Minted(s, env.runName) && s != "placeholder-run"
                        && env.expectedRunId in {None, Some(""), Some(s)}
  {
    var expected := env.expectedRunId;
    if id.Str? {
      assert id == Str(id.s);
      assert (expected.Some? && expected.value != "" ==> expected.value == id.s) <==> expected in {None, Some(""), Some(id.s)};
    }
  }

  /** A spec can be reused exactly if it is there and not empty. */
  lemma ComposableSays(brief: Json)
    ensures S2Composable(brief)
       <==> exists spec :: Field(brief, ["resolve", "submit_spec"]) == Some(Obj(spec)) && spec != map[]
  {
    GetGetIsField(brief, "resolve", "submit_spec");
    var spec := Get(Get(brief, "resolve"), "submit_spec");
    if spec.Obj? { assert Field(brief, ["resolve", "submit_spec"]) == Some(Obj(spec.fields)); }
  }

  /** No parked spec, or a parked object, can be passed on; a text or a list only if it mentions "detach". */
  lemma UsableSays(fields: map<string, Json>, items: seq<Json>, text: string, n: int, b: bool)
    ensures Usable(Absent) && !Usable(Garbled) && Usable(Parsed(Obj(fields)))
    ensures !Usable(Parsed(Null)) && !Usable(Parsed(Num(n))) && !Usable(Parsed(Bool(b)))
    ensures Usable(Parsed(Str(text))) <==> exists i: nat :: OccursAt(text, "detach", i)
    ensures Usable(Parsed(Arr(items))) <==> Str("detach") in items
  {
    if Contains(text, "detach") { assert OccursAt(text, "detach", Find(text, "detach", 0).value); }
  }

  /** The run id is the run's name, a dash and eight hexadecimal digits (the pattern lets a line feed pass). */
  lemma MintedExactly(id: string, name: string)
    ensures Minted(id, name)
       <==> exists hex :: |hex| == 8 && Hex(hex) && (id == name + "-" + hex || id == name + "-" + hex + "\n")
  {
    var n := |name| + 9;
    if Minted(id, name) {
      var hex := id[|name| + 1..n];
      assert id == id[..|name| + 1] + hex + id[n..];
      assert |hex| == 8 && Hex(hex) && (id == name + "-" + hex || id == name + "-" + hex + "\n");
    }
    if hex :| |hex| == 8 && Hex(hex) && (id == name + "-" + hex || id == name + "-" + hex + "\n") {
      assert id[..|name| + 1] == name + "-" && id[|name| + 1..n] == hex;
      assert id[n..] == "" || id[n..] == "\n";
    }
  }

  /** The walk is clean exactly with these fields. */
  lemma WalkSays(env: Env, data: Json)
    ensures CleanWalk(env, data)
       <==> && BlockEnvelope(data)
            && Field(data, ["stage_reached"]) == Some(Str("resolved"))
            && Field(data, ["needs_decision"]) == Some(Bool(true))
            && (env.entryPoint ==> Field(data, ["brief", "provenance", "entry_point"]) == Some(Str("resolved_on_disk")))
            && (env.dataAxis ==> Field(data, ["brief", "provenance", "data_axis"]) == Some(Str("resolved_on_disk")))
            && (env.homogeneousAxes ==>
                  Field(data, ["brief", "provenance", "homogeneous_axes"]) == Some(Str("resolved_on_disk")))
            && Field(data, ["brief", "ambiguities"])
               in {None, Some(Null), Some(Bool(false)), Some(Num(0)), Some(Str("")), Some(Arr([])), Some(Obj(map[]))}
  {
    GetIsField(data, "stage_reached");
    GetIsField(data, "needs_decision");
    GetGetGetIsField(data, "brief", "provenance", "entry_point");
    GetGetGetIsField(data, "brief", "provenance", "data_axis");
    GetGetGetIsField(data, "brief", "provenance", "homogeneous_axes");
    GetGetIsField(data, "brief", "ambiguities");
    FalsyExactly(Get(Get(data, "brief"), "ambiguities"));
  }

  /** The block's worker was there and ended, and its terminal record names one of the stages. */
  predicate EndedAt(d: Detached, stages: set<string>) {
    Ended(d) && exists stage :: stage in stages && Field(d.record.value, ["result", "stage_reached"]) == Some(Str(stage))
  }

  /** A run completes exactly if it started, all three greenlights are in the journal after green ticks, the parked
      specs can be passed on, and the three blocks' terminal records say canary verified, watched to the end and
      harvested with a table that is not empty. */
  lemma PassMeans(env: Env)
    ensures Complete(env)
       <==> && Started(env) && CommittedYes(env.approve1, "submit-s1", "submit-s2")
            && EndedAt(env.s2, {"canary_verified"})
            && Field(env.s2.record.value, ["result", "brief", "verified"]) == Some(Bool(true))
            && CommittedYes(env.approve2, "submit-s2", "submit-s3") && Usable(env.s3.parked)
            && EndedAt(env.s3, {"watching_terminal"})
            && Field(env.s3.record.value, ["result", "brief", "lifecycle_state"]) in {Some(Str("complete")), Some(Null), None}
            && CommittedYes(env.approve3, "submit-s3", "submit-s4") && Usable(env.s4.parked)
            && EndedAt(env.s4, {"harvested", "harvest_partial"})
            && Field(env.s4.record.value, ["result", "brief", "results_table"])
               !in {None, Some(Null), Some(Bool(false)), Some(Num(0)), Some(Str("")), Some(Arr([])), Some(Obj(map[]))}
  {
    ApprovedSays(env.approve1, S1);
    ApprovedSays(env.approve2, S2);
    ApprovedSays(env.approve3, S3);
    CanarySays(env.s2);
    WatchSays(env.s3);
    HarvestSays(env.s4);
  }

  lemma CanarySays(d: Detached)
    ensures Ended(d) && CanaryVerified(Terminal(d))
       <==> EndedAt(d, {"canary_verified"}) && Field(d.record.value, ["result", "brief", "verified"]) == Some(Bool(true))
  {
    if Ended(d) {
      ResultSays(d, "verified");
      TerminalsSay(Terminal(d));
    }
  }

  lemma WatchSays(d: Detached)
    ensures Ended(d) && WatchedToEnd(Terminal(d))
       <==> && EndedAt(d, {"watching_terminal"})
            && Field(d.record.value, ["result", "brief", "lifecycle_state"]) in {Some(Str("complete")), Some(Null), None}
  {
    if Ended(d) {
      ResultSays(d, "lifecycle_state");
      TerminalsSay(Terminal(d));
    }
  }

  lemma HarvestSays(d: Detached)
    ensures Ended(d) && Harvested(Terminal(d))
       <==> && EndedAt(d, {"harvested", "harvest_partial"})
            && Field(d.record.value, ["result", "brief", "results_table"])
               !in {None, Some(Null), Some(Bool(false)), Some(Num(0)), Some(Str("")), Some(Arr([])), Some(Obj(map[]))}
  {
    if Ended(d) {
      ResultSays(d, "results_table");
      TerminalsSay(Terminal(d));
    }
  }

  lemma ResultSays(d: Detached, field: string)
    requires TerminalFound(d)
    ensures Field(d.record.value, ["result", "stage_reached"]) == Field(Terminal(d), ["stage_reached"])
    ensures Field(d.record.value, ["result", "brief", field]) == Field(Terminal(d), ["brief", field])
  {
    FieldUnfolds(d.record.value, "result", ["stage_reached"]);
    FieldUnfolds(d.record.value, "result", ["brief", field]);
    assert ["result"] + ["stage_reached"] == ["result", "stage_reached"];
    assert ["result"] + ["brief", field] == ["result", "brief", field];
  }
}
