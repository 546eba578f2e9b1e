/** The crash protocol around pyproject.toml in scripts/run_mutation.py. */
module MutationSweep {
  import opened Text
  import opened Lines
  import ArrayRewrite

  // ---------- reading and writing text ----------

  /** `Path.read_text`: universal newlines turn CR LF and a lone CR into LF. */
  function ReadText(raw: string): string {
    if raw == "" then ""
    else if "\r\n" <= raw then "\n" + ReadText(raw[2..])
    else (if raw[0] == '\r' then "\n" else [raw[0]]) + ReadText(raw[1..])
  }

  /** What is read holds no CR any more, and reading it again changes nothing. */
  lemma {:induction false} ReadTextHasNoReturns(raw: string)
    ensures '\r' !in ReadText(raw)
  {
    if raw != "" {
      ReadTextHasNoReturns(if "\r\n" <= raw then raw[2..] else raw[1..]);
    }
  }

  /** Reading is faithful exactly for files without a carriage return. */
  lemma {:induction false} ReadTextIsExact(raw: string)
    ensures ReadText(raw) == raw <==> '\r' !in raw
  {
    if '\r' in raw {
      ReadTextHasNoReturns(raw);
    } else if raw != "" {
      assert raw == [raw[0]] + raw[1..];
      ReadTextIsExact(raw[1..]);
    }
  }

  /** In front of the first CR nothing changes. */
  lemma {:induction false} ReadTextKeeps(line: string, rest: string)
    requires '\r' !in line
    ensures ReadText(line + rest) == line + ReadText(rest)
  {
    if line == "" {
      assert line + rest == rest;
    } else {
      var s := line + rest;
      assert s[0] == line[0] && s[1..] == line[1..] + rest;
      ReadTextKeeps(line[1..], rest);
      assert [line[0]] + (line[1..] + ReadText(rest)) == line + ReadText(rest);
    }
  }

  /** A CR LF, a lone CR and a LF are each one LF when read. */
  lemma ReadTextAtBreak(line: string, rest: string)
    requires '\r' !in line
    ensures ReadText(line + ("\r\n" + rest)) == line + ("\n" + ReadText(rest))
    ensures ReadText(line + ("\n" + rest)) == line + ("\n" + ReadText(rest))
    ensures rest == "" || rest[0] != '\n' ==> ReadText(line + ("\r" + rest)) == line + ("\n" + ReadText(rest))
  {
    ReadTextKeeps(line, "\r\n" + rest);
    ReadTextKeeps(line, "\n" + rest);
    ReadTextKeeps(line, "\r" + rest);
    assert ("\r\n" + rest)[2..] == rest && ("\n" + rest)[1..] == rest && ("\r" + rest)[1..] == rest;
  }

  lemma OneLineHasNoReturn(line: string)
    requires OneLine(line)
    ensures '\r' !in line && '\n' !in line
  {
  }

  /** The break at `n`, where the first line ends. */
  lemma BreakAt(raw: string, n: nat) returns (brk: string, rest: string)
    requires n < |raw| && IsBreak(raw[n])
    ensures raw == raw[..n] + (brk + rest) && rest == raw[EndAt(raw, n) + 1..]
    ensures brk == "\r\n" || (|brk| == 1 && IsBreak(brk[0]) && (brk == "\r" ==> rest == "" || rest[0] != '\n'))
  {
    var end := EndAt(raw, n);
    brk, rest := raw[n..end + 1], raw[end + 1..];
    Cut(raw, n, end + 1);
    if end == n { assert brk == [raw[n]]; } else { assert brk == "\r\n"; }
  }

  lemma Cut(raw: string, n: nat, end: nat)
    requires n <= end <= |raw|
    ensures raw == raw[..n] + (raw[n..end] + raw[end..])
  {
  }

  lemma SplitFirst(raw: string, n: nat, rest: string)
    requires n == LineLength(raw) < |raw| && rest == raw[EndAt(raw, n) + 1..]
    ensures SplitLines(raw) == [raw[..n]] + SplitLines(rest)
  {
  }

  lemma OtherBreakReads(line: string, brk: char, rest: string)
    requires '\r' !in line && brk != '\r'
    ensures ReadText(line + ([brk] + rest)) == line + ([brk] + ReadText(rest))
  {
    ReadTextKeeps(line, [brk] + rest);
    ReadTextKeeps([brk], rest);
  }

  lemma BreakReadsAs(line: string, brk: string, rest: string)
    requires OneLine(line)
    requires brk == "\r\n" || (|brk| == 1 && IsBreak(brk[0]) && (brk == "\r" ==> rest == "" || rest[0] != '\n'))
    ensures var c := if brk == "\r\n" || brk == "\r" then '\n' else brk[0];
            c != '\r' && IsBreak(c) && ReadText(line + (brk + rest)) == line + [c] + ReadText(rest)
  {
    OneLineHasNoReturn(line);
    if brk == "\r\n" || brk == "\r" {
      ReadTextAtBreak(line, rest);
    } else {
      OtherBreakReads(line, brk[0], rest);
      assert [brk[0]] == brk;
    }
    Associate(line, [if brk == "\r\n" || brk == "\r" then '\n' else brk[0]], ReadText(rest));
  }

  /** Reading a file keeps its lines, whatever line ends it has. */
  lemma {:induction false} ReadTextKeepsLines(raw: string)
    ensures SplitLines(ReadText(raw)) == SplitLines(raw)
    decreases |raw|
  {
    if raw != "" {
      if LineLength(raw) == |raw| {
        assert raw[..|raw|] == raw;
        OneLineHasNoReturn(raw);
        ReadTextIsExact(raw);
      } else {
        var line := raw[..LineLength(raw)];
        var brk, rest := BreakAt(raw, LineLength(raw));
        SplitFirst(raw, LineLength(raw), rest);
        BreakReadsAs(line, brk, rest);
        ReadTextKeepsLines(rest);
        SplitAtBreak(line, if brk == "\r\n" || brk == "\r" then '\n' else brk[0], ReadText(rest));
      }
    }
  }

  /** Every CR stands in front of a LF. */
  predicate ReturnsInLineEnds(raw: string) {
    forall k :: 0 <= k < |raw| ==> FollowedAt(raw, k)
  }

  /** A CR at `k` stands in front of a LF. */
  predicate FollowedAt(raw: string, k: nat)
    requires k < |raw|
  {
    raw[k] == '\r' ==> k + 1 < |raw| && raw[k + 1] == '\n'
  }

  lemma ReturnsBehind(raw: string, n: nat, rest: string)
    requires ReturnsInLineEnds(raw) && n <= |raw| && rest == raw[n..]
    ensures ReturnsInLineEnds(rest)
  {
    forall k | 0 <= k < |rest| ensures FollowedAt(rest, k) {
      assert FollowedAt(raw, n + k);
    }
  }

  lemma NoReturnInFirst(raw: string, n: nat, line: string)
    requires n < |raw| && (forall k :: 0 <= k < n ==> raw[k] != '\n') && ReturnsInLineEnds(raw) && line == DropReturn(raw[..n])
    ensures '\r' !in line && '\n' !in line
  {
    forall k | 0 <= k < |line| ensures line[k] != '\r' && line[k] != '\n' {
      assert line[k] == raw[k] && FollowedAt(raw, k);
      assert k + 1 < n ==> raw[k + 1] != '\n';
    }
  }

  lemma TomlLineEnd(raw: string, n: nat, line: string, rest: string)
    requires n < |raw| && raw[n] == '\n' && rest == raw[n + 1..] && line == DropReturn(raw[..n])
    ensures raw == line + ("\n" + rest) || raw == line + ("\r\n" + rest)
  {
    if |line| == n {
      Cut(raw, n, n + 1);
      assert raw[n..n + 1] == "\n";
    } else {
      Cut(raw, n - 1, n + 1);
      assert raw[..n][n - 1] == '\r' && raw[n - 1..n + 1] == "\r\n";
    }
  }

  /** The text up to a LF reads as the line without its line end, and a LF. */
  lemma ReadTextOfTomlLine(raw: string, n: nat, line: string, rest: string)
    requires n < |raw| && raw[n] == '\n' && rest == raw[n + 1..] && line == DropReturn(raw[..n]) && '\r' !in line
    ensures ReadText(raw) == line + ("\n" + ReadText(rest))
  {
    TomlLineEnd(raw, n, line, rest);
    ReadTextAtBreak(line, rest);
  }

  /** For a file whose only line ends are LF and CR LF reading keeps the lines TOML sees as well. */
  lemma {:induction false} ReadTextKeepsTomlLines(raw: string)
    requires ReturnsInLineEnds(raw)
    ensures TomlLines(ReadText(raw)) == TomlLines(raw)
    decreases |raw|
  {
    var n := LfIndex(raw);
    if n == |raw| {
      forall k | 0 <= k < |raw| ensures raw[k] != '\r' { assert FollowedAt(raw, k); }
      ReadTextIsExact(raw);
    } else {
      var line, rest := DropReturn(raw[..n]), raw[n + 1..];
      NoReturnInFirst(raw, n, line);
      ReadTextOfTomlLine(raw, n, line, rest);
      ReturnsBehind(raw, n + 1, rest);
      ReadTextKeepsTomlLines(rest);
      TomlStep(raw, n);
      TomlOfLine(line, ReadText(rest));
    }
  }

  lemma TomlOfLine(line: string, rest: string)
    requires '\r' !in line && '\n' !in line
    ensures TomlLines(line + ("\n" + rest)) == [line] + TomlLines(rest)
  {
    var out := line + ("\n" + rest);
    assert out[..|line|] == line && out[|line| + 1..] == rest && out[|line|] == '\n';
    forall k | 0 <= k < |line| ensures out[k] != '\n' { assert out[k] == line[k]; }
    TomlStep(out, |line|);
  }

  // ---------- the protocol, one file operation at a time ----------

  /** The two files; `pyproject` and `backup` hold raw file contents. */
  datatype Disk = Disk(pyproject: string, backup: Option<string>)

  /** What the environment does to one operation: nothing, or the operation raises or the process
      dies, leaving an arbitrary residue in a file it was writing. */
  datatype Fault = Fine | Raise(residue: string) | Crash(residue: string)

  /** How a session (one invocation of the script) ends. */
  datatype End = Completed | Raised | Dead

  /** One session: the module to sweep, what the TOML parser says (the committed argument list and
      whether the scoped text parses), and the fault of every operation; a backup write that was never
      opened leaves no file. */
  datatype Session = Session(
    scope: ArrayRewrite.ModuleScope, existing: seq<string>, parses: bool,
    recoverWrite: Fault, recoverUnlink: Fault,
    backupWrite: Fault, backupOpened: bool,
    scopedWrite: Fault, body: Fault,
    restoreWrite: Fault, restoreUnlink: Fault)

  class Workspace {
    var pyproject: string
    var backup: Option<string>

    constructor (pyproject: string)
      ensures this.pyproject == pyproject && backup == None
    {
      this.pyproject := pyproject;
      this.backup := None;
    }

    ghost function Contents(): Disk
      reads this
    {
      Disk(pyproject, backup)
    }

    /** A pyproject write: complete, or torn to the fault's residue. */
    method WritePyproject(text: string, fault: Fault)
      modifies this`pyproject
      ensures pyproject == if fault.Fine? then text else fault.residue
    {
      pyproject := if fault.Fine? then text else fault.residue;
    }

    /** `_recover_stale_backup` */
    method RecoverStaleBackup(s: Session) returns (end: End)
      modifies this
      ensures (Contents(), end) == Recover(old(Contents()), s)
    {
      if backup.Some? {
        WritePyproject(ReadText(backup.value), s.recoverWrite);
        if !s.recoverWrite.Fine? {
          return EndOf(s.recoverWrite);
        }
        if !s.recoverUnlink.Fine? {
          return EndOf(s.recoverUnlink);
        }
        backup := None;
      }
      return Completed;
    }

    /** `run_sweep`: back up, scope, run, and restore in the `finally` block. */
    method RunSweep(s: Session) returns (end: End)
      modifies this
      ensures (Contents(), end) == Sweep(old(Contents()), s)
    {
      var original := ReadText(pyproject);
      var scoped := Rendered(original, s);
      if scoped.None? {
        return Raised;
      }
      if !s.backupWrite.Fine? {
        if s.backupOpened {
          backup := Some(s.backupWrite.residue);
        }
        return EndOf(s.backupWrite);
      }
      backup := Some(original);
      // the try body: a death ends the session, an exception still reaches the finally block
      var pending := Completed;
      WritePyproject(scoped.value, s.scopedWrite);
      pending := EndOf(s.scopedWrite);
      if pending.Completed? {
        pending := EndOf(s.body);
      }
      if pending.Dead? {
        return Dead;
      }
      WritePyproject(original, s.restoreWrite);
      if !s.restoreWrite.Fine? {
        return EndOf(s.restoreWrite);
      }
      if !s.restoreUnlink.Fine? {
        return EndOf(s.restoreUnlink);
      }
      backup := None;
      return pending;
    }

    /** One invocation: recovery first, then the sweep. */
    method Invoke(s: Session) returns (end: End)
      modifies this
      ensures (Contents(), end) == Step(old(Contents()), s)
    {
      end := RecoverStaleBackup(s);
      if end.Completed? {
        end := RunSweep(s);
      }
    }

    /** Any number of invocations, each with its own faults. */
    method InvokeAll(sessions: seq<Session>) returns (end: End)
      modifies this
      ensures (Contents(), end) == Run(old(Contents()), sessions)
    {
      end := Completed;
      for i := 0 to |sessions|
        invariant (Contents(), end) == Run(old(Contents()), sessions[..i])
      {
        assert sessions[..i + 1][..i] == sessions[..i];
        end := Invoke(sessions[i]);
      }
      assert sessions[..|sessions|] == sessions;
    }
  }

  function EndOf(fault: Fault): End {
    match fault
    case Fine => Completed
    case Raise(_) => Raised
    case Crash(_) => Dead
  }

  /** The scoped text, None when the renderer refuses the file. */
  function Rendered(text: string, s: Session): Option<string> {
    match ArrayRewrite.RenderScoped(text, s.scope, s.existing)
    case Ok(scoped) => if s.parses then Some(scoped) else None
    case Err(_) => None
  }

  function Recover(d: Disk, s: Session): (Disk, End) {
    if d.backup.None? then (d, Completed)
    else if !s.recoverWrite.Fine? then (d.(pyproject := s.recoverWrite.residue), EndOf(s.recoverWrite))
    else
      var text := ReadText(d.backup.value);
      if !s.recoverUnlink.Fine? then (d.(pyproject := text), EndOf(s.recoverUnlink))
      else (Disk(text, None), Completed)
  }

  function Sweep(d: Disk, s: Session): (Disk, End) {
    var original := ReadText(d.pyproject);
    SweepWith(d, s, original, Rendered(original, s))
  }

  function SweepWith(d: Disk, s: Session, original: string, rendered: Option<string>): (Disk, End) {
    if rendered.None? then (d, Raised)
    else if !s.backupWrite.Fine? then
      (if s.backupOpened then d.(backup := Some(s.backupWrite.residue)) else d, EndOf(s.backupWrite))
    else
      var scoped := if s.scopedWrite.Fine? then rendered.value else s.scopedWrite.residue;
      var pending := if s.scopedWrite.Fine? then EndOf(s.body) else EndOf(s.scopedWrite);
      if pending.Dead? then (Disk(scoped, Some(original)), Dead)
      else if !s.restoreWrite.Fine? then
        (Disk(s.restoreWrite.residue, Some(original)), EndOf(s.restoreWrite))
      else if !s.restoreUnlink.Fine? then (Disk(original, Some(original)), EndOf(s.restoreUnlink))
      else (Disk(original, None), pending)
  }

  function Step(d: Disk, s: Session): (Disk, End) {
    var (d', end) := Recover(d, s);
    if end.Completed? then Sweep(d', s) else (d', end)
  }

  /** Either the backup reads as the original, or there is no backup and pyproject is the original: as
      first found, or as a restore wrote it. */
  predicate Safe(d: Disk, original: string) {
    match d.backup
    case Some(kept) => ReadText(kept) == ReadText(original)
    case None => d.pyproject == original || d.pyproject == ReadText(original)
  }

  lemma ReadTextTwice(raw: string)
    ensures ReadText(ReadText(raw)) == ReadText(raw)
  {
    ReadTextHasNoReturns(raw);
    ReadTextIsExact(ReadText(raw));
  }

  /** The session gets as far as its backup write. */
  predicate BacksUp(d: Disk, s: Session) {
    Recover(d, s).1.Completed? && Rendered(ReadText(Recover(d, s).0.pyproject), s).Some?
  }

  /** The session's backup write leaves a file that does not read as the original. */
  predicate TearsBackup(d: Disk, s: Session, original: string) {
    && BacksUp(d, s) && !s.backupWrite.Fine? && s.backupOpened
    && ReadText(s.backupWrite.residue) != ReadText(original)
  }

  /** Of all faults of a session exactly a torn backup write endangers the original; a session that ends
      normally restores it, and so does one whose mutmut run raised, if only the restore went through. */
  lemma StepIsSafe(d: Disk, s: Session, original: string)
    requires Safe(d, original)
    ensures Safe(Step(d, s).0, original) <==> !TearsBackup(d, s, original)
    ensures Step(d, s).1.Completed? ==> Step(d, s).0 == Disk(ReadText(original), None)
    ensures BacksUp(d, s) && s.backupWrite.Fine? && !Step(d, s).1.Dead? && s.restoreWrite.Fine? && s.restoreUnlink.Fine?
            ==> Step(d, s).0 == Disk(ReadText(original), None)
  {
    ReadTextTwice(original);
    var (d', end) := Recover(d, s);
    if end.Completed? {
      SweepIsSafe(d', s, Rendered(ReadText(d'.pyproject), s), original);
    }
  }

  lemma SweepIsSafe(d: Disk, s: Session, rendered: Option<string>, original: string)
    requires Safe(d, original) && d.backup.None?
    ensures var (d', end) := SweepWith(d, s, ReadText(original), rendered);
            && (Safe(d', original)
                <==> !(rendered.Some? && !s.backupWrite.Fine? && s.backupOpened
                       && ReadText(s.backupWrite.residue) != ReadText(original)))
            && (end.Completed? ==> d' == Disk(ReadText(original), None))
            && (rendered.Some? && s.backupWrite.Fine? && !end.Dead? && s.restoreWrite.Fine? && s.restoreUnlink.Fine?
                ==> d' == Disk(ReadText(original), None))
  {
    ReadTextTwice(original);
  }

  function Run(d: Disk, sessions: seq<Session>): (Disk, End) {
    if sessions == [] then (d, Completed)
    else Step(Run(d, sessions[..|sessions| - 1]).0, sessions[|sessions| - 1])
  }

  /** Session `k` of a run tears its backup. */
  predicate Tears(original: string, sessions: seq<Session>, k: nat)
    requires k < |sessions|
  {
    TearsBackup(Run(Disk(original, None), sessions[..k]).0, sessions[k], original)
  }

  /** The original was safe in front of every session and at the end. */
  ghost predicate SafeThroughout(original: string, sessions: seq<Session>) {
    forall n :: 0 <= n <= |sessions| ==> Safe(Run(Disk(original, None), sessions[..n]).0, original)
  }

  lemma NoTearIsSafe(original: string, sessions: seq<Session>, n: nat)
    requires n <= |sessions| && forall k :: 0 <= k < n ==> !Tears(original, sessions, k)
    ensures Safe(Run(Disk(original, None), sessions[..n]).0, original)
  {
    if n > 0 {
      NoTearIsSafe(original, sessions, n - 1);
      assert sessions[..n][..n - 1] == sessions[..n - 1];
      assert !Tears(original, sessions, n - 1);
      StepIsSafe(Run(Disk(original, None), sessions[..n - 1]).0, sessions[n - 1], original);
    }
  }

  /** What is safe is the original line by line: in the backup, or else in pyproject. */
  lemma SafeKeepsLines(d: Disk, original: string)
    requires Safe(d, original)
    ensures SplitLines(if d.backup.Some? then d.backup.value else d.pyproject) == SplitLines(original)
  {
    ReadTextKeepsLines(original);
    if d.backup.Some? { ReadTextKeepsLines(d.backup.value); }
  }

  /** Whatever happens to any number of sessions, the original stays safe exactly when no backup
      write leaves a file that reads differently from it. */
  lemma RunIsSafe(original: string, sessions: seq<Session>)
    ensures SafeThroughout(original, sessions) <==> forall k :: 0 <= k < |sessions| ==> !Tears(original, sessions, k)
  {
    if forall k :: 0 <= k < |sessions| ==> !Tears(original, sessions, k) {
      forall n | 0 <= n <= |sessions| ensures Safe(Run(Disk(original, None), sessions[..n]).0, original) {
        NoTearIsSafe(original, sessions, n);
      }
    }
    if SafeThroughout(original, sessions) {
      forall k | 0 <= k < |sessions| ensures !Tears(original, sessions, k) {
        assert sessions[..k + 1][..k] == sessions[..k];
        assert Safe(Run(Disk(original, None), sessions[..k]).0, original);
        assert Safe(Run(Disk(original, None), sessions[..k + 1]).0, original);
        StepIsSafe(Run(Disk(original, None), sessions[..k]).0, sessions[k], original);
      }
    }
  }

  /** A completed session that finds the original safe has put it back and removed the backup; the file
      is the committed one, byte for byte, exactly when that has no carriage return. */
  lemma RestoredByteForByte(original: string, sessions: seq<Session>)
    requires sessions != [] && Run(Disk(original, None), sessions).1.Completed?
    requires forall k :: 0 <= k < |sessions| ==> !Tears(original, sessions, k)
    ensures Run(Disk(original, None), sessions).0 == Disk(ReadText(original), None)
    ensures Run(Disk(original, None), sessions).0 == Disk(original, None) <==> '\r' !in original
    ensures SplitLines(Run(Disk(original, None), sessions).0.pyproject) == SplitLines(original)
    ensures ReturnsInLineEnds(original) ==> TomlLines(Run(Disk(original, None), sessions).0.pyproject) == TomlLines(original)
  {
    var n := |sessions| - 1;
    NoTearIsSafe(original, sessions, n);
    StepIsSafe(Run(Disk(original, None), sessions[..n]).0, sessions[n], original);
    ReadTextIsExact(original);
    ReadTextKeepsLines(original);
    if ReturnsInLineEnds(original) { ReadTextKeepsTomlLines(original); }
  }

  /** A torn backup write has not touched pyproject, but the next recovery copies the torn text over it,
      and then no file holds the original. */
  lemma TornBackupOverwritesTheOriginal(original: string, torn: Session, next: Session)
    requires TearsBackup(Disk(original, None), torn, original)
    requires next.recoverWrite.Fine? && next.recoverUnlink.Fine?
    ensures var after := Step(Disk(original, None), torn).0;
            && after == Disk(original, Some(torn.backupWrite.residue))
            && Recover(after, next) == (Disk(ReadText(torn.backupWrite.residue), None), Completed)
            && !Safe(Recover(after, next).0, original)
  {
    ReadTextTwice(original);
    ReadTextTwice(torn.backupWrite.residue);
  }

  /** A sweep whose scoped text is refused, or does not parse, touches neither file. */
  lemma RefusedTouchesNothing(d: Disk, s: Session)
    requires !s.parses || ArrayRewrite.RenderScoped(ReadText(d.pyproject), s.scope, s.existing).Err?
    ensures Sweep(d, s) == (d, Raised)
  {
  }

  /** An exception behind the backup, from the scoped write or from mutmut, still meets the restore. */
  lemma RaisedBodyIsRestored(d: Disk, s: Session)
    requires ArrayRewrite.RenderScoped(ReadText(d.pyproject), s.scope, s.existing).Ok? && s.parses
    requires s.backupWrite.Fine? && (s.scopedWrite.Raise? || (s.scopedWrite.Fine? && s.body.Raise?))
    requires s.restoreWrite.Fine? && s.restoreUnlink.Fine?
    ensures Sweep(d, s) == (Disk(ReadText(d.pyproject), None), Raised)
  {
  }

  /** While mutmut runs pyproject is the scoped text and the backup the original: what a death then leaves. */
  lemma BodySeesScopedText(d: Disk, s: Session, scoped: string)
    requires ArrayRewrite.RenderScoped(ReadText(d.pyproject), s.scope, s.existing) == Ok(scoped) && s.parses
    requires s.backupWrite.Fine? && s.scopedWrite.Fine? && s.body.Crash?
    ensures Sweep(d, s) == (Disk(scoped, Some(ReadText(d.pyproject))), Dead)
  {
  }

  /** Recovery has to come first: a sweep that skips it after a death saves the scoped text as the
      original, and then no file holds the original any more. */
  lemma RecoveryMustComeFirst(original: string, dead: Session, plain: Session, scoped: string)
    requires Rendered(ReadText(original), dead) == Some(scoped) && ReadText(scoped) != ReadText(original)
    requires dead.backupWrite.Fine? && dead.scopedWrite.Fine? && dead.body.Crash?
    requires Rendered(ReadText(scoped), plain).Some? && plain.backupWrite.Fine? && plain.scopedWrite.Fine?
    requires plain.body.Fine? && plain.restoreWrite.Fine? && plain.restoreUnlink.Fine?
    ensures Step(Disk(original, None), dead).1.Dead?
    ensures var after := Sweep(Step(Disk(original, None), dead).0, plain);
            after == (Disk(ReadText(scoped), None), Completed) && !Safe(after.0, original)
  {
    ReadTextTwice(scoped);
  }
}
