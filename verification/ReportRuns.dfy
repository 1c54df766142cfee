/**
  Reports filed while other tool calls run. A batch's calls run in parallel
  (crates/rustykrab-agent/src/runner.rs, `execute_tools_parallel_traced`), and
  filing a report (local_worker.rs, `RecordingBackend::report`) is three
  moments: it copies the commands observed so far and drafts the report
  against that copy, awaits the backend's answer, and pushes what was
  accepted. Anything may happen between them, so a run is any list of such
  steps; a step that is not possible where the run stands changes nothing.
 */
module ReportRuns {
  import opened Common
  import opened Attestation

  datatype Step =
    | Returned(tool: string, command: Option<string>, exitCode: Option<int>)
    | Draft(call: nat, report: Report)
    | Accept(call: nat)
    | Reject(call: nat)
    | Push(call: nat)

  /** Where one call of `report` stands; `draftedAt` and `acceptedAt` are the steps that took it there. */
  datatype Phase =
    | Held(filed: Report, held: Report, draftedAt: nat)
    | Accepted(filed: Report, held: Report, draftedAt: nat, acceptedAt: nat)
    | Kept(filed: Report, held: Report, draftedAt: nat, acceptedAt: nat)
    | Refused

  datatype System = System(
    clock: nat,
    commands: seq<string>,
    reports: seq<Report>,
    calls: map<nat, Phase>,
    pushed: seq<nat>)

  const START := System(0, [], [], map[], [])

  /** How a report is drafted against the commands seen, or refused. */
  datatype Terms = Terms(draft: (Report, seq<string>) -> Option<Report>)

  /** As `RecordingBackend::report` drafts it, in a read-only review or not, with the controller's matcher. */
  function Host(readOnly: bool, ran: Matcher): Terms {
    Terms((report, commands) => Drafted(report, commands, readOnly, ran))
  }

  function Drafting(t: Terms, s: System, report: Report): Phase {
    match t.draft(report, s.commands)
    case None => Refused
    case Some(held) => Held(report, held, s.clock)
  }

  function Effect(t: Terms, s: System, step: Step): System {
    match step
    case Returned(tool, command, exitCode) => s.(commands := s.commands + Ran(tool, command, exitCode))
    case Draft(c, report) => if c in s.calls then s else s.(calls := s.calls[c := Drafting(t, s, report)])
    case Accept(c) =>
      if c in s.calls && s.calls[c].Held? then
        var Held(filed, held, draftedAt) := s.calls[c];
        s.(calls := s.calls[c := Accepted(filed, held, draftedAt, s.clock)])
      else s
    case Reject(c) => if c in s.calls && s.calls[c].Held? then s.(calls := s.calls[c := Refused]) else s
    case Push(c) =>
      if c in s.calls && s.calls[c].Accepted? then
        var Accepted(filed, held, draftedAt, acceptedAt) := s.calls[c];
        s.(calls := s.calls[c := Kept(filed, held, draftedAt, acceptedAt)],
           reports := s.reports + [held],
           pushed := s.pushed + [c])
      else s
  }

  function Next(t: Terms, s: System, step: Step): System {
    Effect(t, s, step).(clock := s.clock + 1)
  }

  /** Where any run stands. */
  function Reached(t: Terms, steps: seq<Step>): System {
    if steps == [] then START else Next(t, Reached(t, steps[..|steps| - 1]), steps[|steps| - 1])
  }

  /** The commands the host observed, in order. */
  function Observed(steps: seq<Step>): seq<string> {
    if steps == [] then []
    else
      var last := steps[|steps| - 1];
      Observed(steps[..|steps| - 1])
      + (if last.Returned? then Ran(last.tool, last.command, last.exitCode) else [])
  }

  lemma {:induction false} ObservedOn(a: seq<Step>, b: seq<Step>)
    ensures Observed(a + b) == Observed(a) + Observed(b)
    decreases |b|
  {
    if b == [] {
      assert a + b == a;
    } else {
      var n := |b| - 1;
      assert (a + b)[..|a + b| - 1] == a + b[..n];
      ObservedOn(a, b[..n]);
    }
  }

  lemma {:induction false} ReachedOn(t: Terms, steps: seq<Step>, step: Step)
    ensures Reached(t, steps + [step]) == Next(t, Reached(t, steps), step)
  {
    assert (steps + [step])[..|steps|] == steps;
  }

  lemma {:induction false} FourSteps(t: Terms, a: Step, b: Step, c: Step, d: Step)
    ensures Reached(t, [a, b, c, d]) == Next(t, Next(t, Next(t, Next(t, START, a), b), c), d)
  {
    ReachedOn(t, [], a);
    ReachedOn(t, [a], b);
    ReachedOn(t, [a, b], c);
    ReachedOn(t, [a, b, c], d);
    hide Next;
    assert [] + [a] == [a] && [a] + [b] == [a, b] && [a, b] + [c] == [a, b, c] && [a, b, c] + [d] == [a, b, c, d];
  }

  predicate Verbatim(check: string, commands: seq<string>) {
    check in commands
  }

  lemma {:induction false} DraftedFirst(checks: seq<string>)
    ensures var report := Report([], checks, false);
      Drafted(report, [], false, Verbatim) == Some(report)
  {
    assert Others([], HOST_PROOF) + OfKind(COMMAND_RUN, []) == [];
  }

  /** What the host observes: the commands of exec calls that came back with an exit code, as they come back. */
  lemma {:induction false} HostObserves(steps: seq<Step>, step: Step)
    ensures Observed(steps + [step]) ==
      if step.Returned? && step.tool == "exec" && step.command.Some? && step.exitCode.Some?
      then Observed(steps) + [step.command.value] else Observed(steps)
  {
    assert (steps + [step])[..|steps|] == steps;
  }

  // ── the invariant ─────────────────────────────────────────────────────

  /** A call's phase says which steps drafted and accepted it, and what it was drafted against. */
  ghost predicate Traced(t: Terms, steps: seq<Step>, c: nat, p: Phase) {
    !p.Refused? ==>
      && p.draftedAt < |steps| && steps[p.draftedAt] == Draft(c, p.filed)
      && t.draft(p.filed, Observed(steps[..p.draftedAt])) == Some(p.held)
      && (!p.Held? ==> p.draftedAt < p.acceptedAt < |steps| && steps[p.acceptedAt] == Accept(c))
  }

  ghost predicate AllTraced(t: Terms, steps: seq<Step>, s: System) {
    forall c :: c in s.calls ==> Traced(t, steps, c, s.calls[c])
  }

  /** The reports are the kept calls', each once, in the order they were pushed. */
  ghost predicate Listed(s: System) {
    && |s.pushed| == |s.reports|
    && (forall i :: 0 <= i < |s.pushed| ==>
          s.pushed[i] in s.calls && s.calls[s.pushed[i]].Kept? && s.reports[i] == s.calls[s.pushed[i]].held)
    && (forall c :: c in s.calls && s.calls[c].Kept? ==> c in s.pushed)
    && (forall i, j :: 0 <= i < j < |s.pushed| ==> s.pushed[i] != s.pushed[j])
  }

  ghost predicate Invariant(t: Terms, steps: seq<Step>, s: System) {
    && s.clock == |steps| && s.commands == Observed(steps)
    && AllTraced(t, steps, s) && Listed(s)
  }

  lemma {:induction false} TracedStays(t: Terms, steps: seq<Step>, step: Step, c: nat, p: Phase)
    requires Traced(t, steps, c, p)
    ensures Traced(t, steps + [step], c, p)
  {
    var more := steps + [step];
    if !p.Refused? { assert more[..p.draftedAt] == steps[..p.draftedAt]; }
  }

  lemma {:induction false} NextTraced(t: Terms, steps: seq<Step>, s: System, step: Step, c: nat)
    requires Invariant(t, steps, s) && c in Next(t, s, step).calls
    ensures Traced(t, steps + [step], c, Next(t, s, step).calls[c])
  {
    if c in s.calls { TracedStays(t, steps, step, c, s.calls[c]); }
    assert (steps + [step])[..|steps|] == steps;
  }

  lemma {:induction false} NextListed(t: Terms, s: System, step: Step)
    requires Listed(s)
    ensures Listed(Next(t, s, step))
  {
    var s' := Next(t, s, step);
    if step.Push? && step.call in s.calls && s.calls[step.call].Accepted? {
      assert step.call !in s.pushed;
      assert s'.pushed[|s.pushed|] == step.call;
    }
  }

  lemma {:induction false} NextKeeps(t: Terms, steps: seq<Step>, s: System, step: Step)
    requires Invariant(t, steps, s)
    ensures Invariant(t, steps + [step], Next(t, s, step))
  {
    var s' := Next(t, s, step);
    assert (steps + [step])[..|steps|] == steps;
    hide Traced, Listed;
    NextListed(t, s, step);
    forall c | c in s'.calls
      ensures Traced(t, steps + [step], c, s'.calls[c])
    {
      NextTraced(t, steps, s, step, c);
    }
  }

  lemma {:induction false} RunKeeps(t: Terms, steps: seq<Step>)
    ensures Invariant(t, steps, Reached(t, steps))
  {
    if steps != [] {
      var n := |steps| - 1;
      RunKeeps(t, steps[..n]);
      hide Invariant, Next;
      assert steps[..n] + [steps[n]] == steps;
      NextKeeps(t, steps[..n], Reached(t, steps[..n]), steps[n]);
    }
  }
}
