/** What a run's kept reports vouch for. */
module ReportClaims {
  import opened Common
  import opened Attestation
  import opened ReportRuns

  /** What matches the earlier commands matches the later ones. */
  ghost predicate StillMatches(ran: Matcher, earlier: seq<string>, later: seq<string>) {
    forall check :: ran(check, earlier) ==> ran(check, later)
  }

  /**
    In every run a kept report is one that was drafted and then accepted. Its
    command artifacts are exactly the commands observed when it was drafted, a
    prefix of those observed when it was accepted, and the same if and only if
    none returned in between; it holds no operation probe and the other
    artifacts as filed; and if anything had been observed by the draft, every
    claimed check matches that, and what was observed by the acceptance too
    unless the matcher lets more commands undo a match.
   */
  lemma {:induction false} KeptReportAttests(readOnly: bool, ran: Matcher, steps: seq<Step>, i: nat)
    requires i < |Reached(Host(readOnly, ran), steps).reports|
    ensures var s := Reached(Host(readOnly, ran), steps);
      && i < |s.pushed| && s.pushed[i] in s.calls && s.calls[s.pushed[i]].Kept?
      && s.reports[i] == s.calls[s.pushed[i]].held
      && Attests(readOnly, ran, steps, s.pushed[i], s.calls[s.pushed[i]])
  {
    var t := Host(readOnly, ran);
    RunKeeps(t, steps);
    var s := Reached(t, steps);
    var c := s.pushed[i];
    assert Traced(t, steps, c, s.calls[c]);
    hide Reached;
    TracedAttests(readOnly, ran, steps, c, s.calls[c]);
  }

  /** What a kept call's report says of the commands observed when it was drafted and when it was accepted. */
  ghost predicate Attests(readOnly: bool, ran: Matcher, steps: seq<Step>, c: nat, p: Phase)
    requires p.Kept?
  {
    var Kept(filed, held, draftedAt, acceptedAt) := p;
    && draftedAt < acceptedAt < |steps|
    && steps[draftedAt] == Draft(c, filed) && steps[acceptedAt] == Accept(c) && held.checks == filed.checks
    && var drafted, accepted := Observed(steps[..draftedAt]), Observed(steps[..acceptedAt]);
    && Values(held.artifacts, COMMAND_RUN) == drafted <= accepted
    && (drafted == accepted <==> Observed(steps[draftedAt..acceptedAt]) == [])
    && Values(held.artifacts, OPERATION_PROBE) == []
    && Others(held.artifacts, HOST_PROOF) == Others(filed.artifacts, HOST_PROOF)
    && (drafted != [] ==> ChecksRan(held.checks, drafted, ran))
    && (drafted != [] && StillMatches(ran, drafted, accepted) ==> ChecksRan(held.checks, accepted, ran))
    && (readOnly ==> filed.artifacts == [] && filed.checks == [] && !filed.claims)
  }

  lemma {:induction false} TracedAttests(readOnly: bool, ran: Matcher, steps: seq<Step>, c: nat, p: Phase)
    requires p.Kept? && Traced(Host(readOnly, ran), steps, c, p)
    ensures Attests(readOnly, ran, steps, c, p)
  {
    DraftAttests(p.filed, Observed(steps[..p.draftedAt]), readOnly, ran);
    hide Values, Others, Observed;
    Between(steps, p.draftedAt, p.acceptedAt);
  }

  lemma {:induction false} Between(steps: seq<Step>, a: nat, b: nat)
    requires a <= b <= |steps|
    ensures Observed(steps[..b]) == Observed(steps[..a]) + Observed(steps[a..b])
  {
    assert steps[..b] == steps[..a] + steps[a..b];
    ObservedOn(steps[..a], steps[a..b]);
  }

  /**
    So a report batched with a command can miss it: drafted first, it is kept
    without the command that returned before it was accepted, and with a
    check that matches nothing observed by then.
   */
  lemma {:induction false} BatchedCommandIsMissed()
    ensures var report := Report([], ["tests"], false);
      var steps := [Draft(0, report), Returned("exec", Some("make"), Some(0)), Accept(0), Push(0)];
      && Observed(steps[..2]) == ["make"] && !ChecksRan(report.checks, ["make"], Verbatim)
      && Reached(Host(false, Verbatim), steps).reports == [report]
  {
    var t, report := Host(false, Verbatim), Report([], ["tests"], false);
    var made := Returned("exec", Some("make"), Some(0));
    var steps := [Draft(0, report), made, Accept(0), Push(0)];
    assert !ChecksRan(report.checks, ["make"], Verbatim) by { assert report.checks[0] == "tests"; }
    assert steps[..2] == [Draft(0, report)] + [made];
    ObservedOn([Draft(0, report)], [made]);
    assert [made][..0] == [] && [Draft(0, report)][..0] == [];
    FourSteps(t, Draft(0, report), made, Accept(0), Push(0));
    DraftedFirst(["tests"]);
    hide Drafted, Reached, Observed, ChecksRan;
    var s1 := Next(t, START, Draft(0, report));
    assert s1.calls[0] == Held(report, report, 0);
  }
}
