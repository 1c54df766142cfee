/**
  What the callers and the bridge of a grant are told in a run: when a finished
  call is a success, why a call is refused, when it is stopped, and since when
  the bridge counts as connected. Stated of the conditions themselves.
 */
module GrantAnswers {
  import opened Common
  import opened Grants
  import opened GrantRuns

  /**
    A finished call: it succeeds if it ends the run, or else if its result
    has no error, is not flagged as one and does not refuse; anything else,
    a tool that raised included, is a failure. That is what its caller is
    told and what the record says, and only an end summary ends the run.
   */
  lemma {:induction false} FinishedCallSays(
    t: Terms, steps: seq<Step>, c: nat, summary: Option<string>, hasError: bool, isError: bool, rejected: bool)
    requires IsRunning(Reached(t, steps), c) && !Reached(t, steps).grant.isSealed
    ensures var s := Reached(t, steps);
      var s' := Next(t, s, Finish(c, Returned(summary, hasError, isError, rejected)));
      var well := summary.Some? || (!hasError && !isError && !rejected);
      && s'.callers == s.callers[c := Answered(if well then Success else Failure)]
      && s'.owners == s.owners + [c]
      && s'.grant.calls == s.grant.calls + [CallObservation(s.callers[c].tool, if well then Done else Failed)]
      && s'.grant.ended == summary && s'.grant.inFlight == None
    ensures var s := Reached(t, steps);
      var s' := Next(t, s, Finish(c, Raised));
      && s'.callers == s.callers[c := Answered(Failure)]
      && s'.owners == s.owners + [c]
      && s'.grant.calls == s.grant.calls + [CallObservation(s.callers[c].tool, Failed)]
      && s'.grant.ended == None && s'.grant.inFlight == None
  {
    ReachedKeeps(t, steps);
    NobodyRunsAfterTheEnd(t, Reached(t, steps), c);
    hide Invariant;
  }

  lemma {:induction false} NobodyRunsAfterTheEnd(t: Terms, s: System, c: nat)
    requires Invariant(t, s) && IsRunning(s, c)
    ensures s.grant.ended == None
  {
  }

  /** Why a waiting caller is refused: each reason has its own condition, and the first that holds is told. */
  lemma {:induction false} RefusedExactlyWhy(t: Terms, steps: seq<Step>, c: nat, available: set<string>, cap: nat)
    requires c in Reached(t, steps).callers && Reached(t, steps).callers[c].Resolved?
    ensures var s := Reached(t, steps);
      var s' := Next(t, s, Enter(c, available, cap));
      var Resolved(id, name) := s.callers[c];
      c in s'.callers && s'.callers[c] ==
        if s.grant.isSealed || s.now >= t.deadline then Answered(Refused(NotLive))
        else if s.grant.ended.Some? then Answered(Refused(CallError.Ended))
        else if s.grant.attempts >= t.quota then Answered(Refused(QuotaSpent))
        else if id in s.grant.ids then Answered(Refused(RepeatedId))
        else if name !in t.tools || name !in available then Answered(Refused(NotGranted))
        else if exists d :: IsRunning(s, d) then Answered(Refused(Busy))
        else Running(name, if t.deadline <= s.now + cap then t.deadline else s.now + cap)
    ensures var s := Reached(t, steps);
      var s' := Next(t, s, Enter(c, available, cap));
      var name := s.callers[c].name;
      s'.grant.calls ==
        if s'.callers[c] == Answered(Refused(NotGranted))
        then s.grant.calls + [CallObservation(if |name| <= 80 then name else name[..80], Denied)]
        else s.grant.calls
  {
    ReachedKeeps(t, steps);
    var s := Reached(t, steps);
    FreeExactlyWhenNoneRuns(s);
    var name := s.callers[c].name;
    assert |name| <= 80 ==> name[..|name|] == name;
    hide Invariant, Reached;
  }

  /**
    A running call is stopped exactly when the grant was revoked or the call's
    time is up; the record then says ambiguous unless it was sealed before,
    and the caller is told of a stop on a live grant and of a cancellation on
    any other.
   */
  lemma {:induction false} StoppedExactlyWhen(t: Terms, steps: seq<Step>, c: nat)
    requires IsRunning(Reached(t, steps), c)
    ensures var s := Reached(t, steps);
      var s' := Next(t, s, Stop(c));
      && (s'.callers[c] == Dropped <==> s.revoked || s.now >= s.callers[c].until)
      && (s'.callers[c] != Dropped ==> s' == s)
      && (s'.callers[c] == Dropped ==>
            && s'.grant.calls == (
                 if s.grant.isSealed then s.grant.calls
                 else s.grant.calls + [CallObservation(s.callers[c].tool, Ambiguous)])
            && Next(t, s', Reply(c)).callers[c] == Answered(
                 if !s.grant.isSealed && s.now < t.deadline then Stopped else Refused(Cancelled)))
  {
    hide Reached;
  }

  // ── the bridge's handshake ────────────────────────────────────────────

  /** At step `k` the second half of the handshake arrived, or either came again, on a grant not yet sealed. */
  predicate Shook(t: Terms, steps: seq<Step>, k: nat) {
    && k < |steps| && steps[k].Greeting? && !Reached(t, steps[..k]).grant.isSealed
    && Greeting(true) in steps[..k + 1] && Greeting(false) in steps[..k + 1]
  }

  lemma {:induction false} ReachedOn(t: Terms, steps: seq<Step>)
    requires steps != []
    ensures var n := |steps| - 1;
      Reached(t, steps) == Next(t, Reached(t, steps[..n]), steps[n])
  {
    var n := |steps| - 1;
    RunOn(t, START, steps[..n], steps[n]);
    assert steps[..n] + [steps[n]] == steps;
  }

  lemma {:induction false} HalvesSeen(t: Terms, steps: seq<Step>)
    ensures Reached(t, steps).grant.initialized <==> Greeting(false) in steps
    ensures Reached(t, steps).grant.listed <==> Greeting(true) in steps
  {
    if steps != [] {
      var n := |steps| - 1;
      HalvesSeen(t, steps[..n]);
      ReachedOn(t, steps);
      assert steps == steps[..n] + [steps[n]];
      HalvesKept(t, Reached(t, steps[..n]), steps[n]);
      hide Next;
    }
  }

  lemma {:induction false} HalvesKept(t: Terms, s: System, step: Step)
    ensures var s' := Next(t, s, step).grant;
      && (s'.initialized <==> s.grant.initialized || step == Greeting(false))
      && (s'.listed <==> s.grant.listed || step == Greeting(true))
      && s'.connected ==
           if step.Greeting? && s'.initialized && s'.listed && s.grant.connected.None? && !s.grant.isSealed
           then Some(s.now) else s.grant.connected
  {
    hide Entered, Settled, Sealed;
    match step
    case Enter(c, available, cap) =>
      if c in s.callers && s.callers[c].Resolved? { EnteringKeepsHalves(t, s, c, available, cap); }
    case Finish(c, result) => if IsRunning(s, c) { FinishingKeepsHalves(s, c, result); }
    case Stop(c) => if IsRunning(s, c) { SettlingKeepsHalves(s, c, Ambiguous, None, Dropped); }
    case Abandon(c) => if IsRunning(s, c) { SettlingKeepsHalves(s, c, Ambiguous, None, Answered(Abandoned)); }
    case SealNow => SealingKeepsHalves(s);
    case _ =>
  }

  predicate SameHalves(a: State, b: State) {
    a.initialized == b.initialized && a.listed == b.listed && a.connected == b.connected
  }

  lemma {:induction false} EnteringKeepsHalves(t: Terms, s: System, c: nat, available: set<string>, cap: nat)
    requires c in s.callers && s.callers[c].Resolved?
    ensures SameHalves(s.grant, Entered(t, s, c, available, cap).grant)
  {
  }

  lemma {:induction false} SettlingKeepsHalves(
    s: System, c: nat, outcome: CallOutcome, summary: Option<string>, next: Phase)
    requires IsRunning(s, c)
    ensures SameHalves(s.grant, Settled(s, c, outcome, summary, next).grant)
  {
  }

  lemma {:induction false} FinishingKeepsHalves(s: System, c: nat, result: ToolResult)
    requires IsRunning(s, c)
    ensures SameHalves(s.grant, Finished(s, c, result).grant)
  {
  }

  lemma {:induction false} SealingKeepsHalves(s: System)
    ensures SameHalves(s.grant, Sealed(s).grant)
  {
  }

  lemma {:induction false} ShookBefore(t: Terms, steps: seq<Step>, k: nat)
    requires k + 1 < |steps|
    ensures Shook(t, steps, k) <==> Shook(t, steps[..|steps| - 1], k)
    ensures steps[..|steps| - 1][..k] == steps[..k]
  {
    var front := steps[..|steps| - 1];
    assert front[..k] == steps[..k] && front[..k + 1] == steps[..k + 1] && front[k] == steps[k];
  }

  /** At step `k` for the first time, with the clock at `at`. */
  ghost predicate ShookFirst(t: Terms, steps: seq<Step>, k: nat, at: nat) {
    Shook(t, steps, k) && at == Reached(t, steps[..k]).now && forall j: nat :: j < k ==> !Shook(t, steps, j)
  }

  /** The bridge is connected from the first moment both halves were seen on an unsealed grant, and not before. */
  lemma {:induction false} ConnectedExactlyWhen(t: Terms, steps: seq<Step>)
    ensures match Reached(t, steps).grant.connected
      case None => forall k: nat :: !Shook(t, steps, k)
      case Some(at) => exists k: nat :: ShookFirst(t, steps, k, at)
  {
    if steps == [] {
      assert forall k: nat :: !Shook(t, steps, k);
    } else {
      var n := |steps| - 1;
      var front := steps[..n];
      ConnectedExactlyWhen(t, front);
      ReachedOn(t, steps);
      HalvesKept(t, Reached(t, front), steps[n]);
      HalvesSeen(t, steps);
      assert steps[..n + 1] == steps;
      hide Next, Reached;
      forall k: nat | k < n
        ensures Shook(t, steps, k) <==> Shook(t, front, k)
      {
        ShookBefore(t, steps, k);
      }
      var before := Reached(t, front).grant.connected;
      if before.Some? {
        var k: nat :| ShookFirst(t, front, k, before.value);
        ShookBefore(t, steps, k);
        assert ShookFirst(t, steps, k, before.value);
      } else if Shook(t, steps, n) {
        assert ShookFirst(t, steps, n, Reached(t, front).now);
      } else {
        assert forall k: nat :: !Shook(t, steps, k);
      }
    }
  }
}
