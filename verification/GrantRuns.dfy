/**
  Any number of callers, a clock and a revoker use one grant. Each lock
  section is one atomic step, and so is everything a caller does between two
  of them, so a run is any list of steps in any order; a step that is not
  possible where the run stands changes nothing.
 */
module GrantRuns {
  import opened Common
  import opened Grants

  /** What a caller of `McpGrants::call` is finally told. */
  datatype Answer =
    | Refused(why: CallError)
    | Success
    | Failure
    | Stopped      // ran past the tool's cap on a grant still live
    | Abandoned    // the request was dropped: nobody is told

  datatype Phase =
    | Resolved(id: string, name: string)
    | Running(tool: string, until: nat)
    | Dropped
    | Answered(answer: Answer)

  /**
    A grant with its surroundings. `owners[i]` made `grant.calls[i]`; `holder`
    made the call in flight; `admitted` are the callers admission let through,
    `busy` counts those it refused as busy; `endedBy` ended the run.
   */
  datatype System = System(
    now: nat,
    mapped: bool,
    revoked: bool,
    grant: State,
    callers: map<nat, Phase>,
    owners: seq<nat>,
    holder: Option<nat>,
    admitted: set<nat>,
    busy: nat,
    endedBy: Option<nat>)

  const START := System(0, true, false, FRESH, map[], [], None, {}, 0, None)

  datatype Step =
    | Tick(elapsed: nat)
    | Resolve(c: nat, id: string, name: string)
    | Enter(c: nat, available: set<string>, cap: nat)
    | Finish(c: nat, result: ToolResult)
    | Stop(c: nat)
    | Reply(c: nat)
    | Abandon(c: nat)
    | Greeting(list: bool)
    | Unmap
    | SealNow
    | Signal

  predicate IsRunning(s: System, c: nat) {
    c in s.callers && s.callers[c].Running?
  }

  /** The holder's call ends with `outcome`, by itself or by its guard being dropped. */
  function Settled(s: System, c: nat, outcome: CallOutcome, summary: Option<string>, next: Phase): System
    requires IsRunning(s, c)
  {
    var (grant, recorded) := Settle(s.grant, s.callers[c].tool, outcome, summary);
    s.(grant := grant,
       callers := s.callers[c := next],
       owners := if recorded then s.owners + [c] else s.owners,
       holder := None,
       endedBy := if recorded && summary.Some? then Some(c) else s.endedBy)
  }

  function Entered(t: Terms, s: System, c: nat, available: set<string>, cap: nat): System
    requires c in s.callers && s.callers[c].Resolved?
  {
    var name := s.callers[c].name;
    var (grant, refusal) := Admit(t, s.grant, s.now, s.callers[c].id, name, available);
    match refusal
    case None =>
      s.(grant := grant, holder := Some(c), admitted := s.admitted + {c},
         callers := s.callers[c := Running(name, Min(t.deadline, s.now + cap))])
    case Some(why) =>
      s.(grant := grant,
         callers := s.callers[c := Answered(Refused(why))],
         owners := if why.NotGranted? then s.owners + [c] else s.owners,
         busy := if why.Busy? then s.busy + 1 else s.busy)
  }

  /** `call` after its tool ran: settled, and answered by whether that was recorded. */
  function Finished(s: System, c: nat, result: ToolResult): System
    requires IsRunning(s, c)
  {
    var told := if s.grant.isSealed then Refused(Cancelled) else if Good(result) then Success else Failure;
    Settled(s, c, if Good(result) then Done else Failed, EndSummary(result), Answered(told))
  }

  function Abandoning(s: System, c: nat): System
    requires c in s.callers
  {
    match s.callers[c]
    case Answered(_) => s
    case Running(_, _) => Settled(s, c, Ambiguous, None, Answered(Abandoned))
    case _ => s.(callers := s.callers[c := Answered(Abandoned)])
  }

  function Sealed(s: System): System {
    s.(grant := Seal(s.grant),
       owners := if !s.grant.isSealed && s.holder.Some? then s.owners + [s.holder.value] else s.owners,
       holder := None)
  }

  function Next(t: Terms, s: System, step: Step): System {
    match step
    case Tick(elapsed) => s.(now := s.now + elapsed)
    case Resolve(c, id, name) =>
      if c in s.callers then s
      else if s.mapped && IsLive(t, s.grant, s.now) then s.(callers := s.callers[c := Resolved(id, name)])
      else s.(callers := s.callers[c := Answered(Refused(NotLive))])
    case Enter(c, available, cap) =>
      if c in s.callers && s.callers[c].Resolved? then Entered(t, s, c, available, cap) else s
    case Finish(c, result) => if IsRunning(s, c) then Finished(s, c, result) else s
    case Stop(c) =>
      if IsRunning(s, c) && (s.revoked || s.now >= s.callers[c].until)
      then Settled(s, c, Ambiguous, None, Dropped) else s
    case Reply(c) =>
      if c in s.callers && s.callers[c].Dropped?
      then s.(callers := s.callers[c := Answered(
                if IsLive(t, s.grant, s.now) then Stopped else Refused(Cancelled))])
      else s
    case Abandon(c) => if c in s.callers then Abandoning(s, c) else s
    case Greeting(list) => s.(grant := Handshake(s.grant, list, s.now))
    case Unmap => s.(mapped := false)
    case SealNow => Sealed(s)
    case Signal => if s.grant.isSealed then s.(revoked := true) else s
  }

  function Run(t: Terms, s: System, steps: seq<Step>): System
    decreases |steps|
  {
    if steps == [] then s else Run(t, Next(t, s, steps[0]), steps[1..])
  }

  // ── the invariant ─────────────────────────────────────────────────────

  /** The observation a caller's own call left, given where that caller stands. */
  predicate Matches(p: Phase, outcome: CallOutcome) {
    match p
    case Resolved(_, _) => false
    case Running(_, _) => outcome.Ambiguous?
    case Dropped => outcome.Ambiguous?
    case Answered(Success) => outcome.Done?
    case Answered(Failure) => outcome.Failed?
    case Answered(Stopped) => outcome.Ambiguous?
    case Answered(Abandoned) => outcome.Ambiguous?
    case Answered(Refused(why)) =>
      if why.NotGranted? then outcome.Denied? else why.Cancelled? && outcome.Ambiguous?
  }

  /** At most one call runs, and it holds the grant until it is sealed. */
  ghost predicate OneHolder(s: System) {
    && (s.holder.Some? <==> s.grant.inFlight.Some?)
    && (s.holder.Some? ==>
          IsRunning(s, s.holder.value) && s.grant.inFlight == Some(s.callers[s.holder.value].tool))
    && (forall c, d :: IsRunning(s, c) && IsRunning(s, d) ==> c == d)
    && (forall c :: IsRunning(s, c) ==> c in s.admitted && (s.grant.isSealed || s.holder == Some(c)))
  }

  /** Who made each observation: nobody twice, and everyone admitted but the holder. */
  ghost predicate Owned(s: System) {
    && |s.owners| == |s.grant.calls|
    && (forall i, j :: 0 <= i < j < |s.owners| ==> s.owners[i] != s.owners[j])
    && (forall i :: 0 <= i < |s.owners| ==>
          s.owners[i] in s.callers && Matches(s.callers[s.owners[i]], s.grant.calls[i].outcome))
    && (forall i :: 0 <= i < |s.owners| ==> (s.owners[i] in s.admitted <==> !s.grant.calls[i].outcome.Denied?))
    && (forall c :: c in s.admitted ==> c in s.callers && (c in s.owners <==> s.holder != Some(c)))
    && (s.holder.Some? ==> s.holder.value !in s.owners)
  }

  predicate WasAdmitted(p: Phase) {
    p.Dropped? || p in {Answered(Success), Answered(Failure), Answered(Stopped), Answered(Refused(Cancelled))}
  }

  /** A caller told of success or failure, or stopped, had been admitted. */
  ghost predicate Answers(s: System) {
    && (forall c :: c in s.callers && s.callers[c].Resolved? ==> c !in s.admitted)
    && (forall c :: c in s.callers && WasAdmitted(s.callers[c]) ==> c in s.admitted)
    && (forall c :: c in s.callers && s.callers[c] == Answered(Refused(NotGranted)) ==> c in s.owners)
  }

  /** A run that ended was ended by the last call recorded, and nothing runs. */
  ghost predicate EndedWell(s: System) {
    && (s.endedBy.Some? <==> s.grant.ended.Some?)
    && (s.grant.ended.Some? ==>
          && (forall c :: !IsRunning(s, c))
          && |s.owners| > 0 && |s.grant.calls| == |s.owners|
          && s.endedBy == Some(s.owners[|s.owners| - 1])
          && s.grant.calls[|s.owners| - 1].outcome == Done)
  }

  ghost predicate Invariant(t: Terms, s: System) {
    && Accounted(t, s.grant, s.busy)
    && OneHolder(s)
    && Owned(s)
    && Answers(s)
    && EndedWell(s)
  }

  lemma SettledKeeps(t: Terms, s: System, c: nat, outcome: CallOutcome, summary: Option<string>, next: Phase)
    requires Invariant(t, s) && IsRunning(s, c)
    requires outcome != Denied
    requires Matches(next, if s.grant.isSealed then Ambiguous else outcome)
    requires next.Dropped? || next.Answered?
    requires summary.Some? ==> outcome == Done
    ensures Invariant(t, Settled(s, c, outcome, summary, next))
  {
    var s' := Settled(s, c, outcome, summary, next);
    assert forall d :: IsRunning(s', d) ==> d != c && IsRunning(s, d);
    if s.grant.isSealed {
      assert c in s.owners;
    } else {
      assert s.holder == Some(c);
    }
  }

  /** A caller that never held the grant moves on, and the grant does not change. */
  lemma MovedKeeps(t: Terms, s: System, c: nat, next: Phase)
    requires Invariant(t, s)
    requires !IsRunning(s, c) && !next.Running?
    requires c in s.owners ==> next.Answered? && Matches(next, Ambiguous) && s.callers[c].Dropped?
    requires c in s.admitted ==> c in s.owners
    requires c !in s.admitted ==> !WasAdmitted(next) && next != Answered(Refused(NotGranted))
    ensures Invariant(t, s.(callers := s.callers[c := next]))
  {
    var s' := s.(callers := s.callers[c := next]);
    assert forall d :: IsRunning(s', d) <==> IsRunning(s, d);
  }

  /** A call outside the grant spends its id and is recorded as denied. */
  lemma DeniedKeeps(t: Terms, s: System, c: nat, id: string, name: string)
    requires Invariant(t, s) && c in s.callers && s.callers[c].Resolved?
    requires !s.grant.isSealed && s.grant.ended.None? && s.grant.attempts < t.quota && id !in s.grant.ids
    ensures Invariant(t, s.(
      grant := s.grant.(ids := s.grant.ids + {id}, attempts := s.grant.attempts + 1,
                        calls := s.grant.calls + [CallObservation(Shown(name), Denied)]),
      callers := s.callers[c := Answered(Refused(NotGranted))],
      owners := s.owners + [c]))
  {
    var s' := s.(
      grant := s.grant.(ids := s.grant.ids + {id}, attempts := s.grant.attempts + 1,
                        calls := s.grant.calls + [CallObservation(Shown(name), Denied)]),
      callers := s.callers[c := Answered(Refused(NotGranted))],
      owners := s.owners + [c]);
    assert c !in s.owners;
    assert forall d :: IsRunning(s', d) <==> IsRunning(s, d);
  }

  /** A call refused as busy spends its id and leaves no observation. */
  lemma BusyKeeps(t: Terms, s: System, id: string)
    requires Invariant(t, s)
    requires s.grant.attempts < t.quota && id !in s.grant.ids
    ensures Invariant(t, s.(
      grant := s.grant.(ids := s.grant.ids + {id}, attempts := s.grant.attempts + 1),
      busy := s.busy + 1))
  {
    var s' := s.(
      grant := s.grant.(ids := s.grant.ids + {id}, attempts := s.grant.attempts + 1),
      busy := s.busy + 1);
    assert forall d :: IsRunning(s', d) <==> IsRunning(s, d);
  }

  lemma AdmittedKeeps(t: Terms, s: System, c: nat, available: set<string>, cap: nat)
    requires Invariant(t, s) && c in s.callers && s.callers[c].Resolved?
    requires Admit(t, s.grant, s.now, s.callers[c].id, s.callers[c].name, available).1.None?
    ensures Invariant(t, Entered(t, s, c, available, cap))
  {
    var s' := Entered(t, s, c, available, cap);
    assert c !in s.owners;
    assert forall d :: IsRunning(s', d) <==> d == c;
  }

  lemma {:induction false} ResolvedIsNew(t: Terms, s: System, c: nat)
    requires Invariant(t, s) && c in s.callers && s.callers[c].Resolved?
    ensures c !in s.owners && c !in s.admitted && !IsRunning(s, c)
  {
  }

  lemma {:induction false} RefusalKeeps(t: Terms, s: System, c: nat, why: CallError)
    requires Invariant(t, s) && c in s.callers && s.callers[c].Resolved?
    requires !why.NotGranted? && !why.Cancelled?
    ensures Invariant(t, s.(callers := s.callers[c := Answered(Refused(why))]))
  {
    ResolvedIsNew(t, s, c);
    hide Invariant;
    MovedKeeps(t, s, c, Answered(Refused(why)));
  }

  /** What a refusal other than a denial changes: the answer, and the count if the grant was busy. */
  lemma {:induction false} RefusedIs(t: Terms, s: System, c: nat, available: set<string>, cap: nat, why: CallError)
    requires c in s.callers && s.callers[c].Resolved? && !why.NotGranted?
    requires Admit(t, s.grant, s.now, s.callers[c].id, s.callers[c].name, available).1 == Some(why)
    ensures !why.Cancelled?
    ensures var moved := s.(callers := s.callers[c := Answered(Refused(why))]);
      var id := s.callers[c].id;
      && (!why.Busy? ==> Entered(t, s, c, available, cap) == moved)
      && (why.Busy? ==>
            && s.grant.attempts < t.quota && id !in s.grant.ids
            && Entered(t, s, c, available, cap) == moved.(
                 grant := s.grant.(ids := s.grant.ids + {id}, attempts := s.grant.attempts + 1),
                 busy := s.busy + 1))
  {
  }

  lemma {:induction false} RefusedKeeps(t: Terms, s: System, c: nat, available: set<string>, cap: nat, why: CallError)
    requires Invariant(t, s) && c in s.callers && s.callers[c].Resolved?
    requires Admit(t, s.grant, s.now, s.callers[c].id, s.callers[c].name, available).1 == Some(why)
    requires !why.NotGranted?
    ensures Invariant(t, Entered(t, s, c, available, cap))
  {
    RefusedIs(t, s, c, available, cap, why);
    hide Entered, Admit, Invariant;
    if why.Busy? { BusyRefusalKeeps(t, s, c); } else { RefusalKeeps(t, s, c, why); }
  }

  lemma {:induction false} BusyRefusalKeeps(t: Terms, s: System, c: nat)
    requires Invariant(t, s) && c in s.callers && s.callers[c].Resolved?
    requires s.grant.attempts < t.quota && s.callers[c].id !in s.grant.ids
    ensures var id := s.callers[c].id;
      Invariant(t, s.(
        callers := s.callers[c := Answered(Refused(Busy))],
        grant := s.grant.(ids := s.grant.ids + {id}, attempts := s.grant.attempts + 1),
        busy := s.busy + 1))
  {
    hide Invariant;
    RefusalKeeps(t, s, c, Busy);
    BusyKeeps(t, s.(callers := s.callers[c := Answered(Refused(Busy))]), s.callers[c].id);
  }

  lemma EnteredKeeps(t: Terms, s: System, c: nat, available: set<string>, cap: nat)
    requires Invariant(t, s) && c in s.callers && s.callers[c].Resolved?
    ensures Invariant(t, Entered(t, s, c, available, cap))
  {
    var Resolved(id, name) := s.callers[c];
    match Admit(t, s.grant, s.now, id, name, available).1
    case None => AdmittedKeeps(t, s, c, available, cap);
    case Some(why) =>
      if why.NotGranted? {
        DeniedKeeps(t, s, c, id, name);
      } else {
        RefusedKeeps(t, s, c, available, cap, why);
      }
  }

  lemma SealedKeeps(t: Terms, s: System)
    requires Invariant(t, s)
    ensures Invariant(t, Sealed(s))
  {
    var s' := Sealed(s);
    assert forall d :: IsRunning(s', d) <==> IsRunning(s, d);
    if !s.grant.isSealed && s.holder.Some? {
      assert s'.owners == s.owners + [s.holder.value];
    }
  }

  lemma SurroundingsKeep(t: Terms, s: System, s': System)
    requires Invariant(t, s)
    requires s' == s.(now := s'.now, mapped := s'.mapped, revoked := s'.revoked, grant := s'.grant)
    requires s'.grant == s.grant.(initialized := s'.grant.initialized, listed := s'.grant.listed,
                                  connected := s'.grant.connected)
    ensures Invariant(t, s')
  {
    assert forall d :: IsRunning(s', d) <==> IsRunning(s, d);
  }

  /** A running call ends, however it does. */
  lemma {:induction false} EndingKeeps(t: Terms, s: System, step: Step)
    requires Invariant(t, s)
    requires step.Finish? || step.Stop? || step.Abandon?
    requires IsRunning(s, step.c)
    ensures Invariant(t, Next(t, s, step))
  {
    hide Settled, Invariant;
    match step
    case Finish(c, result) => FinishKeeps(t, s, c, result);
    case Stop(c) => DropKeeps(t, s, c, Dropped);
    case Abandon(c) => DropKeeps(t, s, c, Answered(Abandoned));
  }

  lemma {:induction false} FinishKeeps(t: Terms, s: System, c: nat, result: ToolResult)
    requires Invariant(t, s) && IsRunning(s, c)
    ensures Invariant(t, Finished(s, c, result))
  {
    var told := if s.grant.isSealed then Refused(Cancelled) else if Good(result) then Success else Failure;
    SettledKeeps(t, s, c, if Good(result) then Done else Failed, EndSummary(result), Answered(told));
  }

  lemma {:induction false} DropKeeps(t: Terms, s: System, c: nat, next: Phase)
    requires Invariant(t, s) && IsRunning(s, c) && next in {Dropped, Answered(Abandoned)}
    ensures Invariant(t, Settled(s, c, Ambiguous, None, next))
  {
    SettledKeeps(t, s, c, Ambiguous, None, next);
  }

  /** A caller that is not running moves on without touching the grant. */
  lemma MovingKeeps(t: Terms, s: System, step: Step)
    requires Invariant(t, s)
    requires step.Resolve? || step.Reply? || step.Abandon?
    requires !IsRunning(s, step.c)
    ensures Invariant(t, Next(t, s, step))
  {
    match step
    case Resolve(c, id, name) =>
      if c !in s.callers {
        assert c !in s.owners;
        MovedKeeps(t, s, c, if s.mapped && IsLive(t, s.grant, s.now) then Resolved(id, name)
                            else Answered(Refused(NotLive)));
      }
    case Reply(c) =>
      if c in s.callers && s.callers[c].Dropped? {
        MovedKeeps(t, s, c, Answered(if IsLive(t, s.grant, s.now) then Stopped else Refused(Cancelled)));
      }
    case Abandon(c) =>
      if c in s.callers && !s.callers[c].Answered? { MovedKeeps(t, s, c, Answered(Abandoned)); }
  }

  lemma NextKeeps(t: Terms, s: System, step: Step)
    requires Invariant(t, s)
    ensures Invariant(t, Next(t, s, step))
  {
    if step.Tick? || step.Greeting? || step.Unmap? || step.Signal? {
      SurroundingsKeep(t, s, Next(t, s, step));
    } else if step.SealNow? {
      SealedKeeps(t, s);
    } else if IsRunning(s, step.c) {
      if step.Finish? || step.Stop? || step.Abandon? { EndingKeeps(t, s, step); }
    } else if step.Enter? {
      if step.c in s.callers && s.callers[step.c].Resolved? {
        EnteredKeeps(t, s, step.c, step.available, step.cap);
      }
    } else if step.Resolve? || step.Reply? || step.Abandon? {
      MovingKeeps(t, s, step);
    }
  }

  lemma {:induction false} RunKeeps(t: Terms, s: System, steps: seq<Step>)
    requires Invariant(t, s)
    ensures Invariant(t, Run(t, s, steps))
    decreases |steps|
  {
    if steps != [] {
      NextKeeps(t, s, steps[0]);
      RunKeeps(t, Next(t, s, steps[0]), steps[1..]);
    }
  }

  /** What any run of a newly minted grant reaches. */
  function Reached(t: Terms, steps: seq<Step>): System {
    Run(t, START, steps)
  }

  lemma {:induction false} ReachedKeeps(t: Terms, steps: seq<Step>)
    ensures Invariant(t, Reached(t, steps))
  {
    RunKeeps(t, START, steps);
  }

  // ── what every run keeps ──────────────────────────────────────────────

  /**
    Conservation: observations, the call in flight and the busy refusals are
    together the attempts, which are the distinct ids used, within the quota;
    and at most one call is ever running.
   */
  lemma Conservation(t: Terms, steps: seq<Step>)
    ensures var s := Reached(t, steps);
      && |s.grant.calls| + (if s.grant.inFlight.Some? then 1 else 0) + s.busy == s.grant.attempts
      && s.grant.attempts == |s.grant.ids| <= t.quota
      && (forall c, d :: IsRunning(s, c) && IsRunning(s, d) ==> c == d)
  {
    RunKeeps(t, START, steps);
  }

  /**
    Admission: wherever a run stands, a waiting caller is let through exactly
    when the grant is live, its run not ended, the quota unspent, the id new,
    the tool granted and available, and no caller's call running; the id is
    spent unless one of the first four failed.
   */
  lemma {:induction false} AdmittedExactlyWhen(t: Terms, steps: seq<Step>, c: nat, available: set<string>, cap: nat)
    requires c in Reached(t, steps).callers && Reached(t, steps).callers[c].Resolved?
    ensures var s := Reached(t, steps);
      var s' := Next(t, s, Enter(c, available, cap));
      var Resolved(id, name) := s.callers[c];
      var counted := !s.grant.isSealed && s.now < t.deadline && s.grant.ended.None?
                     && s.grant.attempts < t.quota && id !in s.grant.ids;
      && (c in s'.admitted <==>
            counted && name in t.tools && name in available && forall d :: !IsRunning(s, d))
      && s'.grant.ids == (if counted then s.grant.ids + {id} else s.grant.ids)
  {
    RunKeeps(t, START, steps);
    var s := Reached(t, steps);
    FreeExactlyWhenNoneRuns(s);
    ResolvedIsNew(t, s, c);
    EnteringAdmits(t, s, c, available, cap);
    hide Invariant, Run, Next;
  }

  lemma {:induction false} EnteringAdmits(t: Terms, s: System, c: nat, available: set<string>, cap: nat)
    requires c in s.callers && s.callers[c].Resolved? && c !in s.admitted
    ensures var s' := Next(t, s, Enter(c, available, cap));
      var Resolved(id, name) := s.callers[c];
      var counted := !s.grant.isSealed && s.now < t.deadline && s.grant.ended.None?
                     && s.grant.attempts < t.quota && id !in s.grant.ids;
      && (c in s'.admitted <==> counted && name in t.tools && name in available && s.grant.inFlight.None?)
      && s'.grant.ids == (if counted then s.grant.ids + {id} else s.grant.ids)
  {
  }

  lemma FreeExactlyWhenNoneRuns(s: System)
    requires OneHolder(s)
    ensures !s.grant.isSealed ==> (s.grant.inFlight.None? <==> forall d :: !IsRunning(s, d))
  {
    if s.holder.Some? { assert IsRunning(s, s.holder.value); }
  }

  /**
    Every admitted call has exactly one observation once it no longer holds
    the grant, and none before; it is the outcome its caller was told of, and
    ambiguous when it was dropped or the grant was sealed under it.
   */
  lemma OneObservationEach(t: Terms, steps: seq<Step>, c: nat)
    requires c in Reached(t, steps).admitted
    ensures var s := Reached(t, steps);
      && c in s.callers
      && multiset(s.owners)[c] == (if s.holder == Some(c) then 0 else 1)
      && (forall i :: 0 <= i < |s.owners| && s.owners[i] == c ==>
            i < |s.grant.calls| && Matches(s.callers[c], s.grant.calls[i].outcome))
  {
    RunKeeps(t, START, steps);
    Occurrences(Reached(t, steps).owners, c);
  }

  lemma {:induction false} Occurrences(xs: seq<nat>, x: nat)
    requires forall i, j :: 0 <= i < j < |xs| ==> xs[i] != xs[j]
    ensures multiset(xs)[x] == (if x in xs then 1 else 0)
  {
    if xs != [] {
      var last := |xs| - 1;
      assert xs == xs[..last] + [xs[last]];
      Occurrences(xs[..last], x);
    }
  }

  /** A caller is told of success exactly when the record holds a success for its call. */
  lemma ToldExactlyWhatIsRecorded(t: Terms, steps: seq<Step>, c: nat)
    ensures var s := Reached(t, steps);
      ToldSuccess(s, c)
      <==> (exists i :: 0 <= i < |s.owners| && i < |s.grant.calls|
              && s.owners[i] == c && s.grant.calls[i].outcome == Done)
  {
    RunKeeps(t, START, steps);
    var s := Reached(t, steps);
    if c in s.callers && s.callers[c] == Answered(Success) {
      assert c in s.owners;
      var i :| 0 <= i < |s.owners| && s.owners[i] == c;
      assert Matches(s.callers[c], s.grant.calls[i].outcome);
    }
  }

  // ── sealing ───────────────────────────────────────────────────────────

  predicate ToldSuccess(s: System, c: nat) {
    c in s.callers && s.callers[c] == Answered(Success)
  }

  /** What one step can do to a sealed grant: nothing to its record, its admissions or its successes. */
  lemma SealedStep(t: Terms, s: System, step: Step)
    requires s.grant.isSealed
    ensures var s' := Next(t, s, step);
      s'.grant.isSealed && Record(s'.grant) == Record(s.grant) && s'.admitted == s.admitted
  {
  }

  lemma SealedSuccess(t: Terms, s: System, step: Step, c: nat)
    requires s.grant.isSealed
    ensures ToldSuccess(Next(t, s, step), c) <==> ToldSuccess(s, c)
  {
  }

  lemma {:induction false} SealedStays(t: Terms, s: System, steps: seq<Step>, c: nat)
    requires s.grant.isSealed
    ensures Run(t, s, steps).grant.isSealed
    ensures Record(Run(t, s, steps).grant) == Record(s.grant)
    ensures Run(t, s, steps).admitted == s.admitted
    ensures ToldSuccess(Run(t, s, steps), c) <==> ToldSuccess(s, c)
    decreases |steps|
  {
    if steps != [] {
      SealedStep(t, s, steps[0]);
      SealedSuccess(t, s, steps[0], c);
      SealedStays(t, Next(t, s, steps[0]), steps[1..], c);
    }
  }

  /**
    The record `finish` returns is final: whatever runs after the grant is
    sealed, the second sealing that dropping the handle does included, the
    record is the one the first sealing returned, no caller is admitted, and
    no caller is told of a success it had not been told of by then.
   */
  lemma SealingIsFinal(t: Terms, before: seq<Step>, after: seq<Step>, c: nat)
    ensures var first := Run(t, Reached(t, before), [SealNow]);
      var last := Run(t, first, after);
      && Record(Sealed(last).grant) == Record(last.grant) == Record(first.grant)
      && last.admitted == first.admitted
      && (ToldSuccess(last, c) <==> ToldSuccess(first, c))
  {
    var s := Reached(t, before);
    RunKeeps(t, START, before);
    var first := Run(t, s, [SealNow]);
    assert first == Next(t, s, SealNow) by {
      assert [SealNow][1..] == [];
    }
    SealedKeeps(t, s);
    SealedStays(t, first, after, c);
  }

  /** A result that arrives after sealing leaves no trace, and its caller is told it was cancelled. */
  lemma LateResultIsCancelled(t: Terms, steps: seq<Step>, c: nat, result: ToolResult)
    requires IsRunning(Reached(t, steps), c) && Reached(t, steps).grant.isSealed
    ensures var s := Reached(t, steps);
      var s' := Next(t, s, Finish(c, result));
      && s'.callers[c] == Answered(Refused(Cancelled))
      && s'.grant == s.grant && s'.owners == s.owners
      && multiset(s'.owners)[c] == 1
  {
    RunKeeps(t, START, steps);
    Occurrences(Reached(t, steps).owners, c);
  }

  // ── the call that ends the run ────────────────────────────────────────

  lemma EndedStep(t: Terms, s: System, step: Step)
    requires OneHolder(s) && EndedWell(s) && s.grant.ended.Some?
    ensures var s' := Next(t, s, step);
      && s'.grant.ended == s.grant.ended
      && s'.grant.calls == s.grant.calls
      && s'.owners == s.owners
      && s'.endedBy == s.endedBy
      && s'.admitted == s.admitted
  {
    assert s.holder.None?;
    if step.Finish? || step.Stop? || step.Abandon? { assert !IsRunning(s, step.c); }
  }

  lemma {:induction false} EndedStays(t: Terms, s: System, steps: seq<Step>)
    requires Invariant(t, s) && s.grant.ended.Some?
    ensures var s' := Run(t, s, steps);
      && s'.grant.ended == s.grant.ended
      && s'.grant.calls == s.grant.calls
      && s'.owners == s.owners
      && s'.endedBy == s.endedBy
      && s'.admitted == s.admitted
    decreases |steps|
  {
    if steps != [] {
      NextKeeps(t, s, steps[0]);
      EndedStep(t, s, steps[0]);
      EndedStays(t, Next(t, s, steps[0]), steps[1..]);
    }
  }

  /**
    Once a call has ended the run, its summary stands for good, no call is
    admitted, and nothing is recorded after it: the last observation is that
    call's success, whatever was refused while it ran or sealed since.
   */
  lemma {:induction false} EndIsFinal(t: Terms, before: seq<Step>, after: seq<Step>)
    requires Reached(t, before).grant.ended.Some?
    ensures var s := Reached(t, before);
      var s' := Run(t, s, after);
      && s'.grant.ended == s.grant.ended
      && s'.grant.calls == s.grant.calls && s'.admitted == s.admitted
      && |s'.owners| == |s'.grant.calls| > 0
      && s'.grant.calls[|s'.grant.calls| - 1].outcome == Done
      && s'.endedBy == s.endedBy == Some(s'.owners[|s'.owners| - 1])
      && s'.endedBy.value in s'.callers && s'.callers[s'.endedBy.value] == Answered(Success)
  {
    hide Invariant, Run, Reached;
    ReachedKeeps(t, before);
    RunKeeps(t, Reached(t, before), after);
    EndedStays(t, Reached(t, before), after);
    EndedTold(t, Run(t, Reached(t, before), after));
  }

  lemma {:induction false} EndedTold(t: Terms, s: System)
    requires Invariant(t, s) && s.grant.ended.Some?
    ensures |s.owners| == |s.grant.calls| > 0 && s.grant.calls[|s.grant.calls| - 1].outcome == Done
    ensures s.endedBy == Some(s.owners[|s.owners| - 1])
    ensures s.endedBy.value in s.callers && s.callers[s.endedBy.value] == Answered(Success)
  {
    var last := |s.owners| - 1;
    assert Matches(s.callers[s.owners[last]], s.grant.calls[last].outcome);
  }

  /**
    The finished call that reports an end summary sets it for good: in every
    continuation that is the summary, that call is the last one recorded, its
    caller has been told of success, and nobody is admitted after it.
   */
  lemma {:induction false} EndingCallEndsTheRun(
    t: Terms, before: seq<Step>, c: nat, result: ToolResult, after: seq<Step>)
    requires IsRunning(Reached(t, before), c) && !Reached(t, before).grant.isSealed
    requires EndSummary(result).Some?
    ensures var s := Reached(t, before + [Finish(c, result)]);
      var s' := Run(t, s, after);
      && s'.grant.ended == EndSummary(result) && s'.grant.calls == s.grant.calls && s'.admitted == s.admitted
      && |s'.owners| == |s'.grant.calls| > 0
      && s'.owners[|s'.owners| - 1] == c && s'.grant.calls[|s'.grant.calls| - 1].outcome == Done
      && c in s'.callers && s'.callers[c] == Answered(Success)
  {
    var s := Reached(t, before);
    RunOn(t, START, before, Finish(c, result));
    var ended := Next(t, s, Finish(c, result));
    assert ended.grant.ended == EndSummary(result) && ended.endedBy == Some(c);
    hide Run, Next;
    EndIsFinal(t, before + [Finish(c, result)], after);
  }

  lemma {:induction false} RunOn(t: Terms, s: System, steps: seq<Step>, step: Step)
    ensures Run(t, s, steps + [step]) == Next(t, Run(t, s, steps), step)
    decreases |steps|
  {
    if steps == [] {
      assert steps + [step] == [step] && [step][1..] == [];
    } else {
      assert (steps + [step])[1..] == steps[1..] + [step];
      RunOn(t, Next(t, s, steps[0]), steps[1..], step);
    }
  }

  // ── a read-only review's grant ────────────────────────────────────────

  lemma ToollessStep(t: Terms, s: System, step: Step)
    requires t.tools == {}
    ensures Next(t, s, step).admitted == s.admitted
  {
  }

  lemma {:induction false} NothingAdmitted(t: Terms, s: System, steps: seq<Step>)
    requires t.tools == {}
    ensures Run(t, s, steps).admitted == s.admitted
    decreases |steps|
  {
    if steps != [] {
      ToollessStep(t, s, steps[0]);
      NothingAdmitted(t, Next(t, s, steps[0]), steps[1..]);
    }
  }

  /** A review's grant runs nothing, whatever tools it was given: all it can record is denials. */
  lemma ReviewRunsNothing(tools: set<string>, deadline: nat, quota: nat, steps: seq<Step>)
    ensures var s := Reached(Mint(tools, true, deadline, quota), steps);
      && s.admitted == {} && s.grant.inFlight == None
      && (forall i :: 0 <= i < |s.grant.calls| ==> s.grant.calls[i].outcome == Denied)
  {
    var t := Mint(tools, true, deadline, quota);
    RunKeeps(t, START, steps);
    NothingAdmitted(t, START, steps);
    var s := Reached(t, steps);
    forall i | 0 <= i < |s.grant.calls|
      ensures s.grant.calls[i].outcome == Denied
    {
      assert s.owners[i] !in s.admitted;
    }
  }
}
