/** What a peer run keeps against every node, and three runs worth knowing. PeerTiming has how late it can end. */
module PeerGuarantees {
  import opened Common
  import opened PeerRun

  // ── one run id, and only a terminal view's report ─────────────────────

  predicate SendsOnly(trace: seq<Event>, run: string) {
    forall i :: 0 <= i < |trace| ==> (trace[i].Submitted? ==> trace[i].run == run)
  }

  function ViewOf(e: Event): Option<View> {
    if !e.Cancelled? && e.reply.Good? then Some(e.reply.view) else None
  }

  predicate LastViewIs(trace: seq<Event>, v: View) {
    trace != [] && ViewOf(trace[|trace| - 1]) == Some(v)
  }

  lemma {:induction false} SubmitSends(cfg: Config, node: Node, run: string, c: Client, deadline: nat)
    requires cfg.poll > 0 && SendsOnly(c.trace, run)
    ensures var (c', r) := Submit(cfg, node, run, c, deadline);
      SendsOnly(c'.trace, run) && (r.Ok? ==> LastViewIs(c'.trace, r.value))
    decreases deadline + cfg.poll - c.now
  {
    var sent := Asked(c, node, Submitted(run, ReplyTo(c, node)));
    if ReplyTo(c, node).Unreachable? && sent.now < deadline {
      SubmitSends(cfg, node, run, sent.(now := sent.now + cfg.poll), deadline);
    }
  }

  lemma {:induction false} TurnSends(
    cfg: Config, node: Node, run: string, c: Client, task: View, unreachable: bool, deadline: nat)
    requires cfg.poll > 0 && SendsOnly(c.trace, run) && (IsTerminal(task) ==> LastViewIs(c.trace, task))
    ensures var t := TakeTurn(cfg, node, run, c, task, unreachable, deadline);
      && SendsOnly(t.c.trace, run)
      && (t.Over? && t.result.Ok? ==> LastViewIs(t.c.trace, task) && Outcome(task) == t.result)
      && (t.On? && IsTerminal(t.task) ==> LastViewIs(t.c.trace, t.task))
  {
    if !IsTerminal(task) && c.now < deadline && ReplyTo(c, node) == Status(404) {
      var woken := c.(now := c.now + Min(cfg.poll, deadline - c.now));
      SubmitSends(cfg, node, run, Asked(woken, node, Polled(task.id, ReplyTo(c, node))), deadline);
    }
  }

  lemma {:induction false} PollSends(
    cfg: Config, node: Node, run: string, c: Client, task: View, unreachable: bool, deadline: nat)
    requires cfg.poll > 0 && SendsOnly(c.trace, run) && (IsTerminal(task) ==> LastViewIs(c.trace, task))
    ensures var (c', r) := Poll(cfg, node, run, c, task, unreachable, deadline);
      && SendsOnly(c'.trace, run)
      && (r.Ok? ==> exists v :: LastViewIs(c'.trace, v) && Outcome(v) == r)
    decreases deadline - c.now
  {
    TurnSends(cfg, node, run, c, task, unreachable, deadline);
    var t := TakeTurn(cfg, node, run, c, task, unreachable, deadline);
    if t.On? { PollSends(cfg, node, run, t.c, t.task, t.unreachable, deadline); }
  }

  /**
    Every submission of a run carries its run id, and a report is returned
    only when the last thing the node said was the terminal view that holds
    it: done, or failed with a typed error.
   */
  lemma {:induction false} ReportIsTheNodes(cfg: Config, node: Node, run: string, c: Client)
    requires cfg.poll > 0 && c.trace == []
    ensures var (c', r) := Run(cfg, node, run, c);
      && SendsOnly(c'.trace, run)
      && (r.Ok? ==>
            && c'.trace != [] && ViewOf(c'.trace[|c'.trace| - 1]).Some?
            && var v := ViewOf(c'.trace[|c'.trace| - 1]).value;
            && v.report == Some(r.value)
            && (v.status == "done" || (v.status == "failed" && r.value.typedError)))
  {
    hide Submit, Poll, SendsOnly;
    var deadline := c.now + cfg.timeout;
    SubmitSends(cfg, node, run, c, deadline);
    var (sent, view) := Submit(cfg, node, run, c, deadline);
    if view.Ok? { PollSends(cfg, node, run, sent, view.value, false, deadline); }
  }

  // ── cancelling at the deadline ────────────────────────────────────────

  /** The last poll that got a view or no answer got no answer. */
  function LostTouch(trace: seq<Event>): bool {
    if trace == [] then false
    else
      match trace[|trace| - 1]
      case Polled(_, Unreachable) => true
      case Polled(_, Good(_)) => false
      case _ => LostTouch(trace[..|trace| - 1])
  }

  predicate Cancels(trace: seq<Event>) {
    exists i :: 0 <= i < |trace| && trace[i].Cancelled?
  }

  lemma {:induction false} TouchGrows(trace: seq<Event>, e: Event)
    ensures LostTouch(trace + [e]) ==
      if e.Polled? && e.reply.Unreachable? then true
      else if e.Polled? && e.reply.Good? then false
      else LostTouch(trace)
    ensures Cancels(trace + [e]) <==> Cancels(trace) || e.Cancelled?
  {
    var more := trace + [e];
    assert more[..|more| - 1] == trace;
    assert more[|trace|] == e;
    assert forall i :: 0 <= i < |trace| ==> more[i] == trace[i];
  }

  lemma {:induction false} SubmitKeepsTouch(cfg: Config, node: Node, run: string, c: Client, deadline: nat)
    requires cfg.poll > 0 && !Cancels(c.trace)
    ensures var c' := Submit(cfg, node, run, c, deadline).0;
      LostTouch(c'.trace) == LostTouch(c.trace) && !Cancels(c'.trace)
    decreases deadline + cfg.poll - c.now
  {
    var sent := Asked(c, node, Submitted(run, ReplyTo(c, node)));
    TouchGrows(c.trace, Submitted(run, ReplyTo(c, node)));
    if ReplyTo(c, node).Unreachable? && sent.now < deadline {
      SubmitKeepsTouch(cfg, node, run, sent.(now := sent.now + cfg.poll), deadline);
    }
  }

  lemma {:induction false} TurnCancels(
    cfg: Config, node: Node, run: string, c: Client, task: View, unreachable: bool, deadline: nat)
    requires cfg.poll > 0 && !Cancels(c.trace) && unreachable == LostTouch(c.trace)
    ensures var t := TakeTurn(cfg, node, run, c, task, unreachable, deadline);
      && (t.On? ==> !Cancels(t.c.trace) && t.unreachable == LostTouch(t.c.trace))
      && (t.Over? ==>
            && (t.result in {Err(TimedOut), Err(NoResult)} ==> (Cancels(t.c.trace) <==> !LostTouch(t.c.trace)))
            && (t.result == Err(TimedOut) <==> Cancels(t.c.trace)))
  {
    if !IsTerminal(task) && c.now < deadline {
      var woken := c.(now := c.now + Min(cfg.poll, deadline - c.now));
      var asked := Asked(woken, node, Polled(task.id, ReplyTo(c, node)));
      TouchGrows(c.trace, Polled(task.id, ReplyTo(c, node)));
      if ReplyTo(c, node) == Status(404) { LostTurnCancels(cfg, node, run, c, task, unreachable, deadline); }
      hide Submit, LostTouch, Cancels;
    } else {
      TouchGrows(c.trace, Cancelled(task.id));
      hide LostTouch, Cancels;
    }
  }

  /** The turn that finds the task lost is the resubmission's. */
  lemma {:induction false} LostTurn(
    cfg: Config, node: Node, run: string, c: Client, task: View, unreachable: bool, deadline: nat)
    returns (asked: Client)
    requires cfg.poll > 0 && !IsTerminal(task) && c.now < deadline && ReplyTo(c, node) == Status(404)
    ensures asked.trace == c.trace + [Polled(task.id, Status(404))] && asked.tasks == c.tasks
    ensures asked.now == c.now + Min(cfg.poll, deadline - c.now) + node(c.requests).1
    ensures asked.requests == c.requests + 1
    ensures var (again, view) := Submit(cfg, node, run, asked, deadline);
      TakeTurn(cfg, node, run, c, task, unreachable, deadline)
      == if view.Err? then Over(again, Err(view.error)) else On(again, view.value, unreachable)
  {
    hide Submit;
    asked := Asked(c.(now := c.now + Min(cfg.poll, deadline - c.now)), node, Polled(task.id, ReplyTo(c, node)));
  }

  /** It sends no cancel and leaves the touch as it was. */
  lemma {:induction false} LostTurnCancels(
    cfg: Config, node: Node, run: string, c: Client, task: View, unreachable: bool, deadline: nat)
    requires cfg.poll > 0 && !Cancels(c.trace) && unreachable == LostTouch(c.trace)
    requires !IsTerminal(task) && c.now < deadline && ReplyTo(c, node) == Status(404)
    ensures var t := TakeTurn(cfg, node, run, c, task, unreachable, deadline);
      && !Cancels(t.c.trace) && LostTouch(t.c.trace) == unreachable
      && (t.On? ==> t.unreachable == unreachable)
      && (t.Over? ==> t.result != Err(TimedOut) && t.result != Err(NoResult))
  {
    hide TakeTurn, Submit, LostTouch, Cancels, IsTerminal, ReplyTo;
    var asked := LostTurn(cfg, node, run, c, task, unreachable, deadline);
    TouchGrows(c.trace, Polled(task.id, Status(404)));
    SubmitKeepsTouch(cfg, node, run, asked, deadline);
    SubmitFailures(cfg, node, run, asked, deadline);
  }

  lemma {:induction false} PollCancels(
    cfg: Config, node: Node, run: string, c: Client, task: View, unreachable: bool, deadline: nat)
    requires cfg.poll > 0 && !Cancels(c.trace) && unreachable == LostTouch(c.trace)
    ensures var (c', r) := Poll(cfg, node, run, c, task, unreachable, deadline);
      && (r in {Err(TimedOut), Err(NoResult)} ==> (Cancels(c'.trace) <==> !LostTouch(c'.trace)))
      && (r == Err(TimedOut) <==> Cancels(c'.trace))
    decreases deadline - c.now
  {
    TurnCancels(cfg, node, run, c, task, unreachable, deadline);
    var t := TakeTurn(cfg, node, run, c, task, unreachable, deadline);
    if t.On? { PollCancels(cfg, node, run, t.c, t.task, t.unreachable, deadline); }
  }

  lemma {:induction false} SubmitFailures(cfg: Config, node: Node, run: string, c: Client, deadline: nat)
    requires cfg.poll > 0
    ensures var r := Submit(cfg, node, run, c, deadline).1;
      r.Err? ==> r.error in {Refused, TokenRefused, NeverSubmitted} || r.error.Rejected?
    decreases deadline + cfg.poll - c.now
  {
    var sent := Asked(c, node, Submitted(run, ReplyTo(c, node)));
    if ReplyTo(c, node).Unreachable? && sent.now < deadline {
      SubmitFailures(cfg, node, run, sent.(now := sent.now + cfg.poll), deadline);
    }
  }

  /**
    A run that passes its deadline cancels the node's task exactly when no
    poll has gone unanswered since the last poll that brought a view; no other
    run cancels.
   */
  lemma CancelExactlyInTouch(cfg: Config, node: Node, run: string, c: Client)
    requires cfg.poll > 0 && c.trace == []
    ensures var (c', r) := Run(cfg, node, run, c);
      && (r in {Err(TimedOut), Err(NoResult)} ==> (Cancels(c'.trace) <==> !LostTouch(c'.trace)))
      && (r == Err(TimedOut) <==> Cancels(c'.trace))
  {
    var deadline := c.now + cfg.timeout;
    SubmitKeepsTouch(cfg, node, run, c, deadline);
    SubmitFailures(cfg, node, run, c, deadline);
    var (sent, view) := Submit(cfg, node, run, c, deadline);
    if view.Ok? { PollCancels(cfg, node, run, sent, view.value, false, deadline); }
  }

  // ── when it ends ──────────────────────────────────────────────────────

  /** A poll found the task gone. */
  predicate LosesTask(trace: seq<Event>) {
    exists i :: 0 <= i < |trace| && trace[i].Polled? && trace[i].reply == Status(404)
  }

  lemma {:induction false} SubmitEnds(cfg: Config, node: Node, run: string, c: Client, deadline: nat)
    requires Fits(cfg, node)
    ensures var c' := Submit(cfg, node, run, c, deadline).0;
      c'.now <= Max(c.now + cfg.request, deadline + cfg.poll - 1 + cfg.request)
    decreases deadline + cfg.poll - c.now
  {
    var sent := Asked(c, node, Submitted(run, ReplyTo(c, node)));
    assert node(c.requests).1 <= cfg.request;
    if ReplyTo(c, node).Unreachable? && sent.now < deadline {
      SubmitEnds(cfg, node, run, sent.(now := sent.now + cfg.poll), deadline);
    }
  }

  function Cancelling(cfg: Config, r: Result<Report, Failure>): nat {
    if r == Err(TimedOut) then cfg.request else 0
  }

  function LatestByTurn(cfg: Config, deadline: nat): nat {
    deadline + cfg.request + (if cfg.poll > cfg.request then cfg.poll - 1 else cfg.request)
  }

  lemma {:induction false} TurnEnds(
    cfg: Config, node: Node, run: string, c: Client, task: View, unreachable: bool, deadline: nat)
    requires Fits(cfg, node)
    ensures var t := TakeTurn(cfg, node, run, c, task, unreachable, deadline);
      && t.c.now <= Max(c.now, LatestByTurn(cfg, deadline)) + (if t.Over? then Cancelling(cfg, t.result) else 0)
      && (!LosesTask(t.c.trace) ==>
            t.c.now <= Max(c.now, deadline + cfg.request) + (if t.Over? then Cancelling(cfg, t.result) else 0))
  {
    assert node(c.requests).1 <= cfg.request;
    if !IsTerminal(task) && c.now < deadline && ReplyTo(c, node) == Status(404) {
      LostTurnEnds(cfg, node, run, c, task, unreachable, deadline);
    }
  }

  /** The turn that finds the task lost. */
  lemma {:induction false} LostTurnEnds(
    cfg: Config, node: Node, run: string, c: Client, task: View, unreachable: bool, deadline: nat)
    requires Fits(cfg, node) && !IsTerminal(task) && c.now < deadline && ReplyTo(c, node) == Status(404)
    ensures var t := TakeTurn(cfg, node, run, c, task, unreachable, deadline);
      t.c.now <= Max(c.now, LatestByTurn(cfg, deadline)) && LosesTask(t.c.trace)
  {
    hide Submit, TakeTurn;
    assert node(c.requests).1 <= cfg.request;
    var asked := LostTurn(cfg, node, run, c, task, unreachable, deadline);
    SubmitEnds(cfg, node, run, asked, deadline);
    SubmitKeepsTrace(cfg, node, run, asked, deadline);
    var again := Submit(cfg, node, run, asked, deadline).0;
    assert asked.trace[|c.trace|] == Polled(task.id, Status(404));
    assert again.trace[|c.trace|] == again.trace[..|asked.trace|][|c.trace|];
  }

  lemma {:induction false} PollEnds(
    cfg: Config, node: Node, run: string, c: Client, task: View, unreachable: bool, deadline: nat)
    requires Fits(cfg, node)
    ensures var (c', r) := Poll(cfg, node, run, c, task, unreachable, deadline);
      && c'.now <= Max(c.now, LatestByTurn(cfg, deadline)) + Cancelling(cfg, r)
      && (!LosesTask(c'.trace) ==> c'.now <= Max(c.now, deadline + cfg.request) + Cancelling(cfg, r))
    decreases deadline - c.now
  {
    TurnEnds(cfg, node, run, c, task, unreachable, deadline);
    var t := TakeTurn(cfg, node, run, c, task, unreachable, deadline);
    if t.On? {
      PollEnds(cfg, node, run, t.c, t.task, t.unreachable, deadline);
      PollKeepsTrace(cfg, node, run, t.c, t.task, t.unreachable, deadline);
      LosesTaskEarly(t.c.trace, Poll(cfg, node, run, c, task, unreachable, deadline).0.trace);
    }
  }

  lemma LosesTaskEarly(early: seq<Event>, late: seq<Event>)
    requires |late| >= |early| && late[..|early|] == early
    ensures LosesTask(early) ==> LosesTask(late)
  {
    assert forall i :: 0 <= i < |early| ==> late[i] == early[i];
  }

  /**
    Every run ends. It ends within one poll and one request of its deadline,
    plus the request that cancels the task if it sends one, unless the node
    loses the task: then the brief goes again, which takes a request more.
   */
  lemma {:induction false} EndsSoonAfterDeadline(cfg: Config, node: Node, run: string, c: Client)
    requires Fits(cfg, node) && c.trace == []
    ensures var (c', r) := Run(cfg, node, run, c);
      var deadline := c.now + cfg.timeout;
      && c'.now <= deadline + cfg.request + Max(cfg.poll, cfg.request) + Cancelling(cfg, r)
      && (!LosesTask(c'.trace) ==> c'.now <= deadline + cfg.poll + cfg.request + Cancelling(cfg, r))
  {
    assert cfg.poll > 0;
    hide Submit, Poll, LosesTask, Fits;
    var deadline := c.now + cfg.timeout;
    SubmitEnds(cfg, node, run, c, deadline);
    var (sent, view) := Submit(cfg, node, run, c, deadline);
    if view.Ok? { PollEnds(cfg, node, run, sent, view.value, false, deadline); }
  }

  // ── the run-to-task map ───────────────────────────────────────────────

  lemma {:induction false} SubmitTasks(cfg: Config, node: Node, run: string, c: Client, deadline: nat)
    requires cfg.poll > 0
    ensures var (c', r) := Submit(cfg, node, run, c, deadline);
      c'.tasks == if r.Ok? then c.tasks[run := r.value.id] else c.tasks
    decreases deadline + cfg.poll - c.now
  {
    var sent := Asked(c, node, Submitted(run, ReplyTo(c, node)));
    if ReplyTo(c, node).Unreachable? && sent.now < deadline {
      SubmitTasks(cfg, node, run, sent.(now := sent.now + cfg.poll), deadline);
    }
  }

  /** The last event was a submission that failed. */
  predicate FailedSubmission(trace: seq<Event>) {
    trace != [] && trace[|trace| - 1].Submitted? && !trace[|trace| - 1].reply.Good?
  }

  lemma {:induction false} SubmitLast(cfg: Config, node: Node, run: string, c: Client, deadline: nat)
    requires cfg.poll > 0
    ensures var (c', r) := Submit(cfg, node, run, c, deadline);
      && (r.Err? <==> FailedSubmission(c'.trace))
    decreases deadline + cfg.poll - c.now
  {
    var sent := Asked(c, node, Submitted(run, ReplyTo(c, node)));
    if ReplyTo(c, node).Unreachable? && sent.now < deadline {
      SubmitLast(cfg, node, run, sent.(now := sent.now + cfg.poll), deadline);
    }
  }

  lemma {:induction false} TurnTasks(
    cfg: Config, node: Node, run: string, c: Client, task: View, unreachable: bool, deadline: nat)
    requires cfg.poll > 0 && run in c.tasks && !FailedSubmission(c.trace)
    ensures var t := TakeTurn(cfg, node, run, c, task, unreachable, deadline);
      && (t.On? ==> run in t.c.tasks && !FailedSubmission(t.c.trace))
      && (t.Over? ==> (run in t.c.tasks <==> FailedSubmission(t.c.trace)))
      && t.c.tasks - {run} == c.tasks - {run}
  {
    hide Submit;
    if !IsTerminal(task) && c.now < deadline {
      var woken := c.(now := c.now + Min(cfg.poll, deadline - c.now));
      var asked := Asked(woken, node, Polled(task.id, ReplyTo(c, node)));
      SubmitTasks(cfg, node, run, asked, deadline);
      SubmitLast(cfg, node, run, asked, deadline);
    }
  }

  lemma {:induction false} PollTasks(
    cfg: Config, node: Node, run: string, c: Client, task: View, unreachable: bool, deadline: nat)
    requires cfg.poll > 0 && run in c.tasks && !FailedSubmission(c.trace)
    ensures var c' := Poll(cfg, node, run, c, task, unreachable, deadline).0;
      && (run in c'.tasks <==> FailedSubmission(c'.trace))
      && c'.tasks - {run} == c.tasks - {run}
    decreases deadline - c.now
  {
    TurnTasks(cfg, node, run, c, task, unreachable, deadline);
    var t := TakeTurn(cfg, node, run, c, task, unreachable, deadline);
    if t.On? { PollTasks(cfg, node, run, t.c, t.task, t.unreachable, deadline); }
  }

  /** The run's entry outlives it exactly when a resubmission failed; other runs' entries never change. */
  lemma EntryOutlivesFailedResubmission(cfg: Config, node: Node, run: string, c: Client)
    requires cfg.poll > 0 && c.trace == [] && run !in c.tasks
    ensures var c' := Run(cfg, node, run, c).0;
      && (run in c'.tasks <==>
            FailedSubmission(c'.trace) && exists i :: 0 <= i < |c'.trace| && ViewOf(c'.trace[i]).Some?)
      && c'.tasks - {run} == c.tasks
  {
    var deadline := c.now + cfg.timeout;
    SubmitTasks(cfg, node, run, c, deadline);
    SubmitLast(cfg, node, run, c, deadline);
    var (sent, view) := Submit(cfg, node, run, c, deadline);
    assert c.tasks - {run} == c.tasks;
    SubmitSends(cfg, node, run, c, deadline);
    if view.Ok? {
      PollTasks(cfg, node, run, sent, view.value, false, deadline);
      PollKeepsTrace(cfg, node, run, sent, view.value, false, deadline);
      var c' := Run(cfg, node, run, c).0;
      var at := |sent.trace| - 1;
      assert c'.trace[at] == c'.trace[..|sent.trace|][at];
      assert ViewOf(c'.trace[at]).Some?;
    } else {
      SubmitViews(cfg, node, run, c, deadline);
    }
  }

  predicate Viewless(trace: seq<Event>) {
    forall i :: 0 <= i < |trace| ==> ViewOf(trace[i]).None?
  }

  lemma {:induction false} ViewlessGrows(trace: seq<Event>, event: Event)
    requires Viewless(trace) && ViewOf(event).None?
    ensures Viewless(trace + [event])
  {
  }

  /** A submission that fails has brought no view. */
  lemma {:induction false} SubmitViews(cfg: Config, node: Node, run: string, c: Client, deadline: nat)
    requires cfg.poll > 0 && Viewless(c.trace)
    ensures var (c', r) := Submit(cfg, node, run, c, deadline);
      r.Err? ==> Viewless(c'.trace)
    decreases deadline + cfg.poll - c.now
  {
    hide Viewless;
    var event := Submitted(run, ReplyTo(c, node));
    var sent := Asked(c, node, event);
    if !ReplyTo(c, node).Good? {
      ViewlessGrows(c.trace, event);
      if ReplyTo(c, node).Unreachable? && sent.now < deadline {
        SubmitViews(cfg, node, run, sent.(now := sent.now + cfg.poll), deadline);
      }
    }
  }

  lemma {:induction false} SubmitKeepsTrace(cfg: Config, node: Node, run: string, c: Client, deadline: nat)
    requires cfg.poll > 0
    ensures var c' := Submit(cfg, node, run, c, deadline).0;
      |c'.trace| >= |c.trace| && c'.trace[..|c.trace|] == c.trace
    decreases deadline + cfg.poll - c.now
  {
    var sent := Asked(c, node, Submitted(run, ReplyTo(c, node)));
    assert sent.trace[..|c.trace|] == c.trace;
    if ReplyTo(c, node).Unreachable? && sent.now < deadline {
      SubmitKeepsTrace(cfg, node, run, sent.(now := sent.now + cfg.poll), deadline);
      var c' := Submit(cfg, node, run, c, deadline).0;
      assert c'.trace[..|c.trace|] == c'.trace[..|sent.trace|][..|c.trace|];
    }
  }

  lemma {:induction false} TurnKeepsTrace(
    cfg: Config, node: Node, run: string, c: Client, task: View, unreachable: bool, deadline: nat)
    requires cfg.poll > 0
    ensures var t := TakeTurn(cfg, node, run, c, task, unreachable, deadline);
      |t.c.trace| >= |c.trace| && t.c.trace[..|c.trace|] == c.trace
  {
    if !IsTerminal(task) && c.now < deadline && ReplyTo(c, node) == Status(404) {
      var woken := c.(now := c.now + Min(cfg.poll, deadline - c.now));
      var asked := Asked(woken, node, Polled(task.id, ReplyTo(c, node)));
      SubmitKeepsTrace(cfg, node, run, asked, deadline);
      var again := Submit(cfg, node, run, asked, deadline).0;
      assert again.trace[..|c.trace|] == again.trace[..|asked.trace|][..|c.trace|];
    }
  }

  lemma {:induction false} PollKeepsTrace(
    cfg: Config, node: Node, run: string, c: Client, task: View, unreachable: bool, deadline: nat)
    requires cfg.poll > 0
    ensures var c' := Poll(cfg, node, run, c, task, unreachable, deadline).0;
      |c'.trace| >= |c.trace| && c'.trace[..|c.trace|] == c.trace
    decreases deadline - c.now
  {
    TurnKeepsTrace(cfg, node, run, c, task, unreachable, deadline);
    var t := TakeTurn(cfg, node, run, c, task, unreachable, deadline);
    if t.On? {
      PollKeepsTrace(cfg, node, run, t.c, t.task, t.unreachable, deadline);
      var c' := Poll(cfg, node, run, c, task, unreachable, deadline).0;
      assert c'.trace[..|c.trace|] == c'.trace[..|t.c.trace|][..|c.trace|];
    }
  }

  // ── three runs worth knowing ──────────────────────────────────────────

  /** Answers at once with a running task, then loses it as slowly as it may. */
  function LosesAtDeadline(n: nat): (Raw, nat) {
    if n == 1 then (Http(404, None), 30)
    else (Http(200, Some(RUNNING)), if n == 0 then 0 else 30)
  }

  /**
    With the built-in poll of 2 s and request timeout of 30 s, a task lost at
    the deadline keeps the run going three requests past it.
   */
  lemma LateByALostTask(run: string)
    ensures var cfg := Config(1, 2, 30);
      var c := Client(0, 0, [], map[]);
      Fits(cfg, LosesAtDeadline) && Run(cfg, LosesAtDeadline, run, c).0.now == 91 > cfg.timeout + cfg.poll + cfg.request
  {
    var cfg := Config(1, 2, 30);
    var c := Client(0, 0, [], map[]);
    var (c1, v1) := Submit(cfg, LosesAtDeadline, run, c, 1);
    assert v1 == Ok(RUNNING) && c1.now == 0 && c1.requests == 1;
    var asked := Asked(c1.(now := 1), LosesAtDeadline, Polled("t", ReplyTo(c1.(now := 1), LosesAtDeadline)));
    assert asked.now == 31 && asked.requests == 2;
    var (c2, v2) := Submit(cfg, LosesAtDeadline, run, asked, 1);
    assert v2 == Ok(RUNNING) && c2.now == 61 && c2.requests == 3;
    assert Poll(cfg, LosesAtDeadline, run, c2, RUNNING, false, 1).0.now == 91;
  }

  /** Always answers that the task runs, as slowly as it may. */
  function Slow(n: nat): (Raw, nat) {
    (Http(200, Some(RUNNING)), 30)
  }

  /** With nothing lost, the cancel alone takes a run past one poll and one request. */
  lemma LateByTheCancel(run: string)
    ensures var cfg := Config(1, 2, 30);
      var c' := Run(cfg, Slow, run, Client(0, 0, [], map[])).0;
      Fits(cfg, Slow) && !LosesTask(c'.trace) && c'.now == 60 > cfg.timeout + cfg.poll + cfg.request
  {
    var cfg := Config(1, 2, 30);
    var (c1, v1) := Submit(cfg, Slow, run, Client(0, 0, [], map[]), 1);
    assert v1 == Ok(RUNNING) && c1.now == 30;
    assert Poll(cfg, Slow, run, c1, RUNNING, false, 1).0.now == 60;
  }

  /** Is unreachable once, then has lost the task, then has it again. */
  function Forgetful(n: nat): (Raw, nat) {
    if n == 1 then (NoAnswer, 0)
    else if n == 2 then (Http(404, None), 0)
    else if n == 4 then (Http(500, None), 0)
    else (Http(200, Some(RUNNING)), 0)
  }

  /**
    A resubmission brings a good view but does not count as being back in
    touch: the run still ends as unreachable and leaves the new task running.
   */
  lemma {:induction false} ResubmissionIsNotTouch(run: string)
    ensures var c' := Run(Config(3, 1, 0), Forgetful, run, Client(0, 0, [], map[]));
      && c'.1 == Err(NoResult) && !Cancels(c'.0.trace)
      && |c'.0.trace| == 5
      && c'.0.trace[1] == Polled("t", Unreachable)
      && c'.0.trace[3] == Submitted(run, Good(RUNNING))
  {
    var cfg := Config(3, 1, 0);
    var (c1, v1) := Submit(cfg, Forgetful, run, Client(0, 0, [], map[]), 3);
    assert v1 == Ok(RUNNING) && c1.now == 0 && c1.requests == 1;
    var t2 := TakeTurn(cfg, Forgetful, run, c1, RUNNING, false, 3);
    assert t2.On? && t2.task == RUNNING && t2.unreachable && t2.c.now == 1 && t2.c.requests == 2;
    assert c1.trace == [Submitted(run, Good(RUNNING))];
    assert t2.c.trace == c1.trace + [Polled("t", Unreachable)];
    PollTurns(cfg, Forgetful, run, c1, RUNNING, false, 3);
    hide Poll;
    ForgetfulEnds(cfg, run, t2.c);
  }

  lemma {:induction false} PollTurns(
    cfg: Config, node: Node, run: string, c: Client, task: View, unreachable: bool, deadline: nat)
    requires cfg.poll > 0
    ensures var t := TakeTurn(cfg, node, run, c, task, unreachable, deadline);
      Poll(cfg, node, run, c, task, unreachable, deadline)
      == if t.Over? then (t.c, t.result) else Poll(cfg, node, run, t.c, t.task, t.unreachable, deadline)
  {
  }

  /** From its second request on that node loses the task, has it again, and fails to say so. */
  lemma {:induction false} ForgetfulEnds(cfg: Config, run: string, c: Client)
    requires cfg == Config(3, 1, 0) && c.now == 1 && c.requests == 2 && !Cancels(c.trace)
    ensures var (c', r) := Poll(cfg, Forgetful, run, c, RUNNING, true, 3);
      && r == Err(NoResult) && !Cancels(c'.trace)
      && c'.trace == c.trace + [Polled("t", Status(404)), Submitted(run, Good(RUNNING)), Polled("t", Status(500))]
  {
    var asked := LostTurn(cfg, Forgetful, run, c, RUNNING, true, 3);
    var again := Submit(cfg, Forgetful, run, asked, 3).0;
    assert again.now == 2 && again.requests == 4;
    assert again.trace == c.trace + [Polled("t", Status(404))] + [Submitted(run, Good(RUNNING))];
    var t := TakeTurn(cfg, Forgetful, run, again, RUNNING, true, 3);
    assert t.On? && t.task == RUNNING && t.unreachable && t.c.now == 3;
    var last := TakeTurn(cfg, Forgetful, run, t.c, RUNNING, true, 3);
    assert last == Over(Forgotten(t.c, run), Err(NoResult));
    PollTurns(cfg, Forgetful, run, c, RUNNING, true, 3);
    PollTurns(cfg, Forgetful, run, again, RUNNING, true, 3);
    PollTurns(cfg, Forgetful, run, t.c, RUNNING, true, 3);
    hide Poll, Submit, TakeTurn;
    TouchGrows(c.trace, Polled("t", Status(404)));
    TouchGrows(asked.trace, Submitted(run, Good(RUNNING)));
    TouchGrows(again.trace, Polled("t", Status(500)));
  }
}
