/**
  What a peer run returns, decided by the last thing that happened in it, and
  what the client takes each of the node's answers for.
 */
module PeerResults {
  import opened Common
  import opened PeerRun
  import opened PeerGuarantees

  // ── the result and the last event ─────────────────────────────────────

  /** What a run that ends with `e` returns. */
  predicate Decides(e: Event, r: Result<Report, Failure>) {
    match e
    case Cancelled(_) => r == Err(TimedOut)
    case Submitted(_, Unreachable) => r == Err(NeverSubmitted)
    case Submitted(_, Status(code)) =>
      r == Err(if code == 422 then Refused else if code in {401, 403} then TokenRefused else Rejected(code))
    case Polled(_, Status(code)) => r == Err(if code in {401, 403} then TokenRefused else NoResult)
    case Polled(_, Unreachable) => r == Err(NoResult)
    case Submitted(_, Good(v)) => ViewDecides(v, r)
    case Polled(_, Good(v)) => ViewDecides(v, r)
  }

  /** A done task's report, a failed one's if its error is typed, and nothing else of a task that is over. */
  predicate ViewDecides(v: View, r: Result<Report, Failure>) {
    if v.status == "done" then r == (if v.report.Some? then Ok(v.report.value) else Err(TextOnly))
    else if v.status == "failed" && v.report.Some? && v.report.value.typedError then r == Ok(v.report.value)
    else if v.status == "failed" || v.status == "cancelled" then r == Err(Ended(v.status))
    else r == Err(NoResult)
  }

  /** Between turns the last event brought the task as the run holds it, or nothing that ends a run. */
  predicate Open(trace: seq<Event>, task: View) {
    trace != [] &&
    match trace[|trace| - 1]
    case Submitted(_, Good(v)) => v == task
    case Polled(_, Good(v)) => v == task
    case Polled(_, Status(code)) => code !in {401, 403, 404} && !IsTerminal(task)
    case Polled(_, Unreachable) => !IsTerminal(task)
    case _ => false
  }

  ghost predicate Decided(trace: seq<Event>, r: Result<Report, Failure>) {
    trace != [] && Decides(trace[|trace| - 1], r)
  }

  lemma {:induction false} SubmitDecided(cfg: Config, node: Node, run: string, c: Client, deadline: nat)
    requires cfg.poll > 0
    ensures var (c', r) := Submit(cfg, node, run, c, deadline);
      && (r.Ok? ==> Open(c'.trace, r.value))
      && (r.Err? ==> Decided(c'.trace, Err(r.error)))
    decreases deadline + cfg.poll - c.now
  {
    var sent := Asked(c, node, Submitted(run, ReplyTo(c, node)));
    assert sent.trace[|sent.trace| - 1] == Submitted(run, ReplyTo(c, node));
    if ReplyTo(c, node).Unreachable? && sent.now < deadline {
      SubmitDecided(cfg, node, run, sent.(now := sent.now + cfg.poll), deadline);
    }
  }

  lemma {:induction false} TurnDecided(
    cfg: Config, node: Node, run: string, c: Client, task: View, unreachable: bool, deadline: nat)
    requires cfg.poll > 0 && Open(c.trace, task)
    ensures var t := TakeTurn(cfg, node, run, c, task, unreachable, deadline);
      && (t.On? ==> Open(t.c.trace, t.task))
      && (t.Over? ==> Decided(t.c.trace, t.result))
  {
    if !IsTerminal(task) && c.now < deadline {
      if ReplyTo(c, node) == Status(404) {
        LostTurnDecided(cfg, node, run, c, task, unreachable, deadline);
      } else {
        var woken := c.(now := c.now + Min(cfg.poll, deadline - c.now));
        var asked := Asked(woken, node, Polled(task.id, ReplyTo(c, node)));
        assert asked.trace[|asked.trace| - 1] == Polled(task.id, ReplyTo(c, node));
        hide Submit;
      }
    }
  }

  lemma {:induction false} LostTurnDecided(
    cfg: Config, node: Node, run: string, c: Client, task: View, unreachable: bool, deadline: nat)
    requires cfg.poll > 0 && !IsTerminal(task) && c.now < deadline && ReplyTo(c, node) == Status(404)
    ensures var t := TakeTurn(cfg, node, run, c, task, unreachable, deadline);
      && (t.On? ==> Open(t.c.trace, t.task))
      && (t.Over? ==> Decided(t.c.trace, t.result))
  {
    hide TakeTurn, Submit, Open, Decided;
    var asked := LostTurn(cfg, node, run, c, task, unreachable, deadline);
    SubmitDecided(cfg, node, run, asked, deadline);
  }

  lemma {:induction false} PollDecided(
    cfg: Config, node: Node, run: string, c: Client, task: View, unreachable: bool, deadline: nat)
    requires cfg.poll > 0 && Open(c.trace, task)
    ensures var (c', r) := Poll(cfg, node, run, c, task, unreachable, deadline);
      Decided(c'.trace, r)
    decreases deadline - c.now
  {
    TurnDecided(cfg, node, run, c, task, unreachable, deadline);
    PollTurns(cfg, node, run, c, task, unreachable, deadline);
    var t := TakeTurn(cfg, node, run, c, task, unreachable, deadline);
    hide Poll, Open, Decided;
    if t.On? { PollDecided(cfg, node, run, t.c, t.task, t.unreachable, deadline); }
  }

  /**
    The last event decides the result, both ways: a terminal view its report
    or its failure, a refused request its refusal, a cancel the timeout, and
    anything else that the run ended out of touch.
   */
  lemma {:induction false} ResultByLastEvent(cfg: Config, node: Node, run: string, c: Client)
    requires cfg.poll > 0 && c.trace == []
    ensures var (c', r) := Run(cfg, node, run, c);
      Decided(c'.trace, r)
  {
    hide Submit, Poll, Open, Decided;
    var deadline := c.now + cfg.timeout;
    SubmitDecided(cfg, node, run, c, deadline);
    var (sent, view) := Submit(cfg, node, run, c, deadline);
    if view.Ok? { PollDecided(cfg, node, run, sent, view.value, false, deadline); }
  }

  /** Only one result is decided. */
  lemma {:induction false} DecidesOnce(e: Event, r: Result<Report, Failure>, other: Result<Report, Failure>)
    requires Decides(e, r) && Decides(e, other)
    ensures r == other
  {
  }

  // ── answers ───────────────────────────────────────────────────────────

  /** What the client takes an answer for: a proxy's error for silence, and an unreadable success for a status. */
  predicate Takes(raw: Raw, reply: Reply) {
    match raw
    case NoAnswer => reply == Unreachable
    case Http(status, body) =>
      if 200 <= status <= 299 && body.Some? then reply == Good(body.value)
      else if status == 502 || status == 503 || status == 504 then reply == Unreachable
      else reply == Status(status)
  }

  /** The i-th event is about the i-th request. */
  ghost predicate InStep(c: Client, node: Node) {
    c.requests == |c.trace|
    && forall i :: 0 <= i < |c.trace| ==> c.trace[i].Cancelled? || Takes(node(i).0, c.trace[i].reply)
  }

  lemma {:induction false} AskedInStep(c: Client, node: Node, event: Event)
    requires InStep(c, node) && (event.Cancelled? || event.reply == ReplyTo(c, node))
    ensures InStep(Asked(c, node, event), node)
  {
    var more := c.trace + [event];
    assert forall i :: 0 <= i < |c.trace| ==> more[i] == c.trace[i];
  }

  lemma {:induction false} SubmitInStep(cfg: Config, node: Node, run: string, c: Client, deadline: nat)
    requires cfg.poll > 0 && InStep(c, node)
    ensures InStep(Submit(cfg, node, run, c, deadline).0, node)
    decreases deadline + cfg.poll - c.now
  {
    var sent := Asked(c, node, Submitted(run, ReplyTo(c, node)));
    AskedInStep(c, node, Submitted(run, ReplyTo(c, node)));
    if ReplyTo(c, node).Unreachable? && sent.now < deadline {
      SubmitInStep(cfg, node, run, sent.(now := sent.now + cfg.poll), deadline);
    }
  }

  lemma {:induction false} TurnInStep(
    cfg: Config, node: Node, run: string, c: Client, task: View, unreachable: bool, deadline: nat)
    requires cfg.poll > 0 && InStep(c, node)
    ensures InStep(TakeTurn(cfg, node, run, c, task, unreachable, deadline).c, node)
  {
    var woken := c.(now := c.now + Min(cfg.poll, Max(deadline - c.now, 0)));
    var event := Polled(task.id, ReplyTo(c, node));
    assert InStep(woken, node) && InStep(Forgotten(c, run), node);
    AskedInStep(woken, node, event);
    AskedInStep(Forgotten(c, run), node, Cancelled(task.id));
    SubmitInStep(cfg, node, run, Asked(woken, node, event), deadline);
    hide Submit;
  }

  lemma {:induction false} PollInStep(
    cfg: Config, node: Node, run: string, c: Client, task: View, unreachable: bool, deadline: nat)
    requires cfg.poll > 0 && InStep(c, node)
    ensures InStep(Poll(cfg, node, run, c, task, unreachable, deadline).0, node)
    decreases deadline - c.now
  {
    TurnInStep(cfg, node, run, c, task, unreachable, deadline);
    PollTurns(cfg, node, run, c, task, unreachable, deadline);
    var t := TakeTurn(cfg, node, run, c, task, unreachable, deadline);
    hide Poll, InStep;
    if t.On? { PollInStep(cfg, node, run, t.c, t.task, t.unreachable, deadline); }
  }

  /** Every reply a run acts on is the node's answer to that request, taken as that. */
  lemma {:induction false} RepliesAreTheNodes(cfg: Config, node: Node, run: string, c: Client)
    requires cfg.poll > 0 && c.trace == [] && c.requests == 0
    ensures InStep(Run(cfg, node, run, c).0, node)
  {
    var deadline := c.now + cfg.timeout;
    assert InStep(c, node);
    hide Submit, Poll, InStep;
    SubmitInStep(cfg, node, run, c, deadline);
    var (sent, view) := Submit(cfg, node, run, c, deadline);
    if view.Ok? { PollInStep(cfg, node, run, sent, view.value, false, deadline); }
  }
}
