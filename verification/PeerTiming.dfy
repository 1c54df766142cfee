/**
  How late a peer run can end (crates/rustykrab-agent/src/peer_worker.rs,
  `submit` and `run`): the exact worst case of every configuration, over every
  node whose requests end within the client's own timeout, and from it exactly
  which configurations always end within one poll and one request of the
  deadline.
 */
module PeerTiming {
  import opened Common
  import opened PeerRun

  /** How many whole polls fit strictly before the deadline. */
  function Polls(cfg: Config): nat
    requires cfg.poll > 0 && cfg.timeout > 0
  {
    (cfg.timeout - 1) / cfg.poll
  }

  /** The last moment before the deadline a submission can go unanswered: two requests a poll, and the first. */
  function LastMiss(cfg: Config): nat
    requires cfg.poll > 0 && cfg.timeout > 0
  {
    Min(cfg.timeout - 1, Polls(cfg) * cfg.poll + (2 * Polls(cfg) + 1) * cfg.request)
  }

  /** The latest a run can be over, by its result or by being at its deadline, before it cancels. */
  function Latest(cfg: Config): nat
    requires cfg.poll > 0 && cfg.timeout > 0
  {
    Max(cfg.timeout + 2 * cfg.request, LastMiss(cfg) + cfg.poll + cfg.request)
  }

  /** How long after its start a run can last. */
  function WorstEnd(cfg: Config): nat
    requires cfg.poll > 0
  {
    if cfg.timeout == 0 then 2 * cfg.request else Latest(cfg) + cfg.request
  }

  // ── no run lasts longer ───────────────────────────────────────────────

  /** `t` is `m` polls and at most `2 * m + extra` requests after the start. */
  predicate Span(cfg: Config, m: nat, extra: int, t: nat) {
    m * cfg.poll <= t <= m * cfg.poll + (2 * m + extra) * cfg.request
  }

  lemma {:induction false} SpanAsks(cfg: Config, m: nat, extra: int, t: nat, took: nat)
    requires Span(cfg, m, extra, t) && took <= cfg.request
    ensures Span(cfg, m, extra + 1, t + took)
  {
    assert (2 * m + extra + 1) * cfg.request == (2 * m + extra) * cfg.request + cfg.request;
  }

  lemma {:induction false} SpanSleeps(cfg: Config, m: nat, extra: int, t: nat)
    requires Span(cfg, m, extra, t)
    ensures Span(cfg, m + 1, extra - 2, t + cfg.poll)
  {
    assert (m + 1) * cfg.poll == m * cfg.poll + cfg.poll;
    assert 2 * (m + 1) + (extra - 2) == 2 * m + extra;
  }

  lemma {:induction false} SpanGrows(cfg: Config, m: nat, extra: int, more: int, t: nat)
    requires Span(cfg, m, extra, t) && extra <= more
    ensures Span(cfg, m, more, t)
  {
    assert (2 * m + more) * cfg.request == (2 * m + extra) * cfg.request + (more - extra) * cfg.request;
    assert (more - extra) * cfg.request >= 0;
  }

  lemma {:induction false} Scaled(a: nat, b: nat, k: nat)
    requires a <= b
    ensures a * k <= b * k
  {
    assert b * k == a * k + (b - a) * k;
  }

  lemma {:induction false} MissIsEarly(cfg: Config, m: nat, t: nat)
    requires cfg.poll > 0 && Span(cfg, m, 1, t) && t < cfg.timeout
    ensures t <= LastMiss(cfg)
  {
    var n := Polls(cfg);
    assert (n + 1) * cfg.poll == n * cfg.poll + cfg.poll;
    if m > n { Scaled(n + 1, m, cfg.poll); }
    assert m <= n;
    Scaled(m, n, cfg.poll);
    Scaled(2 * m + 1, 2 * n + 1, cfg.request);
  }

  /** A submission made at or after the deadline is the last request. */
  lemma {:induction false} SubmitAtEnd(cfg: Config, node: Node, run: string, c: Client, deadline: nat)
    requires Fits(cfg, node) && c.now >= deadline
    ensures c.now <= Submit(cfg, node, run, c, deadline).0.now <= c.now + cfg.request
  {
    assert node(c.requests).1 <= cfg.request;
  }

  /** A submission ends by `Latest`, and a task it brings before the deadline comes within its span. */
  lemma {:induction false} SubmitBy(
    cfg: Config, node: Node, run: string, c: Client, start: nat, m: nat)
    returns (m': nat)
    requires Fits(cfg, node) && start <= c.now < start + cfg.timeout && Span(cfg, m, 0, c.now - start)
    ensures var c' := Submit(cfg, node, run, c, start + cfg.timeout).0;
      && start <= c'.now <= start + Latest(cfg)
      && (c'.now < start + cfg.timeout ==> Span(cfg, m', 1, c'.now - start))
    decreases start + cfg.timeout - c.now
  {
    hide Span, LastMiss, Polls;
    var deadline := start + cfg.timeout;
    var sent := Asked(c, node, Submitted(run, ReplyTo(c, node)));
    assert node(c.requests).1 <= cfg.request;
    assert cfg.poll > 0;
    hide Fits;
    SpanAsks(cfg, m, 0, c.now - start, node(c.requests).1);
    m' := m;
    if ReplyTo(c, node).Unreachable? && sent.now < deadline {
      MissIsEarly(cfg, m, sent.now - start);
      var slept := sent.(now := sent.now + cfg.poll);
      if slept.now >= deadline {
        SubmitAtEnd(cfg, node, run, slept, deadline);
      } else {
        SpanSleeps(cfg, m, 1, sent.now - start);
        SpanGrows(cfg, m + 1, -1, 0, slept.now - start);
        m' := SubmitBy(cfg, node, run, slept, start, m + 1);
      }
    }
  }

  /** One turn before the deadline. */
  lemma {:induction false} TurnBy(
    cfg: Config, node: Node, run: string, c: Client, task: View, unreachable: bool, start: nat, m: nat)
    returns (m': nat)
    requires Fits(cfg, node) && start <= c.now < start + cfg.timeout && Span(cfg, m, 1, c.now - start)
    ensures var t := TakeTurn(cfg, node, run, c, task, unreachable, start + cfg.timeout);
      && start <= t.c.now <= start + Latest(cfg)
      && (t.On? && t.c.now < start + cfg.timeout ==> Span(cfg, m', 1, t.c.now - start))
  {
    hide Span, Submit, LastMiss;
    var deadline := start + cfg.timeout;
    m' := m + 1;
    if !IsTerminal(task) {
      var woken := c.(now := c.now + Min(cfg.poll, deadline - c.now));
      var asked := Asked(woken, node, Polled(task.id, ReplyTo(c, node)));
      assert node(c.requests).1 <= cfg.request;
      if asked.now >= deadline {
        SubmitAtEnd(cfg, node, run, asked, deadline);
      } else {
        SpanSleeps(cfg, m, 1, c.now - start);
        SpanAsks(cfg, m + 1, -1, woken.now - start, node(c.requests).1);
        SpanGrows(cfg, m + 1, 0, 1, asked.now - start);
        if ReplyTo(c, node) == Status(404) { m' := SubmitBy(cfg, node, run, asked, start, m + 1); }
      }
    }
  }

  lemma {:induction false} PollBy(
    cfg: Config, node: Node, run: string, c: Client, task: View, unreachable: bool, start: nat, m: nat)
    requires Fits(cfg, node) && cfg.timeout > 0 && start <= c.now <= start + Latest(cfg)
    requires c.now < start + cfg.timeout ==> Span(cfg, m, 1, c.now - start)
    ensures Poll(cfg, node, run, c, task, unreachable, start + cfg.timeout).0.now <= start + Latest(cfg) + cfg.request
    decreases start + cfg.timeout - c.now
  {
    hide Span, Latest;
    if c.now < start + cfg.timeout {
      var m' := TurnBy(cfg, node, run, c, task, unreachable, start, m);
      var t := TakeTurn(cfg, node, run, c, task, unreachable, start + cfg.timeout);
      hide TakeTurn;
      if t.On? { PollBy(cfg, node, run, t.c, t.task, t.unreachable, start, m'); }
    } else {
      assert node(c.requests).1 <= cfg.request;
    }
  }

  /** Every run, against every node, is over by the worst case. */
  lemma {:induction false} EndsByWorstCase(cfg: Config, node: Node, run: string, c: Client)
    requires Fits(cfg, node)
    ensures Run(cfg, node, run, c).0.now <= c.now + WorstEnd(cfg)
  {
    hide Run, Latest;
    if cfg.timeout == 0 { EndsAtOnce(cfg, node, run, c); } else { EndsAfterDeadline(cfg, node, run, c); }
  }

  lemma {:induction false} EndsAfterDeadline(cfg: Config, node: Node, run: string, c: Client)
    requires Fits(cfg, node) && cfg.timeout > 0
    ensures Run(cfg, node, run, c).0.now <= c.now + Latest(cfg) + cfg.request
  {
    assert cfg.poll > 0;
    hide Submit, Poll, Latest, LastMiss, Polls, Fits, Span;
    SpanStarts(cfg);
    var m := SubmitBy(cfg, node, run, c, c.now, 0);
    var (sent, view) := Submit(cfg, node, run, c, c.now + cfg.timeout);
    if view.Ok? { PollBy(cfg, node, run, sent, view.value, false, c.now, m); }
  }

  lemma {:induction false} EndsAtOnce(cfg: Config, node: Node, run: string, c: Client)
    requires Fits(cfg, node) && cfg.timeout == 0
    ensures Run(cfg, node, run, c).0.now <= c.now + 2 * cfg.request
  {
    assert cfg.poll > 0;
    hide Submit, Poll, Fits;
    SubmitAtEnd(cfg, node, run, c, c.now);
    var (sent, view) := Submit(cfg, node, run, c, c.now);
    if view.Ok? { PollAtEnd(cfg, node, run, sent, view.value, c.now); }
  }

  lemma {:induction false} SpanStarts(cfg: Config)
    ensures Span(cfg, 0, 0, 0)
  {
    assert 0 * cfg.poll == 0 && 0 * cfg.request == 0;
  }

  lemma {:induction false} PollAtEnd(cfg: Config, node: Node, run: string, c: Client, task: View, deadline: nat)
    requires Fits(cfg, node) && c.now >= deadline
    ensures Poll(cfg, node, run, c, task, false, deadline).0.now <= c.now + cfg.request
  {
    assert node(c.requests).1 <= cfg.request;
  }

  // ── some run lasts as long ────────────────────────────────────────────

  const ANSWER := Http(200, Some(RUNNING))
  const LOST := Http(404, None)

  /** When a run that holds a running task is over. */
  function EndOf(cfg: Config, node: Node, c: Client): nat
    requires cfg.poll > 0
  {
    Poll(cfg, node, "", c, RUNNING, false, cfg.timeout).0.now
  }

  /** At or after the deadline the task is cancelled. */
  lemma {:induction false} CancelEnds(cfg: Config, node: Node, c: Client)
    requires cfg.poll > 0 && c.now >= cfg.timeout
    ensures EndOf(cfg, node, c) == c.now + node(c.requests).1
  {
  }

  /** Before it, a poll finds the task running and the run goes on. */
  lemma {:induction false} PollRuns(cfg: Config, node: Node, c: Client) returns (next: Client)
    requires cfg.poll > 0 && c.now < cfg.timeout && node(c.requests).0 == ANSWER
    ensures next.requests == c.requests + 1
    ensures next.now == c.now + Min(cfg.poll, cfg.timeout - c.now) + node(c.requests).1
    ensures EndOf(cfg, node, c) == EndOf(cfg, node, next)
  {
    var woken := c.(now := c.now + Min(cfg.poll, cfg.timeout - c.now));
    next := Asked(woken, node, Polled("t", ReplyTo(c, node)));
  }

  /** Or finds it lost and goes on with what the next submission brings. */
  lemma {:induction false} PollLoses(cfg: Config, node: Node, c: Client) returns (asked: Client)
    requires cfg.poll > 0 && c.now < cfg.timeout && node(c.requests).0 == LOST
    ensures asked.requests == c.requests + 1
    ensures asked.now == c.now + Min(cfg.poll, cfg.timeout - c.now) + node(c.requests).1
    ensures var (next, view) := Submit(cfg, node, "", asked, cfg.timeout);
      view == Ok(RUNNING) ==> EndOf(cfg, node, c) == EndOf(cfg, node, next)
  {
    hide Submit;
    var woken := c.(now := c.now + Min(cfg.poll, cfg.timeout - c.now));
    asked := Asked(woken, node, Polled("t", ReplyTo(c, node)));
  }

  lemma {:induction false} Answered(cfg: Config, node: Node, c: Client)
    requires cfg.poll > 0 && node(c.requests).0 == ANSWER
    ensures var (next, view) := Submit(cfg, node, "", c, cfg.timeout);
      view == Ok(RUNNING) && next.now == c.now + node(c.requests).1 && next.requests == c.requests + 1
  {
  }

  lemma {:induction false} Unanswered(cfg: Config, node: Node, c: Client) returns (slept: Client)
    requires cfg.poll > 0 && node(c.requests).0 == NoAnswer && c.now + node(c.requests).1 < cfg.timeout
    ensures slept.requests == c.requests + 1 && slept.now == c.now + node(c.requests).1 + cfg.poll
    ensures Submit(cfg, node, "", c, cfg.timeout) == Submit(cfg, node, "", slept, cfg.timeout)
  {
    var sent := Asked(c, node, Submitted("", ReplyTo(c, node)));
    slept := sent.(now := sent.now + cfg.poll);
  }

  const FRESH := Client(0, 0, [], map[])

  lemma {:induction false} RunIs(cfg: Config, node: Node)
    requires cfg.poll > 0
    ensures var (sent, view) := Submit(cfg, node, "", FRESH, cfg.timeout);
      view == Ok(RUNNING) ==> Run(cfg, node, "", FRESH).0.now == EndOf(cfg, node, sent)
  {
    hide Submit, Poll;
  }

  /** Answers at once that the task runs, until it loses it at the deadline, as slowly as it may. */
  function LosesLast(cfg: Config): Node {
    (n: nat) => LosesLastAt(cfg, n)
  }

  function LosesLastAt(cfg: Config, n: nat): (Raw, nat) {
    if n * cfg.poll < cfg.timeout then (ANSWER, 0)
    else if (n - 1) * cfg.poll < cfg.timeout then (LOST, cfg.request)
    else (ANSWER, cfg.request)
  }

  lemma {:induction false} LosesLastRun(cfg: Config, c: Client, n: nat)
    requires cfg.poll > 0 && c.requests == n + 1 && c.now == n * cfg.poll < cfg.timeout
    ensures EndOf(cfg, LosesLast(cfg), c) == cfg.timeout + 3 * cfg.request
    decreases cfg.timeout - c.now
  {
    var node := LosesLast(cfg);
    LosesLastAnswers(cfg, n);
    hide EndOf, Submit, LosesLastAt;
    if (n + 1) * cfg.poll < cfg.timeout {
      var next := PollRuns(cfg, node, c);
      LosesLastRun(cfg, next, n + 1);
    } else {
      var asked := PollLoses(cfg, node, c);
      Answered(cfg, node, asked);
      CancelEnds(cfg, node, Submit(cfg, node, "", asked, cfg.timeout).0);
    }
  }

  lemma {:induction false} LosesLastAnswers(cfg: Config, n: nat)
    requires n * cfg.poll < cfg.timeout
    ensures (n + 1) * cfg.poll == n * cfg.poll + cfg.poll
    ensures (n + 1) * cfg.poll < cfg.timeout ==> LosesLastAt(cfg, n + 1) == (ANSWER, 0)
    ensures (n + 1) * cfg.poll >= cfg.timeout ==>
      && LosesLastAt(cfg, n + 1) == (LOST, cfg.request)
      && LosesLastAt(cfg, n + 2) == (ANSWER, cfg.request) && LosesLastAt(cfg, n + 3) == (ANSWER, cfg.request)
  {
    assert (n + 1) * cfg.poll == n * cfg.poll + cfg.poll;
    assert (n + 2) * cfg.poll == (n + 1) * cfg.poll + cfg.poll;
    assert (n + 3) * cfg.poll == (n + 2) * cfg.poll + cfg.poll;
  }

  // A node that loses the task at every poll, `m` times, and leaves the last
  // submission before the deadline unanswered.

  predicate LosesAt(node: Node, i: nat) {
    node(2 * i).0 == ANSWER && node(2 * i + 1).0 == LOST
  }

  predicate Loses(node: Node, m: nat, request: nat) {
    && (forall i :: 0 <= i < m ==> LosesAt(node, i))
    && node(2 * m).0 == NoAnswer && node(2 * m + 1) == (ANSWER, request) && node(2 * m + 2) == (ANSWER, request)
  }

  /** When the submission of the i-th round is answered, or goes unanswered. */
  function Elapsed(cfg: Config, node: Node, i: nat): nat {
    if i == 0 then node(0).1 else Elapsed(cfg, node, i - 1) + cfg.poll + node(2 * i - 1).1 + node(2 * i).1
  }

  lemma {:induction false} ElapsedGrows(cfg: Config, node: Node, i: nat, m: nat)
    requires i < m
    ensures Elapsed(cfg, node, i) + cfg.poll + node(2 * i + 1).1 <= Elapsed(cfg, node, m)
  {
    if i + 1 < m { ElapsedGrows(cfg, node, i, m - 1); }
  }

  /** The unanswered submission, the one after it, and the cancel. */
  lemma {:induction false} LoserEnds(cfg: Config, node: Node, c: Client, m: nat)
    requires cfg.poll > 0 && Loses(node, m, cfg.request) && c.requests == 2 * m
    requires c.now + node(2 * m).1 < cfg.timeout <= c.now + node(2 * m).1 + cfg.poll
    ensures var (next, view) := Submit(cfg, node, "", c, cfg.timeout);
      view == Ok(RUNNING) && EndOf(cfg, node, next) == c.now + node(2 * m).1 + cfg.poll + 2 * cfg.request
  {
    hide Submit, EndOf;
    var slept := Unanswered(cfg, node, c);
    Answered(cfg, node, slept);
    CancelEnds(cfg, node, Submit(cfg, node, "", slept, cfg.timeout).0);
  }

  /** Round after round of losing the task. */
  lemma {:induction false} LoserRun(cfg: Config, node: Node, c: Client, i: nat, m: nat)
    requires cfg.poll > 0 && Loses(node, m, cfg.request) && i < m
    requires c.requests == 2 * i + 1 && c.now == Elapsed(cfg, node, i)
    requires Elapsed(cfg, node, m) < cfg.timeout <= Elapsed(cfg, node, m) + cfg.poll
    ensures EndOf(cfg, node, c) == Elapsed(cfg, node, m) + cfg.poll + 2 * cfg.request
    decreases m - i
  {
    hide Submit, EndOf;
    assert LosesAt(node, i);
    ElapsedGrows(cfg, node, i, m);
    var asked := PollLoses(cfg, node, c);
    assert asked.now + node(2 * i + 2).1 == Elapsed(cfg, node, i + 1);
    if i + 1 < m {
      assert LosesAt(node, i + 1);
      Answered(cfg, node, asked);
      LoserRun(cfg, node, Submit(cfg, node, "", asked, cfg.timeout).0, i + 1, m);
    } else {
      LoserEnds(cfg, node, asked, m);
    }
  }

  /** How much of `total` the first `n` requests take when each takes as much as it may. */
  function Taken(total: nat, n: nat, request: nat): nat {
    Min(total, n * request)
  }

  function Took(total: nat, n: nat, request: nat): (t: nat)
    ensures t <= request && Taken(total, n + 1, request) == Taken(total, n, request) + t
  {
    assert (n + 1) * request == n * request + request;
    Taken(total, n + 1, request) - Taken(total, n, request)
  }

  function Loser(m: nat, total: nat, request: nat): Node {
    (n: nat) =>
      if n > 2 * m then (ANSWER, request)
      else (if n == 2 * m then NoAnswer else if IsEven(n) then ANSWER else LOST, Took(total, n, request))
  }

  predicate IsEven(n: nat) {
    n % 2 == 0
  }

  lemma {:induction false} Parity(i: nat)
    ensures IsEven(2 * i) && !IsEven(2 * i + 1)
  {
  }

  lemma {:induction false} LoserLoses(m: nat, total: nat, request: nat)
    ensures Loses(Loser(m, total, request), m, request)
  {
    hide Took, IsEven;
    forall i | 0 <= i < m
      ensures LosesAt(Loser(m, total, request), i)
    {
      Parity(i);
    }
  }

  lemma {:induction false} LoserElapsed(cfg: Config, m: nat, total: nat, i: nat)
    requires i <= m
    ensures Elapsed(cfg, Loser(m, total, cfg.request), i) == i * cfg.poll + Taken(total, 2 * i + 1, cfg.request)
  {
    hide Took, Taken;
    if i == 0 {
      assert 0 * cfg.poll == 0;
      TakenNone(total, cfg.request);
    } else {
      LoserElapsed(cfg, m, total, i - 1);
      assert i * cfg.poll == (i - 1) * cfg.poll + cfg.poll;
      assert 2 * (i - 1) + 1 == 2 * i - 1;
      var early, late := Took(total, 2 * i - 1, cfg.request), Took(total, 2 * i, cfg.request);
    }
  }

  lemma {:induction false} LoserElapsedAll(cfg: Config, m: nat, end: nat)
    requires m * cfg.poll <= end <= m * cfg.poll + (2 * m + 1) * cfg.request
    ensures Elapsed(cfg, Loser(m, end - m * cfg.poll, cfg.request), m) == end
  {
    hide Elapsed, Loser;
    LoserElapsed(cfg, m, end - m * cfg.poll, m);
  }

  lemma {:induction false} TakenNone(total: nat, request: nat)
    ensures Taken(total, 0, request) == 0
  {
    assert 0 * request == 0;
  }

  lemma {:induction false} LosesLastReaches(cfg: Config)
    requires cfg.poll > 0 && cfg.timeout > 0
    ensures Fits(cfg, LosesLast(cfg))
    ensures Run(cfg, LosesLast(cfg), "", FRESH).0.now == cfg.timeout + 3 * cfg.request
  {
    var node := LosesLast(cfg);
    assert 0 * cfg.poll == 0;
    assert node(0) == (ANSWER, 0);
    hide EndOf, Submit, Run, LosesLastAt;
    RunIs(cfg, node);
    Answered(cfg, node, FRESH);
    LosesLastRun(cfg, Submit(cfg, node, "", FRESH, cfg.timeout).0, 0);
  }

  lemma {:induction false} LastMissSpans(cfg: Config)
    requires cfg.poll > 0 && cfg.timeout > 0
    ensures var m := Polls(cfg);
      && m * cfg.poll <= LastMiss(cfg) <= m * cfg.poll + (2 * m + 1) * cfg.request
      && LastMiss(cfg) < cfg.timeout <= LastMiss(cfg) + cfg.poll
  {
    var m := Polls(cfg);
    assert (2 * m + 1) * cfg.request >= 0;
  }

  /** The slowest such node. */
  function SlowestLoser(cfg: Config): Node
    requires cfg.poll > 0 && cfg.timeout > 0
  {
    var m := Polls(cfg);
    Loser(m, if LastMiss(cfg) >= m * cfg.poll then LastMiss(cfg) - m * cfg.poll else 0, cfg.request)
  }

  lemma {:induction false} SlowLoserFits(cfg: Config)
    requires cfg.poll > 0 && cfg.timeout > 0
    ensures Fits(cfg, SlowestLoser(cfg)) && Loses(SlowestLoser(cfg), Polls(cfg), cfg.request)
  {
    hide Took, LastMiss, Polls, LosesAt;
    var m := Polls(cfg);
    LoserLoses(m, if LastMiss(cfg) >= m * cfg.poll then LastMiss(cfg) - m * cfg.poll else 0, cfg.request);
  }

  lemma {:induction false} SlowLoserElapsed(cfg: Config)
    requires cfg.poll > 0 && cfg.timeout > 0
    ensures Elapsed(cfg, SlowestLoser(cfg), Polls(cfg)) == LastMiss(cfg)
  {
    LastMissSpans(cfg);
    hide Elapsed, Loser, LastMiss, Polls, Taken;
    LoserElapsedAll(cfg, Polls(cfg), LastMiss(cfg));
  }

  lemma {:induction false} LoserReaches(cfg: Config)
    requires cfg.poll > 0 && cfg.timeout > 0
    ensures Fits(cfg, SlowestLoser(cfg))
    ensures Run(cfg, SlowestLoser(cfg), "", FRESH).0.now == LastMiss(cfg) + cfg.poll + 2 * cfg.request
  {
    hide SlowestLoser, Elapsed, Loses, Run, Fits, LastMiss, Polls;
    SlowLoserFits(cfg);
    SlowLoserElapsed(cfg);
    LastMissSpans(cfg);
    LoserReachesMiss(cfg, SlowestLoser(cfg), Polls(cfg));
  }

  lemma {:induction false} LoserReachesMiss(cfg: Config, node: Node, m: nat)
    requires cfg.poll > 0 && Loses(node, m, cfg.request)
    requires Elapsed(cfg, node, m) < cfg.timeout <= Elapsed(cfg, node, m) + cfg.poll
    ensures Run(cfg, node, "", FRESH).0.now == Elapsed(cfg, node, m) + cfg.poll + 2 * cfg.request
  {
    hide EndOf, Submit, Run;
    RunIs(cfg, node);
    if m == 0 {
      LoserEnds(cfg, node, FRESH, 0);
    } else {
      assert LosesAt(node, 0);
      Answered(cfg, node, FRESH);
      LoserRun(cfg, node, Submit(cfg, node, "", FRESH, cfg.timeout).0, 0, m);
    }
  }

  /** And some node makes a run last exactly that long. */
  lemma {:induction false} WorstCaseIsReached(cfg: Config)
    requires cfg.poll > 0
    ensures exists node :: Fits(cfg, node) && Run(cfg, node, "", FRESH).0.now == WorstEnd(cfg)
  {
    if cfg.timeout == 0 {
      var node := (n: nat) => (ANSWER, cfg.request);
      assert Fits(cfg, node);
      hide EndOf, Submit, Run;
      RunIs(cfg, node);
      Answered(cfg, node, FRESH);
      CancelEnds(cfg, node, Submit(cfg, node, "", FRESH, 0).0);
      assert Run(cfg, node, "", FRESH).0.now == WorstEnd(cfg);
    } else {
      LosesLastReaches(cfg);
      LoserReaches(cfg);
      hide Run, Fits, SlowestLoser, LosesLast, LastMiss;
      var node := if cfg.timeout + 2 * cfg.request >= LastMiss(cfg) + cfg.poll + cfg.request
                  then LosesLast(cfg) else SlowestLoser(cfg);
      assert Fits(cfg, node) && Run(cfg, node, "", FRESH).0.now == WorstEnd(cfg);
    }
  }

  // ── one poll and one request ──────────────────────────────────────────

  /** The configurations no node can keep waiting longer than a poll and a request past the deadline. */
  predicate Prompt(cfg: Config)
    requires cfg.poll > 0
  {
    if cfg.timeout == 0 then cfg.request <= cfg.poll
    else
      && 2 * cfg.request <= cfg.poll
      && (cfg.request <= 1 || Polls(cfg) * cfg.poll + (2 * Polls(cfg) + 2) * cfg.request <= cfg.timeout)
  }

  lemma {:induction false} PromptIsWorstCase(cfg: Config)
    requires cfg.poll > 0
    ensures Prompt(cfg) <==> WorstEnd(cfg) <= cfg.timeout + cfg.poll + cfg.request
  {
    if cfg.timeout > 0 {
      var m := Polls(cfg);
      assert (2 * m + 2) * cfg.request == (2 * m + 1) * cfg.request + cfg.request;
    }
  }

  /**
    Exactly which configurations keep to that bound: every run against every
    node is over within one poll and one request of its deadline if and only
    if two requests fit into a poll and the last unanswered submission leaves
    room for one more request before the deadline.
   */
  lemma {:induction false} PromptExactlyWhen(cfg: Config)
    requires cfg.poll > 0
    ensures (forall node, run, c :: Fits(cfg, node) ==>
               Run(cfg, node, run, c).0.now <= c.now + cfg.timeout + cfg.poll + cfg.request)
      <==> Prompt(cfg)
  {
    PromptIsWorstCase(cfg);
    hide Run, Fits, Prompt, WorstEnd;
    if Prompt(cfg) {
      forall node, run, c | Fits(cfg, node)
        ensures Run(cfg, node, run, c).0.now <= c.now + cfg.timeout + cfg.poll + cfg.request
      {
        EndsByWorstCase(cfg, node, run, c);
      }
    } else {
      WorstCaseIsReached(cfg);
      var node :| Fits(cfg, node) && Run(cfg, node, "", FRESH).0.now == WorstEnd(cfg);
    }
  }

  /** Whatever the timeout, only where two requests fit into a poll and a request takes at most one unit. */
  lemma {:induction false} PromptForEveryTimeout(poll: nat, request: nat)
    requires poll > 0
    ensures (forall timeout: nat :: Prompt(Config(timeout, poll, request))) <==> 2 * request <= poll && request <= 1
  {
    var one := Config(1, poll, request);
    assert Polls(one) == 0 && 0 * poll == 0;
    assert Prompt(one) <==> 2 * request <= poll && request <= 1;
  }
}
