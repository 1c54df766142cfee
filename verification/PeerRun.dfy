/**
  Running a brief on a paired node (crates/rustykrab-agent/src/peer_worker.rs,
  `submit`, `run` and `outcome`). The node is any function from the number of
  a request to its answer and how long the answer took, so what is proved
  holds against every node: one that restarts, loses the task, refuses the
  token or never answers. Time is counted in whole units.
 */
module PeerRun {
  import opened Common

  datatype Report = Report(content: string, typedError: bool)

  datatype View = View(id: string, status: string, report: Option<Report>)

  const RUNNING := View("t", "running", None)

  predicate IsTerminal(v: View) {
    v.status in {"done", "failed", "cancelled"}
  }

  /** One HTTP exchange: nothing came back, or a status with the body as a task view if it reads as one. */
  datatype Raw = NoAnswer | Http(status: nat, body: Option<View>)

  datatype Reply = Good(view: View) | Status(code: nat) | Unreachable

  /** `call`: a proxy's 502 to 504 is not an answer from the node, and an unreadable success is a status. */
  function Classify(raw: Raw): Reply {
    match raw
    case NoAnswer => Unreachable
    case Http(status, body) =>
      if 200 <= status < 300 then (if body.Some? then Good(body.value) else Status(status))
      else if 502 <= status <= 504 then Unreachable
      else Status(status)
  }

  /** The n-th request's answer and the time it took. */
  type Node = nat -> (Raw, nat)

  datatype Config = Config(timeout: nat, poll: nat, request: nat)

  /** Polls take time, and a request is cut off by the client's own timeout. */
  ghost predicate Fits(cfg: Config, node: Node) {
    cfg.poll > 0 && forall n :: node(n).1 <= cfg.request
  }

  datatype Failure =
    | Refused | TokenRefused | Rejected(code: nat) | NeverSubmitted   // from a submission
    | NoResult | TimedOut                                             // at the deadline
    | TextOnly | Ended(status: string)                                // from the final view

  datatype Event =
    | Submitted(run: string, reply: Reply)
    | Polled(task: string, reply: Reply)
    | Cancelled(task: string)

  /** The clock, how many requests were made, what they were, and the run-to-task map. */
  datatype Client = Client(now: nat, requests: nat, trace: seq<Event>, tasks: map<string, string>)

  /** One request goes out and is answered, or not. */
  function Asked(c: Client, node: Node, event: Event): Client {
    c.(now := c.now + node(c.requests).1, requests := c.requests + 1, trace := c.trace + [event])
  }

  function ReplyTo(c: Client, node: Node): Reply {
    Classify(node(c.requests).0)
  }

  function Submit(cfg: Config, node: Node, run: string, c: Client, deadline: nat): (r: (Client, Result<View, Failure>))
    requires cfg.poll > 0
    ensures r.0.now >= c.now
    decreases deadline + cfg.poll - c.now
  {
    var sent := Asked(c, node, Submitted(run, ReplyTo(c, node)));
    match ReplyTo(c, node)
    case Good(view) => (sent.(tasks := sent.tasks[run := view.id]), Ok(view))
    case Status(code) =>
      (sent, Err(if code == 422 then Refused else if code in {401, 403} then TokenRefused else Rejected(code)))
    case Unreachable =>
      if sent.now >= deadline then (sent, Err(NeverSubmitted))
      else Submit(cfg, node, run, sent.(now := sent.now + cfg.poll), deadline)
  }

  function Outcome(v: View): Result<Report, Failure> {
    if v.status == "done" then (if v.report.Some? then Ok(v.report.value) else Err(TextOnly))
    else if v.status == "failed" && v.report.Some? && v.report.value.typedError then Ok(v.report.value)
    else Err(Ended(v.status))
  }

  function Forgotten(c: Client, run: string): Client {
    c.(tasks := c.tasks - {run})
  }

  /** One turn of the polling loop: the run is over, or goes on with the task as it now stands. */
  datatype Turn =
    | Over(c: Client, result: Result<Report, Failure>)
    | On(c: Client, task: View, unreachable: bool)

  function TakeTurn(cfg: Config, node: Node, run: string, c: Client, task: View, unreachable: bool, deadline: nat)
    : (t: Turn)
    requires cfg.poll > 0
    ensures t.On? ==> c.now < deadline && c.now < t.c.now
  {
    if IsTerminal(task) then Over(Forgotten(c, run), Outcome(task))
    else if c.now >= deadline then
      if unreachable then Over(Forgotten(c, run), Err(NoResult))
      else Over(Asked(Forgotten(c, run), node, Cancelled(task.id)), Err(TimedOut))
    else
      var woken := c.(now := c.now + Min(cfg.poll, deadline - c.now));
      var asked := Asked(woken, node, Polled(task.id, ReplyTo(c, node)));
      match ReplyTo(c, node)
      case Good(view) => On(asked, view, false)
      case Status(code) =>
        if code == 404 then
          var (again, view) := Submit(cfg, node, run, asked, deadline);
          if view.Err? then Over(again, Err(view.error)) else On(again, view.value, unreachable)
        else if code in {401, 403} then Over(Forgotten(asked, run), Err(TokenRefused))
        else On(asked, task, unreachable)
      case Unreachable => On(asked, task, true)
  }

  /** The polling loop of `run`, holding `task` as the node last described it. */
  function Poll(cfg: Config, node: Node, run: string, c: Client, task: View, unreachable: bool, deadline: nat)
    : (Client, Result<Report, Failure>)
    requires cfg.poll > 0
    decreases deadline - c.now
  {
    match TakeTurn(cfg, node, run, c, task, unreachable, deadline)
    case Over(last, result) => (last, result)
    case On(next, seen, lost) => Poll(cfg, node, run, next, seen, lost, deadline)
  }

  function Run(cfg: Config, node: Node, run: string, c: Client): (Client, Result<Report, Failure>)
    requires cfg.poll > 0
  {
    var deadline := c.now + cfg.timeout;
    var (sent, view) := Submit(cfg, node, run, c, deadline);
    if view.Err? then (sent, Err(view.error))
    else Poll(cfg, node, run, sent, view.value, false, deadline)
  }

  // ── the loops ─────────────────────────────────────────────────────────

  method SubmitTask(cfg: Config, node: Node, run: string, start: Client, deadline: nat)
    returns (c: Client, r: Result<View, Failure>)
    requires cfg.poll > 0
    ensures (c, r) == Submit(cfg, node, run, start, deadline)
  {
    c := start;
    while true
      invariant Submit(cfg, node, run, c, deadline) == Submit(cfg, node, run, start, deadline)
      decreases deadline + cfg.poll - c.now
    {
      var reply := ReplyTo(c, node);
      c := Asked(c, node, Submitted(run, reply));
      match reply {
        case Good(view) =>
          c := c.(tasks := c.tasks[run := view.id]);
          return c, Ok(view);
        case Status(code) =>
          if code == 422 { return c, Err(Refused); }
          if code in {401, 403} { return c, Err(TokenRefused); }
          return c, Err(Rejected(code));
        case Unreachable =>
          if c.now >= deadline { return c, Err(NeverSubmitted); }
          c := c.(now := c.now + cfg.poll);
      }
    }
  }

  method RunBrief(cfg: Config, node: Node, run: string, start: Client)
    returns (c: Client, r: Result<Report, Failure>)
    requires cfg.poll > 0
    ensures (c, r) == Run(cfg, node, run, start)
  {
    var deadline := start.now + cfg.timeout;
    var view;
    c, view := SubmitTask(cfg, node, run, start, deadline);
    if view.Err? { return c, Err(view.error); }
    var task, unreachable := view.value, false;
    while !IsTerminal(task)
      invariant Poll(cfg, node, run, c, task, unreachable, deadline) == Run(cfg, node, run, start)
      decreases if IsTerminal(task) then 0 else 1, deadline - c.now
    {
      if c.now >= deadline {
        c := Forgotten(c, run);
        if unreachable { return c, Err(NoResult); }
        c := Asked(c, node, Cancelled(task.id));
        return c, Err(TimedOut);
      }
      c := c.(now := c.now + Min(cfg.poll, deadline - c.now));
      var reply := ReplyTo(c, node);
      c := Asked(c, node, Polled(task.id, reply));
      match reply {
        case Good(seen) => unreachable, task := false, seen;
        case Status(code) =>
          if code == 404 {
            c, view := SubmitTask(cfg, node, run, c, deadline);
            if view.Err? { return c, Err(view.error); }
            task := view.value;
          } else if code in {401, 403} {
            c := Forgotten(c, run);
            return c, Err(TokenRefused);
          }
        case Unreachable => unreachable := true;
      }
    }
    c := Forgotten(c, run);
    r := Outcome(task);
  }
}
