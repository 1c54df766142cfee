/**
  The other side of the contract that makes a submission idempotent
  (crates/rustykrab-agent/src/peer_worker.rs, the module text): a node with a
  table from run id to task. Submissions may arrive or not, whatever the
  client hears of them; tasks end, and the node sweeps ended ones or loses
  table entries, in any order between the client's requests.
 */
module PeerTasks {
  import opened PeerRun
  import opened PeerGuarantees

  datatype Task = Task(run: string, live: bool)

  datatype Store = Store(tasks: seq<Task>, table: map<string, nat>)

  const EMPTY := Store([], map[])

  datatype Step =
    | Request(event: Event, arrived: bool)
    | End(task: nat)
    | Sweep(run: string)     // forget the entry of a task that has ended
    | Lose(run: string)      // forget an entry whatever its task does

  /** A submission that arrives, and is not refused, gets the task the table has for its run, or opens one. */
  function Submitting(s: Store, run: string): Store {
    if run in s.table then s else Store(s.tasks + [Task(run, true)], s.table[run := |s.tasks|])
  }

  predicate Opens(step: Step) {
    step.Request? && step.arrived && step.event.Submitted? && !step.event.reply.Status?
  }

  function Next(s: Store, step: Step): Store {
    match step
    case Request(_, _) => if Opens(step) then Submitting(s, step.event.run) else s
    case End(task) => if task < |s.tasks| then s.(tasks := s.tasks[task := s.tasks[task].(live := false)]) else s
    case Sweep(run) =>
      if run in s.table && s.table[run] < |s.tasks| && !s.tasks[s.table[run]].live
      then s.(table := s.table - {run}) else s
    case Lose(run) => s.(table := s.table - {run})
  }

  function Run(s: Store, steps: seq<Step>): Store
    decreases |steps|
  {
    if steps == [] then s else Run(Next(s, steps[0]), steps[1..])
  }

  predicate IsLive(s: Store, run: string, i: nat) {
    i < |s.tasks| && s.tasks[i].run == run && s.tasks[i].live
  }

  /** No run has two live tasks. */
  ghost predicate OneEach(s: Store) {
    forall run, i, j :: IsLive(s, run, i) && IsLive(s, run, j) ==> i == j
  }

  /** The table has every live task under its run. */
  ghost predicate Tabled(s: Store) {
    forall run, i :: IsLive(s, run, i) ==> run in s.table && s.table[run] == i
  }

  predicate KeepsTable(steps: seq<Step>) {
    forall i :: 0 <= i < |steps| ==> !steps[i].Lose?
  }

  lemma {:induction false} NextTabled(s: Store, step: Step)
    requires Tabled(s) && !step.Lose?
    ensures Tabled(Next(s, step))
  {
    var s' := Next(s, step);
    forall run, i: nat | IsLive(s', run, i)
      ensures run in s'.table && s'.table[run] == i
    {
      if i < |s.tasks| { assert IsLive(s, run, i); }
    }
  }

  lemma {:induction false} RunTabled(s: Store, steps: seq<Step>)
    requires Tabled(s) && KeepsTable(steps)
    ensures Tabled(Run(s, steps))
    decreases |steps|
  {
    if steps != [] {
      NextTabled(s, steps[0]);
      RunTabled(Next(s, steps[0]), steps[1..]);
    }
  }

  /** While the node keeps its table, no run ever has two live tasks, however often its brief is submitted. */
  lemma {:induction false} OneLiveTask(steps: seq<Step>)
    requires KeepsTable(steps)
    ensures OneEach(Run(EMPTY, steps))
  {
    RunTabled(EMPTY, steps);
  }

  /**
    Exactly when a submission doubles a run: where no run has two live tasks,
    it leaves one with two if and only if the table has lost that run while a
    task of it lives.
   */
  lemma {:induction false} DoubledExactlyWhen(s: Store, run: string)
    requires OneEach(s)
    ensures !OneEach(Submitting(s, run)) <==> run !in s.table && exists i :: IsLive(s, run, i)
  {
    var s' := Submitting(s, run);
    if run !in s.table {
      if i :| IsLive(s, run, i) {
        assert IsLive(s', run, i) && IsLive(s', run, |s.tasks|);
      } else {
        forall r, i: nat, j: nat | IsLive(s', r, i) && IsLive(s', r, j)
          ensures i == j
        {
          if i < |s.tasks| { assert IsLive(s, r, i); }
          if j < |s.tasks| { assert IsLive(s, r, j); }
        }
      }
    }
  }

  // ── a whole run of the client ─────────────────────────────────────────

  function Requests(steps: seq<Step>): seq<Event>
    decreases |steps|
  {
    if steps == [] then []
    else (if steps[0].Request? then [steps[0].event] else []) + Requests(steps[1..])
  }

  ghost predicate TasksOf(s: Store, run: string) {
    forall i :: 0 <= i < |s.tasks| ==> s.tasks[i].run == run
  }

  lemma {:induction false} TasksAreTheRuns(s: Store, steps: seq<Step>, run: string)
    requires TasksOf(s, run) && SendsOnly(Requests(steps), run)
    ensures TasksOf(Run(s, steps), run)
    decreases |steps|
  {
    if steps != [] {
      var rest := Requests(steps[1..]);
      if steps[0].Request? {
        assert Requests(steps)[0] == steps[0].event && Requests(steps)[1..] == rest;
      } else {
        assert Requests(steps) == rest;
      }
      TasksAreTheRuns(Next(s, steps[0]), steps[1..], run);
    }
  }

  /**
    A run of the client against any node that keeps its table, whichever of
    its requests arrive and whatever tasks do in between: it opens tasks of
    its own run only, and never leaves more than one of them live.
   */
  lemma {:induction false} ClientLeavesOneTask(cfg: Config, node: Node, run: string, c: Client, steps: seq<Step>)
    requires cfg.poll > 0 && c.trace == []
    requires Requests(steps) == PeerRun.Run(cfg, node, run, c).0.trace && KeepsTable(steps)
    ensures var s := Run(EMPTY, steps);
      TasksOf(s, run) && forall i, j :: 0 <= i < j < |s.tasks| ==> !s.tasks[i].live || !s.tasks[j].live
  {
    ReportIsTheNodes(cfg, node, run, c);
    hide PeerRun.Run, Run;
    TasksAreTheRuns(EMPTY, steps, run);
    OneLiveTask(steps);
    var s := Run(EMPTY, steps);
    forall i, j | 0 <= i < j < |s.tasks|
      ensures !s.tasks[i].live || !s.tasks[j].live
    {
      assert IsLive(s, run, i) && IsLive(s, run, j) ==> i == j;
    }
  }
}
