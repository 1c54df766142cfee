/**
  Which claims of a report the host vouches for. An external worker's report
  gets the commands its transcript shows (external_worker.rs, `attest`), a
  local worker's the commands the host itself ran (local_worker.rs,
  `LedgerTool` and `RecordingBackend`), and either's grant the calls it
  observed (mcp_grants.rs, `finish`); what the agent wrote of those kinds goes.
 */
module Attestation {
  import opened Common
  import Grants

  const COMMAND_RUN := "command_run"
  const OPERATION_PROBE := "operation_probe"
  const COMMANDS_MAX: nat := 64

  datatype Artifact = Artifact(kind: string, value: string)

  /** The artifacts of none of `kinds`, in order. */
  function Others(artifacts: seq<Artifact>, kinds: set<string>): seq<Artifact> {
    if artifacts == [] then []
    else
      var n := |artifacts| - 1;
      Others(artifacts[..n], kinds) + (if artifacts[n].kind in kinds then [] else [artifacts[n]])
  }

  /** The values of one kind, in order. */
  function Values(artifacts: seq<Artifact>, kind: string): seq<string> {
    if artifacts == [] then []
    else
      var n := |artifacts| - 1;
      Values(artifacts[..n], kind) + (if artifacts[n].kind == kind then [artifacts[n].value] else [])
  }

  function OfKind(kind: string, values: seq<string>): (r: seq<Artifact>)
    ensures |r| == |values| && forall i :: 0 <= i < |values| ==> r[i] == Artifact(kind, values[i])
  {
    seq(|values|, i requires 0 <= i < |values| => Artifact(kind, values[i]))
  }

  lemma {:induction false} OthersAppend(a: seq<Artifact>, b: seq<Artifact>, kinds: set<string>)
    ensures Others(a + b, kinds) == Others(a, kinds) + Others(b, kinds)
  {
    if b == [] {
      assert a + b == a;
    } else {
      var n := |b| - 1;
      OthersAppend(a, b[..n], kinds);
      assert (a + b)[..|a + b| - 1] == a + b[..n];
    }
  }

  lemma {:induction false} ValuesAppend(a: seq<Artifact>, b: seq<Artifact>, kind: string)
    ensures Values(a + b, kind) == Values(a, kind) + Values(b, kind)
  {
    if b == [] {
      assert a + b == a;
    } else {
      var n := |b| - 1;
      ValuesAppend(a, b[..n], kind);
      assert (a + b)[..|a + b| - 1] == a + b[..n];
    }
  }

  lemma {:induction false} OthersHaveNone(artifacts: seq<Artifact>, kinds: set<string>, kind: string)
    ensures kind in kinds ==> Values(Others(artifacts, kinds), kind) == []
    ensures kind !in kinds ==> Values(Others(artifacts, kinds), kind) == Values(artifacts, kind)
    ensures Others(Others(artifacts, kinds), kinds) == Others(artifacts, kinds)
    ensures forall a :: a in Others(artifacts, kinds) ==> a.kind !in kinds
  {
    if artifacts != [] {
      var n := |artifacts| - 1;
      OthersHaveNone(artifacts[..n], kinds, kind);
      var front := Others(artifacts[..n], kinds);
      var last := if artifacts[n].kind in kinds then [] else [artifacts[n]];
      ValuesAppend(front, last, kind);
      OthersAppend(front, last, kinds);
    }
  }

  lemma {:induction false} KindIsItsValues(kind: string, values: seq<string>, kinds: set<string>, other: string)
    ensures Values(OfKind(kind, values), kind) == values
    ensures other != kind ==> Values(OfKind(kind, values), other) == []
    ensures kind in kinds ==> Others(OfKind(kind, values), kinds) == []
    ensures kind !in kinds ==> Others(OfKind(kind, values), kinds) == OfKind(kind, values)
  {
    if values != [] {
      var n := |values| - 1;
      KindIsItsValues(kind, values[..n], kinds, other);
      assert OfKind(kind, values)[..n] == OfKind(kind, values[..n]);
    }
  }

  /** The other artifacts as they were, then `values` as the only ones of `kind`. */
  function Replaced(artifacts: seq<Artifact>, dropped: set<string>, kind: string, values: seq<string>): seq<Artifact> {
    Others(artifacts, dropped) + OfKind(kind, values)
  }

  /**
    After a replacement the kind holds exactly the host's values, in order;
    the other dropped kinds are empty; everything else is untouched; and
    replacing again changes nothing.
   */
  lemma {:induction false} ReplacedExactly(
    artifacts: seq<Artifact>, dropped: set<string>, kind: string, values: seq<string>, other: string)
    requires kind in dropped
    ensures var r := Replaced(artifacts, dropped, kind, values);
      && Values(r, kind) == values
      && (other != kind ==> Values(r, other) == if other in dropped then [] else Values(artifacts, other))
      && Others(r, dropped) == Others(artifacts, dropped)
      && Replaced(r, dropped, kind, values) == r
  {
    var kept, added := Others(artifacts, dropped), OfKind(kind, values);
    OthersHaveNone(artifacts, dropped, kind);
    OthersHaveNone(artifacts, dropped, other);
    KindIsItsValues(kind, values, dropped, other);
    ValuesAppend(kept, added, kind);
    ValuesAppend(kept, added, other);
    OthersAppend(kept, added, dropped);
    assert kept + [] == kept;
  }

  // ── an external worker's commands ─────────────────────────────────────

  /** Each value once, where it first appears. */
  function Distinct(values: seq<string>): seq<string> {
    if values == [] then []
    else
      var n := |values| - 1;
      var front := Distinct(values[..n]);
      if values[n] in front then front else front + [values[n]]
  }

  lemma {:induction false} DistinctValues(values: seq<string>)
    ensures forall v :: v in Distinct(values) <==> v in values
    ensures forall i, j :: 0 <= i < j < |Distinct(values)| ==> Distinct(values)[i] != Distinct(values)[j]
  {
    if values != [] {
      var n := |values| - 1;
      DistinctValues(values[..n]);
      assert values == values[..n] + [values[n]];
    }
  }

  /** `a` is among `values` before the first `b`. */
  ghost predicate AppearsFirst(values: seq<string>, a: string, b: string) {
    exists n :: 0 <= n <= |values| && a in values[..n] && b !in values[..n]
  }

  lemma {:induction false} AppearsFirstStays(values: seq<string>, a: string, b: string)
    requires values != [] && AppearsFirst(values[..|values| - 1], a, b)
    ensures AppearsFirst(values, a, b)
  {
    var front := values[..|values| - 1];
    var n :| 0 <= n <= |front| && a in front[..n] && b !in front[..n];
    assert values[..n] == front[..n];
  }

  lemma {:induction false} DistinctOrder(values: seq<string>)
    ensures forall i, j :: 0 <= i < j < |Distinct(values)| ==>
      AppearsFirst(values, Distinct(values)[i], Distinct(values)[j])
  {
    if values != [] {
      var n := |values| - 1;
      var front := values[..n];
      DistinctOrder(front);
      DistinctValues(front);
      forall i, j | 0 <= i < j < |Distinct(values)|
        ensures AppearsFirst(values, Distinct(values)[i], Distinct(values)[j])
      {
        if j < |Distinct(front)| {
          AppearsFirstStays(values, Distinct(front)[i], Distinct(front)[j]);
        } else {
          assert Distinct(front)[i] in front && values[n] !in front;
        }
      }
    }
  }

  const HOST_PROOF := {COMMAND_RUN, OPERATION_PROBE}

  function Attested(artifacts: seq<Artifact>, commands: seq<string>): seq<Artifact> {
    Replaced(artifacts, HOST_PROOF, COMMAND_RUN, Distinct(commands[..Min(|commands|, COMMANDS_MAX)]))
  }

  /** `attest`, edit by edit: a command is pushed unless the list has it already. */
  method Attest(artifacts: seq<Artifact>, commands: seq<string>) returns (r: seq<Artifact>)
    ensures r == Attested(artifacts, commands)
  {
    var kept := Others(artifacts, HOST_PROOF);
    assert kept == kept + OfKind(COMMAND_RUN, Distinct(commands[..0]));
    hide Others, Distinct, OfKind;
    r := kept;
    var most := Min(|commands|, COMMANDS_MAX);
    for n := 0 to most
      invariant r == kept + OfKind(COMMAND_RUN, Distinct(commands[..n]))
    {
      var a := Artifact(COMMAND_RUN, commands[n]);
      AttestOne(artifacts, commands, n);
      if a !in r { r := r + [a]; }
    }
  }

  /** One turn of the loop: pushing a command the list has not yet is one more distinct command. */
  lemma {:induction false} AttestOne(artifacts: seq<Artifact>, commands: seq<string>, n: nat)
    requires n < |commands|
    ensures var kept := Others(artifacts, HOST_PROOF);
      var r, a := kept + OfKind(COMMAND_RUN, Distinct(commands[..n])), Artifact(COMMAND_RUN, commands[n]);
      kept + OfKind(COMMAND_RUN, Distinct(commands[..n + 1])) == if a in r then r else r + [a]
  {
    var kept, before, v := Others(artifacts, HOST_PROOF), Distinct(commands[..n]), commands[n];
    OthersHaveNone(artifacts, HOST_PROOF, COMMAND_RUN);
    hide Others;
    assert Distinct(commands[..n + 1]) == (if v in before then before else before + [v]) by {
      assert commands[..n + 1][..n] == commands[..n];
    }
    hide Distinct, OfKind;
    InKind(kept, COMMAND_RUN, before, v);
    KindGrows(COMMAND_RUN, before, v);
    if v !in before {
      assert kept + (OfKind(COMMAND_RUN, before) + [Artifact(COMMAND_RUN, v)])
        == kept + OfKind(COMMAND_RUN, before) + [Artifact(COMMAND_RUN, v)];
    }
  }

  lemma {:induction false} KindGrows(kind: string, values: seq<string>, v: string)
    ensures OfKind(kind, values + [v]) == OfKind(kind, values) + [Artifact(kind, v)]
  {
  }

  lemma {:induction false} InKind(kept: seq<Artifact>, kind: string, values: seq<string>, v: string)
    requires forall a :: a in kept ==> a.kind != kind
    ensures Artifact(kind, v) in kept + OfKind(kind, values) <==> v in values
  {
    var added := OfKind(kind, values);
    assert forall a :: a in kept + added <==> a in kept || a in added;
    if v in values {
      var i :| 0 <= i < |values| && values[i] == v;
      assert added[i] == Artifact(kind, v);
    }
  }

  /**
    An attested external report: its commands are distinct and exactly those
    among the first 64 observed, it holds no operation probe, its other
    artifacts are as they were, and attesting it again changes nothing.
   */
  lemma {:induction false} AttestedExactly(artifacts: seq<Artifact>, commands: seq<string>, other: string)
    ensures var r := Attested(artifacts, commands);
      var first := if |commands| <= 64 then commands else commands[..64];
      var run := Values(r, "command_run");
      && (forall v :: v in run <==> v in first)
      && (forall i, j :: 0 <= i < j < |run| ==> run[i] != run[j])
      && (forall i, j :: 0 <= i < j < |run| ==> AppearsFirst(first, run[i], run[j]))
      && Values(r, "operation_probe") == []
      && (other !in {"command_run", "operation_probe"} ==> Values(r, other) == Values(artifacts, other))
      && Others(r, {"command_run", "operation_probe"}) == Others(artifacts, {"command_run", "operation_probe"})
      && Attested(r, commands) == r
  {
    var first := commands[..Min(|commands|, COMMANDS_MAX)];
    assert first == if |commands| <= 64 then commands else commands[..64];
    DistinctValues(first);
    DistinctOrder(first);
    ReplacedExactly(artifacts, HOST_PROOF, COMMAND_RUN, Distinct(first), other);
    ReplacedExactly(artifacts, HOST_PROOF, COMMAND_RUN, Distinct(first), OPERATION_PROBE);
  }

  // ── a grant's calls ───────────────────────────────────────────────────

  /** `McpGrant::finish`: one artifact a recorded call, in the record's order, and none the agent wrote. */
  lemma GrantAttests(
    artifacts: seq<Artifact>, record: Grants.GrantRecord, show: Grants.CallObservation -> string, other: string)
    ensures var values := seq(|record.calls|, i requires 0 <= i < |record.calls| => show(record.calls[i]));
      var r := Replaced(artifacts, {"mcp_call"}, "mcp_call", values);
      && Values(r, "mcp_call") == values
      && (other != "mcp_call" ==> Values(r, other) == Values(artifacts, other))
      && Replaced(r, {"mcp_call"}, "mcp_call", values) == r
  {
    var values := seq(|record.calls|, i requires 0 <= i < |record.calls| => show(record.calls[i]));
    ReplacedExactly(artifacts, {"mcp_call"}, "mcp_call", values, other);
  }

  // ── a local worker's run ──────────────────────────────────────────────

  /** `claims` says the report names paths, a commit, a block, questions or findings. */
  datatype Report = Report(artifacts: seq<Artifact>, checks: seq<string>, claims: bool)

  /** The command a returned tool call shows: only a host-run exec that came back with an exit code. */
  function Ran(tool: string, command: Option<string>, exitCode: Option<int>): seq<string> {
    if tool == "exec" && exitCode.Some? && command.Some? then [command.value] else []
  }

  /** Whether a claimed check matches an observed command: the controller's matcher. */
  type Matcher = (string, seq<string>) -> bool

  predicate ChecksRan(checks: seq<string>, commands: seq<string>, ran: Matcher) {
    commands == [] || forall i :: 0 <= i < |checks| ==> ran(checks[i], commands)
  }

  predicate Reviewable(r: Report) {
    r.artifacts == [] && r.checks == [] && !r.claims
  }

  /** What a filed report becomes, given the commands seen when it was filed; or its refusal. */
  function Drafted(report: Report, commands: seq<string>, readOnly: bool, ran: Matcher): Option<Report> {
    if (readOnly && !Reviewable(report)) || !ChecksRan(report.checks, commands, ran) then None
    else Some(report.(artifacts := Replaced(report.artifacts, HOST_PROOF, COMMAND_RUN, commands)))
  }

  /** The host's side of a run, its two lists each under a lock of its own. */
  class RecordingBackend {
    const readOnly: bool
    var commands: seq<string>
    var reports: seq<Report>

    constructor (readOnly: bool)
      ensures this.readOnly == readOnly && commands == [] && reports == []
    {
      this.readOnly := readOnly;
      commands, reports := [], [];
    }

    /** `LedgerTool::execute`, as far as it attests. */
    method Return(tool: string, command: Option<string>, exitCode: Option<int>)
      modifies this`commands
      ensures commands ==
        if tool == "exec" && exitCode.Some? && command.Some? then old(commands) + [command.value] else old(commands)
    {
      if tool == "exec" && exitCode.Some? && command.Some? {
        commands := commands + [command.value];
      }
    }

    static method ClaimsRan(checks: seq<string>, seen: seq<string>, ran: Matcher) returns (ok: bool)
      ensures ok <==> ChecksRan(checks, seen, ran)
    {
      if seen == [] { return true; }
      for i := 0 to |checks|
        invariant forall j :: 0 <= j < i ==> ran(checks[j], seen)
      {
        if !ran(checks[i], seen) { return false; }
      }
      return true;
    }

    /** `RecordingBackend::report` up to where it awaits the backend: a copy of the commands is all it reads. */
    method Draft(report: Report, ran: Matcher) returns (held: Option<Report>)
      ensures held == Drafted(report, commands, readOnly, ran)
      ensures held.Some? <==>
        && (readOnly ==> report.artifacts == [] && report.checks == [] && !report.claims)
        && (commands == [] || forall i :: 0 <= i < |report.checks| ==> ran(report.checks[i], commands))
    {
      if readOnly && (report.artifacts != [] || report.checks != [] || report.claims) { return None; }
      var seen := commands;
      var ok := ClaimsRan(report.checks, seen, ran);
      if !ok { return None; }
      return Some(report.(artifacts := Others(report.artifacts, HOST_PROOF) + OfKind(COMMAND_RUN, seen)));
    }

    /** And after the backend accepted it. */
    method Push(held: Report)
      modifies this`reports
      ensures reports == old(reports) + [held]
    {
      reports := reports + [held];
    }
  }

  /**
    A drafted report's command artifacts are exactly the commands it was
    drafted against, in order; it holds no operation probe, the other
    artifacts as filed, and its claimed checks all match if there was any
    command; a review's claims nothing.
   */
  lemma {:induction false} DraftAttests(report: Report, commands: seq<string>, readOnly: bool, ran: Matcher)
    requires Drafted(report, commands, readOnly, ran).Some?
    ensures var r := Drafted(report, commands, readOnly, ran).value;
      && Values(r.artifacts, "command_run") == commands
      && Values(r.artifacts, "operation_probe") == []
      && var proof := {"command_run", "operation_probe"};
      && Others(r.artifacts, proof) == Others(report.artifacts, proof)
      && r.checks == report.checks
      && (commands != [] ==> forall i :: 0 <= i < |r.checks| ==> ran(r.checks[i], commands))
      && (readOnly ==> report.artifacts == [] && report.checks == [] && !report.claims)
  {
    ReplacedExactly(report.artifacts, HOST_PROOF, COMMAND_RUN, commands, OPERATION_PROBE);
  }
}
