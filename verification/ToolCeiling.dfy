/**
  Two paths to a local run's tools (crates/rustykrab-agent/src/local_worker.rs):
  a probe decides ahead of time whether a worker could run a brief, and the
  run decides again when it starts. Each computes the effective ceiling and
  checks the brief's requirements in its own way; here they are shown to agree.
 */
module ToolCeiling {
  import opened Common

  const WORK_TOOLS := ["work_file", "work_status", "work_discuss", "result_report"]
  const QUESTION_TOOLS := ["ask_user", "capability_request"]
  const PLAN_TOOL := "work_plan"
  const TASK_COMPLETE := "task_complete"
  const FILE := "file:"

  /** `usable(names, n)`: whether a session holding `names` may call `n` (the capability set's rule). */
  datatype Worker = Worker(
    tools: seq<string>,
    late: Option<seq<string>>,
    allowed: Option<seq<string>>,
    visible: seq<string> -> seq<string>,
    usable: (seq<string>, string) -> bool,
    writable: seq<string>,
    readsFiles: bool,
    repositoryShell: bool)

  /** What a brief asks for; the probe's requirements are the same fields. */
  datatype Needs = Needs(
    review: bool,
    workspace: bool,
    writable: seq<string>,
    tools: seq<string>,
    servers: seq<string>,
    moreInputs: bool)

  /** Which MCP server a tool name belongs to, and when a server is the one named. */
  datatype Naming = Naming(server: string -> Option<string>, same: (string, string) -> bool)

  function Filter(names: seq<string>, keep: string -> bool): (r: seq<string>)
    ensures forall n :: n in r <==> n in names && keep(n)
  {
    if names == [] then []
    else
      var last := |names| - 1;
      assert names == names[..last] + [names[last]];
      Filter(names[..last], keep) + (if keep(names[last]) then [names[last]] else [])
  }

  // ── the catalog ───────────────────────────────────────────────────────

  /** The host's tools with the late ones not already among them. */
  function Merged(tools: seq<string>, late: seq<string>): seq<string> {
    if late == [] then tools
    else
      var before := Merged(tools, late[..|late| - 1]);
      var name := late[|late| - 1];
      if name in WORK_TOOLS || name == TASK_COMPLETE || name in before then before else before + [name]
  }

  function Granted(names: seq<string>, tools: seq<string>, allowed: Option<seq<string>>): seq<string> {
    if tools == [] then names
    else
      var before := Granted(names, tools[..|tools| - 1], allowed);
      var name := tools[|tools| - 1];
      if (allowed.None? || name in allowed.value) && name !in before then before + [name] else before
  }

  /** `ceiling_of`. */
  function CeilingOf(w: Worker, tools: seq<string>): seq<string> {
    var names := Granted(WORK_TOOLS + QUESTION_TOOLS + [PLAN_TOOL], tools, w.allowed);
    Arranged(Filter(names, n => w.usable(names, n)))
  }

  function Catalog(w: Worker): seq<string> {
    CeilingOf(w, if w.late.Some? then Merged(w.tools, w.late.value) else w.tools)
  }

  /** What is granted beside the seven: the host's tools and late ones it does not reserve, within the allowed list. */
  predicate Grantable(w: Worker, n: string) {
    && (w.allowed.None? || n in w.allowed.value)
    && (n in w.tools
        || (w.late.Some? && n in w.late.value
            && n !in ["work_file", "work_status", "work_discuss", "result_report", "task_complete"]))
  }

  lemma {:induction false} GrantedExactly(names: seq<string>, tools: seq<string>, allowed: Option<seq<string>>)
    ensures forall n :: n in Granted(names, tools, allowed) <==>
      n in names || (n in tools && (allowed.None? || n in allowed.value))
  {
    if tools != [] {
      var i := |tools| - 1;
      GrantedExactly(names, tools[..i], allowed);
      assert tools == tools[..i] + [tools[i]];
    }
  }

  lemma {:induction false} MergedExactly(tools: seq<string>, late: seq<string>)
    ensures forall n :: n in Merged(tools, late) <==>
      n in tools || (n in late && n !in WORK_TOOLS && n != TASK_COMPLETE)
  {
    if late != [] {
      var i := |late| - 1;
      MergedExactly(tools, late[..i]);
      assert late == late[..i] + [late[i]];
    }
  }

  /** The host's own tools, and every grantable one. */
  predicate Offered(w: Worker, n: string) {
    || n in ["work_file", "work_status", "work_discuss", "result_report", "ask_user", "capability_request", "work_plan"]
    || Grantable(w, n)
  }

  /** The catalog is the offered tools a session holding them all may use. */
  lemma {:induction false} CatalogExactly(w: Worker) returns (names: seq<string>)
    ensures forall n :: n in names <==> Offered(w, n)
    ensures forall n :: n in Catalog(w) <==> Offered(w, n) && w.usable(names, n)
    ensures Ascending(Catalog(w))
  {
    var tools := if w.late.Some? then Merged(w.tools, w.late.value) else w.tools;
    names := Granted(WORK_TOOLS + QUESTION_TOOLS + [PLAN_TOOL], tools, w.allowed);
    if w.late.Some? { MergedExactly(w.tools, w.late.value); }
    GrantedExactly(WORK_TOOLS + QUESTION_TOOLS + [PLAN_TOOL], tools, w.allowed);
    ArrangedNames(Filter(names, n => w.usable(names, n)));
    hide Granted, Merged, Arranged;
  }

  /**
    The ceiling, name by name: a review's one tool; else the catalog, less
    what a repository's shell without a workspace denies: exec always, edit
    and write without a delegated file, read without one or a readable file.
   */
  lemma {:induction false} CeilingExactly(w: Worker, needs: Needs, n: string)
    ensures n in ProbeCeiling(w, needs) <==>
      if needs.review then n == "result_report"
      else
        && n in Catalog(w)
        && (w.repositoryShell && !needs.workspace ==>
              && n != "exec"
              && (n in ["edit", "write"] ==> ProbeHasFiles(w, needs))
              && (n == "read" ==> ProbeHasFiles(w, needs) || w.readsFiles))
  {
    hide Catalog;
  }

  // ── the probe's path ──────────────────────────────────────────────────

  predicate IsFile(resource: string) {
    FILE <= resource
  }

  predicate Denied(name: string, hasFiles: bool, readsFiles: bool) {
    name == "exec" || (name == "read" && !hasFiles && !readsFiles) || (!hasFiles && name in ["edit", "write"])
  }

  predicate ProbeHasFiles(w: Worker, needs: Needs) {
    exists i :: 0 <= i < |needs.writable| && IsFile(needs.writable[i]) && needs.writable[i] in w.writable
  }

  function ProbeCeiling(w: Worker, needs: Needs): seq<string> {
    if needs.review then ["result_report"]
    else if w.repositoryShell && !needs.workspace then
      Filter(Catalog(w), n => !Denied(n, ProbeHasFiles(w, needs), w.readsFiles))
    else Catalog(w)
  }

  predicate Serves(naming: Naming, tool: string, server: string) {
    naming.server(tool).Some? && naming.same(naming.server(tool).value, server)
  }

  predicate ServerMissing(naming: Naming, ceiling: seq<string>, server: string) {
    forall i :: 0 <= i < |ceiling| ==> !Serves(naming, ceiling[i], server)
  }

  /** `observe_probe`'s requirement check: the effective requirements exceed the worker's boundary. */
  predicate ProbeRejects(w: Worker, naming: Naming, needs: Needs) {
    var ceiling := ProbeCeiling(w, needs);
    || (exists i :: 0 <= i < |needs.tools| && needs.tools[i] !in ceiling)
    || (exists i :: 0 <= i < |needs.servers| && ServerMissing(naming, ceiling, needs.servers[i]))
    || (exists i :: 0 <= i < |needs.writable| && IsFile(needs.writable[i]) && needs.writable[i] !in w.writable)
  }

  // ── the run's path ────────────────────────────────────────────────────

  /** The files the brief may write, without their prefix, one a delegated resource. */
  function Files(w: Worker, writable: seq<string>): seq<string> {
    if writable == [] then []
    else
      var r := writable[|writable| - 1];
      Files(w, writable[..|writable| - 1]) + (if r in w.writable && IsFile(r) then [r[|FILE|..]] else [])
  }

  function FileCount(writable: seq<string>): nat {
    if writable == [] then 0
    else FileCount(writable[..|writable| - 1]) + (if IsFile(writable[|writable| - 1]) then 1 else 0)
  }

  function RunCeiling(w: Worker, needs: Needs): seq<string> {
    if needs.review then ["result_report"]
    else if w.repositoryShell && !needs.workspace then
      Filter(Catalog(w), n => !Denied(n, Files(w, needs.writable) != [], w.readsFiles))
    else Catalog(w)
  }

  datatype Stop = ReviewScope | UndelegatedFile | ToolGap(name: string)

  // ── names in order ────────────────────────────────────────────────────

  /** The order of strings: character by character, a prefix first. */
  predicate Less(a: string, b: string) {
    b != "" && (a == "" || a[0] < b[0] || (a[0] == b[0] && Less(a[1..], b[1..])))
  }

  lemma {:induction false} LessOrders(a: string, b: string, c: string)
    ensures !Less(a, a)
    ensures a == b || Less(a, b) || Less(b, a)
    ensures Less(a, b) && Less(b, c) ==> Less(a, c)
  {
    var a', b', c' := if a == "" then "" else a[1..], if b == "" then "" else b[1..], if c == "" then "" else c[1..];
    if a != "" || b != "" || c != "" { LessOrders(a', b', c'); }
    assert a != "" ==> a == [a[0]] + a';
    assert b != "" ==> b == [b[0]] + b';
  }

  ghost predicate Ascending(names: seq<string>) {
    forall i, j :: 0 <= i < j < |names| ==> Less(names[i], names[j])
  }

  function Inserted(names: seq<string>, n: string): seq<string> {
    if names == [] then [n]
    else if n == names[0] then names
    else if Less(n, names[0]) then [n] + names
    else [names[0]] + Inserted(names[1..], n)
  }

  /** `sort` and `dedup`. */
  function Arranged(names: seq<string>): seq<string> {
    if names == [] then [] else Inserted(Arranged(names[..|names| - 1]), names[|names| - 1])
  }

  lemma {:induction false} InsertedNames(names: seq<string>, n: string)
    requires Ascending(names)
    ensures Ascending(Inserted(names, n))
    ensures forall x :: x in Inserted(names, n) <==> x in names || x == n
  {
    if names != [] {
      var first, rest := names[0], names[1..];
      assert names == [first] + rest;
      InsertedNames(rest, n);
      LessOrders(n, first, first);
      if Less(n, first) {
        forall i | 0 <= i < |names|
          ensures Less(n, names[i])
        {
          LessOrders(n, first, names[i]);
        }
      } else if n != first {
        AscendingFrom(first, Inserted(rest, n));
      }
    }
  }

  lemma {:induction false} AscendingFrom(first: string, rest: seq<string>)
    requires Ascending(rest) && forall x :: x in rest ==> Less(first, x)
    ensures Ascending([first] + rest)
  {
    assert forall i :: 0 <= i < |rest| ==> rest[i] in rest;
  }

  lemma {:induction false} ArrangedNames(names: seq<string>)
    ensures Ascending(Arranged(names)) && forall x :: x in Arranged(names) <==> x in names
  {
    if names != [] {
      var n := |names| - 1;
      ArrangedNames(names[..n]);
      InsertedNames(Arranged(names[..n]), names[n]);
      assert names == names[..n] + [names[n]];
    }
  }

  predicate ServesOne(naming: Naming, tool: string, servers: seq<string>) {
    exists i :: 0 <= i < |servers| && Serves(naming, tool, servers[i])
  }

  predicate Opening(w: Worker, needs: Needs, ceiling: seq<string>, n: string) {
    n == "result_report" || (needs.moreInputs && n == "work_status") || n in w.visible(ceiling)
  }

  /**
    `activation`: the tools to activate, in ascending order and each once, or
    the first gap. They are what every run opens with, what the brief requires,
    and every tool within the ceiling of every server it requires.
   */
  method Activate(w: Worker, naming: Naming, needs: Needs, ceiling: seq<string>)
    returns (r: Result<seq<string>, Stop>)
    ensures r.Err? <==>
      || (exists i :: 0 <= i < |needs.tools| && needs.tools[i] !in ceiling)
      || (exists i :: 0 <= i < |needs.servers| && ServerMissing(naming, ceiling, needs.servers[i]))
    ensures r.Err? && (exists i :: 0 <= i < |needs.tools| && needs.tools[i] !in ceiling) ==>
      exists i :: 0 <= i < |needs.tools| && needs.tools[i] !in ceiling && r.error == ToolGap(needs.tools[i])
        && forall j :: 0 <= j < i ==> needs.tools[j] in ceiling
    ensures r.Ok? ==> forall n :: n in r.value <==>
      Opening(w, needs, ceiling, n) || n in needs.tools || (n in ceiling && ServesOne(naming, n, needs.servers))
    ensures r.Ok? ==> Ascending(r.value)
  {
    var names := ["result_report"];
    if needs.moreInputs { names := names + ["work_status"]; }
    names := names + w.visible(ceiling);
    for i := 0 to |needs.tools|
      invariant forall j :: 0 <= j < i ==> needs.tools[j] in ceiling
      invariant forall n :: n in names <==> Opening(w, needs, ceiling, n) || n in needs.tools[..i]
    {
      if needs.tools[i] !in ceiling { return Err(ToolGap(needs.tools[i])); }
      names := names + [needs.tools[i]];
      assert needs.tools[..i + 1] == needs.tools[..i] + [needs.tools[i]];
    }
    assert needs.tools[..|needs.tools|] == needs.tools;
    for i := 0 to |needs.servers|
      invariant forall j :: 0 <= j < i ==> !ServerMissing(naming, ceiling, needs.servers[j])
      invariant forall n :: n in names <==>
        Opening(w, needs, ceiling, n) || n in needs.tools || (n in ceiling && ServesOne(naming, n, needs.servers[..i]))
    {
      var server := needs.servers[i];
      var found := Filter(ceiling, n => Serves(naming, n, server));
      if found == [] {
        assert forall j :: 0 <= j < |ceiling| ==> ceiling[j] in ceiling && ceiling[j] !in found;
        return Err(ToolGap("mcp server " + server));
      }
      assert found[0] in found;
      names := names + found;
      ServesOneMore(naming, needs.servers, i);
    }
    assert needs.servers[..|needs.servers|] == needs.servers;
    ArrangedNames(names);
    return Ok(Arranged(names));
  }

  lemma ServesOneMore(naming: Naming, servers: seq<string>, i: nat)
    requires i < |servers|
    ensures forall n :: ServesOne(naming, n, servers[..i + 1]) <==>
      ServesOne(naming, n, servers[..i]) || Serves(naming, n, servers[i])
  {
    forall n
      ensures ServesOne(naming, n, servers[..i + 1]) <==>
        ServesOne(naming, n, servers[..i]) || Serves(naming, n, servers[i])
    {
      var more := servers[..i + 1];
      assert more[i] == servers[i];
      assert forall j :: 0 <= j < i ==> more[j] == servers[..i][j];
    }
  }

  ghost predicate ReviewExceeds(needs: Needs) {
    || needs.workspace || needs.writable != [] || needs.servers != []
    || exists i :: 0 <= i < |needs.tools| && needs.tools[i] != "result_report"
  }

  /** `run`, up to the point where it waits for its slot: before any model call. */
  method Start(w: Worker, naming: Naming, needs: Needs) returns (r: Result<seq<string>, Stop>)
    ensures !needs.review ==> (r.Err? <==> ProbeRejects(w, naming, needs))
    ensures needs.review ==> (r.Err? <==> ReviewExceeds(needs))
  {
    if needs.review {
      var i := 0;
      while i < |needs.tools|
        invariant 0 <= i <= |needs.tools|
        invariant forall j :: 0 <= j < i ==> needs.tools[j] == "result_report"
      {
        if needs.tools[i] != "result_report" { return Err(ReviewScope); }
        i := i + 1;
      }
      if needs.workspace || needs.writable != [] || needs.servers != [] { return Err(ReviewScope); }
    }
    var files := Files(w, needs.writable);
    FilesCounted(w, needs.writable);
    if FileCount(needs.writable) != |files| { return Err(UndelegatedFile); }
    SameCeiling(w, needs);
    if needs.review { return Ok(RunCeiling(w, needs)); }
    r := Activate(w, naming, needs, RunCeiling(w, needs));
  }

  // ── they agree ────────────────────────────────────────────────────────

  /** Counting finds an undelegated file exactly when there is one. */
  lemma {:induction false} FilesCounted(w: Worker, writable: seq<string>)
    ensures |Files(w, writable)| <= FileCount(writable)
    ensures |Files(w, writable)| < FileCount(writable) <==>
      exists i :: 0 <= i < |writable| && "file:" <= writable[i] && writable[i] !in w.writable
    ensures Files(w, writable) != [] <==>
      exists i :: 0 <= i < |writable| && "file:" <= writable[i] && writable[i] in w.writable
  {
    if writable != [] {
      var n := |writable| - 1;
      FilesCounted(w, writable[..n]);
      assert forall i :: 0 <= i < n ==> writable[..n][i] == writable[i];
    }
  }

  /** The probe looks for a delegated file, the run collects them: the same ceiling either way. */
  lemma SameCeiling(w: Worker, needs: Needs)
    ensures RunCeiling(w, needs) == ProbeCeiling(w, needs)
  {
    FilesCounted(w, needs.writable);
    assert Files(w, needs.writable) != [] <==> ProbeHasFiles(w, needs);
    if !needs.review && w.repositoryShell && !needs.workspace {
      FilterSame(Catalog(w), n => !Denied(n, ProbeHasFiles(w, needs), w.readsFiles),
                 n => !Denied(n, Files(w, needs.writable) != [], w.readsFiles));
    }
  }

  lemma {:induction false} FilterSame(names: seq<string>, p: string -> bool, q: string -> bool)
    requires forall n :: p(n) == q(n)
    ensures Filter(names, p) == Filter(names, q)
  {
    if names != [] { FilterSame(names[..|names| - 1], p, q); }
  }

  /**
    A read-only review is the exception. The probe clears it for its one tool
    alone, but the run also refuses any workspace or writable resource: what
    the probe rejects the run stops, and the run stops more by exactly those.
   */
  lemma ReviewStopsMore(w: Worker, naming: Naming, needs: Needs)
    requires needs.review && naming.server("result_report").None?
    ensures ReviewExceeds(needs) <==> ProbeRejects(w, naming, needs) || needs.workspace || needs.writable != []
  {
    var ceiling := ProbeCeiling(w, needs);
    assert ceiling == ["result_report"];
    if needs.servers != [] {
      assert ServerMissing(naming, ceiling, needs.servers[0]);
    }
  }

  /** Every required tool of a brief the probe clears lies within the worker's own limits. */
  lemma {:induction false} ClearedToolsAreUsable(w: Worker, naming: Naming, needs: Needs, i: nat)
    requires !needs.review && !ProbeRejects(w, naming, needs) && i < |needs.tools|
    ensures var names := Granted(WORK_TOOLS + QUESTION_TOOLS + [PLAN_TOOL],
                                 if w.late.Some? then Merged(w.tools, w.late.value) else w.tools, w.allowed);
      && w.usable(names, needs.tools[i])
      && (needs.tools[i] == "exec" ==> needs.workspace || !w.repositoryShell)
  {
    var names := Granted(WORK_TOOLS + QUESTION_TOOLS + [PLAN_TOOL],
                         if w.late.Some? then Merged(w.tools, w.late.value) else w.tools, w.allowed);
    ArrangedNames(Filter(names, n => w.usable(names, n)));
    assert needs.tools[i] in ProbeCeiling(w, needs);
  }
}
