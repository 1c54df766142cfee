/**
  The state a run-scoped MCP grant keeps under its lock, and what each lock
  section does to it (crates/rustykrab-agent/src/mcp_grants.rs). Every section
  is given twice: as a function on values, which the theorems of GrantRuns are
  about, and as a method of the class Live, which updates its fields in place
  and is proved to compute that function.
 */
module Grants {
  import opened Common

  datatype CallOutcome = Done | Failed | Denied | Ambiguous

  datatype CallObservation = CallObservation(tool: string, outcome: CallOutcome)

  datatype CallError = NotLive | NotGranted | QuotaSpent | Busy | RepeatedId | Ended | Cancelled

  /** What `finish` hands back. */
  datatype GrantRecord = GrantRecord(
    bridgeConnected: Option<nat>,
    ended: Option<string>,
    calls: seq<CallObservation>)

  /** What a grant is minted with and never changes. */
  datatype Terms = Terms(tools: set<string>, deadline: nat, quota: nat)

  /** A read-only review's grant carries no tools, whatever it was given. */
  function Mint(tools: set<string>, readOnly: bool, deadline: nat, quota: nat): Terms {
    Terms(if readOnly then {} else tools, deadline, quota)
  }

  datatype State = State(
    isSealed: bool,
    attempts: nat,
    ids: set<string>,
    inFlight: Option<string>,
    calls: seq<CallObservation>,
    initialized: bool,
    listed: bool,
    connected: Option<nat>,
    ended: Option<string>)

  const FRESH := State(false, 0, {}, None, [], false, false, None, None)

  function Record(s: State): GrantRecord {
    GrantRecord(s.connected, s.ended, s.calls)
  }

  predicate IsLive(t: Terms, s: State, now: nat) {
    !s.isSealed && now < t.deadline
  }

  /** Only enough of an ungranted name to read it is kept. */
  function Shown(name: string): string {
    name[..Min(|name|, 80)]
  }

  /** `Live::admit`: the new state, and the refusal if there is one. */
  function Admit(t: Terms, s: State, now: nat, id: string, name: string, available: set<string>)
    : (State, Option<CallError>)
  {
    if !IsLive(t, s, now) then (s, Some(NotLive))
    else if s.ended.Some? then (s, Some(CallError.Ended))
    else if s.attempts >= t.quota then (s, Some(QuotaSpent))
    else if id in s.ids then (s, Some(RepeatedId))
    else
      var counted := s.(ids := s.ids + {id}, attempts := s.attempts + 1);
      if name !in t.tools || name !in available then
        (counted.(calls := s.calls + [CallObservation(Shown(name), Denied)]), Some(NotGranted))
      else if s.inFlight.Some? then (counted, Some(Busy))
      else (counted.(inFlight := Some(name)), None)
  }

  /** `Live::settle`: the new state, and whether the call was recorded. */
  function Settle(s: State, tool: string, outcome: CallOutcome, ended: Option<string>): (State, bool) {
    var cleared := s.(inFlight := None);
    if s.isSealed then (cleared, false)
    else
      (cleared.(
        calls := s.calls + [CallObservation(tool, outcome)],
        ended := if ended.Some? then ended else s.ended), true)
  }

  /** `Live::seal`, without the record it returns. */
  function Seal(s: State): State {
    if s.isSealed then s
    else if s.inFlight.Some? then
      s.(isSealed := true, inFlight := None,
         calls := s.calls + [CallObservation(s.inFlight.value, Ambiguous)])
    else s.(isSealed := true)
  }

  /** `Live::handshake`. */
  function Handshake(s: State, list: bool, now: nat): State {
    var marked := if list then s.(listed := true) else s.(initialized := true);
    if marked.initialized && marked.listed && marked.connected.None? && !marked.isSealed
    then marked.(connected := Some(now))
    else marked
  }

  /** What a tool's execution came to, as `call` and `succeeded` read it. */
  datatype ToolResult =
    | Returned(endSummary: Option<string>, hasError: bool, isError: bool, rejected: bool)
    | Raised

  predicate Succeeded(r: ToolResult)
    requires r.Returned?
  {
    !r.hasError && !r.isError && !r.rejected
  }

  /** Whether the call is judged a success: it ended the run, or reports no error. */
  predicate Good(r: ToolResult) {
    r.Returned? && (r.endSummary.Some? || Succeeded(r))
  }

  function EndSummary(r: ToolResult): Option<string> {
    if r.Returned? then r.endSummary else None
  }

  // ── what one section keeps ────────────────────────────────────────────

  /**
    Quota arithmetic of one grant: attempts are the distinct ids, within the
    quota, and each is an observation, the call in flight, or a busy refusal.
   */
  predicate Accounted(t: Terms, s: State, busy: nat) {
    && |s.ids| == s.attempts <= t.quota
    && |s.calls| + (if s.inFlight.Some? then 1 else 0) + busy == s.attempts
    && (s.isSealed ==> s.inFlight.None?)
  }

  /** One live grant, its fields updated in place under its lock. */
  class Live {
    const terms: Terms
    var isSealed: bool
    var attempts: nat
    var ids: set<string>
    var inFlight: Option<string>
    var calls: seq<CallObservation>
    var initialized: bool
    var listed: bool
    var connected: Option<nat>
    var ended: Option<string>
    /** How many admissions were refused because a call was in flight. */
    ghost var busy: nat

    function View(): State
      reads this
    {
      State(isSealed, attempts, ids, inFlight, calls, initialized, listed, connected, ended)
    }

    ghost predicate Valid()
      reads this
    {
      Accounted(terms, View(), busy)
    }

    constructor (t: Terms)
      ensures Valid()
      ensures terms == t && View() == FRESH && busy == 0
    {
      terms := t;
      isSealed, attempts, ids, inFlight, calls := false, 0, {}, None, [];
      initialized, listed, connected, ended := false, false, None, None;
      busy := 0;
    }

    method AdmitCall(now: nat, id: string, name: string, available: set<string>)
      returns (refusal: Option<CallError>)
      requires Valid()
      modifies this
      ensures Valid()
      ensures (View(), refusal) == Admit(terms, old(View()), now, id, name, available)
      ensures busy == old(busy) + (if refusal == Some(Busy) then 1 else 0)
    {
      if isSealed || now >= terms.deadline { return Some(NotLive); }
      if ended.Some? { return Some(CallError.Ended); }
      if attempts >= terms.quota { return Some(QuotaSpent); }
      if id in ids { return Some(RepeatedId); }
      ids := ids + {id};
      attempts := attempts + 1;
      if name !in terms.tools || name !in available {
        calls := calls + [CallObservation(Shown(name), Denied)];
        return Some(NotGranted);
      }
      if inFlight.Some? {
        busy := busy + 1;
        return Some(Busy);
      }
      inFlight := Some(name);
      return None;
    }

    /** Called once per admitted call, by its guard: it is in flight unless the grant was sealed. */
    method SettleCall(tool: string, outcome: CallOutcome, summary: Option<string>)
      returns (recorded: bool)
      requires Valid()
      requires isSealed || inFlight == Some(tool)
      modifies this
      ensures Valid()
      ensures (View(), recorded) == Settle(old(View()), tool, outcome, summary)
      ensures busy == old(busy)
    {
      inFlight := None;
      if isSealed { return false; }
      calls := calls + [CallObservation(tool, outcome)];
      if summary.Some? { ended := summary; }
      return true;
    }

    method SealGrant() returns (record: GrantRecord)
      requires Valid()
      modifies this
      ensures Valid()
      ensures View() == Seal(old(View())) && record == Record(View())
      ensures busy == old(busy)
    {
      if !isSealed {
        isSealed := true;
        if inFlight.Some? {
          calls := calls + [CallObservation(inFlight.value, Ambiguous)];
          inFlight := None;
        }
      }
      record := GrantRecord(connected, ended, calls);
    }

    method Greet(list: bool, now: nat)
      requires Valid()
      modifies this
      ensures Valid()
      ensures View() == Handshake(old(View()), list, now)
      ensures busy == old(busy)
    {
      if list { listed := true; } else { initialized := true; }
      if initialized && listed && connected.None? && !isSealed {
        connected := Some(now);
      }
    }
  }
}
