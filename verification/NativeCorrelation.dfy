/**
  What the reader's records mean. Each Codex event is at most one action on
  one key; the record of a key is what a small automaton makes of that key's
  actions alone, whatever else was interleaved with them; and the automaton
  completes on exactly one kind of history. Together: a record is Completed if
  and only if its key's whole history is one untruncated request and one
  matching completion, in a capture with nothing missing.
 */
module NativeCorrelation {
  import opened Common
  import opened Utf8
  import opened NativeReader

  // ── a Codex stream as actions on keys ─────────────────────────────────

  datatype Action =
    | Ask(command: Option<Bytes>, legacy: bool)
    | Tell(command: Option<Bytes>, status: Status, exitCode: Option<int>)

  /** An action, on no key when the event carries no usable id. */
  datatype Act = Act(key: Option<Key>, action: Action)

  function SessionAfter(session: Option<Bytes>, line: Line): Option<Bytes> {
    if line.Parsed? && line.event.Codex? && line.event.codex.kind.ThreadStarted?
    then Identity(line.event.codex.threadId) else session
  }

  function Session(lines: seq<Line>): Option<Bytes> {
    if lines == [] then None
    else SessionAfter(Session(lines[..|lines| - 1]), lines[|lines| - 1])
  }

  function Keyed(session: Option<Bytes>, id: Field): Option<Key> {
    if Identity(id).Some? then Some((session, Identity(id).value)) else None
  }

  function ActOf(session: Option<Bytes>, e: CodexEvent): seq<Act> {
    if e.item.Some? then
      var item := e.item.value;
      if e.kind.ItemStarted? then [Act(Keyed(session, item.id), Ask(CommandText(item.command), false))]
      else if e.kind.ItemCompleted? then
        [Act(Keyed(session, item.id), Tell(CommandText(item.command), item.status, item.exitCode))]
      else []
    else if e.begin.Some? then
      [Act(Keyed(session, e.begin.value.callId), Ask(CommandText(e.begin.value.command), true))]
    else []
  }

  function LineActs(session: Option<Bytes>, line: Line): seq<Act> {
    if line.Parsed? && line.event.Codex? then ActOf(SessionAfter(session, line), line.event.codex) else []
  }

  /** Every action of the stream, in order. */
  function Acts(lines: seq<Line>): seq<Act> {
    if lines == [] then []
    else Acts(lines[..|lines| - 1]) + LineActs(Session(lines[..|lines| - 1]), lines[|lines| - 1])
  }

  /** The actions on one key, in order. */
  function History(acts: seq<Act>, k: Key): seq<Action> {
    if acts == [] then []
    else
      var last := acts[|acts| - 1];
      History(acts[..|acts| - 1], k) + (if last.key == Some(k) then [last.action] else [])
  }

  /** How many records the stream asks for: one a distinct key, one a keyless action. */
  function Keys(acts: seq<Act>): set<Key> {
    set a | a in acts && a.key.Some? :: a.key.value
  }

  function Keyless(acts: seq<Act>): nat {
    if acts == [] then 0
    else Keyless(acts[..|acts| - 1]) + (if acts[|acts| - 1].key.None? then 1 else 0)
  }

  function Wanted(acts: seq<Act>): nat {
    |Keys(acts)| + Keyless(acts)
  }

  predicate Spoils(line: Line) {
    line.Oversized? || line.Malformed?
    || (line.Parsed? && line.event.Codex? && line.event.codex.kind.ThreadStarted?
        && Identity(line.event.codex.threadId).None?)
  }

  predicate IsCodex(lines: seq<Line>) {
    forall i :: 0 <= i < |lines| ==> (lines[i].Parsed? ==> lines[i].event.Codex?)
  }

  /** Nothing of the capture is missing, stated of the stream alone. */
  predicate Intact(whole: bool, lines: seq<Line>) {
    whole && (forall i :: 0 <= i < |lines| ==> !Spoils(lines[i])) && Wanted(Acts(lines)) <= RECORDS_MAX
  }

  // ── one key's automaton ───────────────────────────────────────────────

  datatype Cell = Absent | Cell(outcome: Outcome, ambiguous: bool, command: Option<Text>, told: bool)

  function Fresh(a: Action): Cell {
    var text := if a.command.Some? then Some(TextOf(a.command.value)) else None;
    if a.Tell? then Cell(Unobserved("missing_request"), true, text, true)
    else if text.None? || text.value.truncated
    then Cell(Unobserved("missing_or_truncated_command"), true, text, false)
    else Cell(Requested, a.legacy, text, false)
  }

  function CellStep(c: Cell, a: Action): Cell {
    if c.Absent? then Fresh(a)
    else if a.Ask? then c.(outcome := Unobserved("duplicate_request_id"), ambiguous := true)
    else if c.told then c.(outcome := Unobserved("duplicate_terminal_id"), ambiguous := true)
    else if c.ambiguous then c.(told := true)
    else if a.command != (if c.command.Some? then Some(c.command.value.text) else None)
    then c.(told := true, outcome := Unobserved("terminal_command_mismatch"), ambiguous := true)
    else c.(told := true, outcome := ExitOutcome(a.status, a.exitCode))
  }

  function CellRun(h: seq<Action>): Cell {
    if h == [] then Absent else CellStep(CellRun(h[..|h| - 1]), h[|h| - 1])
  }

  /** One untruncated request through the current event shape, then one terminal of the same command. */
  predicate Paired(h: seq<Action>) {
    && |h| == 2 && h[0].Ask? && !h[0].legacy && h[1].Tell?
    && h[0].command.Some? && |h[0].command.value| <= TEXT_MAX
    && h[1].command == h[0].command
  }

  predicate CompletedBy(h: seq<Action>) {
    Paired(h) && h[1].status.StatusCompleted? && h[1].exitCode == Some(0)
  }

  predicate FailedBy(h: seq<Action>) {
    Paired(h) && !h[1].status.OtherStatus? && h[1].exitCode.Some? && h[1].exitCode.value != 0
  }

  lemma TextKept(value: Bytes)
    ensures TextOf(value).truncated <==> |value| > TEXT_MAX
    ensures !TextOf(value).truncated ==> TextOf(value).text == value
  {
  }

  /** After three actions, or a spoiled pair, a cell is ambiguous for good. */
  lemma {:induction false} CellShape(h: seq<Action>)
    ensures |h| >= 1 ==> CellRun(h).Cell?
    ensures |h| == 1 && !CellRun(h).ambiguous ==>
      h[0].Ask? && !h[0].legacy && h[0].command.Some? && |h[0].command.value| <= TEXT_MAX
      && CellRun(h) == Cell(Requested, false, Some(TextOf(h[0].command.value)), false)
    ensures |h| == 2 && !CellRun(h).ambiguous ==>
      Paired(h) && CellRun(h).outcome == ExitOutcome(h[1].status, h[1].exitCode) && CellRun(h).told
    ensures |h| >= 3 ==> CellRun(h).ambiguous
    ensures |h| >= 1 && CellRun(h).ambiguous ==> CellRun(h).outcome.Requested? || CellRun(h).outcome.Unobserved?
  {
    if |h| == 0 {
      return;
    }
    var last := |h| - 1;
    CellShape(h[..last]);
    if h[last].command.Some? { TextKept(h[last].command.value); }
    if |h| == 1 {
      assert CellRun(h[..last]) == Absent;
    } else if |h| == 2 {
      assert h[..last][0] == h[0];
      if h[0].command.Some? { TextKept(h[0].command.value); }
    }
  }

  lemma PairedRuns(h: seq<Action>)
    requires Paired(h)
    ensures CellRun(h).Cell? && CellRun(h).outcome == ExitOutcome(h[1].status, h[1].exitCode)
  {
    TextKept(h[0].command.value);
    assert h[..1][..0] == [];
    assert CellRun(h[..1]) == Fresh(h[0]);
  }

  lemma CompletedExactly(h: seq<Action>)
    ensures (CellRun(h).Cell? && CellRun(h).outcome == Completed) <==> CompletedBy(h)
    ensures (CellRun(h).Cell? && CellRun(h).outcome == Failed) <==> FailedBy(h)
  {
    CellShape(h);
    if Paired(h) { PairedRuns(h); }
  }

  /** An event is of a key exactly when its id is a string of 1 to 256 bytes, in the session of the moment. */
  lemma {:induction false} KeyedExactly(session: Option<Bytes>, id: Field, k: Key)
    ensures Keyed(session, id) == Some(k) <==> id == Str(k.1) && 1 <= |k.1| <= 256 && k.0 == session
  {
  }

  /** An event without a usable id gets a record that claims nothing, if there is room. */
  lemma {:induction false} KeylessSays(b: Batch, command: Field, start: bool)
    requires Indexed(b) && |b.observations| < 32
    ensures var (r, index) := AddTo(b, None, command, start);
      && index == Some(|b.observations|) && |r.observations| == |b.observations| + 1
      && r.observations[..|b.observations|] == b.observations && r.calls == b.calls
      && r.observations[|b.observations|].outcome == Unobserved("missing_or_oversized_correlation_id")
      && r.observations[|b.observations|].ambiguous
  {
  }

  /** What one action alone leaves: a request stands if its command is whole, and a terminal has no request. */
  lemma {:induction false} FirstActionSays(a: Action)
    ensures a.Tell? ==> CellRun([a]).outcome == Unobserved("missing_request") && CellRun([a]).ambiguous
    ensures a.Ask? ==>
      var whole := a.command.Some? && |a.command.value| <= 1024;
      && CellRun([a]).outcome == (if whole then Requested else Unobserved("missing_or_truncated_command"))
      && (CellRun([a]).ambiguous <==> !whole || a.legacy)
  {
    assert [a][..0] == [];
    if a.command.Some? { TextKept(a.command.value); }
  }

  /** What a request with its matching terminal leaves, by status and exit code. */
  lemma {:induction false} PairSays(h: seq<Action>)
    requires Paired(h)
    ensures CellRun(h).Cell? && CellRun(h).outcome ==
      if h[1].exitCode.None? || h[1].status.OtherStatus? then Unobserved("missing_or_nonterminal_status_or_exit")
      else if h[1].exitCode.value != 0 then Failed
      else if h[1].status.StatusCompleted? then Completed
      else Unobserved("contradictory_status_and_exit")
  {
    PairedRuns(h);
  }

  // ── the reader runs one automaton a key ───────────────────────────────

  function CellOf(b: Batch, k: Key): Cell
    requires Indexed(b) && k in b.calls
  {
    var o := b.observations[b.calls[k]];
    Cell(o.outcome, o.ambiguous, o.command, k in b.terminals)
  }

  /** A recorded key's record is where its automaton stands after that key's history. */
  ghost predicate Tracks(b: Batch, acts: seq<Act>)
    requires Indexed(b)
  {
    forall k :: k in b.calls ==> History(acts, k) != [] && CellOf(b, k) == CellRun(History(acts, k))
  }

  /** Until a record is left out there is one a distinct key and one a keyless action. */
  ghost predicate Counts(b: Batch, acts: seq<Act>) {
    && (b.omitted == 0 ==> b.calls.Keys == Keys(acts) && |b.observations| == |b.calls| + Keyless(acts))
    && (b.omitted > 0 ==> Wanted(acts) > RECORDS_MAX)
  }

  ghost predicate Simulates(b: Batch, acts: seq<Act>) {
    Indexed(b) && Tracks(b, acts) && Counts(b, acts)
  }

  /** One action moved its own key's automaton, opening a record if there was none, and nothing else. */
  ghost predicate Moved(b: Batch, r: Batch, key: Option<Key>, a: Action)
    requires Indexed(b)
  {
    && Indexed(r) && r.omitted == b.omitted && r.session == b.session && r.incomplete == b.incomplete
    && (key.Some? && key.value in b.calls ==> r.calls.Keys == b.calls.Keys && |r.observations| == |b.observations|)
    && (key.None? || key.value !in b.calls ==>
          && r.calls.Keys == b.calls.Keys + (if key.Some? then {key.value} else {})
          && |r.observations| == |b.observations| + 1)
    && (key.Some? && key.value in r.calls ==>
          CellOf(r, key.value) == CellStep(if key.value in b.calls then CellOf(b, key.value) else Absent, a))
    && (forall k :: k in b.calls && key != Some(k) ==> k in r.calls && CellOf(r, k) == CellOf(b, k))
  }

  /** What one action does to the batch. */
  function Perform(b: Batch, id: Option<Bytes>, a: Action, command: Field, item: Item): Batch
    requires Indexed(b)
  {
    var (added, index) := AddTo(b, id, command, a.Ask?);
    if index.None? then added
    else if a.Tell? then ItemDone(added, index.value, item)
    else if a.legacy then Put(added, index.value, added.observations[index.value].(ambiguous := true))
    else added
  }

  lemma HistoryExtends(acts: seq<Act>, act: Act, k: Key)
    ensures History(acts + [act], k) == History(acts, k) + (if act.key == Some(k) then [act.action] else [])
    ensures Keyless(acts + [act]) == Keyless(acts) + (if act.key.None? then 1 else 0)
    ensures Keys(acts + [act]) == Keys(acts) + (if act.key.Some? then {act.key.value} else {})
  {
    var more := acts + [act];
    assert more[..|more| - 1] == acts;
    assert forall x :: x in more <==> x in acts || x == act;
    if act.key.Some? { assert act in more; }
  }

  lemma {:induction false} HistoryKeys(acts: seq<Act>, k: Key)
    ensures History(acts, k) != [] <==> k in Keys(acts)
  {
    if acts != [] {
      var front := acts[..|acts| - 1];
      HistoryKeys(front, k);
      assert acts == front + [acts[|acts| - 1]];
      HistoryExtends(front, acts[|acts| - 1], k);
    }
  }

  lemma WantedGrows(acts: seq<Act>, act: Act)
    ensures Wanted(acts) <= Wanted(acts + [act])
    ensures act.key.None? || act.key.value !in Keys(acts) ==> Wanted(acts + [act]) == Wanted(acts) + 1
    ensures act.key.Some? && act.key.value in Keys(acts) ==> Wanted(acts + [act]) == Wanted(acts)
  {
    var k: Key := (None, []);
    HistoryExtends(acts, act, k);
    if act.key.Some? && act.key.value in Keys(acts) {
      assert Keys(acts) + {act.key.value} == Keys(acts);
    }
  }

  /** Only one record changes, and only its own key's terminal mark. */
  lemma TerminalEffect(b: Batch, index: nat)
    requires Indexed(b) && index < |b.observations|
    ensures var r := Terminal(b, index);
      && r == b.(observations := r.observations, terminals := r.terminals)
      && |r.observations| == |b.observations|
      && (forall j :: 0 <= j < |b.observations| && j != index ==> r.observations[j] == b.observations[j])
      && r.terminals == b.terminals + (match KeyOf(b.observations[index]) case None => {} case Some(k) => {k})
      && (KeyOf(b.observations[index]).None? || KeyOf(b.observations[index]).value !in b.terminals ==>
            r.observations == b.observations)
  {
  }

  lemma ItemDoneEffect(b: Batch, index: nat, item: Item)
    requires Indexed(b) && index < |b.observations|
    ensures var r := ItemDone(b, index, item);
      && r == b.(observations := r.observations, terminals := r.terminals)
      && |r.observations| == |b.observations|
      && (forall j :: 0 <= j < |b.observations| && j != index ==> r.observations[j] == b.observations[j])
      && r.terminals == b.terminals + (match KeyOf(b.observations[index]) case None => {} case Some(k) => {k})
  {
    TerminalEffect(b, index);
    var marked := Terminal(b, index);
    var record := marked.observations[index].(exitCode := item.exitCode);
    var noted := Put(marked, index, record);
    var r := ItemDone(b, index, item);
    assert r.observations == noted.observations[index := r.observations[index]];
  }

  lemma ItemDoneCell(b: Batch, k: Key, item: Item)
    requires Indexed(b) && k in b.calls
    ensures var r := ItemDone(b, b.calls[k], item);
      && k in r.calls
      && CellOf(r, k) == CellStep(CellOf(b, k), Tell(CommandText(item.command), item.status, item.exitCode))
  {
    ItemDoneEffect(b, b.calls[k], item);
  }

  /** A terminal moves its key's automaton. */
  lemma ItemDoneMoves(b: Batch, index: nat, item: Item)
    requires Indexed(b) && index < |b.observations|
    ensures var r := ItemDone(b, index, item);
      && r.calls == b.calls && |r.observations| == |b.observations|
      && (forall k :: k in b.calls && b.calls[k] != index ==> CellOf(r, k) == CellOf(b, k))
  {
    ItemDoneEffect(b, index, item);
    var r := ItemDone(b, index, item);
    forall k | k in b.calls && b.calls[k] != index
      ensures CellOf(r, k) == CellOf(b, k)
    {
      assert KeyOf(b.observations[index]) != Some(k);
    }
  }

  lemma PutMoves(b: Batch, index: nat, o: Observation)
    requires Indexed(b) && index < |b.observations|
    requires KeyOf(o) == KeyOf(b.observations[index]) && Cautious(o)
    ensures var r := Put(b, index, o);
      (forall k :: k in b.calls && b.calls[k] != index ==> CellOf(r, k) == CellOf(b, k))
  {
  }

  /** A request or a terminal on a key that has its record already. */
  lemma AskKnown(b: Batch, id: Bytes, a: Action, command: Field, item: Item)
    requires Indexed(b) && (b.session, id) in b.calls && a.Ask?
    ensures Moved(b, Perform(b, Some(id), a, command, item), Some((b.session, id)), a)
  {
    var key := (b.session, id);
    var index := b.calls[key];
    var o := b.observations[index].(ambiguous := true, outcome := Unobserved("duplicate_request_id"));
    var dup := Put(b, index, o);
    assert dup.observations[index := o] == dup.observations;
    assert Perform(b, Some(id), a, command, item) == dup;
    PutMoves(b, index, o);
  }

  lemma TellKnown(b: Batch, id: Bytes, a: Action, command: Field, item: Item)
    requires Indexed(b) && (b.session, id) in b.calls && a.Tell?
    requires a.command == CommandText(command)
    requires item.command == command && item.status == a.status && item.exitCode == a.exitCode
    ensures Moved(b, Perform(b, Some(id), a, command, item), Some((b.session, id)), a)
  {
    var key := (b.session, id);
    ItemDoneEffect(b, b.calls[key], item);
    ItemDoneMoves(b, b.calls[key], item);
    ItemDoneCell(b, key, item);
    assert Perform(b, Some(id), a, command, item) == ItemDone(b, b.calls[key], item);
  }

  lemma PushMoves(b: Batch, o: Observation)
    requires Indexed(b) && |b.observations| < RECORDS_MAX && Cautious(o)
    requires KeyOf(o).Some? ==> KeyOf(o).value !in b.calls
    ensures var r := Push(b, o);
      && r.calls.Keys == b.calls.Keys + (if KeyOf(o).Some? then {KeyOf(o).value} else {})
      && (KeyOf(o).Some? ==> r.calls[KeyOf(o).value] == |b.observations| && KeyOf(o).value !in r.terminals)
      && (forall k :: k in b.calls ==>
            k in r.calls && r.calls[k] == b.calls[k] < |b.observations| && CellOf(r, k) == CellOf(b, k))
  {
  }

  /** A record opened, then perhaps rewritten, is one move of its key. */
  lemma {:induction false} OpenedMoves(b: Batch, o: Observation, r: Batch, a: Action)
    requires Indexed(b) && |b.observations| < RECORDS_MAX && Cautious(o) && Indexed(r)
    requires KeyOf(o).Some? ==> KeyOf(o).value !in b.calls
    requires var added := Push(b, o);
      && r.calls == added.calls && |r.observations| == |added.observations|
      && r.omitted == b.omitted && r.session == b.session && r.incomplete == b.incomplete
      && (forall k :: k in b.calls ==> k in r.calls && CellOf(r, k) == CellOf(added, k))
      && (KeyOf(o).Some? ==> KeyOf(o).value in r.calls && CellOf(r, KeyOf(o).value) == CellStep(Absent, a))
    ensures Moved(b, r, KeyOf(o), a)
  {
    PushMoves(b, o);
    hide CellOf, CellStep, Indexed;
  }

  /** An action that opens a record. */
  lemma {:induction false} AskNew(b: Batch, id: Option<Bytes>, a: Action, command: Field, item: Item)
    requires Indexed(b) && |b.observations| < RECORDS_MAX
    requires id.Some? ==> (b.session, id.value) !in b.calls
    requires a.Ask? && a.command == CommandText(command)
    ensures Moved(b, Perform(b, id, a, command, item), if id.Some? then Some((b.session, id.value)) else None, a)
  {
    hide Moved;
    var o := NewRecord(b.session, id, CommandText(command), true);
    PerformNewAsk(b, id, a, command, item);
    PushMoves(b, o);
    hide Perform, AddTo;
    if a.legacy { PutMoves(Push(b, o), |b.observations|, o.(ambiguous := true)); }
    OpenedMoves(b, o, Perform(b, id, a, command, item), a);
  }

  lemma {:induction false} PerformNewAsk(b: Batch, id: Option<Bytes>, a: Action, command: Field, item: Item)
    requires Indexed(b) && |b.observations| < RECORDS_MAX
    requires id.Some? ==> (b.session, id.value) !in b.calls
    requires a.Ask? && a.command == CommandText(command)
    ensures var o := NewRecord(b.session, id, CommandText(command), true);
      var added := Push(b, o);
      Perform(b, id, a, command, item)
      == if a.legacy then Put(added, |b.observations|, o.(ambiguous := true)) else added
  {
    hide NewRecord;
  }

  lemma {:induction false} TellNew(b: Batch, id: Option<Bytes>, a: Action, command: Field, item: Item)
    requires Indexed(b) && |b.observations| < RECORDS_MAX
    requires id.Some? ==> (b.session, id.value) !in b.calls
    requires a.Tell? && a.command == CommandText(command)
    requires item.command == command && item.status == a.status && item.exitCode == a.exitCode
    ensures Moved(b, Perform(b, id, a, command, item), if id.Some? then Some((b.session, id.value)) else None, a)
  {
    hide Moved, ItemDone;
    var o := NewRecord(b.session, id, CommandText(command), false);
    var added := Push(b, o);
    PushMoves(b, o);
    ItemDoneEffect(added, |b.observations|, item);
    ItemDoneMoves(added, |b.observations|, item);
    if id.Some? { ItemDoneCell(added, (b.session, id.value), item); }
    OpenedMoves(b, o, ItemDone(added, |b.observations|, item), a);
  }

  /** A key's automaton steps on its own actions and stands still on others. */
  lemma HistoryMoves(acts: seq<Act>, act: Act, k: Key)
    ensures CellRun(History(acts + [act], k)) ==
      if act.key == Some(k) then CellStep(CellRun(History(acts, k)), act.action) else CellRun(History(acts, k))
    ensures act.key == Some(k) || History(acts, k) != [] ==> History(acts + [act], k) != []
  {
    HistoryExtends(acts, act, k);
    if act.key == Some(k) {
      assert History(acts + [act], k)[..|History(acts, k)|] == History(acts, k);
    } else {
      assert History(acts + [act], k) == History(acts, k);
    }
  }

  lemma MovedTracks(b: Batch, r: Batch, acts: seq<Act>, act: Act)
    requires Indexed(b) && Tracks(b, acts) && Moved(b, r, act.key, act.action)
    requires act.key.Some? && act.key.value !in b.calls ==> act.key.value !in Keys(acts)
    ensures Tracks(r, acts + [act])
  {
    forall k | k in r.calls
      ensures History(acts + [act], k) != [] && CellOf(r, k) == CellRun(History(acts + [act], k))
    {
      HistoryMoves(acts, act, k);
      if k !in b.calls {
        HistoryKeys(acts, k);
      }
    }
  }

  lemma MovedCounts(b: Batch, r: Batch, acts: seq<Act>, act: Act)
    requires Indexed(b) && Counts(b, acts) && Moved(b, r, act.key, act.action)
    ensures Counts(r, acts + [act])
  {
    HistoryExtends(acts, act, (None, []));
    WantedGrows(acts, act);
    assert |b.calls| == |b.calls.Keys| && |r.calls| == |r.calls.Keys|;
    if act.key.Some? && act.key.value in Keys(acts) {
      assert Keys(acts) + {act.key.value} == Keys(acts);
    }
  }

  /** A record that does not fit. */
  lemma FullTracks(b: Batch, r: Batch, acts: seq<Act>, act: Act)
    requires Indexed(b) && Indexed(r) && Tracks(b, acts)
    requires r == b.(omitted := r.omitted, incomplete := r.incomplete)
    requires act.key.Some? ==> act.key.value !in b.calls
    ensures Tracks(r, acts + [act])
  {
    forall k | k in r.calls
      ensures History(acts + [act], k) != [] && CellOf(r, k) == CellRun(History(acts + [act], k))
    {
      HistoryMoves(acts, act, k);
      assert CellOf(r, k) == CellOf(b, k);
    }
  }

  lemma {:induction false} FullSimulates(b: Batch, acts: seq<Act>, act: Act)
    requires Simulates(b, acts) && |b.observations| == RECORDS_MAX
    requires act.key.Some? ==> act.key.value !in b.calls
    ensures Simulates(b.(omitted := b.omitted + 1, incomplete := true), acts + [act])
  {
    hide Tracks, Keys, Keyless;
    var r := b.(omitted := b.omitted + 1, incomplete := true);
    WantedGrows(acts, act);
    assert |b.calls| == |b.calls.Keys|;
    FullTracks(b, r, acts, act);
  }

  lemma {:induction false} PerformSimulates(
    b: Batch, acts: seq<Act>, id: Option<Bytes>, a: Action, command: Field, item: Item)
    requires Simulates(b, acts)
    requires a.command == CommandText(command)
    requires a.Tell? ==> item.command == command && item.status == a.status && item.exitCode == a.exitCode
    ensures Simulates(Perform(b, id, a, command, item),
                      acts + [Act(if id.Some? then Some((b.session, id.value)) else None, a)])
  {
    hide Moved;
    var act := Act(if id.Some? then Some((b.session, id.value)) else None, a);
    var known := id.Some? && (b.session, id.value) in b.calls;
    if !known && |b.observations| == RECORDS_MAX {
      FullSimulates(b, acts, act);
    } else {
      if known {
        if a.Ask? { AskKnown(b, id.value, a, command, item); } else { TellKnown(b, id.value, a, command, item); }
        HistoryKeys(acts, (b.session, id.value));
      } else {
        if a.Ask? { AskNew(b, id, a, command, item); } else { TellNew(b, id, a, command, item); }
      }
      var r := Perform(b, id, a, command, item);
      MovedTracks(b, r, acts, act);
      MovedCounts(b, r, acts, act);
    }
  }

  lemma CodexSimulates(b: Batch, acts: seq<Act>, e: CodexEvent)
    requires Simulates(b, acts)
    ensures Simulates(CodexStep(b, e), acts + ActOf(ThreadOf(b, e).session, e))
  {
    var t := ThreadOf(b, e);
    assert Simulates(t, acts);
    var none := Item(Null, Null, OtherStatus, None);
    if e.item.Some? {
      var item := e.item.value;
      if e.kind.ItemStarted? {
        PerformSimulates(t, acts, Identity(item.id), Ask(CommandText(item.command), false), item.command, item);
      } else if e.kind.ItemCompleted? {
        PerformSimulates(t, acts, Identity(item.id),
                         Tell(CommandText(item.command), item.status, item.exitCode), item.command, item);
      } else {
        assert acts + [] == acts;
      }
    } else if e.begin.Some? {
      var begin := e.begin.value;
      PerformSimulates(t, acts, Identity(begin.callId), Ask(CommandText(begin.command), true), begin.command, none);
    } else {
      assert acts + [] == acts;
    }
  }

  // ── whole streams ─────────────────────────────────────────────────────

  predicate Spoiled(whole: bool, lines: seq<Line>) {
    !whole || exists i :: 0 <= i < |lines| && Spoils(lines[i])
  }

  lemma AddIncomplete(b: Batch, id: Option<Bytes>, command: Field, start: bool)
    requires Indexed(b)
    ensures var r := AddTo(b, id, command, start).0;
      && r.session == b.session
      && r.incomplete == (b.incomplete || r.omitted > b.omitted) && r.omitted >= b.omitted
  {
  }

  lemma CodexIncomplete(b: Batch, e: CodexEvent)
    requires Indexed(b)
    ensures var r := CodexStep(b, e);
      && r.session == SessionAfter(b.session, Parsed(Codex(e)))
      && r.incomplete == (b.incomplete || Spoils(Parsed(Codex(e))) || r.omitted > b.omitted)
      && r.omitted >= b.omitted
  {
    var t := ThreadOf(b, e);
    if e.item.Some? {
      var item := e.item.value;
      if e.kind.ItemStarted? || e.kind.ItemCompleted? {
        AddIncomplete(t, Identity(item.id), item.command, e.kind.ItemStarted?);
        var (added, index) := AddTo(t, Identity(item.id), item.command, e.kind.ItemStarted?);
        if index.Some? { ItemDoneEffect(added, index.value, item); }
      }
    } else if e.begin.Some? {
      AddIncomplete(t, Identity(e.begin.value.callId), e.begin.value.command, true);
    }
  }

  lemma LineSimulates(b: Batch, acts: seq<Act>, line: Line)
    requires Simulates(b, acts) && (line.Parsed? ==> line.event.Codex?)
    ensures Simulates(LineStep(b, line), acts + LineActs(b.session, line))
    ensures LineStep(b, line).session == SessionAfter(b.session, line)
    ensures var r := LineStep(b, line);
      r.omitted >= b.omitted && r.incomplete == (b.incomplete || Spoils(line) || r.omitted > b.omitted)
  {
    if line.Parsed? {
      CodexSimulates(b, acts, line.event.codex);
      CodexIncomplete(b, line.event.codex);
    } else {
      assert acts + [] == acts;
      SameRecordsSimulate(b, LineStep(b, line), acts);
    }
  }

  /** The whole Codex stream: every record is its key's automaton, and the flag says what is missing. */
  lemma {:induction false} FoldSimulates(whole: bool, lines: seq<Line>)
    requires IsCodex(lines)
    ensures Simulates(Fold(whole, lines), Acts(lines))
    ensures Fold(whole, lines).session == Session(lines)
    ensures Fold(whole, lines).incomplete <==> Spoiled(whole, lines) || Fold(whole, lines).omitted > 0
  {
    if lines != [] {
      var n := |lines| - 1;
      FoldSimulates(whole, lines[..n]);
      SpoiledExtends(whole, lines);
      LineSimulates(Fold(whole, lines[..n]), Acts(lines[..n]), lines[n]);
    }
  }

  lemma SpoiledExtends(whole: bool, lines: seq<Line>)
    requires lines != []
    ensures Spoiled(whole, lines) <==> Spoiled(whole, lines[..|lines| - 1]) || Spoils(lines[|lines| - 1])
  {
    var n := |lines| - 1;
    assert forall i :: 0 <= i < n ==> lines[..n][i] == lines[i];
  }

  lemma SameRecordsSimulate(b: Batch, r: Batch, acts: seq<Act>)
    requires Simulates(b, acts) && Indexed(r)
    requires r == b.(oversized := r.oversized, malformed := r.malformed, incomplete := r.incomplete)
    ensures Simulates(r, acts)
  {
    assert forall k :: k in b.calls ==> CellOf(r, k) == CellOf(b, k);
  }

  /** The index is a linear search: a key leads to the one record that has it, and there are at most 32. */
  lemma IndexIsLinearSearch(whole: bool, lines: seq<Line>, k: Key)
    ensures var b := Observed(whole, lines);
      && |b.observations| <= RECORDS_MAX
      && (forall i, j :: 0 <= i < j < |b.observations| && KeyOf(b.observations[i]).Some?
            ==> KeyOf(b.observations[i]) != KeyOf(b.observations[j]))
      && (k in b.calls <==> exists i :: 0 <= i < |b.observations| && KeyOf(b.observations[i]) == Some(k))
      && (k in b.calls ==> b.calls[k] < |b.observations| && KeyOf(b.observations[b.calls[k]]) == Some(k))
  {
    var f := Fold(whole, lines);
    var b := Downgrade(f);
    assert forall i :: 0 <= i < |f.observations| ==> KeyOf(b.observations[i]) == KeyOf(f.observations[i]);
    if k in b.calls {
      assert KeyOf(b.observations[b.calls[k]]) == Some(k);
    }
  }

  /**
    Completion means exactly this: the capture is intact, and the key's whole
    history is one untruncated request followed by one terminal of the same
    command, completed with exit 0.
   */
  lemma CompletedIff(whole: bool, lines: seq<Line>, k: Key)
    requires IsCodex(lines)
    ensures
      (exists i :: 0 <= i < |Observed(whole, lines).observations|
        && KeyOf(Observed(whole, lines).observations[i]) == Some(k)
        && Observed(whole, lines).observations[i].outcome == Completed)
      <==> Intact(whole, lines) && CompletedBy(History(Acts(lines), k))
  {
    var f := Fold(whole, lines);
    var b := Observed(whole, lines);
    var h := History(Acts(lines), k);
    FoldSimulates(whole, lines);
    CompletedExactly(h);
    HistoryKeys(Acts(lines), k);
    assert |f.calls| == |f.calls.Keys|;
    assert f.incomplete <==> !Intact(whole, lines);
    if Intact(whole, lines) && CompletedBy(h) {
      var i := f.calls[k];
      assert CellOf(f, k).outcome == Completed;
      assert b.observations[i] == f.observations[i];
    }
    forall i
      | 0 <= i < |b.observations| && KeyOf(b.observations[i]) == Some(k) && b.observations[i].outcome == Completed
      ensures Intact(whole, lines) && CompletedBy(h)
    {
      assert f.observations[i] == b.observations[i];
      assert f.calls[k] == i;
      assert CellOf(f, k).outcome == Completed;
    }
  }

  /** A recorded key reads as failed exactly on a matching pair with a nonzero exit, however the capture ended. */
  lemma FailedIff(whole: bool, lines: seq<Line>, i: nat, k: Key)
    requires IsCodex(lines)
    requires i < |Observed(whole, lines).observations|
    requires KeyOf(Observed(whole, lines).observations[i]) == Some(k)
    ensures Observed(whole, lines).observations[i].outcome == Failed <==> FailedBy(History(Acts(lines), k))
  {
    var f := Fold(whole, lines);
    FoldSimulates(whole, lines);
    CompletedExactly(History(Acts(lines), k));
    assert KeyOf(f.observations[i]) == Some(k);
    assert f.calls[k] == i;
    assert CellOf(f, k).outcome == f.observations[i].outcome;
  }

  // ── what no event can do ──────────────────────────────────────────────

  ghost predicate Settles(b: Batch, r: Batch) {
    && |b.observations| <= |r.observations|
    && (forall i :: 0 <= i < |b.observations| && b.observations[i].ambiguous ==> r.observations[i].ambiguous)
  }

  ghost predicate NoneCompleted(b: Batch) {
    forall i :: 0 <= i < |b.observations| ==> !b.observations[i].outcome.Completed?
  }

  lemma {:induction false} AddSettles(b: Batch, id: Option<Bytes>, command: Field, start: bool)
    requires Indexed(b)
    ensures Settles(b, AddTo(b, id, command, start).0)
    ensures NoneCompleted(b) ==> NoneCompleted(AddTo(b, id, command, start).0)
  {
    var r := AddTo(b, id, command, start).0;
    if id.Some? && (b.session, id.value) in b.calls {
      var index := b.calls[(b.session, id.value)];
      assert forall j :: 0 <= j < |b.observations| && j != index ==> r.observations[j] == b.observations[j];
    } else if |b.observations| < RECORDS_MAX {
      var o := NewRecord(b.session, id, CommandText(command), start);
      hide NewRecord;
      assert r.observations == b.observations + [o];
    }
  }

  lemma {:induction false} ResultSettles(b: Batch, e: ClaudeEvent, index: nat, single: bool, isError: bool)
    requires Indexed(b) && index < |b.observations|
    ensures Settles(b, ClaudeResult(b, e, index, single, isError))
    ensures NoneCompleted(b) ==> NoneCompleted(ClaudeResult(b, e, index, single, isError))
  {
    TerminalEffect(b, index);
    var r := ClaudeResult(b, e, index, single, isError);
    assert forall j :: 0 <= j < |b.observations| && j != index ==> r.observations[j] == b.observations[j];
  }

  lemma ClaudeBlockSettles(b: Batch, e: ClaudeEvent, block: Block, single: bool)
    requires Indexed(b)
    ensures Settles(b, ClaudeBlock(b, e, block, single))
    ensures NoneCompleted(b) ==> NoneCompleted(ClaudeBlock(b, e, block, single))
  {
    match block
    case ToolUse(isBash, id, command) => AddSettles(b, Identity(id), command, true);
    case ToolResult(toolUseId, isError) =>
      var id := Identity(toolUseId);
      if id.Some? && (b.session, id.value) in b.calls {
        ResultSettles(b, e, b.calls[(b.session, id.value)], single, isError);
      }
    case OtherBlock =>
  }

  lemma SettlesTwice(a: Batch, b: Batch, c: Batch)
    requires Settles(a, b) && Settles(b, c)
    ensures Settles(a, c)
  {
  }

  lemma {:induction false} ClaudeBlocksSettle(b: Batch, e: ClaudeEvent, n: nat, single: bool)
    requires Indexed(b) && n <= |e.blocks|
    ensures Settles(b, ClaudeBlocks(b, e, n, single))
  {
    hide ClaudeBlock;
    if n > 0 {
      var mid := ClaudeBlocks(b, e, n - 1, single);
      ClaudeBlocksSettle(b, e, n - 1, single);
      ClaudeBlockSettles(mid, e, e.blocks[n - 1], single);
      SettlesTwice(b, mid, ClaudeBlocks(b, e, n, single));
    }
  }

  lemma {:induction false} ClaudeBlocksComplete(b: Batch, e: ClaudeEvent, n: nat, single: bool)
    requires Indexed(b) && n <= |e.blocks| && NoneCompleted(b)
    ensures NoneCompleted(ClaudeBlocks(b, e, n, single))
  {
    hide ClaudeBlock;
    if n > 0 {
      ClaudeBlocksComplete(b, e, n - 1, single);
      ClaudeBlockSettles(ClaudeBlocks(b, e, n - 1, single), e, e.blocks[n - 1], single);
    }
  }

  lemma ItemSettles(b: Batch, index: nat, item: Item)
    requires Indexed(b) && index < |b.observations|
    ensures Settles(b, ItemDone(b, index, item))
  {
    ItemDoneEffect(b, index, item);
    TerminalEffect(b, index);
  }

  lemma ActionSettles(b: Batch, id: Option<Bytes>, a: Action, command: Field, item: Item)
    requires Indexed(b)
    ensures Settles(b, Perform(b, id, a, command, item))
  {
    var (added, index) := AddTo(b, id, command, a.Ask?);
    AddSettles(b, id, command, a.Ask?);
    if index.Some? && a.Tell? {
      ItemSettles(added, index.value, item);
      SettlesTwice(b, added, ItemDone(added, index.value, item));
    }
  }

  lemma {:induction false} CodexSettles(b: Batch, e: CodexEvent)
    requires Indexed(b)
    ensures Settles(b, CodexStep(b, e))
  {
    hide AddTo, ItemDone, Put;
    var t := ThreadOf(b, e);
    var none := Item(Null, Null, OtherStatus, None);
    if e.item.Some? {
      var item := e.item.value;
      if e.kind.ItemStarted? {
        ActionSettles(t, Identity(item.id), Ask(CommandText(item.command), false), item.command, item);
      } else if e.kind.ItemCompleted? {
        ActionSettles(t, Identity(item.id), Tell(CommandText(item.command), item.status, item.exitCode),
                      item.command, item);
      }
    } else if e.begin.Some? {
      var begin := e.begin.value;
      ActionSettles(t, Identity(begin.callId), Ask(CommandText(begin.command), true), begin.command, none);
    }
  }

  lemma {:induction false} ClaudeSettles(b: Batch, e: ClaudeEvent)
    requires Indexed(b)
    ensures Settles(b, ClaudeStep(b, e))
    ensures NoneCompleted(b) ==> NoneCompleted(ClaudeStep(b, e))
  {
    hide ClaudeBlocks;
    var start, single := SessionOf(b, e), ResultBlocks(e.blocks) == 1;
    ClaudeBlocksSettle(start, e, |e.blocks|, single);
    if NoneCompleted(start) { ClaudeBlocksComplete(start, e, |e.blocks|, single); }
    SettlesTwice(b, start, ClaudeStep(b, e));
  }

  lemma LineSettles(b: Batch, line: Line)
    requires Indexed(b)
    ensures Settles(b, LineStep(b, line))
    ensures NoneCompleted(b) && (line.Parsed? ==> line.event.Claude?) ==> NoneCompleted(LineStep(b, line))
  {
    if line.Parsed? {
      match line.event
      case Claude(e) => ClaudeSettles(b, e);
      case Codex(e) => CodexSettles(b, e);
    }
  }

  /** Whatever follows, an ambiguous record never comes to claim an outcome. */
  lemma {:induction false} AmbiguityIsFinal(whole: bool, lines: seq<Line>, more: seq<Line>, i: nat)
    requires i < |Fold(whole, lines).observations| && Fold(whole, lines).observations[i].ambiguous
    ensures var b := Observed(whole, lines + more);
      && i < |b.observations| && b.observations[i].ambiguous
      && (b.observations[i].outcome.Requested? || b.observations[i].outcome.Unobserved?)
  {
    AmbiguityStays(whole, lines, more, i);
    var f := Fold(whole, lines + more);
    assert Cautious(f.observations[i]);
  }

  lemma {:induction false} AmbiguityStays(whole: bool, lines: seq<Line>, more: seq<Line>, i: nat)
    requires i < |Fold(whole, lines).observations| && Fold(whole, lines).observations[i].ambiguous
    ensures i < |Fold(whole, lines + more).observations| && Fold(whole, lines + more).observations[i].ambiguous
    decreases |more|
  {
    hide LineStep, Indexed;
    if more == [] {
      assert lines + more == lines;
    } else {
      var n := |more| - 1;
      AmbiguityStays(whole, lines, more[..n], i);
      assert (lines + more)[..|lines + more| - 1] == lines + more[..n];
      LineSettles(Fold(whole, lines + more[..n]), more[n]);
    }
  }

  /** A Claude stream has requests and results but no exit contract: nothing in it is ever Completed. */
  lemma {:induction false} ClaudeNeverCompletes(whole: bool, lines: seq<Line>)
    requires forall i :: 0 <= i < |lines| ==> (lines[i].Parsed? ==> lines[i].event.Claude?)
    ensures NoneCompleted(Fold(whole, lines)) && NoneCompleted(Observed(whole, lines))
  {
    if lines != [] {
      var n := |lines| - 1;
      ClaudeNeverCompletes(whole, lines[..n]);
      LineSettles(Fold(whole, lines[..n]), lines[n]);
    }
  }
}
