/**
  The streaming reader of one native child's captured output
  (crates/rustykrab-agent/src/native_observation.rs): events as parsed, the
  reader's state as a value with a function per operation. NativeObserver has
  the class that updates that state in place, and NativeCorrelation proves
  what the result means.
 */
module NativeReader {
  import opened Common
  import opened Utf8

  const INPUT_MAX: nat := 4 * 1024 * 1024
  const LINE_MAX: nat := 256 * 1024
  const RECORDS_MAX: nat := 32
  const TEXT_MAX: nat := 1024
  const ID_MAX: nat := 256

  // ── bounded text ──────────────────────────────────────────────────────

  datatype Text = Text(text: Bytes, originalBytes: nat, truncated: bool)

  /** The last boundary at or before `i`. */
  function FloorBoundary(s: Bytes, i: nat): (end: nat)
    requires i <= |s|
    ensures end <= i && IsBoundary(s, end)
    ensures forall j :: end < j <= i ==> !IsBoundary(s, j)
  {
    if IsBoundary(s, i) then i else FloorBoundary(s, i - 1)
  }

  function TextOf(value: Bytes): Text {
    var end := FloorBoundary(value, Min(|value|, TEXT_MAX));
    Text(value[..end], |value|, end < |value|)
  }

  method NewText(value: Bytes) returns (t: Text)
    ensures t == TextOf(value)
    ensures t.text <= value && |t.text| <= TEXT_MAX && IsBoundary(value, |t.text|)
    ensures t.truncated <==> |value| > TEXT_MAX
    ensures t.truncated <==> t.text != value
  {
    var end := Min(|value|, TEXT_MAX);
    while !IsBoundary(value, end)
      invariant 0 <= end <= Min(|value|, TEXT_MAX)
      invariant FloorBoundary(value, Min(|value|, TEXT_MAX)) == FloorBoundary(value, end)
      decreases end
    {
      end := end - 1;
    }
    t := Text(value[..end], |value|, end < |value|);
  }

  // ── parsed events ─────────────────────────────────────────────────────

  /** A JSON field, as far as the reader looks: an absent one reads as null. */
  datatype Field = Null | Str(s: Bytes) | Strings(rendered: Bytes) | Other

  function Identity(f: Field): Option<Bytes> {
    if f.Str? && 0 < |f.s| <= ID_MAX then Some(f.s) else None
  }

  /** `Reader::command`: a string, or an array of strings as its JSON text. */
  function CommandText(f: Field): Option<Bytes> {
    match f
    case Str(s) => Some(s)
    case Strings(rendered) => Some(rendered)
    case _ => None
  }

  datatype Kind = ThreadStarted | ItemStarted | ItemCompleted | OtherKind
  datatype Status = StatusCompleted | StatusFailed | OtherStatus

  datatype Item = Item(id: Field, command: Field, status: Status, exitCode: Option<int>)
  datatype Begin = Begin(callId: Field, command: Field)

  /** `item` when it is a command execution, `begin` when `msg` is a legacy begin. */
  datatype CodexEvent = CodexEvent(kind: Kind, threadId: Field, item: Option<Item>, begin: Option<Begin>)

  datatype Author = Assistant | User | OtherAuthor
  datatype Block =
    | ToolUse(isBash: bool, id: Field, command: Field)
    | ToolResult(toolUseId: Field, isError: bool)
    | OtherBlock

  datatype ClaudeEvent = ClaudeEvent(sessionId: Field, author: Author, blocks: seq<Block>, interrupted: bool)

  datatype Event = Codex(codex: CodexEvent) | Claude(claude: ClaudeEvent)

  /** One line of the capture after the size and syntax checks. */
  datatype Line = Blank | Oversized | Malformed | Parsed(event: Event)

  // ── the reader's state ────────────────────────────────────────────────

  datatype Outcome = Requested | Completed | Failed | Interrupted | Unobserved(reason: string)

  datatype Observation = Observation(
    session: Option<Bytes>,
    correlation: Option<Bytes>,
    command: Option<Text>,
    outcome: Outcome,
    exitCode: Option<int>,
    ambiguous: bool)

  type Key = (Option<Bytes>, Bytes)

  function KeyOf(o: Observation): Option<Key> {
    if o.correlation.Some? then Some((o.session, o.correlation.value)) else None
  }

  datatype Batch = Batch(
    observations: seq<Observation>,
    session: Option<Bytes>,
    calls: map<Key, nat>,
    terminals: set<Key>,
    incomplete: bool,
    oversized: nat,
    malformed: nat,
    omitted: nat)

  function Empty(whole: bool): Batch {
    Batch([], None, map[], {}, !whole, 0, 0, 0)
  }

  /**
    The key index and the records agree: every key of a record leads to that
    record and to no other, records stay within the cap, and an ambiguous
    record claims no outcome.
   */
  ghost predicate Indexed(b: Batch) {
    && |b.observations| <= RECORDS_MAX
    && (forall k :: k in b.calls ==>
          b.calls[k] < |b.observations| && KeyOf(b.observations[b.calls[k]]) == Some(k))
    && (forall i :: 0 <= i < |b.observations| ==>
          var k := KeyOf(b.observations[i]);
          k.Some? ==> k.value in b.calls && b.calls[k.value] == i)
    && (forall i :: 0 <= i < |b.observations| ==> Cautious(b.observations[i]))
    && b.terminals <= b.calls.Keys
    && (b.omitted > 0 ==> b.incomplete && |b.observations| == RECORDS_MAX)
  }

  /** An ambiguous record claims nothing, and one without an id is ambiguous. */
  predicate Cautious(o: Observation) {
    && (o.ambiguous ==> o.outcome.Requested? || o.outcome.Unobserved?)
    && (o.correlation.None? ==> o.ambiguous)
  }

  /** Rewrite one record under the same key. */
  function Put(b: Batch, index: nat, o: Observation): (r: Batch)
    requires Indexed(b) && index < |b.observations|
    requires KeyOf(o) == KeyOf(b.observations[index]) && Cautious(o)
    ensures Indexed(r) && r == b.(observations := b.observations[index := o])
  {
    b.(observations := b.observations[index := o])
  }

  /** A record under a new key, or under none. */
  function Push(b: Batch, o: Observation): (r: Batch)
    requires Indexed(b) && |b.observations| < RECORDS_MAX && Cautious(o)
    requires KeyOf(o).Some? ==> KeyOf(o).value !in b.calls
    ensures Indexed(r)
  {
    b.(observations := b.observations + [o],
       calls := if KeyOf(o).Some? then b.calls[KeyOf(o).value := |b.observations|] else b.calls)
  }

  function Invalidate(b: Batch, index: nat, reason: string): (r: Batch)
    requires Indexed(b) && index < |b.observations|
    ensures Indexed(r)
  {
    Put(b, index, b.observations[index].(ambiguous := true, outcome := Unobserved(reason)))
  }

  function NewRecord(session: Option<Bytes>, id: Option<Bytes>, command: Option<Bytes>, start: bool): Observation {
    var text := if command.Some? then Some(TextOf(command.value)) else None;
    var outcome :=
      if id.None? then Unobserved("missing_or_oversized_correlation_id")
      else if !start then Unobserved("missing_request")
      else if text.None? || text.value.truncated then Unobserved("missing_or_truncated_command")
      else Requested;
    Observation(session, id, text, outcome, None, outcome != Requested)
  }

  /** `Reader::add`: the record of `id`, made if it is new and there is room. */
  function AddTo(b: Batch, id: Option<Bytes>, command: Field, start: bool): (r: (Batch, Option<nat>))
    requires Indexed(b)
    ensures Indexed(r.0)
    ensures r.1.Some? ==> r.1.value < |r.0.observations|
    ensures r.1.Some? ==> KeyOf(r.0.observations[r.1.value]) == if id.Some? then Some((b.session, id.value)) else None
  {
    if id.Some? && (b.session, id.value) in b.calls then
      var index := b.calls[(b.session, id.value)];
      (if start then Invalidate(b, index, "duplicate_request_id") else b, Some(index))
    else if |b.observations| == RECORDS_MAX then
      (b.(omitted := b.omitted + 1, incomplete := true), None)
    else
      (Push(b, NewRecord(b.session, id, CommandText(command), start)), Some(|b.observations|))
  }

  /** `Reader::terminal`: a second terminal of the same key invalidates its record. */
  function Terminal(b: Batch, index: nat): (r: Batch)
    requires Indexed(b) && index < |b.observations|
    ensures Indexed(r) && |r.observations| == |b.observations|
    ensures KeyOf(r.observations[index]) == KeyOf(b.observations[index])
  {
    match KeyOf(b.observations[index])
    case None => b
    case Some(k) =>
      if k in b.terminals then Invalidate(b, index, "duplicate_terminal_id")
      else b.(terminals := b.terminals + {k})
  }

  function ExitOutcome(status: Status, exitCode: Option<int>): Outcome {
    match (status, exitCode)
    case (StatusCompleted, Some(code)) => if code == 0 then Completed else Failed
    case (StatusFailed, Some(code)) =>
      if code == 0 then Unobserved("contradictory_status_and_exit") else Failed
    case _ => Unobserved("missing_or_nonterminal_status_or_exit")
  }

  function ItemDone(b: Batch, index: nat, item: Item): (r: Batch)
    requires Indexed(b) && index < |b.observations|
    ensures Indexed(r)
  {
    var marked := Terminal(b, index);
    var record := marked.observations[index].(exitCode := item.exitCode);
    var noted := Put(marked, index, record);
    if record.ambiguous then noted
    else if CommandText(item.command) != (if record.command.Some? then Some(record.command.value.text) else None)
    then Invalidate(noted, index, "terminal_command_mismatch")
    else Put(noted, index, record.(outcome := ExitOutcome(item.status, item.exitCode)))
  }

  function ThreadOf(b: Batch, e: CodexEvent): Batch {
    if e.kind.ThreadStarted? then
      b.(session := Identity(e.threadId), incomplete := b.incomplete || Identity(e.threadId).None?)
    else b
  }

  /** `Reader::codex`. */
  function CodexStep(b: Batch, e: CodexEvent): (r: Batch)
    requires Indexed(b)
    ensures Indexed(r)
  {
    var b := ThreadOf(b, e);
    if e.item.Some? then
      if !e.kind.ItemStarted? && !e.kind.ItemCompleted? then b
      else
        var (added, index) := AddTo(b, Identity(e.item.value.id), e.item.value.command, e.kind.ItemStarted?);
        if index.None? || e.kind.ItemStarted? then added
        else ItemDone(added, index.value, e.item.value)
    else if e.begin.Some? then
      var (added, index) := AddTo(b, Identity(e.begin.value.callId), e.begin.value.command, true);
      if index.None? then added
      else Put(added, index.value, added.observations[index.value].(ambiguous := true))
    else b
  }

  /** What one result says: Claude Code's has no exit code. */
  function ResultOutcome(e: ClaudeEvent, single: bool, isError: bool): Outcome {
    if single && e.interrupted then Interrupted
    else if isError then Failed
    else Unobserved("claude_exit_semantics_unestablished")
  }

  function ClaudeResult(b: Batch, e: ClaudeEvent, index: nat, single: bool, isError: bool): (r: Batch)
    requires Indexed(b) && index < |b.observations|
    ensures Indexed(r) && r.session == b.session
  {
    var marked := Terminal(b, index);
    var record := marked.observations[index];
    if record.ambiguous then marked
    else
      Put(marked, index, record.(outcome := ResultOutcome(e, single, isError)))
  }

  function ClaudeBlock(b: Batch, e: ClaudeEvent, block: Block, single: bool): (r: Batch)
    requires Indexed(b)
    ensures Indexed(r) && r.session == b.session
  {
    match block
    case ToolUse(isBash, id, command) =>
      if e.author.Assistant? && isBash then AddTo(b, Identity(id), command, true).0 else b
    case ToolResult(toolUseId, isError) =>
      var id := Identity(toolUseId);
      if e.author.User? && id.Some? && (b.session, id.value) in b.calls
      then ClaudeResult(b, e, b.calls[(b.session, id.value)], single, isError)
      else b
    case OtherBlock => b
  }

  function ClaudeBlocks(b: Batch, e: ClaudeEvent, n: nat, single: bool): (r: Batch)
    requires Indexed(b) && n <= |e.blocks|
    ensures Indexed(r)
  {
    if n == 0 then b
    else ClaudeBlock(ClaudeBlocks(b, e, n - 1, single), e, e.blocks[n - 1], single)
  }

  function ResultBlocks(blocks: seq<Block>): nat {
    if blocks == [] then 0
    else ResultBlocks(blocks[..|blocks| - 1]) + (if blocks[|blocks| - 1].ToolResult? then 1 else 0)
  }

  function SessionOf(b: Batch, e: ClaudeEvent): Batch {
    if Identity(e.sessionId).Some? then b.(session := Identity(e.sessionId))
    else if !e.sessionId.Null? then b.(session := None, incomplete := true)
    else b
  }

  /** `Reader::claude`. */
  function ClaudeStep(b: Batch, e: ClaudeEvent): (r: Batch)
    requires Indexed(b)
    ensures Indexed(r)
  {
    ClaudeBlocks(SessionOf(b, e), e, |e.blocks|, ResultBlocks(e.blocks) == 1)
  }

  function LineStep(b: Batch, line: Line): (r: Batch)
    requires Indexed(b)
    ensures Indexed(r)
  {
    match line
    case Blank => b
    case Oversized => b.(oversized := b.oversized + 1, incomplete := true)
    case Malformed => b.(malformed := b.malformed + 1, incomplete := true)
    case Parsed(Codex(e)) => CodexStep(b, e)
    case Parsed(Claude(e)) => ClaudeStep(b, e)
  }

  function Fold(whole: bool, lines: seq<Line>): (r: Batch)
    ensures Indexed(r)
  {
    if lines == [] then Empty(whole)
    else LineStep(Fold(whole, lines[..|lines| - 1]), lines[|lines| - 1])
  }

  /** The last pass: an incomplete capture completes nothing. */
  function Downgrade(b: Batch): (r: Batch)
    ensures r == b.(observations := r.observations) && |r.observations| == |b.observations|
    ensures forall i :: 0 <= i < |b.observations| ==>
      r.observations[i] ==
        if b.incomplete && b.observations[i].outcome.Completed?
        then b.observations[i].(outcome := Unobserved("incomplete_capture"))
        else b.observations[i]
  {
    b.(observations := seq(|b.observations|, i requires 0 <= i < |b.observations| =>
        if b.incomplete && b.observations[i].outcome.Completed?
        then b.observations[i].(outcome := Unobserved("incomplete_capture"))
        else b.observations[i]))
  }

  function Observed(whole: bool, lines: seq<Line>): Batch {
    Downgrade(Fold(whole, lines))
  }
}
