/**
  What the reader's records mean in a Claude Code stream. It has requests and
  results but no exit codes, and a result whose request was never seen leaves
  no record. Again the record of a key is what a small automaton makes of that
  key's own blocks, and the automaton claims an outcome on exactly one kind of
  history.
 */
module ClaudeCorrelation {
  import opened Common
  import opened Utf8
  import opened NativeReader
  import opened NativeCorrelation

  // ── a Claude stream as what is said of keys ───────────────────────────

  datatype Word = Request(command: Option<Bytes>) | Told(outcome: Outcome)

  /** A block the reader acts on, of no key when a request carries no usable id. */
  datatype Said = Said(key: Option<Key>, word: Word)

  function BlockSays(session: Option<Bytes>, e: ClaudeEvent, block: Block, single: bool): seq<Said> {
    match block
    case ToolUse(isBash, id, command) =>
      if e.author.Assistant? && isBash then [Said(Keyed(session, id), Request(CommandText(command)))] else []
    case ToolResult(id, isError) =>
      if e.author.User? && Identity(id).Some?
      then [Said(Keyed(session, id), Told(
        if single && e.interrupted then Interrupted
        else if isError then Failed
        else Unobserved("claude_exit_semantics_unestablished")))]
      else []
    case OtherBlock => []
  }

  function BlocksSay(session: Option<Bytes>, e: ClaudeEvent, n: nat, single: bool): seq<Said>
    requires n <= |e.blocks|
  {
    if n == 0 then [] else BlocksSay(session, e, n - 1, single) + BlockSays(session, e, e.blocks[n - 1], single)
  }

  function EventSession(session: Option<Bytes>, e: ClaudeEvent): Option<Bytes> {
    if Identity(e.sessionId).Some? then Identity(e.sessionId) else if e.sessionId.Null? then session else None
  }

  function LineSession(session: Option<Bytes>, line: Line): Option<Bytes> {
    if line.Parsed? && line.event.Claude? then EventSession(session, line.event.claude) else session
  }

  function SessionAt(lines: seq<Line>): Option<Bytes> {
    if lines == [] then None else LineSession(SessionAt(lines[..|lines| - 1]), lines[|lines| - 1])
  }

  function LineSays(session: Option<Bytes>, line: Line): seq<Said> {
    if line.Parsed? && line.event.Claude? then
      var e := line.event.claude;
      BlocksSay(EventSession(session, e), e, |e.blocks|, ResultBlocks(e.blocks) == 1)
    else []
  }

  /** Everything the stream says, in order. */
  function Says(lines: seq<Line>): seq<Said> {
    if lines == [] then []
    else Says(lines[..|lines| - 1]) + LineSays(SessionAt(lines[..|lines| - 1]), lines[|lines| - 1])
  }

  /** What is said of one key, in order. */
  function Of(says: seq<Said>, k: Key): seq<Word> {
    if says == [] then []
    else
      var last := says[|says| - 1];
      Of(says[..|says| - 1], k) + (if last.key == Some(k) then [last.word] else [])
  }

  // ── one key's automaton ───────────────────────────────────────────────

  function WordStep(c: Cell, w: Word): Cell {
    match w
    case Request(command) => CellStep(c, Ask(command, false))
    case Told(outcome) =>
      if c.Absent? then Absent
      else if c.told then c.(outcome := Unobserved("duplicate_terminal_id"), ambiguous := true)
      else if c.ambiguous then c.(told := true)
      else c.(told := true, outcome := outcome)
  }

  function WordRun(h: seq<Word>): Cell {
    if h == [] then Absent else WordStep(WordRun(h[..|h| - 1]), h[|h| - 1])
  }

  predicate Unasked(h: seq<Word>) {
    forall i :: 0 <= i < |h| ==> h[i].Told?
  }

  predicate Whole(w: Word) {
    w.Request? && w.command.Some? && |w.command.value| <= TEXT_MAX
  }

  /** Results before any request, then one untruncated request and one result, which says `outcome`. */
  predicate PairedBy(h: seq<Word>, outcome: Outcome) {
    var n := |h| - 2;
    n >= 0 && Unasked(h[..n]) && Whole(h[n]) && h[n + 1] == Told(outcome)
  }

  /** The same as the reader tells it: the text it keeps is all of the command. */
  predicate Untruncated(w: Word) {
    w.Request? && w.command.Some? && !TextOf(w.command.value).truncated
  }

  predicate Pairs(h: seq<Word>, outcome: Outcome) {
    var n := |h| - 2;
    n >= 0 && Unasked(h[..n]) && Untruncated(h[n]) && h[n + 1] == Told(outcome)
  }

  lemma {:induction false} PairsAre(h: seq<Word>, outcome: Outcome)
    ensures Pairs(h, outcome) <==> PairedBy(h, outcome)
  {
    var n := |h| - 2;
    if n >= 0 && h[n].Request? && h[n].command.Some? { TextKept(h[n].command.value); }
    hide TextOf, Unasked;
  }

  /** What a cell that claims something has behind it. */
  ghost predicate Shaped(h: seq<Word>, c: Cell) {
    match c
    case Absent => Unasked(h)
    case Cell(outcome, ambiguous, _, told) =>
      && (ambiguous ==> outcome.Requested? || outcome.Unobserved?)
      && (!ambiguous && !told ==> outcome == Requested && h != [] && Unasked(h[..|h| - 1]) && Untruncated(h[|h| - 1]))
      && (!ambiguous && told ==> Pairs(h, outcome))
  }

  lemma {:induction false} StepShaped(h: seq<Word>, c: Cell, w: Word)
    requires Shaped(h, c)
    ensures Shaped(h + [w], WordStep(c, w))
  {
    hide TextOf;
    var more := h + [w];
    assert more[..|h|] == h;
    if w.Told? && c.Cell? && !c.told && !c.ambiguous {
      var n := |h| - 1;
      assert more[..n] == h[..n] && more[n] == h[n] && more[n + 1] == w;
    }
  }

  lemma {:induction false} RunShaped(h: seq<Word>)
    ensures Shaped(h, WordRun(h))
  {
    if h != [] {
      var n := |h| - 1;
      RunShaped(h[..n]);
      assert h[..n] + [h[n]] == h;
      StepShaped(h[..n], WordRun(h[..n]), h[n]);
      hide Shaped, WordStep;
    }
  }

  lemma {:induction false} UnaskedRuns(h: seq<Word>)
    requires Unasked(h)
    ensures WordRun(h) == Absent
  {
    if h != [] { UnaskedRuns(h[..|h| - 1]); }
  }

  lemma {:induction false} PairRuns(h: seq<Word>, outcome: Outcome)
    requires Pairs(h, outcome)
    ensures WordRun(h).Cell? && WordRun(h).outcome == outcome
  {
    hide TextOf;
    var n := |h| - 2;
    UnaskedRuns(h[..n]);
    assert h[..n + 1][..n] == h[..n];
    assert WordRun(h[..n + 1]) == WordStep(Absent, h[n]);
  }

  /** The automaton fails, or is interrupted, on exactly one kind of history. */
  lemma {:induction false} OutcomeExactly(h: seq<Word>, outcome: Outcome)
    requires outcome.Failed? || outcome.Interrupted?
    ensures (WordRun(h).Cell? && WordRun(h).outcome == outcome) <==> PairedBy(h, outcome)
  {
    RunShaped(h);
    PairsAre(h, outcome);
    hide PairedBy, WordRun;
    if Pairs(h, outcome) { PairRuns(h, outcome); }
  }

  // ── the reader runs one automaton a key ───────────────────────────────

  /** Every record is its key's automaton, and nothing asked for is missing until a record is left out. */
  ghost predicate Follows(b: Batch, says: seq<Said>) {
    && Indexed(b)
    && (forall k :: k in b.calls ==> CellOf(b, k) == WordRun(Of(says, k)))
    && (b.omitted == 0 ==> forall k :: k !in b.calls ==> WordRun(Of(says, k)) == Absent)
  }

  lemma {:induction false} RunExtends(says: seq<Said>, x: Said, k: Key)
    ensures WordRun(Of(says + [x], k)) ==
      if x.key == Some(k) then WordStep(WordRun(Of(says, k)), x.word) else WordRun(Of(says, k))
  {
    var more := says + [x];
    assert more[..|says|] == says;
    var h := Of(says, k);
    if x.key == Some(k) {
      assert Of(more, k) == h + [x.word];
      assert (h + [x.word])[..|h|] == h;
    } else {
      assert Of(more, k) == h;
    }
  }

  /** What one word may do: move its own key's automaton, and leave every other key alone. */
  ghost predicate Heeds(b: Batch, r: Batch, x: Said)
    requires Indexed(b)
  {
    && Indexed(r) && r.omitted >= b.omitted
    && (forall k :: k in b.calls ==> k in r.calls)
    && (forall k :: k in r.calls && x.key != Some(k) ==> k in b.calls && CellOf(r, k) == CellOf(b, k))
    && (forall k :: k in r.calls && x.key == Some(k) ==>
          && (k !in b.calls ==> b.omitted == 0)
          && CellOf(r, k) == WordStep(if k in b.calls then CellOf(b, k) else Absent, x.word))
    && (forall k :: k !in r.calls && x.key == Some(k) && r.omitted == 0 ==> x.word.Told?)
  }

  lemma {:induction false} HeedsFollows(b: Batch, r: Batch, says: seq<Said>, x: Said)
    requires Follows(b, says) && Heeds(b, r, x)
    ensures Follows(r, says + [x])
  {
    hide CellOf, WordRun, Indexed, Of;
    forall k | k in r.calls
      ensures CellOf(r, k) == WordRun(Of(says + [x], k))
    {
      RunExtends(says, x, k);
    }
    if r.omitted == 0 {
      forall k | k !in r.calls
        ensures WordRun(Of(says + [x], k)) == Absent
      {
        RunExtends(says, x, k);
      }
    }
  }

  // ── requests ──────────────────────────────────────────────────────────

  lemma {:induction false} RequestHeeds(b: Batch, id: Option<Bytes>, command: Field)
    requires Indexed(b)
    ensures Heeds(b, AddTo(b, id, command, true).0,
                  Said(if id.Some? then Some((b.session, id.value)) else None, Request(CommandText(command))))
  {
    var key := if id.Some? then Some((b.session, id.value)) else None;
    var x := Said(key, Request(CommandText(command)));
    var r := AddTo(b, id, command, true).0;
    var a := Ask(CommandText(command), false);
    var none := Item(Null, Null, OtherStatus, None);
    var known := id.Some? && (b.session, id.value) in b.calls;
    if !known && |b.observations| == RECORDS_MAX {
      FullHeeds(b, x);
    } else {
      if known { AskKnown(b, id.value, a, command, none); } else { AskNew(b, id, a, command, none); }
      assert Perform(b, id, a, command, none) == r;
      hide Perform, AddTo;
      MovedHeeds(b, r, key, CommandText(command));
    }
  }

  lemma {:induction false} FullHeeds(b: Batch, x: Said)
    requires Indexed(b) && |b.observations| == RECORDS_MAX && (x.key.Some? ==> x.key.value !in b.calls)
    ensures Heeds(b, b.(omitted := b.omitted + 1, incomplete := true), x)
  {
  }

  lemma {:induction false} MovedHeeds(b: Batch, r: Batch, key: Option<Key>, command: Option<Bytes>)
    requires Indexed(b) && Moved(b, r, key, Ask(command, false))
    requires (key.Some? && key.value in b.calls) || |b.observations| < RECORDS_MAX
    ensures Heeds(b, r, Said(key, Request(command)))
  {
    hide CellOf, CellStep;
  }

  // ── results ───────────────────────────────────────────────────────────

  lemma {:induction false} ResultMoves(b: Batch, e: ClaudeEvent, k: Key, single: bool, isError: bool)
    requires Indexed(b) && k in b.calls
    ensures var r := ClaudeResult(b, e, b.calls[k], single, isError);
      && r.calls == b.calls && r.omitted == b.omitted
      && CellOf(r, k) == WordStep(CellOf(b, k), Told(ResultOutcome(e, single, isError)))
  {
    TerminalEffect(b, b.calls[k]);
  }

  lemma {:induction false} ResultSpares(b: Batch, e: ClaudeEvent, k: Key, single: bool, isError: bool, other: Key)
    requires Indexed(b) && k in b.calls && other in b.calls && other != k
    ensures var r := ClaudeResult(b, e, b.calls[k], single, isError);
      r.calls == b.calls && CellOf(r, other) == CellOf(b, other)
  {
    TerminalEffect(b, b.calls[k]);
    assert b.calls[other] != b.calls[k];
  }

  lemma {:induction false} ResultHeeds(b: Batch, e: ClaudeEvent, k: Key, single: bool, isError: bool)
    requires Indexed(b) && k in b.calls
    ensures Heeds(b, ClaudeResult(b, e, b.calls[k], single, isError),
                  Said(Some(k), Told(ResultOutcome(e, single, isError))))
  {
    var r := ClaudeResult(b, e, b.calls[k], single, isError);
    ResultMoves(b, e, k, single, isError);
    hide ClaudeResult, CellOf, WordStep, ResultOutcome;
    forall other | other in r.calls && other != k
      ensures CellOf(r, other) == CellOf(b, other)
    {
      ResultSpares(b, e, k, single, isError, other);
    }
  }

  lemma {:induction false} LostResultHeeds(b: Batch, k: Key, outcome: Outcome)
    requires Indexed(b) && k !in b.calls
    ensures Heeds(b, b, Said(Some(k), Told(outcome)))
  {
  }

  // ── blocks, events, streams ───────────────────────────────────────────

  lemma {:induction false} BlockFollows(b: Batch, says: seq<Said>, e: ClaudeEvent, block: Block, single: bool)
    requires Follows(b, says)
    ensures Follows(ClaudeBlock(b, e, block, single), says + BlockSays(b.session, e, block, single))
  {
    hide Follows, Heeds, AddTo, ClaudeResult, Indexed;
    assert says + [] == says;
    FollowsIsIndexed(b, says);
    match block
    case ToolUse(isBash, id, command) =>
      if e.author.Assistant? && isBash {
        RequestHeeds(b, Identity(id), command);
        HeedsFollows(b, AddTo(b, Identity(id), command, true).0, says,
                     Said(Keyed(b.session, id), Request(CommandText(command))));
      }
    case ToolResult(id, isError) =>
      if e.author.User? && Identity(id).Some? {
        var k := (b.session, Identity(id).value);
        var x := Said(Some(k), Told(ResultOutcome(e, single, isError)));
        if k in b.calls {
          ResultHeeds(b, e, k, single, isError);
          HeedsFollows(b, ClaudeResult(b, e, b.calls[k], single, isError), says, x);
        } else {
          LostResultHeeds(b, k, ResultOutcome(e, single, isError));
          HeedsFollows(b, b, says, x);
        }
      }
    case OtherBlock =>
  }

  lemma {:induction false} FollowsIsIndexed(b: Batch, says: seq<Said>)
    requires Follows(b, says)
    ensures Indexed(b)
  {
  }

  lemma {:induction false} BlocksFollow(b: Batch, says: seq<Said>, e: ClaudeEvent, n: nat, single: bool)
    requires Follows(b, says) && n <= |e.blocks|
    ensures var r := ClaudeBlocks(b, e, n, single);
      r.session == b.session && Follows(r, says + BlocksSay(b.session, e, n, single))
  {
    hide ClaudeBlock, BlockSays, Follows, Indexed;
    FollowsIsIndexed(b, says);
    if n == 0 {
      assert says + [] == says;
    } else {
      BlocksFollow(b, says, e, n - 1, single);
      var r, so := ClaudeBlocks(b, e, n - 1, single), says + BlocksSay(b.session, e, n - 1, single);
      BlockFollows(r, so, e, e.blocks[n - 1], single);
      assert so + BlockSays(b.session, e, e.blocks[n - 1], single) == says + BlocksSay(b.session, e, n, single);
    }
  }

  lemma {:induction false} SameRecordsFollow(b: Batch, r: Batch, says: seq<Said>)
    requires Follows(b, says)
    requires r == b.(
      session := r.session, oversized := r.oversized, malformed := r.malformed, incomplete := r.incomplete)
    requires b.incomplete ==> r.incomplete
    ensures Follows(r, says)
  {
    assert Indexed(r);
    assert forall k :: k in b.calls ==> CellOf(r, k) == CellOf(b, k);
  }

  lemma {:induction false} LineFollows(b: Batch, says: seq<Said>, line: Line)
    requires Follows(b, says) && (line.Parsed? ==> line.event.Claude?)
    ensures Follows(LineStep(b, line), says + LineSays(b.session, line))
    ensures LineStep(b, line).session == LineSession(b.session, line)
  {
    hide Follows, ClaudeBlocks, BlocksSay, Indexed, ResultBlocks;
    FollowsIsIndexed(b, says);
    if line.Parsed? {
      var e := line.event.claude;
      SameRecordsFollow(b, SessionOf(b, e), says);
      BlocksFollow(SessionOf(b, e), says, e, |e.blocks|, ResultBlocks(e.blocks) == 1);
    } else {
      assert says + [] == says;
      SameRecordsFollow(b, LineStep(b, line), says);
    }
  }

  predicate IsClaude(lines: seq<Line>) {
    forall i :: 0 <= i < |lines| ==> (lines[i].Parsed? ==> lines[i].event.Claude?)
  }

  lemma {:induction false} StreamFollows(whole: bool, lines: seq<Line>)
    requires IsClaude(lines)
    ensures Follows(Fold(whole, lines), Says(lines)) && Fold(whole, lines).session == SessionAt(lines)
  {
    if lines != [] {
      var n := |lines| - 1;
      hide LineStep, LineSays, LineSession, Follows;
      StreamFollows(whole, lines[..n]);
      LineFollows(Fold(whole, lines[..n]), Says(lines[..n]), lines[n]);
    }
  }

  /**
    A recorded key reads as failed, or as interrupted, if and only if all that
    is said of it, results before its first request aside, is one untruncated
    request and one result that says so: the sole result of an interrupted
    message, or else one marked as an error.
   */
  lemma {:induction false} ClaudeOutcomeIff(whole: bool, lines: seq<Line>, i: nat, k: Key, outcome: Outcome)
    requires IsClaude(lines) && (outcome.Failed? || outcome.Interrupted?)
    requires i < |Observed(whole, lines).observations|
    requires KeyOf(Observed(whole, lines).observations[i]) == Some(k)
    ensures Observed(whole, lines).observations[i].outcome == outcome <==> PairedBy(Of(Says(lines), k), outcome)
  {
    var f := Fold(whole, lines);
    StreamFollows(whole, lines);
    OutcomeExactly(Of(Says(lines), k), outcome);
    hide Fold, WordRun, PairedBy, Of, Says;
    assert KeyOf(f.observations[i]) == Some(k);
    assert f.calls[k] == i;
    assert CellOf(f, k).outcome == f.observations[i].outcome;
  }
}
