/** The reader as the source has it: one object updated event by event, and the loop over a capture. */
module NativeObserver {
  import opened Common
  import opened Utf8
  import opened NativeReader

  class Reader {
    var observations: seq<Observation>
    var session: Option<Bytes>
    var calls: map<Key, nat>
    var terminals: set<Key>
    var incomplete: bool
    var oversized: nat
    var malformed: nat
    var omitted: nat

    function View(): Batch
      reads this
    {
      Batch(observations, session, calls, terminals, incomplete, oversized, malformed, omitted)
    }

    ghost predicate Valid()
      reads this
    {
      Indexed(View())
    }

    constructor (whole: bool)
      ensures Valid() && View() == Empty(whole)
    {
      observations, session, calls, terminals := [], None, map[], {};
      incomplete, oversized, malformed, omitted := !whole, 0, 0, 0;
    }

    method Add(id: Option<Bytes>, command: Field, start: bool) returns (index: Option<nat>)
      requires Valid()
      modifies this
      ensures Valid() && (View(), index) == AddTo(old(View()), id, command, start)
    {
      if id.Some? && (session, id.value) in calls {
        var found := calls[(session, id.value)];
        if start { InvalidateAt(found, "duplicate_request_id"); }
        return Some(found);
      }
      if |observations| == RECORDS_MAX {
        omitted := omitted + 1;
        incomplete := true;
        return None;
      }
      var at := |observations|;
      PushNew(id, NewRecord(session, id, CommandText(command), start));
      return Some(at);
    }

    method PushNew(id: Option<Bytes>, o: Observation)
      requires Valid() && |observations| < RECORDS_MAX && Cautious(o)
      requires KeyOf(o) == if id.Some? then Some((session, id.value)) else None
      requires KeyOf(o).Some? ==> KeyOf(o).value !in calls
      modifies this`observations, this`calls
      ensures Valid() && View() == Push(old(View()), o)
    {
      ghost var next := Push(View(), o);
      var at := |observations|;
      observations := observations + [o];
      if id.Some? { calls := calls[(session, id.value) := at]; }
      assert View() == next;
    }

    method PutAt(index: nat, o: Observation)
      requires Valid() && index < |observations|
      requires KeyOf(o) == KeyOf(observations[index]) && Cautious(o)
      modifies this`observations
      ensures Valid() && View() == Put(old(View()), index, o)
    {
      ghost var next := Put(View(), index, o);
      observations := observations[index := o];
      assert View() == next;
    }

    method InvalidateAt(index: nat, reason: string)
      requires Valid() && index < |observations|
      modifies this
      ensures Valid() && View() == Invalidate(old(View()), index, reason)
    {
      observations := observations[index := observations[index].(ambiguous := true, outcome := Unobserved(reason))];
    }

    method MarkTerminal(index: nat)
      requires Valid() && index < |observations|
      modifies this
      ensures Valid() && View() == Terminal(old(View()), index)
    {
      var record := observations[index];
      if record.correlation.Some? {
        var key := (record.session, record.correlation.value);
        if key in terminals {
          InvalidateAt(index, "duplicate_terminal_id");
        } else {
          terminals := terminals + {key};
        }
      }
    }

    method ReadCodex(e: CodexEvent)
      requires Valid()
      modifies this
      ensures Valid() && View() == CodexStep(old(View()), e)
    {
      if e.kind.ThreadStarted? {
        session := Identity(e.threadId);
        if session.None? { incomplete := true; }
      }
      if e.item.Some? {
        if !e.kind.ItemStarted? && !e.kind.ItemCompleted? { return; }
        var item := e.item.value;
        var index := Add(Identity(item.id), item.command, e.kind.ItemStarted?);
        if index.None? || e.kind.ItemStarted? { return; }
        FinishItem(index.value, item);
      } else if e.begin.Some? {
        var index := Add(Identity(e.begin.value.callId), e.begin.value.command, true);
        if index.Some? {
          PutAt(index.value, observations[index.value].(ambiguous := true));
        }
      }
    }

    method FinishItem(index: nat, item: Item)
      requires Valid() && index < |observations|
      modifies this
      ensures Valid() && View() == ItemDone(old(View()), index, item)
    {
      MarkTerminal(index);
      PutAt(index, observations[index].(exitCode := item.exitCode));
      var record := observations[index];
      if record.ambiguous { return; }
      if CommandText(item.command) != (if record.command.Some? then Some(record.command.value.text) else None) {
        InvalidateAt(index, "terminal_command_mismatch");
        return;
      }
      PutAt(index, record.(outcome := ExitOutcome(item.status, item.exitCode)));
    }

    method ReadClaude(e: ClaudeEvent)
      requires Valid()
      modifies this
      ensures Valid() && View() == ClaudeStep(old(View()), e)
    {
      if Identity(e.sessionId).Some? {
        session := Identity(e.sessionId);
      } else if !e.sessionId.Null? {
        session := None;
        incomplete := true;
      }
      var results := CountResults(e.blocks);
      ReadBlocks(e, results == 1);
    }

    static method CountResults(blocks: seq<Block>) returns (results: nat)
      ensures results == ResultBlocks(blocks)
    {
      results := 0;
      for i := 0 to |blocks|
        invariant results == ResultBlocks(blocks[..i])
      {
        assert blocks[..i + 1][..i] == blocks[..i];
        if blocks[i].ToolResult? { results := results + 1; }
      }
      assert blocks[..|blocks|] == blocks;
    }

    method ReadBlocks(e: ClaudeEvent, single: bool)
      requires Valid()
      modifies this
      ensures Valid() && View() == ClaudeBlocks(old(View()), e, |e.blocks|, single)
    {
      ghost var start := View();
      for n := 0 to |e.blocks|
        invariant Valid() && View() == ClaudeBlocks(start, e, n, single)
      {
        ReadBlock(e, e.blocks[n], single);
      }
    }

    method ReadBlock(e: ClaudeEvent, block: Block, single: bool)
      requires Valid()
      modifies this
      ensures Valid() && View() == ClaudeBlock(old(View()), e, block, single)
    {
      match block
      case ToolUse(isBash, id, command) =>
        if e.author.Assistant? && isBash { var _ := Add(Identity(id), command, true); }
      case ToolResult(toolUseId, isError) =>
        var id := Identity(toolUseId);
        if !e.author.User? || id.None? || (session, id.value) !in calls { return; }
        var index := calls[(session, id.value)];
        MarkTerminal(index);
        var record := observations[index];
        if record.ambiguous { return; }
        PutAt(index, record.(outcome := ResultOutcome(e, single, isError)));
      case OtherBlock =>
    }

    method ReadLine(line: Line)
      requires Valid()
      modifies this
      ensures Valid() && View() == LineStep(old(View()), line)
    {
      match line
      case Blank =>
      case Oversized =>
        oversized := oversized + 1;
        incomplete := true;
      case Malformed =>
        malformed := malformed + 1;
        incomplete := true;
      case Parsed(Codex(e)) => ReadCodex(e);
      case Parsed(Claude(e)) => ReadClaude(e);
    }

    /** The loop over a capture's lines. */
    method ReadLines(lines: seq<Line>, ghost whole: bool)
      requires Valid() && View() == Empty(whole)
      modifies this
      ensures Valid() && View() == Fold(whole, lines)
    {
      hide LineStep, Indexed;
      for n := 0 to |lines|
        invariant Valid() && View() == Fold(whole, lines[..n])
      {
        assert lines[..n + 1][..n] == lines[..n];
        ReadLine(lines[n]);
      }
      assert lines[..|lines|] == lines;
    }

    method DowngradeIncomplete()
      requires Valid()
      modifies this
      ensures View() == Downgrade(old(View()))
    {
      if incomplete {
        var i := 0;
        while i < |observations|
          invariant 0 <= i <= |observations| == |old(observations)|
          invariant View() == old(View()).(observations := observations)
          invariant forall j :: 0 <= j < i ==> observations[j] == Downgrade(old(View())).observations[j]
          invariant forall j :: i <= j < |observations| ==> observations[j] == old(observations[j])
        {
          if observations[i].outcome.Completed? {
            observations := observations[i := observations[i].(outcome := Unobserved("incomplete_capture"))];
          }
          i := i + 1;
        }
      }
      assert observations == Downgrade(old(View())).observations;
    }
  }

  // ── one capture ───────────────────────────────────────────────────────

  const NEWLINE: byte := 10

  /** `split` on newlines: one more piece than there are newlines. */
  function Split(s: Bytes): (pieces: seq<Bytes>)
    ensures |pieces| >= 1
    decreases |s|
  {
    if s == [] then [[]]
    else
      var rest := Split(s[1..]);
      if s[0] == NEWLINE then [[]] + rest else [[s[0]] + rest[0]] + rest[1..]
  }

  function Classify(piece: Bytes, parse: Bytes -> Option<Event>): Line {
    if piece == [] then Blank
    else if |piece| > LINE_MAX then Oversized
    else match parse(piece) case None => Malformed case Some(event) => Parsed(event)
  }

  function Classified(pieces: seq<Bytes>, parse: Bytes -> Option<Event>): (lines: seq<Line>)
    ensures |lines| == |pieces|
    ensures forall i :: 0 <= i < |pieces| ==> lines[i] == Classify(pieces[i], parse)
  {
    seq(|pieces|, i requires 0 <= i < |pieces| => Classify(pieces[i], parse))
  }

  function CaptureLines(stdout: Bytes, parse: Bytes -> Option<Event>): seq<Line> {
    Classified(Split(stdout[..Min(|stdout|, INPUT_MAX)]), parse)
  }

  // ── what a capture is, without saying how it is split ─────────────────

  /** Pieces between newlines. */
  function Joined(pieces: seq<Bytes>): Bytes
    requires pieces != []
  {
    if |pieces| == 1 then pieces[0] else pieces[0] + [10] + Joined(pieces[1..])
  }

  ghost predicate SplitInto(s: Bytes, pieces: seq<Bytes>) {
    && pieces != [] && Joined(pieces) == s
    && forall i, j :: 0 <= i < |pieces| && 0 <= j < |pieces[i]| ==> pieces[i][j] != 10
  }

  /** An event the parser reads, a line it does not, or nothing; a line over 256 KiB is not tried. */
  ghost predicate LineOf(piece: Bytes, line: Line, parse: Bytes -> Option<Event>) {
    match line
    case Blank => piece == []
    case Oversized => |piece| > 262_144
    case Malformed => 0 < |piece| <= 262_144 && parse(piece).None?
    case Parsed(event) => 0 < |piece| <= 262_144 && parse(piece) == Some(event)
  }

  ghost predicate ReadAs(pieces: seq<Bytes>, lines: seq<Line>, parse: Bytes -> Option<Event>) {
    |lines| == |pieces| && forall i :: 0 <= i < |pieces| ==> LineOf(pieces[i], lines[i], parse)
  }

  /** The first 4 MiB. */
  function Input(stdout: Bytes): Bytes {
    if |stdout| <= 4_194_304 then stdout else stdout[..4_194_304]
  }

  lemma {:induction false} SplitIs(s: Bytes)
    ensures SplitInto(s, Split(s))
    decreases |s|
  {
    if s != [] {
      SplitIs(s[1..]);
      assert s == [s[0]] + s[1..];
      hide SplitInto;
      if s[0] == NEWLINE { NewlineBefore(s[1..], Split(s[1..])); } else { ByteBefore(s[0], s[1..], Split(s[1..])); }
    }
  }

  lemma {:induction false} NewlineBefore(s: Bytes, pieces: seq<Bytes>)
    requires SplitInto(s, pieces)
    ensures SplitInto([10] + s, [[]] + pieces)
  {
    assert ([[]] + pieces)[1..] == pieces;
  }

  lemma {:induction false} ByteBefore(b: byte, s: Bytes, pieces: seq<Bytes>)
    requires SplitInto(s, pieces) && b != 10
    ensures SplitInto([b] + s, [[b] + pieces[0]] + pieces[1..])
  {
    var first := [b] + pieces[0];
    var more := [first] + pieces[1..];
    assert more[1..] == pieces[1..];
    assert Joined(more) == [b] + Joined(pieces);
    assert forall j :: 1 <= j < |first| ==> first[j] == pieces[0][j - 1];
  }

  lemma {:induction false} CaptureRead(stdout: Bytes, parse: Bytes -> Option<Event>)
    ensures exists pieces ::
      SplitInto(Input(stdout), pieces) && ReadAs(pieces, CaptureLines(stdout, parse), parse)
  {
    var input := stdout[..Min(|stdout|, INPUT_MAX)];
    assert input == Input(stdout);
    SplitIs(input);
    assert ReadAs(Split(input), CaptureLines(stdout, parse), parse);
  }

  /** `observe`: `parse` reads one line as a JSON object event, or not. */
  method Observe(stdout: Bytes, captureComplete: bool, parse: Bytes -> Option<Event>) returns (batch: Batch)
    ensures batch == Observed(captureComplete && |stdout| <= 4_194_304, CaptureLines(stdout, parse))
    ensures exists pieces, lines ::
      SplitInto(Input(stdout), pieces) && ReadAs(pieces, lines, parse)
      && batch == Observed(captureComplete && |stdout| <= 4_194_304, lines)
  {
    CaptureRead(stdout, parse);
    hide Split, Classified, Observed, SplitInto, ReadAs;
    var reader := new Reader(captureComplete && |stdout| <= INPUT_MAX);
    ghost var whole := captureComplete && |stdout| <= INPUT_MAX;
    reader.ReadLines(Classified(Split(stdout[..Min(|stdout|, INPUT_MAX)]), parse), whole);
    reader.DowngradeIncomplete();
    batch := reader.View();
    ObservedIs(whole, CaptureLines(stdout, parse));
  }

  lemma {:induction false} ObservedIs(whole: bool, lines: seq<Line>)
    ensures Observed(whole, lines) == Downgrade(Fold(whole, lines))
  {
  }
}
