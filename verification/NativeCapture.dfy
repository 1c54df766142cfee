/**
  What observing a capture says of its bytes: which stretches between newlines
  are counted as unreadable, that any of them leaves nothing completed, and
  when a command is completed, stated of the captured output itself.
 */
module NativeCapture {
  import opened Common
  import opened Utf8
  import opened NativeReader
  import opened NativeObserver
  import opened NativeCorrelation

  // ── one way to split ──────────────────────────────────────────────────

  lemma {:induction false} FirstPiece(s: Bytes, pieces: seq<Bytes>)
    requires SplitInto(s, pieces)
    ensures pieces[0] <= s && (|pieces| == 1 <==> |s| == |pieces[0]|)
    ensures forall j :: 0 <= j < |pieces[0]| ==> s[j] != 10
    ensures |pieces| > 1 ==>
      |s| > |pieces[0]| && s[|pieces[0]|] == 10 && SplitInto(s[|pieces[0]| + 1..], pieces[1..])
  {
    assert pieces[0] <= s ==> forall j :: 0 <= j < |pieces[0]| ==> s[j] == pieces[0][j];
    if |pieces| > 1 {
      assert s == pieces[0] + [10] + Joined(pieces[1..]);
      assert s[|pieces[0]| + 1..] == Joined(pieces[1..]);
      var rest := pieces[1..];
      assert forall i :: 0 <= i < |rest| ==> rest[i] == pieces[i + 1];
    }
  }

  /** A text is split at its newlines in one way only. */
  lemma {:induction false} SplitOnce(s: Bytes, a: seq<Bytes>, b: seq<Bytes>)
    requires SplitInto(s, a) && SplitInto(s, b)
    ensures a == b
    decreases |a|
  {
    FirstPiece(s, a);
    FirstPiece(s, b);
    assert |a[0]| == |b[0]|;
    assert a[0] == s[..|a[0]|] == b[0];
    if |a| > 1 {
      SplitOnce(s[|a[0]| + 1..], a[1..], b[1..]);
      assert a == [a[0]] + a[1..] && b == [b[0]] + b[1..];
    }
  }

  // ── what reading an event leaves alone ────────────────────────────────

  predicate SameCounts(b: Batch, r: Batch) {
    r.malformed == b.malformed && r.oversized == b.oversized && (b.incomplete ==> r.incomplete)
  }

  lemma {:induction false} AddCounts(b: Batch, id: Option<Bytes>, command: Field, start: bool)
    requires Indexed(b)
    ensures SameCounts(b, AddTo(b, id, command, start).0)
  {
    hide NewRecord;
  }

  lemma {:induction false} CodexCounts(b: Batch, e: CodexEvent)
    requires Indexed(b)
    ensures SameCounts(b, CodexStep(b, e))
  {
    var t := ThreadOf(b, e);
    if e.item.Some? {
      var item := e.item.value;
      AddCounts(t, Identity(item.id), item.command, e.kind.ItemStarted?);
      var (added, index) := AddTo(t, Identity(item.id), item.command, e.kind.ItemStarted?);
      if index.Some? { ItemDoneEffect(added, index.value, item); }
    } else if e.begin.Some? {
      AddCounts(t, Identity(e.begin.value.callId), e.begin.value.command, true);
    }
    hide AddTo, ItemDone;
  }

  lemma {:induction false} ResultCounts(b: Batch, e: ClaudeEvent, index: nat, single: bool, isError: bool)
    requires Indexed(b) && index < |b.observations|
    ensures SameCounts(b, ClaudeResult(b, e, index, single, isError))
  {
    TerminalEffect(b, index);
  }

  lemma {:induction false} BlockCounts(b: Batch, e: ClaudeEvent, block: Block, single: bool)
    requires Indexed(b)
    ensures SameCounts(b, ClaudeBlock(b, e, block, single))
  {
    hide AddTo, ClaudeResult;
    match block
    case ToolUse(_, id, command) => AddCounts(b, Identity(id), command, true);
    case ToolResult(id, isError) =>
      if Identity(id).Some? && (b.session, Identity(id).value) in b.calls {
        ResultCounts(b, e, b.calls[(b.session, Identity(id).value)], single, isError);
      }
    case OtherBlock =>
  }

  lemma {:induction false} BlocksCounts(b: Batch, e: ClaudeEvent, n: nat, single: bool)
    requires Indexed(b) && n <= |e.blocks|
    ensures SameCounts(b, ClaudeBlocks(b, e, n, single))
  {
    hide ClaudeBlock, Indexed;
    if n > 0 {
      BlocksCounts(b, e, n - 1, single);
      BlockCounts(ClaudeBlocks(b, e, n - 1, single), e, e.blocks[n - 1], single);
    }
  }

  lemma {:induction false} LineCounts(b: Batch, line: Line)
    requires Indexed(b)
    ensures var r := LineStep(b, line);
      && r.malformed == b.malformed + (if line.Malformed? then 1 else 0)
      && r.oversized == b.oversized + (if line.Oversized? then 1 else 0)
      && (b.incomplete || line.Malformed? || line.Oversized? ==> r.incomplete)
  {
    hide CodexStep, ClaudeBlocks;
    match line
    case Parsed(Codex(e)) => CodexCounts(b, e);
    case Parsed(Claude(e)) =>
      BlocksCounts(SessionOf(b, e), e, |e.blocks|, ResultBlocks(e.blocks) == 1);
    case _ =>
  }

  // ── counting stretches ────────────────────────────────────────────────

  function Where(lines: seq<Line>, malformed: bool): set<nat> {
    set i: nat | i < |lines| && (if malformed then lines[i].Malformed? else lines[i].Oversized?)
  }

  lemma {:induction false} WhereGrows(lines: seq<Line>, malformed: bool)
    requires lines != []
    ensures var n := |lines| - 1;
      |Where(lines, malformed)| == |Where(lines[..n], malformed)|
        + (if (if malformed then lines[n].Malformed? else lines[n].Oversized?) then 1 else 0)
  {
    var n := |lines| - 1;
    var here: set<nat> := if (if malformed then lines[n].Malformed? else lines[n].Oversized?) then {n} else {};
    assert Where(lines, malformed) == Where(lines[..n], malformed) + here;
    assert n !in Where(lines[..n], malformed);
  }

  lemma {:induction false} FoldCounts(whole: bool, lines: seq<Line>)
    ensures var b := Fold(whole, lines);
      && b.malformed == |Where(lines, true)| && b.oversized == |Where(lines, false)|
      && (!whole || b.malformed > 0 || b.oversized > 0 ==> b.incomplete)
  {
    if lines == [] {
      assert Where(lines, true) == {} && Where(lines, false) == {};
    } else {
      hide LineStep, Where, Indexed;
      var n := |lines| - 1;
      FoldCounts(whole, lines[..n]);
      LineCounts(Fold(whole, lines[..n]), lines[n]);
      WhereGrows(lines, true);
      WhereGrows(lines, false);
    }
  }

  predicate Unreadable(piece: Bytes, parse: Bytes -> Option<Event>) {
    0 < |piece| <= 262_144 && parse(piece).None?
  }

  /**
    The stretches between newlines that are counted: as malformed exactly
    those the parser rejects, as oversized exactly those over 256 KiB. One of
    them, or a capture cut short, and nothing reads as completed.
   */
  lemma {:induction false} CaptureCounts(
    whole: bool, pieces: seq<Bytes>, lines: seq<Line>, parse: Bytes -> Option<Event>)
    requires ReadAs(pieces, lines, parse)
    ensures var b := Observed(whole, lines);
      && b.malformed == |set i: nat | i < |pieces| && Unreadable(pieces[i], parse)|
      && b.oversized == |set i: nat | i < |pieces| && |pieces[i]| > 262_144|
      && (!whole || b.malformed > 0 || b.oversized > 0 ==>
            b.incomplete && forall i :: 0 <= i < |b.observations| ==> !b.observations[i].outcome.Completed?)
  {
    FoldCounts(whole, lines);
    assert forall i :: 0 <= i < |pieces| ==> LineOf(pieces[i], lines[i], parse);
    assert Where(lines, true) == set i: nat | i < |pieces| && Unreadable(pieces[i], parse);
    assert Where(lines, false) == set i: nat | i < |pieces| && |pieces[i]| > 262_144;
    hide Fold;
  }

  // ── completion ────────────────────────────────────────────────────────

  /** Nothing of the captured output is missing or unreadable. */
  ghost predicate Readable(stdout: Bytes, captureComplete: bool, pieces: seq<Bytes>, parse: Bytes -> Option<Event>) {
    captureComplete && |stdout| <= 4_194_304
    && forall i :: 0 <= i < |pieces| ==> |pieces[i]| <= 262_144 && !Unreadable(pieces[i], parse)
  }

  ghost predicate NamesThreads(lines: seq<Line>) {
    forall i ::
      0 <= i < |lines| && lines[i].Parsed? && lines[i].event.Codex? && lines[i].event.codex.kind.ThreadStarted?
      ==> Identity(lines[i].event.codex.threadId).Some?
  }

  lemma {:induction false} IntactIs(
    stdout: Bytes, captureComplete: bool, pieces: seq<Bytes>, lines: seq<Line>, parse: Bytes -> Option<Event>)
    requires ReadAs(pieces, lines, parse)
    ensures Intact(captureComplete && |stdout| <= 4_194_304, lines)
      <==> Readable(stdout, captureComplete, pieces, parse) && NamesThreads(lines) && Wanted(Acts(lines)) <= 32
  {
    hide Wanted, Acts;
    assert forall i :: 0 <= i < |pieces| ==> LineOf(pieces[i], lines[i], parse);
    assert forall i :: 0 <= i < |lines| ==>
      ((|pieces[i]| <= 262_144 && !Unreadable(pieces[i], parse)) <==> !lines[i].Malformed? && !lines[i].Oversized?);
  }

  /**
    Of a captured Codex output: a command is completed if and only if all of
    it was captured and read, every thread it starts has an id, it asks for at
    most 32 records, and the command's own events are one untruncated request
    and one matching completion with exit 0.
   */
  lemma {:induction false} CaptureCompletedIff(
    stdout: Bytes, captureComplete: bool, pieces: seq<Bytes>, lines: seq<Line>, parse: Bytes -> Option<Event>, k: Key)
    requires SplitInto(Input(stdout), pieces) && ReadAs(pieces, lines, parse) && IsCodex(lines)
    ensures var b := Observed(captureComplete && |stdout| <= 4_194_304, lines);
      (exists i :: 0 <= i < |b.observations|
         && KeyOf(b.observations[i]) == Some(k) && b.observations[i].outcome == Completed)
      <==> Readable(stdout, captureComplete, pieces, parse) && NamesThreads(lines) && Wanted(Acts(lines)) <= 32
           && CompletedBy(History(Acts(lines), k))
  {
    CompletedIff(captureComplete && |stdout| <= 4_194_304, lines, k);
    IntactIs(stdout, captureComplete, pieces, lines, parse);
    hide Intact, Readable, NamesThreads, Wanted, Acts, Observed, CompletedBy, History;
  }
}
