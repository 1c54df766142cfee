/**
  The reading section 9.2.6 of the WHATWG HTML standard gives an event stream,
  next to the one the source gives it (mcp_http.rs), for streams whose lines
  end in CRLF: exactly when the two find the same data.
 */
module SseStandard {
  import opened Common
  import opened SseExtract

  // ── the standard's reading ────────────────────────────────────────────

  /** The data lines of each event dispatched so far, and those of the event still open. */
  datatype Reading = Reading(events: seq<seq<string>>, open: seq<string>)

  /** A blank line dispatches an event that has data; the end of the stream dispatches nothing. */
  function ReadLine(r: Reading, line: string): Reading {
    if line == "" then (if r.open == [] then r else Reading(r.events + [r.open], []))
    else if IsData(line) then r.(open := r.open + [PayloadOf(line)])
    else r
  }

  function Standard(lines: seq<string>): Reading {
    if lines == [] then Reading([], []) else ReadLine(Standard(lines[..|lines| - 1]), lines[|lines| - 1])
  }

  /** An event's data is its data lines with a newline between them. */
  function StandardDatas(events: seq<seq<string>>): seq<string> {
    if events == [] then [] else StandardDatas(events[..|events| - 1]) + [Join(events[|events| - 1])]
  }

  function NonEmpty(datas: seq<string>): seq<string> {
    if datas == [] then []
    else
      var last := datas[|datas| - 1];
      NonEmpty(datas[..|datas| - 1]) + (if last == "" then [] else [last])
  }

  /**
    Lines as the standard splits them: without a line end inside and no byte
    order mark in front; and with data fields that have their colon.
   */
  predicate LinesOk(lines: seq<string>) {
    && (forall i :: 0 <= i < |lines| ==> NoNewline(lines[i]) && NoCr(lines[i]) && lines[i] != "data")
    && (lines != [] && lines[0] != "" ==> lines[0][0] != '\U{FEFF}')
  }

  // ── the data lines of both ────────────────────────────────────────────

  function Concat(events: seq<seq<string>>): seq<string> {
    if events == [] then [] else Concat(events[..|events| - 1]) + events[|events| - 1]
  }

  ghost predicate Plain(texts: seq<string>) {
    forall i :: 0 <= i < |texts| ==> NoNewline(texts[i])
  }

  lemma {:induction false} AssembledOne(texts: seq<string>, t: string)
    ensures Assembled(texts + [t]) == Grown(Assembled(texts), t)
  {
    assert (texts + [t])[..|texts|] == texts;
  }

  /** The source assembled every data line so far, whatever event the standard puts it in. */
  ghost predicate Agrees(r: Reading, data: string) {
    && data == Assembled(Concat(r.events) + r.open)
    && Plain(Concat(r.events) + r.open)
    && forall i :: 0 <= i < |r.events| ==> r.events[i] != []
  }

  lemma {:induction false} AllLinesRead(lines: seq<string>)
    requires forall i :: 0 <= i < |lines| ==> NoNewline(lines[i])
    ensures Agrees(Standard(lines), DataOf(lines))
  {
    hide Agrees, Grown, ReadLine, PayloadOf, NoNewline, IsData;
    if lines == [] {
      NothingRead();
    } else {
      var n := |lines| - 1;
      AllLinesRead(lines[..n]);
      LineRead(Standard(lines[..n]), DataOf(lines[..n]), lines[n]);
    }
  }

  lemma {:induction false} NothingRead()
    ensures Agrees(Reading([], []), "")
  {
    assert Concat([]) + [] == [];
  }

  lemma {:induction false} LineRead(r: Reading, data: string, line: string)
    requires NoNewline(line) && Agrees(r, data)
    ensures Agrees(ReadLine(r, line), if IsData(line) then Grown(data, PayloadOf(line)) else data)
  {
    var r', texts := ReadLine(r, line), Concat(r.events) + r.open;
    hide Assembled, Grown;
    if line == "" {
      if r.open != [] {
        assert r'.events[..|r.events|] == r.events;
        assert Concat(r'.events) + r'.open == texts;
      }
    } else if IsData(line) {
      assert Concat(r'.events) + r'.open == texts + [PayloadOf(line)];
      AssembledOne(texts, PayloadOf(line));
    }
  }

  // ── assembling and joining ────────────────────────────────────────────

  ghost predicate Blank(texts: seq<string>) {
    forall i :: 0 <= i < |texts| ==> texts[i] == ""
  }

  lemma {:induction false} GrownBlank(data: string, t: string)
    ensures Grown(data, t) == "" <==> data == "" && t == ""
  {
  }

  lemma {:induction false} BlankLast(texts: seq<string>)
    requires texts != []
    ensures var n := |texts| - 1;
      Blank(texts) <==> Blank(texts[..n]) && texts[n] == ""
  {
    var n := |texts| - 1;
    assert forall i :: 0 <= i < n ==> texts[..n][i] == texts[i];
  }

  lemma {:induction false} AssembledBlank(texts: seq<string>)
    ensures Assembled(texts) == "" <==> Blank(texts)
  {
    if texts != [] {
      var n := |texts| - 1;
      AssembledBlank(texts[..n]);
      BlankLast(texts);
      GrownBlank(Assembled(texts[..n]), texts[n]);
      hide Blank, Grown;
    }
  }

  lemma {:induction false} JoinBlank(texts: seq<string>)
    requires texts != []
    ensures Join(texts) == "" <==> IsEmpty(texts)
  {
  }

  lemma {:induction false} AssembledStart(texts: seq<string>)
    requires Plain(texts)
    ensures Assembled(texts) != "" ==> Assembled(texts)[0] != '\n'
  {
    if texts != [] {
      var n := |texts| - 1;
      assert forall i :: 0 <= i < n ==> texts[..n][i] == texts[i];
      AssembledStart(texts[..n]);
      assert NoNewline(texts[n]);
    }
  }

  lemma {:induction false} JoinStart(texts: seq<string>)
    requires texts != [] && texts[0] == "" && Join(texts) != ""
    ensures Join(texts)[0] == '\n'
  {
    if |texts| > 1 {
      var front := texts[..|texts| - 1];
      if |front| > 1 && Join(front) != "" { JoinStart(front); }
      if Join(front) == "" { assert Join(texts) == "\n" + texts[|texts| - 1]; }
    }
  }

  /** Blank lines in front are dropped, and a first line with text keeps all the rest. */
  lemma {:induction false} AssembledAfterBlank(blank: seq<string>, texts: seq<string>)
    requires Blank(blank) && texts != [] && texts[0] != ""
    ensures Assembled(blank + texts) == Join(texts) != ""
    decreases |texts|
  {
    var n := |texts| - 1;
    if n == 0 {
      AssembledBlank(blank);
      AssembledOne(blank, texts[0]);
      assert blank + texts == blank + [texts[0]];
      hide Assembled, Blank;
    } else {
      hide Assembled, Blank, Grown, Join;
      AssembledAfterBlank(blank, texts[..n]);
      AssembledOne(blank + texts[..n], texts[n]);
      assert blank + texts == blank + texts[..n] + [texts[n]];
      JoinLast(texts);
      GrownOn(Join(texts[..n]), texts[n]);
    }
  }

  lemma {:induction false} GrownOn(data: string, t: string)
    requires data != ""
    ensures Grown(data, t) == data + "\n" + t != ""
  {
  }

  /** Every further line makes what was assembled longer. */
  lemma {:induction false} AssembledGrows(texts: seq<string>, more: seq<string>)
    requires Assembled(texts) != ""
    ensures |Assembled(texts + more)| >= |Assembled(texts)| + |more|
    decreases |more|
  {
    if more == [] {
      assert texts + more == texts;
    } else {
      var n := |more| - 1;
      AssembledGrows(texts, more[..n]);
      AssembledOne(texts + more[..n], more[n]);
      assert texts + more == texts + more[..n] + [more[n]];
    }
  }

  // ── the events with text ──────────────────────────────────────────────

  lemma {:induction false} ConcatOn(a: seq<seq<string>>, b: seq<seq<string>>)
    ensures Concat(a + b) == Concat(a) + Concat(b)
    decreases |b|
  {
    if b == [] {
      assert a + b == a;
    } else {
      var n := |b| - 1;
      assert (a + b)[..|a + b| - 1] == a + b[..n];
      ConcatOn(a, b[..n]);
    }
  }

  /** One data line without text. */
  predicate IsEmpty(event: seq<string>) {
    |event| == 1 && event[0] == ""
  }

  ghost predicate AllEmpty(events: seq<seq<string>>) {
    forall i :: 0 <= i < |events| ==> IsEmpty(events[i])
  }

  lemma {:induction false} ConcatEmpty(events: seq<seq<string>>)
    requires AllEmpty(events)
    ensures Blank(Concat(events)) && |Concat(events)| == |events|
  {
    if events != [] { ConcatEmpty(events[..|events| - 1]); }
  }

  /** The one event with text, when there is exactly one, with empty events around it. */
  lemma {:induction false} TextsAre(events: seq<seq<string>>)
    requires forall i :: 0 <= i < |events| ==> events[i] != []
    ensures NonEmpty(StandardDatas(events)) == [] <==> AllEmpty(events)
    decreases |events|
  {
    if events != [] {
      var n := |events| - 1;
      TextsAre(events[..n]);
      JoinBlank(events[n]);
      var datas := StandardDatas(events);
      assert datas[..|datas| - 1] == StandardDatas(events[..n]);
      assert forall i :: 0 <= i < n ==> events[..n][i] == events[i];
    }
  }

  ghost predicate OnlyAt(events: seq<seq<string>>, k: nat) {
    k < |events| && Join(events[k]) != "" && AllEmpty(events[..k]) && AllEmpty(events[k + 1..])
  }

  lemma {:induction false} OneText(events: seq<seq<string>>, data: string) returns (k: nat)
    requires (forall i :: 0 <= i < |events| ==> events[i] != []) && NonEmpty(StandardDatas(events)) == [data]
    ensures OnlyAt(events, k) && Join(events[k]) == data
    decreases |events|
  {
    var n := |events| - 1;
    var front := events[..n];
    assert events == front + [events[n]];
    LastData(events);
    JoinBlank(events[n]);
    hide NonEmpty, StandardDatas, Join, OnlyAt, AllEmpty, IsEmpty;
    if Join(events[n]) == "" {
      k := OneText(front, data);
      OnlyAtStays(front, k, events[n]);
    } else {
      k := n;
      LastOnly(NonEmpty(StandardDatas(front)), Join(events[n]), data);
      TextsAre(front);
      OnlyAtEnd(front, events[n]);
    }
  }

  lemma {:induction false} LastOnly(xs: seq<string>, x: string, data: string)
    requires xs + [x] == [data]
    ensures xs == [] && x == data
  {
    assert (xs + [x])[|xs|] == x;
  }

  lemma {:induction false} OnlyAtStays(events: seq<seq<string>>, k: nat, e: seq<string>)
    requires OnlyAt(events, k) && IsEmpty(e)
    ensures OnlyAt(events + [e], k) && (events + [e])[k] == events[k]
  {
    hide IsEmpty, Join;
    var more := events + [e];
    assert more[..k] == events[..k];
    assert more[k + 1..] == events[k + 1..] + [e];
  }

  lemma {:induction false} OnlyAtEnd(events: seq<seq<string>>, e: seq<string>)
    requires AllEmpty(events) && Join(e) != ""
    ensures OnlyAt(events + [e], |events|)
  {
    hide IsEmpty, Join;
    var more := events + [e];
    assert more[..|events|] == events && more[|events| + 1..] == [];
  }

  lemma {:induction false} LastData(events: seq<seq<string>>)
    requires events != []
    ensures var n := |events| - 1;
      NonEmpty(StandardDatas(events))
      == NonEmpty(StandardDatas(events[..n])) + (if Join(events[n]) == "" then [] else [Join(events[n])])
  {
    var datas := StandardDatas(events);
    assert datas[..|datas| - 1] == StandardDatas(events[..|events| - 1]);
  }

  /** The last event is the only one with text. */
  lemma {:induction false} LastText(events: seq<seq<string>>)
    requires events != [] && AllEmpty(events[..|events| - 1]) && Join(events[|events| - 1]) != ""
    ensures NonEmpty(StandardDatas(events)) == [Join(events[|events| - 1])]
  {
    var n := |events| - 1;
    TextsAre(events[..n]);
    var datas := StandardDatas(events);
    assert datas[..|datas| - 1] == StandardDatas(events[..n]);
  }

  // ── when the two readings agree ───────────────────────────────────────

  /**
    Either no data line of the stream has text and no event has two; or the
    last event is the only one with text, its first data line has some, and
    no event is left open with data.
   */
  ghost predicate ReadsAlike(r: Reading) {
    || (AllEmpty(r.events) && Blank(r.open))
    || (r.events != [] && r.open == [] && AllEmpty(r.events[..|r.events| - 1]) && r.events[|r.events| - 1] != []
        && r.events[|r.events| - 1][0] != "")
  }

  lemma {:induction false} AlikeWhen(r: Reading)
    requires (forall i :: 0 <= i < |r.events| ==> r.events[i] != []) && ReadsAlike(r)
    ensures NonEmpty([Assembled(Concat(r.events) + r.open)]) == NonEmpty(StandardDatas(r.events))
  {
    var got := Assembled(Concat(r.events) + r.open);
    OneData(got);
    if AllEmpty(r.events) && Blank(r.open) {
      ConcatEmpty(r.events);
      AssembledBlank(Concat(r.events) + r.open);
      TextsAre(r.events);
    } else {
      var n := |r.events| - 1;
      ConcatEmpty(r.events[..n]);
      AssembledAfterBlank(Concat(r.events[..n]), r.events[n]);
      assert Concat(r.events) + r.open == Concat(r.events[..n]) + r.events[n];
      LastText(r.events);
    }
  }

  lemma {:induction false} OneData(data: string)
    ensures NonEmpty([data]) == if data == "" then [] else [data]
  {
    assert [data][..0] == [];
  }

  lemma {:induction false} AlikeOnlyWhen(r: Reading)
    requires (forall i :: 0 <= i < |r.events| ==> r.events[i] != []) && Plain(Concat(r.events) + r.open)
    requires NonEmpty([Assembled(Concat(r.events) + r.open)]) == NonEmpty(StandardDatas(r.events))
    ensures ReadsAlike(r)
  {
    var all := Concat(r.events) + r.open;
    var got := Assembled(all);
    OneData(got);
    hide Assembled, Concat, NonEmpty, StandardDatas, Join, IsEmpty;
    if got == "" {
      TextsAre(r.events);
      AssembledBlank(all);
      assert forall i :: 0 <= i < |r.open| ==> all[|Concat(r.events)| + i] == r.open[i];
    } else {
      var k := OneText(r.events, got);
      OnlyTextIsLast(r, k);
    }
  }

  lemma {:induction false} ConcatAround(events: seq<seq<string>>, k: nat)
    requires k < |events|
    ensures Concat(events) == Concat(events[..k]) + events[k] + Concat(events[k + 1..])
  {
    var before, text, after := events[..k], events[k], events[k + 1..];
    ConcatOn(before + [text], after);
    assert (before + [text])[..k] == before;
    assert before + [text] + after == events;
  }

  lemma {:induction false} OnlyTextIsLast(r: Reading, k: nat)
    requires OnlyAt(r.events, k) && r.events[k] != [] && Plain(Concat(r.events) + r.open)
    requires Assembled(Concat(r.events) + r.open) == Join(r.events[k])
    ensures r.events[k][0] != "" && k == |r.events| - 1 && r.open == []
  {
    var before, text, after := r.events[..k], r.events[k], r.events[k + 1..];
    var all := Concat(r.events) + r.open;
    AssembledStart(all);
    if text[0] == "" { JoinStart(text); }
    assert text[0] != "";
    ConcatEmpty(before);
    ConcatEmpty(after);
    var more := Concat(after) + r.open;
    ConcatAround(r.events, k);
    hide Concat, Join, Assembled;
    assert all == Concat(before) + text + more;
    AssembledAfterBlank(Concat(before), text);
    AssembledGrows(Concat(before) + text, more);
    assert |more| == 0;
  }

  /**
    A stream with CRLF line ends is read as the standard reads it, empty data
    aside, if and only if it has no data to tell apart: no text at all, or the
    text of its last event alone.
   */
  lemma {:induction false} CrlfReadAsStandardExactlyWhen(lines: seq<string>)
    requires LinesOk(lines)
    ensures NonEmpty(Datas(Events(CrlfText(lines)))) == NonEmpty(StandardDatas(Standard(lines).events))
      <==> ReadsAlike(Standard(lines))
  {
    CrlfStreamIsOneEvent(lines);
    AllLinesRead(lines);
    hide Datas, Events, CrlfText, Assembled, NonEmpty, StandardDatas, ReadsAlike, Standard;
    if ReadsAlike(Standard(lines)) {
      AlikeWhen(Standard(lines));
    } else if NonEmpty([DataOf(lines)]) == NonEmpty(StandardDatas(Standard(lines).events)) {
      AlikeOnlyWhen(Standard(lines));
    }
  }
}
