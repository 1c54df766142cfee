/**
  Reading a JSON-RPC response out of a server-sent event stream
  (crates/rustykrab-channels/src/mcp_http.rs). SseStandard sets the reading of
  section 9.2.6 of the WHATWG HTML standard beside it.
 */
module SseExtract {
  import opened Common

  // ── what the source's string operations do ────────────────────────────

  predicate BreakAt(s: string, i: nat) {
    i + 2 <= |s| && s[i] == '\n' && s[i + 1] == '\n'
  }

  function FindBreak(s: string, i: nat): (r: Option<nat>)
    requires i <= |s|
    ensures r.Some? ==> i <= r.value && BreakAt(s, r.value) && forall j :: i <= j < r.value ==> !BreakAt(s, j)
    ensures r.None? ==> forall j :: i <= j < |s| ==> !BreakAt(s, j)
    decreases |s| - i
  {
    if i == |s| then None else if BreakAt(s, i) then Some(i) else FindBreak(s, i + 1)
  }

  /** `split("\n\n")`. */
  function Events(s: string): seq<string>
    decreases |s|
  {
    match FindBreak(s, 0)
    case None => [s]
    case Some(i) => [s[..i]] + Events(s[i + 2..])
  }

  function FindNewline(s: string, i: nat): (r: Option<nat>)
    requires i <= |s|
    ensures r.Some? ==> i <= r.value < |s| && s[r.value] == '\n' && forall j :: i <= j < r.value ==> s[j] != '\n'
    ensures r.None? ==> forall j :: i <= j < |s| ==> s[j] != '\n'
    decreases |s| - i
  {
    if i == |s| then None else if s[i] == '\n' then Some(i) else FindNewline(s, i + 1)
  }

  function StripCr(s: string): string {
    if s != "" && s[|s| - 1] == '\r' then s[..|s| - 1] else s
  }

  /** `str::lines`: a line loses its newline and a carriage return right before it. */
  function Lines(s: string): seq<string>
    decreases |s|
  {
    if s == "" then []
    else
      match FindNewline(s, 0)
      case None => [s]
      case Some(i) => [StripCr(s[..i])] + Lines(s[i + 1..])
  }

  // ── extraction ────────────────────────────────────────────────────────

  predicate IsData(line: string) {
    "data:" <= line
  }

  function PayloadOf(line: string): string
    requires IsData(line)
  {
    var rest := line[5..];
    if rest != "" && rest[0] == ' ' then rest[1..] else rest
  }

  function Grown(data: string, payload: string): string {
    data + (if data != "" then "\n" else "") + payload
  }

  /** The data of one event, its lines taken in order. */
  function DataOf(lines: seq<string>): string {
    if lines == [] then ""
    else
      var data := DataOf(lines[..|lines| - 1]);
      var line := lines[|lines| - 1];
      if IsData(line) then Grown(data, PayloadOf(line)) else data
  }

  /** A JSON value as `match_response` reads it (section 5 of JSON-RPC 2.0): its `id` when that is a number. */
  datatype Rpc = Rpc(id: Option<nat>, error: Option<(int, string)>, result: Option<string>)

  datatype Answer = Value(json: string) | RpcError(code: int, message: string) | NoResponse

  function MatchResponse(v: Rpc, id: nat): Option<Answer> {
    if v.id != Some(id) then None
    else if v.error.Some? then Some(RpcError(v.error.value.0, v.error.value.1))
    else Some(Value(if v.result.Some? then v.result.value else "null"))
  }

  type Parse = string -> Option<Rpc>

  function Datas(events: seq<string>): (r: seq<string>)
    ensures |r| == |events| && forall i :: 0 <= i < |events| ==> r[i] == DataOf(Lines(events[i]))
  {
    seq(|events|, i requires 0 <= i < |events| => DataOf(Lines(events[i])))
  }

  /** The inner loop: one event's data lines. */
  method ReadData(lines: seq<string>) returns (data: string)
    ensures data == DataOf(lines)
  {
    data := "";
    for i := 0 to |lines|
      invariant data == DataOf(lines[..i])
    {
      assert lines[..i + 1][..i] == lines[..i];
      if IsData(lines[i]) {
        var payload := PayloadOf(lines[i]);
        if data != "" { data := data + "\n"; }
        data := data + payload;
      }
    }
    assert lines[..|lines|] == lines;
  }

  /** This data is a response with the id asked for. */
  predicate Responds(data: string, parse: Parse, id: nat) {
    data != "" && parse(data).Some? && parse(data).value.id == Some(id)
  }

  /** What a response says: its error's code and message, or its result, null when it has none. */
  predicate Says(v: Rpc, answer: Answer) {
    if v.error.Some? then answer == RpcError(v.error.value.0, v.error.value.1)
    else answer == Value(if v.result.Some? then v.result.value else "null")
  }

  /** The answer is what the first response among `datas` says, and there is none if there is no response. */
  ghost predicate AnsweredBy(datas: seq<string>, parse: Parse, id: nat, answer: Answer) {
    match answer
    case NoResponse => forall i :: 0 <= i < |datas| ==> !Responds(datas[i], parse, id)
    case _ => exists i: nat :: RespondsFirst(datas, parse, id, i) && Says(parse(datas[i]).value, answer)
  }

  predicate RespondsFirst(datas: seq<string>, parse: Parse, id: nat, i: nat) {
    i < |datas| && Responds(datas[i], parse, id) && forall j :: 0 <= j < i ==> !Responds(datas[j], parse, id)
  }

  /** Only one answer is that. */
  lemma {:induction false} AnsweredOnce(datas: seq<string>, parse: Parse, id: nat, a: Answer, b: Answer)
    requires AnsweredBy(datas, parse, id, a) && AnsweredBy(datas, parse, id, b)
    ensures a == b
  {
    if !a.NoResponse? && !b.NoResponse? {
      var i: nat :| RespondsFirst(datas, parse, id, i) && Says(parse(datas[i]).value, a);
      var j: nat :| RespondsFirst(datas, parse, id, j) && Says(parse(datas[j]).value, b);
      assert i == j;
    }
  }

  /** `extract_jsonrpc_from_sse`. */
  method ExtractFromSse(body: string, parse: Parse, id: nat) returns (answer: Answer)
    ensures AnsweredBy(Datas(Events(body)), parse, id, answer)
  {
    hide Events, Lines, DataOf;
    var events := Events(body);
    ghost var datas := Datas(events);
    var n := 0;
    while n < |events|
      invariant 0 <= n <= |events|
      invariant forall j :: 0 <= j < n ==> !Responds(datas[j], parse, id)
    {
      var data := ReadData(Lines(events[n]));
      assert data == datas[n];
      if data != "" {
        var parsed := parse(data);
        if parsed.Some? {
          var found := MatchResponse(parsed.value, id);
          if found.Some? {
            assert RespondsFirst(datas, parse, id, n);
            return found.value;
          }
        }
      }
      n := n + 1;
    }
    return NoResponse;
  }

  // ── framing ───────────────────────────────────────────────────────────

  /** A line of an event: data, with or without the space after the colon, or anything else. */
  datatype FrameLine = Data(spaced: bool, text: string) | Extra(text: string)

  predicate FrameLineOk(l: FrameLine) {
    && NoNewline(l.text)
    && match l
       case Data(spaced, text) => StripCr(text) == text && (spaced || text == "" || text[0] != ' ')
       case Extra(text) => text != "" && !IsData(text)
  }

  function ShowLine(l: FrameLine): string {
    match l
    case Data(spaced, text) => "data:" + (if spaced then " " else "") + text
    case Extra(text) => text
  }

  predicate FrameOk(frame: seq<FrameLine>) {
    frame != [] && forall i :: 0 <= i < |frame| ==> FrameLineOk(frame[i])
  }

  function ShowFrame(frame: seq<FrameLine>): string
    requires frame != []
  {
    if |frame| == 1 then ShowLine(frame[0])
    else ShowLine(frame[0]) + "\n" + ShowFrame(frame[1..])
  }

  predicate FramesOk(frames: seq<seq<FrameLine>>) {
    forall i :: 0 <= i < |frames| ==> FrameOk(frames[i])
  }

  function Body(frames: seq<seq<FrameLine>>): string
    requires FramesOk(frames)
  {
    if frames == [] then "" else ShowFrame(frames[0]) + "\n\n" + Body(frames[1..])
  }

  function Texts(frame: seq<FrameLine>): seq<string> {
    if frame == [] then []
    else
      var last := frame[|frame| - 1];
      Texts(frame[..|frame| - 1]) + (if last.Data? then [last.text] else [])
  }

  function Join(texts: seq<string>): string {
    if texts == [] then ""
    else if |texts| == 1 then texts[0]
    else Join(texts[..|texts| - 1]) + "\n" + texts[|texts| - 1]
  }

  /** The payload a frame carries: its data lines, a newline between them. */
  function Payload(frame: seq<FrameLine>): string {
    Join(Texts(frame))
  }

  function DropNewlines(s: string): string {
    if s != "" && s[0] == '\n' then DropNewlines(s[1..]) else s
  }

  // ── one event ─────────────────────────────────────────────────────────

  lemma ShowLineFacts(l: FrameLine)
    requires FrameLineOk(l)
    ensures NoNewline(ShowLine(l)) && ShowLine(l) != ""
    ensures IsData(ShowLine(l)) <==> l.Data?
    ensures IsData(StripCr(ShowLine(l))) <==> l.Data?
    ensures l.Data? ==> StripCr(ShowLine(l)) == ShowLine(l) && PayloadOf(ShowLine(l)) == l.text
  {
    var s := ShowLine(l);
    match l
    case Data(spaced, text) =>
      var head := "data:" + (if spaced then " " else "");
      assert s == head + text && s[..5] == "data:";
      assert text != "" ==> s[|s| - 1] == text[|text| - 1];
      assert s[5..] == (if spaced then " " else "") + text;
    case Extra(text) =>
  }

  /** The first line of a text that has more. */
  lemma {:induction false} LinesFirst(line: string, rest: string)
    requires NoNewline(line)
    ensures Lines(line + "\n" + rest) == [StripCr(line)] + Lines(rest)
  {
    var s := line + "\n" + rest;
    assert s[|line|] == '\n' && forall j :: 0 <= j < |line| ==> s[j] == line[j];
    assert FindNewline(s, 0) == Some(|line|);
    assert s[..|line|] == line && s[|line| + 1..] == rest;
  }

  lemma {:induction false} LinesLast(line: string)
    requires NoNewline(line) && line != ""
    ensures Lines(line) == [line]
  {
  }

  /** The lines of a shown frame carry the frame's data. */
  ghost predicate Reads(lines: seq<string>, frame: seq<FrameLine>) {
    && |lines| == |frame|
    && forall i :: 0 <= i < |frame| ==>
         (IsData(lines[i]) <==> frame[i].Data?) && (frame[i].Data? ==> PayloadOf(lines[i]) == frame[i].text)
  }

  lemma {:induction false} ReadsFirst(line: string, l: FrameLine, lines: seq<string>, frame: seq<FrameLine>)
    requires Reads(lines, frame)
    requires (IsData(line) <==> l.Data?) && (l.Data? ==> PayloadOf(line) == l.text)
    ensures Reads([line] + lines, [l] + frame)
  {
  }

  lemma {:induction false} FrameLines(frame: seq<FrameLine>)
    requires FrameOk(frame)
    ensures Reads(Lines(ShowFrame(frame)), frame)
  {
    var first := ShowLine(frame[0]);
    ShowLineFacts(frame[0]);
    assert [frame[0]] + frame[1..] == frame;
    if |frame| == 1 {
      LinesLast(first);
      assert Lines(ShowFrame(frame)) == [first];
    } else {
      LinesFirst(first, ShowFrame(frame[1..]));
      FrameLines(frame[1..]);
      ReadsFirst(StripCr(first), frame[0], Lines(ShowFrame(frame[1..])), frame[1..]);
    }
  }

  function Assembled(texts: seq<string>): string {
    if texts == [] then "" else Grown(Assembled(texts[..|texts| - 1]), texts[|texts| - 1])
  }

  lemma {:induction false} ReadsAssemble(lines: seq<string>, frame: seq<FrameLine>)
    requires Reads(lines, frame)
    ensures DataOf(lines) == Assembled(Texts(frame))
  {
    if frame != [] {
      var n := |frame| - 1;
      ReadsAssemble(lines[..n], frame[..n]);
      if frame[n].Data? {
        assert Texts(frame)[..|Texts(frame)| - 1] == Texts(frame[..n]);
      } else {
        assert Texts(frame) == Texts(frame[..n]);
      }
    }
  }

  lemma {:induction false} DropSuffix(s: string, t: string)
    ensures DropNewlines(s) != "" ==> DropNewlines(s + t) == DropNewlines(s) + t
    ensures DropNewlines(s) == "" ==> DropNewlines(s + t) == DropNewlines(t)
  {
    if s == "" {
      assert s + t == t;
    } else {
      assert (s + t)[1..] == s[1..] + t;
      DropSuffix(s[1..], t);
    }
  }

  /** Appending line after line drops exactly the newlines at the front. */
  lemma {:induction false} AssembledDrops(texts: seq<string>)
    requires forall i :: 0 <= i < |texts| ==> NoNewline(texts[i])
    ensures Assembled(texts) == DropNewlines(Join(texts))
  {
    if |texts| == 1 {
      assert texts[..0] == [];
      assert Assembled(texts) == texts[0];
    } else if |texts| > 1 {
      var n := |texts| - 1;
      AssembledDrops(texts[..n]);
      JoinLast(texts);
      var front := Join(texts[..n]);
      DropSuffix(front, "\n" + texts[n]);
      DropOne(texts[n]);
      hide Join, DropNewlines, NoNewline;
      assert front + "\n" + texts[n] == front + ("\n" + texts[n]);
    }
  }

  lemma {:induction false} DropOne(t: string)
    requires NoNewline(t)
    ensures DropNewlines("\n" + t) == t
  {
    assert ("\n" + t)[1..] == t;
  }

  lemma {:induction false} JoinLast(texts: seq<string>)
    requires |texts| > 1
    ensures Join(texts) == Join(texts[..|texts| - 1]) + "\n" + texts[|texts| - 1]
  {
  }

  lemma {:induction false} TextsClean(frame: seq<FrameLine>)
    requires forall i :: 0 <= i < |frame| ==> FrameLineOk(frame[i])
    ensures forall i :: 0 <= i < |Texts(frame)| ==> NoNewline(Texts(frame)[i])
  {
    if frame != [] {
      TextsClean(frame[..|frame| - 1]);
    }
  }

  /** Whatever is framed, what is read back is the payload without its leading newlines. */
  lemma FrameReadsBack(frame: seq<FrameLine>)
    requires FrameOk(frame)
    ensures DataOf(Lines(ShowFrame(frame))) == DropNewlines(Payload(frame))
    ensures DataOf(Lines(ShowFrame(frame))) == Payload(frame)
      <==> !(Payload(frame) != "" && Payload(frame)[0] == '\n')
  {
    FrameLines(frame);
    ReadsAssemble(Lines(ShowFrame(frame)), frame);
    TextsClean(frame);
    AssembledDrops(Texts(frame));
    DropShorter(Payload(frame));
  }

  lemma {:induction false} DropShorter(s: string)
    ensures |DropNewlines(s)| <= |s|
    ensures DropNewlines(s) == s <==> !(s != "" && s[0] == '\n')
  {
    if s != "" && s[0] == '\n' { DropShorter(s[1..]); }
  }

  // ── whole streams ─────────────────────────────────────────────────────

  /** No blank line inside, and no newline at the end. */
  predicate Unbroken(s: string) {
    (forall i :: 0 <= i < |s| ==> !BreakAt(s, i)) && (s != "" ==> s[|s| - 1] != '\n')
  }

  lemma {:induction false} FrameUnbroken(frame: seq<FrameLine>)
    requires FrameOk(frame)
    ensures Unbroken(ShowFrame(frame)) && ShowFrame(frame) != "" && ShowFrame(frame)[0] != '\n'
  {
    var first := ShowLine(frame[0]);
    ShowLineFacts(frame[0]);
    if |frame| > 1 {
      FrameUnbroken(frame[1..]);
      hide Unbroken, ShowLine;
      UnbrokenOn(first, ShowFrame(frame[1..]));
    }
  }

  lemma {:induction false} UnbrokenOn(first: string, rest: string)
    requires NoNewline(first) && first != "" && Unbroken(rest) && rest != "" && rest[0] != '\n'
    ensures Unbroken(first + "\n" + rest)
  {
    var s := first + "\n" + rest;
    forall i | 0 <= i < |s|
      ensures !BreakAt(s, i)
    {
      if i > |first| {
        assert BreakAt(s, i) ==> BreakAt(rest, i - |first| - 1);
      } else if i < |first| {
        assert s[i] == first[i];
      } else if i + 1 < |s| {
        assert s[i + 1] == rest[0];
      }
    }
    assert s[|s| - 1] == rest[|rest| - 1];
  }

  lemma {:induction false} EventsFirst(t: string, rest: string)
    requires Unbroken(t)
    ensures Events(t + "\n\n" + rest) == [t] + Events(rest)
  {
    var s := t + "\n\n" + rest;
    forall j | 0 <= j < |t|
      ensures !BreakAt(s, j)
    {
      assert s[j] == t[j];
      if j + 1 < |t| {
        assert s[j + 1] == t[j + 1];
        assert !BreakAt(t, j);
      }
    }
    assert BreakAt(s, |t|);
    assert FindBreak(s, 0) == Some(|t|);
    assert s[..|t|] == t && s[|t| + 2..] == rest;
  }

  function Payloads(frames: seq<seq<FrameLine>>): (r: seq<string>)
    ensures |r| == |frames| && forall i :: 0 <= i < |frames| ==> r[i] == Payload(frames[i])
  {
    seq(|frames|, i requires 0 <= i < |frames| => Payload(frames[i]))
  }

  predicate Clean(payload: string) {
    payload != "" && payload[0] != '\n'
  }

  lemma {:induction false} DatasFirst(event: string, events: seq<string>)
    ensures Datas([event] + events) == [DataOf(Lines(event))] + Datas(events)
  {
  }

  lemma {:induction false} BodyFirst(frames: seq<seq<FrameLine>>)
    requires FramesOk(frames) && frames != [] && Clean(Payload(frames[0]))
    ensures Datas(Events(Body(frames))) == [Payload(frames[0])] + Datas(Events(Body(frames[1..])))
  {
    var shown := ShowFrame(frames[0]);
    FrameUnbroken(frames[0]);
    EventsFirst(shown, Body(frames[1..]));
    FrameReadsBack(frames[0]);
    DatasFirst(shown, Events(Body(frames[1..])));
  }

  lemma {:induction false} NoEvents()
    ensures Datas(Events("")) == [""]
  {
    assert Events("") == [""];
  }

  lemma {:induction false} PayloadsFirst(frames: seq<seq<FrameLine>>)
    requires frames != []
    ensures Payloads(frames) == [Payload(frames[0])] + Payloads(frames[1..])
  {
  }

  lemma {:induction false} BodyEvents(frames: seq<seq<FrameLine>>)
    requires FramesOk(frames) && forall i :: 0 <= i < |frames| ==> Clean(Payload(frames[i]))
    ensures Datas(Events(Body(frames))) == Payloads(frames) + [""]
  {
    if frames == [] {
      NoEvents();
      assert Payloads(frames) == [];
    } else {
      hide Body, Events, Datas, Payload, Clean, FrameOk;
      BodyFirst(frames);
      BodyEvents(frames[1..]);
      PayloadsFirst(frames);
      hide Payloads;
    }
  }

  lemma {:induction false} AnswerBeforeBlank(datas: seq<string>, parse: Parse, id: nat, answer: Answer)
    requires AnsweredBy(datas + [""], parse, id, answer)
    ensures AnsweredBy(datas, parse, id, answer)
  {
    var more := datas + [""];
    assert forall i :: 0 <= i < |datas| ==> more[i] == datas[i];
    if !answer.NoResponse? {
      var i: nat :| RespondsFirst(more, parse, id, i) && Says(parse(more[i]).value, answer);
      assert RespondsFirst(datas, parse, id, i);
    }
  }

  /**
    Round trip: payloads that are not empty and do not start with a newline,
    framed in any of the ways an event stream allows, are each recovered
    exactly, and the answer is what the first one says whose JSON-RPC id is
    the one asked for.
   */
  lemma {:induction false} StreamAnswers(frames: seq<seq<FrameLine>>, parse: Parse, id: nat, answer: Answer)
    requires FramesOk(frames) && forall i :: 0 <= i < |frames| ==> Clean(Payload(frames[i]))
    requires AnsweredBy(Datas(Events(Body(frames))), parse, id, answer)
    ensures Datas(Events(Body(frames))) == Payloads(frames) + [""]
    ensures AnsweredBy(Payloads(frames), parse, id, answer)
  {
    BodyEvents(frames);
    hide AnsweredBy, Payloads;
    AnswerBeforeBlank(Payloads(frames), parse, id, answer);
  }

  // ── every payload has a frame ─────────────────────────────────────────

  function Split(s: string): (r: seq<string>)
    ensures r != [] && forall i :: 0 <= i < |r| ==> NoNewline(r[i])
    decreases |s|
  {
    match FindNewline(s, 0)
    case None => [s]
    case Some(i) => [s[..i]] + Split(s[i + 1..])
  }

  function FrameOf(payload: string): (frame: seq<FrameLine>)
  {
    var texts := Split(payload);
    seq(|texts|, i requires 0 <= i < |texts| => Data(true, texts[i]))
  }

  lemma {:induction false} JoinFirst(text: string, texts: seq<string>)
    requires texts != []
    ensures Join([text] + texts) == text + "\n" + Join(texts)
  {
    var all := [text] + texts;
    JoinLast(all);
    if |texts| == 1 {
      assert all[..1] == [text];
    } else {
      hide Join;
      var n := |texts| - 1;
      JoinFirst(text, texts[..n]);
      JoinLast(texts);
      assert all[..|all| - 1] == [text] + texts[..n];
    }
  }

  lemma {:induction false} SplitJoins(s: string)
    ensures Join(Split(s)) == s
    decreases |s|
  {
    match FindNewline(s, 0)
    case None =>
    case Some(i) =>
      SplitJoins(s[i + 1..]);
      JoinFirst(s[..i], Split(s[i + 1..]));
      assert s == s[..i] + "\n" + s[i + 1..];
  }

  lemma {:induction false} DataTexts(texts: seq<string>)
    ensures Texts(seq(|texts|, i requires 0 <= i < |texts| => Data(true, texts[i]))) == texts
  {
    var frame := seq(|texts|, i requires 0 <= i < |texts| => Data(true, texts[i]));
    if texts != [] {
      var n := |texts| - 1;
      DataTexts(texts[..n]);
      assert frame[..n] == seq(n, i requires 0 <= i < n => Data(true, texts[..n][i]));
    }
  }

  predicate NoCr(s: string) {
    forall i :: 0 <= i < |s| ==> s[i] != '\r'
  }

  lemma {:induction false} SplitNoCr(s: string)
    requires NoCr(s)
    ensures forall i :: 0 <= i < |Split(s)| ==> NoCr(Split(s)[i])
    decreases |s|
  {
    match FindNewline(s, 0)
    case None =>
    case Some(i) => SplitNoCr(s[i + 1..]);
  }

  /** Any payload without carriage returns can be framed, and its plain frame carries it. */
  lemma FrameCarries(payload: string)
    requires NoCr(payload)
    ensures FrameOk(FrameOf(payload)) && Payload(FrameOf(payload)) == payload
  {
    SplitJoins(payload);
    DataTexts(Split(payload));
    SplitNoCr(payload);
  }

  // ── streams with CRLF line ends ───────────────────────────────────────

  lemma {:induction false} CrlfLines(line: string, rest: string)
    requires NoNewline(line)
    ensures Lines(line + "\r\n" + rest) == [line] + Lines(rest)
  {
    hide Lines;
    LinesFirst(line + "\r", rest);
    assert (line + "\r") + "\n" + rest == line + "\r\n" + rest;
    assert StripCr(line + "\r") == line;
  }

  lemma {:induction false} DataLine(lines: seq<string>, text: string)
    ensures DataOf(lines + ["data: " + text]) == Grown(DataOf(lines), text)
  {
    var line := "data: " + text;
    assert (lines + [line])[..|lines|] == lines;
    assert line[..5] == "data:" && line[5..] == " " + text;
  }

  lemma {:induction false} BlankLine(lines: seq<string>)
    ensures DataOf(lines + [""]) == DataOf(lines)
  {
    assert (lines + [""])[..|lines|] == lines;
  }

  lemma {:induction false} CrlfData(a: string, b: string)
    requires a != ""
    ensures DataOf(["data: " + a, "", "data: " + b, ""]) == a + "\n" + b
  {
    var la, lb := "data: " + a, "data: " + b;
    DataLine([], a);
    assert [] + [la] == [la];
    BlankLine([la]);
    assert [la] + [""] == [la, ""];
    DataLine([la, ""], b);
    assert [la, ""] + [lb] == [la, "", lb];
    BlankLine([la, "", lb]);
    assert [la, "", lb] + [""] == [la, "", lb, ""];
  }

  /** A text whose every newline follows a carriage return is one event. */
  lemma {:induction false} NoBreakIsOneEvent(body: string)
    requires forall i :: 0 <= i < |body| ==> AfterCr(body, i)
    ensures Events(body) == [body]
  {
    forall i | 0 <= i < |body|
      ensures !BreakAt(body, i)
    {
      if i + 1 < |body| { assert AfterCr(body, i + 1); }
    }
  }

  /** Lines ended the other way the standard allows. */
  function CrlfText(lines: seq<string>): string {
    if lines == [] then "" else lines[0] + "\r\n" + CrlfText(lines[1..])
  }

  predicate NoNewlines(lines: seq<string>) {
    forall i :: 0 <= i < |lines| ==> NoNewline(lines[i])
  }

  lemma {:induction false} CrlfTextLines(lines: seq<string>)
    requires NoNewlines(lines)
    ensures Lines(CrlfText(lines)) == lines
  {
    if lines != [] {
      CrlfTextLines(lines[1..]);
      CrlfLines(lines[0], CrlfText(lines[1..]));
    }
  }

  predicate AfterCr(s: string, i: nat)
    requires i < |s|
  {
    s[i] == '\n' ==> i > 0 && s[i - 1] == '\r'
  }

  lemma {:induction false} CrlfTextNewlines(lines: seq<string>)
    requires NoNewlines(lines)
    ensures forall i :: 0 <= i < |CrlfText(lines)| ==> AfterCr(CrlfText(lines), i)
  {
    if lines != [] {
      var s, first, rest := CrlfText(lines), lines[0], CrlfText(lines[1..]);
      CrlfTextNewlines(lines[1..]);
      forall i | 0 <= i < |s|
        ensures AfterCr(s, i)
      {
        assert s == first + ['\r', '\n'] + rest;
        if i < |first| {
          assert NoNewline(lines[0]) && s[i] == first[i];
        } else if i >= |first| + 2 {
          var j := i - |first| - 2;
          assert AfterCr(rest, j) && s[i] == rest[j];
          assert j > 0 ==> s[i - 1] == rest[j - 1];
        }
      }
    }
  }

  /**
    Events are split on two line feeds alone, so a stream whose lines end in
    CRLF, blank ones included, is read as one event, all its data run together.
   */
  lemma {:induction false} CrlfStreamIsOneEvent(lines: seq<string>)
    requires NoNewlines(lines)
    ensures Datas(Events(CrlfText(lines))) == [DataOf(lines)]
  {
    CrlfTextLines(lines);
    CrlfTextNewlines(lines);
    NoBreakIsOneEvent(CrlfText(lines));
  }

  /** Two such events come back as neither of their payloads. */
  lemma {:induction false} CrlfEventsRunTogether(a: string, b: string)
    requires NoNewline(a) && a != "" && NoNewline(b)
    ensures Datas(Events(CrlfText(["data: " + a, "", "data: " + b, ""]))) == [a + "\n" + b]
  {
    CrlfStreamIsOneEvent(["data: " + a, "", "data: " + b, ""]);
    CrlfData(a, b);
  }
}
