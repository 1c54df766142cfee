/**
  Finding the result contract in an agent's final message
  (crates/rustykrab-agent/src/external_worker.rs, `contract_candidates` and
  `parse_contract`): the whole message, each fenced block, and the object the
  backward brace scan finds, tried in the reverse of that order. Text is a
  sequence of characters; every character the scans look at is ASCII, so
  positions differ from the source's byte offsets but nothing else does.
 */
module ResultContract {
  import opened Common

  // ── trimming and searching ────────────────────────────────────────────

  /** Unicode White_Space, which `str::trim` strips. */
  predicate IsWhite(c: char) {
    ('\U{9}' <= c <= '\U{D}')
    || c in {' ', '\U{85}', '\U{A0}', '\U{1680}', '\U{2028}', '\U{2029}', '\U{202F}', '\U{205F}', '\U{3000}'}
    || ('\U{2000}' <= c <= '\U{200A}')
  }

  lemma {:induction false} WhiteSpaceIs(c: char)
    ensures IsWhite(c) <==>
      || 9 <= c as int <= 13 || c as int in {32, 133, 160, 5760, 8232, 8233, 8239, 8287, 12288}
      || 8192 <= c as int <= 8202
  {
  }

  function TrimStart(s: string): string {
    if s != "" && IsWhite(s[0]) then TrimStart(s[1..]) else s
  }

  function TrimEnd(s: string): string {
    if s != "" && IsWhite(s[|s| - 1]) then TrimEnd(s[..|s| - 1]) else s
  }

  function Trim(s: string): string {
    TrimEnd(TrimStart(s))
  }

  const FENCE := "```"

  predicate FenceAt(s: string, i: nat) {
    i + 3 <= |s| && s[i] == '`' && s[i + 1] == '`' && s[i + 2] == '`'
  }

  lemma {:induction false} FenceIs(s: string, i: nat)
    ensures FenceAt(s, i) <==> i <= |s| - 3 && s[i..i + 3] == "```"
  {
  }

  /** The first fence. */
  function FindFence(s: string): (r: Option<nat>)
    ensures r.Some? ==> r.value + 3 <= |s|
  {
    FenceFrom(s, 0)
  }

  function FenceFrom(s: string, i: nat): (r: Option<nat>)
    requires i <= |s|
    ensures r.Some? ==> i <= r.value && r.value + 3 <= |s|
    decreases |s| - i
  {
    if FenceAt(s, i) then Some(i) else if i == |s| then None else FenceFrom(s, i + 1)
  }

  /** The search returns the first fence there is. */
  lemma {:induction false} FenceIsFirst(s: string, i: nat)
    requires i <= |s|
    ensures var r := FenceFrom(s, i);
      && (r.Some? ==> FenceAt(s, r.value) && forall j :: i <= j < r.value ==> !FenceAt(s, j))
      && (r.None? ==> forall j :: i <= j < |s| ==> !FenceAt(s, j))
    decreases |s| - i
  {
    if !FenceAt(s, i) && i < |s| { FenceIsFirst(s, i + 1); }
  }

  function AfterLine(s: string): (r: nat)
    ensures r <= |s|
  {
    AfterFirst(s, 0)
  }

  /** Past the first newline, or the start when there is none. */
  function AfterFirst(s: string, i: nat): (r: nat)
    requires i <= |s|
    ensures r == 0 || (i < r <= |s| && s[r - 1] == '\n' && forall j :: i <= j < r - 1 ==> s[j] != '\n')
    ensures r == 0 ==> forall j :: i <= j < |s| ==> s[j] != '\n'
    decreases |s| - i
  {
    if i == |s| then 0 else if s[i] == '\n' then i + 1 else AfterFirst(s, i + 1)
  }

  /** Where the next fenced block of `s` lies: the start and end of its body, and what follows it. */
  datatype Block = Block(body: nat, end: nat)

  function NextBlock(s: string): (r: Option<Block>)
    ensures r.Some? ==> 3 <= r.value.body <= r.value.end && r.value.end + 3 <= |s|
  {
    match FindFence(s)
    case None => None
    case Some(start) =>
      var body := start + 3 + AfterLine(s[start + 3..]);
      match FindFence(s[body..])
      case None => None
      case Some(end) => Some(Block(body, body + end))
  }

  function Fences(s: string): seq<string>
    decreases |s|
  {
    match NextBlock(s)
    case None => []
    case Some(b) => [Trim(s[b.body..b.end])] + Fences(s[b.end + 3..])
  }

  // ── the backward scan ─────────────────────────────────────────────────

  predicate Delimits(s: string, i: nat)
    requires i < |s|
  {
    s[i] == '"' && (i == 0 || s[i - 1] != '\\')
  }

  /** The scan from position `n - 1` down: where the object it closes starts. */
  function Scan(s: string, n: nat, depth: int, inString: bool): (r: Option<nat>)
    requires n <= |s|
    ensures r.Some? ==> r.value < n && s[r.value] == '{'
  {
    if n == 0 then None
    else if Delimits(s, n - 1) then Scan(s, n - 1, depth, !inString)
    else if !inString && s[n - 1] == '}' then Scan(s, n - 1, depth + 1, inString)
    else if !inString && s[n - 1] == '{' then
      if depth == 1 then Some(n - 1) else Scan(s, n - 1, depth - 1, inString)
    else Scan(s, n - 1, depth, inString)
  }

  /** The position after the last `}`, or zero. */
  function AfterLastClose(s: string, n: nat): (r: nat)
    requires n <= |s|
    ensures r <= n && (r > 0 ==> s[r - 1] == '}') && forall j :: r <= j < n ==> s[j] != '}'
  {
    if n == 0 then 0 else if s[n - 1] == '}' then n else AfterLastClose(s, n - 1)
  }

  function ScannedObject(s: string): Option<string> {
    var end := AfterLastClose(s, |s|);
    match Scan(s, end, 0, false)
    case None => None
    case Some(start) => Some(s[start..end])
  }

  function Reversed(xs: seq<string>): seq<string> {
    if xs == [] then [] else Reversed(xs[1..]) + [xs[0]]
  }

  /** What `parse_contract` tries, in its order. */
  function Candidates(s: string): seq<string> {
    Maybe(ScannedObject(s)) + Reversed(Fences(s)) + [Trim(s)]
  }

  lemma {:induction false} ReversedAppend(xs: seq<string>, ys: seq<string>)
    ensures Reversed(xs + ys) == Reversed(ys) + Reversed(xs)
  {
    if xs == [] {
      assert xs + ys == ys;
    } else {
      assert (xs + ys)[1..] == xs[1..] + ys;
      ReversedAppend(xs[1..], ys);
    }
  }

  method FencedBlocks(s: string) returns (fenced: seq<string>)
    ensures fenced == Fences(s)
  {
    hide NextBlock, Trim;
    fenced := [];
    var rest := s;
    var block := NextBlock(rest);
    while block.Some?
      invariant block == NextBlock(rest)
      invariant Fences(s) == fenced + Fences(rest)
      decreases |rest|
    {
      fenced := fenced + [Trim(rest[block.value.body..block.value.end])];
      rest := rest[block.value.end + 3..];
      block := NextBlock(rest);
    }
  }

  method ScanBack(s: string) returns (found: Option<string>)
    ensures found == ScannedObject(s)
  {
    var close := AfterLastClose(s, |s|);
    var depth, inString, n := 0, false, close;
    while n > 0
      invariant 0 <= n <= close
      invariant Scan(s, close, 0, false) == Scan(s, n, depth, inString)
    {
      if Delimits(s, n - 1) {
        inString := !inString;
      } else if !inString {
        if s[n - 1] == '}' {
          depth := depth + 1;
        } else if s[n - 1] == '{' {
          depth := depth - 1;
          if depth == 0 {
            return Some(s[n - 1..close]);
          }
        }
      }
      n := n - 1;
    }
    return None;
  }

  function Maybe(found: Option<string>): seq<string> {
    if found.Some? then [found.value] else []
  }

  lemma ReversedParts(trimmed: string, fenced: seq<string>, found: Option<string>)
    ensures Reversed([trimmed] + fenced + Maybe(found)) == Maybe(found) + Reversed(fenced) + [trimmed]
  {
    ReversedAppend([trimmed] + fenced, Maybe(found));
    ReversedAppend([trimmed], fenced);
    assert Reversed([trimmed]) == [trimmed];
    assert Reversed(Maybe(found)) == Maybe(found);
  }

  method ContractCandidates(s: string) returns (out: seq<string>)
    ensures out == Candidates(s)
  {
    var fenced := FencedBlocks(s);
    var found := ScanBack(s);
    ReversedParts(Trim(s), fenced, found);
    out := ReverseInto([Trim(s)] + fenced + Maybe(found));
  }

  method ReverseInto(xs: seq<string>) returns (ys: seq<string>)
    ensures ys == Reversed(xs)
  {
    ys := [];
    for i := 0 to |xs|
      invariant ys == Reversed(xs[..i])
    {
      assert xs[..i + 1] == xs[..i] + [xs[i]];
      ReversedAppend(xs[..i], [xs[i]]);
      assert Reversed([xs[i]]) == [xs[i]];
      ys := [xs[i]] + ys;
    }
    assert xs[..|xs|] == xs;
  }

  // ── fenced blocks ─────────────────────────────────────────────────────

  lemma FirstFence(s: string, i: nat)
    requires FenceAt(s, i) && forall j :: 0 <= j < i ==> !FenceAt(s, j)
    ensures FindFence(s) == Some(i)
  {
    FenceIsFirst(s, 0);
  }

  /** A text's first fence stays where it is whatever follows. */
  lemma FenceStays(head: string, tail: string)
    requires FindFence(head + FENCE) == Some(|head|)
    ensures FindFence(head + FENCE + tail) == Some(|head|)
  {
    var s := head + FENCE + tail;
    FenceIsFirst(head + FENCE, 0);
    assert forall j :: 0 <= j < |head| ==> (FenceAt(s, j) <==> FenceAt(head + FENCE, j));
    FirstFence(s, |head|);
  }

  lemma LineSkipped(language: string, tail: string)
    requires NoNewline(language)
    ensures AfterLine(language + "\n" + tail) == |language| + 1
  {
    var after := language + "\n" + tail;
    assert after[|language|] == '\n';
    assert forall j :: 0 <= j < |language| ==> after[j] == language[j];
  }

  /** Where the block lies, given where its two fences are. */
  lemma {:induction false} BlockAt(s: string, start: nat, line: nat, end: nat)
    requires FindFence(s) == Some(start) && AfterLine(s[start + 3..]) == line
    requires FindFence(s[start + 3 + line..]) == Some(end)
    ensures NextBlock(s) == Some(Block(start + 3 + line, start + 3 + line + end))
  {
  }

  lemma {:induction false} BlockRead(s: string, b: Block)
    requires NextBlock(s) == Some(b)
    ensures Fences(s) == [Trim(s[b.body..b.end])] + Fences(s[b.end + 3..])
  {
  }

  lemma Cut(a: string, b: string)
    ensures (a + b)[|a|..] == b && (a + b)[..|a|] == a
  {
  }

  /**
    A block fenced by itself is read as its trimmed body, and the blocks after
    it as they would be alone: the texts around the fences bring no fence of
    their own, and the opening line is skipped whatever language it names.
   */
  lemma {:induction false} FencedBody(intro: string, language: string, body: string, rest: string)
    requires FindFence(intro + FENCE) == Some(|intro|)
    requires NoNewline(language) && FindFence(body + FENCE) == Some(|body|)
    ensures Fences(intro + FENCE + (language + "\n" + (body + FENCE + rest))) == [Trim(body)] + Fences(rest)
  {
    hide Fences, NextBlock, FindFence, AfterLine, Trim;
    var tail := body + FENCE + rest;
    var head := intro + FENCE + (language + "\n");
    var s := intro + FENCE + (language + "\n" + tail);
    FenceOpens(intro, language, tail);
    FenceStays(body, rest);
    assert s == head + tail;
    Cut(head, tail);
    BlockAt(s, |intro|, |language| + 1, |body|);
    BlockRead(s, Block(|head|, |head| + |body|));
    assert s[|head|..|head| + |body|] == body;
    assert s[|head| + |body| + 3..] == rest;
  }

  lemma {:induction false} FenceOpens(intro: string, language: string, tail: string)
    requires FindFence(intro + FENCE) == Some(|intro|) && NoNewline(language)
    ensures var s := intro + FENCE + (language + "\n" + tail);
      FindFence(s) == Some(|intro|) && AfterLine(s[|intro| + 3..]) == |language| + 1
  {
    var after := language + "\n" + tail;
    FenceStays(intro, after);
    Cut(intro + FENCE, after);
    LineSkipped(language, tail);
  }

  // ── the contract ──────────────────────────────────────────────────────

  /** What one candidate reads as: no JSON object, an object of the wrong shape, or a report. */
  datatype Reading<+R> = NotAnObject | Misshapen(why: string) | Report(report: R)

  const NO_OBJECT := "no JSON object in the final message"

  /** Why the last object among the candidates is no report, or `before` when none is an object. */
  function LastError<R>(candidates: seq<string>, read: string -> Reading<R>, before: string): string {
    if candidates == [] then before
    else
      match read(candidates[0])
      case Misshapen(why) => LastError(candidates[1..], read, "the result contract did not parse: " + why)
      case _ => LastError(candidates[1..], read, before)
  }

  /** The last object that is no report decides, wherever it lies among texts that are none. */
  lemma {:induction false} LastErrorIs<R>(
    early: seq<string>, last: string, late: seq<string>, read: string -> Reading<R>, before: string)
    requires read(last).Misshapen? && forall i :: 0 <= i < |late| ==> !read(late[i]).Misshapen?
    ensures LastError(early + [last] + late, read, before) == "the result contract did not parse: " + read(last).why
    decreases |early| + |late|
  {
    var all := early + [last] + late;
    if early == [] {
      assert all[0] == last && all[1..] == late;
      NoMoreErrors(late, read, "the result contract did not parse: " + read(last).why);
    } else {
      assert all[0] == early[0] && all[1..] == early[1..] + [last] + late;
      LastErrorIs(early[1..], last, late, read,
        if read(early[0]).Misshapen? then "the result contract did not parse: " + read(early[0]).why else before);
    }
  }

  lemma {:induction false} NoMoreErrors<R>(late: seq<string>, read: string -> Reading<R>, before: string)
    requires forall i :: 0 <= i < |late| ==> !read(late[i]).Misshapen?
    ensures LastError(late, read, before) == before
  {
    if late != [] {
      assert forall i :: 0 <= i < |late[1..]| ==> late[1..][i] == late[i + 1];
      NoMoreErrors(late[1..], read, before);
    }
  }

  /** The candidate at `i` is a report, and none before it is. */
  ghost predicate ReportsFirst<R(!new)>(candidates: seq<string>, read: string -> Reading<R>, i: nat, report: R) {
    i < |candidates| && read(candidates[i]) == Report(report) && forall j :: 0 <= j < i ==> !read(candidates[j]).Report?
  }

  /** Candidate by candidate: the scanned object if there is one, the fenced blocks last first, the trimmed message. */
  lemma {:induction false} CandidatesAre(s: string)
    ensures var fences, found := Fences(s), if ScannedObject(s).Some? then 1 else 0;
      && |Candidates(s)| == found + |fences| + 1
      && (found == 1 ==> Candidates(s)[0] == ScannedObject(s).value)
      && (forall i :: found <= i < found + |fences| ==> Candidates(s)[i] == fences[|fences| - 1 - (i - found)])
      && Candidates(s)[found + |fences|] == Trim(s)
  {
    hide Fences, ScannedObject, Trim, Reversed;
    ReversedAt(Fences(s));
  }

  lemma {:induction false} ReversedAt(xs: seq<string>)
    ensures |Reversed(xs)| == |xs| && forall i :: 0 <= i < |xs| ==> Reversed(xs)[i] == xs[|xs| - 1 - i]
  {
    if xs != [] { ReversedAt(xs[1..]); }
  }

  /** Trimming takes white space off both ends and nothing else. */
  lemma {:induction false} TrimIs(s: string) returns (a: nat, b: nat)
    ensures a <= b <= |s| && Trim(s) == s[a..b]
    ensures (forall i :: 0 <= i < a ==> IsWhite(s[i])) && (forall i :: b <= i < |s| ==> IsWhite(s[i]))
    ensures a < b ==> !IsWhite(s[a]) && !IsWhite(s[b - 1])
  {
    hide IsWhite;
    a := StartIs(s);
    var n := EndIs(s[a..]);
    b := a + n;
    assert s[a..][..b - a] == s[a..b];
    assert forall i :: b <= i < |s| ==> s[i] == s[a..][i - a];
  }

  lemma {:induction false} StartIs(s: string) returns (a: nat)
    ensures a <= |s| && TrimStart(s) == s[a..] && (forall i :: 0 <= i < a ==> IsWhite(s[i]))
    ensures a < |s| ==> !IsWhite(s[a])
  {
    hide IsWhite;
    if s != "" && IsWhite(s[0]) {
      var n := StartIs(s[1..]);
      a := n + 1;
      assert s[1..][n..] == s[a..];
      assert forall i :: 1 <= i < a ==> s[i] == s[1..][i - 1];
    } else {
      a := 0;
    }
  }

  lemma {:induction false} EndIs(s: string) returns (b: nat)
    ensures b <= |s| && TrimEnd(s) == s[..b] && (forall i :: b <= i < |s| ==> IsWhite(s[i]))
    ensures b > 0 ==> !IsWhite(s[b - 1])
  {
    hide IsWhite;
    if s != "" && IsWhite(s[|s| - 1]) {
      b := EndIs(s[..|s| - 1]);
      assert s[..|s| - 1][..b] == s[..b];
    } else {
      b := |s|;
    }
  }

  /**
    `parse_contract`: the report of the first candidate that is one, whatever
    was tried before it; an error only when no candidate is one, and then why
    the last object was not.
   */
  method ParseContract<R(!new)>(s: string, read: string -> Reading<R>) returns (r: Result<R, string>)
    ensures var candidates := Candidates(s);
      && (r.Ok? ==> exists i: nat :: ReportsFirst(candidates, read, i, r.value))
      && (r.Err? <==> forall i :: 0 <= i < |candidates| ==> !read(candidates[i]).Report?)
      && (r.Err? ==>
            var why := LastError(candidates, read, "no JSON object in the final message");
            r.error == why + ": " + Tail(Trim(s), 300))
  {
    var candidates := ContractCandidates(s);
    hide Candidates, Trim;
    var lastError := NO_OBJECT;
    var n := 0;
    while n < |candidates|
      invariant 0 <= n <= |candidates|
      invariant forall i :: 0 <= i < n ==> !read(candidates[i]).Report?
      invariant LastError(candidates, read, NO_OBJECT) == LastError(candidates[n..], read, lastError)
    {
      var rest := candidates[n..];
      assert rest[0] == candidates[n] && rest[1..] == candidates[n + 1..];
      match read(candidates[n]) {
        case NotAnObject =>
        case Misshapen(why) => lastError := "the result contract did not parse: " + why;
        case Report(report) =>
          assert ReportsFirst(candidates, read, n, report);
          return Ok(report);
      }
      n := n + 1;
    }
    return Err(lastError + ": " + Tail(Trim(s), 300));
  }
}
