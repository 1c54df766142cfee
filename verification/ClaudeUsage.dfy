/**
  What a Claude Code run spent and did, read from its printed events
  (crates/rustykrab-agent/src/external_worker.rs, `read_claude`). The last
  result envelope decides what was spent; without one, each assistant message
  counts once, with the usage its last content block reported.
 */
module ClaudeUsage {
  import opened Common

  /** The token counts of a `usage` object, each where it is a number. */
  datatype Usage = Usage(input: Option<nat>, output: Option<nat>, cacheCreation: Option<nat>)

  function Count(n: Option<nat>): nat {
    if n.Some? then n.value else 0
  }

  function Tokens(u: Usage): nat {
    Count(u.input) + Count(u.output) + Count(u.cacheCreation)
  }

  /** One line of the output: an assistant event, an envelope, or anything else, unreadable lines included. */
  datatype Line =
    | Assistant(id: Option<string>, usage: Usage, commands: seq<string>)
    | Envelope(usage: Usage, turns: Option<nat>, subtype: Option<string>, isError: bool, result: Option<string>)
    | Other

  datatype Spent = Spent(tokens: nat, iterations: nat)

  /** `failure` is the text of the process failure, if one is reported. */
  datatype Transcript = Transcript(
    spent: Spent,
    commands: seq<string>,
    failure: Option<string>,
    message: Option<string>)

  const U32_MAX: nat := 0xFFFF_FFFF

  function Saturated(n: nat): nat {
    Min(n, U32_MAX)
  }

  function Digit(n: nat): char
    requires n < 10
  {
    "0123456789"[n]
  }

  function Decimal(n: nat): string {
    if n < 10 then [Digit(n)] else Decimal(n / 10) + [Digit(n % 10)]
  }

  /** An event without an id stands for the line it is on. */
  function MessageId(n: nat, id: Option<string>): string {
    if id.Some? then id.value else "line-" + Decimal(n)
  }

  // ── what is counted, stated of the whole output ───────────────────────

  datatype Turn = Turn(id: string, tokens: nat)

  /** Every assistant event with its message, in order. */
  function Turns(lines: seq<Line>): seq<Turn> {
    if lines == [] then []
    else
      var n := |lines| - 1;
      Turns(lines[..n])
      + (if lines[n].Assistant? then [Turn(MessageId(n, lines[n].id), Tokens(lines[n].usage))] else [])
  }

  function Ids(turns: seq<Turn>): set<string> {
    set t | t in turns :: t.id
  }

  /** The sum of the last usage each message reported: an event counts if no later one is its message's. */
  function LastUsageSum(turns: seq<Turn>): nat {
    if turns == [] then 0
    else (if turns[0].id in Ids(turns[1..]) then 0 else turns[0].tokens) + LastUsageSum(turns[1..])
  }

  function LastEnvelope(lines: seq<Line>): (e: Option<Line>)
    ensures e.Some? ==> e.value.Envelope?
  {
    if lines == [] then None
    else if lines[|lines| - 1].Envelope? then Some(lines[|lines| - 1])
    else LastEnvelope(lines[..|lines| - 1])
  }

  /** The reference: what the run spent. */
  function SpentBy(lines: seq<Line>): Spent {
    match LastEnvelope(lines)
    case Some(e) => Spent(Tokens(e.usage), Saturated(Count(e.turns)))
    case None => Spent(LastUsageSum(Turns(lines)), Saturated(|Ids(Turns(lines))|))
  }

  /** The shell commands of every assistant event, in order. */
  function Commands(lines: seq<Line>): seq<string> {
    if lines == [] then []
    else
      var last := lines[|lines| - 1];
      Commands(lines[..|lines| - 1]) + (if last.Assistant? then last.commands else [])
  }

  const STDERR_TAIL: nat := 600

  /** The failure one envelope reports. */
  function FailureIn(e: Line): Option<string>
    requires e.Envelope?
  {
    var subtype := if e.subtype.Some? then e.subtype.value else "success";
    if subtype == "error_max_turns" then
      Some("claude reported its own turn limit after " + Decimal(Count(e.turns)) + " turns")
    else if subtype != "success" || e.isError then
      Some(Tail("claude ended with " + subtype + ": " + (if e.result.Some? then e.result.value else ""), STDERR_TAIL))
    else None
  }

  /** The failure reported last: a later envelope without one does not take it back. */
  function LastFailure(lines: seq<Line>): Option<string> {
    if lines == [] then None
    else
      var last := lines[|lines| - 1];
      if last.Envelope? && FailureIn(last).Some? then FailureIn(last) else LastFailure(lines[..|lines| - 1])
  }

  function FinalMessage(lines: seq<Line>): Option<string> {
    match LastEnvelope(lines) case Some(e) => e.result case None => None
  }

  /** An envelope decides alone: what it counts of input, output and cache creation, and its turns, up to 32 bits. */
  lemma {:induction false} EnvelopeDecides(lines: seq<Line>, e: Line)
    requires e.Envelope?
    ensures SpentBy(lines + [e]).tokens == Tally(e.usage.input) + Tally(e.usage.output) + Tally(e.usage.cacheCreation)
    ensures SpentBy(lines + [e]).iterations == if Tally(e.turns) < 0x1_0000_0000 then Tally(e.turns) else 0xFFFF_FFFF
  {
  }

  /** An assistant event is a turn of its message, or of its line alone when it names none, at what it counts. */
  lemma {:induction false} EventIsItsMessages(lines: seq<Line>, e: Line)
    requires e.Assistant? && LastEnvelope(lines).None?
    ensures var more := Turns(lines + [e]);
      && LastEnvelope(lines + [e]).None?
      && more == Turns(lines) + [Turn(if e.id.Some? then e.id.value else "line-" + Decimal(|lines|),
           Tally(e.usage.input) + Tally(e.usage.output) + Tally(e.usage.cacheCreation))]
  {
    assert (lines + [e])[..|lines|] == lines;
  }

  function Tally(n: Option<nat>): nat {
    match n case None => 0 case Some(v) => v
  }

  lemma {:induction false} DecimalIsOneNumber(m: nat, n: nat)
    requires Decimal(m) == Decimal(n)
    ensures m == n
  {
    var a, b := Decimal(m), Decimal(n);
    assert a[|a| - 1] == b[|b| - 1];
    DecimalEnds(m);
    DecimalEnds(n);
    assert m % 10 == n % 10;
    if m >= 10 && n >= 10 {
      assert a[..|a| - 1] == Decimal(m / 10) && b[..|b| - 1] == Decimal(n / 10);
      DecimalIsOneNumber(m / 10, n / 10);
    } else if m >= 10 {
      DecimalEnds(m / 10);
    } else if n >= 10 {
      DecimalEnds(n / 10);
    }
  }

  lemma {:induction false} DecimalEnds(n: nat)
    ensures |Decimal(n)| >= 1 && Decimal(n)[|Decimal(n)| - 1] == Digit(n % 10)
    ensures forall d: nat :: d < 10 && Digit(d) == Digit(n % 10) ==> d == n % 10
  {
  }

  /** An envelope that reports a failure: an error, or a subtype other than success. */
  predicate Fails(e: Line) {
    e.Envelope? && (e.isError || (e.subtype.Some? && e.subtype.value != "success"))
  }

  /** What its failure is: the agent's own turn limit, or how it ended, the last 600 characters of it. */
  lemma {:induction false} FailureSays(e: Line)
    requires e.Envelope?
    ensures FailureIn(e).Some? <==> Fails(e)
    ensures e.subtype == Some("error_max_turns") ==>
      FailureIn(e) == Some("claude reported its own turn limit after " + Decimal(Tally(e.turns)) + " turns")
    ensures Fails(e) && e.subtype != Some("error_max_turns") ==>
      var text := "claude ended with " + (if e.subtype.Some? then e.subtype.value else "success") + ": "
        + (if e.result.Some? then e.result.value else "");
      FailureIn(e) == Some(if |text| <= 600 then text else "..." + text[|text| - 600..])
  {
  }

  /** The last failing envelope of the whole output. */
  ghost predicate FailsLast(lines: seq<Line>, i: nat) {
    i < |lines| && Fails(lines[i]) && forall j :: i < j < |lines| ==> !Fails(lines[j])
  }

  lemma {:induction false} FailsLastStays(lines: seq<Line>, i: nat)
    requires lines != [] && !Fails(lines[|lines| - 1]) && FailsLast(lines[..|lines| - 1], i)
    ensures FailsLast(lines, i) && lines[i] == lines[..|lines| - 1][i]
  {
    var front := lines[..|lines| - 1];
    assert forall j :: 0 <= j < |front| ==> front[j] == lines[j];
  }

  /** The text of the failure of the last envelope that reports one, or none if none does. */
  ghost predicate FailureIs(lines: seq<Line>, failure: Option<string>) {
    match failure
    case None => forall i :: 0 <= i < |lines| ==> !Fails(lines[i])
    case Some(text) => exists i: nat :: FailsLast(lines, i) && FailureIn(lines[i]) == Some(text)
  }

  lemma {:induction false} FailureStays(lines: seq<Line>, failure: Option<string>)
    requires lines != [] && !Fails(lines[|lines| - 1]) && FailureIs(lines[..|lines| - 1], failure)
    ensures FailureIs(lines, failure)
  {
    hide FailureIn;
    var n := |lines| - 1;
    if failure.Some? {
      var i: nat :| FailsLast(lines[..n], i) && FailureIn(lines[..n][i]) == failure;
      FailsLastStays(lines, i);
    } else {
      assert forall i :: 0 <= i < n ==> lines[i] == lines[..n][i];
    }
  }

  /** A failure is reported if and only if some envelope reports one, and it is the last such one's. */
  lemma {:induction false} FailsExactlyWhen(lines: seq<Line>)
    ensures FailureIs(lines, LastFailure(lines))
  {
    if lines != [] {
      var n := |lines| - 1;
      FailsExactlyWhen(lines[..n]);
      if lines[n].Envelope? { FailureSays(lines[n]); }
      hide FailureIn;
      if Fails(lines[n]) {
        assert FailsLast(lines, n);
      } else {
        hide FailureIs;
        FailureStays(lines, LastFailure(lines[..n]));
      }
    }
  }

  // ── the running list ──────────────────────────────────────────────────

  /** The last usage reported for `id`, zero if none was. */
  function LastUsage(turns: seq<Turn>, id: string): nat {
    if turns == [] then 0
    else if turns[|turns| - 1].id == id then turns[|turns| - 1].tokens
    else LastUsage(turns[..|turns| - 1], id)
  }

  lemma {:induction false} SumWithOneMore(turns: seq<Turn>, t: Turn)
    ensures LastUsageSum(turns + [t]) == LastUsageSum(turns) - LastUsage(turns, t.id) + t.tokens
    ensures t.id !in Ids(turns) ==> LastUsage(turns, t.id) == 0
    decreases |turns|
  {
    if turns == [] {
      assert turns + [t] == [t] && [t][1..] == [];
    } else {
      var rest := turns[1..];
      assert (turns + [t])[1..] == rest + [t];
      SumWithOneMore(rest, t);
      IdsGrow(rest, t);
      FirstOrLater(turns, t.id);
      assert turns[0] in turns && forall x :: x in rest ==> x in turns;
    }
  }

  lemma {:induction false} IdsGrow(turns: seq<Turn>, t: Turn)
    ensures Ids(turns + [t]) == Ids(turns) + {t.id}
  {
    assert forall x :: x in turns + [t] <==> x in turns || x == t;
    assert t in turns + [t];
  }

  lemma {:induction false} FirstOrLater(turns: seq<Turn>, id: string)
    requires turns != []
    ensures LastUsage(turns, id) ==
      if id in Ids(turns[1..]) then LastUsage(turns[1..], id)
      else if turns[0].id == id then turns[0].tokens
      else LastUsage(turns[1..], id)
    decreases |turns|
  {
    var n := |turns| - 1;
    if n > 0 {
      var front := turns[..n];
      FirstOrLater(front, id);
      assert turns[1..][..n - 1] == front[1..];
      assert turns[1..] == front[1..] + [turns[n]];
      IdsGrow(front[1..], turns[n]);
    }
  }

  function Sum(seen: seq<Turn>): nat {
    if seen == [] then 0 else Sum(seen[..|seen| - 1]) + seen[|seen| - 1].tokens
  }

  lemma {:induction false} SumUpdated(seen: seq<Turn>, i: nat, t: Turn)
    requires i < |seen|
    ensures Sum(seen[i := t]) == Sum(seen) - seen[i].tokens + t.tokens
  {
    var n := |seen| - 1;
    if i < n {
      SumUpdated(seen[..n], i, t);
      assert seen[i := t][..n] == seen[..n][i := t];
    } else {
      assert seen[i := t][..n] == seen[..n];
    }
  }

  /** The list holds each message once, with its last usage so far. */
  ghost predicate Summarises(seen: seq<Turn>, turns: seq<Turn>) {
    && (forall i, j :: 0 <= i < j < |seen| ==> seen[i].id != seen[j].id)
    && (forall i :: 0 <= i < |seen| ==> seen[i].tokens == LastUsage(turns, seen[i].id))
    && Ids(seen) == Ids(turns)
    && Sum(seen) == LastUsageSum(turns)
  }

  lemma {:induction false} LastUsageGrows(turns: seq<Turn>, t: Turn, id: string)
    ensures LastUsage(turns + [t], id) == if id == t.id then t.tokens else LastUsage(turns, id)
  {
    assert (turns + [t])[..|turns|] == turns;
  }

  lemma {:induction false} ReplacedSummarises(seen: seq<Turn>, turns: seq<Turn>, i: nat, t: Turn)
    requires Summarises(seen, turns) && i < |seen| && seen[i].id == t.id
    ensures Summarises(seen[i := t], turns + [t])
  {
    var seen' := seen[i := t];
    ReplacedIds(seen, i, t);
    SumWithOneMore(turns, t);
    SumUpdated(seen, i, t);
    IdsGrow(turns, t);
    assert t.id in Ids(turns);
    hide Ids, Sum, LastUsageSum;
    forall j | 0 <= j < |seen'|
      ensures seen'[j].tokens == LastUsage(turns + [t], seen'[j].id)
    {
      LastUsageGrows(turns, t, seen'[j].id);
    }
  }

  lemma {:induction false} ReplacedIds(seen: seq<Turn>, i: nat, t: Turn)
    requires i < |seen| && seen[i].id == t.id
    ensures Ids(seen[i := t]) == Ids(seen) && t.id in Ids(seen)
  {
    var seen' := seen[i := t];
    assert seen[i] in seen;
    assert forall j :: 0 <= j < |seen| ==> seen'[j].id == seen[j].id && seen'[j] in seen' && seen[j] in seen;
  }

  lemma {:induction false} AppendedSummarises(seen: seq<Turn>, turns: seq<Turn>, t: Turn)
    requires Summarises(seen, turns) && t.id !in Ids(seen)
    ensures Summarises(seen + [t], turns + [t])
  {
    var seen' := seen + [t];
    IdsGrow(turns, t);
    IdsGrow(seen, t);
    assert Sum(seen') == LastUsageSum(turns + [t]) by {
      SumWithOneMore(turns, t);
      assert seen'[..|seen|] == seen;
    }
    forall j | 0 <= j < |seen|
      ensures seen'[j].id != t.id && seen'[j].tokens == LastUsage(turns + [t], seen'[j].id)
    {
      assert seen[j] in seen && seen'[j] == seen[j];
      LastUsageGrows(turns, t, seen[j].id);
    }
    LastUsageGrows(turns, t, t.id);
  }

  lemma {:induction false} DistinctIds(seen: seq<Turn>)
    requires forall i, j :: 0 <= i < j < |seen| ==> seen[i].id != seen[j].id
    ensures |Ids(seen)| == |seen|
  {
    if seen != [] {
      var n := |seen| - 1;
      DistinctIds(seen[..n]);
      assert seen == seen[..n] + [seen[n]];
      IdsGrow(seen[..n], seen[n]);
    }
  }

  /** Update the message's entry, or open one. */
  method Note(seen: seq<Turn>, t: Turn, ghost turns: seq<Turn>) returns (seen': seq<Turn>)
    requires Summarises(seen, turns)
    ensures Summarises(seen', turns + [t])
  {
    var i := 0;
    while i < |seen|
      invariant 0 <= i <= |seen|
      invariant forall j :: 0 <= j < i ==> seen[j].id != t.id
    {
      if seen[i].id == t.id {
        ReplacedSummarises(seen, turns, i, t);
        return seen[i := t];
      }
      i := i + 1;
    }
    AppendedSummarises(seen, turns, t);
    return seen + [t];
  }

  method ReadClaude(lines: seq<Line>) returns (t: Transcript)
    ensures t == Transcript(SpentBy(lines), Commands(lines), LastFailure(lines), FinalMessage(lines))
  {
    var seen: seq<Turn> := [];
    var enveloped: Option<Spent> := None;
    var commands, failure, message := [], None, None;
    assert Summarises(seen, Turns(lines[..0]));
    hide Summarises, FailureIn;
    for n := 0 to |lines|
      invariant Summarises(seen, Turns(lines[..n]))
      invariant enveloped == match LastEnvelope(lines[..n])
        case None => None
        case Some(e) => Some(Spent(Tokens(e.usage), Saturated(Count(e.turns))))
      invariant commands == Commands(lines[..n])
      invariant failure == LastFailure(lines[..n]) && message == FinalMessage(lines[..n])
    {
      assert lines[..n + 1][..n] == lines[..n];
      match lines[n] {
        case Assistant(id, usage, ran) =>
          seen := Note(seen, Turn(MessageId(n, id), Tokens(usage)), Turns(lines[..n]));
          commands := commands + ran;
        case Envelope(usage, turns, _, _, result) =>
          enveloped := Some(Spent(Tokens(usage), Saturated(Count(turns))));
          if FailureIn(lines[n]).Some? { failure := FailureIn(lines[n]); }
          message := result;
          assert Turns(lines[..n + 1]) == Turns(lines[..n]);
        case Other =>
          assert Turns(lines[..n + 1]) == Turns(lines[..n]);
      }
    }
    assert lines[..|lines|] == lines;
    if enveloped.Some? { return Transcript(enveloped.value, commands, failure, message); }
    var spent := SumUp(seen, Turns(lines));
    return Transcript(spent, commands, failure, message);
  }

  method SumUp(seen: seq<Turn>, ghost turns: seq<Turn>) returns (spent: Spent)
    requires Summarises(seen, turns)
    ensures spent == Spent(LastUsageSum(turns), Saturated(|Ids(turns)|))
  {
    DistinctIds(seen);
    var total := 0;
    for n := 0 to |seen|
      invariant total == Sum(seen[..n])
    {
      assert seen[..n + 1][..n] == seen[..n];
      total := total + seen[n].tokens;
    }
    assert seen[..|seen|] == seen;
    return Spent(total, Saturated(|seen|));
  }

  // ── what that sum does not depend on ──────────────────────────────────

  /** The events of every other message. */
  function Without(turns: seq<Turn>, id: string): seq<Turn> {
    if turns == [] then []
    else
      var n := |turns| - 1;
      Without(turns[..n], id) + (if turns[n].id == id then [] else [turns[n]])
  }

  lemma {:induction false} WithoutIds(turns: seq<Turn>, id: string)
    ensures Ids(Without(turns, id)) == Ids(turns) - {id}
  {
    if turns != [] {
      var n := |turns| - 1;
      WithoutIds(turns[..n], id);
      assert turns == turns[..n] + [turns[n]];
      IdsGrow(turns[..n], turns[n]);
      if turns[n].id != id {
        IdsGrow(Without(turns[..n], id), turns[n]);
      } else {
        assert Without(turns, id) == Without(turns[..n], id);
      }
    }
  }

  lemma {:induction false} WithoutLeavesOthers(turns: seq<Turn>, id: string, other: string)
    ensures LastUsage(Without(turns, id), other) == if other == id then 0 else LastUsage(turns, other)
  {
    if turns != [] {
      var n := |turns| - 1;
      WithoutLeavesOthers(turns[..n], id, other);
      if turns[n].id != id {
        LastUsageGrows(Without(turns[..n], id), turns[n], other);
      } else {
        assert Without(turns, id) == Without(turns[..n], id);
      }
    }
  }

  /** A message adds to the sum exactly its own last usage. */
  lemma {:induction false} SumByMessage(turns: seq<Turn>, id: string)
    ensures LastUsageSum(turns) == LastUsageSum(Without(turns, id)) + LastUsage(turns, id)
  {
    if turns != [] {
      var n := |turns| - 1;
      var front, t := turns[..n], turns[n];
      SumByMessage(front, id);
      assert turns == front + [t];
      SumWithOneMore(front, t);
      if t.id == id {
        assert Without(turns, id) == Without(front, id);
      } else {
        SumWithOneMore(Without(front, id), t);
        WithoutLeavesOthers(front, id, t.id);
      }
    }
  }

  /**
    The total depends only on which messages there are and the last usage of
    each: not on the order of their events, nor on how often they repeat.
   */
  lemma {:induction false} OrderDoesNotMatter(a: seq<Turn>, b: seq<Turn>)
    requires Ids(a) == Ids(b) && forall id :: id in Ids(a) ==> LastUsage(a, id) == LastUsage(b, id)
    ensures LastUsageSum(a) == LastUsageSum(b)
    decreases |Ids(a)|
  {
    if a == [] {
      assert forall i :: 0 <= i < |b| ==> b[i] in b && b[i].id in Ids(b);
    } else {
      var id := a[0].id;
      assert a[0] in a;
      SumByMessage(a, id);
      SumByMessage(b, id);
      var a', b' := Without(a, id), Without(b, id);
      WithoutIds(a, id);
      WithoutIds(b, id);
      forall other | other in Ids(a')
        ensures LastUsage(a', other) == LastUsage(b', other)
      {
        WithoutLeavesOthers(a, id, other);
        WithoutLeavesOthers(b, id, other);
      }
      OrderDoesNotMatter(a', b');
    }
  }
}
