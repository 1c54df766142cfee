/** Continuing a kept conversation (crates/rustykrab-agent/src/local_worker.rs, `continued`). */
module Resume {
  import opened Common

  datatype Role = System | User | Assistant | Tool

  /** Plain text, or anything else with the text `as_text` finds in it: the first text block of several. */
  datatype Content = Text(text: string) | Parts(first: Option<string>, id: nat)

  function AsText(c: Content): Option<string> {
    match c
    case Text(text) => Some(text)
    case Parts(first, _) => first
  }

  datatype Message = Message(role: Role, content: Content)

  const NOTICE := "[System notice] "

  /** How many system messages the conversation opens with. */
  function Lead(messages: seq<Message>): (n: nat)
    ensures n <= |messages| && (forall i :: 0 <= i < n ==> messages[i].role.System?)
    ensures n < |messages| ==> !messages[n].role.System?
  {
    if messages == [] || !messages[0].role.System? then 0 else 1 + Lead(messages[1..])
  }

  /** A later system message reads as a notice from the user's side: its text alone, if it has any. */
  function Demoted(m: Message): Message {
    if m.role.System? then
      Message(User, if AsText(m.content).Some? then Text(NOTICE + AsText(m.content).value) else m.content)
    else m
  }

  function AllDemoted(messages: seq<Message>): (r: seq<Message>)
    ensures |r| == |messages| && forall i :: 0 <= i < |messages| ==> r[i] == Demoted(messages[i])
  {
    seq(|messages|, i requires 0 <= i < |messages| => Demoted(messages[i]))
  }

  /** What a firing brings: its system prompt, and the brief as its turn. */
  datatype Firing = Firing(system: string, turn: string)

  function Continued(messages: seq<Message>, f: Firing): seq<Message> {
    [Message(System, Text(f.system))] + AllDemoted(messages[Lead(messages)..]) + [Message(User, Text(f.turn))]
  }

  method CountLead(kept: seq<Message>) returns (lead: nat)
    ensures lead == Lead(kept)
  {
    lead := 0;
    while lead < |kept| && kept[lead].role.System?
      invariant 0 <= lead <= |kept| && Lead(kept) == lead + Lead(kept[lead..])
    {
      assert kept[lead..][1..] == kept[lead + 1..];
      lead := lead + 1;
    }
  }

  /** The edits the source makes in place: drain, rewrite one by one, insert in front, push. */
  method Continue(kept: seq<Message>, f: Firing) returns (messages: seq<Message>)
    ensures messages == Continued(kept, f)
  {
    var lead := CountLead(kept);
    ghost var rest := kept[lead..];
    messages := kept[lead..];
    var i := 0;
    while i < |messages|
      invariant 0 <= i <= |messages| == |rest|
      invariant forall j :: 0 <= j < i ==> messages[j] == Demoted(rest[j])
      invariant forall j :: i <= j < |messages| ==> messages[j] == rest[j]
    {
      var message := messages[i];
      if message.role.System? {
        var text := AsText(message.content);
        if text.Some? { message := message.(content := Text(NOTICE + text.value)); }
        message := message.(role := User);
        messages := messages[i := message];
      }
      i := i + 1;
    }
    assert messages == AllDemoted(rest);
    messages := [Message(System, Text(f.system))] + messages;
    messages := messages + [Message(User, Text(f.turn))];
  }

  function FireAll(messages: seq<Message>, firings: seq<Firing>): seq<Message> {
    if firings == [] then messages
    else Continued(FireAll(messages, firings[..|firings| - 1]), firings[|firings| - 1])
  }

  function TurnsOf(firings: seq<Firing>): (r: seq<Message>)
    ensures |r| == |firings| && forall i :: 0 <= i < |firings| ==> r[i] == Message(User, Text(firings[i].turn))
  {
    seq(|firings|, i requires 0 <= i < |firings| => Message(User, Text(firings[i].turn)))
  }

  predicate NoSystem(messages: seq<Message>) {
    forall i :: 0 <= i < |messages| ==> !messages[i].role.System?
  }

  /** The kept part of a conversation once it has been resumed. */
  function Body(kept: seq<Message>): (r: seq<Message>)
    ensures NoSystem(r) && |r| == |kept| - Lead(kept)
  {
    AllDemoted(kept[Lead(kept)..])
  }

  /** A conversation already in normal form keeps its body. */
  lemma {:induction false} ResumedAgain(system: Message, body: seq<Message>, f: Firing)
    requires system.role.System? && NoSystem(body)
    ensures Continued([system] + body, f) == [Message(System, Text(f.system))] + body + [Message(User, Text(f.turn))]
  {
    var before := [system] + body;
    assert before[1..] == body;
    assert Lead(body) == 0;
    assert Lead(before) == 1;
    assert AllDemoted(body) == body;
  }

  /**
    However often a conversation is resumed, it is the last firing's system
    message, what the kept conversation held after its opening system
    messages with any later ones as notices, and every firing's turn in order.
   */
  lemma {:induction false} RepeatedFirings(kept: seq<Message>, firings: seq<Firing>)
    requires firings != []
    ensures FireAll(kept, firings) ==
      [Message(System, Text(firings[|firings| - 1].system))] + (Body(kept) + TurnsOf(firings))
  {
    var n := |firings| - 1;
    var last := [Message(User, Text(firings[n].turn))];
    var system := [Message(System, Text(firings[n].system))];
    assert TurnsOf(firings) == TurnsOf(firings[..n]) + last;
    if n == 0 {
      assert firings[..0] == [];
      assert TurnsOf(firings) == last;
      assert system + Body(kept) + last == system + (Body(kept) + last);
    } else {
      RepeatedFirings(kept, firings[..n]);
      var body := Body(kept) + TurnsOf(firings[..n]);
      ResumedAgain(Message(System, Text(firings[n - 1].system)), body, firings[n]);
      assert system + body + last == system + (Body(kept) + (TurnsOf(firings[..n]) + last));
    }
  }

  lemma {:induction false} NormalForm(system: Message, body: seq<Message>, turns: seq<Message>)
    requires system.role.System? && NoSystem(body) && NoSystem(turns)
    ensures var m := [system] + (body + turns);
      && |m| == 1 + |body| + |turns|
      && (forall i :: 0 <= i < |m| ==> (m[i].role.System? <==> i == 0))
      && (forall i :: 0 <= i < |body| ==> m[1 + i] == body[i])
  {
    assert NoSystem(body + turns);
  }

  /** A message as it was; a system message as a notice from the user, of its text alone if it has any. */
  predicate Carried(before: Message, after: Message) {
    if before.role != System then after == before
    else
      && after.role == User
      && match before.content
         case Text(text) => after.content == Text("[System notice] " + text)
         case Parts(Some(first), _) => after.content == Text("[System notice] " + first)
         case Parts(None, _) => after.content == before.content
  }

  /** So there is exactly one system message, first, and each firing is one more message. */
  lemma {:induction false} OneSystemMessage(kept: seq<Message>, firings: seq<Firing>)
    requires firings != []
    ensures var m, rest := FireAll(kept, firings), kept[Lead(kept)..];
      && |m| == 1 + |rest| + |firings|
      && (forall i :: 0 <= i < |m| ==> (m[i].role.System? <==> i == 0))
      && (forall i :: 0 <= i < |rest| ==> Carried(rest[i], m[1 + i]))
      && m[0] == Message(System, Text(firings[|firings| - 1].system))
      && m[1 + |rest|..] == TurnsOf(firings)
  {
    RepeatedFirings(kept, firings);
    NormalForm(Message(System, Text(firings[|firings| - 1].system)), Body(kept), TurnsOf(firings));
  }
}
