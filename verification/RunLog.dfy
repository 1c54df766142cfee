/**
  A local run's session log (crates/rustykrab-agent/src/local_worker.rs): kept
  message by message as the run goes, whatever compaction does to the
  conversation meanwhile, and whatever writes fail: the source logs a failed
  one and goes on.
 */
module RunLogs {
  import opened Common

  datatype Message = Message(id: string, body: string)

  /** The messages offered, each id once, as it was first seen. */
  function FirstSeen(offered: seq<Message>): seq<Message> {
    if offered == [] then []
    else
      var n := |offered| - 1;
      var kept := FirstSeen(offered[..n]);
      if Holds(kept, offered[n].id) then kept else kept + [offered[n]]
  }

  predicate Holds(messages: seq<Message>, id: string) {
    exists i :: 0 <= i < |messages| && messages[i].id == id
  }

  /** `m` is the first offered message of its id. */
  predicate FirstAt(offered: seq<Message>, i: nat)
    requires i < |offered|
  {
    forall j :: 0 <= j < i ==> offered[j].id != offered[i].id
  }

  /** The offers that are kept, as positions. */
  function Positions(offered: seq<Message>): (ps: seq<nat>)
    ensures forall k :: 0 <= k < |ps| ==> ps[k] < |offered|
  {
    if offered == [] then []
    else
      var n := |offered| - 1;
      Positions(offered[..n]) + (if FirstAt(offered, n) then [n] else [])
  }

  lemma {:induction false} KeptIds(offered: seq<Message>, id: string)
    ensures Holds(FirstSeen(offered), id) <==> Holds(offered, id)
  {
    if offered != [] {
      var n := |offered| - 1;
      var front, m := offered[..n], offered[n];
      KeptIds(front, id);
      HoldsOneMore(front, m, id);
      HoldsOneMore(FirstSeen(front), m, id);
      assert front + [m] == offered;
      hide Holds;
    }
  }

  lemma {:induction false} KeptPositions(offered: seq<Message>)
    ensures |Positions(offered)| == |FirstSeen(offered)|
    ensures forall k :: 0 <= k < |FirstSeen(offered)| ==> FirstSeen(offered)[k] == offered[Positions(offered)[k]]
  {
    if offered != [] {
      var n := |offered| - 1;
      KeptPositions(offered[..n]);
      assert FirstAt(offered, n) <==> !Holds(offered[..n], offered[n].id) by {
        assert forall j :: 0 <= j < n ==> offered[..n][j] == offered[j];
      }
      KeptIds(offered[..n], offered[n].id);
      hide Holds, FirstAt;
    }
  }

  lemma HoldsOneMore(messages: seq<Message>, m: Message, id: string)
    ensures Holds(messages + [m], id) <==> Holds(messages, id) || m.id == id
  {
    var more := messages + [m];
    assert more[|messages|] == m;
    assert forall i :: 0 <= i < |messages| ==> more[i] == messages[i];
  }

  /**
    What the log is: the offers that were the first of their id, in the order
    they came, every id that was ever offered and each once.
   */
  lemma {:induction false} FirstSeenIsHistory(offered: seq<Message>)
    ensures forall i, j :: 0 <= i < j < |FirstSeen(offered)| ==> FirstSeen(offered)[i].id != FirstSeen(offered)[j].id
    ensures forall i :: 0 <= i < |offered| ==> (i in Positions(offered) <==> FirstAt(offered, i))
    ensures forall k, l :: 0 <= k < l < |Positions(offered)| ==> Positions(offered)[k] < Positions(offered)[l]
    ensures |Positions(offered)| == |FirstSeen(offered)|
    ensures forall k :: 0 <= k < |FirstSeen(offered)| ==> FirstSeen(offered)[k] == offered[Positions(offered)[k]]
    ensures forall id :: Holds(FirstSeen(offered), id) <==> Holds(offered, id)
  {
    KeptPositions(offered);
    forall id
      ensures Holds(FirstSeen(offered), id) <==> Holds(offered, id)
    {
      KeptIds(offered, id);
    }
    hide Holds;
    PositionsAreFirst(offered);
    var ps := Positions(offered);
    assert forall k :: 0 <= k < |ps| ==> ps[k] in ps && FirstAt(offered, ps[k]);
  }

  lemma {:induction false} PositionsAreFirst(offered: seq<Message>)
    ensures forall i :: 0 <= i < |offered| ==> (i in Positions(offered) <==> FirstAt(offered, i))
    ensures forall k, l :: 0 <= k < l < |Positions(offered)| ==> Positions(offered)[k] < Positions(offered)[l]
  {
    if offered != [] {
      var n := |offered| - 1;
      PositionsAreFirst(offered[..n]);
      forall i | 0 <= i < n
        ensures i in Positions(offered) <==> FirstAt(offered, i)
      {
        assert FirstAt(offered, i) <==> FirstAt(offered[..n], i);
      }
    }
  }

  /** One more offer. */
  lemma {:induction false} FirstSeenGrows(offered: seq<Message>, m: Message)
    ensures FirstSeen(offered + [m])
      == if Holds(FirstSeen(offered), m.id) then FirstSeen(offered) else FirstSeen(offered) + [m]
  {
    assert (offered + [m])[..|offered|] == offered;
  }

  /** A file: the marker line with its message count, then one line a message. */
  datatype File = File(count: nat, body: seq<Message>)

  class RunLog {
    var messages: seq<Message>
    var file: File
    /** Every message the run ever held, in the order the log was shown it. */
    ghost var offered: seq<Message>
    /** No write has failed since the file was last written whole. */
    ghost var intact: bool

    ghost predicate Valid()
      reads this
    {
      messages == FirstSeen(offered) && (intact ==> file.body == messages && file.count <= |messages|)
    }

    /**
      `start_log`: the conversation as it stands, written before the first
      model call. A failed write, here and below, leaves `broken` in the file,
      whatever that is.
     */
    constructor (conversation: seq<Message>, broken: Option<File>)
      ensures Valid() && offered == conversation
      ensures intact == broken.None? && (intact ==> file.count == |messages|)
    {
      messages := [];
      file := File(0, []);
      offered, intact := [], true;
      new;
      Keep(conversation);
      Rewrite(broken);
    }

    method Note(m: Message) returns (isNew: bool)
      requires messages == FirstSeen(offered)
      modifies this`messages, this`offered
      ensures offered == old(offered) + [m] && messages == FirstSeen(offered)
      ensures isNew <==> !Holds(old(messages), m.id)
      ensures messages == if isNew then old(messages) + [m] else old(messages)
    {
      FirstSeenGrows(offered, m);
      hide FirstSeen;
      offered := offered + [m];
      for i := 0 to |messages|
        invariant forall j :: 0 <= j < i ==> messages[j].id != m.id
      {
        if messages[i].id == m.id { return false; }
      }
      messages := messages + [m];
      return true;
    }

    /** A message the runner added: kept, and appended to the file. */
    method Record(m: Message, broken: Option<File>)
      requires Valid()
      modifies this
      ensures Valid() && offered == old(offered) + [m]
      ensures intact == (old(intact) && (broken.None? || Holds(old(messages), m.id)))
      ensures intact ==> file.count == old(file.count)
    {
      var isNew := Note(m);
      if isNew {
        if broken.Some? {
          file, intact := broken.value, false;
        } else {
          file := File(file.count, file.body + [m]);
        }
      }
    }

    /** The run ended: anything of `conversation` not seen yet, then the whole file with its count. */
    method Finish(conversation: seq<Message>, broken: Option<File>)
      requires Valid()
      modifies this
      ensures Valid() && offered == old(offered) + conversation
      ensures intact == broken.None? && (intact ==> file.count == |messages|)
    {
      Keep(conversation);
      Rewrite(broken);
    }

    method Keep(conversation: seq<Message>)
      requires messages == FirstSeen(offered)
      modifies this`messages, this`offered
      ensures offered == old(offered) + conversation && messages == FirstSeen(offered)
    {
      hide FirstSeen;
      for n := 0 to |conversation|
        invariant offered == old(offered) + conversation[..n] && messages == FirstSeen(offered)
      {
        var _ := Note(conversation[n]);
        assert conversation[..n + 1] == conversation[..n] + [conversation[n]];
      }
      assert conversation[..|conversation|] == conversation;
    }

    method Rewrite(broken: Option<File>)
      modifies this`file, this`intact
      ensures intact == broken.None? && file == if intact then File(|messages|, messages) else broken.value
    {
      intact := broken.None?;
      file := if broken.None? then File(|messages|, messages) else broken.value;
    }
  }
}
