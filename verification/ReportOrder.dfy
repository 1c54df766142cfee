/** The order a run's reports are kept in, against the order they were accepted in. */
module ReportOrder {
  import opened Attestation
  import opened ReportRuns

  predicate WasAccepted(s: System, c: nat) {
    c in s.calls && (s.calls[c].Accepted? || s.calls[c].Kept?)
  }

  /** The reports are kept in the order they were accepted. */
  ghost predicate InOrder(s: System) {
    forall i, j :: 0 <= i < j < |s.pushed| && WasAccepted(s, s.pushed[i]) && WasAccepted(s, s.pushed[j])
      ==> s.calls[s.pushed[i]].acceptedAt < s.calls[s.pushed[j]].acceptedAt
  }

  /** An accepted report still waits to be pushed while a later accepted one waits or is kept. */
  predicate Overtaken(s: System, a: nat, b: nat) {
    WasAccepted(s, a) && s.calls[a].Accepted? && WasAccepted(s, b) && a != b
    && s.calls[a].acceptedAt <= s.calls[b].acceptedAt
  }

  ghost predicate Orderly(s: System) {
    forall a, b :: !Overtaken(s, a, b)
  }

  predicate Pushes(steps: seq<Step>) {
    forall i :: 0 <= i < |steps| ==> steps[i].Push?
  }

  lemma {:induction false} PushKeepsOrder(t: Terms, steps: seq<Step>, s: System, c: nat)
    requires Invariant(t, steps, s) && InOrder(s) && Orderly(s)
    ensures InOrder(Next(t, s, Push(c))) && Orderly(Next(t, s, Push(c)))
  {
    hide Traced;
    var s' := Next(t, s, Push(c));
    if c in s.calls && s.calls[c].Accepted? {
      forall b | WasAccepted(s, b) && b != c
        ensures s.calls[b].acceptedAt < s.calls[c].acceptedAt
      {
        assert !Overtaken(s, c, b);
      }
      forall a, b
        ensures !Overtaken(s', a, b)
      {
        assert !Overtaken(s, a, b);
      }
    } else {
      forall a, b
        ensures !Overtaken(s', a, b)
      {
        assert !Overtaken(s, a, b);
      }
    }
  }

  lemma {:induction false} PushesKeepOrder(t: Terms, steps: seq<Step>, more: seq<Step>)
    requires InOrder(Reached(t, steps)) && Orderly(Reached(t, steps)) && Pushes(more)
    ensures InOrder(Reached(t, steps + more)) && Orderly(Reached(t, steps + more))
    decreases |more|
  {
    if more == [] {
      assert steps + more == steps;
    } else {
      var n := |more| - 1;
      PushesKeepOrder(t, steps, more[..n]);
      var before := steps + more[..n];
      assert before + [more[n]] == steps + more;
      RunKeeps(t, before);
      ReachedOn(t, before, more[n]);
      hide Reached, InOrder, Orderly, Next, Invariant;
      PushKeepsOrder(t, before, Reached(t, before), more[n].call);
    }
  }

  /** Pushing a waiting report after a later accepted one puts them out of order. */
  lemma {:induction false} LatePush(t: Terms, steps: seq<Step>, a: nat, b: nat)
    requires var s := Reached(t, steps);
      Overtaken(s, a, b) && s.calls[b].Kept? && b in s.pushed
    ensures !InOrder(Reached(t, steps + [Push(a)]))
  {
    var s := Reached(t, steps);
    ReachedOn(t, steps, Push(a));
    var s' := Reached(t, steps + [Push(a)]);
    var i :| 0 <= i < |s.pushed| && s.pushed[i] == b;
    var j := |s.pushed|;
    assert s'.pushed[i] == b && s'.pushed[j] == a;
    assert WasAccepted(s', s'.pushed[i]) && WasAccepted(s', s'.pushed[j]);
  }

  /**
    Exactly when the order is safe: where the kept reports are in acceptance
    order, every way to push the accepted ones leaves them so if and only if
    none of these waits behind a later accepted report that waits too or is
    kept already; so at most one waits, and it was accepted last.
   */
  lemma {:induction false} OrderExactlyWhen(t: Terms, steps: seq<Step>)
    requires InOrder(Reached(t, steps))
    ensures (forall more :: Pushes(more) ==> InOrder(Reached(t, steps + more))) <==> Orderly(Reached(t, steps))
  {
    hide Reached, InOrder, Next;
    if Orderly(Reached(t, steps)) {
      hide Orderly;
      forall more | Pushes(more)
        ensures InOrder(Reached(t, steps + more))
      {
        PushesKeepOrder(t, steps, more);
      }
    } else {
      var a, b :| Overtaken(Reached(t, steps), a, b);
      var more := Disordered(t, steps, a, b);
    }
  }

  lemma {:induction false} LaterPushedFirst(t: Terms, s: System, a: nat, b: nat)
    requires Overtaken(s, a, b) && s.calls[b].Accepted?
    ensures var s' := Next(t, s, Push(b));
      Overtaken(s', a, b) && s'.calls[b].Kept? && b in s'.pushed
  {
  }

  lemma {:induction false} Disordered(t: Terms, steps: seq<Step>, a: nat, b: nat) returns (more: seq<Step>)
    requires Overtaken(Reached(t, steps), a, b)
    ensures Pushes(more) && !InOrder(Reached(t, steps + more))
  {
    hide Reached, InOrder, Next;
    if Reached(t, steps).calls[b].Kept? {
      KeptIsPushed(t, steps, b);
      LatePush(t, steps, a, b);
      more := [Push(a)];
    } else {
      LaterPushedFirst(t, Reached(t, steps), a, b);
      ReachedOn(t, steps, Push(b));
      LatePush(t, steps + [Push(b)], a, b);
      assert steps + [Push(b)] + [Push(a)] == steps + [Push(b), Push(a)];
      more := [Push(b), Push(a)];
    }
  }

  lemma {:induction false} KeptIsPushed(t: Terms, steps: seq<Step>, c: nat)
    requires c in Reached(t, steps).calls && Reached(t, steps).calls[c].Kept?
    ensures c in Reached(t, steps).pushed
  {
    RunKeeps(t, steps);
  }

  /** Two batched reports can indeed be kept against the order they were accepted in. */
  lemma {:induction false} BatchedReportsSwap()
    ensures var t, report := Host(false, Verbatim), Report([], [], false);
      var accepted := [Draft(0, report), Draft(1, report), Accept(0), Accept(1)];
      && InOrder(Reached(t, accepted)) && !Orderly(Reached(t, accepted))
      && Reached(t, accepted + [Push(1), Push(0)]).pushed == [1, 0]
      && !InOrder(Reached(t, accepted + [Push(1), Push(0)]))
  {
    var t, report := Host(false, Verbatim), Report([], [], false);
    var accepted := [Draft(0, report), Draft(1, report), Accept(0), Accept(1)];
    var s := BothAccepted();
    assert Overtaken(s, 0, 1);
    ReachedOn(t, accepted, Push(1));
    ReachedOn(t, accepted + [Push(1)], Push(0));
    assert accepted + [Push(1)] + [Push(0)] == accepted + [Push(1), Push(0)];
    hide Reached;
    var s' := Reached(t, accepted + [Push(1), Push(0)]);
    assert s'.pushed == [1, 0] && WasAccepted(s', s'.pushed[0]) && WasAccepted(s', s'.pushed[1]);
  }

  lemma {:induction false} BothAccepted() returns (s: System)
    ensures var t, report := Host(false, Verbatim), Report([], [], false);
      && s == Reached(t, [Draft(0, report), Draft(1, report), Accept(0), Accept(1)])
      && s.pushed == [] && s.calls == map[0 := Accepted(report, report, 0, 2), 1 := Accepted(report, report, 1, 3)]
  {
    var t, report := Host(false, Verbatim), Report([], [], false);
    FourSteps(t, Draft(0, report), Draft(1, report), Accept(0), Accept(1));
    DraftedFirst([]);
    hide Drafted, Reached;
    var s2 := Next(t, Next(t, START, Draft(0, report)), Draft(1, report));
    assert s2.calls == map[0 := Held(report, report, 0), 1 := Held(report, report, 1)];
    s := Next(t, Next(t, s2, Accept(0)), Accept(1));
  }
}
