/**
  Waiting for an external agent while it keeps printing
  (crates/rustykrab-agent/src/external_worker.rs, `capture` and the wait loop
  of `execute`). Any number of readers (the source has two) take the instant
  of an output and then publish it, a timer wakes the loop, and the process
  may exit, each in steps of its own and in any order. So a reader that was
  slow to publish can replace a newer instant by its older one.
 */
module IdleWait {
  datatype Where =
    | Deciding                 // about to read the last output and set the timer
    | Waiting(deadline: nat)
    | Woken                    // the timer fired
    | Sampled(at: nat)         // the clock was read, the last output not yet
    | Exited
    | GaveUp(at: nat)

  /**
    `pending` are the instants readers took and have not published; `heard`
    every instant published, the start first; `latest` and `published` when an
    instant was last taken and last published; `unread` says one was published
    since the loop last looked.
   */
  datatype State = State(
    now: nat,
    pending: map<nat, nat>,
    heard: seq<nat>,
    latest: nat,
    published: nat,
    unread: bool,
    exited: bool,
    loop: Where)

  /** `Race` is the timer taken although output or an exit arrived after the loop had looked for them. */
  datatype Step = Tick(elapsed: nat) | Stamp(reader: nat) | Publish(reader: nat) | Exit | Loop | Race

  function Start(now: nat): State {
    State(now, map[], [now], now, now, false, false, Deciding)
  }

  function Last(s: State): nat
    requires s.heard != []
  {
    s.heard[|s.heard| - 1]
  }

  /** What the loop does next; a wait with nothing ready stays where it is. */
  function LoopStep(s: State, limit: nat): State
    requires s.heard != []
  {
    match s.loop
    case Deciding => s.(unread := false, loop := Waiting(Last(s) + limit))
    case Waiting(deadline) =>
      if s.exited then s.(loop := Exited)
      else if s.unread then s.(loop := Deciding)
      else if s.now >= deadline then s.(loop := Woken)
      else s
    case Woken => s.(loop := Sampled(s.now))
    case Sampled(at) => s.(loop := if at >= Last(s) + limit then GaveUp(at) else Deciding)
    case Exited => s
    case GaveUp(_) => s
  }

  /** A reader publishes what it took; once the loop gave up nobody looks any more. */
  function Published(s: State, reader: nat): State
    requires reader in s.pending
  {
    if s.loop.GaveUp? then s.(pending := s.pending - {reader})
    else
      s.(pending := s.pending - {reader}, heard := s.heard + [s.pending[reader]], published := s.now, unread := true)
  }

  function Next(s: State, step: Step, limit: nat): (s': State)
    requires s.heard != []
    ensures s'.heard != []
  {
    match step
    case Tick(elapsed) => s.(now := s.now + elapsed)
    case Stamp(reader) =>
      if reader in s.pending then s else s.(pending := s.pending[reader := s.now], latest := s.now)
    case Publish(reader) => if reader in s.pending then Published(s, reader) else s
    case Exit => s.(exited := true)
    case Loop => LoopStep(s, limit)
    case Race => if s.loop.Waiting? && s.now >= s.loop.deadline then s.(loop := Woken) else s
  }

  function Run(s: State, steps: seq<Step>, limit: nat): (s': State)
    requires s.heard != []
    ensures s'.heard != []
    decreases |steps|
  {
    if steps == [] then s else Run(Next(s, steps[0], limit), steps[1..], limit)
  }

  ghost predicate Invariant(s: State, limit: nat) {
    && s.heard != []
    && s.latest <= s.now && s.published <= s.now
    && (forall r :: r in s.pending ==> s.pending[r] <= s.now)
    && (s.loop.Waiting? && !s.unread ==> s.loop.deadline == Last(s) + limit)
    && (s.loop.Sampled? ==> s.loop.at <= s.now)
    && (s.loop.GaveUp? ==> Last(s) + limit <= s.loop.at <= s.now)
  }

  lemma {:induction false} RunKeeps(s: State, steps: seq<Step>, limit: nat)
    requires Invariant(s, limit)
    ensures Invariant(Run(s, steps, limit), limit)
    decreases |steps|
  {
    if steps != [] {
      NextKeeps(s, steps[0], limit);
      RunKeeps(Next(s, steps[0], limit), steps[1..], limit);
    }
  }

  lemma {:induction false} NextKeeps(s: State, step: Step, limit: nat)
    requires Invariant(s, limit)
    ensures Invariant(Next(s, step, limit), limit)
  {
  }

  /** The largest instant published is the last one published. */
  ghost predicate Fresh(s: State) {
    s.heard != [] && forall i :: 0 <= i < |s.heard| ==> s.heard[i] <= Last(s)
  }

  /**
    In every interleaving the loop gives up only `limit` after the instant
    published last; and after every instant published, if that is the largest.
   */
  lemma {:induction false} GivesUpOnlyOnSilence(start: nat, steps: seq<Step>, limit: nat)
    requires Run(Start(start), steps, limit).loop.GaveUp?
    ensures var s := Run(Start(start), steps, limit);
      && Last(s) + limit <= s.loop.at <= s.now
      && (Fresh(s) ==> forall i :: 0 <= i < |s.heard| ==> s.heard[i] + limit <= s.loop.at)
  {
    RunKeeps(Start(start), steps, limit);
  }

  // ── giving up too early ───────────────────────────────────────────────

  lemma {:induction false} First(s: State, step: Step, rest: seq<Step>, limit: nat)
    requires s.heard != []
    ensures Run(s, [step] + rest, limit) == Run(Next(s, step, limit), rest, limit)
  {
    assert ([step] + rest)[1..] == rest;
  }

  lemma {:induction false} FiveSteps(s: State, a: Step, b: Step, c: Step, d: Step, e: Step, limit: nat)
    requires s.heard != []
    ensures Run(s, [a, b, c, d, e], limit)
      == Next(Next(Next(Next(Next(s, a, limit), b, limit), c, limit), d, limit), e, limit)
  {
    assert [a] + ([b] + ([c] + ([d] + ([e] + [])))) == [a, b, c, d, e];
    var s1 := Next(s, a, limit);
    var s2 := Next(s1, b, limit);
    var s3 := Next(s2, c, limit);
    var s4 := Next(s3, d, limit);
    hide Next;
    First(s, a, [b] + ([c] + ([d] + ([e] + []))), limit);
    First(s1, b, [c] + ([d] + ([e] + [])), limit);
    First(s2, c, [d] + ([e] + []), limit);
    First(s3, d, [e] + [], limit);
    First(s4, e, [], limit);
  }

  const OVERTAKEN := [Stamp(0), Tick(1), Stamp(1), Publish(1), Publish(0)]

  /**
    A slow reader does break it: with a limit of 10, an instant taken at 5 is
    published after one taken at 6, and the loop gives up 9 after the latter.
   */
  lemma {:induction false} StaleInstantTimesOut()
    ensures var s := Run(Start(5), OVERTAKEN + [Tick(9), Loop, Loop, Loop, Loop], 10);
      s.loop == GaveUp(15) && s.heard == [5, 6, 5] && s.loop.at < s.heard[1] + 10
  {
    FiveSteps(Start(5), Stamp(0), Tick(1), Stamp(1), Publish(1), Publish(0), 10);
    assert Run(Start(5), OVERTAKEN, 10) == State(6, map[], [5, 6, 5], 6, 6, true, false, Deciding);
    hide Next, Run;
    RunOn(Start(5), OVERTAKEN, [Tick(9), Loop, Loop, Loop, Loop], 10);
    GivesUpLeftAlone(Run(Start(5), OVERTAKEN, 10), 9, 10);
  }

  /** Left alone until `limit` after the last instant published, the loop gives up then. */
  lemma {:induction false} GivesUpLeftAlone(s: State, wait: nat, limit: nat)
    requires s.heard != [] && s.loop == Deciding && !s.exited && s.now + wait >= Last(s) + limit
    ensures var s' := Run(s, [Tick(wait), Loop, Loop, Loop, Loop], limit);
      s'.loop == GaveUp(s.now + wait) && s'.heard == s.heard
  {
    FiveSteps(s, Tick(wait), Loop, Loop, Loop, Loop, limit);
  }

  lemma {:induction false} RunOn(s: State, a: seq<Step>, b: seq<Step>, limit: nat)
    requires s.heard != []
    ensures Run(s, a + b, limit) == Run(Run(s, a, limit), b, limit)
    decreases |a|
  {
    if a == [] {
      assert a + b == b;
    } else {
      assert (a + b)[0] == a[0] && (a + b)[1..] == a[1..] + b;
      RunOn(Next(s, a[0], limit), a[1..], b, limit);
    }
  }

  predicate PublishesNone(steps: seq<Step>) {
    forall i :: 0 <= i < |steps| ==> !steps[i].Publish?
  }

  /** The loop gave up although an instant published lies less than `limit` before. */
  ghost predicate TooEarly(s: State, limit: nat) {
    s.loop.GaveUp? && exists i :: 0 <= i < |s.heard| && s.loop.at < s.heard[i] + limit
  }

  lemma {:induction false} NothingPublished(s: State, steps: seq<Step>, limit: nat, since: nat)
    requires s.heard != [] && PublishesNone(steps) && since <= s.now
    requires s.loop.Sampled? || s.loop.GaveUp? ==> since <= s.loop.at
    ensures var s' := Run(s, steps, limit);
      s'.heard == s.heard && (s'.loop.GaveUp? ==> since <= s'.loop.at)
    decreases |steps|
  {
    if steps != [] { NothingPublished(Next(s, steps[0], limit), steps[1..], limit, since); }
  }

  /**
    Exactly when that can happen. From where the loop looks, some schedule
    without a further publication gives up too early if and only if an instant
    newer than the last one published was published and is not `limit` old yet.
   */
  lemma {:induction false} TooEarlyExactlyWhenStale(s: State, limit: nat)
    requires Invariant(s, limit) && s.loop == Deciding && !s.exited
    ensures (exists steps :: PublishesNone(steps) && TooEarly(Run(s, steps, limit), limit))
      <==> (exists i :: 0 <= i < |s.heard| && Last(s) < s.heard[i] && s.now < s.heard[i] + limit)
  {
    hide Next, Run;
    if i :| 0 <= i < |s.heard| && Last(s) < s.heard[i] && s.now < s.heard[i] + limit {
      var wait: nat := if s.now < Last(s) + limit then Last(s) + limit - s.now else 0;
      var steps := [Tick(wait), Loop, Loop, Loop, Loop];
      GivesUpLeftAlone(s, wait, limit);
      var s' := Run(s, steps, limit);
      assert PublishesNone(steps) && TooEarly(s', limit);
    }
    forall steps | PublishesNone(steps) && TooEarly(Run(s, steps, limit), limit)
      ensures exists i :: 0 <= i < |s.heard| && Last(s) < s.heard[i] && s.now < s.heard[i] + limit
    {
      NothingPublished(s, steps, limit, s.now);
      RunKeeps(s, steps, limit);
      var s' := Run(s, steps, limit);
      var i :| 0 <= i < |s'.heard| && s'.loop.at < s'.heard[i] + limit;
    }
  }

  // ── a process that keeps talking ──────────────────────────────────────

  /** Output was last taken less than `gap` ago, and no instant is pending longer than `delay`. */
  ghost predicate TalksNow(s: State, gap: nat, delay: nat) {
    s.now < s.latest + gap && forall r :: r in s.pending ==> s.now <= s.pending[r] + delay
  }

  /** That holds at every moment of the run. */
  ghost predicate Talks(s: State, steps: seq<Step>, gap: nat, delay: nat, limit: nat)
    requires s.heard != []
    decreases |steps|
  {
    TalksNow(s, gap, delay) && (steps != [] ==> Talks(Next(s, steps[0], limit), steps[1..], gap, delay, limit))
  }

  /** What was last published is at most `delay` old, and what was taken since is about to be. */
  ghost predicate KeptUp(s: State, gap: nat, delay: nat) {
    && s.heard != [] && s.published <= Last(s) + delay
    && (s.latest <= s.published || exists r :: r in s.pending && s.pending[r] < s.published + gap)
  }

  lemma {:induction false} StepKeepsUp(s: State, step: Step, gap: nat, delay: nat, limit: nat)
    requires Invariant(s, limit) && TalksNow(s, gap, delay) && KeptUp(s, gap, delay)
    requires gap + 2 * delay <= limit && !s.loop.GaveUp?
    ensures KeptUp(Next(s, step, limit), gap, delay) && !Next(s, step, limit).loop.GaveUp?
  {
    var s' := Next(s, step, limit);
    if s.latest > s.published {
      var r :| r in s.pending && s.pending[r] < s.published + gap;
      if step.Stamp? { assert r in s'.pending && s'.pending[r] == s.pending[r]; }
    } else if step.Stamp? && step.reader !in s.pending {
      assert s'.pending[step.reader] == s.now;
    }
    assert s.now < Last(s) + limit;
  }

  lemma {:induction false} TalkingRun(s: State, steps: seq<Step>, gap: nat, delay: nat, limit: nat)
    requires Invariant(s, limit) && KeptUp(s, gap, delay) && Talks(s, steps, gap, delay, limit)
    requires gap + 2 * delay <= limit && !s.loop.GaveUp?
    ensures !Run(s, steps, limit).loop.GaveUp?
    decreases |steps|
  {
    if steps != [] {
      NextKeeps(s, steps[0], limit);
      StepKeepsUp(s, steps[0], gap, delay, limit);
      TalkingRun(Next(s, steps[0], limit), steps[1..], gap, delay, limit);
    }
  }

  lemma {:induction false} TalksFirst(s: State, step: Step, rest: seq<Step>, gap: nat, delay: nat, limit: nat)
    requires s.heard != [] && TalksNow(s, gap, delay) && Talks(Next(s, step, limit), rest, gap, delay, limit)
    ensures Talks(s, [step] + rest, gap, delay, limit)
    ensures Run(s, [step] + rest, limit) == Run(Next(s, step, limit), rest, limit)
  {
    assert ([step] + rest)[1..] == rest;
  }

  lemma {:induction false} TalksOn(s: State, a: seq<Step>, b: seq<Step>, gap: nat, delay: nat, limit: nat)
    requires s.heard != [] && Talks(s, a, gap, delay, limit) && Talks(Run(s, a, limit), b, gap, delay, limit)
    ensures Talks(s, a + b, gap, delay, limit) && Run(s, a + b, limit) == Run(Run(s, a, limit), b, limit)
    decreases |a|
  {
    if a == [] {
      assert a + b == b;
    } else {
      assert (a + b)[0] == a[0] && (a + b)[1..] == a[1..] + b;
      TalksOn(Next(s, a[0], limit), a[1..], b, gap, delay, limit);
    }
  }

  lemma {:induction false} TalksTwice(s: State, a: Step, b: Step, gap: nat, delay: nat, limit: nat)
    requires s.heard != [] && TalksNow(s, gap, delay) && TalksNow(Next(s, a, limit), gap, delay)
    requires TalksNow(Next(Next(s, a, limit), b, limit), gap, delay)
    ensures Talks(s, [a, b], gap, delay, limit) && Run(s, [a, b], limit) == Next(Next(s, a, limit), b, limit)
  {
    hide Next, TalksNow;
    var s1 := Next(s, a, limit);
    var s2 := Next(s1, b, limit);
    assert [a, b] == [a] + ([b] + []);
    assert Talks(s2, [], gap, delay, limit);
    TalksFirst(s1, b, [], gap, delay, limit);
    TalksFirst(s, a, [b] + [], gap, delay, limit);
  }

  /** A reader holds an instant taken at 0, and another talks on for `n`. */
  lemma {:induction false} Chatter(s: State, n: nat, gap: nat, delay: nat, limit: nat) returns (steps: seq<Step>)
    requires gap >= 2 && s.heard != [] && s.pending == map[0 := 0] && s.latest == s.now && s.now + n <= delay
    requires s.loop == Deciding && !s.exited
    ensures Talks(s, steps, gap, delay, limit)
    ensures var s' := Run(s, steps, limit);
      && s'.now == s'.latest == s.now + n && s'.pending == s.pending && s'.loop == Deciding && !s'.exited
    decreases n
  {
    steps := [];
    if n > 0 {
      var s1 := Next(s, Tick(1), limit);
      var s2 := Next(s1, Stamp(1), limit);
      var s3 := Next(s2, Publish(1), limit);
      assert s3.pending == map[0 := 0];
      assert TalksNow(s, gap, delay) && TalksNow(s1, gap, delay);
      assert TalksNow(s2, gap, delay) && TalksNow(s3, gap, delay);
      steps := Chatter(s3, n - 1, gap, delay, limit);
      hide Next, TalksNow, Talks;
      TalksFirst(s2, Publish(1), steps, gap, delay, limit);
      steps := [Publish(1)] + steps;
      TalksFirst(s1, Stamp(1), steps, gap, delay, limit);
      steps := [Stamp(1)] + steps;
      TalksFirst(s, Tick(1), steps, gap, delay, limit);
      steps := [Tick(1)] + steps;
    }
  }

  /** Ever more readers take instants and none publishes for `n`. */
  lemma {:induction false} Piling(s: State, n: nat, r: nat, gap: nat, delay: nat, limit: nat) returns (steps: seq<Step>)
    requires gap >= 2 && s.heard != [] && s.latest == s.now && n <= delay
    requires forall q :: q in s.pending ==> q < r && s.now + n <= s.pending[q] + delay
    ensures Talks(s, steps, gap, delay, limit)
    ensures var s' := Run(s, steps, limit);
      && s'.now == s'.latest == s.now + n && s'.heard == s.heard && s'.loop == s.loop
      && s'.unread == s.unread && s'.exited == s.exited
      && forall q :: q in s'.pending ==> s'.now <= s'.pending[q] + delay
    decreases n
  {
    steps := [];
    if n > 0 {
      var s1 := Next(s, Tick(1), limit);
      var s2 := Next(s1, Stamp(r), limit);
      assert TalksNow(s, gap, delay) && TalksNow(s1, gap, delay) && TalksNow(s2, gap, delay);
      TalksTwice(s, Tick(1), Stamp(r), gap, delay, limit);
      steps := Piling(s2, n - 1, r + 1, gap, delay, limit);
      hide Next, TalksNow, Talks, Run;
      TalksOn(s, [Tick(1), Stamp(r)], steps, gap, delay, limit);
      steps := [Tick(1), Stamp(r)] + steps;
    }
  }

  /** The instant taken at 0 replaces newer ones, and the next to be taken takes its time too. */
  lemma {:induction false} SlowReadersTimeOut(gap: nat, delay: nat, limit: nat)
    requires gap >= 2 && gap + 2 * delay > limit
    ensures exists steps :: Talks(Start(0), steps, gap, delay, limit) && Run(Start(0), steps, limit).loop.GaveUp?
  {
    var s0 := Start(0);
    var s1 := Next(s0, Stamp(0), limit);
    assert TalksNow(s0, gap, delay) && s1.pending == map[0 := 0];
    var chat := Chatter(s1, delay, gap, delay, limit);
    var s2 := Run(s1, chat, limit);
    var rest := LateGiveUp(s2, gap, delay, limit);
    hide Next, TalksNow, Talks, Run;
    TalksOn(s1, chat, rest, gap, delay, limit);
    TalksFirst(s0, Stamp(0), chat + rest, gap, delay, limit);
  }

  lemma {:induction false} LateGiveUp(s: State, gap: nat, delay: nat, limit: nat) returns (steps: seq<Step>)
    requires gap >= 2 && gap + 2 * delay > limit
    requires s.heard != [] && s.pending == map[0 := 0] && s.now == s.latest == delay && s.loop == Deciding && !s.exited
    ensures Talks(s, steps, gap, delay, limit) && Run(s, steps, limit).loop.GaveUp?
  {
    var s1 := Next(s, Publish(0), limit);
    var s2 := Next(s1, Loop, limit);
    assert s1.pending == map[] && Last(s1) == 0 && s2.loop == Waiting(limit);
    TalksTwice(s, Publish(0), Loop, gap, delay, limit);
    var s3 := Next(s2, Tick(gap - 1), limit);
    var s4 := Next(s3, Stamp(0), limit);
    TalksTwice(s2, Tick(gap - 1), Stamp(0), gap, delay, limit);
    assert s4.pending == map[0 := s4.now] && s4.now == gap - 1 + delay;
    var pile := Piling(s4, delay, 1, gap, delay, limit);
    var s5 := Run(s4, pile, limit);
    var last := WakesUp(s5, gap, delay, limit);
    hide Next, TalksNow, Talks, Run;
    TalksOn(s4, pile, last, gap, delay, limit);
    TalksOn(s2, [Tick(gap - 1), Stamp(0)], pile + last, gap, delay, limit);
    steps := [Tick(gap - 1), Stamp(0)] + (pile + last);
    TalksOn(s, [Publish(0), Loop], steps, gap, delay, limit);
    steps := [Publish(0), Loop] + steps;
  }

  lemma {:induction false} WakesUp(s: State, gap: nat, delay: nat, limit: nat) returns (steps: seq<Step>)
    requires s.heard != [] && TalksNow(s, gap, delay) && !s.exited && !s.unread
    requires s.loop.Waiting? && s.now >= s.loop.deadline && s.now >= Last(s) + limit
    ensures Talks(s, steps, gap, delay, limit) && Run(s, steps, limit).loop.GaveUp?
  {
    var s1 := Next(s, Loop, limit);
    var s2 := Next(s1, Loop, limit);
    var s3 := Next(s2, Loop, limit);
    assert s3.loop == GaveUp(s.now);
    assert Talks(s3, [], gap, delay, limit);
    hide Next, Talks;
    TalksFirst(s2, Loop, [], gap, delay, limit);
    TalksFirst(s1, Loop, [Loop] + [], gap, delay, limit);
    TalksFirst(s, Loop, [Loop] + ([Loop] + []), gap, delay, limit);
    steps := [Loop] + ([Loop] + ([Loop] + []));
  }

  // With silences below one unit no time passes at all.

  ghost predicate Frozen(s: State) {
    s.heard != [] && s.now == s.latest == Last(s) && forall r :: r in s.pending ==> s.pending[r] == s.now
  }

  lemma {:induction false} FrozenRun(s: State, steps: seq<Step>, delay: nat, limit: nat)
    requires Invariant(s, limit) && Frozen(s) && Talks(s, steps, 1, delay, limit) && limit >= 1 && !s.loop.GaveUp?
    ensures !Run(s, steps, limit).loop.GaveUp?
    decreases |steps|
  {
    if steps != [] {
      NextKeeps(s, steps[0], limit);
      FrozenStep(s, steps[0], delay, limit);
      FrozenRun(Next(s, steps[0], limit), steps[1..], delay, limit);
    }
  }

  lemma {:induction false} FrozenStep(s: State, step: Step, delay: nat, limit: nat)
    requires Invariant(s, limit) && Frozen(s) && limit >= 1 && !s.loop.GaveUp?
    requires TalksNow(Next(s, step, limit), 1, delay)
    ensures Frozen(Next(s, step, limit)) && !Next(s, step, limit).loop.GaveUp?
  {
  }

  lemma {:induction false} NoLimitTimesOut(delay: nat)
    ensures exists steps :: Talks(Start(0), steps, 1, delay, 0) && Run(Start(0), steps, 0).loop.GaveUp?
  {
    var s := Next(Start(0), Loop, 0);
    var steps := WakesUp(s, 1, delay, 0);
    TalksFirst(Start(0), Loop, steps, 1, delay, 0);
  }

  /** The condition under which a talking process is safe. */
  predicate Covers(gap: nat, delay: nat, limit: nat) {
    if gap == 0 then true else if gap == 1 then limit >= 1 else gap + 2 * delay <= limit
  }

  /**
    A process whose silences stay below `gap`, with readers that take at most
    `delay` to publish, is never timed out, however long it runs, if and only
    if `limit` covers the gap and the delay twice: once for an instant that
    replaces a newer one, once for the next instant on its way. (Silences
    below one unit leave no time to pass, and below none no run.)
   */
  lemma {:induction false} NeverTimedOutExactlyWhen(gap: nat, delay: nat, limit: nat)
    ensures (forall start: nat, steps :: Talks(Start(start), steps, gap, delay, limit)
               ==> !Run(Start(start), steps, limit).loop.GaveUp?)
      <==> Covers(gap, delay, limit)
  {
    if Covers(gap, delay, limit) {
      forall start: nat, steps | Talks(Start(start), steps, gap, delay, limit)
        ensures !Run(Start(start), steps, limit).loop.GaveUp?
      {
        if gap == 1 {
          FrozenRun(Start(start), steps, delay, limit);
        } else {
          assert TalksNow(Start(start), gap, delay);
          TalkingRun(Start(start), steps, gap, delay, limit);
        }
      }
    } else if gap == 1 {
      NoLimitTimesOut(delay);
    } else {
      SlowReadersTimeOut(gap, delay, limit);
    }
  }

  /** The sufficient half, of one run. */
  lemma {:induction false} TalkerIsNeverTimedOut(start: nat, steps: seq<Step>, gap: nat, delay: nat, limit: nat)
    requires Talks(Start(start), steps, gap, delay, limit) && gap + 2 * delay <= limit
    ensures !Run(Start(start), steps, limit).loop.GaveUp?
  {
    TalkingRun(Start(start), steps, gap, delay, limit);
  }

  // ── a silent process ──────────────────────────────────────────────────

  /** No output, no exit. */
  predicate Quiet(steps: seq<Step>) {
    forall i :: 0 <= i < |steps| ==> steps[i].Tick? || steps[i].Loop? || steps[i].Race?
  }

  function Loops(steps: seq<Step>): nat {
    if steps == [] then 0 else (if steps[0].Loop? then 1 else 0) + Loops(steps[1..])
  }

  /** How many steps of its own the loop is from giving up on a process silent for `limit`. */
  function StepsLeft(s: State, limit: nat): nat
    requires s.heard != []
  {
    match s.loop
    case Deciding => 4
    case Waiting(_) => if s.unread then 5 else 3
    case Woken => 2
    case Sampled(at) => if at >= Last(s) + limit then 1 else 5
    case Exited => 0
    case GaveUp(_) => 0
  }

  /**
    A process silent for `limit` is given up: wherever the loop stands, in
    every schedule without output or exit, by its fifth step from then.
   */
  lemma {:induction false} SilenceEndsTheWait(s: State, steps: seq<Step>, limit: nat)
    requires Invariant(s, limit) && !s.exited && !s.loop.Exited? && s.now >= Last(s) + limit
    requires Quiet(steps) && Loops(steps) >= StepsLeft(s, limit)
    ensures StepsLeft(s, limit) <= 5 && Run(s, steps, limit).loop.GaveUp?
    decreases |steps|
  {
    if steps != [] {
      NextKeeps(s, steps[0], limit);
      assert steps[0].Tick? || steps[0].Loop? || steps[0].Race?;
      SilenceEndsTheWait(Next(s, steps[0], limit), steps[1..], limit);
    }
  }
}
