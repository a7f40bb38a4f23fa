/** The rounds of the client threads: how many a thread makes in a run of the whole system, and what
    a thread's rounds make of the daemon. */
module ClientRounds {
  import opened SecureElement
  import opened PowerManager
  import opened PowerRuns
  import opened PowerReplies
  import opened Clients

  // ---------- rounds in a run of the system ----------

  /** One if the action is a step of thread `t` in `phase`. */
  function StepIn(sys: System, a: Action, t: nat, phase: Phase): nat
    requires Enabled(sys, a)
  {
    if a.Advance? && a.t == t && sys.threads[t].phase == phase then 1 else 0
  }

  /** One if the action is a powerOn of thread `t` that is refused. */
  function Refusal(sys: System, a: Action, t: nat): nat
    requires Enabled(sys, a)
  {
    if a.Advance? && a.t == t && sys.threads[t].phase == Calling
       && Step(sys.daemon, PowerOn(sys.threads[t].caller, a.o)).1 < 0 then 1 else 0
  }

  /** Steps that thread `t` took in `phase`. */
  function StepsIn(sys: System, run: seq<Action>, t: nat, phase: Phase): nat
    requires Legal(sys, run)
    decreases |run|
  {
    if run == [] then 0
    else StepsIn(sys, run[..|run| - 1], t, phase) + StepIn(After(sys, run[..|run| - 1]), run[|run| - 1], t, phase)
  }

  /** Rounds of thread `t` whose powerOn was refused. */
  function Refused(sys: System, run: seq<Action>, t: nat): nat
    requires Legal(sys, run)
    decreases |run|
  {
    if run == [] then 0
    else Refused(sys, run[..|run| - 1], t) + Refusal(After(sys, run[..|run| - 1]), run[|run| - 1], t)
  }

  predicate InRound(phase: Phase) {
    phase == Using || phase == Releasing || phase == Counting
  }

  /** How often a thread was at the loop head, called powerOn, was refused, used the chip, called
      powerOff and counted down. */
  datatype Book = Book(heads: nat, calls: nat, refused: nat, uses: nat, releases: nat, counts: nat)

  ghost function BookOf(sys: System, run: seq<Action>, t: nat): Book
    requires Legal(sys, run)
  {
    Book(StepsIn(sys, run, t, LoopHead), StepsIn(sys, run, t, Calling), Refused(sys, run, t),
         StepsIn(sys, run, t, Using), StepsIn(sys, run, t, Releasing), StepsIn(sys, run, t, Counting))
  }

  /** The book of a thread that started with `n` rounds to make and is now `th`. Its powerOns and what
      `remaining` still shows make up `n`; every powerOn that was granted is followed by one use and
      one powerOff, every round by one decrement, and every round begins at the loop head. */
  predicate Balanced(b: Book, th: Thread, n: nat) {
    && b.calls + th.remaining == n + (if InRound(th.phase) then 1 else 0)
    && b.calls == b.refused + b.uses + (if th.phase == Using then 1 else 0)
    && b.uses == b.releases + (if th.phase == Releasing then 1 else 0)
    && b.calls == b.counts + (if InRound(th.phase) then 1 else 0)
    && b.heads == b.calls + (if th.phase == Calling || th.phase == Finished then 1 else 0)
  }

  /** What one action adds to the book of thread `t`. */
  ghost function BookAfter(b: Book, sys: System, a: Action, t: nat): Book
    requires Enabled(sys, a)
  {
    Book(b.heads + StepIn(sys, a, t, LoopHead), b.calls + StepIn(sys, a, t, Calling), b.refused + Refusal(sys, a, t),
         b.uses + StepIn(sys, a, t, Using), b.releases + StepIn(sys, a, t, Releasing),
         b.counts + StepIn(sys, a, t, Counting))
  }

  lemma StepKeepsBalance(b: Book, sys: System, a: Action, t: nat, n: nat)
    requires Enabled(sys, a) && t < |sys.threads| && ThreadInv(sys.threads[t])
    requires Balanced(b, sys.threads[t], n)
    ensures Balanced(BookAfter(b, sys, a, t), Next(sys, a).threads[t], n)
  {
  }

  /** A thread leaves its loop for two reasons only. */
  ghost predicate LeftForAReason(sys: System, t: nat)
    requires t < |sys.threads|
  {
    sys.threads[t].phase == Finished ==> sys.threads[t].remaining == 0 || sys.threads[t].caller.pid in sys.quit
  }

  lemma StepKeepsReason(sys: System, a: Action, t: nat)
    requires Enabled(sys, a) && t < |sys.threads| && LeftForAReason(sys, t)
    ensures LeftForAReason(Next(sys, a), t)
  {
  }

  /** The book covers all steps of the thread. */
  predicate Covers(b: Book, steps: nat) {
    steps == b.heads + b.calls + b.uses + b.releases + b.counts
  }

  lemma StepIsCovered(b: Book, steps: nat, sys: System, a: Action, t: nat)
    requires Enabled(sys, a) && t < |sys.threads| && Covers(b, steps)
    ensures Covers(BookAfter(b, sys, a, t), steps + if a.Advance? && a.t == t then 1 else 0)
  {
  }

  lemma {:induction false} BooksAreKept(sys: System, run: seq<Action>, t: nat)
    requires Fresh(sys) && Legal(sys, run) && t < |sys.threads|
    ensures var now := After(sys, run);
            && t < |now.threads| && LeftForAReason(now, t)
            && Balanced(BookOf(sys, run, t), now.threads[t], sys.threads[t].remaining)
            && Covers(BookOf(sys, run, t), StepsOf(run, t))
    decreases |run|
  {
    if run != [] {
      var init, a := run[..|run| - 1], run[|run| - 1];
      var before, book := After(sys, init), BookOf(sys, init, t);
      BooksAreKept(sys, init, t);
      RunKeepsSysInv(sys, init);
      assert ThreadInv(before.threads[t]);
      StepKeepsBalance(book, before, a, t, sys.threads[t].remaining);
      StepKeepsReason(before, a, t);
      StepIsCovered(book, StepsOf(init, t), before, a, t);
      assert BookOf(sys, run, t) == BookAfter(book, before, a, t);
    }
  }

  /** Whenever a thread is at its loop head, or has left the loop, the powerOns it has made and the
      rounds it has not made yet are the count it started with. */
  lemma {:induction false} RoundsAddUp(sys: System, run: seq<Action>, now: System, t: nat, b: Book)
    requires Fresh(sys) && Legal(sys, run) && now == After(sys, run)
    requires t < |sys.threads| && b == BookOf(sys, run, t)
    ensures t < |now.threads| && AddsUp(b, now.threads[t], sys.threads[t].remaining)
  {
    BooksAreKept(sys, run, t);
    BetweenRounds(b, now.threads[t], sys.threads[t].remaining);
  }

  predicate AddsUp(b: Book, th: Thread, n: nat) {
    th.phase == LoopHead || th.phase == Finished ==> b.calls + th.remaining == n
  }

  lemma BetweenRounds(b: Book, th: Thread, n: nat)
    requires Balanced(b, th, n)
    ensures AddsUp(b, th, n)
    ensures th.phase == Finished ==> b.uses == b.releases == b.calls - b.refused && b.counts == b.calls == b.heads - 1
  {
  }

  /** A thread that has left its loop without being told to quit has made all its rounds: as many
      powerOns as its count says, a use and a powerOff for each that was granted, and so five steps
      a round, two less for a refused one, and one to leave. */
  lemma {:induction false} FinishedMeansAllRounds(sys: System, run: seq<Action>, now: System, t: nat, b: Book)
    requires Fresh(sys) && Legal(sys, run) && now == After(sys, run)
    requires t < |sys.threads| && b == BookOf(sys, run, t) && t < |now.threads|
    requires now.threads[t].phase == Finished && now.threads[t].caller.pid !in now.quit
    ensures var n := sys.threads[t].remaining;
            && b.calls == n
            && b.uses == b.releases == n - b.refused
            && StepsOf(run, t) == 5 * n - 2 * b.refused + 1
  {
    BooksAreKept(sys, run, t);
    BetweenRounds(b, now.threads[t], sys.threads[t].remaining);
  }

  // ---------- rounds of one thread as it is written ----------

  /** The outcomes of the powerOns among some events, and those of the powerOffs. */
  function PowerOns(es: seq<Event>): seq<Outcome>
    decreases |es|
  {
    if es == [] then []
    else PowerOns(es[..|es| - 1]) + if es[|es| - 1].PowerOn? then [es[|es| - 1].o] else []
  }

  lemma PowerOnsThenOne(es: seq<Event>, e: Event)
    ensures PowerOns(es + [e]) == PowerOns(es) + if e.PowerOn? then [e.o] else []
  {
    assert (es + [e])[..|es + [e]| - 1] == es;
  }

  /** Events of one client only. */
  ghost predicate CallsOf(es: seq<Event>, c: Caller) {
    forall e :: e in es ==> (e.PowerOn? || e.PowerOff?) && e.caller == c
  }

  lemma OneRoundAsEvents(s: PowerState, es: seq<Event>, c: Caller, r: Round) returns (es': seq<Event>)
    requires CallsOf(es, c)
    ensures CallsOf(es', c) && PowerOns(es') == PowerOns(es) + [r.on]
    ensures Run(s, es') == AfterRound(Run(s, es), c, r)
  {
    var on, off := PowerOn(c, r.on), PowerOff(c, r.off);
    RunThenOne(s, es, on);
    PowerOnsThenOne(es, on);
    es' := es + [on];
    if Step(Run(s, es), on).1 >= 0 {
      RunThenOne(s, es', off);
      PowerOnsThenOne(es', off);
      es' := es' + [off];
    }
  }

  /** The powerOn outcomes of the first `n` rounds. */
  ghost predicate FirstOf(rounds: nat -> Round, n: nat, ons: seq<Outcome>) {
    |ons| == n && forall k :: 0 <= k < n ==> ons[k] == rounds(k).on
  }

  lemma FirstThenOne(rounds: nat -> Round, n: nat, ons: seq<Outcome>)
    requires FirstOf(rounds, n, ons)
    ensures FirstOf(rounds, n + 1, ons + [rounds(n).on])
  {
  }

  /** `n` rounds are a run of the daemon in which this client makes exactly one powerOn a round, with
      the round's outcome; the rest are its powerOffs. */
  lemma {:induction false} RoundsAreARun(s: PowerState, c: Caller, rounds: nat -> Round, n: nat)
    returns (es: seq<Event>)
    ensures AfterRounds(s, c, rounds, n) == Run(s, es)
    ensures FirstOf(rounds, n, PowerOns(es))
    ensures CallsOf(es, c)
  {
    es := [];
    if n > 0 {
      var init := RoundsAreARun(s, c, rounds, n - 1);
      es := OneRoundAsEvents(s, init, c, rounds(n - 1));
      FirstThenOne(rounds, n - 1, PowerOns(init));
    }
  }

  // ---------- rounds without faults ----------

  /** Nothing goes wrong in a round of a client that may have the chip. */
  ghost predicate CleanRound(c: Caller, r: Round) {
    && (c.uid % 100000 == 0 || c.uid % 100000 == 1000 || c.uid % 100000 == 1001)
    && r.on.bindingStatus == 0 && r.on.hasNotifier && Clean(r.on) && Clean(r.off)
  }

  /** Nobody is registered and the chip is off. */
  ghost predicate Idle(s: PowerState) {
    Inv(s) && s.pids == map[] && !s.chip.spi && !s.chip.download
  }

  /** The two power calls of a round that begins with the chip in state `off`. */
  function OnAndOff(off: Chip): seq<PowerCall> {
    [PowerCall(true, true, off, {}, FromPowerOn), PowerCall(false, true, off.(spi := true), {}, FromPowerOff)]
  }

  function Repeated(calls: seq<PowerCall>, n: nat): seq<PowerCall> {
    if n == 0 then [] else Repeated(calls, n - 1) + calls
  }

  lemma Regrouped(a: seq<PowerCall>, b: seq<PowerCall>, c: seq<PowerCall>)
    ensures a + b + c == a + (b + c)
  {
  }

  lemma CleanRoundSwitchesTheChip(s: PowerState, c: Caller, r: Round)
    requires Idle(s) && CleanRound(c, r)
    ensures var s' := AfterRound(s, c, r);
            && Idle(s') && s'.chip == s.chip && s'.node < 0 && s'.log == s.log + OnAndOff(s.chip)
  {
    var s1 := Step(s, PowerOn(c, r.on)).0;
    NobodyHolds(s.pids);
    assert s1.pids == map[c.pid := Entry(1, true)];
    assert s1.log == s.log + [OnAndOff(s.chip)[0]];
    LastReference(s1.pids, c.pid);
    NobodyHolds(Released(s1.pids, c.pid));
    assert s1.log + [OnAndOff(s.chip)[1]] == s.log + OnAndOff(s.chip);
  }

  /** After `n` such rounds. */
  ghost predicate SwitchedTimes(s: PowerState, s': PowerState, n: nat) {
    && Idle(s') && s'.chip == s.chip && (n > 0 ==> s'.node < 0)
    && s'.log == s.log + Repeated(OnAndOff(s.chip), n)
  }

  lemma SwitchedOnceMore(s: PowerState, s': PowerState, c: Caller, r: Round, n: nat)
    requires SwitchedTimes(s, s', n) && CleanRound(c, r)
    ensures SwitchedTimes(s, AfterRound(s', c, r), n + 1)
  {
    CleanRoundSwitchesTheChip(s', c, r);
    Regrouped(s.log, Repeated(OnAndOff(s.chip), n), OnAndOff(s.chip));
  }

  /** `n` fault-free rounds of the only client switch the chip on and off `n` times. */
  lemma {:induction false} CleanRoundsSwitchTheChip(s: PowerState, c: Caller, rounds: nat -> Round, n: nat)
    requires Idle(s) && forall i :: 0 <= i < n ==> CleanRound(c, rounds(i))
    ensures SwitchedTimes(s, AfterRounds(s, c, rounds, n), n)
  {
    if n > 0 {
      CleanRoundsSwitchTheChip(s, c, rounds, n - 1);
      SwitchedOnceMore(s, AfterRounds(s, c, rounds, n - 1), c, rounds(n - 1), n - 1);
    }
  }
}
