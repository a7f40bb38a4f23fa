/** The clients of the power manager: any number of processes, each with any number of
    threads that loop over powerOn, getEseCplc and powerOff, in any interleaving. */
module Clients {
  import opened PowerManager
  import opened PowerRuns

  /** Where a thread stands in its loop. `Using` is the call of ese_getEseCplc. */
  datatype Phase = LoopHead | Calling | Using | Releasing | Counting | Finished

  datatype Thread = Thread(caller: Caller, remaining: nat, phase: Phase)

  /** `dead` processes no longer run; `notified` are those whose death the daemon has seen;
      `quit` are the processes whose g_quit flag is set. */
  datatype System = System(
    daemon: PowerState, threads: seq<Thread>, dead: set<nat>, notified: set<nat>, quit: set<nat>)

  datatype Action =
    | Advance(t: nat, o: Outcome)
    | AskState(o: Outcome)
    | Crash(pid: nat)
    | Notify(pid: nat, o: Outcome)
    | Interrupt(pid: nat)
    | SetDownload(active: bool)

  predicate Enabled(sys: System, a: Action) {
    match a
    case Advance(t, _) =>
      t < |sys.threads| && sys.threads[t].phase != Finished && sys.threads[t].caller.pid !in sys.dead
    case Notify(pid, _) => pid in sys.dead
    case _ => true
  }

  /** One step of a thread, together with what it does to the daemon. */
  function Advanced(d: PowerState, th: Thread, quit: bool, o: Outcome): (PowerState, Thread) {
    match th.phase
    case LoopHead => (d, th.(phase := if th.remaining > 0 && !quit then Calling else Finished))
    case Calling =>
      var (d', ret) := Step(d, PowerOn(th.caller, o));
      (d', th.(phase := if ret < 0 then Counting else Using))
    case Using => (d, th.(phase := Releasing))
    case Releasing => (Step(d, PowerOff(th.caller, o)).0, th.(phase := Counting))
    case Counting => (d, th.(phase := LoopHead, remaining := if th.remaining > 0 then th.remaining - 1 else 0))
    case Finished => (d, th)
  }

  function Next(sys: System, a: Action): System
    requires Enabled(sys, a)
  {
    match a
    case Advance(t, o) =>
      var th := sys.threads[t];
      var (d', th') := Advanced(sys.daemon, th, th.caller.pid in sys.quit, o);
      sys.(daemon := d', threads := sys.threads[t := th'])
    case AskState(o) => sys.(daemon := Step(sys.daemon, GetState(o)).0)
    case Crash(pid) => sys.(dead := sys.dead + {pid})
    case Notify(pid, o) =>
      sys.(daemon := Step(sys.daemon, Died(pid, o)).0, notified := sys.notified + {pid})
    case Interrupt(pid) => sys.(quit := sys.quit + {pid})
    case SetDownload(active) => sys.(daemon := Step(sys.daemon, Download(active)).0)
  }

  predicate Legal(sys: System, run: seq<Action>)
    decreases |run|, 0
  {
    run == [] || (Legal(sys, run[..|run| - 1]) && Enabled(After(sys, run[..|run| - 1]), run[|run| - 1]))
  }

  function After(sys: System, run: seq<Action>): System
    requires Legal(sys, run)
    decreases |run|, 1
  {
    if run == [] then sys else Next(After(sys, run[..|run| - 1]), run[|run| - 1])
  }

  /** A fresh daemon, nothing dead, every thread at its loop head. */
  ghost predicate Fresh(sys: System) {
    && sys.daemon == Start(sys.daemon.chip.other)
    && sys.dead == {} && sys.notified == {}
    && (forall t :: 0 <= t < |sys.threads| ==> sys.threads[t].phase == LoopHead)
  }

  /** Exactly the crashes, signals and notices of a run mark a process as dead, told to quit, or
      noticed. */
  lemma {:induction false} MarksExactly(sys: System, run: seq<Action>, pid: nat)
    requires Legal(sys, run)
    ensures var now := After(sys, run);
            && (pid in now.dead <==> pid in sys.dead || Crash(pid) in run)
            && (pid in now.quit <==> pid in sys.quit || Interrupt(pid) in run)
            && (pid in now.notified <==> pid in sys.notified || exists a :: a in run && a.Notify? && a.pid == pid)
    decreases |run|
  {
    if run != [] {
      var init, a := run[..|run| - 1], run[|run| - 1];
      MarksExactly(sys, init, pid);
      assert run == init + [a];
    }
  }

  // ---------- the composed invariant ----------

  predicate Holds(th: Thread, pid: nat) {
    th.caller.pid == pid && (th.phase == Using || th.phase == Releasing)
  }

  /** The threads of `pid` that hold a successful powerOn they have not released. */
  function Holders(threads: seq<Thread>, pid: nat): set<nat> {
    set t | 0 <= t < |threads| && Holds(threads[t], pid)
  }

  ghost predicate ThreadInv(th: Thread) {
    && (th.phase == Using || th.phase == Releasing ==> TrustedUid(th.caller.uid))
    && (th.phase != LoopHead && th.phase != Finished ==> th.remaining > 0)
  }

  /** Until its death is noticed the daemon counts what the pid's threads hold, or held when they
      died; afterwards it has forgotten the pid. */
  ghost predicate CountsMatch(sys: System, pid: nat) {
    && (pid !in sys.notified ==> CountOf(sys.daemon, pid) == |Holders(sys.threads, pid)|)
    && (pid in sys.notified ==> pid !in sys.daemon.pids)
  }

  ghost predicate SysInv(sys: System) {
    && Inv(sys.daemon)
    && (forall t :: 0 <= t < |sys.threads| ==> ThreadInv(sys.threads[t]))
    && (forall pid :: CountsMatch(sys, pid))
    && sys.notified <= sys.dead
  }

  lemma HoldersAfter(threads: seq<Thread>, t: nat, th': Thread, pid: nat)
    requires t < |threads|
    ensures |Holders(threads[t := th'], pid)|
         == |Holders(threads, pid)| - (if Holds(threads[t], pid) then 1 else 0)
            + (if Holds(th', pid) then 1 else 0)
  {
    var before, after := Holders(threads, pid), Holders(threads[t := th'], pid);
    assert before - {t} == after - {t};
    assert t in before <==> Holds(threads[t], pid);
    assert t in after <==> Holds(th', pid);
    assert |before - {t}| == |before| - if t in before then 1 else 0;
    assert |after - {t}| == |after| - if t in after then 1 else 0;
  }

  lemma CountAfterPowerOff(d: PowerState, c: Caller, o: Outcome, pid: nat)
    requires Inv(d) && TrustedUid(c.uid) && c.pid in d.pids
    ensures CountOf(Step(d, PowerOff(c, o)).0, pid) == CountOf(d, pid) - (if c.pid == pid then 1 else 0)
  {
  }

  lemma AdvanceKeepsThread(d: PowerState, th: Thread, quit: bool, o: Outcome)
    requires Inv(d) && ThreadInv(th)
    ensures var (d', th') := Advanced(d, th, quit, o); Inv(d') && ThreadInv(th') && th'.caller == th.caller
  {
    match th.phase {
      case Calling => PowerOnReply(d, th.caller, o); StepKeepsInv(d, PowerOn(th.caller, o));
      case Releasing => StepKeepsInv(d, PowerOff(th.caller, o));
      case _ =>
    }
  }

  /** A thread step changes the daemon's count of a pid exactly as it changes whether the
      thread holds a reference for it. */
  lemma AdvanceMovesOneReference(d: PowerState, th: Thread, quit: bool, o: Outcome, pid: nat)
    requires Inv(d) && ThreadInv(th)
    requires th.phase == Releasing ==> th.caller.pid in d.pids
    ensures var (d', th') := Advanced(d, th, quit, o);
            CountOf(d', pid) == CountOf(d, pid) - (if Holds(th, pid) then 1 else 0)
                                + (if Holds(th', pid) then 1 else 0)
  {
  }

  /** No thread step registers or removes another pid. */
  lemma AdvanceKeepsOtherPids(d: PowerState, th: Thread, quit: bool, o: Outcome, pid: nat)
    requires Inv(d) && pid != th.caller.pid
    ensures pid in Advanced(d, th, quit, o).0.pids <==> pid in d.pids
  {
  }

  lemma AdvanceKeepsInv(sys: System, t: nat, o: Outcome)
    requires SysInv(sys) && Enabled(sys, Advance(t, o))
    ensures SysInv(Next(sys, Advance(t, o)))
  {
    var sys' := Next(sys, Advance(t, o));
    var th := sys.threads[t];
    var quit := th.caller.pid in sys.quit;
    AdvanceKeepsThread(sys.daemon, th, quit, o);
    assert CountsMatch(sys, th.caller.pid);
    if th.phase == Releasing {
      assert t in Holders(sys.threads, th.caller.pid);
    }
    forall pid ensures CountsMatch(sys', pid) {
      assert CountsMatch(sys, pid);
      AdvanceMovesOneReference(sys.daemon, th, quit, o, pid);
      HoldersAfter(sys.threads, t, sys'.threads[t], pid);
      if pid != th.caller.pid {
        AdvanceKeepsOtherPids(sys.daemon, th, quit, o, pid);
      }
    }
  }

  lemma NextKeepsInv(sys: System, a: Action)
    requires SysInv(sys) && Enabled(sys, a)
    ensures SysInv(Next(sys, a))
  {
    var sys' := Next(sys, a);
    match a {
      case Advance(t, o) => AdvanceKeepsInv(sys, t, o);
      case AskState(o) =>
        StepKeepsInv(sys.daemon, GetState(o));
        forall pid ensures CountsMatch(sys', pid) { assert CountsMatch(sys, pid); }
      case Crash(pid) =>
        forall p ensures CountsMatch(sys', p) { assert CountsMatch(sys, p); }
      case Notify(pid, o) =>
        StepKeepsInv(sys.daemon, Died(pid, o));
        forall p ensures CountsMatch(sys', p) { assert CountsMatch(sys, p); }
      case Interrupt(pid) =>
        forall p ensures CountsMatch(sys', p) { assert CountsMatch(sys, p); }
      case SetDownload(active) =>
        StepKeepsInv(sys.daemon, Download(active));
        forall p ensures CountsMatch(sys', p) { assert CountsMatch(sys, p); }
    }
  }

  lemma {:induction false} RunKeepsSysInv(sys: System, run: seq<Action>)
    requires Fresh(sys) && Legal(sys, run)
    ensures SysInv(After(sys, run))
    decreases |run|
  {
    if run == [] {
      forall pid ensures CountsMatch(sys, pid) { assert Holders(sys.threads, pid) == {}; }
    } else {
      RunKeepsSysInv(sys, run[..|run| - 1]);
      NextKeepsInv(After(sys, run[..|run| - 1]), run[|run| - 1]);
    }
  }

  /** At every moment of every run: the daemon's count of a pid is the number of its threads that
      hold a reference, or held it when they died unnoticed; such a pid is registered exactly when
      that number is positive; and whoever calls ese_getEseCplc does so with the chip powered and
      the node open. */
  lemma NobodyUsesAnUnpoweredChip(sys: System, run: seq<Action>)
    requires Fresh(sys) && Legal(sys, run)
    ensures var now := After(sys, run);
            && now.notified <= now.dead
            && (forall pid :: pid !in now.notified ==>
                  CountOf(now.daemon, pid) == |Holders(now.threads, pid)|)
            && (forall pid :: pid !in now.notified ==>
                  (pid in now.daemon.pids <==> Holders(now.threads, pid) != {}))
            && (forall t :: 0 <= t < |now.threads| && now.threads[t].phase == Using
                  && now.threads[t].caller.pid !in now.dead
                  ==> now.daemon.chip.spi && now.daemon.node >= 0)
  {
    var now := After(sys, run);
    RunKeepsSysInv(sys, run);
    forall pid | pid !in now.notified
      ensures CountOf(now.daemon, pid) == |Holders(now.threads, pid)|
      ensures pid in now.daemon.pids <==> Holders(now.threads, pid) != {}
    {
      assert CountsMatch(now, pid);
    }
    forall t | 0 <= t < |now.threads| && now.threads[t].phase == Using && now.threads[t].caller.pid !in now.dead
      ensures now.daemon.chip.spi && now.daemon.node >= 0
    {
      assert t in Holders(now.threads, now.threads[t].caller.pid);
    }
  }

  // ---------- termination ----------

  /** Five steps a round, and one to leave the loop. */
  function Work(th: Thread): nat {
    match th.phase
    case LoopHead => 5 * th.remaining + 1
    case Calling => 5 * th.remaining
    case Using => if th.remaining > 0 then 5 * th.remaining - 1 else 0
    case Releasing => if th.remaining > 0 then 5 * th.remaining - 2 else 0
    case Counting => if th.remaining > 0 then 5 * th.remaining - 3 else 0
    case Finished => 0
  }

  function TotalWork(threads: seq<Thread>): nat {
    if threads == [] then 0 else Work(threads[0]) + TotalWork(threads[1..])
  }

  lemma {:induction false} TotalWorkAfter(threads: seq<Thread>, t: nat, th': Thread)
    requires t < |threads|
    ensures TotalWork(threads[t := th']) == TotalWork(threads) - Work(threads[t]) + Work(th')
  {
    if t == 0 {
      assert threads[0 := th'][1..] == threads[1..];
    } else {
      TotalWorkAfter(threads[1..], t - 1, th');
      assert threads[t := th'][1..] == threads[1..][t - 1 := th'];
    }
  }

  function ThreadSteps(run: seq<Action>): nat
    decreases |run|
  {
    if run == [] then 0
    else ThreadSteps(run[..|run| - 1]) + if run[|run| - 1].Advance? then 1 else 0
  }

  /** A thread step uses up work. */
  lemma AdvanceWorks(sys: System, t: nat, o: Outcome)
    requires SysInv(sys) && Enabled(sys, Advance(t, o))
    ensures TotalWork(Next(sys, Advance(t, o)).threads) < TotalWork(sys.threads)
  {
    assert ThreadInv(sys.threads[t]);
    TotalWorkAfter(sys.threads, t, Next(sys, Advance(t, o)).threads[t]);
  }

  /** No schedule lets the threads take more steps than the work they started with. */
  lemma {:induction false} EveryScheduleTerminates(sys: System, run: seq<Action>)
    requires Fresh(sys) && Legal(sys, run)
    ensures ThreadSteps(run) + TotalWork(After(sys, run).threads) <= TotalWork(sys.threads)
    decreases |run|
  {
    if run != [] {
      var before, a := After(sys, run[..|run| - 1]), run[|run| - 1];
      EveryScheduleTerminates(sys, run[..|run| - 1]);
      RunKeepsSysInv(sys, run[..|run| - 1]);
      if a.Advance? {
        AdvanceWorks(before, a.t, a.o);
      }
    }
  }

  function StepsOf(run: seq<Action>, t: nat): nat
    decreases |run|
  {
    if run == [] then 0
    else StepsOf(run[..|run| - 1], t) + if run[|run| - 1].Advance? && run[|run| - 1].t == t then 1 else 0
  }

  /** What is left of the current round. */
  function RestOfRound(th: Thread): nat {
    match th.phase
    case LoopHead => 1
    case Calling => 5
    case Using => 4
    case Releasing => 3
    case Counting => 2
    case Finished => 0
  }

  lemma AdvanceEndsRound(sys: System, a: Action, t: nat)
    requires Enabled(sys, a) && t < |sys.threads| && sys.threads[t].caller.pid in sys.quit
    ensures var sys' := Next(sys, a);
            && |sys'.threads| == |sys.threads| && sys'.threads[t].caller == sys.threads[t].caller
            && sys.quit <= sys'.quit
            && RestOfRound(sys'.threads[t]) + (if a.Advance? && a.t == t then 1 else 0)
               <= RestOfRound(sys.threads[t])
  {
  }

  /** Once g_quit is set, a thread of that process finishes its round and starts no other. */
  lemma {:induction false} QuitEndsWithTheRound(sys: System, run: seq<Action>, t: nat)
    requires Legal(sys, run) && t < |sys.threads| && sys.threads[t].caller.pid in sys.quit
    ensures |After(sys, run).threads| == |sys.threads|
    ensures After(sys, run).threads[t].caller == sys.threads[t].caller && sys.quit <= After(sys, run).quit
    ensures StepsOf(run, t) + RestOfRound(After(sys, run).threads[t]) <= RestOfRound(sys.threads[t])
    decreases |run|
  {
    if run != [] {
      QuitEndsWithTheRound(sys, run[..|run| - 1], t);
      AdvanceEndsRound(After(sys, run[..|run| - 1]), run[|run| - 1], t);
    }
  }

  /** Every thread has left its loop or died with its process. */
  predicate Settled(sys: System) {
    forall t :: 0 <= t < |sys.threads| ==>
      sys.threads[t].phase == Finished || sys.threads[t].caller.pid in sys.dead
  }

  lemma ThenOne(sys: System, run: seq<Action>, a: Action)
    requires Legal(sys, run) && Enabled(After(sys, run), a)
    ensures Legal(sys, run + [a]) && After(sys, run + [a]) == Next(After(sys, run), a)
  {
    assert (run + [a])[..|run + [a]| - 1] == run;
  }

  /** Runs can be continued from where they ended. */
  lemma {:induction false} Continued(sys: System, run: seq<Action>, more: seq<Action>)
    requires Legal(sys, run) && Legal(After(sys, run), more)
    ensures Legal(sys, run + more) && After(sys, run + more) == After(After(sys, run), more)
    decreases |more|
  {
    if more == [] {
      assert run + more == run;
    } else {
      var init, a := more[..|more| - 1], more[|more| - 1];
      var before := run + init;
      assert run + more == before + [a];
      Continued(sys, run, init);
      ThenOne(sys, before, a);
    }
  }

  lemma {:induction false} SettleFrom(now: System, o: Outcome) returns (more: seq<Action>)
    requires SysInv(now)
    ensures Legal(now, more) && Settled(After(now, more))
    ensures forall a :: a in more ==> a.Advance? && a.o == o
    ensures |more| <= TotalWork(now.threads)
    decreases TotalWork(now.threads)
  {
    more := [];
    if !Settled(now) {
      var t :| 0 <= t < |now.threads| && now.threads[t].phase != Finished && now.threads[t].caller.pid !in now.dead;
      var a := Advance(t, o);
      AdvanceKeepsInv(now, t, o);
      AdvanceWorks(now, t, o);
      var rest := SettleFrom(Next(now, a), o);
      ThenOne(now, [], a);
      assert [] + [a] == [a];
      Continued(now, [a], rest);
      more := [a] + rest;
    }
  }

  /** Nobody waits for anybody: from every reachable state the threads alone can run until all have
      settled, whatever the outcome `o` of all their calls, and within the work that is left. */
  lemma CanSettle(sys: System, run: seq<Action>, o: Outcome) returns (more: seq<Action>)
    requires Fresh(sys) && Legal(sys, run)
    ensures Legal(sys, run + more) && Settled(After(sys, run + more))
    ensures forall a :: a in more ==> a.Advance? && a.o == o
    ensures |more| <= TotalWork(After(sys, run).threads)
  {
    RunKeepsSysInv(sys, run);
    more := SettleFrom(After(sys, run), o);
    Continued(sys, run, more);
  }

  /** When all threads have settled and the daemon has seen every death, nobody is registered,
      whatever failed on the way. */
  lemma SettledMeansUnregistered(sys: System, run: seq<Action>)
    requires Fresh(sys) && Legal(sys, run)
    requires Settled(After(sys, run)) && After(sys, run).dead <= After(sys, run).notified
    ensures After(sys, run).daemon.pids == map[]
  {
    var now := After(sys, run);
    RunKeepsSysInv(sys, run);
    forall pid ensures pid !in now.daemon.pids {
      assert CountsMatch(now, pid);
      if pid !in now.dead {
        assert Holders(now.threads, pid) == {};
      }
    }
  }

  // ---------- what the daemon sees ----------

  /** The daemon's part of an action, if it has one. */
  function DaemonEvent(sys: System, a: Action): seq<Event>
    requires Enabled(sys, a)
  {
    match a
    case Advance(t, o) =>
      var th := sys.threads[t];
      if th.phase == Calling then [PowerOn(th.caller, o)]
      else if th.phase == Releasing then [PowerOff(th.caller, o)]
      else []
    case AskState(o) => [GetState(o)]
    case Notify(pid, o) => [Died(pid, o)]
    case SetDownload(active) => [Download(active)]
    case _ => []
  }

  /** What the daemon sees of a run. */
  function DaemonRun(sys: System, run: seq<Action>): seq<Event>
    requires Legal(sys, run)
    decreases |run|
  {
    if run == [] then []
    else DaemonRun(sys, run[..|run| - 1]) + DaemonEvent(After(sys, run[..|run| - 1]), run[|run| - 1])
  }

  lemma NextIsItsDaemonEvent(sys: System, a: Action)
    requires Enabled(sys, a)
    ensures var e := DaemonEvent(sys, a);
            Next(sys, a).daemon == if e == [] then sys.daemon else Step(sys.daemon, e[0]).0
  {
  }

  /** The composed system drives the daemon through one of its own runs, so everything proved
      of those runs holds here. */
  lemma {:induction false} SystemRefinesDaemon(sys: System, run: seq<Action>)
    requires Legal(sys, run)
    ensures After(sys, run).daemon == Run(sys.daemon, DaemonRun(sys, run))
    decreases |run|
  {
    if run != [] {
      var init, a := run[..|run| - 1], run[|run| - 1];
      var more := DaemonEvent(After(sys, init), a);
      SystemRefinesDaemon(sys, init);
      NextIsItsDaemonEvent(After(sys, init), a);
      if more == [] {
        assert DaemonRun(sys, init) + more == DaemonRun(sys, init);
      } else {
        assert more == [more[0]];
        RunThenOne(sys.daemon, DaemonRun(sys, init), more[0]);
      }
    }
  }

  /** Deaths are notified while the pid is still registered. */
  ghost predicate PromptNotices(sys: System, run: seq<Action>)
    requires Legal(sys, run)
    decreases |run|
  {
    run == [] ||
    (&& PromptNotices(sys, run[..|run| - 1])
     && (run[|run| - 1].Notify? ==> run[|run| - 1].pid in After(sys, run[..|run| - 1]).daemon.pids))
  }

  lemma OrderlyThenOne(d: PowerState, es: seq<Event>, e: Event)
    requires Orderly(d, es) && !e.KillAll? && (e.Died? ==> e.pid in Run(d, es).pids)
    ensures Orderly(d, es + [e])
  {
    assert (es + [e])[..|es + [e]| - 1] == es;
  }

  lemma {:induction false} PromptNoticesAreOrderly(sys: System, run: seq<Action>)
    requires Legal(sys, run) && PromptNotices(sys, run)
    ensures Orderly(sys.daemon, DaemonRun(sys, run))
    decreases |run|
  {
    if run != [] {
      var init, a := run[..|run| - 1], run[|run| - 1];
      var es, more := DaemonRun(sys, init), DaemonEvent(After(sys, init), a);
      PromptNoticesAreOrderly(sys, init);
      SystemRefinesDaemon(sys, init);
      if more == [] {
        assert es + more == es;
      } else {
        assert more == [more[0]];
        OrderlyThenOne(sys.daemon, es, more[0]);
      }
    }
  }

  /** In the composed system, too, power is only ever cut while nobody is registered and the
      successful power calls go on, off, on, off. */
  lemma PowerCallsOfTheSystem(sys: System, run: seq<Action>)
    requires Fresh(sys) && Legal(sys, run)
    ensures forall call :: call in After(sys, run).daemon.log ==> Lawful(call)
    ensures PromptNotices(sys, run) ==> Alternates(Successes(After(sys, run).daemon.log))
  {
    var other := sys.daemon.chip.other;
    SystemRefinesDaemon(sys, run);
    EveryPowerCallIsLawful(other, DaemonRun(sys, run));
    if PromptNotices(sys, run) {
      PromptNoticesAreOrderly(sys, run);
      OrderlyRunsAlternate(other, DaemonRun(sys, run));
    }
  }

  // ---------- deaths that nobody notices ----------

  /** Only stored and still linked notifiers report a death. */
  ghost predicate StoredNotices(sys: System, run: seq<Action>)
    requires Legal(sys, run)
    decreases |run|
  {
    run == [] ||
    (&& StoredNotices(sys, run[..|run| - 1])
     && var before, a := After(sys, run[..|run| - 1]), run[|run| - 1];
        a.Notify? ==> a.pid in before.daemon.pids && before.daemon.pids[a.pid].linked)
  }

  /** A process that dies with references but without its stored link keeps its entry, and the chip
      its power, in every continuation that hears of deaths through stored links only. */
  lemma {:induction false} UnwatchedDeathKeepsThePower(sys: System, run: seq<Action>, pid: nat)
    requires SysInv(sys) && Legal(sys, run) && StoredNotices(sys, run)
    requires pid in sys.dead && pid in sys.daemon.pids && !sys.daemon.pids[pid].linked
    ensures var now := After(sys, run);
            && SysInv(now) && pid in now.dead
            && pid in now.daemon.pids && now.daemon.pids[pid] == sys.daemon.pids[pid]
            && now.daemon.chip.spi && now.daemon.node >= 0
    decreases |run|
  {
    if run != [] {
      var before, a := After(sys, run[..|run| - 1]), run[|run| - 1];
      UnwatchedDeathKeepsThePower(sys, run[..|run| - 1], pid);
      NextKeepsInv(before, a);
      NextIsItsDaemonEvent(before, a);
      var e := DaemonEvent(before, a);
      if e != [] {
        OthersKeepTheirPower(before.daemon, e[0], pid);
      }
    }
  }

  /** Nothing stands between a thread and the powered chip. */
  ghost predicate Unhindered(sys: System, c: Caller, o: Outcome) {
    && Inv(sys.daemon) && !sys.daemon.chip.download
    && TrustedUid(c.uid) && c.pid !in sys.dead && c.pid !in sys.quit
    && Clean(o) && o.hasNotifier && o.bindingStatus == ESE_BINDING_RIGHT
  }

  lemma ThreadGetsPower(sys: System, t: nat, o: Outcome) returns (now: System)
    requires t < |sys.threads| && sys.threads[t].phase == LoopHead && sys.threads[t].remaining > 0
    requires Unhindered(sys, sys.threads[t].caller, o)
    ensures var run := [Advance(t, o), Advance(t, o)];
            Legal(sys, run) && now == After(sys, run)
    ensures now.threads == sys.threads[t := sys.threads[t].(phase := Using)]
    ensures now.dead == sys.dead && now.quit == sys.quit
    ensures Unhindered(now, sys.threads[t].caller, o)
  {
    var a := Advance(t, o);
    ThenOne(sys, [], a);
    ThenOne(sys, [a], a);
    assert [] + [a] == [a] && [a] + [a] == [a, a];
    CleanPowerOnRegisters(sys.daemon, sys.threads[t].caller, o);
    now := Next(Next(sys, a), a);
  }

  /** One thread of the process is about to give its reference back, the other uses the chip. */
  ghost predicate TwoHolders(sys: System, c: Caller) {
    && sys.threads == [Thread(c, 1, Releasing), Thread(c, 1, Using)]
    && c.pid !in sys.dead
  }

  lemma TwoHoldersHappen(sys: System, c: Caller, o: Outcome) returns (run: seq<Action>)
    requires sys.threads == [Thread(c, 1, LoopHead), Thread(c, 1, LoopHead)] && Unhindered(sys, c, o)
    ensures Legal(sys, run) && TwoHolders(After(sys, run), c)
  {
    var first, second := [Advance(0, o), Advance(0, o)], [Advance(1, o), Advance(1, o)];
    var one := ThreadGetsPower(sys, 0, o);
    var two := ThreadGetsPower(one, 1, o);
    Continued(sys, first, second);
    ThenOne(sys, first + second, Advance(0, o));
    run := first + second + [Advance(0, o)];
  }

  lemma DeathOfTheOther(now: System, c: Caller, o: Outcome)
    requires SysInv(now) && TwoHolders(now, c)
    ensures var a, b := Advance(0, o), Crash(c.pid);
            && Enabled(now, a)
            && var end := Next(Next(now, a), b);
               && Settled(end) && c.pid in end.dead
               && c.pid in end.daemon.pids && !end.daemon.pids[c.pid].linked && end.daemon.chip.spi
  {
    assert CountsMatch(now, c.pid) && ThreadInv(now.threads[0]);
    assert Holders(now.threads, c.pid) == {0, 1};
    GivingBackOneOfTwo(now.daemon, c, o);
  }

  /** Two threads of one process get power, one of them gives its reference back, and the process
      dies: a run that ends with a death nobody is told of. */
  lemma ADeathCanGoUnnoticed(sys: System, c: Caller, o: Outcome) returns (run: seq<Action>)
    requires Fresh(sys) && sys.threads == [Thread(c, 1, LoopHead), Thread(c, 1, LoopHead)]
    requires Unhindered(sys, c, o)
    ensures Legal(sys, run)
    ensures var now := After(sys, run);
            && Settled(now) && c.pid in now.dead
            && c.pid in now.daemon.pids && !now.daemon.pids[c.pid].linked && now.daemon.chip.spi
  {
    var start := TwoHoldersHappen(sys, c, o);
    var a, b := Advance(0, o), Crash(c.pid);
    RunKeepsSysInv(sys, start);
    DeathOfTheOther(After(sys, start), c, o);
    ThenOne(sys, start, a);
    ThenOne(sys, start + [a], b);
    run := start + [a] + [b];
  }

  ghost predicate CleanAction(a: Action) {
    match a
    case Advance(_, o) => Clean(o)
    case AskState(o) => Clean(o)
    case Notify(_, o) => Clean(o)
    case SetDownload(active) => !active
    case _ => true
  }

  lemma {:induction false} CleanRunsMakeCleanEvents(sys: System, run: seq<Action>)
    requires Legal(sys, run) && forall a :: a in run ==> CleanAction(a)
    ensures forall e :: e in DaemonRun(sys, run) ==> CleanEvent(e)
    decreases |run|
  {
    if run != [] {
      CleanRunsMakeCleanEvents(sys, run[..|run| - 1]);
      assert CleanAction(run[|run| - 1]);
    }
  }

  /** Without faults and downloads, once all threads have settled and all deaths were seen,
      the chip is off. */
  lemma CleanRunsEndWithTheChipOff(sys: System, run: seq<Action>)
    requires Fresh(sys) && Legal(sys, run) && forall a :: a in run ==> CleanAction(a)
    requires Settled(After(sys, run)) && After(sys, run).dead <= After(sys, run).notified
    ensures After(sys, run).daemon.pids == map[] && !After(sys, run).daemon.chip.spi
  {
    SettledMeansUnregistered(sys, run);
    SystemRefinesDaemon(sys, run);
    CleanRunsMakeCleanEvents(sys, run);
    CleanRunsPowerExactlyForClients(sys.daemon.chip.other, DaemonRun(sys, run));
  }

  // ---------- one thread, as it is written ----------

  /** The outcomes of one round: of its powerOn, of the answer to its request, of its powerOff. */
  datatype Round = Round(on: Outcome, cplcRet: int, cplcLen: nat, off: Outcome)

  /** What a round makes of the daemon. */
  function AfterRound(s: PowerState, c: Caller, r: Round): PowerState {
    var (s', ret) := Step(s, PowerOn(c, r.on));
    if ret < 0 then s' else Step(s', PowerOff(c, r.off)).0
  }

  function AfterRounds(s: PowerState, c: Caller, rounds: nat -> Round, n: nat): PowerState {
    if n == 0 then s else AfterRound(AfterRounds(s, c, rounds, n - 1), c, rounds(n - 1))
  }

  /** A round gives back what it takes: every pid ends with the count it had. */
  lemma RoundIsBalanced(s: PowerState, c: Caller, r: Round, pid: nat)
    requires Inv(s)
    ensures Inv(AfterRound(s, c, r)) && CountOf(AfterRound(s, c, r), pid) == CountOf(s, pid)
  {
    var (s', ret) := Step(s, PowerOn(c, r.on));
    PowerOnReply(s, c, r.on);
    StepKeepsInv(s, PowerOn(c, r.on));
    StepKeepsInv(s', PowerOff(c, r.off));
    if ret == 1 {
      CountAfterPowerOff(s', c, r.off, pid);
    }
  }

  /** And so does a whole thread. */
  lemma {:induction false} RoundsAreBalanced(s: PowerState, c: Caller, rounds: nat -> Round, n: nat, pid: nat)
    requires Inv(s)
    ensures Inv(AfterRounds(s, c, rounds, n)) && CountOf(AfterRounds(s, c, rounds, n), pid) == CountOf(s, pid)
  {
    if n > 0 {
      RoundsAreBalanced(s, c, rounds, n - 1, pid);
      RoundIsBalanced(AfterRounds(s, c, rounds, n - 1), c, rounds(n - 1), pid);
    }
  }

  /** One round. `poweredUse` tells whether the request was made, and then with power on. */
  method GetCplc(pm: ESEPowerManager, c: Caller, r: Round) returns (len: int, ghost poweredUse: bool)
    requires pm.Valid()
    modifies pm, pm.driver
    ensures pm.Valid()
    ensures pm.View() == AfterRound(old(pm.View()), c, r)
    ensures poweredUse <==> Step(old(pm.View()), PowerOn(c, r.on)).1 == 1
    ensures len == if poweredUse && r.cplcRet >= 0 then r.cplcLen else 0
  {
    PowerOnReply(pm.View(), c, r.on);
    var ret := pm.PowerOn(c, r.on);
    if ret < 0 {
      return 0, false;
    }
    assert c.pid in pm.pidsMap;
    poweredUse := pm.driver.chip.spi && pm.nqNode >= 0;
    ret := r.cplcRet;
    var _ := pm.PowerOff(c, r.off);
    if ret < 0 {
      return 0, poweredUse;
    }
    return r.cplcLen, poweredUse;
  }

  /** Round number `n` of a thread that found the daemon in state `s0`. */
  method OneRoundMore(pm: ESEPowerManager, c: Caller, rounds: nat -> Round, ghost s0: PowerState, n: nat)
    requires pm.Valid() && pm.View() == AfterRounds(s0, c, rounds, n)
    modifies pm, pm.driver
    ensures pm.Valid() && pm.View() == AfterRounds(s0, c, rounds, n + 1)
  {
    var _, _ := GetCplc(pm, c, rounds(n));
  }

  class ThreadInfo {
    var count: nat

    constructor (count: nat)
      ensures this.count == count
    {
      this.count := count;
    }
  }

  /** The thread body: rounds until its count is used up or g_quit is seen. `quitAfter` is the
      number of rounds after which g_quit reads as set, if it ever does. */
  method GetCplcThread(pm: ESEPowerManager, info: ThreadInfo, c: Caller, rounds: nat -> Round, quitAfter: nat)
    returns (done: nat)
    requires pm.Valid()
    modifies pm, pm.driver, info
    ensures pm.Valid()
    ensures done + info.count == old(info.count)
    ensures done == if quitAfter < old(info.count) then quitAfter else old(info.count)
    ensures pm.View() == AfterRounds(old(pm.View()), c, rounds, done)
  {
    done := 0;
    while info.count > 0 && done < quitAfter
      invariant pm.Valid()
      invariant done + info.count == old(info.count) && done <= quitAfter
      invariant pm.View() == AfterRounds(old(pm.View()), c, rounds, done)
      decreases info.count
    {
      OneRoundMore(pm, c, rounds, old(pm.View()), done);
      info.count := info.count - 1;
      done := done + 1;
    }
  }
}
