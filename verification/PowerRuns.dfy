/** Whole runs of the power manager: any sequence of calls, deaths and downloads, with
    any outcome of every open, ioctl, link and close. */
module PowerRuns {
  import opened SecureElement
  import opened PowerManager

  /** The state after a run. A statement about every run is one about every moment of it. */
  function Run(s: PowerState, es: seq<Event>): PowerState
    decreases |es|
  {
    if es == [] then s else Step(Run(s, es[..|es| - 1]), es[|es| - 1]).0
  }

  lemma {:induction false} RunKeepsInv(s: PowerState, es: seq<Event>)
    requires Inv(s)
    ensures Inv(Run(s, es))
    decreases |es|
  {
    if es != [] {
      RunKeepsInv(s, es[..|es| - 1]);
      StepKeepsInv(Run(s, es[..|es| - 1]), es[|es| - 1]);
    }
  }

  /** In every reachable state a registered pid has the chip powered and the node open, so
      neither the out-of-sync warning nor "assume it's off" happens to a registered pid. */
  lemma ReachableStatesAreSafe(other: Word, es: seq<Event>)
    ensures var s := Run(Start(other), es);
            && (s.pids != map[] ==> s.chip.spi && s.node >= 0)
            && (s.node < 0 ==> !s.chip.spi)
            && (forall p :: p in s.pids ==> s.pids[p].count >= 1)
            && !OutOfSync(s)
  {
    RunKeepsInv(Start(other), es);
    StepKeepsInv(Run(Start(other), es), Download(false));
  }

  lemma FirstCallAfterStep(s: PowerState, e: Event)
    ensures Step(s, e).0.firstCall <==> s.firstCall && !e.PowerOn?
  {
  }

  /** Exactly the first powerOn since the daemon started skips the binding check. */
  lemma {:induction false} OnlyTheFirstCallSkipsTheBindingCheck(other: Word, es: seq<Event>)
    ensures Run(Start(other), es).firstCall <==> forall e :: e in es ==> !e.PowerOn?
    decreases |es|
  {
    if es != [] {
      OnlyTheFirstCallSkipsTheBindingCheck(other, es[..|es| - 1]);
      FirstCallAfterStep(Run(Start(other), es[..|es| - 1]), es[|es| - 1]);
      assert es == es[..|es| - 1] + [es[|es| - 1]];
    }
  }

  /** getState opens the node at most. Its reply is the code of a failed open, -1 when the status
      could not be read, and otherwise shows in bits 10 to 12 the chip's power and download, and in
      all others what the driver has there. */
  lemma GetStateOnlyLooks(s: PowerState, o: Outcome)
    ensures var (s', r) := Step(s, GetState(o));
            && s'.pids == s.pids && s'.chip == s.chip && s'.log == s.log && s'.firstCall == s.firstCall
            && (s.node >= 0 ==> s'.node == s.node)
            && (s.node < 0 ==> s'.node == o.openFd)
            && (s'.node < 0 ==> r == o.openFd)
            && (s'.node >= 0 && o.statusRet < 0 ==> r == -1)
            && (s'.node >= 0 && o.statusRet >= 0 ==>
                  && (r / 0x0400 % 2 == 1 <==> s.chip.spi)
                  && (r / 0x0800 % 2 == 1 <==> s.chip.download)
                  && (r / 0x1000 % 2 == 1 <==> s.chip.prio)
                  && r % 0x0400 == s.chip.other % 0x0400 && r / 0x2000 == s.chip.other / 0x2000)
  {
  }

  // ---------- what the power calls of a run look like ----------

  /** Power is only switched on when the chip shows neither power nor a download, only cut
      when nobody is registered, and never cut by powerOff or killall during a download. */
  ghost predicate Lawful(call: PowerCall) {
    && (call.level ==> !call.chip.spi && !call.chip.prio && !call.chip.download)
    && call.holders == {}
    && (!call.level && call.origin in {FromPowerOff, FromKillAll} ==> !call.chip.download)
  }

  ghost predicate LawfulLog(log: seq<PowerCall>) {
    forall i :: 0 <= i < |log| ==> Lawful(log[i])
  }

  lemma SwitchIsLawful(s: PowerState, level: bool, ret: int, origin: Origin)
    requires LawfulLog(s.log) && Lawful(PowerCall(level, ret >= 0, s.chip, s.pids.Keys, origin))
    ensures LawfulLog(Switched(s, level, ret, origin).log)
  {
  }

  lemma PowerOnIsLawful(s: PowerState, c: Caller, o: Outcome)
    requires Inv(s) && LawfulLog(s.log)
    ensures LawfulLog(PowerOnStep(s, c, o).0.log)
  {
    var s1 := Opened(s.(firstCall := false), o);
    if !s1.chip.spi && !s1.chip.download {
      SwitchIsLawful(s1, true, o.onRet, FromPowerOn);
      s1 := Switched(s1, true, o.onRet, FromPowerOn);
    }
    if s1.pids == map[] && LawfulLog(s1.log) {
      SwitchIsLawful(s1, false, o.offRet, FromPowerOn);
    }
  }

  lemma CutIsLawful(s: PowerState, o: Outcome, origin: Origin)
    requires LawfulLog(s.log) && s.pids == map[]
    requires origin in {FromPowerOff, FromKillAll} ==> !s.chip.download
    ensures LawfulLog(CutAndClose(s, o, origin).log)
  {
    SwitchIsLawful(s, false, o.offRet, origin);
  }

  lemma StepIsLawful(s: PowerState, e: Event)
    requires Inv(s) && LawfulLog(s.log)
    ensures LawfulLog(Step(s, e).0.log)
  {
    match e {
      case PowerOn(c, o) => PowerOnIsLawful(s, c, o);
      case PowerOff(c, o) =>
        if c.pid in s.pids && Released(s.pids, c.pid) == map[] && !s.chip.download {
          CutIsLawful(s.(pids := map[]), o, FromPowerOff);
        }
      case KillAll(c, o) =>
        if !s.chip.download {
          CutIsLawful(Opened(s.(pids := map[]), o), o, FromKillAll);
        }
      case Died(pid, o) => CutIsLawful(s.(pids := map[]), o, FromDeath);
      case _ =>
    }
  }

  lemma {:induction false} EveryPowerCallIsLawful(other: Word, es: seq<Event>)
    ensures forall call :: call in Run(Start(other), es).log ==> Lawful(call)
    decreases |es|
  {
    if es != [] {
      var s := Run(Start(other), es[..|es| - 1]);
      EveryPowerCallIsLawful(other, es[..|es| - 1]);
      RunKeepsInv(Start(other), es[..|es| - 1]);
      StepIsLawful(s, es[|es| - 1]);
    }
  }

  lemma PowerOnLogGrows(s: PowerState, c: Caller, o: Outcome)
    ensures s.log <= PowerOnStep(s, c, o).0.log
  {
  }

  lemma LogOnlyGrows(s: PowerState, e: Event)
    ensures s.log <= Step(s, e).0.log
  {
    match e {
      case PowerOn(c, o) => PowerOnLogGrows(s, c, o);
      case _ =>
    }
  }

  /** A status read that fails leaves the sentinel, and then no client call touches the power. */
  lemma FailedReadFreezesPower(s: PowerState, e: Event)
    requires e.PowerOn? || e.PowerOff? || e.KillAll?
    requires e.o.statusRet < 0
    ensures Step(s, e).0.chip == s.chip && Step(s, e).0.log == s.log
  {
  }

  // ---------- alternation of the successful power calls ----------

  function Successes(log: seq<PowerCall>): seq<bool>
    decreases |log|
  {
    if log == [] then []
    else Successes(log[..|log| - 1]) + if log[|log| - 1].ok then [log[|log| - 1].level] else []
  }

  /** On, off, on, off, ... */
  ghost predicate Alternates(levels: seq<bool>) {
    forall i :: 0 <= i < |levels| ==> levels[i] == (i % 2 == 0)
  }

  /** The successful calls alternate and the chip is where they left it. */
  ghost predicate InStep(s: PowerState) {
    Alternates(Successes(s.log)) && s.chip.spi == (|Successes(s.log)| % 2 == 1)
  }

  /** The only ways to cut power that is already off: killall, or a death notification for a
      pid that is not registered, while the node is (or can be) open. */
  ghost predicate CutsTwice(s: PowerState, e: Event) {
    && !s.chip.spi
    && match e
       case KillAll(c, o) =>
         && TrustedUid(c.uid) && (s.node >= 0 || o.openFd >= 0)
         && o.statusRet >= 0 && !s.chip.download && o.offRet >= 0
       case Died(pid, o) => s.node >= 0 && o.offRet >= 0
       case _ => false
  }

  ghost predicate NeverCutsTwice(s: PowerState, es: seq<Event>)
    decreases |es|
  {
    es == [] || (NeverCutsTwice(s, es[..|es| - 1]) && !CutsTwice(Run(s, es[..|es| - 1]), es[|es| - 1]))
  }

  lemma SwitchedSuccesses(s: PowerState, level: bool, ret: int, origin: Origin)
    ensures Successes(Switched(s, level, ret, origin).log)
         == Successes(s.log) + if ret >= 0 then [level] else []
  {
    var log' := Switched(s, level, ret, origin).log;
    assert log'[..|log'| - 1] == s.log;
  }

  lemma SwitchInStep(s: PowerState, level: bool, ret: int, origin: Origin)
    requires InStep(s)
    ensures var s' := Switched(s, level, ret, origin);
            if ret < 0 || level != s.chip.spi then InStep(s') else !Alternates(Successes(s'.log))
  {
    SwitchedSuccesses(s, level, ret, origin);
    var before, after := Successes(s.log), Successes(Switched(s, level, ret, origin).log);
    if ret >= 0 {
      assert after[|before|] == level;
      assert forall i :: 0 <= i < |before| ==> after[i] == before[i];
    }
  }

  lemma CutInStep(s: PowerState, o: Outcome, origin: Origin)
    requires InStep(s)
    ensures var s' := CutAndClose(s, o, origin);
            if o.offRet < 0 || s.chip.spi then InStep(s') else !Alternates(Successes(s'.log))
  {
    SwitchInStep(s, false, o.offRet, origin);
  }

  lemma JoinInStep(s: PowerState, pid: nat, o: Outcome)
    requires InStep(s) && s.chip.spi
    ensures InStep(Join(s, pid, o).0)
  {
    CutInStep(s, o, FromPowerOn);
  }

  lemma PowerOnInStep(s: PowerState, c: Caller, o: Outcome)
    requires Inv(s) && InStep(s)
    ensures InStep(PowerOnStep(s, c, o).0)
  {
    var s1 := Opened(s.(firstCall := false), o);
    if s1.chip.spi {
      JoinInStep(s1, c.pid, o);
    } else {
      SwitchInStep(s1, true, o.onRet, FromPowerOn);
      if o.onRet >= 0 {
        JoinInStep(Switched(s1, true, o.onRet, FromPowerOn), c.pid, o);
      }
    }
  }

  lemma PowerOffInStep(s: PowerState, c: Caller, o: Outcome)
    requires Inv(s) && InStep(s)
    ensures InStep(PowerOffStep(s, c, o).0)
  {
    if c.pid in s.pids {
      CutInStep(s.(pids := Released(s.pids, c.pid)), o, FromPowerOff);
    }
  }

  lemma KillAllInStep(s: PowerState, c: Caller, o: Outcome)
    requires Inv(s) && InStep(s)
    ensures var s' := KillAllStep(s, c, o).0;
            if CutsTwice(s, KillAll(c, o)) then !Alternates(Successes(s'.log)) else InStep(s')
  {
    CutInStep(Opened(s.(pids := map[]), o), o, FromKillAll);
  }

  lemma DiedInStep(s: PowerState, pid: nat, o: Outcome)
    requires Inv(s) && InStep(s)
    ensures var s' := DiedStep(s, pid, o);
            if CutsTwice(s, Died(pid, o)) then !Alternates(Successes(s'.log)) else InStep(s')
  {
    SwitchInStep(s.(pids := s.pids - {pid}), false, o.offRet, FromDeath);
  }

  lemma StepInStep(s: PowerState, e: Event)
    requires Inv(s) && InStep(s)
    ensures if CutsTwice(s, e) then !Alternates(Successes(Step(s, e).0.log)) else InStep(Step(s, e).0)
  {
    match e {
      case PowerOn(c, o) => PowerOnInStep(s, c, o);
      case PowerOff(c, o) => PowerOffInStep(s, c, o);
      case GetState(o) =>
      case KillAll(c, o) => KillAllInStep(s, c, o);
      case Died(pid, o) => DiedInStep(s, pid, o);
      case Download(active) =>
    }
  }

  lemma {:induction false} SuccessesOfPrefix(log: seq<PowerCall>, log': seq<PowerCall>)
    requires log <= log'
    ensures Successes(log) <= Successes(log')
    decreases |log'|
  {
    if log != log' {
      SuccessesOfPrefix(log, log'[..|log'| - 1]);
    }
  }

  /** The successful power calls of a run are on, off, on, off, ... exactly when the run never
      cuts power twice. */
  lemma {:induction false} AlternationExactly(other: Word, es: seq<Event>)
    ensures Alternates(Successes(Run(Start(other), es).log)) <==> NeverCutsTwice(Start(other), es)
    ensures NeverCutsTwice(Start(other), es) ==> InStep(Run(Start(other), es))
    decreases |es|
  {
    if es != [] {
      var s := Run(Start(other), es[..|es| - 1]);
      AlternationExactly(other, es[..|es| - 1]);
      RunKeepsInv(Start(other), es[..|es| - 1]);
      if InStep(s) {
        StepInStep(s, es[|es| - 1]);
      }
      LogOnlyGrows(s, es[|es| - 1]);
      SuccessesOfPrefix(s.log, Run(Start(other), es).log);
    }
  }

  /** No killall, and deaths are those of registered pids. */
  ghost predicate Orderly(s: PowerState, es: seq<Event>)
    decreases |es|
  {
    es == [] ||
    (&& Orderly(s, es[..|es| - 1])
     && !es[|es| - 1].KillAll?
     && (es[|es| - 1].Died? ==> es[|es| - 1].pid in Run(s, es[..|es| - 1]).pids))
  }

  lemma {:induction false} OrderlyNeverCutsTwice(other: Word, es: seq<Event>)
    requires Orderly(Start(other), es)
    ensures NeverCutsTwice(Start(other), es)
    decreases |es|
  {
    if es != [] {
      OrderlyNeverCutsTwice(other, es[..|es| - 1]);
      RunKeepsInv(Start(other), es[..|es| - 1]);
    }
  }

  lemma OrderlyRunsAlternate(other: Word, es: seq<Event>)
    requires Orderly(Start(other), es)
    ensures Alternates(Successes(Run(Start(other), es).log))
    ensures Run(Start(other), es).chip.spi <==> |Successes(Run(Start(other), es).log)| % 2 == 1
  {
    OrderlyNeverCutsTwice(other, es);
    AlternationExactly(other, es);
  }

  const GOOD := Outcome(0, 3, 0, 0, 0, 0, 0, true, 0)

  /** Killall on a fresh daemon cuts a power that was never on. */
  lemma KillAllBreaksAlternation(other: Word)
    ensures !Alternates(Successes(Run(Start(other), [KillAll(Caller(7, 0), GOOD)]).log))
  {
    var e := KillAll(Caller(7, 0), GOOD);
    assert [e][..0] == [];
    StepInStep(Start(other), e);
    assert Run(Start(other), [e]) == Step(Start(other), e).0;
  }

  // ---------- nobody cuts the power under somebody else ----------

  ghost predicate ActsFor(e: Event, pid: nat) {
    match e
    case PowerOn(c, _) => c.pid == pid
    case PowerOff(c, _) => c.pid == pid
    case Died(p, _) => p == pid
    case _ => false
  }

  /** Whatever another client does, or dies of, a registered pid keeps its entry and its power. */
  lemma OthersKeepTheirPower(s: PowerState, e: Event, pid: nat)
    requires Inv(s) && pid in s.pids
    requires !e.KillAll? && !ActsFor(e, pid)
    ensures var s' := Step(s, e).0;
            pid in s'.pids && s'.pids[pid] == s.pids[pid] && s'.chip.spi && s'.node >= 0
  {
    StepKeepsInv(s, e);
    match e {
      case PowerOn(c, o) =>
      case PowerOff(c, o) => assert c.pid in s.pids ==> pid in Released(s.pids, c.pid);
      case GetState(o) =>
      case Died(p, o) => assert pid in s.pids - {p};
      case Download(active) =>
    }
  }

  // ---------- power without a client ----------

  ghost predicate Clean(o: Outcome) {
    && o.openFd >= 0 && o.statusRet >= 0 && o.schemeRet >= 0 && o.onRet >= 0 && o.offRet >= 0
    && o.closeRet == 0 && o.linkStatus == 0
  }

  ghost predicate CleanEvent(e: Event) {
    match e
    case Download(active) => !active
    case PowerOn(_, o) => Clean(o)
    case PowerOff(_, o) => Clean(o)
    case GetState(o) => Clean(o)
    case KillAll(_, o) => Clean(o)
    case Died(_, o) => Clean(o)
  }

  /** Without faults and downloads the chip is powered exactly while somebody is registered. */
  lemma {:induction false} CleanRunsPowerExactlyForClients(other: Word, es: seq<Event>)
    requires forall e :: e in es ==> CleanEvent(e)
    ensures var s := Run(Start(other), es); (s.chip.spi <==> s.pids != map[]) && !s.chip.download
    decreases |es|
  {
    if es != [] {
      var s, e := Run(Start(other), es[..|es| - 1]), es[|es| - 1];
      CleanRunsPowerExactlyForClients(other, es[..|es| - 1]);
      RunKeepsInv(Start(other), es[..|es| - 1]);
      assert CleanEvent(e);
      match e {
        case PowerOn(c, o) =>
          var s1 := Opened(s.(firstCall := false), o);
          assert Registered(s1, c.pid).pids != map[] by { assert c.pid in Registered(s1, c.pid).pids; }
        case _ =>
      }
    }
  }

  /** The chip is powered for nobody. */
  ghost predicate Orphan(s: PowerState) {
    s.chip.spi && s.pids == map[]
  }

  /** The faults that strand the power: a refused registration right after switching on, or a
      last reference that goes away while the cut is forbidden or fails. */
  ghost predicate Strands(s: PowerState, e: Event) {
    match e
    case PowerOn(c, o) =>
      && s.pids == map[] && Permitted(s.firstCall, o) && TrustedUid(c.uid)
      && (s.node >= 0 || o.openFd >= 0) && o.statusRet >= 0 && !s.chip.download
      && o.schemeRet >= 0 && o.onRet >= 0
      && (if o.hasNotifier then o.linkStatus != 0 else o.offRet < 0)
    case PowerOff(c, o) =>
      && TrustedUid(c.uid) && s.pids.Keys == {c.pid} && s.pids[c.pid].count == 1
      && (o.statusRet < 0 || s.chip.download || o.offRet < 0)
    case KillAll(c, o) =>
      TrustedUid(c.uid) && s.pids != map[] && (o.statusRet < 0 || s.chip.download || o.offRet < 0)
    case Died(pid, o) => s.pids.Keys == {pid} && o.offRet < 0
    case _ => false
  }

  /** What ends a stranding: a client that registers, or is turned away for want of a notifier and
      has the power cut again; killall outside a download; a death notification of any pid. */
  ghost predicate Recovers(s: PowerState, e: Event) {
    match e
    case PowerOn(c, o) =>
      && Permitted(s.firstCall, o) && TrustedUid(c.uid) && o.statusRet >= 0
      && (if o.hasNotifier then o.linkStatus == 0 else o.offRet >= 0)
    case KillAll(c, o) => TrustedUid(c.uid) && o.statusRet >= 0 && !s.chip.download && o.offRet >= 0
    case Died(_, o) => o.offRet >= 0
    case _ => false
  }

  /** From a state that is not stranded. */
  lemma OrphanArises(s: PowerState, e: Event)
    requires Inv(s) && !Orphan(s)
    ensures Orphan(Step(s, e).0) <==> Strands(s, e)
  {
    match e {
      case PowerOn(c, o) =>
        var s1 := Opened(s.(firstCall := false), o);
        assert c.pid in Registered(s1, c.pid).pids;
      case PowerOff(c, o) =>
        if c.pid in s.pids {
          LastReference(s.pids, c.pid);
        }
      case Died(pid, o) =>
        assert (s.pids - {pid}).Keys == s.pids.Keys - {pid};
        assert s.pids - {pid} == map[] <==> (s.pids - {pid}).Keys == {};
      case _ =>
    }
  }

  /** From a stranded state. */
  lemma OrphanStays(s: PowerState, e: Event)
    requires Inv(s) && Orphan(s)
    ensures Orphan(Step(s, e).0) <==> !Recovers(s, e)
  {
    match e {
      case PowerOn(c, o) =>
        var s1 := Opened(s.(firstCall := false), o);
        assert c.pid in Registered(s1, c.pid).pids;
      case Died(pid, o) => assert s.pids - {pid} == map[];
      case _ =>
    }
  }

  /** The last step that strands or recovers the power strands it. */
  ghost predicate Stranded(s: PowerState, es: seq<Event>)
    decreases |es|
  {
    && es != []
    && var before, e := Run(s, es[..|es| - 1]), es[|es| - 1];
       if Stranded(s, es[..|es| - 1]) then !Recovers(before, e) else Strands(before, e)
  }

  /** A run ends with the chip powered for nobody exactly when something stranded the power and
      nothing has recovered it since. */
  lemma {:induction false} OrphanExactly(other: Word, es: seq<Event>)
    ensures Orphan(Run(Start(other), es)) <==> Stranded(Start(other), es)
    decreases |es|
  {
    if es != [] {
      var s, e := Run(Start(other), es[..|es| - 1]), es[|es| - 1];
      OrphanExactly(other, es[..|es| - 1]);
      RunKeepsInv(Start(other), es[..|es| - 1]);
      if Orphan(s) {
        OrphanStays(s, e);
      } else {
        OrphanArises(s, e);
      }
    }
  }

  lemma LastReference(pids: map<nat, Entry>, pid: nat)
    requires pid in pids && pids[pid].count >= 1
    ensures Released(pids, pid) == map[] <==> pids.Keys == {pid} && pids[pid].count == 1
  {
    if pids[pid].count > 1 {
      assert pid in Released(pids, pid);
    } else {
      assert (pids - {pid}).Keys == pids.Keys - {pid};
      assert Released(pids, pid) == map[] <==> (pids - {pid}).Keys == {};
      assert pids.Keys - {pid} == {} <==> pids.Keys == {pid};
    }
  }

  /** A death link that cannot be made leaves the chip on with nobody registered. */
  lemma FailedLinkStrandsTheChip(other: Word)
    ensures Orphan(Run(Start(other), [PowerOn(Caller(7, 0), GOOD.(linkStatus := -32))]))
  {
    var e := PowerOn(Caller(7, 0), GOOD.(linkStatus := -32));
    assert [e][..0] == [];
    assert Run(Start(other), [e]) == Step(Start(other), e).0;
  }

  /** One permitted, fault-free client brings any stranded state back to off and closed. */
  lemma OneClientRecoversAnOrphan(other: Word, es: seq<Event>, c: Caller, o: Outcome, o': Outcome)
    requires var s := Run(Start(other), es); Orphan(s) && Permitted(s.firstCall, o) && !s.chip.download
    requires TrustedUid(c.uid) && Clean(o) && o.hasNotifier && Clean(o')
    ensures var (s1, r1) := Step(Run(Start(other), es), PowerOn(c, o));
            var (s2, r2) := Step(s1, PowerOff(c, o'));
            r1 == 1 && r2 == 0 && !s2.chip.spi && s2.node < 0 && s2.pids == map[]
  {
    RunKeepsInv(Start(other), es);
    var s1 := Step(Run(Start(other), es), PowerOn(c, o)).0;
    assert s1.pids == map[c.pid := Entry(1, true)];
    LastReference(s1.pids, c.pid);
  }

  // ---------- conservation of references ----------

  /** What an event adds to, and takes from, the references of one pid. */
  function Granted(s: PowerState, e: Event, pid: nat): nat {
    if e.PowerOn? && e.caller.pid == pid && Step(s, e).1 == 1 then 1 else 0
  }

  predicate Found(s: PowerState, e: Event) {
    e.PowerOff? && TrustedUid(e.caller.uid) && e.caller.pid in s.pids
  }

  function Returned(s: PowerState, e: Event, pid: nat): nat {
    if Found(s, e) && e.caller.pid == pid then 1 else 0
  }

  function Dropped(s: PowerState, e: Event, pid: nat): int {
    if (e.Died? && e.pid == pid) || (e.KillAll? && TrustedUid(e.caller.uid)) then CountOf(s, pid) else 0
  }

  function GrantedIn(s: PowerState, es: seq<Event>, pid: nat): nat
    decreases |es|
  {
    if es == [] then 0
    else GrantedIn(s, es[..|es| - 1], pid) + Granted(Run(s, es[..|es| - 1]), es[|es| - 1], pid)
  }

  function ReturnedIn(s: PowerState, es: seq<Event>, pid: nat): nat
    decreases |es|
  {
    if es == [] then 0
    else ReturnedIn(s, es[..|es| - 1], pid) + Returned(Run(s, es[..|es| - 1]), es[|es| - 1], pid)
  }

  function DroppedIn(s: PowerState, es: seq<Event>, pid: nat): int
    decreases |es|
  {
    if es == [] then 0
    else DroppedIn(s, es[..|es| - 1], pid) + Dropped(Run(s, es[..|es| - 1]), es[|es| - 1], pid)
  }

  /** powerOn reports 1 exactly when it registered a reference, and otherwise a negative number. */
  lemma PowerOnReply(s: PowerState, c: Caller, o: Outcome)
    requires Inv(s)
    ensures var (s', r) := PowerOnStep(s, c, o);
            && (r == 1 || r < 0)
            && (r == 1 ==> TrustedUid(c.uid) && s'.pids == Registered(s, c.pid).pids)
            && (r < 0 ==> s'.pids == s.pids)
  {
  }

  /** powerOff reports 1 when others remain, 0 when it left the chip off, and a negative
      number when the caller held nothing or when it left the chip powered for nobody. */
  lemma PowerOffReply(s: PowerState, c: Caller, o: Outcome)
    requires Inv(s)
    ensures var (s', r) := PowerOffStep(s, c, o);
            && (r == 1 <==> Found(s, PowerOff(c, o)) && s'.pids != map[])
            && (r == 0 <==> Found(s, PowerOff(c, o)) && s'.pids == map[] && !s'.chip.spi)
            && (r < 0 <==> !Found(s, PowerOff(c, o)) || Orphan(s'))
  {
  }

  lemma StepConserves(s: PowerState, e: Event, pid: nat)
    requires Inv(s)
    ensures CountOf(Step(s, e).0, pid) + Returned(s, e, pid) + Dropped(s, e, pid)
         == CountOf(s, pid) + Granted(s, e, pid)
  {
    match e {
      case PowerOn(c, o) => PowerOnReply(s, c, o);
      case _ =>
    }
  }

  /** Every reference a pid was ever granted was given back, dropped by a death or a killall,
      or is still in its count. */
  lemma {:induction false} ReferencesAreConserved(other: Word, es: seq<Event>, pid: nat)
    ensures GrantedIn(Start(other), es, pid)
         == ReturnedIn(Start(other), es, pid) + DroppedIn(Start(other), es, pid)
            + CountOf(Run(Start(other), es), pid)
    decreases |es|
  {
    if es != [] {
      ReferencesAreConserved(other, es[..|es| - 1], pid);
      RunKeepsInv(Start(other), es[..|es| - 1]);
      StepConserves(Run(Start(other), es[..|es| - 1]), es[|es| - 1], pid);
    }
  }

  ghost function SumCounts(pids: map<nat, Entry>): int {
    if pids == map[] then 0 else var p :| p in pids; pids[p].count + SumCounts(pids - {p})
  }

  lemma {:induction false} SumWithout(pids: map<nat, Entry>, p: nat)
    requires p in pids
    ensures SumCounts(pids) == pids[p].count + SumCounts(pids - {p})
    decreases |pids|
  {
    var q :| q in pids && SumCounts(pids) == pids[q].count + SumCounts(pids - {q});
    if q != p {
      SumWithout(pids - {q}, p);
      SumWithout(pids - {p}, q);
      assert pids - {q} - {p} == pids - {p} - {q};
    }
  }

  lemma SumAfterUpdate(pids: map<nat, Entry>, p: nat, entry: Entry)
    ensures SumCounts(pids[p := entry])
         == SumCounts(pids) + entry.count - (if p in pids then pids[p].count else 0)
  {
    var pids' := pids[p := entry];
    SumWithout(pids', p);
    assert pids' - {p} == pids - {p};
    if p in pids {
      SumWithout(pids, p);
    } else {
      assert pids - {p} == pids;
    }
  }

  /** granted - returned - dropped, over all pids, for one event. */
  ghost function Balance(s: PowerState, e: Event): int {
    match e
    case PowerOn(c, o) => if Step(s, e).1 == 1 then 1 else 0
    case PowerOff(c, o) => if Found(s, e) then -1 else 0
    case Died(pid, o) => -CountOf(s, pid)
    case KillAll(c, o) => if TrustedUid(c.uid) then -SumCounts(s.pids) else 0
    case _ => 0
  }

  ghost function BalanceOf(s: PowerState, es: seq<Event>): int
    decreases |es|
  {
    if es == [] then 0
    else BalanceOf(s, es[..|es| - 1]) + Balance(Run(s, es[..|es| - 1]), es[|es| - 1])
  }

  lemma StepConservesTotal(s: PowerState, e: Event)
    requires Inv(s)
    ensures SumCounts(Step(s, e).0.pids) == SumCounts(s.pids) + Balance(s, e)
  {
    match e {
      case PowerOn(c, o) =>
        PowerOnReply(s, c, o);
        SumAfterUpdate(s.pids, c.pid, Registered(s, c.pid).pids[c.pid]);
      case PowerOff(c, o) =>
        if c.pid in s.pids {
          SumAfterUpdate(s.pids, c.pid, Entry(s.pids[c.pid].count - 1, false));
          SumWithout(s.pids, c.pid);
        }
      case Died(pid, o) =>
        if pid in s.pids {
          SumWithout(s.pids, pid);
        } else {
          assert s.pids - {pid} == s.pids;
        }
      case _ =>
    }
  }

  /** The same over all pids: the counts in pidsMap add up to the references granted minus
      those given back and those dropped. */
  lemma {:induction false} TotalIsConserved(other: Word, es: seq<Event>)
    ensures SumCounts(Run(Start(other), es).pids) == BalanceOf(Start(other), es)
    decreases |es|
  {
    if es != [] {
      TotalIsConserved(other, es[..|es| - 1]);
      RunKeepsInv(Start(other), es[..|es| - 1]);
      StepConservesTotal(Run(Start(other), es[..|es| - 1]), es[|es| - 1]);
    }
  }

  // ---------- the stored death link ----------

  /** `pid` gave back a reference, but not its last one, since it was last registered anew. */
  ghost predicate GaveBackSome(s: PowerState, es: seq<Event>, pid: nat)
    decreases |es|
  {
    && es != []
    && var before, e := Run(s, es[..|es| - 1]), es[|es| - 1];
       && pid in Step(before, e).0.pids
       && pid in before.pids
       && (Returned(before, e, pid) == 1 || GaveBackSome(s, es[..|es| - 1], pid))
  }

  /** One step registers a pid anew with a link, loses the link when it gives back one of
      several references, and otherwise keeps it. */
  lemma LinkAfterStep(s: PowerState, e: Event, pid: nat)
    requires Inv(s) && pid in Step(s, e).0.pids
    ensures Step(s, e).0.pids[pid].linked
        <==> pid !in s.pids || (s.pids[pid].linked && Returned(s, e, pid) == 0)
  {
    match e {
      case PowerOn(c, o) => PowerOnReply(s, c, o);
      case _ =>
    }
  }

  /** A registered pid is still watched through its stored notifier exactly when it has not
      given back any reference since it was registered. */
  lemma {:induction false} StoredLinkExactly(other: Word, es: seq<Event>, pid: nat)
    requires pid in Run(Start(other), es).pids
    ensures Run(Start(other), es).pids[pid].linked <==> !GaveBackSome(Start(other), es, pid)
    decreases |es|
  {
    var before, e := Run(Start(other), es[..|es| - 1]), es[|es| - 1];
    RunKeepsInv(Start(other), es[..|es| - 1]);
    LinkAfterStep(before, e, pid);
    if pid in before.pids {
      StoredLinkExactly(other, es[..|es| - 1], pid);
    }
  }

  lemma RunThenOne(s: PowerState, es: seq<Event>, e: Event)
    ensures Run(s, es + [e]) == Step(Run(s, es), e).0
  {
    assert (es + [e])[..|es + [e]| - 1] == es;
  }

  /** Outside a download a permitted, fault-free powerOn always registers. */
  lemma CleanPowerOnRegisters(s: PowerState, c: Caller, o: Outcome)
    requires Inv(s) && !s.chip.download
    requires s.firstCall || o.bindingStatus == 0 || o.bindingStatus == 1
    requires c.uid % 100000 == 0 || c.uid % 100000 == 1000 || c.uid % 100000 == 1001
    requires Clean(o) && o.hasNotifier
    ensures var (s', r) := Step(s, PowerOn(c, o));
            r == 1 && s'.pids == Registered(s, c.pid).pids && s'.chip.spi && !s'.chip.download && Inv(s')
  {
  }

  /** Two powerOns and one powerOff leave a pid registered, and nobody watching for its death. */
  lemma AClientCanGoUnwatched(other: Word)
    ensures var c := Caller(7, 0);
            var s := Run(Start(other), [PowerOn(c, GOOD), PowerOn(c, GOOD), PowerOff(c, GOOD)]);
            7 in s.pids && !s.pids[7].linked && s.chip.spi
  {
    var c, s0 := Caller(7, 0), Start(other);
    var on, off := PowerOn(c, GOOD), PowerOff(c, GOOD);
    var s1 := Step(s0, on).0;
    var s2 := Step(s1, on).0;
    CleanPowerOnRegisters(s0, c, GOOD);
    CleanPowerOnRegisters(s1, c, GOOD);
    GivingBackOneOfTwo(s2, c, GOOD);
    RunOfThree(s0, on, on, off);
  }

  lemma GivingBackOneOfTwo(s: PowerState, c: Caller, o: Outcome)
    requires c.pid in s.pids && s.pids[c.pid].count > 1 && TrustedUid(c.uid)
    ensures var s' := Step(s, PowerOff(c, o)).0;
            c.pid in s'.pids && !s'.pids[c.pid].linked && s'.chip == s.chip
  {
  }

  lemma RunOfThree(s: PowerState, e1: Event, e2: Event, e3: Event)
    ensures Run(s, [e1, e2, e3]) == Step(Step(Step(s, e1).0, e2).0, e3).0
  {
    RunThenOne(s, [], e1);
    RunThenOne(s, [e1], e2);
    RunThenOne(s, [e1, e2], e3);
    assert [] + [e1] == [e1] && [e1] + [e2] == [e1, e2] && [e1, e2] + [e3] == [e1, e2, e3];
  }
}
