/** What each daemon call reports, and what it does to the chip, the node and the registered pids,
    in terms of what its caller and the system calls bring along. Every statement is about a call
    made at the end of any run. */
module PowerReplies {
  import opened SecureElement
  import opened PowerManager
  import opened PowerRuns

  lemma NobodyHolds(pids: map<nat, Entry>)
    ensures pids == map[] <==> pids.Keys == {}
  {
  }

  /** A powerOn that is not the first one is refused on any binding status but 0 and 1, even while
      the chip is powered, and at most opens the node. */
  lemma BindingErrorIsRefused(other: Word, es: seq<Event>, c: Caller, o: Outcome)
    requires exists e :: e in es && e.PowerOn?
    requires o.bindingStatus != 0 && o.bindingStatus != 1
    ensures var s := Run(Start(other), es);
            var (s', r) := Step(s, PowerOn(c, o));
            && r == -1
            && s'.pids == s.pids && s'.chip == s.chip && s'.log == s.log
            && s'.node == if s.node < 0 then o.openFd else s.node
  {
    OnlyTheFirstCallSkipsTheBindingCheck(other, es);
  }

  /** powerOn returns 1 exactly when every check lets it through, and then it has added one reference
      of its caller and touched no other entry. */
  lemma PowerOnRegistersExactly(other: Word, es: seq<Event>, c: Caller, o: Outcome)
    ensures var s := Run(Start(other), es);
            var (s', r) := Step(s, PowerOn(c, o));
            && (r == 1 <==>
                  && ((forall e :: e in es ==> !e.PowerOn?) || o.bindingStatus == 0 || o.bindingStatus == 1)
                  && (c.uid % 100000 == 0 || c.uid % 100000 == 1000 || c.uid % 100000 == 1001)
                  && (s.node >= 0 || o.openFd >= 0) && o.statusRet >= 0
                  && (s.chip.spi || (!s.chip.download && o.schemeRet >= 0 && o.onRet >= 0))
                  && o.hasNotifier && o.linkStatus == 0)
            && (r == 1 ==>
                  && s'.pids.Keys == s.pids.Keys + {c.pid}
                  && CountOf(s', c.pid) == CountOf(s, c.pid) + 1
                  && (forall p :: p in s.pids && p != c.pid ==> s'.pids[p] == s.pids[p])
                  && s'.chip == s.chip.(spi := true)
                  && s'.node == if s.node < 0 then o.openFd else s.node)
            && (r != 1 ==> s'.pids == s.pids)
  {
    OnlyTheFirstCallSkipsTheBindingCheck(other, es);
    RunKeepsInv(Start(other), es);
  }

  /** A powerOn that is let through the first two checks and fails returns the code of the first
      thing that went wrong. */
  lemma PowerOnReportsTheFirstFailure(other: Word, es: seq<Event>, c: Caller, o: Outcome)
    requires (forall e :: e in es ==> !e.PowerOn?) || o.bindingStatus == 0 || o.bindingStatus == 1
    ensures var s := Run(Start(other), es);
            var r := Step(s, PowerOn(c, o)).1;
            var trusted := c.uid % 100000 == 0 || c.uid % 100000 == 1000 || c.uid % 100000 == 1001;
            && (!trusted ==> r == -1)
            && (trusted && s.node < 0 && o.openFd < 0 ==> r == o.openFd)
            && (trusted && (s.node >= 0 || o.openFd >= 0) ==>
                  && (o.statusRet < 0 ==> r == o.statusRet)
                  && (o.statusRet >= 0 && !s.chip.spi ==>
                        && (s.chip.download ==> r == -16)
                        && (!s.chip.download && o.schemeRet < 0 ==> r == o.schemeRet)
                        && (!s.chip.download && o.schemeRet >= 0 && o.onRet < 0 ==> r == o.onRet))
                  && (o.statusRet >= 0
                      && (s.chip.spi || (!s.chip.download && o.schemeRet >= 0 && o.onRet >= 0)) ==>
                        && (!o.hasNotifier ==> r == if s.pids == map[] && o.offRet < 0 then o.offRet else -1)
                        && (o.hasNotifier && o.linkStatus != 0 ==> r == -1)))
  {
    OnlyTheFirstCallSkipsTheBindingCheck(other, es);
    RunKeepsInv(Start(other), es);
  }

  /** The power calls of one powerOn: it switches a chip on that is off and not downloading, and cuts
      it again for want of a notifier when nobody else is registered. Chip and node end accordingly. */
  lemma PowerOnPowerCalls(other: Word, es: seq<Event>, c: Caller, o: Outcome)
    ensures var s := Run(Start(other), es);
            var s' := Step(s, PowerOn(c, o)).0;
            var allowed := (forall e :: e in es ==> !e.PowerOn?) || o.bindingStatus == 0 || o.bindingStatus == 1;
            var trusted := c.uid % 100000 == 0 || c.uid % 100000 == 1000 || c.uid % 100000 == 1001;
            var looked := allowed && trusted && (s.node >= 0 || o.openFd >= 0) && o.statusRet >= 0;
            var on := looked && !s.chip.spi && !s.chip.download && o.schemeRet >= 0;
            var off := looked && (s.chip.spi || (on && o.onRet >= 0)) && !o.hasNotifier && s.pids == map[];
            && s'.log == s.log
                         + (if on then [PowerCall(true, o.onRet >= 0, s.chip, {}, FromPowerOn)] else [])
                         + (if off then [PowerCall(false, o.offRet >= 0, s.chip.(spi := true), {}, FromPowerOn)] else [])
            && s'.chip == s.chip.(spi := (s.chip.spi || (on && o.onRet >= 0)) && !(off && o.offRet >= 0))
            && s'.node == if off && o.offRet >= 0 && o.closeRet == 0 then -1
                          else if s.node < 0 && (allowed ==> trusted) then o.openFd else s.node
  {
    var s := Run(Start(other), es);
    OnlyTheFirstCallSkipsTheBindingCheck(other, es);
    RunKeepsInv(Start(other), es);
    NobodyHolds(s.pids);
    assert s.log + [] == s.log;
  }

  /** powerOff takes one reference from a trusted caller that has one, and cuts the power after the
      very last reference of all, unless a download runs or the status cannot be read. */
  lemma PowerOffOutcome(other: Word, es: seq<Event>, c: Caller, o: Outcome)
    ensures var s := Run(Start(other), es);
            var (s', r) := Step(s, PowerOff(c, o));
            var trusted := c.uid % 100000 == 0 || c.uid % 100000 == 1000 || c.uid % 100000 == 1001;
            var found := trusted && c.pid in s.pids;
            var last := found && s.pids.Keys == {c.pid} && s.pids[c.pid].count == 1;
            var cut := last && o.statusRet >= 0 && !s.chip.download;
            && (!found ==> r == -1 && s' == s)
            && (found ==>
                  && (c.pid in s'.pids <==> s.pids[c.pid].count > 1)
                  && (c.pid in s'.pids ==> s'.pids[c.pid] == Entry(s.pids[c.pid].count - 1, false))
                  && (forall p :: p != c.pid ==>
                        (p in s'.pids <==> p in s.pids) && (p in s.pids ==> s'.pids[p] == s.pids[p]))
                  && r == if !last then 1 else if !cut then -16 else if o.offRet < 0 then o.offRet else 0)
            && s'.log == s.log + (if cut then [PowerCall(false, o.offRet >= 0, s.chip, {}, FromPowerOff)] else [])
            && s'.chip == s.chip.(spi := s.chip.spi && !(cut && o.offRet >= 0))
            && s'.node == if cut && o.offRet >= 0 && o.closeRet == 0 then -1 else s.node
  {
    var s := Run(Start(other), es);
    RunKeepsInv(Start(other), es);
    assert s.log + [] == s.log;
    if c.pid in s.pids {
      LastReference(s.pids, c.pid);
      NobodyHolds(Released(s.pids, c.pid));
    }
  }

  /** killall forgets everybody on behalf of a trusted caller, and reports the code of the first thing
      that keeps it from cutting the power, or of the cut. */
  lemma KillAllOutcome(other: Word, es: seq<Event>, c: Caller, o: Outcome)
    ensures var s := Run(Start(other), es);
            var (s', r) := Step(s, KillAll(c, o));
            var trusted := c.uid % 100000 == 0 || c.uid % 100000 == 1000 || c.uid % 100000 == 1001;
            var nodeOpen := s.node >= 0 || o.openFd >= 0;
            var cut := trusted && nodeOpen && o.statusRet >= 0 && !s.chip.download;
            && (!trusted ==> r == -1 && s' == s)
            && (trusted ==>
                  && s'.pids == map[]
                  && r == if !nodeOpen then o.openFd else if !cut then -16 else o.offRet)
            && s'.log == s.log + (if cut then [PowerCall(false, o.offRet >= 0, s.chip, {}, FromKillAll)] else [])
            && s'.chip == s.chip.(spi := s.chip.spi && !(cut && o.offRet >= 0))
            && s'.node == if cut && o.offRet >= 0 && o.closeRet == 0 then -1
                          else if trusted && s.node < 0 then o.openFd else s.node
  {
    var s := Run(Start(other), es);
    RunKeepsInv(Start(other), es);
    NobodyHolds(map[]);
    assert s.log + [] == s.log;
  }

  /** A death takes away all references of the dead pid and no others, and cuts the power when nobody
      is left and the node is open. It never closes the node, and asks for no status. */
  lemma DeathOutcome(other: Word, es: seq<Event>, pid: nat, o: Outcome)
    ensures var s := Run(Start(other), es);
            var s' := Step(s, Died(pid, o)).0;
            var cut := s.pids.Keys <= {pid} && s.node >= 0;
            && pid !in s'.pids
            && (forall p :: p != pid ==>
                  (p in s'.pids <==> p in s.pids) && (p in s.pids ==> s'.pids[p] == s.pids[p]))
            && s'.log == s.log + (if cut then [PowerCall(false, o.offRet >= 0, s.chip, {}, FromDeath)] else [])
            && s'.chip == s.chip.(spi := s.chip.spi && !(cut && o.offRet >= 0))
            && s'.node == s.node && s'.firstCall == s.firstCall
  {
    var s := Run(Start(other), es);
    var left := s.pids - {pid};
    RunKeepsInv(Start(other), es);
    NobodyHolds(left);
    assert left.Keys == s.pids.Keys - {pid};
  }

  /** What the last of the download events says, or false before any. */
  function Downloading(es: seq<Event>): bool
    decreases |es|
  {
    if es == [] then false
    else if es[|es| - 1].Download? then es[|es| - 1].active
    else Downloading(es[..|es| - 1])
  }

  lemma StepMovesTheSpiBit(s: PowerState, e: Event)
    ensures var chip := Step(s, e).0.chip;
            && chip.prio == s.chip.prio && chip.other == s.chip.other
            && chip.download == if e.Download? then e.active else s.chip.download
  {
  }

  /** No call of the daemon moves a bit of the chip but the SPI bit. */
  lemma {:induction false} OnlyTheSpiBitIsTheDaemons(other: Word, es: seq<Event>)
    ensures var chip := Run(Start(other), es).chip;
            !chip.prio && chip.other == other && chip.download == Downloading(es)
    decreases |es|
  {
    if es != [] {
      OnlyTheSpiBitIsTheDaemons(other, es[..|es| - 1]);
      StepMovesTheSpiBit(Run(Start(other), es[..|es| - 1]), es[|es| - 1]);
    }
  }
}
