/** The eSE power manager: one power line shared by reference counting. `Step` is the
    reference definition of every daemon call; the class below it is the daemon, each
    of whose methods performs one such step. */
module PowerManager {
  import opened SecureElement

  const ESE_BINDING_RIGHT := 0
  const ESE_NO_BINDING_RELATION := 1
  const PERMISSION_DENIED := -1
  const EBUSY := 16

  /** One entry of pidsMap. `linked` says whether its stored death notifier is still linked. */
  datatype Entry = Entry(count: int, linked: bool)

  datatype Caller = Caller(pid: nat, uid: nat)

  /** Everything the environment decides during one call. */
  datatype Outcome = Outcome(
    bindingStatus: int, openFd: int, statusRet: int, schemeRet: int, onRet: int, offRet: int,
    closeRet: int, hasNotifier: bool, linkStatus: int)

  datatype PowerState = PowerState(firstCall: bool, node: int, pids: map<nat, Entry>, chip: Chip, log: seq<PowerCall>)

  /** One atomic step of the daemon or of its environment. */
  datatype Event =
    | PowerOn(caller: Caller, o: Outcome)
    | PowerOff(caller: Caller, o: Outcome)
    | GetState(o: Outcome)
    | KillAll(caller: Caller, o: Outcome)
    | Died(pid: nat, o: Outcome)
    | Download(active: bool)

  function Start(other: Word): PowerState {
    PowerState(true, -1, map[], Chip(false, false, false, other), [])
  }

  /** System, root or radio, for any Android user. */
  predicate TrustedUid(uid: nat) {
    uid % 100000 in {0, 1000, 1001}
  }

  predicate Permitted(firstCall: bool, o: Outcome) {
    firstCall || o.bindingStatus == ESE_BINDING_RIGHT || o.bindingStatus == ESE_NO_BINDING_RELATION
  }

  // ---------- reference definition of the steps ----------

  function Opened(s: PowerState, o: Outcome): PowerState {
    if s.node < 0 then s.(node := o.openFd) else s
  }

  function Closed(s: PowerState, o: Outcome): PowerState {
    if o.closeRet == 0 then s.(node := -1) else s
  }

  function Switched(s: PowerState, level: bool, ret: int, origin: Origin): PowerState {
    s.(chip := if ret >= 0 then s.chip.(spi := level) else s.chip,
       log := s.log + [PowerCall(level, ret >= 0, s.chip, s.pids.Keys, origin)])
  }

  /** Cutting the power and, when that worked, closing the node. */
  function CutAndClose(s: PowerState, o: Outcome, origin: Origin): PowerState {
    var cut := Switched(s, false, o.offRet, origin);
    if o.offRet < 0 then cut else Closed(cut, o)
  }

  function CountOf(s: PowerState, pid: nat): int {
    if pid in s.pids then s.pids[pid].count else 0
  }

  function Registered(s: PowerState, pid: nat): PowerState {
    s.(pids := s.pids[pid := if pid in s.pids then s.pids[pid].(count := s.pids[pid].count + 1)
                             else Entry(1, true)])
  }

  /** The part of powerOn that runs with the chip powered. */
  function Join(s: PowerState, pid: nat, o: Outcome): (PowerState, int) {
    if !o.hasNotifier then
      if s.pids != map[] then (s, -1)
      else (CutAndClose(s, o, FromPowerOn), if o.offRet < 0 then o.offRet else -1)
    else if o.linkStatus != 0 then (s, -1)
    else (Registered(s, pid), 1)
  }

  function PowerOnStep(s: PowerState, c: Caller, o: Outcome): (PowerState, int) {
    var s0 := s.(firstCall := false);
    if !Permitted(s.firstCall, o) then (Opened(s0, o), PERMISSION_DENIED)
    else if !TrustedUid(c.uid) then (s0, PERMISSION_DENIED)
    else
      var s1 := Opened(s0, o);
      if s1.node < 0 then (s1, s1.node)
      else if o.statusRet < 0 then (s1, o.statusRet)
      else if s1.chip.spi || s1.chip.prio then Join(s1, c.pid, o)
      else if s1.chip.download then (s1, -EBUSY)
      else if o.schemeRet < 0 then (s1, o.schemeRet)
      else if o.onRet < 0 then (Switched(s1, true, o.onRet, FromPowerOn), o.onRet)
      else Join(Switched(s1, true, o.onRet, FromPowerOn), c.pid, o)
  }

  /** What is left of pidsMap when `pid` gives back one reference. */
  function Released(pids: map<nat, Entry>, pid: nat): map<nat, Entry>
    requires pid in pids
  {
    if pids[pid].count > 1 then pids[pid := Entry(pids[pid].count - 1, false)] else pids - {pid}
  }

  function PowerOffStep(s: PowerState, c: Caller, o: Outcome): (PowerState, int) {
    if !TrustedUid(c.uid) then (s, PERMISSION_DENIED)
    else if c.pid !in s.pids then (s, -1)
    else
      var s1 := s.(pids := Released(s.pids, c.pid));
      if s1.pids != map[] then (s1, 1)
      else if s.node < 0 then (s1, 0)
      else if o.statusRet < 0 || s.chip.download then (s1, -EBUSY)
      else (CutAndClose(s1, o, FromPowerOff), if o.offRet < 0 then o.offRet else 0)
  }

  function KillAllStep(s: PowerState, c: Caller, o: Outcome): (PowerState, int) {
    if !TrustedUid(c.uid) then (s, PERMISSION_DENIED)
    else
      var s1 := Opened(s.(pids := map[]), o);
      if s1.node < 0 then (s1, s1.node)
      else if o.statusRet < 0 || s.chip.download then (s1, -EBUSY)
      else (CutAndClose(s1, o, FromKillAll), o.offRet)
  }

  function DiedStep(s: PowerState, pid: nat, o: Outcome): PowerState {
    var s1 := s.(pids := s.pids - {pid});
    if s1.pids != map[] || s.node < 0 then s1
    else Switched(s1, false, o.offRet, FromDeath)
  }

  /** The state after an event, and the value a caller gets back. */
  function Step(s: PowerState, e: Event): (PowerState, int) {
    match e
    case PowerOn(c, o) => PowerOnStep(s, c, o)
    case PowerOff(c, o) => PowerOffStep(s, c, o)
    case GetState(o) =>
      var s1 := Opened(s, o);
      (s1, if s1.node < 0 then s1.node else ReadStatus(s.chip, o.statusRet))
    case KillAll(c, o) => KillAllStep(s, c, o)
    case Died(pid, o) => (DiedStep(s, pid, o), 0)
    case Download(active) => (s.(chip := s.chip.(download := active)), 0)
  }

  // ---------- the invariant of one step ----------

  /** A registered pid has the chip powered and the node open, a closed node means the
      chip is off, and no stored count is below one. */
  ghost predicate Inv(s: PowerState) {
    && (s.pids != map[] ==> s.chip.spi && s.node >= 0)
    && (s.node < 0 ==> !s.chip.spi)
    && !s.chip.prio
    && (forall p :: p in s.pids ==> s.pids[p].count >= 1)
  }

  /** powerOn is where "pidList out of sync" would be logged: pids are registered while
      the status shows the chip off. */
  ghost predicate OutOfSync(s: PowerState) {
    s.pids != map[] && !ShowsPower(StatusWord(s.chip))
  }

  lemma PowerOnKeepsInv(s: PowerState, c: Caller, o: Outcome)
    requires Inv(s)
    ensures Inv(PowerOnStep(s, c, o).0)
  {
  }

  lemma StepKeepsInv(s: PowerState, e: Event)
    requires Inv(s)
    ensures Inv(Step(s, e).0)
    ensures !OutOfSync(s)
  {
    match e {
      case PowerOn(c, o) => PowerOnKeepsInv(s, c, o);
      case Died(pid, o) => assert Step(s, e).0.pids == s.pids - {pid};
      case _ =>
    }
  }

  // ---------- the daemon ----------

  class ESEPowerManager {
    const driver: Driver
    var isFirstCalled: bool
    var nqNode: int
    var pidsMap: map<nat, Entry>

    ghost function View(): PowerState
      reads this, driver
    {
      PowerState(isFirstCalled, nqNode, pidsMap, driver.chip, driver.log)
    }

    ghost predicate Valid()
      reads this, driver
    {
      Inv(View())
    }

    constructor (driver: Driver)
      requires driver.chip == Chip(false, false, false, driver.chip.other) && driver.log == []
      ensures this.driver == driver
      ensures View() == Start(driver.chip.other)
      ensures isFirstCalled && nqNode == -1 && pidsMap == map[]
      ensures Valid()
    {
      this.driver := driver;
      isFirstCalled, nqNode, pidsMap := true, -1, map[];
    }

    method IsPowerOnAllowed(o: Outcome) returns (allowed: bool)
      modifies this`isFirstCalled
      ensures allowed <==> old(isFirstCalled) || o.bindingStatus == 0 || o.bindingStatus == 1
      ensures !isFirstCalled
    {
      if isFirstCalled {
        isFirstCalled := false;
        allowed := true;
      } else {
        allowed := o.bindingStatus == ESE_BINDING_RIGHT || o.bindingStatus == ESE_NO_BINDING_RELATION;
      }
    }

    method GetState(o: Outcome) returns (ret: int)
      modifies this`nqNode
      ensures (View(), ret) == Step(old(View()), Event.GetState(o))
      ensures old(Valid()) ==> Valid()
    {
      StepKeepsInvIf(View(), Event.GetState(o));
      if nqNode < 0 {
        nqNode := o.openFd;
        if nqNode < 0 {
          return nqNode;
        }
      }
      ret := driver.GetStatus(o.statusRet);
    }

    /** Cuts the power and, when that worked, closes the node. */
    method CutPower(o: Outcome, ghost origin: Origin)
      modifies this`nqNode, driver
      ensures View() == CutAndClose(old(View()), o, origin)
    {
      driver.SetPower(false, o.offRet, pidsMap.Keys, origin);
      if o.offRet >= 0 && o.closeRet == 0 {
        nqNode := -1;
      }
    }

    /** The second half of powerOn, reached with the chip powered. */
    method Register(c: Caller, o: Outcome) returns (ret: int)
      modifies this`nqNode, this`pidsMap, driver
      ensures (View(), ret) == Join(old(View()), c.pid, o)
    {
      if !o.hasNotifier {
        if pidsMap == map[] {
          CutPower(o, FromPowerOn);
          if o.offRet < 0 {
            return o.offRet;
          }
        }
        return -1;
      }
      if o.linkStatus != 0 {
        return -1;
      }
      if c.pid !in pidsMap {
        pidsMap := pidsMap[c.pid := Entry(1, true)];
      } else {
        pidsMap := pidsMap[c.pid := pidsMap[c.pid].(count := pidsMap[c.pid].count + 1)];
      }
      return 1;
    }

    method PowerOn(c: Caller, o: Outcome) returns (ret: int)
      modifies this, driver
      ensures (View(), ret) == Step(old(View()), Event.PowerOn(c, o))
      ensures old(Valid()) ==> Valid()
    {
      StepKeepsInvIf(View(), Event.PowerOn(c, o));
      var allowed := IsPowerOnAllowed(o);
      if !allowed {
        var _ := GetState(o);
        return PERMISSION_DENIED;
      }
      if !TrustedUid(c.uid) {
        return PERMISSION_DENIED;
      }
      if nqNode < 0 {
        nqNode := o.openFd;
        if nqNode < 0 {
          return nqNode;
        }
      }
      var word := driver.GetStatus(o.statusRet);
      if o.statusRet < 0 {
        return o.statusRet;
      }
      if ShowsPower(word) {
        // already powered
      } else if ShowsDownload(word) {
        return -EBUSY;
      } else {
        if o.schemeRet < 0 {
          return o.schemeRet;
        }
        driver.SetPower(true, o.onRet, pidsMap.Keys, FromPowerOn);
        if o.onRet < 0 {
          return o.onRet;
        }
      }
      ret := Register(c, o);
    }

    method PowerOff(c: Caller, o: Outcome) returns (ret: int)
      modifies this`nqNode, this`pidsMap, driver
      ensures (View(), ret) == Step(old(View()), Event.PowerOff(c, o))
      ensures old(Valid()) ==> Valid()
    {
      StepKeepsInvIf(View(), Event.PowerOff(c, o));
      ghost var before := pidsMap;
      if !TrustedUid(c.uid) {
        return PERMISSION_DENIED;
      }
      if c.pid !in pidsMap {
        return -1;
      }
      pidsMap := pidsMap[c.pid := Entry(pidsMap[c.pid].count - 1, false)];
      if pidsMap[c.pid].count > 0 {
        return 1;
      }
      pidsMap := pidsMap - {c.pid};
      assert pidsMap == Released(before, c.pid);
      if pidsMap != map[] {
        return 1;
      }
      if nqNode < 0 {
        return 0;
      }
      var word := driver.GetStatus(o.statusRet);
      if ShowsDownload(word) {
        return -EBUSY;
      }
      CutPower(o, FromPowerOff);
      if o.offRet < 0 {
        return o.offRet;
      }
      ret := 0;
    }

    method UnlinkAll() returns (ghost unlinked: set<nat>)
      modifies this`pidsMap
      ensures unlinked == pidsMap.Keys == old(pidsMap.Keys)
      ensures forall p :: p in pidsMap ==> pidsMap[p] == old(pidsMap[p]).(linked := false)
    {
      unlinked := {};
      var todo := pidsMap.Keys;
      while todo != {}
        invariant todo + unlinked == pidsMap.Keys == old(pidsMap.Keys) && todo !! unlinked
        invariant forall p :: p in unlinked ==> pidsMap[p] == old(pidsMap[p]).(linked := false)
        invariant forall p :: p in todo ==> pidsMap[p] == old(pidsMap[p])
      {
        var p :| p in todo;
        pidsMap := pidsMap[p := pidsMap[p].(linked := false)];
        todo, unlinked := todo - {p}, unlinked + {p};
      }
    }

    /** `unlinked` are the pids whose stored notifiers were unlinked on the way. */
    method KillAll(c: Caller, o: Outcome) returns (ret: int, ghost unlinked: set<nat>)
      modifies this`nqNode, this`pidsMap, driver
      ensures (View(), ret) == Step(old(View()), Event.KillAll(c, o))
      ensures unlinked == if TrustedUid(c.uid) then old(pidsMap.Keys) else {}
      ensures old(Valid()) ==> Valid()
    {
      StepKeepsInvIf(View(), Event.KillAll(c, o));
      unlinked := {};
      if !TrustedUid(c.uid) {
        ret := PERMISSION_DENIED;
        return;
      }
      unlinked := UnlinkAll();
      pidsMap := map[];
      if nqNode < 0 {
        nqNode := o.openFd;
        if nqNode < 0 {
          ret := nqNode;
          return;
        }
      }
      var word := driver.GetStatus(o.statusRet);
      if ShowsDownload(word) {
        ret := -EBUSY;
        return;
      }
      CutPower(o, FromKillAll);
      ret := o.offRet;
    }

    method BinderDied(pid: nat, o: Outcome)
      modifies this`pidsMap, driver
      ensures View() == Step(old(View()), Died(pid, o)).0
      ensures old(Valid()) ==> Valid()
    {
      StepKeepsInvIf(View(), Died(pid, o));
      pidsMap := pidsMap - {pid};
      if pidsMap != map[] {
        return;
      }
      if nqNode < 0 {
        return;
      }
      driver.SetPower(false, o.offRet, pidsMap.Keys, FromDeath);
    }
  }

  lemma StepKeepsInvIf(s: PowerState, e: Event)
    ensures Inv(s) ==> Inv(Step(s, e).0)
  {
    if Inv(s) {
      StepKeepsInv(s, e);
    }
  }
}
