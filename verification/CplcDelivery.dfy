/** How the CPLC travels from the trusted application to Java: service, binder stub, parcel,
    binder proxy and the native methods, inside a powerOn and powerOff. */
module CplcDelivery {
  import opened EsePort
  import opened PowerManager
  import opened PowerRuns
  import opened Clients
  import opened TeeSession

  const NO_ERROR := 0
  const BAD_VALUE := -22
  const CPLC_CAPACITY: nat := 100
  const CPLC_LENGTH: nat := 47

  // ---------- the parcel ----------

  /** Sizes in a parcel are rounded up to four bytes. */
  function Padded(n: nat): (p: nat)
    ensures n <= p < n + 4 && p % 4 == 0
  {
    (n + 3) / 4 * 4
  }

  function Bytes32(v: uint32): (bytes: seq<byte>)
    ensures |bytes| == 4
  {
    [v % 256, v / 0x100 % 256, v / 0x1_0000 % 256, v / 0x100_0000]
  }

  function Value32(bytes: seq<byte>): uint32
    requires |bytes| == 4
  {
    bytes[0] as int + bytes[1] as int * 0x100 + bytes[2] as int * 0x1_0000 + bytes[3] as int * 0x100_0000
  }

  lemma WordRoundTrip(v: uint32)
    ensures Value32(Bytes32(v)) == v
    ensures var b := Bytes32(v); b[0] as int + 0x100 * b[1] as int + 0x1_0000 * b[2] as int + 0x100_0000 * b[3] as int == v
  {
    var a, b := v / 0x100, v / 0x1_0000;
    assert b == a / 0x100 && v / 0x100_0000 == b / 0x100;
  }

  class Parcel {
    var data: seq<byte>
    var pos: nat

    ghost predicate Valid()
      reads this
    {
      pos <= |data|
    }

    constructor ()
      ensures data == [] && pos == 0
    {
      data, pos := [], 0;
    }

    method WriteUint32(v: uint32)
      modifies this`data
      ensures data == old(data) + Bytes32(v)
    {
      data := data + Bytes32(v);
    }

    /** Room for `n` bytes, zero-filled and padded; the bytes start at the old end. */
    method WriteInplace(n: nat) returns (at: nat)
      modifies this`data
      ensures at == |old(data)| && data == old(data) + Zeros(Padded(n))
    {
      at := |data|;
      data := data + Zeros(Padded(n));
    }

    /** The stores that go through the pointer that WriteInplace returned. */
    method Fill(at: nat, bytes: seq<byte>)
      requires at + |bytes| <= |data|
      modifies this`data
      ensures data == old(data)[..at] + bytes + old(data)[at + |bytes|..]
    {
      data := data[..at] + bytes + data[at + |bytes|..];
    }

    /** The next 32-bit value, or 0 when the parcel ends before it. */
    method ReadUint32() returns (v: uint32)
      requires Valid()
      modifies this`pos
      ensures Valid()
      ensures old(pos) + 4 <= |data| ==> v == Value32(data[old(pos)..old(pos) + 4]) && pos == old(pos) + 4
      ensures old(pos) + 4 > |data| ==> v == 0 && pos == old(pos)
    {
      if pos + 4 > |data| {
        return 0;
      }
      v := Value32(data[pos..pos + 4]);
      pos := pos + 4;
    }

    /** Copies `n` bytes out and skips their padding; fails when the parcel is too short. */
    method Read(buf: array<byte>, n: nat) returns (status: int)
      requires Valid() && n <= buf.Length
      modifies this`pos, buf
      ensures Valid()
      ensures old(pos) + Padded(n) <= |data| ==>
                && status == NO_ERROR && pos == old(pos) + Padded(n)
                && buf[..n] == data[old(pos)..old(pos) + n] && buf[n..] == old(buf[n..])
      ensures old(pos) + Padded(n) > |data| ==> status != NO_ERROR && pos == old(pos) && buf[..] == old(buf[..])
    {
      if pos + Padded(n) > |data| {
        return BAD_VALUE;
      }
      forall i | 0 <= i < n {
        buf[i] := data[pos + i];
      }
      pos := pos + Padded(n);
      status := NO_ERROR;
    }
  }

  // ---------- the service and its stub ----------

  /** The service passes a negative code on and turns everything else into NO_ERROR. */
  function ServiceStatus(result: uint32): int {
    if Negated(result) < 0 then Negated(result) else NO_ERROR
  }

  /** In terms of the TEE's result: its negative below 0x80000001, and NO_ERROR for all others. */
  lemma ServiceStatusExactly(result: uint32)
    ensures ServiceStatus(result) == if 0 < result <= 0x8000_0000 then 0 - result as int else 0
  {
    NegatedIsTheNegative(result);
  }

  /** The content and length that the service hands to the stub when it reports NO_ERROR: the
      answer in a zero-filled buffer, or for a masked error the zeros alone at full length. */
  function Delivered(o: TeeOutcome, len: uint32): (seq<byte>, uint32)
    requires |o.answer| <= len
  {
    if SessionResult(o) == TEEC_SUCCESS then (o.answer + Zeros(len - |o.answer|), |o.answer|)
    else (Zeros(len), len)
  }

  method ServiceGetEseCplc(tee: Tee, cplcBuf: array?<byte>, len: uint32, o: TeeOutcome)
    returns (ret: int, len': uint32)
    requires tee.held == {} && |o.answer| <= len
    requires cplcBuf != null ==> len == cplcBuf.Length
    modifies tee, cplcBuf
    ensures tee.held == {}
    ensures cplcBuf == null || len == 0 ==> ret == -22 && len' == len
    ensures cplcBuf != null && len > 0 ==>
              && ret == ServiceStatus(SessionResult(o))
              && tee.trace == old(tee.trace) + SessionTrace(GET_CPLC, len, o)
              && (old(cplcBuf[..]) == Zeros(len) ==> (cplcBuf[..], len') == Delivered(o, len))
  {
    if cplcBuf == null || len == 0 {
      return BAD_VALUE, len;
    }
    ghost var before := cplcBuf[..];
    ret, len' := CaGetEseCplc(tee, cplcBuf, len, o);
    if SessionResult(o) == TEEC_SUCCESS {
      assert cplcBuf[..] == cplcBuf[..len'] + cplcBuf[len'..];
      assert before == Zeros(len) ==> before[|o.answer|..] == Zeros(len - |o.answer|);
    }
    if ret < 0 {
      return;
    }
    ret := NO_ERROR;
  }

  /** What readUint32 gives at the parcel's position: 0 when the parcel ends before it. */
  function WordAt(data: seq<byte>, pos: nat): uint32 {
    if pos + 4 <= |data| then Value32(data[pos..pos + 4]) else 0
  }

  /** A reply parcel: the buffer with its padding, then the length. */
  function ReplyBytes(content: seq<byte>, len: uint32): seq<byte> {
    content + Zeros(Padded(|content|) - |content|) + Bytes32(len)
  }

  /** The layout: the content first, zeros up to a multiple of four, and four bytes that are the
      length, low byte first. */
  lemma ReplyLayout(content: seq<byte>, len: uint32)
    ensures var reply := ReplyBytes(content, len);
            var at := |reply| - 4;
            && |content| <= at < |content| + 4 && at % 4 == 0
            && reply[..|content|] == content
            && (forall i :: |content| <= i < at ==> reply[i] == 0)
            && reply[at] as int + 0x100 * reply[at + 1] as int + 0x1_0000 * reply[at + 2] as int
                 + 0x100_0000 * reply[at + 3] as int == len
  {
    WordRoundTrip(len);
  }

  /** The buffer's content goes into the room made for it, in front of the padding. */
  method FillRoom(reply: Parcel, at: nat, content: seq<byte>)
    requires at == 0 && reply.data == Zeros(Padded(|content|))
    modifies reply`data
    ensures reply.data == content + Zeros(Padded(|content|) - |content|)
  {
    reply.Fill(at, content);
  }

  /** The stub once it knows the length: room in the reply, the service's answer, its length. */
  method AnswerInto(tee: Tee, reply: Parcel, len: uint32, o: TeeOutcome) returns (status: int)
    requires tee.held == {} && reply.data == [] && len > 0 && |o.answer| <= len
    modifies tee, reply`data
    ensures tee.held == {}
    ensures status == ServiceStatus(SessionResult(o))
    ensures tee.trace == old(tee.trace) + SessionTrace(GET_CPLC, len, o)
    ensures status == NO_ERROR ==> reply.data == ReplyBytes(Delivered(o, len).0, Delivered(o, len).1)
  {
    var at := reply.WriteInplace(len);
    assert [] + Zeros(Padded(len)) == Zeros(Padded(len));
    var cplcBuf := new byte[len](_ => 0);
    assert cplcBuf[..] == Zeros(len);
    var actual;
    status, actual := ServiceGetEseCplc(tee, cplcBuf, len, o);
    FillRoom(reply, at, cplcBuf[..]);
    if status == NO_ERROR {
      reply.WriteUint32(actual);
    }
  }

  method OnTransactGetCplc(tee: Tee, data: Parcel, reply: Parcel, o: TeeOutcome) returns (status: int)
    requires tee.held == {} && data != reply && data.Valid() && reply.data == []
    requires WordAt(data.data, data.pos) > 0 ==> |o.answer| <= WordAt(data.data, data.pos)
    modifies tee, data, reply
    ensures tee.held == {}
    ensures reply.pos == old(reply.pos)
    ensures var len := old(WordAt(data.data, data.pos));
            && (len == 0 ==> status == -22)
            && (len > 0 ==> status == ServiceStatus(SessionResult(o)))
            && tee.trace == old(tee.trace) + (if len > 0 then SessionTrace(GET_CPLC, len, o) else [])
            && (status == NO_ERROR ==> reply.data == ReplyBytes(Delivered(o, len).0, Delivered(o, len).1))
  {
    var cplcLen := data.ReadUint32();
    if cplcLen == 0 {
      return BAD_VALUE;
    }
    status := AnswerInto(tee, reply, cplcLen, o);
  }

  // ---------- the proxy ----------

  /** The return value of the proxy: its own, the transport's or the stub's. */
  function ProxyStatus(transport: int, o: TeeOutcome): int {
    if transport != NO_ERROR then transport else ServiceStatus(SessionResult(o))
  }

  /** The proxy's reading of a reply takes exactly what the stub wrote. */
  method ReadReply(reply: Parcel, cplcBuf: array<byte>, ghost content: seq<byte>, ghost len: uint32)
    returns (status: int, len': uint32)
    requires reply.pos == 0 && reply.data == ReplyBytes(content, len) && |content| == cplcBuf.Length
    modifies reply, cplcBuf
    ensures status == NO_ERROR && cplcBuf[..] == content && len' == len
  {
    ghost var n, wire := |content|, reply.data;
    assert wire[0..n] == content;
    assert wire[Padded(n)..Padded(n) + 4] == Bytes32(len);
    WordRoundTrip(len);
    status := reply.Read(cplcBuf, cplcBuf.Length);
    assert cplcBuf[..] == cplcBuf[..n];
    len' := reply.ReadUint32();
  }

  method ProxyGetEseCplc(tee: Tee, cplcBuf: array?<byte>, len: uint32, transport: int, o: TeeOutcome)
    returns (ret: int, len': uint32)
    requires tee.held == {} && |o.answer| <= len
    requires cplcBuf != null ==> len == cplcBuf.Length
    modifies tee, cplcBuf
    ensures tee.held == {}
    ensures cplcBuf == null || len == 0 ==> ret == -22 && len' == len
    ensures cplcBuf != null && len > 0 ==>
              && ret == ProxyStatus(transport, o)
              && tee.trace == old(tee.trace) + (if transport == NO_ERROR then SessionTrace(GET_CPLC, len, o) else [])
              && (cplcBuf[..], len') == if ret == NO_ERROR then Delivered(o, len) else (Zeros(len), len)
  {
    len' := len;
    if cplcBuf == null || len == 0 {
      return BAD_VALUE, len;
    }
    forall i | 0 <= i < len {
      cplcBuf[i] := 0;
    }
    assert cplcBuf[..] == Zeros(len);
    var data := new Parcel();
    var reply := new Parcel();
    data.WriteUint32(len);
    WordRoundTrip(len);
    assert data.data[0..4] == Bytes32(len);
    ret := transport;
    if transport == NO_ERROR {
      ret := OnTransactGetCplc(tee, data, reply, o);
    }
    if ret != NO_ERROR {
      return;
    }
    ret, len' := ReadReply(reply, cplcBuf, Delivered(o, len).0, Delivered(o, len).1);
  }

  // ---------- the native methods ----------

  predicate PowerGranted(s: PowerState, c: Caller, o: Outcome) {
    Step(s, PowerOn(c, o)).1 == 1
  }

  /** One round of the client protocol, as `Clients.AfterRound` has it. */
  function AfterFetch(s: PowerState, c: Caller, on: Outcome, off: Outcome): PowerState {
    AfterRound(s, c, Round(on, NO_ERROR, CPLC_CAPACITY, off))
  }

  /** Power on, fetch into a zeroed buffer of 100 bytes, power off. The chip is asked exactly when
      power was granted and the transport worked; `poweredUse` is whether chip and node were on
      when it was asked, and all through. */
  method FetchCplc(pm: ESEPowerManager, tee: Tee, c: Caller, on: Outcome, off: Outcome, transport: int, o: TeeOutcome)
    returns (granted: bool, ret: int, rCplc: seq<byte>, len: uint32, ghost poweredUse: bool)
    requires pm.Valid() && tee.held == {} && |o.answer| <= CPLC_CAPACITY
    modifies pm, pm.driver, tee
    ensures pm.Valid() && tee.held == {}
    ensures pm.View() == AfterFetch(old(pm.View()), c, on, off)
    ensures granted == PowerGranted(old(pm.View()), c, on)
    ensures poweredUse <==> granted
    ensures tee.trace == old(tee.trace) + if granted && transport == NO_ERROR
                                          then SessionTrace(GET_CPLC, CPLC_CAPACITY, o) else []
    ensures granted ==>
              && ret == ProxyStatus(transport, o)
              && (rCplc, len) == if ret == NO_ERROR then Delivered(o, CPLC_CAPACITY)
                                 else (Zeros(CPLC_CAPACITY), CPLC_CAPACITY)
  {
    rCplc, len, poweredUse := [], CPLC_CAPACITY, false;
    PowerOnReply(pm.View(), c, on);
    ret := pm.PowerOn(c, on);
    granted := ret >= 0;
    if ret < 0 {
      return;
    }
    assert c.pid in pm.pidsMap;
    poweredUse := pm.driver.chip.spi && pm.nqNode >= 0;
    var buf := new byte[CPLC_CAPACITY](_ => 0);
    ret, len := ProxyGetEseCplc(tee, buf, len, transport, o);
    rCplc := buf[..];
    poweredUse := poweredUse && pm.driver.chip.spi && pm.nqNode >= 0;
    var _ := pm.PowerOff(c, off);
  }

  /** `native_eseValidateChipLegality` says yes exactly when power was granted, the transport worked
      and all five results of the TEE session were success with an answer of at least 47 bytes, 47 90
      in positions 3 and 4. A masked error is no exception: it only delivers zeros. */
  method ValidateChipLegality(pm: ESEPowerManager, tee: Tee, c: Caller, on: Outcome, off: Outcome, transport: int, o: TeeOutcome)
    returns (legal: bool)
    requires pm.Valid() && tee.held == {} && |o.answer| <= CPLC_CAPACITY
    modifies pm, pm.driver, tee
    ensures pm.Valid() && tee.held == {}
    ensures pm.View() == AfterFetch(old(pm.View()), c, on, off)
    ensures legal <==>
              && Step(old(pm.View()), PowerOn(c, on)).1 == 1
              && transport == 0
              && o.context == o.session == o.input == o.output == o.invoke == 0
              && |o.answer| >= 47 && o.answer[3] == 0x47 && o.answer[4] == 0x90
    ensures |o.answer| == 46 || (|o.answer| >= 5 && o.answer[3] == 0x90 && o.answer[4] == 0x47) ==> !legal
  {
    var granted, ret, rCplc, len, _ := FetchCplc(pm, tee, c, on, off, transport, o);
    if !granted || ret < 0 {
      return false;
    }
    if len < CPLC_LENGTH {
      return false;
    }
    if rCplc[3] != 0x47 || rCplc[4] != 0x90 {
      return false;
    }
    return true;
  }

  datatype JavaArray = Null | Array(bytes: seq<byte>)

  /** `native_eseGetCplc` returns the TEE's answer exactly when everything worked. A masked TEE
      error is not null to Java but a hundred zero bytes. */
  method GetCplcArray(pm: ESEPowerManager, tee: Tee, c: Caller, on: Outcome, off: Outcome, transport: int, o: TeeOutcome)
    returns (open: JavaArray)
    requires pm.Valid() && tee.held == {} && |o.answer| <= CPLC_CAPACITY
    modifies pm, pm.driver, tee
    ensures pm.Valid() && tee.held == {}
    ensures pm.View() == AfterFetch(old(pm.View()), c, on, off)
    ensures open == if Step(old(pm.View()), PowerOn(c, on)).1 != 1 || transport < 0 then Null
                    else if transport > 0 || SessionResult(o) > 0x8000_0000 then Array(Zeros(100))
                    else if SessionResult(o) != 0 then Null
                    else Array(o.answer)
  {
    MaskedExactly(SessionResult(o));
    var granted, ret, rCplc, len, _ := FetchCplc(pm, tee, c, on, off, transport, o);
    if !granted || ret < 0 {
      return Null;
    }
    return Array(rCplc[..len]);
  }
}
