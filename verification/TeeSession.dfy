/** The TEE client session that fetches an answer from the trusted application, with its staged
    cleanup (sections 4.5.2 to 4.5.9 of the GlobalPlatform TEE Client API Specification v1.0). */
module TeeSession {
  import opened EsePort

  type uint32 = x: int | 0 <= x < 0x1_0000_0000

  const TEEC_SUCCESS: uint32 := 0
  const INIT_CONTEXT_FAILED: uint32 := 100
  const OPEN_SESSION_FAILED: uint32 := 101
  const EINVAL := 22

  /** GET DATA for the CPLC. */
  const GET_CPLC: seq<byte> := [0x80, 0xCA, 0x9F, 0x7F, 0x00]

  datatype Resource = Context | Session | InputBlock | OutputBlock

  datatype TeeEvent = Acquire(r: Resource) | Invoke(command: seq<byte>, capacity: nat) | Free(r: Resource)

  /** The results of the five calls that can fail, and what the trusted application answers. */
  datatype TeeOutcome = TeeOutcome(
    context: uint32, session: uint32, input: uint32, output: uint32, invoke: uint32, answer: seq<byte>)

  /** The TEE client library. The preconditions of its calls are the specification's programmer
      errors; `trace` is the history of what was acquired, used and freed. */
  class Tee {
    ghost var held: set<Resource>
    ghost var trace: seq<TeeEvent>

    constructor ()
      ensures held == {} && trace == []
    {
      held, trace := {}, [];
    }

    method InitializeContext(result: uint32) returns (r: uint32)
      requires Context !in held
      modifies this
      ensures r == result
      ensures held == old(held) + if result == TEEC_SUCCESS then {Context} else {}
      ensures trace == old(trace) + if result == TEEC_SUCCESS then [Acquire(Context)] else []
    {
      r := result;
      if r == TEEC_SUCCESS {
        held, trace := held + {Context}, trace + [Acquire(Context)];
      }
    }

    method OpenSession(result: uint32) returns (r: uint32)
      requires Context in held && Session !in held
      modifies this
      ensures r == result
      ensures held == old(held) + if result == TEEC_SUCCESS then {Session} else {}
      ensures trace == old(trace) + if result == TEEC_SUCCESS then [Acquire(Session)] else []
    {
      r := result;
      if r == TEEC_SUCCESS {
        held, trace := held + {Session}, trace + [Acquire(Session)];
      }
    }

    method AllocateSharedMemory(block: Resource, result: uint32) returns (r: uint32)
      requires block == InputBlock || block == OutputBlock
      requires Context in held && block !in held
      modifies this
      ensures r == result
      ensures held == old(held) + if result == TEEC_SUCCESS then {block} else {}
      ensures trace == old(trace) + if result == TEEC_SUCCESS then [Acquire(block)] else []
    {
      r := result;
      if r == TEEC_SUCCESS {
        held, trace := held + {block}, trace + [Acquire(block)];
      }
    }

    method InvokeCommand(command: seq<byte>, capacity: nat, o: TeeOutcome) returns (r: uint32, answer: seq<byte>)
      requires {Context, Session, InputBlock, OutputBlock} <= held
      requires |o.answer| <= capacity
      modifies this`trace
      ensures r == o.invoke
      ensures answer == if o.invoke == TEEC_SUCCESS then o.answer else []
      ensures trace == old(trace) + [Invoke(command, capacity)]
    {
      r, answer := o.invoke, if o.invoke == TEEC_SUCCESS then o.answer else [];
      trace := trace + [Invoke(command, capacity)];
    }

    /** Releasing a block that was never allocated does nothing. */
    method ReleaseSharedMemory(block: Resource)
      requires Context in held
      modifies this
      ensures held == old(held) - {block}
      ensures trace == old(trace) + if block in old(held) then [Free(block)] else []
    {
      if block in held {
        trace := trace + [Free(block)];
      }
      held := held - {block};
    }

    method CloseSession()
      requires Session in held
      modifies this
      ensures held == old(held) - {Session}
      ensures trace == old(trace) + [Free(Session)]
    {
      held, trace := held - {Session}, trace + [Free(Session)];
    }

    /** Only without open sessions and allocated blocks. */
    method FinalizeContext()
      requires held == {Context}
      modifies this
      ensures held == {}
      ensures trace == old(trace) + [Free(Context)]
    {
      held, trace := {}, trace + [Free(Context)];
    }
  }

  // ---------- what a session does ----------

  const STAGES: seq<Resource> := [Context, Session, InputBlock, OutputBlock]

  /** How many of the four stages succeed. */
  function Reached(o: TeeOutcome): (n: nat)
    ensures n <= 4
  {
    if o.context != TEEC_SUCCESS then 0
    else if o.session != TEEC_SUCCESS then 1
    else if o.input != TEEC_SUCCESS then 2
    else if o.output != TEEC_SUCCESS then 3
    else 4
  }

  /** Each resource is acquired, whatever comes inside happens, and the resource is freed. */
  function Nested(rs: seq<Resource>, inner: seq<TeeEvent>): seq<TeeEvent> {
    if rs == [] then inner else [Acquire(rs[0])] + Nested(rs[1..], inner) + [Free(rs[0])]
  }

  /** The stages that succeed, nested, around the use of all of them. */
  function SessionTrace(command: seq<byte>, capacity: nat, o: TeeOutcome): seq<TeeEvent> {
    Nested(STAGES[..Reached(o)], if Reached(o) == 4 then [Invoke(command, capacity)] else [])
  }

  /** The first failure, as the library code reports it. */
  function SessionResult(o: TeeOutcome): uint32 {
    match Reached(o)
    case 0 => INIT_CONTEXT_FAILED
    case 1 => OPEN_SESSION_FAILED
    case 2 => o.input
    case 3 => o.output
    case _ => o.invoke
  }

  lemma NestedOne(r: Resource, rs: seq<Resource>, inner: seq<TeeEvent>)
    ensures Nested([r] + rs, inner) == [Acquire(r)] + Nested(rs, inner) + [Free(r)]
  {
    assert ([r] + rs)[1..] == rs;
  }

  /** What happens between opening and closing the session. */
  function InnerTrace(command: seq<byte>, capacity: nat, o: TeeOutcome): seq<TeeEvent> {
    match Reached(o)
    case 3 => [Acquire(InputBlock), Free(InputBlock)]
    case 4 => [Acquire(InputBlock), Acquire(OutputBlock), Invoke(command, capacity), Free(OutputBlock), Free(InputBlock)]
    case _ => []
  }

  lemma InnerIsNested(command: seq<byte>, capacity: nat, o: TeeOutcome)
    requires Reached(o) >= 2
    ensures InnerTrace(command, capacity, o)
         == Nested(STAGES[2..Reached(o)], if Reached(o) == 4 then [Invoke(command, capacity)] else [])
  {
    var use := if Reached(o) == 4 then [Invoke(command, capacity)] else [];
    if Reached(o) == 3 {
      assert STAGES[2..3] == [InputBlock] + [];
      NestedOne(InputBlock, [], use);
    } else if Reached(o) == 4 {
      assert STAGES[2..4] == [InputBlock] + [OutputBlock] && [OutputBlock] == [OutputBlock] + [];
      NestedOne(OutputBlock, [], use);
      NestedOne(InputBlock, [OutputBlock], use);
    }
  }

  lemma TraceByStage(command: seq<byte>, capacity: nat, o: TeeOutcome)
    ensures var t := SessionTrace(command, capacity, o);
            match Reached(o)
            case 0 => t == []
            case 1 => t == [Acquire(Context), Free(Context)]
            case _ => t == [Acquire(Context), Acquire(Session)] + InnerTrace(command, capacity, o)
                           + [Free(Session), Free(Context)]
  {
    var n := Reached(o);
    var use := if n == 4 then [Invoke(command, capacity)] else [];
    if n == 1 {
      assert STAGES[..1] == [Context] + [];
      NestedOne(Context, [], use);
    } else if n >= 2 {
      InnerIsNested(command, capacity, o);
      assert STAGES[1..n] == [Session] + STAGES[2..n];
      assert STAGES[..n] == [Context] + STAGES[1..n];
      NestedOne(Session, STAGES[2..n], use);
      NestedOne(Context, STAGES[1..n], use);
    }
  }

  /** The trace and the result of a session in terms of the five results it meets. */
  lemma SessionByItsResults(command: seq<byte>, capacity: nat, o: TeeOutcome)
    ensures var t, r := SessionTrace(command, capacity, o), SessionResult(o);
            && (o.context != 0 ==> t == [] && r == 100)
            && (o.context == 0 && o.session != 0 ==>
                  t == [Acquire(Context), Free(Context)] && r == 101)
            && (o.context == o.session == 0 && o.input != 0 ==>
                  t == [Acquire(Context), Acquire(Session), Free(Session), Free(Context)] && r == o.input)
            && (o.context == o.session == o.input == 0 && o.output != 0 ==>
                  && t == [Acquire(Context), Acquire(Session), Acquire(InputBlock),
                           Free(InputBlock), Free(Session), Free(Context)]
                  && r == o.output)
            && (o.context == o.session == o.input == o.output == 0 ==>
                  && t == [Acquire(Context), Acquire(Session), Acquire(InputBlock), Acquire(OutputBlock),
                           Invoke(command, capacity),
                           Free(OutputBlock), Free(InputBlock), Free(Session), Free(Context)]
                  && r == o.invoke)
  {
    TraceByStage(command, capacity, o);
  }

  /** How often a resource was acquired, and how often it was freed. */
  function Count(trace: seq<TeeEvent>, e: TeeEvent): nat {
    if trace == [] then 0 else (if trace[0] == e then 1 else 0) + Count(trace[1..], e)
  }

  method Init(tee: Tee, o: TeeOutcome) returns (ret: uint32)
    requires tee.held == {}
    modifies tee
    ensures ret == match Reached(o) case 0 => INIT_CONTEXT_FAILED case 1 => OPEN_SESSION_FAILED case _ => 0
    ensures tee.held == match Reached(o) case 0 => {} case 1 => {Context} case _ => {Context, Session}
    ensures tee.trace == old(tee.trace) + match Reached(o)
                                          case 0 => []
                                          case 1 => [Acquire(Context)]
                                          case _ => [Acquire(Context), Acquire(Session)]
  {
    var result := tee.InitializeContext(o.context);
    if result != TEEC_SUCCESS {
      return INIT_CONTEXT_FAILED;
    }
    result := tee.OpenSession(o.session);
    if result != TEEC_SUCCESS {
      return OPEN_SESSION_FAILED;
    }
    return 0;
  }

  /** From the first allocation to the last release. */
  method Exchange(tee: Tee, command: seq<byte>, capacity: nat, o: TeeOutcome)
    returns (result: uint32, answer: seq<byte>)
    requires tee.held == {Context, Session} && |o.answer| <= capacity && Reached(o) >= 2
    modifies tee
    ensures tee.held == {Context, Session}
    ensures tee.trace == old(tee.trace) + InnerTrace(command, capacity, o)
    ensures result == SessionResult(o)
    ensures answer == if result == TEEC_SUCCESS then o.answer else []
  {
    answer := [];
    label Cleanup4: {
      label Cleanup5: {
        result := tee.AllocateSharedMemory(InputBlock, o.input);
        if result != TEEC_SUCCESS {
          break Cleanup4;
        }
        result := tee.AllocateSharedMemory(OutputBlock, o.output);
        if result != TEEC_SUCCESS {
          break Cleanup5;
        }
        result, answer := tee.InvokeCommand(command, capacity, o);
      }
      tee.ReleaseSharedMemory(OutputBlock);
    }
    tee.ReleaseSharedMemory(InputBlock);
  }

  /** The common body of ca_sendEseCommand and ca_getEseCplc: whatever fails, everything acquired
      is freed exactly once, backwards, and no call breaks the rules of the library. */
  method RunSession(tee: Tee, command: seq<byte>, capacity: nat, o: TeeOutcome)
    returns (result: uint32, answer: seq<byte>)
    requires tee.held == {} && |o.answer| <= capacity
    modifies tee
    ensures tee.held == {}
    ensures tee.trace == old(tee.trace) + SessionTrace(command, capacity, o)
    ensures result == SessionResult(o)
    ensures answer == if result == TEEC_SUCCESS then o.answer else []
  {
    TraceByStage(command, capacity, o);
    answer := [];
    label Cleanup1: {
      label Cleanup2: {
        var ret := Init(tee, o);
        if ret == INIT_CONTEXT_FAILED {
          result := INIT_CONTEXT_FAILED;
          break Cleanup1;
        } else if ret == OPEN_SESSION_FAILED {
          result := OPEN_SESSION_FAILED;
          break Cleanup2;
        }
        result, answer := Exchange(tee, command, capacity, o);
        tee.CloseSession();
      }
      assert tee.held == {Context};
      tee.FinalizeContext();
    }
  }

  lemma {:induction false} CountAppend(s: seq<TeeEvent>, t: seq<TeeEvent>, e: TeeEvent)
    ensures Count(s + t, e) == Count(s, e) + Count(t, e)
  {
    if s == [] {
      assert s + t == t;
    } else {
      assert (s + t)[1..] == s[1..] + t;
      CountAppend(s[1..], t, e);
    }
  }

  predicate Distinct(rs: seq<Resource>) {
    forall i, j :: 0 <= i < j < |rs| ==> rs[i] != rs[j]
  }

  lemma {:induction false} NestedCounts(rs: seq<Resource>, inner: seq<TeeEvent>, r: Resource)
    requires Distinct(rs)
    ensures Count(Nested(rs, inner), Acquire(r)) == Count(inner, Acquire(r)) + if r in rs then 1 else 0
    ensures Count(Nested(rs, inner), Free(r)) == Count(inner, Free(r)) + if r in rs then 1 else 0
  {
    if rs != [] {
      var middle := Nested(rs[1..], inner);
      NestedCounts(rs[1..], inner, r);
      CountAppend([Acquire(rs[0])], middle, Acquire(r));
      CountAppend([Acquire(rs[0])], middle, Free(r));
      CountAppend([Acquire(rs[0])] + middle, [Free(rs[0])], Acquire(r));
      CountAppend([Acquire(rs[0])] + middle, [Free(rs[0])], Free(r));
    }
  }

  /** Nothing leaks and nothing is freed twice: over a session each resource is freed as often as
      it was acquired, which is at most once. */
  lemma SessionsBalance(command: seq<byte>, capacity: nat, o: TeeOutcome, r: Resource)
    ensures var t := SessionTrace(command, capacity, o);
            Count(t, Acquire(r)) == Count(t, Free(r)) == (if r in STAGES[..Reached(o)] then 1 else 0)
  {
    NestedCounts(STAGES[..Reached(o)], if Reached(o) == 4 then [Invoke(command, capacity)] else [], r);
  }

  // ---------- the return code ----------

  /** `0 - result` in unsigned arithmetic, read as a signed 32-bit number. */
  function Negated(result: uint32): int {
    var u := (0x1_0000_0000 - result) % 0x1_0000_0000;
    if u < 0x8000_0000 then u else u - 0x1_0000_0000
  }

  /** It is the negative of `result` modulo 2^32 that fits an int. */
  lemma NegatedIsTheNegative(result: uint32)
    ensures -0x8000_0000 <= Negated(result) < 0x8000_0000
    ensures (Negated(result) + result) % 0x1_0000_0000 == 0
    ensures result <= 0x8000_0000 ==> Negated(result) == 0 - result as int
    ensures result > 0x8000_0000 ==> Negated(result) == 0x1_0000_0000 - result
  {
  }

  /** The callers' test `ret < 0` misses exactly the codes above 0x80000000, and so every error
      code of the TEE, which are 0xFFFFxxxx. */
  lemma MaskedExactly(result: uint32)
    ensures Negated(result) >= 0 <==> result == TEEC_SUCCESS || result > 0x8000_0000
    ensures Negated(result) == 0 <==> result == TEEC_SUCCESS
  {
  }

  /** When the trusted application refuses the command with TEEC_ERROR_BAD_PARAMETERS, the session
      has failed and its return code is positive. */
  lemma BadParametersLooksLikeSuccess(answer: seq<byte>)
    ensures var o := TeeOutcome(TEEC_SUCCESS, TEEC_SUCCESS, TEEC_SUCCESS, TEEC_SUCCESS, 0xFFFF_0006, answer);
            SessionResult(o) != TEEC_SUCCESS && Negated(SessionResult(o)) == 0xFFFA
  {
  }

  // ---------- the two entry points ----------

  /** memcpy(buf, answer, |answer|) */
  method Copy(buf: array<byte>, answer: seq<byte>)
    requires |answer| <= buf.Length
    modifies buf
    ensures buf[..|answer|] == answer
    ensures buf[|answer|..] == old(buf[|answer|..])
  {
    forall i | 0 <= i < |answer| {
      buf[i] := answer[i];
    }
    assert forall i :: |answer| <= i < buf.Length ==> buf[i] == old(buf[i]);
  }

  /** `ca_getEseCplc`: `len` is *cplc_len before, `len'` after the call. */
  method CaGetEseCplc(tee: Tee, cplcBuf: array?<byte>, len: uint32, o: TeeOutcome) returns (ret: int, len': uint32)
    requires tee.held == {} && |o.answer| <= len
    requires cplcBuf != null ==> len <= cplcBuf.Length
    modifies tee, cplcBuf
    ensures tee.held == {}
    ensures cplcBuf == null || len == 0 ==> ret == -22 && len' == len && tee.trace == old(tee.trace)
    ensures cplcBuf != null && len > 0 ==>
              && ret == Negated(SessionResult(o))
              && tee.trace == old(tee.trace) + SessionTrace([0x80, 0xCA, 0x9F, 0x7F, 0x00], len, o)
              && (SessionResult(o) == TEEC_SUCCESS ==>
                    && len' == |o.answer|
                    && cplcBuf[..len'] == o.answer && cplcBuf[len'..] == old(cplcBuf[|o.answer|..]))
              && (SessionResult(o) != TEEC_SUCCESS ==> len' == len && cplcBuf[..] == old(cplcBuf[..]))
  {
    len' := len;
    if cplcBuf == null || len == 0 {
      return -EINVAL, len;
    }
    var result, answer := RunSession(tee, GET_CPLC, len, o);
    if result == TEEC_SUCCESS {
      len' := |answer|;
      Copy(cplcBuf, answer);
    }
    ret := Negated(result);
  }

  datatype SendCmd = NoCmd | SendCmd(cmdLen: nat, tApdu: seq<byte>)

  class SendCmdRsp {
    var rspLen: nat
    const rApdu: array<byte>

    constructor ()
      ensures fresh(rApdu) && rApdu.Length == 200
    {
      rspLen := 0;
      rApdu := new byte[200];
    }
  }

  /** `ca_sendEseCommand`; either record may be missing. */
  method CaSendEseCommand(tee: Tee, cmd: SendCmd, cmdLen: nat, rsp: SendCmdRsp?, rspLen: nat, o: TeeOutcome)
    returns (ret: int)
    requires tee.held == {} && |o.answer| <= rspLen
    requires cmd.SendCmd? ==> cmd.cmdLen <= |cmd.tApdu|
    requires rsp != null ==> |o.answer| <= rsp.rApdu.Length
    modifies tee, rsp, if rsp == null then {} else {rsp.rApdu}
    ensures tee.held == {}
    ensures var missing := cmd.NoCmd? || rsp == null || cmdLen == 0 || rspLen == 0;
            && (missing ==> ret == -1 && tee.trace == old(tee.trace))
            && (!missing ==>
                  && ret == Negated(SessionResult(o))
                  && tee.trace == old(tee.trace) + SessionTrace(cmd.tApdu[..cmd.cmdLen], rspLen, o)
                  && (SessionResult(o) == TEEC_SUCCESS ==>
                        && rsp.rspLen == |o.answer| && rsp.rApdu[..|o.answer|] == o.answer
                        && rsp.rApdu[|o.answer|..] == old(rsp.rApdu[|o.answer|..]))
                  && (SessionResult(o) != TEEC_SUCCESS ==>
                        rsp.rspLen == old(rsp.rspLen) && rsp.rApdu[..] == old(rsp.rApdu[..])))
  {
    if cmd.NoCmd? || rsp == null || cmdLen == 0 || rspLen == 0 {
      return -1;
    }
    var result, answer := RunSession(tee, cmd.tApdu[..cmd.cmdLen], rspLen, o);
    if result == TEEC_SUCCESS {
      rsp.rspLen := |answer|;
      Copy(rsp.rApdu, answer);
    }
    ret := Negated(result);
  }
}
