/** The NCI exchange with the NFC controller: packets with a three-byte header (section 3.4 of the
    NFC Forum NCI specification) read into one reused buffer. */
module NciExchange {
  import opened EsePort

  const NCI_BUFFER: nat := 255

  /** CORE_CONN_CREDITS_NTF for one credit on connection 3. */
  const CREDITS: seq<byte> := [0x60, 0x06, 0x03, 0x01, 0x03, 0x01]

  /** What one receive takes from the input: a packet, or the three bytes of a header that starts
      with 0x51, after which the receiver gives up. */
  datatype Unit = Packet(h0: byte, h1: byte, payload: seq<byte>) | Garbled(h1: byte, h2: byte)

  const CREDITS_NTF: Unit := Packet(0x60, 0x06, [0x01, 0x03, 0x01])

  predicate Valid(u: Unit) {
    u.Packet? ==> u.h0 != 0x51 && |u.payload| <= 252
  }

  function Wire(u: Unit): seq<byte>
    requires Valid(u)
  {
    match u
    case Packet(h0, h1, payload) => [h0, h1, |payload|] + payload
    case Garbled(h1, h2) => [0x51, h1, h2]
  }

  /** The units are exactly what one receive takes from any input: three bytes that begin with 0x51,
      or a header that begins otherwise and as many bytes more as its third byte says, up to 252. */
  lemma EveryReceiveIsAUnit(w: seq<byte>) returns (u: Unit)
    requires |w| >= 3
    requires if w[0] == 0x51 then |w| == 3 else w[2] <= 252 && |w| == 3 + w[2]
    ensures Valid(u) && Wire(u) == w && (u.Garbled? <==> w[0] == 0x51)
  {
    u := if w[0] == 0x51 then Garbled(w[1], w[2]) else Packet(w[0], w[1], w[3..]);
  }

  lemma EveryUnitIsAReceive(u: Unit)
    requires Valid(u)
    ensures var w := Wire(u);
            |w| >= 3 && if w[0] == 0x51 then u.Garbled? && |w| == 3 else u.Packet? && w[2] <= 252 && |w| == 3 + w[2]
  {
  }

  predicate AllValid(us: seq<Unit>) {
    forall k :: 0 <= k < |us| ==> Valid(us[k])
  }

  function WireAll(us: seq<Unit>, rest: seq<byte>): seq<byte>
    requires AllValid(us)
  {
    if us == [] then rest else Wire(us[0]) + WireAll(us[1..], rest)
  }

  /** Two units with the same six leading bytes as the credits notification are that notification,
      whatever a shorter unit has behind it. */
  lemma OnlyCreditsLookLikeCredits(u: Unit, stale: seq<byte>)
    requires Valid(u) && |Wire(u) + stale| >= 6
    ensures (Wire(u) + stale)[..6] == CREDITS <==> u == CREDITS_NTF
  {
    var b := (Wire(u) + stale)[..6];
    if b == CREDITS {
      assert b[0] == 0x60 && b[1] == 0x06 && b[2] == 0x03;
      assert b[3..] == u.payload;
      assert CREDITS[3..] == [0x01, 0x03, 0x01];
    }
    if u == CREDITS_NTF {
      assert Wire(u) == CREDITS;
    }
  }

  /** So the comparison is right on any buffer that begins with the packet. */
  lemma ComparisonIsRight(u: Unit, buffer: seq<byte>)
    requires Valid(u) && |buffer| == NCI_BUFFER
    requires forall i :: 0 <= i < |Wire(u)| ==> buffer[i] == Wire(u)[i]
    ensures buffer[..|Wire(u)|] == Wire(u)
    ensures buffer[..6] == CREDITS <==> u == CREDITS_NTF
    ensures buffer[0] == 0x03 <==> u.Packet? && u.h0 == 0x03
  {
    var n := |Wire(u)|;
    assert buffer[..n] == Wire(u);
    assert buffer == Wire(u) + buffer[n..];
    OnlyCreditsLookLikeCredits(u, buffer[n..]);
  }

  /** The buffer holds the first `n` bytes of a packet, and `before` behind them. */
  ghost predicate Holds(recvData: array<byte>, wire: seq<byte>, n: nat, before: seq<byte>)
    reads recvData
  {
    && recvData.Length == NCI_BUFFER == |before| && n <= |wire| <= NCI_BUFFER
    && forall i :: 0 <= i < NCI_BUFFER ==> recvData[i] == if i < n then wire[i] else before[i]
  }

  /** memset(recv_data, 0, n) */
  method Clear(recvData: array<byte>, n: nat)
    requires n <= recvData.Length
    modifies recvData
    ensures forall i :: 0 <= i < recvData.Length ==> recvData[i] == if i < n then 0 else old(recvData[i])
  {
    forall i | 0 <= i < n {
      recvData[i] := 0;
    }
  }

  /** One read of the next `want` bytes of the packet. */
  method ReadNext(port: Port, recvData: array<byte>, at: nat, want: nat,
        ghost wire: seq<byte>, ghost rest: seq<byte>, ghost before: seq<byte>)
    returns (got: nat)
    requires Holds(recvData, wire, at, before) && at + want <= |wire|
    requires port.input == wire[at..] + rest
    modifies port`input, recvData
    ensures got == want
    ensures Holds(recvData, wire, at + want, before) && port.input == wire[at + want..] + rest
  {
    got := port.Read(recvData, at, want);
  }

  /** One receive into a buffer with any content. `ptrSize` is what sizeof gives for the array
      parameter, so only that much is cleared first. */
  method RecvNciData(port: Port, recvData: array<byte>, ptrSize: nat, ghost u: Unit, ghost rest: seq<byte>)
    returns (ret: int)
    requires recvData.Length == NCI_BUFFER && ptrSize <= NCI_BUFFER
    requires Valid(u) && port.input == Wire(u) + rest
    modifies port`input, recvData
    ensures port.input == rest
    ensures recvData[..|Wire(u)|] == Wire(u)
    ensures ret == if u.Packet? then |u.payload| else 0x51
    ensures recvData[..6] == CREDITS <==> u == CREDITS_NTF
    ensures recvData[0] == 0x03 <==> u.Packet? && u.h0 == 0x03
    ensures forall i :: |Wire(u)| <= i < NCI_BUFFER ==> recvData[i] == if i < ptrSize then 0 else old(recvData[i])
  {
    Clear(recvData, ptrSize);
    ghost var wire, before := Wire(u), recvData[..];
    assert wire[0..] == wire;
    ret := ReadNext(port, recvData, 0, 3, wire, rest, before);
    if recvData[0] == 0x51 {
      ret := 0x51;
    } else {
      ret := ReadNext(port, recvData, 3, recvData[2], wire, rest, before);
    }
    assert wire[|wire|..] + rest == rest;
    ComparisonIsRight(u, recvData[..]);
    assert recvData[..6] == recvData[..][..6];
  }

  /** The packet that ends an exchange whose first answer was `first`: after an immediate credit a
      data packet, otherwise the credits notification. */
  predicate Ends(first: Unit, u: Unit) {
    if first == CREDITS_NTF then u.Packet? && u.h0 == 0x03 else u == CREDITS_NTF
  }

  /** `us[k]` is the first packet after `us[0]` that ends the exchange. */
  ghost predicate EndsAt(us: seq<Unit>, k: nat) {
    1 <= k < |us| && Ends(us[0], us[k]) && forall j :: 1 <= j < k ==> !Ends(us[0], us[j])
  }

  lemma WireOfCredits(u: Unit)
    requires Valid(u)
    ensures Wire(u) == [0x60, 0x06, 0x03, 0x01, 0x03, 0x01] <==> u == Packet(0x60, 0x06, [0x01, 0x03, 0x01])
  {
    if Wire(u) == [0x60, 0x06, 0x03, 0x01, 0x03, 0x01] {
      assert u.h0 == Wire(u)[0] && u.h1 == Wire(u)[1] && |u.payload| == Wire(u)[2];
      assert u.payload == Wire(u)[3..];
      assert [0x60, 0x06, 0x03, 0x01, 0x03, 0x01][3..] == [0x01, 0x03, 0x01];
    }
  }

  lemma AllOnTheWire(us: seq<Unit>)
    requires AllValid(us)
    ensures forall j :: 0 <= j < |us| ==>
              && (Wire(us[j]) == [0x60, 0x06, 0x03, 0x01, 0x03, 0x01] <==> us[j] == CREDITS_NTF)
              && (Wire(us[j])[0] == 0x03 <==> us[j].Packet? && us[j].h0 == 0x03)
  {
    forall j | 0 <= j < |us|
      ensures Wire(us[j]) == [0x60, 0x06, 0x03, 0x01, 0x03, 0x01] <==> us[j] == CREDITS_NTF
    {
      WireOfCredits(us[j]);
    }
  }

  /** Where an exchange ends, on the wire: when the first packet is the six bytes of the credits
      notification, at the first later packet that begins with 0x03, and otherwise at the first later
      packet that is those six bytes. */
  lemma EndsOnTheWire(us: seq<Unit>, k: nat)
    requires AllValid(us) && 1 <= k < |us|
    ensures var credits := [0x60, 0x06, 0x03, 0x01, 0x03, 0x01];
            EndsAt(us, k) <==>
              if Wire(us[0]) == credits
              then Wire(us[k])[0] == 0x03 && forall j :: 1 <= j < k ==> Wire(us[j])[0] != 0x03
              else Wire(us[k]) == credits && forall j :: 1 <= j < k ==> Wire(us[j]) != credits
  {
    AllOnTheWire(us);
  }

  /** Receives packet number `k` of the input. */
  method RecvUnit(port: Port, recvData: array<byte>, ptrSize: nat, ghost us: seq<Unit>, ghost rest: seq<byte>, ghost k: nat)
    returns (ret: int)
    requires recvData.Length == NCI_BUFFER && ptrSize <= NCI_BUFFER
    requires AllValid(us) && k < |us| && port.input == WireAll(us[k..], rest)
    modifies port`input, recvData
    ensures port.input == WireAll(us[k + 1..], rest)
    ensures ret == if us[k].Packet? then |us[k].payload| else 0x51
    ensures recvData[..6] == CREDITS <==> us[k] == CREDITS_NTF
    ensures recvData[0] == 0x03 <==> us[k].Packet? && us[k].h0 == 0x03
  {
    assert us[k..][1..] == us[k + 1..];
    ret := RecvNciData(port, recvData, ptrSize, us[k], WireAll(us[k + 1..], rest));
  }

  /** The same into a buffer that is cleared as a whole first. */
  method RecvCleared(port: Port, recvData: array<byte>, ptrSize: nat, ghost us: seq<Unit>, ghost rest: seq<byte>, ghost k: nat)
    returns (ret: int)
    requires recvData.Length == NCI_BUFFER && ptrSize <= NCI_BUFFER
    requires AllValid(us) && k < |us| && port.input == WireAll(us[k..], rest)
    modifies port`input, recvData
    ensures port.input == WireAll(us[k + 1..], rest)
    ensures ret == if us[k].Packet? then |us[k].payload| else 0x51
    ensures recvData[0] == 0x03 <==> us[k].Packet? && us[k].h0 == 0x03
  {
    Clear(recvData, NCI_BUFFER);
    ret := RecvUnit(port, recvData, ptrSize, us, rest, k);
  }

  /** After an immediate credit: receive up to the first data packet. */
  method AwaitData(port: Port, recvData: array<byte>, ptrSize: nat, ghost us: seq<Unit>, ghost rest: seq<byte>, ghost last: nat)
    returns (ret: int)
    requires recvData.Length == NCI_BUFFER && ptrSize <= NCI_BUFFER
    requires AllValid(us) && EndsAt(us, last) && us[0] == CREDITS_NTF
    requires port.input == WireAll(us[1..], rest)
    modifies port`input, recvData
    ensures port.input == WireAll(us[last + 1..], rest)
    ensures ret == |us[last].payload|
  {
    ghost var k := 0;
    while true
      invariant k < last && port.input == WireAll(us[k + 1..], rest)
      decreases last - k
    {
      k := k + 1;
      ret := RecvCleared(port, recvData, ptrSize, us, rest, k);
      if recvData[0] == 0x03 {
        break;
      }
    }
  }

  /** Otherwise: receive up to the first credits notification. */
  method AwaitCredits(port: Port, recvData: array<byte>, ptrSize: nat, ghost us: seq<Unit>, ghost rest: seq<byte>, ghost last: nat)
    requires recvData.Length == NCI_BUFFER && ptrSize <= NCI_BUFFER
    requires AllValid(us) && EndsAt(us, last) && us[0] != CREDITS_NTF
    requires port.input == WireAll(us[1..], rest)
    modifies port`input, recvData
    ensures port.input == WireAll(us[last + 1..], rest)
  {
    ghost var k := 0;
    while true
      invariant k < last && port.input == WireAll(us[k + 1..], rest)
      decreases last - k
    {
      k := k + 1;
      var _ := RecvUnit(port, recvData, ptrSize, us, rest, k);
      if recvData[..6] == CREDITS {
        break;
      }
    }
  }

  /** Some later packet ends the exchange. */
  ghost predicate Endable(us: seq<Unit>) {
    exists k :: 1 <= k < |us| && Ends(us[0], us[k])
  }

  /** The receive loops come to an end exactly on streams with a later packet that begins with 0x03
      after an immediate credit, and with a later credits notification otherwise. */
  lemma EndableOnTheWire(us: seq<Unit>)
    requires AllValid(us)
    ensures var credits := [0x60, 0x06, 0x03, 0x01, 0x03, 0x01];
            Endable(us) <==>
              exists k :: 1 <= k < |us|
                && if Wire(us[0]) == credits then Wire(us[k])[0] == 0x03 else Wire(us[k]) == credits
  {
    AllOnTheWire(us);
  }

  lemma {:induction false} FirstEndBefore(us: seq<Unit>, n: nat) returns (k: nat)
    requires 1 <= n < |us| && Ends(us[0], us[n])
    ensures EndsAt(us, k) && k <= n
  {
    if j :| 1 <= j < n && Ends(us[0], us[j]) {
      k := FirstEndBefore(us, j);
    } else {
      k := n;
    }
  }

  lemma FirstEnd(us: seq<Unit>) returns (k: nat)
    requires Endable(us)
    ensures EndsAt(us, k)
  {
    var n :| 1 <= n < |us| && Ends(us[0], us[n]);
    k := FirstEndBefore(us, n);
  }

  /** The exchange, given where it ends. */
  method ExchangeUpTo(port: Port, dataMsg: seq<byte>, ptrSize: nat, ghost us: seq<Unit>, ghost rest: seq<byte>, ghost last: nat)
    returns (ret: int)
    requires ptrSize <= NCI_BUFFER
    requires AllValid(us) && port.input == WireAll(us, rest) && EndsAt(us, last)
    modifies port
    ensures port.sent == old(port.sent) + [dataMsg]
    ensures port.input == WireAll(us[last + 1..], rest)
    ensures ret == if us[0] == CREDITS_NTF then |us[last].payload| else 0
  {
    port.Write(dataMsg);
    var recvData := new byte[NCI_BUFFER](_ => 0);
    assert us[0..] == us;
    ret := RecvUnit(port, recvData, ptrSize, us, rest, 0);
    if recvData[..6] == CREDITS {
      ret := AwaitData(port, recvData, ptrSize, us, rest, last);
    } else {
      AwaitCredits(port, recvData, ptrSize, us, rest, last);
      ret := 0;
    }
  }

  /** Sends a message and receives up to and including the packet that ends the exchange, number
      `last`. The receive loops run until they see such a packet, so there must be one. */
  method DataMsgExchange(port: Port, dataMsg: seq<byte>, ptrSize: nat, ghost us: seq<Unit>, ghost rest: seq<byte>)
    returns (ret: int, ghost last: nat)
    requires ptrSize <= NCI_BUFFER
    requires AllValid(us) && port.input == WireAll(us, rest)
    requires Endable(us)
    modifies port
    ensures 1 <= last < |us|
    ensures us[0] == Packet(0x60, 0x06, [0x01, 0x03, 0x01]) ==>
              && us[last].Packet? && us[last].h0 == 0x03
              && (forall j :: 1 <= j < last ==> !(us[j].Packet? && us[j].h0 == 0x03))
              && ret == |us[last].payload|
    ensures us[0] != Packet(0x60, 0x06, [0x01, 0x03, 0x01]) ==>
              && us[last] == Packet(0x60, 0x06, [0x01, 0x03, 0x01])
              && (forall j :: 1 <= j < last ==> us[j] != Packet(0x60, 0x06, [0x01, 0x03, 0x01]))
              && ret == 0
    ensures port.sent == old(port.sent) + [dataMsg]
    ensures port.input == WireAll(us[last + 1..], rest)
  {
    last := FirstEnd(us);
    ret := ExchangeUpTo(port, dataMsg, ptrSize, us, rest, last);
  }
}
