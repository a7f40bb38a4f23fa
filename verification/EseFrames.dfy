/** Reading eSE replies over SPI: resynchronisation on the start byte within a bounded number of
    reads, then a length-prefixed block (section 11.3 of ISO/IEC 7816-3). */
module EseFrames {
  import opened EsePort

  const ESE_SOF: byte := 0xA5
  const ETIME := 62

  /** Reads the scan may spend before it gives up. */
  const SCAN_BUDGET: nat := 1000
  const CPLC_ROUNDS: nat := 8
  const BUFFER_SIZE: nat := 256

  // ---------- what one read delivers ----------

  datatype Reply = Reply(ret: int, frame: seq<byte>, rest: seq<byte>)

  /** The position of the first start byte, or the length when there is none. */
  function SofAt(s: seq<byte>): (i: nat)
    ensures i <= |s|
  {
    if s == [] || s[0] == ESE_SOF then 0 else 1 + SofAt(s[1..])
  }

  lemma {:induction false} SofAtIsFirst(s: seq<byte>)
    ensures ESE_SOF !in s[..SofAt(s)]
    ensures SofAt(s) < |s| ==> s[SofAt(s)] == ESE_SOF
  {
    if s != [] && s[0] != ESE_SOF {
      SofAtIsFirst(s[1..]);
      assert s[..SofAt(s)] == [s[0]] + s[1..][..SofAt(s[1..])];
    }
  }

  lemma {:induction false} SofAtIs(s: seq<byte>, i: nat)
    requires i < |s| && s[i] == ESE_SOF && ESE_SOF !in s[..i]
    ensures SofAt(s) == i
  {
    if i > 0 {
      assert s[..i] == [s[0]] + s[1..][..i - 1];
      SofAtIs(s[1..], i - 1);
    }
  }

  lemma {:induction false} SofAtAfter(s: seq<byte>, n: nat)
    requires n <= |s| && forall k :: 0 <= k < n ==> s[k] != ESE_SOF
    ensures SofAt(s) == n + SofAt(s[n..])
    ensures s[..SofAt(s)][n..] == s[n..][..SofAt(s[n..])]
  {
    if n == 0 {
      assert s[0..] == s;
    } else {
      SofAtAfter(s[1..], n - 1);
      assert s[1..][n - 1..] == s[n..];
    }
  }

  /** The LEN byte as the reader sees it, given the bytes after the start byte. */
  function LenOf(t: seq<byte>): byte {
    if |t| >= 2 then t[1] else 0
  }

  /** The block whose start byte has just been read. Bytes that never came stay zero. */
  function Block(t: seq<byte>): (seq<byte>, seq<byte>) {
    var k := Min(|t|, LenOf(t) + 3);
    ([ESE_SOF] + t[..k] + Zeros(LenOf(t) + 3 - k), t[k..])
  }

  /** How many bytes the last read of a block gets: all LEN + 1 when they are there. */
  function LastRead(t: seq<byte>): nat {
    Min(LenOf(t) + 1, |t| - Min(2, |t|))
  }

  function ReadFrame(s: seq<byte>): Reply {
    var i := SofAt(s);
    if i < |s| && i < SCAN_BUDGET then
      var (frame, rest) := Block(s[i + 1..]);
      Reply(|frame|, frame, rest)
    else Reply(-ETIME, [], s[Min(|s|, SCAN_BUDGET)..])
  }

  /** The block the reader will find fits its buffer. */
  predicate Fits(s: seq<byte>) {
    var i := SofAt(s);
    i < |s| && i < SCAN_BUDGET ==> LenOf(s[i + 1..]) <= 252
  }

  // ---------- the readers ----------

  /** The buffer holds the start byte, then the first `n` bytes of `t`, then zeros. */
  ghost predicate Holds(recvData: array<byte>, t: seq<byte>, n: nat)
    reads recvData
  {
    && recvData.Length == BUFFER_SIZE && n <= |t| && n < BUFFER_SIZE
    && forall i :: 0 <= i < BUFFER_SIZE ==>
         recvData[i] == if i == 0 then ESE_SOF else if i <= n then t[i - 1] else 0
  }

  /** One more read behind the `n` bytes that are there, unless the input has run out before. */
  method ReadMore(port: Port, recvData: array<byte>, at: nat, want: nat, ghost t: seq<byte>, ghost n: nat)
    returns (got: nat)
    requires Holds(recvData, t, n) && port.input == t[n..]
    requires at + want <= BUFFER_SIZE && (n == at - 1 || n == |t|)
    modifies port`input, recvData
    ensures got == Min(want, |t| - n)
    ensures Holds(recvData, t, n + got) && port.input == t[n + got..]
  {
    got := port.Read(recvData, at, want);
  }

  /** Both readers, from the start byte on. */
  method ReadBlock(port: Port, recvData: array<byte>) returns (ret: nat, totalCount: nat)
    requires recvData.Length == BUFFER_SIZE
    requires recvData[0] == ESE_SOF && Blank(recvData)
    requires LenOf(port.input) <= 252
    modifies port`input, recvData
    ensures totalCount == LenOf(old(port.input)) + 4
    ensures recvData[..totalCount] == Block(old(port.input)).0
    ensures port.input == Block(old(port.input)).1
    ensures ret == LastRead(old(port.input))
  {
    ghost var t := port.input;
    assert t == t[0..];
    totalCount := 1;
    ret := ReadMore(port, recvData, 1, 2, t, 0);
    ghost var n := ret;
    totalCount := totalCount + 2;
    HeldLength(recvData, t, n);
    ret := ReadMore(port, recvData, 3, recvData[2] + 1, t, n);
    HeldLength(recvData, t, n + ret);
    totalCount := totalCount + recvData[2] + 1;
    assert n + ret == Min(|t|, LenOf(t) + 3);
    HeldBlock(recvData, t);
  }

  lemma HeldLength(recvData: array<byte>, t: seq<byte>, n: nat)
    requires Holds(recvData, t, n) && n >= Min(2, |t|)
    ensures recvData[2] == LenOf(t)
  {
  }

  lemma HeldBlock(recvData: array<byte>, t: seq<byte>)
    requires Holds(recvData, t, Min(|t|, LenOf(t) + 3)) && LenOf(t) <= 252
    ensures recvData[..LenOf(t) + 4] == Block(t).0
  {
    var k, frame := Min(|t|, LenOf(t) + 3), recvData[..LenOf(t) + 4];
    assert frame[..k + 1] == [ESE_SOF] + t[..k];
    assert frame[k + 1..] == Zeros(LenOf(t) + 3 - k);
    assert frame == frame[..k + 1] + frame[k + 1..];
  }

  /** read(fp, recv_data, 1) */
  method ReadByte(port: Port, recvData: array<byte>)
    requires recvData.Length == BUFFER_SIZE && Blank(recvData)
    modifies port`input, recvData
    ensures Blank(recvData)
    ensures old(port.input) == [] ==> port.input == [] && recvData[0] == old(recvData[0])
    ensures old(port.input) != [] ==> port.input == old(port.input)[1..] && recvData[0] == old(port.input[0])
  {
    var _ := port.Read(recvData, 0, 1);
  }

  /** Nothing but the first byte has been read. */
  ghost predicate Blank(recvData: array<byte>)
    requires recvData.Length == BUFFER_SIZE
    reads recvData
  {
    forall i :: 1 <= i < BUFFER_SIZE ==> recvData[i] == 0
  }

  /** The scan of the plain reader: one byte at a time, up to the first start byte. */
  method FindSof(port: Port, recvData: array<byte>)
    requires recvData.Length == BUFFER_SIZE && Blank(recvData) && recvData[0] == 0
    modifies port`input, recvData
    ensures Blank(recvData)
    ensures var s := old(port.input); var i := SofAt(s);
            if i < |s| && i < SCAN_BUDGET then recvData[0] == ESE_SOF && port.input == s[i + 1..]
            else recvData[0] != ESE_SOF && port.input == s[Min(|s|, SCAN_BUDGET)..]
  {
    ghost var s := port.input;
    var count := 0;
    while true
      invariant 0 <= count < SCAN_BUDGET
      invariant port.input == s[Min(count, |s|)..]
      invariant SofAt(s) == Min(count, |s|) + SofAt(port.input)
      invariant recvData[0] != ESE_SOF && Blank(recvData)
      decreases SCAN_BUDGET - count
    {
      count := count + 1;
      ReadByte(port, recvData);
      if !(recvData[0] != ESE_SOF && count < SCAN_BUDGET) {
        break;
      }
    }
  }

  method EseReadData(port: Port) returns (ret: int, frame: seq<byte>)
    requires Fits(port.input)
    modifies port`input
    ensures Reply(ret, frame, port.input) == ReadFrame(old(port.input))
  {
    var recvData := new byte[BUFFER_SIZE](_ => 0);
    FindSof(port, recvData);
    if recvData[0] != ESE_SOF {
      return -ETIME, [];
    }
    var _, totalCount := ReadBlock(port, recvData);
    return totalCount, recvData[..totalCount];
  }

  // ---------- streams of blocks ----------

  /** A block as the chip sends it. Its information field may hold start bytes too. */
  datatype Frame = Frame(pcb: byte, info: seq<byte>, edc: byte)

  function Wire(f: Frame): seq<byte>
    requires |f.info| <= 252
  {
    [0xA5, f.pcb, |f.info|] + f.info + [f.edc]
  }

  /** A block after some line noise. */
  datatype Noisy = Noisy(noise: seq<byte>, frame: Frame)

  predicate Readable(x: Noisy) {
    |x.noise| < 1000 && 0xA5 !in x.noise && |x.frame.info| <= 252
  }

  predicate AllReadable(xs: seq<Noisy>) {
    forall k :: 0 <= k < |xs| ==> Readable(xs[k])
  }

  function Stream(xs: seq<Noisy>, tail: seq<byte>): seq<byte>
    requires AllReadable(xs)
  {
    if xs == [] then tail else xs[0].noise + Wire(xs[0].frame) + Stream(xs[1..], tail)
  }

  lemma BlockRoundTrip(f: Frame, more: seq<byte>)
    requires |f.info| <= 252
    ensures Block((Wire(f) + more)[1..]) == (Wire(f), more)
  {
    var t := (Wire(f) + more)[1..];
    assert t == [f.pcb, |f.info|] + f.info + [f.edc] + more;
    assert LenOf(t) == |f.info|;
    assert [ESE_SOF] + t[..|f.info| + 3] + Zeros(0) == Wire(f);
    assert t[|f.info| + 3..] == more;
  }

  lemma BehindNoise(s: seq<byte>, noise: seq<byte>, wire: seq<byte>)
    requires s == noise + wire && ESE_SOF !in noise && wire != [] && wire[0] == ESE_SOF
    ensures SofAt(s) == |noise| && s[|noise| + 1..] == wire[1..]
  {
    assert s[..|noise|] == noise;
    SofAtIs(s, |noise|);
  }

  /** One read after fewer than 1000 bytes of noise delivers exactly the block that follows and
      leaves the stream at the byte after it. */
  lemma NoisyBlockIsRead(x: Noisy, more: seq<byte>)
    requires Readable(x)
    ensures ReadFrame(x.noise + Wire(x.frame) + more) == Reply(|x.frame.info| + 4, Wire(x.frame), more)
    ensures Fits(x.noise + Wire(x.frame) + more)
  {
    var s, wire := x.noise + Wire(x.frame) + more, Wire(x.frame) + more;
    assert s == x.noise + wire;
    BehindNoise(s, x.noise, wire);
    BlockRoundTrip(x.frame, more);
  }

  /** What is left of the input after `n` reads. */
  function Left(s: seq<byte>, n: nat): seq<byte> {
    if n == 0 then s else ReadFrame(Left(s, n - 1)).rest
  }

  /** The reply of read number `n`, counted from zero. */
  function NthReply(s: seq<byte>, n: nat): Reply {
    ReadFrame(Left(s, n))
  }

  lemma {:induction false} StreamHeadIsRead(xs: seq<Noisy>, tail: seq<byte>)
    requires xs != [] && AllReadable(xs)
    ensures ReadFrame(Stream(xs, tail))
         == Reply(|xs[0].frame.info| + 4, Wire(xs[0].frame), Stream(xs[1..], tail))
    ensures Fits(Stream(xs, tail))
  {
    NoisyBlockIsRead(xs[0], Stream(xs[1..], tail));
  }

  lemma {:induction false} OneBlockLess(xs: seq<Noisy>, tail: seq<byte>, n: nat)
    requires n < |xs| && AllReadable(xs)
    ensures ReadFrame(Stream(xs[n..], tail)).rest == Stream(xs[n + 1..], tail)
  {
    StreamHeadIsRead(xs[n..], tail);
    assert xs[n..][1..] == xs[n + 1..];
  }

  lemma {:induction false} LeftOfStream(xs: seq<Noisy>, tail: seq<byte>, n: nat)
    requires n <= |xs| && AllReadable(xs)
    ensures Left(Stream(xs, tail), n) == Stream(xs[n..], tail)
  {
    if n > 0 {
      LeftOfStream(xs, tail, n - 1);
      OneBlockLess(xs, tail, n - 1);
    }
  }

  /** Any sequence of blocks, each after its noise, is read back block by block, even when the
      blocks contain start bytes. */
  lemma {:induction false} StreamIsReadBack(xs: seq<Noisy>, tail: seq<byte>, k: nat)
    requires k < |xs| && AllReadable(xs)
    ensures NthReply(Stream(xs, tail), k)
         == Reply(|xs[k].frame.info| + 4, Wire(xs[k].frame), Stream(xs[k + 1..], tail))
    ensures Fits(Left(Stream(xs, tail), k))
  {
    LeftOfStream(xs, tail, k);
    assert xs[k..][1..] == xs[k + 1..];
    StreamHeadIsRead(xs[k..], tail);
  }

  /** A read fails exactly when no start byte is among the next 1000, and then it has used them up. */
  lemma TimeoutExactly(s: seq<byte>)
    ensures ReadFrame(s).ret < 0 <==> 0xA5 !in s[..Min(|s|, 1000)]
    ensures ReadFrame(s).ret >= 0 ==> ReadFrame(s).ret >= 4
    ensures ReadFrame(s).ret < 0 ==> ReadFrame(s).ret == -62 && ReadFrame(s).rest == s[Min(|s|, 1000)..]
  {
    var i, n := SofAt(s), Min(|s|, SCAN_BUDGET);
    SofAtIsFirst(s);
    if i < n {
      assert s[..n][i] == ESE_SOF;
    } else {
      assert s[..n] == s[..i][..n];
    }
  }

  // ---------- sending a command until it is answered ----------

  function Copies(cmd: seq<byte>, n: nat): seq<seq<byte>> {
    if n == 0 then [] else Copies(cmd, n - 1) + [cmd]
  }

  const MAX_TRIES: nat := 11

  /** None of the first `n` replies carries information. */
  ghost predicate Silent(s: seq<byte>, n: nat) {
    forall k :: 0 <= k < n ==> NthReply(s, k).ret <= 4
  }

  /** Every block that the retries below come to read fits the buffer. */
  ghost predicate FitsWhileRetrying(s: seq<byte>) {
    forall n {:trigger Silent(s, n)} :: 0 <= n < MAX_TRIES && Silent(s, n) ==> Fits(Left(s, n))
  }

  /** `n` tries have been made since `s` was the input and `sent` was written. */
  ghost predicate Tried(port: Port, cmd: seq<byte>, s: seq<byte>, sent: seq<seq<byte>>, n: nat)
    reads port
  {
    port.input == Left(s, n) && port.sent == sent + Copies(cmd, n)
  }

  lemma OneMoreTry(s: seq<byte>, n: nat)
    ensures NthReply(s, n) == ReadFrame(Left(s, n))
    ensures Left(s, n + 1) == NthReply(s, n).rest
    ensures Silent(s, n) && NthReply(s, n).ret <= 4 ==> Silent(s, n + 1)
  {
  }

  lemma OneMoreCopy(sent: seq<seq<byte>>, cmd: seq<byte>, n: nat)
    ensures sent + Copies(cmd, n) + [cmd] == sent + Copies(cmd, n + 1)
  {
  }

  method SendAndRead(port: Port, cmd: seq<byte>, ghost s: seq<byte>, ghost sent: seq<seq<byte>>, ghost n: nat)
    returns (readcount: int)
    requires Tried(port, cmd, s, sent, n) && Fits(Left(s, n))
    modifies port
    ensures Tried(port, cmd, s, sent, n + 1)
    ensures readcount == NthReply(s, n).ret
    ensures Silent(s, n) && readcount <= 4 ==> Silent(s, n + 1)
  {
    OneMoreTry(s, n);
    OneMoreCopy(sent, cmd, n);
    port.Write(cmd);
    var frame: seq<byte>;
    readcount, frame := EseReadData(port);
  }

  /** `tries` is as the retry loop leaves it after reading from `s`. */
  ghost predicate StoppedAfter(s: seq<byte>, tries: nat) {
    && 1 <= tries <= MAX_TRIES
    && Silent(s, tries - 1)
    && (NthReply(s, tries - 1).ret > 4 || tries == MAX_TRIES)
  }

  /** The command is sent again until a reply carries information, eleven times at most. */
  method EseCommonCmdTest(port: Port, cmd: seq<byte>) returns (readcount: int, ghost tries: nat)
    requires FitsWhileRetrying(port.input)
    modifies port
    ensures StoppedAfter(old(port.input), tries)
    ensures Tried(port, cmd, old(port.input), old(port.sent), tries)
    ensures readcount == NthReply(old(port.input), tries - 1).ret
  {
    ghost var s, sent := port.input, port.sent;
    var i := 0;
    tries := 0;
    while true
      invariant 0 <= i <= 10 && tries == i
      invariant Tried(port, cmd, s, sent, i)
      invariant Silent(s, i)
      decreases 10 - i
    {
      readcount := SendAndRead(port, cmd, s, sent, i);
      tries := tries + 1;
      if readcount <= 4 && i < 10 {
        i := i + 1;
      } else {
        break;
      }
    }
  }

  /** Block `k` is the one the retries are waiting for: the first with information, or the eleventh. */
  ghost predicate Awaited(xs: seq<Noisy>, k: nat) {
    && k < |xs| && k <= 10
    && (forall j :: 0 <= j < k ==> xs[j].frame.info == [])
    && (xs[k].frame.info != [] || k == 10)
  }

  /** Up to the awaited block every reply is silent, and no silence goes past a block with information. */
  lemma {:induction false} SilentUpTo(xs: seq<Noisy>, tail: seq<byte>, k: nat)
    requires AllReadable(xs) && Awaited(xs, k)
    ensures Silent(Stream(xs, tail), k)
    ensures forall n :: k < n && Silent(Stream(xs, tail), n) ==> k == 10
  {
    var s := Stream(xs, tail);
    forall j | 0 <= j <= k ensures NthReply(s, j).ret == |xs[j].frame.info| + 4 {
      StreamIsReadBack(xs, tail, j);
    }
  }

  /** On a stream of blocks the buffer always suffices. */
  lemma StreamFitsWhileRetrying(xs: seq<Noisy>, tail: seq<byte>, k: nat)
    requires AllReadable(xs) && Awaited(xs, k)
    ensures FitsWhileRetrying(Stream(xs, tail))
  {
    var s := Stream(xs, tail);
    SilentUpTo(xs, tail, k);
    forall n | 0 <= n < MAX_TRIES && Silent(s, n) ensures Fits(Left(s, n)) {
      StreamIsReadBack(xs, tail, n);
    }
  }

  lemma {:induction false} StopsAtAwaited(xs: seq<Noisy>, tail: seq<byte>, k: nat, tries: nat)
    requires AllReadable(xs) && Awaited(xs, k)
    requires StoppedAfter(Stream(xs, tail), tries)
    ensures tries == k + 1
    ensures NthReply(Stream(xs, tail), tries - 1).ret == |xs[k].frame.info| + 4
    ensures Left(Stream(xs, tail), tries) == Stream(xs[k + 1..], tail)
  {
    SilentUpTo(xs, tail, k);
    StreamIsReadBack(xs, tail, k);
    LeftOfStream(xs, tail, k + 1);
  }

  /** Wherever the retries on `s` stop, it is after `tries`, with `ret`, and before `rest`. */
  ghost predicate OnlyStop(s: seq<byte>, tries: nat, ret: int, rest: seq<byte>) {
    forall n: nat :: StoppedAfter(s, n) ==> n == tries && NthReply(s, n - 1).ret == ret && Left(s, n) == rest
  }

  lemma {:induction false} StreamHasOneStop(xs: seq<Noisy>, tail: seq<byte>, k: nat)
    requires AllReadable(xs) && Awaited(xs, k)
    ensures OnlyStop(Stream(xs, tail), k + 1, |xs[k].frame.info| + 4, Stream(xs[k + 1..], tail))
  {
    forall n: nat | StoppedAfter(Stream(xs, tail), n)
      ensures n == k + 1 && NthReply(Stream(xs, tail), n - 1).ret == |xs[k].frame.info| + 4
      ensures Left(Stream(xs, tail), n) == Stream(xs[k + 1..], tail)
    {
      StopsAtAwaited(xs, tail, k, n);
    }
  }

  /** The retries on an input for which it is known where they stop, and with what. */
  method CommonCmdExpecting(port: Port, cmd: seq<byte>, ghost tries: nat, ghost ret: int, ghost rest: seq<byte>)
    returns (readcount: int)
    requires FitsWhileRetrying(port.input) && OnlyStop(port.input, tries, ret, rest)
    modifies port
    ensures port.sent == old(port.sent) + Copies(cmd, tries)
    ensures readcount == ret && port.input == rest
  {
    ghost var n: nat;
    readcount, n := EseCommonCmdTest(port, cmd);
  }

  /** On a stream of blocks the retries stop at the awaited one: its command goes out once for every
      block up to it, its length comes back, and the stream is left behind it. */
  method CommonCmdOnStream(port: Port, cmd: seq<byte>, ghost xs: seq<Noisy>, ghost tail: seq<byte>, ghost k: nat)
    returns (readcount: int)
    requires AllReadable(xs) && Awaited(xs, k) && port.input == Stream(xs, tail)
    modifies port
    ensures port.sent == old(port.sent) + Copies(cmd, k + 1)
    ensures readcount == |xs[k].frame.info| + 4
    ensures port.input == Stream(xs[k + 1..], tail)
  {
    StreamFitsWhileRetrying(xs, tail, k);
    StreamHasOneStop(xs, tail, k);
    readcount := CommonCmdExpecting(port, cmd, k + 1, |xs[k].frame.info| + 4, Stream(xs[k + 1..], tail));
  }

  // ---------- the zero-skipping reader ----------

  /** How many rounds the zero-skipping scan needs for a prefix `p` without start byte, and then
      the start byte: a zero takes the next byte along. */
  function Rounds(p: seq<byte>): nat {
    if p == [] then 1
    else if p[0] != 0 then 1 + Rounds(p[1..])
    else if |p| == 1 then 1
    else 1 + Rounds(p[2..])
  }

  /** How many bytes `rounds` fruitless rounds use up. */
  function Skipped(s: seq<byte>, rounds: nat): (n: nat)
    ensures n <= |s| && n <= 2 * rounds
  {
    if rounds == 0 || s == [] then 0
    else if s[0] != 0 then 1 + Skipped(s[1..], rounds - 1)
    else if |s| == 1 then 1
    else 2 + Skipped(s[2..], rounds - 1)
  }

  /** The scan as it goes: whether it finds the start byte in `rounds` rounds, and what is left. */
  function Scan(s: seq<byte>, rounds: nat): (bool, seq<byte>) {
    if rounds == 0 || s == [] then (false, s)
    else if s[0] == ESE_SOF then (true, s[1..])
    else if s[0] != 0 then Scan(s[1..], rounds - 1)
    else if |s| == 1 then (false, [])
    else if s[1] == ESE_SOF then (true, s[2..])
    else Scan(s[2..], rounds - 1)
  }

  /** The scan never steps over a start byte: it stops right after the first one if that takes no
      more than `rounds` rounds, and otherwise has only used up other bytes. */
  ghost predicate ScansRight(s: seq<byte>, rounds: nat) {
    var i := SofAt(s);
    var (found, rest) := Scan(s, rounds);
    && (found <==> i < |s| && Rounds(s[..i]) <= rounds)
    && (found ==> rest == s[i + 1..])
    && (!found ==> rest == s[Skipped(s, rounds)..] && Skipped(s, rounds) <= i)
  }

  /** A fruitless round over `n` bytes. */
  lemma FruitlessRound(s: seq<byte>, rounds: nat, n: nat)
    requires rounds > 0 && n <= |s| && forall k :: 0 <= k < n ==> s[k] != ESE_SOF
    requires if n == 1 then s[0] != 0 else n == 2 && s[0] == 0
    requires ScansRight(s[n..], rounds - 1)
    ensures ScansRight(s, rounds)
  {
    var i := SofAt(s);
    SofAtAfter(s, n);
    assert Scan(s, rounds) == Scan(s[n..], rounds - 1);
    assert Rounds(s[..i]) == 1 + Rounds(s[n..][..i - n]);
    assert Skipped(s, rounds) == n + Skipped(s[n..], rounds - 1);
    assert s[n..][Skipped(s[n..], rounds - 1)..] == s[Skipped(s, rounds)..];
    assert i < |s| ==> s[n..][i - n + 1..] == s[i + 1..];
  }

  lemma {:induction false} ScanExactly(s: seq<byte>, rounds: nat)
    ensures ScansRight(s, rounds)
  {
    RoundsBounds(s[..SofAt(s)]);
    if rounds == 0 || s == [] || s[0] == ESE_SOF {
    } else if s[0] != 0 {
      ScanExactly(s[1..], rounds - 1);
      FruitlessRound(s, rounds, 1);
    } else if |s| == 1 {
    } else if s[1] == ESE_SOF {
      SofAtIs(s, 1);
    } else {
      ScanExactly(s[2..], rounds - 1);
      FruitlessRound(s, rounds, 2);
    }
  }

  lemma {:induction false} RoundsBounds(p: seq<byte>)
    ensures |p| / 2 + 1 <= Rounds(p) <= |p| + 1
  {
    if p == [] || (p[0] == 0 && |p| == 1) {
    } else {
      RoundsBounds(p[if p[0] != 0 then 1 else 2..]);
    }
  }

  /** The start byte lies within the eight rounds of the scan. */
  predicate InReach(s: seq<byte>) {
    SofAt(s) < |s| && Rounds(s[..SofAt(s)]) <= CPLC_ROUNDS
  }

  /** What the zero-skipping reader delivers. */
  function ReadCplc(s: seq<byte>): Reply {
    if InReach(s) then
      var t := s[SofAt(s) + 1..];
      Reply(LastRead(t), Block(t).0, Block(t).1)
    else Reply(-ETIME, [], s[Skipped(s, CPLC_ROUNDS)..])
  }

  /** What its eight rounds come to. */
  lemma CplcScan(s: seq<byte>)
    ensures Scan(s, CPLC_ROUNDS) == (InReach(s), if InReach(s) then s[SofAt(s) + 1..] else ReadCplc(s).rest)
  {
    ScanExactly(s, CPLC_ROUNDS);
  }

  /** The reader fails exactly when the start byte is out of its reach, and what it has used up then
      holds none, so it never steps over one. */
  lemma CplcFailsExactly(s: seq<byte>)
    ensures ReadCplc(s).ret < 0 <==> !InReach(s)
    ensures ReadCplc(s).ret < 0 ==> ReadCplc(s).ret == -62 && 0xA5 !in s[..|s| - |ReadCplc(s).rest|]
  {
    var i, n := SofAt(s), Skipped(s, CPLC_ROUNDS);
    ScanExactly(s, CPLC_ROUNDS);
    SofAtIsFirst(s);
    if n <= i {
      assert s[..n] == s[..i][..n];
    }
  }

  /** The scan of the zero-skipping reader. */
  method SkipToSof(port: Port, recvData: array<byte>, rounds: nat)
    requires recvData.Length == BUFFER_SIZE && Blank(recvData) && recvData[0] == 0 && rounds > 0
    modifies port`input, recvData
    ensures Blank(recvData)
    ensures Scan(old(port.input), rounds) == (recvData[0] == ESE_SOF, port.input)
  {
    ghost var s := port.input;
    var count := 0;
    while true
      invariant 0 <= count < rounds
      invariant Scan(port.input, rounds - count) == Scan(s, rounds)
      invariant recvData[0] != ESE_SOF && Blank(recvData)
      decreases rounds - count
    {
      count := count + 1;
      ReadByte(port, recvData);
      if recvData[0] == 0 {
        ReadByte(port, recvData);
      }
      if !(recvData[0] != ESE_SOF && count < rounds) {
        break;
      }
    }
  }

  method ReadCplcData(port: Port) returns (ret: int, frame: seq<byte>)
    requires InReach(port.input) ==> LenOf(port.input[SofAt(port.input) + 1..]) <= 252
    modifies port`input
    ensures Reply(ret, frame, port.input) == ReadCplc(old(port.input))
  {
    CplcScan(port.input);
    var recvData := new byte[BUFFER_SIZE](_ => 0);
    SkipToSof(port, recvData, CPLC_ROUNDS);
    if recvData[0] != ESE_SOF {
      return -ETIME, [];
    }
    var totalCount;
    ret, totalCount := ReadBlock(port, recvData);
    frame := recvData[..totalCount];
  }

  /** Among the first eight bytes a start byte is always found, after sixteen bytes never. */
  lemma ReachBounds(s: seq<byte>)
    ensures SofAt(s) < |s| && SofAt(s) <= 7 ==> InReach(s)
    ensures InReach(s) ==> SofAt(s) <= 15
  {
    RoundsBounds(s[..SofAt(s)]);
  }

  lemma {:induction false} RoundsOfZeros(n: nat)
    ensures Rounds(Zeros(n)) == n / 2 + 1
  {
    if n >= 2 {
      assert Zeros(n)[2..] == Zeros(n - 2);
      RoundsOfZeros(n - 2);
    }
  }

  /** Leading zeros are skipped exactly when there are at most fifteen. */
  lemma ZerosInReach(n: nat, more: seq<byte>)
    ensures InReach(Zeros(n) + [0xA5] + more) <==> n <= 15
  {
    var s := Zeros(n) + [ESE_SOF] + more;
    assert s[..n] == Zeros(n);
    SofAtIs(s, n);
    RoundsOfZeros(n);
  }

  /** A whole block within reach is read as sent. What comes back is not its length but that of its
      last read: the information field and the check byte. */
  lemma CplcBlockIsRead(noise: seq<byte>, f: Frame, more: seq<byte>)
    requires 0xA5 !in noise && |f.info| <= 252
    requires |noise| <= 7 || (noise == Zeros(|noise|) && |noise| <= 15)
    ensures ReadCplc(noise + Wire(f) + more) == Reply(|f.info| + 1, Wire(f), more)
  {
    var s, wire := noise + Wire(f) + more, Wire(f) + more;
    assert s == noise + wire;
    BehindNoise(s, noise, wire);
    BlockRoundTrip(f, more);
    RoundsBounds(noise);
    if |noise| > 7 {
      RoundsOfZeros(|noise|);
    }
    assert s[..|noise|] == noise;
  }

  /** A block that the input ends within: both readers fill it up with zeros and leave nothing. The
      plain reader still returns the full length, the other what its last read got. */
  lemma CutShortBlockIsPadded(t: seq<byte>)
    requires |t| < LenOf(t) + 3
    ensures var frame := [0xA5] + t + Zeros(LenOf(t) + 3 - |t|);
            && ReadFrame([0xA5] + t) == Reply(LenOf(t) + 4, frame, [])
            && ReadCplc([0xA5] + t) == Reply(if |t| <= 2 then 0 else |t| - 2, frame, [])
  {
    var s := [0xA5] + t;
    assert s[1..] == t && s[..0] == [];
    assert t[..|t|] == t && t[|t|..] == [];
  }

  /** Whenever the zero-skipping reader succeeds, the plain reader would have read the same block and
      left the same input. */
  lemma ReadersAgree(s: seq<byte>)
    requires ReadCplc(s).ret >= 0
    ensures ReadFrame(s).ret >= 0
    ensures ReadFrame(s).frame == ReadCplc(s).frame && ReadFrame(s).rest == ReadCplc(s).rest
  {
    CplcFailsExactly(s);
    ReachBounds(s);
  }
}
