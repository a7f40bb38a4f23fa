/** A device node seen as a byte stream: reads are complete as long as bytes are there, and a
    read that finds none leaves the buffer as it was. */
module EsePort {

  type byte = x: int | 0 <= x < 256

  function Min(a: nat, b: nat): nat {
    if a < b then a else b
  }

  function Zeros(n: nat): seq<byte> {
    seq(n, _ => 0)
  }

  class Port {
    var input: seq<byte>
    var sent: seq<seq<byte>>

    constructor (input: seq<byte>)
      ensures this.input == input && sent == []
    {
      this.input, sent := input, [];
    }

    method Write(data: seq<byte>)
      modifies this`sent
      ensures sent == old(sent) + [data]
    {
      sent := sent + [data];
    }

    /** read(fp, &buf[at], n) */
    method Read(buf: array<byte>, at: nat, n: nat) returns (got: nat)
      requires at + n <= buf.Length
      modifies this`input, buf
      ensures got == Min(n, |old(input)|)
      ensures input == old(input)[got..]
      ensures forall i :: 0 <= i < buf.Length ==>
                buf[i] == if at <= i < at + got then old(input)[i - at] else old(buf[i])
    {
      got := Min(n, |input|);
      forall i | 0 <= i < got {
        buf[at + i] := input[i];
      }
      input := input[got..];
    }
  }
}
