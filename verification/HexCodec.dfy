/** The hex parser and the hex printer of the eSE client library, which undo each other. */
module HexCodec {
  import opened EsePort

  const NUL := '\0'

  function CharToByte(c: char): (b: byte)
    ensures b < 16 || b == 255
    ensures b < 16 <==> IsHex(c)
  {
    if '0' <= c <= '9' then c as int - '0' as int
    else if 'a' <= c <= 'f' then c as int - 'a' as int + 10
    else if 'A' <= c <= 'F' then c as int - 'A' as int + 10
    else 255
  }

  predicate IsHex(c: char) {
    '0' <= c <= '9' || 'a' <= c <= 'f' || 'A' <= c <= 'F'
  }

  function Upper(c: char): char {
    if 'a' <= c <= 'f' then (c as int - 'a' as int + 'A' as int) as char else c
  }

  function UpperAll(text: seq<char>): seq<char> {
    seq(|text|, i requires 0 <= i < |text| => Upper(text[i]))
  }

  /** (hi << 4) | lo, cut to eight bits. The low half is a digit's value or 255. */
  function Pack(hi: byte, lo: byte): byte
    requires lo < 16 || lo == 255
  {
    if lo == 255 then 255 else hi % 16 * 16 + lo
  }

  function Parse(text: seq<char>): (bytes: seq<byte>)
    requires |text| % 2 == 0
    ensures |bytes| == |text| / 2
  {
    if text == [] then [] else [Pack(CharToByte(text[0]), CharToByte(text[1]))] + Parse(text[2..])
  }

  lemma {:induction false} ParseOneMore(text: seq<char>, hi: char, lo: char)
    requires |text| % 2 == 0
    ensures Parse(text + [hi, lo]) == Parse(text) + [Pack(CharToByte(hi), CharToByte(lo))]
  {
    var all := text + [hi, lo];
    if text == [] {
      assert all[2..] == [];
    } else {
      assert all[2..] == text[2..] + [hi, lo];
      ParseOneMore(text[2..], hi, lo);
    }
  }

  lemma ParsePrefix(text: seq<char>, i: nat)
    requires i % 2 == 0 && i + 2 <= |text|
    ensures Parse(text[..i + 2]) == Parse(text[..i]) + [Pack(CharToByte(text[i]), CharToByte(text[i + 1]))]
  {
    ParseOneMore(text[..i], text[i], text[i + 1]);
    assert text[..i + 2] == text[..i] + [text[i], text[i + 1]];
  }

  /** The parser, on a string of even length and a large enough result. */
  method HexcharToByte(hexstring: array<char>, bytes: array<byte>, ghost text: seq<char>) returns (byteLen: nat)
    requires |text| < hexstring.Length && hexstring[..|text|] == text && hexstring[|text|] == NUL
    requires NUL !in text && |text| % 2 == 0 && |text| / 2 <= bytes.Length
    modifies bytes
    ensures byteLen == |text| / 2
    ensures bytes[..byteLen] == Parse(text)
    ensures bytes[byteLen..] == old(bytes[byteLen..])
  {
    assert forall k :: 0 <= k < |text| ==> hexstring[k] == text[k] && text[k] in text;
    var i, j := 0, 0;
    while hexstring[i] != NUL
      invariant 0 <= i <= |text| && i == 2 * j && j <= bytes.Length
      invariant bytes[..j] == Parse(text[..i])
      invariant forall k :: j <= k < bytes.Length ==> bytes[k] == old(bytes[k])
      decreases |text| - i
    {
      bytes[j] := Pack(CharToByte(hexstring[i]), CharToByte(hexstring[i + 1]));
      ParsePrefix(text, i);
      assert bytes[..j + 1] == bytes[..j] + [bytes[j]];
      i := i + 2;
      j := j + 1;
    }
    assert text[..i] == text;
    byteLen := j;
  }

  function Digit(d: nat): (c: char)
    requires d < 16
    ensures IsHex(c) && CharToByte(c) == d && Upper(c) == c
  {
    if d < 10 then (d + '0' as int) as char else (d - 10 + 'A' as int) as char
  }

  /** "%02X " */
  function Cell(b: byte): seq<char> {
    [Digit(b / 16), Digit(b % 16), ' ']
  }

  function HexText(data: seq<byte>): (text: seq<char>)
    ensures |text| == 3 * |data|
  {
    if data == [] then [] else Cell(data[0]) + HexText(data[1..])
  }

  lemma {:induction false} HexTextOneMore(data: seq<byte>, b: byte)
    ensures HexText(data + [b]) == HexText(data) + Cell(b)
  {
    if data == [] {
      assert data + [b] == [b];
    } else {
      assert (data + [b])[1..] == data[1..] + [b];
      HexTextOneMore(data[1..], b);
    }
  }

  /** The first `i` bytes are printed, and terminated. */
  ghost predicate Printed(buffer: array<char>, data: seq<byte>, i: nat)
    reads buffer
  {
    && i <= |data| && buffer.Length == 3 * |data| + 1
    && buffer[..3 * i] == HexText(data[..i])
    && buffer[3 * i] == NUL
  }

  /** snprintf(&buffer[3 * i], 4, "%02X ", data[i]): three characters and the terminator. */
  method PrintCell(buffer: array<char>, data: seq<byte>, i: nat)
    requires i < |data| && Printed(buffer, data, i)
    modifies buffer
    ensures Printed(buffer, data, i + 1)
  {
    var at, cell := 3 * i, Cell(data[i]);
    ghost var before := buffer[..at];
    buffer[at], buffer[at + 1], buffer[at + 2], buffer[at + 3] := cell[0], cell[1], cell[2], NUL;
    assert buffer[..at + 3] == before + cell;
    HexTextOneMore(data[..i], data[i]);
    assert data[..i + 1] == data[..i] + [data[i]];
  }

  /** The printer never leaves its buffer of three characters a byte and one, and fills it with
      the text and its terminator. */
  method PrintPacket(data: seq<byte>) returns (printBuffer: array<char>)
    requires |data| <= 0xFFFF
    ensures fresh(printBuffer)
    ensures printBuffer[..] == HexText(data) + [NUL]
  {
    printBuffer := new char[3 * |data| + 1](_ => NUL);
    for i := 0 to |data|
      invariant Printed(printBuffer, data, i)
    {
      PrintCell(printBuffer, data, i);
    }
    assert data[..|data|] == data;
  }

  // ---------- digits ----------

  /** The digits and what they are worth, in both cases. */
  lemma DigitsInOrder(d: nat)
    requires d < 16
    ensures Digit(d) == "0123456789ABCDEF"[d] == Upper("0123456789abcdef"[d])
    ensures CharToByte("0123456789ABCDEF"[d]) == CharToByte("0123456789abcdef"[d]) == d
  {
  }

  lemma ParseTwo(hi: char, lo: char)
    ensures Parse([hi, lo]) == [Pack(CharToByte(hi), CharToByte(lo))]
  {
    ParseOneMore([], hi, lo);
    assert [] + [hi, lo] == [hi, lo];
  }

  /** A byte is printed, and read, high digit first. A character that is no digit makes all bits
      above it ones: in the high place it leaves the low digit, in the low place it leaves nothing. */
  lemma OneByteBothWays(hi: nat, lo: nat, c: char, other: char)
    requires hi < 16 && lo < 16 && !IsHex(c)
    ensures HexText([16 * hi + lo]) == [Digit(hi), Digit(lo), ' ']
    ensures Parse([Digit(hi), Digit(lo)]) == [16 * hi + lo]
    ensures Parse([c, Digit(lo)]) == [0xF0 + lo]
    ensures Parse([other, c]) == [0xFF]
  {
    var b := 16 * hi + lo;
    assert b / 16 == hi && b % 16 == lo;
    HexTextOneMore([], b);
    assert [] + [b] == [b];
    ParseTwo(Digit(hi), Digit(lo));
    ParseTwo(c, Digit(lo));
    ParseTwo(other, c);
  }

  // ---------- round trips ----------

  function NoSpaces(text: seq<char>): seq<char> {
    if text == [] then []
    else (if text[0] == ' ' then [] else [text[0]]) + NoSpaces(text[1..])
  }

  lemma NoSpacesInCell(b: byte, more: seq<char>)
    ensures NoSpaces(Cell(b) + more) == [Digit(b / 16), Digit(b % 16)] + NoSpaces(more)
  {
    var text := Cell(b) + more;
    assert text[1..] == [Digit(b % 16), ' '] + more && text[2..] == [' '] + more;
    assert text[1..][1..] == text[2..] && text[2..][1..] == more;
    calc {
      NoSpaces(text);
    ==
      [text[0]] + NoSpaces(text[1..]);
    == { assert NoSpaces(text[1..]) == [text[1]] + NoSpaces(text[2..]); }
      [text[0]] + ([text[1]] + NoSpaces(text[2..]));
    == { assert NoSpaces(text[2..]) == [] + NoSpaces(more); }
      [text[0], text[1]] + NoSpaces(more);
    }
  }

  /** What is printed, with its spaces removed, parses to the same bytes. */
  lemma {:induction false} PrintThenParse(data: seq<byte>)
    ensures var text := NoSpaces(HexText(data));
            && |text| == 2 * |data| && NUL !in text
            && Parse(text) == data
  {
    if data != [] {
      NoSpacesInCell(data[0], HexText(data[1..]));
      PrintThenParse(data[1..]);
      var text := NoSpaces(HexText(data));
      assert text[2..] == NoSpaces(HexText(data[1..]));
    }
  }

  ghost predicate AllHex(text: seq<char>) {
    forall i :: 0 <= i < |text| ==> IsHex(text[i])
  }

  /** The text printed for the bytes that `text` parses to. */
  function Reprinted(text: seq<char>): seq<char>
    requires |text| % 2 == 0
  {
    NoSpaces(HexText(Parse(text)))
  }

  lemma ReprintedByTwo(text: seq<char>)
    requires |text| % 2 == 0 && text != []
    ensures var b := Pack(CharToByte(text[0]), CharToByte(text[1]));
            Reprinted(text) == [Digit(b / 16), Digit(b % 16)] + Reprinted(text[2..])
  {
    var b := Pack(CharToByte(text[0]), CharToByte(text[1]));
    assert Parse(text)[1..] == Parse(text[2..]);
    NoSpacesInCell(b, HexText(Parse(text[2..])));
  }

  lemma AllHexByTwo(text: seq<char>)
    requires |text| >= 2
    ensures AllHex(text) <==> IsHex(text[0]) && IsHex(text[1]) && AllHex(text[2..])
  {
    assert text == [text[0], text[1]] + text[2..];
  }

  /** Printing what was parsed gives the text back in upper case exactly when all of it was hex. */
  lemma {:induction false} ParseThenPrint(text: seq<char>)
    requires |text| % 2 == 0
    ensures Reprinted(text) == UpperAll(text) <==> AllHex(text)
  {
    if text != [] {
      var b := Pack(CharToByte(text[0]), CharToByte(text[1]));
      ParseThenPrint(text[2..]);
      ReprintedByTwo(text);
      AllHexByTwo(text);
      PackDigits(text[0], text[1]);
      assert UpperAll(text) == [Upper(text[0]), Upper(text[1])] + UpperAll(text[2..]);
      SplitTwo([Digit(b / 16), Digit(b % 16)], Reprinted(text[2..]),
               [Upper(text[0]), Upper(text[1])], UpperAll(text[2..]));
    }
  }

  lemma SplitTwo(a: seq<char>, s: seq<char>, a': seq<char>, s': seq<char>)
    requires |a| == |a'| == 2
    ensures a + s == a' + s' <==> a[0] == a'[0] && a[1] == a'[1] && s == s'
  {
    if a + s == a' + s' {
      assert a == (a + s)[..2] && a' == (a' + s')[..2];
      assert s == (a + s)[2..] && s' == (a' + s')[2..];
    }
  }

  lemma PackDigits(hi: char, lo: char)
    ensures var b := Pack(CharToByte(hi), CharToByte(lo));
            Digit(b / 16) == Upper(hi) && Digit(b % 16) == Upper(lo) <==> IsHex(hi) && IsHex(lo)
  {
    var b := Pack(CharToByte(hi), CharToByte(lo));
    if IsHex(hi) && IsHex(lo) {
      assert b / 16 == CharToByte(hi) && b % 16 == CharToByte(lo);
    }
  }
}
