/** Reading and writing integers in network byte order. */
module NetParsers {
  import opened FixedWidth

  datatype ParseResult = NoError | BadChecksum | PacketTooShort | WrongIPVersion | HeaderTooShort | TruncatedPacket

  /** The unread rest of a buffer, and the first error met. */
  datatype Parser = Parser(buffer: seq<byte>, error: ParseResult)

  function FromBytes(bytes: seq<byte>): nat {
    if bytes == [] then 0 else FromBytes(bytes[..|bytes| - 1]) * 256 + bytes[|bytes| - 1]
  }

  function ToBytes(x: nat, len: nat): (bytes: seq<byte>)
    ensures |bytes| == len
  {
    if len == 0 then [] else ToBytes(x / 256, len - 1) + [x % 256]
  }

  function Range(len: nat): (r: nat)
    ensures r > 0
  {
    Pow2(8 * len)
  }

  lemma RangeStep(len: nat)
    requires len > 0
    ensures Range(len) == 256 * Range(len - 1)
  {
    var n := 8 * (len - 1);
    assert Pow2(n + 8) == 2 * Pow2(n + 7);
    assert Pow2(n + 7) == 2 * Pow2(n + 6);
    assert Pow2(n + 6) == 2 * Pow2(n + 5);
    assert Pow2(n + 5) == 2 * Pow2(n + 4);
    assert Pow2(n + 4) == 2 * Pow2(n + 3);
    assert Pow2(n + 3) == 2 * Pow2(n + 2);
    assert Pow2(n + 2) == 2 * Pow2(n + 1);
    assert Pow2(n + 1) == 2 * Pow2(n);
  }

  lemma Ranges()
    ensures Range(1) == TWO_8 && Range(2) == TWO_16 && Range(4) == TWO_32
  {
    assert Range(0) == 1;
    RangeStep(1);
    RangeStep(2);
    RangeStep(3);
    RangeStep(4);
  }

  lemma {:induction false} FromBytesBound(bytes: seq<byte>)
    ensures FromBytes(bytes) < Range(|bytes|)
  {
    if bytes != [] {
      FromBytesBound(bytes[..|bytes| - 1]);
      RangeStep(|bytes|);
    }
  }

  /** What is written can be read back. */
  lemma {:induction false} BytesRoundTrip(x: nat, len: nat)
    requires x < Range(len)
    ensures FromBytes(ToBytes(x, len)) == x
  {
    if len > 0 {
      RangeStep(len);
      BytesRoundTrip(x / 256, len - 1);
      assert ToBytes(x, len)[..len - 1] == ToBytes(x / 256, len - 1);
    }
  }

  function CheckSize(p: Parser, size: nat): Parser {
    if size > |p.buffer| then p.(error := PacketTooShort) else p
  }

  /** After an error every read gives zero and leaves the buffer alone. */
  function ReadInt(p: Parser, len: nat): (nat, Parser) {
    var p1 := CheckSize(p, len);
    if p1.error != NoError then (0, p1)
    else (FromBytes(p1.buffer[..len]), p1.(buffer := p1.buffer[len..]))
  }

  function ReadU8(p: Parser): (byte, Parser) { ReadBound(p, 1); ReadInt(p, 1) }

  function ReadU16(p: Parser): (u16, Parser) { ReadBound(p, 2); ReadInt(p, 2) }

  function ReadU32(p: Parser): (u32, Parser) { ReadBound(p, 4); ReadInt(p, 4) }

  lemma ReadBound(p: Parser, len: nat)
    requires len in {1, 2, 4}
    ensures 0 <= ReadInt(p, len).0 < if len == 1 then TWO_8 else if len == 2 then TWO_16 else TWO_32
  {
    Ranges();
    if CheckSize(p, len).error == NoError { FromBytesBound(p.buffer[..len]); }
  }

  function SkipBytes(p: Parser, n: nat): Parser {
    var p1 := CheckSize(p, n);
    if p1.error != NoError then p1 else p1.(buffer := p1.buffer[n..])
  }

  lemma ReadBack(x: nat, len: nat, rest: seq<byte>)
    requires x < Range(len)
    ensures ReadInt(Parser(ToBytes(x, len) + rest, NoError), len) == (x, Parser(rest, NoError))
  {
    BytesRoundTrip(x, len);
    assert (ToBytes(x, len) + rest)[..len] == ToBytes(x, len);
    assert (ToBytes(x, len) + rest)[len..] == rest;
  }

  lemma ReadBack8(x: byte, rest: seq<byte>)
    ensures ReadU8(Parser(ToBytes(x, 1) + rest, NoError)) == (x, Parser(rest, NoError))
  {
    Ranges();
    ReadBack(x, 1, rest);
  }

  lemma ReadBack16(x: u16, rest: seq<byte>)
    ensures ReadU16(Parser(ToBytes(x, 2) + rest, NoError)) == (x, Parser(rest, NoError))
  {
    Ranges();
    ReadBack(x, 2, rest);
  }

  lemma ReadBack32(x: u32, rest: seq<byte>)
    ensures ReadU32(Parser(ToBytes(x, 4) + rest, NoError)) == (x, Parser(rest, NoError))
  {
    Ranges();
    ReadBack(x, 4, rest);
  }

  class NetParser {
    var buffer: seq<byte>
    var error: ParseResult

    ghost function View(): Parser
      reads this
    {
      Parser(buffer, error)
    }

    constructor (buffer: seq<byte>)
      ensures View() == Parser(buffer, NoError)
    {
      this.buffer, error := buffer, NoError;
    }

    method ParseInt(len: nat) returns (ret: nat)
      modifies this
      ensures (ret, View()) == ReadInt(old(View()), len)
    {
      if len > |buffer| {
        error := PacketTooShort;
      }
      if error != NoError {
        return 0;
      }
      ret := 0;
      var i := 0;
      while i < len
        invariant 0 <= i <= len
        invariant ret == FromBytes(buffer[..i])
      {
        assert buffer[..i + 1][..i] == buffer[..i];
        ret := ret * 256 + buffer[i];
        i := i + 1;
      }
      buffer := buffer[len..];
    }

    method U8() returns (x: byte)
      modifies this
      ensures (x, View()) == ReadU8(old(View()))
    {
      ReadBound(View(), 1);
      x := ParseInt(1);
    }

    method U16() returns (x: u16)
      modifies this
      ensures (x, View()) == ReadU16(old(View()))
    {
      ReadBound(View(), 2);
      x := ParseInt(2);
    }

    method U32() returns (x: u32)
      modifies this
      ensures (x, View()) == ReadU32(old(View()))
    {
      ReadBound(View(), 4);
      x := ParseInt(4);
    }

    method RemovePrefix(n: nat)
      modifies this
      ensures View() == SkipBytes(old(View()), n)
    {
      if n > |buffer| {
        error := PacketTooShort;
      }
      if error != NoError {
        return;
      }
      buffer := buffer[n..];
    }
  }

  /** Appends the bytes of `val`, the most significant one first. */
  method UnparseInt(s: seq<byte>, val: nat, len: nat) returns (ret: seq<byte>)
    ensures ret == s + ToBytes(val, len)
  {
    ret := s;
    var i := 0;
    hide Range;
    while i < len
      invariant 0 <= i <= len
      invariant ret == s + ToBytes(Div(val, Range(len - i)), i)
    {
      UnparseStep(val, len - i - 1, i);
      ret := ret + [Div(val, Range(len - i - 1)) % 256];
      i := i + 1;
    }
    NoShift(val);
  }

  lemma NoShift(val: nat)
    ensures Div(val, Range(0)) == val
  {
  }

  lemma UnparseStep(val: nat, n: nat, i: nat)
    ensures ToBytes(Div(val, Range(n)), i + 1) == ToBytes(Div(val, Range(n + 1)), i) + [Div(val, Range(n)) % 256]
  {
    RangeStep(n + 1);
    DivideTwice(val, Range(n), 256);
  }
}
