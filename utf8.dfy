/** UTF-8, as Python's bytes(s, 'utf-8') and bytes.decode('utf-8') use it: the encoding of a
    string of Unicode scalar values, and the strict decoder that rejects overlong forms,
    surrogates, values above U+10FFFF and truncated or stray continuation bytes. */
module Utf8 {
  import opened Wrappers

  type Byte = b: int | 0 <= b < 256

  function EncodeChar(c: char): (r: seq<Byte>)
    ensures 1 <= |r| <= 4
  {
    var n := c as int;
    if n < 0x80 then [n]
    else if n < 0x800 then [0xC0 + n / 0x40, 0x80 + n % 0x40]
    else if n < 0x1_0000 then [0xE0 + n / 0x1000, 0x80 + n / 0x40 % 0x40, 0x80 + n % 0x40]
    else [0xF0 + n / 0x4_0000, 0x80 + n / 0x1000 % 0x40, 0x80 + n / 0x40 % 0x40, 0x80 + n % 0x40]
  }

  /** bytes(s, 'utf-8'). */
  function Encode(s: string): seq<Byte> {
    if s == [] then [] else EncodeChar(s[0]) + Encode(s[1..])
  }

  predicate IsContinuation(b: Byte) { 0x80 <= b < 0xC0 }

  /** The first character of a byte string and the number of bytes it takes. */
  datatype Decoded = Decoded(length: nat, ch: char)

  /** The continuation bits of the byte at i, as an int. */
  function Low6(bs: seq<Byte>, i: nat): int
    requires i < |bs|
  {
    bs[i] as int - 0x80
  }

  function DecodeFirst(bs: seq<Byte>): (r: Option<Decoded>)
    requires bs != []
    ensures r.Some? ==> 1 <= r.value.length <= |bs|
  {
    var b0 := bs[0] as int;
    if b0 < 0x80 then Some(Decoded(1, b0 as char))
    else if 0xC2 <= b0 < 0xE0 then
      if |bs| < 2 || !IsContinuation(bs[1]) then None
      else Some(Decoded(2, ((b0 - 0xC0) * 0x40 + Low6(bs, 1)) as char))
    else if 0xE0 <= b0 < 0xF0 then
      if |bs| < 3 || !IsContinuation(bs[1]) || !IsContinuation(bs[2]) then None
      else
        var n := (b0 - 0xE0) * 0x1000 + Low6(bs, 1) * 0x40 + Low6(bs, 2);
        if n < 0x800 || 0xD800 <= n < 0xE000 then None else Some(Decoded(3, n as char))
    else if 0xF0 <= b0 < 0xF5 then
      if |bs| < 4 || !IsContinuation(bs[1]) || !IsContinuation(bs[2]) || !IsContinuation(bs[3]) then None
      else
        var n := (b0 - 0xF0) * 0x4_0000 + Low6(bs, 1) * 0x1000 + Low6(bs, 2) * 0x40 + Low6(bs, 3);
        if n < 0x1_0000 || n > 0x10_FFFF then None else Some(Decoded(4, n as char))
    else None
  }

  /** bytes.decode('utf-8'): UnicodeDecodeError on the first malformed sequence. */
  function Decode(bs: seq<Byte>): Result<string>
    decreases |bs|
  {
    if bs == [] then Success([])
    else match DecodeFirst(bs)
      case None => Failure(DecodeFailure)
      case Some(d) =>
        match Decode(bs[d.length..])
          case Failure(e) => Failure(e)
          case Success(rest) => Success([d.ch] + rest)
  }

  /** The decoder reads an encoded character back, whatever follows it. */
  lemma DecodeFirstEncodeChar(c: char, rest: seq<Byte>)
    ensures DecodeFirst(EncodeChar(c) + rest) == Some(Decoded(|EncodeChar(c)|, c))
  {
    var n := c as int;
    if 0x80 <= n < 0x800 {
      DecodeFirstEncode2(c, rest);
    } else if 0x800 <= n < 0x1_0000 {
      DecodeFirstEncode3(c, rest);
    } else if 0x1_0000 <= n {
      DecodeFirstEncode4(c, rest);
    }
  }

  lemma DecodeFirstEncode2(c: char, rest: seq<Byte>)
    requires 0x80 <= c as int < 0x800
    ensures DecodeFirst(EncodeChar(c) + rest) == Some(Decoded(2, c))
  {
    var n := c as int;
    var bs := EncodeChar(c) + rest;
    assert bs[0] == 0xC0 + n / 0x40 && bs[1] == 0x80 + n % 0x40;
    assert (bs[0] as int - 0xC0) * 0x40 + Low6(bs, 1) == n;
  }

  lemma DecodeFirstEncode3(c: char, rest: seq<Byte>)
    requires 0x800 <= c as int < 0x1_0000
    ensures DecodeFirst(EncodeChar(c) + rest) == Some(Decoded(3, c))
  {
    var n := c as int;
    var bs := EncodeChar(c) + rest;
    assert bs[0] == 0xE0 + n / 0x1000 && bs[1] == 0x80 + n / 0x40 % 0x40 && bs[2] == 0x80 + n % 0x40;
    assert n == (n / 0x1000) * 0x1000 + (n / 0x40 % 0x40) * 0x40 + n % 0x40;
    assert (bs[0] as int - 0xE0) * 0x1000 + Low6(bs, 1) * 0x40 + Low6(bs, 2) == n;
  }

  lemma DecodeFirstEncode4(c: char, rest: seq<Byte>)
    requires 0x1_0000 <= c as int
    ensures DecodeFirst(EncodeChar(c) + rest) == Some(Decoded(4, c))
  {
    var n := c as int;
    var bs := EncodeChar(c) + rest;
    var q1, q2, q3 := n / 0x40, n / 0x1000, n / 0x4_0000;
    assert q1 == q2 * 0x40 + q1 % 0x40 && q2 == q3 * 0x40 + q2 % 0x40 && n == q1 * 0x40 + n % 0x40 by {
      DivDiv64(n);
      DivDiv4096(n);
    }
    assert n == q3 * 0x4_0000 + (q2 % 0x40) * 0x1000 + (q1 % 0x40) * 0x40 + n % 0x40;
    assert bs[0] == 0xF0 + q3 && bs[1] == 0x80 + q2 % 0x40;
    assert bs[2] == 0x80 + q1 % 0x40 && bs[3] == 0x80 + n % 0x40;
    assert (bs[0] as int - 0xF0) * 0x4_0000 + Low6(bs, 1) * 0x1000 + Low6(bs, 2) * 0x40 + Low6(bs, 3) == n;
  }

  /** The decoder only accepts the encoding of what it returns. */
  lemma DecodeFirstIsEncoding(bs: seq<Byte>)
    requires bs != [] && DecodeFirst(bs).Some?
    ensures var d := DecodeFirst(bs).value; bs[..d.length] == EncodeChar(d.ch)
  {
    var d := DecodeFirst(bs).value;
    if d.length == 2 {
      DecodeFirstIs2(bs);
    } else if d.length == 3 {
      DecodeFirstIs3(bs);
    } else if d.length == 4 {
      DecodeFirstIs4(bs);
    }
  }

  lemma DecodeFirstIs2(bs: seq<Byte>)
    requires bs != [] && DecodeFirst(bs).Some? && DecodeFirst(bs).value.length == 2
    ensures bs[..2] == EncodeChar(DecodeFirst(bs).value.ch)
  {
    var b0 := bs[0] as int;
    var n := (b0 - 0xC0) * 0x40 + Low6(bs, 1);
    assert 0xC2 <= b0 < 0xE0 && IsContinuation(bs[1]);
    assert DecodeFirst(bs).value.ch as int == n;
    DivMod64(n, b0 - 0xC0, Low6(bs, 1));
  }

  lemma DecodeFirstIs3(bs: seq<Byte>)
    requires bs != [] && DecodeFirst(bs).Some? && DecodeFirst(bs).value.length == 3
    ensures bs[..3] == EncodeChar(DecodeFirst(bs).value.ch)
  {
    var b0 := bs[0] as int;
    var n := (b0 - 0xE0) * 0x1000 + Low6(bs, 1) * 0x40 + Low6(bs, 2);
    assert 0xE0 <= b0 < 0xF0 && IsContinuation(bs[1]) && IsContinuation(bs[2]);
    assert DecodeFirst(bs).value.ch as int == n;
    var hi := (b0 - 0xE0) * 0x40 + Low6(bs, 1);
    DivMod64(n, hi, Low6(bs, 2));
    DivMod64(hi, b0 - 0xE0, Low6(bs, 1));
    DivDiv64(n);
  }

  lemma DecodeFirstIs4(bs: seq<Byte>)
    requires bs != [] && DecodeFirst(bs).Some? && DecodeFirst(bs).value.length == 4
    ensures bs[..4] == EncodeChar(DecodeFirst(bs).value.ch)
  {
    var b0 := bs[0] as int;
    var n := (b0 - 0xF0) * 0x4_0000 + Low6(bs, 1) * 0x1000 + Low6(bs, 2) * 0x40 + Low6(bs, 3);
    assert 0xF0 <= b0 < 0xF5 && IsContinuation(bs[1]) && IsContinuation(bs[2]) && IsContinuation(bs[3]);
    assert DecodeFirst(bs).value.ch as int == n;
    var hi := (b0 - 0xF0) * 0x1000 + Low6(bs, 1) * 0x40 + Low6(bs, 2);
    var top := (b0 - 0xF0) * 0x40 + Low6(bs, 1);
    DivMod64(n, hi, Low6(bs, 3));
    DivMod64(hi, top, Low6(bs, 2));
    DivMod64(top, b0 - 0xF0, Low6(bs, 1));
    DivDiv64(n);
    DivDiv4096(n);
  }

  /** Splitting an int into its quotient and remainder by 64. */
  lemma DivMod64(n: int, q: int, r: int)
    requires 0 <= r < 0x40 && n == q * 0x40 + r
    ensures n / 0x40 == q && n % 0x40 == r
  {
  }

  lemma DivDiv64(n: int)
    requires n >= 0
    ensures n / 0x40 / 0x40 == n / 0x1000
  {
    var q, r := n / 0x1000, n % 0x1000;
    DivMod64(r, r / 0x40, r % 0x40);
    DivMod64(n, q * 0x40 + r / 0x40, r % 0x40);
    DivMod64(n / 0x40, q, r / 0x40);
  }

  lemma DivDiv4096(n: int)
    requires n >= 0
    ensures n / 0x1000 / 0x40 == n / 0x4_0000
  {
    var q, r := n / 0x4_0000, n % 0x4_0000;
    var h := r / 0x1000;
    assert r == h * 0x1000 + r % 0x1000 && 0 <= h < 0x40;
    assert n == (q * 0x40 + h) * 0x1000 + r % 0x1000;
    assert n / 0x1000 == q * 0x40 + h;
    DivMod64(n / 0x1000, q, h);
  }

  /** Decoding an encoding gives the string back. */
  lemma {:induction false} DecodeEncode(s: string)
    ensures Decode(Encode(s)) == Success(s)
  {
    if s != [] {
      var e := EncodeChar(s[0]);
      DecodeFirstEncodeChar(s[0], Encode(s[1..]));
      assert (e + Encode(s[1..]))[|e|..] == Encode(s[1..]);
      DecodeEncode(s[1..]);
      assert [s[0]] + s[1..] == s;
    }
  }

  lemma EncodeCons(c: char, s: string)
    ensures Encode([c] + s) == EncodeChar(c) + Encode(s)
  {
    assert ([c] + s)[1..] == s;
  }

  /** Whatever the decoder accepts is the encoding of its result. */
  lemma {:induction false} EncodeDecode(bs: seq<Byte>)
    requires Decode(bs).Success?
    ensures Encode(Decode(bs).value) == bs
    decreases |bs|
  {
    if bs != [] {
      var d := DecodeFirst(bs).value;
      var rest := Decode(bs[d.length..]).value;
      assert Decode(bs).value == [d.ch] + rest;
      calc {
        Encode(Decode(bs).value);
        Encode([d.ch] + rest);
        { EncodeCons(d.ch, rest); }
        EncodeChar(d.ch) + Encode(rest);
        { EncodeDecode(bs[d.length..]); DecodeFirstIsEncoding(bs); }
        bs[..d.length] + bs[d.length..];
        bs;
      }
    }
  }
}
