/**
 * Python's strict UTF-8 codec, as used by `bytes(s, 'utf-8')` and
 * `b.decode("utf_8")` on player names.  A Python `str` is a sequence of
 * code points; encoding refuses lone surrogates, decoding refuses
 * truncated sequences, bad continuation bytes, overlong forms, surrogates
 * and anything above U+10FFFF.
 */
module Utf8 {
  import opened Base

  /** One element of a Python `str`. */
  type CodePoint = c: int | 0 <= c < 0x11_0000

  predicate IsSurrogate(c: int) { 0xD800 <= c <= 0xDFFF }

  /** True when `bytes(s, 'utf-8')` does not raise UnicodeEncodeError. */
  predicate Encodable(s: seq<CodePoint>) {
    forall i :: 0 <= i < |s| ==> !IsSurrogate(s[i])
  }

  predicate IsContinuation(b: byte) { 0x80 <= b < 0xC0 }

  /** Encoded width of one scalar value. */
  function EncodedWidth(c: CodePoint): (n: nat)
    ensures 1 <= n <= 4
  {
    if c < 0x80 then 1 else if c < 0x800 then 2 else if c < 0x1_0000 then 3 else 4
  }

  function EncodeChar(c: CodePoint): (r: seq<byte>)
    requires !IsSurrogate(c)
    ensures |r| == EncodedWidth(c)
  {
    if c < 0x80 then [c]
    else if c < 0x800 then [0xC0 + c / 64, 0x80 + c % 64]
    else if c < 0x1_0000 then [0xE0 + c / 4096, 0x80 + (c / 64) % 64, 0x80 + c % 64]
    else [0xF0 + c / 262144, 0x80 + (c / 4096) % 64, 0x80 + (c / 64) % 64, 0x80 + c % 64]
  }

  /** The UTF-8 form of an encodable string. */
  function EncodeAll(s: seq<CodePoint>): seq<byte>
    requires Encodable(s)
  {
    if s == [] then [] else EncodeChar(s[0]) + EncodeAll(s[1..])
  }

  /** `bytes(s, 'utf-8')`: None stands for UnicodeEncodeError. */
  function Encode(s: seq<CodePoint>): (r: Option<seq<byte>>)
    ensures r.Some? <==> Encodable(s)
  {
    if Encodable(s) then Some(EncodeAll(s)) else None
  }

  /** Decodes the first character of `b`: its code point and how many bytes it took. */
  function DecodeChar(b: seq<byte>): (r: Option<(CodePoint, nat)>)
    requires |b| > 0
    ensures r.Some? ==> 1 <= r.value.1 <= |b| && r.value.1 <= 4 && !IsSurrogate(r.value.0)
  {
    var b0: int := b[0];
    if b0 < 0x80 then Some((b0, 1))
    else if 0xC2 <= b0 < 0xE0 then
      if |b| >= 2 && IsContinuation(b[1]) then
        Some(((b0 - 0xC0) * 64 + (b[1] as int - 0x80), 2))
      else None
    else if 0xE0 <= b0 < 0xF0 then
      if |b| >= 3 && IsContinuation(b[1]) && IsContinuation(b[2]) then
        var c := (b0 - 0xE0) * 4096 + (b[1] as int - 0x80) * 64 + (b[2] as int - 0x80);
        if 0x800 <= c && !IsSurrogate(c) then Some((c, 3)) else None
      else None
    else if 0xF0 <= b0 < 0xF5 then
      if |b| >= 4 && IsContinuation(b[1]) && IsContinuation(b[2]) && IsContinuation(b[3]) then
        var c := (b0 - 0xF0) * 262144 + (b[1] as int - 0x80) * 4096 + (b[2] as int - 0x80) * 64 + (b[3] as int - 0x80);
        if 0x1_0000 <= c < 0x11_0000 then Some((c, 4)) else None
      else None
    else None
  }

  /** `b.decode("utf_8")`: None stands for UnicodeDecodeError. */
  function Decode(b: seq<byte>): (r: Option<seq<CodePoint>>)
    decreases |b|
  {
    if b == [] then Some([])
    else match DecodeChar(b)
      case None => None
      case Some((c, n)) =>
        match Decode(b[n..])
        case None => None
        case Some(t) => Some([c] + t)
  }

  /** A two-byte form: `c` split into 5 + 6 bits. */
  lemma Split2(c: int)
    requires 0x80 <= c < 0x800
    ensures 2 <= c / 64 < 32 && c == (c / 64) * 64 + c % 64
  {
  }

  /** A three-byte form: `c` split into 4 + 6 + 6 bits. */
  lemma Split3(c: int)
    requires 0x800 <= c < 0x1_0000
    ensures c / 4096 < 16 && c == (c / 4096) * 4096 + ((c / 64) % 64) * 64 + c % 64
  {
    assert c / 64 == (c / 4096) * 64 + (c / 64) % 64;
  }

  /** A four-byte form: `c` split into 3 + 6 + 6 + 6 bits. */
  lemma Split4(c: int)
    requires 0x1_0000 <= c < 0x11_0000
    ensures c / 262144 < 5
    ensures c == (c / 262144) * 262144 + ((c / 4096) % 64) * 4096 + ((c / 64) % 64) * 64 + c % 64
  {
    assert c / 64 == (c / 4096) * 64 + (c / 64) % 64;
    assert c / 4096 == (c / 262144) * 64 + (c / 4096) % 64;
  }

  /** The bits of a two-byte form, read back. */
  lemma Join2(x0: int, x1: int)
    requires 0 <= x1 < 64
    ensures (x0 * 64 + x1) / 64 == x0 && (x0 * 64 + x1) % 64 == x1
  {
  }

  /** The bits of a three-byte form, read back. */
  lemma Join3(x0: int, x1: int, x2: int)
    requires 0 <= x0 && 0 <= x1 < 64 && 0 <= x2 < 64
    ensures var c := x0 * 4096 + x1 * 64 + x2; c / 4096 == x0 && (c / 64) % 64 == x1 && c % 64 == x2
  {
    var c := x0 * 4096 + x1 * 64 + x2;
    Join2(x0 * 64 + x1, x2);
    Join2(x0, x1);
    assert c == (x0 * 64 + x1) * 64 + x2;
    assert c / 4096 == (c / 64) / 64;
  }

  /** The bits of a four-byte form, read back. */
  lemma Join4(x0: int, x1: int, x2: int, x3: int)
    requires 0 <= x0 && 0 <= x1 < 64 && 0 <= x2 < 64 && 0 <= x3 < 64
    ensures var c := x0 * 262144 + x1 * 4096 + x2 * 64 + x3;
      c / 262144 == x0 && (c / 4096) % 64 == x1 && (c / 64) % 64 == x2 && c % 64 == x3
  {
    var c := x0 * 262144 + x1 * 4096 + x2 * 64 + x3;
    var hi := x0 * 64 + x1;
    Join3(hi, x2, x3);
    Join2(x0, x1);
    assert c == hi * 4096 + x2 * 64 + x3;
    assert c / 262144 == (c / 4096) / 64;
  }

  lemma DecodeTwo(c: CodePoint, rest: seq<byte>)
    requires 0x80 <= c < 0x800
    ensures DecodeChar(EncodeChar(c) + rest) == Some((c, 2))
  {
    var b := EncodeChar(c) + rest;
    Split2(c);
    assert b[0] == 0xC0 + c / 64 && b[1] == 0x80 + c % 64;
  }

  lemma DecodeThree(c: CodePoint, rest: seq<byte>)
    requires 0x800 <= c < 0x1_0000 && !IsSurrogate(c)
    ensures DecodeChar(EncodeChar(c) + rest) == Some((c, 3))
  {
    var b := EncodeChar(c) + rest;
    Split3(c);
    assert b[0] == 0xE0 + c / 4096 && b[1] == 0x80 + (c / 64) % 64 && b[2] == 0x80 + c % 64;
  }

  lemma DecodeFour(c: CodePoint, rest: seq<byte>)
    requires 0x1_0000 <= c
    ensures DecodeChar(EncodeChar(c) + rest) == Some((c, 4))
  {
    var b := EncodeChar(c) + rest;
    Split4(c);
    assert b[0] == 0xF0 + c / 262144;
    assert b[1] == 0x80 + (c / 4096) % 64 && b[2] == 0x80 + (c / 64) % 64 && b[3] == 0x80 + c % 64;
  }

  /** Decoding the UTF-8 form of one character, followed by anything, reads that character back. */
  lemma DecodeEncodeChar(c: CodePoint, rest: seq<byte>)
    requires !IsSurrogate(c)
    ensures DecodeChar(EncodeChar(c) + rest) == Some((c, EncodedWidth(c)))
  {
    if c < 0x80 {
    } else if c < 0x800 {
      DecodeTwo(c, rest);
    } else if c < 0x1_0000 {
      DecodeThree(c, rest);
    } else {
      DecodeFour(c, rest);
    }
  }

  lemma EncodeTwo(c: CodePoint, b0: byte, b1: byte)
    requires 0xC2 <= b0 < 0xE0 && IsContinuation(b1) && c == (b0 - 0xC0) * 64 + (b1 - 0x80)
    ensures EncodedWidth(c) == 2 && EncodeChar(c) == [b0, b1]
  {
    Join2(b0 - 0xC0, b1 - 0x80);
  }

  lemma EncodeThree(c: CodePoint, b0: byte, b1: byte, b2: byte)
    requires 0xE0 <= b0 < 0xF0 && IsContinuation(b1) && IsContinuation(b2)
    requires c == (b0 - 0xE0) * 4096 + (b1 - 0x80) * 64 + (b2 - 0x80) && 0x800 <= c && !IsSurrogate(c)
    ensures EncodedWidth(c) == 3 && EncodeChar(c) == [b0, b1, b2]
  {
    Join3(b0 - 0xE0, b1 - 0x80, b2 - 0x80);
  }

  lemma EncodeFour(c: CodePoint, b0: byte, b1: byte, b2: byte, b3: byte)
    requires 0xF0 <= b0 < 0xF5 && IsContinuation(b1) && IsContinuation(b2) && IsContinuation(b3)
    requires c == (b0 - 0xF0) * 262144 + (b1 - 0x80) * 4096 + (b2 - 0x80) * 64 + (b3 - 0x80) && 0x1_0000 <= c
    ensures EncodedWidth(c) == 4 && EncodeChar(c) == [b0, b1, b2, b3]
  {
    Join4(b0 - 0xF0, b1 - 0x80, b2 - 0x80, b3 - 0x80);
  }

  /** Re-encoding a decoded character yields exactly the bytes it was read from. */
  lemma EncodeDecodeChar(b: seq<byte>)
    requires |b| > 0 && DecodeChar(b).Some?
    ensures var (c, n) := DecodeChar(b).value; EncodedWidth(c) == n && EncodeChar(c) == b[..n]
  {
    var (c, n) := DecodeChar(b).value;
    if n == 1 {
      assert b[..1] == [b[0]];
    } else if n == 2 {
      EncodeTwo(c, b[0], b[1]);
      assert b[..2] == [b[0], b[1]];
    } else if n == 3 {
      EncodeThree(c, b[0], b[1], b[2]);
      assert b[..3] == [b[0], b[1], b[2]];
    } else {
      EncodeFour(c, b[0], b[1], b[2], b[3]);
      assert b[..4] == [b[0], b[1], b[2], b[3]];
    }
  }

  /** Round trip: decoding the UTF-8 form of any encodable string gives the string back. */
  lemma {:induction false} DecodeEncode(s: seq<CodePoint>)
    requires Encodable(s)
    ensures Decode(EncodeAll(s)) == Some(s)
  {
    if s != [] {
      var rest := EncodeAll(s[1..]);
      var e := EncodeChar(s[0]) + rest;
      assert EncodeAll(s) == e;
      DecodeEncodeChar(s[0], rest);
      DropConcat(EncodeChar(s[0]), rest);
      DecodeEncode(s[1..]);
      HeadTail(s);
    }
  }

  /** The other direction: whatever decodes is the UTF-8 form of what it decodes to, so decoding is injective. */
  lemma {:induction false} EncodeDecode(b: seq<byte>)
    requires Decode(b).Some?
    ensures Encodable(Decode(b).value) && EncodeAll(Decode(b).value) == b
    decreases |b|
  {
    if b != [] {
      var (c, n) := DecodeChar(b).value;
      EncodeDecodeChar(b);
      EncodeDecode(b[n..]);
      var t := Decode(b[n..]).value;
      assert Decode(b).value == [c] + t;
      ConsParts(c, t);
      SplitJoin(b, n);
    }
  }

  /** Only the encoding of U+0000 contains a zero byte at its end. */
  lemma EncodeCharLastByte(c: CodePoint)
    requires !IsSurrogate(c)
    ensures var e := EncodeChar(c); e[|e| - 1] == 0 <==> c == 0
  {
  }

  /** The UTF-8 form of a string ends in a zero byte exactly when the string ends in U+0000. */
  lemma {:induction false} EncodeAllLastByte(s: seq<CodePoint>)
    requires Encodable(s) && s != []
    ensures var e := EncodeAll(s); |e| > 0 && (e[|e| - 1] == 0 <==> s[|s| - 1] == 0)
  {
    var head, tail := EncodeChar(s[0]), EncodeAll(s[1..]);
    assert EncodeAll(s) == head + tail;
    if |s| == 1 {
      assert s[1..] == [];
      assert head + tail == head;
      EncodeCharLastByte(s[0]);
    } else {
      EncodeAllLastByte(s[1..]);
      TailAt(s, |s| - 1);
      LastOfConcat(head, tail);
    }
  }
}
