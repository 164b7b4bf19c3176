/**
 * The part of Python's `struct` module that the packets use: format strings
 * made of 'h' (signed 16-bit), 'B' (unsigned 8-bit) and '<n>s' (n raw bytes)
 * with no byte-order prefix, i.e. native mode.  Native mode means native
 * byte order, which this model fixes to little-endian, and native alignment:
 * a pad byte is inserted before an 'h' that would start at an odd offset.
 */
module Struct {
  import opened Base

  /** One conversion of a format string: 'h', 'B' or '<n>s'. */
  datatype Code = Short | UByte | Chars(n: nat)

  /** A Python value handed to `struct.pack` or returned by `struct.unpack`. */
  datatype Value = Int(i: int) | Bytes(b: seq<byte>)

  /** The reasons `struct.error` is raised. */
  datatype StructError =
    | ArgCount      // pack got more or fewer values than the format has conversions
    | NotAnInteger  // 'h' or 'B' given something that is not an int
    | OutOfRange    // 'h' outside [-32768, 32767] or 'B' outside [0, 255]
    | NotBytes      // 's' given something that is not a bytes object
    | BufferSize    // unpack given a buffer whose length is not calcsize(format)

  function Width(c: Code): nat {
    match c
    case Short => 2
    case UByte => 1
    case Chars(n) => n
  }

  /** Native alignment: pad bytes inserted before conversion `c` at offset `off`. */
  function Pad(c: Code, off: nat): nat {
    if c.Short? && off % 2 == 1 then 1 else 0
  }

  /** The offset just past `fmt` when its first conversion is laid out at `off`. */
  function End(fmt: seq<Code>, off: nat): (r: nat)
    ensures r >= off
  {
    if fmt == [] then off else End(fmt[1..], off + Pad(fmt[0], off) + Width(fmt[0]))
  }

  /** `struct.calcsize(fmt)`; native mode adds no trailing padding. */
  function CalcSize(fmt: seq<Code>): nat {
    End(fmt, 0)
  }

  /** One step of the layout, at position `i` of `fmt`. */
  lemma LayoutStep(fmt: seq<Code>, i: nat, off: nat)
    requires i < |fmt|
    ensures End(fmt[i..], off) == End(fmt[i + 1..], off + Pad(fmt[i], off) + Width(fmt[i]))
    ensures Aligned(fmt[i..], off) <==> Pad(fmt[i], off) == 0 && Aligned(fmt[i + 1..], off + Width(fmt[i]))
  {
    assert fmt[i..][0] == fmt[i] && fmt[i..][1..] == fmt[i + 1..];
  }

  /** No pad byte is needed anywhere in `fmt` laid out from `off`. */
  predicate Aligned(fmt: seq<Code>, off: nat) {
    fmt == [] || (Pad(fmt[0], off) == 0 && Aligned(fmt[1..], off + Width(fmt[0])))
  }

  /** `v` is an acceptable argument for conversion `c`. */
  predicate Fits(c: Code, v: Value) {
    match c
    case Short => v.Int? && -32768 <= v.i <= 32767
    case UByte => v.Int? && 0 <= v.i <= 255
    case Chars(_) => v.Bytes?
  }

  /** `v` has the Python type conversion `c` takes (an int for 'h' and 'B', bytes for 's'), whatever its size. */
  predicate SameKind(c: Code, v: Value) {
    if c.Chars? then v.Bytes? else v.Int?
  }

  /** Every value fits its conversion, field by field. */
  predicate AllFit(fmt: seq<Code>, vals: seq<Value>) {
    |fmt| == |vals| && (fmt == [] || (Fits(fmt[0], vals[0]) && AllFit(fmt[1..], vals[1..])))
  }

  lemma {:induction false} AllFitIndex(fmt: seq<Code>, vals: seq<Value>)
    requires |fmt| == |vals|
    ensures AllFit(fmt, vals) <==> forall k :: 0 <= k < |fmt| ==> Fits(fmt[k], vals[k])
  {
    if fmt != [] {
      AllFitIndex(fmt[1..], vals[1..]);
      if forall k :: 0 <= k < |fmt| ==> Fits(fmt[k], vals[k]) {
        forall k | 0 <= k < |fmt| - 1 ensures Fits(fmt[1..][k], vals[1..][k]) {
          assert fmt[1..][k] == fmt[k + 1] && vals[1..][k] == vals[k + 1];
        }
      }
      if AllFit(fmt, vals) {
        forall k | 0 <= k < |fmt| ensures Fits(fmt[k], vals[k]) {
          if k > 0 {
            assert fmt[1..][k - 1] == fmt[k] && vals[1..][k - 1] == vals[k];
          }
        }
      }
    }
  }

  /** What '<n>s' does to a bytes argument: truncate to n bytes or pad with zero bytes. */
  function Fit(b: seq<byte>, n: nat): (r: seq<byte>)
    ensures |r| == n
    ensures forall k :: 0 <= k < n ==> r[k] == if k < |b| then b[k] else 0
  {
    if |b| >= n then b[..n] else b + Zeros(n - |b|)
  }

  /** Little-endian two's complement form of a 16-bit value. */
  function ShortBytes(i: int): (r: seq<byte>)
    requires -32768 <= i <= 32767
    ensures |r| == 2
  {
    var u := if i < 0 then i + 65536 else i;
    [u % 256, u / 256]
  }

  /** Reads a little-endian two's complement 16-bit value. */
  function ShortValue(lo: byte, hi: byte): (i: int)
    ensures -32768 <= i <= 32767
  {
    var u := lo + 256 * hi as int;
    if u >= 32768 then u - 65536 else u
  }

  lemma ShortRoundTrip(i: int)
    requires -32768 <= i <= 32767
    ensures ShortValue(ShortBytes(i)[0], ShortBytes(i)[1]) == i
  {
  }

  lemma ShortBytesOfValue(lo: byte, hi: byte)
    ensures ShortBytes(ShortValue(lo, hi)) == [lo, hi]
  {
  }

  function PackOne(c: Code, v: Value): (r: Result<seq<byte>, StructError>)
    ensures r.Ok? <==> Fits(c, v)
    ensures r.Ok? ==> |r.value| == Width(c)
  {
    match c
    case Short =>
      if !v.Int? then Err(NotAnInteger)
      else if -32768 <= v.i <= 32767 then Ok(ShortBytes(v.i))
      else Err(OutOfRange)
    case UByte =>
      if !v.Int? then Err(NotAnInteger)
      else if 0 <= v.i <= 255 then Ok([v.i])
      else Err(OutOfRange)
    case Chars(n) =>
      if v.Bytes? then Ok(Fit(v.b, n)) else Err(NotBytes)
  }

  /** Packs `vals` by `fmt` from offset `off`; the first value that does not fit raises. */
  function PackFrom(fmt: seq<Code>, vals: seq<Value>, off: nat): (r: Result<seq<byte>, StructError>)
    requires |fmt| == |vals|
    ensures r.Ok? ==> |r.value| == End(fmt, off) - off
  {
    if fmt == [] then Ok([])
    else
      var p := Pad(fmt[0], off);
      match PackOne(fmt[0], vals[0])
      case Err(e) => Err(e)
      case Ok(field) =>
        match PackFrom(fmt[1..], vals[1..], off + p + Width(fmt[0]))
        case Err(e) => Err(e)
        case Ok(rest) => Ok(Zeros(p) + field + rest)
  }

  /** Packing succeeds exactly when every value fits its conversion. */
  lemma {:induction false} PackFromOk(fmt: seq<Code>, vals: seq<Value>, off: nat)
    requires |fmt| == |vals|
    ensures PackFrom(fmt, vals, off).Ok? <==> AllFit(fmt, vals)
  {
    if fmt != [] {
      PackFromOk(fmt[1..], vals[1..], off + Pad(fmt[0], off) + Width(fmt[0]));
    }
  }

  /** When every value has the right Python type, the only way packing fails is a number out of range. */
  lemma {:induction false} PackFromRangeError(fmt: seq<Code>, vals: seq<Value>, off: nat)
    requires |fmt| == |vals| && forall k :: 0 <= k < |fmt| ==> SameKind(fmt[k], vals[k])
    ensures PackFrom(fmt, vals, off).Err? ==> PackFrom(fmt, vals, off).error == OutOfRange
  {
    if fmt != [] && PackOne(fmt[0], vals[0]).Ok? {
      var p := Pad(fmt[0], off);
      forall k | 0 <= k < |fmt| - 1 ensures SameKind(fmt[1..][k], vals[1..][k]) {
        assert fmt[1..][k] == fmt[k + 1] && vals[1..][k] == vals[k + 1];
      }
      PackFromRangeError(fmt[1..], vals[1..], off + p + Width(fmt[0]));
    }
  }

  /** `struct.pack(fmt, *vals)`. */
  function Pack(fmt: seq<Code>, vals: seq<Value>): (r: Result<seq<byte>, StructError>)
    ensures r.Ok? <==> AllFit(fmt, vals)
    ensures r.Ok? ==> |r.value| == CalcSize(fmt)
    ensures |vals| != |fmt| ==> r == Err(ArgCount)
  {
    if |vals| != |fmt| then Err(ArgCount)
    else
      PackFromOk(fmt, vals, 0);
      PackFrom(fmt, vals, 0)
  }

  function ReadOne(c: Code, b: seq<byte>): (v: Value)
    requires |b| == Width(c)
  {
    match c
    case Short => Int(ShortValue(b[0], b[1]))
    case UByte => Int(b[0])
    case Chars(_) => Bytes(b)
  }

  function UnpackFrom(fmt: seq<Code>, raw: seq<byte>, off: nat): (vals: seq<Value>)
    requires |raw| == End(fmt, off) - off
    ensures |vals| == |fmt|
  {
    if fmt == [] then []
    else
      var p, w := Pad(fmt[0], off), Width(fmt[0]);
      [ReadOne(fmt[0], raw[p..p + w])] + UnpackFrom(fmt[1..], raw[p + w..], off + p + w)
  }

  /** `struct.unpack(fmt, raw)`: the buffer must be exactly `calcsize(fmt)` bytes long. */
  function Unpack(fmt: seq<Code>, raw: seq<byte>): (r: Result<seq<Value>, StructError>)
    ensures r.Err? <==> |raw| != CalcSize(fmt)
    ensures r.Err? ==> r.error == BufferSize
  {
    if |raw| != CalcSize(fmt) then Err(BufferSize) else Ok(UnpackFrom(fmt, raw, 0))
  }

  /** What unpacking gives back for a value that packed: 's' fields come back fitted to their width. */
  function Normal(c: Code, v: Value): Value
    requires Fits(c, v)
  {
    match c
    case Chars(n) => Bytes(Fit(v.b, n))
    case _ => v
  }

  /** `out` holds, field by field, the normal form of each of `vals`. */
  predicate Normalized(fmt: seq<Code>, vals: seq<Value>, out: seq<Value>)
    requires AllFit(fmt, vals)
  {
    |out| == |fmt| && (fmt == [] || (out[0] == Normal(fmt[0], vals[0]) && Normalized(fmt[1..], vals[1..], out[1..])))
  }

  lemma {:induction false} NormalizedAt(fmt: seq<Code>, vals: seq<Value>, out: seq<Value>, k: nat)
    requires AllFit(fmt, vals) && Normalized(fmt, vals, out) && k < |fmt|
    ensures Fits(fmt[k], vals[k]) && out[k] == Normal(fmt[k], vals[k])
  {
    if k > 0 {
      NormalizedAt(fmt[1..], vals[1..], out[1..], k - 1);
      TailAt(fmt, k);
      TailAt(vals, k);
      TailAt(out, k);
    }
  }

  /** One field: reading back what was packed gives the normalised value. */
  lemma ReadPackOne(c: Code, v: Value)
    requires Fits(c, v)
    ensures ReadOne(c, PackOne(c, v).value) == Normal(c, v)
  {
    if c.Short? {
      ShortRoundTrip(v.i);
    }
  }

  /** One field: packing what was read gives the same bytes. */
  lemma PackReadOne(c: Code, b: seq<byte>)
    requires |b| == Width(c)
    ensures Fits(c, ReadOne(c, b)) && PackOne(c, ReadOne(c, b)) == Ok(b)
  {
    if c.Short? {
      ShortBytesOfValue(b[0], b[1]);
      assert b == [b[0], b[1]];
    } else if c.Chars? {
      assert Fit(b, c.n) == b[..c.n] == b;
    } else {
      assert b == [b[0]];
    }
  }

  lemma {:induction false} UnpackPackFrom(fmt: seq<Code>, vals: seq<Value>, off: nat)
    requires AllFit(fmt, vals)
    ensures PackFrom(fmt, vals, off).Ok?
    ensures Normalized(fmt, vals, UnpackFrom(fmt, PackFrom(fmt, vals, off).value, off))
  {
    PackFromOk(fmt, vals, off);
    if fmt != [] {
      var p, w := Pad(fmt[0], off), Width(fmt[0]);
      var field := PackOne(fmt[0], vals[0]).value;
      UnpackPackFrom(fmt[1..], vals[1..], off + p + w);
      var rest := PackFrom(fmt[1..], vals[1..], off + p + w).value;
      var b := PackFrom(fmt, vals, off).value;
      assert b == Zeros(p) + field + rest;
      ThreeParts(Zeros(p), field, rest);
      ReadPackOne(fmt[0], vals[0]);
      var tail := UnpackFrom(fmt[1..], rest, off + p + w);
      assert UnpackFrom(fmt, b, off) == [ReadOne(fmt[0], field)] + tail;
      ConsParts(ReadOne(fmt[0], field), tail);
    }
  }

  /** Round trip: unpacking what `struct.pack` produced gives the values back, 's' fields fitted to their width. */
  lemma UnpackPack(fmt: seq<Code>, vals: seq<Value>)
    requires AllFit(fmt, vals)
    ensures Pack(fmt, vals).Ok?
    ensures Unpack(fmt, Pack(fmt, vals).value).Ok?
    ensures Normalized(fmt, vals, Unpack(fmt, Pack(fmt, vals).value).value)
  {
    UnpackPackFrom(fmt, vals, 0);
  }

  /** PackFrom at a field that needs no pad byte: that field's bytes, then the rest. */
  lemma PackFromStep(fmt: seq<Code>, vals: seq<Value>, off: nat, field: seq<byte>, rest: seq<byte>)
    requires fmt != [] && |fmt| == |vals| && Pad(fmt[0], off) == 0
    requires PackOne(fmt[0], vals[0]) == Ok(field)
    requires PackFrom(fmt[1..], vals[1..], off + Width(fmt[0])) == Ok(rest)
    ensures PackFrom(fmt, vals, off) == Ok(field + rest)
  {
    assert Zeros(0) + field == field;
  }

  lemma {:induction false} PackUnpackFrom(fmt: seq<Code>, raw: seq<byte>, off: nat)
    requires Aligned(fmt, off) && |raw| == End(fmt, off) - off
    ensures PackFrom(fmt, UnpackFrom(fmt, raw, off), off) == Ok(raw)
  {
    if fmt != [] {
      var w := Width(fmt[0]);
      UnpackFromCons(fmt, raw, off);
      var vals := UnpackFrom(fmt, raw, off);
      var tail := UnpackFrom(fmt[1..], raw[w..], off + w);
      PackUnpackFrom(fmt[1..], raw[w..], off + w);
      ConsParts(ReadOne(fmt[0], raw[..w]), tail);
      PackReadOne(fmt[0], raw[..w]);
      PackFromStep(fmt, vals, off, raw[..w], raw[w..]);
      SplitJoin(raw, w);
    }
  }

  /**
   * The other direction, for formats that need no padding: every buffer of the
   * right length unpacks to values that pack back to exactly that buffer.
   */
  lemma PackUnpack(fmt: seq<Code>, raw: seq<byte>)
    requires Aligned(fmt, 0) && |raw| == CalcSize(fmt)
    ensures Unpack(fmt, raw).Ok? && AllFit(fmt, Unpack(fmt, raw).value)
    ensures Pack(fmt, Unpack(fmt, raw).value) == Ok(raw)
  {
    PackUnpackFrom(fmt, raw, 0);
    PackFromOk(fmt, Unpack(fmt, raw).value, 0);
  }

  /** `v` is what unpacking conversion `c` can produce: it fits, and an 's' value has exactly the field's width. */
  predicate Exact(c: Code, v: Value) {
    Fits(c, v) && (c.Chars? ==> |v.b| == c.n)
  }

  /** Every value `struct.unpack` returns fits its conversion, padding or not. */
  lemma {:induction false} UnpackFromExact(fmt: seq<Code>, raw: seq<byte>, off: nat, k: nat)
    requires |raw| == End(fmt, off) - off && k < |fmt|
    ensures Exact(fmt[k], UnpackFrom(fmt, raw, off)[k])
  {
    var p, w := Pad(fmt[0], off), Width(fmt[0]);
    var tail := UnpackFrom(fmt[1..], raw[p + w..], off + p + w);
    if k == 0 {
      ConsParts(ReadOne(fmt[0], raw[p..p + w]), tail);
      PackReadOne(fmt[0], raw[p..p + w]);
    } else {
      UnpackFromExact(fmt[1..], raw[p + w..], off + p + w, k - 1);
      ConsAt(ReadOne(fmt[0], raw[p..p + w]), tail, k);
      TailAt(fmt, k);
    }
  }

  lemma UnpackExact(fmt: seq<Code>, raw: seq<byte>)
    requires Unpack(fmt, raw).Ok?
    ensures |Unpack(fmt, raw).value| == |fmt|
    ensures forall k :: 0 <= k < |fmt| ==> Exact(fmt[k], Unpack(fmt, raw).value[k])
  {
    forall k | 0 <= k < |fmt| ensures Exact(fmt[k], Unpack(fmt, raw).value[k]) {
      UnpackFromExact(fmt, raw, 0, k);
    }
  }

  /** Where field `k` of `fmt` starts when nothing before it needs padding: the widths of the fields before it. */
  function OffsetOf(fmt: seq<Code>, k: nat): nat
    requires k <= |fmt|
  {
    if k == 0 then 0 else OffsetOf(fmt, k - 1) + Width(fmt[k - 1])
  }

  /** Offsets past the first field are offsets in the tail, shifted by the first field's width. */
  lemma {:induction false} OffsetTail(fmt: seq<Code>, k: nat)
    requires 0 < k <= |fmt|
    ensures OffsetOf(fmt, k) == Width(fmt[0]) + OffsetOf(fmt[1..], k - 1)
  {
    if k > 1 {
      OffsetTail(fmt, k - 1);
      TailAt(fmt, k - 1);
    }
  }

  /** Field `k` of `fmt`, laid out from `off` with no padding before it, needs no pad byte either. */
  predicate NoPadAt(fmt: seq<Code>, off: nat, k: nat)
    requires k < |fmt|
  {
    Pad(fmt[k], off + OffsetOf(fmt, k)) == 0
  }

  /** The layout of `fmt[i..]`, when no 'h' from position `i` on falls on an odd offset. */
  lemma {:induction false} LayoutFrom(fmt: seq<Code>, off: nat, i: nat)
    requires i <= |fmt|
    requires forall k :: i <= k < |fmt| ==> NoPadAt(fmt, off, k)
    ensures Aligned(fmt[i..], off + OffsetOf(fmt, i)) && End(fmt[i..], off + OffsetOf(fmt, i)) == off + OffsetOf(fmt, |fmt|)
    decreases |fmt| - i
  {
    var o := off + OffsetOf(fmt, i);
    if i < |fmt| {
      assert NoPadAt(fmt, off, i);
      LayoutFrom(fmt, off, i + 1);
      LayoutStep(fmt, i, o);
      assert off + OffsetOf(fmt, i + 1) == o + Pad(fmt[i], o) + Width(fmt[i]);
    } else {
      assert fmt[i..] == [];
    }
  }

  /**
   * A format in which every 'h' falls on an even offset, counting from `off`,
   * needs no padding, and then it ends where the last field ends.
   */
  lemma LayoutByOffsets(fmt: seq<Code>, off: nat)
    requires forall k :: 0 <= k < |fmt| ==> NoPadAt(fmt, off, k)
    ensures Aligned(fmt, off) && End(fmt, off) == off + OffsetOf(fmt, |fmt|)
  {
    LayoutFrom(fmt, off, 0);
    DropZero(fmt);
  }

  /** Unfolds one step of PackFrom for an aligned format whose values fit. */
  lemma PackFromCons(fmt: seq<Code>, vals: seq<Value>, off: nat)
    requires Aligned(fmt, off) && AllFit(fmt, vals) && fmt != []
    ensures AllFit(fmt[1..], vals[1..]) && Aligned(fmt[1..], off + Width(fmt[0]))
    ensures PackFrom(fmt, vals, off).Ok? && PackFrom(fmt[1..], vals[1..], off + Width(fmt[0])).Ok?
    ensures PackFrom(fmt, vals, off).value
      == PackOne(fmt[0], vals[0]).value + PackFrom(fmt[1..], vals[1..], off + Width(fmt[0])).value
  {
    PackFromOk(fmt, vals, off);
    PackFromOk(fmt[1..], vals[1..], off + Width(fmt[0]));
    assert Zeros(0) + PackOne(fmt[0], vals[0]).value == PackOne(fmt[0], vals[0]).value;
  }

  /** `x` occurs in `b` starting at offset `at`. */
  predicate FieldAt(b: seq<byte>, at: nat, x: seq<byte>) {
    at + |x| <= |b| && b[at..at + |x|] == x
  }

  /** A one-byte field is that byte. */
  lemma FieldAtOne(b: seq<byte>, at: nat, x: byte)
    requires FieldAt(b, at, [x])
    ensures at < |b| && b[at] == x
  {
    assert b[at..at + 1][0] == b[at];
  }

  lemma FieldAtShift(b: seq<byte>, a: seq<byte>, c: seq<byte>, at: nat, i: nat, x: seq<byte>)
    requires b == a + c && at == |a| + i && FieldAt(c, i, x)
    ensures FieldAt(b, at, x)
  {
    SliceOfConcat(b, a, c, at, i, |x|, x);
  }

  /** In a format with no padding, field `k` of the packed buffer is that value's own encoding, at `OffsetOf(fmt, k)`. */
  lemma {:induction false} PackedField(fmt: seq<Code>, vals: seq<Value>, off: nat, k: nat)
    requires Aligned(fmt, off) && AllFit(fmt, vals) && k < |fmt|
    ensures PackFrom(fmt, vals, off).Ok? && Fits(fmt[k], vals[k])
    ensures FieldAt(PackFrom(fmt, vals, off).value, OffsetOf(fmt, k), PackOne(fmt[k], vals[k]).value)
  {
    PackFromCons(fmt, vals, off);
    var field := PackOne(fmt[0], vals[0]).value;
    var rest := PackFrom(fmt[1..], vals[1..], off + Width(fmt[0])).value;
    if k == 0 {
      PrefixOfConcat(field, rest);
    } else {
      PackedField(fmt[1..], vals[1..], off + Width(fmt[0]), k - 1);
      OffsetTail(fmt, k);
      TailAt(fmt, k);
      TailAt(vals, k);
      FieldAtShift(PackFrom(fmt, vals, off).value, field, rest, OffsetOf(fmt, k), OffsetOf(fmt[1..], k - 1),
        PackOne(fmt[k], vals[k]).value);
    }
  }

  /** UnpackFrom at a field that needs no pad byte: its value, then the rest. */
  lemma UnpackFromCons(fmt: seq<Code>, raw: seq<byte>, off: nat)
    requires fmt != [] && Pad(fmt[0], off) == 0 && |raw| == End(fmt, off) - off
    ensures Width(fmt[0]) <= |raw| && |raw[Width(fmt[0])..]| == End(fmt[1..], off + Width(fmt[0])) - (off + Width(fmt[0]))
    ensures UnpackFrom(fmt, raw, off)
      == [ReadOne(fmt[0], raw[..Width(fmt[0])])] + UnpackFrom(fmt[1..], raw[Width(fmt[0])..], off + Width(fmt[0]))
  {
    SliceFromZero(raw, Width(fmt[0]));
  }

  /** The value conversion `c` reads from `raw` at offset `at`. */
  function ReadAt(c: Code, raw: seq<byte>, at: nat): Value
    requires at + Width(c) <= |raw|
  {
    ReadOne(c, raw[at..at + Width(c)])
  }

  lemma ReadAtDrop(c: Code, raw: seq<byte>, w: nat, at: nat, i: nat)
    requires at == w + i && at + Width(c) <= |raw|
    ensures ReadAt(c, raw[w..], i) == ReadAt(c, raw, at)
  {
    SliceOfDrop(raw, w, at, i, Width(c));
  }

  /** In a format with no padding, value `k` is read from the bytes at `OffsetOf(fmt, k)`. */
  lemma {:induction false} UnpackedField(fmt: seq<Code>, raw: seq<byte>, off: nat, k: nat)
    requires Aligned(fmt, off) && |raw| == End(fmt, off) - off && k < |fmt|
    ensures OffsetOf(fmt, k) + Width(fmt[k]) <= |raw|
    ensures UnpackFrom(fmt, raw, off)[k] == ReadAt(fmt[k], raw, OffsetOf(fmt, k))
  {
    var w := Width(fmt[0]);
    UnpackFromCons(fmt, raw, off);
    var tail := UnpackFrom(fmt[1..], raw[w..], off + w);
    if k == 0 {
      ConsParts(ReadOne(fmt[0], raw[..w]), tail);
      SliceFromZero(raw, w);
    } else {
      UnpackedField(fmt[1..], raw[w..], off + w, k - 1);
      OffsetTail(fmt, k);
      TailAt(fmt, k);
      ReadAtDrop(fmt[k], raw, w, OffsetOf(fmt, k), OffsetOf(fmt[1..], k - 1));
      ConsAtEq(UnpackFrom(fmt, raw, off), ReadOne(fmt[0], raw[..w]), tail, k, ReadAt(fmt[k], raw, OffsetOf(fmt, k)));
    }
  }
}
