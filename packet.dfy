/**
 * The wire codec of packet.py: the server-to-client GamePacket
 * ('hhhh16s16sBBB', 43 bytes) and the client-to-server PlayerPacket
 * ('16shB', 19 bytes).  `pack_bytes` is a pure function of the fields;
 * `unpack_bytes` overwrites the fields of the packet object in place.
 */
module Packet {
  import opened Base
  import opened Utf8
  import opened Struct

  /**
   * The Python value held in a name field: a `str` (Text) as set by the
   * constructor, the server or the client, or the raw 16-byte `bytes`
   * object (Raw) that `unpack_bytes` stores.
   */
  datatype Name = Text(chars: seq<CodePoint>) | Raw(bytes: seq<byte>)

  /** Exceptions raised by `pack_bytes`. */
  datatype PackError =
    | StructErr(reason: StructError)  // struct.error from struct.pack
    | UnicodeEncodeError              // bytes(name, 'utf-8') on a str holding a lone surrogate
    | TypeError                       // bytes(name, 'utf-8') on something that is not a str

  const NameWidth: nat := 16
  const GameFormat: seq<Code> := [Short, Short, Short, Short, Chars(16), Chars(16), UByte, UByte, UByte]
  const PlayerFormat: seq<Code> := [Chars(16), Short, UByte]

  /** The str " " that GamePacket starts its names with. */
  const Blank: seq<CodePoint> := [32]

  /** `bytes(name, 'utf-8')`, the argument a name field hands to struct.pack. */
  function NameArg(n: Name): (r: Result<Value, PackError>)
    ensures r.Ok? <==> n.Text? && Encodable(n.chars)
    ensures r.Ok? ==> r.value == Bytes(EncodeAll(n.chars))
  {
    match n
    case Raw(_) => Err(TypeError)
    case Text(s) => if Encodable(s) then Ok(Bytes(EncodeAll(s))) else Err(UnicodeEncodeError)
  }

  /** The 16 bytes a str name occupies on the wire: its UTF-8 form truncated or zero-padded. */
  function NameField(s: seq<CodePoint>): (r: seq<byte>)
    requires Encodable(s)
    ensures |r| == NameWidth
  {
    Fit(EncodeAll(s), NameWidth)
  }

  /** `field.rstrip(b'\x00').decode("utf_8")`: None stands for UnicodeDecodeError. */
  function ReadName(field: seq<byte>): Option<seq<CodePoint>> {
    Decode(RStripZeros(field))
  }

  predicate IsShort(i: int) { -32768 <= i <= 32767 }
  predicate IsUByte(i: int) { 0 <= i <= 255 }

  // ---------------------------------------------------------------- GamePacket

  /** A snapshot of the fields of a GamePacket object. */
  datatype GameFields = GameFields(
    ball: (int, int),   // ball position (x, y)
    p1y: int,           // player 1 paddle y
    p2y: int,           // player 2 paddle y
    p1Name: Name,
    p2Name: Name,
    score: (int, int),  // (player 1, player 2)
    server: int)        // 0 = game, 1 = p1, 2 = p2, 3 = waiting, 4 = end; only carried

  /** The fields of a freshly constructed GamePacket. */
  const InitialGame: GameFields := GameFields((0, 0), 0, 0, Text(Blank), Text(Blank), (0, 0), 0)

  /** `pack_bytes` can succeed: every number fits its conversion and both names are encodable strs. */
  predicate GamePackable(g: GameFields) {
    && IsShort(g.ball.0) && IsShort(g.ball.1) && IsShort(g.p1y) && IsShort(g.p2y)
    && g.p1Name.Text? && Encodable(g.p1Name.chars)
    && g.p2Name.Text? && Encodable(g.p2Name.chars)
    && IsUByte(g.score.0) && IsUByte(g.score.1) && IsUByte(g.server)
  }

  function GameValues(g: GameFields, n1: Value, n2: Value): seq<Value> {
    [Int(g.ball.0), Int(g.ball.1), Int(g.p1y), Int(g.p2y), n1, n2, Int(g.score.0), Int(g.score.1), Int(g.server)]
  }

  /** `GamePacket.pack_bytes`: both names are converted first, then struct.pack runs. */
  function EncodeGame(g: GameFields): (r: Result<seq<byte>, PackError>)
    ensures r.Ok? <==> GamePackable(g)
    ensures r.Ok? ==> |r.value| == CalcSize(GameFormat) == 43
  {
    match NameArg(g.p1Name)
    case Err(e) => Err(e)
    case Ok(n1) =>
      match NameArg(g.p2Name)
      case Err(e) => Err(e)
      case Ok(n2) =>
        var vals := GameValues(g, n1, n2);
        GameValuesFit(g, n1, n2);
        GameLayout();
        match Pack(GameFormat, vals)
        case Err(e) => Err(StructErr(e))
        case Ok(b) => Ok(b)
  }

  /** The GamePacket layout needs no padding and is 43 bytes long. */
  lemma GameLayout()
    ensures Aligned(GameFormat, 0) && CalcSize(GameFormat) == 43
  {
    GameOffsets();
    forall k | 0 <= k < 9 ensures NoPadAt(GameFormat, 0, k) {
    }
    LayoutByOffsets(GameFormat, 0);
  }

  lemma GameValuesFit(g: GameFields, n1: Value, n2: Value)
    ensures AllFit(GameFormat, GameValues(g, n1, n2)) <==>
      && IsShort(g.ball.0) && IsShort(g.ball.1) && IsShort(g.p1y) && IsShort(g.p2y)
      && n1.Bytes? && n2.Bytes? && IsUByte(g.score.0) && IsUByte(g.score.1) && IsUByte(g.server)
  {
    var v := GameValues(g, n1, n2);
    var f := GameFormat;
    AllFitIndex(f, v);
    if AllFit(f, v) {
      assert Fits(f[0], v[0]) && Fits(f[1], v[1]) && Fits(f[2], v[2]) && Fits(f[3], v[3]);
      assert Fits(f[4], v[4]) && Fits(f[5], v[5]) && Fits(f[6], v[6]) && Fits(f[7], v[7]) && Fits(f[8], v[8]);
    }
    forall k | 0 <= k < 9
      ensures Fits(f[k], v[k]) == if k < 4 then v[k].Int? && IsShort(v[k].i) else if k < 6 then v[k].Bytes? else v[k].Int? && IsUByte(v[k].i)
    {
    }
  }

  /** `GamePacket.unpack_bytes` as a value: the buffer must be exactly 43 bytes; names come back as raw bytes. */
  function DecodeGame(raw: seq<byte>): (r: Result<GameFields, StructError>)
    ensures r.Err? <==> |raw| != 43
    ensures r.Err? ==> r.error == BufferSize
    ensures r.Ok? ==> var g := r.value;
      && IsShort(g.ball.0) && IsShort(g.ball.1) && IsShort(g.p1y) && IsShort(g.p2y)
      && g.p1Name.Raw? && |g.p1Name.bytes| == 16 && g.p2Name.Raw? && |g.p2Name.bytes| == 16
      && IsUByte(g.score.0) && IsUByte(g.score.1) && IsUByte(g.server)
  {
    GameLayout();
    match Unpack(GameFormat, raw)
    case Err(e) => Err(e)
    case Ok(v) =>
      UnpackExact(GameFormat, raw);
      GameLayout();
      Ok(GameFields((v[0].i, v[1].i), v[2].i, v[3].i, Raw(v[4].b), Raw(v[5].b), (v[6].i, v[7].i), v[8].i))
  }

  // -------------------------------------------------------------- PlayerPacket

  /** A snapshot of the fields of a PlayerPacket object. */
  datatype PlayerFields = PlayerFields(name: Name, pos: int, key: int)

  predicate PlayerPackable(p: PlayerFields) {
    p.name.Text? && Encodable(p.name.chars) && IsShort(p.pos) && IsUByte(p.key)
  }

  /** `PlayerPacket.pack_bytes`. */
  function EncodePlayer(p: PlayerFields): (r: Result<seq<byte>, PackError>)
    ensures r.Ok? <==> PlayerPackable(p)
    ensures r.Ok? ==> |r.value| == CalcSize(PlayerFormat) == 19
  {
    match NameArg(p.name)
    case Err(e) => Err(e)
    case Ok(n) =>
      var vals := [n, Int(p.pos), Int(p.key)];
      PlayerValuesFit(n, p.pos, p.key);
      PlayerLayout();
      match Pack(PlayerFormat, vals)
      case Err(e) => Err(StructErr(e))
      case Ok(b) => Ok(b)
  }

  /** The PlayerPacket layout needs no padding and is 19 bytes long: the int16 sits at offset 16. */
  lemma PlayerLayout()
    ensures Aligned(PlayerFormat, 0) && CalcSize(PlayerFormat) == 19
  {
    PlayerOffsets();
    forall k | 0 <= k < 3 ensures NoPadAt(PlayerFormat, 0, k) {
    }
    LayoutByOffsets(PlayerFormat, 0);
  }

  lemma PlayerValuesFit(n: Value, pos: int, key: int)
    ensures AllFit(PlayerFormat, [n, Int(pos), Int(key)]) <==> n.Bytes? && IsShort(pos) && IsUByte(key)
  {
    var v := [n, Int(pos), Int(key)];
    var f := PlayerFormat;
    AllFitIndex(f, v);
    forall k | 0 <= k < 3
      ensures Fits(f[k], v[k]) == if k == 0 then n.Bytes? else if k == 1 then IsShort(pos) else IsUByte(key)
    {
    }
    if AllFit(f, v) {
      assert Fits(f[0], v[0]) && Fits(f[1], v[1]) && Fits(f[2], v[2]);
    }
  }

  /** `PlayerPacket.unpack_bytes` as a value: the buffer must be exactly 19 bytes. */
  function DecodePlayer(raw: seq<byte>): (r: Result<PlayerFields, StructError>)
    ensures r.Err? <==> |raw| != 19
    ensures r.Err? ==> r.error == BufferSize
    ensures r.Ok? ==> r.value.name.Raw? && |r.value.name.bytes| == 16 && IsShort(r.value.pos) && IsUByte(r.value.key)
  {
    PlayerLayout();
    match Unpack(PlayerFormat, raw)
    case Err(e) => Err(e)
    case Ok(v) =>
      UnpackExact(PlayerFormat, raw);
      PlayerLayout();
      Ok(PlayerFields(Raw(v[0].b), v[1].i, v[2].i))
  }

  // ------------------------------------------------------------ wire properties

  /** Where each GamePacket field starts, and where the packet ends. */
  lemma GameOffsets()
    ensures OffsetOf(GameFormat, 0) == 0 && OffsetOf(GameFormat, 1) == 2
    ensures OffsetOf(GameFormat, 2) == 4 && OffsetOf(GameFormat, 3) == 6
    ensures OffsetOf(GameFormat, 4) == 8 && OffsetOf(GameFormat, 5) == 24
    ensures OffsetOf(GameFormat, 6) == 40 && OffsetOf(GameFormat, 7) == 41
    ensures OffsetOf(GameFormat, 8) == 42 && OffsetOf(GameFormat, 9) == 43
  {
  }

  /** The arguments `pack_bytes` hands to struct.pack for a packable packet. */
  function GameArgs(g: GameFields): seq<Value>
    requires GamePackable(g)
  {
    GameValues(g, Bytes(EncodeAll(g.p1Name.chars)), Bytes(EncodeAll(g.p2Name.chars)))
  }

  lemma GameArgsPack(g: GameFields)
    requires GamePackable(g)
    ensures AllFit(GameFormat, GameArgs(g)) && Aligned(GameFormat, 0)
    ensures PackFrom(GameFormat, GameArgs(g), 0).Ok? && EncodeGame(g) == Ok(PackFrom(GameFormat, GameArgs(g), 0).value)
  {
    GameLayout();
    GameValuesFit(g, Bytes(EncodeAll(g.p1Name.chars)), Bytes(EncodeAll(g.p2Name.chars)));
    PackFromOk(GameFormat, GameArgs(g), 0);
  }

  /** Field `k` of an encoded GamePacket is the encoding of argument `k`, at its offset. */
  lemma GameField(g: GameFields, k: nat)
    requires GamePackable(g) && k < 9
    ensures Fits(GameFormat[k], GameArgs(g)[k])
    ensures FieldAt(EncodeGame(g).value, OffsetOf(GameFormat, k), PackOne(GameFormat[k], GameArgs(g)[k]).value)
  {
    GameArgsPack(g);
    PackedField(GameFormat, GameArgs(g), 0, k);
  }

  lemma GameWireShorts(g: GameFields)
    requires GamePackable(g)
    ensures var b := EncodeGame(g).value;
      && |b| == 43
      && b[0..2] == ShortBytes(g.ball.0) && b[2..4] == ShortBytes(g.ball.1)
      && b[4..6] == ShortBytes(g.p1y) && b[6..8] == ShortBytes(g.p2y)
  {
    GameOffsets();
    GameField(g, 0);
    GameField(g, 1);
    GameField(g, 2);
    GameField(g, 3);
  }

  lemma GameWireNames(g: GameFields)
    requires GamePackable(g)
    ensures var b := EncodeGame(g).value;
      |b| == 43 && b[8..24] == NameField(g.p1Name.chars) && b[24..40] == NameField(g.p2Name.chars)
  {
    GameOffsets();
    GameField(g, 4);
    GameField(g, 5);
  }

  lemma GameWireBytes(g: GameFields)
    requires GamePackable(g)
    ensures var b := EncodeGame(g).value;
      |b| == 43 && b[40] == g.score.0 && b[41] == g.score.1 && b[42] == g.server
  {
    GameOffsets();
    var b := EncodeGame(g).value;
    GameField(g, 6);
    GameField(g, 7);
    GameField(g, 8);
    FieldAtOne(b, 40, g.score.0);
    FieldAtOne(b, 41, g.score.1);
    FieldAtOne(b, 42, g.server);
  }

  /**
   * An encoded GamePacket is four little-endian int16 (ball x, ball y, p1y, p2y)
   * at offsets 0..7, the two 16-byte name fields at 8..23 and 24..39, and the
   * three uint8 (the two scores and the phase byte) at 40, 41 and 42.
   */
  lemma GameWireLayout(g: GameFields)
    requires GamePackable(g)
    ensures var b := EncodeGame(g).value;
      && |b| == 43
      && b[0..2] == ShortBytes(g.ball.0) && b[2..4] == ShortBytes(g.ball.1)
      && b[4..6] == ShortBytes(g.p1y) && b[6..8] == ShortBytes(g.p2y)
      && b[8..24] == NameField(g.p1Name.chars) && b[24..40] == NameField(g.p2Name.chars)
      && b[40] == g.score.0 && b[41] == g.score.1 && b[42] == g.server
  {
    GameWireShorts(g);
    GameWireNames(g);
    GameWireBytes(g);
  }

  /** Value `k` unpacked from a 43-byte buffer is read from the bytes at its offset. */
  lemma GameReadField(raw: seq<byte>, k: nat)
    requires |raw| == 43 && k < 9
    ensures Unpack(GameFormat, raw).Ok? && OffsetOf(GameFormat, k) + Width(GameFormat[k]) <= 43
    ensures Unpack(GameFormat, raw).value[k] == ReadAt(GameFormat[k], raw, OffsetOf(GameFormat, k))
  {
    GameLayout();
    UnpackedField(GameFormat, raw, 0, k);
  }

  lemma GameUnpackShorts(raw: seq<byte>)
    requires |raw| == 43
    ensures DecodeGame(raw).Ok?
    ensures var g := DecodeGame(raw).value;
      && g.ball == (ShortValue(raw[0], raw[1]), ShortValue(raw[2], raw[3]))
      && g.p1y == ShortValue(raw[4], raw[5]) && g.p2y == ShortValue(raw[6], raw[7])
  {
    GameOffsets();
    GameReadField(raw, 0);
    GameReadField(raw, 1);
    GameReadField(raw, 2);
    GameReadField(raw, 3);
  }

  lemma GameUnpackRest(raw: seq<byte>)
    requires |raw| == 43
    ensures DecodeGame(raw).Ok?
    ensures var g := DecodeGame(raw).value;
      && g.p1Name == Raw(raw[8..24]) && g.p2Name == Raw(raw[24..40])
      && g.score == (raw[40] as int, raw[41] as int) && g.server == raw[42] as int
  {
    GameOffsets();
    GameReadField(raw, 4);
    GameReadField(raw, 5);
    GameReadField(raw, 6);
    GameReadField(raw, 7);
    GameReadField(raw, 8);
  }

  /**
   * Every 43-byte buffer unpacks; ball, paddles, scores and phase are read from
   * the same offsets they are written to, and each name becomes the raw 16 bytes of its field.
   */
  lemma GameUnpackLayout(raw: seq<byte>)
    requires |raw| == 43
    ensures DecodeGame(raw).Ok?
    ensures var g := DecodeGame(raw).value;
      && g.ball == (ShortValue(raw[0], raw[1]), ShortValue(raw[2], raw[3]))
      && g.p1y == ShortValue(raw[4], raw[5]) && g.p2y == ShortValue(raw[6], raw[7])
      && g.p1Name == Raw(raw[8..24]) && g.p2Name == Raw(raw[24..40])
      && g.score == (raw[40] as int, raw[41] as int) && g.server == raw[42] as int
  {
    GameUnpackShorts(raw);
    GameUnpackRest(raw);
  }

  /**
   * Round trip: unpacking what `pack_bytes` produced restores ball, paddles,
   * scores and phase exactly; each name comes back as its 16-byte field.
   */
  lemma GameRoundTrip(g: GameFields)
    requires GamePackable(g)
    ensures DecodeGame(EncodeGame(g).value)
      == Ok(g.(p1Name := Raw(NameField(g.p1Name.chars)), p2Name := Raw(NameField(g.p2Name.chars))))
  {
    GameArgsPack(g);
    var f, v := GameFormat, GameArgs(g);
    UnpackPack(f, v);
    var out := Unpack(f, Pack(f, v).value).value;
    NormalizedAt(f, v, out, 0);
    NormalizedAt(f, v, out, 1);
    NormalizedAt(f, v, out, 2);
    NormalizedAt(f, v, out, 3);
    NormalizedAt(f, v, out, 4);
    NormalizedAt(f, v, out, 5);
    NormalizedAt(f, v, out, 6);
    NormalizedAt(f, v, out, 7);
    NormalizedAt(f, v, out, 8);
  }

  /**
   * A GamePacket that has been unpacked holds bytes in its name fields, so
   * `pack_bytes` on it raises TypeError: the packet cannot be sent on as it is.
   */
  lemma UnpackedGameDoesNotRepack(raw: seq<byte>)
    requires |raw| == 43
    ensures EncodeGame(DecodeGame(raw).value) == Err(TypeError)
  {
  }

  /** Packing with well-typed arguments fails only with struct.error for a number out of range. */
  lemma GameRangeError(g: GameFields)
    requires g.p1Name.Text? && Encodable(g.p1Name.chars) && g.p2Name.Text? && Encodable(g.p2Name.chars)
    requires !GamePackable(g)
    ensures EncodeGame(g) == Err(StructErr(OutOfRange))
  {
    var v := GameValues(g, Bytes(EncodeAll(g.p1Name.chars)), Bytes(EncodeAll(g.p2Name.chars)));
    forall k | 0 <= k < 9 ensures SameKind(GameFormat[k], v[k]) {
    }
    PackFromRangeError(GameFormat, v, 0);
  }

  /**
   * A name survives the trip through its 16-byte field, as read by
   * `rstrip(b'\x00').decode("utf_8")`, exactly when its UTF-8 form is at most
   * 16 bytes and it does not end in U+0000.
   */
  lemma NameRecovered(s: seq<CodePoint>)
    requires Encodable(s)
    ensures ReadName(NameField(s)) == Some(s) <==> |EncodeAll(s)| <= NameWidth && (s == [] || s[|s| - 1] != 0)
  {
    var e := EncodeAll(s);
    var field := NameField(s);
    if s != [] {
      EncodeAllLastByte(s);
    } else {
      assert e == [];
    }
    if |e| <= NameWidth && (s == [] || s[|s| - 1] != 0) {
      assert field == e + Zeros(NameWidth - |e|);
      RStripPadded(e, NameWidth - |e|);
      DecodeEncode(s);
    }
    if ReadName(field) == Some(s) {
      var r := RStripZeros(field);
      EncodeDecode(r);
    }
  }

  /** Where the PlayerPacket fields start, name at 0, y at 16, key at 18, and where the packet ends. */
  lemma PlayerOffsets()
    ensures OffsetOf(PlayerFormat, 0) == 0 && OffsetOf(PlayerFormat, 1) == 16
    ensures OffsetOf(PlayerFormat, 2) == 18 && OffsetOf(PlayerFormat, 3) == 19
  {
  }

  /** An encoded PlayerPacket: the 16-byte name field, then the int16 y at offset 16, then the uint8 key. */
  lemma PlayerWireLayout(p: PlayerFields)
    requires PlayerPackable(p)
    ensures var b := EncodePlayer(p).value;
      |b| == 19 && b[0..16] == NameField(p.name.chars) && b[16..18] == ShortBytes(p.pos) && b[18] == p.key
  {
    PlayerLayout();
    PlayerOffsets();
    var v := [Bytes(EncodeAll(p.name.chars)), Int(p.pos), Int(p.key)];
    PlayerValuesFit(v[0], p.pos, p.key);
    var b := EncodePlayer(p).value;
    PackedField(PlayerFormat, v, 0, 0);
    PackedField(PlayerFormat, v, 0, 1);
    PackedField(PlayerFormat, v, 0, 2);
    assert b[18..19] == [b[18]];
  }

  /** Every 19-byte buffer unpacks: name from bytes 0..15, y from 16..17, key from 18. */
  lemma PlayerUnpackLayout(raw: seq<byte>)
    requires |raw| == 19
    ensures DecodePlayer(raw) == Ok(PlayerFields(Raw(raw[0..16]), ShortValue(raw[16], raw[17]), raw[18] as int))
  {
    PlayerLayout();
    PlayerOffsets();
    UnpackedField(PlayerFormat, raw, 0, 0);
    UnpackedField(PlayerFormat, raw, 0, 1);
    UnpackedField(PlayerFormat, raw, 0, 2);
  }

  /** Round trip: a PlayerPacket restores y and key exactly; the name comes back as its 16-byte field. */
  lemma PlayerRoundTrip(p: PlayerFields)
    requires PlayerPackable(p)
    ensures DecodePlayer(EncodePlayer(p).value) == Ok(PlayerFields(Raw(NameField(p.name.chars)), p.pos, p.key))
  {
    PlayerWireLayout(p);
    var b := EncodePlayer(p).value;
    PlayerUnpackLayout(b);
    ShortRoundTrip(p.pos);
  }

  // ---------------------------------------------------------------- the objects

  class GamePacket {
    const packstring: seq<Code> := GameFormat
    const length: nat := CalcSize(GameFormat)

    var ball: (int, int)
    var p1y: int
    var p2y: int
    var p1Name: Name
    var p2Name: Name
    var score: (int, int)
    var server: int

    function Fields(): GameFields
      reads this
    {
      GameFields(ball, p1y, p2y, p1Name, p2Name, score, server)
    }

    constructor ()
      ensures Fields() == InitialGame
    {
      ball, p1y, p2y := (0, 0), 0, 0;
      p1Name, p2Name := Text(Blank), Text(Blank);
      score, server := (0, 0), 0;
    }

    /** `pack_bytes`: fails exactly when a number is out of range or a name is not an encodable str. */
    function PackBytes(): (r: Result<seq<byte>, PackError>)
      reads this
      ensures r.Ok? <==> GamePackable(Fields())
      ensures r.Ok? ==> |r.value| == length
    {
      EncodeGame(Fields())
    }

    /** `unpack_bytes`: on a buffer of the wrong length struct.error is raised and nothing changes. */
    method UnpackBytes(raw: seq<byte>) returns (err: Option<StructError>)
      modifies this
      ensures err.Some? <==> |raw| != length
      ensures DecodeGame(raw).Ok? ==> Fields() == DecodeGame(raw).value
      ensures DecodeGame(raw).Err? ==> err == Some(DecodeGame(raw).error) && Fields() == old(Fields())
    {
      match DecodeGame(raw)
      case Err(e) =>
        err := Some(e);
      case Ok(g) =>
        ball, p1y, p2y := g.ball, g.p1y, g.p2y;
        p1Name, p2Name := g.p1Name, g.p2Name;
        score, server := g.score, g.server;
        err := None;
    }
  }

  class PlayerPacket {
    const packstring: seq<Code> := PlayerFormat
    const length: nat := CalcSize(PlayerFormat)

    var name: Name
    var pos: int
    var key: int

    function Fields(): PlayerFields
      reads this
    {
      PlayerFields(name, pos, key)
    }

    /** `PlayerPacket(username, pos)`: the key starts at 0. */
    constructor (username: Name, pos: int)
      ensures Fields() == PlayerFields(username, pos, 0)
    {
      this.name := username;
      this.pos := pos;
      this.key := 0;
    }

    function PackBytes(): (r: Result<seq<byte>, PackError>)
      reads this
      ensures r.Ok? <==> PlayerPackable(Fields())
      ensures r.Ok? ==> |r.value| == length
    {
      EncodePlayer(Fields())
    }

    method UnpackBytes(raw: seq<byte>) returns (err: Option<StructError>)
      modifies this
      ensures err.Some? <==> |raw| != length
      ensures DecodePlayer(raw).Ok? ==> Fields() == DecodePlayer(raw).value
      ensures DecodePlayer(raw).Err? ==> err == Some(DecodePlayer(raw).error) && Fields() == old(Fields())
    {
      match DecodePlayer(raw)
      case Err(e) =>
        err := Some(e);
      case Ok(p) =>
        name, pos, key := p.name, p.pos, p.key;
        err := None;
    }
  }
}
