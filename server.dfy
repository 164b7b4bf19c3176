/**
 * server.py: the bookkeeping of `Server.tick` and `Server.await_connection`.
 * Sockets are identities; what `select` reports and what each `recv`
 * returns or raises are parameters, and what `sendall` would send is a result.
 */
module Server {
  import opened Base
  import opened Utf8
  import opened Struct
  import opened Packet

  /** A connected socket, by identity. */
  type Sock = nat

  /** Exceptions that escape `tick` (only ConnectionResetError is caught inside it). */
  datatype TickError =
    | Unpack(reason: StructError)  // struct.error from PlayerPacket.unpack_bytes
    | NameDecode                   // UnicodeDecodeError from the name's decode("utf_8")
    | PackFailed(cause: PackError) // an exception from GamePacket.pack_bytes while broadcasting

  /** The byte count server.py asks `recv` for. */
  const AsWrittenReadSize: nat := 18

  /** The byte count the PlayerPacket layout needs, `PlayerPacket.length`; the model reads this many. */
  const ReadSize: nat := 19

  predicate Distinct(users: seq<Sock>) {
    forall i, j :: 0 <= i < j < |users| ==> users[i] != users[j]
  }

  /** `users.index(u)`. */
  function IndexOf(users: seq<Sock>, u: Sock): (i: nat)
    requires u in users
    ensures i < |users| && users[i] == u && u !in users[..i]
  {
    if users[0] == u then 0 else 1 + IndexOf(users[1..], u)
  }

  /** `users.remove(users[i])` for a list without repeats: later users move down one place. */
  function RemoveAt(users: seq<Sock>, i: nat): (r: seq<Sock>)
    requires i < |users|
    ensures |r| == |users| - 1
    ensures forall k :: 0 <= k < i ==> r[k] == users[k]
    ensures forall k :: i <= k < |r| ==> r[k] == users[k + 1]
  {
    users[..i] + users[i + 1..]
  }

  lemma RemoveAtKeeps(users: seq<Sock>, i: nat)
    requires i < |users| && Distinct(users)
    ensures Distinct(RemoveAt(users, i))
    ensures forall v :: v in users && v != users[i] ==> v in RemoveAt(users, i)
    ensures users[i] !in RemoveAt(users, i)
  {
    var r := RemoveAt(users, i);
    forall v | v in users && v != users[i] ensures v in r {
      var k :| 0 <= k < |users| && users[k] == v;
      if k < i { assert r[k] == v; } else { assert r[k - 1] == v; }
    }
  }

  /** The part of the server's state that reading sockets changes. */
  datatype Seats = Seats(users: seq<Sock>, game: GameFields)

  /**
   * One readable socket, as the body of tick's read loop handles it, reading
   * `size` bytes.  Index 0 in `users` is player 1 and index 1 is player 2;
   * a reset removes the socket and blanks that player's name.
   */
  function ReadStepWith(size: nat, s: Seats, u: Sock, r: Recv): (res: Result<Seats, TickError>)
    requires u in s.users
  {
    var i := IndexOf(s.users, u);
    match r
    case Reset =>
      var game :=
        if i == 0 then s.game.(p1Name := Text([]))
        else if i == 1 then s.game.(p2Name := Text([]))
        else s.game;
      Ok(Seats(RemoveAt(s.users, i), game))
    case Incoming(available) =>
      match DecodePlayer(Received(size, available))
      case Err(e) => Err(Unpack(e))
      case Ok(p) =>
        match ReadName(p.name.bytes)
        case None => Err(NameDecode)
        case Some(name) =>
          Ok(Seats(s.users, Seat(s.game, i, p.pos, Text(name))))
  }

  function ReadStep(s: Seats, u: Sock, r: Recv): Result<Seats, TickError>
    requires u in s.users
  {
    ReadStepWith(ReadSize, s, u, r)
  }

  /** The sockets select reported readable: each a current user, none twice. */
  predicate ReadableIn(users: seq<Sock>, ready: seq<(Sock, Recv)>) {
    && (forall k :: 0 <= k < |ready| ==> ready[k].0 in users)
    && (forall j, k :: 0 <= j < k < |ready| ==> ready[j].0 != ready[k].0)
  }

  /** A read keeps the users a list without repeats and removes at most the socket it read. */
  lemma ReadStepUsers(s: Seats, u: Sock, r: Recv)
    requires u in s.users && Distinct(s.users)
    ensures ReadStep(s, u, r).Ok? ==> var t := ReadStep(s, u, r).value;
      Distinct(t.users) && forall v :: v in s.users && v != u ==> v in t.users
  {
    RemoveAtKeeps(s.users, IndexOf(s.users, u));
  }

  lemma ReadableTail(s: Seats, t: Seats, ready: seq<(Sock, Recv)>)
    requires ready != [] && ReadableIn(s.users, ready)
    requires forall v :: v in s.users && v != ready[0].0 ==> v in t.users
    ensures ReadableIn(t.users, ready[1..])
  {
    forall k | 0 <= k < |ready| - 1 ensures ready[1..][k].0 in t.users {
      assert ready[1..][k] == ready[k + 1];
    }
  }

  /**
   * The read loop: the sockets are handled in order; the first exception
   * stops the loop and escapes, keeping what the earlier reads changed.
   */
  function ReadAll(s: Seats, ready: seq<(Sock, Recv)>): (r: (Seats, Option<TickError>))
    requires Distinct(s.users) && ReadableIn(s.users, ready)
    ensures Distinct(r.0.users)
    ensures r.1.Some? ==> r.1.value.Unpack? || r.1.value.NameDecode?
    decreases |ready|
  {
    if ready == [] then (s, None)
    else
      ReadStepUsers(s, ready[0].0, ready[0].1);
      match ReadStep(s, ready[0].0, ready[0].1)
      case Err(e) => (s, Some(e))
      case Ok(t) =>
        ReadableTail(s, t, ready);
        ReadAll(t, ready[1..])
  }

  /** The bytes `sendall` is given, one entry per writable socket; pack_bytes raising stops the loop. */
  function Broadcast(g: GameFields, writable: seq<Sock>): (r: Result<seq<(Sock, seq<byte>)>, PackError>)
  {
    if writable == [] then Ok([])
    else match EncodeGame(g)
      case Err(e) => Err(e)
      case Ok(b) => Ok(seq(|writable|, k requires 0 <= k < |writable| => (writable[k], b)))
  }

  /** Everything one call of tick produces. */
  datatype TickOut = TickOut(
    users: seq<Sock>,
    game: GameFields,
    lastTx: real,
    raised: Option<TickError>,
    sent: seq<(Sock, seq<byte>)>)

  /**
   * One call of `tick` at time `loopTime`: nothing at all without users;
   * otherwise the reads, then a broadcast if `txInterval` has passed since the last one.
   */
  function TickSpec(users: seq<Sock>, game: GameFields, lastTx: real, txInterval: real,
                    loopTime: real, readable: seq<(Sock, Recv)>, writable: seq<Sock>): TickOut
    requires Distinct(users) && ReadableIn(users, readable)
  {
    if |users| == 0 then TickOut(users, game, lastTx, None, [])
    else
      var (s, err) := ReadAll(Seats(users, game), readable);
      if err.Some? then TickOut(s.users, s.game, lastTx, err, [])
      else if loopTime - lastTx >= txInterval then
        match Broadcast(s.game, writable)
        case Err(e) => TickOut(s.users, s.game, lastTx, Some(PackFailed(e)), [])
        case Ok(sent) => TickOut(s.users, s.game, loopTime, None, sent)
      else TickOut(s.users, s.game, lastTx, None, [])
  }

  /** The seat a read from index `i` of `users` writes: player 1, player 2, or none. */
  function Seat(g: GameFields, i: nat, y: int, name: Name): (r: GameFields)
    ensures i == 0 ==> r.p1y == y && r.p1Name == name && r.p2y == g.p2y && r.p2Name == g.p2Name
    ensures i == 1 ==> r.p2y == y && r.p2Name == name && r.p1y == g.p1y && r.p1Name == g.p1Name
    ensures i >= 2 ==> r == g
    ensures r.ball == g.ball && r.score == g.score && r.server == g.server
  {
    if i == 0 then g.(p1y := y, p1Name := name)
    else if i == 1 then g.(p2y := y, p2Name := name)
    else g
  }

  /**
   * A read of waiting bytes, in wire terms: fewer than 19 bytes raise
   * struct.error, a name field that is not UTF-8 once its trailing zero bytes
   * are stripped raises UnicodeDecodeError, and otherwise the sender's seat
   * takes the int16 at offset 16 and the decoded name; nothing else changes.
   */
  lemma ReadSeatsPacket(s: Seats, u: Sock, available: seq<byte>)
    requires u in s.users
    ensures var res := ReadStep(s, u, Incoming(available));
      && (|available| < 19 ==> res == Err(Unpack(BufferSize)))
      && (|available| >= 19 && ReadName(available[..16]).None? ==> res == Err(NameDecode))
      && (|available| >= 19 && ReadName(available[..16]).Some? ==>
            res == Ok(Seats(s.users, Seat(s.game, IndexOf(s.users, u),
                                           ShortValue(available[16], available[17]),
                                           Text(ReadName(available[..16]).value)))))
  {
    if |available| >= 19 {
      var raw := Received(ReadSize, available);
      assert raw == available[..19];
      PlayerUnpackLayout(raw);
      assert raw[0..16] == available[..16];
    }
  }

  /**
   * A reset removes the socket, shortening `users` by one, and blanks only
   * the name of its seat; the paddles and the other name are untouched.
   */
  lemma ResetClearsSeat(s: Seats, u: Sock)
    requires u in s.users && Distinct(s.users)
    ensures var res := ReadStep(s, u, Reset); var i := IndexOf(s.users, u);
      && res.Ok? && u !in res.value.users && |res.value.users| == |s.users| - 1
      && res.value.game.p1y == s.game.p1y && res.value.game.p2y == s.game.p2y
      && (i == 0 ==> res.value.game == s.game.(p1Name := Text([])))
      && (i == 1 ==> res.value.game == s.game.(p2Name := Text([])))
      && (i >= 2 ==> res.value.game == s.game)
  {
    RemoveAtKeeps(s.users, IndexOf(s.users, u));
  }

  /**
   * When player 1 resets, the socket at index 1 moves to index 0: its later
   * packets fill player 1's seat, while player 2's name keeps its old value.
   */
  lemma SurvivorTakesSeatOne(a: Sock, b: Sock, rest: seq<Sock>, g: GameFields, available: seq<byte>)
    requires Distinct([a, b] + rest)
    ensures var t := ReadStep(Seats([a, b] + rest, g), a, Reset).value;
      && t.users == [b] + rest
      && IndexOf(t.users, b) == 0
      && t.game.p1Name == Text([]) && t.game.p2Name == g.p2Name
      && (ReadStep(t, b, Incoming(available)).Ok? ==>
            var t2 := ReadStep(t, b, Incoming(available)).value;
            t2.game.p2Name == g.p2Name && t2.game.p2y == g.p2y)
  {
    var users := [a, b] + rest;
    assert users[0] == a && users[1] == b;
    assert IndexOf(users, a) == 0;
    assert RemoveAt(users, 0) == [b] + rest;
  }

  /** What server.py as written reads: 18 bytes never fill a 19-byte PlayerPacket. */
  lemma AsWrittenReadAlwaysRaises(s: Seats, u: Sock, available: seq<byte>)
    requires u in s.users
    ensures ReadStepWith(AsWrittenReadSize, s, u, Incoming(available)) == Err(Unpack(BufferSize))
  {
  }

  /**
   * With the 19-byte read, a PlayerPacket the client packed (and anything
   * queued behind it) seats its sender's y and name, provided the name fits
   * 16 UTF-8 bytes and does not end in NUL.
   */
  lemma CorrectedReadSeatsPlayer(s: Seats, u: Sock, p: PlayerFields, more: seq<byte>)
    requires u in s.users && PlayerPackable(p)
    requires |EncodeAll(p.name.chars)| <= NameWidth
    requires p.name.chars == [] || p.name.chars[|p.name.chars| - 1] != 0
    ensures ReadStep(s, u, Incoming(EncodePlayer(p).value + more))
      == Ok(Seats(s.users, Seat(s.game, IndexOf(s.users, u), p.pos, p.name)))
  {
    var b := EncodePlayer(p).value;
    assert Received(ReadSize, b + more) == b;
    PlayerRoundTrip(p);
    NameRecovered(p.name.chars);
  }

  /** A read never leaves the game state unpackable. */
  lemma ReadStepKeepsPackable(s: Seats, u: Sock, r: Recv)
    requires u in s.users && GamePackable(s.game)
    ensures ReadStep(s, u, r).Ok? ==> GamePackable(ReadStep(s, u, r).value.game)
  {
    if r.Incoming? {
      var raw := Received(ReadSize, r.available);
      if DecodePlayer(raw).Ok? {
        var field := DecodePlayer(raw).value.name.bytes;
        if ReadName(field).Some? {
          EncodeDecode(RStripZeros(field));
        }
      }
    }
  }

  lemma {:induction false} ReadAllKeepsPackable(s: Seats, ready: seq<(Sock, Recv)>)
    requires Distinct(s.users) && ReadableIn(s.users, ready) && GamePackable(s.game)
    ensures GamePackable(ReadAll(s, ready).0.game)
    decreases |ready|
  {
    if ready != [] {
      ReadStepUsers(s, ready[0].0, ready[0].1);
      ReadStepKeepsPackable(s, ready[0].0, ready[0].1);
      var res := ReadStep(s, ready[0].0, ready[0].1);
      if res.Ok? {
        ReadableTail(s, res.value, ready);
        ReadAllKeepsPackable(res.value, ready[1..]);
      }
    }
  }

  /**
   * From a packable state (the constructor's, for one), a tick keeps the state
   * packable, so the broadcast never raises and reaches every writable socket.
   */
  lemma TickKeepsPackable(users: seq<Sock>, game: GameFields, lastTx: real, txInterval: real,
                          loopTime: real, readable: seq<(Sock, Recv)>, writable: seq<Sock>)
    requires Distinct(users) && ReadableIn(users, readable) && GamePackable(game)
    ensures var out := TickSpec(users, game, lastTx, txInterval, loopTime, readable, writable);
      && GamePackable(out.game)
      && (out.raised.Some? ==> !out.raised.value.PackFailed?)
      && (|users| > 0 && out.raised == None && loopTime - lastTx >= txInterval ==> |out.sent| == |writable|)
  {
    ReadAllKeepsPackable(Seats(users, game), readable);
    var after := ReadAll(Seats(users, game), readable).0.game;
    assert Broadcast(after, writable).Ok?;
  }

  /**
   * The broadcast throttle: state goes out and `lastTx` moves to `loopTime`
   * only when `txInterval` has passed since `lastTx`; with no users nothing happens.
   */
  lemma TickThrottle(users: seq<Sock>, game: GameFields, lastTx: real, txInterval: real,
                     loopTime: real, readable: seq<(Sock, Recv)>, writable: seq<Sock>)
    requires Distinct(users) && ReadableIn(users, readable)
    ensures var out := TickSpec(users, game, lastTx, txInterval, loopTime, readable, writable);
      && (|users| == 0 ==> out == TickOut(users, game, lastTx, None, []))
      && (loopTime - lastTx < txInterval ==> out.lastTx == lastTx && out.sent == [])
      && (out.lastTx != lastTx ==> loopTime - lastTx >= txInterval && out.lastTx == loopTime && out.raised == None)
      && (out.sent != [] ==> out.lastTx == loopTime && |out.sent| == |writable|)
      && (forall k :: 0 <= k < |out.sent| ==> out.sent[k] == (writable[k], EncodeGame(out.game).value))
  {
  }

  class Server {
    const port: int
    const state: GamePacket
    const txInterval: real := 0.033
    var lastTx: real
    var users: seq<Sock>
    var open: bool

    constructor (port: int)
      ensures this.port == port && fresh(state) && state.Fields() == InitialGame
      ensures lastTx == 0.0 && users == [] && open
    {
      this.port := port;
      state := new GamePacket();
      lastTx := 0.0;
      users := [];
      open := true;
    }

    /**
     * `await_connection`: while the server is open, each socket `accept`
     * returns is appended to `users`; there is no limit on their number.
     */
    method AwaitConnection(accepted: seq<Sock>)
      requires Distinct(users + accepted)
      modifies this`users
      ensures users == if open then old(users) + accepted else old(users)
      ensures Distinct(users)
    {
      var k := 0;
      while open && k < |accepted|
        invariant 0 <= k <= |accepted|
        invariant users == old(users) + accepted[..k]
        invariant !open ==> k == 0
      {
        users := users + [accepted[k]];
        k := k + 1;
        assert accepted[..k] == accepted[..k - 1] + [accepted[k - 1]];
      }
      assert open ==> accepted[..k] == accepted;
      assert users + accepted[k..] == old(users) + accepted by {
        assert accepted[..k] + accepted[k..] == accepted;
      }
      assert Distinct(users) by {
        forall i, j | 0 <= i < j < |users| ensures users[i] != users[j] {
          assert users[i] == (users + accepted[k..])[i] && users[j] == (users + accepted[k..])[j];
        }
      }
    }

    /**
     * The body of tick's read loop for one readable socket `u`: unpack what
     * `recv` returns into `userPacket`, then seat the name and paddle.
     */
    method ReadSocket(userPacket: PlayerPacket, u: Sock, r: Recv) returns (raised: Option<TickError>)
      requires u in users && Distinct(users)
      modifies this`users, state, userPacket
      ensures var res := ReadStep(old(Seats(users, state.Fields())), u, r);
        && raised == (if res.Err? then Some(res.error) else None)
        && Seats(users, state.Fields()) == (if res.Ok? then res.value else old(Seats(users, state.Fields())))
    {
      raised := None;
      var i := IndexOf(users, u);
      match r {
        case Reset =>
          users := RemoveAt(users, i);
          if i == 0 {
            state.p1Name := Text([]);
          } else if i == 1 {
            state.p2Name := Text([]);
          }
        case Incoming(available) =>
          var err := userPacket.UnpackBytes(Received(ReadSize, available));
          if err.Some? {
            raised := Some(Unpack(err.value));
            return;
          }
          var name := ReadName(userPacket.name.bytes);
          if name.None? {
            raised := Some(NameDecode);
            return;
          }
          if i == 0 {
            state.p1y, state.p1Name := userPacket.pos, Text(name.value);
          } else if i == 1 {
            state.p2y, state.p2Name := userPacket.pos, Text(name.value);
          }
      }
    }

    /** The send loop of tick: `sendall(state.pack_bytes())` to each writable socket in turn. */
    method SendAll(writable: seq<Sock>) returns (raised: Option<PackError>, sent: seq<(Sock, seq<byte>)>)
      ensures match Broadcast(state.Fields(), writable)
        case Ok(b) => raised == None && sent == b
        case Err(e) => raised == Some(e) && sent == []
    {
      raised, sent := None, [];
      var j := 0;
      while j < |writable|
        invariant 0 <= j <= |writable|
        invariant j > 0 ==> EncodeGame(state.Fields()).Ok?
        invariant |sent| == j
        invariant forall m :: 0 <= m < j ==> sent[m] == (writable[m], EncodeGame(state.Fields()).value)
      {
        var packed := state.PackBytes();
        if packed.Err? {
          raised := Some(packed.error);
          return;
        }
        sent := sent + [(writable[j], packed.value)];
        j := j + 1;
      }
    }

    /**
     * `tick` at time `loopTime`, given the sockets select reported readable
     * (with what each `recv` does) and writable.
     */
    method Tick(loopTime: real, readable: seq<(Sock, Recv)>, writable: seq<Sock>)
      returns (raised: Option<TickError>, sent: seq<(Sock, seq<byte>)>)
      requires Distinct(users) && ReadableIn(users, readable)
      modifies this`users, this`lastTx, state
      ensures TickOut(users, state.Fields(), lastTx, raised, sent)
        == TickSpec(old(users), old(state.Fields()), old(lastTx), txInterval, loopTime, readable, writable)
    {
      raised, sent := None, [];
      if |users| > 0 {
        ghost var start := Seats(users, state.Fields());
        var userPacket := new PlayerPacket(Text([]), 0);
        var k := 0;
        while k < |readable|
          invariant 0 <= k <= |readable|
          invariant Distinct(users) && ReadableIn(users, readable[k..])
          invariant ReadAll(Seats(users, state.Fields()), readable[k..]) == ReadAll(start, readable)
          invariant lastTx == old(lastTx) && raised == None && sent == []
          invariant fresh(userPacket)
        {
          assert readable[k..][1..] == readable[k + 1..];
          var (u, r) := readable[k];
          ghost var here := Seats(users, state.Fields());
          ReadStepUsers(here, u, r);
          raised := ReadSocket(userPacket, u, r);
          if raised.Some? {
            assert ReadAll(start, readable) == (here, raised);
            return;
          }
          ReadableTail(here, Seats(users, state.Fields()), readable[k..]);
          k := k + 1;
        }
        assert readable[k..] == [];
        assert ReadAll(start, readable) == (Seats(users, state.Fields()), None);
        if loopTime - lastTx >= txInterval {
          var failed;
          failed, sent := SendAll(writable);
          if failed.Some? {
            raised := Some(PackFailed(failed.value));
            return;
          }
          lastTx := loopTime;
        }
      }
    }
  }
}
