/**
 * client.py: the `main` loop's screen machine and game-screen logic, and
 * the name display of `Game.draw`.  Each frame's events, mouse, held keys,
 * clock reading, connect-queue message and socket readiness are parameters;
 * the packet the frame sends is a result.
 */
module Client {
  import opened Base
  import opened Utf8
  import opened Struct
  import opened Packet
  import opened Gui

  const ScreenHeight: int := 180
  /** The lowest paddle position, `h_screen // 2`. */
  const PaddleBottom: int := ScreenHeight / 2
  const PaddleStart: int := 45
  /** `player_key` while space is held. */
  const SpaceCode: int := 32

  /** The value of `state` in `main`. */
  datatype Screen = Menu | Connect | Game | Failed | Pause

  /** What the connecting thread puts on `connect_state_queue`. */
  datatype ConnectMsg = Connected | ConnectFailed

  /** `pygame.key.get_pressed()` for the keys the game screen reads. */
  datatype Held = Held(up: bool, down: bool, space: bool)

  /** Exceptions that escape `main`. */
  datatype ClientError =
    | StateUnpack(reason: StructError)  // struct.error from GamePacket.unpack_bytes
    | NameEncode(cause: PackError)      // an exception from PlayerPacket.pack_bytes
    | ShownNameDecode                   // UnicodeDecodeError in Game.draw

  /** The last KEYDOWN of a frame's events, which the loop keeps as `key_event`. */
  function LastKeyDown(events: seq<Event>): (r: Option<Event>)
    ensures r.Some? ==> r.value.KeyDown? && r.value in events
  {
    if events == [] then None
    else if events[|events| - 1].KeyDown? then Some(events[|events| - 1])
    else LastKeyDown(events[..|events| - 1])
  }

  /** `LastKeyDown` is None exactly when no event is a KEYDOWN. */
  lemma {:induction false} LastKeyDownNone(events: seq<Event>)
    ensures LastKeyDown(events).None? <==> forall k :: 0 <= k < |events| ==> !events[k].KeyDown?
  {
    if events != [] {
      var n := |events| - 1;
      var front := events[..n];
      if !events[n].KeyDown? {
        LastKeyDownNone(front);
        assert forall k :: 0 <= k < n ==> front[k] == events[k];
      }
    }
  }

  /** No KEYDOWN follows position `k` of `events`. */
  predicate NoKeyDownAfter(events: seq<Event>, k: nat) {
    forall j :: k < j < |events| ==> !events[j].KeyDown?
  }

  /** Otherwise it is a KEYDOWN of the frame after which no other KEYDOWN follows. */
  lemma {:induction false} LastKeyDownIsLast(events: seq<Event>)
    requires LastKeyDown(events).Some?
    ensures exists k :: 0 <= k < |events| && events[k] == LastKeyDown(events).value && NoKeyDownAfter(events, k)
  {
    var n := |events| - 1;
    var front := events[..n];
    if !events[n].KeyDown? {
      assert LastKeyDown(events) == LastKeyDown(front);
      LastKeyDownIsLast(front);
      var k :| 0 <= k < n && front[k] == LastKeyDown(front).value && NoKeyDownAfter(front, k);
      assert events[k] == front[k];
      assert NoKeyDownAfter(events, k) by {
        forall j | k < j < |events| ensures !events[j].KeyDown? {
          if j < n {
            assert events[j] == front[j];
          }
        }
      }
    } else {
      assert NoKeyDownAfter(events, n);
    }
  }

  /** The event loop at the top of each frame: a QUIT clears `run`, the last KEYDOWN is kept. */
  method PollEvents(events: seq<Event>) returns (keyEvent: Option<Event>, quit: bool)
    ensures keyEvent == LastKeyDown(events)
    ensures quit <==> Quit in events
  {
    keyEvent, quit := None, false;
    var k := 0;
    while k < |events|
      invariant 0 <= k <= |events|
      invariant keyEvent == LastKeyDown(events[..k])
      invariant quit <==> Quit in events[..k]
    {
      assert events[..k + 1][..k] == events[..k];
      if events[k] == Quit {
        quit := true;
      } else if events[k].KeyDown? {
        keyEvent := Some(events[k]);
      }
      k := k + 1;
    }
    assert events[..k] == events;
  }

  /** The transition block of `main`, given the buttons' clicked flags and what the connect queue holds. */
  function NextScreen(s: Screen, startClicked: bool, queued: Option<ConnectMsg>, keyEvent: Option<Event>,
                      okClicked: bool, resumeClicked: bool, quitClicked: bool): Screen
  {
    match s
    case Menu => if startClicked then Connect else Menu
    case Connect =>
      (match queued
       case None => Connect
       case Some(Connected) => Game
       case Some(ConnectFailed) => Failed)
    case Game => if keyEvent.Some? && keyEvent.value.KeyDown? && keyEvent.value.key == Escape then Pause else Game
    case Failed => if okClicked then Menu else Failed
    case Pause => if resumeClicked then Game else if quitClicked then Menu else Pause
  }

  /** Each screen's way out, and that it stays put otherwise. */
  lemma NextScreenCases(s: Screen, startClicked: bool, queued: Option<ConnectMsg>, keyEvent: Option<Event>,
                        okClicked: bool, resumeClicked: bool, quitClicked: bool)
    ensures var n := NextScreen(s, startClicked, queued, keyEvent, okClicked, resumeClicked, quitClicked);
      && (s == Menu ==> (n == Connect <==> startClicked) && (n == Menu <==> !startClicked))
      && (s == Connect ==>
            && (n == Connect <==> queued.None?)
            && (n == Game <==> queued == Some(Connected))
            && (n == Failed <==> queued == Some(ConnectFailed)))
      && (s == Game ==>
            && (n == Pause <==> keyEvent.Some? && keyEvent.value.KeyDown? && keyEvent.value.key == Escape)
            && (n == Game || n == Pause))
      && (s == Failed ==> (n == Menu <==> okClicked) && (n == Failed <==> !okClicked))
      && (s == Pause ==>
            && (n == Game <==> resumeClicked)
            && (n == Menu <==> !resumeClicked && quitClicked)
            && (n == Pause <==> !resumeClicked && !quitClicked))
  {
  }

  /** The game screen is entered only from Connect on "Connected" or from Pause on Resume. */
  lemma EnteringGame(s: Screen, startClicked: bool, queued: Option<ConnectMsg>, keyEvent: Option<Event>,
                     okClicked: bool, resumeClicked: bool, quitClicked: bool)
    ensures s != Game && NextScreen(s, startClicked, queued, keyEvent, okClicked, resumeClicked, quitClicked) == Game
      <==> (s == Connect && queued == Some(Connected)) || (s == Pause && resumeClicked)
  {
  }

  /** The screens the transition block can lead to from each screen. */
  function Successors(a: Screen): set<Screen> {
    match a
    case Menu => {Menu, Connect}
    case Connect => {Connect, Game, Failed}
    case Game => {Game, Pause}
    case Failed => {Failed, Menu}
    case Pause => {Pause, Game, Menu}
  }

  /** The transition block leads exactly to the successors: never elsewhere, and to each for some input. */
  lemma NextScreenSuccessors(a: Screen, b: Screen)
    ensures (forall startClicked: bool, queued: Option<ConnectMsg>, keyEvent: Option<Event>,
                    okClicked: bool, resumeClicked: bool, quitClicked: bool ::
               NextScreen(a, startClicked, queued, keyEvent, okClicked, resumeClicked, quitClicked) in Successors(a))
    ensures b in Successors(a) <==>
      exists startClicked: bool, queued: Option<ConnectMsg>, keyEvent: Option<Event>,
             okClicked: bool, resumeClicked: bool, quitClicked: bool ::
        NextScreen(a, startClicked, queued, keyEvent, okClicked, resumeClicked, quitClicked) == b
  {
    if b in Successors(a) {
      var esc := Some(KeyDown(Escape, []));
      var c := b == Connect || (a == Failed && b == Menu) || (a == Pause && b == Game);
      var q := if b == Game then Some(Connected) else if b == Failed then Some(ConnectFailed) else None;
      var quit := a == Pause && b == Menu;
      var key := if b == Pause then esc else None;
      assert NextScreen(a, c, q, key, c, c, quit) == b;
    }
  }

  /** Every screen of a run before the first game screen is Menu, Connect or Failed. */
  predicate Lobby(s: Screen) { s == Menu || s == Connect || s == Failed }

  /**
   * Starting from the menu, the game screen is never reached without the
   * connect screen just before it the first time: a run of transitions
   * only leaves the lobby screens through Connect.  This covers runs of the
   * transition block alone; the game screen's own move to Failed on a
   * connection reset is not one of its successors.
   */
  lemma {:induction false} GameOnlyAfterConnect(run: seq<Screen>)
    requires |run| >= 1 && run[0] == Menu
    requires forall k :: 0 < k < |run| ==> run[k] in Successors(run[k - 1])
    ensures forall k :: 0 <= k < |run| ==> Lobby(run[k]) || exists j :: 0 < j <= k && run[j - 1] == Connect && run[j] == Game
    decreases |run|
  {
    if |run| > 1 {
      var front := run[..|run| - 1];
      GameOnlyAfterConnect(front);
      var last := |run| - 1;
      assert forall k :: 0 <= k < last ==> run[k] == front[k];
      if !Lobby(run[last]) && !Lobby(run[last - 1]) {
        var j :| 0 < j <= last - 1 && front[j - 1] == Connect && front[j] == Game;
        assert run[j - 1] == Connect && run[j] == Game;
      } else if !Lobby(run[last]) {
        assert run[last - 1] == Connect && run[last] == Game;
      }
    }
  }

  /** The paddle move of one update: Up first, then Down, clamped to 0 .. PaddleBottom. */
  function MovePaddle(y: int, held: Held): (r: int)
  {
    if held.up then (if y > 0 then y - 1 else y)
    else if held.down then (if y < PaddleBottom then y + 1 else y)
    else y
  }

  /** `player_key`: 32 exactly while space is held. */
  function KeyMask(held: Held): (r: int)
    ensures r == SpaceCode <==> held.space
    ensures r == 0 <==> !held.space
  {
    if held.space then SpaceCode else 0
  }

  /** The paddle stays on the screen, moves by at most one, and Up wins over Down. */
  lemma MovePaddleBounds(y: int, held: Held)
    requires 0 <= y <= PaddleBottom
    ensures var r := MovePaddle(y, held);
      && 0 <= r <= PaddleBottom
      && -1 <= r - y <= 1
      && (held.up ==> r == if y > 0 then y - 1 else 0)
      && (!held.up && held.down ==> r == if y < PaddleBottom then y + 1 else PaddleBottom)
      && (!held.up && !held.down ==> r == y)
  {
  }

  /** `w and player_y != last_y or player_key != last_key`, which Python groups as `(w and ...) or ...`. */
  predicate ShouldSend(writable: bool, y: int, lastY: int, key: int, lastKey: int) {
    (writable && y != lastY) || key != lastKey
  }

  /** A key change is sent even when the socket is not writable; right after a send nothing more is due. */
  lemma SendRule(writable: bool, y: int, lastY: int, key: int, lastKey: int)
    ensures key != lastKey ==> ShouldSend(writable, y, lastY, key, lastKey)
    ensures !writable ==> (ShouldSend(writable, y, lastY, key, lastKey) <==> key != lastKey)
    ensures !ShouldSend(writable, y, y, key, key)
  {
  }

  /**
   * The two name labels after `Game.draw`, from the labels before it, in the
   * order of its try block: label 1 takes the decoded first field, then label 2
   * the decoded second one.  A str name raises TypeError there, and the except
   * branch sets both labels to the stored values as they are; a field that is
   * not UTF-8 raises UnicodeDecodeError, which escapes after the labels set so far.
   */
  function ShownNames(g: GameFields, labels: (Name, Name)): (r: ((Name, Name), Option<ClientError>))
  {
    match g.p1Name
    case Text(_) => ((g.p1Name, g.p2Name), None)
    case Raw(b1) =>
      match ReadName(b1)
      case None => (labels, Some(ShownNameDecode))
      case Some(t1) =>
        match g.p2Name
        case Text(_) => ((g.p1Name, g.p2Name), None)
        case Raw(b2) =>
          match ReadName(b2)
          case None => ((Text(t1), labels.1), Some(ShownNameDecode))
          case Some(t2) => ((Text(t1), Text(t2)), None)
  }

  /**
   * What the labels show: the decoded fields when both names are bytes and
   * decode, the stored values when either is a str; a field that does not
   * decode raises, leaving label 2 as it was and label 1 decoded if its own field is.
   */
  lemma ShownNamesOutcome(g: GameFields, labels: (Name, Name))
    ensures var (shown, raised) := ShownNames(g, labels);
      && (raised.Some? <==>
            g.p1Name.Raw? && (ReadName(g.p1Name.bytes).None? || (g.p2Name.Raw? && ReadName(g.p2Name.bytes).None?)))
      && (raised.Some? ==>
            && raised == Some(ShownNameDecode) && shown.1 == labels.1
            && shown.0 == if ReadName(g.p1Name.bytes).Some? then Text(ReadName(g.p1Name.bytes).value) else labels.0)
      && (raised.None? && g.p1Name.Raw? && g.p2Name.Raw? ==>
            shown == (Text(ReadName(g.p1Name.bytes).value), Text(ReadName(g.p2Name.bytes).value)))
      && (raised.None? && !(g.p1Name.Raw? && g.p2Name.Raw?) ==> shown == (g.p1Name, g.p2Name))
  {
  }

  /** Before the first packet arrives the names are still strs and show as they are. */
  lemma DisplayBeforeFirstPacket(labels: (Name, Name))
    ensures ShownNames(InitialGame, labels) == ((Text(Blank), Text(Blank)), None)
  {
  }

  /** Name fields that hold recoverable names show as those names. */
  lemma DisplayRecoveredNames(d: GameFields, labels: (Name, Name), n1: seq<CodePoint>, n2: seq<CodePoint>)
    requires d.p1Name.Raw? && ReadName(d.p1Name.bytes) == Some(n1)
    requires d.p2Name.Raw? && ReadName(d.p2Name.bytes) == Some(n2)
    ensures ShownNames(d, labels) == ((Text(n1), Text(n2)), None)
  {
  }

  /**
   * End to end: the names the server packs are the names the client shows,
   * when each fits 16 UTF-8 bytes and does not end in NUL.
   */
  lemma DisplayShowsServerNames(g: GameFields, labels: (Name, Name))
    requires GamePackable(g)
    requires |EncodeAll(g.p1Name.chars)| <= NameWidth && (g.p1Name.chars == [] || g.p1Name.chars[|g.p1Name.chars| - 1] != 0)
    requires |EncodeAll(g.p2Name.chars)| <= NameWidth && (g.p2Name.chars == [] || g.p2Name.chars[|g.p2Name.chars| - 1] != 0)
    ensures DecodeGame(EncodeGame(g).value).Ok?
    ensures ShownNames(DecodeGame(EncodeGame(g).value).value, labels) == ((g.p1Name, g.p2Name), None)
  {
    var d := g.(p1Name := Raw(NameField(g.p1Name.chars)), p2Name := Raw(NameField(g.p2Name.chars)));
    GameRoundTrip(g);
    NameRecovered(g.p1Name.chars);
    NameRecovered(g.p2Name.chars);
    DisplayRecoveredNames(d, labels, g.p1Name.chars, g.p2Name.chars);
  }

  /** Per-widget mouse hover: `collidepoint` of the scaled mouse position. */
  datatype Hovers = Hovers(ipBox: bool, nameBox: bool, start: bool, ok: bool, resume: bool, quit: bool)

  /** Everything one pass of the `while run` loop takes from the outside world. */
  datatype Frame = Frame(
    events: seq<Event>,
    queued: Option<ConnectMsg>,  // the connect queue's next message, if it is not empty
    hovers: Hovers,
    pressed: bool,               // left mouse button
    now: real,                   // time.time()
    held: Held,
    incoming: Option<Recv>,      // None: select did not report the socket readable
    writable: bool)              // select reported the socket writable

  /** What one pass of the loop sends, and the exception that ends `main`, if any. */
  datatype FrameOut = FrameOut(sent: Option<seq<byte>>, raised: Option<ClientError>)

  /** The 127.0.0.1 the IP box starts with. */
  const DefaultIp: seq<CodePoint> := [49, 50, 55, 46, 48, 46, 48, 46, 49]
  const IpMaxChars: int := 15
  const NameMaxChars: int := 16
  /** `Game.update_interval`, in seconds. */
  const UpdateInterval: real := 0.01

  // ------------------------------------------------------- the loop as values

  /** A TextBox's text and selection. */
  datatype BoxState = BoxState(text: seq<CodePoint>, selected: bool)

  /**
   * Everything one pass of the `while run` loop reads and writes: the locals
   * of `main`, the `Game` object's received state, throttle and name labels,
   * and the widgets' flags and texts.
   */
  datatype ClientState = ClientState(
    screen: Screen, run: bool,
    playerY: int, lastY: int, playerKey: int, lastKey: int,
    lastUpdate: real, game: GameFields, labels: (Name, Name),
    ipBox: BoxState, nameBox: BoxState,
    start: bool, ok: bool, resume: bool, quit: bool)  // the four buttons' clicked flags

  /** The state `main` enters its loop with. */
  const InitialClient: ClientState := ClientState(
    Menu, true, PaddleStart, 0, 0, 0, 0.0, InitialGame, (Text([]), Text([])),
    BoxState(DefaultIp, false), BoxState([], false), false, false, false, false)

  /** The transition block; leaving the menu puts the paddle back at 45 and `last_y` at 0. */
  function TransitionStep(st: ClientState, keyEvent: Option<Event>, queued: Option<ConnectMsg>): ClientState {
    var leave := st.screen == Menu && st.start;
    st.(screen := NextScreen(st.screen, st.start, queued, keyEvent, st.ok, st.resume, st.quit),
        playerY := if leave then PaddleStart else st.playerY,
        lastY := if leave then 0 else st.lastY)
  }

  /** The throttled paddle and key update of the game screen. */
  function PaddleStep(st: ClientState, now: real, held: Held): ClientState {
    if now - st.lastUpdate > UpdateInterval then
      st.(playerY := MovePaddle(st.playerY, held), playerKey := KeyMask(held), lastUpdate := now)
    else st
  }

  /** The receive step: a reset leads to Failed, waiting bytes replace the game state or raise. */
  function ReceiveStep(st: ClientState, incoming: Option<Recv>): Result<ClientState, ClientError> {
    match incoming
    case None => Ok(st)
    case Some(Reset) => Ok(st.(screen := Failed))
    case Some(Incoming(available)) =>
      match DecodeGame(Received(CalcSize(GameFormat), available))
      case Err(e) => Err(StateUnpack(e))
      case Ok(g) => Ok(st.(game := g))
  }

  /** The send step: a PlayerPacket of the typed name, paddle and key when the send rule holds. */
  function SendStep(st: ClientState, writable: bool): (ClientState, FrameOut) {
    if !ShouldSend(writable, st.playerY, st.lastY, st.playerKey, st.lastKey) then (st, FrameOut(None, None))
    else
      match EncodePlayer(PlayerFields(Text(st.nameBox.text), st.playerY, st.playerKey))
      case Err(e) => (st, FrameOut(None, Some(NameEncode(e))))
      case Ok(b) => (st.(lastY := st.playerY, lastKey := st.playerKey), FrameOut(Some(b), None))
  }

  /** The actions of the game screen: paddle update, receive, send, then the name labels of `draw`. */
  function GameStep(st: ClientState, f: Frame): (ClientState, FrameOut) {
    var s1 := PaddleStep(st, f.now, f.held);
    match ReceiveStep(s1, f.incoming)
    case Err(e) => (s1, FrameOut(None, Some(e)))
    case Ok(s2) =>
      var (s3, o) := SendStep(s2, f.writable);
      if o.raised.Some? then (s3, o)
      else
        var (shown, raised) := ShownNames(s3.game, s3.labels);
        (s3.(labels := shown), FrameOut(o.sent, raised))
  }

  /** One `TextBox.draw`: the selection, then the edit with the new selection. */
  function BoxStep(b: BoxState, maxChars: int, hover: bool, pressed: bool, event: Option<Event>): BoxState {
    var selected := Select(b.selected, hover, pressed);
    BoxState(Edit(b.text, maxChars, selected, event), selected)
  }

  /** One pass of the `while run` loop: events, transitions, then the new screen's actions. */
  function Step(st: ClientState, f: Frame): (ClientState, FrameOut) {
    var key := LastKeyDown(f.events);
    ScreenActions(TransitionStep(st.(run := st.run && Quit !in f.events), key, f.queued), f, key)
  }

  /** The actions of the screen a pass ends on, with the frame's last KEYDOWN. */
  function ScreenActions(s: ClientState, f: Frame, key: Option<Event>): (ClientState, FrameOut) {
    match s.screen
    case Menu =>
      (s.(ipBox := BoxStep(s.ipBox, IpMaxChars, f.hovers.ipBox, f.pressed, key),
          nameBox := BoxStep(s.nameBox, NameMaxChars, f.hovers.nameBox, f.pressed, key),
          start := ButtonStep(s.start, f.hovers.start, f.pressed).0),
       FrameOut(None, None))
    case Connect => (s, FrameOut(None, None))
    case Game => GameStep(s, f)
    case Failed => (s.(ok := ButtonStep(s.ok, f.hovers.ok, f.pressed).0), FrameOut(None, None))
    case Pause =>
      (s.(resume := ButtonStep(s.resume, f.hovers.resume, f.pressed).0,
          quit := ButtonStep(s.quit, f.hovers.quit, f.pressed).0),
       FrameOut(None, None))
  }

  /**
   * `main`'s loop over a run of frames: the final state and what each pass
   * produced; it stops once `run` is cleared or a pass raises.
   */
  function RunSpec(st: ClientState, frames: seq<Frame>): (ClientState, seq<FrameOut>)
    decreases |frames|
  {
    if frames == [] || !st.run then (st, [])
    else
      var (s1, o) := Step(st, frames[0]);
      if o.raised.Some? then (s1, [o])
      else
        var (s2, outs) := RunSpec(s1, frames[1..]);
        (s2, [o] + outs)
  }

  /** The paddle on the screen and the key mask 0 or 32. */
  predicate Sane(st: ClientState) {
    0 <= st.playerY <= PaddleBottom && (st.playerKey == 0 || st.playerKey == SpaceCode)
  }

  /** The paddle update keeps the paddle on the screen and the key 0 or 32, and nothing else of the loop changes. */
  lemma PaddleStepSane(st: ClientState, now: real, held: Held)
    requires Sane(st)
    ensures var t := PaddleStep(st, now, held);
      && Sane(t) && t.screen == st.screen && t.run == st.run && t.nameBox == st.nameBox
      && t.lastY == st.lastY && t.lastKey == st.lastKey
  {
    MovePaddleBounds(st.playerY, held);
  }

  /** A receive changes the screen only on a reset, and no paddle, key or name. */
  lemma ReceiveStepKeeps(st: ClientState, incoming: Option<Recv>)
    ensures ReceiveStep(st, incoming).Ok? ==>
      var t := ReceiveStep(st, incoming).value;
      && t.screen == (if incoming == Some(Reset) then Failed else st.screen)
      && t.run == st.run && t.nameBox == st.nameBox
      && t.playerY == st.playerY && t.playerKey == st.playerKey && t.lastY == st.lastY && t.lastKey == st.lastKey
  {
    if incoming.Some? && incoming.value.Incoming? {
      var d := DecodeGame(Received(CalcSize(GameFormat), incoming.value.available));
      if d.Ok? {
        assert ReceiveStep(st, incoming) == Ok(st.(game := d.value));
      }
    }
  }

  /**
   * A packet the send step sends decodes to the typed name's field, the
   * paddle and the key, and `last_y`/`last_key` have caught up.
   */
  lemma SendStepSends(st: ClientState, writable: bool)
    requires Sane(st)
    ensures var (t, o) := SendStep(st, writable);
      && Sane(t) && t.screen == st.screen && t.run == st.run && t.nameBox == st.nameBox
      && t.playerY == st.playerY && t.playerKey == st.playerKey
      && (o.sent.Some? ==>
            && Encodable(t.nameBox.text)
            && DecodePlayer(o.sent.value) == Ok(PlayerFields(Raw(NameField(t.nameBox.text)), t.playerY, t.playerKey))
            && t.lastY == t.playerY && t.lastKey == t.playerKey)
  {
    var p := PlayerFields(Text(st.nameBox.text), st.playerY, st.playerKey);
    if ShouldSend(writable, st.playerY, st.lastY, st.playerKey, st.lastKey) && EncodePlayer(p).Ok? {
      PlayerRoundTrip(p);
    }
  }

  /** The game screen's actions leave `run` alone and lead to Failed exactly on a reset. */
  lemma GameStepScreen(st: ClientState, f: Frame)
    ensures GameStep(st, f).0.run == st.run
    ensures GameStep(st, f).0.screen == if f.incoming == Some(Reset) then Failed else st.screen
  {
    var s1 := PaddleStep(st, f.now, f.held);
    ReceiveStepKeeps(s1, f.incoming);
    if ReceiveStep(s1, f.incoming).Ok? {
      var s2 := ReceiveStep(s1, f.incoming).value;
      var (s3, o) := SendStep(s2, f.writable);
      assert s3.screen == s2.screen && s3.run == s2.run;
    }
  }

  /** A pass clears `run` on QUIT; the screen follows the transitions, and a reset in the game leads to Failed. */
  lemma StepRunAndScreen(st: ClientState, f: Frame)
    ensures var n := NextScreen(st.screen, st.start, f.queued, LastKeyDown(f.events), st.ok, st.resume, st.quit);
      && Step(st, f).0.run == (st.run && Quit !in f.events)
      && Step(st, f).0.screen == if n == Game && f.incoming == Some(Reset) then Failed else n
  {
    var s := TransitionStep(st.(run := st.run && Quit !in f.events), LastKeyDown(f.events), f.queued);
    if s.screen == Game {
      GameStepScreen(s, f);
    }
  }

  /**
   * The game screen keeps the paddle and key sane and leaves the typed name
   * alone; a packet it sends decodes to the name's field, the paddle and the
   * key, and `last_y`/`last_key` have caught up.
   */
  lemma GameStepSends(st: ClientState, f: Frame)
    requires Sane(st)
    ensures var (t, o) := GameStep(st, f);
      && Sane(t) && t.nameBox == st.nameBox
      && (o.sent.Some? ==>
            && Encodable(t.nameBox.text)
            && DecodePlayer(o.sent.value) == Ok(PlayerFields(Raw(NameField(t.nameBox.text)), t.playerY, t.playerKey))
            && t.lastY == t.playerY && t.lastKey == t.playerKey)
  {
    var s1 := PaddleStep(st, f.now, f.held);
    PaddleStepSane(st, f.now, f.held);
    ReceiveStepKeeps(s1, f.incoming);
    if ReceiveStep(s1, f.incoming).Ok? {
      var s2 := ReceiveStep(s1, f.incoming).value;
      assert Sane(s2);
      SendStepSends(s2, f.writable);
    }
  }

  /** The same for a whole pass: only the game screen sends. */
  lemma StepSends(st: ClientState, f: Frame)
    requires Sane(st)
    ensures var (t, o) := Step(st, f);
      && Sane(t)
      && (o.sent.Some? ==>
            && Encodable(t.nameBox.text)
            && DecodePlayer(o.sent.value) == Ok(PlayerFields(Raw(NameField(t.nameBox.text)), t.playerY, t.playerKey))
            && t.lastY == t.playerY && t.lastKey == t.playerKey)
  {
    var s := TransitionStep(st.(run := st.run && Quit !in f.events), LastKeyDown(f.events), f.queued);
    if s.screen == Game {
      GameStepSends(s, f);
    }
  }

  /**
   * The loop runs at most one pass per frame; it stops early only when `run`
   * is cleared or the last pass raised, and no earlier pass raised.
   */
  lemma {:induction false} RunStops(st: ClientState, frames: seq<Frame>)
    ensures var (fin, outs) := RunSpec(st, frames);
      && |outs| <= |frames|
      && (|outs| < |frames| ==> !fin.run || (outs != [] && outs[|outs| - 1].raised.Some?))
      && forall k :: 0 <= k < |outs| - 1 ==> outs[k].raised == None
    decreases |frames|
  {
    if frames != [] && st.run {
      var (s1, o) := Step(st, frames[0]);
      if o.raised.None? {
        RunStops(s1, frames[1..]);
        var (s2, rest) := RunSpec(s1, frames[1..]);
        assert RunSpec(st, frames) == (s2, [o] + rest);
        assert forall k :: 0 < k < |rest| + 1 ==> ([o] + rest)[k] == rest[k - 1];
      }
    }
  }

  /** Every packet a run sends, from a sane start, decodes to a paddle on the screen and a key of 0 or 32. */
  lemma {:induction false} RunSends(st: ClientState, frames: seq<Frame>)
    requires Sane(st)
    ensures var (fin, outs) := RunSpec(st, frames);
      && Sane(fin)
      && forall k :: 0 <= k < |outs| && outs[k].sent.Some? ==>
           && DecodePlayer(outs[k].sent.value).Ok?
           && 0 <= DecodePlayer(outs[k].sent.value).value.pos <= PaddleBottom
           && DecodePlayer(outs[k].sent.value).value.key in {0, SpaceCode}
    decreases |frames|
  {
    if frames != [] && st.run {
      var (s1, o) := Step(st, frames[0]);
      StepSends(st, frames[0]);
      if o.raised.None? {
        RunSends(s1, frames[1..]);
        var (s2, rest) := RunSpec(s1, frames[1..]);
        assert RunSpec(st, frames) == (s2, [o] + rest);
        assert forall k :: 0 < k < |rest| + 1 ==> ([o] + rest)[k] == rest[k - 1];
      }
    }
  }

  // --------------------------------------------------------------- the objects

  /** client.py's `Game`: the last game state received, the throttle of paddle updates and the name labels. */
  class GameView {
    const state: GamePacket
    var lastUpdate: real
    const updateInterval: real := UpdateInterval
    var player1Name: Name
    var player2Name: Name

    constructor ()
      ensures fresh(state) && state.Fields() == InitialGame
      ensures lastUpdate == 0.0 && player1Name == Text([]) && player2Name == Text([])
    {
      state := new GamePacket();
      lastUpdate := 0.0;
      player1Name, player2Name := Text([]), Text([]);
    }

    /** The label updates of `draw`, in the order of its try block and its TypeError handler. */
    method DrawNames() returns (raised: Option<ClientError>)
      modifies this`player1Name, this`player2Name
      ensures ((player1Name, player2Name), raised) == ShownNames(state.Fields(), old((player1Name, player2Name)))
    {
      raised := None;
      match state.p1Name {
        case Text(_) =>
          player1Name, player2Name := state.p1Name, state.p2Name;
        case Raw(b1) =>
          var t1 := ReadName(b1);
          if t1.None? {
            raised := Some(ShownNameDecode);
            return;
          }
          player1Name := Text(t1.value);
          match state.p2Name {
            case Text(_) =>
              player1Name, player2Name := state.p1Name, state.p2Name;
            case Raw(b2) =>
              var t2 := ReadName(b2);
              if t2.None? {
                raised := Some(ShownNameDecode);
                return;
              }
              player2Name := Text(t2.value);
          }
      }
    }
  }

  /** The local variables and widgets of `main`. */
  class Client {
    var screen: Screen
    var run: bool
    var playerY: int
    var lastY: int
    var playerKey: int
    var lastKey: int
    const game: GameView
    const ipBox: TextBox
    const nameBox: TextBox
    const startButton: Button
    const failOkButton: Button
    const pauseResumeButton: Button
    const pauseQuitButton: Button

    ghost predicate Valid()
      reads this
    {
      && ipBox != nameBox && ipBox.maxChars == IpMaxChars && nameBox.maxChars == NameMaxChars
      && startButton != failOkButton && startButton != pauseResumeButton && startButton != pauseQuitButton
      && failOkButton != pauseResumeButton && failOkButton != pauseQuitButton
      && pauseResumeButton != pauseQuitButton
    }

    /** The loop's state, read off the variables and objects. */
    function Snapshot(): ClientState
      reads this, game, game.state, ipBox, nameBox, startButton, failOkButton, pauseResumeButton, pauseQuitButton
    {
      var (lastUpdate, g, labels) := GameSnapshot();
      var (ip, name) := BoxSnapshot();
      var (start, ok, resume, quit) := ButtonSnapshot();
      ClientState(screen, run, playerY, lastY, playerKey, lastKey, lastUpdate, g, labels,
                  ip, name, start, ok, resume, quit)
    }

    /** The `Game` object's part of the loop's state. */
    function GameSnapshot(): (real, GameFields, (Name, Name))
      reads game, game.state
    {
      (game.lastUpdate, game.state.Fields(), (game.player1Name, game.player2Name))
    }

    /** The text boxes' part of the loop's state. */
    function BoxSnapshot(): (BoxState, BoxState)
      reads ipBox, nameBox
    {
      (BoxState(ipBox.text, ipBox.selected), BoxState(nameBox.text, nameBox.selected))
    }

    /** The buttons' clicked flags. */
    function ButtonSnapshot(): (bool, bool, bool, bool)
      reads startButton, failOkButton, pauseResumeButton, pauseQuitButton
    {
      (startButton.clicked, failOkButton.clicked, pauseResumeButton.clicked, pauseQuitButton.clicked)
    }

    /** The set-up part of `main`. */
    constructor ()
      ensures Valid() && Snapshot() == InitialClient
      ensures fresh(game) && fresh(game.state) && fresh(ipBox) && fresh(nameBox)
      ensures fresh(startButton) && fresh(failOkButton) && fresh(pauseResumeButton) && fresh(pauseQuitButton)
    {
      ipBox := new TextBox(DefaultIp, IpMaxChars);
      nameBox := new TextBox([], NameMaxChars);
      startButton := new Button(None, None);
      failOkButton := new Button(None, None);
      pauseResumeButton := new Button(None, None);
      pauseQuitButton := new Button(None, None);
      game := new GameView();
      screen := Menu;
      run := true;
      playerY, lastY := PaddleStart, 0;
      playerKey, lastKey := 0, 0;
    }

    /** The screen the transition block moves to, from the buttons' flags, the queue and the key. */
    method ChooseScreen(keyEvent: Option<Event>, queued: Option<ConnectMsg>) returns (next: Screen)
      ensures next == NextScreen(screen, startButton.clicked, queued, keyEvent,
                                 failOkButton.clicked, pauseResumeButton.clicked, pauseQuitButton.clicked)
    {
      next := screen;
      match screen {
        case Menu =>
          if startButton.clicked {
            next := Connect;
          }
        case Connect =>
          if queued.Some? {
            next := if queued.value == Connected then Game else Failed;
          }
        case Game =>
          if keyEvent.Some? && keyEvent.value.KeyDown? && keyEvent.value.key == Escape {
            next := Pause;
          }
        case Failed =>
          if failOkButton.clicked {
            next := Menu;
          }
        case Pause =>
          if pauseResumeButton.clicked {
            next := Game;
          } else if pauseQuitButton.clicked {
            next := Menu;
          }
      }
    }

    /** The transition block; leaving the menu puts the paddle back at 45. */
    method Transition(keyEvent: Option<Event>, queued: Option<ConnectMsg>)
      modifies this`screen, this`playerY, this`lastY
      ensures Snapshot() == TransitionStep(old(Snapshot()), keyEvent, queued)
    {
      var next := ChooseScreen(keyEvent, queued);
      if screen == Menu && startButton.clicked {
        playerY, lastY := PaddleStart, 0;
      }
      screen := next;
    }

    /** The throttled paddle and key update of the game screen. */
    method UpdatePaddle(now: real, held: Held)
      modifies this`playerY, this`playerKey, game`lastUpdate
      ensures Snapshot() == PaddleStep(old(Snapshot()), now, held)
    {
      if now - game.lastUpdate > game.updateInterval {
        if held.up {
          if playerY > 0 {
            playerY := playerY - 1;
          }
        } else if held.down {
          if playerY < PaddleBottom {
            playerY := playerY + 1;
          }
        }
        playerKey := if held.space then SpaceCode else 0;
        game.lastUpdate := now;
      }
    }

    /** The receive step: the state is replaced by the unpacked packet, a reset leads to Failed. */
    method Receive(incoming: Option<Recv>) returns (raised: Option<ClientError>)
      modifies this`screen, game.state
      ensures match ReceiveStep(old(Snapshot()), incoming)
        case Ok(s) => raised == None && Snapshot() == s
        case Err(e) => raised == Some(e) && Snapshot() == old(Snapshot())
    {
      raised := None;
      if incoming.Some? {
        match incoming.value {
          case Reset =>
            screen := Failed;
          case Incoming(available) =>
            var err := game.state.UnpackBytes(Received(game.state.length, available));
            if err.Some? {
              raised := Some(StateUnpack(err.value));
            }
        }
      }
    }

    /** The send step: a PlayerPacket of the typed name, paddle and key, when something changed. */
    method SendIfChanged(writable: bool) returns (sent: Option<seq<byte>>, raised: Option<ClientError>)
      modifies this`lastY, this`lastKey
      ensures (Snapshot(), FrameOut(sent, raised)) == SendStep(old(Snapshot()), writable)
    {
      sent, raised := None, None;
      if ShouldSend(writable, playerY, lastY, playerKey, lastKey) {
        var playerPacket := new PlayerPacket(Text(nameBox.text), playerY);
        playerPacket.key := playerKey;
        var packed := playerPacket.PackBytes();
        if packed.Err? {
          raised := Some(NameEncode(packed.error));
          return;
        }
        sent := Some(packed.value);
        lastY, lastKey := playerY, playerKey;
      }
    }

    /** The actions of the game screen: paddle update, receive, send, then the name labels. */
    method GameActions(f: Frame) returns (out: FrameOut)
      modifies this`playerY, this`playerKey, this`screen, this`lastY, this`lastKey, game, game.state
      ensures (Snapshot(), out) == GameStep(old(Snapshot()), f)
    {
      UpdatePaddle(f.now, f.held);
      var raised := Receive(f.incoming);
      if raised.Some? {
        out := FrameOut(None, raised);
        return;
      }
      var sent;
      sent, raised := SendIfChanged(f.writable);
      if raised.Some? {
        out := FrameOut(None, raised);
        return;
      }
      raised := game.DrawNames();
      out := FrameOut(sent, raised);
    }

    /** The menu: the two text boxes and the start button. */
    method MenuActions(f: Frame, keyEvent: Option<Event>)
      requires Valid() && screen == Menu
      modifies ipBox, nameBox, startButton
      ensures (Snapshot(), FrameOut(None, None)) == ScreenActions(old(Snapshot()), f, keyEvent)
    {
      var _ := ipBox.Draw(f.hovers.ipBox, f.pressed, keyEvent);
      var _ := nameBox.Draw(f.hovers.nameBox, f.pressed, keyEvent);
      var _, _ := startButton.Draw(f.hovers.start, f.pressed);
    }

    /** The failure screen: its OK button. */
    method FailedActions(f: Frame)
      requires Valid() && screen == Failed
      modifies failOkButton
      ensures (Snapshot(), FrameOut(None, None)) == ScreenActions(old(Snapshot()), f, LastKeyDown(f.events))
    {
      var _, _ := failOkButton.Draw(f.hovers.ok, f.pressed);
    }

    /** The pause screen: its resume and quit buttons. */
    method PauseActions(f: Frame)
      requires Valid() && screen == Pause
      modifies pauseResumeButton, pauseQuitButton
      ensures (Snapshot(), FrameOut(None, None)) == ScreenActions(old(Snapshot()), f, LastKeyDown(f.events))
    {
      var _, _ := pauseResumeButton.Draw(f.hovers.resume, f.pressed);
      var _, _ := pauseQuitButton.Draw(f.hovers.quit, f.pressed);
    }

    /** One pass of the `while run` loop. */
    method Iterate(f: Frame) returns (out: FrameOut)
      requires Valid()
      modifies this, game, game.state, ipBox, nameBox, startButton, failOkButton, pauseResumeButton, pauseQuitButton
      ensures Valid()
      ensures (Snapshot(), out) == Step(old(Snapshot()), f)
    {
      out := FrameOut(None, None);
      var keyEvent, quit := PollEvents(f.events);
      if quit {
        run := false;
      }
      Transition(keyEvent, f.queued);
      match screen {
        case Menu => MenuActions(f, keyEvent);
        case Connect =>
        case Game => out := GameActions(f);
        case Failed => FailedActions(f);
        case Pause => PauseActions(f);
      }
    }

    /**
     * `main`'s loop over a run of frames: it ends when a frame's QUIT has
     * cleared `run`, or with the first exception.
     */
    method Run(frames: seq<Frame>) returns (outs: seq<FrameOut>)
      requires Valid()
      modifies this, game, game.state, ipBox, nameBox, startButton, failOkButton, pauseResumeButton, pauseQuitButton
      ensures Valid()
      ensures (Snapshot(), outs) == RunSpec(old(Snapshot()), frames)
    {
      outs := [];
      var k := 0;
      ghost var whole := RunSpec(Snapshot(), frames);
      assert frames[k..] == frames && outs + whole.1 == whole.1;
      while run && k < |frames|
        invariant Valid()
        invariant 0 <= k <= |frames|
        invariant RunSpec(old(Snapshot()), frames)
          == (RunSpec(Snapshot(), frames[k..]).0, outs + RunSpec(Snapshot(), frames[k..]).1)
      {
        ghost var before := Snapshot();
        ghost var rest := frames[k..];
        ghost var done := outs;
        assert RunSpec(old(Snapshot()), frames) == (RunSpec(before, rest).0, done + RunSpec(before, rest).1);
        assert rest[0] == frames[k] && rest[1..] == frames[k + 1..];
        var out := Iterate(frames[k]);
        ghost var after := Snapshot();
        outs := outs + [out];
        k := k + 1;
        if out.raised.Some? {
          assert RunSpec(before, rest) == (after, [out]);
          assert done + [out] == outs;
          return;
        }
        assert RunSpec(before, rest) == (RunSpec(after, frames[k..]).0, [out] + RunSpec(after, frames[k..]).1);
        assert done + ([out] + RunSpec(after, frames[k..]).1) == outs + RunSpec(after, frames[k..]).1;
      }
      assert RunSpec(Snapshot(), frames[k..]) == (Snapshot(), []);
      assert outs + [] == outs;
    }
  }
}
