# NetPong in Dafny

NetPong is a two-player networked Pong written in Python with pygame. A
server holds the game state in a `GamePacket`. It accepts any number of
client sockets; the first two are player 1 and player 2. Every tick it
unpacks each readable client's `PlayerPacket` (name, paddle y, key mask) and
stores its paddle y and decoded name in the seat given by the client's index
in its user list; the key mask is not stored (as written every read
raises; see Findings). When its transmit
interval has passed, it sends the packed state to every writable client.
A client is a pygame program with a five-screen state machine (Menu,
Connect, Game, Failed, Pause). In the Game screen it moves its paddle, sends
a `PlayerPacket` when something changed, unpacks the server's state and shows
the two player names. The menus are built from two widgets, a `Button` that
fires its callback on a falling mouse edge and a `TextBox` that edits its
text while selected.

This project models:

- `Struct`: the part of Python's `struct` module the packets use. This is
  native mode with `h`, `B` and `<n>s`, little-endian, with native alignment
  modelled.
- `Utf8`: Python's strict UTF-8 codec, used for player names.
- `Packet`: the two wire messages.
  - `GamePacket` has format `'hhhh16s16sBBB'` and is 43 bytes.
  - `PlayerPacket` has format `'16shB'` and is 19 bytes.
  - `pack_bytes` is modelled as a pure encoder and `unpack_bytes` as a
    method that overwrites the packet object's fields.
- `Server`: the bookkeeping of `Server.tick` and `Server.await_connection`.
  This covers folding reads by user index, removing users on reset, and the
  broadcast throttle. Sockets are identities, and what each `recv` returns is
  a parameter.
- `Client`: client.py's `main` loop. This covers the screen machine, the
  paddle and key update, the send-on-change rule and the name labels of
  `Game.draw`. Each frame's events, mouse hover, clock and socket readiness
  are inputs. The loop's variables and objects are read off as one
  `ClientState` value by `Snapshot`; each method is proved against a step
  function on that value, and `RunSpec` folds `Step` over a run of frames.
- `Gui`: the click logic of `Button.draw` and `Button.on_click_func`, and the
  selection and edit logic of `TextBox.draw`.

The model assumes a little-endian host: native mode uses the host's byte
order, and the model fixes it to little-endian. Native alignment would put a pad byte before an `h` at an odd
offset. Neither packet has such an `h`, and `GameLayout` and `PlayerLayout`
prove this.

## Model

| member | source | states |
|---|---|---|
| Struct.Fit | packet.py:38 | a `16s` argument is truncated or zero-padded to exactly n bytes, byte by byte |
| Struct.PackOne | packet.py:35-40 | one conversion succeeds iff the value has the right kind and range, and yields `Width` bytes |
| Struct.PackFromOk | packet.py:35-40 | packing succeeds iff every value fits its conversion |
| Struct.PackFromRangeError | packet.py:35-40 | with values of the right kinds, the only packing error is an out-of-range number |
| Struct.Pack | packet.py:35-40 | `struct.pack`: Ok iff all values fit; the result is `calcsize` bytes; a wrong argument count is an error |
| Struct.Unpack | packet.py:43 | `struct.unpack` fails with a buffer-size error iff the buffer length is not `calcsize` |
| Struct.ShortRoundTrip | packet.py:35-37 | reading the two little-endian bytes of an int16 gives the int16 back |
| Struct.ShortBytesOfValue | packet.py:43-47 | any two bytes are the encoding of the int16 they read as |
| Struct.UnpackPack | packet.py:35-51 | unpacking what was packed gives back every value (bytes fields truncated or padded) |
| Struct.PackUnpack | packet.py:35-51 | on an aligned format, packing what was unpacked gives back the buffer |
| Struct.UnpackExact | packet.py:43 | every unpacked value fits its conversion, and each `s` value is exactly n bytes |
| Struct.LayoutByOffsets | packet.py:22-32 | a format with no padding at any field offset is aligned and ends at the sum of the widths |
| Struct.PackedField | packet.py:35-40 | field k of a packed buffer is the encoding of value k at offset `OffsetOf(fmt, k)` |
| Struct.UnpackedField | packet.py:43-51 | value k of an unpacked buffer is read from the bytes at offset `OffsetOf(fmt, k)` |
| Utf8.Encode | packet.py:38 | `bytes(s, 'utf-8')` fails iff the str holds a lone surrogate |
| Utf8.DecodeEncode | packet.py:38 | decoding the UTF-8 encoding of a str gives the str back |
| Utf8.EncodeDecode | server.py:63 | bytes that decode are exactly the encoding of what they decode to |
| Utf8.EncodeAllLastByte | packet.py:38 | an encoding ends in a zero byte iff the str ends in U+0000 |
| Base.RStripZeros | server.py:63 | `rstrip(b'\x00')` leaves a prefix that does not end in zero, and drops only zeros |
| Base.RStripPadded | server.py:63 | stripping the zero padding of a field restores bytes that do not end in zero |
| Base.Received | server.py:62 | `recv(n)` returns the first `min(n, available)` waiting bytes |
| Packet.NameArg | packet.py:38 | a name becomes a bytes argument iff it is a str without lone surrogates; raw bytes raise TypeError |
| Packet.EncodeGame | packet.py:34-40 | `pack_bytes` succeeds iff all numbers are in range and both names are encodable strs; the result is 43 bytes |
| Packet.GameLayout | packet.py:22-32 | `'hhhh16s16sBBB'` needs no padding and `calcsize` is 43 |
| Packet.GameOffsets | packet.py:22 | the fields start at offsets 0, 2, 4, 6, 8, 24, 40, 41 and 42, and the packet ends at 43 |
| Packet.GameValuesFit | packet.py:35-40 | the nine arguments fit iff the four shorts and three bytes are in range and the names are bytes |
| Packet.GameWireLayout | packet.py:34-40 | the encoded packet has the int16s at 0..7, the name fields at 8..23 and 24..39, and the scores and phase at 40, 41 and 42 |
| Packet.DecodeGame | packet.py:42-51 | unpacking fails iff the buffer is not 43 bytes; otherwise it gives in-range numbers and 16-byte raw names |
| Packet.GameUnpackLayout | packet.py:42-51 | every 43-byte buffer unpacks, each field read from the offset it is written to |
| Packet.GameRoundTrip | packet.py:34-51 | unpack(pack(g)) restores ball, paddles, scores and phase exactly; each name comes back as its 16-byte field |
| Packet.UnpackedGameDoesNotRepack | packet.py:38-49 | an unpacked GamePacket holds bytes names, so `pack_bytes` on it raises TypeError |
| Packet.GameRangeError | packet.py:35-40 | with encodable str names, packing fails only with struct.error for a number out of range |
| Packet.NameRecovered | packet.py:38-49 | a name survives its field and `rstrip`/`decode` iff its UTF-8 form is at most 16 bytes and it does not end in NUL |
| Packet.EncodePlayer | packet.py:73-74 | `pack_bytes` succeeds iff the name is an encodable str, pos an int16 and key a uint8; the result is 19 bytes |
| Packet.PlayerLayout | packet.py:65-71 | `'16shB'` needs no padding and `calcsize` is 19 |
| Packet.PlayerOffsets | packet.py:65 | name at 0, y at 16, key at 18, end at 19 |
| Packet.PlayerValuesFit | packet.py:74 | the three arguments fit iff the name is bytes, pos an int16 and key a uint8 |
| Packet.PlayerWireLayout | packet.py:73-74 | the encoded packet is the 16-byte name field, then the little-endian y, then the key byte |
| Packet.DecodePlayer | packet.py:76-78 | unpacking fails iff the buffer is not 19 bytes; otherwise a 16-byte raw name, an int16 and a uint8 |
| Packet.PlayerUnpackLayout | packet.py:76-78 | every 19-byte buffer unpacks to name bytes 0..15, y from 16..17, key from 18 |
| Packet.PlayerRoundTrip | packet.py:73-78 | unpack(pack(p)) restores pos and key exactly; the name comes back as its 16-byte field |
| Packet.GamePacket.constructor | packet.py:21-32 | a new GamePacket is all zeros with the names " " |
| Packet.GamePacket.PackBytes | packet.py:34-40 | fails iff a number is out of range or a name is not an encodable str; the result has `length` bytes |
| Packet.GamePacket.UnpackBytes | packet.py:42-51 | raises iff the buffer length is not `length`, then leaving the fields unchanged; otherwise the fields become the decoded packet |
| Packet.PlayerPacket.constructor | packet.py:64-71 | a new PlayerPacket holds the given name and pos, with key 0 |
| Packet.PlayerPacket.PackBytes | packet.py:73-74 | fails iff the fields are not packable; the result has `length` bytes |
| Packet.PlayerPacket.UnpackBytes | packet.py:76-78 | raises iff the buffer length is not `length`, then leaving the fields unchanged; otherwise the fields become the decoded packet |
| Server.IndexOf | server.py:59 | `users.index(u)` is the first position holding u |
| Server.RemoveAt | server.py:72 | removal keeps the users before the index and moves later users down one place |
| Server.RemoveAtKeeps | server.py:72 | removal keeps the list free of repeats, keeps every other user and drops the removed one |
| Server.Seat | server.py:65-70 | index 0 writes only p1y/p1_name, index 1 only p2y/p2_name, index 2 or more nothing |
| Server.ReadSeatsPacket | server.py:59-70 | fewer than 19 bytes raise struct.error; an undecodable name raises UnicodeDecodeError; otherwise the sender's seat takes the int16 at offset 16 and the decoded name (19-byte read, see Findings) |
| Server.ResetClearsSeat | server.py:71-77 | a reset removes the socket and blanks only its seat's name; the paddles and the other name are untouched |
| Server.SurvivorTakesSeatOne | server.py:59-77 | after player 1 resets, player 2's socket is at index 0 and fills player 1's seat, while p2_name keeps its old value |
| Server.ReadStepUsers | server.py:58-77 | a read keeps the user list free of repeats and removes at most the socket it read |
| Server.ReadAll | server.py:58-77 | the read loop keeps the users distinct, and only struct.error or UnicodeDecodeError escape it (19-byte read, see Findings) |
| Server.AsWrittenReadAlwaysRaises | server.py:62 | as written, reading 18 bytes always raises struct.error, whatever the client sent |
| Server.CorrectedReadSeatsPlayer | server.py:61-70 | with a 19-byte read, a packet the client packed seats its sender's y and name |
| Server.ReadStepKeepsPackable | server.py:63-70 | a read never leaves the game state unpackable (19-byte read, see Findings) |
| Server.ReadAllKeepsPackable | server.py:58-77 | the read loop never leaves the game state unpackable (19-byte read, see Findings) |
| Server.TickKeepsPackable | server.py:49-92 | from a packable state a tick keeps it packable, so the broadcast never raises and reaches every writable socket (19-byte read, see Findings) |
| Server.TickThrottle | server.py:55-92 | state is sent and `last_tx` set to the loop time only when `tx_interval` has passed; with no users nothing happens |
| Server.Server.constructor | server.py:16-28 | a new server has a fresh initial GamePacket, `last_tx` 0, no users, and is open |
| Server.Server.AwaitConnection | server.py:41-46 | while open, every accepted socket is appended to `users` in order, without limit |
| Server.Server.ReadSocket | server.py:58-77 | one readable socket changes users and state exactly as the read step says, or raises and changes nothing (19-byte read, see Findings) |
| Server.Server.SendAll | server.py:89-90 | `sendall(state.pack_bytes())` goes to each writable socket in order; a pack error stops it |
| Server.Server.Tick | server.py:49-92 | the new users, state and `last_tx`, the exception and the bytes sent are those of the tick specification (19-byte read, see Findings) |
| Client.LastKeyDown | client.py:171-176 | the kept key event is a KEYDOWN from the frame's events |
| Client.LastKeyDownNone | client.py:171-176 | no key event is kept iff the frame has no KEYDOWN |
| Client.LastKeyDownIsLast | client.py:171-176 | the kept key event is a KEYDOWN of the frame with no KEYDOWN after it |
| Client.PollEvents | client.py:171-176 | the event loop keeps the last KEYDOWN and clears `run` iff a QUIT is among the events |
| Client.NextScreenCases | client.py:181-206 | Menu→Connect iff start is clicked; Connect waits on an empty queue, then goes to Game or Failed; Game→Pause iff the frame's last KEYDOWN is Escape; Failed→Menu iff OK is clicked; Pause→Game on Resume, else Menu on Quit |
| Client.EnteringGame | client.py:181-206 | Game is entered only from Connect on "Connected" or from Pause on Resume |
| Client.NextScreenSuccessors | client.py:181-206 | the transition block leads exactly to each screen's successors |
| Client.GameOnlyAfterConnect | client.py:181-206 | starting from Menu, every screen before the first Connect→Game step is Menu, Connect or Failed |
| Client.KeyMask | client.py:240-243 | `player_key` is 32 exactly while space is held, else 0 |
| Client.MovePaddleBounds | client.py:233-238 | y stays in [0, h_screen//2], moves by at most one, and Up wins over Down |
| Client.SendRule | client.py:255-260 | `w and y changed or key changed`: a key change is sent even without `w`; right after a send nothing is due |
| Client.ShownNamesOutcome | client.py:74-79 | the labels show both decoded names iff both fields are bytes and decode, the stored values when either is a str; an undecodable field raises, leaving label 2 as it was and label 1 set to the decoded first name when that one decodes |
| Client.DisplayBeforeFirstPacket | client.py:74-79 | before any packet arrives, the str names show as they are through the TypeError path |
| Client.DisplayRecoveredNames | client.py:74-79 | bytes fields that strip and decode to n1 and n2 show n1 and n2 without an exception |
| Client.DisplayShowsServerNames | client.py:74-79 | the names the server packs are the names shown, when each fits 16 UTF-8 bytes and does not end in NUL |
| Client.GameView.constructor | client.py:20-50 | a new game view holds an initial GamePacket and `last_update` 0 |
| Client.GameView.DrawNames | client.py:74-79 | the labels and the exception are those `ShownNames` gives: label 1 is set before label 2 is decoded, so a bad second name escapes after label 1 changed |
| Client.Client.constructor | client.py:119-164 | the loop starts from `InitialClient`: Menu, run, y 45, `last_y` 0, the IP box at "127.0.0.1" with 15 characters max, the name box empty with 16 max, all buttons unclicked, empty name labels |
| Client.PaddleStepSane | client.py:230-245 | the paddle update keeps y in [0, 90] and the key 0 or 32, and changes no screen, flag, name or `last_y`/`last_key` |
| Client.ReceiveStepKeeps | client.py:247-254 | a receive changes the screen only on ConnectionResetError, to Failed, and changes no paddle, key or typed name |
| Client.SendStepSends | client.py:255-260 | a sent PlayerPacket decodes to the typed name's 16-byte field, y and key, and afterwards `last_y`/`last_key` equal them |
| Client.GameStepScreen | client.py:230-262 | the game screen's actions keep `run` and lead to Failed exactly when the socket was reset |
| Client.GameStepSends | client.py:230-262 | the game screen's actions keep y and key in range and the typed name; a sent packet decodes to the name field, y and key |
| Client.StepRunAndScreen | client.py:166-273 | one pass clears `run` iff a QUIT is among the events; the screen is the transition block's, or Failed when the game screen saw a reset |
| Client.StepSends | client.py:166-273 | from a sane state one pass stays sane, and only the game screen sends, with the name field, y and key |
| Client.RunStops | client.py:166-281 | the loop makes at most one pass per frame, stops early only when `run` is cleared or a pass raised, and only the last pass can raise |
| Client.RunSends | client.py:166-281 | every packet a run sends decodes to a y in [0, 90] and a key of 0 or 32 |
| Client.Client.ChooseScreen | client.py:181-206 | the if/elif chain of the transition block picks `NextScreen` of the screen, the buttons' flags, the queue and the key event |
| Client.Client.Transition | client.py:181-206 | the new loop state is `TransitionStep`: the chosen screen, and leaving Menu resets `player_y` to 45 and `last_y` to 0 |
| Client.Client.UpdatePaddle | client.py:230-245 | the new loop state is `PaddleStep`: after `update_interval` the paddle moves, the key mask is set and `last_update` is the time; otherwise nothing changes |
| Client.Client.Receive | client.py:247-254 | the new loop state is `ReceiveStep`: the bytes replace the state or raise struct.error with nothing changed; ConnectionResetError leads to Failed |
| Client.Client.SendIfChanged | client.py:255-260 | the new loop state and what is sent are `SendStep`: a PlayerPacket of the typed name, y and key when the send rule holds, and last_y/last_key catch up |
| Client.Client.GameActions | client.py:230-262 | the new loop state and output are `GameStep`: paddle, receive, send, then the labels; the first exception stops the rest |
| Client.Client.MenuActions | client.py:211-226 | the IP box, name box and start button take their next selection, text and clicked flag, in that order |
| Client.Client.FailedActions | client.py:263-267 | the OK button takes its next clicked flag |
| Client.Client.PauseActions | client.py:268-273 | the Resume and Quit buttons take their next clicked flags |
| Client.Client.Iterate | client.py:166-273 | the whole new loop state and output are `Step` of the old state and the frame |
| Client.Client.Run | client.py:166-281 | the final loop state and the outputs are `RunSpec`: one `Step` per frame until `run` is cleared or a pass raises |
| Gui.ButtonStepEdges | gui.py:33-51 | `clicked` records "pressed while hovering"; the callback is due iff a release while hovering follows a press; leaving clears the flag without firing |
| Gui.ClickedIsLastFrame | gui.py:39-51 | after any run of frames, `clicked` is whether the last frame was a hover with the button down |
| Gui.FiresOnFallingEdge | gui.py:39-51 | a fresh button fires on frame i iff frame i-1 was hover and pressed and frame i is hover and released |
| Gui.Button.constructor | gui.py:17-31 | a new button is unclicked, with its callback and arguments |
| Gui.Button.OnClickFunc | gui.py:60-62 | the callback is called with its argument iff one is set |
| Gui.Button.Draw | gui.py:33-58 | the flag, the shade and the callback made follow the edge detector |
| Gui.SelectCases | gui.py:77-84 | a press inside selects, a press outside deselects, no press leaves the selection |
| Gui.EditCases | gui.py:86-91 | the text changes only on a KEYDOWN to a selected box: Backspace drops the last character, other keys append while shorter than `max_chars` |
| Gui.EditKeepsBound | gui.py:88-91 | keys that type at most one character keep `len(text) <= max_chars` |
| Gui.BackspaceUndoesTyping | gui.py:88-91 | a character typed while there is room is removed again by Backspace |
| Gui.TextBox.constructor | gui.py:65-70 | a new text box holds its text and `max_chars` and is not selected |
| Gui.TextBox.Draw | gui.py:72-96 | selection first, then the edit, then the shade: selected boxes are drawn pressed |

## Left out

- Sockets, `select`, `bind`/`listen`/`accept`, `connect`, `setblocking`, `sendall` and `close` are left out. The model takes sockets as identities. What `select` reports, what `recv` returns or raises, and what `accept` returns are parameters. The bytes `sendall` would send are results. A failing `sendall` is not modelled.
- Threads and `queue.Queue` are left out. The connect thread's result is the optional next message of the connect queue, passed in per frame. The client's `connect_state` field is never read and is left out.
- All pygame rendering is left out: `Text.draw`, fonts, `blit`, rect centering, the arrow, the score labels and the window scaling. Mouse geometry (`collidepoint` of the scaled position) becomes one hover flag per widget.
- `time.time()` becomes a `loopTime` or `now` parameter. The client's two clock reads in the Game screen are one `now`.
- Server.TickSpec, Server.Server.Tick, Client.PaddleStep, Client.Client.UpdatePaddle: the clock values, their differences and the intervals `tx_interval` (0.033) and `update_interval` (0.01) are floats in the source and exact reals in the model, so a throttle comparison at the exact boundary may come out differently after rounding.
- The ball position and velocity constants are not modelled. The server has no ball physics, scoring or serve logic, and the phase byte is only carried through the codec.
- The `__str__` methods, the abstract `Packet` base class and the client's frame counter `i` are not modelled; none of them affects the state.
- The server's `KeyboardInterrupt` handler is not modelled: it prints a message and exits the process.
- The struct model covers only the `h`, `B` and `<n>s` conversions, native size and alignment, and little-endian order. A big-endian host is not modelled.
- The server's placeholder `PlayerPacket(None, None)` is created with an empty name and y 0. Those fields are overwritten before they are read.
- Python's `str` is modelled as a sequence of code points. `TextBox` appends `event.unicode`, a sequence of code points for each key.

## Findings

| source | as written | input that shows it | evidently intended | confidence | as-written member | corrected member |
|---|---|---|---|---|---|---|
| server.py:62 | `user.recv(18)` reads at most 18 bytes, and `unpack_bytes` needs exactly 19 (`'16shB'`), so every packet from a client raises struct.error out of `tick` | any PlayerPacket the client sends, e.g. name "a", y 45, key 0: 19 bytes queued, 18 read, struct.error | read `user_packet.length` (19) bytes | high (not executed) | Server.AsWrittenReadAlwaysRaises | Server.CorrectedReadSeatsPlayer |

`Server.ReadStepWith` takes the read size as a parameter. `Server.ReadStep`,
`Server.Server.ReadSocket` and `Server.Server.Tick` use the corrected size 19.
