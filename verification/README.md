# BLE RGB button link, modelled in Dafny

Two small CircuitPython/Python scripts form a remote control over Bluetooth Low
Energy. The desktop script (`Xiao/ble_rgb_control/xiao_control.py`) reads
lines from standard input. It turns each line into a Bluefruit Connect
control-pad button packet and writes the packet's bytes to the Nordic UART
receive characteristic, in slices no longer than the connection's maximum
write size. The firmware (`Xiao/ble_rgb_button/code.py`) advertises the UART
service and waits for a connection. While connected, it reads packets and
drives three active-low RGB LED pins. When the link drops, it advertises
again.

This project models the pure logic of both scripts:

- `Chunking` (chunking.dfy): the `sliced` generator, and the loop that writes its slices.
- `HostCommand` (host_command.dfy): `str.strip()` and the command classifier. A leading `u`/`d`/`l`/`r` becomes the Up/Down/Left/Right codes `5`/`6`/`7`/`8`. The quit test runs after that substitution, and the single-character gate runs last.
- `HostLoop` (host_loop.dfy): the read/classify/build/send loop. It is written twice: as a recursive reference function `Terminal`, and as the method `RunTerminal`, which follows the script's `while True` with its `break`/`continue`. The method is proved equal to the function.
- `Buttons` (buttons.dfy): the eight control-pad buttons, their wire characters, and the decoded packet that the firmware sees.
- `LedPolicy` (led_policy.dfy): the firmware's LED step function, and a fold of it over a packet sequence.
- `Device` (device.dfy): the advertising/connected cycle of the firmware, built around the LED policy.
- `Link` (link.dfy): the two scripts joined together. The bytes the host writes are read back by the firmware frame by frame and fed to the board while it is connected. It uses the Bluefruit Connect rule that a button is one of `1`..`8`.
- `Wrappers` (wrappers.dfy): `Option`.

Three things come from code that is not part of this model, so `HostLoop` takes them as parameters:
- `accepts`: whether `button_packet.ButtonPacket(cmd, True)` can be constructed.
- `encode`: `to_bytes()` of the packet.
- `mtu`: `max_write_without_response_size`.

The firmware's `Packet.from_stream` is library code too, so `Link` takes it as two more parameters: `frameLen`, the fixed length of a button packet on the wire, and `decodeFrame`, which reads one such frame back into a `Packet`. `Link.FramesButtons` states the one thing the link relies on about the library: every buildable button packet encodes to one frame of `frameLen` bytes, and that frame decodes to the same button with the same pressed flag.

The lines that `readline` returns are the input sequence. Running out of lines counts as end of input, because `readline` keeps returning an empty line at end of file.

At start-up the firmware sets all pins high (`LedPolicy.AllOff`, code.py:28-30), so every LED is off. `Device.PowerOn` is that state with the phase `Advertising`.

The firmware has only two phases, advertising and connected. A lost connection leads straight back to `start_advertising`, so there is no separate "disconnected" state.

## Model

| member | source | states |
|---|---|---|
| Chunking.Slice | Xiao/ble_rgb_control/xiao_control.py:43 | `data[i:i+n]` holds the elements of `data` from index i on, one for one, and its length is n cut down to what is left after i; a start at or past the end gives the empty slice |
| Chunking.SlicedFrom | Xiao/ble_rgb_control/xiao_control.py:38-43 | every chunk the generator yields is non-empty and at most n long, and every chunk but the last is exactly n long; for n > 0 the chunks concatenate to the rest of the data; n = 0 yields nothing |
| Chunking.Sliced | Xiao/ble_rgb_control/xiao_control.py:38-43 | `sliced(data, n)` yields well-sized chunks (non-empty, at most n, all but the last exactly n); for n > 0 concatenating them in order gives back exactly `data`; n = 0 yields no chunk |
| Chunking.SlicedZeroIsEmpty | Xiao/ble_rgb_control/xiao_control.py:43 | with n = 0 the first slice is empty, so `takewhile` yields no chunk and non-empty data is not reproduced |
| Chunking.SlicedCount | Xiao/ble_rgb_control/xiao_control.py:43 | the number of chunks c is ceil(len(data) / n), stated as len(data) <= n*c and n*(c-1) < len(data); empty data yields no chunks and non-empty data yields some |
| Chunking.SlicedIsTheOnlyChunking | Xiao/ble_rgb_control/xiao_control.py:38-43 | any list of chunks that is well sized (non-empty, at most n, all but the last exactly n) and concatenates to data is exactly `sliced(data, n)` |
| Chunking.WriteSlices | Xiao/ble_rgb_control/xiao_control.py:139-140 | the write loop issues exactly the slices of `sliced`, in order, so by the contract of `Chunking.Sliced` the writes reassemble the packet bytes when n > 0 |
| Buttons.FromCode | Xiao/ble_rgb_button/code.py:49-61 | a wire character names a button exactly when it is '1'..'8'; the button it names encodes back to that character, and no button encodes to any other character |
| Buttons.CodeRoundTrip | Xiao/ble_rgb_button/code.py:49-61 | every button decodes back from its own wire character |
| HostCommand.LeadingSpaces | Xiao/ble_rgb_control/xiao_control.py:97 | the count of leading characters removed is the longest all-whitespace prefix |
| HostCommand.TrailingSpaces | Xiao/ble_rgb_control/xiao_control.py:97 | the count of trailing characters removed is the longest all-whitespace suffix |
| HostCommand.Strip | Xiao/ble_rgb_control/xiao_control.py:96-97 | the stripped command is empty exactly when the line is all whitespace; otherwise it neither starts nor ends with whitespace |
| HostCommand.StripRemovesOnlyWhitespace | Xiao/ble_rgb_control/xiao_control.py:97 | the stripped command is a contiguous part of the line, with only whitespace before and after it |
| HostCommand.Classify | Xiao/ble_rgb_control/xiao_control.py:99-116 | quit exactly when the command starts with 'q'; a command starting with u/d/l/r sends 5/6/7/8 whatever follows, so it never quits; another single character is sent as typed; rejected exactly when the command is empty, or is longer than one character without a pad letter or 'q' first |
| HostCommand.SentIsOneCharacter | Xiao/ble_rgb_control/xiao_control.py:99-116 | a sent button is the pad code of the first letter, or the whole command when it is that one character |
| HostCommand.ClassifyExamples | Xiao/ble_rgb_control/xiao_control.py:99-116 | "u", "up" and "left" send 5, 5 and 7; "q" and "quit" quit; "ab" and "" are rejected; "x" and "1" are sent as typed |
| HostLoop.Terminal | Xiao/ble_rgb_control/xiao_control.py:85-142 | the session never counts more handled lines than were read |
| HostLoop.TerminalHandledLinesContinue | Xiao/ble_rgb_control/xiao_control.py:92-127 | every line handled before the stop was non-empty, and was either rejected or sent with a packet that could be built |
| HostLoop.TerminalStopReason | Xiao/ble_rgb_control/xiao_control.py:92-127 | the loop stops at end of input (an empty read, or no more lines), at a command starting with 'q' after substitution, or at a command whose packet cannot be built, which it reports; each condition holds exactly when that is the reason |
| HostLoop.TerminalSentInOrder | Xiao/ble_rgb_control/xiao_control.py:118-142 | the packets sent are exactly the sent commands of the handled lines, in input order; each is pressed and was accepted by the packet builder; nothing is sent from the stopping line or after it |
| HostLoop.TerminalWritesReassemble | Xiao/ble_rgb_control/xiao_control.py:129-140 | for a positive maximum write size, the writes concatenate to the sent packets' encodings back to back in send order; every write is non-empty and at most the maximum; with a maximum of 0 nothing is written |
| HostLoop.BlankLineIsSkipped | Xiao/ble_rgb_control/xiao_control.py:92-116 | a non-empty all-whitespace line is not end of input: it is rejected and the loop goes on with the next line |
| HostLoop.TerminalTurn | Xiao/ble_rgb_control/xiao_control.py:99-127 | one turn of the loop, in the script's test order: quit, then the length gate, then packet construction, then send and continue |
| HostLoop.RunTerminal | Xiao/ble_rgb_control/xiao_control.py:85-142 | the imperative loop, with its break and continue, produces the same sent packets, writes, stop reason and handled count as the reference function |
| LedPolicy.Step | Xiao/ble_rgb_button/code.py:47-64 | a pressed Down or Button 1 turns every LED off; a pressed Left, Up or Right lights red, green or blue and leaves the other two pins unchanged; any other packet leaves the pins unchanged |
| LedPolicy.StepIgnores | Xiao/ble_rgb_button/code.py:47-64 | released buttons, non-button packets and pressed Buttons 2, 3 and 4 change nothing |
| LedPolicy.StepIdempotent | Xiao/ble_rgb_button/code.py:49-64 | applying the same packet twice gives the same pins as applying it once |
| LedPolicy.StepCommute | Xiao/ble_rgb_button/code.py:55-60 | any two packets that are not resets, in particular Left, Up and Right, give the same pins in either order |
| LedPolicy.RunLit | Xiao/ble_rgb_button/code.py:44-64 | after a sequence of packets, an LED is on exactly when its direction was pressed after the last reset, or it was on before and no reset came |
| LedPolicy.LeftUpDownRight | Xiao/ble_rgb_button/code.py:49-64 | starting with all LEDs off, Left, Up, Down, Right gives red, then red and green, then none, then blue only |
| Device.Next | Xiao/ble_rgb_button/code.py:37-69 | connecting moves to Connected and disconnecting to Advertising, and neither touches the pins; a packet changes only the pins, and only while connected, by the LED step |
| Device.RunBoardSplits | Xiao/ble_rgb_button/code.py:37-69 | after any events the board is the phase machine's state paired with the LED policy applied to the packets that arrived while connected: connection churn never resets the LEDs |
| Device.DisconnectKeepsLeds | Xiao/ble_rgb_button/code.py:44-69 | after a lost connection the board advertises again with its LEDs as they were |
| Device.ConnectedSession | Xiao/ble_rgb_button/code.py:37-66 | after a connect followed by packets, the board is connected and its pins are the LED policy applied to exactly those packets, from the pins it had before |
| Link.ReadBackFrames | Xiao/ble_rgb_button/code.py:45-46 | packets whose encodings all have the frame length, written back to back, are read back as exactly those encodings, one frame each, in order |
| Link.FirmwareReadsWhatHostSent | Xiao/ble_rgb_control/xiao_control.py:129-140 | for a positive write size, and a packet library whose decoder reads back its own frames, the firmware decodes from the written bytes exactly the host's sent packets, in order |
| Link.ZeroWriteSizeDeliversNothing | Xiao/ble_rgb_control/xiao_control.py:139-140 | with a write size of 0 no byte is written, so the firmware reads no packet, and whenever a packet was sent what it reads differs from what was sent |
| Link.HostSendsPressedButtons | Xiao/ble_rgb_control/xiao_control.py:118-140 | for a positive write size, the firmware reads from the written bytes one packet per packet sent, and each is a pressed button whose wire character is the command the host sent in that position |
| Link.StripLine | Xiao/ble_rgb_control/xiao_control.py:96-97 | a line of non-whitespace characters ending in a newline strips to those characters |
| Link.SendThenRest | Xiao/ble_rgb_control/xiao_control.py:118-142 | a line sending a valid button puts its pressed packet in front of what the rest of the input sends, and the stop reason is the rest's |
| Link.PadLetterLine | Xiao/ble_rgb_control/xiao_control.py:99-107 | a pad letter alone on a line sends its direction's code |
| Link.LetterLine | Xiao/ble_rgb_control/xiao_control.py:96-107 | a pad letter followed by a newline sends that letter's code, and the code is a valid button |
| Link.SendsEach | Xiao/ble_rgb_control/xiao_control.py:85-142 | lines that each send a valid button, then the end of input, send exactly those buttons, pressed, in order, and the loop stops at end of input |
| Link.TypedDirections | Xiao/ble_rgb_control/xiao_control.py:92-142 | the lines l, u, d, r, each ending in a newline, send pressed 7, 5, 6, 8 in that order, then the loop stops at end of input |
| Link.KeysLeftUpDownRight | Xiao/ble_rgb_button/code.py:37-64 | typing l, u, d, r on the host, one per line, with a positive write size and the board connected from power-on: the firmware decodes the written bytes, and the board ends connected with only the blue LED on |

## Left out

- BLE scanning, connecting, notifications and GATT writes (`bleak`, `adafruit_ble`, the UART service UUIDs), and the "no matching device" exit: these are foreign library I/O. A write is modelled only as a list of byte slices.
- Building and encoding button packets on the host (`button_packet.ButtonPacket`, `to_bytes`), and `Packet.from_stream` on the firmware: that code is in libraries that are not part of this model. The host takes packet validity and encoding as the parameters `accepts` and `encode`. On the firmware side, `Device` takes already-decoded `Packet` values; `Link` produces them by cutting the written bytes into `frameLen` frames and decoding each frame with the parameter `decodeFrame`. `Link.FramesButtons` constrains `decodeFrame` only on the encodings of valid buttons, so any other frame may decode to any packet; nothing in the model maps such a frame to `OtherPacket`.
- UTF-8 decoding of a read line (`data.decode()`): lines are given as text. A decoding error, which would end the script, is not modelled.
- The task cancellation on disconnect and the executor-based stdin read on the host: these are concurrency plumbing. Disconnection on the host is not modelled.
- GPIO setup, the busy-wait `while not ble.connected`, the `uart.in_waiting` poll, and every `print`: these are hardware and console side effects. A read packet is a `Receive` event.
- Chunking.Sliced: a negative `n` is not modelled, because the size is a `nat`. The script only passes the connection's write size, which is never negative.
- HostLoop.Terminal: its own contract only bounds the handled count. Its behaviour is stated by the `Terminal*` lemmas and by `RunTerminal`.
- HostLoop.Terminal: the write size `mtu` is one value for the whole session. The script reads `max_write_without_response_size` again before every packet (xiao_control.py:139); a size that changes during a connection is not modelled.
- Link.FramesButtons: the link is proved only for a packet library whose decoder reads back its own fixed-length frames. Checksum errors, packets of other kinds mixed into the stream, and a partial frame left at the end (which `from_stream` would wait on) are not modelled. Decoding errors in general are not modelled, because `Packet.from_stream` is library code.
- Link.FirmwareReadsWhatHostSent: needs a positive write size. With a size of 0 nothing reaches the firmware (`Link.ZeroWriteSizeDeliversNothing`).
