/**
 The two scripts together: keys typed on the host become button packets whose
 bytes the host writes in slices; the firmware reads those bytes back as
 packets and feeds them to its LED policy while connected. Here the host's
 packet library accepts exactly the eight control-pad characters, as the
 Bluefruit Connect button packet does.

 The packet library is not part of this model. Its two halves are parameters
 that must agree: `encode` turns a button packet into a frame of `frameLen`
 bytes, and `decodeFrame` reads such a frame back into the packet the firmware
 sees (`FramesButtons`).
 */
module Link {
  import opened Wrappers
  import opened Buttons
  import Chunking
  import HostCommand
  import HostLoop
  import LedPolicy
  import Device

  /** The Bluefruit Connect rule for building a button packet: one of '1' to '8'. */
  predicate ValidButton(c: char) {
    FromCode(c).Some?
  }

  /** The packet the firmware should see for a button packet the host built. */
  function Decode(p: HostLoop.ButtonPacket): Packet {
    match FromCode(p.button)
    case Some(b) => ButtonPress(b, p.pressed)
    case None => OtherPacket
  }

  function DecodeAll(sent: seq<HostLoop.ButtonPacket>): (pkts: seq<Packet>)
    ensures |pkts| == |sent|
    ensures forall i :: 0 <= i < |sent| ==> pkts[i] == Decode(sent[i])
  {
    if sent == [] then [] else [Decode(sent[0])] + DecodeAll(sent[1..])
  }

  /**
   The two halves of the packet library agree: every buildable button packet
   encodes to one frame of frameLen bytes, and that frame decodes to the
   packet.
   */
  ghost predicate FramesButtons(encode: HostLoop.ButtonPacket -> seq<HostLoop.byte>, frameLen: nat,
                                decodeFrame: seq<HostLoop.byte> -> Packet)
  {
    && 0 < frameLen
    && (forall p: HostLoop.ButtonPacket :: ValidButton(p.button) ==> |encode(p)| == frameLen)
    && (forall p: HostLoop.ButtonPacket :: ValidButton(p.button) ==> decodeFrame(encode(p)) == Decode(p))
  }

  /** f applied to each element, in order. */
  function MapSeq<A, B>(xs: seq<A>, f: A -> B): (ys: seq<B>)
    ensures |ys| == |xs|
    ensures forall i :: 0 <= i < |xs| ==> ys[i] == f(xs[i])
  {
    seq(|xs|, i requires 0 <= i < |xs| => f(xs[i]))
  }

  /** The firmware's reader: the received bytes, frame after frame, each decoded. */
  function ReadPackets(stream: seq<HostLoop.byte>, frameLen: nat, decodeFrame: seq<HostLoop.byte> -> Packet): seq<Packet> {
    MapSeq(Chunking.Sliced(stream, frameLen), decodeFrame)
  }

  /** What the firmware reads from the bytes the host session wrote. */
  function Received(lines: seq<string>, encode: HostLoop.ButtonPacket -> seq<HostLoop.byte>, mtu: nat,
                    frameLen: nat, decodeFrame: seq<HostLoop.byte> -> Packet): seq<Packet>
  {
    ReadPackets(Chunking.Flatten(HostLoop.Terminal(lines, ValidButton, encode, mtu).writes), frameLen, decodeFrame)
  }

  lemma {:induction false} FlattenFrames(sent: seq<HostLoop.ButtonPacket>, encode: HostLoop.ButtonPacket -> seq<HostLoop.byte>)
    ensures Chunking.Flatten(MapSeq(sent, encode)) == HostLoop.Encodings(sent, encode)
  {
    if sent != [] {
      FlattenFrames(sent[1..], encode);
      assert MapSeq(sent, encode)[1..] == MapSeq(sent[1..], encode);
    }
  }

  /**
   Packets whose encodings all have the frame length are read back frame by
   frame: the reader's frames are exactly their encodings.
   */
  lemma ReadBackFrames(sent: seq<HostLoop.ButtonPacket>, encode: HostLoop.ButtonPacket -> seq<HostLoop.byte>, frameLen: nat)
    requires 0 < frameLen
    requires forall i :: 0 <= i < |sent| ==> |encode(sent[i])| == frameLen
    ensures Chunking.Sliced(HostLoop.Encodings(sent, encode), frameLen) == MapSeq(sent, encode)
  {
    FlattenFrames(sent, encode);
    Chunking.SlicedIsTheOnlyChunking(HostLoop.Encodings(sent, encode), frameLen, MapSeq(sent, encode));
  }

  /**
   With a positive write size the firmware reads back exactly the packets the
   host sent, in order, whatever the write size slices them into.
   */
  lemma FirmwareReadsWhatHostSent(lines: seq<string>, encode: HostLoop.ButtonPacket -> seq<HostLoop.byte>, mtu: nat,
                                  frameLen: nat, decodeFrame: seq<HostLoop.byte> -> Packet)
    requires 0 < mtu
    requires FramesButtons(encode, frameLen, decodeFrame)
    ensures Received(lines, encode, mtu, frameLen, decodeFrame)
         == DecodeAll(HostLoop.Terminal(lines, ValidButton, encode, mtu).sent)
  {
    var s := HostLoop.Terminal(lines, ValidButton, encode, mtu);
    HostLoop.TerminalWritesReassemble(lines, ValidButton, encode, mtu);
    HostLoop.TerminalSentInOrder(lines, ValidButton, encode, mtu);
    ReadBackFrames(s.sent, encode, frameLen);
  }

  /** With a write size of 0 nothing is written, so the firmware reads nothing, even when packets were sent. */
  lemma ZeroWriteSizeDeliversNothing(lines: seq<string>, encode: HostLoop.ButtonPacket -> seq<HostLoop.byte>,
                                     frameLen: nat, decodeFrame: seq<HostLoop.byte> -> Packet)
    ensures Received(lines, encode, 0, frameLen, decodeFrame) == []
    ensures HostLoop.Terminal(lines, ValidButton, encode, 0).sent != [] ==>
      Received(lines, encode, 0, frameLen, decodeFrame) != DecodeAll(HostLoop.Terminal(lines, ValidButton, encode, 0).sent)
  {
    HostLoop.TerminalWritesReassemble(lines, ValidButton, encode, 0);
  }

  /**
   Every packet the firmware reads is a pressed button whose wire character is
   the command the host sent in that position.
   */
  lemma HostSendsPressedButtons(lines: seq<string>, encode: HostLoop.ButtonPacket -> seq<HostLoop.byte>, mtu: nat,
                                frameLen: nat, decodeFrame: seq<HostLoop.byte> -> Packet)
    requires 0 < mtu
    requires FramesButtons(encode, frameLen, decodeFrame)
    ensures var pkts := Received(lines, encode, mtu, frameLen, decodeFrame);
      var s := HostLoop.Terminal(lines, ValidButton, encode, mtu);
      && |pkts| == |s.sent|
      && forall i :: 0 <= i < |pkts| ==>
           pkts[i].ButtonPress? && pkts[i].pressed && Code(pkts[i].button) == s.sent[i].button
  {
    FirmwareReadsWhatHostSent(lines, encode, mtu, frameLen, decodeFrame);
    HostLoop.TerminalSentInOrder(lines, ValidButton, encode, mtu);
  }

  /** Stripping a line of printable characters removes only its newline. */
  lemma StripLine(word: string)
    requires word != [] && forall i :: 0 <= i < |word| ==> !HostCommand.IsSpace(word[i])
    ensures HostCommand.Strip(word + "\n") == word
  {
    var s := word + "\n";
    assert HostCommand.LeadingSpaces(s) == 0;
    assert s[0..] == s;
    assert s[..|s| - 1] == word;
    assert HostCommand.TrailingSpaces(word) == 0;
    assert HostCommand.TrailingSpaces(s) == 1;
  }

  /** A line that sends an accepted command puts its packet in front of the rest of the session. */
  lemma SendThenRest(lines: seq<string>, c: char, encode: HostLoop.ButtonPacket -> seq<HostLoop.byte>, mtu: nat)
    requires lines != [] && lines[0] != [] && HostLoop.LineOutcome(lines[0]) == HostCommand.Send(c) && ValidButton(c)
    ensures var s := HostLoop.Terminal(lines, ValidButton, encode, mtu);
      var rest := HostLoop.Terminal(lines[1..], ValidButton, encode, mtu);
      s.sent == [HostLoop.ButtonPacket(c, true)] + rest.sent && s.stop == rest.stop
  {
    HostLoop.TerminalContinue(lines, ValidButton, encode, mtu);
  }

  /** A control-pad letter on a line of its own sends that direction's code. */
  lemma PadLetterLine(letter: char)
    requires HostCommand.PadCode(letter).Some?
    ensures HostLoop.LineOutcome([letter, '\n']) == HostCommand.Send(HostCommand.PadCode(letter).value)
  {
    StripLine([letter]);
    assert [letter] + "\n" == [letter, '\n'];
  }

  /** A pad letter and a newline: the line sends the letter's code, a valid button. */
  lemma LetterLine(line: string, code: char)
    requires |line| == 2 && line[1] == '\n' && HostCommand.PadCode(line[0]) == Some(code)
    ensures line != [] && HostLoop.LineOutcome(line) == HostCommand.Send(code) && ValidButton(code)
  {
    assert line == [line[0], '\n'];
    PadLetterLine(line[0]);
  }

  /** Pressed packets for a sequence of button characters, in order. */
  function Pressed(codes: seq<char>): (sent: seq<HostLoop.ButtonPacket>)
    ensures |sent| == |codes|
    ensures forall k :: 0 <= k < |codes| ==> sent[k] == HostLoop.ButtonPacket(codes[k], true)
  {
    seq(|codes|, k requires 0 <= k < |codes| => HostLoop.ButtonPacket(codes[k], true))
  }

  /**
   Lines that each send a valid button, and then the end of input: the session
   sends exactly those buttons, pressed, in order, and stops at end of input.
   */
  lemma {:induction false} SendsEach(lines: seq<string>, codes: seq<char>, encode: HostLoop.ButtonPacket -> seq<HostLoop.byte>, mtu: nat)
    requires |lines| == |codes|
    requires forall k :: 0 <= k < |lines| ==>
      lines[k] != [] && HostLoop.LineOutcome(lines[k]) == HostCommand.Send(codes[k]) && ValidButton(codes[k])
    ensures var s := HostLoop.Terminal(lines, ValidButton, encode, mtu);
      s.sent == Pressed(codes) && s.stop == HostLoop.EndOfInput
  {
    if lines != [] {
      SendsEach(lines[1..], codes[1..], encode, mtu);
      SendThenRest(lines, codes[0], encode, mtu);
      assert Pressed(codes) == [HostLoop.ButtonPacket(codes[0], true)] + Pressed(codes[1..]);
    }
  }

  /** The four direction packets decode to pressed Left, Up, Down and Right. */
  lemma DecodeDirections()
    ensures DecodeAll([HostLoop.ButtonPacket('7', true), HostLoop.ButtonPacket('5', true),
                       HostLoop.ButtonPacket('6', true), HostLoop.ButtonPacket('8', true)])
         == [ButtonPress(Left, true), ButtonPress(Up, true), ButtonPress(Down, true), ButtonPress(Right, true)]
  {
  }

  /** The lines l, u, d, r send Left, Up, Down and Right, pressed, and then the input ends. */
  lemma TypedDirections(lines: seq<string>, encode: HostLoop.ButtonPacket -> seq<HostLoop.byte>, mtu: nat)
    requires |lines| == 4 && forall k :: 0 <= k < 4 ==> |lines[k]| == 2 && lines[k][1] == '\n'
    requires lines[0][0] == 'l' && lines[1][0] == 'u' && lines[2][0] == 'd' && lines[3][0] == 'r'
    ensures var s := HostLoop.Terminal(lines, ValidButton, encode, mtu);
      && s.stop == HostLoop.EndOfInput
      && s.sent == [HostLoop.ButtonPacket('7', true), HostLoop.ButtonPacket('5', true),
                    HostLoop.ButtonPacket('6', true), HostLoop.ButtonPacket('8', true)]
  {
    var codes := ['7', '5', '6', '8'];
    LetterLine(lines[0], '7');
    LetterLine(lines[1], '5');
    LetterLine(lines[2], '6');
    LetterLine(lines[3], '8');
    SendsEach(lines, codes, encode, mtu);
    assert Pressed(codes) == [HostLoop.ButtonPacket('7', true), HostLoop.ButtonPacket('5', true),
                              HostLoop.ButtonPacket('6', true), HostLoop.ButtonPacket('8', true)];
  }

  /**
   Typing l, u, d, r on the host, one per line, with the board connected,
   leaves only the blue LED on.
   */
  lemma KeysLeftUpDownRight(lines: seq<string>, encode: HostLoop.ButtonPacket -> seq<HostLoop.byte>, mtu: nat,
                            frameLen: nat, decodeFrame: seq<HostLoop.byte> -> Packet)
    requires |lines| == 4 && forall k :: 0 <= k < 4 ==> |lines[k]| == 2 && lines[k][1] == '\n'
    requires lines[0][0] == 'l' && lines[1][0] == 'u' && lines[2][0] == 'd' && lines[3][0] == 'r'
    requires 0 < mtu
    requires FramesButtons(encode, frameLen, decodeFrame)
    ensures var pkts := Received(lines, encode, mtu, frameLen, decodeFrame);
      Device.RunBoard(Device.PowerOn, [Device.Connect] + Device.ReceiveAll(pkts))
        == Device.Board(Device.Connected, LedPolicy.Pins(true, true, false))
  {
    TypedDirections(lines, encode, mtu);
    DecodeDirections();
    FirmwareReadsWhatHostSent(lines, encode, mtu, frameLen, decodeFrame);
    LedPolicy.LeftUpDownRight();
    Device.ConnectedSession(Device.PowerOn, Received(lines, encode, mtu, frameLen, decodeFrame));
  }
}
