/**
 The read-and-send loop of the host script. Each read line is stripped and
 classified; a quit command or end of input ends the loop, a rejected command
 is skipped, and an accepted one is built into a pressed button packet whose
 bytes are written to the receive characteristic in slices.

 Three things come from code this model does not contain and are parameters:
 `accepts` says whether the packet library can build a pressed packet for a
 button character, `encode` is the packet's byte encoding, and `mtu` is the
 connection's maximum write-without-response size.
 */
module HostLoop {
  import opened HostCommand
  import Chunking

  newtype byte = b: int | 0 <= b < 256

  /** The packet the host builds for a command. */
  datatype ButtonPacket = ButtonPacket(button: char, pressed: bool)

  /** Why the loop ended. */
  datatype Stop = EndOfInput | QuitCommand | InvalidPacket(button: char)

  /**
   A finished session: the packets sent, in order; the characteristic writes
   they became, in order; why the loop stopped; and how many lines it handled
   before the line it stopped on (all of them when the input ran out).
   */
  datatype Session = Session(sent: seq<ButtonPacket>, writes: seq<seq<byte>>, stop: Stop, handled: nat)

  /** The outcome of one line read from standard input. */
  function LineOutcome(line: string): Outcome {
    Classify(Strip(line))
  }

  /** A line after which the loop goes on reading. */
  predicate Continues(line: string, accepts: char -> bool) {
    && line != []
    && (LineOutcome(line).Reject? || (LineOutcome(line).Send? && accepts(LineOutcome(line).button)))
  }

  /**
   The loop over the lines readline returns, in order. An empty read is end of
   input, and so is running out of lines, since readline keeps returning an
   empty line at end of file.
   */
  function Terminal(lines: seq<string>, accepts: char -> bool, encode: ButtonPacket -> seq<byte>, mtu: nat): (s: Session)
    ensures s.handled <= |lines|
  {
    if lines == [] || lines[0] == [] then Session([], [], EndOfInput, 0)
    else
      match LineOutcome(lines[0])
      case Quit => Session([], [], QuitCommand, 0)
      case Reject =>
        var rest := Terminal(lines[1..], accepts, encode, mtu);
        rest.(handled := rest.handled + 1)
      case Send(c) =>
        if !accepts(c) then Session([], [], InvalidPacket(c), 0)
        else
          var p := ButtonPacket(c, true);
          var rest := Terminal(lines[1..], accepts, encode, mtu);
          Session([p] + rest.sent, Chunking.Sliced(encode(p), mtu) + rest.writes, rest.stop, rest.handled + 1)
  }

  /** Every line handled before the stop was non-empty and was either rejected or sent. */
  lemma {:induction false} TerminalHandledLinesContinue(lines: seq<string>, accepts: char -> bool, encode: ButtonPacket -> seq<byte>, mtu: nat)
    ensures var s := Terminal(lines, accepts, encode, mtu);
      forall i :: 0 <= i < s.handled ==> Continues(lines[i], accepts)
  {
    if lines != [] && lines[0] != [] && Continues(lines[0], accepts) {
      TerminalHandledLinesContinue(lines[1..], accepts, encode, mtu);
      var s := Terminal(lines, accepts, encode, mtu);
      forall i | 0 <= i < s.handled
        ensures Continues(lines[i], accepts)
      {
        if i > 0 {
          assert lines[i] == lines[1..][i - 1];
        }
      }
    }
  }

  /**
   The loop stops on end of input, on a quit command, or on a command whose
   packet cannot be built, and only there.
   */
  lemma {:induction false} TerminalStopReason(lines: seq<string>, accepts: char -> bool, encode: ButtonPacket -> seq<byte>, mtu: nat)
    ensures var s := Terminal(lines, accepts, encode, mtu);
      var h := s.handled;
      && (s.stop == EndOfInput <==> h == |lines| || lines[h] == [])
      && (s.stop == QuitCommand <==> h < |lines| && lines[h] != [] && LineOutcome(lines[h]) == Quit)
      && (s.stop.InvalidPacket? <==>
            h < |lines| && lines[h] != [] && LineOutcome(lines[h]).Send? && !accepts(LineOutcome(lines[h]).button))
      && (s.stop.InvalidPacket? ==> s.stop.button == LineOutcome(lines[h]).button)
  {
    if lines != [] && lines[0] != [] && Continues(lines[0], accepts) {
      var rest := Terminal(lines[1..], accepts, encode, mtu);
      TerminalStopReason(lines[1..], accepts, encode, mtu);
      TerminalContinue(lines, accepts, encode, mtu);
      if rest.handled < |lines| - 1 {
        assert lines[1..][rest.handled] == lines[rest.handled + 1];
      }
    } else {
      TerminalStopsAtFirst(lines, accepts, encode, mtu);
    }
  }

  /** A line the loop goes on from adds one to the handled count and leaves the stop reason to the rest. */
  lemma TerminalContinue(lines: seq<string>, accepts: char -> bool, encode: ButtonPacket -> seq<byte>, mtu: nat)
    requires lines != [] && Continues(lines[0], accepts)
    ensures var s := Terminal(lines, accepts, encode, mtu);
      var rest := Terminal(lines[1..], accepts, encode, mtu);
      s.stop == rest.stop && s.handled == rest.handled + 1 && s.sent == LineSends(lines[0]) + rest.sent
  {
  }

  /** A line the loop does not go on from is where it stops. */
  lemma TerminalStopsAtFirst(lines: seq<string>, accepts: char -> bool, encode: ButtonPacket -> seq<byte>, mtu: nat)
    requires !(lines != [] && lines[0] != [] && Continues(lines[0], accepts))
    ensures var s := Terminal(lines, accepts, encode, mtu);
      && s.handled == 0 && s.sent == []
      && (s.stop == EndOfInput <==> lines == [] || lines[0] == [])
      && (s.stop == QuitCommand <==> lines != [] && lines[0] != [] && LineOutcome(lines[0]) == Quit)
      && (s.stop.InvalidPacket? <==>
            lines != [] && lines[0] != [] && LineOutcome(lines[0]).Send? && !accepts(LineOutcome(lines[0]).button))
      && (s.stop.InvalidPacket? ==> s.stop.button == LineOutcome(lines[0]).button)
  {
  }

  /** The packets the handled lines send, in input order: one pressed packet per sent command. */
  function SentBy(lines: seq<string>): seq<ButtonPacket> {
    if lines == [] then [] else LineSends(lines[0]) + SentBy(lines[1..])
  }

  /** The pressed packet a line sends, if it sends one. */
  function LineSends(line: string): seq<ButtonPacket> {
    match LineOutcome(line)
    case Send(c) => [ButtonPacket(c, true)]
    case _ => []
  }

  /** The loop sends exactly the commands of the lines it handled, pressed, in order, and each was accepted. */
  lemma {:induction false} TerminalSentInOrder(lines: seq<string>, accepts: char -> bool, encode: ButtonPacket -> seq<byte>, mtu: nat)
    ensures var s := Terminal(lines, accepts, encode, mtu);
      s.sent == SentBy(lines[..s.handled])
    ensures var s := Terminal(lines, accepts, encode, mtu);
      forall i :: 0 <= i < |s.sent| ==> s.sent[i].pressed && accepts(s.sent[i].button)
  {
    TerminalSentAccepted(lines, accepts, encode, mtu);
    if lines != [] && lines[0] != [] && Continues(lines[0], accepts) {
      TerminalSentInOrder(lines[1..], accepts, encode, mtu);
      TerminalContinue(lines, accepts, encode, mtu);
      var s := Terminal(lines, accepts, encode, mtu);
      var rest := Terminal(lines[1..], accepts, encode, mtu);
      var xs := lines[..s.handled];
      assert xs[0] == lines[0] && xs[1..] == lines[1..][..rest.handled];
      assert SentBy(xs) == LineSends(lines[0]) + SentBy(lines[1..][..rest.handled]);
    } else {
      TerminalStopsAtFirst(lines, accepts, encode, mtu);
    }
  }

  lemma {:induction false} TerminalSentAccepted(lines: seq<string>, accepts: char -> bool, encode: ButtonPacket -> seq<byte>, mtu: nat)
    ensures forall p <- Terminal(lines, accepts, encode, mtu).sent :: p.pressed && accepts(p.button)
  {
    if lines != [] && lines[0] != [] && Continues(lines[0], accepts) {
      TerminalSentAccepted(lines[1..], accepts, encode, mtu);
      var s := Terminal(lines, accepts, encode, mtu);
      var rest := Terminal(lines[1..], accepts, encode, mtu);
      var o := LineOutcome(lines[0]);
      if o.Send? {
        assert accepts(o.button);
        assert s.sent == [ButtonPacket(o.button, true)] + rest.sent;
      } else {
        assert s.sent == rest.sent;
      }
    }
  }

  /** The byte encodings of packets, concatenated in order. */
  function Encodings(packets: seq<ButtonPacket>, encode: ButtonPacket -> seq<byte>): seq<byte> {
    if packets == [] then [] else encode(packets[0]) + Encodings(packets[1..], encode)
  }

  /**
   The writes reassemble into the packets' encodings, back to back in send
   order, and each write fits the maximum write size. With a maximum of 0 no
   byte is written at all.
   */
  lemma {:induction false} TerminalWritesReassemble(lines: seq<string>, accepts: char -> bool, encode: ButtonPacket -> seq<byte>, mtu: nat)
    ensures var s := Terminal(lines, accepts, encode, mtu);
      0 < mtu ==> Chunking.Flatten(s.writes) == Encodings(s.sent, encode)
    ensures var s := Terminal(lines, accepts, encode, mtu);
      forall i :: 0 <= i < |s.writes| ==> 0 < |s.writes[i]| <= mtu
    ensures mtu == 0 ==> Terminal(lines, accepts, encode, mtu).writes == []
  {
    if lines != [] && lines[0] != [] && Continues(lines[0], accepts) {
      var rest := Terminal(lines[1..], accepts, encode, mtu);
      TerminalWritesReassemble(lines[1..], accepts, encode, mtu);
      var s := Terminal(lines, accepts, encode, mtu);
      var o := LineOutcome(lines[0]);
      if o.Send? {
        var p := ButtonPacket(o.button, true);
        var chunks := Chunking.Sliced(encode(p), mtu);
        assert s.sent == [p] + rest.sent && s.writes == chunks + rest.writes;
        assert ([p] + rest.sent)[1..] == rest.sent;
        assert Encodings(s.sent, encode) == encode(p) + Encodings(rest.sent, encode);
        Chunking.FlattenAppend(chunks, rest.writes);
        WritesFit(chunks, rest.writes, mtu);
      } else {
        assert s.sent == rest.sent && s.writes == rest.writes;
      }
    }
  }

  /** Writes that each fit the maximum still do after more are appended. */
  lemma WritesFit(a: seq<seq<byte>>, b: seq<seq<byte>>, mtu: nat)
    requires forall i :: 0 <= i < |a| ==> 0 < |a[i]| <= mtu
    requires forall i :: 0 <= i < |b| ==> 0 < |b[i]| <= mtu
    ensures forall i :: 0 <= i < |a + b| ==> 0 < |(a + b)[i]| <= mtu
  {
  }

  /**
   A line of whitespace is not end of input: it strips to the empty command,
   which is rejected, and the loop reads on.
   */
  lemma BlankLineIsSkipped(lines: seq<string>, accepts: char -> bool, encode: ButtonPacket -> seq<byte>, mtu: nat)
    requires lines != [] && lines[0] != [] && AllSpace(lines[0])
    ensures LineOutcome(lines[0]) == Reject
    ensures var s := Terminal(lines, accepts, encode, mtu);
      var rest := Terminal(lines[1..], accepts, encode, mtu);
      s == rest.(handled := rest.handled + 1)
  {
  }

  /** Prefixes a finished session with what the loop did before reaching it. */
  function Resume(sent: seq<ButtonPacket>, writes: seq<seq<byte>>, handled: nat, rest: Session): Session {
    Session(sent + rest.sent, writes + rest.writes, rest.stop, handled + rest.handled)
  }

  lemma ResumeSend(sent: seq<ButtonPacket>, writes: seq<seq<byte>>, i: nat, p: ButtonPacket, chunks: seq<seq<byte>>, next: Session)
    ensures Resume(sent, writes, i, Session([p] + next.sent, chunks + next.writes, next.stop, next.handled + 1))
         == Resume(sent + [p], writes + chunks, i + 1, next)
  {
    assert sent + ([p] + next.sent) == (sent + [p]) + next.sent;
    assert writes + (chunks + next.writes) == (writes + chunks) + next.writes;
  }

  /** A turn that stops the loop ends the session where it is. */
  lemma ResumeStop(sent: seq<ButtonPacket>, writes: seq<seq<byte>>, i: nat, stop: Stop)
    ensures Resume(sent, writes, i, Session([], [], stop, 0)) == Session(sent, writes, stop, i)
  {
    assert sent + [] == sent && writes + [] == writes;
  }

  /** A turn that skips a line only counts it. */
  lemma ResumeSkip(sent: seq<ButtonPacket>, writes: seq<seq<byte>>, i: nat, next: Session)
    ensures Resume(sent, writes, i, next.(handled := next.handled + 1)) == Resume(sent, writes, i + 1, next)
  {
  }

  /** One turn of the loop, in the order the script tests the substituted command. */
  lemma TerminalTurn(lines: seq<string>, i: nat, accepts: char -> bool, encode: ButtonPacket -> seq<byte>, mtu: nat)
    requires i < |lines| && lines[i] != []
    ensures var cmd := Substitute(Strip(lines[i]));
      var rest := Terminal(lines[i..], accepts, encode, mtu);
      var next := Terminal(lines[i + 1..], accepts, encode, mtu);
      && (StartsWith(cmd, 'q') ==> rest == Session([], [], QuitCommand, 0))
      && (!StartsWith(cmd, 'q') && |cmd| != 1 ==> rest == next.(handled := next.handled + 1))
      && (!StartsWith(cmd, 'q') && |cmd| == 1 && !accepts(cmd[0]) ==> rest == Session([], [], InvalidPacket(cmd[0]), 0))
      && (!StartsWith(cmd, 'q') && |cmd| == 1 && accepts(cmd[0]) ==>
            var p := ButtonPacket(cmd[0], true);
            rest == Session([p] + next.sent, Chunking.Sliced(encode(p), mtu) + next.writes, next.stop, next.handled + 1))
  {
    assert lines[i..][0] == lines[i] && lines[i..][1..] == lines[i + 1..];
  }

  /** The loop as the script runs it: read, strip, substitute, test, build, slice and write. */
  method RunTerminal(lines: seq<string>, accepts: char -> bool, encode: ButtonPacket -> seq<byte>, mtu: nat)
    returns (s: Session)
    ensures s == Terminal(lines, accepts, encode, mtu)
  {
    var sent: seq<ButtonPacket> := [];
    var writes: seq<seq<byte>> := [];
    var i := 0;
    var stop := EndOfInput;
    while true
      invariant i <= |lines|
      invariant Terminal(lines, accepts, encode, mtu) == Resume(sent, writes, i, Terminal(lines[i..], accepts, encode, mtu))
      decreases |lines| - i
    {
      if i == |lines| || lines[i] == [] {
        assert Terminal(lines[i..], accepts, encode, mtu) == Session([], [], EndOfInput, 0);
        ResumeStop(sent, writes, i, EndOfInput);
        stop := EndOfInput;
        break;
      }
      TerminalTurn(lines, i, accepts, encode, mtu);
      ghost var next := Terminal(lines[i + 1..], accepts, encode, mtu);
      var cmd := Substitute(Strip(lines[i]));
      if StartsWith(cmd, 'q') {
        ResumeStop(sent, writes, i, QuitCommand);
        stop := QuitCommand;
        break;
      }
      if |cmd| != 1 {
        ResumeSkip(sent, writes, i, next);
        i := i + 1;
        continue;
      }
      if !accepts(cmd[0]) {
        ResumeStop(sent, writes, i, InvalidPacket(cmd[0]));
        stop := InvalidPacket(cmd[0]);
        break;
      }
      var p := ButtonPacket(cmd[0], true);
      var chunks := Chunking.WriteSlices(encode(p), mtu);
      ResumeSend(sent, writes, i, p, chunks, next);
      sent := sent + [p];
      writes := writes + chunks;
      i := i + 1;
    }
    s := Session(sent, writes, stop, i);
  }
}
