/**
 The firmware's main loop as a state machine. The board advertises until a
 central connects, applies the LED policy to every packet it reads while
 connected, and goes back to advertising when the connection is lost. The
 pins are set once at start-up and never reset by a change of phase.
 */
module Device {
  import opened Buttons
  import opened LedPolicy

  datatype Phase = Advertising | Connected

  datatype Board = Board(phase: Phase, pins: Pins)

  /** What can happen to the board: a central connects, the link drops, or a packet is read. */
  datatype Event = Connect | Disconnect | Receive(packet: Packet)

  /** Pins all off, then advertising. */
  const PowerOn := Board(Advertising, AllOff)

  /** The phase change an event causes; packets never change the phase. */
  function NextPhase(phase: Phase, e: Event): Phase {
    match e
    case Connect => Connected
    case Disconnect => Advertising
    case Receive(_) => phase
  }

  /** One event. Packets are read only while connected; nothing is read while advertising. */
  function Next(b: Board, e: Event): (r: Board)
    ensures r.phase == NextPhase(b.phase, e)
    ensures e.Disconnect? ==> r == Board(Advertising, b.pins)
    ensures !e.Receive? || b.phase == Advertising ==> r.pins == b.pins
    ensures e.Receive? && b.phase == Connected ==> r.pins == Step(b.pins, e.packet)
  {
    match e
    case Connect => b.(phase := Connected)
    case Disconnect => b.(phase := Advertising)
    case Receive(pkt) =>
      if b.phase == Connected then b.(pins := Step(b.pins, pkt)) else b
  }

  /** The board after a sequence of events, first to last. */
  function RunBoard(b: Board, events: seq<Event>): Board {
    if events == [] then b
    else
      var n := |events| - 1;
      Next(RunBoard(b, events[..n]), events[n])
  }

  /** The phase after a sequence of events, tracked on its own. */
  function PhaseAfter(phase: Phase, events: seq<Event>): Phase {
    if events == [] then phase
    else
      var n := |events| - 1;
      NextPhase(PhaseAfter(phase, events[..n]), events[n])
  }

  /** The packets of `events` that arrive while the phase is Connected. */
  function Delivered(phase: Phase, events: seq<Event>): seq<Packet> {
    if events == [] then []
    else
      var n := |events| - 1;
      var e := events[n];
      Delivered(phase, events[..n])
        + (if e.Receive? && PhaseAfter(phase, events[..n]) == Connected then [e.packet] else [])
  }

  /**
   The board is the product of two independent machines: the connection
   phase, and the LED policy fed with the packets read while connected.
   Connecting and disconnecting never touch the pins.
   */
  lemma {:induction false} RunBoardSplits(b: Board, events: seq<Event>)
    ensures RunBoard(b, events) == Board(PhaseAfter(b.phase, events), Run(b.pins, Delivered(b.phase, events)))
    decreases |events|
  {
    if events != [] {
      var n := |events| - 1;
      var xs := events[..n];
      RunBoardSplits(b, xs);
      var d := Delivered(b.phase, xs);
      var e := events[n];
      if e.Receive? && PhaseAfter(b.phase, xs) == Connected {
        assert (d + [e.packet])[..|d|] == d;
      } else {
        assert d + [] == d;
      }
    }
  }

  /** The packets read in turn, as events. */
  function ReceiveAll(pkts: seq<Packet>): (events: seq<Event>)
    ensures |events| == |pkts|
    ensures forall i :: 0 <= i < |pkts| ==> events[i] == Receive(pkts[i])
  {
    seq(|pkts|, i requires 0 <= i < |pkts| => Receive(pkts[i]))
  }

  /**
   A central connects and the board reads packets: it stays connected, and its
   pins are the LED policy applied to those packets, whatever the phase before.
   */
  lemma {:induction false} ConnectedSession(b: Board, pkts: seq<Packet>)
    ensures RunBoard(b, [Connect] + ReceiveAll(pkts)) == Board(Connected, Run(b.pins, pkts))
    decreases |pkts|
  {
    var events := [Connect] + ReceiveAll(pkts);
    if pkts == [] {
      assert events[..0] == [];
    } else {
      var m := |pkts| - 1;
      ConnectedSession(b, pkts[..m]);
      assert events[..|events| - 1] == [Connect] + ReceiveAll(pkts[..m]);
      assert events[|events| - 1] == Receive(pkts[m]);
    }
  }

  /** Losing the connection sends the board back to advertising with its LEDs as they were. */
  lemma DisconnectKeepsLeds(b: Board, events: seq<Event>)
    ensures RunBoard(b, events + [Disconnect]).phase == Advertising
    ensures RunBoard(b, events + [Disconnect]).pins == RunBoard(b, events).pins
  {
    assert (events + [Disconnect])[..|events|] == events;
  }
}
