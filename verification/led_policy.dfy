/**
 The LED policy of the firmware. The board drives three LEDs through
 active-low pins, so a pin value of true means the LED is off. Left, Up and
 Right each light one LED and leave the others alone; Down and Button 1 turn
 all of them off; everything else changes nothing.
 */
module LedPolicy {
  import opened Buttons

  /** The values of the red, green and blue pins; true is off. */
  datatype Pins = Pins(red: bool, green: bool, blue: bool)

  /** All pins high: every LED off. This is also the state the firmware sets at start-up. */
  const AllOff := Pins(true, true, true)

  datatype Channel = Red | Green | Blue

  function Pin(p: Pins, ch: Channel): bool {
    match ch
    case Red => p.red
    case Green => p.green
    case Blue => p.blue
  }

  /** The LED of a channel is on exactly when its pin is low. */
  predicate Lit(p: Pins, ch: Channel) {
    !Pin(p, ch)
  }

  /** The control-pad direction that lights a channel. */
  function OnButton(ch: Channel): Button {
    match ch
    case Red => Left
    case Green => Up
    case Blue => Right
  }

  /** A pressed Down or Button 1: the two events that turn everything off. */
  predicate IsReset(pkt: Packet) {
    pkt.ButtonPress? && pkt.pressed && (pkt.button == Button1 || pkt.button == Down)
  }

  /** A pressed direction button that lights channel ch. */
  predicate TurnsOn(pkt: Packet, ch: Channel) {
    pkt == ButtonPress(OnButton(ch), true)
  }

  /** Whether a packet changes the pins at all. */
  predicate Acts(pkt: Packet) {
    IsReset(pkt) || TurnsOn(pkt, Red) || TurnsOn(pkt, Green) || TurnsOn(pkt, Blue)
  }

  /** The firmware's reaction to one decoded packet while connected. */
  function Step(p: Pins, pkt: Packet): (r: Pins)
    ensures IsReset(pkt) ==> r == AllOff
    ensures forall ch :: TurnsOn(pkt, ch) ==>
      Lit(r, ch) && forall other :: other != ch ==> Pin(r, other) == Pin(p, other)
    ensures !Acts(pkt) ==> r == p
  {
    match pkt
    case OtherPacket => p
    case ButtonPress(b, pressed) =>
      if !pressed then p
      else if b == Button1 then AllOff
      else if b == Left then p.(red := false)
      else if b == Up then p.(green := false)
      else if b == Right then p.(blue := false)
      else if b == Down then AllOff
      else p
  }

  /** Released buttons, other packet kinds and Buttons 2 to 4 leave the pins unchanged. */
  lemma StepIgnores(p: Pins, pkt: Packet)
    requires pkt.OtherPacket? || !pkt.pressed || pkt.button in {Button2, Button3, Button4}
    ensures Step(p, pkt) == p
  {
  }

  /** Applying the same packet twice is the same as applying it once. */
  lemma StepIdempotent(p: Pins, pkt: Packet)
    ensures Step(Step(p, pkt), pkt) == Step(p, pkt)
  {
  }

  /** Packets that do not reset commute: each writes only its own pin, and only to on. */
  lemma StepCommute(p: Pins, a: Packet, b: Packet)
    requires !IsReset(a) && !IsReset(b)
    ensures Step(Step(p, a), b) == Step(Step(p, b), a)
  {
  }

  /** The pins after a sequence of packets, applied first to last. */
  function Run(p: Pins, pkts: seq<Packet>): Pins {
    if pkts == [] then p else Step(Run(p, pkts[..|pkts| - 1]), pkts[|pkts| - 1])
  }

  /** Some packet lit ch and no reset came after it. */
  ghost predicate LitSince(pkts: seq<Packet>, ch: Channel) {
    exists i :: 0 <= i < |pkts| && TurnsOn(pkts[i], ch) && forall j :: i < j < |pkts| ==> !IsReset(pkts[j])
  }

  ghost predicate NoReset(pkts: seq<Packet>) {
    forall j :: 0 <= j < |pkts| ==> !IsReset(pkts[j])
  }

  lemma LitSinceReset(xs: seq<Packet>, x: Packet, ch: Channel)
    requires IsReset(x)
    ensures !LitSince(xs + [x], ch) && !NoReset(xs + [x])
  {
    var pkts := xs + [x];
    assert IsReset(pkts[|xs|]);
    assert !TurnsOn(x, ch);
    forall i | 0 <= i < |xs|
      ensures !(TurnsOn(pkts[i], ch) && forall j :: i < j < |pkts| ==> !IsReset(pkts[j]))
    {
      assert IsReset(pkts[|xs|]);
    }
  }

  lemma LitSinceTurnOn(xs: seq<Packet>, x: Packet, ch: Channel)
    requires TurnsOn(x, ch)
    ensures LitSince(xs + [x], ch)
  {
    var pkts := xs + [x];
    assert TurnsOn(pkts[|xs|], ch);
  }

  lemma LitSinceNeutral(xs: seq<Packet>, x: Packet, ch: Channel)
    requires !IsReset(x) && !TurnsOn(x, ch)
    ensures LitSince(xs + [x], ch) <==> LitSince(xs, ch)
    ensures NoReset(xs + [x]) <==> NoReset(xs)
  {
    var pkts := xs + [x];
    assert forall j :: 0 <= j < |xs| ==> pkts[j] == xs[j];
    if LitSince(pkts, ch) {
      var i :| 0 <= i < |pkts| && TurnsOn(pkts[i], ch) && forall j :: i < j < |pkts| ==> !IsReset(pkts[j]);
      assert i < |xs|;
      assert forall j :: i < j < |xs| ==> !IsReset(xs[j]);
    }
    if LitSince(xs, ch) {
      var i :| 0 <= i < |xs| && TurnsOn(xs[i], ch) && forall j :: i < j < |xs| ==> !IsReset(xs[j]);
      assert TurnsOn(pkts[i], ch);
    }
  }

  /**
   After a run of packets an LED is on exactly when its direction was pressed
   after the last reset, or it was on before and nothing reset it.
   */
  lemma {:induction false} RunLit(p: Pins, pkts: seq<Packet>, ch: Channel)
    ensures Lit(Run(p, pkts), ch) <==> LitSince(pkts, ch) || (Lit(p, ch) && NoReset(pkts))
    decreases |pkts|
  {
    if pkts != [] {
      var n := |pkts| - 1;
      var xs, x := pkts[..n], pkts[n];
      assert pkts == xs + [x];
      RunLit(p, xs, ch);
      if IsReset(x) {
        LitSinceReset(xs, x, ch);
      } else if TurnsOn(x, ch) {
        LitSinceTurnOn(xs, x, ch);
      } else {
        LitSinceNeutral(xs, x, ch);
      }
    }
  }

  /** Left, Up, Down, Right from all off: red, then red and green, then none, then blue only. */
  lemma LeftUpDownRight()
    ensures Run(AllOff, [ButtonPress(Left, true)]) == Pins(false, true, true)
    ensures Run(AllOff, [ButtonPress(Left, true), ButtonPress(Up, true)]) == Pins(false, false, true)
    ensures Run(AllOff, [ButtonPress(Left, true), ButtonPress(Up, true), ButtonPress(Down, true)]) == AllOff
    ensures Run(AllOff, [ButtonPress(Left, true), ButtonPress(Up, true), ButtonPress(Down, true), ButtonPress(Right, true)])
         == Pins(true, true, false)
  {
    var a := [ButtonPress(Left, true), ButtonPress(Up, true), ButtonPress(Down, true), ButtonPress(Right, true)];
    assert a[..3][..2] == a[..2] && a[..2][..1] == a[..1] && a[..1][..0] == [];
    assert a[..3] == [ButtonPress(Left, true), ButtonPress(Up, true), ButtonPress(Down, true)];
    assert a[..2] == [ButtonPress(Left, true), ButtonPress(Up, true)];
    assert a[..1] == [ButtonPress(Left, true)];
  }
}
