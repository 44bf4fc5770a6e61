/**
 The buttons of the Bluefruit Connect control pad and the packets the
 firmware decodes from its UART. A button travels on the wire as one
 character: '1' to '4' for the numbered buttons, '5' Up, '6' Down, '7' Left,
 '8' Right.
 */
module Buttons {
  import opened Wrappers

  datatype Button = Button1 | Button2 | Button3 | Button4 | Up | Down | Left | Right

  /** A decoded packet: a button event, or any other packet kind of the protocol family. */
  datatype Packet = ButtonPress(button: Button, pressed: bool) | OtherPacket

  /** The wire character of a button. */
  function Code(b: Button): char {
    match b
    case Button1 => '1'
    case Button2 => '2'
    case Button3 => '3'
    case Button4 => '4'
    case Up => '5'
    case Down => '6'
    case Left => '7'
    case Right => '8'
  }

  /** The button a wire character names, if any: the inverse of Code. */
  function FromCode(c: char): (r: Option<Button>)
    ensures r.Some? ==> Code(r.value) == c
    ensures r.None? ==> forall b: Button :: Code(b) != c
    ensures r.Some? <==> '1' <= c <= '8'
  {
    match c
    case '1' => Some(Button1)
    case '2' => Some(Button2)
    case '3' => Some(Button3)
    case '4' => Some(Button4)
    case '5' => Some(Up)
    case '6' => Some(Down)
    case '7' => Some(Left)
    case '8' => Some(Right)
    case _ => None
  }

  /** Every button survives encoding to its character and decoding back. */
  lemma CodeRoundTrip(b: Button)
    ensures FromCode(Code(b)) == Some(b)
  {
  }
}
