/**
 How the host script turns one line read from standard input into what it
 does next: strip the surrounding whitespace, replace a leading u/d/l/r by the
 control-pad code of Up/Down/Left/Right, then quit on a leading 'q', reject
 anything that is not exactly one character, and send the rest.
 */
module HostCommand {
  import opened Wrappers

  /**
   The characters Python 3's str.isspace() accepts, which str.strip() removes
   from both ends of a line.
   */
  predicate IsSpace(c: char) {
    || ('\t' <= c <= '\r') || ('\U{1C}' <= c <= ' ')
    || c == '\U{85}' || c == '\U{A0}' || c == '\U{1680}'
    || ('\U{2000}' <= c <= '\U{200A}') || c == '\U{2028}' || c == '\U{2029}'
    || c == '\U{202F}' || c == '\U{205F}' || c == '\U{3000}'
  }

  ghost predicate AllSpace(s: string) {
    forall i :: 0 <= i < |s| ==> IsSpace(s[i])
  }

  /** The number of whitespace characters s starts with. */
  function LeadingSpaces(s: string): (k: nat)
    ensures k <= |s|
    ensures AllSpace(s[..k])
    ensures k < |s| ==> !IsSpace(s[k])
  {
    if |s| > 0 && IsSpace(s[0]) then
      var k := 1 + LeadingSpaces(s[1..]);
      assert s[..k] == [s[0]] + s[1..][..k - 1];
      k
    else 0
  }

  lemma AllSpaceSnoc(t: string, c: char, j: nat)
    requires j <= |t| && AllSpace(t[|t| - j..]) && IsSpace(c)
    ensures AllSpace((t + [c])[|t| - j..])
  {
    assert (t + [c])[|t| - j..] == t[|t| - j..] + [c];
  }

  /** The number of whitespace characters s ends with. */
  function TrailingSpaces(s: string): (k: nat)
    ensures k <= |s|
    ensures AllSpace(s[|s| - k..])
    ensures k < |s| ==> !IsSpace(s[|s| - k - 1])
  {
    if |s| > 0 && IsSpace(s[|s| - 1]) then
      var t := s[..|s| - 1];
      var j := TrailingSpaces(t);
      AllSpaceSnoc(t, s[|s| - 1], j);
      assert t + [s[|s| - 1]] == s;
      1 + j
    else 0
  }

  /** str.strip(): s with its leading and trailing whitespace removed. */
  function Strip(s: string): (r: string)
    ensures |r| <= |s|
    ensures r == [] <==> AllSpace(s)
    ensures r != [] ==> !IsSpace(r[0]) && !IsSpace(r[|r| - 1])
  {
    var a := LeadingSpaces(s);
    var t := s[a..];
    var r := t[..|t| - TrailingSpaces(t)];
    assert r == [] ==> s == s[..a] + t;
    assert r != [] ==> a < |s| && !IsSpace(s[a]);
    r
  }

  /**
   Strip removes only whitespace: its result sits inside s with nothing but
   whitespace before and after it.
   */
  lemma StripRemovesOnlyWhitespace(s: string)
    ensures var r := Strip(s);
      exists a :: 0 <= a <= |s| - |r| && s[a..a + |r|] == r && AllSpace(s[..a]) && AllSpace(s[a + |r|..])
  {
    var a := LeadingSpaces(s);
    var t := s[a..];
    var b := TrailingSpaces(t);
    var r := Strip(s);
    assert r == t[..|t| - b];
    assert s[a..a + |r|] == r;
    assert s[a + |r|..] == t[|t| - b..];
    assert AllSpace(s[..a]) && AllSpace(s[a + |r|..]);
  }

  /** What the loop does with one stripped command. */
  datatype Outcome = Quit | Reject | Send(button: char)

  /** The control-pad code that a leading letter stands for: u Up, d Down, l Left, r Right. */
  function PadCode(letter: char): Option<char> {
    match letter
    case 'u' => Some('5')
    case 'd' => Some('6')
    case 'l' => Some('7')
    case 'r' => Some('8')
    case _ => None
  }

  predicate StartsWith(s: string, c: char) {
    |s| > 0 && s[0] == c
  }

  /** The letter substitution: a command starting with u/d/l/r becomes that one code character. */
  function Substitute(cmd: string): string {
    if StartsWith(cmd, 'u') then "5"
    else if StartsWith(cmd, 'd') then "6"
    else if StartsWith(cmd, 'l') then "7"
    else if StartsWith(cmd, 'r') then "8"
    else cmd
  }

  /**
   The decision for one stripped command. The quit test runs on the
   substituted command, so a command starting with a pad letter never quits;
   the length test runs last, so "quit" quits while "ab" and "" are rejected.
   */
  function Classify(cmd: string): (r: Outcome)
    ensures r == Quit <==> StartsWith(cmd, 'q')
    ensures |cmd| > 0 && PadCode(cmd[0]).Some? ==> r == Send(PadCode(cmd[0]).value)
    ensures |cmd| == 1 && PadCode(cmd[0]).None? && cmd[0] != 'q' ==> r == Send(cmd[0])
    ensures r == Reject <==> cmd == [] || (|cmd| > 1 && PadCode(cmd[0]).None? && cmd[0] != 'q')
  {
    var c := Substitute(cmd);
    if StartsWith(c, 'q') then Quit
    else if |c| != 1 then Reject
    else Send(c[0])
  }

  /** A sent command is one character: a pad code, or the single character typed. */
  lemma SentIsOneCharacter(cmd: string, b: char)
    requires Classify(cmd) == Send(b)
    ensures |cmd| > 0
    ensures PadCode(cmd[0]).Some? ==> b == PadCode(cmd[0]).value
    ensures PadCode(cmd[0]).None? ==> cmd == [b]
  {
  }

  /** Example commands: pad letters with anything after them, quit words, and rejected lengths. */
  lemma ClassifyExamples()
    ensures Classify("u") == Send('5') && Classify("up") == Send('5') && Classify("left") == Send('7')
    ensures Classify("q") == Quit && Classify("quit") == Quit
    ensures Classify("ab") == Reject && Classify("") == Reject
    ensures Classify("x") == Send('x') && Classify("1") == Send('1')
  {
  }
}
