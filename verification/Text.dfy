/** Stripping white space from strings. */
module Text {

  /** What `str.strip` removes. */
  predicate IsSpace(c: char)
  {
    var n := c as int;
    || 0x9 <= n <= 0xD || 0x1C <= n <= 0x20 || n == 0x85 || n == 0xA0 || n == 0x1680
    || 0x2000 <= n <= 0x200A || n == 0x2028 || n == 0x2029 || n == 0x202F || n == 0x205F || n == 0x3000
  }

  function LeftStrip(s: string): string
  {
    if s != "" && IsSpace(s[0]) then LeftStrip(s[1..]) else s
  }

  function RightStrip(s: string, drop: char -> bool): string
  {
    if s != "" && drop(s[|s| - 1]) then RightStrip(s[..|s| - 1], drop) else s
  }

  function Strip(s: string): string
  {
    RightStrip(LeftStrip(s), IsSpace)
  }

  predicate Only(s: string, drop: char -> bool)
  {
    forall i :: 0 <= i < |s| ==> drop(s[i])
  }

  /** White space in ASCII. */
  lemma AsciiSpaces(c: char)
    requires c <= '\U{007F}'
    ensures IsSpace(c) <==> c in " \t\n\r\U{000B}\U{000C}\U{001C}\U{001D}\U{001E}\U{001F}"
  {
  }

  lemma {:induction false} LeftStripExactly(s: string) returns (head: string)
    ensures s == head + LeftStrip(s) && Only(head, IsSpace)
    ensures LeftStrip(s) != "" ==> !IsSpace(LeftStrip(s)[0])
  {
    head := "";
    if s != "" && IsSpace(s[0]) {
      var rest := LeftStripExactly(s[1..]);
      head := [s[0]] + rest;
    }
  }

  /** What is dropped at the end, and that no more could be. */
  lemma {:induction false} RightStripExactly(s: string, drop: char -> bool) returns (tail: string)
    ensures s == RightStrip(s, drop) + tail && Only(tail, drop)
    ensures RightStrip(s, drop) != "" ==> !drop(RightStrip(s, drop)[|RightStrip(s, drop)| - 1])
  {
    tail := "";
    if s != "" && drop(s[|s| - 1]) {
      var rest := RightStripExactly(s[..|s| - 1], drop);
      tail := rest + [s[|s| - 1]];
    }
  }

  /** Stripping takes off white space at both ends and leaves none there. */
  lemma StripExactly(s: string) returns (head: string, tail: string)
    ensures s == head + Strip(s) + tail && Only(head, IsSpace) && Only(tail, IsSpace)
    ensures Strip(s) != "" ==> !IsSpace(Strip(s)[0]) && !IsSpace(Strip(s)[|Strip(s)| - 1])
  {
    head := LeftStripExactly(s);
    tail := RightStripExactly(LeftStrip(s), IsSpace);
    assert Strip(s) != "" ==> Strip(s)[0] == LeftStrip(s)[0];
  }
}
