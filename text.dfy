/** The string primitives the widgets rely on: `String.prototype.trim`,
    `toLowerCase` (ASCII letters only) and `includes`. */
module Text {

  /** The characters `trim` removes: ECMAScript WhiteSpace and LineTerminator. */
  predicate IsWhitespace(c: char)
  {
    c == '\t' || c == '\n' || c == '\U{000B}' || c == '\U{000C}' || c == '\r' || c == ' '
    || c == '\U{00A0}' || c == '\U{1680}' || '\U{2000}' <= c <= '\U{200A}'
    || c == '\U{2028}' || c == '\U{2029}' || c == '\U{202F}' || c == '\U{205F}'
    || c == '\U{3000}' || c == '\U{FEFF}'
  }

  predicate IsBlank(s: string)
  {
    forall k :: 0 <= k < |s| ==> IsWhitespace(s[k])
  }

  /** How many whitespace characters `s` starts with. */
  function LeadingSpace(s: string): (n: nat)
    ensures n <= |s|
    ensures forall k :: 0 <= k < n ==> IsWhitespace(s[k])
    ensures n < |s| ==> !IsWhitespace(s[n])
  {
    if s != [] && IsWhitespace(s[0]) then 1 + LeadingSpace(s[1..]) else 0
  }

  /** How many whitespace characters `s` ends with. */
  function TrailingSpace(s: string): (n: nat)
    ensures n <= |s|
    ensures forall k :: |s| - n <= k < |s| ==> IsWhitespace(s[k])
    ensures n < |s| ==> !IsWhitespace(s[|s| - 1 - n])
  {
    if s != [] && IsWhitespace(s[|s| - 1]) then 1 + TrailingSpace(s[..|s| - 1]) else 0
  }

  /** `q` occurs in `text` starting at index `i`. */
  predicate OccursAt(text: string, q: string, i: int)
  {
    0 <= i <= |text| - |q| && text[i..i + |q|] == q
  }

  /** `s.trim()`: the part of `s` between its leading and its trailing
      whitespace; neither end of a non-empty result is whitespace. */
  function Trim(s: string): (r: string)
    ensures |r| <= |s|
    ensures r != [] ==> !IsWhitespace(r[0]) && !IsWhitespace(r[|r| - 1])
  {
    var front := LeadingSpace(s);
    if front == |s| then []
    else
      var back := TrailingSpace(s);
      assert front < |s| - back by {
        assert !IsWhitespace(s[front]);
      }
      s[front..|s| - back]
  }

  /** `trim` keeps a contiguous piece of `s` and drops only whitespace: every
      character before and after the piece is whitespace. */
  lemma TrimSpec(s: string)
    ensures var r, front := Trim(s), LeadingSpace(s);
      OccursAt(s, r, front)
      && (forall k :: 0 <= k < front ==> IsWhitespace(s[k]))
      && (forall k :: front + |r| <= k < |s| ==> IsWhitespace(s[k]))
  {
    var front := LeadingSpace(s);
    if front < |s| {
      var back := TrailingSpace(s);
      assert !IsWhitespace(s[front]);
    }
  }

  /** `trim` yields the empty string exactly for a blank input. */
  lemma TrimEmptyIffBlank(s: string)
    ensures Trim(s) == [] <==> IsBlank(s)
  {
    var front := LeadingSpace(s);
    if front < |s| {
      assert !IsWhitespace(s[front]);
    }
  }

  /** The trimmed string is a contiguous piece of the original. */
  lemma TrimIsInfix(s: string)
    ensures exists i :: OccursAt(s, Trim(s), i)
  {
    TrimSpec(s);
    assert OccursAt(s, Trim(s), LeadingSpace(s));
  }

  predicate IsAsciiUpper(c: char)
  {
    'A' <= c <= 'Z'
  }

  function LowerChar(c: char): char
  {
    if IsAsciiUpper(c) then (c as int + 32) as char else c
  }

  /** `s.toLowerCase()` restricted to ASCII: every capital letter becomes its
      small letter and nothing else changes. */
  function Lower(s: string): (r: string)
    ensures |r| == |s|
    ensures forall k :: 0 <= k < |r| ==> !IsAsciiUpper(r[k])
    ensures forall k :: 0 <= k < |r| ==> r[k] == s[k] || (IsAsciiUpper(s[k]) && r[k] as int == s[k] as int + 32)
  {
    seq(|s|, k requires 0 <= k < |s| => LowerChar(s[k]))
  }

  /** `text.includes(q)`: `q` occurs in `text` as a contiguous piece. */
  predicate Contains(text: string, q: string)
  {
    exists i :: 0 <= i <= |text| - |q| && OccursAt(text, q, i)
  }
}
