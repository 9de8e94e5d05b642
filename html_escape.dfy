/** `escapeHtml`, the same in both widgets: five global replacements
    applied one after the other, `&` first. */
module HtmlEscape {

  /** `s.replace(/c/g, rep)`: every occurrence of `c` replaced by `rep`. */
  function ReplaceAll(s: string, c: char, rep: string): string
  {
    if s == [] then []
    else (if s[0] == c then rep else [s[0]]) + ReplaceAll(s[1..], c, rep)
  }

  /** A replacement leaves a string without `c` alone, removes `c` when `rep`
      does not contain it, and introduces no character from elsewhere. */
  lemma {:induction false} ReplaceAllMembers(s: string, c: char, rep: string)
    ensures c !in s ==> ReplaceAll(s, c, rep) == s
    ensures c !in rep ==> c !in ReplaceAll(s, c, rep)
    ensures forall x :: x in ReplaceAll(s, c, rep) ==> x in s || x in rep
  {
    if s != [] {
      ReplaceAllMembers(s[1..], c, rep);
      assert s == [s[0]] + s[1..];
    }
  }

  /** The replacement chain in the order the source applies it. */
  function EscapeHtml(s: string): string
  {
    var amp := ReplaceAll(s, '&', "&amp;");
    var lt := ReplaceAll(amp, '<', "&lt;");
    var gt := ReplaceAll(lt, '>', "&gt;");
    var quot := ReplaceAll(gt, '"', "&quot;");
    ReplaceAll(quot, '\'', "&#039;")
  }

  predicate IsSpecial(c: char)
  {
    c == '&' || c == '<' || c == '>' || c == '"' || c == '\''
  }

  /** The entity a single character turns into, or the character itself. */
  function EscapeChar(c: char): string
  {
    match c
    case '&' => "&amp;"
    case '<' => "&lt;"
    case '>' => "&gt;"
    case '"' => "&quot;"
    case '\'' => "&#039;"
    case _ => [c]
  }

  /** Reference definition: escape character by character in one pass. */
  function EscapeEach(s: string): string
  {
    if s == [] then [] else EscapeChar(s[0]) + EscapeEach(s[1..])
  }

  lemma {:induction false} ReplaceAllAppend(a: string, b: string, c: char, rep: string)
    ensures ReplaceAll(a + b, c, rep) == ReplaceAll(a, c, rep) + ReplaceAll(b, c, rep)
  {
    if a == [] {
      assert a + b == b;
    } else {
      var head := if a[0] == c then rep else [a[0]];
      assert (a + b)[0] == a[0] && (a + b)[1..] == a[1..] + b;
      ReplaceAllAppend(a[1..], b, c, rep);
      calc {
        ReplaceAll(a + b, c, rep);
        head + ReplaceAll(a[1..] + b, c, rep);
        head + (ReplaceAll(a[1..], c, rep) + ReplaceAll(b, c, rep));
        (head + ReplaceAll(a[1..], c, rep)) + ReplaceAll(b, c, rep);
        ReplaceAll(a, c, rep) + ReplaceAll(b, c, rep);
      }
    }
  }

  /** The chain applied to one character yields exactly that character's entity. */
  lemma EscapeHtmlOneChar(c: char)
    ensures EscapeHtml([c]) == EscapeChar(c)
  {
    ReplaceAllOne(c, '&', "&amp;");
    if c == '&' {
      AbsentFromTail("&amp;", 1);
    } else {
      ReplaceAllOne(c, '<', "&lt;");
      if c == '<' {
        AbsentFromTail("&lt;", 2);
      } else {
        ReplaceAllOne(c, '>', "&gt;");
        if c == '>' {
          AbsentFromTail("&gt;", 3);
        } else {
          ReplaceAllOne(c, '"', "&quot;");
          if c == '"' {
            AbsentFromTail("&quot;", 4);
          } else {
            ReplaceAllOne(c, '\'', "&#039;");
          }
        }
      }
    }
  }

  /** An entity produced by pass `pass` is left alone by every later pass. */
  lemma AbsentFromTail(e: string, pass: nat)
    requires 1 <= pass <= 4
    requires pass <= 1 ==> '<' !in e
    requires pass <= 2 ==> '>' !in e
    requires pass <= 3 ==> '"' !in e
    requires '\'' !in e
    ensures pass == 1 ==> ReplaceAll(ReplaceAll(ReplaceAll(ReplaceAll(e, '<', "&lt;"), '>', "&gt;"), '"', "&quot;"), '\'', "&#039;") == e
    ensures pass == 2 ==> ReplaceAll(ReplaceAll(ReplaceAll(e, '>', "&gt;"), '"', "&quot;"), '\'', "&#039;") == e
    ensures pass == 3 ==> ReplaceAll(ReplaceAll(e, '"', "&quot;"), '\'', "&#039;") == e
    ensures pass == 4 ==> ReplaceAll(e, '\'', "&#039;") == e
  {
    ReplaceAllMembers(e, '<', "&lt;");
    ReplaceAllMembers(e, '>', "&gt;");
    ReplaceAllMembers(e, '"', "&quot;");
    ReplaceAllMembers(e, '\'', "&#039;");
  }

  lemma ReplaceAllOne(x: char, c: char, rep: string)
    ensures ReplaceAll([x], c, rep) == if x == c then rep else [x]
  {
    assert [x][1..] == [];
  }

  /** The five sequential passes agree with the one-pass reference: because `&`
      is replaced first, no pass rewrites what an earlier pass produced. */
  lemma {:induction false} EscapeHtmlIsPerChar(s: string)
    ensures EscapeHtml(s) == EscapeEach(s)
  {
    if s != [] {
      var head, tail := [s[0]], s[1..];
      assert s == head + tail;
      // One local per pass, for the head character and for the rest.
      var h1, t1 := ReplaceAll(head, '&', "&amp;"), ReplaceAll(tail, '&', "&amp;");
      var h2, t2 := ReplaceAll(h1, '<', "&lt;"), ReplaceAll(t1, '<', "&lt;");
      var h3, t3 := ReplaceAll(h2, '>', "&gt;"), ReplaceAll(t2, '>', "&gt;");
      var h4, t4 := ReplaceAll(h3, '"', "&quot;"), ReplaceAll(t3, '"', "&quot;");
      ReplaceAllAppend(head, tail, '&', "&amp;");
      ReplaceAllAppend(h1, t1, '<', "&lt;");
      ReplaceAllAppend(h2, t2, '>', "&gt;");
      ReplaceAllAppend(h3, t3, '"', "&quot;");
      ReplaceAllAppend(h4, t4, '\'', "&#039;");
      assert EscapeHtml(s) == EscapeHtml(head) + EscapeHtml(tail);
      EscapeHtmlOneChar(s[0]);
      EscapeHtmlIsPerChar(tail);
    }
  }

  lemma {:induction false} EscapeEachSafe(s: string)
    ensures var r := EscapeEach(s);
      '<' !in r && '>' !in r && '"' !in r && '\'' !in r && |r| >= |s|
    ensures (forall k :: 0 <= k < |s| ==> !IsSpecial(s[k])) ==> EscapeEach(s) == s
  {
    if s != [] {
      EscapeEachSafe(s[1..]);
      EscapeCharSafe(s[0]);
      assert s == [s[0]] + s[1..];
    }
  }

  lemma EscapeCharSafe(c: char)
    ensures var e := EscapeChar(c);
      '<' !in e && '>' !in e && '"' !in e && '\'' !in e && |e| >= 1
    ensures !IsSpecial(c) ==> EscapeChar(c) == [c]
  {
  }

  /** The output of `escapeHtml` holds none of `<`, `>`, `"` and `'`, is at
      least as long as the input, and is the input itself when the input has
      none of the five special characters. */
  lemma EscapeHtmlSafe(s: string)
    ensures var r := EscapeHtml(s);
      '<' !in r && '>' !in r && '"' !in r && '\'' !in r && |r| >= |s|
    ensures (forall k :: 0 <= k < |s| ==> !IsSpecial(s[k])) ==> EscapeHtml(s) == s
  {
    EscapeHtmlIsPerChar(s);
    EscapeEachSafe(s);
  }

  /** `t` has `p` as a prefix. */
  predicate StartsWith(t: string, p: string)
  {
    |p| <= |t| && forall k :: 0 <= k < |p| ==> t[k] == p[k]
  }

  /** One of the five entities `escapeHtml` produces starts at index `i` of `t`. */
  predicate BeginsEntity(t: string, i: nat)
  {
    i <= |t| &&
    var rest := t[i..];
    StartsWith(rest, "&amp;") || StartsWith(rest, "&lt;") || StartsWith(rest, "&gt;")
    || StartsWith(rest, "&quot;") || StartsWith(rest, "&#039;")
  }

  lemma {:induction false} EscapeEachAmpersands(s: string)
    ensures forall i :: 0 <= i < |EscapeEach(s)| && EscapeEach(s)[i] == '&' ==> BeginsEntity(EscapeEach(s), i)
  {
    if s != [] {
      var e, rest := EscapeChar(s[0]), EscapeEach(s[1..]);
      var r := e + rest;
      EscapeEachAmpersands(s[1..]);
      forall i | 0 <= i < |r| && r[i] == '&' ensures BeginsEntity(r, i) {
        if i < |e| {
          assert e[i] == '&';
          assert i == 0 && IsSpecial(s[0]);
          assert r[i..] == r;
          assert StartsWith(r, e);
        } else {
          var j := i - |e|;
          assert rest[j] == '&';
          assert BeginsEntity(rest, j);
          assert r[i..] == rest[j..];
        }
      }
    }
  }

  /** Every `&` that `escapeHtml` leaves in its output is the start of one of
      the five entities, so the output holds no stray ampersand. */
  lemma EscapeHtmlAmpersandsBeginEntities(s: string)
    ensures var r := EscapeHtml(s);
      forall i :: 0 <= i < |r| && r[i] == '&' ==> BeginsEntity(r, i)
  {
    EscapeHtmlIsPerChar(s);
    EscapeEachAmpersands(s);
  }

  /** Decoding of the five entities, reading left to right; the inverse partner
      of `EscapeHtml`. */
  function Unescape(t: string): string
  {
    if t == [] then []
    else if StartsWith(t, "&amp;") then "&" + Unescape(t[5..])
    else if StartsWith(t, "&lt;") then "<" + Unescape(t[4..])
    else if StartsWith(t, "&gt;") then ">" + Unescape(t[4..])
    else if StartsWith(t, "&quot;") then "\"" + Unescape(t[6..])
    else if StartsWith(t, "&#039;") then "'" + Unescape(t[6..])
    else [t[0]] + Unescape(t[1..])
  }

  lemma UnescapeStep(c: char, rest: string)
    ensures Unescape(EscapeChar(c) + rest) == [c] + Unescape(rest)
  {
    var t := EscapeChar(c) + rest;
    var e := EscapeChar(c);
    assert StartsWith(t, e) && t[|e|..] == rest;
    if c == '<' {
      assert t[1] == 'l';
    } else if c == '>' {
      assert t[1] == 'g';
    } else if c == '"' {
      assert t[1] == 'q';
    } else if c == '\'' {
      assert t[1] == '#';
    } else if c != '&' {
      assert t[0] == c;
    }
  }

  lemma {:induction false} UnescapeEscapeEach(s: string)
    ensures Unescape(EscapeEach(s)) == s
  {
    if s != [] {
      UnescapeStep(s[0], EscapeEach(s[1..]));
      UnescapeEscapeEach(s[1..]);
      assert s == [s[0]] + s[1..];
    }
  }

  /** Decoding the five entities recovers the input: escaping loses nothing. */
  lemma UnescapeEscapeHtml(s: string)
    ensures Unescape(EscapeHtml(s)) == s
  {
    EscapeHtmlIsPerChar(s);
    UnescapeEscapeEach(s);
  }
}
