/** Python's `html.escape(s)` with its default `quote=True`: '&', '<', '>', '"' and "'" are
    replaced by character references. The replacement of '&' comes first in the library, so no
    reference it inserts is touched again, and the result is the per-character map below. */
module HtmlEscape {
  import opened Text

  /** The reference a character is replaced by, or the character itself. */
  function EscapeChar(c: char): string {
    if c == '&' then "&amp;"
    else if c == '<' then "&lt;"
    else if c == '>' then "&gt;"
    else if c == '"' then "&quot;"
    else if c == '\'' then "&#x27;"
    else [c]
  }

  /** `html.escape(s)` */
  function Escape(s: string): string {
    if s == [] then [] else EscapeChar(s[0]) + Escape(s[1..])
  }

  /** The characters `Escape` replaces. */
  predicate IsSpecial(c: char) {
    c == '&' || c == '<' || c == '>' || c == '"' || c == '\''
  }

  /** Reading the five references back, as `html.unescape` does for them. */
  function Unescape(s: string): string
    decreases |s|
  {
    if s == [] then []
    else if StartsWith(s, "&amp;") then "&" + Unescape(s[5..])
    else if StartsWith(s, "&lt;") then "<" + Unescape(s[4..])
    else if StartsWith(s, "&gt;") then ">" + Unescape(s[4..])
    else if StartsWith(s, "&quot;") then "\"" + Unescape(s[6..])
    else if StartsWith(s, "&#x27;") then "'" + Unescape(s[6..])
    else [s[0]] + Unescape(s[1..])
  }

  /** Escaping loses nothing: reading the references back restores the text. */
  lemma {:induction false} UnescapeEscape(s: string)
    ensures Unescape(Escape(s)) == s
  {
    if s != [] {
      UnescapeEscape(s[1..]);
      UnescapeChar(s[0], Escape(s[1..]));
      assert [s[0]] + s[1..] == s;
    }
  }

  /** The escaped form of one character, followed by anything, reads back as that character. */
  lemma UnescapeChar(c: char, t: string)
    ensures Unescape(EscapeChar(c) + t) == [c] + Unescape(t)
  {
    if c == '&' {
      UnescapeRef("&amp;", '&', t);
    } else if c == '<' {
      UnescapeRef("&lt;", '<', t);
    } else if c == '>' {
      UnescapeRef("&gt;", '>', t);
    } else if c == '"' {
      UnescapeRef("&quot;", '"', t);
    } else if c == '\'' {
      UnescapeRef("&#x27;", '\'', t);
    } else {
      var e := [c] + t;
      assert e[0] == c && e[1..] == t;
      assert !StartsWith(e, "&amp;") && !StartsWith(e, "&lt;") && !StartsWith(e, "&gt;");
      assert !StartsWith(e, "&quot;") && !StartsWith(e, "&#x27;");
    }
  }

  /** Each of the five references, followed by anything, reads back as its character. */
  lemma UnescapeRef(r: string, c: char, t: string)
    requires (r, c) in {("&amp;", '&'), ("&lt;", '<'), ("&gt;", '>'), ("&quot;", '"'), ("&#x27;", '\'')}
    ensures Unescape(r + t) == [c] + Unescape(t)
  {
    var e := r + t;
    assert e[..|r|] == r && e[|r|..] == t;
    assert e[1] == r[1];
  }

  /** The escaped text holds none of '<', '>', '"' and "'", so it is safe inside a quoted
      attribute value. */
  lemma {:induction false} EscapeSafe(s: string)
    ensures forall i :: 0 <= i < |Escape(s)| ==> var c := Escape(s)[i]; c != '<' && c != '>' && c != '"' && c != '\''
  {
    if s != [] {
      EscapeSafe(s[1..]);
      var e, rest := EscapeChar(s[0]), Escape(s[1..]);
      forall i | 0 <= i < |e|
        ensures e[i] != '<' && e[i] != '>' && e[i] != '"' && e[i] != '\''
      {
      }
      assert Escape(s) == e + rest;
      forall i | 0 <= i < |e + rest|
        ensures var c := (e + rest)[i]; c != '<' && c != '>' && c != '"' && c != '\''
      {
        if i >= |e| {
          assert (e + rest)[i] == rest[i - |e|];
        }
      }
    }
  }

  /** Text without special characters is left as it is. */
  lemma {:induction false} EscapePlain(s: string)
    requires forall i :: 0 <= i < |s| ==> !IsSpecial(s[i])
    ensures Escape(s) == s
  {
    if s != [] {
      EscapePlain(s[1..]);
      assert [s[0]] + s[1..] == s;
    }
  }
}
