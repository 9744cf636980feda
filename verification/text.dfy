/** A small ASCII model of the Python string operations the bingo tools use:
    `lower`, `endswith`, `replace`, `title`, `split`, `join`, `rstrip` and
    `os.path.dirname` on POSIX paths. Characters outside ASCII letters are left
    unchanged by case conversion. */
module Text {

  predicate IsUpper(c: char) { 'A' <= c <= 'Z' }
  predicate IsLower(c: char) { 'a' <= c <= 'z' }
  predicate IsLetter(c: char) { IsUpper(c) || IsLower(c) }

  function LowerChar(c: char): char {
    if IsUpper(c) then (c as int + 32) as char else c
  }

  function UpperChar(c: char): char {
    if IsLower(c) then (c as int - 32) as char else c
  }

  /** `s.lower()` */
  function Lower(s: string): (r: string)
    ensures |r| == |s|
    ensures forall i :: 0 <= i < |s| ==> r[i] == LowerChar(s[i])
  {
    seq(|s|, i requires 0 <= i < |s| => LowerChar(s[i]))
  }

  /** `s.startswith(prefix)` */
  predicate StartsWith(s: string, prefix: string) {
    |prefix| <= |s| && s[..|prefix|] == prefix
  }

  /** `s.endswith(suffix)` */
  predicate EndsWith(s: string, suffix: string) {
    |suffix| <= |s| && s[|s| - |suffix|..] == suffix
  }

  /** Lower-casing keeps an ending an ending. */
  lemma LowerEndsWith(s: string, suffix: string)
    requires EndsWith(s, suffix)
    ensures EndsWith(Lower(s), Lower(suffix))
  {
    var n := |s| - |suffix|;
    forall j | 0 <= j < |suffix|
      ensures Lower(s)[n..][j] == Lower(suffix)[j]
    {
      assert s[n..][j] == suffix[j];
    }
  }

  /** `s.endswith(tuple(suffixes))` */
  predicate EndsWithAny(s: string, suffixes: seq<string>) {
    exists k :: 0 <= k < |suffixes| && EndsWith(s, suffixes[k])
  }

  /** `pat` occurs in `s` starting at position `i`. */
  predicate OccursAt(s: string, pat: string, i: nat) {
    i + |pat| <= |s| && s[i..i + |pat|] == pat
  }

  /** `pat` occurs somewhere in `s` (`pat in s`). */
  predicate Occurs(s: string, pat: string) {
    exists i: nat | i <= |s| :: OccursAt(s, pat, i)
  }

  /** `s.replace(a, b)` for single characters. */
  function ReplaceChar(s: string, a: char, b: char): (r: string)
    ensures |r| == |s|
    ensures a != b ==> a !in r
    ensures forall i :: 0 <= i < |s| && s[i] != a ==> r[i] == s[i]
  {
    seq(|s|, i requires 0 <= i < |s| => if s[i] == a then b else s[i])
  }

  /** `s.replace(pat, rep)`: every non-overlapping occurrence of `pat`, scanning from the left,
      is replaced by `rep`. The source only replaces non-empty patterns. */
  function ReplaceAll(s: string, pat: string, rep: string): (r: string)
    requires |pat| > 0
    ensures !Occurs(s, pat) ==> r == s
    decreases |s|
  {
    if |s| < |pat| then s
    else if s[..|pat|] == pat then
      assert Occurs(s, pat) by { assert OccursAt(s, pat, 0); }
      rep + ReplaceAll(s[|pat|..], pat, rep)
    else
      var rest := ReplaceAll(s[1..], pat, rep);
      OccursInTail(s, pat);
      [s[0]] + rest
  }

  /** An occurrence in the tail of `s` is an occurrence in `s`. */
  lemma OccursInTail(s: string, pat: string)
    requires s != []
    ensures Occurs(s[1..], pat) ==> Occurs(s, pat)
  {
    if Occurs(s[1..], pat) {
      var i: nat :| i <= |s[1..]| && OccursAt(s[1..], pat, i);
      assert s[1..][i..i + |pat|] == s[i + 1..i + 1 + |pat|];
      assert OccursAt(s, pat, i + 1);
    }
  }

  /** Replacing a one-character pattern by a one-character string is the per-character map. */
  lemma {:induction false} ReplaceAllSingle(s: string, a: char, b: char)
    ensures ReplaceAll(s, [a], [b]) == ReplaceChar(s, a, b)
    decreases |s|
  {
    if |s| >= 1 {
      ReplaceAllSingle(s[1..], a, b);
      assert s[..1] == [s[0]];
    }
  }

  /** The character at `i` of `s.title()`: a letter is upper-cased when it starts a run of
      letters and lower-cased otherwise; other characters are unchanged. */
  function TitleChar(s: string, i: nat): char
    requires i < |s|
  {
    if !IsLetter(s[i]) then s[i]
    else if i > 0 && IsLetter(s[i - 1]) then LowerChar(s[i])
    else UpperChar(s[i])
  }

  /** `s.title()` */
  function Title(s: string): (r: string)
    ensures |r| == |s|
    ensures forall i :: 0 <= i < |s| ==> r[i] == TitleChar(s, i)
  {
    seq(|s|, i requires 0 <= i < |s| => TitleChar(s, i))
  }

  /** Title-casing changes only the case of letters, so it is idempotent. */
  lemma TitleIdempotent(s: string)
    ensures Title(Title(s)) == Title(s)
  {
    var t := Title(s);
    assert forall i :: 0 <= i < |s| ==> IsLetter(t[i]) == IsLetter(s[i]);
    forall i | 0 <= i < |s|
      ensures Title(t)[i] == t[i]
    {
      assert Title(t)[i] == TitleChar(t, i);
    }
  }

  /** `sep.join(parts)` */
  function Join(sep: string, parts: seq<string>): string
  {
    if |parts| == 0 then ""
    else if |parts| == 1 then parts[0]
    else parts[0] + sep + Join(sep, parts[1..])
  }

  /** Joining a first part onto at least one more. */
  lemma JoinCons(sep: string, x: string, rest: seq<string>)
    requires rest != []
    ensures Join(sep, [x] + rest) == x + sep + Join(sep, rest)
  {
    assert ([x] + rest)[1..] == rest;
  }

  /** Joining two non-empty lists is joining their joins. */
  lemma {:induction false} JoinAppend(sep: string, a: seq<string>, b: seq<string>)
    requires a != [] && b != []
    ensures Join(sep, a + b) == Join(sep, a) + sep + Join(sep, b)
  {
    if |a| == 1 {
      assert a + b == [a[0]] + b;
      JoinCons(sep, a[0], b);
    } else {
      JoinAppend(sep, a[1..], b);
      assert a + b == [a[0]] + (a[1..] + b);
      JoinCons(sep, a[0], a[1..] + b);
      JoinCons(sep, a[0], a[1..]);
      assert [a[0]] + a[1..] == a;
    }
  }

  /** The join of a longer prefix extends the join of the shorter one by a separator and the
      next part. */
  lemma JoinPrefix(sep: string, xs: seq<string>, k: nat)
    requires 1 <= k < |xs|
    ensures Join(sep, xs[..k + 1]) == Join(sep, xs[..k]) + sep + xs[k]
  {
    assert xs[..k] + [xs[k]] == xs[..k + 1];
    JoinAppend(sep, xs[..k], [xs[k]]);
  }

  /** Re-bracketing a concatenation of three strings. */
  lemma ConcatAssoc3(a: string, b: string, c: string)
    ensures a + b + c == a + (b + c)
  {
  }

  /** Re-bracketing a concatenation of four strings. */
  lemma ConcatAssoc(a: string, b: string, c: string, d: string)
    ensures a + b + c + d == a + (b + c + d)
  {
  }

  /** The double quote that delimits HTML attribute values. */
  const Quote: string := "\""

  /** A list framed by a first and a last part, joined: the first part, the joined middle and
      the last part, with separators between them. */
  lemma JoinFramed(sep: string, h: string, xs: seq<string>, t: string)
    ensures xs == [] ==> Join(sep, [h] + xs + [t]) == h + sep + t
    ensures xs != [] ==> Join(sep, [h] + xs + [t]) == h + sep + Join(sep, xs) + sep + t
  {
    assert [h] + xs + [t] == [h] + (xs + [t]);
    JoinCons(sep, h, xs + [t]);
    if xs != [] {
      JoinAppend(sep, xs, [t]);
    }
  }

  /** In a framed list joined, the middle part `k` stands between the join of everything
      before it and the join of everything after it. */
  lemma JoinFramedAt(sep: string, h: string, xs: seq<string>, t: string, k: nat)
    requires k < |xs|
    ensures Join(sep, [h] + xs + [t])
         == Join(sep, [h] + xs[..k]) + sep + xs[k] + sep + Join(sep, xs[k + 1..] + [t])
  {
    var parts := [h] + xs + [t];
    assert parts == ([h] + xs[..k]) + ([xs[k]] + (xs[k + 1..] + [t]));
    JoinAppend(sep, [h] + xs[..k], [xs[k]] + (xs[k + 1..] + [t]));
    JoinCons(sep, xs[k], xs[k + 1..] + [t]);
  }

  /** `"".join` of a first part and a list. */
  lemma JoinNoSepCons(h: string, xs: seq<string>)
    ensures Join("", [h] + xs) == h + Join("", xs)
  {
    if xs != [] {
      JoinCons("", h, xs);
    }
  }

  /** `"".join` of a list and a last part. */
  lemma JoinNoSepSnoc(xs: seq<string>, t: string)
    ensures Join("", xs + [t]) == Join("", xs) + t
  {
    if xs != [] {
      JoinAppend("", xs, [t]);
    }
  }

  /** Joining without separator a list framed by a first and a last part: the first part, the
      joined middle and the last part. */
  lemma JoinNoSepFramed(h: string, xs: seq<string>, t: string)
    ensures Join("", [h] + xs + [t]) == h + Join("", xs) + t
  {
    assert [h] + xs + [t] == [h] + (xs + [t]);
    JoinNoSepCons(h, xs + [t]);
    JoinNoSepSnoc(xs, t);
  }

  /** In a framed list joined without separator, part `k` stands right after the first part
      and the parts before it, and is followed by the parts after it and the last part. */
  lemma JoinNoSepFramedAt(h: string, xs: seq<string>, t: string, k: nat)
    requires k < |xs|
    ensures Join("", [h] + xs + [t]) == h + Join("", xs[..k]) + xs[k] + Join("", xs[k + 1..]) + t
    ensures OccursAt(Join("", [h] + xs + [t]), xs[k], |h| + |Join("", xs[..k])|)
  {
    var before, after := Join("", [h] + xs[..k]), Join("", xs[k + 1..] + [t]);
    JoinFramedAt("", h, xs, t, k);
    assert before + "" + xs[k] + "" + after == before + xs[k] + after;
    JoinNoSepCons(h, xs[..k]);
    JoinNoSepSnoc(xs[k + 1..], t);
    OccursAtMiddle(before, xs[k], after);
  }

  /** A string occurs in a concatenation at the position where it was put. */
  lemma OccursAtMiddle(pre: string, x: string, post: string)
    ensures OccursAt(pre + x + post, x, |pre|)
  {
    assert (pre + x + post)[|pre|..|pre| + |x|] == x;
  }

  /** Three strings put between four others all occur in the result. */
  lemma OccursThree(a: string, x: string, b: string, y: string, c: string, z: string, d: string)
    ensures Occurs(a + x + b + y + c + z + d, x)
    ensures Occurs(a + x + b + y + c + z + d, y)
    ensures Occurs(a + x + b + y + c + z + d, z)
  {
    var s := a + x + b + y + c + z + d;
    OccursAtMiddle(a, x, b + y + c + z + d);
    assert s == a + x + (b + y + c + z + d);
    assert OccursAt(s, x, |a|);
    OccursAtMiddle(a + x + b, y, c + z + d);
    assert s == (a + x + b) + y + (c + z + d);
    assert OccursAt(s, y, |a + x + b|);
    OccursAtMiddle(a + x + b + y + c, z, d);
    assert OccursAt(s, z, |a + x + b + y + c|);
  }

  /** A character in neither the separator nor any part is not in their join. */
  lemma {:induction false} JoinWithout(sep: string, parts: seq<string>, c: char)
    requires c !in sep
    requires forall k :: 0 <= k < |parts| ==> c !in parts[k]
    ensures c !in Join(sep, parts)
  {
    if |parts| > 1 {
      JoinWithout(sep, parts[1..], c);
    }
  }

  /** `s.split(c)` for a one-character separator: the pieces between the occurrences of `c`. */
  function Split(s: string, c: char): (r: seq<string>)
    ensures |r| >= 1
    ensures forall k :: 0 <= k < |r| ==> c !in r[k]
  {
    if s == [] then [[]]
    else
      var rest := Split(s[1..], c);
      if s[0] == c then [[]] + rest
      else [[s[0]] + rest[0]] + rest[1..]
  }

  /** A string without the separator splits into itself. */
  lemma {:induction false} SplitNoSeparator(p: string, c: char)
    requires c !in p
    ensures Split(p, c) == [p]
  {
    if p != [] {
      SplitNoSeparator(p[1..], c);
      assert [p[0]] + p[1..] == p;
    }
  }

  /** A separator-free piece followed by the separator splits off as the first piece. */
  lemma {:induction false} SplitPiece(p: string, c: char, x: string)
    requires c !in p
    ensures Split(p + [c] + x, c) == [p] + Split(x, c)
  {
    if p == [] {
      assert [c] + x == p + [c] + x;
      assert ([c] + x)[1..] == x;
    } else {
      SplitPiece(p[1..], c, x);
      assert (p + [c] + x)[1..] == p[1..] + [c] + x;
      assert [p[0]] + p[1..] == p;
    }
  }

  /** Splitting inverts joining, provided no part contains the separator. */
  lemma {:induction false} SplitJoin(parts: seq<string>, c: char)
    requires |parts| >= 1
    requires forall k :: 0 <= k < |parts| ==> c !in parts[k]
    ensures Split(Join([c], parts), c) == parts
  {
    if |parts| == 1 {
      SplitNoSeparator(parts[0], c);
    } else {
      SplitJoin(parts[1..], c);
      SplitPiece(parts[0], c, Join([c], parts[1..]));
      assert [parts[0]] + parts[1..] == parts;
    }
  }

  /** `s.rstrip(c)` for one character. */
  function RStrip(s: string, c: char): (r: string)
    ensures |r| <= |s| && r == s[..|r|]
    ensures r == [] || r[|r| - 1] != c
    ensures forall i :: |r| <= i < |s| ==> s[i] == c
  {
    if s != [] && s[|s| - 1] == c then RStrip(s[..|s| - 1], c) else s
  }

  /** `posixpath.dirname(p)`: everything up to the last '/', with trailing slashes removed
      unless that prefix consists of slashes only. */
  function Dirname(p: string): (r: string)
    ensures '/' !in p ==> r == ""
  {
    var head := LastSlashPrefix(p);
    if head != [] && exists i :: 0 <= i < |head| && head[i] != '/' then RStrip(head, '/') else head
  }

  /** `p[:p.rfind('/') + 1]` */
  function LastSlashPrefix(p: string): (r: string)
    ensures |r| <= |p| && r == p[..|r|]
    ensures '/' !in p ==> r == ""
    ensures r != [] ==> r[|r| - 1] == '/'
    ensures forall i :: |r| <= i < |p| ==> p[i] != '/'
  {
    if p == [] then []
    else if p[|p| - 1] == '/' then p
    else LastSlashPrefix(p[..|p| - 1])
  }

  /** The place name shown to readers: the directory name with '-' and '_' turned into
      spaces (`name.replace('-', ' ').replace('_', ' ')`). */
  function PlaceName(name: string): (r: string)
    ensures |r| == |name|
    ensures '-' !in r && '_' !in r
    ensures forall i :: 0 <= i < |name| && name[i] != '-' && name[i] != '_' ==> r[i] == name[i]
  {
    ReplaceChar(ReplaceChar(name, '-', ' '), '_', ' ')
  }

  /** Normalising a place name twice changes nothing more. */
  lemma PlaceNameIdempotent(name: string)
    ensures PlaceName(PlaceName(name)) == PlaceName(name)
  {
  }

  /** The place name as titles, headings and cards show it: the place name title-cased
      (`plaatsnaam.title()`). */
  function DisplayName(name: string): string {
    Title(PlaceName(name))
  }
}
