/**
 * The string operations the keyword searches rely on: lower-casing, trimming
 * white space, and substring containment (Python's `keyword in text`).
 * Lower-casing and white space are those of ASCII.
 */
module Text {

  predicate IsUpper(c: char) {
    'A' <= c <= 'Z'
  }

  /** The lower-case form of one character (`str.lower` restricted to ASCII). */
  function LowerChar(c: char): (d: char)
    ensures !IsUpper(d)
    ensures !IsUpper(c) ==> d == c
    ensures IsUpper(c) ==> d as int == c as int + 32
  {
    if IsUpper(c) then (c as int + 32) as char else c
  }

  /** `s.lower()`: every character replaced by its lower-case form. */
  function Lower(s: string): (r: string)
    ensures |r| == |s|
    ensures forall i :: 0 <= i < |s| ==> r[i] == LowerChar(s[i])
  {
    if s == [] then [] else [LowerChar(s[0])] + Lower(s[1..])
  }

  /** Lower-casing twice is lower-casing once, so `_match_note_keyword` may re-lower a lowered keyword. */
  lemma LowerIdempotent(s: string)
    ensures Lower(Lower(s)) == Lower(s)
  {
  }

  /** The characters `str.strip()` removes (ASCII white space and the four separators). */
  predicate IsSpace(c: char) {
    c == ' ' || ('\t' <= c <= '\r') || ('\U{1C}' <= c <= '\U{1F}')
  }

  predicate AllSpace(s: string) {
    forall i :: 0 <= i < |s| ==> IsSpace(s[i])
  }

  /** `s.lstrip()`: the suffix of `s` left after dropping leading white space. */
  function TrimStart(s: string): (r: string)
    ensures |r| <= |s| && r == s[|s| - |r|..]
    ensures AllSpace(s[..|s| - |r|])
    ensures r == [] || !IsSpace(r[0])
  {
    if s != [] && IsSpace(s[0]) then
      var tail := s[1..];
      var r := TrimStart(tail);
      assert tail[|tail| - |r|..] == s[|s| - |r|..];
      assert s[..|s| - |r|] == [s[0]] + tail[..|tail| - |r|];
      r
    else s
  }

  /** `s.rstrip()`: the prefix of `s` left after dropping trailing white space. */
  function TrimEnd(s: string): (r: string)
    ensures |r| <= |s| && r == s[..|r|]
    ensures AllSpace(s[|r|..])
    ensures r == [] || !IsSpace(r[|r| - 1])
  {
    if s != [] && IsSpace(s[|s| - 1]) then
      var init := s[..|s| - 1];
      var r := TrimEnd(init);
      assert init[..|r|] == s[..|r|];
      assert s[|r|..] == init[|r|..] + [s[|s| - 1]];
      r
    else s
  }

  /** `s.strip()`. It is empty exactly when `s` is all white space. */
  function Strip(s: string): (r: string)
    ensures r == [] <==> AllSpace(s)
    ensures r == [] || (!IsSpace(r[0]) && !IsSpace(r[|r| - 1]))
  {
    var front := TrimStart(s);
    StripEmptyIff(s, front, TrimEnd(front));
    TrimEnd(front)
  }

  lemma StripEmptyIff(s: string, front: string, r: string)
    requires |front| <= |s| && front == s[|s| - |front|..] && AllSpace(s[..|s| - |front|])
    requires front == [] || !IsSpace(front[0])
    requires |r| <= |front| && r == front[..|r|] && AllSpace(front[|r|..])
    ensures r == [] <==> AllSpace(s)
  {
    var cut := |s| - |front|;
    if r == [] {
      assert AllSpace(front) by {
        assert front[|r|..] == front;
      }
      assert front == [];
      forall i | 0 <= i < |s| ensures IsSpace(s[i]) {
        assert s[i] == s[..cut][i];
      }
    } else {
      assert front != [] && r[0] == front[0];
      assert s[cut] == front[0];
    }
  }

  predicate StartsWith(s: string, prefix: string) {
    |prefix| <= |s| && s[..|prefix|] == prefix
  }

  /** `needle in hay`: `needle` occurs as a contiguous piece of `hay`. */
  predicate Contains(hay: string, needle: string) {
    StartsWith(hay, needle) || (hay != [] && Contains(hay[1..], needle))
  }

  /** `needle` occurs in `hay` starting at offset `i`. */
  predicate OccursAt(hay: string, needle: string, i: int) {
    0 <= i && i + |needle| <= |hay| && hay[i..i + |needle|] == needle
  }

  /** Containment is occurrence at some offset. */
  lemma {:induction false} ContainsAt(hay: string, needle: string)
    ensures Contains(hay, needle) <==> exists i :: OccursAt(hay, needle, i)
  {
    if StartsWith(hay, needle) {
      assert OccursAt(hay, needle, 0);
    } else if hay != [] {
      ContainsAt(hay[1..], needle);
      if Contains(hay[1..], needle) {
        var i :| OccursAt(hay[1..], needle, i);
        assert hay[1..][i..i + |needle|] == hay[i + 1..i + 1 + |needle|];
        assert OccursAt(hay, needle, i + 1);
      }
      if exists i :: OccursAt(hay, needle, i) {
        var i :| OccursAt(hay, needle, i);
        assert i != 0;
        assert hay[1..][i - 1..i - 1 + |needle|] == hay[i..i + |needle|];
        assert OccursAt(hay[1..], needle, i - 1);
      }
    }
  }

  /** The empty keyword occurs in every text. */
  lemma ContainsEmpty(hay: string)
    ensures Contains(hay, [])
  {
    assert hay[..0] == [];
  }

  /** Case-insensitive containment: `keyword.lower() in text.lower()`. */
  predicate MatchesIgnoringCase(text: string, keyword: string) {
    Contains(Lower(text), Lower(keyword))
  }
}
