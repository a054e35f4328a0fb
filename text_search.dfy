/**
 * Case-insensitive substring search over item names and descriptions: the
 * `toLowerCase().contains(...)` test of the in-memory item store.
 */
module TextSearch {

  /** Lower-case form of one character (ASCII letters only). */
  function LowerChar(c: char): char {
    if 'A' <= c <= 'Z' then (c as int + 32) as char else c
  }

  /** `String.toLowerCase`, restricted to ASCII letters. */
  function ToLower(s: string): (r: string)
    ensures |r| == |s|
    ensures forall i :: 0 <= i < |s| ==> r[i] == LowerChar(s[i])
  {
    if s == [] then [] else [LowerChar(s[0])] + ToLower(s[1..])
  }

  /** Lower-casing twice is lower-casing once. */
  lemma ToLowerIdempotent(s: string)
    ensures ToLower(ToLower(s)) == ToLower(s)
  {
  }

  /** `t` occurs in `s` starting at index `i`. */
  predicate OccursAt(s: string, t: string, i: int) {
    0 <= i && i + |t| <= |s| && s[i..i + |t|] == t
  }

  /** `String.contains`: whether `t` occurs somewhere in `s`. */
  function Contains(s: string, t: string): (r: bool)
    ensures r <==> exists i :: OccursAt(s, t, i)
  {
    if |t| <= |s| && s[..|t|] == t then
      assert OccursAt(s, t, 0);
      true
    else if s == [] then
      assert forall i :: !OccursAt(s, t, i);
      false
    else
      var r := Contains(s[1..], t);
      assert !OccursAt(s, t, 0);
      assert forall i :: OccursAt(s[1..], t, i) <==> OccursAt(s, t, i + 1) by {
        forall i
          ensures OccursAt(s[1..], t, i) <==> OccursAt(s, t, i + 1)
        {
          if 0 <= i && i + |t| <= |s| - 1 {
            assert s[1..][i..i + |t|] == s[i + 1..i + 1 + |t|];
          }
        }
      }
      assert r ==> exists i :: OccursAt(s, t, i) by {
        if r {
          var i :| OccursAt(s[1..], t, i);
          assert OccursAt(s, t, i + 1);
        }
      }
      assert (exists i :: OccursAt(s, t, i)) ==> r by {
        if exists i :: OccursAt(s, t, i) {
          var i :| OccursAt(s, t, i);
          assert i != 0;
          assert OccursAt(s[1..], t, i - 1);
        }
      }
      r
  }

  /** The empty text occurs in every string. */
  lemma ContainsEmpty(s: string)
    ensures Contains(s, [])
  {
    assert OccursAt(s, [], 0);
  }

  /** Name or description contains the text, ignoring case. */
  predicate MatchesText(name: string, description: string, text: string) {
    Contains(ToLower(name), ToLower(text)) || Contains(ToLower(description), ToLower(text))
  }

  /** The match ignores the case of the search text. */
  lemma MatchIgnoresTextCase(name: string, description: string, text: string)
    ensures MatchesText(name, description, text) <==> MatchesText(name, description, ToLower(text))
  {
    ToLowerIdempotent(text);
  }

  /** The match ignores the case of the item's name. */
  lemma MatchIgnoresNameCase(name: string, description: string, text: string)
    ensures MatchesText(name, description, text) <==> MatchesText(ToLower(name), description, text)
  {
    ToLowerIdempotent(name);
  }
}
