/** Text primitives the ingestion job relies on: an optional value, Python's
    `str.lower()` (restricted to the Latin-1 letters the keywords use) and
    Python's substring test `p in s`. */
module Texto {

  datatype Option<+T> = None | Some(value: T)

  /** Lower-cases one character: ASCII `A`..`Z` and the Latin-1 capitals
      U+00C0..U+00DE except the multiplication sign U+00D7, as `str.lower()`
      does for them; every other character is left as it is. */
  function LowerChar(c: char): (r: char)
  {
    if 'A' <= c <= 'Z' || ('À' <= c <= 'Þ' && c != '×')
    then (c as int + 32) as char
    else c
  }

  /** `s.lower()`, character by character. */
  function Lower(s: string): (r: string)
    ensures |r| == |s|
    ensures forall i :: 0 <= i < |s| ==> r[i] == LowerChar(s[i])
  {
    if s == [] then [] else [LowerChar(s[0])] + Lower(s[1..])
  }

  /** `p` occurs in `s` starting at position `i`. */
  ghost predicate OccursAt(p: string, s: string, i: int)
  {
    0 <= i && i + |p| <= |s| && s[i..i + |p|] == p
  }

  /** `p` is a substring of `s`. */
  ghost predicate Occurs(p: string, s: string)
  {
    exists i :: OccursAt(p, s, i)
  }

  /** Python's `p in s` on strings: a left-to-right search for `p`. */
  function Contiene(s: string, p: string): bool
    decreases |s|
  {
    if |p| > |s| then false
    else if s[..|p|] == p then true
    else Contiene(s[1..], p)
  }

  /** Occurrences in the tail of `s` are the occurrences in `s` shifted
      by one. */
  lemma OccursAtCola(p: string, s: string, i: int)
    requires s != [] && 0 <= i
    ensures OccursAt(p, s[1..], i) <==> OccursAt(p, s, i + 1)
  {
    if 0 <= i && i + |p| <= |s| - 1 {
      assert s[1..][i..i + |p|] == s[i + 1..i + 1 + |p|];
    }
  }

  /** The search finds `p` exactly when `p` is a substring of `s`. */
  lemma {:induction false} ContieneSiYSoloSi(s: string, p: string)
    ensures Contiene(s, p) <==> Occurs(p, s)
    decreases |s|
  {
    if |p| > |s| {
    } else if s[..|p|] == p {
      assert OccursAt(p, s, 0);
    } else {
      ContieneSiYSoloSi(s[1..], p);
      if Occurs(p, s) {
        var i :| OccursAt(p, s, i);
        assert i != 0;
        OccursAtCola(p, s, i - 1);
      }
      if Occurs(p, s[1..]) {
        var i :| OccursAt(p, s[1..], i);
        OccursAtCola(p, s, i);
      }
    }
  }

  /** The empty string contains no non-empty string. */
  lemma NadaEnVacio(p: string)
    requires p != ""
    ensures !Occurs(p, "")
  {
  }
}
