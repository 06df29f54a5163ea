/** The two string operations the catalog search relies on: lower-casing
    (`toLowerCase`, restricted here to the ASCII letters) and substring
    containment (`includes`). */
module Text {

  predicate IsUpper(c: char) {
    'A' <= c <= 'Z'
  }

  /** Lower-case one character; anything that is not an ASCII capital is kept. */
  function LowerChar(c: char): (r: char)
    ensures !IsUpper(r)
    ensures IsUpper(c) ==> r as int == c as int + 32
    ensures !IsUpper(c) ==> r == c
  {
    if IsUpper(c) then (c as int + 32) as char else c
  }

  /** Lower-case a whole string, character by character. */
  function ToLower(s: string): (r: string)
    ensures |r| == |s|
    ensures forall i :: 0 <= i < |r| ==> !IsUpper(r[i])
    ensures forall i :: 0 <= i < |s| && !IsUpper(s[i]) ==> r[i] == s[i]
    ensures forall i :: 0 <= i < |s| ==> r[i] == LowerChar(s[i])
  {
    if |s| == 0 then [] else [LowerChar(s[0])] + ToLower(s[1..])
  }

  /** Lower-casing a string with no capitals changes nothing. */
  lemma {:induction false} ToLowerFixesLower(s: string)
    requires forall i :: 0 <= i < |s| ==> !IsUpper(s[i])
    ensures ToLower(s) == s
  {
  }

  /** Lower-casing is idempotent, so a search text already lower-cased by the
      user is compared as typed. */
  lemma {:induction false} ToLowerIdempotent(s: string)
    ensures ToLower(ToLower(s)) == ToLower(s)
  {
    ToLowerFixesLower(ToLower(s));
  }

  /** `t` occurs in `s` starting at position `i`. */
  predicate OccursAt(s: string, t: string, i: int) {
    0 <= i && i + |t| <= |s| && s[i..i + |t|] == t
  }

  /** `s.includes(t)`: scan the start positions of `s` from the left. */
  function Includes(s: string, t: string): (r: bool)
    ensures r <==> exists i :: OccursAt(s, t, i)
  {
    if |t| > |s| then
      assert forall i :: !OccursAt(s, t, i);
      false
    else if s[..|t|] == t then
      assert OccursAt(s, t, 0);
      true
    else
      var r := Includes(s[1..], t);
      ShiftOccurrence(s, t);
      assert !OccursAt(s, t, 0);
      assert forall j :: OccursAt(s, t, j) ==> OccursAt(s[1..], t, j - 1);
      r
  }

  /** Occurrences in `s[1..]` are the occurrences in `s` after position 0. */
  lemma {:induction false} ShiftOccurrence(s: string, t: string)
    requires |s| > 0
    ensures forall i :: 0 <= i ==> (OccursAt(s[1..], t, i) <==> OccursAt(s, t, i + 1))
  {
  }

  /** The empty text occurs in every string. */
  lemma {:induction false} EmptyIncluded(s: string)
    ensures Includes(s, "")
  {
    assert OccursAt(s, "", 0);
  }
}
