/** Case-insensitive substring search as the chunk viewer performs it:
    both sides are lower-cased and the query is looked for as a contiguous
    substring of the content. Lower-casing is restricted to ASCII letters. */
module TextMatch {

  predicate IsAsciiUpper(c: char) {
    'A' <= c <= 'Z'
  }

  /** ASCII lower-casing of one character. */
  function LowerChar(c: char): (r: char)
    ensures !IsAsciiUpper(r)
    ensures IsAsciiUpper(c) ==> 'a' <= r <= 'z' && r as int - c as int == 'a' as int - 'A' as int
    ensures !IsAsciiUpper(c) ==> r == c
  {
    if IsAsciiUpper(c) then (c as int - 'A' as int + 'a' as int) as char else c
  }

  /** Lower-cases every character of `s`, keeping its length. */
  function Lower(s: string): (r: string)
    ensures |r| == |s|
    ensures forall i :: 0 <= i < |s| ==> r[i] == LowerChar(s[i])
    ensures forall i :: 0 <= i < |r| ==> !IsAsciiUpper(r[i])
  {
    if |s| == 0 then [] else [LowerChar(s[0])] + Lower(s[1..])
  }

  /** Folding twice is folding once: a folded string is its own fold. */
  lemma LowerIdempotent(s: string)
    ensures Lower(Lower(s)) == Lower(s)
  {
    var once := Lower(s);
    var twice := Lower(once);
    forall i | 0 <= i < |s|
      ensures twice[i] == once[i]
    {
      assert !IsAsciiUpper(once[i]);
    }
  }

  /** `pat` appears in `text` starting at position `i`. */
  ghost predicate OccursAt(text: string, pat: string, i: int) {
    0 <= i && i + |pat| <= |text| && text[i..i + |pat|] == pat
  }

  /** Shifting one character off the front of `text` moves every later
      occurrence one place to the left. */
  lemma OccursShift(text: string, pat: string)
    requires |text| > 0
    requires !OccursAt(text, pat, 0)
    ensures (exists i :: OccursAt(text, pat, i)) <==> (exists j :: OccursAt(text[1..], pat, j))
  {
    var tail := text[1..];
    if i :| OccursAt(text, pat, i) {
      assert i > 0;
      assert tail[i - 1..i - 1 + |pat|] == text[i..i + |pat|];
      assert OccursAt(tail, pat, i - 1);
    }
    if j :| OccursAt(tail, pat, j) {
      assert text[j + 1..j + 1 + |pat|] == tail[j..j + |pat|];
      assert OccursAt(text, pat, j + 1);
    }
  }

  /** Substring containment, the behaviour of `String.prototype.includes`:
      true exactly when `pat` occurs somewhere in `text` (the empty pattern
      occurs everywhere). */
  function Includes(text: string, pat: string): (r: bool)
    ensures r <==> exists i :: OccursAt(text, pat, i)
    decreases |text|
  {
    if |pat| > |text| then
      false
    else if text[..|pat|] == pat then
      assert OccursAt(text, pat, 0);
      true
    else
      OccursShift(text, pat);
      Includes(text[1..], pat)
  }

  /** The empty query is contained in every text. */
  lemma IncludesEmpty(text: string)
    ensures Includes(text, "")
  {
    assert OccursAt(text, "", 0);
  }
}
