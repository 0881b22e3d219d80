/** Character and string operations of Python's `str` type that the view
    registry relies on, restricted to ASCII letters: `isupper`, `lower`
    and `replace(old, '')`. */
module Text {

  /** `c.isupper()` for an ASCII character. */
  predicate IsUpper(c: char) {
    'A' <= c <= 'Z'
  }

  /** `c.lower()` for an ASCII character: upper-case letters move down by
      the distance between 'A' and 'a', every other character is kept. */
  function ToLower(c: char): (d: char)
    ensures !IsUpper(d)
    ensures IsUpper(c) ==> 'a' <= d <= 'z' && d as int - c as int == 'a' as int - 'A' as int
    ensures !IsUpper(c) ==> d == c
  {
    if IsUpper(c) then (c as int - 'A' as int + 'a' as int) as char else c
  }

  /** `s.lower()`, character by character. */
  function LowerString(s: string): (r: string)
    ensures |r| == |s|
    ensures forall i :: 0 <= i < |s| ==> r[i] == ToLower(s[i])
  {
    if s == [] then [] else LowerString(s[..|s| - 1]) + [ToLower(s[|s| - 1])]
  }

  /** Lower-casing twice is lower-casing once. */
  lemma LowerStringIdempotent(s: string)
    ensures LowerString(LowerString(s)) == LowerString(s)
  {
  }

  /** True when no character of `s` is an upper-case letter. */
  predicate NoUpper(s: string) {
    forall i :: 0 <= i < |s| ==> !IsUpper(s[i])
  }

  /** Number of upper-case letters in `s`. */
  function CountUpper(s: string): nat {
    if s == [] then 0 else CountUpper(s[..|s| - 1]) + (if IsUpper(s[|s| - 1]) then 1 else 0)
  }

  /** Number of occurrences of the character `c` in `s`. */
  function CountChar(s: string, c: char): nat {
    if s == [] then 0 else CountChar(s[..|s| - 1], c) + (if s[|s| - 1] == c then 1 else 0)
  }

  /** `s` with every occurrence of the character `c` deleted. */
  function Without(s: string, c: char): string {
    if s == [] then [] else Without(s[..|s| - 1], c) + (if s[|s| - 1] == c then [] else [s[|s| - 1]])
  }

  /** `s` with every occurrence of the character `a` replaced by `b`. */
  function Swap(s: string, a: char, b: char): (r: string)
    ensures |r| == |s|
  {
    if s == [] then [] else Swap(s[..|s| - 1], a, b) + [if s[|s| - 1] == a then b else s[|s| - 1]]
  }

  /** True when `pat` occurs in `s` starting at index `i`. */
  predicate OccursAt(s: string, pat: string, i: nat) {
    i + |pat| <= |s| && s[i..i + |pat|] == pat
  }

  /** `s.replace(pat, '')`: one scan from the left that drops each
      occurrence of `pat` it meets and resumes after it, so occurrences
      never overlap and the text that closes up is not scanned again. */
  function RemoveAll(s: string, pat: string): (r: string)
    requires |pat| > 0
    ensures |r| <= |s|
    decreases |s|
  {
    if s == [] then []
    else if OccursAt(s, pat, 0) then RemoveAll(s[|pat|..], pat)
    else [s[0]] + RemoveAll(s[1..], pat)
  }

  /** Removing a pattern that does not occur leaves the string as it is. */
  lemma {:induction false} RemoveAllAbsent(s: string, pat: string)
    requires |pat| > 0
    requires forall i: nat :: i < |s| ==> !OccursAt(s, pat, i)
    ensures RemoveAll(s, pat) == s
    decreases |s|
  {
    if s != [] {
      assert !OccursAt(s, pat, 0);
      forall i: nat | i < |s[1..]| ensures !OccursAt(s[1..], pat, i) {
        assert !OccursAt(s, pat, i + 1);
        if i + |pat| <= |s[1..]| {
          assert s[1..][i..i + |pat|] == s[i + 1..i + 1 + |pat|];
        }
      }
      RemoveAllAbsent(s[1..], pat);
    }
  }

  /** A leading stretch that does not contain the first character of the
      pattern is copied unchanged and the scan resumes after it; with the
      next lemma this evaluates the removal on concrete class names. */
  lemma {:induction false} RemoveAllKeepsPlain(a: string, b: string, pat: string)
    requires |pat| > 0
    requires forall i :: 0 <= i < |a| ==> a[i] != pat[0]
    ensures RemoveAll(a + b, pat) == a + RemoveAll(b, pat)
    decreases |a|
  {
    if a != [] {
      assert (a + b)[0] == a[0] != pat[0];
      assert !OccursAt(a + b, pat, 0);
      assert (a + b)[1..] == a[1..] + b;
      RemoveAllKeepsPlain(a[1..], b, pat);
      assert a == [a[0]] + a[1..];
    } else {
      assert a + b == b;
    }
  }

  /** An occurrence at the front is dropped and the scan resumes after it. */
  lemma RemoveAllDropsFront(b: string, pat: string)
    requires |pat| > 0
    ensures RemoveAll(pat + b, pat) == RemoveAll(b, pat)
  {
    assert OccursAt(pat + b, pat, 0) by { assert (pat + b)[0..|pat|] == pat; }
    assert (pat + b)[|pat|..] == b;
  }

  /** Because the scan does not look again at text that closes up, the
      result can still contain the pattern. */
  lemma RemoveAllSinglePass()
    ensures RemoveAll("VViewiew", "View") == "View"
    ensures OccursAt(RemoveAll("VViewiew", "View"), "View", 0)
  {
    var s := "VViewiew";
    assert !OccursAt(s, "View", 0) by { assert s[1] != "View"[1]; }
    assert s[1..] == "View" + "iew";
    RemoveAllDropsFront("iew", "View");
    RemoveAllKeepsPlain("iew", [], "View");
  }
}
