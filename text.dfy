/** String primitives that the field validators of server/models.py rely on:
    Python's str.strip(), str.isdigit() and the substring test `sub in s`.
    Characters are Unicode scalar values, so |s| agrees with Python's len(). */
module Text {

  /** The ASCII characters Python's str.strip() removes when called without
      arguments: tab, line feed, vertical tab, form feed, carriage return,
      the four separators 0x1C..0x1F, and the space. */
  predicate IsSpace(c: char) {
    c == ' ' || ('\t' <= c <= '\r') || ('\U{1C}' <= c <= '\U{1F}')
  }

  /** Every character of s is whitespace (true of the empty string). */
  ghost predicate AllSpace(s: string) {
    forall i :: 0 <= i < |s| ==> IsSpace(s[i])
  }

  /** s with its leading whitespace removed: a suffix of s that is empty or
      starts with a non-space character, everything before it whitespace. */
  function StripLeft(s: string): (r: string)
    ensures |r| <= |s| && r == s[|s| - |r|..]
    ensures AllSpace(s[..|s| - |r|])
    ensures r != [] ==> !IsSpace(r[0])
  {
    if |s| > 0 && IsSpace(s[0]) then
      var r := StripLeft(s[1..]);
      assert s[..|s| - |r|] == [s[0]] + s[1..][..|s| - 1 - |r|];
      r
    else s
  }

  /** s with its trailing whitespace removed: a prefix of s that is empty or
      ends with a non-space character, everything after it whitespace. */
  function StripRight(s: string): (r: string)
    ensures |r| <= |s| && r == s[..|r|]
    ensures AllSpace(s[|r|..])
    ensures r != [] ==> !IsSpace(r[|r| - 1])
  {
    if |s| > 0 && IsSpace(s[|s| - 1]) then
      var front := s[..|s| - 1];
      var r := StripRight(front);
      assert s[|r|..] == front[|r|..] + [s[|s| - 1]];
      r
    else s
  }

  /** Python's s.strip(): a contiguous piece of s with no whitespace at
      either end, everything before and after it whitespace. */
  function Strip(s: string): (r: string)
    ensures exists i :: OccursAt(s, r, i) && AllSpace(s[..i]) && AllSpace(s[i + |r|..])
    ensures r != [] ==> !IsSpace(r[0]) && !IsSpace(r[|r| - 1])
  {
    var left := StripLeft(s);
    var r := StripRight(left);
    var i := |s| - |left|;
    SliceOfSuffix(s, i, |r|);
    assert OccursAt(s, r, i);
    r
  }

  /** Slicing a suffix of s is slicing s at shifted positions. */
  lemma SliceOfSuffix(s: string, i: nat, n: nat)
    requires i + n <= |s|
    ensures s[i..][..n] == s[i..i + n]
    ensures s[i..][n..] == s[i + n..]
  {
  }

  lemma StripLeftEmptyIff(s: string)
    ensures StripLeft(s) == [] <==> AllSpace(s)
  {
    var r := StripLeft(s);
    assert s[..|s|] == s;
    if r != [] {
      assert r[0] == s[|s| - |r|];
    }
  }

  lemma StripRightEmptyIff(s: string)
    ensures StripRight(s) == [] <==> AllSpace(s)
  {
    var r := StripRight(s);
    assert s[0..] == s;
    if r != [] {
      assert r[|r| - 1] == s[|r| - 1];
    }
  }

  /** s.strip() == "" exactly when s consists of whitespace only. */
  lemma StripEmptyIff(s: string)
    ensures Strip(s) == [] <==> AllSpace(s)
  {
    var left := StripLeft(s);
    StripLeftEmptyIff(s);
    StripRightEmptyIff(left);
  }

  /** A decimal digit as the model reads Python's str.isdigit(). */
  predicate IsDigit(c: char) {
    '0' <= c <= '9'
  }

  /** Python's s.isdigit(): false on the empty string, otherwise true when
      every character is a digit. */
  predicate IsDigitString(s: string) {
    |s| > 0 && forall i :: 0 <= i < |s| ==> IsDigit(s[i])
  }

  /** sub occurs in s starting at position i. */
  predicate OccursAt(s: string, sub: string, i: int) {
    0 <= i <= |s| - |sub| && s[i..i + |sub|] == sub
  }

  /** sub occurs as a contiguous piece of s (reference definition). */
  ghost predicate Occurs(s: string, sub: string) {
    exists i :: OccursAt(s, sub, i)
  }

  /** Python's `sub in s` on strings, tried position by position. */
  function Contains(s: string, sub: string): (r: bool)
    ensures r ==> |sub| <= |s|
  {
    sub <= s || (|s| > 0 && Contains(s[1..], sub))
  }

  /** An occurrence in s[1..] at i is an occurrence in s at i + 1. */
  lemma OccursAtShift(s: string, sub: string, i: int)
    requires |s| > 0 && 0 <= i
    ensures OccursAt(s[1..], sub, i) <==> OccursAt(s, sub, i + 1)
  {
    if 0 <= i <= |s| - 1 - |sub| {
      assert s[1..][i..i + |sub|] == s[i + 1..i + 1 + |sub|];
    }
  }

  /** The position-by-position search agrees with the reference definition:
      it finds sub exactly when sub occurs somewhere in s. */
  lemma {:induction false} ContainsIffOccurs(s: string, sub: string)
    ensures Contains(s, sub) <==> Occurs(s, sub)
  {
    if sub <= s {
      assert OccursAt(s, sub, 0);
    } else if |s| == 0 {
      assert |sub| > 0;
    } else {
      var tail := s[1..];
      ContainsIffOccurs(tail, sub);
      if Occurs(tail, sub) {
        var i :| OccursAt(tail, sub, i);
        OccursAtShift(s, sub, i);
      }
      assert !OccursAt(s, sub, 0);
      if Occurs(s, sub) {
        var j :| OccursAt(s, sub, j);
        OccursAtShift(s, sub, j - 1);
      }
    }
  }

  /** A non-empty sub whose first character appears nowhere in s does not
      occur in s. */
  lemma FirstCharAbsent(s: string, sub: string)
    requires |sub| > 0
    requires forall i :: 0 <= i < |s| ==> s[i] != sub[0]
    ensures !Contains(s, sub)
  {
    ContainsIffOccurs(s, sub);
    forall i | 0 <= i <= |s| - |sub| ensures !OccursAt(s, sub, i) {
      assert s[i..i + |sub|][0] == s[i];
    }
  }
}
