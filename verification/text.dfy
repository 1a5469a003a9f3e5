/** The string operations the resolvers rely on: `toLowerCase`, restricted
    to ASCII, and `includes`, the substring test. */
module Text {

  predicate IsUpper(c: char) {
    'A' <= c <= 'Z'
  }

  predicate IsLower(c: char) {
    'a' <= c <= 'z'
  }

  /** Lower-cases one character: ASCII capitals map to their small letter,
      every other character is kept. */
  function LowerChar(c: char): (r: char)
    ensures !IsUpper(r)
    ensures IsUpper(c) ==> IsLower(r) && r as int == c as int + 32
    ensures !IsUpper(c) ==> r == c
  {
    if IsUpper(c) then (c as int + 32) as char else c
  }

  /** `String.prototype.toLowerCase`, character by character. */
  function Lower(s: string): (r: string)
    ensures |r| == |s|
    ensures forall i :: 0 <= i < |s| ==> r[i] == LowerChar(s[i])
    ensures forall i :: 0 <= i < |r| ==> !IsUpper(r[i])
  {
    seq(|s|, i requires 0 <= i < |s| => LowerChar(s[i]))
  }

  /** Lower-casing twice is lower-casing once. */
  lemma LowerIdempotent(s: string)
    ensures Lower(Lower(s)) == Lower(s)
  {
  }

  /** Lower-casing commutes with taking a slice. */
  lemma LowerSlice(s: string, i: int, j: int)
    requires 0 <= i <= j <= |s|
    ensures Lower(s)[i..j] == Lower(s[i..j])
  {
  }

  /** `n` occurs in `h` starting at position `i`. */
  ghost predicate OccursAt(h: string, n: string, i: int) {
    0 <= i && i + |n| <= |h| && h[i..i + |n|] == n
  }

  /** `String.prototype.includes`: does `n` occur somewhere in `h`? */
  function Includes(h: string, n: string): (r: bool)
    ensures r <==> exists i :: OccursAt(h, n, i)
    decreases |h|
  {
    if |n| <= |h| && h[..|n|] == n then
      assert OccursAt(h, n, 0);
      true
    else if |h| == 0 then
      false
    else
      var r := Includes(h[1..], n);
      assert forall i :: OccursAt(h[1..], n, i) ==> OccursAt(h, n, i + 1) by {
        forall i | OccursAt(h[1..], n, i)
          ensures OccursAt(h, n, i + 1)
        {
          assert h[1..][i..i + |n|] == h[i + 1..i + 1 + |n|];
        }
      }
      assert forall i :: OccursAt(h, n, i) ==> OccursAt(h[1..], n, i - 1) by {
        forall i | OccursAt(h, n, i)
          ensures OccursAt(h[1..], n, i - 1)
        {
          assert i != 0;
          assert h[1..][i - 1..i - 1 + |n|] == h[i..i + |n|];
        }
      }
      r
  }

  /** The empty string occurs in every string. */
  lemma IncludesEmpty(h: string)
    ensures Includes(h, "")
  {
  }

  /** A match survives lower-casing both sides: whatever is found with the
      raw text is also found case-insensitively. */
  lemma IncludesLower(h: string, n: string)
    requires Includes(h, n)
    ensures Includes(Lower(h), Lower(n))
  {
    var i :| OccursAt(h, n, i);
    LowerSlice(h, i, i + |n|);
    assert OccursAt(Lower(h), Lower(n), i);
  }

  /** A needle holding a small letter at position `k` cannot occur in a text
      that has no small letters at all. */
  lemma IncludesNeedsLowerLetter(h: string, n: string, k: int)
    requires 0 <= k < |n| && IsLower(n[k])
    requires forall j :: 0 <= j < |h| ==> !IsLower(h[j])
    ensures !Includes(h, n)
  {
  }
}
