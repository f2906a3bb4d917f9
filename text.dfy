/**
 * ASCII text primitives behind the header clean-up of a dashboard table:
 * whitespace stripping as Python's `str.strip()` does it, removal of one
 * character as `str.replace(c, '')` does it, upper-casing, and the
 * code-point order Python uses to compare strings.
 */
module Text {

  /** Whitespace as Python's `str.isspace` sees it, restricted to ASCII:
      space, `\t \n \v \f \r` (9-13) and the separators 28-31. */
  predicate IsSpace(c: char) {
    c == ' ' || 9 <= c as int <= 13 || 28 <= c as int <= 31
  }

  predicate IsLower(c: char) {
    'a' <= c <= 'z'
  }

  ghost predicate AllSpace(s: string) {
    forall i :: 0 <= i < |s| ==> IsSpace(s[i])
  }

  /** The length of the longest all-whitespace prefix of `s`. */
  function LeadingSpaces(s: string): (k: nat)
    ensures k <= |s|
    ensures AllSpace(s[..k])
    ensures k < |s| ==> !IsSpace(s[k])
  {
    if |s| > 0 && IsSpace(s[0]) then
      var k := 1 + LeadingSpaces(s[1..]);
      assert forall i :: 1 <= i < k ==> s[i] == s[1..][i - 1];
      k
    else
      0
  }

  /** The length of the longest all-whitespace suffix of `s`. */
  function TrailingSpaces(s: string): (k: nat)
    ensures k <= |s|
    ensures forall i :: |s| - k <= i < |s| ==> IsSpace(s[i])
    ensures k < |s| ==> !IsSpace(s[|s| - 1 - k])
  {
    if |s| > 0 && IsSpace(s[|s| - 1]) then
      var p := s[..|s| - 1];
      1 + TrailingSpaces(p)
    else
      0
  }

  /** `str.strip()`: the result is a contiguous piece of `s` that neither
      starts nor ends with whitespace, and only whitespace was cut off. */
  function Strip(s: string): (r: string)
    ensures |r| <= |s|
    ensures |r| > 0 ==> !IsSpace(r[0]) && !IsSpace(r[|r| - 1])
    ensures exists i :: 0 <= i <= |s| - |r| && r == s[i..i + |r|] && AllSpace(s[..i]) && AllSpace(s[i + |r|..])
  {
    var i := LeadingSpaces(s);
    var t := s[i..];
    var m := TrailingSpaces(t);
    var r := t[..|t| - m];
    StripPieces(s, i, t, m, r);
    r
  }

  /** Cutting `i` leading and `m` trailing whitespace characters off `s`
      leaves a piece that neither starts nor ends with whitespace. */
  lemma StripPieces(s: string, i: nat, t: string, m: nat, r: string)
    requires i <= |s| && AllSpace(s[..i]) && (i < |s| ==> !IsSpace(s[i]))
    requires t == s[i..] && m <= |t| && r == t[..|t| - m]
    requires forall j :: |t| - m <= j < |t| ==> IsSpace(t[j])
    requires m < |t| ==> !IsSpace(t[|t| - 1 - m])
    ensures |r| <= |s|
    ensures |r| > 0 ==> !IsSpace(r[0]) && !IsSpace(r[|r| - 1])
    ensures exists k :: 0 <= k <= |s| - |r| && r == s[k..k + |r|] && AllSpace(s[..k]) && AllSpace(s[k + |r|..])
  {
    assert r == s[i..i + |r|];
    var tail := s[i + |r|..];
    assert forall j :: 0 <= j < |tail| ==> tail[j] == t[|t| - m + j];
  }

  /** `str.replace(c, '')`: every `c` is deleted, every other character is kept. */
  function Remove(s: string, c: char): (r: string)
    ensures |r| <= |s|
    ensures c !in r
    ensures forall x :: x in r <==> x in s && x != c
    ensures |s| > 0 && s[0] != c ==> |r| > 0 && r[0] == s[0]
    ensures |s| > 0 && s[|s| - 1] != c ==> |r| > 0 && r[|r| - 1] == s[|s| - 1]
  {
    if |s| == 0 then
      ""
    else
      assert s == [s[0]] + s[1..];
      (if s[0] == c then "" else [s[0]]) + Remove(s[1..], c)
  }

  /** A string without `c` is left as it is. */
  lemma {:induction false} RemoveAbsent(s: string, c: char)
    requires c !in s
    ensures Remove(s, c) == s
  {
    if |s| > 0 {
      assert s == [s[0]] + s[1..];
      RemoveAbsent(s[1..], c);
    }
  }

  /** Every character other than `c` is kept as often as it occurs. */
  lemma {:induction false} RemoveCount(s: string, c: char)
    ensures multiset(Remove(s, c)) == multiset(s)[c := 0]
  {
    if |s| > 0 {
      assert s == [s[0]] + s[1..];
      RemoveCount(s[1..], c);
    }
  }

  /** Removing from a concatenation removes from each part, so the kept
      characters stay in their order. */
  lemma {:induction false} RemoveConcat(a: string, b: string, c: char)
    ensures Remove(a + b, c) == Remove(a, c) + Remove(b, c)
  {
    if |a| == 0 {
      assert a + b == b;
    } else {
      assert a == [a[0]] + a[1..];
      assert a + b == [a[0]] + (a[1..] + b);
      var head := if a[0] == c then "" else [a[0]];
      calc {
        Remove(a + b, c);
      == { RemoveCons(a[0], a[1..] + b, c); }
        head + Remove(a[1..] + b, c);
      == { RemoveConcat(a[1..], b, c); }
        head + (Remove(a[1..], c) + Remove(b, c));
      ==
        (head + Remove(a[1..], c)) + Remove(b, c);
      == { RemoveCons(a[0], a[1..], c); }
        Remove(a, c) + Remove(b, c);
      }
    }
  }

  /** One step of the removal: the first character is kept unless it is `c`. */
  lemma RemoveCons(x: char, s: string, c: char)
    ensures Remove([x] + s, c) == (if x == c then "" else [x]) + Remove(s, c)
  {
    var u := [x] + s;
    assert u[0] == x && u[1..] == s;
  }

  /** `str.upper()` on one ASCII character. */
  function UpperChar(c: char): (u: char)
    ensures !IsLower(u)
    ensures IsLower(c) ==> 'A' <= u <= 'Z' && u as int == c as int - 32
    ensures !IsLower(c) ==> u == c
  {
    if IsLower(c) then (c as int - 32) as char else c
  }

  /** Two removals in a row: neither character is left, and an end
      character that is neither of them stays where it was. */
  lemma RemoveTwice(s: string, a: char, b: char)
    ensures a !in Remove(Remove(s, a), b) && b !in Remove(Remove(s, a), b)
    ensures |s| > 0 && s[0] != a && s[0] != b ==>
      |Remove(Remove(s, a), b)| > 0 && Remove(Remove(s, a), b)[0] == s[0]
    ensures |s| > 0 && s[|s| - 1] != a && s[|s| - 1] != b ==>
      var r := Remove(Remove(s, a), b); |r| > 0 && r[|r| - 1] == s[|s| - 1]
  {
    var t := Remove(s, a);
  }

  /** `str.upper()` on ASCII: lower-case letters become upper-case, nothing else changes. */
  function Upper(s: string): (r: string)
    ensures |r| == |s|
    ensures forall i :: 0 <= i < |r| ==> !IsLower(r[i])
    ensures forall i :: 0 <= i < |s| && !IsLower(s[i]) ==> r[i] == s[i]
    ensures forall i :: 0 <= i < |s| && IsLower(s[i]) ==> 'A' <= r[i] <= 'Z' && r[i] as int == s[i] as int - 32
  {
    seq(|s|, i requires 0 <= i < |s| => UpperChar(s[i]))
  }

  /** A string with no whitespace at either end is its own strip. */
  lemma StripFixed(s: string)
    requires |s| > 0 ==> !IsSpace(s[0]) && !IsSpace(s[|s| - 1])
    ensures Strip(s) == s
  {
    assert LeadingSpaces(s) == 0;
    assert s[0..] == s;
    assert TrailingSpaces(s) == 0;
  }

  /** A string with no ASCII lower-case letter is its own upper-case form. */
  lemma UpperFixed(s: string)
    requires forall i :: 0 <= i < |s| ==> !IsLower(s[i])
    ensures Upper(s) == s
  {
  }

  /** Python's string comparison `a < b`: lexicographic by code point, a
      proper prefix coming first. */
  predicate StrLess(a: string, b: string)
    decreases |a|
  {
    |b| > 0 && (|a| == 0 || a[0] < b[0] || (a[0] == b[0] && StrLess(a[1..], b[1..])))
  }

  /** No string comes before itself. */
  lemma {:induction false} StrLessIrreflexive(a: string)
    ensures !StrLess(a, a)
  {
    if |a| > 0 {
      StrLessIrreflexive(a[1..]);
    }
  }

  /** The string order is transitive. */
  lemma {:induction false} StrLessTransitive(a: string, b: string, c: string)
    requires StrLess(a, b) && StrLess(b, c)
    ensures StrLess(a, c)
  {
    if |a| > 0 && a[0] == b[0] && b[0] == c[0] {
      StrLessTransitive(a[1..], b[1..], c[1..]);
    }
  }

  /** A proper prefix comes before the longer string. */
  lemma {:induction false} StrLessPrefix(a: string, b: string)
    requires |b| > 0
    ensures StrLess(a, a + b)
  {
    if |a| > 0 {
      assert (a + b)[0] == a[0] && (a + b)[1..] == a[1..] + b;
      StrLessPrefix(a[1..], b);
    }
  }

  /** Any two different strings are ordered one way or the other. */
  lemma {:induction false} StrLessTotal(a: string, b: string)
    requires a != b
    ensures StrLess(a, b) || StrLess(b, a)
  {
    if |a| > 0 && |b| > 0 && a[0] == b[0] {
      assert a == [a[0]] + a[1..] && b == [b[0]] + b[1..];
      StrLessTotal(a[1..], b[1..]);
    }
  }
}
