/** The two string built-ins the webhook relies on: `str.lower()` (restricted
    to ASCII letters) and the substring test `k in s`. */
module Text {

  predicate IsAsciiUpper(c: char) {
    'A' <= c <= 'Z'
  }

  /** A string with no upper-case ASCII letter. */
  predicate IsLower(s: string) {
    forall i :: 0 <= i < |s| ==> !IsAsciiUpper(s[i])
  }

  /** Lower-cases one character: 'A'..'Z' become 'a'..'z', everything else is kept. */
  function LowerChar(c: char): (r: char)
    ensures !IsAsciiUpper(r)
    ensures IsAsciiUpper(c) <==> r != c
    ensures IsAsciiUpper(c) ==> 'a' <= r <= 'z'
    ensures IsAsciiUpper(c) ==> r as int - 'a' as int == c as int - 'A' as int
  {
    if IsAsciiUpper(c) then (c as int - 'A' as int + 'a' as int) as char else c
  }

  /** `s.lower()` on ASCII letters. */
  function ToLower(s: string): (r: string)
    ensures |r| == |s|
  {
    if s == [] then [] else [LowerChar(s[0])] + ToLower(s[1..])
  }

  /** Lower-casing acts on each character on its own. */
  lemma {:induction false} ToLowerAt(s: string)
    ensures forall i :: 0 <= i < |s| ==> ToLower(s)[i] == LowerChar(s[i])
  {
    if s != [] {
      ToLowerAt(s[1..]);
      forall i | 1 <= i < |s| ensures ToLower(s)[i] == LowerChar(s[i]) {
        assert ToLower(s)[i] == ToLower(s[1..])[i - 1];
      }
    }
  }

  /** The result has no upper-case ASCII letter left. */
  lemma ToLowerIsLower(s: string)
    ensures IsLower(ToLower(s))
  {
    ToLowerAt(s);
  }

  /** A string that is already lower-case is left as it is. */
  lemma ToLowerFixesLower(s: string)
    requires IsLower(s)
    ensures ToLower(s) == s
  {
    ToLowerAt(s);
    var r := ToLower(s);
    forall i | 0 <= i < |s| ensures r[i] == s[i] {
      assert !IsAsciiUpper(s[i]);
    }
  }

  /** Lower-casing twice is lower-casing once. */
  lemma ToLowerIdempotent(s: string)
    ensures ToLower(ToLower(s)) == ToLower(s)
  {
    ToLowerIsLower(s);
    ToLowerFixesLower(ToLower(s));
  }

  /** Lower-casing works piecewise on a concatenation. */
  lemma ToLowerAppend(a: string, b: string)
    ensures ToLower(a + b) == ToLower(a) + ToLower(b)
  {
    ToLowerAt(a + b);
    ToLowerAt(a);
    ToLowerAt(b);
    var l, r := ToLower(a + b), ToLower(a) + ToLower(b);
    forall i | 0 <= i < |a + b| ensures l[i] == r[i] {
      if i < |a| {
        assert (a + b)[i] == a[i];
      } else {
        assert (a + b)[i] == b[i - |a|];
      }
    }
  }

  /** `k` occurs in `s` starting at index `i`. */
  predicate OccursAt(k: string, s: string, i: int) {
    0 <= i && i + |k| <= |s| && s[i..i + |k|] == k
  }

  /** The meaning of Python's `k in s` on strings: `k` is a contiguous slice of `s`. */
  ghost predicate IsSubstring(k: string, s: string) {
    exists i :: OccursAt(k, s, i)
  }

  /** An occurrence either starts at the front of `s` or lies wholly in `s[1..]`. */
  lemma SubstringStep(k: string, s: string)
    requires |k| <= |s| && 0 < |s|
    ensures IsSubstring(k, s) <==> s[..|k|] == k || IsSubstring(k, s[1..])
  {
    if IsSubstring(k, s) {
      var i :| OccursAt(k, s, i);
      if 0 < i {
        assert s[1..][i - 1..i - 1 + |k|] == s[i..i + |k|];
        assert OccursAt(k, s[1..], i - 1);
      }
    }
    if s[..|k|] == k {
      assert OccursAt(k, s, 0);
    }
    if IsSubstring(k, s[1..]) {
      var j :| OccursAt(k, s[1..], j);
      assert s[j + 1..j + 1 + |k|] == s[1..][j..j + |k|];
      assert OccursAt(k, s, j + 1);
    }
  }

  /** `k in s`: scans `s` from the left for an occurrence of `k`; the empty
      string occurs in every string, as in Python. */
  function Contains(s: string, k: string): bool
    decreases |s|
  {
    if |s| < |k| then false
    else if s[..|k|] == k then true
    else if s == [] then false
    else Contains(s[1..], k)
  }

  /** The scan finds `k` exactly when `k` is a substring of `s`. */
  lemma {:induction false} ContainsCorrect(s: string, k: string)
    ensures Contains(s, k) <==> IsSubstring(k, s)
    decreases |s|
  {
    if |s| < |k| {
    } else if s[..|k|] == k {
      assert OccursAt(k, s, 0);
    } else if s == [] {
    } else {
      SubstringStep(k, s);
      ContainsCorrect(s[1..], k);
    }
  }

  /** A keyword is found wherever it sits, including inside a longer word:
      matching is by substring, not by token. */
  lemma SubstringEmbedded(p: string, k: string, q: string)
    ensures IsSubstring(k, p + k + q)
  {
    assert (p + k + q)[|p|..|p| + |k|] == k;
    assert OccursAt(k, p + k + q, |p|);
  }

  /** A string that lacks some character of `k` cannot contain `k`. */
  lemma MissingCharNotSubstring(k: string, s: string, c: char)
    requires c in k && c !in s
    ensures !IsSubstring(k, s)
  {
    var j :| 0 <= j < |k| && k[j] == c;
    forall i | 0 <= i ensures !OccursAt(k, s, i) {
      if i + |k| <= |s| { assert s[i..i + |k|][j] == s[i + j]; }
    }
  }
}
