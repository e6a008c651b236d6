/** The two functions of Go's `strings` package that `Convert` relies on:
    `strings.TrimSpace` and `strings.ContainsFunc`. A string is the sequence of
    its decoded runes. Which runes count as white space is a parameter
    (`isSpace`), standing for `unicode.IsSpace`. */
module GoStrings {

  /** Every rune of `s` is white space (vacuously true of the empty string). */
  predicate AllSpace(isSpace: char -> bool, s: string)
  {
    forall k :: 0 <= k < |s| ==> isSpace(s[k])
  }

  /** Every rune of `s` at an index in [lo, hi) is white space. `AllSpace(isSpace, s)`
      is the same as `SpaceBetween(isSpace, s, 0, |s|)`; the index form is kept
      for the two trimming cuts because it lets the solver match `s[k]` directly
      instead of going through a slice. */
  predicate SpaceBetween(isSpace: char -> bool, s: string, lo: nat, hi: nat)
    requires hi <= |s|
  {
    forall k :: lo <= k < hi ==> isSpace(s[k])
  }

  /** `s` neither starts nor ends with white space: the shape of a trimmed string. */
  predicate Trimmed(isSpace: char -> bool, s: string)
  {
    s == [] || (!isSpace(s[0]) && !isSpace(s[|s| - 1]))
  }

  /** `strings.ContainsFunc(s, f)`: some rune of `s` satisfies `f`. */
  function ContainsFunc(s: string, f: char -> bool): (r: bool)
    ensures r <==> exists k :: 0 <= k < |s| && f(s[k])
  {
    if s == [] then false
    else if f(s[0]) then true
    else
      var rest := ContainsFunc(s[1..], f);
      assert forall k :: 1 <= k < |s| ==> s[k] == s[1..][k - 1];
      rest
  }

  /** Index of the first rune of `s` that is not white space (`|s|` if none):
      where `strings.TrimLeftFunc` cuts. */
  function FirstNonSpace(isSpace: char -> bool, s: string): (i: nat)
    ensures i <= |s|
    ensures SpaceBetween(isSpace, s, 0, i)
    ensures i < |s| ==> !isSpace(s[i])
  {
    if s == [] || !isSpace(s[0]) then 0
    else
      var i := 1 + FirstNonSpace(isSpace, s[1..]);
      assert forall k :: 1 <= k < |s| ==> s[k] == s[1..][k - 1];
      i
  }

  /** Index just past the last rune of `s` that is not white space (0 if none):
      where `strings.TrimRightFunc` cuts. */
  function EndNonSpace(isSpace: char -> bool, s: string): (j: nat)
    ensures j <= |s|
    ensures SpaceBetween(isSpace, s, j, |s|)
    ensures j > 0 ==> !isSpace(s[j - 1])
  {
    if s == [] || !isSpace(s[|s| - 1]) then |s|
    else
      var j := EndNonSpace(isSpace, s[..|s| - 1]);
      assert forall k :: 0 <= k < |s| - 1 ==> s[k] == s[..|s| - 1][k];
      j
  }

  /** `strings.TrimSpace(s)`: `s` with leading and trailing white space removed,
      computed as Go's `TrimFunc` does, left end first, then right end. The result
      has no white space at either end, and it is empty exactly when `s` is all
      white space. */
  function TrimSpace(isSpace: char -> bool, s: string): (r: string)
    ensures Trimmed(isSpace, r)
    ensures r == [] <==> AllSpace(isSpace, s)
  {
    var i := FirstNonSpace(isSpace, s);
    var left := s[i..];
    var j := EndNonSpace(isSpace, left);
    assert i < |s| ==> left[0] == s[i] && !AllSpace(isSpace, s);
    assert i == |s| ==> AllSpace(isSpace, s);
    assert j == 0 <==> left == [];
    left[..j]
  }

  /** `FirstNonSpace` is determined by the two properties its contract states. */
  lemma FirstNonSpaceUnique(isSpace: char -> bool, s: string, i: nat)
    requires i <= |s| && SpaceBetween(isSpace, s, 0, i)
    requires i < |s| ==> !isSpace(s[i])
    ensures FirstNonSpace(isSpace, s) == i
  {
  }

  /** `EndNonSpace` is determined by the two properties its contract states. */
  lemma EndNonSpaceUnique(isSpace: char -> bool, s: string, j: nat)
    requires j <= |s| && SpaceBetween(isSpace, s, j, |s|)
    requires j > 0 ==> !isSpace(s[j - 1])
    ensures EndNonSpace(isSpace, s) == j
  {
  }

  /** White space followed by white space is white space. */
  lemma AllSpaceConcat(isSpace: char -> bool, x: string, y: string)
    requires AllSpace(isSpace, x) && AllSpace(isSpace, y)
    ensures AllSpace(isSpace, x + y)
  {
    forall k | 0 <= k < |x + y| ensures isSpace((x + y)[k]) {
      if k >= |x| { assert (x + y)[k] == y[k - |x|]; }
    }
  }

  /** Trimming strips exactly the white-space padding: a string with no white
      space at its ends, padded on both sides with white space only, trims back
      to itself. */
  lemma {:induction false} TrimPadded(isSpace: char -> bool, p: string, m: string, q: string)
    requires AllSpace(isSpace, p) && AllSpace(isSpace, q)
    requires Trimmed(isSpace, m)
    ensures TrimSpace(isSpace, p + m + q) == m
  {
    var s := p + m + q;
    if m == [] {
      AllSpaceConcat(isSpace, p, q);
      assert s == p + q;
    } else {
      assert forall k :: 0 <= k < |p| ==> s[k] == p[k];
      assert s[|p|] == m[0];
      FirstNonSpaceUnique(isSpace, s, |p|);
      var left := s[|p|..];
      assert left == m + q;
      assert forall k :: |m| <= k < |left| ==> left[k] == q[k - |m|];
      assert left[|m| - 1] == m[|m| - 1];
      EndNonSpaceUnique(isSpace, left, |m|);
      assert left[..|m|] == m;
    }
  }

  /** Trimming twice is trimming once. */
  lemma TrimSpaceIdempotent(isSpace: char -> bool, s: string)
    ensures TrimSpace(isSpace, TrimSpace(isSpace, s)) == TrimSpace(isSpace, s)
  {
    var t := TrimSpace(isSpace, s);
    TrimPadded(isSpace, [], t, []);
    assert [] + t + [] == t;
  }

  /** What `TrimSpace` removes is white space, at the two ends of `s` only:
      `s` is the trimmed string between a white-space prefix and a white-space
      suffix. */
  lemma TrimSpaceParts(isSpace: char -> bool, s: string) returns (lead: string, tail: string)
    ensures AllSpace(isSpace, lead) && AllSpace(isSpace, tail)
    ensures s == lead + TrimSpace(isSpace, s) + tail
  {
    var i := FirstNonSpace(isSpace, s);
    var left := s[i..];
    var j := EndNonSpace(isSpace, left);
    var e := i + j;
    lead, tail := s[..i], s[e..];
    assert AllSpace(isSpace, lead) by {
      assert forall k :: 0 <= k < i ==> lead[k] == s[k];
    }
    assert AllSpace(isSpace, tail) by {
      assert forall k :: 0 <= k < |tail| ==> tail[k] == left[j + k];
    }
    assert TrimSpace(isSpace, s) == s[i..e];
    SplitAt(s, i, e);
  }

  /** A string is the concatenation of its three parts around two cut points. */
  lemma SplitAt(s: string, i: nat, j: nat)
    requires i <= j <= |s|
    ensures s == s[..i] + s[i..j] + s[j..]
  {
    assert s[..j] == s[..i] + s[i..j];
    assert s == s[..j] + s[j..];
  }

  /** White space added at either end of a string does not change its trimmed form. */
  lemma TrimSpacePadding(isSpace: char -> bool, p: string, s: string, q: string)
    requires AllSpace(isSpace, p) && AllSpace(isSpace, q)
    ensures TrimSpace(isSpace, p + s + q) == TrimSpace(isSpace, s)
  {
    var t := TrimSpace(isSpace, s);
    var lead, tail := TrimSpaceParts(isSpace, s);
    AllSpaceConcat(isSpace, p, lead);
    AllSpaceConcat(isSpace, tail, q);
    assert p + s + q == (p + lead) + t + (tail + q);
    TrimPadded(isSpace, p + lead, t, tail + q);
  }
}
