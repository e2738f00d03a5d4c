/** String search as the stream scanner uses it: leftmost occurrence of a pattern, and the longest
    suffix of a text that could still grow into a pattern. */
module Matching {

  /** p occurs in s at index i. */
  predicate OccursAt(s: string, p: string, i: int) {
    0 <= i && i + |p| <= |s| && s[i..i + |p|] == p
  }

  ghost predicate Occurs(s: string, p: string) {
    exists i :: OccursAt(s, p, i)
  }

  /** Leftmost occurrence of p in s, or -1. */
  function Find(s: string, p: string): (r: int)
    ensures r == -1 || OccursAt(s, p, r)
  {
    FindFrom(s, p, 0)
  }

  function FindFrom(s: string, p: string, from: nat): (r: int)
    requires from <= |s|
    ensures r == -1 || (from <= r && OccursAt(s, p, r))
    decreases |s| - from
  {
    if OccursAt(s, p, from) then from
    else if from == |s| then -1
    else FindFrom(s, p, from + 1)
  }

  /** No occurrence begins before the one found, and none is missed. */
  lemma FindIsLeftmost(s: string, p: string, i: int)
    requires OccursAt(s, p, i)
    ensures 0 <= Find(s, p) <= i
  {
    FindFromIsLeftmost(s, p, 0, i);
  }

  lemma {:induction false} FindFromIsLeftmost(s: string, p: string, from: nat, i: int)
    requires OccursAt(s, p, i) && from <= i
    ensures 0 <= FindFrom(s, p, from) <= i
    decreases i - from
  {
    if !OccursAt(s, p, from) {
      FindFromIsLeftmost(s, p, from + 1, i);
    }
  }

  /** The last k characters of text are a proper prefix of target. */
  predicate IsOverlap(text: string, target: string, k: int) {
    k == 0 || (0 < k <= |text| && k < |target| && text[|text| - k..] == target[..k])
  }

  /** Length of the longest suffix of text that is a proper prefix of target. */
  function SuffixOverlap(text: string, target: string): (r: nat)
    ensures IsOverlap(text, target, r)
  {
    OverlapUpTo(text, target, |text|)
  }

  function OverlapUpTo(text: string, target: string, bound: nat): (r: nat)
    ensures IsOverlap(text, target, r)
  {
    if IsOverlap(text, target, bound) then bound else OverlapUpTo(text, target, bound - 1)
  }

  /** No overlap is longer than the one found. */
  lemma OverlapIsLongest(text: string, target: string, k: int)
    requires IsOverlap(text, target, k)
    ensures k <= SuffixOverlap(text, target)
  {
    OverlapUpToIsLongest(text, target, |text|, k);
  }

  lemma {:induction false} OverlapUpToIsLongest(text: string, target: string, bound: nat, k: int)
    requires IsOverlap(text, target, k) && k <= bound
    ensures k <= OverlapUpTo(text, target, bound)
  {
    if !IsOverlap(text, target, bound) {
      OverlapUpToIsLongest(text, target, bound - 1, k);
    }
  }

  /** An occurrence that ends inside a prefix is an occurrence in that prefix. */
  lemma OccursInPrefix(a: string, b: string, p: string, i: int)
    requires i + |p| <= |a|
    ensures OccursAt(a + b, p, i) <==> OccursAt(a, p, i)
  {
    if 0 <= i {
      assert (a + b)[i..i + |p|] == a[i..i + |p|];
    }
  }

  /** An occurrence in x + y from |x| on is an occurrence in y, shifted. */
  lemma OccursInSuffix(x: string, y: string, p: string, i: int)
    requires 0 <= i
    ensures OccursAt(x + y, p, |x| + i) <==> OccursAt(y, p, i)
  {
    if i + |p| <= |y| {
      assert (x + y)[|x| + i..|x| + i + |p|] == y[i..i + |p|];
    }
  }

  /** A match x that lies inside a match y, and ends before y does, occurs in y without its last
      character. */
  lemma NestedMatch(s: string, x: string, y: string, p: int, q: int)
    requires OccursAt(s, x, p) && OccursAt(s, y, q)
    requires q <= p && p + |x| < q + |y|
    ensures OccursAt(y[..|y| - 1], x, p - q)
  {
    var d := p - q;
    forall k | 0 <= k < |x|
      ensures y[d + k] == x[k]
    {
      assert s[p..p + |x|][k] == s[p + k];
      assert s[q..q + |y|][d + k] == s[p + k];
    }
    assert y[..|y| - 1][d..d + |x|] == x;
  }

  /** A match that begins in a and does not end in a makes the part in a an overlap of a. */
  lemma CrossingMatchOverlaps(a: string, b: string, p: string, q: int)
    requires OccursAt(a + b, p, q) && q < |a| < q + |p|
    ensures IsOverlap(a, p, |a| - q)
  {
    var k := |a| - q;
    assert p[..k] == (a + b)[q..q + |p|][..k] == a[q..];
  }

  /** An overlap no longer than y is an overlap of y alone. */
  lemma OverlapOfSuffix(x: string, y: string, p: string, k: int)
    requires k <= |y|
    ensures IsOverlap(x + y, p, k) <==> IsOverlap(y, p, k)
  {
    if 0 <= k {
      assert (x + y)[|x + y| - k..] == y[|y| - k..];
    }
  }

  /** An overlap that reaches back over b leaves an overlap of a. */
  lemma OverlapShortened(a: string, b: string, p: string, k: int)
    requires IsOverlap(a + b, p, k) && |b| <= k
    ensures IsOverlap(a, p, k - |b|)
  {
    var m := k - |b|;
    if m > 0 {
      assert p[..k][..m] == p[..m];
      assert (a + b)[|a + b| - k..][..m] == a[|a| - m..];
    }
  }

  /** Cutting a text right after an occurrence keeps the occurrence. */
  lemma OccursInCut(text: string, p: string, i: int)
    requires text != "" && OccursAt(text[..|text| - 1], p, i)
    ensures i + |p| < |text| && OccursAt(text[..i + |p|], p, i)
  {
    assert text[..|text| - 1][i..i + |p|] == text[i..i + |p|] == text[..i + |p|][i..i + |p|];
  }
}
