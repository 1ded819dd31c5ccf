/** The search theory behind the two matchers of `packages/core/src/secrets.ts`:
    occurrences, borders and periods. */
module Occurrences {
  import opened JsText

  ghost predicate OccursAt(text: Text, needle: Text, p: int) {
    0 <= p <= |text| - |needle| && text[p..p + |needle|] == needle
  }

  /** Position `i` lies in an occurrence that starts before `bound`. */
  ghost predicate CoveredBefore(text: Text, needle: Text, bound: int, i: int) {
    exists p :: p < bound && OccursAt(text, needle, p) && p <= i < p + |needle|
  }

  /** Position `i` lies in some occurrence. */
  ghost predicate CoveredBy(text: Text, needle: Text, i: int) {
    exists p :: OccursAt(text, needle, p) && p <= i < p + |needle|
  }

  /** The first `k` characters of `needle` end just before position `i` of `text`. */
  ghost predicate EndsAt(text: Text, needle: Text, i: int, k: int) {
    0 <= k <= |needle| && k <= i <= |text| && needle[..k] == text[i - k..i]
  }

  /** A proper prefix of length `k` of `s[..n]` is also its suffix. */
  ghost predicate IsBorder(s: Text, n: int, k: int) {
    k < n && EndsAt(s, s, n, k)
  }

  ghost predicate IsLongestBorder(s: Text, n: int, k: int) {
    IsBorder(s, n, k) && forall j :: IsBorder(s, n, j) ==> j <= k
  }

  /** Entry `i` is the longest proper border of the prefix of length `i + 1`. */
  ghost predicate IsBorderTable(s: Text, border: seq<nat>) {
    |border| == |s| && forall i :: 0 <= i < |s| ==> IsLongestBorder(s, i + 1, border[i])
  }

  lemma ExtendMatch(text: Text, needle: Text, i: nat, k: nat)
    requires i < |text|
    ensures EndsAt(text, needle, i + 1, k + 1) <==>
            k < |needle| && EndsAt(text, needle, i, k) && needle[k] == text[i]
  {
    if k < |needle| && k <= i {
      assert needle[..k + 1] == needle[..k] + [needle[k]];
      assert text[i - k..i + 1] == text[i - k..i] + [text[i]];
    }
  }

  /** Below a match of length `k`, the shorter matches are exactly the borders of that prefix. */
  lemma FallBack(text: Text, needle: Text, i: nat, k: nat, j: nat)
    requires EndsAt(text, needle, i, k) && j < k
    ensures EndsAt(text, needle, i, j) <==> IsBorder(needle, k, j)
  {
    assert needle[k - j..k] == needle[..k][k - j..];
    assert text[i - k..i][k - j..] == text[i - j..i];
  }

  lemma OccursWhereWholeNeedleEnds(text: Text, needle: Text, i: nat)
    requires |needle| <= i
    ensures EndsAt(text, needle, i, |needle|) <==> OccursAt(text, needle, i - |needle|)
  {
    assert needle[..|needle|] == needle;
  }

  /** Where an occurrence is followed by the part of the needle after one of its borders,
      the needle occurs again one stride further on. */
  lemma StrideOccurs(text: Text, needle: Text, q: nat, b: nat)
    requires OccursAt(text, needle, q) && IsBorder(needle, |needle|, b)
    requires OccursAt(text, needle[b..], q + |needle|)
    ensures OccursAt(text, needle, q + |needle| - b)
  {
    var m := |needle|;
    assert needle[..b] == needle[m - b..m];
    assert text[q + m - b..q + m] == text[q..q + m][m - b..];
    assert text[q + m - b..q + m - b + m] == text[q + m - b..q + m] + text[q + m..q + m + (m - b)];
    assert needle == needle[..b] + needle[b..];
  }

  /** The border table of `packages/core/src/secrets.ts`, `borders`. */
  method Borders(needle: Text) returns (border: seq<nat>)
    ensures IsBorderTable(needle, border)
  {
    var table := new nat[|needle|](_ => 0);
    var i, k := 1, 0;
    assert |needle| > 0 ==> IsBorder(needle, 1, 0);
    while i < |needle|
      invariant 1 <= i && (|needle| > 0 ==> i <= |needle|)
      invariant forall x :: 0 <= x < i && x < |needle| ==> IsLongestBorder(needle, x + 1, table[x])
      invariant |needle| > 0 ==> k == table[i - 1]
    {
      ghost var known := table[..];
      while k > 0 && needle[i] != needle[k]
        invariant table[..] == known
        invariant IsBorder(needle, i, k)
        invariant forall j :: IsBorder(needle, i, j) && needle[j] == needle[i] ==> j <= k
      {
        var shorter := table[k - 1];
        assert IsLongestBorder(needle, k, shorter);
        forall j | IsBorder(needle, i, j) && needle[j] == needle[i]
          ensures j <= shorter
        {
          assert j != k;
          FallBack(needle, needle, i, k, j);
        }
        FallBack(needle, needle, i, k, shorter);
        k := shorter;
      }
      LongestAfter(needle, i, k);
      if needle[i] == needle[k] {
        k := k + 1;
      }
      table[i] := k;
      assert IsLongestBorder(needle, i + 1, table[i]);
      i := i + 1;
    }
    border := table[..];
  }

  lemma LongestAfter(needle: Text, i: nat, k: nat)
    requires 0 < i < |needle| && IsBorder(needle, i, k)
    requires forall j :: IsBorder(needle, i, j) && needle[j] == needle[i] ==> j <= k
    requires k == 0 || needle[i] == needle[k]
    ensures IsLongestBorder(needle, i + 1, if needle[i] == needle[k] then k + 1 else k)
  {
    var r, n := if needle[i] == needle[k] then k + 1 else k, i + 1;
    ExtendMatch(needle, needle, i, k);
    assert IsBorder(needle, n, r);
    forall j | IsBorder(needle, n, j)
      ensures j <= r
    {
      if j > 0 {
        ExtendMatch(needle, needle, i, j - 1);
        assert IsBorder(needle, i, j - 1);
      }
    }
  }
}
