/** The scrubber of `packages/core/src/secrets.ts`: two matchers that list the runs of text
    covered by a needle, and the merge that puts one mask over each run. */
module Secrets {
  import opened JsText
  import opened Occurrences
  import opened Runs

  const MASK: Text := [0x2022, 0x2022, 0x2022]
  const MIN_SECRET_LENGTH := 8
  const NATIVE_SEARCH_MAX := 250

  /** `rs` lists exactly the maximal runs of positions covered by occurrences of `needle`
      that start before `bound`. */
  ghost predicate RunsUpTo(rs: seq<Range>, text: Text, needle: Text, bound: int) {
    && Separated(rs)
    && (rs != [] ==> Last(rs).lo < bound && Last(rs).hi < bound + |needle|)
    && forall i :: Holds(rs, i) <==> CoveredBefore(text, needle, bound, i)
  }

  ghost predicate RunsOf(rs: seq<Range>, text: Text, needle: Text) {
    Separated(rs) && forall i :: Holds(rs, i) <==> CoveredBy(text, needle, i)
  }

  /** `text.indexOf(needle, from)`, with `|text| + 1` for "not found". */
  function IndexOf(text: Text, needle: Text, from: nat): (at: nat)
    requires |needle| > 0
    ensures at <= |text| ==> from <= at && OccursAt(text, needle, at)
    ensures at > |text| ==> at == |text| + 1
    ensures forall p :: from <= p < at ==> !OccursAt(text, needle, p)
    decreases |text| - from
  {
    if from + |needle| > |text| then |text| + 1
    else if text[from..from + |needle|] == needle then from
    else IndexOf(text, needle, from + 1)
  }

  predicate StartsWith(text: Text, prefix: Text, at: nat) {
    at + |prefix| <= |text| && text[at..at + |prefix|] == prefix
  }

  /** Occurrences that start before `bound` cover every position from `at` up to `end`. */
  ghost predicate Stretch(text: Text, needle: Text, bound: int, at: int, end: int) {
    forall i :: at <= i < end ==> CoveredBefore(text, needle, bound, i)
  }

  lemma AllRuns(rs: seq<Range>, text: Text, needle: Text, bound: int)
    requires |needle| > 0 && RunsUpTo(rs, text, needle, bound)
    requires forall p :: OccursAt(text, needle, p) ==> p < bound
    ensures RunsOf(rs, text, needle)
  {
    forall i ensures Holds(rs, i) <==> CoveredBy(text, needle, i) {
      assert Holds(rs, i) <==> CoveredBefore(text, needle, bound, i);
    }
  }

  /** One more occurrence, or a contiguous stretch of occurrences, taken into the list. */
  lemma JoinStretch(rs: seq<Range>, text: Text, needle: Text, bound: int, at: nat, q: nat)
    requires |needle| > 0 && at <= q && bound <= at
    requires RunsUpTo(rs, text, needle, bound)
    requires forall p :: bound <= p < at ==> !OccursAt(text, needle, p)
    requires Stretch(text, needle, q + 1, at, q + |needle|)
    ensures RunsUpTo(Joined(rs, at, q + |needle|), text, needle, q + 1)
  {
    var end := q + |needle|;
    JoinedSeparated(rs, at, end);
    forall i
      ensures Holds(Joined(rs, at, end), i) <==> CoveredBefore(text, needle, q + 1, i)
    {
      JoinedHolds(rs, at, end, i);
      assert Holds(rs, i) <==> CoveredBefore(text, needle, bound, i);
    }
  }

  /** The array of ranges that the matchers share. */
  class RangeList {
    var items: seq<Range>

    constructor ()
      ensures items == []
    {
      items := [];
    }

    /** What both matchers do with a stretch of occurrences from `at` to `end`: lengthen the
        range they found last when it is touched, otherwise push a new one. `rs` is what this
        matcher has pushed so far, after `prior`. */
    method Take(found: bool, at: nat, end: nat, text: Text, needle: Text, ghost prior: seq<Range>, ghost rs: seq<Range>, ghost bound: int)
        returns (ghost next: seq<Range>)
      requires items == prior + rs && (found <==> rs != [])
      requires |needle| > 0 && at + |needle| <= end && bound <= at
      requires RunsUpTo(rs, text, needle, bound)
      requires forall p :: bound <= p < at ==> !OccursAt(text, needle, p)
      requires Stretch(text, needle, end - |needle| + 1, at, end)
      modifies this
      ensures items == prior + next && next != []
      ensures RunsUpTo(next, text, needle, end - |needle| + 1)
    {
      JoinStretch(rs, text, needle, bound, at, end - |needle|);
      if found && at <= Last(items).hi {
        items := items[..|items| - 1] + [Range(Last(items).lo, end)];
      } else {
        items := items + [Range(at, end)];
      }
      next := Joined(rs, at, end);
    }
  }

  /** The inner loop of the `indexOf` matcher: skips ahead by the tail while it repeats. */
  method EndOfStretch(text: Text, needle: Text, tail: Text, at: nat, ghost b: nat) returns (end: nat)
    requires OccursAt(text, needle, at)
    requires IsBorder(needle, |needle|, b) && tail == needle[b..]
    ensures at + |needle| <= end && OccursAt(text, needle, end - |needle|)
    ensures Stretch(text, needle, end - |needle| + 1, at, end)
    ensures !StartsWith(text, tail, end)
  {
    end := at + |needle|;
    while StartsWith(text, tail, end)
      invariant at + |needle| <= end <= |text|
      invariant OccursAt(text, needle, end - |needle|)
      invariant Stretch(text, needle, end - |needle| + 1, at, end)
      decreases |text| - end
    {
      StrideOccurs(text, needle, end - |needle|, b);
      StrideCovers(text, needle, at, end, |tail|);
      end := end + |tail|;
    }
  }

  /** The `indexOf` matcher. `tail` is the part of the needle after a border of it. */
  method NativeMatches(text: Text, needle: Text, tail: Text, ranges: RangeList)
    requires |needle| > 0
    requires exists b: nat :: IsBorder(needle, |needle|, b) && tail == needle[b..]
    modifies ranges
    ensures exists rs :: RunsOf(rs, text, needle) && ranges.items == old(ranges.items) + rs
  {
    ghost var b: nat :| IsBorder(needle, |needle|, b) && tail == needle[b..];
    ghost var rs, bound := [], 0;
    var found := false;
    var at := IndexOf(text, needle, 0);
    while at <= |text|
      invariant bound <= at
      invariant found <==> rs != []
      invariant ranges.items == old(ranges.items) + rs
      invariant RunsUpTo(rs, text, needle, bound)
      invariant forall p :: bound <= p < at ==> !OccursAt(text, needle, p)
      invariant at <= |text| ==> OccursAt(text, needle, at)
      invariant at > |text| ==> at == |text| + 1
      decreases |text| + 1 - at
    {
      var end := EndOfStretch(text, needle, tail, at, b);
      rs := ranges.Take(found, at, end, text, needle, old(ranges.items), rs, bound);
      found, bound := true, end - |needle| + 1;
      at := IndexOf(text, needle, end - |needle| + 1);
    }
    AllRuns(rs, text, needle, bound);
  }

  lemma StrideCovers(text: Text, needle: Text, at: nat, end: nat, stride: nat)
    requires at + |needle| <= end && 0 < stride <= |needle|
    requires OccursAt(text, needle, end - |needle| + stride)
    requires Stretch(text, needle, end - |needle| + 1, at, end)
    ensures Stretch(text, needle, end - |needle| + stride + 1, at, end + stride)
  {
    var bound, wider := end - |needle| + 1, end - |needle| + stride + 1;
    forall i | at <= i < end + stride
      ensures CoveredBefore(text, needle, wider, i)
    {
      assert i < end ==> CoveredBefore(text, needle, bound, i);
    }
  }

  /** The Knuth-Morris-Pratt matcher. */
  method KmpMatches(text: Text, needle: Text, border: seq<nat>, ranges: RangeList)
    requires |needle| > 0 && IsBorderTable(needle, border)
    modifies ranges
    ensures exists rs :: RunsOf(rs, text, needle) && ranges.items == old(ranges.items) + rs
  {
    var m := |needle|;
    ghost var rs := [];
    var found := false;
    var i, k := 0, 0;
    while i < |text|
      invariant 0 <= i <= |text|
      invariant found <==> rs != []
      invariant ranges.items == old(ranges.items) + rs
      invariant RunsUpTo(rs, text, needle, i + 1 - m)
      invariant LongestMatch(text, needle, i, k)
    {
      k := Advance(text, needle, border, i, k);
      if i + 1 >= m {
        OccursWhereWholeNeedleEnds(text, needle, i + 1);
      }
      if k == m {
        var at := i + 1 - m;
        rs := ranges.Take(found, at, i + 1, text, needle, old(ranges.items), rs, at);
        found := true;
        LongestBelowWhole(text, needle, i + 1, border[k - 1]);
        k := border[k - 1];
      } else {
        NoNewOccurrence(rs, text, needle, i + 1 - m);
      }
      i := i + 1;
    }
    AllRuns(rs, text, needle, i + 1 - m);
  }

  /** `k` is the longest proper prefix of the needle that ends at position `i`. */
  ghost predicate LongestMatch(text: Text, needle: Text, i: nat, k: nat) {
    k < |needle| && EndsAt(text, needle, i, k) &&
    forall j :: EndsAt(text, needle, i, j) && j < |needle| ==> j <= k
  }

  ghost predicate LongestEnding(text: Text, needle: Text, i: nat, k: nat) {
    EndsAt(text, needle, i, k) && forall j :: EndsAt(text, needle, i, j) ==> j <= k
  }

  /** The inner loop of the matcher: the longest prefix, the whole needle included,
      that ends after character `i`. */
  method Advance(text: Text, needle: Text, border: seq<nat>, i: nat, start: nat) returns (k: nat)
    requires i < |text| && IsBorderTable(needle, border)
    requires LongestMatch(text, needle, i, start)
    ensures LongestEnding(text, needle, i + 1, k)
  {
    k := start;
    while k > 0 && text[i] != needle[k]
      invariant k < |needle| && EndsAt(text, needle, i, k)
      invariant forall j :: j < |needle| && EndsAt(text, needle, i, j) && needle[j] == text[i] ==> j <= k
    {
      var shorter := border[k - 1];
      assert IsLongestBorder(needle, k, shorter);
      forall j | j < |needle| && EndsAt(text, needle, i, j) && needle[j] == text[i]
        ensures j <= shorter
      {
        assert j != k;
        FallBack(text, needle, i, k, j);
      }
      FallBack(text, needle, i, k, shorter);
      k := shorter;
    }
    ExtendMatch(text, needle, i, k);
    ghost var r, n := if text[i] == needle[k] then k + 1 else k, i + 1;
    forall j | EndsAt(text, needle, n, j)
      ensures j <= r
    {
      if j > 0 {
        ExtendMatch(text, needle, i, j - 1);
      }
    }
    if text[i] == needle[k] {
      k := k + 1;
    }
  }

  lemma LongestBelowWhole(text: Text, needle: Text, i: nat, b: nat)
    requires |needle| > 0 && EndsAt(text, needle, i, |needle|) && IsLongestBorder(needle, |needle|, b)
    ensures LongestMatch(text, needle, i, b)
  {
    FallBack(text, needle, i, |needle|, b);
    forall j | EndsAt(text, needle, i, j) && j < |needle|
      ensures j <= b
    {
      FallBack(text, needle, i, |needle|, j);
    }
  }

  lemma NoNewOccurrence(rs: seq<Range>, text: Text, needle: Text, bound: int)
    requires RunsUpTo(rs, text, needle, bound) && !OccursAt(text, needle, bound)
    ensures RunsUpTo(rs, text, needle, bound + 1)
  {
    forall i ensures Holds(rs, i) <==> CoveredBefore(text, needle, bound + 1, i) {
      assert Holds(rs, i) <==> CoveredBefore(text, needle, bound, i);
    }
  }
}
