/** The class of `packages/core/src/secrets.ts` that masks secrets, and what its output means. */
module Scrubber {
  import opened JsText
  import opened Occurrences
  import opened Runs
  import opened Secrets

  // ----- What scrubbing means -----

  ghost predicate Covered(text: Text, needles: set<Text>, i: int) {
    exists n :: n in needles && CoveredBy(text, n, i)
  }

  /** `text` from position `i` on: every uncovered character kept, and one mask where a
      covered run begins. */
  ghost function Masked(text: Text, needles: set<Text>, i: nat): Text
    requires i <= |text|
    decreases |text| - i
  {
    if i == |text| then []
    else if !Covered(text, needles, i) then [text[i]] + Masked(text, needles, i + 1)
    else if i == 0 || !Covered(text, needles, i - 1) then MASK + Masked(text, needles, i + 1)
    else Masked(text, needles, i + 1)
  }

  ghost function Scrubbed(text: Text, needles: set<Text>): Text {
    Masked(text, needles, 0)
  }

  lemma Appended(a: Text, b: Text, c: Text)
    ensures a + (b + c) == (a + b) + c
  {
  }

  lemma {:induction false} MaskedKeeps(text: Text, needles: set<Text>, lo: nat, hi: nat)
    requires lo <= hi <= |text|
    requires forall i :: lo <= i < hi ==> !Covered(text, needles, i)
    ensures Masked(text, needles, lo) == text[lo..hi] + Masked(text, needles, hi)
    decreases hi - lo
  {
    hide Covered;
    if lo < hi {
      MaskedKeeps(text, needles, lo + 1, hi);
      assert text[lo..hi] == [text[lo]] + text[lo + 1..hi];
      Appended([text[lo]], text[lo + 1..hi], Masked(text, needles, hi));
    }
  }

  lemma {:induction false} MaskedSkips(text: Text, needles: set<Text>, lo: nat, hi: nat)
    requires 0 < lo <= hi <= |text|
    requires forall i :: lo - 1 <= i < hi ==> Covered(text, needles, i)
    ensures Masked(text, needles, lo) == Masked(text, needles, hi)
    decreases hi - lo
  {
    hide Covered;
    if lo < hi {
      MaskedSkips(text, needles, lo + 1, hi);
    }
  }

  // ----- The two matchers agree -----

  /** On one text and one needle, the matcher for short needles and the one for long needles
      push the same ranges. */
  method MatchersAgree(text: Text, needle: Text) returns (native: seq<Range>, kmp: seq<Range>)
    requires |needle| > 0
    ensures native == kmp && RunsOf(native, text, needle)
  {
    var border := Borders(needle);
    var first := new RangeList();
    var second := new RangeList();
    NativeMatches(text, needle, needle[border[|needle| - 1]..], first);
    KmpMatches(text, needle, border, second);
    native, kmp := first.items, second.items;
    ghost var a :| RunsOf(a, text, needle) && native == [] + a;
    ghost var b :| RunsOf(b, text, needle) && kmp == [] + b;
    forall i ensures Holds(a, i) <==> Holds(b, i) {
      assert Holds(a, i) <==> CoveredBy(text, needle, i);
    }
    RunsAreUnique(a, b);
    assert native == a && kmp == b;
  }

  // ----- The class -----

  /** `[...new Set([...a, ...b])]` for an `a` without repetitions. */
  function Union(a: seq<Text>, b: seq<Text>): (u: seq<Text>)
    ensures forall t :: t in u <==> t in a || t in b
    decreases |b|
  {
    if b == [] then a else Union(if b[0] in a then a else a + [b[0]], b[1..])
  }

  function NonEmpty(ts: seq<Text>): (r: seq<Text>)
    ensures forall t :: t in r <==> t in ts && t != []
  {
    if ts == [] then []
    else (if ts[0] == [] then [] else [ts[0]]) + NonEmpty(ts[1..])
  }

  ghost function Elements(ts: seq<Text>): set<Text> {
    set t | t in ts
  }

  class SecretScrubber {
    var needles: seq<Text>
    var borders: map<Text, seq<nat>>
    var browserNeedles: seq<Text>

    ghost predicate Valid()
      reads this
    {
      && [] !in needles
      && forall n :: n in borders ==> IsBorderTable(n, borders[n])
    }

    constructor ()
      ensures Valid() && needles == [] && browserNeedles == []
    {
      needles, borders, browserNeedles := [], map[], [];
    }

    /** The tables of needles that have none yet. */
    method AddBorders(found: seq<Text>)
      requires forall n :: n in borders ==> IsBorderTable(n, borders[n])
      modifies this`borders
      ensures forall n :: n in borders ==> IsBorderTable(n, borders[n])
      ensures borders.Keys == old(borders.Keys) + Elements(found)
      ensures forall n :: n in old(borders) ==> n in borders && borders[n] == old(borders)[n]
    {
      var i := 0;
      while i < |found|
        invariant 0 <= i <= |found|
        invariant forall n :: n in borders ==> IsBorderTable(n, borders[n])
        invariant borders.Keys == old(borders.Keys) + Elements(found[..i])
        invariant forall n :: n in old(borders) ==> n in borders && borders[n] == old(borders)[n]
      {
        hide IsBorderTable;
        if found[i] !in borders {
          var border := Borders(found[i]);
          borders := borders[found[i] := border];
        }
        assert found[..i + 1] == found[..i] + [found[i]];
        i := i + 1;
      }
      assert found[..i] == found;
    }

    /** `forms` is what `variants(secret)` lists. A secret that is too short is refused. */
    method Add(secret: Text, forms: seq<Text>, reachesBrowser: bool) returns (accepted: bool)
      requires Valid()
      modifies this
      ensures Valid()
      ensures accepted <==> |secret| >= MIN_SECRET_LENGTH
      ensures !accepted ==> needles == old(needles) && browserNeedles == old(browserNeedles) && borders == old(borders)
      ensures accepted ==> Elements(needles) == old(Elements(needles)) + Elements(NonEmpty(forms))
      ensures accepted ==> borders.Keys == old(borders.Keys) + Elements(NonEmpty(forms))
      ensures forall n :: n in old(borders) ==> n in borders && borders[n] == old(borders)[n]
      ensures accepted ==> Elements(browserNeedles) ==
                           old(Elements(browserNeedles)) + (if reachesBrowser then Elements(NonEmpty(forms)) else {})
    {
      if |secret| < MIN_SECRET_LENGTH {
        return false;
      }
      var found := NonEmpty(forms);
      needles := Union(needles, found);
      AddBorders(found);
      if reachesBrowser {
        browserNeedles := Union(browserNeedles, found);
      }
      accepted := true;
    }

    /** Every maximal run of text covered by a needle becomes one mask, whatever the order of
        the needles and whichever matcher the length of each selects. */
    method ScrubText(text: Text) returns (out: Text)
      requires Valid()
      ensures out == Scrubbed(text, Elements(needles))
    {
      var found := AllMatches(text);
      if found == [] {
        MaskedKeeps(text, Elements(needles), 0, |text|);
        return text[0..|text|];
      }
      out := PutMasks(text, found, Elements(needles));
    }

    method AllMatches(text: Text) returns (found: seq<Range>)
      requires Valid()
      ensures Matches(found, text, Elements(needles))
    {
      var ranges := new RangeList();
      var j := 0;
      while j < |needles|
        invariant 0 <= j <= |needles|
        invariant Matches(ranges.items, text, Elements(needles[..j]))
      {
        var needle := needles[j];
        var border;
        if needle in borders {
          border := borders[needle];
        } else {
          border := Borders(needle);
        }
        ghost var before := ranges.items;
        if |needle| > NATIVE_SEARCH_MAX {
          KmpMatches(text, needle, border, ranges);
        } else {
          NativeMatches(text, needle, needle[border[|needle| - 1]..], ranges);
        }
        ghost var rs :| RunsOf(rs, text, needle) && ranges.items == before + rs;
        MatchesGrow(before, rs, text, Elements(needles[..j]), needle);
        assert Elements(needles[..j + 1]) == Elements(needles[..j]) + {needle} by {
          assert needles[..j + 1] == needles[..j] + [needle];
        }
        j := j + 1;
      }
      assert needles[..j] == needles;
      found := ranges.items;
    }
  }

  /** Non-empty ranges inside the text that hold exactly the covered positions. */
  ghost predicate Matches(rs: seq<Range>, text: Text, needles: set<Text>) {
    && (forall k :: 0 <= k < |rs| ==> rs[k].lo < rs[k].hi <= |text|)
    && forall i :: Holds(rs, i) <==> Covered(text, needles, i)
  }

  lemma MatchesGrow(before: seq<Range>, rs: seq<Range>, text: Text, needles: set<Text>, needle: Text)
    requires Matches(before, text, needles) && RunsOf(rs, text, needle)
    ensures Matches(before + rs, text, needles + {needle})
  {
    forall i ensures Holds(before + rs, i) <==> Covered(text, needles + {needle}, i) {
      HoldsConcat(before, rs, i);
      assert Holds(before, i) <==> Covered(text, needles, i);
      assert Holds(rs, i) <==> CoveredBy(text, needle, i);
    }
    forall k | 0 <= k < |rs| ensures rs[k].hi <= |text| {
      assert rs[k].lo <= rs[k].hi - 1 < rs[k].hi;
      assert Holds(rs, rs[k].hi - 1);
      assert CoveredBy(text, needle, rs[k].hi - 1);
    }
  }

  lemma HoldsConcat(a: seq<Range>, b: seq<Range>, i: int)
    ensures Holds(a + b, i) <==> Holds(a, i) || Holds(b, i)
  {
    if Holds(b, i) {
      var k :| 0 <= k < |b| && b[k].lo <= i < b[k].hi;
      assert (a + b)[|a| + k] == b[k];
    }
    if Holds(a, i) {
      var k :| 0 <= k < |a| && a[k].lo <= i < a[k].hi;
      assert (a + b)[k] == a[k];
    }
  }

  /** Sorting, merging ranges that overlap or touch, and writing the masks. */
  method PutMasks(text: Text, found: seq<Range>, ghost needles: set<Text>) returns (out: Text)
    requires found != [] && Matches(found, text, needles)
    ensures out == Scrubbed(text, needles)
  {
    var ranges := Sorted(found);
    SortedMatches(found, text, needles);
    out := [];
    var cursor: nat, start: nat, end: nat := 0, ranges[0].lo, ranges[0].hi;
    var j := 1;
    while j < |ranges|
      invariant Merging(ranges, text, needles, cursor, start, end, j)
      invariant out + Masked(text, needles, cursor) == Scrubbed(text, needles)
    {
      var s, e := ranges[j].lo, ranges[j].hi;
      MergeStep(ranges, text, needles, cursor, start, end, j);
      if s <= end {
        end := if end < e then e else end;
      } else {
        OneMask(ranges, text, needles, cursor, start, end, j);
        Appended(out, text[cursor..start] + MASK, Masked(text, needles, end));
        out := out + (text[cursor..start] + MASK);
        cursor := end;
        start, end := s, e;
      }
      j := j + 1;
    }
    OneMask(ranges, text, needles, cursor, start, end, j);
    RestIsKept(ranges, text, needles, end);
    out := out + text[cursor..start] + MASK + text[end..];
  }

  /** The merge has taken `ranges[..j]`: all of them end by `cursor` or lie in the run from
      `start` to `end`, which is covered throughout. */
  ghost predicate Merging(ranges: seq<Range>, text: Text, needles: set<Text>, cursor: nat, start: nat, end: nat, j: nat) {
    && Matches(ranges, text, needles) && SortedByLo(ranges) && 0 < j <= |ranges|
    && cursor <= start < end <= |text| && (cursor == 0 || cursor < start)
    && (forall i :: start <= i < end ==> Covered(text, needles, i))
    && (forall k :: 0 <= k < j ==> ranges[k].hi <= end && (ranges[k].hi <= cursor || start <= ranges[k].lo))
    && (forall k :: j <= k < |ranges| ==> start <= ranges[k].lo)
  }

  lemma MergeStep(ranges: seq<Range>, text: Text, needles: set<Text>, cursor: nat, start: nat, end: nat, j: nat)
    requires Merging(ranges, text, needles, cursor, start, end, j) && j < |ranges|
    ensures var r := ranges[j];
            if r.lo <= end then Merging(ranges, text, needles, cursor, start, if end < r.hi then r.hi else end, j + 1)
            else Merging(ranges, text, needles, end, r.lo, r.hi, j + 1)
  {
  }

  lemma SortedMatches(found: seq<Range>, text: Text, needles: set<Text>)
    requires found != [] && Matches(found, text, needles)
    ensures var ranges := Sorted(found);
            ranges != [] && Merging(ranges, text, needles, 0, ranges[0].lo, ranges[0].hi, 1)
  {
    var ranges := Sorted(found);
    assert |ranges| == |multiset(ranges)| == |multiset(found)| == |found|;
    forall k | 0 <= k < |ranges| ensures ranges[k] in found {
      assert ranges[k] in multiset(found);
    }
    forall i ensures Holds(ranges, i) <==> Covered(text, needles, i) {
      SortedHolds(found, i);
    }
  }

  lemma OneMask(ranges: seq<Range>, text: Text, needles: set<Text>, cursor: nat, start: nat, end: nat, j: nat)
    requires Merging(ranges, text, needles, cursor, start, end, j)
    ensures Masked(text, needles, cursor) == text[cursor..start] + MASK + Masked(text, needles, end)
  {
    forall i | cursor <= i < start ensures !Covered(text, needles, i) {
      assert !Holds(ranges, i);
    }
    MaskedKeeps(text, needles, cursor, start);
    MaskedSkips(text, needles, start + 1, end);
  }

  lemma RestIsKept(ranges: seq<Range>, text: Text, needles: set<Text>, end: nat)
    requires Matches(ranges, text, needles) && end <= |text|
    requires forall k :: 0 <= k < |ranges| ==> ranges[k].hi <= end
    ensures Masked(text, needles, end) == text[end..]
  {
    forall i | end <= i < |text| ensures !Covered(text, needles, i) {
      assert !Holds(ranges, i);
    }
    MaskedKeeps(text, needles, end, |text|);
  }
}
