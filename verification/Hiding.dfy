/** What the output of the scrubber of `packages/core/src/secrets.ts` hides, and when scrubbing it
    again changes nothing. Needles that hold the mask's character are where both can fail. */
module Hiding {
  import opened JsText
  import opened Occurrences
  import opened Secrets
  import opened Scrubber

  const DOT: CodeUnit := 0x2022

  /** The needle ends in no mask, and no whole mask lies in it. */
  ghost predicate EndSafe(needle: Text) {
    && needle != [] && needle[|needle| - 1] != DOT
    && forall i :: !OccursAt(needle, MASK, i)
  }

  /** The needle neither starts nor ends with the mask's character, and never holds it three times
      in a row. */
  ghost predicate MaskSafe(needle: Text) {
    EndSafe(needle) && needle[0] != DOT
  }

  // ----- Safe needles are hidden -----

  lemma EndSafeTail(needle: Text)
    requires EndSafe(needle) && |needle| > 1
    ensures EndSafe(needle[1..])
  {
    forall i ensures !OccursAt(needle[1..], MASK, i) {
      if OccursAt(needle[1..], MASK, i) {
        assert needle[i + 1..i + 1 + |MASK|] == needle[1..][i..i + |MASK|];
        assert OccursAt(needle, MASK, i + 1);
      }
    }
  }

  lemma PrefixOfMask(needle: Text, rest: Text)
    ensures needle <= MASK + rest ==> forall k :: 0 <= k < |needle| && k < |MASK| ==> needle[k] == DOT
    ensures needle <= MASK + rest && |needle| >= |MASK| ==> OccursAt(needle, MASK, 0)
  {
    if needle <= MASK + rest {
      assert forall k :: 0 <= k < |needle| ==> needle[k] == (MASK + rest)[k];
      if |needle| >= |MASK| {
        assert needle[0..|MASK|] == MASK;
      }
    }
  }

  /** A mask does not begin inside a needle that is safe at its end. */
  lemma NotIntoMask(needle: Text, rest: Text)
    requires EndSafe(needle)
    ensures !(needle <= MASK + rest)
  {
    PrefixOfMask(needle, rest);
  }

  /** Behind a kept character, such a needle can only go on with another one. */
  lemma NextIsKept(text: Text, needles: set<Text>, needle: Text, i: nat)
    requires i < |text| && !Covered(text, needles, i) && EndSafe(needle)
    requires needle <= Masked(text, needles, i) && |needle| > 1
    ensures i + 1 < |text| && !Covered(text, needles, i + 1) && needle[1..] <= Masked(text, needles, i + 1)
  {
    hide Covered, EndSafe;
    var rest := Masked(text, needles, i + 1);
    assert Masked(text, needles, i) == [text[i]] + rest;
    assert needle[1..] <= rest && rest != [];
    EndSafeTail(needle);
    if Covered(text, needles, i + 1) {
      NotIntoMask(needle[1..], Masked(text, needles, i + 2));
    }
  }

  /** A needle at the front of the output, where the text is uncovered, stands in the text. */
  lemma {:induction false} FrontOfOutputStandsInText(text: Text, needles: set<Text>, needle: Text, i: nat)
    requires i < |text| && !Covered(text, needles, i) && EndSafe(needle)
    requires needle <= Masked(text, needles, i)
    ensures OccursAt(text, needle, i)
    decreases |needle|
  {
    hide Covered, EndSafe;
    EndSafeIsSome(needle);
    assert needle[0] == Masked(text, needles, i)[0] == text[i];
    if |needle| > 1 {
      hide Masked;
      EndSafeTail(needle);
      NextIsKept(text, needles, needle, i);
      FrontOfOutputStandsInText(text, needles, needle[1..], i + 1);
      assert text[i..i + |needle|] == [text[i]] + text[i + 1..i + 1 + |needle[1..]|];
    }
  }

  lemma EndSafeIsSome(needle: Text)
    requires EndSafe(needle)
    ensures needle != []
  {
  }

  lemma OccursAfter(front: Text, rest: Text, needle: Text, q: nat)
    requires OccursAt(front + rest, needle, q) && |front| <= q
    ensures OccursAt(rest, needle, q - |front|)
  {
    assert (front + rest)[q..q + |needle|] == rest[q - |front|..q - |front| + |needle|];
  }

  lemma OccurrenceCovers(text: Text, needles: set<Text>, needle: Text, i: nat)
    requires needle in needles && needle != [] && OccursAt(text, needle, i)
    ensures Covered(text, needles, i)
  {
    assert CoveredBy(text, needle, i);
  }

  lemma {:induction false} NoNeedleFrom(text: Text, needles: set<Text>, needle: Text, i: nat, q: nat)
    requires i <= |text| && needle in needles && MaskSafe(needle)
    ensures !OccursAt(Masked(text, needles, i), needle, q)
    decreases |text| - i
  {
    hide EndSafe, Covered;
    EndSafeIsSome(needle);
    var out := Masked(text, needles, i);
    if i < |text| && OccursAt(out, needle, q) {
      var rest := Masked(text, needles, i + 1);
      if !Covered(text, needles, i) {
        if q == 0 {
          FrontOfOutputStandsInText(text, needles, needle, i);
          OccurrenceCovers(text, needles, needle, i);
        } else {
          OccursAfter([text[i]], rest, needle, q);
          NoNeedleFrom(text, needles, needle, i + 1, q - 1);
        }
      } else if out == rest {
        NoNeedleFrom(text, needles, needle, i + 1, q);
      } else {
        assert out == MASK + rest;
        assert needle[0] == (MASK + rest)[q];
        OccursAfter(MASK, rest, needle, q);
        NoNeedleFrom(text, needles, needle, i + 1, q - |MASK|);
      }
    }
  }

  /** No safe needle can be read in the output, not even across a mask, whatever the others are. */
  lemma OutputHidesSafeNeedle(text: Text, needles: set<Text>, needle: Text)
    requires needle in needles && MaskSafe(needle)
    ensures forall q :: !OccursAt(Scrubbed(text, needles), needle, q)
  {
    forall q ensures !OccursAt(Scrubbed(text, needles), needle, q) {
      if q >= 0 {
        NoNeedleFrom(text, needles, needle, 0, q);
      }
    }
  }

  // ----- Other needles are not -----

  function Repeated(u: CodeUnit, n: nat): (t: Text)
    ensures |t| == n && forall i :: 0 <= i < n ==> t[i] == u
  {
    seq(n, i => u)
  }

  /** The first of three units that is neither of two. */
  function Neither(from: CodeUnit, x: CodeUnit, y: CodeUnit): (u: CodeUnit)
    requires from < 0x100
    ensures from <= u <= from + 2 && u != x && u != y
  {
    if from != x && from != y then from else if from + 1 != x && from + 1 != y then from + 1 else from + 2
  }

  /** Another secret, longer than the needle, that cannot overlap it or itself. */
  function Marker(needle: Text): (m: Text)
    requires needle != []
    ensures |m| == |needle| + 9
  {
    var first, last := needle[0], needle[|needle| - 1];
    Repeated(Neither(0x61, first, last), |needle| + 8) + [Neither(0x64, first, last)]
  }

  lemma MarkerUnits(needle: Text)
    requires needle != []
    ensures var m, a, b := Marker(needle), Neither(0x61, needle[0], needle[|needle| - 1]), Neither(0x64, needle[0], needle[|needle| - 1]);
      (forall i :: 0 <= i < |m| - 1 ==> m[i] == a) && m[|m| - 1] == b && a != b
  {
  }

  lemma MarkerIsSafe(needle: Text)
    requires needle != []
    ensures MaskSafe(Marker(needle)) && forall i :: 0 <= i < |Marker(needle)| ==> Marker(needle)[i] != DOT
  {
    hide Marker;
    MarkerUnits(needle);
    var m := Marker(needle);
    forall i ensures !OccursAt(m, MASK, i) {
      if OccursAt(m, MASK, i) {
        UnitAt(m, MASK, i, 0);
      }
    }
  }

  /** Between two pieces that are shorter than the needle, the marker occurs only where it was put. */
  lemma MarkerOccursOnce(needle: Text, p: Text, s: Text, q: nat)
    requires |p| < |needle| && |s| < |needle| && OccursAt(p + Marker(needle) + s, Marker(needle), q)
    ensures q == |p|
  {
    var m, n := Marker(needle), |needle| + 8;
    hide Marker;
    MarkerUnits(needle);
    var t := p + m + s;
    assert t[|p|..|p| + |m|] == m;
    if q < |p| {
      UnitAt(t, m, q, n);
    } else if q > |p| {
      UnitAt(t, m, q, |p| + n - q);
    }
  }

  lemma UnitAt(text: Text, needle: Text, q: nat, k: nat)
    requires OccursAt(text, needle, q) && k < |needle|
    ensures text[q + k] == needle[k]
  {
    assert text[q..q + |needle|][k] == text[q + k];
  }

  /** And the needle does not occur there at all. */
  lemma NeedleDoesNotOccur(needle: Text, p: Text, s: Text, q: nat)
    requires |p| < |needle| && |s| < |needle|
    ensures !OccursAt(p + Marker(needle) + s, needle, q)
  {
    var m := Marker(needle);
    hide Marker;
    MarkerUnits(needle);
    var t := p + m + s;
    forall i | |p| <= i < |p| + |m| ensures t[i] != needle[0] && t[i] != needle[|needle| - 1] {
      assert t[i] == m[i - |p|];
    }
    if OccursAt(t, needle, q) {
      UnitAt(t, needle, q, 0);
      UnitAt(t, needle, q, |needle| - 1);
      assert false;
    }
  }

  lemma OneRun(text: Text, needles: set<Text>, lo: nat, hi: nat)
    requires lo < hi <= |text| && forall i :: Covered(text, needles, i) <==> lo <= i < hi
    ensures Scrubbed(text, needles) == text[..lo] + (MASK + text[hi..])
  {
    hide Covered;
    MaskedKeeps(text, needles, 0, lo);
    MaskedSkips(text, needles, lo + 1, hi);
    MaskedKeeps(text, needles, hi, |text|);
    assert text[0..lo] == text[..lo] && text[hi..|text|] == text[hi..];
    assert Masked(text, needles, |text|) == [];
  }

  /** So scrubbing puts a mask for the marker and keeps the pieces. */
  lemma MarkerBecomesMask(needle: Text, p: Text, s: Text)
    requires |p| < |needle| && |s| < |needle|
    ensures Scrubbed(p + Marker(needle) + s, {needle, Marker(needle)}) == p + (MASK + s)
  {
    hide Marker, Scrubbed;
    var m := Marker(needle);
    var t, needles, e := p + m + s, {needle, m}, |p| + |m|;
    assert OccursAt(t, m, |p|) by {
      assert t[|p|..|p| + |m|] == m;
    }
    forall i ensures Covered(t, needles, i) <==> |p| <= i < e {
      if |p| <= i < e {
        assert CoveredBy(t, m, i);
      }
      if Covered(t, needles, i) {
        OnlyMarkerCovers(needle, p, s, i);
      }
    }
    OneRun(t, needles, |p|, e);
    assert t[..|p|] == p && t[e..] == s;
  }

  lemma OnlyMarkerCovers(needle: Text, p: Text, s: Text, i: int)
    requires |p| < |needle| && |s| < |needle| && Covered(p + Marker(needle) + s, {needle, Marker(needle)}, i)
    ensures |p| <= i < |p| + |Marker(needle)|
  {
    var m, t := Marker(needle), p + Marker(needle) + s;
    hide Marker;
    var n :| n in {needle, m} && CoveredBy(t, n, i);
    var q :| OccursAt(t, n, q) && q <= i < q + |n|;
    if n == m {
      MarkerOccursOnce(needle, p, s, q);
    } else {
      NeedleDoesNotOccur(needle, p, s, q);
    }
  }

  /** Pieces shorter than the needle between which a mask makes the needle appear. */
  lemma PiecesOf(needle: Text) returns (p: Text, s: Text, q: nat)
    requires needle != [] && !MaskSafe(needle)
    ensures |p| < |needle| && |s| < |needle| && OccursAt(p + (MASK + s), needle, q)
  {
    var n := |needle|;
    if needle[0] == DOT {
      p, s, q := [], needle[1..], 2;
      assert (p + (MASK + s))[2..2 + n] == [DOT] + needle[1..] == needle;
    } else if needle[n - 1] == DOT {
      p, s, q := needle[..n - 1], [], 0;
      assert (p + (MASK + s))[0..n] == needle[..n - 1] + [DOT] == needle;
    } else {
      var i :| OccursAt(needle, MASK, i);
      p, s, q := needle[..i], needle[i + 3..], 0;
      assert p + (MASK + s) == needle[..i] + needle[i..i + 3] + needle[i + 3..] == needle;
      assert needle[0..n] == needle;
    }
  }

  ghost predicate AlwaysHidden(needle: Text) {
    forall text, needles: set<Text>, q :: needle in needles ==> !OccursAt(Scrubbed(text, needles), needle, q)
  }

  /** A needle is hidden in every output, whatever the text and the other needles, exactly when it
      neither starts nor ends with the mask's character nor holds it three times in a row. */
  lemma HiddenExactly(needle: Text)
    requires needle != []
    ensures AlwaysHidden(needle) <==> MaskSafe(needle)
  {
    hide MaskSafe, Scrubbed;
    if MaskSafe(needle) {
      forall text, needles: set<Text>, q | needle in needles
        ensures !OccursAt(Scrubbed(text, needles), needle, q)
      {
        OutputHidesSafeNeedle(text, needles, needle);
      }
    } else {
      var p, s, q := PiecesOf(needle);
      MarkerBecomesMask(needle, p, s);
      assert OccursAt(Scrubbed(p + Marker(needle) + s, {needle, Marker(needle)}), needle, q);
    }
  }

  // ----- Scrubbing twice -----

  /** In the output from position `i` of the text on. */
  ghost function Pos(text: Text, needles: set<Text>, i: nat): nat
    requires i <= |text|
    decreases i
  {
    if i == 0 then 0 else Pos(text, needles, i - 1) + Written(text, needles, i - 1)
  }

  /** How many units of output position `i` of the text gives. */
  ghost function Written(text: Text, needles: set<Text>, i: nat): nat
    requires i < |text|
  {
    if !Covered(text, needles, i) then 1 else if i == 0 || !Covered(text, needles, i - 1) then |MASK| else 0
  }

  lemma {:induction false} OutputFrom(text: Text, needles: set<Text>, i: nat)
    requires i <= |text|
    ensures Pos(text, needles, i) <= |Scrubbed(text, needles)|
    ensures Scrubbed(text, needles)[Pos(text, needles, i)..] == Masked(text, needles, i)
    decreases i
  {
    hide Covered;
    if i > 0 {
      OutputFrom(text, needles, i - 1);
      var out, k := Scrubbed(text, needles), Pos(text, needles, i - 1);
      assert out[k..][Written(text, needles, i - 1)..] == out[k + Written(text, needles, i - 1)..];
    }
  }

  ghost predicate SafeOrDot(needle: Text) {
    needle == [DOT] || MaskSafe(needle)
  }

  ghost predicate OnlySafeOrDot(needles: set<Text>) {
    [DOT] in needles && forall n :: n in needles ==> SafeOrDot(n)
  }

  /** When the mask's character is a needle, exactly the masks are covered in the output. */
  lemma MasksAreCovered(text: Text, needles: set<Text>, i: nat)
    requires OnlySafeOrDot(needles) && i < |Scrubbed(text, needles)|
    ensures Covered(Scrubbed(text, needles), needles, i) <==> Scrubbed(text, needles)[i] == DOT
  {
    hide MaskSafe, Scrubbed;
    var out := Scrubbed(text, needles);
    if out[i] == DOT {
      assert out[i..i + 1] == [DOT];
      assert OccursAt(out, [DOT], i) && CoveredBy(out, [DOT], i);
    }
    if Covered(out, needles, i) {
      var n :| n in needles && CoveredBy(out, n, i);
      var q :| OccursAt(out, n, q) && q <= i < q + |n|;
      if n != [DOT] {
        OutputHidesSafeNeedle(text, needles, n);
      } else {
        assert out[q..q + 1][0] == out[q];
      }
    }
  }

  lemma KeptIsNoDot(text: Text, needles: set<Text>, i: nat)
    requires [DOT] in needles && i < |text| && !Covered(text, needles, i)
    ensures text[i] != DOT
  {
    if text[i] == DOT {
      assert text[i..i + 1] == [DOT];
      assert OccursAt(text, [DOT], i) && CoveredBy(text, [DOT], i);
    }
  }

  /** Position `i` of the text is kept, or a covered run begins there, or the text ends. */
  ghost predicate AtEdge(text: Text, needles: set<Text>, i: nat)
    requires i <= |text|
  {
    i == 0 || i == |text| || !Covered(text, needles, i) || !Covered(text, needles, i - 1)
  }

  lemma {:induction false} RunEnd(text: Text, needles: set<Text>, i: nat) returns (e: nat)
    requires i < |text| && Covered(text, needles, i)
    ensures i < e <= |text| && (e == |text| || !Covered(text, needles, e))
    ensures forall j :: i <= j < e ==> Covered(text, needles, j)
    decreases |text| - i
  {
    e := i + 1;
    if e < |text| && Covered(text, needles, e) {
      e := RunEnd(text, needles, e);
    }
  }

  /** Behind a kept unit, the output is not the mask's character. */
  lemma BehindKept(text: Text, needles: set<Text>, i: nat)
    requires [DOT] in needles && i < |text| && !Covered(text, needles, i)
    ensures var out, k := Scrubbed(text, needles), Pos(text, needles, i); k < |out| && out[k] == text[i] != DOT
  {
    hide Covered, Scrubbed;
    OutputFrom(text, needles, i);
    KeptIsNoDot(text, needles, i);
    var out, k := Scrubbed(text, needles), Pos(text, needles, i);
    assert out[k..][0] == out[k];
  }

  /** Where a covered run begins, the output goes on with one mask, behind a kept unit. */
  lemma MaskInOutput(text: Text, needles: set<Text>, i: nat, e: nat)
    requires i < e <= |text| && [DOT] in needles && AtEdge(text, needles, i)
    requires forall j :: i <= j < e ==> Covered(text, needles, j)
    ensures var out, k := Scrubbed(text, needles), Pos(text, needles, i);
      && Pos(text, needles, e) == k + |MASK| <= |out| && out[k..k + |MASK|] == MASK
      && (k > 0 ==> out[k - 1] != DOT)
  {
    hide Covered, Scrubbed;
    var out, k := Scrubbed(text, needles), Pos(text, needles, i);
    OutputFrom(text, needles, i);
    OutputFrom(text, needles, e);
    MaskedSkips(text, needles, i + 1, e);
    MaskAt(out, k, Masked(text, needles, e));
    assert Pos(text, needles, e) == k + |MASK|;
    hide Masked;
    if i > 0 {
      BehindKept(text, needles, i - 1);
    }
  }

  lemma MaskAt(out: Text, k: nat, rest: Text)
    requires k <= |out|
    ensures out[k..] == MASK + rest ==> k + |MASK| <= |out| && out[k..k + |MASK|] == MASK
  {
    if out[k..] == MASK + rest {
      assert |out[k..]| >= |MASK|;
      assert out[k..k + |MASK|] == out[k..][..|MASK|];
    }
  }

  /** So the second pass puts back one mask for each mask and keeps the rest. */
  lemma {:induction false} SecondPass(text: Text, needles: set<Text>, i: nat)
    requires OnlySafeOrDot(needles) && i <= |text| && AtEdge(text, needles, i)
    ensures Pos(text, needles, i) <= |Scrubbed(text, needles)|
    ensures Masked(Scrubbed(text, needles), needles, Pos(text, needles, i)) == Masked(text, needles, i)
    decreases |text| - i
  {
    hide Covered, SafeOrDot, Scrubbed, OnlySafeOrDot;
    var out, k := Scrubbed(text, needles), Pos(text, needles, i);
    OutputFrom(text, needles, i);
    if i < |text| {
      if !Covered(text, needles, i) {
        SecondPass(text, needles, i + 1);
        DotIsNeedle(needles);
        BehindKept(text, needles, i);
        MasksAreCovered(text, needles, k);
      } else {
        var e := RunEnd(text, needles, i);
        DotIsNeedle(needles);
        MaskInOutput(text, needles, i, e);
        SecondPass(text, needles, e);
        forall j | k <= j < k + |MASK| ensures Covered(out, needles, j) {
          assert out[j] == out[k..k + |MASK|][j - k];
          MasksAreCovered(text, needles, j);
        }
        if k > 0 {
          MasksAreCovered(text, needles, k - 1);
        }
        MaskedSkips(out, needles, k + 1, k + |MASK|);
        MaskedSkips(text, needles, i + 1, e);
      }
    }
  }

  lemma DotIsNeedle(needles: set<Text>)
    requires OnlySafeOrDot(needles)
    ensures [DOT] in needles
  {
  }

  /** Scrubbing the output again changes nothing when every needle is safe or is the mask's character
      by itself. */
  lemma ScrubbingTwiceChangesNothing(text: Text, needles: set<Text>)
    requires forall n :: n in needles ==> SafeOrDot(n)
    ensures Scrubbed(Scrubbed(text, needles), needles) == Scrubbed(text, needles)
  {
    hide MaskSafe;
    if [DOT] in needles {
      SecondPass(text, needles, 0);
    } else {
      var out := Scrubbed(text, needles);
      forall i ensures !Covered(out, needles, i) {
        if Covered(out, needles, i) {
          var n :| n in needles && CoveredBy(out, n, i);
          OutputHidesSafeNeedle(text, needles, n);
        }
      }
      MaskedKeeps(out, needles, 0, |out|);
      assert out[0..|out|] == out;
    }
  }

  // ----- Needles for which the second pass changes the text -----

  /** How many units are not the mask's character. */
  function Others(t: Text): nat {
    if t == [] then 0 else Others(t[..|t| - 1]) + if t[|t| - 1] == DOT then 0 else 1
  }

  lemma {:induction false} OthersConcat(a: Text, b: Text)
    ensures Others(a + b) == Others(a) + Others(b)
  {
    if b == [] {
      assert a + b == a;
    } else {
      OthersConcat(a, b[..|b| - 1]);
      assert (a + b)[..|a + b| - 1] == a + b[..|b| - 1];
    }
  }

  /** Scrubbing never adds such a unit, and loses each that is covered. */
  lemma {:induction false} OthersLost(text: Text, needles: set<Text>, i: nat)
    requires i <= |text|
    ensures Others(Masked(text, needles, i)) <= Others(text[i..])
    ensures (exists j :: i <= j < |text| && Covered(text, needles, j) && text[j] != DOT) ==>
      Others(Masked(text, needles, i)) < Others(text[i..])
    decreases |text| - i
  {
    hide Covered;
    if i < |text| {
      var rest := Masked(text, needles, i + 1);
      OthersLost(text, needles, i + 1);
      assert text[i..] == [text[i]] + text[i + 1..];
      OthersConcat([text[i]], text[i + 1..]);
      OthersConcat([text[i]], rest);
      OthersConcat(MASK, rest);
      OthersOf(text[i]);
    }
  }

  lemma OthersOf(u: CodeUnit)
    ensures Others([u]) == if u == DOT then 0 else 1
    ensures Others(MASK) == 0
  {
    assert MASK[..2][..1] == MASK[..1] && MASK[..1][..0] == [];
  }

  /** An output that holds a needle with such a unit loses it in the second pass. */
  lemma LosesUnit(out: Text, needles: set<Text>, needle: Text, q: nat, k: nat)
    requires needle in needles && OccursAt(out, needle, q) && k < |needle| && needle[k] != DOT
    ensures Scrubbed(out, needles) != out
  {
    assert CoveredBy(out, needle, q + k);
    UnitAt(out, needle, q, k);
    OthersLost(out, needles, 0);
    assert out[0..] == out;
  }

  /** Two or more of the mask's characters as a needle: an output of them alone becomes one mask. */
  lemma LosesDots(needle: Text, needles: set<Text>)
    requires |needle| > 1 && needle == Repeated(DOT, |needle|) && needle in needles
    ensures var out := Repeated(DOT, |needle| - 1) + (MASK + []); Scrubbed(out, needles) != out
  {
    var n, out := |needle|, Repeated(DOT, |needle| - 1) + (MASK + []);
    forall i | 0 <= i < |out| ensures Covered(out, needles, i) {
      var q := if i < n then 0 else 2;
      assert out[q..q + n] == needle;
      assert OccursAt(out, needle, q) && CoveredBy(out, needle, i);
    }
    assert Masked(out, needles, |out|) == [];
    MaskedSkips(out, needles, 1, |out|);
    assert |Scrubbed(out, needles)| == 3;
  }

  ghost predicate SameTwice(needle: Text) {
    forall text, needles: set<Text> | needle in needles && SafeBut(needles, needle)
      :: Scrubbed(Scrubbed(text, needles), needles) == Scrubbed(text, needles)
  }

  ghost predicate SafeBut(needles: set<Text>, needle: Text) {
    forall n :: n in needles ==> n == needle || MaskSafe(n)
  }

  /** Beside safe needles, a needle never makes a second pass change the output exactly when it is
      safe too or is the mask's character by itself. */
  lemma SameTwiceExactly(needle: Text)
    requires needle != []
    ensures SameTwice(needle) <==> SafeOrDot(needle)
  {
    hide MaskSafe, Scrubbed;
    if SafeOrDot(needle) {
      forall text, needles: set<Text> | needle in needles && SafeBut(needles, needle)
        ensures Scrubbed(Scrubbed(text, needles), needles) == Scrubbed(text, needles)
      {
        ScrubbingTwiceChangesNothing(text, needles);
      }
    } else {
      var p, s := ChangedTwice(needle);
      MarkerIsSafe(needle);
      assert SafeBut({needle, Marker(needle)}, needle);
    }
  }

  lemma ChangedTwice(needle: Text) returns (p: Text, s: Text)
    requires needle != [] && !SafeOrDot(needle)
    ensures var text, needles := p + Marker(needle) + s, {needle, Marker(needle)};
      Scrubbed(Scrubbed(text, needles), needles) != Scrubbed(text, needles)
  {
    hide MaskSafe, Scrubbed, Marker;
    var needles := {needle, Marker(needle)};
    if k :| 0 <= k < |needle| && needle[k] != DOT {
      var q;
      p, s, q := PiecesOf(needle);
      MarkerBecomesMask(needle, p, s);
      LosesUnit(p + (MASK + s), needles, needle, q, k);
    } else {
      assert needle == Repeated(DOT, |needle|);
      p, s := Repeated(DOT, |needle| - 1), [];
      assert |needle| == 1 ==> needle == [DOT];
      MarkerBecomesMask(needle, p, s);
      LosesDots(needle, needles);
    }
  }
}
