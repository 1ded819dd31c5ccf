/** JavaScript strings as sequences of UTF-16 code units, and the few string
    operations the modelled code shares. */
module JsText {

  type CodeUnit = u: int | 0 <= u < 0x1_0000

  type Text = seq<CodeUnit>

  /** A literal in the Basic Latin range, as code units. */
  function Ascii(s: string): Text
    requires forall c :: c in s ==> c as int < 0x80
  {
    seq<CodeUnit>(|s|, i requires 0 <= i < |s| => assert s[i] in s; s[i] as int as CodeUnit)
  }

  /** The set matched by `\s` and removed by `trim`: white space and line terminators. */
  predicate IsSpace(u: CodeUnit) {
    0x09 <= u <= 0x0D || u == 0x20 || u == 0xA0 || u == 0x1680 || 0x2000 <= u <= 0x200A ||
    u == 0x2028 || u == 0x2029 || u == 0x202F || u == 0x205F || u == 0x3000 || u == 0xFEFF
  }

  /** What `.` does not match in a regular expression. */
  predicate IsLineTerminator(u: CodeUnit) {
    u == 0x0A || u == 0x0D || u == 0x2028 || u == 0x2029
  }

  predicate IsHighSurrogate(u: CodeUnit) {
    0xD800 <= u <= 0xDBFF
  }

  predicate IsLowSurrogate(u: CodeUnit) {
    0xDC00 <= u <= 0xDFFF
  }

  // ----- `trim`, and `clip` of `packages/core/src/setup.ts` -----

  function TrimStart(t: Text): Text {
    if t != [] && IsSpace(t[0]) then TrimStart(t[1..]) else t
  }

  function TrimEnd(t: Text): (r: Text)
    ensures |r| <= |t| && r == t[..|r|]
    ensures r != [] ==> !IsSpace(r[|r| - 1])
    ensures t != [] && !IsSpace(t[0]) ==> r != []
  {
    if t != [] && IsSpace(t[|t| - 1]) then TrimEnd(t[..|t| - 1]) else t
  }

  function Trim(t: Text): (r: Text)
    ensures IsTrimmed(r)
  {
    TrimStartStarts(t);
    TrimEnd(TrimStart(t))
  }

  predicate IsTrimmed(t: Text) {
    t != [] ==> !IsSpace(t[0]) && !IsSpace(t[|t| - 1])
  }

  lemma TrimStartStarts(t: Text)
    ensures TrimStart(t) != [] ==> !IsSpace(TrimStart(t)[0])
    ensures |TrimStart(t)| <= |t|
  {
  }

  predicate AllSpace(t: Text) {
    forall i :: 0 <= i < |t| ==> IsSpace(t[i])
  }

  lemma {:induction false} StartIsCut(a: Text, r: Text)
    requires AllSpace(a)
    ensures TrimStart(a + r) == TrimStart(r)
  {
    if a == [] {
      assert a + r == r;
    } else {
      assert (a + r)[1..] == a[1..] + r;
      StartIsCut(a[1..], r);
    }
  }

  lemma {:induction false} EndIsCut(r: Text, b: Text)
    requires AllSpace(b)
    ensures TrimEnd(r + b) == TrimEnd(r)
  {
    if b == [] {
      assert r + b == r;
    } else {
      assert (r + b)[..|r + b| - 1] == r + b[..|b| - 1];
      EndIsCut(r, b[..|b| - 1]);
    }
  }

  /** Whatever white space stands around a text that has none at its ends, trimming gives that text, */
  lemma TrimIs(a: Text, r: Text, b: Text)
    requires AllSpace(a) && AllSpace(b) && IsTrimmed(r)
    ensures Trim(a + r + b) == r
  {
    assert a + r + b == a + (r + b);
    StartIsCut(a, r + b);
    if r == [] {
      StartIsCut(b, []);
      assert r + b == b && b + [] == b;
    } else {
      assert TrimStart(r + b) == r + b;
      EndIsCut(r, b);
    }
  }

  lemma {:induction false} StartSplits(t: Text) returns (a: Text)
    ensures AllSpace(a) && t == a + TrimStart(t)
  {
    a := [];
    if t != [] && IsSpace(t[0]) {
      a := StartSplits(t[1..]);
      a := [t[0]] + a;
    }
  }

  lemma {:induction false} EndSplits(t: Text) returns (b: Text)
    ensures AllSpace(b) && t == TrimEnd(t) + b
  {
    b := [];
    if t != [] && IsSpace(t[|t| - 1]) {
      b := EndSplits(t[..|t| - 1]);
      b := b + [t[|t| - 1]];
    }
  }

  /** and every text is like that. */
  lemma TrimSplits(t: Text) returns (a: Text, b: Text)
    ensures AllSpace(a) && AllSpace(b) && t == a + Trim(t) + b
  {
    hide TrimStart, TrimEnd;
    a := StartSplits(t);
    b := EndSplits(TrimStart(t));
  }

  predicate EndsInHighSurrogate(t: Text) {
    t != [] && IsHighSurrogate(t[|t| - 1])
  }

  function CutAt(t: Text, max: nat): (r: Text)
    ensures |r| <= max && |r| <= |t|
  {
    var cut := if |t| > max then t[..max] else t;
    if EndsInHighSurrogate(cut) then cut[..|cut| - 1] else cut
  }

  function Clip(t: Text, max: nat): (r: Text)
    ensures IsTrimmed(r) && |r| <= max
  {
    TrimStartStarts(CutAt(Trim(t), max));
    Trim(CutAt(Trim(t), max))
  }

  lemma CutTrims(r: Text, n: nat)
    requires IsTrimmed(r) && n <= |r|
    ensures Trim(r[..n]) <= r && |Trim(r[..n])| <= n
    ensures forall i :: |Trim(r[..n])| <= i < n ==> IsSpace(r[i])
  {
    var a, b := TrimSplits(r[..n]);
    assert n > 0 ==> r[..n][0] == r[0] && !IsSpace(r[0]);
    assert a == [];
    assert r[..n] == Trim(r[..n]) + b;
    forall i | |Trim(r[..n])| <= i < n ensures IsSpace(r[i]) {
      assert r[..n][i] == b[i - |Trim(r[..n])|];
    }
  }

  /** A clipped text is the start of the trimmed one. Of what `max` units hold, only white space at the
      end is left out, and before it at most one high surrogate, which is the last of them. */
  lemma ClipIs(t: Text, max: nat)
    ensures var r, c := Trim(t), Clip(t, max);
      var n := if |r| > max then max else |r|;
      && c <= r && |c| <= n
      && (forall i :: |c| <= i < n ==> IsSpace(r[i]) || (i == n - 1 && IsHighSurrogate(r[i])))
      && (|c| == n > 0 ==> !IsHighSurrogate(r[n - 1]))
  {
    var r := Trim(t);
    var n := if |r| > max then max else |r|;
    assert r[..|r|] == r;
    var cut := CutAt(r, max);
    assert cut == r[..|cut|];
    CutTrims(r, |cut|);
  }

  /** Clipping a clipped text again changes it exactly when it ends in half a surrogate pair. */
  lemma ClipAgain(t: Text, max: nat)
    ensures Clip(Clip(t, max), max) == Clip(t, max) <==> !EndsInHighSurrogate(Clip(t, max))
  {
    var r := Clip(t, max);
    if EndsInHighSurrogate(r) {
      TrimStartStarts(CutAt(r, max));
      assert |Clip(r, max)| < |r|;
    }
  }

  /** Two high surrogates in a row lose one each time. */
  lemma ClipIsNotIdempotent()
    ensures Clip([0xD800, 0xD800], 300) == [0xD800] && Clip([0xD800], 300) == []
  {
  }
}
