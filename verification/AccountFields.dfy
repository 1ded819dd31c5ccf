/** The cleaning that `accountFields` of `packages/core/src/account-note.ts` does before a note is
    written, and why its records always read back. */
module AccountFields {
  import opened Lists
  import opened Options
  import opened JsText
  import opened AccountNote
  import opened AccountRoundTrip

  const FALLBACK: Text := Ascii("field")

  predicate IsMark(u: CodeUnit) {
    u == QUOTE || u == 0x27 || u == 0x2C || u == 0x3A
  }

  function WithoutMarks(t: Text): (r: Text)
    ensures |r| == |t| && forall u :: u in r ==> !IsMark(u)
  {
    seq(|t|, i requires 0 <= i < |t| => if IsMark(t[i]) then SPACE else t[i])
  }

  /** Each run of white space becomes one space. */
  function Collapsed(t: Text): (r: Text)
    ensures forall u :: u in r ==> (u == SPACE || (u in t && !IsSpace(u)))
    decreases |t|
  {
    if t == [] then []
    else if IsSpace(t[0]) then
      TrimStartStarts(t[1..]);
      TrimKeeps(t[1..]);
      [SPACE] + Collapsed(TrimStart(t[1..]))
    else [t[0]] + Collapsed(t[1..])
  }

  function CleanLabel(name: Text): Text {
    var t := Trim(Front(Trim(Collapsed(WithoutMarks(name))), MAX_LABEL));
    if t == [] then FALLBACK else t
  }

  function ShortValue(value: Text): Text {
    Front(Trim(Collapsed(value)), MAX_VALUE)
  }

  lemma TrimKeeps(t: Text)
    ensures forall u :: u in TrimStart(t) ==> u in t
    ensures forall u :: u in Trim(t) ==> u in t
  {
  }

  /** No quote, comma or colon is left, nor white space other than single spaces inside. */
  lemma CleanLabelIsClean(name: Text)
    ensures LabelIsClean(CleanLabel(name)) && OneLine(CleanLabel(name))
    ensures IsTrimmed(CleanLabel(name)) && |CleanLabel(name)| <= MAX_LABEL
    ensures forall u :: u in CleanLabel(name) ==> !IsMark(u) && (IsSpace(u) ==> u == SPACE)
  {
    hide Trim, Collapsed, WithoutMarks, IsSpace, IsTrimmed;
    var a := Collapsed(WithoutMarks(name));
    var b := Front(Trim(a), MAX_LABEL);
    TrimKeeps(a);
    TrimKeeps(b);
    TrimShorter(b);
    FallbackIsClean();
    AllSpacesPlain(CleanLabel(name));
    forall i | 0 <= i < |CleanLabel(name)|
      ensures !IsMark(CleanLabel(name)[i])
    {
      assert CleanLabel(name)[i] in CleanLabel(name);
    }
  }

  lemma TrimShorter(t: Text)
    ensures |Trim(t)| <= |t|
  {
    TrimStartStarts(t);
  }

  lemma FallbackIsClean()
    ensures FALLBACK != [] && IsTrimmed(FALLBACK) && |FALLBACK| <= MAX_LABEL
    ensures forall u :: u in FALLBACK ==> !IsMark(u) && !IsSpace(u)
  {
  }

  lemma AllSpacesPlain(t: Text)
    requires forall u :: u in t ==> IsSpace(u) ==> u == SPACE
    ensures OneLine(t) && NoLineSeparator(t)
  {
    forall i | 0 <= i < |t|
      ensures !IsLineTerminator(t[i])
    {
      assert t[i] in t;
    }
  }

  lemma ShortValueFits(value: Text)
    ensures NoLineSeparator(ShortValue(value)) && |ShortValue(value)| <= MAX_VALUE
  {
    hide Trim, Collapsed, IsSpace;
    TrimKeeps(Collapsed(value));
    AllSpacesPlain(ShortValue(value));
  }

  // ----- What of a label and of a value stays -----

  predicate IsGap(u: CodeUnit) {
    u == 0x22 || u == 0x27 || u == 0x2C || u == 0x3A || IsSpace(u)
  }

  /** How far a word reaches. */
  function WordLength(t: Text, gap: CodeUnit -> bool): (n: nat)
    ensures n <= |t| && (t != [] && !gap(t[0]) ==> n > 0)
    ensures (forall i :: 0 <= i < n ==> !gap(t[i])) && (n < |t| ==> gap(t[n]))
  {
    if t == [] || gap(t[0]) then 0 else 1 + WordLength(t[1..], gap)
  }

  /** The stretches of a text between gaps. */
  function Words(t: Text, gap: CodeUnit -> bool): seq<Text>
    decreases |t|
  {
    if t == [] then []
    else if gap(t[0]) then Words(t[1..], gap)
    else
      var n := WordLength(t, gap);
      [t[..n]] + Words(t[n..], gap)
  }

  function SpacedOut(words: seq<Text>): Text {
    if words == [] then []
    else if |words| == 1 then words[0]
    else words[0] + ([SPACE] + SpacedOut(words[1..]))
  }

  /** Marks become spaces, so they part words as spaces do. */
  lemma {:induction false} MarksAreGaps(t: Text)
    ensures Words(WithoutMarks(t), IsSpace) == Words(t, IsGap)
    decreases |t|
  {
    hide IsSpace, WithoutMarks;
    if t != [] {
      var m := WithoutMarks(t);
      MarksIn(t);
      if IsGap(t[0]) {
        MarksAreGaps(t[1..]);
        SameWithoutMarks(t, 1);
      } else {
        var n := WordLength(t, IsGap);
        SameWordLength(t);
        MarksAreGaps(t[n..]);
        SameWithoutMarks(t, n);
        assert m[..n] == t[..n];
      }
    }
  }

  lemma MarksIn(t: Text)
    ensures forall i :: 0 <= i < |t| ==> (IsSpace(WithoutMarks(t)[i]) <==> IsGap(t[i]))
    ensures forall i :: 0 <= i < |t| && !IsGap(t[i]) ==> WithoutMarks(t)[i] == t[i]
  {
  }

  lemma SameWithoutMarks(t: Text, n: nat)
    requires n <= |t|
    ensures WithoutMarks(t)[n..] == WithoutMarks(t[n..])
  {
  }

  lemma SameWordLength(t: Text)
    ensures WordLength(WithoutMarks(t), IsSpace) == WordLength(t, IsGap)
  {
    MarksIn(t);
    hide IsSpace, WithoutMarks;
    var a, b := WordLength(WithoutMarks(t), IsSpace), WordLength(t, IsGap);
  }

  /** The one space that is left of white space at the start and at the end. */
  function Lead(t: Text): Text {
    if t != [] && IsSpace(t[0]) then [SPACE] else []
  }

  function Tail(t: Text): Text {
    if Words(t, IsSpace) != [] && IsSpace(t[|t| - 1]) then [SPACE] else []
  }

  lemma {:induction false} CollapsedIs(t: Text)
    ensures Collapsed(t) == Lead(t) + SpacedOut(Words(t, IsSpace)) + Tail(t)
    decreases |t|
  {
    hide IsSpace, SpacedOut, Words, Lead, Tail, Collapsed;
    CollapsedOne(t);
    if t == [] {
      NoWords();
    } else if IsSpace(t[0]) {
      StartStays(t[1..]);
      CollapsedIs(TrimStart(t[1..]));
      SpaceInFront(t);
    } else {
      CollapsedIs(t[1..]);
      FirstWord(t);
    }
  }

  lemma CollapsedOne(t: Text)
    ensures Collapsed(t) ==
      if t == [] then [] else if IsSpace(t[0]) then [SPACE] + Collapsed(TrimStart(t[1..])) else [t[0]] + Collapsed(t[1..])
  {
  }

  lemma SpaceInFront(t: Text)
    requires t != [] && IsSpace(t[0])
    ensures var r := TrimStart(t[1..]);
      Lead(t) == [SPACE] && Lead(r) == [] && Words(t, IsSpace) == Words(r, IsSpace) && Tail(t) == Tail(r)
  {
    hide IsSpace;
    StartStays(t[1..]);
  }

  lemma NoWords()
    ensures Words([], IsSpace) == [] && SpacedOut([]) == [] && Lead([]) == [] && Tail([]) == []
  {
  }

  lemma {:induction false} StartStays(t: Text)
    ensures |TrimStart(t)| <= |t| && (TrimStart(t) != [] ==> !IsSpace(TrimStart(t)[0]) && TrimStart(t)[|TrimStart(t)| - 1] == t[|t| - 1])
    ensures Words(TrimStart(t), IsSpace) == Words(t, IsSpace)
    ensures TrimStart(t) == [] ==> Words(t, IsSpace) == []
  {
    hide IsSpace;
    if t != [] && IsSpace(t[0]) {
      StartStays(t[1..]);
    }
  }

  /** One character more in front makes the first word longer, or a word of its own. */
  lemma FirstWord(t: Text)
    requires t != [] && !IsSpace(t[0])
    ensures [t[0]] + (Lead(t[1..]) + SpacedOut(Words(t[1..], IsSpace)) + Tail(t[1..])) == Lead(t) + SpacedOut(Words(t, IsSpace)) + Tail(t)
  {
    hide IsSpace, SpacedOut, Words, Lead, Tail;
    if t[1..] == [] || IsSpace(t[1..][0]) {
      WordOfItsOwn(t);
    } else {
      LongerWord(t);
    }
  }

  lemma WordOfItsOwn(t: Text)
    requires t != [] && !IsSpace(t[0]) && (t[1..] == [] || IsSpace(t[1..][0]))
    ensures [t[0]] + (Lead(t[1..]) + SpacedOut(Words(t[1..], IsSpace)) + Tail(t[1..])) == Lead(t) + SpacedOut(Words(t, IsSpace)) + Tail(t)
  {
    hide IsSpace, SpacedOut, Words, Tail;
    var rest := t[1..];
    var more := Words(rest, IsSpace);
    ShortWord(t);
    OneMoreWord([t[0]], more);
    NoWords();
    TailBehind(t);
    if rest == [] {
      assert Lead(rest) + SpacedOut(more) + Tail(rest) == [];
    } else if more == [] {
      assert Lead(rest) + SpacedOut(more) + Tail(rest) == [SPACE];
    }
  }

  lemma TailBehind(t: Text)
    requires t != [] && !IsSpace(t[0])
    requires Words(t, IsSpace) == [[t[0]]] + Words(t[1..], IsSpace)
    ensures Tail(t) == if Words(t[1..], IsSpace) == [] && t[1..] != [] then [SPACE] else Tail(t[1..])
    ensures Words(t[1..], IsSpace) == [] ==> Tail(t[1..]) == []
  {
    hide IsSpace, Words;
    NoWordsMeansSpace(t[1..]);
    NoWords();
    assert t[1..] != [] ==> t[1..][|t| - 2] == t[|t| - 1];
  }

  lemma LongerWord(t: Text)
    requires t != [] && !IsSpace(t[0]) && t[1..] != [] && !IsSpace(t[1..][0])
    ensures [t[0]] + (Lead(t[1..]) + SpacedOut(Words(t[1..], IsSpace)) + Tail(t[1..])) == Lead(t) + SpacedOut(Words(t, IsSpace)) + Tail(t)
  {
    hide IsSpace, SpacedOut, Words;
    var rest := t[1..];
    var n := WordLength(rest, IsSpace);
    LongWord(t);
    Lengthened(t[0], rest[..n], Words(rest[n..], IsSpace));
  }

  lemma {:induction false} NoWordsMeansSpace(t: Text)
    ensures Words(t, IsSpace) == [] ==> AllSpace(t)
    decreases |t|
  {
    hide IsSpace;
    if t != [] && IsSpace(t[0]) {
      NoWordsMeansSpace(t[1..]);
    }
  }

  lemma WordInFront(t: Text)
    requires t != [] && !IsSpace(t[0])
    ensures var n := WordLength(t, IsSpace); Words(t, IsSpace) == [t[..n]] + Words(t[n..], IsSpace)
  {
    hide IsSpace;
  }

  lemma ShortWord(t: Text)
    requires t != [] && !IsSpace(t[0]) && (t[1..] == [] || IsSpace(t[1..][0]))
    ensures Words(t, IsSpace) == [[t[0]]] + Words(t[1..], IsSpace)
  {
    hide IsSpace, Words;
    WordInFront(t);
    assert WordLength(t[1..], IsSpace) == 0;
    assert WordLength(t, IsSpace) == 1 && t[..1] == [t[0]];
  }

  lemma LongWord(t: Text)
    requires t != [] && !IsSpace(t[0]) && t[1..] != [] && !IsSpace(t[1..][0])
    ensures var rest := t[1..];
      var n := WordLength(rest, IsSpace);
      && Words(rest, IsSpace) == [rest[..n]] + Words(rest[n..], IsSpace)
      && Words(t, IsSpace) == [[t[0]] + rest[..n]] + Words(rest[n..], IsSpace)
  {
    hide IsSpace, Words;
    var rest := t[1..];
    var n := WordLength(rest, IsSpace);
    WordInFront(t);
    WordInFront(rest);
    assert WordLength(t, IsSpace) == n + 1;
    assert t[..n + 1] == [t[0]] + rest[..n] && t[n + 1..] == rest[n..];
  }

  lemma OneMoreWord(w: Text, more: seq<Text>)
    ensures SpacedOut([w] + more) == if more == [] then w else w + ([SPACE] + SpacedOut(more))
  {
    assert ([w] + more)[1..] == more;
  }

  lemma Lengthened(u: CodeUnit, w: Text, more: seq<Text>)
    ensures SpacedOut([[u] + w] + more) == [u] + SpacedOut([w] + more)
  {
    assert ([[u] + w] + more)[1..] == more && ([w] + more)[1..] == more;
  }

  lemma {:induction false} SpacedOutIsTrimmed(t: Text)
    ensures IsTrimmed(SpacedOut(Words(t, IsSpace)))
    ensures SpacedOut(Words(t, IsSpace)) == [] <==> Words(t, IsSpace) == []
    decreases |t|
  {
    if t != [] {
      hide IsSpace;
      if IsSpace(t[0]) {
        SpacedOutIsTrimmed(t[1..]);
      } else {
        var n := WordLength(t, IsSpace);
        var more := Words(t[n..], IsSpace);
        SpacedOutIsTrimmed(t[n..]);
        assert ([t[..n]] + more)[1..] == more;
      }
    }
  }

  lemma WordsStay(t: Text)
    ensures Trim(Collapsed(t)) == SpacedOut(Words(t, IsSpace))
  {
    hide Trim, Collapsed, Words, SpacedOut;
    CollapsedIs(t);
    SpacedOutIsTrimmed(t);
    TrimIs(Lead(t), SpacedOut(Words(t, IsSpace)), Tail(t));
  }

  /** A label keeps its words with one space between them, as much as 24 characters hold; one without
      words is called a field. */
  lemma CleanLabelIs(name: Text)
    ensures var words := Words(name, IsGap);
      CleanLabel(name) == if words == [] then Ascii("field") else Trim(Front(SpacedOut(words), 24))
  {
    hide Trim, Collapsed, Words, SpacedOut, WithoutMarks, IsSpace;
    MarksAreGaps(name);
    WordsStay(WithoutMarks(name));
    SpacedOutIsTrimmed(WithoutMarks(name));
    var full := SpacedOut(Words(name, IsGap));
    if full != [] {
      NotAllSpace(Front(full, MAX_LABEL));
    } else {
      var none: Text := [];
      assert none + none + none == none;
      TrimIs(none, none, none);
    }
  }

  lemma NotAllSpace(t: Text)
    requires t != [] && !IsSpace(t[0])
    ensures Trim(t) != []
  {
  }

  /** A value keeps its words with one space between them, as much as 60 characters hold. */
  lemma ShortValueIs(value: Text)
    ensures ShortValue(value) == Front(SpacedOut(Words(value, IsSpace)), 60)
  {
    WordsStay(value);
  }

  /** Any choice of fields of a form, in any order, as they are kept. */
  function Kept(read: seq<Field>): seq<Field> {
    seq(|read|, i requires 0 <= i < |read| => Field(CleanLabel(read[i].name), ShortValue(read[i].value)))
  }

  /** Whatever the labels and values of a form were, the note of the fields kept from it reads back,
      with the page cut to its limit. */
  lemma KeptFieldsReadBack(page: Option<Text>, read: seq<Field>)
    requires read != [] && (page.Some? ==> PageIsWord(page.value))
    ensures var back := if page.None? then None else Some(Front(page.value, MAX_PAGE));
      Parsed(Note(Record(page, Kept(read)))) == Some(Record(back, Kept(read)))
  {
    hide Parsed, Note, CleanLabel, ShortValue, LabelIsClean, OneLine, NoLineSeparator;
    forall i | 0 <= i < |read|
      ensures LabelIsClean(CleanLabel(read[i].name)) && FieldOnOneLine(Kept(read)[i])
    {
      CleanLabelIsClean(read[i].name);
      ShortValueFits(read[i].value);
    }
    assert FieldsPrint(Kept(read));
    if page.None? {
      NoPageComesBack(Kept(read));
    } else {
      CutPageComesBack(page.value, Kept(read));
    }
  }
}
