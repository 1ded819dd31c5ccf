/** Writing an account note and reading it back: exactly which records survive, and that those made
    by `accountFields` of `packages/core/src/account-note.ts` are among them. */
module AccountRoundTrip {
  import opened Lists
  import opened Options
  import opened JsText
  import opened AccountNote

  // ----- One string -----

  lemma StringStep(head: Text, t: Text)
    requires StringLength(t).Some?
    requires (|head| == 1 && head[0] != QUOTE && head[0] != BACKSLASH) || (|head| == 2 && head[0] == BACKSLASH)
    ensures StringLength(head + t) == Some(|head| + StringLength(t).value)
  {
    assert (head + t)[|head|..] == t;
  }

  lemma {:induction false} PlainRun(run: Text, t: Text)
    requires StringLength(t).Some? && QUOTE !in run && BACKSLASH !in run
    ensures StringLength(run + t) == Some(|run| + StringLength(t).value)
  {
    hide StringLength;
    if run == [] {
      assert run + t == t;
    } else {
      PlainRun(run[1..], t);
      StringStep(run[..1], run[1..] + t);
      assert run + t == run[..1] + (run[1..] + t);
    }
  }

  lemma Regroup(a: Text, b: Text, c: Text)
    ensures a + b + c == a + (b + c)
  {
  }

  lemma HexIsPlain(u: CodeUnit)
    ensures QUOTE !in Hex4(u) && BACKSLASH !in Hex4(u) && |Hex4(u)| == 4
  {
  }

  lemma EscapeShape(u: CodeUnit)
    ensures var e := EscapeUnit(u);
      (|e| == 1 && e[0] != QUOTE && e[0] != BACKSLASH) || (|e| == 2 && e[0] == BACKSLASH) || e == [BACKSLASH, 0x75] + Hex4(u)
  {
    hide Hex4;
  }

  lemma EscapeStep(u: CodeUnit, t: Text)
    requires StringLength(t).Some?
    ensures StringLength(EscapeUnit(u) + t) == Some(|EscapeUnit(u)| + StringLength(t).value)
  {
    hide StringLength, EscapeUnit, Hex4;
    EscapeShape(u);
    var e := EscapeUnit(u);
    if e == [BACKSLASH, 0x75] + Hex4(u) {
      HexIsPlain(u);
      PlainRun(Hex4(u), t);
      StringStep([BACKSLASH, 0x75], Hex4(u) + t);
      Regroup([BACKSLASH, 0x75], Hex4(u), t);
    } else {
      StringStep(e, t);
    }
  }

  /** What `Escaped` does at the front. */
  lemma EscapedFront(v: Text)
    requires v != []
    ensures |v| > 1 && IsHighSurrogate(v[0]) && IsLowSurrogate(v[1]) ==> Escaped(v) == [v[0], v[1]] + Escaped(v[2..])
    ensures !(|v| > 1 && IsHighSurrogate(v[0]) && IsLowSurrogate(v[1])) ==> Escaped(v) == EscapeUnit(v[0]) + Escaped(v[1..])
  {
    hide EscapeUnit;
  }

  /** A printed string ends at its own closing quote, whatever follows. */
  lemma {:induction false} StringEnds(v: Text, rest: Text)
    ensures StringLength(Escaped(v) + ([QUOTE] + rest)) == Some(|Escaped(v)| + 1)
    decreases |v|
  {
    hide EscapeUnit, StringLength, Escaped;
    var close := [QUOTE] + rest;
    if v == [] {
      Close(rest);
    } else {
      EscapedFront(v);
      if |v| > 1 && IsHighSurrogate(v[0]) && IsLowSurrogate(v[1]) {
        StringEnds(v[2..], rest);
        PlainRun([v[0], v[1]], Escaped(v[2..]) + close);
        Regroup([v[0], v[1]], Escaped(v[2..]), close);
      } else {
        StringEnds(v[1..], rest);
        EscapeStep(v[0], Escaped(v[1..]) + close);
        Regroup(EscapeUnit(v[0]), Escaped(v[1..]), close);
      }
    }
  }

  lemma Close(rest: Text)
    ensures StringLength(Escaped([]) + ([QUOTE] + rest)) == Some(1) && Escaped([]) == []
  {
    assert Escaped([]) + ([QUOTE] + rest) == [QUOTE] + rest;
  }

  // ----- One field -----

  lemma FieldPieces(name: Text, e: Text, rest: Text)
    ensures var t, q := name + ([SPACE] + ([QUOTE] + (e + [QUOTE]))) + rest, |name| + 1;
      |t| == q + 2 + |e| + |rest| && t[q - 1] == SPACE && t[q] == QUOTE && t[..q - 1] == name &&
      t[q + 1..] == e + ([QUOTE] + rest) && t[q + 1..q + 1 + |e|] == e && t[q + 2 + |e|..] == rest
  {
  }

  /** A printed field with a clean name is found as it was, when `, ` or nothing is behind it. */
  lemma FieldReads(f: Field, rest: Text)
    requires LabelIsClean(f.name) && (rest == [] || StartsWith(rest, COMMA))
    ensures FieldFrom(FieldText(f) + rest) == Some(FieldMatch(f.name, Escaped(f.value), rest))
  {
    hide FirstStop, StringLength, Escaped, StartsWith;
    var t, q, e := FieldText(f) + rest, |f.name| + 1, Escaped(f.value);
    FieldPieces(f.name, e, rest);
    assert t[..q - 1] == f.name;
    forall i | 0 <= i < q
      ensures t[i] != QUOTE && t[i] != 0x2C
    {
      assert i < q - 1 ==> t[i] == t[..q - 1][i];
    }
    StringEnds(f.value, rest);
  }

  // ----- All fields -----

  function Printed(fields: seq<Field>): seq<(Text, Text)> {
    seq(|fields|, i requires 0 <= i < |fields| => (fields[i].name, Escaped(fields[i].value)))
  }

  ghost predicate NamesAreClean(fields: seq<Field>) {
    forall i :: 0 <= i < |fields| ==> LabelIsClean(fields[i].name)
  }

  lemma {:induction false} MoreFieldsRead(fields: seq<Field>)
    requires NamesAreClean(fields)
    ensures Matches(MoreFields(fields), false) == Printed(fields)
    decreases |fields|
  {
    hide FieldFrom, FieldText, Escaped;
    if fields != [] {
      var more := MoreFields(fields[1..]);
      var t := COMMA + (FieldText(fields[0]) + more);
      MoreFieldsRead(fields[1..]);
      FieldReads(fields[0], more);
      assert t[2..] == FieldText(fields[0]) + more;
      assert Printed(fields) == [(fields[0].name, Escaped(fields[0].value))] + Printed(fields[1..]);
    }
  }

  lemma BodyReads(fields: seq<Field>)
    requires NamesAreClean(fields) && fields != []
    ensures Matches(Body(fields), true) == Printed(fields)
  {
    hide FieldFrom, FieldText, Escaped;
    var more := MoreFields(fields[1..]);
    MoreFieldsRead(fields[1..]);
    FieldReads(fields[0], more);
    assert Printed(fields) == [(fields[0].name, Escaped(fields[0].value))] + Printed(fields[1..]);
  }

  lemma {:induction false} FieldsComeBack(fields: seq<Field>)
    ensures FieldsOf(Printed(fields)) == Some(fields)
    decreases |fields|
  {
    hide Escaped, Unescaped;
    if fields != [] {
      var n := |fields| - 1;
      FieldsComeBack(fields[..n]);
      JsonRoundTrip(fields[n].value);
      assert Printed(fields)[..n] == Printed(fields[..n]);
      assert fields == fields[..n] + [fields[n]];
    }
  }

  lemma {:induction false} FieldsKeepNames(matches: seq<(Text, Text)>)
    requires FieldsOf(matches).Some?
    ensures |FieldsOf(matches).value| == |matches|
    ensures forall i :: 0 <= i < |matches| ==> FieldsOf(matches).value[i].name == matches[i].0
    decreases |matches|
  {
    hide Unescaped;
    if matches != [] {
      FieldsKeepNames(matches[..|matches| - 1]);
    }
  }

  // ----- The note around them -----

  lemma RunIs(t: Text, n: nat)
    requires n < |t| && IsSpace(t[n])
    ensures Run(t) <= n && ((forall i :: 0 <= i < n ==> !IsSpace(t[i])) ==> Run(t) == n)
  {
  }

  lemma {:induction false} NoPageBefore(t: Text, n: nat)
    requires n + 1 < |t| && forall i :: 0 <= i <= n + 1 ==> !IsSpace(t[i])
    ensures PageLength(t, n) == 0
    decreases n
  {
    if n > 0 {
      NoPageBefore(t, n - 1);
      assert t[n..][1] == t[n + 1];
    }
  }

  /** What reads as the page is no longer than the page that was written. */
  lemma PageStaysShort(page: Text, body: Text)
    ensures var t := page + (COLON + body); PageLength(t, Run(t)) <= |page|
  {
    var t := page + (COLON + body);
    RunIs(t, |page| + 1);
  }

  lemma PageIsFound(page: Text, body: Text)
    requires PageIsWord(page)
    ensures var t := page + (COLON + body); PageLength(t, Run(t)) == if IsBody(body) then |page| else 0
  {
    hide IsBody;
    var t, n := page + (COLON + body), |page|;
    RunIs(t, n + 1);
    assert t[n..] == COLON + body && t[n + 2..] == body;
    assert PageLength(t, n + 1) == PageLength(t, n) by {
    }
    NoPageBefore(t, n - 1);
  }

  lemma PartsOfPaged(t: Text)
    ensures var n := PageLength(t, Run(t));
      NoteParts(PREFIX + (ON + t)) == if n == 0 then None else Some((Some(t[..n]), t[n + 2..]))
  {
    hide IsBody, Run, PageLength, PageIsWord;
    var text := PREFIX + (ON + t);
    assert text[|PREFIX|..] == ON + t;
    assert (ON + t)[|ON|..] == t;
  }

  lemma PagedText(page: Text, body: Text)
    ensures var t := page + (COLON + body);
      ON + page + (COLON + body) == ON + t && t[..|page|] == page && |t| >= |page| + 2 && t[|page| + 2..] == body
  {
  }

  /** The parts of a note with a page. */
  lemma PartsWithPage(page: Text, body: Text)
    requires page != []
    ensures var parts := NoteParts(PREFIX + (ON + page + (COLON + body)));
      (parts.Some? ==> parts.value.0.Some? && |parts.value.0.value| <= |page|) &&
      (PageIsWord(page) ==> parts == if IsBody(body) then Some((Some(page), body)) else None)
  {
    hide IsBody, Run, PageLength, PageIsWord, NoteParts;
    var t := page + (COLON + body);
    PagedText(page, body);
    PartsOfPaged(t);
    PageStaysShort(page, body);
    if PageIsWord(page) {
      PageIsFound(page, body);
    }
  }

  lemma PartsWithoutPage(body: Text)
    ensures NoteParts(PREFIX + ([] + (COLON + body))) == if IsBody(body) then Some((None, body)) else None
  {
    hide IsBody, Run, PageLength;
    var text := PREFIX + ([] + (COLON + body));
    assert text[|PREFIX|..] == COLON + body;
    assert (COLON + body)[2..] == body;
    assert (COLON + body)[0] != ON[0];
  }

  // ----- One line -----

  lemma OneLineParts(a: Text, b: Text)
    ensures OneLine(a + b) <==> OneLine(a) && OneLine(b)
  {
    if OneLine(a + b) {
      assert forall i :: 0 <= i < |a| ==> a[i] == (a + b)[i];
      assert forall i :: 0 <= i < |b| ==> b[i] == (a + b)[|a| + i];
    }
  }

  /** The two line terminators that `JSON.stringify` leaves as they are. */
  predicate NoLineSeparator(v: Text) {
    0x2028 !in v && 0x2029 !in v
  }

  lemma EscapedUnitOnOneLine(u: CodeUnit)
    ensures OneLine(EscapeUnit(u)) <==> u != 0x2028 && u != 0x2029
  {
    if u == 0x2028 || u == 0x2029 {
      assert EscapeUnit(u)[0] == u;
    } else if EscapeUnit(u) == [BACKSLASH, 0x75] + Hex4(u) {
      OneLineParts([BACKSLASH, 0x75], Hex4(u));
    }
  }

  lemma NothingOnOneLine()
    ensures OneLine([]) && OneLine(Escaped([])) && AllOnOneLine([])
  {
  }

  lemma MarksOnOneLine()
    ensures OneLine([QUOTE]) && OneLine([SPACE]) && OneLine(COMMA)
  {
  }

  lemma PairOnOneLine(high: CodeUnit, low: CodeUnit)
    requires IsHighSurrogate(high) && IsLowSurrogate(low)
    ensures OneLine([high, low])
  {
  }

  lemma {:induction false} EscapedOnOneLine(v: Text)
    ensures OneLine(Escaped(v)) <==> NoLineSeparator(v)
    decreases |v|
  {
    hide EscapeUnit, Escaped, OneLine;
    if v == [] {
      NothingOnOneLine();
    } else {
      EscapedFront(v);
      if |v| > 1 && IsHighSurrogate(v[0]) && IsLowSurrogate(v[1]) {
        EscapedOnOneLine(v[2..]);
        OneLineParts([v[0], v[1]], Escaped(v[2..]));
        PairOnOneLine(v[0], v[1]);
        assert v == [v[0], v[1]] + v[2..];
      } else {
        EscapedOnOneLine(v[1..]);
        EscapedUnitOnOneLine(v[0]);
        OneLineParts(EscapeUnit(v[0]), Escaped(v[1..]));
        assert v == [v[0]] + v[1..];
      }
    }
  }

  predicate FieldOnOneLine(f: Field) {
    OneLine(f.name) && NoLineSeparator(f.value)
  }

  ghost predicate AllOnOneLine(fields: seq<Field>) {
    forall i :: 0 <= i < |fields| ==> FieldOnOneLine(fields[i])
  }

  lemma FieldTextOnOneLine(f: Field)
    ensures OneLine(FieldText(f)) <==> FieldOnOneLine(f)
  {
    hide Escaped, OneLine;
    var e := Escaped(f.value);
    EscapedOnOneLine(f.value);
    OneLineParts(e, [QUOTE]);
    OneLineParts([QUOTE], e + [QUOTE]);
    OneLineParts([SPACE], Quoted(f.value));
    OneLineParts(f.name, [SPACE] + Quoted(f.value));
    MarksOnOneLine();
  }

  lemma AllOnOneLineFront(fields: seq<Field>)
    requires fields != []
    ensures AllOnOneLine(fields) <==> FieldOnOneLine(fields[0]) && AllOnOneLine(fields[1..])
  {
    hide FieldOnOneLine;
    assert fields == [fields[0]] + fields[1..];
  }

  lemma {:induction false} MoreFieldsOnOneLine(fields: seq<Field>)
    ensures OneLine(MoreFields(fields)) <==> AllOnOneLine(fields)
    decreases |fields|
  {
    hide FieldText, OneLine, FieldOnOneLine, AllOnOneLine;
    if fields == [] {
      NothingOnOneLine();
    } else {
      MoreFieldsOnOneLine(fields[1..]);
      FieldTextOnOneLine(fields[0]);
      AllOnOneLineFront(fields);
      OneLineParts(FieldText(fields[0]), MoreFields(fields[1..]));
      OneLineParts(COMMA, FieldText(fields[0]) + MoreFields(fields[1..]));
      MarksOnOneLine();
    }
  }

  lemma BodyIsBody(fields: seq<Field>)
    ensures IsBody(Body(fields)) <==> fields != [] && AllOnOneLine(fields)
  {
    hide OneLine, AllOnOneLine;
    if fields != [] {
      MoreFieldsOnOneLine(fields[1..]);
      FieldTextOnOneLine(fields[0]);
      AllOnOneLineFront(fields);
      OneLineParts(FieldText(fields[0]), MoreFields(fields[1..]));
    }
  }

  // ----- The round trip -----

  ghost predicate FieldsPrint(fields: seq<Field>) {
    fields != [] && NamesAreClean(fields) && AllOnOneLine(fields)
  }

  /** Fields that come out of a note have clean names. */
  lemma ParsedNamesAreClean(text: Text)
    ensures Parsed(text).Some? ==> Parsed(text).value.fields != [] && NamesAreClean(Parsed(text).value.fields)
  {
    hide NoteParts;
    if Parsed(text).Some? {
      FieldsKeepNames(Matches(NoteParts(text).value.1, true));
    }
  }

  /** The record that a note of a page of any length, without whitespace, reads as. */
  lemma CutPageComesBack(page: Text, fields: seq<Field>)
    requires PageIsWord(page)
    ensures Parsed(Note(Record(Some(page), fields))) == Some(Record(Some(Front(page, MAX_PAGE)), fields)) <==> FieldsPrint(fields)
  {
    hide NoteParts, IsBody, Body, Matches, FieldsOf, AllOnOneLine;
    var text := Note(Record(Some(page), fields));
    assert PageIsWord(Front(page, MAX_PAGE));
    PartsWithPage(Front(page, MAX_PAGE), Body(fields));
    BodyIsBody(fields);
    if NamesAreClean(fields) && fields != [] {
      BodyReads(fields);
      FieldsComeBack(fields);
    }
    ParsedNamesAreClean(text);
  }

  lemma NoPageComesBack(fields: seq<Field>)
    ensures Parsed(Note(Record(None, fields))) == Some(Record(None, fields)) <==> FieldsPrint(fields)
  {
    hide NoteParts, IsBody, Body, Matches, FieldsOf, AllOnOneLine;
    var text := Note(Record(None, fields));
    PartsWithoutPage(Body(fields));
    BodyIsBody(fields);
    if NamesAreClean(fields) && fields != [] {
      BodyReads(fields);
      FieldsComeBack(fields);
    }
    ParsedNamesAreClean(text);
  }

  predicate PageComesBack(page: Option<Text>) {
    page.None? || (PageIsWord(page.value) && |page.value| <= MAX_PAGE)
  }

  /** A note reads back as the record it was written from exactly when there is a field, every name
      is a clean one on one line, no value holds U+2028 or U+2029, and the page is absent or is at
      most 120 characters without whitespace. */
  lemma NoteReadsBack(r: Record)
    ensures Parsed(Note(r)) == Some(r) <==> PageComesBack(r.page) && FieldsPrint(r.fields)
  {
    hide FieldsPrint;
    if r.page.None? {
      NoPageComesBack(r.fields);
    } else if PageIsWord(r.page.value) {
      CutPageComesBack(r.page.value, r.fields);
      if |r.page.value| > MAX_PAGE {
        LongPageIsLost(r);
      }
    } else if Parsed(Note(r)) == Some(r) {
      assert false;
    }
  }

  lemma LongPageIsLost(r: Record)
    requires r.page.Some? && |r.page.value| > MAX_PAGE
    ensures Parsed(Note(r)) != Some(r)
  {
    hide NoteParts, FieldsOf, Matches, Body;
    PartsWithPage(Front(r.page.value, MAX_PAGE), Body(r.fields));
  }
}
