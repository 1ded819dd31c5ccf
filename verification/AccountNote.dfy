/** The note that a session keeps of the account it made: `accountNote` and `parseAccountNote` of
    `packages/core/src/account-note.ts`. The two regular expressions are read as scanners for the
    same matches, and string values are printed and parsed as in section 7 of RFC 8259. */
module AccountNote {
  import opened Lists
  import opened Options
  import opened JsText

  const PREFIX: Text := Ascii("Account form filled with your own password")
  const ON: Text := Ascii(" on ")
  const COLON: Text := Ascii(": ")
  const COMMA: Text := Ascii(", ")
  const MAX_PAGE: nat := 120
  const MAX_LABEL: nat := 24
  const MAX_VALUE: nat := 60
  const QUOTE: CodeUnit := 0x22
  const BACKSLASH: CodeUnit := 0x5C
  const SPACE: CodeUnit := 0x20

  datatype Field = Field(name: Text, value: Text)
  datatype Record = Record(page: Option<Text>, fields: seq<Field>)

  // ----- JSON strings -----

  function HexDigit(n: nat): CodeUnit
    requires n < 16
  {
    if n < 10 then 0x30 + n else 0x61 + n - 10
  }

  function Hex4(u: CodeUnit): Text {
    [HexDigit(u / 16 / 16 / 16), HexDigit(u / 16 / 16 % 16), HexDigit(u / 16 % 16), HexDigit(u % 16)]
  }

  function HexValue(u: CodeUnit): Option<nat> {
    if 0x30 <= u <= 0x39 then Some(u - 0x30)
    else if 0x61 <= u <= 0x66 then Some(u - 0x61 + 10)
    else if 0x41 <= u <= 0x46 then Some(u - 0x41 + 10)
    else None
  }

  function EscapeUnit(u: CodeUnit): Text {
    if u == QUOTE || u == BACKSLASH then [BACKSLASH, u]
    else if u == 0x08 then [BACKSLASH, 0x62]
    else if u == 0x09 then [BACKSLASH, 0x74]
    else if u == 0x0A then [BACKSLASH, 0x6E]
    else if u == 0x0C then [BACKSLASH, 0x66]
    else if u == 0x0D then [BACKSLASH, 0x72]
    else if u < 0x20 || IsHighSurrogate(u) || IsLowSurrogate(u) then [BACKSLASH, 0x75] + Hex4(u)
    else [u]
  }

  /** `JSON.stringify` without the quotes: a surrogate pair stays, a lone surrogate is escaped. */
  function Escaped(v: Text): Text
    decreases |v|
  {
    if v == [] then []
    else if |v| > 1 && IsHighSurrogate(v[0]) && IsLowSurrogate(v[1]) then [v[0]] + ([v[1]] + Escaped(v[2..]))
    else EscapeUnit(v[0]) + Escaped(v[1..])
  }

  function Quoted(v: Text): Text {
    [QUOTE] + (Escaped(v) + [QUOTE])
  }

  /** The character that a backslash and another one stand for. */
  function SimpleEscape(u: CodeUnit): Option<CodeUnit> {
    if u == QUOTE || u == BACKSLASH || u == 0x2F then Some(u)
    else if u == 0x62 then Some(0x08)
    else if u == 0x66 then Some(0x0C)
    else if u == 0x6E then Some(0x0A)
    else if u == 0x72 then Some(0x0D)
    else if u == 0x74 then Some(0x09)
    else None
  }

  function FromHex4(t: Text): Option<CodeUnit>
    requires |t| >= 4
  {
    var a, b, c, d := HexValue(t[0]), HexValue(t[1]), HexValue(t[2]), HexValue(t[3]);
    if a.None? || b.None? || c.None? || d.None? then None
    else
      var n := 16 * (16 * (16 * a.value + b.value) + c.value) + d.value;
      if n < 0x1_0000 then Some(n) else None
  }

  /** The first character of the inside of a JSON string, and what follows it. */
  function UnescapeOne(t: Text): Option<(CodeUnit, Text)>
    requires t != []
  {
    if t[0] == BACKSLASH then
      if |t| < 2 then None
      else if t[1] == 0x75 then
        if |t| < 6 || FromHex4(t[2..]).None? then None else Some((FromHex4(t[2..]).value, t[6..]))
      else if SimpleEscape(t[1]).None? then None
      else Some((SimpleEscape(t[1]).value, t[2..]))
    else if t[0] == QUOTE || t[0] < 0x20 then None
    else Some((t[0], t[1..]))
  }

  /** `JSON.parse` of the inside of a string. */
  function Unescaped(t: Text): Option<Text>
    decreases |t|
  {
    if t == [] then Some([])
    else
      var one := UnescapeOne(t);
      if one.None? then None
      else
        var rest := Unescaped(one.value.1);
        if rest.None? then None else Some([one.value.0] + rest.value)
  }

  lemma DigitValue(n: nat)
    requires n < 16
    ensures HexValue(HexDigit(n)) == Some(n)
  {
  }

  lemma HexRoundTrip(u: CodeUnit, rest: Text)
    ensures FromHex4(Hex4(u) + rest) == Some(u)
  {
    hide HexDigit, HexValue;
    var c := u / 16;
    var b := c / 16;
    DigitValue(u % 16);
    DigitValue(c % 16);
    DigitValue(b % 16);
    DigitValue(b / 16);
  }

  lemma UnescapeHex(u: CodeUnit, rest: Text)
    ensures UnescapeOne([BACKSLASH, 0x75] + Hex4(u) + rest) == Some((u, rest))
  {
    hide HexDigit, FromHex4, SimpleEscape;
    var t := [BACKSLASH, 0x75] + Hex4(u) + rest;
    HexRoundTrip(u, rest);
    assert t[2..] == Hex4(u) + rest && t[6..] == rest;
  }

  lemma UnescapeSimple(e: CodeUnit, rest: Text)
    requires SimpleEscape(e).Some?
    ensures UnescapeOne([BACKSLASH, e] + rest) == Some((SimpleEscape(e).value, rest))
  {
    hide FromHex4;
    var t := [BACKSLASH, e] + rest;
    assert t[2..] == rest;
  }

  lemma UnescapeUnit(u: CodeUnit, rest: Text)
    ensures EscapeUnit(u) + rest != [] && UnescapeOne(EscapeUnit(u) + rest) == Some((u, rest))
  {
    hide Hex4, FromHex4, UnescapeOne;
    if |EscapeUnit(u)| == 1 {
      PlainUnit(u, rest);
    } else if EscapeUnit(u)[1] == 0x75 {
      UnescapeHex(u, rest);
    } else {
      UnescapeSimple(EscapeUnit(u)[1], rest);
    }
  }

  lemma {:induction false} JsonRoundTrip(v: Text)
    ensures Unescaped(Escaped(v)) == Some(v)
    decreases |v|
  {
    hide EscapeUnit, UnescapeOne;
    if v != [] {
      if |v| > 1 && IsHighSurrogate(v[0]) && IsLowSurrogate(v[1]) {
        var rest := Escaped(v[2..]);
        JsonRoundTrip(v[2..]);
        PlainUnit(v[1], rest);
        PlainUnit(v[0], [v[1]] + rest);
        assert v == [v[0]] + ([v[1]] + v[2..]);
      } else {
        JsonRoundTrip(v[1..]);
        UnescapeUnit(v[0], Escaped(v[1..]));
        assert v == [v[0]] + v[1..];
      }
    }
  }

  lemma PlainUnit(u: CodeUnit, rest: Text)
    requires u >= 0x20 && u != QUOTE && u != BACKSLASH
    ensures UnescapeOne([u] + rest) == Some((u, rest))
  {
  }

  /** What need not be escaped is printed as it is. */
  lemma {:induction false} PlainTextStays(v: Text)
    requires forall i :: 0 <= i < |v| ==> v[i] >= 0x20 && v[i] != QUOTE && v[i] != BACKSLASH && !IsHighSurrogate(v[i]) && !IsLowSurrogate(v[i])
    ensures Quoted(v) == [QUOTE] + v + [QUOTE]
  {
    if v != [] {
      PlainTextStays(v[1..]);
      assert Escaped(v[1..]) == v[1..] by {
        assert Quoted(v[1..])[1..|v|] == v[1..];
      }
      assert v == [v[0]] + v[1..];
    }
  }

  // ----- Printing -----

  function FieldText(f: Field): Text {
    f.name + ([SPACE] + Quoted(f.value))
  }

  /** The fields after the first. */
  function MoreFields(fields: seq<Field>): Text {
    if fields == [] then [] else COMMA + (FieldText(fields[0]) + MoreFields(fields[1..]))
  }

  function Body(fields: seq<Field>): Text {
    if fields == [] then [] else FieldText(fields[0]) + MoreFields(fields[1..])
  }

  function PagePart(page: Option<Text>): Text {
    if page.None? || page.value == [] then []
    else ON + Front(page.value, MAX_PAGE)
  }

  function Note(r: Record): Text {
    PREFIX + (PagePart(r.page) + (COLON + Body(r.fields)))
  }

  // ----- Parsing: `^PREFIX(?: on (\S+))?: (.+)$` -----

  predicate StartsWith(t: Text, start: Text) {
    start <= t
  }

  predicate OneLine(t: Text) {
    forall i :: 0 <= i < |t| ==> !IsLineTerminator(t[i])
  }

  /** `(.+)$` takes all the rest. */
  predicate IsBody(t: Text) {
    t != [] && OneLine(t)
  }

  /** `\S+` as long as possible. */
  function Run(t: Text): (n: nat)
    ensures n <= |t| && forall i :: 0 <= i < n ==> !IsSpace(t[i])
    ensures n < |t| ==> IsSpace(t[n])
  {
    if t == [] || IsSpace(t[0]) then 0 else 1 + Run(t[1..])
  }

  /** Giving back characters of the run until `: (.+)$` matches behind it. */
  function PageLength(t: Text, n: nat): (r: nat)
    requires n <= |t|
    ensures r <= n
    ensures r > 0 ==> StartsWith(t[r..], COLON) && IsBody(t[r + 2..])
  {
    if n == 0 then 0
    else if StartsWith(t[n..], COLON) && IsBody(t[n + 2..]) then n
    else PageLength(t, n - 1)
  }

  function NoteParts(text: Text): (r: Option<(Option<Text>, Text)>)
    ensures r.Some? ==> IsBody(r.value.1)
    ensures r.Some? && r.value.0.Some? ==> PageIsWord(r.value.0.value)
  {
    if !StartsWith(text, PREFIX) then None
    else
      var rest := text[|PREFIX|..];
      if StartsWith(rest, ON) then
        var t := rest[|ON|..];
        var n := PageLength(t, Run(t));
        if n == 0 then None else Some((Some(t[..n]), t[n + 2..]))
      else if StartsWith(rest, COLON) && IsBody(rest[2..]) then Some((None, rest[2..]))
      else None
  }

  predicate PageIsWord(page: Text) {
    page != [] && forall i :: 0 <= i < |page| ==> !IsSpace(page[i])
  }

  // ----- Parsing: `(?:^|, )([^",]+?) ("(?:[^"\\]|\\.)*")(?=, |$)` -----

  /** Where the first quote or comma is. */
  function FirstStop(t: Text): (n: nat)
    ensures n <= |t| && forall i :: 0 <= i < n ==> t[i] != QUOTE && t[i] != 0x2C
    ensures n < |t| ==> t[n] == QUOTE || t[n] == 0x2C
  {
    if t == [] || t[0] == QUOTE || t[0] == 0x2C then 0 else 1 + FirstStop(t[1..])
  }

  /** The length of the rest of a string, its closing quote included. */
  function StringLength(t: Text): (n: Option<nat>)
    ensures n.Some? ==> 0 < n.value <= |t| && t[n.value - 1] == QUOTE
    decreases |t|
  {
    if t == [] then None
    else if t[0] == QUOTE then Some(1)
    else if t[0] == BACKSLASH then
      if |t| < 2 then None
      else
        var n := StringLength(t[2..]);
        if n.None? then None else Some(n.value + 2)
    else
      var n := StringLength(t[1..]);
      if n.None? then None else Some(n.value + 1)
  }

  datatype FieldMatch = FieldMatch(name: Text, inside: Text, rest: Text)

  /** A label, a space and a string, with `, ` or nothing behind. The label ends before the first
      quote, which must be the string's. */
  function FieldFrom(t: Text): (m: Option<FieldMatch>)
    ensures m.Some? ==> |m.value.rest| < |t| && LabelIsClean(m.value.name)
  {
    var q := FirstStop(t);
    if q == |t| || q < 2 || t[q] != QUOTE || t[q - 1] != SPACE then None
    else
      var n := StringLength(t[q + 1..]);
      if n.None? then None
      else
        var end := q + 1 + n.value;
        if t[end..] != [] && !StartsWith(t[end..], COMMA) then None
        else Some(FieldMatch(t[..q - 1], t[q + 1..end - 1], t[end..]))
  }

  predicate LabelIsClean(name: Text) {
    name != [] && forall i :: 0 <= i < |name| ==> name[i] != QUOTE && name[i] != 0x2C
  }

  /** A match at this place: at the start of the text, or behind `, `. */
  function FieldAt(t: Text, atStart: bool): (m: Option<FieldMatch>)
    ensures m.Some? ==> |m.value.rest| < |t| && LabelIsClean(m.value.name)
  {
    if atStart && FieldFrom(t).Some? then FieldFrom(t)
    else if StartsWith(t, COMMA) then FieldFrom(t[2..])
    else None
  }

  /** `matchAll`: from each match on, the next place that matches. */
  function Matches(t: Text, atStart: bool): (r: seq<(Text, Text)>)
    ensures forall i :: 0 <= i < |r| ==> LabelIsClean(r[i].0)
    decreases |t|
  {
    var m := FieldAt(t, atStart);
    if m.Some? then [(m.value.name, m.value.inside)] + Matches(m.value.rest, false)
    else if t == [] then []
    else Matches(t[1..], false)
  }

  function FieldsOf(matches: seq<(Text, Text)>): Option<seq<Field>> {
    if matches == [] then Some([])
    else
      var front, value := FieldsOf(matches[..|matches| - 1]), Unescaped(matches[|matches| - 1].1);
      if front.None? || value.None? then None else Some(front.value + [Field(matches[|matches| - 1].0, value.value)])
  }

  function Parsed(text: Text): Option<Record> {
    var parts := NoteParts(text);
    if parts.None? then None
    else
      var fields := FieldsOf(Matches(parts.value.1, true));
      if fields.None? || fields.value == [] then None else Some(Record(parts.value.0, fields.value))
  }

  /** The loop over the matches, which gives up at the first string that is not JSON. */
  method ParseAccountNote(text: Text) returns (record: Option<Record>)
    ensures record == Parsed(text)
  {
    var parts := NoteParts(text);
    if parts.None? {
      return None;
    }
    var matches := Matches(parts.value.1, true);
    var fields: seq<Field> := [];
    var k := 0;
    while k < |matches|
      invariant 0 <= k <= |matches|
      invariant FieldsOf(matches[..k]) == Some(fields)
    {
      assert matches[..k + 1][..k] == matches[..k];
      var value := Unescaped(matches[k].1);
      if value.None? {
        NoFields(matches, k + 1);
        return None;
      }
      fields := fields + [Field(matches[k].0, value.value)];
      k := k + 1;
    }
    assert matches[..k] == matches;
    record := if fields == [] then None else Some(Record(parts.value.0, fields));
  }

  lemma {:induction false} NoFields(matches: seq<(Text, Text)>, k: nat)
    requires k <= |matches| && FieldsOf(matches[..k]).None?
    ensures FieldsOf(matches).None?
    decreases |matches|
  {
    if k == |matches| {
      assert matches[..k] == matches;
    } else {
      assert matches[..|matches| - 1][..k] == matches[..k];
      NoFields(matches[..|matches| - 1], k);
    }
  }
}
