/** The canonical form of an authorized-key line: its first two fields. */
module PublicKeyLine {
  import opened Wrappers
  import opened FrameCodec

  const MAX_LINE_BYTES := 16 * 1024

  /** The separators of split_ascii_whitespace. */
  predicate IsSpace(c: char) {
    c == ' ' || c == '\t' || c == '\n' || c == '\U{c}' || c == '\r'
  }

  predicate IsField(s: string) {
    s != "" && forall i :: 0 <= i < |s| ==> !IsSpace(s[i])
  }

  function SkipSpaces(s: string): (r: string)
    ensures |r| <= |s| && (r == "" || !IsSpace(r[0]))
    ensures Utf8Len(s) == |s| - |r| + Utf8Len(r)
  {
    if s == "" || !IsSpace(s[0]) then s else SkipSpaces(s[1..])
  }

  function FieldEnd(s: string): (n: nat)
    ensures n <= |s| && (forall i :: 0 <= i < n ==> !IsSpace(s[i])) && (n < |s| ==> IsSpace(s[n]))
  {
    if s == "" || IsSpace(s[0]) then 0 else 1 + FieldEnd(s[1..])
  }

  datatype Cut = Cut(field: string, rest: string)

  function NextField(s: string): (r: Option<Cut>)
    ensures r.Some? ==> IsField(r.value.field) && (r.value.rest == "" || IsSpace(r.value.rest[0]))
  {
    var t := SkipSpaces(s);
    var n := FieldEnd(t);
    if n == 0 then None else Some(Cut(t[..n], t[n..]))
  }

  datatype KeyFields = KeyFields(keyType: string, encoded: string)

  function FirstTwo(s: string): (r: Option<KeyFields>)
    ensures r.Some? ==> IsField(r.value.keyType) && IsField(r.value.encoded)
  {
    match NextField(s)
    case None => None
    case Some(first) =>
      match NextField(first.rest)
      case None => None
      case Some(second) => Some(KeyFields(first.field, second.field))
  }

  /** canonical_authorized_public_key. `valid` judges a key by its two fields, which is all
      that parse_authorized_key_line looks at. */
  function Canonical(line: string, valid: KeyFields -> bool): Option<string> {
    if Utf8Len(line) > MAX_LINE_BYTES || FirstTwo(line) == None || !valid(FirstTwo(line).value) then None
    else Some(FirstTwo(line).value.keyType + " " + FirstTwo(line).value.encoded)
  }

  // ---------------------------------------------------------------- canonical lines stay as they are

  lemma {:induction false} Utf8LenOfConcat(a: string, b: string)
    ensures Utf8Len(a + b) == Utf8Len(a) + Utf8Len(b)
  {
    if a == "" {
      assert a + b == b;
    } else {
      Utf8LenOfConcat(a[1..], b);
      assert (a + b)[1..] == a[1..] + b;
    }
  }

  lemma FieldEndIs(s: string, n: nat)
    requires n <= |s| && (forall i :: 0 <= i < n ==> !IsSpace(s[i])) && (n < |s| ==> IsSpace(s[n]))
    ensures FieldEnd(s) == n
  {
  }

  /** A field followed by nothing, or by a separator, is taken whole. */
  lemma FieldIsTaken(field: string, rest: string)
    requires IsField(field) && (rest == "" || IsSpace(rest[0]))
    ensures NextField(field + rest) == Some(Cut(field, rest))
  {
    var s := field + rest;
    assert SkipSpaces(s) == s;
    FieldEndIs(s, |field|);
    assert s[..|field|] == field && s[|field|..] == rest;
  }

  lemma TwoFieldsAreTaken(f: KeyFields)
    requires IsField(f.keyType) && IsField(f.encoded)
    ensures FirstTwo(f.keyType + " " + f.encoded) == Some(f)
  {
    assert f.keyType + " " + f.encoded == f.keyType + (" " + f.encoded);
    FieldIsTaken(f.keyType, " " + f.encoded);
    assert SkipSpaces(" " + f.encoded) == f.encoded by { assert (" " + f.encoded)[1..] == f.encoded; }
    FieldEndIs(f.encoded, |f.encoded|);
    assert f.encoded[..|f.encoded|] == f.encoded;
  }

  /** The fields and the separator between them are part of the line. */
  lemma FieldsAreShorter(line: string)
    requires FirstTwo(line).Some?
    ensures Utf8Len(FirstTwo(line).value.keyType) + 1 + Utf8Len(FirstTwo(line).value.encoded) <= Utf8Len(line)
  {
    hide Utf8Len;
    var first := NextField(line).value;
    var second := NextField(first.rest).value;
    Utf8LenOfConcat(first.field, first.rest);
    assert SkipSpaces(line) == first.field + first.rest;
    Utf8LenOfConcat(second.field, second.rest);
    assert SkipSpaces(first.rest) == second.field + second.rest;
  }

  /** The server accepts what the client sends: a canonical line is its own canonical form. */
  lemma CanonicalIsStable(line: string, valid: KeyFields -> bool)
    requires Canonical(line, valid).Some?
    ensures Canonical(Canonical(line, valid).value, valid) == Canonical(line, valid)
  {
    hide Utf8Len, NextField;
    var f := FirstTwo(line).value;
    TwoFieldsAreTaken(f);
    FieldsAreShorter(line);
    Utf8LenOfConcat(f.keyType, " ");
    Utf8LenOfConcat(f.keyType + " ", f.encoded);
    assert Utf8Len(" ") == 1 by { SpaceLength(); }
  }

  lemma SpaceLength()
    ensures Utf8Len(" ") == 1
  {
    assert " "[1..] == "";
  }

  // ---------------------------------------------------------------- which lines have a canonical form

  /** Spaces and the control characters HT, LF, FF and CR. */
  ghost predicate AllBlank(s: string) {
    forall i :: 0 <= i < |s| ==> s[i] as int == 32 || (9 <= s[i] as int <= 13 && s[i] as int != 11)
  }

  ghost predicate NoBlank(s: string) {
    forall i :: 0 <= i < |s| ==> !AllBlank([s[i]])
  }

  /** The line is two fields between blanks, and after the second one anything that a blank
      separates from it. */
  ghost predicate Spells(line: string, f: KeyFields, lead: string, gap: string, tail: string) {
    && line == lead + f.keyType + gap + f.encoded + tail
    && AllBlank(lead) && AllBlank(gap) && gap != "" && (tail == "" || AllBlank([tail[0]]))
    && f.keyType != "" && NoBlank(f.keyType) && f.encoded != "" && NoBlank(f.encoded)
  }

  lemma BlankIsSpace(c: char)
    ensures AllBlank([c]) <==> IsSpace(c)
  {
    if AllBlank([c]) {
      assert [c][0] == c;
    }
  }

  lemma BlanksAreSpaces(s: string)
    ensures AllBlank(s) <==> forall i :: 0 <= i < |s| ==> IsSpace(s[i])
    ensures NoBlank(s) <==> forall i :: 0 <= i < |s| ==> !IsSpace(s[i])
  {
    forall i | 0 <= i < |s|
      ensures AllBlank([s[i]]) <==> IsSpace(s[i])
    {
      BlankIsSpace(s[i]);
    }
  }

  lemma {:induction false} BlanksAreSkipped(lead: string, rest: string)
    requires (forall i :: 0 <= i < |lead| ==> IsSpace(lead[i])) && rest != "" && !IsSpace(rest[0])
    ensures SkipSpaces(lead + rest) == rest
  {
    if lead == "" {
      assert lead + rest == rest;
    } else {
      BlanksAreSkipped(lead[1..], rest);
      assert (lead + rest)[1..] == lead[1..] + rest;
    }
  }

  lemma FieldAfterBlanks(lead: string, field: string, rest: string)
    requires (forall i :: 0 <= i < |lead| ==> IsSpace(lead[i])) && IsField(field) && (rest == "" || IsSpace(rest[0]))
    ensures NextField(lead + (field + rest)) == Some(Cut(field, rest))
  {
    BlanksAreSkipped(lead, field + rest);
    FieldIsTaken(field, rest);
    assert SkipSpaces(field + rest) == field + rest;
  }

  lemma SpelledIsTaken(line: string, f: KeyFields, lead: string, gap: string, tail: string)
    requires Spells(line, f, lead, gap, tail)
    ensures FirstTwo(line) == Some(f)
  {
    hide NextField;
    BlanksAreSpaces(lead);
    BlanksAreSpaces(gap);
    BlanksAreSpaces(f.keyType);
    BlanksAreSpaces(f.encoded);
    if tail != "" {
      BlankIsSpace(tail[0]);
    }
    var rest := gap + (f.encoded + tail);
    assert line == lead + (f.keyType + rest);
    FieldAfterBlanks(lead, f.keyType, rest);
    FieldAfterBlanks(gap, f.encoded, tail);
  }

  lemma {:induction false} SkippedAreSpaces(s: string)
    ensures var k := |s| - |SkipSpaces(s)|;
      s[k..] == SkipSpaces(s) && forall i :: 0 <= i < k ==> IsSpace(s[i])
  {
    if s != "" && IsSpace(s[0]) {
      SkippedAreSpaces(s[1..]);
      assert SkipSpaces(s) == SkipSpaces(s[1..]);
      var k := |s| - |SkipSpaces(s)|;
      assert s[k..] == s[1..][k - 1..];
      assert forall i :: 0 < i < k ==> s[i] == s[1..][i - 1];
    } else {
      assert SkipSpaces(s) == s && s[0..] == s;
    }
  }

  function Lead(s: string): string {
    s[..|s| - |SkipSpaces(s)|]
  }

  lemma CutIsAfterLead(s: string, c: Cut)
    requires NextField(s) == Some(c)
    ensures s == Lead(s) + c.field + c.rest
    ensures forall i :: 0 <= i < |Lead(s)| ==> IsSpace(Lead(s)[i])
  {
    hide NextField, IsSpace, Lead, SkipSpaces;
    LeadIsSpaces(s);
    NextFieldSplits(s, c);
    assert Lead(s) + (c.field + c.rest) == Lead(s) + c.field + c.rest;
  }

  lemma LeadIsSpaces(s: string)
    ensures s == Lead(s) + SkipSpaces(s)
    ensures forall i :: 0 <= i < |Lead(s)| ==> IsSpace(Lead(s)[i])
  {
    SkippedAreSpaces(s);
    hide SkipSpaces, IsSpace;
    assert s == s[..|Lead(s)|] + s[|Lead(s)|..];
  }

  lemma NextFieldSplits(s: string, c: Cut)
    requires NextField(s) == Some(c)
    ensures SkipSpaces(s) == c.field + c.rest
  {
    hide SkipSpaces, FieldEnd;
    var t := SkipSpaces(s);
    assert t == t[..FieldEnd(t)] + t[FieldEnd(t)..];
  }

  /** A field is cut off after the separators before it. */
  lemma CutIsTaken(s: string, c: Cut)
    requires NextField(s) == Some(c)
    ensures AllBlank(Lead(s)) && s == Lead(s) + c.field + c.rest && NoBlank(c.field)
    ensures c.rest == "" || AllBlank([c.rest[0]])
  {
    CutIsAfterLead(s, c);
    hide NextField, AllBlank, NoBlank, Lead;
    BlanksAreSpaces(Lead(s));
    BlanksAreSpaces(c.field);
    if c.rest != "" {
      BlankIsSpace(c.rest[0]);
    }
  }

  /** `word` is the first word of `s`, after the blanks `lead` and before `rest`. */
  ghost predicate TakesWord(s: string, lead: string, word: string, rest: string) {
    && s == lead + (word + rest) && AllBlank(lead) && word != "" && NoBlank(word)
    && (rest == "" || AllBlank([rest[0]]))
  }

  /** A field is the first word, and there is none exactly in a blank text. */
  lemma NextFieldIff(s: string, word: string, rest: string)
    ensures NextField(s) == Some(Cut(word, rest)) <==> exists lead :: TakesWord(s, lead, word, rest)
    ensures NextField(s) == None <==> AllBlank(s)
  {
    hide NextField, AllBlank, NoBlank, SkipSpaces;
    if NextField(s) == Some(Cut(word, rest)) {
      CutIsTaken(s, Cut(word, rest));
      assert Lead(s) + word + rest == Lead(s) + (word + rest);
      assert TakesWord(s, Lead(s), word, rest);
    }
    forall lead | TakesWord(s, lead, word, rest)
      ensures NextField(s) == Some(Cut(word, rest))
    {
      BlanksAreSpaces(lead);
      BlanksAreSpaces(word);
      if rest != "" {
        BlankIsSpace(rest[0]);
      }
      FieldAfterBlanks(lead, word, rest);
    }
    NoFieldIff(s);
  }

  lemma NoFieldIff(s: string)
    ensures NextField(s) == None <==> AllBlank(s)
  {
    hide SkipSpaces;
    BlanksAreSpaces(s);
    SkippedAreSpaces(s);
    var t := SkipSpaces(s);
    assert t != "" ==> t[0] == s[|s| - |t|];
  }

  lemma TakenIsSpelled(line: string, f: KeyFields)
    requires FirstTwo(line) == Some(f)
    ensures exists lead, gap, tail :: Spells(line, f, lead, gap, tail)
  {
    hide NextField;
    var first := NextField(line).value;
    var second := NextField(first.rest).value;
    CutIsTaken(line, first);
    CutIsTaken(first.rest, second);
    var lead, gap := Lead(line), Lead(first.rest);
    if gap == "" {
      assert false;
    }
    assert Spells(line, f, lead, gap, second.rest);
  }

  ghost predicate IsKeyLine(line: string, valid: KeyFields -> bool, f: KeyFields) {
    Utf8Len(line) <= 16 * 1024 && valid(f) && exists lead, gap, tail :: Spells(line, f, lead, gap, tail)
  }

  /** A line has a canonical form exactly if it is not too long and begins with the two
      fields of a valid key; the form is these fields and one space between them. */
  lemma CanonicalIff(line: string, valid: KeyFields -> bool, canonical: string)
    ensures Canonical(line, valid) == Some(canonical) <==>
      exists f :: IsKeyLine(line, valid, f) && canonical == f.keyType + " " + f.encoded
  {
    hide Utf8Len, Spells;
    if Canonical(line, valid) == Some(canonical) {
      TakenIsSpelled(line, FirstTwo(line).value);
      assert IsKeyLine(line, valid, FirstTwo(line).value);
    }
    forall f | IsKeyLine(line, valid, f)
      ensures FirstTwo(line) == Some(f)
    {
      var lead, gap, tail :| Spells(line, f, lead, gap, tail);
      SpelledIsTaken(line, f, lead, gap, tail);
    }
  }
}
