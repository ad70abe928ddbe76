/** Reading the sleep setting of every power source from a power-management report. */
module SleepPosture {
  import opened Wrappers
  import opened TextSplit
  import opened PublicKeyLine

  // ---------------------------------------------------------------- lines

  /** What one line of the report is: the header of a power source, a sleep setting with
      the fields after the word, or something else. */
  datatype Kind = Header | Sleep(fields: seq<string>) | Else

  /** str::trim: Unicode white space at both ends. */
  predicate IsWhite(c: char) {
    || c == ' ' || '\U{9}' <= c <= '\U{d}' || c == '\U{85}' || c == '\U{a0}' || c == '\U{1680}'
      || '\U{2000}' <= c <= '\U{200a}'
    || c == '\U{2028}' || c == '\U{2029}' || c == '\U{202f}' || c == '\U{205f}' || c == '\U{3000}'
  }

  function Trim(s: string): string {
    if s != "" && IsWhite(s[0]) then Trim(s[1..])
    else if s != "" && IsWhite(s[|s| - 1]) then Trim(s[..|s| - 1])
    else s
  }

  function FieldsOf(s: string): seq<string>
    decreases |s|
  {
    match NextField(s)
    case None => []
    case Some(f) =>
      NextFieldShrinks(s);
      [f.field] + FieldsOf(f.rest)
  }

  lemma NextFieldShrinks(s: string)
    requires NextField(s).Some?
    ensures |NextField(s).value.rest| < |s|
  {
  }

  function KindOf(line: string): Kind {
    var trimmed := Trim(line);
    if EndsWith(trimmed, " Power:") then Header
    else
      var fields := FieldsOf(trimmed);
      if fields != [] && fields[0] == "sleep" then Sleep(fields[1..]) else Else
  }

  // ---------------------------------------------------------------- what a line says

  /** `s[i..j]` is `s` without the white space at both ends. */
  predicate Trims(s: string, i: nat, j: nat) {
    && i <= j <= |s| && (forall k :: 0 <= k < |s| && !(i <= k < j) ==> IsWhite(s[k]))
    && (i < j ==> !IsWhite(s[i]) && !IsWhite(s[j - 1]))
  }

  lemma {:induction false} TrimIs(s: string, i: nat, j: nat)
    requires Trims(s, i, j)
    ensures Trim(s) == s[i..j]
    decreases |s|
  {
    hide IsWhite;
    if s == "" {
    } else if IsWhite(s[0]) {
      var i', j' := if i == 0 then 0 else i - 1, if j == 0 then 0 else j - 1;
      assert s[1..][i'..j'] == s[i..j];
      TrimIs(s[1..], i', j');
    } else if IsWhite(s[|s| - 1]) {
      assert i == 0;
      assert s[..|s| - 1][i..j] == s[i..j];
      TrimIs(s[..|s| - 1], i, j);
    } else {
      assert s[0..|s|] == s;
    }
  }

  /** The words of `s`, separated by ASCII blanks. */
  ghost predicate Words(s: string, words: seq<string>)
    decreases |words|
  {
    if words == [] then AllBlank(s)
    else exists lead, rest :: TakesWord(s, lead, words[0], rest) && Words(rest, words[1..])
  }

  lemma {:induction false} FieldsIff(s: string, words: seq<string>)
    ensures FieldsOf(s) == words <==> Words(s, words)
    decreases |s|
  {
    hide TakesWord, AllBlank;
    var next := NextField(s);
    NoFieldIff(s);
    if next.Some? {
      var c := next.value;
      NextFieldShrinks(s);
      NextFieldIff(s, c.field, c.rest);
      if words != [] {
        FieldsIff(c.rest, words[1..]);
        forall lead, rest | TakesWord(s, lead, words[0], rest)
          ensures c == Cut(words[0], rest)
        {
          NextFieldIff(s, words[0], rest);
        }
        assert FieldsOf(s)[0] == c.field && FieldsOf(s)[1..] == FieldsOf(c.rest);
        if FieldsOf(s) == words {
          var lead :| TakesWord(s, lead, c.field, c.rest);
          assert Words(c.rest, words[1..]);
        }
      }
    } else if words != [] {
      forall lead, rest | TakesWord(s, lead, words[0], rest)
        ensures false
      {
        NextFieldIff(s, words[0], rest);
      }
    }
  }

  /** A line is a header if it ends with " Power:", white space aside, and otherwise a
      setting if its first word is "sleep", with the words that follow. */
  lemma KindMeans(line: string, i: nat, j: nat, fields: seq<string>)
    requires Trims(line, i, j)
    ensures KindOf(line) == Header <==> exists name :: line[i..j] == name + " Power:"
    ensures KindOf(line) == Sleep(fields) <==>
      KindOf(line) != Header && Words(line[i..j], ["sleep"] + fields)
  {
    TrimIs(line, i, j);
    var t := line[i..j];
    hide Trims, Words, Trim, FieldsOf;
    FieldsIff(t, ["sleep"] + fields);
    EndsWithIff(t, " Power:");
    if FieldsOf(t) != [] {
      assert FieldsOf(t) == [FieldsOf(t)[0]] + FieldsOf(t)[1..];
    }
    assert (["sleep"] + fields)[1..] == fields;
  }

  lemma EndsWithIff(s: string, t: string)
    ensures EndsWith(s, t) <==> exists name :: s == name + t
  {
    if EndsWith(s, t) {
      assert s == s[..|s| - |t|] + t;
    }
  }

  function KindsOf(text: string): seq<Kind> {
    var lines := Split(text, '\n');
    seq(|lines|, i requires 0 <= i < |lines| => KindOf(lines[i]))
  }

  // ---------------------------------------------------------------- what a report means

  predicate Digits(s: string) {
    forall i :: 0 <= i < |s| ==> '0' <= s[i] <= '9'
  }

  /** One value, of ASCII digits only. */
  predicate WellFormed(fields: seq<string>) {
    |fields| == 1 && forall i :: 0 <= i < |fields[0]| ==> '0' <= fields[0][i] <= '9'
  }

  /** The lines before the first header, then the lines below each header. */
  function Groups(kinds: seq<Kind>): (g: seq<seq<Kind>>)
    ensures g != []
  {
    if kinds == [] then [[]]
    else
      var g, last := Groups(kinds[..|kinds| - 1]), kinds[|kinds| - 1];
      if last.Header? then g + [[]] else g[..|g| - 1] + [g[|g| - 1] + [last]]
  }

  /** The sleep settings in a group. */
  function Settings(group: seq<Kind>): seq<seq<string>> {
    if group == [] then []
    else
      var last := group[|group| - 1];
      Settings(group[..|group| - 1]) + if last.Sleep? then [last.fields] else []
  }

  /** A group below a header has exactly one sleep setting, a well-formed one. */
  predicate SetsOnce(group: seq<Kind>) {
    |Settings(group)| == 1 && WellFormed(Settings(group)[0])
  }

  /** There is a power source, every one has its one setting, and none precedes the first. */
  predicate Meaningful(kinds: seq<Kind>) {
    var g := Groups(kinds);
    |g| > 1 && Settings(g[0]) == [] && forall i :: 1 <= i < |g| ==> SetsOnce(g[i])
  }

  /** Every power source never sleeps. */
  predicate NeverSleeps(kinds: seq<Kind>)
    requires Meaningful(kinds)
  {
    var g := Groups(kinds);
    forall i :: 1 <= i < |g| ==> Settings(g[i])[0] == ["0"]
  }

  function Meaning(kinds: seq<Kind>): Option<bool> {
    if Meaningful(kinds) then Some(NeverSleeps(kinds)) else None
  }

  // ---------------------------------------------------------------- the loop

  /** No line so far rules the report out, when the groups so far are `g`. */
  predicate SoFar(g: seq<seq<Kind>>)
    requires g != []
  {
    && Settings(g[0]) == []
    && (forall i :: 1 <= i < |g| - 1 ==> SetsOnce(g[i]))
    && (|g| > 1 ==> Settings(g[|g| - 1]) == [] || SetsOnce(g[|g| - 1]))
  }

  /** The last group has its setting. */
  predicate Set(g: seq<seq<Kind>>)
    requires g != []
  {
    |g| > 1 && SetsOnce(g[|g| - 1])
  }

  function ValueOf(group: seq<Kind>): bool
    requires SetsOnce(group)
  {
    Settings(group)[0] == ["0"]
  }

  /** The values pushed so far: one for each group that has its setting. */
  predicate Values(g: seq<seq<Kind>>, values: seq<bool>)
    requires g != [] && SoFar(g)
  {
    && |values| == (if Set(g) then |g| - 1 else if |g| > 1 then |g| - 2 else 0)
    && forall i :: 0 <= i < |values| ==> SetsOnce(g[i + 1]) && values[i] == ValueOf(g[i + 1])
  }

  /** The last group with one more line. */
  function Extended(g: seq<seq<Kind>>, k: Kind): seq<seq<Kind>>
    requires g != []
  {
    g[..|g| - 1] + [g[|g| - 1] + [k]]
  }

  lemma GroupsStep(kinds: seq<Kind>, i: nat)
    requires i < |kinds|
    ensures Groups(kinds[..i + 1]) ==
      if kinds[i].Header? then Groups(kinds[..i]) + [[]] else Extended(Groups(kinds[..i]), kinds[i])
  {
    assert kinds[..i + 1][..i] == kinds[..i];
  }

  lemma SettingsStep(group: seq<Kind>, k: Kind)
    ensures Settings(group + [k]) == Settings(group) + if k.Sleep? then [k.fields] else []
  {
    assert (group + [k])[..|group|] == group;
  }

  /** A new header closes the group before it, which must have its setting. */
  lemma HeaderStep(g: seq<seq<Kind>>)
    requires g != []
    ensures SoFar(g + [[]]) <==> SoFar(g) && (|g| == 1 || Set(g))
    ensures !Set(g + [[]])
    ensures forall values: seq<bool> :: SoFar(g + [[]]) && Values(g, values) ==> Values(g + [[]], values)
  {
    hide SetsOnce;
    var h := g + [[]];
    assert Settings([]) == [] && !SetsOnce([]) by { EmptySetsNothing(); }
    assert h[|h| - 1] == [] && h[..|g|] == g;
  }

  lemma EmptySetsNothing()
    ensures Settings([]) == [] && !SetsOnce([])
  {
  }

  /** A setting must be the first one below a header, and well-formed. */
  lemma SettingStep(g: seq<seq<Kind>>, fields: seq<string>)
    requires g != []
    ensures SoFar(Extended(g, Sleep(fields))) <==> SoFar(g) && |g| > 1 && !Set(g) && WellFormed(fields)
    ensures SoFar(Extended(g, Sleep(fields))) ==> Set(Extended(g, Sleep(fields)))
    ensures forall values: seq<bool> :: SoFar(Extended(g, Sleep(fields))) && Values(g, values) ==>
      Values(Extended(g, Sleep(fields)), values + [fields == ["0"]])
  {
    hide Settings, WellFormed;
    var h, n := Extended(g, Sleep(fields)), |g| - 1;
    SettingsStep(g[n], Sleep(fields));
    assert h[n] == g[n] + [Sleep(fields)];
    assert forall j :: 0 <= j < n ==> h[j] == g[j];
    if SoFar(h) {
      assert n > 0;
      assert Settings(h[n]) == Settings(g[n]) + [fields];
      assert Settings(g[n]) == [] by { assert |Settings(h[n])| <= 1; }
      assert Settings(h[n])[0] == fields;
    }
  }

  /** Any other line changes nothing. */
  lemma ElseStep(g: seq<seq<Kind>>)
    requires g != []
    ensures SoFar(Extended(g, Else)) <==> SoFar(g)
    ensures Set(Extended(g, Else)) <==> Set(g)
    ensures forall values: seq<bool> :: SoFar(g) && Values(g, values) ==> Values(Extended(g, Else), values)
  {
    hide Settings, WellFormed;
    var h, n := Extended(g, Else), |g| - 1;
    SettingsStep(g[n], Else);
    assert h[n] == g[n] + [Else] && Settings(h[n]) == Settings(g[n]);
    assert forall j :: 0 <= j < n ==> h[j] == g[j];
  }

  /** A line that rules the report out rules out every longer report. */
  lemma {:induction false} RuledOut(kinds: seq<Kind>, i: nat)
    requires i <= |kinds| && !SoFar(Groups(kinds[..i]))
    ensures !SoFar(Groups(kinds)) && Meaning(kinds) == None
    decreases |kinds| - i
  {
    hide Groups, SoFar;
    if i == |kinds| {
      assert kinds[..i] == kinds;
      MeaningfulIsSoFar(kinds);
    } else {
      var g := Groups(kinds[..i]);
      GroupsStep(kinds, i);
      match kinds[i] {
        case Header => HeaderStep(g);
        case Sleep(fields) => SettingStep(g, fields);
        case Else => ElseStep(g);
      }
      RuledOut(kinds, i + 1);
    }
  }

  lemma MeaningfulIsSoFar(kinds: seq<Kind>)
    ensures Meaningful(kinds) <==> SoFar(Groups(kinds)) && Set(Groups(kinds))
  {
  }

  lemma ValuesDecide(kinds: seq<Kind>, values: seq<bool>)
    requires Meaningful(kinds) && SoFar(Groups(kinds)) && Values(Groups(kinds), values)
    ensures NeverSleeps(kinds) <==> forall b :: b in values ==> b
  {
    var g := Groups(kinds);
    assert Set(g) && |values| == |g| - 1;
    if forall b :: b in values ==> b {
      forall i | 1 <= i < |g|
        ensures Settings(g[i])[0] == ["0"]
      {
        assert values[i - 1] in values;
      }
    }
    if NeverSleeps(kinds) {
      forall b | b in values
        ensures b
      {
        var i :| 0 <= i < |values| && values[i] == b;
        assert Settings(g[i + 1])[0] == ["0"];
      }
    }
  }

  lemma StartIsSoFar()
    ensures Groups([]) == [[]] && SoFar([[]]) && !Set([[]]) && Values([[]], [])
  {
    EmptySetsNothing();
  }

  lemma EndDecides(kinds: seq<Kind>, values: seq<bool>)
    requires SoFar(Groups(kinds)) && Values(Groups(kinds), values)
    ensures Meaning(kinds) == if Set(Groups(kinds)) then Some(forall b :: b in values ==> b) else None
    ensures Set(Groups(kinds)) ==> |values| == |Groups(kinds)| - 1 > 0
  {
    hide SoFar, SetsOnce;
    MeaningfulIsSoFar(kinds);
    if Set(Groups(kinds)) {
      ValuesDecide(kinds, values);
    }
  }

  /** parse_sleep_posture, on text that is UTF-8. */
  method ParseSleepPosture(text: string) returns (r: Option<bool>)
    ensures r == Meaning(KindsOf(text))
  {
    hide Groups, SoFar, Values, Set, Meaning, KindOf, Split, Extended;
    var lines, kinds := Split(text, '\n'), KindsOf(text);
    var count, sectionHasSleep := 0, false;
    var values: seq<bool> := [];
    var i := 0;
    StartIsSoFar();
    assert kinds[..0] == [];
    while i < |lines|
      invariant 0 <= i <= |lines| == |kinds| && SoFar(Groups(kinds[..i])) && Values(Groups(kinds[..i]), values)
      invariant count == |Groups(kinds[..i])| - 1 && sectionHasSleep == Set(Groups(kinds[..i]))
    {
      ghost var g := Groups(kinds[..i]);
      var kind := KindOf(lines[i]);
      assert kind == kinds[i];
      var ok, setting := Judge(g, kind, count, sectionHasSleep);
      GroupsStep(kinds, i);
      JudgedLength(g, kind);
      if !ok {
        RuledOut(kinds, i + 1);
        return None;
      }
      if kind.Header? {
        count, sectionHasSleep := count + 1, false;
      } else if setting.Some? {
        values, sectionHasSleep := values + [setting.value], true;
      }
      i := i + 1;
    }
    assert kinds[..i] == kinds;
    EndDecides(kinds, values);
    if count != 0 && sectionHasSleep && |values| == count {
      return Some(forall b :: b in values ==> b);
    }
    return None;
  }

  /** The groups after one more line. */
  function After(g: seq<seq<Kind>>, k: Kind): (h: seq<seq<Kind>>)
    requires g != []
    ensures h != []
  {
    if k.Header? then g + [[]] else Extended(g, k)
  }

  lemma JudgedLength(g: seq<seq<Kind>>, k: Kind)
    requires g != []
    ensures After(g, k) == (if k.Header? then g + [[]] else Extended(g, k))
    ensures |After(g, k)| == |g| + if k.Header? then 1 else 0
  {
  }

  /** One turn of the loop: whether the line is acceptable, and the setting it gives. */
  method Judge(ghost g: seq<seq<Kind>>, kind: Kind, count: nat, sectionHasSleep: bool)
    returns (ok: bool, setting: Option<bool>)
    requires g != [] && SoFar(g) && count == |g| - 1 && sectionHasSleep == Set(g)
    ensures ok <==> SoFar(After(g, kind))
    ensures ok && setting == None ==>
      && Set(After(g, kind)) == (!kind.Header? && Set(g))
      && forall values: seq<bool> :: Values(g, values) ==> Values(After(g, kind), values)
    ensures ok && setting.Some? ==>
      && !kind.Header? && Set(After(g, kind))
      && forall values: seq<bool> :: Values(g, values) ==> Values(After(g, kind), values + [setting.value])
  {
    hide Groups, SoFar, Values, Set, Extended;
    match kind {
      case Header =>
        HeaderStep(g);
        return count == 0 || sectionHasSleep, None;
      case Sleep(fields) =>
        SettingStep(g, fields);
        if count == 0 || sectionHasSleep || |fields| != 1 || !Digits(fields[0]) {
          return false, None;
        }
        assert (fields[0] == "0") == (fields == ["0"]);
        return true, Some(fields[0] == "0");
      case Else =>
        ElseStep(g);
        return true, None;
    }
  }
}
