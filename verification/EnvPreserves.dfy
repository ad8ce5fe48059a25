/** What a merge keeps of an environment file and what it writes, said of the text itself. */
module EnvPreserves {
  import opened Results
  import opened EnvText
  import opened EnvFile
  import opened EnvRoundTrip

  /** The comment a merge puts above its settings, without the line feed. */
  const TITLE: string := "# Cluster configuration " + "generated by setup-cluster.sh"

  // ----- lines -----

  predicate NoBreaks(s: string) {
    forall i | 0 <= i < |s| :: s[i] != '\n' && s[i] != '\r'
  }

  /** Line `i` is some text without breaks and a terminator, which is whole, and missing only at the end of the file. */
  ghost predicate LineAt(lines: seq<string>, i: nat)
    requires i < |lines|
  {
    exists body, end ::
      && lines[i] == body + end && body + end != "" && NoBreaks(body) && end in ["\n", "\r", "\r\n", ""]
      && (end == "" ==> i == |lines| - 1)
      && (end == "\r" && i + 1 < |lines| ==> !("\n" <= lines[i + 1]))
  }

  /** The text cut into its lines. */
  ghost predicate LinesOf(lines: seq<string>, text: string) {
    Join(lines) == text && forall i | 0 <= i < |lines| :: LineAt(lines, i)
  }

  lemma {:induction false} FirstLineParts(t: string) returns (body: string, end: string)
    requires t != ""
    ensures t[..FirstLine(t)] == body + end && NoBreaks(body) && end in ["\n", "\r", "\r\n", ""]
    ensures end == "" ==> FirstLine(t) == |t|
    ensures end == "\r" ==> !("\n" <= t[FirstLine(t)..])
  {
    if t[0] == '\n' {
      body, end := "", "\n";
    } else if t[0] == '\r' {
      body, end := "", if |t| > 1 && t[1] == '\n' then "\r\n" else "\r";
      assert t[..FirstLine(t)] == end;
    } else if |t| == 1 {
      body, end := t, "";
    } else {
      var rest;
      rest, end := FirstLineParts(t[1..]);
      body := [t[0]] + rest;
      assert t[..FirstLine(t)] == [t[0]] + t[1..][..FirstLine(t[1..])];
      assert t[FirstLine(t)..] == t[1..][FirstLine(t[1..])..];
    }
  }

  lemma {:induction false} SplitIsLines(t: string)
    ensures LinesOf(SplitLines(t), t)
    decreases |t|
  {
    SplitIntoLines(t);
    if t != "" {
      var lines, rest := SplitLines(t), t[FirstLine(t)..];
      var body, end := FirstLineParts(t);
      SplitIsLines(rest);
      SplitUnfolds(t);
      hide SplitLines, FirstLine;
      forall i | 0 <= i < |lines|
        ensures LineAt(lines, i)
      {
        if i == 0 {
          assert rest != "" ==> SplitLines(rest)[0] <= rest;
        } else {
          assert LineAt(SplitLines(rest), i - 1);
        }
      }
    }
  }

  // ----- stripped text -----

  predicate Blank(s: string, wide: bool) {
    forall i | 0 <= i < |s| :: IsSpace(s[i], wide)
  }

  /** `t` is `s` without the white space at its ends, as byte strings have it or, when `wide`, as text has it. */
  ghost predicate Stripped(s: string, t: string, wide: bool) {
    && (exists a, b :: s == a + t + b && Blank(a, wide) && Blank(b, wide))
    && (t != "" ==> !IsSpace(t[0], wide) && !IsSpace(t[|t| - 1], wide))
  }

  lemma {:induction false} LeftBlank(s: string, wide: bool) returns (a: string)
    ensures s == a + TrimLeft(s, wide) && Blank(a, wide)
  {
    hide IsSpace;
    a := "";
    if s != "" && IsSpace(s[0], wide) {
      var more := LeftBlank(s[1..], wide);
      a := [s[0]] + more;
      assert s == [s[0]] + s[1..];
      assert TrimLeft(s, wide) == TrimLeft(s[1..], wide);
      hide TrimLeft;
    }
  }

  lemma {:induction false} RightBlank(s: string, wide: bool) returns (b: string)
    ensures s == TrimRight(s, wide) + b && Blank(b, wide)
  {
    b := "";
    if s != "" && IsSpace(s[|s| - 1], wide) {
      var more := RightBlank(s[..|s| - 1], wide);
      b := more + [s[|s| - 1]];
      assert s == s[..|s| - 1] + [s[|s| - 1]];
    }
  }

  lemma {:induction false} LeftBlankGoes(a: string, s: string, wide: bool)
    requires Blank(a, wide) && s != "" && !IsSpace(s[0], wide)
    ensures TrimLeft(a + s, wide) == s
  {
    if a == "" {
      assert a + s == s;
    } else {
      assert (a + s)[1..] == a[1..] + s;
      LeftBlankGoes(a[1..], s, wide);
    }
  }

  lemma StripGives(s: string, wide: bool)
    ensures Stripped(s, Strip(s, wide), wide)
  {
    hide TrimLeft, TrimRight, IsSpace, Blank;
    var left := TrimLeft(s, wide);
    var a := LeftBlank(s, wide);
    var b := RightBlank(left, wide);
    assert s == a + Strip(s, wide) + b;
    if Strip(s, wide) != "" {
      assert Strip(s, wide)[0] == left[0];
    }
  }

  lemma BothBlankGo(a: string, t: string, b: string, wide: bool)
    requires Blank(a, wide) && Blank(b, wide)
    requires t != "" ==> !IsSpace(t[0], wide) && !IsSpace(t[|t| - 1], wide)
    ensures Strip(a + t + b, wide) == t
  {
    if t == "" {
      SpacesOnly(a + t + b, wide);
    } else {
      assert a + t + b == a + (t + b) && (t + b)[0] == t[0];
      LeftBlankGoes(a, t + b, wide);
      TrimRightAt(t, b, wide);
    }
    hide TrimLeft, TrimRight, IsSpace;
  }

  /** Stripping gives the one text that is `s` without the white space at its ends. */
  lemma StripIs(s: string, t: string, wide: bool)
    ensures Stripped(s, t, wide) <==> t == Strip(s, wide)
  {
    hide Strip, IsSpace, Blank;
    StripGives(s, wide);
    if Stripped(s, t, wide) {
      var a, b :| s == a + t + b && Blank(a, wide) && Blank(b, wide);
      BothBlankGo(a, t, b, wide);
    }
  }

  // ----- assignments -----

  /** A key and a value are what stands before and after the first equals sign, without white space. */
  ghost predicate Assigns(t: string, key: string, value: string, wide: bool) {
    exists before, after ::
      t == before + "=" + after && '=' !in before && Stripped(before, key, wide) && Stripped(after, value, wide)
  }

  lemma CutIs(t: string, before: string, after: string)
    ensures t == before + "=" + after && '=' !in before
       <==> Cut(t) < |t| && before == t[..Cut(t)] && after == t[Cut(t) + 1..]
  {
    hide *;
    if t == before + "=" + after && '=' !in before {
      CutJoined(t, before, after);
    }
    if Cut(t) < |t| {
      CutParts(t);
    }
  }

  lemma CutJoined(t: string, before: string, after: string)
    requires t == before + "=" + after && '=' !in before
    ensures Cut(t) == |before| < |t| && t[..Cut(t)] == before && t[Cut(t) + 1..] == after
  {
    hide Cut;
    CutAt(before, after);
    assert t[..|before|] == before && t[|before| + 1..] == after;
  }

  lemma CutParts(t: string)
    requires Cut(t) < |t|
    ensures t == t[..Cut(t)] + "=" + t[Cut(t) + 1..] && '=' !in t[..Cut(t)]
  {
    hide Cut;
    var n := Cut(t);
    Around(t, n);
  }

  lemma Around(t: string, n: nat)
    requires n < |t| && t[n] == '='
    ensures t == t[..n] + "=" + t[n + 1..]
  {
    assert [t[n]] == "=" && t[n..] == [t[n]] + t[n + 1..];
    assert t == t[..n] + t[n..];
  }

  lemma AssignsIs(t: string, key: string, value: string, wide: bool)
    ensures Assigns(t, key, value, wide)
       <==> Cut(t) < |t| && key == Strip(t[..Cut(t)], wide) && value == Strip(t[Cut(t) + 1..], wide)
  {
    hide Stripped, Strip, Cut;
    if Assigns(t, key, value, wide) {
      var before, after :|
        t == before + "=" + after && '=' !in before && Stripped(before, key, wide) && Stripped(after, value, wide);
      CutIs(t, before, after);
      StripIs(before, key, wide);
      StripIs(after, value, wide);
    }
    if Cut(t) < |t| {
      CutIs(t, t[..Cut(t)], t[Cut(t) + 1..]);
      StripIs(t[..Cut(t)], key, wide);
      StripIs(t[Cut(t) + 1..], value, wide);
    }
  }

  // ----- what is kept -----

  /** Blank lines, comments other than the merge's own, and settings of other keys. */
  ghost predicate IsKept(t: string) {
    if t == "" then true
    else if t[0] == '#' then t != TITLE
    else exists key, value :: Assigns(t, key, value, false) && key !in ENV_KEYS
  }

  ghost predicate Keep(line: string) {
    exists t :: Stripped(line, t, false) && IsKept(t)
  }

  /** Letters, digits and underscores, the first no digit. */
  predicate IsName(key: string) {
    && key != "" && !('0' <= key[0] <= '9')
    && forall i | 0 <= i < |key| ::
         'a' <= key[i] <= 'z' || 'A' <= key[i] <= 'Z' || '0' <= key[i] <= '9' || key[i] == '_'
  }

  /** A value that begins with a quote ends with the same one. */
  predicate Balanced(value: string) {
    value != "" && value[0] in {'\'', '"'} ==> |value| > 1 && value[|value| - 1] == value[0]
  }

  ghost predicate IsSetting(t: string) {
    exists key, value :: Assigns(t, key, value, false) && IsName(key)
  }

  ghost predicate IsReadable(t: string) {
    || t == "" || t[0] == '#'
    || exists key, value :: Assigns(t, key, value, false) && IsName(key) && Balanced(value)
  }

  /** Blank, a comment, or a setting with an identifier for key and matching quotes if any. */
  ghost predicate Readable(line: string) {
    exists t :: Stripped(line, t, false) && IsReadable(t)
  }

  lemma TitleIs()
    ensures Strip(HEADER, false) == TITLE && TITLE != "" && TITLE[0] == '#'
  {
    TitleLine();
    TitleEnds();
    hide HEADER, TITLE;
    TrimLeftStays(HEADER);
    TrimRightAt(TITLE, "\n", false);
  }

  lemma TitleEnds()
    ensures TITLE != "" && TITLE[0] == '#' && TITLE[|TITLE| - 1] == 'h'
  {
    var last := "setup-cluster.sh";
    assert TITLE[|TITLE| - 1] == last[|last| - 1];
    TitleLine();
    assert HEADER[0] == '#';
  }

  lemma TrimLeftStays(s: string)
    requires s != "" && s[0] == '#'
    ensures TrimLeft(s, false) == s
  {
  }

  lemma NameIs(key: string)
    ensures IsIdentifier(key) <==> IsName(key)
  {
  }

  lemma BalancedIs(value: string)
    ensures QuotesMatch(value) <==> Balanced(value)
  {
  }

  lemma KindIs(t: string)
    ensures KindOf(t).Faulty? <==> !IsReadable(t)
    ensures KindOf(t) == Faulty(NotKeyValue) <==> !IsReadable(t) && !IsSetting(t)
    ensures IsReadable(t) ==> (KindOf(t) == Kept <==> IsKept(t))
  {
    TitleIs();
    hide HEADER, TITLE, ENV_KEYS, IsIdentifier, QuotesMatch, IsName, Balanced, Strip, Assigns, Cut;
    if Cut(t) < |t| {
      AssignsIs(t, Strip(t[..Cut(t)], false), Strip(t[Cut(t) + 1..], false), false);
      NameIs(Strip(t[..Cut(t)], false));
      BalancedIs(Strip(t[Cut(t) + 1..], false));
    }
    forall key, value
      ensures Assigns(t, key, value, false)
         <==> Cut(t) < |t| && key == Strip(t[..Cut(t)], false) && value == Strip(t[Cut(t) + 1..], false)
    {
      AssignsIs(t, key, value, false);
    }
  }

  lemma ClassifyIs(line: string)
    ensures Classify(line).Faulty? <==> !Readable(line)
    ensures Classify(line) == Faulty(NotKeyValue) <==> !Readable(line) && !IsSetting(Strip(line, false))
    ensures Readable(line) ==> (Classify(line) == Kept <==> Keep(line))
  {
    hide KindOf, Strip, Stripped, IsReadable, IsKept, IsSetting;
    var t := Strip(line, false);
    StripIs(line, t, false);
    KindIs(t);
    forall u | Stripped(line, u, false)
      ensures u == t
    {
      StripIs(line, u, false);
    }
  }

  // ----- the merged text -----

  /** `at` are the places of exactly the lines to keep, in order. */
  ghost predicate KeptPlaces(lines: seq<string>, at: seq<nat>) {
    && (forall i, j | 0 <= i < j < |at| :: at[i] < at[j])
    && (forall i | 0 <= i < |at| :: at[i] < |lines|)
    && (forall j: nat | j < |lines| :: j in at <==> Keep(lines[j]))
  }

  function Chosen(lines: seq<string>, at: seq<nat>): (r: seq<string>)
    requires forall i | 0 <= i < |at| :: at[i] < |lines|
    ensures |r| == |at| && forall i | 0 <= i < |at| :: r[i] == lines[at[i]]
  {
    seq(|at|, i requires 0 <= i < |at| => lines[at[i]])
  }

  ghost predicate AllReadable(lines: seq<string>) {
    forall i | 0 <= i < |lines| :: Readable(lines[i])
  }

  lemma OneMorePlace(front: seq<string>, last: string, at: seq<nat>)
    requires KeptPlaces(front, at)
    ensures Keep(last) ==> KeptPlaces(front + [last], at + [|front|])
                           && Chosen(front + [last], at + [|front|]) == Chosen(front, at) + [last]
    ensures !Keep(last) ==> KeptPlaces(front + [last], at) && Chosen(front + [last], at) == Chosen(front, at)
  {
    hide Keep;
    var lines := front + [last];
    assert forall j | 0 <= j < |front| :: lines[j] == front[j];
  }

  lemma KeptLinesUnfold(front: seq<string>, last: string)
    requires KeptLines(front).Ok? && Readable(last)
    ensures KeptLines(front + [last])
         == Ok(if Keep(last) then KeptLines(front).value + [last] else KeptLines(front).value)
  {
    hide Classify, Readable, Keep;
    ClassifyIs(last);
    assert (front + [last])[..|front|] == front;
  }

  lemma {:induction false} KeptLinesAre(lines: seq<string>) returns (at: seq<nat>)
    requires AllReadable(lines)
    ensures KeptPlaces(lines, at) && KeptLines(lines) == Ok(Chosen(lines, at))
  {
    hide KeptPlaces, Readable, Keep, Chosen, KeptLines;
    at := [];
    if lines == [] {
      NothingKept();
    } else {
      var front, last := lines[..|lines| - 1], lines[|lines| - 1];
      var before := KeptLinesAre(front);
      assert lines == front + [last];
      assert Readable(last);
      OneMorePlace(front, last, before);
      KeptLinesUnfold(front, last);
      at := if Keep(last) then before + [|front|] else before;
    }
  }

  lemma NothingKept()
    ensures KeptPlaces([], []) && KeptLines([]) == Ok(Chosen([], []))
  {
  }

  /** Line `i` is the first that cannot be read, and this is why. */
  ghost predicate FirstFault(lines: seq<string>, i: nat, fault: EnvFault) {
    && i < |lines| && !Readable(lines[i]) && AllReadable(lines[..i])
    && fault == if exists t :: Stripped(lines[i], t, false) && IsSetting(t) then BadQuotes else NotKeyValue
  }

  lemma {:induction false} KeptLinesFail(lines: seq<string>) returns (i: nat)
    requires !AllReadable(lines)
    ensures KeptLines(lines).Err? && FirstFault(lines, i, KeptLines(lines).error)
  {
    hide Classify, Readable, IsSetting, Strip, Stripped;
    var front, last := lines[..|lines| - 1], lines[|lines| - 1];
    if AllReadable(front) {
      i := |front|;
      var at := KeptLinesAre(front);
      ClassifyIs(last);
      FaultIs(last);
      assert lines[i] == last;
      assert !Readable(last) by {
        assert forall j | 0 <= j < i :: lines[j] == front[j];
      }
    } else {
      i := KeptLinesFail(front);
      assert lines[i] == front[i] && lines[..i] == front[..i];
    }
  }

  lemma FaultIs(line: string)
    requires !Readable(line)
    ensures Classify(line)
         == Faulty(if exists t :: Stripped(line, t, false) && IsSetting(t) then BadQuotes else NotKeyValue)
  {
    ClassifyIs(line);
    hide Readable, IsSetting, Strip, Stripped, IsIdentifier, QuotesMatch, HEADER, ENV_KEYS, Cut;
    StripIs(line, Strip(line, false), false);
    forall t | Stripped(line, t, false)
      ensures t == Strip(line, false)
    {
      StripIs(line, t, false);
    }
  }

  /** One line for each setting: key, equals sign, the value as it is or, for the links, in single quotes. */
  ghost predicate WritesSettings(lines: seq<string>, values: seq<Setting>) {
    && |lines| == |values|
    && forall i | 0 <= i < |values| ::
         var (key, value) := values[i];
         lines[i] == key + "=" + (if key == "CLUSTER_LINKS" then "'" + value + "'" else value) + "\n"
  }

  lemma {:induction false} SettingLinesAre(values: seq<Setting>)
    ensures WritesSettings(SettingLines(values), values)
  {
    if values != [] {
      var front, last := values[..|values| - 1], values[|values| - 1];
      SettingLinesAre(front);
      assert SettingLine(last)
          == last.0 + "=" + (if last.0 == "CLUSTER_LINKS" then "'" + last.1 + "'" else last.1) + "\n";
      hide SettingLine;
    }
  }

  ghost predicate AllKeys(values: seq<Setting>) {
    forall i | 0 <= i < |values| :: values[i].0 in ENV_KEYS
  }

  /** A links value that single quotes can hold, or a scalar of letters, digits and a few marks. */
  predicate CanWrite(key: string, value: string) {
    if key == "CLUSTER_LINKS" then forall i | 0 <= i < |value| :: value[i] != '\'' && value[i] != '\n'
    else
      && value != ""
      && forall i | 0 <= i < |value| ::
           || 'a' <= value[i] <= 'z' || 'A' <= value[i] <= 'Z' || '0' <= value[i] <= '9'
           || value[i] in {'_', '.', ',', ':', '-'}
  }

  ghost predicate AllValues(values: seq<Setting>) {
    forall i | 0 <= i < |values| :: CanWrite(values[i].0, values[i].1)
  }

  lemma AllValuesAre(values: seq<Setting>)
    ensures AllValues(values) <==> forall i | 0 <= i < |values| :: IsValue(values[i])
  {
    forall i | 0 <= i < |values|
      ensures IsValue(values[i]) <==> CanWrite(values[i].0, values[i].1)
    {
      ValueIs(values[i]);
    }
    hide IsValue, CanWrite;
  }

  lemma ValueIs(s: Setting)
    ensures IsValue(s) <==> CanWrite(s.0, s.1)
  {
  }

  /**
   * A merge succeeds exactly if every setting is a cluster setting, every line can be read and every value
   * can be written. The merged text is then the lines to keep, byte for byte and in order, a line feed if
   * they do not end in one, the title, and one line for each setting.
   */
  lemma MergeIs(original: string, values: seq<Setting>)
    returns (lines: seq<string>, at: seq<nat>, settings: seq<string>)
    ensures LinesOf(lines, original)
    ensures Merge(original, values).Ok? <==> AllKeys(values) && AllReadable(lines) && AllValues(values)
    ensures Merge(original, values).Ok? ==>
              && KeptPlaces(lines, at) && WritesSettings(settings, values)
              && var kept := Join(Chosen(lines, at));
              && Merge(original, values).value
                 == kept + (if kept == "" || kept[|kept| - 1] == '\n' then "" else "\n") + TITLE + "\n" + Join(settings)
  {
    lines, at, settings := SplitLines(original), [], SettingLines(values);
    SplitIsLines(original);
    SettingLinesAre(values);
    if AllReadable(lines) {
      at := KeptLinesAre(lines);
      MergedText(original, values, lines, at, settings);
    } else {
      var i := KeptLinesFail(lines);
    }
    hide *;
  }

  lemma MergedText(original: string, values: seq<Setting>, lines: seq<string>, at: seq<nat>, settings: seq<string>)
    requires lines == SplitLines(original) && settings == SettingLines(values)
    requires KeptPlaces(lines, at) && KeptLines(lines) == Ok(Chosen(lines, at))
    ensures Merge(original, values).Ok? <==> AllKeys(values) && AllValues(values)
    ensures var kept := Join(Chosen(lines, at));
            Merge(original, values).Ok? ==>
              Merge(original, values).value
              == kept + (if kept == "" || kept[|kept| - 1] == '\n' then "" else "\n") + TITLE + "\n" + Join(settings)
  {
    hide KeptLines, SplitLines, SettingLines, Join, Keep, ENV_KEYS, IsValue, AllValues, Chosen, TITLE, HEADER, Ended;
    var kept, written := Join(Chosen(lines, at)), Join(settings);
    EndedIs(kept);
    AllValuesAre(values);
    TitleLine();
    assert Ended(kept) + HEADER + written == Ended(kept) + TITLE + "\n" + written;
  }

  lemma EndedIs(text: string)
    ensures Ended(text) == text + (if text == "" || text[|text| - 1] == '\n' then "" else "\n")
  {
  }

  lemma TitleLine()
    ensures HEADER == TITLE + "\n"
  {
  }

  /** A refused merge says why: settings it should not have, else the first line it cannot read, else a value. */
  lemma MergeFails(original: string, values: seq<Setting>) returns (lines: seq<string>, i: nat)
    requires Merge(original, values).Err?
    ensures LinesOf(lines, original)
    ensures var error := Merge(original, values).error;
            if !AllKeys(values) then error == UnexpectedSetting
            else if !AllReadable(lines) then FirstFault(lines, i, error)
            else error == BadValue && !AllValues(values)
  {
    lines, i := SplitLines(original), 0;
    SplitIsLines(original);
    AllValuesAre(values);
    if AllReadable(lines) {
      var at := KeptLinesAre(lines);
    } else {
      i := KeptLinesFail(lines);
    }
    hide HEADER, Readable, IsValue, AllValues, SplitLines, KeptLines, ENV_KEYS, FirstFault, LinesOf, Keep, Ended, Join,
         SettingLines;
  }
}
