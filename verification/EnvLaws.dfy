/** Saving settings again replaces them, and the file reads back as the settings over everything else. */
module EnvLaws {
  import opened Results
  import opened EnvText
  import opened EnvFile
  import opened EnvRoundTrip

  // ----- generated lines -----

  /** Compact JSON with escapes is printable ASCII; every other value is a scalar already. */
  ghost predicate Printable(values: seq<Setting>) {
    forall i | 0 <= i < |values| && values[i].0 == LINKS :: IsPrintable(values[i].1)
  }

  ghost predicate IsPrintable(s: string) {
    forall i | 0 <= i < |s| :: 32 <= s[i] as int <= 126
  }

  lemma KeyIsIdentifier(k: string)
    requires k in ENV_KEYS
    ensures IsIdentifier(k)
  {
    hide IsIdentifier;
    if |k| <= 13 {
      ShortKey(k);
    } else {
      LongKey(k);
    }
  }

  lemma ShortKey(k: string)
    requires k in ["CLUSTER_NODES", "COPY_HOSTS", "LOCAL_IP", "ETH_IF", "IB_IF", LINKS]
    ensures IsIdentifier(k)
  {
  }

  lemma LongKey(k: string)
    requires k in ["CONTAINER_NCCL_NET_PLUGIN", "CONTAINER_NCCL_IB_SUBNET_AWARE_ROUTING",
                   "CONTAINER_NCCL_IB_MERGE_NICS", "CONTAINER_NCCL_ALGO"]
    ensures IsIdentifier(k)
  {
  }

  lemma {:induction false} NoBreakFirstLine(s: string)
    requires forall i | 0 <= i < |s| :: !IsBreak(s[i])
    ensures FirstLine(s + "\n") == |s| + 1
  {
    if s != "" {
      assert (s + "\n")[1..] == s[1..] + "\n" && (s + "\n")[0] == s[0];
      NoBreakFirstLine(s[1..]);
    } else {
      assert s + "\n" == "\n";
    }
  }

  /** Text that begins and ends with something other than a space is all that is left of its line. */
  lemma StripsToItself(s: string, wide: bool)
    requires s != "" && !IsSpace(s[0], wide) && !IsSpace(s[|s| - 1], wide)
    ensures Strip(s + "\n", wide) == s && Strip(s, wide) == s
  {
    assert (s + "\n")[0] == s[0];
    TrimRightAt(s, "\n", wide);
    TrimRightAt(s, "", wide);
    assert s + "" == s;
  }

  /** A value as written: no space at either end, no line break, and matching quotes if any. */
  ghost predicate Writable(text: string) {
    && text != "" && !IsSpace(text[0], true) && !IsSpace(text[|text| - 1], true)
    && (forall i | 0 <= i < |text| :: !IsBreak(text[i])) && QuotesMatch(text)
  }

  lemma QuotedIsWritable(s: Setting)
    requires IsValue(s) && (s.0 == LINKS ==> IsPrintable(s.1))
    ensures Writable(Quoted(s))
  {
    if s.0 == LINKS {
      var text := Quoted(s);
      assert text[0] == '\'' && text[|text| - 1] == '\'';
      forall i | 0 <= i < |text|
        ensures !IsBreak(text[i])
      {
        assert 0 < i < |text| - 1 ==> text[i] == s.1[i - 1];
      }
    }
  }

  lemma {:induction false} UnquoteScalar(s: string)
    requires s != "" && s[0] != '\'' && s[0] != '"' && s[|s| - 1] != '\'' && s[|s| - 1] != '"'
    ensures Unquote(s) == s
  {
  }

  lemma {:induction false} NoQuoteInside(t: string)
    requires '\'' !in t
    ensures StripLeftChar(t, '\'') == t && StripRightChar(t, '\'') == t
  {
  }

  lemma UnquoteQuoted(t: string)
    requires '\'' !in t
    ensures Unquote("'" + t + "'") == t
  {
    var q := "'" + t + "'";
    assert q[0] == '\'' && q[|q| - 1] == '\'';
    assert q[1..] == t + "'";
    if t == "" {
      assert q == "''" && t + "'" == "'" && "'"[1..] == "";
      assert StripLeftChar(q, '"') == q && StripRightChar(q, '"') == q;
      assert StripLeftChar(q, '\'') == StripLeftChar("'", '\'') == "";
    } else {
      assert (t + "'")[0] == t[0];
      assert t[0] in t;
      NoQuoteInside(t);
      assert (t + "'")[..|t + "'"| - 1] == t;
      assert StripLeftChar(q, '"') == q && StripRightChar(q, '"') == q;
      assert StripLeftChar(q, '\'') == StripLeftChar(t + "'", '\'') == t + "'";
      assert StripRightChar(t + "'", '\'') == t;
    }
  }

  lemma UnquoteWritten(s: Setting)
    requires IsValue(s)
    ensures Unquote(Quoted(s)) == s.1
  {
    if s.0 == LINKS {
      UnquoteQuoted(s.1);
    } else {
      UnquoteScalar(s.1);
    }
  }

  /** A generated line is dropped by the next merge and reads as its setting. */
  lemma SettingLineReads(s: Setting)
    requires s.0 in ENV_KEYS && IsValue(s) && (s.0 == LINKS ==> IsPrintable(s.1))
    ensures IsLine(SettingLine(s)) && EndsLine(SettingLine(s))
    ensures Classify(SettingLine(s)) == Dropped && Read(SettingLine(s)) == Some(s)
  {
    var t := SettingText(s);
    hide *;
    LineOfText(t, SettingLine(s));
    LineRead(t, SettingLine(s), s);
  }

  /** A generated line without its line feed. */
  lemma SettingText(s: Setting) returns (t: string)
    requires s.0 in ENV_KEYS && IsValue(s) && (s.0 == LINKS ==> IsPrintable(s.1))
    ensures SettingLine(s) == t + "\n" && KindOf(t) == Dropped
    ensures t != "" && t[0] != '#' && !IsSpace(t[0], true) && !IsSpace(t[|t| - 1], true)
    ensures forall i | 0 <= i < |t| :: !IsBreak(t[i])
    ensures Cut(t) < |t| && Strip(t[..Cut(t)], true) == s.0 && Unquote(Strip(t[Cut(t) + 1..], true)) == s.1
  {
    KeyIsIdentifier(s.0);
    QuotedIsWritable(s);
    UnquoteWritten(s);
    t := KeyValue(s);
    assert SettingLine(s) == t + "\n";
    hide *;
    KindByParts(t, s.0, Quoted(s));
  }

  lemma LineOfText(t: string, line: string)
    requires line == t + "\n" && t != "" && !IsSpace(t[0], true) && !IsSpace(t[|t| - 1], true)
    requires forall i | 0 <= i < |t| :: !IsBreak(t[i])
    ensures IsLine(line) && EndsLine(line) && Classify(line) == KindOf(t) && Strip(line, true) == t
  {
    NoBreakFirstLine(t);
    StripsToItself(t, false);
    StripsToItself(t, true);
    hide Strip, KindOf, FirstLine;
  }

  lemma LineRead(t: string, line: string, s: Setting)
    requires Strip(line, true) == t && t != "" && t[0] != '#' && Cut(t) < |t|
    requires Strip(t[..Cut(t)], true) == s.0 && Unquote(Strip(t[Cut(t) + 1..], true)) == s.1
    ensures Read(line) == Some(s)
  {
    hide Strip, Cut, Unquote;
  }

  lemma KindByParts(t: string, key: string, text: string)
    requires t != "" && t[0] != '#' && Cut(t) < |t|
    requires Strip(t[..Cut(t)], false) == key && Strip(t[Cut(t) + 1..], false) == text
    requires key in ENV_KEYS && IsIdentifier(key) && Writable(text)
    ensures KindOf(t) == Dropped
  {
    hide ENV_KEYS, HEADER, Strip, IsIdentifier, Cut, QuotesMatch;
  }

  /** A key and a value, and what becomes of them when they are read. */
  lemma KeyValue(s: Setting) returns (t: string)
    requires IsIdentifier(s.0) && Writable(Quoted(s))
    ensures s.0 + "=" + Quoted(s) == t
    ensures t != "" && t[0] != '#' && !IsSpace(t[0], true) && !IsSpace(t[|t| - 1], true)
    ensures forall i | 0 <= i < |t| :: !IsBreak(t[i])
    ensures Cut(t) < |t|
    ensures Strip(t[..Cut(t)], false) == s.0 && Strip(t[Cut(t) + 1..], false) == Quoted(s)
    ensures Strip(t[..Cut(t)], true) == s.0 && Strip(t[Cut(t) + 1..], true) == Quoted(s)
  {
    var key, text := s.0, Quoted(s);
    hide *;
    t := key + "=" + text;
    TextEnds(key, text, t);
    TextParts(key, text, t);
    PartsStrip(key, text);
  }

  lemma TextEnds(key: string, text: string, t: string)
    requires IsIdentifier(key) && Writable(text) && t == key + "=" + text
    ensures t != "" && t[0] != '#' && !IsSpace(t[0], true) && !IsSpace(t[|t| - 1], true)
    ensures forall i | 0 <= i < |t| :: !IsBreak(t[i])
  {
    assert t[|t| - 1] == text[|text| - 1] && t[0] == key[0];
    hide QuotesMatch;
  }

  lemma TextParts(key: string, text: string, t: string)
    requires IsIdentifier(key) && t == key + "=" + text
    ensures Cut(t) < |t| && t[..Cut(t)] == key && t[Cut(t) + 1..] == text
  {
    CutAt(key, text);
    hide Cut, IsIdentifier;
    assert t[..|key|] == key && t[|key| + 1..] == text;
  }

  lemma PartsStrip(key: string, text: string)
    requires IsIdentifier(key) && Writable(text)
    ensures Strip(key, false) == key == Strip(key, true) && Strip(text, false) == text == Strip(text, true)
  {
    hide Strip;
    StripsToItself(key, false);
    StripsToItself(text, false);
    StripsToItself(key, true);
    StripsToItself(text, true);
  }

  // ----- the merged file, line by line -----

  ghost predicate Settable(values: seq<Setting>) {
    Printable(values) && forall i | 0 <= i < |values| :: values[i].0 in ENV_KEYS && IsValue(values[i])
  }

  lemma {:induction false} SettingsSplit(values: seq<Setting>)
    requires Settable(values)
    ensures SplitLines(Join(SettingLines(values))) == SettingLines(values)
    ensures Join(SettingLines(values)) == "" || EndsLine(Join(SettingLines(values)))
    ensures KeptLines(SettingLines(values)) == Ok([])
  {
    if values == [] {
      assert SplitLines(Join(SettingLines([]))) == SettingLines([]);
    } else {
      var front, last := values[..|values| - 1], values[|values| - 1];
      LastSettable(values);
      SettingsSplit(front);
      SettingLineReads(last);
      OneMoreLine(SettingLines(front), SettingLine(last));
      assert SettingLines(values) == SettingLines(front) + [SettingLine(last)];
    }
    hide *;
  }

  lemma LastSettable(values: seq<Setting>)
    requires Settable(values) && values != []
    ensures Settable(values[..|values| - 1])
    ensures var last := values[|values| - 1];
            last.0 in ENV_KEYS && IsValue(last) && (last.0 == LINKS ==> IsPrintable(last.1))
  {
    hide ENV_KEYS, IsValue, IsPrintable;
  }

  /** A dropped line at the end of dropped lines. */
  lemma OneMoreLine(lines: seq<string>, line: string)
    requires SplitLines(Join(lines)) == lines && (Join(lines) == "" || EndsLine(Join(lines)))
             && KeptLines(lines) == Ok([])
    requires IsLine(line) && EndsLine(line) && Classify(line) == Dropped
    ensures SplitLines(Join(lines + [line])) == lines + [line] && EndsLine(Join(lines + [line]))
    ensures KeptLines(lines + [line]) == Ok([])
  {
    LineAlone(line);
    SplitAppend(Join(lines), line);
    JoinAppends(lines, line);
    LastOfBoth(Join(lines), line);
    KeptLinesLast(lines, line);
    hide *;
  }

  lemma LastOfBoth(a: string, b: string)
    requires EndsLine(b)
    ensures EndsLine(a + b)
  {
    assert (a + b)[|a + b| - 1] == b[|b| - 1];
  }

  lemma KeptLinesLast(lines: seq<string>, line: string)
    requires KeptLines(lines).Ok?
    ensures Classify(line) == Dropped ==> KeptLines(lines + [line]) == KeptLines(lines)
    ensures Classify(line) == Kept ==> KeptLines(lines + [line]) == Ok(KeptLines(lines).value + [line])
  {
    hide Classify;
    assert (lines + [line])[..|lines|] == lines;
  }

  lemma LoadLast(env: map<string, string>, lines: seq<string>, line: string)
    ensures Load(env, lines + [line]) == Assign(Load(env, lines), line)
  {
    hide Assign;
    assert (lines + [line])[..|lines|] == lines;
  }

  lemma HeaderIsLine()
    ensures SplitLines(HEADER) == [HEADER] && EndsLine(HEADER)
  {
    var a, b := "# Cluster configuration ", "generated by setup-cluster.sh";
    assert forall i | 0 <= i < |a| :: !IsBreak(a[i]);
    assert forall i | 0 <= i < |b| :: !IsBreak(b[i]);
    NoBreakFirstLine(a + b);
    LineAlone(HEADER);
  }

  lemma {:induction false} UnterminatedHasNoBreak(l: string)
    requires IsLine(l) && !Terminated(l)
    ensures forall i | 0 <= i < |l| :: !IsBreak(l[i])
  {
    if |l| > 1 {
      UnterminatedHasNoBreak(l[1..]);
      assert forall i | 0 < i < |l| :: l[i] == l[1..][i - 1];
    }
  }

  /** Ending the last line changes neither what is kept nor what is read. */
  lemma LineEnded(l: string)
    requires IsLine(l) && !EndsLine(l)
    ensures IsLine(l + "\n") && Classify(l + "\n") == Classify(l) && Read(l + "\n") == Read(l)
  {
    if Terminated(l) {
      FirstLineOf(l, "\n");
    } else {
      UnterminatedHasNoBreak(l);
      NoBreakFirstLine(l);
    }
    LineFeedStrips(l, false);
    LineFeedStrips(l, true);
    assert Alike(l + "\n", l);
    hide *;
    AlikeLines(l + "\n", l);
  }

  /** The kept text, ended, splits into kept lines that read as before. */
  lemma EndedSplitsKept(lines: seq<string>, env: map<string, string>)
    requires AllKept(lines)
    ensures AllKept(SplitLines(Ended(Join(lines)))) && Load(env, SplitLines(Ended(Join(lines)))) == Load(env, lines)
    ensures Ended(Join(lines)) == "" || EndsLine(Ended(Join(lines)))
  {
    hide SplitLines, Join, AllKept, Load, EndsLine;
    var text := Join(lines);
    if text == "" || EndsLine(text) {
      KeptSplitAgain(lines, env);
    } else {
      var ended := UnterminatedEnded(lines, env);
      KeptSplitAgain(ended, env);
      EndsWithFeed(text);
    }
  }

  lemma EndsWithFeed(text: string)
    ensures EndsLine(text + "\n")
  {
  }

  /** Ending the last line of kept text changes nothing that is read. */
  lemma UnterminatedEnded(lines: seq<string>, env: map<string, string>) returns (ended: seq<string>)
    requires AllKept(lines) && Join(lines) != "" && !EndsLine(Join(lines))
    ensures AllKept(ended) && Join(ended) == Join(lines) + "\n" && Load(env, ended) == Load(env, lines)
  {
    hide Classify, Read;
    assert lines != [] by {
      assert lines == [] ==> Join(lines) == "";
    }
    var front, last := lines[..|lines| - 1], lines[|lines| - 1];
    assert Join(lines) == Join(front) + last && IsLine(last) && !EndsLine(last);
    LineEnded(last);
    ended := front + [last + "\n"];
    JoinAppends(front, last + "\n");
    AllKeptEnded(lines, ended);
    LoadLast(env, front, last);
    LoadLast(env, front, last + "\n");
    assert lines == front + [last];
    assert Join(front) + (last + "\n") == (Join(front) + last) + "\n";
  }

  lemma AllKeptEnded(lines: seq<string>, ended: seq<string>)
    requires AllKept(lines) && lines != [] && ended == lines[..|lines| - 1] + [lines[|lines| - 1] + "\n"]
    requires IsLine(lines[|lines| - 1] + "\n") && Classify(lines[|lines| - 1] + "\n") == Kept
    ensures AllKept(ended)
  {
    hide Classify, IsLine, Terminated;
    forall i | 0 <= i < |ended|
      ensures IsLine(ended[i]) && Classify(ended[i]) == Kept && (i < |ended| - 1 ==> Terminated(ended[i]))
    {
      assert i < |ended| - 1 ==> ended[i] == lines[i];
    }
  }

  /** A merged file is its kept lines, the header, and one line for each setting. */
  lemma MergedLines(base: string, values: seq<Setting>)
    requires (base == "" || EndsLine(base)) && Settable(values)
    ensures SplitLines(base + HEADER + Join(SettingLines(values)))
            == SplitLines(base) + ([HEADER] + SettingLines(values))
  {
    SettingsSplit(values);
    HeaderIsLine();
    hide *;
    SplitThree(base, HEADER, Join(SettingLines(values)));
  }

  lemma SplitThree(a: string, b: string, c: string)
    requires (a == "" || EndsLine(a)) && EndsLine(b)
    ensures SplitLines(a + b + c) == SplitLines(a) + (SplitLines(b) + SplitLines(c))
  {
    hide SplitLines;
    SplitAppend(b, c);
    SplitAppend(a, b + c);
    assert a + b + c == a + (b + c);
  }

  lemma HeaderIsDropped()
    ensures KeptLines([HEADER]) == Ok([])
  {
    assert Classify(HEADER) == Dropped;
    hide HEADER, Classify;
    assert [HEADER][..0] == [];
    assert KeptLines([HEADER][..0]) == Ok([]);
  }

  /** What the merge keeps of a merged file is the text it kept before. */
  lemma MergedKeeps(original: string, values: seq<Setting>)
    requires Merge(original, values).Ok? && Printable(values)
    ensures KeptLines(SplitLines(original)).Ok?
    ensures KeptLines(SplitLines(Merge(original, values).value))
         == Ok(SplitLines(Ended(Join(KeptLines(SplitLines(original)).value))))
  {
    hide HEADER, SplitLines, SettingLines, Join, KeptLines, Ended, IsValue, ENV_KEYS, Load;
    var kept := KeptLines(SplitLines(original)).value;
    var base := Ended(Join(kept));
    SplitIntoLines(original);
    KeptAreAllKept(SplitLines(original));
    EndedSplitsKept(kept, map[]);
    SettingsSplit(values);
    MergedLines(base, values);
    AllKeptAreKept(SplitLines(base));
    HeaderIsDropped();
    KeptConcat([HEADER], SettingLines(values));
    KeptConcat(SplitLines(base), [HEADER] + SettingLines(values));
    assert SplitLines(base) + ([] + []) == SplitLines(base);
  }

  /**
   * Saving again: whenever a merge succeeded, merging other settings into its result is merging
   * them into the original, with the same success or the same fault. So saving the same settings
   * twice changes nothing.
   */
  lemma MergeReplaces(original: string, values: seq<Setting>, values': seq<Setting>)
    requires Merge(original, values).Ok? && Printable(values)
    ensures Merge(Merge(original, values).value, values') == Merge(original, values')
  {
    hide *;
    MergedKeeps(original, values);
    EndedAgain(Join(KeptLines(SplitLines(original)).value));
    SameKeptSameMerge(Merge(original, values).value, original, values');
  }

  lemma EndedAgain(text: string)
    ensures Ended(Join(SplitLines(Ended(text)))) == Ended(text)
  {
    hide SplitLines, Join;
    SplitIntoLines(Ended(text));
  }

  lemma SameKeptSameMerge(a: string, b: string, values: seq<Setting>)
    requires KeptLines(SplitLines(a)).Ok? && KeptLines(SplitLines(b)).Ok?
    requires Ended(Join(KeptLines(SplitLines(a)).value)) == Ended(Join(KeptLines(SplitLines(b)).value))
    ensures Merge(a, values) == Merge(b, values)
  {
    hide HEADER, SplitLines, SettingLines, Join, KeptLines, IsValue, ENV_KEYS, Ended;
  }

  // ----- reading the merged file -----

  /** A key-value line, by its two sides. */
  lemma KeyRead(l: string, t: string, key: string)
    requires t == Strip(l, false) && Cut(t) < |t| && key == Strip(t[..Cut(t)], false) && IsIdentifier(key)
    ensures Read(l).Some? && Read(l).value.0 == key
  {
    var a, b := t[..Cut(t)], t[Cut(t) + 1..];
    KeySide(a, key, t);
    StripTwice(l);
    KeyTrimmed(a, b, t);
    StripTwice(a);
    IdentifierTrimmed(key);
    hide *;
    ReadByKey(l, TrimRight(t, true), key);
  }

  lemma ReadByKey(l: string, r: string, key: string)
    requires Strip(l, true) == r && r != "" && r[0] != '#' && Cut(r) < |r| && Strip(r[..Cut(r)], true) == key
    ensures Read(l).Some? && Read(l).value.0 == key
  {
    hide Strip, Cut, Unquote;
  }

  lemma KeySide(a: string, key: string, t: string)
    requires t != "" && !IsSpace(t[0], false) && a <= t
    requires key == Strip(a, false) && IsIdentifier(key)
    ensures a != "" && a[0] == key[0] == t[0] && !IsSpace(t[0], true) && t[0] != '#'
  {
    assert a[0] == t[0];
    TrimRightStarts(a, false);
  }

  lemma KeyTrimmed(a: string, b: string, t: string)
    requires Cut(t) < |t| && a == t[..Cut(t)] && b == t[Cut(t) + 1..] && a != ""
    ensures var r := TrimRight(t, true); r != "" && r[0] == t[0] && Cut(r) == |a| && |a| < |r| && r[..|a|] == a
  {
    assert t == a + "=" + b;
    TrimRightKeeps(a + "=", b, true);
    var w := TrimRight(b, true);
    hide *;
    KeyPart(a, w, a + "=" + w);
  }

  lemma KeyPart(a: string, w: string, r: string)
    requires r == a + "=" + w && a != "" && forall i | 0 <= i < |a| :: a[i] != '='
    ensures r != "" && r[0] == a[0] && Cut(r) == |a| && |a| < |r| && r[..|a|] == a
  {
    CutAt(a, w);
    hide Cut;
    assert r[..|a|] == a;
  }

  lemma IdentifierTrimmed(key: string)
    requires IsIdentifier(key)
    ensures TrimRight(key, true) == key && !IsSpace(key[0], true)
  {
  }

  /** Lines that are neither settings nor faults assign nothing. */
  lemma BlankOrCommentRead(l: string)
    requires Strip(l, false) == "" || Strip(l, false)[0] == '#'
    ensures Read(l) == None
  {
    if Strip(l, false) == "" {
      BlankStaysBlank(l);
    } else {
      StripTwice(l);
      TrimRightStarts(Strip(l, false), true);
    }
    hide TrimLeft, TrimRight, Cut, Unquote;
  }

  /** A dropped line assigns a cluster key or nothing; a kept one anything but a cluster key. */
  lemma WhatLinesAssign(l: string)
    ensures Classify(l) == Dropped ==> Read(l).None? || Read(l).value.0 in ENV_KEYS
    ensures Classify(l) == Kept ==> Read(l).None? || Read(l).value.0 !in ENV_KEYS
  {
    var t := Strip(l, false);
    HeaderStripped(false);
    hide HEADER, ENV_KEYS, Strip, IsIdentifier, QuotesMatch;
    if t == "" || t[0] == '#' {
      BlankOrCommentRead(l);
    } else if Cut(t) < |t| && IsIdentifier(Strip(t[..Cut(t)], false)) {
      KeyRead(l, t, Strip(t[..Cut(t)], false));
    }
  }

  /** Reading the kept lines is reading all of them and forgetting the cluster keys. */
  lemma {:induction false} KeptLoad(lines: seq<string>)
    requires KeptLines(lines).Ok?
    ensures Load(map[], KeptLines(lines).value) == Load(map[], lines) - ENV_KEYS
  {
    hide *;
    if lines == [] {
      NothingLoaded();
    } else {
      var front, last := lines[..|lines| - 1], lines[|lines| - 1];
      assert lines == front + [last];
      FrontIsKept(front, last);
      KeptLoad(front);
      KeptLoadStep(front, last);
    }
  }

  lemma NothingLoaded()
    ensures KeptLines([]) == Ok([]) && Load(map[], []) == map[] == map[] - ENV_KEYS
  {
    hide ENV_KEYS;
  }

  lemma FrontIsKept(front: seq<string>, last: string)
    requires KeptLines(front + [last]).Ok?
    ensures KeptLines(front).Ok? && !Classify(last).Faulty?
  {
    hide Classify;
    assert (front + [last])[..|front|] == front;
  }

  lemma KeptLoadStep(front: seq<string>, last: string)
    requires KeptLines(front).Ok? && !Classify(last).Faulty?
    requires Load(map[], KeptLines(front).value) == Load(map[], front) - ENV_KEYS
    ensures KeptLines(front + [last]).Ok?
    ensures Load(map[], KeptLines(front + [last]).value) == Load(map[], front + [last]) - ENV_KEYS
  {
    hide *;
    KeptLinesLast(front, last);
    LoadLast(map[], front, last);
    LoadLast(map[], KeptLines(front).value, last);
    AssignForgotten(Load(map[], front), last);
  }

  /** Forgetting the cluster keys before a line is assigned or after it. */
  lemma AssignForgotten(env: map<string, string>, l: string)
    ensures Classify(l) == Kept ==> Assign(env, l) - ENV_KEYS == Assign(env - ENV_KEYS, l)
    ensures Classify(l) == Dropped ==> Assign(env, l) - ENV_KEYS == env - ENV_KEYS
  {
    WhatLinesAssign(l);
    hide ENV_KEYS, Classify, Read;
  }

  /** Settings as a map, the last of a key winning. */
  function ValueMap(values: seq<Setting>): map<string, string> {
    if values == [] then map[]
    else ValueMap(values[..|values| - 1])[values[|values| - 1].0 := values[|values| - 1].1]
  }

  lemma {:induction false} SettingsLoad(env: map<string, string>, values: seq<Setting>)
    requires Settable(values)
    ensures Load(env, SettingLines(values)) == env + ValueMap(values)
  {
    if values != [] {
      var front, last := values[..|values| - 1], values[|values| - 1];
      LastSettable(values);
      SettingsLoad(env, front);
      SettingLineReads(last);
      LoadLast(env, SettingLines(front), SettingLine(last));
      AssignOver(env, ValueMap(front), SettingLine(last), last);
      assert SettingLines(values) == SettingLines(front) + [SettingLine(last)];
      assert ValueMap(values) == ValueMap(front)[last.0 := last.1];
    } else {
      assert env + map[] == env;
    }
    hide *;
  }

  lemma AssignOver(env: map<string, string>, m: map<string, string>, line: string, s: Setting)
    requires Read(line) == Some(s)
    ensures Assign(env + m, line) == env + m[s.0 := s.1]
  {
    hide Read;
  }

  /**
   * Reading back: a merged file reads as the generated settings, over what the original read as
   * on every key that is not a cluster key.
   */
  lemma MergedReadsBack(original: string, values: seq<Setting>)
    requires Merge(original, values).Ok? && Printable(values)
    ensures Load(map[], SplitLines(Merge(original, values).value))
         == (Load(map[], SplitLines(original)) - ENV_KEYS) + ValueMap(values)
  {
    var lines := SplitLines(original);
    var kept := KeptLines(lines).value;
    var base := Ended(Join(kept));
    SplitIntoLines(original);
    KeptAreAllKept(lines);
    EndedSplitsKept(kept, map[]);
    KeptLoad(lines);
    MergedLines(base, values);
    HeaderReads(Load(map[], kept), SettingLines(values));
    SettingsLoad(Load(map[], kept), values);
    hide HEADER, SplitLines, SettingLines, Join, KeptLines, Ended, IsValue, ENV_KEYS, Load, ValueMap;
    LoadConcat(map[], SplitLines(base), [HEADER] + SettingLines(values));
  }

  lemma HeaderReads(env: map<string, string>, lines: seq<string>)
    ensures Load(env, [HEADER] + lines) == Load(env, lines)
  {
    HeaderStripped(false);
    BlankOrCommentRead(HEADER);
    hide HEADER, Read;
    LoadFront(env, HEADER, lines);
  }
}
