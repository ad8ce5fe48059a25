/** What merging twice and reading back an environment file come to. */
module EnvRoundTrip {
  import opened Results
  import opened Sequences
  import opened EnvText
  import opened EnvFile

  // ----- lists of lines -----

  lemma {:induction false} KeptConcat(a: seq<string>, b: seq<string>)
    requires KeptLines(a).Ok? && KeptLines(b).Ok?
    ensures KeptLines(a + b) == Ok(KeptLines(a).value + KeptLines(b).value)
  {
    hide Classify;
    if b == [] {
      assert a + b == a && KeptLines(a).value + [] == KeptLines(a).value;
    } else {
      var front, last := b[..|b| - 1], b[|b| - 1];
      KeptConcat(a, front);
      assert (a + b)[..|a + b| - 1] == a + front && (a + b)[|a + b| - 1] == last;
      var more := if Classify(last) == Kept then [last] else [];
      assert (KeptLines(a).value + KeptLines(front).value) + more
             == KeptLines(a).value + (KeptLines(front).value + more);
    }
  }

  lemma {:induction false} LoadConcat(env: map<string, string>, a: seq<string>, b: seq<string>)
    ensures Load(env, a + b) == Load(Load(env, a), b)
    decreases |b|
  {
    hide Assign;
    if b == [] {
      assert a + b == a;
    } else {
      var front, last := b[..|b| - 1], b[|b| - 1];
      LoadConcat(env, a, front);
      assert (a + b)[..|a + b| - 1] == a + front && (a + b)[|a + b| - 1] == last;
    }
  }

  lemma {:induction false} SplitAppend(a: string, b: string)
    requires a == "" || EndsLine(a)
    ensures SplitLines(a + b) == SplitLines(a) + SplitLines(b)
    decreases |a|
  {
    if a == "" {
      assert a + b == b;
    } else {
      var n := FirstLine(a);
      var line, rest := a[..n], a[n..];
      SplitAppend(rest, b);
      FirstAppend(a, b, n, line, rest);
      Associate([line], SplitLines(rest), SplitLines(b));
      assert SplitLines(a) == [line] + SplitLines(rest);
    }
    hide *;
  }

  lemma FirstAppend(a: string, b: string, n: nat, line: string, rest: string)
    requires EndsLine(a) && n == FirstLine(a) && line == a[..n] && rest == a[n..]
    ensures SplitLines(a + b) == [line] + SplitLines(rest + b)
  {
    FirstLineAppend(a, b);
    assert (a + b)[..n] == line && (a + b)[n..] == rest + b;
    hide FirstLine;
  }

  lemma {:induction false} FirstLineAppend(a: string, b: string)
    requires EndsLine(a)
    ensures FirstLine(a + b) == FirstLine(a)
  {
    if !IsBreak(a[0]) && |a| > 1 {
      FirstLineAppend(a[1..], b);
      assert (a + b)[1..] == a[1..] + b;
    }
  }

  lemma LineAlone(l: string)
    requires IsLine(l)
    ensures SplitLines(l) == [l]
  {
    assert l[..|l|] == l && l[|l|..] == "";
  }

  // ----- the kept text, split again -----

  /** Lines all kept by the merge. */
  ghost predicate AllKept(lines: seq<string>) {
    AreLines(lines) && forall i | 0 <= i < |lines| :: Classify(lines[i]) == Kept
  }

  lemma {:induction false} AllKeptAreKept(lines: seq<string>)
    requires forall i | 0 <= i < |lines| :: Classify(lines[i]) == Kept
    ensures KeptLines(lines) == Ok(lines)
  {
    hide Classify;
    if lines != [] {
      AllKeptAreKept(lines[..|lines| - 1]);
      assert lines == lines[..|lines| - 1] + [lines[|lines| - 1]];
    }
  }

  lemma {:induction false} KeptAreAllKept(lines: seq<string>)
    requires AreLines(lines) && KeptLines(lines).Ok?
    ensures AllKept(KeptLines(lines).value)
    ensures lines != [] && !Terminated(lines[|lines| - 1]) ==>
              forall i | 0 <= i < |KeptLines(lines).value| - 1 :: Terminated(KeptLines(lines).value[i])
    ensures (lines == [] || Terminated(lines[|lines| - 1])) ==>
              forall i | 0 <= i < |KeptLines(lines).value| :: Terminated(KeptLines(lines).value[i])
  {
    hide Classify, IsLine, Terminated;
    if lines != [] {
      var front := lines[..|lines| - 1];
      KeptAreAllKept(front);
      assert front == [] || Terminated(front[|front| - 1]);
    }
  }

  lemma {:induction false} TrimLeftFeed(l: string, m: string, wide: bool)
    requires m == l + "\n"
    ensures TrimLeft(m, wide) == if TrimLeft(l, wide) == "" then "" else TrimLeft(l, wide) + "\n"
  {
    if l == "" {
      assert m == "\n" && m[1..] == "";
    } else if IsSpace(l[0], wide) {
      assert m[0] == l[0] && m[1..] == l[1..] + "\n";
      TrimLeftFeed(l[1..], m[1..], wide);
    } else {
      assert m[0] == l[0];
    }
  }

  /** A line and the line feed that may come to stand after it strip alike. */
  lemma LineFeedStrips(l: string, wide: bool)
    ensures Strip(l + "\n", wide) == Strip(l, wide)
  {
    TrimLeftFeed(l, l + "\n", wide);
    var left := TrimLeft(l, wide);
    if left != "" {
      assert (left + "\n")[..|left + "\n"| - 1] == left;
    }
  }

  lemma FeedIsBlank(wide: bool)
    ensures Strip("\n", wide) == ""
  {
    TrimLeftFeed("", "\n", wide);
  }

  ghost predicate Alike(l: string, k: string) {
    Strip(l, false) == Strip(k, false) && Strip(l, true) == Strip(k, true)
  }

  lemma AlikeLines(l: string, k: string)
    requires Alike(l, k)
    ensures Classify(l) == Classify(k) && Read(l) == Read(k)
  {
    hide KindOf, Cut, Unquote, Strip;
  }

  lemma BlankLine(env: map<string, string>)
    ensures Classify("\n") == Kept && Assign(env, "\n") == env
  {
    FeedIsBlank(false);
    FeedIsBlank(true);
    HeaderStripped(false);
    hide Strip, Cut, Unquote;
    assert KindOf("") == Kept;
  }

  lemma HeaderStripped(wide: bool)
    ensures Strip(HEADER, wide) != "" && Strip(HEADER, wide)[0] == '#'
  {
    assert HEADER[0] == '#';
    TrimRightStarts(HEADER, wide);
  }

  // ----- joined and split again -----

  lemma JoinFront(lines: seq<string>)
    requires lines != []
    ensures Join(lines) == lines[0] + Join(lines[1..])
  {
    JoinConcat([lines[0]], lines[1..]);
    JoinOne(lines[0]);
    assert [lines[0]] + lines[1..] == lines;
  }

  lemma LoadFront(env: map<string, string>, line: string, rest: seq<string>)
    ensures Load(env, [line] + rest) == Load(Assign(env, line), rest)
  {
    LoadConcat(env, [line], rest);
    assert [line][..0] == [];
  }

  lemma AllKeptFront(line: string, rest: seq<string>)
    requires IsLine(line) && Classify(line) == Kept && AllKept(rest) && (rest != [] ==> Terminated(line))
    ensures AllKept([line] + rest)
  {
    hide Classify, IsLine, Terminated;
    var lines := [line] + rest;
    forall i | 0 <= i < |lines|
      ensures IsLine(lines[i]) && Classify(lines[i]) == Kept
      ensures i < |lines| - 1 ==> Terminated(lines[i])
    {
      assert i > 0 ==> lines[i] == rest[i - 1];
    }
  }

  lemma AllKeptRest(lines: seq<string>)
    requires AllKept(lines) && lines != []
    ensures IsLine(lines[0]) && Classify(lines[0]) == Kept && AllKept(lines[1..])
    ensures lines[1..] != [] ==> Terminated(lines[0])
  {
    hide Classify, IsLine, Terminated;
    var rest := lines[1..];
    assert forall i | 0 <= i < |rest| :: rest[i] == lines[i + 1];
  }

  /** A first line that stays a line of its own. */
  lemma SplitApart(l: string, text: string)
    requires IsLine(l) && (text != "" ==> Terminated(l)) && !(text != "" && l[|l| - 1] == '\r' && text[0] == '\n')
    ensures SplitLines(l + text) == [l] + SplitLines(text)
  {
    FirstLineOf(l, text);
    assert (l + text)[..|l|] == l && (l + text)[|l|..] == text;
  }

  /** A first line ending in a carriage return takes a line feed that follows it. */
  lemma SplitTogether(l: string, text: string)
    requires IsLine(l) && l[|l| - 1] == '\r'
    ensures SplitLines(l + ("\n" + text)) == [l + "\n"] + SplitLines(text)
    ensures IsLine(l + "\n") && Terminated(l + "\n")
  {
    FirstLineOf(l, "\n" + text);
    FirstLineOf(l, "\n");
    var whole := l + ("\n" + text);
    assert whole[..|l| + 1] == l + "\n" && whole[|l| + 1..] == text;
  }

  /**
   * Kept lines joined and split again: where a lone carriage return has come to stand before a
   * line feed the two make one terminator, which changes neither what is kept nor what is read.
   */
  lemma {:induction false} KeptSplitAgain(lines: seq<string>, env: map<string, string>)
    requires AllKept(lines)
    ensures AllKept(SplitLines(Join(lines))) && Load(env, SplitLines(Join(lines))) == Load(env, lines)
    decreases |lines|
  {
    if lines == [] {
      return;
    }
    var l, rest := lines[0], lines[1..];
    AllKeptRest(lines);
    JoinFront(lines);
    assert lines == [l] + rest;
    if rest != [] && l[|l| - 1] == '\r' && rest[0][0] == '\n' {
      AllKeptRest(rest);
      KeptSplitAgain(rest[1..], Assign(env, l));
      LineFeedTaken(l, rest, env);
    } else {
      KeptSplitAgain(rest, Assign(env, l));
      LineApart(l, rest, env);
    }
  }

  /** The first line stays apart from what follows it. */
  lemma LineApart(l: string, rest: seq<string>, env: map<string, string>)
    requires IsLine(l) && Classify(l) == Kept && AllKept(rest) && (rest != [] ==> Terminated(l))
    requires rest == [] || l[|l| - 1] != '\r' || rest[0] == "" || rest[0][0] != '\n'
    requires AllKept(SplitLines(Join(rest)))
             && Load(Assign(env, l), SplitLines(Join(rest))) == Load(Assign(env, l), rest)
    ensures AllKept(SplitLines(l + Join(rest))) && Load(env, SplitLines(l + Join(rest))) == Load(env, [l] + rest)
  {
    LoadFront(env, l, rest);
    if rest != [] {
      JoinFront(rest);
      AllKeptRest(rest);
    }
    SplitApart(l, Join(rest));
    LoadFront(env, l, SplitLines(Join(rest)));
    AllKeptFront(l, SplitLines(Join(rest)));
    hide *;
  }

  lemma FeedLine(l: string)
    requires IsLine(l) && l[0] == '\n'
    ensures l == "\n"
  {
  }

  /** The first line takes the line feed that makes up the second. */
  lemma LineFeedTaken(l: string, rest: seq<string>, env: map<string, string>)
    requires IsLine(l) && Classify(l) == Kept && AllKept(rest) && rest != []
    requires l[|l| - 1] == '\r' && rest[0] != "" && rest[0][0] == '\n'
    requires AllKept(SplitLines(Join(rest[1..])))
             && Load(Assign(env, l), SplitLines(Join(rest[1..]))) == Load(Assign(env, l), rest[1..])
    ensures AllKept(SplitLines(l + Join(rest))) && Load(env, SplitLines(l + Join(rest))) == Load(env, [l] + rest)
  {
    AllKeptRest(rest);
    JoinFront(rest);
    FeedLine(rest[0]);
    hide AllKept, Classify, Load, SplitLines, Join, FirstLine, IsLine;
    assert rest == ["\n"] + rest[1..];
    SplitTogether(l, Join(rest[1..]));
    TakesLineFeed(l, rest[1..], env);
    hide *;
  }

  lemma TakesLineFeed(l: string, rest: seq<string>, env: map<string, string>)
    requires IsLine(l + "\n") && Terminated(l + "\n") && Classify(l) == Kept
    requires AllKept(SplitLines(Join(rest)))
             && Load(Assign(env, l), SplitLines(Join(rest))) == Load(Assign(env, l), rest)
    ensures AllKept([l + "\n"] + SplitLines(Join(rest)))
    ensures Load(env, [l + "\n"] + SplitLines(Join(rest))) == Load(env, [l] + (["\n"] + rest))
  {
    LineFeedStrips(l, false);
    LineFeedStrips(l, true);
    AlikeLines(l + "\n", l);
    AllKeptFront(l + "\n", SplitLines(Join(rest)));
    LoadFront(env, l + "\n", SplitLines(Join(rest)));
    LoadFront(env, l, ["\n"] + rest);
    LoadFront(Assign(env, l), "\n", rest);
    BlankLine(Assign(env, l));
    hide Classify, SplitLines, Join, Load, Read;
  }
}
