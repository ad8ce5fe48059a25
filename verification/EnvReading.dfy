/** What an environment file reads as, said of its lines. */
module EnvReading {
  import opened Results
  import opened EnvText
  import opened EnvFile
  import opened EnvPreserves

  predicate AllAre(s: string, c: char) {
    forall i | 0 <= i < |s| :: s[i] == c
  }

  /** `t` is `s` without any of this quote at its ends. */
  ghost predicate Peeled(s: string, t: string, c: char) {
    && (exists a, b :: s == a + t + b && AllAre(a, c) && AllAre(b, c))
    && (t != "" ==> t[0] != c && t[|t| - 1] != c)
  }

  function Peel(s: string, c: char): string {
    StripRightChar(StripLeftChar(s, c), c)
  }

  lemma {:induction false} LeftPeels(s: string, c: char) returns (a: string)
    ensures var t := StripLeftChar(s, c); s == a + t && AllAre(a, c) && (t != "" ==> t[0] != c)
  {
    a := "";
    if s != "" && s[0] == c {
      var more := LeftPeels(s[1..], c);
      a := [c] + more;
      assert s == [c] + s[1..];
    }
  }

  lemma {:induction false} RightPeels(s: string, c: char) returns (b: string)
    ensures var t := StripRightChar(s, c);
            s == t + b && AllAre(b, c) && (t != "" ==> t[|t| - 1] != c) && (s != "" && s[0] != c ==> t != "")
  {
    b := "";
    if s != "" && s[|s| - 1] == c {
      var more := RightPeels(s[..|s| - 1], c);
      b := more + [c];
      assert s == s[..|s| - 1] + [c];
    }
  }

  lemma {:induction false} LeftPeelIs(a: string, s: string, c: char)
    requires AllAre(a, c) && (s == "" || s[0] != c)
    ensures StripLeftChar(a + s, c) == s
  {
    if a == "" {
      assert a + s == s;
    } else {
      assert (a + s)[1..] == a[1..] + s;
      LeftPeelIs(a[1..], s, c);
    }
  }

  lemma {:induction false} RightPeelIs(s: string, b: string, c: char)
    requires AllAre(b, c) && (s == "" || s[|s| - 1] != c)
    ensures StripRightChar(s + b, c) == s
  {
    if b == "" {
      assert s + b == s;
    } else {
      assert (s + b)[..|s + b| - 1] == s + b[..|b| - 1];
      RightPeelIs(s, b[..|b| - 1], c);
    }
  }

  lemma PeelGives(s: string, c: char)
    ensures Peeled(s, Peel(s, c), c)
  {
    var left := StripLeftChar(s, c);
    var a := LeftPeels(s, c);
    var b := RightPeels(left, c);
    assert s == a + Peel(s, c) + b;
    if Peel(s, c) != "" {
      assert Peel(s, c)[0] == left[0];
    }
    hide StripLeftChar, StripRightChar;
  }

  lemma EndsPeel(a: string, t: string, b: string, c: char)
    requires AllAre(a, c) && AllAre(b, c) && (t != "" ==> t[0] != c && t[|t| - 1] != c)
    ensures Peel(a + t + b, c) == t
  {
    if t == "" {
      LeftPeelIs(a + b, "", c);
      assert a + t + b == a + b + "";
      RightPeelIs("", "", c);
      assert "" + "" == "";
    } else {
      assert a + t + b == a + (t + b) && (t + b)[0] == t[0];
      LeftPeelIs(a, t + b, c);
      RightPeelIs(t, b, c);
    }
    hide StripLeftChar, StripRightChar;
  }

  lemma PeelIs(s: string, t: string, c: char)
    ensures Peeled(s, t, c) <==> t == Peel(s, c)
  {
    hide Peel, AllAre;
    PeelGives(s, c);
    if Peeled(s, t, c) {
      var a, b :| s == a + t + b && AllAre(a, c) && AllAre(b, c);
      EndsPeel(a, t, b, c);
    }
  }

  /** Double quotes taken off, and then single ones. */
  ghost predicate Unquoted(s: string, t: string) {
    exists u :: Peeled(s, u, '"') && Peeled(u, t, '\'')
  }

  lemma UnquoteIs(s: string, t: string)
    ensures Unquoted(s, t) <==> t == Unquote(s)
  {
    hide Peeled, Peel;
    assert Unquote(s) == Peel(Peel(s, '"'), '\'') by {
      UnquotePeels(s);
    }
    forall u
      ensures Peeled(s, u, '"') <==> u == Peel(s, '"')
      ensures Peeled(u, t, '\'') <==> t == Peel(u, '\'')
    {
      PeelIs(s, u, '"');
      PeelIs(u, t, '\'');
    }
  }

  lemma UnquotePeels(s: string)
    ensures Unquote(s) == Peel(Peel(s, '"'), '\'')
  {
    hide StripLeftChar, StripRightChar;
  }

  /** The line, without white space at its ends, is no comment and assigns the key this value, in quotes or not. */
  ghost predicate LineReads(line: string, key: string, value: string) {
    exists t, quoted :: && Stripped(line, t, true) && t != "" && t[0] != '#' && Assigns(t, key, quoted, true)
                        && Unquoted(quoted, value)
  }

  lemma ReadIs(line: string, key: string, value: string)
    ensures Read(line) == Some((key, value)) <==> LineReads(line, key, value)
  {
    hide Stripped, Strip, Assigns, Unquoted, Unquote, Cut;
    var t := Strip(line, true);
    StripIs(line, t, true);
    forall u | Stripped(line, u, true)
      ensures u == t
    {
      StripIs(line, u, true);
    }
    if Cut(t) < |t| {
      var quoted := Strip(t[Cut(t) + 1..], true);
      AssignsIs(t, key, quoted, true);
      UnquoteIs(quoted, value);
    }
    forall quoted | Assigns(t, key, quoted, true) && Unquoted(quoted, value)
      ensures Cut(t) < |t| && key == Strip(t[..Cut(t)], true) && value == Unquote(Strip(t[Cut(t) + 1..], true))
    {
      AssignsIs(t, key, quoted, true);
      UnquoteIs(quoted, value);
    }
  }

  // ----- the whole file -----

  /** Line `i` is the last to assign the key, and assigns it this value. */
  ghost predicate LastReads(lines: seq<string>, i: nat, key: string, value: string) {
    && i < |lines| && LineReads(lines[i], key, value)
    && forall j, other | i < j < |lines| :: !LineReads(lines[j], key, other)
  }

  lemma OneMoreRead(front: seq<string>, last: string, key: string, value: string, i: nat)
    ensures LastReads(front + [last], i, key, value)
       <==> if i == |front| then LineReads(last, key, value)
            else LastReads(front, i, key, value) && forall other :: !LineReads(last, key, other)
    ensures LastReads(front, i, key, value) ==> i < |front|
  {
    hide LineReads;
    var lines := front + [last];
    assert forall j | 0 <= j < |front| :: lines[j] == front[j];
    assert lines[|front|] == last;
  }

  /** A key reads as the value of the last line that assigns it, and a key that no line assigns is absent. */
  lemma {:induction false} LoadIs(lines: seq<string>, key: string, value: string)
    ensures key in Load(map[], lines) && Load(map[], lines)[key] == value
       <==> exists i: nat :: LastReads(lines, i, key, value)
  {
    hide LineReads, Read, LastReads;
    if lines == [] {
      NothingReads(key, value);
    } else {
      var front, last := lines[..|lines| - 1], lines[|lines| - 1];
      assert lines == front + [last];
      LoadIs(front, key, value);
      forall i: nat
        ensures LastReads(lines, i, key, value)
           <==> if i == |front| then LineReads(last, key, value)
                else LastReads(front, i, key, value) && forall other :: !LineReads(last, key, other)
        ensures LastReads(front, i, key, value) ==> i < |front|
      {
        OneMoreRead(front, last, key, value, i);
      }
      forall k, v
        ensures Read(last) == Some((k, v)) <==> LineReads(last, k, v)
      {
        ReadIs(last, k, v);
      }
      LoadIsStep(front, last, key, value);
      hide Load;
      if LineReads(last, key, value) {
        assert LastReads(lines, |front|, key, value);
      } else if i: nat :| LastReads(front, i, key, value) {
        assert LastReads(lines, i, key, value) <==> forall other :: !LineReads(last, key, other);
      }
    }
  }

  lemma NothingReads(key: string, value: string)
    ensures Load(map[], []) == map[] && forall i :: !LastReads([], i, key, value)
  {
  }

  lemma LoadIsStep(front: seq<string>, last: string, key: string, value: string)
    requires forall k, v :: Read(last) == Some((k, v)) <==> LineReads(last, k, v)
    ensures var env := Load(map[], front + [last]);
            (key in env && env[key] == value)
            <==> (LineReads(last, key, value)
                  || (key in Load(map[], front) && Load(map[], front)[key] == value
                      && forall other :: !LineReads(last, key, other)))
  {
    hide LineReads, Read;
    assert (front + [last])[..|front|] == front;
    if Read(last).Some? {
      var (k, v) := Read(last).value;
      assert LineReads(last, k, v);
    }
  }
}
