/** Line-level text: stripping, splitting into lines, and cutting at a separator. */
module EnvText {

  // ----- stripping -----

  /** Whitespace as byte strings have it, or, when `wide`, as text strings have it. */
  predicate IsSpace(c: char, wide: bool) {
    9 <= c as int <= 13 || c == ' ' || (wide && 28 <= c as int <= 31)
  }

  function TrimLeft(s: string, wide: bool): (r: string)
    ensures r != "" ==> !IsSpace(r[0], wide)
  {
    if s != "" && IsSpace(s[0], wide) then TrimLeft(s[1..], wide) else s
  }

  function TrimRight(s: string, wide: bool): (r: string)
    ensures r <= s
    ensures r != "" ==> !IsSpace(r[|r| - 1], wide)
  {
    if s != "" && IsSpace(s[|s| - 1], wide) then TrimRight(s[..|s| - 1], wide) else s
  }

  function Strip(s: string, wide: bool): string {
    TrimRight(TrimLeft(s, wide), wide)
  }

  /** A string ends where its last character that is not a space is. */
  lemma {:induction false} TrimRightAt(s: string, t: string, wide: bool)
    requires s == "" || !IsSpace(s[|s| - 1], wide)
    requires forall i | 0 <= i < |t| :: IsSpace(t[i], wide)
    ensures TrimRight(s + t, wide) == s
  {
    if t == "" {
      assert s + t == s;
    } else {
      TrimRightAt(s, t[..|t| - 1], wide);
      assert (s + t)[..|s + t| - 1] == s + t[..|t| - 1];
      assert (s + t)[|s + t| - 1] == t[|t| - 1];
    }
  }

  lemma {:induction false} TrimRightKeeps(s: string, t: string, wide: bool)
    requires s != "" && !IsSpace(s[|s| - 1], wide)
    ensures TrimRight(s + t, wide) == s + TrimRight(t, wide)
  {
    if t == "" {
      assert s + t == s && TrimRight(s, wide) == s;
    } else {
      assert (s + t)[|s + t| - 1] == t[|t| - 1];
      if IsSpace(t[|t| - 1], wide) {
        TrimRightKeeps(s, t[..|t| - 1], wide);
        assert (s + t)[..|s + t| - 1] == s + t[..|t| - 1];
      }
    }
  }

  /** What narrow stripping removes from the right, wide stripping removes too. */
  lemma {:induction false} TrimRightWider(s: string)
    ensures TrimRight(s, true) == TrimRight(TrimRight(s, false), true)
  {
    if s != "" && IsSpace(s[|s| - 1], false) {
      TrimRightWider(s[..|s| - 1]);
    }
  }

  lemma {:induction false} TrimLeftWider(s: string)
    ensures TrimLeft(s, true) == TrimLeft(TrimLeft(s, false), true)
  {
    if s != "" && IsSpace(s[0], false) {
      TrimLeftWider(s[1..]);
    }
  }

  lemma {:induction false} SpacesOnly(s: string, wide: bool)
    ensures Strip(s, wide) == "" <==> forall i | 0 <= i < |s| :: IsSpace(s[i], wide)
  {
    if s != "" {
      if IsSpace(s[0], wide) {
        SpacesOnly(s[1..], wide);
        assert forall i | 0 <= i < |s[1..]| :: s[1..][i] == s[i + 1];
        if forall i | 0 <= i < |s[1..]| :: IsSpace(s[1..][i], wide) {
          forall i | 0 <= i < |s|
            ensures IsSpace(s[i], wide)
          {
            assert i > 0 ==> s[1..][i - 1] == s[i];
          }
        }
      } else {
        TrimRightStarts(s, wide);
      }
    }
  }

  lemma {:induction false} TrimRightStarts(s: string, wide: bool)
    requires s != "" && !IsSpace(s[0], wide)
    ensures TrimRight(s, wide) != "" && TrimRight(s, wide)[0] == s[0]
  {
    if IsSpace(s[|s| - 1], wide) {
      TrimRightStarts(s[..|s| - 1], wide);
    }
  }

  /** Text stripped as bytes and then as text is text stripped as text, when its first character is no space at all. */
  lemma StripTwice(s: string)
    requires Strip(s, false) != "" && !IsSpace(Strip(s, false)[0], true)
    ensures Strip(s, true) == TrimRight(Strip(s, false), true)
  {
    var left := TrimLeft(s, false);
    TrimLeftWider(s);
    TrimRightStarts(left, false);
    TrimRightWider(left);
  }

  lemma BlankStaysBlank(s: string)
    requires Strip(s, false) == ""
    ensures Strip(s, true) == ""
  {
    SpacesOnly(s, false);
    SpacesOnly(s, true);
  }

  // ----- lines -----

  predicate IsBreak(c: char) {
    c == '\n' || c == '\r'
  }

  /** The length of the first line, its terminator included. */
  function FirstLine(t: string): (n: nat)
    requires t != ""
    ensures 1 <= n <= |t|
  {
    if t[0] == '\n' then 1
    else if t[0] == '\r' then if |t| > 1 && t[1] == '\n' then 2 else 1
    else if |t| == 1 then 1
    else 1 + FirstLine(t[1..])
  }

  /** Lines with their terminators: a line feed, a carriage return, or both. */
  function SplitLines(t: string): seq<string> {
    if t == "" then [] else [t[..FirstLine(t)]] + SplitLines(t[FirstLine(t)..])
  }

  function Join(lines: seq<string>): string {
    if lines == [] then "" else Join(lines[..|lines| - 1]) + lines[|lines| - 1]
  }

  lemma {:induction false} JoinConcat(a: seq<string>, b: seq<string>)
    ensures Join(a + b) == Join(a) + Join(b)
  {
    if b == [] {
      assert a + b == a;
    } else {
      var front, last := b[..|b| - 1], b[|b| - 1];
      JoinConcat(a, front);
      assert (a + b)[..|a + b| - 1] == a + front && (a + b)[|a + b| - 1] == last;
    }
  }

  lemma JoinOne(line: string)
    ensures Join([line]) == line
  {
    assert [line][..0] == [];
  }

  /** One line: nothing after its first terminator. */
  predicate IsLine(l: string) {
    l != "" && FirstLine(l) == |l|
  }

  predicate Terminated(l: string) {
    l != "" && IsBreak(l[|l| - 1])
  }

  lemma {:induction false} FirstLineOf(l: string, rest: string)
    requires IsLine(l) && (rest == "" || Terminated(l))
    ensures FirstLine(l + rest) == if rest != "" && l[|l| - 1] == '\r' && rest[0] == '\n' then |l| + 1 else |l|
  {
    assert rest == "" ==> l + rest == l;
    if rest != "" && |l| > 1 && !IsBreak(l[0]) {
      FirstLineOf(l[1..], rest);
      assert (l + rest)[1..] == l[1..] + rest;
    }
  }

  lemma {:induction false} FirstLineIsLine(t: string)
    requires t != ""
    ensures IsLine(t[..FirstLine(t)])
    ensures FirstLine(t) < |t| ==> Terminated(t[..FirstLine(t)])
  {
    if !IsBreak(t[0]) && |t| > 1 {
      FirstLineIsLine(t[1..]);
      assert t[..FirstLine(t)][1..] == t[1..][..FirstLine(t[1..])];
    }
  }

  /** Every line is one line, and all but the last are terminated. */
  ghost predicate AreLines(lines: seq<string>) {
    && (forall i | 0 <= i < |lines| :: IsLine(lines[i]))
    && forall i | 0 <= i < |lines| - 1 :: Terminated(lines[i])
  }

  lemma LinePrepended(line: string, lines: seq<string>)
    requires IsLine(line) && AreLines(lines) && (lines != [] ==> Terminated(line))
    ensures AreLines([line] + lines) && Join([line] + lines) == line + Join(lines)
  {
    hide IsLine, Terminated;
    JoinConcat([line], lines);
    JoinOne(line);
  }

  lemma SplitUnfolds(t: string)
    requires t != ""
    ensures SplitLines(t) == [t[..FirstLine(t)]] + SplitLines(t[FirstLine(t)..])
  {
    hide FirstLine;
  }

  lemma NothingSplit()
    ensures AreLines(SplitLines("")) && Join(SplitLines("")) == "" && SplitLines("") == []
  {
  }

  lemma {:induction false} SplitIntoLines(t: string)
    ensures AreLines(SplitLines(t)) && Join(SplitLines(t)) == t
    decreases |t|
  {
    hide *;
    NothingSplit();
    if t != "" {
      var line, rest := t[..FirstLine(t)], t[FirstLine(t)..];
      FirstLineIsLine(t);
      SplitUnfolds(t);
      SplitIntoLines(rest);
      assert rest == "" || FirstLine(t) < |t|;
      LinePrepended(line, SplitLines(rest));
      assert t == line + rest;
    }
  }

  // ----- cutting at a separator -----

  /** The position of the first `=`, or the length. */
  function Cut(s: string): (n: nat)
    ensures n <= |s|
    ensures forall i | 0 <= i < n :: s[i] != '='
    ensures n < |s| ==> s[n] == '='
  {
    if s == "" || s[0] == '=' then 0 else 1 + Cut(s[1..])
  }

  lemma {:induction false} CutAt(a: string, b: string)
    requires forall i | 0 <= i < |a| :: a[i] != '='
    ensures Cut(a + "=" + b) == |a|
  {
    var s := a + "=" + b;
    assert s[|a|] == '=';
    assert forall i | 0 <= i < |a| :: s[i] == a[i];
    var n := Cut(s);
  }
}
