/** Merging generated cluster settings into an environment file, and reading the file back. */
module EnvFile {
  import opened Results
  import opened EnvText

  const GENERATOR: string := "generated by setup-cluster.sh"

  /** The comment line that marks the settings below it as generated. */
  const HEADER: string := "# Cluster configuration " + GENERATOR + "\n"

  const LINKS: string := "CLUSTER_LINKS"

  const ENV_KEYS: set<string> := {
    "CLUSTER_NODES", "COPY_HOSTS", "LOCAL_IP", "ETH_IF", "IB_IF", LINKS,
    "CONTAINER_NCCL_NET_PLUGIN", "CONTAINER_NCCL_IB_SUBNET_AWARE_ROUTING",
    "CONTAINER_NCCL_IB_MERGE_NICS", "CONTAINER_NCCL_ALGO" }

  datatype EnvFault = UnexpectedSetting | NotKeyValue | BadQuotes | BadValue

  /** A generated setting; the links are one line of compact JSON. */
  type Setting = (string, string)

  // ----- what a line is to the merge -----

  predicate IsLetter(c: char) {
    'A' <= c <= 'Z' || 'a' <= c <= 'z' || c == '_'
  }

  predicate IsIdentifier(s: string) {
    s != "" && IsLetter(s[0]) && forall i | 0 <= i < |s| :: IsLetter(s[i]) || '0' <= s[i] <= '9'
  }

  datatype LineKind = Kept | Dropped | Faulty(fault: EnvFault)

  predicate QuotesMatch(value: string) {
    value != "" && (value[0] == '\'' || value[0] == '"') ==> |value| >= 2 && value[|value| - 1] == value[0]
  }

  /** By what is left of a line when it is stripped. */
  function KindOf(t: string): LineKind {
    if t == Strip(HEADER, false) then Dropped
    else if t == "" || t[0] == '#' then Kept
    else if Cut(t) == |t| || !IsIdentifier(Strip(t[..Cut(t)], false)) then Faulty(NotKeyValue)
    else if !QuotesMatch(Strip(t[Cut(t) + 1..], false)) then Faulty(BadQuotes)
    else if Strip(t[..Cut(t)], false) in ENV_KEYS then Dropped
    else Kept
  }

  function Classify(line: string): LineKind {
    KindOf(Strip(line, false))
  }

  /** The lines to keep, or the fault of the first that cannot be read. */
  function KeptLines(lines: seq<string>): Result<seq<string>, EnvFault> {
    if lines == [] then Ok([])
    else
      var before, kind := KeptLines(lines[..|lines| - 1]), Classify(lines[|lines| - 1]);
      if before.Err? then before
      else if kind.Faulty? then Err(kind.fault)
      else if kind == Kept then Ok(before.value + [lines[|lines| - 1]])
      else before
  }

  // ----- what is written -----

  predicate IsScalar(value: string) {
    value != "" && forall i | 0 <= i < |value| ::
      IsLetter(value[i]) || '0' <= value[i] <= '9' || value[i] in ['.', ',', ':', '-']
  }

  predicate IsValue(s: Setting) {
    if s.0 == LINKS then '\'' !in s.1 && '\n' !in s.1 else IsScalar(s.1)
  }

  function Quoted(s: Setting): string {
    if s.0 == LINKS then "'" + s.1 + "'" else s.1
  }

  function SettingLine(s: Setting): string {
    s.0 + "=" + Quoted(s) + "\n"
  }

  function SettingLines(values: seq<Setting>): seq<string> {
    if values == [] then [] else SettingLines(values[..|values| - 1]) + [SettingLine(values[|values| - 1])]
  }

  predicate EndsLine(text: string) {
    text != "" && text[|text| - 1] == '\n'
  }

  /** A line feed at the end of any text. */
  function Ended(text: string): string {
    if text == "" || EndsLine(text) then text else text + "\n"
  }

  function Merge(original: string, values: seq<Setting>): Result<string, EnvFault> {
    var kept := KeptLines(SplitLines(original));
    if exists i | 0 <= i < |values| :: values[i].0 !in ENV_KEYS then Err(UnexpectedSetting)
    else if kept.Err? then Err(kept.error)
    else if exists i | 0 <= i < |values| :: !IsValue(values[i]) then Err(BadValue)
    else Ok(Ended(Join(kept.value)) + HEADER + Join(SettingLines(values)))
  }

  // ----- the merge, line by line -----

  /** A fault is the first one, whatever follows. */
  lemma {:induction false} KeptLinesFault(lines: seq<string>, k: nat)
    requires k <= |lines| && KeptLines(lines[..k]).Err?
    ensures KeptLines(lines) == KeptLines(lines[..k])
    decreases |lines| - k
  {
    if k < |lines| {
      assert lines[..k + 1][..k] == lines[..k];
      KeptLinesFault(lines, k + 1);
    } else {
      assert lines[..k] == lines;
    }
  }

  method KeepLines(lines: seq<string>) returns (r: Result<string, EnvFault>)
    ensures r.Ok? <==> KeptLines(lines).Ok?
    ensures r.Ok? ==> r.value == Join(KeptLines(lines).value)
    ensures r.Err? ==> r.error == KeptLines(lines).error
  {
    var text := "";
    hide Classify;
    for k := 0 to |lines|
      invariant KeptLines(lines[..k]).Ok? && text == Join(KeptLines(lines[..k]).value)
    {
      assert lines[..k + 1][..k] == lines[..k];
      var kind := Classify(lines[k]);
      if kind.Faulty? {
        KeptLinesFault(lines, k + 1);
        return Err(kind.fault);
      }
      if kind == Kept {
        JoinAppends(KeptLines(lines[..k]).value, lines[k]);
        text := text + lines[k];
      }
    }
    assert lines[..|lines|] == lines;
    return Ok(text);
  }

  lemma JoinAppends(lines: seq<string>, line: string)
    ensures Join(lines + [line]) == Join(lines) + line
  {
    JoinConcat(lines, [line]);
    JoinOne(line);
  }

  method MergeEnv(original: string, values: seq<Setting>) returns (r: Result<string, EnvFault>)
    ensures r == Merge(original, values)
  {
    if exists i | 0 <= i < |values| :: values[i].0 !in ENV_KEYS {
      return Err(UnexpectedSetting);
    }
    var kept := KeepLines(SplitLines(original));
    if kept.Err? {
      return Err(kept.error);
    }
    var settings := WriteSettings(values);
    hide KeptLines, SplitLines, IsValue, HEADER, Ended, ENV_KEYS, Join, SettingLines;
    if settings.None? {
      return Err(BadValue);
    }
    return Ok(Ended(kept.value) + HEADER + settings.value);
  }

  method WriteSettings(values: seq<Setting>) returns (r: Option<string>)
    ensures r.Some? <==> forall i | 0 <= i < |values| :: IsValue(values[i])
    ensures r.Some? ==> r.value == Join(SettingLines(values))
  {
    var settings := "";
    hide IsValue, SettingLine;
    for k := 0 to |values|
      invariant settings == Join(SettingLines(values[..k]))
      invariant forall i | 0 <= i < k :: IsValue(values[i])
    {
      if !IsValue(values[k]) {
        return None;
      }
      assert values[..k + 1][..k] == values[..k];
      JoinAppends(SettingLines(values[..k]), SettingLine(values[k]));
      settings := settings + SettingLine(values[k]);
    }
    assert values[..|values|] == values;
    return Some(settings);
  }

  // ----- reading -----

  function StripLeftChar(s: string, c: char): string {
    if s != "" && s[0] == c then StripLeftChar(s[1..], c) else s
  }

  function StripRightChar(s: string, c: char): string {
    if s != "" && s[|s| - 1] == c then StripRightChar(s[..|s| - 1], c) else s
  }

  /** Double quotes taken off both ends, then single ones. */
  function Unquote(s: string): string {
    var t := StripRightChar(StripLeftChar(s, '"'), '"');
    StripRightChar(StripLeftChar(t, '\''), '\'')
  }

  /** The assignment a line makes, if any. */
  function Read(line: string): Option<(string, string)> {
    var t := Strip(line, true);
    if t != "" && t[0] != '#' && Cut(t) < |t|
    then Some((Strip(t[..Cut(t)], true), Unquote(Strip(t[Cut(t) + 1..], true))))
    else None
  }

  function Assign(env: map<string, string>, line: string): map<string, string> {
    if Read(line).Some? then env[Read(line).value.0 := Read(line).value.1] else env
  }

  /** Lines in turn, the last assignment of a key winning. */
  function Load(env: map<string, string>, lines: seq<string>): map<string, string>
    decreases |lines|
  {
    if lines == [] then env else Assign(Load(env, lines[..|lines| - 1]), lines[|lines| - 1])
  }

  method LoadEnvFile(text: string) returns (env: map<string, string>)
    ensures env == Load(map[], SplitLines(text))
  {
    env := map[];
    var lines := SplitLines(text);
    hide SplitLines, Assign;
    for k := 0 to |lines|
      invariant env == Load(map[], lines[..k])
    {
      assert lines[..k + 1][..k] == lines[..k];
      env := Assign(env, lines[k]);
    }
    assert lines[..|lines|] == lines;
  }
}
