/** The frontmatter of sandbox.md: its parser, and the printer that writes it. */
module SandboxContract {
  import opened Wrappers
  import opened Text
  import opened Lines

  datatype KeepPolicy = ScoreImprovement | PassOnly

  datatype Yaml = Scalar(text: string) | Section(fields: map<string, string>)

  datatype Error =
    | NoFrontmatter
    | UnsupportedLine(line: string)
    | NestedWithoutParent(line: string)
    | InvalidSection(name: string)
    | NoEvaluatorBlock
    | NoCommand
    | NoFormat
    | FormatNotJson
    | BadKeepPolicy

  datatype Contract = Contract(frontmatter: map<string, Yaml>, command: string, keepPolicy: Option<KeepPolicy>, body: string)

  // ----- the frontmatter between its fences

  const FENCE: string := "---"

  /** \r?\n--- */
  predicate Closes(s: string) {
    (LF + FENCE <= s) || (CRLF + FENCE <= s)
  }

  /** Where the first closing fence begins. */
  function CloseAt(s: string): Option<nat> {
    if Closes(s) then Some(0)
    else if s == "" then None
    else
      var i := CloseAt(s[1..]);
      if i.None? then None else Some(i.value + 1)
  }

  function Drop(s: string, c: char): string {
    if s != "" && s[0] == c then s[1..] else s
  }

  lemma {:induction false} CloseAtBound(s: string)
    ensures CloseAt(s).Some? ==> CloseAt(s).value <= |s| && Closes(s[CloseAt(s).value..])
  {
    if !Closes(s) && s != "" { CloseAtBound(s[1..]); }
  }

  /** /^---\r?\n([\s\S]*?)\r?\n---\r?\n?([\s\S]*)$/, the body trimmed. */
  function ExtractFrontmatter(content: string): Result<(string, string), Error> {
    var inside :=
      if FENCE + LF <= content then Some(content[4..])
      else if FENCE + CRLF <= content then Some(content[5..])
      else None;
    if inside.None? then Err(NoFrontmatter)
    else
      var i := CloseAt(inside.value);
      if i.None? then Err(NoFrontmatter)
      else
        CloseAtBound(inside.value);
        var tail := Drop(inside.value[i.value..], '\r')[4..];
        Ok((inside.value[..i.value], Trim(Drop(Drop(tail, '\r'), '\n'))))
  }

  // ----- one line

  predicate IsNameChar(c: char) {
    'A' <= c <= 'Z' || 'a' <= c <= 'z' || '0' <= c <= '9' || c == '_' || c == '-'
  }

  function TakeName(s: string): (k: string)
    ensures k <= s
  {
    if s == "" || !IsNameChar(s[0]) then "" else [s[0]] + TakeName(s[1..])
  }

  /** "<name>:" and what follows it. */
  function NameAndRest(s: string): Option<(string, string)> {
    var k := TakeName(s);
    if k == "" || |k| == |s| || s[|k|] != ':' then None else Some((k, s[|k| + 1..]))
  }

  function ExpandTabs(s: string): string {
    if s == "" then "" else (if s[0] == '\t' then "  " else [s[0]]) + ExpandTabs(s[1..])
  }

  predicate IsQuote(c: char) { c == '\'' || c == '"' }

  /** replace(/^['"]|['"]$/g, "") */
  function StripEnds(s: string): string {
    var t := if s != "" && IsQuote(s[0]) then s[1..] else s;
    if t != "" && IsQuote(t[|t| - 1]) then t[..|t| - 1] else t
  }

  datatype State = State(result: map<string, Yaml>, section: Option<string>)

  /** What one raw line does to the record being built. */
  function Step(st: State, rawLine: string): Result<State, Error> {
    var line := ExpandTabs(rawLine);
    var trimmed := Trim(line);
    if trimmed == "" || trimmed[0] == '#' then Ok(st)
    else
      var m := NameAndRest(trimmed);
      if m.None? then Err(UnsupportedLine(trimmed))
      else
        var (key, rest) := m.value;
        var value := TrimStart(rest);
        if value == "" then Ok(State(st.result[key := Section(map[])], Some(key)))
        else if !NoTerminator(value) then Err(UnsupportedLine(trimmed))
        else if line[0] == ' ' then
          if st.section.None? then Err(NestedWithoutParent(trimmed))
          else
            var name := st.section.value;
            if name !in st.result || st.result[name].Scalar? then Err(InvalidSection(name))
            else Ok(st.(result := st.result[name := Section(st.result[name].fields[key := StripEnds(value)])]))
        else Ok(State(st.result[key := Scalar(StripEnds(value))], None))
  }

  function Steps(st: State, lines: seq<string>): Result<State, Error>
    decreases |lines|
  {
    if lines == [] then Ok(st)
    else
      var next := Step(st, lines[0]);
      if next.Err? then next else Steps(next.value, lines[1..])
  }

  function ParseYaml(frontmatter: string): Result<map<string, Yaml>, Error> {
    var r := Steps(State(map[], None), SplitLines(frontmatter));
    if r.Err? then Err(r.error) else Ok(r.value.result)
  }

  method ParseSimpleYamlFrontmatter(frontmatter: string) returns (r: Result<map<string, Yaml>, Error>)
    ensures r == ParseYaml(frontmatter)
  {
    var lines := SplitLines(frontmatter);
    var st := State(map[], None);
    assert lines[0..] == lines;
    for i := 0 to |lines|
      invariant Steps(State(map[], None), lines) == Steps(st, lines[i..])
    {
      var next := Step(st, lines[i]);
      assert lines[i..][0] == lines[i] && lines[i..][1..] == lines[i + 1..];
      if next.Err? { return Err(next.error); }
      st := next.value;
    }
    return Ok(st.result);
  }

  // ----- the contract

  function LowerChar(c: char): char {
    if 'A' <= c <= 'Z' then (c as int - 'A' as int + 'a' as int) as char else c
  }

  function Lower(s: string): (r: string)
    ensures |r| == |s| && forall i :: 0 <= i < |s| ==> r[i] == LowerChar(s[i])
  {
    seq(|s|, i requires 0 <= i < |s| => LowerChar(s[i]))
  }

  function ParseKeepPolicy(raw: Option<string>): Result<Option<KeepPolicy>, Error> {
    if raw.None? then Ok(None)
    else
      var normalized := Lower(Trim(raw.value));
      if normalized == "" then Ok(None)
      else if normalized == "pass_only" then Ok(Some(PassOnly))
      else if normalized == "score_improvement" then Ok(Some(ScoreImprovement))
      else Err(BadKeepPolicy)
  }

  function Field(fields: map<string, string>, name: string): Option<string> {
    if name in fields then Some(fields[name]) else None
  }

  function Or(o: Option<string>): string {
    if o.Some? then o.value else ""
  }

  function ContractOf(frontmatter: map<string, Yaml>, body: string): Result<Contract, Error> {
    if "evaluator" !in frontmatter || frontmatter["evaluator"].Scalar? then Err(NoEvaluatorBlock)
    else
      var evaluator := frontmatter["evaluator"].fields;
      var command := Trim(Or(Field(evaluator, "command")));
      var format := Lower(Trim(Or(Field(evaluator, "format"))));
      var policy := ParseKeepPolicy(Field(evaluator, "keep_policy"));
      if policy.Err? then Err(policy.error)
      else if command == "" then Err(NoCommand)
      else if format == "" then Err(NoFormat)
      else if format != "json" then Err(FormatNotJson)
      else Ok(Contract(frontmatter, command, policy.value, body))
  }

  function ParseSandboxContract(content: string): Result<Contract, Error> {
    var parts := ExtractFrontmatter(content);
    if parts.Err? then Err(parts.error)
    else
      var yaml := ParseYaml(parts.value.0);
      if yaml.Err? then Err(yaml.error) else ContractOf(yaml.value, parts.value.1)
  }

  // ----- the printer

  /** replace(/[\r\n]/g, " ") */
  function Flatten(s: string): (r: string)
    ensures |r| == |s| && forall i :: 0 <= i < |s| ==> r[i] == if s[i] == '\r' || s[i] == '\n' then ' ' else s[i]
  {
    seq(|s|, i requires 0 <= i < |s| => if s[i] == '\r' || s[i] == '\n' then ' ' else s[i])
  }

  function PolicyText(p: KeepPolicy): string {
    match p
    case PassOnly => "pass_only"
    case ScoreImprovement => "score_improvement"
  }

  function BuildSandboxContent(command: string, policy: KeepPolicy): string {
    "---\n" + "evaluator:\n"
    + "  command: " + Trim(Flatten(command)) + "\n"
    + "  format: json\n"
    + "  keep_policy: " + PolicyText(policy) + "\n"
    + "---\n"
  }
}
