/** When the parser of sandbox.md gives back what its printer was given. */
module SandboxRoundTrip {
  import opened Wrappers
  import opened Text
  import opened Lines
  import opened SandboxContract

  /** The four lines between the fences. */
  function Printed(command: string, policy: KeepPolicy): seq<string> {
    ["evaluator:", "  command: " + command, "  format: json", "  keep_policy: " + PolicyText(policy)]
  }

  // ----- the fences

  predicate NoFence(lines: seq<string>) {
    forall i :: 0 <= i < |lines| ==> !(FENCE <= lines[i])
  }

  lemma {:induction false} FencePrefix(first: string, follow: string)
    requires Line(first) && (follow == "" || follow[0] == '\n')
    ensures FENCE <= first + follow <==> FENCE <= first
  {
    var s := first + follow;
    if |first| >= 3 {
      assert s[..3] == first[..3];
    } else if follow != "" {
      assert s[|first|] == '\n' && FENCE[|first|] == '-';
    } else {
      assert s == first;
    }
  }

  lemma {:induction false} NotInside(l: string, rest: string)
    requires l != "" && Line(l) && !EndsInCr(l) && (rest == "" || rest[0] == '\n')
    ensures !Closes(l + rest)
  {
    NoFeed(l);
    var s := l + rest;
    assert s[0] == l[0];
    assert |l| > 1 ==> s[1] == l[1];
    assert (CRLF + FENCE)[1] == '\n';
  }

  lemma {:induction false} NoCloseInLine(l: string, rest: string)
    requires Line(l) && !EndsInCr(l)
    requires rest == "" || rest[0] == '\n'
    ensures CloseAt(l + rest) ==
              if CloseAt(rest).None? then None else Some(|l| + CloseAt(rest).value)
  {
    if l == "" {
      assert l + rest == rest;
    } else {
      assert l[0] in l && forall c :: c in l[1..] ==> c in l;
      assert (l + rest)[1..] == l[1..] + rest;
      NotInside(l, rest);
      if |l| > 1 { assert l[1..][|l| - 2] == l[|l| - 1]; }
      NoCloseInLine(l[1..], rest);
    }
  }

  lemma {:induction false} NotClosing(t: string)
    requires !(FENCE <= t)
    ensures !Closes(LF + t)
  {
    var s := LF + t;
    assert |t| >= 3 ==> s[..4] == LF + t[..3];
    assert |t| >= 3 ==> s[..4][1..] == t[..3];
    assert (LF + FENCE)[1..] == FENCE;
    assert s[0] == '\n' && (CRLF + FENCE)[0] == '\r';
  }

  /** The fence behind one more line. */
  lemma {:induction false} CloseOver(l: string, t: string, n: nat)
    requires Line(l) && !EndsInCr(l) && !(FENCE <= t) && CloseAt(t) == Some(n)
    ensures CloseAt(l + (LF + t)) == Some(|l| + 1 + n)
  {
    NotClosing(t);
    assert (LF + t)[1..] == t;
    assert CloseAt(LF + t) == Some(1 + n);
    NoCloseInLine(l, LF + t);
  }

  predicate Plain(lines: seq<string>) {
    forall i :: 0 <= i < |lines| ==> Line(lines[i]) && !EndsInCr(lines[i])
  }

  lemma {:induction false} StartsAsFirst(lines: seq<string>, tail: string)
    requires lines != [] && Plain(lines) && tail != "" && tail[0] == '\n'
    ensures FENCE <= Join(lines, LF) + tail <==> FENCE <= lines[0]
  {
    if |lines| == 1 {
      FencePrefix(lines[0], tail);
    } else {
      var follow := LF + (Join(lines[1..], LF) + tail);
      assert Join(lines, LF) + tail == lines[0] + follow;
      FencePrefix(lines[0], follow);
    }
  }

  lemma {:induction false} JoinFirst(lines: seq<string>, tail: string)
    requires |lines| > 1
    ensures Join(lines, LF) + tail == lines[0] + (LF + (Join(lines[1..], LF) + tail))
    ensures |Join(lines, LF)| == |lines[0]| + 1 + |Join(lines[1..], LF)|
  {
  }

  /** The first fence that closes is the one behind the lines. */
  lemma {:induction false} CloseBehind(lines: seq<string>, tail: string)
    requires lines != [] && Plain(lines) && NoFence(lines[1..])
    requires LF + FENCE <= tail
    ensures CloseAt(Join(lines, LF) + tail) == Some(|Join(lines, LF)|)
  {
    var l := lines[0];
    assert tail[0] == (LF + FENCE)[0] == '\n';
    if |lines| == 1 {
      NoCloseInLine(l, tail);
    } else {
      var more := lines[1..];
      assert !(FENCE <= more[0]);
      StartsAsFirst(more, tail);
      CloseBehind(more, tail);
      CloseOver(l, Join(more, LF) + tail, |Join(more, LF)|);
      JoinFirst(lines, tail);
    }
  }

  lemma {:induction false} JoinFour(a: string, b: string, c: string, d: string)
    ensures Join([a, b, c, d], LF) == a + LF + (b + LF + (c + LF + d))
  {
    assert [a, b, c, d][1..] == [b, c, d] && [b, c, d][1..] == [c, d] && [c, d][1..] == [d];
    assert Join([c, d], LF) == c + LF + d;
    assert Join([b, c, d], LF) == b + LF + (c + LF + d);
  }

  lemma {:induction false} FourLines(h: string, a: string, b: string, c: string, d: string, e: string, p: string)
    ensures h + (a + LF) + b + c + LF + (d + LF) + e + p + LF + h ==
              h + ((a + LF + (b + c + LF + (d + LF + (e + p)))) + (LF + h))
  {
    var left := h + (a + LF) + b + c + LF + (d + LF) + e + p + LF + h;
    assert left == h + (a + LF + b + c + LF + d + LF + e + p + LF + h);
  }

  lemma {:induction false} PrintedJoins(command: string, policy: KeepPolicy)
    ensures BuildSandboxContent(command, policy) ==
              "---\n" + (Join(Printed(Trim(Flatten(command)), policy), LF) + (LF + "---\n"))
  {
    var c, p := Trim(Flatten(command)), PolicyText(policy);
    JoinFour("evaluator:", "  command: " + c, "  format: json", "  keep_policy: " + p);
    FourLines("---\n", "evaluator:", "  command: ", c, "  format: json", "  keep_policy: ", p);
    assert "evaluator:" + LF == "evaluator:\n";
    assert "  format: json" + LF == "  format: json\n";
  }

  lemma {:induction false} PrintedLines(command: string, policy: KeepPolicy)
    requires Line(command) && '\r' !in command
    ensures var p := Printed(command, policy);
            Plain(p) && NoFence(p[1..])
  {
    var p := Printed(command, policy);
    assert Line("evaluator:") && Line("  command: ") && Line("  format: json") && Line("  keep_policy: ");
    assert Line(PolicyText(policy));
    assert p[1][0] == ' ' && p[2][0] == ' ' && p[3][0] == ' ';
    forall i | 0 <= i < |p[1..]| ensures !(FENCE <= p[1..][i]) {
      assert p[1..][i] == p[i + 1];
    }
    if command != "" { assert command[|command| - 1] in command; }
  }

  lemma {:induction false} FencedExtracts(f: string)
    requires CloseAt(f + (LF + "---\n")) == Some(|f|)
    ensures ExtractFrontmatter("---\n" + (f + (LF + "---\n"))) == Ok((f, ""))
  {
    var inside := f + (LF + "---\n");
    var content := "---\n" + inside;
    assert content[4..] == inside;
    assert inside[|f|..] == LF + "---\n" && inside[..|f|] == f;
    assert (LF + "---\n")[4..] == "\n";
    assert Drop("\n", '\n') == "" && Trim("") == "";
  }

  lemma {:induction false} PlainLines(lines: seq<string>)
    requires Plain(lines)
    ensures AllLines(lines) && ChopInit(lines) == lines
  {
  }

  lemma {:induction false} PrintedExtracts(command: string, policy: KeepPolicy)
    requires Line(command) && '\r' !in command
    ensures var f := Join(Printed(command, policy), LF);
            && ExtractFrontmatter("---\n" + (f + (LF + "---\n"))) == Ok((f, ""))
            && SplitLines(f) == Printed(command, policy)
  {
    var p := Printed(command, policy);
    PrintedLines(command, policy);
    CloseBehind(p, LF + "---\n");
    FencedExtracts(Join(p, LF));
    PlainLines(p);
    SplitJoined(p);
  }

  // ----- the lines

  lemma {:induction false} TakeNameAll(k: string, rest: string)
    requires (forall c :: c in k ==> IsNameChar(c)) && (rest != "" ==> !IsNameChar(rest[0]))
    ensures TakeName(k + rest) == k
  {
    if k != "" {
      assert k[0] in k;
      assert (k + rest)[1..] == k[1..] + rest;
      TakeNameAll(k[1..], rest);
    } else {
      assert k + rest == rest;
    }
  }

  predicate Name(k: string) {
    k != "" && (forall c :: c in k ==> IsNameChar(c))
  }

  lemma {:induction false} NameThenRest(k: string, rest: string)
    requires Name(k)
    ensures NameAndRest(k + (":" + rest)) == Some((k, rest))
  {
    TakeNameAll(k, ":" + rest);
    assert (k + (":" + rest))[|k| + 1..] == rest;
  }

  lemma {:induction false} ExpandConcat(a: string, b: string)
    ensures ExpandTabs(a + b) == ExpandTabs(a) + ExpandTabs(b)
  {
    if a == "" {
      assert a + b == b;
    } else {
      assert (a + b)[1..] == a[1..] + b;
      ExpandConcat(a[1..], b);
    }
  }

  lemma {:induction false} ExpandPlain(s: string)
    ensures ExpandTabs(s) == s <==> '\t' !in s
    ensures '\t' !in ExpandTabs(s) && |ExpandTabs(s)| >= |s|
    ensures forall c :: c in ExpandTabs(s) ==> c in s || c == ' '
    ensures forall c :: c in s && c != '\t' ==> c in ExpandTabs(s)
  {
    if s != "" {
      ExpandPlain(s[1..]);
      assert s == [s[0]] + s[1..];
    }
  }

  lemma {:induction false} ExpandEnds(s: string)
    requires s != "" && !IsSpace(s[0]) && !IsSpace(s[|s| - 1])
    ensures var e := ExpandTabs(s); e != "" && e[0] == s[0] && e[|e| - 1] == s[|s| - 1]
  {
    var n := |s| - 1;
    assert s == s[..n] + [s[n]];
    ExpandConcat(s[..n], [s[n]]);
    assert ExpandTabs([s[n]]) == [s[n]] by { assert [s[n]][1..] == ""; }
  }

  lemma {:induction false} ExpandFour(a: string, b: string, c: string, d: string)
    requires '\t' !in a && '\t' !in b && '\t' !in c
    ensures ExpandTabs(a + (b + (c + d))) == a + (b + (c + ExpandTabs(d)))
  {
    ExpandConcat(a, b + (c + d));
    ExpandConcat(b, c + d);
    ExpandConcat(c, d);
    ExpandPlain(a);
    ExpandPlain(b);
    ExpandPlain(c);
  }

  lemma {:induction false} NestedLine(name: string, value: string)
    requires Name(name) && value != "" && !IsSpace(value[0]) && !IsSpace(value[|value| - 1])
    ensures var line, body := ExpandTabs("  " + (name + (": " + value))), name + (":" + (" " + ExpandTabs(value)));
            line == "  " + body && Trim(line) == body && ExpandTabs(value) != "" && !IsSpace(ExpandTabs(value)[0])
  {
    var e := ExpandTabs(value);
    var body := name + (":" + (" " + e));
    ExpandEnds(value);
    assert name[0] in name;
    ExpandFour("  ", name, ": ", value);
    assert name + (": " + e) == body;
    assert "  " + body + "" == "  " + body;
    TrimBetween("  ", body, "");
  }

  /** A line "  name: value" of a trimmed value. */
  lemma {:induction false} NestedStep(st: State, name: string, value: string)
    requires Name(name) && value != "" && !IsSpace(value[0]) && !IsSpace(value[|value| - 1])
    requires st.section.Some? && st.section.value in st.result && st.result[st.section.value].Section?
    ensures var r, e, s := Step(st, "  " + (name + (": " + value))), ExpandTabs(value), st.section.value;
            if NoTerminator(e) then
              r == Ok(st.(result := st.result[s := Section(st.result[s].fields[name := StripEnds(e)])]))
            else r.Err? && r.error.UnsupportedLine?
  {
    var e := ExpandTabs(value);
    NestedLine(name, value);
    assert name[0] in name;
    NameThenRest(name, " " + e);
    TrimStartAt(" ", e);
  }

  /** A line "name:" on its own. */
  lemma {:induction false} SectionStep(st: State, indent: string, name: string, blanks: string)
    requires Name(name) && Blank(indent) && Blank(blanks) && '\t' !in indent && '\t' !in blanks
    ensures Step(st, indent + (name + ":") + blanks) == Ok(State(st.result[name := Section(map[])], Some(name)))
  {
    var line := indent + (name + ":") + blanks;
    assert name[0] in name;
    assert '\t' !in line by { assert forall c :: c in name ==> IsNameChar(c); }
    ExpandPlain(line);
    TrimBetween(indent, name + ":", blanks);
    assert name + ":" == name + (":" + "");
    NameThenRest(name, "");
  }

  // ----- the record the printed lines build

  lemma {:induction false} StepsCons(st: State, line: string, rest: seq<string>)
    ensures var next := Step(st, line);
            Steps(st, [line] + rest) == if next.Err? then next else Steps(next.value, rest)
  {
    assert ([line] + rest)[1..] == rest;
  }

  /** The state inside a section that has some fields so far. */
  function In(result: map<string, Yaml>, section: string, fields: map<string, string>): State {
    State(result[section := Section(fields)], Some(section))
  }

  function FieldLine(name: string, value: string): string {
    "  " + (name + (": " + value))
  }

  predicate Trimmed(s: string) {
    s != "" && !IsSpace(s[0]) && !IsSpace(s[|s| - 1])
  }

  /** A value the parser of one line keeps as it is. */
  predicate Verbatim(s: string) {
    Trimmed(s) && '\t' !in s && NoTerminator(s) && !IsQuote(s[0]) && !IsQuote(s[|s| - 1])
  }

  lemma {:induction false} SectionFirst(st: State, indent: string, name: string, blanks: string, rest: seq<string>)
    requires Name(name) && Blank(indent) && Blank(blanks) && '\t' !in indent && '\t' !in blanks
    ensures Steps(st, [indent + (name + ":") + blanks] + rest) == Steps(In(st.result, name, map[]), rest)
  {
    StepsCons(st, indent + (name + ":") + blanks, rest);
    SectionStep(st, indent, name, blanks);
  }

  lemma {:induction false} InUpdates(result: map<string, Yaml>, section: string, fields: map<string, string>, more: map<string, string>)
    ensures var st := In(result, section, fields);
            st.(result := st.result[section := Section(more)]) == In(result, section, more)
  {
  }

  lemma {:induction false} FieldFirst(result: map<string, Yaml>, section: string, fields: map<string, string>,
                                      name: string, value: string, rest: seq<string>)
    requires Name(name) && Trimmed(value)
    ensures var r, e := Steps(In(result, section, fields), [FieldLine(name, value)] + rest), ExpandTabs(value);
            if NoTerminator(e) then r == Steps(In(result, section, fields[name := StripEnds(e)]), rest)
            else r.Err? && r.error.UnsupportedLine?
  {
    var st, e := In(result, section, fields), ExpandTabs(value);
    StepsCons(st, FieldLine(name, value), rest);
    NestedStep(st, name, value);
    InUpdates(result, section, fields, fields[name := StripEnds(e)]);
  }

  lemma {:induction false} VerbatimFirst(result: map<string, Yaml>, section: string, fields: map<string, string>,
                                         name: string, value: string, rest: seq<string>)
    requires Name(name) && Verbatim(value)
    ensures Steps(In(result, section, fields), [FieldLine(name, value)] + rest) ==
              Steps(In(result, section, fields[name := value]), rest)
  {
    ExpandPlain(value);
    FieldFirst(result, section, fields, name, value, rest);
  }

  lemma {:induction false} TwoFields(result: map<string, Yaml>, section: string, fields: map<string, string>,
                                     b: string, vb: string, c: string, vc: string)
    requires Name(b) && Name(c) && Verbatim(vb) && Verbatim(vc)
    ensures Steps(In(result, section, fields), [FieldLine(b, vb)] + ([FieldLine(c, vc)] + [])) ==
              Ok(In(result, section, fields[b := vb][c := vc]))
  {
    VerbatimFirst(result, section, fields, b, vb, [FieldLine(c, vc)] + []);
    VerbatimFirst(result, section, fields[b := vb], c, vc, []);
  }

  /** Three fields of one section, the last two of them kept as they are. */
  lemma {:induction false} FieldsRead(f: string, section: string, a: string, va: string, b: string, vb: string, c: string, vc: string)
    requires Name(section) && Name(a) && Name(b) && Name(c) && Trimmed(va) && Verbatim(vb) && Verbatim(vc)
    requires var p := SplitLines(f);
             && |p| == 4 && p[0] == "" + (section + ":") + "" && p[1] == FieldLine(a, va)
             && p[2] == FieldLine(b, vb) && p[3] == FieldLine(c, vc)
    ensures var r, e := ParseYaml(f), ExpandTabs(va);
            if NoTerminator(e) then r == Ok(map[section := Section(map[a := StripEnds(e)][b := vb][c := vc])])
            else r.Err? && r.error.UnsupportedLine?
  {
    var rest := [FieldLine(b, vb)] + ([FieldLine(c, vc)] + []);
    assert SplitLines(f) == ["" + (section + ":") + ""] + ([FieldLine(a, va)] + rest);
    SectionFirst(State(map[], None), "", section, "", [FieldLine(a, va)] + rest);
    FieldFirst(map[], section, map[], a, va, rest);
    TwoFields(map[], section, map[a := StripEnds(ExpandTabs(va))], b, vb, c, vc);
  }

  /** A field with nothing behind it opens a section of its own, so the section it was meant for stays empty. */
  lemma {:induction false} NoFieldsRead(f: string, section: string, a: string, b: string, vb: string, c: string, vc: string)
    requires Name(section) && Name(a) && Name(b) && Name(c) && a != section && Verbatim(vb) && Verbatim(vc)
    requires var p := SplitLines(f);
             && |p| == 4 && p[0] == "" + (section + ":") + "" && p[1] == "  " + (a + ":") + " "
             && p[2] == FieldLine(b, vb) && p[3] == FieldLine(c, vc)
    ensures var r := ParseYaml(f); r.Ok? && section in r.value && r.value[section] == Section(map[])
  {
    var rest := [FieldLine(b, vb)] + ([FieldLine(c, vc)] + []);
    assert SplitLines(f) == ["" + (section + ":") + ""] + (["  " + (a + ":") + " "] + rest);
    SectionFirst(State(map[], None), "", section, "", ["  " + (a + ":") + " "] + rest);
    SectionFirst(In(map[], section, map[]), "  ", a, " ", rest);
    TwoFields(map[section := Section(map[])], a, map[], b, vb, c, vc);
  }

  // ----- the contract of that record

  lemma {:induction false} LowerPlain(s: string)
    requires Trimmed(s) && forall c :: c in s ==> !('A' <= c <= 'Z')
    ensures Lower(Trim(s)) == s
  {
    TrimNothing(s);
    assert forall i :: 0 <= i < |s| ==> s[i] in s;
  }

  lemma {:induction false} PolicyRead(policy: KeepPolicy)
    ensures ParseKeepPolicy(Some(PolicyText(policy))) == Ok(Some(policy))
  {
    LowerPlain(PolicyText(policy));
  }

  lemma {:induction false} ContractRead(fm: map<string, Yaml>, command: string, format: string, policyText: string, policy: KeepPolicy)
    requires "evaluator" in fm
    requires fm["evaluator"] == Section(map["command" := command]["format" := format]["keep_policy" := policyText])
    requires Lower(Trim(format)) == "json" && ParseKeepPolicy(Some(policyText)) == Ok(Some(policy))
    ensures ContractOf(fm, "") == if Trim(command) == "" then Err(NoCommand)
                                  else Ok(Contract(fm, Trim(command), Some(policy), ""))
  {
  }

  // ----- the round trip

  /** What the parser makes of a flattened and trimmed command. */
  function CommandRead(t: string): string {
    Trim(StripEnds(ExpandTabs(t)))
  }

  predicate Gives(r: Result<Contract, Error>, command: string, policy: KeepPolicy) {
    r.Ok? && r.value.command == command && r.value.keepPolicy == Some(policy) && r.value.body == ""
  }

  lemma {:induction false} FieldPieces(prefix: string, name: string, value: string)
    requires prefix == "  " + name + ": "
    ensures prefix + value == FieldLine(name, value)
    ensures value == "" ==> prefix + value == "  " + (name + ":") + " "
  {
  }

  lemma {:induction false} PrintedForm(command: string, policy: KeepPolicy)
    ensures var p := Printed(command, policy);
            && |p| == 4 && p[0] == "" + ("evaluator" + ":") + "" && p[1] == FieldLine("command", command)
            && p[2] == FieldLine("format", "json") && p[3] == FieldLine("keep_policy", PolicyText(policy))
            && (command == "" ==> p[1] == "  " + ("command" + ":") + " ")
  {
    FieldPieces("  command: ", "command", command);
    FieldPieces("  format: ", "format", "json");
    FieldPieces("  keep_policy: ", "keep_policy", PolicyText(policy));
  }

  lemma {:induction false} EmptyRead(fm: map<string, Yaml>)
    requires "evaluator" in fm && fm["evaluator"] == Section(map[])
    ensures ContractOf(fm, "") == Err(NoCommand)
  {
  }

  lemma {:induction false} FixedNames(policy: KeepPolicy)
    ensures Name("evaluator") && Name("command") && Name("format") && Name("keep_policy")
    ensures Verbatim("json") && Verbatim(PolicyText(policy))
  {
  }

  /** Reading the four lines when they hold no command. */
  lemma {:induction false} NoCommandRead(f: string, policy: KeepPolicy)
    requires SplitLines(f) == Printed("", policy)
    ensures var r := ParseYaml(f); r.Ok? && "evaluator" in r.value && r.value["evaluator"] == Section(map[])
  {
    PrintedForm("", policy);
    FixedNames(policy);
    NoFieldsRead(f, "evaluator", "command", "format", "json", "keep_policy", PolicyText(policy));
  }

  lemma {:induction false} WithCommandYaml(f: string, command: string, policy: KeepPolicy)
    requires SplitLines(f) == Printed(command, policy) && Trimmed(command)
    ensures var r, e := ParseYaml(f), ExpandTabs(command);
            if NoTerminator(e) then
              r == Ok(map["evaluator" := Section(map["command" := StripEnds(e)]["format" := "json"]["keep_policy" := PolicyText(policy)])])
            else r.Err? && r.error.UnsupportedLine?
  {
    PrintedForm(command, policy);
    FixedNames(policy);
    FieldsRead(f, "evaluator", "command", command, "format", "json", "keep_policy", PolicyText(policy));
  }

  lemma {:induction false} PrintedContract(fm: map<string, Yaml>, v: string, policy: KeepPolicy)
    requires fm == map["evaluator" := Section(map["command" := v]["format" := "json"]["keep_policy" := PolicyText(policy)])]
    ensures var c := ContractOf(fm, ""); if Trim(v) != "" then Gives(c, Trim(v), policy) else c == Err(NoCommand)
  {
    PolicyRead(policy);
    LowerPlain("json");
    ContractRead(fm, v, "json", PolicyText(policy), policy);
  }

  function Contracted(yaml: Result<map<string, Yaml>, Error>): Result<Contract, Error> {
    if yaml.Err? then Err(yaml.error) else ContractOf(yaml.value, "")
  }

  lemma {:induction false} LinesRead(f: string, command: string, policy: KeepPolicy)
    requires SplitLines(f) == Printed(command, policy) && (command == "" || Trimmed(command))
    ensures var c := Contracted(ParseYaml(f));
            if !NoTerminator(ExpandTabs(command)) then c.Err? && c.error.UnsupportedLine?
            else if command != "" && CommandRead(command) != "" then Gives(c, CommandRead(command), policy)
            else c == Err(NoCommand)
  {
    if command == "" {
      NoCommandRead(f, policy);
      EmptyRead(ParseYaml(f).value);
    } else {
      WithCommandYaml(f, command, policy);
      if NoTerminator(ExpandTabs(command)) {
        PrintedContract(ParseYaml(f).value, StripEnds(ExpandTabs(command)), policy);
      }
    }
  }

  lemma {:induction false} TrimWithin(s: string)
    ensures forall c :: c in Trim(s) ==> c in s
    ensures |Trim(s)| <= |s|
  {
    var a, b := TrimSplits(s);
  }

  lemma {:induction false} FlatTrimmed(command: string)
    ensures var t := Trim(Flatten(command));
            (t == "" || Trimmed(t)) && Line(t) && '\r' !in t
  {
    TrimWithin(Flatten(command));
  }

  lemma {:induction false} ParsedParts(content: string, f: string)
    requires ExtractFrontmatter(content) == Ok((f, ""))
    ensures ParseSandboxContract(content) == Contracted(ParseYaml(f))
  {
  }

  lemma {:induction false} PrintedSplits(command: string, policy: KeepPolicy) returns (f: string)
    ensures ParseSandboxContract(BuildSandboxContent(command, policy)) == Contracted(ParseYaml(f))
    ensures SplitLines(f) == Printed(Trim(Flatten(command)), policy)
  {
    var t := Trim(Flatten(command));
    f := Join(Printed(t, policy), LF);
    FlatTrimmed(command);
    PrintedJoins(command, policy);
    PrintedExtracts(t, policy);
    ParsedParts(BuildSandboxContent(command, policy), f);
  }

  lemma {:induction false} TerminatorsKept(t: string)
    ensures NoTerminator(ExpandTabs(t)) <==> NoTerminator(t)
  {
    ExpandPlain(t);
  }

  /** What comes back for every command and policy: the flattened command with tabs expanded and one quote taken
      off each end; an unsupported line if a line terminator is left inside; no command if nothing is left. */
  lemma {:induction false} PrintedParses(command: string, policy: KeepPolicy)
    ensures var t, r := Trim(Flatten(command)), ParseSandboxContract(BuildSandboxContent(command, policy));
            if !NoTerminator(t) then r.Err? && r.error.UnsupportedLine?
            else if t != "" && CommandRead(t) != "" then Gives(r, CommandRead(t), policy)
            else r == Err(NoCommand)
  {
    var f := PrintedSplits(command, policy);
    FlatTrimmed(command);
    TerminatorsKept(Trim(Flatten(command)));
    LinesRead(f, Trim(Flatten(command)), policy);
  }

  lemma {:induction false} FlatKeeps(command: string)
    requires NoTerminator(Trim(command))
    ensures Trim(Flatten(command)) == Trim(command)
  {
    var t := Trim(command);
    var a, b := TrimSplits(command);
    FlatParts(a, t, b);
    FlatBlank(a);
    FlatBlank(b);
    TrimBetween(Flatten(a), t, Flatten(b));
  }

  lemma {:induction false} FlatParts(a: string, t: string, b: string)
    requires NoTerminator(t)
    ensures Flatten(a + t + b) == Flatten(a) + t + Flatten(b)
  {
    assert forall i :: 0 <= i < |t| ==> t[i] in t;
  }

  lemma {:induction false} FlatBlank(b: string)
    requires Blank(b)
    ensures Blank(Flatten(b))
  {
    forall c | c in Flatten(b) ensures IsSpace(c) {
      var i :| 0 <= i < |b| && Flatten(b)[i] == c;
      assert b[i] in b;
    }
  }

  /** A command with no line terminator inside can only come back whole when nothing in it is rewritten. */
  lemma {:induction false} ReadBackIff(t: string)
    requires Trimmed(t)
    ensures CommandRead(t) == t <==> '\t' !in t && !IsQuote(t[0]) && !IsQuote(t[|t| - 1])
  {
    var e := ExpandTabs(t);
    ExpandPlain(t);
    TrimWithin(StripEnds(e));
    StripWithin(e);
    TrimNothing(t);
  }

  lemma {:induction false} StripWithin(s: string)
    ensures forall c :: c in StripEnds(s) ==> c in s
    ensures s != "" ==> (StripEnds(s) == s <==> !IsQuote(s[0]) && !IsQuote(s[|s| - 1]))
    ensures s != "" && (IsQuote(s[0]) || IsQuote(s[|s| - 1])) ==> |StripEnds(s)| < |s|
  {
  }

  /** The printer and the parser of sandbox.md agree on a command and its policy exactly when the trimmed command is
      not empty, holds no tab and no line terminator, and neither starts nor ends with a quote. */
  lemma {:induction false} SandboxRoundTripIff(command: string, policy: KeepPolicy)
    ensures var t, r := Trim(command), ParseSandboxContract(BuildSandboxContent(command, policy));
            Gives(r, t, policy) <==> (t != "" && '\t' !in t && NoTerminator(t) && !IsQuote(t[0]) && !IsQuote(t[|t| - 1]))
  {
    var t, flat := Trim(command), Trim(Flatten(command));
    PrintedParses(command, policy);
    if NoTerminator(t) {
      FlatKeeps(command);
      if t != "" { ReadBackIff(t); }
    } else if flat != "" && NoTerminator(flat) {
      ReadWithin(flat);
    }
  }

  lemma {:induction false} ReadWithin(t: string)
    requires NoTerminator(t)
    ensures NoTerminator(CommandRead(t))
  {
    ExpandPlain(t);
    StripWithin(ExpandTabs(t));
    TrimWithin(StripEnds(ExpandTabs(t)));
  }
}
