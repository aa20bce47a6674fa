/** What the parser of sandbox.md makes of any file: where the frontmatter ends, what each line does, and which contract, or
    which error, the record comes to. */
module SandboxReading {
  import opened Wrappers
  import opened Text
  import opened Lines
  import opened SandboxContract
  import opened SandboxRoundTrip

  // ----- the fences

  predicate Fence(s: string) {
    "\n---" <= s || "\r\n---" <= s
  }

  predicate FirstFence(s: string, n: nat) {
    n <= |s| && Fence(s[n..]) && forall i :: 0 <= i < n ==> !Fence(s[i..])
  }

  lemma {:induction false} ClosesIff(s: string)
    ensures Closes(s) <==> Fence(s)
  {
    assert LF + FENCE == "\n---" && CRLF + FENCE == "\r\n---";
  }

  lemma {:induction false} CloseAtIff(s: string, n: nat)
    ensures CloseAt(s) == Some(n) <==> FirstFence(s, n)
  {
    ClosesIff(s);
    assert s[0..] == s;
    if !Closes(s) && s != "" {
      if n > 0 {
        CloseAtIff(s[1..], n - 1);
        ShiftFence(s, n);
      }
    }
  }

  lemma {:induction false} ShiftFence(s: string, n: nat)
    requires s != "" && n > 0 && !Fence(s)
    ensures FirstFence(s, n) <==> FirstFence(s[1..], n - 1)
  {
    assert s[0..] == s;
    if n <= |s| {
      forall i | 1 <= i <= n ensures s[i..] == s[1..][i - 1..] {}
      if FirstFence(s, n) {
        forall i | 0 <= i < n - 1 ensures !Fence(s[1..][i..]) { assert s[1..][i..] == s[i + 1..]; }
      }
    }
  }

  lemma {:induction false} DropBlank(s: string, c: char)
    requires IsSpace(c)
    ensures Trim(Drop(s, c)) == Trim(s)
  {
    if s != "" && s[0] == c {
      assert s == [c] + s[1..] && Blank([c]);
      TrimStartBlank([c], s[1..]);
    }
  }

  lemma {:induction false} FenceTail(s: string)
    requires Fence(s)
    ensures |s| >= (if s[0] == '\n' then 4 else 5)
    ensures |Drop(s, '\r')| >= 4 && Drop(s, '\r')[4..] == s[(if s[0] == '\n' then 4 else 5)..]
  {
    assert "\n---"[0] == '\n' && "\r\n---"[0] == '\r';
  }

  /** What follows the opening fence, if the file has one. */
  predicate Opens(content: string, inside: string) {
    ("---\n" <= content && inside == content[4..]) || ("---\r\n" <= content && inside == content[5..])
  }

  lemma {:induction false} OpenExtracts(content: string, inside: string)
    requires Opens(content, inside)
    ensures CloseAt(inside).None? ==> ExtractFrontmatter(content) == Err(NoFrontmatter)
    ensures CloseAt(inside).Some? ==>
              var i := CloseAt(inside).value;
              && i <= |inside| && |Drop(inside[i..], '\r')| >= 4
              && ExtractFrontmatter(content) ==
                   Ok((inside[..i], Trim(Drop(Drop(Drop(inside[i..], '\r')[4..], '\r'), '\n'))))
  {
    var lf, crlf := "---\n", "---\r\n";
    assert FENCE + LF == lf && FENCE + CRLF == crlf && lf[3] == '\n' && crlf[3] == '\r';
    assert lf <= content ==> content[3] == '\n';
    CloseAtBound(inside);
    if CloseAt(inside).Some? {
      ClosesIff(inside[CloseAt(inside).value..]);
      FenceTail(inside[CloseAt(inside).value..]);
    }
  }

  lemma {:induction false} BodyTrims(s: string)
    requires Fence(s)
    ensures var k := if s[0] == '\n' then 4 else 5;
            |s| >= k && |Drop(s, '\r')| >= 4 && Trim(Drop(Drop(Drop(s, '\r')[4..], '\r'), '\n')) == Trim(s[k..])
  {
    FenceTail(s);
    var tail := Drop(s, '\r')[4..];
    DropBlank(tail, '\r');
    DropBlank(Drop(tail, '\r'), '\n');
  }

  /** A file that opens with a fence splits at the first line that starts with another, and the body is what follows without
      blanks around it ... */
  lemma {:induction false} ExtractsAt(content: string, inside: string, n: nat)
    requires Opens(content, inside) && FirstFence(inside, n)
    ensures var after := n + if inside[n] == '\n' then 4 else 5;
            after <= |inside| && ExtractFrontmatter(content) == Ok((inside[..n], Trim(inside[after..])))
  {
    CloseAtIff(inside, n);
    OpenExtracts(content, inside);
    BodyTrims(inside[n..]);
    var k := if inside[n] == '\n' then 4 else 5;
    assert inside[n..][0] == inside[n] && inside[n..][k..] == inside[n + k..];
  }

  /** ... and every other file is refused. */
  lemma {:induction false} ExtractsIff(content: string)
    ensures ExtractFrontmatter(content).Ok? <==> exists inside, n: nat :: Opens(content, inside) && FirstFence(inside, n)
    ensures ExtractFrontmatter(content).Err? ==> ExtractFrontmatter(content).error == NoFrontmatter
  {
    assert FENCE + LF == "---\n" && FENCE + CRLF == "---\r\n";
    if inside, n: nat :| Opens(content, inside) && FirstFence(inside, n) {
      ExtractsAt(content, inside, n);
    }
    if "---\n" <= content || "---\r\n" <= content {
      var inside := if "---\n" <= content then content[4..] else content[5..];
      OpenExtracts(content, inside);
      if CloseAt(inside).Some? {
        CloseAtIff(inside, CloseAt(inside).value);
        assert Opens(content, inside) && FirstFence(inside, CloseAt(inside).value);
      }
    }
  }

  // ----- the lines

  /** Names are made of ASCII letters and digits, the underscore and the dash. */
  lemma {:induction false} NameIff(name: string)
    ensures Name(name) <==>
              name != "" && forall i :: 0 <= i < |name| ==>
                var n := name[i] as int; 65 <= n <= 90 || 97 <= n <= 122 || 48 <= n <= 57 || n == 95 || n == 45
  {
    assert forall i :: 0 <= i < |name| ==> name[i] in name;
  }

  lemma {:induction false} BlankExpands(b: string)
    requires Blank(b)
    ensures Blank(ExpandTabs(b)) && (b != "" ==> ExpandTabs(b) != "")
    ensures b != "" ==> (ExpandTabs(b)[0] == ' ' <==> b[0] == ' ' || b[0] == '\t')
  {
    ExpandPlain(b);
    forall c | c in ExpandTabs(b) ensures IsSpace(c) { assert c in b || c == ' '; }
  }

  function LineOf(indent: string, name: string, gap: string, value: string, trail: string): string {
    indent + (name + (":" + (gap + (value + trail))))
  }

  lemma {:induction false} LineExpands(indent: string, name: string, gap: string, value: string, trail: string)
    requires Name(name)
    ensures ExpandTabs(LineOf(indent, name, gap, value, trail)) ==
              LineOf(ExpandTabs(indent), name, ExpandTabs(gap), ExpandTabs(value), ExpandTabs(trail))
  {
    ExpandConcat(indent, name + (":" + (gap + (value + trail))));
    ExpandConcat(name, ":" + (gap + (value + trail)));
    ExpandConcat(":", gap + (value + trail));
    ExpandConcat(gap, value + trail);
    ExpandConcat(value, trail);
    ExpandPlain(name);
    assert ExpandTabs(":") == ":" by { assert ":"[1..] == ""; }
  }

  lemma {:induction false} LineTrims(indent: string, name: string, gap: string, value: string, trail: string)
    requires Name(name) && Blank(indent) && Blank(gap) && Blank(trail) && (value == "" || Trimmed(value))
    ensures Trim(LineOf(indent, name, gap, value, trail)) ==
              name + (":" + if value == "" then "" else gap + value)
    ensures var t := Trim(LineOf(indent, name, gap, value, trail)); t != "" && t[0] != '#'
  {
    assert name[0] in name;
    if value == "" {
      var core := name + ":";
      assert LineOf(indent, name, gap, value, trail) == indent + core + (gap + trail);
      TrimBetween(indent, core, gap + trail);
      assert core == name + (":" + "");
    } else {
      var core := name + (":" + (gap + value));
      assert LineOf(indent, name, gap, value, trail) == indent + core + trail;
      assert core[|core| - 1] == value[|value| - 1];
      TrimBetween(indent, core, trail);
    }
  }

  /** The section that a nested field goes to is always there. */
  predicate Sectioned(st: State) {
    st.section.Some? ==> st.section.value in st.result && st.result[st.section.value].Section?
  }

  /** The same once tabs are expanded. */
  lemma {:induction false} ExpandedReads(st: State, raw: string, indent: string, name: string, gap: string, value: string, trail: string)
    requires ExpandTabs(raw) == LineOf(indent, name, gap, value, trail)
    requires Name(name) && Blank(indent) && Blank(gap) && Blank(trail) && (value == "" || Trimmed(value)) && Sectioned(st)
    ensures var r := Step(st, raw);
            if value == "" then r == Ok(State(st.result[name := Section(map[])], Some(name)))
            else if !NoTerminator(value) then r.Err? && r.error.UnsupportedLine?
            else if indent != "" && indent[0] == ' ' then
              if st.section.None? then r.Err? && r.error.NestedWithoutParent?
              else
                var s := st.section.value;
                r == Ok(State(st.result[s := Section(st.result[s].fields[name := StripEnds(value)])], st.section))
            else r == Ok(State(st.result[name := Scalar(StripEnds(value))], None))
  {
    LineTrims(indent, name, gap, value, trail);
    NameThenRest(name, if value == "" then "" else gap + value);
    LineStarts(indent, name, gap, value, trail);
    if value != "" { TrimStartAt(gap, value); }
  }

  /** What the four kinds of lines "name: value" do, however they are laid out: nothing behind the name opens a section, even
      indented; a value with a line terminator inside is refused; an indented one goes to the open section; any other is a
      scalar and closes the section. Tabs count as two blanks, in the value too. */
  lemma {:induction false} LineReads(st: State, indent: string, name: string, gap: string, value: string, trail: string)
    requires Name(name) && Blank(indent) && Blank(gap) && Blank(trail) && (value == "" || Trimmed(value)) && Sectioned(st)
    ensures var r, v := Step(st, LineOf(indent, name, gap, value, trail)), ExpandTabs(value);
            if value == "" then r == Ok(State(st.result[name := Section(map[])], Some(name)))
            else if !NoTerminator(value) then r.Err? && r.error.UnsupportedLine?
            else if indent != "" && (indent[0] == ' ' || indent[0] == '\t') then
              if st.section.None? then r.Err? && r.error.NestedWithoutParent?
              else
                var s := st.section.value;
                r == Ok(State(st.result[s := Section(st.result[s].fields[name := StripEnds(v)])], st.section))
            else r == Ok(State(st.result[name := Scalar(StripEnds(v))], None))
  {
    BlankExpands(indent);
    BlankExpands(gap);
    BlankExpands(trail);
    LineExpands(indent, name, gap, value, trail);
    if value != "" {
      ExpandEnds(value);
      TerminatorsKept(value);
    }
    ExpandedReads(st, LineOf(indent, name, gap, value, trail), ExpandTabs(indent), name, ExpandTabs(gap), ExpandTabs(value), ExpandTabs(trail));
  }

  lemma {:induction false} LineStarts(indent: string, name: string, gap: string, value: string, trail: string)
    requires Name(name)
    ensures var line := LineOf(indent, name, gap, value, trail);
            line != "" && (line[0] == ' ' <==> indent != "" && indent[0] == ' ')
  {
    assert name[0] in name;
  }

  /** A blank line and a comment change nothing. */
  lemma {:induction false} CommentSkipped(st: State, indent: string, rest: string)
    requires Blank(indent) && (rest == "" || rest[0] == '#')
    ensures Step(st, indent + rest) == Ok(st)
  {
    var line := ExpandTabs(indent + rest);
    ExpandConcat(indent, rest);
    BlankExpands(indent);
    TrimStartBlank(ExpandTabs(indent), ExpandTabs(rest));
    assert rest != "" ==> ExpandTabs(rest)[0] == '#';
    CommentTrims(ExpandTabs(rest));
  }

  lemma {:induction false} CommentTrims(s: string)
    requires s == "" || s[0] == '#'
    ensures Trim(s) == "" || Trim(s)[0] == '#'
  {
    if s != "" { assert TrimStart(s) == s; }
  }

  /** A nested field never meets a section that is not one, so that error of the parser cannot happen. */
  lemma {:induction false} StepSectioned(st: State, line: string)
    requires Sectioned(st)
    ensures var r := Step(st, line); if r.Ok? then Sectioned(r.value) else !r.error.InvalidSection?
  {
  }

  lemma {:induction false} StepsSectioned(st: State, lines: seq<string>)
    requires Sectioned(st)
    ensures var r := Steps(st, lines); if r.Ok? then Sectioned(r.value) else !r.error.InvalidSection?
    decreases |lines|
  {
    if lines != [] {
      StepSectioned(st, lines[0]);
      var next := Step(st, lines[0]);
      if next.Ok? { StepsSectioned(next.value, lines[1..]); }
    }
  }

  lemma {:induction false} NeverInvalidSection(frontmatter: string)
    ensures var r := ParseYaml(frontmatter); r.Err? ==> !r.error.InvalidSection?
  {
    StepsSectioned(State(map[], None), SplitLines(frontmatter));
  }

  /** At most one quote comes off each end of a value, whether or not the two match. */
  lemma {:induction false} QuotesComeOff(open: string, v: string, close: string)
    requires open in {"", "'", "\""} && close in {"", "'", "\""} && v != ""
    requires (open == "" ==> v[0] != '\'' && v[0] != '"') && (close == "" ==> v[|v| - 1] != '\'' && v[|v| - 1] != '"')
    ensures StripEnds(open + v + close) == v
  {
    var s := open + v + close;
    var t := if open == "" then s else s[1..];
    assert t == v + close;
    assert close != "" ==> t[..|t| - 1] == v;
  }

  // ----- the contract

  /** `s` is the lower-case `word`, letter case and blanks around it aside. */
  predicate Spells(s: string, word: string) {
    var t := Trim(s);
    |t| == |word| &&
    forall i :: 0 <= i < |t| ==> t[i] == word[i] || ('A' <= t[i] <= 'Z' && t[i] as int + 32 == word[i] as int)
  }

  lemma {:induction false} SpellsIff(s: string, word: string)
    requires forall i :: 0 <= i < |word| ==> !('A' <= word[i] <= 'Z')
    ensures Spells(s, word) <==> Lower(Trim(s)) == word
  {
    var t := Trim(s);
    if Lower(t) == word {
      forall i | 0 <= i < |t| ensures t[i] == word[i] || ('A' <= t[i] <= 'Z' && t[i] as int + 32 == word[i] as int) {
        assert Lower(t)[i] == LowerChar(t[i]);
      }
    }
    if Spells(s, word) {
      forall i | 0 <= i < |t| ensures Lower(t)[i] == word[i] {
        assert Lower(t)[i] == LowerChar(t[i]);
      }
    }
  }

  predicate Has(fields: map<string, string>, name: string) {
    name in fields && Trim(fields[name]) != ""
  }

  /** The contract of any frontmatter: the first of these that is wrong decides the error. */
  lemma {:induction false} ContractIff(frontmatter: map<string, Yaml>, body: string)
    ensures var r := ContractOf(frontmatter, body);
            if !("evaluator" in frontmatter && frontmatter["evaluator"].Section?) then r == Err(NoEvaluatorBlock)
            else
              var f := frontmatter["evaluator"].fields;
              var passOnly, improvement :=
                Has(f, "keep_policy") && Spells(f["keep_policy"], "pass_only"),
                Has(f, "keep_policy") && Spells(f["keep_policy"], "score_improvement");
              if Has(f, "keep_policy") && !passOnly && !improvement then r == Err(BadKeepPolicy)
              else if !Has(f, "command") then r == Err(NoCommand)
              else if !Has(f, "format") then r == Err(NoFormat)
              else if !Spells(f["format"], "json") then r == Err(FormatNotJson)
              else
                r == Ok(Contract(frontmatter, Trim(f["command"]),
                                 if passOnly then Some(PassOnly) else if improvement then Some(ScoreImprovement) else None, body))
  {
    assert Trim("") == "";
    if "evaluator" in frontmatter && frontmatter["evaluator"].Section? {
      var f := frontmatter["evaluator"].fields;
      if "keep_policy" in f {
        PolicyIff(f["keep_policy"]);
      }
      if "format" in f {
        SpellsIff(f["format"], "json");
        EmptyLowers(f["format"]);
      }
    }
  }

  lemma {:induction false} EmptyLowers(s: string)
    ensures Lower(Trim(s)) == "" <==> Trim(s) == ""
  {
  }

  lemma {:induction false} PolicyIff(text: string)
    ensures ParseKeepPolicy(Some(text)) ==
              if Trim(text) == "" then Ok(None)
              else if Spells(text, "pass_only") then Ok(Some(PassOnly))
              else if Spells(text, "score_improvement") then Ok(Some(ScoreImprovement))
              else Err(BadKeepPolicy)
  {
    SpellsIff(text, "pass_only");
    SpellsIff(text, "score_improvement");
    EmptyLowers(text);
  }
}
