/** Reading and setting one top-level string in a TOML file, line by line. */
module TopLevelToml {
  import opened Wrappers
  import opened Text
  import opened Lines

  // ----- what a line is

  predicate IsKeyChar(c: char) {
    'A' <= c <= 'Z' || 'a' <= c <= 'z' || '0' <= c <= '9' || c == '_' || c == '.' || c == '-'
  }

  predicate ValidKey(k: string) {
    k != "" && forall c :: c in k ==> IsKeyChar(c)
  }

  /** The longest run of key characters that starts `s`. */
  function TakeKey(s: string): (k: string)
    ensures k <= s
    ensures forall c :: c in k ==> IsKeyChar(c)
    ensures |k| < |s| ==> !IsKeyChar(s[|k|])
  {
    if s == "" || !IsKeyChar(s[0]) then "" else [s[0]] + TakeKey(s[1..])
  }

  /** /^\s*([A-Za-z0-9_.-]+)\s*=/ and what follows it. */
  function KeyAndRest(line: string): Option<(string, string)> {
    var s := TrimStart(line);
    var k := TakeKey(s);
    var t := TrimStart(s[|k|..]);
    if k == "" || t == "" || t[0] != '=' then None else Some((k, t[1..]))
  }

  function KeyOf(line: string): Option<string> {
    var m := KeyAndRest(line);
    if m.Some? then Some(m.value.0) else None
  }

  /** \s*(?:#.*)?$ */
  predicate TailOk(s: string) {
    var t := TrimStart(s);
    t == "" || (t[0] == '#' && NoTerminator(t))
  }

  /** (.*?) before such a tail. */
  function LazyValue(s: string): Option<string> {
    if TailOk(s) then Some("")
    else if IsLineTerminator(s[0]) then None
    else
      var v := LazyValue(s[1..]);
      if v.None? then None else Some([s[0]] + v.value)
  }

  function StripQuotes(s: string): string {
    var t := Trim(s);
    if |t| >= 2 && ((t[0] == '"' && t[|t| - 1] == '"') || (t[0] == '\'' && t[|t| - 1] == '\'')) then t[1..|t| - 1]
    else t
  }

  /** The key and the value of a line that assigns. */
  function Assignment(line: string): Option<(string, string)> {
    var m := KeyAndRest(line);
    if m.None? then None
    else
      var v := LazyValue(TrimStart(m.value.1));
      if v.None? then None else Some((m.value.0, StripQuotes(v.value)))
  }

  predicate Skipped(line: string) {
    var t := Trim(line);
    t == "" || t[0] == '#'
  }

  /** /^\[[^[\]]+\]\s*(#.*)?$/ on the trimmed line. */
  predicate IsHeader(line: string) {
    IsHeaderText(Trim(line))
  }

  predicate IsHeaderText(t: string) {
    t != "" && t[0] == '[' &&
    exists n :: 1 < n < |t| && t[n] == ']' && TailOk(t[n + 1..]) &&
      forall i :: 1 <= i < n ==> t[i] != '[' && t[i] != ']'
  }

  // ----- reading

  function ReadLines(lines: seq<string>, key: string): Option<string> {
    if lines == [] then None
    else if Skipped(lines[0]) then ReadLines(lines[1..], key)
    else if IsHeader(lines[0]) then None
    else
      var a := Assignment(lines[0]);
      if a.Some? && a.value.0 == key then Some(a.value.1) else ReadLines(lines[1..], key)
  }

  function Read(content: string, key: string): Option<string> {
    ReadLines(SplitLines(content), key)
  }

  lemma {:induction false} ReadLinesAt(lines: seq<string>, i: nat, key: string)
    requires i < |lines|
    ensures ReadLines(lines[i..], key) ==
              if Skipped(lines[i]) then ReadLines(lines[i + 1..], key)
              else if IsHeader(lines[i]) then None
              else if Assignment(lines[i]).Some? && Assignment(lines[i]).value.0 == key then Some(Assignment(lines[i]).value.1)
              else ReadLines(lines[i + 1..], key)
  {
    assert lines[i..][1..] == lines[i + 1..];
  }

  method ReadTopLevelTomlString(content: string, key: string) returns (r: Option<string>)
    ensures r == Read(content, key)
  {
    var lines := SplitLines(content);
    var inTopLevel := true;
    assert lines[0..] == lines;
    for i := 0 to |lines|
      invariant Read(content, key) == if inTopLevel then ReadLines(lines[i..], key) else None
    {
      var line := lines[i];
      if inTopLevel { ReadLinesAt(lines, i, key); }
      if Skipped(line) { continue; }
      if IsHeader(line) {
        inTopLevel := false;
        continue;
      }
      if !inTopLevel { continue; }
      var a := Assignment(line);
      if a.Some? && a.value.0 == key { return Some(a.value.1); }
    }
    return None;
  }

  // ----- setting

  function Escape(value: string): string {
    if value == "" then ""
    else (if value[0] == '\\' then "\\\\" else if value[0] == '"' then "\\\"" else [value[0]]) + Escape(value[1..])
  }

  function AssignmentLine(key: string, value: string): string {
    key + " = \"" + Escape(value) + "\""
  }

  /** The first line above every table that sets `key`. */
  function KeyIndex(lines: seq<string>, key: string): (i: Option<nat>)
    ensures i.Some? ==> i.value < |lines|
  {
    if lines == [] then None
    else if !Skipped(lines[0]) && IsHeader(lines[0]) then None
    else if !Skipped(lines[0]) && KeyOf(lines[0]) == Some(key) then Some(0)
    else
      var i := KeyIndex(lines[1..], key);
      if i.None? then None else Some(i.value + 1)
  }

  function TableIndex(lines: seq<string>): (i: nat)
    ensures i <= |lines|
  {
    if lines == [] || IsHeader(lines[0]) then 0 else 1 + TableIndex(lines[1..])
  }

  function Edit(lines: seq<string>, key: string, line: string): seq<string> {
    var i := KeyIndex(lines, key);
    if i.Some? then lines[i.value := line]
    else lines[..TableIndex(lines)] + [line] + lines[TableIndex(lines)..]
  }

  function Eol(content: string): string {
    if HasCrLf(content) then CRLF else LF
  }

  function EnsureEol(s: string, eol: string): string {
    if |eol| <= |s| && s[|s| - |eol|..] == eol then s else s + eol
  }

  function Upsert(content: string, key: string, value: string): string {
    var line := AssignmentLine(key, value);
    if Trim(content) == "" then line + Eol(content)
    else EnsureEol(Join(Edit(SplitLines(content), key, line), Eol(content)), Eol(content))
  }

  lemma {:induction false} KeyIndexAt(lines: seq<string>, i: nat, key: string)
    requires i < |lines|
    ensures KeyIndex(lines[i..], key) ==
              if !Skipped(lines[i]) && IsHeader(lines[i]) then None
              else if !Skipped(lines[i]) && KeyOf(lines[i]) == Some(key) then Some(0)
              else if KeyIndex(lines[i + 1..], key).None? then None
              else Some(KeyIndex(lines[i + 1..], key).value + 1)
  {
    assert lines[i..][1..] == lines[i + 1..];
  }

  method FindFirstTable(lines: seq<string>) returns (index: Option<nat>)
    ensures index == if TableIndex(lines) < |lines| then Some(TableIndex(lines)) else None
  {
    assert lines[0..] == lines;
    for i := 0 to |lines|
      invariant TableIndex(lines) == i + TableIndex(lines[i..])
    {
      if IsHeader(lines[i]) { return Some(i); }
      assert lines[i..][1..] == lines[i + 1..];
    }
    return None;
  }

  /** The loop that replaces the first assignment of `key` above every table. */
  method ReplaceFirst(before: seq<string>, key: string, assignment: string) returns (lines: seq<string>, replaced: bool)
    ensures replaced == KeyIndex(before, key).Some?
    ensures lines == if replaced then before[KeyIndex(before, key).value := assignment] else before
  {
    lines, replaced := before, false;
    var inTopLevel := true;
    assert before[0..] == before;
    for i := 0 to |before|
      invariant lines == before && !replaced
      invariant inTopLevel ==>
        KeyIndex(before, key) == if KeyIndex(before[i..], key).None? then None else Some(i + KeyIndex(before[i..], key).value)
      invariant !inTopLevel ==> KeyIndex(before, key).None?
    {
      var line := lines[i];
      KeyIndexAt(before, i, key);
      if Skipped(line) { continue; }
      if IsHeader(line) {
        inTopLevel := false;
        continue;
      }
      if !inTopLevel { continue; }
      if KeyOf(line) == Some(key) {
        lines := lines[i := assignment];
        replaced := true;
        return;
      }
    }
  }

  method EditLines(before: seq<string>, key: string, assignment: string) returns (lines: seq<string>)
    ensures lines == Edit(before, key, assignment)
  {
    var replaced;
    lines, replaced := ReplaceFirst(before, key, assignment);
    if !replaced {
      var firstTable := FindFirstTable(lines);
      if firstTable.Some? {
        lines := lines[..firstTable.value] + [assignment] + lines[firstTable.value..];
      } else {
        assert lines[..|lines|] == lines && lines[|lines|..] == [];
        lines := lines + [assignment];
      }
    }
  }

  method UpsertTopLevelTomlString(content: string, key: string, value: string) returns (out: string)
    ensures out == Upsert(content, key, value)
  {
    var eol := Eol(content);
    var assignment := AssignmentLine(key, value);
    if Trim(content) == "" { return assignment + eol; }
    var lines := EditLines(SplitLines(content), key, assignment);
    out := EnsureEol(Join(lines, eol), eol);
  }
}
