/** Switching one key of one TOML table on or off, and reading it back. */
module PluginTable {
  import opened Wrappers
  import opened Text
  import opened Lines

  // ----- what a line is; all of it shows once the line is trimmed

  /** /^\s*\[/ */
  predicate OpensTable(line: string) {
    var t := Trim(line);
    t != "" && t[0] == '['
  }

  /** The header between optional blanks. */
  predicate IsHeaderOf(line: string, header: string) {
    Trim(line) == header
  }

  /** What follows "<key> =" on the line, if that is how it starts. */
  function AfterKey(line: string, key: string): Option<string> {
    var t := Trim(line);
    if !(key <= t) then None
    else
      var r := TrimStart(t[|key|..]);
      if r == "" || r[0] != '=' then None else Some(r[1..])
  }

  /** /^\s*<key>\s*=/ */
  predicate SetsKey(line: string, key: string) {
    AfterKey(line, key).Some?
  }

  /** /^\s*enabled\s*=\s*(true|false)\s*$/ */
  function EnabledValue(line: string): Option<bool> {
    var v := AfterKey(line, "enabled");
    if v.None? then None
    else if Trim(v.value) == "true" then Some(true)
    else if Trim(v.value) == "false" then Some(false)
    else None
  }

  function KeyLine(key: string, value: bool): string {
    key + " = " + (if value then "true" else "false")
  }

  // ----- reading

  /** The lines of the first table with this header, up to the next table. */
  function Table(lines: seq<string>, header: string): Option<seq<string>> {
    if lines == [] then None
    else if IsHeaderOf(lines[0], header) then Some(lines[1..][..TableEnd(lines[1..])])
    else Table(lines[1..], header)
  }

  /** The index of the first line that opens a table. */
  function TableEnd(lines: seq<string>): (n: nat)
    ensures n <= |lines|
    ensures forall i :: 0 <= i < n ==> !OpensTable(lines[i])
    ensures n < |lines| ==> OpensTable(lines[n])
  {
    if lines == [] || OpensTable(lines[0]) then 0 else 1 + TableEnd(lines[1..])
  }

  function FindHeader(lines: seq<string>, header: string): (i: nat)
    ensures i <= |lines|
    ensures forall j :: 0 <= j < i ==> !IsHeaderOf(lines[j], header)
    ensures i < |lines| ==> IsHeaderOf(lines[i], header)
  {
    if lines == [] || IsHeaderOf(lines[0], header) then 0 else 1 + FindHeader(lines[1..], header)
  }

  function FirstEnabled(lines: seq<string>): Option<bool> {
    if lines == [] then None
    else if EnabledValue(lines[0]).Some? then EnabledValue(lines[0])
    else FirstEnabled(lines[1..])
  }

  function Reading(lines: seq<string>, header: string): Option<bool> {
    var t := Table(lines, header);
    if t.None? then None else FirstEnabled(t.value)
  }

  lemma {:induction false} TableAt(lines: seq<string>, header: string)
    ensures var s := FindHeader(lines, header);
            Table(lines, header) ==
              if s < |lines| then Some(lines[s + 1..][..TableEnd(lines[s + 1..])]) else None
  {
    var s := FindHeader(lines, header);
    TablePastLines(lines, header, s);
    if s < |lines| {
      TableHead(lines[s..], header);
      assert lines[s..][1..] == lines[s + 1..];
    }
  }

  lemma {:induction false} TableHead(lines: seq<string>, header: string)
    requires lines != []
    ensures Table(lines, header) ==
              if IsHeaderOf(lines[0], header) then Some(lines[1..][..TableEnd(lines[1..])]) else Table(lines[1..], header)
  {
  }

  /** Lines that are not the header do not matter. */
  lemma {:induction false} TablePastLines(lines: seq<string>, header: string, s: nat)
    requires s <= |lines| && forall i :: 0 <= i < s ==> !IsHeaderOf(lines[i], header)
    ensures Table(lines, header) == Table(lines[s..], header)
  {
    if s == 0 {
      assert lines[0..] == lines;
    } else {
      TablePastLines(lines, header, s - 1);
      TableHead(lines[s - 1..], header);
      assert lines[s - 1..][1..] == lines[s..];
    }
  }

  method ScanHeader(lines: seq<string>, header: string) returns (start: nat)
    ensures start == FindHeader(lines, header)
  {
    assert lines[0..] == lines;
    for i := 0 to |lines|
      invariant FindHeader(lines, header) == i + FindHeader(lines[i..], header)
    {
      if IsHeaderOf(lines[i], header) { return i; }
      assert lines[i..][1..] == lines[i + 1..];
    }
    return |lines|;
  }

  /** The first value before the next table. */
  function EnabledBeforeTable(lines: seq<string>): Option<bool> {
    if lines == [] || OpensTable(lines[0]) then None
    else if EnabledValue(lines[0]).Some? then EnabledValue(lines[0])
    else EnabledBeforeTable(lines[1..])
  }

  lemma {:induction false} EnabledInTable(lines: seq<string>)
    ensures EnabledBeforeTable(lines) == FirstEnabled(lines[..TableEnd(lines)])
  {
    if lines != [] && !OpensTable(lines[0]) {
      EnabledInTable(lines[1..]);
      assert lines[..TableEnd(lines)][1..] == lines[1..][..TableEnd(lines[1..])];
    }
  }

  method ScanEnabled(lines: seq<string>, from: nat) returns (enabled: Option<bool>)
    requires from <= |lines|
    ensures enabled == EnabledBeforeTable(lines[from..])
  {
    for index := from to |lines|
      invariant EnabledBeforeTable(lines[from..]) == EnabledBeforeTable(lines[index..])
    {
      assert lines[index..][1..] == lines[index + 1..];
      if OpensTable(lines[index]) { break; }
      var value := EnabledValue(lines[index]);
      if value.Some? { return value; }
    }
    return None;
  }

  lemma {:induction false} ReadingAt(lines: seq<string>, header: string, start: nat)
    requires start == FindHeader(lines, header)
    ensures Reading(lines, header) == if start < |lines| then EnabledBeforeTable(lines[start + 1..]) else None
  {
    TableAt(lines, header);
    if start < |lines| { EnabledInTable(lines[start + 1..]); }
  }

  /** The doctor's reader. */
  method PluginMcpServerEnabled(content: string, header: string) returns (enabled: Option<bool>)
    ensures enabled == Reading(SplitLines(content), header)
  {
    var lines := SplitLines(content);
    var start := ScanHeader(lines, header);
    ReadingAt(lines, header, start);
    if start == |lines| { return None; }
    enabled := ScanEnabled(lines, start + 1);
  }

  // ----- setting

  predicate HasKey(body: seq<string>, key: string) {
    exists i :: 0 <= i < |body| && SetsKey(body[i], key)
  }

  /** The first line that sets the key becomes `line`, the others go. */
  function Dedupe(body: seq<string>, key: string, line: string, found: bool): seq<string> {
    if body == [] then []
    else if !SetsKey(body[0], key) then [body[0]] + Dedupe(body[1..], key, line, found)
    else (if found then [] else [line]) + Dedupe(body[1..], key, line, true)
  }

  function EditBody(body: seq<string>, key: string, line: string): seq<string> {
    if HasKey(body, key) then Dedupe(body, key, line, false) else [line] + body
  }

  /** The table whose header is the last of the first `s` lines, edited. */
  function EditFrom(lines: seq<string>, s: nat, key: string, line: string): seq<string>
    requires s <= |lines|
  {
    var rest := lines[s..];
    lines[..s] + (EditBody(rest[..TableEnd(rest)], key, line) + rest[TableEnd(rest)..])
  }

  function EditTable(lines: seq<string>, header: string, key: string, line: string): seq<string>
    requires FindHeader(lines, header) < |lines|
  {
    EditFrom(lines, FindHeader(lines, header) + 1, key, line)
  }

  function StripFeeds(s: string): string {
    if s != "" && s[|s| - 1] == '\n' then StripFeeds(s[..|s| - 1]) else s
  }

  /** replace(/\n*$/, "\n") */
  function OneFinalFeed(s: string): string {
    StripFeeds(s) + "\n"
  }

  /** The text with a new table at its end. */
  function WithTable(config: string, header: string, line: string): string {
    var base := TrimEnd(config);
    (if base != "" then base + "\n\n" else "") + header + "\n" + line + "\n"
  }

  function Upsert(config: string, header: string, key: string, value: bool, create: bool): string {
    var lines := SplitLines(config);
    if FindHeader(lines, header) == |lines| then
      if create then WithTable(config, header, KeyLine(key, value)) else config
    else OneFinalFeed(Join(EditTable(lines, header, key, KeyLine(key, value)), LF))
  }

  method ScanTableEnd(lines: seq<string>, start: nat) returns (end: nat)
    requires start < |lines|
    ensures end == start + 1 + TableEnd(lines[start + 1..])
  {
    var from := start + 1;
    assert lines[from..][0..] == lines[from..];
    for index := from to |lines|
      invariant TableEnd(lines[from..]) == index - from + TableEnd(lines[index..])
    {
      if OpensTable(lines[index]) { return index; }
      assert lines[index..][1..] == lines[index + 1..];
    }
    return |lines|;
  }

  lemma {:induction false} HasKeyStep(rest: seq<string>, key: string)
    requires rest != []
    ensures HasKey(rest, key) <==> SetsKey(rest[0], key) || HasKey(rest[1..], key)
  {
    if HasKey(rest, key) && !SetsKey(rest[0], key) {
      var i :| 0 <= i < |rest| && SetsKey(rest[i], key);
      assert rest[1..][i - 1] == rest[i];
    }
    if HasKey(rest[1..], key) {
      var i :| 0 <= i < |rest[1..]| && SetsKey(rest[1..][i], key);
      assert rest[i + 1] == rest[1..][i];
    }
  }

  /** Keeping, overwriting and splicing out the line at the seam of two parts. */
  lemma {:induction false} AtSeam(p: seq<string>, q: seq<string>, line: string)
    requires q != []
    ensures var lines, k := p + q, |p|;
            && lines[k] == q[0]
            && lines == p + [q[0]] + q[1..]
            && lines[k := line] == p + [line] + q[1..]
            && lines[..k] + lines[k + 1..] == p + q[1..]
  {
  }

  lemma {:induction false} Assoc(a: seq<string>, b: seq<string>, c: seq<string>)
    ensures a + b + c == a + (b + c)
  {
  }

  /** Where the loop stands: `done` of the table's body is edited, `rest` is still to come. */
  ghost predicate Underway(lines: seq<string>, front: seq<string>, done: seq<string>, rest: seq<string>, back: seq<string>,
                           index: int, end: int) {
    lines == (front + done) + (rest + back) && index == |front + done| && end == index + |rest|
  }

  ghost predicate Edits(body: seq<string>, done: seq<string>, rest: seq<string>, key: string, line: string, found: bool) {
    && done + Dedupe(rest, key, line, found) == Dedupe(body, key, line, false)
    && (HasKey(body, key) <==> found || HasKey(rest, key))
  }

  /** The line at the index is kept, overwritten or spliced out. */
  lemma {:induction false} LineAt(lines: seq<string>, front: seq<string>, done: seq<string>, rest: seq<string>, back: seq<string>,
                                   index: int, end: int, line: string)
    requires Underway(lines, front, done, rest, back, index, end) && rest != []
    ensures 0 <= index < |lines| && lines[index] == rest[0]
    ensures Underway(lines, front, done + [rest[0]], rest[1..], back, index + 1, end)
    ensures Underway(lines[index := line], front, done + [line], rest[1..], back, index + 1, end)
    ensures Underway(lines[..index] + lines[index + 1..], front, done, rest[1..], back, index, end - 1)
  {
    var p, q := front + done, rest + back;
    AtSeam(p, q, line);
    assert q[1..] == rest[1..] + back && q[0] == rest[0];
    Assoc(front, done, [rest[0]]);
    Assoc(front, done, [line]);
  }

  lemma {:induction false} OneEdit(body: seq<string>, done: seq<string>, rest: seq<string>, key: string, line: string, found: bool)
    requires Edits(body, done, rest, key, line, found) && rest != []
    ensures !SetsKey(rest[0], key) ==> Edits(body, done + [rest[0]], rest[1..], key, line, found)
    ensures SetsKey(rest[0], key) && !found ==> Edits(body, done + [line], rest[1..], key, line, true)
    ensures SetsKey(rest[0], key) && found ==> Edits(body, done, rest[1..], key, line, true)
  {
    HasKeyStep(rest, key);
    var tail := Dedupe(rest[1..], key, line, found || SetsKey(rest[0], key));
    DedupeHead(rest, key, line, found);
    Assoc(done, [rest[0]], tail);
    Assoc(done, [line], tail);
    assert done + [] == done && [] + tail == tail;
  }

  lemma {:induction false} DedupeHead(rest: seq<string>, key: string, line: string, found: bool)
    requires rest != []
    ensures var tail := Dedupe(rest[1..], key, line, found || SetsKey(rest[0], key));
            Dedupe(rest, key, line, found) ==
              (if !SetsKey(rest[0], key) then [rest[0]] else if found then [] else [line]) + tail
  {
  }

  /** The in-place loop over one table: it rewrites the first line of the key, splices the later
      ones out of `lines`, and moves `end` along, so that end - index falls with every round. */
  method DedupeInPlace(before: seq<string>, start: nat, end0: nat, key: string, line: string)
    returns (lines: seq<string>, keyIndex: int)
    requires start < end0 <= |before|
    ensures var body := before[start + 1..end0];
            && lines == before[..start + 1] + (Dedupe(body, key, line, false) + before[end0..])
            && (keyIndex >= 0 <==> HasKey(body, key))
  {
    ghost var front, body, back := before[..start + 1], before[start + 1..end0], before[end0..];
    lines := before;
    keyIndex := -1;
    var end := end0;
    var index := start + 1;
    ghost var done, rest := [], body;
    assert before == (front + []) + (body + back);
    while index < end
      invariant Underway(lines, front, done, rest, back, index, end)
      invariant Edits(body, done, rest, key, line, keyIndex >= 0)
      decreases end - index
    {
      LineAt(lines, front, done, rest, back, index, end, line);
      OneEdit(body, done, rest, key, line, keyIndex >= 0);
      if SetsKey(lines[index], key) {
        if keyIndex < 0 {
          keyIndex := index;
          lines := lines[index := line];
          done := done + [line];
          index := index + 1;
        } else {
          lines := lines[..index] + lines[index + 1..];
          end := end - 1;
        }
      } else {
        done := done + [rest[0]];
        index := index + 1;
      }
      rest := rest[1..];
    }
    assert rest == [];
    Finished(lines, front, done, back);
  }

  lemma {:induction false} Finished(lines: seq<string>, front: seq<string>, done: seq<string>, back: seq<string>)
    requires lines == (front + done) + ([] + back)
    ensures lines == front + ((done + []) + back)
  {
    assert done + [] == done && [] + back == back;
  }

  /** Edits the table between its header at `start` and `end`. */
  method EditAt(lines: seq<string>, start: nat, end: nat, key: string, line: string) returns (edited: seq<string>)
    requires start < end <= |lines|
    ensures var rest, n := lines[start + 1..], end - start - 1;
            edited == lines[..start + 1] + (EditBody(rest[..n], key, line) + rest[n..])
  {
    var keyIndex;
    assert lines[start + 1..end] == lines[start + 1..][..end - start - 1];
    assert lines[end..] == lines[start + 1..][end - start - 1..];
    edited, keyIndex := DedupeInPlace(lines, start, end, key, line);
    if keyIndex < 0 {
      ghost var front, body, back := lines[..start + 1], lines[start + 1..end], lines[end..];
      NoKeyNoChange(body, key, line);
      assert edited[start + 1..] == body + back && edited[..start + 1] == front;
      edited := edited[..start + 1] + [line] + edited[start + 1..];
      Assoc(front, [line], body + back);
      Assoc([line], body, back);
    }
  }

  lemma {:induction false} EditFromIs(lines: seq<string>, s: nat, key: string, line: string, n: nat, edited: seq<string>)
    requires s <= |lines| && n == TableEnd(lines[s..])
    requires edited == lines[..s] + (EditBody(lines[s..][..n], key, line) + lines[s..][n..])
    ensures edited == EditFrom(lines, s, key, line)
  {
  }

  method EditFound(lines: seq<string>, start: nat, key: string, line: string) returns (edited: seq<string>)
    requires start < |lines|
    ensures edited == EditFrom(lines, start + 1, key, line)
  {
    var end := ScanTableEnd(lines, start);
    edited := EditAt(lines, start, end, key, line);
    EditFromIs(lines, start + 1, key, line, end - start - 1, edited);
  }

  method UpsertTomlTableBooleanKey(config: string, header: string, key: string, value: bool, create: bool)
    returns (out: string)
    ensures out == Upsert(config, header, key, value, create)
  {
    var lines := SplitLines(config);
    var start := ScanHeader(lines, header);
    if start == |lines| {
      UpsertMissing(config, header, key, value, create, lines);
      return if create then WithTable(config, header, KeyLine(key, value)) else config;
    }
    var edited := EditFound(lines, start, key, KeyLine(key, value));
    out := OneFinalFeed(Join(edited, LF));
    UpsertFound(config, header, key, value, create, lines, start, edited);
  }

  lemma {:induction false} UpsertMissing(config: string, header: string, key: string, value: bool, create: bool, lines: seq<string>)
    requires lines == SplitLines(config) && FindHeader(lines, header) == |lines|
    ensures Upsert(config, header, key, value, create) ==
              if create then WithTable(config, header, KeyLine(key, value)) else config
  {
  }

  lemma {:induction false} UpsertFound(config: string, header: string, key: string, value: bool, create: bool, lines: seq<string>,
                                        start: nat, edited: seq<string>)
    requires lines == SplitLines(config) && start == FindHeader(lines, header) < |lines|
    requires edited == EditFrom(lines, start + 1, key, KeyLine(key, value))
    ensures Upsert(config, header, key, value, create) == OneFinalFeed(Join(edited, LF))
  {
  }

  lemma {:induction false} NoKeyNoChange(body: seq<string>, key: string, line: string)
    requires !HasKey(body, key)
    ensures Dedupe(body, key, line, false) == body
  {
    if body != [] {
      HasKeyStep(body, key);
      NoKeyNoChange(body[1..], key, line);
    }
  }
}
