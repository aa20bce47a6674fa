/** What the lines of a plugin table look like, character by character, and which of them the reader takes its answer from. */
module PluginReading {
  import opened Wrappers
  import opened Text
  import opened Lines
  import opened PluginTable

  // ----- one line

  predicate Solid(s: string) {
    s != "" && !IsSpace(s[0]) && !IsSpace(s[|s| - 1])
  }

  lemma {:induction false} TrimOfEnd(s: string)
    ensures Trim(TrimEnd(s)) == Trim(s)
  {
    var b := TrimEndSplits(s);
    assert s == "" + TrimEnd(s) + b;
    TrimAbsorbs("", TrimEnd(s), b);
  }

  /** A line is a header between optional blanks. */
  lemma {:induction false} HeaderIff(line: string, header: string)
    requires Solid(header)
    ensures IsHeaderOf(line, header) <==> exists a, b :: Blank(a) && Blank(b) && line == a + header + b
  {
    var x, y := TrimSplits(line);
    if a, b :| Blank(a) && Blank(b) && line == a + header + b {
      TrimBetween(a, header, b);
    }
  }

  /** A line opens a table if a bracket is the first thing on it. */
  lemma {:induction false} OpensTableIff(line: string)
    ensures OpensTable(line) <==> exists a, rest :: Blank(a) && line == a + ("[" + rest)
  {
    if OpensTable(line) {
      var a, b := TrimSplits(line);
      var t := Trim(line);
      assert line == a + ("[" + (t[1..] + b));
    }
    if a, rest :| Blank(a) && line == a + ("[" + rest) {
      TrimStartAt(a, "[" + rest);
      TrimEndKeeps("[", rest);
    }
  }

  lemma {:induction false} Reassociated(key: string, b: string, rest: string)
    ensures key + (b + ("=" + rest)) == (key + (b + "=")) + rest
    ensures key != "" ==> (key + (b + ("=" + rest)))[0] == key[0]
    ensures key + (b + "=") != "" && (key + (b + "="))[|key + (b + "=")| - 1] == '='
  {
  }

  lemma {:induction false} TrimmedParts(a: string, x: string, rest: string)
    requires Blank(a) && x != "" && !IsSpace(x[|x| - 1]) && !IsSpace((x + rest)[0])
    ensures Trim(a + (x + rest)) == x + TrimEnd(rest)
  {
    TrimStartAt(a, x + rest);
    TrimEndKeeps(x, rest);
  }

  lemma {:induction false} KeyTrims(a: string, key: string, b: string, rest: string)
    requires Blank(a) && Solid(key)
    ensures Trim(a + (key + (b + ("=" + rest)))) == key + (b + ("=" + TrimEnd(rest)))
  {
    Reassociated(key, b, rest);
    Reassociated(key, b, TrimEnd(rest));
    TrimmedParts(a, key + (b + "="), rest);
  }

  lemma {:induction false} AfterTrimmed(line: string, key: string, b: string, rest: string)
    requires Trim(line) == key + (b + ("=" + rest)) && Blank(b)
    ensures AfterKey(line, key) == Some(rest)
  {
    var t, r := Trim(line), "=" + rest;
    assert t[|key|..] == b + r;
    TrimStartAt(b, r);
    assert r[1..] == rest;
  }

  lemma {:induction false} AfterKeyOf(a: string, key: string, b: string, rest: string)
    requires Blank(a) && Solid(key) && Blank(b)
    ensures AfterKey(a + (key + (b + ("=" + rest))), key) == Some(TrimEnd(rest))
  {
    KeyTrims(a, key, b, rest);
    AfterTrimmed(a + (key + (b + ("=" + rest))), key, b, TrimEnd(rest));
  }

  lemma {:induction false} TrimmedSplits(t: string, key: string) returns (b: string, v: string)
    requires key <= t && (var r := TrimStart(t[|key|..]); r != "" && r[0] == '=')
    ensures Blank(b) && t == key + (b + ("=" + v)) && v == TrimStart(t[|key|..])[1..]
  {
    b := TrimStartSplits(t[|key|..]);
    v := TrimStart(t[|key|..])[1..];
    assert t == key + t[|key|..];
  }

  lemma {:induction false} KeySplits(line: string, key: string) returns (a: string, b: string, rest: string)
    requires SetsKey(line, key)
    ensures Blank(a) && Blank(b) && line == a + (key + (b + ("=" + rest)))
    ensures Trim(rest) == Trim(AfterKey(line, key).value)
  {
    var d, v;
    a, d := TrimSplits(line);
    b, v := TrimmedSplits(Trim(line), key);
    rest := v + d;
    Regroup(a, key, b, v, d);
    assert v + d == "" + v + d;
    TrimAbsorbs("", v, d);
  }

  lemma {:induction false} Regroup(a: string, key: string, b: string, v: string, d: string)
    ensures a + (key + (b + ("=" + v))) + d == a + (key + (b + ("=" + (v + d))))
  {
  }

  /** A line sets a key if the key is the first thing on it and an equals sign the next. */
  lemma {:induction false} SetsKeyIff(line: string, key: string)
    requires Solid(key)
    ensures SetsKey(line, key) <==> exists a, b, rest :: Blank(a) && Blank(b) && line == a + (key + (b + ("=" + rest)))
  {
    if SetsKey(line, key) {
      var a, b, rest := KeySplits(line, key);
    }
    if a, b, rest :| Blank(a) && Blank(b) && line == a + (key + (b + ("=" + rest))) {
      AfterKeyOf(a, key, b, rest);
    }
  }

  function Word(v: bool): string {
    if v then "true" else "false"
  }

  ghost predicate EnabledLine(line: string, v: bool) {
    exists a, b, c, d :: Blank(a) && Blank(b) && Blank(c) && Blank(d)
      && line == a + ("enabled" + (b + ("=" + (c + Word(v) + d))))
  }

  lemma {:induction false} EnabledRead(line: string, a: string, b: string, c: string, v: bool, d: string)
    requires Blank(a) && Blank(b) && Blank(c) && Blank(d)
    requires line == a + ("enabled" + (b + ("=" + (c + Word(v) + d))))
    ensures EnabledValue(line) == Some(v)
  {
    var rest := c + Word(v) + d;
    assert Solid("enabled") && Solid("true") && Solid("false");
    AfterKeyOf(a, "enabled", b, rest);
    TrimOfEnd(rest);
    TrimBetween(c, Word(v), d);
  }

  lemma {:induction false} EnabledSplits(line: string, v: bool)
    requires EnabledValue(line) == Some(v)
    ensures EnabledLine(line, v)
  {
    var a, b, rest := KeySplits(line, "enabled");
    var c, d := TrimSplits(rest);
    assert Trim(rest) == Word(v);
  }

  /** The reader understands "enabled = true" and "enabled = false", blanks aside, and nothing else. */
  lemma {:induction false} EnabledIff(line: string, v: bool)
    ensures EnabledValue(line) == Some(v) <==> EnabledLine(line, v)
  {
    if a, b, c, d :| Blank(a) && Blank(b) && Blank(c) && Blank(d) && line == a + ("enabled" + (b + ("=" + (c + Word(v) + d)))) {
      EnabledRead(line, a, b, c, v, d);
    }
    if EnabledValue(line) == Some(v) { EnabledSplits(line, v); }
  }

  // ----- the line that is read

  /** Line i of a table is its first enabled line, before the next table. */
  predicate FirstAt(lines: seq<string>, i: nat, v: bool) {
    && i < |lines| && EnabledValue(lines[i]) == Some(v)
    && (forall j :: 0 <= j <= i ==> !OpensTable(lines[j]))
    && (forall j :: 0 <= j < i ==> EnabledValue(lines[j]).None?)
  }

  lemma {:induction false} FirstShifts(lines: seq<string>, k: nat, i: nat, v: bool)
    requires k <= |lines|
    ensures FirstAt(lines[k..], i, v) <==>
              && k + i < |lines| && EnabledValue(lines[k + i]) == Some(v)
              && (forall j :: k <= j <= k + i ==> !OpensTable(lines[j]))
              && (forall j :: k <= j < k + i ==> EnabledValue(lines[j]).None?)
  {
    var rest := lines[k..];
    if k + i < |lines| {
      assert forall j :: k <= j <= k + i ==> lines[j] == rest[j - k];
      assert forall j :: 0 <= j <= i ==> rest[j] == lines[k + j];
    }
  }

  lemma {:induction false} EnabledHead(lines: seq<string>, v: bool)
    requires EnabledBeforeTable(lines) == Some(v)
    ensures lines != [] && !OpensTable(lines[0])
    ensures EnabledValue(lines[0]).Some? ==> EnabledValue(lines[0]) == Some(v)
    ensures EnabledValue(lines[0]).None? ==> EnabledBeforeTable(lines[1..]) == Some(v)
  {
  }

  lemma {:induction false} FirstBehind(lines: seq<string>, k: nat, v: bool)
    requires lines != [] && !OpensTable(lines[0]) && EnabledValue(lines[0]).None? && FirstAt(lines[1..], k, v)
    ensures FirstAt(lines, k + 1, v)
  {
    FirstShifts(lines, 1, k, v);
  }

  lemma {:induction false} EnabledAt(lines: seq<string>, v: bool) returns (i: nat)
    requires EnabledBeforeTable(lines) == Some(v)
    ensures FirstAt(lines, i, v)
  {
    EnabledHead(lines, v);
    if EnabledValue(lines[0]).Some? {
      i := 0;
    } else {
      var k := EnabledAt(lines[1..], v);
      FirstBehind(lines, k, v);
      i := k + 1;
    }
  }

  lemma {:induction false} EnabledFirst(lines: seq<string>, i: nat, v: bool)
    requires FirstAt(lines, i, v)
    ensures EnabledBeforeTable(lines) == Some(v)
  {
    if i > 0 {
      FirstShifts(lines, 1, i - 1, v);
      EnabledFirst(lines[1..], i - 1, v);
    }
  }

  /** Line i gives the answer v for the table that line s heads. */
  predicate Answers(lines: seq<string>, header: string, s: nat, i: nat, v: bool) {
    && s < i < |lines|
    && IsHeaderOf(lines[s], header) && (forall j :: 0 <= j < s ==> !IsHeaderOf(lines[j], header))
    && EnabledValue(lines[i]) == Some(v)
    && (forall j :: s < j <= i ==> !OpensTable(lines[j])) && (forall j :: s < j < i ==> EnabledValue(lines[j]).None?)
  }

  lemma {:induction false} TailAnswers(lines: seq<string>, k: nat, i: nat, v: bool)
    requires k <= i < |lines| && EnabledValue(lines[i]) == Some(v)
    requires (forall j :: k <= j <= i ==> !OpensTable(lines[j])) && (forall j :: k <= j < i ==> EnabledValue(lines[j]).None?)
    ensures EnabledBeforeTable(lines[k..]) == Some(v)
  {
    FirstShifts(lines, k, i - k, v);
    EnabledFirst(lines[k..], i - k, v);
  }

  lemma {:induction false} HeaderFirst(lines: seq<string>, header: string, s: nat)
    requires s < |lines| && IsHeaderOf(lines[s], header) && forall j :: 0 <= j < s ==> !IsHeaderOf(lines[j], header)
    ensures FindHeader(lines, header) == s
  {
    var h := FindHeader(lines, header);
    assert !(s < h);
  }

  lemma {:induction false} AnswersFirst(lines: seq<string>, header: string, s: nat, i: nat, v: bool)
    requires Answers(lines, header, s, i, v)
    ensures Reading(lines, header) == Some(v)
  {
    TailAnswers(lines, s + 1, i, v);
    HeaderFirst(lines, header, s);
    ReadingAt(lines, header, s);
  }

  lemma {:induction false} AnswersAt(lines: seq<string>, header: string, s: nat, k: nat, v: bool)
    requires s < |lines| && IsHeaderOf(lines[s], header) && (forall j :: 0 <= j < s ==> !IsHeaderOf(lines[j], header))
    requires FirstAt(lines[s + 1..], k, v)
    ensures Answers(lines, header, s, s + 1 + k, v)
  {
    FirstShifts(lines, s + 1, k, v);
  }

  lemma {:induction false} ReadingAnswers(lines: seq<string>, header: string, v: bool) returns (s: nat, i: nat)
    requires Reading(lines, header) == Some(v)
    ensures Answers(lines, header, s, i, v)
  {
    s := FindHeader(lines, header);
    ReadingAt(lines, header, s);
    var k := EnabledAt(lines[s + 1..], v);
    AnswersAt(lines, header, s, k, v);
    i := s + 1 + k;
  }

  /** The answer comes from the first enabled line of the first table with that header. */
  lemma {:induction false} ReadingIff(lines: seq<string>, header: string, v: bool)
    ensures Reading(lines, header) == Some(v) <==> exists s: nat, i: nat :: Answers(lines, header, s, i, v)
  {
    if Reading(lines, header) == Some(v) {
      var s, i := ReadingAnswers(lines, header, v);
    }
    if s: nat, i: nat :| Answers(lines, header, s, i, v) {
      AnswersFirst(lines, header, s, i, v);
    }
  }
}
