/** What setting and then reading a top-level string gives, exactly. */
module TomlLens {
  import opened Wrappers
  import opened Text
  import opened Lines
  import opened TopLevelToml

  /** A line that neither assigns `key` nor opens a table. */
  predicate Inert(line: string, key: string) {
    Skipped(line) || (!IsHeader(line) && KeyOf(line) != Some(key))
  }

  predicate AllInert(lines: seq<string>, key: string) {
    forall i :: 0 <= i < |lines| ==> Inert(lines[i], key)
  }

  /** A line that assigns `key`. */
  predicate Assigns(line: string, key: string) {
    !Skipped(line) && !IsHeader(line) && KeyOf(line) == Some(key)
  }

  // ----- the assignment line

  lemma {:induction false} TakeKeyAll(k: string, rest: string)
    requires (forall c :: c in k ==> IsKeyChar(c)) && (rest != "" ==> !IsKeyChar(rest[0]))
    ensures TakeKey(k + rest) == k
  {
    if k != "" {
      assert k[0] in k;
      assert (k + rest)[1..] == k[1..] + rest;
      TakeKeyAll(k[1..], rest);
    } else {
      assert k + rest == rest;
    }
  }

  lemma {:induction false} KeyThenRest(k: string, t: string)
    requires ValidKey(k)
    ensures KeyAndRest(k + (" =" + t)) == Some((k, t))
  {
    var s := k + (" =" + t);
    assert k[0] in k && s[0] == k[0];
    assert TrimStart(s) == s;
    TakeKeyAll(k, " =" + t);
    assert s[|k|..] == " =" + t;
    assert (" =" + t)[1..] == "=" + t;
    assert TrimStart(" =" + t) == "=" + t;
    assert ("=" + t)[1..] == t;
  }

  lemma {:induction false} AssignmentLineReads(k: string, v: string)
    requires ValidKey(k)
    ensures Assigns(AssignmentLine(k, v), k)
    ensures KeyAndRest(AssignmentLine(k, v)) == Some((k, " \"" + Escape(v) + "\""))
    ensures AssignmentLine(k, v) != "" && !EndsInCr(AssignmentLine(k, v)) && Trim(AssignmentLine(k, v)) != ""
  {
    var a, t := AssignmentLine(k, v), " \"" + Escape(v) + "\"";
    assert a == k + (" =" + t);
    KeyThenRest(k, t);
    assert k[0] in k && a[0] == k[0] && a[|a| - 1] == '"';
    TrimNothing(a);
  }

  predicate OneLine(v: string) { '\n' !in v }

  lemma {:induction false} EscapeOneLine(v: string)
    requires OneLine(v)
    ensures OneLine(Escape(v))
  {
    if v != "" {
      assert v[0] in v && forall c :: c in v[1..] ==> c in v;
      EscapeOneLine(v[1..]);
    }
  }

  lemma {:induction false} AssignmentLineIsLine(k: string, v: string)
    requires ValidKey(k) && OneLine(v)
    ensures Line(AssignmentLine(k, v))
  {
    EscapeOneLine(v);
  }

  // ----- the edited lines

  lemma {:induction false} KeyIndexFound(lines: seq<string>, key: string)
    ensures var i := KeyIndex(lines, key);
            i.Some? ==> AllInert(lines[..i.value], key) && Assigns(lines[i.value], key)
  {
    var i := KeyIndex(lines, key);
    if i.Some? && i.value > 0 {
      KeyIndexFound(lines[1..], key);
      forall j | 0 <= j < i.value ensures Inert(lines[j], key) {
        if j > 0 { assert lines[1..][..i.value - 1][j - 1] == lines[j]; }
      }
    }
  }

  lemma {:induction false} KeyIndexMissing(lines: seq<string>, key: string)
    requires KeyIndex(lines, key).None?
    ensures AllInert(lines[..TableIndex(lines)], key)
  {
    if lines != [] && !IsHeader(lines[0]) {
      KeyIndexMissing(lines[1..], key);
      var n := TableIndex(lines);
      forall j | 0 <= j < n ensures Inert(lines[j], key) {
        if j > 0 { assert lines[1..][..n - 1][j - 1] == lines[j]; }
      }
    }
  }

  /** Where the edit happens. */
  function At(lines: seq<string>, key: string): (p: nat)
    ensures p <= |lines|
  {
    var i := KeyIndex(lines, key);
    if i.Some? then i.value else TableIndex(lines)
  }

  function Before(lines: seq<string>, key: string): seq<string> {
    lines[..At(lines, key)]
  }

  function Behind(lines: seq<string>, key: string): seq<string> {
    if KeyIndex(lines, key).Some? then lines[At(lines, key) + 1..] else lines[At(lines, key)..]
  }

  /** The edit puts its line behind lines that have nothing to do with the key. */
  lemma {:induction false} EditShape(lines: seq<string>, key: string, line: string)
    ensures Edit(lines, key, line) == Before(lines, key) + [line] + Behind(lines, key)
    ensures AllInert(Before(lines, key), key)
  {
    if KeyIndex(lines, key).Some? {
      KeyIndexFound(lines, key);
      UpdateSplits(lines, KeyIndex(lines, key).value, line);
    } else {
      KeyIndexMissing(lines, key);
    }
  }

  lemma {:induction false} UpdateSplits(lines: seq<string>, i: nat, line: string)
    requires i < |lines|
    ensures lines[i := line] == lines[..i] + [line] + lines[i + 1..]
  {
  }

  lemma {:induction false} ReadPastInert(before: seq<string>, rest: seq<string>, key: string)
    requires AllInert(before, key)
    ensures ReadLines(before + rest, key) == ReadLines(rest, key)
  {
    if before != [] {
      assert (before + rest)[1..] == before[1..] + rest;
      ReadPastInert(before[1..], rest, key);
    } else {
      assert before + rest == rest;
    }
  }

  lemma {:induction false} KeyIndexPastInert(before: seq<string>, line: string, rest: seq<string>, key: string)
    requires AllInert(before, key) && Assigns(line, key)
    ensures KeyIndex(before + [line] + rest, key) == Some(|before|)
  {
    var all := before + [line] + rest;
    if before != [] {
      assert all[1..] == before[1..] + [line] + rest;
      KeyIndexPastInert(before[1..], line, rest, key);
    }
  }

  // ----- the whole text as lines

  function Closed(lines: seq<string>): seq<string>
    requires lines != []
  {
    if |lines| >= 2 && lines[|lines| - 1] == "" then lines else lines + [""]
  }

  lemma {:induction false} JoinSnoc(lines: seq<string>, l: string, sep: string)
    requires lines != []
    ensures Join(lines + [l], sep) == Join(lines, sep) + sep + l
  {
    JoinConcat(lines, [l], sep);
  }

  lemma {:induction false} EnsureCloses(lines: seq<string>, eol: string)
    requires lines != [] && AllLines(lines) && (eol == LF || eol == CRLF)
    ensures EnsureEol(Join(lines, eol), eol) == Join(Closed(lines), eol)
  {
    var n := |lines| - 1;
    var s := Join(lines, eol);
    assert lines[n] in lines;
    NoFeed(lines[n]);
    if n > 0 {
      assert lines == lines[..n] + [lines[n]];
      JoinSnoc(lines[..n], lines[n], eol);
    }
    if !(n > 0 && lines[n] == "") {
      assert s == "" || s[|s| - 1] != '\n';
      JoinSnoc(lines, "", eol);
      assert s + eol + "" == s + eol;
    } else {
      assert s == Join(lines[..n], eol) + eol;
    }
  }

  function CloseTail(behind: seq<string>): (r: seq<string>)
    ensures r != [] && r[|r| - 1] == ""
  {
    if behind != [] && behind[|behind| - 1] == "" then behind else behind + [""]
  }

  /** The lines of the result before and behind the assignment; the last one is empty. */
  function Head(content: string, key: string): seq<string> {
    if Trim(content) == "" then [] else Before(SplitLines(content), key)
  }

  function Rest(content: string, key: string): (r: seq<string>)
    ensures r != [] && r[|r| - 1] == ""
  {
    if Trim(content) == "" then [""] else CloseTail(Behind(SplitLines(content), key))
  }

  function Full(content: string, key: string, line: string): seq<string> {
    Head(content, key) + [line] + Rest(content, key)
  }

  lemma {:induction false} HeadInert(content: string, key: string)
    ensures AllInert(Head(content, key), key)
  {
    if Trim(content) != "" { EditShape(SplitLines(content), key, ""); }
  }

  lemma {:induction false} ClosedEdit(lines: seq<string>, key: string, line: string)
    requires line != ""
    ensures Edit(lines, key, line) != []
    ensures Closed(Edit(lines, key, line)) == Before(lines, key) + [line] + CloseTail(Behind(lines, key))
  {
    EditShape(lines, key, line);
    var before, behind := Before(lines, key), Behind(lines, key);
    var edited := before + [line] + behind;
    assert edited[|edited| - 1] == if behind == [] then line else behind[|behind| - 1];
    assert edited + [""] == before + [line] + (behind + [""]);
  }

  lemma {:induction false} EditAreLines(lines: seq<string>, key: string, line: string)
    requires AllLines(lines) && Line(line)
    ensures AllLines(Edit(lines, key, line))
  {
    var r := Edit(lines, key, line);
    EditShape(lines, key, line);
    forall l | l in r ensures Line(l) {
      assert l in Before(lines, key) || l == line || l in Behind(lines, key);
      assert l in Before(lines, key) || l in Behind(lines, key) ==> l in lines;
    }
  }

  lemma {:induction false} UpsertJoins(content: string, key: string, value: string)
    requires ValidKey(key) && OneLine(value)
    ensures var full := Full(content, key, AssignmentLine(key, value));
            AllLines(full) && Upsert(content, key, value) == Join(full, Eol(content))
  {
    var line := AssignmentLine(key, value);
    var full := Full(content, key, line);
    AssignmentLineIsLine(key, value);
    AssignmentLineReads(key, value);
    if Trim(content) == "" {
      assert full == [line, ""];
      assert [line, ""][1..] == [""];
      assert Join(full, Eol(content)) == line + Eol(content) + "";
      assert line + Eol(content) + "" == line + Eol(content);
    } else {
      var lines := SplitLines(content);
      SplitAreLines(content);
      EditAreLines(lines, key, line);
      ClosedEdit(lines, key, line);
      EnsureCloses(Edit(lines, key, line), Eol(content));
    }
  }

  // ----- setting twice

  /** LF text that ends in a stray carriage return which the edit does not overwrite. */
  predicate Stranded(content: string, key: string) {
    && Trim(content) != "" && !HasCrLf(content) && EndsInCr(content)
    && KeyIndex(SplitLines(content), key) != Some(|SplitLines(content)| - 1)
  }

  /** LF text: splitting chops nothing, and only the last line can end in a carriage return. */
  lemma {:induction false} LfLines(content: string)
    requires !HasCrLf(content)
    ensures SplitLines(content) == SplitLf(content, "") && NoInnerCr(SplitLines(content))
    ensures EndsInCr(SplitLines(content)[|SplitLines(content)| - 1]) <==> EndsInCr(content)
  {
    var pieces := SplitLf(content, "");
    SplitLfAreLines(content, "");
    JoinSplitLf(content, "");
    assert "" + content == content;
    HasCrLfJoined(pieces);
    LastCr(pieces);
  }

  lemma {:induction false} LastCr(pieces: seq<string>)
    requires pieces != []
    ensures EndsInCr(pieces[|pieces| - 1]) <==> EndsInCr(Join(pieces, LF))
  {
    var n := |pieces| - 1;
    if n > 0 {
      assert pieces == pieces[..n] + [pieces[n]];
      JoinSnoc(pieces[..n], pieces[n], LF);
    }
  }

  lemma {:induction false} NoCrAround(before: seq<string>, line: string, rest: seq<string>)
    requires !EndsInCr(line) && rest != [] && rest[|rest| - 1] == ""
    ensures NoInnerCr(before + [line] + rest) <==> NoCr(before) && NoCr(rest)
  {
    var all := before + [line] + rest;
    if NoInnerCr(all) {
      forall i | 0 <= i < |before| ensures !EndsInCr(before[i]) { assert all[i] == before[i]; }
      forall i | 0 <= i < |rest| ensures !EndsInCr(rest[i]) { assert all[|before| + 1 + i] == rest[i]; }
    }
  }

  lemma {:induction false} NoCrTail(behind: seq<string>)
    ensures NoCr(CloseTail(behind)) <==> NoCr(behind)
  {
    if NoCr(CloseTail(behind)) {
      forall i | 0 <= i < |behind| ensures !EndsInCr(behind[i]) { assert CloseTail(behind)[i] == behind[i]; }
    }
  }

  /** Carriage returns in all lines but `mid`, when only the last line can have one. */
  lemma {:induction false} NoCrParts(lines: seq<string>, before: seq<string>, mid: seq<string>, behind: seq<string>)
    requires lines != [] && NoInnerCr(lines) && lines == before + mid + behind && |mid| <= 1
    ensures NoCr(before) && NoCr(behind) <==> !EndsInCr(lines[|lines| - 1]) || (|mid| == 1 && behind == [])
  {
    var n := |lines| - 1;
    forall i | 0 <= i < |before| ensures before[i] == lines[i] {}
    forall i | 0 <= i < |behind| ensures behind[i] == lines[|before| + |mid| + i] {}
    if behind != [] {
      assert behind[|behind| - 1] == lines[n];
    } else if mid == [] {
      assert before[|before| - 1] == lines[n];
    }
  }

  lemma {:induction false} FrameSplits(lines: seq<string>, key: string) returns (mid: seq<string>)
    ensures lines == Before(lines, key) + mid + Behind(lines, key)
    ensures |mid| <= 1 && (|mid| == 1 <==> KeyIndex(lines, key).Some?)
    ensures |mid| == 1 && Behind(lines, key) == [] <==> KeyIndex(lines, key) == Some(|lines| - 1)
    ensures |mid| == 1 ==> Assigns(mid[0], key)
  {
    KeyIndexFound(lines, key);
    mid := if KeyIndex(lines, key).Some? then [lines[At(lines, key)]] else [];
  }

  lemma {:induction false} NoCrFrame(lines: seq<string>, key: string)
    requires lines != [] && NoInnerCr(lines)
    ensures NoCr(Before(lines, key)) && NoCr(Behind(lines, key)) <==>
              !EndsInCr(lines[|lines| - 1]) || KeyIndex(lines, key) == Some(|lines| - 1)
  {
    var mid := FrameSplits(lines, key);
    NoCrParts(lines, Before(lines, key), mid, Behind(lines, key));
  }

  /** The result shows a CRLF that its text did not have exactly when it is stranded. */
  lemma {:induction false} FullCr(content: string, key: string, line: string)
    requires !EndsInCr(line) && !HasCrLf(content)
    ensures NoInnerCr(Full(content, key, line)) <==> !Stranded(content, key)
  {
    if Trim(content) == "" {
      NoCrAround([], line, [""]);
    } else {
      var lines := SplitLines(content);
      NoCrAround(Before(lines, key), line, CloseTail(Behind(lines, key)));
      FrameCr(content, key);
    }
  }

  lemma {:induction false} FrameCr(content: string, key: string)
    requires Trim(content) != "" && !HasCrLf(content)
    ensures var lines := SplitLines(content);
            NoCr(Before(lines, key)) && NoCr(CloseTail(Behind(lines, key))) <==> !Stranded(content, key)
  {
    LfLines(content);
    NoCrTail(Behind(SplitLines(content), key));
    NoCrFrame(SplitLines(content), key);
  }

  /** Setting again on the lines of a result overwrites the same line. */
  lemma {:induction false} EditAgain(content: string, key: string, v1: string, v2: string)
    requires ValidKey(key)
    ensures var full := Full(content, key, AssignmentLine(key, v1));
            && Before(full, key) == Head(content, key) && Behind(full, key) == Rest(content, key)
  {
    var a1 := AssignmentLine(key, v1);
    AssignmentLineReads(key, v1);
    HeadInert(content, key);
    KeyIndexPastInert(Head(content, key), a1, Rest(content, key), key);
  }

  lemma {:induction false} JoinHas(lines: seq<string>, l: string, sep: string, c: char)
    requires l in lines && c in l
    ensures c in Join(lines, sep)
  {
    if |lines| > 1 && l != lines[0] {
      assert l in lines[1..];
      JoinHas(lines[1..], l, sep, c);
    }
  }

  lemma {:induction false} NotBlank(s: string, c: char)
    requires c in s && !IsSpace(c)
    ensures Trim(s) != ""
  {
    var a, b := TrimSplits(s);
  }

  /** A result reads as the lines it was made of, unless it is stranded. */
  lemma {:induction false} ResultLines(content: string, key: string, value: string)
    requires ValidKey(key) && OneLine(value)
    ensures var out, full := Upsert(content, key, value), Full(content, key, AssignmentLine(key, value));
            && Trim(out) != ""
            && (!Stranded(content, key) ==> SplitLines(out) == full && Eol(out) == Eol(content))
            && (Stranded(content, key) ==> SplitLines(out) == ChopInit(full) && Eol(out) == CRLF)
  {
    var line := AssignmentLine(key, value);
    var full := Full(content, key, line);
    UpsertJoins(content, key, value);
    AssignmentLineReads(key, value);
    assert line in full && key[0] in key && key[0] in line;
    JoinHas(full, line, Eol(content), key[0]);
    NotBlank(Upsert(content, key, value), key[0]);
    SplitJoined(full);
    if HasCrLf(content) {
      CrLfShows(full);
    } else {
      FullCr(content, key, line);
      HasCrLfJoined(full);
      if NoInnerCr(full) { assert ChopInit(full) == full; }
    }
  }

  lemma {:induction false} CrLfShows(lines: seq<string>)
    requires |lines| >= 2 && AllLines(lines)
    ensures HasCrLf(Join(lines, CRLF))
  {
    var withCr := AddCr(lines);
    JoinCrLf(lines);
    forall l | l in withCr ensures Line(l) {
      var i :| 0 <= i < |withCr| && withCr[i] == l;
      assert lines[i] in lines;
    }
    HasCrLfJoined(withCr);
    assert EndsInCr(withCr[0]);
  }

  lemma {:induction false} PutPutHolds(content: string, key: string, v1: string, v2: string)
    requires ValidKey(key) && OneLine(v1) && OneLine(v2) && !Stranded(content, key)
    ensures Upsert(Upsert(content, key, v1), key, v2) == Upsert(content, key, v2)
  {
    var out1 := Upsert(content, key, v1);
    ResultLines(content, key, v1);
    EditAgain(content, key, v1, v2);
    UpsertJoins(out1, key, v2);
    UpsertJoins(content, key, v2);
    assert CloseTail(Rest(content, key)) == Rest(content, key);
  }

  lemma {:induction false} FeedAfter(before: seq<string>, line: string, rest: seq<string>) returns (i: nat)
    requires line != "" && rest != []
    ensures var s := Join(before + [line] + rest, LF);
            0 < i < |s| && s[i] == '\n' && s[i - 1] == line[|line| - 1]
  {
    var front := before + [line];
    JoinConcat(front, rest, LF);
    if before != [] { JoinSnoc(before, line, LF); } else { assert front == [line]; }
    i := |Join(front, LF)|;
  }

  lemma {:induction false} PutPutFails(content: string, key: string, v1: string, v2: string)
    requires ValidKey(key) && OneLine(v1) && OneLine(v2) && Stranded(content, key)
    ensures Upsert(Upsert(content, key, v1), key, v2) != Upsert(content, key, v2)
  {
    var out1 := Upsert(content, key, v1);
    ResultLines(content, key, v1);
    UpsertJoins(out1, key, v2);
    UpsertJoins(content, key, v2);
    AssignmentLineReads(key, v2);
    var i := FeedAfter(Head(content, key), AssignmentLine(key, v2), Rest(content, key));
    if Upsert(out1, key, v2) == Upsert(content, key, v2) {
      JoinedCrLf(Full(out1, key, AssignmentLine(key, v2)), i);
      assert false;
    }
  }

  /** A second setting overrides the first, and so setting is idempotent, exactly when the text
      is not LF text with a stray final carriage return outside the line that is overwritten. */
  lemma PutPutIff(content: string, key: string, v1: string, v2: string)
    requires ValidKey(key) && OneLine(v1) && OneLine(v2)
    ensures Upsert(Upsert(content, key, v1), key, v2) == Upsert(content, key, v2) <==> !Stranded(content, key)
  {
    if Stranded(content, key) {
      PutPutFails(content, key, v1, v2);
    } else {
      PutPutHolds(content, key, v1, v2);
    }
  }

  // ----- reading what was set

  lemma {:induction false} TrimStartTail(s: string, b: string)
    requires Blank(b)
    ensures TrimStart(s + b) == if TrimStart(s) == "" then "" else TrimStart(s) + b
  {
    if s == "" {
      assert s + b == b && b + "" == b;
      TrimStartBlank(b, "");
    } else if IsSpace(s[0]) {
      assert (s + b)[1..] == s[1..] + b;
      TrimStartTail(s[1..], b);
    }
  }

  lemma {:induction false} TakeKeyTail(s: string, b: string)
    requires b == "\r"
    ensures TakeKey(s + b) == TakeKey(s)
  {
    var k := TakeKey(s);
    assert s == k + s[|k|..];
    assert s + b == k + (s[|k|..] + b);
    TakeKeyAll(k, s[|k|..] + b);
  }

  lemma {:induction false} KeyOfTail(s: string)
    ensures KeyOf(s + "\r") == KeyOf(s)
  {
    var t := TrimStart(s);
    TrimStartTail(s, "\r");
    if t != "" {
      TakeKeyTail(t, "\r");
      var k := TakeKey(t);
      assert (t + "\r")[|k|..] == t[|k|..] + "\r";
      TrimStartTail(t[|k|..], "\r");
    }
  }

  /** A trailing carriage return never changes what a line is. */
  lemma {:induction false} InertChopped(line: string, key: string)
    ensures Inert(Chop(line), key) <==> Inert(line, key)
  {
    if EndsInCr(line) {
      var s := Chop(line);
      assert line == s + "\r" && line == "" + s + "\r";
      TrimAbsorbs("", s, "\r");
      KeyOfTail(s);
    }
  }

  lemma {:induction false} ReadChopped(head: seq<string>, line: string, rest: seq<string>, key: string)
    returns (tail: seq<string>)
    requires AllInert(head, key) && !EndsInCr(line) && rest != []
    ensures ReadLines(ChopInit(head + [line] + rest), key) == ReadLines([line] + tail, key)
  {
    var chopped := ChopInit(head + [line] + rest);
    var front := chopped[..|head|];
    tail := chopped[|head| + 1..];
    forall i | 0 <= i < |head| ensures Inert(front[i], key) {
      assert front[i] == Chop(head[i]);
      InertChopped(head[i], key);
    }
    assert chopped[|head|] == line;
    assert chopped == front + ([line] + tail);
    ReadPastInert(front, [line] + tail, key);
  }

  lemma {:induction false} ReadWhole(head: seq<string>, line: string, rest: seq<string>, key: string)
    requires AllInert(head, key)
    ensures ReadLines(head + [line] + rest, key) == ReadLines([line] + rest, key)
  {
    assert head + [line] + rest == head + ([line] + rest);
    ReadPastInert(head, [line] + rest, key);
  }

  /** The lines of a result, whichever way its text splits. */
  lemma {:induction false} ReadLinesOf(lines: seq<string>, head: seq<string>, line: string, rest: seq<string>, key: string)
    returns (tail: seq<string>)
    requires AllInert(head, key) && !EndsInCr(line) && rest != []
    requires lines == head + [line] + rest || lines == ChopInit(head + [line] + rest)
    ensures ReadLines(lines, key) == ReadLines([line] + tail, key)
  {
    if lines == head + [line] + rest {
      tail := rest;
      ReadWhole(head, line, rest, key);
    } else {
      tail := ReadChopped(head, line, rest, key);
    }
  }

  /** Reading the key of a result comes to reading the line that was set. */
  lemma {:induction false} ReadResult(content: string, key: string, value: string) returns (tail: seq<string>)
    requires ValidKey(key) && OneLine(value)
    ensures Read(Upsert(content, key, value), key) == ReadLines([AssignmentLine(key, value)] + tail, key)
  {
    ResultLines(content, key, value);
    AssignmentLineReads(key, value);
    HeadInert(content, key);
    tail := ReadLinesOf(SplitLines(Upsert(content, key, value)),
                        Head(content, key), AssignmentLine(key, value), Rest(content, key), key);
  }

  lemma {:induction false} LazyChars(s: string)
    ensures LazyValue(s).Some? ==> NoTerminator(LazyValue(s).value) && forall c :: c in LazyValue(s).value ==> c in s
    ensures NoTerminator(s) ==> LazyValue(s).Some? && '#' !in LazyValue(s).value
  {
    if !TailOk(s) {
      LazyChars(s[1..]);
      assert forall c :: c in s[1..] ==> c in s;
      assert s[0] in s;
    }
  }

  lemma {:induction false} NotTail(s: string)
    requires s != "" && '#' !in s && !IsSpace(s[|s| - 1])
    ensures !TailOk(s)
  {
    var a := TrimStartSplits(s);
    var t := TrimStart(s);
    assert s[|s| - 1] in s && s == a + t;
    assert t != "" ==> t[0] in s;
  }

  lemma {:induction false} LazyWhole(s: string)
    requires s != "" && NoTerminator(s) && '#' !in s && !IsSpace(s[|s| - 1])
    ensures LazyValue(s) == Some(s)
  {
    NotTail(s);
    assert s[0] in s && forall c :: c in s[1..] ==> c in s;
    if |s| > 1 {
      LazyWhole(s[1..]);
      assert [s[0]] + s[1..] == s;
    } else {
      assert s[1..] == "" && LazyValue("") == Some("") && [s[0]] + "" == s;
    }
  }

  lemma {:induction false} StripChars(s: string)
    ensures forall c :: c in StripQuotes(s) ==> c in s
  {
    var a, b := TrimSplits(s);
    assert forall c :: c in Trim(s) ==> c in s;
  }

  /** What is read never holds a line terminator, and only valid keys are ever found. */
  lemma {:induction false} ReadIsPlain(lines: seq<string>, key: string)
    ensures ReadLines(lines, key).Some? ==> ValidKey(key) && NoTerminator(ReadLines(lines, key).value)
  {
    if lines != [] {
      ReadIsPlain(lines[1..], key);
      AssignmentIsPlain(lines[0]);
    }
  }

  lemma {:induction false} AssignmentIsPlain(line: string)
    ensures var a := Assignment(line); a.Some? ==> ValidKey(a.value.0) && NoTerminator(a.value.1)
  {
    var m := KeyAndRest(line);
    if m.Some? {
      var v := TrimStart(m.value.1);
      LazyChars(v);
      if LazyValue(v).Some? { StripChars(LazyValue(v).value); }
    }
  }

  predicate PlainValue(v: string) {
    NoTerminator(v) && '"' !in v && '\\' !in v && '#' !in v
  }

  lemma {:induction false} EscapeChars(v: string)
    ensures forall c :: c in Escape(v) ==> c in v || c == '\\'
    ensures |Escape(v)| >= |v|
    ensures Escape(v) == v <==> '"' !in v && '\\' !in v
  {
    if v != "" {
      EscapeChars(v[1..]);
      assert v == [v[0]] + v[1..];
      assert v[0] in v && forall c :: c in v[1..] ==> c in v;
      if v[0] != '"' && v[0] != '\\' {
        assert Escape(v) == [v[0]] + Escape(v[1..]);
        assert Escape(v) == v <==> Escape(v[1..]) == v[1..] by {
          if Escape(v) == v { assert Escape(v)[1..] == Escape(v[1..]); }
        }
      } else {
        assert |Escape(v)| == 2 + |Escape(v[1..])|;
      }
    }
  }

  /** The value read from the line that sets `v`, when `v` has no line terminator. */
  lemma {:induction false} ValueRead(k: string, v: string)
    requires ValidKey(k) && NoTerminator(v)
    ensures var a := Assignment(AssignmentLine(k, v));
            && a.Some? && a.value.0 == k
            && ('#' in v ==> '#' !in a.value.1)
            && ('#' !in v ==> a.value.1 == Escape(v))
  {
    var e := Escape(v);
    var q := "\"" + e + "\"";
    AssignmentLineReads(k, v);
    EscapeChars(v);
    assert " \"" + e + "\"" == " " + q;
    assert (" " + q)[1..] == q;
    assert TrimStart(" " + q) == q;
    QuotedReads(e);
  }

  /** What the reader takes from a value between quotes. */
  lemma {:induction false} QuotedReads(e: string)
    requires NoTerminator(e)
    ensures var q := "\"" + e + "\"";
            && LazyValue(q).Some?
            && '#' !in StripQuotes(LazyValue(q).value)
            && ('#' !in e ==> StripQuotes(LazyValue(q).value) == e)
  {
    var q := "\"" + e + "\"";
    assert NoTerminator(q);
    LazyChars(q);
    StripChars(LazyValue(q).value);
    if '#' !in e {
      LazyWhole(q);
      TrimNothing(q);
      assert q[1..|q| - 1] == e;
    }
  }

  /** Reading gives back what was set exactly when the key is a key and the value holds no
      quote, backslash, # or line terminator; then it does so for every text. */
  lemma {:induction false} PutGetIff(content: string, key: string, value: string)
    ensures Read(Upsert(content, key, value), key) == Some(value) <==> ValidKey(key) && PlainValue(value)
  {
    ReadIsPlain(SplitLines(Upsert(content, key, value)), key);
    if ValidKey(key) && NoTerminator(value) {
      assert OneLine(value);
      var rest := ReadResult(content, key, value);
      AssignmentLineReads(key, value);
      ValueRead(key, value);
      EscapeChars(value);
      assert ([AssignmentLine(key, value)] + rest)[0] == AssignmentLine(key, value);
    }
  }
}
