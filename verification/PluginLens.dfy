/** What switching a plugin table on or off does to its own reading and to everything else. */
module PluginLens {
  import opened Wrappers
  import opened Text
  import opened Lines
  import opened PluginTable

  /** A table header: one line, opened by a bracket, no blanks around it. */
  predicate ValidHeader(h: string) {
    h != "" && h[0] == '[' && !IsSpace(h[|h| - 1]) && Line(h)
  }

  predicate AtBoundary(lines: seq<string>) {
    lines == [] || OpensTable(lines[0])
  }

  predicate NoTables(lines: seq<string>) {
    forall i :: 0 <= i < |lines| ==> !OpensTable(lines[i])
  }

  predicate NoHeader(lines: seq<string>, h: string) {
    forall i :: 0 <= i < |lines| ==> !IsHeaderOf(lines[i], h)
  }

  // ----- tables of concatenations

  lemma {:induction false} TableEndConcat(a: seq<string>, b: seq<string>)
    requires AtBoundary(b)
    ensures TableEnd(a + b) == TableEnd(a)
  {
    if a == [] {
      assert a + b == b;
    } else if !OpensTable(a[0]) {
      assert (a + b)[1..] == a[1..] + b;
      TableEndConcat(a[1..], b);
    }
  }

  /** Where one part ends at a table header, each part answers for itself. */
  lemma {:induction false} TableConcat(a: seq<string>, b: seq<string>, h: string)
    requires AtBoundary(b)
    ensures Table(a + b, h) == if Table(a, h).Some? then Table(a, h) else Table(b, h)
  {
    if a == [] {
      assert a + b == b;
    } else {
      assert (a + b)[1..] == a[1..] + b;
      if IsHeaderOf(a[0], h) {
        TableEndConcat(a[1..], b);
        assert (a[1..] + b)[..TableEnd(a[1..])] == a[1..][..TableEnd(a[1..])];
      } else {
        TableConcat(a[1..], b, h);
      }
    }
  }

  lemma {:induction false} TablePast(a: seq<string>, b: seq<string>, h: string)
    requires NoHeader(a, h)
    ensures Table(a + b, h) == Table(b, h)
  {
    if a == [] {
      assert a + b == b;
    } else {
      assert (a + b)[1..] == a[1..] + b;
      TablePast(a[1..], b, h);
    }
  }

  lemma {:induction false} NoTablesEnd(body: seq<string>)
    requires NoTables(body)
    ensures TableEnd(body) == |body|
  {
    if body != [] { NoTablesEnd(body[1..]); }
  }

  /** A header with its body, up to a boundary. */
  lemma {:induction false} TableHere(hl: string, body: seq<string>, rest: seq<string>, h: string)
    requires IsHeaderOf(hl, h) && NoTables(body) && AtBoundary(rest)
    ensures Table([hl] + (body + rest), h) == Some(body)
  {
    assert ([hl] + (body + rest))[1..] == body + rest;
    TableEndConcat(body, rest);
    NoTablesEnd(body);
    assert (body + rest)[..|body|] == body;
  }

  /** ... holds no other table. */
  lemma {:induction false} NotHere(hl: string, body: seq<string>, h: string)
    requires OpensHeader(h) && !IsHeaderOf(hl, h) && NoTables(body)
    ensures Table([hl] + body, h) == None
  {
    var all := [hl] + body;
    forall i | 0 <= i < |all| ensures !IsHeaderOf(all[i], h) {
      if i > 0 { assert all[i] == body[i - 1]; }
    }
    TablePast(all, [], h);
    assert all + [] == all;
  }

  predicate OpensHeader(h: string) {
    h != "" && h[0] == '['
  }

  // ----- the edited table

  lemma {:induction false} DedupeTables(body: seq<string>, key: string, line: string, found: bool)
    requires NoTables(body) && !OpensTable(line)
    ensures NoTables(Dedupe(body, key, line, found))
  {
    if body != [] {
      DedupeTables(body[1..], key, line, found);
      DedupeTables(body[1..], key, line, true);
    }
  }

  lemma {:induction false} EditBodyTables(body: seq<string>, key: string, line: string)
    requires NoTables(body) && !OpensTable(line)
    ensures NoTables(EditBody(body, key, line))
  {
    DedupeTables(body, key, line, false);
  }

  lemma {:induction false} OwnParts(a: seq<string>, hl: string, b: seq<string>, c: seq<string>, h: string)
    requires NoHeader(a, h) && IsHeaderOf(hl, h) && NoTables(b) && AtBoundary(c)
    ensures Table((a + [hl]) + (b + c), h) == Some(b)
  {
    assert (a + [hl]) + (b + c) == a + ([hl] + (b + c));
    TablePast(a, [hl] + (b + c), h);
    TableHere(hl, b, c, h);
  }

  lemma {:induction false} OtherParts(a: seq<string>, hl: string, b: seq<string>, c: seq<string>, h: string)
    requires OpensTable(hl) && OpensHeader(h) && !IsHeaderOf(hl, h) && NoTables(b) && AtBoundary(c)
    ensures Table((a + [hl]) + (b + c), h) == if Table(a, h).Some? then Table(a, h) else Table(c, h)
  {
    assert (a + [hl]) + (b + c) == a + (([hl] + b) + c);
    TableConcat(a, ([hl] + b) + c, h);
    TableConcat([hl] + b, c, h);
    NotHere(hl, b, h);
  }

  lemma {:induction false} EndParts(rest: seq<string>) returns (b: seq<string>, c: seq<string>)
    ensures b == rest[..TableEnd(rest)] && c == rest[TableEnd(rest)..] && rest == b + c
    ensures NoTables(b) && AtBoundary(c)
  {
    b, c := rest[..TableEnd(rest)], rest[TableEnd(rest)..];
  }

  lemma {:induction false} HeaderParts(lines: seq<string>, h: string) returns (s: nat)
    requires FindHeader(lines, h) < |lines|
    ensures s == FindHeader(lines, h) < |lines| && NoHeader(lines[..s], h) && IsHeaderOf(lines[s], h)
    ensures lines[..s + 1] == lines[..s] + [lines[s]] && lines == (lines[..s] + [lines[s]]) + lines[s + 1..]
  {
    s := FindHeader(lines, h);
  }

  /** The lines before the header, the header, the table's body and the lines behind it. */
  lemma {:induction false} TableParts(lines: seq<string>, h: string)
    returns (a: seq<string>, hl: string, b: seq<string>, c: seq<string>)
    requires FindHeader(lines, h) < |lines|
    ensures lines == (a + [hl]) + (b + c) && |a| == FindHeader(lines, h) && hl == lines[|a|]
    ensures b == lines[|a| + 1..][..TableEnd(lines[|a| + 1..])] && c == lines[|a| + 1..][|b|..]
    ensures NoHeader(a, h) && IsHeaderOf(hl, h) && NoTables(b) && AtBoundary(c)
  {
    var s := HeaderParts(lines, h);
    b, c := EndParts(lines[s + 1..]);
    a, hl := lines[..s], lines[s];
  }

  /** The four parts an edit sees, before and after. */
  lemma {:induction false} EditedParts(lines: seq<string>, h: string, key: string, line: string)
    returns (a: seq<string>, hl: string, b: seq<string>, c: seq<string>)
    requires FindHeader(lines, h) < |lines|
    ensures lines == (a + [hl]) + (b + c)
    ensures EditTable(lines, h, key, line) == (a + [hl]) + (EditBody(b, key, line) + c)
    ensures NoHeader(a, h) && IsHeaderOf(hl, h) && NoTables(b) && AtBoundary(c)
  {
    var s := HeaderParts(lines, h);
    b, c := EndParts(lines[s + 1..]);
    a, hl := lines[..s], lines[s];
    EditFromIs(lines, s + 1, key, line, |b|, (a + [hl]) + (EditBody(b, key, line) + c));
  }

  /** The edited table's body is the edited body. */
  lemma {:induction false} EditTableOwn(lines: seq<string>, h: string, key: string, line: string)
    requires FindHeader(lines, h) < |lines| && !OpensTable(line)
    ensures Table(lines, h).Some?
    ensures Table(EditTable(lines, h, key, line), h) == Some(EditBody(Table(lines, h).value, key, line))
  {
    var a, hl, b, c := EditedParts(lines, h, key, line);
    EditBodyTables(b, key, line);
    OwnParts(a, hl, b, c, h);
    OwnParts(a, hl, EditBody(b, key, line), c, h);
  }

  /** Every other table keeps its very lines. */
  lemma {:induction false} EditTableOther(lines: seq<string>, h: string, key: string, line: string, other: string)
    requires OpensHeader(h) && OpensHeader(other) && other != h
    requires FindHeader(lines, h) < |lines| && !OpensTable(line)
    ensures Table(EditTable(lines, h, key, line), other) == Table(lines, other)
  {
    var a, hl, b, c := EditedParts(lines, h, key, line);
    EditBodyTables(b, key, line);
    OtherParts(a, hl, b, c, other);
    OtherParts(a, hl, EditBody(b, key, line), c, other);
  }

  // ----- readings depend on trimmed lines only

  predicate SameTrims(a: seq<string>, b: seq<string>) {
    |a| == |b| && forall i :: 0 <= i < |a| ==> Trim(a[i]) == Trim(b[i])
  }

  lemma {:induction false} TableTrims(a: seq<string>, b: seq<string>, h: string)
    requires SameTrims(a, b)
    ensures Table(a, h).Some? <==> Table(b, h).Some?
    ensures Table(a, h).Some? ==> SameTrims(Table(a, h).value, Table(b, h).value)
  {
    if a != [] {
      assert SameTrims(a[1..], b[1..]);
      assert Trim(a[0]) == Trim(b[0]);
      TableEndTrims(a[1..], b[1..]);
      TableTrims(a[1..], b[1..], h);
    }
  }

  lemma {:induction false} TableEndTrims(a: seq<string>, b: seq<string>)
    requires SameTrims(a, b)
    ensures TableEnd(a) == TableEnd(b)
  {
    if a != [] {
      assert SameTrims(a[1..], b[1..]);
      assert Trim(a[0]) == Trim(b[0]);
      TableEndTrims(a[1..], b[1..]);
    }
  }

  lemma {:induction false} FirstEnabledTrims(a: seq<string>, b: seq<string>)
    requires SameTrims(a, b)
    ensures FirstEnabled(a) == FirstEnabled(b)
  {
    if a != [] {
      assert SameTrims(a[1..], b[1..]);
      assert Trim(a[0]) == Trim(b[0]);
      FirstEnabledTrims(a[1..], b[1..]);
    }
  }

  /** The same tables are there, and they read the same. */
  predicate SameLook(a: seq<string>, b: seq<string>, h: string) {
    (Table(a, h).Some? <==> Table(b, h).Some?) && Reading(a, h) == Reading(b, h)
  }

  lemma {:induction false} LookTrims(a: seq<string>, b: seq<string>, h: string)
    requires SameTrims(a, b)
    ensures SameLook(a, b, h)
  {
    TableTrims(a, b, h);
    if Table(a, h).Some? { FirstEnabledTrims(Table(a, h).value, Table(b, h).value); }
  }

  lemma {:induction false} TrimChop(l: string)
    ensures Trim(Chop(l)) == Trim(l)
  {
    if EndsInCr(l) {
      assert l == "" + Chop(l) + "\r";
      TrimAbsorbs("", Chop(l), "\r");
    }
  }

  lemma {:induction false} LookChopped(lines: seq<string>, h: string)
    ensures SameLook(ChopInit(lines), lines, h)
  {
    forall i | 0 <= i < |lines| ensures Trim(ChopInit(lines)[i]) == Trim(lines[i]) { TrimChop(lines[i]); }
    LookTrims(ChopInit(lines), lines, h);
  }

  // ----- a blank line at the end

  lemma {:induction false} BlankLine(l: string)
    requires Trim(l) == ""
    ensures !OpensTable(l) && !SetsKey(l, "enabled") && EnabledValue(l).None?
  {
  }

  /** The lines end inside the first table with this header. */
  predicate EndsInside(a: seq<string>, h: string) {
    a != [] && if IsHeaderOf(a[0], h) then NoTables(a[1..]) else EndsInside(a[1..], h)
  }

  lemma {:induction false} TableSnoc(a: seq<string>, l: string, h: string)
    requires OpensHeader(h) && !OpensTable(l)
    ensures EndsInside(a, h) ==> Table(a, h).Some? && Table(a + [l], h) == Some(Table(a, h).value + [l])
    ensures !EndsInside(a, h) ==> Table(a + [l], h) == Table(a, h)
  {
    if a == [] {
      assert a + [l] == [l] && [l][1..] == [];
    } else {
      assert (a + [l])[1..] == a[1..] + [l];
      if IsHeaderOf(a[0], h) {
        TableEndSnoc(a[1..], l);
      } else {
        TableSnoc(a[1..], l, h);
      }
    }
  }

  lemma {:induction false} TableEndSnoc(a: seq<string>, l: string)
    requires !OpensTable(l)
    ensures (a + [l])[..TableEnd(a + [l])] == if NoTables(a) then a[..TableEnd(a)] + [l] else a[..TableEnd(a)]
  {
    if NoTables(a) {
      NoTablesEnd(a);
      NoTablesEnd(a + [l]);
      assert (a + [l])[..|a| + 1] == a + [l] && a[..|a|] == a;
    } else {
      TableEndInside(a, [l]);
      assert (a + [l])[..TableEnd(a)] == a[..TableEnd(a)];
    }
  }

  lemma {:induction false} TableEndInside(a: seq<string>, b: seq<string>)
    requires !NoTables(a)
    ensures TableEnd(a + b) == TableEnd(a)
  {
    if !OpensTable(a[0]) {
      assert (a + b)[1..] == a[1..] + b;
      var i :| 0 <= i < |a| && OpensTable(a[i]);
      assert a[1..][i - 1] == a[i];
      TableEndInside(a[1..], b);
    }
  }

  lemma {:induction false} FirstEnabledSnoc(a: seq<string>, l: string)
    requires EnabledValue(l).None?
    ensures FirstEnabled(a + [l]) == FirstEnabled(a)
  {
    if a == [] {
      assert a + [l] == [l] && [l][1..] == [];
    } else {
      assert (a + [l])[1..] == a[1..] + [l];
      FirstEnabledSnoc(a[1..], l);
    }
  }

  lemma {:induction false} LookBlankTail(a: seq<string>, l: string, h: string)
    requires OpensHeader(h) && Trim(l) == ""
    ensures SameLook(a + [l], a, h)
  {
    BlankLine(l);
    TableSnoc(a, l, h);
    if EndsInside(a, h) { FirstEnabledSnoc(Table(a, h).value, l); }
  }

  // ----- from lines to text

  function StripEmpty(lines: seq<string>): (r: seq<string>)
    ensures r <= lines
    ensures r != [] ==> r[|r| - 1] != ""
  {
    if lines != [] && lines[|lines| - 1] == "" then StripEmpty(lines[..|lines| - 1]) else lines
  }

  lemma {:induction false} LookStripped(lines: seq<string>, h: string)
    requires OpensHeader(h)
    ensures SameLook(StripEmpty(lines), lines, h)
  {
    if lines != [] && lines[|lines| - 1] == "" {
      var n := |lines| - 1;
      assert lines == lines[..n] + [""];
      LookBlankTail(lines[..n], "", h);
      LookStripped(lines[..n], h);
    }
  }

  lemma {:induction false} JoinEndsIn(lines: seq<string>)
    requires lines != [] && AllLines(lines) && lines[|lines| - 1] != ""
    ensures var s := Join(lines, LF); s != "" && s[|s| - 1] != '\n'
  {
    var n := |lines| - 1;
    assert lines[n] in lines;
    NoFeed(lines[n]);
    if n > 0 {
      assert lines == lines[..n] + [lines[n]];
      JoinConcat(lines[..n], [lines[n]], LF);
    }
  }

  lemma {:induction false} StripFeedsJoined(lines: seq<string>)
    requires AllLines(lines) && StripEmpty(lines) != []
    ensures StripFeeds(Join(lines, LF)) == Join(StripEmpty(lines), LF)
  {
    var n := |lines| - 1;
    if lines[n] == "" {
      var front := lines[..n];
      assert lines == front + [""];
      JoinConcat(front, [""], LF);
      var s := Join(lines, LF);
      assert s == Join(front, LF) + LF;
      assert s[..|s| - 1] == Join(front, LF);
      StripFeedsJoined(front);
    } else {
      JoinEndsIn(lines);
    }
  }

  lemma {:induction false} FinalFeedJoined(lines: seq<string>)
    requires AllLines(lines) && StripEmpty(lines) != []
    ensures OneFinalFeed(Join(lines, LF)) == Join(StripEmpty(lines) + [""], LF)
  {
    StripFeedsJoined(lines);
    JoinConcat(StripEmpty(lines), [""], LF);
    assert Join(StripEmpty(lines), LF) + LF + "" == Join(StripEmpty(lines), LF) + LF;
  }

  // ----- the result of one upsert, as lines

  /** What the text of an upsert with `create` is joined from. */
  function ResultLines(config: string, h: string, key: string, value: bool): seq<string> {
    var lines, line := SplitLines(config), KeyLine(key, value);
    if FindHeader(lines, h) < |lines| then StripEmpty(EditTable(lines, h, key, line)) + [""]
    else BaseLines(config) + [h, line, ""]
  }

  /** The text before a new table: its lines and one empty one, or nothing. */
  function BaseLines(config: string): seq<string> {
    if TrimEnd(config) == "" then [] else SplitLf(TrimEnd(config), "") + [""]
  }

  lemma {:induction false} StripKeepsFilled(lines: seq<string>, i: nat)
    requires i < |lines| && lines[i] != ""
    ensures i < |StripEmpty(lines)|
  {
    if lines[|lines| - 1] == "" { StripKeepsFilled(lines[..|lines| - 1], i); }
  }

  /** No line holds the character. */
  predicate Free(lines: seq<string>, c: char) {
    forall l :: l in lines ==> c !in l
  }

  lemma {:induction false} DedupeFree(body: seq<string>, key: string, line: string, found: bool, c: char)
    requires Free(body, c) && c !in line
    ensures Free(Dedupe(body, key, line, found), c)
  {
    if body != [] {
      assert body[0] in body && forall l :: l in body[1..] ==> l in body;
      DedupeFree(body[1..], key, line, found, c);
      DedupeFree(body[1..], key, line, true, c);
    }
  }

  lemma {:induction false} FreeConcat(a: seq<string>, b: seq<string>, c: char)
    ensures Free(a + b, c) <==> Free(a, c) && Free(b, c)
  {
    assert forall l :: l in a + b <==> l in a || l in b;
  }

  lemma {:induction false} EditBodyFree(body: seq<string>, key: string, line: string, c: char)
    requires c !in line && Free(body, c)
    ensures Free(EditBody(body, key, line), c)
  {
    DedupeFree(body, key, line, false, c);
    FreeConcat([line], body, c);
  }

  lemma {:induction false} EditTableFree(lines: seq<string>, h: string, key: string, line: string, c: char)
    requires FindHeader(lines, h) < |lines| && Free(lines, c) && c !in line
    ensures Free(EditTable(lines, h, key, line), c)
  {
    var a, hl, b, d := EditedParts(lines, h, key, line);
    FreeConcat(a + [hl], b + d, c);
    FreeConcat(b, d, c);
    EditBodyFree(b, key, line, c);
    FreeConcat(EditBody(b, key, line), d, c);
    FreeConcat(a + [hl], EditBody(b, key, line) + d, c);
  }

  lemma {:induction false} EditTableFilled(lines: seq<string>, h: string, key: string, line: string)
    requires FindHeader(lines, h) < |lines| && h != ""
    ensures StripEmpty(EditTable(lines, h, key, line)) != []
  {
    var a, hl, b, c := EditedParts(lines, h, key, line);
    assert Trim("") == "";
    var edited := (a + [hl]) + (EditBody(b, key, line) + c);
    assert edited[|a|] == hl;
    StripKeepsFilled(edited, |a|);
  }

  lemma {:induction false} JoinThree(x: string, y: string)
    ensures Join([x, y, ""], LF) == x + LF + (y + LF + "")
  {
    assert [x, y, ""][1..] == [y, ""];
    assert [y, ""][1..] == [""];
    assert Join([y, ""], LF) == y + LF + "";
  }

  lemma {:induction false} CreatedAfter(p: seq<string>, h: string, line: string)
    requires p != []
    ensures Join(p + [""] + [h, line, ""], LF) == Join(p, LF) + "\n\n" + h + "\n" + line + "\n"
  {
    JoinThree(h, line);
    JoinConcat(p, [""], LF);
    JoinConcat(p + [""], [h, line, ""], LF);
    assert Join(p, LF) + LF + "" + LF + (h + LF + (line + LF + "")) == Join(p, LF) + "\n\n" + h + "\n" + line + "\n";
  }

  lemma {:induction false} CreatedJoins(config: string, h: string, line: string)
    requires ValidHeader(h) && Line(line)
    ensures var r := BaseLines(config) + [h, line, ""]; AllLines(r) && WithTable(config, h, line) == Join(r, LF)
  {
    var base := TrimEnd(config);
    var p := SplitLf(base, "");
    SplitLfAreLines(base, "");
    FreeConcat(p, [""], '\n');
    FreeConcat(BaseLines(config), [h, line, ""], '\n');
    if base == "" {
      JoinThree(h, line);
      assert [] + [h, line, ""] == [h, line, ""];
      assert "" + h + "\n" + line + "\n" == h + LF + (line + LF + "");
    } else {
      JoinSplitLf(base, "");
      assert "" + base == base;
      CreatedAfter(p, h, line);
    }
  }

  lemma {:induction false} EditedJoins(lines: seq<string>, h: string, key: string, line: string)
    requires FindHeader(lines, h) < |lines| && h != "" && AllLines(lines) && Line(line)
    ensures var r := StripEmpty(EditTable(lines, h, key, line)) + [""];
            && AllLines(r) && |r| >= 2
            && OneFinalFeed(Join(EditTable(lines, h, key, line), LF)) == Join(r, LF)
  {
    EditTableFree(lines, h, key, line, '\n');
    EditTableFilled(lines, h, key, line);
    var edited := EditTable(lines, h, key, line);
    FinalFeedJoined(edited);
    assert forall l :: l in StripEmpty(edited) ==> l in edited;
    FreeConcat(StripEmpty(edited), [""], '\n');
  }

  lemma {:induction false} UpsertJoins(config: string, h: string, key: string, value: bool)
    requires ValidHeader(h) && Line(key)
    ensures var r := ResultLines(config, h, key, value);
            && AllLines(r) && |r| >= 2 && r[|r| - 1] == ""
            && Upsert(config, h, key, value, true) == Join(r, LF)
  {
    SplitAreLines(config);
    if FindHeader(SplitLines(config), h) < |SplitLines(config)| {
      EditedJoins(SplitLines(config), h, key, KeyLine(key, value));
    } else {
      CreatedJoins(config, h, KeyLine(key, value));
    }
  }

  // ----- blanks at the end of the text

  lemma {:induction false} SplitSnoc(s: string, c: char, cur: string)
    ensures var p := SplitLf(s, cur);
            SplitLf(s + [c], cur) == if c == '\n' then p + [""] else p[..|p| - 1] + [p[|p| - 1] + [c]]
  {
    if s == "" {
      assert s + [c] == [c] && [c][1..] == "";
      assert [cur][..0] + [cur + [c]] == [cur + [c]];
      assert [cur] + [""] == [cur, ""];
    } else {
      assert (s + [c])[1..] == s[1..] + [c];
      if s[0] == '\n' {
        SplitSnoc(s[1..], c, "");
        var q := SplitLf(s[1..], "");
        assert ([cur] + q)[..|q|] == [cur] + q[..|q| - 1];
      } else {
        SplitSnoc(s[1..], c, cur + [s[0]]);
      }
    }
  }

  lemma {:induction false} LookSnoc(s: string, c: char, h: string)
    requires OpensHeader(h) && IsSpace(c)
    ensures SameLook(SplitLf(s + [c], ""), SplitLf(s, ""), h)
  {
    var p := SplitLf(s, "");
    var n := |p| - 1;
    SplitSnoc(s, c, "");
    if c == '\n' {
      assert Trim("") == "";
      LookBlankTail(p, "", h);
    } else {
      var q := p[..n] + [p[n] + [c]];
      assert "" + p[n] + [c] == p[n] + [c];
      TrimAbsorbs("", p[n], [c]);
      LookTrims(q, p, h);
    }
  }

  lemma {:induction false} LookTrimEnd(s: string, h: string)
    requires OpensHeader(h)
    ensures SameLook(SplitLf(TrimEnd(s), ""), SplitLf(s, ""), h)
  {
    if s != "" && IsSpace(s[|s| - 1]) {
      var n := |s| - 1;
      assert s == s[..n] + [s[n]];
      LookSnoc(s[..n], s[n], h);
      LookTrimEnd(s[..n], h);
    }
  }

  lemma {:induction false} LookBase(config: string, h: string)
    requires OpensHeader(h)
    ensures SameLook(BaseLines(config), SplitLines(config), h)
  {
    LookTrimEnd(config, h);
    LookChopped(SplitLf(config, ""), h);
    var p := SplitLf(TrimEnd(config), "");
    assert Trim("") == "";
    if TrimEnd(config) != "" {
      LookBlankTail(p, "", h);
    } else {
      LookBlankTail([], "", h);
      assert [] + [""] == p;
    }
  }

  // ----- reading what was switched

  lemma {:induction false} AfterOwnKey(key: string, word: string)
    requires key != "" && !IsSpace(key[0]) && word != "" && !IsSpace(word[0]) && !IsSpace(word[|word| - 1])
    ensures var line := key + (" = " + word);
            Trim(line) == line && AfterKey(line, key) == Some(" " + word) && Trim(" " + word) == word
  {
    var line := key + (" = " + word);
    TrimNothing(line);
    assert key <= line && line[|key|..] == " = " + word;
    EqualsThenWord(word);
  }

  lemma {:induction false} EqualsThenWord(word: string)
    requires word != "" && !IsSpace(word[0]) && !IsSpace(word[|word| - 1])
    ensures TrimStart(" = " + word) == "= " + word && ("= " + word)[1..] == " " + word && Trim(" " + word) == word
  {
    assert " " + ("= " + word) == " = " + word;
    TrimStartAt(" ", "= " + word);
    assert " " + word + "" == " " + word;
    TrimBetween(" ", word, "");
  }

  lemma {:induction false} KeyLineReads(value: bool)
    ensures var line := KeyLine("enabled", value);
            && Trim(line) == line && line != "" && Line(line) && !EndsInCr(line)
            && !OpensTable(line) && SetsKey(line, "enabled") && EnabledValue(line) == Some(value)
  {
    var word := if value then "true" else "false";
    AfterOwnKey("enabled", word);
    assert KeyLine("enabled", value) == "enabled" + (" = " + word);
    KeyLineChars("enabled", word);
  }

  lemma {:induction false} KeyLineChars(key: string, word: string)
    requires key != "" && key[0] != '[' && Line(key) && word != "" && Line(word) && word[|word| - 1] != '\r'
    ensures var line := key + (" = " + word); line != "" && line[0] == key[0] != '[' && Line(line) && !EndsInCr(line)
  {
    var line := key + (" = " + word);
    assert line[|line| - 1] == word[|word| - 1];
  }

  lemma {:induction false} DedupeReads(body: seq<string>, value: bool)
    requires HasKey(body, "enabled")
    ensures FirstEnabled(Dedupe(body, "enabled", KeyLine("enabled", value), false)) == Some(value)
  {
    KeyLineReads(value);
    if !SetsKey(body[0], "enabled") {
      HasKeyStep(body, "enabled");
      DedupeReads(body[1..], value);
    }
  }

  lemma {:induction false} EditBodyReads(body: seq<string>, value: bool)
    ensures FirstEnabled(EditBody(body, "enabled", KeyLine("enabled", value))) == Some(value)
  {
    KeyLineReads(value);
    if HasKey(body, "enabled") { DedupeReads(body, value); }
  }

  /** The table a new header starts. */
  lemma {:induction false} NewTable(h: string, line: string, other: string)
    requires ValidHeader(h) && OpensHeader(other) && !OpensTable(line)
    ensures OpensTable(h) && IsHeaderOf(h, h)
    ensures Table([h, line, ""], other) == if other == h then Some([line, ""]) else None
  {
    TrimNothing(h);
    assert Trim("") == "";
    assert [h, line, ""] == [h] + [line, ""] && [line, ""] + [] == [line, ""];
    if other == h {
      TableHere(h, [line, ""], [], h);
    } else {
      NotHere(h, [line, ""], other);
    }
  }

  /** What any valid header finds in the result of an upsert. */
  lemma {:induction false} ResultLook(config: string, h: string, value: bool, other: string)
    requires ValidHeader(h) && ValidHeader(other)
    ensures var r := ResultLines(config, h, "enabled", value);
            if other == h then Reading(r, h) == Some(value) else SameLook(r, SplitLines(config), other)
  {
    var lines, line := SplitLines(config), KeyLine("enabled", value);
    KeyLineReads(value);
    TableAt(lines, h);
    if FindHeader(lines, h) < |lines| {
      var edited := EditTable(lines, h, "enabled", line);
      assert Trim("") == "";
      LookBlankTail(StripEmpty(edited), "", other);
      LookStripped(edited, other);
      if other == h {
        EditTableOwn(lines, h, "enabled", line);
        EditBodyReads(Table(lines, h).value, value);
      } else {
        EditTableOther(lines, h, "enabled", line, other);
      }
    } else {
      NewTable(h, line, other);
      LookBase(config, other);
      TableConcat(BaseLines(config), [h, line, ""], other);
    }
  }

  function ReadText(config: string, h: string): Option<bool> {
    Reading(SplitLines(config), h)
  }

  lemma {:induction false} UpsertLook(config: string, h: string, value: bool, other: string)
    requires ValidHeader(h) && ValidHeader(other)
    ensures var out := Upsert(config, h, "enabled", value, true);
            if other == h then ReadText(out, h) == Some(value)
            else SameLook(SplitLines(out), SplitLines(config), other)
  {
    var r := ResultLines(config, h, "enabled", value);
    UpsertJoins(config, h, "enabled", value);
    SplitJoined(r);
    LookChopped(r, other);
    ResultLook(config, h, value, other);
  }

  /** Reading a table gives what it was switched to, on every text. */
  lemma UpsertReads(config: string, h: string, value: bool)
    requires ValidHeader(h)
    ensures ReadText(Upsert(config, h, "enabled", value, true), h) == Some(value)
  {
    UpsertLook(config, h, value, h);
  }

  /** Switching one table changes no other table's reading, on every text. */
  lemma UpsertLeavesOthers(config: string, h: string, value: bool, other: string)
    requires ValidHeader(h) && ValidHeader(other) && other != h
    ensures ReadText(Upsert(config, h, "enabled", value, true), other) == ReadText(config, other)
  {
    UpsertLook(config, h, value, other);
  }
}
