/** What switching a plugin table does to the rest of the text. */
module PluginText {
  import opened Wrappers
  import opened Text
  import opened Lines
  import opened PluginTable
  import opened PluginLens

  // ----- the lines around the table

  /** The lines up to and with the header. */
  function Front(lines: seq<string>, h: string): seq<string>
    requires FindHeader(lines, h) < |lines|
  {
    lines[..FindHeader(lines, h) + 1]
  }

  function Body(lines: seq<string>, h: string): seq<string>
    requires FindHeader(lines, h) < |lines|
  {
    var rest := lines[FindHeader(lines, h) + 1..];
    rest[..TableEnd(rest)]
  }

  /** The lines from the next table on. */
  function Back(lines: seq<string>, h: string): seq<string>
    requires FindHeader(lines, h) < |lines|
  {
    var rest := lines[FindHeader(lines, h) + 1..];
    rest[TableEnd(rest)..]
  }

  function ChopAll(lines: seq<string>): (r: seq<string>)
    ensures |r| == |lines|
  {
    seq(|lines|, i requires 0 <= i < |lines| => Chop(lines[i]))
  }

  lemma {:induction false} ChopAllConcat(a: seq<string>, b: seq<string>)
    ensures ChopAll(a + b) == ChopAll(a) + ChopAll(b)
  {
  }

  lemma {:induction false} ChopAllNoCr(lines: seq<string>)
    ensures ChopAll(lines) == lines <==> NoCr(lines)
  {
    forall i | 0 <= i < |lines| ensures Chop(lines[i]) == lines[i] <==> !EndsInCr(lines[i]) {
      if EndsInCr(lines[i]) { assert |Chop(lines[i])| < |lines[i]|; }
    }
    if ChopAll(lines) == lines {
      forall i | 0 <= i < |lines| ensures !EndsInCr(lines[i]) { assert ChopAll(lines)[i] == lines[i]; }
    }
  }

  lemma {:induction false} ChopInitSnoc(lines: seq<string>)
    ensures ChopInit(lines + [""]) == ChopAll(lines) + [""]
  {
  }

  lemma {:induction false} FindAt(a: seq<string>, hl: string, rest: seq<string>, h: string)
    requires NoHeader(a, h) && IsHeaderOf(hl, h)
    ensures FindHeader((a + [hl]) + rest, h) == |a|
  {
    var all := (a + [hl]) + rest;
    var i := FindHeader(all, h);
    assert all[|a|] == hl && forall k :: 0 <= k < |a| ==> all[k] == a[k];
  }

  lemma {:induction false} EndAt(b: seq<string>, c: seq<string>)
    requires NoTables(b) && AtBoundary(c)
    ensures TableEnd(b + c) == |b|
  {
    assert forall k :: 0 <= k < |b| ==> (b + c)[k] == b[k];
    assert c != [] ==> (b + c)[|b|] == c[0];
  }

  lemma {:induction false} PartsAre(lines: seq<string>, a: seq<string>, hl: string, b: seq<string>, c: seq<string>, h: string)
    requires lines == (a + [hl]) + (b + c)
    requires NoHeader(a, h) && IsHeaderOf(hl, h) && NoTables(b) && AtBoundary(c)
    ensures FindHeader(lines, h) == |a| < |lines|
    ensures Front(lines, h) == a + [hl] && Body(lines, h) == b && Back(lines, h) == c
  {
    FindAt(a, hl, b + c, h);
    EndAt(b, c);
    assert lines[|a| + 1..] == b + c;
  }

  lemma {:induction false} ChoppedLooks(a: seq<string>, h: string)
    ensures NoHeader(a, h) ==> NoHeader(ChopAll(a), h)
    ensures NoTables(a) ==> NoTables(ChopAll(a))
    ensures AtBoundary(a) ==> AtBoundary(ChopAll(a))
  {
    forall i | 0 <= i < |a| ensures Trim(ChopAll(a)[i]) == Trim(a[i]) { TrimChop(a[i]); }
  }

  lemma {:induction false} StripConcat(a: seq<string>, b: seq<string>)
    ensures StripEmpty(a + b) == if StripEmpty(b) != [] then a + StripEmpty(b) else StripEmpty(a)
  {
    if b == [] {
      assert a + b == a;
    } else {
      var n := |b| - 1;
      assert (a + b)[|a + b| - 1] == b[n] && (a + b)[..|a + b| - 1] == a + b[..n];
      if b[n] == "" { StripConcat(a, b[..n]); }
    }
  }

  lemma {:induction false} StripLooks(b: seq<string>)
    requires NoTables(b)
    ensures NoTables(ChopAll(StripEmpty(b)) + [""])
  {
    var s := StripEmpty(b);
    assert forall i :: 0 <= i < |s| ==> s[i] == b[i];
    ChoppedLooks(s, "");
    assert Trim("") == "";
  }

  lemma {:induction false} StripStarts(c: seq<string>)
    requires c != [] && AtBoundary(c)
    ensures StripEmpty(c) != [] && AtBoundary(ChopAll(StripEmpty(c)) + [""])
  {
    assert Trim("") == "";
    StripKeepsFilled(c, 0);
    ChoppedLooks(StripEmpty(c), "");
  }

  /** The lines of the result when the table is the last one. */
  lemma {:induction false} LastParts(a: seq<string>, hl: string, b: seq<string>, h: string, o: seq<string>)
    requires NoHeader(a, h) && IsHeaderOf(hl, h) && NoTables(b) && hl != ""
    requires o == ChopInit(StripEmpty((a + [hl]) + b) + [""])
    ensures FindHeader(o, h) < |o|
    ensures Front(o, h) == ChopAll(a + [hl]) && Body(o, h) == ChopAll(StripEmpty(b)) + [""] && Back(o, h) == []
  {
    var front := a + [hl];
    StripConcat(front, b);
    assert StripEmpty(front) == front && front + [] == front;
    ChopInitSnoc(front + StripEmpty(b));
    ChopAllConcat(front, StripEmpty(b));
    FrontChopped(a, hl, h);
    StripLooks(b);
    RegroupLast(ChopAll(front), ChopAll(StripEmpty(b)));
    PartsAre(o, ChopAll(a), Chop(hl), ChopAll(StripEmpty(b)) + [""], [], h);
  }

  lemma {:induction false} RegroupLast(a: seq<string>, b: seq<string>)
    ensures (a + b) + [""] == a + ((b + [""]) + [])
  {
  }

  /** ... and when another follows. */
  lemma {:induction false} InnerParts(a: seq<string>, hl: string, b: seq<string>, c: seq<string>, h: string, o: seq<string>)
    requires NoHeader(a, h) && IsHeaderOf(hl, h) && NoTables(b) && AtBoundary(c) && c != []
    requires o == ChopInit(StripEmpty((a + [hl]) + (b + c)) + [""])
    ensures FindHeader(o, h) < |o|
    ensures Front(o, h) == ChopAll(a + [hl]) && Body(o, h) == ChopAll(b) && Back(o, h) == ChopAll(StripEmpty(c)) + [""]
  {
    var front := a + [hl];
    StripStarts(c);
    StripConcat(front, b + c);
    StripConcat(b, c);
    ChopInitSnoc(front + (b + StripEmpty(c)));
    ChopAllConcat(front, b + StripEmpty(c));
    ChopAllConcat(b, StripEmpty(c));
    FrontChopped(a, hl, h);
    ChoppedLooks(b, h);
    Regroup(ChopAll(front), ChopAll(b), ChopAll(StripEmpty(c)));
    PartsAre(o, ChopAll(a), Chop(hl), ChopAll(b), ChopAll(StripEmpty(c)) + [""], h);
  }

  lemma {:induction false} Regroup(a: seq<string>, b: seq<string>, c: seq<string>)
    ensures (a + (b + c)) + [""] == a + (b + (c + [""]))
  {
  }

  lemma {:induction false} FrontChopped(a: seq<string>, hl: string, h: string)
    requires NoHeader(a, h) && IsHeaderOf(hl, h)
    ensures ChopAll(a + [hl]) == ChopAll(a) + [Chop(hl)] && NoHeader(ChopAll(a), h) && IsHeaderOf(Chop(hl), h)
  {
    ChoppedLooks(a, h);
    TrimChop(hl);
  }

  /** Switching a table that is there, line by line of the text that comes out: in front of its body nothing changes but
      a stray carriage return at a line's end; its body is the edited one; and from the next table on, again but for
      stray carriage returns, only empty lines at the end are added or dropped so that there is exactly one line feed. */
  lemma {:induction false} EditedText(config: string, h: string, value: bool)
    requires ValidHeader(h) && FindHeader(SplitLines(config), h) < |SplitLines(config)|
    ensures var l, o := SplitLines(config), SplitLines(Upsert(config, h, "enabled", value, true));
            var b := EditBody(Body(l, h), "enabled", KeyLine("enabled", value));
            && FindHeader(o, h) < |o|
            && Front(o, h) == ChopAll(Front(l, h))
            && Body(o, h) == (if Back(l, h) == [] then ChopAll(StripEmpty(b)) + [""] else ChopAll(b))
            && Back(o, h) == (if Back(l, h) == [] then [] else ChopAll(StripEmpty(Back(l, h))) + [""])
  {
    var l, line := SplitLines(config), KeyLine("enabled", value);
    var a, hl, b, c := EditedParts(l, h, "enabled", line);
    KeyLineReads(value);
    EditBodyTables(b, "enabled", line);
    PartsAre(l, a, hl, b, c, h);
    UpsertJoins(config, h, "enabled", value);
    SplitJoined(ResultLines(config, h, "enabled", value));
    assert hl != "" by { assert Trim("") == ""; }
    var o := SplitLines(Upsert(config, h, "enabled", value, true));
    if c == [] {
      assert EditBody(b, "enabled", line) + c == EditBody(b, "enabled", line);
      LastParts(a, hl, EditBody(b, "enabled", line), h, o);
    } else {
      InnerParts(a, hl, EditBody(b, "enabled", line), c, h, o);
    }
  }

  /** The last line is empty and the one before is not: the text ends in one line feed. */
  predicate OneFeed(lines: seq<string>) {
    |lines| >= 2 && lines[|lines| - 1] == "" && lines[|lines| - 2] != ""
  }

  lemma {:induction false} ClosedIff(c: seq<string>)
    requires StripEmpty(c) != []
    ensures ChopAll(StripEmpty(c)) + [""] == c <==> NoCr(c) && OneFeed(c)
  {
    var s := StripEmpty(c);
    if |c| == |s| + 1 {
      assert c == s + [c[|s|]];
      ChopAllNoCr(s);
      assert NoCr(c) <==> NoCr(s) && !EndsInCr(c[|s|]);
    }
    if OneFeed(c) { StripOneFeed(c); }
  }

  lemma {:induction false} StripOneFeed(c: seq<string>)
    requires OneFeed(c)
    ensures |c| == |StripEmpty(c)| + 1
  {
    var n := |c| - 1;
    assert StripEmpty(c) == StripEmpty(c[..n]);
    assert c[..n][n - 1] != "";
  }

  /** So every line outside the table survives exactly when none of them ends in a stray carriage return and, if another
      table follows, the text ends in exactly one line feed. */
  lemma {:induction false} OutsideKeptIff(config: string, h: string, value: bool)
    requires ValidHeader(h) && FindHeader(SplitLines(config), h) < |SplitLines(config)|
    ensures var l, o := SplitLines(config), SplitLines(Upsert(config, h, "enabled", value, true));
            && FindHeader(o, h) < |o|
            && (Front(o, h) == Front(l, h) && Back(o, h) == Back(l, h) <==>
                  NoCr(Front(l, h)) && NoCr(Back(l, h)) && (Back(l, h) == [] || OneFeed(Back(l, h))))
  {
    var l := SplitLines(config);
    EditedText(config, h, value);
    ChopAllNoCr(Front(l, h));
    if Back(l, h) != [] {
      var a, hl, b, c := TableParts(l, h);
      StripStarts(c);
      ClosedIff(c);
    }
  }

  // ----- the text in front of a new table

  /** Without the blank lines at the end and the blanks at the end of the last line that stays. */
  function TrimLines(lines: seq<string>): seq<string> {
    if lines == [] then []
    else
      var n := |lines| - 1;
      if Trim(lines[n]) == "" then TrimLines(lines[..n]) else lines[..n] + [TrimEnd(lines[n])]
  }

  lemma {:induction false} TrimLinesSnoc(lines: seq<string>, l: string)
    ensures TrimLines(lines + [l]) == if Trim(l) == "" then TrimLines(lines) else lines + [TrimEnd(l)]
  {
    assert (lines + [l])[..|lines|] == lines;
  }

  lemma {:induction false} TrimLinesSame(lines: seq<string>, l: string, m: string, b: string)
    requires l == m + b && Blank(b)
    ensures TrimLines(lines + [l]) == TrimLines(lines + [m])
  {
    TrimLinesSnoc(lines, l);
    TrimLinesSnoc(lines, m);
    SameTrim(m, b);
  }

  lemma {:induction false} SameTrim(m: string, b: string)
    requires Blank(b)
    ensures Trim(m + b) == Trim(m) && TrimEnd(m + b) == TrimEnd(m)
  {
    assert "" + m + b == m + b;
    TrimAbsorbs("", m, b);
    TrimEndBlank(m, b);
  }

  lemma {:induction false} InitLast(p: seq<string>)
    requires p != []
    ensures ChopInit(p) == ChopAll(p[..|p| - 1]) + [p[|p| - 1]]
  {
  }

  lemma {:induction false} ChopForms(p: seq<string>)
    requires p != []
    ensures var n := |p| - 1;
            ChopInit(p) == ChopAll(p[..n]) + [p[n]] && ChopInit(p + [""]) == (ChopAll(p[..n]) + [Chop(p[n])]) + [""]
  {
  }

  lemma {:induction false} FeedTrimmed(front: seq<string>, l: string)
    ensures TrimLines((front + [Chop(l)]) + [""]) == TrimLines(front + [l])
  {
    TrimLinesSnoc(front + [Chop(l)], "");
    assert Trim("") == "";
    if EndsInCr(l) { TrimLinesSame(front, l, Chop(l), "\r"); }
  }

  lemma {:induction false} BlankTrimmed(p: seq<string>, c: char)
    requires p != [] && IsSpace(c)
    ensures var n := |p| - 1; TrimLines(ChopInit(p[..n] + [p[n] + [c]])) == TrimLines(ChopInit(p))
  {
    var n := |p| - 1;
    var q := p[..n] + [p[n] + [c]];
    InitLast(p);
    InitLast(q);
    assert q[..n] == p[..n];
    TrimLinesSame(ChopAll(p[..n]), p[n] + [c], p[n], [c]);
  }

  lemma {:induction false} TrimLinesBlank(s: string, c: char)
    requires IsSpace(c)
    ensures TrimLines(SplitLines(s + [c])) == TrimLines(SplitLines(s))
  {
    var p := SplitLf(s, "");
    SplitSnoc(s, c, "");
    if c == '\n' {
      ChopForms(p);
      FeedTrimmed(ChopAll(p[..|p| - 1]), p[|p| - 1]);
    } else {
      BlankTrimmed(p, c);
    }
  }

  lemma {:induction false} TrimLinesFilled(s: string, c: char)
    requires !IsSpace(c)
    ensures TrimLines(SplitLines(s + [c])) == SplitLines(s + [c])
  {
    var p := SplitLf(s, "");
    var n := |p| - 1;
    SplitSnoc(s, c, "");
    var l := p[n] + [c];
    var q := p[..n] + [l];
    InitLast(q);
    TrimLinesSnoc(ChopAll(p[..n]), l);
    assert l[|l| - 1] == c;
    FilledStays(l);
  }

  lemma {:induction false} FilledStays(l: string)
    requires l != "" && !IsSpace(l[|l| - 1])
    ensures TrimEnd(l) == l && Trim(l) != ""
  {
    var a, b := TrimSplits(l);
    assert l[|l| - 1] in l && forall c :: c in a + "" + b ==> c in a || c in b;
  }

  /** Trimming the end of a text trims its lines. */
  lemma {:induction false} TrimmedLines(s: string)
    ensures TrimLines(SplitLines(s)) == if TrimEnd(s) == "" then [] else SplitLines(TrimEnd(s))
  {
    if s == "" {
      assert SplitLines(s) == [""] && Trim("") == "";
      assert [""][..0] == [];
    } else {
      var n := |s| - 1;
      assert s == s[..n] + [s[n]];
      if IsSpace(s[n]) {
        TrimmedLines(s[..n]);
        TrimLinesBlank(s[..n], s[n]);
      } else {
        TrimLinesFilled(s[..n], s[n]);
      }
    }
  }

  lemma {:induction false} LastFilled(s: string)
    requires s != "" && !IsSpace(s[|s| - 1])
    ensures ChopAll(SplitLf(s, "")) == SplitLines(s)
    ensures var p := SplitLf(s, ""); !EndsInCr(p[|p| - 1])
  {
    var n := |s| - 1;
    assert s == s[..n] + [s[n]];
    SplitSnoc(s[..n], s[n], "");
    var p := SplitLf(s, "");
    assert p[|p| - 1][|p[|p| - 1]| - 1] == s[n];
  }

  /** Switching a table that is not there: the text comes out with the blanks at its end trimmed and, behind an empty
      line, the new table. */
  lemma {:induction false} CreatedText(config: string, h: string, value: bool)
    requires ValidHeader(h) && FindHeader(SplitLines(config), h) == |SplitLines(config)|
    ensures var kept := TrimLines(SplitLines(config));
            SplitLines(Upsert(config, h, "enabled", value, true)) ==
              (if kept == [] then [] else kept + [""]) + [h, KeyLine("enabled", value), ""]
  {
    UpsertJoins(config, h, "enabled", value);
    SplitJoined(ResultLines(config, h, "enabled", value));
    KeyLineReads(value);
    BaseChopped(config);
    TableChopped(BaseLines(config), h, KeyLine("enabled", value));
  }

  lemma {:induction false} TableChopped(front: seq<string>, h: string, line: string)
    requires !EndsInCr(h) && !EndsInCr(line)
    ensures ChopInit(front + [h, line, ""]) == ChopAll(front) + [h, line, ""]
  {
    assert front + [h, line, ""] == (front + [h, line]) + [""];
    ChopInitSnoc(front + [h, line]);
    ChopAllConcat(front, [h, line]);
    assert ChopAll([h, line]) == [h, line];
  }

  lemma {:induction false} BaseChopped(config: string)
    ensures var kept := TrimLines(SplitLines(config));
            ChopAll(BaseLines(config)) == if kept == [] then [] else kept + [""]
  {
    var base := TrimEnd(config);
    TrimmedLines(config);
    if base != "" {
      LastFilled(base);
      ChopAllConcat(SplitLf(base, ""), [""]);
      assert ChopAll([""]) == [""];
    }
  }

  lemma {:induction false} TrimLinesPrefix(lines: seq<string>)
    ensures var t := TrimLines(lines);
            && |t| <= |lines|
            && (t != [] ==> t[..|t| - 1] == lines[..|t| - 1] && t[|t| - 1] == TrimEnd(lines[|t| - 1]))
            && (forall i :: |t| <= i < |lines| ==> Trim(lines[i]) == "")
  {
    if lines != [] {
      var n := |lines| - 1;
      if Trim(lines[n]) == "" {
        TrimLinesPrefix(lines[..n]);
        BlankBehind(lines, TrimLines(lines[..n]), n);
      } else {
        assert (lines[..n] + [TrimEnd(lines[n])])[..n] == lines[..n];
      }
    }
  }

  lemma {:induction false} BlankBehind(lines: seq<string>, t: seq<string>, n: nat)
    requires |lines| == n + 1 && |t| <= n && Trim(lines[n]) == ""
    requires forall i :: |t| <= i < n ==> Trim(lines[..n][i]) == ""
    ensures forall i :: |t| <= i < |lines| ==> Trim(lines[i]) == ""
    ensures t != [] ==> lines[..n][..|t| - 1] == lines[..|t| - 1] && lines[..n][|t| - 1] == lines[|t| - 1]
  {
    forall i | |t| <= i < |lines| ensures Trim(lines[i]) == "" {
      if i < n { assert lines[..n][i] == lines[i]; }
    }
  }

  /** So the lines of the text all survive exactly when it is not blank and has no blanks at its end, but for at most one
      line feed. */
  lemma {:induction false} CreatedKeepsIff(config: string, h: string, value: bool)
    requires ValidHeader(h) && FindHeader(SplitLines(config), h) == |SplitLines(config)|
    ensures var l := SplitLines(config);
            l <= SplitLines(Upsert(config, h, "enabled", value, true)) <==>
              TrimLines(l) != [] && (l == TrimLines(l) || l == TrimLines(l) + [""])
  {
    var l := SplitLines(config);
    CreatedText(config, h, value);
    TrimLinesPrefix(l);
    FilledStays(h);
    if TrimLines(l) == [] {
      BlankLost(l, [h, KeyLine("enabled", value), ""]);
    } else {
      KeptBefore(l, TrimLines(l), [h, KeyLine("enabled", value), ""]);
    }
  }

  lemma {:induction false} BlankLost(l: seq<string>, table: seq<string>)
    requires l != [] && table != [] && Trim(table[0]) != "" && Trim(l[0]) == ""
    ensures !(l <= [] + table)
  {
    assert ([] + table)[0] == table[0];
  }

  lemma {:induction false} KeptBefore(l: seq<string>, t: seq<string>, table: seq<string>)
    requires t != [] && |t| <= |l| && table != [] && Trim(table[0]) != ""
    requires forall i :: |t| <= i < |l| ==> Trim(l[i]) == ""
    ensures l <= (t + [""]) + table <==> l == t || l == t + [""]
  {
    var o := (t + [""]) + table;
    var n := |t|;
    assert o[n] == "" && o[n + 1] == table[0] && o[..n] == t && o[..n + 1] == t + [""];
    if |l| > n + 1 {
      assert Trim(l[n + 1]) == "" && Trim(o[n + 1]) != "";
    } else if l <= o {
      assert l == o[..|l|];
    }
  }

  // ----- carriage returns

  /** The i-th line sets the key in the table and is overwritten or dropped. */
  predicate Overwritten(lines: seq<string>, h: string, i: nat)
    requires FindHeader(lines, h) < |lines| && i < |lines|
  {
    var from := FindHeader(lines, h) + 1;
    from <= i < from + TableEnd(lines[from..]) && SetsKey(lines[i], "enabled")
  }

  predicate Cleaned(lines: seq<string>, h: string)
    requires FindHeader(lines, h) < |lines|
  {
    forall i :: 0 <= i < |lines| && !Overwritten(lines, h, i) ==> !EndsInCr(lines[i])
  }

  /** No line that the edit keeps ends in a carriage return: in a text without the table, none that has its own line
      feed; in a text with it, none that splitting at line ends leaves one on. */
  predicate Clean(config: string, h: string) {
    var lines := SplitLines(config);
    if FindHeader(lines, h) == |lines| then !HasCrLf(TrimEnd(config)) else Cleaned(lines, h)
  }

  predicate CleanBody(body: seq<string>) {
    forall i :: 0 <= i < |body| && !SetsKey(body[i], "enabled") ==> !EndsInCr(body[i])
  }

  lemma {:induction false} NoCrConcat(a: seq<string>, b: seq<string>)
    ensures NoCr(a + b) <==> NoCr(a) && NoCr(b)
  {
    var all := a + b;
    if NoCr(all) {
      forall i | 0 <= i < |a| ensures !EndsInCr(a[i]) { assert all[i] == a[i]; }
      forall i | 0 <= i < |b| ensures !EndsInCr(b[i]) { assert all[|a| + i] == b[i]; }
    }
  }

  lemma {:induction false} CleanBodyHead(body: seq<string>)
    requires body != []
    ensures CleanBody(body) <==> (SetsKey(body[0], "enabled") || !EndsInCr(body[0])) && CleanBody(body[1..])
  {
    if CleanBody(body) {
      forall i | 0 <= i < |body[1..]| && !SetsKey(body[1..][i], "enabled") ensures !EndsInCr(body[1..][i]) {
        assert body[1..][i] == body[i + 1];
      }
    }
    if (SetsKey(body[0], "enabled") || !EndsInCr(body[0])) && CleanBody(body[1..]) {
      forall i | 0 <= i < |body| && !SetsKey(body[i], "enabled") ensures !EndsInCr(body[i]) {
        if i > 0 { assert body[1..][i - 1] == body[i]; }
      }
    }
  }

  lemma {:induction false} DedupeClean(body: seq<string>, line: string, found: bool)
    requires !EndsInCr(line)
    ensures NoCr(Dedupe(body, "enabled", line, found)) <==> CleanBody(body)
  {
    if body != [] {
      CleanBodyHead(body);
      DedupeClean(body[1..], line, found);
      DedupeClean(body[1..], line, true);
      NoCrConcat([body[0]], Dedupe(body[1..], "enabled", line, found));
      NoCrConcat([line], Dedupe(body[1..], "enabled", line, true));
      NoCrConcat([], Dedupe(body[1..], "enabled", line, true));
      NoCrOne(body[0]);
      NoCrOne(line);
    }
  }

  lemma {:induction false} NoCrOne(l: string)
    ensures NoCr([l]) <==> !EndsInCr(l)
  {
    assert [l][0] == l;
  }

  lemma {:induction false} EditBodyClean(body: seq<string>, line: string)
    requires !EndsInCr(line)
    ensures NoCr(EditBody(body, "enabled", line)) <==> CleanBody(body)
  {
    DedupeClean(body, line, false);
    NoCrConcat([line], body);
    NoCrOne(line);
    if !HasKey(body, "enabled") {
      NoKeyNoChange(body, "enabled", line);
    }
  }

  lemma {:induction false} StripNoCr(lines: seq<string>)
    ensures NoInnerCr(StripEmpty(lines) + [""]) <==> NoCr(lines)
  {
    var s := StripEmpty(lines);
    assert forall i :: 0 <= i < |s| ==> (s + [""])[i] == s[i] == lines[i];
    if NoInnerCr(s + [""]) {
      StripRest(lines);
    }
  }

  lemma {:induction false} StripRest(lines: seq<string>)
    ensures forall i :: |StripEmpty(lines)| <= i < |lines| ==> lines[i] == ""
  {
    if lines != [] && lines[|lines| - 1] == "" {
      StripRest(lines[..|lines| - 1]);
      forall i | |StripEmpty(lines)| <= i < |lines| ensures lines[i] == "" {
        if i < |lines| - 1 { assert lines[..|lines| - 1][i] == lines[i]; }
      }
    }
  }

  lemma {:induction false} OverwrittenAt(lines: seq<string>, n: nat, b: seq<string>, h: string, i: nat)
    requires FindHeader(lines, h) + 1 == n <= |lines| && TableEnd(lines[n..]) == |b| && i < |lines|
    ensures Overwritten(lines, h, i) <==> n <= i < n + |b| && SetsKey(lines[i], "enabled")
  {
  }

  /** The body's lines that set the key are in `over`, and no other lines. */
  ghost predicate Covers(over: set<nat>, lines: seq<string>, n: nat, b: seq<string>) {
    forall i: nat :: i < |lines| ==> (i in over <==> n <= i < n + |b| && SetsKey(lines[i], "enabled"))
  }

  ghost predicate NoCrBut(lines: seq<string>, over: set<nat>) {
    forall i :: 0 <= i < |lines| && i !in over ==> !EndsInCr(lines[i])
  }

  lemma {:induction false} CleanParts(lines: seq<string>, front: seq<string>, b: seq<string>, c: seq<string>, over: set<nat>)
    requires lines == front + (b + c) && Covers(over, lines, |front|, b) && NoCrBut(lines, over)
    ensures NoCr(front) && CleanBody(b) && NoCr(c)
  {
    var n := |front|;
    forall i | 0 <= i < n ensures !EndsInCr(front[i]) { assert lines[i] == front[i]; }
    forall i | 0 <= i < |b| && !SetsKey(b[i], "enabled") ensures !EndsInCr(b[i]) { assert lines[n + i] == b[i]; }
    forall i | 0 <= i < |c| ensures !EndsInCr(c[i]) { assert lines[n + |b| + i] == c[i]; }
  }

  lemma {:induction false} PartsClean(lines: seq<string>, front: seq<string>, b: seq<string>, c: seq<string>, over: set<nat>)
    requires lines == front + (b + c) && Covers(over, lines, |front|, b)
    requires NoCr(front) && CleanBody(b) && NoCr(c)
    ensures NoCrBut(lines, over)
  {
    var n := |front|;
    forall i | 0 <= i < |lines| && i !in over ensures !EndsInCr(lines[i]) {
      if i < n {
        assert lines[i] == front[i];
      } else if i < n + |b| {
        assert lines[i] == b[i - n];
      } else {
        assert lines[i] == c[i - n - |b|];
      }
    }
  }

  lemma {:induction false} CleanedIff(lines: seq<string>, front: seq<string>, b: seq<string>, c: seq<string>, h: string)
    requires lines == front + (b + c) && FindHeader(lines, h) + 1 == |front| && TableEnd(lines[|front|..]) == |b|
    ensures Cleaned(lines, h) <==> NoCr(front) && CleanBody(b) && NoCr(c)
  {
    var over := set i: nat | i < |lines| && Overwritten(lines, h, i);
    assert Covers(over, lines, |front|, b) by {
      forall i: nat | i < |lines| ensures i in over <==> |front| <= i < |front| + |b| && SetsKey(lines[i], "enabled") {
        OverwrittenAt(lines, |front|, b, h, i);
      }
    }
    assert Cleaned(lines, h) <==> NoCrBut(lines, over);
    if NoCrBut(lines, over) { CleanParts(lines, front, b, c, over); }
    if NoCr(front) && CleanBody(b) && NoCr(c) { PartsClean(lines, front, b, c, over); }
  }

  lemma {:induction false} EditedClean(lines: seq<string>, h: string, line: string)
    requires FindHeader(lines, h) < |lines| && !EndsInCr(line)
    ensures NoInnerCr(StripEmpty(EditTable(lines, h, "enabled", line)) + [""]) <==> Cleaned(lines, h)
  {
    var a, hl, b, c := EditedParts(lines, h, "enabled", line);
    PartsAre(lines, a, hl, b, c, h);
    CleanedIff(lines, a + [hl], b, c, h);
    StripNoCr(EditTable(lines, h, "enabled", line));
    NoCrConcat(a + [hl], EditBody(b, "enabled", line) + c);
    NoCrConcat(EditBody(b, "enabled", line), c);
    EditBodyClean(b, line);
  }

  lemma {:induction false} BaseClean(config: string, h: string, line: string)
    requires !EndsInCr(h) && !EndsInCr(line)
    ensures NoInnerCr(BaseLines(config) + [h, line, ""]) <==> !HasCrLf(TrimEnd(config))
  {
    var base, front := TrimEnd(config), BaseLines(config);
    assert front + [h, line, ""] == (front + [h, line]) + [""];
    InnerSnoc(front + [h, line]);
    NoCrConcat(front, [h, line]);
    assert [h, line] == [h] + [line];
    NoCrConcat([h], [line]);
    NoCrOne(h);
    NoCrOne(line);
    if base != "" {
      var p := SplitLf(base, "");
      LastFilled(base);
      NoCrConcat(p, [""]);
      NoCrOne("");
      SplitLfAreLines(base, "");
      JoinSplitLf(base, "");
      assert "" + base == base;
      HasCrLfJoined(p);
    }
  }

  lemma {:induction false} InnerSnoc(lines: seq<string>)
    ensures NoInnerCr(lines + [""]) <==> NoCr(lines)
  {
    assert forall i :: 0 <= i < |lines| ==> (lines + [""])[i] == lines[i];
  }

  /** The result shows a CRLF exactly when its text was not clean. */
  lemma {:induction false} CrLfIff(config: string, h: string, value: bool)
    requires ValidHeader(h)
    ensures HasCrLf(Upsert(config, h, "enabled", value, true)) <==> !Clean(config, h)
  {
    var lines, line := SplitLines(config), KeyLine("enabled", value);
    UpsertJoins(config, h, "enabled", value);
    HasCrLfJoined(ResultLines(config, h, "enabled", value));
    KeyLineReads(value);
    if FindHeader(lines, h) < |lines| {
      EditedClean(lines, h, line);
    } else {
      BaseClean(config, h, line);
    }
  }

  /** A text of two lines with a CRLF between them, and without the table. */
  lemma {:induction false} NotCleanExample(h: string, x: char, y: char)
    requires ValidHeader(h) && !IsSpace(x) && !IsSpace(y) && x != '[' && y != '['
    ensures !Clean([x] + "\r\n" + [y], h)
  {
    var config := [x] + "\r\n" + [y];
    TwoLines([x], [y]);
    TrimNothing([x]);
    TrimNothing([y]);
    NoHeaderMissing([[x], [y]], h);
    FilledStays(config);
    assert config[2] == '\n' && config[1] == '\r';
  }

  lemma {:induction false} NoHeaderMissing(lines: seq<string>, h: string)
    requires NoHeader(lines, h)
    ensures FindHeader(lines, h) == |lines|
  {
  }

  lemma {:induction false} TwoLines(x: string, y: string)
    requires Line(x) && Line(y)
    ensures SplitLines(x + "\r\n" + y) == [x, y]
  {
    assert [x, y][1..] == [y];
    assert Join([x, y], CRLF) == x + "\r\n" + y;
    assert AllLines([x, y]);
    SplitJoined([x, y]);
  }
}
