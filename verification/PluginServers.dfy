/** Switching all first-party MCP servers at once, and doing it again. */
module PluginServers {
  import opened Wrappers
  import opened Text
  import opened Lines
  import opened PluginTable
  import opened PluginLens
  import opened PluginText

  const SERVER_NAMES: seq<string> :=
    ["omx_state", "omx_memory", "omx_code_intel", "omx_trace", "omx_wiki", "omx_hermes", "omx_subagent"]

  const PLUGIN_KEY: string := "\"oh-my-codex@oh-my-codex-local\""

  function ServerHeader(name: string): string {
    "[plugins." + PLUGIN_KEY + ".mcp_servers." + name + "]"
  }

  /** The header of the plugin's own table. */
  function PluginHeader(): string {
    "[plugins." + PLUGIN_KEY + "]"
  }

  function ServerHeaders(names: seq<string>): (hs: seq<string>)
    ensures |hs| == |names| && forall i :: 0 <= i < |names| ==> hs[i] == ServerHeader(names[i])
  {
    seq(|names|, i requires 0 <= i < |names| => ServerHeader(names[i]))
  }

  function UpsertAll(config: string, headers: seq<string>, value: bool): string {
    if headers == [] then config
    else Upsert(UpsertAll(config, headers[..|headers| - 1], value), headers[|headers| - 1], "enabled", value, true)
  }

  lemma {:induction false} UpsertAllNext(config: string, headers: seq<string>, i: nat, value: bool)
    requires i < |headers|
    ensures UpsertAll(config, headers[..i + 1], value) ==
              Upsert(UpsertAll(config, headers[..i], value), headers[i], "enabled", value, true)
  {
    assert headers[..i + 1][..i] == headers[..i];
  }

  method UpsertLocalOmxPluginMcpServerEnablement(config: string, enabled: bool) returns (next: string)
    ensures next == UpsertAll(config, ServerHeaders(SERVER_NAMES), enabled)
  {
    var headers := ServerHeaders(SERVER_NAMES);
    next := config;
    for i := 0 to |headers|
      invariant next == UpsertAll(config, headers[..i], enabled)
    {
      next := UpsertTomlTableBooleanKey(next, headers[i], "enabled", enabled, true);
      UpsertAllNext(config, headers, i, enabled);
    }
    assert headers[..|headers|] == headers;
  }

  /** The plugin's own table is switched on by the same edit. */
  method UpsertLocalOmxPluginEnablement(config: string) returns (out: string)
    ensures out == Upsert(config, PluginHeader(), "enabled", true, true)
  {
    out := UpsertTomlTableBooleanKey(config, PluginHeader(), "enabled", true, true);
  }

  predicate ValidHeaders(headers: seq<string>) {
    && (forall i :: 0 <= i < |headers| ==> ValidHeader(headers[i]))
    && (forall i, j :: 0 <= i < j < |headers| ==> headers[i] != headers[j])
  }

  lemma {:induction false} NamesDiffer()
    ensures forall i, j :: 0 <= i < j < |SERVER_NAMES| ==> SERVER_NAMES[i] != SERVER_NAMES[j]
  {
    var tags := seq(|SERVER_NAMES|, i requires 0 <= i < |SERVER_NAMES| => |SERVER_NAMES[i]|);
    assert tags == [9, 10, 14, 9, 8, 10, 12];
    assert SERVER_NAMES[0][4] == 's' && SERVER_NAMES[3][4] == 't';
    assert SERVER_NAMES[1][4] == 'm' && SERVER_NAMES[5][4] == 'h';
  }

  lemma {:induction false} ServerHeaderValid(name: string)
    requires Line(name)
    ensures ValidHeader(ServerHeader(name))
  {
    assert Line(PLUGIN_KEY);
    var h := ServerHeader(name);
    assert h[0] == '[' && h[|h| - 1] == ']';
  }

  lemma {:induction false} ServerHeaderInjective(a: string, b: string)
    requires ServerHeader(a) == ServerHeader(b)
    ensures a == b
  {
    var n := |"[plugins." + PLUGIN_KEY + ".mcp_servers."|;
    assert ServerHeader(a)[n..|ServerHeader(a)| - 1] == a;
    assert ServerHeader(b)[n..|ServerHeader(b)| - 1] == b;
  }

  lemma {:induction false} ServersValid()
    ensures ValidHeaders(ServerHeaders(SERVER_NAMES))
  {
    var hs := ServerHeaders(SERVER_NAMES);
    forall i | 0 <= i < |hs| ensures ValidHeader(hs[i]) {
      assert Line(SERVER_NAMES[i]);
      ServerHeaderValid(SERVER_NAMES[i]);
    }
    NamesDiffer();
    forall i, j | 0 <= i < j < |hs| ensures hs[i] != hs[j] {
      if hs[i] == hs[j] { ServerHeaderInjective(SERVER_NAMES[i], SERVER_NAMES[j]); }
    }
  }

  // ----- every server reads what was set

  lemma {:induction false} AllRead(config: string, headers: seq<string>, value: bool, i: nat)
    requires ValidHeaders(headers) && i < |headers|
    ensures ReadText(UpsertAll(config, headers, value), headers[i]) == Some(value)
  {
    var n := |headers| - 1;
    var front := headers[..n];
    if i == n {
      UpsertReads(UpsertAll(config, front, value), headers[n], value);
    } else {
      AllRead(config, front, value, i);
      UpsertLeavesOthers(UpsertAll(config, front, value), headers[n], value, headers[i]);
    }
  }

  lemma {:induction false} OthersLeft(config: string, headers: seq<string>, value: bool, other: string)
    requires ValidHeaders(headers) && ValidHeader(other) && other !in headers
    ensures ReadText(UpsertAll(config, headers, value), other) == ReadText(config, other)
  {
    if headers != [] {
      var n := |headers| - 1;
      OthersLeft(config, headers[..n], value, other);
      UpsertLeavesOthers(UpsertAll(config, headers[..n], value), headers[n], value, other);
    }
  }

  /** On every text: afterwards the doctor reads the chosen value for each first-party server,
      and any other table reads as before. */
  lemma ServersReadBack(config: string, enabled: bool)
    ensures var out := UpsertAll(config, ServerHeaders(SERVER_NAMES), enabled);
            && (forall i :: 0 <= i < |SERVER_NAMES| ==> ReadText(out, ServerHeader(SERVER_NAMES[i])) == Some(enabled))
            && (forall other :: ValidHeader(other) && other !in ServerHeaders(SERVER_NAMES) ==>
                  ReadText(out, other) == ReadText(config, other))
  {
    var hs := ServerHeaders(SERVER_NAMES);
    ServersValid();
    forall i | 0 <= i < |SERVER_NAMES|
      ensures ReadText(UpsertAll(config, hs, enabled), ServerHeader(SERVER_NAMES[i])) == Some(enabled)
    {
      AllRead(config, hs, enabled, i);
    }
    forall other | ValidHeader(other) && other !in hs
      ensures ReadText(UpsertAll(config, hs, enabled), other) == ReadText(config, other)
    {
      OthersLeft(config, hs, enabled, other);
    }
  }

  lemma {:induction false} HeaderTexts(name: string)
    ensures PluginHeader() == "[plugins." + "\"oh-my-codex@oh-my-codex-local\"" + "]"
    ensures ServerHeader(name) == "[plugins." + "\"oh-my-codex@oh-my-codex-local\"" + ".mcp_servers." + name + "]"
    ensures ValidHeader(PluginHeader())
  {
    var h := PluginHeader();
    assert h[0] == '[' && h[|h| - 1] == ']';
    assert Line(PLUGIN_KEY);
  }

  /** Switching the plugin on is read back from its own table, and no other table reads differently; the servers' tables are
      among those. */
  lemma {:induction false} PluginReadsBack(config: string, name: string)
    requires Line(name)
    ensures var out, own := Upsert(config, PluginHeader(), "enabled", true, true), "[plugins." + "\"oh-my-codex@oh-my-codex-local\"" + "]";
            var server := "[plugins." + "\"oh-my-codex@oh-my-codex-local\"" + ".mcp_servers." + name + "]";
            && ReadText(out, own) == Some(true)
            && ReadText(out, server) == ReadText(config, server)
            && forall other :: ValidHeader(other) && other != own ==> ReadText(out, other) == ReadText(config, other)
  {
    HeaderTexts(name);
    UpsertReads(config, PluginHeader(), true);
    ServerHeaderValid(name);
    assert ServerHeader(name)[|PluginHeader()| - 1] == '.';
    forall other | ValidHeader(other) && other != PluginHeader()
      ensures ReadText(Upsert(config, PluginHeader(), "enabled", true, true), other) == ReadText(config, other)
    {
      UpsertLeavesOthers(config, PluginHeader(), true, other);
    }
  }

  // ----- doing it again

  function KeyLines(body: seq<string>): seq<string> {
    if body == [] then []
    else (if SetsKey(body[0], "enabled") then [body[0]] else []) + KeyLines(body[1..])
  }

  /** The table is there, and its only line for the key is `line`. */
  predicate Settled(lines: seq<string>, h: string, line: string) {
    var t := Table(lines, h);
    t.Some? && KeyLines(t.value) == [line]
  }

  lemma {:induction false} DedupeKeys(body: seq<string>, line: string, found: bool)
    requires SetsKey(line, "enabled")
    ensures KeyLines(Dedupe(body, "enabled", line, found)) == if !found && HasKey(body, "enabled") then [line] else []
  {
    if body != [] {
      HasKeyStep(body, "enabled");
      DedupeKeys(body[1..], line, found);
      DedupeKeys(body[1..], line, true);
      var d := Dedupe(body, "enabled", line, found);
      var now := if SetsKey(body[0], "enabled") && found then d else d[1..];
      assert now == Dedupe(body[1..], "enabled", line, found || SetsKey(body[0], "enabled"));
    }
  }

  lemma {:induction false} NoKeyLines(body: seq<string>)
    ensures KeyLines(body) == [] <==> !HasKey(body, "enabled")
  {
    if body != [] {
      HasKeyStep(body, "enabled");
      NoKeyLines(body[1..]);
    }
  }

  lemma {:induction false} EditBodySettles(body: seq<string>, line: string)
    requires SetsKey(line, "enabled")
    ensures KeyLines(EditBody(body, "enabled", line)) == [line]
  {
    DedupeKeys(body, line, false);
    if !HasKey(body, "enabled") {
      NoKeyLines(body);
      assert ([line] + body)[1..] == body;
    }
  }

  lemma {:induction false} DedupeFixed(body: seq<string>, line: string, found: bool)
    requires KeyLines(body) == if found then [] else [line]
    ensures Dedupe(body, "enabled", line, found) == body
  {
    if body != [] {
      if SetsKey(body[0], "enabled") {
        assert KeyLines(body) == [body[0]] + KeyLines(body[1..]);
        assert KeyLines(body)[0] == body[0] && KeyLines(body[1..]) == [];
        DedupeFixed(body[1..], line, true);
      } else {
        assert KeyLines(body) == KeyLines(body[1..]);
        DedupeFixed(body[1..], line, found);
      }
    }
  }

  lemma {:induction false} EditTableFixed(lines: seq<string>, h: string, line: string)
    requires Settled(lines, h, line)
    ensures FindHeader(lines, h) < |lines| && EditTable(lines, h, "enabled", line) == lines
  {
    TableAt(lines, h);
    var a, hl, b, c := EditedParts(lines, h, "enabled", line);
    OwnParts(a, hl, b, c, h);
    NoKeyLines(b);
    DedupeFixed(b, line, false);
  }

  lemma {:induction false} KeyLinesSnoc(body: seq<string>, l: string)
    ensures KeyLines(body + [l]) == KeyLines(body) + if SetsKey(l, "enabled") then [l] else []
  {
    if body == [] {
      assert body + [l] == [l] && [l][1..] == [];
    } else {
      assert (body + [l])[1..] == body[1..] + [l];
      KeyLinesSnoc(body[1..], l);
    }
  }

  lemma {:induction false} SettledBlankTail(a: seq<string>, l: string, h: string, line: string)
    requires OpensHeader(h) && Trim(l) == ""
    ensures Settled(a + [l], h, line) <==> Settled(a, h, line)
  {
    BlankLine(l);
    TableSnoc(a, l, h);
    if EndsInside(a, h) { KeyLinesSnoc(Table(a, h).value, l); }
  }

  lemma {:induction false} SettledStripped(lines: seq<string>, h: string, line: string)
    requires OpensHeader(h)
    ensures Settled(StripEmpty(lines), h, line) <==> Settled(lines, h, line)
  {
    if lines != [] && lines[|lines| - 1] == "" {
      var n := |lines| - 1;
      assert lines == lines[..n] + [""];
      assert Trim("") == "";
      SettledBlankTail(lines[..n], "", h, line);
      SettledStripped(lines[..n], h, line);
    }
  }

  lemma {:induction false} SettledLastPlain(front: seq<string>, x: string, y: string, h: string, line: string)
    requires OpensHeader(h) && Trim(x) == Trim(y) && x != line && !OpensTable(x)
    requires Settled(front + [x], h, line)
    ensures Settled(front + [y], h, line)
  {
    TableSnoc(front, x, h);
    TableSnoc(front, y, h);
    if EndsInside(front, h) {
      var t := Table(front, h).value;
      KeyLinesSnoc(t, x);
      KeyLinesSnoc(t, y);
      assert (KeyLines(t) + [x])[|KeyLines(t)|] == x;
      assert !SetsKey(x, "enabled");
    }
  }

  /** Blanks at the end of the last line do not matter either: they cannot be on the key's line. */
  lemma {:induction false} SettledLastLine(front: seq<string>, x: string, y: string, h: string, line: string)
    requires OpensHeader(h) && Trim(x) == Trim(y) && x != line
    requires Settled(front + [x], h, line)
    ensures Settled(front + [y], h, line)
  {
    if OpensTable(x) {
      TableConcat(front, [x], h);
      TableConcat(front, [y], h);
      assert [x][1..] == [];
    } else {
      SettledLastPlain(front, x, y, h, line);
    }
  }

  // ----- texts with LF only

  predicate LfText(s: string) {
    '\r' !in s
  }

  lemma {:induction false} LfSplit(s: string)
    requires LfText(s)
    ensures SplitLines(s) == SplitLf(s, "") && Free(SplitLines(s), '\r')
  {
    SplitFree(s, "");
    var p := SplitLf(s, "");
    forall i | 0 <= i < |p| ensures !EndsInCr(p[i]) { assert p[i] in p; }
    assert ChopInit(p) == p;
  }

  lemma {:induction false} SplitFree(s: string, cur: string)
    requires LfText(s) && LfText(cur)
    ensures Free(SplitLf(s, cur), '\r')
  {
    if s != "" {
      assert s[0] in s && forall c :: c in s[1..] ==> c in s;
      if s[0] == '\n' { SplitFree(s[1..], ""); } else { SplitFree(s[1..], cur + [s[0]]); }
    }
  }

  lemma {:induction false} JoinFree(lines: seq<string>)
    requires Free(lines, '\r')
    ensures LfText(Join(lines, LF))
  {
    if |lines| > 0 {
      assert lines[0] in lines && forall l :: l in lines[1..] ==> l in lines;
      JoinFree(lines[1..]);
    }
  }

  /** The lines of a result: one table settled, the last line the only empty one at the end. */
  lemma {:induction false} NormalStrips(lines: seq<string>)
    requires OneFeed(lines)
    ensures StripEmpty(lines) + [""] == lines
  {
    assert lines == lines[..|lines| - 1] + [""];
    assert StripEmpty(lines[..|lines| - 1]) == lines[..|lines| - 1];
  }

  /** On a settled text an upsert only joins the lines again. */
  lemma {:induction false} SettledUpsert(text: string, h: string, value: bool)
    requires Settled(SplitLines(text), h, KeyLine("enabled", value))
    ensures Upsert(text, h, "enabled", value, true) == OneFinalFeed(Join(SplitLines(text), LF))
  {
    EditTableFixed(SplitLines(text), h, KeyLine("enabled", value));
  }

  /** A settled text is a fixed point. */
  lemma {:induction false} SettledFixed(lines: seq<string>, h: string, value: bool)
    requires AllLines(lines) && OneFeed(lines) && NoInnerCr(lines)
    requires Settled(lines, h, KeyLine("enabled", value))
    ensures Upsert(Join(lines, LF), h, "enabled", value, true) == Join(lines, LF)
  {
    SplitJoined(lines);
    assert ChopInit(lines) == lines;
    SettledUpsert(Join(lines, LF), h, value);
    NormalStrips(lines);
    FinalFeedJoined(lines);
  }

  lemma {:induction false} ResultNormal(config: string, h: string, value: bool)
    requires ValidHeader(h)
    ensures OneFeed(ResultLines(config, h, "enabled", value))
  {
    var lines, line := SplitLines(config), KeyLine("enabled", value);
    KeyLineReads(value);
    if FindHeader(lines, h) < |lines| {
      EditedNormal(lines, h, line);
    } else {
      NormalCreated(BaseLines(config), h, line);
    }
  }

  lemma {:induction false} EditedNormal(lines: seq<string>, h: string, line: string)
    requires FindHeader(lines, h) < |lines| && h != ""
    ensures OneFeed(StripEmpty(EditTable(lines, h, "enabled", line)) + [""])
  {
    EditTableFilled(lines, h, "enabled", line);
    StripNormal(EditTable(lines, h, "enabled", line));
  }

  lemma {:induction false} StripNormal(lines: seq<string>)
    requires StripEmpty(lines) != []
    ensures OneFeed(StripEmpty(lines) + [""])
  {
  }

  lemma {:induction false} NormalCreated(base: seq<string>, h: string, line: string)
    requires line != ""
    ensures OneFeed(base + [h, line, ""])
  {
  }

  lemma {:induction false} ResultSettled(config: string, h: string, value: bool)
    requires ValidHeader(h)
    ensures Settled(ResultLines(config, h, "enabled", value), h, KeyLine("enabled", value))
  {
    var lines, line := SplitLines(config), KeyLine("enabled", value);
    KeyLineReads(value);
    if FindHeader(lines, h) < |lines| {
      EditedSettled(lines, h, line);
    } else {
      CreatedSettled(config, h, line);
    }
  }

  lemma {:induction false} EditedSettled(lines: seq<string>, h: string, line: string)
    requires OpensHeader(h) && FindHeader(lines, h) < |lines| && !OpensTable(line) && SetsKey(line, "enabled")
    ensures Settled(StripEmpty(EditTable(lines, h, "enabled", line)) + [""], h, line)
  {
    var edited := EditTable(lines, h, "enabled", line);
    EditTableOwn(lines, h, "enabled", line);
    EditBodySettles(Table(lines, h).value, line);
    SettledStripped(edited, h, line);
    assert Trim("") == "";
    SettledBlankTail(StripEmpty(edited), "", h, line);
  }

  lemma {:induction false} CreatedSettled(config: string, h: string, line: string)
    requires ValidHeader(h) && FindHeader(SplitLines(config), h) == |SplitLines(config)|
    requires !OpensTable(line) && SetsKey(line, "enabled") && Trim(line) == line
    ensures Settled(BaseLines(config) + [h, line, ""], h, line)
  {
    TableAt(SplitLines(config), h);
    NewTable(h, line, h);
    LookBase(config, h);
    TableConcat(BaseLines(config), [h, line, ""], h);
    assert Trim("") == "";
    BlankLine("");
    assert [line, ""] == [line] + [""];
    KeyLinesSnoc([line], "");
    KeyLinesSnoc([], line);
    assert [] + [line] == [line];
  }

  lemma {:induction false} IdempotentWithoutCrLf(config: string, h: string, value: bool)
    requires ValidHeader(h)
    requires !HasCrLf(Upsert(config, h, "enabled", value, true))
    ensures var out := Upsert(config, h, "enabled", value, true);
            Upsert(out, h, "enabled", value, true) == out
  {
    var r := ResultLines(config, h, "enabled", value);
    UpsertJoins(config, h, "enabled", value);
    HasCrLfJoined(r);
    ResultNormal(config, h, value);
    ResultSettled(config, h, value);
    SettledFixed(r, h, value);
  }

  // ----- with CRLF left over, the second time chops it

  predicate UpToChop(a: seq<string>, b: seq<string>) {
    |a| == |b| && forall i :: 0 <= i < |a| ==> b[i] == a[i] || b[i] == Chop(a[i])
  }

  lemma {:induction false} TableUpToChop(a: seq<string>, b: seq<string>, h: string)
    requires UpToChop(a, b)
    ensures Table(a, h).Some? <==> Table(b, h).Some?
    ensures Table(a, h).Some? ==> UpToChop(Table(a, h).value, Table(b, h).value)
  {
    if a != [] {
      assert UpToChop(a[1..], b[1..]);
      TrimChop(a[0]);
      forall i | 0 <= i < |a| ensures Trim(a[i]) == Trim(b[i]) { TrimChop(a[i]); }
      TableEndTrims(a[1..], b[1..]);
      TableUpToChop(a[1..], b[1..], h);
    }
  }

  lemma {:induction false} KeyLinesUpToChop(a: seq<string>, b: seq<string>, line: string)
    requires UpToChop(a, b) && !EndsInCr(line) && (KeyLines(a) == [line] || KeyLines(a) == [])
    ensures KeyLines(b) == KeyLines(a)
  {
    if a != [] {
      var keys, rest := KeyLines(a), KeyLines(a[1..]);
      assert UpToChop(a[1..], b[1..]);
      TrimChop(a[0]);
      if SetsKey(a[0], "enabled") {
        assert keys == [a[0]] + rest;
        assert keys[0] == a[0] && rest == [];
        KeyLinesUpToChop(a[1..], b[1..], line);
        assert b[0] == a[0];
      } else {
        assert keys == rest;
        KeyLinesUpToChop(a[1..], b[1..], line);
      }
    }
  }

  lemma {:induction false} SettledChopped(lines: seq<string>, h: string, line: string)
    requires Settled(lines, h, line) && !EndsInCr(line)
    ensures Settled(ChopInit(lines), h, line)
  {
    TableUpToChop(lines, ChopInit(lines), h);
    KeyLinesUpToChop(Table(lines, h).value, Table(ChopInit(lines), h).value, line);
  }

  lemma {:induction false} ShorterJoin(a: seq<string>, b: seq<string>)
    requires UpToChop(a, b)
    ensures |Join(b, LF)| <= |Join(a, LF)|
    ensures a != b ==> |Join(b, LF)| < |Join(a, LF)|
  {
    if |a| > 1 {
      assert UpToChop(a[1..], b[1..]);
      ShorterJoin(a[1..], b[1..]);
      if a != b && a[0] == b[0] {
        assert a == [a[0]] + a[1..] && b == [b[0]] + b[1..];
      }
    } else if |a| == 1 {
      assert a == [a[0]] && b == [b[0]];
    }
  }

  lemma {:induction false} FinalFeedShort(lines: seq<string>)
    requires |lines| >= 2 && lines[|lines| - 1] == ""
    ensures |OneFinalFeed(Join(lines, LF))| <= |Join(lines, LF)|
  {
    var n := |lines| - 1;
    assert lines == lines[..n] + [""];
    JoinConcat(lines[..n], [""], LF);
    var s := Join(lines, LF);
    assert s == Join(lines[..n], LF) + LF;
    StripFeedsShort(s[..|s| - 1]);
  }

  lemma {:induction false} StripFeedsShort(s: string)
    ensures |StripFeeds(s)| <= |s|
  {
    if s != "" && s[|s| - 1] == '\n' { StripFeedsShort(s[..|s| - 1]); }
  }

  /** Text whose lines still end in carriage returns is shortened the next time. */
  lemma {:induction false} SettledShrinks(r: seq<string>, h: string, value: bool)
    requires AllLines(r) && OneFeed(r) && !NoInnerCr(r) && Settled(r, h, KeyLine("enabled", value))
    ensures |Upsert(Join(r, LF), h, "enabled", value, true)| < |Join(r, LF)|
  {
    KeyLineReads(value);
    SplitJoined(r);
    SettledChopped(r, h, KeyLine("enabled", value));
    SettledUpsert(Join(r, LF), h, value);
    ChoppedShorter(r);
  }

  lemma {:induction false} ChoppedShorter(r: seq<string>)
    requires |r| >= 2 && r[|r| - 1] == "" && !NoInnerCr(r)
    ensures |OneFinalFeed(Join(ChopInit(r), LF))| < |Join(r, LF)|
  {
    FinalFeedShort(ChopInit(r));
    var i :| 0 <= i < |r| - 1 && EndsInCr(r[i]);
    assert ChopInit(r)[i] != r[i];
    ShorterJoin(r, ChopInit(r));
  }

  /** Switching one table twice is the same as once exactly when no line that the first time keeps ends in a carriage
      return. */
  lemma {:induction false} IdempotentIff(config: string, h: string, value: bool)
    requires ValidHeader(h)
    ensures var out := Upsert(config, h, "enabled", value, true);
            Upsert(out, h, "enabled", value, true) == out <==> Clean(config, h)
  {
    var r := ResultLines(config, h, "enabled", value);
    UpsertJoins(config, h, "enabled", value);
    HasCrLfJoined(r);
    CrLfIff(config, h, value);
    if NoInnerCr(r) {
      IdempotentWithoutCrLf(config, h, value);
    } else {
      ResultNormal(config, h, value);
      ResultSettled(config, h, value);
      SettledShrinks(r, h, value);
    }
  }

  /** There are texts on which the second time makes a difference: two lines with a CRLF between them, without the table. */
  lemma {:induction false} NotIdempotent(h: string, value: bool, x: char, y: char)
    requires ValidHeader(h) && !IsSpace(x) && !IsSpace(y) && x != '[' && y != '['
    ensures var out := Upsert([x] + "\r\n" + [y], h, "enabled", value, true);
            Upsert(out, h, "enabled", value, true) != out
  {
    NotCleanExample(h, x, y);
    IdempotentIff([x] + "\r\n" + [y], h, value);
  }

  // ----- all servers, twice

  lemma {:induction false} EditedLf(lines: seq<string>, h: string, line: string)
    requires FindHeader(lines, h) < |lines| && Free(lines, '\r') && LfText(line)
    ensures Free(StripEmpty(EditTable(lines, h, "enabled", line)) + [""], '\r')
  {
    var edited := EditTable(lines, h, "enabled", line);
    EditTableFree(lines, h, "enabled", line, '\r');
    assert forall l :: l in StripEmpty(edited) ==> l in edited;
    FreeConcat(StripEmpty(edited), [""], '\r');
  }

  lemma {:induction false} CreatedLf(config: string, h: string, line: string)
    requires LfText(config) && LfText(h) && LfText(line)
    ensures Free(BaseLines(config) + [h, line, ""], '\r')
  {
    var base := TrimEnd(config);
    assert forall c :: c in base ==> c in config;
    SplitFree(base, "");
    FreeConcat(SplitLf(base, ""), [""], '\r');
    FreeConcat(BaseLines(config), [h, line, ""], '\r');
  }

  lemma {:induction false} KeyLineLf(value: bool)
    ensures LfText(KeyLine("enabled", value))
  {
    var word := if value then "true" else "false";
    assert LfText("enabled") && LfText(" = ") && LfText(word);
  }

  lemma {:induction false} ResultFree(config: string, h: string, value: bool)
    requires LfText(h) && LfText(config)
    ensures Free(ResultLines(config, h, "enabled", value), '\r')
  {
    LfSplit(config);
    KeyLineLf(value);
    if FindHeader(SplitLines(config), h) < |SplitLines(config)| {
      EditedLf(SplitLines(config), h, KeyLine("enabled", value));
    } else {
      CreatedLf(config, h, KeyLine("enabled", value));
    }
  }

  /** The lines of an LF text after one upsert. */
  lemma {:induction false} ResultLf(config: string, h: string, value: bool)
    requires ValidHeader(h) && LfText(h) && LfText(config)
    ensures var out, r := Upsert(config, h, "enabled", value, true), ResultLines(config, h, "enabled", value);
            LfText(out) && out == Join(r, LF) && AllLines(r) && SplitLines(out) == r
  {
    UpsertJoins(config, h, "enabled", value);
    ResultFree(config, h, value);
    JoinedLf(ResultLines(config, h, "enabled", value));
  }

  lemma {:induction false} JoinedLf(r: seq<string>)
    requires r != [] && AllLines(r) && Free(r, '\r')
    ensures LfText(Join(r, LF)) && SplitLines(Join(r, LF)) == r
  {
    JoinFree(r);
    LfSplit(Join(r, LF));
    SplitLfJoin(r);
  }

  lemma {:induction false} SettledSnoc(s: string, c: char, h: string, line: string)
    requires OpensHeader(h) && IsSpace(c) && line != "" && !IsSpace(line[|line| - 1])
    requires Settled(SplitLf(s + [c], ""), h, line)
    ensures Settled(SplitLf(s, ""), h, line)
  {
    var p := SplitLf(s, "");
    var n := |p| - 1;
    SplitSnoc(s, c, "");
    if c == '\n' {
      assert Trim("") == "";
      SettledBlankTail(p, "", h, line);
    } else {
      assert "" + p[n] + [c] == p[n] + [c];
      TrimAbsorbs("", p[n], [c]);
      SettledLastLine(p[..n], p[n] + [c], p[n], h, line);
      assert p == p[..n] + [p[n]];
    }
  }

  lemma {:induction false} SettledTrimEnd(s: string, h: string, line: string)
    requires OpensHeader(h) && line != "" && !IsSpace(line[|line| - 1])
    requires Settled(SplitLf(s, ""), h, line)
    ensures Settled(SplitLf(TrimEnd(s), ""), h, line)
  {
    if s != "" && IsSpace(s[|s| - 1]) {
      var n := |s| - 1;
      assert s == s[..n] + [s[n]];
      SettledSnoc(s[..n], s[n], h, line);
      SettledTrimEnd(s[..n], h, line);
    }
  }

  lemma {:induction false} NothingSettled(h: string, line: string)
    requires OpensHeader(h)
    ensures !Settled([""], h, line)
  {
    assert Trim("") == "";
    assert !IsHeaderOf("", h);
    assert [""][1..] == [] && Table([], h) == None;
    assert Table([""], h) == None;
  }

  /** A settled table stays settled when another one is switched. */
  lemma {:induction false} SettledStays(config: string, h: string, value: bool, other: string)
    requires ValidHeader(h) && ValidHeader(other) && other != h && LfText(config)
    requires Settled(SplitLines(config), other, KeyLine("enabled", value))
    ensures Settled(ResultLines(config, h, "enabled", value), other, KeyLine("enabled", value))
  {
    var lines, line := SplitLines(config), KeyLine("enabled", value);
    KeyLineReads(value);
    LfSplit(config);
    assert Trim("") == "";
    if FindHeader(lines, h) < |lines| {
      var edited := EditTable(lines, h, "enabled", line);
      EditTableOther(lines, h, "enabled", line, other);
      SettledStripped(edited, other, line);
      SettledBlankTail(StripEmpty(edited), "", other, line);
    } else {
      SettledTrimEnd(config, other, line);
      if TrimEnd(config) == "" { NothingSettled(other, line); }
      SettledBlankTail(SplitLf(TrimEnd(config), ""), "", other, line);
      NewTable(h, line, other);
      TableConcat(BaseLines(config), [h, line, ""], other);
    }
  }

  predicate LfHeaders(headers: seq<string>) {
    forall i :: 0 <= i < |headers| ==> LfText(headers[i])
  }

  /** After switching a list of tables each of them is settled. */
  lemma {:induction false} AllSettled(config: string, headers: seq<string>, value: bool)
    requires ValidHeaders(headers) && LfHeaders(headers) && LfText(config)
    ensures var out := UpsertAll(config, headers, value);
            && LfText(out)
            && (headers != [] ==> AllLines(SplitLines(out)) && OneFeed(SplitLines(out)) && out == Join(SplitLines(out), LF))
            && forall i :: 0 <= i < |headers| ==> Settled(SplitLines(out), headers[i], KeyLine("enabled", value))
  {
    if headers != [] {
      var n := |headers| - 1;
      var front := headers[..n];
      AllSettled(config, front, value);
      var before := UpsertAll(config, front, value);
      ResultLf(before, headers[n], value);
      ResultNormal(before, headers[n], value);
      ResultSettled(before, headers[n], value);
      forall i | 0 <= i < n
        ensures Settled(ResultLines(before, headers[n], "enabled", value), headers[i], KeyLine("enabled", value))
      {
        assert front[i] == headers[i];
        SettledStays(before, headers[n], value, headers[i]);
      }
    }
  }

  lemma {:induction false} AllFixed(out: string, headers: seq<string>, value: bool)
    requires LfText(out) && AllLines(SplitLines(out)) && OneFeed(SplitLines(out)) && out == Join(SplitLines(out), LF)
    requires forall i :: 0 <= i < |headers| ==> Settled(SplitLines(out), headers[i], KeyLine("enabled", value))
    ensures UpsertAll(out, headers, value) == out
  {
    if headers != [] {
      var n := |headers| - 1;
      AllFixed(out, headers[..n], value);
      LfSplit(out);
      var lines := SplitLines(out);
      forall i | 0 <= i < |lines| ensures !EndsInCr(lines[i]) { assert lines[i] in lines; }
      SettledFixed(lines, headers[n], value);
    }
  }

  lemma {:induction false} ServersLf()
    ensures LfHeaders(ServerHeaders(SERVER_NAMES))
  {
    var hs := ServerHeaders(SERVER_NAMES);
    forall i | 0 <= i < |hs| ensures LfText(hs[i]) {
      assert LfText(SERVER_NAMES[i]);
      assert LfText(PLUGIN_KEY);
    }
  }

  /** On LF text, switching all first-party servers again changes nothing. */
  lemma ServersIdempotent(config: string, enabled: bool)
    requires LfText(config)
    ensures var hs := ServerHeaders(SERVER_NAMES);
            var out := UpsertAll(config, hs, enabled);
            UpsertAll(out, hs, enabled) == out
  {
    var hs := ServerHeaders(SERVER_NAMES);
    ServersValid();
    ServersLf();
    AllSettled(config, hs, enabled);
    AllFixed(UpsertAll(config, hs, enabled), hs, enabled);
  }
}
