/** What setting one top-level TOML key does to the reading of another. */
module TomlOthers {
  import opened Wrappers
  import opened Text
  import opened Lines
  import opened TopLevelToml
  import opened TomlLens

  // ----- other keys

  /** A line that assigns one key says nothing about another. */
  lemma {:induction false} ReadWithout(before: seq<string>, line: string, rest: seq<string>, key: string)
    requires Inert(line, key)
    ensures ReadLines(before + [line] + rest, key) == ReadLines(before + rest, key)
  {
    var all := before + [line] + rest;
    if before != [] {
      assert all[1..] == before[1..] + [line] + rest;
      assert (before + rest)[1..] == before[1..] + rest;
      ReadWithout(before[1..], line, rest, key);
    } else {
      assert all[1..] == rest && before + rest == rest;
    }
  }

  lemma {:induction false} ReadBlanks(lines: seq<string>, key: string)
    ensures ReadLines(lines + [""], key) == ReadLines(lines, key)
  {
    assert lines + [""] == lines + [""] + [];
    assert lines + [] == lines;
    ReadWithout(lines, "", [], key);
  }

  lemma {:induction false} BlankReads(content: string, key: string)
    requires Trim(content) == ""
    ensures Read(content, key) == None
  {
    var a, b := TrimSplits(content);
    assert a + "" + b == content;
    var lines := SplitLines(content);
    forall i | 0 <= i < |lines| ensures Inert(lines[i], key) {
      PieceBlank(content, "", i);
      TrimBlank(SplitLf(content, "")[i]);
      TrimBlank(lines[i]);
    }
    assert lines + [] == lines;
    ReadPastInert(lines, [], key);
  }

  lemma {:induction false} TrimBlank(s: string)
    requires Blank(s)
    ensures Trim(s) == ""
  {
    assert s + "" + "" == s;
    TrimBetween(s, "", "");
  }

  lemma {:induction false} PieceBlank(s: string, cur: string, i: nat)
    requires Blank(s) && Blank(cur) && i < |SplitLf(s, cur)|
    ensures Blank(SplitLf(s, cur)[i])
  {
    if s != "" {
      assert s[0] in s && forall c :: c in s[1..] ==> c in s;
      if s[0] == '\n' {
        if i > 0 { PieceBlank(s[1..], "", i - 1); }
      } else {
        PieceBlank(s[1..], cur + [s[0]], i);
      }
    }
  }

  lemma {:induction false} FrameReads(lines: seq<string>, key: string, other: string)
    requires other != key
    ensures ReadLines(Before(lines, key) + Behind(lines, key), other) == ReadLines(lines, other)
  {
    var mid := FrameSplits(lines, key);
    if |mid| == 1 {
      assert mid == [mid[0]];
      ReadWithout(Before(lines, key), mid[0], Behind(lines, key), other);
    }
  }

  lemma {:induction false} CloseTailReads(before: seq<string>, behind: seq<string>, key: string)
    ensures ReadLines(before + CloseTail(behind), key) == ReadLines(before + behind, key)
  {
    if CloseTail(behind) == behind + [""] {
      assert before + CloseTail(behind) == (before + behind) + [""];
      ReadBlanks(before + behind, key);
    }
  }

  lemma {:induction false} OthersKept(content: string, key: string, value: string, other: string)
    requires ValidKey(key) && OneLine(value) && other != key && !Stranded(content, key)
    ensures Read(Upsert(content, key, value), other) == Read(content, other)
  {
    var line := AssignmentLine(key, value);
    ResultLines(content, key, value);
    AssignmentLineReads(key, value);
    ReadWithout(Head(content, key), line, Rest(content, key), other);
    if Trim(content) == "" {
      BlankReads(content, other);
      assert Head(content, key) + Rest(content, key) == [] + [""];
      ReadBlanks([], other);
    } else {
      CloseTailReads(Before(SplitLines(content), key), Behind(SplitLines(content), key), other);
      FrameReads(SplitLines(content), key, other);
    }
  }

  /** The lines without the carriage return at their end. */
  function ChopLast(lines: seq<string>): seq<string>
    requires lines != []
  {
    lines[..|lines| - 1] + [Chop(lines[|lines| - 1])]
  }

  lemma {:induction false} ChopInitLast(lines: seq<string>, line: string)
    requires lines != [] && NoInnerCr(lines)
    ensures ChopInit(lines + [""]) == ChopLast(lines) + [""]
    ensures !EndsInCr(line) ==> ChopInit(lines + [line] + [""]) == ChopLast(lines) + [line] + [""]
  {
  }

  lemma {:induction false} ChopInitParts(before: seq<string>, line: string, behind: seq<string>)
    requires NoCr(before) && !EndsInCr(line) && behind != [] && NoInnerCr(behind)
    ensures ChopInit(before + [line] + (behind + [""])) == before + [line] + (ChopLast(behind) + [""])
  {
    var all := before + [line] + behind;
    forall i | 0 <= i < |all| - 1 ensures !EndsInCr(all[i]) {
      if i < |before| {
        assert all[i] == before[i];
      } else if i > |before| {
        assert all[i] == behind[i - |before| - 1];
      }
    }
    ChopInitLast(all, "");
    assert all + [""] == before + [line] + (behind + [""]);
    assert ChopLast(all) + [""] == before + [line] + (ChopLast(behind) + [""]);
  }

  lemma {:induction false} ReadClosed(before: seq<string>, line: string, behind: seq<string>, key: string)
    requires Inert(line, key)
    ensures ReadLines(before + [line] + (behind + [""]), key) == ReadLines(before + behind, key)
  {
    ReadWithout(before, line, behind + [""], key);
    assert before + (behind + [""]) == (before + behind) + [""];
    ReadBlanks(before + behind, key);
  }

  lemma {:induction false} PartsNoCr(lines: seq<string>, before: seq<string>, mid: seq<string>, behind: seq<string>)
    requires NoInnerCr(lines) && lines == before + mid + behind && behind != []
    ensures NoCr(before) && NoInnerCr(behind) && ChopLast(lines) == before + mid + ChopLast(behind)
  {
    forall i | 0 <= i < |before| ensures !EndsInCr(before[i]) { assert before[i] == lines[i]; }
    forall i | 0 <= i < |behind| - 1 ensures !EndsInCr(behind[i]) { assert behind[i] == lines[|before| + |mid| + i]; }
  }

  /** What a stranded text reads as, once the edit has put a line feed behind its stray carriage return. */
  lemma {:induction false} StrandedReads(lines: seq<string>, before: seq<string>, mid: seq<string>, behind: seq<string>,
                                         line: string, key: string)
    requires lines != [] && NoInnerCr(lines) && EndsInCr(lines[|lines| - 1]) && lines == before + mid + behind
    requires |mid| <= 1 && (|mid| == 1 ==> Inert(mid[0], key) && behind != []) && Inert(line, key) && !EndsInCr(line)
    ensures ReadLines(ChopInit(before + [line] + CloseTail(behind)), key) == ReadLines(ChopLast(lines), key)
  {
    if behind == [] {
      assert before == lines && CloseTail(behind) == [""];
      ChopInitLast(lines, line);
      assert ChopLast(lines) + [line] + [""] == ChopLast(lines) + [line] + ([] + [""]);
      assert ChopLast(lines) + [] == ChopLast(lines);
      ReadClosed(ChopLast(lines), line, [], key);
    } else {
      assert behind[|behind| - 1] == lines[|lines| - 1];
      PartsNoCr(lines, before, mid, behind);
      ChopInitParts(before, line, behind);
      ReadClosed(before, line, ChopLast(behind), key);
      if |mid| == 1 {
        assert mid == [mid[0]];
        ReadWithout(before, mid[0], ChopLast(behind), key);
      } else {
        assert before + mid == before;
      }
    }
  }

  lemma {:induction false} StrandedResult(content: string, key: string, value: string, other: string)
    requires ValidKey(key) && OneLine(value) && other != key && Stranded(content, key)
    ensures Read(Upsert(content, key, value), other) == ReadLines(ChopLast(SplitLines(content)), other)
  {
    var lines, line := SplitLines(content), AssignmentLine(key, value);
    ResultLines(content, key, value);
    AssignmentLineReads(key, value);
    LfLines(content);
    var mid := FrameSplits(lines, key);
    StrandedReads(lines, Before(lines, key), mid, Behind(lines, key), line, other);
  }

  lemma {:induction false} ReadSnoc(front: seq<string>, l: string, key: string)
    ensures ReadLines(front + [l], key) ==
              if ReadLines(front, key).Some? then ReadLines(front, key)
              else if TableIndex(front) < |front| then None
              else ReadLines([l], key)
  {
    if front == [] {
      assert [] + [l] == [l];
    } else {
      assert (front + [l])[1..] == front[1..] + [l];
      ReadSnoc(front[1..], l, key);
    }
  }

  // ----- what a carriage return behind a comment does

  /** A comment starts at the i-th character of a value: # with no line terminator behind it, nor one among what
      stands before it, trailing blanks aside. */
  predicate CommentAt(v: string, i: nat)
    requires i < |v|
  {
    v[i] == '#' && NoTerminator(v[i..]) && NoTerminator(TrimEnd(v[..i]))
  }

  predicate HasComment(v: string) {
    exists i :: 0 <= i < |v| && CommentAt(v, i)
  }

  /** The line assigns the key and has a comment behind the value. */
  predicate CommentedKey(line: string, key: string) {
    var m := KeyAndRest(line);
    m.Some? && m.value.0 == key && HasComment(TrimStart(m.value.1))
  }

  function Hashes(s: string): nat {
    multiset(s)['#']
  }

  lemma {:induction false} HashesConcat(a: string, b: string)
    ensures Hashes(a + b) == Hashes(a) + Hashes(b)
  {
  }

  lemma {:induction false} BlankNoHashes(b: string)
    requires Blank(b)
    ensures Hashes(b) == 0
  {
    assert forall c :: c in multiset(b) ==> c in b;
  }

  /** Taking blanks and quotes off the ends takes no #. */
  lemma {:induction false} HashesKept(s: string)
    ensures Hashes(StripQuotes(s)) == Hashes(s)
  {
    var a, b := TrimSplits(s);
    var t := Trim(s);
    HashesConcat(a + t, b);
    HashesConcat(a, t);
    BlankNoHashes(a);
    BlankNoHashes(b);
    if StripQuotes(s) != t { HashesInside(t); }
  }

  lemma {:induction false} HashesInside(t: string)
    requires |t| >= 2 && t[0] != '#' && t[|t| - 1] != '#'
    ensures Hashes(t[1..|t| - 1]) == Hashes(t)
  {
    var mid, n := t[1..|t| - 1], |t| - 1;
    assert t == [t[0]] + mid + [t[n]];
    HashesConcat([t[0]] + mid, [t[n]]);
    HashesConcat([t[0]], mid);
    HashesOne(t[0]);
    HashesOne(t[n]);
  }

  lemma {:induction false} HashesOne(c: char)
    requires c != '#'
    ensures Hashes([c]) == 0
  {
  }

  lemma {:induction false} TrimEndCons(c: char, u: string)
    ensures TrimEnd([c] + u) == if TrimEnd(u) == "" then TrimEnd([c]) else [c] + TrimEnd(u)
  {
    var s := [c] + u;
    if u == "" {
      assert s == [c];
    } else {
      var n := |u| - 1;
      assert s[|s| - 1] == u[n] && s[..|s| - 1] == [c] + u[..n];
      if IsSpace(u[n]) { TrimEndCons(c, u[..n]); }
    }
  }

  lemma {:induction false} NoTerminatorCons(c: char, u: string)
    ensures NoTerminator([c] + u) <==> !IsLineTerminator(c) && NoTerminator(u)
  {
    assert c in [c] + u;
    assert forall x :: x in u ==> x in [c] + u;
  }

  lemma {:induction false} TrimEndNoTerminator(c: char, u: string)
    requires !IsLineTerminator(c)
    ensures NoTerminator(TrimEnd([c] + u)) <==> NoTerminator(TrimEnd(u))
  {
    TrimEndCons(c, u);
    NoTerminatorCons(c, TrimEnd(u));
    NoTerminatorCons(c, "");
    assert [c] + "" == [c];
    assert TrimEnd([c]) == "" || TrimEnd([c]) == [c];
  }

  /** Where no tail follows at once, a comment is one of the rest. */
  lemma {:induction false} CommentBehind(v: string)
    requires !TailOk(v) && !IsLineTerminator(v[0])
    ensures HasComment(v) <==> HasComment(v[1..])
  {
    assert v[0..] == v;
    if i :| 0 <= i < |v| && CommentAt(v, i) {
      if i > 0 {
        assert v[1..][i - 1..] == v[i..] && v[..i] == [v[0]] + v[1..][..i - 1];
        TrimEndNoTerminator(v[0], v[1..][..i - 1]);
        assert CommentAt(v[1..], i - 1);
      }
    }
    if i :| 0 <= i < |v[1..]| && CommentAt(v[1..], i) {
      assert v[1..][i..] == v[i + 1..] && v[..i + 1] == [v[0]] + v[1..][..i];
      TrimEndNoTerminator(v[0], v[1..][..i]);
      assert CommentAt(v, i + 1);
    }
  }

  lemma {:induction false} NoCommentBehind(v: string)
    requires !TailOk(v) && IsLineTerminator(v[0])
    ensures !HasComment(v)
  {
    assert v[0..] == v;
    forall i | 0 <= i < |v| ensures !CommentAt(v, i) {
      var t := TrimEnd(v[..i]);
      if t != "" {
        assert t[0] == v[0] && t[0] in t;
      } else if v[i] == '#' {
        var b := TrimEndSplits(v[..i]);
        assert v == b + v[i..];
        TrimStartAt(b, v[i..]);
      }
    }
  }

  lemma {:induction false} PlainWithCr(u: string)
    requires NoTerminator(u)
    ensures LazyValue(u + "\r").Some?
  {
    if !TailOk(u + "\r") {
      TrimStartTail(u, "\r");
      assert u != "" by { assert TrimStart("\r") == "" by { assert "\r"[1..] == ""; } }
      assert u[0] in u && (u + "\r")[1..] == u[1..] + "\r";
      assert forall c :: c in u[1..] ==> c in u;
      PlainWithCr(u[1..]);
    }
  }

  /** In front of a carriage return a comment is read as part of the value, or makes the line unreadable. */
  lemma {:induction false} CommentWithCr(v: string)
    requires TailOk(v) && TrimStart(v) != ""
    ensures LazyValue(v + "\r").Some? ==> Hashes(LazyValue(v + "\r").value) > 0
  {
    var t := TrimStart(v);
    TrimStartTail(v, "\r");
    assert '\r' in t + "\r" by { assert (t + "\r")[|t|] == '\r'; }
    assert !TailOk(v + "\r");
    assert (v + "\r")[1..] == v[1..] + "\r" && (v + "\r")[0] == v[0];
    if v[0] == '#' {
      assert forall c :: c in v[1..] ==> c in v;
      PlainWithCr(v[1..]);
      assert ['#'][0] == '#';
      HashesConcat(['#'], LazyValue(v[1..] + "\r").value);
    } else if !IsLineTerminator(v[0]) {
      CommentWithCr(v[1..]);
      if LazyValue(v[1..] + "\r").Some? { HashesConcat([v[0]], LazyValue(v[1..] + "\r").value); }
    }
  }

  /** A carriage return behind a value changes what is read exactly when there is a comment. */
  lemma {:induction false} LazyWithCr(v: string)
    ensures var x, y := LazyValue(v), LazyValue(v + "\r");
            if HasComment(v) then x.Some? && (y.None? || Hashes(y.value) > Hashes(x.value)) else y == x
  {
    TrimStartTail(v, "\r");
    if TailOk(v) {
      CommentInTail(v);
      if TrimStart(v) != "" { CommentWithCr(v); }
    } else {
      var t := TrimStart(v);
      assert (t + "\r")[0] == t[0];
      if t[0] == '#' { NoTerminatorPrefix(t, "\r"); }
      assert !TailOk(v + "\r");
      assert (v + "\r")[1..] == v[1..] + "\r" && (v + "\r")[0] == v[0];
      if IsLineTerminator(v[0]) {
        NoCommentBehind(v);
      } else {
        CommentBehind(v);
        LazyWithCr(v[1..]);
        var x, y := LazyValue(v[1..]), LazyValue(v[1..] + "\r");
        if x.Some? { HashesConcat([v[0]], x.value); }
        if y.Some? { HashesConcat([v[0]], y.value); }
      }
    }
  }

  lemma {:induction false} NoTerminatorPrefix(a: string, b: string)
    ensures NoTerminator(a + b) ==> NoTerminator(a)
  {
    assert forall c :: c in a ==> c in a + b;
  }

  lemma {:induction false} CommentInTail(v: string)
    requires TailOk(v)
    ensures HasComment(v) <==> TrimStart(v) != ""
  {
    var t := TrimStart(v);
    var b := TrimStartSplits(v);
    if t == "" {
      assert v == b;
      forall i | 0 <= i < |v| ensures v[i] != '#' { assert v[i] in v; }
    } else {
      var i := |b|;
      assert v[i..] == t && v[..i] == b;
      assert "" + b == b;
      TrimEndBlank("", b);
      assert CommentAt(v, i);
    }
  }

  lemma {:induction false} KeyAndRestTail(s: string)
    ensures var m := KeyAndRest(s);
            KeyAndRest(s + "\r") == if m.None? then None else Some((m.value.0, m.value.1 + "\r"))
  {
    var t := TrimStart(s);
    TrimStartTail(s, "\r");
    if t != "" {
      TakeKeyTail(t, "\r");
      var k := TakeKey(t);
      assert (t + "\r")[|k|..] == t[|k|..] + "\r";
      TrimStartTail(t[|k|..], "\r");
      var u := TrimStart(t[|k|..]);
      if u != "" { assert (u + "\r")[1..] == u[1..] + "\r"; }
    }
  }

  lemma {:induction false} AssigningLine(l: string)
    requires KeyAndRest(l).Some?
    ensures !Skipped(l) && !IsHeader(l)
  {
    var t := TrimStart(l);
    assert TakeKey(t) <= t && t[0] in TakeKey(t);
    var a := TrimStartSplits(l);
    assert l[|a|] == t[0] && l[|a|] in l;
    NotBlank(l, t[0]);
    assert Trim(l)[0] == t[0];
  }

  lemma {:induction false} ReadOne(l: string, key: string)
    ensures ReadLines([l], key) ==
              if KeyAndRest(l).Some? && Assignment(l).Some? && Assignment(l).value.0 == key then Some(Assignment(l).value.1) else None
  {
    assert [l][1..] == [];
    if KeyAndRest(l).Some? { AssigningLine(l); }
  }

  /** A carriage return at the end of a line changes what the line says of a key exactly when the line assigns the key
      and has a comment. */
  lemma {:induction false} CrHidesIff(s: string, key: string)
    ensures ReadLines([s + "\r"], key) != ReadLines([s], key) <==> CommentedKey(s, key)
  {
    ReadOne(s, key);
    ReadOne(s + "\r", key);
    KeyAndRestTail(s);
    var m := KeyAndRest(s);
    if m.Some? {
      var v := TrimStart(m.value.1);
      TrimStartTail(m.value.1, "\r");
      if v == "" {
        assert !HasComment(v);
      } else {
        LazyWithCr(v);
        if LazyValue(v).Some? { HashesKept(LazyValue(v).value); }
        if LazyValue(v + "\r").Some? { HashesKept(LazyValue(v + "\r").value); }
      }
    }
  }

  /** The reader gets to the last line, and there a carriage return stands behind the comment of the key's assignment. */
  predicate StrayHides(lines: seq<string>, key: string)
    requires lines != []
  {
    var n := |lines| - 1;
    && TableIndex(lines[..n]) == n && ReadLines(lines[..n], key).None?
    && EndsInCr(lines[n]) && CommentedKey(Chop(lines[n]), key)
  }

  lemma {:induction false} StrayHidesIff(lines: seq<string>, key: string)
    requires lines != [] && EndsInCr(lines[|lines| - 1])
    ensures ReadLines(ChopLast(lines), key) != ReadLines(lines, key) <==> StrayHides(lines, key)
  {
    var n := |lines| - 1;
    ReadSnoc(lines[..n], lines[n], key);
    ReadSnoc(lines[..n], Chop(lines[n]), key);
    assert lines == lines[..n] + [lines[n]] && lines[n] == Chop(lines[n]) + "\r";
    CrHidesIff(Chop(lines[n]), key);
  }

  /** Setting one key leaves another key's reading alone exactly when no stray carriage return at the end of the text
      hides that reading; it is only a stranded text that can have one. */
  lemma {:induction false} OtherKeysUnchangedIff(content: string, key: string, value: string, other: string)
    requires ValidKey(key) && OneLine(value) && other != key
    ensures Read(Upsert(content, key, value), other) == Read(content, other)
            <==> !(Stranded(content, key) && StrayHides(SplitLines(content), other))
  {
    if Stranded(content, key) {
      StrandedResult(content, key, value, other);
      LfLines(content);
      StrayHidesIff(SplitLines(content), other);
    } else {
      OthersKept(content, key, value, other);
    }
  }

  /** A key set to a value with an empty comment behind it. */
  function Commented(k: string, x: char): string {
    k + (" =" + (" " + ([x] + " #")))
  }

  lemma {:induction false} CommentedIsOne(k: string, x: char)
    requires ValidKey(k) && IsKeyChar(x)
    ensures KeyAndRest(Commented(k, x)) == Some((k, " " + ([x] + " #"))) && CommentedKey(Commented(k, x), k)
  {
    var v := [x] + " #";
    KeyThenRest(k, " " + v);
    assert (" " + v)[1..] == v && TrimStart(" " + v) == v;
    assert v[2..] == "#" && v[..2] == [x] + " ";
    TrimEndBlank([x], " ");
    assert TrimEnd([x]) == [x];
    assert CommentAt(v, 2);
  }

  lemma {:induction false} CommentedLine(k: string, x: char)
    requires ValidKey(k) && IsKeyChar(x)
    ensures var l := Commented(k, x) + "\r"; Line(l) && EndsInCr(l) && Chop(l) == Commented(k, x) && Trim(l) != ""
  {
    var l := Commented(k, x) + "\r";
    forall c | c in l ensures c != '\n' { assert c in k ==> IsKeyChar(c); }
    assert k[0] in k && l[0] == k[0] && l[0] in l;
    NotBlank(l, k[0]);
  }

  /** There are such texts: a key with a comment behind its value and then a stray carriage return. */
  lemma {:induction false} StrayExample(k: string, key: string, x: char)
    requires ValidKey(k) && IsKeyChar(x) && key != k
    ensures var content := Commented(k, x) + "\r"; Stranded(content, key) && StrayHides(SplitLines(content), k)
  {
    var content := Commented(k, x) + "\r";
    CommentedIsOne(k, x);
    CommentedLine(k, x);
    KeyAndRestTail(Commented(k, x));
    OneLineSplits(content);
    StrayLine(content, key, k);
  }

  lemma {:induction false} StrayLine(content: string, key: string, k: string)
    requires SplitLines(content) == [content] && !HasCrLf(content) && EndsInCr(content) && Trim(content) != ""
    requires KeyOf(content) == Some(k) && k != key && CommentedKey(Chop(content), k)
    ensures Stranded(content, key) && StrayHides(SplitLines(content), k)
  {
    assert [content][..0] == [] && [content][1..] == [];
  }

  lemma {:induction false} OneLineSplits(s: string)
    requires Line(s)
    ensures SplitLines(s) == [s] && !HasCrLf(s)
  {
    SplitLfLine(s, "", "");
    assert s + "" == s && "" + s == s;
    forall i | 0 <= i < |s| ensures s[i] != '\n' { assert s[i] in s; }
  }
}
