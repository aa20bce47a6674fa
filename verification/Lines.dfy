/** Splitting text into lines at \r?\n, and joining lines with an end-of-line mark. */
module Lines {
  import opened Wrappers
  import opened Text

  const LF: string := "\n"
  const CRLF: string := "\r\n"

  /** Splits at every line feed; `cur` is the piece being collected. */
  function SplitLf(s: string, cur: string): (r: seq<string>)
    ensures r != []
  {
    if s == "" then [cur]
    else if s[0] == '\n' then [cur] + SplitLf(s[1..], "")
    else SplitLf(s[1..], cur + [s[0]])
  }

  function Chop(line: string): string {
    if line != "" && line[|line| - 1] == '\r' then line[..|line| - 1] else line
  }

  function ChopInit(lines: seq<string>): (r: seq<string>)
    ensures |r| == |lines|
  {
    seq(|lines|, i requires 0 <= i < |lines| => if i < |lines| - 1 then Chop(lines[i]) else lines[i])
  }

  /** split(/\r?\n/) */
  function SplitLines(s: string): (r: seq<string>)
    ensures r != []
  {
    ChopInit(SplitLf(s, ""))
  }

  predicate Line(s: string) {
    '\n' !in s
  }

  predicate AllLines(lines: seq<string>) {
    forall l :: l in lines ==> Line(l)
  }

  predicate EndsInCr(line: string) {
    line != "" && line[|line| - 1] == '\r'
  }

  /** includes("\r\n") */
  predicate HasCrLf(s: string) {
    exists i :: 0 < i < |s| && s[i] == '\n' && s[i - 1] == '\r'
  }

  lemma {:induction false} SplitLfLine(l: string, rest: string, cur: string)
    requires Line(l)
    ensures SplitLf(l + rest, cur) == SplitLf(rest, cur + l)
  {
    if l == "" {
      assert l + rest == rest && cur + l == cur;
    } else {
      assert l[0] in l && forall c :: c in l[1..] ==> c in l;
      assert (l + rest)[1..] == l[1..] + rest;
      SplitLfLine(l[1..], rest, cur + [l[0]]);
      assert cur + [l[0]] + l[1..] == cur + l;
    }
  }

  lemma {:induction false} SplitLfJoin(lines: seq<string>)
    requires lines != [] && AllLines(lines)
    ensures SplitLf(Join(lines, LF), "") == lines
  {
    var l := lines[0];
    assert "" + l == l;
    if |lines| == 1 {
      SplitLfLine(l, "", "");
      assert l + "" == l && lines == [l];
    } else {
      assert AllLines(lines[1..]);
      SplitLfJoin(lines[1..]);
      var rest := Join(lines[1..], LF);
      assert Join(lines, LF) == l + (LF + rest);
      SplitLfLine(l, LF + rest, "");
      assert (LF + rest)[1..] == rest;
      assert lines == [l] + lines[1..];
    }
  }

  function AddCr(lines: seq<string>): (r: seq<string>)
    ensures |r| == |lines|
  {
    seq(|lines|, i requires 0 <= i < |lines| => if i < |lines| - 1 then lines[i] + "\r" else lines[i])
  }

  lemma {:induction false} JoinCrLf(lines: seq<string>)
    ensures Join(lines, CRLF) == Join(AddCr(lines), LF)
  {
    if |lines| > 1 {
      JoinCrLf(lines[1..]);
      assert AddCr(lines)[1..] == AddCr(lines[1..]);
      assert lines[0] + CRLF + Join(lines[1..], CRLF) == (lines[0] + "\r") + LF + Join(lines[1..], CRLF);
    }
  }

  /** Lines joined with CRLF split into the same lines; joined with LF they lose a trailing \r,
      the last one excepted. */
  lemma {:induction false} SplitJoined(lines: seq<string>)
    requires lines != [] && AllLines(lines)
    ensures SplitLines(Join(lines, CRLF)) == lines
    ensures SplitLines(Join(lines, LF)) == ChopInit(lines)
  {
    SplitLfJoin(lines);
    JoinCrLf(lines);
    var withCr := AddCr(lines);
    forall l | l in withCr ensures Line(l) {
      var i :| 0 <= i < |withCr| && withCr[i] == l;
      assert lines[i] in lines;
    }
    SplitLfJoin(withCr);
    assert ChopInit(withCr) == lines;
  }

  lemma {:induction false} SplitLfAreLines(s: string, cur: string)
    requires Line(cur)
    ensures AllLines(SplitLf(s, cur))
  {
    if s != "" {
      if s[0] == '\n' {
        SplitLfAreLines(s[1..], "");
      } else {
        SplitLfAreLines(s[1..], cur + [s[0]]);
      }
    }
  }

  lemma {:induction false} SplitAreLines(s: string)
    ensures AllLines(SplitLines(s))
  {
    SplitLfAreLines(s, "");
    var pieces := SplitLf(s, "");
    forall l | l in SplitLines(s) ensures Line(l) {
      var i :| 0 <= i < |pieces| && SplitLines(s)[i] == l;
      assert pieces[i] in pieces;
    }
  }

  /** Joining undoes splitting at line feeds. */
  lemma {:induction false} JoinSplitLf(s: string, cur: string)
    ensures Join(SplitLf(s, cur), LF) == cur + s
  {
    if s == "" {
      assert cur + s == cur;
    } else if s[0] == '\n' {
      JoinSplitLf(s[1..], "");
      var rest := SplitLf(s[1..], "");
      assert ([cur] + rest)[1..] == rest;
      assert cur + LF + ("" + s[1..]) == cur + s;
    } else {
      JoinSplitLf(s[1..], cur + [s[0]]);
      assert cur + [s[0]] + s[1..] == cur + s;
    }
  }

  predicate NoInnerCr(lines: seq<string>) {
    forall i :: 0 <= i < |lines| - 1 ==> !EndsInCr(lines[i])
  }

  predicate NoCr(lines: seq<string>) {
    forall i :: 0 <= i < |lines| ==> !EndsInCr(lines[i])
  }

  /** Text joined with LF shows a CRLF exactly when a line before the last ends in \r. */
  lemma {:induction false} HasCrLfJoined(lines: seq<string>)
    requires AllLines(lines)
    ensures HasCrLf(Join(lines, LF)) <==> !NoInnerCr(lines)
  {
    if |lines| > 1 {
      var rest := lines[1..];
      assert AllLines(rest);
      HasCrLfJoined(rest);
      var l, tail := lines[0], Join(rest, LF);
      assert l in lines;
      HasCrLfSplit(l, tail);
      assert Join(lines, LF) == l + LF + tail;
      assert NoInnerCr(lines) <==> !EndsInCr(l) && NoInnerCr(rest) by {
        if NoInnerCr(lines) {
          forall i | 0 <= i < |rest| - 1 ensures !EndsInCr(rest[i]) { assert rest[i] == lines[i + 1]; }
          assert !EndsInCr(lines[0]);
        }
        if !EndsInCr(l) && NoInnerCr(rest) {
          forall i | 0 <= i < |lines| - 1 ensures !EndsInCr(lines[i]) {
            if i > 0 { assert lines[i] == rest[i - 1]; }
          }
        }
      }
    } else {
      var s := Join(lines, LF);
      if lines != [] { assert lines[0] in lines; }
      forall i | 0 < i < |s| ensures s[i] != '\n' { assert s[i] in s; }
    }
  }

  lemma {:induction false} NoFeed(l: string)
    requires Line(l)
    ensures forall i :: 0 <= i < |l| ==> l[i] != '\n'
  {
    forall i | 0 <= i < |l| ensures l[i] != '\n' { assert l[i] in l; }
  }

  lemma {:induction false} HasCrLfSplit(l: string, tail: string)
    requires Line(l)
    ensures HasCrLf(l + LF + tail) <==> EndsInCr(l) || HasCrLf(tail)
  {
    var s, n := l + LF + tail, |l| + 1;
    if EndsInCr(l) {
      assert s[|l|] == '\n' && s[|l| - 1] == '\r';
    }
    if i :| 0 < i < |tail| && tail[i] == '\n' && tail[i - 1] == '\r' {
      assert s[n + i] == '\n' && s[n + i - 1] == '\r';
    }
    NoFeed(l);
    if i :| 0 < i < |s| && s[i] == '\n' && s[i - 1] == '\r' {
      if i > |l| {
        assert s[i] == tail[i - n] && (i > n ==> s[i - 1] == tail[i - n - 1]);
      }
    }
  }

  /** Joined with CRLF, every line feed has its carriage return. */
  lemma {:induction false} JoinedCrLf(lines: seq<string>, i: nat)
    requires AllLines(lines)
    requires i < |Join(lines, CRLF)| && Join(lines, CRLF)[i] == '\n'
    ensures i > 0 && Join(lines, CRLF)[i - 1] == '\r'
  {
    var l := lines[0];
    assert l in lines;
    NoFeed(l);
    if |lines| > 1 {
      var rest := Join(lines[1..], CRLF);
      assert Join(lines, CRLF) == l + CRLF + rest;
      if i >= |l| + 2 {
        assert AllLines(lines[1..]);
        JoinedCrLf(lines[1..], i - |l| - 2);
      }
    }
  }

  lemma {:induction false} JoinConcat(a: seq<string>, b: seq<string>, sep: string)
    requires a != [] && b != []
    ensures Join(a + b, sep) == Join(a, sep) + sep + Join(b, sep)
  {
    if |a| == 1 {
      assert (a + b)[1..] == b;
    } else {
      JoinConcat(a[1..], b, sep);
      assert (a + b)[1..] == a[1..] + b;
      assert a[0] + sep + (Join(a[1..], sep) + sep + Join(b, sep)) == (a[0] + sep + Join(a[1..], sep)) + sep + Join(b, sep);
    }
  }
}
