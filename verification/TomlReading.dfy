/** What the reader of top-level strings takes from a line, however it is laid out, and from which line it takes it. */
module TomlReading {
  import opened Wrappers
  import opened Text
  import opened TopLevelToml
  import opened TomlLens

  /** Keys are made of ASCII letters and digits, the underscore, the dot and the dash. */
  lemma {:induction false} ValidKeyIff(key: string)
    ensures ValidKey(key) <==>
              key != "" && forall i :: 0 <= i < |key| ==>
                var n := key[i] as int; 65 <= n <= 90 || 97 <= n <= 122 || 48 <= n <= 57 || n == 95 || n == 46 || n == 45
  {
    assert forall i :: 0 <= i < |key| ==> key[i] in key;
  }

  // ----- one line

  predicate Comment(s: string) {
    s == "" || (s[0] == '#' && NoTerminator(s))
  }

  /** What stands between the equals sign and a comment. */
  predicate RawValue(w: string) {
    NoTerminator(w) && '#' !in w && (w != "" ==> !IsSpace(w[0]) && !IsSpace(w[|w| - 1]))
  }

  lemma {:induction false} CommentIsTail(d: string, comment: string)
    requires Blank(d) && Comment(comment)
    ensures TailOk(d + comment)
  {
    TrimStartBlank(d, comment);
  }

  lemma {:induction false} ValueIsNoTail(w: string, rest: string)
    requires w != "" && '#' !in w && !IsSpace(w[|w| - 1])
    ensures !TailOk(w + rest)
  {
    if IsSpace(w[0]) {
      assert (w + rest)[1..] == w[1..] + rest && forall c :: c in w[1..] ==> c in w;
      ValueIsNoTail(w[1..], rest);
    } else {
      assert w[0] in w && TrimStart(w + rest) == w + rest;
    }
  }

  lemma {:induction false} LazyStops(w: string, tail: string)
    requires NoTerminator(w) && '#' !in w && (w != "" ==> !IsSpace(w[|w| - 1])) && TailOk(tail)
    ensures LazyValue(w + tail) == Some(w)
  {
    if w == "" {
      assert w + tail == tail;
    } else {
      ValueIsNoTail(w, tail);
      assert w[0] in w && (w + tail)[1..] == w[1..] + tail && forall c :: c in w[1..] ==> c in w;
      LazyStops(w[1..], tail);
      assert [w[0]] + w[1..] == w;
    }
  }

  lemma {:induction false} KeyReads(a: string, key: string, b: string, rest: string)
    requires Blank(a) && ValidKey(key) && Blank(b)
    ensures KeyAndRest(a + (key + (b + ("=" + rest)))) == Some((key, rest))
  {
    var t := "=" + rest;
    var s := key + (b + t);
    assert key[0] in key && s[0] == key[0];
    TrimStartBlank(a, s);
    assert TrimStart(s) == s;
    assert b != "" ==> b[0] in b && (b + t)[0] == b[0];
    TakeKeyAll(key, b + t);
    assert s[|key|..] == b + t;
    TrimStartBlank(b, t);
    assert t[1..] == rest;
  }

  function Layout(a: string, key: string, b: string, c: string, w: string, d: string, comment: string): string {
    a + (key + (b + ("=" + (c + (w + (d + comment))))))
  }

  /** However a line is laid out, the value is what stands between the equals sign and the comment. */
  lemma {:induction false} LayoutReads(a: string, key: string, b: string, c: string, w: string, d: string, comment: string)
    requires ValidKey(key) && Blank(a) && Blank(b) && Blank(c) && Blank(d) && RawValue(w) && Comment(comment)
    ensures Assignment(Layout(a, key, b, c, w, d, comment)) == Some((key, StripQuotes(w)))
  {
    KeyReads(a, key, b, c + (w + (d + comment)));
    TrimStartBlank(c, w + (d + comment));
    CommentIsTail(d, comment);
    if w == "" {
      assert w + (d + comment) == d + comment;
      TrimStartBlank(d, comment);
      assert "" + comment == comment;
      CommentIsTail("", comment);
    } else {
      assert TrimStart(w + (d + comment)) == w + (d + comment);
      LazyStops(w, d + comment);
    }
  }

  /** A value between two quotes of the same kind, single or double, is read without them ... */
  lemma {:induction false} QuotedValueRead(a: string, key: string, b: string, c: string, quote: char, v: string, d: string, comment: string)
    requires ValidKey(key) && Blank(a) && Blank(b) && Blank(c) && Blank(d) && Comment(comment)
    requires (quote == '\'' || quote == '"') && NoTerminator(v) && '#' !in v
    ensures Assignment(Layout(a, key, b, c, [quote] + v + [quote], d, comment)) == Some((key, v))
  {
    var w := [quote] + v + [quote];
    LayoutReads(a, key, b, c, w, d, comment);
    TrimNothing(w);
    assert w[1..|w| - 1] == v;
  }

  /** ... and any other value as it stands. */
  lemma {:induction false} BareValueRead(a: string, key: string, b: string, c: string, w: string, d: string, comment: string)
    requires ValidKey(key) && Blank(a) && Blank(b) && Blank(c) && Blank(d) && RawValue(w) && Comment(comment)
    requires |w| >= 2 && w[0] == w[|w| - 1] ==> w[0] != '\'' && w[0] != '"'
    ensures Assignment(Layout(a, key, b, c, w, d, comment)) == Some((key, w))
  {
    LayoutReads(a, key, b, c, w, d, comment);
    if w != "" { TrimNothing(w); }
  }

  /** A blank line or a comment says nothing, with blanks before it or not. */
  lemma {:induction false} SkippedIff(a: string, rest: string)
    requires Blank(a) && (rest != "" ==> !IsSpace(rest[0]))
    ensures Skipped(a + rest) <==> rest == "" || rest[0] == '#'
  {
    TrimStartBlank(a, rest);
    var b := TrimEndSplits(rest);
    assert rest != "" ==> rest[0] in rest;
    assert TrimEnd(rest) == "" ==> rest == b;
  }

  // ----- table headers

  /** Nothing but blanks and a comment, which may have more blanks behind it. */
  ghost predicate EndsLine(tail: string) {
    exists b, comment, d :: Blank(b) && Comment(comment) && Blank(d) && tail == b + comment + d
  }

  ghost predicate HeaderLine(line: string) {
    exists a, name, tail ::
      && Blank(a) && line == a + (("[" + name + "]") + tail)
      && name != "" && (forall i :: 0 <= i < |name| ==> name[i] != '[' && name[i] != ']')
      && EndsLine(tail)
  }

  lemma {:induction false} CommentEnds(b: string, comment: string, d: string)
    requires Blank(b) && Comment(comment) && Blank(d)
    ensures TailOk(TrimEnd(b + comment + d))
  {
    TrimEndBlank(b + comment, d);
    if comment == "" {
      assert b + comment == b && "" + b == b;
      TrimEndBlank("", b);
    } else {
      var rest := comment[1..];
      assert b + comment == (b + "#") + rest && comment == "#" + rest;
      TrimEndKeeps(b + "#", rest);
      var kept := "#" + TrimEnd(rest);
      assert (b + "#") + TrimEnd(rest) == b + kept;
      assert forall c :: c in kept ==> c in comment;
      TrimStartAt(b, kept);
    }
  }

  lemma {:induction false} TailEnds(s: string, d: string)
    requires TailOk(s) && Blank(d)
    ensures EndsLine(s + d)
  {
    var b := TrimStartSplits(s);
    assert s + d == b + TrimStart(s) + d;
  }

  lemma {:induction false} HeaderRead(a: string, name: string, tail: string)
    requires Blank(a) && name != "" && (forall i :: 0 <= i < |name| ==> name[i] != '[' && name[i] != ']') && EndsLine(tail)
    ensures IsHeader(a + (("[" + name + "]") + tail))
  {
    var x := "[" + name + "]";
    TrimStartAt(a, x + tail);
    TrimEndKeeps(x, tail);
    var b, comment, d :| Blank(b) && Comment(comment) && Blank(d) && tail == b + comment + d;
    CommentEnds(b, comment, d);
    BracketsRead(name, TrimEnd(tail));
  }

  lemma {:induction false} BracketsRead(name: string, tail: string)
    requires name != "" && (forall i :: 0 <= i < |name| ==> name[i] != '[' && name[i] != ']') && TailOk(tail)
    ensures IsHeaderText(("[" + name + "]") + tail)
  {
    var t, n := ("[" + name + "]") + tail, |name| + 1;
    assert t[n] == ']' && t[n + 1..] == tail;
    forall i | 1 <= i < n ensures t[i] != '[' && t[i] != ']' { assert t[i] == name[i - 1]; }
  }

  lemma {:induction false} BracketsSplit(t: string) returns (name: string, tail: string)
    requires IsHeaderText(t)
    ensures t == ("[" + name + "]") + tail && TailOk(tail)
    ensures name != "" && forall i :: 0 <= i < |name| ==> name[i] != '[' && name[i] != ']'
  {
    var n :| 1 < n < |t| && t[n] == ']' && TailOk(t[n + 1..]) && forall i :: 1 <= i < n ==> t[i] != '[' && t[i] != ']';
    name, tail := t[1..n], t[n + 1..];
    assert t == ([t[0]] + name + [t[n]]) + tail;
    assert [t[0]] == "[" && [t[n]] == "]";
    forall i | 0 <= i < |name| ensures name[i] != '[' && name[i] != ']' { assert name[i] == t[i + 1]; }
  }

  lemma {:induction false} Regrouped(a: string, x: string, tail: string, d: string)
    ensures a + (x + tail) + d == a + (x + (tail + d))
  {
  }

  lemma {:induction false} HeaderSplits(line: string)
    requires IsHeader(line)
    ensures HeaderLine(line)
  {
    var a, d := TrimSplits(line);
    var name, tail := BracketsSplit(Trim(line));
    TailEnds(tail, d);
    Regrouped(a, "[" + name + "]", tail, d);
  }

  /** A line is a table header exactly if it reads "[name]" with no bracket in the name, blanks and a comment aside. */
  lemma {:induction false} HeaderIff(line: string)
    ensures IsHeader(line) <==> HeaderLine(line)
  {
    if a, name, tail :|
      && Blank(a) && line == a + (("[" + name + "]") + tail)
      && name != "" && (forall i :: 0 <= i < |name| ==> name[i] != '[' && name[i] != ']')
      && EndsLine(tail)
    {
      HeaderRead(a, name, tail);
    }
    if IsHeader(line) { HeaderSplits(line); }
  }

  // ----- the line that is read

  predicate Sets(line: string, key: string, v: string) {
    !Skipped(line) && !IsHeader(line) && Assignment(line) == Some((key, v))
  }

  /** The reading goes on past this line. */
  predicate Passes(line: string, key: string) {
    Skipped(line) || (!IsHeader(line) && (Assignment(line).Some? ==> Assignment(line).value.0 != key))
  }

  /** The value read is the one of the first line above every table header that assigns the key. */
  lemma {:induction false} ReadIff(lines: seq<string>, key: string, v: string)
    ensures ReadLines(lines, key) == Some(v) <==>
              exists i :: 0 <= i < |lines| && Sets(lines[i], key, v) && forall j :: 0 <= j < i ==> Passes(lines[j], key)
  {
    if lines != [] {
      var rest := lines[1..];
      ReadIff(rest, key, v);
      if i :| 0 <= i < |lines| && Sets(lines[i], key, v) && forall j :: 0 <= j < i ==> Passes(lines[j], key) {
        if i > 0 {
          assert rest[i - 1] == lines[i] && Passes(lines[0], key);
          forall j | 0 <= j < i - 1 ensures Passes(rest[j], key) { assert rest[j] == lines[j + 1]; }
        }
      }
      if ReadLines(lines, key) == Some(v) {
        if Passes(lines[0], key) {
          var i :| 0 <= i < |rest| && Sets(rest[i], key, v) && forall j :: 0 <= j < i ==> Passes(rest[j], key);
          assert Sets(lines[i + 1], key, v);
          forall j | 0 <= j < i + 1 ensures Passes(lines[j], key) {
            if j > 0 { assert lines[j] == rest[j - 1]; }
          }
        } else {
          assert Sets(lines[0], key, v);
        }
      }
    }
  }
}
