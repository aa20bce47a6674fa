/** The string operations the parsers and editors are made of, as JavaScript defines them. */
module Text {
  import opened Wrappers

  const MAX_SAFE_INTEGER: nat := 9007199254740991

  /** White space for trim() and for \s. */
  predicate IsSpace(c: char) {
    var n := c as int;
    || 9 <= n <= 13 || n == 32 || n == 160 || n == 0x1680 || 0x2000 <= n <= 0x200A
    || n == 0x2028 || n == 0x2029 || n == 0x202F || n == 0x205F || n == 0x3000 || n == 0xFEFF
  }

  /** What the dot of a regular expression does not match. */
  predicate IsLineTerminator(c: char) {
    var n := c as int;
    n == 10 || n == 13 || n == 0x2028 || n == 0x2029
  }

  predicate NoTerminator(s: string) {
    forall c :: c in s ==> !IsLineTerminator(c)
  }

  predicate IsDigit(c: char) { '0' <= c <= '9' }

  function TrimStart(s: string): (r: string)
    ensures |r| <= |s|
    ensures r != "" ==> !IsSpace(r[0])
    ensures s != "" && IsSpace(s[0]) ==> |r| < |s|
  {
    if s != "" && IsSpace(s[0]) then TrimStart(s[1..]) else s
  }

  function TrimEnd(s: string): (r: string)
    ensures r <= s
    ensures r != "" ==> !IsSpace(r[|r| - 1])
  {
    if s != "" && IsSpace(s[|s| - 1]) then TrimEnd(s[..|s| - 1]) else s
  }

  function Trim(s: string): (r: string)
    ensures r != "" ==> !IsSpace(r[0]) && !IsSpace(r[|r| - 1])
  {
    TrimEnd(TrimStart(s))
  }

  predicate Blank(s: string) {
    forall c :: c in s ==> IsSpace(c)
  }

  function Join(parts: seq<string>, sep: string): string {
    if parts == [] then ""
    else if |parts| == 1 then parts[0]
    else parts[0] + sep + Join(parts[1..], sep)
  }

  // ----- trimming

  lemma {:induction false} TrimEndBlank(s: string, b: string)
    requires Blank(b)
    ensures TrimEnd(s + b) == TrimEnd(s)
  {
    if b == "" {
      assert s + b == s;
    } else {
      var n := |b| - 1;
      assert b[n] in b;
      assert forall c :: c in b[..n] ==> c in b;
      assert (s + b)[..|s + b| - 1] == s + b[..n];
      TrimEndBlank(s, b[..n]);
    }
  }

  lemma {:induction false} TrimStartBlank(b: string, s: string)
    requires Blank(b)
    ensures TrimStart(b + s) == TrimStart(s)
  {
    if b == "" {
      assert b + s == s;
    } else {
      assert b[0] in b;
      assert forall c :: c in b[1..] ==> c in b;
      assert (b + s)[1..] == b[1..] + s;
      TrimStartBlank(b[1..], s);
    }
  }

  /** Trimming finds what stands between the blanks. */
  lemma {:induction false} TrimBetween(a: string, s: string, b: string)
    requires Blank(a) && Blank(b)
    requires s != "" ==> !IsSpace(s[0]) && !IsSpace(s[|s| - 1])
    ensures Trim(a + s + b) == s
  {
    assert a + s + b == a + (s + b);
    TrimStartBlank(a, s + b);
    if s == "" {
      assert s + b == b;
      assert b + "" == b;
      TrimStartBlank(b, "");
    } else {
      TrimEndBlank(s, b);
    }
  }

  lemma {:induction false} TrimNothing(s: string)
    requires s != "" && !IsSpace(s[0]) && !IsSpace(s[|s| - 1])
    ensures Trim(s) == s
  {
    assert "" + s + "" == s;
    TrimBetween("", s, "");
  }

  lemma {:induction false} TrimStartAt(b: string, s: string)
    requires Blank(b) && s != "" && !IsSpace(s[0])
    ensures TrimStart(b + s) == s
  {
    TrimStartBlank(b, s);
  }

  lemma {:induction false} TrimEndKeeps(x: string, rest: string)
    requires x != "" && !IsSpace(x[|x| - 1])
    ensures TrimEnd(x + rest) == x + TrimEnd(rest)
  {
    if rest == "" {
      assert x + rest == x && x + TrimEnd(rest) == x;
    } else if IsSpace(rest[|rest| - 1]) {
      assert (x + rest)[..|x + rest| - 1] == x + rest[..|rest| - 1];
      TrimEndKeeps(x, rest[..|rest| - 1]);
    }
  }

  lemma {:induction false} TrimStartSplits(s: string) returns (a: string)
    ensures Blank(a) && s == a + TrimStart(s)
  {
    if s != "" && IsSpace(s[0]) {
      var a' := TrimStartSplits(s[1..]);
      a := [s[0]] + a';
      assert s == [s[0]] + s[1..];
    } else {
      a := "";
    }
  }

  lemma {:induction false} TrimEndSplits(s: string) returns (b: string)
    ensures Blank(b) && s == TrimEnd(s) + b
  {
    if s != "" && IsSpace(s[|s| - 1]) {
      var b' := TrimEndSplits(s[..|s| - 1]);
      b := b' + [s[|s| - 1]];
      assert s == s[..|s| - 1] + [s[|s| - 1]];
    } else {
      b := "";
    }
  }

  /** A string is its trimmed middle between blanks. */
  lemma {:induction false} TrimSplits(s: string) returns (a: string, b: string)
    ensures Blank(a) && Blank(b) && s == a + Trim(s) + b
  {
    a := TrimStartSplits(s);
    b := TrimEndSplits(TrimStart(s));
  }

  /** Blanks around a string do not show once it is trimmed. */
  lemma {:induction false} TrimAbsorbs(a: string, s: string, b: string)
    requires Blank(a) && Blank(b)
    ensures Trim(a + s + b) == Trim(s)
  {
    var x, y := TrimSplits(s);
    assert a + s + b == (a + x) + Trim(s) + (y + b);
    TrimBetween(a + x, Trim(s), y + b);
  }
}
