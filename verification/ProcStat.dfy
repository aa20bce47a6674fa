/** The start-ticks field of a /proc/<pid>/stat line. */
module ProcStat {
  import opened Wrappers
  import opened Text

  function LastIndexOf(s: string, c: char): (i: int)
    ensures -1 <= i < |s|
  {
    if s == "" then -1
    else if s[|s| - 1] == c then |s| - 1
    else LastIndexOf(s[..|s| - 1], c)
  }

  /** split(/\s+/), with `cur` the piece being collected. */
  function SplitSpaces(s: string, cur: string): seq<string>
    decreases |s|
  {
    if s == "" then [cur]
    else if IsSpace(s[0]) then [cur] + SplitSpaces(TrimStart(s), "")
    else SplitSpaces(s[1..], cur + [s[0]])
  }

  /** Number() of a run of decimal digits. */
  function Decimal(s: string): Option<nat> {
    if s == "" || !IsDigit(s[|s| - 1]) then None
    else
      var last := s[|s| - 1] as int - '0' as int;
      if |s| == 1 then Some(last)
      else
        var front := Decimal(s[..|s| - 1]);
        if front.None? then None else Some(10 * front.value + last)
  }

  function ParseStartTicks(stat: string): Option<nat> {
    var commandEnd := LastIndexOf(stat, ')');
    if commandEnd == -1 then None
    else
      var fields := SplitSpaces(Trim(stat[commandEnd + 1..]), "");
      if |fields| <= 19 then None
      else
        var ticks := Decimal(fields[19]);
        if ticks.Some? && ticks.value <= MAX_SAFE_INTEGER then ticks else None
  }

  // ----- the line as the kernel prints it

  function Digits(n: nat): string {
    var d := [(('0' as int) + n % 10) as char];
    if n < 10 then d else Digits(n / 10) + d
  }

  /** A printed field: the state letter or a number. */
  predicate Field(s: string) {
    s != "" && forall c :: c in s ==> !IsSpace(c) && c != ')'
  }

  /** `fields` are fields 3 and on of the line; field 22 is fields[19]. */
  function PrintStat(pid: nat, command: string, fields: seq<string>): string {
    Digits(pid) + " (" + command + ") " + Join(fields, " ") + "\n"
  }

  lemma {:induction false} DigitsRoundTrip(n: nat)
    ensures Decimal(Digits(n)) == Some(n)
  {
    if n >= 10 {
      DigitsRoundTrip(n / 10);
      var s := Digits(n);
      assert s[..|s| - 1] == Digits(n / 10);
    }
  }

  lemma {:induction false} LastIndexFound(a: string, c: char, b: string)
    requires c !in b
    ensures LastIndexOf(a + [c] + b, c) == |a|
  {
    var s := a + [c] + b;
    if b != "" {
      var n := |b| - 1;
      assert b[n] in b;
      assert s[..|s| - 1] == a + [c] + b[..n];
      assert forall x :: x in b[..n] ==> x in b;
      LastIndexFound(a, c, b[..n]);
    } else {
      assert s == a + [c];
    }
  }

  lemma {:induction false} SplitField(f: string, rest: string, cur: string)
    requires forall c :: c in f ==> !IsSpace(c)
    ensures SplitSpaces(f + rest, cur) == SplitSpaces(rest, cur + f)
  {
    if f == "" {
      assert f + rest == rest && cur + f == cur;
    } else {
      assert f[0] in f;
      assert (f + rest)[1..] == f[1..] + rest;
      assert forall c :: c in f[1..] ==> c in f;
      SplitField(f[1..], rest, cur + [f[0]]);
      assert cur + [f[0]] + f[1..] == cur + f;
    }
  }

  /** What the blanks join, splitting at the blanks gives back. */
  lemma {:induction false} SplitJoined(fields: seq<string>)
    requires fields != [] && forall f :: f in fields ==> Field(f)
    ensures SplitSpaces(Join(fields, " "), "") == fields
  {
    var f := fields[0];
    assert f in fields;
    if |fields| == 1 {
      SplitField(f, "", "");
      assert f + "" == f && "" + f == f;
      assert fields == [f];
    } else {
      var rest := Join(fields[1..], " ");
      assert forall g :: g in fields[1..] ==> g in fields;
      SplitJoined(fields[1..]);
      JoinedEnds(fields[1..]);
      SplitField(f, " " + rest, "");
      assert Join(fields, " ") == f + (" " + rest);
      assert (" " + rest)[1..] == rest;
      assert TrimStart(" " + rest) == rest;
      assert "" + f == f && [f] + fields[1..] == fields;
    }
  }

  lemma {:induction false} JoinedEnds(fields: seq<string>)
    requires fields != [] && forall f :: f in fields ==> Field(f)
    ensures var s := Join(fields, " ");
            s != "" && !IsSpace(s[0]) && !IsSpace(s[|s| - 1]) && ')' !in s
  {
    assert Field(fields[0]);
    if |fields| > 1 {
      assert forall g :: g in fields[1..] ==> g in fields;
      JoinedEnds(fields[1..]);
    }
  }

  /** The parser reads field 22 of every line the kernel can print, whatever the command name
      holds, closing parentheses and blanks included; a line cut short reads as nothing. */
  lemma {:induction false} StartTicksRoundTrip(pid: nat, command: string, fields: seq<string>, ticks: nat)
    requires fields != [] && forall f :: f in fields ==> Field(f)
    requires |fields| > 19 ==> fields[19] == Digits(ticks)
    ensures ParseStartTicks(PrintStat(pid, command, fields)) ==
              if |fields| > 19 && ticks <= MAX_SAFE_INTEGER then Some(ticks) else None
  {
    var body := Join(fields, " ");
    var head := Digits(pid) + " (" + command;
    JoinedEnds(fields);
    var stat := PrintStat(pid, command, fields);
    assert stat == head + [')'] + (" " + body + "\n");
    LastIndexFound(head, ')', " " + body + "\n");
    assert stat[|head| + 1..] == " " + body + "\n";
    TrimBetween(" ", body, "\n");
    SplitJoined(fields);
    DigitsRoundTrip(ticks);
  }

  lemma {:induction false} LastIndexMissing(s: string, c: char)
    ensures LastIndexOf(s, c) == -1 <==> c !in s
  {
    if s != "" {
      var n := |s| - 1;
      assert s == s[..n] + [s[n]];
      LastIndexMissing(s[..n], c);
    }
  }

  /** A line without a command in parentheses reads as nothing. */
  lemma {:induction false} NoCommandNoTicks(stat: string)
    requires ')' !in stat
    ensures ParseStartTicks(stat) == None
  {
    LastIndexMissing(stat, ')');
  }
}
