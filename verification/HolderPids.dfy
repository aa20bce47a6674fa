/** Which pid a holder names: older versions wrote a bare string that starts with it. */
module HolderPids {
  import opened Wrappers
  import opened Text
  import opened LeaseFile
  import opened ProcStat

  predicate AllDigits(s: string) {
    forall c :: c in s ==> IsDigit(c)
  }

  function Val(s: string, acc: nat): nat
    requires AllDigits(s)
  {
    if s == "" then acc
    else
      assert s[0] in s && forall c :: c in s[1..] ==> c in s;
      Val(s[1..], 10 * acc + (s[0] as int - '0' as int))
  }

  lemma {:induction false} ValLast(s: string, c: char, acc: nat)
    requires AllDigits(s) && IsDigit(c)
    ensures AllDigits(s + [c]) && Val(s + [c], acc) == 10 * Val(s, acc) + (c as int - '0' as int)
  {
    if s == "" {
      assert s + [c] == [c] && [c][1..] == "";
    } else {
      assert s[0] in s && forall d :: d in s[1..] ==> d in s;
      assert (s + [c])[1..] == s[1..] + [c];
      ValLast(s[1..], c, 10 * acc + (s[0] as int - '0' as int));
    }
  }

  lemma {:induction false} ValDigits(n: nat)
    ensures AllDigits(Digits(n)) && Val(Digits(n), 0) == n && Digits(n) != "" && (n > 0 ==> Digits(n)[0] != '0')
  {
    var c := (('0' as int) + n % 10) as char;
    if n < 10 {
      assert Digits(n) == "" + [c];
      ValLast("", c, 0);
    } else {
      ValDigits(n / 10);
      ValLast(Digits(n / 10), c, 0);
    }
  }

  lemma {:induction false} DigitsVal(s: string)
    requires AllDigits(s) && s != "" && s[0] != '0'
    ensures Val(s, 0) > 0 && Digits(Val(s, 0)) == s
  {
    var n := |s| - 1;
    assert s == s[..n] + [s[n]] && s[n] in s && s[0] in s;
    assert forall c :: c in s[..n] ==> c in s;
    ValLast(s[..n], s[n], 0);
    if n > 0 { DigitsVal(s[..n]); }
  }

  lemma {:induction false} BeforeDash(s: string, rest: string, acc: nat)
    requires AllDigits(s)
    ensures DigitsBeforeDash(s + "-" + rest, acc) == Some(Val(s, acc))
  {
    var text := s + "-" + rest;
    if s != "" {
      assert s[0] in s && forall c :: c in s[1..] ==> c in s;
      assert text[1..] == s[1..] + "-" + rest;
      BeforeDash(s[1..], rest, 10 * acc + (s[0] as int - '0' as int));
    }
  }

  lemma {:induction false} DashFound(text: string, acc: nat) returns (s: string, rest: string)
    requires DigitsBeforeDash(text, acc).Some?
    ensures AllDigits(s) && text == s + "-" + rest
  {
    if text[0] == '-' {
      s, rest := "", text[1..];
    } else {
      var s', rest' := DashFound(text[1..], 10 * acc + (text[0] as int - '0' as int));
      s, rest := [text[0]] + s', rest';
    }
  }

  /** The pid of such a holder is the positive number, written without leading zeros and small enough to be exact, that
      stands before the first dash; there is none otherwise. */
  lemma {:induction false} LegacyPidIff(text: string, n: nat)
    ensures HolderPid(Legacy(text)) == Some(n) <==> 0 < n <= 9007199254740991 && Digits(n) + "-" <= text
  {
    ValDigits(n);
    if Digits(n) + "-" <= text {
      var rest := text[|Digits(n)| + 1..];
      assert text == Digits(n) + "-" + rest;
      BeforeDash(Digits(n), rest, 0);
      assert text[0] == Digits(n)[0] && text[0] in Digits(n);
    }
    if HolderPid(Legacy(text)) == Some(n) {
      var s, rest := DashFound(text, 0);
      BeforeDash(s, rest, 0);
      assert s != "" && s[0] == text[0];
      DigitsVal(s);
    }
  }

  /** A record's pid counts if it is positive and exact; any other holder is dead, whatever processes there are. */
  lemma {:induction false} RecordPidIff(id: string, pid: nat, linux: bool, ticks: Option<nat>, n: nat)
    ensures HolderPid(Record(id, pid, linux, ticks)) == Some(n) <==> n == pid && 0 < pid <= 9007199254740991
    ensures pid == 0 || pid > 9007199254740991 ==>
              forall table, onLinux :: !JudgedAlive(Record(id, pid, linux, ticks), table, onLinux)
  {
  }
}
