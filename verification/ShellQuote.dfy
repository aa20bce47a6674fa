/** The commands handed to a shell, and how a POSIX shell reads them back.
    The reader follows sections 2.2 (Quoting) and 2.3 (Token Recognition) of the Shell Command
    Language in POSIX.1-2017. */
module ShellQuote {
  import opened Wrappers
  import opened Text

  // ----- the builders

  function EscapeQuotes(value: string): string {
    if value == "" then ""
    else (if value[0] == '\'' then "'\"'\"'" else [value[0]]) + EscapeQuotes(value[1..])
  }

  function QuoteShellArg(value: string): string {
    "'" + EscapeQuotes(value) + "'"
  }

  function QuoteAll(args: seq<string>): seq<string> {
    seq(|args|, i requires 0 <= i < |args| => QuoteShellArg(args[i]))
  }

  function BuildShellCommand(command: string, args: seq<string>): string {
    Join([QuoteShellArg(command)] + QuoteAll(args), " ")
  }

  const ALLOWED_SHELLS: set<string> := {
    "/bin/sh", "/bin/bash", "/bin/zsh", "/bin/dash", "/bin/fish",
    "/usr/bin/sh", "/usr/bin/bash", "/usr/bin/zsh", "/usr/bin/dash", "/usr/bin/fish",
    "/usr/local/bin/bash", "/usr/local/bin/zsh", "/usr/local/bin/fish",
    "/opt/local/bin/zsh", "/opt/homebrew/bin/zsh"
  }

  function Lower(c: char): char {
    if 'A' <= c <= 'Z' then (c as int - 'A' as int + 'a' as int) as char else c
  }

  /** The path ends in `suffix`, letter case aside. */
  predicate EndsWithFolded(path: string, suffix: string) {
    |suffix| <= |path| &&
    forall i :: 0 <= i < |suffix| ==> Lower(path[|path| - |suffix| + i]) == suffix[i]
  }

  function RcSource(shellPath: Option<string>, rcSetting: string): string {
    if Trim(rcSetting) != "1" || shellPath.None? then ""
    else if EndsWithFolded(shellPath.value, "/zsh") then "if [ -f ~/.zshrc ]; then source ~/.zshrc; fi; "
    else if EndsWithFolded(shellPath.value, "/bash") then "if [ -f ~/.bashrc ]; then source ~/.bashrc; fi; "
    else ""
  }

  function ShellBin(shellPath: Option<string>): string {
    var raw := if shellPath.Some? && Trim(shellPath.value) != "" then Trim(shellPath.value) else "/bin/sh";
    if raw in ALLOWED_SHELLS then raw else "/bin/sh"
  }

  function InnerCommand(command: string, args: seq<string>, shellPath: Option<string>, rcSetting: string): string {
    RcSource(shellPath, rcSetting) + "exec " + BuildShellCommand(command, args)
  }

  function BuildPaneCommand(command: string, args: seq<string>, shellPath: Option<string>, rcSetting: string): string {
    QuoteShellArg(ShellBin(shellPath)) + " -c " + QuoteShellArg(InnerCommand(command, args, shellPath, rcSetting))
  }

  // ----- the reader

  datatype Mode = Plain | InSingle | InDouble

  /** Unquoted, these mean something to the shell other than themselves. */
  predicate Special(c: char) {
    c in {'|', '&', ';', '<', '>', '(', ')', '$', '`', '\n', '*', '?', '[', '#', '~', '=', '%', '{', '}', '!'}
  }

  function Grow(word: Option<string>, c: char): Option<string> {
    Some((if word.Some? then word.value else "") + [c])
  }

  function Open(word: Option<string>): Option<string> {
    Some(if word.Some? then word.value else "")
  }

  function Finish(word: Option<string>, rest: Option<seq<string>>): Option<seq<string>> {
    if rest.None? then None
    else if word.None? then rest
    else Some([word.value] + rest.value)
  }

  /** The words of a simple command. None when a quote is left open, or when anything would be
      an operator, an expansion or a pattern, so that Some means the words stand as they are. */
  function Words(s: string, mode: Mode, word: Option<string>): Option<seq<string>>
    decreases |s|
  {
    match mode
    case Plain =>
      if s == "" then Finish(word, Some([]))
      else if s[0] == ' ' || s[0] == '\t' then Finish(word, Words(s[1..], Plain, None))
      else if s[0] == '\'' then Words(s[1..], InSingle, Open(word))
      else if s[0] == '"' then Words(s[1..], InDouble, Open(word))
      else if s[0] == '\\' then
        if |s| == 1 then None
        else if s[1] == '\n' then Words(s[2..], Plain, word)
        else Words(s[2..], Plain, Grow(word, s[1]))
      else if Special(s[0]) then None
      else Words(s[1..], Plain, Grow(word, s[0]))
    case InSingle =>
      if s == "" then None
      else if s[0] == '\'' then Words(s[1..], Plain, word)
      else Words(s[1..], InSingle, Grow(word, s[0]))
    case InDouble =>
      if s == "" then None
      else if s[0] == '"' then Words(s[1..], Plain, word)
      else if s[0] == '$' || s[0] == '`' then None
      else if s[0] == '\\' && |s| > 1 && s[1] == '\n' then Words(s[2..], InDouble, word)
      else if s[0] == '\\' && |s| > 1 && s[1] in {'$', '`', '"', '\\'} then Words(s[2..], InDouble, Grow(word, s[1]))
      else Words(s[1..], InDouble, Grow(word, s[0]))
  }

  // ----- round trips

  lemma {:induction false} StepPlain(quote: char, rest: string, w: string)
    requires quote == '\'' || quote == '"'
    ensures Words([quote] + rest, Plain, Some(w)) == Words(rest, if quote == '"' then InDouble else InSingle, Some(w))
  {
    assert ([quote] + rest)[1..] == rest;
  }

  lemma {:induction false} StepSingle(c: char, rest: string, w: string)
    ensures Words([c] + rest, InSingle, Some(w)) ==
              if c == '\'' then Words(rest, Plain, Some(w)) else Words(rest, InSingle, Some(w + [c]))
  {
    assert ([c] + rest)[1..] == rest;
  }

  lemma {:induction false} StepDouble(c: char, rest: string, w: string)
    requires c == '\'' || c == '"'
    ensures Words([c] + rest, InDouble, Some(w)) ==
              if c == '"' then Words(rest, Plain, Some(w)) else Words(rest, InDouble, Some(w + [c]))
  {
    assert ([c] + rest)[1..] == rest;
  }

  /** The five characters that stand for one quote. */
  lemma {:induction false} QuoteSteps(tail: string, w: string)
    ensures Words(['\''] + (['"'] + (['\''] + (['"'] + (['\''] + tail)))), InSingle, Some(w)) ==
              Words(tail, InSingle, Some(w + "'"))
  {
    var s4 := ['\''] + tail;
    var s3 := ['"'] + s4;
    var s2 := ['\''] + s3;
    var s1 := ['"'] + s2;
    StepSingle('\'', s1, w);
    StepPlain('"', s2, w);
    StepDouble('\'', s3, w);
    StepDouble('"', s4, w + "'");
    StepPlain('\'', tail, w + "'");
  }

  lemma {:induction false} EscapeFirst(value: string, rest: string)
    requires value != ""
    ensures var tail := EscapeQuotes(value[1..]) + "'" + rest;
            EscapeQuotes(value) + "'" + rest ==
              if value[0] == '\'' then ['\''] + (['"'] + (['\''] + (['"'] + (['\''] + tail))))
              else [value[0]] + tail
  {
  }

  lemma {:induction false} EscapedStep(c: char, escaped: string, tail: string, w: string)
    requires escaped == if c == '\'' then ['\''] + (['"'] + (['\''] + (['"'] + (['\''] + tail)))) else [c] + tail
    ensures Words(escaped, InSingle, Some(w)) == Words(tail, InSingle, Some(w + [c]))
  {
    if c == '\'' {
      QuoteSteps(tail, w);
    } else {
      StepSingle(c, tail, w);
    }
  }

  lemma {:induction false} EscapedReads(value: string, rest: string, w: string)
    ensures Words(EscapeQuotes(value) + "'" + rest, InSingle, Some(w)) == Words(rest, Plain, Some(w + value))
  {
    if value == "" {
      assert EscapeQuotes(value) + "'" + rest == ['\''] + rest;
      StepSingle('\'', rest, w);
      assert w + value == w;
    } else {
      EscapeFirst(value, rest);
      EscapedStep(value[0], EscapeQuotes(value) + "'" + rest, EscapeQuotes(value[1..]) + "'" + rest, w);
      EscapedReads(value[1..], rest, w + [value[0]]);
      HeadMoves(w, value);
    }
  }

  lemma {:induction false} HeadMoves(w: string, value: string)
    requires value != ""
    ensures w + [value[0]] + value[1..] == w + value
  {
  }

  /** A quoted argument is read back as itself, whatever it is. */
  lemma {:induction false} QuotedReads(value: string, rest: string, word: Option<string>)
    ensures Words(QuoteShellArg(value) + rest, Plain, word) == Words(rest, Plain, Some(Open(word).value + value))
  {
    var s := QuoteShellArg(value) + rest;
    assert s[1..] == EscapeQuotes(value) + "'" + rest;
    EscapedReads(value, rest, Open(word).value);
  }

  lemma {:induction false} FirstQuotedRead(value: string, rest: string)
    ensures Words(QuoteShellArg(value), Plain, None) == Some([value])
    ensures Words(QuoteShellArg(value) + (" " + rest), Plain, None) == Finish(Some(value), Words(rest, Plain, None))
  {
    QuotedReads(value, "", None);
    QuotedReads(value, " " + rest, None);
    assert QuoteShellArg(value) + "" == QuoteShellArg(value);
    assert "" + value == value && [value] + [] == [value];
    assert (" " + rest)[1..] == rest;
  }

  lemma {:induction false} AllQuotedRead(words: seq<string>)
    requires words != []
    ensures Words(Join(QuoteAll(words), " "), Plain, None) == Some(words)
  {
    var q := QuoteAll(words);
    if |words| == 1 {
      FirstQuotedRead(words[0], "");
      assert words == [words[0]];
    } else {
      var rest := Join(QuoteAll(words[1..]), " ");
      assert q[1..] == QuoteAll(words[1..]);
      AllQuotedRead(words[1..]);
      assert Join(q, " ") == q[0] + (" " + rest);
      FirstQuotedRead(words[0], rest);
      assert words == [words[0]] + words[1..];
    }
  }

  /** A command and its arguments come back one word each, empty ones and quotes included. */
  lemma {:induction false} ShellCommandReads(command: string, args: seq<string>)
    ensures Words(BuildShellCommand(command, args), Plain, None) == Some([command] + args)
  {
    assert [QuoteShellArg(command)] + QuoteAll(args) == QuoteAll([command] + args);
    AllQuotedRead([command] + args);
  }

  predicate Ordinary(s: string) {
    forall c :: c in s ==> !Special(c) && c !in {' ', '\t', '\'', '"', '\\'}
  }

  lemma {:induction false} OrdinaryReads(s: string, rest: string, word: Option<string>)
    requires s != "" && Ordinary(s)
    ensures Words(s + rest, Plain, word) == Words(rest, Plain, Some(Open(word).value + s))
  {
    assert s[0] in s;
    assert (s + rest)[1..] == s[1..] + rest;
    if |s| > 1 {
      assert forall c :: c in s[1..] ==> c in s;
      OrdinaryReads(s[1..], rest, Grow(word, s[0]));
      assert Open(word).value + [s[0]] + s[1..] == Open(word).value + s;
    } else {
      assert s[1..] + rest == rest && s == [s[0]];
    }
  }

  lemma {:induction false} ThenBlank(s: string, rest: string)
    requires s != "" && Ordinary(s)
    ensures Words(s + (" " + rest), Plain, None) == Finish(Some(s), Words(rest, Plain, None))
  {
    OrdinaryReads(s, " " + rest, None);
    assert "" + s == s;
    assert (" " + rest)[1..] == rest;
  }

  lemma {:induction false} OuterReads(shell: string, inner: string)
    ensures Words(QuoteShellArg(shell) + " -c " + QuoteShellArg(inner), Plain, None) == Some([shell, "-c", inner])
  {
    var tail := "-c" + (" " + QuoteShellArg(inner));
    assert QuoteShellArg(shell) + " -c " + QuoteShellArg(inner) == QuoteShellArg(shell) + (" " + tail);
    FirstQuotedRead(shell, tail);
    ThenBlank("-c", QuoteShellArg(inner));
    FirstQuotedRead(inner, "");
    assert ["-c"] + [inner] == ["-c", inner];
    assert [shell] + ["-c", inner] == [shell, "-c", inner];
  }

  lemma {:induction false} InnerReads(command: string, args: seq<string>)
    ensures Words("exec " + BuildShellCommand(command, args), Plain, None) == Some(["exec", command] + args)
  {
    var bare := BuildShellCommand(command, args);
    assert "exec " + bare == "exec" + (" " + bare);
    ThenBlank("exec", bare);
    ShellCommandReads(command, args);
    assert ["exec"] + ([command] + args) == ["exec", command] + args;
  }

  /** What decides the shell: the path without blanks around it, if it is one of these, and "/bin/sh" otherwise. */
  lemma {:induction false} ShellIff(shellPath: Option<string>)
    ensures ShellBin(shellPath) ==
              if shellPath.Some? && Trim(shellPath.value) in {
                "/bin/sh", "/bin/bash", "/bin/zsh", "/bin/dash", "/bin/fish",
                "/usr/bin/sh", "/usr/bin/bash", "/usr/bin/zsh", "/usr/bin/dash", "/usr/bin/fish",
                "/usr/local/bin/bash", "/usr/local/bin/zsh", "/usr/local/bin/fish",
                "/opt/local/bin/zsh", "/opt/homebrew/bin/zsh"} then Trim(shellPath.value)
              else "/bin/sh"
  {
  }

  predicate NamesZsh(path: string) {
    var n := |path|;
    n >= 4 && path[n - 4] == '/' && path[n - 3] in {'z', 'Z'} && path[n - 2] in {'s', 'S'} && path[n - 1] in {'h', 'H'}
  }

  predicate NamesBash(path: string) {
    var n := |path|;
    && n >= 5 && path[n - 5] == '/' && path[n - 4] in {'b', 'B'} && path[n - 3] in {'a', 'A'}
    && path[n - 2] in {'s', 'S'} && path[n - 1] in {'h', 'H'}
  }

  lemma {:induction false} EndsWithIff(path: string)
    ensures EndsWithFolded(path, "/zsh") <==> NamesZsh(path)
    ensures EndsWithFolded(path, "/bash") <==> NamesBash(path)
  {
    var zsh, bash := "/zsh", "/bash";
    if EndsWithFolded(path, zsh) {
      assert zsh[0] == '/' && zsh[1] == 'z' && zsh[2] == 's' && zsh[3] == 'h';
    }
    if EndsWithFolded(path, bash) {
      assert bash[0] == '/' && bash[1] == 'b' && bash[2] == 'a' && bash[3] == 's' && bash[4] == 'h';
    }
  }

  /** What decides the prologue: only the setting "1" asks for it, and then the end of the path as it was given. */
  lemma {:induction false} RcSourceIff(shellPath: Option<string>, rcSetting: string)
    ensures RcSource(shellPath, rcSetting) ==
              if Trim(rcSetting) == "1" && shellPath.Some? && NamesZsh(shellPath.value) then
                "if [ -f ~/.zshrc ]; then source ~/.zshrc; fi; "
              else if Trim(rcSetting) == "1" && shellPath.Some? && NamesBash(shellPath.value) then
                "if [ -f ~/.bashrc ]; then source ~/.bashrc; fi; "
              else ""
  {
    if shellPath.Some? { EndsWithIff(shellPath.value); }
  }

  /** Two shells deep. For every command, argument list and setting the pane command reads as three words: the shell, -c and
      a script. The shell is the given path, if it is one of the allowed ones. The script is a prologue, picked by the setting
      and the end of the path, and behind it a command that reads as exec, the command and its arguments. */
  lemma {:induction false} PaneCommandReads(command: string, args: seq<string>, shellPath: Option<string>, rcSetting: string)
    returns (shell: string, prologue: string, script: string)
    ensures Words(BuildPaneCommand(command, args, shellPath, rcSetting), Plain, None) == Some([shell, "-c", prologue + script])
    ensures Words(script, Plain, None) == Some(["exec", command] + args)
    ensures shell == if shellPath.Some? && Trim(shellPath.value) in {
                       "/bin/sh", "/bin/bash", "/bin/zsh", "/bin/dash", "/bin/fish",
                       "/usr/bin/sh", "/usr/bin/bash", "/usr/bin/zsh", "/usr/bin/dash", "/usr/bin/fish",
                       "/usr/local/bin/bash", "/usr/local/bin/zsh", "/usr/local/bin/fish",
                       "/opt/local/bin/zsh", "/opt/homebrew/bin/zsh"} then Trim(shellPath.value)
                     else "/bin/sh"
    ensures prologue == if Trim(rcSetting) == "1" && shellPath.Some? && NamesZsh(shellPath.value) then
                          "if [ -f ~/.zshrc ]; then source ~/.zshrc; fi; "
                        else if Trim(rcSetting) == "1" && shellPath.Some? && NamesBash(shellPath.value) then
                          "if [ -f ~/.bashrc ]; then source ~/.bashrc; fi; "
                        else ""
  {
    ShellIff(shellPath);
    RcSourceIff(shellPath, rcSetting);
    shell, prologue, script := ShellBin(shellPath), RcSource(shellPath, rcSetting), "exec " + BuildShellCommand(command, args);
    OuterReads(shell, InnerCommand(command, args, shellPath, rcSetting));
    InnerIs(command, args, shellPath, rcSetting);
    InnerReads(command, args);
  }

  lemma {:induction false} InnerIs(command: string, args: seq<string>, shellPath: Option<string>, rcSetting: string)
    ensures InnerCommand(command, args, shellPath, rcSetting) == RcSource(shellPath, rcSetting) + ("exec " + BuildShellCommand(command, args))
  {
  }

  /** So a script begins with a prologue exactly when the setting and the path ask for that one. */
  lemma {:induction false} PrologueIff(command: string, args: seq<string>, shellPath: Option<string>, rcSetting: string)
    ensures var script := InnerCommand(command, args, shellPath, rcSetting);
            && ("if [ -f ~/.zshrc ]; then source ~/.zshrc; fi; " <= script <==>
                  Trim(rcSetting) == "1" && shellPath.Some? && NamesZsh(shellPath.value))
            && ("if [ -f ~/.bashrc ]; then source ~/.bashrc; fi; " <= script <==>
                  Trim(rcSetting) == "1" && shellPath.Some? && NamesBash(shellPath.value))
            && ("exec " <= script <==>
                  !(Trim(rcSetting) == "1" && shellPath.Some? && (NamesZsh(shellPath.value) || NamesBash(shellPath.value))))
  {
    RcSourceIff(shellPath, rcSetting);
    InnerIs(command, args, shellPath, rcSetting);
    PrologueOf(RcSource(shellPath, rcSetting), BuildShellCommand(command, args));
  }

  lemma {:induction false} PrologueOf(prologue: string, rest: string)
    requires prologue in {"", "if [ -f ~/.zshrc ]; then source ~/.zshrc; fi; ", "if [ -f ~/.bashrc ]; then source ~/.bashrc; fi; "}
    ensures var script := prologue + ("exec " + rest);
            && ("if [ -f ~/.zshrc ]; then source ~/.zshrc; fi; " <= script <==> prologue == "if [ -f ~/.zshrc ]; then source ~/.zshrc; fi; ")
            && ("if [ -f ~/.bashrc ]; then source ~/.bashrc; fi; " <= script <==> prologue == "if [ -f ~/.bashrc ]; then source ~/.bashrc; fi; ")
            && ("exec " <= script <==> prologue == "")
  {
    var script := prologue + ("exec " + rest);
    var zsh, bash := "if [ -f ~/.zshrc ]; then source ~/.zshrc; fi; ", "if [ -f ~/.bashrc ]; then source ~/.bashrc; fi; ";
    assert "if [ -f ~/.zshrc ]; then"[0] == 'i' && "if [ -f ~/.bashrc ]; then"[0] == 'i';
    assert zsh[0] == 'i' && bash[0] == 'i' && "exec "[0] == 'e' && zsh[11] == 'z' && bash[11] == 'b';
    assert prologue != "" ==> script[0] == 'i' && script[11] == prologue[11] && prologue <= script;
    assert prologue == "" ==> script == "exec " + rest && script[0] == 'e';
  }
}
