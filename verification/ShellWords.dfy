// shellQuote (internal/core/service.go) against a reader of shell words that follows sections
// 2.2.1 (escape character), 2.2.2 (single-quotes) and 2.3 (token recognition) of
// POSIX.1-2017 XCU, as far as commands without operators, expansions and double-quotes go.
module ShellWords {
  import opened Options
  import opened Text

  // strings.ReplaceAll(s, "'", "'\\''")
  function Escaped(s: string): string {
    if s == "" then ""
    else (if s[0] == '\'' then "'\\''" else [s[0]]) + Escaped(s[1..])
  }

  function ShellQuote(s: string): string {
    "'" + Escaped(s) + "'"
  }

  // ----- The reader ---------------------------------------------------------------------------

  datatype Mode =
    | Between  // before or after a word
    | Within   // inside a word, unquoted
    | Quoted   // inside single-quotes

  predicate IsBlank(c: char) {
    c == ' ' || c == '\t'
  }

  // Characters that mean something else when unquoted: the reader gives up on them.
  predicate IsSpecial(c: char) {
    c in "|&;<>()$`\"\n*?[#~=%"
  }

  // Reads the rest s of a line, after words and, unless Between, the beginning word of another
  // one. None: not a sequence of plain words, or not something a shell can be given at all.
  function Read(s: string, mode: Mode, word: string, words: seq<string>): Option<seq<string>>
    decreases |s|
  {
    if s == "" then
      (match mode
       case Between => Some(words)
       case Within => Some(words + [word])
       case Quoted => None)
    else if s[0] == '\0' then None
    else if mode == Quoted then
      if s[0] == '\'' then Read(s[1..], Within, word, words)
      else Read(s[1..], Quoted, word + [s[0]], words)
    else if s[0] == '\'' then Read(s[1..], Quoted, word, words)
    else if s[0] == '\\' then
      if |s| == 1 || s[1] == '\0' then None
      else if s[1] == '\n' then Read(s[2..], mode, word, words)
      else Read(s[2..], Within, word + [s[1]], words)
    else if IsBlank(s[0]) then
      Read(s[1..], Between, "", if mode == Within then words + [word] else words)
    else if IsSpecial(s[0]) then None
    else Read(s[1..], Within, word + [s[0]], words)
  }

  function ReadLine(s: string): Option<seq<string>> {
    Read(s, Between, "", [])
  }

  // ----- Round trip ------------------------------------------------------------------------------

  // The dance around an embedded quote: close, escape, open.
  lemma ReadsDance(tail: string, word: string, words: seq<string>)
    ensures Read("'\\''" + tail, Quoted, word, words) == Read(tail, Quoted, word + ['\''], words)
  {
    var line := "'\\''" + tail;
    assert line[1..] == "\\''" + tail;
    assert line[1..][2..] == "'" + tail;
    assert ("'" + tail)[1..] == tail;
    assert Read(line[1..], Within, word, words) == Read("'" + tail, Within, word + ['\''], words);
  }

  // Inside the quotes, the escaped text of s is read back as s.
  lemma {:induction false} ReadsEscaped(s: string, rest: string, word: string, words: seq<string>)
    ensures Read(Escaped(s) + "'" + rest, Quoted, word, words)
            == if NulFree(s) then Read(rest, Within, word + s, words) else None
    decreases |s|
  {
    if s == "" {
      assert Escaped(s) + "'" + rest == "'" + rest;
      assert word + s == word;
    } else {
      var tail := Escaped(s[1..]) + "'" + rest;
      assert word + s == word + [s[0]] + s[1..];
      assert s == [s[0]] + s[1..];
      ReadsEscaped(s[1..], rest, word + [s[0]], words);
      if s[0] == '\'' {
        assert Escaped(s) + "'" + rest == "'\\''" + tail;
        ReadsDance(tail, word, words);
      } else {
        assert Escaped(s) + "'" + rest == [s[0]] + tail;
      }
    }
  }

  // Wherever a word may start, a quoted string is read as that string.
  lemma ReadsQuoted(s: string, rest: string, words: seq<string>)
    ensures Read(ShellQuote(s) + rest, Between, "", words)
            == if NulFree(s) then Read(rest, Within, s, words) else None
  {
    assert (ShellQuote(s) + rest)[1..] == Escaped(s) + "'" + rest;
    ReadsEscaped(s, rest, "", words);
    assert "" + s == s;
  }

  // A quoted string is one word, equal to the string, exactly when the string has no NUL.
  lemma QuoteIsOneWord(s: string)
    ensures ReadLine(ShellQuote(s)) == if NulFree(s) then Some([s]) else None
  {
    ReadsQuoted(s, "", []);
    assert ShellQuote(s) + "" == ShellQuote(s);
    assert [] + [s] == [s];
  }

  predicate IsPlain(c: char) {
    c != '\0' && c != '\'' && c != '\\' && !IsBlank(c) && !IsSpecial(c)
  }

  predicate IsPlainWord(w: string) {
    w != "" && forall i :: 0 <= i < |w| ==> IsPlain(w[i])
  }

  // Plain characters are read as themselves.
  lemma {:induction false} ReadsPlain(plain: string, rest: string, mode: Mode, word: string, words: seq<string>)
    requires IsPlainWord(plain) && mode != Quoted
    ensures Read(plain + rest, mode, word, words) == Read(rest, Within, word + plain, words)
    decreases |plain|
  {
    assert (plain + rest)[1..] == plain[1..] + rest;
    assert word + plain == word + [plain[0]] + plain[1..];
    if |plain| == 1 {
      assert plain[1..] + rest == rest && word + plain == word + [plain[0]];
    } else {
      ReadsPlain(plain[1..], rest, Within, word + [plain[0]], words);
    }
  }

  lemma ReadsPlainWord(plain: string, rest: string, words: seq<string>)
    requires IsPlainWord(plain)
    ensures Read(plain + " " + rest, Between, "", words) == Read(rest, Between, "", words + [plain])
  {
    assert plain + " " + rest == plain + (" " + rest);
    ReadsPlain(plain, " " + rest, Between, "", words);
    assert "" + plain == plain && (" " + rest)[1..] == rest;
  }

  // A command of two plain words and a quoted operand.
  lemma QuotedOperand(command: string, option: string, operand: string)
    requires IsPlainWord(command) && IsPlainWord(option)
    ensures ReadLine(command + " " + (option + " " + ShellQuote(operand)))
            == if NulFree(operand) then Some([command, option, operand]) else None
  {
    var q := ShellQuote(operand);
    ReadsPlainWord(command, option + " " + q, []);
    assert [] + [command] == [command];
    ReadsPlainWord(option, q, [command]);
    assert [command] + [option] == [command, option];
    ReadsQuoted(operand, "", [command, option]);
    assert q + "" == q && [command, option] + [operand] == [command, option, operand];
  }

  // The command that Create runs has the working directory as its one operand.
  lemma MkdirOperand(workdir: string)
    ensures ReadLine("mkdir -p " + ShellQuote(workdir))
            == if NulFree(workdir) then Some(["mkdir", "-p", workdir]) else None
  {
    QuotedOperand("mkdir", "-p", workdir);
    assert "mkdir -p " + ShellQuote(workdir) == "mkdir" + " " + ("-p" + " " + ShellQuote(workdir));
  }
}
