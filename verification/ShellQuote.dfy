/** Quoting a job command for the remote shell (fleet/src/jobs.ts), against the
    shell's own reading of it: sections 2.2.1 and 2.2.2 of IEEE Std 1003.1, Shell
    Command Language. */
module ShellQuote {
  import opened Wrappers

  const SUDO := "sudo"
  const BOXUP := "/workspace" + "/box-setup" + "/boxup"

  /** Inside single quotes only the quote itself needs care. */
  function Escape(s: string): string {
    if s == "" then ""
    else (if s[0] == '\'' then "'\\''" else [s[0]]) + Escape(s[1..])
  }

  /** `shQuote`. */
  function ShQuote(s: string): string {
    "'" + Escape(s) + "'"
  }

  function JoinQuoted(args: seq<string>): string {
    if args == [] then ""
    else if |args| == 1 then ShQuote(args[0])
    else ShQuote(args[0]) + " " + JoinQuoted(args[1..])
  }

  /** `boxupJobCommand`. */
  function BoxupJobCommand(args: seq<string>): string {
    SUDO + " " + BOXUP + " " + JoinQuoted(args)
  }

  // ----- the shell's reading -----

  /** Where the shell is: between words, in a word, inside single quotes, or after
      a backslash (`begun` if a word is in progress). */
  datatype Mode = Between | Word(cur: string) | Quoted(cur: string) | Escaped(cur: string, begun: bool)

  /** Characters that mean something to the shell when nothing quotes them; a
      command that leaves one bare is not just a list of words. */
  predicate IsSpecial(c: char) {
    || c == '|' || c == '&' || c == ';' || c == '<' || c == '>' || c == '(' || c == ')' || c == '$' || c == '`'
    || c == '"' || c == '\n' || c == '*' || c == '?' || c == '[' || c == '#' || c == '~' || c == '=' || c == '%'
    || c == '{' || c == '}' || c == '!'
  }

  predicate IsBlank(c: char) {
    c == ' ' || c == '\t'
  }

  function Prepend(w: string, ws: Option<seq<string>>): Option<seq<string>> {
    if ws.Some? then Some([w] + ws.value) else None
  }

  /** The words of a simple command, or None when it is not one. */
  function Words(s: string, m: Mode): Option<seq<string>>
    decreases |s|
  {
    if s == "" then
      match m
      case Between => Some([])
      case Word(cur) => Some([cur])
      case _ => None
    else
      var c, rest := s[0], s[1..];
      match m
      case Quoted(cur) => if c == '\'' then Words(rest, Word(cur)) else Words(rest, Quoted(cur + [c]))
      case Escaped(cur, begun) =>
        if c == '\n' then Words(rest, if begun then Word(cur) else Between) else Words(rest, Word(cur + [c]))
      case Between =>
        if IsBlank(c) then Words(rest, Between)
        else if c == '\'' then Words(rest, Quoted(""))
        else if c == '\\' then Words(rest, Escaped("", false))
        else if IsSpecial(c) then None
        else Words(rest, Word([c]))
      case Word(cur) =>
        if IsBlank(c) then Prepend(cur, Words(rest, Between))
        else if c == '\'' then Words(rest, Quoted(cur))
        else if c == '\\' then Words(rest, Escaped(cur, true))
        else if IsSpecial(c) then None
        else Words(rest, Word(cur + [c]))
  }

  // ----- the round trip -----

  lemma OneStep(c: char, rest: string)
    ensures ([c] + rest)[0] == c && ([c] + rest)[1..] == rest
  {
  }

  /** The close-escape-reopen sequence reads as one quote. */
  lemma QuoteInside(cur: string, tail: string)
    ensures Words("'\\''" + tail, Quoted(cur)) == Words(tail, Quoted(cur + "'"))
  {
    var s3 := ['\''] + tail;
    var s2 := ['\''] + s3;
    var s1 := ['\\'] + s2;
    assert "'\\''" + tail == ['\''] + s1;
    OneStep('\'', s1);
    OneStep('\\', s2);
    OneStep('\'', s3);
    OneStep('\'', tail);
    assert Words(['\''] + s1, Quoted(cur)) == Words(s1, Word(cur));
    assert Words(s1, Word(cur)) == Words(s2, Escaped(cur, true));
    assert Words(s2, Escaped(cur, true)) == Words(s3, Word(cur + ['\'']));
  }

  /** Reading an escaped text up to its closing quote gives the text. */
  lemma {:induction false} QuotedReads(a: string, cur: string, rest: string)
    ensures Words(Escape(a) + "'" + rest, Quoted(cur)) == Words(rest, Word(cur + a))
    decreases |a|
  {
    if a == "" {
      assert Escape(a) + "'" + rest == ['\''] + rest;
      assert cur + a == cur;
    } else {
      var tail := Escape(a[1..]) + "'" + rest;
      assert cur + [a[0]] + a[1..] == cur + a;
      if a[0] == '\'' {
        assert Escape(a) + "'" + rest == "'\\''" + tail;
        assert cur + "'" == cur + [a[0]];
        QuoteInside(cur, tail);
      } else {
        assert Escape(a) + "'" + rest == [a[0]] + tail;
        OneStep(a[0], tail);
      }
      QuotedReads(a[1..], cur + [a[0]], rest);
    }
  }

  lemma QuotedWordReads(a: string, rest: string)
    ensures Words(ShQuote(a) + rest, Between) == Words(rest, Word(a))
  {
    assert ShQuote(a) + rest == ['\''] + (Escape(a) + "'" + rest);
    assert "" + a == a;
    hide Escape, ShQuote;
    OneStep('\'', Escape(a) + "'" + rest);
    QuotedReads(a, "", rest);
  }

  /** A word that needs no quoting. */
  predicate IsBare(w: string) {
    w != "" && forall c :: c in w ==> !IsBlank(c) && !IsSpecial(c) && c != '\'' && c != '\\'
  }

  lemma {:induction false} BareReads(w: string, cur: string, rest: string)
    requires forall c :: c in w ==> !IsBlank(c) && !IsSpecial(c) && c != '\'' && c != '\\'
    ensures Words(w + rest, Word(cur)) == Words(rest, Word(cur + w))
    decreases |w|
  {
    hide IsSpecial;
    if w == "" {
      assert w + rest == rest && cur + w == cur;
    } else {
      assert w + rest == [w[0]] + (w[1..] + rest);
      assert w[0] in w && cur + [w[0]] + w[1..] == cur + w;
      OneStep(w[0], w[1..] + rest);
      BareReads(w[1..], cur + [w[0]], rest);
    }
  }

  lemma BlankEnds(cur: string, rest: string)
    ensures Words([' '] + rest, Word(cur)) == Prepend(cur, Words(rest, Between))
  {
    OneStep(' ', rest);
  }

  lemma BareWordReads(w: string, rest: string)
    requires IsBare(w)
    ensures Words(w + " " + rest, Between) == Prepend(w, Words(rest, Between))
  {
    assert w + " " + rest == [w[0]] + (w[1..] + ([' '] + rest));
    assert w[0] in w && [w[0]] + w[1..] == w;
    hide IsSpecial;
    OneStep(w[0], w[1..] + ([' '] + rest));
    BareReads(w[1..], [w[0]], [' '] + rest);
    BlankEnds(w, rest);
  }

  lemma {:induction false} JoinedReads(args: seq<string>)
    ensures Words(JoinQuoted(args), Between) == Some(args)
  {
    if args == [] {
    } else if |args| == 1 {
      assert ShQuote(args[0]) + "" == ShQuote(args[0]);
      QuotedWordReads(args[0], "");
      assert [args[0]] == args;
    } else {
      var rest := JoinQuoted(args[1..]);
      assert JoinQuoted(args) == ShQuote(args[0]) + ([' '] + rest);
      hide ShQuote;
      QuotedWordReads(args[0], [' '] + rest);
      BlankEnds(args[0], rest);
      hide JoinQuoted, Words;
      JoinedReads(args[1..]);
      assert [args[0]] + args[1..] == args;
    }
  }

  lemma FixedWordsAreBare()
    ensures IsBare(SUDO) && IsBare(BOXUP)
  {
    BareAppend("/workspace", "/box-setup");
    BareAppend("/workspace" + "/box-setup", "/boxup");
  }

  lemma BareAppend(a: string, b: string)
    requires IsBare(a) && IsBare(b)
    ensures IsBare(a + b)
  {
    hide IsSpecial;
  }

  /** The remote shell sees exactly `sudo`, the program, and the arguments, whatever
      is in them: blanks, quotes, backslashes, newlines, or nothing at all. */
  lemma RemoteShellSeesTheArguments(args: seq<string>)
    ensures Words(BoxupJobCommand(args), Between) == Some([SUDO, BOXUP] + args)
  {
    FixedWordsAreBare();
    JoinedReads(args);
    var tail := BOXUP + " " + JoinQuoted(args);
    assert BoxupJobCommand(args) == SUDO + " " + tail;
    assert [SUDO] + ([BOXUP] + args) == [SUDO, BOXUP] + args;
    hide Words, IsBare, JoinQuoted;
    BareWordReads(SUDO, tail);
    BareWordReads(BOXUP, JoinQuoted(args));
  }

  /** So no two argument lists make the same command. */
  lemma CommandsAreDistinct(a: seq<string>, b: seq<string>)
    requires BoxupJobCommand(a) == BoxupJobCommand(b)
    ensures a == b
  {
    hide BoxupJobCommand;
    RemoteShellSeesTheArguments(a);
    RemoteShellSeesTheArguments(b);
    assert ([SUDO, BOXUP] + a)[2..] == a && ([SUDO, BOXUP] + b)[2..] == b;
  }
}
