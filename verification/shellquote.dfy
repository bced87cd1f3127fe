/** Quoting a value for a remote shell (shellQuote in
    scripts/installation/providers/dvarpala.go), against the POSIX shell's
    quoting and token recognition: sections 2.2.1, 2.2.2 and 2.3 of the Shell Command
    Language in IEEE Std 1003.1. */
module ShellQuote {
  import opened Prelude

  // ---- the shell's side ----

  datatype Token = Word(text: string) | Operator(text: string)

  /** Between tokens, or inside one that has begun. */
  datatype Current = Between | InWord(text: string) | InOperator(text: string)

  /** Tokens read so far, and the one being read. */
  datatype Lexing = Lexing(tokens: seq<Token>, current: Current)

  const START: Lexing := Lexing([], Between)

  predicate IsBlank(c: char) { c == ' ' || c == '\t' }

  predicate StartsOperator(c: char) {
    c == '&' || c == '|' || c == ';' || c == '<' || c == '>' || c == '(' || c == ')' || c == '\n'
  }

  /** The operators of two characters, those that begin a here-document apart. */
  predicate Extends(operator: string, c: char) {
    || (operator == "&" && c == '&')
    || (operator == "|" && c == '|')
    || (operator == ";" && c == ';')
    || (operator == "<" && (c == '&' || c == '>'))
    || (operator == ">" && (c == '>' || c == '&' || c == '|'))
  }

  /** Outside quotes these begin expansions, comments, patterns or double quotes,
      which are not read here. */
  predicate IsBeyond(c: char) {
    || c == '$' || c == '`' || c == '"' || c == '*' || c == '?' || c == '[' || c == '#' || c == '~' || c == '%'
    || c == '{' || c == '!'
  }

  /** The token being read, if there is one, is over. */
  function Delimit(l: Lexing): Lexing {
    match l.current
    case Between => l
    case InWord(w) => Lexing(l.tokens + [Word(w)], Between)
    case InOperator(o) => Lexing(l.tokens + [Operator(o)], Between)
  }

  /** A word is being read: the one that has begun, or a new one. */
  function Begin(l: Lexing): (r: Lexing)
    ensures r.current.InWord?
  {
    if l.current.InWord? then l else Delimit(l).(current := InWord(""))
  }

  function Append(l: Lexing, text: string): (r: Lexing)
    ensures r.current.InWord?
  {
    Begin(l).(current := InWord(Begin(l).current.text + text))
  }

  /** Reads on from outside quotes, by the rules of section 2.3. None: the text uses
      something not read here, or ends inside quotes or on a backslash. */
  function Lex(s: string, l: Lexing): Option<Lexing>
    decreases |s|
  {
    if s == "" then Some(l)
    else if l.current.InOperator? && Extends(l.current.text, s[0]) then
      Lex(s[1..], l.(current := InOperator(l.current.text + [s[0]])))
    else if s[0] == '\'' then Quoted(s[1..], Begin(l))
    else if s[0] == '\\' then
      // A backslash preserves the next character, except that a newline vanishes.
      if |s| == 1 then None
      else if s[1] == '\n' then Lex(s[2..], l)
      else Lex(s[2..], Append(l, [s[1]]))
    else if IsBlank(s[0]) then Lex(s[1..], Delimit(l))
    else if StartsOperator(s[0]) then
      // A second < would begin a here-document.
      if l.current == InOperator("<") && s[0] == '<' then None
      else Lex(s[1..], Delimit(l).(current := InOperator([s[0]])))
    else if IsBeyond(s[0]) then None
    else Lex(s[1..], Append(l, [s[0]]))
  }

  /** Reads on inside single quotes, where every character but the quote stands for itself. */
  function Quoted(s: string, l: Lexing): Option<Lexing>
    requires l.current.InWord?
    decreases |s|
  {
    if s == "" then None
    else if s[0] == '\'' then Lex(s[1..], l)
    else Quoted(s[1..], Append(l, [s[0]]))
  }

  /** The tokens of a command line. */
  function Tokens(s: string): Option<seq<Token>> {
    match Lex(s, START)
    case None => None
    case Some(l) => Some(Delimit(l).tokens)
  }

  // ---- the quoter's side ----

  /** strings.ReplaceAll(s, "'", `'\''`). */
  function EscapeQuotes(s: string): string {
    if s == "" then ""
    else if s[0] == '\'' then "'\\''" + EscapeQuotes(s[1..])
    else [s[0]] + EscapeQuotes(s[1..])
  }

  function Quote(s: string): string {
    if s == "" then "''" else "'" + EscapeQuotes(s) + "'"
  }

  // ---- the round trip ----

  lemma AppendTwice(l: Lexing, a: string, b: string)
    ensures Append(Append(l, a), b) == Append(l, a + b)
  {
    assert Begin(l).current.text + a + b == Begin(l).current.text + (a + b);
  }

  /** What a quote inside the value is replaced by: the quotes are closed, an
      escaped quote is added, and they are opened again. */
  lemma QuoteWithinQuotes(tail: string, l: Lexing)
    requires l.current.InWord?
    ensures Quoted("'\\''" + tail, l) == Quoted(tail, Append(l, "'"))
  {
    hide IsBeyond, IsBlank, StartsOperator, Extends;
    var t0 := "'\\''" + tail;
    var t1, t2 := t0[1..], t0[1..][2..];
    assert t1[0] == '\\' && t1[1] == '\'' && t2[0] == '\'' && t2[1..] == tail;
    var m := Append(l, "'");
    assert Quoted(t0, l) == Lex(t1, l);
    assert Lex(t1, l) == Lex(t2, m);
    assert Lex(t2, m) == Quoted(t2[1..], m);
  }

  lemma PlainWithinQuotes(c: char, tail: string, l: Lexing)
    requires l.current.InWord? && c != '\''
    ensures Quoted([c] + tail, l) == Quoted(tail, Append(l, [c]))
  {
    assert ([c] + tail)[1..] == tail;
  }

  /** Inside quotes, an escaped string is read as itself, and the reader is inside
      quotes again after it. */
  lemma {:induction false} EscapedReadsAsItself(s: string, rest: string, l: Lexing)
    requires l.current.InWord?
    ensures Quoted(EscapeQuotes(s) + rest, l) == Quoted(rest, Append(l, s))
    decreases |s|
  {
    hide Lex, Quoted;
    if s == "" {
      assert EscapeQuotes(s) + rest == rest;
      assert l.current.text + s == l.current.text;
    } else {
      var tail := EscapeQuotes(s[1..]) + rest;
      EscapedReadsAsItself(s[1..], rest, Append(l, [s[0]]));
      AppendTwice(l, [s[0]], s[1..]);
      assert [s[0]] + s[1..] == s;
      if s[0] == '\'' {
        assert EscapeQuotes(s) + rest == "'\\''" + tail;
        QuoteWithinQuotes(tail, l);
      } else {
        assert EscapeQuotes(s) + rest == [s[0]] + tail;
        PlainWithinQuotes(s[0], tail, l);
      }
    }
  }

  lemma QuoteOpens(text: string, l: Lexing)
    ensures Lex("'" + text, l) == Quoted(text, Begin(l))
  {
    assert ("'" + text)[1..] == text;
  }

  lemma QuoteCloses(text: string, l: Lexing)
    requires l.current.InWord?
    ensures Quoted("'" + text, l) == Lex(text, l)
  {
    assert ("'" + text)[1..] == text;
  }

  lemma AppendBegun(l: Lexing, s: string)
    ensures Append(Begin(l), s) == Append(l, s) && Append(l, "") == Begin(l)
  {
    assert Begin(l).current.text + "" == Begin(l).current.text;
  }

  /** Wherever a quoted value stands outside quotes, the shell reads exactly the
      value there, glued to whatever word it is part of. */
  lemma {:induction false} QuoteReadsAsItself(s: string, rest: string, l: Lexing)
    ensures Lex(Quote(s) + rest, l) == Lex(rest, Append(l, s))
  {
    hide EscapeQuotes, Lex, Quoted, Append, Begin;
    var inside := EscapeQuotes(s) + ("'" + rest);
    AppendBegun(l, s);
    if s == "" {
      assert Quote(s) + rest == "'" + ("'" + rest);
      QuoteOpens("'" + rest, l);
      QuoteCloses(rest, Begin(l));
    } else {
      assert Quote(s) + rest == "'" + inside;
      QuoteOpens(inside, l);
      EscapedReadsAsItself(s, "'" + rest, Begin(l));
      QuoteCloses(rest, Append(l, s));
    }
  }

  /** Quoting any string, the empty one included, makes exactly one word of it. */
  lemma {:induction false} QuoteIsOneWord(s: string)
    ensures Tokens(Quote(s)) == Some([Word(s)])
  {
    hide Quote, IsBeyond, IsBlank, StartsOperator, Extends;
    QuoteReadsAsItself(s, "", START);
    assert Quote(s) + "" == Quote(s);
    assert "" + s == s && Lex("", Append(START, s)) == Some(Append(START, s));
    var none: seq<Token> := [];
    assert none + [Word(s)] == [Word(s)];
  }

  // ---- commands with values in them ----

  /** A token of a command, and whether a blank follows it: fixed text, an operator,
      or a word that ends with a quoted value. */
  datatype Piece =
    | Fixed(text: string, blank: bool)
    | Sign(text: string, blank: bool)
    | Given(prefix: string, value: string, blank: bool)

  function Spell(p: Piece): string {
    (match p
     case Fixed(text, _) => text
     case Sign(text, _) => text
     case Given(prefix, value, _) => prefix + Quote(value))
    + (if p.blank then " " else "")
  }

  function Text(ps: seq<Piece>): string {
    if ps == [] then "" else Spell(ps[0]) + Text(ps[1..])
  }

  function Meaning(p: Piece): Token {
    match p
    case Fixed(text, _) => Word(text)
    case Sign(text, _) => Operator(text)
    case Given(prefix, value, _) => Word(prefix + value)
  }

  function Meanings(ps: seq<Piece>): seq<Token> {
    if ps == [] then [] else [Meaning(ps[0])] + Meanings(ps[1..])
  }

  lemma {:induction false} MeaningsAre(ps: seq<Piece>, ts: seq<Token>)
    requires |ps| == |ts| && forall k :: 0 <= k < |ps| ==> Meaning(ps[k]) == ts[k]
    ensures Meanings(ps) == ts
  {
    if ps != [] {
      MeaningsAre(ps[1..], ts[1..]);
      assert [ts[0]] + ts[1..] == ts;
    }
  }

  lemma {:induction false} MeaningsConcat(ps: seq<Piece>, qs: seq<Piece>)
    ensures Meanings(ps + qs) == Meanings(ps) + Meanings(qs)
  {
    if ps == [] {
      assert ps + qs == qs;
    } else {
      assert (ps + qs)[1..] == ps[1..] + qs;
      MeaningsConcat(ps[1..], qs);
    }
  }

  /** Characters that mean nothing to the shell. */
  predicate IsPlain(c: char) {
    || 'a' <= c <= 'z' || 'A' <= c <= 'Z' || '0' <= c <= '9'
    || c == '+' || c == '-' || c == '.' || c == '/' || c == '_' || c == '=' || c == ':'
  }

  predicate AllPlain(s: string) { forall k :: 0 <= k < |s| ==> IsPlain(s[k]) }

  predicate IsOperator(s: string) {
    (|s| == 1 && StartsOperator(s[0])) || (|s| == 2 && StartsOperator(s[0]) && Extends(s[..1], s[1]))
  }

  /** Fixed text holds no quoting, blanks, operators or expansions. */
  predicate Proper(p: Piece) {
    match p
    case Fixed(text, _) => text != "" && AllPlain(text)
    case Sign(text, _) => IsOperator(text)
    case Given(prefix, _, _) => AllPlain(prefix)
  }

  /** Two words, and two operators, never touch. */
  predicate Separated(ps: seq<Piece>) {
    forall k :: 0 <= k < |ps| - 1 && !ps[k].blank ==> ps[k].Sign? != ps[k + 1].Sign?
  }

  lemma {:induction false} PlainReadsAsItself(text: string, rest: string, l: Lexing)
    requires text != "" && AllPlain(text)
    ensures Lex(text + rest, l) == Lex(rest, Append(l, text))
    decreases |text|
  {
    assert (text + rest)[1..] == text[1..] + rest;
    var m := Append(l, [text[0]]);
    assert Lex(text + rest, l) == Lex(text[1..] + rest, m);
    hide Lex;
    if |text| == 1 {
      assert text[1..] + rest == rest && [text[0]] == text;
    } else {
      PlainReadsAsItself(text[1..], rest, m);
      AppendTwice(l, [text[0]], text[1..]);
      assert [text[0]] + text[1..] == text;
    }
  }

  lemma OperatorReadsAsItself(text: string, rest: string, l: Lexing)
    requires IsOperator(text) && !l.current.InOperator?
    ensures Lex(text + rest, l) == Lex(rest, Delimit(l).(current := InOperator(text)))
  {
    assert (text + rest)[1..] == text[1..] + rest;
    var m := Delimit(l).(current := InOperator([text[0]]));
    assert Lex(text + rest, l) == Lex(text[1..] + rest, m);
    if |text| == 1 {
      assert text[1..] + rest == rest && [text[0]] == text;
    } else {
      assert (text[1..] + rest)[1..] == rest;
      assert text[..1] == [text[0]] && [text[0]] + [text[1]] == text;
    }
  }

  lemma BlankDelimits(rest: string, l: Lexing)
    ensures Lex(" " + rest, l) == Lex(rest, Delimit(l))
  {
    assert (" " + rest)[1..] == rest;
  }

  /** Where a piece leaves the reader. */
  function After(p: Piece, l: Lexing): Lexing {
    var m := Delimit(l).(current := if p.Sign? then InOperator(p.text) else InWord(Meaning(p).text));
    if p.blank then Delimit(m) else m
  }

  /** Nothing that is being read can run into the piece. */
  predicate Fits(p: Piece, l: Lexing) {
    if p.Sign? then !l.current.InOperator? else !l.current.InWord?
  }

  lemma AfterAddsMeaning(p: Piece, l: Lexing, next: Piece)
    ensures Delimit(After(p, l)).tokens == Delimit(l).tokens + [Meaning(p)]
    ensures p.blank || p.Sign? != next.Sign? ==> Fits(next, After(p, l))
  {
  }

  lemma PieceReads(p: Piece, rest: string, l: Lexing)
    requires Proper(p) && Fits(p, l)
    ensures Lex(Spell(p) + rest, l) == Lex(rest, After(p, l))
  {
    hide Lex, IsOperator, AllPlain, Quote;
    var gap := (if p.blank then " " else "") + rest;
    match p {
      case Fixed(text, _) =>
        assert Spell(p) + rest == text + gap;
        PlainReadsAsItself(text, gap, l);
        assert "" + text == text;
      case Sign(text, _) =>
        assert Spell(p) + rest == text + gap;
        OperatorReadsAsItself(text, gap, l);
      case Given(prefix, value, _) =>
        assert Spell(p) + rest == prefix + (Quote(value) + gap);
        if prefix == "" {
          assert prefix + (Quote(value) + gap) == Quote(value) + gap;
          QuoteReadsAsItself(value, gap, l);
        } else {
          PlainReadsAsItself(prefix, Quote(value) + gap, l);
          QuoteReadsAsItself(value, gap, Append(l, prefix));
          AppendTwice(l, prefix, value);
        }
        assert "" + (prefix + value) == prefix + value && "" + value == value;
    }
    if p.blank { BlankDelimits(rest, After(p.(blank := false), l)); } else { assert gap == rest; }
  }

  lemma TailIsSeparated(ps: seq<Piece>)
    requires ps != [] && Separated(ps)
    ensures Separated(ps[1..])
    ensures |ps| > 1 && !ps[0].blank ==> ps[0].Sign? != ps[1].Sign?
  {
    assert forall k :: 0 <= k < |ps| - 1 ==> ps[1..][k] == ps[k + 1];
  }

  /** Where a command leaves the reader. */
  function AfterAll(ps: seq<Piece>, l: Lexing): Lexing
    decreases |ps|
  {
    if ps == [] then l else AfterAll(ps[1..], After(ps[0], l))
  }

  lemma {:induction false} TextReads(ps: seq<Piece>, l: Lexing)
    requires (forall p :: p in ps ==> Proper(p)) && Separated(ps) && (ps != [] ==> Fits(ps[0], l))
    ensures Lex(Text(ps), l) == Some(AfterAll(ps, l))
    decreases |ps|
  {
    if ps != [] {
      hide Lex, Spell, Proper, Delimit, After, Meaning, Fits, Separated;
      PieceReads(ps[0], Text(ps[1..]), l);
      TailIsSeparated(ps);
      if |ps| > 1 { AfterAddsMeaning(ps[0], l, ps[1]); }
      TextReads(ps[1..], After(ps[0], l));
    }
  }

  lemma {:induction false} AfterAllAddsMeanings(ps: seq<Piece>, l: Lexing)
    ensures Delimit(AfterAll(ps, l)).tokens == Delimit(l).tokens + Meanings(ps)
    decreases |ps|
  {
    var before := Delimit(l).tokens;
    if ps == [] {
      assert before + [] == before;
    } else {
      hide Delimit, After, Meaning;
      AfterAddsMeaning(ps[0], l, ps[0]);
      AfterAllAddsMeanings(ps[1..], After(ps[0], l));
      assert before + [Meaning(ps[0])] + Meanings(ps[1..]) == before + ([Meaning(ps[0])] + Meanings(ps[1..]));
    }
  }

  /** A command is read token by token, each value exactly as it was given, wherever
      operators stand around it. */
  lemma {:induction false} CommandReads(ps: seq<Piece>)
    requires (forall p :: p in ps ==> Proper(p)) && Separated(ps)
    ensures Tokens(Text(ps)) == Some(Meanings(ps))
  {
    hide Lex, Text, Proper, Meanings, AfterAll;
    TextReads(ps, START);
    AfterAllAddsMeanings(ps, START);
    assert [] + Meanings(ps) == Meanings(ps);
  }

  // ---- a list of values ----

  /** Quoted values separated by blanks. */
  function CommandLine(args: seq<string>): string {
    if args == [] then ""
    else if |args| == 1 then Quote(args[0])
    else Quote(args[0]) + " " + CommandLine(args[1..])
  }

  function Words(args: seq<string>): seq<Token> {
    if args == [] then [] else [Word(args[0])] + Words(args[1..])
  }

  function Values(args: seq<string>): (ps: seq<Piece>)
    ensures |ps| == |args|
    ensures forall k :: 0 <= k < |ps| ==> ps[k] == Given("", args[k], k < |ps| - 1)
  {
    if args == [] then [] else [Given("", args[0], |args| > 1)] + Values(args[1..])
  }

  lemma {:induction false} ValuesSpell(args: seq<string>)
    ensures Text(Values(args)) == CommandLine(args) && Meanings(Values(args)) == Words(args)
    decreases |args|
  {
    if args != [] {
      hide Quote;
      ValuesSpell(args[1..]);
      var ps := Values(args);
      assert ps[1..] == Values(args[1..]);
      assert "" + Quote(args[0]) == Quote(args[0]) && "" + args[0] == args[0];
      assert Quote(args[0]) + "" + "" == Quote(args[0]);
    }
  }

  /** A list of values, each quoted, reads back as the list. */
  lemma {:induction false} CommandLineRoundTrip(args: seq<string>)
    ensures Tokens(CommandLine(args)) == Some(Words(args))
  {
    hide Text, CommandLine, Meanings, Words, Tokens;
    ValuesSpell(args);
    CommandReads(Values(args));
  }

  // ---- the installer's own commands ----

  const REMOTE_SRC_DIR: string := "/opt/dvarpala/src"
  const INSTALLER: string := REMOTE_SRC_DIR + "/scripts/install/install-dvarpala.sh"

  /** The command that runs the installer, cut into its tokens. */
  function InstallCommand(email: string, host: string): seq<Piece> {
    [Fixed("sudo", true), Fixed("chmod", true), Fixed("+x", true), Fixed(INSTALLER, true), Sign("&&", true),
     Fixed("sudo", true), Given("DVARPALA_ADMIN_EMAIL=", email, true), Fixed(INSTALLER, true),
     Fixed("--source", true), Fixed(REMOTE_SRC_DIR, true), Fixed("--host", true), Given("", host, false)]
  }

  lemma PathsArePlain()
    ensures REMOTE_SRC_DIR != "" && AllPlain(REMOTE_SRC_DIR) && INSTALLER != "" && AllPlain(INSTALLER)
  {
    assert AllPlain("/scripts/install/install-dvarpala.sh");
  }

  lemma InstallWordsArePlain()
    ensures AllPlain("sudo") && AllPlain("chmod") && AllPlain("+x") && AllPlain("--source") && AllPlain("--host")
    ensures AllPlain("DVARPALA_ADMIN_EMAIL=") && AllPlain("")
  {
  }

  lemma InstallIsProper(email: string, host: string)
    ensures forall p :: p in InstallCommand(email, host) ==> Proper(p)
  {
    hide AllPlain;
    PathsArePlain();
    InstallWordsArePlain();
  }

  function InstallTokens(email: string, host: string): seq<Token> {
    [Word("sudo"), Word("chmod"), Word("+x"), Word(INSTALLER), Operator("&&"),
     Word("sudo"), Word("DVARPALA_ADMIN_EMAIL=" + email), Word(INSTALLER),
     Word("--source"), Word(REMOTE_SRC_DIR), Word("--host"), Word(host)]
  }

  /** Whatever the address and the host are, the shell runs the same command, with the
      address as the value of one assignment and the host as one argument. */
  lemma {:induction false} InstallReads(email: string, host: string)
    ensures Tokens(Text(InstallCommand(email, host))) == Some(InstallTokens(email, host))
  {
    hide Proper, Tokens, Text;
    var ps := InstallCommand(email, host);
    InstallIsProper(email, host);
    CommandReads(ps);
    hide Meanings;
    assert "" + host == host;
    MeaningsAre(ps, InstallTokens(email, host));
  }

  lemma {:induction false} TextConcat(ps: seq<Piece>, qs: seq<Piece>)
    ensures Text(ps + qs) == Text(ps) + Text(qs)
  {
    if ps == [] {
      assert ps + qs == qs;
    } else {
      assert (ps + qs)[1..] == ps[1..] + qs;
      TextConcat(ps[1..], qs);
    }
  }

  lemma TextOfTwo(p: Piece, q: Piece)
    ensures Text([p]) == Spell(p)
    ensures Text([p, q]) == Spell(p) + Spell(q)
  {
    assert [p, q][1..] == [q] && [q][1..] == [] && [p][1..] == [];
    assert Spell(p) + "" == Spell(p) && Spell(q) + "" == Spell(q);
  }

  lemma TextOfThree(p: Piece, q: Piece, r: Piece)
    ensures Text([p, q, r]) == Spell(p) + Spell(q) + Spell(r)
  {
    assert [p, q, r] == [p, q] + [r];
    TextConcat([p, q], [r]);
    TextOfTwo(p, q);
    TextOfTwo(r, r);
  }

  lemma PairText(text: string, next: string)
    ensures Text([Fixed(text, true), Fixed(next, true)]) == text + " " + next + " "
    ensures Text([Fixed(text, true), Sign(next, true)]) == text + " " + next + " "
  {
    TextOfTwo(Fixed(text, true), Fixed(next, true));
    TextOfTwo(Fixed(text, true), Sign(next, true));
    assert text + " " + (next + " ") == text + " " + next + " ";
  }

  lemma AssignmentText(prefix: string, value: string)
    ensures Text([Fixed("sudo", true), Given(prefix, value, true)]) == "sudo " + prefix + Quote(value) + " "
  {
    hide Quote;
    TextOfTwo(Fixed("sudo", true), Given(prefix, value, true));
    assert "sudo" + " " == "sudo ";
    assert "sudo " + (prefix + Quote(value) + " ") == "sudo " + prefix + Quote(value) + " ";
  }

  lemma InstallParts(email: string, host: string)
    ensures Text([Fixed("sudo", true), Fixed("chmod", true), Fixed("+x", true)]) == "sudo chmod +x "
    ensures Text([Fixed(INSTALLER, true), Sign("&&", true)]) == INSTALLER + " && "
    ensures Text([Fixed("sudo", true), Given("DVARPALA_ADMIN_EMAIL=", email, true)]) ==
            "sudo " + "DVARPALA_ADMIN_EMAIL=" + Quote(email) + " "
    ensures Text([Fixed(INSTALLER, true), Fixed("--source", true)]) == INSTALLER + " --source "
    ensures Text([Fixed(REMOTE_SRC_DIR, true), Fixed("--host", true)]) == REMOTE_SRC_DIR + " --host "
    ensures Text([Given("", host, false)]) == Quote(host)
  {
    hide Quote, Text;
    TextOfThree(Fixed("sudo", true), Fixed("chmod", true), Fixed("+x", true));
    assert "sudo" + " " + ("chmod" + " ") + ("+x" + " ") == "sudo chmod +x ";
    PairText(INSTALLER, "&&");
    assert INSTALLER + " " + "&&" + " " == INSTALLER + " && ";
    AssignmentText("DVARPALA_ADMIN_EMAIL=", email);
    PairText(INSTALLER, "--source");
    assert INSTALLER + " " + "--source" + " " == INSTALLER + " --source ";
    PairText(REMOTE_SRC_DIR, "--host");
    assert REMOTE_SRC_DIR + " " + "--host" + " " == REMOTE_SRC_DIR + " --host ";
    TextOfTwo(Given("", host, false), Given("", host, false));
    assert "" + Quote(host) + "" == Quote(host);
  }

  /** Spelled out, the command is the installer's format string with the values in it. */
  lemma {:induction false} InstallText(email: string, host: string)
    ensures Text(InstallCommand(email, host)) ==
            "sudo chmod +x " + (INSTALLER + " && ") + ("sudo " + "DVARPALA_ADMIN_EMAIL=" + Quote(email) + " ")
            + (INSTALLER + " --source ") + (REMOTE_SRC_DIR + " --host ") + Quote(host)
  {
    hide Quote, Text;
    var a := [Fixed("sudo", true), Fixed("chmod", true), Fixed("+x", true)];
    var b := [Fixed(INSTALLER, true), Sign("&&", true)];
    var c := [Fixed("sudo", true), Given("DVARPALA_ADMIN_EMAIL=", email, true)];
    var d := [Fixed(INSTALLER, true), Fixed("--source", true)];
    var e := [Fixed(REMOTE_SRC_DIR, true), Fixed("--host", true)];
    var f := [Given("", host, false)];
    assert InstallCommand(email, host) == a + b + c + d + e + f;
    TextConcat(a + b + c + d + e, f);
    TextConcat(a + b + c + d, e);
    TextConcat(a + b + c, d);
    TextConcat(a + b, c);
    TextConcat(a, b);
    InstallParts(email, host);
  }

  // The four commands of the clone: wait for the machine, update, get git, and clone.

  const WAIT: seq<Piece> :=
    [Fixed("sudo", true), Fixed("cloud-init", true), Fixed("status", true), Fixed("--wait", true),
     Sign(">", false), Fixed("/dev/null", true), Fixed("2", false), Sign(">&", false), Fixed("1", true),
     Sign("||", true), Fixed("true", false), Sign(";", true)]

  const UPDATE: seq<Piece> :=
    [Fixed("sudo", true), Fixed("apt-get", true), Fixed("-o", true), Fixed("DPkg::Lock::Timeout=600", true),
     Fixed("update", true), Fixed("-qq", true), Sign("&&", true)]

  const GET_GIT: seq<Piece> :=
    [Fixed("sudo", true), Fixed("apt-get", true), Fixed("-o", true), Fixed("DPkg::Lock::Timeout=600", true),
     Fixed("install", true), Fixed("-y", true), Fixed("-qq", true), Fixed("git", true), Sign("&&", true)]

  function Fetch(ref: string, repo: string): seq<Piece> {
    [Fixed("sudo", true), Fixed("rm", true), Fixed("-rf", true), Fixed(REMOTE_SRC_DIR, true), Sign("&&", true),
     Fixed("sudo", true), Fixed("git", true), Fixed("clone", true), Fixed("--depth", true), Fixed("1", true),
     Fixed("--branch", true), Given("", ref, true), Given("", repo, true), Fixed(REMOTE_SRC_DIR, false)]
  }

  function CloneCommand(ref: string, repo: string): seq<Piece> {
    WAIT + UPDATE + GET_GIT + Fetch(ref, repo)
  }

  const WAIT_TOKENS: seq<Token> :=
    [Word("sudo"), Word("cloud-init"), Word("status"), Word("--wait"), Operator(">"), Word("/dev/null"),
     Word("2"), Operator(">&"), Word("1"), Operator("||"), Word("true"), Operator(";")]

  const UPDATE_TOKENS: seq<Token> :=
    [Word("sudo"), Word("apt-get"), Word("-o"), Word("DPkg::Lock::Timeout=600"), Word("update"), Word("-qq"), Operator("&&")]

  const GET_GIT_TOKENS: seq<Token> :=
    [Word("sudo"), Word("apt-get"), Word("-o"), Word("DPkg::Lock::Timeout=600"), Word("install"), Word("-y"),
     Word("-qq"), Word("git"), Operator("&&")]

  function FetchTokens(ref: string, repo: string): seq<Token> {
    [Word("sudo"), Word("rm"), Word("-rf"), Word(REMOTE_SRC_DIR), Operator("&&"),
     Word("sudo"), Word("git"), Word("clone"), Word("--depth"), Word("1"),
     Word("--branch"), Word(ref), Word(repo), Word(REMOTE_SRC_DIR)]
  }

  // The four, spelled out as the format string has them.

  const WAIT_TEXT: string := "sudo cloud-init status " + "--wait >/dev/null " + "2>&1 " + "|| true; "
  const UPDATE_TEXT: string := "sudo apt-get -o " + "DPkg::Lock::Timeout=600 update -qq " + "&& "
  const GET_GIT_TEXT: string := "sudo apt-get -o " + "DPkg::Lock::Timeout=600 install -y " + "-qq git && "

  function FetchText(ref: string, repo: string): string {
    "sudo rm -rf " + (REMOTE_SRC_DIR + " && sudo ") + "git clone --depth " + ("1 --branch " + Quote(ref) + " ")
    + (Quote(repo) + " " + REMOTE_SRC_DIR)
  }

  lemma WaitSpelled()
    ensures Spell(WAIT[0]) + Spell(WAIT[1]) + Spell(WAIT[2]) == "sudo cloud-init status "
    ensures Spell(WAIT[3]) + Spell(WAIT[4]) + Spell(WAIT[5]) == "--wait >/dev/null "
    ensures Spell(WAIT[6]) + Spell(WAIT[7]) + Spell(WAIT[8]) == "2>&1 "
    ensures Spell(WAIT[9]) + Spell(WAIT[10]) + Spell(WAIT[11]) == "|| true; "
  {
  }

  lemma WaitText()
    ensures Text(WAIT) == WAIT_TEXT
  {
    hide Text, Spell;
    var w := WAIT;
    assert w == w[..3] + w[3..6] + w[6..9] + w[9..];
    TextConcat(w[..3] + w[3..6] + w[6..9], w[9..]);
    TextConcat(w[..3] + w[3..6], w[6..9]);
    TextConcat(w[..3], w[3..6]);
    TextOfThree(w[0], w[1], w[2]); TextOfThree(w[3], w[4], w[5]);
    TextOfThree(w[6], w[7], w[8]); TextOfThree(w[9], w[10], w[11]);
    assert w[..3] == [w[0], w[1], w[2]] && w[3..6] == [w[3], w[4], w[5]];
    assert w[6..9] == [w[6], w[7], w[8]] && w[9..] == [w[9], w[10], w[11]];
    WaitSpelled();
  }

  lemma UpdateText()
    ensures Text(UPDATE) == UPDATE_TEXT
  {
    hide Text;
    var u := UPDATE;
    assert u == u[..3] + u[3..6] + u[6..];
    TextConcat(u[..3] + u[3..6], u[6..]);
    TextConcat(u[..3], u[3..6]);
    TextOfThree(u[0], u[1], u[2]); TextOfThree(u[3], u[4], u[5]); TextOfTwo(u[6], u[6]);
    assert u[..3] == [u[0], u[1], u[2]] && u[3..6] == [u[3], u[4], u[5]] && u[6..] == [u[6]];
    assert Spell(u[0]) + Spell(u[1]) + Spell(u[2]) == "sudo apt-get -o ";
    assert Spell(u[3]) + Spell(u[4]) + Spell(u[5]) == "DPkg::Lock::Timeout=600 update -qq ";
    assert Spell(u[6]) == "&& ";
  }

  lemma GetGitText()
    ensures Text(GET_GIT) == GET_GIT_TEXT
  {
    hide Text;
    var g := GET_GIT;
    assert g == g[..3] + g[3..6] + g[6..];
    TextConcat(g[..3] + g[3..6], g[6..]);
    TextConcat(g[..3], g[3..6]);
    TextOfThree(g[0], g[1], g[2]); TextOfThree(g[3], g[4], g[5]); TextOfThree(g[6], g[7], g[8]);
    assert g[..3] == [g[0], g[1], g[2]] && g[3..6] == [g[3], g[4], g[5]] && g[6..] == [g[6], g[7], g[8]];
    assert Spell(g[0]) + Spell(g[1]) + Spell(g[2]) == "sudo apt-get -o ";
    assert Spell(g[3]) + Spell(g[4]) + Spell(g[5]) == "DPkg::Lock::Timeout=600 install -y ";
    assert Spell(g[6]) + Spell(g[7]) + Spell(g[8]) == "-qq git && ";
  }

  lemma FetchParts(ref: string, repo: string)
    ensures var f := Fetch(ref, repo);
            && Spell(f[0]) + Spell(f[1]) + Spell(f[2]) == "sudo rm -rf "
            && Spell(f[3]) + Spell(f[4]) + Spell(f[5]) == REMOTE_SRC_DIR + " && sudo "
            && Spell(f[6]) + Spell(f[7]) + Spell(f[8]) == "git clone --depth "
  {
    hide Quote;
  }

  lemma FetchValues(ref: string, repo: string)
    ensures var f := Fetch(ref, repo);
            && Spell(f[9]) + Spell(f[10]) + Spell(f[11]) == "1 --branch " + Quote(ref) + " "
            && Spell(f[12]) + Spell(f[13]) == Quote(repo) + " " + REMOTE_SRC_DIR
  {
    hide Quote;
  }

  lemma FetchSpelled(ref: string, repo: string)
    ensures Text(Fetch(ref, repo)) == FetchText(ref, repo)
  {
    hide Text, Quote, Spell;
    var f := Fetch(ref, repo);
    assert f == f[..3] + f[3..6] + f[6..9] + f[9..12] + f[12..];
    TextConcat(f[..3] + f[3..6] + f[6..9] + f[9..12], f[12..]);
    TextConcat(f[..3] + f[3..6] + f[6..9], f[9..12]);
    TextConcat(f[..3] + f[3..6], f[6..9]);
    TextConcat(f[..3], f[3..6]);
    TextOfThree(f[0], f[1], f[2]); TextOfThree(f[3], f[4], f[5]); TextOfThree(f[6], f[7], f[8]);
    TextOfThree(f[9], f[10], f[11]); TextOfTwo(f[12], f[13]);
    assert f[..3] == [f[0], f[1], f[2]] && f[3..6] == [f[3], f[4], f[5]] && f[6..9] == [f[6], f[7], f[8]];
    assert f[9..12] == [f[9], f[10], f[11]] && f[12..] == [f[12], f[13]];
    FetchParts(ref, repo);
    FetchValues(ref, repo);
  }

  /** Spelled out, the command is the installer's format string with the values in it. */
  lemma {:induction false} CloneText(ref: string, repo: string)
    ensures Text(CloneCommand(ref, repo)) == WAIT_TEXT + UPDATE_TEXT + GET_GIT_TEXT + FetchText(ref, repo)
  {
    hide Text, FetchText;
    WaitText(); UpdateText(); GetGitText(); FetchSpelled(ref, repo);
    TextConcat(WAIT + UPDATE + GET_GIT, Fetch(ref, repo));
    TextConcat(WAIT + UPDATE, GET_GIT);
    TextConcat(WAIT, UPDATE);
  }

  lemma WaitWordsArePlain()
    ensures AllPlain("sudo") && AllPlain("cloud-init") && AllPlain("status") && AllPlain("--wait")
    ensures AllPlain("/dev/null") && AllPlain("2") && AllPlain("1") && AllPlain("true")
  {
  }

  lemma AptWordsArePlain()
    ensures AllPlain("sudo") && AllPlain("apt-get") && AllPlain("-o") && AllPlain("DPkg::Lock::Timeout=600")
    ensures AllPlain("update") && AllPlain("-qq") && AllPlain("install") && AllPlain("-y") && AllPlain("git")
  {
  }

  lemma FetchWordsArePlain()
    ensures AllPlain("sudo") && AllPlain("rm") && AllPlain("-rf") && AllPlain("git") && AllPlain("clone")
    ensures AllPlain("--depth") && AllPlain("1") && AllPlain("--branch") && AllPlain("")
  {
  }

  lemma WaitIsProper()
    ensures forall p :: p in WAIT ==> Proper(p)
  {
    hide AllPlain;
    WaitWordsArePlain();
  }

  lemma AptIsProper()
    ensures forall p :: p in UPDATE || p in GET_GIT ==> Proper(p)
  {
    hide AllPlain;
    AptWordsArePlain();
  }

  lemma FetchIsProper(ref: string, repo: string)
    ensures forall p :: p in Fetch(ref, repo) ==> Proper(p)
  {
    hide AllPlain;
    PathsArePlain();
    FetchWordsArePlain();
  }

  lemma CloneMeans(ref: string, repo: string)
    ensures Meanings(CloneCommand(ref, repo)) == WAIT_TOKENS + UPDATE_TOKENS + GET_GIT_TOKENS + FetchTokens(ref, repo)
  {
    hide Meanings;
    MeaningsAre(WAIT, WAIT_TOKENS);
    MeaningsAre(UPDATE, UPDATE_TOKENS);
    MeaningsAre(GET_GIT, GET_GIT_TOKENS);
    assert "" + ref == ref && "" + repo == repo;
    MeaningsAre(Fetch(ref, repo), FetchTokens(ref, repo));
    MeaningsConcat(WAIT + UPDATE + GET_GIT, Fetch(ref, repo));
    MeaningsConcat(WAIT + UPDATE, GET_GIT);
    MeaningsConcat(WAIT, UPDATE);
  }

  /** Whatever the branch and the repository are, the shell runs the same four
      commands, with each of the two as one argument of git clone. */
  lemma {:induction false} CloneReads(ref: string, repo: string)
    ensures Tokens(Text(CloneCommand(ref, repo))) ==
            Some(WAIT_TOKENS + UPDATE_TOKENS + GET_GIT_TOKENS + FetchTokens(ref, repo))
  {
    assert Separated(CloneCommand(ref, repo));
    hide Proper, Tokens, Text, Meanings, Separated;
    WaitIsProper();
    AptIsProper();
    FetchIsProper(ref, repo);
    CommandReads(CloneCommand(ref, repo));
    CloneMeans(ref, repo);
  }
}
