/** The parser of the shell as it runs (sh.c:265-493): a cursor over the characters of the line,
    and nulterminate, which writes the ends of the words into the line afterwards. */
module ShellParser {
  import opened ShellGrammar
  import opened ShellLexer
  import opened ShellSyntax

  datatype Result = Cmds(cmd: Cmd<Span>) | Panics(panic: Panic)

  /** What gettoken returns: 0, the character, '+' or 'a' with the word. */
  datatype Got = End | Got(tok: Token<Span>)

  class Parser {
    const s: Line
    var ps: nat

    ghost predicate Valid()
      reads this
    {
      ps <= |s|
    }

    /** The tokens that are still to be read. */
    ghost function Rest(): (r: seq<Token<Span>>)
      requires Valid()
      reads this
    {
      Lex(s, ps)
    }

    constructor (s: Line)
      ensures this.s == s && ps == 0 && Valid()
    {
      this.s, ps := s, 0;
    }

    method SkipBlanks(i: nat) returns (j: nat)
      requires i <= |s|
      ensures j == SkipSpace(s, i)
    {
      j := i;
      while j < |s| && IsSpace(s[j])
        invariant i <= j <= |s| && SkipSpace(s, j) == SkipSpace(s, i)
      {
        j := j + 1;
      }
    }

    method FindWordEnd(i: nat) returns (j: nat)
      requires i <= |s|
      ensures j == WordEnd(s, i)
    {
      j := i;
      while j < |s| && !IsSpace(s[j]) && !IsSymbol(s[j])
        invariant i <= j <= |s| && WordEnd(s, j) == WordEnd(s, i)
      {
        j := j + 1;
      }
    }

    /** gettoken: takes the first of the remaining tokens, if there is one. */
    method GetToken() returns (r: Got)
      requires Valid()
      modifies this
      ensures Valid()
      ensures r.End? <==> old(Rest()) == []
      ensures r.End? ==> Rest() == []
      ensures r.Got? ==> r.tok == old(Rest())[0] && Rest() == old(Rest())[1..]
    {
      var i := SkipBlanks(ps);
      if i == |s| {
        ps := i;
        return End;
      }
      ghost var here := i;
      var tok;
      if s[i] == '>' {
        i := i + 1;
        tok := Sym('>');
        if i < |s| && s[i] == '>' {
          tok := Append;
          i := i + 1;
        }
      } else if IsSymbol(s[i]) {
        tok := Sym(s[i]);
        i := i + 1;
      } else {
        var e := FindWordEnd(i);
        tok := Word(Span(i, e));
        i := e;
      }
      assert (tok, i) == TokenAt(s, here);
      LexSkips(s, i);
      ps := SkipBlanks(i);
      r := Got(tok);
    }

    /** peek: does the next token start with one of toks? */
    method Peek(toks: string) returns (b: bool)
      requires Valid() && forall c :: c in toks ==> IsSymbol(c)
      modifies this
      ensures Valid() && Rest() == old(Rest()) && (ps == |s| <==> Rest() == [])
      ensures b <==> Rest() != [] && Starts(Rest()[0], toks)
    {
      LexSkips(s, ps);
      ps := SkipBlanks(ps);
      b := ps < |s| && s[ps] in toks;
    }

    /** parseredirs. */
    method ParseRedirs(cmd0: Cmd<Span>) returns (r: Result)
      requires Valid()
      modifies this
      ensures Valid() && Agrees(r, Redirs(cmd0, old(Rest())), Rest())
    {
      hide Lex;
      var cmd := cmd0;
      var more := Peek("<>");
      while more
        invariant Valid() && Redirs(cmd, Rest()) == Redirs(cmd0, old(Rest()))
        invariant more <==> AtRedir(Rest())
        decreases |Rest()|, more
      {
        var tok := GetToken();
        var file := GetToken();
        if file.End? || !file.tok.Word? {
          return Panics(MissingFile);
        }
        cmd := RedirTo(cmd, tok.tok, file.tok.w);
        more := Peek("<>");
      }
      r := Cmds(cmd);
    }

    /** parseexec. */
    method ParseExec() returns (r: Result)
      requires Valid()
      modifies this
      ensures Valid() && Agrees(r, ExecOf(old(Rest())), Rest())
      decreases |Rest()|, 1
    {
      hide Lex;
      var block := Peek("(");
      if block {
        r := ParseBlock();
        return;
      }
      r := ParseRedirs(Exec([]));
      if r.Panics? {
        return;
      }
      r := ParseArgs(r.cmd);
    }

    /** The argument loop of parseexec. */
    method ParseArgs(ret0: Cmd<Span>) returns (r: Result)
      requires Valid()
      modifies this
      ensures Valid() && Agrees(r, Args(ret0, 0, old(Rest())), Rest())
    {
      hide Lex, Redirs;
      var ret, argc := ret0, 0;
      while true
        invariant Valid() && Args(ret, argc, Rest()) == Args(ret0, 0, old(Rest()))
        decreases |Rest()|
      {
        var stop := Peek("|)&;");
        if stop {
          break;
        }
        var tok := GetToken();
        if tok.End? {
          break;
        }
        if !tok.tok.Word? {
          return Panics(Syntax);
        }
        argc := argc + 1;
        if argc >= MAXARGS {
          return Panics(TooManyArgs);
        }
        r := ParseRedirs(AddArg(ret, tok.tok.w));
        if r.Panics? {
          return;
        }
        ret := r.cmd;
      }
      r := Cmds(ret);
    }

    /** parseblock. */
    method ParseBlock() returns (r: Result)
      requires Valid()
      modifies this
      ensures Valid() && Agrees(r, BlockOf(old(Rest())), Rest())
      decreases |Rest()|, 0
    {
      hide Lex;
      var open := Peek("(");
      if !open {
        return Panics(NoBlock);
      }
      var tok := GetToken();
      r := ParseLine();
      if r.Panics? {
        return;
      }
      var close := Peek(")");
      if !close {
        return Panics(MissingParen);
      }
      tok := GetToken();
      r := ParseRedirs(r.cmd);
    }

    /** parsepipe. */
    method ParsePipe() returns (r: Result)
      requires Valid()
      modifies this
      ensures Valid() && Agrees(r, PipeOf(old(Rest())), Rest())
      decreases |Rest()|, 2
    {
      hide Lex;
      r := ParseExec();
      if r.Panics? {
        return;
      }
      var more := Peek("|");
      if more {
        var tok := GetToken();
        var left := r.cmd;
        r := ParsePipe();
        if r.Cmds? {
          r := Cmds(Pipe(left, r.cmd));
        }
      }
    }

    /** parseline. */
    method ParseLine() returns (r: Result)
      requires Valid()
      modifies this
      ensures Valid() && Agrees(r, LineOf(old(Rest())), Rest())
      decreases |Rest()|, 3
    {
      hide Lex;
      ghost var ts := Rest();
      r := ParsePipe();
      if r.Panics? {
        return;
      }
      var cmd := r.cmd;
      ghost var p := PipeOf(ts);
      var more := Peek("&");
      while more
        invariant Valid() && Backs(cmd, Rest()) == Backs(p.cmd, p.rest) && |Rest()| <= |ts|
        invariant more <==> At(Rest(), '&')
        decreases |Rest()|, more
      {
        var tok := GetToken();
        cmd := Back(cmd);
        more := Peek("&");
      }
      var list := Peek(";");
      if list {
        var tok := GetToken();
        r := ParseLine();
        if r.Cmds? {
          r := Cmds(List(cmd, r.cmd));
        }
      } else {
        r := Cmds(cmd);
      }
    }
  }

  /** The parser stopped where the grammar does, with the same command or the same panic. */
  ghost predicate Agrees(r: Result, p: Parsed<Span>, rest: seq<Token<Span>>)
  {
    match p
    case Ok(cmd, more) => r == Cmds(cmd) && rest == more
    case Err(e) => r == Panics(e)
  }

  /** What parsecmd has to return for a line. */
  function Parse(s: Line): (r: Result)
  {
    var p := LineOf(Lex(s, 0));
    if p.Err? then Panics(p.panic) else if p.rest != [] then Panics(Syntax) else Cmds(p.cmd)
  }

  /** The line is a way to write phrase p. */
  ghost predicate Says(s: Line, p: Phrase<Span>) { PhraseFits(p) && Spells(s, 0, PhraseTokens(p)) }

  /** A line that says something is parsed to what it means. */
  lemma SaysParsed(s: Line, p: Phrase<Span>)
    requires Says(s, p)
    ensures Parse(s) == Cmds(PhraseCmd(p))
  {
    hide Lex, LineOf, Spells, PhraseTokens, PhraseCmd;
    LexSpells(s, 0, PhraseTokens(p));
    PhraseRead(p, []);
    assert PhraseTokens(p) + [] == PhraseTokens(p);
  }

  /** And every line that is parsed says something, so the panics are for lines that say nothing. */
  lemma ParsedSays(s: Line) returns (p: Phrase<Span>)
    requires Parse(s).Cmds?
    ensures Says(s, p) && Parse(s).cmd == PhraseCmd(p)
  {
    hide Lex, LineOf, Spells, PhraseTokens, PhraseCmd;
    p := PhraseTree(Lex(s, 0));
    assert PhraseTokens(p) + [] == PhraseTokens(p);
    LexSpells(s, 0, PhraseTokens(p));
  }

  predicate Starts(t: Token<Span>, toks: string)
  {
    match t
    case Sym(c) => c in toks
    case Append => '>' in toks
    case Word(_) => false
  }

  /** The round trip: every command within MAXARGS whose words are spellable comes back, word by
      word, from its printed form. */
  lemma RoundTrip(cmd: Cmd<string>)
    requires Printable(cmd)
    ensures IsLine(Print(cmd)) && Parse(Print(cmd)).Cmds?
    ensures Inside(Print(cmd), Parse(Print(cmd)).cmd) && Text(Print(cmd), Parse(Print(cmd)).cmd) == cmd
  {
    hide Lex, LineOf, Print, Locate, Printed, Printable, Text, Words, Shape;
    PrintIsLine(cmd);
    var s: Line := Print(cmd);
    assert s[0..0 + |Print(cmd)|] == Print(cmd);
    LexPrint(s, 0, cmd);
    LexAtEnd(s);
    Located(s, 0, cmd);
    PrintableShape(cmd);
    assert Printed(Locate(cmd, 0)) + [] == Printed(Locate(cmd, 0));
    PrintedParse(Locate(cmd, 0), []);
  }

  /** What the parser accepts has a printed form, which the parser reads as the same command. */
  lemma ParsedReparses(s: Line)
    requires Parse(s).Cmds?
    ensures Inside(s, Parse(s).cmd)
    ensures var cmd := Text(s, Parse(s).cmd);
      && Printable(cmd) && IsLine(Print(cmd)) && Parse(Print(cmd)).Cmds?
      && Inside(Print(cmd), Parse(Print(cmd)).cmd) && Text(Print(cmd), Parse(Print(cmd)).cmd) == cmd
  {
    hide LineOf, Print, Locate, Printed, Text, Lex;
    ParsedWords(s);
    TextPrintable(s, Parse(s).cmd);
    RoundTrip(Text(s, Parse(s).cmd));
  }

  /** The words of a parsed line are maximal runs of word characters. */
  lemma ParsedWords(s: Line)
    requires Parse(s).Cmds?
    ensures Shape(Parse(s).cmd) && Inside(s, Parse(s).cmd) && forall w :: w in Words(Parse(s).cmd) ==> IsWord(s, w)
  {
    hide LineOf, Lex;
    LineFrom(Lex(s, 0));
    forall w | w in Words(Parse(s).cmd)
      ensures IsWord(s, w)
    {
      LexWords(s, 0, Word(w));
    }
  }

  predicate IsLine(s: string) { forall i :: 0 <= i < |s| ==> s[i] != '\0' }

  lemma PrintableShape(cmd: Cmd<string>)
    requires Printable(cmd)
    ensures Shape(cmd)
  {
  }

  lemma LexAtEnd(s: Line)
    ensures Lex(s, |s|) == []
  {
  }

  lemma {:induction false} PrintArgsIsLine(argv: seq<string>)
    requires forall k :: 0 <= k < |argv| ==> Spelled(argv[k])
    ensures IsLine(PrintArgs(argv))
    decreases |argv|
  {
    if argv != [] { PrintArgsIsLine(argv[1..]); }
  }

  lemma {:induction false} PrintIsLine(cmd: Cmd<string>)
    requires Printable(cmd)
    ensures IsLine(Print(cmd))
    decreases cmd
  {
    PrintableParts(cmd);
    match cmd {
      case Exec(argv) => PrintArgsIsLine(argv);
      case Redir(c, _, _, _) => PrintIsLine(c);
      case Pipe(l, r) => PrintIsLine(l); PrintIsLine(r);
      case List(l, r) => PrintIsLine(l); PrintIsLine(r);
      case Back(c) => PrintIsLine(c);
    }
  }

  lemma {:induction false} TextPrintable(s: string, cmd: Cmd<Span>)
    requires Shape(cmd) && forall w :: w in Words(cmd) ==> IsWord(s, w)
    ensures Inside(s, cmd) && Printable(Text(s, cmd))
    decreases cmd
  {
    match cmd {
      case Exec(argv) =>
        forall k | 0 <= k < |argv|
          ensures Spelled(Text(s, cmd).argv[k])
        {
          assert argv[k] in Words(cmd);
        }
      case Redir(c, f, _, _) =>
        TextPrintable(s, c);
        assert f in Words(cmd);
      case Pipe(l, r) => TextPrintable(s, l); TextPrintable(s, r);
      case List(l, r) => TextPrintable(s, l); TextPrintable(s, r);
      case Back(c) => TextPrintable(s, c);
    }
  }

  // ---- nulterminate ----

  /** Where nulterminate writes. */
  function Ends(cmd: Cmd<Span>): (r: set<nat>)
  {
    set w | w in Words(cmd) :: w.hi
  }

  /** The C string that starts at i. */
  function CString(b: seq<char>, i: nat): (r: string)
    requires i <= |b|
    decreases |b| - i
  {
    if i < |b| && b[i] != '\0' then [b[i]] + CString(b, i + 1) else []
  }

  ghost predicate Terminated(b: seq<char>, b': seq<char>, ends: set<nat>)
  {
    |b'| == |b| && forall k :: 0 <= k < |b| ==> b'[k] == if k in ends then '\0' else b[k]
  }

  /** nulterminate: a NUL at the end of every word of the command, and nothing else. */
  method NulTerminate(cmd: Cmd<Span>, buf: array<char>)
    requires forall w :: w in Words(cmd) ==> w.hi < buf.Length
    modifies buf
    ensures Terminated(old(buf[..]), buf[..], Ends(cmd))
    decreases cmd
  {
    match cmd {
      case Exec(argv) =>
        var i := 0;
        while i < |argv|
          invariant 0 <= i <= |argv|
          invariant forall k :: 0 <= k < buf.Length ==>
            buf[k] == if exists j :: 0 <= j < i && argv[j].hi == k then '\0' else old(buf[k])
        {
          assert argv[i] in Words(cmd);
          buf[argv[i].hi] := '\0';
          i := i + 1;
        }
        EndsOfArgs(argv);
      case Redir(c, f, _, _) =>
        NulTerminate(c, buf);
        assert f in Words(cmd);
        buf[f.hi] := '\0';
        assert Ends(cmd) == Ends(c) + {f.hi};
      case Pipe(l, r) =>
        NulTerminate(l, buf);
        NulTerminate(r, buf);
        assert Ends(cmd) == Ends(l) + Ends(r);
      case List(l, r) =>
        NulTerminate(l, buf);
        NulTerminate(r, buf);
        assert Ends(cmd) == Ends(l) + Ends(r);
      case Back(c) =>
        NulTerminate(c, buf);
        assert Ends(cmd) == Ends(c);
    }
  }

  lemma EndsOfArgs(argv: seq<Span>)
    ensures forall k :: k in Ends(Exec(argv)) <==> exists j :: 0 <= j < |argv| && argv[j].hi == k
  {
  }

  lemma {:induction false} CStringIs(b: seq<char>, i: nat, j: nat)
    requires i <= j < |b| && b[j] == '\0' && forall k :: i <= k < j ==> b[k] != '\0'
    ensures CString(b, i) == b[i..j]
    decreases j - i
  {
    if i < j {
      CStringIs(b, i + 1, j);
      assert b[i..j] == [b[i]] + b[i + 1..j];
    }
  }

  /** No terminator lands inside a word: the string at each word is the word. */
  lemma WordsSurvive(s: Line, b: seq<char>, words: set<Span>, ends: set<nat>, w: Span)
    requires forall v :: v in words ==> IsWord(s, v)
    requires ends == set v | v in words :: v.hi
    requires Terminated(s + ['\0'], b, ends) && w in words
    ensures IsWord(s, w) && CString(b, w.lo) == s[w.lo..w.hi]
  {
    forall k | w.lo <= k < w.hi
      ensures b[k] == s[k] != '\0'
    {
      assert IsWordChar(s[k]);
    }
    CStringIs(b, w.lo, w.hi);
    assert b[w.lo..w.hi] == s[w.lo..w.hi];
  }

  /** parsecmd: the command of the grammar or its panic; and every word of the command is a C
      string in the line's buffer. */
  method ParseCmd(s: Line, buf: array<char>) returns (r: Result)
    requires buf[..] == s + ['\0']
    modifies buf
    ensures r == Parse(s)
    ensures r.Cmds? <==> exists p :: Says(s, p)
    ensures forall p :: Says(s, p) ==> r == Cmds(PhraseCmd(p))
    ensures r.Cmds? ==> forall w :: w in Words(r.cmd) ==> IsWord(s, w) && CString(buf[..], w.lo) == s[w.lo..w.hi]
  {
    hide Lex, LineOf, Words, Says, PhraseCmd;
    forall p | Says(s, p)
      ensures Parse(s) == Cmds(PhraseCmd(p))
    {
      SaysParsed(s, p);
    }
    if Parse(s).Cmds? { ghost var p := ParsedSays(s); }
    var parser := new Parser(s);
    r := parser.ParseLine();
    if r.Panics? {
      return;
    }
    var b := parser.Peek("");
    if parser.ps != |s| {
      return Panics(Syntax);
    }
    ParsedWords(s);
    NulTerminate(r.cmd, buf);
    forall w | w in Words(r.cmd)
      ensures CString(buf[..], w.lo) == s[w.lo..w.hi]
    {
      WordsSurvive(s, buf[..], Words(r.cmd), Ends(r.cmd), w);
    }
  }
}
