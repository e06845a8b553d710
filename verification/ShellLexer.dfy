/** Tokens of a command line (sh.c:265-311) and the text of a command. */
module ShellLexer {
  import opened ShellGrammar

  predicate IsSpace(c: char) { c == ' ' || c == '\t' || c == '\r' || c == '\n' || c == '\U{b}' }

  predicate IsSymbol(c: char) { c == '<' || c == '|' || c == '>' || c == '&' || c == ';' || c == '(' || c == ')' }

  predicate IsWordChar(c: char) { c != '\0' && !IsSpace(c) && !IsSymbol(c) }

  /** A C string: no NUL before its end. */
  type Line = s: string | forall i :: 0 <= i < |s| ==> s[i] != '\0'

  function SkipSpace(s: string, i: nat): (r: nat)
    requires i <= |s|
    ensures i <= r <= |s| && (r < |s| ==> !IsSpace(s[r])) && forall k :: i <= k < r ==> IsSpace(s[k])
    decreases |s| - i
  {
    if i < |s| && IsSpace(s[i]) then SkipSpace(s, i + 1) else i
  }

  function WordEnd(s: string, i: nat): (r: nat)
    requires i <= |s|
    ensures i <= r <= |s| && (r < |s| ==> !IsWordChar(s[r])) && forall k :: i <= k < r ==> IsWordChar(s[k])
    decreases |s| - i
  {
    if i < |s| && IsWordChar(s[i]) then WordEnd(s, i + 1) else i
  }

  const BLANKS := " \t\r\n\U{b}"
  const SYMBOLS := "<|>&;()"

  /** Token t stands in s from i to e, and does not go on behind e. */
  predicate Stands(s: string, i: nat, t: Token<Span>, e: nat)
  {
    && i < e <= |s|
    && match t
       case Append => s[i..e] == ">>"
       case Sym(c) => s[i..e] == [c] && c in SYMBOLS && (c == '>' && e < |s| ==> s[e] != '>')
       case Word(w) => w == Span(i, e) && IsWord(s, w)
  }

  predicate Blank(s: string, i: nat, j: nat) { i <= j <= |s| && forall k :: i <= k < j ==> s[k] in BLANKS }

  /** ts are the tokens of s from i on, with nothing but blanks around them. */
  ghost predicate Spells(s: string, i: nat, ts: seq<Token<Span>>)
    decreases |ts|
  {
    if ts == [] then Blank(s, i, |s|)
    else exists j: nat, e: nat :: Blank(s, i, j) && Stands(s, j, ts[0], e) && Spells(s, e, ts[1..])
  }

  /** The token that starts at i, which is not a blank. */
  function TokenAt(s: Line, i: nat): (r: (Token<Span>, nat))
    requires i < |s| && !IsSpace(s[i])
    ensures i < r.1 <= |s|
  {
    if s[i] == '>' && i + 1 < |s| && s[i + 1] == '>' then (Append, i + 2)
    else if IsSymbol(s[i]) then (Sym(s[i]), i + 1)
    else (Word(Span(i, WordEnd(s, i))), WordEnd(s, i))
  }

  function Lex(s: Line, i: nat): (r: seq<Token<Span>>)
    requires i <= |s|
    decreases |s| - i
  {
    var j := SkipSpace(s, i);
    if j == |s| then [] else [TokenAt(s, j).0] + Lex(s, TokenAt(s, j).1)
  }

  /** A maximal run of word characters. */
  predicate IsWord(s: string, w: Span)
  {
    && w.lo < w.hi <= |s| && (forall k :: w.lo <= k < w.hi ==> IsWordChar(s[k]))
    && (w.hi < |s| ==> !IsWordChar(s[w.hi]))
  }

  /** Two tokens that stand at the same place are the same, and none stands on a blank. */
  lemma StandsOne(s: Line, i: nat, t: Token<Span>, e: nat)
    requires Stands(s, i, t, e)
    ensures !IsSpace(s[i]) && (t, e) == TokenAt(s, i)
  {
    assert s[i..e][0] == s[i];
    if t.Append? { assert s[i..e][1] == s[i + 1]; }
    if t.Word? { WordEndIs(s, i, e); }
  }

  lemma TokenStands(s: Line, i: nat)
    requires i < |s| && !IsSpace(s[i])
    ensures Stands(s, i, TokenAt(s, i).0, TokenAt(s, i).1)
  {
    var e := TokenAt(s, i).1;
    if TokenAt(s, i).0.Append? { assert s[i..e] == [s[i], s[i + 1]]; }
  }

  /** Lex gives the tokens of a line, and no other tokens are those of the line. */
  lemma {:induction false} LexSpells(s: Line, i: nat, ts: seq<Token<Span>>)
    requires i <= |s|
    ensures Spells(s, i, ts) <==> ts == Lex(s, i)
    decreases |s| - i
  {
    hide Stands, TokenAt;
    var j := SkipSpace(s, i);
    if Spells(s, i, ts) && ts != [] {
      var k: nat, e: nat :| Blank(s, i, k) && Stands(s, k, ts[0], e) && Spells(s, e, ts[1..]);
      StandsFits(s, k, ts[0], e);
      StandsOne(s, k, ts[0], e);
      assert k == j;
      LexSpells(s, e, ts[1..]);
    }
    if ts == Lex(s, i) && j < |s| {
      TokenStands(s, j);
      var e := TokenAt(s, j).1;
      LexSpells(s, e, ts[1..]);
      assert Blank(s, i, j) && Stands(s, j, ts[0], e) && Spells(s, e, ts[1..]);
    }
  }

  lemma StandsFits(s: string, i: nat, t: Token<Span>, e: nat)
    requires Stands(s, i, t, e)
    ensures i < e <= |s|
  {
  }

  /** Word tokens are the maximal runs of word characters. */
  lemma {:induction false} LexWords(s: Line, i: nat, t: Token<Span>)
    requires i <= |s| && t in Lex(s, i) && t.Word?
    ensures IsWord(s, t.w)
    decreases |s| - i
  {
    var j := SkipSpace(s, i);
    if j < |s| && t != TokenAt(s, j).0 {
      LexWords(s, TokenAt(s, j).1, t);
    }
  }

  lemma LexSkips(s: Line, i: nat)
    requires i <= |s|
    ensures Lex(s, SkipSpace(s, i)) == Lex(s, i)
  {
  }

  /** The text a span of the line stands for. */
  function Text(s: string, cmd: Cmd<Span>): (r: Cmd<string>)
    requires forall w :: w in Words(cmd) ==> w.lo <= w.hi <= |s|
  {
    match cmd
    case Exec(argv) =>
      Exec(seq(|argv|, i requires 0 <= i < |argv| => assert argv[i] in Words(cmd); s[argv[i].lo..argv[i].hi]))
    case Redir(c, f, m, fd) => Redir(Text(s, c), s[f.lo..f.hi], m, fd)
    case Pipe(l, r) => Pipe(Text(s, l), Text(s, r))
    case List(l, r) => List(Text(s, l), Text(s, r))
    case Back(c) => Back(Text(s, c))
  }

  // ---- the fully parenthesised form, as text ----

  predicate Spelled(w: string) { w != [] && forall i :: 0 <= i < |w| ==> IsWordChar(w[i]) }

  /** Commands made of words that a line can contain. */
  predicate Printable(cmd: Cmd<string>)
  {
    Shape(cmd) && forall w :: w in Words(cmd) ==> Spelled(w)
  }

  function PrintArgs(argv: seq<string>): (r: string)
  {
    if argv == [] then "" else " " + argv[0] + PrintArgs(argv[1..])
  }

  function PrintMark(fd: nat, f: string): (r: string) { (if fd == 0 then "<" else ">") + f }

  function PrintPair(l: string, c: char, r: string): (p: string) { "(" + l + ")" + ([c] + ("(" + r + ")")) }

  function Print(cmd: Cmd<string>): (r: string)
  {
    match cmd
    case Exec(argv) => PrintArgs(argv)
    case Redir(c, f, _, fd) => "(" + Print(c) + ")" + PrintMark(fd, f)
    case Pipe(l, r) => PrintPair(Print(l), '|', Print(r))
    case List(l, r) => PrintPair(Print(l), ';', Print(r))
    case Back(c) => "(" + Print(c) + ")" + "&"
  }

  /** Where the words of an argument list, or of a command, are when it is printed at i. */
  function LocateArgs(argv: seq<string>, i: nat): (r: seq<Span>)
    ensures |r| == |argv|
  {
    if argv == [] then [] else [Span(i + 1, i + 1 + |argv[0]|)] + LocateArgs(argv[1..], i + 1 + |argv[0]|)
  }

  function Locate(cmd: Cmd<string>, i: nat): (r: Cmd<Span>)
  {
    match cmd
    case Exec(argv) => Exec(LocateArgs(argv, i))
    case Redir(c, f, m, fd) =>
      var at := i + |Print(c)| + 3;
      Redir(Locate(c, i + 1), Span(at, at + |f|), m, fd)
    case Pipe(l, r) => Pipe(Locate(l, i + 1), Locate(r, i + |Print(l)| + 4))
    case List(l, r) => List(Locate(l, i + 1), Locate(r, i + |Print(l)| + 4))
    case Back(c) => Back(Locate(c, i + 1))
  }

  predicate Has(s: string, i: nat, p: string) { i + |p| <= |s| && s[i..i + |p|] == p }

  /** No word runs on past i. */
  predicate Stop(s: string, i: nat) { i <= |s| && (i < |s| ==> !IsWordChar(s[i])) }

  lemma LexSym(s: Line, i: nat, c: char)
    requires i < |s| && s[i] == c && IsSymbol(c) && (c == '>' && i + 1 < |s| ==> s[i + 1] != '>')
    ensures Lex(s, i) == [Sym(c)] + Lex(s, i + 1)
  {
  }

  lemma {:induction false} WordEndIs(s: string, i: nat, j: nat)
    requires i <= j && Stop(s, j) && forall k :: i <= k < j ==> IsWordChar(s[k])
    ensures WordEnd(s, i) == j
    decreases j - i
  {
  }

  lemma LexWord(s: Line, i: nat, w: string)
    requires Spelled(w) && Has(s, i, w) && Stop(s, i + |w|)
    ensures Lex(s, i) == [Word(Span(i, i + |w|))] + Lex(s, i + |w|)
  {
    forall k | i <= k < i + |w|
      ensures s[k] == w[k - i]
    {
      assert s[i..i + |w|][k - i] == s[k];
    }
    WordEndIs(s, i, i + |w|);
    assert w[0] == s[i];
  }

  lemma HasParts(s: string, i: nat, p: string, q: string)
    requires Has(s, i, p + q)
    ensures Has(s, i, p) && Has(s, i + |p|, q)
  {
    var pq := s[i..i + |p + q|];
    assert s[i..i + |p|] == pq[..|p|];
    assert s[i + |p|..i + |p| + |q|] == pq[|p|..];
  }

  /** A word after a blank. */
  lemma LexArg(s: Line, i: nat, w: string, rest: string)
    requires Spelled(w) && Has(s, i, " " + w + rest) && Stop(s, i + |" " + w + rest|) && (rest == "" || rest[0] == ' ')
    ensures var at := i + 1 + |w|;
      && Has(s, at, rest) && i + |" " + w + rest| == at + |rest|
      && Lex(s, i) == [Word(Span(i + 1, at))] + Lex(s, at)
  {
    hide WordEnd, TokenAt;
    var at := i + 1 + |w|;
    HasParts(s, i, " " + w, rest);
    HasParts(s, i, " ", w);
    assert s[i..i + 1][0] == s[i];
    if rest != "" { assert s[at..at + |rest|][0] == s[at]; }
    LexWord(s, i + 1, w);
    assert SkipSpace(s, i) == SkipSpace(s, i + 1);
  }

  lemma PrintArgsStart(argv: seq<string>)
    ensures PrintArgs(argv) == "" || PrintArgs(argv)[0] == ' '
  {
  }

  lemma {:induction false} LexArgs(s: Line, i: nat, argv: seq<string>)
    requires (forall k :: 0 <= k < |argv| ==> Spelled(argv[k])) && Has(s, i, PrintArgs(argv))
    requires Stop(s, i + |PrintArgs(argv)|)
    ensures Lex(s, i) == Printed(Exec(LocateArgs(argv, i))) + Lex(s, i + |PrintArgs(argv)|)
    decreases |argv|
  {
    hide Lex, Has, Spelled, LocateArgs, Printed;
    PrintedArgs(argv, i);
    if argv != [] {
      PrintArgsStart(argv[1..]);
      LexArg(s, i, argv[0], PrintArgs(argv[1..]));
      LexArgs(s, i + 1 + |argv[0]|, argv[1..]);
    }
  }

  lemma PrintedArgs(argv: seq<string>, i: nat)
    ensures argv == [] ==> Printed(Exec(LocateArgs(argv, i))) == []
    ensures argv != [] ==>
      var at := i + 1 + |argv[0]|;
      Printed(Exec(LocateArgs(argv, i))) == [Word(Span(i + 1, at))] + Printed(Exec(LocateArgs(argv[1..], at)))
  {
  }

  lemma HasAt(s: string, i: nat, p: string, k: nat)
    requires Has(s, i, p) && k < |p|
    ensures i + k < |s| && s[i + k] == p[k]
  {
  }

  /** Where p stands and no word runs on past it, its tokens are ts. */
  predicate Reads(s: Line, i: nat, p: string, ts: seq<Token<Span>>)
  {
    Has(s, i, p) && Stop(s, i + |p|) ==> Lex(s, i) == ts + Lex(s, i + |p|)
  }

  /** `( … )` around what is printed at i + 1. */
  lemma LexParens(s: Line, i: nat, p: string, ts: seq<Token<Span>>, rest: string)
    requires Has(s, i, "(" + p + ")" + rest) && Reads(s, i + 1, p, ts)
    ensures Has(s, i + |p| + 2, rest)
    ensures Lex(s, i) == InParens(ts) + Lex(s, i + |p| + 2)
  {
    hide Lex, Has;
    HasAt(s, i, "(" + p + ")" + rest, 0);
    HasAt(s, i, "(" + p + ")" + rest, |p| + 1);
    ParenPart(s, i, p, rest);
    LexSym(s, i, '(');
    LexSym(s, i + 1 + |p|, ')');
    assert InParens(ts) + Lex(s, i + |p| + 2) == [Sym('(')] + (ts + ([Sym(')')] + Lex(s, i + |p| + 2)));
  }

  lemma LexMark(s: Line, i: nat, fd: nat, f: string)
    requires Spelled(f) && Has(s, i, PrintMark(fd, f)) && Stop(s, i + 1 + |f|)
    ensures Lex(s, i) == Mark(fd, Span(i + 1, i + 1 + |f|)) + Lex(s, i + 1 + |f|)
  {
    hide Lex, Has;
    var m := if fd == 0 then "<" else ">";
    HasAt(s, i, m + f, 0);
    HasAt(s, i, m + f, 1);
    HasParts(s, i, m, f);
    LexSym(s, i, m[0]);
    LexWord(s, i + 1, f);
  }

  lemma LexRedir(s: Line, i: nat, p: string, ts: seq<Token<Span>>, fd: nat, f: string)
    requires Spelled(f) && Reads(s, i + 1, p, ts)
    ensures var at := i + |p| + 3;
      Reads(s, i, "(" + p + ")" + PrintMark(fd, f), InParens(ts) + Mark(fd, Span(at, at + |f|)))
  {
    hide Lex, Has, Spelled;
    if Has(s, i, "(" + p + ")" + PrintMark(fd, f)) && Stop(s, i + |"(" + p + ")" + PrintMark(fd, f)|) {
      LexParens(s, i, p, ts, PrintMark(fd, f));
      LexMark(s, i + |p| + 2, fd, f);
    }
  }

  lemma LexPair(s: Line, i: nat, p: string, ts: seq<Token<Span>>, c: char, q: string, us: seq<Token<Span>>)
    requires (c == '|' || c == ';') && Reads(s, i + 1, p, ts) && Reads(s, i + |p| + 4, q, us)
    ensures Reads(s, i, PrintPair(p, c, q), InParens(ts) + [Sym(c)] + InParens(us))
  {
    hide Lex, Has;
    if Has(s, i, PrintPair(p, c, q)) {
      var j := i + |p| + 3;
      var right := "(" + q + ")";
      LexParens(s, i, p, ts, [c] + right);
      HasAt(s, j - 1, [c] + right, 0);
      HasParts(s, j - 1, [c], right);
      LexSym(s, j - 1, c);
      assert right == right + "";
      LexParens(s, j, q, us, "");
    }
  }

  lemma LexBack(s: Line, i: nat, p: string, ts: seq<Token<Span>>)
    requires Reads(s, i + 1, p, ts)
    ensures Reads(s, i, "(" + p + ")" + "&", InParens(ts) + [Sym('&')])
  {
    hide Lex, Has;
    if Has(s, i, "(" + p + ")" + "&") {
      LexParens(s, i, p, ts, "&");
      HasAt(s, i + |p| + 2, "&", 0);
      LexSym(s, i + |p| + 2, '&');
    }
  }

  lemma LexExec(s: Line, i: nat, argv: seq<string>)
    requires forall k :: 0 <= k < |argv| ==> Spelled(argv[k])
    ensures Reads(s, i, PrintArgs(argv), Printed(Exec(LocateArgs(argv, i))))
  {
    hide Lex, Has;
    if Has(s, i, PrintArgs(argv)) && Stop(s, i + |PrintArgs(argv)|) { LexArgs(s, i, argv); }
  }

  lemma PrintableParts(cmd: Cmd<string>)
    requires Printable(cmd)
    ensures cmd.Exec? ==> forall k :: 0 <= k < |cmd.argv| ==> Spelled(cmd.argv[k])
    ensures cmd.Redir? ==> Printable(cmd.cmd) && Spelled(cmd.file)
    ensures cmd.Pipe? || cmd.List? ==> Printable(cmd.left) && Printable(cmd.right)
    ensures cmd.Back? ==> Printable(cmd.cmd)
  {
  }

  /** Reading the printed form gives its tokens, and the words are where Locate says. */
  lemma {:induction false} LexPrint(s: Line, i: nat, cmd: Cmd<string>)
    requires Printable(cmd)
    ensures Reads(s, i, Print(cmd), Printed(Locate(cmd, i)))
    decreases cmd
  {
    hide Lex, Has, Reads, Printable;
    PrintableParts(cmd);
    match cmd {
      case Exec(argv) =>
        LexExec(s, i, argv);
      case Redir(c, f, m, fd) =>
        LexPrint(s, i + 1, c);
        LexRedir(s, i, Print(c), Printed(Locate(c, i + 1)), fd, f);
      case Pipe(l, r) =>
        LexPrint(s, i + 1, l);
        LexPrint(s, i + |Print(l)| + 4, r);
        LexPair(s, i, Print(l), Printed(Locate(l, i + 1)), '|', Print(r), Printed(Locate(r, i + |Print(l)| + 4)));
      case List(l, r) =>
        LexPrint(s, i + 1, l);
        LexPrint(s, i + |Print(l)| + 4, r);
        LexPair(s, i, Print(l), Printed(Locate(l, i + 1)), ';', Print(r), Printed(Locate(r, i + |Print(l)| + 4)));
      case Back(c) =>
        LexPrint(s, i + 1, c);
        LexBack(s, i, Print(c), Printed(Locate(c, i + 1)));
    }
  }

  // ---- the words are where they should be ----

  /** Every span of cmd lies in s. */
  ghost predicate Inside(s: string, cmd: Cmd<Span>) { forall w :: w in Words(cmd) ==> w.lo <= w.hi <= |s| }

  lemma {:induction false} LocatedArgs(s: string, i: nat, argv: seq<string>)
    requires Has(s, i, PrintArgs(argv))
    ensures forall k :: 0 <= k < |argv| ==>
      var w := LocateArgs(argv, i)[k];
      w.lo <= w.hi <= |s| && s[w.lo..w.hi] == argv[k]
    decreases |argv|
  {
    if argv != [] {
      HasParts(s, i, " " + argv[0], PrintArgs(argv[1..]));
      HasParts(s, i, " ", argv[0]);
      LocatedArgs(s, i + 1 + |argv[0]|, argv[1..]);
    }
  }

  /** The located words have the text that was printed. */
  ghost predicate LocatedOk(s: string, i: nat, cmd: Cmd<string>)
  {
    Inside(s, Locate(cmd, i)) && Text(s, Locate(cmd, i)) == cmd && (Shape(cmd) ==> Shape(Locate(cmd, i)))
  }

  lemma LocatedExec(s: string, i: nat, argv: seq<string>)
    requires Has(s, i, PrintArgs(argv))
    ensures LocatedOk(s, i, Exec(argv))
  {
    LocatedArgs(s, i, argv);
    var cmd := Locate(Exec(argv), i);
    forall w | w in Words(cmd)
      ensures w.lo <= w.hi <= |s|
    {
      var k :| 0 <= k < |argv| && cmd.argv[k] == w;
    }
    assert Text(s, cmd).argv == argv;
  }

  lemma LocatedRedir(s: string, i: nat, c: Cmd<string>, f: string, m: nat, fd: nat)
    requires Has(s, i, Print(Redir(c, f, m, fd))) && LocatedOk(s, i + 1, c)
    ensures LocatedOk(s, i, Redir(c, f, m, fd))
  {
    hide Has;
    HasParts(s, i, "(" + Print(c) + ")", PrintMark(fd, f));
    HasParts(s, i + |Print(c)| + 2, if fd == 0 then "<" else ">", f);
    HasText(s, i + |Print(c)| + 3, f);
  }

  lemma LocatedPipe(s: string, i: nat, l: Cmd<string>, r: Cmd<string>)
    requires LocatedOk(s, i + 1, l) && LocatedOk(s, i + |Print(l)| + 4, r)
    ensures LocatedOk(s, i, Pipe(l, r))
  {
    hide Print, LocateArgs;
    assert Locate(Pipe(l, r), i) == Pipe(Locate(l, i + 1), Locate(r, i + |Print(l)| + 4));
  }

  lemma LocatedList(s: string, i: nat, l: Cmd<string>, r: Cmd<string>)
    requires LocatedOk(s, i + 1, l) && LocatedOk(s, i + |Print(l)| + 4, r)
    ensures LocatedOk(s, i, List(l, r))
  {
    hide Print, LocateArgs;
    assert Locate(List(l, r), i) == List(Locate(l, i + 1), Locate(r, i + |Print(l)| + 4));
  }

  lemma {:induction false} Located(s: string, i: nat, cmd: Cmd<string>)
    requires Has(s, i, Print(cmd))
    ensures LocatedOk(s, i, cmd)
    decreases cmd
  {
    hide Has, LocatedOk;
    match cmd {
      case Exec(argv) =>
        LocatedExec(s, i, argv);
      case Redir(c, f, m, fd) =>
        ParenPart(s, i, Print(c), PrintMark(fd, f));
        Located(s, i + 1, c);
        LocatedRedir(s, i, c, f, m, fd);
      case Pipe(l, r) =>
        PairParts(s, i, Print(l), '|', Print(r));
        Located(s, i + 1, l);
        Located(s, i + |Print(l)| + 4, r);
        LocatedPipe(s, i, l, r);
      case List(l, r) =>
        PairParts(s, i, Print(l), ';', Print(r));
        Located(s, i + 1, l);
        Located(s, i + |Print(l)| + 4, r);
        LocatedList(s, i, l, r);
      case Back(c) =>
        ParenPart(s, i, Print(c), "&");
        Located(s, i + 1, c);
        LocatedBack(s, i, c);
    }
  }

  lemma LocatedBack(s: string, i: nat, c: Cmd<string>)
    requires LocatedOk(s, i + 1, c)
    ensures LocatedOk(s, i, Back(c))
  {
  }

  lemma ParenPart(s: string, i: nat, p: string, rest: string)
    requires Has(s, i, "(" + p + ")" + rest)
    ensures Has(s, i + 1, p) && Has(s, i + |p| + 2, rest)
  {
    hide Has;
    HasParts(s, i, "(" + p + ")", rest);
    HasParts(s, i, "(" + p, ")");
    HasParts(s, i, "(", p);
  }

  lemma HasText(s: string, i: nat, f: string)
    requires Has(s, i, f)
    ensures i + |f| <= |s| && s[i..i + |f|] == f
  {
  }

  lemma PairParts(s: string, i: nat, p: string, c: char, q: string)
    requires Has(s, i, PrintPair(p, c, q))
    ensures Has(s, i + 1, p) && Has(s, i + |p| + 4, q)
  {
    hide Has;
    ParenPart(s, i, p, [c] + ("(" + q + ")"));
    HasParts(s, i + |p| + 2, [c], "(" + q + ")");
    assert "(" + q + ")" == "(" + q + ")" + "";
    ParenPart(s, i + |p| + 3, q, "");
  }
}
