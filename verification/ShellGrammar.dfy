/** The grammar of the shell (sh.c:336-446), on a sequence of tokens: what the parser, which walks
    a cursor over characters, has to compute. */
module ShellGrammar {
  const MAXARGS := 10
  const O_RDONLY := 0
  const O_WRONLY := 1
  const O_CREATE := 0x200

  /** A command whose words are of type W: spans of the input, or their text. */
  datatype Cmd<W> =
    | Exec(argv: seq<W>)
    | Redir(cmd: Cmd<W>, file: W, mode: nat, fd: nat)
    | Pipe(left: Cmd<W>, right: Cmd<W>)
    | List(left: Cmd<W>, right: Cmd<W>)
    | Back(cmd: Cmd<W>)

  /** `[q, eq)`. */
  datatype Span = Span(lo: nat, hi: nat)

  datatype Token<W> = Sym(c: char) | Append | Word(w: W)

  datatype Panic = Syntax | MissingFile | MissingParen | NoBlock | TooManyArgs

  datatype Parsed<W> = Ok(cmd: Cmd<W>, rest: seq<Token<W>>) | Err(panic: Panic)

  // ---- the grammar, on tokens ----

  predicate At<W>(ts: seq<Token<W>>, c: char) { ts != [] && ts[0].Sym? && ts[0].c == c }

  predicate AtRedir<W>(ts: seq<Token<W>>) { At(ts, '<') || At(ts, '>') || (ts != [] && ts[0].Append?) }

  function RedirTo<W>(cmd: Cmd<W>, tok: Token<W>, file: W): (r: Cmd<W>)
  {
    if tok.Sym? && tok.c == '<' then Redir(cmd, file, O_RDONLY, 0) else Redir(cmd, file, O_WRONLY + O_CREATE, 1)
  }

  /** `cmd->argv[argc] = q` where cmd is the exec node under the redirections added so far. */
  function AddArg<W>(cmd: Cmd<W>, w: W): (r: Cmd<W>)
  {
    match cmd
    case Exec(argv) => Exec(argv + [w])
    case Redir(c, f, m, fd) => Redir(AddArg(c, w), f, m, fd)
    case _ => cmd
  }

  function Redirs<W>(cmd: Cmd<W>, ts: seq<Token<W>>): (r: Parsed<W>)
    ensures r.Ok? ==> |r.rest| <= |ts|
    decreases |ts|
  {
    if !AtRedir(ts) then Ok(cmd, ts)
    else if |ts| < 2 || !ts[1].Word? then Err(MissingFile)
    else Redirs(RedirTo(cmd, ts[0], ts[1].w), ts[2..])
  }

  function Args<W>(ret: Cmd<W>, argc: nat, ts: seq<Token<W>>): (r: Parsed<W>)
    ensures r.Ok? ==> |r.rest| <= |ts|
    decreases |ts|
  {
    if ts == [] || At(ts, '|') || At(ts, ')') || At(ts, '&') || At(ts, ';') then Ok(ret, ts)
    else if !ts[0].Word? then Err(Syntax)
    else if argc + 1 >= MAXARGS then Err(TooManyArgs)
    else
      var n := Redirs(AddArg(ret, ts[0].w), ts[1..]);
      if n.Err? then n else Args(n.cmd, argc + 1, n.rest)
  }

  function ExecOf<W>(ts: seq<Token<W>>): (r: Parsed<W>)
    ensures r.Ok? ==> |r.rest| <= |ts|
    decreases |ts|, 1
  {
    if At(ts, '(') then BlockOf(ts)
    else
      var n := Redirs(Exec([]), ts);
      if n.Err? then n else Args(n.cmd, 0, n.rest)
  }

  function BlockOf<W>(ts: seq<Token<W>>): (r: Parsed<W>)
    ensures r.Ok? ==> |r.rest| < |ts|
    decreases |ts|, 0
  {
    if !At(ts, '(') then Err(NoBlock)
    else
      var n := LineOf(ts[1..]);
      if n.Err? then n
      else if !At(n.rest, ')') then Err(MissingParen)
      else Redirs(n.cmd, n.rest[1..])
  }

  function PipeOf<W>(ts: seq<Token<W>>): (r: Parsed<W>)
    ensures r.Ok? ==> |r.rest| <= |ts|
    decreases |ts|, 2
  {
    var n := ExecOf(ts);
    if n.Err? || !At(n.rest, '|') then n
    else
      var m := PipeOf(n.rest[1..]);
      if m.Err? then m else Ok(Pipe(n.cmd, m.cmd), m.rest)
  }

  function Backs<W>(cmd: Cmd<W>, ts: seq<Token<W>>): (r: Parsed<W>)
    ensures r.Ok? && |r.rest| <= |ts|
    decreases |ts|
  {
    if At(ts, '&') then Backs(Back(cmd), ts[1..]) else Ok(cmd, ts)
  }

  function LineOf<W>(ts: seq<Token<W>>): (r: Parsed<W>)
    ensures r.Ok? ==> |r.rest| <= |ts|
    decreases |ts|, 3
  {
    var p := PipeOf(ts);
    if p.Err? then p
    else
      var b := Backs(p.cmd, p.rest);
      if !At(b.rest, ';') then b
      else
        var m := LineOf(b.rest[1..]);
        if m.Err? then m else Ok(List(b.cmd, m.cmd), m.rest)
  }

  // ---- what every parsed command looks like ----

  function Words<W>(cmd: Cmd<W>): (r: set<W>)
  {
    match cmd
    case Exec(argv) => set w | w in argv
    case Redir(c, f, _, _) => Words(c) + {f}
    case Pipe(l, r) => Words(l) + Words(r)
    case List(l, r) => Words(l) + Words(r)
    case Back(c) => Words(c)
  }

  /** What the parser can build: fewer than MAXARGS arguments, and only the two kinds of
      redirection. */
  predicate Shape<W>(cmd: Cmd<W>)
  {
    match cmd
    case Exec(argv) => |argv| < MAXARGS
    case Redir(c, _, m, fd) => Shape(c) && ((m == O_RDONLY && fd == 0) || (m == O_WRONLY + O_CREATE && fd == 1))
    case Pipe(l, r) => Shape(l) && Shape(r)
    case List(l, r) => Shape(l) && Shape(r)
    case Back(c) => Shape(c)
  }

  /** A result whose words come from `known` or from the tokens, and whose rest is left over
      from them. */
  ghost predicate From<W(!new)>(r: Parsed<W>, known: set<W>, ts: seq<Token<W>>)
  {
    r.Ok? ==>
      && Shape(r.cmd)
      && (forall w :: w in Words(r.cmd) ==> w in known || Word(w) in ts)
      && (forall t :: t in r.rest ==> t in ts)
  }

  /** An exec node with argc arguments, under redirections. */
  predicate Filled<W>(cmd: Cmd<W>, argc: nat)
  {
    match cmd
    case Exec(argv) => |argv| == argc
    case Redir(c, _, _, _) => Filled(c, argc)
    case _ => false
  }

  lemma {:induction false} AddArgFills<W(!new)>(cmd: Cmd<W>, argc: nat, w: W)
    requires Shape(cmd) && Filled(cmd, argc) && argc + 1 < MAXARGS
    ensures Shape(AddArg(cmd, w)) && Filled(AddArg(cmd, w), argc + 1) && Words(AddArg(cmd, w)) == Words(cmd) + {w}
  {
    if cmd.Redir? { AddArgFills(cmd.cmd, argc, w); }
  }

  lemma {:induction false} RedirsFrom<W(!new)>(cmd: Cmd<W>, ts: seq<Token<W>>)
    requires Shape(cmd)
    ensures From(Redirs(cmd, ts), Words(cmd), ts)
    ensures forall n :: Filled(cmd, n) && Redirs(cmd, ts).Ok? ==> Filled(Redirs(cmd, ts).cmd, n)
    decreases |ts|
  {
    if AtRedir(ts) && |ts| >= 2 && ts[1].Word? {
      RedirsFrom(RedirTo(cmd, ts[0], ts[1].w), ts[2..]);
      assert ts[1] in ts;
    }
  }

  lemma {:induction false} ArgsFrom<W(!new)>(ret: Cmd<W>, argc: nat, ts: seq<Token<W>>)
    requires Shape(ret) && Filled(ret, argc)
    ensures From(Args(ret, argc, ts), Words(ret), ts)
    decreases |ts|
  {
    if ts == [] || At(ts, '|') || At(ts, ')') || At(ts, '&') || At(ts, ';') || !ts[0].Word? || argc + 1 >= MAXARGS {
    } else {
      AddArgFills(ret, argc, ts[0].w);
      var n := Redirs(AddArg(ret, ts[0].w), ts[1..]);
      RedirsFrom(AddArg(ret, ts[0].w), ts[1..]);
      if n.Ok? { ArgsFrom(n.cmd, argc + 1, n.rest); }
    }
  }

  lemma {:induction false} ExecFrom<W(!new)>(ts: seq<Token<W>>)
    ensures From(ExecOf(ts), {}, ts)
    decreases |ts|, 1
  {
    if At(ts, '(') {
      BlockFrom(ts);
    } else {
      var empty: Cmd<W> := Exec([]);
      var n := Redirs(empty, ts);
      assert Filled(empty, 0);
      RedirsFrom(empty, ts);
      if n.Ok? { ArgsFrom(n.cmd, 0, n.rest); }
    }
  }

  lemma {:induction false} BlockFrom<W(!new)>(ts: seq<Token<W>>)
    ensures From(BlockOf(ts), {}, ts)
    decreases |ts|, 0
  {
    if At(ts, '(') {
      LineFrom(ts[1..]);
      var n := LineOf(ts[1..]);
      if n.Ok? && At(n.rest, ')') {
        RedirsFrom(n.cmd, n.rest[1..]);
        assert forall t :: t in n.rest[1..] ==> t in n.rest;
      }
    }
  }

  lemma {:induction false} PipeFrom<W(!new)>(ts: seq<Token<W>>)
    ensures From(PipeOf(ts), {}, ts)
    decreases |ts|, 2
  {
    var n := ExecOf(ts);
    ExecFrom(ts);
    if n.Ok? && At(n.rest, '|') { PipeFrom(n.rest[1..]); }
  }

  lemma {:induction false} BacksFrom<W(!new)>(cmd: Cmd<W>, ts: seq<Token<W>>)
    requires Shape(cmd)
    ensures From(Backs(cmd, ts), Words(cmd), ts)
    decreases |ts|
  {
    if At(ts, '&') { BacksFrom(Back(cmd), ts[1..]); }
  }

  /** Every command the parser returns is within MAXARGS, and its words are words of the input. */
  lemma {:induction false} LineFrom<W(!new)>(ts: seq<Token<W>>)
    ensures From(LineOf(ts), {}, ts)
    decreases |ts|, 3
  {
    var p := PipeOf(ts);
    PipeFrom(ts);
    if p.Ok? {
      BacksFrom(p.cmd, p.rest);
      var b := Backs(p.cmd, p.rest);
      if At(b.rest, ';') { LineFrom(b.rest[1..]); }
    }
  }

  // ---- the fully parenthesised form, as tokens ----

  function InParens<W>(ts: seq<Token<W>>): (r: seq<Token<W>>) { [Sym('(')] + ts + [Sym(')')] }

  function Mark<W>(fd: nat, f: W): (r: seq<Token<W>>) { [Sym(if fd == 0 then '<' else '>'), Word(f)] }

  function Printed<W>(cmd: Cmd<W>): (r: seq<Token<W>>)
  {
    match cmd
    case Exec(argv) => seq(|argv|, i requires 0 <= i < |argv| => Word(argv[i]))
    case Redir(c, f, _, fd) => InParens(Printed(c)) + Mark(fd, f)
    case Pipe(l, r) => InParens(Printed(l)) + [Sym('|')] + InParens(Printed(r))
    case List(l, r) => InParens(Printed(l)) + [Sym(';')] + InParens(Printed(r))
    case Back(c) => InParens(Printed(c)) + [Sym('&')]
  }

  /** What can follow a command that stands in parentheses or alone. */
  predicate Closed<W>(ts: seq<Token<W>>) { ts == [] || At(ts, ')') }

  lemma NoRedirs<W>(cmd: Cmd<W>, ts: seq<Token<W>>)
    requires !AtRedir(ts)
    ensures Redirs(cmd, ts) == Ok(cmd, ts)
  {
  }

  lemma {:induction false} ArgsParse<W>(before: seq<W>, argv: seq<W>, more: seq<Token<W>>)
    requires |before| + |argv| < MAXARGS && Closed(more)
    ensures Args(Exec(before), |before|, Printed(Exec(argv)) + more) == Ok(Exec(before + argv), more)
    decreases |argv|
  {
    hide Redirs;
    var ts := Printed(Exec(argv)) + more;
    if argv == [] {
      assert ts == more && before + argv == before;
    } else {
      var rest := Printed(Exec(argv[1..])) + more;
      assert ts[1..] == rest;
      NoRedirs(Exec(before + [argv[0]]), rest);
      ArgsParse(before + [argv[0]], argv[1..], more);
      assert before + [argv[0]] + argv[1..] == before + argv;
    }
  }

  /** A parenthesised command, then redirections. */
  lemma BlockParse<W>(c: Cmd<W>, more: seq<Token<W>>)
    requires LineOf(Printed(c) + ([Sym(')')] + more)) == Ok(c, [Sym(')')] + more)
    ensures ExecOf(InParens(Printed(c)) + more) == Redirs(c, more)
  {
    var ts := InParens(Printed(c)) + more;
    assert ts[1..] == Printed(c) + ([Sym(')')] + more);
    assert ([Sym(')')] + more)[1..] == more;
  }

  lemma AloneParse<W>(ts: seq<Token<W>>, c: Cmd<W>, more: seq<Token<W>>)
    requires PipeOf(ts) == Ok(c, more) && Closed(more)
    ensures LineOf(ts) == Ok(c, more)
  {
  }

  lemma ExecParse<W>(argv: seq<W>, more: seq<Token<W>>)
    requires |argv| < MAXARGS && Closed(more)
    ensures LineOf(Printed(Exec(argv)) + more) == Ok(Exec(argv), more)
  {
    hide Args;
    ArgsParse([], argv, more);
    assert [] + argv == argv;
    AloneParse(Printed(Exec(argv)) + more, Exec(argv), more);
  }

  lemma RedirParse<W>(c: Cmd<W>, f: W, m: nat, fd: nat, more: seq<Token<W>>)
    requires Shape(Redir(c, f, m, fd)) && Closed(more)
    requires LineOf(Printed(c) + ([Sym(')')] + (Mark(fd, f) + more))) == Ok(c, [Sym(')')] + (Mark(fd, f) + more))
    ensures LineOf(Printed(Redir(c, f, m, fd)) + more) == Ok(Redir(c, f, m, fd), more)
  {
    hide LineOf, ExecOf;
    var tail := Mark(fd, f) + more;
    var ts := Printed(Redir(c, f, m, fd)) + more;
    BlockParse(c, tail);
    assert ts == InParens(Printed(c)) + tail && tail[2..] == more;
    assert Redirs(c, tail) == Redirs(Redir(c, f, m, fd), more) == Ok(Redir(c, f, m, fd), more);
    AloneParse(ts, Redir(c, f, m, fd), more);
  }

  /** `( left ) c ( right )`: what the parser sees of it after the left block. */
  lemma PairLeft<W>(l: Cmd<W>, r: Cmd<W>, c: char, more: seq<Token<W>>)
    requires c == '|' || c == ';'
    requires var tail := [Sym(c)] + (InParens(Printed(r)) + more);
      LineOf(Printed(l) + ([Sym(')')] + tail)) == Ok(l, [Sym(')')] + tail)
    ensures var ts := InParens(Printed(l)) + [Sym(c)] + InParens(Printed(r)) + more;
      ExecOf(ts) == Ok(l, [Sym(c)] + (InParens(Printed(r)) + more))
  {
    hide LineOf, ExecOf, InParens, Printed, Redirs;
    var tail := [Sym(c)] + (InParens(Printed(r)) + more);
    BlockParse(l, tail);
    NoRedirs(l, tail);
    Regroup(InParens(Printed(l)), [Sym(c)], InParens(Printed(r)), more);
  }

  lemma Regroup<T>(a: seq<T>, b: seq<T>, c: seq<T>, d: seq<T>)
    ensures a + b + c + d == a + (b + (c + d))
  {
  }

  lemma PipeParse<W>(l: Cmd<W>, r: Cmd<W>, more: seq<Token<W>>)
    requires Closed(more)
    requires var tail := [Sym('|')] + (InParens(Printed(r)) + more);
      LineOf(Printed(l) + ([Sym(')')] + tail)) == Ok(l, [Sym(')')] + tail)
    requires LineOf(Printed(r) + ([Sym(')')] + more)) == Ok(r, [Sym(')')] + more)
    ensures LineOf(Printed(Pipe(l, r)) + more) == Ok(Pipe(l, r), more)
  {
    hide LineOf, ExecOf, Redirs, InParens;
    var right := InParens(Printed(r)) + more;
    PairLeft(l, r, '|', more);
    BlockParse(r, more);
    NoRedirs(r, more);
    assert ([Sym('|')] + right)[1..] == right;
    AloneParse(Printed(Pipe(l, r)) + more, Pipe(l, r), more);
  }

  lemma ListParse<W>(l: Cmd<W>, r: Cmd<W>, more: seq<Token<W>>)
    requires Closed(more)
    requires var tail := [Sym(';')] + (InParens(Printed(r)) + more);
      LineOf(Printed(l) + ([Sym(')')] + tail)) == Ok(l, [Sym(')')] + tail)
    requires LineOf(Printed(r) + ([Sym(')')] + more)) == Ok(r, [Sym(')')] + more)
    ensures LineOf(Printed(List(l, r)) + more) == Ok(List(l, r), more)
  {
    hide ExecOf, Redirs, InParens;
    var right := InParens(Printed(r)) + more;
    PairLeft(l, r, ';', more);
    BlockParse(r, more);
    NoRedirs(r, more);
    AloneParse(right, r, more);
    assert ([Sym(';')] + right)[1..] == right;
  }

  lemma BackParse<W>(c: Cmd<W>, more: seq<Token<W>>)
    requires Closed(more)
    requires LineOf(Printed(c) + ([Sym(')')] + ([Sym('&')] + more))) == Ok(c, [Sym(')')] + ([Sym('&')] + more))
    ensures LineOf(Printed(Back(c)) + more) == Ok(Back(c), more)
  {
    hide ExecOf;
    BlockParse(c, [Sym('&')] + more);
    assert Printed(Back(c)) + more == InParens(Printed(c)) + ([Sym('&')] + more) && ([Sym('&')] + more)[1..] == more;
    assert Backs(c, [Sym('&')] + more) == Backs(Back(c), more) == Ok(Back(c), more);
  }

  /** Parsing the printed form of a command gives that command back and stops where it ends. */
  lemma {:induction false} PrintedParse<W>(cmd: Cmd<W>, more: seq<Token<W>>)
    requires Shape(cmd) && Closed(more)
    ensures LineOf(Printed(cmd) + more) == Ok(cmd, more)
    decreases cmd
  {
    hide LineOf;
    match cmd {
      case Exec(argv) =>
        ExecParse(argv, more);
      case Redir(c, f, m, fd) =>
        PrintedParse(c, [Sym(')')] + (Mark(fd, f) + more));
        RedirParse(c, f, m, fd, more);
      case Pipe(l, r) =>
        PrintedParse(l, [Sym(')')] + ([Sym('|')] + (InParens(Printed(r)) + more)));
        PrintedParse(r, [Sym(')')] + more);
        PipeParse(l, r, more);
      case List(l, r) =>
        PrintedParse(l, [Sym(')')] + ([Sym(';')] + (InParens(Printed(r)) + more)));
        PrintedParse(r, [Sym(')')] + more);
        ListParse(l, r, more);
      case Back(c) =>
        PrintedParse(c, [Sym(')')] + ([Sym('&')] + more));
        BackParse(c, more);
    }
  }
}
