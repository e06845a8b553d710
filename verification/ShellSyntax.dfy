/** What a command line says, as a tree: every way to write one, in parentheses or without, with what it
    means. The parser accepts exactly the token sequences of such trees and returns their meaning. */
module ShellSyntax {
  import opened ShellGrammar

  datatype Redirection<W> = Input(file: W) | Output(file: W) | Appended(file: W)

  /** A word and the redirections behind it. */
  datatype Argument<W> = Argument(word: W, redirs: seq<Redirection<W>>)

  datatype Term<W> =
    | Simple(redirs: seq<Redirection<W>>, args: seq<Argument<W>>)
    | Block(body: Phrase<W>, redirs: seq<Redirection<W>>)

  /** Terms with `|` between them. */
  datatype Chain<W> = Last(term: Term<W>) | Piped(term: Term<W>, next: Chain<W>)

  /** Chains, each with any number of `&` behind it, and `;` between them. */
  datatype Phrase<W> = Only(chain: Chain<W>, amps: nat) | Then(chain: Chain<W>, amps: nat, next: Phrase<W>)

  // ---- how they are written ----

  function MarkOf<W>(r: Redirection<W>): (t: Token<W>)
  {
    match r
    case Input(_) => Sym('<')
    case Output(_) => Sym('>')
    case Appended(_) => Append
  }

  function RedirTokens<W>(rs: seq<Redirection<W>>): (ts: seq<Token<W>>)
  {
    if rs == [] then [] else [MarkOf(rs[0]), Word(rs[0].file)] + RedirTokens(rs[1..])
  }

  function ArgTokens<W>(args: seq<Argument<W>>): (ts: seq<Token<W>>)
  {
    if args == [] then [] else [Word(args[0].word)] + (RedirTokens(args[0].redirs) + ArgTokens(args[1..]))
  }

  function Amps<W>(n: nat): (ts: seq<Token<W>>)
  {
    if n == 0 then [] else [Sym('&')] + Amps(n - 1)
  }

  function TermTokens<W>(t: Term<W>): (ts: seq<Token<W>>)
  {
    match t
    case Simple(rs, args) => RedirTokens(rs) + ArgTokens(args)
    case Block(body, rs) => [Sym('(')] + (PhraseTokens(body) + ([Sym(')')] + RedirTokens(rs)))
  }

  function ChainTokens<W>(c: Chain<W>): (ts: seq<Token<W>>)
  {
    match c
    case Last(t) => TermTokens(t)
    case Piped(t, next) => TermTokens(t) + ([Sym('|')] + ChainTokens(next))
  }

  function PhraseTokens<W>(p: Phrase<W>): (ts: seq<Token<W>>)
  {
    match p
    case Only(c, n) => ChainTokens(c) + Amps(n)
    case Then(c, n, next) => ChainTokens(c) + (Amps(n) + ([Sym(';')] + PhraseTokens(next)))
  }

  // ---- what they mean ----

  /** `<` opens the file for reading as descriptor 0, `>` and `>>` open it for writing as descriptor 1. */
  function Redirected<W>(cmd: Cmd<W>, r: Redirection<W>): (c: Cmd<W>)
  {
    match r
    case Input(f) => Redir(cmd, f, O_RDONLY, 0)
    case Output(f) => Redir(cmd, f, O_WRONLY + O_CREATE, 1)
    case Appended(f) => Redir(cmd, f, O_WRONLY + O_CREATE, 1)
  }

  /** The first redirection is the innermost. */
  function RedirectedAll<W>(cmd: Cmd<W>, rs: seq<Redirection<W>>): (c: Cmd<W>)
    decreases |rs|
  {
    if rs == [] then cmd else Redirected(RedirectedAll(cmd, rs[..|rs| - 1]), rs[|rs| - 1])
  }

  function WordsOf<W>(args: seq<Argument<W>>): (ws: seq<W>)
  {
    seq(|args|, i requires 0 <= i < |args| => args[i].word)
  }

  function RedirsOf<W>(args: seq<Argument<W>>): (rs: seq<Redirection<W>>)
  {
    if args == [] then [] else args[0].redirs + RedirsOf(args[1..])
  }

  function Backed<W>(cmd: Cmd<W>, n: nat): (c: Cmd<W>)
  {
    if n == 0 then cmd else Back(Backed(cmd, n - 1))
  }

  function TermCmd<W>(t: Term<W>): (c: Cmd<W>)
  {
    match t
    case Simple(rs, args) => RedirectedAll(Exec(WordsOf(args)), rs + RedirsOf(args))
    case Block(body, rs) => RedirectedAll(PhraseCmd(body), rs)
  }

  function ChainCmd<W>(c: Chain<W>): (r: Cmd<W>)
  {
    match c
    case Last(t) => TermCmd(t)
    case Piped(t, next) => Pipe(TermCmd(t), ChainCmd(next))
  }

  function PhraseCmd<W>(p: Phrase<W>): (r: Cmd<W>)
  {
    match p
    case Only(c, n) => Backed(ChainCmd(c), n)
    case Then(c, n, next) => List(Backed(ChainCmd(c), n), PhraseCmd(next))
  }

  // ---- which ones the parser takes: those with fewer than MAXARGS words to a command ----

  predicate TermFits<W>(t: Term<W>)
  {
    match t
    case Simple(_, args) => |args| < MAXARGS
    case Block(body, _) => PhraseFits(body)
  }

  predicate ChainFits<W>(c: Chain<W>)
  {
    match c
    case Last(t) => TermFits(t)
    case Piped(t, next) => TermFits(t) && ChainFits(next)
  }

  predicate PhraseFits<W>(p: Phrase<W>)
  {
    match p
    case Only(c, _) => ChainFits(c)
    case Then(c, _, next) => ChainFits(c) && PhraseFits(next)
  }

  // ---- every tree is read as what it means ----

  /** What ends a simple command. */
  predicate Stops<W>(ts: seq<Token<W>>) { ts == [] || At(ts, '|') || At(ts, ')') || At(ts, '&') || At(ts, ';') }

  lemma {:induction false} RedirectedThen<W>(cmd: Cmd<W>, rs: seq<Redirection<W>>, more: seq<Redirection<W>>)
    ensures RedirectedAll(RedirectedAll(cmd, rs), more) == RedirectedAll(cmd, rs + more)
    decreases |more|
  {
    if more == [] {
      assert rs + more == rs;
    } else {
      RedirectedThen(cmd, rs, more[..|more| - 1]);
      assert (rs + more)[..|rs + more| - 1] == rs + more[..|more| - 1];
    }
  }

  lemma RedirectedOne<W>(cmd: Cmd<W>, rs: seq<Redirection<W>>)
    requires rs != []
    ensures RedirectedAll(Redirected(cmd, rs[0]), rs[1..]) == RedirectedAll(cmd, rs)
  {
    assert RedirectedAll(cmd, rs[..1]) == Redirected(RedirectedAll(cmd, []), rs[0]) by { assert rs[..1][..0] == []; }
    RedirectedThen(cmd, rs[..1], rs[1..]);
    assert rs[..1] + rs[1..] == rs;
  }

  lemma {:induction false} RedirsRead<W>(cmd: Cmd<W>, rs: seq<Redirection<W>>, more: seq<Token<W>>)
    requires !AtRedir(more)
    ensures Redirs(cmd, RedirTokens(rs) + more) == Ok(RedirectedAll(cmd, rs), more)
    decreases |rs|
  {
    hide RedirectedAll;
    var ts := RedirTokens(rs) + more;
    if rs == [] {
      assert ts == more;
      NoneRedirected(cmd);
    } else {
      var rest := RedirTokens(rs[1..]) + more;
      assert ts == [MarkOf(rs[0]), Word(rs[0].file)] + rest;
      assert ts[2..] == rest && ts[1] == Word(rs[0].file);
      RedirectedOne(cmd, rs);
      RedirsRead(Redirected(cmd, rs[0]), rs[1..], more);
      assert RedirTo(cmd, ts[0], ts[1].w) == Redirected(cmd, rs[0]);
    }
  }

  lemma NoneRedirected<W>(cmd: Cmd<W>)
    ensures RedirectedAll(cmd, []) == cmd
  {
  }

  lemma {:induction false} AddArgUnder<W>(before: seq<W>, rs: seq<Redirection<W>>, w: W)
    ensures AddArg(RedirectedAll(Exec(before), rs), w) == RedirectedAll(Exec(before + [w]), rs)
    decreases |rs|
  {
    if rs != [] { AddArgUnder(before, rs[..|rs| - 1], w); }
  }

  /** One argument and its redirections. */
  lemma ArgRead<W>(before: seq<W>, rs: seq<Redirection<W>>, a: Argument<W>, rest: seq<Token<W>>)
    requires |before| + 1 < MAXARGS && !AtRedir(rest)
    ensures Args(RedirectedAll(Exec(before), rs), |before|, [Word(a.word)] + (RedirTokens(a.redirs) + rest))
         == Args(RedirectedAll(Exec(before + [a.word]), rs + a.redirs), |before| + 1, rest)
  {
    hide RedirectedAll, Redirs;
    var ts := [Word(a.word)] + (RedirTokens(a.redirs) + rest);
    assert ts[1..] == RedirTokens(a.redirs) + rest;
    AddArgUnder(before, rs, a.word);
    RedirsRead(RedirectedAll(Exec(before + [a.word]), rs), a.redirs, rest);
    RedirectedThen(Exec(before + [a.word]), rs, a.redirs);
  }

  lemma {:induction false} ArgsRead<W>(before: seq<W>, rs: seq<Redirection<W>>, args: seq<Argument<W>>,
                                       more: seq<Token<W>>)
    requires |before| + |args| < MAXARGS && Stops(more)
    ensures Args(RedirectedAll(Exec(before), rs), |before|, ArgTokens(args) + more)
         == Ok(RedirectedAll(Exec(before + WordsOf(args)), rs + RedirsOf(args)), more)
    decreases |args|
  {
    hide RedirectedAll, Redirs, Args;
    if args == [] {
      assert ArgTokens(args) + more == more && before + WordsOf(args) == before && rs + RedirsOf(args) == rs;
      ArgsStop(RedirectedAll(Exec(before), rs), |before|, more);
    } else {
      var rest := ArgTokens(args[1..]) + more;
      assert ArgTokens(args) + more == [Word(args[0].word)] + (RedirTokens(args[0].redirs) + rest);
      ArgRead(before, rs, args[0], rest);
      ArgsRead(before + [args[0].word], rs + args[0].redirs, args[1..], more);
      assert before + [args[0].word] + WordsOf(args[1..]) == before + WordsOf(args);
      assert rs + args[0].redirs + RedirsOf(args[1..]) == rs + RedirsOf(args);
    }
  }

  lemma ArgsStop<W>(ret: Cmd<W>, argc: nat, more: seq<Token<W>>)
    requires Stops(more)
    ensures Args(ret, argc, more) == Ok(ret, more)
  {
  }

  lemma SimpleRead<W>(rs: seq<Redirection<W>>, args: seq<Argument<W>>, more: seq<Token<W>>)
    requires |args| < MAXARGS && Stops(more)
    ensures ExecOf(RedirTokens(rs) + ArgTokens(args) + more) == Ok(TermCmd(Simple(rs, args)), more)
  {
    hide RedirectedAll, Redirs, Args;
    var rest := ArgTokens(args) + more;
    assert RedirTokens(rs) + ArgTokens(args) + more == RedirTokens(rs) + rest;
    assert !At(rest, '(') && !AtRedir(rest);
    RedirsRead(Exec([]), rs, rest);
    ArgsRead([], rs, args, more);
    assert [] + WordsOf(args) == WordsOf(args);
    assert !At(RedirTokens(rs) + rest, '(') by {
      assert rs != [] ==> (RedirTokens(rs) + rest)[0] == MarkOf(rs[0]);
      assert rs == [] ==> RedirTokens(rs) + rest == rest;
    }
  }

  lemma BlockRead<W>(body: Phrase<W>, rs: seq<Redirection<W>>, more: seq<Token<W>>)
    requires Stops(more)
    requires var tail := [Sym(')')] + (RedirTokens(rs) + more);
      LineOf(PhraseTokens(body) + tail) == Ok(PhraseCmd(body), tail)
    ensures ExecOf(TermTokens(Block(body, rs)) + more) == Ok(TermCmd(Block(body, rs)), more)
  {
    hide LineOf, RedirectedAll, Redirs, PhraseTokens, PhraseCmd;
    var tail := [Sym(')')] + (RedirTokens(rs) + more);
    var ts := TermTokens(Block(body, rs)) + more;
    assert ts == [Sym('(')] + (PhraseTokens(body) + tail);
    assert ts[1..] == PhraseTokens(body) + tail && tail[1..] == RedirTokens(rs) + more;
    RedirsRead(PhraseCmd(body), rs, more);
  }

  lemma {:induction false} TermRead<W>(t: Term<W>, more: seq<Token<W>>)
    requires TermFits(t) && Stops(more)
    ensures ExecOf(TermTokens(t) + more) == Ok(TermCmd(t), more)
    decreases t, 0
  {
    hide ExecOf, LineOf;
    match t {
      case Simple(rs, args) =>
        SimpleRead(rs, args, more);
      case Block(body, rs) =>
        PhraseRead(body, [Sym(')')] + (RedirTokens(rs) + more));
        BlockRead(body, rs, more);
    }
  }

  lemma {:induction false} ChainRead<W>(c: Chain<W>, more: seq<Token<W>>)
    requires ChainFits(c) && Stops(more) && !At(more, '|')
    ensures PipeOf(ChainTokens(c) + more) == Ok(ChainCmd(c), more)
    decreases c, 1
  {
    hide ExecOf, TermTokens, TermCmd;
    match c {
      case Last(t) =>
        TermRead(t, more);
      case Piped(t, next) =>
        var rest := [Sym('|')] + (ChainTokens(next) + more);
        assert ChainTokens(c) + more == TermTokens(t) + rest && rest[1..] == ChainTokens(next) + more;
        TermRead(t, rest);
        ChainRead(next, more);
    }
  }

  lemma {:induction false} AmpsRead<W>(cmd: Cmd<W>, k: nat, n: nat, more: seq<Token<W>>)
    requires !At(more, '&')
    ensures Backs(Backed(cmd, k), Amps(n) + more) == Ok(Backed(cmd, k + n), more)
    decreases n
  {
    if n == 0 {
      assert Amps(n) + more == more;
    } else {
      assert Amps(n) + more == [Sym('&')] + (Amps(n - 1) + more);
      assert (Amps(n) + more)[1..] == Amps(n - 1) + more;
      AmpsRead(cmd, k + 1, n - 1, more);
    }
  }

  lemma AmpsStop<W>(n: nat, more: seq<Token<W>>)
    requires Stops(more) && !At(more, '|')
    ensures Stops(Amps(n) + more) && !At(Amps(n) + more, '|')
  {
    if n == 0 { assert Amps(n) + more == more; } else { assert (Amps(n) + more)[0] == Sym('&'); }
  }

  /** Every phrase is read as what it means, up to its end. */
  lemma {:induction false} PhraseRead<W>(p: Phrase<W>, more: seq<Token<W>>)
    requires PhraseFits(p) && Closed(more)
    ensures LineOf(PhraseTokens(p) + more) == Ok(PhraseCmd(p), more)
    decreases p, 2
  {
    hide PipeOf, Backs, ChainTokens, ChainCmd, Backed, Amps;
    var c, n := p.chain, p.amps;
    var rest := if p.Only? then more else [Sym(';')] + (PhraseTokens(p.next) + more);
    assert PhraseTokens(p) + more == ChainTokens(c) + (Amps(n) + rest);
    AmpsStop(n, rest);
    ChainRead(c, Amps(n) + rest);
    AmpsRead(ChainCmd(c), 0, n, rest);
    NotBacked(ChainCmd(c));
    if p.Then? {
      assert rest[1..] == PhraseTokens(p.next) + more;
      PhraseRead(p.next, more);
    }
  }

  lemma NotBacked<W>(cmd: Cmd<W>)
    ensures Backed(cmd, 0) == cmd
  {
  }

  // ---- and whatever is read is a tree ----

  /** A token sequence that is a, then b and the rest. */
  lemma Joined<T>(ts: seq<T>, k: nat, a: seq<T>, b: seq<T>, rest: seq<T>)
    requires k <= |ts| && ts[..k] == a && ts[k..] == b + rest
    ensures ts == (a + b) + rest
  {
  }

  lemma RedirTokensFirst<W>(r: Redirection<W>, more: seq<Redirection<W>>)
    ensures RedirTokens([r] + more) == [MarkOf(r), Word(r.file)] + RedirTokens(more)
  {
    assert ([r] + more)[1..] == more;
  }

  lemma {:induction false} RedirsTree<W>(cmd: Cmd<W>, ts: seq<Token<W>>) returns (rs: seq<Redirection<W>>)
    requires Redirs(cmd, ts).Ok?
    ensures var r := Redirs(cmd, ts);
      ts == RedirTokens(rs) + r.rest && r.cmd == RedirectedAll(cmd, rs) && !AtRedir(r.rest)
    decreases |ts|
  {
    hide RedirectedAll, Redirected, RedirTo, AtRedir, MarkOf, RedirTokens;
    if !AtRedir(ts) {
      rs := [];
      RedirsRead(cmd, rs, ts);
      NoRedirTokens<W>();
    } else {
      var r := FirstRedir(cmd, ts);
      var more := RedirsTree(Redirected(cmd, r), ts[2..]);
      rs := [r] + more;
      RedirTokensFirst(r, more);
      Joined(ts, 2, [MarkOf(r), Word(r.file)], RedirTokens(more), Redirs(cmd, ts).rest);
      assert rs[1..] == more;
      RedirectedOne(cmd, rs);
    }
  }

  lemma NoRedirTokens<W>()
    ensures RedirTokens<W>([]) == []
  {
  }

  lemma FirstRedir<W>(cmd: Cmd<W>, ts: seq<Token<W>>) returns (r: Redirection<W>)
    requires AtRedir(ts) && |ts| >= 2 && ts[1].Word?
    ensures ts[..2] == [MarkOf(r), Word(r.file)] && RedirTo(cmd, ts[0], ts[1].w) == Redirected(cmd, r)
  {
    var f := ts[1].w;
    r := if At(ts, '<') then Input(f) else if At(ts, '>') then Output(f) else Appended(f);
  }

  /** What one more argument in front adds. */
  lemma FirstArg<W>(a: Argument<W>, more: seq<Argument<W>>)
    ensures ArgTokens([a] + more) == ([Word(a.word)] + RedirTokens(a.redirs)) + ArgTokens(more)
    ensures WordsOf([a] + more) == [a.word] + WordsOf(more) && RedirsOf([a] + more) == a.redirs + RedirsOf(more)
  {
    assert ([a] + more)[1..] == more;
  }

  lemma {:induction false} ArgsTree<W>(before: seq<W>, rs: seq<Redirection<W>>, ts: seq<Token<W>>)
    returns (args: seq<Argument<W>>)
    requires |before| < MAXARGS && Args(RedirectedAll(Exec(before), rs), |before|, ts).Ok?
    ensures var r := Args(RedirectedAll(Exec(before), rs), |before|, ts);
      && ts == ArgTokens(args) + r.rest && |before| + |args| < MAXARGS
      && r.cmd == RedirectedAll(Exec(before + WordsOf(args)), rs + RedirsOf(args))
    decreases |ts|
  {
    hide RedirectedAll, Redirs, RedirTokens, ArgTokens, WordsOf, RedirsOf, AddArg, Args;
    if Stops(ts) {
      args := [];
      ArgsStop(RedirectedAll(Exec(before), rs), |before|, ts);
      NoArgs<W>();
      assert before + [] == before && rs + [] == rs && [] + ts == ts;
    } else {
      ArgsFirst(RedirectedAll(Exec(before), rs), |before|, ts);
      var w := ts[0].w;
      AddArgUnder(before, rs, w);
      var cmd := RedirectedAll(Exec(before + [w]), rs);
      var rest := Redirs(cmd, ts[1..]).rest;
      var rs1 := RedirsTree(cmd, ts[1..]);
      var a := Argument(w, rs1);
      assert ts == [Word(w)] + (RedirTokens(rs1) + rest);
      ArgRead(before, rs, a, rest);
      var more := ArgsTree(before + [w], rs + rs1, rest);
      args := [a] + more;
      FirstArg(a, more);
      Assoc(before, [w], WordsOf(more));
      Assoc(rs, rs1, RedirsOf(more));
      Joined(ts, 1, [Word(w)], RedirTokens(rs1), rest);
      Assoc([Word(w)] + RedirTokens(rs1), ArgTokens(more), Args(RedirectedAll(Exec(before), rs), |before|, ts).rest);
    }
  }

  lemma ArgsFirst<W>(ret: Cmd<W>, argc: nat, ts: seq<Token<W>>)
    requires Args(ret, argc, ts).Ok? && !Stops(ts)
    ensures ts[0].Word? && argc + 1 < MAXARGS && Redirs(AddArg(ret, ts[0].w), ts[1..]).Ok?
  {
  }

  lemma Assoc<T>(a: seq<T>, b: seq<T>, c: seq<T>)
    ensures (a + b) + c == a + (b + c)
  {
  }

  lemma NoArgs<W>()
    ensures ArgTokens<W>([]) == [] && WordsOf<W>([]) == [] && RedirsOf<W>([]) == []
  {
  }

  lemma SimpleTree<W>(ts: seq<Token<W>>) returns (t: Term<W>)
    requires !At(ts, '(') && ExecOf(ts).Ok?
    ensures var r := ExecOf(ts); ts == TermTokens(t) + r.rest && r.cmd == TermCmd(t) && TermFits(t)
  {
    hide RedirectedAll, Redirs, Args;
    var n := Redirs(Exec([]), ts);
    var rs := RedirsTree(Exec([]), ts);
    var args := ArgsTree([], rs, n.rest);
    t := Simple(rs, args);
    assert [] + WordsOf(args) == WordsOf(args);
  }

  lemma {:induction false} TermTree<W>(ts: seq<Token<W>>) returns (t: Term<W>)
    requires ExecOf(ts).Ok?
    ensures var r := ExecOf(ts); ts == TermTokens(t) + r.rest && r.cmd == TermCmd(t) && TermFits(t)
    decreases |ts|, 1
  {
    hide RedirectedAll, Redirs;
    if !At(ts, '(') {
      t := SimpleTree(ts);
    } else {
      var n := LineOf(ts[1..]);
      var body := PhraseTree(ts[1..]);
      var rs := RedirsTree(n.cmd, n.rest[1..]);
      t := Block(body, rs);
      assert n.rest == [Sym(')')] + n.rest[1..] && ts == [Sym('(')] + ts[1..];
    }
  }

  lemma {:induction false} ChainTree<W>(ts: seq<Token<W>>) returns (c: Chain<W>)
    requires PipeOf(ts).Ok?
    ensures var r := PipeOf(ts); ts == ChainTokens(c) + r.rest && r.cmd == ChainCmd(c) && ChainFits(c)
    decreases |ts|, 2
  {
    hide ExecOf, TermTokens, TermCmd, TermFits;
    var n := ExecOf(ts);
    var t := TermTree(ts);
    if !At(n.rest, '|') {
      c := Last(t);
    } else {
      var next := ChainTree(n.rest[1..]);
      c := Piped(t, next);
      assert n.rest == [Sym('|')] + n.rest[1..];
    }
  }

  lemma {:induction false} AmpsTree<W>(cmd: Cmd<W>, k: nat, ts: seq<Token<W>>) returns (n: nat)
    ensures var r := Backs(Backed(cmd, k), ts); ts == Amps(n) + r.rest && r.cmd == Backed(cmd, k + n)
    decreases |ts|
  {
    if At(ts, '&') {
      n := AmpsTree(cmd, k + 1, ts[1..]);
      n := n + 1;
      assert ts == [Sym('&')] + ts[1..];
    } else {
      n := 0;
    }
  }

  /** What the parser reads is a phrase, and it returns what the phrase means. */
  lemma {:induction false} PhraseTree<W>(ts: seq<Token<W>>) returns (p: Phrase<W>)
    requires LineOf(ts).Ok?
    ensures var r := LineOf(ts); ts == PhraseTokens(p) + r.rest && r.cmd == PhraseCmd(p) && PhraseFits(p)
    decreases |ts|, 3
  {
    hide PipeOf, Backs, ChainTokens, ChainCmd, ChainFits, Backed, Amps;
    var q := PipeOf(ts);
    var c := ChainTree(ts);
    NotBacked(q.cmd);
    var b := Backs(q.cmd, q.rest);
    var n := AmpsTree(q.cmd, 0, q.rest);
    if !At(b.rest, ';') {
      p := Only(c, n);
    } else {
      var next := PhraseTree(b.rest[1..]);
      p := Then(c, n, next);
      assert b.rest == [Sym(';')] + b.rest[1..];
    }
  }
}
