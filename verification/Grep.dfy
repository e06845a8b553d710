/** The regular expression matcher of grep (grep.c:72-106), against what the expression means.
    Strings stand for C strings up to their NUL. */
module Grep {
  /** One character, or any number of them; '.' stands for every character. */
  datatype Item = One(c: char) | Star(c: char)

  datatype Pattern = Pattern(items: seq<Item>, atEnd: bool)

  predicate Hits(c: char, x: char) { c == '.' || c == x }

  predicate PieceOk(it: Item, piece: string)
  {
    match it
    case One(c) => |piece| == 1 && Hits(c, piece[0])
    case Star(c) => forall i :: 0 <= i < |piece| ==> Hits(c, piece[i])
  }

  /** How an expression is read: a character before '*' repeats, a final '$' is the end of the
      text, and everything else, '^', '*' and '$' too, stands for itself. */
  function Compile(re: string): (r: Pattern)
  {
    if re == "" then Pattern([], false)
    else if |re| >= 2 && re[1] == '*' then
      var p := Compile(re[2..]);
      p.(items := [Star(re[0])] + p.items)
    else if re == "$" then Pattern([], true)
    else
      var p := Compile(re[1..]);
      p.(items := [One(re[0])] + p.items)
  }

  /** How a pattern is written. */
  function Text(p: Pattern): (r: string)
    decreases |p.items|
  {
    if p.items == [] then if p.atEnd then "$" else ""
    else
      var it := p.items[0];
      (if it.One? then [it.c] else [it.c, '*']) + Text(p.(items := p.items[1..]))
  }

  /** Nothing in the pattern reads as something else when it is written: no character before a '*' that
      stands for itself or repeats, and no '$' that stands for itself at the end. */
  predicate Writable(p: Pattern)
  {
    && (forall k :: 0 <= k < |p.items| - 1 && p.items[k].One? ==> p.items[k + 1].c != '*')
    && (p.items != [] && !p.atEnd ==> p.items[|p.items| - 1] != One('$'))
  }

  /** Every expression is the text of a pattern, the one that it is read as. */
  lemma {:induction false} CompileIsRead(re: string)
    ensures Text(Compile(re)) == re && Writable(Compile(re))
    decreases |re|
  {
    hide Writable, Text;
    ReadNone();
    if |re| >= 2 && re[1] == '*' {
      var p := Compile(re[2..]);
      CompileIsRead(re[2..]);
      ReadFirst(Star(re[0]), p);
      WritableFirst(Star(re[0]), p);
      assert re == [re[0], '*'] + re[2..];
    } else if re != "" && re != "$" {
      var p := Compile(re[1..]);
      CompileIsRead(re[1..]);
      ReadFirst(One(re[0]), p);
      TextStart(p);
      WritableFirst(One(re[0]), p);
      assert re == [re[0]] + re[1..];
    }
  }

  lemma ReadNone()
    ensures forall b: bool :: Text(Pattern([], b)) == (if b then "$" else "") && Writable(Pattern([], b))
  {
  }

  lemma WritableFirst(it: Item, p: Pattern)
    requires Writable(p)
    requires it.One? && p.items != [] ==> p.items[0].c != '*'
    requires it.One? && p.items == [] && !p.atEnd ==> it.c != '$'
    ensures Writable(p.(items := [it] + p.items))
  {
    var q := p.(items := [it] + p.items);
    forall k | 0 <= k < |q.items| - 1 && q.items[k].One?
      ensures q.items[k + 1].c != '*'
    {
      if k > 0 { assert q.items[k] == p.items[k - 1] && q.items[k + 1] == p.items[k]; }
    }
  }

  lemma ReadFirst(it: Item, p: Pattern)
    ensures Text(p.(items := [it] + p.items)) == (if it.One? then [it.c] else [it.c, '*']) + Text(p)
  {
    assert ([it] + p.items)[1..] == p.items;
  }

  lemma TextStart(p: Pattern)
    ensures p.items != [] ==> Text(p) != "" && Text(p)[0] == p.items[0].c
    ensures p.items == [] ==> Text(p) == if p.atEnd then "$" else ""
  {
  }

  /** A pattern is what its text is read as if and only if nothing in it reads as something else. */
  lemma {:induction false} CompileText(p: Pattern)
    ensures Compile(Text(p)) == p <==> Writable(p)
    decreases |p.items|
  {
    hide Text, Compile, Writable;
    CompileIsRead(Text(p));
    if Writable(p) {
      if p.items == [] {
        ReadNone();
        CompileNone();
      } else {
        var it, q := p.items[0], p.(items := p.items[1..]);
        assert p.items == [it] + q.items;
        WritableRest(p);
        CompileText(q);
        TextStart(q);
        ReadFirst(it, q);
        CompileFirst(it, Text(q));
      }
    }
  }

  lemma CompileNone()
    ensures Compile("") == Pattern([], false) && Compile("$") == Pattern([], true)
  {
  }

  lemma WritableRest(p: Pattern)
    requires Writable(p) && p.items != []
    ensures var q := p.(items := p.items[1..]);
      && Writable(q) && (p.items[0].One? && q.items != [] ==> q.items[0].c != '*')
      && (p.items[0].One? && q.items == [] && !q.atEnd ==> p.items[0].c != '$')
  {
  }

  lemma CompileFirst(it: Item, rest: string)
    requires it.One? ==> (if rest == "" then it.c != '$' else rest[0] != '*')
    ensures Compile((if it.One? then [it.c] else [it.c, '*']) + rest)
         == Compile(rest).(items := [it] + Compile(rest).items)
  {
    var re := (if it.One? then [it.c] else [it.c, '*']) + rest;
    if it.One? { assert re[1..] == rest; } else { assert re[2..] == rest; }
  }

  function Flatten(pieces: seq<string>): (r: string)
  {
    if pieces == [] then "" else pieces[0] + Flatten(pieces[1..])
  }

  /** text is one piece per item and then rest, which is empty if the pattern says so. */
  predicate Splits(p: Pattern, pieces: seq<string>, rest: string, text: string)
  {
    && |pieces| == |p.items| && (forall i :: 0 <= i < |pieces| ==> PieceOk(p.items[i], pieces[i]))
    && text == Flatten(pieces) + rest && (p.atEnd ==> rest == "")
  }

  /** The pattern matches some beginning of text. */
  ghost predicate Accepts(p: Pattern, text: string)
  {
    exists pieces: seq<string>, rest: string :: Splits(p, pieces, rest, text)
  }

  /** What match promises: a match somewhere, or at the beginning only after '^'. */
  ghost predicate Found(re: string, text: string)
  {
    if re != "" && re[0] == '^' then Accepts(Compile(re[1..]), text)
    else exists k :: 0 <= k <= |text| && Accepts(Compile(re), text[k..])
  }

  lemma AcceptsNone(atEnd: bool, text: string)
    ensures Accepts(Pattern([], atEnd), text) <==> (atEnd ==> text == "")
  {
    var p := Pattern([], atEnd);
    if atEnd ==> text == "" { assert Splits(p, [], text, text); }
  }

  lemma TakeFirst(it: Item, p: Pattern, pieces: seq<string>, rest: string, text: string)
    requires Splits(p.(items := [it] + p.items), pieces, rest, text)
    ensures pieces != []
    ensures var k := |pieces[0]|;
      k <= |text| && text[..k] == pieces[0] && PieceOk(it, text[..k]) && Splits(p, pieces[1..], rest, text[k..])
  {
  }

  lemma PutFirst(it: Item, p: Pattern, piece: string, pieces: seq<string>, rest: string, text: string)
    requires PieceOk(it, piece) && Splits(p, pieces, rest, text)
    ensures Splits(p.(items := [it] + p.items), [piece] + pieces, rest, piece + text)
  {
  }

  /** The first piece can be taken off. */
  lemma AcceptsFirst(it: Item, p: Pattern, text: string)
    ensures Accepts(p.(items := [it] + p.items), text) <==>
      exists k :: 0 <= k <= |text| && PieceOk(it, text[..k]) && Accepts(p, text[k..])
  {
    hide Splits, PieceOk;
    var q := p.(items := [it] + p.items);
    if Accepts(q, text) {
      var pieces, rest :| Splits(q, pieces, rest, text);
      TakeFirst(it, p, pieces, rest, text);
    }
    if k :| 0 <= k <= |text| && PieceOk(it, text[..k]) && Accepts(p, text[k..]) {
      var pieces, rest :| Splits(p, pieces, rest, text[k..]);
      PutFirst(it, p, text[..k], pieces, rest, text[k..]);
      assert text[..k] + text[k..] == text;
    }
  }

  lemma AcceptsOne(c: char, p: Pattern, text: string)
    ensures Accepts(p.(items := [One(c)] + p.items), text) <==> text != "" && Hits(c, text[0]) && Accepts(p, text[1..])
  {
    AcceptsFirst(One(c), p, text);
    if text != "" { assert text[..1][0] == text[0]; }
  }

  predicate AllHit(c: char, text: string, k: nat) { k <= |text| && forall i :: 0 <= i < k ==> Hits(c, text[i]) }

  lemma AcceptsStar(c: char, p: Pattern, text: string)
    ensures Accepts(p.(items := [Star(c)] + p.items), text) <==>
      exists k: nat :: AllHit(c, text, k) && Accepts(p, text[k..])
  {
    AcceptsFirst(Star(c), p, text);
    if k :| 0 <= k <= |text| && PieceOk(Star(c), text[..k]) && Accepts(p, text[k..]) {
      assert forall i :: 0 <= i < k ==> text[..k][i] == text[i];
      assert AllHit(c, text, k);
    }
    if k: nat :| AllHit(c, text, k) && Accepts(p, text[k..]) {
      assert PieceOk(Star(c), text[..k]);
    }
  }

  method MatchHere(re: string, text: string) returns (b: bool)
    ensures b <==> Accepts(Compile(re), text)
    decreases |re|, |text|, 0
  {
    hide Accepts;
    if re == "" {
      AcceptsNone(false, text);
      return true;
    }
    if |re| >= 2 && re[1] == '*' {
      b := MatchStar(re[0], re[2..], text);
      return;
    }
    if re == "$" {
      AcceptsNone(true, text);
      return text == "";
    }
    AcceptsOne(re[0], Compile(re[1..]), text);
    if text != "" && (re[0] == '.' || re[0] == text[0]) {
      b := MatchHere(re[1..], text[1..]);
      return;
    }
    b := false;
  }

  /** `c*` and then re: the loop tries the shortest run of c first. */
  method MatchStar(c: char, re: string, text: string) returns (b: bool)
    ensures b <==> Accepts(Compile(re).(items := [Star(c)] + Compile(re).items), text)
    decreases |re|, |text|, 1
  {
    hide Accepts, Compile;
    AcceptsStar(c, Compile(re), text);
    var i := 0;
    while true
      invariant AllHit(c, text, i) && forall k :: 0 <= k < i ==> !Accepts(Compile(re), text[k..])
      decreases |text| - i
    {
      var here := MatchHere(re, text[i..]);
      if here {
        return true;
      }
      if i == |text| || !(text[i] == c || c == '.') {
        assert forall k: nat :: AllHit(c, text, k) ==> k <= i;
        return false;
      }
      i := i + 1;
    }
  }

  /** match: the loop looks at every suffix, the empty one too. */
  method Match(re: string, text: string) returns (b: bool)
    ensures b <==> Found(re, text)
  {
    hide Accepts, Compile;
    if re != "" && re[0] == '^' {
      b := MatchHere(re[1..], text);
      return;
    }
    var i := 0;
    while true
      invariant 0 <= i <= |text| && forall k :: 0 <= k < i ==> !Accepts(Compile(re), text[k..])
      decreases |text| - i
    {
      var here := MatchHere(re, text[i..]);
      if here {
        return true;
      }
      if i == |text| {
        return false;
      }
      i := i + 1;
    }
  }
}
