/** What several modules share: machine words, constants of param.h, small functions and facts about
    division. */
module Common {
  const UINT_LIMIT := 0x1_0000_0000 // 2^32, where uint counters wrap
  const INT_LIMIT := 0x8000_0000 // 2^31, above any int

  type byte = x: int | 0 <= x < 256
  type uint = x: int | 0 <= x < 0x1_0000_0000

  /** Blocks that one file system operation may write. */
  const MAXOPBLOCKS := 10

  datatype Option<T> = None | Some(value: T)

  function Min(a: int, b: int): (r: int) { if a < b then a else b }

  function Max(a: int, b: int): (r: int) { if a < b then b else a }

  // ---- how many numbers there are ----

  ghost function Numbers(lo: nat, hi: nat): (r: set<nat>)
    ensures forall w :: w in r <==> lo <= w < hi
  {
    if lo >= hi then {} else Numbers(lo, hi - 1) + {hi - 1}
  }

  lemma {:induction false} NumbersCount(lo: nat, hi: nat)
    requires lo <= hi
    ensures |Numbers(lo, hi)| == hi - lo
    decreases hi - lo
  {
    if lo < hi {
      NumbersCount(lo, hi - 1);
      AddNew(Numbers(lo, hi - 1), hi - 1);
    }
  }

  lemma AddNew(s: set<nat>, x: nat)
    requires x !in s
    ensures |s + {x}| == |s| + 1
  {
  }

  // ---- products and division with two variables, for proofs that hide what they are ----

  function Times(k: int, t: int): (r: int) { k * t }

  function Quo(x: nat, t: nat): (r: nat)
    requires t > 0
  {
    x / t
  }

  function Rem(x: nat, t: nat): (r: nat)
    requires t > 0
  {
    x % t
  }

  lemma TimesOne(k: int, t: int)
    ensures Times(k + 1, t) == Times(k, t) + t && Times(0, t) == 0
  {
  }

  lemma TimesOrder(m: int, c: int, t: nat)
    requires t > 0
    ensures Times(m, t) <= Times(c, t) <==> m <= c
  {
    if m <= c {
      assert Times(c - m, t) == Times(c, t) - Times(m, t);
      TimesPositive(c - m, t);
    } else {
      assert Times(m - c - 1, t) == Times(m, t) - Times(c, t) - t;
      TimesPositive(m - c - 1, t);
    }
  }

  lemma TimesPositive(k: int, t: nat)
    requires k >= 0
    ensures Times(k, t) >= 0
  {
  }

  lemma QuoRem(x: nat, t: nat)
    requires t > 0
    ensures x == Times(Quo(x, t), t) + Rem(x, t) && Rem(x, t) < t && Rem(x, t) <= x
  {
    TimesPositive(Quo(x, t), t);
  }

  lemma RemOf(q: nat, r: nat, t: nat)
    requires r < t
    ensures Times(q, t) >= 0 && Rem(Times(q, t) + r, t) == r && Quo(Times(q, t) + r, t) == q
  {
    hide Rem, Quo, Times;
    TimesPositive(q, t);
    var x := Times(q, t) + r;
    QuoRem(x, t);
    var d := Quo(x, t);
    TimesOrder(d + 1, q, t);
    TimesOrder(q + 1, d, t);
    TimesOne(d, t);
    TimesOne(q, t);
    assert d == q;
  }

  /** Counting on by one, quotient and remainder go on like the hands of a clock. */
  lemma QuoRemNext(x: nat, t: nat)
    requires t > 0
    ensures Quo(0, t) == 0 && Rem(0, t) == 0
    ensures if Rem(x, t) + 1 < t then Quo(x + 1, t) == Quo(x, t) && Rem(x + 1, t) == Rem(x, t) + 1
            else Quo(x + 1, t) == Quo(x, t) + 1 && Rem(x + 1, t) == 0
  {
    hide Rem, Quo, Times;
    var q, r := Quo(x, t), Rem(x, t);
    QuoRem(x, t);
    QuoRem(0, t);
    TimesOne(q, t);
    TimesOne(0, t);
    RemOf(0, 0, t);
    if r + 1 < t { RemOf(q, r + 1, t); } else { RemOf(q + 1, 0, t); }
  }
}
