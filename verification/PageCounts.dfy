/** How many page tables a range of virtual pages needs: what walkpgdir takes from the free list. */
module PageCounts {
  import opened PageTables

  /** Directory entries from i up to j that have no table. */
  ghost function Absent(dir: Page, i: nat, j: nat): (r: nat)
    requires j <= NENTRIES
    ensures r <= if i < j then j - i else 0
  {
    if j <= i then 0 else Absent(dir, i, j - 1) + (if Present(dir[j - 1]) then 0 else 1)
  }

  /** The tables that are missing for the virtual pages from a up to b. */
  ghost function Lacking(dir: Page, a: nat, b: nat): (r: nat)
    requires b <= NPAGES
  {
    if a < b then Absent(dir, a / NENTRIES, (b - 1) / NENTRIES + 1) else 0
  }

  /** The pages that memory at those virtual pages takes, tables included. */
  ghost function GrowNeed(dir: Page, a: nat, b: nat): (r: nat)
    requires b <= NPAGES
  {
    if a < b then b - a + Lacking(dir, a, b) else 0
  }

  /** walkpgdir has made them, and no others. */
  ghost predicate Walked(dir0: Page, dir: Page, a: nat, b: nat)
  {
    forall i :: 0 <= i < NENTRIES ==>
      if a < b && a / NENTRIES <= i <= (b - 1) / NENTRIES then Present(dir[i]) else dir[i] == dir0[i]
  }

  lemma {:induction false} AbsentSplit(dir: Page, i: nat, m: nat, j: nat)
    requires i <= m <= j <= NENTRIES && (forall k :: i <= k < m ==> Present(dir[k]))
    requires forall k :: m <= k < j ==> !Present(dir[k])
    ensures Absent(dir, i, j) == j - m
    decreases j
  {
    hide Present;
    if m < j {
      AbsentSplit(dir, i, m, j - 1);
    } else if i < j {
      AbsentSplit(dir, i, m - 1, j - 1);
    }
  }

  lemma {:induction false} AbsentGrows(dir: Page, i: nat, j: nat, k: nat)
    requires j <= k <= NENTRIES
    ensures Absent(dir, i, j) <= Absent(dir, i, k)
    decreases k
  {
    hide Present;
    if j < k { AbsentGrows(dir, i, j, k - 1); }
  }

  lemma LackingGrows(dir: Page, a: nat, b: nat, c: nat)
    requires b <= c <= NPAGES
    ensures Lacking(dir, a, b) <= Lacking(dir, a, c)
  {
    hide Present, Absent;
    if a < b { AbsentGrows(dir, a / NENTRIES, (b - 1) / NENTRIES + 1, (c - 1) / NENTRIES + 1); }
  }

  /** Does page c begin a directory entry that the range from a has not met? */
  predicate NewEntry(a: nat, c: nat) { c == a || (c > 0 && (c - 1) / NENTRIES != c / NENTRIES) }

  lemma LackingNext(dir: Page, a: nat, c: nat)
    requires a <= c < NPAGES
    ensures Lacking(dir, a, c + 1) ==
      Lacking(dir, a, c) + (if NewEntry(a, c) && !Present(dir[c / NENTRIES]) then 1 else 0)
  {
    hide Present;
  }

  lemma WalkedNone(dir: Page, a: nat)
    requires a <= NPAGES
    ensures Walked(dir, dir, a, a) && Lacking(dir, a, a) == 0
  {
  }

  /** Where the range goes on, an entry is as before if the range has not met it. */
  lemma WalkedAt(dir0: Page, dir: Page, a: nat, b: nat)
    requires Walked(dir0, dir, a, b) && a <= b < NPAGES
    ensures if NewEntry(a, b) then dir[b / NENTRIES] == dir0[b / NENTRIES] else Present(dir[b / NENTRIES])
  {
    hide Present;
  }

  /** One more page needs one more table exactly if its entry has none. */
  lemma LackingHere(dir0: Page, dir: Page, a: nat, b: nat)
    requires Walked(dir0, dir, a, b) && a <= b < NPAGES
    ensures Lacking(dir0, a, b + 1) == Lacking(dir0, a, b) + (if Present(dir[b / NENTRIES]) then 0 else 1)
  {
    hide Present, Lacking, Walked;
    WalkedAt(dir0, dir, a, b);
    LackingNext(dir0, a, b);
  }

  /** One more page: a table is made if the entry has none. */
  lemma WalkedStep(dir0: Page, dir: Page, dir': Page, a: nat, b: nat)
    requires Walked(dir0, dir, a, b) && a <= b < NPAGES
    requires dir' == dir[b / NENTRIES := dir'[b / NENTRIES]] && Present(dir'[b / NENTRIES])
    ensures Walked(dir0, dir', a, b + 1)
    ensures Lacking(dir0, a, b + 1) == Lacking(dir0, a, b) + (if Present(dir[b / NENTRIES]) then 0 else 1)
  {
    hide Present, Lacking;
    LackingHere(dir0, dir, a, b);
  }

  /** Two ranges one after the other. */
  lemma WalkedThen(dir0: Page, dir: Page, dir': Page, a: nat, b: nat, c: nat)
    requires Walked(dir0, dir, a, b) && Walked(dir, dir', b, c) && a <= b <= c <= NPAGES
    ensures Walked(dir0, dir', a, c)
    ensures Lacking(dir0, a, c) == Lacking(dir0, a, b) + Lacking(dir, b, c)
  {
    hide Present, Lacking;
    LackingThen(dir0, dir, a, b, c);
  }

  lemma {:induction false} LackingThen(dir0: Page, dir: Page, a: nat, b: nat, c: nat)
    requires Walked(dir0, dir, a, b) && a <= b <= c <= NPAGES
    ensures Lacking(dir0, a, c) == Lacking(dir0, a, b) + Lacking(dir, b, c)
    decreases c
  {
    hide Present, Lacking;
    WalkedNone(dir, b);
    if b < c {
      LackingThen(dir0, dir, a, b, c - 1);
      LackingNext(dir0, a, c - 1);
      LackingNext(dir, b, c - 1);
      WalkedLater(dir0, dir, a, b, c - 1);
    }
  }

  lemma WalkedLater(dir0: Page, dir: Page, a: nat, b: nat, c: nat)
    requires Walked(dir0, dir, a, b) && a <= b <= c < NPAGES
    ensures NewEntry(a, c) ==> dir[c / NENTRIES] == dir0[c / NENTRIES]
    ensures c == b && !NewEntry(a, c) ==> Present(dir[c / NENTRIES])
  {
    hide Present;
  }
}
