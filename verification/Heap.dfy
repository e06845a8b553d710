/** The user-level allocator (umalloc.c), after section 8.7 of The C Programming Language.
    Addresses count Header-sized units; `mem` holds the headers that have been written. */
module Heap {
  import opened Common

  datatype Header = Header(ptr: nat, size: nat)

  type Memory = map<nat, Header>

  // ---- the circular free list ----

  /** The pointers run through `free` and back to its first block. */
  ghost predicate Chained(mem: Memory, free: seq<nat>)
  {
    && |free| > 0
    && (forall i :: 0 <= i < |free| ==> free[i] in mem)
    && (forall i, j :: 0 <= i < j < |free| && j == i + 1 ==> mem[free[i]].ptr == free[j])
    && mem[free[|free| - 1]].ptr == free[0]
  }

  /** Address order with a gap before each next block: no two free blocks touch. */
  ghost predicate Spaced(mem: Memory, free: seq<nat>)
  {
    && (forall i :: 0 <= i < |free| ==> free[i] in mem)
    && forall i, j :: 0 <= i < j < |free| ==> free[i] + mem[free[i]].size < free[j]
  }

  ghost predicate ListOk(mem: Memory, free: seq<nat>, base: nat)
  {
    && Chained(mem, free) && Spaced(mem, free)
    && free[0] == base && mem[base].size == 0
    && forall i :: 1 <= i < |free| ==> mem[free[i]].size > 0
  }

  /** Every unit obtained from sbrk belongs to exactly one block: `owner` maps it to the
      header of that block. */
  ghost predicate OwnerOk(mem: Memory, owner: map<nat, nat>, blocks: set<nat>)
  {
    && (forall a :: a in blocks ==> a in mem && Owns(owner, a, mem[a].size))
    && (forall u :: u in owner ==> owner[u] in blocks && owner[u] <= u < owner[u] + mem[owner[u]].size)
  }

  ghost predicate Owns(owner: map<nat, nat>, a: nat, n: nat)
  {
    forall u :: a <= u < a + n ==> u in owner && owner[u] == a
  }

  ghost function Members(free: seq<nat>): (r: set<nat>) { set a | a in free }

  /** A well-formed allocator: free and live blocks partition what sbrk gave, and `base`
      lies below all of it. */
  ghost predicate HeapOk(mem: Memory, owner: map<nat, nat>, free: seq<nat>, live: map<nat, nat>, base: nat)
  {
    && ListOk(mem, free, base)
    && OwnerOk(mem, owner, Members(free) + live.Keys)
    && Members(free) !! live.Keys
    && (forall a :: a in live ==> mem[a].size == live[a] > 0)
    && (forall u :: u in owner ==> base < u)
  }

  // ---- changes to the list ----

  /** `free[t]` is the last free block below `bp`. */
  predicate IsSpot(free: seq<nat>, bp: nat, t: nat)
  {
    t < |free| && free[t] < bp && (t + 1 < |free| ==> bp < free[t + 1])
  }

  lemma SpotExists(free: seq<nat>, bp: nat) returns (t: nat)
    requires |free| > 0 && free[0] < bp && bp !in free
    ensures IsSpot(free, bp, t)
  {
    t := 0;
    while t + 1 < |free| && free[t + 1] < bp
      invariant t < |free| && free[t] < bp
    {
      t := t + 1;
    }
  }

  lemma ChainInsert(mem: Memory, free: seq<nat>, bp: nat, t: nat)
    requires Chained(mem, free) && t < |free| && bp in mem && bp !in free
    requires forall i, j :: 0 <= i < j < |free| ==> free[i] != free[j]
    ensures var p := free[t];
      Chained(mem[bp := mem[bp].(ptr := mem[p].ptr)][p := mem[p].(ptr := bp)],
              free[..t + 1] + [bp] + free[t + 1..])
  {
  }

  lemma SpacedInsert(mem: Memory, mem': Memory, free: seq<nat>, bp: nat, t: nat)
    requires Spaced(mem, free) && IsSpot(free, bp, t) && bp in mem'
    requires free[t] + mem[free[t]].size < bp
    requires t + 1 < |free| ==> bp + mem'[bp].size < free[t + 1]
    requires forall i :: 0 <= i < |free| ==> free[i] in mem' && mem'[free[i]].size == mem[free[i]].size
    ensures Spaced(mem', free[..t + 1] + [bp] + free[t + 1..])
  {
  }

  lemma ListInsert(mem: Memory, free: seq<nat>, base: nat, bp: nat, t: nat)
    requires ListOk(mem, free, base) && IsSpot(free, bp, t) && bp in mem && mem[bp].size > 0
    requires free[t] + mem[free[t]].size < bp
    requires t + 1 < |free| ==> bp + mem[bp].size < free[t + 1]
    ensures var p := free[t];
      ListOk(mem[bp := mem[bp].(ptr := mem[p].ptr)][p := mem[p].(ptr := bp)],
             free[..t + 1] + [bp] + free[t + 1..], base)
  {
    var p := free[t];
    var mem' := mem[bp := mem[bp].(ptr := mem[p].ptr)][p := mem[p].(ptr := bp)];
    ChainInsert(mem, free, bp, t);
    SpacedInsert(mem, mem', free, bp, t);
  }

  lemma ListReplace(mem: Memory, free: seq<nat>, base: nat, bp: nat, t: nat, size: nat)
    requires ListOk(mem, free, base) && IsSpot(free, bp, t) && t + 1 < |free| && size > 0
    requires free[t] + mem[free[t]].size < bp
    requires bp + size == free[t + 1] + mem[free[t + 1]].size
    ensures var p := free[t];
      ListOk(mem[bp := Header(mem[free[t + 1]].ptr, size)][p := mem[p].(ptr := bp)], free[t + 1 := bp], base)
  {
  }

  lemma ListResize(mem: Memory, free: seq<nat>, base: nat, t: nat, size: nat)
    requires ListOk(mem, free, base) && 0 < t < |free| && size > 0
    requires t + 1 < |free| ==> free[t] + size < free[t + 1]
    ensures ListOk(mem[free[t] := mem[free[t]].(size := size)], free, base)
  {
  }

  lemma ChainRemove(mem: Memory, free: seq<nat>, t: nat)
    requires Chained(mem, free) && t + 1 < |free|
    requires forall i, j :: 0 <= i < j < |free| ==> free[i] != free[j]
    ensures Chained(mem[free[t] := mem[free[t]].(ptr := mem[free[t + 1]].ptr)], free[..t + 1] + free[t + 2..])
  {
  }

  lemma SpacedRemove(mem: Memory, mem': Memory, free: seq<nat>, t: nat)
    requires Spaced(mem, free) && t + 1 < |free|
    requires forall i :: 0 <= i < |free| ==> free[i] in mem' && mem'[free[i]].size == mem[free[i]].size
    ensures Spaced(mem', free[..t + 1] + free[t + 2..])
  {
  }

  lemma ListRemove(mem: Memory, free: seq<nat>, base: nat, t: nat)
    requires ListOk(mem, free, base) && t + 1 < |free|
    ensures ListOk(mem[free[t] := mem[free[t]].(ptr := mem[free[t + 1]].ptr)], free[..t + 1] + free[t + 2..], base)
  {
    ChainRemove(mem, free, t);
    SpacedRemove(mem, mem[free[t] := mem[free[t]].(ptr := mem[free[t + 1]].ptr)], free, t);
  }

  /** The list does not depend on headers outside it. */
  lemma ListFrame(mem: Memory, free: seq<nat>, base: nat, a: nat, h: Header)
    requires ListOk(mem, free, base) && a !in free
    ensures ListOk(mem[a := h], free, base)
  {
  }

  // ---- changes to the blocks ----

  /** Units of `a` change hands to `b`. */
  ghost function Move(owner: map<nat, nat>, a: nat, b: nat): (r: map<nat, nat>)
    ensures r.Keys == owner.Keys
  {
    map u | u in owner :: if owner[u] == a then b else owner[u]
  }

  lemma OwnerFrame(mem: Memory, mem': Memory, owner: map<nat, nat>, blocks: set<nat>)
    requires OwnerOk(mem, owner, blocks)
    requires forall a :: a in blocks ==> a in mem' && mem'[a].size == mem[a].size
    ensures OwnerOk(mem', owner, blocks)
  {
  }

  lemma OwnerMerge(mem: Memory, mem': Memory, owner: map<nat, nat>, blocks: set<nat>, a: nat, b: nat)
    requires OwnerOk(mem, owner, blocks) && a in blocks && b in blocks && a != b
    requires a + mem[a].size == b
    requires forall c :: c in blocks && c != a && c != b ==> c in mem' && mem'[c].size == mem[c].size
    requires a in mem' && mem'[a].size == mem[a].size + mem[b].size
    ensures OwnerOk(mem', Move(owner, b, a), blocks - {b})
  {
    var owner' := Move(owner, b, a);
    assert Owns(owner', a, mem'[a].size) by {
      assert Owns(owner, a, mem[a].size) && Owns(owner, b, mem[b].size);
    }
    forall c | c in blocks && c != a && c != b
      ensures Owns(owner', c, mem'[c].size)
    {
      assert Owns(owner, c, mem[c].size);
    }
    forall u | u in owner'
      ensures owner'[u] in blocks - {b} && owner'[u] <= u < owner'[u] + mem'[owner'[u]].size
    {
      assert owner[u] in blocks;
    }
  }

  /** The last k units of block a become a block of their own. */
  ghost function CutTail(owner: map<nat, nat>, a: nat, c: nat): (r: map<nat, nat>)
    ensures r.Keys == owner.Keys
  {
    map u | u in owner :: if owner[u] == a && u >= c then c else owner[u]
  }

  lemma OwnerSplit(mem: Memory, mem': Memory, owner: map<nat, nat>, blocks: set<nat>, a: nat, k: nat)
    requires OwnerOk(mem, owner, blocks) && a in blocks && 0 < k < mem[a].size
    requires forall c :: c in blocks && c != a ==> c in mem' && mem'[c].size == mem[c].size
    requires var c := a + mem[a].size - k;
      a in mem' && mem'[a].size == mem[a].size - k && c in mem' && mem'[c].size == k
    requires a + mem[a].size - k !in blocks
    ensures var c := a + mem[a].size - k; OwnerOk(mem', CutTail(owner, a, c), blocks + {c})
  {
    var c := a + mem[a].size - k;
    var owner' := CutTail(owner, a, c);
    assert Owns(owner, a, mem[a].size) && owner[c] == a;
    assert Owns(owner', a, mem'[a].size) && Owns(owner', c, mem'[c].size);
    forall x | x in blocks && x != a
      ensures Owns(owner', x, mem'[x].size)
    {
      assert Owns(owner, x, mem[x].size);
    }
    forall u | u in owner'
      ensures owner'[u] in blocks + {c} && owner'[u] <= u < owner'[u] + mem'[owner'[u]].size
    {
      assert owner[u] in blocks && owner[u] <= u < owner[u] + mem[owner[u]].size;
    }
  }

  ghost function Range(a: nat, n: nat): (r: set<nat>)
    ensures forall u :: u in r <==> a <= u < a + n
  {
    if n == 0 then {} else Range(a, n - 1) + {a + n - 1}
  }

  /** A block fresh from sbrk. */
  ghost function Grow(owner: map<nat, nat>, a: nat, n: nat): (r: map<nat, nat>)
  {
    map u | u in owner.Keys + Range(a, n) :: if u in owner then owner[u] else a
  }

  lemma GrowKeys(owner: map<nat, nat>, a: nat, n: nat)
    ensures Grow(owner, a, n).Keys == owner.Keys + Range(a, n)
  {
  }

  lemma AddedAndRemoved(live: map<nat, nat>, a: nat, n: nat)
    requires a !in live
    ensures live[a := n] - {a} == live
  {
  }

  lemma OwnerGrow(mem: Memory, mem': Memory, owner: map<nat, nat>, blocks: set<nat>, a: nat, n: nat)
    requires OwnerOk(mem, owner, blocks) && n > 0
    requires forall u :: a <= u < a + n ==> u !in owner
    requires forall c :: c in blocks ==> c in mem' && mem'[c].size == mem[c].size && c != a
    requires a in mem' && mem'[a].size == n
    ensures OwnerOk(mem', Grow(owner, a, n), blocks + {a})
  {
    hide Grow, Range;
    var owner' := Grow(owner, a, n);
    GrowAt(owner, a, n);
    forall c | c in blocks + {a}
      ensures c in mem' && Owns(owner', c, mem'[c].size)
    {
      if c != a { assert Owns(owner, c, mem[c].size); }
    }
  }

  lemma GrowAt(owner: map<nat, nat>, a: nat, n: nat)
    ensures forall u :: u in Grow(owner, a, n) <==> u in owner || a <= u < a + n
    ensures forall u :: u in Grow(owner, a, n) ==> Grow(owner, a, n)[u] == if u in owner then owner[u] else a
  {
  }

  // ---- the four ways a block goes back on the list ----

  /** A live block sits strictly between its neighbours in the free list. */
  lemma Between(mem: Memory, owner: map<nat, nat>, free: seq<nat>, live: map<nat, nat>, base: nat, bp: nat, t: nat)
    requires HeapOk(mem, owner, free, live, base) && bp in live && IsSpot(free, bp, t)
    ensures base < bp && bp !in free && free[t] in mem && bp in mem && (t + 1 < |free| ==> free[t + 1] in mem)
    ensures free[t] + mem[free[t]].size <= bp && (t == 0 ==> free[t] + mem[free[t]].size < bp)
    ensures mem[free[t]].ptr == if t + 1 < |free| then free[t + 1] else base
    ensures t + 1 < |free| ==> bp + mem[bp].size <= free[t + 1] && mem[free[t + 1]].size > 0
    ensures free[t] in Members(free) && bp !in Members(free)
    ensures t + 1 < |free| ==> free[t + 1] in Members(free) && free[t + 1] != free[t]
    ensures t + 2 < |free| ==> free[t + 1] + mem[free[t + 1]].size < free[t + 2]
    ensures forall a :: a in Members(free) || a in live ==> a in mem
  {
    assert bp in Members(free) + live.Keys && Owns(owner, bp, mem[bp].size);
    assert bp in owner && owner[bp] == bp;
    assert bp !in Members(free) && free[t] in Members(free) && Owns(owner, free[t], mem[free[t]].size);
    if t + 1 < |free| {
      assert free[t + 1] in Members(free) && Owns(owner, free[t + 1], mem[free[t + 1]].size);
      assert owner[free[t + 1]] == free[t + 1];
    }
  }

  lemma MembersInsert(free: seq<nat>, t: nat, bp: nat)
    requires t < |free|
    ensures Members(free[..t + 1] + [bp] + free[t + 1..]) == Members(free) + {bp}
  {
  }

  lemma MembersRemove(mem: Memory, free: seq<nat>, t: nat)
    requires Spaced(mem, free) && t < |free|
    ensures Members(free[..t] + free[t + 1..]) == Members(free) - {free[t]}
  {
  }

  lemma MembersReplace(mem: Memory, free: seq<nat>, t: nat, bp: nat)
    requires Spaced(mem, free) && t < |free|
    ensures Members(free[t := bp]) == Members(free) - {free[t]} + {bp}
  {
    var free' := free[t := bp];
    assert free'[t] == bp;
    forall a | a in free && a != free[t]
      ensures a in free'
    {
      var i :| 0 <= i < |free| && free[i] == a;
      assert free'[i] == a;
    }
  }

  lemma FreeAlone(mem: Memory, owner: map<nat, nat>, free: seq<nat>, live: map<nat, nat>, base: nat, bp: nat, t: nat)
    requires HeapOk(mem, owner, free, live, base) && bp in live && IsSpot(free, bp, t)
    requires free[t] + mem[free[t]].size != bp && bp + mem[bp].size != mem[free[t]].ptr
    ensures var p := free[t];
      var mem' := mem[bp := mem[bp].(ptr := mem[p].ptr)][p := mem[p].(ptr := bp)];
      HeapOk(mem', owner, free[..t + 1] + [bp] + free[t + 1..], live - {bp}, base)
  {
    hide Chained, Spaced, OwnerOk, Owns, Members, Move;
    Between(mem, owner, free, live, base, bp, t);
    var p := free[t];
    var mem' := mem[bp := mem[bp].(ptr := mem[p].ptr)][p := mem[p].(ptr := bp)];
    ListInsert(mem, free, base, bp, t);
    MembersInsert(free, t, bp);
    OwnerFrame(mem, mem', owner, Members(free) + live.Keys);
    assert Members(free) + live.Keys == Members(free) + {bp} + (live - {bp}).Keys;
  }

  lemma FreeUpper(mem: Memory, owner: map<nat, nat>, free: seq<nat>, live: map<nat, nat>, base: nat, bp: nat, t: nat)
    requires HeapOk(mem, owner, free, live, base) && bp in live && IsSpot(free, bp, t)
    requires free[t] + mem[free[t]].size != bp && bp + mem[bp].size == mem[free[t]].ptr
    ensures t + 1 < |free|
    ensures var p, q := free[t], free[t + 1];
      var mem' := mem[bp := Header(mem[q].ptr, mem[bp].size + mem[q].size)][p := mem[p].(ptr := bp)];
      HeapOk(mem', Move(owner, q, bp), free[t + 1 := bp], live - {bp}, base)
  {
    hide Chained, Spaced, OwnerOk, Owns, Members, Move;
    Between(mem, owner, free, live, base, bp, t);
    var p, q := free[t], free[t + 1];
    var mem' := mem[bp := Header(mem[q].ptr, mem[bp].size + mem[q].size)][p := mem[p].(ptr := bp)];
    ListReplace(mem, free, base, bp, t, mem[bp].size + mem[q].size);
    MembersReplace(mem, free, t + 1, bp);
    OwnerMerge(mem, mem', owner, Members(free) + live.Keys, bp, q);
    assert Members(free) + live.Keys - {q} == Members(free[t + 1 := bp]) + (live - {bp}).Keys;
  }

  lemma FreeLower(mem: Memory, owner: map<nat, nat>, free: seq<nat>, live: map<nat, nat>, base: nat, bp: nat, t: nat)
    requires HeapOk(mem, owner, free, live, base) && bp in live && IsSpot(free, bp, t)
    requires free[t] + mem[free[t]].size == bp && bp + mem[bp].size != mem[free[t]].ptr
    ensures t > 0
    ensures var p := free[t];
      var mem' := mem[bp := mem[bp].(ptr := mem[p].ptr)][p := Header(mem[p].ptr, mem[p].size + mem[bp].size)];
      HeapOk(mem', Move(owner, bp, p), free, live - {bp}, base)
  {
    hide Chained, Spaced, OwnerOk, Owns, Members, Move;
    Between(mem, owner, free, live, base, bp, t);
    var p := free[t];
    var mem' := mem[bp := mem[bp].(ptr := mem[p].ptr)][p := Header(mem[p].ptr, mem[p].size + mem[bp].size)];
    ListResize(mem, free, base, t, mem[p].size + mem[bp].size);
    var memr := mem[p := Header(mem[p].ptr, mem[p].size + mem[bp].size)];
    ListFrame(memr, free, base, bp, mem[bp].(ptr := mem[p].ptr));
    assert memr[bp := mem[bp].(ptr := mem[p].ptr)] == mem';
    OwnerMerge(mem, mem', owner, Members(free) + live.Keys, p, bp);
    assert Members(free) + live.Keys - {bp} == Members(free) + (live - {bp}).Keys;
  }

  lemma FreeBoth(mem: Memory, owner: map<nat, nat>, free: seq<nat>, live: map<nat, nat>, base: nat, bp: nat, t: nat)
    requires HeapOk(mem, owner, free, live, base) && bp in live && IsSpot(free, bp, t)
    requires free[t] + mem[free[t]].size == bp && bp + mem[bp].size == mem[free[t]].ptr
    ensures 0 < t && t + 1 < |free|
    ensures var p, q := free[t], free[t + 1];
      var all := mem[bp].size + mem[q].size;
      var mem' := mem[bp := Header(mem[q].ptr, all)][p := Header(mem[q].ptr, mem[p].size + all)];
      HeapOk(mem', Move(Move(owner, q, bp), bp, p), free[..t + 1] + free[t + 2..], live - {bp}, base)
  {
    hide Chained, Spaced, OwnerOk, Owns, Members, Move;
    Between(mem, owner, free, live, base, bp, t);
    var p, q := free[t], free[t + 1];
    var all := mem[bp].size + mem[q].size;
    var mem1 := mem[bp := Header(mem[q].ptr, all)];
    var mem' := mem1[p := Header(mem[q].ptr, mem[p].size + all)];
    var free' := free[..t + 1] + free[t + 2..];
    ListRemove(mem, free, base, t);
    MembersRemove(mem, free, t + 1);
    var memr := mem[p := mem[p].(ptr := mem[q].ptr)];
    assert free'[t] == p && (t + 1 < |free'| ==> free'[t + 1] == free[t + 2]);
    ListResize(memr, free', base, t, mem[p].size + all);
    var merged := memr[p := Header(mem[q].ptr, mem[p].size + all)];
    ListFrame(merged, free', base, bp, Header(mem[q].ptr, all));
    assert merged[bp := Header(mem[q].ptr, all)] == mem';
    var blocks := Members(free) + live.Keys;
    OwnerMerge(mem, mem1, owner, blocks, bp, q);
    OwnerMerge(mem1, mem', Move(owner, q, bp), blocks - {q}, p, bp);
    assert blocks - {q} - {bp} == Members(free') + (live - {bp}).Keys;
  }

  // ---- taking a block off the list, and new memory ----

  lemma ListFacts(mem: Memory, owner: map<nat, nat>, free: seq<nat>, live: map<nat, nat>, base: nat, t: nat)
    requires HeapOk(mem, owner, free, live, base) && 0 < t < |free|
    ensures free[t] in mem && free[t - 1] in mem && mem[free[t]].size > 0 && base < free[t]
    ensures mem[free[t - 1]].ptr == free[t] && free[t - 1] < free[t]
    ensures free[t] in Members(free) && free[t - 1] in Members(free) && free[t] !in live && free[t - 1] !in live
    ensures t + 1 < |free| ==> free[t] + mem[free[t]].size < free[t + 1]
    ensures forall a :: a in Members(free) || a in live ==> a in mem
    ensures Spaced(mem, free)
  {
  }

  lemma TakeWhole(mem: Memory, owner: map<nat, nat>, free: seq<nat>, live: map<nat, nat>, base: nat, t: nat)
    requires HeapOk(mem, owner, free, live, base) && 0 < t < |free| && free[t - 1] in mem && free[t] in mem
    ensures var q, p := free[t - 1], free[t];
      HeapOk(mem[q := mem[q].(ptr := mem[p].ptr)], owner, free[..t] + free[t + 1..], live[p := mem[p].size], base)
  {
    hide Chained, Spaced, OwnerOk, Owns, Members;
    var q, p := free[t - 1], free[t];
    var mem' := mem[q := mem[q].(ptr := mem[p].ptr)];
    ListFacts(mem, owner, free, live, base, t);
    ListRemove(mem, free, base, t - 1);
    MembersRemove(mem, free, t);
    OwnerFrame(mem, mem', owner, Members(free) + live.Keys);
    assert Members(free) + live.Keys == Members(free) - {p} + live[p := mem[p].size].Keys;
  }

  /** Inside a free block there is no other block. */
  lemma TailIsNew(mem: Memory, owner: map<nat, nat>, free: seq<nat>, live: map<nat, nat>, base: nat, t: nat, k: nat)
    requires HeapOk(mem, owner, free, live, base) && 0 < t < |free| && 0 < k < mem[free[t]].size
    ensures var c := free[t] + mem[free[t]].size - k;
      c !in Members(free) && c !in live && c !in free && base < c
  {
    var p := free[t];
    var c := p + mem[p].size - k;
    assert p in Members(free) && Owns(owner, p, mem[p].size) && owner[c] == p;
    forall x | x in live
      ensures x != c
    {
      assert x in Members(free) + live.Keys && Owns(owner, x, mem[x].size);
    }
    forall i | 0 <= i < |free|
      ensures free[i] != c
    {
      if i != t {
        assert free[i] in Members(free) && Owns(owner, free[i], mem[free[i]].size);
      }
    }
  }

  lemma TakeTail(mem: Memory, owner: map<nat, nat>, free: seq<nat>, live: map<nat, nat>, base: nat, t: nat, k: nat,
                 h: Header)
    requires HeapOk(mem, owner, free, live, base) && 0 < t < |free| && free[t] in mem
    requires 0 < k < mem[free[t]].size && h.size == k
    ensures var p := free[t];
      var c := p + mem[p].size - k;
      HeapOk(mem[p := mem[p].(size := mem[p].size - k)][c := h], CutTail(owner, p, c), free, live[c := k], base)
  {
    hide Chained, Spaced, OwnerOk, Owns, Members, CutTail;
    var p := free[t];
    var c := p + mem[p].size - k;
    var mem' := mem[p := mem[p].(size := mem[p].size - k)][c := h];
    ListFacts(mem, owner, free, live, base, t);
    TailIsNew(mem, owner, free, live, base, t, k);
    ListResize(mem, free, base, t, mem[p].size - k);
    ListFrame(mem[p := mem[p].(size := mem[p].size - k)], free, base, c, h);
    OwnerSplit(mem, mem', owner, Members(free) + live.Keys, p, k);
    assert Members(free) + live.Keys + {c} == Members(free) + live[c := k].Keys;
  }

  lemma AboveAll(mem: Memory, owner: map<nat, nat>, free: seq<nat>, live: map<nat, nat>, base: nat, a: nat)
    requires HeapOk(mem, owner, free, live, base) && base < a && forall u :: u in owner ==> u < a
    ensures forall b :: b in Members(free) || b in live ==> b in mem && b != a
    ensures a !in free
  {
    forall b | b in Members(free) || b in live
      ensures b in mem && b != a
    {
      assert b in Members(free) + live.Keys && Owns(owner, b, mem[b].size);
      if b !in live {
        var i :| 0 <= i < |free| && free[i] == b;
        assert i > 0 ==> mem[free[i]].size > 0;
      }
      if mem[b].size > 0 { assert b in owner; }
    }
    assert forall i :: 0 <= i < |free| ==> free[i] in Members(free);
  }

  /** New memory above everything else, seen as one live block. */
  lemma AddCore(mem: Memory, owner: map<nat, nat>, free: seq<nat>, live: map<nat, nat>, base: nat, a: nat, h: Header)
    requires HeapOk(mem, owner, free, live, base) && h.size > 0 && base < a
    requires forall u :: u in owner ==> u < a
    ensures HeapOk(mem[a := h], Grow(owner, a, h.size), free, live[a := h.size], base)
  {
    hide Chained, Spaced, OwnerOk, Owns, Members;
    AboveAll(mem, owner, free, live, base, a);
    ListFrame(mem, free, base, a, h);
    OwnerGrow(mem, mem[a := h], owner, Members(free) + live.Keys, a, h.size);
    assert Members(free) + live.Keys + {a} == Members(free) + live[a := h.size].Keys;
  }

  // ---- the allocator ----

  const HEADER := 8 // sizeof(Header) in bytes
  const CORE_UNITS := 4096
  const CORE_LIMIT := 0x1000_0000 // units that make 2^31 bytes
  const KERNBASE := 0x8000_0000

  /** The unit count malloc computes, with the wrap-around of its 32-bit sum. */
  function Units(nbytes: nat): (r: nat)
    requires nbytes < UINT_LIMIT
  {
    (nbytes + HEADER - 1) % UINT_LIMIT / HEADER + 1
  }

  /** The block malloc carves is big enough for the request exactly when that sum does not
      wrap. */
  lemma UnitsCover(nbytes: nat)
    requires nbytes < UINT_LIMIT
    ensures HEADER * (Units(nbytes) - 1) >= nbytes <==> nbytes + HEADER - 1 < UINT_LIMIT
    ensures nbytes + HEADER - 1 < UINT_LIMIT ==> HEADER * (Units(nbytes) - 1) < nbytes + HEADER
    ensures nbytes + HEADER - 1 >= UINT_LIMIT ==> Units(nbytes) == 1
  {
  }

  /** What morecore asks for, in units. */
  function CoreUnits(nu: nat): (r: nat)
    ensures nu <= r && CORE_UNITS <= r && r in {nu, CORE_UNITS}
  {
    if nu < CORE_UNITS then CORE_UNITS else nu
  }

  function Signed(x: uint): (r: int) { if x < INT_LIMIT then x else x - UINT_LIMIT }

  /** And what sbrk, which takes an int, is asked for, in bytes. */
  function CoreBytes(nu: nat): (n: int) { Signed(CoreUnits(nu) * HEADER % UINT_LIMIT) }

  /** Granted is success, whatever the new size; Wiped is a failure that leaves the process without a page. */
  datatype SbrkResult = Refused | Granted(addr: nat, newsz: nat) | Wiped

  /** sbrk and growproc for a process of sz bytes: growing goes through allocuvm, which finds pages or
      not, and shrinking through deallocuvm, which ignores a new size that has wrapped above the old
      and whose new size 0 growproc takes for a failure. */
  function Sbrk(sz: nat, n: int, memory: bool): (r: SbrkResult)
  {
    if n > 0 then if sz + n >= KERNBASE || !memory then Refused else Granted(sz, sz + n)
    else if n == 0 then Granted(sz, sz)
    else
      var to := (sz + n) % UINT_LIMIT;
      if to >= sz then if sz == 0 then Refused else Granted(sz, sz)
      else if to == 0 then Wiped
      else Granted(sz, to)
  }

  /** Does the request make the process smaller? */
  predicate TakesAway(sz: nat, n: int) { n < 0 && 0 <= sz + n }

  /** deallocuvm unmaps the pages from here on. */
  function FirstUnmapped(sz: nat, n: int): (r: nat)
    requires TakesAway(sz, n)
  {
    (sz + n + 4095) / 4096 * 4096
  }

  /** sbrk makes the process smaller if and only if the count is negative and not below minus its size. */
  lemma SbrkTakesAway(sz: nat, n: int, memory: bool)
    requires sz < KERNBASE && -INT_LIMIT <= n < INT_LIMIT
    ensures var r := Sbrk(sz, n, memory); r.Wiped? || (r.Granted? && r.newsz < sz) <==> TakesAway(sz, n)
    ensures Sbrk(sz, n, memory).Wiped? <==> n < 0 && sz + n == 0
    ensures n < 0 < sz + n ==> Sbrk(sz, n, memory) == Granted(sz, sz + n)
  {
  }

  /** The units that a request takes away. */
  ghost function Taken(granted: set<nat>, sz: nat, n: int): (r: set<nat>)
  {
    set u | u in granted && TakesAway(sz, n) && u * HEADER >= FirstUnmapped(sz, n)
  }

  /** sbrk gives morecore the units it asked for if and only if they are fewer than 2^31 bytes;
      otherwise it may say so and give none. */
  lemma SbrkHonours(sz: nat, nu: nat, memory: bool)
    requires sz < KERNBASE && nu <= 0x2000_0000
    ensures var r := Sbrk(sz, CoreBytes(nu), memory);
      r.Granted? ==>
        && r.addr == sz
        && (r.newsz == sz + CoreUnits(nu) * HEADER <==> CoreUnits(nu) < CORE_LIMIT)
        && (CoreUnits(nu) >= CORE_LIMIT ==> r.newsz <= sz)
  {
  }

  /** How sbrk answers morecore, by the bytes that morecore wants. Fewer than 2^31 it gives if and only if
      they end below KERNBASE and there is memory. 2^31 or more wrap: then it fails if and only if they
      end at 2^32, and otherwise succeeds without giving any. */
  lemma SbrkAnswers(sz: nat, nu: nat, memory: bool)
    requires 0 < sz < KERNBASE && nu <= 0x2000_0000
    ensures var r, wanted := Sbrk(sz, CoreBytes(nu), memory), CoreUnits(nu) * HEADER;
      if wanted < INT_LIMIT then r == if memory && sz + wanted < KERNBASE then Granted(sz, sz + wanted) else Refused
      else if sz + wanted == UINT_LIMIT then r == Wiped
      else r == Granted(sz, SizeAfterWrap(sz, wanted))
  {
  }

  /** The size of the process after a request that wrapped: smaller if it ends above 2^32. */
  function SizeAfterWrap(sz: nat, wanted: nat): (r: nat)
    requires INT_LIMIT <= wanted <= UINT_LIMIT
    ensures r <= sz
  {
    if wanted < UINT_LIMIT < sz + wanted then sz + wanted - UINT_LIMIT else sz
  }

  /** A unit is taken away if and only if its page begins at or above the new end of the process. */
  lemma TakenPages(granted: set<nat>, sz: nat, n: int, u: nat)
    ensures u in Taken(granted, sz, n) <==> u in granted && n < 0 && 0 <= sz + n <= u * HEADER / 4096 * 4096
  {
  }

  lemma NothingTaken(granted: set<nat>, sz: nat, nu: nat)
    requires nu <= 0x2000_0000 && CoreUnits(nu) < CORE_LIMIT
    ensures Taken(granted, sz, CoreBytes(nu)) == {}
  {
  }

  /** malloc(0x80000000) does not wrap, and yet sbrk succeeds without giving a byte. */
  lemma HugeRequest(sz: nat, memory: bool)
    requires 0 < sz < 0x7FFF_FFF8
    ensures 0x8000_0000 + HEADER - 1 < UINT_LIMIT && Sbrk(sz, CoreBytes(Units(0x8000_0000)), memory) == Granted(sz, sz)
  {
  }

  /** malloc(0xffff7ff8) in a process of 0x8000 bytes unmaps all of it, and in one of 0x10000 bytes the
      upper half, which sbrk reports as success. */
  lemma ShrinkingRequest(memory: bool)
    ensures CoreBytes(Units(0xFFFF_7FF8)) == -0x8000
    ensures Sbrk(0x8000, CoreBytes(Units(0xFFFF_7FF8)), memory) == Wiped
    ensures Sbrk(0x1_0000, CoreBytes(Units(0xFFFF_7FF8)), memory) == Granted(0x1_0000, 0x8000)
  {
  }

  datatype CoreResult = NoCore | Core(p: nat) | Astray

  /** A block, null, or a header written to memory that the process was never given. */
  datatype MallocResult = Null | Block(p: nat) | Lost

  class Allocator {
    const base: nat
    var mem: Memory
    var freep: nat                // 0 is the null pointer
    ghost var free: seq<nat>      // the list from base on
    ghost var live: map<nat, nat> // header address and units of every block handed out
    ghost var owner: map<nat, nat>
    ghost var granted: set<nat>   // the units sbrk has given
    ghost var brk: nat            // which lie below
    ghost var gone: set<nat>      // and which it has taken away again

    /** A sound heap in memory that the process still has. */
    ghost predicate Valid()
      reads this
    {
      Sound() && gone == {}
    }

    ghost predicate Sound()
      reads this
    {
      && 0 < base < brk && base in mem
      && owner.Keys == granted && (forall u :: u in granted ==> u < brk)
      && if freep == 0 then live == map[] && owner == map[] && free == []
         else HeapOk(mem, owner, free, live, base) && freep in free
    }

    constructor (base: nat)
      requires base > 0
      ensures Valid() && this.base == base && freep == 0 && granted == {} && brk == base + 1
    {
      this.base := base;
      mem, freep := map[base := Header(0, 0)], 0;
      free, live, owner, granted, brk, gone := [], map[], map[], {}, base + 1, {};
    }

    /** free's search loop: it stops, at the free block after which `bp` belongs. */
    method FindSpot(bp: nat) returns (p: nat, ghost t: nat)
      requires Valid() && freep != 0 && bp in live
      ensures IsSpot(free, bp, t) && p == free[t] && base <= p
    {
      Below(bp);
      ghost var goal := SpotExists(free, bp);
      t :| 0 <= t < |free| && free[t] == freep;
      p := freep;
      while !(bp > p && bp < mem[p].ptr)
        invariant 0 <= t < |free| && p == free[t]
        decreases if t <= goal then goal - t else |free| - t + goal
      {
        PtrAt(mem, free, base, t);
        if p >= mem[p].ptr && (bp > p || bp < mem[p].ptr) {
          break;
        }
        p := mem[p].ptr;
        t := if t + 1 < |free| then t + 1 else 0;
      }
      PtrAt(mem, free, base, t);
    }

    lemma Below(bp: nat)
      requires Valid() && freep != 0 && bp in live
      ensures |free| > 0 && free[0] == base < bp && bp !in free && bp in mem && freep in mem
    {
      assert bp in Members(free) + live.Keys && Owns(owner, bp, mem[bp].size);
      assert bp in owner;
      assert freep in Members(free);
    }

    /** free: the block goes back on the list, joined with the free blocks it touches. The
        units stay accounted for and no other block is affected. */
    method Free(ap: nat)
      requires Valid() && ap > 0 && ap - 1 in live
      modifies this
      ensures Valid() && freep != 0 && brk == old(brk) && granted == old(granted)
      ensures live == old(live) - {ap - 1} && owner.Keys == old(owner.Keys)
      ensures ap - 1 in owner && owner[ap - 1] in mem && freep in mem
      ensures mem[owner[ap - 1]].size >= old(live)[ap - 1]
      ensures owner[ap - 1] == freep || owner[ap - 1] == mem[freep].ptr
    {
      hide HeapOk, FreedMem, FreedOwner, FreedList;
      var bp := ap - 1;
      var p;
      ghost var t;
      p, t := FindSpot(bp);
      FreeKeeps(mem, owner, free, live, base, bp, t);
      owner, free := FreedOwner(mem, owner, bp, p), FreedList(mem, free, bp, t);
      Join(bp, p);
      live := live - {bp};
      freep := p;
    }

    /** The two conditionals of free. */
    method Join(bp: nat, p: nat)
      requires p in mem && bp in mem && p != bp && (Upper(mem, bp, p) ==> mem[p].ptr in mem)
      modifies this`mem
      ensures mem == FreedMem(old(mem), bp, p)
    {
      if bp + mem[bp].size == mem[p].ptr {
        mem := mem[bp := Header(mem[mem[p].ptr].ptr, mem[bp].size + mem[mem[p].ptr].size)];
      } else {
        mem := mem[bp := mem[bp].(ptr := mem[p].ptr)];
      }
      if p + mem[p].size == bp {
        mem := mem[p := Header(mem[bp].ptr, mem[p].size + mem[bp].size)];
      } else {
        mem := mem[p := mem[p].(ptr := bp)];
      }
    }

    /** morecore in a process of sz bytes: at least 4096 units from sbrk, put on the free list; or
        astray, when sbrk succeeds without giving them. It may even take memory away. */
    method MoreCore(nu: nat, sz: nat, memory: bool) returns (r: CoreResult, newsz: nat)
      requires Valid() && freep != 0 && nu <= 0x2000_0000 && sz % HEADER == 0 && brk * HEADER <= sz < KERNBASE
      modifies this
      ensures var wanted := CoreUnits(nu) * HEADER;
        if wanted < INT_LIMIT then
          && (r.Core? <==> memory && sz + wanted < KERNBASE) && !r.Astray?
          && newsz == if r.Core? then sz + wanted else sz
        else
          && (r.NoCore? <==> sz + wanted == UINT_LIMIT) && !r.Core?
          && newsz == if r.Astray? then SizeAfterWrap(sz, wanted) else sz
      ensures !r.Core? ==> unchanged(`mem, `freep, `free, `live, `owner, `granted, `brk)
      ensures gone == Taken(old(granted), sz, CoreBytes(nu)) && (r.Core? ==> gone == {})
      ensures Sound() && freep != 0 && live == old(live)
      ensures r.Core? ==>
        && r.p == freep && newsz == sz + CoreUnits(nu) * HEADER && brk * HEADER == newsz
        && granted == old(granted) + Range(sz / HEADER, CoreUnits(nu))
        && exists a :: a in free && a in mem && mem[a].size >= nu
    {
      hide HeapOk, Sbrk, CoreBytes, Taken, Range;
      var n := CoreUnits(nu);
      var b := Sbrk(sz, CoreBytes(nu), memory);
      SbrkAnswers(sz, nu, memory);
      gone := Taken(granted, sz, CoreBytes(nu));
      if !b.Granted? {
        return NoCore, sz;
      }
      newsz := b.newsz;
      if newsz != sz + n * HEADER {
        return Astray, newsz;
      }
      NothingTaken(granted, sz, nu);
      FreeCore(b.addr / HEADER, n);
      r := Core(freep);
    }

    /** The header of new memory above all blocks, and free of it. */
    method FreeCore(hp: nat, n: nat)
      requires Valid() && freep != 0 && hp >= brk && n > 0
      modifies this
      ensures Valid() && freep != 0 && live == old(live)
      ensures brk == hp + n && granted == old(granted) + Range(hp, n)
      ensures exists a :: a in free && a in mem && mem[a].size >= n
    {
      hide HeapOk, Grow, Range;
      var h := Header(if hp in mem then mem[hp].ptr else 0, n);
      AddCore(mem, owner, free, live, base, hp, h);
      NotLive(hp);
      GrowKeys(owner, hp, n);
      AddedAndRemoved(live, hp, n);
      mem := mem[hp := h];
      owner, live := Grow(owner, hp, n), live[hp := n];
      granted, brk := granted + Range(hp, n), hp + n;
      Free(hp + 1);
      PtrListed(mem, owner, free, live, base, freep);
    }

    lemma NotLive(a: nat)
      requires Valid() && freep != 0 && a >= brk
      ensures a !in live
    {
      if a in live { OwnsItself(mem, owner, free, live, base, a); }
    }

    /** malloc's walk once around the list from freep, at f: the first block that is big enough and
        its predecessor, or a proof that there is none. */
    method Search(nunits: nat) returns (found: bool, prevp: nat, p: nat, ghost t: nat, ghost f: nat)
      requires Valid() && freep != 0 && nunits > 0
      ensures f < |free| && free[f] == freep
      ensures found ==> t < |free| && forall k :: 0 <= k < |free| && Around(f, k, |free|) < Around(f, t, |free|) ==>
        free[k] in mem && mem[free[k]].size < nunits
      ensures found ==>
        0 < t < |free| && p == free[t] && prevp == free[t - 1] && prevp in mem && p in mem && mem[p].size >= nunits
      ensures !found ==> forall a :: a in free ==> a in mem && mem[a].size < nunits
    {
      hide HeapOk, Around;
      f :| 0 <= f < |free| && free[f] == freep;
      ghost var n := |free|;
      AroundFirst(f, n);
      NodesInMem(mem, owner, free, live, base);
      NodeAt(mem, owner, free, live, base, f);
      prevp := freep;
      p := mem[prevp].ptr;
      t := if f + 1 < n then f + 1 else 0;
      while true
        invariant 0 <= t < n && p == free[t] && prevp == free[if t > 0 then t - 1 else n - 1]
        invariant p in mem
        invariant forall k :: 0 <= k < n && Around(f, k, n) < Around(f, t, n) ==> mem[free[k]].size < nunits
        decreases n - Around(f, t, n)
      {
        NodeAt(mem, owner, free, live, base, t);
        if mem[p].size >= nunits {
          return true, prevp, p, t, f;
        }
        if p == freep {
          assert t == f;
          forall a | a in free
            ensures a in mem && mem[a].size < nunits
          {
            var k :| 0 <= k < n && free[k] == a;
          }
          return false, prevp, p, t, f;
        }
        AroundNext(f, t, n);
        prevp := p;
        p := mem[p].ptr;
        t := if t + 1 < n then t + 1 else 0;
      }
    }

    /** Hand out `nunits` of the free block p: all of it, or its tail. */
    method Take(prevp: nat, p: nat, nunits: nat, ghost t: nat) returns (r: nat)
      requires Valid() && freep != 0 && 0 < t < |free| && p == free[t] && prevp == free[t - 1]
      requires nunits > 0 && p in mem && mem[p].size >= nunits && prevp in mem
      modifies this
      ensures Valid() && freep != 0 && r > 0 && brk == old(brk) && granted == old(granted)
      ensures r - 1 !in old(live) && live == old(live)[r - 1 := nunits]
    {
      hide HeapOk;
      TakeKeeps(mem, owner, free, live, base, t, nunits);
      if mem[p].size == nunits {
        mem := mem[prevp := mem[prevp].(ptr := mem[p].ptr)];
        live := live[p := nunits];
        free := free[..t] + free[t + 1..];
        r := p + 1;
      } else {
        var c := p + mem[p].size - nunits;
        var h := TailHeader(mem, c, nunits);
        mem := mem[p := mem[p].(size := mem[p].size - nunits)];
        mem := mem[c := h];
        live := live[c := nunits];
        owner := CutTail(owner, p, c);
        r := c + 1;
      }
      freep := prevp;
      assert free[t - 1] == prevp;
    }

    /** Is there a free block of n units? */
    ghost predicate HasFree(n: nat)
      reads this
    {
      exists a :: a in free && a in mem && mem[a].size >= n
    }

    /** malloc in a process of sz bytes: a block of Units(nbytes) units that overlaps no other block.
        It asks sbrk only when no free block is big enough, and fails only when sbrk does; it is lost
        exactly when sbrk is asked for 2^31 bytes or more and succeeds. What sbrk takes away then is
        said exactly, and the heap is still in memory that the process has if and only if it is nothing. */
    method Malloc(nbytes: nat, sz: nat, memory: bool) returns (r: MallocResult, newsz: nat)
      requires Valid() && nbytes < UINT_LIMIT && sz % HEADER == 0 && brk * HEADER <= sz < KERNBASE
      modifies this
      ensures Sound() && (r.Block? ==> Valid())
      ensures gone == if old(HasFree(Units(nbytes))) then {} else Taken(old(granted), sz, CoreBytes(Units(nbytes)))
      ensures r.Block? ==> r.p > 0 && r.p - 1 !in old(live) && live == old(live)[r.p - 1 := Units(nbytes)]
      ensures !r.Block? ==> live == old(live) && granted == old(granted)
      ensures old(HasFree(Units(nbytes))) ==> r.Block? && newsz == sz && granted == old(granted)
      ensures !old(HasFree(Units(nbytes))) ==>
        var wanted := CoreUnits(Units(nbytes)) * HEADER;
        && (r.Block? ==> granted == old(granted) + Range(sz / HEADER, CoreUnits(Units(nbytes))))
        && if wanted < INT_LIMIT then
             && (r.Block? <==> memory && sz + wanted < KERNBASE) && !r.Lost?
             && newsz == if r.Block? then sz + wanted else sz
           else
             && (r.Null? <==> sz + wanted == UINT_LIMIT) && !r.Block?
             && newsz == if r.Lost? then SizeAfterWrap(sz, wanted) else sz
    {
      hide HeapOk, Sbrk, Around, Range, Taken;
      var nunits := Units(nbytes);
      UnitsFit(nbytes);
      if freep == 0 {
        mem := mem[base := Header(base, 0)];
        freep := base;
        free := [base];
        EmptyHeap(mem, base);
      }
      newsz := sz;
      var found, prevp, p;
      ghost var t, f;
      found, prevp, p, t, f := Search(nunits);
      if !found {
        var q;
        q, newsz := MoreCore(nunits, sz, memory);
        if q.NoCore? {
          return Null, sz;
        }
        if q.Astray? {
          return Lost, newsz;
        }
        found, prevp, p, t, f := Search(nunits);
      }
      var a := Take(prevp, p, nunits, t);
      r := Block(a);
    }
  }

  lemma UnitsFit(nbytes: nat)
    requires nbytes < UINT_LIMIT
    ensures 0 < Units(nbytes) <= 0x2000_0000
  {
  }

  /** `p->s.size = nunits` at an address where no header may have been written before. */
  function TailHeader(mem: Memory, c: nat, n: nat): (h: Header)
    ensures h.size == n
  {
    Header(if c in mem then mem[c].ptr else 0, n)
  }

  lemma TakeKeeps(mem: Memory, owner: map<nat, nat>, free: seq<nat>, live: map<nat, nat>, base: nat, t: nat, k: nat)
    requires HeapOk(mem, owner, free, live, base) && 0 < t < |free| && free[t] in mem && 0 < k <= mem[free[t]].size
    ensures base <= free[t - 1]
    ensures free[t - 1] in mem
    ensures var p, q := free[t], free[t - 1];
      if k == mem[p].size then
        && p !in live
        && HeapOk(mem[q := mem[q].(ptr := mem[p].ptr)], owner, free[..t] + free[t + 1..], live[p := k], base)
      else
        var c := p + mem[p].size - k;
        && c !in live
        && HeapOk(mem[p := mem[p].(size := mem[p].size - k)][c := TailHeader(mem, c, k)],
                  CutTail(owner, p, c), free, live[c := k], base)
  {
    hide Chained, Spaced, OwnerOk, Owns, Members;
    ListFacts(mem, owner, free, live, base, t);
    PtrAt(mem, free, base, t - 1);
    if k == mem[free[t]].size {
      TakeWhole(mem, owner, free, live, base, t);
    } else {
      var c := free[t] + mem[free[t]].size - k;
      TailIsNew(mem, owner, free, live, base, t, k);
      TakeTail(mem, owner, free, live, base, t, k, TailHeader(mem, c, k));
    }
  }

  lemma EmptyHeap(mem: Memory, base: nat)
    requires base in mem && mem[base] == Header(base, 0)
    ensures HeapOk(mem, map[], [base], map[], base)
  {
  }

  lemma PtrListed(mem: Memory, owner: map<nat, nat>, free: seq<nat>, live: map<nat, nat>, base: nat, x: nat)
    requires HeapOk(mem, owner, free, live, base) && x in free
    ensures x in mem && mem[x].ptr in free
  {
    var i :| 0 <= i < |free| && free[i] == x;
    PtrAt(mem, free, base, i);
  }

  lemma NodeAt(mem: Memory, owner: map<nat, nat>, free: seq<nat>, live: map<nat, nat>, base: nat, t: nat)
    requires HeapOk(mem, owner, free, live, base) && t < |free|
    ensures free[t] in mem && mem[free[t]].ptr == free[if t + 1 < |free| then t + 1 else 0]
  {
  }

  lemma NodesInMem(mem: Memory, owner: map<nat, nat>, free: seq<nat>, live: map<nat, nat>, base: nat)
    requires HeapOk(mem, owner, free, live, base)
    ensures |free| > 0 && free[0] in mem && mem[free[0]].size == 0
    ensures forall k :: 0 <= k < |free| ==> free[k] in mem
    ensures forall i, j :: 0 <= i < j < |free| ==> free[i] != free[j]
  {
  }

  /** Steps from f to k around a cycle of n, from 1 to n. */
  function Around(f: nat, k: nat, n: nat): (d: nat)
    requires f < n && k < n
    ensures 1 <= d <= n && (d == n <==> k == f)
  {
    if k > f then k - f else k + n - f
  }

  lemma AroundFirst(f: nat, n: nat)
    requires f < n
    ensures Around(f, if f + 1 < n then f + 1 else 0, n) == 1
  {
  }

  lemma AroundNext(f: nat, t: nat, n: nat)
    requires f < n && t < n && t != f
    ensures var u := if t + 1 < n then t + 1 else 0;
      && Around(f, u, n) == Around(f, t, n) + 1
      && forall k: nat :: k < n && Around(f, k, n) < Around(f, u, n) ==> Around(f, k, n) < Around(f, t, n) || k == t
  {
  }

  /** Is the free block after p, or p itself, adjacent to bp? */
  predicate Upper(mem: Memory, bp: nat, p: nat)
    requires p in mem && bp in mem
  {
    bp + mem[bp].size == mem[p].ptr
  }

  predicate Lower(mem: Memory, bp: nat, p: nat)
    requires p in mem
  {
    p + mem[p].size == bp
  }

  /** The memory after the two conditionals of free. */
  function FreedMem(mem: Memory, bp: nat, p: nat): (r: Memory)
    requires p in mem && bp in mem && p != bp && (Upper(mem, bp, p) ==> mem[p].ptr in mem)
    ensures r.Keys == mem.Keys
  {
    var q := mem[p].ptr;
    var m := if Upper(mem, bp, p) then mem[bp := Header(mem[q].ptr, mem[bp].size + mem[q].size)]
             else mem[bp := mem[bp].(ptr := q)];
    if Lower(mem, bp, p) then m[p := Header(m[bp].ptr, m[p].size + m[bp].size)]
    else m[p := m[p].(ptr := bp)]
  }

  ghost function FreedOwner(mem: Memory, owner: map<nat, nat>, bp: nat, p: nat): (r: map<nat, nat>)
    requires p in mem && bp in mem
    ensures r.Keys == owner.Keys
  {
    var up := if Upper(mem, bp, p) then Move(owner, mem[p].ptr, bp) else owner;
    if Lower(mem, bp, p) then Move(up, bp, p) else up
  }

  ghost function FreedList(mem: Memory, free: seq<nat>, bp: nat, t: nat): (r: seq<nat>)
    requires t < |free| && free[t] in mem && bp in mem && (Upper(mem, bp, free[t]) ==> t + 1 < |free|)
  {
    if Upper(mem, bp, free[t]) then
      if Lower(mem, bp, free[t]) then free[..t + 1] + free[t + 2..] else free[t + 1 := bp]
    else if Lower(mem, bp, free[t]) then free
    else free[..t + 1] + [bp] + free[t + 1..]
  }

  lemma FreeKeeps(mem: Memory, owner: map<nat, nat>, free: seq<nat>, live: map<nat, nat>, base: nat, bp: nat, t: nat)
    requires HeapOk(mem, owner, free, live, base) && bp in live && IsSpot(free, bp, t)
    ensures free[t] in mem && bp in mem && free[t] != bp && base <= free[t]
    ensures Upper(mem, bp, free[t]) ==> t + 1 < |free| && mem[free[t]].ptr in mem
    ensures var p := free[t];
      var m, o, f := FreedMem(mem, bp, p), FreedOwner(mem, owner, bp, p), FreedList(mem, free, bp, t);
      && HeapOk(m, o, f, live - {bp}, base) && p in f
      && bp in o && o[bp] in m && m[o[bp]].size >= live[bp] && (o[bp] == p || o[bp] == m[p].ptr)
  {
    hide Chained, Spaced, OwnerOk, Owns, Members;
    Between(mem, owner, free, live, base, bp, t);
    OwnsItself(mem, owner, free, live, base, bp);
    PtrAt(mem, free, base, t);
    assert FreedList(mem, free, bp, t)[t] == free[t];
    if Upper(mem, bp, free[t]) {
      if Lower(mem, bp, free[t]) {
        FreeBoth(mem, owner, free, live, base, bp, t);
      } else {
        FreeUpper(mem, owner, free, live, base, bp, t);
      }
    } else if Lower(mem, bp, free[t]) {
      FreeLower(mem, owner, free, live, base, bp, t);
    } else {
      FreeAlone(mem, owner, free, live, base, bp, t);
    }
  }

  lemma OwnsItself(mem: Memory, owner: map<nat, nat>, free: seq<nat>, live: map<nat, nat>, base: nat, bp: nat)
    requires HeapOk(mem, owner, free, live, base) && bp in live
    ensures bp in owner && owner[bp] == bp && mem[bp].size == live[bp]
  {
  }

  lemma PtrAt(mem: Memory, free: seq<nat>, base: nat, t: nat)
    requires ListOk(mem, free, base) && t < |free|
    ensures free[t] in mem && mem[free[t]].ptr == if t + 1 < |free| then free[t + 1] else base
    ensures base <= free[t] && (t + 1 < |free| ==> free[t] < free[t + 1])
  {
  }

  // ---- conservation ----

  ghost function Pick(s: set<nat>): (a: nat)
    requires s != {}
    ensures a in s
  {
    var a :| a in s; a
  }

  /** The sizes of all blocks of a set, added up. */
  ghost function Total(mem: Memory, blocks: set<nat>): (r: nat)
    requires forall a :: a in blocks ==> a in mem
  {
    if blocks == {} then 0
    else mem[Pick(blocks)].size + Total(mem, blocks - {Pick(blocks)})
  }

  lemma {:induction false} RangeSize(a: nat, n: nat)
    ensures |Range(a, n)| == n
  {
    if n > 0 { RangeSize(a, n - 1); }
  }

  /** What is left of the partition without block a. */
  lemma OwnerWithout(mem: Memory, owner: map<nat, nat>, blocks: set<nat>, a: nat)
    requires OwnerOk(mem, owner, blocks) && a in blocks
    ensures var rest := map u | u in owner && owner[u] != a :: owner[u];
      OwnerOk(mem, rest, blocks - {a}) && owner.Keys == rest.Keys + Range(a, mem[a].size)
  {
    var rest := map u | u in owner && owner[u] != a :: owner[u];
    forall c | c in blocks - {a}
      ensures Owns(rest, c, mem[c].size)
    {
      assert Owns(owner, c, mem[c].size);
    }
    OwnerUnits(mem, owner, blocks, a);
  }

  lemma OwnerUnits(mem: Memory, owner: map<nat, nat>, blocks: set<nat>, a: nat)
    requires OwnerOk(mem, owner, blocks) && a in blocks
    ensures forall u :: u in owner && owner[u] == a <==> u in Range(a, mem[a].size)
  {
    assert Owns(owner, a, mem[a].size);
  }

  lemma {:induction false} UnitsConserved(mem: Memory, owner: map<nat, nat>, blocks: set<nat>)
    requires OwnerOk(mem, owner, blocks)
    ensures |owner.Keys| == Total(mem, blocks)
    decreases |blocks|
  {
    if blocks == {} {
      assert owner.Keys == {};
    } else {
      var a := Pick(blocks);
      var rest := map u | u in owner && owner[u] != a :: owner[u];
      OwnerWithout(mem, owner, blocks, a);
      UnitsConserved(mem, rest, blocks - {a});
      assert Owns(owner, a, mem[a].size);
      assert rest.Keys !! Range(a, mem[a].size);
      RangeSize(a, mem[a].size);
    }
  }

  /** Free plus live units are the units that sbrk has given. */
  lemma HeapConserved(h: Allocator)
    requires h.Valid() && h.freep != 0
    ensures forall a :: a in Members(h.free) + h.live.Keys ==> a in h.mem
    ensures |h.granted| == Total(h.mem, Members(h.free) + h.live.Keys)
  {
    UnitsConserved(h.mem, h.owner, Members(h.free) + h.live.Keys);
  }

  /** No two blocks, free or live, share a unit. */
  lemma NoOverlap(mem: Memory, owner: map<nat, nat>, free: seq<nat>, live: map<nat, nat>, base: nat, a: nat, b: nat,
                  u: nat)
    requires HeapOk(mem, owner, free, live, base)
    requires a in live || a in free
    requires b in live || b in free
    requires a in mem && a <= u < a + mem[a].size && b in mem && b <= u < b + mem[b].size
    ensures a == b
  {
    assert a in Members(free) + live.Keys && Owns(owner, a, mem[a].size);
    assert b in Members(free) + live.Keys && Owns(owner, b, mem[b].size);
    assert owner[u] == a && owner[u] == b;
  }
}
