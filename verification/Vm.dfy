/** The page allocator (kalloc.c) and the address spaces built from it (vm.c). Pages are named by
    page number, so a pointer to a page is never unaligned; 0 is the null pointer. */
module Vm {
  import opened Common
  import opened PageTables
  import opened PageCounts
  import opened PageMaps

  /** The list that starts at head and runs through the first words of the pages. */
  predicate Chain(ram: Ram, head: nat, free: seq<nat>)
    decreases |free|
  {
    if free == [] then head == 0
    else 0 < head < |ram| && free[0] == head && head !in free[1..] && Chain(ram, ram[head][0], free[1..])
  }

  /** Every page of the pool [lo, hi) is either on the free list, once, or in use. */
  ghost predicate FreeOk(ram: Ram, lo: nat, hi: nat, head: nat, free: seq<nat>, used: set<nat>)
  {
    && 0 < lo <= hi <= |ram| && hi < PAGE_LIMIT && Chain(ram, head, free)
    && (forall f :: f in free ==> f !in used)
    && (forall f: nat :: f in free || f in used <==> lo <= f < hi)
  }

  lemma {:induction false} ChainFrame(ram: Ram, head: nat, free: seq<nat>, ram': Ram)
    requires Chain(ram, head, free) && |ram'| == |ram| && forall f :: f in free && f < |ram| ==> ram'[f] == ram[f]
    ensures Chain(ram', head, free)
    decreases |free|
  {
    if free != [] { ChainFrame(ram, ram[head][0], free[1..], ram'); }
  }

  /** Pages in use can be written. */
  lemma WriteUsed(ram: Ram, lo: nat, hi: nat, head: nat, free: seq<nat>, used: set<nat>, ram': Ram)
    requires FreeOk(ram, lo, hi, head, free, used) && |ram'| == |ram|
    requires forall f :: 0 <= f < |ram| && f !in used ==> ram'[f] == ram[f]
    ensures FreeOk(ram', lo, hi, head, free, used)
  {
    hide Chain;
    ChainFrame(ram, head, free, ram');
  }

  lemma PopFree(ram: Ram, lo: nat, hi: nat, head: nat, free: seq<nat>, used: set<nat>)
    requires FreeOk(ram, lo, hi, head, free, used) && head != 0
    ensures free != [] && lo <= head < hi && head !in used && free[0] == head
    ensures FreeOk(ram, lo, hi, ram[head][0], free[1..], used + {head})
  {
    assert free == [head] + free[1..];
    assert head in free;
  }

  lemma PushFree(ram: Ram, lo: nat, hi: nat, head: nat, free: seq<nat>, used: set<nat>, f: nat, page: Page)
    requires FreeOk(ram, lo, hi, head, free, used) && f in used && page[0] == head
    ensures FreeOk(ram[f := page], lo, hi, f, [f] + free, used - {f})
  {
    ChainFrame(ram, head, free, ram[f := page]);
    assert ([f] + free)[1..] == free;
  }

  predicate InRange(a: nat, b: nat, f: nat) { a <= f < b }

  ghost function Between(a: nat, b: nat): (r: set<nat>)
  {
    set f: nat | a <= f < b && InRange(a, b, f)
  }

  lemma InPool(ram: Ram, lo: nat, hi: nat, head: nat, free: seq<nat>, used: set<nat>)
    requires FreeOk(ram, lo, hi, head, free, used)
    ensures 0 < lo <= hi <= |ram| && hi < PAGE_LIMIT && (forall f :: f in used ==> lo <= f < hi)
    ensures (head == 0 <==> free == []) && (free != [] ==> head == free[0]) && 0 <= head < PAGE_LIMIT
  {
    if free != [] { assert free[0] in free; }
  }

  class Kernel {
    const ram: array<Page>
    const lo: nat
    const hi: nat
    var freelist: nat
    ghost var free: seq<nat>
    ghost var use: map<nat, Use>

    ghost predicate PoolOk()
      reads this, ram
    {
      FreeOk(ram[..], lo, hi, freelist, free, use.Keys)
    }

    ghost predicate Inv()
      reads this, ram
    {
      PoolOk() && Linked(ram[..], use)
    }

    /** Before kinit1 no page is free; those of the pool are held. */
    constructor (ram: array<Page>, lo: nat, hi: nat)
      requires 0 < lo <= hi <= ram.Length && hi < PAGE_LIMIT
      ensures this.ram == ram && this.lo == lo && this.hi == hi && Inv()
      ensures free == [] && (forall f: nat :: lo <= f < hi ==> IsHeld(use, f))
    {
      this.ram, this.lo, this.hi := ram, lo, hi;
      freelist, free := 0, [];
      use := map f: nat | lo <= f < hi && InRange(lo, hi, f) :: Held;
    }

    /** freerange: every whole page of [vstart, vend) is free afterwards. */
    method FreeRange(vstart: nat, vend: nat)
      requires Inv() && lo <= Up(vstart) && vend / PGSIZE <= hi
      requires forall f: nat :: Up(vstart) <= f < vend / PGSIZE ==> IsHeld(use, f)
      modifies ram, this`freelist, this`free, this`use
      ensures Inv() && use == old(use) - Between(Up(vstart), vend / PGSIZE)
      ensures forall f: nat :: f in free <==> f in old(free) || (Up(vstart) <= f < vend / PGSIZE)
    {
      hide FreeOk, Linked, SameMaps;
      ghost var used, freed := use, free;
      var p := Up(vstart);
      assert use - Between(p, p) == use;
      while p * PGSIZE + PGSIZE <= vend
        invariant Up(vstart) <= p && (p <= vend / PGSIZE || p == Up(vstart)) && Inv()
        invariant use == used - Between(Up(vstart), p)
        invariant forall f: nat :: f in free <==> f in freed || (Up(vstart) <= f < p)
        decreases vend / PGSIZE - p
      {
        ghost var before := free;
        assert p < vend / PGSIZE && IsHeld(used, p);
        var ok := FreeHeld(p);
        assert Between(Up(vstart), p + 1) == Between(Up(vstart), p) + {p};
        p := p + 1;
      }
      assert Between(Up(vstart), p) == Between(Up(vstart), vend / PGSIZE);
    }

    /** kfree: the page goes to the front of the free list, filled with junk. */
    method Kfree(f: nat) returns (ok: bool)
      requires PoolOk() && (lo <= f < hi ==> f in use)
      modifies ram, this`freelist, this`free, this`use
      ensures ok <==> lo <= f < hi
      ensures !ok ==> unchanged(this, ram)
      ensures ok ==>
        && PoolOk() && use == old(use) - {f} && free == [f] + old(free) && ram[..] == old(ram[..])[f := ram[f]]
    {
      hide FreeOk;
      if f < lo || f >= hi {
        return false;
      }
      InPool(ram[..], lo, hi, freelist, free, use.Keys);
      var junk: Page := seq(NENTRIES, i => 0x01010101);
      PushFree(ram[..], lo, hi, freelist, free, use.Keys, f, junk[0 := freelist]);
      ram[f] := junk;
      ram[f] := ram[f][0 := freelist];
      assert ram[..] == old(ram[..])[f := junk[0 := freelist]];
      assert (use - {f}).Keys == use.Keys - {f};
      freelist, free, use := f, [f] + free, use - {f};
      ok := true;
    }

    /** kalloc: the first page of the free list, or null exactly when the list is empty. */
    method Kalloc() returns (f: nat)
      requires Inv()
      modifies this`freelist, this`free, this`use
      ensures Inv()
      ensures f == 0 <==> old(free) == []
      ensures f == 0 ==> unchanged(this)
      ensures f != 0 ==> lo <= f < hi && f !in old(use) && use == old(use)[f := Held] && old(free) == [f] + free
    {
      hide FreeOk, Linked;
      f := freelist;
      InPool(ram[..], lo, hi, freelist, free, use.Keys);
      if f != 0 {
        PopFree(ram[..], lo, hi, freelist, free, use.Keys);
        TakePage(ram[..], use, f);
        assert use[f := Held].Keys == use.Keys + {f};
        freelist, free, use := ram[f][0], free[1..], use[f := Held];
      }
    }

    /** walkpgdir: the page table for virtual page v, made on demand. No map changes, and it fails
        only when there is no table and none may be made or no page is left. */
    method WalkPgdir(d: nat, v: nat, alloc: bool) returns (t: nat)
      requires Inv() && IsDir(use, d) && v < NPAGES
      modifies ram, this`freelist, this`free, this`use
      ensures Inv()
      ensures t == 0 ==> unchanged(this, ram) && !Present(ram[d][v / NENTRIES]) && (alloc ==> free == [])
      ensures t != 0 ==>
        && t < ram.Length && IsTable(use, t) && use[t] == Kid(d, v / NENTRIES)
        && Grew(old(ram[..]), old(use), ram[..], use, d, {}) && SameMaps(old(ram[..]), old(use), ram[..])
      ensures t != 0 && !alloc ==> unchanged(this, ram)
      ensures t != 0 ==>
        && d < ram.Length && Present(ram[d][v / NENTRIES])
        && ram[d] == old(ram[d])[v / NENTRIES := ram[d][v / NENTRIES]]
        && |free| == |old(free)| - (if Present(old(ram[d])[v / NENTRIES]) then 0 else 1)
    {
      hide FreeOk, Linked, Grew, SameMaps, Present, FrameOf, EntryOf;
      InPool(ram[..], lo, hi, freelist, free, use.Keys);
      var i := v / NENTRIES;
      if Present(ram[d][i]) {
        TableOf(ram[..], use, d, i);
        NothingGrew(ram[..], use, d);
        return FrameOf(ram[d][i]);
      }
      if !alloc {
        return 0;
      }
      ghost var ram0: Ram, use0 := ram[..], use;
      t := Kalloc();
      if t == 0 {
        return;
      }
      ghost var use1 := use;
      ram[t] := ZERO;
      var e := EntryOf(t, 7);
      FlagBits(e);
      NewTable(ram0, use0, d, i, t, e);
      ram[d] := ram[d][i := e];
      assert ram[..] == ram0[t := ZERO][d := ram0[d][i := e]];
      use := use[t := Kid(d, i)];
      assert use.Keys == use1.Keys && use == use0[t := Kid(d, i)];
      WriteUsed(ram0, lo, hi, freelist, free, use.Keys, ram[..]);
    }

    /** mappages: entries for the pages of [va, va + size), tables made on demand. It stops when no
        page is left for a table, and panics at a page that is mapped already. `n` pages are
        mapped when it ends. Pages that go into user memory must be nobody's. */
    method Mappages(d: nat, va: uint, size: uint, pa: uint, perm: nat) returns (r: MapResult, ghost n: nat)
      requires Inv() && IsDir(use, d) && size > 0 && va + size <= UINT_LIMIT && pa % PGSIZE == 0 && perm < PGSIZE
      requires FrameOf(pa) + Span(va, size) <= PAGE_LIMIT
      requires forall g: nat :: Moved(va / PGSIZE, Span(va, size), FrameOf(pa), g) ==> IsHeld(use, g)
      modifies ram, this`freelist, this`free, this`use
      ensures Inv() && n <= Span(va, size) && FrameOf(pa) + n <= PAGE_LIMIT && va / PGSIZE + n <= NPAGES
      ensures Mapped(old(ram[..]), old(use), ram[..], use, d, va / PGSIZE, n, FrameOf(pa), WithP(perm))
      ensures r.AllMapped? <==> n == Span(va, size)
      ensures r.NoMemory? ==> free == []
      ensures r.Remap? ==> Look(old(ram[..]), d, va / PGSIZE + n) != 0
      ensures d < ram.Length && (!r.Remap? ==>
        && Walked(old(ram[d]), ram[d], va / PGSIZE, va / PGSIZE + n)
        && |free| == |old(free)| - Lacking(old(ram[d]), va / PGSIZE, va / PGSIZE + n))
      ensures r.NoMemory? ==>
        va / PGSIZE + n < NPAGES && |old(free)| < Lacking(old(ram[d]), va / PGSIZE, va / PGSIZE + n + 1)
    {
      hide FreeOk, Linked, Mapped, Present, FrameOf, EntryOf, Look, Walked, Lacking;
      var a, f := va / PGSIZE, FrameOf(pa);
      var last := (va + size - 1) / PGSIZE;
      ghost var ram0, use0, first, f0 := ram[..], use, a, f;
      n := 0;
      InRam(ram0, use0);
      NothingMapped(ram0, use0, d, first, f0, WithP(perm));
      ghost var dir0 := ram[d];
      WalkedNone(dir0, first);
      while true
        invariant Inv() && IsDir(use, d) && first <= a <= last && n == a - first && f == f0 + n
        invariant Mapped(ram0, use0, ram[..], use, d, first, n, f0, WithP(perm))
        invariant Walked(dir0, ram[d], first, a) && |free| == |old(free)| - Lacking(dir0, first, a)
        decreases last - a
      {
        ghost var dir := ram[d];
        ghost var ram1, use1 := ram[..], use;
        var t := WalkPgdir(d, a, true);
        if t == 0 {
          assert ram[..] == ram1;
          LackingHere(dir0, dir, first, a);
          return NoMemory, n;
        }
        WalkedStep(dir0, dir, ram[d], first, a);
        MappedGrew(ram0, use0, ram1, use1, ram[..], use, d, first, n, f0, WithP(perm));
        MappedKeeps(ram0, use0, ram[..], use, d, first, n, f0, WithP(perm));
        LookIn(ram[..], use, d, t, a);
        if Present(ram[t][a % NENTRIES]) {
          return Remap, n;
        }
        SetEntry(d, a, t, f, WithP(perm), ram0, use0, first, n);
        n := n + 1;
        MappedKeeps(ram0, use0, ram[..], use, d, first, n, f0, WithP(perm));
        if a == last {
          break;
        }
        a, f := a + 1, f + 1;
      }
      r := AllMapped;
    }

    /** `*pte = pa | perm | PTE_P`. */
    method SetEntry(d: nat, v: nat, t: nat, f: nat, flags: nat, ghost ram0: Ram, ghost use0: map<nat, Use>,
                    ghost first: nat, ghost n: nat)
      requires Inv() && IsDir(use, d) && v < NPAGES && t < ram.Length && IsTable(use, t)
      requires use[t] == Kid(d, v / NENTRIES)
      requires f < PAGE_LIMIT && flags < PGSIZE && flags % 2 == 1 && !Present(ram[t][v % NENTRIES])
      requires first + n == v && f >= n && IsDir(use0, d) && (v < USERPAGES ==> IsHeld(use, f) && IsHeld(use0, f))
      requires Mapped(ram0, use0, ram[..], use, d, first, n, f - n, flags)
      modifies ram, this`use
      ensures Inv() && Mapped(ram0, use0, ram[..], use, d, first, n + 1, f - n, flags)
      ensures d < ram.Length && ram[d] == old(ram[d])
    {
      hide FreeOk, Linked, Mapped, Present, FrameOf, EntryOf, Look, NoEntries;
      var j, e := v % NENTRIES, EntryOf(f, flags);
      ghost var ram1: Ram, use1 := ram[..], use;
      InRam(ram1, use1);
      if v < USERPAGES {
        Attach(ram1, use1, t, j, f, e);
        use := use[f := Kid(t, j)];
        assert use.Keys == use1.Keys;
      } else {
        WriteLeaf(ram1, use1, t, ram1[t][j := e]);
      }
      ram[t] := ram[t][j := e];
      assert ram[..] == ram1[t := ram1[t][j := e]];
      WriteUsed(ram1, lo, hi, freelist, free, use.Keys, ram[..]);
      MappedEntry(ram0, use0, ram1, use1, ram[..], use, d, t, v, first, n, f, flags);
    }

    /** deallocuvm: user memory from newsz up to oldsz goes, page by page, although the loop skips
        directory entries without a table; its pages are free and nothing else changes. The panics
        are not reached. */
    method Deallocuvm(d: nat, oldsz: uint, newsz: uint) returns (r: uint, ok: bool)
      requires Inv() && IsDir(use, d) && oldsz <= KERNBASE
      modifies ram, this`freelist, this`free, this`use
      ensures Inv() && ok && r == if newsz < oldsz then newsz else oldsz
      ensures newsz >= oldsz ==> unchanged(this, ram)
      ensures newsz < oldsz ==> Unmapped(old(ram[..]), old(use), ram[..], use, d, Up(newsz), Up(oldsz))
    {
      hide FreeOk, Linked, Unmapped, Look, Present, FrameOf;
      if newsz >= oldsz {
        return oldsz, true;
      }
      ghost var ram0, use0 := ram[..], use;
      var a, end := Up(newsz), Up(oldsz);
      ghost var b := a;
      InRam(ram0, use0);
      NothingUnmapped(ram0, use0, d, a);
      while a * PGSIZE < oldsz
        invariant Inv() && SameDirs(use0, use) && Up(newsz) <= b <= end && (a == b || (b == end && a >= end))
        invariant Unmapped(ram0, use0, ram[..], use, d, Up(newsz), b)
        decreases end - b
      {
        ghost var ram1 := ram[..];
        var t := WalkPgdir(d, a, false);
        assert ram[..] == ram1;
        if t == 0 {
          ghost var next := Min((a / NENTRIES + 1) * NENTRIES, end);
          NoTable(ram[..], d, a, next);
          UnmapNone(ram0, use0, ram[..], use, d, Up(newsz), b, next);
          a, b := (a / NENTRIES + 1) * NENTRIES - 1, next;
        } else {
          ok := FreeEntry(d, a, t, ram0, use0, Up(newsz));
          b := b + 1;
        }
        UnmappedKeeps(ram0, use0, ram[..], use, d, Up(newsz), b);
        a := a + 1;
      }
      return newsz, true;
    }

    /** `if(*pte & PTE_P) { kfree(the page); *pte = 0; }` */
    method FreeEntry(d: nat, v: nat, t: nat, ghost ram0: Ram, ghost use0: map<nat, Use>, ghost first: nat)
      returns (ok: bool)
      requires Inv() && IsDir(use, d) && v < USERPAGES && t < ram.Length && IsTable(use, t)
      requires use[t] == Kid(d, v / NENTRIES)
      requires Unmapped(ram0, use0, ram[..], use, d, first, v) && IsDir(use0, d) && SameDirs(use0, use)
      modifies ram, this`freelist, this`free, this`use
      ensures Inv() && ok && Unmapped(ram0, use0, ram[..], use, d, first, v + 1)
    {
      hide FreeOk, Linked, Unmapped, Look, Present, FrameOf;
      ghost var ram1: Ram, use1 := ram[..], use;
      ok := true;
      InPool(ram[..], lo, hi, freelist, free, use.Keys);
      LookIn(ram1, use1, d, t, v);
      var j := v % NENTRIES;
      if Present(ram[t][j]) {
        var f := FrameOf(ram[t][j]);
        Detach(ram1, use1, t, j, ram1[t]);
        if f == 0 {
          return false;
        }
        ok := Kfree(f);
        Detach(ram1, use1, t, j, ram[f]);
        ghost var page := ram[f];
        ram[t] := ram[t][j := 0];
        assert ram[..] == ram1[f := page][t := ram1[t][j := 0]];
        WriteUsed(ram1[f := page], lo, hi, freelist, free, use.Keys, ram[..]);
        UnmapOne(ram0, use0, ram1, use1, d, t, first, v, page);
      } else {
        UnmapNone(ram0, use0, ram1, use1, d, first, v, v + 1);
      }
    }

    /** kfree of a page that nothing names. */
    method FreeHeld(f: nat) returns (ok: bool)
      requires Inv() && IsHeld(use, f)
      modifies ram, this`freelist, this`free, this`use
      ensures Inv() && ok && use == old(use) - {f} && free == [f] + old(free) && ram[..] == old(ram[..])[f := ram[f]]
      ensures SameMaps(old(ram[..]), old(use), ram[..])
    {
      hide FreeOk, Linked, Look;
      ghost var ram1: Ram, use1 := ram[..], use;
      InPool(ram[..], lo, hi, freelist, free, use.Keys);
      ok := Kfree(f);
      WriteLeaf(ram1, use1, f, ram[f]);
      GivePage(ram[..], use1, f);
      LeafMaps(ram1, use1, f, ram[f]);
    }

    /** One round of allocuvm's loop: a zeroed page at virtual page v. When no page is left for a
        table, the new page is still held. */
    method GrowOne(d: nat, v: nat, ghost ram0: Ram, ghost use0: map<nat, Use>, ghost first: nat)
      returns (r: MapResult, mem: nat)
      requires Inv() && IsDir(use0, d) && IsDir(use, d) && v < USERPAGES
      requires Allocated(ram0, use0, ram[..], use, d, first, v, {})
      modifies ram, this`freelist, this`free, this`use
      ensures Inv() && IsDir(use, d)
      ensures r.AllMapped? ==> Allocated(ram0, use0, ram[..], use, d, first, v + 1, {})
      ensures r.NoMemory? ==> Allocated(ram0, use0, ram[..], use, d, first, v, if mem == 0 then {} else {mem})
      ensures r.NoMemory? && mem != 0 ==> IsHeld(use, mem) && mem !in use0
      ensures r.Remap? ==> Look(ram0, d, v) != 0
      ensures d < ram.Length && (r.AllMapped? ==>
        Walked(old(ram[d]), ram[d], v, v + 1) && |free| == |old(free)| - 1 - Lacking(old(ram[d]), v, v + 1))
      ensures r.NoMemory? ==> |old(free)| < 1 + Lacking(old(ram[d]), v, v + 1)
    {
      hide FreeOk, Linked, Look, Allocated, Mapped, Present, FrameOf, EntryOf, Walked, Lacking;
      InRam(ram[..], use);
      mem := Kalloc();
      if mem == 0 {
        return NoMemory, 0;
      }
      ghost var ram1: Ram, use1 := ram[..], old(use);
      InPool(ram[..], lo, hi, freelist, free, use.Keys);
      ram[mem] := ZERO;
      ghost var ram2, use2 := ram[..], use;
      WriteUsed(ram1, lo, hi, freelist, free, use.Keys, ram[..]);
      WriteLeaf(ram1, use2, mem, ZERO);
      var pa := EntryOf(mem, 0);
      ghost var n;
      r, n := Mappages(d, v * PGSIZE, PGSIZE, pa, 6);
      GrowStep(ram0, use0, ram1, use1, ram[..], use, d, first, v, n, mem);
    }

    /** allocuvm: zeroed pages up to newsz. When memory runs out it unmaps the whole range, so the maps
        are as they were if and only if nothing was mapped there. */
    method Allocuvm(d: nat, oldsz: uint, newsz: uint) returns (r: AllocResult)
      requires Inv() && IsDir(use, d)
      modifies ram, this`freelist, this`free, this`use
      ensures Inv()
      ensures newsz >= KERNBASE ==> r == Zero && unchanged(this, ram)
      ensures newsz < KERNBASE && newsz < oldsz ==> r == Size(oldsz) && unchanged(this, ram)
      ensures newsz < KERNBASE && newsz >= oldsz && r.Size? ==>
        r.sz == newsz && Allocated(old(ram[..]), old(use), ram[..], use, d, Up(oldsz), Up(newsz), {})
      ensures newsz < KERNBASE && r.Zero? ==>
        && Emptied(old(ram[..]), old(use), ram[..], d, Up(oldsz), Up(newsz))
        && (SameMaps(old(ram[..]), old(use), ram[..]) <==> Vacant(old(ram[..]), d, Up(oldsz), Up(newsz)))
        && (Vacant(old(ram[..]), d, Up(oldsz), Up(newsz)) ==> Grew(old(ram[..]), old(use), ram[..], use, d, {}))
      ensures r.Remapped? ==> oldsz <= newsz < KERNBASE && !Vacant(old(ram[..]), d, Up(oldsz), Up(newsz))
      ensures oldsz <= newsz < KERNBASE && !r.Remapped? ==>
        d < ram.Length && (r.Zero? <==> |old(free)| < GrowNeed(old(ram[d]), Up(oldsz), Up(newsz)))
    {
      hide FreeOk, Linked, Look, Allocated, Unmapped, Vacant, Grew, SameMaps, Emptied, Walked, Lacking;
      if newsz >= KERNBASE {
        return Zero;
      }
      if newsz < oldsz {
        return Size(oldsz);
      }
      ghost var ram0, use0 := ram[..], use;
      InRam(ram0, use0);
      var a := Up(oldsz);
      NothingAllocated(ram0, use0, d, a);
      ghost var dir0 := ram[d];
      WalkedNone(dir0, a);
      while a * PGSIZE < newsz
        invariant Inv() && IsDir(use, d) && Up(oldsz) <= a && (a <= Up(newsz) || a == Up(oldsz))
        invariant Allocated(ram0, use0, ram[..], use, d, Up(oldsz), a, {})
        invariant d < ram.Length && Walked(dir0, ram[d], Up(oldsz), a)
        invariant |free| == |old(free)| - (a - Up(oldsz)) - Lacking(dir0, Up(oldsz), a)
        decreases Up(newsz) - a
      {
        ghost var dir := ram[d];
        LackingThen(dir0, dir, Up(oldsz), a, a + 1);
        LackingGrows(dir0, Up(oldsz), a + 1, Up(newsz));
        var s, mem := GrowOne(d, a, ram0, use0, Up(oldsz));
        if s.Remap? {
          NotVacant(ram0, d, Up(oldsz), a, Up(newsz));
          return Remapped;
        }
        if s.NoMemory? {
          Undo(d, oldsz, newsz, a, mem, ram0, use0);
          EmptiedIffVacant(ram0, use0, ram[..], d, Up(oldsz), Up(newsz));
          return Zero;
        }
        WalkedThen(dir0, dir, ram[d], Up(oldsz), a, a + 1);
        a := a + 1;
      }
      r := Size(newsz);
    }

    /** allocuvm's way out: give back what the call had mapped, and the page it still held. */
    method Undo(d: nat, oldsz: uint, newsz: uint, ghost a: nat, mem: nat, ghost ram0: Ram, ghost use0: map<nat, Use>)
      requires Inv() && IsDir(use0, d) && IsDir(use, d) && oldsz < newsz < KERNBASE && Up(oldsz) <= a < Up(newsz)
      requires Allocated(ram0, use0, ram[..], use, d, Up(oldsz), a, if mem == 0 then {} else {mem})
      requires mem != 0 ==> IsHeld(use, mem) && mem !in use0
      modifies ram, this`freelist, this`free, this`use
      ensures Inv() && Emptied(ram0, use0, ram[..], d, Up(oldsz), Up(newsz))
      ensures Vacant(ram0, d, Up(oldsz), Up(newsz)) ==> Grew(ram0, use0, ram[..], use, d, {})
    {
      hide FreeOk, Linked, Look, Allocated, Unmapped, Vacant, Grew, SameMaps, Emptied;
      ghost var ram1, use1 := ram[..], use;
      var sz, ok := Deallocuvm(d, newsz, oldsz);
      ghost var ram2, use2 := ram[..], use;
      if Vacant(ram0, d, Up(oldsz), Up(newsz)) {
        AllocUndone(ram0, use0, ram1, use1, ram2, use2, d, Up(oldsz), a, Up(newsz), if mem == 0 then {} else {mem});
      }
      if mem != 0 {
        HeldStays(ram1, use1, ram2, use2, d, Up(oldsz), Up(newsz), mem);
        InRam(ram2, use2);
        ok := FreeHeld(mem);
        if Vacant(ram0, d, Up(oldsz), Up(newsz)) {
          DropHeld(ram0, use0, ram2, use2, ram[..], d, mem);
        }
      } else {
        NothingGrew(ram2, use2, d);
      }
      UnmappedKeeps(ram1, use1, ram2, use2, d, Up(oldsz), Up(newsz));
      AllocEmptied(ram0, use0, ram1, use1, ram2, use2, ram[..], d, Up(oldsz), a, Up(newsz),
                   if mem == 0 then {} else {mem});
    }

    /** freevm: all pages of the address space are free again, and all other pages are as they
        were. */
    method Freevm(d: nat) returns (ok: bool)
      requires Inv() && IsDir(use, d)
      modifies ram, this`freelist, this`free, this`use
      ensures Inv() && ok && use == old(use) - Owned(old(use), d)
      ensures SamePages(old(ram[..]), ram[..], use)
    {
      hide FreeOk, Linked, Look, Unmapped, Owned, Tree, Present, FrameOf;
      ghost var ram0: Ram, use0 := ram[..], use;
      InRam(ram0, use0);
      var sz;
      sz, ok := Deallocuvm(d, KERNBASE, 0);
      ghost var ram1: Ram, use1 := ram[..], use;
      UnmappedKeeps(ram0, use0, ram1, use1, d, 0, USERPAGES);
      InRam(ram1, use1);
      FreeTables(d);
      ghost var ram2: Ram, use2 := ram[..], use;
      DirLeft(use1, d);
      InPool(ram[..], lo, hi, freelist, free, use.Keys);
      ok := Kfree(d);
      DropAll(ram0, use0, ram1, use1, ram2, ram[..], d);
    }

    /** freevm's loop over the directory. */
    method FreeTables(d: nat)
      requires Inv() && IsDir(use, d) && d < ram.Length
      modifies ram, this`freelist, this`free, this`use
      ensures PoolOk() && use == old(use) - Tables(old(use), d, NENTRIES) && ram[d] == old(ram[d])
      ensures SamePages(old(ram[..]), ram[..], use)
    {
      hide FreeOk, Linked, Present, FrameOf, Tables;
      ghost var ram1: Ram, use1 := ram[..], use;
      TablesStart(use1, d);
      InPool(ram[..], lo, hi, freelist, free, use.Keys);
      var i := 0;
      while i < NENTRIES
        invariant 0 <= i <= NENTRIES && PoolOk() && use == use1 - Tables(use1, d, i)
        invariant SamePages(ram1, ram[..], use) && ram[d] == ram1[d]
      {
        TablesNext(ram1, use1, d, i);
        if Present(ram[d][i]) {
          TableOf(ram1, use1, d, i);
          var ok := Kfree(FrameOf(ram[d][i]));
        }
        i := i + 1;
      }
    }

    /** setupkvm: a new directory with the kernel's map and nothing else, or null and no page
        taken. */
    method Setupkvm(data: uint) returns (d: nat)
      requires Inv() && DataOk(data)
      modifies ram, this`freelist, this`free, this`use
      ensures Inv()
      ensures d == 0 ==> use == old(use) && SamePages(old(ram[..]), ram[..], use)
      ensures d != 0 ==>
        && Space(old(ram[..]), old(use), ram[..], use, d, {}) && d < ram.Length
        && forall v: nat :: v < NPAGES ==> Look(ram[..], d, v) == KernelEntry(data / PGSIZE, v)
      ensures d == 0 <==> |old(free)| < KVM_PAGES
      ensures d != 0 ==> |free| == |old(free)| - KVM_PAGES && forall i :: 0 <= i < 512 ==> !Present(ram[d][i])
    {
      hide FreeOk, Linked, Look, Space, KernelUpTo, KernelEntry, Present, FrameOf, EntryOf, Mapped, Walked, Lacking,
           KernelWalked, KernelTables;
      ghost var ram0: Ram, use0 := ram[..], use;
      d := NewDir();
      if d == 0 {
        return;
      }
      var k := 0;
      KernelStart(ram[..], d, data / PGSIZE);
      KernelCountStart(ram[d], data / PGSIZE);
      while k < 4
        invariant 0 <= k <= 4 && Inv() && Space(ram0, use0, ram[..], use, d, {}) && IsDir(use, d) && 0 < d < ram.Length
        invariant KernelUpTo(ram[..], d, data / PGSIZE, k)
        invariant KernelWalked(ram[d], data / PGSIZE, k) && |free| == |old(free)| - 1 - KernelTables(data / PGSIZE, k)
      {
        KernelTablesNext(ram[d], data, k);
        ghost var dir := ram[d];
        var reg := KMAP(data, k);
        ghost var ram1: Ram, use1 := ram[..], use;
        var size := (reg.physEnd - reg.physStart) % UINT_LIMIT;
        RegionFits(data, k);
        var r, n := Mappages(d, reg.virt, size, reg.physStart, reg.perm);
        KernelStep(ram0, use0, ram1, use1, ram[..], use, d, data, k, n);
        assert !r.Remap?;
        if r.NoMemory? {
          LackingGrows(dir, reg.virt / PGSIZE, reg.virt / PGSIZE + n + 1, RegionEnd(data / PGSIZE, k + 1));
          var ok := DropSpace(d, ram0, use0);
          return 0;
        }
        KernelWalkedNext(dir, ram[d], data, k);
        k := k + 1;
      }
      KernelDone(ram[..], d, data / PGSIZE);
      KernelCountDone(ram[d], data / PGSIZE);
    }

    method NewDir() returns (d: nat)
      requires Inv()
      modifies ram, this`freelist, this`free, this`use
      ensures Inv()
      ensures d == 0 ==> unchanged(this, ram)
      ensures d != 0 ==> Space(old(ram[..]), old(use), ram[..], use, d, {}) && IsDir(use, d) && d < ram.Length
      ensures d != 0 ==> forall v: nat :: v < NPAGES ==> Look(ram[..], d, v) == 0
      ensures d == 0 <==> old(free) == []
      ensures d != 0 ==> |free| == |old(free)| - 1 && NoEntries(ram[d])
    {
      hide FreeOk, Linked, Look;
      ghost var ram0: Ram, use0 := ram[..], use;
      InPool(ram[..], lo, hi, freelist, free, use.Keys);
      d := Kalloc();
      if d != 0 {
        ghost var use1 := use;
        ram[d] := ZERO;
        WriteUsed(ram0, lo, hi, freelist, free, use.Keys, ram[..]);
        WriteLeaf(ram0, use1, d, ZERO);
        MakeDir(ram[..], use, d);
        use := use[d := Dir];
        assert use.Keys == use1.Keys;
      }
    }

    /** freevm of an address space made since: as if it had never been made. */
    method DropSpace(d: nat, ghost ram0: Ram, ghost use0: map<nat, Use>) returns (ok: bool)
      requires Inv() && IsDir(use, d) && Linked(ram0, use0) && Space(ram0, use0, ram[..], use, d, {})
      modifies ram, this`freelist, this`free, this`use
      ensures Inv() && ok && use == use0 && SamePages(ram0, ram[..], use0)
    {
      hide FreeOk, Linked, Owned;
      NotOwned(ram0, use0, use, d);
      ok := Freevm(d);
    }

    /** copyuvm: a new address space with a copy of every page below sz, with the same flags; or,
        when memory runs out, nothing has changed. A page that is missing is a panic. */
    method Copyuvm(d: nat, sz: uint, data: uint) returns (r: CopyResult)
      requires Inv() && IsDir(use, d) && sz <= KERNBASE && DataOk(data)
      modifies ram, this`freelist, this`free, this`use
      ensures Inv() && d < |old(ram[..])|
      ensures r.Copy? ==>
        && Space(old(ram[..]), old(use), ram[..], use, r.dir, {})
        && Copied(old(ram[..]), old(use), ram[..], use, d, r.dir, Up(sz), data / PGSIZE)
      ensures r.NoSpace? ==> use == old(use) && SamePages(old(ram[..]), ram[..], use)
      ensures r.Missing? ==> exists v: nat :: v < Up(sz) && Look(old(ram[..]), d, v) == 0
      ensures r.NoSpace? ==> |old(free)| < CopyNeed(Up(sz))
      ensures r.Copy? ==> |old(free)| >= CopyNeed(Up(sz))
    {
      hide FreeOk, Linked, Look, Space, Copied, KernelEntry, SamePages, Walked, Lacking, Present;
      ghost var ram0: Ram, use0 := ram[..], use;
      InRam(ram0, use0);
      var d' := Setupkvm(data);
      if d' == 0 {
        return NoSpace;
      }
      NothingCopied(ram0, use0, ram[..], use, d, d', data / PGSIZE);
      SpaceKeeps(ram0, use0, ram[..], use, d, d', {});
      ghost var dir0 := ram[d'];
      WalkedNone(dir0, 0);
      UserTables(dir0, Up(sz));
      var i := 0;
      while i * PGSIZE < sz
        invariant 0 <= i <= Up(sz) && Inv() && IsDir(use, d) && IsDir(use, d') && d' < ram.Length
        invariant Space(ram0, use0, ram[..], use, d', {}) && Copied(ram0, use0, ram[..], use, d, d', i, data / PGSIZE)
        invariant Walked(dir0, ram[d'], 0, i) && |free| == |old(free)| - KVM_PAGES - i - Lacking(dir0, 0, i)
        decreases Up(sz) - i
      {
        ghost var dir := ram[d'];
        LackingThen(dir0, dir, 0, i, i + 1);
        LackingGrows(dir0, 0, i + 1, Up(sz));
        var c := CopyOne(d, d', i, data / PGSIZE, ram0, use0);
        if c.Missing? {
          return Missing;
        }
        if c.NoSpace? {
          var ok := DropSpace(d', ram0, use0);
          return NoSpace;
        }
        WalkedThen(dir0, dir, ram[d'], 0, i, i + 1);
        i := i + 1;
      }
      r := Copy(d');
    }

    /** One round of copyuvm's loop. */
    method CopyOne(d: nat, d': nat, v: nat, ghost dataPage: nat, ghost ram0: Ram, ghost use0: map<nat, Use>)
      returns (r: CopyResult)
      requires Inv() && IsDir(use, d) && IsDir(use, d') && d' < ram.Length && v < USERPAGES
      requires Linked(ram0, use0) && IsDir(use0, d) && 0x8_0100 <= dataPage < 0x8_E000
      requires Space(ram0, use0, ram[..], use, d', {}) && Copied(ram0, use0, ram[..], use, d, d', v, dataPage)
      modifies ram, this`freelist, this`free, this`use
      ensures Inv() && IsDir(use, d) && IsDir(use, d')
      ensures !r.Missing? ==> Space(ram0, use0, ram[..], use, d', {})
      ensures r.Copy? ==> Copied(ram0, use0, ram[..], use, d, d', v + 1, dataPage)
      ensures r.Missing? ==> d < |ram0| && Look(ram0, d, v) == 0
      ensures r.Copy? ==>
        Walked(old(ram[d']), ram[d'], v, v + 1) && |free| == |old(free)| - 1 - Lacking(old(ram[d']), v, v + 1)
      ensures r.NoSpace? ==> |old(free)| < 1 + Lacking(old(ram[d']), v, v + 1)
    {
      hide FreeOk, Linked, Look, Space, Copied, KernelEntry, Mapped, Present, FrameOf, FlagsOf, EntryOf, Walked,
           Lacking;
      ghost var ram1: Ram, use1 := ram[..], use;
      InRam(ram1, use1);
      SpaceLooks(ram0, use0, ram1, use1, d, d', {}, v);
      var t := WalkPgdir(d, v, false);
      assert ram[..] == ram1;
      if t == 0 {
        NoTable(ram1, d, v, v + 1);
        return Missing;
      }
      LookIn(ram1, use1, d, t, v);
      var pte := ram[t][v % NENTRIES];
      if !Present(pte) {
        return Missing;
      }
      EntryParts(pte);
      SeenIsUserPage(ram1, use1, d, v);
      r := PutCopy(d, d', v, FrameOf(pte), FlagsOf(pte), dataPage, ram0, use0);
    }

    /** kalloc, memmove, mappages. */
    method PutCopy(ghost d: nat, d': nat, v: nat, f: nat, flags: nat, ghost dataPage: nat, ghost ram0: Ram,
                   ghost use0: map<nat, Use>)
      returns (r: CopyResult)
      requires Inv() && IsDir(use, d) && IsDir(use, d') && d' < ram.Length && v < USERPAGES && flags < PGSIZE
      requires flags % 2 == 1
      requires Linked(ram0, use0) && IsDir(use0, d) && 0x8_0100 <= dataPage < 0x8_E000 && f in use && f < ram.Length
      requires d < |ram0| && Look(ram0, d, v) != 0 && FrameOf(Look(ram0, d, v)) == f
      requires FlagsOf(Look(ram0, d, v)) == flags
      requires Space(ram0, use0, ram[..], use, d', {}) && Copied(ram0, use0, ram[..], use, d, d', v, dataPage)
      modifies ram, this`freelist, this`free, this`use
      ensures Inv() && IsDir(use, d) && IsDir(use, d') && !r.Missing?
      ensures Space(ram0, use0, ram[..], use, d', {})
      ensures r.Copy? ==> Copied(ram0, use0, ram[..], use, d, d', v + 1, dataPage)
      ensures r.Copy? ==>
        Walked(old(ram[d']), ram[d'], v, v + 1) && |free| == |old(free)| - 1 - Lacking(old(ram[d']), v, v + 1)
      ensures r.NoSpace? ==> |old(free)| < 1 + Lacking(old(ram[d']), v, v + 1)
    {
      hide FreeOk, Linked, Look, Space, Copied, KernelEntry, Mapped, Present, FrameOf, EntryOf, Walked, Lacking;
      ghost var ram1: Ram, use1 := ram[..], use;
      CopySource(ram0, use0, ram1, use1, d, d', v);
      var mem := Kalloc();
      if mem == 0 {
        return NoSpace;
      }
      InPool(ram[..], lo, hi, freelist, free, use.Keys);
      var page := ram[f];
      ram[mem] := page;
      WriteUsed(ram1, lo, hi, freelist, free, use.Keys, ram[..]);
      WriteLeaf(ram1, use, mem, page);
      SpaceTakes(ram0, use0, ram1, use1, d', mem, page);
      ghost var ram2: Ram, use2 := ram[..], use;
      var pa := EntryOf(mem, 0);
      var m, n := Mappages(d', v * PGSIZE, PGSIZE, pa, flags);
      CopyMapped(ram0, use0, ram1, use1, ram[..], use, d, d', v, n, mem, page, flags, dataPage);
      SpaceKeeps(ram0, use0, ram[..], use, d, d', if n == 0 then {mem} else {});
      assert !m.Remap?;
      if m.AllMapped? {
        return Copy(d');
      }
      ghost var ram3: Ram, use3 := ram[..], use;
      var ok := FreeHeld(mem);
      SpaceDrops(ram0, use0, ram3, use3, ram[..], d', mem);
      SpaceKeeps(ram0, use0, ram[..], use, d, d', {});
      r := NoSpace;
    }
  }
}
