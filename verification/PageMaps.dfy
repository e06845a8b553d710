/** What the operations of vm.c do to the maps of the address spaces and to the uses of pages: the
    relations their contracts speak of, and why one step after another keeps them. */
module PageMaps {
  import opened Common
  import opened PageTables
  import opened PageCounts

  // ---- new page tables ----

  const ZERO: Page := seq(NENTRIES, i => 0)

  /** Only page tables were added to address space d, next to the pages `held`, and pages other
      than its directory and tables are as they were. */
  ghost predicate Grew(ram: Ram, use: map<nat, Use>, ram': Ram, use': map<nat, Use>, d: nat, held: set<nat>)
  {
    && |ram'| == |ram|
    && (forall f :: f in use ==> f in use' && use'[f] == use[f])
    && (forall f :: f in use && f !in Tree(use, d) && f < |ram| ==> ram'[f] == ram[f])
    && (forall f :: f in use' && f !in use ==> f in held || (use'[f].Kid? && use'[f].parent == d))
  }

  /** All maps are as they were. */
  ghost predicate SameMaps(ram: Ram, use: map<nat, Use>, ram': Ram)
  {
    && |ram'| == |ram|
    && forall d: nat, v: nat :: IsDir(use, d) && d < |ram| && v < NPAGES ==> Look(ram', d, v) == Look(ram, d, v)
  }

  lemma NothingGrew(ram: Ram, use: map<nat, Use>, d: nat)
    ensures Grew(ram, use, ram, use, d, {}) && SameMaps(ram, use, ram)
  {
  }

  lemma InRam(ram: Ram, use: map<nat, Use>)
    requires Linked(ram, use)
    ensures forall f :: f in use ==> f < |ram|
  {
  }

  lemma NewTable(ram: Ram, use: map<nat, Use>, d: nat, i: nat, t: nat, e: uint)
    requires Linked(ram, use) && IsDir(use, d) && i < NENTRIES && !Present(ram[d][i])
    requires t !in use && 0 < t < |ram| && Present(e) && Open(e) && FrameOf(e) == t
    ensures var ram' := ram[t := ZERO][d := ram[d][i := e]];
      && Linked(ram', use[t := Kid(d, i)]) && IsTable(use[t := Kid(d, i)], t)
      && Grew(ram, use, ram', use[t := Kid(d, i)], d, {}) && SameMaps(ram, use, ram')
  {
    hide Linked, Look;
    var use1, ram1 := use[t := Held], ram[t := ZERO];
    InRam(ram, use);
    TakePage(ram, use, t);
    WriteLeaf(ram, use1, t, ZERO);
    Attach(ram1, use1, d, i, t, e);
    assert use1[t := Kid(d, i)] == use[t := Kid(d, i)];
    var ram' := ram1[d := ram1[d][i := e]];
    forall d': nat, v: nat | IsDir(use, d') && d' < |ram| && v < NPAGES
      ensures Look(ram', d', v) == Look(ram, d', v)
    {
      LookNewTable(ram1, use1, d, i, e, d', v);
      LookLeaf(ram, use1, ram1, d', v);
    }
  }

  // ---- mappages ----

  datatype MapResult = AllMapped | NoMemory | Remap

  /** The number of pages that [va, va + size) touches. */
  function Span(va: uint, size: uint): (r: nat)
    requires size > 0
  {
    (va + size - 1) / PGSIZE - va / PGSIZE + 1
  }

  /** `perm | PTE_P`. */
  function WithP(perm: nat): (r: nat)
    requires perm < PGSIZE
    ensures r < PGSIZE && r % 2 == 1 && r / 2 == perm / 2
  {
    if perm % 2 == 1 then perm else perm + 1
  }

  predicate IsHeld(use: map<nat, Use>, f: nat) { f in use && use[f].Held? }

  /** Pages f0 .. f0 + n that went into user memory at virtual pages first .. first + n. */
  predicate Moved(first: nat, n: nat, f0: nat, g: nat) { f0 <= g < f0 + n && first + (g - f0) < USERPAGES }

  /** The map of d has pages f0 .. at virtual pages first .. first + n and is otherwise as it was,
      and so are all other maps; the pages involved are no longer held, and tables were added. */
  ghost predicate Mapped(ram: Ram, use: map<nat, Use>, ram': Ram, use': map<nat, Use>, d: nat, first: nat, n: nat,
                         f0: nat, flags: nat)
    requires flags < PGSIZE
  {
    && |ram'| == |ram| && first + n <= NPAGES && f0 + n <= PAGE_LIMIT
    && (forall g :: g in use && !Moved(first, n, f0, g) ==> g in use' && use'[g] == use[g])
    && (forall g :: g in use && Moved(first, n, f0, g) ==>
          use[g].Held? && g in use' && use'[g].Kid? && use'[g].parent != d)
    && (forall g :: g in use' && g !in use ==> use'[g].Kid? && use'[g].parent == d)
    && (forall g :: g in use && g !in Tree(use, d) && g < |ram| ==> ram'[g] == ram[g])
    && (forall d': nat, v: nat :: IsDir(use, d') && d' < |ram| && v < NPAGES ==>
          Look(ram', d', v) == if d' == d && first <= v < first + n then EntryOf(f0 + (v - first), flags) else Look(ram,
               d', v))
  }

  lemma NothingMapped(ram: Ram, use: map<nat, Use>, d: nat, first: nat, f0: nat, flags: nat)
    requires first <= NPAGES && f0 <= PAGE_LIMIT && flags < PGSIZE
    ensures Mapped(ram, use, ram, use, d, first, 0, f0, flags)
  {
  }

  lemma MappedKeeps(ram: Ram, use: map<nat, Use>, ram': Ram, use': map<nat, Use>, d: nat, first: nat, n: nat, f0: nat,
                    flags: nat)
    requires flags < PGSIZE && Mapped(ram, use, ram', use', d, first, n, f0, flags) && IsDir(use, d) && d < |ram|
    ensures IsDir(use', d) && (IsHeld(use, f0 + n) ==> IsHeld(use', f0 + n))
    ensures first + n < NPAGES ==> Look(ram', d, first + n) == Look(ram, d, first + n)
  {
  }

  lemma LookIn(ram: Ram, use: map<nat, Use>, d: nat, t: nat, v: nat)
    requires Linked(ram, use) && v < NPAGES && IsTable(use, t) && use[t] == Kid(d, v / NENTRIES) && d < |ram|
    ensures t < |ram| && Look(ram, d, v) == Seen(ram[t][v % NENTRIES])
    ensures (Present(ram[t][v % NENTRIES]) <==> Look(ram, d, v) != 0)
  {
  }

  lemma MappedGrew(ram0: Ram, use0: map<nat, Use>, ram: Ram, use: map<nat, Use>, ram': Ram, use': map<nat, Use>,
                   d: nat, first: nat, n: nat, f0: nat, flags: nat)
    requires flags < PGSIZE && Mapped(ram0, use0, ram, use, d, first, n, f0, flags)
    requires Grew(ram, use, ram', use', d, {}) && SameMaps(ram, use, ram')
    ensures Mapped(ram0, use0, ram', use', d, first, n, f0, flags)
  {
    hide Look, EntryOf;
  }

  lemma MappedEntry(ram0: Ram, use0: map<nat, Use>, ram: Ram, use: map<nat, Use>, ram': Ram, use': map<nat, Use>,
                    d: nat, t: nat, v: nat, first: nat, n: nat, f: nat, flags: nat)
    requires flags < PGSIZE && flags % 2 == 1 && f < PAGE_LIMIT && f >= n && first + n == v < NPAGES
    requires Mapped(ram0, use0, ram, use, d, first, n, f - n, flags) && Linked(ram, use) && IsDir(use0, d)
    requires IsTable(use, t) && use[t] == Kid(d, v / NENTRIES) && t < |ram|
    requires (v < USERPAGES ==> IsHeld(use0, f) && IsHeld(use, f))
    requires ram' == ram[t := ram[t][v % NENTRIES := EntryOf(f, flags)]]
    requires use' == if v < USERPAGES then use[f := Kid(t, v % NENTRIES)] else use
    ensures Mapped(ram0, use0, ram', use', d, first, n + 1, f - n, flags)
  {
    hide Look, EntryOf, Linked, Present, FrameOf;
    forall d': nat, w: nat | IsDir(use0, d') && d' < |ram| && w < NPAGES
      ensures Look(ram', d', w) ==
        if d' == d && first <= w < first + (n + 1) then EntryOf(f - n + (w - first), flags) else Look(ram0, d', w)
    {
      LookEntry(ram, use, t, v % NENTRIES, EntryOf(f, flags), d', w);
    }
  }

  // ---- deallocuvm ----

  const KERNBASE := 0x8000_0000

  /** PGROUNDUP, as a page number. */
  function Up(x: nat): (r: nat)
    ensures x <= r * PGSIZE < x + PGSIZE
  {
    (x + PGSIZE - 1) / PGSIZE
  }

  /** The pages that the map of d has at virtual pages a .. b. */
  ghost function Frames(ram: Ram, d: nat, a: nat, b: nat): (r: set<nat>)
    requires d < |ram| && b <= NPAGES
  {
    set v: nat | a <= v < b && Look(ram, d, v) != 0 :: FrameOf(Look(ram, d, v))
  }

  /** The map of d has nothing at virtual pages a .. b any more and is otherwise as it was, and so
      are all other maps; the pages that were there are no longer in use. */
  ghost predicate Unmapped(ram: Ram, use: map<nat, Use>, ram': Ram, use': map<nat, Use>, d: nat, a: nat, b: nat)
  {
    && |ram'| == |ram| && d < |ram| && a <= b <= USERPAGES
    && use' == use - Frames(ram, d, a, b)
    && (forall g :: g in use' && g !in Tree(use, d) && g < |ram| ==> ram'[g] == ram[g])
    && (forall d': nat, v: nat :: IsDir(use, d') && d' < |ram| && v < NPAGES ==>
          Look(ram', d', v) == if d' == d && a <= v < b then 0 else Look(ram, d', v))
  }

  lemma NothingUnmapped(ram: Ram, use: map<nat, Use>, d: nat, a: nat)
    requires d < |ram| && a <= USERPAGES
    ensures Unmapped(ram, use, ram, use, d, a, a)
  {
  }

  ghost predicate SameDirs(use: map<nat, Use>, use': map<nat,
                           Use>) { forall d: nat :: IsDir(use, d) ==> IsDir(use', d) }

  /** No directory is a page of user memory. */
  lemma UnmappedKeeps(ram: Ram, use: map<nat, Use>, ram': Ram, use': map<nat, Use>, d: nat, a: nat, b: nat)
    requires Unmapped(ram, use, ram', use', d, a, b) && Linked(ram, use) && IsDir(use, d)
    ensures SameDirs(use, use')
  {
    hide Look, Linked, FrameOf;
    forall d': nat | IsDir(use, d')
      ensures d' !in Frames(ram, d, a, b)
    {
      if d' in Frames(ram, d, a, b) {
        var v: nat :| a <= v < b && Look(ram, d, v) != 0 && FrameOf(Look(ram, d, v)) == d';
        SeenIsUserPage(ram, use, d, v);
      }
    }
  }

  lemma NoTable(ram: Ram, d: nat, a: nat, b: nat)
    requires d < |ram| && a < NPAGES && !Present(ram[d][a / NENTRIES]) && b <= (a / NENTRIES + 1) * NENTRIES
    ensures forall v: nat :: a <= v < b && v < NPAGES ==> Look(ram, d, v) == 0
  {
  }

  lemma UnmapNone(ram0: Ram, use0: map<nat, Use>, ram: Ram, use: map<nat, Use>, d: nat, a: nat, b: nat, c: nat)
    requires Unmapped(ram0, use0, ram, use, d, a, b) && b <= c <= USERPAGES && IsDir(use0, d)
    requires forall v: nat :: b <= v < c ==> Look(ram, d, v) == 0
    ensures Unmapped(ram0, use0, ram, use, d, a, c)
  {
  }

  lemma UnmapOne(ram0: Ram, use0: map<nat, Use>, ram: Ram, use: map<nat, Use>, d: nat, t: nat, a: nat, b: nat,
                 page: Page)
    requires Unmapped(ram0, use0, ram, use, d, a, b) && Linked(ram, use) && IsDir(use0, d) && SameDirs(use0, use)
    requires b < USERPAGES
    requires IsTable(use, t) && use[t] == Kid(d, b / NENTRIES) && t < |ram| && Present(ram[t][b % NENTRIES])
    ensures var f, j := FrameOf(ram[t][b % NENTRIES]), b % NENTRIES;
      f < |ram| && Unmapped(ram0, use0, ram[f := page][t := ram[t][j := 0]], use - {f}, d, a, b + 1)
  {
    hide Look, Linked;
    var f, j := FrameOf(ram[t][b % NENTRIES]), b % NENTRIES;
    InRam(ram, use);
    Detach(ram, use, t, j, page);
    LookIn(ram, use, d, t, b);
    WriteLeaf(ram, use, f, page);
    assert Frames(ram0, d, a, b + 1) == Frames(ram0, d, a, b) + {f} by { assert Look(ram0, d, b) == ram[t][j]; }
    var ram1 := ram[f := page];
    var ram' := ram1[t := ram1[t][j := 0]];
    forall d': nat, v: nat | IsDir(use0, d') && d' < |ram| && v < NPAGES
      ensures Look(ram', d', v) == if d' == d && a <= v < b + 1 then 0 else Look(ram0, d', v)
    {
      LookLeaf(ram, use, ram1, d', v);
      LookEntry(ram1, use, t, j, 0, d', v);
    }
  }

  // ---- allocuvm ----

  /** What allocuvm returns: a size, or 0 for failure, or the remap panic. */
  datatype AllocResult = Size(sz: uint) | Zero | Remapped

  ghost predicate Vacant(ram: Ram, d: nat, a: nat, b: nat)
  {
    d < |ram| && forall v: nat :: a <= v < b && v < NPAGES ==> Look(ram, d, v) == 0
  }

  /** Virtual pages a .. b of d have writable, zeroed user pages that were free before, and nothing
      else has changed but for tables of d, and the pages `held`. */
  ghost predicate Allocated(ram: Ram, use: map<nat, Use>, ram': Ram, use': map<nat, Use>, d: nat, a: nat, b: nat,
                            held: set<nat>)
  {
    && |ram'| == |ram| && d < |ram| && a <= b <= USERPAGES
    && (forall g :: g in use ==> g in use' && use'[g] == use[g])
    && (forall g :: g in use && g !in Tree(use, d) && g < |ram| ==> ram'[g] == ram[g])
    && (forall g :: g in use' && g !in use ==>
          g in held || (use'[g].Kid? && use'[g].parent == d) || g in Frames(ram', d, a, b))
    && (forall v: nat :: a <= v < b ==> NewPage(ram', use, use', d, Look(ram', d, v)))
    && (forall d': nat, v: nat :: IsDir(use, d') && d' < |ram| && v < NPAGES && !(d' == d && a <= v < b) ==>
          Look(ram', d', v) == Look(ram, d', v))
  }

  ghost predicate NewPage(ram: Ram, use: map<nat, Use>, use': map<nat, Use>, d: nat, e: uint)
  {
    && e != 0 && FlagsOf(e) == 7 && FrameOf(e) in use' && FrameOf(e) !in use && FrameOf(e) !in Tree(use', d)
    && FrameOf(e) < |ram| && NoEntries(ram[FrameOf(e)])
  }

  lemma NothingAllocated(ram: Ram, use: map<nat, Use>, d: nat, a: nat)
    requires d < |ram| && a <= USERPAGES
    ensures Allocated(ram, use, ram, use, d, a, a, {})
  {
  }

  /** The maps after a page was taken and filled and n pages were mapped at v. */
  lemma GrowLooks(ram: Ram, use: map<nat, Use>, ram': Ram, use': map<nat, Use>, d: nat, v: nat, n: nat, mem: nat,
                  page: Page, flags: nat, d': nat, w: nat)
    requires Linked(ram, use) && mem !in use && 0 < mem < |ram| && IsDir(use, d') && w < NPAGES && d' < |ram|
    requires flags < PGSIZE
    requires Mapped(ram[mem := page], use[mem := Held], ram', use', d, v, n, mem, flags)
    ensures |ram'| == |ram| && Look(ram[mem := page], d', w) == Look(ram, d', w)
    ensures Look(ram', d', w) == if d' == d && v <= w < v + n then EntryOf(mem + (w - v), flags) else Look(ram, d', w)
  {
  }

  lemma GrowOldPage(ram0: Ram, use0: map<nat, Use>, ram: Ram, use: map<nat, Use>, ram': Ram, use': map<nat, Use>,
                    d: nat, v: nat, n: nat, mem: nat, e: uint)
    requires mem !in use && 0 < mem < |ram| && n <= 1 && NewPage(ram, use0, use, d, e)
    requires Mapped(ram[mem := ZERO], use[mem := Held], ram', use', d, v, n, mem, 7)
    ensures NewPage(ram', use0, use', d, e)
  {
  }

  lemma GrowNewPage(ram0: Ram, use0: map<nat, Use>, ram: Ram, use: map<nat, Use>, ram': Ram, use': map<nat, Use>,
                    d: nat, v: nat, mem: nat)
    requires mem !in use && 0 < mem < |ram| && mem < PAGE_LIMIT && v < USERPAGES && IsDir(use, d)
    requires forall g :: g in use0 ==> g in use
    requires Mapped(ram[mem := ZERO], use[mem := Held], ram', use', d, v, 1, mem, 7)
    ensures NewPage(ram', use0, use', d, EntryOf(mem, 7))
  {
  }

  /** Pages in use after the step. */
  lemma GrowUses(ram0: Ram, use0: map<nat, Use>, ram: Ram, use: map<nat, Use>, ram': Ram, use': map<nat, Use>,
                 d: nat, first: nat, v: nat, n: nat, mem: nat)
    requires mem !in use && 0 < mem < |ram| && n <= 1 && IsDir(use0, d)
    requires Allocated(ram0, use0, ram, use, d, first, v, {})
    requires Mapped(ram[mem := ZERO], use[mem := Held], ram', use', d, v, n, mem, 7)
    ensures |ram'| == |ram| && mem !in use0 && IsDir(use', d) && (n == 0 ==> IsHeld(use', mem))
    ensures forall g :: g in use0 ==> g in use' && use'[g] == use0[g]
    ensures forall g :: g in use0 && g !in Tree(use0, d) && g < |ram| ==> ram'[g] == ram0[g]
    ensures forall g :: g in use' && g !in use0 ==>
      g == mem || (use'[g].Kid? && use'[g].parent == d) || g in Frames(ram, d, first, v)
  {
    hide Look, Frames;
    var use1 := use[mem := Held];
    forall g | g in use
      ensures g in use' && use'[g] == use[g] && (g !in Tree(use, d) && g < |ram| ==> ram'[g] == ram[g])
    {
      assert g in use1 && !Moved(v, n, mem, g);
    }
    forall g | g in use0 && g !in Tree(use0, d) && g < |ram|
      ensures ram'[g] == ram0[g]
    {
      assert g !in Tree(use, d);
    }
    assert mem in use1 && (n == 0 ==> !Moved(v, n, mem, mem));
  }

  lemma GrowStep(ram0: Ram, use0: map<nat, Use>, ram: Ram, use: map<nat, Use>, ram': Ram, use': map<nat, Use>,
                 d: nat, first: nat, v: nat, n: nat, mem: nat)
    requires Linked(ram, use) && mem !in use && 0 < mem < |ram| && mem < PAGE_LIMIT && n <= 1 && IsDir(use0, d)
    requires v < USERPAGES
    requires Allocated(ram0, use0, ram, use, d, first, v, {})
    requires Mapped(ram[mem := ZERO], use[mem := Held], ram', use', d, v, n, mem, 7)
    ensures n == 1 ==> Allocated(ram0, use0, ram', use', d, first, v + 1, {})
    ensures n == 0 ==> Allocated(ram0, use0, ram', use', d, first, v, {mem}) && IsHeld(use', mem)
    ensures mem !in use0 && IsDir(use', d) && Look(ram[mem := ZERO], d, v) == Look(ram0, d, v)
  {
    hide Look, Linked, Mapped, EntryOf, NewPage, FrameOf;
    GrowUses(ram0, use0, ram, use, ram', use', d, first, v, n, mem);
    forall d': nat, w: nat | IsDir(use0, d') && d' < |ram| && w < NPAGES
      ensures Look(ram', d', w) == if d' == d && v <= w < v + n then EntryOf(mem + (w - v), 7) else Look(ram, d', w)
      ensures Look(ram[mem := ZERO], d', w) == Look(ram, d', w) && |ram'| == |ram|
    {
      GrowLooks(ram, use, ram', use', d, v, n, mem, ZERO, 7, d', w);
    }
    forall w: nat | first <= w < v
      ensures NewPage(ram', use0, use', d, Look(ram', d, w))
    {
      GrowOldPage(ram0, use0, ram, use, ram', use', d, v, n, mem, Look(ram, d, w));
    }
    if n == 1 { GrowNewPage(ram0, use0, ram, use, ram', use', d, v, mem); }
    GrowFrames(ram, ram', d, first, v, n, mem);
  }

  lemma GrowFrames(ram: Ram, ram': Ram, d: nat, first: nat, v: nat, n: nat, mem: nat)
    requires d < |ram| == |ram'| && n <= 1 && first <= v < USERPAGES && 0 < mem < PAGE_LIMIT
    requires forall w: nat :: w < NPAGES ==>
      Look(ram', d, w) == if v <= w < v + n then EntryOf(mem + (w - v), 7) else Look(ram, d, w)
    ensures Frames(ram, d, first, v) <= Frames(ram', d, first, v + n)
    ensures (n == 1 ==> mem in Frames(ram', d, first, v + n))
  {
    hide Look;
    if n == 1 { assert Look(ram', d, v) == EntryOf(mem, 7); }
    forall g | g in Frames(ram, d, first, v)
      ensures g in Frames(ram', d, first, v + n)
    {
      var w: nat :| first <= w < v && Look(ram, d, w) != 0 && FrameOf(Look(ram, d, w)) == g;
      assert Look(ram', d, w) == Look(ram, d, w);
    }
  }

  /** Unmapping what allocuvm had mapped leaves the maps as they were. */
  lemma AllocUndone(ram0: Ram, use0: map<nat, Use>, ram1: Ram, use1: map<nat, Use>, ram2: Ram, use2: map<nat, Use>,
                    d: nat, first: nat, a: nat, b: nat, held: set<nat>)
    requires Allocated(ram0, use0, ram1, use1, d, first, a, held) && Unmapped(ram1, use1, ram2, use2, d, first, b)
    requires Vacant(ram0, d, first, b) && a <= b && IsDir(use0, d)
    ensures Grew(ram0, use0, ram2, use2, d, held) && SameMaps(ram0, use0, ram2)
  {
    hide Look, FrameOf, FlagsOf;
    forall g | g in Frames(ram1, d, first, b)
      ensures g in Frames(ram1, d, first, a) && g !in use0
    {
      var w: nat :| first <= w < b && Look(ram1, d, w) != 0 && FrameOf(Look(ram1, d, w)) == g;
      assert w < a;
      assert NewPage(ram1, use0, use1, d, Look(ram1, d, w));
    }
    forall g | g in Frames(ram1, d, first, a)
      ensures g in Frames(ram1, d, first, b)
    {
      var w: nat :| first <= w < a && Look(ram1, d, w) != 0 && FrameOf(Look(ram1, d, w)) == g;
    }
    forall g | g in use0 && g !in Tree(use0, d) && g < |ram0|
      ensures ram2[g] == ram0[g]
    {
      assert g in use2 && g !in Tree(use1, d);
    }
  }

  /** The map of d has nothing at virtual pages a .. b, and is otherwise as it was, and so are all other
      maps. */
  ghost predicate Emptied(ram: Ram, use: map<nat, Use>, ram': Ram, d: nat, a: nat, b: nat)
  {
    && |ram'| == |ram|
    && forall d': nat, v: nat :: IsDir(use, d') && d' < |ram| && v < NPAGES ==>
        Look(ram', d', v) == if d' == d && a <= v < b then 0 else Look(ram, d', v)
  }

  /** What a failed allocuvm leaves: the range is empty, whatever was there before. */
  lemma AllocEmptied(ram0: Ram, use0: map<nat, Use>, ram1: Ram, use1: map<nat, Use>, ram2: Ram, use2: map<nat, Use>,
                     ram3: Ram,
                     d: nat, first: nat, a: nat, b: nat, held: set<nat>)
    requires Allocated(ram0, use0, ram1, use1, d, first, a, held) && Unmapped(ram1, use1, ram2, use2, d, first, b)
    requires a <= b && IsDir(use0, d) && SameMaps(ram2, use2, ram3) && SameDirs(use1, use2)
    ensures Emptied(ram0, use0, ram3, d, first, b)
  {
    hide Look, NewPage, Frames;
  }

  /** So every map is as it was if and only if the range was empty. */
  lemma EmptiedIffVacant(ram: Ram, use: map<nat, Use>, ram': Ram, d: nat, a: nat, b: nat)
    requires Emptied(ram, use, ram', d, a, b) && IsDir(use, d) && d < |ram|
    ensures SameMaps(ram, use, ram') <==> Vacant(ram, d, a, b)
  {
    hide Look;
    if SameMaps(ram, use, ram') {
      forall v: nat | a <= v < b && v < NPAGES
        ensures Look(ram, d, v) == 0
      {
        assert Look(ram', d, v) == Look(ram, d, v);
      }
    }
  }

  /** No held page is a page of user memory. */
  lemma HeldStays(ram: Ram, use: map<nat, Use>, ram': Ram, use': map<nat, Use>, d: nat, a: nat, b: nat, mem: nat)
    requires Unmapped(ram, use, ram', use', d, a, b) && Linked(ram, use) && IsDir(use, d) && IsHeld(use, mem)
    ensures IsHeld(use', mem)
  {
  }

  lemma DropHeld(ram0: Ram, use0: map<nat, Use>, ram: Ram, use: map<nat, Use>, ram': Ram, d: nat, mem: nat)
    requires Grew(ram0, use0, ram, use, d, {mem}) && SameMaps(ram0, use0, ram) && mem !in use0 && mem < |ram|
    requires |ram'| == |ram| && ram' == ram[mem := ram'[mem]] && SameMaps(ram, use, ram')
    ensures Grew(ram0, use0, ram', use - {mem}, d, {}) && SameMaps(ram0, use0, ram')
  {
  }

  lemma NotVacant(ram: Ram, d: nat, a: nat, v: nat, b: nat)
    requires d < |ram| && a <= v < b && v < NPAGES && Look(ram, d, v) != 0
    ensures !Vacant(ram, d, a, b)
  {
  }

  lemma LeafMaps(ram: Ram, use: map<nat, Use>, f: nat, page: Page)
    requires Linked(ram, use) && f < |ram| && !IsDir(use, f) && !IsTable(use, f)
    ensures SameMaps(ram, use, ram[f := page])
  {
  }

  // ---- freevm ----

  /** The pages in use are as they were. */
  ghost predicate SamePages(ram: Ram, ram': Ram, use: map<nat, Use>)
  {
    |ram'| == |ram| && forall g :: g in use && g < |ram| ==> ram'[g] == ram[g]
  }

  /** The tables in the first i entries of directory d. */
  ghost function Tables(use: map<nat, Use>, d: nat, i: nat): (r: set<nat>)
  {
    set f | f in use && use[f].Kid? && use[f].parent == d && use[f].slot < i
  }

  lemma TablesStart(use: map<nat, Use>, d: nat)
    ensures Tables(use, d, 0) == {} && use - Tables(use, d, 0) == use
  {
  }

  lemma TablesNext(ram: Ram, use: map<nat, Use>, d: nat, i: nat)
    requires Linked(ram, use) && IsDir(use, d) && i < NENTRIES && d < |ram|
    ensures d in use - Tables(use, d, i)
    ensures if Present(ram[d][i])
      then var t := FrameOf(ram[d][i]);
        t != d && t in use - Tables(use, d, i) && use - Tables(use, d, i + 1) == use - Tables(use, d, i) - {t}
      else use - Tables(use, d, i + 1) == use - Tables(use, d, i)
  {
  }

  lemma DirLeft(use: map<nat, Use>, d: nat)
    requires IsDir(use, d)
    ensures d in use - Tables(use, d, NENTRIES)
  {
  }

  lemma TreeIs(ram: Ram, use: map<nat, Use>, d: nat)
    requires Linked(ram, use) && IsDir(use, d)
    ensures use - Tree(use, d) == use - Tables(use, d, NENTRIES) - {d}
  {
  }

  lemma OwnedIs(ram: Ram, use: map<nat, Use>, d: nat)
    requires Linked(ram, use) && IsDir(use, d) && d < |ram|
    ensures var use' := use - Frames(ram, d, 0, USERPAGES);
      use' - Tree(use', d) == use - Owned(use, d)
  {
    hide Linked, Look, FrameOf;
    var fr := Frames(ram, d, 0, USERPAGES);
    forall f | f in fr
      ensures f in Owned(use, d) && f !in Tree(use, d)
    {
      var v: nat :| v < USERPAGES && Look(ram, d, v) != 0 && FrameOf(Look(ram, d, v)) == f;
      SeenIsUserPage(ram, use, d, v);
    }
    forall f | f in Owned(use, d) && f !in Tree(use, d)
      ensures f in fr
    {
      assert IsTable(use, use[f].parent);
      UserPageSeen(ram, use, f);
      var t := use[f].parent;
      var v := use[t].slot * NENTRIES + use[f].slot;
      assert Look(ram, d, v) != 0;
    }
    assert Tree(use - fr, d) == Tree(use, d);
    assert Owned(use, d) == fr + Tree(use, d);
  }

  lemma DropAll(ram0: Ram, use0: map<nat, Use>, ram1: Ram, use1: map<nat, Use>, ram2: Ram, ram3: Ram, d: nat)
    requires Linked(ram0, use0) && Linked(ram1, use1) && IsDir(use0, d) && IsDir(use1, d) && d < |ram0|
    requires Unmapped(ram0, use0, ram1, use1, d, 0, USERPAGES)
    requires SamePages(ram1, ram2, use1 - Tables(use1, d, NENTRIES))
    requires |ram3| == |ram2| && d < |ram2| && ram3 == ram2[d := ram3[d]]
    ensures var use3 := use1 - Tables(use1, d, NENTRIES) - {d};
      use3 == use0 - Owned(use0, d) && Linked(ram3, use3) && SamePages(ram0, ram3, use3)
  {
    hide Linked, Look, Tables, Owned;
    TreeIs(ram1, use1, d);
    OwnedIs(ram0, use0, d);
    var use3 := use1 - Tables(use1, d, NENTRIES) - {d};
    forall g | g in use3 && g < |ram0|
      ensures ram3[g] == ram1[g] == ram0[g]
    {
      assert g in use1 - Tables(use1, d, NENTRIES) && g !in Tree(use1, d) && g !in Tree(use0, d);
    }
    InRam(ram1, use1);
    forall f | f in use1 && f !in Tree(use1, d)
      ensures ram3[f] == ram1[f]
    {
      assert f in use3;
    }
    DropDir(ram1, use1, d, ram3);
  }

  // ---- setupkvm ----

  /** An address space d made since, with all its pages, and pages `held`; all other pages are in
      use as before and are as they were. */
  ghost predicate Space(ram0: Ram, use0: map<nat, Use>, ram: Ram, use: map<nat, Use>, d: nat, held: set<nat>)
  {
    && d !in use0 && IsDir(use, d) && SamePages(ram0, ram, use0)
    && (forall g :: g in use0 ==> g in use && use[g] == use0[g])
    && (forall g :: g in use && g !in use0 ==> g in held || g in Owned(use, d))
  }

  /** Pages that were in use before d cannot belong to it. */
  lemma NotOwned(ram0: Ram, use0: map<nat, Use>, use: map<nat, Use>, d: nat)
    requires Linked(ram0, use0) && d !in use0 && forall g :: g in use0 ==> g in use && use[g] == use0[g]
    ensures forall g :: g in use0 ==> g !in Owned(use, d) && g !in Tree(use, d)
  {
  }

  /** Mapping pages in a new address space. */
  lemma SpaceMapped(ram0: Ram, use0: map<nat, Use>, ram: Ram, use: map<nat, Use>, ram': Ram, use': map<nat, Use>,
                    d: nat, first: nat, n: nat, f0: nat, flags: nat, held: set<nat>, held': set<nat>)
    requires flags < PGSIZE && flags % 2 == 1 && Linked(ram0, use0) && Linked(ram, use) && Linked(ram', use')
    requires Space(ram0, use0, ram, use, d, held) && Mapped(ram, use, ram', use', d, first, n, f0, flags)
    requires forall g: nat :: Moved(first, n, f0, g) ==> g in held
    requires forall g: nat :: g in held ==> g !in use0 && (Moved(first, n, f0, g) || g in held')
    ensures Space(ram0, use0, ram', use', d, held')
  {
    hide Linked, Look, EntryOf, Owned;
    InRam(ram, use);
    NotOwned(ram0, use0, use, d);
    forall g | g in use0
      ensures g in use' && use'[g] == use0[g] && (g < |ram0| ==> ram'[g] == ram0[g])
    {
      assert !Moved(first, n, f0, g) && g !in Tree(use, d);
    }
    forall g | g in use' && g !in use0
      ensures g in held' || g in Owned(use', d)
    {
      SpaceOwns(ram, use, ram', use', d, first, n, f0, flags, g);
    }
  }

  lemma SpaceOwns(ram: Ram, use: map<nat, Use>, ram': Ram, use': map<nat, Use>, d: nat, first: nat, n: nat, f0: nat,
                  flags: nat, g: nat)
    requires flags < PGSIZE && flags % 2 == 1 && Linked(ram, use) && Linked(ram', use')
    requires Mapped(ram, use, ram', use', d, first, n, f0, flags) && IsDir(use, d)
    requires g in use'
    ensures g !in use ==> g in Owned(use', d)
    ensures g in Owned(use, d) ==> g in Owned(use', d)
    ensures g in use && Moved(first, n, f0, g) ==> g in Owned(use', d)
  {
    hide Linked, Look, EntryOf, Present;
    InRam(ram, use);
    if g in use && Moved(first, n, f0, g) {
      var v := first + (g - f0);
      assert Look(ram', d, v) == EntryOf(g, flags);
      assert IsDir(use', d);
      LookPresent(ram', d, v);
      SeenIsUserPage(ram', use', d, v);
    } else if g in Owned(use, d) {
      OwnedStays(ram, use, use', d, first, n, f0, g);
    }
  }

  lemma LookPresent(ram: Ram, d: nat, v: nat)
    requires d < |ram| && v < NPAGES
    ensures Look(ram, d, v) != 0 ==> Present(Look(ram, d, v))
  {
  }

  lemma OwnedStays(ram: Ram, use: map<nat, Use>, use': map<nat, Use>, d: nat, first: nat, n: nat, f0: nat, g: nat)
    requires Linked(ram, use) && IsDir(use, d) && g in Owned(use, d)
    requires forall h :: h in use && !Moved(first, n, f0, h) ==> h in use' && use'[h] == use[h]
    requires forall h :: h in use && Moved(first, n, f0, h) ==> use[h].Held?
    ensures g in Owned(use', d)
  {
  }

  // The kernel's part of every map.

  datatype Region = Region(virt: uint, physStart: uint, physEnd: uint, perm: nat)

  const EXTMEM := 0x10_0000
  const PHYSTOP := 0xE00_0000
  const DEVSPACE := 0xFE00_0000
  const KERNLINK := KERNBASE + EXTMEM

  /** Where the linker puts the kernel's data. */
  predicate DataOk(data: uint) { data % PGSIZE == 0 && KERNLINK < data < KERNBASE + PHYSTOP }

  function KMAP(data: uint, k: nat): (r: Region)
    requires DataOk(data) && k < 4
  {
    if k == 0 then Region(KERNBASE, 0, EXTMEM, 2)
    else if k == 1 then Region(KERNLINK, KERNLINK - KERNBASE, data - KERNBASE, 0)
    else if k == 2 then Region(data, data - KERNBASE, PHYSTOP, 2)
    else Region(DEVSPACE, DEVSPACE, 0, 2)
  }

  /** Physical memory from KERNBASE on, its text part read-only, and the devices where they are. */
  function KernelEntry(dataPage: nat, v: nat): (e: uint)
    requires 0x8_0100 <= dataPage < 0x8_E000 && v < NPAGES
  {
    if v < 0x8_0000 then 0
    else if v < 0x8_0100 then EntryOf(v - 0x8_0000, 3)
    else if v < dataPage then EntryOf(v - 0x8_0000, 1)
    else if v < 0x8_E000 then EntryOf(v - 0x8_0000, 3)
    else if v < 0xF_E000 then 0
    else EntryOf(v, 3)
  }

  /** The end of the k-th region. */
  function RegionEnd(dataPage: nat, k: nat): (r: nat)
  {
    if k == 0 then 0x8_0000 else if k == 1 then 0x8_0100 else if k == 2 then dataPage
    else if k == 3 then 0x8_E000 else NPAGES
  }

  /** The first k regions are mapped. */
  ghost predicate KernelUpTo(ram: Ram, d: nat, dataPage: nat, k: nat)
  {
    && d < |ram| && 0x8_0100 <= dataPage < 0x8_E000
    && forall v: nat :: v < NPAGES ==>
          Look(ram, d, v) == if v < RegionEnd(dataPage, k) then KernelEntry(dataPage, v) else 0
  }

  // ---- how many pages the kernel's map takes ----

  /** Entries 512 to 567 and 1016 to 1023 of a directory, and the directory itself. */
  const KVM_PAGES := 65

  /** Tables of the first k regions. */
  function KernelTables(dataPage: nat, k: nat): (r: int)
  {
    if k == 0 then 0 else if k < 4 then (RegionEnd(dataPage, k) - 1) / NENTRIES - 511 else 64
  }

  /** The directory has them. */
  ghost predicate KernelWalked(dir: Page, dataPage: nat, k: nat)
  {
    && (forall i :: 0 <= i < 512 ==> !Present(dir[i]))
    && (k < 4 ==> forall i :: 512 <= i < NENTRIES ==> (Present(dir[i]) <==> i < 512 + KernelTables(dataPage, k)))
  }

  /** What the next region takes, and that it takes no less if it is cut short. */
  lemma KernelTablesNext(dir: Page, data: uint, k: nat)
    requires DataOk(data) && k < 4 && KernelWalked(dir, data / PGSIZE, k)
    ensures var first, end := KMAP(data, k).virt / PGSIZE, RegionEnd(data / PGSIZE, k + 1);
      end <= NPAGES && Lacking(dir, first, end) == KernelTables(data / PGSIZE, k + 1) - KernelTables(data / PGSIZE, k)
    ensures KernelTables(data / PGSIZE, k + 1) <= 64
  {
    hide Present, Absent;
    var dp := data / PGSIZE;
    var first, end := KMAP(data, k).virt / PGSIZE, RegionEnd(dp, k + 1);
    assert data == dp * PGSIZE && 0x8_0100 < dp < 0x8_E000;
    var i, m, j := first / NENTRIES, if k < 3 then 512 + KernelTables(dp, k) else 1016, (end - 1) / NENTRIES + 1;
    AbsentSplit(dir, i, m, j);
  }

  lemma KernelCountStart(dir: Page, dataPage: nat)
    requires NoEntries(dir)
    ensures KernelWalked(dir, dataPage, 0) && KernelTables(dataPage, 0) == 0
  {
  }

  lemma KernelCountDone(dir: Page, dataPage: nat)
    requires KernelWalked(dir, dataPage, 4)
    ensures KernelTables(dataPage, 4) + 1 == KVM_PAGES && forall i :: 0 <= i < 512 ==> !Present(dir[i])
  {
  }

  /** What a copy of n pages of user memory takes: the kernel's map, the pages, and their tables. */
  function CopyNeed(n: nat): (r: nat) { KVM_PAGES + n + (if n == 0 then 0 else (n - 1) / NENTRIES + 1) }

  lemma UserTables(dir: Page, n: nat)
    requires n <= USERPAGES && forall i :: 0 <= i < 512 ==> !Present(dir[i])
    ensures KVM_PAGES + n + Lacking(dir, 0, n) == CopyNeed(n)
  {
    hide Present, Absent;
    if n > 0 { AbsentSplit(dir, 0, 0, (n - 1) / NENTRIES + 1); }
  }

  lemma KernelWalkedNext(dir: Page, dir': Page, data: uint, k: nat)
    requires DataOk(data) && k < 4 && KernelWalked(dir, data / PGSIZE, k)
    requires Walked(dir, dir', KMAP(data, k).virt / PGSIZE, RegionEnd(data / PGSIZE, k + 1))
    ensures KernelWalked(dir', data / PGSIZE, k + 1)
  {
    hide Present;
    var dp := data / PGSIZE;
    assert data == dp * PGSIZE && 0x8_0100 < dp < 0x8_E000;
  }

  lemma KernelStart(ram: Ram, d: nat, dataPage: nat)
    requires d < |ram| && 0x8_0100 <= dataPage < 0x8_E000 && forall v: nat :: v < NPAGES ==> Look(ram, d, v) == 0
    ensures KernelUpTo(ram, d, dataPage, 0)
  {
  }

  lemma KernelDone(ram: Ram, d: nat, dataPage: nat)
    requires KernelUpTo(ram, d, dataPage, 4)
    ensures d < |ram| && forall v: nat :: v < NPAGES ==> Look(ram, d, v) == KernelEntry(dataPage, v)
  {
  }

  lemma RegionFits(data: uint, k: nat)
    requires DataOk(data) && k < 4
    ensures var reg := KMAP(data, k);
      var size := (reg.physEnd - reg.physStart) % UINT_LIMIT;
      && 0 < size < UINT_LIMIT && reg.virt + size <= UINT_LIMIT && reg.physStart % PGSIZE == 0
      && FrameOf(reg.physStart) + Span(reg.virt, size) <= PAGE_LIMIT
      && (forall g: nat :: !Moved(reg.virt / PGSIZE, Span(reg.virt, size), FrameOf(reg.physStart), g))
      && RegionEnd(data / PGSIZE, k) <= reg.virt / PGSIZE
      && reg.virt / PGSIZE + Span(reg.virt, size) == RegionEnd(data / PGSIZE, k + 1)
      && 0x8_0100 <= data / PGSIZE < 0x8_E000
  {
    var dp := data / PGSIZE;
    assert data == dp * PGSIZE && 0x8_0100 < dp < 0x8_E000;
    if k == 1 { PagesOf(0x8_0100, dp); }
    if k == 2 { PagesOf(dp, 0x8_E000); }
  }

  /** Sizes of page-aligned ranges. */
  lemma PagesOf(first: nat, end: nat)
    requires first < end <= PAGE_LIMIT
    ensures first * PGSIZE / PGSIZE == first && (end * PGSIZE - 1) / PGSIZE == end - 1
  {
  }

  /** One entry of a region. */
  lemma RegionEntry(data: uint, k: nat, v: nat)
    requires DataOk(data) && k < 4
    requires KMAP(data, k).virt / PGSIZE <= v < RegionEnd(data / PGSIZE, k + 1)
    ensures var reg := KMAP(data, k);
      var f := FrameOf(reg.physStart) + (v - reg.virt / PGSIZE);
      f < PAGE_LIMIT && v < NPAGES && 0x8_0100 <= data / PGSIZE < 0x8_E000
      && KernelEntry(data / PGSIZE, v) == EntryOf(f, WithP(reg.perm))
  {
  }

  lemma RegionGap(data: uint, k: nat, v: nat)
    requires DataOk(data) && k < 4 && RegionEnd(data / PGSIZE, k) <= v < KMAP(data, k).virt / PGSIZE
    ensures v < NPAGES && 0x8_0100 <= data / PGSIZE < 0x8_E000 && KernelEntry(data / PGSIZE, v) == 0
  {
  }

  lemma KernelStep(ram0: Ram, use0: map<nat, Use>, ram: Ram, use: map<nat, Use>, ram': Ram, use': map<nat, Use>,
                   d: nat, data: uint, k: nat, n: nat)
    requires Linked(ram0, use0) && Linked(ram, use) && Linked(ram', use') && DataOk(data) && k < 4
    requires Space(ram0, use0, ram, use, d, {}) && KernelUpTo(ram, d, data / PGSIZE, k)
    requires var reg := KMAP(data, k);
      && n <= RegionEnd(data / PGSIZE, k + 1) - reg.virt / PGSIZE
      && Mapped(ram, use, ram', use', d, reg.virt / PGSIZE, n, FrameOf(reg.physStart), WithP(reg.perm))
    ensures Space(ram0, use0, ram', use', d, {}) && IsDir(use', d)
    ensures var first := KMAP(data, k).virt / PGSIZE;
      if first + n == RegionEnd(data / PGSIZE, k + 1) then KernelUpTo(ram', d, data / PGSIZE, k + 1)
      else d < |ram| && first + n < NPAGES && Look(ram, d, first + n) == 0
  {
    hide Linked, Look, EntryOf, Owned, KernelEntry, KMAP, DataOk, FrameOf;
    RegionFits(data, k);
    var reg, dp := KMAP(data, k), data / PGSIZE;
    var first := reg.virt / PGSIZE;
    SpaceMapped(ram0, use0, ram, use, ram', use', d, first, n, FrameOf(reg.physStart), WithP(reg.perm), {}, {});
    if first + n == RegionEnd(dp, k + 1) {
      forall v: nat | v < NPAGES
        ensures Look(ram', d, v) == if v < RegionEnd(dp, k + 1) then KernelEntry(dp, v) else 0
      {
        if first <= v < first + n {
          RegionEntry(data, k, v);
        } else if RegionEnd(dp, k) <= v < first {
          RegionGap(data, k, v);
        }
      }
    }
  }

  // ---- copyuvm ----

  datatype CopyResult = Copy(dir: nat) | NoSpace | Missing

  /** e' names a page that was free before, with the bytes and the flags of e. */
  ghost predicate CopyOf(ram0: Ram, use0: map<nat, Use>, e: uint, ram: Ram, use: map<nat, Use>, d': nat, e': uint)
  {
    && e != 0 && e' != 0 && FlagsOf(e') == FlagsOf(e) && FrameOf(e') in use && FrameOf(e') !in use0
    && FrameOf(e') !in Tree(use, d') && FrameOf(e) < |ram0|
    && FrameOf(e') < |ram| && ram[FrameOf(e')] == ram0[FrameOf(e)]
  }

  /** d' has copies of the first n pages of d, and otherwise the kernel's map. */
  ghost predicate Copied(ram0: Ram, use0: map<nat, Use>, ram: Ram, use: map<nat, Use>, d: nat, d': nat, n: nat,
                         dataPage: nat)
  {
    && d < |ram0| && d' < |ram| && n <= USERPAGES && 0x8_0100 <= dataPage < 0x8_E000
    && (forall v: nat :: v < n ==> CopyOf(ram0, use0, Look(ram0, d, v), ram, use, d', Look(ram, d', v)))
    && (forall v: nat :: n <= v < NPAGES ==> Look(ram, d', v) == KernelEntry(dataPage, v))
  }

  lemma NothingCopied(ram0: Ram, use0: map<nat, Use>, ram: Ram, use: map<nat, Use>, d: nat, d': nat, dataPage: nat)
    requires d < |ram0| && d' < |ram| && 0x8_0100 <= dataPage < 0x8_E000
    requires forall v: nat :: v < NPAGES ==> Look(ram, d', v) == KernelEntry(dataPage, v)
    ensures Copied(ram0, use0, ram, use, d, d', 0, dataPage)
  {
  }

  lemma EntryParts(e: uint)
    ensures FlagsOf(e) < PGSIZE && (Present(e) ==> FlagsOf(e) % 2 == 1)
  {
  }

  /** Copies made before stay. */
  lemma CopyStays(ram0: Ram, use0: map<nat, Use>, ram: Ram, use: map<nat, Use>, ram': Ram, use': map<nat, Use>,
                  d: nat, v: nat, n: nat, mem: nat, page: Page, flags: nat, e: uint, e': uint)
    requires mem !in use && 0 < mem < |ram| && n <= 1 && flags < PGSIZE && CopyOf(ram0, use0, e, ram, use, d, e')
    requires Mapped(ram[mem := page], use[mem := Held], ram', use', d, v, n, mem, flags)
    ensures CopyOf(ram0, use0, e, ram', use', d, e')
  {
  }

  lemma CopyNew(ram0: Ram, use0: map<nat, Use>, ram: Ram, use: map<nat, Use>, ram': Ram, use': map<nat, Use>,
                d: nat, v: nat, mem: nat, page: Page, flags: nat, e: uint)
    requires mem !in use && 0 < mem < |ram| && mem < PAGE_LIMIT && v < USERPAGES && IsDir(use, d) && flags < PGSIZE
    requires flags % 2 == 1
    requires mem !in use0 && e != 0 && FlagsOf(e) == flags && FrameOf(e) < |ram0| && page == ram0[FrameOf(e)]
    requires Mapped(ram[mem := page], use[mem := Held], ram', use', d, v, 1, mem, flags)
    ensures CopyOf(ram0, use0, e, ram', use', d, EntryOf(mem, flags))
  {
  }

  lemma CopyMapped(ram0: Ram, use0: map<nat, Use>, ram: Ram, use: map<nat, Use>, ram': Ram, use': map<nat, Use>,
                   d: nat, d': nat, v: nat, n: nat, mem: nat, page: Page, flags: nat, dataPage: nat)
    requires Linked(ram0, use0) && Linked(ram, use) && Linked(ram', use') && IsDir(use, d')
    requires mem !in use && 0 < mem < |ram| && mem < PAGE_LIMIT && n <= 1 && v < USERPAGES && flags < PGSIZE
    requires flags % 2 == 1
    requires Linked(ram[mem := page], use[mem := Held]) && mem !in use0
    requires Space(ram0, use0, ram[mem := page], use[mem := Held], d', {mem})
    requires Copied(ram0, use0, ram, use, d, d', v, dataPage)
    requires var e := Look(ram0, d, v);
      e != 0 && FlagsOf(e) == flags && FrameOf(e) < |ram0| && page == ram0[FrameOf(e)]
    requires Mapped(ram[mem := page], use[mem := Held], ram', use', d', v, n, mem, flags)
    ensures Space(ram0, use0, ram', use', d', if n == 0 then {mem} else {}) && (n == 0 ==> IsHeld(use', mem))
    ensures n == 1 ==> Copied(ram0, use0, ram', use', d, d', v + 1, dataPage)
    ensures Look(ram[mem := page], d', v) == 0
  {
    hide Linked, Look, EntryOf, Owned, KernelEntry, FrameOf, FlagsOf, Mapped, Space, CopyOf;
    SpaceMapped(ram0, use0, ram[mem := page], use[mem := Held], ram', use', d', v, n, mem, flags, {mem},
                if n == 0 then {mem} else {});
    CopyHeld(ram, use, ram', use', d', v, n, mem, page, flags);
    forall w: nat | w < NPAGES
      ensures |ram'| == |ram| && Look(ram[mem := page], d', w) == Look(ram, d', w)
      ensures Look(ram', d', w) == if v <= w < v + n then EntryOf(mem + (w - v), flags) else Look(ram, d', w)
    {
      GrowLooks(ram, use, ram', use', d', v, n, mem, page, flags, d', w);
    }
    NoUserEntry(dataPage, v);
    if n == 1 {
      forall w: nat | w < v + 1
        ensures CopyOf(ram0, use0, Look(ram0, d, w), ram', use', d', Look(ram', d', w))
      {
        if w < v {
          CopyStays(ram0, use0, ram, use, ram', use', d', v, n, mem, page, flags, Look(ram0, d, w), Look(ram, d', w));
        } else {
          CopyNew(ram0, use0, ram, use, ram', use', d', v, mem, page, flags, Look(ram0, d, v));
        }
      }
    }
  }

  lemma CopyHeld(ram: Ram, use: map<nat, Use>, ram': Ram, use': map<nat, Use>, d: nat, v: nat, n: nat, mem: nat,
                 page: Page, flags: nat)
    requires mem !in use && mem < |ram| && flags < PGSIZE
    requires Mapped(ram[mem := page], use[mem := Held], ram', use', d, v, n, mem, flags)
    ensures |ram'| == |ram| && (n == 0 ==> IsHeld(use', mem))
  {
  }

  lemma CopySource(ram0: Ram, use0: map<nat, Use>, ram: Ram, use: map<nat, Use>, d: nat, d': nat, v: nat)
    requires Linked(ram0, use0) && IsDir(use0, d) && v < USERPAGES && d < |ram0| && Look(ram0, d, v) != 0
    requires Space(ram0, use0, ram, use, d', {})
    ensures var f := FrameOf(Look(ram0, d, v)); f < |ram0| == |ram| && f in use && ram[f] == ram0[f]
  {
  }

  lemma NoUserEntry(dataPage: nat, v: nat)
    requires 0x8_0100 <= dataPage < 0x8_E000 && v < USERPAGES
    ensures KernelEntry(dataPage, v) == 0
  {
  }

  /** The maps there were before are as they were. */
  lemma SpaceLooks(ram0: Ram, use0: map<nat, Use>, ram: Ram, use: map<nat, Use>, d: nat, d': nat, held: set<nat>,
                   v: nat)
    requires Space(ram0, use0, ram, use, d', held) && Linked(ram0, use0) && IsDir(use0, d) && v < NPAGES
    ensures d < |ram0| == |ram| && Look(ram, d, v) == Look(ram0, d, v)
  {
  }

  lemma SpaceKeeps(ram0: Ram, use0: map<nat, Use>, ram: Ram, use: map<nat, Use>, d: nat, d': nat, held: set<nat>)
    requires Space(ram0, use0, ram, use, d', held) && IsDir(use0, d)
    ensures IsDir(use, d) && IsDir(use, d')
  {
  }

  lemma SpaceTakes(ram0: Ram, use0: map<nat, Use>, ram: Ram, use: map<nat, Use>, d: nat, mem: nat, page: Page)
    requires Space(ram0, use0, ram, use, d, {}) && mem !in use && mem < |ram|
    ensures mem !in use0 && Space(ram0, use0, ram[mem := page], use[mem := Held], d, {mem})
  {
  }

  lemma SpaceDrops(ram0: Ram, use0: map<nat, Use>, ram: Ram, use: map<nat, Use>, ram': Ram, d: nat, mem: nat)
    requires Linked(ram, use) && Space(ram0, use0, ram, use, d, {mem}) && mem !in use0 && IsHeld(use, mem)
    requires mem < |ram|
    requires |ram'| == |ram| && ram' == ram[mem := ram'[mem]]
    ensures Space(ram0, use0, ram', use - {mem}, d, {})
  {
  }
}
