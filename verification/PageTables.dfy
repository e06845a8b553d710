/** Pages, page directories and page tables (mmu.h:65-104, vm.c:35-80). A page is named by its
    physical page number. Directories and tables are pages of 1024 entries; the map that a
    directory stands for takes page numbers of virtual addresses to table entries. */
module PageTables {
  import opened Common

  const NENTRIES := 1024
  /** Page numbers of virtual addresses, and those below KERNBASE. */
  const NPAGES := 0x10_0000
  const USERPAGES := 0x8_0000
  const USERTABLES := 512
  const PGSIZE := 4096

  type Page = p: seq<uint> | |p| == NENTRIES witness seq(NENTRIES, i => 0)
  type Ram = seq<Page>

  predicate Present(e: uint) { e % 2 == 1 }

  function FrameOf(e: uint): (f: nat) { e / PGSIZE }

  function FlagsOf(e: uint): (r: nat) { e % PGSIZE }

  predicate Writable(e: uint) { e / 2 % 2 == 1 }

  predicate User(e: uint) { e / 4 % 2 == 1 }

  /** A directory entry that takes nothing from what the entries of its table allow. */
  predicate Open(e: uint) { Writable(e) && User(e) }

  const PAGE_LIMIT := 0x10_0000

  /** `pa | flags`. */
  function EntryOf(f: nat, flags: nat): (e: uint)
    requires f < PAGE_LIMIT && flags < PGSIZE
    ensures FrameOf(e) == f && FlagsOf(e) == flags && (Present(e) <==> flags % 2 == 1)
  {
    f * PGSIZE + flags
  }

  lemma BitOf(q: nat, r: nat)
    ensures (4096 * q + r) % 2 == r % 2
    ensures (4096 * q + r) / 2 == 2048 * q + r / 2 && (2048 * q + r / 2) % 2 == r / 2 % 2
    ensures (4096 * q + r) / 4 == 1024 * q + r / 4 && (1024 * q + r / 4) % 2 == r / 4 % 2
  {
  }

  lemma FlagBits(e: uint)
    ensures Present(e) <==> FlagsOf(e) % 2 == 1
    ensures Writable(e) <==> FlagsOf(e) / 2 % 2 == 1
    ensures User(e) <==> FlagsOf(e) / 4 % 2 == 1
  {
    BitOf(e / 4096, e % 4096);
    assert e == 4096 * (e / 4096) + e % 4096;
  }

  /** What a page that is not free is used for: a directory, the page that an entry of a directory
      or of a user page table names, or something that no entry names. */
  datatype Use = Dir | Kid(parent: nat, slot: nat) | Held

  predicate IsDir(use: map<nat, Use>, d: nat) { d in use && use[d].Dir? }

  predicate IsTable(use: map<nat, Use>, t: nat) { t in use && use[t].Kid? && IsDir(use, use[t].parent) }

  /** Pages whose entries name pages of the pool: directories and tables of user memory. Kernel
      tables map fixed physical memory. */
  predicate Node(use: map<nat, Use>, p: nat)
  {
    IsDir(use, p) || (IsTable(use, p) && use[p].slot < USERTABLES)
  }

  /** Entries and uses are inverse to each other, and directory entries are open. */
  ghost predicate Linked(ram: Ram, use: map<nat, Use>)
  {
    && (forall f :: f in use ==> f < |ram|)
    && (forall p: nat, s :: Node(use, p) && 0 <= s < NENTRIES && Present(ram[p][s]) ==>
          FrameOf(ram[p][s]) in use && use[FrameOf(ram[p][s])] == Kid(p, s))
    && (forall f :: f in use && use[f].Kid? ==> HasSlot(ram, use, f))
    && (forall d: nat, s :: IsDir(use, d) && 0 <= s < NENTRIES && Present(ram[d][s]) ==> Open(ram[d][s]))
  }

  predicate HasSlot(ram: Ram, use: map<nat, Use>, f: nat)
    requires f in use && use[f].Kid?
  {
    var p, s := use[f].parent, use[f].slot;
    Node(use, p) && p < |ram| && s < NENTRIES && Present(ram[p][s]) && FrameOf(ram[p][s]) == f
  }

  /** An entry as the map sees it: one that is not present says nothing. */
  function Seen(e: uint): (r: uint) { if Present(e) then e else 0 }

  /** What a table entry allows under a directory entry: a page can be written, and by the user, only if
      both allow it. */
  function Under(pde: uint, e: uint): (r: uint)
    ensures Open(pde) ==> r == e
  {
    var lost := (if Writable(e) && !Writable(pde) then 2 else 0) + if User(e) && !User(pde) then 4 else 0;
    if lost <= e then e - lost else 0
  }

  /** The map of a directory: the entry for a virtual page with the permissions that the hardware grants,
      0 if there is none. */
  function Look(ram: Ram, d: nat, v: nat): (e: uint)
    requires d < |ram| && v < NPAGES
    ensures e == 0 || Present(e)
  {
    var pde := ram[d][v / NENTRIES];
    if Present(pde) && FrameOf(pde) < |ram| then Seen(Under(pde, ram[FrameOf(pde)][v % NENTRIES])) else 0
  }

  // ---- steps ----

  predicate NoEntries(p: Page) { forall s :: 0 <= s < NENTRIES ==> p[s] == 0 }

  /** A page that is no node can hold anything. */
  lemma WriteLeaf(ram: Ram, use: map<nat, Use>, f: nat, page: Page)
    requires Linked(ram, use) && f < |ram| && !Node(use, f)
    ensures Linked(ram[f := page], use)
  {
  }

  lemma TakePage(ram: Ram, use: map<nat, Use>, f: nat)
    requires Linked(ram, use) && f < |ram| && f !in use
    ensures Linked(ram, use[f := Held])
  {
  }

  lemma GivePage(ram: Ram, use: map<nat, Use>, f: nat)
    requires Linked(ram, use) && f in use && use[f].Held?
    ensures Linked(ram, use - {f})
  {
  }

  /** A held page goes into an empty entry. If it becomes a user page table it must be empty. */
  lemma Attach(ram: Ram, use: map<nat, Use>, p: nat, s: nat, f: nat, e: uint)
    requires Linked(ram, use) && Node(use, p) && s < NENTRIES && !Present(ram[p][s])
    requires f in use && use[f].Held? && Present(e) && FrameOf(e) == f
    requires IsDir(use, p) ==> Open(e) && (s < USERTABLES ==> NoEntries(ram[f]))
    ensures Linked(ram[p := ram[p][s := e]], use[f := Kid(p, s)])
  {
    var ram', use' := ram[p := ram[p][s := e]], use[f := Kid(p, s)];
    forall g | g in use' && use'[g].Kid?
      ensures HasSlot(ram', use', g)
    {
      if g != f { assert HasSlot(ram, use, g); }
    }
    forall q: nat, r | Node(use', q) && 0 <= r < NENTRIES && Present(ram'[q][r])
      ensures FrameOf(ram'[q][r]) in use' && use'[FrameOf(ram'[q][r])] == Kid(q, r)
    {
      if q != f { assert Node(use, q); }
    }
  }

  /** An entry that names a page without entries of its own is cleared. */
  lemma Detach(ram: Ram, use: map<nat, Use>, p: nat, s: nat, page: Page)
    requires Linked(ram, use) && Node(use, p) && s < NENTRIES && Present(ram[p][s]) && !IsDir(use, p)
    ensures var f := FrameOf(ram[p][s]);
      && f in use && use[f] == Kid(p, s) && f != p
      && Linked(ram[f := page][p := ram[p][s := 0]], use - {f})
  {
    var f := FrameOf(ram[p][s]);
    var ram', use' := ram[f := page][p := ram[p][s := 0]], use - {f};
    forall g | g in use' && use'[g].Kid?
      ensures HasSlot(ram', use', g)
    {
      assert HasSlot(ram, use, g);
    }
  }

  /** A held page, zeroed, becomes a directory. */
  lemma MakeDir(ram: Ram, use: map<nat, Use>, d: nat)
    requires Linked(ram, use) && d in use && use[d].Held? && NoEntries(ram[d])
    ensures Linked(ram, use[d := Dir])
    ensures forall v: nat :: v < NPAGES ==> Look(ram, d, v) == 0
  {
  }

  /** A page of user memory is in the map of its directory. */
  lemma UserPageSeen(ram: Ram, use: map<nat, Use>, f: nat)
    requires Linked(ram, use) && f in use && use[f].Kid? && IsTable(use, use[f].parent)
    ensures var t := use[f].parent;
      var d, v := use[t].parent, use[t].slot * NENTRIES + use[f].slot;
      d < |ram| && v < USERPAGES && Present(Look(ram, d, v)) && FrameOf(Look(ram, d, v)) == f
  {
  }

  /** And what the map says about user memory is such a page. */
  lemma SeenIsUserPage(ram: Ram, use: map<nat, Use>, d: nat, v: nat)
    requires Linked(ram, use) && IsDir(use, d) && v < USERPAGES && Present(Look(ram, d, v))
    ensures var f, t := FrameOf(Look(ram, d, v)), FrameOf(ram[d][v / NENTRIES]);
      && f in use && use[f] == Kid(t, v % NENTRIES)
      && IsTable(use, t) && use[t] == Kid(d, v / NENTRIES) && Present(ram[d][v / NENTRIES])
  {
  }

  /** The pages of an address space: the directory, its tables, and the pages of user memory. */
  ghost function Owned(use: map<nat, Use>, d: nat): (r: set<nat>)
  {
    set f | f in use && (
        || f == d
        || (use[f].Kid? && (
            || use[f].parent == d
            || (use[f].parent in use && use[use[f].parent].Kid? && use[use[f].parent].parent == d))))
  }

  /** The directory and its tables. */
  ghost function Tree(use: map<nat, Use>, d: nat): (r: set<nat>)
  {
    set f | f in use && (f == d || (use[f].Kid? && use[f].parent == d))
  }

  /** An address space without user memory goes away as a whole. */
  lemma DropDir(ram: Ram, use: map<nat, Use>, d: nat, ram': Ram)
    requires Linked(ram, use) && IsDir(use, d) && |ram'| == |ram|
    requires forall v: nat :: v < USERPAGES ==> Look(ram, d, v) == 0
    requires forall f :: f in use && f !in Tree(use, d) ==> ram'[f] == ram[f]
    ensures Linked(ram', use - Tree(use, d))
  {
    var use' := use - Tree(use, d);
    forall g | g in use' && use'[g].Kid?
      ensures HasSlot(ram', use', g)
    {
      assert HasSlot(ram, use, g);
      if IsTable(use, use[g].parent) { UserPageSeen(ram, use, g); }
    }
  }

  // ---- what steps do to the maps ----

  lemma TableOf(ram: Ram, use: map<nat, Use>, d: nat, i: nat)
    requires Linked(ram, use) && IsDir(use, d) && i < NENTRIES && Present(ram[d][i])
    ensures var t := FrameOf(ram[d][i]); t < |ram| && IsTable(use, t) && use[t] == Kid(d, i)
  {
  }

  /** Pages that are neither directory nor table do not matter. */
  lemma LookLeaf(ram: Ram, use: map<nat, Use>, ram': Ram, d: nat, v: nat)
    requires Linked(ram, use) && IsDir(use, d) && v < NPAGES && |ram'| == |ram|
    requires forall f: nat :: IsDir(use, f) || IsTable(use, f) ==> ram'[f] == ram[f]
    ensures Look(ram', d, v) == Look(ram, d, v)
  {
  }

  /** A new, empty table changes no map. */
  lemma LookNewTable(ram: Ram, use: map<nat, Use>, d: nat, i: nat, e: uint, d': nat, v: nat)
    requires Linked(ram, use) && IsDir(use, d) && i < NENTRIES && !Present(ram[d][i])
    requires Present(e) && Open(e) && FrameOf(e) < |ram| && FrameOf(e) in use && use[FrameOf(e)].Held?
    requires NoEntries(ram[FrameOf(e)])
    requires IsDir(use, d') && v < NPAGES
    ensures Look(ram[d := ram[d][i := e]], d', v) == Look(ram, d', v)
  {
  }

  /** Writing one entry of one table changes one place of one map. */
  lemma LookEntry(ram: Ram, use: map<nat, Use>, t: nat, j: nat, e: uint, d': nat, v: nat)
    requires Linked(ram, use) && IsTable(use, t) && j < NENTRIES && IsDir(use, d') && v < NPAGES
    ensures Look(ram[t := ram[t][j := e]], d', v) ==
      if d' == use[t].parent && v == use[t].slot * NENTRIES + j then Seen(e) else Look(ram, d', v)
  {
  }
}
