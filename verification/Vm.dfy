/**
 The physical page allocator and the page-table code that lives on it. Free pages are
 chained through their first word; tables are built, filled and freed in place.
 */
module Vm {
  import opened PageTree

  const JUNK_FREE: nat := 0x0101_0101_0101_0101  // memset(pa, 1, PGSIZE)
  const JUNK_ALLOC: nat := 0x0505_0505_0505_0505 // memset(r, 5, PGSIZE)

  function Fill(w: nat): Page { Page(seq(ENTRIES, k => w)) }

  /** PX(level, va), the index used at a level. */
  function Px(level: nat, v: nat): nat
    requires level <= 2
  {
    if level == 2 then Index2(v) else if level == 1 then Index1(v) else Index0(v)
  }

  // ---------------------------------------------------------------- free list

  /** Link i of the list: a free page whose first word is the next one. */
  ghost predicate FreeLink(mem: Memory, owner: Owners, free: seq<nat>, i: nat) {
    && i < |free| && free[i] in owner && owner[free[i]] == Free
    && free[i] in mem && |mem[free[i]].words| == ENTRIES
    && mem[free[i]].words[0] == if i + 1 < |free| then free[i + 1] else 0
  }

  ghost predicate FreeListed(owner: Owners, free: seq<nat>, p: nat) {
    p in owner && owner[p] == Free ==> p in free
  }

  ghost predicate NoDuplicates(s: seq<nat>) {
    forall i, j | 0 <= i < j < |s| :: s[i] != s[j]
  }

  /** The list through the pages themselves visits each free page once and no other page. */
  ghost predicate FreeOk(mem: Memory, owner: Owners, freelist: nat, free: seq<nat>) {
    && freelist == (if free == [] then 0 else free[0]) && (freelist == 0 <==> free == [])
    && 0 !in owner
    && NoDuplicates(free)
    && (forall i: nat {:trigger FreeLink(mem, owner, free, i)} | i < |free| :: FreeLink(mem, owner, free, i))
    && (forall p {:trigger FreeListed(owner, free, p)} | p in owner :: FreeListed(owner, free, p))
  }

  /** A change to pages that stay off the list. */
  lemma FreeKeeps(mem: Memory, owner: Owners, freelist: nat, free: seq<nat>, mem': Memory, owner': Owners)
    requires FreeOk(mem, owner, freelist, free) && owner'.Keys == owner.Keys
    requires forall p | p in owner :: (owner[p] == Free <==> owner'[p] == Free)
    requires forall p | p in owner && owner[p] == Free :: p in mem && p in mem' && mem'[p] == mem[p]
    ensures FreeOk(mem', owner', freelist, free)
  {
    forall i: nat | i < |free|
      ensures FreeLink(mem', owner', free, i)
    {
      assert FreeLink(mem, owner, free, i);
    }
    forall p | p in owner'
      ensures FreeListed(owner', free, p)
    {
      assert FreeListed(owner, free, p);
    }
  }

  lemma PopKeeps(mem: Memory, owner: Owners, freelist: nat, free: seq<nat>, mem': Memory, owner': Owners,
                 freelist': nat)
    requires FreeOk(mem, owner, freelist, free) && free != [] && FreeLink(mem, owner, free, 0)
    requires freelist' == mem[free[0]].words[0] && owner' == owner[free[0] := Held] && free[0] in mem'
             && mem' == mem[free[0] := mem'[free[0]]]
    ensures FreeOk(mem', owner', freelist', free[1..])
  {
    var f := free[1..];
    forall i: nat | i < |f|
      ensures FreeLink(mem', owner', f, i)
    {
      assert FreeLink(mem, owner, free, i + 1);
      assert f[i] == free[i + 1];
    }
    forall p | p in owner'
      ensures FreeListed(owner', f, p)
    {
      assert FreeListed(owner, free, p);
      assert p in free && p != free[0] ==> p in f;
    }
    assert f != [] ==> FreeLink(mem, owner, free, 1);
  }

  lemma PushKeeps(mem: Memory, owner: Owners, freelist: nat, free: seq<nat>, p: nat, mem': Memory, owner': Owners)
    requires FreeOk(mem, owner, freelist, free) && p in owner && owner[p] != Free
    requires owner' == owner[p := Free] && mem' == mem[p := Page(Fill(JUNK_FREE).words[0 := freelist])]
    ensures FreeOk(mem', owner', p, [p] + free)
  {
    var f := [p] + free;
    forall i: nat | i < |free|
      ensures free[i] != p
    {
      assert FreeLink(mem, owner, free, i);
    }
    forall i: nat | i < |f|
      ensures FreeLink(mem', owner', f, i)
    {
      assert i > 0 ==> FreeLink(mem, owner, free, i - 1);
    }
    forall q | q in owner'
      ensures FreeListed(owner', f, q)
    {
      assert FreeListed(owner, free, q);
    }
  }

  // -------------------------------------------------------- what may not change

  /** Ownership moved only between the free list and tables. */
  ghost predicate OnlyTables(owner: Owners, owner': Owners) {
    && owner'.Keys == owner.Keys
    && forall p | p in owner :: owner'[p] == owner[p] || (owner[p] == Free && owner'[p].Table?)
  }

  /** Pages that hold data keep their contents. */
  ghost predicate SameData(mem: Memory, owner: Owners, mem': Memory) {
    forall p | p in owner && (owner[p].User? || owner[p] == Held) :: p in mem && p in mem' && mem'[p] == mem[p]
  }

  ghost predicate SameRoots(tables: Tables, tables': Tables) {
    forall r: nat :: Roots(tables, r) <==> Roots(tables', r)
  }

  /** At most tables were added: every address space and every data page is as before. */
  ghost predicate Quiet(mem: Memory, owner: Owners, tables: Tables, mem': Memory, owner': Owners, tables': Tables) {
    SameMap(mem, mem', tables) && SameRoots(tables, tables') && OnlyTables(owner, owner') && SameData(mem, owner, mem')
  }

  lemma QuietTrans(mem: Memory, owner: Owners, tables: Tables, mem1: Memory, owner1: Owners, tables1: Tables,
                   mem2: Memory, owner2: Owners, tables2: Tables)
    requires Quiet(mem, owner, tables, mem1, owner1, tables1) && Quiet(mem1, owner1, tables1, mem2, owner2, tables2)
    ensures Quiet(mem, owner, tables, mem2, owner2, tables2)
  {
  }

  /** The table at each level is there if the one at the bottom is. */
  lemma LeafTableNeeds(mem: Memory, owner: Owners, tables: Tables, root: nat, v: nat, k: nat)
    requires TreesOk(mem, owner, tables, {}) && k < 2
    ensures Node(root, LeafPath(v)) in tables ==> Child(Node(root, LeafPath(v)[..k]), LeafPath(v)[k]) in tables
  {
    var n := Node(root, LeafPath(v));
    assert LeafPath(v)[..k] + [LeafPath(v)[k]] == LeafPath(v)[..k + 1];
    assert LeafPath(v)[..2] == LeafPath(v);
    if n in tables {
      assert NodeOk(mem, owner, tables, n);
      assert Parent(n).path == LeafPath(v)[..1];
    }
  }

  const PGSIZE: nat := 4096

  ghost predicate LeafChanged(mem: Memory, mem': Memory, tables: Tables, root: nat, v: nat, pte: nat) {
    forall r: nat, w: nat | Roots(tables, r) && w < VPAGES ::
      Lookup(mem', r, w) == if r == root && w == v then pte else Lookup(mem, r, w)
  }

  /** Exactly k pages from `first` on were mapped, to consecutive physical pages. */
  ghost predicate Mapped(mem: Memory, mem': Memory, tables: Tables, root: nat, first: nat, k: nat, page: nat, perm: nat)
    requires perm < 1024
  {
    forall r: nat, w: nat | Roots(tables, r) && w < VPAGES ::
      Lookup(mem', r, w) == if r == root && first <= w < first + k then MakePte(page + (w - first), perm)
          else Lookup(mem, r, w)
  }

  lemma MappedStep(mem: Memory, mem1: Memory, mem2: Memory, tables: Tables, tables1: Tables,
                   root: nat, first: nat, k: nat, page: nat, perm: nat)
    requires perm < 1024 && SameRoots(tables, tables1)
    requires Mapped(mem, mem1, tables, root, first, k, page, perm)
    requires LeafChanged(mem1, mem2, tables1, root, first + k, MakePte(page + k, perm))
    ensures Mapped(mem, mem2, tables, root, first, k + 1, page, perm)
  {
  }

  lemma ChangedAfterQuiet(mem: Memory, mem1: Memory, mem2: Memory, tables: Tables, tables1: Tables, root: nat,
                          v: nat, pte: nat)
    requires SameMap(mem, mem1, tables) && SameRoots(tables, tables1) && LeafChanged(mem1, mem2, tables1, root, v, pte)
    ensures LeafChanged(mem, mem2, tables, root, v, pte)
  {
  }

  /** An invalid leaf entry has no user page behind it. */
  lemma NoUserAt(mem: Memory, owner: Owners, tables: Tables, root: nat, v: nat)
    requires SpaceOk(mem, owner, tables, {}) && Node(root, LeafPath(v)) in tables
    requires !PteValid(Word(mem, tables[Node(root, LeafPath(v))], Index0(v)))
    ensures forall q | q in owner :: owner[q] != User(root, v)
  {
    forall q | q in owner
      ensures owner[q] != User(root, v)
    {
      assert owner[q] == User(root, v) ==> UserOk(mem, owner, tables, q);
    }
  }

  lemma ChangedThenQuiet(mem: Memory, mem1: Memory, mem2: Memory, tables: Tables, root: nat, v: nat, pte: nat)
    requires LeafChanged(mem, mem1, tables, root, v, pte) && SameMap(mem1, mem2, tables)
    ensures LeafChanged(mem, mem2, tables, root, v, pte)
  {
  }

  /** The user page for (root, v), if any, is the one the leaf entry names. */
  lemma OneUserAt(mem: Memory, owner: Owners, tables: Tables, root: nat, v: nat)
    requires SpaceOk(mem, owner, tables, {}) && Node(root, LeafPath(v)) in tables
    ensures forall q | q in owner && owner[q] == User(root, v) ::
              q == PtePage(Word(mem, tables[Node(root, LeafPath(v))], Index0(v)))
  {
    forall q | q in owner && owner[q] == User(root, v)
      ensures q == PtePage(Word(mem, tables[Node(root, LeafPath(v))], Index0(v)))
    {
      assert UserOk(mem, owner, tables, q);
    }
  }

  /** A leaf mapping exists; if its page is to be freed, it is a user page of this mapping. */
  ghost predicate Removable(mem: Memory, owner: Owners, root: nat, v: nat, doFree: bool) {
    var pte := Lookup(mem, root, v);
    && PteValid(pte) && PteFlags(pte) != 1
    && if doFree then PtePage(pte) in owner && owner[PtePage(pte)] == User(root, v)
       else PtePage(pte) !in owner || owner[PtePage(pte)] != User(root, v)
  }

  ghost predicate Unmapped(mem: Memory, mem': Memory, tables: Tables, root: nat, first: nat, k: nat) {
    forall r: nat, w: nat | Roots(tables, r) && w < VPAGES ::
      Lookup(mem', r, w) == if r == root && first <= w < first + k then 0 else Lookup(mem, r, w)
  }

  predicate UserIn(o: Owner, root: nat, first: nat, k: nat) {
    o.User? && o.root == root && first <= o.v < first + k
  }

  /** The user pages of the range are free, all other pages as before. */
  ghost function Freed(owner: Owners, root: nat, first: nat, k: nat): Owners {
    map p | p in owner :: if UserIn(owner[p], root, first, k) then Free else owner[p]
  }

  lemma FreedStep(owner: Owners, owner1: Owners, owner2: Owners, root: nat, first: nat, k: nat, p: nat)
    requires owner1 == Freed(owner, root, first, k) && owner2 == owner1[p := Free]
    requires p in owner1 && owner1[p] == User(root, first + k)
    requires forall q | q in owner && owner[q] == User(root, first + k) :: q == p
    ensures owner2 == Freed(owner, root, first, k + 1)
  {
  }

  ghost predicate SameDataBut(mem: Memory, owner: Owners, mem': Memory, root: nat, v: nat) {
    forall p | p in owner && (owner[p].User? || owner[p] == Held) && owner[p] != User(root, v) ::
      p in mem && p in mem' && mem'[p] == mem[p]
  }

  ghost predicate SameDataElse(mem: Memory, owner: Owners, mem': Memory, root: nat, first: nat, k: nat) {
    forall p | p in owner && (owner[p].User? || owner[p] == Held) && !UserIn(owner[p], root, first, k) ::
      p in mem && p in mem' && mem'[p] == mem[p]
  }

  /** The effect of uvmunmap on k pages. */
  ghost predicate Removed(mem: Memory, owner: Owners, mem': Memory, owner': Owners, tables: Tables, root: nat,
                          first: nat, k: nat, doFree: bool) {
    && Unmapped(mem, mem', tables, root, first, k)
    && owner' == (if doFree then Freed(owner, root, first, k) else owner)
    && SameDataElse(mem, owner, mem', root, first, k)
  }

  lemma StillRemovable(mem: Memory, owner: Owners, mem1: Memory, owner1: Owners, tables: Tables, root: nat,
                       first: nat, k: nat, doFree: bool)
    requires Roots(tables, root) && first + k < VPAGES
    requires Removed(mem, owner, mem1, owner1, tables, root, first, k, doFree)
             && Removable(mem, owner, root, first + k, doFree)
    ensures Removable(mem1, owner1, root, first + k, doFree)
            && Lookup(mem1, root, first + k) == Lookup(mem, root, first + k)
  {
  }

  lemma RemovedStep(mem: Memory, owner: Owners, mem1: Memory, owner1: Owners, mem2: Memory, owner2: Owners,
                    tables: Tables,
                    root: nat, first: nat, k: nat, doFree: bool)
    requires Roots(tables, root) && first + k < VPAGES
    requires Removed(mem, owner, mem1, owner1, tables, root, first, k, doFree)
             && Removable(mem1, owner1, root, first + k, doFree)
    requires LeafChanged(mem1, mem2, tables, root, first + k, 0) && SameDataBut(mem1, owner1, mem2, root, first + k)
    requires owner2 == if doFree then owner1[PtePage(Lookup(mem1, root, first + k)) := Free] else owner1
    requires forall q | q in owner1 && owner1[q] == User(root, first + k) :: q == PtePage(Lookup(mem1, root, first + k))
    ensures Removed(mem, owner, mem2, owner2, tables, root, first, k + 1, doFree)
  {
    if doFree {
      assert forall q | q in owner && owner[q] == User(root, first + k) :: owner1[q] == User(root, first + k);
      FreedStep(owner, owner1, owner2, root, first, k, PtePage(Lookup(mem1, root, first + k)));
    }
    assert SameDataElse(mem, owner, mem2, root, first, k + 1) by {
      forall p | p in owner && (owner[p].User? || owner[p] == Held) && !UserIn(owner[p], root, first, k + 1)
        ensures p in mem && p in mem2 && mem2[p] == mem[p]
      {
        assert owner1[p] == owner[p] && owner1[p] != User(root, first + k);
      }
    }
  }

  /** A free page p was filled and mapped at v; otherwise at most tables were added. */
  ghost predicate AddedPage(mem: Memory, owner: Owners, tables: Tables, mem': Memory, owner': Owners,
                            root: nat, v: nat, content: Page, perm: nat, p: nat)
  {
    && perm < 1024 && p in owner && owner[p] == Free && owner'.Keys == owner.Keys && owner'[p] == User(root, v)
    && p in mem' && mem'[p] == content
    && LeafChanged(mem, mem', tables, root, v, MakePte(p, perm))
    && (forall q | q in owner && q != p :: owner'[q] == owner[q] || (owner[q] == Free && owner'[q].Table?))
    && SameData(mem, owner, mem')
  }

  lemma GaveUp(mem: Memory, owner: Owners, tables: Tables, mem1: Memory, owner1: Owners, mem2: Memory,
               owner2: Owners, tables2: Tables,
               mem3: Memory, owner3: Owners, p: nat)
    requires p in owner && owner[p] == Free && owner1 == owner[p := Held] && p in mem1 && mem1 == mem[p := mem1[p]]
             && mem.Keys == owner.Keys
    requires SameMap(mem, mem1, tables) && SameRoots(tables, tables2)
    requires SameMap(mem1, mem2, tables) && OnlyTables(owner1, owner2) && SameData(mem1, owner1, mem2)
    requires owner3 == owner2[p := Free] && p in mem3 && mem3 == mem2[p := mem3[p]] && SameMap(mem2, mem3, tables2)
    ensures Quiet(mem, owner, tables, mem3, owner3, tables2)
  {
  }

  lemma Succeeded(mem: Memory, owner: Owners, tables: Tables, mem1: Memory, owner1: Owners, mem2: Memory,
                  owner2: Owners, owner3: Owners,
                  root: nat, v: nat, content: Page, perm: nat, p: nat)
    requires perm < 1024 && p in owner && owner[p] == Free && owner1 == owner[p := Held] && mem1 == mem[p := content]
             && mem.Keys == owner.Keys
    requires SameMap(mem, mem1, tables)
    requires LeafChanged(mem1, mem2, tables, root, v, MakePte(p, perm)) && OnlyTables(owner1, owner2)
             && SameData(mem1, owner1, mem2)
    requires owner3 == owner2[p := User(root, v)]
    ensures AddedPage(mem, owner, tables, mem2, owner3, root, v, content, perm, p)
  {
  }

  /** Where new user pages come from: uvmalloc clears them, uvmcopy copies another address space. */
  datatype Source = Zeroed | CopyOf(root: nat)

  function Content(mem: Memory, src: Source, w: nat): Page {
    match src
    case Zeroed => Fill(0)
    case CopyOf(r) => var p := PtePage(Lookup(mem, r, w)); if p in mem then mem[p] else Fill(0)
  }

  const PERM_USER: nat := 30 // PTE_W | PTE_X | PTE_R | PTE_U

  function Perm(mem: Memory, src: Source, w: nat): (perm: nat)
    ensures perm < 1024
  {
    match src
    case Zeroed => PERM_USER
    case CopyOf(r) => PteFlags(Lookup(mem, r, w))
  }

  /** Page w is mapped to a page that was free, with the right contents and flags. */
  ghost predicate Fresh(mem: Memory, owner: Owners, mem': Memory, owner': Owners, root: nat, w: nat, src: Source) {
    var pte := Lookup(mem', root, w);
    var p := PtePage(pte);
    && PteValid(pte) && (exists q: nat :: pte == MakePte(q, Perm(mem, src, w)))
    && p in owner && owner[p] == Free && p in owner' && owner'[p] == User(root, w)
    && p in mem' && mem'[p] == Content(mem, src, w)
  }

  /** Pages lo to lo + k - 1 of root are fresh; nothing else changed but for new tables. */
  ghost predicate Grew(mem: Memory, owner: Owners, tables: Tables, mem': Memory, owner': Owners, root: nat, lo: nat,
                       k: nat, src: Source) {
    && (forall w: nat | lo <= w < lo + k :: Fresh(mem, owner, mem', owner', root, w, src))
    && (forall r: nat, w: nat | Roots(tables, r) && w < VPAGES && !(r == root && lo <= w < lo + k) ::
         Lookup(mem', r, w) == Lookup(mem, r, w))
    && owner'.Keys == owner.Keys
    && (forall p | p in owner ::
         owner'[p] == owner[p] || (owner[p] == Free && (owner'[p].Table? || UserIn(owner'[p], root, lo, k))))
    && SameData(mem, owner, mem')
  }

  /** The child's page w has the flags and the words of the parent's, in a page that was free. */
  ghost predicate CopiedPage(mem: Memory, owner: Owners, mem': Memory, parent: nat, child: nat, w: nat) {
    var from, to := Lookup(mem, parent, w), Lookup(mem', child, w);
    && PteFlags(to) == PteFlags(from)
    && PtePage(from) in mem && PtePage(to) in mem' && mem'[PtePage(to)].words == mem[PtePage(from)].words
    && PtePage(to) in owner && owner[PtePage(to)] == Free
  }

  /** Page w is all zero, was free, and may be read, written and executed by the user: its flags are
      PTE_V, PTE_R, PTE_W, PTE_X and PTE_U. */
  ghost predicate ZeroedPage(owner: Owners, mem': Memory, root: nat, w: nat) {
    var pte := Lookup(mem', root, w);
    && PteFlags(pte) == 1 + 2 + 4 + 8 + 16
    && PtePage(pte) in mem' && |mem'[PtePage(pte)].words| == 512
    && (forall j | 0 <= j < 512 :: mem'[PtePage(pte)].words[j] == 0)
    && PtePage(pte) in owner && owner[PtePage(pte)] == Free
  }

  lemma CopiedIs(mem: Memory, owner: Owners, tables: Tables, mem': Memory, owner': Owners, parent: nat, child: nat,
                 sz: nat, w: nat)
    requires mem.Keys == owner.Keys && Grew(mem, owner, tables, mem', owner', child, 0, Up(sz), CopyOf(parent))
    requires w * 4096 < sz && forall x: nat | x < Up(sz) :: Copyable(mem, owner, parent, child, x)
    ensures CopiedPage(mem, owner, mem', parent, child, w)
  {
    UpGuard(w, sz);
    assert Copyable(mem, owner, parent, child, w);
    assert Fresh(mem, owner, mem', owner', child, w, CopyOf(parent));
    var q: nat :| Lookup(mem', child, w) == MakePte(q, Perm(mem, CopyOf(parent), w));
    MakePteFields(q, Perm(mem, CopyOf(parent), w));
    ValidFlags(Lookup(mem, parent, w));
  }

  lemma ValidFlags(pte: nat)
    requires PteValid(pte)
    ensures PteFlags(pte) % 2 == 1
  {
  }

  lemma ZeroedIs(mem: Memory, owner: Owners, tables: Tables, mem': Memory, owner': Owners, root: nat, lo: nat,
                 newsz: nat, w: nat)
    requires lo <= Up(newsz) && Grew(mem, owner, tables, mem', owner', root, lo, Up(newsz) - lo, Zeroed)
    requires lo <= w && w * 4096 < newsz
    ensures ZeroedPage(owner, mem', root, w)
  {
    UpGuard(w, newsz);
    assert Fresh(mem, owner, mem', owner', root, w, Zeroed);
    var q: nat :| Lookup(mem', root, w) == MakePte(q, Perm(mem, Zeroed, w));
    MakePteFields(q, Perm(mem, Zeroed, w));
  }

  lemma GrewStep(mem: Memory, owner: Owners, tables: Tables, mem1: Memory, owner1: Owners, tables1: Tables,
                 mem2: Memory, owner2: Owners,
                 root: nat, lo: nat, k: nat, src: Source, p: nat)
    requires Roots(tables, root) && lo + k < VPAGES && SameRoots(tables, tables1)
    requires Grew(mem, owner, tables, mem1, owner1, root, lo, k, src)
    requires AddedPage(mem1, owner1, tables1, mem2, owner2, root, lo + k, Content(mem, src, lo + k),
             Perm(mem, src, lo + k), p)
    ensures Grew(mem, owner, tables, mem2, owner2, root, lo, k + 1, src)
  {
    MakePteFields(p, Perm(mem, src, lo + k));
    assert owner[p] == Free;
    forall w: nat | lo <= w < lo + k + 1
      ensures Fresh(mem, owner, mem2, owner2, root, w, src)
    {
      if w < lo + k {
        assert Fresh(mem, owner, mem1, owner1, root, w, src);
      }
    }
  }

  lemma GrewQuiet(mem: Memory, owner: Owners, tables: Tables, mem1: Memory, owner1: Owners, tables1: Tables,
                  mem2: Memory, owner2: Owners, tables2: Tables, root: nat, lo: nat, k: nat, src: Source)
    requires Roots(tables, root) && lo + k <= VPAGES && SameRoots(tables, tables1)
    requires Grew(mem, owner, tables, mem1, owner1, root, lo, k, src)
             && Quiet(mem1, owner1, tables1, mem2, owner2, tables2)
    ensures Grew(mem, owner, tables, mem2, owner2, root, lo, k, src)
  {
    forall w: nat | lo <= w < lo + k
      ensures Fresh(mem, owner, mem2, owner2, root, w, src)
    {
      assert Fresh(mem, owner, mem1, owner1, root, w, src);
    }
  }

  /** Two entries mean the same translation. */
  predicate Agree(a: nat, b: nat) { a == b || (!PteValid(a) && !PteValid(b)) }

  ghost predicate SameTranslation(mem: Memory, mem': Memory, tables: Tables) {
    forall r: nat, w: nat | Roots(tables, r) && w < VPAGES :: Agree(Lookup(mem', r, w), Lookup(mem, r, w))
  }

  /** Growing and then unmapping the new pages gives everything back but tables. */
  lemma GrewThenRemoved(mem: Memory, owner: Owners, tables: Tables, mem1: Memory, owner1: Owners, tables1: Tables,
                        mem2: Memory, owner2: Owners,
                        root: nat, lo: nat, k: nat, src: Source)
    requires SameRoots(tables, tables1)
    requires Grew(mem, owner, tables, mem1, owner1, root, lo, k, src)
             && Removed(mem1, owner1, mem2, owner2, tables1, root, lo, k, true)
    requires forall w: nat | lo <= w < lo + k :: !PteValid(Lookup(mem, root, w))
    requires forall p | p in owner :: !UserIn(owner[p], root, lo, k)
    ensures SameTranslation(mem, mem2, tables) && OnlyTables(owner, owner2) && SameData(mem, owner, mem2)
  {
  }

  lemma GrewRemovable(mem: Memory, owner: Owners, tables: Tables, mem1: Memory, owner1: Owners, root: nat, lo: nat,
                      k: nat, src: Source, w: nat)
    requires Grew(mem, owner, tables, mem1, owner1, root, lo, k, src) && lo <= w < lo + k
    requires Perm(mem, src, w) / 2 % 8 != 0
    ensures Removable(mem1, owner1, root, w, true)
  {
    assert Fresh(mem, owner, mem1, owner1, root, w, src);
    var q: nat :| Lookup(mem1, root, w) == MakePte(q, Perm(mem, src, w));
    MakePteFields(q, Perm(mem, src, w));
  }

  lemma NoUsersIn(mem: Memory, owner: Owners, tables: Tables, root: nat, lo: nat, k: nat)
    requires SpaceOk(mem, owner, tables, {}) && Roots(tables, root) && lo + k <= VPAGES
    requires forall w: nat | lo <= w < lo + k :: !PteValid(Lookup(mem, root, w))
    ensures forall p | p in owner :: !UserIn(owner[p], root, lo, k)
  {
    forall p | p in owner
      ensures !UserIn(owner[p], root, lo, k)
    {
      if owner[p].User? && owner[p].root == root {
        assert UserOk(mem, owner, tables, p);
        LookupIs(mem, owner, tables, root, owner[p].v);
      }
    }
  }

  /** PGROUNDUP(sz) as a page number. */
  function Up(sz: nat): nat { (sz + PGSIZE - 1) / PGSIZE }

  lemma UpOfPages(a: nat)
    ensures Up(a * PGSIZE) == a
  {
  }

  /** The loops run over exactly the pages below the rounded-up size. */
  lemma UpGuard(a: nat, sz: nat)
    ensures a * PGSIZE < sz <==> a < Up(sz)
    ensures sz <= MAXPAGES * PGSIZE ==> Up(sz) <= MAXPAGES
  {
  }

  lemma UpMonotone(a: nat, b: nat)
    requires a <= b
    ensures Up(a) <= Up(b)
  {
  }

  lemma RemovedNone(mem: Memory, owner: Owners, tables: Tables, root: nat, first: nat, doFree: bool)
    requires mem.Keys == owner.Keys
    ensures Removed(mem, owner, mem, owner, tables, root, first, 0, doFree)
  {
  }

  lemma GrewNone(mem: Memory, owner: Owners, tables: Tables, root: nat, lo: nat, src: Source)
    requires mem.Keys == owner.Keys
    ensures Grew(mem, owner, tables, mem, owner, root, lo, 0, src)
  {
  }

  /** A leaf mapping of an address space to a user page of its own. */
  ghost predicate UserPage(mem: Memory, owner: Owners, root: nat, w: nat) {
    var pte := Lookup(mem, root, w);
    PteValid(pte) && PteLeaf(pte) && PtePage(pte) in owner && owner[PtePage(pte)] == User(root, w)
  }

  lemma LeafFlags(pte: nat)
    requires PteLeaf(pte)
    ensures PteFlags(pte) != 1
  {
  }

  /** Page w is a user page of the parent and not yet mapped in the child. */
  ghost predicate Copyable(mem: Memory, owner: Owners, parent: nat, child: nat, w: nat) {
    UserPage(mem, owner, parent, w) && !PteValid(Lookup(mem, child, w))
  }

  /** The tables that are left when n and everything below it are gone. */
  ghost function Pruned(tables: Tables, n: Node): Tables {
    map m | m in tables && !Under(n, m) :: tables[m]
  }

  /** The owners when the pages of n and everything below it are free. */
  ghost function Released(owner: Owners, n: Node): Owners {
    map p | p in owner :: if owner[p].Table? && Under(n, owner[p].node) then Free else owner[p]
  }

  /** m lies below one of the first i entries of n. */
  predicate UnderKid(n: Node, m: Node, i: nat) {
    Under(n, m) && |m.path| > |n.path| && m.path[|n.path|] < i
  }

  ghost function PrunedKids(tables: Tables, n: Node, i: nat): Tables {
    map m | m in tables && !UnderKid(n, m, i) :: tables[m]
  }

  ghost function ReleasedKids(owner: Owners, n: Node, i: nat): Owners {
    map p | p in owner :: if owner[p].Table? && UnderKid(n, owner[p].node, i) then Free else owner[p]
  }

  lemma UnderKidStep(n: Node, m: Node, i: nat)
    ensures UnderKid(n, m, i + 1) <==> UnderKid(n, m, i) || Under(Child(n, i), m)
  {
  }

  lemma KidsStep(tables: Tables, owner: Owners, n: Node, i: nat)
    ensures PrunedKids(tables, n, i + 1) == Pruned(PrunedKids(tables, n, i), Child(n, i))
    ensures ReleasedKids(owner, n, i + 1) == Released(ReleasedKids(owner, n, i), Child(n, i))
  {
    forall m
      ensures UnderKid(n, m, i + 1) <==> UnderKid(n, m, i) || Under(Child(n, i), m)
    {
      UnderKidStep(n, m, i);
    }
  }

  lemma KidsAll(mem: Memory, owner: Owners, tables: Tables, holes: set<(Node, nat)>, n: Node)
    requires SpaceOk(mem, owner, tables, holes) && n in tables
    ensures PrunedKids(tables, n, ENTRIES) - {n} == Pruned(tables, n)
    ensures ReleasedKids(owner, n, ENTRIES)[tables[n] := Free] == Released(owner, n)
  {
    assert NodeOk(mem, owner, tables, n);
    forall m | m in tables
      ensures Under(n, m) <==> UnderKid(n, m, ENTRIES) || m == n
    {
      assert NodeOk(mem, owner, tables, m);
      assert Under(n, m) && |m.path| == |n.path| ==> m.path == n.path;
    }
    forall p | p in owner && owner[p].Table?
      ensures owner[p].node in tables && (owner[p].node == n ==> p == tables[n])
    {
      assert TableOk(owner, tables, p);
    }
  }

  /** Nothing lies below a table that does not exist. */
  lemma PrunedMissing(mem: Memory, owner: Owners, tables: Tables, holes: set<(Node, nat)>, n: Node)
    requires SpaceOk(mem, owner, tables, holes) && n !in tables
    ensures Pruned(tables, n) == tables && Released(owner, n) == owner
  {
    forall m | m in tables
      ensures !Under(n, m)
    {
      AncestorIn(mem, owner, tables, holes, n, m);
    }
    forall p | p in owner && owner[p].Table?
      ensures owner[p].node in tables
    {
      assert TableOk(owner, tables, p);
    }
  }

  ghost predicate LeafEmpty(mem: Memory, tables: Tables, m: Node) {
    m in tables && |m.path| == 2 ==> AllInvalid(mem, tables[m], ENTRIES)
  }

  ghost predicate EmptyLeaves(mem: Memory, tables: Tables, n: Node) {
    forall m {:trigger LeafEmpty(mem, tables, m)} | m in tables && Under(n, m) :: LeafEmpty(mem, tables, m)
  }

  /** Pages that are not tables below n keep their contents, except page t. */
  ghost predicate OutsideSame(mem: Memory, owner: Owners, mem': Memory, n: Node, t: nat) {
    forall p | p in owner && p != t && !(owner[p].Table? && Under(n, owner[p].node)) ::
      p in mem && p in mem' && mem'[p] == mem[p]
  }

  ghost predicate HolesOutside(holes: set<(Node, nat)>, n: Node) {
    forall h | h in holes :: !Under(n, h.0)
  }

  lemma NotAbove(n: Node, i: nat)
    ensures Under(n, Child(n, i)) && !Under(Child(n, i), n)
  {
  }

  /** What an entry of a table without mapped leaves can be. */
  lemma EntryFacts(mem: Memory, owner: Owners, tables: Tables, holes: set<(Node, nat)>, n: Node, i: nat)
    requires SpaceOk(mem, owner, tables, holes) && n in tables && i < ENTRIES && HolesOutside(holes, n)
             && EmptyLeaves(mem, tables, n)
    ensures tables[n] in mem && i < |mem[tables[n]].words|
    ensures PteValid(Word(mem, tables[n], i)) ==>
              |n.path| < 2 && !PteLeaf(Word(mem, tables[n], i)) && Child(n, i) in tables
                  && tables[Child(n, i)] == PtePage(Word(mem, tables[n], i))
    ensures !PteValid(Word(mem, tables[n], i)) ==> Child(n, i) !in tables
    ensures HolesOutside(holes, Child(n, i)) && EmptyLeaves(mem, tables, Child(n, i))
  {
    assert NodeOk(mem, owner, tables, n);
    if |n.path| < 2 {
      assert (n, i) !in holes;
      assert EdgeOk(mem, tables, n, i);
    } else {
      assert LeafEmpty(mem, tables, n);
      assert Child(n, i) in tables ==> NodeOk(mem, owner, tables, Child(n, i));
    }
    UnderChild(n, i);
    forall m | m in tables && Under(Child(n, i), m)
      ensures LeafEmpty(mem, tables, m)
    {
      assert Under(n, m);
    }
  }

  lemma UnderChild(n: Node, i: nat)
    ensures forall m :: Under(Child(n, i), m) ==> Under(n, m)
  {
  }

  lemma WeakenHoles(mem: Memory, owner: Owners, tables: Tables, holes: set<(Node, nat)>, n: Node, i: nat)
    requires SpaceOk(mem, owner, tables, holes) && HolesOutside(holes, n)
    ensures SpaceOk(mem, owner, tables, holes + {(n, i)}) && HolesOutside(holes + {(n, i)}, Child(n, i))
    ensures Parent(Child(n, i)) == n && Child(n, i).path[|Child(n, i).path| - 1] == i
  {
  }

  /** The state of freewalk on n after i entries. */
  ghost predicate Walked(mem: Memory, owner: Owners, tables: Tables, mem': Memory, owner': Owners, tables': Tables,
                         n: Node, t: nat, i: nat) {
    && tables' == PrunedKids(tables, n, i) && owner' == ReleasedKids(owner, n, i)
    && n in tables' && tables'[n] == t && EmptyLeaves(mem', tables', n)
    && AllInvalid(mem', t, i)
    && OutsideSame(mem, owner, mem', n, t)
  }

  lemma WalkedNone(mem: Memory, owner: Owners, tables: Tables, n: Node, t: nat)
    requires n in tables && tables[n] == t && EmptyLeaves(mem, tables, n) && mem.Keys == owner.Keys
    ensures Walked(mem, owner, tables, mem, owner, tables, n, t, 0)
  {
  }

  lemma WalkedAll(mem: Memory, owner: Owners, tables: Tables, mem1: Memory, owner1: Owners, tables1: Tables,
                  mem2: Memory, owner2: Owners, tables2: Tables, holes: set<(Node, nat)>, n: Node, t: nat)
    requires SpaceOk(mem, owner, tables, holes) && n in tables && tables[n] == t
    requires Walked(mem, owner, tables, mem1, owner1, tables1, n, t, ENTRIES)
    requires tables2 == tables1 - {n} && owner2 == owner1[t := Free] && t in mem2 && mem2 == mem1[t := mem2[t]]
    ensures tables2 == Pruned(tables, n) && owner2 == Released(owner, n) && OutsideSame(mem, owner, mem2, n, t)
  {
    KidsAll(mem, owner, tables, holes, n);
  }

  lemma WalkedStep(mem: Memory, owner: Owners, tables: Tables, mem1: Memory, owner1: Owners, tables1: Tables,
                   mem2: Memory, owner2: Owners, tables2: Tables, holes: set<(Node, nat)>, n: Node, t: nat, i: nat)
    requires i < ENTRIES && SpaceOk(mem1, owner1, tables1, holes)
    requires Walked(mem, owner, tables, mem1, owner1, tables1, n, t, i)
    requires tables2 == Pruned(tables1, Child(n, i)) && owner2 == Released(owner1, Child(n, i))
    requires n in tables2 && tables2[n] == t && !PteValid(Word(mem2, t, i))
             && OutsideSame(mem1, owner1, mem2, Child(n, i), t)
    requires forall j: nat | j < ENTRIES && j != i :: Word(mem2, t, j) == Word(mem1, t, j)
    ensures Walked(mem, owner, tables, mem2, owner2, tables2, n, t, i + 1)
  {
    KidsStep(tables, owner, n, i);
    UnderChild(n, i);
    forall m | m in tables2 && Under(n, m)
      ensures LeafEmpty(mem2, tables2, m)
    {
      assert NodeOk(mem1, owner1, tables1, m) && NodeOk(mem1, owner1, tables1, n);
      assert LeafEmpty(mem1, tables1, m);
      assert m != n ==> mem2[tables1[m]] == mem1[tables1[m]];
      if |m.path| == 2 {
        forall j: nat | j < ENTRIES
          ensures !PteValid(Word(mem2, tables2[m], j))
        {
          assert !PteValid(Word(mem1, tables1[m], j));
        }
      }
    }
    assert OutsideSame(mem, owner, mem2, n, t);
  }

  /** The virtual page with the given indices. */
  function PageAt(a: nat, b: nat, c: nat): nat { (a * 512 + b) * 512 + c }

  lemma PageAtIndices(a: nat, b: nat, c: nat)
    requires a < ENTRIES && b < ENTRIES && c < ENTRIES
    ensures PageAt(a, b, c) < VPAGES && LeafPath(PageAt(a, b, c)) == [a, b] && Index0(PageAt(a, b, c)) == c
  {
  }

  /** An address space that translates nothing has only empty bottom-level tables. */
  lemma NothingMapped(mem: Memory, owner: Owners, tables: Tables, root: nat)
    requires SpaceOk(mem, owner, tables, {}) && Roots(tables, root)
    requires forall w: nat | w < VPAGES :: !PteValid(Lookup(mem, root, w))
    ensures EmptyLeaves(mem, tables, Node(root, []))
  {
    forall m | m in tables && Under(Node(root, []), m)
      ensures LeafEmpty(mem, tables, m)
    {
      assert NodeOk(mem, owner, tables, m);
      if |m.path| == 2 {
        forall i: nat | i < ENTRIES
          ensures !PteValid(Word(mem, tables[m], i))
        {
          var w := PageAt(m.path[0], m.path[1], i);
          PageAtIndices(m.path[0], m.path[1], i);
          LookupIs(mem, owner, tables, root, w);
          assert m == Node(root, LeafPath(w));
        }
      }
    }
  }

  /** Every user page of an address space is behind a valid entry. */
  lemma UsersAreMapped(mem: Memory, owner: Owners, tables: Tables, root: nat, n: nat)
    requires SpaceOk(mem, owner, tables, {}) && Roots(tables, root)
    requires forall w: nat | n <= w < VPAGES :: !PteValid(Lookup(mem, root, w))
    ensures forall p | p in owner && owner[p].User? && owner[p].root == root :: owner[p].v < n
  {
    forall p | p in owner && owner[p].User? && owner[p].root == root
      ensures owner[p].v < n
    {
      assert UserOk(mem, owner, tables, p);
      LookupIs(mem, owner, tables, root, owner[p].v);
    }
  }

  /** Does the address space `root` own the page? */
  predicate OwnedBy(o: Owner, root: nat) {
    (o.Table? && o.node.root == root) || (o.User? && o.root == root)
  }

  ghost predicate OtherSpacesSame(mem: Memory, tables: Tables, mem': Memory, root: nat) {
    forall r: nat, w: nat | Roots(tables, r) && r != root && w < VPAGES :: Lookup(mem', r, w) == Lookup(mem, r, w)
  }

  lemma OtherSpaces(mem: Memory, owner: Owners, tables: Tables, mem': Memory, root: nat)
    requires SpaceOk(mem, owner, tables, {}) && Roots(tables, root)
             && OutsideSame(mem, owner, mem', Node(root, []), root)
    ensures OtherSpacesSame(mem, tables, mem', root)
  {
    forall r: nat, w: nat | Roots(tables, r) && r != root && w < VPAGES
      ensures Lookup(mem', r, w) == Lookup(mem, r, w)
    {
      OtherWalk(mem, owner, tables, mem', root, r, w);
    }
  }

  lemma OtherWalk(mem: Memory, owner: Owners, tables: Tables, mem': Memory, root: nat, r: nat, w: nat)
    requires TreesOk(mem, owner, tables, {}) && Roots(tables, root)
             && OutsideSame(mem, owner, mem', Node(root, []), root)
    requires Roots(tables, r) && r != root && w < VPAGES
    ensures Lookup(mem', r, w) == Lookup(mem, r, w)
  {
    var n2 := Node(r, []);
    var n1 := Child(n2, Index2(w));
    assert NodeOk(mem, owner, tables, Node(root, []));
    assert NodeOk(mem, owner, tables, n2) && EdgeOk(mem, tables, n2, Index2(w));
    if n1 in tables {
      assert NodeOk(mem, owner, tables, n1) && EdgeOk(mem, tables, n1, Index1(w));
      var n0 := Child(n1, Index1(w));
      assert n0 in tables ==> NodeOk(mem, owner, tables, n0);
    }
  }

  lemma StillUnmapped(mem: Memory, owner: Owners, mem1: Memory, owner1: Owners, tables: Tables, root: nat, n: nat)
    requires Roots(tables, root) && Removed(mem, owner, mem1, owner1, tables, root, 0, n, true)
    requires forall w: nat | n <= w < VPAGES :: !PteValid(Lookup(mem, root, w))
    ensures forall w: nat | w < VPAGES :: !PteValid(Lookup(mem1, root, w))
  {
  }

  lemma FreedAll(mem: Memory, owner: Owners, tables: Tables, mem1: Memory, owner1: Owners, mem2: Memory,
                 owner2: Owners, root: nat, n: nat)
    requires forall p | p in owner && owner[p].User? && owner[p].root == root :: owner[p].v < n
    requires Removed(mem, owner, mem1, owner1, tables, root, 0, n, true)
    requires owner2 == Released(owner1, Node(root, [])) && OtherSpacesSame(mem1, tables, mem2, root)
             && SameData(mem1, owner1, mem2)
    ensures owner2 == map p | p in owner :: if OwnedBy(owner[p], root) then Free else owner[p]
    ensures OtherSpacesSame(mem, tables, mem2, root)
    ensures forall p | p in owner2 && (owner2[p].User? || owner2[p] == Held) ::
              p in mem && p in mem2 && mem2[p] == mem[p]
  {
    forall m: Node
      ensures Under(Node(root, []), m) <==> m.root == root
    {
    }
    forall p | p in owner2 && (owner2[p].User? || owner2[p] == Held)
      ensures p in mem && p in mem2 && mem2[p] == mem[p]
    {
      assert owner1[p] == owner2[p] && owner[p] == owner1[p] && !UserIn(owner[p], root, 0, n);
    }
  }

  /** The page numbers from lo to hi - 1. */
  function Span(lo: nat, hi: nat): (r: set<nat>)
    ensures forall p :: p in r <==> lo <= p < hi
    decreases hi - lo
  {
    if hi <= lo then {} else {lo} + Span(lo + 1, hi)
  }

  class Kernel {
    var mem: Memory
    var freelist: nat // page number of the first free page, 0 if there is none
    ghost var owner: Owners
    ghost var tables: Tables
    ghost var free: seq<nat>

    ghost predicate Valid()
      reads this
    {
      ValidBut({})
    }

    ghost predicate ValidBut(holes: set<(Node, nat)>)
      reads this
    {
      SpaceOk(mem, owner, tables, holes) && FreeOk(mem, owner, freelist, free)
    }

    /** Power-on: the pages from lo to hi - 1 exist and are not yet on the list. */
    constructor (lo: nat, hi: nat)
      requires 0 < lo <= hi
      ensures Valid() && tables == map[] && free == [] && owner == map p | p in Span(lo, hi) :: Held
    {
      mem := map p | p in Span(lo, hi) :: Fill(0);
      owner := map p | p in Span(lo, hi) :: Held;
      tables, free, freelist := map[], [], 0;
    }

    /** freerange: every page of the range goes on the list. */
    method Freerange(lo: nat, hi: nat)
      requires Valid() && lo <= hi && forall p | p in Span(lo, hi) :: p in owner && owner[p] == Held
      modifies this`mem, this`freelist, this`owner, this`free
      ensures Valid()
      ensures owner == map p | p in old(owner) :: if p in Span(lo, hi) then Free else old(owner)[p]
      ensures |free| == |old(free)| + (hi - lo)
    {
      var p := lo;
      while p < hi
        invariant lo <= p <= hi && Valid()
        invariant owner == map q | q in old(owner) :: if q in Span(lo, p) then Free else old(owner)[q]
        invariant |free| == |old(free)| + (p - lo)
      {
        assert p in Span(lo, hi);
        Kfree(p);
        p := p + 1;
      }
    }

    /** kalloc: the first free page, or 0. */
    method Kalloc() returns (p: nat)
      requires Valid()
      modifies this`mem, this`freelist, this`owner, this`free
      ensures Valid()
      ensures old(free) == [] ==> p == 0 && mem == old(mem) && owner == old(owner) && free == old(free)
      ensures old(free) != [] ==> p == old(free)[0] && p != 0 && free == old(free)[1..]
      ensures old(free) != [] ==>
                && p in old(owner) && old(owner)[p] == Free && owner == old(owner)[p := Held]
                && mem == old(mem)[p := Fill(JUNK_ALLOC)]
      ensures SameMap(old(mem), mem, tables)
    {
      p := freelist;
      if p != 0 {
        assert FreeLink(mem, owner, free, 0);
        freelist := mem[p].words[0];
        mem := mem[p := Fill(JUNK_ALLOC)];
        owner := owner[p := Held];
        PlainPageKeeps(old(mem), old(owner), tables, {}, p, mem, owner);
        PlainPageLookup(old(mem), old(owner), tables, p, mem);
        PopKeeps(old(mem), old(owner), old(freelist), free, mem, owner, freelist);
        free := free[1..];
      }
    }

    /** kfree: a page in hand goes back to the front of the list. */
    method Kfree(p: nat, ghost holes: set<(Node, nat)> := {})
      requires ValidBut(holes) && p in owner && owner[p] == Held
      modifies this`mem, this`freelist, this`owner, this`free
      ensures ValidBut(holes)
      ensures owner == old(owner)[p := Free] && free == [p] + old(free)
      ensures mem == old(mem)[p := mem[p]]
      ensures holes == {} ==> SameMap(old(mem), mem, tables)
    {
      mem := mem[p := Page(Fill(JUNK_FREE).words[0 := freelist])];
      owner := owner[p := Free];
      PlainPageKeeps(old(mem), old(owner), tables, holes, p, mem, owner);
      if holes == {} {
        PlainPageLookup(old(mem), old(owner), tables, p, mem);
      }
      PushKeeps(old(mem), old(owner), freelist, free, p, mem, owner);
      freelist, free := p, [p] + free;
    }

    /** One level of walk: the table below entry i of t, which may have to be made. */
    method Descend(t: nat, i: nat, alloc: bool, ghost n: Node) returns (ok: bool, child: nat)
      requires Valid() && n in tables && tables[n] == t && |n.path| < 2 && i < ENTRIES
      modifies this`mem, this`freelist, this`owner, this`free, this`tables
      ensures Valid()
      ensures Quiet(old(mem), old(owner), old(tables), mem, owner, tables)
      ensures ok ==> Child(n, i) in tables && tables[Child(n, i)] == child && child != 0
      ensures forall m | m in old(tables) :: m in tables && tables[m] == old(tables)[m]
      ensures forall m | m in tables :: m in old(tables) || (alloc && m == Child(n, i))
      ensures !alloc || !ok || old(Child(n, i) in tables) ==>
                mem == old(mem) && owner == old(owner) && tables == old(tables) && free == old(free)
      ensures !ok ==> Child(n, i) !in tables && (alloc ==> free == [])
    {
      assert NodeOk(mem, owner, tables, n) && EdgeOk(mem, tables, n, i);
      var pte := mem[t].words[i];
      if PteValid(pte) {
        assert NodeOk(mem, owner, tables, Child(n, i));
        return true, PtePage(pte);
      }
      if !alloc {
        return false, 0;
      }
      child := Kalloc();
      if child == 0 {
        return false, 0;
      }
      ok := true;
      Link(t, i, child, n);
    }

    /** The new page is cleared and entered in the table above. */
    method Link(t: nat, i: nat, c: nat, ghost n: Node)
      requires Valid() && n in tables && tables[n] == t && |n.path| < 2 && i < ENTRIES
      requires Child(n, i) !in tables && c in owner && owner[c] == Held
      modifies this`mem, this`owner, this`tables
      ensures Valid()
      ensures SameMap(old(mem), mem, old(tables)) && SameRoots(old(tables), tables)
      ensures owner == old(owner)[c := Table(Child(n, i))] && tables == old(tables)[Child(n, i) := c]
      ensures forall p | p in owner && p != c && !owner[p].Table? :: p in mem && p in old(mem) && mem[p] == old(mem)[p]
    {
      mem := mem[c := Fill(0)];
      PlainPageKeeps(old(mem), owner, tables, {}, c, mem, owner);
      PlainPageLookup(old(mem), owner, tables, c, mem);
      ghost var mid := mem;
      assert NodeOk(mem, owner, tables, n) && EdgeOk(mem, tables, n, i);
      mem := mem[t := Page(mem[t].words[i := c * 1024 + 1])];
      owner, tables := owner[c := Table(Child(n, i))], tables[Child(n, i) := c];
      LinkKeeps(mid, old(owner), old(tables), n, i, c, mem, owner, tables);
      LinkLookup(mid, old(owner), old(tables), n, i, c, mem, owner, tables);
      FreeKeeps(old(mem), old(owner), freelist, free, mem, owner);
    }

    /** walk: the leaf slot for virtual page v, or nothing. */
    method Walk(root: nat, v: nat, alloc: bool) returns (ok: bool, t: nat)
      requires Valid() && Roots(tables, root) && v < MAXPAGES
      modifies this`mem, this`freelist, this`owner, this`free, this`tables
      ensures Valid()
      ensures Quiet(old(mem), old(owner), old(tables), mem, owner, tables)
      ensures ok ==> Node(root, LeafPath(v)) in tables && tables[Node(root, LeafPath(v))] == t
      ensures !alloc ==> mem == old(mem) && owner == old(owner) && tables == old(tables) && free == old(free)
      ensures !ok ==> Node(root, LeafPath(v)) !in tables && (alloc ==> free == [])
    {
      ghost var n := Node(root, []);
      assert NodeOk(mem, owner, tables, n);
      t := root;
      var level := 2;
      while level > 0
        invariant 0 <= level <= 2 && Valid()
        invariant n == Node(root, LeafPath(v)[..2 - level]) && n in tables && tables[n] == t
        invariant Quiet(old(mem), old(owner), old(tables), mem, owner, tables)
        invariant !alloc ==> mem == old(mem) && owner == old(owner) && tables == old(tables) && free == old(free)
      {
        ghost var mem1, tables1, owner1 := mem, tables, owner;
        var down, child := Descend(t, Px(level, v), alloc, n);
        QuietTrans(old(mem), old(owner), old(tables), mem1, owner1, tables1, mem, owner, tables);
        if !down {
          assert Child(n, Px(level, v)) !in tables;
          LeafTableNeeds(mem, owner, tables, root, v, 2 - level);
          return false, 0;
        }
        n := Child(n, Px(level, v));
        t := child;
        level := level - 1;
      }
      assert LeafPath(v)[..2] == LeafPath(v);
      ok := true;
    }

    /** The store *pte = x; `owner'` says what the pages involved now are. */
    method SetLeaf(root: nat, v: nat, t: nat, pte: nat, ghost owner': Owners)
      requires Valid() && Roots(tables, root) && v < MAXPAGES
      requires Node(root, LeafPath(v)) in tables && tables[Node(root, LeafPath(v))] == t
      requires LeafOwners(owner, root, v, pte, owner')
               && forall p | p in owner :: (owner[p] == Free <==> owner'[p] == Free)
      modifies this`mem, this`owner
      ensures Valid() && owner == owner'
      ensures LeafChanged(old(mem), mem, tables, root, v, pte)
      ensures forall p | p in owner && !owner[p].Table? :: p in mem && p in old(mem) && mem[p] == old(mem)[p]
    {
      assert NodeOk(mem, owner, tables, Node(root, LeafPath(v)));
      mem := mem[t := Page(mem[t].words[Index0(v) := pte])];
      owner := owner';
      LeafKeeps(old(mem), old(owner), tables, root, v, pte, mem, owner);
      LeafLookup(old(mem), old(owner), tables, root, v, pte, mem, owner);
      FreeKeeps(old(mem), old(owner), freelist, free, mem, owner);
    }

    /** The body of mappages' loop. */
    method MapPage(root: nat, v: nat, page: nat, perm: nat) returns (ok: bool)
      requires Valid() && Roots(tables, root) && v < MAXPAGES && perm < 1024 && !PteValid(Lookup(mem, root, v))
      modifies this`mem, this`freelist, this`owner, this`free, this`tables
      ensures Valid() && SameRoots(old(tables), tables)
      ensures OnlyTables(old(owner), owner) && SameData(old(mem), old(owner), mem)
      ensures ok ==> LeafChanged(old(mem), mem, old(tables), root, v, MakePte(page, perm))
      ensures !ok ==> SameMap(old(mem), mem, old(tables)) && free == []
    {
      var found, t := Walk(root, v, true);
      if !found {
        return false;
      }
      LookupIs(mem, owner, tables, root, v);
      NoUserAt(mem, owner, tables, root, v);
      ghost var mem1 := mem;
      SetLeaf(root, v, t, MakePte(page, perm), owner);
      ChangedAfterQuiet(old(mem), mem1, mem, old(tables), tables, root, v, MakePte(page, perm));
      ok := true;
    }

    /** mappages: maps a range of virtual pages to consecutive physical pages; when a table
        cannot be allocated, the first k of them stay mapped. */
    method Mappages(root: nat, va: nat, size: nat, page: nat, perm: nat) returns (ok: bool, ghost k: nat)
      requires Valid() && Roots(tables, root) && perm < 1024
      requires size > 0 && (va + size - 1) / PGSIZE < MAXPAGES
      requires forall w: nat | va / PGSIZE <= w <= (va + size - 1) / PGSIZE :: !PteValid(Lookup(mem, root, w))
      modifies this`mem, this`freelist, this`owner, this`free, this`tables
      ensures Valid() && SameRoots(old(tables), tables)
      ensures OnlyTables(old(owner), owner) && SameData(old(mem), old(owner), mem)
      ensures Mapped(old(mem), mem, old(tables), root, va / PGSIZE, k, page, perm)
      ensures ok ==> k == (va + size - 1) / PGSIZE - va / PGSIZE + 1
      ensures !ok ==> k <= (va + size - 1) / PGSIZE - va / PGSIZE && free == []
    {
      var a, last, pa := va / PGSIZE, (va + size - 1) / PGSIZE, page;
      k := 0;
      while true
        invariant Valid() && SameRoots(old(tables), tables)
        invariant va / PGSIZE <= a <= last && k == a - va / PGSIZE && pa == page + k
        invariant OnlyTables(old(owner), owner) && SameData(old(mem), old(owner), mem)
        invariant Mapped(old(mem), mem, old(tables), root, va / PGSIZE, k, page, perm)
        decreases last - a
      {
        ghost var mem1, tables1 := mem, tables;
        var found := MapPage(root, a, pa, perm);
        if !found {
          return false, k;
        }
        k := k + 1;
        MappedStep(old(mem), mem1, mem, old(tables), tables1, root, va / PGSIZE, k - 1, page, perm);
        if a == last {
          break;
        }
        a, pa := a + 1, pa + 1;
      }
      ok := true;
    }

    /** The body of uvmunmap's loop. */
    method UnmapPage(root: nat, v: nat, doFree: bool)
      requires Valid() && Roots(tables, root) && v < MAXPAGES
      requires PteValid(Lookup(mem, root, v)) && PteFlags(Lookup(mem, root, v)) != 1
      requires var p := PtePage(Lookup(mem, root, v));
               if doFree then p in owner && owner[p] == User(root, v) else p !in owner || owner[p] != User(root, v)
      modifies this`mem, this`freelist, this`owner, this`free, this`tables
      ensures Valid() && tables == old(tables) && |free| == |old(free)| + (if doFree then 1 else 0)
      ensures LeafChanged(old(mem), mem, tables, root, v, 0)
      ensures owner == if doFree then old(owner)[PtePage(old(Lookup(mem, root, v))) := Free] else old(owner)
      ensures SameDataBut(old(mem), old(owner), mem, root, v)
      ensures forall q | q in old(owner) && old(owner)[q] == User(root, v) :: q == PtePage(old(Lookup(mem, root, v)))
    {
      var found, t := Walk(root, v, false);
      LookupIs(mem, owner, tables, root, v);
      assert found;
      assert NodeOk(mem, owner, tables, Node(root, LeafPath(v)));
      var pte := mem[t].words[Index0(v)];
      var p := PtePage(pte);
      OneUserAt(mem, owner, tables, root, v);
      SetLeaf(root, v, t, 0, if doFree then owner[p := Held] else owner);
      if doFree {
        ghost var mem1 := mem;
        Kfree(p);
        ChangedThenQuiet(old(mem), mem1, mem, tables, root, v, 0);
      }
    }

    /** One more page of a range of which k pages are unmapped since (mem0, owner0). */
    method UnmapNext(root: nat, first: nat, k: nat, doFree: bool, ghost mem0: Memory, ghost owner0: Owners)
      requires Valid() && Roots(tables, root) && first + k < MAXPAGES
      requires Removed(mem0, owner0, mem, owner, tables, root, first, k, doFree)
               && Removable(mem0, owner0, root, first + k, doFree)
      modifies this`mem, this`freelist, this`owner, this`free, this`tables
      ensures Valid() && tables == old(tables) && |free| == |old(free)| + (if doFree then 1 else 0)
      ensures Removed(mem0, owner0, mem, owner, tables, root, first, k + 1, doFree)
    {
      StillRemovable(mem0, owner0, mem, owner, tables, root, first, k, doFree);
      UnmapPage(root, first + k, doFree);
      RemovedStep(mem0, owner0, old(mem), old(owner), mem, owner, tables, root, first, k, doFree);
    }

    /** uvmunmap: removes npages mappings from virtual page `first` on, and frees the pages if asked. */
    method Uvmunmap(root: nat, first: nat, npages: nat, doFree: bool)
      requires Valid() && Roots(tables, root) && first + npages <= MAXPAGES
      requires forall w: nat | first <= w < first + npages :: Removable(mem, owner, root, w, doFree)
      modifies this`mem, this`freelist, this`owner, this`free, this`tables
      ensures Valid() && tables == old(tables) && |free| == |old(free)| + (if doFree then npages else 0)
      ensures Removed(old(mem), old(owner), mem, owner, tables, root, first, npages, doFree)
    {
      hide Removed;
      var a := first;
      RemovedNone(mem, owner, tables, root, first, doFree);
      while a < first + npages
        invariant first <= a <= first + npages && Valid() && tables == old(tables)
                  && |free| == |old(free)| + (if doFree then a - first else 0)
        invariant Removed(old(mem), old(owner), mem, owner, tables, root, first, a - first, doFree)
      {
        UnmapNext(root, first, a - first, doFree, old(mem), old(owner));
        a := a + 1;
      }
    }

    /** kalloc followed by memset or memmove of the whole page. */
    method Claim(content: Page) returns (p: nat)
      requires Valid()
      modifies this`mem, this`freelist, this`owner, this`free
      ensures Valid()
      ensures old(free) == [] ==> p == 0 && mem == old(mem) && owner == old(owner) && free == []
      ensures old(free) != [] ==>
                && p != 0 && p in old(owner) && old(owner)[p] == Free && owner == old(owner)[p := Held]
                && mem == old(mem)[p := content]
      ensures SameMap(old(mem), mem, tables)
    {
      p := Kalloc();
      if p != 0 {
        ghost var mem1 := mem;
        mem := mem[p := content];
        PlainPageKeeps(mem1, owner, tables, {}, p, mem, owner);
        PlainPageLookup(mem1, owner, tables, p, mem);
        FreeKeeps(mem1, owner, freelist, free, mem, owner);
      }
    }

    /** uvmcreate: an empty address space, or 0. */
    method Uvmcreate() returns (root: nat)
      requires Valid()
      modifies this`mem, this`freelist, this`owner, this`free, this`tables
      ensures Valid()
      ensures root == 0 ==> old(free) == [] && mem == old(mem) && owner == old(owner) && tables == old(tables)
      ensures root != 0 ==> !Roots(old(tables), root) && tables == old(tables)[Node(root, []) := root]
      ensures root != 0 ==>
                root in old(owner) && old(owner)[root] == Free && owner == old(owner)[root := Table(Node(root, []))]
      ensures root != 0 ==> forall w: nat :: Lookup(mem, root, w) == 0
      ensures SameMap(old(mem), mem, old(tables)) && SameData(old(mem), old(owner), mem)
    {
      root := Claim(Fill(0));
      if root != 0 {
        ghost var owner1 := owner;
        owner, tables := owner[root := Table(Node(root, []))], tables[Node(root, []) := root];
        RootKeeps(mem, owner1, old(tables), root, owner, tables);
        FreeKeeps(mem, owner1, freelist, free, mem, owner);
      }
    }

    /** A page in hand that has been mapped now belongs to the mapping. */
    ghost method Adopt(root: nat, v: nat, page: nat)
      requires Valid() && Roots(tables, root) && v < MAXPAGES && page in owner && owner[page] == Held
      requires PteValid(Lookup(mem, root, v)) && PtePage(Lookup(mem, root, v)) == page
      modifies this`owner
      ensures Valid() && owner == old(owner)[page := User(root, v)]
    {
      owner := owner[page := User(root, v)];
      AdoptKeeps(mem, old(owner), tables, root, v, page, owner);
      FreeKeeps(mem, old(owner), freelist, free, mem, owner);
    }

    /** A page is allocated, given its contents and mapped; on failure it is freed again. */
    method AddPage(root: nat, v: nat, content: Page, perm: nat) returns (ok: bool, ghost p: nat)
      requires Valid() && Roots(tables, root) && v < MAXPAGES && perm < 1024 && !PteValid(Lookup(mem, root, v))
      modifies this`mem, this`freelist, this`owner, this`free, this`tables
      ensures Valid() && SameRoots(old(tables), tables)
      ensures ok ==> AddedPage(old(mem), old(owner), old(tables), mem, owner, root, v, content, perm, p)
      ensures !ok ==> Quiet(old(mem), old(owner), old(tables), mem, owner, tables) && |free| <= 1
    {
      var page := Claim(content);
      p := page;
      if page == 0 {
        return false, 0;
      }
      ghost var mem1, owner1 := mem, owner;
      var mapped := MapPage(root, v, page, perm);
      ghost var mem2, owner2 := mem, owner;
      if !mapped {
        Kfree(page);
        GaveUp(old(mem), old(owner), old(tables), mem1, owner1, mem2, owner2, tables, mem, owner, page);
        return false, 0;
      }
      MakePteFields(page, perm);
      Adopt(root, v, page);
      Succeeded(old(mem), old(owner), old(tables), mem1, owner1, mem, owner2, owner, root, v, content, perm, page);
      ok := true;
    }

    /** uvmdealloc: shrinks from oldsz to newsz bytes. */
    method Uvmdealloc(root: nat, oldsz: nat, newsz: nat) returns (r: nat)
      requires Valid() && Roots(tables, root) && oldsz <= MAXPAGES * PGSIZE
      requires forall w: nat | Up(newsz) <= w < Up(oldsz) :: Removable(mem, owner, root, w, true)
      modifies this`mem, this`freelist, this`owner, this`free, this`tables
      ensures Valid() && tables == old(tables)
      ensures r == if newsz >= oldsz then oldsz else newsz
      ensures newsz >= oldsz ==> mem == old(mem) && owner == old(owner) && free == old(free)
      ensures newsz < oldsz ==> |free| == |old(free)| + Up(oldsz) - Up(newsz)
      ensures newsz < oldsz ==>
                Removed(old(mem), old(owner), mem, owner, tables, root, Up(newsz), Up(oldsz) - Up(newsz), true)
    {
      if newsz >= oldsz {
        return oldsz;
      }
      UpMonotone(newsz, oldsz);
      if Up(newsz) < Up(oldsz) {
        Uvmunmap(root, Up(newsz), Up(oldsz) - Up(newsz), true);
      } else {
        RemovedNone(mem, owner, tables, root, Up(newsz), true);
      }
      r := newsz;
    }

    /** One more page for an address space that has grown by k pages since (mem0, owner0, tables0). */
    method GrowOne(root: nat, lo: nat, k: nat, content: Page, perm: nat, src: Source,
                   ghost mem0: Memory, ghost owner0: Owners, ghost tables0: Tables) returns (ok: bool)
      requires Valid() && Roots(tables0, root) && SameRoots(tables0, tables) && lo + k < MAXPAGES
      requires Grew(mem0, owner0, tables0, mem, owner, root, lo, k, src) && !PteValid(Lookup(mem0, root, lo + k))
      requires content == Content(mem0, src, lo + k) && perm == Perm(mem0, src, lo + k)
      modifies this`mem, this`freelist, this`owner, this`free, this`tables
      ensures Valid() && SameRoots(tables0, tables) && (!ok ==> |free| <= 1)
      ensures Grew(mem0, owner0, tables0, mem, owner, root, lo, if ok then k + 1 else k, src)
    {
      ghost var p;
      ok, p := AddPage(root, lo + k, content, perm);
      if ok {
        GrewStep(mem0, owner0, tables0, old(mem), old(owner), old(tables), mem, owner, root, lo, k, src, p);
      } else {
        GrewQuiet(mem0, owner0, tables0, old(mem), old(owner), old(tables), mem, owner, tables, root, lo, k, src);
      }
    }

    /** The error exit of uvmalloc: the pages from lo to a are given back. */
    method UndoGrowth(root: nat, lo: nat, a: nat, ghost mem0: Memory, ghost owner0: Owners, ghost tables0: Tables)
      requires Valid() && Roots(tables, root) && SameRoots(tables0, tables) && lo <= a <= MAXPAGES
      requires Grew(mem0, owner0, tables0, mem, owner, root, lo, a - lo, Zeroed)
      requires forall w: nat | lo <= w < a :: !PteValid(Lookup(mem0, root, w))
      requires forall p | p in owner0 :: !UserIn(owner0[p], root, lo, a - lo)
      modifies this`mem, this`freelist, this`owner, this`free, this`tables
      ensures Valid() && tables == old(tables) && |free| == |old(free)| + (a - lo)
      ensures SameTranslation(mem0, mem, tables0) && OnlyTables(owner0, owner) && SameData(mem0, owner0, mem)
    {
      forall w: nat | lo <= w < a
        ensures Removable(mem, owner, root, w, true)
      {
        GrewRemovable(mem0, owner0, tables0, mem, owner, root, lo, a - lo, Zeroed, w);
      }
      UpOfPages(a);
      UpOfPages(lo);
      var _ := Uvmdealloc(root, a * PGSIZE, lo * PGSIZE);
      if a == lo {
        RemovedNone(mem, owner, tables, root, lo, true);
      }
      GrewThenRemoved(mem0, owner0, tables0, old(mem), old(owner), tables, mem, owner, root, lo, a - lo, Zeroed);
    }

    /** uvmalloc: grows from oldsz to newsz bytes. It fails only when memory runs
        out: then the address space is as before, every page but those turned into tables is
        back, and no more pages are free than were asked for. */
    method Uvmalloc(root: nat, oldsz: nat, newsz: nat) returns (r: nat, ghost ok: bool)
      requires Valid() && Roots(tables, root) && newsz <= MAXPAGES * PGSIZE
      requires forall w: nat | Up(oldsz) <= w < Up(newsz) :: !PteValid(Lookup(mem, root, w))
      modifies this`mem, this`freelist, this`owner, this`free, this`tables
      ensures Valid() && SameRoots(old(tables), tables)
      ensures newsz < oldsz ==>
                r == oldsz && mem == old(mem) && owner == old(owner) && tables == old(tables) && free == old(free)
      ensures newsz >= oldsz ==> r == if ok then newsz else 0
      ensures newsz >= oldsz && ok ==>
                Grew(old(mem), old(owner), old(tables), mem, owner, root, Up(oldsz), Up(newsz) - Up(oldsz), Zeroed)
      ensures newsz >= oldsz && ok ==>
                forall w: nat {:trigger ZeroedPage(old(owner), mem, root, w)}
                | (oldsz + 4095) / 4096 <= w && w * 4096 < newsz ::
                  ZeroedPage(old(owner), mem, root, w)
      ensures newsz >= oldsz && !ok ==> |free| <= Up(newsz) - Up(oldsz)
      ensures newsz >= oldsz && !ok ==>
                && SameTranslation(old(mem), mem, old(tables)) && OnlyTables(old(owner), owner)
                && SameData(old(mem), old(owner), mem)
    {
      if newsz < oldsz {
        return oldsz, true;
      }
      UpMonotone(oldsz, newsz);
      hide Grew, ZeroedPage;
      var grown := GrowTo(root, Up(oldsz), newsz);
      r, ok := if grown then newsz else 0, grown;
      if ok {
        forall w: nat | (oldsz + 4095) / 4096 <= w && w * 4096 < newsz
          ensures ZeroedPage(old(owner), mem, root, w)
        {
          ZeroedIs(old(mem), old(owner), old(tables), mem, owner, root, Up(oldsz), newsz, w);
        }
      }
    }

    /** The loop of uvmalloc, from page lo up to newsz bytes. */
    method GrowTo(root: nat, lo: nat, newsz: nat) returns (ok: bool)
      requires Valid() && Roots(tables, root) && newsz <= MAXPAGES * PGSIZE && lo <= Up(newsz)
      requires forall w: nat | lo <= w < Up(newsz) :: !PteValid(Lookup(mem, root, w))
      modifies this`mem, this`freelist, this`owner, this`free, this`tables
      ensures Valid() && SameRoots(old(tables), tables)
      ensures ok ==> Grew(old(mem), old(owner), old(tables), mem, owner, root, lo, Up(newsz) - lo, Zeroed)
      ensures !ok ==> |free| <= Up(newsz) - lo
      ensures !ok ==>
                && SameTranslation(old(mem), mem, old(tables)) && OnlyTables(old(owner), owner)
                && SameData(old(mem), old(owner), mem)
    {
      hide Grew;
      var a := lo;
      UpGuard(0, newsz);
      NoUsersIn(mem, owner, tables, root, lo, Up(newsz) - lo);
      GrewNone(mem, owner, tables, root, lo, Zeroed);
      while a * PGSIZE < newsz
        invariant lo <= a <= Up(newsz) && Valid() && SameRoots(old(tables), tables)
        invariant Grew(old(mem), old(owner), old(tables), mem, owner, root, lo, a - lo, Zeroed)
        decreases Up(newsz) - a
      {
        UpGuard(a, newsz);
        var added := GrowOne(root, lo, a - lo, Fill(0), PERM_USER, Zeroed, old(mem), old(owner), old(tables));
        if !added {
          UndoGrowth(root, lo, a, old(mem), old(owner), old(tables));
          return false;
        }
        a := a + 1;
      }
      UpGuard(a, newsz);
      ok := true;
    }

    /** uvmcopy: the child gets fresh pages with the contents and flags of the parent's. It
        fails only when memory runs out: then the child's address space is as before, its pages
        are back, and no more pages are free than were to be copied. */
    method Uvmcopy(parent: nat, child: nat, sz: nat) returns (ok: bool)
      requires Valid() && Roots(tables, parent) && Roots(tables, child) && parent != child && sz <= MAXPAGES * PGSIZE
      requires forall w: nat | w < Up(sz) :: Copyable(mem, owner, parent, child, w)
      modifies this`mem, this`freelist, this`owner, this`free, this`tables
      ensures Valid() && SameRoots(old(tables), tables)
      ensures ok ==> Grew(old(mem), old(owner), old(tables), mem, owner, child, 0, Up(sz), CopyOf(parent))
      ensures ok ==>
                forall w: nat {:trigger CopiedPage(old(mem), old(owner), mem, parent, child, w)} | w * 4096 < sz ::
                  CopiedPage(old(mem), old(owner), mem, parent, child, w)
      ensures !ok ==> |free| <= Up(sz)
      ensures !ok ==>
                && SameTranslation(old(mem), mem, old(tables)) && OnlyTables(old(owner), owner)
                && SameData(old(mem), old(owner), mem)
    {
      hide Grew, CopiedPage;
      var i := 0;
      forall w: nat | 0 <= w < Up(sz)
        ensures !PteValid(Lookup(mem, child, w))
      {
        assert Copyable(mem, owner, parent, child, w);
      }
      NoUsersIn(mem, owner, tables, child, 0, Up(sz));
      GrewNone(mem, owner, tables, child, 0, CopyOf(parent));
      while i * PGSIZE < sz
        invariant 0 <= i <= Up(sz) && Valid() && SameRoots(old(tables), tables)
        invariant Grew(old(mem), old(owner), old(tables), mem, owner, child, 0, i, CopyOf(parent))
        decreases Up(sz) - i
      {
        UpGuard(i, sz);
        var added := CopyOne(parent, child, i, old(mem), old(owner), old(tables));
        if !added {
          UndoCopy(parent, child, i, old(mem), old(owner), old(tables));
          return false;
        }
        i := i + 1;
      }
      UpGuard(i, sz);
      ok := true;
      forall w: nat | w * 4096 < sz
        ensures CopiedPage(old(mem), old(owner), mem, parent, child, w)
      {
        CopiedIs(old(mem), old(owner), old(tables), mem, owner, parent, child, sz, w);
      }
    }

    /** The body of uvmcopy's loop. */
    method CopyOne(parent: nat, child: nat, w: nat, ghost mem0: Memory, ghost owner0: Owners, ghost tables0: Tables)
        returns (ok: bool)
      requires Valid() && Roots(tables, parent) && Roots(tables, child) && parent != child && w < MAXPAGES
               && SameRoots(tables0, tables)
      requires Grew(mem0, owner0, tables0, mem, owner, child, 0, w, CopyOf(parent))
               && Copyable(mem0, owner0, parent, child, w)
      modifies this`mem, this`freelist, this`owner, this`free, this`tables
      ensures Valid() && SameRoots(tables0, tables) && (!ok ==> |free| <= 1)
      ensures Grew(mem0, owner0, tables0, mem, owner, child, 0, if ok then w + 1 else w, CopyOf(parent))
    {
      var pte := ReadParent(parent, child, w, mem0, owner0, tables0);
      ok := GrowOne(child, 0, w, mem[PtePage(pte)], PteFlags(pte), CopyOf(parent), mem0, owner0, tables0);
    }

    /** The parent's entry for page w, found by walk, and still what it was at the start. */
    method ReadParent(parent: nat, child: nat, w: nat, ghost mem0: Memory, ghost owner0: Owners,
                      ghost tables0: Tables) returns (pte: nat)
      requires Valid() && Roots(tables, parent) && parent != child && w < MAXPAGES && SameRoots(tables0, tables)
      requires Grew(mem0, owner0, tables0, mem, owner, child, 0, w, CopyOf(parent)) && UserPage(mem0, owner0, parent, w)
      modifies this`mem, this`freelist, this`owner, this`free, this`tables
      ensures mem == old(mem) && owner == old(owner) && tables == old(tables) && free == old(free)
              && freelist == old(freelist)
      ensures pte == Lookup(mem0, parent, w) && PtePage(pte) in mem
              && mem[PtePage(pte)] == Content(mem0, CopyOf(parent), w)
    {
      var found, t := Walk(parent, w, false);
      assert Lookup(mem, parent, w) == Lookup(mem0, parent, w);
      LookupIs(mem, owner, tables, parent, w);
      assert found;
      assert NodeOk(mem, owner, tables, Node(parent, LeafPath(w)));
      pte := mem[t].words[Index0(w)];
    }

    /** The error exit of uvmcopy. */
    method UndoCopy(parent: nat, child: nat, n: nat, ghost mem0: Memory, ghost owner0: Owners, ghost tables0: Tables)
      requires Valid() && Roots(tables, child) && SameRoots(tables0, tables) && n <= MAXPAGES
      requires Grew(mem0, owner0, tables0, mem, owner, child, 0, n, CopyOf(parent))
      requires forall w: nat | w < n :: Copyable(mem0, owner0, parent, child, w)
      requires forall p | p in owner0 :: !UserIn(owner0[p], child, 0, n)
      modifies this`mem, this`freelist, this`owner, this`free, this`tables
      ensures Valid() && tables == old(tables) && |free| == |old(free)| + n
      ensures SameTranslation(mem0, mem, tables0) && OnlyTables(owner0, owner) && SameData(mem0, owner0, mem)
    {
      forall w: nat | 0 <= w < n
        ensures Removable(mem, owner, child, w, true)
      {
        assert Copyable(mem0, owner0, parent, child, w);
        LeafFlags(Lookup(mem0, parent, w));
        GrewRemovable(mem0, owner0, tables0, mem, owner, child, 0, n, CopyOf(parent), w);
      }
      Uvmunmap(child, 0, n, true);
      forall w: nat | 0 <= w < n
        ensures !PteValid(Lookup(mem0, child, w))
      {
        assert Copyable(mem0, owner0, parent, child, w);
      }
      GrewThenRemoved(mem0, owner0, tables0, old(mem), old(owner), tables, mem, owner, child, 0, n, CopyOf(parent));
    }

    /** freewalk's work on entry i of table t. */
    method FreeEntry(t: nat, i: nat, ghost n: Node, ghost holes: set<(Node, nat)>)
      requires ValidBut(holes) && n in tables && tables[n] == t && i < ENTRIES && |n.path| <= 2
      requires HolesOutside(holes, n) && EmptyLeaves(mem, tables, n)
      modifies this`mem, this`freelist, this`owner, this`free, this`tables
      ensures ValidBut(holes)
      ensures tables == Pruned(old(tables), Child(n, i)) && owner == Released(old(owner), Child(n, i))
      ensures n in tables && tables[n] == t && !PteValid(Word(mem, t, i))
      ensures OutsideSame(old(mem), old(owner), mem, Child(n, i), t)
      ensures forall j: nat | j < ENTRIES && j != i :: Word(mem, t, j) == old(Word(mem, t, j))
      decreases 2 - |n.path|, 0
    {
      ghost var c := Child(n, i);
      NotAbove(n, i);
      EntryFacts(mem, owner, tables, holes, n, i);
      var pte := mem[t].words[i];
      if PteValid(pte) && !PteLeaf(pte) {
        var child := PtePage(pte);
        WeakenHoles(mem, owner, tables, holes, n, i);
        assert NodeOk(mem, owner, tables, n) && NodeOk(mem, owner, tables, c);
        Freewalk(child, c, holes + {(n, i)});
        ghost var mem1 := mem;
        assert mem1[t] == old(mem)[t];
        assert NodeOk(mem, owner, tables, n);
        mem := mem[t := Page(mem[t].words[i := 0])];
        ClearKeeps(mem1, owner, tables, holes, n, i, mem);
        FreeKeeps(mem1, owner, freelist, free, mem, owner);
      } else if PteValid(pte) {
        assert false;
      } else {
        PrunedMissing(mem, owner, tables, holes, c);
      }
    }

    /** The last step of freewalk: the emptied table itself. */
    method FreeTable(t: nat, ghost n: Node, ghost holes: set<(Node, nat)>)
      requires ValidBut(holes) && n in tables && tables[n] == t && AllInvalid(mem, t, ENTRIES) && HolesOutside(holes, n)
      requires n.path != [] ==> (Parent(n), n.path[|n.path| - 1]) in holes
      modifies this`mem, this`freelist, this`owner, this`free, this`tables
      ensures ValidBut(holes) && tables == old(tables) - {n} && owner == old(owner)[t := Free]
              && mem == old(mem)[t := mem[t]]
    {
      assert NodeOk(mem, owner, tables, n);
      owner, tables := owner[t := Held], tables - {n};
      DropKeeps(mem, old(owner), old(tables), holes, n, owner, tables);
      FreeKeeps(mem, old(owner), freelist, free, mem, owner);
      Kfree(t, holes);
    }

    /** One turn of freewalk's loop, i entries after (mem0, owner0, tables0). */
    method FreeNext(t: nat, i: nat, ghost n: Node, ghost holes: set<(Node, nat)>,
                    ghost mem0: Memory, ghost owner0: Owners, ghost tables0: Tables)
      requires ValidBut(holes) && i < ENTRIES && |n.path| <= 2 && HolesOutside(holes, n)
      requires Walked(mem0, owner0, tables0, mem, owner, tables, n, t, i)
      modifies this`mem, this`freelist, this`owner, this`free, this`tables
      ensures ValidBut(holes) && Walked(mem0, owner0, tables0, mem, owner, tables, n, t, i + 1)
      decreases 2 - |n.path|, 1
    {
      FreeEntry(t, i, n, holes);
      WalkedStep(mem0, owner0, tables0, old(mem), old(owner), old(tables), mem, owner, tables, holes, n, t, i);
    }

    /** The loop of freewalk. */
    method FreeEntries(t: nat, ghost n: Node, ghost holes: set<(Node, nat)>, ghost mem0: Memory,
                       ghost owner0: Owners, ghost tables0: Tables)
      requires ValidBut(holes) && |n.path| <= 2 && HolesOutside(holes, n)
      requires Walked(mem0, owner0, tables0, mem, owner, tables, n, t, 0)
      modifies this`mem, this`freelist, this`owner, this`free, this`tables
      ensures ValidBut(holes) && Walked(mem0, owner0, tables0, mem, owner, tables, n, t, ENTRIES)
      decreases 2 - |n.path|, 2
    {
      hide Walked;
      var i := 0;
      while i < ENTRIES
        invariant 0 <= i <= ENTRIES && ValidBut(holes)
        invariant Walked(mem0, owner0, tables0, mem, owner, tables, n, t, i)
      {
        FreeNext(t, i, n, holes, mem0, owner0, tables0);
        i := i + 1;
      }
    }

    /** The end of freewalk. */
    method FreeLast(t: nat, ghost n: Node, ghost holes: set<(Node, nat)>,
                    ghost mem0: Memory, ghost owner0: Owners, ghost tables0: Tables)
      requires ValidBut(holes) && HolesOutside(holes, n) && SpaceOk(mem0, owner0, tables0, holes) && n in tables0
               && tables0[n] == t
      requires Walked(mem0, owner0, tables0, mem, owner, tables, n, t, ENTRIES)
      requires n.path != [] ==> (Parent(n), n.path[|n.path| - 1]) in holes
      modifies this`mem, this`freelist, this`owner, this`free, this`tables
      ensures ValidBut(holes)
      ensures tables == Pruned(tables0, n) && owner == Released(owner0, n) && OutsideSame(mem0, owner0, mem, n, t)
    {
      FreeTable(t, n, holes);
      WalkedAll(mem0, owner0, tables0, old(mem), old(owner), old(tables), mem, owner, tables, holes, n, t);
    }

    /** freewalk: frees a table and all tables below it; no leaf may be mapped any more. */
    method Freewalk(t: nat, ghost n: Node, ghost holes: set<(Node, nat)>)
      requires ValidBut(holes) && n in tables && tables[n] == t && |n.path| <= 2
      requires HolesOutside(holes, n) && EmptyLeaves(mem, tables, n)
      requires n.path != [] ==> (Parent(n), n.path[|n.path| - 1]) in holes
      modifies this`mem, this`freelist, this`owner, this`free, this`tables
      ensures ValidBut(holes)
      ensures tables == Pruned(old(tables), n) && owner == Released(old(owner), n)
      ensures OutsideSame(old(mem), old(owner), mem, n, t)
      decreases 2 - |n.path|, 3
    {
      ghost var mem0, owner0, tables0 := mem, owner, tables;
      WalkedNone(mem, owner, tables, n, t);
      FreeEntries(t, n, holes, mem0, owner0, tables0);
      FreeLast(t, n, holes, mem0, owner0, tables0);
    }

    /** uvmfree: unmaps [0, sz) and frees the tables. If nothing else was mapped, every page
        the address space owned is free again and no other page has changed hands. */
    method Uvmfree(root: nat, sz: nat)
      requires Valid() && Roots(tables, root) && sz <= MAXPAGES * PGSIZE
      requires forall w: nat | w < Up(sz) :: Removable(mem, owner, root, w, true)
      requires forall w: nat | Up(sz) <= w < VPAGES :: !PteValid(Lookup(mem, root, w))
      modifies this`mem, this`freelist, this`owner, this`free, this`tables
      ensures Valid() && !Roots(tables, root)
      ensures owner == map p | p in old(owner) :: if OwnedBy(old(owner)[p], root) then Free else old(owner)[p]
      ensures OtherSpacesSame(old(mem), old(tables), mem, root)
      ensures forall p | p in owner && (owner[p].User? || owner[p] == Held) ::
                p in mem && p in old(mem) && mem[p] == old(mem)[p]
    {
      UpGuard(0, sz);
      UsersAreMapped(mem, owner, tables, root, Up(sz));
      if sz > 0 {
        Uvmunmap(root, 0, Up(sz), true);
      } else {
        RemovedNone(mem, owner, tables, root, 0, true);
      }
      ghost var mem1, owner1 := mem, owner;
      StillUnmapped(old(mem), old(owner), mem, owner, tables, root, Up(sz));
      FreeTables(root);
      FreedAll(old(mem), old(owner), old(tables), mem1, owner1, mem, owner, root, Up(sz));
    }

    /** freewalk from the root of an address space that translates nothing. */
    method FreeTables(root: nat)
      requires Valid() && Roots(tables, root)
      requires forall w: nat | w < VPAGES :: !PteValid(Lookup(mem, root, w))
      modifies this`mem, this`freelist, this`owner, this`free, this`tables
      ensures Valid() && !Roots(tables, root)
      ensures owner == Released(old(owner), Node(root, []))
      ensures OtherSpacesSame(old(mem), old(tables), mem, root)
      ensures SameData(old(mem), old(owner), mem)
    {
      NothingMapped(mem, owner, tables, root);
      assert NodeOk(mem, owner, tables, Node(root, []));
      Freewalk(root, Node(root, []), {});
      OtherSpaces(old(mem), old(owner), old(tables), mem, root);
    }
  }
}
