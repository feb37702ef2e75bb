/**
 Sv39 page tables as they lie in physical memory, and the ownership of every page
 the allocator manages. A page is 512 words; a page-table entry is a word with the
 physical page number above ten flag bits (section 4.4 of the RISC-V privileged
 architecture). Addresses are given as page numbers.
 */
module PageTree {

  const ENTRIES: nat := 512
  const VPAGES: nat := 0x800_0000 // 512 * 512 * 512, the slots of a three-level tree
  const MAXPAGES: nat := 0x400_0000 // MAXVA / PGSIZE: one bit less than Sv39 allows

  datatype Page = Page(words: seq<nat>)
  type Memory = map<nat, Page>

  // ------------------------------------------------------------------ entries

  predicate PteValid(pte: nat) { pte % 2 == 1 }
  function PteFlags(pte: nat): nat { pte % 1024 }
  function PtePage(pte: nat): nat { pte / 1024 }
  predicate PteLeaf(pte: nat) { PteFlags(pte) / 2 % 8 != 0 } // any of PTE_R, PTE_W, PTE_X

  /** PA2PTE(pa) | perm | PTE_V */
  function MakePte(page: nat, perm: nat): nat
    requires perm < 1024
  {
    page * 1024 + (if perm % 2 == 1 then perm else perm + 1)
  }

  lemma PteFields(page: nat, flags: nat)
    requires flags < 1024
    ensures PtePage(page * 1024 + flags) == page && PteFlags(page * 1024 + flags) == flags
    ensures PteValid(page * 1024 + flags) <==> flags % 2 == 1
  {
    assert page * 1024 + flags == 2 * (page * 512 + flags / 2) + flags % 2;
  }

  lemma MakePteFields(page: nat, perm: nat)
    requires perm < 1024
    ensures PteValid(MakePte(page, perm)) && PtePage(MakePte(page, perm)) == page
    ensures PteFlags(MakePte(page, perm)) == if perm % 2 == 1 then perm else perm + 1
    ensures PteLeaf(MakePte(page, perm)) <==> perm / 2 % 8 != 0
  {
    PteFields(page, if perm % 2 == 1 then perm else perm + 1);
  }

  /** The entry for a table: PA2PTE(pa) | PTE_V. */
  lemma TablePte(page: nat)
    ensures PteValid(page * 1024 + 1) && PtePage(page * 1024 + 1) == page && PteFlags(page * 1024 + 1) == 1
  {
    PteFields(page, 1);
  }

  // ------------------------------------------------- the three-level radix tree

  function Index2(v: nat): nat { v / 512 / 512 }
  function Index1(v: nat): nat { v / 512 % 512 }
  function Index0(v: nat): nat { v % 512 }

  /** The path of the bottom-level table for virtual page v. */
  function LeafPath(v: nat): seq<nat> { [Index2(v), Index1(v)] }

  /** Virtual pages have distinct leaf slots. */
  /** The three indices are the digits of the page number in base 512. */
  lemma IndicesAre(v: nat)
    requires v < 512 * 512 * 512
    ensures Index2(v) < 512 && Index1(v) < 512 && Index0(v) < 512
    ensures (Index2(v) * 512 + Index1(v)) * 512 + Index0(v) == v
  {
  }

  lemma SlotsDistinct(v: nat, w: nat)
    requires LeafPath(v) == LeafPath(w) && Index0(v) == Index0(w)
    ensures v == w
  {
    assert Index2(v) == LeafPath(v)[0] == LeafPath(w)[0] && Index1(v) == LeafPath(v)[1] == LeafPath(w)[1];
    assert v / 512 == w / 512;
  }

  function Word(mem: Memory, p: nat, i: nat): nat {
    if p in mem && i < |mem[p].words| then mem[p].words[i] else 0
  }

  /** What the hardware finds for virtual page v: the leaf entry, or 0. */
  function Lookup(mem: Memory, root: nat, v: nat): nat {
    var e2 := Word(mem, root, Index2(v));
    if !PteValid(e2) then 0
    else
      var e1 := Word(mem, PtePage(e2), Index1(v));
      if !PteValid(e1) then 0 else Word(mem, PtePage(e1), Index0(v))
  }

  // ---------------------------------------------------------------- ownership

  /** A table of the address space `root`, reached by the indices of `path`. */
  datatype Node = Node(root: nat, path: seq<nat>)

  /** What a physical page is used for; `Held` pages are in the hands of some caller. */
  datatype Owner = Free | Table(node: Node) | User(root: nat, v: nat) | Held

  type Owners = map<nat, Owner>
  type Tables = map<Node, nat>

  function Parent(n: Node): Node
    requires n.path != []
  {
    Node(n.root, n.path[..|n.path| - 1])
  }

  function Child(n: Node, i: nat): Node { Node(n.root, n.path + [i]) }

  ghost predicate NodeOk(mem: Memory, owner: Owners, tables: Tables, n: Node) {
    && n in tables
    && |n.path| <= 2 && (forall k | 0 <= k < |n.path| :: n.path[k] < ENTRIES)
    && tables[n] in mem && |mem[tables[n]].words| == ENTRIES
    && tables[n] in owner && owner[tables[n]] == Table(n)
    && (n.path == [] ==> tables[n] == n.root)
    && (n.path != [] ==> Parent(n) in tables)
  }

  /** Entry i of the interior table n is empty or points to the table below it. */
  ghost predicate EdgeOk(mem: Memory, tables: Tables, n: Node, i: nat) {
    && n in tables
    && var pte := Word(mem, tables[n], i);
       if PteValid(pte) then PteFlags(pte) == 1 && Child(n, i) in tables && tables[Child(n, i)] == PtePage(pte)
       else Child(n, i) !in tables
  }

  /** The tables form trees without sharing. `hole` is an entry about to be cleared. */
  ghost predicate TreesOk(mem: Memory, owner: Owners, tables: Tables, holes: set<(Node, nat)>) {
    && (forall n {:trigger NodeOk(mem, owner, tables, n)} | n in tables :: NodeOk(mem, owner, tables, n))
    && (forall n, i: nat {:trigger EdgeOk(mem, tables, n, i)} |
          n in tables && |n.path| < 2 && i < ENTRIES && (n, i) !in holes :: EdgeOk(mem, tables, n, i))
    && (forall p {:trigger TableOk(owner, tables, p)} | p in owner :: TableOk(owner, tables, p))
  }

  /** A page that is used as a table is the one registered for its place. */
  ghost predicate TableOk(owner: Owners, tables: Tables, p: nat) {
    p in owner && owner[p].Table? ==> owner[p].node in tables && tables[owner[p].node] == p
  }

  /** The page of a user mapping is the one its leaf entry names. */
  ghost predicate UserOk(mem: Memory, owner: Owners, tables: Tables, p: nat) {
    && p in owner && owner[p].User? && owner[p].v < VPAGES
    && Node(owner[p].root, LeafPath(owner[p].v)) in tables
    && var pte := Word(mem, tables[Node(owner[p].root, LeafPath(owner[p].v))], Index0(owner[p].v));
       PteValid(pte) && PtePage(pte) == p
  }

  ghost predicate UsersOk(mem: Memory, owner: Owners, tables: Tables) {
    forall p {:trigger UserOk(mem, owner, tables, p)} | p in owner && owner[p].User? :: UserOk(mem, owner, tables, p)
  }

  ghost predicate SpaceOk(mem: Memory, owner: Owners, tables: Tables, holes: set<(Node, nat)>) {
    TreesOk(mem, owner, tables, holes) && UsersOk(mem, owner, tables) && mem.Keys == owner.Keys
  }

  /** Following the entries in memory leads to the bottom-level table, if there is one. */
  lemma LookupIs(mem: Memory, owner: Owners, tables: Tables, root: nat, v: nat)
    requires TreesOk(mem, owner, tables, {}) && Node(root, []) in tables && v < VPAGES
    ensures var n := Node(root, LeafPath(v));
            Lookup(mem, root, v) == if n in tables then Word(mem, tables[n], Index0(v)) else 0
  {
    var n2, n0 := Node(root, []), Node(root, LeafPath(v));
    var n1 := Child(n2, Index2(v));
    assert NodeOk(mem, owner, tables, n2);
    assert EdgeOk(mem, tables, n2, Index2(v));
    assert Child(n1, Index1(v)) == n0;
    assert n0 in tables ==> NodeOk(mem, owner, tables, n0);
    assert Parent(n0) == n1;
    if n1 in tables {
      assert EdgeOk(mem, tables, n1, Index1(v));
    }
  }

  // ---------------------------------------------------------- kinds of change

  /** A page that is not a table is rewritten or changes hands. */
  lemma PlainPageKeeps(mem: Memory, owner: Owners, tables: Tables, holes: set<(Node, nat)>, p: nat,
                       mem': Memory, owner': Owners)
    requires SpaceOk(mem, owner, tables, holes)
    requires p in owner && !owner[p].Table? && !owner[p].User?
    requires p in owner' && !owner'[p].Table? && !owner'[p].User? && owner' == owner[p := owner'[p]]
    requires p in mem' && mem' == mem[p := mem'[p]]
    ensures SpaceOk(mem', owner', tables, holes)
  {
    forall q | q in owner'
      ensures TableOk(owner', tables, q)
    {
      assert TableOk(owner, tables, q);
    }
    forall n | n in tables
      ensures NodeOk(mem', owner', tables, n) && tables[n] != p
    {
      assert NodeOk(mem, owner, tables, n);
    }
    forall n, i: nat | n in tables && |n.path| < 2 && i < ENTRIES && (n, i) !in holes
      ensures EdgeOk(mem', tables, n, i)
    {
      assert EdgeOk(mem, tables, n, i);
    }
    forall q | q in owner' && owner'[q].User?
      ensures UserOk(mem', owner', tables, q)
    {
      assert UserOk(mem, owner, tables, q);
    }
  }

  lemma ChildInjective(n: Node, i: nat, k: Node, j: nat)
    requires Child(n, i) == Child(k, j)
    ensures n == k && i == j
  {
    assert Child(n, i).path[..|n.path|] == n.path && Child(k, j).path[..|k.path|] == k.path;
    assert Child(n, i).path[|n.path|] == i && Child(k, j).path[|k.path|] == j;
  }

  lemma LinkEdge(mem: Memory, owner: Owners, tables: Tables, n: Node, i: nat, c: nat, mem': Memory, tables': Tables,
                 k: Node, j: nat)
    requires TreesOk(mem, owner, tables, {})
    requires n in tables && |n.path| < 2 && i < ENTRIES && k in tables && |k.path| < 2 && j < ENTRIES && c != tables[k]
    requires tables[n] in mem && i < |mem[tables[n]].words|
    requires mem' == mem[tables[n] := Page(mem[tables[n]].words[i := c * 1024 + 1])]
    requires tables' == tables[Child(n, i) := c] && Child(n, i) !in tables
    ensures EdgeOk(mem', tables', k, j)
  {
    assert EdgeOk(mem, tables, k, j) && NodeOk(mem, owner, tables, k) && NodeOk(mem, owner, tables, n);
    if k == n && j == i {
      TablePte(c);
      assert Word(mem', tables'[k], j) == c * 1024 + 1;
    } else {
      assert Child(k, j) != Child(n, i) by {
        if Child(k, j) == Child(n, i) {
          ChildInjective(k, j, n, i);
        }
      }
      assert k != n ==> tables[k] != tables[n];
      assert Word(mem', tables'[k], j) == Word(mem, tables[k], j);
    }
  }

  lemma LinkNode(mem: Memory, owner: Owners, tables: Tables, n: Node, i: nat, c: nat, mem': Memory, owner': Owners,
                 tables': Tables, k: Node)
    requires TreesOk(mem, owner, tables, {}) && k in tables'
    requires n in tables && |n.path| < 2 && i < ENTRIES && Child(n, i) !in tables && c in owner && owner[c] == Held
    requires c in mem && |mem[c].words| == ENTRIES && tables[n] in mem && i < |mem[tables[n]].words|
    requires mem' == mem[tables[n] := Page(mem[tables[n]].words[i := c * 1024 + 1])]
    requires owner' == owner[c := Table(Child(n, i))] && tables' == tables[Child(n, i) := c]
    ensures NodeOk(mem', owner', tables', k)
  {
    assert NodeOk(mem, owner, tables, n) && Parent(Child(n, i)) == n;
    if k != Child(n, i) {
      assert NodeOk(mem, owner, tables, k);
    }
  }

  /** A zeroed page in hand becomes the table below entry i of n. */
  lemma LinkKeeps(mem: Memory, owner: Owners, tables: Tables, n: Node, i: nat, c: nat, mem': Memory, owner': Owners,
                  tables': Tables)
    requires SpaceOk(mem, owner, tables, {})
    requires n in tables && |n.path| < 2 && i < ENTRIES && !PteValid(Word(mem, tables[n], i))
    requires c in mem && owner[c] == Held && mem[c].words == seq(ENTRIES, k => 0)
    requires tables[n] in mem && i < |mem[tables[n]].words|
    requires mem' == mem[tables[n] := Page(mem[tables[n]].words[i := c * 1024 + 1])]
    requires owner' == owner[c := Table(Child(n, i))] && tables' == tables[Child(n, i) := c]
    ensures SpaceOk(mem', owner', tables', {})
  {
    var m := Child(n, i);
    assert NodeOk(mem, owner, tables, n) && EdgeOk(mem, tables, n, i);
    assert m !in tables && Parent(m) == n;
    forall q | q in owner'
      ensures TableOk(owner', tables', q)
    {
      assert TableOk(owner, tables, q);
    }
    forall k | k in tables'
      ensures NodeOk(mem', owner', tables', k)
    {
      LinkNode(mem, owner, tables, n, i, c, mem', owner', tables', k);
    }
    forall k, j: nat | k in tables' && |k.path| < 2 && j < ENTRIES
      ensures EdgeOk(mem', tables', k, j)
    {
      if k == m {
        assert Child(m, j) in tables ==> NodeOk(mem, owner, tables, Child(m, j));
        assert Parent(Child(m, j)) == m;
      } else {
        LinkEdge(mem, owner, tables, n, i, c, mem', tables', k, j);
      }
    }
    forall q | q in owner' && owner'[q].User?
      ensures UserOk(mem', owner', tables', q)
    {
      LinkUser(mem, owner, tables, n, i, c, mem', owner', tables', q);
    }
  }

  lemma LinkUser(mem: Memory, owner: Owners, tables: Tables, n: Node, i: nat, c: nat, mem': Memory, owner': Owners,
                 tables': Tables, q: nat)
    requires SpaceOk(mem, owner, tables, {})
    requires n in tables && |n.path| < 2 && tables[n] in mem && i < |mem[tables[n]].words| && Child(n, i) !in tables
    requires mem' == mem[tables[n] := Page(mem[tables[n]].words[i := c * 1024 + 1])]
    requires owner' == owner[c := Table(Child(n, i))] && tables' == tables[Child(n, i) := c]
    requires q in owner' && owner'[q].User?
    ensures UserOk(mem', owner', tables', q)
  {
    assert UserOk(mem, owner, tables, q);
    var k := Node(owner[q].root, LeafPath(owner[q].v));
    assert NodeOk(mem, owner, tables, k) && NodeOk(mem, owner, tables, n);
  }

  /** Who owns which page after the leaf entry for (root, v) has become pte. */
  ghost predicate LeafOwners(owner: Owners, root: nat, v: nat, pte: nat, owner': Owners) {
    && owner'.Keys == owner.Keys
    && (forall q | q in owner && (owner[q].Table? || owner'[q].Table?) :: owner'[q] == owner[q])
    && (forall q | q in owner' && owner'[q].User? ::
          || (owner[q] == owner'[q] && owner[q] != User(root, v))
          || (owner'[q] == User(root, v) && PteValid(pte) && PtePage(pte) == q))
  }

  lemma LeafKeeps(mem: Memory, owner: Owners, tables: Tables, root: nat, v: nat, pte: nat, mem': Memory, owner': Owners)
    requires SpaceOk(mem, owner, tables, {}) && v < VPAGES && Node(root, LeafPath(v)) in tables
             && LeafOwners(owner, root, v, pte, owner')
    requires var t := tables[Node(root, LeafPath(v))];
             t in mem && Index0(v) < |mem[t].words| && mem' == mem[t := Page(mem[t].words[Index0(v) := pte])]
    ensures SpaceOk(mem', owner', tables, {})
  {
    forall q | q in owner'
      ensures TableOk(owner', tables, q)
    {
      assert TableOk(owner, tables, q);
    }
    var n := Node(root, LeafPath(v));
    forall k | k in tables
      ensures NodeOk(mem', owner', tables, k)
    {
      assert NodeOk(mem, owner, tables, k);
    }
    forall k, j: nat | k in tables && |k.path| < 2 && j < ENTRIES
      ensures EdgeOk(mem', tables, k, j)
    {
      assert EdgeOk(mem, tables, k, j) && NodeOk(mem, owner, tables, k) && NodeOk(mem, owner, tables, n);
    }
    forall q | q in owner' && owner'[q].User?
      ensures UserOk(mem', owner', tables, q)
    {
      LeafUser(mem, owner, tables, root, v, pte, mem', owner', q);
    }
  }

  lemma LeafUser(mem: Memory, owner: Owners, tables: Tables, root: nat, v: nat, pte: nat, mem': Memory,
                 owner': Owners, q: nat)
    requires SpaceOk(mem, owner, tables, {}) && v < VPAGES && Node(root, LeafPath(v)) in tables
             && LeafOwners(owner, root, v, pte, owner')
    requires var t := tables[Node(root, LeafPath(v))];
             t in mem && Index0(v) < |mem[t].words| && mem' == mem[t := Page(mem[t].words[Index0(v) := pte])]
    requires q in owner' && owner'[q].User?
    ensures UserOk(mem', owner', tables, q)
  {
    if owner'[q] == owner[q] && owner[q] != User(root, v) {
      var r, w := owner[q].root, owner[q].v;
      var k := Node(r, LeafPath(w));
      assert UserOk(mem, owner, tables, q);
      assert NodeOk(mem, owner, tables, k) && NodeOk(mem, owner, tables, Node(root, LeafPath(v)));
      if tables[k] == tables[Node(root, LeafPath(v))] && Index0(w) == Index0(v) {
        SlotsDistinct(w, v);
      }
    }
  }

  // ------------------------------------------------- what the hardware then sees

  ghost predicate Roots(tables: Tables, root: nat) { Node(root, []) in tables }

  /** No address space sees a difference. */
  ghost predicate SameMap(mem: Memory, mem': Memory, tables: Tables) {
    forall r: nat, w: nat | Roots(tables, r) && w < VPAGES :: Lookup(mem', r, w) == Lookup(mem, r, w)
  }

  lemma LinkLookup(mem: Memory, owner: Owners, tables: Tables, n: Node, i: nat, c: nat, mem': Memory, owner': Owners,
                   tables': Tables)
    requires SpaceOk(mem, owner, tables, {}) && SpaceOk(mem', owner', tables', {})
    requires n in tables && |n.path| < 2 && Child(n, i) !in tables && i < ENTRIES
    requires c in mem && owner[c] == Held && mem[c].words == seq(ENTRIES, k => 0)
    requires tables[n] in mem && i < |mem[tables[n]].words|
    requires mem' == mem[tables[n] := Page(mem[tables[n]].words[i := c * 1024 + 1])]
    requires tables' == tables[Child(n, i) := c]
    ensures SameMap(mem, mem', tables)
  {
    forall r: nat, w: nat | Roots(tables, r) && w < VPAGES
      ensures Lookup(mem', r, w) == Lookup(mem, r, w)
    {
      LookupIs(mem, owner, tables, r, w);
      LookupIs(mem', owner', tables', r, w);
      var k := Node(r, LeafPath(w));
      assert NodeOk(mem, owner, tables, n);
      if k in tables {
        assert NodeOk(mem, owner, tables, k);
      }
    }
  }

  lemma LeafLookup(mem: Memory, owner: Owners, tables: Tables, root: nat, v: nat, pte: nat, mem': Memory,
                   owner': Owners)
    requires SpaceOk(mem, owner, tables, {}) && SpaceOk(mem', owner', tables, {}) && Node(root, LeafPath(v)) in tables
    requires var t := tables[Node(root, LeafPath(v))];
             t in mem && Index0(v) < |mem[t].words| && mem' == mem[t := Page(mem[t].words[Index0(v) := pte])]
    ensures forall r: nat, w: nat | Roots(tables, r) && w < VPAGES ::
              Lookup(mem', r, w) == if r == root && w == v then pte else Lookup(mem, r, w)
  {
    forall r: nat, w: nat | Roots(tables, r) && w < VPAGES
      ensures Lookup(mem', r, w) == if r == root && w == v then pte else Lookup(mem, r, w)
    {
      LookupIs(mem, owner, tables, r, w);
      LookupIs(mem', owner', tables, r, w);
      var n, k := Node(root, LeafPath(v)), Node(r, LeafPath(w));
      assert NodeOk(mem, owner, tables, n);
      if k in tables {
        assert NodeOk(mem, owner, tables, k);
        if k == n && Index0(w) == Index0(v) {
          SlotsDistinct(w, v);
        }
      }
    }
  }

  lemma PlainPageLookup(mem: Memory, owner: Owners, tables: Tables, p: nat, mem': Memory)
    requires SpaceOk(mem, owner, tables, {}) && p in owner && !owner[p].Table?
    requires p in mem' && mem' == mem[p := mem'[p]]
    ensures SameMap(mem, mem', tables)
  {
    forall r: nat, w: nat | Roots(tables, r) && w < VPAGES
      ensures Lookup(mem', r, w) == Lookup(mem, r, w)
    {
      PlainWalk(mem, owner, tables, p, mem', r, w);
    }
  }

  lemma PlainWalk(mem: Memory, owner: Owners, tables: Tables, p: nat, mem': Memory, r: nat, w: nat)
    requires SpaceOk(mem, owner, tables, {}) && p in owner && !owner[p].Table?
    requires p in mem' && mem' == mem[p := mem'[p]] && Roots(tables, r) && w < VPAGES
    ensures Lookup(mem', r, w) == Lookup(mem, r, w)
  {
    var n2 := Node(r, []);
    var n1 := Child(n2, Index2(w));
    assert NodeOk(mem, owner, tables, n2) && EdgeOk(mem, tables, n2, Index2(w));
    if n1 in tables {
      assert NodeOk(mem, owner, tables, n1) && EdgeOk(mem, tables, n1, Index1(w));
      var n0 := Child(n1, Index1(w));
      if n0 in tables {
        assert NodeOk(mem, owner, tables, n0);
      }
    }
  }

  /** A page in hand that a leaf entry names becomes the user page of that mapping. */
  lemma AdoptKeeps(mem: Memory, owner: Owners, tables: Tables, root: nat, v: nat, p: nat, owner': Owners)
    requires SpaceOk(mem, owner, tables, {}) && Roots(tables, root) && v < VPAGES
    requires p in owner && owner[p] == Held && owner' == owner[p := User(root, v)]
    requires PteValid(Lookup(mem, root, v)) && PtePage(Lookup(mem, root, v)) == p
    ensures SpaceOk(mem, owner', tables, {})
  {
    forall q | q in owner'
      ensures TableOk(owner', tables, q)
    {
      assert TableOk(owner, tables, q);
    }
    LookupIs(mem, owner, tables, root, v);
    forall n | n in tables
      ensures NodeOk(mem, owner', tables, n)
    {
      assert NodeOk(mem, owner, tables, n);
    }
    forall n, i: nat | n in tables && |n.path| < 2 && i < ENTRIES
      ensures EdgeOk(mem, tables, n, i)
    {
      assert (n, i) !in {};
    }
    forall q | q in owner' && owner'[q].User?
      ensures UserOk(mem, owner', tables, q)
    {
      assert q != p ==> UserOk(mem, owner, tables, q);
    }
  }

  /** A zeroed page in hand becomes the root of a new, empty address space. */
  lemma RootKeeps(mem: Memory, owner: Owners, tables: Tables, p: nat, owner': Owners, tables': Tables)
    requires SpaceOk(mem, owner, tables, {})
    requires p in owner && owner[p] == Held && mem[p].words == seq(ENTRIES, k => 0)
    requires owner' == owner[p := Table(Node(p, []))] && tables' == tables[Node(p, []) := p]
    ensures SpaceOk(mem, owner', tables', {}) && !Roots(tables, p)
    ensures forall w: nat :: Lookup(mem, p, w) == 0
  {
    var root := Node(p, []);
    assert root !in tables by {
      assert root in tables ==> NodeOk(mem, owner, tables, root);
    }
    forall q | q in owner'
      ensures TableOk(owner', tables', q)
    {
      assert TableOk(owner, tables, q);
    }
    forall n | n in tables'
      ensures NodeOk(mem, owner', tables', n)
    {
      assert n != root ==> NodeOk(mem, owner, tables, n);
    }
    forall n, i: nat | n in tables' && |n.path| < 2 && i < ENTRIES
      ensures EdgeOk(mem, tables', n, i)
    {
      if n == root {
        assert Word(mem, p, i) == 0;
        assert Child(root, i) in tables ==> NodeOk(mem, owner, tables, Child(root, i));
        assert Parent(Child(root, i)) == root;
      } else {
        assert EdgeOk(mem, tables, n, i);
        assert Child(n, i).path != [];
      }
    }
    forall q | q in owner' && owner'[q].User?
      ensures UserOk(mem, owner', tables', q)
    {
      assert UserOk(mem, owner, tables, q);
    }
  }

  // ------------------------------------------------------- taking trees apart

  /** m is n or a table below n. */
  predicate Under(n: Node, m: Node) { m.root == n.root && n.path <= m.path }

  ghost predicate AllInvalid(mem: Memory, p: nat, k: nat) {
    forall i: nat | i < k :: !PteValid(Word(mem, p, i))
  }

  /** A table is reached only through the tables above it. */
  lemma {:induction false} AncestorIn(mem: Memory, owner: Owners, tables: Tables, holes: set<(Node, nat)>, n: Node,
                          m: Node)
    requires TreesOk(mem, owner, tables, holes) && m in tables
    ensures Under(n, m) ==> n in tables
    decreases |m.path|
  {
    if Under(n, m) && n != m {
      assert NodeOk(mem, owner, tables, m);
      assert |n.path| == |m.path| ==> n.path == m.path;
      AncestorIn(mem, owner, tables, holes, n, Parent(m));
    }
  }

  /** Entry i of n is cleared after the table it pointed to is gone. */
  lemma ClearKeeps(mem: Memory, owner: Owners, tables: Tables, holes: set<(Node, nat)>, n: Node, i: nat, mem': Memory)
    requires SpaceOk(mem, owner, tables, holes + {(n, i)}) && n in tables && |n.path| < 2 && i < ENTRIES
             && Child(n, i) !in tables
    requires tables[n] in mem && i < |mem[tables[n]].words|
             && mem' == mem[tables[n] := Page(mem[tables[n]].words[i := 0])]
    ensures SpaceOk(mem', owner, tables, holes)
  {
    assert NodeOk(mem, owner, tables, n);
    forall k | k in tables
      ensures NodeOk(mem', owner, tables, k)
    {
      assert NodeOk(mem, owner, tables, k);
    }
    forall k, j: nat | k in tables && |k.path| < 2 && j < ENTRIES && (k, j) !in holes
      ensures EdgeOk(mem', tables, k, j)
    {
      ClearEdge(mem, owner, tables, holes, n, i, mem', k, j);
    }
    forall q | q in owner && owner[q].User?
      ensures UserOk(mem', owner, tables, q)
    {
      InteriorUser(mem, owner, tables, holes + {(n, i)}, n, mem', q);
    }
  }

  lemma ClearEdge(mem: Memory, owner: Owners, tables: Tables, holes: set<(Node, nat)>, n: Node, i: nat, mem': Memory,
                  k: Node, j: nat)
    requires TreesOk(mem, owner, tables, holes + {(n, i)}) && n in tables && Child(n, i) !in tables
    requires tables[n] in mem && i < |mem[tables[n]].words|
             && mem' == mem[tables[n] := Page(mem[tables[n]].words[i := 0])]
    requires k in tables && |k.path| < 2 && j < ENTRIES && (k, j) !in holes
    ensures EdgeOk(mem', tables, k, j)
  {
    assert NodeOk(mem, owner, tables, k) && NodeOk(mem, owner, tables, n);
    if (k, j) != (n, i) {
      assert EdgeOk(mem, tables, k, j);
      assert Word(mem', tables[k], j) == Word(mem, tables[k], j);
    } else {
      assert Word(mem', tables[k], j) == 0;
    }
  }

  /** A change to an interior table does not concern user pages. */
  lemma InteriorUser(mem: Memory, owner: Owners, tables: Tables, holes: set<(Node, nat)>, n: Node, mem': Memory, q: nat)
    requires SpaceOk(mem, owner, tables, holes) && n in tables && |n.path| < 2
    requires tables[n] in mem' && mem' == mem[tables[n] := mem'[tables[n]]] && q in owner && owner[q].User?
    ensures UserOk(mem', owner, tables, q)
  {
    assert UserOk(mem, owner, tables, q);
    assert NodeOk(mem, owner, tables, Node(owner[q].root, LeafPath(owner[q].v))) && NodeOk(mem, owner, tables, n);
  }


  /** An empty table is taken out of its tree; the entry above it, if any, is a hole. */
  lemma DropKeeps(mem: Memory, owner: Owners, tables: Tables, holes: set<(Node, nat)>, n: Node, owner': Owners,
                  tables': Tables)
    requires SpaceOk(mem, owner, tables, holes) && n in tables && AllInvalid(mem, tables[n], ENTRIES)
    requires forall i: nat :: (n, i) !in holes
    requires n.path != [] ==> (Parent(n), n.path[|n.path| - 1]) in holes
    requires owner' == owner[tables[n] := Held] && tables' == tables - {n}
    ensures SpaceOk(mem, owner', tables', holes)
  {
    forall q | q in owner'
      ensures TableOk(owner', tables', q)
    {
      assert TableOk(owner, tables, q);
    }
    assert NodeOk(mem, owner, tables, n);
    forall m | m in tables'
      ensures NodeOk(mem, owner', tables', m)
    {
      DropNode(mem, owner, tables, holes, n, owner', tables', m);
    }
    forall k, j: nat | k in tables' && |k.path| < 2 && j < ENTRIES && (k, j) !in holes
      ensures EdgeOk(mem, tables', k, j)
    {
      assert EdgeOk(mem, tables, k, j);
      assert Parent(Child(k, j)) == k && Child(k, j).path[|Child(k, j).path| - 1] == j;
    }
    forall q | q in owner' && owner'[q].User?
      ensures UserOk(mem, owner', tables', q)
    {
      assert UserOk(mem, owner, tables, q);
    }
  }

  lemma DropNode(mem: Memory, owner: Owners, tables: Tables, holes: set<(Node, nat)>, n: Node, owner': Owners,
                 tables': Tables, m: Node)
    requires TreesOk(mem, owner, tables, holes) && n in tables && AllInvalid(mem, tables[n], ENTRIES)
    requires forall i: nat :: (n, i) !in holes
    requires owner' == owner[tables[n] := Held] && tables' == tables - {n} && m in tables'
    ensures NodeOk(mem, owner', tables', m)
  {
    assert NodeOk(mem, owner, tables, m) && NodeOk(mem, owner, tables, n);
    var i := if m.path == [] then 0 else m.path[|m.path| - 1];
    assert m.path != [] ==> m == Child(Parent(m), i);
    assert |n.path| < 2 ==> EdgeOk(mem, tables, n, i);
  }
}
