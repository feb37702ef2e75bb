/**
 Directories and link counts: what link, unlink and create do to the directory entries and to
 nlink, and why the count of an inode stays the number of entries that name it. Everything here
 is about values; module Links holds the code.
 */
module LinkCounts {

  const ROOTINO := 1

  datatype Kind = Free | Dir | File | Device

  /** inum 0 is an empty slot. */
  datatype Entry = Entry(inum: nat, name: string)

  const NoEntry := Entry(0, "")

  datatype Inode = Inode(kind: Kind, nlink: int, entries: seq<Entry>)

  type Inodes = seq<Inode>

  const Unused := Inode(Free, 0, [])

  ghost predicate Linked(s: Inodes, d: nat) { d < |s| && s[d].kind.Dir? && s[d].nlink > 0 }

  /** Slot k of the linked directory d names inode i, and not as ".". */
  ghost predicate Names(s: Inodes, d: nat, k: nat, i: nat) {
    Linked(s, d) && k < |s[d].entries| && s[d].entries[k].inum == i && s[d].entries[k].name != "."
  }

  /** The entries that count for inode i. */
  ghost function Refs(s: Inodes, i: nat): set<(nat, nat)> {
    set d: nat, k: nat | d < |s| && k < |s[d].entries| && Names(s, d, k, i) :: (d, k)
  }

  lemma InRefs(s: Inodes, d: nat, k: nat, i: nat)
    ensures (d, k) in Refs(s, i) <==> Names(s, d, k, i)
  {
  }

  /** nlink is the number of entries other than "." in linked directories. */
  ghost predicate CountOk(s: Inodes, i: nat) {
    i < |s| && s[i].nlink == |Refs(s, i)|
  }

  ghost predicate CountsOk(s: Inodes) {
    forall i: nat {:trigger CountOk(s, i)} | 0 < i < |s| :: CountOk(s, i)
  }

  // --------------------------------------------------------------- the tree

  /** A directory starts with itself and its parent, and its other entries have other names; one
      that is no longer linked has no others. */
  ghost predicate DirOk(s: Inodes, d: nat) {
    && d < |s| && s[d].nlink >= 0
    && (s[d].kind.Free? ==> s[d].nlink == 0)
    && (!s[d].kind.Dir? ==> s[d].entries == [])
    && (s[d].kind.Dir? ==>
          var es := s[d].entries;
          && |es| >= 2 && es[0] == Entry(d, ".") && es[1].name == ".." && 0 < es[1].inum < |s|
          && (d != ROOTINO ==> es[1].inum != d)
          && (forall k: nat {:trigger es[k]} | 2 <= k < |es| && es[k].inum != 0 ::
               es[k].name != "." && es[k].name != ".." && es[k].inum < |s|)
          && (s[d].nlink == 0 ==> forall k: nat {:trigger es[k]} | 2 <= k < |es| :: es[k].inum == 0))
  }

  /** Slot k of the linked directory d, not its "..", names x. */
  ghost predicate Holds(s: Inodes, d: nat, k: nat, x: nat) { k >= 2 && Names(s, d, k, x) }

  /** A linked directory other than the root is held by exactly one slot, in its "..". */
  ghost predicate ParentOk(s: Inodes, x: nat) {
    Linked(s, x) && |s[x].entries| >= 2 ==>
      if x == ROOTINO then s[x].entries[1].inum == ROOTINO && forall d: nat, k: nat :: !Holds(s, d, k, x)
      else exists k: nat :: OnlyHolder(s, s[x].entries[1].inum, k, x)
  }

  ghost predicate OnlyHolder(s: Inodes, p: nat, k: nat, x: nat) {
    Holds(s, p, k, x) && forall d: nat, j: nat {:trigger Holds(s, d, j, x)} | Holds(s, d, j, x) :: d == p && j == k
  }

  ghost predicate TreeOk(s: Inodes) {
    && Linked(s, ROOTINO)
    && (forall d: nat {:trigger DirOk(s, d)} | d < |s| :: DirOk(s, d))
    && (forall x: nat {:trigger ParentOk(s, x)} | x < |s| :: ParentOk(s, x))
    && s[0] == Unused
  }

  ghost predicate Ok(s: Inodes) { CountsOk(s) && TreeOk(s) }

  /** No entry of a linked directory names a free inode. */
  lemma NoDanglingEntry(s: Inodes, d: nat, k: nat, i: nat)
    requires Ok(s) && Names(s, d, k, i) && i != 0
    ensures i < |s| && s[i].nlink > 0 && !s[i].kind.Free?
  {
    assert DirOk(s, d) && s[d].entries[k].inum == i;
    assert DirOk(s, i) && CountOk(s, i);
    InRefs(s, d, k, i);
  }

  // ------------------------------------------------------- counting entries

  lemma SameRefs(s: Inodes, s': Inodes, i: nat)
    requires forall d: nat, k: nat {:trigger Names(s', d, k, i)} :: Names(s', d, k, i) <==> Names(s, d, k, i)
    ensures Refs(s', i) == Refs(s, i)
  {
    forall p | p in Refs(s', i)
      ensures p in Refs(s, i)
    {
      assert Names(s', p.0, p.1, i);
    }
    forall p | p in Refs(s, i)
      ensures p in Refs(s', i)
    {
      assert Names(s', p.0, p.1, i);
    }
  }

  lemma OneMore(s: Inodes, s': Inodes, i: nat, d0: nat, k0: nat)
    requires forall d: nat, k: nat {:trigger Names(s', d, k, i)} ::
               Names(s', d, k, i) <==> Names(s, d, k, i) || (d == d0 && k == k0)
    requires !Names(s, d0, k0, i)
    ensures |Refs(s', i)| == |Refs(s, i)| + 1
  {
    assert Names(s', d0, k0, i);
    forall p
      ensures p in Refs(s', i) <==> p in Refs(s, i) + {(d0, k0)}
    {
      assert Names(s', p.0, p.1, i) <==> Names(s, p.0, p.1, i) || p == (d0, k0);
    }
    assert Refs(s', i) == Refs(s, i) + {(d0, k0)};
  }

  lemma OneFewer(s: Inodes, s': Inodes, i: nat, d0: nat, k0: nat)
    requires forall d: nat, k: nat {:trigger Names(s', d, k, i)} ::
               Names(s', d, k, i) <==> Names(s, d, k, i) && !(d == d0 && k == k0)
    requires Names(s, d0, k0, i)
    ensures |Refs(s', i)| == |Refs(s, i)| - 1
  {
    OneMore(s', s, i, d0, k0);
  }

  lemma TwoRefs(s: Inodes, i: nat, d: nat, k: nat, e: nat, m: nat)
    requires Names(s, d, k, i) && Names(s, e, m, i) && (d, k) != (e, m)
    ensures |Refs(s, i)| >= 2
  {
    var r := Refs(s, i);
    assert (d, k) in r && (e, m) in r;
    assert |r - {(d, k)}| == |r| - 1 && (e, m) in r - {(d, k)};
  }

  // -------------------------------------------------------------------- link

  /** Slot k is written; k may be one past the end. */
  function Put(es: seq<Entry>, k: nat, e: Entry): seq<Entry>
    requires k <= |es|
  {
    if k == |es| then es + [e] else es[k := e]
  }

  /** Slot k of directory d is unused, or one past the end. */
  ghost predicate Vacant(s: Inodes, d: nat, k: nat) {
    d < |s| && s[d].kind.Dir? && 2 <= k <= |s[d].entries| && (k < |s[d].entries| ==> s[d].entries[k].inum == 0)
  }

  predicate PlainName(name: string) { name != "." && name != ".." }

  /** Slot k of d gets an entry for the file i, whose count goes up. */
  ghost predicate LinksTo(s: Inodes, d: nat, k: nat, name: string, i: nat, s': Inodes) {
    && Vacant(s, d, k) && PlainName(name) && 0 < i < |s| && (s[i].kind.File? || s[i].kind.Device?)
    && s' == s[d := s[d].(entries := Put(s[d].entries, k, Entry(i, name)))][i := s[i].(nlink := s[i].nlink + 1)]
  }

  lemma LinkNames(s: Inodes, d: nat, k: nat, name: string, i: nat, s': Inodes, j: nat)
    requires LinksTo(s, d, k, name, i, s') && j != 0
    ensures forall e: nat, m: nat {:trigger Names(s', e, m, j)} ::
              Names(s', e, m, j) <==> Names(s, e, m, j) || (Linked(s, d) && e == d && m == k && j == i)
    ensures !Names(s, d, k, j)
  {
  }

  lemma LinkCount(s: Inodes, d: nat, k: nat, name: string, i: nat, s': Inodes, j: nat)
    requires LinksTo(s, d, k, name, i, s') && 0 < j < |s| && CountOk(s, j)
    ensures CountOk(s', j) <==> Linked(s, d) || j != i
  {
    LinkNames(s, d, k, name, i, s', j);
    if Linked(s, d) && j == i {
      OneMore(s, s', j, d, k);
    } else {
      SameRefs(s, s', j);
    }
  }

  /** link keeps the counts exactly when the directory is itself still linked. */
  lemma LinkKeepsCountsIff(s: Inodes, d: nat, k: nat, name: string, i: nat, s': Inodes)
    requires Ok(s) && LinksTo(s, d, k, name, i, s')
    ensures CountsOk(s') <==> Linked(s, d)
  {
    forall j: nat | 0 < j < |s|
      ensures CountOk(s', j) <==> Linked(s, d) || j != i
    {
      assert CountOk(s, j);
      LinkCount(s, d, k, name, i, s', j);
    }
    assert CountOk(s', i) <==> Linked(s, d);
  }

  lemma LinkKeeps(s: Inodes, d: nat, k: nat, name: string, i: nat, s': Inodes)
    requires Ok(s) && LinksTo(s, d, k, name, i, s') && Linked(s, d)
    ensures Ok(s')
  {
    LinkKeepsCountsIff(s, d, k, name, i, s');
    forall e: nat | e < |s'|
      ensures DirOk(s', e)
    {
      assert DirOk(s, e);
    }
    forall x: nat | x < |s'|
      ensures ParentOk(s', x)
    {
      assert ParentOk(s, x) && DirOk(s, x);
      if x != 0 && Linked(s, x) {
        LinkNames(s, d, k, name, i, s', x);
        SameHolders(s, s', x);
      }
    }
  }

  /** The holders of x and the parent of x are as they were. */
  lemma SameHolders(s: Inodes, s': Inodes, x: nat)
    requires ParentOk(s, x) && Linked(s, x) && |s[x].entries| >= 2 && x < |s'| && |s'[x].entries| >= 2
             && s'[x].entries[1] == s[x].entries[1]
    requires forall d: nat, k: nat {:trigger Holds(s', d, k, x)} :: Holds(s', d, k, x) <==> Holds(s, d, k, x)
    ensures ParentOk(s', x)
  {
    if x != ROOTINO {
      var k: nat :| OnlyHolder(s, s[x].entries[1].inum, k, x);
      assert OnlyHolder(s', s[x].entries[1].inum, k, x);
    }
  }

  // ------------------------------------------------------------------ create

  /** Slot k of d gets an entry for the new inode i; a new directory counts in its parent. */
  ghost predicate Creates(s: Inodes, d: nat, k: nat, name: string, i: nat, kind: Kind, s': Inodes) {
    && Vacant(s, d, k) && PlainName(name) && 0 < i < |s| && s[i].kind.Free? && !kind.Free?
    && var es := Put(s[d].entries, k, Entry(i, name));
       if kind.Dir?
       then s' == s[d := Inode(Dir, s[d].nlink + 1, es)][i := Inode(Dir, 1, [Entry(i, "."), Entry(d, "..")])]
       else s' == s[d := s[d].(entries := es)][i := Inode(kind, 1, [])]
  }

  lemma CreateNames(s: Inodes, d: nat, k: nat, name: string, i: nat, kind: Kind, s': Inodes, j: nat)
    requires TreeOk(s) && Creates(s, d, k, name, i, kind, s') && j != 0 && Linked(s, d)
    ensures forall e: nat, m: nat {:trigger Names(s', e, m, j)} ::
              Names(s', e, m, j) <==>
                Names(s, e, m, j) || (e == d && m == k && j == i) || (kind.Dir? && e == i && m == 1 && j == d)
    ensures !Names(s, d, k, j) && !Names(s, i, 1, j)
  {
  }

  lemma CreateCount(s: Inodes, d: nat, k: nat, name: string, i: nat, kind: Kind, s': Inodes, j: nat)
    requires Ok(s) && Creates(s, d, k, name, i, kind, s') && 0 < j < |s| && Linked(s, d)
    ensures CountOk(s', j)
  {
    assert CountOk(s, j) && DirOk(s, i) && DirOk(s, d);
    CreateNames(s, d, k, name, i, kind, s', j);
    if j == i {
      OneMore(s, s', j, d, k);
    } else if j == d && kind.Dir? {
      OneMore(s, s', j, i, 1);
    } else {
      SameRefs(s, s', j);
    }
  }

  lemma CreateDirs(s: Inodes, d: nat, k: nat, name: string, i: nat, kind: Kind, s': Inodes)
    requires Ok(s) && Creates(s, d, k, name, i, kind, s') && Linked(s, d)
    ensures forall e: nat {:trigger DirOk(s', e)} | e < |s'| :: DirOk(s', e)
  {
    forall e: nat | e < |s'|
      ensures DirOk(s', e)
    {
      assert DirOk(s, e) && DirOk(s, d) && DirOk(s, 0);
    }
  }

  lemma CreateKeeps(s: Inodes, d: nat, k: nat, name: string, i: nat, kind: Kind, s': Inodes)
    requires Ok(s) && Creates(s, d, k, name, i, kind, s') && Linked(s, d)
    ensures Ok(s')
  {
    forall j: nat | 0 < j < |s'|
      ensures CountOk(s', j)
    {
      CreateCount(s, d, k, name, i, kind, s', j);
    }
    CreateDirs(s, d, k, name, i, kind, s');
    assert DirOk(s, i) && DirOk(s, d) && CountOk(s, i);
    forall x: nat | x < |s'|
      ensures ParentOk(s', x)
    {
      assert ParentOk(s, x) && DirOk(s, x) && DirOk(s', x);
      if x == i {
        NewHolder(s, d, k, name, i, kind, s');
      } else if x != 0 && Linked(s, x) {
        CreateNames(s, d, k, name, i, kind, s', x);
        SameHolders(s, s', x);
      }
    }
  }

  lemma NewHolder(s: Inodes, d: nat, k: nat, name: string, i: nat, kind: Kind, s': Inodes)
    requires Ok(s) && Creates(s, d, k, name, i, kind, s') && Linked(s, d)
    ensures ParentOk(s', i)
  {
    assert DirOk(s, i) && CountOk(s, i) && DirOk(s, d);
    CreateNames(s, d, k, name, i, kind, s', i);
    forall e: nat, m: nat
      ensures !Names(s, e, m, i)
    {
      InRefs(s, e, m, i);
    }
    assert i != ROOTINO;
    if kind.Dir? {
      assert Holds(s', d, k, i);
      assert OnlyHolder(s', s'[i].entries[1].inum, k, i);
    }
  }

  /** In a directory that is no longer linked, create breaks the counts. */
  lemma CreateBreaks(s: Inodes, d: nat, k: nat, name: string, i: nat, kind: Kind, s': Inodes)
    requires Ok(s) && Creates(s, d, k, name, i, kind, s') && !Linked(s, d)
    ensures !CountsOk(s')
  {
    assert DirOk(s, d) && DirOk(s, i) && CountOk(s, i) && DirOk(s, 0);
    var p := s[d].entries[1].inum;
    if kind.Dir? {
      assert CountOk(s, p) && DirOk(s, p);
      assert Names(s', d, 1, p);
      if p == i {
        assert Names(s', d, k, i);
        TwoRefs(s', i, d, 1, d, k);
      } else {
        assert forall e: nat, m: nat {:trigger Names(s', e, m, p)} ::
          Names(s', e, m, p) <==> Names(s, e, m, p) || (e == d && m == 1);
        OneMore(s, s', p, d, 1);
      }
      assert !CountOk(s', p);
    } else {
      assert forall e: nat, m: nat {:trigger Names(s', e, m, i)} :: Names(s', e, m, i) <==> Names(s, e, m, i);
      SameRefs(s, s', i);
      assert !CountOk(s', i);
    }
  }

  /** create keeps the counts exactly when the parent is itself still linked. */
  lemma CreateKeepsCountsIff(s: Inodes, d: nat, k: nat, name: string, i: nat, kind: Kind, s': Inodes)
    requires Ok(s) && Creates(s, d, k, name, i, kind, s')
    ensures CountsOk(s') <==> Linked(s, d)
  {
    if Linked(s, d) {
      CreateKeeps(s, d, k, name, i, kind, s');
    } else {
      CreateBreaks(s, d, k, name, i, kind, s');
    }
  }

  // ------------------------------------------------------------------ unlink

  /** Slot k of d, which names the file i, is cleared. */
  ghost predicate UnlinksFile(s: Inodes, d: nat, k: nat, i: nat, s': Inodes) {
    && Holds(s, d, k, i) && 0 < i < |s| && !s[i].kind.Dir?
    && s' == s[d := s[d].(entries := s[d].entries[k := NoEntry])][i := s[i].(nlink := s[i].nlink - 1)]
  }

  lemma UnlinkFileKeeps(s: Inodes, d: nat, k: nat, i: nat, s': Inodes)
    requires Ok(s) && UnlinksFile(s, d, k, i, s')
    ensures Ok(s') && s[i].nlink >= 1
  {
    NoDanglingEntry(s, d, k, i);
    forall j: nat | 0 < j < |s'|
      ensures CountOk(s', j)
    {
      assert CountOk(s, j);
      if j == i {
        OneFewer(s, s', j, d, k);
      } else {
        SameRefs(s, s', j);
      }
    }
    forall e: nat | e < |s'|
      ensures DirOk(s', e)
    {
      assert DirOk(s, e);
    }
    forall x: nat | x < |s'|
      ensures ParentOk(s', x)
    {
      assert ParentOk(s, x) && DirOk(s, x);
      if x != 0 && Linked(s, x) {
        SameHolders(s, s', x);
      }
    }
  }

  ghost predicate Empty(s: Inodes, i: nat) {
    i < |s| && forall k: nat {:trigger s[i].entries[k]} | 2 <= k < |s[i].entries| :: s[i].entries[k].inum == 0
  }

  /** Slot k of d, which names the empty directory i, is cleared; d loses the count of "..". */
  ghost predicate UnlinksDir(s: Inodes, d: nat, k: nat, i: nat, s': Inodes) {
    && Holds(s, d, k, i) && 0 < i < |s| && s[i].kind.Dir? && Empty(s, i) && d != i
    && s' == s[d := Inode(Dir, s[d].nlink - 1, s[d].entries[k := NoEntry])][i := s[i].(nlink := s[i].nlink - 1)]
  }

  /** What holds of an empty directory that has a name: one entry names it, in its parent. */
  lemma EmptyDirectory(s: Inodes, d: nat, k: nat, i: nat)
    requires Ok(s) && Holds(s, d, k, i) && 0 < i < |s| && s[i].kind.Dir? && Empty(s, i)
    ensures i != ROOTINO && d != i && |s[i].entries| >= 2 && s[i].entries[1].inum == d && s[i].nlink == 1
            && Linked(s, i)
    ensures forall e: nat, m: nat {:trigger Names(s, e, m, i)} :: Names(s, e, m, i) <==> e == d && m == k
  {
    NoDanglingEntry(s, d, k, i);
    assert ParentOk(s, i) && DirOk(s, i) && CountOk(s, i) && DirOk(s, d);
    forall e: nat, m: nat
      ensures Names(s, e, m, i) <==> e == d && m == k
    {
      NamesEmpty(s, d, k, i, e, m);
    }
    assert Refs(s, i) == {(d, k)} by {
      forall p
        ensures p in Refs(s, i) <==> p == (d, k)
      {
        InRefs(s, p.0, p.1, i);
      }
    }
  }

  lemma NamesEmpty(s: Inodes, d: nat, k: nat, i: nat, e: nat, m: nat)
    requires Ok(s) && Holds(s, d, k, i) && 0 < i < |s| && Linked(s, i) && Empty(s, i)
    ensures Names(s, e, m, i) <==> e == d && m == k
  {
    assert ParentOk(s, i) && DirOk(s, i);
    assert Linked(s, e) ==> DirOk(s, e) && ParentOk(s, e);
    assert m >= 2 && Names(s, e, m, i) ==> Holds(s, e, m, i);
  }

  lemma UnlinkDirNames(s: Inodes, d: nat, k: nat, i: nat, s': Inodes, j: nat)
    requires Ok(s) && UnlinksDir(s, d, k, i, s') && j != 0
    ensures s[d].nlink >= 2 && s[i].nlink == 1
    ensures forall e: nat, m: nat {:trigger Names(s', e, m, j)} ::
              Names(s', e, m, j) <==> Names(s, e, m, j) && !(e == d && m == k) && !(e == i && m == 1)
    ensures Names(s, i, 1, j) <==> j == d
  {
    EmptyDirectory(s, d, k, i);
    assert DirOk(s, d) && DirOk(s, i) && CountOk(s, d) && ParentOk(s, d);
    assert Names(s, i, 1, d);
    if d == ROOTINO {
      TwoRefs(s, d, d, 1, i, 1);
    } else {
      var m: nat :| OnlyHolder(s, s[d].entries[1].inum, m, d);
      TwoRefs(s, d, s[d].entries[1].inum, m, i, 1);
    }
  }

  lemma UnlinkDirCount(s: Inodes, d: nat, k: nat, i: nat, s': Inodes, j: nat)
    requires Ok(s) && UnlinksDir(s, d, k, i, s') && 0 < j < |s|
    ensures CountOk(s', j)
  {
    assert CountOk(s, j);
    EmptyDirectory(s, d, k, i);
    UnlinkDirNames(s, d, k, i, s', j);
    if j == i {
      OneFewer(s, s', j, d, k);
    } else if j == d {
      OneFewer(s, s', j, i, 1);
    } else {
      SameRefs(s, s', j);
    }
  }

  lemma UnlinkDirKeeps(s: Inodes, d: nat, k: nat, i: nat, s': Inodes)
    requires Ok(s) && UnlinksDir(s, d, k, i, s')
    ensures Ok(s') && s[i].nlink >= 1
  {
    forall j: nat | 0 < j < |s'|
      ensures CountOk(s', j)
    {
      UnlinkDirCount(s, d, k, i, s', j);
    }
    EmptyDirectory(s, d, k, i);
    UnlinkDirNames(s, d, k, i, s', i);
    forall e: nat | e < |s'|
      ensures DirOk(s', e)
    {
      assert DirOk(s, e) && DirOk(s, i);
    }
    forall x: nat | x < |s'|
      ensures ParentOk(s', x)
    {
      assert ParentOk(s, x) && DirOk(s, x);
      if x != 0 && x != i && Linked(s, x) {
        UnlinkDirNames(s, d, k, i, s', x);
        SameHolders(s, s', x);
      }
    }
  }

  // -------------------------------------------------------------------- iput

  /** An inode without links and without users is freed. */
  lemma ReclaimKeeps(s: Inodes, i: nat, s': Inodes)
    requires Ok(s) && 0 < i < |s| && s[i].nlink == 0 && s' == s[i := Unused]
    ensures Ok(s')
  {
    assert DirOk(s, i);
    forall j: nat | 0 < j < |s'|
      ensures CountOk(s', j)
    {
      assert CountOk(s, j);
      SameRefs(s, s', j);
    }
    forall e: nat | e < |s'|
      ensures DirOk(s', e)
    {
      assert DirOk(s, e);
    }
    forall x: nat | x < |s'|
      ensures ParentOk(s', x)
    {
      assert ParentOk(s, x) && DirOk(s, x);
      if Linked(s, x) {
        SameHolders(s, s', x);
      }
    }
  }

  /** mkfs's root directory. */
  lemma RootOk(s: Inodes)
    requires |s| > ROOTINO && s[ROOTINO] == Inode(Dir, 1, [Entry(ROOTINO, "."), Entry(ROOTINO, "..")])
    requires forall j: nat {:trigger s[j]} | j < |s| && j != ROOTINO :: s[j] == Unused
    ensures Ok(s)
  {
    forall j: nat | 0 < j < |s|
      ensures CountOk(s, j)
    {
      assert Refs(s, j) == if j == ROOTINO then {(ROOTINO, 1)} else {};
    }
  }

  const Dots1 := [Entry(1, "."), Entry(1, "..")]
  const Dots2 := [Entry(2, "."), Entry(1, "..")]

  /** A new file system of five inodes; then with a directory "d", inode 2; then with a file "f",
      inode 3, in the root too; then after "d" is unlinked while somebody still works in it. */
  ghost function Empty5(): Inodes { [Unused, Inode(Dir, 1, Dots1), Unused, Unused, Unused] }

  ghost function WithDir(): Inodes {
    [Unused, Inode(Dir, 2, Dots1 + [Entry(2, "d")]), Inode(Dir, 1, Dots2), Unused, Unused]
  }

  ghost function WithFile(): Inodes {
    [Unused, Inode(Dir, 2, Dots1 + [Entry(2, "d"), Entry(3, "f")]), Inode(Dir, 1, Dots2), Inode(File, 1, []), Unused]
  }

  ghost function Removed(): Inodes {
    [Unused, Inode(Dir, 1, Dots1 + [NoEntry, Entry(3, "f")]), Inode(Dir, 0, Dots2), Inode(File, 1, []), Unused]
  }

  lemma DirMade()
    ensures Ok(Empty5()) && Creates(Empty5(), 1, 2, "d", 2, Dir, WithDir()) && Ok(WithDir())
  {
    RootOk(Empty5());
    assert Put(Empty5()[1].entries, 2, Entry(2, "d")) == WithDir()[1].entries;
    CreateKeeps(Empty5(), 1, 2, "d", 2, Dir, WithDir());
  }

  lemma FileMade()
    ensures Creates(WithDir(), 1, 3, "f", 3, File, WithFile()) && Ok(WithFile())
  {
    DirMade();
    assert Put(WithDir()[1].entries, 3, Entry(3, "f")) == WithFile()[1].entries;
    CreateKeeps(WithDir(), 1, 3, "f", 3, File, WithFile());
  }

  lemma DirRemoved()
    ensures UnlinksDir(WithFile(), 1, 2, 2, Removed()) && Ok(Removed()) && !Linked(Removed(), 2)
  {
    FileMade();
    assert Holds(WithFile(), 1, 2, 2);
    assert WithFile()[1].entries[2 := NoEntry] == Removed()[1].entries;
    UnlinkDirKeeps(WithFile(), 1, 2, 2, Removed());
  }

  /** Creating a file in the removed directory leaves a count of one that no linked directory
      accounts for. */
  lemma CreateCanBreak()
    ensures var s' := Removed()[2 := Inode(Dir, 0, Dots2 + [Entry(4, "g")])][4 := Inode(File, 1, [])];
            Creates(Removed(), 2, 2, "g", 4, File, s') && !CountsOk(s')
  {
    var s := Removed();
    var s': Inodes := s[2 := Inode(Dir, 0, Dots2 + [Entry(4, "g")])][4 := Inode(File, 1, [])];
    DirRemoved();
    assert Put(s[2].entries, 2, Entry(4, "g")) == s'[2].entries;
    CreateKeepsCountsIff(s, 2, 2, "g", 4, File, s');
  }

  /** So does linking the file "f" there. */
  lemma LinkCanBreak()
    ensures var s' := Removed()[2 := Inode(Dir, 0, Dots2 + [Entry(3, "g")])][3 := Inode(File, 2, [])];
            LinksTo(Removed(), 2, 2, "g", 3, s') && !CountsOk(s')
  {
    var s := Removed();
    var s': Inodes := s[2 := Inode(Dir, 0, Dots2 + [Entry(3, "g")])][3 := Inode(File, 2, [])];
    DirRemoved();
    assert Put(s[2].entries, 2, Entry(3, "g")) == s'[2].entries;
    LinkKeepsCountsIff(s, 2, 2, "g", 3, s');
  }
}
