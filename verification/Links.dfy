/**
 dirlookup, dirlink, isdirempty, ialloc, and the parts of sys_link, sys_unlink, create and iput
 that change directories and link counts, each call atomic. The inodes that the paths lead to
 are parameters; a directory is the sequence of its 16-byte slots.
 */
module Links {
  import opened LinkCounts
  import opened Options

  const MAXENTRIES := 268 * 1024 / 16        // as many as the largest file holds

  /** The first slot in use with this name. */
  ghost predicate FirstNamed(es: seq<Entry>, name: string, k: int) {
    0 <= k < |es| && es[k].inum != 0 && es[k].name == name
        && forall j | 0 <= j < k :: !(es[j].inum != 0 && es[j].name == name)
  }

  ghost predicate Absent(es: seq<Entry>, name: string) {
    forall j | 0 <= j < |es| :: !(es[j].inum != 0 && es[j].name == name)
  }

  /** dirlookup of this name finds inode i. */
  ghost predicate Finds(es: seq<Entry>, name: string, i: nat) {
    exists k: int :: FirstNamed(es, name, k) && es[k].inum == i
  }

  /** Every name but this is found, or not, as before. */
  ghost predicate SameElse(es: seq<Entry>, name: string, es': seq<Entry>) {
    forall n: string, i: nat {:trigger Finds(es', n, i)} | n != name :: Finds(es', n, i) <==> Finds(es, n, i)
  }

  /** No name is used twice. */
  ghost predicate UniqueIn(es: seq<Entry>) {
    forall j, k | 0 <= j < k < |es| && es[j].inum != 0 && es[k].inum != 0 :: es[j].name != es[k].name
  }

  ghost predicate UniqueNames(s: Inodes) { forall d: nat {:trigger s[d]} | d < |s| :: UniqueIn(s[d].entries) }

  lemma PutFinds(es: seq<Entry>, k: nat, name: string, i: nat)
    requires Absent(es, name) && k <= |es| && (k < |es| ==> es[k].inum == 0) && i != 0
    ensures var es' := Put(es, k, Entry(i, name)); Finds(es', name, i) && SameElse(es, name, es')
    ensures UniqueIn(es) ==> UniqueIn(Put(es, k, Entry(i, name)))
  {
    var es' := Put(es, k, Entry(i, name));
    assert FirstNamed(es', name, k);
    OtherSlots(es, k, name, es');
  }

  lemma ClearFinds(es: seq<Entry>, k: nat, name: string)
    requires UniqueIn(es) && FirstNamed(es, name, k)
    ensures var es' := es[k := NoEntry]; Absent(es', name) && SameElse(es, name, es') && UniqueIn(es')
  {
    OtherSlots(es, k, name, es[k := NoEntry]);
  }

  /** The slots that hold another name are the same. */
  lemma OtherSlots(es: seq<Entry>, k: nat, name: string, es': seq<Entry>)
    requires |es| <= |es'| && forall j | 0 <= j < |es'| && j != k :: j < |es| && es'[j] == es[j]
    requires k < |es'| && (es'[k].inum == 0 || es'[k].name == name)
    requires k < |es| ==> es[k].inum == 0 || es[k].name == name
    ensures SameElse(es, name, es')
  {
    forall n: string, i: nat | n != name
      ensures Finds(es', n, i) <==> Finds(es, n, i)
    {
      if Finds(es, n, i) {
        var j: int :| FirstNamed(es, n, j) && es[j].inum == i;
        assert FirstNamed(es', n, j);
      }
      if Finds(es', n, i) {
        var j: int :| FirstNamed(es', n, j) && es'[j].inum == i;
        assert FirstNamed(es, n, j);
      }
    }
  }

  /** Why link refuses. */
  ghost predicate LinkRefused(s: Inodes, ip: nat, dp: nat, name: string) {
    ip < |s| && dp < |s| && (s[ip].kind.Dir? || !Absent(s[dp].entries, name))
  }

  ghost predicate NoneFree(s: Inodes) { forall j | 0 < j < |s| :: !s[j].kind.Free? }

  class Table {
    const inode: array<Inode>

    ghost predicate Valid()
      reads this, inode
    {
      Ok(inode[..]) && UniqueNames(inode[..])
    }

    /** A new file system: the root directory alone. */
    constructor (ninodes: nat)
      requires ninodes > ROOTINO
      ensures Valid() && inode.Length == ninodes && Linked(inode[..], ROOTINO)
    {
      inode := new Inode[ninodes](i => if i == ROOTINO
          then Inode(Dir, 1, [Entry(ROOTINO, "."), Entry(ROOTINO, "..")]) else Unused);
      new;
      RootOk(inode[..]);
    }

    /** dirlookup: the slot of a name, or -1. */
    method Dirlookup(dp: nat, name: string) returns (k: int)
      requires dp < inode.Length && inode[dp].kind.Dir?
      ensures k >= 0 ==> FirstNamed(inode[dp].entries, name, k)
      ensures k < 0 ==> Absent(inode[dp].entries, name)
    {
      k := 0;
      while k < |inode[dp].entries|
        invariant 0 <= k <= |inode[dp].entries|
        invariant forall j | 0 <= j < k :: !(inode[dp].entries[j].inum != 0 && inode[dp].entries[j].name == name)
      {
        var de := inode[dp].entries[k];
        if de.inum != 0 && de.name == name {
          return;
        }
        k := k + 1;
      }
      k := -1;
    }

    /** dirlink's search for a slot: the first that is free, or the end. */
    method FindSlot(dp: nat) returns (k: nat)
      requires dp < inode.Length
      ensures k <= |inode[dp].entries| && (k < |inode[dp].entries| ==> inode[dp].entries[k].inum == 0)
      ensures forall j | 0 <= j < k :: inode[dp].entries[j].inum != 0
    {
      k := 0;
      while k < |inode[dp].entries| && inode[dp].entries[k].inum != 0
        invariant 0 <= k <= |inode[dp].entries| && forall j | 0 <= j < k :: inode[dp].entries[j].inum != 0
      {
        k := k + 1;
      }
    }

    /** dirlink: -1 exactly when the name is there already. It panics in a full directory. */
    method Dirlink(dp: nat, name: string, inum: nat) returns (r: int, panicked: bool, ghost k: nat)
      requires dp < inode.Length && inode[dp].kind.Dir?
      modifies inode
      ensures r < 0 ==> r == -1 && !panicked && inode[..] == old(inode[..]) && !Absent(old(inode[..])[dp].entries, name)
      ensures panicked ==>
                && inode[..] == old(inode[..]) && |inode[..][dp].entries| >= MAXENTRIES
                && Absent(inode[..][dp].entries, name)
      ensures r >= 0 && !panicked ==>
                var es := old(inode[..])[dp].entries;
                && r == 0 && Absent(es, name) && k <= |es| && (k < |es| ==> es[k].inum == 0)
                && (forall j | 0 <= j < k :: es[j].inum != 0)
                && inode[..] == old(inode[..])[dp := old(inode[..])[dp].(entries := Put(es, k, Entry(inum, name)))]
    {
      panicked, k := false, 0;
      var found := Dirlookup(dp, name);
      if found >= 0 {
        return -1, false, k;
      }
      var slot := FindSlot(dp);
      k := slot;
      if slot >= MAXENTRIES {
        return 0, true, k;
      }
      inode[dp] := inode[dp].(entries := Put(inode[dp].entries, slot, Entry(inum, name)));
      r := 0;
    }

    /** isdirempty. */
    method Isdirempty(d: nat) returns (b: bool)
      requires d < inode.Length
      ensures b <==> Empty(inode[..], d)
    {
      var k := 2;
      while k < |inode[d].entries|
        invariant 2 <= k && forall j: nat {:trigger inode[d].entries[j]} | 2 <= j < k && j < |inode[d].entries| ::
                    inode[d].entries[j].inum == 0
      {
        if inode[d].entries[k].inum != 0 {
          assert inode[..][d].entries[k].inum != 0;
          return false;
        }
        k := k + 1;
      }
      b := true;
    }

    /** ialloc's scan: the first free inode, or none, which is a panic. */
    method FindFree() returns (r: Option<nat>)
      ensures r.Some? ==>
                && 0 < r.value < inode.Length && inode[r.value].kind.Free?
                && forall j | 0 < j < r.value :: !inode[j].kind.Free?
      ensures r.None? ==> forall j | 0 < j < inode.Length :: !inode[j].kind.Free?
    {
      var i := 1;
      while i < inode.Length
        invariant 1 <= i && forall j | 0 < j < i && j < inode.Length :: !inode[j].kind.Free?
      {
        if inode[i].kind.Free? {
          return Some(i);
        }
        i := i + 1;
      }
      return None;
    }

    /** sys_link of the inode ip under a name in dp. It refuses exactly directories and names in
        use, and then leaves no trace; it panics only in a full directory; otherwise the counts are
        right afterwards exactly when dp is itself still linked. */
    method SysLink(ip: nat, dp: nat, name: string) returns (r: int, panicked: bool)
      requires Valid() && 0 < ip < inode.Length && !inode[ip].kind.Free? && dp < inode.Length && inode[dp].kind.Dir?
      modifies inode
      ensures panicked ==> !LinkRefused(old(inode[..]), ip, dp, name) && |old(inode[..])[dp].entries| >= MAXENTRIES
      ensures !panicked ==> r == if LinkRefused(old(inode[..]), ip, dp, name) then -1 else 0
      ensures !panicked && r < 0 ==> inode[..] == old(inode[..])
      ensures !panicked && r == 0 ==> (CountsOk(inode[..]) <==> Linked(old(inode[..]), dp))
      ensures !panicked && r == 0 && Linked(old(inode[..]), dp) ==> Valid()
      ensures !panicked && r == 0 ==> exists k: nat :: LinksTo(old(inode[..]), dp, k, name, ip, inode[..])
      ensures !panicked && r == 0 ==>
                && Finds(inode[..][dp].entries, name, ip)
                && SameElse(old(inode[..])[dp].entries, name, inode[..][dp].entries)
                && inode[..][ip].nlink == old(inode[..])[ip].nlink + 1
    {
      ghost var s := inode[..];
      panicked := false;
      if inode[ip].kind.Dir? {
        return -1, false;
      }
      inode[ip] := inode[ip].(nlink := inode[ip].nlink + 1);
      ghost var k;
      r, panicked, k := Dirlink(dp, name, ip);
      if panicked {
        return;
      }
      if r < 0 {
        inode[ip] := inode[ip].(nlink := inode[ip].nlink - 1);
        assert inode[..] == s;
        return;
      }
      SlotIsVacant(s, dp, name, k);
      assert inode[..] == s[dp := s[dp].(entries := Put(s[dp].entries, k, Entry(ip, name)))]
          [ip := s[ip].(nlink := s[ip].nlink + 1)];
      LinkKeepsCountsIff(s, dp, k, name, ip, inode[..]);
      assert LinksTo(s, dp, k, name, ip, inode[..]);
      PutFinds(s[dp].entries, k, name, ip);
      if Linked(s, dp) {
        LinkKeeps(s, dp, k, name, ip, inode[..]);
      }
    }

    /** sys_unlink of a name in dp. It refuses ".", "..", unknown names and directories that are
        not empty; otherwise the entry is gone and the counts are right. It never finds a count
        below 1. */
    method SysUnlink(dp: nat, name: string) returns (r: int)
      requires Valid() && dp < inode.Length && inode[dp].kind.Dir?
      modifies inode
      ensures Valid() && r == if UnlinkRefused(old(inode[..]), dp, name) then -1 else 0
      ensures r < 0 ==> inode[..] == old(inode[..])
      ensures r == 0 ==>
                exists k: nat ::
                  FirstNamed(old(inode[..])[dp].entries, name, k) && Unlinks(old(inode[..]), dp, k, inode[..])
      ensures r == 0 ==>
                && Absent(inode[..][dp].entries, name)
                && SameElse(old(inode[..])[dp].entries, name, inode[..][dp].entries)
    {
      ghost var s := inode[..];
      if name == "." || name == ".." {
        return -1;
      }
      var k := Dirlookup(dp, name);
      if k < 0 {
        return -1;
      }
      var ip := inode[dp].entries[k].inum;
      HoldsFound(s, dp, name, k);
      FirstIsUnique(s[dp].entries, name, k);
      ClearFinds(s[dp].entries, k, name);
      var empty := Isdirempty(ip);
      if inode[ip].kind.Dir? && !empty {
        assert FirstNamed(s[dp].entries, name, k);
        return -1;
      }
      r := 0;
      var dir := inode[ip].kind.Dir?;
      if dir {
        EmptyDirectory(s, dp, k, ip);
      }
      inode[dp] := inode[dp].(entries := inode[dp].entries[k := NoEntry]);
      if dir {
        inode[dp] := inode[dp].(nlink := inode[dp].nlink - 1);
      }
      inode[ip] := inode[ip].(nlink := inode[ip].nlink - 1);
      if dir {
        assert inode[..] == s[dp := Inode(Dir, s[dp].nlink - 1, s[dp].entries[k := NoEntry])]
            [ip := s[ip].(nlink := s[ip].nlink - 1)];
        UnlinkDirKeeps(s, dp, k, ip, inode[..]);
        assert Unlinks(s, dp, k, inode[..]);
      } else {
        assert inode[..] == s[dp := s[dp].(entries := s[dp].entries[k := NoEntry])]
            [ip := s[ip].(nlink := s[ip].nlink - 1)];
        UnlinkFileKeeps(s, dp, k, ip, inode[..]);
        assert Unlinks(s, dp, k, inode[..]);
      }
    }

    /** create of a file, directory or device under a name in dp. An existing file or device is
        opened by creating a file; any other name in use is refused. It panics only for want of
        an inode or in a full directory. Otherwise the counts are right afterwards exactly when
        dp is itself still linked. */
    method Create(dp: nat, name: string, kind: Kind) returns (r: Option<nat>, panicked: bool)
      requires Valid() && dp < inode.Length && inode[dp].kind.Dir? && !kind.Free?
      modifies inode
      ensures panicked ==>
                && Absent(old(inode[..])[dp].entries, name)
                && (NoneFree(old(inode[..])) || |old(inode[..])[dp].entries| >= MAXENTRIES)
      ensures !Absent(old(inode[..])[dp].entries, name) ==>
                && inode[..] == old(inode[..])
                && (r.Some? <==> exists j: nat :: Opens(inode[..], dp, name, kind, j))
                && (r.Some? ==> Opens(inode[..], dp, name, kind, r.value))
      ensures !panicked && Absent(old(inode[..])[dp].entries, name) ==>
                && r.Some? && (exists k: nat :: Creates(old(inode[..]), dp, k, name, r.value, kind, inode[..]))
                && (CountsOk(inode[..]) <==> Linked(old(inode[..]), dp)) && (Linked(old(inode[..]), dp) ==> Valid())
      ensures !panicked && Absent(old(inode[..])[dp].entries, name) ==>
                && Finds(inode[..][dp].entries, name, r.value) && inode[..][r.value].kind == kind
                && SameElse(old(inode[..])[dp].entries, name, inode[..][dp].entries)
                && (kind.Dir? ==>
                     Finds(inode[..][r.value].entries, ".", r.value) && Finds(inode[..][r.value].entries, "..", dp))
    {
      ghost var s := inode[..];
      panicked := false;
      var found := Dirlookup(dp, name);
      if found >= 0 {
        var ip := inode[dp].entries[found].inum;
        EntryInRange(s, dp, found);
        FirstIsUnique(s[dp].entries, name, found);
        assert FirstNamed(s[dp].entries, name, found);
        if kind.File? && (inode[ip].kind.File? || inode[ip].kind.Device?) {
          assert Opens(inode[..], dp, name, kind, ip);
          return Some(ip), false;
        }
        return None, false;
      }
      var free := FindFree();
      if free.None? {
        return None, true;
      }
      var ip := free.value;
      ghost var k;
      panicked, k := MakeEntry(dp, name, kind, ip);
      if panicked {
        return None, true;
      }
      SlotIsVacant(s, dp, name, k);
      CreateKeepsCountsIff(s, dp, k, name, ip, kind, inode[..]);
      assert Creates(s, dp, k, name, ip, kind, inode[..]);
      PutFinds(s[dp].entries, k, name, ip);
      if kind.Dir? {
        assert FirstNamed(inode[..][ip].entries, ".", 0) && FirstNamed(inode[..][ip].entries, "..", 1);
      }
      if Linked(s, dp) {
        CreateKeeps(s, dp, k, name, ip, kind, inode[..]);
      }
      r := Some(ip);
    }

    /** The stores of create: the new inode, ".", "..", and the entry in the parent. */
    method MakeEntry(dp: nat, name: string, kind: Kind, ip: nat) returns (panicked: bool, ghost k: nat)
      requires Valid() && dp < inode.Length && inode[dp].kind.Dir? && !kind.Free? && 0 < ip < inode.Length
               && inode[ip].kind.Free?
      requires Absent(inode[dp].entries, name)
      modifies inode
      ensures panicked ==> |old(inode[..])[dp].entries| >= MAXENTRIES
      ensures !panicked ==>
                var s := old(inode[..]);
                var es := s[dp].entries;
                && k <= |es| && (k < |es| ==> es[k].inum == 0) && (forall j | 0 <= j < k :: es[j].inum != 0)
                && inode[..] == if kind.Dir?
                                then s[dp := Inode(Dir, s[dp].nlink + 1, Put(es, k, Entry(ip, name)))]
                                    [ip := Inode(Dir, 1, [Entry(ip, "."), Entry(dp, "..")])]
                                else s[dp := s[dp].(entries := Put(es, k, Entry(ip, name)))][ip := Inode(kind, 1, [])]
    {
      ghost var s := inode[..];
      inode[ip] := Inode(kind, 1, []);
      if kind.Dir? {
        inode[dp] := inode[dp].(nlink := inode[dp].nlink + 1);
        var r1, stuck1, _ := Dirlink(ip, ".", ip);
        var r2, stuck2, _ := Dirlink(ip, "..", dp);
        assert inode[ip].entries == [Entry(ip, "."), Entry(dp, "..")];
      }
      var r;
      r, panicked, k := Dirlink(dp, name, ip);
    }

    /** iput of the last user of an inode: without links it is freed. */
    method Iput(i: nat)
      requires Valid() && 0 < i < inode.Length
      modifies inode
      ensures Valid() && inode[..] == if old(inode[..])[i].nlink == 0 then old(inode[..])[i := Unused]
              else old(inode[..])
    {
      ghost var s := inode[..];
      if inode[i].nlink == 0 {
        inode[i] := Unused;
        ReclaimKeeps(s, i, inode[..]);
      }
    }
  }

  /** A name that a directory does not have is neither "." nor "..", and goes into a slot of its own. */
  lemma SlotIsVacant(s: Inodes, d: nat, name: string, k: nat)
    requires Ok(s) && d < |s| && s[d].kind.Dir? && Absent(s[d].entries, name) && k <= |s[d].entries|
    requires (k < |s[d].entries| ==> s[d].entries[k].inum == 0) && forall j | 0 <= j < k :: s[d].entries[j].inum != 0
    ensures Vacant(s, d, k) && PlainName(name)
  {
    assert DirOk(s, d);
    assert s[d].entries[0].inum == d && s[d].entries[1].inum != 0;
    assert DirOk(s, 0);
  }

  /** Slot k of d is cleared, and the counts of what it named, and of d if that was a directory,
      go down; nothing else changes. */
  ghost predicate Unlinks(s: Inodes, d: nat, k: nat, s': Inodes) {
    && d < |s| && k < |s[d].entries|
    && var i := s[d].entries[k].inum;
       UnlinksFile(s, d, k, i, s') || UnlinksDir(s, d, k, i, s')
  }

  /** Why unlink refuses. */
  ghost predicate UnlinkRefused(s: Inodes, d: nat, name: string) {
    && d < |s|
    && (name == "." || name == ".." || Absent(s[d].entries, name)
        || exists k: int ::
          FirstNamed(s[d].entries, name, k) && s[d].entries[k].inum < |s| && s[s[d].entries[k].inum].kind.Dir?
                            && !Empty(s, s[d].entries[k].inum))
  }

  /** Opening an existing file or device by creating it. */
  ghost predicate Opens(s: Inodes, d: nat, name: string, kind: Kind, i: nat) {
    && d < |s| && i < |s| && kind.File? && (s[i].kind.File? || s[i].kind.Device?)
    && exists k: int :: FirstNamed(s[d].entries, name, k) && s[d].entries[k].inum == i
  }

  lemma FirstIsUnique(es: seq<Entry>, name: string, k: nat)
    requires FirstNamed(es, name, k)
    ensures !Absent(es, name) && forall j: int {:trigger FirstNamed(es, name, j)} | FirstNamed(es, name, j) :: j == k
  {
  }

  lemma EntryInRange(s: Inodes, d: nat, k: nat)
    requires Ok(s) && d < |s| && s[d].kind.Dir? && k < |s[d].entries|
    ensures s[d].entries[k].inum < |s|
  {
    assert DirOk(s, d) && s[d].entries[k].inum == s[d].entries[k].inum;
  }

  /** A plain name that is found is in a linked directory. */
  lemma HoldsFound(s: Inodes, d: nat, name: string, k: nat)
    requires Ok(s) && d < |s| && s[d].kind.Dir? && FirstNamed(s[d].entries, name, k) && PlainName(name)
    ensures var i := s[d].entries[k].inum; 0 < i < |s| && Holds(s, d, k, i) && s[i].nlink >= 1
  {
    assert DirOk(s, d) && s[d].entries[k].inum != 0;
    NoDanglingEntry(s, d, k, s[d].entries[k].inum);
  }
}
