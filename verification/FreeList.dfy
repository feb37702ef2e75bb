/**
 The shape of the allocator's heap: an address-ordered list of free blocks, the
 blocks in use, and for every unit obtained from sbrk the block it belongs to.
 Addresses are in units of one header (16 bytes).
 */
module FreeList {

  /** `list` starts with the static header `base`; `blocks` gives the size of every free
      and live block by the address of its header; `owner` maps every unit obtained from
      sbrk to the block that contains it. */
  datatype Shape = Shape(list: seq<int>, blocks: map<int, int>, live: set<int>, owner: map<int, int>)

  ghost predicate Sorted(l: seq<int>) {
    forall i, j | 0 <= i < j < |l| :: l[i] < l[j]
  }

  /** Every block is either live or on the list, which is in order of address. */
  ghost predicate Listed(base: int, list: seq<int>, blocks: map<int, int>, live: set<int>) {
    && list != [] && list[0] == base && Sorted(list)
    && (forall h | h in list :: h == base || h in blocks)
    && (forall h | h in blocks :: base < h && (h in live <==> h !in list))
    && live <= blocks.Keys
  }

  /** Unit u lies in the block at h. */
  ghost predicate InBlock(blocks: map<int, int>, h: int, u: int) {
    h in blocks && h <= u < h + blocks[h]
  }

  /** The units of the arena are partitioned into the blocks. */
  ghost predicate Partition(blocks: map<int, int>, owner: map<int, int>) {
    && (forall h | h in blocks :: blocks[h] > 0)
    && (forall h, u | InBlock(blocks, h, u) :: u in owner && owner[u] == h)
    && (forall u | u in owner :: InBlock(blocks, owner[u], u))
  }

  ghost predicate Partitioned(base: int, s: Shape) {
    Listed(base, s.list, s.blocks, s.live) && Partition(s.blocks, s.owner)
  }

  /** The free block at index i of the list ends where the next one begins. */
  ghost predicate Touches(s: Shape, i: int)
    requires 1 <= i < |s.list| - 1
  {
    s.list[i] in s.blocks && s.list[i] + s.blocks[s.list[i]] == s.list[i + 1]
  }

  ghost predicate Coalesced(s: Shape) {
    forall i | 1 <= i < |s.list| - 1 :: !Touches(s, i)
  }

  ghost predicate WellShaped(base: int, s: Shape) {
    Partitioned(base, s) && Coalesced(s)
  }

  lemma Disjoint(blocks: map<int, int>, owner: map<int, int>, g: int, h: int)
    requires Partition(blocks, owner) && g in blocks && h in blocks && g < h
    ensures g + blocks[g] <= h
  {
    assert InBlock(blocks, h, h);
    assert h < g + blocks[g] ==> InBlock(blocks, g, h);
  }

  lemma InsertSorted(l: seq<int>, i: nat, h: int, l': seq<int>)
    requires Sorted(l) && i < |l| && l[i] < h && (i + 1 < |l| ==> h < l[i + 1])
    requires l' == l[..i + 1] + [h] + l[i + 1..]
    ensures Sorted(l') && forall x :: x in l' <==> x in l || x == h
  {
  }

  lemma RemoveSorted(l: seq<int>, i: nat, l': seq<int>)
    requires Sorted(l) && i < |l| && l' == l[..i] + l[i + 1..]
    ensures Sorted(l') && forall x :: x in l' <==> x in l && x != l[i]
  {
  }

  /** A live block moves to the list, between index i and i + 1. */
  ghost function Released(s: Shape, h: int, i: nat): Shape
    requires i < |s.list|
  {
    Shape(s.list[..i + 1] + [h] + s.list[i + 1..], s.blocks, s.live - {h}, s.owner)
  }

  lemma ReleasedKeeps(base: int, s: Shape, h: int, i: nat, s': Shape)
    requires Partitioned(base, s) && h in s.live && i < |s.list|
    requires s.list[i] < h && (i + 1 < |s.list| ==> h < s.list[i + 1])
    requires s' == Released(s, h, i)
    ensures Partitioned(base, s')
  {
    InsertSorted(s.list, i, h, s'.list);
  }

  /** The block at index i of the list absorbs the one at index i + 1. */
  ghost function Merged(s: Shape, i: nat): Shape
    requires 1 <= i && i + 1 < |s.list| && s.list[i] in s.blocks && s.list[i + 1] in s.blocks
  {
    var g, h := s.list[i], s.list[i + 1];
    Shape(s.list[..i + 1] + s.list[i + 2..],
          (s.blocks - {h})[g := s.blocks[g] + s.blocks[h]],
          s.live,
          map u | u in s.owner :: if s.owner[u] == h then g else s.owner[u])
  }

  ghost predicate IsFree(s: Shape, u: int) { u in s.owner && s.owner[u] !in s.live }

  /** Both shapes describe the same live blocks and the same free units. */
  ghost predicate SameUse(s: Shape, t: Shape) {
    && s.live == t.live && s.owner.Keys == t.owner.Keys
    && (forall h | h in s.live :: h in s.blocks && h in t.blocks && s.blocks[h] == t.blocks[h])
    && (forall u :: IsFree(s, u) <==> IsFree(t, u))
  }

  ghost predicate HasBlock(s: Shape, n: int) {
    exists h | h in s.list :: h in s.blocks && s.blocks[h] >= n
  }

  lemma MergedPartition(blocks: map<int, int>, owner: map<int, int>, g: int, h: int, blocks': map<int, int>,
                        owner': map<int, int>)
    requires Partition(blocks, owner) && g in blocks && h in blocks && g + blocks[g] == h
    requires blocks' == (blocks - {h})[g := blocks[g] + blocks[h]]
    requires owner' == map u | u in owner :: if owner[u] == h then g else owner[u]
    ensures Partition(blocks', owner')
  {
    forall b, u | InBlock(blocks', b, u)
      ensures u in owner' && owner'[u] == b
    {
      assert InBlock(blocks, b, u) || (b == g && InBlock(blocks, h, u));
    }
    forall u | u in owner'
      ensures InBlock(blocks', owner'[u], u)
    {
      assert InBlock(blocks, owner[u], u);
    }
  }

  lemma MergedKeeps(base: int, s: Shape, i: nat, s': Shape)
    requires Partitioned(base, s) && 1 <= i && i + 1 < |s.list| && Touches(s, i) && s.list[i + 1] in s.blocks
    requires s' == Merged(s, i)
    ensures Partitioned(base, s') && SameUse(s, s')
    ensures s.list[i] in s'.list && s.blocks[s.list[i]] <= s'.blocks[s.list[i]]
  {
    var g, h := s.list[i], s.list[i + 1];
    assert g in s.list && h in s.list;
    RemoveSorted(s.list, i + 1, s'.list);
    MergedPartition(s.blocks, s.owner, g, h, s'.blocks, s'.owner);
  }

  /** The block at index i + 1, just released, is merged with its neighbours where they touch. */
  ghost function MergedUp(s: Shape, i: nat): Shape {
    if i + 2 < |s.list| && Touches(s, i + 1) && s.list[i + 2] in s.blocks then Merged(s, i + 1) else s
  }

  ghost function MergedDown(s: Shape, i: nat): Shape {
    if 1 <= i && i + 1 < |s.list| && Touches(s, i) && s.list[i + 1] in s.blocks then Merged(s, i) else s
  }

  /** The whole effect of free on the shape. */
  ghost function Freed(s: Shape, h: int, i: nat): Shape
    requires i < |s.list|
  {
    MergedDown(MergedUp(Released(s, h, i), i), i)
  }

  /** Only the pairs around index i + 1 may still touch. */
  ghost predicate CoalescedBut(s: Shape, a: int, b: int) {
    forall k | 1 <= k < |s.list| - 1 && k != a && k != b :: !Touches(s, k)
  }

  lemma ReleasedCoalesced(base: int, s: Shape, h: int, i: nat, s': Shape)
    requires WellShaped(base, s) && i < |s.list| && s' == Released(s, h, i)
    ensures CoalescedBut(s', i, i + 1)
  {
    forall k | 1 <= k < |s'.list| - 1 && k != i && k != i + 1
      ensures !Touches(s', k)
    {
      assert !Touches(s, if k < i then k else k - 1);
    }
  }

  lemma MergedCoalesced(base: int, s: Shape, i: nat, s': Shape, a: int)
    requires Partitioned(base, s) && 1 <= i && i + 1 < |s.list| && s.list[i] in s.blocks && s.list[i + 1] in s.blocks
             && s' == Merged(s, i)
    requires Touches(s, i) && a <= i && CoalescedBut(s, a, i)
    ensures CoalescedBut(s', a, a)
  {
    forall k | 1 <= k < |s'.list| - 1 && k != a
      ensures !Touches(s', k)
    {
      assert s.list[k] in s.list && s.list[k] != base;
      assert !Touches(s, if k < i then k else k + 1);
    }
  }

  /** The block at index i + 1 absorbs its successor. */
  lemma AbsorbKeeps(base: int, s: Shape, i: nat, s': Shape)
    requires Partitioned(base, s) && i + 2 < |s.list| && s.list[i + 1] in s.blocks && s.list[i + 2] in s.blocks
             && CoalescedBut(s, i, i + 1)
    requires Touches(s, i + 1) && s' == Merged(s, i + 1)
    ensures Partitioned(base, s') && SameUse(s, s') && CoalescedBut(s', i, i)
    ensures s.list[i + 1] in s'.blocks && s.blocks[s.list[i + 1]] <= s'.blocks[s.list[i + 1]]
  {
    hide CoalescedBut;
    assert s.list[i + 2] in s.list && s.list[i + 2] != base;
    MergedKeeps(base, s, i + 1, s');
    MergedCoalesced(base, s, i + 1, s', i);
  }

  lemma MergedUpKeeps(base: int, s: Shape, i: nat, s': Shape)
    requires Partitioned(base, s) && i + 1 < |s.list| && s.list[i + 1] in s.blocks && CoalescedBut(s, i, i + 1)
    requires s' == MergedUp(s, i)
    ensures Partitioned(base, s') && SameUse(s, s') && CoalescedBut(s', i, i)
    ensures i + 1 < |s'.list| && s'.list[i] == s.list[i] && s'.list[i + 1] == s.list[i + 1]
    ensures s.list[i + 1] in s'.blocks && s.blocks[s.list[i + 1]] <= s'.blocks[s.list[i + 1]]
  {
    if i + 2 < |s.list| && Touches(s, i + 1) {
      assert s.list[i + 2] in s.list && s.list[i + 2] != base;
      AbsorbKeeps(base, s, i, s');
    }
  }

  lemma MergedDownKeeps(base: int, s: Shape, i: nat, s': Shape)
    requires Partitioned(base, s) && i + 1 < |s.list| && s.list[i + 1] in s.blocks && CoalescedBut(s, i, i)
    requires s' == MergedDown(s, i)
    ensures WellShaped(base, s') && SameUse(s, s')
    ensures s.list[i] in s'.list && HasBlock(s', s.blocks[s.list[i + 1]])
  {
    var h := s.list[i + 1];
    assert s.list[i] in s.list && h in s.list;
    if 1 <= i && Touches(s, i) {
      MergedKeeps(base, s, i, s');
      MergedCoalesced(base, s, i, s', i);
      assert s'.blocks[s.list[i]] >= s.blocks[h];
      if i < |s'.list| - 1 {
        ApartAfterMerge(base, s, i, s');
      }
    }
  }

  /** After the merge, the grown block does not touch its successor if the absorbed one did not. */
  lemma ApartAfterMerge(base: int, s: Shape, i: nat, s': Shape)
    requires Partitioned(base, s) && 1 <= i && i + 1 < |s.list| && s.list[i] in s.blocks && s.list[i + 1] in s.blocks
    requires s' == Merged(s, i) && Touches(s, i) && CoalescedBut(s, i, i) && i < |s'.list| - 1
    ensures !Touches(s', i)
  {
    assert !Touches(s, i + 1);
  }

  lemma FreedKeeps(base: int, s: Shape, h: int, i: nat, s': Shape)
    requires WellShaped(base, s) && h in s.live && i < |s.list|
    requires s.list[i] < h && (i + 1 < |s.list| ==> h < s.list[i + 1])
    requires s' == Freed(s, h, i)
    ensures WellShaped(base, s') && s.list[i] in s'.list
    ensures SameUse(s.(live := s.live - {h}), s')
    ensures h in s.blocks && HasBlock(s', s.blocks[h])
  {
    var s1 := Released(s, h, i);
    ReleasedKeeps(base, s, h, i, s1);
    ReleasedCoalesced(base, s, h, i, s1);
    var s2 := MergedUp(s1, i);
    MergedUpKeeps(base, s1, i, s2);
    MergedDownKeeps(base, s2, i, s');
    SameUseTransitive(s1, s2, s');
    SameUseTransitive(s.(live := s.live - {h}), s1, s');
    var g :| g in s'.list && g in s'.blocks && s'.blocks[g] >= s2.blocks[h];
  }

  lemma SameUseTransitive(s: Shape, t: Shape, r: Shape)
    requires SameUse(s, t) && SameUse(t, r)
    ensures SameUse(s, r)
  {
  }

  /** The block at index i of the list becomes live. */
  ghost function Taken(s: Shape, i: nat): Shape
    requires 1 <= i < |s.list|
  {
    Shape(s.list[..i] + s.list[i + 1..], s.blocks, s.live + {s.list[i]}, s.owner)
  }

  lemma TakenKeeps(base: int, s: Shape, i: nat, s': Shape)
    requires WellShaped(base, s) && 1 <= i < |s.list|
    requires s' == Taken(s, i)
    ensures WellShaped(base, s')
  {
    RemoveSorted(s.list, i, s'.list);
    var l := s'.list;
    assert s.list[i] in s.list && s.list[i] != base;
    forall k | 1 <= k < |l| - 1
      ensures !Touches(s', k)
    {
      if k == i - 1 {
        assert s.list[k] in s.list && s.list[k] != base;
        Disjoint(s.blocks, s.owner, s.list[k], s.list[i]);
      } else {
        assert !Touches(s, if k < i then k else k + 1);
      }
    }
  }

  /** The last n units of the block at index i of the list become a live block. */
  ghost function Split(s: Shape, i: nat, n: nat): Shape
    requires 1 <= i < |s.list| && s.list[i] in s.blocks
  {
    var g := s.list[i];
    var h := g + s.blocks[g] - n;
    Shape(s.list, s.blocks[g := s.blocks[g] - n][h := n], s.live + {h},
          map u | u in s.owner :: if u in Range(h, n) then h else s.owner[u])
  }

  lemma SplitIsNew(blocks: map<int, int>, owner: map<int, int>, g: int, h: int)
    requires Partition(blocks, owner) && g in blocks && g < h < g + blocks[g]
    ensures h !in blocks && h in owner
  {
    if h in blocks {
      Disjoint(blocks, owner, g, h);
    }
    assert InBlock(blocks, g, h);
  }

  lemma SplitPartition(blocks: map<int, int>, owner: map<int, int>, g: int, h: int, n: nat, blocks': map<int, int>,
                       owner': map<int, int>)
    requires Partition(blocks, owner) && g in blocks && 0 < n < blocks[g] && h == g + blocks[g] - n
    requires blocks' == blocks[g := blocks[g] - n][h := n]
    requires owner' == map u | u in owner :: if u in Range(h, n) then h else owner[u]
    ensures h !in blocks && Partition(blocks', owner')
  {
    SplitIsNew(blocks, owner, g, h);
    forall b, u | InBlock(blocks', b, u)
      ensures u in owner' && owner'[u] == b
    {
      assert InBlock(blocks, if b == h then g else b, u);
      assert b != h && b != g && u in Range(h, n) ==> InBlock(blocks, g, u);
    }
    forall u | u in owner'
      ensures InBlock(blocks', owner'[u], u)
    {
      assert InBlock(blocks, owner[u], u);
    }
  }

  lemma SplitKeeps(base: int, s: Shape, i: nat, n: nat, s': Shape)
    requires WellShaped(base, s) && 1 <= i < |s.list| && s.list[i] in s.blocks && 0 < n < s.blocks[s.list[i]]
    requires s' == Split(s, i, n)
    ensures WellShaped(base, s')
    ensures s.list[i] + s.blocks[s.list[i]] - n !in s.blocks
  {
    var g := s.list[i];
    SplitPartition(s.blocks, s.owner, g, g + s.blocks[g] - n, n, s'.blocks, s'.owner);
    forall k | 1 <= k < |s'.list| - 1
      ensures !Touches(s', k)
    {
      SplitApart(base, s, i, n, s', k);
    }
  }

  lemma SplitApart(base: int, s: Shape, i: nat, n: nat, s': Shape, k: int)
    requires WellShaped(base, s) && 1 <= i < |s.list| && s.list[i] in s.blocks && 0 < n < s.blocks[s.list[i]]
    requires s' == Split(s, i, n) && s.list[i] + s.blocks[s.list[i]] - n !in s.blocks
    requires 1 <= k < |s.list| - 1
    ensures !Touches(s', k)
  {
    assert !Touches(s, k);
    assert s.list[k] in s.list && s.list[k] != base;
    if k == i {
      assert s.list[i + 1] in s.list && s.list[i + 1] != base;
      Disjoint(s.blocks, s.owner, s.list[i], s.list[i + 1]);
    } else {
      assert s.list[k] != s.list[i];
    }
  }

  /** The units from a to a + n - 1. */
  function Range(a: int, n: nat): (r: set<int>)
    ensures forall u :: u in r <==> a <= u < a + n
  {
    if n == 0 then {} else Range(a, n - 1) + {a + n - 1}
  }

  /** n fresh units at a become a live block. */
  ghost function Grown(s: Shape, a: int, n: nat): Shape {
    Shape(s.list, s.blocks[a := n], s.live + {a},
          map u | u in s.owner.Keys + Range(a, n) :: if u in Range(a, n) then a else s.owner[u])
  }

  lemma GrownPartition(blocks: map<int, int>, owner: map<int, int>, a: int, n: nat, blocks': map<int, int>,
                       owner': map<int, int>)
    requires Partition(blocks, owner) && n > 0 && owner.Keys !! Range(a, n)
    requires blocks' == blocks[a := n]
    requires owner' == map u | u in owner.Keys + Range(a, n) :: if u in Range(a, n) then a else owner[u]
    ensures a !in blocks && Partition(blocks', owner')
  {
    if a in blocks {
      assert InBlock(blocks, a, a) && a in Range(a, n);
    }
    forall b, u | InBlock(blocks', b, u)
      ensures u in owner' && owner'[u] == b
    {
      assert b != a ==> InBlock(blocks, b, u);
    }
    forall u | u in owner'
      ensures InBlock(blocks', owner'[u], u)
    {
      assert u in owner ==> InBlock(blocks, owner[u], u);
    }
  }

  lemma GrownKeeps(base: int, s: Shape, a: int, n: nat, s': Shape)
    requires WellShaped(base, s) && base < a && n > 0 && s.owner.Keys !! Range(a, n)
    requires s' == Grown(s, a, n)
    ensures WellShaped(base, s')
    ensures a !in s.blocks && a !in s.live
  {
    GrownPartition(s.blocks, s.owner, a, n, s'.blocks, s'.owner);
    assert a !in s.list;
    forall k | 1 <= k < |s'.list| - 1
      ensures !Touches(s', k)
    {
      assert !Touches(s, k);
      assert s.list[k] in s.list;
    }
  }

  // ---------------------------------------------------------- canonical form

  lemma Neighbours(base: int, s: Shape, i: nat, j: nat)
    requires Partitioned(base, s) && 1 <= i < j < |s.list|
    requires s.list[i] in s.blocks && s.list[i] + s.blocks[s.list[i]] == s.list[j]
    ensures j == i + 1
  {
    if i + 1 < j {
      assert s.list[i + 1] in s.list && s.list[i + 1] != base;
      Disjoint(s.blocks, s.owner, s.list[i], s.list[i + 1]);
    }
  }

  lemma SortedIndex(l: seq<int>, i: nat, j: nat)
    requires Sorted(l) && i < |l| && j < |l| && l[i] < l[j]
    ensures i < j
  {
  }

  /** A listed block after a free unit follows a block that touches it. */
  lemma TouchedFrom(base: int, s: Shape, x: int)
    requires Partitioned(base, s) && x in s.list && x != base && IsFree(s, x - 1)
    ensures exists i :: 1 <= i < |s.list| - 1 && Touches(s, i)
  {
    assert InBlock(s.blocks, x, x);
    var g := s.owner[x - 1];
    Disjoint(s.blocks, s.owner, g, x);
    var i: nat, j: nat :| i < |s.list| && j < |s.list| && s.list[i] == g && s.list[j] == x;
    SortedIndex(s.list, i, j);
    Neighbours(base, s, i, j);
    assert Touches(s, i);
  }

  /** The blocks on the list start exactly where runs of free units start. */
  lemma StartsOfRuns(base: int, s: Shape, x: int)
    requires WellShaped(base, s)
    ensures x in s.list && x != base <==> IsFree(s, x) && !IsFree(s, x - 1)
  {
    if x in s.list && x != base {
      assert InBlock(s.blocks, x, x);
      if IsFree(s, x - 1) {
        TouchedFrom(base, s, x);
      }
    }
    if IsFree(s, x) && !IsFree(s, x - 1) {
      var h := s.owner[x];
      if h < x {
        assert InBlock(s.blocks, h, x - 1);
      }
    }
  }

  lemma {:induction false} SortedUnique(a: seq<int>, b: seq<int>)
    requires Sorted(a) && Sorted(b) && forall x :: x in a <==> x in b
    ensures a == b
  {
    HasHead(a);
    HasHead(b);
    if a != [] && b != [] {
      assert a[0] == b[0];
      assert a == [a[0]] + a[1..] && b == [b[0]] + b[1..];
      assert forall x :: x in a[1..] <==> x in a && x != a[0];
      assert forall x :: x in b[1..] <==> x in b && x != b[0];
      SortedUnique(a[1..], b[1..]);
    }
  }

  lemma HasHead(a: seq<int>)
    ensures a != [] ==> a[0] in a
  {
  }

  /** Which units are free determines the whole free list. */
  lemma Canonical(base: int, s: Shape, t: Shape)
    requires WellShaped(base, s) && WellShaped(base, t)
    requires forall u :: IsFree(s, u) <==> IsFree(t, u)
    ensures s.list == t.list
  {
    forall x
      ensures x in s.list <==> x in t.list
    {
      StartsOfRuns(base, s, x);
      StartsOfRuns(base, t, x);
    }
    SortedUnique(s.list, t.list);
  }
}
