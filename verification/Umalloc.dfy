/**
 The Kernighan and Ritchie allocator: free, morecore and malloc work in place on
 headers that are chained into a circular list.
 */
module Umalloc {
  import opened FreeList

  datatype Header = Header(ptr: int, size: int)

  const HEADERBYTES: nat := 16
  const MINUNITS: nat := 4096
  const MAXINT: nat := 0x7fff_ffff

  /** Header units needed for a request: its bytes rounded up, and one for the header. */
  function Units(nbytes: nat): nat { (nbytes + HEADERBYTES - 1) / HEADERBYTES + 1 }

  function Succ(list: seq<int>, i: nat): nat { if i + 1 == |list| then 0 else i + 1 }

  /** Steps along the circular list from index i to index j. */
  function Distance(list: seq<int>, i: nat, j: nat): nat
    requires i < |list|
  {
    if i <= j then j - i else |list| - i + j
  }

  /** The headers in memory spell out the shape. */
  ghost predicate Stored(base: int, mem: map<int, Header>, s: Shape) {
    && base in mem && mem[base].size == 0
    && (forall u | u in s.owner :: u in mem)
    && (forall h | h in s.blocks :: h in mem && mem[h].size == s.blocks[h])
    && (forall i | 0 <= i < |s.list| :: Points(mem, s.list, i))
  }

  ghost predicate Points(mem: map<int, Header>, list: seq<int>, i: nat)
    requires i < |list|
  {
    list[i] in mem && mem[list[i]].ptr == list[Succ(list, i)]
  }

  lemma ReleasedStored(base: int, mem: map<int, Header>, s: Shape, h: int, i: nat, mem': map<int, Header>, s': Shape)
    requires Stored(base, mem, s) && Sorted(s.list) && h !in s.list && h != base && i < |s.list|
    requires s' == Released(s, h, i)
    requires s.list[i] in mem && h in mem
    requires mem' == mem[h := mem[h].(ptr := mem[s.list[i]].ptr)][s.list[i] := mem[s.list[i]].(ptr := h)]
    ensures Stored(base, mem', s')
  {
    forall k | 0 <= k < |s'.list|
      ensures Points(mem', s'.list, k)
    {
      assert Points(mem, s.list, i);
      assert s'.list[k] == if k <= i then s.list[k] else if k == i + 1 then h else s.list[k - 1];
      if k <= i {
        assert Points(mem, s.list, k);
      } else if k > i + 1 {
        assert Points(mem, s.list, k - 1);
      }
    }
  }

  lemma MergedStored(base: int, mem: map<int, Header>, s: Shape, i: nat, mem': map<int, Header>, s': Shape)
    requires Stored(base, mem, s) && Sorted(s.list) && 1 <= i && i + 1 < |s.list| && s.list[0] == base
    requires s.list[i] in s.blocks && s.list[i + 1] in s.blocks && s' == Merged(s, i)
    requires var g, h := s.list[i], s.list[i + 1];
             mem' == mem[g := Header(mem[h].ptr, mem[g].size + mem[h].size)]
    ensures Stored(base, mem', s')
  {
    forall k | 0 <= k < |s'.list|
      ensures Points(mem', s'.list, k)
    {
      assert Points(mem, s.list, i) && Points(mem, s.list, i + 1);
      if k <= i {
        assert Points(mem, s.list, k);
      } else {
        assert Points(mem, s.list, k + 1);
      }
    }
  }

  lemma TakenStored(base: int, mem: map<int, Header>, s: Shape, i: nat, mem': map<int, Header>, s': Shape)
    requires Stored(base, mem, s) && Sorted(s.list) && 1 <= i < |s.list|
    requires s' == Taken(s, i)
    requires Points(mem, s.list, i - 1) && Points(mem, s.list, i)
    requires mem' == mem[s.list[i - 1] := mem[s.list[i - 1]].(ptr := mem[s.list[i]].ptr)]
    ensures Stored(base, mem', s')
  {
    forall k | 0 <= k < |s'.list|
      ensures Points(mem', s'.list, k)
    {
      assert Points(mem, s.list, if k < i then k else k + 1);
      TakenPoints(mem, s.list, i, mem', s'.list, k);
    }
  }

  lemma TakenPoints(mem: map<int, Header>, list: seq<int>, i: nat, mem': map<int, Header>, list': seq<int>, k: nat)
    requires Sorted(list) && 1 <= i < |list| && list' == list[..i] + list[i + 1..] && k < |list'|
    requires Points(mem, list, i - 1) && Points(mem, list, i) && Points(mem, list, if k < i then k else k + 1)
    requires mem' == mem[list[i - 1] := mem[list[i - 1]].(ptr := mem[list[i]].ptr)]
    ensures Points(mem', list', k)
  {
  }

  /** Where the headers of a block and of its last n units lie. */
  lemma SplitPlaces(base: int, mem: map<int, Header>, s: Shape, i: nat, n: nat)
    requires 0 < base && Stored(base, mem, s) && WellShaped(base, s) && 1 <= i < |s.list|
    requires s.list[i] in s.blocks && 0 < n < s.blocks[s.list[i]]
    ensures forall x | x in s.list :: x > 0
    ensures var g := s.list[i]; g in mem && mem[g].size == s.blocks[g] && g + s.blocks[g] - n in mem
    ensures Split(s, i, n).list == s.list
  {
    var g := s.list[i];
    SplitIsNew(s.blocks, s.owner, g, g + s.blocks[g] - n);
    assert Points(mem, s.list, i) && g in s.list;
  }

  lemma SplitStored(base: int, mem: map<int, Header>, s: Shape, i: nat, n: nat, mem': map<int, Header>, s': Shape)
    requires Stored(base, mem, s) && WellShaped(base, s) && 1 <= i < |s.list|
    requires s.list[i] in s.blocks && 0 < n < s.blocks[s.list[i]] && s' == Split(s, i, n)
    requires var g := s.list[i];
             var h := g + s.blocks[g] - n;
             h in mem && mem' == mem[g := mem[g].(size := s.blocks[g] - n)][h := mem[h].(size := n)]
    ensures Stored(base, mem', s')
  {
    SplitKeeps(base, s, i, n, s');
    forall k | 0 <= k < |s'.list|
      ensures Points(mem', s'.list, k)
    {
      assert Points(mem, s.list, k);
      assert s.list[k] in s.list;
    }
  }

  /** What free leaves in the freed header, then in its predecessor on the list. */
  function Linked(mem: map<int, Header>, p: int, bp: int): map<int, Header>
    requires p in mem && bp in mem && mem[p].ptr in mem
  {
    var next := mem[p].ptr;
    var up := if bp + mem[bp].size == next
              then mem[bp := Header(mem[next].ptr, mem[bp].size + mem[next].size)]
              else mem[bp := Header(next, mem[bp].size)];
    if p + up[p].size == bp
    then up[p := Header(up[bp].ptr, up[p].size + up[bp].size)]
    else up[p := Header(bp, up[p].size)]
  }

  lemma FreedStored(base: int, mem: map<int, Header>, s: Shape, h: int, i: nat, mem': map<int, Header>, s': Shape)
    requires Stored(base, mem, s) && WellShaped(base, s) && h in s.live && i < |s.list|
    requires s.list[i] < h && (i + 1 < |s.list| ==> h < s.list[i + 1])
    requires s' == Freed(s, h, i)
    requires s.list[i] in mem && h in mem && mem[s.list[i]].ptr in mem && mem' == Linked(mem, s.list[i], h)
    ensures Stored(base, mem', s')
  {
    var s1, mem1 := ReleasedAndStored(base, mem, s, h, i);
    var up, mem2, mem3 := MergesStored(base, mem1, s1, i, s');
    FreedNext(base, mem, s, h, i);
    LinkedInSteps(mem, s.list[i], h, mem1, mem2, mem3, up);
  }

  lemma ReleasedAndStored(base: int, mem: map<int, Header>, s: Shape, h: int, i: nat)
                          returns (s1: Shape, mem1: map<int, Header>)
    requires Stored(base, mem, s) && WellShaped(base, s) && h in s.live && i < |s.list|
    requires s.list[i] < h && (i + 1 < |s.list| ==> h < s.list[i + 1])
    requires s.list[i] in mem && h in mem
    ensures s1 == Released(s, h, i) && |s1.list| == |s.list| + 1 && s1.list[i] == s.list[i] && s1.list[i + 1] == h
    ensures i + 1 < |s.list| ==> s1.list[i + 2] == s.list[i + 1]
    ensures mem1 == mem[h := Header(mem[s.list[i]].ptr, mem[h].size)][s.list[i] := Header(h, mem[s.list[i]].size)]
    ensures Partitioned(base, s1) && CoalescedBut(s1, i, i + 1) && Stored(base, mem1, s1) && h in s1.blocks
  {
    var p := s.list[i];
    s1, mem1 := Released(s, h, i), mem[h := mem[h].(ptr := mem[p].ptr)][p := mem[p].(ptr := h)];
    ReleasedKeeps(base, s, h, i, s1);
    ReleasedCoalesced(base, s, h, i, s1);
    ReleasedStored(base, mem, s, h, i, mem1, s1);
  }

  lemma FreedNext(base: int, mem: map<int, Header>, s: Shape, h: int, i: nat)
    requires Stored(base, mem, s) && Partitioned(base, s) && h in s.live && i < |s.list|
    requires s.list[i] < h && (i + 1 < |s.list| ==> h < s.list[i + 1])
    ensures h in mem && mem[h].size > 0 && s.list[i] in mem
    ensures var n := mem[s.list[i]].ptr;
            if i + 1 < |s.list| then n == s.list[i + 1] && h < n else n == base && n <= s.list[i]
  {
    assert Points(mem, s.list, i);
  }

  lemma MergesStored(base: int, mem: map<int, Header>, s: Shape, i: nat, s': Shape)
    returns (up: bool, mem2: map<int, Header>, mem3: map<int, Header>)
    requires Stored(base, mem, s) && Partitioned(base, s) && i + 1 < |s.list| && s.list[i + 1] in s.blocks
             && CoalescedBut(s, i, i + 1)
    requires s' == MergedDown(MergedUp(s, i), i)
    ensures Stored(base, mem3, s')
    ensures s.list[i] in mem && s.list[i + 1] in mem
    ensures up <==> i + 2 < |s.list| && s.list[i + 1] + mem[s.list[i + 1]].size == s.list[i + 2]
    ensures up ==> s.list[i + 2] in mem && Absorbed(mem, s.list[i + 1], s.list[i + 2], mem2)
    ensures !up ==> mem2 == mem
    ensures s.list[i] in mem2 && s.list[i + 1] in mem2
    ensures s.list[i] + mem2[s.list[i]].size == s.list[i + 1] ==> Absorbed(mem2, s.list[i], s.list[i + 1], mem3)
    ensures s.list[i] + mem2[s.list[i]].size != s.list[i + 1] ==> mem3 == mem2
  {
    var s2 := MergedUp(s, i);
    MergedUpKeeps(base, s, i, s2);
    up, mem2 := UpStored(base, mem, s, i, s2);
    mem3 := DownStored(base, mem2, s2, i, s');
  }

  /** Header g takes over the size and the link of header h. */
  ghost predicate Absorbed(mem: map<int, Header>, g: int, h: int, mem': map<int, Header>)
    requires g in mem && h in mem
  {
    mem' == mem[g := Header(mem[h].ptr, mem[g].size + mem[h].size)]
  }

  lemma LinkedInSteps(mem: map<int, Header>, p: int, h: int, mem1: map<int, Header>, mem2: map<int, Header>,
                      mem3: map<int, Header>, up: bool)
    requires p in mem && h in mem && p < h && mem[h].size > 0
    requires mem[p].ptr in mem && (mem[p].ptr <= p || h < mem[p].ptr)
    requires mem1 == mem[h := Header(mem[p].ptr, mem[h].size)][p := Header(h, mem[p].size)]
    requires up <==> h + mem[h].size == mem[p].ptr
    requires up ==> Absorbed(mem1, h, mem[p].ptr, mem2)
    requires !up ==> mem2 == mem1
    requires p + mem[p].size == h ==> p in mem2 && h in mem2 && Absorbed(mem2, p, h, mem3)
    requires p + mem[p].size != h ==> mem3 == mem2
    ensures mem3 == Linked(mem, p, h)
  {
  }

  lemma UpStored(base: int, mem: map<int, Header>, s: Shape, i: nat, s': Shape)
                 returns (up: bool, mem': map<int, Header>)
    requires Stored(base, mem, s) && Partitioned(base, s) && i + 1 < |s.list| && s.list[i + 1] in s.blocks
    requires s' == MergedUp(s, i)
    ensures Stored(base, mem', s')
    ensures s.list[i + 1] in mem
    ensures up <==> i + 2 < |s.list| && s.list[i + 1] + mem[s.list[i + 1]].size == s.list[i + 2]
    ensures up ==> s.list[i + 2] in mem && Absorbed(mem, s.list[i + 1], s.list[i + 2], mem')
    ensures !up ==> mem' == mem
  {
    up, mem' := false, mem;
    var h := s.list[i + 1];
    if i + 2 < |s.list| {
      assert s.list[i + 2] in s.list && s.list[i + 2] != base;
      if Touches(s, i + 1) {
        up, mem' := true, mem[h := Header(mem[s.list[i + 2]].ptr, mem[h].size + mem[s.list[i + 2]].size)];
        MergedStored(base, mem, s, i + 1, mem', s');
      }
    }
  }

  lemma DownStored(base: int, mem: map<int, Header>, s: Shape, i: nat, s': Shape) returns (mem': map<int, Header>)
    requires Stored(base, mem, s) && Partitioned(base, s) && i + 1 < |s.list| && s.list[i + 1] in s.blocks
    requires s' == MergedDown(s, i)
    ensures Stored(base, mem', s')
    ensures s.list[i] in mem && s.list[i + 1] in mem
    ensures s.list[i] + mem[s.list[i]].size == s.list[i + 1] ==> Absorbed(mem, s.list[i], s.list[i + 1], mem')
    ensures s.list[i] + mem[s.list[i]].size != s.list[i + 1] ==> mem' == mem
  {
    mem' := mem;
    var p, h := s.list[i], s.list[i + 1];
    assert p in s.list;
    if 1 <= i && Touches(s, i) {
      mem' := mem[p := Header(mem[h].ptr, mem[p].size + mem[h].size)];
      MergedStored(base, mem, s, i, mem', s');
    }
  }

  lemma GrownStored(base: int, mem: map<int, Header>, s: Shape, a: int, n: nat, mem': map<int, Header>, s': Shape)
    requires Stored(base, mem, s) && WellShaped(base, s) && base < a && n > 0 && s.owner.Keys !! Range(a, n)
    requires s' == Grown(s, a, n) && mem'.Keys == mem.Keys + Range(a, n)
    requires forall u | u in mem && u !in Range(a, n) :: mem'[u] == mem[u]
    requires a in mem' && mem'[a].size == n
    ensures Stored(base, mem', s')
  {
    GrownKeeps(base, s, a, n, s');
    forall h | h in s.blocks
      ensures h !in Range(a, n)
    {
      assert InBlock(s.blocks, h, h);
    }
    forall i | 0 <= i < |s.list|
      ensures Points(mem', s'.list, i)
    {
      assert Points(mem, s.list, i);
      assert s.list[i] in s.list;
    }
  }

  /** The new units are free and nothing else about the use of the heap has changed. */
  ghost predicate AddedUnits(s: Shape, grown: set<int>, s': Shape) {
    && s'.live == s.live && grown !! s.owner.Keys && s'.owner.Keys == s.owner.Keys + grown
    && (forall h | h in s.live :: h in s.blocks && h in s'.blocks && s'.blocks[h] == s.blocks[h])
    && (forall u :: IsFree(s', u) <==> IsFree(s, u) || u in grown)
  }

  lemma GrownThenFreed(base: int, s: Shape, a: int, n: nat, t: Shape, s': Shape)
    requires WellShaped(base, s) && base < a && n > 0 && s.owner.Keys !! Range(a, n)
    requires t == Grown(s, a, n) && SameUse(t.(live := t.live - {a}), s')
    ensures AddedUnits(s, Range(a, n), s')
  {
    GrownKeeps(base, s, a, n, t);
    var r := t.(live := t.live - {a});
    assert r.live == s.live;
    forall u
      ensures IsFree(s', u) <==> IsFree(s, u) || u in Range(a, n)
    {
      assert IsFree(s', u) <==> IsFree(r, u);
    }
  }

  /** n free units from h on have become one live block; nothing else has changed. */
  ghost predicate UsedUnits(s: Shape, h: int, n: nat, s': Shape) {
    && h !in s.live && s'.live == s.live + {h} && s'.owner.Keys == s.owner.Keys
    && h in s'.blocks && s'.blocks[h] == n
    && (forall g | g in s.live :: g in s.blocks && g in s'.blocks && s'.blocks[g] == s.blocks[g])
    && (forall u | h <= u < h + n :: IsFree(s, u))
    && (forall u :: IsFree(s', u) <==> IsFree(s, u) && !(h <= u < h + n))
  }

  lemma TakenUse(base: int, s: Shape, i: nat, s': Shape)
    requires WellShaped(base, s) && 1 <= i < |s.list| && s.list[i] in s.blocks && s' == Taken(s, i)
    ensures UsedUnits(s, s.list[i], s.blocks[s.list[i]], s')
  {
    var h := s.list[i];
    assert h in s.list;
    forall u
      ensures h <= u < h + s.blocks[h] ==> IsFree(s, u)
      ensures IsFree(s', u) <==> IsFree(s, u) && !(h <= u < h + s.blocks[h])
    {
      assert InBlock(s.blocks, h, u) <==> h <= u < h + s.blocks[h];
      assert u in s.owner ==> InBlock(s.blocks, s.owner[u], u);
    }
    forall u | h <= u < h + s.blocks[h]
      ensures IsFree(s, u)
    {
      assert InBlock(s.blocks, h, u);
    }
  }

  lemma SplitFree(base: int, s: Shape, g: int, h: int, n: nat, s': Shape, u: int)
    requires Partition(s.blocks, s.owner) && g in s.blocks && g !in s.live && 0 < n < s.blocks[g]
             && h == g + s.blocks[g] - n
    requires h !in s.blocks && s.live <= s.blocks.Keys && s'.live == s.live + {h}
    requires s'.owner == map u | u in s.owner :: if u in Range(h, n) then h else s.owner[u]
    ensures h <= u < h + n ==> IsFree(s, u)
    ensures IsFree(s', u) <==> IsFree(s, u) && !(h <= u < h + n)
  {
    if h <= u < h + n {
      assert InBlock(s.blocks, g, u) && u in Range(h, n);
    }
  }

  lemma SplitUse(base: int, s: Shape, i: nat, n: nat, s': Shape)
    requires WellShaped(base, s) && 1 <= i < |s.list| && s.list[i] in s.blocks && 0 < n < s.blocks[s.list[i]]
             && s' == Split(s, i, n)
    ensures UsedUnits(s, s.list[i] + s.blocks[s.list[i]] - n, n, s')
  {
    var g := s.list[i];
    var h := g + s.blocks[g] - n;
    SplitKeeps(base, s, i, n, s');
    assert g in s.list;
    forall u
      ensures h <= u < h + n ==> IsFree(s, u)
      ensures IsFree(s', u) <==> IsFree(s, u) && !(h <= u < h + n)
    {
      SplitFree(base, s, g, h, n, s', u);
    }
    forall u | h <= u < h + n
      ensures IsFree(s, u)
    {
      SplitFree(base, s, g, h, n, s', u);
    }
  }

  lemma StartShape(base: int)
    ensures WellShaped(base, Shape([base], map[], {}, map[]))
  {
  }

  ghost predicate Small(s: Shape, j: nat, n: int)
    requires j < |s.list|
  {
    s.list[j] in s.blocks ==> s.blocks[s.list[j]] < n
  }

  /** Every block passed on the way from f around to index i is too small. */
  ghost predicate TooSmall(s: Shape, f: nat, i: nat, n: int)
    requires i < |s.list|
  {
    forall j | 0 <= j < |s.list| && Distance(s.list, j, f) > Distance(s.list, i, f) :: Small(s, j, n)
  }

  /** Some block between index i and f is large enough. */
  ghost predicate FitsAhead(s: Shape, f: nat, i: nat, n: int)
    requires i < |s.list|
  {
    exists j | 0 <= j < |s.list| && Distance(s.list, j, f) <= Distance(s.list, i, f) ::
      s.list[j] in s.blocks && !Small(s, j, n)
  }

  lemma Advance(s: Shape, f: nat, i: nat, n: int)
    requires f < |s.list| && i < |s.list| && i != f && Small(s, i, n)
    ensures Distance(s.list, Succ(s.list, i), f) == Distance(s.list, i, f) - 1
    ensures TooSmall(s, f, i, n) ==> TooSmall(s, f, Succ(s.list, i), n)
    ensures FitsAhead(s, f, i, n) ==> FitsAhead(s, f, Succ(s.list, i), n)
  {
  }

  /** A whole round without success: no block fits, so this is not the round after morecore. */
  lemma RoundDone(s: Shape, f: nat, n: int)
    requires f < |s.list| && Small(s, f, n)
    ensures TooSmall(s, f, f, n) ==> !HasBlock(s, n)
    ensures !FitsAhead(s, f, f, n)
  {
    if TooSmall(s, f, f, n) {
      forall h | h in s.list
        ensures !(h in s.blocks && s.blocks[h] >= n)
      {
        var j :| 0 <= j < |s.list| && s.list[j] == h;
        assert Small(s, j, n);
      }
    }
  }

  lemma RoundAhead(s: Shape, f: nat, n: int)
    requires f < |s.list|
    ensures TooSmall(s, f, Succ(s.list, f), n)
    ensures HasBlock(s, n) ==> FitsAhead(s, f, Succ(s.list, f), n)
  {
  }

  /** A call of sbrk: the units asked for and the answer. */
  datatype Ask = Ask(units: nat, answer: int)

  ghost predicate Asked(before: seq<Ask>, after: seq<Ask>, n: nat, calls: nat) {
    if calls == 0 then after == before else AskedOnce(before, after, n, false)
  }

  /** What morecore asks for. */
  function Wanted(n: nat): nat { if n < MINUNITS then MINUNITS else n }

  /** One more call of sbrk for n units, which was refused, or was not. */
  ghost predicate AskedOnce(before: seq<Ask>, after: seq<Ask>, n: nat, refused: bool) {
    |after| > 0 && after == before + [Ask(Wanted(n), after[|after| - 1].answer)]
        && (after[|after| - 1].answer == -1 <==> refused)
  }

  /** malloc's loop has passed index k of a list s: in the first round nothing fitted so far, in
      the second something will. */
  ghost predicate Searching(s0: Shape, s: Shape, calls: nat, grown: set<int>, f: nat, k: nat, n: int) {
    && f < |s.list| && k < |s.list| && calls <= 1
    && TooSmall(s, f, Succ(s.list, k), n)
    && (calls == 0 ==> grown == {} && s == s0)
    && (calls == 1 ==> !HasBlock(s0, n) && AddedUnits(s0, grown, s) && FitsAhead(s, f, Succ(s.list, k), n))
  }

  /** Next fit: going round from `from`, index k + 1 is the first that is large enough; the new block h
      is its end, and the next search starts behind `here`, the one before it. */
  ghost predicate NextFit(s: Shape, from: int, n: int, h: int, here: int) {
    exists f: nat, k: nat :: FirstFit(s, f, k, n) && s.list[f] == from && s.list[k] == here
                             && h + n == s.list[Succ(s.list, k)] + s.blocks[s.list[Succ(s.list, k)]]
  }

  ghost predicate FirstFit(s: Shape, f: nat, k: nat, n: int) {
    && f < |s.list| && k < |s.list| && TooSmall(s, f, Succ(s.list, k), n)
    && s.list[Succ(s.list, k)] in s.blocks && s.blocks[s.list[Succ(s.list, k)]] >= n
  }

  lemma Found(base: int, mem: map<int, Header>, s: Shape, p: int, n: nat)
    requires Stored(base, mem, s) && WellShaped(base, s) && p in s.list && p in mem && mem[p].size >= n > 0
    ensures HasBlock(s, n) && p in s.blocks && s.blocks[p] >= n
  {
  }

  /** After index i the way round to f is shorter than after index k. */
  ghost predicate Nearer(list: seq<int>, i: nat, k: nat, f: nat) {
    i < |list| && k < |list| && Distance(list, Succ(list, i), f) < Distance(list, Succ(list, k), f)
  }

  lemma AddedTwice(s: Shape, t: Shape, grown: set<int>, r: Shape)
    requires AddedUnits(s, {}, t) && AddedUnits(t, grown, r)
    ensures AddedUnits(s, grown, r)
  {
  }

  /** Freeing what malloc returned restores the free list, block by block. */
  lemma FreeUndoesMalloc(base: int, mid: Shape, h: int, n: nat, used: Shape, freed: Shape)
    requires WellShaped(base, mid) && WellShaped(base, used) && WellShaped(base, freed)
    requires UsedUnits(mid, h, n, used) && SameUse(used.(live := used.live - {h}), freed)
    ensures freed.list == mid.list && freed.live == mid.live
  {
    var t := used.(live := used.live - {h});
    forall u
      ensures IsFree(freed, u) <==> IsFree(mid, u)
    {
      assert IsFree(freed, u) <==> IsFree(t, u);
      assert u in used.owner ==> InBlock(used.blocks, used.owner[u], u);
      assert h <= u < h + n ==> InBlock(used.blocks, h, u);
    }
    Canonical(base, freed, mid);
  }

  /** The index of the last element below x. */
  ghost function Below(l: seq<int>, x: int): (t: nat)
    requires l != [] && l[0] < x
    ensures t < |l| && l[t] < x && (t + 1 < |l| ==> x <= l[t + 1])
  {
    if l[|l| - 1] < x then |l| - 1 else Below(l[..|l| - 1], x)
  }

  class Heap {
    const base: int                // address of the static header
    var mem: map<int, Header>      // every unit, read as a header
    var freep: int                 // 0 before the first malloc
    var brk: int                   // first unit above everything obtained from sbrk
    ghost var shape: Shape
    ghost var asked: seq<Ask>                // the calls of sbrk so far

    ghost predicate Valid()
      reads this
    {
      && 0 < base < brk && base in mem
      && (forall u | u in shape.owner :: u < brk)
      && (freep == 0 ==> shape == Shape([], map[], {}, map[]))
      && (freep != 0 ==> WellShaped(base, shape) && Stored(base, mem, shape) && freep in shape.list)
    }

    constructor (b: int, top: int)
      requires 0 < b < top
      ensures Valid() && base == b && brk == top && freep == 0 && shape.live == {}
    {
      base, brk, freep := b, top, 0;
      mem := map[b := Header(0, 0)];
      shape := Shape([], map[], {}, map[]);
    }

    /** The program stores anything it likes in the part of a live block after its header. */
    method Scribble(h: int, u: int, x: Header)
      requires Valid() && freep != 0 && h in shape.live && h in shape.blocks && h < u < h + shape.blocks[h]
      modifies this`mem
      ensures Valid()
    {
      SplitIsNew(shape.blocks, shape.owner, h, u);
      mem := mem[u := x];
      forall i | 0 <= i < |shape.list|
        ensures Points(mem, shape.list, i)
      {
        assert Points(old(mem), shape.list, i);
        assert shape.list[i] in shape.list;
      }
    }

    /** The loop of free: the list element that bp belongs after. */
    method FindPlace(bp: int) returns (p: int, ghost i: nat)
      requires Valid() && freep != 0 && base < bp && bp !in shape.list
      ensures i < |shape.list| && p == shape.list[i] && p < bp
      ensures i + 1 < |shape.list| ==> bp < shape.list[i + 1]
    {
      ghost var l := shape.list;
      ghost var t := Below(l, bp);
      p := freep;
      i :| 0 <= i < |l| && l[i] == freep;
      while true
        invariant i < |l| && p == l[i]
        decreases Distance(l, i, t)
      {
        assert Points(mem, l, i);
        var next := mem[p].ptr;
        if bp > p && bp < next {
          assert i + 1 < |l|;
          break;
        }
        if p >= next && (bp > p || bp < next) {
          assert i + 1 == |l|;
          break;
        }
        assert i != t;
        p, i := next, Succ(l, i);
      }
    }

    /** The second half of free: link bp in after p and merge it with its neighbours. */
    method Relink(p: int, bp: int)
      requires p in mem && bp in mem && mem[p].ptr in mem
      modifies this`mem
      ensures mem == Linked(old(mem), p, bp)
    {
      var next := mem[p].ptr;
      if bp + mem[bp].size == next {
        mem := mem[bp := Header(mem[next].ptr, mem[bp].size + mem[next].size)];
      } else {
        mem := mem[bp := Header(next, mem[bp].size)];
      }
      if p + mem[p].size == bp {
        mem := mem[p := Header(mem[bp].ptr, mem[p].size + mem[bp].size)];
      } else {
        mem := mem[p := Header(bp, mem[p].size)];
      }
    }

    /** free: the block whose payload starts at ap is given back. */
    method Free(ap: int)
      requires Valid() && freep != 0 && ap - 1 in shape.live
      modifies this`mem, this`freep, this`shape
      ensures Valid() && freep != 0
      ensures SameUse(old(shape).(live := old(shape).live - {ap - 1}), shape)
      ensures ap - 1 in old(shape.blocks) && HasBlock(shape, old(shape.blocks)[ap - 1])
    {
      var bp := ap - 1;
      assert bp in shape.blocks && bp !in shape.list;
      var p, i := FindPlace(bp);
      FreedNext(base, mem, shape, bp, i);
      assert mem[p].ptr in shape.list;
      Relink(p, bp);
      freep := p;
      shape := Freed(shape, bp, i);
      FreedKeeps(base, old(shape), bp, i, shape);
      FreedStored(base, old(mem), old(shape), bp, i, mem, shape);
    }

    /** sbrk: the kernel refuses (-1) or gives zeroed memory above everything it gave before. */
    method Sbrk(nu: nat) returns (a: int)
      requires Valid() && 0 < nu && nu * HEADERBYTES <= MAXINT
      modifies this`mem, this`brk, this`asked
      ensures asked == old(asked) + [Ask(nu, a)]
      ensures a == -1 ==> mem == old(mem) && brk == old(brk)
      ensures a != -1 ==> a >= old(brk) && brk == a + nu
      ensures a != -1 ==>
                mem == map u | u in old(mem).Keys + Range(a, nu) ::
                  if u in Range(a, nu) then Header(0, 0) else old(mem)[u]
    {
      a := *;
      if a < brk {
        a := -1;
      } else {
        mem := map u | u in mem.Keys + Range(a, nu) :: if u in Range(a, nu) then Header(0, 0) else mem[u];
        brk := a + nu;
      }
      asked := asked + [Ask(nu, a)];
    }

    /** morecore: new memory becomes a live block and is then freed. */
    method Morecore(n: nat) returns (p: int, ghost grown: set<int>)
      requires Valid() && freep != 0 && 0 < n && n * HEADERBYTES <= MAXINT
      modifies this`mem, this`freep, this`shape, this`brk, this`asked
      ensures Valid() && freep != 0 && AskedOnce(old(asked), asked, n, p == 0)
      ensures p == 0 ==> shape == old(shape) && freep == old(freep)
      ensures p != 0 ==> p == freep && HasBlock(shape, n) && AddedUnits(old(shape), grown, shape)
    {
      var nu := Wanted(n);
      var a := Sbrk(nu);
      grown := {};
      if a == -1 {
        return 0, grown;
      }
      grown := Range(a, nu);
      Adopt(a, nu, old(mem));
      p := freep;
    }

    /** The nu units at a, just obtained over memory mem0, are made a block and freed. */
    method Adopt(a: int, nu: nat, ghost mem0: map<int, Header>)
      requires freep != 0 && 0 < nu && 0 < base < a && base in mem0 && brk == a + nu
               && (forall u | u in shape.owner :: u < a)
      requires WellShaped(base, shape) && Stored(base, mem0, shape) && freep in shape.list
      requires mem == map u | u in mem0.Keys + Range(a, nu) :: if u in Range(a, nu) then Header(0, 0) else mem0[u]
      modifies this`mem, this`freep, this`shape
      ensures Valid() && freep != 0 && HasBlock(shape, nu) && AddedUnits(old(shape), Range(a, nu), shape)
    {
      hide WellShaped, Stored, AddedUnits;
      mem := mem[a := mem[a].(size := nu)];
      ghost var s := shape;
      shape := Grown(s, a, nu);
      assert s.owner.Keys !! Range(a, nu);
      GrownKeeps(base, s, a, nu, shape);
      GrownStored(base, mem0, s, a, nu, mem, shape);
      ghost var mid := shape;
      Free(a + 1);
      GrownThenFreed(base, s, a, nu, mid, shape);
    }

    /** The first malloc makes the static header a list of its own. */
    method Start()
      requires Valid() && freep == 0
      modifies this`mem, this`freep, this`shape
      ensures Valid() && freep == base && shape == Shape([base], map[], {}, map[])
    {
      freep := base;
      mem := mem[base := Header(base, 0)];
      shape := Shape([base], map[], {}, map[]);
      StartShape(base);
      assert Points(mem, shape.list, 0);
    }

    /** The block p, which follows prevp on the list, has exactly the size asked for. */
    method TakeAll(prevp: int, p: int, ghost i: nat)
      requires Valid() && freep != 0
      requires 1 <= i < |shape.list| && prevp == shape.list[i - 1] && p == shape.list[i] && p in shape.blocks
      modifies this`mem, this`freep, this`shape
      ensures Valid() && freep != 0
      ensures UsedUnits(old(shape), p, old(shape.blocks)[p], shape) && freep == prevp
    {
      assert Points(mem, shape.list, i - 1) && Points(mem, shape.list, i);
      mem := mem[prevp := mem[prevp].(ptr := mem[p].ptr)];
      freep := prevp;
      shape := Taken(shape, i);
      TakenKeeps(base, old(shape), i, shape);
      TakenStored(base, old(mem), old(shape), i, mem, shape);
      TakenUse(base, old(shape), i, shape);
      assert freep in shape.list;
    }

    /** The last n units of the larger block p become a block of their own. */
    method TakeTail(prevp: int, p: int, n: nat, ghost i: nat) returns (h: int)
      requires Valid() && freep != 0 && prevp in shape.list
      requires 1 <= i < |shape.list| && p == shape.list[i] && p in shape.blocks && 0 < n < shape.blocks[p]
      modifies this`mem, this`freep, this`shape
      ensures Valid() && freep != 0
      ensures UsedUnits(old(shape), h, n, shape) && freep == prevp && h + n == p + old(shape.blocks)[p]
    {
      hide WellShaped, Stored, UsedUnits;
      SplitPlaces(base, mem, shape, i, n);
      mem := mem[p := mem[p].(size := mem[p].size - n)];
      h := p + mem[p].size;
      mem := mem[h := mem[h].(size := n)];
      freep := prevp;
      shape := Split(shape, i, n);
      SplitKeeps(base, old(shape), i, n, shape);
      SplitStored(base, old(mem), old(shape), i, n, mem, shape);
      SplitUse(base, old(shape), i, n, shape);
    }

    /** Take n units from the block p, which follows prevp on the list and is large enough. */
    method Carve(prevp: int, p: int, n: nat, ghost k: nat) returns (h: int)
      requires Valid() && freep != 0 && 0 < n
      requires k < |shape.list| && prevp == shape.list[k] && p == shape.list[Succ(shape.list, k)]
      requires p in mem && mem[p].size >= n
      modifies this`mem, this`freep, this`shape
      ensures Valid() && freep != 0
      ensures UsedUnits(old(shape), h, n, shape) && freep == prevp
      ensures p in old(shape.blocks) && h + n == p + old(shape.blocks)[p]
    {
      ghost var i: nat := Succ(shape.list, k);
      assert p in shape.list;
      if mem[p].size == n {
        TakeAll(prevp, p, i);
        h := p;
      } else {
        h := TakeTail(prevp, p, n, i);
      }
    }

    /** Nothing on the list fits: get more memory and start a new round at freep. */
    method Refill(n: nat, ghost f: nat) returns (p: int, ghost grown: set<int>, ghost f': nat)
      requires Valid() && freep != 0 && 0 < n && n * HEADERBYTES <= MAXINT
      requires f < |shape.list| && shape.list[f] == freep && TooSmall(shape, f, f, n) && Small(shape, f, n)
      modifies this`mem, this`freep, this`shape, this`brk, this`asked
      ensures Valid() && freep != 0 && AskedOnce(old(asked), asked, n, p == 0)
      ensures old(!HasBlock(shape, n))
      ensures p == 0 ==> shape == old(shape)
      ensures p != 0 ==> p == freep && AddedUnits(old(shape), grown, shape)
      ensures p != 0 ==>
                && f' < |shape.list| && shape.list[f'] == freep && FitsAhead(shape, f', Succ(shape.list, f'), n)
                && TooSmall(shape, f', Succ(shape.list, f'), n)
    {
      RoundDone(shape, f, n);
      f' := 0;
      p, grown := Morecore(n);
      if p != 0 {
        f' :| 0 <= f' < |shape.list| && shape.list[f'] == freep;
        RoundAhead(shape, f', n);
      }
    }

    /** The block after q on the list. */
    method Follow(q: int, ghost k: nat) returns (p: int)
      requires Valid() && freep != 0 && k < |shape.list| && q == shape.list[k]
      ensures p == shape.list[Succ(shape.list, k)] && p in mem
    {
      assert Points(mem, shape.list, k) && Points(mem, shape.list, Succ(shape.list, k));
      p := mem[q].ptr;
    }

    /** The block p, which follows index k, is too small: at the end of the round get more
        memory, then go on. */
    method Onward(p: int, n: nat, ghost s0: Shape, ghost calls: nat, ghost grown: set<int>, ghost f: nat, ghost k: nat)
      returns (p': int, ghost calls': nat, ghost grown': set<int>, ghost f': nat, ghost k': nat)
      requires Valid() && freep != 0 && 0 < n && n * HEADERBYTES <= MAXINT
               && Searching(s0, shape, calls, grown, f, k, n)
      requires shape.list[f] == freep && p == shape.list[Succ(shape.list, k)] && p in mem && mem[p].size < n
      modifies this`mem, this`freep, this`shape, this`brk, this`asked
      ensures Valid() && freep != 0
      ensures p' == 0 ==> shape == s0 && !HasBlock(shape, n) && calls == 0 && AskedOnce(old(asked), asked, n, true)
      ensures p' != 0 ==> if calls' == calls then asked == old(asked) else AskedOnce(old(asked), asked, n, false)
      ensures p' != 0 ==>
                Searching(s0, shape, calls', grown', f', k', n) && shape.list[f'] == freep && p' == shape.list[k']
      ensures p' != 0 ==>
                calls' == calls + 1 || (calls' == calls && shape == old(shape) && freep == old(freep) && f' == f
                                                  && k' == Succ(shape.list, k)
                                                  && Nearer(shape.list, k', k, f))
    {
      ghost var i: nat := Succ(shape.list, k);
      assert Small(shape, i, n) by { assert p in shape.list; }
      p', calls', grown', f', k' := p, calls, grown, f, i;
      if p == freep {
        assert i == f;
        RoundDone(shape, f, n);
        p', grown', f' := Refill(n, f);
        calls', k' := 1, f';
      } else {
        Advance(shape, f, i, n);
      }
    }

    /** The loop of malloc. */
    method Search(n: nat) returns (r: int, ghost grown: set<int>, ghost mid: Shape, ghost from: int)
      requires Valid() && freep != 0 && 0 < n && n * HEADERBYTES <= MAXINT
      modifies this`mem, this`freep, this`shape, this`brk, this`asked
      ensures Valid() && freep != 0
      ensures if HasBlock(old(shape), n) then r != 0 && asked == old(asked) else AskedOnce(old(asked), asked, n, r == 0)
      ensures mid == old(shape) || (!HasBlock(old(shape), n) && AddedUnits(old(shape), grown, mid))
      ensures mid == old(shape) ==> grown == {}
      ensures r == 0 ==> shape == mid == old(shape) && !HasBlock(shape, n)
      ensures r != 0 ==> UsedUnits(mid, r - 1, n, shape) && NextFit(mid, from, n, r - 1, freep)
      ensures HasBlock(old(shape), n) ==> from == old(freep)
    {
      hide AddedUnits, UsedUnits, Stored;
      ghost var s0 := shape;
      r, grown, mid, from := 0, {}, shape, freep;
      ghost var f: nat :| f < |shape.list| && shape.list[f] == freep;
      ghost var k: nat, calls := f, 0;
      RoundAhead(shape, f, n);
      var prevp := freep;
      var p := Follow(prevp, k);
      while true
        invariant Valid() && freep != 0 && Searching(s0, shape, calls, grown, f, k, n)
                  && (calls == 0 ==> freep == from == old(freep))
        invariant Asked(old(asked), asked, n, calls)
        invariant shape.list[f] == freep && prevp == shape.list[k] && p == shape.list[Succ(shape.list, k)] && p in mem
        decreases 1 - calls, Distance(shape.list, Succ(shape.list, k), f)
      {
        if mem[p].size >= n {
          mid, from := shape, freep;
          Found(base, mem, shape, p, n);
          var h := Carve(prevp, p, n, k);
          assert FirstFit(mid, f, k, n);
          return h + 1, grown, mid, from;
        }
        prevp, calls, grown, f, k := Onward(p, n, s0, calls, grown, f, k);
        if prevp == 0 {
          return 0, {}, shape, from;
        }
        p := Follow(prevp, k);
      }
    }

    /** malloc. It calls sbrk exactly when no free block is large enough, and then once. The result
        is 0 exactly when that call is refused; otherwise it is the payload of a new live block
        made of units that were free or are new. */
    method Malloc(nbytes: nat) returns (r: int, ghost grown: set<int>, ghost mid: Shape, ghost from: int)
      requires Valid() && Units(nbytes) * HEADERBYTES <= MAXINT
      modifies this
      ensures Valid() && freep != 0
      ensures old(freep != 0 && HasBlock(shape, Units(nbytes))) ==> grown == {} && r != 0 && asked == old(asked)
      ensures old(!(freep != 0 && HasBlock(shape, Units(nbytes)))) ==>
                AskedOnce(old(asked), asked, Units(nbytes), r == 0)
      ensures AddedUnits(old(shape), grown, mid)
      ensures r == 0 ==> shape == mid && grown == {} && !HasBlock(shape, Units(nbytes))
      ensures r != 0 ==> UsedUnits(mid, r - 1, Units(nbytes), shape) && NextFit(mid, from, Units(nbytes), r - 1, freep)
      ensures old(freep != 0 && HasBlock(shape, Units(nbytes))) ==> from == old(freep)
      ensures Units(nbytes) == (nbytes + 15) / 16 + 1 && nbytes <= (Units(nbytes) - 1) * 16
      ensures asked == old(asked) || (|asked| == |old(asked)| + 1 && asked[..|old(asked)|] == old(asked)
                && asked[|old(asked)|].units == if Units(nbytes) < 4096 then 4096 else Units(nbytes))
    {
      if freep == 0 {
        Start();
      }
      assert AddedUnits(old(shape), {}, shape);
      ghost var s := shape;
      r, grown, mid, from := Search(Units(nbytes));
      if mid != s {
        AddedTwice(old(shape), s, grown, mid);
      }
    }
  }
}
