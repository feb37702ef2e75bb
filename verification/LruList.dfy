/** The circular doubly linked list through the buffers, as next and prev arrays. Node n is
    the list head; nodes below n are the buffers. */
module LruList {

  ghost predicate NoDup(order: seq<nat>) {
    forall i: nat, j: nat | i < j < |order| :: order[i] != order[j]
  }

  /** The k-th node after the head; the head itself on both sides. */
  ghost function Node(order: seq<nat>, n: nat, k: int): nat {
    if 0 <= k < |order| then order[k] else n
  }

  ghost predicate LinkOk(next: seq<nat>, prev: seq<nat>, n: nat, order: seq<nat>, k: int) {
    && |next| == |prev| == n + 1 && Node(order, n, k) <= n && Node(order, n, k + 1) <= n
    && next[Node(order, n, k)] == Node(order, n, k + 1) && prev[Node(order, n, k + 1)] == Node(order, n, k)
  }

  /** From the head, next runs through `order` and back, and prev runs the other way. */
  ghost predicate Linked(next: seq<nat>, prev: seq<nat>, n: nat, order: seq<nat>) {
    && |next| == |prev| == n + 1 && NoDup(order) && (forall i: nat | i < |order| :: order[i] < n)
    && forall k: int {:trigger LinkOk(next, prev, n, order, k)} | -1 <= k < |order| :: LinkOk(next, prev, n, order, k)
  }

  ghost function Without(order: seq<nat>, p: nat): (r: seq<nat>)
    requires p < |order|
    ensures |r| == |order| - 1 && forall i: nat | i < |r| :: r[i] == (if i < p then order[i] else order[i + 1])
  {
    order[..p] + order[p + 1..]
  }

  /** Unlinking the p-th node takes it out of the list. */
  lemma Unlink(next: seq<nat>, prev: seq<nat>, n: nat, order: seq<nat>, p: nat, next': seq<nat>, prev': seq<nat>)
    requires Linked(next, prev, n, order) && p < |order|
    requires var b := order[p];
               next[b] <= n && prev[b] <= n && prev' == prev[next[b] := prev[b]] && next' == next[prev[b] := next[b]]
    ensures Linked(next', prev', n, Without(order, p)) && order[p] !in Without(order, p)
  {
    var r := Without(order, p);
    assert LinkOk(next, prev, n, order, p) && LinkOk(next, prev, n, order, p - 1);
    forall k: int | -1 <= k < |r|
      ensures LinkOk(next', prev', n, r, k)
    {
      UnlinkAt(next, prev, n, order, p, next', prev', k);
    }
  }

  lemma UnlinkAt(next: seq<nat>, prev: seq<nat>, n: nat, order: seq<nat>, p: nat, next': seq<nat>, prev': seq<nat>,
                 k: int)
    requires Linked(next, prev, n, order) && p < |order| && -1 <= k < |order| - 1
    requires LinkOk(next, prev, n, order, p) && LinkOk(next, prev, n, order, p - 1)
    requires var b := order[p]; prev' == prev[next[b] := prev[b]] && next' == next[prev[b] := next[b]]
    ensures LinkOk(next', prev', n, Without(order, p), k)
  {
    var r := Without(order, p);
    if k + 1 < p {
      assert LinkOk(next, prev, n, order, k);
      assert Node(r, n, k) == Node(order, n, k) && Node(r, n, k + 1) == Node(order, n, k + 1);
    } else if k + 1 == p {
      assert Node(r, n, k) == Node(order, n, k) && Node(r, n, k + 1) == Node(order, n, k + 2);
    } else {
      assert LinkOk(next, prev, n, order, k + 1);
      assert Node(r, n, k) == Node(order, n, k + 1) && Node(r, n, k + 1) == Node(order, n, k + 2);
    }
  }

  /** Linking b in after the head puts it in front. */
  lemma PushFront(next: seq<nat>, prev: seq<nat>, n: nat, order: seq<nat>, b: nat, next': seq<nat>, prev': seq<nat>)
    requires Linked(next, prev, n, order) && b < n && b !in order && next[n] <= n
    requires next' == next[b := next[n]][n := b] && prev' == prev[b := n][next[n] := b]
    ensures Linked(next', prev', n, [b] + order)
  {
    var r := [b] + order;
    forall i: nat, j: nat | i < j < |r|
      ensures r[i] != r[j]
    {
      assert i == 0 ==> r[j] in order;
    }
    assert LinkOk(next, prev, n, order, -1);
    forall k: int | -1 <= k < |r|
      ensures LinkOk(next', prev', n, r, k)
    {
      assert Node(r, n, k + 1) == (if k == -1 then b else Node(order, n, k));
      if k > 0 {
        assert LinkOk(next, prev, n, order, k - 1);
        assert Node(r, n, k) == order[k - 1];
      }
    }
  }

  /** The list with its p-th node moved to the front. */
  ghost function ToFront(order: seq<nat>, p: nat): seq<nat>
    requires p < |order|
  {
    [order[p]] + Without(order, p)
  }

  lemma ToFrontIs(order: seq<nat>, p: nat)
    requires p < |order|
    ensures ToFront(order, p) == [order[p]] + order[..p] + order[p + 1..]
  {
  }
}
