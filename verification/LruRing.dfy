/**
 The circular doubly linked list that the buffer cache threads through its
 buffers.  Buffers are named by their index; one extra index, `head`, stands
 for the list head.  `order` lists the buffers from most to least recently used.
 */
module LruRing {

  /** The node at position `i` of the ring: the head first, then `order`. */
  function At(head: nat, order: seq<nat>, i: nat): nat
    requires i <= |order|
  {
    if i == 0 then head else order[i - 1]
  }

  /** The position after `i`, wrapping round to the head. */
  function After(order: seq<nat>, i: nat): (j: nat)
    requires i <= |order|
    ensures j <= |order|
  {
    if i == |order| then 0 else i + 1
  }

  ghost predicate Distinct(head: nat, order: seq<nat>) {
    && head !in order
    && forall i, j :: 0 <= i < j < |order| ==> order[i] != order[j]
  }

  /** `next` and `prev` thread head, order[0], order[1], ... and back to the head. */
  ghost predicate Ring(next: seq<nat>, prev: seq<nat>, head: nat, order: seq<nat>) {
    && |next| == |prev|
    && head < |next|
    && Distinct(head, order)
    && (forall i :: 0 <= i < |order| ==> order[i] < |next|)
    && (forall i :: 0 <= i <= |order| ==> next[At(head, order, i)] == At(head, order, After(order, i)))
    && (forall i :: 0 <= i <= |order| ==> prev[At(head, order, After(order, i))] == At(head, order, i))
  }

  function Remove(order: seq<nat>, k: nat): seq<nat>
    requires k < |order|
  {
    order[..k] + order[k + 1..]
  }

  lemma RemoveKeepsOthers(order: seq<nat>, k: nat, x: nat)
    requires k < |order| && x in order && x != order[k]
    ensures x in Remove(order, k)
  {
    var i :| 0 <= i < |order| && order[i] == x;
    assert Remove(order, k)[if i < k then i else i - 1] == x;
  }

  /** Taking a node out relinks its two neighbours and nothing else. */
  lemma UnlinkKeepsRing(next: seq<nat>, prev: seq<nat>, head: nat, order: seq<nat>, k: nat)
    requires Ring(next, prev, head, order) && k < |order|
    ensures next[order[k]] < |next| && prev[order[k]] < |next|
    ensures
      var b := order[k];
      Ring(next[prev[b] := next[b]], prev[next[b] := prev[b]], head, Remove(order, k))
  {
    var b := order[k];
    var left := At(head, order, k);
    assert At(head, order, k + 1) == b && After(order, k) == k + 1;
    var right := At(head, order, After(order, k + 1));
    assert prev[b] == left && next[b] == right;
    var next', prev' := next[left := right], prev[right := left];
    var order' := Remove(order, k);
    forall i | 0 <= i <= |order'|
      ensures next'[At(head, order', i)] == At(head, order', After(order', i))
      ensures prev'[At(head, order', After(order', i))] == At(head, order', i)
    {
      var i' := if i <= k then i else i + 1;
      assert At(head, order', i) == At(head, order, i');
      if i == k {
        assert At(head, order', After(order', i)) == right;
      } else {
        assert At(head, order', After(order', i)) == At(head, order, After(order, i'));
      }
    }
  }

  /** Inserting a free node right after the head. */
  lemma PushKeepsRing(next: seq<nat>, prev: seq<nat>, head: nat, order: seq<nat>, b: nat)
    requires Ring(next, prev, head, order) && b < |next| && b != head && b !in order
    ensures next[head] < |next|
    ensures
      var first := next[head];
      Ring(next[b := first][head := b], prev[b := head][first := b], head, [b] + order)
  {
    var first := next[head];
    assert At(head, order, 0) == head;
    assert first == At(head, order, After(order, 0));
    var next', prev' := next[b := first][head := b], prev[b := head][first := b];
    var order' := [b] + order;
    forall i | 0 <= i <= |order'|
      ensures next'[At(head, order', i)] == At(head, order', After(order', i))
      ensures prev'[At(head, order', After(order', i))] == At(head, order', i)
    {
      if i >= 2 {
        assert At(head, order', i) == At(head, order, i - 1);
        assert At(head, order', After(order', i)) == At(head, order, After(order, i - 1));
      }
    }
  }
}
