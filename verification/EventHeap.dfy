/** The priority queue of events waiting to be processed: a binary heap on timestamps, smallest first. */
module EventHeap {

  /** An event of ring `ring`, its `index`-th one. */
  datatype Event = Event(ts: int, ring: nat, index: nat)

  function Parent(i: nat): (p: nat)
    requires i > 0
    ensures p < i && (i == 2 * p + 1 || i == 2 * p + 2)
  {
    (i - 1) / 2
  }

  ghost predicate IsHeap(q: seq<Event>) {
    forall i :: 0 < i < |q| ==> q[Parent(i)].ts <= q[i].ts
  }

  /** A heap except that the element at `i` may be smaller than its parent. */
  ghost predicate HeapBut(q: seq<Event>, i: nat) {
    && (forall k :: 0 < k < |q| && k != i ==> q[Parent(k)].ts <= q[k].ts)
    && (forall k :: 0 < k < |q| && i > 0 && Parent(k) == i ==> q[Parent(i)].ts <= q[k].ts)
  }

  /** Move an element up while its parent is strictly later: equal timestamps do not move. */
  function SiftUp(q: seq<Event>, i: nat): (r: seq<Event>)
    requires i < |q|
    ensures |r| == |q|
    decreases i
  {
    if i == 0 || q[Parent(i)].ts <= q[i].ts then q
    else SiftUp(q[i := q[Parent(i)]][Parent(i) := q[i]], Parent(i))
  }

  lemma {:induction false} SiftUpHeap(q: seq<Event>, i: nat)
    requires i < |q| && HeapBut(q, i)
    ensures IsHeap(SiftUp(q, i))
    ensures multiset(SiftUp(q, i)) == multiset(q)
    ensures i > 0 && q[0].ts <= q[i].ts ==> SiftUp(q, i)[0] == q[0]
    decreases i
  {
    if i > 0 && q[Parent(i)].ts > q[i].ts {
      var p := Parent(i);
      var q' := q[i := q[p]][p := q[i]];
      SwapKeepsElements(q, i, p);
      SwapHeap(q, i);
      SiftUpHeap(q', p);
    }
  }

  lemma SwapKeepsElements(q: seq<Event>, i: nat, j: nat)
    requires i < |q| && j < |q|
    ensures multiset(q[i := q[j]][j := q[i]]) == multiset(q)
  {
  }

  lemma SwapHeap(q: seq<Event>, i: nat)
    requires 0 < i < |q| && HeapBut(q, i) && q[Parent(i)].ts > q[i].ts
    ensures HeapBut(q[i := q[Parent(i)]][Parent(i) := q[i]], Parent(i))
  {
    var p := Parent(i);
    var q' := q[i := q[p]][p := q[i]];
    forall k | 0 < k < |q'| && k != p
      ensures q'[Parent(k)].ts <= q'[k].ts
      ensures p > 0 && Parent(k) == p ==> q'[Parent(p)].ts <= q'[k].ts
    {
      assert p > 0 ==> q[Parent(p)].ts <= q[p].ts;
    }
  }

  /** `priority_queue::push`. */
  function Push(q: seq<Event>, e: Event): seq<Event> {
    SiftUp(q + [e], |q|)
  }

  /** Pushing keeps the heap, adds exactly the event, and leaves the top in place unless the new
      event is strictly earlier. */
  lemma PushHeap(q: seq<Event>, e: Event)
    requires IsHeap(q)
    ensures IsHeap(Push(q, e)) && multiset(Push(q, e)) == multiset(q) + multiset{e}
    ensures q != [] && q[0].ts <= e.ts ==> Push(q, e) != [] && Push(q, e)[0] == q[0]
  {
    var q' := q + [e];
    assert HeapBut(q', |q|) by {
      forall k | 0 < k < |q'| && k != |q|
        ensures q'[Parent(k)].ts <= q'[k].ts
      {
        assert q'[Parent(k)] == q[Parent(k)] && q'[k] == q[k];
      }
    }
    SiftUpHeap(q', |q|);
  }

  /** `priority_queue::pop`: the top goes, the others are rearranged into some heap. */
  ghost predicate Pops(q: seq<Event>, q': seq<Event>) {
    q != [] && IsHeap(q') && multiset(q) == multiset(q') + multiset{q[0]}
  }

  lemma {:induction false} TopIsEarliest(q: seq<Event>, i: nat)
    requires IsHeap(q) && i < |q|
    ensures q[0].ts <= q[i].ts
  {
    if i > 0 { TopIsEarliest(q, Parent(i)); }
  }

  /** Some heap always exists: rebuild it from the other elements. */
  lemma {:induction false} HeapOf(xs: seq<Event>) returns (q: seq<Event>)
    ensures IsHeap(q) && multiset(q) == multiset(xs)
  {
    if xs == [] {
      q := [];
    } else {
      var rest := HeapOf(xs[1..]);
      PushHeap(rest, xs[0]);
      q := Push(rest, xs[0]);
      assert xs == [xs[0]] + xs[1..];
    }
  }

  lemma PopExists(q: seq<Event>)
    requires q != [] && IsHeap(q)
    ensures exists q' :: Pops(q, q')
  {
    var q' := HeapOf(q[1..]);
    assert q == [q[0]] + q[1..];
    assert Pops(q, q');
  }
}
