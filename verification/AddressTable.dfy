/** The library's lock-free set of addresses: open addressing with tombstones and a probe limit, one
    step per atomic access, any number of threads, any operation on any address at any time. The hash
    is any function of the address.

    `hist` lists the compare-and-exchanges that claimed or deleted a slot, in order; it and `log` are
    history, as are the fields `since` and `own` of an operation. */
module AddressTable {
  import RingWords

  const EMPTY: nat := 0
  const DELETED: nat := 1
  const MAX_PROBE: nat := 64

  datatype Config = Config(size: nat, capacity: nat, hash: nat -> nat) {
    predicate Valid() { size > 0 }
  }

  /** The slot visited by probe `k` for an address: linear probing with wrap-around. */
  function Pos(c: Config, a: nat, k: nat): (i: nat)
    requires c.Valid()
    ensures i < c.size
  {
    RingWords.Wrap(c.hash(a) + k, c.size)
  }

  /** Probing starts at the hash, and no slot is visited twice before all have been. */
  lemma ProbesInTurn(c: Config, a: nat, j: nat, k: nat)
    requires c.Valid()
    ensures exists q: nat :: c.hash(a) + k == q * c.size + Pos(c, a, k)
    ensures j < k < j + c.size ==> Pos(c, a, j) != Pos(c, a, k)
  {
    RingWords.WrapIsRemainder(c.hash(a) + k, c.size);
    if j < k < j + c.size { RingWords.WrapsApart(c.hash(a) + j, c.hash(a) + k, c.size); }
  }

  datatype Op =
    | AddCheck(addr: nat, since: nat)              // about to compare the count with the capacity
    | AddLoad(addr: nat, since: nat, k: nat)       // about to load probe k
    | AddCas(addr: nat, since: nat, k: nat, seen: nat)  // saw a free slot, about to claim it
    | AddReload(addr: nat, since: nat, k: nat)     // lost the race for the slot
    | AddCount(addr: nat, since: nat, own: nat)    // claimed a slot, about to increment the count
    | RemoveLoad(addr: nat, since: nat, k: nat)    // about to load probe k
    | RemoveCas(addr: nat, since: nat, k: nat)     // found the address, about to mark it deleted
    | RemoveCount(addr: nat, since: nat, own: nat) // marked it, about to decrement the count

  datatype Effect = Claimed(addr: nat) | Deleted(addr: nat)

  /** A finished call and its answer. It spans the effects from `since` to `until`; if it returned true, its
      own effect is number `own`. */
  datatype Done =
    | Added(addr: nat, ok: bool, since: nat, until: nat, own: nat)
    | Removed(addr: nat, ok: bool, since: nat, until: nat, own: nat)

  datatype State = State(slots: seq<nat>, count: int, ops: map<nat, Op>, hist: seq<Effect>, log: seq<Done>)

  datatype Step = StartAdd(t: nat, a: nat) | StartRemove(t: nat, a: nat) | Access(t: nat)

  predicate Init(c: Config, s: State) {
    && |s.slots| == c.size && (forall i :: 0 <= i < |s.slots| ==> s.slots[i] == EMPTY)
    && s.count == 0 && s.ops == map[] && s.hist == [] && s.log == []
  }

  function Finish(s: State, t: nat, d: Done): State {
    s.(ops := s.ops - {t}, log := s.log + [d])
  }

  function Refused(s: State, a: nat, since: nat): Done { Added(a, false, since, |s.hist|, 0) }
  function Failed(s: State, a: nat, since: nat): Done { Removed(a, false, since, |s.hist|, 0) }

  /** The next atomic access of thread `t`. */
  function StepOf(c: Config, s: State, t: nat): State
    requires c.Valid() && |s.slots| == c.size && t in s.ops
  {
    match s.ops[t]
    case AddCheck(a, since) =>
      if s.count >= c.capacity then Finish(s, t, Refused(s, a, since)) else s.(ops := s.ops[t := AddLoad(a, since, 0)])
    case AddLoad(a, since, k) =>
      if k >= MAX_PROBE then Finish(s, t, Refused(s, a, since))
      else
        var current := s.slots[Pos(c, a, k)];
        if current == EMPTY || current == DELETED then s.(ops := s.ops[t := AddCas(a, since, k, current)])
        else if current == a then Finish(s, t, Refused(s, a, since))
        else s.(ops := s.ops[t := AddLoad(a, since, k + 1)])
    case AddCas(a, since, k, seen) =>
      if s.slots[Pos(c, a, k)] == seen
      then s.(slots := s.slots[Pos(c, a, k) := a], ops := s.ops[t := AddCount(a, since, |s.hist|)],
              hist := s.hist + [Claimed(a)])
      else s.(ops := s.ops[t := AddReload(a, since, k)])
    case AddReload(a, since, k) =>
      if s.slots[Pos(c, a, k)] == a then Finish(s, t, Refused(s, a, since))
      else s.(ops := s.ops[t := AddLoad(a, since, k + 1)])
    case AddCount(a, since, own) =>
      Finish(s.(count := s.count + 1), t, Added(a, true, since, |s.hist|, own))
    case RemoveLoad(a, since, k) =>
      if k >= MAX_PROBE then Finish(s, t, Failed(s, a, since))
      else
        var current := s.slots[Pos(c, a, k)];
        if current == EMPTY then Finish(s, t, Failed(s, a, since))
        else if current == a then s.(ops := s.ops[t := RemoveCas(a, since, k)])
        else s.(ops := s.ops[t := RemoveLoad(a, since, k + 1)])
    case RemoveCas(a, since, k) =>
      if s.slots[Pos(c, a, k)] == a
      then s.(slots := s.slots[Pos(c, a, k) := DELETED], ops := s.ops[t := RemoveCount(a, since, |s.hist|)],
              hist := s.hist + [Deleted(a)])
      else Finish(s, t, Failed(s, a, since))
    case RemoveCount(a, since, own) =>
      Finish(s.(count := s.count - 1), t, Removed(a, true, since, |s.hist|, own))
  }

  ghost predicate NextStep(c: Config, s: State, s': State, step: Step)
    requires c.Valid()
  {
    match step
    case StartAdd(t, a) => t !in s.ops && a > DELETED && s' == s.(ops := s.ops[t := AddCheck(a, |s.hist|)])
    case StartRemove(t, a) => t !in s.ops && a > DELETED && s' == s.(ops := s.ops[t := RemoveLoad(a, |s.hist|, 0)])
    case Access(t) => |s.slots| == c.size && t in s.ops && s' == StepOf(c, s, t)
  }

  ghost predicate Next(c: Config, s: State, s': State)
    requires c.Valid()
  {
    exists step :: NextStep(c, s, s', step)
  }

  // ----- invariant -----

  /** Every probe before `k` met a slot that is in use or was once. */
  ghost predicate PathUsed(c: Config, slots: seq<nat>, a: nat, k: nat)
    requires c.Valid() && |slots| == c.size
  {
    forall j :: 0 <= j < k ==> slots[Pos(c, a, j)] != EMPTY
  }

  /** Probe `k` for the address ends at a slot that holds it, past used slots only. */
  ghost predicate Found(c: Config, slots: seq<nat>, a: nat, k: nat)
    requires c.Valid() && |slots| == c.size
  {
    slots[Pos(c, a, k)] == a && PathUsed(c, slots, a, k)
  }

  /** Each occupied slot is where some probe for its address, within the limit, ends. */
  ghost predicate Reachable(c: Config, slots: seq<nat>)
    requires c.Valid() && |slots| == c.size
  {
    forall i :: 0 <= i < |slots| && slots[i] > DELETED ==>
      exists k :: 0 <= k < MAX_PROBE && Pos(c, slots[i], k) == i && Found(c, slots, slots[i], k)
  }

  function One(b: bool): nat { if b then 1 else 0 }

  /** How many slots an address sits in after the listed effects. */
  function Balance(hist: seq<Effect>, a: nat): int {
    if hist == [] then 0
    else
      var e := hist[|hist| - 1];
      Balance(hist[..|hist| - 1], a) + One(e == Claimed(a)) - One(e == Deleted(a))
  }

  ghost function Copies(slots: seq<nat>, a: nat): nat { multiset(slots)[a] }

  ghost predicate CopiesOk(slots: seq<nat>, hist: seq<Effect>) {
    && (forall a: nat :: a > DELETED ==> Copies(slots, a) == Balance(hist, a))
    && (forall n: nat, a: nat :: n <= |hist| && a > DELETED ==> Balance(hist[..n], a) >= 0)
  }

  /** The address sat in some slot at effect `since` and was not deleted from there to `until`. */
  ghost predicate Steady(hist: seq<Effect>, a: nat, since: nat, until: nat)
    requires since <= until <= |hist|
  {
    Balance(hist[..since], a) > 0 && forall d :: since <= d < until ==> hist[d] != Deleted(a)
  }

  ghost predicate OpOk(c: Config, slots: seq<nat>, hist: seq<Effect>, op: Op)
    requires c.Valid() && |slots| == c.size
  {
    && op.addr > DELETED && op.since <= |hist|
    && match op
       case AddCheck(a, _) => true
       case AddLoad(a, _, k) => k <= MAX_PROBE && PathUsed(c, slots, a, k)
       case AddCas(a, _, k, seen) => k < MAX_PROBE && PathUsed(c, slots, a, k) && seen <= DELETED
                                  && (seen == DELETED ==> slots[Pos(c, a, k)] != EMPTY)
       case AddReload(a, _, k) => k < MAX_PROBE && PathUsed(c, slots, a, k + 1)
       case AddCount(a, since, own) => since <= own < |hist| && hist[own] == Claimed(a)
       case RemoveLoad(a, since, k) =>
         (Steady(hist, a, since, |hist|) ==> exists j :: k <= j < MAX_PROBE && Found(c, slots, a, j))
       case RemoveCas(a, since, k) =>
         (Steady(hist, a, since, |hist|) ==> slots[Pos(c, a, k)] == a)
       case RemoveCount(a, since, own) => since <= own < |hist| && hist[own] == Deleted(a)
  }

  ghost predicate OpsOk(c: Config, slots: seq<nat>, hist: seq<Effect>, ops: map<nat, Op>)
    requires c.Valid() && |slots| == c.size
  {
    forall t :: t in ops ==> OpOk(c, slots, hist, ops[t])
  }

  function Adders(ops: map<nat, Op>): set<nat> { set t | t in ops && ops[t].AddCount? }
  function Removers(ops: map<nat, Op>): set<nat> { set t | t in ops && ops[t].RemoveCount? }
  function Occupied(slots: seq<nat>): set<nat> { set i | 0 <= i < |slots| && slots[i] > DELETED }

  /** The count lags behind the occupied slots only by the increments and decrements still pending. */
  ghost predicate CountOk(count: int, slots: seq<nat>, ops: map<nat, Op>) {
    count + |Adders(ops)| - |Removers(ops)| == |Occupied(slots)|
  }

  /** A call that returned true had its effect itself. A removal that returned false did not find the
      address because it was not there, or was deleted by someone else meanwhile. */
  ghost predicate DoneOk(hist: seq<Effect>, d: Done) {
    && d.addr > DELETED && d.since <= d.until <= |hist|
    && (d.ok ==> d.since <= d.own < d.until && hist[d.own] == (if d.Added? then Claimed(d.addr) else Deleted(d.addr)))
    && (d.Removed? && !d.ok ==> !Steady(hist, d.addr, d.since, d.until))
  }

  ghost predicate LogOk(hist: seq<Effect>, log: seq<Done>) {
    forall i :: 0 <= i < |log| ==> DoneOk(hist, log[i])
  }

  predicate Owning(op: Op) { op.AddCount? || op.RemoveCount? }

  /** No two calls claim the same effect. */
  ghost predicate OwnsOk(ops: map<nat, Op>, log: seq<Done>) {
    && (forall t, u :: t in ops && u in ops && t != u && Owning(ops[t]) && Owning(ops[u]) ==> ops[t].own != ops[u].own)
    && (forall t, i :: t in ops && Owning(ops[t]) && 0 <= i < |log| && log[i].ok ==> ops[t].own != log[i].own)
    && (forall i, j :: 0 <= i < j < |log| && log[i].ok && log[j].ok ==> log[i].own != log[j].own)
  }

  /** Effect `d` belongs to a call under way or to a finished one that returned true. */
  ghost predicate Owned(d: nat, ops: map<nat, Op>, log: seq<Done>) {
    || (exists t :: t in ops && Owning(ops[t]) && ops[t].own == d)
    || (exists i :: 0 <= i < |log| && log[i].ok && log[i].own == d)
  }

  ghost predicate AllOwned(n: nat, ops: map<nat, Op>, log: seq<Done>) {
    forall d :: 0 <= d < n ==> Owned(d, ops, log)
  }

  ghost predicate Inv(c: Config, s: State)
    requires c.Valid()
  {
    && |s.slots| == c.size
    && Reachable(c, s.slots)
    && CopiesOk(s.slots, s.hist)
    && OpsOk(c, s.slots, s.hist, s.ops)
    && CountOk(s.count, s.slots, s.ops)
    && LogOk(s.hist, s.log)
    && OwnsOk(s.ops, s.log)
    && AllOwned(|s.hist|, s.ops, s.log)
  }

  // ----- stores never empty a slot, and leave other addresses alone -----

  lemma PathKept(c: Config, slots: seq<nat>, i: nat, v: nat, a: nat, k: nat)
    requires c.Valid() && |slots| == c.size && i < |slots| && v != EMPTY && PathUsed(c, slots, a, k)
    ensures PathUsed(c, slots[i := v], a, k)
  {
  }

  lemma FoundKept(c: Config, slots: seq<nat>, i: nat, v: nat, a: nat, k: nat)
    requires c.Valid() && |slots| == c.size && i < |slots| && v != EMPTY && Found(c, slots, a, k) && slots[i] != a
    ensures Found(c, slots[i := v], a, k)
  {
    PathKept(c, slots, i, v, a, k);
  }

  lemma FoundAt(c: Config, slots: seq<nat>, i: nat) returns (k: nat)
    requires c.Valid() && |slots| == c.size && Reachable(c, slots) && i < |slots| && slots[i] > DELETED
    ensures k < MAX_PROBE && Pos(c, slots[i], k) == i && Found(c, slots, slots[i], k)
  {
    k :| 0 <= k < MAX_PROBE && Pos(c, slots[i], k) == i && Found(c, slots, slots[i], k);
  }

  /** Claiming a free slot at the end of a used path keeps every address reachable, and so does a tombstone. */
  lemma StoreReachable(c: Config, slots: seq<nat>, i: nat, v: nat, k: nat)
    requires c.Valid() && |slots| == c.size && Reachable(c, slots) && i < |slots| && v != EMPTY
    requires v > DELETED ==> k < MAX_PROBE && Pos(c, v, k) == i && PathUsed(c, slots, v, k)
    ensures Reachable(c, slots[i := v])
  {
    hide Pos, PathUsed, Found, Reachable;
    var slots' := slots[i := v];
    assert forall x :: 0 <= x < |slots'| && slots'[x] > DELETED ==>
      exists k :: 0 <= k < MAX_PROBE && Pos(c, slots'[x], k) == x && Found(c, slots', slots'[x], k) by {
      forall x | 0 <= x < |slots'| && slots'[x] > DELETED
        ensures exists k :: 0 <= k < MAX_PROBE && Pos(c, slots'[x], k) == x && Found(c, slots', slots'[x], k)
      {
        if x == i {
          ClaimFound(c, slots, v, k);
        } else {
          var j := FoundAt(c, slots, x);
          FoundElsewhere(c, slots, i, v, x, j);
        }
      }
    }
    ReachableIs(c, slots');
  }

  lemma ReachableIs(c: Config, slots: seq<nat>)
    requires c.Valid() && |slots| == c.size
    requires forall i :: 0 <= i < |slots| && slots[i] > DELETED ==>
               exists k :: 0 <= k < MAX_PROBE && Pos(c, slots[i], k) == i && Found(c, slots, slots[i], k)
    ensures Reachable(c, slots)
  {
  }

  lemma ClaimFound(c: Config, slots: seq<nat>, v: nat, k: nat)
    requires c.Valid() && |slots| == c.size && v > DELETED && PathUsed(c, slots, v, k)
    ensures Found(c, slots[Pos(c, v, k) := v], v, k)
  {
    PathKept(c, slots, Pos(c, v, k), v, v, k);
  }

  lemma FoundElsewhere(c: Config, slots: seq<nat>, i: nat, v: nat, x: nat, k: nat)
    requires c.Valid() && |slots| == c.size && i < |slots| && x < |slots| && x != i && v != EMPTY
    requires Pos(c, slots[x], k) == x && Found(c, slots, slots[x], k)
    ensures Found(c, slots[i := v], slots[x], k)
  {
    PathKept(c, slots, i, v, slots[x], k);
  }

  /** An address that sits in some slot is found by a probe within the limit. */
  lemma PresentFound(c: Config, slots: seq<nat>, a: nat)
    requires c.Valid() && |slots| == c.size && Reachable(c, slots) && a > DELETED && a in slots
    ensures exists k :: 0 <= k < MAX_PROBE && Found(c, slots, a, k)
  {
    var i :| 0 <= i < |slots| && slots[i] == a;
    var k := FoundAt(c, slots, i);
  }

  // ----- effects -----

  lemma BalanceSnoc(hist: seq<Effect>, e: Effect, a: nat)
    ensures Balance(hist + [e], a) == Balance(hist, a) + One(e == Claimed(a)) - One(e == Deleted(a))
    ensures forall n: nat :: n <= |hist| ==> (hist + [e])[..n] == hist[..n]
    ensures (hist + [e])[..|hist| + 1] == hist + [e]
  {
    assert (hist + [e])[..|hist|] == hist;
  }

  lemma CopiesMoved(slots: seq<nat>, i: nat, v: nat, a: nat)
    requires i < |slots|
    ensures Copies(slots[i := v], a) == Copies(slots, a) - One(slots[i] == a) + One(v == a)
  {
  }

  lemma CopiesAfter(slots: seq<nat>, hist: seq<Effect>, i: nat, v: nat, e: Effect)
    requires CopiesOk(slots, hist) && i < |slots|
    requires (e == Claimed(v) && v > DELETED && slots[i] <= DELETED) ||
             (e == Deleted(slots[i]) && v == DELETED && slots[i] > DELETED)
    ensures CopiesOk(slots[i := v], hist + [e])
  {
    hide Balance;
    var slots', hist' := slots[i := v], hist + [e];
    forall a: nat | a > DELETED
      ensures Copies(slots', a) == Balance(hist', a)
    {
      BalanceSnoc(hist, e, a);
      CopiesMoved(slots, i, v, a);
    }
    forall n: nat, a: nat | n <= |hist'| && a > DELETED
      ensures Balance(hist'[..n], a) >= 0
    {
      BalanceSnoc(hist, e, a);
      if n <= |hist| { assert Balance(hist[..n], a) >= 0; } else { assert Copies(slots', a) >= 0; }
    }
  }

  lemma SteadyBefore(hist: seq<Effect>, e: Effect, a: nat, since: nat)
    requires since <= |hist|
    ensures Steady(hist + [e], a, since, |hist| + 1) <==> Steady(hist, a, since, |hist|) && e != Deleted(a)
  {
    BalanceSnoc(hist, e, a);
    assert forall d :: since <= d < |hist| ==> (hist + [e])[d] == hist[d];
    assert (hist + [e])[|hist|] == e;
  }

  lemma SteadyKept(hist: seq<Effect>, e: Effect, a: nat, since: nat, until: nat)
    requires since <= until <= |hist|
    ensures Steady(hist + [e], a, since, until) <==> Steady(hist, a, since, until)
  {
    BalanceSnoc(hist, e, a);
    assert forall d :: since <= d < until ==> (hist + [e])[d] == hist[d];
  }

  lemma LogKept(hist: seq<Effect>, e: Effect, log: seq<Done>)
    requires LogOk(hist, log)
    ensures LogOk(hist + [e], log)
  {
    hide Steady;
    forall i | 0 <= i < |log|
      ensures DoneOk(hist + [e], log[i])
    {
      assert DoneOk(hist, log[i]);
      SteadyKept(hist, e, log[i].addr, log[i].since, log[i].until);
    }
  }

  /** The effect of thread `t` on a slot leaves what other threads rely on. */
  lemma OthersKept(c: Config, slots: seq<nat>, hist: seq<Effect>, op: Op, i: nat, v: nat, e: Effect)
    requires c.Valid() && |slots| == c.size && i < |slots| && OpOk(c, slots, hist, op)
    requires (e == Claimed(v) && v > DELETED && slots[i] <= DELETED) ||
             (e == Deleted(slots[i]) && v == DELETED && slots[i] > DELETED)
    ensures OpOk(c, slots[i := v], hist + [e], op)
  {
    hide Pos, Steady;
    match op
    case RemoveLoad(a, since, k) =>
      SteadyBefore(hist, e, a, since);
      if Steady(hist + [e], a, since, |hist| + 1) {
        var j :| k <= j < MAX_PROBE && Found(c, slots, a, j);
        FoundKept(c, slots, i, v, a, j);
      }
    case RemoveCas(a, since, k) => SteadyBefore(hist, e, a, since);
    case _ =>
  }

  // ----- every step keeps the invariant -----

  /** How the pending counter updates change when thread `t` moves on. */
  lemma PendingAfterMove(ops: map<nat, Op>, t: nat, op: Op)
    ensures |Adders(ops[t := op])| == |Adders(ops)| - One(t in Adders(ops)) + One(op.AddCount?)
    ensures |Removers(ops[t := op])| == |Removers(ops)| - One(t in Removers(ops)) + One(op.RemoveCount?)
  {
    MovedSet(Adders(ops), Adders(ops[t := op]), t);
    MovedSet(Removers(ops), Removers(ops[t := op]), t);
  }

  lemma PendingAfterEnd(ops: map<nat, Op>, t: nat)
    ensures |Adders(ops - {t})| == |Adders(ops)| - One(t in Adders(ops))
    ensures |Removers(ops - {t})| == |Removers(ops)| - One(t in Removers(ops))
  {
    MovedSet(Adders(ops), Adders(ops - {t}), t);
    MovedSet(Removers(ops), Removers(ops - {t}), t);
  }

  lemma MovedSet(x: set<nat>, y: set<nat>, t: nat)
    requires forall u :: u != t ==> (u in x <==> u in y)
    ensures |y| == |x| - One(t in x) + One(t in y)
  {
    assert x - {t} == y - {t};
    assert |x| == |x - {t}| + One(t in x);
    assert |y| == |y - {t}| + One(t in y);
  }

  lemma IsPending(ops: map<nat, Op>, t: nat)
    ensures t in Adders(ops) <==> t in ops && ops[t].AddCount?
    ensures t in Removers(ops) <==> t in ops && ops[t].RemoveCount?
  {
  }

  lemma OccupiedAfter(slots: seq<nat>, i: nat, v: nat)
    requires i < |slots|
    ensures |Occupied(slots[i := v])| == |Occupied(slots)| - One(slots[i] > DELETED) + One(v > DELETED)
  {
    MovedSet(Occupied(slots), Occupied(slots[i := v]), i);
  }

  lemma StartInv(c: Config, s: State, s': State, step: Step)
    requires c.Valid() && Inv(c, s) && NextStep(c, s, s', step) && !step.Access?
    ensures Inv(c, s')
  {
    hide Reachable, CopiesOk, Adders, Removers, Occupied, LogOk, Found, Pos, AllOwned;
    PendingAfterMove(s.ops, step.t, s'.ops[step.t]);
    IsPending(s.ops, step.t);
    OwnedMoves(|s.hist|, s.ops, s.log, step.t, s'.ops[step.t]);
    if step.StartRemove? { StartFinds(c, s, step.a); }
  }

  /** A removal that starts while the address sits somewhere will find it. */
  lemma StartFinds(c: Config, s: State, a: nat)
    requires c.Valid() && Inv(c, s) && a > DELETED
    ensures Steady(s.hist, a, |s.hist|, |s.hist|) ==> exists k :: 0 <= k < MAX_PROBE && Found(c, s.slots, a, k)
    ensures Steady(s.hist, a, |s.hist|, |s.hist|) <==> a in s.slots
  {
    hide OpsOk, CountOk, LogOk, OwnsOk, AllOwned, Found, Reachable, Balance;
    assert s.hist[..|s.hist|] == s.hist;
    assert Copies(s.slots, a) == Balance(s.hist, a);
    if Steady(s.hist, a, |s.hist|, |s.hist|) {
      assert a in multiset(s.slots);
      PresentFound(c, s.slots, a);
    }
  }

  /** A thread that has no effect yet can move on without leaving one unowned. */
  lemma OwnedMoves(n: nat, ops: map<nat, Op>, log: seq<Done>, t: nat, op: Op)
    requires AllOwned(n, ops, log) && (t in ops ==> !Owning(ops[t]))
    ensures AllOwned(n, ops[t := op], log)
  {
    var ops' := ops[t := op];
    forall d | 0 <= d < n
      ensures Owned(d, ops', log)
    {
      assert Owned(d, ops, log);
      if u :| u in ops && Owning(ops[u]) && ops[u].own == d { assert u in ops' && ops'[u] == ops[u]; }
    }
  }

  /** A thread that ends hands its effect over to its answer. */
  lemma OwnedEnds(n: nat, ops: map<nat, Op>, log: seq<Done>, t: nat, d: Done)
    requires AllOwned(n, ops, log) && t in ops && (Owning(ops[t]) ==> d.ok && d.own == ops[t].own)
    ensures AllOwned(n, ops - {t}, log + [d])
  {
    var log' := log + [d];
    assert log'[|log|] == d;
    forall e | 0 <= e < n
      ensures Owned(e, ops - {t}, log')
    {
      assert Owned(e, ops, log);
      if u :| u in ops && Owning(ops[u]) && ops[u].own == e {
        if u != t { assert u in ops - {t} && (ops - {t})[u] == ops[u]; }
      } else {
        var i :| 0 <= i < |log| && log[i].ok && log[i].own == e;
        assert log'[i] == log[i];
      }
    }
  }

  /** A new effect belongs to the thread that had it. */
  lemma OwnedGrows(n: nat, ops: map<nat, Op>, log: seq<Done>, t: nat, op: Op)
    requires AllOwned(n, ops, log) && t in ops && !Owning(ops[t]) && Owning(op) && op.own == n
    ensures AllOwned(n + 1, ops[t := op], log)
  {
    OwnedMoves(n, ops, log, t, op);
    assert ops[t := op][t] == op;
    assert Owned(n, ops[t := op], log);
  }

  /** A step that stores nothing and goes on. */
  lemma MoveInv(c: Config, s: State, t: nat)
    requires c.Valid() && Inv(c, s) && t in s.ops && t in StepOf(c, s, t).ops && StepOf(c, s, t).slots == s.slots
    requires StepOf(c, s, t).hist == s.hist
    ensures Inv(c, StepOf(c, s, t))
  {
    hide Reachable, CopiesOk, OpsOk, Adders, Removers, Occupied, LogOk, Pos, AllOwned;
    var s' := StepOf(c, s, t);
    QuietOp(c, s, t);
    OwnedMoves(|s.hist|, s.ops, s.log, t, s'.ops[t]);
    PendingAfterMove(s.ops, t, s'.ops[t]);
    IsPending(s.ops, t);
    assert OpsOk(c, s'.slots, s'.hist, s'.ops) by { ReplaceOp(c, s.slots, s.hist, s.ops, t, s'.ops[t]); }
  }

  lemma ReplaceOp(c: Config, slots: seq<nat>, hist: seq<Effect>, ops: map<nat, Op>, t: nat, op: Op)
    requires c.Valid() && |slots| == c.size && OpsOk(c, slots, hist, ops) && OpOk(c, slots, hist, op)
    ensures OpsOk(c, slots, hist, ops[t := op])
  {
    hide OpOk;
  }

  lemma QuietOp(c: Config, s: State, t: nat)
    requires c.Valid() && Inv(c, s) && t in s.ops && t in StepOf(c, s, t).ops && StepOf(c, s, t).slots == s.slots
    requires StepOf(c, s, t).hist == s.hist
    ensures OpOk(c, s.slots, s.hist, StepOf(c, s, t).ops[t])
    ensures StepOf(c, s, t).ops == s.ops[t := StepOf(c, s, t).ops[t]]
    ensures !StepOf(c, s, t).ops[t].AddCount? && !StepOf(c, s, t).ops[t].RemoveCount?
    ensures !s.ops[t].AddCount? && !s.ops[t].RemoveCount?
  {
    hide Pos, CountOk, LogOk, CopiesOk, Reachable, OwnsOk, AllOwned, Steady;
    assert OpOk(c, s.slots, s.hist, s.ops[t]);
  }

  /** The step that ends an operation. */
  lemma EndInv(c: Config, s: State, t: nat)
    requires c.Valid() && Inv(c, s) && t in s.ops && t !in StepOf(c, s, t).ops
    ensures Inv(c, StepOf(c, s, t))
  {
    hide Reachable, CopiesOk, OpOk, Adders, Removers, Occupied, LogOk, OwnsOk, AllOwned, Pos;
    EndOwned(c, s, t);
    PendingAfterEnd(s.ops, t);
    IsPending(s.ops, t);
    EndLog(c, s, t);
    EndOwns(c, s, t);
  }

  lemma EndOwned(c: Config, s: State, t: nat)
    requires c.Valid() && |s.slots| == c.size && AllOwned(|s.hist|, s.ops, s.log) && t in s.ops && t !in StepOf(c, s, t).ops
    ensures AllOwned(|s.hist|, StepOf(c, s, t).ops, StepOf(c, s, t).log)
  {
    hide Pos, AllOwned;
    var s' := StepOf(c, s, t);
    OwnedEnds(|s.hist|, s.ops, s.log, t, s'.log[|s.log|]);
  }

  lemma EndLog(c: Config, s: State, t: nat)
    requires c.Valid() && Inv(c, s) && t in s.ops && t !in StepOf(c, s, t).ops
    ensures LogOk(s.hist, StepOf(c, s, t).log)
  {
    hide Pos, CountOk, CopiesOk, Reachable, OwnsOk, AllOwned, Steady;
    assert OpOk(c, s.slots, s.hist, s.ops[t]);
    var s' := StepOf(c, s, t);
    assert DoneOk(s.hist, s'.log[|s.log|]);
  }

  lemma EndOwns(c: Config, s: State, t: nat)
    requires c.Valid() && Inv(c, s) && t in s.ops && t !in StepOf(c, s, t).ops
    ensures OwnsOk(StepOf(c, s, t).ops, StepOf(c, s, t).log)
  {
    hide Pos, CountOk, CopiesOk, Reachable, OpsOk, LogOk;
  }

  ghost predicate Claims(c: Config, s: State, t: nat)
    requires c.Valid() && |s.slots| == c.size
  {
    t in s.ops && s.ops[t].AddCas? && s.slots[Pos(c, s.ops[t].addr, s.ops[t].k)] == s.ops[t].seen
  }

  ghost predicate Deletes(c: Config, s: State, t: nat)
    requires c.Valid() && |s.slots| == c.size
  {
    t in s.ops && s.ops[t].RemoveCas? && s.slots[Pos(c, s.ops[t].addr, s.ops[t].k)] == s.ops[t].addr
  }

  /** The compare-and-exchange that claims or deletes a slot. */
  lemma EffectInv(c: Config, s: State, t: nat)
    requires c.Valid() && Inv(c, s) && (Claims(c, s, t) || Deletes(c, s, t))
    ensures Inv(c, StepOf(c, s, t))
  {
    hide Reachable, CopiesOk, OpsOk, OpOk, Adders, Removers, Occupied, LogOk, OwnsOk, AllOwned, Pos, PathUsed;
    var s', a, k := StepOf(c, s, t), s.ops[t].addr, s.ops[t].k;
    var i, v := Pos(c, a, k), if Claims(c, s, t) then a else DELETED;
    var e := if Claims(c, s, t) then Claimed(a) else Deleted(a);
    OwnOp(c, s, t);
    StoreReachable(c, s.slots, i, v, k);
    CopiesAfter(s.slots, s.hist, i, v, e);
    OccupiedAfter(s.slots, i, v);
    LogKept(s.hist, e, s.log);
    EffectOps(c, s, t, i, v, e, s'.ops[t]);
    EffectOwns(c, s, t);
    OwnedGrows(|s.hist|, s.ops, s.log, t, s'.ops[t]);
    PendingAfterMove(s.ops, t, s'.ops[t]);
    IsPending(s.ops, t);
  }

  lemma OwnOp(c: Config, s: State, t: nat)
    requires c.Valid() && Inv(c, s) && (Claims(c, s, t) || Deletes(c, s, t))
    ensures s.ops[t].addr > DELETED
    ensures Claims(c, s, t) ==> s.ops[t].k < MAX_PROBE && PathUsed(c, s.slots, s.ops[t].addr, s.ops[t].k) && s.ops[t].seen <= DELETED
    ensures s.ops[t].since <= |s.hist|
  {
    hide Pos, CountOk, CopiesOk, Reachable, OwnsOk, AllOwned, LogOk, PathUsed;
    assert OpOk(c, s.slots, s.hist, s.ops[t]);
  }

  lemma EffectOps(c: Config, s: State, t: nat, i: nat, v: nat, e: Effect, op: Op)
    requires c.Valid() && |s.slots| == c.size && OpsOk(c, s.slots, s.hist, s.ops) && t in s.ops && i < |s.slots|
    requires s.ops[t].since <= |s.hist|
    requires (e == Claimed(v) && v > DELETED && s.slots[i] <= DELETED && op == AddCount(v, s.ops[t].since, |s.hist|)) ||
             (e == Deleted(s.slots[i]) && v == DELETED && s.slots[i] > DELETED
              && op == RemoveCount(s.slots[i], s.ops[t].since, |s.hist|))
    ensures OpsOk(c, s.slots[i := v], s.hist + [e], s.ops[t := op])
  {
    hide OpOk;
    assert OpOk(c, s.slots[i := v], s.hist + [e], op) by { NewOpOk(c, s.slots[i := v], s.hist, e, op); }
    forall u | u in s.ops && u != t
      ensures OpOk(c, s.slots[i := v], s.hist + [e], s.ops[u])
    {
      OthersKept(c, s.slots, s.hist, s.ops[u], i, v, e);
    }
  }

  lemma NewOpOk(c: Config, slots: seq<nat>, hist: seq<Effect>, e: Effect, op: Op)
    requires c.Valid() && |slots| == c.size && op.addr > DELETED
    requires (op.AddCount? && e == Claimed(op.addr)) || (op.RemoveCount? && e == Deleted(op.addr))
    requires op.since <= op.own == |hist|
    ensures OpOk(c, slots, hist + [e], op)
  {
  }

  /** A new deletion is later than all others, so nobody else has it. */
  lemma EffectOwns(c: Config, s: State, t: nat)
    requires c.Valid() && Inv(c, s) && (Claims(c, s, t) || Deletes(c, s, t))
    ensures OwnsOk(StepOf(c, s, t).ops, s.log)
  {
    hide Pos, CountOk, CopiesOk, Reachable, Steady, PathUsed, Found;
    assert forall u :: u in s.ops && Owning(s.ops[u]) ==> OpOk(c, s.slots, s.hist, s.ops[u]);
    assert forall i :: 0 <= i < |s.log| && s.log[i].ok ==> DoneOk(s.hist, s.log[i]);
  }

  lemma AccessInv(c: Config, s: State, t: nat)
    requires c.Valid() && Inv(c, s) && t in s.ops
    ensures Inv(c, StepOf(c, s, t))
  {
    hide Reachable, CopiesOk, OpsOk, CountOk, LogOk, OwnsOk, AllOwned, Pos;
    if t !in StepOf(c, s, t).ops {
      EndInv(c, s, t);
    } else if Claims(c, s, t) || Deletes(c, s, t) {
      EffectInv(c, s, t);
    } else {
      MoveInv(c, s, t);
    }
  }

  lemma NextInv(c: Config, s: State, s': State)
    requires c.Valid() && Inv(c, s) && Next(c, s, s')
    ensures Inv(c, s')
  {
    hide Inv, StepOf;
    var step :| NextStep(c, s, s', step);
    match step
    case Access(t) => AccessInv(c, s, t);
    case _ => StartInv(c, s, s', step);
  }

  // ----- every run -----

  ghost predicate Run(c: Config, ss: seq<State>)
    requires c.Valid()
  {
    && |ss| > 0 && Init(c, ss[0])
    && forall i, j :: 0 <= i < j < |ss| && j == i + 1 ==> Next(c, ss[i], ss[j])
  }

  lemma InitInv(c: Config, s: State)
    requires c.Valid() && Init(c, s)
    ensures Inv(c, s)
  {
    assert Occupied(s.slots) == {} && Adders(map[]) == {} && Removers(map[]) == {};
    assert forall a: nat :: a > DELETED ==> a !in s.slots;
  }

  lemma {:induction false} RunInv(c: Config, ss: seq<State>, i: nat)
    requires c.Valid() && Run(c, ss) && i < |ss|
    ensures Inv(c, ss[i])
  {
    hide Inv, Next, Init;
    if i == 0 {
      InitInv(c, ss[0]);
    } else {
      RunInv(c, ss, i - 1);
      NextInv(c, ss[i - 1], ss[i]);
    }
  }

  /** In every interleaving of any operations, each occupied slot is reached by a probe for its address
      within the limit, and no slot before it on that path is empty. */
  lemma SlotsReachable(c: Config, ss: seq<State>, i: nat, x: nat)
    requires c.Valid() && Run(c, ss) && i < |ss| && x < |ss[i].slots| && ss[i].slots[x] > DELETED
    ensures |ss[i].slots| == c.size
    ensures exists k :: 0 <= k < 64 && Pos(c, ss[i].slots[x], k) == x && PathUsed(c, ss[i].slots, ss[i].slots[x], k)
  {
    hide Run, OpsOk, CountOk, LogOk, OwnsOk, AllOwned, CopiesOk, Pos, PathUsed;
    RunInv(c, ss, i);
    var k := FoundAt(c, ss[i].slots, x);
  }

  lemma NextHistory(c: Config, s: State, s': State)
    requires c.Valid() && Next(c, s, s')
    ensures s.hist <= s'.hist
  {
    hide Pos;
  }

  /** The list of effects only grows, and at every moment it says how many slots hold an address. */
  lemma {:induction false} HistoryIsSlots(c: Config, ss: seq<State>, i: nat, j: nat, a: nat)
    requires c.Valid() && Run(c, ss) && i <= j < |ss| && a > DELETED
    ensures ss[i].hist <= ss[j].hist
    ensures Copies(ss[i].slots, a) == Balance(ss[i].hist, a) == Balance(ss[j].hist[..|ss[i].hist|], a)
    decreases j - i
  {
    hide Next, Init, Reachable, OpsOk, CountOk, LogOk, OwnsOk, AllOwned, Balance, Copies;
    if i == j {
      RunInv(c, ss, i);
      assert ss[i].hist[..|ss[i].hist|] == ss[i].hist;
    } else {
      HistoryIsSlots(c, ss, i, j - 1, a);
      NextHistory(c, ss[j - 1], ss[j]);
      assert ss[j - 1].hist[..|ss[i].hist|] == ss[j].hist[..|ss[i].hist|];
    }
  }

  /** In every interleaving: a removal begun while the address sat in some slot, and during which no
      other operation deleted that address, returned true. */
  lemma RemovalFinds(c: Config, ss: seq<State>, i: nat, x: nat)
    requires c.Valid() && Run(c, ss) && i < |ss| && x < |ss[i].log| && ss[i].log[x].Removed?
    requires ss[i].log[x].since <= ss[i].log[x].until <= |ss[i].hist|
    requires Balance(ss[i].hist[..ss[i].log[x].since], ss[i].log[x].addr) > 0
    requires forall d :: ss[i].log[x].since <= d < ss[i].log[x].until && ss[i].hist[d] == Deleted(ss[i].log[x].addr) ==>
               ss[i].log[x].ok && d == ss[i].log[x].own
    ensures ss[i].log[x].ok
  {
    hide Run, Reachable, OpsOk, CountOk, OwnsOk, AllOwned, CopiesOk, Balance;
    RunInv(c, ss, i);
    assert DoneOk(ss[i].hist, ss[i].log[x]);
  }

  /** In every interleaving: each call that returned true had an effect of its own while it ran, an add a
      claim and a removal a deletion of its address, and no two calls share one. */
  lemma TrueHasEffect(c: Config, ss: seq<State>, i: nat, x: nat, y: nat)
    requires c.Valid() && Run(c, ss) && i < |ss| && x < |ss[i].log| && ss[i].log[x].ok
    ensures var d := ss[i].log[x];
            && d.since <= d.own < d.until <= |ss[i].hist|
            && ss[i].hist[d.own] == (if d.Added? then Claimed(d.addr) else Deleted(d.addr))
    ensures y < |ss[i].log| && y != x && ss[i].log[y].ok ==> ss[i].log[y].own != ss[i].log[x].own
  {
    hide Run, Reachable, OpsOk, CountOk, CopiesOk, Balance;
    RunInv(c, ss, i);
    assert DoneOk(ss[i].hist, ss[i].log[x]);
  }

  /** And no effect goes without such a call: once no call is under way, every claim is that of exactly one
      add that returned true, and every deletion that of exactly one removal that did. */
  lemma EffectIsAnswered(c: Config, ss: seq<State>, i: nat, d: nat)
    requires c.Valid() && Run(c, ss) && i < |ss| && ss[i].ops == map[] && d < |ss[i].hist|
    ensures exists x :: 0 <= x < |ss[i].log| && ss[i].log[x].ok && ss[i].log[x].own == d
              && ss[i].log[x].addr == ss[i].hist[d].addr && ss[i].log[x].Added? == ss[i].hist[d].Claimed?
              && forall y :: 0 <= y < |ss[i].log| && ss[i].log[y].ok && ss[i].log[y].own == d ==> y == x
  {
    hide Run, Reachable, OpsOk, CountOk, CopiesOk, Balance;
    RunInv(c, ss, i);
    assert Owned(d, ss[i].ops, ss[i].log);
    var x :| 0 <= x < |ss[i].log| && ss[i].log[x].ok && ss[i].log[x].own == d;
    assert DoneOk(ss[i].hist, ss[i].log[x]);
  }

  lemma {:induction false} BalanceFalls(hist: seq<Effect>, a: nat, lo: nat, hi: nat)
    requires lo <= hi <= |hist| && forall d :: lo <= d < hi ==> hist[d] != Claimed(a)
    ensures Balance(hist[..hi], a) <= Balance(hist[..lo], a)
    ensures (forall d :: lo <= d < hi ==> hist[d] != Deleted(a)) ==> Balance(hist[..hi], a) == Balance(hist[..lo], a)
    ensures forall d :: lo <= d < hi && hist[d] == Deleted(a) ==> Balance(hist[..hi], a) <= Balance(hist[..lo], a) - 1
    ensures forall d, e :: lo <= d < e < hi && hist[d] == Deleted(a) && hist[e] == Deleted(a) ==>
              Balance(hist[..hi], a) <= Balance(hist[..lo], a) - 2
    decreases hi
  {
    if lo < hi {
      BalanceFalls(hist, a, lo, hi - 1);
      assert hist[..hi][..hi - 1] == hist[..hi - 1];
    }
  }

  /** Of two removals of an address that sat in one slot when the first of them began, while nobody
      claimed it again or else removed it, exactly one returned true, however they overlapped. */
  lemma ExactlyOneRemoves(c: Config, ss: seq<State>, i: nat, x: nat, y: nat, lo: nat, hi: nat)
    requires c.Valid() && Run(c, ss) && i < |ss| && x < |ss[i].log| && y < |ss[i].log| && x != y
    requires var h, p, q := ss[i].hist, ss[i].log[x], ss[i].log[y];
             && p.Removed? && q.Removed? && p.addr == q.addr
             && lo <= p.since && lo <= q.since && p.until <= hi && q.until <= hi && lo <= hi <= |h|
             && (lo == p.since || lo == q.since)
             && Balance(h[..lo], p.addr) == 1
             && (forall d :: lo <= d < hi ==> h[d] != Claimed(p.addr))
             && (forall d :: lo <= d < hi && h[d] == Deleted(p.addr) ==> (p.ok && d == p.own) || (q.ok && d == q.own))
    ensures ss[i].log[x].ok != ss[i].log[y].ok
  {
    hide Run, Reachable, OpsOk, CountOk, Balance;
    RunInv(c, ss, i);
    var h, p, q := ss[i].hist, ss[i].log[x], ss[i].log[y];
    assert DoneOk(h, p) && DoneOk(h, q);
    assert Balance(h[..hi], p.addr) >= 0;
    BalanceFalls(h, p.addr, lo, hi);
    BalanceFalls(h, p.addr, lo, p.since);
    if p.ok && q.ok {
      TrueHasEffect(c, ss, i, x, y);
      assert false;
    }
  }

  /** At rest, the count is the number of occupied slots. */
  lemma QuiescentCount(c: Config, ss: seq<State>, i: nat)
    requires c.Valid() && Run(c, ss) && i < |ss| && ss[i].ops == map[]
    ensures ss[i].count == |Occupied(ss[i].slots)|
  {
    hide Run, Reachable, CopiesOk, OpsOk, LogOk, OwnsOk, AllOwned;
    RunInv(c, ss, i);
    assert Adders(map[]) == {} && Removers(map[]) == {};
  }

  // ----- calls that nobody disturbs -----

  /** How many accesses an operation makes at most before its last one. */
  function Left(op: Op): nat {
    match op
    case AddCheck(_, _) => 3 * MAX_PROBE + 3
    case AddLoad(_, _, k) => if k >= MAX_PROBE then 1 else 3 * (MAX_PROBE - k) + 2
    case AddCas(_, _, k, _) => if k >= MAX_PROBE then 3 else 3 * (MAX_PROBE - k) + 1
    case AddReload(_, _, k) => if k >= MAX_PROBE then 2 else 3 * (MAX_PROBE - k)
    case AddCount(_, _, _) => 0
    case RemoveLoad(_, _, k) => if k >= MAX_PROBE then 1 else 2 * (MAX_PROBE - k) + 1
    case RemoveCas(_, _, k) => if k >= MAX_PROBE then 1 else 2 * (MAX_PROBE - k)
    case RemoveCount(_, _, _) => 0
  }

  /** The state when thread `t`, running alone, has finished its operation. */
  function Alone(c: Config, s: State, t: nat): (r: State)
    requires c.Valid() && |s.slots| == c.size && t in s.ops
    ensures t !in r.ops && |r.slots| == c.size
    decreases Left(s.ops[t])
  {
    var s1 := StepOf(c, s, t);
    if t in s1.ops then Alone(c, s1, t) else s1
  }

  /** Probe `j` is the first from `k` on that meets a free slot, and none before meets the address. */
  ghost predicate FreeFrom(c: Config, slots: seq<nat>, a: nat, k: nat, j: nat)
    requires c.Valid() && |slots| == c.size
  {
    && k <= j < MAX_PROBE && slots[Pos(c, a, j)] <= DELETED
    && forall i :: k <= i < j ==> slots[Pos(c, a, i)] > DELETED && slots[Pos(c, a, i)] != a
  }

  ghost predicate HasFree(c: Config, slots: seq<nat>, a: nat, k: nat)
    requires c.Valid() && |slots| == c.size
  {
    exists j :: FreeFrom(c, slots, a, k, j)
  }

  lemma {:induction false} AddFrom(c: Config, s: State, t: nat, k: nat)
    requires c.Valid() && |s.slots| == c.size && t in s.ops && s.ops[t] == AddLoad(s.ops[t].addr, |s.hist|, k)
    requires k <= MAX_PROBE && s.ops[t].addr > DELETED
    ensures var a, r := s.ops[t].addr, Alone(c, s, t);
            && r.ops == s.ops - {t}
            && (forall j :: FreeFrom(c, s.slots, a, k, j) ==>
                  && r.slots == s.slots[Pos(c, a, j) := a] && r.count == s.count + 1 && r.hist == s.hist + [Claimed(a)]
                  && r.log == s.log + [Added(a, true, |s.hist|, |s.hist| + 1, |s.hist|)])
            && (!HasFree(c, s.slots, a, k) ==>
                  && r.slots == s.slots && r.count == s.count && r.hist == s.hist
                  && r.log == s.log + [Added(a, false, |s.hist|, |s.hist|, 0)])
    decreases MAX_PROBE - k
  {
    hide Pos, FreeFrom, HasFree, Alone;
    var a := s.ops[t].addr;
    Unroll(c, s, t);
    FreeHere(c, s.slots, a, k);
    if k < MAX_PROBE && s.slots[Pos(c, a, k)] <= DELETED {
      ClaimAlone(c, s, t, k);
    } else if k < MAX_PROBE && s.slots[Pos(c, a, k)] != a {
      var s1 := StepOf(c, s, t);
      AddFrom(c, s1, t, k + 1);
      assert s1.ops - {t} == s.ops - {t};
    }
  }

  /** What the next probe tells about the first free slot. */
  lemma FreeHere(c: Config, slots: seq<nat>, a: nat, k: nat)
    requires c.Valid() && |slots| == c.size
    ensures k >= MAX_PROBE ==> !HasFree(c, slots, a, k)
    ensures k < MAX_PROBE && slots[Pos(c, a, k)] <= DELETED ==>
              HasFree(c, slots, a, k) && forall j :: FreeFrom(c, slots, a, k, j) ==> j == k
    ensures k < MAX_PROBE && slots[Pos(c, a, k)] == a > DELETED ==> !HasFree(c, slots, a, k)
    ensures k < MAX_PROBE && slots[Pos(c, a, k)] > DELETED && slots[Pos(c, a, k)] != a ==>
              (HasFree(c, slots, a, k) <==> HasFree(c, slots, a, k + 1))
              && forall j :: FreeFrom(c, slots, a, k, j) ==> FreeFrom(c, slots, a, k + 1, j)
    ensures !HasFree(c, slots, a, k) ==> forall j :: !FreeFrom(c, slots, a, k, j)
  {
    hide Pos;
    if k < MAX_PROBE && slots[Pos(c, a, k)] <= DELETED { assert FreeFrom(c, slots, a, k, k); }
    var n := k + 1;
    if k < MAX_PROBE && slots[Pos(c, a, k)] > DELETED && slots[Pos(c, a, k)] != a {
      if j :| FreeFrom(c, slots, a, n, j) { assert FreeFrom(c, slots, a, k, j); }
      if j :| FreeFrom(c, slots, a, k, j) { assert FreeFrom(c, slots, a, n, j); }
    }
  }

  lemma ClaimAlone(c: Config, s: State, t: nat, k: nat)
    requires c.Valid() && |s.slots| == c.size && t in s.ops && s.ops[t] == AddLoad(s.ops[t].addr, |s.hist|, k)
    requires k < MAX_PROBE && s.slots[Pos(c, s.ops[t].addr, k)] <= DELETED
    ensures var a, r := s.ops[t].addr, Alone(c, s, t);
            && r.ops == s.ops - {t} && r.slots == s.slots[Pos(c, a, k) := a] && r.count == s.count + 1
            && r.hist == s.hist + [Claimed(a)] && r.log == s.log + [Added(a, true, |s.hist|, |s.hist| + 1, |s.hist|)]
  {
    hide Pos;
    var s1 := StepOf(c, s, t);
    var s2 := StepOf(c, s1, t);
    var s3 := StepOf(c, s2, t);
    assert Alone(c, s2, t) == s3 && Alone(c, s1, t) == s3 && Alone(c, s, t) == s3;
    assert s3.ops == s.ops - {t};
  }

  /** The answer of the only finished call between two states. */
  ghost predicate Answers(s: State, r: State, a: nat, ok: bool) {
    |r.log| == |s.log| + 1 && r.log[..|s.log|] == s.log && r.log[|s.log|].addr == a && r.log[|s.log|].ok == ok
  }

  /** An add that runs alone returns true exactly when the table is below its capacity and, within the probe
      limit, a free slot comes before the address itself. Then the address takes the first free slot and is
      counted; otherwise nothing changes. */
  lemma AddAlone(c: Config, s: State, t: nat, a: nat)
    requires c.Valid() && |s.slots| == c.size && t !in s.ops && a > DELETED
    ensures var r := Alone(c, s.(ops := s.ops[t := AddCheck(a, |s.hist|)]), t);
            var ok := s.count < c.capacity && exists j :: FreeFrom(c, s.slots, a, 0, j);
            && Answers(s, r, a, ok) && r.log[|s.log|].Added? && r.ops == s.ops
            && (ok ==> r.count == s.count + 1 && exists j :: FreeFrom(c, s.slots, a, 0, j) && r.slots == s.slots[Pos(c, a, j) := a])
            && (!ok ==> r.count == s.count && r.slots == s.slots)
  {
    hide Pos, FreeFrom, Alone;
    var s0 := s.(ops := s.ops[t := AddCheck(a, |s.hist|)]);
    assert s0.ops - {t} == s.ops;
    Unroll(c, s0, t);
    if s.count < c.capacity {
      var s1 := StepOf(c, s0, t);
      assert s1.ops - {t} == s.ops;
      AddFrom(c, s1, t, 0);
    }
  }

  lemma Unroll(c: Config, s: State, t: nat)
    requires c.Valid() && |s.slots| == c.size && t in s.ops
    ensures var s1 := StepOf(c, s, t); Alone(c, s, t) == if t in s1.ops then Alone(c, s1, t) else s1
  {
  }

  lemma {:induction false} FirstFree(c: Config, slots: seq<nat>, a: nat, k: nat)
    requires c.Valid() && |slots| == c.size && a !in slots && k < MAX_PROBE && slots[Pos(c, a, k)] <= DELETED
    ensures exists j :: FreeFrom(c, slots, a, 0, j)
    decreases k
  {
    hide Pos;
    if i :| 0 <= i < k && slots[Pos(c, a, i)] <= DELETED {
      FirstFree(c, slots, a, i);
    } else {
      assert FreeFrom(c, slots, a, 0, k);
    }
  }

  /** So an absent address is added whenever there is room in the count and on its path. */
  lemma AbsentIsAdded(c: Config, s: State, t: nat, a: nat)
    requires c.Valid() && |s.slots| == c.size && t !in s.ops && a > DELETED && a !in s.slots
    ensures Answers(s, Alone(c, s.(ops := s.ops[t := AddCheck(a, |s.hist|)]), t), a,
                    s.count < c.capacity && exists k :: 0 <= k < 64 && s.slots[Pos(c, a, k)] <= DELETED)
  {
    hide Pos, Alone;
    AddAlone(c, s, t, a);
    if k :| 0 <= k < 64 && s.slots[Pos(c, a, k)] <= DELETED { FirstFree(c, s.slots, a, k); }
    if j: nat :| FreeFrom(c, s.slots, a, 0, j) { assert 0 <= j < 64 && s.slots[Pos(c, a, j)] <= DELETED; }
  }

  /** Probe `j` is the first from `k` on that meets the address, and none before meets an empty slot. */
  ghost predicate HeldFrom(c: Config, slots: seq<nat>, a: nat, k: nat, j: nat)
    requires c.Valid() && |slots| == c.size
  {
    && k <= j < MAX_PROBE && slots[Pos(c, a, j)] == a
    && forall i :: k <= i < j ==> slots[Pos(c, a, i)] != EMPTY && slots[Pos(c, a, i)] != a
  }

  ghost predicate IsHeld(c: Config, slots: seq<nat>, a: nat, k: nat)
    requires c.Valid() && |slots| == c.size
  {
    exists j :: HeldFrom(c, slots, a, k, j)
  }

  lemma {:induction false} RemoveFrom(c: Config, s: State, t: nat, k: nat)
    requires c.Valid() && |s.slots| == c.size && t in s.ops && s.ops[t] == RemoveLoad(s.ops[t].addr, |s.hist|, k)
    requires k <= MAX_PROBE && s.ops[t].addr > DELETED
    ensures var a, r := s.ops[t].addr, Alone(c, s, t);
            && r.ops == s.ops - {t}
            && (forall j :: HeldFrom(c, s.slots, a, k, j) ==>
                  && r.slots == s.slots[Pos(c, a, j) := DELETED] && r.count == s.count - 1
                  && r.log == s.log + [Removed(a, true, |s.hist|, |s.hist| + 1, |s.hist|)])
            && (!IsHeld(c, s.slots, a, k) ==>
                  && r.slots == s.slots && r.count == s.count
                  && r.log == s.log + [Removed(a, false, |s.hist|, |s.hist|, 0)])
    decreases MAX_PROBE - k
  {
    hide Pos, HeldFrom, IsHeld, Alone;
    var a := s.ops[t].addr;
    Unroll(c, s, t);
    HeldHere(c, s.slots, a, k);
    if k < MAX_PROBE && s.slots[Pos(c, a, k)] == a {
      DeleteAlone(c, s, t, k);
    } else if k < MAX_PROBE && s.slots[Pos(c, a, k)] != EMPTY {
      var s1 := StepOf(c, s, t);
      RemoveFrom(c, s1, t, k + 1);
      assert s1.ops - {t} == s.ops - {t};
    }
  }

  lemma HeldHere(c: Config, slots: seq<nat>, a: nat, k: nat)
    requires c.Valid() && |slots| == c.size
    ensures k >= MAX_PROBE ==> !IsHeld(c, slots, a, k)
    ensures k < MAX_PROBE && slots[Pos(c, a, k)] == a ==>
              IsHeld(c, slots, a, k) && forall j :: HeldFrom(c, slots, a, k, j) ==> j == k
    ensures k < MAX_PROBE && slots[Pos(c, a, k)] == EMPTY != a ==> !IsHeld(c, slots, a, k)
    ensures k < MAX_PROBE && slots[Pos(c, a, k)] != EMPTY && slots[Pos(c, a, k)] != a ==>
              (IsHeld(c, slots, a, k) <==> IsHeld(c, slots, a, k + 1))
              && forall j :: HeldFrom(c, slots, a, k, j) ==> HeldFrom(c, slots, a, k + 1, j)
    ensures !IsHeld(c, slots, a, k) ==> forall j :: !HeldFrom(c, slots, a, k, j)
  {
    hide Pos;
    if k < MAX_PROBE && slots[Pos(c, a, k)] == a { assert HeldFrom(c, slots, a, k, k); }
    var n := k + 1;
    if k < MAX_PROBE && slots[Pos(c, a, k)] != EMPTY && slots[Pos(c, a, k)] != a {
      if j :| HeldFrom(c, slots, a, n, j) { assert HeldFrom(c, slots, a, k, j); }
      if j :| HeldFrom(c, slots, a, k, j) { assert HeldFrom(c, slots, a, n, j); }
    }
  }

  lemma DeleteAlone(c: Config, s: State, t: nat, k: nat)
    requires c.Valid() && |s.slots| == c.size && t in s.ops && s.ops[t] == RemoveLoad(s.ops[t].addr, |s.hist|, k)
    requires k < MAX_PROBE && s.slots[Pos(c, s.ops[t].addr, k)] == s.ops[t].addr > DELETED
    ensures var a, r := s.ops[t].addr, Alone(c, s, t);
            && r.ops == s.ops - {t} && r.slots == s.slots[Pos(c, a, k) := DELETED] && r.count == s.count - 1
            && r.log == s.log + [Removed(a, true, |s.hist|, |s.hist| + 1, |s.hist|)]
  {
    hide Pos;
    var s1 := StepOf(c, s, t);
    var s2 := StepOf(c, s1, t);
    var s3 := StepOf(c, s2, t);
    assert Alone(c, s2, t) == s3 && Alone(c, s1, t) == s3 && Alone(c, s, t) == s3;
    assert s3.ops == s.ops - {t};
  }

  lemma {:induction false} FirstHeld(c: Config, slots: seq<nat>, a: nat, k: nat)
    requires c.Valid() && |slots| == c.size && k < MAX_PROBE && Found(c, slots, a, k)
    ensures exists j :: HeldFrom(c, slots, a, 0, j)
    decreases k
  {
    hide Pos;
    if i :| 0 <= i < k && slots[Pos(c, a, i)] == a {
      FirstHeld(c, slots, a, i);
    } else {
      assert HeldFrom(c, slots, a, 0, k);
    }
  }

  /** A removal that runs alone, in any state of any run, returns true exactly when the address is in the
      table. Then one slot that held it becomes a tombstone and is no longer counted; otherwise nothing
      changes. */
  lemma RemoveAlone(c: Config, s: State, t: nat, a: nat)
    requires c.Valid() && Inv(c, s) && t !in s.ops && a > DELETED
    ensures |s.slots| == c.size
    ensures var r := Alone(c, s.(ops := s.ops[t := RemoveLoad(a, |s.hist|, 0)]), t);
            && Answers(s, r, a, a in s.slots) && r.log[|s.log|].Removed? && r.ops == s.ops
            && (a in s.slots ==> r.count == s.count - 1 && exists x :: 0 <= x < |s.slots| && s.slots[x] == a && r.slots == s.slots[x := DELETED])
            && (a !in s.slots ==> r.count == s.count && r.slots == s.slots)
  {
    hide Pos, HeldFrom, Alone, CopiesOk, OpsOk, CountOk, LogOk, OwnsOk, AllOwned, Reachable;
    var s0 := s.(ops := s.ops[t := RemoveLoad(a, |s.hist|, 0)]);
    assert s0.ops - {t} == s.ops;
    RemoveFrom(c, s0, t, 0);
    if a in s.slots {
      PresentFound(c, s.slots, a);
      var k :| 0 <= k < MAX_PROBE && Found(c, s.slots, a, k);
      FirstHeld(c, s.slots, a, k);
      var j :| HeldFrom(c, s.slots, a, 0, j);
      HeldAt(c, s.slots, a, j);
    } else if j :| HeldFrom(c, s.slots, a, 0, j) {
      HeldAt(c, s.slots, a, j);
    }
  }

  lemma HeldAt(c: Config, slots: seq<nat>, a: nat, j: nat)
    requires c.Valid() && |slots| == c.size && HeldFrom(c, slots, a, 0, j)
    ensures slots[Pos(c, a, j)] == a
  {
  }

  // ----- why an add is refused -----

  /** The slot of probe `j` was occupied at some moment between two states of a run. */
  ghost predicate WasOccupied(c: Config, ss: seq<State>, lo: nat, hi: nat, a: nat, j: nat)
    requires c.Valid() && lo <= hi < |ss| && forall m :: lo <= m <= hi ==> |ss[m].slots| == c.size
  {
    exists m :: lo <= m <= hi && ss[m].slots[Pos(c, a, j)] > DELETED
  }

  /** What an add begun at state `lo` knows of the probes it has made. */
  ghost predicate Tried(c: Config, ss: seq<State>, lo: nat, hi: nat, op: Op)
    requires c.Valid() && lo <= hi < |ss| && forall m :: lo <= m <= hi ==> |ss[m].slots| == c.size
  {
    match op
    case AddLoad(a, _, k) => forall j :: 0 <= j < k ==> WasOccupied(c, ss, lo, hi, a, j)
    case AddCas(a, _, k, seen) =>
      && (forall j :: 0 <= j < k ==> WasOccupied(c, ss, lo, hi, a, j))
      && (ss[hi].slots[Pos(c, a, k)] == seen || WasOccupied(c, ss, lo, hi, a, k))
    case AddReload(a, _, k) => forall j :: 0 <= j <= k ==> WasOccupied(c, ss, lo, hi, a, j)
    case _ => true
  }

  /** Thread `t` begins an add of `a` after state `lo` and is still at it at state `hi`. */
  ghost predicate AddGoesOn(ss: seq<State>, lo: nat, hi: nat, t: nat, a: nat)
    requires lo < hi < |ss|
  {
    && t !in ss[lo].ops
    && forall m :: lo < m <= hi ==> t in ss[m].ops && ss[m].ops[t].addr == a && (Adding(ss[m].ops[t]) || ss[m].ops[t].AddCount?)
  }

  lemma {:induction false} SlotCounts(c: Config, ss: seq<State>, i: nat)
    requires c.Valid() && Run(c, ss) && i < |ss|
    ensures |ss[i].slots| == c.size
  {
    hide Run, Reachable, CopiesOk, OpsOk, CountOk, LogOk, OwnsOk, AllOwned;
    RunInv(c, ss, i);
  }

  /** A slot changes only by becoming occupied, or from being so. */
  lemma SlotChanges(c: Config, s: State, s': State, x: nat)
    requires c.Valid() && Inv(c, s) && Next(c, s, s') && x < |s.slots|
    ensures |s'.slots| == |s.slots| && (s'.slots[x] == s.slots[x] || s.slots[x] > DELETED || s'.slots[x] > DELETED)
  {
    hide Reachable, CopiesOk, CountOk, LogOk, OwnsOk, AllOwned, Pos;
    var step :| NextStep(c, s, s', step);
    if step.Access? { assert OpOk(c, s.slots, s.hist, s.ops[step.t]); }
  }

  lemma {:induction false} StillTried(c: Config, ss: seq<State>, lo: nat, hi: nat, t: nat, a: nat)
    requires c.Valid() && Run(c, ss) && lo < hi < |ss| && AddGoesOn(ss, lo, hi, t, a)
    requires forall m :: lo <= m <= hi ==> |ss[m].slots| == c.size
    ensures Tried(c, ss, lo, hi, ss[hi].ops[t])
    decreases hi
  {
    hide Run, Inv, Tried, Next;
    RunInv(c, ss, hi - 1);
    StepAt(c, ss, hi - 1);
    if hi == lo + 1 {
      AddStarts(c, ss, lo, t);
    } else {
      StillTried(c, ss, lo, hi - 1, t, a);
      TriedNext(c, ss, lo, hi, t);
    }
  }

  lemma StepAt(c: Config, ss: seq<State>, i: nat)
    requires c.Valid() && Run(c, ss) && i + 1 < |ss|
    ensures Next(c, ss[i], ss[i + 1])
  {
    hide Init, Next;
  }

  lemma AddStarts(c: Config, ss: seq<State>, lo: nat, t: nat)
    requires c.Valid() && lo + 1 < |ss| && Next(c, ss[lo], ss[lo + 1]) && t !in ss[lo].ops && t in ss[lo + 1].ops
    requires |ss[lo].slots| == |ss[lo + 1].slots| == c.size && !ss[lo + 1].ops[t].RemoveLoad?
    ensures Tried(c, ss, lo, lo + 1, ss[lo + 1].ops[t])
  {
    hide Pos;
  }

  lemma TriedNext(c: Config, ss: seq<State>, lo: nat, hi: nat, t: nat)
    requires c.Valid() && lo < hi - 1 && hi < |ss| && Inv(c, ss[hi - 1]) && Next(c, ss[hi - 1], ss[hi])
    requires forall m :: lo <= m <= hi ==> |ss[m].slots| == c.size
    requires t in ss[hi - 1].ops && t in ss[hi].ops && Tried(c, ss, lo, hi - 1, ss[hi - 1].ops[t])
    ensures Tried(c, ss, lo, hi, ss[hi].ops[t])
  {
    hide Inv, Tried, NextStep, StepOf;
    var s, s', op := ss[hi - 1], ss[hi], ss[hi - 1].ops[t];
    var step :| NextStep(c, s, s', step);
    TriedLonger(c, ss, lo, hi, op);
    OthersStayPut(c, s, s', step, t);
    if step == Access(t) { TriedMoves(c, ss, lo, hi, t); }
  }

  lemma OthersStayPut(c: Config, s: State, s': State, step: Step, t: nat)
    requires c.Valid() && |s.slots| == c.size && NextStep(c, s, s', step) && t in s.ops && t in s'.ops
    ensures if step == Access(t) then s' == StepOf(c, s, t) else s'.ops[t] == s.ops[t]
  {
    hide Pos;
  }

  /** What was tried stays tried when others move. */
  lemma TriedLonger(c: Config, ss: seq<State>, lo: nat, hi: nat, op: Op)
    requires c.Valid() && lo < hi - 1 && hi < |ss| && Inv(c, ss[hi - 1]) && Next(c, ss[hi - 1], ss[hi])
    requires forall m :: lo <= m <= hi ==> |ss[m].slots| == c.size
    requires Tried(c, ss, lo, hi - 1, op)
    ensures Tried(c, ss, lo, hi, op)
  {
    hide Inv, Next, Pos;
    if op.AddCas? { SlotChanges(c, ss[hi - 1], ss[hi], Pos(c, op.addr, op.k)); }
    assert forall j :: WasOccupied(c, ss, lo, hi - 1, op.addr, j) ==> WasOccupied(c, ss, lo, hi, op.addr, j);
  }

  lemma TriedMoves(c: Config, ss: seq<State>, lo: nat, hi: nat, t: nat)
    requires c.Valid() && lo < hi - 1 && hi < |ss| && forall m :: lo <= m <= hi ==> |ss[m].slots| == c.size
    requires t in ss[hi - 1].ops && t in ss[hi].ops && ss[hi] == StepOf(c, ss[hi - 1], t)
    requires Tried(c, ss, lo, hi - 1, ss[hi - 1].ops[t]) && Tried(c, ss, lo, hi, ss[hi - 1].ops[t])
    ensures Tried(c, ss, lo, hi, ss[hi].ops[t])
  {
    hide Pos;
    var op := ss[hi - 1].ops[t];
    assert op.AddLoad? && ss[hi - 1].slots[Pos(c, op.addr, op.k)] > DELETED ==> WasOccupied(c, ss, lo, hi, op.addr, op.k);
  }

  /** In every interleaving, an add is refused only for a reason: the count has reached the capacity, the
      address is in the table, or each of its 64 probes met a slot that was occupied while it ran. */
  lemma RefusedForAReason(c: Config, ss: seq<State>, lo: nat, hi: nat, t: nat, a: nat)
    requires c.Valid() && Run(c, ss) && lo < hi && hi + 1 < |ss| && AddGoesOn(ss, lo, hi, t, a)
    requires ss[hi + 1] == StepOfRun(c, ss, hi, t) && t !in ss[hi + 1].ops
    ensures forall m :: lo <= m <= hi ==> |ss[m].slots| == c.size
    ensures |ss[hi + 1].log| == |ss[hi].log| + 1
    ensures !ss[hi + 1].log[|ss[hi].log|].ok ==>
              || ss[hi].count >= c.capacity || a in ss[hi].slots
              || forall j :: 0 <= j < 64 ==> WasOccupied(c, ss, lo, hi, a, j)
  {
    forall m | lo <= m <= hi
      ensures |ss[m].slots| == c.size
    {
      SlotCounts(c, ss, m);
    }
    StillTried(c, ss, lo, hi, t, a);
    hide Run, Pos, WasOccupied;
    var op := ss[hi].ops[t];
  }

  /** The next access of a thread at some state of a run. */
  ghost function StepOfRun(c: Config, ss: seq<State>, i: nat, t: nat): State
    requires c.Valid() && i < |ss| && t in ss[i].ops
  {
    if |ss[i].slots| == c.size then StepOf(c, ss[i], t) else ss[i]
  }

  // ----- clients whose operations on one address do not overlap and who never add an address twice -----

  ghost predicate Untouched(s: State, a: nat) {
    forall t :: t in s.ops ==> s.ops[t].addr != a
  }

  ghost predicate Disciplined(s: State, step: Step) {
    match step
    case StartAdd(t, a) => Untouched(s, a) && a !in s.slots
    case StartRemove(t, a) => Untouched(s, a)
    case Access(t) => true
  }

  predicate Adding(op: Op) { op.AddCheck? || op.AddLoad? || op.AddCas? || op.AddReload? }
  predicate Removing(op: Op) { op.RemoveLoad? || op.RemoveCas? }

  /** Nothing happened to an address since some effect. */
  ghost predicate Quiet(hist: seq<Effect>, a: nat, since: nat) {
    forall d :: since <= d < |hist| ==> hist[d].addr != a
  }

  ghost predicate OpAlone(slots: seq<nat>, hist: seq<Effect>, op: Op) {
    && (Adding(op) ==> op.addr !in slots)
    && (Removing(op) ==> op.since <= |hist| && Quiet(hist, op.addr, op.since))
    && (op.RemoveCount? ==> op.since <= |hist| && Balance(hist[..op.since], op.addr) > 0)
  }

  ghost predicate Single(slots: seq<nat>) {
    forall i, j :: 0 <= i < j < |slots| && slots[i] == slots[j] ==> slots[i] <= DELETED
  }

  ghost predicate ExactLog(hist: seq<Effect>, log: seq<Done>) {
    forall x :: 0 <= x < |log| && log[x].Removed? ==>
      log[x].since <= |hist| && (log[x].ok <==> Balance(hist[..log[x].since], log[x].addr) > 0)
  }

  ghost predicate Apart(ops: map<nat, Op>) {
    forall t, u :: t in ops && u in ops && t != u ==> ops[t].addr != ops[u].addr
  }

  ghost predicate AloneInv(c: Config, s: State)
    requires c.Valid()
  {
    && Inv(c, s) && Apart(s.ops) && Single(s.slots) && ExactLog(s.hist, s.log)
    && forall t :: t in s.ops ==> OpAlone(s.slots, s.hist, s.ops[t])
  }

  lemma {:induction false} QuietBalance(hist: seq<Effect>, a: nat, since: nat)
    requires since <= |hist| && Quiet(hist, a, since)
    ensures Balance(hist, a) == Balance(hist[..since], a)
    decreases |hist|
  {
    if since == |hist| {
      assert hist[..since] == hist;
    } else {
      var rest := hist[..|hist| - 1];
      assert rest[..since] == hist[..since];
      QuietBalance(rest, a, since);
    }
  }

  /** A removal under way will find its address, or not, as the slots say now. */
  lemma QuietPresent(c: Config, s: State, t: nat)
    requires c.Valid() && AloneInv(c, s) && t in s.ops && Removing(s.ops[t])
    ensures s.ops[t].addr in s.slots <==> Balance(s.hist[..s.ops[t].since], s.ops[t].addr) > 0
    ensures s.ops[t].addr in s.slots <==> Steady(s.hist, s.ops[t].addr, s.ops[t].since, |s.hist|)
  {
    hide Reachable, CountOk, LogOk, OwnsOk, AllOwned, Balance;
    var a, since := s.ops[t].addr, s.ops[t].since;
    assert OpOk(c, s.slots, s.hist, s.ops[t]) && OpAlone(s.slots, s.hist, s.ops[t]);
    QuietBalance(s.hist, a, since);
    assert Copies(s.slots, a) == Balance(s.hist, a);
  }

  /** A removal by such a client that ends without deleting was asked for an address that is not there. */
  lemma MissIsAbsent(c: Config, s: State, t: nat)
    requires c.Valid() && AloneInv(c, s) && t in s.ops && Removing(s.ops[t]) && t !in StepOf(c, s, t).ops
    ensures s.ops[t].addr !in s.slots
    ensures StepOf(c, s, t).log == s.log + [Failed(s, s.ops[t].addr, s.ops[t].since)]
  {
    hide Reachable, CopiesOk, CountOk, LogOk, OwnsOk, AllOwned, Balance, Steady, Pos;
    QuietPresent(c, s, t);
    assert OpOk(c, s.slots, s.hist, s.ops[t]);
  }

  lemma AloneStart(c: Config, s: State, s': State, step: Step)
    requires c.Valid() && AloneInv(c, s) && Inv(c, s') && NextStep(c, s, s', step) && Disciplined(s, step) && !step.Access?
    ensures AloneInv(c, s')
  {
    hide Inv, Balance;
  }

  lemma AloneMove(c: Config, s: State, t: nat)
    requires c.Valid() && AloneInv(c, s) && t in s.ops && t in StepOf(c, s, t).ops && Inv(c, StepOf(c, s, t))
    requires StepOf(c, s, t).slots == s.slots && StepOf(c, s, t).hist == s.hist
    ensures AloneInv(c, StepOf(c, s, t))
  {
    hide Reachable, CopiesOk, CountOk, LogOk, OwnsOk, AllOwned, OpsOk, Balance, Pos, Quiet;
    assert OpAlone(s.slots, s.hist, s.ops[t]);
  }

  lemma AloneEnd(c: Config, s: State, t: nat)
    requires c.Valid() && AloneInv(c, s) && t in s.ops && t !in StepOf(c, s, t).ops && Inv(c, StepOf(c, s, t))
    ensures AloneInv(c, StepOf(c, s, t))
  {
    hide Reachable, CopiesOk, CountOk, LogOk, OwnsOk, AllOwned, OpsOk, Balance, Pos, Quiet;
    assert OpAlone(s.slots, s.hist, s.ops[t]);
    if Removing(s.ops[t]) {
      MissIsAbsent(c, s, t);
      QuietPresent(c, s, t);
    }
  }

  lemma AloneEffect(c: Config, s: State, t: nat)
    requires c.Valid() && AloneInv(c, s) && (Claims(c, s, t) || Deletes(c, s, t)) && Inv(c, StepOf(c, s, t))
    ensures AloneInv(c, StepOf(c, s, t))
  {
    hide Inv, Balance, Pos;
    SlotCount(c, s);
    var s', a := StepOf(c, s, t), s.ops[t].addr;
    EffectSlots(c, s, t);
    assert OpAlone(s.slots, s.hist, s.ops[t]);
    if Deletes(c, s, t) { QuietPresent(c, s, t); }
    assert forall n: nat :: n <= |s.hist| ==> s'.hist[..n] == s.hist[..n];
    forall u | u in s'.ops
      ensures OpAlone(s'.slots, s'.hist, s'.ops[u])
    {
      if u != t {
        assert OpAlone(s.slots, s.hist, s.ops[u]) && s.ops[u].addr != a && s.ops[u].addr > DELETED;
        assert s'.hist[|s.hist|].addr == a;
      }
    }
  }

  lemma SlotCount(c: Config, s: State)
    requires c.Valid() && Inv(c, s)
    ensures |s.slots| == c.size && forall t :: t in s.ops ==> s.ops[t].addr > DELETED
  {
    assert forall t :: t in s.ops ==> OpOk(c, s.slots, s.hist, s.ops[t]);
  }

  /** Which addresses the slots hold after a claim or a deletion. */
  lemma EffectSlots(c: Config, s: State, t: nat)
    requires c.Valid() && AloneInv(c, s) && (Claims(c, s, t) || Deletes(c, s, t))
    ensures var s', a := StepOf(c, s, t), s.ops[t].addr;
            && a > DELETED && Single(s'.slots)
            && (Claims(c, s, t) ==> a !in s.slots && forall b: nat :: b > DELETED ==> (b in s'.slots <==> b in s.slots || b == a))
            && (Deletes(c, s, t) ==> a in s.slots && forall b: nat :: b > DELETED ==> (b in s'.slots <==> b in s.slots && b != a))
  {
    hide Reachable, CopiesOk, CountOk, LogOk, OwnsOk, AllOwned, OpsOk, ExactLog, Balance, Pos, Quiet;
    var s', a, i := StepOf(c, s, t), s.ops[t].addr, Pos(c, s.ops[t].addr, s.ops[t].k);
    OwnOp(c, s, t);
    assert OpAlone(s.slots, s.hist, s.ops[t]);
    assert forall x :: 0 <= x < |s.slots| && x != i ==> s'.slots[x] == s.slots[x];
    assert s'.slots[i] == if Claims(c, s, t) then a else DELETED;
    forall b: nat | b > DELETED && b in s.slots && b != a
      ensures b in s'.slots
    {
      var x :| 0 <= x < |s.slots| && s.slots[x] == b;
      assert s'.slots[x] == b;
    }
  }

  /** How an access moves its own thread's operation, and no other. */
  lemma Progress(c: Config, s: State, t: nat)
    requires c.Valid() && |s.slots| == c.size && t in s.ops
    ensures var ops := StepOf(c, s, t).ops;
            && (forall u :: u != t ==> (u in ops <==> u in s.ops) && (u in s.ops ==> ops[u] == s.ops[u]))
            && (t in ops ==> ops[t].addr == s.ops[t].addr)
            && (Claims(c, s, t) ==> Adding(s.ops[t]) && t in ops && ops[t].AddCount?)
            && (Deletes(c, s, t) ==> Removing(s.ops[t]) && t in ops && ops[t].RemoveCount?)
            && (!Claims(c, s, t) && !Deletes(c, s, t) && t in ops ==>
                  (Adding(s.ops[t]) && Adding(ops[t])) || (Removing(s.ops[t]) && Removing(ops[t])))
  {
    hide Pos;
  }

  lemma EndsLogged(c: Config, s: State, t: nat)
    requires c.Valid() && |s.slots| == c.size && t in s.ops
    ensures t !in StepOf(c, s, t).ops ==> |StepOf(c, s, t).log| == |s.log| + 1
  {
    hide Pos;
  }

  /** An operation that ends answers whether it had its effect. */
  lemma AnswerIs(c: Config, s: State, t: nat)
    requires c.Valid() && |s.slots| == c.size && t in s.ops && t !in StepOf(c, s, t).ops
    ensures |StepOf(c, s, t).log| == |s.log| + 1 && (StepOf(c, s, t).log[|s.log|].ok <==> Owning(s.ops[t]))
  {
    hide Pos;
  }

  lemma NotBoth(c: Config, s: State, t: nat)
    requires c.Valid() && |s.slots| == c.size
    ensures !(Claims(c, s, t) && Deletes(c, s, t))
  {
  }

  lemma AloneNext(c: Config, s: State, s': State, step: Step)
    requires c.Valid() && AloneInv(c, s) && NextStep(c, s, s', step) && Disciplined(s, step)
    ensures AloneInv(c, s')
  {
    hide AloneInv, StepOf;
    assert Inv(c, s) && (step.Access? ==> |s.slots| == c.size) by { AloneIs(c, s); }
    NextInv(c, s, s');
    match step
    case Access(t) =>
      if t !in StepOf(c, s, t).ops {
        AloneEnd(c, s, t);
      } else if Claims(c, s, t) || Deletes(c, s, t) {
        AloneEffect(c, s, t);
      } else {
        NoEffect(c, s, t);
        AloneMove(c, s, t);
      }
    case _ => AloneStart(c, s, s', step);
  }

  lemma AloneIs(c: Config, s: State)
    requires c.Valid() && AloneInv(c, s)
    ensures Inv(c, s) && |s.slots| == c.size
  {
  }

  lemma NoEffect(c: Config, s: State, t: nat)
    requires c.Valid() && |s.slots| == c.size && t in s.ops && !Claims(c, s, t) && !Deletes(c, s, t)
    ensures StepOf(c, s, t).slots == s.slots && StepOf(c, s, t).hist == s.hist
  {
  }

  ghost predicate DisciplinedNext(c: Config, s: State, s': State)
    requires c.Valid()
  {
    exists step :: NextStep(c, s, s', step) && Disciplined(s, step)
  }

  ghost predicate DisciplinedRun(c: Config, ss: seq<State>)
    requires c.Valid()
  {
    && |ss| > 0 && Init(c, ss[0])
    && forall i, j :: 0 <= i < j < |ss| && j == i + 1 ==> DisciplinedNext(c, ss[i], ss[j])
  }

  lemma InitAlone(c: Config, s: State)
    requires c.Valid() && Init(c, s)
    ensures AloneInv(c, s)
  {
    hide Inv;
    InitInv(c, s);
  }

  lemma {:induction false} DisciplinedRunInv(c: Config, ss: seq<State>, i: nat)
    requires c.Valid() && DisciplinedRun(c, ss) && i < |ss|
    ensures AloneInv(c, ss[i])
  {
    hide AloneInv, Init, NextStep, Disciplined;
    if i == 0 {
      InitAlone(c, ss[0]);
    } else {
      DisciplinedRunInv(c, ss, i - 1);
      assert DisciplinedNext(c, ss[i - 1], ss[i]);
      var step :| NextStep(c, ss[i - 1], ss[i], step) && Disciplined(ss[i - 1], step);
      AloneNext(c, ss[i - 1], ss[i], step);
    }
  }

  /** For such clients a removal returns true exactly when the address was in the table when it began. */
  lemma RemoveFindsTracked(c: Config, ss: seq<State>, i: nat, x: nat)
    requires c.Valid() && DisciplinedRun(c, ss) && i < |ss| && x < |ss[i].log| && ss[i].log[x].Removed?
    ensures ss[i].log[x].since <= |ss[i].hist|
    ensures ss[i].log[x].ok <==> Balance(ss[i].hist[..ss[i].log[x].since], ss[i].log[x].addr) > 0
  {
    hide DisciplinedRun, Inv, Balance;
    DisciplinedRunInv(c, ss, i);
  }

  function AddressesIn(slots: seq<nat>): set<nat> { set a | a in slots && a > DELETED }

  lemma AddressesSnoc(slots: seq<nat>, a: nat)
    ensures AddressesIn(slots + [a]) == AddressesIn(slots) + (if a > DELETED then {a} else {})
    ensures Occupied(slots + [a]) == Occupied(slots) + (if a > DELETED then {|slots|} else {})
  {
    assert forall b :: b in slots + [a] <==> b in slots || b == a;
  }

  lemma LastIsSingle(slots: seq<nat>)
    requires Single(slots) && slots != []
    ensures slots[|slots| - 1] in slots[..|slots| - 1] ==> slots[|slots| - 1] <= DELETED
    ensures Single(slots[..|slots| - 1])
  {
  }

  lemma CountSnoc(slots: seq<nat>, a: nat)
    requires a in slots ==> a <= DELETED
    ensures |AddressesIn(slots + [a])| == |AddressesIn(slots)| + One(a > DELETED)
    ensures |Occupied(slots + [a])| == |Occupied(slots)| + One(a > DELETED)
  {
    AddressesSnoc(slots, a);
    assert a > DELETED ==> a !in AddressesIn(slots) && |slots| !in Occupied(slots);
    hide AddressesIn, Occupied;
  }

  lemma {:induction false} SingleCount(slots: seq<nat>)
    requires Single(slots)
    ensures |AddressesIn(slots)| == |Occupied(slots)|
  {
    if slots == [] {
      assert AddressesIn(slots) == {} && Occupied(slots) == {};
    } else {
      hide Single, AddressesIn, Occupied;
      var n := |slots| - 1;
      LastIsSingle(slots);
      SingleCount(slots[..n]);
      assert slots == slots[..n] + [slots[n]];
      CountSnoc(slots[..n], slots[n]);
    }
  }

  lemma CountAtRest(c: Config, s: State)
    requires c.Valid() && AloneInv(c, s) && s.ops == map[]
    ensures s.count == |AddressesIn(s.slots)|
  {
    hide Reachable, CopiesOk, OpsOk, LogOk, OwnsOk, AllOwned, ExactLog, Single;
    SingleCount(s.slots);
    assert Adders(map[]) == {} && Removers(map[]) == {};
  }

  /** For such clients each address sits in at most one slot, and at rest the count is their number. */
  lemma TrackedCount(c: Config, ss: seq<State>, i: nat)
    requires c.Valid() && DisciplinedRun(c, ss) && i < |ss|
    ensures Single(ss[i].slots)
    ensures ss[i].ops == map[] ==> ss[i].count == |AddressesIn(ss[i].slots)|
  {
    hide DisciplinedRun, Inv, ExactLog, Single;
    DisciplinedRunInv(c, ss, i);
    if ss[i].ops == map[] { CountAtRest(c, ss[i]); }
  }

  // ----- progress -----

  /** The table is wait-free. Whatever the other threads do: a thread can start an operation on any address, its
      next access is always possible, and each access brings it nearer to its end; 196 accesses are enough. */
  lemma WaitFree(c: Config, ss: seq<State>, i: nat, t: nat, a: nat)
    requires c.Valid() && Run(c, ss) && i < |ss| && a > 1
    ensures t !in ss[i].ops ==>
              && Next(c, ss[i], ss[i].(ops := ss[i].ops[t := AddCheck(a, |ss[i].hist|)]))
              && Next(c, ss[i], ss[i].(ops := ss[i].ops[t := RemoveLoad(a, |ss[i].hist|, 0)]))
    ensures t in ss[i].ops ==>
              exists s' :: Next(c, ss[i], s') && (t in s'.ops ==> Left(s'.ops[t]) < Left(ss[i].ops[t])) && Left(ss[i].ops[t]) <= 195
    ensures t in ss[i].ops ==> forall u, s' :: u != t && NextStep(c, ss[i], s', Access(u)) ==>
              t in s'.ops && s'.ops[t] == ss[i].ops[t]
  {
    hide Run, Inv, StepOf;
    RunInv(c, ss, i);
    var s := ss[i];
    assert |s.slots| == c.size by { SlotCount(c, s); }
    if t in s.ops {
      assert NextStep(c, s, StepOf(c, s, t), Access(t));
      AccessNearer(c, s, t);
      forall u, s' | u != t && NextStep(c, s, s', Access(u)) ensures t in s'.ops && s'.ops[t] == s.ops[t] {
        AccessNearer(c, s, u);
      }
    } else {
      assert NextStep(c, s, s.(ops := s.ops[t := AddCheck(a, |s.hist|)]), StartAdd(t, a));
      assert NextStep(c, s, s.(ops := s.ops[t := RemoveLoad(a, |s.hist|, 0)]), StartRemove(t, a));
    }
  }

  lemma AccessNearer(c: Config, s: State, t: nat)
    requires c.Valid() && |s.slots| == c.size && t in s.ops
    ensures var s' := StepOf(c, s, t);
            && (t in s'.ops ==> Left(s'.ops[t]) < Left(s.ops[t]))
            && forall u :: u in s.ops && u != t ==> u in s'.ops && s'.ops[u] == s.ops[u]
    ensures Left(s.ops[t]) <= 195
  {
  }
}
