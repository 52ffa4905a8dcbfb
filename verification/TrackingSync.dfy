/** Library and profiler together: the set of addresses the library tracks, the events it queues and
    the live-heap table the profiler builds from them.

    Any number of threads allocate and free. Adding to the set, removing from it, writing an event and
    looking at the tracking flag are separate steps. A set operation takes effect in one step here;
    `EndToEnd` replaces it by the steps of `AddressTable`, and the queue by the ring of `MpscRing`.
    The program tells the tracker of a free before it releases the memory, so no two operations on an
    address overlap. The tracker may be shut down at any moment, by too many failures or from outside:
    first tracking stops, then the instance goes away. The profiler may clear its table at any moment,
    as it does for a process without a sample during a whole cycle, on exec and on fork. */
module TrackingSync {
  import opened LiveHeap

  /** How pushing an event went. The ring can be full (`Lost`) or locked too long (also `Lost`); the
      event can be in the ring while waking the profiler failed (`NotifyFailed`). */
  datatype Push = Queued | NotifyFailed | Lost

  /** `added`: this operation put the address in the set. `sampled`: the address in the event, 0 for none. */
  datatype Op =
    | AllocAdd(addr: nat, claimed: bool)             // adding to the set; whether that has taken effect
    | AllocPush(addr: nat, added: bool, sampled: nat)
    | AllocSettle(addr: nat, added: bool, sampled: nat, push: Push)
    | Undo(addr: nat, lost: bool)                    // taking it out of the set again
    | FreeRemove(addr: nat, taken: bool)             // taking a freed address out of the set; likewise
    | FreePush(addr: nat)                            // taken out, event not yet pushed
    | Returning(addr: nat)                           // done, about to return to the program

  datatype State = State(
    active: bool,         // the tracker instance is published
    tracking: bool,       // deallocations are tracked
    tracked: set<nat>,    // the library's set
    queue: seq<Event>,    // events in the ring
    table: Table,         // the profiler's table
    unmatched: nat,       // deallocations the profiler could not match
    ops: map<nat, Op>,    // by thread
    live: set<nat>,       // addresses the program holds
    // history
    lostFrees: nat,       // deallocation events that did not fit in the ring
    notifyFailed: bool,   // some wakeup failed
    orphans: set<nat>,    // added, then the event was lost and tracking was off when that was noticed
    strays: set<nat>,     // announced without being added, because tracking was off
    forgotten: set<nat>,  // announced to the profiler, but cleared or never recorded there
    lateFrees: nat)       // deallocations delivered for forgotten addresses

  predicate Init(s: State) {
    && s.active && s.tracking && s.tracked == {} && s.queue == []
    && s.table == Table(map[], map[]) && s.unmatched == 0 && s.ops == map[]
    && s.live == {} && s.lostFrees == 0 && !s.notifyFailed && s.orphans == {} && s.strays == {}
    && s.forgotten == {} && s.lateFrees == 0
  }

  ghost predicate Untouched(s: State, a: nat) {
    forall t :: t in s.ops ==> s.ops[t].addr != a
  }

  /** A sampled allocation: go on to add the address if tracking, else leave it in the event. */
  ghost predicate AllocStep(s: State, s': State, t: nat, a: nat) {
    && t !in s.ops && a > 1 && a !in s.live && Untouched(s, a) && s.active
    && s' == s.(live := s.live + {a},
                ops := s.ops[t := if s.tracking then AllocAdd(a, false) else AllocPush(a, false, a)])
  }

  ghost predicate ClaimStep(s: State, s': State, t: nat) {
    && t in s.ops && s.ops[t].AllocAdd? && !s.ops[t].claimed && s.ops[t].addr !in s.tracked
    && s' == s.(tracked := s.tracked + {s.ops[t].addr}, ops := s.ops[t := AllocAdd(s.ops[t].addr, true)])
  }

  /** The set answers whether it has taken the address; it may refuse when it is full. A refused address is
      not put in the event. */
  ghost predicate AddedStep(s: State, s': State, t: nat, ok: bool) {
    && t in s.ops && s.ops[t].AllocAdd? && ok == s.ops[t].claimed
    && var a := s.ops[t].addr;
    && s' == s.(ops := s.ops[t := AllocPush(a, ok, if ok then a else 0)])
  }

  /** An allocation that is not sampled, or made after the tracker is gone. */
  ghost predicate PlainAllocStep(s: State, s': State, a: nat) {
    && a > 1 && a !in s.live && Untouched(s, a)
    && s' == s.(live := s.live + {a})
  }

  ghost predicate AllocPushStep(s: State, s': State, t: nat, push: Push, stack: Stack, value: int) {
    && t in s.ops && s.ops[t].AllocPush? && value > 0
    && var AllocPush(a, added, sampled) := s.ops[t];
    && s' == s.(ops := s.ops[t := AllocSettle(a, added, sampled, push)],
                queue := if push == Lost then s.queue else s.queue + [Alloc(stack, sampled, value)],
                notifyFailed := s.notifyFailed || push == NotifyFailed)
  }

  /** Go on to undo the tracking of an allocation whose event did not go through, unless tracking is off
      by now. */
  ghost predicate AllocSettleStep(s: State, s': State, t: nat) {
    && t in s.ops && s.ops[t].AllocSettle?
    && var AllocSettle(a, added, sampled, push) := s.ops[t];
    && s' == if push != Queued && s.tracking && sampled != 0
             then s.(ops := s.ops[t := Undo(a, push == Lost)])
             else s.(ops := s.ops[t := Returning(a)],
                     orphans := if added && push == Lost then s.orphans + {a} else s.orphans,
                     strays := if !added && sampled != 0 && push != Lost then s.strays + {a} else s.strays)
  }

  ghost predicate UndoneStep(s: State, s': State, t: nat) {
    && t in s.ops && s.ops[t].Undo?
    && s' == s.(tracked := s.tracked - {s.ops[t].addr}, ops := s.ops[t := Returning(s.ops[t].addr)])
  }

  /** A free: go on to take the address out of the set if tracking. */
  ghost predicate FreeStep(s: State, s': State, t: nat, a: nat) {
    && t !in s.ops && a > 1 && a in s.live && Untouched(s, a)
    && s' == s.(live := s.live - {a}, ops := if s.active && s.tracking then s.ops[t := FreeRemove(a, false)] else s.ops)
  }

  ghost predicate TakeStep(s: State, s': State, t: nat) {
    && t in s.ops && s.ops[t].FreeRemove? && !s.ops[t].taken && s.ops[t].addr in s.tracked
    && s' == s.(tracked := s.tracked - {s.ops[t].addr}, ops := s.ops[t := FreeRemove(s.ops[t].addr, true)])
  }

  /** The set answers whether it held the address. Only then the free is announced. */
  ghost predicate RemovedStep(s: State, s': State, t: nat, found: bool) {
    && t in s.ops && s.ops[t].FreeRemove? && found == s.ops[t].taken
    && var a := s.ops[t].addr;
    && (!found ==> a !in s.tracked)
    && s' == s.(ops := s.ops[t := if found then FreePush(a) else Returning(a)])
  }

  ghost predicate FreePushStep(s: State, s': State, t: nat, push: Push) {
    && t in s.ops && s.ops[t].FreePush?
    && s' == s.(ops := s.ops[t := Returning(s.ops[t].addr)],
                queue := if push == Lost then s.queue else s.queue + [Dealloc(s.ops[t].addr)],
                lostFrees := s.lostFrees + (if push == Lost then 1 else 0),
                notifyFailed := s.notifyFailed || push == NotifyFailed)
  }

  ghost predicate ReturnStep(s: State, s': State, t: nat) {
    t in s.ops && s.ops[t].Returning? && s' == s.(ops := s.ops - {t})
  }

  ghost predicate StopTrackingStep(s: State, s': State) { s' == s.(tracking := false) }
  ghost predicate StopInstanceStep(s: State, s': State) { !s.tracking && s' == s.(active := false) }

  /** The profiler acts on an event; a null address is not accounted, and neither is an allocation
      whose stack could not be unwound. */
  function Processed(s: State, e: Event): State {
    if e.Alloc? && e.addr == 0 then s
    else
      var table := Apply(s.table, e);
      s.(table := table,
         unmatched := s.unmatched + (if e.Dealloc? && !Unregister(s.table, e.addr).1 then 1 else 0),
         lateFrees := s.lateFrees + (if e.Dealloc? && e.addr in s.forgotten then 1 else 0),
         forgotten := if e.Alloc? && e.addr !in table.addrs then s.forgotten + {e.addr} else s.forgotten - {e.addr})
  }

  /** The profiler takes the next event. */
  ghost predicate DeliverStep(s: State, s': State) {
    s.queue != [] && s' == Processed(s, s.queue[0]).(queue := s.queue[1..])
  }

  /** The profiler forgets the process. */
  ghost predicate ClearStep(s: State, s': State) {
    s' == s.(table := Table(map[], map[]), forgotten := s.forgotten + s.table.addrs.Keys)
  }

  datatype Step =
    | AllocBegins(t: nat, a: nat)
    | Claims(t: nat)
    | AddAnswers(t: nat, ok: bool)
    | PlainAlloc(a: nat)
    | AllocPushes(t: nat, push: Push, stack: Stack, value: int)
    | AllocSettles(t: nat)
    | Undoes(t: nat)
    | FreeBegins(t: nat, a: nat)
    | Takes(t: nat)
    | RemoveAnswers(t: nat, found: bool)
    | FreePushes(t: nat, push: Push)
    | Returns(t: nat)
    | StopTracking
    | StopInstance
    | Deliver
    | Clear

  ghost predicate NextStep(s: State, s': State, step: Step) {
    match step
    case AllocBegins(t, a) => AllocStep(s, s', t, a)
    case Claims(t) => ClaimStep(s, s', t)
    case AddAnswers(t, ok) => AddedStep(s, s', t, ok)
    case PlainAlloc(a) => PlainAllocStep(s, s', a)
    case AllocPushes(t, push, stack, value) => AllocPushStep(s, s', t, push, stack, value)
    case AllocSettles(t) => AllocSettleStep(s, s', t)
    case Undoes(t) => UndoneStep(s, s', t)
    case FreeBegins(t, a) => FreeStep(s, s', t, a)
    case Takes(t) => TakeStep(s, s', t)
    case RemoveAnswers(t, found) => RemovedStep(s, s', t, found)
    case FreePushes(t, push) => FreePushStep(s, s', t, push)
    case Returns(t) => ReturnStep(s, s', t)
    case StopTracking => StopTrackingStep(s, s')
    case StopInstance => StopInstanceStep(s, s')
    case Deliver => DeliverStep(s, s')
    case Clear => ClearStep(s, s')
  }

  ghost predicate Next(s: State, s': State) { exists step :: NextStep(s, s', step) }

  /** The addresses announced to the profiler and not freed once a queue of events has been processed. */
  function KeysAfter(keys: set<nat>, queue: seq<Event>): set<nat> {
    if queue == [] then keys
    else KeyStep(KeysAfter(keys, queue[..|queue| - 1]), queue[|queue| - 1])
  }

  function KeyStep(keys: set<nat>, e: Event): set<nat> {
    match e
    case Alloc(_, a, _) => if a == 0 then keys else keys + {a}
    case Dealloc(a) => keys - {a}
  }

  /** How many of the queued deallocations will not find their address. */
  function UnmatchedIn(keys: set<nat>, queue: seq<Event>): nat {
    if queue == [] then 0
    else
      var before, e := queue[..|queue| - 1], queue[|queue| - 1];
      UnmatchedIn(keys, before) + (if e.Dealloc? && e.addr !in KeysAfter(keys, before) then 1 else 0)
  }

  /** The addresses announced to the profiler and not freed: it holds them or has forgotten them. */
  ghost function Known(s: State): set<nat> { s.table.addrs.Keys + s.forgotten }

  ghost function Future(s: State): set<nat> { KeysAfter(Known(s), s.queue) }

  ghost predicate NoLoss(s: State) { s.lostFrees == 0 && !s.notifyFailed }

  // ----- invariant -----

  ghost predicate OpOk(s: State, op: Op, future: set<nat>) {
    && op.addr > 1
    && match op
       case AllocAdd(a, claimed) =>
         a in s.live && (claimed <==> a in s.tracked) && a !in s.orphans && a !in s.strays && (NoLoss(s) ==> a !in future)
       case AllocPush(a, added, sampled) =>
         && (added ==> a in s.tracked && a !in s.orphans && sampled == a && (NoLoss(s) ==> a !in future))
         && (!added && sampled != 0 ==> !s.tracking && sampled == a)
       case AllocSettle(a, added, sampled, push) =>
         && (added ==> a in s.tracked && a !in s.orphans && sampled == a)
         && (!added && sampled != 0 ==> !s.tracking && sampled == a)
         && (sampled != 0 && push != Lost ==> a in future)
         && (added && push == Lost && NoLoss(s) ==> a !in future)
         && (push == NotifyFailed ==> s.notifyFailed)
       case Undo(a, lost) =>
         && a in s.tracked && a !in s.orphans
         && (if lost then NoLoss(s) ==> a !in future else s.notifyFailed && a in future)
       case FreeRemove(a, taken) => a !in s.orphans && a !in s.strays && (taken ==> a !in s.tracked && a in future)
       case FreePush(a) => a !in s.tracked && a in future && a !in s.strays
       case Returning(a) => true
  }

  ghost predicate OpsOk(s: State, future: set<nat>) {
    && (forall t :: t in s.ops ==> OpOk(s, s.ops[t], future))
    && (forall t, u :: t in s.ops && u in s.ops && t != u ==> s.ops[t].addr != s.ops[u].addr)
  }

  /** The allocation event of an address just added is still to come, or was lost. */
  predicate PendingOp(op: Op) {
    (op.AllocAdd? && op.claimed) || (op.AllocPush? && op.added) || (op.AllocSettle? && op.added && op.push == Lost) || (op.Undo? && op.lost)
  }

  predicate LeavingOp(op: Op) {
    op.FreePush? || (op.FreeRemove? && op.taken) || (op.AllocSettle? && !op.added && op.sampled != 0 && op.push != Lost)
  }

  ghost predicate Pending(s: State, a: nat) {
    exists t :: t in s.ops && s.ops[t].addr == a && PendingOp(s.ops[t])
  }

  ghost predicate Leaving(s: State, a: nat) {
    exists t :: t in s.ops && s.ops[t].addr == a && LeavingOp(s.ops[t])
  }

  ghost predicate BeingFreed(s: State, a: nat) {
    exists t :: t in s.ops && s.ops[t].addr == a && s.ops[t].FreeRemove?
  }

  ghost predicate SetsOk(s: State, future: set<nat>) {
    && (forall a :: a in s.tracked ==> a in future || a in s.orphans || Pending(s, a))
    && (NoLoss(s) ==> forall a :: a in future ==> a in s.tracked || a in s.strays || Leaving(s, a))
    && (NoLoss(s) ==> forall a :: a in future && a in s.orphans ==> a in s.strays || Leaving(s, a))
    && s.strays <= future && s.orphans <= s.tracked
    && (s.tracking ==> s.strays == {} && s.orphans == {} && forall a :: a in s.tracked ==> a in s.live || BeingFreed(s, a))
  }

  ghost predicate QueueOk(queue: seq<Event>) {
    forall i :: 0 <= i < |queue| && queue[i].Alloc? ==> queue[i].value > 0
  }

  ghost predicate BooksOk(t: Table) {
    Accounted(t) && forall a :: a in t.addrs ==> t.addrs[a].value > 0
  }

  ghost predicate Inv(s: State) {
    && OpsOk(s, Future(s))
    && SetsOk(s, Future(s))
    && QueueOk(s.queue)
    && UnmatchedIn(Known(s), s.queue) == 0
    && s.unmatched == s.lateFrees && s.table.addrs.Keys !! s.forgotten
    && BooksOk(s.table)
    && (s.tracking ==> s.active)
  }

  // ----- queues -----

  lemma KeysAfterPush(keys: set<nat>, queue: seq<Event>, e: Event)
    ensures KeysAfter(keys, queue + [e]) == KeyStep(KeysAfter(keys, queue), e)
    ensures UnmatchedIn(keys, queue + [e]) ==
              UnmatchedIn(keys, queue) + (if e.Dealloc? && e.addr !in KeysAfter(keys, queue) then 1 else 0)
  {
    assert (queue + [e])[..|queue|] == queue;
  }

  /** Processing the first event first, or all at once, comes to the same. */
  lemma {:induction false} KeysAfterFirst(keys: set<nat>, queue: seq<Event>)
    requires queue != []
    ensures KeysAfter(keys, queue) == KeysAfter(KeysAfter(keys, queue[..1]), queue[1..])
    ensures UnmatchedIn(keys, queue) == UnmatchedIn(keys, queue[..1]) + UnmatchedIn(KeysAfter(keys, queue[..1]), queue[1..])
  {
    if |queue| == 1 {
      assert queue[..1] == queue && queue[1..] == [];
    } else {
      var n := |queue| - 1;
      KeysAfterFirst(keys, queue[..n]);
      assert queue[..n][..1] == queue[..1] && queue[..n][1..] == queue[1..][..n - 1];
    }
  }

  // ----- every step keeps the invariant -----

  /** Only thread `t` moved, working on address `a`: other addresses see the same operations. */
  ghost predicate OnlyMoved(s: State, s': State, t: nat, a: nat) {
    && (forall u :: u != t ==> (u in s.ops <==> u in s'.ops) && (u in s.ops ==> s'.ops[u] == s.ops[u]))
    && (t in s.ops ==> s.ops[t].addr == a) && (t in s'.ops ==> s'.ops[t].addr == a)
    && (forall u :: u in s.ops && u != t ==> s.ops[u].addr != a)
  }

  lemma OthersSame(s: State, s': State, t: nat, a: nat, x: nat)
    requires OnlyMoved(s, s', t, a) && x != a
    ensures Pending(s, x) <==> Pending(s', x)
    ensures Leaving(s, x) <==> Leaving(s', x)
    ensures BeingFreed(s, x) <==> BeingFreed(s', x)
  {
    if Pending(s, x) {
      var u :| u in s.ops && s.ops[u].addr == x && PendingOp(s.ops[u]);
      assert u in s'.ops && s'.ops[u] == s.ops[u];
    }
    if Leaving(s, x) {
      var u :| u in s.ops && s.ops[u].addr == x && LeavingOp(s.ops[u]);
      assert u in s'.ops && s'.ops[u] == s.ops[u];
    }
    if BeingFreed(s, x) {
      var u :| u in s.ops && s.ops[u].addr == x && s.ops[u].FreeRemove?;
      assert u in s'.ops && s'.ops[u] == s.ops[u];
    }
  }

  /** The invariant about address `a`'s place in the sets, for one address. */
  ghost predicate PlaceOk(s: State, future: set<nat>, a: nat) {
    && (a in s.tracked ==> a in future || a in s.orphans || Pending(s, a))
    && (NoLoss(s) && a in future ==> a in s.tracked || a in s.strays || Leaving(s, a))
    && (NoLoss(s) && a in future && a in s.orphans ==> a in s.strays || Leaving(s, a))
    && (a in s.strays ==> a in future) && (a in s.orphans ==> a in s.tracked)
    && (s.tracking ==> a !in s.strays && a !in s.orphans && (a in s.tracked ==> a in s.live || BeingFreed(s, a)))
  }

  lemma SetsAreOk(s: State, future: set<nat>)
    requires forall x :: PlaceOk(s, future, x)
    ensures SetsOk(s, future)
  {
    hide Pending, Leaving, BeingFreed;
    forall x ensures x in s.tracked ==> PlaceOk(s, future, x) {}
    assert forall x :: x in future ==> PlaceOk(s, future, x);
    assert forall x :: x in s.strays ==> PlaceOk(s, future, x);
    assert forall x :: x in s.orphans ==> PlaceOk(s, future, x);
  }

  /** If only address `a` moved, it is enough to look at that address. */
  lemma MovedSets(s: State, s': State, t: nat, a: nat, future: set<nat>, future': set<nat>)
    requires SetsOk(s, future) && OnlyMoved(s, s', t, a) && (NoLoss(s') ==> NoLoss(s)) && (s'.tracking ==> s.tracking)
    requires forall x :: x != a ==>
               && (x in future <==> x in future') && (x in s.tracked <==> x in s'.tracked)
               && (x in s.orphans <==> x in s'.orphans) && (x in s.strays <==> x in s'.strays)
               && (x in s.live <==> x in s'.live)
    requires PlaceOk(s', future', a)
    ensures SetsOk(s', future')
  {
    hide Pending, Leaving, BeingFreed;
    forall x ensures PlaceOk(s', future', x) {
      if x != a {
        OthersSame(s, s', t, a, x);
        assert PlaceOk(s, future, x);
      }
    }
    SetsAreOk(s', future');
  }

  lemma MovedOps(s: State, s': State, t: nat, a: nat, future: set<nat>, future': set<nat>)
    requires OpsOk(s, future) && OnlyMoved(s, s', t, a) && (NoLoss(s') ==> NoLoss(s))
    requires s'.tracking == s.tracking && (s.notifyFailed ==> s'.notifyFailed)
    requires forall x :: x != a ==>
               && (x in future <==> x in future') && (x in s.tracked <==> x in s'.tracked)
               && (x in s.orphans <==> x in s'.orphans) && (x in s.strays <==> x in s'.strays)
               && (x in s.live <==> x in s'.live)
    requires t in s'.ops ==> OpOk(s', s'.ops[t], future')
    ensures OpsOk(s', future')
  {
    forall u | u in s'.ops && u != t ensures OpOk(s', s'.ops[u], future') {
      assert OpOk(s, s.ops[u], future);
    }
  }

  lemma AllocInv(s: State, s': State, t: nat, a: nat)
    requires Inv(s) && AllocStep(s, s', t, a)
    ensures Inv(s')
  {
    hide KeysAfter, UnmatchedIn, BooksOk, QueueOk;
    var future := Future(s);
    assert !Leaving(s, a) && !Pending(s, a) && !BeingFreed(s, a);
    assert PlaceOk(s, future, a);
    assert s'.ops[t].addr == a;
    MovedOps(s, s', t, a, future, future);
    MovedSets(s, s', t, a, future, future);
  }

  /** Operations on an address exclude each other, so the one under way says it all. */
  lemma OnlyOp(s: State, t: nat)
    requires OpsOk(s, Future(s)) && t in s.ops
    ensures Pending(s, s.ops[t].addr) <==> PendingOp(s.ops[t])
    ensures Leaving(s, s.ops[t].addr) <==> LeavingOp(s.ops[t])
    ensures BeingFreed(s, s.ops[t].addr) <==> s.ops[t].FreeRemove?
  {
  }

  /** A thread's operation moves on, events aside. */
  ghost predicate MoveStep(s: State, s': State, t: nat, ok: bool) {
    || ClaimStep(s, s', t) || AddedStep(s, s', t, ok) || AllocSettleStep(s, s', t) || UndoneStep(s, s', t)
    || TakeStep(s, s', t) || RemovedStep(s, s', t, ok)
  }

  lemma MoveInv(s: State, s': State, t: nat, ok: bool)
    requires Inv(s) && MoveStep(s, s', t, ok)
    ensures Inv(s')
  {
    hide KeysAfter, UnmatchedIn, BooksOk, QueueOk, Pending, Leaving, BeingFreed, OpOk, PlaceOk;
    hide ClaimStep, AddedStep, AllocSettleStep, UndoneStep, TakeStep, RemovedStep;
    MovesOne(s, s', t, ok);
    MovePlace(s, s', t, ok);
    var a := s.ops[t].addr;
    MovedOps(s, s', t, a, Future(s), Future(s));
    MovedSets(s, s', t, a, Future(s), Future(s));
  }

  /** Such a step concerns one thread and one address. */
  lemma MovesOne(s: State, s': State, t: nat, ok: bool)
    requires Inv(s) && MoveStep(s, s', t, ok)
    ensures t in s.ops && t in s'.ops && OnlyMoved(s, s', t, s.ops[t].addr) && OpOk(s, s.ops[t], Future(s))
    ensures s' == s.(tracked := s'.tracked, ops := s'.ops, orphans := s'.orphans, strays := s'.strays)
    ensures forall x :: x != s.ops[t].addr ==>
              && (x in s.tracked <==> x in s'.tracked)
              && (x in s.orphans <==> x in s'.orphans) && (x in s.strays <==> x in s'.strays)
  {
    hide KeysAfter, UnmatchedIn, BooksOk, QueueOk, SetsOk, OpOk, MoveStep;
    MoveFrame(s, s', t, ok);
  }

  lemma MoveFrame(s: State, s': State, t: nat, ok: bool)
    requires MoveStep(s, s', t, ok)
    ensures t in s.ops && t in s'.ops && s'.ops == s.ops[t := s'.ops[t]] && s'.ops[t].addr == s.ops[t].addr
    ensures s' == s.(tracked := s'.tracked, ops := s'.ops, orphans := s'.orphans, strays := s'.strays)
    ensures forall x :: x != s.ops[t].addr ==>
              && (x in s.tracked <==> x in s'.tracked)
              && (x in s.orphans <==> x in s'.orphans) && (x in s.strays <==> x in s'.strays)
  {
  }

  lemma MovePlace(s: State, s': State, t: nat, ok: bool)
    requires Inv(s) && MoveStep(s, s', t, ok)
    ensures t in s.ops && t in s'.ops && OpOk(s', s'.ops[t], Future(s)) && PlaceOk(s', Future(s), s.ops[t].addr)
  {
    hide KeysAfter, UnmatchedIn, BooksOk, QueueOk, Pending, Leaving, BeingFreed, OnlyMoved;
    MovesOne(s, s', t, ok);
    OnlyOp(s, t);
    assert PlaceOk(s, Future(s), s.ops[t].addr);
    hide SetsOk;
    MovedOp(s, s', t);
  }

  lemma MovedOp(s: State, s': State, t: nat)
    requires OpsOk(s, Future(s)) && t in s.ops && t in s'.ops && OnlyMoved(s, s', t, s.ops[t].addr)
    ensures Pending(s', s.ops[t].addr) <==> PendingOp(s'.ops[t])
    ensures Leaving(s', s.ops[t].addr) <==> LeavingOp(s'.ops[t])
    ensures BeingFreed(s', s.ops[t].addr) <==> s'.ops[t].FreeRemove?
  {
    hide OpOk;
  }

  lemma AllocPushInv(s: State, s': State, t: nat, push: Push, stack: Stack, value: int)
    requires Inv(s) && AllocPushStep(s, s', t, push, stack, value)
    ensures Inv(s')
  {
    hide KeysAfter, UnmatchedIn, BooksOk, Pending, Leaving, BeingFreed;
    var a := s.ops[t].addr;
    KeysAfterPush(Known(s), s.queue, Alloc(stack, s.ops[t].sampled, value));
    assert OpOk(s, s.ops[t], Future(s));
    OnlyOp(s, t);
    assert PlaceOk(s, Future(s), a);
    MovedOps(s, s', t, a, Future(s), Future(s'));
    OnlyOp(s', t);
    MovedSets(s, s', t, a, Future(s), Future(s'));
  }

  lemma FreeInv(s: State, s': State, t: nat, a: nat)
    requires Inv(s) && FreeStep(s, s', t, a)
    ensures Inv(s')
  {
    hide KeysAfter, UnmatchedIn, BooksOk, QueueOk;
    assert !Pending(s, a) && !Leaving(s, a);
    assert PlaceOk(s, Future(s), a);
    if t in s'.ops { assert s'.ops[t].addr == a && BeingFreed(s', a); }
    MovedOps(s, s', t, a, Future(s), Future(s));
    MovedSets(s, s', t, a, Future(s), Future(s));
  }

  lemma FreePushInv(s: State, s': State, t: nat, push: Push)
    requires Inv(s) && FreePushStep(s, s', t, push)
    ensures Inv(s')
  {
    hide KeysAfter, UnmatchedIn, BooksOk, Pending, Leaving, BeingFreed;
    var a := s.ops[t].addr;
    KeysAfterPush(Known(s), s.queue, Dealloc(a));
    assert OpOk(s, s.ops[t], Future(s));
    OnlyOp(s, t);
    assert PlaceOk(s, Future(s), a);
    MovedOps(s, s', t, a, Future(s), Future(s'));
    OnlyOp(s', t);
    MovedSets(s, s', t, a, Future(s), Future(s'));
  }

  lemma ReturnInv(s: State, s': State, t: nat)
    requires Inv(s) && ReturnStep(s, s', t)
    ensures Inv(s')
  {
    hide KeysAfter, UnmatchedIn, BooksOk, QueueOk, Pending, Leaving, BeingFreed;
    var a := s.ops[t].addr;
    OnlyOp(s, t);
    assert PlaceOk(s, Future(s), a);
    MovedOps(s, s', t, a, Future(s), Future(s));
    MovedSets(s, s', t, a, Future(s), Future(s));
  }

  /** The operations are the same. */
  lemma SameOps(s: State, s': State)
    requires s'.ops == s.ops
    ensures forall x :: (Pending(s, x) <==> Pending(s', x)) && (Leaving(s, x) <==> Leaving(s', x)) && (BeingFreed(s, x) <==> BeingFreed(s', x))
  {
  }

  lemma QuietInv(s: State, s': State, a: nat)
    requires Inv(s)
    requires PlainAllocStep(s, s', a) || StopTrackingStep(s, s') || StopInstanceStep(s, s') || ClearStep(s, s')
    ensures Inv(s')
  {
    hide KeysAfter, UnmatchedIn, BooksOk, QueueOk, SetsOk;
    assert Known(s') == Known(s);
    ClearedBooks();
    assert OpsOk(s', Future(s)) by {
      forall t | t in s'.ops ensures OpOk(s', s'.ops[t], Future(s)) { assert OpOk(s, s.ops[t], Future(s)); }
    }
    SameSets(s, s', Future(s));
  }

  lemma SameSets(s: State, s': State, future: set<nat>)
    requires SetsOk(s, future) && s'.ops == s.ops && s'.tracked == s.tracked && s'.orphans == s.orphans && s'.strays == s.strays
    requires s.live <= s'.live && (s'.tracking ==> s.tracking) && NoLoss(s') == NoLoss(s)
    ensures SetsOk(s', future)
  {
    hide Pending, Leaving, BeingFreed;
    SameOps(s, s');
  }

  lemma ClearedBooks()
    ensures BooksOk(Table(map[], map[]))
  {
  }

  lemma DeliverBooks(t: Table, e: Event)
    requires BooksOk(t) && (e.Alloc? ==> e.value > 0)
    ensures BooksOk(Apply(t, e)) && (e.Dealloc? ==> Unregister(t, e.addr).1 == (e.addr in t.addrs))
    ensures Apply(t, e).addrs.Keys ==
              if e.Dealloc? then t.addrs.Keys - {e.addr}
              else if e.stack.locs == [] then t.addrs.Keys else t.addrs.Keys + {e.addr}
  {
    hide Accounted, Cleaned;
    match e
    case Alloc(st, a, v) => RegisterAccounted(t, st, a, v);
    case Dealloc(a) => UnregisterAccounted(t, a);
  }

  lemma DeliverKeys(s: State, s': State)
    requires Inv(s) && DeliverStep(s, s')
    ensures BooksOk(s'.table) && Future(s') == Future(s) && s'.unmatched == s'.lateFrees
    ensures s'.table.addrs.Keys !! s'.forgotten
    ensures UnmatchedIn(Known(s'), s'.queue) == 0
  {
    hide OpsOk, SetsOk, BooksOk, Apply, Unregister;
    hide KeysAfter, UnmatchedIn, Known, Processed, KeyStep;
    var known, e := Known(s), s.queue[0];
    KeysAfterFirst(known, s.queue);
    assert s.queue[..1] == [] + [e];
    KeysAfterPush(known, [], e);
    NothingYet(known);
    ProcessedKnown(s, e);
    SameKnown(Processed(s, e), s');
  }

  lemma NothingYet(keys: set<nat>)
    ensures KeysAfter(keys, []) == keys && UnmatchedIn(keys, []) == 0
  {
  }

  lemma SameKnown(s: State, s': State)
    requires s'.table == s.table && s'.forgotten == s.forgotten
    ensures Known(s') == Known(s)
  {
  }

  /** Acting on one event changes what is known as the event says, and counts it right. */
  lemma ProcessedKnown(s: State, e: Event)
    requires BooksOk(s.table) && (e.Alloc? ==> e.value > 0) && s.table.addrs.Keys !! s.forgotten && s.unmatched == s.lateFrees
    requires e.Dealloc? ==> e.addr in Known(s)
    ensures var s' := Processed(s, e);
            && BooksOk(s'.table) && Known(s') == KeyStep(Known(s), e) && s'.table.addrs.Keys !! s'.forgotten
            && s'.unmatched == s'.lateFrees
  {
    hide BooksOk, Apply, Unregister;
    DeliverBooks(s.table, e);
  }

  lemma DeliverInv(s: State, s': State)
    requires Inv(s) && DeliverStep(s, s')
    ensures Inv(s')
  {
    hide KeysAfter, UnmatchedIn, BooksOk, Apply, Unregister, Known, Pending, Leaving, BeingFreed;
    DeliverKeys(s, s');
    assert OpsOk(s', Future(s)) by {
      forall t | t in s'.ops ensures OpOk(s', s'.ops[t], Future(s)) { assert OpOk(s, s.ops[t], Future(s)); }
    }
    SameOps(s, s');
  }

  lemma NextInv(s: State, s': State)
    requires Inv(s) && Next(s, s')
    ensures Inv(s')
  {
    hide Inv, AllocStep, ClaimStep, AddedStep, PlainAllocStep, AllocPushStep, AllocSettleStep, UndoneStep, FreeStep;
    hide TakeStep, RemovedStep, FreePushStep, ReturnStep, DeliverStep, ClearStep, StopTrackingStep, StopInstanceStep;
    var step :| NextStep(s, s', step);
    match step
    case AllocBegins(t, a) => AllocInv(s, s', t, a);
    case Claims(t) => MoveInv(s, s', t, false);
    case AddAnswers(t, ok) => MoveInv(s, s', t, ok);
    case PlainAlloc(a) => QuietInv(s, s', a);
    case AllocPushes(t, push, stack, value) => AllocPushInv(s, s', t, push, stack, value);
    case AllocSettles(t) => MoveInv(s, s', t, false);
    case Undoes(t) => MoveInv(s, s', t, false);
    case FreeBegins(t, a) => FreeInv(s, s', t, a);
    case Takes(t) => MoveInv(s, s', t, false);
    case RemoveAnswers(t, found) => MoveInv(s, s', t, found);
    case FreePushes(t, push) => FreePushInv(s, s', t, push);
    case Returns(t) => ReturnInv(s, s', t);
    case Deliver => DeliverInv(s, s');
    case _ => QuietInv(s, s', 0);
  }

  // ----- runs -----

  ghost predicate Run(ss: seq<State>) {
    && |ss| > 0 && Init(ss[0])
    && forall i, j :: 0 <= i < j < |ss| && j == i + 1 ==> Next(ss[i], ss[j])
  }

  lemma {:induction false} RunInv(ss: seq<State>, i: nat)
    requires Run(ss) && i < |ss|
    ensures Inv(ss[i])
  {
    if i == 0 {
      hide Next;
      assert Future(ss[0]) == {};
    } else {
      hide Inv, Next, Init;
      RunInv(ss, i - 1);
      NextInv(ss[i - 1], ss[i]);
    }
  }

  /** Nothing is under way and the profiler has caught up. */
  ghost predicate Settled(s: State) { s.ops == map[] && s.queue == [] }

  /** What the profiler's table holds compared with what the library tracks. */
  ghost predicate Agreement(s: State) {
    var keys := s.table.addrs.Keys;
    && keys !! s.forgotten
    && (s.tracking ==> s.orphans == {} && s.strays == {})
    && (s.orphans == {} ==> s.tracked <= keys + s.forgotten)
    && (NoLoss(s) ==> (s.tracked <= keys <==> s.orphans <= s.strays && s.tracked !! s.forgotten))
    && (NoLoss(s) ==> (keys + s.forgotten <= s.tracked <==> s.strays <= s.tracked))
    && (NoLoss(s) && s.tracking ==> s.tracked == keys + s.forgotten)
    && (NoLoss(s) && s.tracking ==> (s.tracked == keys <==> s.forgotten == {}))
    && s.unmatched == s.lateFrees
  }

  lemma SettledAgreement(s: State)
    requires Inv(s) && Settled(s)
    ensures Agreement(s) && Accounted(s.table)
  {
    hide OpsOk, UnmatchedIn, Accounted;
    assert Future(s) == s.table.addrs.Keys + s.forgotten;
    assert forall a :: !Pending(s, a) && !Leaving(s, a);
    hide SetsOk, Pending, Leaving, BeingFreed, KeysAfter;
  }

  /** In every run, once settled, every tracked address was announced to the profiler as long as the
      tracker is up, whatever was lost; so the profiler holds it unless it has forgotten it. After a
      shutdown, with no deallocation event lost and no wakeup failed, it holds all of them exactly when
      it has forgotten none of them and no undo came too late. */
  lemma TrackedIsKnown(ss: seq<State>, i: nat)
    requires Run(ss) && i < |ss| && Settled(ss[i])
    ensures var s := ss[i]; var keys := s.table.addrs.Keys;
            && (s.tracking ==> s.tracked <= keys + s.forgotten && keys !! s.forgotten)
            && (NoLoss(s) ==> (s.tracked <= keys <==> s.orphans <= s.strays && s.tracked !! s.forgotten))
  {
    hide Run, Inv;
    RunInv(ss, i);
    SettledAgreement(ss[i]);
  }

  /** If no deallocation event was lost and no wakeup failed, a tracker that is up tracks exactly what
      the profiler holds or has forgotten, however many allocation events were lost; so the two are
      equal exactly when nothing is forgotten. The deallocations the profiler cannot match are exactly
      those of forgotten addresses, and its books balance, whatever was lost. */
  lemma TrackedEqualsKnown(ss: seq<State>, i: nat)
    requires Run(ss) && i < |ss| && Settled(ss[i])
    ensures var s := ss[i]; var keys := s.table.addrs.Keys;
            && (NoLoss(s) && s.tracking ==> s.tracked == keys + s.forgotten && keys !! s.forgotten)
            && (NoLoss(s) && s.tracking ==> (s.tracked == keys <==> s.forgotten == {}))
            && (NoLoss(s) ==> (keys + s.forgotten <= s.tracked <==> s.strays <= s.tracked))
            && s.unmatched == s.lateFrees && Accounted(s.table)
  {
    hide Run, Inv, Accounted;
    RunInv(ss, i);
    SettledAgreement(ss[i]);
  }

  /** In every run: an allocation whose event was lost, or whose wakeup failed, is taken out of the set again
      if tracking is still on when that is noticed; one whose event went through stays in it. */
  lemma FailedPushIsUndone(ss: seq<State>, i: nat, s1: State, s2: State, t: nat)
    requires Run(ss) && i < |ss| && AllocSettleStep(ss[i], s1, t) && ss[i].ops[t].added
    ensures ss[i].ops[t].push != Queued && ss[i].tracking ==>
              s1.ops[t].Undo? && (UndoneStep(s1, s2, t) ==> ss[i].ops[t].addr !in s2.tracked)
    ensures ss[i].ops[t].push == Queued ==> s1.ops[t].Returning? && ss[i].ops[t].addr in s1.tracked
    ensures ss[i].ops[t].push != Queued && !ss[i].tracking ==> s1.ops[t].Returning? && ss[i].ops[t].addr in s1.tracked
  {
    hide Run, SetsOk, KeysAfter, UnmatchedIn, BooksOk, QueueOk;
    RunInv(ss, i);
    assert OpOk(ss[i], ss[i].ops[t], Future(ss[i]));
  }

  /** A run goes on with one more step. */
  lemma Continued(ss: seq<State>, s': State, step: Step) returns (ss': seq<State>)
    requires Run(ss) && NextStep(ss[|ss| - 1], s', step)
    ensures Run(ss') && ss'[|ss'| - 1] == s'
  {
    hide Init, NextStep;
    ss' := ss + [s'];
  }

  function Fresh(): State { State(true, true, {}, [], Table(map[], map[]), 0, map[], {}, 0, false, {}, {}, {}, 0) }

  function SomeStack(): Stack { Stack(0, 0, [0]) }

  lemma Begun() returns (ss: seq<State>)
    ensures Run(ss) && ss[|ss| - 1] == Fresh()
  {
    ss := [Fresh()];
  }

  /** An address was added, and its event is about to be pushed. */
  function Added(): State { Fresh().(live := {16}, tracked := {16}, ops := map[0 := AllocPush(16, true, 16)]) }

  lemma AddOne() returns (ss: seq<State>)
    ensures Run(ss) && ss[|ss| - 1] == Added()
  {
    hide Run;
    var s0, s1 := Fresh(), Fresh().(live := {16}, ops := map[0 := AllocAdd(16, false)]);
    var s2 := s1.(tracked := {16}, ops := map[0 := AllocAdd(16, true)]);
    ss := Begun();
    ss := Continued(ss, s1, AllocBegins(0, 16));
    ss := Continued(ss, s2, Claims(0));
    ss := Continued(ss, Added(), AddAnswers(0, true));
  }

  /** A late undo is real: a sample lost just before tracking stops leaves an address tracked that the
      profiler never hears of. */
  lemma LateUndoLeavesOrphan() returns (ss: seq<State>)
    ensures Run(ss) && Settled(ss[|ss| - 1]) && ss[|ss| - 1].forgotten == {}
    ensures !(ss[|ss| - 1].tracked <= ss[|ss| - 1].table.addrs.Keys)
  {
    hide Run;
    var s2 := Added().(ops := map[0 := AllocSettle(16, true, 16, Lost)]);
    var s3 := s2.(tracking := false);
    var s4 := s3.(ops := map[0 := Returning(16)], orphans := {16});
    var s5 := s4.(ops := map[]);
    ss := AddOne();
    ss := Continued(ss, s2, AllocPushes(0, Lost, SomeStack(), 1));
    ss := Continued(ss, s3, StopTracking);
    ss := Continued(ss, s4, AllocSettles(0));
    ss := Continued(ss, s5, Returns(0));
  }

  /** The profiler holds the address. */
  function Recorded(): State {
    Fresh().(live := {16}, tracked := {16}, table := Register(Table(map[], map[]), SomeStack(), 16, 1).0)
  }

  lemma RecordOne() returns (ss: seq<State>)
    ensures Run(ss) && ss[|ss| - 1] == Recorded()
  {
    hide Run, Register;
    var e := Alloc(SomeStack(), 16, 1);
    var s2 := Added().(ops := map[0 := AllocSettle(16, true, 16, Queued)], queue := [e]);
    var s3 := s2.(ops := map[0 := Returning(16)]);
    var s4 := s3.(ops := map[]);
    ss := AddOne();
    ss := Continued(ss, s2, AllocPushes(0, Queued, SomeStack(), 1));
    ss := Continued(ss, s3, AllocSettles(0));
    ss := Continued(ss, s4, Returns(0));
    assert DeliverStep(s4, Recorded()) by { RegisteredKeys(); }
    ss := Continued(ss, Recorded(), Deliver);
  }

  lemma RegisteredKeys()
    ensures 16 in Register(Table(map[], map[]), SomeStack(), 16, 1).0.addrs
  {
  }

  function Cleared(): State { Fresh().(live := {16}, tracked := {16}, forgotten := {16}) }

  /** Clearing is a third way to disagree: the tracker is up, nothing was lost, and yet the profiler
      does not know a tracked address. */
  lemma ClearingForgets() returns (ss: seq<State>)
    ensures Run(ss) && ss[|ss| - 1] == Cleared() && Settled(Cleared()) && Cleared().tracking && NoLoss(Cleared())
    ensures !(Cleared().tracked <= Cleared().table.addrs.Keys)
  {
    hide Run, Register;
    ss := RecordOne();
    assert ClearStep(Recorded(), Cleared()) by { RecordedKeys(); }
    ss := Continued(ss, Cleared(), Clear);
  }

  /** The address is freed and taken out of the set. */
  lemma FreeOne(before: seq<State>, s: State) returns (ss: seq<State>)
    requires Run(before) && before[|before| - 1] == s && s.ops == map[] && s.live == s.tracked == {16} && s.active && s.tracking
    ensures Run(ss) && ss[|ss| - 1] == s.(live := {}, tracked := {}, ops := map[0 := FreePush(16)])
  {
    hide Run;
    var s1 := s.(live := {}, ops := map[0 := FreeRemove(16, false)]);
    var s2 := s.(live := {}, tracked := {}, ops := map[0 := FreeRemove(16, true)]);
    var s3 := s2.(ops := map[0 := FreePush(16)]);
    ss := Continued(before, s1, FreeBegins(0, 16));
    ss := Continued(ss, s2, Takes(0));
    ss := Continued(ss, s3, RemoveAnswers(0, true));
  }

  /** When that address is freed, its deallocation is unmatched. */
  lemma ClearingUnmatches() returns (ss: seq<State>)
    ensures Run(ss) && Settled(ss[|ss| - 1]) && NoLoss(ss[|ss| - 1]) && ss[|ss| - 1].unmatched == 1
  {
    hide Run;
    var s3 := Cleared().(live := {}, tracked := {}, ops := map[0 := FreePush(16)]);
    var s4 := s3.(ops := map[0 := Returning(16)], queue := [Dealloc(16)]);
    ss := ClearingForgets();
    ss := FreeOne(ss, Cleared());
    ss := Continued(ss, s4, FreePushes(0, Queued));
    ss := DeliverLate(ss, s4);
  }

  lemma DeliverLate(ss: seq<State>, s: State) returns (ss': seq<State>)
    requires Run(ss) && ss[|ss| - 1] == s && s.ops == map[0 := Returning(16)] && s.queue == [Dealloc(16)]
    requires s.table == Table(map[], map[]) && s.forgotten == {16} && s.unmatched == s.lateFrees == 0
    ensures Run(ss') && ss'[|ss'| - 1] == s.(ops := map[], queue := [], unmatched := 1, lateFrees := 1, forgotten := {})
  {
    hide Run;
    var s5 := s.(ops := map[]);
    ss' := Continued(ss, s5, Returns(0));
    ss' := Continued(ss', s5.(queue := [], unmatched := 1, lateFrees := 1, forgotten := {}), Deliver);
  }

  lemma RecordedKeys()
    ensures Recorded().table.addrs.Keys == {16}
  {
  }

  // ----- programs that release memory before they tell the tracker -----

  /** The hooks of `dallocx` and `sdallocx` release memory first, so another thread may be given an address
      while its free is still being tracked. */
  ghost predicate EarlyAllocStep(s: State, s': State, t: nat, a: nat) {
    && t !in s.ops && a > 1 && a !in s.live && s.active && s.tracking
    && s' == s.(live := s.live + {a}, ops := s.ops[t := AllocAdd(a, false)])
  }

  ghost predicate LooseNext(s: State, s': State) {
    Next(s, s') || exists t, a :: EarlyAllocStep(s, s', t, a)
  }

  ghost predicate LooseRun(ss: seq<State>) {
    && |ss| > 0 && Init(ss[0])
    && forall i, j :: 0 <= i < j < |ss| && j == i + 1 ==> LooseNext(ss[i], ss[j])
  }

  lemma LooseContinued(ss: seq<State>, s': State, step: Step) returns (ss': seq<State>)
    requires LooseRun(ss) && NextStep(ss[|ss| - 1], s', step)
    ensures LooseRun(ss') && ss'[|ss'| - 1] == s'
  {
    hide Init, NextStep;
    ss' := ss + [s'];
  }

  lemma EarlyContinued(ss: seq<State>, s': State, t: nat, a: nat) returns (ss': seq<State>)
    requires LooseRun(ss) && EarlyAllocStep(ss[|ss| - 1], s', t, a)
    ensures LooseRun(ss') && ss'[|ss'| - 1] == s'
  {
    hide Init, Next, EarlyAllocStep;
    ss' := ss + [s'];
  }

  /** Thread 0 has taken the freed address out of the set, and thread 1 has got it, added it and announced it. */
  function Reused(): State {
    Recorded().(ops := map[0 := FreePush(16), 1 := AllocSettle(16, true, 16, Queued)],
                queue := [Alloc(SomeStack(), 16, 1)])
  }

  function Released(): State { Recorded().(live := {}, tracked := {}, ops := map[0 := FreePush(16)]) }

  lemma Release() returns (ss: seq<State>)
    ensures LooseRun(ss) && ss[|ss| - 1] == Released()
  {
    hide Init, Next, Register;
    ss := RecordOne();
    ss := FreeOne(ss, Recorded());
  }

  lemma Reuse() returns (ss: seq<State>)
    ensures LooseRun(ss) && ss[|ss| - 1] == Reused()
  {
    hide LooseRun, Register;
    var s3 := Released().(live := {16}, ops := map[0 := FreePush(16), 1 := AllocAdd(16, false)]);
    var s4 := s3.(tracked := {16}, ops := map[0 := FreePush(16), 1 := AllocAdd(16, true)]);
    ss := Release();
    ss := EarlyContinued(ss, s3, 1, 16);
    ss := LooseContinued(ss, s4, Claims(1));
    ss := Announce(ss, s4);
  }

  lemma Announce(before: seq<State>, s4: State) returns (ss: seq<State>)
    requires LooseRun(before) && before[|before| - 1] == s4
    requires s4 == Recorded().(ops := map[0 := FreePush(16), 1 := AllocAdd(16, true)])
    ensures LooseRun(ss) && ss[|ss| - 1] == Reused()
  {
    hide LooseRun, Register;
    var s5 := s4.(ops := map[0 := FreePush(16), 1 := AllocPush(16, true, 16)]);
    ss := before;
    ss := LooseContinued(ss, s5, AddAnswers(1, true));
    ss := LooseContinued(ss, Reused(), AllocPushes(1, Queued, SomeStack(), 1));
  }

  /** Both events are in the ring, the deallocation last, and both threads are done. */
  function Overtaken(): State {
    Recorded().(queue := [Alloc(SomeStack(), 16, 1), Dealloc(16)])
  }

  lemma Overtake() returns (ss: seq<State>)
    ensures LooseRun(ss) && ss[|ss| - 1] == Overtaken()
  {
    hide LooseRun, Register;
    var s1 := Reused().(ops := map[0 := FreePush(16), 1 := Returning(16)]);
    var s2 := s1.(ops := map[0 := FreePush(16)]);
    ss := Reuse();
    ss := LooseContinued(ss, s1, AllocSettles(1));
    ss := LooseContinued(ss, s2, Returns(1));
    ss := PushLast(ss, s2);
  }

  lemma PushLast(before: seq<State>, s: State) returns (ss: seq<State>)
    requires LooseRun(before) && before[|before| - 1] == s && s == Recorded().(ops := map[0 := FreePush(16)], queue := [Alloc(SomeStack(), 16, 1)])
    ensures LooseRun(ss) && ss[|ss| - 1] == Overtaken()
  {
    hide LooseRun, Register;
    var s3 := s.(ops := map[0 := Returning(16)], queue := [Alloc(SomeStack(), 16, 1), Dealloc(16)]);
    ss := before;
    ss := LooseContinued(ss, s3, FreePushes(0, Queued));
    ss := LooseContinued(ss, Overtaken(), Returns(0));
  }

  /** For such programs library and profiler can disagree though the tracker is up, nothing was lost and
      nothing forgotten: the deallocation event of the old block overtakes the one of the new. */
  lemma EarlyReleaseDisagrees() returns (ss: seq<State>)
    ensures LooseRun(ss) && Settled(ss[|ss| - 1]) && ss[|ss| - 1].tracking && NoLoss(ss[|ss| - 1])
    ensures ss[|ss| - 1].forgotten == {} && ss[|ss| - 1].tracked == {16} && ss[|ss| - 1].table.addrs.Keys == {}
  {
    hide LooseRun, Register, Apply, Unregister, BooksOk;
    var e := Alloc(SomeStack(), 16, 1);
    RecordedBooks();
    RecordedKeys();
    DeliverBooks(Recorded().table, e);
    DeliverBooks(Apply(Recorded().table, e), Dealloc(16));
    ss := Overtake();
    var s1 := Processed(Overtaken(), e).(queue := [Dealloc(16)]);
    ss := LooseContinued(ss, s1, Deliver);
    var s2 := Processed(s1, Dealloc(16)).(queue := []);
    ss := LooseContinued(ss, s2, Deliver);
  }

  lemma RecordedBooks()
    ensures BooksOk(Recorded().table)
  {
    hide Inv;
    var ss := RecordOne();
    RunInv(ss, |ss| - 1);
    assert Inv(Recorded());
    BooksOf(Recorded());
  }

  lemma BooksOf(s: State)
    requires Inv(s)
    ensures BooksOk(s.table)
  {
  }
}
