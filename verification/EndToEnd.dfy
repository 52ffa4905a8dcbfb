/** The whole path: threads of the program put addresses into the lock-free table and events into shared
    memory; the profiler reads the bytes back and updates its live-heap table. `AddressTable`,
    `MpscRing` and `TrackingSync` run side by side, atomic access by atomic access. They meet where a set
    operation starts, takes effect or ends, and where an event's record is reserved, finished and read.
    Unwinding is any function of the registers and the saved stack. */
module EndToEnd {
  import opened RingWords
  import R = MpscRing
  import RingProof = MpscRingProof
  import A = AddressTable
  import T = TrackingSync
  import H = LiveHeap
  import F = SampleFormat

  datatype System = System(ring: Config, table: A.Config, unwind: (seq<nat>, seq<nat>, nat) -> seq<nat>) {
    predicate Valid() { ring.Valid() && !ring.ordered && table.Valid() }
  }

  /** `sample` is the one the profiler decodes into; `writing` is what each thread writes into the record
      it has reserved; `events` lists what the records were reserved for, and is history. The set
      `lib.tracked` stands for the addresses in `tbl`. */
  datatype State = State(ring: R.State, tbl: A.State, lib: T.State, sample: F.Sample, writing: map<nat, F.Written>,
                         events: seq<F.Written>)

  ghost predicate Init(k: System, s: State) {
    && R.Init(k.ring, s.ring) && A.Init(k.table, s.tbl) && T.Init(s.lib)
    && s.writing == map[] && s.events == []
  }

  /** What an event means to the live heap. */
  function Meaning(k: System, w: F.Written): H.Event {
    match w
    case Allocation(e) => H.Alloc(H.Stack(e.pid, e.tid, k.unwind(e.regs, e.stack, e.dynSize)), e.addr, e.period)
    case Deallocation(_, _, _, ptr) => H.Dealloc(ptr)
  }

  // ----- steps -----

  /** Steps of the ring that are not about an event's content or delivery. */
  ghost predicate RingStep(k: System, s: State, s': State, step: R.Step)
    requires k.Valid() && Memory(k.ring, s.ring.mem)
  {
    && !step.Publish? && !step.Commit? && !step.Process? && !step.Mark?
    && R.NextStep(k.ring, s.ring, s'.ring, step) && s' == s.(ring := s'.ring)
  }

  /** A thread's event gets its place in the ring. */
  ghost predicate ReserveStep(k: System, s: State, s': State, t: nat, push: T.Push, w: F.Written, stack: H.Stack, value: int) {
    && push != T.Lost && w.Valid() && t !in s.tbl.ops
    && R.PublishStep(k.ring, s.ring, s'.ring, t) && s.ring.producers[t].size == 8 * |F.Layout(w)|
    && (T.AllocPushStep(s.lib, s'.lib, t, push, stack, value) || T.FreePushStep(s.lib, s'.lib, t, push))
    && s'.lib.queue == s.lib.queue + [Meaning(k, w)]
    && s' == s.(ring := s'.ring, lib := s'.lib, writing := s.writing[t := w], events := s.events + [w])
  }

  /** The thread finishes a record after writing its event there. */
  ghost predicate CommitStep(k: System, s: State, s': State, t: nat)
    requires k.Valid() && Memory(k.ring, s.ring.mem)
  {
    && R.CommitStep(k.ring, s.ring, s'.ring, t, false) && t in s.writing
    && Payload(k.ring, s.ring.mem, s.ring.producers[t].start, Span(s.ring.producers[t].size)) == F.Layout(s.writing[t])
    && s' == s.(ring := s'.ring, writing := s.writing - {t})
  }

  /** The profiler reads a record's bytes from the ring and acts on what they say. */
  ghost predicate ProcessStep(k: System, s: State, s': State)
    requires k.Valid() && Memory(k.ring, s.ring.mem)
  {
    && R.ProcessStep(k.ring, s.ring, s'.ring) && |s'.ring.out| > 0
    && var (sample, u) := F.Understand(s'.ring.out[|s'.ring.out| - 1].words, s.sample);
    && s' == s.(ring := s'.ring, sample := sample, lib := Acted(k, s.lib, u))
  }

  /** The live heap after an event was understood; the events under way lose their first. */
  function Acted(k: System, lib: T.State, u: F.Understood): T.State {
    var rest := lib.(queue := if lib.queue == [] then [] else lib.queue[1..]);
    match u
    case Sampled(s) =>
      T.Processed(rest, H.Alloc(H.Stack(s.pid, s.tid, k.unwind(s.regs, s.stack, s.sizeStack)), s.addr, s.period))
    case Freed(ptr) => T.Processed(rest, H.Dealloc(ptr))
    case Ignored => rest
  }

  predicate SetOp(op: T.Op) { op.AllocAdd? || op.FreeRemove? || op.Undo? }

  /** A thread that goes on to add to the table, or to remove from it, starts that operation. */
  function TableAfter(tbl: A.State, lib: T.State, t: nat): A.State {
    if t !in lib.ops || !SetOp(lib.ops[t]) then tbl
    else if lib.ops[t].AllocAdd? then tbl.(ops := tbl.ops[t := A.AddCheck(lib.ops[t].addr, |tbl.hist|)])
    else tbl.(ops := tbl.ops[t := A.RemoveLoad(lib.ops[t].addr, |tbl.hist|, 0)])
  }

  /** Steps of a thread between its table operations, losing an event included. */
  ghost predicate ThreadStep(s: State, s': State, t: nat, a: nat, stack: H.Stack, value: int) {
    && t !in s.tbl.ops && s' == s.(lib := s'.lib, tbl := TableAfter(s.tbl, s'.lib, t))
    && (|| T.AllocStep(s.lib, s'.lib, t, a)
        || T.AllocPushStep(s.lib, s'.lib, t, T.Lost, stack, value)
        || T.AllocSettleStep(s.lib, s'.lib, t)
        || T.FreeStep(s.lib, s'.lib, t, a)
        || T.FreePushStep(s.lib, s'.lib, t, T.Lost)
        || T.ReturnStep(s.lib, s'.lib, t))
  }

  /** Steps that concern neither ring nor table. */
  ghost predicate OtherStep(s: State, s': State, a: nat) {
    && s' == s.(lib := s'.lib)
    && (|| T.PlainAllocStep(s.lib, s'.lib, a) || T.StopTrackingStep(s.lib, s'.lib)
        || T.StopInstanceStep(s.lib, s'.lib) || T.ClearStep(s.lib, s'.lib))
  }

  /** What a thread does next according to what its table operation did: the set changes when the operation
      takes effect, and the thread goes on with the answer when it ends. */
  ghost function LibAfter(k: System, s: State, t: nat): T.State
    requires k.Valid() && |s.tbl.slots| == k.table.size && t in s.tbl.ops && t in s.lib.ops
  {
    var a, lib, stage, tbl' := s.tbl.ops[t].addr, s.lib, s.lib.ops[t], A.StepOf(k.table, s.tbl, t);
    if A.Claims(k.table, s.tbl, t) then
      lib.(tracked := lib.tracked + {a}, ops := lib.ops[t := T.AllocAdd(a, true)])
    else if A.Deletes(k.table, s.tbl, t) then
      lib.(tracked := lib.tracked - {a}, ops := lib.ops[t := if stage.FreeRemove? then T.FreeRemove(a, true) else T.Returning(a)])
    else if t in tbl'.ops || tbl'.log == [] then lib
    else lib.(ops := lib.ops[t := Answered(stage, tbl'.log[|tbl'.log| - 1].ok)])
  }

  function Answered(stage: T.Op, ok: bool): T.Op {
    match stage
    case AllocAdd(a, _) => T.AllocPush(a, ok, if ok then a else 0)
    case FreeRemove(a, _) => if ok then T.FreePush(a) else T.Returning(a)
    case _ => T.Returning(stage.addr)
  }

  /** One access of a thread to the table. */
  ghost predicate TableStep(k: System, s: State, s': State, t: nat)
    requires k.Valid()
  {
    && |s.tbl.slots| == k.table.size && t in s.tbl.ops && t in s.lib.ops
    && s' == s.(tbl := A.StepOf(k.table, s.tbl, t), lib := LibAfter(k, s, t))
  }

  ghost predicate Next(k: System, s: State, s': State)
    requires k.Valid()
  {
    && Memory(k.ring, s.ring.mem)
    && (|| (exists step :: RingStep(k, s, s', step))
        || (exists t, push, w, stack, value :: ReserveStep(k, s, s', t, push, w, stack, value))
        || (exists t :: CommitStep(k, s, s', t))
        || ProcessStep(k, s, s')
        || (exists t, a, stack, value :: ThreadStep(s, s', t, a, stack, value))
        || (exists t :: TableStep(k, s, s', t))
        || (exists a :: OtherStep(s, s', a)))
  }

  // ----- invariant -----

  function Delivered(r: R.State): nat { R.DeliveredCount(r.reader, r.interCount) }

  /** Every finished record holds the bytes of its event; the events under way are those not read yet. */
  ghost predicate RingLinked(k: System, ring: R.State, queue: seq<H.Event>, events: seq<F.Written>) {
    && |events| == |ring.log| && Delivered(ring) <= |events|
    && (forall i :: 0 <= i < |events| ==>
          && events[i].Valid() && ring.log[i].status != R.Discarded
          && (ring.log[i].status == R.Committed ==>
                ring.log[i].Sent() == R.Message(8 * |F.Layout(events[i])|, F.Layout(events[i])))
          && ring.log[i].size == 8 * |F.Layout(events[i])|)
    && |queue| == |events| - Delivered(ring)
    && (forall i :: Delivered(ring) <= i < |events| ==> queue[i - Delivered(ring)] == Meaning(k, events[i]))
  }

  ghost predicate WritingOk(ring: R.State, writing: map<nat, F.Written>, events: seq<F.Written>) {
    forall t :: t in ring.producers && ring.producers[t].Filling? ==>
      t in writing && ring.producers[t].rec < |events| && writing[t] == events[ring.producers[t].rec]
  }

  /** How far a thread is in the library, given how far it is in its table operation. */
  ghost predicate StageOk(op: A.Op, stage: T.Op) {
    && stage.addr == op.addr
    && (A.Adding(op) ==> stage.AllocAdd? && !stage.claimed)
    && (op.AddCount? ==> stage.AllocAdd? && stage.claimed)
    && (A.Removing(op) ==> (stage.FreeRemove? && !stage.taken) || stage.Undo?)
    && (op.RemoveCount? ==> (stage.FreeRemove? && stage.taken) || stage.Returning?)
  }

  /** The table holds exactly the tracked addresses. */
  ghost predicate TableLinked(tbl: A.State, lib: T.State) {
    && (forall a: nat :: a in lib.tracked <==> a > A.DELETED && a in tbl.slots)
    && (forall t :: t in tbl.ops ==> t in lib.ops && StageOk(tbl.ops[t], lib.ops[t]))
    && (forall t :: t in lib.ops && SetOp(lib.ops[t]) ==> t in tbl.ops)
  }

  ghost predicate Inv(k: System, s: State)
    requires k.Valid()
  {
    && R.Inv(k.ring, s.ring) && A.AloneInv(k.table, s.tbl) && T.Inv(s.lib)
    && RingLinked(k, s.ring, s.lib.queue, s.events) && WritingOk(s.ring, s.writing, s.events)
    && TableLinked(s.tbl, s.lib)
  }

  // ----- the ring -----

  lemma RingInv(k: System, s: State, s': State, step: R.Step)
    requires k.Valid() && Memory(k.ring, s.ring.mem) && Inv(k, s) && RingStep(k, s, s', step)
    ensures Inv(k, s')
  {
    hide R.Inv, A.AloneInv, T.Inv, R.NextStep, TableLinked;
    assert R.NextStep(k.ring, s.ring, s'.ring, step);
    assert R.Next(k.ring, s.ring, s'.ring);
    RingProof.NextInv(k.ring, s.ring, s'.ring);
    RingDelivered(k, s, s', step);
  }

  lemma RingDelivered(k: System, s: State, s': State, step: R.Step)
    requires k.Valid() && R.Inv(k.ring, s.ring) && RingStep(k, s, s', step)
    requires forall i :: 0 <= i < |s.ring.log| ==> s.ring.log[i].status != R.Discarded
    ensures s'.ring.log == s.ring.log && Delivered(s'.ring) == Delivered(s.ring)
    ensures forall t :: t in s'.ring.producers && s'.ring.producers[t].Filling? ==>
              t in s.ring.producers && s.ring.producers[t] == s'.ring.producers[t]
  {
    hide R.Tiled, R.MemoryOk, R.LockOk, R.TailsOk, R.OwnersOk, R.StatusOk, R.QueueOk, R.InOrder, R.OnceEach, R.OutputOk;
    hide R.ReadTurn, R.LogOk, Load, Store, RecordSpan, Span, Wrap;
    if step.ReadSample? {
      RingProof.TurnReadsRecord(k.ring, s.ring, s.ring.reader.head, s.ring.reader.headCount);
    }
  }

  lemma ReserveInv(k: System, s: State, s': State, t: nat, push: T.Push, w: F.Written, stack: H.Stack, value: int)
    requires k.Valid() && Inv(k, s) && ReserveStep(k, s, s', t, push, w, stack, value)
    ensures Inv(k, s')
  {
    hide R.Inv, A.AloneInv, T.Inv, F.Layout, Span, RingLinked, Meaning, TableLinked;
    RingProof.PublishInv(k.ring, s.ring, s'.ring, t);
    ReserveTable(k, s, s', t, push, w, stack, value);
    ReserveLinked(k, s.ring, s'.ring, s.lib.queue, s.events, w);
    if T.AllocPushStep(s.lib, s'.lib, t, push, stack, value) {
      T.AllocPushInv(s.lib, s'.lib, t, push, stack, value);
    } else {
      T.FreePushInv(s.lib, s'.lib, t, push);
    }
  }

  lemma ReserveTable(k: System, s: State, s': State, t: nat, push: T.Push, w: F.Written, stack: H.Stack, value: int)
    requires TableLinked(s.tbl, s.lib) && ReserveStep(k, s, s', t, push, w, stack, value)
    ensures TableLinked(s'.tbl, s'.lib)
  {
    hide R.PublishStep, F.Layout, Meaning;
  }

  lemma ReserveLinked(k: System, ring: R.State, ring': R.State, queue: seq<H.Event>, events: seq<F.Written>, w: F.Written)
    requires RingLinked(k, ring, queue, events) && w.Valid()
    requires |ring'.log| == |ring.log| + 1 && ring'.log[..|ring.log|] == ring.log && ring'.log[|ring.log|].status == R.Busy
    requires ring'.log[|ring.log|].size == 8 * |F.Layout(w)| && ring'.reader == ring.reader && ring'.interCount == ring.interCount
    ensures RingLinked(k, ring', queue + [Meaning(k, w)], events + [w]) && |events| == |ring.log|
  {
    hide F.Layout, Meaning;
    assert forall i :: 0 <= i < |ring.log| ==> ring'.log[i] == ring'.log[..|ring.log|][i] == ring.log[i];
  }

  lemma CommitInv(k: System, s: State, s': State, t: nat)
    requires k.Valid() && Inv(k, s) && Memory(k.ring, s.ring.mem) && CommitStep(k, s, s', t)
    ensures Inv(k, s')
  {
    hide R.Inv, A.AloneInv, T.Inv, F.Layout, Span, Payload, TableLinked;
    RingProof.CommitInv(k.ring, s.ring, s'.ring, t, false);
    RingProof.FillRecord(k.ring, s.ring, t);
    OwnersApart(k.ring, s.ring, t);
  }

  lemma OwnersApart(c: Config, r: R.State, t: nat)
    requires c.Valid() && R.Inv(c, r) && t in r.producers && r.producers[t].Filling?
    ensures forall u :: u in r.producers && u != t && r.producers[u].Filling? ==> r.producers[u].rec != r.producers[t].rec
  {
  }

  /** The bytes the profiler reads are those of the oldest event under way, and it understands them. */
  lemma ReadsOldest(k: System, s: State, s': State)
    requires k.Valid() && Inv(k, s) && Memory(k.ring, s.ring.mem) && ProcessStep(k, s, s')
    ensures s.lib.queue != [] && s'.lib == T.Processed(s.lib, s.lib.queue[0]).(queue := s.lib.queue[1..])
    ensures Delivered(s.ring) < |s.events|
    ensures match s.events[Delivered(s.ring)]
            case Allocation(e) =>
              var read := s.lib.queue[0];
              && read.Alloc? && read.addr == e.addr && read.value == e.period && read.stack.pid == e.pid
              && read.stack.tid == e.tid && read.stack.locs == k.unwind(e.regs, e.stack, e.dynSize)
            case Deallocation(_, _, _, ptr) => s.lib.queue[0] == H.Dealloc(ptr)
    ensures s'.ring.log == s.ring.log && Delivered(s'.ring) == Delivered(s.ring) + 1
    ensures R.Inv(k.ring, s'.ring) && s'.ring.producers == s.ring.producers
  {
    hide R.Inv, A.AloneInv, T.Inv, F.Layout, F.Understand, TableLinked, R.Received;
    HeldRecord(k.ring, s.ring);
    RingProof.ProcessInv(k.ring, s.ring, s'.ring);
    var i := Delivered(s.ring);
    assert s.ring.log[i].Sent() == R.Message(8 * |F.Layout(s.events[i])|, F.Layout(s.events[i]));
    F.EventUnderstood(s.events[i], s.sample);
  }

  lemma HeldRecord(c: Config, r: R.State)
    requires c.Valid() && R.Inv(c, r) && r.reader.Holding?
    ensures 0 < r.interCount <= |r.log| && r.log[r.interCount - 1].status == R.Committed
  {
    hide R.LogOk, R.Tiled, R.MemoryOk, R.LockOk, R.TailsOk, R.OwnersOk, R.InOrder, R.OnceEach, R.OutputOk;
  }

  lemma ProcessInv(k: System, s: State, s': State)
    requires k.Valid() && Inv(k, s) && Memory(k.ring, s.ring.mem) && ProcessStep(k, s, s')
    ensures Inv(k, s')
  {
    hide R.Inv, A.AloneInv, T.Inv, R.ProcessStep, F.Layout, F.Understand, Acted;
    ReadsOldest(k, s, s');
    assert T.DeliverStep(s.lib, s'.lib);
    T.DeliverInv(s.lib, s'.lib);
    assert s'.lib.tracked == s.lib.tracked && s'.lib.ops == s.lib.ops;
  }

  // ----- the table -----

  lemma ThreadInv(k: System, s: State, s': State, t: nat, a: nat, stack: H.Stack, value: int)
    requires k.Valid() && Inv(k, s) && ThreadStep(s, s', t, a, stack, value)
    ensures Inv(k, s')
  {
    hide R.Inv, A.AloneInv, T.Inv, RingLinked, WritingOk, ThreadStep, TableLinked, TableAfter;
    ThreadMoves(s, s', t, a, stack, value);
    T.NextInv(s.lib, s'.lib);
    ThreadLinked(s, s', t);
    StartAlone(k, s, s', t);
  }

  /** Such a step moves one thread and leaves the set alone. */
  ghost predicate Moves(s: State, s': State, t: nat) {
    && t !in s.tbl.ops && s' == s.(lib := s'.lib, tbl := TableAfter(s.tbl, s'.lib, t))
    && s'.lib.tracked == s.lib.tracked && s'.lib.queue == s.lib.queue
    && (t in s'.lib.ops ==> (s'.lib.ops[t].AllocAdd? ==> !s'.lib.ops[t].claimed) && (s'.lib.ops[t].FreeRemove? ==> !s'.lib.ops[t].taken))
    && forall u :: u != t ==> (u in s'.lib.ops <==> u in s.lib.ops) && (u in s.lib.ops ==> s'.lib.ops[u] == s.lib.ops[u])
  }

  lemma ThreadMoves(s: State, s': State, t: nat, a: nat, stack: H.Stack, value: int)
    requires ThreadStep(s, s', t, a, stack, value)
    ensures T.Next(s.lib, s'.lib) && Moves(s, s', t)
  {
    hide T.Next, TableAfter;
    assert T.Next(s.lib, s'.lib) by { ThreadNext(s, s', t, a, stack, value); }
  }

  lemma ThreadNext(s: State, s': State, t: nat, a: nat, stack: H.Stack, value: int)
    requires ThreadStep(s, s', t, a, stack, value)
    ensures T.Next(s.lib, s'.lib)
  {
    hide T.AllocStep, T.AllocPushStep, T.AllocSettleStep, T.FreeStep, T.FreePushStep, T.ReturnStep, TableAfter;
    assert T.AllocStep(s.lib, s'.lib, t, a) ==> T.NextStep(s.lib, s'.lib, T.AllocBegins(t, a));
    assert T.AllocPushStep(s.lib, s'.lib, t, T.Lost, stack, value) ==> T.NextStep(s.lib, s'.lib, T.AllocPushes(t, T.Lost, stack, value));
    assert T.AllocSettleStep(s.lib, s'.lib, t) ==> T.NextStep(s.lib, s'.lib, T.AllocSettles(t));
    assert T.FreeStep(s.lib, s'.lib, t, a) ==> T.NextStep(s.lib, s'.lib, T.FreeBegins(t, a));
    assert T.FreePushStep(s.lib, s'.lib, t, T.Lost) ==> T.NextStep(s.lib, s'.lib, T.FreePushes(t, T.Lost));
    assert T.ReturnStep(s.lib, s'.lib, t) ==> T.NextStep(s.lib, s'.lib, T.Returns(t));
  }

  lemma ThreadLinked(s: State, s': State, t: nat)
    requires TableLinked(s.tbl, s.lib) && Moves(s, s', t)
    ensures TableLinked(s'.tbl, s'.lib)
  {
  }

  /** Operations on the table start only on addresses nobody works on, and an address is not added twice. */
  lemma StartAlone(k: System, s: State, s': State, t: nat)
    requires k.Valid() && A.AloneInv(k.table, s.tbl) && T.Inv(s'.lib) && TableLinked(s.tbl, s.lib) && Moves(s, s', t)
    ensures A.AloneInv(k.table, s'.tbl)
  {
    hide A.AloneInv, T.Inv;
    if t in s'.lib.ops && SetOp(s'.lib.ops[t]) {
      var b := s'.lib.ops[t].addr;
      var step := if s'.lib.ops[t].AllocAdd? then A.StartAdd(t, b) else A.StartRemove(t, b);
      OpsOf(s'.lib, t);
      assert forall u :: u in s.tbl.ops ==> u in s'.lib.ops && s'.lib.ops[u].addr == s.tbl.ops[u].addr && u != t;
      assert A.Untouched(s.tbl, b);
      assert A.NextStep(k.table, s.tbl, s'.tbl, step);
      A.AloneNext(k.table, s.tbl, s'.tbl, step);
    }
  }

  lemma OpsOf(lib: T.State, t: nat)
    requires T.Inv(lib) && t in lib.ops
    ensures lib.ops[t].addr > A.DELETED && (lib.ops[t].AllocAdd? && !lib.ops[t].claimed ==> lib.ops[t].addr !in lib.tracked)
    ensures forall u :: u in lib.ops && u != t ==> lib.ops[u].addr != lib.ops[t].addr
  {
    assert T.OpOk(lib, lib.ops[t], T.Future(lib));
  }

  /** What an access to the table does is a step of the library's set, or nothing the library sees. */
  lemma TableStepIs(k: System, s: State, s': State, t: nat)
    requires k.Valid() && Inv(k, s) && TableStep(k, s, s', t)
    ensures s'.lib.queue == s.lib.queue
    ensures s'.lib == s.lib || exists ok :: T.MoveStep(s.lib, s'.lib, t, ok)
  {
    hide R.Inv, T.SetsOk, T.KeysAfter, T.UnmatchedIn, T.BooksOk, T.QueueOk, T.NoLoss, RingLinked, WritingOk;
    hide A.Inv, A.Single, A.ExactLog, A.Apart;
    assert StageOk(s.tbl.ops[t], s.lib.ops[t]);
    assert T.OpOk(s.lib, s.lib.ops[t], T.Future(s.lib));
    assert A.OpAlone(s.tbl.slots, s.tbl.hist, s.tbl.ops[t]);
    if A.Claims(k.table, s.tbl, t) {
      assert T.MoveStep(s.lib, s'.lib, t, true);
    } else if A.Deletes(k.table, s.tbl, t) {
      A.EffectSlots(k.table, s.tbl, t);
      assert T.MoveStep(s.lib, s'.lib, t, false);
    } else if t !in A.StepOf(k.table, s.tbl, t).ops {
      A.AnswerIs(k.table, s.tbl, t);
      if A.Removing(s.tbl.ops[t]) { A.MissIsAbsent(k.table, s.tbl, t); }
      var ok := s'.tbl.log[|s.tbl.log|].ok;
      assert s'.lib.ops[t] != s.lib.ops[t] ==> T.MoveStep(s.lib, s'.lib, t, ok);
    }
  }

  lemma TableStays(k: System, s: State, s': State, t: nat)
    requires k.Valid() && Inv(k, s) && TableStep(k, s, s', t)
    ensures TableLinked(s'.tbl, s'.lib)
  {
    hide R.Inv, T.Inv, RingLinked, WritingOk, A.AloneInv, A.Pos, A.OpAlone, A.Inv;
    hide A.StepOf, LibAfter, StageOk;
    SlotsTrack(k, s, s', t);
    StageMoves(k, s, s', t);
  }

  /** The effect of an access on the slots is its effect on the set. */
  lemma SlotsTrack(k: System, s: State, s': State, t: nat)
    requires k.Valid() && A.AloneInv(k.table, s.tbl) && TableLinked(s.tbl, s.lib) && TableStep(k, s, s', t)
    ensures forall a: nat :: a in s'.lib.tracked <==> a > A.DELETED && a in s'.tbl.slots
  {
    hide A.AloneInv, A.StepOf, A.Claims, A.Deletes, StageOk;
    if A.Claims(k.table, s.tbl, t) || A.Deletes(k.table, s.tbl, t) {
      A.EffectSlots(k.table, s.tbl, t);
      A.NotBoth(k.table, s.tbl, t);
    } else {
      A.NoEffect(k.table, s.tbl, t);
    }
  }

  lemma StageMoves(k: System, s: State, s': State, t: nat)
    requires k.Valid() && TableLinked(s.tbl, s.lib) && TableStep(k, s, s', t)
    ensures forall u :: u != t ==> (u in s'.tbl.ops <==> u in s.tbl.ops) && (u in s.tbl.ops ==> s'.tbl.ops[u] == s.tbl.ops[u])
    ensures forall u :: u != t ==> (u in s'.lib.ops <==> u in s.lib.ops) && (u in s.lib.ops ==> s'.lib.ops[u] == s.lib.ops[u])
    ensures t in s'.lib.ops && (t in s'.tbl.ops ==> StageOk(s'.tbl.ops[t], s'.lib.ops[t]))
    ensures SetOp(s'.lib.ops[t]) ==> t in s'.tbl.ops
  {
    hide A.StepOf, A.Claims, A.Deletes, LibAfter, TableLinked;
    assert StageOk(s.tbl.ops[t], s.lib.ops[t]) by { StageOf(s.tbl, s.lib, t); }
    A.Progress(k.table, s.tbl, t);
    LibMoves(k, s, t);
  }

  lemma StageOf(tbl: A.State, lib: T.State, t: nat)
    requires TableLinked(tbl, lib) && t in tbl.ops
    ensures t in lib.ops && StageOk(tbl.ops[t], lib.ops[t])
  {
  }

  /** How the thread's place in the library follows its table operation. */
  lemma LibMoves(k: System, s: State, t: nat)
    requires k.Valid() && |s.tbl.slots| == k.table.size && t in s.tbl.ops && t in s.lib.ops
    ensures var ops := LibAfter(k, s, t).ops; var a := s.tbl.ops[t].addr;
            && t in ops && ops == s.lib.ops[t := ops[t]]
            && (A.Claims(k.table, s.tbl, t) ==> ops[t] == T.AllocAdd(a, true))
            && (!A.Claims(k.table, s.tbl, t) && A.Deletes(k.table, s.tbl, t) ==> ops[t] == T.FreeRemove(a, true) || ops[t] == T.Returning(a))
            && (!A.Claims(k.table, s.tbl, t) && !A.Deletes(k.table, s.tbl, t) ==>
                  && (t in A.StepOf(k.table, s.tbl, t).ops ==> ops[t] == s.lib.ops[t])
                  && (t !in A.StepOf(k.table, s.tbl, t).ops ==> !SetOp(ops[t])))
  {
    hide A.StepOf, A.Claims, A.Deletes;
    A.EndsLogged(k.table, s.tbl, t);
  }

  lemma TableInv(k: System, s: State, s': State, t: nat)
    requires k.Valid() && Inv(k, s) && TableStep(k, s, s', t)
    ensures Inv(k, s')
  {
    hide R.Inv, A.AloneInv, T.Inv, T.MoveStep, A.StepOf, TableLinked, LibAfter, RingLinked, WritingOk;
    TableStays(k, s, s', t);
    TableStepIs(k, s, s', t);
    assert A.NextStep(k.table, s.tbl, s'.tbl, A.Access(t));
    A.AloneNext(k.table, s.tbl, s'.tbl, A.Access(t));
    if s'.lib != s.lib {
      var ok :| T.MoveStep(s.lib, s'.lib, t, ok);
      T.MoveInv(s.lib, s'.lib, t, ok);
    }
  }

  lemma OtherInv(k: System, s: State, s': State, a: nat)
    requires k.Valid() && Inv(k, s) && OtherStep(s, s', a)
    ensures Inv(k, s')
  {
    hide R.Inv, A.AloneInv, T.Inv;
    T.QuietInv(s.lib, s'.lib, a);
  }

  lemma NextInv(k: System, s: State, s': State)
    requires k.Valid() && Inv(k, s) && Next(k, s, s')
    ensures Inv(k, s')
  {
    hide Inv, RingStep, ReserveStep, CommitStep, ProcessStep, ThreadStep, TableStep, OtherStep;
    if step :| RingStep(k, s, s', step) { RingInv(k, s, s', step); }
    else if t, push, w, stack, value :| ReserveStep(k, s, s', t, push, w, stack, value) {
      ReserveInv(k, s, s', t, push, w, stack, value);
    }
    else if t :| CommitStep(k, s, s', t) { CommitInv(k, s, s', t); }
    else if ProcessStep(k, s, s') { ProcessInv(k, s, s'); }
    else if t, a, stack, value :| ThreadStep(s, s', t, a, stack, value) { ThreadInv(k, s, s', t, a, stack, value); }
    else if t :| TableStep(k, s, s', t) { TableInv(k, s, s', t); }
    else {
      var a :| OtherStep(s, s', a);
      OtherInv(k, s, s', a);
    }
  }

  // ----- runs -----

  ghost predicate Run(k: System, ss: seq<State>)
    requires k.Valid()
  {
    && |ss| > 0 && Init(k, ss[0])
    && forall i, j :: 0 <= i < j < |ss| && j == i + 1 ==> Next(k, ss[i], ss[j])
  }

  lemma InitInv(k: System, s: State)
    requires k.Valid() && Init(k, s)
    ensures Inv(k, s)
  {
    hide R.Inv, A.AloneInv;
    RingProof.InitInv(k.ring, s.ring);
    A.InitAlone(k.table, s.tbl);
    assert T.Future(s.lib) == {};
  }

  lemma {:induction false} RunInv(k: System, ss: seq<State>, i: nat)
    requires k.Valid() && Run(k, ss) && i < |ss|
    ensures Inv(k, ss[i])
  {
    hide Inv, Next, Init;
    if i == 0 {
      InitInv(k, ss[0]);
    } else {
      RunInv(k, ss, i - 1);
      NextInv(k, ss[i - 1], ss[i]);
    }
  }

  /** Every record has been read and no thread is inside the tracker. */
  ghost predicate Settled(s: State) { s.lib.ops == map[] && Delivered(s.ring) >= |s.ring.log| }

  /** In every interleaving of program threads and profiler, down to the slots of the address table and
      the words in shared memory: once settled, the profiler's table agrees with the addresses in the
      library's table as `Agreement` says, its books balance, and it could not match exactly the
      deallocations of addresses it had forgotten. */
  lemma LibraryAndProfilerAgree(k: System, ss: seq<State>, i: nat)
    requires k.Valid() && Run(k, ss) && i < |ss| && Settled(ss[i])
    ensures ss[i].lib.tracked == A.AddressesIn(ss[i].tbl.slots)
    ensures T.Agreement(ss[i].lib) && H.Accounted(ss[i].lib.table)
  {
    hide Run, R.Inv, A.AloneInv, T.Inv, H.Accounted, T.Agreement;
    RunInv(k, ss, i);
    T.SettledAgreement(ss[i].lib);
  }

  /** The library reports the number of addresses it tracks, and the profiler compares it with the number
      it holds. With the tracker up, no deallocation event lost and no wakeup failed, the numbers differ
      exactly when the profiler has forgotten something, and by how much it has. */
  lemma CountsCompare(k: System, ss: seq<State>, i: nat)
    requires k.Valid() && Run(k, ss) && i < |ss| && Settled(ss[i])
    requires ss[i].lib.tracking && T.NoLoss(ss[i].lib)
    ensures ss[i].tbl.count == |ss[i].lib.table.addrs| + |ss[i].lib.forgotten|
    ensures ss[i].tbl.count == |ss[i].lib.table.addrs| <==> ss[i].lib.forgotten == {}
  {
    hide Run, R.Inv, A.AloneInv, T.Inv, H.Accounted, A.AddressesIn;
    RunInv(k, ss, i);
    LibraryAndProfilerAgree(k, ss, i);
    var s := ss[i];
    assert s.tbl.ops == map[] by { assert forall t :: t !in s.tbl.ops; }
    A.CountAtRest(k.table, s.tbl);
    assert |s.lib.table.addrs.Keys| == |s.lib.table.addrs|;
    assert |s.lib.table.addrs.Keys + s.lib.forgotten| == |s.lib.table.addrs.Keys| + |s.lib.forgotten|;
  }
}
