/** `worker_process_ring_buffers_ordered` over perf ring buffers: a merge by timestamp through the
    priority queue, while the kernel keeps writing and the clock keeps running. */
module OrderedLoop {
  import opened EventHeap

  /** A perf ring: the timestamps of all events ever visible in it, how many were read
      (`intermediate_reader_pos`) and how many were given back (`reader_pos`). */
  datatype Ring = Ring(events: seq<int>, read: nat, freed: nat) {
    predicate HasInflight() { read != freed }
  }

  datatype Pc =
    | Outside                                                  // not in the function
    | Scanning(now: int, drain: bool, next: nat, found: bool)  // reading one event from each ring
    | Emptying(now: int, drain: bool, found: bool)             // processing the queue
    | Refilling(now: int, drain: bool, found: bool, done: Event)  // processed `done`, about to read its successor

  /** `out` and `drained` (some call was asked to drain) are history. */
  datatype State = State(clock: int, rings: seq<Ring>, queue: seq<Event>, pc: Pc, out: seq<Event>, drained: bool)

  /** `kMaxSampleLatency`: longest delay between an event's timestamp and its appearance. */
  datatype Config = Config(latency: nat, rings: nat)

  predicate Init(c: Config, s: State) {
    && |s.rings| == c.rings && (forall r :: 0 <= r < |s.rings| ==> s.rings[r] == Ring([], 0, 0))
    && s.queue == [] && s.pc == Outside && s.out == [] && !s.drained
  }

  /** The kernel appends an event: not before the ring's last one, and no later than the latency. */
  ghost predicate WriteStep(c: Config, s: State, s': State, r: nat, ts: int) {
    && r < |s.rings|
    && var ring := s.rings[r];
    && (|ring.events| > 0 ==> ring.events[|ring.events| - 1] <= ts)
    && s.clock <= ts + c.latency
    && s' == s.(rings := s.rings[r := ring.(events := ring.events + [ts])])
  }

  ghost predicate TickStep(c: Config, s: State, s': State) {
    s'.clock >= s.clock && s' == s.(clock := s'.clock)
  }

  /** The function is called, at shutdown to drain the rings: read the clock. */
  ghost predicate BeginStep(c: Config, s: State, s': State, drain: bool) {
    s.pc == Outside && s' == s.(pc := Scanning(s.clock, drain, 0, false), drained := s.drained || drain)
  }

  /** `perf_rb_read_event`: the next event of a ring, if one is visible. */
  ghost predicate Reads(s: State, r: nat, e: Event, rings: seq<Ring>) {
    && r < |s.rings| && s.rings[r].read < |s.rings[r].events|
    && e == Event(s.rings[r].events[s.rings[r].read], r, s.rings[r].read)
    && rings == s.rings[r := s.rings[r].(read := s.rings[r].read + 1)]
  }

  ghost predicate ScanStep(c: Config, s: State, s': State, e: Event) {
    && s.pc.Scanning? && s.pc.next < |s.rings|
    && var r := s.pc.next;
    && if !s.rings[r].HasInflight() && s.rings[r].read < |s.rings[r].events|
       then && Reads(s, r, e, s'.rings)
            && s' == s.(rings := s'.rings, queue := Push(s.queue, e), pc := s.pc.(next := r + 1, found := true))
       else s' == s.(pc := s.pc.(next := r + 1))
  }

  ghost predicate ScanDoneStep(c: Config, s: State, s': State) {
    && s.pc.Scanning? && s.pc.next == |s.rings|
    && s' == s.(pc := Emptying(s.pc.now, s.pc.drain, s.pc.found))
  }

  /** Process the top of the queue unless it is too recent, and free its slot. Draining, nothing is. */
  ghost predicate ProcessStep(c: Config, s: State, s': State) {
    && s.pc.Emptying? && s.queue != []
    && var e := s.queue[0];
    && if !s.pc.drain && e.ts > s.pc.now - c.latency then s' == s.(pc := Outside)
       else && e.ring < |s.rings|
            && s' == s.(out := s.out + [e],
                        rings := s.rings[e.ring := s.rings[e.ring].(freed := s.rings[e.ring].read)],
                        pc := Refilling(s.pc.now, s.pc.drain, s.pc.found, e))
  }

  /** Push the successor of the processed event, if visible, then pop the queue. */
  ghost predicate RefillStep(c: Config, s: State, s': State, e: Event) {
    && s.pc.Refilling?
    && var r := s.pc.done.ring;
    && r < |s.rings|
    && if s.rings[r].read < |s.rings[r].events|
       then && Reads(s, r, e, s'.rings) && Pops(Push(s.queue, e), s'.queue)
            && s' == s.(rings := s'.rings, queue := s'.queue, pc := Emptying(s.pc.now, s.pc.drain, s.pc.found))
       else && Pops(s.queue, s'.queue)
            && s' == s.(queue := s'.queue, pc := Emptying(s.pc.now, s.pc.drain, s.pc.found))
  }

  /** The queue is empty: return, or go on with a new clock reading if events were found. */
  ghost predicate TurnStep(c: Config, s: State, s': State, again: bool) {
    && s.pc.Emptying? && s.queue == []
    && s' == s.(pc := if again && s.pc.found then Scanning(s.clock, s.pc.drain, 0, false) else Outside)
  }

  ghost predicate Next(c: Config, s: State, s': State) {
    || (exists r: nat, ts: int :: WriteStep(c, s, s', r, ts))
    || TickStep(c, s, s')
    || BeginStep(c, s, s', true) || BeginStep(c, s, s', false)
    || (exists e :: ScanStep(c, s, s', e))
    || ScanDoneStep(c, s, s')
    || ProcessStep(c, s, s')
    || (exists e :: RefillStep(c, s, s', e))
    || (exists again: bool :: TurnStep(c, s, s', again))
  }

  // ----- invariant -----

  ghost predicate RingOk(ring: Ring) {
    && ring.freed <= ring.read <= ring.freed + 1 && ring.read <= |ring.events|
    && forall i, j :: 0 <= i < j < |ring.events| ==> ring.events[i] <= ring.events[j]
  }

  ghost predicate RingsOk(rings: seq<Ring>) {
    forall r :: 0 <= r < |rings| ==> RingOk(rings[r])
  }

  predicate Inflight(rings: seq<Ring>, e: Event) {
    && e.ring < |rings|
    && var ring := rings[e.ring];
    && ring.read == ring.freed + 1 && e.index == ring.freed
    && e.index < |ring.events| && e.ts == ring.events[e.index]
  }

  /** The queue holds each in-flight event once and nothing else; while its successor is being read,
      the event just processed is still on top. */
  ghost predicate QueueOk(rings: seq<Ring>, queue: seq<Event>, pc: Pc) {
    && IsHeap(queue)
    && (pc.Refilling? ==> queue != [] && queue[0] == pc.done)
    && forall e :: multiset(queue)[e] ==
         if Inflight(rings, e) || (pc.Refilling? && e == pc.done) then 1 else 0
  }

  ghost predicate DoneOk(rings: seq<Ring>, pc: Pc) {
    pc.Refilling? ==>
      && pc.done.ring < |rings|
      && var ring := rings[pc.done.ring];
      && ring.read == ring.freed == pc.done.index + 1 <= |ring.events|
      && pc.done.ts == ring.events[pc.done.index]
  }

  /** Events of `out` that come from ring `r`, as indices into the ring. */
  function From(out: seq<Event>, r: nat): seq<nat> {
    if out == [] then []
    else From(out[..|out| - 1], r) + (if out[|out| - 1].ring == r then [out[|out| - 1].index] else [])
  }

  ghost predicate HandedOver(rings: seq<Ring>, out: seq<Event>) {
    forall r :: 0 <= r < |rings| ==>
      |From(out, r)| == rings[r].freed && forall k :: 0 <= k < rings[r].freed ==> From(out, r)[k] == k
  }

  predicate Idle(rings: seq<Ring>, pc: Pc, r: nat)
    requires r < |rings|
  {
    !rings[r].HasInflight() && !(pc.Refilling? && r == pc.done.ring)
  }

  /** Rings already looked at in this turn hold nothing old that is not in the queue. */
  ghost predicate Watermark(c: Config, rings: seq<Ring>, pc: Pc) {
    var upTo := if pc.Scanning? then pc.next else |rings|;
    !pc.Outside? ==>
      forall r, k :: 0 <= r < upTo && r < |rings| && Idle(rings, pc, r) && rings[r].read <= k < |rings[r].events| ==>
        rings[r].events[k] >= pc.now - c.latency
  }

  /** As long as no call drains, the order is kept. */
  ghost predicate Sorted(c: Config, s: State) {
    !s.drained ==>
    && (forall i, j :: 0 <= i < j < |s.out| ==> s.out[i].ts <= s.out[j].ts)
    && (s.out != [] ==>
          && s.out[|s.out| - 1].ts <= s.clock - c.latency
          && forall r, k :: 0 <= r < |s.rings| && s.rings[r].freed <= k < |s.rings[r].events| ==>
               s.out[|s.out| - 1].ts <= s.rings[r].events[k])
  }

  ghost predicate Inv(c: Config, s: State) {
    && RingsOk(s.rings)
    && QueueOk(s.rings, s.queue, s.pc)
    && DoneOk(s.rings, s.pc)
    && HandedOver(s.rings, s.out)
    && Watermark(c, s.rings, s.pc)
    && (!s.pc.Outside? ==> s.pc.now <= s.clock && (s.pc.drain ==> s.drained))
    && (s.pc.Refilling? ==> s.out != [] && s.out[|s.out| - 1] == s.pc.done)
    && Sorted(c, s)
  }

  lemma InitInv(c: Config, s: State)
    requires Init(c, s)
    ensures Inv(c, s)
  {
  }

  lemma WriteInv(c: Config, s: State, s': State, r: nat, ts: int)
    requires Inv(c, s) && WriteStep(c, s, s', r, ts)
    ensures Inv(c, s')
  {
    hide QueueOk, RingsOk, HandedOver, Watermark, Sorted;
    WriteQueue(s, s', r);
    WriteRings(c, s, s', r, ts);
    WriteTimes(c, s, s', r, ts);
  }

  lemma WriteRings(c: Config, s: State, s': State, r: nat, ts: int)
    requires RingsOk(s.rings) && HandedOver(s.rings, s.out) && WriteStep(c, s, s', r, ts)
    ensures RingsOk(s'.rings) && HandedOver(s'.rings, s'.out)
  {
    hide From;
    assert RingOk(s'.rings[r]);
  }

  lemma WriteTimes(c: Config, s: State, s': State, r: nat, ts: int)
    requires RingsOk(s.rings) && Watermark(c, s.rings, s.pc) && Sorted(c, s) && WriteStep(c, s, s', r, ts)
    requires !s.pc.Outside? ==> s.pc.now <= s.clock
    ensures Watermark(c, s'.rings, s'.pc) && Sorted(c, s')
  {
    assert RingOk(s.rings[r]);
  }

  lemma WriteQueue(s: State, s': State, r: nat)
    requires QueueOk(s.rings, s.queue, s.pc) && RingsOk(s.rings) && r < |s.rings|
    requires exists ts :: s' == s.(rings := s.rings[r := s.rings[r].(events := s.rings[r].events + [ts])])
    ensures QueueOk(s'.rings, s'.queue, s'.pc)
  {
    hide IsHeap;
    forall e ensures Inflight(s'.rings, e) == Inflight(s.rings, e) {
      assert r < |s.rings| ==> RingOk(s.rings[r]);
    }
  }

  lemma QuietInv(c: Config, s: State, s': State, again: bool)
    requires Inv(c, s)
    requires TickStep(c, s, s') || BeginStep(c, s, s', again) || ScanDoneStep(c, s, s') || TurnStep(c, s, s', again)
    ensures Inv(c, s')
  {
    hide IsHeap, From, RingsOk;
  }

  /** Reading an event of a ring without one in flight makes exactly that event in flight. */
  lemma ReadsOne(s: State, r: nat, e: Event, rings: seq<Ring>)
    requires RingsOk(s.rings) && Reads(s, r, e, rings) && !s.rings[r].HasInflight()
    ensures RingsOk(rings) && Inflight(rings, e) && !Inflight(s.rings, e)
    ensures forall x :: Inflight(rings, x) <==> Inflight(s.rings, x) || x == e
  {
    assert RingOk(rings[r]);
    forall x ensures Inflight(rings, x) <==> Inflight(s.rings, x) || x == e {
      if x.ring == r { assert !Inflight(s.rings, x); }
    }
  }

  lemma ScanInv(c: Config, s: State, s': State, e: Event)
    requires Inv(c, s) && ScanStep(c, s, s', e)
    ensures Inv(c, s')
  {
    hide IsHeap, From, Push, RingsOk, Inflight;
    var r := s.pc.next;
    if !s.rings[r].HasInflight() && s.rings[r].read < |s.rings[r].events| {
      ReadsOne(s, r, e, s'.rings);
      PushHeap(s.queue, e);
    }
  }

  /** At the moment of processing nothing visible is earlier than the top of the queue. */
  lemma NothingEarlier(c: Config, s: State, r: nat, k: nat)
    requires Inv(c, s) && s.pc.Emptying? && s.queue != [] && s.queue[0].ts <= s.pc.now - c.latency
    requires r < |s.rings| && s.rings[r].freed <= k < |s.rings[r].events|
    ensures s.queue[0].ts <= s.rings[r].events[k]
  {
    var ring := s.rings[r];
    assert RingOk(ring);
    if ring.HasInflight() {
      var e := Event(ring.events[ring.freed], r, ring.freed);
      assert Inflight(s.rings, e);
      assert e in multiset(s.queue);
      var i :| 0 <= i < |s.queue| && s.queue[i] == e;
      TopIsEarliest(s.queue, i);
    } else {
      assert Idle(s.rings, s.pc, r);
    }
  }

  lemma {:induction false} FromSnoc(out: seq<Event>, e: Event, r: nat)
    ensures From(out + [e], r) == From(out, r) + (if e.ring == r then [e.index] else [])
  {
    assert (out + [e])[..|out|] == out;
  }

  lemma ProcessInv(c: Config, s: State, s': State)
    requires Inv(c, s) && ProcessStep(c, s, s')
    ensures Inv(c, s')
  {
    hide IsHeap, From, QueueOk;
    ProcessQueue(c, s, s');
    if s.pc.drain || s.queue[0].ts <= s.pc.now - c.latency {
      var e := s.queue[0];
      forall r | 0 <= r < |s.rings| {
        FromSnoc(s.out, e, r);
      }
      forall r: nat, k: nat | !s.drained && r < |s.rings| && s.rings[r].freed <= k < |s.rings[r].events|
        ensures e.ts <= s.rings[r].events[k]
      {
        NothingEarlier(c, s, r, k);
      }
    }
  }

  lemma ProcessQueue(c: Config, s: State, s': State)
    requires RingsOk(s.rings) && QueueOk(s.rings, s.queue, s.pc) && ProcessStep(c, s, s')
    ensures QueueOk(s'.rings, s'.queue, s'.pc)
    ensures var e := s.queue[0]; Inflight(s.rings, e) && RingOk(s.rings[e.ring])
  {
    hide IsHeap;
    var e := s.queue[0];
    assert multiset(s.queue)[e] > 0;
    assert RingOk(s.rings[e.ring]);
    if s.pc.drain || s.queue[0].ts <= s.pc.now - c.latency {
      forall x ensures Inflight(s'.rings, x) <==> Inflight(s.rings, x) && x != e {
      }
    }
  }

  lemma RefillInv(c: Config, s: State, s': State, e: Event)
    requires Inv(c, s) && RefillStep(c, s, s', e)
    ensures Inv(c, s')
  {
    hide IsHeap, From, Push, RingsOk, Inflight;
    var done := s.pc.done;
    if s.rings[done.ring].read < |s.rings[done.ring].events| {
      assert RingOk(s.rings[done.ring]) by { RingAt(s.rings, done.ring); }
      ReadsOne(s, done.ring, e, s'.rings);
      PushHeap(s.queue, e);
      assert Push(s.queue, e)[0] == done;
    }
    assert !Inflight(s.rings, done) by { DoneNotInflight(s.rings, s.pc); }
    assert Watermark(c, s'.rings, s'.pc);
    var q := if s.rings[done.ring].read < |s.rings[done.ring].events| then Push(s.queue, e) else s.queue;
    forall x
      ensures multiset(s'.queue)[x] == if Inflight(s'.rings, x) then 1 else 0
    {
      assert multiset(q)[x] == multiset(s'.queue)[x] + (if x == done then 1 else 0);
    }
  }

  lemma RingAt(rings: seq<Ring>, r: nat)
    requires RingsOk(rings) && r < |rings|
    ensures RingOk(rings[r])
  {
  }

  lemma DoneNotInflight(rings: seq<Ring>, pc: Pc)
    requires DoneOk(rings, pc) && pc.Refilling?
    ensures !Inflight(rings, pc.done)
  {
  }

  lemma NextInv(c: Config, s: State, s': State)
    requires Inv(c, s) && Next(c, s, s')
    ensures Inv(c, s')
  {
    hide Inv, WriteStep, TickStep, BeginStep, ScanStep, ScanDoneStep, ProcessStep, RefillStep, TurnStep;
    if r: nat, ts: int :| WriteStep(c, s, s', r, ts) { WriteInv(c, s, s', r, ts); }
    else if e :| ScanStep(c, s, s', e) { ScanInv(c, s, s', e); }
    else if e :| RefillStep(c, s, s', e) { RefillInv(c, s, s', e); }
    else if again: bool :| TurnStep(c, s, s', again) { QuietInv(c, s, s', again); }
    else if ProcessStep(c, s, s') { ProcessInv(c, s, s'); }
    else if BeginStep(c, s, s', true) { QuietInv(c, s, s', true); }
    else { QuietInv(c, s, s', false); }
  }

  ghost predicate Run(c: Config, ss: seq<State>) {
    && |ss| > 0 && Init(c, ss[0])
    && forall i, j :: 0 <= i < j < |ss| && j == i + 1 ==> Next(c, ss[i], ss[j])
  }

  lemma {:induction false} RunInv(c: Config, ss: seq<State>, i: nat)
    requires Run(c, ss) && i < |ss|
    ensures Inv(c, ss[i])
  {
    hide Inv, Next, Init;
    if i == 0 {
      InitInv(c, ss[0]);
    } else {
      RunInv(c, ss, i - 1);
      NextInv(c, ss[i - 1], ss[i]);
    }
  }

  /** Over every run, across all calls until one drains at shutdown: events are processed in
      non-decreasing timestamp order. */
  lemma ProcessedInTimeOrder(c: Config, ss: seq<State>, i: nat)
    requires Run(c, ss) && i < |ss| && !ss[i].drained
    ensures forall a, b :: 0 <= a < b < |ss[i].out| ==> ss[i].out[a].ts <= ss[i].out[b].ts
  {
    hide Run;
    RunInv(c, ss, i);
  }

  /** The call that began at state `i` is still going on at state `j`. */
  ghost predicate OneCall(ss: seq<State>, i: nat, j: nat)
    requires i < j < |ss|
  {
    ss[i].pc.Outside? && forall m :: i < m <= j ==> !ss[m].pc.Outside?
  }

  /** A call never works with a clock reading from before it began. */
  lemma {:induction false} CallClock(c: Config, ss: seq<State>, i: nat, j: nat)
    requires Run(c, ss) && i < j < |ss| && OneCall(ss, i, j)
    ensures ss[j].pc.now >= ss[i].clock && ss[j].clock >= ss[i].clock
    decreases j
  {
    hide Init, Inv, Push, Pops;
    RunInv(c, ss, j - 1);
    assert Next(c, ss[j - 1], ss[j]);
    if j > i + 1 { CallClock(c, ss, i, j - 1); }
    NextClock(c, ss[j - 1], ss[j]);
  }

  lemma NextClock(c: Config, s: State, s': State)
    requires Next(c, s, s')
    ensures s'.clock >= s.clock
    ensures s.pc.Outside? && !s'.pc.Outside? ==> s'.pc.now == s.clock
    ensures !s.pc.Outside? && !s'.pc.Outside? ==> s'.pc.now == s.pc.now || s'.pc.now == s.clock
  {
    hide Push, Pops, Reads;
  }

  /** In every run: when a call returns, draining or not, every event older than the latency at the time it
      was called has been processed: what any ring still holds is at least as recent. */
  lemma CallLeavesNothingOld(c: Config, ss: seq<State>, i: nat, j: nat, r: nat, k: nat)
    requires Run(c, ss) && i < j && j + 1 < |ss| && OneCall(ss, i, j) && ss[j + 1].pc.Outside?
    requires r < |ss[j + 1].rings| && ss[j + 1].rings[r].freed <= k < |ss[j + 1].rings[r].events|
    ensures ss[j + 1].rings[r].events[k] >= ss[i].clock - c.latency
  {
    hide Run, Inv;
    RunInv(c, ss, j);
    CallClock(c, ss, i, j);
    assert Next(c, ss[j], ss[j + 1]) by { StepOf(c, ss, j); }
    EndOfCall(c, ss[j], ss[j + 1], r, k);
  }

  lemma StepOf(c: Config, ss: seq<State>, j: nat)
    requires Run(c, ss) && j + 1 < |ss|
    ensures Next(c, ss[j], ss[j + 1])
  {
    hide Init, Next;
  }

  lemma EndOfCall(c: Config, s: State, s': State, r: nat, k: nat)
    requires Inv(c, s) && Next(c, s, s') && !s.pc.Outside? && s'.pc.Outside?
    requires r < |s'.rings| && s'.rings[r].freed <= k < |s'.rings[r].events|
    ensures s'.rings[r].events[k] >= s.pc.now - c.latency
  {
    hide Push, Pops, From, HandedOver, Sorted;
    assert s'.rings == s.rings && s.pc.Emptying?;
    assert s.queue != [] ==> s.queue[0].ts > s.pc.now - c.latency;
    hide Next;
    OldIsQueued(c, s, r, k);
  }

  /** While the queue is processed, an event not given back is in the queue, behind one that is, or recent. */
  lemma OldIsQueued(c: Config, s: State, r: nat, k: nat)
    requires Inv(c, s) && s.pc.Emptying? && (s.queue != [] ==> s.queue[0].ts >= s.pc.now - c.latency)
    requires r < |s.rings| && s.rings[r].freed <= k < |s.rings[r].events|
    ensures s.rings[r].events[k] >= s.pc.now - c.latency
  {
    hide From, HandedOver, Sorted;
    var ring := s.rings[r];
    assert RingOk(ring) by { RingAt(s.rings, r); }
    if ring.HasInflight() {
      var e := Event(ring.events[ring.freed], r, ring.freed);
      assert Inflight(s.rings, e);
      assert e in multiset(s.queue);
      var i :| 0 <= i < |s.queue| && s.queue[i] == e;
      TopIsEarliest(s.queue, i);
    } else {
      assert Idle(s.rings, s.pc, r);
    }
  }

  /** In every run, until a call drains: an event is processed only once it is older than the latency. */
  lemma ProcessedOldOnly(c: Config, ss: seq<State>, i: nat, a: nat)
    requires Run(c, ss) && i < |ss| && !ss[i].drained && a < |ss[i].out|
    ensures ss[i].out[a].ts <= ss[i].clock - c.latency
  {
    hide Run;
    RunInv(c, ss, i);
  }

  /** Over every run, draining or not, each ring's events are handed over once each and in ring order, at most one of
      them is in flight, and the queue holds exactly the events in flight. */
  lemma HandedOverOnceInRingOrder(c: Config, ss: seq<State>, i: nat, r: nat)
    requires Run(c, ss) && i < |ss| && r < |ss[i].rings|
    ensures var s := ss[i]; var ring := s.rings[r];
            && |From(s.out, r)| == ring.freed && (forall k :: 0 <= k < ring.freed ==> From(s.out, r)[k] == k)
            && ring.freed <= ring.read <= ring.freed + 1 && ring.read <= |ring.events|
            && (!s.pc.Refilling? ==> forall e :: multiset(s.queue)[e] == if Inflight(s.rings, e) then 1 else 0)
  {
    hide Run, From, IsHeap;
    RunInv(c, ss, i);
    RingAt(ss[i].rings, r);
  }

  // ----- draining gives up the order -----

  lemma Continued(c: Config, ss: seq<State>, s': State) returns (ss': seq<State>)
    requires Run(c, ss) && Next(c, ss[|ss| - 1], s')
    ensures Run(c, ss') && ss'[|ss'| - 1] == s'
  {
    hide Init, Next;
    ss' := ss + [s'];
  }

  const TWO_RINGS: Config := Config(10, 2)

  /** The first ring's event of time 10 is visible, and a call is draining. */
  function Drained(pc: Pc): State { State(10, [Ring([10], 0, 0), Ring([], 0, 0)], [], pc, [], true) }

  lemma BeginDraining() returns (ss: seq<State>)
    ensures Run(TWO_RINGS, ss) && ss[|ss| - 1] == Drained(Scanning(10, true, 0, false))
  {
    hide Run;
    var s0 := State(10, [Ring([], 0, 0), Ring([], 0, 0)], [], Outside, [], false);
    var s1 := Drained(Outside).(drained := false);
    ss := Begun(s0);
    assert s0.rings[0].events + [10] == [10];
    assert WriteStep(TWO_RINGS, s0, s1, 0, 10);
    ss := Continued(TWO_RINGS, ss, s1);
    assert BeginStep(TWO_RINGS, s1, Drained(Scanning(10, true, 0, false)), true);
    ss := Continued(TWO_RINGS, ss, Drained(Scanning(10, true, 0, false)));
  }

  lemma Begun(s: State) returns (ss: seq<State>)
    requires Init(TWO_RINGS, s)
    ensures Run(TWO_RINGS, ss) && ss[|ss| - 1] == s
  {
    ss := [s];
  }

  function First(): Event { Event(10, 0, 0) }
  function Second(): Event { Event(5, 1, 0) }

  /** It was read and processed, though younger than the latency. */
  function FirstOut(pc: Pc): State { State(10, [Ring([10], 1, 1), Ring([], 0, 0)], [], pc, [First()], true) }

  lemma PushOne(e: Event)
    ensures Push([], e) == [e] && Pops([e], []) && IsHeap([e])
  {
    assert [] + [e] == [e];
  }

  lemma FirstGoes() returns (ss: seq<State>)
    ensures Run(TWO_RINGS, ss) && ss[|ss| - 1] == FirstOut(Emptying(10, true, true))
  {
    hide Run, Push, Pops;
    var s0 := Drained(Scanning(10, true, 0, false));
    var s1 := State(10, [Ring([10], 1, 0), Ring([], 0, 0)], [First()], Scanning(10, true, 1, true), [], true);
    var s2, s3 := s1.(pc := Scanning(10, true, 2, true)), s1.(pc := Emptying(10, true, true));
    var s4 := FirstOut(Refilling(10, true, true, First())).(queue := [First()]);
    PushOne(First());
    ss := BeginDraining();
    assert ScanStep(TWO_RINGS, s0, s1, First());
    ss := Continued(TWO_RINGS, ss, s1);
    assert ScanStep(TWO_RINGS, s1, s2, First());
    ss := Continued(TWO_RINGS, ss, s2);
    assert ScanDoneStep(TWO_RINGS, s2, s3);
    ss := Continued(TWO_RINGS, ss, s3);
    assert ProcessStep(TWO_RINGS, s3, s4);
    ss := Continued(TWO_RINGS, ss, s4);
    assert RefillStep(TWO_RINGS, s4, FirstOut(Emptying(10, true, true)), First());
    ss := Continued(TWO_RINGS, ss, FirstOut(Emptying(10, true, true)));
  }

  /** An event of time 5 shows up, and the call goes on. */
  function LateSeen(pc: Pc): State { FirstOut(pc).(rings := [Ring([10], 1, 1), Ring([5], 0, 0)]) }

  lemma LateArrives() returns (ss: seq<State>)
    ensures Run(TWO_RINGS, ss) && ss[|ss| - 1] == LateSeen(Scanning(10, true, 1, false))
  {
    hide Run;
    var s0, s1, s2 := FirstOut(Emptying(10, true, true)), LateSeen(Emptying(10, true, true)), LateSeen(Scanning(10, true, 0, false));
    ss := FirstGoes();
    assert s0.rings[1].events + [5] == [5];
    assert WriteStep(TWO_RINGS, s0, s1, 1, 5);
    ss := Continued(TWO_RINGS, ss, s1);
    assert TurnStep(TWO_RINGS, s1, s2, true);
    ss := Continued(TWO_RINGS, ss, s2);
    assert ScanStep(TWO_RINGS, s2, LateSeen(Scanning(10, true, 1, false)), Second());
    ss := Continued(TWO_RINGS, ss, LateSeen(Scanning(10, true, 1, false)));
  }

  /** A call that drains does not wait for late events: an event of time 5 that shows up within the
      latency is processed after one of time 10. */
  lemma DrainingDisorders() returns (ss: seq<State>)
    ensures Run(TWO_RINGS, ss) && ss[|ss| - 1].out == [First(), Second()] && First().ts > Second().ts
  {
    hide Run, Push, Pops;
    var s3 := LateSeen(Scanning(10, true, 1, false));
    var s4 := s3.(rings := [Ring([10], 1, 1), Ring([5], 1, 0)], queue := [Second()], pc := Scanning(10, true, 2, true));
    var s5 := s4.(pc := Emptying(10, true, true));
    var s6 := s5.(rings := [Ring([10], 1, 1), Ring([5], 1, 1)], out := [First(), Second()],
                  pc := Refilling(10, true, true, Second()));
    PushOne(Second());
    ss := LateArrives();
    assert ScanStep(TWO_RINGS, s3, s4, Second());
    ss := Continued(TWO_RINGS, ss, s4);
    assert ScanDoneStep(TWO_RINGS, s4, s5);
    ss := Continued(TWO_RINGS, ss, s5);
    assert ProcessStep(TWO_RINGS, s5, s6);
    ss := Continued(TWO_RINGS, ss, s6);
  }
}
