/** The ordered loop never gets stuck: every call can return, and one that drains can leave the rings empty. */
module OrderedProgress {
  import opened EventHeap
  import opened OrderedLoop
  import opened Paths

  ghost function Steps(c: Config): (State, State) -> bool { (s, s') => Next(c, s, s') }

  // ----- how much is left -----

  function Held(ring: Ring): nat { if ring.freed <= |ring.events| then |ring.events| - ring.freed else 0 }

  function Remaining(rings: seq<Ring>): nat {
    if rings == [] then 0 else Remaining(rings[..|rings| - 1]) + Held(rings[|rings| - 1])
  }

  lemma {:induction false} RemainingUpdate(rings: seq<Ring>, r: nat, ring: Ring)
    requires r < |rings|
    ensures Remaining(rings[r := ring]) == Remaining(rings) - Held(rings[r]) + Held(ring)
  {
    hide Held;
    var n := |rings| - 1;
    var rings' := rings[r := ring];
    if r == n {
      assert rings'[..n] == rings[..n];
    } else {
      assert rings'[..n] == rings[..n][r := ring];
      RemainingUpdate(rings[..n], r, ring);
    }
  }

  function Phase(s: State): nat {
    match s.pc
    case Outside => 0
    case Emptying(_, _, _) => 1
    case Refilling(_, _, _, _) => 2
    case Scanning(_, _, next, _) => if next <= |s.rings| then |s.rings| - next + 3 else 3
  }

  /** Rings already looked at in this turn are read up to their last event, or have one in the queue. */
  ghost predicate Caught(s: State) {
    !s.pc.Outside? ==>
      var upTo := if s.pc.Scanning? then s.pc.next else |s.rings|;
      forall r :: 0 <= r < upTo && r < |s.rings| && Idle(s.rings, s.pc, r) ==> s.rings[r].read == |s.rings[r].events|
  }

  ghost predicate SameEvents(s: State, s': State) {
    |s'.rings| == |s.rings| && forall r :: 0 <= r < |s.rings| ==> s'.rings[r].events == s.rings[r].events
  }

  ghost predicate Empty(s: State) {
    s.queue == [] && forall r :: 0 <= r < |s.rings| ==> s.rings[r].freed == |s.rings[r].events|
  }

  // ----- one step of the worker -----

  ghost predicate InRange(s: State) { s.pc.Scanning? ==> s.pc.next <= |s.rings| }

  /** What every step of the worker inside a call brings about. */
  ghost predicate Nearer(c: Config, s: State, s': State) {
    && Next(c, s, s') && SameEvents(s, s') && s'.clock == s.clock && InRange(s')
    && (Remaining(s'.rings) < Remaining(s.rings) || (Remaining(s'.rings) == Remaining(s.rings) && Phase(s') < Phase(s)))
    && (!s'.pc.Outside? ==> s'.pc.drain == s.pc.drain && (Caught(s) ==> Caught(s')))
    && (s'.pc.Outside? && s.pc.drain && Caught(s) ==> Empty(s'))
  }

  lemma ScanNearer(c: Config, s: State) returns (s': State)
    requires Inv(c, s) && s.pc.Scanning? && s.pc.next < |s.rings|
    ensures Nearer(c, s, s')
  {
    hide QueueOk, HandedOver, Watermark, Sorted, Push, Remaining;
    var r := s.pc.next;
    var ring := s.rings[r];
    if !ring.HasInflight() && ring.read < |ring.events| {
      var e := Event(ring.events[ring.read], r, ring.read);
      var ring' := ring.(read := ring.read + 1);
      RemainingUpdate(s.rings, r, ring');
      s' := s.(rings := s.rings[r := ring'], queue := Push(s.queue, e), pc := s.pc.(next := r + 1, found := true));
      assert ScanStep(c, s, s', e);
      assert RingOk(ring) by { RingAt(s.rings, r); }
    } else {
      s' := s.(pc := s.pc.(next := r + 1));
      assert ScanStep(c, s, s', Event(0, 0, 0));
      assert RingOk(ring) by { RingAt(s.rings, r); }
    }
  }

  lemma ProcessNearer(c: Config, s: State) returns (s': State)
    requires Inv(c, s) && s.pc.Emptying? && s.queue != []
    ensures Nearer(c, s, s')
  {
    hide HandedOver, Watermark, Sorted, Remaining;
    var e := s.queue[0];
    if !s.pc.drain && e.ts > s.pc.now - c.latency {
      s' := s.(pc := Outside);
      assert ProcessStep(c, s, s');
    } else {
      assert e in multiset(s.queue);
      assert Inflight(s.rings, e);
      var ring := s.rings[e.ring];
      assert RingOk(ring) by { RingAt(s.rings, e.ring); }
      var ring' := ring.(freed := ring.read);
      RemainingUpdate(s.rings, e.ring, ring');
      s' := s.(out := s.out + [e], rings := s.rings[e.ring := ring'], pc := Refilling(s.pc.now, s.pc.drain, s.pc.found, e));
      assert ProcessStep(c, s, s');
    }
  }

  lemma RefillNearer(c: Config, s: State) returns (s': State)
    requires Inv(c, s) && s.pc.Refilling?
    ensures Nearer(c, s, s')
  {
    hide HandedOver, Watermark, Sorted, Remaining, Push, IsHeap;
    var r, pc := s.pc.done.ring, Emptying(s.pc.now, s.pc.drain, s.pc.found);
    var ring := s.rings[r];
    assert RingOk(ring) by { RingAt(s.rings, r); }
    if ring.read < |ring.events| {
      var e := Event(ring.events[ring.read], r, ring.read);
      var ring' := ring.(read := ring.read + 1);
      RemainingUpdate(s.rings, r, ring');
      PushHeap(s.queue, e);
      assert |multiset(Push(s.queue, e))| > 0;
      PopExists(Push(s.queue, e));
      var q :| Pops(Push(s.queue, e), q);
      s' := s.(rings := s.rings[r := ring'], queue := q, pc := pc);
      assert RefillStep(c, s, s', e);
    } else {
      PopExists(s.queue);
      var q :| Pops(s.queue, q);
      s' := s.(queue := q, pc := pc);
      assert RefillStep(c, s, s', Event(0, 0, 0));
    }
  }

  lemma TurnNearer(c: Config, s: State) returns (s': State)
    requires Inv(c, s) && ((s.pc.Emptying? && s.queue == []) || (s.pc.Scanning? && s.pc.next == |s.rings|))
    ensures Nearer(c, s, s')
  {
    hide HandedOver, Watermark, Sorted, Remaining;
    if s.pc.Emptying? {
      s' := s.(pc := Outside);
      assert TurnStep(c, s, s', false);
      forall r | 0 <= r < |s.rings| ensures !s.rings[r].HasInflight() { NoneInflight(c, s, r); }
    } else {
      s' := s.(pc := Emptying(s.pc.now, s.pc.drain, s.pc.found));
      assert ScanDoneStep(c, s, s');
    }
  }

  lemma NoneInflight(c: Config, s: State, r: nat)
    requires Inv(c, s) && s.pc.Emptying? && s.queue == [] && r < |s.rings|
    ensures !s.rings[r].HasInflight()
  {
    hide HandedOver, Watermark, Sorted;
    var ring := s.rings[r];
    assert RingOk(ring) by { RingAt(s.rings, r); }
    if ring.freed < |ring.events| {
      var e := Event(ring.events[ring.freed], r, ring.freed);
      assert multiset(s.queue)[e] == 0;
      assert !Inflight(s.rings, e);
    }
  }

  // ----- whole calls -----

  lemma {:induction false} CallCanReturn(c: Config, s: State) returns (s': State)
    requires Inv(c, s) && InRange(s)
    ensures Reaches(Steps(c), s, s') && Inv(c, s') && s'.pc.Outside? && SameEvents(s, s') && s'.clock == s.clock
    ensures if s.pc.Outside? then s' == s else s.pc.drain && Caught(s) ==> Empty(s')
    decreases Remaining(s.rings), Phase(s)
  {
    hide Inv, Next, Reaches, Caught, Empty, Remaining, Phase;
    if s.pc.Outside? {
      s' := s;
      Stays(Steps(c), s);
    } else {
      var s1;
      match s.pc {
        case Refilling(_, _, _, _) => s1 := RefillNearer(c, s);
        case Scanning(_, _, next, _) =>
          if next < |s.rings| { s1 := ScanNearer(c, s); } else { s1 := TurnNearer(c, s); }
        case Emptying(_, _, _) =>
          if s.queue == [] { s1 := TurnNearer(c, s); } else { s1 := ProcessNearer(c, s); }
      }
      NextInv(c, s, s1);
      s' := CallCanReturn(c, s1);
      Precede(Steps(c), s, s1, s');
    }
  }

  lemma DrainCanFollow(c: Config, s: State) returns (s': State)
    requires Inv(c, s) && s.pc.Outside?
    ensures Reaches(Steps(c), s, s') && Inv(c, s') && s'.pc.Outside? && SameEvents(s, s') && s'.clock == s.clock && Empty(s')
  {
    hide QueueOk, HandedOver, Watermark, Sorted, Reaches, Empty;
    var s1 := s.(pc := Scanning(s.clock, true, 0, false), drained := true);
    assert BeginStep(c, s, s1, true);
    NextInv(c, s, s1);
    assert Caught(s1);
    s' := CallCanReturn(c, s1);
    Precede(Steps(c), s, s1, s');
  }

  lemma {:induction false} RunInRange(c: Config, ss: seq<State>, i: nat)
    requires Run(c, ss) && i < |ss|
    ensures InRange(ss[i])
  {
    hide Push, Pops;
    if i > 0 {
      RunInRange(c, ss, i - 1);
      assert Next(c, ss[i - 1], ss[i]);
    }
  }

  /** In every run, at every moment and however much later: a call under way can return, and a call that drains can then
      process all events there are, whatever the rings and the queue hold. Each ring's events are out, in ring order. */
  lemma EverythingCanBeDrained(c: Config, ss: seq<State>, i: nat, now: int) returns (s': State)
    requires Run(c, ss) && i < |ss| && now >= ss[i].clock
    ensures Reaches(Steps(c), ss[i], s') && s'.pc.Outside? && s'.clock == now && SameEvents(ss[i], s') && s'.queue == []
    ensures forall r :: 0 <= r < |s'.rings| ==>
              && |From(s'.out, r)| == |ss[i].rings[r].events| == s'.rings[r].freed
              && forall k :: 0 <= k < |From(s'.out, r)| ==> From(s'.out, r)[k] == k
  {
    hide Run, QueueOk, Watermark, Sorted, Reaches, From;
    RunInv(c, ss, i);
    RunInRange(c, ss, i);
    var s1 := ss[i].(clock := now);
    assert TickStep(c, ss[i], s1);
    NextInv(c, ss[i], s1);
    var s2 := CallCanReturn(c, s1);
    Precede(Steps(c), ss[i], s1, s2);
    s' := DrainCanFollow(c, s2);
    Joined(Steps(c), ss[i], s2, s');
  }

  /** At every moment the kernel can append to any ring an event as late as its last one or later, and no older than
      the latency. */
  lemma KernelNeverWaits(c: Config, s: State, r: nat, ts: int)
    requires r < |s.rings| && ts >= s.clock - c.latency
    requires s.rings[r].events != [] ==> ts >= s.rings[r].events[|s.rings[r].events| - 1]
    ensures exists s' :: Next(c, s, s') && s'.pc == s.pc && |s'.rings| == |s.rings| && s'.rings[r].events == s.rings[r].events + [ts]
  {
    assert WriteStep(c, s, s.(rings := s.rings[r := s.rings[r].(events := s.rings[r].events + [ts])]), r, ts);
  }
}
