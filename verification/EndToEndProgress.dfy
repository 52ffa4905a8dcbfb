/** Library, ring and profiler never get stuck together: from every reachable state they can come to rest. */
module EndToEndProgress {
  import opened RingWords
  import R = MpscRing
  import RingProof = MpscRingProof
  import RingProgress = MpscProgress
  import A = AddressTable
  import T = TrackingSync
  import H = LiveHeap
  import F = SampleFormat
  import opened EndToEnd
  import opened Paths

  ghost function Steps(k: System): (State, State) -> bool
    requires k.Valid()
  {
    (s, s') => Next(k, s, s')
  }

  /** What the argument needs of a state. */
  ghost predicate Sound(k: System, s: State)
    requires k.Valid()
  {
    Inv(k, s) && RingProgress.BusyOwned(s.ring)
  }

  lemma RingMoves(k: System, s: State, s': State)
    requires k.Valid() && Next(k, s, s')
    ensures s'.ring == s.ring || R.Next(k.ring, s.ring, s'.ring)
  {
    hide R.NextStep, F.Layout, Meaning, Span, Payload, F.Understand, LibAfter;
    if step :| RingStep(k, s, s', step) { assert R.NextStep(k.ring, s.ring, s'.ring, step); }
    else if t, push, w, stack, value :| ReserveStep(k, s, s', t, push, w, stack, value) {
      PublishMoves(k.ring, s.ring, s'.ring, t);
    }
    else if t :| CommitStep(k, s, s', t) { CommitMoves(k.ring, s.ring, s'.ring, t); }
    else if ProcessStep(k, s, s') { ProcessMoves(k.ring, s.ring, s'.ring); }
  }

  lemma PublishMoves(c: Config, r: R.State, r': R.State, t: nat)
    requires c.Valid() && Memory(c, r.mem) && R.PublishStep(c, r, r', t)
    ensures R.Next(c, r, r')
  {
    assert R.NextStep(c, r, r', R.Publish(t));
  }

  lemma CommitMoves(c: Config, r: R.State, r': R.State, t: nat)
    requires c.Valid() && Memory(c, r.mem) && R.CommitStep(c, r, r', t, false)
    ensures R.Next(c, r, r')
  {
    assert R.NextStep(c, r, r', R.Commit(t, false));
  }

  lemma ProcessMoves(c: Config, r: R.State, r': R.State)
    requires c.Valid() && Memory(c, r.mem) && R.ProcessStep(c, r, r')
    ensures R.Next(c, r, r')
  {
    assert R.NextStep(c, r, r', R.Process);
  }

  lemma NextSound(k: System, s: State, s': State)
    requires k.Valid() && Sound(k, s) && Next(k, s, s')
    ensures Sound(k, s')
  {
    hide Next, RingProgress.BusyOwned, R.Inv, A.AloneInv, T.Inv, RingLinked, WritingOk, TableLinked;
    NextInv(k, s, s');
    RingMoves(k, s, s');
    if s'.ring != s.ring { RingProgress.NextOwned(k.ring, s.ring, s'.ring); }
  }

  lemma {:induction false} RunSound(k: System, ss: seq<State>, i: nat)
    requires k.Valid() && Run(k, ss) && i < |ss|
    ensures Sound(k, ss[i])
  {
    hide Next, Inv;
    if i == 0 {
      InitInv(k, ss[0]);
    } else {
      RunSound(k, ss, i - 1);
      NextSound(k, ss[i - 1], ss[i]);
    }
  }

  // ----- threads return to the program -----

  function StageLeft(op: T.Op): nat {
    match op
    case AllocAdd(_, _) => 6
    case AllocPush(_, _, _) => 5
    case AllocSettle(_, _, _, _) => 4
    case Undo(_, _) => 3
    case FreeRemove(_, _) => 3
    case FreePush(_) => 2
    case Returning(_) => 1
  }

  function TableLeft(tbl: A.State, t: nat): nat { if t in tbl.ops then A.Left(tbl.ops[t]) + 1 else 0 }

  /** One access of the thread to the table. */
  lemma TableNearer(k: System, s: State, t: nat) returns (s': State)
    requires k.Valid() && Sound(k, s) && t in s.tbl.ops
    ensures t in s.lib.ops && Next(k, s, s') && s'.ring == s.ring && t in s'.lib.ops
    ensures s'.lib.ops.Keys == s.lib.ops.Keys
    ensures StageLeft(s'.lib.ops[t]) <= StageLeft(s.lib.ops[t]) && TableLeft(s'.tbl, t) < TableLeft(s.tbl, t)
  {
    hide R.Inv, A.AloneInv, T.Inv, RingLinked, WritingOk, RingProgress.BusyOwned, A.StepOf, A.Left, LibAfter, TableLinked;
    assert Memory(k.ring, s.ring.mem) by { RingMemory(k, s); }
    assert |s.tbl.slots| == k.table.size by { TableSize(k, s); }
    ClaimStage(k, s, t);
    s' := s.(tbl := A.StepOf(k.table, s.tbl, t), lib := LibAfter(k, s, t));
    assert TableStep(k, s, s', t);
    A.AccessNearer(k.table, s.tbl, t);
    StageNearer(k, s, t);
  }

  lemma StageNearer(k: System, s: State, t: nat)
    requires k.Valid() && |s.tbl.slots| == k.table.size && t in s.tbl.ops && t in s.lib.ops
    requires A.Claims(k.table, s.tbl, t) ==> s.lib.ops[t].AllocAdd?
    requires A.Deletes(k.table, s.tbl, t) ==> s.lib.ops[t].FreeRemove? || s.lib.ops[t].Undo?
    ensures var lib := LibAfter(k, s, t);
            t in lib.ops && lib.ops.Keys == s.lib.ops.Keys && StageLeft(lib.ops[t]) <= StageLeft(s.lib.ops[t])
  {
    hide A.StepOf, A.Claims, A.Deletes;
  }

  lemma ClaimStage(k: System, s: State, t: nat)
    requires k.Valid() && |s.tbl.slots| == k.table.size && TableLinked(s.tbl, s.lib) && t in s.tbl.ops
    ensures t in s.lib.ops
    ensures A.Claims(k.table, s.tbl, t) ==> s.lib.ops[t].AllocAdd?
    ensures A.Deletes(k.table, s.tbl, t) ==> s.lib.ops[t].FreeRemove? || s.lib.ops[t].Undo?
  {
  }

  lemma RingMemory(k: System, s: State)
    requires k.Valid() && R.Inv(k.ring, s.ring)
    ensures Memory(k.ring, s.ring.mem)
  {
  }

  lemma TableSize(k: System, s: State)
    requires k.Valid() && A.AloneInv(k.table, s.tbl)
    ensures |s.tbl.slots| == k.table.size
  {
    hide A.Inv;
    A.SlotCount(k.table, s.tbl);
  }

  /** The state of the library after a thread's next step outside the table, if its event does not fit. */
  function LibNext(lib: T.State, t: nat): T.State
    requires t in lib.ops
  {
    match lib.ops[t]
    case AllocPush(a, added, sampled) => lib.(ops := lib.ops[t := T.AllocSettle(a, added, sampled, T.Lost)])
    case AllocSettle(a, added, sampled, push) =>
      if push != T.Queued && lib.tracking && sampled != 0 then lib.(ops := lib.ops[t := T.Undo(a, push == T.Lost)])
      else lib.(ops := lib.ops[t := T.Returning(a)],
                orphans := if added && push == T.Lost then lib.orphans + {a} else lib.orphans,
                strays := if !added && sampled != 0 && push != T.Lost then lib.strays + {a} else lib.strays)
    case FreePush(a) => lib.(ops := lib.ops[t := T.Returning(a)], lostFrees := lib.lostFrees + 1)
    case _ => lib.(ops := lib.ops - {t})
  }

  lemma LibNearer(lib: T.State, t: nat)
    requires t in lib.ops && !SetOp(lib.ops[t])
    ensures var lib' := LibNext(lib, t);
            && (|| T.AllocPushStep(lib, lib', t, T.Lost, H.Stack(0, 0, []), 1) || T.AllocSettleStep(lib, lib', t)
                || T.FreePushStep(lib, lib', t, T.Lost) || T.ReturnStep(lib, lib', t))
            && lib'.ops.Keys <= lib.ops.Keys && (forall u :: u in lib.ops && u != t ==> u in lib'.ops)
            && (t in lib'.ops ==> StageLeft(lib'.ops[t]) < StageLeft(lib.ops[t]))
  {
  }

  lemma ThreadNearer(k: System, s: State, t: nat) returns (s': State)
    requires k.Valid() && Sound(k, s) && t in s.lib.ops && t !in s.tbl.ops
    ensures Next(k, s, s') && s'.ring == s.ring && s'.lib.ops.Keys <= s.lib.ops.Keys
    ensures forall u :: u in s.lib.ops && u != t ==> u in s'.lib.ops
    ensures t in s'.lib.ops ==> StageLeft(s'.lib.ops[t]) < StageLeft(s.lib.ops[t])
  {
    hide R.Inv, A.AloneInv, T.Inv, RingLinked, WritingOk, RingProgress.BusyOwned, LibNext, StageLeft;
    hide T.AllocPushStep, T.AllocSettleStep, T.FreePushStep, T.ReturnStep, T.AllocStep, T.FreeStep, TableAfter;
    assert Memory(k.ring, s.ring.mem) by { RingMemory(k, s); }
    LibNearer(s.lib, t);
    var lib := LibNext(s.lib, t);
    s' := s.(lib := lib, tbl := TableAfter(s.tbl, lib, t));
    assert ThreadStep(s, s', t, 2, H.Stack(0, 0, []), 1);
  }

  lemma {:induction false} ThreadCanReturn(k: System, s: State, t: nat) returns (s': State)
    requires k.Valid() && Sound(k, s) && t in s.lib.ops
    ensures Reaches(Steps(k), s, s') && Sound(k, s') && s'.ring == s.ring
    ensures s'.lib.ops.Keys <= s.lib.ops.Keys && t !in s'.lib.ops
    decreases StageLeft(s.lib.ops[t]), TableLeft(s.tbl, t)
  {
    hide Next, Sound, Reaches, StageLeft, TableLeft;
    var s1;
    if t in s.tbl.ops { s1 := TableNearer(k, s, t); } else { s1 := ThreadNearer(k, s, t); }
    NextSound(k, s, s1);
    if t in s1.lib.ops {
      s' := ThreadCanReturn(k, s1, t);
    } else {
      s' := s1;
      Stays(Steps(k), s1);
    }
    Precede(Steps(k), s, s1, s');
  }

  lemma {:induction false} ThreadsCanReturn(k: System, s: State) returns (s': State)
    requires k.Valid() && Sound(k, s)
    ensures Reaches(Steps(k), s, s') && Sound(k, s') && s'.lib.ops == map[] && s'.ring == s.ring
    decreases |s.lib.ops.Keys|
  {
    hide Sound, Reaches;
    if s.lib.ops == map[] {
      s' := s;
      Stays(Steps(k), s);
    } else {
      var t :| t in s.lib.ops;
      var s1 := ThreadCanReturn(k, s, t);
      assert s1.lib.ops.Keys <= s.lib.ops.Keys - {t};
      Smaller(s1.lib.ops.Keys, s.lib.ops.Keys, t);
      s' := ThreadsCanReturn(k, s1);
      Joined(Steps(k), s, s1, s');
    }
  }

  lemma Smaller(x: set<nat>, y: set<nat>, t: nat)
    requires x <= y - {t} && t in y
    ensures |x| < |y|
  {
    Subset(x, y - {t});
  }

  lemma {:induction false} Subset(x: set<nat>, y: set<nat>)
    requires x <= y
    ensures |x| <= |y|
  {
    if x != {} {
      var e :| e in x;
      Subset(x - {e}, y - {e});
    }
  }

  // ----- records are finished -----

  function Fillers(r: R.State): set<nat> { set t | t in r.producers && r.producers[t].Filling? }

  lemma EventFits(k: System, s: State, t: nat)
    requires k.Valid() && Inv(k, s) && t in Fillers(s.ring)
    ensures t in s.writing && |F.Layout(s.writing[t])| + 1 == Span(s.ring.producers[t].size)
    ensures Memory(k.ring, s.ring.mem)
  {
    hide R.Inv, A.AloneInv, T.Inv, TableLinked, F.Layout;
    RingProof.FillRecord(k.ring, s.ring, t);
    RingMemory(k, s);
  }

  /** The thread writes the words of its event that are still missing, and commits. */
  lemma {:induction false} RecordCanBeFinished(k: System, s: State, t: nat, n: nat) returns (s': State)
    requires k.Valid() && Sound(k, s) && t in s.writing && Memory(k.ring, s.ring.mem)
    requires RingProgress.Written(k.ring, s.ring, t, F.Layout(s.writing[t]), n)
    ensures Reaches(Steps(k), s, s') && Sound(k, s') && s'.lib == s.lib && Fillers(s'.ring) == Fillers(s.ring) - {t}
    decreases |F.Layout(s.writing[t])| - n
  {
    hide Sound, Reaches, Next, F.Layout, R.NextStep, RingProgress.Written;
    var words := F.Layout(s.writing[t]);
    assert n <= |words| by { WrittenIs(k, s, t, words, n); }
    var s1;
    if n < |words| {
      s1 := WriteWord(k, s, t, words, n);
      NextSound(k, s, s1);
      s' := RecordCanBeFinished(k, s1, t, n + 1);
      assert s1.ring.producers == s.ring.producers;
      assert Fillers(s1.ring) == Fillers(s.ring);
    } else {
      s1 := CommitEvent(k, s, t);
      NextSound(k, s, s1);
      s' := s1;
      Stays(Steps(k), s1);
    }
    Precede(Steps(k), s, s1, s');
  }

  lemma WrittenIs(k: System, s: State, t: nat, words: seq<nat>, n: nat)
    requires k.Valid() && Memory(k.ring, s.ring.mem) && RingProgress.Written(k.ring, s.ring, t, words, n)
    ensures t in s.ring.producers && s.ring.producers[t].Filling?
    ensures n <= |words| && |words| + 1 == Span(s.ring.producers[t].size)
    ensures n == |words| ==> Payload(k.ring, s.ring.mem, s.ring.producers[t].start, Span(s.ring.producers[t].size)) == words
  {
    hide Load, Span;
  }

  lemma WriteWord(k: System, s: State, t: nat, words: seq<nat>, n: nat) returns (s': State)
    requires k.Valid() && Sound(k, s) && Memory(k.ring, s.ring.mem)
    requires RingProgress.Written(k.ring, s.ring, t, words, n) && n < |words|
    ensures Next(k, s, s') && s' == s.(ring := s'.ring) && s'.ring == s.ring.(mem := s'.ring.mem) && Memory(k.ring, s'.ring.mem)
    ensures RingProgress.Written(k.ring, s'.ring, t, words, n + 1)
  {
    hide R.Inv, A.AloneInv, T.Inv, RingLinked, WritingOk, TableLinked, R.NextStep, RingProgress.Written, RingProgress.BusyOwned;
    var r := RingProgress.WriteNext(k.ring, s.ring, t, words, n);
    s' := s.(ring := r);
    assert RingStep(k, s, s', R.Fill(t, n, words[n]));
  }

  lemma CommitEvent(k: System, s: State, t: nat) returns (s': State)
    requires k.Valid() && Sound(k, s) && Memory(k.ring, s.ring.mem) && t in s.writing
    requires RingProgress.Written(k.ring, s.ring, t, F.Layout(s.writing[t]), |F.Layout(s.writing[t])|)
    ensures Next(k, s, s') && s'.lib == s.lib && Fillers(s'.ring) == Fillers(s.ring) - {t}
  {
    hide R.Inv, A.AloneInv, T.Inv, RingLinked, WritingOk, TableLinked, RingProgress.Written, RingProgress.BusyOwned, F.Layout;
    hide R.CommitStep, Span, Payload;
    var words := F.Layout(s.writing[t]);
    WrittenIs(k, s, t, words, |words|);
    var r := RingProgress.CommitWritten(k.ring, s.ring, t, words);
    assert R.CommitStep(k.ring, s.ring, r, t, false);
    s' := s.(ring := r, writing := s.writing - {t});
    assert CommitStep(k, s, s', t);
  }

  lemma {:induction false} RecordsCanBeFinished(k: System, s: State) returns (s': State)
    requires k.Valid() && Sound(k, s)
    ensures Reaches(Steps(k), s, s') && Sound(k, s') && s'.lib == s.lib && RingProgress.NoneBusy(s'.ring.log)
    decreases |Fillers(s.ring)|
  {
    hide Inv, Reaches, Next, F.Layout, Span, RingProgress.Written, Fillers;
    if Fillers(s.ring) == {} {
      s' := s;
      Stays(Steps(k), s);
      forall i | 0 <= i < |s.ring.log| ensures s.ring.log[i].status != R.Busy {
        if s.ring.log[i].status == R.Busy {
          var p :| RingProgress.OwnerOf(s.ring, p, i);
          OwnerFills(s.ring, p, i);
        }
      }
    } else {
      var t :| t in Fillers(s.ring);
      EventFits(k, s, t);
      assert RingProgress.Written(k.ring, s.ring, t, F.Layout(s.writing[t]), 0) by { NothingWritten(k, s, t); }
      var s1 := RecordCanBeFinished(k, s, t, 0);
      s' := RecordsCanBeFinished(k, s1);
      Joined(Steps(k), s, s1, s');
    }
  }

  lemma OwnerFills(r: R.State, p: nat, i: nat)
    requires RingProgress.OwnerOf(r, p, i)
    ensures p in Fillers(r)
  {
  }

  lemma NothingWritten(k: System, s: State, t: nat)
    requires k.Valid() && Memory(k.ring, s.ring.mem) && t in Fillers(s.ring) && t in s.writing
    requires |F.Layout(s.writing[t])| + 1 == Span(s.ring.producers[t].size)
    ensures RingProgress.Written(k.ring, s.ring, t, F.Layout(s.writing[t]), 0)
  {
  }

  // ----- the profiler reads -----

  lemma ProfilerNearer(k: System, s: State) returns (s': State)
    requires k.Valid() && Sound(k, s)
    ensures Next(k, s, s') && Memory(k.ring, s.ring.mem) && s'.ring == RingProgress.Consumed(k.ring, s.ring)
    ensures s'.lib.ops == s.lib.ops
  {
    hide A.AloneInv, T.Inv, RingLinked, WritingOk, TableLinked, RingProgress.BusyOwned, R.Inv, F.Understand, R.Received;
    hide R.ReadTurn, Load;
    RingProgress.ConsumerAdvances(k.ring, s.ring);
    var r := RingProgress.Consumed(k.ring, s.ring);
    RingProgress.UnorderedReader(k.ring, s.ring);
    if s.ring.reader.Holding? {
      var (sample, u) := F.Understand(r.out[|r.out| - 1].words, s.sample);
      s' := s.(ring := r, sample := sample, lib := Acted(k, s.lib, u));
      assert ProcessStep(k, s, s');
    } else {
      s' := s.(ring := r);
      assert RingStep(k, s, s', RingProgress.ConsumerStep(s.ring.reader));
    }
  }

  lemma {:induction false} ProfilerCanCatchUp(k: System, s: State) returns (s': State)
    requires k.Valid() && Sound(k, s) && RingProgress.NoneBusy(s.ring.log)
    ensures Reaches(Steps(k), s, s') && Sound(k, s') && s'.lib.ops == s.lib.ops && RingProgress.Drained(s'.ring)
    decreases |s.ring.log| - s.ring.interCount, RingProgress.Phase(s.ring)
  {
    hide R.Inv, A.AloneInv, T.Inv, RingLinked, WritingOk, TableLinked, RingProgress.BusyOwned, Reaches, Next, RingProgress.Phase;
    hide RingProgress.NoneBusy, R.NextStep;
    if RingProgress.Drained(s.ring) {
      s' := s;
      Stays(Steps(k), s);
    } else {
      var s1 := ProfilerNearer(k, s);
      RingProgress.ConsumerAdvances(k.ring, s.ring);
      assert s1.ring.log == s.ring.log;
      NextSound(k, s, s1);
      RingProgress.UnorderedReader(k.ring, s1.ring);
      s' := ProfilerCanCatchUp(k, s1);
      Precede(Steps(k), s, s1, s');
    }
  }

  /** In every run, at every moment: the threads inside the tracker can return, the records begun can be finished,
      and the profiler can read them all. Nothing the program, the ring or the profiler did before stands in the way, and
      once at rest the two sides agree. */
  lemma CanAlwaysSettle(k: System, ss: seq<State>, i: nat) returns (s': State)
    requires k.Valid() && Run(k, ss) && i < |ss|
    ensures Reaches(Steps(k), ss[i], s') && Settled(s') && s'.lib.queue == [] && s'.ring.readerPos == s'.ring.writerPos
    ensures s'.lib.tracked == A.AddressesIn(s'.tbl.slots)
    ensures T.Agreement(s'.lib) && H.Accounted(s'.lib.table)
  {
    hide Run, Sound, Reaches, RingProgress.NoneBusy, T.Agreement, H.Accounted;
    RunSound(k, ss, i);
    var s1 := ThreadsCanReturn(k, ss[i]);
    var s2 := RecordsCanBeFinished(k, s1);
    Joined(Steps(k), ss[i], s1, s2);
    s' := ProfilerCanCatchUp(k, s2);
    Joined(Steps(k), ss[i], s2, s');
    AtRest(k, s');
  }

  lemma AtRest(k: System, s: State)
    requires k.Valid() && Sound(k, s) && s.lib.ops == map[] && RingProgress.Drained(s.ring)
    ensures Settled(s) && s.lib.queue == [] && s.ring.readerPos == s.ring.writerPos
    ensures s.lib.tracked == A.AddressesIn(s.tbl.slots)
    ensures T.Agreement(s.lib) && H.Accounted(s.lib.table)
  {
    hide R.Inv, A.AloneInv, T.Inv, H.Accounted, T.Agreement, RingProgress.BusyOwned;
    RingProgress.DrainedIs(k.ring, s.ring);
    T.SettledAgreement(s.lib);
  }

  // ----- nothing is held up -----

  /** A thread that holds the lock of the ring with room for its event can send it, whatever it is. */
  lemma AnyEventCanBeSent(k: System, ss: seq<State>, i: nat, t: nat, push: T.Push, w: F.Written) returns (s': State)
    requires k.Valid() && Run(k, ss) && i < |ss| && push != T.Lost && w.Valid() && t in ss[i].lib.ops && t !in ss[i].tbl.ops
    requires t in ss[i].ring.producers && ss[i].ring.producers[t].Publishing?
    requires ss[i].ring.producers[t].size == 8 * |F.Layout(w)|
    requires match w
             case Allocation(e) => ss[i].lib.ops[t].AllocPush? && ss[i].lib.ops[t].sampled == e.addr && e.period > 0
             case Deallocation(_, _, _, ptr) => ss[i].lib.ops[t] == T.FreePush(ptr)
    ensures Next(k, ss[i], s') && s'.events == ss[i].events + [w] && s'.lib.queue == ss[i].lib.queue + [Meaning(k, w)]
  {
    hide Run, Inv, F.Layout, Span;
    RunInv(k, ss, i);
    var s := ss[i];
    assert Memory(k.ring, s.ring.mem) by { RunMemory(k, s); }
    var tail, size := s.ring.producers[t].tail, s.ring.producers[t].size;
    var ring := s.ring.(lock := R.None, writerPos := s.ring.writerPos + Span(size),
                        producers := s.ring.producers[t := R.Filling(tail, s.ring.writerPos, size, |s.ring.log|)],
                        log := s.ring.log + [R.Record(s.ring.writerPos, size, Span(size), R.Busy, false, [])]);
    assert R.PublishStep(k.ring, s.ring, ring, t);
    var queue, failed := s.lib.queue + [Meaning(k, w)], s.lib.notifyFailed || push == T.NotifyFailed;
    var op := s.lib.ops[t];
    op := if op.AllocPush? then T.AllocSettle(op.addr, op.added, op.sampled, push) else T.Returning(op.addr);
    var lib := s.lib.(ops := s.lib.ops[t := op], queue := queue, notifyFailed := failed);
    s' := s.(ring := ring, lib := lib, writing := s.writing[t := w], events := s.events + [w]);
    match w
    case Allocation(e) =>
      var stack := H.Stack(e.pid, e.tid, k.unwind(e.regs, e.stack, e.dynSize));
      assert T.AllocPushStep(s.lib, lib, t, push, stack, e.period);
      assert ReserveStep(k, s, s', t, push, w, stack, e.period);
    case Deallocation(_, _, _, _) =>
      assert T.FreePushStep(s.lib, lib, t, push);
      assert ReserveStep(k, s, s', t, push, w, H.Stack(0, 0, []), 0);
  }

  lemma RunMemory(k: System, s: State)
    requires k.Valid() && Inv(k, s)
    ensures Memory(k.ring, s.ring.mem)
  {
    hide A.AloneInv, T.Inv, RingLinked, WritingOk, TableLinked;
    RingMemory(k, s);
  }

  /** At every moment the program can allocate without being sampled, tracking can be switched off, then the tracker
      can go away, and the profiler can forget the process. */
  lemma NothingHeldUp(k: System, ss: seq<State>, i: nat, a: nat)
    requires k.Valid() && Run(k, ss) && i < |ss|
    ensures a > 1 && a !in ss[i].lib.live && T.Untouched(ss[i].lib, a) ==>
              Next(k, ss[i], ss[i].(lib := ss[i].lib.(live := ss[i].lib.live + {a})))
    ensures Next(k, ss[i], ss[i].(lib := ss[i].lib.(tracking := false)))
    ensures !ss[i].lib.tracking ==> Next(k, ss[i], ss[i].(lib := ss[i].lib.(active := false)))
    ensures var known := ss[i].lib.forgotten + ss[i].lib.table.addrs.Keys;
            Next(k, ss[i], ss[i].(lib := ss[i].lib.(table := H.Table(map[], map[]), forgotten := known)))
  {
    hide Run, Inv;
    RunInv(k, ss, i);
    var s, lib := ss[i], ss[i].lib;
    assert Memory(k.ring, s.ring.mem) by { RunMemory(k, s); }
    if a > 1 && a !in lib.live && T.Untouched(lib, a) {
      assert OtherStep(s, s.(lib := lib.(live := lib.live + {a})), a);
    }
    assert OtherStep(s, s.(lib := lib.(tracking := false)), 0);
    if !lib.tracking { assert OtherStep(s, s.(lib := lib.(active := false)), 0); }
    assert OtherStep(s, s.(lib := lib.(table := H.Table(map[], map[]), forgotten := lib.forgotten + lib.table.addrs.Keys)), 0);
  }
}
