/** Wakeups: a consumer never sleeps in front of a finished record that nobody is about to announce,
    except right after a record that its producer discarded. */
module MpscWakeup {
  import opened RingWords
  import opened MpscRing
  import opened MpscRingProof
  import opened MpscRuns

  /** Record `k` is announced: the event descriptor is readable, or a producer will make it so. */
  ghost predicate Announced(s: State, k: nat) {
    || s.eventfd > 0 || s.writeFailed
    || exists p :: p in s.producers && (s.producers[p].Checking? || s.producers[p].Notifying?) && s.producers[p].rec == k
  }

  /** The record at the read cursor is not there, unfinished, or announced. */
  ghost predicate HeadAnnounced(s: State) {
    s.readCount < |s.log| && s.log[s.readCount].status != Busy ==> Announced(s, s.readCount)
  }

  /** The record before position `k` was discarded by its producer. */
  ghost predicate AfterDiscard(s: State, k: nat) {
    0 < k <= |s.log| && s.log[k - 1].status == Discarded
  }

  /** As long as a pass has found nothing, either its cursor has not moved and the record there is
      announced, or it has skipped discarded records only. */
  ghost predicate WakeupOk(s: State) {
    match s.reader
    case Polling => HeadAnnounced(s) || AfterDiscard(s, s.readCount)
    case Finished(seen) =>
      !seen ==> (s.readCount == s.interCount && HeadAnnounced(s)) || AfterDiscard(s, s.interCount)
    case Reading(_, hc, seen) =>
      !seen ==> (s.readCount == s.interCount && (hc == s.interCount ==> HeadAnnounced(s))) || AfterDiscard(s, s.interCount)
    case _ => true
  }

  lemma AnnouncedKept(c: Config, s: State, s': State, step: Step)
    requires c.Valid() && Inv(c, s) && Memory(c, s.mem) && NextStep(c, s, s', step) && !step.Wake?
    requires HeadAnnounced(s) && s'.readCount == s.readCount && s'.readerPos == s.readerPos
    ensures HeadAnnounced(s')
  {
    hide Inv, NextStep;
    SignalStays(c, s, s', step);
    var k := s.readCount;
    if k < |s'.log| && s'.log[k].status != Busy {
      if k < |s.log| && s.log[k].status != Busy {
        if s.eventfd == 0 && !s.writeFailed {
          var p :| p in s.producers && (s.producers[p].Checking? || s.producers[p].Notifying?) && s.producers[p].rec == k;
          AnnouncerStays(c, s, s', step, p);
        }
      } else {
        FinishedByCommit(c, s, s', step, k);
      }
    }
  }

  lemma SignalStays(c: Config, s: State, s': State, step: Step)
    requires c.Valid() && Memory(c, s.mem) && NextStep(c, s, s', step) && !step.Wake?
    ensures s'.eventfd >= s.eventfd && (s.writeFailed ==> s'.writeFailed)
  {
    hide Load, Store, ReadTurn, ToggleBusy, SetDiscarded, RecordSpan, Span, Wrap, Payload, Received;
  }

  /** Only a commit finishes a record, and its producer then announces it. */
  lemma FinishedByCommit(c: Config, s: State, s': State, step: Step, k: nat)
    requires c.Valid() && Memory(c, s.mem) && NextStep(c, s, s', step)
    requires k < |s'.log| && s'.log[k].status != Busy && (k < |s.log| ==> s.log[k].status == Busy)
    ensures step.Commit? && step.p in s'.producers && s'.producers[step.p].Checking? && s'.producers[step.p].rec == k
  {
    hide Load, Store, ReadTurn, ToggleBusy, SetDiscarded, RecordSpan, Span, Wrap, Payload, Received;
  }

  /** A producer about to announce the record at the read cursor goes on to do so. */
  lemma AnnouncerStays(c: Config, s: State, s': State, step: Step, p: nat)
    requires c.Valid() && Inv(c, s) && Memory(c, s.mem) && NextStep(c, s, s', step) && s'.readCount == s.readCount && !step.Wake?
    requires p in s.producers && (s.producers[p].Checking? || s.producers[p].Notifying?) && s.producers[p].rec == s.readCount
    requires s.readCount < |s.log| && s.eventfd == 0 && !s.writeFailed
    ensures Announced(s', s.readCount)
  {
    hide Tiled, MemoryOk, LockOk, TailsOk, StatusOk, ReaderOk, InOrder, QueueOk, OnceEach, OutputOk, LogOk;
    hide Load, Store, ReadTurn, ToggleBusy, SetDiscarded, RecordSpan, Span, Wrap, Payload, Received;
    assert s'.eventfd > 0 || s'.writeFailed || p in s'.producers;
  }

  lemma DiscardKept(c: Config, s: State, s': State, k: nat)
    requires c.Valid() && Inv(c, s) && Next(c, s, s') && AfterDiscard(s, k)
    ensures AfterDiscard(s', k)
  {
    hide Inv, Next;
    NextExtends(c, s, s');
  }

  lemma NextWakeup(c: Config, s: State, s': State)
    requires c.Valid() && Inv(c, s) && Next(c, s, s') && WakeupOk(s)
    ensures WakeupOk(s')
  {
    hide Inv, HeadAnnounced, AfterDiscard;
    var step :| NextStep(c, s, s', step);
    if s'.readerPos == s.readerPos && s'.readCount == s.readCount && !step.Wake? && HeadAnnounced(s) {
      AnnouncedKept(c, s, s', step);
    }
    if AfterDiscard(s, s.interCount) { DiscardKept(c, s, s', s.interCount); }
    if AfterDiscard(s, s.readCount) { DiscardKept(c, s, s', s.readCount); }
    ReaderWakeup(c, s, s', step);
  }

  /** The consumer has found nothing so far in this pass. */
  predicate Watching(r: Reader) { r.Polling? || (r.Finished? && !r.seen) || (r.Reading? && !r.seen) }

  lemma ReaderWakeup(c: Config, s: State, s': State, step: Step)
    requires c.Valid() && Inv(c, s) && NextStep(c, s, s', step) && WakeupOk(s)
    requires s'.readerPos == s.readerPos && s'.readCount == s.readCount && !step.Wake? && HeadAnnounced(s) ==> HeadAnnounced(s')
    requires AfterDiscard(s, s.interCount) ==> AfterDiscard(s', s.interCount)
    requires AfterDiscard(s, s.readCount) ==> AfterDiscard(s', s.readCount)
    ensures WakeupOk(s')
  {
    hide LogOk, Tiled, MemoryOk, LockOk, TailsOk, StatusOk, InOrder, QueueOk, OnceEach, OutputOk, OwnersOk, CursorsOk;
    hide Load, Store, ReadTurn, ToggleBusy, SetDiscarded, RecordSpan, Span, Announced, HeadAnnounced, AfterDiscard;
    hide Payload, Received, Wrap;
    match step
    case ReadSample => ReadWakeup(c, s, s');
    case LoadHead => HeadUnseen(s');
    case Close => CloseWakeup(c, s, s');
    case _ =>
      assert Watching(s'.reader) ==>
          s'.reader == s.reader && s'.readCount == s.readCount && s'.interCount == s.interCount;
  }

  lemma HeadUnseen(s: State)
    ensures s.readCount >= |s.log| ==> HeadAnnounced(s)
  {
  }

  lemma CloseWakeup(c: Config, s: State, s': State)
    requires c.Valid() && Inv(c, s) && CloseStep(c, s, s') && WakeupOk(s)
    ensures WakeupOk(s')
  {
    hide LogOk, Tiled, MemoryOk, LockOk, TailsOk, StatusOk, InOrder, QueueOk, OnceEach, OutputOk, OwnersOk, ReaderOk;
  }

  lemma ReadWakeup(c: Config, s: State, s': State)
    requires c.Valid() && Inv(c, s) && ReadSampleStep(c, s, s') && WakeupOk(s)
    ensures WakeupOk(s')
  {
    hide LogOk, Tiled, MemoryOk, LockOk, TailsOk, StatusOk, InOrder, QueueOk, OnceEach, OutputOk, OwnersOk, ReadTurn, Span;
    TurnReadsRecord(c, s, s.reader.head, s.reader.headCount);
    BoundOrder(c, s.log, s.writerPos, s.reader.headCount, s.interCount);
  }

  lemma {:induction false} RunWakeup(c: Config, ss: seq<State>, i: nat)
    requires c.Valid() && Run(c, ss) && i < |ss|
    ensures WakeupOk(ss[i])
  {
    hide Inv, Next;
    if i > 0 {
      RunWakeup(c, ss, i - 1);
      RunInv(c, ss, i - 1);
      NextWakeup(c, ss[i - 1], ss[i]);
    }
  }

  /** The consumer sleeps, the event descriptor is not readable, no write to it failed, and no producer
      is between finishing the record at the read cursor and writing the descriptor. */
  ghost predicate Asleep(s: State) {
    && s.reader.Polling? && s.eventfd == 0 && !s.writeFailed
    && forall p :: p in s.producers && (s.producers[p].Checking? || s.producers[p].Notifying?) ==>
         s.producers[p].rec != s.readCount
  }

  /** In every run: if the consumer is asleep in front of a finished record, the record before that one
      was discarded. */
  lemma SilentOnlyAfterDiscard(c: Config, ss: seq<State>, i: nat)
    requires c.Valid() && Run(c, ss) && i < |ss| && Asleep(ss[i])
    requires ss[i].readCount < |ss[i].log| && ss[i].log[ss[i].readCount].status != Busy
    ensures 0 < ss[i].readCount && ss[i].log[ss[i].readCount - 1].status == Discarded
  {
    hide Run;
    RunWakeup(c, ss, i);
  }

  /** So no wakeup is lost, however many records were discarded before, unless the record just before
      the read cursor was: the record at the read cursor is not reserved or still busy. */
  lemma NoLostWakeup(c: Config, ss: seq<State>, i: nat)
    requires c.Valid() && Run(c, ss) && i < |ss| && Asleep(ss[i])
    requires 0 < ss[i].readCount <= |ss[i].log| ==> ss[i].log[ss[i].readCount - 1].status != Discarded
    ensures ss[i].readerPos == ss[i].writerPos
            || (ss[i].readCount < |ss[i].log| && ss[i].log[ss[i].readCount].status == Busy)
  {
    hide Run, Tiled, MemoryOk, LockOk, TailsOk, OwnersOk, StatusOk, ReaderOk, InOrder, QueueOk, OnceEach, OutputOk;
    RunInv(c, ss, i);
    if ss[i].readCount < |ss[i].log| && ss[i].log[ss[i].readCount].status != Busy {
      SilentOnlyAfterDiscard(c, ss, i);
    }
  }

  /** In every run: a producer that has finished a record not given back yet notifies the consumer exactly
      if the consumer stands at that record. */
  lemma NotifiesAtCursor(c: Config, ss: seq<State>, i: nat, s': State, p: nat)
    requires c.Valid() && Run(c, ss) && i < |ss| && CheckStep(c, ss[i], s', p) && ss[i].readCount <= ss[i].producers[p].rec
    ensures s'.producers[p].Notifying? <==> ss[i].producers[p].rec == ss[i].readCount
  {
    hide Run, MemoryOk, LockOk, TailsOk, StatusOk, ReaderOk, InOrder, QueueOk, OnceEach, OutputOk, Span, Wrap;
    RunInv(c, ss, i);
    var s := ss[i];
    var k := s.producers[p].rec;
    if k > s.readCount {
      assert s.readerPos < s.log[k].start < s.readerPos + c.words;
      WrapsApart(s.readerPos, s.log[k].start, c.words);
    }
  }

  // ----- with producers that discard, a wakeup can be lost -----

  /** A run goes on with one more step. */
  lemma Continued(c: Config, ss: seq<State>, s': State, step: Step) returns (ss': seq<State>)
    requires c.Valid() && Run(c, ss) && Memory(c, ss[|ss| - 1].mem)
    requires NextStep(c, ss[|ss| - 1], s', step)
    ensures Run(c, ss') && ss'[|ss'| - 1] == s'
  {
    hide Init, NextStep;
    ss' := ss + [s'];
  }

  const SMALL: Config := Config(8, 0, false)

  /** Two producers have reserved a record each. */
  function BothReserved(): State {
    State([1 + BUSY, 0, 1 + BUSY, 0, 0, 0, 0, 0], 4, 0, 0, None, map[0 := Filling(0, 0, 1, 0), 1 := Filling(0, 2, 1, 1)],
          Polling, 0, false, {}, [Record(0, 1, 2, Busy, false, []), Record(2, 1, 2, Busy, false, [])], 0, 0, [], [])
  }

  lemma ReserveBoth() returns (ss: seq<State>)
    ensures Run(SMALL, ss) && ss[|ss| - 1] == BothReserved()
  {
    hide Run;
    var s0 := State([0, 0, 0, 0, 0, 0, 0, 0], 0, 0, 0, None, map[], Polling, 0, false, {}, [], 0, 0, [], []);
    var s1 := s0.(producers := map[0 := Ready(0)]);
    var s2 := s0.(producers := map[0 := Ready(0), 1 := Ready(0)]);
    var s3 := s2.(lock := Some(0), mem := [1 + BUSY, 0, 0, 0, 0, 0, 0, 0],
                  producers := map[0 := Publishing(0, 1), 1 := Ready(0)]);
    var s4 := s3.(lock := None, writerPos := 2, producers := map[0 := Filling(0, 0, 1, 0), 1 := Ready(0)],
                  log := [Record(0, 1, 2, Busy, false, [])]);
    var s5 := s4.(lock := Some(1), mem := [1 + BUSY, 0, 1 + BUSY, 0, 0, 0, 0, 0],
                  producers := map[0 := Filling(0, 0, 1, 0), 1 := Publishing(0, 1)]);
    ss := Begun(s0);
    ss := Continued(SMALL, ss, s1, UpdateTail(0));
    ss := Continued(SMALL, ss, s2, UpdateTail(1));
    ss := Continued(SMALL, ss, s3, Reserve(0, 1, true));
    ss := Continued(SMALL, ss, s4, Publish(0));
    ss := Continued(SMALL, ss, s5, Reserve(1, 1, true));
    ss := Continued(SMALL, ss, BothReserved(), Publish(1));
  }

  lemma Begun(s: State) returns (ss: seq<State>)
    requires Init(SMALL, s)
    ensures Run(SMALL, ss) && ss[|ss| - 1] == s
  {
    ss := [s];
  }

  /** The first record was discarded and announced, and the woken consumer has skipped it and found the
      second one busy; its read cursor is not stored yet. */
  function SkippedFirst(): State {
    BothReserved().(mem := [1 + DISCARD, 0, 1 + BUSY, 0, 0, 0, 0, 0],
                    producers := map[0 := Ready(0), 1 := Filling(0, 2, 1, 1)],
                    log := [Record(0, 1, 2, Discarded, false, [0]), Record(2, 1, 2, Busy, false, [])],
                    interPos := 2, interCount := 1, reader := Finished(false))
  }

  function Woken(reader: Reader): State {
    SkippedFirst().(interPos := 0, interCount := 0, reader := reader)
  }

  lemma FirstDiscarded(s7: State)
    requires s7 == Woken(Polling).(producers := map[0 := Checking(0, 0), 1 := Filling(0, 2, 1, 1)])
    ensures CommitStep(SMALL, BothReserved(), s7, 0, true)
  {
    assert Payload(SMALL, BothReserved().mem, 0, 2) == [0];
    assert ToggleBusy(1 + BUSY) == 1 && SetDiscarded(1) == 1 + DISCARD;
  }

  lemma DiscardFirst() returns (ss: seq<State>)
    ensures Run(SMALL, ss) && ss[|ss| - 1] == Woken(Polling).(eventfd := 1)
  {
    hide Run;
    hide Payload, Load, Store, ToggleBusy, SetDiscarded;
    var s8 := Woken(Polling).(producers := map[0 := Notifying(0, 0), 1 := Filling(0, 2, 1, 1)]);
    var s7 := s8.(producers := map[0 := Checking(0, 0), 1 := Filling(0, 2, 1, 1)]);
    ss := ReserveBoth();
    assert CommitStep(SMALL, BothReserved(), s7, 0, true) by { FirstDiscarded(s7); }
    ss := Continued(SMALL, ss, s7, Commit(0, true));
    ss := Continued(SMALL, ss, s8, Check(0));
    ss := Continued(SMALL, ss, Woken(Polling).(eventfd := 1), Notify(0, true));
  }

  lemma SkipFirst() returns (ss: seq<State>)
    ensures Run(SMALL, ss) && ss[|ss| - 1] == SkippedFirst()
  {
    hide Run;
    ss := DiscardFirst();
    ss := Continued(SMALL, ss, Woken(Starting), Wake);
    ss := Continued(SMALL, ss, Woken(Reading(4, 2, false)), LoadHead);
    ss := Continued(SMALL, ss, SkippedFirst().(reader := Reading(4, 2, false)), ReadSample);
    ss := Continued(SMALL, ss, SkippedFirst(), ReadSample);
  }

  lemma SecondCommitted(s14: State)
    requires s14 == SkippedFirst().(mem := [1 + DISCARD, 0, 1, 0, 0, 0, 0, 0],
                                    producers := map[0 := Ready(0), 1 := Checking(2, 1)],
                                    log := [Record(0, 1, 2, Discarded, false, [0]), Record(2, 1, 2, Committed, false, [0])])
    ensures CommitStep(SMALL, SkippedFirst(), s14, 1, false)
  {
    assert Payload(SMALL, SkippedFirst().mem, 2, 2) == [0];
    assert ToggleBusy(1 + BUSY) == 1;
  }

  /** The exception is real: while the consumer is about to store the read cursor past a
      discarded record, a producer finishing the next record sees the old cursor and stays silent. The
      consumer then sleeps in front of a committed record that nobody announces. */
  lemma DiscardLosesWakeup() returns (ss: seq<State>)
    ensures Run(SMALL, ss)
    ensures var s := ss[|ss| - 1];
            && s.reader.Polling? && s.eventfd == 0 && !s.writeFailed
            && (forall p :: p in s.producers ==> s.producers[p].Ready?)
            && s.readCount < |s.log| && s.log[s.readCount].status == Committed
  {
    hide Run;
    var s14 := SkippedFirst().(mem := [1 + DISCARD, 0, 1, 0, 0, 0, 0, 0],
                               producers := map[0 := Ready(0), 1 := Checking(2, 1)],
                               log := [Record(0, 1, 2, Discarded, false, [0]), Record(2, 1, 2, Committed, false, [0])]);
    var s15 := s14.(producers := map[0 := Ready(0), 1 := Ready(0)]);
    ss := SkipFirst();
    assert CommitStep(SMALL, SkippedFirst(), s14, 1, false) by { SecondCommitted(s14); }
    ss := Continued(SMALL, ss, s14, Commit(1, false));
    ss := Continued(SMALL, ss, s15, Check(1));
    ss := Continued(SMALL, ss, s15.(reader := Polling, readerPos := 2, readCount := 1), Close);
  }
}
