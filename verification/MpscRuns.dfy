/** What holds over every run of the ring protocol, whatever the interleaving. */
module MpscRuns {
  import opened RingWords
  import opened MpscRing
  import opened MpscRingProof

  ghost predicate Run(c: Config, ss: seq<State>)
    requires c.Valid()
  {
    && |ss| > 0 && Init(c, ss[0])
    && forall i, j :: 0 <= i < j < |ss| && j == i + 1 ==> Next(c, ss[i], ss[j])
  }

  lemma {:induction false} RunInv(c: Config, ss: seq<State>, i: nat)
    requires c.Valid() && Run(c, ss) && i < |ss|
    ensures Inv(c, ss[i])
  {
    hide Inv, Next, Init;
    if i == 0 {
      InitInv(c, ss[0]);
    } else {
      RunInv(c, ss, i - 1);
      NextInv(c, ss[i - 1], ss[i]);
    }
  }

  // ----- reservations -----

  /** Cursors stay ordered and less than a capacity apart, and the reservations tile the ring:
      from the read cursor to the write cursor there is neither gap nor overlap. */
  lemma CursorsOrderedAndTiled(c: Config, ss: seq<State>, i: nat)
    requires c.Valid() && Run(c, ss) && i < |ss|
    ensures var s := ss[i];
            && s.readerPos <= s.interPos <= s.writerPos
            && 8 * s.writerPos <= 8 * s.readerPos + (8 * c.words - 1)
            && s.readCount <= |s.log| && s.readerPos == Bound(s.log, s.writerPos, s.readCount)
            && Tiled(s.log, s.writerPos)
  {
    hide Run, Tiled, MemoryOk, LockOk, TailsOk, OwnersOk, StatusOk, ReaderOk, InOrder, QueueOk, OnceEach, OutputOk;
    RunInv(c, ss, i);
  }

  /** Two outstanding reservations never share a word of the data area. */
  lemma OutstandingDisjoint(c: Config, ss: seq<State>, i: nat, j: nat, k: nat, x: nat, y: nat)
    requires c.Valid() && Run(c, ss) && i < |ss|
    requires var s := ss[i];
             && s.readCount <= j < k < |s.log|
             && s.log[j].start <= x < s.log[j].End() && s.log[k].start <= y < s.log[k].End()
    ensures Wrap(x, c.words) != Wrap(y, c.words)
  {
    hide Run, MemoryOk, LockOk, TailsOk, OwnersOk, StatusOk, ReaderOk, InOrder, QueueOk, OnceEach, OutputOk;
    RunInv(c, ss, i);
    WrapsApart(x, y, c.words);
  }

  /** However stale the cached cursor, a normal-priority reservation leaves the high-priority area free. */
  lemma NormalReservationLeavesRoom(c: Config, ss: seq<State>, i: nat, s': State, p: nat, size: nat)
    requires c.Valid() && Run(c, ss) && i < |ss| && Memory(c, ss[i].mem)
    requires ReserveStep(c, ss[i], s', p, size, false)
    ensures 8 * (s'.writerPos + Span(size)) + c.highPriority <= 8 * s'.readerPos + (8 * c.words - 1)
  {
    hide Run, Tiled, MemoryOk, LockOk, OwnersOk, StatusOk, ReaderOk, InOrder, QueueOk, OnceEach, OutputOk, Span;
    RunInv(c, ss, i);
  }

  /** In every run: a reservation is granted exactly when its producer is free to make it, its size is
      representable, and it ends less than a capacity past the cached read cursor, a normal-priority one with
      more than the high-priority area to spare. */
  lemma ReservationGranted(c: Config, ss: seq<State>, i: nat, p: nat, size: nat, high: bool)
    requires c.Valid() && Run(c, ss) && i < |ss| && 1 <= size <= TWO64 - 8
    ensures Memory(c, ss[i].mem)
    ensures (exists s' :: ReserveStep(c, ss[i], s', p, size, high)) <==>
              && p in ss[i].producers && ss[i].producers[p].Ready? && ss[i].lock == None && RequestedBytes(size) != 0
              && var end, limit := ss[i].writerPos + Span(size), ss[i].producers[p].tail + c.words;
              && end < limit && (high || c.highPriority < 8 * (limit - end))
  {
    hide Run, Inv;
    RunInv(c, ss, i);
    assert Memory(c, ss[i].mem) by { MemoryOf(c, ss[i]); }
    var s := ss[i];
    if p in s.producers && s.producers[p].Ready? {
      var s' := s.(lock := Some(p), mem := Store(c, s.mem, s.writerPos, size + BUSY),
                   producers := s.producers[p := Publishing(s.producers[p].tail, size)]);
      RoomIs(c, s.writerPos, s.producers[p].tail, size, high);
      assert ReserveStep(c, s, s', p, size, high) <==>
             s.lock == None && RequestedBytes(size) != 0 && HasRoom(c, s.writerPos, s.producers[p].tail, size, high);
    }
  }

  lemma RoomIs(c: Config, writerPos: nat, tail: nat, size: nat, high: bool)
    ensures HasRoom(c, writerPos, tail, size, high) <==>
              && writerPos + Span(size) < tail + c.words
              && (high || c.highPriority < 8 * (tail + c.words - (writerPos + Span(size))))
  {
    hide Span;
  }

  lemma MemoryOf(c: Config, s: State)
    requires c.Valid() && Inv(c, s)
    ensures Memory(c, s.mem)
  {
  }

  /** In every run: a producer that has just reloaded the read cursor, before a reservation or after a
      commit, is refused only for what is really in the ring. */
  lemma FreshCursor(c: Config, ss: seq<State>, i: nat, s': State, step: Step)
    requires c.Valid() && Run(c, ss) && i < |ss| && Memory(c, ss[i].mem) && NextStep(c, ss[i], s', step)
    requires step.UpdateTail? || step.Check?
    ensures step.p in s'.producers && !s'.producers[step.p].Checking? && s'.producers[step.p].tail == s'.readerPos
    ensures ss[i].readCount <= |s'.log| && s'.readerPos == Bound(s'.log, s'.writerPos, ss[i].readCount)
  {
    hide Run, Tiled, MemoryOk, LockOk, TailsOk, OwnersOk, StatusOk, ReaderOk, InOrder, QueueOk, OnceEach, OutputOk, Span;
    RunInv(c, ss, i);
  }

  // ----- the consumer makes progress -----

  /** In every run: the consumer of the unordered loop that starts a pass in front of a committed record gets
      that record, and gives its space back when it has processed it. */
  lemma NextRecordIsRead(c: Config, ss: seq<State>, i: nat, s1: State, s2: State)
    requires c.Valid() && Run(c, ss) && i < |ss| && Memory(c, ss[i].mem)
    requires LoadHeadStep(c, ss[i], s1) && ReadSampleStep(c, s1, s2)
    ensures ss[i].interCount < |ss[i].log| && ss[i].log[ss[i].interCount].status == Committed ==>
              s2.reader.Holding? && Received(c, s2.mem, s2.reader.start, s2.reader.word) == ss[i].log[ss[i].interCount].Sent()
    ensures ss[i].interCount < |ss[i].log| && ss[i].log[ss[i].interCount].status == Discarded ==>
              s2.reader == s1.reader && s2.interCount == ss[i].interCount + 1
    ensures ss[i].interCount >= |ss[i].log| || ss[i].log[ss[i].interCount].status == Busy ==> s2.reader == Finished(false)
  {
    hide Run, Inv, ReadTurn, Received;
    RunInv(c, ss, i);
    WakeInv(c, ss[i], s1);
    ReadsNext(c, s1, s2);
  }

  lemma ReadsNext(c: Config, s: State, s': State)
    requires c.Valid() && Memory(c, s.mem) && Inv(c, s) && ReadSampleStep(c, s, s') && s'.mem == s.mem
    requires s.reader.headCount == |s.log| && !s.reader.seen
    ensures s.interCount < |s.log| && s.log[s.interCount].status == Committed ==>
              s'.reader.Holding? && Received(c, s'.mem, s'.reader.start, s'.reader.word) == s.log[s.interCount].Sent()
    ensures s.interCount < |s.log| && s.log[s.interCount].status == Discarded ==>
              s'.reader == s.reader && s'.interCount == s.interCount + 1
    ensures s.interCount >= |s.log| || s.log[s.interCount].status == Busy ==> s'.reader == Finished(false)
  {
    hide Inv, ReadTurn, Received;
    TurnExact(c, s);
    if s.interCount < |s.log| && s.log[s.interCount].status == Committed {
      NextReceives(c, s);
    }
  }

  lemma NextReceives(c: Config, s: State)
    requires c.Valid() && Inv(c, s) && s.interCount < |s.log| && s.log[s.interCount].status == Committed
    ensures Received(c, s.mem, s.log[s.interCount].start, s.log[s.interCount].size) == s.log[s.interCount].Sent()
  {
    hide Tiled, LockOk, TailsOk, OwnersOk, StatusOk, InOrder, QueueOk, OnceEach, OutputOk, ReaderOk, Received, LogOk, MemoryOk;
    ReceivesSent(c, s.mem, s.log, s.readCount, s.interCount);
  }

  /** With the head just loaded, a turn of the reading loop is decided by the next record alone. */
  lemma TurnExact(c: Config, s: State)
    requires c.Valid() && Inv(c, s) && (s.reader.Reading? || s.reader.Fetching?) && s.reader.headCount == |s.log|
    ensures Memory(c, s.mem)
    ensures var turn, n := ReadTurn(c, s.mem, s.reader.head, s.interPos), s.interCount;
            && n <= |s.log|
            && (turn.Nothing? <==> n == |s.log| || s.log[n].status == Busy)
            && (turn.Skipped? <==> n < |s.log| && s.log[n].status == Discarded)
            && (turn.Sample? <==> n < |s.log| && s.log[n].status == Committed)
            && (turn.Sample? ==> s.interPos == s.log[n].start && turn.word == s.log[n].size)
  {
    hide LogOk, Tiled, MemoryOk, LockOk, TailsOk, OwnersOk, StatusOk, InOrder, QueueOk, OnceEach, OutputOk, ReadTurn, Bound;
    TurnReadsRecord(c, s, s.reader.head, s.reader.headCount);
    BoundOrder(c, s.log, s.writerPos, |s.log|, s.interCount);
  }

  /** In every run: when the consumer is done with an event, the read cursor stands behind its record. */
  lemma SpaceIsReturned(c: Config, ss: seq<State>, i: nat, s1: State, s2: State)
    requires c.Valid() && Run(c, ss) && i < |ss| && Memory(c, ss[i].mem)
    requires ProcessStep(c, ss[i], s1) && AdvanceStep(c, s1, s2)
    ensures 0 < ss[i].interCount <= |ss[i].log|
    ensures s2.readerPos == ss[i].log[ss[i].interCount - 1].End() && s2.readCount == ss[i].interCount
  {
    hide Run, MemoryOk, LockOk, TailsOk, OwnersOk, StatusOk, InOrder, QueueOk, OnceEach, OutputOk, LogOk, Received, Span;
    RunInv(c, ss, i);
  }

  /** In every run: the ordered loop that asks for an event in front of a committed record queues it. */
  lemma NextRecordIsQueued(c: Config, ss: seq<State>, i: nat, s1: State, s2: State)
    requires c.Valid() && Run(c, ss) && i < |ss| && Memory(c, ss[i].mem) && FetchStep(c, ss[i], s1) && FetchSampleStep(c, s1, s2)
    ensures var n := ss[i].interCount;
            if n < |ss[i].log| && ss[i].log[n].status == Committed
            then s2.queue == ss[i].queue + {Item(ss[i].log[n].start, ss[i].log[n].size, n)} && s2.reader.Idle?
            else s2.queue == ss[i].queue && s2.reader.Idle?
  {
    hide Run, Inv, ReadTurn;
    RunInv(c, ss, i);
    FetchInv(c, ss[i], s1);
    FetchesNext(c, s1, s2);
  }

  lemma FetchesNext(c: Config, s: State, s': State)
    requires c.Valid() && Inv(c, s) && FetchSampleStep(c, s, s') && s.reader.headCount == |s.log|
    ensures var n := s.interCount;
            if n < |s.log| && s.log[n].status == Committed
            then s'.queue == s.queue + {Item(s.log[n].start, s.log[n].size, n)} && s'.reader.Idle?
            else s'.queue == s.queue && s'.reader.Idle?
  {
    hide Inv, ReadTurn;
    TurnExact(c, s);
    OrderedReader(c, s);
    NoDiscards(c, s);
  }

  lemma OrderedReader(c: Config, s: State)
    requires c.Valid() && Inv(c, s) && s.reader.Fetching?
    ensures c.ordered
  {
    hide LogOk, Tiled, MemoryOk, LockOk, TailsOk, OwnersOk, StatusOk, InOrder, QueueOk, OnceEach, OutputOk;
  }

  // ----- history is only ever extended -----

  ghost predicate Extends(log: seq<Record>, log': seq<Record>) {
    && |log| <= |log'|
    && forall k :: 0 <= k < |log| ==>
         && log'[k].start == log[k].start && log'[k].size == log[k].size
         && (log[k].status != Busy ==> log'[k].status == log[k].status && log'[k].payload == log[k].payload)
         && (log[k].released ==> log'[k].released)
  }

  lemma NextExtends(c: Config, s: State, s': State)
    requires c.Valid() && Inv(c, s) && Next(c, s, s')
    ensures Extends(s.log, s'.log)
  {
    hide Tiled, CursorsOk, MemoryOk, LockOk, TailsOk, StatusOk, ReaderOk, InOrder, QueueOk, OnceEach, OutputOk, Span;
    hide Load, Store, ReadTurn, ToggleBusy, SetDiscarded, RecordSpan;
    var step :| NextStep(c, s, s', step);
    match step
    case Publish(p) => PublishExtends(s.log, s'.log);
    case Commit(p, discard) => assert OwnersOk(s.producers, s.log);
    case Mark(item) =>
    case _ => assert s'.log == s.log;
  }

  lemma PublishExtends(log: seq<Record>, log': seq<Record>)
    requires |log'| > |log| && log'[..|log|] == log
    ensures Extends(log, log')
  {
    assert forall k :: 0 <= k < |log| ==> log'[k] == log'[..|log|][k] == log[k];
  }

  lemma {:induction false} LogOnlyGrows(c: Config, ss: seq<State>, i: nat, j: nat)
    requires c.Valid() && Run(c, ss) && i <= j < |ss|
    ensures Extends(ss[i].log, ss[j].log)
    decreases j - i
  {
    hide Inv, Next, Init;
    if i < j {
      LogOnlyGrows(c, ss, i, j - 1);
      RunInv(c, ss, j - 1);
      NextExtends(c, ss[j - 1], ss[j]);
    }
  }

  // ----- delivery -----

  function Messages(log: seq<Record>, indices: seq<nat>): seq<Message>
    requires forall j :: 0 <= j < |indices| ==> indices[j] < |log|
  {
    seq(|indices|, j requires 0 <= j < |indices| => log[indices[j]].Sent())
  }

  /** The unordered consumer delivers exactly the committed bytes and sizes, in reservation order, of a
      prefix of all reservations: none busy, none discarded, none twice, none skipped. What it delivers
      is read at its cursor with the header word found there. */
  lemma DeliveredInReservationOrder(c: Config, ss: seq<State>, i: nat)
    requires c.Valid() && Run(c, ss) && i < |ss| && !c.ordered
    ensures var s := ss[i];
            var k := DeliveredCount(s.reader, s.interCount);
            && k <= |s.log|
            && (forall j :: 0 <= j < k ==> s.log[j].status != Busy)
            && (forall j :: 0 <= j < |CommittedUpTo(s.log, k)| ==> CommittedUpTo(s.log, k)[j] < |s.log|)
            && s.out == Messages(s.log, CommittedUpTo(s.log, k))
  {
    hide Run, Tiled, MemoryOk, LockOk, TailsOk, OwnersOk, ReaderOk, QueueOk, OnceEach, CommittedUpTo;
    RunInv(c, ss, i);
  }

  /** The list of committed indices is increasing and misses none. */
  lemma {:induction false} CommittedUpToExact(log: seq<Record>, k: nat)
    requires k <= |log|
    ensures forall i, j :: 0 <= i < j < |CommittedUpTo(log, k)| ==> CommittedUpTo(log, k)[i] < CommittedUpTo(log, k)[j]
    ensures forall r: nat :: r in CommittedUpTo(log, k) <==> r < k && log[r].status == Committed
  {
    if k > 0 {
      CommittedUpToExact(log, k - 1);
      var before := CommittedUpTo(log, k - 1);
      assert forall i :: 0 <= i < |before| ==> before[i] in before;
    }
  }

  /** What was delivered by some moment of a run is a prefix of what is delivered later. */
  lemma {:induction false} DeliveredOnlyGrows(c: Config, ss: seq<State>, i: nat, j: nat)
    requires c.Valid() && Run(c, ss) && i <= j < |ss|
    ensures ss[i].out <= ss[j].out
    decreases j - i
  {
    hide Next, Init;
    if i < j {
      DeliveredOnlyGrows(c, ss, i, j - 1);
      NextDelivers(c, ss[j - 1], ss[j]);
    }
  }

  lemma NextDelivers(c: Config, s: State, s': State)
    requires c.Valid() && Next(c, s, s')
    ensures s.out <= s'.out
  {
    hide LogOk, Load, Store, ReadTurn, ToggleBusy, SetDiscarded, RecordSpan, Span;
    var step :| NextStep(c, s, s', step);
  }

  // ----- out-of-order release -----

  /** In the ordered loop the queue holds exactly the events read and not released, and the pointer and
      header word it keeps for each still give the committed bytes: no producer has overwritten them. */
  lemma QueuedEventsIntact(c: Config, ss: seq<State>, i: nat, item: Item)
    requires c.Valid() && Run(c, ss) && i < |ss| && c.ordered
    ensures Memory(c, ss[i].mem)
    ensures item in ss[i].queue <==>
              var k := item.rec;
              && k < ss[i].interCount && k < |ss[i].log| && !ss[i].log[k].released
              && item == Item(ss[i].log[k].start, ss[i].log[k].size, k)
    ensures item in ss[i].queue ==>
              && ss[i].log[item.rec].status == Committed && ss[i].readerPos <= item.start
              && Received(c, ss[i].mem, item.start, item.word) == ss[i].log[item.rec].Sent()
  {
    hide Run, LogOk, MemoryOk, LockOk, TailsOk, OwnersOk, ReaderOk, InOrder, OnceEach, OutputOk, Received;
    RunInv(c, ss, i);
    if item in ss[i].queue {
      ReceivesSent(c, ss[i].mem, ss[i].log, ss[i].readCount, item.rec);
    }
  }

  /** Each processed event was processed once, with the bytes that were committed. */
  lemma OrderedProcessesOnce(c: Config, ss: seq<State>, i: nat)
    requires c.Valid() && Run(c, ss) && i < |ss| && c.ordered
    ensures var s := ss[i];
            && (forall k: nat :: k in s.processed <==> k < |s.log| && s.log[k].released)
            && (forall a, b :: 0 <= a < b < |s.processed| ==> s.processed[a] != s.processed[b])
            && (forall a :: 0 <= a < |s.processed| ==> s.processed[a] < |s.log|)
            && s.out == Messages(s.log, s.processed)
  {
    hide Run, Tiled, MemoryOk, LockOk, TailsOk, OwnersOk, ReaderOk, QueueOk, InOrder;
    RunInv(c, ss, i);
  }

  /** End of the longest prefix of records that are all released. */
  ghost predicate LongestReleased(log: seq<Record>, count: nat) {
    && count <= |log|
    && (forall k :: 0 <= k < count ==> log[k].released)
    && (count < |log| ==> !log[count].released)
  }

  /** Whatever order events are released in, the scan either moves on past one more released record,
      at a strictly larger position still bounded by the intermediate cursor, or stores as new read
      cursor the end of the longest fully released prefix, never past the intermediate cursor. */
  lemma ReleaseReachesLongestPrefix(c: Config, ss: seq<State>, i: nat, s': State)
    requires c.Valid() && Run(c, ss) && i < |ss| && Memory(c, ss[i].mem) && ReleaseStep(c, ss[i], s')
    ensures s'.reader.Releasing? ==>
              ss[i].reader.tail < s'.reader.tail <= s'.interPos && s'.reader.head == ss[i].reader.head
    ensures !s'.reader.Releasing? ==>
              && LongestReleased(s'.log, s'.readCount)
              && s'.readerPos == Bound(s'.log, s'.writerPos, s'.readCount) <= s'.interPos
  {
    hide Run, Inv, LongestReleased;
    RunInv(c, ss, i);
    ReleaseInv(c, ss[i], s');
    ReleaseProgress(c, ss[i], s');
  }

  lemma ReleaseProgress(c: Config, s: State, s': State)
    requires c.Valid() && Inv(c, s) && Inv(c, s') && ReleaseStep(c, s, s')
    ensures s'.reader.Releasing? ==> s.reader.tail < s'.reader.tail <= s'.interPos && s'.reader.head == s.reader.head
    ensures !s'.reader.Releasing? ==>
              && LongestReleased(s'.log, s'.readCount)
              && s'.readerPos == Bound(s'.log, s'.writerPos, s'.readCount) <= s'.interPos
  {
    hide LogOk, Tiled, MemoryOk, LockOk, TailsOk, OwnersOk, InOrder, QueueOk, OnceEach, OutputOk, IsDiscarded, Load, Bound;
    ScanSeesRelease(c, s);
    if s'.reader.Releasing? {
      BoundMonotone(s'.log, s'.writerPos, s'.reader.count, s'.interCount);
    }
  }
}
