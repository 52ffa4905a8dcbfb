/** The ring protocol never gets stuck: producers do not wait for each other except for the lock, the consumer
    does not wait for anybody, and whatever is finished can be handed over and its space given back. */
module MpscProgress {
  import opened RingWords
  import opened MpscRing
  import opened MpscRingProof
  import opened MpscRuns
  import opened Paths

  datatype Actor = Consumer | Producer(p: nat)

  function ActorOf(step: Step): Actor {
    match step
    case UpdateTail(p) => Producer(p)
    case Reserve(p, _, _) => Producer(p)
    case Publish(p) => Producer(p)
    case Fill(p, _, _) => Producer(p)
    case Commit(p, _) => Producer(p)
    case Check(p) => Producer(p)
    case Notify(p, _) => Producer(p)
    case _ => Consumer
  }

  ghost predicate Moves(c: Config, s: State, s': State, actor: Actor)
    requires c.Valid()
  {
    Memory(c, s.mem) && exists step :: ActorOf(step) == actor && NextStep(c, s, s', step)
  }

  /** What one actor does alone. */
  ghost function Steps(c: Config, actor: Actor): (State, State) -> bool
    requires c.Valid()
  {
    (s, s') => Moves(c, s, s', actor)
  }

  lemma Follows(c: Config, s: State, s': State, s'': State, step: Step)
    requires c.Valid() && Memory(c, s.mem) && NextStep(c, s, s', step) && Reaches(Steps(c, ActorOf(step)), s', s'')
    ensures Reaches(Steps(c, ActorOf(step)), s, s'')
  {
    hide NextStep, ActorOf, Reaches;
    assert Moves(c, s, s', ActorOf(step));
    hide Moves;
    Precede(Steps(c, ActorOf(step)), s, s', s'');
  }

  ghost predicate NoneBusy(log: seq<Record>) { forall k :: 0 <= k < |log| ==> log[k].status != Busy }

  // ----- the consumer of the unordered loop -----

  function ConsumerStep(reader: Reader): Step {
    match reader
    case Starting => LoadHead
    case Reading(_, _, _) => ReadSample
    case Holding(_, _, _, _, _) => Process
    case Processed(_, _) => Advance
    case Finished(_) => Close
    case _ => Wake
  }

  /** How near the consumer is to taking the next record or, when there is none, to sleeping. */
  function Phase(s: State): nat {
    var all := s.interCount == |s.log|;
    match s.reader
    case Holding(_, _, _, _, _) => 12
    case Processed(_, _) => 11
    case Reading(_, hc, seen) => if seen then 10 else if hc == s.interCount && !all then 8 else 4
    case Finished(seen) => if seen then 9 else if all then 3 else 7
    case Polling => if all then 0 else 6
    case _ => 5
  }

  predicate Drained(s: State) { s.interCount == |s.log| && s.reader.Polling? }

  /** The state after the consumer's next access. */
  function Consumed(c: Config, s: State): State
    requires c.Valid() && Memory(c, s.mem)
  {
    match s.reader
    case Starting => s.(reader := Reading(s.writerPos, |s.log|, false))
    case Reading(head, hc, seen) =>
      (match ReadTurn(c, s.mem, head, s.interPos)
       case Nothing => s.(reader := Finished(seen))
       case Skipped(next) => s.(interPos := next, interCount := s.interCount + 1)
       case Sample(next, w) =>
         s.(interPos := next, interCount := s.interCount + 1, reader := Holding(head, hc, s.interPos, w, s.interCount)))
    case Holding(head, hc, start, word, rec) =>
      s.(reader := Processed(head, hc), processed := s.processed + [rec], out := s.out + [Received(c, s.mem, start, word)])
    case Processed(head, hc) => s.(reader := Reading(head, hc, true), readerPos := s.interPos, readCount := s.interCount)
    case Finished(seen) => s.(reader := if seen then Starting else Polling, readerPos := s.interPos, readCount := s.interCount)
    case _ => s.(reader := Starting, eventfd := 0)
  }

  /** The consumer's next access is always possible. If no record is busy it brings the consumer nearer to a record
      or past one. */
  lemma ConsumerAdvances(c: Config, s: State)
    requires c.Valid() && Inv(c, s) && !c.ordered
    ensures Memory(c, s.mem) && NextStep(c, s, Consumed(c, s), ConsumerStep(s.reader))
    ensures Inv(c, Consumed(c, s)) && s.interCount <= |s.log|
    ensures NoneBusy(s.log) && !Drained(s) ==>
              var s' := Consumed(c, s);
              s'.interCount > s.interCount || (s'.interCount == s.interCount && Phase(s') < Phase(s))
  {
    hide Inv, ReadTurn, Received;
    UnorderedReader(c, s);
    var s' := Consumed(c, s);
    assert NextStep(c, s, s', ConsumerStep(s.reader));
    NextInv(c, s, s');
    if s.reader.Reading? && NoneBusy(s.log) { TurnAtHead(c, s); }
  }

  lemma UnorderedReader(c: Config, s: State)
    requires c.Valid() && Inv(c, s) && !c.ordered
    ensures Memory(c, s.mem) && s.interCount <= |s.log|
    ensures !s.reader.Idle? && !s.reader.Fetching? && !s.reader.Marked? && !s.reader.Releasing?
    ensures s.reader.Reading? ==> s.interCount <= s.reader.headCount <= |s.log|
    ensures s.reader.Polling? ==> s.readCount == s.interCount
  {
    hide LogOk, Tiled, MemoryOk, LockOk, TailsOk, OwnersOk, StatusOk, InOrder, QueueOk, OnceEach, OutputOk;
  }

  lemma TurnAtHead(c: Config, s: State)
    requires c.Valid() && Inv(c, s) && (s.reader.Reading? || s.reader.Fetching?) && NoneBusy(s.log)
    ensures s.interCount <= s.reader.headCount <= |s.log|
    ensures ReadTurn(c, s.mem, s.reader.head, s.interPos).Nothing? <==> s.interCount == s.reader.headCount
  {
    hide LogOk, Tiled, MemoryOk, LockOk, TailsOk, OwnersOk, StatusOk, InOrder, QueueOk, OnceEach, OutputOk, ReadTurn, Bound;
    TurnReadsRecord(c, s, s.reader.head, s.reader.headCount);
    BoundOrder(c, s.log, s.writerPos, s.reader.headCount, s.interCount);
  }

  lemma {:induction false} CanDrain(c: Config, s: State) returns (s': State)
    requires c.Valid() && Inv(c, s) && !c.ordered && NoneBusy(s.log)
    ensures Reaches(Steps(c, Consumer), s, s') && Inv(c, s') && Drained(s')
    ensures s'.log == s.log && s'.writerPos == s.writerPos && s'.producers == s.producers
    decreases |s.log| - s.interCount, Phase(s)
  {
    hide Inv, NextStep, Reaches, Phase, NoneBusy;
    if Drained(s) {
      s' := s;
      Stays(Steps(c, Consumer), s);
    } else {
      ConsumerAdvances(c, s);
      UnorderedReader(c, Consumed(c, s));
      s' := CanDrain(c, Consumed(c, s));
      Follows(c, s, Consumed(c, s), s', ConsumerStep(s.reader));
    }
  }

  /** In every run: as soon as no record is busy, the consumer alone can bring the ring to rest. Then all committed
      records were delivered, in order and with their bytes, and all space is free again. */
  lemma EverythingCanBeRead(c: Config, ss: seq<State>, i: nat) returns (s': State)
    requires c.Valid() && Run(c, ss) && i < |ss| && !c.ordered && NoneBusy(ss[i].log)
    ensures Reaches(Steps(c, Consumer), ss[i], s') && s'.log == ss[i].log && s'.readerPos == s'.writerPos == ss[i].writerPos
    ensures forall j :: 0 <= j < |CommittedUpTo(s'.log, |s'.log|)| ==> CommittedUpTo(s'.log, |s'.log|)[j] < |s'.log|
    ensures s'.out == Messages(s'.log, CommittedUpTo(s'.log, |s'.log|)) && s'.reader.Polling?
  {
    hide Run, Inv, Reaches, NoneBusy;
    RunInv(c, ss, i);
    s' := CanDrain(c, ss[i]);
    DrainedIs(c, s');
  }

  lemma DrainedIs(c: Config, s: State)
    requires c.Valid() && Inv(c, s) && !c.ordered && Drained(s)
    ensures s.readerPos == s.writerPos
    ensures forall j :: 0 <= j < |CommittedUpTo(s.log, |s.log|)| ==> CommittedUpTo(s.log, |s.log|)[j] < |s.log|
    ensures s.out == Messages(s.log, CommittedUpTo(s.log, |s.log|))
  {
    hide Tiled, MemoryOk, LockOk, TailsOk, OwnersOk, QueueOk, OnceEach, CommittedUpTo;
  }

  // ----- the consumer of the ordered loop -----

  function OrderedPhase(s: State): nat {
    match s.reader
    case Marked => |s.log| + 4
    case Releasing(_, _, count) => if count > |s.log| then 3 else |s.log| - count + 3
    case Fetching(_, hc) => if hc == s.interCount then 3 else 1
    case _ => 2
  }

  predicate HandedOver(s: State) { s.interCount == |s.log| && s.queue == {} && s.reader.Idle? }

  /** The state after the next access of a consumer that processes `item` before it asks for more. */
  function OrderedNext(c: Config, s: State, item: Item): State
    requires c.Valid() && Memory(c, s.mem)
  {
    match s.reader
    case Fetching(head, _) =>
      (match ReadTurn(c, s.mem, head, s.interPos)
       case Nothing => s.(reader := Idle)
       case Skipped(next) => s.(interPos := next, interCount := s.interCount + 1)
       case Sample(next, w) =>
         s.(interPos := next, interCount := s.interCount + 1, reader := Idle,
            queue := s.queue + {Item(s.interPos, w, s.interCount)}))
    case Marked => s.(reader := Releasing(s.writerPos, s.readerPos, s.readCount))
    case Releasing(head, tail, count) =>
      var w := Load(c, s.mem, tail);
      if tail < head && IsDiscarded(w) then s.(reader := Releasing(head, tail + RecordSpan(w), count + 1))
      else s.(reader := Idle, readerPos := tail, readCount := count)
    case _ =>
      if item !in s.queue then s.(reader := Fetching(s.writerPos, |s.log|))
      else s.(reader := Marked, mem := Store(c, s.mem, item.start, SetDiscarded(Load(c, s.mem, item.start))),
              queue := s.queue - {item}, log := WithRelease(s.log, item.rec), processed := s.processed + [item.rec],
              out := s.out + [Received(c, s.mem, item.start, item.word)])
  }

  function OrderedStep(s: State, item: Item): Step {
    match s.reader
    case Fetching(_, _) => FetchSample
    case Marked => LoadTail
    case Releasing(_, _, _) => Release
    case _ => if item in s.queue then Mark(item) else Fetch
  }

  lemma OrderedConsumer(c: Config, s: State)
    requires c.Valid() && Inv(c, s) && c.ordered
    ensures Memory(c, s.mem) && s.interCount <= |s.log|
    ensures s.reader.Idle? || s.reader.Fetching? || s.reader.Marked? || s.reader.Releasing?
    ensures s.reader.Fetching? ==> s.interCount <= s.reader.headCount <= |s.log|
    ensures s.reader.Releasing? ==> s.reader.count <= |s.log|
  {
    hide LogOk, Tiled, MemoryOk, LockOk, TailsOk, OwnersOk, StatusOk, InOrder, QueueOk, OnceEach, OutputOk;
  }

  lemma OrderedPossible(c: Config, s: State, item: Item)
    requires c.Valid() && Inv(c, s) && c.ordered
    ensures Memory(c, s.mem) && NextStep(c, s, OrderedNext(c, s, item), OrderedStep(s, item)) && Inv(c, OrderedNext(c, s, item))
  {
    hide Inv, ReadTurn, Received, Load, Store, IsDiscarded, RecordSpan, SetDiscarded, Bound;
    OrderedConsumer(c, s);
    assert NextStep(c, s, OrderedNext(c, s, item), OrderedStep(s, item));
    NextInv(c, s, OrderedNext(c, s, item));
  }

  /** Likewise the next access of the ordered consumer is always possible, and brings it nearer. */
  lemma OrderedAdvances(c: Config, s: State, item: Item)
    requires c.Valid() && Inv(c, s) && c.ordered && NoneBusy(s.log) && !HandedOver(s) && (item in s.queue || s.queue == {})
    ensures Memory(c, s.mem) && NextStep(c, s, OrderedNext(c, s, item), OrderedStep(s, item))
    ensures var s' := OrderedNext(c, s, item);
            && Inv(c, s') && |s'.log| == |s.log| && NoneBusy(s'.log) && s.interCount <= |s.log|
            && s'.writerPos == s.writerPos && s'.producers == s.producers
            && (|| s'.interCount > s.interCount
                || (s'.interCount == s.interCount && |s'.queue| < |s.queue|)
                || (s'.interCount == s.interCount && s'.queue == s.queue && OrderedPhase(s') < OrderedPhase(s)))
  {
    hide Inv, ReadTurn, Received, Load, Store, IsDiscarded, RecordSpan, SetDiscarded, Bound, NextStep;
    OrderedPossible(c, s, item);
    OrderedConsumer(c, s);
    OrderedConsumer(c, OrderedNext(c, s, item));
    if s.reader.Fetching? { TurnAtHead(c, s); }
  }

  /** Between two releases the read cursor stands behind the longest prefix of released records. */
  ghost predicate Settled(s: State) { s.reader.Idle? || s.reader.Fetching? ==> LongestReleased(s.log, s.readCount) }

  lemma NextSettled(c: Config, s: State, s': State)
    requires c.Valid() && Inv(c, s) && Next(c, s, s') && Settled(s)
    ensures Settled(s')
  {
    hide Inv, NextStep;
    NextInv(c, s, s');
    var step :| NextStep(c, s, s', step);
    if step.Release? {
      assert ReleaseStep(c, s, s') by { ReleaseOf(c, s, s', step); }
      ReleaseProgress(c, s, s');
    } else if s'.reader.Idle? || s'.reader.Fetching? {
      ReleasedSame(c, s, s', step);
    }
  }

  lemma ReleaseOf(c: Config, s: State, s': State, step: Step)
    requires c.Valid() && Memory(c, s.mem) && NextStep(c, s, s', step) && step.Release?
    ensures ReleaseStep(c, s, s')
  {
    hide ReleaseStep;
  }

  lemma ReleasedSame(c: Config, s: State, s': State, step: Step)
    requires c.Valid() && Memory(c, s.mem) && NextStep(c, s, s', step) && !step.Release?
    requires s'.reader.Idle? || s'.reader.Fetching?
    ensures (s.reader.Idle? || s.reader.Fetching?) && s'.readCount == s.readCount && |s.log| <= |s'.log|
    ensures forall k :: 0 <= k < |s'.log| ==> s'.log[k].released == (k < |s.log| && s.log[k].released)
  {
    hide Load, Store, ReadTurn, ToggleBusy, SetDiscarded, RecordSpan, Payload, Received, Span;
  }

  lemma {:induction false} CanHandOver(c: Config, s: State) returns (s': State)
    requires c.Valid() && Inv(c, s) && c.ordered && NoneBusy(s.log) && Settled(s)
    ensures Reaches(Steps(c, Consumer), s, s') && Inv(c, s') && HandedOver(s') && Settled(s')
    ensures |s'.log| == |s.log| && s'.writerPos == s.writerPos && s'.producers == s.producers
    decreases |s.log| - s.interCount, |s.queue|, OrderedPhase(s)
  {
    hide Inv, NextStep, Reaches, OrderedPhase, NoneBusy, OrderedNext, Settled;
    if HandedOver(s) {
      s' := s;
      Stays(Steps(c, Consumer), s);
    } else {
      var item := Item(0, 0, 0);
      if s.queue != {} { item :| item in s.queue; }
      OrderedAdvances(c, s, item);
      OrderedConsumer(c, OrderedNext(c, s, item));
      NextSettled(c, s, OrderedNext(c, s, item));
      s' := CanHandOver(c, OrderedNext(c, s, item));
      Follows(c, s, OrderedNext(c, s, item), s', OrderedStep(s, item));
    }
  }

  lemma {:induction false} RunSettled(c: Config, ss: seq<State>, i: nat)
    requires c.Valid() && Run(c, ss) && i < |ss|
    ensures Settled(ss[i])
  {
    hide Inv, Next;
    if i > 0 {
      RunSettled(c, ss, i - 1);
      RunInv(c, ss, i - 1);
      NextSettled(c, ss[i - 1], ss[i]);
    }
  }

  /** In every run: as soon as no record is busy, the ordered consumer alone can bring the ring to rest. Then every
      record was processed, once and with its bytes, and all space is free again. */
  lemma EverythingCanBeHandedOver(c: Config, ss: seq<State>, i: nat) returns (s': State)
    requires c.Valid() && Run(c, ss) && i < |ss| && c.ordered && NoneBusy(ss[i].log)
    ensures Reaches(Steps(c, Consumer), ss[i], s') && |s'.log| == |ss[i].log|
    ensures s'.readerPos == s'.writerPos == ss[i].writerPos && s'.queue == {}
    ensures forall k: nat :: k in s'.processed <==> k < |s'.log|
    ensures forall a, b :: 0 <= a < b < |s'.processed| ==> s'.processed[a] != s'.processed[b]
    ensures (forall a :: 0 <= a < |s'.processed| ==> s'.processed[a] < |s'.log|) && s'.out == Messages(s'.log, s'.processed)
  {
    hide Run, Inv, Reaches, NoneBusy, Settled, Messages;
    RunInv(c, ss, i);
    RunSettled(c, ss, i);
    s' := CanHandOver(c, ss[i]);
    HandedOverIs(c, s');
  }

  lemma HandedOverIs(c: Config, s: State)
    requires c.Valid() && Inv(c, s) && c.ordered && HandedOver(s) && Settled(s)
    ensures s.readerPos == s.writerPos
    ensures forall k: nat :: k in s.processed <==> k < |s.log|
    ensures forall a, b :: 0 <= a < b < |s.processed| ==> s.processed[a] != s.processed[b]
    ensures (forall a :: 0 <= a < |s.processed| ==> s.processed[a] < |s.log|) && s.out == Messages(s.log, s.processed)
  {
    hide Tiled, MemoryOk, LockOk, TailsOk, OwnersOk, InOrder;
    assert forall k :: 0 <= k < |s.log| ==> s.log[k].released;
  }

  // ----- producers -----

  /** The first `k` words of the record that `p` fills are those of `words`. */
  ghost predicate Written(c: Config, s: State, p: nat, words: seq<Word>, k: nat)
    requires c.Valid() && Memory(c, s.mem)
  {
    && p in s.producers && s.producers[p].Filling? && k <= |words| && |words| + 1 == Span(s.producers[p].size)
    && forall j :: 0 <= j < k ==> Load(c, s.mem, s.producers[p].start + 1 + j) == words[j]
  }

  lemma WriteNext(c: Config, s: State, p: nat, words: seq<Word>, k: nat) returns (s': State)
    requires c.Valid() && Inv(c, s) && Memory(c, s.mem) && Written(c, s, p, words, k) && k < |words|
    ensures NextStep(c, s, s', Fill(p, k, words[k])) && s' == s.(mem := s'.mem)
    ensures Inv(c, s') && Memory(c, s'.mem) && Written(c, s', p, words, k + 1)
  {
    hide Inv, Load, Store, Span;
    var at := s.producers[p].start + 1 + k;
    s' := s.(mem := Store(c, s.mem, at, words[k]));
    assert NextStep(c, s, s', Fill(p, k, words[k]));
    NextInv(c, s, s');
    SmallRecord(c, s, p);
    forall j | 0 <= j < k ensures Load(c, s'.mem, s.producers[p].start + 1 + j) == words[j] {
      LoadAfterStore(c, s.mem, at, words[k], s.producers[p].start + 1 + j);
    }
  }

  lemma SmallRecord(c: Config, s: State, p: nat)
    requires c.Valid() && Inv(c, s) && p in s.producers && s.producers[p].Filling?
    ensures Span(s.producers[p].size) < c.words
  {
    hide Tiled, MemoryOk, LockOk, TailsOk, ReaderOk, InOrder, QueueOk, OnceEach, OutputOk, Span;
  }

  lemma {:induction false} CanWrite(c: Config, s: State, p: nat, words: seq<Word>, k: nat) returns (s': State)
    requires c.Valid() && Inv(c, s) && Memory(c, s.mem) && Written(c, s, p, words, k)
    ensures Memory(c, s'.mem) && Inv(c, s') && s'.producers[p := Ready(0)] == s.producers[p := Ready(0)]
    ensures Reaches(Steps(c, Producer(p)), s, s') && p in s'.producers && s'.producers[p].Checking?
    ensures s.producers[p].rec < |s'.log| == |s.log|
    ensures s'.log[s.producers[p].rec].status == Committed && s'.log[s.producers[p].rec].payload == words
    decreases |words| - k
  {
    hide Inv, Reaches, NextStep, Span;
    var rec := s.producers[p].rec;
    if k < |words| {
      var s1 := WriteNext(c, s, p, words, k);
      s' := CanWrite(c, s1, p, words, k + 1);
      Follows(c, s, s1, s', Fill(p, k, words[k]));
    } else {
      s' := CommitWritten(c, s, p, words);
      Stays(Steps(c, Producer(p)), s');
      Follows(c, s, s', s', Commit(p, false));
    }
  }

  lemma CommitWritten(c: Config, s: State, p: nat, words: seq<Word>) returns (s': State)
    requires c.Valid() && Inv(c, s) && Memory(c, s.mem) && Written(c, s, p, words, |words|)
    ensures NextStep(c, s, s', Commit(p, false)) && Inv(c, s') && Memory(c, s'.mem)
    ensures s'.producers == s.producers[p := Checking(s.producers[p].start, s.producers[p].rec)]
    ensures s.producers[p].rec < |s'.log| == |s.log|
    ensures s'.log[s.producers[p].rec].status == Committed && s'.log[s.producers[p].rec].payload == words
  {
    hide Inv, Load, Store, ToggleBusy, SetDiscarded, Span;
    FillRecord(c, s, p);
    var Filling(_, start, size, rec) := s.producers[p];
    var payload := Payload(c, s.mem, start, Span(size));
    assert payload == words;
    hide Payload;
    s' := s.(mem := Store(c, s.mem, start, ToggleBusy(Load(c, s.mem, start))),
             producers := s.producers[p := Checking(start, rec)], log := WithStatus(s.log, rec, Committed, payload));
    assert NextStep(c, s, s', Commit(p, false));
    NextInv(c, s, s');
  }

  /** In every run: a producer that owns a record can, alone, put any words into it and commit it. */
  lemma AnythingCanBeWritten(c: Config, ss: seq<State>, i: nat, p: nat, words: seq<Word>) returns (s': State)
    requires c.Valid() && Run(c, ss) && i < |ss| && p in ss[i].producers && ss[i].producers[p].Filling?
    requires |words| + 1 == Span(ss[i].producers[p].size)
    ensures Reaches(Steps(c, Producer(p)), ss[i], s') && ss[i].producers[p].rec < |s'.log|
    ensures s'.log[ss[i].producers[p].rec].status == Committed && s'.log[ss[i].producers[p].rec].payload == words
  {
    hide Run, Inv, Reaches;
    RunInv(c, ss, i);
    assert Memory(c, ss[i].mem) by { MemoryOf(c, ss[i]); }
    s' := CanWrite(c, ss[i], p, words, 0);
  }

  /** The state after the next access of a producer that is past its reservation. */
  function Produced(c: Config, s: State, p: nat): State
    requires c.Valid() && p in s.producers
  {
    match s.producers[p]
    case Publishing(tail, size) =>
      s.(lock := None, writerPos := s.writerPos + Span(size),
         producers := s.producers[p := Filling(tail, s.writerPos, size, |s.log|)],
         log := s.log + [Record(s.writerPos, size, Span(size), Busy, false, [])])
    case Checking(start, rec) =>
      s.(producers := s.producers[p := if Wrap(s.readerPos, c.words) == Wrap(start, c.words)
                                       then Notifying(s.readerPos, rec) else Ready(s.readerPos)])
    case Notifying(tail, _) => s.(producers := s.producers[p := Ready(tail)], eventfd := s.eventfd + 1)
    case _ => s
  }

  function ProducerStep(producer: Producer, p: nat): Step {
    match producer
    case Publishing(_, _) => Publish(p)
    case Checking(_, _) => Check(p)
    case _ => Notify(p, true)
  }

  function ProducerLeft(producer: Producer): nat {
    match producer
    case Publishing(_, _) => 4
    case Filling(_, _, _, _) => 3
    case Checking(_, _) => 2
    case Notifying(_, _) => 1
    case Ready(_) => 0
  }

  lemma ProducerMoves(c: Config, s: State, p: nat)
    requires c.Valid() && Inv(c, s) && p in s.producers && !s.producers[p].Ready? && !s.producers[p].Filling?
    ensures Memory(c, s.mem) && NextStep(c, s, Produced(c, s, p), ProducerStep(s.producers[p], p)) && Inv(c, Produced(c, s, p))
  {
    hide Inv;
    assert Memory(c, s.mem) by { MemoryOf(c, s); }
    assert NextStep(c, s, Produced(c, s, p), ProducerStep(s.producers[p], p));
    NextInv(c, s, Produced(c, s, p));
  }

  /** A producer waits for nothing but the lock: in every run it can, alone, finish what it has begun. */
  lemma ProducerCanFinish(c: Config, ss: seq<State>, i: nat, p: nat) returns (s': State)
    requires c.Valid() && Run(c, ss) && i < |ss| && p in ss[i].producers
    ensures Reaches(Steps(c, Producer(p)), ss[i], s') && p in s'.producers && s'.producers[p].Ready?
  {
    hide Run, Inv, Reaches;
    RunInv(c, ss, i);
    s' := Finishes(c, ss[i], p);
  }

  lemma {:induction false} Finishes(c: Config, s: State, p: nat) returns (s': State)
    requires c.Valid() && Inv(c, s) && p in s.producers
    ensures Reaches(Steps(c, Producer(p)), s, s') && p in s'.producers && s'.producers[p].Ready?
    decreases ProducerLeft(s.producers[p])
  {
    hide Inv, Reaches, Span, NextStep;
    match s.producers[p]
    case Ready(_) =>
      s' := s;
      Stays(Steps(c, Producer(p)), s);
    case Filling(_, start, size, _) =>
      assert Memory(c, s.mem) by { MemoryOf(c, s); }
      var s1 := CommitWritten(c, s, p, Payload(c, s.mem, start, Span(size)));
      s' := Finishes(c, s1, p);
      Follows(c, s, s1, s', Commit(p, false));
    case _ =>
      ProducerMoves(c, s, p);
      s' := Finishes(c, Produced(c, s, p), p);
      Follows(c, s, Produced(c, s, p), s', ProducerStep(s.producers[p], p));
  }

  // ----- busy records -----

  ghost predicate OwnerOf(s: State, p: nat, k: nat) {
    p in s.producers && s.producers[p].Filling? && s.producers[p].rec == k
  }

  /** Every busy record has a producer that is filling it. */
  ghost predicate BusyOwned(s: State) {
    forall k :: 0 <= k < |s.log| && s.log[k].status == Busy ==> exists p :: OwnerOf(s, p, k)
  }

  lemma NextOwned(c: Config, s: State, s': State)
    requires c.Valid() && Inv(c, s) && Next(c, s, s') && BusyOwned(s)
    ensures BusyOwned(s')
  {
    hide Inv, NextStep, OwnerOf;
    var step :| NextStep(c, s, s', step);
    BusyBefore(c, s, s', step);
    forall k | 0 <= k < |s'.log| && s'.log[k].status == Busy ensures exists p :: OwnerOf(s', p, k) {
      if k < |s.log| {
        var p :| OwnerOf(s, p, k);
        OwnerStays(c, s, s', step, p, k);
      } else {
        assert OwnerOf(s', step.p, k);
      }
    }
  }

  lemma BusyBefore(c: Config, s: State, s': State, step: Step)
    requires c.Valid() && Memory(c, s.mem) && NextStep(c, s, s', step)
    ensures forall k :: 0 <= k < |s'.log| && s'.log[k].status == Busy ==>
              if k < |s.log| then s.log[k].status == Busy else step.Publish? && OwnerOf(s', step.p, k)
  {
    hide Load, Store, ReadTurn, ToggleBusy, SetDiscarded, RecordSpan, Payload, Received, Span;
  }

  lemma OwnerStays(c: Config, s: State, s': State, step: Step, p: nat, k: nat)
    requires c.Valid() && Memory(c, s.mem) && Inv(c, s) && NextStep(c, s, s', step)
    requires OwnerOf(s, p, k) && k < |s'.log| && s'.log[k].status == Busy
    ensures OwnerOf(s', p, k)
  {
    hide Inv, Load, Store, ReadTurn, ToggleBusy, SetDiscarded, RecordSpan, Payload, Received, Span;
    FillRecord(c, s, p);
  }
}
