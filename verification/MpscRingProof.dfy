/** Every step of the ring protocol keeps its invariant. */
module MpscRingProof {
  import opened RingWords
  import opened MpscRing

  lemma InitInv(c: Config, s: State)
    requires c.Valid() && Init(c, s)
    ensures Inv(c, s)
  {
  }

  /** A header word gives back the size and both flags. */
  lemma HeaderDecodes(c: Config, r: Record)
    requires c.Valid() && r.span == Span(r.size) && r.span < c.words
    requires r.released ==> r.status == Committed
    ensures IsBusy(r.Header()) <==> r.status == Busy
    ensures IsDiscarded(r.Header()) <==> r.status == Discarded || r.released
    ensures r.status != Busy ==> ClearDiscard(r.Header()) == r.size
  {
    assert r.size < DISCARD;
  }

  lemma UpdateTailInv(c: Config, s: State, s': State, p: nat)
    requires c.Valid() && Inv(c, s) && UpdateTailStep(c, s, s', p)
    ensures Inv(c, s')
  {
    hide LogOk, Tiled, CursorsOk, MemoryOk, StatusOk, ReaderOk, InOrder, QueueOk, OnceEach, OutputOk;
  }

  // ----- stores and the records they leave alone -----

  /** A store outside a record, inside the live window, changes nothing of that record. */
  lemma StoreElsewhere(c: Config, mem: seq<Word>, r: Record, p: nat, w: Word)
    requires c.Valid() && Memory(c, mem) && 0 < r.span
    requires p < r.start || r.End() <= p
    requires p < r.start + c.words && r.End() <= p + c.words
    ensures Load(c, Store(c, mem, p, w), r.start) == Load(c, mem, r.start)
    ensures Payload(c, Store(c, mem, p, w), r.start, r.span) == Payload(c, mem, r.start, r.span)
  {
    LoadAfterStore(c, mem, p, w, r.start);
    PayloadAfterStore(c, mem, p, w, r.start, r.span);
  }

  /** A store inside record `i`, or past the last record, leaves all other live records alone. */
  lemma StoreKeepsOthers(c: Config, mem: seq<Word>, log: seq<Record>, writerPos: nat, first: nat, i: nat, p: nat, w: Word)
    requires c.Valid() && Memory(c, mem) && LogOk(c, log) && Tiled(log, writerPos) && first <= i <= |log|
    requires i < |log| ==> log[i].start <= p < log[i].End()
    requires i == |log| ==> p == writerPos
    requires p < Bound(log, writerPos, first) + c.words && writerPos < Bound(log, writerPos, first) + c.words
    ensures forall k :: first <= k < |log| && k != i ==>
              && Load(c, Store(c, mem, p, w), log[k].start) == Load(c, mem, log[k].start)
              && Payload(c, Store(c, mem, p, w), log[k].start, log[k].span) == Payload(c, mem, log[k].start, log[k].span)
  {
    forall k | first <= k < |log| && k != i
      ensures Load(c, Store(c, mem, p, w), log[k].start) == Load(c, mem, log[k].start)
      ensures Payload(c, Store(c, mem, p, w), log[k].start, log[k].span) == Payload(c, mem, log[k].start, log[k].span)
    {
      assert Bound(log, writerPos, first) <= log[k].start;
      StoreElsewhere(c, mem, log[k], p, w);
    }
  }

  lemma StoreAtHead(c: Config, s: State, w: Word)
    requires c.Valid() && Inv(c, s)
    ensures MemoryOk(c, Store(c, s.mem, s.writerPos, w), s.log, s.readCount)
  {
    hide LockOk, TailsOk, OwnersOk, StatusOk, ReaderOk, InOrder, QueueOk, OnceEach, OutputOk;
    StoreKeepsOthers(c, s.mem, s.log, s.writerPos, s.readCount, |s.log|, s.writerPos, w);
  }

  lemma ReserveInv(c: Config, s: State, s': State, p: nat, size: nat, high: bool)
    requires c.Valid() && Inv(c, s) && ReserveStep(c, s, s', p, size, high)
    ensures Inv(c, s')
  {
    hide LogOk, Tiled, CursorsOk, MemoryOk, StatusOk, ReaderOk, InOrder, QueueOk, OnceEach, OutputOk;
    StoreAtHead(c, s, size + BUSY);
  }

  lemma {:induction false} CommittedUpToPrefix(log: seq<Record>, log': seq<Record>, k: nat)
    requires k <= |log| && k <= |log'|
    requires forall i :: 0 <= i < k ==> log[i].status == log'[i].status
    ensures CommittedUpTo(log, k) == CommittedUpTo(log', k)
  {
    if k > 0 { CommittedUpToPrefix(log, log', k - 1); }
  }

  /** What was processed so far depends only on the records already read. */
  lemma HistoryKept(c: Config, log: seq<Record>, log': seq<Record>, delivered: nat, interCount: nat,
                    processed: seq<nat>, out: seq<Message>)
    requires delivered <= interCount <= |log| && interCount <= |log'|
    requires log[..interCount] == log'[..interCount]
    requires InOrder(c, log, delivered, processed) && OutputOk(log, interCount, processed, out)
    ensures InOrder(c, log', delivered, processed) && OutputOk(log', interCount, processed, out)
  {
    assert forall i :: 0 <= i < interCount ==> log[i] == log[..interCount][i] == log'[..interCount][i] == log'[i];
    CommittedUpToPrefix(log, log', delivered);
  }

  /** The queue depends only on the records already read. */
  lemma SameQueue(c: Config, queue: set<Item>, log: seq<Record>, log': seq<Record>, interCount: nat)
    requires QueueOk(c, queue, log, interCount) && interCount <= |log| && interCount <= |log'|
    requires forall k :: 0 <= k < interCount ==>
               log'[k].start == log[k].start && log'[k].size == log[k].size && log'[k].released == log[k].released
    ensures QueueOk(c, queue, log', interCount)
  {
  }

  // ----- a new record -----

  lemma AppendTiled(c: Config, log: seq<Record>, writerPos: nat, r: Record)
    requires LogOk(c, log) && Tiled(log, writerPos)
    requires r.start == writerPos && 1 <= r.size && r.span == Span(r.size) && r.span < c.words
    ensures LogOk(c, log + [r]) && Tiled(log + [r], r.End())
    ensures forall k: nat :: k <= |log| ==> Bound(log + [r], r.End(), k) == Bound(log, writerPos, k)
  {
    hide Span;
    var log' := log + [r];
    assert forall k :: 0 <= k < |log'| ==> log'[k] == if k < |log| then log[k] else r;
  }

  lemma AppendMemory(c: Config, mem: seq<Word>, log: seq<Record>, first: nat, r: Record)
    requires c.Valid() && Memory(c, mem) && LogOk(c, log) && MemoryOk(c, mem, log, first)
    requires LogOk(c, log + [r]) && r.status == Busy && Load(c, mem, r.start) == r.Header()
    ensures MemoryOk(c, mem, log + [r], first)
  {
  }

  lemma AppendReader(c: Config, reader: Reader, log: seq<Record>, writerPos: nat, interPos: nat, readCount: nat,
                     interCount: nat, r: Record)
    requires readCount <= interCount <= |log| && r.start == writerPos
    requires ReaderOk(c, reader, log, writerPos, interPos, readCount, interCount)
    ensures ReaderOk(c, reader, log + [r], r.End(), interPos, readCount, interCount)
  {
  }

  lemma AppendHistory(c: Config, log: seq<Record>, readCount: nat, interCount: nat, processed: seq<nat>, r: Record)
    requires readCount <= interCount <= |log| && r.status == Busy && !r.released
    requires StatusOk(c, log, readCount, interCount) && OnceEach(c, log, processed)
    ensures StatusOk(c, log + [r], readCount, interCount) && OnceEach(c, log + [r], processed)
  {
  }

  lemma AppendOwner(producers: map<nat, Producer>, log: seq<Record>, p: nat, tail: nat, r: Record)
    requires OwnersOk(producers, log) && r.status == Busy
    ensures OwnersOk(producers[p := Filling(tail, r.start, r.size, |log|)], log + [r])
  {
  }

  lemma PublishInv(c: Config, s: State, s': State, p: nat)
    requires c.Valid() && Inv(c, s) && PublishStep(c, s, s', p)
    ensures Inv(c, s')
  {
    hide LogOk, Tiled, MemoryOk, StatusOk, ReaderOk, InOrder, QueueOk, OnceEach, OutputOk, OwnersOk, Span, Bound;
    var r := s'.log[|s.log|];
    assert s'.log == s.log + [r];
    AppendTiled(c, s.log, s.writerPos, r);
    AppendMemory(c, s.mem, s.log, s.readCount, r);
    AppendReader(c, s.reader, s.log, s.writerPos, s.interPos, s.readCount, s.interCount, r);
    AppendHistory(c, s.log, s.readCount, s.interCount, s.processed, r);
    SameQueue(c, s.queue, s.log, s'.log, s.interCount);
    AppendOwner(s.producers, s.log, p, s.producers[p].tail, r);
    assert s.log[..s.interCount] == s'.log[..s.interCount];
    HistoryKept(c, s.log, s'.log, DeliveredCount(s.reader, s.interCount), s.interCount, s.processed, s.out);
  }

  // ----- stores inside a record -----

  ghost predicate SameShape(log: seq<Record>, log': seq<Record>) {
    && |log| == |log'|
    && forall k :: 0 <= k < |log| ==>
         log'[k].start == log[k].start && log'[k].size == log[k].size && log'[k].span == log[k].span
  }

  /** The tiling depends only on where records start and how long they are. */
  lemma ShapeTiled(c: Config, log: seq<Record>, log': seq<Record>, writerPos: nat)
    requires LogOk(c, log) && Tiled(log, writerPos) && SameShape(log, log')
    ensures LogOk(c, log') && Tiled(log', writerPos)
    ensures forall k: nat :: k <= |log| ==> Bound(log', writerPos, k) == Bound(log, writerPos, k)
  {
    hide Span;
    assert forall k :: 0 <= k < |log'| ==> log'[k].End() == log[k].End();
    assert forall j, k :: 0 <= j < k < |log'| ==> log'[j].End() == log[j].End() && log'[k].start == log[k].start;
  }

  /** A store into the payload of a record still being filled disturbs nothing the reader relies on. */
  lemma FillMemory(c: Config, mem: seq<Word>, log: seq<Record>, writerPos: nat, first: nat, i: nat, p: nat, w: Word)
    requires c.Valid() && Memory(c, mem) && LogOk(c, log) && Tiled(log, writerPos) && MemoryOk(c, mem, log, first)
    requires first <= i < |log| && log[i].status == Busy && log[i].start < p < log[i].End()
    requires writerPos < Bound(log, writerPos, first) + c.words
    ensures MemoryOk(c, Store(c, mem, p, w), log, first)
    ensures Load(c, Store(c, mem, p, w), writerPos) == Load(c, mem, writerPos)
  {
    hide Span;
    StoreKeepsOthers(c, mem, log, writerPos, first, i, p, w);
    LoadAfterStore(c, mem, p, w, log[i].start);
    LoadAfterStore(c, mem, p, w, writerPos);
  }

  lemma FillRecord(c: Config, s: State, p: nat)
    requires c.Valid() && Inv(c, s) && p in s.producers && s.producers[p].Filling?
    ensures var i := s.producers[p].rec;
            && s.readCount <= s.interCount <= i < |s.log| && s.log[i].status == Busy
            && s.log[i].start == s.producers[p].start && s.log[i].size == s.producers[p].size
            && s.log[i].span == Span(s.log[i].size)
  {
    hide Tiled, MemoryOk, LockOk, TailsOk, ReaderOk, QueueOk, InOrder, OnceEach, OutputOk, Span;
  }

  lemma FillInv(c: Config, s: State, s': State, p: nat, word: nat, value: Word)
    requires c.Valid() && Inv(c, s) && FillStep(c, s, s', p, word, value)
    ensures Inv(c, s')
  {
    hide LogOk, Tiled, MemoryOk, TailsOk, ReaderOk, InOrder, QueueOk, OnceEach, OutputOk, Span, Load, Store;
    var i := s.producers[p].rec;
    FillRecord(c, s, p);
    FillMemory(c, s.mem, s.log, s.writerPos, s.readCount, i, s.log[i].start + 1 + word, value);
  }

  lemma InWindow(log: seq<Record>, writerPos: nat, first: nat, i: nat)
    requires Tiled(log, writerPos) && first <= i < |log|
    ensures Bound(log, writerPos, first) <= log[i].start && log[i].End() <= writerPos
  {
  }

  /** The store that finishes a record, or marks it: its new header, the same payload. */
  lemma HeaderStore(c: Config, mem: seq<Word>, log: seq<Record>, writerPos: nat, first: nat, i: nat, r: Record)
    requires c.Valid() && Memory(c, mem) && LogOk(c, log) && Tiled(log, writerPos) && MemoryOk(c, mem, log, first)
    requires first <= i < |log| && writerPos < Bound(log, writerPos, first) + c.words
    requires r.start == log[i].start && r.span == log[i].span && r.size == log[i].size
    requires r.payload == Payload(c, mem, r.start, r.span)
    ensures LogOk(c, log[i := r])
    ensures MemoryOk(c, Store(c, mem, r.start, r.Header()), log[i := r], first)
  {
    hide Span, Tiled;
    ShapeTiled(c, log, log[i := r], writerPos);
    assert Bound(log, writerPos, first) <= r.start && r.End() <= writerPos by { InWindow(log, writerPos, first, i); }
    StoreKeepsOthers(c, mem, log, writerPos, first, i, r.start, r.Header());
    PayloadAfterStore(c, mem, r.start, r.Header(), r.start, r.span);
  }

  lemma CommitInv(c: Config, s: State, s': State, p: nat, discard: bool)
    requires c.Valid() && Inv(c, s) && CommitStep(c, s, s', p, discard)
    ensures Inv(c, s')
  {
    hide LogOk, Tiled, MemoryOk, StatusOk, ReaderOk, InOrder, QueueOk, OnceEach, OutputOk, OwnersOk;
    hide Span, ToggleBusy, SetDiscarded, Load, Store, Payload, Bound;
    var i := s.producers[p].rec;
    FillRecord(c, s, p);
    CommitHeader(c, s, s', p, discard);
    SameQueue(c, s.queue, s.log, s'.log, s.interCount);
    CommitHistory(c, s, s', p, discard);
    CommitReader(c, s, s', p, discard);
    CommitOwner(s.producers, s.log, p, s'.log[i]);
    ShapeTiled(c, s.log, s'.log, s.writerPos);
    LoadAfterStore(c, s.mem, s'.log[i].start, s'.log[i].Header(), s.writerPos);
  }

  lemma CommitOwner(producers: map<nat, Producer>, log: seq<Record>, p: nat, r: Record)
    requires OwnersOk(producers, log) && p in producers && producers[p].Filling?
    requires producers[p].rec < |log| && r.start == log[producers[p].rec].start
    ensures var i := producers[p].rec; OwnersOk(producers[p := Checking(r.start, i)], log[i := r])
  {
  }

  lemma CommitHeader(c: Config, s: State, s': State, p: nat, discard: bool)
    requires c.Valid() && Inv(c, s) && CommitStep(c, s, s', p, discard)
    ensures var i := s.producers[p].rec;
            && s.interCount <= i < |s.log| && s.log[i].status == Busy
            && s'.mem == Store(c, s.mem, s'.log[i].start, s'.log[i].Header())
            && s.log[i].start < s.writerPos < s.log[i].start + c.words
    ensures LogOk(c, s'.log) && MemoryOk(c, s'.mem, s'.log, s'.readCount)
  {
    hide ReaderOk, InOrder, QueueOk, OnceEach, OutputOk, LockOk, TailsOk, IsBusy, IsDiscarded, ToggleBusy, SetDiscarded, Span;
    hide StatusOk, OwnersOk, MemoryOk, LogOk, Tiled, Payload, Load, Store, CommittedUpTo;
    var i := s.producers[p].rec;
    FillRecord(c, s, p);
    LiveRecord(c, s, i);
    CommitWord(c, s.log[i], discard);
    HeaderStore(c, s.mem, s.log, s.writerPos, s.readCount, i, s'.log[i]);
  }

  /** A record not given back lies in the window between the cursors, with its header in memory. */
  lemma LiveRecord(c: Config, s: State, i: nat)
    requires c.Valid() && Inv(c, s) && s.readCount <= i < |s.log|
    ensures Load(c, s.mem, s.log[i].start) == s.log[i].Header() && s.log[i].span == Span(s.log[i].size) < c.words
    ensures s.log[i].start < s.writerPos < s.log[i].start + c.words
    ensures s.log[i].status != Committed ==> !s.log[i].released
  {
    hide LockOk, TailsOk, OwnersOk, ReaderOk, QueueOk, InOrder, OnceEach, OutputOk, Span;
  }

  /** Clearing the busy bit, and setting the discard bit on request, finishes a record's header. */
  lemma CommitWord(c: Config, r: Record, discard: bool)
    requires c.Valid() && r.span == Span(r.size) && r.span < c.words && r.status == Busy && !r.released
    ensures var cleared := ToggleBusy(r.Header());
            (if discard then SetDiscarded(cleared) else cleared)
            == r.(status := if discard then Discarded else Committed).Header()
  {
    HeaderDecodes(c, r);
    HeaderDecodes(c, r.(status := Committed));
  }

  lemma CommitHistory(c: Config, s: State, s': State, p: nat, discard: bool)
    requires c.Valid() && Inv(c, s) && CommitStep(c, s, s', p, discard)
    ensures StatusOk(c, s'.log, s'.readCount, s'.interCount)
    ensures InOrder(c, s'.log, DeliveredCount(s'.reader, s'.interCount), s'.processed)
    ensures OnceEach(c, s'.log, s'.processed)
    ensures OutputOk(s'.log, s'.interCount, s'.processed, s'.out)
  {
    hide LogOk, Tiled, MemoryOk, LockOk, TailsOk, ReaderOk, InOrder, OutputOk, CursorsOk;
    assert s.log[..s.interCount] == s'.log[..s.interCount];
    HistoryKept(c, s.log, s'.log, DeliveredCount(s.reader, s.interCount), s.interCount, s.processed, s.out);
  }

  lemma CommitReader(c: Config, s: State, s': State, p: nat, discard: bool)
    requires c.Valid() && Inv(c, s) && CommitStep(c, s, s', p, discard)
    ensures ReaderOk(c, s'.reader, s'.log, s'.writerPos, s'.interPos, s'.readCount, s'.interCount)
  {
    hide LogOk, Tiled, MemoryOk, LockOk, TailsOk, InOrder, OutputOk, OnceEach;
  }

  lemma CheckInv(c: Config, s: State, s': State, p: nat)
    requires c.Valid() && Inv(c, s) && CheckStep(c, s, s', p)
    ensures Inv(c, s')
  {
    hide LogOk, Tiled, CursorsOk, MemoryOk, StatusOk, ReaderOk, InOrder, QueueOk, OnceEach, OutputOk, Span;
  }

  lemma NotifyInv(c: Config, s: State, s': State, p: nat, ok: bool)
    requires c.Valid() && Inv(c, s) && NotifyStep(c, s, s', p, ok)
    ensures Inv(c, s')
  {
    hide LogOk, Tiled, CursorsOk, MemoryOk, StatusOk, ReaderOk, InOrder, QueueOk, OnceEach, OutputOk, Span;
  }

  // ----- the consumer -----

  lemma WakeInv(c: Config, s: State, s': State)
    requires c.Valid() && Inv(c, s) && (WakeStep(c, s, s') || LoadHeadStep(c, s, s'))
    ensures Inv(c, s')
  {
    hide LogOk, Tiled, MemoryOk, LockOk, TailsOk, OwnersOk, StatusOk, InOrder, QueueOk, OnceEach, OutputOk, Span;
  }

  /** A turn of the read loop sees the record at the intermediate cursor as it is. */
  lemma TurnReadsRecord(c: Config, s: State, head: nat, hc: nat)
    requires c.Valid() && Inv(c, s) && s.interCount <= hc <= |s.log| && head == Bound(s.log, s.writerPos, hc)
    ensures match ReadTurn(c, s.mem, head, s.interPos)
            case Nothing => head == s.interPos || (s.interCount < hc && s.log[s.interCount].status == Busy)
            case Skipped(next) =>
              && s.interCount < hc && s.log[s.interCount].status == Discarded
              && next == Bound(s.log, s.writerPos, s.interCount + 1)
            case Sample(next, word) =>
              && s.interCount < hc && s.log[s.interCount].status == Committed && !s.log[s.interCount].released
              && next == Bound(s.log, s.writerPos, s.interCount + 1)
              && s.interPos == s.log[s.interCount].start && word == s.log[s.interCount].size
  {
    hide LockOk, TailsOk, OwnersOk, ReaderOk, InOrder, QueueOk, OnceEach, OutputOk;
    if head != s.interPos {
      HeaderDecodes(c, s.log[s.interCount]);
    }
  }

  /** Moving the intermediate cursor over a finished record. */
  lemma InterAdvance(c: Config, s: State, s': State)
    requires c.Valid() && Inv(c, s) && s.interCount < |s.log| && s.log[s.interCount].status != Busy
    requires s' == s.(interCount := s.interCount + 1, interPos := Bound(s.log, s.writerPos, s.interCount + 1),
                      reader := s'.reader, queue := s'.queue)
    ensures CursorsOk(c, s'.log, s'.writerPos, s'.readerPos, s'.interPos, s'.readCount, s'.interCount)
    ensures StatusOk(c, s'.log, s'.readCount, s'.interCount)
    ensures OutputOk(s'.log, s'.interCount, s'.processed, s'.out)
  {
    hide MemoryOk, LockOk, TailsOk, OwnersOk, ReaderOk, InOrder, OnceEach, Span;
  }

  /** A record that is read joins the queue of the ordered loop. */
  lemma QueueAdvance(c: Config, queue: set<Item>, log: seq<Record>, n: nat)
    requires QueueOk(c, queue, log, n) && n < |log| && !log[n].released
    ensures !c.ordered ==> QueueOk(c, queue, log, n + 1)
    ensures c.ordered ==> QueueOk(c, queue + {Item(log[n].start, log[n].size, n)}, log, n + 1)
  {
  }

  lemma QueueSkips(c: Config, queue: set<Item>, log: seq<Record>, n: nat)
    requires QueueOk(c, queue, log, n) && !c.ordered
    ensures QueueOk(c, queue, log, n + 1)
  {
  }

  lemma ReadSampleInv(c: Config, s: State, s': State)
    requires c.Valid() && Inv(c, s) && ReadSampleStep(c, s, s')
    ensures Inv(c, s')
  {
    hide LogOk, Tiled, CursorsOk, MemoryOk, LockOk, TailsOk, OwnersOk, StatusOk, QueueOk, OnceEach, OutputOk, Span, ReadTurn;
    TurnReadsRecord(c, s, s.reader.head, s.reader.headCount);
    if s'.interCount != s.interCount {
      InterAdvance(c, s, s');
      QueueSkips(c, s.queue, s.log, s.interCount);
    }
    assert CommittedUpTo(s.log, s'.interCount) == if s'.interCount == s.interCount then s.processed
      else s.processed + (if s.log[s.interCount].status == Committed then [s.interCount] else []);
  }

  /** Reading at a record's start with its plain header word gives what was committed there. */
  lemma ReceivesSent(c: Config, mem: seq<Word>, log: seq<Record>, first: nat, k: nat)
    requires c.Valid() && Memory(c, mem) && LogOk(c, log) && MemoryOk(c, mem, log, first)
    requires first <= k < |log| && log[k].status == Committed
    ensures Received(c, mem, log[k].start, log[k].size) == log[k].Sent()
  {
    HeaderDecodes(c, log[k].(released := false));
  }

  lemma ProcessInv(c: Config, s: State, s': State)
    requires c.Valid() && Inv(c, s) && ProcessStep(c, s, s')
    ensures Inv(c, s')
    ensures s'.out == s.out + [s.log[s.interCount - 1].Sent()]
  {
    hide LogOk, Tiled, MemoryOk, CursorsOk, LockOk, TailsOk, OwnersOk, QueueOk, Span, Received;
    ReceivesSent(c, s.mem, s.log, s.readCount, s.interCount - 1);
  }

  lemma AdvanceInv(c: Config, s: State, s': State)
    requires c.Valid() && Inv(c, s) && (AdvanceStep(c, s, s') || CloseStep(c, s, s'))
    ensures Inv(c, s')
  {
    hide LogOk, Tiled, OwnersOk, InOrder, QueueOk, OnceEach, OutputOk, Span;
  }

  lemma FetchInv(c: Config, s: State, s': State)
    requires c.Valid() && Inv(c, s) && FetchStep(c, s, s')
    ensures Inv(c, s')
  {
    hide LogOk, Tiled, MemoryOk, LockOk, TailsOk, OwnersOk, StatusOk, InOrder, QueueOk, OnceEach, OutputOk, Span;
  }

  lemma FetchSampleInv(c: Config, s: State, s': State)
    requires c.Valid() && Inv(c, s) && FetchSampleStep(c, s, s')
    ensures Inv(c, s')
  {
    hide LogOk, Tiled, CursorsOk, MemoryOk, LockOk, TailsOk, OwnersOk, StatusOk, QueueOk, OnceEach, OutputOk, Span, ReadTurn;
    TurnReadsRecord(c, s, s.reader.head, s.reader.headCount);
    if s'.interCount != s.interCount {
      assert s.log[s.interCount].status == Committed by { NoDiscards(c, s); }
      InterAdvance(c, s, s');
      QueueAdvance(c, s.queue, s.log, s.interCount);
    }
  }

  lemma NoDiscards(c: Config, s: State)
    requires c.Valid() && Inv(c, s) && c.ordered
    ensures forall k :: 0 <= k < |s.log| ==> s.log[k].status != Discarded
  {
    hide LogOk, Tiled, MemoryOk, LockOk, TailsOk, OwnersOk, InOrder, QueueOk, OnceEach, OutputOk, CursorsOk, Span, ReaderOk;
  }

  lemma MarkInv(c: Config, s: State, s': State, item: Item)
    requires c.Valid() && Inv(c, s) && MarkStep(c, s, s', item)
    ensures Inv(c, s')
  {
    hide LogOk, Tiled, MemoryOk, StatusOk, QueueOk, OnceEach, OutputOk, OwnersOk, CommittedUpTo;
    hide Span, SetDiscarded, Load, Store, Payload, Bound, Received;
    var rec := item.rec;
    MarkRecord(c, s, item);
    MarkHeader(c, s, s', item);
    MarkHistory(c, s, s', item);
    ShapeTiled(c, s.log, s'.log, s.writerPos);
    LoadAfterStore(c, s.mem, s'.log[rec].start, s'.log[rec].Header(), s.writerPos);
  }

  /** A queued event is a record that was read, committed and not released. */
  lemma MarkRecord(c: Config, s: State, item: Item)
    requires c.Valid() && Inv(c, s) && s.reader.Idle? && item in s.queue
    ensures var rec := item.rec;
            && s.readCount <= rec < s.interCount <= |s.log| && !s.log[rec].released && s.log[rec].status == Committed
            && item.start == s.log[rec].start && item.word == s.log[rec].size && c.ordered
    ensures Received(c, s.mem, item.start, item.word) == s.log[item.rec].Sent()
  {
    hide LogOk, Tiled, MemoryOk, LockOk, TailsOk, OwnersOk, InOrder, OnceEach, OutputOk, CursorsOk, Span, Received;
    ReceivesSent(c, s.mem, s.log, s.readCount, item.rec);
  }

  lemma MarkHeader(c: Config, s: State, s': State, item: Item)
    requires c.Valid() && Inv(c, s) && MarkStep(c, s, s', item)
    ensures var rec := item.rec;
            && rec < |s.log| == |s'.log| && s'.mem == Store(c, s.mem, s'.log[rec].start, s'.log[rec].Header())
            && s.log[rec].start < s.writerPos < s.log[rec].start + c.words
    ensures LogOk(c, s'.log) && MemoryOk(c, s'.mem, s'.log, s'.readCount)
  {
    hide QueueOk, InOrder, OnceEach, OutputOk, LockOk, TailsOk, OwnersOk, ReaderOk, Received, StatusOk, MemoryOk, LogOk;
    hide Tiled, Payload, Load, Store, CommittedUpTo, SetDiscarded, IsDiscarded, Span;
    var rec := item.rec;
    MarkRecord(c, s, item);
    LiveRecord(c, s, rec);
    FinishedPayload(c, s, rec);
    MarkWord(c, s.log[rec]);
    HeaderStore(c, s.mem, s.log, s.writerPos, s.readCount, rec, s'.log[rec]);
  }

  /** Setting the discard bit releases a committed record. */
  lemma MarkWord(c: Config, r: Record)
    requires c.Valid() && r.span == Span(r.size) && r.span < c.words && r.status == Committed && !r.released
    ensures SetDiscarded(r.Header()) == r.(released := true).Header()
  {
    HeaderDecodes(c, r);
  }

  lemma FinishedPayload(c: Config, s: State, i: nat)
    requires c.Valid() && Inv(c, s) && s.readCount <= i < |s.log| && s.log[i].status != Busy
    ensures 0 < s.log[i].span && Payload(c, s.mem, s.log[i].start, s.log[i].span) == s.log[i].payload
  {
    hide LockOk, TailsOk, OwnersOk, ReaderOk, QueueOk, InOrder, OnceEach, OutputOk, Tiled;
  }

  lemma MarkHistory(c: Config, s: State, s': State, item: Item)
    requires c.Valid() && Inv(c, s) && MarkStep(c, s, s', item)
    ensures StatusOk(c, s'.log, s'.readCount, s'.interCount)
    ensures QueueOk(c, s'.queue, s'.log, s'.interCount)
    ensures OnceEach(c, s'.log, s'.processed)
    ensures OutputOk(s'.log, s'.interCount, s'.processed, s'.out)
    ensures OwnersOk(s'.producers, s'.log)
  {
    hide LogOk, Tiled, MemoryOk, LockOk, TailsOk, InOrder, CursorsOk, Span, QueueOk, OnceEach, OutputOk, OwnersOk, Received;
    var rec := item.rec;
    MarkRecord(c, s, item);
    MarkQueue(c, s.queue, s.log, s.interCount, item);
    MarkOnce(c, s.log, s.processed, rec);
    MarkOutput(s.log, s.interCount, s.processed, s.out, rec);
    MarkOwners(s.producers, s.log, rec);
  }

  lemma MarkQueue(c: Config, queue: set<Item>, log: seq<Record>, interCount: nat, item: Item)
    requires QueueOk(c, queue, log, interCount) && item in queue
    ensures item.rec < |log| && QueueOk(c, queue - {item}, log[item.rec := log[item.rec].(released := true)], interCount)
  {
  }

  lemma MarkOnce(c: Config, log: seq<Record>, processed: seq<nat>, rec: nat)
    requires OnceEach(c, log, processed) && c.ordered && rec < |log| && !log[rec].released
    ensures OnceEach(c, log[rec := log[rec].(released := true)], processed + [rec])
  {
  }

  lemma MarkOutput(log: seq<Record>, interCount: nat, processed: seq<nat>, out: seq<Message>, rec: nat)
    requires OutputOk(log, interCount, processed, out) && rec < interCount <= |log|
    ensures OutputOk(log[rec := log[rec].(released := true)], interCount, processed + [rec], out + [log[rec].Sent()])
  {
  }

  lemma MarkOwners(producers: map<nat, Producer>, log: seq<Record>, rec: nat)
    requires OwnersOk(producers, log) && rec < |log|
    ensures OwnersOk(producers, log[rec := log[rec].(released := true)])
  {
  }

  lemma LoadTailInv(c: Config, s: State, s': State)
    requires c.Valid() && Inv(c, s) && LoadTailStep(c, s, s')
    ensures Inv(c, s')
  {
    hide LogOk, MemoryOk, LockOk, TailsOk, OwnersOk, InOrder, QueueOk, OnceEach, OutputOk, Span;
  }

  /** The release scan stops at the first record that is not released yet. */
  lemma ScanSeesRelease(c: Config, s: State)
    requires c.Valid() && Inv(c, s) && s.reader.Releasing?
    ensures var Releasing(head, tail, count) := s.reader;
            && (tail < head ==> count < |s.log|)
            && (tail >= head ==> count == s.interCount)
            && (tail < head ==>
                  && (IsDiscarded(Load(c, s.mem, tail)) <==> s.log[count].released)
                  && (s.log[count].released ==>
                        tail + RecordSpan(Load(c, s.mem, tail)) == Bound(s.log, s.writerPos, count + 1)))
  {
    hide LockOk, TailsOk, OwnersOk, InOrder, QueueOk, OnceEach, OutputOk, MemoryOk, Tiled, LogOk, Load;
    hide IsDiscarded, RecordSpan, Span;
    var count := s.reader.count;
    BoundOrder(c, s.log, s.writerPos, s.interCount, count);
    if s.reader.tail < s.reader.head {
      BoundOrder(c, s.log, s.writerPos, |s.log|, count);
      LiveRecord(c, s, count);
      NextStart(c, s.log, s.writerPos, count);
    }
  }

  /** A record's header word leads to the next record. */
  lemma NextStart(c: Config, log: seq<Record>, writerPos: nat, k: nat)
    requires c.Valid() && LogOk(c, log) && Tiled(log, writerPos) && k < |log| && (log[k].released ==> log[k].status == Committed)
    ensures IsDiscarded(log[k].Header()) <==> log[k].status == Discarded || log[k].released
    ensures log[k].status != Busy ==> log[k].start + RecordSpan(log[k].Header()) == Bound(log, writerPos, k + 1)
  {
    HeaderDecodes(c, log[k]);
  }

  /** Boundaries are ordered as the records are. */
  lemma BoundOrder(c: Config, log: seq<Record>, writerPos: nat, j: nat, k: nat)
    requires LogOk(c, log) && Tiled(log, writerPos) && j <= |log| && k <= |log|
    ensures Bound(log, writerPos, j) <= Bound(log, writerPos, k) <==> j <= k
  {
  }

  lemma BoundMonotone(log: seq<Record>, writerPos: nat, j: nat, k: nat)
    requires Tiled(log, writerPos) && j <= k <= |log|
    ensures Bound(log, writerPos, j) <= Bound(log, writerPos, k)
  {
  }

  lemma ReleaseInv(c: Config, s: State, s': State)
    requires c.Valid() && Inv(c, s) && ReleaseStep(c, s, s')
    ensures Inv(c, s')
  {
    hide LogOk, Tiled, OwnersOk, InOrder, QueueOk, OnceEach, OutputOk, Span, IsDiscarded, RecordSpan, Load, Bound;
    var count := s.reader.count;
    ScanSeesRelease(c, s);
    BoundMonotone(s.log, s.writerPos, s.readCount, count);
    BoundMonotone(s.log, s.writerPos, count, s.interCount);
    ReleaseStatus(c, s);
  }

  lemma ReleaseStatus(c: Config, s: State)
    requires c.Valid() && Inv(c, s) && s.reader.Releasing?
    ensures StatusOk(c, s.log, s.reader.count, s.interCount)
    ensures s.reader.count < |s.log| && s.log[s.reader.count].released ==> s.reader.count < s.interCount
  {
    hide LogOk, Tiled, MemoryOk, LockOk, TailsOk, OwnersOk, InOrder, QueueOk, OnceEach, OutputOk, CursorsOk, Span;
  }

  lemma NextInv(c: Config, s: State, s': State)
    requires c.Valid() && Inv(c, s) && Next(c, s, s')
    ensures Inv(c, s')
  {
    hide Inv, Memory;
    var step :| NextStep(c, s, s', step);
    match step
    case UpdateTail(p) => UpdateTailInv(c, s, s', p);
    case Reserve(p, size, high) => ReserveInv(c, s, s', p, size, high);
    case Publish(p) => PublishInv(c, s, s', p);
    case Fill(p, word, value) => FillInv(c, s, s', p, word, value);
    case Commit(p, discard) => CommitInv(c, s, s', p, discard);
    case Check(p) => CheckInv(c, s, s', p);
    case Notify(p, ok) => NotifyInv(c, s, s', p, ok);
    case Wake => WakeInv(c, s, s');
    case LoadHead => WakeInv(c, s, s');
    case ReadSample => ReadSampleInv(c, s, s');
    case Process => ProcessInv(c, s, s');
    case Advance => AdvanceInv(c, s, s');
    case Close => AdvanceInv(c, s, s');
    case Fetch => FetchInv(c, s, s');
    case FetchSample => FetchSampleInv(c, s, s');
    case Mark(item) => MarkInv(c, s, s', item);
    case LoadTail => LoadTailInv(c, s, s');
    case Release => ReleaseInv(c, s, s');
  }
}
