/** The multi-producer single-consumer ring buffer as a state machine.

    One step is one atomic access (or the part of the locked region before the store that publishes
    the new write cursor). Any number of producers run, each with a read cursor cached at some
    earlier moment. The consumer is either `MPSCRingBufferReader` in the unordered event loop or
    the ordered loop, which reads ahead and releases events in any order. `log` records every
    reservation ever made; it and the counts and record numbers beside it are history, which steps write
    and never read. */
module MpscRing {
  import opened RingWords

  datatype Option<T> = None | Some(value: T)

  datatype Status = Busy | Committed | Discarded

  datatype Record = Record(start: nat, size: nat, span: nat, status: Status, released: bool, payload: seq<Word>) {
    function End(): nat { start + span }

    /** The header word the record has in memory. */
    function Header(): Word {
      size + (if status == Busy then BUSY else 0) + (if status == Discarded || released then DISCARD else 0)
    }

    function Sent(): Message { Message(size, payload) }
  }

  /** What a reader gets: the size in bytes and the words of the payload. */
  datatype Message = Message(size: nat, words: seq<Word>)

  /** An event waiting in the ordered loop: where its record is and the header word it had. */
  datatype Item = Item(start: nat, word: Word, rec: nat)

  datatype Producer =
    | Ready(tail: nat)                  // writer object exists, with this cached read cursor
    | Publishing(tail: nat, size: nat)  // holds the lock, header written, cursor not yet stored
    | Filling(tail: nat, start: nat, size: nat, rec: nat)  // owns an uncommitted record
    | Checking(start: nat, rec: nat)    // busy bit cleared, about to reload the read cursor
    | Notifying(tail: nat, rec: nat)    // about to write the event descriptor

  datatype Reader =
    | Polling                                // blocked in poll after a pass without events
    | Starting                               // about to create a reader
    | Reading(head: nat, headCount: nat, seen: bool)  // inside read_sample
    | Holding(head: nat, headCount: nat, start: nat, word: Word, rec: nat)  // a sample was returned
    | Processed(head: nat, headCount: nat)   // about to advance
    | Finished(seen: bool)                   // read_sample returned nothing
    | Idle                                   // ordered loop, between operations
    | Fetching(head: nat, headCount: nat)    // ordered loop, inside mpsc_rb_read_event
    | Marked                                 // ordered loop, event marked as discarded
    | Releasing(head: nat, tail: nat, count: nat)  // ordered loop, scanning for the new tail

  datatype State = State(
    mem: seq<Word>,
    writerPos: nat,
    readerPos: nat,
    interPos: nat,
    lock: Option<nat>,
    producers: map<nat, Producer>,
    reader: Reader,
    eventfd: nat,
    writeFailed: bool,
    queue: set<Item>,
    // history
    log: seq<Record>,
    readCount: nat,
    interCount: nat,
    processed: seq<nat>,
    out: seq<Message>)

  predicate Init(c: Config, s: State) {
    && |s.mem| == c.words
    && s.writerPos == s.readerPos == s.interPos == 0
    && s.lock == None && s.producers == map[]
    && s.reader == (if c.ordered then Idle else Polling)
    && s.eventfd == 0 && !s.writeFailed && s.queue == {}
    && s.log == [] && s.readCount == 0 && s.interCount == 0
    && s.processed == [] && s.out == []
  }

  datatype Step =
    | UpdateTail(p: nat)
    | Reserve(p: nat, size: nat, high: bool)
    | Publish(p: nat)
    | Fill(p: nat, word: nat, value: Word)
    | Commit(p: nat, discard: bool)
    | Check(p: nat)
    | Notify(p: nat, ok: bool)
    | Wake
    | LoadHead
    | ReadSample
    | Process
    | Advance
    | Close
    | Fetch
    | FetchSample
    | Mark(item: Item)
    | LoadTail
    | Release

  // ----- producers -----

  ghost predicate UpdateTailStep(c: Config, s: State, s': State, p: nat) {
    && (p in s.producers ==> s.producers[p].Ready?)
    && s' == s.(producers := s.producers[p := Ready(s.readerPos)])
  }

  /** The test `reserve` makes, against the cached (possibly stale) read cursor. */
  predicate HasRoom(c: Config, writerPos: nat, tail: nat, size: nat, high: bool) {
    8 * (writerPos + Span(size)) + (if high then 0 else c.highPriority) - 8 * tail <= 8 * c.words - 1
  }

  ghost predicate ReserveStep(c: Config, s: State, s': State, p: nat, size: nat, high: bool)
    requires c.Valid() && Memory(c, s.mem)
  {
    && p in s.producers && s.producers[p].Ready? && s.lock == None
    && 1 <= size <= TWO64 - 8 && RequestedBytes(size) != 0
    && HasRoom(c, s.writerPos, s.producers[p].tail, size, high)
    && s' == s.(lock := Some(p),
                mem := Store(c, s.mem, s.writerPos, size + BUSY),
                producers := s.producers[p := Publishing(s.producers[p].tail, size)])
  }

  ghost predicate PublishStep(c: Config, s: State, s': State, p: nat) {
    && p in s.producers && s.producers[p].Publishing?
    && var size := s.producers[p].size;
    && s' == s.(lock := None,
                writerPos := s.writerPos + Span(size),
                producers := s.producers[p := Filling(s.producers[p].tail, s.writerPos, size, |s.log|)],
                log := s.log + [Record(s.writerPos, size, Span(size), Busy, false, [])])
  }

  ghost predicate FillStep(c: Config, s: State, s': State, p: nat, word: nat, value: Word)
    requires c.Valid() && Memory(c, s.mem)
  {
    && p in s.producers && s.producers[p].Filling?
    && word + 1 < Span(s.producers[p].size)
    && s' == s.(mem := Store(c, s.mem, s.producers[p].start + 1 + word, value))
  }

  /** Enter in the history how a record was finished. */
  function WithStatus(log: seq<Record>, rec: nat, status: Status, payload: seq<Word>): seq<Record> {
    if rec < |log| then log[rec := log[rec].(status := status, payload := payload)] else log
  }

  ghost predicate CommitStep(c: Config, s: State, s': State, p: nat, discard: bool)
    requires c.Valid() && Memory(c, s.mem)
  {
    && (discard ==> !c.ordered)
    && p in s.producers && s.producers[p].Filling?
    && var Filling(_, start, size, rec) := s.producers[p];
    && var cleared := ToggleBusy(Load(c, s.mem, start));
    && s' == s.(mem := Store(c, s.mem, start, if discard then SetDiscarded(cleared) else cleared),
                producers := s.producers[p := Checking(start, rec)],
                log := WithStatus(s.log, rec, if discard then Discarded else Committed,
                                  Payload(c, s.mem, start, Span(size))))
  }

  /** Reload the read cursor; notify only if the consumer stands at the committed record. */
  ghost predicate CheckStep(c: Config, s: State, s': State, p: nat)
    requires c.Valid()
  {
    && p in s.producers && s.producers[p].Checking?
    && var Checking(start, rec) := s.producers[p];
    && s' == s.(producers := s.producers[p :=
         if Wrap(s.readerPos, c.words) == Wrap(start, c.words)
         then Notifying(s.readerPos, rec) else Ready(s.readerPos)])
  }

  ghost predicate NotifyStep(c: Config, s: State, s': State, p: nat, ok: bool) {
    && p in s.producers && s.producers[p].Notifying?
    && s' == s.(producers := s.producers[p := Ready(s.producers[p].tail)],
                eventfd := if ok then s.eventfd + 1 else s.eventfd,
                writeFailed := s.writeFailed || !ok)
  }

  // ----- unordered consumer -----

  ghost predicate WakeStep(c: Config, s: State, s': State) {
    s.reader.Polling? && s' == s.(reader := Starting, eventfd := 0)
  }

  ghost predicate LoadHeadStep(c: Config, s: State, s': State) {
    s.reader.Starting? && s' == s.(reader := Reading(s.writerPos, |s.log|, false))
  }

  /** One turn of the loop in `mpsc_rb_read_sample`. The result says whether the loop continues,
      ends without a sample, or ends with one. */
  datatype Turn = Nothing | Skipped(pos: nat) | Sample(pos: nat, word: Word)

  function ReadTurn(c: Config, mem: seq<Word>, head: nat, inter: nat): Turn
    requires c.Valid() && Memory(c, mem)
  {
    if head == inter then Nothing
    else
      var w := Load(c, mem, inter);
      if IsBusy(w) then Nothing
      else
        var next := inter + RecordSpan(w);
        if IsDiscarded(w) then Skipped(next) else Sample(next, w)
  }

  ghost predicate ReadSampleStep(c: Config, s: State, s': State)
    requires c.Valid() && Memory(c, s.mem)
  {
    && s.reader.Reading?
    && var head := s.reader.head;
    && s' == match ReadTurn(c, s.mem, head, s.interPos)
             case Nothing => s.(reader := Finished(s.reader.seen))
             case Skipped(next) => s.(interPos := next, interCount := s.interCount + 1)
             case Sample(next, w) =>
               s.(interPos := next, interCount := s.interCount + 1,
                  reader := Holding(head, s.reader.headCount, s.interPos, w, s.interCount))
  }

  /** The bytes that a cursor and the header word loaded there stand for. */
  function Received(c: Config, mem: seq<Word>, start: nat, word: Word): Message
    requires c.Valid() && Memory(c, mem)
  {
    Message(word, Payload(c, mem, start, RecordSpan(word)))
  }

  /** The event's bytes are read from the ring while the reader holds it. */
  ghost predicate ProcessStep(c: Config, s: State, s': State)
    requires c.Valid() && Memory(c, s.mem)
  {
    && s.reader.Holding?
    && var Holding(head, headCount, start, word, rec) := s.reader;
    && s' == s.(reader := Processed(head, headCount), processed := s.processed + [rec],
                out := s.out + [Received(c, s.mem, start, word)])
  }

  ghost predicate AdvanceStep(c: Config, s: State, s': State) {
    && s.reader.Processed?
    && s' == s.(reader := Reading(s.reader.head, s.reader.headCount, true), readerPos := s.interPos, readCount := s.interCount)
  }

  ghost predicate CloseStep(c: Config, s: State, s': State) {
    && s.reader.Finished?
    && s' == s.(reader := if s.reader.seen then Starting else Polling,
                readerPos := s.interPos, readCount := s.interCount)
  }

  // ----- ordered consumer -----

  ghost predicate FetchStep(c: Config, s: State, s': State) {
    s.reader.Idle? && s' == s.(reader := Fetching(s.writerPos, |s.log|))
  }

  ghost predicate FetchSampleStep(c: Config, s: State, s': State)
    requires c.Valid() && Memory(c, s.mem)
  {
    && s.reader.Fetching?
    && s' == match ReadTurn(c, s.mem, s.reader.head, s.interPos)
             case Nothing => s.(reader := Idle)
             case Skipped(next) => s.(interPos := next, interCount := s.interCount + 1)
             case Sample(next, w) =>
               s.(interPos := next, interCount := s.interCount + 1, reader := Idle,
                  queue := s.queue + {Item(s.interPos, w, s.interCount)})
  }

  function WithRelease(log: seq<Record>, rec: nat): seq<Record> {
    if rec < |log| then log[rec := log[rec].(released := true)] else log
  }

  /** Process any queued event, then mark it as discarded. */
  ghost predicate MarkStep(c: Config, s: State, s': State, item: Item)
    requires c.Valid() && Memory(c, s.mem)
  {
    && s.reader.Idle? && item in s.queue
    && s' == s.(reader := Marked,
                mem := Store(c, s.mem, item.start, SetDiscarded(Load(c, s.mem, item.start))),
                queue := s.queue - {item},
                log := WithRelease(s.log, item.rec),
                processed := s.processed + [item.rec],
                out := s.out + [Received(c, s.mem, item.start, item.word)])
  }

  ghost predicate LoadTailStep(c: Config, s: State, s': State) {
    s.reader.Marked? && s' == s.(reader := Releasing(s.writerPos, s.readerPos, s.readCount))
  }

  /** One turn of the loop in `mpsc_rb_advance_if_possible`, or its final store. */
  ghost predicate ReleaseStep(c: Config, s: State, s': State)
    requires c.Valid() && Memory(c, s.mem)
  {
    && s.reader.Releasing?
    && var Releasing(head, tail, count) := s.reader;
    && var w := Load(c, s.mem, tail);
    && s' == if tail < head && IsDiscarded(w)
             then s.(reader := Releasing(head, tail + RecordSpan(w), count + 1))
             else s.(reader := Idle, readerPos := tail, readCount := count)
  }

  ghost predicate NextStep(c: Config, s: State, s': State, step: Step)
    requires c.Valid() && Memory(c, s.mem)
  {
    match step
    case UpdateTail(p) => UpdateTailStep(c, s, s', p)
    case Reserve(p, size, high) => ReserveStep(c, s, s', p, size, high)
    case Publish(p) => PublishStep(c, s, s', p)
    case Fill(p, word, value) => FillStep(c, s, s', p, word, value)
    case Commit(p, discard) => CommitStep(c, s, s', p, discard)
    case Check(p) => CheckStep(c, s, s', p)
    case Notify(p, ok) => NotifyStep(c, s, s', p, ok)
    case Wake => WakeStep(c, s, s')
    case LoadHead => LoadHeadStep(c, s, s')
    case ReadSample => ReadSampleStep(c, s, s')
    case Process => ProcessStep(c, s, s')
    case Advance => AdvanceStep(c, s, s')
    case Close => CloseStep(c, s, s')
    case Fetch => FetchStep(c, s, s')
    case FetchSample => FetchSampleStep(c, s, s')
    case Mark(item) => MarkStep(c, s, s', item)
    case LoadTail => LoadTailStep(c, s, s')
    case Release => ReleaseStep(c, s, s')
  }

  ghost predicate Next(c: Config, s: State, s': State)
    requires c.Valid()
  {
    Memory(c, s.mem) && exists step :: NextStep(c, s, s', step)
  }

  // ----- the invariant -----

  /** Start of record `k`, or the write cursor when there is none yet. */
  function Bound(log: seq<Record>, writerPos: nat, k: nat): nat
    requires k <= |log|
  {
    if k == |log| then writerPos else log[k].start
  }

  ghost predicate LogOk(c: Config, log: seq<Record>) {
    forall k :: 0 <= k < |log| ==> 1 <= log[k].size && log[k].span == Span(log[k].size) && log[k].span < c.words
  }

  /** The history tiles [0, writerPos) without gaps or overlaps. */
  ghost predicate Tiled(log: seq<Record>, writerPos: nat) {
    && Bound(log, writerPos, 0) == 0
    && (forall j, k :: 0 <= j < k < |log| ==> log[j].End() <= log[k].start)
    && (forall j, k :: 0 <= j < k < |log| && k == j + 1 ==> log[j].End() == log[k].start)
    && (forall k :: 0 <= k < |log| ==> log[k].End() <= writerPos)
    && (|log| > 0 ==> log[|log| - 1].End() == writerPos)
  }

  /** Cursors sit on record boundaries and the ring never holds a full capacity. */
  ghost predicate CursorsOk(c: Config, log: seq<Record>, writerPos: nat, readerPos: nat, interPos: nat,
                            readCount: nat, interCount: nat)
  {
    && readCount <= interCount <= |log|
    && readerPos == Bound(log, writerPos, readCount)
    && interPos == Bound(log, writerPos, interCount)
    && readerPos <= interPos <= writerPos < readerPos + c.words
  }

  /** Memory holds the header of every record from `first` on, and the payload of each finished one. */
  ghost predicate MemoryOk(c: Config, mem: seq<Word>, log: seq<Record>, first: nat)
    requires c.Valid() && Memory(c, mem) && LogOk(c, log)
  {
    && (forall k :: first <= k < |log| ==> Load(c, mem, log[k].start) == log[k].Header())
    && (forall k :: first <= k < |log| && log[k].status != Busy ==>
          Payload(c, mem, log[k].start, log[k].span) == log[k].payload)
  }

  ghost predicate LockOk(c: Config, mem: seq<Word>, lock: Option<nat>, producers: map<nat, Producer>,
                         writerPos: nat, readerPos: nat)
    requires c.Valid() && Memory(c, mem)
  {
    && (lock.Some? ==> lock.value in producers && producers[lock.value].Publishing?)
    && (forall p :: p in producers && producers[p].Publishing? ==>
          && lock == Some(p)
          && 1 <= producers[p].size
          && writerPos + Span(producers[p].size) < readerPos + c.words
          && Load(c, mem, writerPos) == producers[p].size + BUSY)
  }

  /** A cached read cursor is never ahead of the real one. */
  ghost predicate TailsOk(producers: map<nat, Producer>, readerPos: nat) {
    forall p :: p in producers && !producers[p].Checking? ==> producers[p].tail <= readerPos
  }

  /** A producer filling a record owns it alone. */
  ghost predicate OwnersOk(producers: map<nat, Producer>, log: seq<Record>) {
    && (forall p :: p in producers && producers[p].Filling? ==>
          var Filling(_, start, size, rec) := producers[p];
          rec < |log| && log[rec].status == Busy && log[rec].start == start && log[rec].size == size)
    && (forall p :: p in producers && producers[p].Checking? ==>
          producers[p].rec < |log| && log[producers[p].rec].start == producers[p].start)
    && (forall p, q ::
          p in producers && q in producers && p != q && producers[p].Filling? && producers[q].Filling? ==>
            producers[p].rec != producers[q].rec)
  }

  ghost predicate StatusOk(c: Config, log: seq<Record>, readCount: nat, interCount: nat) {
    && (forall k :: 0 <= k < interCount && k < |log| ==> log[k].status != Busy)
    && (forall k :: 0 <= k < |log| && log[k].released ==> c.ordered && k < interCount && log[k].status == Committed)
    && (c.ordered ==> forall k :: 0 <= k < |log| ==> log[k].status != Discarded)
    && (c.ordered ==> forall k :: 0 <= k < readCount && k < |log| ==> log[k].released)
  }

  ghost predicate ReaderOk(c: Config, reader: Reader, log: seq<Record>, writerPos: nat, interPos: nat,
                           readCount: nat, interCount: nat)
    requires readCount <= interCount <= |log|
  {
    match reader
    case Polling => !c.ordered && readCount == interCount
    case Starting => !c.ordered && readCount == interCount
    case Reading(head, hc, _) => !c.ordered && interCount <= hc <= |log| && head == Bound(log, writerPos, hc)
    case Holding(head, hc, start, word, rec) =>
      && !c.ordered && interCount <= hc <= |log| && head == Bound(log, writerPos, hc)
      && readCount < interCount && log[interCount - 1].status == Committed
      && rec == interCount - 1 && start == log[rec].start && word == log[rec].size
    case Processed(head, hc) => !c.ordered && interCount <= hc <= |log| && head == Bound(log, writerPos, hc)
    case Finished(_) => !c.ordered
    case Idle => c.ordered
    case Fetching(head, hc) => c.ordered && interCount <= hc <= |log| && head == Bound(log, writerPos, hc)
    case Marked => c.ordered
    case Releasing(head, tail, count) =>
      && c.ordered && interPos <= head <= writerPos
      && readCount <= count <= interCount && tail == Bound(log, writerPos, count)
      && forall k :: 0 <= k < count ==> log[k].released
  }

  /** The queue of the ordered loop holds exactly the events that were read and not released. */
  ghost predicate QueueOk(c: Config, queue: set<Item>, log: seq<Record>, interCount: nat) {
    && (forall x :: x in queue ==>
          && c.ordered && x.rec < interCount && x.rec < |log|
          && !log[x.rec].released && x == Item(log[x.rec].start, log[x.rec].size, x.rec))
    && (c.ordered ==> forall k :: 0 <= k < interCount && k < |log| && !log[k].released ==>
          Item(log[k].start, log[k].size, k) in queue)
  }

  /** The committed records among the first `k`, in reservation order. */
  function CommittedUpTo(log: seq<Record>, k: nat): seq<nat>
    requires k <= |log|
  {
    if k == 0 then []
    else CommittedUpTo(log, k - 1) + (if log[k - 1].status == Committed then [k - 1] else [])
  }

  /** How many records the consumer is through with: a record being held is not counted. */
  function DeliveredCount(reader: Reader, interCount: nat): (k: nat)
    ensures k <= interCount
  {
    if reader.Holding? && interCount > 0 then interCount - 1 else interCount
  }

  /** What the unordered consumer has processed: the committed records, in reservation order. */
  ghost predicate InOrder(c: Config, log: seq<Record>, delivered: nat, processed: seq<nat>)
  {
    !c.ordered ==> delivered <= |log| && processed == CommittedUpTo(log, delivered)
  }

  /** What the ordered consumer has processed: the released records, each once. */
  ghost predicate OnceEach(c: Config, log: seq<Record>, processed: seq<nat>) {
    c.ordered ==>
      && (forall j :: 0 <= j < |processed| ==> processed[j] < |log| && log[processed[j]].released)
      && (forall i, j :: 0 <= i < j < |processed| ==> processed[i] != processed[j])
      && (forall k :: 0 <= k < |log| && log[k].released ==> k in processed)
  }

  /** What was read out of the ring is what was committed. */
  ghost predicate OutputOk(log: seq<Record>, interCount: nat, processed: seq<nat>, out: seq<Message>) {
    && |out| == |processed|
    && (forall j :: 0 <= j < |out| ==>
          processed[j] < interCount && processed[j] < |log| && out[j] == log[processed[j]].Sent())
  }

  ghost predicate Inv(c: Config, s: State)
    requires c.Valid()
  {
    && Memory(c, s.mem)
    && LogOk(c, s.log)
    && Tiled(s.log, s.writerPos)
    && CursorsOk(c, s.log, s.writerPos, s.readerPos, s.interPos, s.readCount, s.interCount)
    && MemoryOk(c, s.mem, s.log, s.readCount)
    && LockOk(c, s.mem, s.lock, s.producers, s.writerPos, s.readerPos)
    && TailsOk(s.producers, s.readerPos)
    && OwnersOk(s.producers, s.log)
    && StatusOk(c, s.log, s.readCount, s.interCount)
    && s.readCount <= s.interCount <= |s.log|
    && ReaderOk(c, s.reader, s.log, s.writerPos, s.interPos, s.readCount, s.interCount)
    && QueueOk(c, s.queue, s.log, s.interCount)
    && InOrder(c, s.log, DeliveredCount(s.reader, s.interCount), s.processed)
    && OnceEach(c, s.log, s.processed)
    && OutputOk(s.log, s.interCount, s.processed, s.out)
  }
}
