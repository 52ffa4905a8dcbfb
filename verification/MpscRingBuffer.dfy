/** The ring in place, one operation at a time: reserve, write and commit on the producer's side, and the
    consumer's two loops. */
module MpscRingBuffer {
  import opened RingWords
  import opened MpscRing
  import opened MpscRingProof

  /** The header of record `k` carries the discard bit. */
  predicate Skippable(r: Record) { r.status == Discarded || r.released }

  ghost predicate ReleasedWereRead(log: seq<Record>, interCount: nat) {
    && (forall k :: 0 <= k < |log| && log[k].released ==> k < interCount && log[k].status == Committed)
    && (forall k :: 0 <= k < interCount && k < |log| ==> log[k].status != Busy)
  }

  /** A buffer handed out by the reader. */
  datatype Buffer = Buffer(start: nat, word: Word)

  /** What the header word at a cursor says about the record there, and where the next one starts. */
  lemma HeaderAt(c: Config, mem: seq<Word>, log: seq<Record>, writerPos: nat, first: nat, interCount: nat, k: nat)
    requires c.Valid() && Memory(c, mem) && LogOk(c, log) && Tiled(log, writerPos) && MemoryOk(c, mem, log, first)
    requires ReleasedWereRead(log, interCount) && first <= k <= |log|
    ensures k == |log| <==> Bound(log, writerPos, k) == writerPos
    ensures k < |log| ==>
              var w := Load(c, mem, Bound(log, writerPos, k));
              && (IsBusy(w) <==> log[k].status == Busy)
              && (IsDiscarded(w) <==> Skippable(log[k]))
              && (log[k].status != Busy ==> Bound(log, writerPos, k) + RecordSpan(w) == Bound(log, writerPos, k + 1))
              && Bound(log, writerPos, k) < Bound(log, writerPos, k + 1) <= writerPos
  {
    if k < |log| { HeaderDecodes(c, log[k]); }
  }

  lemma MemoryFrom(c: Config, mem: seq<Word>, log: seq<Record>, first: nat, later: nat)
    requires c.Valid() && Memory(c, mem) && LogOk(c, log) && MemoryOk(c, mem, log, first) && first <= later
    ensures MemoryOk(c, mem, log, later)
  {
  }

  /** Setting the discard bit of a committed record's header is what releasing it means. */
  lemma MarkedHeader(c: Config, mem: seq<Word>, log: seq<Record>, writerPos: nat, first: nat, rec: nat)
    requires c.Valid() && Memory(c, mem) && LogOk(c, log) && MemoryOk(c, mem, log, first) && first <= rec < |log|
    requires log[rec].status == Committed && !log[rec].released
    ensures SetDiscarded(Load(c, mem, log[rec].start)) == log[rec].(released := true).Header()
    ensures Payload(c, mem, log[rec].start, log[rec].span) == log[rec].payload
  {
    HeaderDecodes(c, log[rec]);
  }

  /** A committed record that is not released has its size as header word, and its bytes behind it. */
  lemma PlainHeader(c: Config, mem: seq<Word>, log: seq<Record>, first: nat, k: nat)
    requires c.Valid() && Memory(c, mem) && LogOk(c, log) && MemoryOk(c, mem, log, first)
    requires first <= k < |log| && log[k].status == Committed && !log[k].released
    ensures Received(c, mem, log[k].start, Load(c, mem, log[k].start)) == log[k].Sent()
  {
    ReceivesSent(c, mem, log, first, k);
  }

  lemma RecordShape(c: Config, log: seq<Record>, k: nat)
    requires LogOk(c, log) && k < |log|
    ensures log[k].span == Span(log[k].size) && log[k].span < c.words
  {
  }

  /** Appending a busy record to a ring with room for it. */
  lemma BusyFits(c: Config, mem: seq<Word>, log: seq<Record>, writerPos: nat, first: nat, interCount: nat, r: Record)
    requires c.Valid() && Memory(c, mem) && LogOk(c, log) && Tiled(log, writerPos) && MemoryOk(c, mem, log, first)
    requires first <= |log| && writerPos < Bound(log, writerPos, first) + c.words && interCount <= |log|
    requires ReleasedWereRead(log, interCount)
    requires 1 <= r.size && r == Record(writerPos, r.size, Span(r.size), Busy, false, [])
    requires r.End() < Bound(log, writerPos, first) + c.words && Bound(log, writerPos, first) <= writerPos
    ensures LogOk(c, log + [r]) && Tiled(log + [r], r.End()) && ReleasedWereRead(log + [r], interCount)
    ensures forall k: nat :: k <= |log| ==> Bound(log + [r], r.End(), k) == Bound(log, writerPos, k)
    ensures MemoryOk(c, Store(c, mem, r.start, r.Header()), log + [r], first)
  {
    hide Span, MemoryOk, Tiled, LogOk, Bound;
    AppendTiled(c, log, writerPos, r);
    StoreKeepsOthers(c, mem, log, writerPos, first, |log|, writerPos, r.Header());
    assert MemoryOk(c, Store(c, mem, r.start, r.Header()), log, first) by { SameMemory(c, mem, Store(c, mem, r.start, r.Header()), log, first); }
    AppendMemory(c, Store(c, mem, r.start, r.Header()), log, first, r);
  }

  lemma SameMemory(c: Config, mem: seq<Word>, mem': seq<Word>, log: seq<Record>, first: nat)
    requires c.Valid() && Memory(c, mem) && Memory(c, mem') && LogOk(c, log) && MemoryOk(c, mem, log, first)
    requires forall k :: first <= k < |log| ==>
               && Load(c, mem', log[k].start) == Load(c, mem, log[k].start)
               && Payload(c, mem', log[k].start, log[k].span) == Payload(c, mem, log[k].start, log[k].span)
    ensures MemoryOk(c, mem', log, first)
  {
  }

  /** Finishing a busy record. */
  lemma CommitFits(c: Config, mem: seq<Word>, log: seq<Record>, writerPos: nat, first: nat, interCount: nat, rec: nat,
                   discard: bool, r: Record)
    requires c.Valid() && Memory(c, mem) && LogOk(c, log) && Tiled(log, writerPos) && MemoryOk(c, mem, log, first)
    requires first <= rec < |log| && writerPos < Bound(log, writerPos, first) + c.words && log[rec].status == Busy
    requires ReleasedWereRead(log, interCount)
    requires r == log[rec].(status := if discard then Discarded else Committed, payload := r.payload)
    requires r.payload == Payload(c, mem, r.start, Span(r.size))
    ensures LogOk(c, log[rec := r]) && Tiled(log[rec := r], writerPos) && ReleasedWereRead(log[rec := r], interCount)
    ensures forall k: nat :: k <= |log| ==> Bound(log[rec := r], writerPos, k) == Bound(log, writerPos, k)
    ensures MemoryOk(c, Store(c, mem, r.start, r.Header()), log[rec := r], first)
    ensures var cleared := ToggleBusy(Load(c, mem, r.start));
            (if discard then SetDiscarded(cleared) else cleared) == r.Header()
  {
    hide Span, Tiled, Payload, Bound, ToggleBusy, SetDiscarded;
    HeaderStore(c, mem, log, writerPos, first, rec, r);
    ShapeTiled(c, log, log[rec := r], writerPos);
    CommitWord(c, log[rec], discard);
  }

  /** A record in the window lies where the read cursor points only if it is the one at the read cursor. */
  lemma SamePlace(c: Config, log: seq<Record>, writerPos: nat, first: nat, rec: nat)
    requires c.Valid() && LogOk(c, log) && Tiled(log, writerPos) && first <= rec < |log|
    requires writerPos < Bound(log, writerPos, first) + c.words
    ensures Wrap(Bound(log, writerPos, first), c.words) == Wrap(log[rec].start, c.words) <==>
              Bound(log, writerPos, first) == log[rec].start
  {
    hide Wrap, Span;
    InWindow(log, writerPos, first, rec);
    if Bound(log, writerPos, first) < log[rec].start {
      WrapsApart(Bound(log, writerPos, first), log[rec].start, c.words);
    }
  }

  class RingBuffer {
    const config: Config
    var data: array<Word>
    var writerPos: nat
    var readerPos: nat
    var interPos: nat
    ghost var log: seq<Record>
    ghost var readCount: nat
    ghost var interCount: nat

    ghost predicate Shape()
      reads this, data
    {
      && config.Valid() && Memory(config, data[..])
      && LogOk(config, log) && Tiled(log, writerPos)
      && ReleasedWereRead(log, interCount)
      && readCount <= |log| && readerPos == Bound(log, writerPos, readCount)
      && writerPos < readerPos + config.words
      && MemoryOk(config, data[..], log, readCount)
    }

    ghost predicate Valid()
      reads this, data
    {
      && Shape()
      && CursorsOk(config, log, writerPos, readerPos, interPos, readCount, interCount)
    }

    constructor (c: Config)
      requires c.Valid()
      ensures Valid() && config == c && fresh(data) && log == [] && writerPos == 0
    {
      config := c;
      data := new Word[c.words];
      writerPos, readerPos, interPos := 0, 0, 0;
      log, readCount, interCount := [], 0, 0;
    }

    /** `reserve`, with a read cursor cached earlier: refuse a size that does not fit in 64 bits or in the
        free part of the ring, else append a busy record. */
    method Reserve(tail: nat, size: nat, high: bool) returns (start: Option<nat>)
      requires Valid() && tail <= readerPos && 1 <= size <= TWO64 - 8
      modifies this`writerPos, this`log, data
      ensures Valid()
      ensures high ==> (start.Some? <==> RequestedBytes(size) != 0 && old(writerPos) + Span(size) < tail + config.words)
      ensures !high ==> (start.Some? <==>
                && RequestedBytes(size) != 0 && old(writerPos) + Span(size) < tail + config.words
                && config.highPriority < 8 * (tail + config.words - old(writerPos) - Span(size)))
      ensures start.Some? ==>
                && start.value == old(writerPos) && writerPos == old(writerPos) + Span(size)
                && log == old(log) + [Record(old(writerPos), size, Span(size), Busy, false, [])]
      ensures start.None? ==> writerPos == old(writerPos) && log == old(log) && data[..] == old(data[..])
    {
      hide LogOk, Tiled, MemoryOk, Bound, Span, Payload, Wrap, ReleasedWereRead;
      var n2 := RequestedBytes(size);
      if n2 == 0 { return None; }
      assert n2 == 8 * Span(size);
      var adjusted := 8 * writerPos + n2 + (if high then 0 else config.highPriority);
      if 8 * config.words - 1 < adjusted - 8 * tail { return None; }
      ghost var before, r := data[..], Record(writerPos, size, Span(size), Busy, false, []);
      BusyFits(config, before, log, writerPos, readCount, interCount, r);
      var i := Wrap(writerPos, config.words);
      data[i] := size + BUSY;
      assert data[..] == Store(config, before, r.start, r.Header());
      start := Some(writerPos);
      writerPos := writerPos + n2 / 8;
      log := log + [r];
    }

    /** A producer writes a word of a record it has reserved. */
    method Write(start: nat, size: nat, word: nat, value: Word, ghost rec: nat)
      requires Valid() && readCount <= rec < |log| && log[rec].status == Busy
      requires start == log[rec].start && size == log[rec].size && word + 1 < Span(size)
      modifies data
      ensures Valid() && data[..] == Store(config, old(data[..]), start + 1 + word, value)
    {
      hide LogOk, Tiled, MemoryOk, Bound, Span, Payload, Wrap, ReleasedWereRead;
      ghost var before := data[..];
      assert log[rec].span == Span(size) by { RecordShape(config, log, rec); }
      FillMemory(config, before, log, writerPos, readCount, rec, start + 1 + word, value);
      var i := Wrap(start + 1 + word, config.words);
      data[i] := value;
      assert data[..] == Store(config, before, start + 1 + word, value);
    }

    /** `commit` and `discard`: finish a record with the bytes it holds now, and tell whether the consumer
        has to be notified. */
    method Commit(start: nat, size: nat, discard: bool, ghost rec: nat) returns (notify: bool)
      requires Valid() && readCount <= rec < |log| && log[rec].status == Busy
      requires start == log[rec].start && size == log[rec].size
      modifies this`log, data
      ensures Valid()
      ensures log == WithStatus(old(log), rec, if discard then Discarded else Committed,
                                Payload(config, old(data[..]), start, Span(size)))
      ensures notify <==> readerPos == start
    {
      hide LogOk, Tiled, MemoryOk, Bound, Span, Payload, Wrap, ToggleBusy, SetDiscarded, IsBusy, IsDiscarded, ReleasedWereRead;
      ghost var before := data[..];
      ghost var r := log[rec].(status := if discard then Discarded else Committed,
                               payload := Payload(config, before, start, Span(size)));
      CommitFits(config, before, log, writerPos, readCount, interCount, rec, discard, r);
      SamePlace(config, log, writerPos, readCount, rec);
      var i := Wrap(start, config.words);
      var cleared := ToggleBusy(data[i]);
      data[i] := if discard then SetDiscarded(cleared) else cleared;
      assert data[..] == Store(config, before, start, r.Header());
      log := log[rec := r];
      notify := Wrap(readerPos, config.words) == i;
    }

    /** `mpsc_rb_read_sample`: skip discarded records, stop at the head or at a busy record, else
        return the bytes of the next committed record. `headCount` is the number of records before
        `head`. */
    method ReadSample(head: nat, ghost headCount: nat) returns (buffer: Option<Buffer>)
      requires Valid() && interCount <= headCount <= |log| && head == Bound(log, writerPos, headCount)
      modifies this`interPos, this`interCount
      ensures Valid() && old(interCount) <= interCount <= headCount
      ensures buffer.Some? ==>
                && old(interCount) < interCount
                && (forall k :: old(interCount) <= k < interCount - 1 ==> Skippable(log[k]))
                && log[interCount - 1].status == Committed && !log[interCount - 1].released
                && Received(config, data[..], buffer.value.start, buffer.value.word) == log[interCount - 1].Sent()
      ensures buffer.None? ==>
                && (forall k :: old(interCount) <= k < interCount ==> Skippable(log[k]))
                && (interCount < headCount ==> log[interCount].status == Busy)
    {
      hide LogOk, Tiled, MemoryOk, RecordSpan, IsBusy, IsDiscarded, Wrap, Received;
      buffer := None;
      while head != interPos
        invariant Valid() && old(interCount) <= interCount <= headCount
        invariant forall k :: old(interCount) <= k < interCount ==> Skippable(log[k])
        decreases headCount - interCount
      {
        HeaderAt(config, data[..], log, writerPos, readCount, interCount, interCount);
        BoundOrder(config, log, writerPos, headCount, interCount);
        BoundMonotone(log, writerPos, readCount, interCount);
        var w := data[Wrap(interPos, config.words)];
        if IsBusy(w) { return; }
        var at := interPos;
        interPos := interPos + RecordSpan(w);
        interCount := interCount + 1;
        if !IsDiscarded(w) {
          PlainHeader(config, data[..], log, readCount, interCount - 1);
          buffer := Some(Buffer(at, w));
          return;
        }
      }
      BoundOrder(config, log, writerPos, headCount, interCount);
    }

    /** `mpsc_rb_advance_if_possible` on record `rec`, which was read and not released yet. The new
        read cursor is the end of the longest prefix of records carrying the discard bit. With
        producers that discard, that prefix may run past what was read: the cursors stay in order
        unless everything read is released and the next record was discarded by its producer. */
    method AdvanceIfPossible(event: nat, ghost rec: nat)
      requires Valid() && readCount <= rec < interCount && event == log[rec].start
      requires log[rec].status == Committed && !log[rec].released
      modifies this`readerPos, this`readCount, this`log, data
      ensures Shape()
      ensures log == old(log)[rec := old(log)[rec].(released := true)]
      ensures old(readCount) <= readCount <= |log|
      ensures forall k :: old(readCount) <= k < readCount ==> Skippable(log[k])
      ensures readCount < |log| ==> !Skippable(log[readCount])
      ensures readerPos <= interPos <==>
                !(&& (forall k :: old(readCount) <= k < interCount ==> Skippable(log[k]))
                  && interCount < |log| && old(log)[interCount].status == Discarded)
    {
      hide LogOk, Tiled, MemoryOk, Bound, RecordSpan, IsBusy, IsDiscarded, Wrap;
      MarkEvent(event, rec);
      var newTail := readerPos;
      ghost var count := readCount;
      while newTail < writerPos
        modifies {}
        invariant Shape() && readCount <= count <= |log| && newTail == Bound(log, writerPos, count)
        invariant forall k :: readCount <= k < count ==> Skippable(log[k])
        decreases |log| - count
      {
        HeaderAt(config, data[..], log, writerPos, readCount, interCount, count);
        var w := data[Wrap(newTail, config.words)];
        if !IsDiscarded(w) { break; }
        newTail := newTail + RecordSpan(w);
        count := count + 1;
      }
      HeaderAt(config, data[..], log, writerPos, readCount, interCount, count);
      BoundOrder(config, log, writerPos, readCount, count);
      BoundOrder(config, log, writerPos, count, interCount);
      assert MemoryOk(config, data[..], log, count) by { MemoryFrom(config, data[..], log, readCount, count); }
      assert interCount < |log| ==> log[interCount] == old(log)[interCount];
      assert count < interCount ==> !Skippable(log[count]);
      assert count > interCount ==> Skippable(log[interCount]) && !log[interCount].released;
      readerPos := newTail;
      readCount := count;
    }

    method MarkEvent(event: nat, ghost rec: nat)
      requires Valid() && readCount <= rec < interCount && event == log[rec].start
      requires log[rec].status == Committed && !log[rec].released
      modifies this`log, data
      ensures Valid()
      ensures log == old(log)[rec := old(log)[rec].(released := true)]
    {
      hide LogOk, Tiled, MemoryOk, Bound, SetDiscarded, IsDiscarded, IsBusy, Wrap, Payload;
      var i := Wrap(event, config.words);
      ghost var before, r := data[..], log[rec].(released := true);
      MarkedHeader(config, before, log, writerPos, readCount, rec);
      HeaderStore(config, before, log, writerPos, readCount, rec, r);
      ShapeTiled(config, log, log[rec := r], writerPos);
      data[i] := SetDiscarded(data[i]);
      log := log[rec := r];
      assert data[..] == Store(config, before, event, r.Header());
    }
  }
}
