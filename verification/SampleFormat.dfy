/** Events in the ring between library and profiler: how they are laid out, how `hdr2samp` reads samples
    with any mask, and that what is read is what was written. */
module SampleFormat {

  const TWO32: nat := 0x1_0000_0000
  const REGISTERS: nat := 20
  const ABI_64: nat := 2

  datatype Option<T> = None | Some(value: T)

  function Bump(present: bool): nat { if present then 1 else 0 }

  // ----- masks -----

  /** The `sample_type` word: one bit per optional field. */
  type Mask = bv64

  const IP: Mask := 0x1
  const TID: Mask := 0x2
  const TIME: Mask := 0x4
  const ADDR: Mask := 0x8
  const READ: Mask := 0x10
  const CALLCHAIN: Mask := 0x20
  const ID: Mask := 0x40
  const CPU: Mask := 0x80
  const PERIOD: Mask := 0x100
  const STREAM_ID: Mask := 0x200
  const RAW: Mask := 0x400
  const REGS_USER: Mask := 0x1000
  const STACK_USER: Mask := 0x2000
  const IDENTIFIER: Mask := 0x10000

  predicate Has(m: Mask, field: Mask) { m & field != 0 }

  /** Fields of the samples of allocation watchers. */
  const ALLOCATION_MASK: Mask := 0x310E

  /** `std::popcount`. */
  function PopCount(w: Mask): nat
    decreases w
  {
    if w == 0 then 0 else (if w & 1 == 1 then 1 else 0) + PopCount(w >> 1)
  }

  lemma ShiftOut(w: Mask, v: Mask)
    requires w & 1 == 0 && v == w >> 1
    ensures PopCount(w) == PopCount(v)
  {
  }

  lemma OneBit()
    ensures PopCount(0x4000) == 1
  {
    assert PopCount(1) == 1;
    ShiftOut(0x2, 0x1);
    ShiftOut(0x4, 0x2);
    ShiftOut(0x8, 0x4);
    ShiftOut(0x10, 0x8);
    ShiftOut(0x20, 0x10);
    ShiftOut(0x40, 0x20);
    ShiftOut(0x80, 0x40);
    ShiftOut(0x100, 0x80);
    ShiftOut(0x200, 0x100);
    ShiftOut(0x400, 0x200);
    ShiftOut(0x800, 0x400);
    ShiftOut(0x1000, 0x800);
    ShiftOut(0x2000, 0x1000);
    ShiftOut(0x4000, 0x2000);
  }

  /** Number of fields before the time, counted in the mask word and field by field. */
  lemma FieldsBeforeTime(m: Mask)
    ensures PopCount(m & 0x10003) == Bump(Has(m, IDENTIFIER)) + Bump(Has(m, IP)) + Bump(Has(m, TID))
  {
    var v := m & 0x10003;
    OneBit();
    LowBits(m, v);
    assert PopCount(v) == (if v & 1 == 1 then 1 else 0) + PopCount(v >> 1) by { Unfold(v); }
    assert PopCount(v >> 1) == (if (v >> 1) & 1 == 1 then 1 else 0) + PopCount(v >> 2) by { Unfold(v >> 1); TwoShifts(v); }
  }

  lemma Unfold(v: Mask)
    ensures PopCount(v) == (if v & 1 == 1 then 1 else 0) + PopCount(v >> 1)
  {
    if v == 0 { assert v >> 1 == 0 && v & 1 == 0; }
  }

  lemma TwoShifts(v: Mask)
    ensures v >> 1 >> 1 == v >> 2
  {
  }

  lemma LowBits(m: Mask, v: Mask)
    requires v == m & 0x10003
    ensures v & 1 == 1 <==> Has(m, IP)
    ensures (v >> 1) & 1 == 1 <==> Has(m, TID)
    ensures v >> 2 == if Has(m, IDENTIFIER) then 0x4000 else 0
  {
  }

  // ----- reading samples -----

  datatype Sample = Sample(identifier: nat, ip: nat, pid: nat, tid: nat, time: nat, addr: nat, id: nat, streamId: nat,
                           cpu: nat, res: nat, period: nat, abi: nat, regs: seq<nat>, sizeStack: nat,
                           dynSizeStack: nat, stack: seq<nat>)

  /** A word of the record; the reader does not check where the record ends. */
  function Word(words: seq<nat>, i: nat): nat { if i < |words| then words[i] else 0 }

  function Slice(words: seq<nat>, i: nat, n: nat): (r: seq<nat>)
    ensures |r| == n && forall k :: 0 <= k < n ==> r[k] == Word(words, i + k)
  {
    if n == 0 then [] else Slice(words, i, n - 1) + [Word(words, i + n - 1)]
  }

  function Lo(w: nat): nat { w % TWO32 }
  function Hi(w: nat): nat { w / TWO32 % TWO32 }

  // Where each field is, if the mask announces it.
  function IpAt(m: Mask): nat { Bump(Has(m, IDENTIFIER)) }
  function TidAt(m: Mask): nat { IpAt(m) + Bump(Has(m, IP)) }
  function TimeAt(m: Mask): nat { TidAt(m) + Bump(Has(m, TID)) }
  function AddrAt(m: Mask): nat { TimeAt(m) + Bump(Has(m, TIME)) }
  function IdAt(m: Mask): nat { AddrAt(m) + Bump(Has(m, ADDR)) }
  function StreamAt(m: Mask): nat { IdAt(m) + Bump(Has(m, ID)) }
  function CpuAt(m: Mask): nat { StreamAt(m) + Bump(Has(m, STREAM_ID)) }
  function PeriodAt(m: Mask): nat { CpuAt(m) + Bump(Has(m, CPU)) }
  function ChainAt(m: Mask): nat { PeriodAt(m) + Bump(Has(m, PERIOD)) + Bump(Has(m, READ)) }

  function RawAt(words: seq<nat>, m: Mask): nat {
    if Has(m, CALLCHAIN) then ChainAt(m) + 1 + Word(words, ChainAt(m)) else ChainAt(m)
  }

  function RegsAt(words: seq<nat>, m: Mask): nat {
    if Has(m, RAW) then RawAt(words, m) + 1 + Lo(Word(words, RawAt(words, m))) / 8 else RawAt(words, m)
  }

  function StackAt(words: seq<nat>, m: Mask): nat {
    if Has(m, REGS_USER) then RegsAt(words, m) + 1 + REGISTERS else RegsAt(words, m)
  }

  /** The fields of one word. Those the mask leaves out keep what the previous record had. */
  function Fixed(words: seq<nat>, m: Mask, prev: Sample): Sample {
    prev.(identifier := if Has(m, IDENTIFIER) then Word(words, 0) else prev.identifier,
          ip := if Has(m, IP) then Word(words, IpAt(m)) else prev.ip,
          pid := if Has(m, TID) then Lo(Word(words, TidAt(m))) else prev.pid,
          tid := if Has(m, TID) then Hi(Word(words, TidAt(m))) else prev.tid,
          time := if Has(m, TIME) then Word(words, TimeAt(m)) else prev.time,
          addr := if Has(m, ADDR) then Word(words, AddrAt(m)) else prev.addr,
          id := if Has(m, ID) then Word(words, IdAt(m)) else prev.id,
          streamId := if Has(m, STREAM_ID) then Word(words, StreamAt(m)) else prev.streamId,
          cpu := if Has(m, CPU) then Lo(Word(words, CpuAt(m))) else prev.cpu,
          res := if Has(m, CPU) then Hi(Word(words, CpuAt(m))) else prev.res,
          period := if Has(m, PERIOD) then Word(words, PeriodAt(m)) else prev.period)
  }

  /** Registers; records of other than 64-bit processes are rejected. */
  function WithRegs(words: seq<nat>, m: Mask, s: Sample): (Sample, bool) {
    var at := RegsAt(words, m);
    if !Has(m, REGS_USER) then (s, true)
    else if Word(words, at) != ABI_64 then (s.(abi := Word(words, at)), false)
    else (s.(abi := ABI_64, regs := Slice(words, at + 1, REGISTERS)), true)
  }

  /** The saved part of the stack. */
  function WithStack(words: seq<nat>, m: Mask, s: Sample): Sample {
    var at := StackAt(words, m);
    var size := Word(words, at);
    if !Has(m, STACK_USER) then s
    else if size == 0 then s.(sizeStack := 0, dynSizeStack := 0, stack := [])
    else
      var dyn := Word(words, at + 1 + (size + 7) / 8);
      s.(sizeStack := if size < dyn then 0 else dyn, dynSizeStack := dyn, stack := Slice(words, at + 1, (size + 7) / 8))
  }

  /** What the sample holds after a record, and whether the record was accepted. */
  function Decoded(words: seq<nat>, m: Mask, prev: Sample): (Sample, bool) {
    var (s, ok) := WithRegs(words, m, Fixed(words, m, prev));
    if ok then (WithStack(words, m, s), true) else (s, false)
  }

  /** The one sample that `hdr2samp` fills again and again. */
  class SampleReader {
    var sample: Sample

    constructor (s: Sample)
      ensures sample == s
    {
      sample := s;
    }

    /** `hdr2samp`: a cursor over the words, moved past each field the mask announces. */
    method Decode(words: seq<nat>, m: Mask) returns (ok: bool)
      modifies this
      ensures (sample, ok) == Decoded(words, m, old(sample))
    {
      hide Has, Slice, Word, Lo, Hi, WithRegs, WithStack, RegsAt, StackAt;
      var buf := DecodeIds(words, m);
      buf := DecodeFixed(words, m, buf);
      assert sample == Fixed(words, m, old(sample));
      hide Fixed;
      buf := Skip(words, m, buf);
      buf, ok := DecodeRegs(words, m, buf);
      if ok { DecodeStack(words, m, buf); }
    }

    /** The fields that only the cursor takes notice of here. */
    method Skip(words: seq<nat>, m: Mask, from: nat) returns (buf: nat)
      requires from == PeriodAt(m) + Bump(Has(m, PERIOD))
      ensures buf == RegsAt(words, m)
    {
      hide Has, Word, Lo, PeriodAt;
      buf := from;
      if Has(m, READ) { buf := buf + 1; }
      if Has(m, CALLCHAIN) { buf := buf + 1 + Word(words, buf); }
      if Has(m, RAW) { buf := buf + 1 + Lo(Word(words, buf)) / 8; }
    }

    method DecodeRegs(words: seq<nat>, m: Mask, from: nat) returns (buf: nat, ok: bool)
      requires from == RegsAt(words, m)
      modifies this
      ensures (sample, ok) == WithRegs(words, m, old(sample)) && (ok ==> buf == StackAt(words, m))
    {
      hide Has, Word, RegsAt, Slice;
      buf, ok := from, true;
      if Has(m, REGS_USER) {
        sample := sample.(abi := Word(words, buf));
        buf := buf + 1;
        if sample.abi != ABI_64 { return buf, false; }
        sample := sample.(regs := Slice(words, buf, REGISTERS));
        buf := buf + REGISTERS;
      }
    }

    method DecodeStack(words: seq<nat>, m: Mask, from: nat)
      requires from == StackAt(words, m)
      modifies this
      ensures sample == WithStack(words, m, old(sample))
    {
      hide Has, Word, StackAt, Slice;
      var buf := from;
      if Has(m, STACK_USER) {
        var size := Word(words, buf);
        buf := buf + 1;
        if size == 0 {
          sample := sample.(sizeStack := 0, dynSizeStack := 0, stack := []);
        } else {
          sample := sample.(stack := Slice(words, buf, (size + 7) / 8));
          buf := buf + (size + 7) / 8;
          var dyn := Word(words, buf);
          sample := sample.(sizeStack := if size < dyn then 0 else dyn, dynSizeStack := dyn);
        }
      }
    }

    method DecodeIds(words: seq<nat>, m: Mask) returns (buf: nat)
      modifies this
      ensures buf == AddrAt(m)
      ensures var s := Fixed(words, m, old(sample));
              sample == old(sample).(identifier := s.identifier, ip := s.ip, pid := s.pid, tid := s.tid, time := s.time)
    {
      hide Has, Word, Lo, Hi;
      buf := 0;
      if Has(m, IDENTIFIER) { sample := sample.(identifier := Word(words, buf)); buf := buf + 1; }
      if Has(m, IP) { sample := sample.(ip := Word(words, buf)); buf := buf + 1; }
      if Has(m, TID) {
        sample := sample.(pid := Lo(Word(words, buf)), tid := Hi(Word(words, buf)));
        buf := buf + 1;
      }
      if Has(m, TIME) { sample := sample.(time := Word(words, buf)); buf := buf + 1; }
    }

    method DecodeFixed(words: seq<nat>, m: Mask, from: nat) returns (buf: nat)
      requires from == AddrAt(m)
      modifies this
      ensures buf == PeriodAt(m) + Bump(Has(m, PERIOD))
      ensures var s := Fixed(words, m, old(sample));
              sample == old(sample).(addr := s.addr, id := s.id, streamId := s.streamId, cpu := s.cpu, res := s.res,
                                     period := s.period)
    {
      hide Has, Word, Lo, Hi, AddrAt;
      buf := from;
      if Has(m, ADDR) { sample := sample.(addr := Word(words, buf)); buf := buf + 1; }
      if Has(m, ID) { sample := sample.(id := Word(words, buf)); buf := buf + 1; }
      if Has(m, STREAM_ID) { sample := sample.(streamId := Word(words, buf)); buf := buf + 1; }
      if Has(m, CPU) {
        sample := sample.(cpu := Lo(Word(words, buf)), res := Hi(Word(words, buf)));
        buf := buf + 1;
      }
      if Has(m, PERIOD) { sample := sample.(period := Word(words, buf)); buf := buf + 1; }
    }
  }

  /** `hdr_time` for sample records: skip as many words as the mask has fields before the time. */
  function HdrTime(words: seq<nat>, m: Mask): nat {
    if !Has(m, TIME) then 0 else Word(words, PopCount(m & (IDENTIFIER | IP | TID)))
  }

  /** The short cut to the timestamp agrees with the full decoding, for every mask, record and previous
      sample, even if the record is rejected. */
  lemma TimeAgrees(words: seq<nat>, m: Mask, prev: Sample)
    ensures Has(m, TIME) ==> HdrTime(words, m) == Decoded(words, m, prev).0.time
  {
    hide Has, Slice, Word, Lo, Hi, PopCount;
    assert IDENTIFIER | IP | TID == 0x10003;
    FieldsBeforeTime(m);
  }

  // ----- the record format, for every mask -----

  /** A whole record as the kernel describes it: what a sample can hold, with the values read, the call chain
      and the raw data, whose first word starts with their size in bytes. */
  datatype Record = Record(sample: Sample, read: nat, chain: seq<nat>, raw: seq<nat>) {
    predicate Valid() {
      && sample.pid < TWO32 && sample.tid < TWO32 && sample.cpu < TWO32 && sample.res < TWO32
      && raw != [] && |raw| == 1 + Lo(raw[0]) / 8
      && |sample.regs| == REGISTERS && (sample.stack == [] ==> sample.dynSizeStack == 0)
    }
  }

  function Opt(m: Mask, field: Mask, words: seq<nat>): seq<nat> { if Has(m, field) then words else [] }

  /** The fields in the order of the "MMAP layout" section of perf_event_open(2). */
  function Chunks(m: Mask, r: Record): (cs: seq<seq<nat>>)
    ensures |cs| == 14
  {
    var x := r.sample;
    [Opt(m, IDENTIFIER, [x.identifier]), Opt(m, IP, [x.ip]), Opt(m, TID, [x.pid + TWO32 * x.tid]), Opt(m, TIME, [x.time]),
     Opt(m, ADDR, [x.addr]), Opt(m, ID, [x.id]), Opt(m, STREAM_ID, [x.streamId]), Opt(m, CPU, [x.cpu + TWO32 * x.res]),
     Opt(m, PERIOD, [x.period]), Opt(m, READ, [r.read]), Opt(m, CALLCHAIN, [|r.chain|] + r.chain), Opt(m, RAW, r.raw),
     Opt(m, REGS_USER, [x.abi] + x.regs),
     Opt(m, STACK_USER, if x.stack == [] then [0] else [8 * |x.stack|] + x.stack + [x.dynSizeStack])]
  }

  function Flat(cs: seq<seq<nat>>): seq<nat> {
    if cs == [] then [] else Flat(cs[..|cs| - 1]) + cs[|cs| - 1]
  }

  function Offset(cs: seq<seq<nat>>, k: nat): nat
    requires k <= |cs|
  {
    |Flat(cs[..k])|
  }

  lemma OffsetNext(cs: seq<seq<nat>>, k: nat)
    requires k < |cs|
    ensures Offset(cs, k + 1) == Offset(cs, k) + |cs[k]|
  {
    assert cs[..k + 1][..k] == cs[..k];
  }

  /** A chunk lies at its offset. */
  lemma {:induction false} FlatAt(cs: seq<seq<nat>>, k: nat, i: nat)
    requires k < |cs| && i < |cs[k]|
    ensures Word(Flat(cs), Offset(cs, k) + i) == cs[k][i]
    decreases |cs|
  {
    var rest := cs[..|cs| - 1];
    assert rest[..k] == cs[..k];
    if k < |rest| {
      OffsetNext(rest, k);
      FlatAt(rest, k, i);
      OffsetGrows(rest, k + 1);
    }
  }

  lemma {:induction false} OffsetGrows(cs: seq<seq<nat>>, k: nat)
    requires k <= |cs|
    ensures Offset(cs, k) <= |Flat(cs)|
    decreases |cs|
  {
    if k == |cs| {
      assert cs[..k] == cs;
    } else {
      var rest := cs[..|cs| - 1];
      OffsetGrows(rest, k);
      assert rest[..k] == cs[..k];
    }
  }

  lemma FlatSlice(cs: seq<seq<nat>>, k: nat, i: nat, n: nat)
    requires k < |cs| && i + n <= |cs[k]|
    ensures Slice(Flat(cs), Offset(cs, k) + i, n) == cs[k][i..i + n]
  {
    hide Flat, Offset, Word;
    var s, t := Slice(Flat(cs), Offset(cs, k) + i, n), cs[k][i..i + n];
    forall j | 0 <= j < n
      ensures s[j] == t[j]
    {
      FlatAt(cs, k, i + j);
    }
  }

  /** Where the decoder expects the fields of one word is where they are. */
  lemma FixedOffsets(m: Mask, r: Record)
    ensures var cs := Chunks(m, r);
            && Offset(cs, 0) == 0 && Offset(cs, 1) == IpAt(m) && Offset(cs, 2) == TidAt(m) && Offset(cs, 3) == TimeAt(m)
            && Offset(cs, 4) == AddrAt(m) && Offset(cs, 5) == IdAt(m) && Offset(cs, 6) == StreamAt(m)
            && Offset(cs, 7) == CpuAt(m) && Offset(cs, 8) == PeriodAt(m) && Offset(cs, 10) == ChainAt(m)
  {
    hide Has, Offset;
    var cs := Chunks(m, r);
    assert Offset(cs, 0) == 0 by { NoOffset(cs); }
    OffsetNext(cs, 0);
    OffsetNext(cs, 1);
    OffsetNext(cs, 2);
    OffsetNext(cs, 3);
    OffsetNext(cs, 4);
    OffsetNext(cs, 5);
    OffsetNext(cs, 6);
    OffsetNext(cs, 7);
    OffsetNext(cs, 8);
    OffsetNext(cs, 9);
  }

  lemma NoOffset(cs: seq<seq<nat>>)
    ensures Offset(cs, 0) == 0
  {
  }

  /** And so are the call chain, the raw data, the registers and the stack. */
  lemma LongOffsets(m: Mask, r: Record)
    requires r.Valid()
    ensures var cs := Chunks(m, r);
            && Offset(cs, 11) == RawAt(Flat(cs), m) && Offset(cs, 12) == RegsAt(Flat(cs), m)
            && Offset(cs, 13) == StackAt(Flat(cs), m)
  {
    hide Has, Offset, Flat, Word, Lo, ChainAt;
    var cs := Chunks(m, r);
    FixedOffsets(m, r);
    OffsetNext(cs, 10);
    OffsetNext(cs, 11);
    OffsetNext(cs, 12);
    if Has(m, CALLCHAIN) { FlatAt(cs, 10, 0); }
    if Has(m, RAW) { FlatAt(cs, 11, 0); }
  }

  /** How much of the saved stack counts: what was saved, or nothing if that is more than there is room for. */
  function UsedStack(x: Sample): nat { if x.dynSizeStack <= 8 * |x.stack| then x.dynSizeStack else 0 }

  /** What a record gives, field by field; a field the mask leaves out stays as it was. */
  function Filled(m: Mask, x: Sample, prev: Sample): Sample {
    Sample(if Has(m, IDENTIFIER) then x.identifier else prev.identifier, if Has(m, IP) then x.ip else prev.ip,
           if Has(m, TID) then x.pid else prev.pid, if Has(m, TID) then x.tid else prev.tid,
           if Has(m, TIME) then x.time else prev.time, if Has(m, ADDR) then x.addr else prev.addr,
           if Has(m, ID) then x.id else prev.id, if Has(m, STREAM_ID) then x.streamId else prev.streamId,
           if Has(m, CPU) then x.cpu else prev.cpu, if Has(m, CPU) then x.res else prev.res,
           if Has(m, PERIOD) then x.period else prev.period, if Has(m, REGS_USER) then x.abi else prev.abi,
           if Has(m, REGS_USER) then x.regs else prev.regs, if Has(m, STACK_USER) then UsedStack(x) else prev.sizeStack,
           if Has(m, STACK_USER) then x.dynSizeStack else prev.dynSizeStack,
           if Has(m, STACK_USER) then x.stack else prev.stack)
  }

  lemma FixedFilled(m: Mask, r: Record, prev: Sample)
    requires r.Valid()
    ensures var f, w := Fixed(Flat(Chunks(m, r)), m, prev), Filled(m, r.sample, prev);
            f == prev.(identifier := w.identifier, ip := w.ip, pid := w.pid, tid := w.tid, time := w.time, addr := w.addr,
                       id := w.id, streamId := w.streamId, cpu := w.cpu, res := w.res, period := w.period)
  {
    hide Has, Flat, Chunks, Word, Lo, Hi, IpAt, TidAt, TimeAt, AddrAt, IdAt, StreamAt, CpuAt, PeriodAt;
    WordsAre(m, r);
    SplitIds(r.sample.pid, r.sample.tid);
    SplitIds(r.sample.cpu, r.sample.res);
  }

  lemma WordsAre(m: Mask, r: Record)
    ensures var words, x := Flat(Chunks(m, r)), r.sample;
            && (Has(m, IDENTIFIER) ==> Word(words, 0) == x.identifier) && (Has(m, IP) ==> Word(words, IpAt(m)) == x.ip)
            && (Has(m, TID) ==> Word(words, TidAt(m)) == x.pid + TWO32 * x.tid)
            && (Has(m, TIME) ==> Word(words, TimeAt(m)) == x.time) && (Has(m, ADDR) ==> Word(words, AddrAt(m)) == x.addr)
            && (Has(m, ID) ==> Word(words, IdAt(m)) == x.id) && (Has(m, STREAM_ID) ==> Word(words, StreamAt(m)) == x.streamId)
            && (Has(m, CPU) ==> Word(words, CpuAt(m)) == x.cpu + TWO32 * x.res)
            && (Has(m, PERIOD) ==> Word(words, PeriodAt(m)) == x.period)
  {
    hide Has, Offset, Flat, Word, IpAt, TidAt, TimeAt, AddrAt, IdAt, StreamAt, CpuAt, PeriodAt, Opt;
    var cs, x := Chunks(m, r), r.sample;
    FixedOffsets(m, r);
    OneWord(m, cs, 0, IDENTIFIER, x.identifier);
    OneWord(m, cs, 1, IP, x.ip);
    OneWord(m, cs, 2, TID, x.pid + TWO32 * x.tid);
    OneWord(m, cs, 3, TIME, x.time);
    OneWord(m, cs, 4, ADDR, x.addr);
    OneWord(m, cs, 5, ID, x.id);
    OneWord(m, cs, 6, STREAM_ID, x.streamId);
    OneWord(m, cs, 7, CPU, x.cpu + TWO32 * x.res);
    OneWord(m, cs, 8, PERIOD, x.period);
  }

  lemma OneWord(m: Mask, cs: seq<seq<nat>>, k: nat, field: Mask, v: nat)
    requires k < |cs| && cs[k] == Opt(m, field, [v])
    ensures Has(m, field) ==> Word(Flat(cs), Offset(cs, k)) == v
  {
    hide Has, Offset, Flat, Word;
    if Has(m, field) { FlatAt(cs, k, 0); }
  }

  lemma LongFilled(m: Mask, r: Record, s: Sample)
    requires r.Valid()
    ensures var words, x := Flat(Chunks(m, r)), r.sample;
            && (!Has(m, REGS_USER) ==> WithRegs(words, m, s) == (s, true))
            && (Has(m, REGS_USER) && x.abi == ABI_64 ==> WithRegs(words, m, s) == (s.(abi := x.abi, regs := x.regs), true))
            && (Has(m, REGS_USER) && x.abi != ABI_64 ==> WithRegs(words, m, s) == (s.(abi := x.abi), false))
            && WithStack(words, m, s) == (if Has(m, STACK_USER)
                 then s.(sizeStack := UsedStack(x), dynSizeStack := x.dynSizeStack, stack := x.stack) else s)
  {
    hide Has, Offset, Flat, Word, Slice, RegsAt, StackAt;
    var cs, x := Chunks(m, r), r.sample;
    LongOffsets(m, r);
    if Has(m, REGS_USER) {
      FlatAt(cs, 12, 0);
      FlatSlice(cs, 12, 1, REGISTERS);
      assert cs[12][1..1 + REGISTERS] == x.regs;
    }
    if Has(m, STACK_USER) {
      FlatAt(cs, 13, 0);
      if x.stack != [] {
        FlatSlice(cs, 13, 1, |x.stack|);
        assert cs[13][1..1 + |x.stack|] == x.stack;
        FlatAt(cs, 13, 1 + |x.stack|);
      }
    }
  }

  /** Every record of every mask, laid out as the format says, is accepted unless it has the registers of
      another than a 64-bit process, and is decoded to what it holds, whatever was decoded before. */
  lemma RecordRoundTrip(m: Mask, r: Record, prev: Sample)
    requires r.Valid()
    ensures Decoded(Flat(Chunks(m, r)), m, prev).1 <==> !(Has(m, REGS_USER) && r.sample.abi != ABI_64)
    ensures Decoded(Flat(Chunks(m, r)), m, prev).1 ==>
              Decoded(Flat(Chunks(m, r)), m, prev).0 == Filled(m, r.sample, prev)
  {
    hide Has, Offset, Flat, Chunks, Fixed, WithRegs, WithStack;
    var words := Flat(Chunks(m, r));
    FixedFilled(m, r, prev);
    var s := Fixed(words, m, prev);
    LongFilled(m, r, s);
    LongFilled(m, r, WithRegs(words, m, s).0);
  }

  // ----- events of the library -----

  /** An allocation event as `push_alloc_sample` fills it: the stack is a whole number of words. */
  datatype AllocationEvent = AllocationEvent(pid: nat, tid: nat, time: nat, addr: nat, period: nat, regs: seq<nat>,
                                             stack: seq<nat>, dynSize: nat) {
    predicate Valid() {
      && pid < TWO32 && tid < TWO32 && |regs| == REGISTERS && dynSize <= 8 * |stack|
    }
  }

  /** The words after the event header. */
  function Encode(e: AllocationEvent): seq<nat> {
    [e.pid + TWO32 * e.tid, e.time, e.addr, e.period, ABI_64] + e.regs + [8 * |e.stack|] + e.stack + [e.dynSize]
  }

  /** `sizeof_allocation_event`: header, fixed fields, registers, stack and the dynamic size. */
  function EventSize(stackSize: nat): nat { 8 + 8 * 5 + 8 * REGISTERS + 8 + stackSize + 8 }

  lemma EncodedSize(e: AllocationEvent)
    requires e.Valid()
    ensures 8 + 8 * |Encode(e)| == EventSize(8 * |e.stack|)
  {
  }

  lemma AllocationFields()
    ensures forall f :: f in {TID, TIME, ADDR, PERIOD, REGS_USER, STACK_USER} ==> Has(ALLOCATION_MASK, f)
    ensures forall f :: f in {IDENTIFIER, IP, ID, STREAM_ID, CPU, READ, CALLCHAIN, RAW} ==> !Has(ALLOCATION_MASK, f)
  {
  }

  /** Every allocation event, whatever its stack size and whatever was read before, is read back as it was
      written; the fields it does not have are left from before. */
  lemma RoundTrip(e: AllocationEvent, prev: Sample)
    requires e.Valid()
    ensures Decoded(Encode(e), ALLOCATION_MASK, prev) ==
              (prev.(pid := e.pid, tid := e.tid, time := e.time, addr := e.addr, period := e.period, abi := ABI_64,
                     regs := e.regs, sizeStack := e.dynSize, dynSizeStack := e.dynSize, stack := e.stack), true)
  {
    hide Encode, Slice, Word, Has, Lo, Hi;
    AllocationFields();
    EncodedWords(e);
    SplitIds(e.pid, e.tid);
  }

  lemma EncodedWords(e: AllocationEvent)
    requires e.Valid()
    ensures var words := Encode(e); var n := |e.stack|;
            && Word(words, 0) == e.pid + TWO32 * e.tid && Word(words, 1) == e.time && Word(words, 2) == e.addr
            && Word(words, 3) == e.period && Word(words, 4) == ABI_64 && Slice(words, 5, REGISTERS) == e.regs
            && Word(words, 5 + REGISTERS) == 8 * n && Slice(words, 6 + REGISTERS, n) == e.stack
            && Word(words, 6 + REGISTERS + n) == e.dynSize
  {
    var words := Encode(e);
    assert words[5..5 + REGISTERS] == e.regs;
    assert words[6 + REGISTERS..6 + REGISTERS + |e.stack|] == e.stack;
    SliceInside(words, 5, REGISTERS);
    SliceInside(words, 6 + REGISTERS, |e.stack|);
  }

  lemma SliceInside(words: seq<nat>, i: nat, n: nat)
    requires i + n <= |words|
    ensures Slice(words, i, n) == words[i..i + n]
  {
  }

  lemma SplitIds(lo: nat, hi: nat)
    requires lo < TWO32 && hi < TWO32
    ensures Lo(lo + TWO32 * hi) == lo && Hi(lo + TWO32 * hi) == hi
  {
  }

  // ----- whole events, header included -----

  const SAMPLE_TYPE: nat := 9
  const DEALLOCATION_TYPE: nat := 1000

  /** What the library writes into the ring. */
  datatype Written =
    | Allocation(event: AllocationEvent)
    | Deallocation(pid: nat, tid: nat, time: nat, ptr: nat)
  {
    predicate Valid() {
      match this
      case Allocation(e) => e.Valid() && e.pid != 0
      case Deallocation(pid, tid, time, ptr) => pid < TWO32 && tid < TWO32
    }
  }

  /** The event header: type, no misc bits, and the size cut to 16 bits. */
  function HeaderWord(kind: nat, size: nat): nat { kind + TWO32 * (0x1_0000 * (size % 0x1_0000)) }

  function Layout(w: Written): seq<nat> {
    match w
    case Allocation(e) => [HeaderWord(SAMPLE_TYPE, EventSize(8 * |e.stack|))] + Encode(e)
    case Deallocation(pid, tid, time, ptr) =>
      [HeaderWord(DEALLOCATION_TYPE, 32), pid + TWO32 * tid, time, ptr]
  }

  /** An event's header has its type in the low half, no flags, and its size in bytes in the top 16 bits. */
  lemma LayoutHeader(w: Written)
    requires w.Valid()
    ensures var header := Layout(w)[0];
            && Lo(header) == (if w.Allocation? then 9 else 1000)
            && Hi(header) == 0x1_0000 * (8 * |Layout(w)| % 0x1_0000)
  {
    hide Encode, Lo, Hi;
    var size := 8 * |Layout(w)|;
    if w.Allocation? { EncodedSize(w.event); }
    SplitIds(if w.Allocation? then SAMPLE_TYPE else DEALLOCATION_TYPE, 0x1_0000 * (size % 0x1_0000));
  }

  /** What the profiler makes of an event: a sample to unwind, an address to forget, or nothing. */
  datatype Understood = Sampled(sample: Sample) | Freed(ptr: nat) | Ignored

  /** `ddprof_worker_process_event` for the events of the library: the sample left behind, and the event. */
  function Understand(words: seq<nat>, prev: Sample): (Sample, Understood) {
    var kind := Lo(Word(words, 0));
    if kind == SAMPLE_TYPE && |words| > 0 && Lo(Word(words, 1)) != 0 then
      var (s, ok) := Decoded(words[1..], ALLOCATION_MASK, prev);
      (s, if ok then Sampled(s) else Ignored)
    else if kind == DEALLOCATION_TYPE then (prev, Freed(Word(words, 3)))
    else (prev, Ignored)
  }

  lemma HeaderKind(kind: nat, size: nat)
    requires kind < TWO32
    ensures Lo(HeaderWord(kind, size)) == kind
  {
    SplitIds(kind, 0x1_0000 * (size % 0x1_0000));
  }

  /** The profiler understands every event of the library as it was meant, whatever it read before. */
  lemma EventUnderstood(w: Written, prev: Sample)
    requires w.Valid()
    ensures match w
            case Allocation(e) =>
              && Understand(Layout(w), prev).1.Sampled?
              && var s := Understand(Layout(w), prev).1.sample;
              && s.pid == e.pid && s.tid == e.tid && s.time == e.time && s.addr == e.addr && s.period == e.period
              && s.regs == e.regs && s.stack == e.stack && s.sizeStack == e.dynSize
            case Deallocation(pid, tid, time, ptr) => Understand(Layout(w), prev) == (prev, Freed(ptr))
  {
    hide Decoded, Lo, Hi, HeaderWord, Encode;
    match w
    case Allocation(e) =>
      var words := Layout(w);
      HeaderKind(SAMPLE_TYPE, EventSize(8 * |e.stack|));
      assert words[1..] == Encode(e);
      RoundTrip(e, prev);
      EncodedWords(e);
      SplitIds(e.pid, e.tid);
      assert Word(words, 1) == Word(Encode(e), 0);
    case Deallocation(pid, tid, time, ptr) => HeaderKind(DEALLOCATION_TYPE, 32);
  }

  /** A sample of no process is passed over, and leaves nothing behind. */
  lemma NoProcessIsIgnored(e: AllocationEvent, prev: Sample)
    requires e.Valid()
    ensures Understand(Layout(Allocation(e)), prev) == (prev, Ignored) <==> e.pid == 0
  {
    hide Decoded, Lo, Hi, HeaderWord, Encode;
    var words := Layout(Allocation(e));
    HeaderKind(SAMPLE_TYPE, EventSize(8 * |e.stack|));
    assert words[1..] == Encode(e);
    RoundTrip(e, prev);
    EncodedWords(e);
    SplitIds(e.pid, e.tid);
    assert Word(words, 1) == Word(Encode(e), 0);
  }
}
