/** Reading perf ring buffers that are mapped once: records that wrap around the end of the data area
    are copied, with the same result as if the area were mapped twice in a row. */
module PerfRing {
  import opened RingWords

  datatype Option<T> = None | Some(value: T)

  const EVENT_HEADER_SIZE: nat := 8

  /** `n` bytes from a position, as the doubly mapped area shows them. */
  function Mirrored(data: seq<nat>, tail: nat, n: nat): (r: seq<nat>)
    requires |data| > 0 && n <= |data|
    ensures |r| == n
  {
    var at := Wrap(tail, |data|);
    (data + data)[at..at + n]
  }

  /** The `size` field of an event header: two bytes, little endian, after type and misc. */
  function HeaderSize(header: seq<nat>): (n: nat)
    requires |header| >= EVENT_HEADER_SIZE
    ensures n < 0x1_0000
  {
    header[6] % 256 + 256 * (header[7] % 256)
  }

  /** They are the bytes of the ring at the positions from there on. */
  lemma MirroredAt(data: seq<nat>, tail: nat, n: nat, i: nat)
    requires |data| > 0 && i < n <= |data|
    ensures Mirrored(data, tail, n)[i] == data[Wrap(tail + i, |data|)]
  {
    WrapPlus(tail, i, |data|);
  }

  lemma {:induction false} WrapPlus(p: nat, i: nat, n: nat)
    requires i < n
    ensures Wrap(p + i, n) == if Wrap(p, n) + i < n then Wrap(p, n) + i else Wrap(p, n) + i - n
  {
    if p >= n { WrapPlus(p - n, i, n); }
  }

  /** `n` bytes of a number, lowest first. */
  function LittleEndian(x: nat, n: nat): (r: seq<nat>)
    ensures |r| == n
  {
    if n == 0 then [] else [x % 256] + LittleEndian(x / 256, n - 1)
  }

  /** `perf_event_header`: a 32-bit type, 16 bits of flags and the 16-bit size, as they lie in memory. */
  function HeaderBytes(kind: nat, misc: nat, size: nat): (r: seq<nat>)
    ensures |r| == EVENT_HEADER_SIZE
  {
    LittleEndian(kind, 4) + LittleEndian(misc, 2) + LittleEndian(size, 2)
  }

  /** The size is read back from any header it was written to. */
  lemma SizeIsRead(kind: nat, misc: nat, size: nat, rest: seq<nat>)
    requires size < 0x1_0000
    ensures HeaderSize(HeaderBytes(kind, misc, size) + rest) == size
  {
    var bytes, low := HeaderBytes(kind, misc, size) + rest, LittleEndian(size, 2);
    assert low == [size % 256, size / 256 % 256] by { assert LittleEndian(size / 256, 1) == [size / 256 % 256]; }
    assert bytes[6] == low[0] && bytes[7] == low[1];
  }

  /** Bytes of the event a cursor stands at; an event is never shorter than its header. */
  function EventBytes(data: seq<nat>, tail: nat): (n: nat)
    requires |data| >= EVENT_HEADER_SIZE
    ensures n >= EVENT_HEADER_SIZE
  {
    var size := HeaderSize(Mirrored(data, tail, EVENT_HEADER_SIZE));
    if size < EVENT_HEADER_SIZE then EVENT_HEADER_SIZE else size
  }

  /** Two copies, one up to the end of the area and one from its start, make the mirrored bytes. */
  lemma CopyIsMirror(data: seq<nat>, tail: nat, n: nat)
    requires |data| > 0 && n <= |data|
    ensures var at := Wrap(tail, |data|);
            if at + n <= |data| then data[at..at + n] == Mirrored(data, tail, n)
            else data[at..] + data[..n - (|data| - at)] == Mirrored(data, tail, n)
  {
    hide Wrap;
    var at := Wrap(tail, |data|);
    if at + n > |data| {
      var first := |data| - at;
      assert (data + data)[at..at + n] == (data + data)[at..|data|] + (data + data)[|data|..at + n];
      assert (data + data)[|data|..at + n] == data[..n - first];
    }
  }

  class PerfRingBuffer {
    const mirroredMapping: bool
    var data: array<nat>
    var writerPos: nat
    var readerPos: nat
    var interPos: nat
    var wrapCopy: bool        // a copy buffer is there
    var wrapCapacity: nat

    ghost predicate Valid()
      reads this, data
    {
      && data.Length >= EVENT_HEADER_SIZE && data.Length <= TWO64 - 16
      && readerPos <= interPos <= writerPos <= interPos + data.Length
    }

    /** `ensure_wrap_copy_buffer`: grow the copy buffer if it is missing or too small; memory may run out.
        Nothing is asked of it for no bytes. */
    method EnsureWrapCopy(required: nat, memory: bool) returns (ok: bool)
      requires required <= TWO64 - 8
      modifies this`wrapCopy, this`wrapCapacity
      ensures required == 0 ==> ok == old(wrapCopy)
      ensures required == 0 || (old(wrapCopy) && AlignUp(required) <= old(wrapCapacity)) ==>
                wrapCopy == old(wrapCopy) && wrapCapacity == old(wrapCapacity)
      ensures ok ==> wrapCopy && (required > 0 ==> required <= wrapCapacity)
      ensures required > 0 && memory ==> ok
      ensures required > 0 && !ok ==> !wrapCopy && wrapCapacity == 0
    {
      if required == 0 { return wrapCopy; }
      var aligned := AlignUp(required);
      if !wrapCopy || wrapCapacity < aligned {
        wrapCopy, wrapCapacity := false, 0;
        if !memory { return false; }
        wrapCopy, wrapCapacity := true, aligned;
      }
      ok := wrapCopy;
    }

    /** Bytes through a single mapping: in place if they do not wrap, else copied in two chunks. */
    method Fetch(tail: nat, n: nat, memory: bool) returns (bytes: Option<seq<nat>>)
      requires data.Length > 0 && 0 < n <= data.Length && n <= TWO64 - 8
      modifies this`wrapCopy, this`wrapCapacity
      ensures bytes.Some? ==> bytes.value == Mirrored(data[..], tail, n)
      ensures bytes.None? ==> !mirroredMapping && !memory && Wrap(tail, data.Length) + n > data.Length
    {
      CopyIsMirror(data[..], tail, n);
      var at := Wrap(tail, data.Length);
      if mirroredMapping { return Some((data[..] + data[..])[at..at + n]); }
      if at + n <= data.Length { return Some(data[at..at + n]); }
      var ok := EnsureWrapCopy(n, memory);
      if !ok { return None; }
      var first := data.Length - at;
      return Some(data[at..] + data[..n - first]);
    }

    /** `read_all_available`: everything between the cursors, or nothing and the cursor unmoved when
        a copy is needed and there is no memory for it. */
    method ReadAllAvailable(head: nat, memory: bool) returns (bytes: Option<seq<nat>>)
      requires Valid() && interPos <= head <= writerPos
      modifies this`interPos, this`wrapCopy, this`wrapCapacity
      ensures Valid()
      ensures bytes.Some? ==> bytes.value == Mirrored(data[..], old(interPos), head - old(interPos)) && interPos == head
      ensures mirroredMapping || memory ==> bytes.Some?
      ensures bytes.None? ==> interPos == old(interPos)
    {
      if head == interPos { return Some([]); }
      bytes := Fetch(interPos, head - interPos, memory);
      if bytes.Some? { interPos := head; }
    }

    /** `perf_rb_read_event`: the event at the cursor, byte for byte what the mirrored mapping shows,
        and the cursor moved by the event's aligned size. A header that wraps is pieced together
        first to learn the size. */
    method ReadEvent(memory: bool) returns (event: Option<seq<nat>>)
      requires Valid()
      requires interPos != writerPos ==>
                 && EventBytes(data[..], interPos) <= data.Length
                 && interPos + AlignUp(HeaderSize(Mirrored(data[..], interPos, EVENT_HEADER_SIZE))) <= writerPos
      modifies this`interPos, this`wrapCopy, this`wrapCapacity
      ensures Valid()
      ensures old(interPos) == writerPos ==> event == None && interPos == old(interPos)
      ensures old(interPos) != writerPos && (mirroredMapping || memory) ==> event.Some?
      ensures event.Some? ==>
                && event.value == Mirrored(data[..], old(interPos), EventBytes(data[..], old(interPos)))
                && interPos == old(interPos) + AlignUp(HeaderSize(event.value))
      ensures event.None? ==> interPos == old(interPos)
    {
      if interPos == writerPos { return None; }
      var header := PeekHeader(interPos);
      var size := HeaderSize(header);
      var n := if size < EVENT_HEADER_SIZE then EVENT_HEADER_SIZE else size;
      event := Fetch(interPos, n, memory);
      if event.None? { return; }
      SameSize(data[..], interPos, n);
      interPos := interPos + AlignUp(size);
    }

    /** The event header at a position, pieced together when it wraps. */
    method PeekHeader(tail: nat) returns (header: seq<nat>)
      requires data.Length >= EVENT_HEADER_SIZE
      ensures header == Mirrored(data[..], tail, EVENT_HEADER_SIZE)
    {
      CopyIsMirror(data[..], tail, EVENT_HEADER_SIZE);
      var at := Wrap(tail, data.Length);
      if mirroredMapping { return (data[..] + data[..])[at..at + EVENT_HEADER_SIZE]; }
      if at + EVENT_HEADER_SIZE <= data.Length { return data[at..at + EVENT_HEADER_SIZE]; }
      var first := data.Length - at;
      return data[at..] + data[..EVENT_HEADER_SIZE - first];
    }
  }

  /** An event starts with its header. */
  lemma SameSize(data: seq<nat>, tail: nat, n: nat)
    requires |data| >= EVENT_HEADER_SIZE && EVENT_HEADER_SIZE <= n <= |data|
    ensures HeaderSize(Mirrored(data, tail, n)) == HeaderSize(Mirrored(data, tail, EVENT_HEADER_SIZE))
  {
    var whole, header := Mirrored(data, tail, n), Mirrored(data, tail, EVENT_HEADER_SIZE);
    assert whole[6] == header[6] && whole[7] == header[7];
  }
}
