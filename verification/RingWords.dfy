/** Arithmetic shared by the ring buffers: record sizes, header words and the memory they live in.

    Every cursor of the ring is a multiple of 8 bytes, so cursors are counted here in 8-byte words:
    a byte cursor is 8 times the position below. The data area is a power of two of bytes, so
    `pos & mask` is the remainder by the capacity; nothing below needs more than that. */
module RingWords {

  const TWO64: nat := 0x1_0000_0000_0000_0000
  const BUSY: nat := 0x8000_0000_0000_0000
  const DISCARD: nat := 0x4000_0000_0000_0000
  const HEADER_SIZE: nat := 8

  /** `align_up(x, 8)` on 64-bit words: 0 for 0 and for values whose rounding does not fit. */
  function AlignUp(x: nat): (r: nat)
    requires x < TWO64
    ensures r % 8 == 0 && r < TWO64
    ensures 0 < x <= TWO64 - 8 ==> x <= r < x + 8
    ensures x == 0 || x > TWO64 - 8 ==> r == 0
  {
    if x == 0 || x > TWO64 - 8 then 0 else (x + 7) / 8 * 8
  }

  /** Words occupied by a record with an `n`-byte payload: its header and its rounded payload. */
  function Span(n: nat): (r: nat)
    ensures n + HEADER_SIZE <= 8 * r < n + HEADER_SIZE + 8
  {
    1 + (n + 7) / 8
  }

  /** The number of bytes `reserve(n)` asks for, with the 64-bit addition it performs. */
  function RequestedBytes(n: nat): (r: nat)
    requires n < TWO64
    ensures n <= TWO64 - 16 ==> r == 8 * Span(n)
    ensures TWO64 - 16 < n <= TWO64 - 8 ==> r == 0
  {
    AlignUp((n + HEADER_SIZE) % TWO64)
  }

  /** The size computed by `reserve` is either refused (0) or really covers header and payload,
      exactly for the requests that do not wrap around past the header. */
  lemma RequestedBytesCover(n: nat)
    requires n < TWO64
    ensures (RequestedBytes(n) == 0 || RequestedBytes(n) >= n + HEADER_SIZE) <==> n <= TWO64 - 8
  {
  }

  /** The value of a 64-bit word of the data area. */
  type Word = nat

  predicate IsBusy(w: Word) { w / BUSY % 2 == 1 }
  predicate IsDiscarded(w: Word) { w / DISCARD % 2 == 1 }
  function ToggleBusy(w: Word): Word { if IsBusy(w) then w - BUSY else w + BUSY }
  function SetDiscarded(w: Word): Word { if IsDiscarded(w) then w else w + DISCARD }
  function ClearDiscard(w: Word): Word { if IsDiscarded(w) then w - DISCARD else w }

  /** Words to skip to get past the record with header word `w`. */
  function RecordSpan(w: Word): (r: nat)
    ensures r > 0
  {
    Span(ClearDiscard(w))
  }

  datatype Config = Config(words: nat, highPriority: nat, ordered: bool) {
    /** The capacity in bytes is far below the two flag bits of a header word. */
    predicate Valid() { 0 < words && 8 * words <= DISCARD }
  }

  /** Remainder of a position by the number of words in the data area. */
  function Wrap(p: nat, words: nat): (i: nat)
    requires 0 < words
    ensures i < words
  {
    if p < words then p else Wrap(p - words, words)
  }

  lemma {:induction false} WrapIsRemainder(p: nat, words: nat)
    requires 0 < words
    ensures exists q: nat :: p == q * words + Wrap(p, words)
  {
    if p < words {
      assert p == 0 * words + Wrap(p, words);
    } else {
      WrapIsRemainder(p - words, words);
      var q: nat :| p - words == q * words + Wrap(p - words, words);
      assert p == (q + 1) * words + Wrap(p, words);
    }
  }

  /** Two distinct positions less than a capacity apart never share a word. */
  lemma {:induction false} WrapsApart(p: nat, q: nat, words: nat)
    requires 0 < words && p < q < p + words
    ensures Wrap(p, words) != Wrap(q, words)
  {
    if p >= words {
      WrapsApart(p - words, q - words, words);
    }
  }

  predicate Memory(c: Config, mem: seq<Word>) { |mem| == c.words }

  function Load(c: Config, mem: seq<Word>, p: nat): Word
    requires c.Valid() && Memory(c, mem)
  {
    mem[Wrap(p, c.words)]
  }

  function Store(c: Config, mem: seq<Word>, p: nat, w: Word): (mem': seq<Word>)
    requires c.Valid() && Memory(c, mem)
    ensures Memory(c, mem')
    ensures Load(c, mem', p) == w
  {
    mem[Wrap(p, c.words) := w]
  }

  /** The payload words of the record of `span` words at `start`. */
  function Payload(c: Config, mem: seq<Word>, start: nat, span: nat): (r: seq<Word>)
    requires c.Valid() && Memory(c, mem) && 0 < span
    ensures |r| == span - 1 && forall k :: 0 <= k < span - 1 ==> r[k] == Load(c, mem, start + 1 + k)
  {
    if span == 1 then [] else Payload(c, mem, start, span - 1) + [Load(c, mem, start + span - 1)]
  }

  lemma LoadAfterStore(c: Config, mem: seq<Word>, p: nat, w: Word, q: nat)
    requires c.Valid() && Memory(c, mem)
    requires p != q && p < q + c.words && q < p + c.words
    ensures Load(c, Store(c, mem, p, w), q) == Load(c, mem, q)
  {
    if p < q { WrapsApart(p, q, c.words); } else { WrapsApart(q, p, c.words); }
  }

  /** A store outside a record's payload, inside one capacity window, leaves the payload alone. */
  lemma PayloadAfterStore(c: Config, mem: seq<Word>, p: nat, w: Word, start: nat, span: nat)
    requires c.Valid() && Memory(c, mem) && 0 < span
    requires p <= start || start + span <= p
    requires p < start + 1 + c.words && start + span <= p + c.words
    ensures Payload(c, Store(c, mem, p, w), start, span) == Payload(c, mem, start, span)
  {
    var before, after := Payload(c, mem, start, span), Payload(c, Store(c, mem, p, w), start, span);
    forall k | 0 <= k < span - 1
      ensures after[k] == before[k]
    {
      LoadAfterStore(c, mem, p, w, start + 1 + k);
    }
  }
}
