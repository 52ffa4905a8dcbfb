/** Deciding which allocations are sampled: every thread counts bytes down to its next sample. */
module Sampling {

  datatype Option<T> = None | Some(value: T)

  /** The longest interval drawn. */
  function Cap(interval: nat): int { if 20 * interval < 8 then 8 else 20 * interval }

  /** Interval `n` is what a random draw `x` stands for: exact without randomness; otherwise the draw
      without its fraction, but at least 8 bytes and at most 20 times the mean. */
  predicate DrawnFrom(interval: nat, deterministic: bool, x: real, n: nat) {
    if deterministic || interval == 1 then n == interval
    else
      && (x < 8.0 ==> n == 8)
      && (8.0 <= x <= 20.0 * interval as real ==> n as real <= x < n as real + 1.0)
      && (x > 20.0 * interval as real ==> n == 20 * interval)
  }

  function Sum(draws: seq<nat>): nat {
    if draws == [] then 0 else Sum(draws[..|draws| - 1]) + draws[|draws| - 1]
  }

  lemma SumSnoc(draws: seq<nat>, n: nat)
    ensures Sum(draws + [n]) == Sum(draws) + n
    ensures forall i :: 0 <= i <= |draws| ==> (draws + [n])[..i] == draws[..i]
  {
    assert (draws + [n])[..|draws|] == draws;
  }

  /** Every proper part of the draws leaves some of the bytes. */
  ghost predicate Within(draws: seq<nat>, left: nat) { forall i :: 0 <= i < |draws| ==> Sum(draws[..i]) <= left }

  ghost predicate AllDrawn(interval: nat, deterministic: bool, stream: nat -> real, from: nat, draws: seq<nat>) {
    forall i :: 0 <= i < |draws| ==> DrawnFrom(interval, deterministic, stream(from + i), draws[i])
  }

  lemma NoneYet(interval: nat, deterministic: bool, stream: nat -> real, from: nat, left: nat)
    ensures Sum([]) == 0 && Within([], left) && AllDrawn(interval, deterministic, stream, from, [])
  {
  }

  lemma OneMore(interval: nat, deterministic: bool, stream: nat -> real, from: nat, draws: seq<nat>, left: nat, n: nat, x: real)
    requires Within(draws, left) && AllDrawn(interval, deterministic, stream, from, draws) && Sum(draws) <= left
    requires DrawnFrom(interval, deterministic, x, n)
    requires !deterministic && interval != 1 ==> x == stream(from + |draws|)
    ensures Sum(draws + [n]) == Sum(draws) + n && Within(draws + [n], left)
    ensures AllDrawn(interval, deterministic, stream, from, draws + [n])
    ensures deterministic || interval == 1 ==> n == interval
  {
    hide DrawnFrom, Sum, Within;
    AnyDraw(interval, deterministic, x, stream(from + |draws|), n);
    WithinSnoc(draws, left, n);
  }

  lemma WithinSnoc(draws: seq<nat>, left: nat, n: nat)
    requires Within(draws, left) && Sum(draws) <= left
    ensures Sum(draws + [n]) == Sum(draws) + n && Within(draws + [n], left)
  {
    SumSnoc(draws, n);
    assert draws[..|draws|] == draws;
    hide Sum;
  }

  lemma AnyDraw(interval: nat, deterministic: bool, x: real, y: real, n: nat)
    requires DrawnFrom(interval, deterministic, x, n)
    ensures deterministic || interval == 1 ==> n == interval && DrawnFrom(interval, deterministic, y, n)
  {
  }

  class ThreadSampler {
    const interval: nat
    const deterministic: bool
    const stream: nat -> real  // the thread's random numbers, exponentially distributed
    var drawn: nat             // how many of them were used
    var remainingBytes: int
    // history: bytes allocated by the thread, and bytes its samples stand for
    ghost var total: int
    ghost var reported: int

    /** Between allocations the countdown is running; when draws are not random it is exactly the
        difference between what was allocated and what was reported. */
    ghost predicate Valid()
      reads this
    {
      && interval >= 1 && -Cap(interval) <= remainingBytes < 0
      && (deterministic || interval == 1 ==> 0 <= interval + remainingBytes == total - reported)
    }

    /** `next_sample_interval`. A random number is used only if the mode calls for one. */
    method NextSampleInterval() returns (n: nat)
      requires interval >= 1
      modifies this`drawn
      ensures 1 <= n <= Cap(interval) && DrawnFrom(interval, deterministic, stream(old(drawn)), n)
      ensures drawn == old(drawn) + (if deterministic || interval == 1 then 0 else 1)
    {
      if interval == 1 { return 1; }
      if deterministic { return interval; }
      var value := stream(drawn);
      drawn := drawn + 1;
      if value > 20.0 * interval as real { value := 20.0 * interval as real; }
      if value < 8.0 { value := 8.0; }
      return value.Floor;
    }

    constructor (interval: nat, deterministic: bool, stream: nat -> real)
      requires interval >= 1
      ensures Valid() && this.interval == interval && this.deterministic == deterministic && this.stream == stream
      ensures total == 0 && reported == 0 && DrawnFrom(interval, deterministic, stream(0), -remainingBytes)
      ensures drawn == if deterministic || interval == 1 then 0 else 1
    {
      this.interval := interval;
      this.deterministic := deterministic;
      this.stream := stream;
      drawn := 0;
      remainingBytes, total, reported := 0, 0, 0;
      new;
      var first := NextSampleInterval();
      remainingBytes := remainingBytes - first;
    }

    /** `track_allocation_s` and the first half of `track_allocation`: the size the sample stands for,
        or none. The countdown is running again afterwards, so the drawing loop ends. In every mode a sample
        stands for more than the bytes past the countdown; with deterministic sampling the bytes not
        reported yet are always less than one interval. Neither the countdown nor its value before sampling
        leaves 64 bits, for sizes and intervals far below 2^63. */
    method Track(size: nat) returns (sample: Option<nat>, ghost draws: seq<nat>)
      requires Valid()
      modifies this
      ensures Valid()
      ensures sample.Some? <==> old(remainingBytes) + size >= 0
      ensures sample.None? ==> remainingBytes == old(remainingBytes) + size && drawn == old(drawn)
      ensures sample.Some? ==>
                var bytes := old(remainingBytes) + size;
                && sample.value == (bytes / interval + |draws|) * interval && sample.value > bytes
                && remainingBytes == bytes % interval - Sum(draws)
                && forall i :: 0 <= i < |draws| ==>
                     && Sum(draws[..i]) <= bytes % interval
                     && DrawnFrom(interval, deterministic, stream(old(drawn) + i), draws[i])
      ensures size < 0x8000_0000_0000_0000 && Cap(interval) <= 0x8000_0000_0000_0000 ==>
                && -0x8000_0000_0000_0000 <= old(remainingBytes) + size < 0x8000_0000_0000_0000
                && -0x8000_0000_0000_0000 <= remainingBytes
      ensures total == old(total) + size
      ensures reported == old(reported) + (if sample.Some? then sample.value else 0)
      ensures deterministic || interval == 1 ==> 0 <= total - reported < interval
      ensures sample.Some? ==> exists k: nat :: k >= 1 && sample.value == k * interval
    {
      hide Sum, DrawnFrom;
      draws := [];
      total := total + size;
      remainingBytes := remainingBytes + size;
      if remainingBytes < 0 { return None, []; }
      var nsamples;
      remainingBytes, nsamples, draws := Resample(remainingBytes);
      reported := reported + nsamples * interval;
      sample := Some(nsamples * interval);
    }

    /** How many samples the bytes past the countdown stand for, and the next countdown: one sample per whole
        interval, then one per draw, until the draws exceed what is left. */
    method Resample(bytes: nat) returns (remaining: int, nsamples: nat, ghost draws: seq<nat>)
      requires interval >= 1
      modifies this`drawn
      ensures -Cap(interval) <= remaining < 0 && draws != []
      ensures nsamples == bytes / interval + |draws| && nsamples * interval > bytes
      ensures remaining == bytes % interval - Sum(draws)
      ensures forall i :: 0 <= i < |draws| ==> Sum(draws[..i]) <= bytes % interval
      ensures forall i :: 0 <= i < |draws| ==> DrawnFrom(interval, deterministic, stream(old(drawn) + i), draws[i])
      ensures drawn == old(drawn) + (if deterministic || interval == 1 then 0 else |draws|)
      ensures deterministic || interval == 1 ==> |draws| == 1 && remaining == bytes - nsamples * interval
    {
      hide Sum, DrawnFrom;
      Division(bytes, interval);
      nsamples := bytes / interval;
      var count;
      remaining, count, draws := CountDown(bytes % interval);
      MoreSamples(bytes, interval, count);
      nsamples := nsamples + count;
    }

    /** Draw intervals until they exceed `left` bytes. */
    method CountDown(left: nat) returns (remaining: int, count: nat, ghost draws: seq<nat>)
      requires left < interval
      modifies this`drawn
      ensures -Cap(interval) <= remaining < 0 && draws != [] && count == |draws| && remaining == left - Sum(draws)
      ensures Within(draws, left) && AllDrawn(interval, deterministic, stream, old(drawn), draws)
      ensures drawn == old(drawn) + (if deterministic || interval == 1 then 0 else |draws|)
      ensures deterministic || interval == 1 ==> |draws| == 1 && remaining == left - interval
    {
      NoneYet(interval, deterministic, stream, drawn, left);
      hide Sum, DrawnFrom, Within, AllDrawn;
      remaining, count, draws := left, 0, [];
      while remaining >= 0
        invariant count == |draws| && remaining == left - Sum(draws)
        invariant if draws == [] then remaining >= 0 else -Cap(interval) <= remaining
        invariant Within(draws, left) && AllDrawn(interval, deterministic, stream, old(drawn), draws)
        invariant drawn == old(drawn) + (if deterministic || interval == 1 then 0 else |draws|)
        invariant deterministic || interval == 1 ==> |draws| <= 1 && (|draws| == 1 ==> remaining == left - interval)
        decreases remaining
      {
        ghost var x := stream(drawn);
        var next := NextSampleInterval();
        OneMore(interval, deterministic, stream, old(drawn), draws, left, next, x);
        draws := draws + [next];
        remaining, count := remaining - next, count + 1;
      }
    }
  }

  lemma Division(bytes: nat, k: nat)
    requires k >= 1
    ensures bytes == bytes / k * k + bytes % k && 0 <= bytes % k < k
  {
  }

  lemma MoreSamples(bytes: nat, k: nat, n: nat)
    requires k >= 1 && n >= 1
    ensures (bytes / k + n) * k > bytes
    ensures n == 1 ==> bytes - (bytes / k + n) * k == bytes % k - k
  {
    Division(bytes, k);
    var q := bytes / k;
    assert (q + n) * k == q * k + n * k;
    assert n * k >= k by { assert n * k == k + (n - 1) * k; }
  }
}
