/** The lock-free interval rate limiter: one step per atomic access, any number of threads, 64-bit
    counter with wrap-around. */
module RateLimiter {

  const TWO64: nat := 0x1_0000_0000_0000_0000

  datatype Config = Config(limit: nat, interval: nat) {
    predicate Valid() { 1 <= limit < TWO64 }
  }

  datatype Pc =
    | Slow                        // over the limit, about to read the clock
    | Timed(now: nat)             // about to load the interval end
    | Expired(now: nat, seen: nat)  // about to exchange the interval end
    | First                       // installed the first interval, about to increment the count
    | Resetting                   // started a new interval, about to store the count

  datatype State = State(
    clock: nat,
    count: nat,
    end: nat,
    threads: map<nat, Pc>,
    // history
    granted: nat,   // calls that returned true
    resets: nat,    // successful exchanges of the interval end
    stores: nat,    // times the count was set back to 1
    rolls: nat,     // times the count wrapped to 0
    adds: nat)      // increments of the count

  predicate Init(s: State) {
    && s.clock > 0 && s.count == TWO64 - 1 && s.end == 0 && s.threads == map[]
    && s.granted == 0 && s.resets == 0 && s.stores == 0 && s.rolls == 0 && s.adds == 0
  }

  /** `fetch_add(1)` on the count, and whether the old value was below the limit. */
  function Increment(c: Config, s: State): (r: (State, bool)) {
    var ok := s.count < c.limit;
    (s.(count := (s.count + 1) % TWO64, adds := s.adds + 1,
        rolls := s.rolls + (if s.count == TWO64 - 1 then 1 else 0),
        granted := s.granted + (if ok then 1 else 0)), ok)
  }

  ghost predicate CheckStep(c: Config, s: State, s': State, t: nat) {
    && t !in s.threads
    && var (s1, ok) := Increment(c, s);
    && s' == if ok then s1 else s1.(threads := s.threads[t := Slow])
  }

  ghost predicate TimeStep(c: Config, s: State, s': State, t: nat) {
    && t in s.threads && s.threads[t] == Slow
    && s' == s.(threads := s.threads[t := Timed(s.clock)])
  }

  ghost predicate LoadStep(c: Config, s: State, s': State, t: nat) {
    && t in s.threads && s.threads[t].Timed?
    && var now := s.threads[t].now;
    && s' == s.(threads := if now < s.end then s.threads - {t} else s.threads[t := Expired(now, s.end)])
  }

  /** `compare_exchange_weak`; `spurious` when it fails for no reason. */
  ghost predicate ExchangeStep(c: Config, s: State, s': State, t: nat, spurious: bool) {
    && t in s.threads && s.threads[t].Expired?
    && var Expired(now, seen) := s.threads[t];
    && s' == if s.end == seen && !spurious
             then s.(end := now + c.interval, resets := s.resets + 1,
                     threads := s.threads[t := if seen == 0 then First else Resetting])
             else s.(threads := s.threads - {t})
  }

  ghost predicate FirstStep(c: Config, s: State, s': State, t: nat) {
    && t in s.threads && s.threads[t] == First
    && s' == Increment(c, s).0.(threads := s.threads - {t})
  }

  ghost predicate StoreStep(c: Config, s: State, s': State, t: nat) {
    && t in s.threads && s.threads[t] == Resetting
    && s' == s.(count := 1, granted := s.granted + 1, stores := s.stores + 1, threads := s.threads - {t})
  }

  ghost predicate TickStep(s: State, s': State) { s'.clock >= s.clock && s' == s.(clock := s'.clock) }

  ghost predicate Next(c: Config, s: State, s': State) {
    || TickStep(s, s')
    || exists t, spurious :: ThreadStep(c, s, s', t, spurious)
  }

  ghost predicate ThreadStep(c: Config, s: State, s': State, t: nat, spurious: bool) {
    || CheckStep(c, s, s', t) || TimeStep(c, s, s', t) || LoadStep(c, s, s', t)
    || ExchangeStep(c, s, s', t, spurious) || FirstStep(c, s, s', t) || StoreStep(c, s, s', t)
  }

  // ----- invariant -----

  function Pending(threads: map<nat, Pc>): set<nat> { set t | t in threads && threads[t] == Resetting }

  function Min(x: nat, y: nat): nat { if x <= y then x else y }

  /** Every stretch between two settings of the count to a small value grants at most the limit. */
  ghost predicate GrantsOk(c: Config, s: State) {
    var stretches := s.rolls + s.stores;
    && s.count < TWO64
    && (stretches == 0 ==> s.granted == 0 && s.count == TWO64 - 1)
    && (stretches > 0 ==> s.granted <= c.limit * (stretches - 1) + Min(s.count, c.limit))
  }

  /** All resets but the first lead to one store of the count, done or still to come. */
  ghost predicate ResetsOk(s: State) {
    && (s.end == 0 <==> s.resets == 0)
    && (s.resets == 0 ==> s.stores == 0 && Pending(s.threads) == {})
    && (s.resets > 0 ==> s.stores + |Pending(s.threads)| + 1 == s.resets)
  }

  ghost predicate TimesOk(s: State) {
    && s.clock > 0
    && forall t :: t in s.threads ==>
         && (s.threads[t].Timed? ==> 0 < s.threads[t].now <= s.clock)
         && (s.threads[t].Expired? ==> 0 < s.threads[t].now && s.threads[t].seen <= s.threads[t].now)
  }

  ghost predicate WrapsOk(s: State) {
    s.rolls >= 1 ==> s.adds + s.stores > (s.rolls - 1) * TWO64 + s.count
  }

  ghost predicate Inv(c: Config, s: State) {
    GrantsOk(c, s) && ResetsOk(s) && TimesOk(s) && WrapsOk(s)
  }

  lemma PendingMoved(x: map<nat, Pc>, y: map<nat, Pc>, t: nat)
    requires forall u :: u != t ==> (u in x <==> u in y) && (u in x ==> x[u] == y[u])
    ensures |Pending(y)| == |Pending(x)| - (if t in Pending(x) then 1 else 0) + (if t in Pending(y) then 1 else 0)
    ensures t !in Pending(x) && t !in Pending(y) ==> Pending(x) == Pending(y)
  {
    assert Pending(x) - {t} == Pending(y) - {t};
    assert |Pending(x)| == |Pending(x) - {t}| + (if t in Pending(x) then 1 else 0);
    assert |Pending(y)| == |Pending(y) - {t}| + (if t in Pending(y) then 1 else 0);
  }

  lemma IncrementGrants(c: Config, s: State)
    requires c.Valid() && GrantsOk(c, s) && WrapsOk(s)
    ensures GrantsOk(c, Increment(c, s).0) && WrapsOk(Increment(c, s).0)
  {
    var n := s.rolls + s.stores;
    if n > 0 { assert c.limit * n == c.limit * (n - 1) + c.limit; }
  }

  lemma StoreGrants(c: Config, s: State, s': State, t: nat)
    requires c.Valid() && GrantsOk(c, s) && WrapsOk(s) && StoreStep(c, s, s', t)
    ensures GrantsOk(c, s') && WrapsOk(s')
  {
    var n := s.rolls + s.stores;
    if n > 0 { assert c.limit * n == c.limit * (n - 1) + c.limit; }
  }

  lemma StepGrants(c: Config, s: State, s': State, t: nat, spurious: bool)
    requires c.Valid() && GrantsOk(c, s) && WrapsOk(s) && ThreadStep(c, s, s', t, spurious)
    ensures GrantsOk(c, s') && WrapsOk(s')
  {
    hide Increment, GrantsOk, WrapsOk;
    if StoreStep(c, s, s', t) {
      StoreGrants(c, s, s', t);
    } else {
      IncrementGrants(c, s);
      SameGrants(c, s, s');
      SameGrants(c, Increment(c, s).0, s');
    }
  }

  lemma SameGrants(c: Config, s: State, s': State)
    ensures (&& s.count == s'.count && s.granted == s'.granted && s.rolls == s'.rolls && s.stores == s'.stores
             && s.adds == s'.adds && GrantsOk(c, s) && WrapsOk(s))
            ==> GrantsOk(c, s') && WrapsOk(s')
  {
  }

  lemma StepResets(c: Config, s: State, s': State, t: nat, spurious: bool)
    requires ResetsOk(s) && TimesOk(s) && ThreadStep(c, s, s', t, spurious)
    ensures ResetsOk(s') && TimesOk(s')
  {
    hide Pending;
    PendingMoved(s.threads, s'.threads, t);
    PendingIs(s.threads, t);
    PendingIs(s'.threads, t);
  }

  lemma PendingIs(threads: map<nat, Pc>, t: nat)
    ensures t in Pending(threads) <==> t in threads && threads[t] == Resetting
  {
  }

  lemma NextInv(c: Config, s: State, s': State)
    requires c.Valid() && Inv(c, s) && Next(c, s, s')
    ensures Inv(c, s')
  {
    if !TickStep(s, s') {
      hide ThreadStep, GrantsOk, ResetsOk, TimesOk, WrapsOk;
      var t, spurious :| ThreadStep(c, s, s', t, spurious);
      StepGrants(c, s, s', t, spurious);
      StepResets(c, s, s', t, spurious);
    }
  }

  ghost predicate Run(c: Config, ss: seq<State>) {
    && |ss| > 0 && Init(ss[0])
    && forall i, j :: 0 <= i < j < |ss| && j == i + 1 ==> Next(c, ss[i], ss[j])
  }

  lemma {:induction false} RunInv(c: Config, ss: seq<State>, i: nat)
    requires c.Valid() && Run(c, ss) && i < |ss|
    ensures Inv(c, ss[i])
  {
    if i > 0 {
      hide Inv, Next;
      RunInv(c, ss, i - 1);
      NextInv(c, ss[i - 1], ss[i]);
    }
  }

  function Max(x: nat, y: nat): nat { if x >= y then x else y }

  /** In every interleaving: at most the limit per interval, the first one included, plus the limit
      once for every time the 64-bit count wrapped after its initial wrap. Such an extra wrap needs
      2^64 operations on the count. */
  lemma GrantedAtMost(c: Config, ss: seq<State>, i: nat)
    requires c.Valid() && Run(c, ss) && i < |ss|
    ensures var s := ss[i]; s.granted <= c.limit * (Max(1, s.resets) + (Max(1, s.rolls) - 1))
    ensures ss[i].rolls > 1 ==> ss[i].adds + ss[i].stores > TWO64
  {
    hide Run;
    RunInv(c, ss, i);
    var s := ss[i];
    var n, bound := s.rolls + s.stores, Max(1, s.resets) + (Max(1, s.rolls) - 1);
    if n > 0 {
      assert c.limit * n == c.limit * (n - 1) + c.limit;
      assert n <= bound;
      Monotone(c.limit, n, bound);
    }
  }

  lemma Monotone(k: nat, x: nat, y: nat)
    requires x <= y
    ensures k * x <= k * y
  {
    assert k * y == k * x + k * (y - x);
  }

  /** Each successful reset moves the interval end forward by at least the interval. */
  lemma ResetMovesEnd(c: Config, ss: seq<State>, i: nat, s': State, t: nat)
    requires c.Valid() && Run(c, ss) && i < |ss|
    requires ExchangeStep(c, ss[i], s', t, false) && s'.resets > ss[i].resets
    ensures s'.end >= ss[i].end + c.interval && s'.end >= ss[i].threads[t].now + c.interval
  {
    hide Run, GrantsOk, ResetsOk;
    RunInv(c, ss, i);
  }

  /** How many accesses a call has left at most. */
  function Left(pc: Pc): nat {
    match pc
    case Slow => 4
    case Timed(_) => 3
    case Expired(_, _) => 2
    case First => 1
    case Resetting => 1
  }

  /** The limiter is wait-free: whatever the other threads do, a call can begin, its next access is always
      possible, and five accesses end it. Time can pass at any moment. */
  lemma WaitFree(c: Config, s: State, t: nat, spurious: bool)
    ensures exists s' :: ThreadStep(c, s, s', t, spurious)
    ensures forall s' :: ThreadStep(c, s, s', t, spurious) ==>
              t in s'.threads ==> Left(s'.threads[t]) < if t in s.threads then Left(s.threads[t]) else 5
    ensures forall s', u :: u != t && ThreadStep(c, s, s', u, spurious) ==>
              (t in s.threads <==> t in s'.threads) && (t in s.threads ==> s'.threads[t] == s.threads[t])
    ensures forall now :: now >= s.clock ==> Next(c, s, s.(clock := now))
  {
    assert forall now :: now >= s.clock ==> TickStep(s, s.(clock := now));
    var s' := Possible(c, s, t, spurious);
  }

  lemma Possible(c: Config, s: State, t: nat, spurious: bool) returns (s': State)
    ensures ThreadStep(c, s, s', t, spurious)
  {
    if t !in s.threads {
      var (s1, ok) := Increment(c, s);
      s' := if ok then s1 else s1.(threads := s.threads[t := Slow]);
    } else {
      match s.threads[t]
      case Slow => s' := s.(threads := s.threads[t := Timed(s.clock)]);
      case Timed(now) => s' := s.(threads := if now < s.end then s.threads - {t} else s.threads[t := Expired(now, s.end)]);
      case Expired(now, seen) =>
        s' := if s.end == seen && !spurious
              then s.(end := now + c.interval, resets := s.resets + 1,
                      threads := s.threads[t := if seen == 0 then First else Resetting])
              else s.(threads := s.threads - {t});
      case First => s' := Increment(c, s).0.(threads := s.threads - {t});
      case Resetting =>
        s' := s.(count := 1, granted := s.granted + 1, stores := s.stores + 1, threads := s.threads - {t});
    }
  }

  /** A call that nobody disturbs, from its first access to its last. */
  ghost predicate CallAlone(c: Config, s: State, t: nat, ss: seq<State>) {
    && |ss| >= 2 && ss[0] == s && t !in s.threads && CheckStep(c, s, ss[1], t)
    && (forall i, j :: 1 <= i < j < |ss| && j == i + 1 ==> Moves(c, ss[i], ss[j], t))
    && t !in ss[|ss| - 1].threads && forall i :: 1 <= i < |ss| - 1 ==> t in ss[i].threads
  }

  /** A later access of the call; the exchange does not fail without reason. */
  ghost predicate Moves(c: Config, s: State, s': State, t: nat) {
    || TimeStep(c, s, s', t) || LoadStep(c, s, s', t) || ExchangeStep(c, s, s', t, false)
    || FirstStep(c, s, s', t) || StoreStep(c, s, s', t)
  }

  /** The answers are exact when calls do not overlap: a call is granted if the count is below the limit; or
      if the interval is over, except that the very first calls also count against the limit; and not
      otherwise. */
  lemma AloneAnswer(c: Config, s: State, t: nat, ss: seq<State>)
    requires c.Valid() && CallAlone(c, s, t, ss)
    ensures var s' := ss[|ss| - 1];
            var granted := || s.count < c.limit
                           || (s.clock >= s.end && (s.end == 0 ==> (s.count + 1) % TWO64 < c.limit));
            && s'.granted == s.granted + (if granted then 1 else 0)
            && (s.count >= c.limit && s.clock >= s.end ==> s'.end == s.clock + c.interval)
            && (s.count < c.limit || s.clock < s.end ==> s'.end == s.end)
  {
    if s.count >= c.limit {
      assert t in ss[1].threads && ss[1].threads[t] == Slow;
      assert |ss| > 2 && Moves(c, ss[1], ss[2], t);
      assert ss[2].threads[t] == Timed(s.clock);
      SlowAnswer(c, s, t, ss);
    } else {
      assert t !in ss[1].threads;
      assert |ss| == 2;
    }
  }

  lemma SlowAnswer(c: Config, s: State, t: nat, ss: seq<State>)
    requires c.Valid() && CallAlone(c, s, t, ss) && s.count >= c.limit && |ss| > 2
    requires t in ss[2].threads && ss[2].threads[t] == Timed(s.clock)
    requires ss[2] == Increment(c, s).0.(threads := ss[2].threads)
    ensures var s' := ss[|ss| - 1];
            && s'.granted == s.granted + (if s.clock >= s.end && (s.end == 0 ==> (s.count + 1) % TWO64 < c.limit) then 1 else 0)
            && s'.end == if s.clock >= s.end then s.clock + c.interval else s.end
  {
    assert |ss| > 3 && Moves(c, ss[2], ss[3], t);
    if s.clock < s.end {
      assert |ss| == 4;
    } else {
      assert ss[3].threads[t] == Expired(s.clock, s.end);
      assert |ss| > 4 && Moves(c, ss[3], ss[4], t);
      assert ss[4].threads[t] == if s.end == 0 then First else Resetting;
      assert |ss| > 5 && Moves(c, ss[4], ss[5], t);
      assert |ss| == 6;
    }
  }

  function Waiting(n: nat): (m: map<nat, Pc>)
    ensures forall t :: t in m ==> t <= n && t != 1
  {
    if n == 0 then map[0 := Slow] else if n == 1 then Waiting(0) else Waiting(n - 1)[n := Slow]
  }

  /** The state after the first call was refused and `n` more calls arrived, with a limit of one and
      nobody going on to read the clock. */
  function Piled(n: nat): State
    requires n < TWO64
  {
    State(1, n, 0, Waiting(n), if n == 0 then 0 else 1, 0, 0, 1, n + 1)
  }

  lemma {:induction false} PileUp(n: nat) returns (ss: seq<State>)
    requires n < TWO64
    ensures Run(Config(1, 0), ss) && ss[|ss| - 1] == Piled(n)
  {
    hide Next, ThreadStep;
    if n == 0 {
      var first := State(1, TWO64 - 1, 0, map[], 0, 0, 0, 0, 0);
      ss := [first, Piled(0)];
      FirstPiles();
    } else {
      var before := PileUp(n - 1);
      NextPiles(n);
      ss := before + [Piled(n)];
    }
  }

  lemma FirstPiles()
    ensures Next(Config(1, 0), State(1, TWO64 - 1, 0, map[], 0, 0, 0, 0, 0), Piled(0))
  {
    assert CheckStep(Config(1, 0), State(1, TWO64 - 1, 0, map[], 0, 0, 0, 0, 0), Piled(0), 0);
    assert ThreadStep(Config(1, 0), State(1, TWO64 - 1, 0, map[], 0, 0, 0, 0, 0), Piled(0), 0, false);
  }

  lemma NextPiles(n: nat)
    requires 0 < n < TWO64
    ensures Next(Config(1, 0), Piled(n - 1), Piled(n))
  {
    assert CheckStep(Config(1, 0), Piled(n - 1), Piled(n), n);
    assert ThreadStep(Config(1, 0), Piled(n - 1), Piled(n), n, false);
  }

  /** The extra wraps are real: 2^64 calls within one interval make the count small again, and the
      limit is granted a second time without any reset. */
  lemma WrapGrantsAgain() returns (ss: seq<State>)
    ensures Run(Config(1, 0), ss)
    ensures var s := ss[|ss| - 1]; s.resets == 0 && s.granted == 2 && s.granted > 1 * Max(1, s.resets)
  {
    hide Next;
    var before := PileUp(TWO64 - 1);
    var last := Piled(TWO64 - 1);
    var wrapped := last.(count := 0, rolls := 2, adds := TWO64 + 1, threads := last.threads[TWO64 := Slow]);
    var again := wrapped.(count := 1, adds := TWO64 + 2, granted := 2);
    LastWraps(last, wrapped, again);
    ss := before + [wrapped, again];
  }

  lemma LastWraps(last: State, wrapped: State, again: State)
    requires last == Piled(TWO64 - 1)
    requires wrapped == last.(count := 0, rolls := 2, adds := TWO64 + 1, threads := last.threads[TWO64 := Slow])
    requires again == wrapped.(count := 1, adds := TWO64 + 2, granted := 2)
    ensures Next(Config(1, 0), last, wrapped) && Next(Config(1, 0), wrapped, again)
  {
    assert CheckStep(Config(1, 0), last, wrapped, TWO64);
    assert ThreadStep(Config(1, 0), last, wrapped, TWO64, false);
    assert CheckStep(Config(1, 0), wrapped, again, TWO64 + 1);
    assert ThreadStep(Config(1, 0), wrapped, again, TWO64 + 1, false);
  }
}
