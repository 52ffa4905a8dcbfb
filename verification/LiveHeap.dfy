/** The profiler's live heap: which stack each live address was allocated from, and per stack the
    number and total size of its live allocations. */
module LiveHeap {

  /** An unwound call stack (`UnwindOutput`). */
  datatype Stack = Stack(pid: int, tid: int, locs: seq<nat>)

  datatype Totals = Totals(value: int, count: int)

  datatype Held = Held(value: int, stack: Stack)

  datatype Table = Table(stacks: map<Stack, Totals>, addrs: map<nat, Held>)

  // ----- sums over the live addresses -----

  ghost function Total(m: map<nat, Held>, weight: Held -> int): int
    decreases |m|
  {
    if m == map[] then 0
    else var a :| a in m; weight(m[a]) + Total(m - {a}, weight)
  }

  lemma {:induction false} TotalWithout(m: map<nat, Held>, weight: Held -> int, a: nat)
    requires a in m
    ensures Total(m, weight) == weight(m[a]) + Total(m - {a}, weight)
    decreases |m|
  {
    var b :| b in m && Total(m, weight) == weight(m[b]) + Total(m - {b}, weight);
    if a != b {
      TotalWithout(m - {b}, weight, a);
      TotalWithout(m - {a}, weight, b);
      assert m - {b} - {a} == m - {a} - {b};
    }
  }

  lemma TotalAfterSet(m: map<nat, Held>, weight: Held -> int, a: nat, h: Held)
    ensures Total(m[a := h], weight) == Total(m, weight) - (if a in m then weight(m[a]) else 0) + weight(h)
  {
    TotalWithout(m[a := h], weight, a);
    assert m[a := h] - {a} == m - {a};
    if a in m { TotalWithout(m, weight, a); } else { assert m - {a} == m; }
  }

  function ValueOf(s: Stack): Held -> int { (h: Held) => if h.stack == s then h.value else 0 }
  function CountOf(s: Stack): Held -> int { (h: Held) => if h.stack == s then 1 else 0 }

  /** Conservation: each stack holds exactly the sum and number of the addresses that point at it,
      none is kept with count zero, and no address points at a stack that is gone. */
  ghost predicate Accounted(t: Table) {
    && (forall a :: a in t.addrs ==> t.addrs[a].stack in t.stacks)
    && (forall s :: s in t.stacks ==>
          && t.stacks[s].count == Total(t.addrs, CountOf(s)) && t.stacks[s].count > 0
          && t.stacks[s].value == Total(t.addrs, ValueOf(s)))
  }

  // ----- the two operations -----

  // A pointer to a stack is its key here; one whose stack is gone would be dangling, and then the
  // functions below leave the stacks alone. `Accounted` rules that out.

  /** Take one allocation off a stack's totals; the count never goes below zero. */
  function TakeOff(v: Totals, value: int): Totals {
    Totals(v.value - value, if v.count != 0 then v.count - 1 else 0)
  }

  /** The stacks after one allocation was taken off a stack, which goes with its last one. */
  function Without(stacks: map<Stack, Totals>, s: Stack, value: int): map<Stack, Totals>
    requires s in stacks
  {
    var left := TakeOff(stacks[s], value);
    if left.count == 0 then stacks - {s} else stacks[s := left]
  }

  function Unregister(t: Table, a: nat): (r: (Table, bool)) {
    if a !in t.addrs then (t, false)
    else
      var Held(value, s) := t.addrs[a];
      if s !in t.stacks then (t.(addrs := t.addrs - {a}), true)
      else (Table(Without(t.stacks, s, value), t.addrs - {a}), true)
  }

  /** The stacks after the allocation recorded at `a`, if any, has been cleaned up. An address whose
      recorded value is zero looks like one that was never recorded. */
  function Cleaned(stacks: map<Stack, Totals>, addrs: map<nat, Held>, a: nat, s: Stack): map<Stack, Totals> {
    if a !in addrs || addrs[a].value == 0 || addrs[a].stack !in stacks then stacks
    else
      var Held(value, old_) := addrs[a];
      var left := TakeOff(stacks[old_], value);
      if old_ != s && left.count == 0 then stacks - {old_} else stacks[old_ := left]
  }

  function Register(t: Table, s: Stack, a: nat, value: int): (r: (Table, bool)) {
    if s.locs == [] then (t, false)
    else
      var stacks := if s in t.stacks then t.stacks else t.stacks[s := Totals(0, 0)];
      var cleaned := Cleaned(stacks, t.addrs, a, s);
      assert s in cleaned;
      var now := Totals(cleaned[s].value + value, cleaned[s].count + 1);
      (Table(cleaned[s := now], t.addrs[a := Held(value, s)]), true)
  }

  // ----- conservation -----

  lemma {:induction false} CountAtLeast(m: map<nat, Held>, s: Stack)
    ensures Total(m, CountOf(s)) >= 0
    decreases |m|
  {
    if m != map[] {
      var a :| a in m;
      TotalWithout(m, CountOf(s), a);
      CountAtLeast(m - {a}, s);
    }
  }

  /** Addresses pointing at a stack make its count positive, and only they do. */
  lemma PointedAt(m: map<nat, Held>, a: nat)
    requires a in m
    ensures Total(m, CountOf(m[a].stack)) > 0
  {
    TotalWithout(m, CountOf(m[a].stack), a);
    CountAtLeast(m - {a}, m[a].stack);
  }

  lemma {:induction false} NotPointedAt(m: map<nat, Held>, s: Stack)
    requires forall a :: a in m ==> m[a].stack != s
    ensures Total(m, CountOf(s)) == 0 && Total(m, ValueOf(s)) == 0
    decreases |m|
  {
    if m != map[] {
      var a :| a in m;
      TotalWithout(m, CountOf(s), a);
      TotalWithout(m, ValueOf(s), a);
      NotPointedAt(m - {a}, s);
    }
  }

  lemma UnregisterTotals(t: Table, a: nat, x: Stack)
    requires a in t.addrs
    ensures var t' := Unregister(t, a).0;
            var was := t.addrs[a].stack == x;
            && Total(t'.addrs, CountOf(x)) == Total(t.addrs, CountOf(x)) - (if was then 1 else 0)
            && Total(t'.addrs, ValueOf(x)) == Total(t.addrs, ValueOf(x)) - (if was then t.addrs[a].value else 0)
  {
    TotalWithout(t.addrs, CountOf(x), a);
    TotalWithout(t.addrs, ValueOf(x), a);
  }

  /** A deallocation keeps the books, whatever address it names, and says whether it matched. */
  lemma UnregisterAccounted(t: Table, a: nat)
    requires Accounted(t)
    ensures Accounted(Unregister(t, a).0)
    ensures Unregister(t, a).1 <==> a in t.addrs
    ensures Unregister(t, a).0.addrs == t.addrs - {a}
  {
    hide Total, CountOf, ValueOf;
    var t' := Unregister(t, a).0;
    if a in t.addrs {
      forall x | x in t'.stacks
        ensures t'.stacks[x].count == Total(t'.addrs, CountOf(x)) && t'.stacks[x].count > 0
        ensures t'.stacks[x].value == Total(t'.addrs, ValueOf(x))
      {
        UnregisterTotals(t, a, x);
        CountAtLeast(t'.addrs, x);
      }
      forall b | b in t'.addrs
        ensures t'.addrs[b].stack in t'.stacks
      {
        PointedAt(t'.addrs, b);
        UnregisterTotals(t, a, t'.addrs[b].stack);
      }
    } else {
      assert t.addrs - {a} == t.addrs;
    }
  }

  lemma RegisterTotals(t: Table, s: Stack, a: nat, value: int, x: Stack)
    requires s.locs != []
    ensures var t' := Register(t, s, a, value).0;
            var was := a in t.addrs && t.addrs[a].stack == x;
            && Total(t'.addrs, CountOf(x)) ==
                 Total(t.addrs, CountOf(x)) - (if was then 1 else 0) + (if x == s then 1 else 0)
            && Total(t'.addrs, ValueOf(x)) ==
                 Total(t.addrs, ValueOf(x)) - (if was then t.addrs[a].value else 0) + (if x == s then value else 0)
  {
    TotalAfterSet(t.addrs, CountOf(x), a, Held(value, s));
    TotalAfterSet(t.addrs, ValueOf(x), a, Held(value, s));
  }

  /** An allocation keeps the books if and only if its address does not hold a zero value: overwriting
      an address, with the same stack or another one, is fine; a zero value is never cleaned up. */
  lemma RegisterAccounted(t: Table, s: Stack, a: nat, value: int)
    requires Accounted(t)
    ensures Accounted(Register(t, s, a, value).0) <==> s.locs == [] || a !in t.addrs || t.addrs[a].value != 0
  {
    if s.locs != [] {
      if a !in t.addrs || t.addrs[a].value != 0 {
        RegisterKeeps(t, s, a, value);
      } else {
        RegisterLeaks(t, s, a, value);
      }
    }
  }

  lemma RegisterKeeps(t: Table, s: Stack, a: nat, value: int)
    requires Accounted(t) && s.locs != [] && (a !in t.addrs || t.addrs[a].value != 0)
    ensures Accounted(Register(t, s, a, value).0)
  {
    hide Total, CountOf, ValueOf;
    var t' := Register(t, s, a, value).0;
    if s !in t.stacks { NotPointedAt(t.addrs, s); }
    forall x | x in t'.stacks
      ensures t'.stacks[x].count == Total(t'.addrs, CountOf(x)) && t'.stacks[x].count > 0
      ensures t'.stacks[x].value == Total(t'.addrs, ValueOf(x))
    {
      RegisterTotals(t, s, a, value, x);
      CountAtLeast(t'.addrs, x);
    }
    forall b | b in t'.addrs
      ensures t'.addrs[b].stack in t'.stacks
    {
      PointedAt(t'.addrs, b);
      RegisterTotals(t, s, a, value, t'.addrs[b].stack);
    }
  }

  /** Overwriting an address that holds value zero leaves the stack it was counted for with one count too
      many; all other counts and all values are exact. */
  lemma RegisterLeaks(t: Table, s: Stack, a: nat, value: int)
    requires Accounted(t) && s.locs != [] && a in t.addrs && t.addrs[a].value == 0
    ensures var t' := Register(t, s, a, value).0; var leaking := t.addrs[a].stack;
            && leaking in t'.stacks
            && forall x :: x in t'.stacks ==>
                 && t'.stacks[x].count == Total(t'.addrs, CountOf(x)) + (if x == leaking then 1 else 0)
                 && t'.stacks[x].value == Total(t'.addrs, ValueOf(x))
    ensures !Accounted(Register(t, s, a, value).0)
  {
    hide Total, CountOf, ValueOf;
    var t' := Register(t, s, a, value).0;
    if s !in t.stacks { NotPointedAt(t.addrs, s); }
    forall x | x in t'.stacks
      ensures t'.stacks[x].count == Total(t'.addrs, CountOf(x)) + (if x == t.addrs[a].stack then 1 else 0)
      ensures t'.stacks[x].value == Total(t'.addrs, ValueOf(x))
    {
      RegisterTotals(t, s, a, value, x);
    }
  }

  // ----- whole runs -----

  datatype Event = Alloc(stack: Stack, addr: nat, value: int) | Dealloc(addr: nat)

  function Apply(t: Table, e: Event): Table {
    match e
    case Alloc(s, a, v) => Register(t, s, a, v).0
    case Dealloc(a) => Unregister(t, a).0
  }

  function Run(events: seq<Event>): Table {
    if events == [] then Table(map[], map[])
    else Apply(Run(events[..|events| - 1]), events[|events| - 1])
  }

  /** Samples always carry a positive value, so the books balance after every run. */
  lemma {:induction false} RunAccounted(events: seq<Event>)
    requires forall i :: 0 <= i < |events| && events[i].Alloc? ==> events[i].value > 0
    ensures Accounted(Run(events))
    ensures forall a :: a in Run(events).addrs ==> Run(events).addrs[a].value > 0
  {
    if events != [] {
      var before, e := events[..|events| - 1], events[|events| - 1];
      RunAccounted(before);
      match e
      case Alloc(s, a, v) => RegisterAccounted(Run(before), s, a, v);
      case Dealloc(a) => UnregisterAccounted(Run(before), a);
    }
  }

  /** What the last event about an address says: where it was allocated and how much, or that it was freed.
      Samples whose stack could not be unwound say nothing. */
  function Last(events: seq<Event>, a: nat): Option<Held> {
    if events == [] then None
    else match events[|events| - 1]
      case Alloc(s, b, v) => if b == a && s.locs != [] then Some(Held(v, s)) else Last(events[..|events| - 1], a)
      case Dealloc(b) => if b == a then None else Last(events[..|events| - 1], a)
  }

  datatype Option<T> = None | Some(value: T)

  /** After every run the table holds exactly the addresses whose last event is an allocation, each with that
      event's value and stack. */
  lemma {:induction false} RunHolds(events: seq<Event>, a: nat)
    ensures a in Run(events).addrs <==> Last(events, a).Some?
    ensures a in Run(events).addrs ==> Run(events).addrs[a] == Last(events, a).value
  {
    hide Cleaned;
    if events != [] { RunHolds(events[..|events| - 1], a); }
  }

  lemma {:induction false} CountedHas(m: map<nat, Held>, s: Stack)
    requires Total(m, CountOf(s)) > 0
    ensures exists a :: a in m && m[a].stack == s
  {
    if forall a :: a in m ==> m[a].stack != s { NotPointedAt(m, s); }
  }

  /** The stacks kept are exactly those of the addresses held, so the addresses decide the whole table. */
  lemma StacksAreHeld(t: Table, s: Stack)
    requires Accounted(t)
    ensures s in t.stacks <==> exists a :: a in t.addrs && t.addrs[a].stack == s
  {
    hide Total, CountOf, ValueOf;
    if s in t.stacks { CountedHas(t.addrs, s); }
  }
}
