/** The live-heap table as the profiler keeps it: addresses hold pointers to the stack nodes they
    count for, and nodes are updated and erased in place. */
module LiveAllocation {
  import opened LiveHeap

  class StackNode {
    const key: Stack
    var value: int
    var count: int

    constructor (key: Stack)
      ensures this.key == key && value == 0 && count == 0
    {
      this.key := key;
      value, count := 0, 0;
    }

    method TakeOff(amount: int)
      modifies this
      ensures Totals(value, count) == LiveHeap.TakeOff(Totals(old(value), old(count)), amount)
    {
      value := value - amount;
      if count != 0 { count := count - 1; }
    }
  }

  datatype PerAddress = PerAddress(value: int, node: StackNode?)

  class PidStacks {
    var stacks: map<Stack, StackNode>
    var addrs: map<nat, PerAddress>
    var alreadyExisting: nat

    /** Nodes are stored under their own key and addresses point at stored nodes. */
    ghost predicate Linked()
      reads this, stacks.Values
    {
      && (forall s :: s in stacks ==> stacks[s].key == s)
      && (forall a :: a in addrs ==>
            addrs[a].node != null && addrs[a].node.key in stacks && stacks[addrs[a].node.key] == addrs[a].node)
    }

    ghost function StackView(): map<Stack, Totals>
      reads this`stacks, stacks.Values
    {
      map s | s in stacks :: Totals(stacks[s].value, stacks[s].count)
    }

    ghost function View(): Table
      requires Linked()
      reads this, stacks.Values
    {
      Table(StackView(), map a | a in addrs :: Held(addrs[a].value, addrs[a].node.key))
    }

    ghost predicate Valid()
      reads this, stacks.Values
    {
      Linked() && Accounted(View())
    }

    constructor ()
      ensures Valid() && View() == Table(map[], map[]) && fresh(stacks.Values)
    {
      stacks, addrs, alreadyExisting := map[], map[], 0;
    }

    ghost predicate Keyed()
      reads this`stacks, stacks.Values
    {
      forall s :: s in stacks ==> stacks[s].key == s
    }

    method FindOrCreate(uo: Stack) returns (unique: StackNode)
      requires Keyed()
      modifies this`stacks
      ensures Keyed() && uo in stacks && unique == stacks[uo] && fresh(stacks.Values - old(stacks.Values))
      ensures forall s :: s in old(stacks) ==> s in stacks && stacks[s] == old(stacks)[s]
      ensures StackView() == if uo in old(StackView()) then old(StackView()) else old(StackView())[uo := Totals(0, 0)]
    {
      if uo !in stacks {
        var node := new StackNode(uo);
        stacks := stacks[uo := node];
      }
      unique := stacks[uo];
    }

    /** Take an allocation off its node, and erase the node with its last one. */
    method TakeFrom(node: StackNode, amount: int)
      requires Keyed() && node.key in stacks && stacks[node.key] == node
      modifies this`stacks, node
      ensures Keyed() && StackView() == Without(old(StackView()), node.key, amount)
      ensures forall s :: s in stacks ==> s in old(stacks) && stacks[s] == old(stacks)[s]
    {
      node.TakeOff(amount);
      if node.count == 0 { stacks := stacks - {node.key}; }
    }

    /** Private `register_deallocation`: no address is left pointing at the erased node. */
    method RegisterDeallocation(address: nat) returns (matched: bool)
      requires Valid()
      modifies this, stacks.Values
      ensures Valid() && stacks.Values <= old(stacks.Values)
      ensures (View(), matched) == Unregister(old(View()), address)
    {
      hide Accounted, StackView;
      ghost var before := View();
      UnregisterAccounted(before, address);
      if address !in addrs { return false; }
      var v := addrs[address];
      ghost var after := Unregister(before, address).0;
      NoneDangling(after);
      assert v.node.key in before.stacks by { NoneDangling(before); }
      TakeFrom(v.node, v.value);
      StackKeys();
      addrs := addrs - {address};
      matched := true;
      assert Linked() by {
        forall a | a in addrs
          ensures addrs[a].node.key in stacks
        {
          assert a in after.addrs && after.addrs[a].stack == addrs[a].node.key;
        }
      }
      assert View().addrs == after.addrs;
    }

    lemma StackKeys()
      ensures StackView().Keys == stacks.Keys
    {
    }

    /** Take the allocation recorded at an address off its stack, erasing the node when it was the
        last one and is not about to be used again. */
    method CleanUp(address: nat, unique: StackNode, ghost held: map<nat, Held>)
      requires Keyed() && unique.key in stacks && stacks[unique.key] == unique
      requires address in addrs <==> address in held
      requires address in addrs ==>
                 var v := addrs[address];
                 && v.node != null && v.node.key in stacks && stacks[v.node.key] == v.node
                 && held[address] == Held(v.value, v.node.key)
      modifies this`stacks, this`alreadyExisting, stacks.Values
      ensures Keyed() && unique.key in stacks && stacks[unique.key] == unique
      ensures forall s :: s in stacks ==> s in old(stacks) && stacks[s] == old(stacks)[s]
      ensures StackView() == Cleaned(old(StackView()), held, address, unique.key)
      ensures alreadyExisting == old(alreadyExisting) + (if address in addrs && addrs[address].value != 0 then 1 else 0)
    {
      var v := if address in addrs then addrs[address] else PerAddress(0, null);
      if v.value != 0 {
        alreadyExisting := alreadyExisting + 1;
        if v.node != null {
          v.node.TakeOff(v.value);
          if v.node != unique && v.node.count == 0 { stacks := stacks - {v.node.key}; }
        }
      }
    }

    /** Every address but one points at a stored node, as the books say. */
    ghost predicate LinkedBut(address: nat, held: map<nat, Held>)
      reads this, stacks.Values
    {
      && held.Keys == addrs.Keys
      && forall a :: a in addrs && a != address ==>
           && addrs[a].node != null && addrs[a].node.key in stacks && stacks[addrs[a].node.key] == addrs[a].node
           && held[a] == Held(addrs[a].value, addrs[a].node.key)
    }

    /** Find the node to count for and clean up what is recorded at the address. */
    method Prepare(uo: Stack, address: nat) returns (unique: StackNode)
      requires Valid() && uo.locs != []
      modifies this`stacks, this`alreadyExisting, stacks.Values
      ensures Keyed() && uo == unique.key && uo in stacks && stacks[uo] == unique
      ensures LinkedBut(address, old(View()).addrs) && fresh(stacks.Values - old(stacks.Values))
      ensures StackView() == Prepared(old(View()), uo, address)
      ensures alreadyExisting == old(alreadyExisting) + (if address in addrs && addrs[address].value != 0 then 1 else 0)
    {
      hide Accounted, Cleaned;
      ghost var before := View();
      assert LinkedBut(address, before.addrs);
      KeptStacks(before, uo, address);
      assert address in addrs ==> before.addrs[address] == Held(addrs[address].value, addrs[address].node.key);
      unique := FindOrCreate(uo);
      CleanUp(address, unique, before.addrs);
      StackKeys();
      hide View, StackView;
    }

    method Count(unique: StackNode, value: int)
      requires Keyed() && unique.key in stacks && stacks[unique.key] == unique
      modifies unique
      ensures StackView() == Counted(old(StackView()), unique.key, value)
    {
      unique.value := unique.value + value;
      unique.count := unique.count + 1;
    }

    /** Let an address point at a node and add its value there. */
    method Point(address: nat, unique: StackNode, value: int, ghost held: map<nat, Held>)
      requires Keyed() && unique.key in stacks && stacks[unique.key] == unique
      requires LinkedBut(address, held)
      modifies this`addrs, unique
      ensures Linked()
      ensures View() == Table(Counted(old(StackView()), unique.key, value), held[address := Held(value, unique.key)])
    {
      hide StackView, Counted;
      addrs := addrs[address := PerAddress(value, unique)];
      Count(unique, value);
      assert Linked();
      assert View().addrs == held[address := Held(value, unique.key)];
    }

    /** Private `register_allocation`. The address may be recorded already, with the same stack or another
        one. The books stay exact unless the address holds value zero, which samples never have. */
    method RegisterAllocation(uo: Stack, address: nat, value: int) returns (ok: bool)
      requires Valid()
      modifies this, stacks.Values
      ensures Linked() && fresh(stacks.Values - old(stacks.Values))
      ensures (View(), ok) == Register(old(View()), uo, address, value)
      ensures Valid() <==> uo.locs == [] || address !in old(addrs) || old(addrs)[address].value != 0
      ensures alreadyExisting == old(alreadyExisting) +
                (if ok && address in old(addrs) && old(addrs)[address].value != 0 then 1 else 0)
    {
      hide Accounted, StackView;
      ghost var before := View();
      assert forall a :: a in addrs ==> a in before.addrs && before.addrs[a].value == addrs[a].value;
      RegisterAccounted(before, uo, address, value);
      if uo.locs == [] { return false; }
      hide View;
      var unique := Prepare(uo, address);
      Point(address, unique, value, before.addrs);
      RegisterIs(before, uo, address, value);
      ok := true;
    }
  }

  /** The stacks when a sample of stack `s` at address `a` is about to be counted. */
  ghost function Prepared(t: Table, s: Stack, a: nat): map<Stack, Totals> {
    Cleaned(if s in t.stacks then t.stacks else t.stacks[s := Totals(0, 0)], t.addrs, a, s)
  }

  function Counted(stacks: map<Stack, Totals>, s: Stack, value: int): map<Stack, Totals>
    requires s in stacks
  {
    stacks[s := Totals(stacks[s].value + value, stacks[s].count + 1)]
  }

  /** Registration put together from its parts. */
  lemma RegisterIs(t: Table, s: Stack, a: nat, value: int)
    requires s.locs != []
    ensures s in Prepared(t, s, a)
    ensures Register(t, s, a, value) == (Table(Counted(Prepared(t, s, a), s, value), t.addrs[a := Held(value, s)]), true)
  {
  }

  /** Cleaning up one address leaves the stacks of all others in place. */
  lemma KeptStacks(t: Table, s: Stack, a: nat)
    requires Accounted(t) && s.locs != []
    ensures s in Prepared(t, s, a)
    ensures forall b :: b in t.addrs && b != a ==> t.addrs[b].stack in Prepared(t, s, a)
  {
    if a in t.addrs && t.addrs[a].value != 0 {
      hide Accounted, Cleaned;
      RegisterAccounted(t, s, a, 1);
      RegisterIs(t, s, a, 1);
      NoneDangling(Register(t, s, a, 1).0);
      OthersStay(t, s, a);
    }
  }

  lemma OthersStay(t: Table, s: Stack, a: nat)
    requires s.locs != []
    ensures forall b :: b in t.addrs && b != a ==>
              b in Register(t, s, a, 1).0.addrs && Register(t, s, a, 1).0.addrs[b] == t.addrs[b]
  {
    hide Cleaned;
  }

  lemma NoneDangling(t: Table)
    requires Accounted(t)
    ensures forall a :: a in t.addrs ==> t.addrs[a].stack in t.stacks
  {
  }
}
