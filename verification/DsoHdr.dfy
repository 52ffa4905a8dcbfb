/** The profiler's table of mapped files: one sorted map of ranges per process, updated in place. */
module DsoHeader {
  import opened DsoIntervals

  class PidMapping {
    const pid: int
    var map_: seq<Entry>       // sorted by key
    var jitdumpAddr: nat
    var backpopulateAllowed: bool
    var unfoundDsos: nat
    var lastBackpopulate: nat

    ghost predicate Valid()
      reads this
    {
      WellFormed(map_, pid)
    }

    constructor (pid: int)
      ensures this.pid == pid && map_ == [] && lastBackpopulate == 0 && backpopulateAllowed && Valid()
    {
      this.pid := pid;
      map_, jitdumpAddr, backpopulateAllowed, unfoundDsos, lastBackpopulate := [], 0, true, 0, 0;
    }

    /** `dso_find_closest`: a binary search that agrees with scanning every mapping. */
    method FindClosest(addr: nat) returns (at: nat, found: bool)
      requires Valid()
      ensures found <==> Resolve(map_, addr).Some?
      ensures found ==> at < |map_| && Resolve(map_, addr) == Some(map_[at].dso)
    {
      var u := UpperBound(map_, addr);
      assert forall i :: u <= i < |map_| ==> map_[i].key > addr;
      if u == 0 {
        ResolveNone(map_, addr);
        return |map_|, false;
      }
      at := u - 1;
      found := map_[at].dso.IsWithin(addr);
      if found { ResolveUnique(map_, pid, addr, at); } else { ResolveNone(map_, addr); }
    }

    /** `dso_find_adjust_same`. */
    method FindAdjustSame(d: Dso) returns (same: bool)
      requires Valid() && d.ValidRange() && d.pid == pid
      modifies this`map_
      ensures Valid()
      ensures same <==> Repeats(old(map_), d)
      ensures same <==> Known(old(map_), d)
      ensures !same ==> map_ == old(map_)
      ensures same ==> forall a: nat :: Resolve(map_, a) == AfterAdjust(Resolve(old(map_), a), d, a)
    {
      same := false;
      RepeatsIsKnown(map_, pid, d);
      hide Known;
      var i := LowerBound(map_, d.start);
      if i < |map_| && map_[i].key == d.start {
        if map_[i].dso.IsSameOrSmaller(d) {
          same := true;
          forall a: nat
            ensures Resolve(map_[i := Entry(map_[i].key, map_[i].dso.(end := d.end, origin := d.origin))], a)
                    == AfterAdjust(Resolve(map_, a), d, a)
          {
            AdjustResolves(map_, pid, i, d, a);
          }
          map_ := map_[i := Entry(map_[i].key, map_[i].dso.(end := d.end, origin := d.origin))];
        }
      }
    }

    /** `erase_range`: of the mappings `b` that intersect the new one, keep the part below of the
        first and the part above of the last where that is allowed, and drop everything else. */
    method EraseRange(first: nat, last: nat, d: Dso, ghost l: seq<Entry>, ghost b: seq<Entry>, ghost r: seq<Entry>)
      requires Cut(map_, pid, l, b, r, d) && |l| == first && |l + b| == last && first < last
      modifies this`map_
      ensures map_ == l + LeftPiece(b, d) + RightPiece(b, d) + r
    {
      hide Cut, WellFormed, IntersectionAllowed, InsertNode;
      CutIndices(map_, pid, l, b, r, d);
      var at := last - 1;
      var lastMapping := map_[at].dso;
      if d.end < lastMapping.end && IntersectionAllowed(lastMapping, d) {
        if d.start > lastMapping.start {
          // the new mapping lies inside this one: split it in two
          SplitInTwo(map_, pid, l, b, r, d);
          var right := lastMapping.(start := d.end + 1);
          map_ := InsertNode(map_, Entry(right.start, right)).0;
          map_ := map_[at := Entry(map_[at].key, lastMapping.(end := d.start - 1))];
          return;
        }
        // the new mapping covers the start of the last one: give it a new key
        Rekeyed(map_, pid, l, b, r, d);
        var newStart := d.end + 1;
        map_ := InsertNode(map_[..at] + map_[at + 1..], Entry(newStart, lastMapping.(start := newStart))).0;
        if first == at {
          return;
        }
        TruncateFirst(first, at, d, l, b[..|b| - 1], RightPiece(b, d) + r);
      } else {
        TruncateFirst(first, last, d, l, b, RightPiece(b, d) + r);
      }
    }

    /** Keep the part of the first mapping below the new one, if allowed, and erase the others. */
    method TruncateFirst(first: nat, last: nat, d: Dso, ghost l: seq<Entry>, ghost b: seq<Entry>, ghost r: seq<Entry>)
      requires map_ == l + b + r && |l| == first && |l + b| == last && b != []
      modifies this`map_
      ensures map_ == l + LeftPiece(b, d) + r
    {
      var begin := first;
      var firstMapping := map_[begin].dso;
      assert map_[begin] == b[0];
      if d.start > firstMapping.start && IntersectionAllowed(firstMapping, d) {
        map_ := map_[begin := Entry(map_[begin].key, firstMapping.(end := d.start - 1))];
        begin := begin + 1;
      }
      assert map_[..begin] == l + LeftPiece(b, d) && map_[last..] == r;
      map_ := map_[..begin] + map_[last..];
    }

    /** `insert_erase_overlap`: every address afterwards resolves to what the address-level
        description says, and the map stays well formed. */
    method InsertEraseOverlap(d: Dso) returns (done: bool)
      requires Valid() && d.ValidRange() && d.pid == pid && (Repeats(map_, d) || Insertable(map_, d))
      modifies this`map_, this`jitdumpAddr
      ensures Valid() && done
      ensures forall a: nat :: Resolve(map_, a) == AfterReport(Repeats(old(map_), d), Resolve(old(map_), a), d, a)
      ensures !Known(old(map_), d) ==> forall a: nat :: Replaced(Resolve(old(map_), a), Resolve(map_, a), d, a)
      ensures Known(old(map_), d) ==> forall a: nat :: Shortened(Resolve(old(map_), a), Resolve(map_, a), d, a)
      ensures jitdumpAddr == if d.kind == JITDump && !Repeats(old(map_), d) then d.start else old(jitdumpAddr)
    {
      hide WellFormed, Resolve, AfterInsert, AfterAdjust, LeftPiece, RightPiece, InsertNode, Repeats, GetIntersection, Insertable;
      hide Cut, Known, Replaced, Shortened;
      ReportMeans(map_, pid, d);
      done := FindAdjustSame(d);
      if done { return; }
      var (first, last) := GetIntersection(map_, d);
      ghost var m := map_;
      ghost var l, b, r := CutAt(map_, pid, d);
      if first != last {
        EraseRange(first, last, d, l, b, r);
      }
      if d.kind == JITDump { jitdumpAddr := d.start; }
      NewNodeFits(m, pid, l, b, r, d);
      var (m', inserted) := InsertNode(map_, Entry(d.start, d));
      map_, done := m', inserted;
      InsertedWellFormed(m, pid, l, b, r, d);
      forall a: nat
        ensures Resolve(map_, a) == AfterInsert(Resolve(m, a), d, a)
      {
        InsertedResolves(m, pid, l, b, r, d, a);
      }
    }

    /** `pid_backpopulate`: insert every line of the process map that parses. Whatever the map held
        before, afterwards each address of each line resolves to a mapping with that line's bounds,
        offset, type, protection and (for regular files) file, provided the lines do not overlap. An address
        outside all lines, in no mapping that overlaps one, resolves as before. The time of the scan is
        kept, and a scan that adds nothing is not repeated. */
    method Backpopulate(lines: Option<seq<Option<Dso>>>, now: nat) returns (ok: bool, added: nat)
      requires Valid()
      requires lines.Some? ==> forall j :: 0 <= j < |lines.value| && lines.value[j].Some? ==>
                 lines.value[j].value.BelowTop() && lines.value[j].value.pid == pid
      modifies this
      ensures Valid()
      ensures ok <==> old(backpopulateAllowed) && lines.Some?
      ensures !ok ==> map_ == old(map_)
      ensures ok ==> added == CountLines(lines.value) && backpopulateAllowed == (added > 0)
      ensures !ok ==> backpopulateAllowed == old(backpopulateAllowed)
      ensures lastBackpopulate == if old(backpopulateAllowed) then now else old(lastBackpopulate)
      ensures unfoundDsos == old(unfoundDsos) + 1
      ensures ok && Disjoint(lines.value) ==>
                forall j :: 0 <= j < |lines.value| && lines.value[j].Some? ==> Listed(map_, lines.value[j].value)
      ensures ok ==> forall a: nat :: Apart(Resolve(old(map_), a), lines.value, a) ==> Resolve(map_, a) == Resolve(old(map_), a)
    {
      unfoundDsos := unfoundDsos + 1;
      added := 0;
      if !backpopulateAllowed { return false, 0; }
      lastBackpopulate := now;
      if lines.None? { return false, 0; }
      var ls := lines.value;
      for i := 0 to |ls|
        invariant Valid() && backpopulateAllowed == old(backpopulateAllowed)
        invariant lastBackpopulate == now && unfoundDsos == old(unfoundDsos) + 1
        invariant forall a: nat :: Apart(Resolve(old(map_), a), ls, a) ==> Resolve(map_, a) == Resolve(old(map_), a)
        invariant added == CountLines(ls[..i])
        invariant Disjoint(ls) ==> forall j :: 0 <= j < i && ls[j].Some? ==> Listed(map_, ls[j].value)
      {
        hide Resolve, WellFormed, Listed, Known, Replaced, Shortened, Apart, AfterReport, Repeats;
        assert ls[..i + 1][..i] == ls[..i];
        if ls[i].Some? {
          ghost var m := map_;
          var d := ls[i].value;
          var done := InsertEraseOverlap(d);
          if done { added := added + 1; }
          NewLineListed(m, map_, pid, d);
          forall a: nat | Apart(Resolve(old(map_), a), ls, a)
            ensures Resolve(map_, a) == Resolve(m, a)
          {
            if Resolve(m, a).Some? { ghost var x := ResolveSome(m, a); }
            ApartStays(Resolve(m, a), Repeats(m, d), ls, i, a);
          }
          forall j | 0 <= j < i && ls[j].Some? && Disjoint(ls)
            ensures Listed(map_, ls[j].value)
          {
            OldLineListed(m, map_, ls[j].value, d);
          }
        }
      }
      assert ls[..|ls|] == ls;
      if added == 0 { backpopulateAllowed := false; }
      ok := true;
    }
  }

  /** The address-level functions say what the fields say. */
  lemma ReportMeans(m: seq<Entry>, pid: int, d: Dso)
    requires WellFormed(m, pid) && d.ValidRange()
    ensures Repeats(m, d) <==> Known(m, d)
    ensures forall a: nat :: Replaced(Resolve(m, a), AfterInsert(Resolve(m, a), d, a), d, a)
    ensures forall a: nat :: Shortened(Resolve(m, a), AfterAdjust(Resolve(m, a), d, a), d, a)
  {
    hide Resolve, WellFormed, Replaced, AfterInsert, Known, Repeats;
    RepeatsIsKnown(m, pid, d);
    forall a: nat
      ensures Replaced(Resolve(m, a), AfterInsert(Resolve(m, a), d, a), d, a)
    {
      if Resolve(m, a).Some? { var i := ResolveSome(m, a); }
      InsertReplaces(Resolve(m, a), d, a);
    }
  }

  function CountLines(lines: seq<Option<Dso>>): nat {
    if lines == [] then 0
    else CountLines(lines[..|lines| - 1]) + (if lines[|lines| - 1].Some? then 1 else 0)
  }

  /** An address lies outside all lines, and the mapping it is in, if any, overlaps none. */
  ghost predicate Apart(before: Option<Dso>, lines: seq<Option<Dso>>, a: nat) {
    forall j :: 0 <= j < |lines| && lines[j].Some? ==>
      var d := lines[j].value;
      && !(d.start <= a <= d.end)
      && (before.Some? ==> before.value.end < d.start || d.end < before.value.start)
  }

  lemma ApartStays(before: Option<Dso>, repeats: bool, lines: seq<Option<Dso>>, j: nat, a: nat)
    requires Apart(before, lines, a) && j < |lines| && lines[j].Some? && lines[j].value.ValidRange()
    requires before.Some? ==> before.value.IsWithin(a)
    ensures AfterReport(repeats, before, lines[j].value, a) == before
  {
  }

  /** Equal as far as the process map tells: names are compared for regular files only. */
  predicate Agrees(known: Dso, line: Dso) {
    && known.start == line.start && known.end == line.end && known.offset == line.offset
    && known.kind == line.kind && known.prot == line.prot
    && (line.kind == Standard ==> known.filename == line.filename && known.inode == line.inode)
  }

  ghost predicate Listed(m: seq<Entry>, line: Dso) {
    forall a: nat :: line.IsWithin(a) ==> Resolve(m, a).Some? && Agrees(Resolve(m, a).value, line)
  }

  ghost predicate Disjoint(lines: seq<Option<Dso>>) {
    forall i, j :: 0 <= i < j < |lines| && lines[i].Some? && lines[j].Some? ==>
      lines[i].value.end < lines[j].value.start || lines[j].value.end < lines[i].value.start
  }

  ghost predicate Reported(m: seq<Entry>, m': seq<Entry>, d: Dso) {
    forall a: nat :: Resolve(m', a) == AfterReport(Repeats(m, d), Resolve(m, a), d, a)
  }

  lemma NewLineListed(m: seq<Entry>, m': seq<Entry>, pid: int, d: Dso)
    requires WellFormed(m, pid) && Reported(m, m', d)
    ensures Listed(m', d)
  {
    if Repeats(m, d) {
      var i :| 0 <= i < |m| && m[i].key == d.start && m[i].dso.IsSameOrSmaller(d);
      forall a: nat | d.IsWithin(a)
        ensures Resolve(m', a).Some? && Agrees(Resolve(m', a).value, d)
      {
        ResolveUnique(m, pid, a, i);
      }
    }
  }

  lemma OldLineListed(m: seq<Entry>, m': seq<Entry>, line: Dso, d: Dso)
    requires Listed(m, line) && Reported(m, m', d) && d.ValidRange()
    requires line.end < d.start || d.end < line.start
    ensures Listed(m', line)
  {
  }

  lemma CutAt(m: seq<Entry>, pid: int, d: Dso) returns (l: seq<Entry>, b: seq<Entry>, r: seq<Entry>)
    requires WellFormed(m, pid) && d.ValidRange() && d.pid == pid && Insertable(m, d)
    ensures Cut(m, pid, l, b, r, d)
    ensures |l| == GetIntersection(m, d).0 && |l + b| == GetIntersection(m, d).1
    ensures b == [] ==> m == l + LeftPiece(b, d) + RightPiece(b, d) + r
  {
    hide GetIntersection, WellFormed, Insertable;
    IntersectionFound(m, pid, d);
    var (first, last) := GetIntersection(m, d);
    l, b, r := m[..first], m[first..last], m[last..];
    assert m == l + b + r;
  }

  lemma CutIndices(m: seq<Entry>, pid: int, l: seq<Entry>, b: seq<Entry>, r: seq<Entry>, d: Dso)
    requires Cut(m, pid, l, b, r, d) && b != []
    ensures m == l + b + r && m[|l|] == b[0] && m[|l + b| - 1] == b[|b| - 1]
    ensures d.start > b[|b| - 1].dso.start ==> |b| == 1
    ensures RightPiece(b, d) == [] ==> m == l + b + (RightPiece(b, d) + r)
    ensures l + LeftPiece(b, d) + (RightPiece(b, d) + r) == l + LeftPiece(b, d) + RightPiece(b, d) + r
  {
    CutParts(m, pid, l, b, r, d);
  }

  lemma SplitInTwo(m: seq<Entry>, pid: int, l: seq<Entry>, b: seq<Entry>, r: seq<Entry>, d: Dso)
    requires Cut(m, pid, l, b, r, d) && |b| == 1 && LeftPiece(b, d) != [] && RightPiece(b, d) != []
    ensures var m' := InsertNode(m, RightPiece(b, d)[0]).0;
            && |l| < |m'| && m'[|l|] == b[0]
            && m'[|l| := LeftPiece(b, d)[0]] == l + LeftPiece(b, d) + RightPiece(b, d) + r
  {
    CutParts(m, pid, l, b, r, d);
    InsertBetween(l + b, r, RightPiece(b, d)[0]);
  }

  lemma Rekeyed(m: seq<Entry>, pid: int, l: seq<Entry>, b: seq<Entry>, r: seq<Entry>, d: Dso)
    requires Cut(m, pid, l, b, r, d) && RightPiece(b, d) != [] && d.start <= b[|b| - 1].dso.start
    ensures var at := |l + b| - 1;
            var m' := InsertNode(m[..at] + m[at + 1..], RightPiece(b, d)[0]).0;
            && m' == l + b[..|b| - 1] + (RightPiece(b, d) + r)
            && |l + b[..|b| - 1]| == at
            && (|b| == 1 ==> m' == l + LeftPiece(b, d) + RightPiece(b, d) + r)
            && (|b| > 1 ==> LeftPiece(b[..|b| - 1], d) == LeftPiece(b, d))
  {
    hide Cut, InsertNode, WellFormed, IntersectionAllowed;
    var piece, rest := RightPiece(b, d)[0], b[..|b| - 1];
    DropLast(m, pid, l, b, r, d);
    RekeyFits(m, pid, l, b, r, d);
    InsertBetween(l + rest, r, piece);
    assert l + rest + [piece] + r == l + rest + ([piece] + r);
    assert RightPiece(b, d) == [piece];
    if |b| == 1 { assert rest == [] && l + rest == l + LeftPiece(b, d); }
  }

  lemma DropLast(m: seq<Entry>, pid: int, l: seq<Entry>, b: seq<Entry>, r: seq<Entry>, d: Dso)
    requires Cut(m, pid, l, b, r, d) && b != []
    ensures var at := |l + b| - 1; m[..at] + m[at + 1..] == l + b[..|b| - 1] + r
  {
    hide WellFormed;
  }

  lemma RekeyFits(m: seq<Entry>, pid: int, l: seq<Entry>, b: seq<Entry>, r: seq<Entry>, d: Dso)
    requires Cut(m, pid, l, b, r, d) && RightPiece(b, d) != [] && d.start <= b[|b| - 1].dso.start
    ensures var kept := l + b[..|b| - 1]; forall i :: 0 <= i < |kept| ==> kept[i].key < RightPiece(b, d)[0].key
    ensures forall i :: 0 <= i < |r| ==> r[i].key > RightPiece(b, d)[0].key
    ensures |b| == 1 ==> LeftPiece(b, d) == []
  {
    CutParts(m, pid, l, b, r, d);
  }

  lemma NewNodeFits(m: seq<Entry>, pid: int, l: seq<Entry>, b: seq<Entry>, r: seq<Entry>, d: Dso)
    requires Cut(m, pid, l, b, r, d)
    ensures InsertNode(l + LeftPiece(b, d) + RightPiece(b, d) + r, Entry(d.start, d))
            == (l + LeftPiece(b, d) + [Entry(d.start, d)] + RightPiece(b, d) + r, true)
  {
    CutParts(m, pid, l, b, r, d);
    var lo, hi := l + LeftPiece(b, d), RightPiece(b, d) + r;
    assert l + LeftPiece(b, d) + RightPiece(b, d) + r == lo + hi;
    InsertBetween(lo, hi, Entry(d.start, d));
    assert lo + [Entry(d.start, d)] + hi == l + LeftPiece(b, d) + [Entry(d.start, d)] + RightPiece(b, d) + r;
  }

  lemma AdjustResolves(m: seq<Entry>, pid: int, i: nat, d: Dso, a: nat)
    requires WellFormed(m, pid) && i < |m| && m[i].key == d.start && m[i].dso.IsSameOrSmaller(d) && d.ValidRange()
    ensures var m' := m[i := Entry(m[i].key, m[i].dso.(end := d.end, origin := d.origin))];
            WellFormed(m', pid) && Resolve(m', a) == AfterAdjust(Resolve(m, a), d, a)
  {
    var m' := m[i := Entry(m[i].key, m[i].dso.(end := d.end, origin := d.origin))];
    if Resolve(m, a).Some? {
      var k := ResolveSome(m, a);
      if m'[k].dso.IsWithin(a) { ResolveUnique(m', pid, a, k); } else { ResolveNone(m', a); }
    } else if Resolve(m', a).Some? {
      var k := ResolveSome(m', a);
      ResolveUnique(m, pid, a, k);
    }
  }

  /** What the loop of `check_invariants` checks for one process. */
  ghost predicate CheckedMap(m: seq<Entry>, pid: int) {
    forall i :: 0 <= i < |m| ==>
      m[i].dso.pid == pid && m[i].key == m[i].dso.start && (i > 0 ==> m[i - 1].dso.end < m[i].dso.start)
  }

  class DsoHdr {
    var pids: map<int, PidMapping>

    ghost predicate Valid()
      reads this, pids.Values
    {
      forall p :: p in pids ==> pids[p].pid == p && pids[p].Valid()
    }

    /** What an address of a process resolves to. */
    ghost function Lookup(pid: int, a: nat): Option<Dso>
      reads this, pids.Values
    {
      if pid in pids then Resolve(pids[pid].map_, a) else None
    }

    ghost function MapOf(pid: int): seq<Entry>
      reads this, pids.Values
    {
      if pid in pids then pids[pid].map_ else []
    }

    constructor ()
      ensures Valid() && pids == map[]
    {
      pids := map[];
    }

    /** `_pid_map[pid]`: the entry of a process, created empty when missing. */
    method Mapping(pid: int) returns (pm: PidMapping)
      requires Valid()
      modifies this
      ensures Valid() && pid in pids && pm == pids[pid]
      ensures pid in old(pids) ==> pids == old(pids)
      ensures pid !in old(pids) ==> fresh(pm) && pids == old(pids)[pid := pm] && pm.map_ == [] && pm.lastBackpopulate == 0 && pm.backpopulateAllowed
      ensures forall q :: MapOf(q) == old(MapOf(q))
    {
      if pid !in pids {
        pm := new PidMapping(pid);
        pids := pids[pid := pm];
      }
      pm := pids[pid];
    }

    /** `maybe_insert_erase_overlap`: events older than the last scan of the process map are ignored. */
    method MaybeInsert(d: Dso, timestamp: nat) returns (taken: bool)
      requires Valid() && d.ValidRange() && (Repeats(MapOf(d.pid), d) || Insertable(MapOf(d.pid), d))
      modifies this, pids.Values
      ensures Valid()
      ensures taken <==> !(d.pid in old(pids) && timestamp < old(pids)[d.pid].lastBackpopulate)
      ensures forall q, a: nat :: Lookup(q, a) ==
                if taken && q == d.pid
                then AfterReport(Repeats(old(MapOf(d.pid)), d), old(Lookup(d.pid, a)), d, a)
                else old(Lookup(q, a))
    {
      ghost var before := old(MapOf(d.pid));
      var pm := Mapping(d.pid);
      if timestamp < pm.lastBackpopulate { return false; }
      var done := pm.InsertEraseOverlap(d);
      taken := true;
    }

    /** `pid_backpopulate`: only the scanned process changes. */
    method PidBackpopulate(pid: int, lines: Option<seq<Option<Dso>>>, now: nat) returns (ok: bool, added: nat)
      requires Valid()
      requires lines.Some? ==> forall j :: 0 <= j < |lines.value| && lines.value[j].Some? ==>
                 lines.value[j].value.BelowTop() && lines.value[j].value.pid == pid
      modifies this, pids.Values
      ensures Valid()
      ensures forall q, a: nat :: q != pid ==> Lookup(q, a) == old(Lookup(q, a))
      ensures ok <==> lines.Some? && (pid in old(pids) ==> old(pids[pid].backpopulateAllowed))
      ensures ok ==> added == CountLines(lines.value) && pid in pids && pids[pid].lastBackpopulate == now
      ensures ok && Disjoint(lines.value) ==>
                forall j :: 0 <= j < |lines.value| && lines.value[j].Some? ==> Listed(MapOf(pid), lines.value[j].value)
    {
      var pm := Mapping(pid);
      ok, added := pm.Backpopulate(lines, now);
    }

    method PidFree(pid: int)
      requires Valid()
      modifies this
      ensures Valid()
      ensures forall q, a: nat :: Lookup(q, a) == if q == pid then None else old(Lookup(q, a))
    {
      pids := pids - {pid};
    }

    /** `pid_fork`: a child unknown so far starts with a copy of its parent's mappings. */
    method PidFork(child: int, parent: int)
      requires Valid()
      modifies this
      ensures Valid()
      ensures forall q, a: nat :: Lookup(q, a) ==
                if q == child && child !in old(pids) && parent in old(pids)
                then OwnedBy(old(Lookup(parent, a)), child)
                else old(Lookup(q, a))
    {
      if parent !in pids || child in pids { return; }
      var source := pids[parent].map_;
      var pm := new PidMapping(child);
      var copied: seq<Entry> := [];
      for i := 0 to |source|
        invariant copied == Copied(source[..i], child)
      {
        assert source[..i + 1][..i] == source[..i];
        copied := copied + [Entry(source[i].key, source[i].dso.(pid := child))];
      }
      assert source[..|source|] == source;
      CopiedWellFormed(source, parent, child);
      pm.map_ := copied;
      pids := pids[child := pm];
      forall a: nat
        ensures Resolve(copied, a) == OwnedBy(Resolve(source, a), child)
      {
        CopiedResolves(source, child, a);
      }
    }

    /** `check_invariants` never fails on a table built by the operations above. */
    method CheckInvariants() returns (ok: bool)
      ensures ok <==> forall p :: p in pids ==> CheckedMap(pids[p].map_, p)
      ensures Valid() ==> ok
    {
      hide CheckedMap, WellFormed;
      var todo := pids.Keys;
      while todo != {}
        invariant todo <= pids.Keys
        invariant forall p :: p in pids && p !in todo ==> CheckedMap(pids[p].map_, p)
        decreases |todo|
      {
        PidInSet(todo);
        var p :| p in todo;
        ok := CheckMap(pids[p].map_, p);
        if !ok {
          return;
        }
        todo := todo - {p};
      }
      ok := true;
    }
  }

  lemma PidInSet(s: set<int>)
    requires s != {}
    ensures exists p :: p in s
  {
    if forall p :: p !in s { assert false; }
  }

  method CheckMap(m: seq<Entry>, pid: int) returns (ok: bool)
    ensures ok <==> CheckedMap(m, pid)
    ensures WellFormed(m, pid) ==> ok
  {
    for i := 0 to |m|
      invariant CheckedMap(m[..i], pid)
    {
      if m[i].dso.pid != pid { return false; }
      if m[i].key != m[i].dso.start { return false; }
      if i > 0 && m[i - 1].dso.end >= m[i].dso.start { return false; }
    }
    assert m[..|m|] == m;
    ok := true;
  }

  function OwnedBy(o: Option<Dso>, pid: int): Option<Dso> {
    if o.Some? then Some(o.value.(pid := pid)) else None
  }

  function Copied(m: seq<Entry>, pid: int): (r: seq<Entry>)
    ensures |r| == |m| && forall i :: 0 <= i < |m| ==> r[i] == Entry(m[i].key, m[i].dso.(pid := pid))
  {
    if m == [] then []
    else Copied(m[..|m| - 1], pid) + [Entry(m[|m| - 1].key, m[|m| - 1].dso.(pid := pid))]
  }

  lemma CopiedWellFormed(m: seq<Entry>, parent: int, child: int)
    requires WellFormed(m, parent)
    ensures WellFormed(Copied(m, child), child)
  {
  }

  lemma {:induction false} CopiedResolves(m: seq<Entry>, child: int, a: nat)
    ensures Resolve(Copied(m, child), a) == OwnedBy(Resolve(m, a), child)
  {
    if m != [] {
      CopiedResolves(m[1..], child, a);
      assert Copied(m, child)[1..] == Copied(m[1..], child);
    }
  }
}
