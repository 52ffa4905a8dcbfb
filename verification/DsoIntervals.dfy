/** Mapped ranges of one process: what an address resolves to, and how a new range replaces old ones. */
module DsoIntervals {

  const MAX_ADDRESS: nat := 0xFFFF_FFFF_FFFF_FFFF

  datatype Option<T> = None | Some(value: T)

  datatype DsoKind =
    Standard | Vdso | VsysCall | Stack | Heap | Undef | Anon | Runtime | Socket | DDProfiling | JITDump

  datatype Origin = PerfMmapEvent | ProcMaps

  /** A mapping; `end` is inclusive. */
  datatype Dso = Dso(pid: int, start: nat, end: nat, offset: nat, filename: string, inode: nat, prot: nat,
                     kind: DsoKind, origin: Origin) {
    predicate IsWithin(a: nat) { start <= a <= end }

    predicate IsSameFile(o: Dso) {
      kind == o.kind && kind == Standard && filename == o.filename && inode == o.inode
    }

    predicate IsSameOrSmaller(o: Dso) {
      && start == o.start && offset == o.offset && kind == o.kind
      && (kind == Standard ==> filename == o.filename && inode == o.inode)
      && prot == o.prot && o.end <= end
    }

    predicate Intersects(o: Dso) {
      if start < o.start then end >= o.start else o.end >= start
    }

    predicate ValidRange() { start <= end <= MAX_ADDRESS }

    predicate BelowTop() { start <= end < MAX_ADDRESS }
  }

  /** May a new mapping cut into an old one and leave the rest of it mapped? */
  predicate IntersectionAllowed(old_: Dso, new_: Dso) {
    old_.IsSameFile(new_) || (old_.kind == Standard && new_.kind == Anon)
  }

  /** One node of the sorted map from start address to mapping. */
  datatype Entry = Entry(key: nat, dso: Dso)

  /** What `check_invariants` checks, plus that no range is empty. */
  ghost predicate WellFormed(m: seq<Entry>, pid: int) {
    && (forall i :: 0 <= i < |m| ==> m[i].dso.pid == pid && m[i].key == m[i].dso.start && m[i].dso.ValidRange())
    && (forall i, j :: 0 <= i < j < |m| ==> m[i].dso.end < m[j].dso.start)
  }

  /** The mapping an address belongs to, by scanning all of them. */
  function Resolve(m: seq<Entry>, a: nat): Option<Dso> {
    if m == [] then None
    else if m[0].dso.IsWithin(a) then Some(m[0].dso)
    else Resolve(m[1..], a)
  }

  function OrElse(x: Option<Dso>, y: Option<Dso>): Option<Dso> { if x.Some? then x else y }

  lemma {:induction false} ResolveConcat(l: seq<Entry>, r: seq<Entry>, a: nat)
    ensures Resolve(l + r, a) == OrElse(Resolve(l, a), Resolve(r, a))
  {
    if l == [] {
      assert l + r == r;
    } else {
      ResolveConcat(l[1..], r, a);
      assert (l + r)[1..] == l[1..] + r;
    }
  }

  lemma {:induction false} ResolveNone(m: seq<Entry>, a: nat)
    requires forall i :: 0 <= i < |m| ==> !m[i].dso.IsWithin(a)
    ensures Resolve(m, a) == None
  {
    if m != [] { ResolveNone(m[1..], a); }
  }

  /** Disjoint ranges: any range containing the address is the one it resolves to. */
  lemma {:induction false} ResolveUnique(m: seq<Entry>, pid: int, a: nat, i: nat)
    requires WellFormed(m, pid) && i < |m| && m[i].dso.IsWithin(a)
    ensures Resolve(m, a) == Some(m[i].dso)
  {
    if i > 0 { ResolveUnique(m[1..], pid, a, i - 1); }
  }

  lemma {:induction false} ResolveSome(m: seq<Entry>, a: nat) returns (i: nat)
    requires Resolve(m, a).Some?
    ensures i < |m| && m[i].dso == Resolve(m, a).value && m[i].dso.IsWithin(a)
  {
    if m[0].dso.IsWithin(a) { i := 0; } else { i := ResolveSome(m[1..], a); i := i + 1; }
  }

  // ----- ordered map operations -----

  /** Index of the first node whose key is greater than `a`. */
  function UpperBound(m: seq<Entry>, a: nat): (i: nat)
    ensures i <= |m|
    ensures forall k :: 0 <= k < i ==> m[k].key <= a
    ensures i < |m| ==> m[i].key > a
  {
    if m == [] || m[0].key > a then 0 else 1 + UpperBound(m[1..], a)
  }

  /** Index of the first node whose key is not less than `a`. */
  function LowerBound(m: seq<Entry>, a: nat): (i: nat)
    ensures i <= |m|
    ensures forall k :: 0 <= k < i ==> m[k].key < a
    ensures i < |m| ==> m[i].key >= a
  {
    if m == [] || m[0].key >= a then 0 else 1 + LowerBound(m[1..], a)
  }

  /** `map::insert`: a node whose key is present already is not inserted. */
  function InsertNode(m: seq<Entry>, e: Entry): (seq<Entry>, bool) {
    var i := LowerBound(m, e.key);
    if i < |m| && m[i].key == e.key then (m, false) else (m[..i] + [e] + m[i..], true)
  }

  lemma InsertBetween(l: seq<Entry>, r: seq<Entry>, e: Entry)
    requires forall i :: 0 <= i < |l| ==> l[i].key < e.key
    requires forall i :: 0 <= i < |r| ==> r[i].key > e.key
    ensures InsertNode(l + r, e) == (l + [e] + r, true)
  {
    var m, i := l + r, LowerBound(l + r, e.key);
    assert |r| > 0 ==> m[|l|] == r[0];
    assert m[..i] == l && m[i..] == r;
  }

  /** First and one-past-last index of the nodes intersecting a range. */
  function GetIntersection(m: seq<Entry>, d: Dso): (r: (nat, nat))
    ensures r.0 <= |m| && r.1 <= |m|
  {
    var u := UpperBound(m, d.start);
    var first := if u > 0 && m[u - 1].dso.end >= d.start then u - 1 else u;
    var last := if first == |m| || m[first].key > d.end then first else LowerBound(m, (d.end + 1) % (MAX_ADDRESS + 1));
    (first, last)
  }

  /** The new range does not end at the last address, or no mapping reaches its start. */
  ghost predicate Insertable(m: seq<Entry>, d: Dso) {
    d.end < MAX_ADDRESS || forall i :: 0 <= i < |m| ==> m[i].dso.end < d.start
  }

  /** The nodes found are exactly those that intersect the range. */
  ghost predicate ExactlyFound(m: seq<Entry>, d: Dso) {
    var (first, last) := GetIntersection(m, d);
    first <= last && forall i :: 0 <= i < |m| ==> (first <= i < last <==> m[i].dso.Intersects(d))
  }

  lemma IntersectionFound(m: seq<Entry>, pid: int, d: Dso)
    requires WellFormed(m, pid) && d.ValidRange() && Insertable(m, d)
    ensures var (first, last) := GetIntersection(m, d);
            && first <= last <= |m|
            && (forall i :: 0 <= i < first ==> m[i].dso.end < d.start)
            && (forall i :: first <= i < last ==> m[i].dso.start <= d.end && d.start <= m[i].dso.end)
            && (forall i :: last <= i < |m| ==> d.end < m[i].dso.start)
    ensures ExactlyFound(m, d)
  {
    hide UpperBound, LowerBound, WellFormed;
    var (first, last) := GetIntersection(m, d);
    BelowStart(m, pid, d.start, first);
    AboveEnd(m, pid, d, first, last);
    SplitFound(m, pid, d, first, last);
  }

  lemma BelowStart(m: seq<Entry>, pid: int, start: nat, first: nat)
    requires WellFormed(m, pid)
    requires var u := UpperBound(m, start); first == if u > 0 && m[u - 1].dso.end >= start then u - 1 else u
    ensures first <= |m| && (forall i :: 0 <= i < first ==> m[i].dso.end < start)
    ensures forall i :: first <= i < |m| ==> start <= m[i].dso.end
  {
    hide UpperBound;
  }

  lemma AboveEnd(m: seq<Entry>, pid: int, d: Dso, first: nat, last: nat)
    requires WellFormed(m, pid) && d.ValidRange() && Insertable(m, d) && first <= |m|
    requires forall i :: first <= i < |m| ==> d.start <= m[i].dso.end
    requires last == if first == |m| || m[first].key > d.end then first else LowerBound(m, (d.end + 1) % (MAX_ADDRESS + 1))
    ensures first <= last <= |m|
    ensures forall i :: first <= i < last ==> m[i].dso.start <= d.end
    ensures forall i :: last <= i < |m| ==> d.end < m[i].dso.start
  {
    hide LowerBound;
    assert forall i :: 0 <= i < |m| ==> m[i].key == m[i].dso.start;
  }

  lemma SplitFound(m: seq<Entry>, pid: int, d: Dso, first: nat, last: nat)
    requires WellFormed(m, pid) && d.ValidRange() && GetIntersection(m, d) == (first, last) && first <= last <= |m|
    requires forall i :: 0 <= i < first ==> m[i].dso.end < d.start
    requires forall i :: first <= i < last ==> m[i].dso.start <= d.end && d.start <= m[i].dso.end
    requires forall i :: last <= i < |m| ==> d.end < m[i].dso.start
    ensures ExactlyFound(m, d)
  {
    hide GetIntersection;
  }

  /** The search finds exactly the intersecting mappings if and only if the end of the range plus one does
      not wrap around, or there is nothing to find. */
  lemma IntersectionExact(m: seq<Entry>, pid: int, d: Dso)
    requires WellFormed(m, pid) && d.ValidRange()
    ensures ExactlyFound(m, d) <==> Insertable(m, d)
  {
    if Insertable(m, d) {
      hide GetIntersection, WellFormed;
      IntersectionFound(m, pid, d);
    } else {
      hide UpperBound, LowerBound;
      var (first, last) := GetIntersection(m, d);
      var i :| 0 <= i < |m| && m[i].dso.end >= d.start;
      assert LowerBound(m, 0) == 0;
      assert m[i].dso.Intersects(d) && !(first <= i < last);
    }
  }

  // ----- what inserting a mapping means, address by address -----

  /** Addresses of the new range get the new mapping; an old mapping it cuts into keeps its other
      addresses if that is allowed and loses them otherwise; nothing else changes. */
  function AfterInsert(before: Option<Dso>, d: Dso, a: nat): Option<Dso> {
    if d.IsWithin(a) then Some(d)
    else match before
      case None => None
      case Some(o) =>
        if !o.Intersects(d) then Some(o)
        else if !IntersectionAllowed(o, d) then None
        else if a < d.start then Some(o.(end := d.start - 1))
        else Some(o.(start := d.end + 1))
  }

  /** The same in terms of the mappings' own fields, for an address and the old mapping it was in. Outside the
      new range, an address of an old mapping that overlaps it stays mapped exactly if the old mapping is of a
      regular file and the new one is anonymous or of that same file; a file mapped over anonymous memory
      unmaps the rest of it. What stays mapped keeps its file, offset and protection, and ends where the
      new range begins or begins where it ends. */
  ghost predicate Replaced(before: Option<Dso>, after: Option<Dso>, d: Dso, a: nat) {
    && (d.start <= a <= d.end ==> after == Some(d))
    && (!(d.start <= a <= d.end) && before.None? ==> after.None?)
    && (!(d.start <= a <= d.end) && before.Some? ==>
          var o := before.value;
          if o.end < d.start || d.end < o.start then after == before
          else
            && (after.Some? <==> o.kind == Standard &&
                                 (d.kind == Anon || (d.kind == Standard && d.filename == o.filename && d.inode == o.inode)))
            && (after.Some? ==>
                  var x := after.value;
                  && x.filename == o.filename && x.inode == o.inode && x.kind == o.kind && x.prot == o.prot
                  && x.pid == o.pid && x.offset == o.offset && x.origin == o.origin
                  && x.start == (if a < d.start then o.start else d.end + 1)
                  && x.end == (if a < d.start then d.start - 1 else o.end)))
  }

  lemma InsertReplaces(before: Option<Dso>, d: Dso, a: nat)
    requires d.ValidRange() && (before.Some? ==> before.value.IsWithin(a))
    ensures Replaced(before, AfterInsert(before, d, a), d, a)
  {
  }

  /** A mapping of the table has the new one's start, offset, type, protection and, for a regular file, its
      name and inode, and is at least as long. */
  ghost predicate Known(m: seq<Entry>, d: Dso) {
    exists i :: 0 <= i < |m| &&
      var o := m[i].dso;
      && o.start == d.start && o.offset == d.offset && o.kind == d.kind && o.prot == d.prot && d.end <= o.end
      && (d.kind == Standard ==> o.filename == d.filename && o.inode == d.inode)
  }

  /** The same mapping, or a shorter one, is reported again: the known one shrinks to the new end. */
  function AfterAdjust(before: Option<Dso>, d: Dso, a: nat): Option<Dso> {
    match before
    case None => None
    case Some(o) =>
      if o.start != d.start then Some(o)
      else if a <= d.end then Some(o.(end := d.end, origin := d.origin))
      else None
  }

  /** The known mapping the new one repeats, if any. */
  ghost predicate Repeats(m: seq<Entry>, d: Dso) {
    exists i :: 0 <= i < |m| && m[i].key == d.start && m[i].dso.IsSameOrSmaller(d)
  }

  lemma RepeatsIsKnown(m: seq<Entry>, pid: int, d: Dso)
    requires WellFormed(m, pid)
    ensures Repeats(m, d) <==> Known(m, d)
  {
    if Known(m, d) {
      var i :| 0 <= i < |m| &&
        var o := m[i].dso;
        && o.start == d.start && o.offset == d.offset && o.kind == d.kind && o.prot == d.prot && d.end <= o.end
        && (d.kind == Standard ==> o.filename == d.filename && o.inode == d.inode);
      assert m[i].key == d.start && m[i].dso.IsSameOrSmaller(d);
    }
  }

  /** A mapping reported again only loses what lies past its new end. */
  ghost predicate Shortened(before: Option<Dso>, after: Option<Dso>, d: Dso, a: nat) {
    if before.Some? && before.value.start == d.start
    then if a <= d.end then after == Some(before.value.(end := d.end, origin := d.origin)) else after.None?
    else after == before
  }

  function AfterReport(repeats: bool, before: Option<Dso>, d: Dso, a: nat): Option<Dso> {
    if repeats then AfterAdjust(before, d, a) else AfterInsert(before, d, a)
  }

  // ----- the pieces left of the mappings that are cut -----

  function LeftPiece(m: seq<Entry>, d: Dso): seq<Entry> {
    if m != [] && d.start > m[0].dso.start && IntersectionAllowed(m[0].dso, d)
    then [Entry(m[0].key, m[0].dso.(end := d.start - 1))] else []
  }

  function RightPiece(m: seq<Entry>, d: Dso): seq<Entry> {
    if m != [] && d.end < m[|m| - 1].dso.end && IntersectionAllowed(m[|m| - 1].dso, d)
    then [Entry(d.end + 1, m[|m| - 1].dso.(start := d.end + 1))] else []
  }

  /** The middle of a well-formed map, all of whose ranges intersect `d`. */
  ghost predicate Cut(m: seq<Entry>, pid: int, l: seq<Entry>, b: seq<Entry>, r: seq<Entry>, d: Dso) {
    && m == l + b + r && WellFormed(m, pid) && d.ValidRange() && d.pid == pid
    && (forall i :: 0 <= i < |l| ==> l[i].dso.end < d.start)
    && (forall i :: 0 <= i < |b| ==> b[i].dso.start <= d.end && d.start <= b[i].dso.end)
    && (forall i :: 0 <= i < |r| ==> d.end < r[i].dso.start)
  }

  lemma CutParts(m: seq<Entry>, pid: int, l: seq<Entry>, b: seq<Entry>, r: seq<Entry>, d: Dso)
    requires Cut(m, pid, l, b, r, d)
    ensures WellFormed(l, pid) && WellFormed(b, pid) && WellFormed(r, pid)
    ensures forall i, j :: 0 <= i < |l| && 0 <= j < |b| ==> l[i].dso.end < b[j].dso.start
    ensures forall i, j :: 0 <= i < |b| && 0 <= j < |r| ==> b[i].dso.end < r[j].dso.start
  {
    assert forall i :: 0 <= i < |l| ==> l[i] == m[i];
    assert forall i :: 0 <= i < |b| ==> b[i] == m[|l| + i];
    assert forall i :: 0 <= i < |r| ==> r[i] == m[|l| + |b| + i];
  }

  lemma InsertedWellFormed(m: seq<Entry>, pid: int, l: seq<Entry>, b: seq<Entry>, r: seq<Entry>, d: Dso)
    requires Cut(m, pid, l, b, r, d)
    ensures WellFormed(l + LeftPiece(b, d) + [Entry(d.start, d)] + RightPiece(b, d) + r, pid)
  {
    hide Cut, IntersectionAllowed;
    CutParts(m, pid, l, b, r, d);
    PiecesFit(m, pid, l, b, r, d);
    var lo, hi, mid := l + LeftPiece(b, d), RightPiece(b, d) + r, [Entry(d.start, d)];
    JoinWellFormed(l, LeftPiece(b, d), pid);
    JoinWellFormed(RightPiece(b, d), r, pid);
    JoinWellFormed(lo, mid, pid);
    JoinWellFormed(lo + mid, hi, pid);
    assert lo + mid + hi == l + LeftPiece(b, d) + mid + RightPiece(b, d) + r;
  }

  lemma JoinWellFormed(x: seq<Entry>, y: seq<Entry>, pid: int)
    requires WellFormed(x, pid) && WellFormed(y, pid)
    requires forall i, j :: 0 <= i < |x| && 0 <= j < |y| ==> x[i].dso.end < y[j].dso.start
    ensures WellFormed(x + y, pid)
  {
  }

  /** What is left of the mappings that are cut lies on either side of the new one. */
  lemma PiecesFit(m: seq<Entry>, pid: int, l: seq<Entry>, b: seq<Entry>, r: seq<Entry>, d: Dso)
    requires Cut(m, pid, l, b, r, d)
    ensures d.ValidRange() && d.pid == pid
    ensures WellFormed(LeftPiece(b, d), pid) && WellFormed(RightPiece(b, d), pid)
    ensures forall i, j :: 0 <= i < |l| && 0 <= j < |LeftPiece(b, d)| ==> l[i].dso.end < LeftPiece(b, d)[j].dso.start
    ensures forall j :: 0 <= j < |LeftPiece(b, d)| ==> LeftPiece(b, d)[j].dso.end < d.start
    ensures forall j :: 0 <= j < |RightPiece(b, d)| ==> d.end < RightPiece(b, d)[j].dso.start
    ensures forall i, j :: 0 <= i < |RightPiece(b, d)| && 0 <= j < |r| ==> RightPiece(b, d)[i].dso.end < r[j].dso.start
    ensures forall i :: 0 <= i < |l| ==> l[i].dso.end < d.start
    ensures forall i :: 0 <= i < |r| ==> d.end < r[i].dso.start
  {
    CutParts(m, pid, l, b, r, d);
  }

  lemma InsertedResolves(m: seq<Entry>, pid: int, l: seq<Entry>, b: seq<Entry>, r: seq<Entry>, d: Dso, a: nat)
    requires Cut(m, pid, l, b, r, d)
    ensures Resolve(l + LeftPiece(b, d) + [Entry(d.start, d)] + RightPiece(b, d) + r, a)
            == AfterInsert(Resolve(m, a), d, a)
  {
    hide Resolve, LeftPiece, RightPiece;
    CutParts(m, pid, l, b, r, d);
    var left, right, mid := LeftPiece(b, d), RightPiece(b, d), [Entry(d.start, d)];
    ResolveConcat(l + left + mid + right, r, a);
    ResolveConcat(l + left + mid, right, a);
    ResolveConcat(l + left, mid, a);
    ResolveConcat(l, left, a);
    ResolveConcat(l + b, r, a);
    ResolveConcat(l, b, a);
    ResolveOne(Entry(d.start, d), a);
    KeptOutside(l, b, r, d, a);
    CutResolves(b, pid, d, a);
    if Resolve(b, a).Some? {
      var i := ResolveSome(b, a);
      ResolveNone(r, a);
    }
  }

  lemma ResolveOne(e: Entry, a: nat)
    ensures Resolve([e], a) == if e.dso.IsWithin(a) then Some(e.dso) else None
  {
  }

  lemma KeptOutside(l: seq<Entry>, b: seq<Entry>, r: seq<Entry>, d: Dso, a: nat)
    requires d.ValidRange()
    requires forall i :: 0 <= i < |l| ==> l[i].dso.end < d.start && l[i].dso.start <= l[i].dso.end
    requires forall i :: 0 <= i < |r| ==> d.end < r[i].dso.start
    ensures a >= d.start ==> Resolve(l, a) == None
    ensures a <= d.end ==> Resolve(r, a) == None
    ensures Resolve(l, a).Some? ==> !Resolve(l, a).value.Intersects(d)
    ensures Resolve(r, a).Some? ==> !Resolve(r, a).value.Intersects(d)
  {
    if a >= d.start { ResolveNone(l, a); } else if Resolve(l, a).Some? { var i := ResolveSome(l, a); }
    if a <= d.end { ResolveNone(r, a); } else if Resolve(r, a).Some? { var i := ResolveSome(r, a); }
  }

  /** Of the mappings that are cut, only the first reaches below the new range and only the last
      reaches above it. */
  lemma CutResolves(b: seq<Entry>, pid: int, d: Dso, a: nat)
    requires WellFormed(b, pid) && d.ValidRange()
    requires forall i :: 0 <= i < |b| ==> b[i].dso.start <= d.end && d.start <= b[i].dso.end
    ensures a < d.start ==> Resolve(LeftPiece(b, d), a) == AfterInsert(Resolve(b, a), d, a)
    ensures a < d.start ==> Resolve(RightPiece(b, d), a) == None
    ensures a > d.end ==> Resolve(RightPiece(b, d), a) == AfterInsert(Resolve(b, a), d, a)
    ensures a > d.end ==> Resolve(LeftPiece(b, d), a) == None
    ensures d.IsWithin(a) ==> Resolve(LeftPiece(b, d), a) == None
    ensures Resolve(b, a).Some? ==> Resolve(b, a).value.Intersects(d)
  {
    if Resolve(b, a).Some? {
      var i := ResolveSome(b, a);
      if a < d.start { assert i == 0; }
      if a > d.end { assert i == |b| - 1; }
    }
    if b != [] {
      if b[0].dso.IsWithin(a) { ResolveUnique(b, pid, a, 0); }
      if b[|b| - 1].dso.IsWithin(a) { ResolveUnique(b, pid, a, |b| - 1); }
    }
  }
}
