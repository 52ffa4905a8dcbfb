/** Double-buffered export: the worker aggregates into one profile while a thread ships the other, or the
    worker itself does so before it goes on. Live allocations are aggregated like samples. */
module ProfileExport {
  import opened Paths

  /** A sample, or the report of a number of events lost since the last cycle. */
  datatype Sample = Sample(id: nat) | LostReport(count: nat)

  datatype Thread =
    | NoThread
    | Started                    // created, has not read the worker state yet
    | Picked(i: nat)             // chose the profile to export
    | Numbered(i: nat, seqNo: nat)
    | Exited                     // finished, not joined yet

  datatype Shipped = Shipped(seqNo: nat, samples: seq<Sample>)

  datatype State = State(
    current: nat,                // profile being aggregated into: 0 or 1
    profiles: seq<seq<Sample>>,
    thread: Thread,
    exportError: bool,
    profileSeq: nat,
    lost: nat,
    stopped: bool,               // a cycle returned an error: the worker ends
    blocking: bool,              // the worker itself runs the export
    // history
    aggregated: seq<Sample>,
    exported: seq<Shipped>,
    totalLost: nat)

  predicate Init(s: State) {
    && s.current == 0 && s.profiles == [[], []] && s.thread == NoThread && !s.exportError && s.profileSeq == 0
    && s.lost == 0 && !s.stopped && !s.blocking && s.aggregated == [] && s.exported == [] && s.totalLost == 0
  }

  function Add(s: State, x: Sample): State
    requires s.current < |s.profiles|
  {
    s.(profiles := s.profiles[s.current := s.profiles[s.current] + [x]], aggregated := s.aggregated + [x])
  }

  ghost predicate AggregateStep(s: State, s': State, x: nat) {
    !s.stopped && !s.blocking && s.current < |s.profiles| && s' == Add(s, Sample(x))
  }

  ghost predicate LoseStep(s: State, s': State, n: nat) {
    !s.stopped && !s.blocking && s' == s.(lost := s.lost + n, totalLost := s.totalLost + n)
  }

  /** A cycle finds the previous thread still running and gives up. */
  ghost predicate TimeoutStep(s: State, s': State) {
    !s.stopped && !s.blocking && s.thread != NoThread && s' == s.(stopped := true)
  }

  /** A cycle joins the previous thread, or its own export is done; a failed export ends the worker. */
  ghost predicate JoinStep(s: State, s': State) {
    !s.stopped && s.thread == Exited && s' == s.(thread := NoThread, stopped := s.exportError, blocking := false)
  }

  /** The rest of the cycle: report lost events, switch profiles, clear the new one, start the
      thread or, for a synchronous export, do its work. */
  ghost predicate RotateStep(s: State, s': State, synchronous: bool) {
    && !s.stopped && !s.blocking && s.thread == NoThread && !s.exportError && s.current < |s.profiles|
    && var s1 := if s.lost > 0 then Add(s, LostReport(s.lost)).(lost := 0) else s;
    && var next := 1 - s1.current;
    && 0 <= next < |s1.profiles|
    && s' == s1.(current := next, profiles := s1.profiles[next := []], thread := Started, blocking := synchronous)
  }

  ghost predicate PickStep(s: State, s': State) {
    s.thread == Started && s.current <= 1 && s' == s.(thread := Picked(1 - s.current))
  }

  ghost predicate NumberStep(s: State, s': State) {
    s.thread.Picked? && s' == s.(thread := Numbered(s.thread.i, s.profileSeq), profileSeq := s.profileSeq + 1)
  }

  ghost predicate ShipStep(s: State, s': State, ok: bool) {
    && s.thread.Numbered? && s.thread.i < |s.profiles|
    && s' == if ok then s.(thread := Exited, exported := s.exported + [Shipped(s.thread.seqNo, s.profiles[s.thread.i])])
             else s.(thread := Exited, exportError := true)
  }

  ghost predicate Next(s: State, s': State) {
    || (exists x: nat :: AggregateStep(s, s', x))
    || (exists n: nat :: LoseStep(s, s', n))
    || TimeoutStep(s, s') || JoinStep(s, s') || RotateStep(s, s', true) || RotateStep(s, s', false)
    || PickStep(s, s') || NumberStep(s, s') || ShipStep(s, s', true) || ShipStep(s, s', false)
  }

  /** The profile a thread that is still at work exports, or will. */
  predicate Live(t: Thread) { t.Started? || t.Picked? || t.Numbered? }

  function Samples(exported: seq<Shipped>): seq<Sample> {
    if exported == [] then [] else Samples(exported[..|exported| - 1]) + exported[|exported| - 1].samples
  }

  function LostIn(xs: seq<Sample>): nat {
    if xs == [] then 0
    else LostIn(xs[..|xs| - 1]) + (if xs[|xs| - 1].LostReport? then xs[|xs| - 1].count else 0)
  }

  /** Where the aggregated samples are: shipped, being shipped, or in the profile being filled. */
  function Accounted(s: State): seq<Sample>
    requires s.current <= 1 && |s.profiles| == 2
  {
    Samples(s.exported) + (if Live(s.thread) then s.profiles[1 - s.current] else []) + s.profiles[s.current]
  }

  ghost predicate Inv(s: State) {
    && s.current <= 1 && |s.profiles| == 2
    && (s.thread.Picked? || s.thread.Numbered? ==> s.thread.i == 1 - s.current)
    && (s.thread.Numbered? ==> s.thread.seqNo + 1 == s.profileSeq)
    && (forall i, j :: 0 <= i < j < |s.exported| ==> s.exported[i].seqNo < s.exported[j].seqNo)
    && (forall i :: 0 <= i < |s.exported| ==> s.exported[i].seqNo < s.profileSeq)
    && (s.thread.Numbered? ==> forall i :: 0 <= i < |s.exported| ==> s.exported[i].seqNo < s.thread.seqNo)
    && (!s.exportError ==> s.aggregated == Accounted(s))
    && s.totalLost == s.lost + LostIn(s.aggregated)
    && (s.blocking ==> s.thread != NoThread)
  }

  lemma AddInv(s: State, x: Sample)
    requires Inv(s)
    ensures Inv(Add(s, x).(totalLost := s.totalLost + (if x.LostReport? then x.count else 0)))
  {
    hide Samples, LostIn;
    LostInSnoc(s.aggregated, x);
    assert Accounted(Add(s, x)) == Accounted(s) + [x];
  }

  lemma LostInSnoc(xs: seq<Sample>, x: Sample)
    ensures LostIn(xs + [x]) == LostIn(xs) + (if x.LostReport? then x.count else 0)
  {
    assert (xs + [x])[..|xs|] == xs;
  }

  lemma RotateInv(s: State, s': State, synchronous: bool)
    requires Inv(s) && RotateStep(s, s', synchronous)
    ensures Inv(s')
  {
    hide Samples, LostIn;
    var s1 := if s.lost > 0 then Add(s, LostReport(s.lost)).(lost := 0) else s;
    if s.lost > 0 { AddInv(s, LostReport(s.lost)); }
    assert Accounted(s') == Accounted(s1);
  }

  lemma ShipInv(s: State, s': State, ok: bool)
    requires Inv(s) && ShipStep(s, s', ok)
    ensures Inv(s')
  {
    if ok {
      assert s'.exported[..|s.exported|] == s.exported;
      assert Accounted(s') == Accounted(s);
    }
  }

  lemma NextInv(s: State, s': State)
    requires Inv(s) && Next(s, s')
    ensures Inv(s')
  {
    hide Samples, LostIn;
    if x: nat :| AggregateStep(s, s', x) { AddInv(s, Sample(x)); }
    else if RotateStep(s, s', true) { RotateInv(s, s', true); }
    else if RotateStep(s, s', false) { RotateInv(s, s', false); }
    else if ShipStep(s, s', true) { ShipInv(s, s', true); }
    else if ShipStep(s, s', false) { ShipInv(s, s', false); }
  }

  ghost predicate Run(ss: seq<State>) {
    && |ss| > 0 && Init(ss[0])
    && forall i, j :: 0 <= i < j < |ss| && j == i + 1 ==> Next(ss[i], ss[j])
  }

  lemma {:induction false} RunInv(ss: seq<State>, i: nat)
    requires Run(ss) && i < |ss|
    ensures Inv(ss[i])
  {
    if i > 0 {
      hide Inv, Next;
      RunInv(ss, i - 1);
      NextInv(ss[i - 1], ss[i]);
    }
  }

  /** In every run, a step made while an export thread is at work changes neither the profile it
      exports nor which profile that is. */
  lemma ExportedProfileUntouched(ss: seq<State>, i: nat)
    requires Run(ss) && i + 1 < |ss| && Live(ss[i].thread)
    ensures ss[i].current <= 1 && ss[i + 1].current == ss[i].current
    ensures |ss[i].profiles| == |ss[i + 1].profiles| == 2
    ensures ss[i + 1].profiles[1 - ss[i].current] == ss[i].profiles[1 - ss[i].current]
    ensures ss[i].thread.Picked? || ss[i].thread.Numbered? ==> ss[i].thread.i == 1 - ss[i].current
  {
    hide Samples, LostIn;
    RunInv(ss, i);
    assert Next(ss[i], ss[i + 1]);
  }

  /** In every run sequence numbers strictly increase, and without export errors every aggregated
      sample is, in order, in exactly one exported profile, in the one being exported, or in the one
      being filled; lost events are all reported or still counted. */
  lemma ExportedOnce(ss: seq<State>, i: nat)
    requires Run(ss) && i < |ss|
    ensures var s := ss[i];
            && s.current <= 1 && |s.profiles| == 2
            && (forall a, b :: 0 <= a < b < |s.exported| ==> s.exported[a].seqNo < s.exported[b].seqNo)
            && (!s.exportError ==> s.aggregated == Accounted(s))
            && s.totalLost == s.lost + LostIn(s.aggregated)
  {
    hide Run, Samples, LostIn;
    RunInv(ss, i);
  }

  /** In every run: a cycle that comes to its end leaves an empty profile to aggregate into. All samples so far,
      with a report of the events lost since the last cycle, are shipped or in the profile being shipped. */
  lemma CycleShips(ss: seq<State>, i: nat, s': State, synchronous: bool)
    requires Run(ss) && i < |ss| && RotateStep(ss[i], s', synchronous)
    ensures |s'.profiles| == 2 && s'.current <= 1 && s'.current == 1 - ss[i].current && s'.profiles[s'.current] == []
    ensures s'.aggregated == Samples(s'.exported) + s'.profiles[1 - s'.current] && s'.lost == 0
    ensures s'.aggregated == ss[i].aggregated + (if ss[i].lost > 0 then [LostReport(ss[i].lost)] else [])
  {
    hide Samples, LostIn, Run;
    RunInv(ss, i);
    RotateInv(ss[i], s', synchronous);
    assert Accounted(s') == Samples(s'.exported) + s'.profiles[1 - s'.current];
  }

  lemma {:induction false} StoppedForGood(ss: seq<State>, i: nat, j: nat)
    requires Run(ss) && i <= j < |ss| && ss[i].stopped
    ensures ss[j].stopped && ss[j].aggregated == ss[i].aggregated && ss[j].current == ss[i].current
    decreases j
  {
    if i < j {
      StoppedForGood(ss, i, j - 1);
      assert Next(ss[j - 1], ss[j]);
    }
  }

  /** In every run: once a failed export is noticed, or one that takes too long, the worker aggregates nothing
      any more and starts no further export. */
  lemma FailureEndsWorker(ss: seq<State>, i: nat, j: nat)
    requires Run(ss) && i < j < |ss|
    requires TimeoutStep(ss[i], ss[i + 1]) || (JoinStep(ss[i], ss[i + 1]) && ss[i].exportError)
    ensures ss[j].aggregated == ss[i].aggregated && ss[j].current == ss[i].current
  {
    hide Run;
    StoppedForGood(ss, i + 1, j);
  }

  // ----- progress -----

  ghost function Steps(): (State, State) -> bool { (s, s') => Next(s, s') }

  function StagesLeft(t: Thread): nat {
    match t
    case Started => 3
    case Picked(_) => 2
    case Numbered(_, _) => 1
    case _ => 0
  }

  lemma ExportNearer(s: State) returns (s': State)
    requires Inv(s) && Live(s.thread)
    ensures Next(s, s') && StagesLeft(s'.thread) < StagesLeft(s.thread)
    ensures s' == s.(thread := s'.thread, profileSeq := s'.profileSeq, exported := s'.exported)
    ensures if Live(s'.thread) then s'.exported == s.exported
            else s'.thread == Exited && Samples(s'.exported) == Samples(s.exported) + s.profiles[1 - s.current]
  {
    hide Samples, LostIn;
    match s.thread
    case Started =>
      s' := s.(thread := Picked(1 - s.current));
      assert PickStep(s, s');
    case Picked(i) =>
      s' := s.(thread := Numbered(i, s.profileSeq), profileSeq := s.profileSeq + 1);
      assert NumberStep(s, s');
    case Numbered(i, seqNo) =>
      s' := s.(thread := Exited, exported := s.exported + [Shipped(seqNo, s.profiles[i])]);
      assert ShipStep(s, s', true);
      SamplesSnoc(s.exported, Shipped(seqNo, s.profiles[i]));
  }

  /** The thread that exports never waits for the worker: from wherever it is it can come to its end, and ship
      the profile it was started for. */
  lemma {:induction false} ExportCanFinish(s: State) returns (s': State)
    requires Inv(s)
    ensures Reaches(Steps(), s, s') && Inv(s')
    ensures s' == s.(thread := s'.thread, profileSeq := s'.profileSeq, exported := s'.exported)
    ensures if Live(s.thread) then s'.thread == Exited && Samples(s'.exported) == Samples(s.exported) + s.profiles[1 - s.current]
            else s' == s
    decreases StagesLeft(s.thread)
  {
    hide Samples, LostIn, Reaches, Next;
    if Live(s.thread) {
      var s1 := ExportNearer(s);
      NextInv(s, s1);
      s' := ExportCanFinish(s1);
      Precede(Steps(), s, s1, s');
    } else {
      s' := s;
      Stays(Steps(), s);
    }
  }

  lemma SamplesSnoc(exported: seq<Shipped>, x: Shipped)
    ensures Samples(exported + [x]) == Samples(exported) + x.samples
  {
    assert (exported + [x])[..|exported|] == exported;
  }

  lemma JoinCanFollow(s: State) returns (s': State)
    requires Inv(s) && !s.stopped && !s.exportError && !Live(s.thread)
    ensures Reaches(Steps(), s, s') && Inv(s') && s' == s.(thread := NoThread, blocking := false)
  {
    hide Samples, LostIn;
    s' := s;
    Stays(Steps(), s);
    if s.thread == Exited {
      s' := s.(thread := NoThread, stopped := s.exportError, blocking := false);
      assert JoinStep(s, s');
      NextInv(s, s');
      Stays(Steps(), s');
      Precede(Steps(), s, s', s');
    }
  }

  lemma RotateCanFollow(s: State, synchronous: bool) returns (s': State)
    requires Inv(s) && !s.stopped && !s.exportError && s.thread == NoThread
    ensures Reaches(Steps(), s, s') && Inv(s') && RotateStep(s, s', synchronous)
  {
    hide Samples, LostIn;
    var s1 := if s.lost > 0 then Add(s, LostReport(s.lost)).(lost := 0) else s;
    s' := s1.(current := 1 - s1.current, profiles := s1.profiles[1 - s1.current := []], thread := Started,
              blocking := synchronous);
    assert RotateStep(s, s', synchronous);
    RotateInv(s, s', synchronous);
    Stays(Steps(), s');
    assert Next(s, s');
    Precede(Steps(), s, s', s');
  }

  /** Worker and export thread never block each other for good. While no export has failed, every reachable state
      leads on to one in which all samples so far, and a report of all events lost so far, are shipped. */
  lemma EverythingCanShip(ss: seq<State>, n: nat, synchronous: bool) returns (s': State)
    requires Run(ss) && n < |ss| && !ss[n].stopped && !ss[n].exportError
    ensures Reaches(Steps(), ss[n], s') && s'.thread == Exited && !s'.stopped && !s'.exportError
    ensures Samples(s'.exported) == s'.aggregated && s'.lost == 0 && LostIn(s'.aggregated) == ss[n].totalLost
    ensures s'.aggregated == ss[n].aggregated + (if ss[n].lost > 0 then [LostReport(ss[n].lost)] else [])
  {
    hide Samples, LostIn, Run, Reaches;
    RunInv(ss, n);
    var s0 := ss[n];
    var s1 := ExportCanFinish(s0);
    var s2 := JoinCanFollow(s1);
    Joined(Steps(), s0, s1, s2);
    var s3 := RotateCanFollow(s2, synchronous);
    Joined(Steps(), s0, s2, s3);
    s' := ExportCanFinish(s3);
    Joined(Steps(), s0, s3, s');
    assert Accounted(s') == Samples(s'.exported);
  }

  /** Unless it exports itself or has ended, the worker can take in any sample, count any loss and give up on
      an export that takes too long. */
  lemma WorkerGoesOn(s: State, x: nat, n: nat)
    requires Inv(s) && !s.stopped && !s.blocking
    ensures exists s' :: Next(s, s') && s'.aggregated == s.aggregated + [Sample(x)]
    ensures exists s' :: Next(s, s') && s'.totalLost == s.totalLost + n && s'.lost == s.lost + n
    ensures s.thread != NoThread ==> exists s' :: Next(s, s') && s'.stopped && s'.thread == s.thread
  {
    hide Samples, LostIn;
    assert AggregateStep(s, Add(s, Sample(x)), x);
    assert LoseStep(s, s.(lost := s.lost + n, totalLost := s.totalLost + n), n);
    if s.thread != NoThread { assert TimeoutStep(s, s.(stopped := true)); }
  }
}
