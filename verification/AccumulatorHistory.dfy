/**
  The accumulators told from the schedule alone: a scan takes four steps, and everything a
  state holds follows from which records, rounds and steps came before.
*/
module AccumulatorHistory {
  import opened Accumulators

  // How many of its four steps a client has taken in the scan under way: copy the records,
  // copy the map, clear the records, clear the map.
  function Phase(schedule: seq<Action>, c: Client): (p: nat)
    ensures p < 4
    decreases |schedule|
  {
    if schedule == [] then 0
    else
      var before := Phase(schedule[..|schedule| - 1], c);
      if schedule[|schedule| - 1] != ScanStep(c) then before else if before == 3 then 0 else before + 1
  }

  // The last action is the step of a scan that has taken this many steps before.
  predicate Takes(schedule: seq<Action>, phase: nat) {
    && schedule != [] && schedule[|schedule| - 1].ScanStep?
    && Phase(schedule[..|schedule| - 1], schedule[|schedule| - 1].client) == phase
  }

  // How many records the clears have removed, and how many rounds.
  function ClearedBy(schedule: seq<Action>): nat
    decreases |schedule|
  {
    if schedule == [] then 0
    else
      var before := schedule[..|schedule| - 1];
      if Takes(schedule, 2) then |RecordsOf(before)| else ClearedBy(before)
  }

  function ForgottenBy(schedule: seq<Action>): nat
    decreases |schedule|
  {
    if schedule == [] then 0
    else
      var before := schedule[..|schedule| - 1];
      if Takes(schedule, 3) then |RoundsOf(before)| else ForgottenBy(before)
  }

  lemma {:induction false} InputBounds(schedule: seq<Action>)
    ensures ClearedBy(schedule) <= |RecordsOf(schedule)| && ForgottenBy(schedule) <= |RoundsOf(schedule)|
    decreases |schedule|
  {
    if schedule != [] {
      InputBounds(schedule[..|schedule| - 1]);
    }
  }

  // The records that the latest scan of this client copied, with their position.
  function CopiedBy(schedule: seq<Action>, c: Client): Copy
    decreases |schedule|
  {
    if schedule == [] then Copy(0, [])
    else
      var before := schedule[..|schedule| - 1];
      if Takes(schedule, 0) && schedule[|schedule| - 1].client == c then
        InputBounds(before);
        Copy(ClearedBy(before), RecordsOf(before)[ClearedBy(before)..])
      else CopiedBy(before, c)
  }

  // The rounds that it saw in the map it copied: from one position to another.
  function SeenBy(schedule: seq<Action>, c: Client): (nat, nat)
    decreases |schedule|
  {
    if schedule == [] then (0, 0)
    else
      var before := schedule[..|schedule| - 1];
      if Takes(schedule, 1) && schedule[|schedule| - 1].client == c then (ForgottenBy(before), |RoundsOf(before)|)
      else SeenBy(before, c)
  }

  // What the replies hold, in the order of the clears.
  function CopiesIn(schedule: seq<Action>): seq<Copy>
    decreases |schedule|
  {
    if schedule == [] then []
    else
      var before := schedule[..|schedule| - 1];
      CopiesIn(before) + if Takes(schedule, 2) then [CopiedBy(before, schedule[|schedule| - 1].client)] else []
  }

  function MapsIn(schedule: seq<Action>): seq<(nat, nat)>
    decreases |schedule|
  {
    if schedule == [] then []
    else
      var before := schedule[..|schedule| - 1];
      MapsIn(before) + if Takes(schedule, 3) then [SeenBy(before, schedule[|schedule| - 1].client)] else []
  }

  function Packets(copies: seq<Copy>): seq<string>
    decreases |copies|
  {
    if copies == [] then [] else Packets(copies[..|copies| - 1]) + copies[|copies| - 1].packets
  }

  // ------------------------------------------------------------------
  // The states of a run
  // ------------------------------------------------------------------

  // Where a client stands after some steps of its scan.
  ghost predicate StandsAt(pc: Pc, phase: nat, copied: Copy, seen: (nat, nat)) {
    match phase
    case 0 => pc == Outside
    case 1 => pc == HasPackets(copied)
    case 2 => pc.HasBoth? && pc.copy == copied && (pc.taken.start, pc.taken.end) == seen
    case _ => pc.ClearedPackets? && (pc.taken.start, pc.taken.end) == seen
  }

  ghost predicate ClientsStand(schedule: seq<Action>) {
    forall c: Client :: StandsAt(PcOf(Run(schedule), c), Phase(schedule, c), CopiedBy(schedule, c), SeenBy(schedule, c))
  }

  ghost predicate Pending(schedule: seq<Action>) {
    var s := Run(schedule);
    && ClearedBy(schedule) <= |RecordsOf(schedule)|
    && s.cleared == RecordsOf(schedule)[..ClearedBy(schedule)]
    && s.packets == RecordsOf(schedule)[ClearedBy(schedule)..]
    && s.forgotten == ForgottenBy(schedule) && s.merged == RoundsOf(schedule)
  }

  function Bounds(maps: seq<MapCopy>): (r: seq<(nat, nat)>)
    ensures |r| == |maps| && forall i :: 0 <= i < |r| ==> r[i] == (maps[i].start, maps[i].end)
  {
    seq(|maps|, i requires 0 <= i < |maps| => (maps[i].start, maps[i].end))
  }

  ghost predicate Delivered(schedule: seq<Action>) {
    var s := Run(schedule);
    && s.copies == CopiesIn(schedule) && s.delivered == Packets(s.copies) && Bounds(s.maps) == MapsIn(schedule)
  }

  lemma {:induction false} StepStands(schedule: seq<Action>, c: Client)
    requires schedule != []
    requires var before := schedule[..|schedule| - 1];
             Pending(before) && StandsAt(PcOf(Run(before), c), Phase(before, c), CopiedBy(before, c), SeenBy(before, c))
    ensures StandsAt(PcOf(Run(schedule), c), Phase(schedule, c), CopiedBy(schedule, c), SeenBy(schedule, c))
  {
    var before, a := schedule[..|schedule| - 1], schedule[|schedule| - 1];
    if a != ScanStep(c) {
      assert PcOf(Run(schedule), c) == PcOf(Run(before), c);
    }
  }

  // What a clear takes with it, told from the schedule.
  ghost predicate Holds(schedule: seq<Action>, c: Client) {
    var pc := PcOf(Run(schedule), c);
    && (pc.HasBoth? <==> Phase(schedule, c) == 2) && (pc.ClearedPackets? <==> Phase(schedule, c) == 3)
    && (pc.HasBoth? ==> pc.copy == CopiedBy(schedule, c))
    && (pc.ClearedPackets? ==> (pc.taken.start, pc.taken.end) == SeenBy(schedule, c))
  }

  lemma {:induction false} StandHolds(schedule: seq<Action>, c: Client)
    requires ClientsStand(schedule)
    ensures Holds(schedule, c)
  {
    assert StandsAt(PcOf(Run(schedule), c), Phase(schedule, c), CopiedBy(schedule, c), SeenBy(schedule, c));
  }

  lemma {:induction false} StepPending(schedule: seq<Action>)
    requires schedule != [] && Pending(schedule[..|schedule| - 1])
    requires var a := schedule[|schedule| - 1]; a.ScanStep? ==> Holds(schedule[..|schedule| - 1], a.client)
    ensures Pending(schedule)
  {
    var before, a := schedule[..|schedule| - 1], schedule[|schedule| - 1];
    var records, n := RecordsOf(before), ClearedBy(before);
    assert records[..n] + records[n..] == records;
    if a.ScanStep? {
      assert records[..|records|] == records && records[|records|..] == [];
    } else if a.Append? {
      assert (records + [a.record])[..n] == records[..n] && (records + [a.record])[n..] == records[n..] + [a.record];
    }
  }

  lemma {:induction false} StepDelivered(schedule: seq<Action>)
    requires schedule != [] && Delivered(schedule[..|schedule| - 1])
    requires var a := schedule[|schedule| - 1]; a.ScanStep? ==> Holds(schedule[..|schedule| - 1], a.client)
    ensures Delivered(schedule)
  {
    var before, a := schedule[..|schedule| - 1], schedule[|schedule| - 1];
    if a.ScanStep? {
      ScanDelivers(Run(before), a.client);
    } else {
      OthersDeliver(Run(before), a);
    }
  }

  lemma OthersDeliver(s: State, a: Action)
    requires !a.ScanStep?
    ensures var s' := Do(s, a); s'.copies == s.copies && s'.delivered == s.delivered && s'.maps == s.maps
  {
  }

  // What one step of a scan adds to the replies.
  lemma ScanDelivers(s: State, c: Client)
    requires s.delivered == Packets(s.copies)
    ensures var s', pc := Do(s, ScanStep(c)), PcOf(s, c);
            && s'.copies == s.copies + (if pc.HasBoth? then [pc.copy] else [])
            && s'.delivered == Packets(s'.copies)
            && Bounds(s'.maps) == Bounds(s.maps) + if pc.ClearedPackets? then [(pc.taken.start, pc.taken.end)] else []
  {
    var pc := PcOf(s, c);
    if pc.HasBoth? {
      assert (s.copies + [pc.copy])[..|s.copies|] == s.copies;
    } else {
      assert s.copies + [] == s.copies;
    }
  }

  // Main result: in every run the pending records, the replies and the rounds behind each
  // delivered map are what the schedule says.
  lemma {:induction false} RunIsHistory(schedule: seq<Action>)
    ensures Pending(schedule) && Delivered(schedule) && ClientsStand(schedule)
    decreases |schedule|
  {
    if schedule != [] {
      var before := schedule[..|schedule| - 1];
      RunIsHistory(before);
      if schedule[|schedule| - 1].ScanStep? {
        StandHolds(before, schedule[|schedule| - 1].client);
      }
      StepPending(schedule);
      StepDelivered(schedule);
      forall c: Client
        ensures StandsAt(PcOf(Run(schedule), c), Phase(schedule, c), CopiedBy(schedule, c), SeenBy(schedule, c))
      {
        assert StandsAt(PcOf(Run(before), c), Phase(before, c), CopiedBy(before, c), SeenBy(before, c));
        StepStands(schedule, c);
      }
    }
  }

  // ------------------------------------------------------------------
  // Turns and scans without interruption
  // ------------------------------------------------------------------

  ghost function Continue(s: State, more: seq<Action>): State
    decreases |more|
  {
    if more == [] then s else Do(Continue(s, more[..|more| - 1]), more[|more| - 1])
  }

  // The steps of one turn of the periodic loop.
  function RoundSteps(records: seq<string>, round: map<string, string>): seq<Action> {
    Appends(records) + [Merge(round)]
  }

  function Appends(records: seq<string>): (r: seq<Action>)
    ensures |r| == |records| && forall i :: 0 <= i < |r| ==> r[i] == Append(records[i])
  {
    seq(|records|, i requires 0 <= i < |records| => Append(records[i]))
  }

  lemma {:induction false} AppendsArrive(s: State, records: seq<string>)
    ensures var s' := Continue(s, Appends(records));
            s'.packets == s.packets + records && s'.spoofing == s.spoofing && s'.pcs == s.pcs
    decreases |records|
  {
    if records != [] {
      var init := records[..|records| - 1];
      assert Appends(records)[..|records| - 1] == Appends(init);
      AppendsArrive(s, init);
      assert s.packets + records == s.packets + init + [records[|records| - 1]];
    }
  }

  // A turn that no scan interrupts does what PeriodicResults.PeriodicRound does.
  lemma {:induction false} RoundAlone(s: State, records: seq<string>, round: map<string, string>)
    ensures var s' := Continue(s, RoundSteps(records, round));
            && s'.packets == s.packets + records && s'.pcs == s.pcs
            && s'.spoofing.Keys == s.spoofing.Keys + round.Keys
            && forall ip :: ip in s'.spoofing ==>
                 s'.spoofing[ip] == if ip in s.spoofing then s.spoofing[ip] else round[ip]
  {
    AppendsArrive(s, records);
    var s1, steps := Continue(s, Appends(records)), RoundSteps(records, round);
    assert steps[..|steps| - 1] == Appends(records) && steps[|steps| - 1] == Merge(round);
    MergeAlone(s1, round);
  }

  lemma MergeAlone(s: State, round: map<string, string>)
    ensures var s' := Do(s, Merge(round));
            && s'.packets == s.packets && s'.pcs == s.pcs && s'.spoofing.Keys == s.spoofing.Keys + round.Keys
            && forall ip :: ip in s'.spoofing ==>
                 s'.spoofing[ip] == if ip in s.spoofing then s.spoofing[ip] else round[ip]
  {
  }

  // A scan that nothing interrupts does what PeriodicResults.TakeResults does.
  lemma ScanAlone(s: State, c: Client)
    requires PcOf(s, c) == Outside
    ensures var s' := Do(Do(Do(Do(s, ScanStep(c)), ScanStep(c)), ScanStep(c)), ScanStep(c));
            && s'.packets == [] && s'.spoofing == map[] && PcOf(s', c) == Outside
            && s'.delivered == s.delivered + s.packets
            && |s'.maps| == |s.maps| + 1 && s'.maps[|s.maps|].spoofing == s.spoofing
  {
    var s1 := Do(s, ScanStep(c));
    assert PcOf(s1, c) == HasPackets(Copy(|s.cleared|, s.packets)) && s1.spoofing == s.spoofing;
    var s2 := Do(s1, ScanStep(c));
    assert PcOf(s2, c) == HasBoth(Copy(|s.cleared|, s.packets), MapCopy(s.forgotten, |s.merged|, s.spoofing));
    var s3 := Do(s2, ScanStep(c));
    assert PcOf(s3, c) == ClearedPackets(MapCopy(s.forgotten, |s.merged|, s.spoofing));
  }
}
