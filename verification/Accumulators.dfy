/**
  The two static accumulators of the backend: the periodic thread appends packet records and
  merges spoofing rounds, and the scan requests of clients copy both and then clear both.
*/
module Accumulators {
  import opened Options

  type Client = nat

  // A copy of the pending packet records.  `start` is the number of records that had been
  // cleared when it was made, so it is the position of the copy in everything appended.
  datatype Copy = Copy(start: nat, packets: seq<string>) {
    function End(): nat {
      start + |packets|
    }
  }

  // A copy of the spoofing map.  Of all rounds ever merged, the clears had removed the first
  // `start` when it was made, and `end` had been merged.
  datatype MapCopy = MapCopy(start: nat, end: nat, spoofing: map<string, string>)

  // Where a quick or full scan stands.
  datatype Pc =
    | Outside
    | HasPackets(copy: Copy)   // packetsResults copied
    | HasBoth(copy: Copy, taken: MapCopy)
    | ClearedPackets(taken: MapCopy)

  datatype State = State(
    packets: seq<string>, spoofing: map<string, string>, pcs: map<Client, Pc>,
    appended: seq<string>,     // everything the periodic thread ever appended
    delivered: seq<string>,    // packet records in replies, once their scan has cleared
    copies: seq<Copy>,         // the copies they came in
    cleared: seq<string>,      // the appended records that some clear has removed
    lost: nat,                 // how many of them were appended between a scan's copy and its clear
    late: seq<string>,         // pending records appended since the copy of the scan under way
    merged: seq<map<string, string>>,  // every spoofing round ever merged
    forgotten: nat,            // how many of them some clear has removed
    maps: seq<MapCopy>)        // the spoofing maps in replies, once their scan has cleared

  datatype Action =
    | Append(record: string)
    | Merge(round: map<string, string>)
    | ScanStep(client: Client)

  const INIT := State([], map[], map[], [], [], [], [], 0, [], [], 0, [])

  function PcOf(s: State, c: Client): Pc {
    if c in s.pcs then s.pcs[c] else Outside
  }

  // std::map::insert of a range keeps the entries that are there.
  function Insert(m: map<string, string>, round: map<string, string>): map<string, string> {
    round + m
  }

  ghost predicate Copying(pc: Pc) {
    pc.HasPackets? || pc.HasBoth?
  }

  ghost predicate InWindow(s: State) {
    exists c: Client :: Copying(PcOf(s, c))
  }

  ghost function Do(s: State, a: Action): State {
    match a
    case Append(record) =>
      s.(packets := s.packets + [record], appended := s.appended + [record],
         late := if InWindow(s) then s.late + [record] else [])
    case Merge(round) => s.(spoofing := Insert(s.spoofing, round), merged := s.merged + [round])
    case ScanStep(c) =>
      match PcOf(s, c)
      case Outside => s.(pcs := s.pcs[c := HasPackets(Copy(|s.cleared|, s.packets))])
      case HasPackets(copy) => s.(pcs := s.pcs[c := HasBoth(copy, MapCopy(s.forgotten, |s.merged|, s.spoofing))])
      case HasBoth(copy, taken) =>
        s.(pcs := s.pcs[c := ClearedPackets(taken)], packets := [], delivered := s.delivered + copy.packets,
           copies := s.copies + [copy], cleared := s.cleared + s.packets, lost := s.lost + |s.late|, late := [])
      case ClearedPackets(taken) =>
        s.(pcs := s.pcs[c := Outside], spoofing := map[], forgotten := |s.merged|, maps := s.maps + [taken])
  }

  ghost function Run(schedule: seq<Action>): State
    decreases |schedule|
  {
    if schedule == [] then INIT else Do(Run(schedule[..|schedule| - 1]), schedule[|schedule| - 1])
  }

  // What the periodic thread hands over in a schedule.
  function RecordsOf(schedule: seq<Action>): seq<string>
    decreases |schedule|
  {
    if schedule == [] then []
    else
      var a := schedule[|schedule| - 1];
      RecordsOf(schedule[..|schedule| - 1]) + if a.Append? then [a.record] else []
  }

  function RoundsOf(schedule: seq<Action>): seq<map<string, string>>
    decreases |schedule|
  {
    if schedule == [] then []
    else
      var a := schedule[|schedule| - 1];
      RoundsOf(schedule[..|schedule| - 1]) + if a.Merge? then [a.round] else []
  }

  // Main result: every record and every round arrives, in order.
  lemma {:induction false} InputsArrive(schedule: seq<Action>)
    ensures Run(schedule).appended == RecordsOf(schedule) && Run(schedule).merged == RoundsOf(schedule)
    decreases |schedule|
  {
    if schedule != [] {
      InputsArrive(schedule[..|schedule| - 1]);
    }
  }

  // A scan starts copying only when no other scan is between its copy and its clear.
  ghost predicate OneScanAtATime(schedule: seq<Action>)
    decreases |schedule|
  {
    schedule == []
    || (var before, a := schedule[..|schedule| - 1], schedule[|schedule| - 1];
        && OneScanAtATime(before)
        && (a.ScanStep? && PcOf(Run(before), a.client).Outside? ==> !InWindow(Run(before))))
  }

  // ------------------------------------------------------------------
  // Subsequences
  // ------------------------------------------------------------------

  predicate Subsequence(a: seq<string>, b: seq<string>)
    decreases |b|
  {
    || a == []
    || (b != [] && a[|a| - 1] == b[|b| - 1] && Subsequence(a[..|a| - 1], b[..|b| - 1]))
    || (b != [] && Subsequence(a, b[..|b| - 1]))
  }

  lemma {:induction false} SubsequenceExtends(a: seq<string>, b: seq<string>, more: seq<string>)
    requires Subsequence(a, b)
    ensures Subsequence(a + more, b + more) && Subsequence(a, b + more)
    decreases |more|
  {
    if more == [] {
      assert a + more == a && b + more == b;
    } else {
      var init := more[..|more| - 1];
      SubsequenceExtends(a, b, init);
      assert (a + more)[..|a + more| - 1] == a + init && (b + more)[..|b + more| - 1] == b + init;
    }
  }

  lemma {:induction false} SubsequenceSize(a: seq<string>, b: seq<string>)
    requires Subsequence(a, b)
    ensures |a| <= |b| && (|a| == |b| ==> a == b)
    decreases |b|
  {
    if a != [] {
      var b' := b[..|b| - 1];
      if a[|a| - 1] == b[|b| - 1] && Subsequence(a[..|a| - 1], b') {
        SubsequenceSize(a[..|a| - 1], b');
        assert a == a[..|a| - 1] + [a[|a| - 1]] && b == b' + [b[|b| - 1]];
      } else {
        SubsequenceSize(a, b');
      }
    }
  }

  // ------------------------------------------------------------------
  // Conservation
  // ------------------------------------------------------------------

  ghost predicate Exclusive(s: State) {
    forall c: Client, d: Client :: Copying(PcOf(s, c)) && Copying(PcOf(s, d)) ==> c == d
  }

  // A copy under way has the pending records but for the late ones.
  ghost predicate CopiesPending(s: State) {
    && (!InWindow(s) ==> s.late == [])
    && (forall c: Client :: Copying(PcOf(s, c)) ==> PcOf(s, c).copy.packets + s.late == s.packets)
  }

  // Every record is cleared or pending; the cleared ones were delivered or lost.
  ghost predicate Balanced(s: State) {
    && s.appended == s.cleared + s.packets
    && Subsequence(s.delivered, s.cleared)
    && |s.delivered| + s.lost == |s.cleared|
  }

  ghost predicate Conserved(s: State) {
    Exclusive(s) && CopiesPending(s) && Balanced(s)
  }

  lemma Regroup(a: seq<string>, b: seq<string>, c: seq<string>)
    ensures (a + b) + c == a + (b + c)
  {
  }

  lemma AppendConserves(s: State, record: string)
    requires Conserved(s)
    ensures Conserved(Do(s, Append(record)))
  {
    var s' := Do(s, Append(record));
    Regroup(s.cleared, s.packets, [record]);
    forall c: Client
      ensures PcOf(s', c) == PcOf(s, c)
      ensures Copying(PcOf(s, c)) ==> InWindow(s) && PcOf(s', c).copy.packets + s'.late == s'.packets
    {
      if Copying(PcOf(s, c)) {
        Regroup(PcOf(s, c).copy.packets, s.late, [record]);
      }
    }
    assert InWindow(s) ==> InWindow(s') by {
      if InWindow(s) {
        var c: Client :| Copying(PcOf(s, c));
        assert Copying(PcOf(s', c));
      }
    }
  }

  lemma ClearConserves(s: State, c: Client)
    requires Conserved(s) && PcOf(s, c).HasBoth?
    ensures Conserved(Do(s, ScanStep(c)))
  {
    var s', copied := Do(s, ScanStep(c)), PcOf(s, c).copy.packets;
    assert Copying(PcOf(s, c));
    forall d: Client
      ensures !Copying(PcOf(s', d))
    {
      assert d != c ==> PcOf(s', d) == PcOf(s, d);
    }
    SubsequenceExtends(s.delivered, s.cleared, copied);
    SubsequenceExtends(s.delivered + copied, s.cleared + copied, s.late);
    Regroup(s.cleared, copied, s.late);
    assert s'.appended == s'.cleared + [];
  }

  lemma OtherConserves(s: State, a: Action)
    requires Conserved(s) && !a.Append? && (a.ScanStep? ==> !PcOf(s, a.client).HasBoth?)
    requires a.ScanStep? && PcOf(s, a.client).Outside? ==> !InWindow(s)
    ensures Conserved(Do(s, a))
  {
    var s' := Do(s, a);
    if a.ScanStep? {
      forall d: Client
        ensures d != a.client ==> PcOf(s', d) == PcOf(s, d)
      {
      }
      if PcOf(s, a.client).Outside? {
        assert forall d: Client :: !Copying(PcOf(s, d));
      }
      if PcOf(s, a.client).HasPackets? {
        assert Copying(PcOf(s', a.client)) && Copying(PcOf(s, a.client));
      }
      if InWindow(s) && PcOf(s, a.client).ClearedPackets? {
        var d: Client :| Copying(PcOf(s, d));
        assert Copying(PcOf(s', d));
      }
    } else {
      assert forall d: Client :: PcOf(s', d) == PcOf(s, d);
    }
  }

  lemma {:induction false} RunConserves(schedule: seq<Action>)
    requires OneScanAtATime(schedule)
    ensures Conserved(Run(schedule))
    decreases |schedule|
  {
    if schedule != [] {
      var before, a := schedule[..|schedule| - 1], schedule[|schedule| - 1];
      RunConserves(before);
      ActionConserves(Run(before), a);
    }
  }

  lemma ActionConserves(s: State, a: Action)
    requires Conserved(s)
    requires a.ScanStep? && PcOf(s, a.client).Outside? ==> !InWindow(s)
    ensures Conserved(Do(s, a))
  {
    if a.Append? {
      AppendConserves(s, a.record);
    } else if a.ScanStep? && PcOf(s, a.client).HasBoth? {
      ClearConserves(s, a.client);
    } else {
      OtherConserves(s, a);
    }
  }

  // How many records the schedule appends between the copy and the clear of some scan.
  ghost function WindowAppends(schedule: seq<Action>): nat
    decreases |schedule|
  {
    if schedule == [] then 0
    else
      var before := schedule[..|schedule| - 1];
      WindowAppends(before) + if schedule[|schedule| - 1].Append? && InWindow(Run(before)) then 1 else 0
  }

  lemma {:induction false} LostAreWindowAppends(schedule: seq<Action>)
    requires OneScanAtATime(schedule)
    ensures Run(schedule).lost + |Run(schedule).late| == WindowAppends(schedule)
    decreases |schedule|
  {
    if schedule != [] {
      var before := schedule[..|schedule| - 1];
      LostAreWindowAppends(before);
      RunConserves(before);
    }
  }

  // Main result: however the periodic thread interleaves with scans that do not overlap
  // each other, the records delivered followed by those pending are a subsequence of the
  // records appended.  When no scan is under way they are all of them exactly if no record
  // was appended between the copy and the clear of a scan; during a scan the records
  // appended since its own copy do not count.
  lemma AccumulatorConservation(schedule: seq<Action>)
    requires OneScanAtATime(schedule)
    ensures var s := Run(schedule);
            && Subsequence(s.delivered + s.packets, s.appended)
            && (s.delivered + s.packets == s.appended <==> WindowAppends(schedule) == |s.late|)
            && (!InWindow(s) ==> s.late == [])
  {
    RunConserves(schedule);
    LostAreWindowAppends(schedule);
    var s := Run(schedule);
    SubsequenceExtends(s.delivered, s.cleared, s.packets);
    SubsequenceSize(s.delivered + s.packets, s.appended);
  }

  // ------------------------------------------------------------------
  // Delivered once, with scans that overlap in any way
  // ------------------------------------------------------------------

  // The copies that have been made and not dropped.
  ghost predicate Made(s: State, x: Copy) {
    x in s.copies || exists c: Client :: Copying(PcOf(s, c)) && PcOf(s, c).copy == x
  }

  // A copy is a piece of everything appended, and the next clear moves past its end.
  ghost predicate CopyOk(s: State, x: Copy) {
    && x.start <= |s.cleared|
    && (x.start < |s.cleared| ==> x.End() <= |s.cleared|)
    && x.End() <= |s.appended|
    && x.packets == s.appended[x.start..x.End()]
  }

  ghost predicate Ordered(x: Copy, y: Copy) {
    x.start < y.start ==> x.End() <= y.start
  }

  ghost predicate CopiesOk(s: State) {
    && s.appended == s.cleared + s.packets
    && (forall x :: Made(s, x) ==> CopyOk(s, x))
    && (forall x :: x in s.copies ==> x.End() <= |s.cleared|)
    && (forall x, y :: Made(s, x) && Made(s, y) ==> Ordered(x, y))
  }

  lemma MadeAfter(s: State, a: Action, x: Copy)
    requires Made(Do(s, a), x)
    ensures Made(s, x) || (a.ScanStep? && PcOf(s, a.client).Outside? && x == Copy(|s.cleared|, s.packets))
  {
    var s' := Do(s, a);
    if x in s'.copies && x !in s.copies {
      assert Copying(PcOf(s, a.client)) && PcOf(s, a.client).copy == x;
    } else if x !in s.copies {
      var c: Client :| Copying(PcOf(s', c)) && PcOf(s', c).copy == x;
      assert (a.ScanStep? && c == a.client) || PcOf(s', c) == PcOf(s, c);
    }
  }

  lemma CopyStays(s: State, a: Action, x: Copy)
    requires s.appended == s.cleared + s.packets && CopyOk(s, x)
    ensures CopyOk(Do(s, a), x)
  {
    if a.Append? {
      assert (s.appended + [a.record])[x.start..x.End()] == s.appended[x.start..x.End()];
    }
  }

  lemma ActionCopies(s: State, a: Action)
    requires CopiesOk(s)
    ensures CopiesOk(Do(s, a))
  {
    var s' := Do(s, a);
    var latest := Copy(|s.cleared|, s.packets);
    assert CopyOk(s, latest);
    forall x | Made(s', x)
      ensures x.start <= |s.cleared| && CopyOk(s, x) && CopyOk(s', x)
    {
      MadeAfter(s, a, x);
      CopyStays(s, a, x);
    }
    forall x, y | Made(s', x) && Made(s', y)
      ensures Ordered(x, y)
    {
      MadeAfter(s, a, x);
      MadeAfter(s, a, y);
    }
    Regroup(s.cleared, s.packets, if a.Append? then [a.record] else []);
  }

  lemma {:induction false} RunCopies(schedule: seq<Action>)
    ensures CopiesOk(Run(schedule))
    decreases |schedule|
  {
    if schedule != [] {
      RunCopies(schedule[..|schedule| - 1]);
      ActionCopies(Run(schedule[..|schedule| - 1]), schedule[|schedule| - 1]);
    }
  }

  function Span(x: Copy): (r: seq<nat>)
    ensures |r| == |x.packets| && forall i :: 0 <= i < |r| ==> r[i] == x.start + i
  {
    seq(|x.packets|, i requires 0 <= i < |x.packets| => x.start + i)
  }

  // Which of the appended records were delivered, by position, in the order of delivery.
  function Spans(copies: seq<Copy>): seq<nat>
    decreases |copies|
  {
    if copies == [] then [] else Spans(copies[..|copies| - 1]) + Span(copies[|copies| - 1])
  }

  predicate NoRepeats(a: seq<nat>) {
    forall i, j :: 0 <= i < j < |a| ==> a[i] != a[j]
  }

  predicate Increasing(a: seq<nat>) {
    forall i, j :: 0 <= i < j < |a| ==> a[i] < a[j]
  }

  // Two copies with records in them started at the same position.
  predicate SameStart(x: Copy, y: Copy) {
    x.packets != [] && y.packets != [] && x.start == y.start
  }

  predicate Rising(x: Copy, y: Copy) {
    x.packets != [] && y.packets != [] ==> x.start < y.start
  }

  ghost predicate AllOrdered(copies: seq<Copy>) {
    forall x, y :: x in copies && y in copies ==> Ordered(x, y)
  }

  lemma {:induction false} SpansMember(copies: seq<Copy>, m: nat)
    ensures m in Spans(copies) <==> exists x :: x in copies && x.start <= m < x.End()
    decreases |copies|
  {
    if copies != [] {
      var init, last := copies[..|copies| - 1], copies[|copies| - 1];
      assert copies == init + [last];
      SpansMember(init, m);
      SpanMember(last, m);
    }
  }

  lemma SpanMember(x: Copy, m: nat)
    ensures m in Span(x) <==> x.start <= m < x.End()
  {
    if x.start <= m < x.End() {
      assert Span(x)[m - x.start] == m;
    }
  }

  lemma NoRepeatsAppend(a: seq<nat>, b: seq<nat>)
    ensures NoRepeats(a + b) <==> NoRepeats(a) && NoRepeats(b) && forall m :: m in a ==> m !in b
  {
    var ab := a + b;
    if NoRepeats(a) && NoRepeats(b) && forall m :: m in a ==> m !in b {
      forall i, j | 0 <= i < j < |ab|
        ensures ab[i] != ab[j]
      {
        assert ab[i] == (if i < |a| then a[i] else b[i - |a|]) && ab[j] == if j < |a| then a[j] else b[j - |a|];
        assert i < |a| ==> ab[i] in a;
      }
    }
    if NoRepeats(ab) {
      assert forall i :: 0 <= i < |a| ==> a[i] == ab[i];
      assert forall i :: 0 <= i < |b| ==> b[i] == ab[|a| + i];
      forall m | m in a
        ensures m !in b
      {
        var i :| 0 <= i < |a| && a[i] == m;
        assert ab[i] == m;
      }
    }
  }

  // No position is in two copies unless they started at the same one.
  predicate NoSameStart(copies: seq<Copy>) {
    forall i, j :: 0 <= i < j < |copies| ==> !SameStart(copies[i], copies[j])
  }

  lemma {:induction false} NoRepeatsIff(copies: seq<Copy>)
    requires AllOrdered(copies)
    ensures NoRepeats(Spans(copies)) <==> NoSameStart(copies)
    decreases |copies|
  {
    if copies != [] {
      var init, last := copies[..|copies| - 1], copies[|copies| - 1];
      assert copies == init + [last];
      NoRepeatsIff(init);
      NoRepeatsAppend(Spans(init), Span(last));
      LastMeets(init, last);
      assert NoSameStart(copies) <==> NoSameStart(init) && forall x :: x in init ==> !SameStart(x, last);
    }
  }

  lemma LastMeets(init: seq<Copy>, last: Copy)
    requires forall x :: x in init ==> Ordered(x, last) && Ordered(last, x)
    ensures (forall m :: m in Spans(init) ==> m !in Span(last)) <==> forall x :: x in init ==> !SameStart(x, last)
  {
    forall m | m in Spans(init) && m in Span(last)
      ensures exists x :: x in init && SameStart(x, last)
    {
      SpansMember(init, m);
      SpanMember(last, m);
      var x :| x in init && x.start <= m < x.End();
      assert SameStart(x, last);
    }
    if x :| x in init && SameStart(x, last) {
      SpansMember(init, x.start);
      SpanMember(last, x.start);
    }
  }

  // Records found at these positions.
  predicate Picked(a: seq<string>, b: seq<string>, at: seq<nat>) {
    |at| == |a| && forall k :: 0 <= k < |at| ==> at[k] < |b| && a[k] == b[at[k]]
  }

  lemma PickedGrows(delivered: seq<string>, cleared: seq<string>, at: seq<nat>, copy: Copy, packets: seq<string>)
    requires Picked(delivered, cleared, at) && copy.End() <= |cleared + packets|
    requires copy.packets == (cleared + packets)[copy.start..copy.End()]
    ensures Picked(delivered + copy.packets, cleared + packets, at + Span(copy))
  {
  }

  lemma {:induction false} DeliveredAre(schedule: seq<Action>)
    ensures var s := Run(schedule); Picked(s.delivered, s.cleared, Spans(s.copies))
    decreases |schedule|
  {
    if schedule != [] {
      var before, a := schedule[..|schedule| - 1], schedule[|schedule| - 1];
      var s := Run(before);
      DeliveredAre(before);
      if a.ScanStep? && PcOf(s, a.client).HasBoth? {
        var copy := PcOf(s, a.client).copy;
        RunCopies(before);
        assert Made(s, copy) && CopyOk(s, copy);
        assert (s.copies + [copy])[..|s.copies|] == s.copies;
        PickedGrows(s.delivered, s.cleared, Spans(s.copies), copy, s.packets);
      }
    }
  }

  // Main result, for scans that overlap in any way: what is delivered is what was appended
  // at the positions of the delivered copies, and no record is delivered twice if and only
  // if no two of these copies, with records in them, were made without a clear in between.
  lemma DeliveredOnceIff(schedule: seq<Action>)
    ensures var s := Run(schedule);
            && Picked(s.delivered, s.appended, Spans(s.copies))
            && (NoRepeats(Spans(s.copies)) <==> NoSameStart(s.copies))
  {
    var s := Run(schedule);
    RunCopies(schedule);
    DeliveredAre(schedule);
    assert forall x :: x in s.copies ==> Made(s, x);
    NoRepeatsIff(s.copies);
  }

  // The copies start later and later.
  predicate AllRising(copies: seq<Copy>) {
    forall i, j :: 0 <= i < j < |copies| ==> Rising(copies[i], copies[j])
  }

  lemma IncreasingAppend(a: seq<nat>, b: seq<nat>)
    ensures Increasing(a + b) <==> Increasing(a) && Increasing(b) && forall m, n :: m in a && n in b ==> m < n
  {
    var ab := a + b;
    if Increasing(a) && Increasing(b) && forall m, n :: m in a && n in b ==> m < n {
      forall i, j | 0 <= i < j < |ab|
        ensures ab[i] < ab[j]
      {
        assert ab[i] == (if i < |a| then a[i] else b[i - |a|]) && ab[j] == if j < |a| then a[j] else b[j - |a|];
        assert (i < |a| ==> ab[i] in a) && (j >= |a| ==> ab[j] in b);
      }
    }
    if Increasing(ab) {
      assert forall i :: 0 <= i < |a| ==> a[i] == ab[i];
      assert forall i :: 0 <= i < |b| ==> b[i] == ab[|a| + i];
      forall m, n | m in a && n in b
        ensures m < n
      {
        var i, j :| 0 <= i < |a| && a[i] == m && 0 <= j < |b| && b[j] == n;
        assert ab[i] < ab[|a| + j];
      }
    }
  }

  lemma {:induction false} IncreasingIff(copies: seq<Copy>)
    requires AllOrdered(copies)
    ensures Increasing(Spans(copies)) <==> AllRising(copies)
    decreases |copies|
  {
    if copies != [] {
      var init, last := copies[..|copies| - 1], copies[|copies| - 1];
      assert copies == init + [last];
      IncreasingIff(init);
      IncreasingAppend(Spans(init), Span(last));
      LastFollows(init, last);
      assert AllRising(copies) <==> AllRising(init) && forall x :: x in init ==> Rising(x, last);
    }
  }

  lemma LastFollows(init: seq<Copy>, last: Copy)
    requires forall x :: x in init ==> Ordered(x, last) && Ordered(last, x)
    ensures (forall m, n :: m in Spans(init) && n in Span(last) ==> m < n)
            <==> forall x :: x in init ==> Rising(x, last)
  {
    forall m, n | m in Spans(init) && n in Span(last) && m >= n
      ensures exists x :: x in init && !Rising(x, last)
    {
      SpansMember(init, m);
      SpanMember(last, n);
      var x :| x in init && x.start <= m < x.End();
      assert !Rising(x, last);
    }
    if x :| x in init && !Rising(x, last) {
      SpansMember(init, x.start);
      SpanMember(last, last.start);
    }
  }

  // Values at increasing positions.
  lemma {:induction false} PickedIsSubsequence(a: seq<string>, b: seq<string>, at: seq<nat>)
    requires Picked(a, b, at) && Increasing(at)
    ensures Subsequence(a, b)
    decreases |b|
  {
    if a != [] {
      var last := |a| - 1;
      assert at[last] < |b|;
      var b' := b[..|b| - 1];
      if at[last] == |b| - 1 {
        PickedIsSubsequence(a[..last], b', at[..last]);
      } else {
        PickedIsSubsequence(a, b', at);
      }
    }
  }

  // Records leave in the order in which they were appended if and only if the delivered
  // copies were made in the order in which their scans cleared, with a clear in between.
  lemma DeliveredInOrderIff(schedule: seq<Action>)
    ensures var s := Run(schedule);
            && (Increasing(Spans(s.copies)) <==> AllRising(s.copies))
            && (AllRising(s.copies) ==> Subsequence(s.delivered + s.packets, s.appended))
  {
    var s := Run(schedule);
    RunCopies(schedule);
    DeliveredAre(schedule);
    assert forall x :: x in s.copies ==> Made(s, x);
    IncreasingIff(s.copies);
    if AllRising(s.copies) {
      PickedIsSubsequence(s.delivered, s.cleared, Spans(s.copies));
      SubsequenceExtends(s.delivered, s.cleared, s.packets);
    }
  }

  // ------------------------------------------------------------------
  // Lost, with scans that overlap in any way
  // ------------------------------------------------------------------

  // The record at this position is in a reply, or in a copy whose scan has yet to clear.
  ghost predicate Kept(s: State, m: nat) {
    exists x :: Made(s, x) && x.start <= m < x.End()
  }

  ghost predicate NothingLost(s: State) {
    forall m: nat :: m < |s.cleared| ==> Kept(s, m)
  }

  // Every record that a clear has removed is in a reply.
  ghost predicate AllDelivered(s: State) {
    forall m: nat :: m < |s.cleared| ==> m in Spans(s.copies)
  }

  // Some scan that has not cleared yet has copied since the last append.
  ghost predicate Covered(s: State) {
    s.packets == [] || exists d: Client :: Copying(PcOf(s, d)) && PcOf(s, d).copy == Copy(|s.cleared|, s.packets)
  }

  ghost predicate ClearsCovered(schedule: seq<Action>)
    decreases |schedule|
  {
    schedule != [] ==>
      var before, a := schedule[..|schedule| - 1], schedule[|schedule| - 1];
      && ClearsCovered(before)
      && (a.ScanStep? && PcOf(Run(before), a.client).HasBoth? ==> Covered(Run(before)))
  }

  lemma MadeStays(s: State, a: Action, x: Copy)
    requires Made(s, x)
    ensures Made(Do(s, a), x)
  {
    var s' := Do(s, a);
    if x !in s.copies {
      var c: Client :| Copying(PcOf(s, c)) && PcOf(s, c).copy == x;
      if a.ScanStep? && a.client == c {
        assert x in s'.copies || (Copying(PcOf(s', c)) && PcOf(s', c).copy == x);
      } else {
        assert PcOf(s', c) == PcOf(s, c);
      }
    }
  }

  // What is removed is kept or lost for good.
  lemma KeptStays(s: State, a: Action, m: nat)
    requires m < |s.cleared|
    ensures Kept(Do(s, a), m) <==> Kept(s, m)
  {
    if x :| Made(Do(s, a), x) && x.start <= m < x.End() {
      MadeAfter(s, a, x);
    }
    if x :| Made(s, x) && x.start <= m < x.End() {
      MadeStays(s, a, x);
    }
  }

  // Main result, record by record: a clear loses a pending record exactly when no scan has
  // copied it that has not cleared yet.
  lemma ClearLoses(s: State, c: Client, m: nat)
    requires CopiesOk(s) && PcOf(s, c).HasBoth? && |s.cleared| <= m < |s.appended|
    ensures Kept(Do(s, ScanStep(c)), m)
            <==> exists d: Client :: Copying(PcOf(s, d)) && PcOf(s, d).copy.start == |s.cleared|
                                     && m < PcOf(s, d).copy.End()
  {
    var s' := Do(s, ScanStep(c));
    if x :| Made(s', x) && x.start <= m < x.End() {
      MadeAfter(s, ScanStep(c), x);
      assert CopyOk(s, x) && x !in s.copies;
      var d: Client :| Copying(PcOf(s, d)) && PcOf(s, d).copy == x;
      assert x.start == |s.cleared|;
    }
    if d: Client :| Copying(PcOf(s, d)) && PcOf(s, d).copy.start == |s.cleared| && m < PcOf(s, d).copy.End() {
      assert Made(s, PcOf(s, d).copy);
      MadeStays(s, ScanStep(c), PcOf(s, d).copy);
    }
  }

  lemma ClearCovers(s: State, c: Client)
    requires CopiesOk(s) && PcOf(s, c).HasBoth?
    ensures (forall m: nat :: |s.cleared| <= m < |s.appended| ==> Kept(Do(s, ScanStep(c)), m)) <==> Covered(s)
  {
    if Covered(s) {
      forall m: nat | |s.cleared| <= m < |s.appended|
        ensures Kept(Do(s, ScanStep(c)), m)
      {
        ClearLoses(s, c, m);
      }
    }
    if s.packets != [] && Kept(Do(s, ScanStep(c)), |s.appended| - 1) {
      ClearLoses(s, c, |s.appended| - 1);
      var d: Client :| Copying(PcOf(s, d)) && PcOf(s, d).copy.start == |s.cleared|
                       && |s.appended| - 1 < PcOf(s, d).copy.End();
      CopyUpToNow(s, d);
    }
  }

  lemma CopyUpToNow(s: State, d: Client)
    requires CopiesOk(s) && Copying(PcOf(s, d))
    requires PcOf(s, d).copy.start == |s.cleared| && PcOf(s, d).copy.End() >= |s.appended|
    ensures PcOf(s, d).copy == Copy(|s.cleared|, s.packets)
  {
    assert Made(s, PcOf(s, d).copy) && CopyOk(s, PcOf(s, d).copy);
    assert s.appended[|s.cleared|..|s.appended|] == s.packets;
  }

  lemma StepLoses(s: State, a: Action)
    requires CopiesOk(s)
    ensures NothingLost(Do(s, a))
            <==> NothingLost(s) && (a.ScanStep? && PcOf(s, a.client).HasBoth? ==> Covered(s))
  {
    forall m: nat | m < |s.cleared|
      ensures Kept(Do(s, a), m) <==> Kept(s, m)
    {
      KeptStays(s, a, m);
    }
    if a.ScanStep? && PcOf(s, a.client).HasBoth? {
      ClearCovers(s, a.client);
      assert Do(s, a).cleared == s.appended;
    }
  }

  // Main result, for scans that overlap in any way: no record is ever lost if and only if
  // each clear finds nothing pending, or a scan that has copied since the last append and
  // has not cleared yet.  When no scan is between its copy and its clear, this says that
  // every record removed is in a reply.
  lemma {:induction false} NothingLostIff(schedule: seq<Action>)
    ensures NothingLost(Run(schedule)) <==> ClearsCovered(schedule)
    ensures var s := Run(schedule);
            !InWindow(s) ==> (ClearsCovered(schedule) <==> AllDelivered(s))
    decreases |schedule|
  {
    if schedule != [] {
      var before, a := schedule[..|schedule| - 1], schedule[|schedule| - 1];
      NothingLostIff(before);
      RunCopies(before);
      StepLoses(Run(before), a);
    }
    if !InWindow(Run(schedule)) {
      NothingLostIsDelivered(Run(schedule));
    }
  }

  lemma NothingLostIsDelivered(s: State)
    requires !InWindow(s)
    ensures NothingLost(s) <==> AllDelivered(s)
  {
    if NothingLost(s) {
      forall m: nat | m < |s.cleared|
        ensures m in Spans(s.copies)
      {
        assert Kept(s, m);
        KeptIsDelivered(s, m);
      }
    }
    if AllDelivered(s) {
      forall m: nat | m < |s.cleared|
        ensures Kept(s, m)
      {
        KeptIsDelivered(s, m);
      }
    }
  }

  lemma KeptIsDelivered(s: State, m: nat)
    requires !InWindow(s)
    ensures Kept(s, m) <==> m in Spans(s.copies)
  {
    SpansMember(s.copies, m);
    assert forall x :: Made(s, x) <==> x in s.copies;
  }

  // A record appended between the copy and the clear of one scan can still be delivered, by
  // another scan that copies it before that clear.
  lemma OverlapSavesRecord(record: string)
    ensures var s := Run([ScanStep(0), Append(record), ScanStep(1), ScanStep(0), ScanStep(0),
                          ScanStep(1), ScanStep(1)]);
            s.appended == s.delivered == [record] && s.packets == []
  {
    var a := [ScanStep(0), Append(record), ScanStep(1), ScanStep(0), ScanStep(0), ScanStep(1), ScanStep(1)];
    forall i: nat | i < 7
      ensures Run(a[..i + 1]) == Do(Run(a[..i]), a[i])
    {
      assert a[..i + 1][..|a[..i + 1]| - 1] == a[..i];
    }
    assert a[..7] == a && a[..0] == [];
    var s2 := Do(Do(INIT, a[0]), a[1]);
    assert s2.packets == [record] && PcOf(s2, 1) == Outside && PcOf(s2, 0) == HasPackets(Copy(0, []));
    var s4 := Do(Do(s2, a[2]), a[3]);
    assert PcOf(s4, 1) == HasPackets(Copy(0, [record])) && PcOf(s4, 0) == HasBoth(Copy(0, []), MapCopy(0, 0, map[]));
    var s6 := Do(Do(s4, a[4]), a[5]);
    assert PcOf(s6, 1) == HasBoth(Copy(0, [record]), MapCopy(0, 0, map[])) && s6.packets == [] && s6.delivered == [];
  }

  // Two scans that overlap can both deliver a record that was appended once.
  lemma OverlapDeliversTwice(record: string)
    ensures var s := Run([Append(record), ScanStep(0), ScanStep(1), ScanStep(0), ScanStep(1),
                          ScanStep(0), ScanStep(1)]);
            s.appended == [record] && s.delivered == [record, record]
  {
    var a := [Append(record), ScanStep(0), ScanStep(1), ScanStep(0), ScanStep(1), ScanStep(0), ScanStep(1)];
    forall i: nat | i < 7
      ensures Run(a[..i + 1]) == Do(Run(a[..i]), a[i])
    {
      assert a[..i + 1][..|a[..i + 1]| - 1] == a[..i];
    }
    assert a[..7] == a && a[..0] == [];
    var s1 := Do(INIT, a[0]);
    var s2 := Do(s1, a[1]);
    var s3 := Do(s2, a[2]);
    assert PcOf(s2, 1) == Outside && s3.packets == [record];
    var s4 := Do(s3, a[3]);
    var s5 := Do(s4, a[4]);
    assert PcOf(s4, 1) == HasPackets(Copy(0, [record]));
    assert PcOf(s5, 0) == HasBoth(Copy(0, [record]), MapCopy(0, 0, map[]));
    assert s5.delivered == [];
    assert PcOf(Do(s5, a[5]), 1) == HasBoth(Copy(0, [record]), MapCopy(0, 0, map[]));
  }

  // ------------------------------------------------------------------
  // The static fields
  // ------------------------------------------------------------------

  class PeriodicResults {
    var packetScanResult: seq<string>
    var spofingScanResult: map<string, string>

    constructor ()
      ensures packetScanResult == [] && spofingScanResult == map[]
    {
      packetScanResult, spofingScanResult := [], map[];
    }

    // One turn of periodicScan, when no scan request comes in between.
    method PeriodicRound(packetScanTMP: seq<string>, spofingScanTMP: map<string, string>)
      modifies this
      ensures packetScanResult == old(packetScanResult) + packetScanTMP
      ensures spofingScanResult == Insert(old(spofingScanResult), spofingScanTMP)
    {
      var i := 0;
      while i < |packetScanTMP|
        invariant 0 <= i <= |packetScanTMP|
        invariant packetScanResult == old(packetScanResult) + packetScanTMP[..i]
        invariant spofingScanResult == old(spofingScanResult)
      {
        packetScanResult := packetScanResult + [packetScanTMP[i]];
        i := i + 1;
      }
      spofingScanResult := spofingScanTMP + spofingScanResult;
    }

    // The part of a quick or full scan that takes the accumulated results.
    method TakeResults() returns (packets: seq<string>, spofing: map<string, string>)
      modifies this
      ensures packets == old(packetScanResult) && spofing == old(spofingScanResult)
      ensures packetScanResult == [] && spofingScanResult == map[]
    {
      packets := packetScanResult;
      spofing := spofingScanResult;
      packetScanResult := [];
      spofingScanResult := map[];
    }
  }

  // ------------------------------------------------------------------
  // Spoofing rounds
  // ------------------------------------------------------------------

  function FirstRound(rounds: seq<map<string, string>>, ip: string): Option<string> {
    if rounds == [] then None
    else if ip in rounds[0] then Some(rounds[0][ip])
    else FirstRound(rounds[1..], ip)
  }

  lemma {:induction false} FirstRoundAppends(rounds: seq<map<string, string>>, round: map<string, string>, ip: string)
    ensures FirstRound(rounds + [round], ip)
            == if FirstRound(rounds, ip).Some? then FirstRound(rounds, ip)
               else if ip in round then Some(round[ip]) else None
  {
    if rounds != [] {
      FirstRoundAppends(rounds[1..], round, ip);
      assert (rounds + [round])[1..] == rounds[1..] + [round];
    }
  }

  lemma {:induction false} FirstRoundConcat(a: seq<map<string, string>>, b: seq<map<string, string>>, ip: string)
    ensures FirstRound(a + b, ip) == if FirstRound(a, ip).Some? then FirstRound(a, ip) else FirstRound(b, ip)
  {
    if a == [] {
      assert a + b == b;
    } else {
      FirstRoundConcat(a[1..], b, ip);
      assert (a + b)[1..] == a[1..] + b;
    }
  }

  function Got(m: map<string, string>, ip: string): Option<string> {
    if ip in m then Some(m[ip]) else None
  }

  lemma {:induction false} RoundsKept(schedule: seq<Action>, ip: string)
    ensures var s := Run(schedule);
            s.forgotten <= |s.merged| && Got(s.spoofing, ip) == FirstRound(s.merged[s.forgotten..], ip)
    decreases |schedule|
  {
    if schedule != [] {
      var before, a := schedule[..|schedule| - 1], schedule[|schedule| - 1];
      RoundsKept(before, ip);
      RoundStep(Run(before), a, ip);
    }
  }

  lemma RoundStep(s: State, a: Action, ip: string)
    requires s.forgotten <= |s.merged| && Got(s.spoofing, ip) == FirstRound(s.merged[s.forgotten..], ip)
    ensures var s' := Do(s, a);
            s'.forgotten <= |s'.merged| && Got(s'.spoofing, ip) == FirstRound(s'.merged[s'.forgotten..], ip)
  {
    if a.Merge? {
      FirstRoundAppends(s.merged[s.forgotten..], a.round, ip);
      assert (s.merged + [a.round])[s.forgotten..] == s.merged[s.forgotten..] + [a.round];
    } else if a.ScanStep? && PcOf(s, a.client).ClearedPackets? {
      assert s.merged[|s.merged|..] == [];
    }
  }

  // Main result: in every run, the accumulator gives each source the entry of the first of
  // the rounds merged since the last clear that reported it, and has no other source.
  lemma FirstRoundWins(schedule: seq<Action>, ip: string)
    ensures var s := Run(schedule);
            && s.forgotten <= |RoundsOf(schedule)|
            && Got(s.spoofing, ip) == FirstRound(RoundsOf(schedule)[s.forgotten..], ip)
  {
    InputsArrive(schedule);
    RoundsKept(schedule, ip);
  }

  predicate HasTaken(pc: Pc) {
    pc.HasBoth? || pc.ClearedPackets?
  }

  ghost predicate MadeMap(s: State, x: MapCopy) {
    x in s.maps || exists c: Client :: HasTaken(PcOf(s, c)) && PcOf(s, c).taken == x
  }

  // The copy is what the rounds between its two positions say, and the next clear moves
  // past its end.
  ghost predicate TakenOk(s: State, x: MapCopy) {
    && x.start <= x.end <= |s.merged| && x.start <= s.forgotten
    && (x.start < s.forgotten ==> x.end <= s.forgotten)
    && forall ip :: Got(x.spoofing, ip) == FirstRound(s.merged[x.start..x.end], ip)
  }

  lemma MadeMapAfter(s: State, a: Action, x: MapCopy)
    requires MadeMap(Do(s, a), x)
    ensures MadeMap(s, x)
            || (a.ScanStep? && PcOf(s, a.client).HasPackets? && x == MapCopy(s.forgotten, |s.merged|, s.spoofing))
  {
    var s' := Do(s, a);
    if x in s'.maps && x !in s.maps {
      assert HasTaken(PcOf(s, a.client)) && PcOf(s, a.client).taken == x;
    } else if x !in s.maps {
      var c: Client :| HasTaken(PcOf(s', c)) && PcOf(s', c).taken == x;
      assert (a.ScanStep? && c == a.client) || PcOf(s', c) == PcOf(s, c);
    }
  }

  lemma TakenStays(s: State, a: Action, x: MapCopy)
    requires s.forgotten <= |s.merged| && TakenOk(s, x)
    ensures TakenOk(Do(s, a), x)
  {
    if a.Merge? {
      assert (s.merged + [a.round])[x.start..x.end] == s.merged[x.start..x.end];
    }
  }

  lemma {:induction false} RunMaps(schedule: seq<Action>, x: MapCopy)
    requires MadeMap(Run(schedule), x)
    ensures TakenOk(Run(schedule), x)
    decreases |schedule|
  {
    if schedule != [] {
      var before, a := schedule[..|schedule| - 1], schedule[|schedule| - 1];
      var s := Run(before);
      RoundsKept(before, "");
      MadeMapAfter(s, a, x);
      if MadeMap(s, x) {
        RunMaps(before, x);
      } else {
        forall ip
          ensures Got(s.spoofing, ip) == FirstRound(s.merged[s.forgotten..|s.merged|], ip)
        {
          RoundsKept(before, ip);
          assert s.merged[s.forgotten..|s.merged|] == s.merged[s.forgotten..];
        }
      }
      TakenStays(s, a, x);
    }
  }

  // Main result, for scans that overlap in any way: each map in a reply gives exactly the
  // sources reported between the last clear before its copy and the copy, each with the
  // entry of the first round that reported it.
  lemma DeliveredMaps(schedule: seq<Action>, i: nat, ip: string)
    requires i < |Run(schedule).maps|
    ensures var s := Run(schedule);
            var x := s.maps[i];
            && x.start <= x.end <= |RoundsOf(schedule)|
            && Got(x.spoofing, ip) == FirstRound(RoundsOf(schedule)[x.start..x.end], ip)
  {
    InputsArrive(schedule);
    RunMaps(schedule, Run(schedule).maps[i]);
  }

  // Main result: which sources a clear removes that its own reply does not have.  When no
  // other scan has cleared since its copy, those that were first reported after the copy;
  // otherwise those reported since that other clear and not before the copy.
  lemma ClearDropsSources(schedule: seq<Action>, c: Client, ip: string)
    requires PcOf(Run(schedule), c).ClearedPackets?
    ensures var s := Run(schedule);
            var x, rounds := PcOf(s, c).taken, RoundsOf(schedule);
            && x.start <= x.end <= |rounds| && s.forgotten <= |rounds|
            && (x.start == s.forgotten ==>
                  && (ip in s.spoofing && ip !in x.spoofing
                      <==> FirstRound(rounds[x.start..x.end], ip).None? && FirstRound(rounds[x.end..], ip).Some?)
                  && (ip in x.spoofing ==> Got(s.spoofing, ip) == Got(x.spoofing, ip)))
            && (x.start != s.forgotten ==>
                  && x.end <= s.forgotten
                  && (ip in s.spoofing && ip !in x.spoofing
                      <==> FirstRound(rounds[x.start..x.end], ip).None?
                           && FirstRound(rounds[s.forgotten..], ip).Some?))
  {
    InputsArrive(schedule);
    var s := Run(schedule);
    var x := PcOf(s, c).taken;
    assert HasTaken(PcOf(s, c)) && MadeMap(s, x);
    RunMaps(schedule, x);
    RoundsKept(schedule, ip);
    assert Got(x.spoofing, ip) == FirstRound(s.merged[x.start..x.end], ip);
    if x.start == s.forgotten {
      assert s.merged[x.start..] == s.merged[x.start..x.end] + s.merged[x.end..];
      FirstRoundConcat(s.merged[x.start..x.end], s.merged[x.end..], ip);
    }
  }
}
