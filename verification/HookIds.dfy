/**
  The ids that `new_execve` hands out.  hook_id is read before the mutex is taken and
  incremented after it is released, so the promise of the counter depends on the schedule.
*/
module HookIds {
  import opened Options
  import opened HookRuns
  import opened HookSteps
  import opened HookSafety
  import opened HookSolo

  const PERIOD := MAX_HOOK_ID - MIN_HOOK_ID + 1

  // The id of the n-th allocation when calls do not overlap.
  function IdOf(n: nat): int {
    MIN_HOOK_ID + n % PERIOD
  }

  lemma IdNumbers(n: nat)
    ensures IdOf(n) == 1000 + n % 9000 && 1000 <= IdOf(n) <= 9999
  {
  }

  // From the allocation to the increment: the thread's record may carry the counter's value.
  predicate Pending(pc: Pc) {
    Creating(pc) || pc.Linked? || pc.Bump?
  }

  // The call gets memory for its record.
  predicate Accepts(s: State, a: Action) {
    a.Execve? && PcOf(s, a.t) == Idle && a.addr !in s.heap && a.addr != NULL
  }

  // The records that a run fills in, in the order of allocation.
  function Issued(schedule: seq<Action>): seq<Record>
    decreases |schedule|
  {
    if schedule == [] then []
    else
      var before, a := schedule[..|schedule| - 1], schedule[|schedule| - 1];
      var s := Run(INIT, before);
      Issued(before) + if Accepts(s, a) then [Record(s.allocs, s.hookId, a.pid, a.parentPid)] else []
  }

  // No other call stands before its increment, and the counter needs no wrap-around.
  ghost predicate Settled(s: State) {
    (forall t: Tid :: !Pending(PcOf(s, t))) && s.hookId <= MAX_HOOK_ID
  }

  // Every call that gets a record starts in a settled state.
  ghost predicate Unhurried(schedule: seq<Action>)
    decreases |schedule|
  {
    schedule != [] ==>
      var before, a := schedule[..|schedule| - 1], schedule[|schedule| - 1];
      Unhurried(before) && (Accepts(Run(INIT, before), a) ==> Settled(Run(INIT, before)))
  }

  lemma NextId(n: nat)
    ensures IdOf(n + 1) == if IdOf(n) + 1 > MAX_HOOK_ID then MIN_HOOK_ID else IdOf(n) + 1
  {
  }

  // Records never change once allocated.
  lemma StepRecords(s: State, t: Tid, x: Addr)
    requires x in Step(s, t).heap
    ensures x in s.heap && Step(s, t).heap[x].rec == s.heap[x].rec
  {
    match PcOf(s, t)
    case Store(_, _) =>
    case Deliver(_) =>
    case _ =>
  }

  // What a step of t means for its place in new_execve and for the counter.
  lemma StepIdShape(s: State, t: Tid)
    ensures var s', pc, pc' := Step(s, t), PcOf(s, t), PcOf(Step(s, t), t);
            && s'.allocs == s.allocs
            && (Creating(pc') ==> Creating(pc) && pc'.obj == pc.obj)
            && (Creating(pc) && !Creating(pc') ==> pc.Store? && pc'.Linked? && pc.obj in s.heap)
            && s'.appended == (if pc.Store? && pc'.Linked? then s.appended + [s.heap[pc.obj].rec] else s.appended)
            && (Pending(pc') <==> Pending(pc) && !pc.Bump?)
            && s'.hookId == (if pc.Bump? then s.hookId + 1
                             else if pc.Wrap? && s.hookId > MAX_HOOK_ID then MIN_HOOK_ID else s.hookId)
            && (pc'.Wrap? <==> pc.Bump?)
  {
    match PcOf(s, t)
    case AtSlot(_, _) =>
    case Look(_, _) =>
    case Store(_, _) =>
    case PopStore(_, _) =>
    case Deliver(_) =>
    case _ =>
  }

  // ------------------------------------------------------------------
  // When the ids are right
  // ------------------------------------------------------------------

  // Where the pending call stands tells what the counter holds.
  ghost predicate CounterOk(s: State) {
    && (forall t: Tid, u: Tid :: Pending(PcOf(s, t)) && Pending(PcOf(s, u)) ==> t == u)
    && (forall t: Tid :: Pending(PcOf(s, t)) ==> s.allocs > 0 && s.hookId == IdOf(s.allocs - 1))
    && ((forall t: Tid :: !Pending(PcOf(s, t))) ==>
          s.hookId == IdOf(s.allocs) || (s.hookId == MAX_HOOK_ID + 1 && IdOf(s.allocs) == MIN_HOOK_ID))
  }

  lemma TickCounter(s: State, t: Tid)
    requires CounterOk(s)
    ensures CounterOk(Step(s, t))
  {
    var s' := Step(s, t);
    StepIdShape(s, t);
    forall u: Tid
      ensures u != t ==> PcOf(s', u) == PcOf(s, u)
    {
      if u != t {
        StepOthers(s, t, u);
      }
    }
    if PcOf(s, t).Bump? {
      assert Pending(PcOf(s, t));
      NextId(s.allocs - 1);
    } else if u: Tid :| Pending(PcOf(s, u)) {
      assert Pending(PcOf(s', u));
    }
  }

  lemma StartCounter(s: State, a: Action)
    requires CounterOk(s) && a.Execve? && (Accepts(s, a) ==> Settled(s))
    ensures CounterOk(Do(s, a))
  {
    var s' := Do(s, a);
    forall u: Tid
      ensures u != a.t ==> PcOf(s', u) == PcOf(s, u)
    {
      if u != a.t {
        OthersStay(s, a, u);
      }
    }
    if Accepts(s, a) {
      assert Pending(PcOf(s', a.t));
    } else if u: Tid :| Pending(PcOf(s, u)) {
      assert Pending(PcOf(s', u));
    }
  }

  lemma GetHookCounter(s: State, t: Tid)
    requires CounterOk(s)
    ensures CounterOk(Do(s, GetHook(t)))
  {
    var s' := Do(s, GetHook(t));
    forall u: Tid
      ensures Pending(PcOf(s', u)) <==> Pending(PcOf(s, u))
      ensures Pending(PcOf(s, u)) ==> PcOf(s', u) == PcOf(s, u)
    {
    }
  }

  lemma ActionCounter(s: State, a: Action)
    requires CounterOk(s) && (Accepts(s, a) ==> Settled(s))
    ensures CounterOk(Do(s, a))
  {
    match a
    case Execve(_, _, _, _, _) => StartCounter(s, a);
    case GetHook(t) => GetHookCounter(s, t);
    case Tick(t) => TickCounter(s, t);
  }

  lemma {:induction false} UnhurriedCounter(schedule: seq<Action>)
    requires Unhurried(schedule)
    ensures CounterOk(Run(INIT, schedule))
    decreases |schedule|
  {
    if schedule != [] {
      var before, a := schedule[..|schedule| - 1], schedule[|schedule| - 1];
      UnhurriedCounter(before);
      ActionCounter(Run(INIT, before), a);
    }
  }

  // A call reads the id of its turn exactly when it starts in a settled state.
  lemma StartReads(s: State)
    requires CounterOk(s)
    ensures s.hookId == IdOf(s.allocs) <==> Settled(s)
  {
    if t: Tid :| Pending(PcOf(s, t)) {
      NextId(s.allocs - 1);
    }
  }

  // The i-th record gets id 1000 + i mod 9000.
  predicate IdsInTurn(records: seq<Record>) {
    forall i :: 0 <= i < |records| ==> records[i].hookId == IdOf(i)
  }

  lemma AllocsAfter(s: State, a: Action)
    ensures Do(s, a).allocs == if Accepts(s, a) then s.allocs + 1 else s.allocs
  {
    if a.Tick? {
      StepIdShape(s, a.t);
    }
  }

  lemma {:induction false} IssuedCount(schedule: seq<Action>)
    ensures |Issued(schedule)| == Run(INIT, schedule).allocs
    decreases |schedule|
  {
    if schedule != [] {
      var before, a := schedule[..|schedule| - 1], schedule[|schedule| - 1];
      IssuedCount(before);
      AllocsAfter(Run(INIT, before), a);
    }
  }

  lemma TurnsOneMore(records: seq<Record>, rec: Record)
    ensures IdsInTurn(records + [rec]) <==> IdsInTurn(records) && rec.hookId == IdOf(|records|)
  {
    var more := records + [rec];
    assert forall i :: 0 <= i < |records| ==> more[i] == records[i];
    assert more[|records|] == rec;
  }

  // Main result, for every schedule: the records get consecutive cyclic ids in the order of
  // allocation if and only if every call that gets a record finds no other call before its
  // increment and no counter waiting to be wrapped around.
  lemma {:induction false} IdsInTurnIff(schedule: seq<Action>)
    ensures IdsInTurn(Issued(schedule)) <==> Unhurried(schedule)
    decreases |schedule|
  {
    if schedule != [] {
      var before, a := schedule[..|schedule| - 1], schedule[|schedule| - 1];
      var s := Run(INIT, before);
      IdsInTurnIff(before);
      IssuedCount(before);
      if Accepts(s, a) {
        TurnsOneMore(Issued(before), Record(s.allocs, s.hookId, a.pid, a.parentPid));
      } else {
        assert Issued(schedule) == Issued(before) + [];
      }
      if Unhurried(before) {
        UnhurriedCounter(before);
        StartReads(s);
      }
    }
  }

  // ------------------------------------------------------------------
  // What the queue then holds
  // ------------------------------------------------------------------

  // The records in memory are the issued ones: a serial number says which.
  lemma {:induction false} RecordsAreIssued(schedule: seq<Action>, x: Addr)
    requires x in Run(INIT, schedule).heap
    ensures var rec := Run(INIT, schedule).heap[x].rec;
            rec.serial < |Issued(schedule)| && rec == Issued(schedule)[rec.serial]
    decreases |schedule|
  {
    if schedule != [] {
      var before, a := schedule[..|schedule| - 1], schedule[|schedule| - 1];
      var s := Run(INIT, before);
      IssuedCount(before);
      if a.Tick? {
        StepRecords(s, a.t, x);
      }
      if x in s.heap {
        RecordsAreIssued(before, x);
      }
    }
  }

  // Records are appended in the order of allocation.
  ghost predicate InOrder(s: State) {
    && (forall t: Tid :: Creating(PcOf(s, t)) ==>
          |s.appended| == s.allocs - 1
          && (PcOf(s, t).obj in s.heap ==> s.heap[PcOf(s, t).obj].rec.serial == s.allocs - 1))
    && ((forall t: Tid :: !Creating(PcOf(s, t))) ==> |s.appended| == s.allocs)
    && (forall i :: 0 <= i < |s.appended| ==> s.appended[i].serial == i)
  }

  lemma StartOrder(s: State, a: Action)
    requires InOrder(s) && a.Execve? && (Accepts(s, a) ==> Settled(s))
    ensures InOrder(Do(s, a))
  {
    var s' := Do(s, a);
    forall u: Tid
      ensures u != a.t ==> PcOf(s', u) == PcOf(s, u)
    {
      if u != a.t {
        OthersStay(s, a, u);
      }
    }
    if Accepts(s, a) {
      assert Creating(PcOf(s', a.t)) && forall u: Tid :: !Pending(PcOf(s, u));
    } else if u: Tid :| Creating(PcOf(s, u)) {
      assert Creating(PcOf(s', u));
    }
  }

  lemma TickOrder(s: State, t: Tid)
    requires InOrder(s) && CounterOk(s)
    ensures InOrder(Step(s, t))
  {
    var s' := Step(s, t);
    StepIdShape(s, t);
    forall u: Tid
      ensures u != t ==> PcOf(s', u) == PcOf(s, u)
    {
      if u != t {
        StepOthers(s, t, u);
      }
    }
    forall x | x in s'.heap
      ensures x in s.heap && s'.heap[x].rec == s.heap[x].rec
    {
      StepRecords(s, t, x);
    }
    if Creating(PcOf(s, t)) {
      assert Pending(PcOf(s, t));
      assert forall u: Tid :: u != t ==> !Pending(PcOf(s, u));
    } else if u: Tid :| Creating(PcOf(s, u)) {
      assert Creating(PcOf(s', u));
    }
  }

  lemma GetHookOrder(s: State, t: Tid)
    requires InOrder(s)
    ensures InOrder(Do(s, GetHook(t)))
  {
    var s' := Do(s, GetHook(t));
    forall u: Tid
      ensures Creating(PcOf(s', u)) <==> Creating(PcOf(s, u))
      ensures Creating(PcOf(s, u)) ==> PcOf(s', u) == PcOf(s, u)
    {
    }
  }

  lemma {:induction false} UnhurriedOrder(schedule: seq<Action>)
    requires Unhurried(schedule)
    ensures InOrder(Run(INIT, schedule))
    decreases |schedule|
  {
    if schedule != [] {
      var before, a := schedule[..|schedule| - 1], schedule[|schedule| - 1];
      var s := Run(INIT, before);
      UnhurriedOrder(before);
      UnhurriedCounter(before);
      match a
      case Execve(_, _, _, _, _) => StartOrder(s, a);
      case GetHook(t) => GetHookOrder(s, t);
      case Tick(t) => TickOrder(s, t);
    }
  }

  // Appended records were issued too.
  lemma {:induction false} AppendedAreIssued(schedule: seq<Action>, i: nat)
    requires i < |Run(INIT, schedule).appended|
    ensures var rec := Run(INIT, schedule).appended[i];
            rec.serial < |Issued(schedule)| && rec == Issued(schedule)[rec.serial]
    decreases |schedule|
  {
    if schedule != [] {
      var before, a := schedule[..|schedule| - 1], schedule[|schedule| - 1];
      var s := Run(INIT, before);
      if a.Tick? {
        StepIdShape(s, a.t);
      }
      if i < |s.appended| {
        AppendedAreIssued(before, i);
      } else {
        RecordsAreIssued(before, PcOf(s, a.t).obj);
      }
    }
  }

  predicate Distinct(recs: seq<Record>) {
    forall i, j :: 0 <= i < j < |recs| ==> recs[i].hookId != recs[j].hookId
  }

  // Main result: when no call starts too early, the i-th record appended gets id
  // 1000 + i mod 9000, so the queue is always a consecutive cyclic run of ids, and these
  // differ from each other exactly while at most 9000 records wait.
  lemma {:induction false} UnhurriedQueueIds(schedule: seq<Action>)
    requires CleanInserts(schedule) && Unhurried(schedule)
    ensures var s := Run(INIT, schedule);
            var w := Walk(s.heap, s.head, |s.heap|);
            && w.Some? && (forall a :: a in w.value ==> a in s.heap)
            && IdsInTurn(s.appended)
            && (forall i :: 0 <= i < |w.value| ==> Recs(s.heap, w.value)[i].hookId == IdOf(|s.popped| + i))
            && (Distinct(Recs(s.heap, w.value)) <==> |w.value| <= PERIOD)
  {
    var s := Run(INIT, schedule);
    IdsInTurnIff(schedule);
    UnhurriedOrder(schedule);
    forall i | 0 <= i < |s.appended|
      ensures s.appended[i].hookId == IdOf(i)
    {
      AppendedAreIssued(schedule, i);
    }
    QueueRefinement(schedule);
    StateQueueIds(s);
  }

  lemma StateQueueIds(s: State)
    requires Refines(s) && forall i :: 0 <= i < |s.appended| ==> s.appended[i].hookId == IdOf(i)
    ensures var w := Walk(s.heap, s.head, |s.heap|);
            && w.Some? && (forall a :: a in w.value ==> a in s.heap)
            && (forall i :: 0 <= i < |w.value| ==> Recs(s.heap, w.value)[i].hookId == IdOf(|s.popped| + i))
            && (Distinct(Recs(s.heap, w.value)) <==> |w.value| <= PERIOD)
  {
    var recs := Recs(s.heap, Walk(s.heap, s.head, |s.heap|).value);
    QueueIds(s.popped, recs, s.appended);
    CyclicRunDistinct(recs, |s.popped|);
  }

  lemma QueueIds(popped: seq<Record>, recs: seq<Record>, appended: seq<Record>)
    requires popped + recs == appended
    requires forall i :: 0 <= i < |appended| ==> appended[i].hookId == IdOf(i)
    ensures forall i :: 0 <= i < |recs| ==> recs[i].hookId == IdOf(|popped| + i)
  {
    forall i | 0 <= i < |recs|
      ensures recs[i].hookId == IdOf(|popped| + i)
    {
      assert recs[i] == appended[|popped| + i];
    }
  }

  lemma CyclicRunDistinct(recs: seq<Record>, k: nat)
    requires forall i :: 0 <= i < |recs| ==> recs[i].hookId == IdOf(k + i)
    ensures Distinct(recs) <==> |recs| <= PERIOD
  {
    if |recs| > PERIOD {
      SameId(k, k + PERIOD);
      assert recs[0].hookId == recs[PERIOD].hookId;
    } else {
      forall i, j | 0 <= i < j < |recs|
        ensures recs[i].hookId != recs[j].hookId
      {
        SameId(k + i, k + j);
      }
    }
  }

  lemma SameId(m: nat, n: nat)
    requires m < n <= m + PERIOD
    ensures IdOf(m) == IdOf(n) <==> n == m + PERIOD
  {
  }

  // No step of a run increments the counter or wraps it around.
  ghost predicate Untouched(s: State, more: seq<Action>)
    decreases |more|
  {
    more != [] ==>
      var init, a := more[..|more| - 1], more[|more| - 1];
      Untouched(s, init) && !(a.Tick? && (PcOf(Run(s, init), a.t).Bump? || PcOf(Run(s, init), a.t).Wrap?))
  }

  lemma {:induction false} UntouchedCounter(s: State, more: seq<Action>)
    requires Untouched(s, more)
    ensures Run(s, more).hookId == s.hookId && Run(s, more).allocs >= s.allocs
    decreases |more|
  {
    if more != [] {
      var init, a := more[..|more| - 1], more[|more| - 1];
      UntouchedCounter(s, init);
      AllocsAfter(Run(s, init), a);
      if a.Tick? {
        StepIdShape(Run(s, init), a.t);
      }
    }
  }

  // With overlap the promise fails: two calls that get their records without an increment
  // or wrap-around in between get the same id, whatever else happens between them.
  lemma OverlapRepeatsId(s: State, a: Action, more: seq<Action>, b: Action)
    requires Accepts(s, a) && Untouched(Do(s, a), more) && Accepts(Run(Do(s, a), more), b)
    ensures var first, last := Do(s, a), Do(Run(Do(s, a), more), b);
            && first.heap[a.addr].rec.hookId == last.heap[b.addr].rec.hookId
            && first.heap[a.addr].rec.serial < last.heap[b.addr].rec.serial
  {
    UntouchedCounter(Do(s, a), more);
  }

  // Whatever the schedule, the counter leaves the range 1000 .. 9999 only while some
  // thread stands between its increment and its wrap-around check.
  lemma {:induction false} IdRange(schedule: seq<Action>)
    ensures var s := Run(INIT, schedule);
            && s.hookId >= MIN_HOOK_ID
            && (s.hookId > MAX_HOOK_ID ==> exists t: Tid :: PcOf(s, t).Wrap?)
            && (forall a :: a in s.heap ==> s.heap[a].rec.hookId >= MIN_HOOK_ID)
    decreases |schedule|
  {
    if schedule != [] {
      var before, a := schedule[..|schedule| - 1], schedule[|schedule| - 1];
      IdRange(before);
      IdRangeStep(Run(INIT, before), a);
    }
  }

  // What an action does to the counter.
  lemma CounterAfter(s: State, a: Action)
    ensures var s' := Do(s, a);
            if a.Tick? && PcOf(s, a.t).Bump? then s'.hookId == s.hookId + 1 && PcOf(s', a.t).Wrap?
            else if a.Tick? && PcOf(s, a.t).Wrap? then
              s'.hookId == if s.hookId > MAX_HOOK_ID then MIN_HOOK_ID else s.hookId
            else s'.hookId == s.hookId && (PcOf(s, a.t).Wrap? ==> PcOf(s', a.t).Wrap?)
  {
    if a.Tick? {
      match PcOf(s, a.t)
      case AtSlot(_, _) =>
      case Look(_, _) =>
      case Store(_, _) =>
      case PopStore(_, _) =>
      case Deliver(_) =>
      case _ =>
    }
  }

  lemma IdRangeStep(s: State, a: Action)
    requires s.hookId >= MIN_HOOK_ID
    requires s.hookId > MAX_HOOK_ID ==> exists t: Tid :: PcOf(s, t).Wrap?
    requires forall x :: x in s.heap ==> s.heap[x].rec.hookId >= MIN_HOOK_ID
    ensures var s' := Do(s, a);
            && s'.hookId >= MIN_HOOK_ID
            && (s'.hookId > MAX_HOOK_ID ==> exists t: Tid :: PcOf(s', t).Wrap?)
            && (forall x :: x in s'.heap ==> s'.heap[x].rec.hookId >= MIN_HOOK_ID)
  {
    var s' := Do(s, a);
    CounterAfter(s, a);
    RecordsAfter(s, a);
    if s'.hookId > MAX_HOOK_ID && !(a.Tick? && PcOf(s, a.t).Bump?) {
      var t: Tid :| PcOf(s, t).Wrap?;
      if t != a.t {
        OthersStay(s, a, t);
      }
      assert PcOf(s', t).Wrap?;
    }
  }

  // A record in memory was there before, or it is new and carries the counter's value.
  lemma RecordsAfter(s: State, a: Action)
    ensures forall x :: x in Do(s, a).heap ==>
              (x in s.heap && Do(s, a).heap[x].rec == s.heap[x].rec) || Do(s, a).heap[x].rec.hookId == s.hookId
  {
    forall x | x in Do(s, a).heap
      ensures (x in s.heap && Do(s, a).heap[x].rec == s.heap[x].rec) || Do(s, a).heap[x].rec.hookId == s.hookId
    {
      if a.Tick? {
        StepRecords(s, a.t, x);
      }
    }
  }

  // ------------------------------------------------------------------
  // An id outside the range, from the initial state
  // ------------------------------------------------------------------

  // Below, m == 5 and n == 6 are the numbers of steps of a call up to its wrap-around check
  // and of a reader.  They are parameters so that the verifier does not unroll the runs.

  lemma {:induction false} TicksZeroing(t: Tid, n: nat)
    ensures forall a :: a in Ticks(t, n) ==> a == Tick(t)
  {
    if n > 0 {
      TicksZeroing(t, n - 1);
    }
  }

  // Nobody is inside a call and the queue is empty.
  ghost predicate Quiescent(s: State) {
    s.heap == map[] && s.head == NULL && s.holder == None && !s.fault && forall t: Tid :: PcOf(s, t) == Idle
  }

  lemma TickLast(s: State, t: Tid, n: nat)
    requires n > 0
    ensures Run(s, Ticks(t, n)) == Step(Run(s, Ticks(t, n - 1)), t)
  {
    OneMore(s, Ticks(t, n - 1), Tick(t));
  }

  lemma {:induction false} TicksOthers(s: State, t: Tid, n: nat, u: Tid)
    requires u != t
    ensures PcOf(Run(s, Ticks(t, n)), u) == PcOf(s, u)
  {
    if n > 0 {
      TicksOthers(s, t, n - 1, u);
      OneMore(s, Ticks(t, n - 1), Tick(t));
      OthersStay(Run(s, Ticks(t, n - 1)), Tick(t), u);
    }
  }

  const CALL := Execve(1, 1, NULL, 0, 0)

  // A call of thread 1 on an empty queue, after k steps.
  ghost predicate CallerAt(s: State, k: nat, hookId: int)
    requires k <= 5
  {
    && s.heap.Keys == {1} && s.heap[1].next == NULL && !s.fault
    && PcOf(s, 1) == [Filled(1), AtSlot(1, HeadSlot), Store(1, HeadSlot), Linked, Bump, Wrap][k]
    && s.holder == (if 1 <= k <= 3 then Some(1) else None)
    && s.head == (if k < 3 then NULL else 1)
    && s.hookId == (if k < 5 then hookId else hookId + 1)
  }

  lemma {:induction false} CallerRuns(s: State, k: nat, hookId: int)
    requires k <= 5 && CallerAt(s, 0, hookId)
    ensures CallerAt(Run(s, Ticks(1, k)), k, hookId)
  {
    if k > 0 {
      CallerRuns(s, k - 1, hookId);
      CallerStep(Run(s, Ticks(1, k - 1)), k - 1, hookId);
      TickLast(s, 1, k);
    }
  }

  lemma CallerStep(s: State, k: nat, hookId: int)
    requires k < 5 && CallerAt(s, k, hookId)
    ensures CallerAt(Step(s, 1), k + 1, hookId)
  {
    if k == 0 {
    } else if k == 1 {
    } else if k == 2 {
    } else if k == 3 {
    } else {
    }
  }

  // A reader, thread 2, on a queue with the one record, after k steps.
  ghost predicate ReaderAt(s: State, k: nat, hookId: int)
    requires k <= 6
  {
    && s.heap.Keys == (if k < 6 then {1} else {}) && (k < 6 ==> s.heap[1].next == NULL) && !s.fault
    && PcOf(s, 2) == [WantPop, PopRead, PopNext(1), PopStore(1, NULL), PopDone(1), Deliver(1), Idle][k]
    && s.holder == (if 1 <= k <= 4 then Some(2) else None)
    && s.head == (if k < 4 then 1 else NULL)
    && s.hookId == hookId
  }

  lemma {:induction false} ReaderRuns(s: State, k: nat, hookId: int)
    requires k <= 6 && ReaderAt(s, 0, hookId)
    ensures ReaderAt(Run(s, Ticks(2, k)), k, hookId)
  {
    if k > 0 {
      ReaderRuns(s, k - 1, hookId);
      ReaderStep(Run(s, Ticks(2, k - 1)), k - 1, hookId);
      TickLast(s, 2, k);
    }
  }

  lemma ReaderStep(s: State, k: nat, hookId: int)
    requires k < 6 && ReaderAt(s, k, hookId)
    ensures ReaderAt(Step(s, 2), k + 1, hookId)
  {
    if k == 0 {
    } else if k == 1 {
    } else if k == 2 {
    } else if k == 3 {
    } else if k == 4 {
    } else {
    }
  }

  ghost predicate OthersIdle(s: State, t: Tid) {
    forall u: Tid :: u != t ==> PcOf(s, u) == Idle
  }

  lemma OthersStayIdle(s: State, t: Tid, n: nat)
    requires OthersIdle(s, t)
    ensures OthersIdle(Run(s, Ticks(t, n)), t)
  {
    forall u: Tid | u != t
      ensures PcOf(Run(s, Ticks(t, n)), u) == Idle
    {
      TicksOthers(s, t, n, u);
    }
  }

  lemma Prefixed(s: State, a: Action, t: Tid, n: nat)
    ensures Run(s, [a] + Ticks(t, n)) == Run(Do(s, a), Ticks(t, n))
  {
    RunAppends(s, [a], Ticks(t, n));
    OneMore(s, [], a);
  }

  lemma CallStarts(s: State)
    requires Quiescent(s)
    ensures CallerAt(Do(s, CALL), 0, s.hookId) && OthersIdle(Do(s, CALL), 1)
  {
    assert PcOf(s, 1) == Idle;
    assert forall u: Tid :: u != 1 ==> PcOf(Do(s, CALL), u) == PcOf(s, u);
  }

  lemma CallUpToBump(s: State, n: nat)
    requires Quiescent(s) && n == 5
    ensures CallerAt(Run(s, [CALL] + Ticks(1, n)), n, s.hookId) && OthersIdle(Run(s, [CALL] + Ticks(1, n)), 1)
  {
    Prefixed(s, CALL, 1, n);
    CallStarts(s);
    CallerRuns(Do(s, CALL), n, s.hookId);
    OthersStayIdle(Do(s, CALL), 1, n);
  }

  lemma CallEnds(s: State, n: nat, hookId: int)
    requires n == 5 && CallerAt(s, n, hookId) && hookId < MAX_HOOK_ID && OthersIdle(s, 1)
    ensures var s' := Do(s, Tick(1));
            && s'.heap == s.heap && s'.head == s.head && s'.holder == None && !s'.fault && s'.hookId == hookId + 1
            && forall u: Tid :: PcOf(s', u) == Idle
  {
    forall u: Tid
      ensures PcOf(Do(s, Tick(1)), u) == Idle
    {
      if u != 1 {
        OthersStay(s, Tick(1), u);
      }
    }
  }

  lemma ReaderStarts(s: State)
    requires s.heap.Keys == {1} && s.heap[1].next == NULL && s.head == 1 && s.holder == None && !s.fault
    requires forall u: Tid :: PcOf(s, u) == Idle
    ensures ReaderAt(Do(s, GetHook(2)), 0, s.hookId) && OthersIdle(Do(s, GetHook(2)), 2)
  {
    assert forall u: Tid :: u != 2 ==> PcOf(Do(s, GetHook(2)), u) == PcOf(s, u);
  }

  lemma ReaderEmpties(s: State, n: nat)
    requires s.heap.Keys == {1} && s.heap[1].next == NULL && s.head == 1 && s.holder == None && !s.fault
    requires n == 6 && forall u: Tid :: PcOf(s, u) == Idle
    ensures Quiescent(Run(s, [GetHook(2)] + Ticks(2, n))) && Run(s, [GetHook(2)] + Ticks(2, n)).hookId == s.hookId
  {
    Prefixed(s, GetHook(2), 2, n);
    ReaderStarts(s);
    ReaderRuns(Do(s, GetHook(2)), n, s.hookId);
    OthersStayIdle(Do(s, GetHook(2)), 2, n);
    var end := Run(s, [GetHook(2)] + Ticks(2, n));
    assert ReaderAt(end, n, s.hookId) && OthersIdle(end, 2);
  }

  // One call and one reader, from an empty queue to an empty queue.
  function Round(m: nat, n: nat): seq<Action> {
    [CALL] + Ticks(1, m) + [Tick(1)] + ([GetHook(2)] + Ticks(2, n))
  }

  lemma RoundBumps(s: State, m: nat, n: nat)
    requires Quiescent(s) && s.hookId < MAX_HOOK_ID && m == 5 && n == 6
    ensures Quiescent(Run(s, Round(m, n))) && Run(s, Round(m, n)).hookId == s.hookId + 1
  {
    var call := [CALL] + Ticks(1, m);
    CallUpToBump(s, m);
    CallEnds(Run(s, call), m, s.hookId);
    OneMore(s, call, Tick(1));
    ReaderEmpties(Run(s, call + [Tick(1)]), n);
    RunAppends(s, call + [Tick(1)], [GetHook(2)] + Ticks(2, n));
  }

  lemma RoundZeroing(m: nat, n: nat)
    ensures Zeroing(Round(m, n)) && Zeroing([CALL] + Ticks(1, m))
  {
    TicksZeroing(1, m);
    TicksZeroing(2, n);
  }

  // The counter can be brought to any value of its range with the queue empty.
  lemma {:induction false} ReachId(k: nat, m: nat, n: nat) returns (schedule: seq<Action>)
    requires k < PERIOD && m == 5 && n == 6
    ensures Zeroing(schedule) && Quiescent(Run(INIT, schedule)) && Run(INIT, schedule).hookId == MIN_HOOK_ID + k
    decreases k
  {
    if k == 0 {
      schedule := [];
    } else {
      var before := ReachId(k - 1, m, n);
      RoundBumps(Run(INIT, before), m, n);
      RunAppends(INIT, before, Round(m, n));
      RoundZeroing(m, n);
      schedule := before + Round(m, n);
    }
  }

  // A call that starts while another stands before its wrap-around check.
  lemma LateCall(s: State, n: nat, late: Action)
    requires n == 5 && CallerAt(s, n, MAX_HOOK_ID) && OthersIdle(s, 1) && late == Execve(3, 2, NULL, 0, 0)
    ensures 2 in Do(s, late).heap && Do(s, late).heap[2].rec.hookId == MAX_HOOK_ID + 1
  {
    assert PcOf(s, 3) == Idle;
  }

  lemma RunPastRange(m: nat, n: nat) returns (schedule: seq<Action>, a: Addr)
    requires m == 5 && n == 6
    ensures Zeroing(schedule)
    ensures a in Run(INIT, schedule).heap && Run(INIT, schedule).heap[a].rec.hookId == MAX_HOOK_ID + 1
  {
    var before := ReachId(PERIOD - 1, m, n);
    var s, call, late := Run(INIT, before), [CALL] + Ticks(1, m), Execve(3, 2, NULL, 0, 0);
    CallUpToBump(s, m);
    LateCall(Run(s, call), m, late);
    OneMore(s, call, late);
    RunAppends(INIT, before, call + [late]);
    RoundZeroing(m, n);
    schedule, a := before + (call + [late]), 2;
  }

  // The range is not kept under overlap: there is a run with zeroing allocations in which a
  // record gets id 10000.
  lemma IdCanLeaveRange() returns (schedule: seq<Action>, a: Addr)
    ensures Zeroing(schedule)
    ensures a in Run(INIT, schedule).heap && Run(INIT, schedule).heap[a].rec.hookId == MAX_HOOK_ID + 1
  {
    schedule, a := RunPastRange(5, 6);
  }
}
