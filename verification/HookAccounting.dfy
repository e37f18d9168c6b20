/**
  Where every allocated record is, in every run: with the caller that will insert it, in the
  list, with the reader that popped it, or freed.
*/
module HookAccounting {
  import opened HookRuns
  import opened HookSteps
  import opened HookSafety

  ghost predicate WithCreator(s: State, n: nat) {
    exists t: Tid :: Creating(PcOf(s, t)) && PcOf(s, t).obj in s.heap && s.heap[PcOf(s, t).obj].rec.serial == n
  }

  ghost predicate InList(s: State, l: seq<Addr>, n: nat) {
    exists a :: a in l && a in s.heap && s.heap[a].rec.serial == n
  }

  ghost predicate WithPopper(s: State, n: nat) {
    exists t: Tid :: !Creating(PcOf(s, t)) && Owner(PcOf(s, t)) in s.heap && s.heap[Owner(PcOf(s, t))].rec.serial == n
  }

  ghost predicate Freed(s: State, n: nat) {
    exists i :: 0 <= i < |s.freed| && s.freed[i].serial == n
  }

  function Count(b: bool): nat {
    if b then 1 else 0
  }

  predicate FreedOnce(freed: seq<Record>) {
    forall i, j :: 0 <= i < j < |freed| ==> freed[i].serial != freed[j].serial
  }

  ghost predicate Live(s: State, n: nat) {
    exists a :: a in s.heap && s.heap[a].rec.serial == n
  }

  // Serial numbers 0 .. allocs - 1 are each on one live cell or in `freed`, and never twice.
  ghost predicate Numbered(s: State) {
    && (forall a :: a in s.heap ==> s.heap[a].rec.serial < s.allocs && !Freed(s, s.heap[a].rec.serial))
    && (forall a, b :: a in s.heap && b in s.heap && a != b ==> s.heap[a].rec.serial != s.heap[b].rec.serial)
    && FreedOnce(s.freed)
    && (forall i :: 0 <= i < |s.freed| ==> s.freed[i].serial < s.allocs)
    && (forall n: nat {:trigger Live(s, n)} :: n < s.allocs ==> Freed(s, n) || Live(s, n))
  }

  // Freeing one live cell keeps the numbering.
  lemma FreeNumbered(s: State, s': State, a: Addr)
    requires Numbered(s) && a in s.heap
    requires s'.heap == s.heap - {a} && s'.freed == s.freed + [s.heap[a].rec] && s'.allocs == s.allocs
    ensures Numbered(s')
    ensures forall n: nat :: Freed(s', n) <==> Freed(s, n) || n == s.heap[a].rec.serial
  {
    assert s'.freed[|s.freed|] == s.heap[a].rec;
    forall n: nat
      ensures Freed(s', n) <==> Freed(s, n) || n == s.heap[a].rec.serial
    {
      if Freed(s, n) {
        var i :| 0 <= i < |s.freed| && s.freed[i].serial == n;
        assert s'.freed[i].serial == n;
      }
    }
    forall i | 0 <= i < |s.freed|
      ensures s.freed[i].serial != s.heap[a].rec.serial
    {
      assert Freed(s, s.freed[i].serial);
    }
    forall n: nat | n < s'.allocs && !Freed(s', n)
      ensures Live(s', n)
    {
      assert Live(s, n);
      var b :| b in s.heap && s.heap[b].rec.serial == n;
      assert b in s'.heap;
    }
  }

  lemma AllocNumbered(s: State, s': State, a: Addr)
    requires Numbered(s) && a !in s.heap && a in s'.heap && s'.heap[a].rec.serial == s.allocs
    requires s'.heap == s.heap[a := s'.heap[a]] && s'.freed == s.freed && s'.allocs == s.allocs + 1
    ensures Numbered(s')
  {
    forall n: nat
      ensures Freed(s', n) <==> Freed(s, n)
      ensures n < s'.allocs && !Freed(s', n) ==> Live(s', n)
    {
      if n < s.allocs && !Freed(s, n) {
        assert Live(s, n);
        var b :| b in s.heap && s.heap[b].rec.serial == n;
        assert b in s'.heap && s'.heap[b].rec.serial == n;
      } else if n == s.allocs {
        assert s'.heap[a].rec.serial == n;
      }
    }
    assert !Freed(s, s.allocs);
  }

  lemma SameNumbered(s: State, s': State)
    requires Numbered(s) && s'.heap.Keys == s.heap.Keys && s'.freed == s.freed && s'.allocs == s.allocs
    requires forall a :: a in s.heap ==> s'.heap[a].rec == s.heap[a].rec
    ensures Numbered(s')
  {
    assert forall n: nat :: Freed(s', n) <==> Freed(s, n);
    forall n: nat | n < s'.allocs && !Freed(s', n)
      ensures Live(s', n)
    {
      assert Live(s, n);
      var b :| b in s.heap && s.heap[b].rec.serial == n;
      assert b in s'.heap && s'.heap[b].rec.serial == n;
    }
  }

  lemma ActionNumbered(s: State, l: seq<Addr>, a: Action)
    requires Core(s, l) && Numbered(s)
    ensures Numbered(Do(s, a))
  {
    match a
    case Execve(t, addr, junk, pid, parentPid) =>
      if PcOf(s, t) == Idle && addr !in s.heap && addr != NULL {
        AllocNumbered(s, Do(s, a), addr);
      } else {
        SameNumbered(s, Do(s, a));
      }
    case GetHook(_) => SameNumbered(s, Do(s, a));
    case Tick(t) =>
      if PcOf(s, t).Deliver? && PcOf(s, t).node in s.heap {
        DeliverEffect(s, t);
        FreeNumbered(s, Step(s, t), PcOf(s, t).node);
      } else {
        RecordsStay(s, t);
        SameNumbered(s, Step(s, t));
      }
  }

  lemma DeliverEffect(s: State, t: Tid)
    requires PcOf(s, t).Deliver? && PcOf(s, t).node in s.heap
    ensures var node, s' := PcOf(s, t).node, Step(s, t);
            node != NULL ==>
              s'.heap == s.heap - {node} && s'.freed == s.freed + [s.heap[node].rec] && s'.allocs == s.allocs
  {
  }

  lemma {:induction false} RecordsStay(s: State, t: Tid)
    requires PcOf(s, t).Deliver? ==> PcOf(s, t).node !in s.heap
    ensures var s' := Step(s, t);
            && s'.heap.Keys == s.heap.Keys && s'.freed == s.freed && s'.allocs == s.allocs
            && forall x :: x in s.heap ==> s'.heap[x].rec == s.heap[x].rec
  {
    match PcOf(s, t)
    case AtSlot(_, _) =>
    case Look(_, _) =>
    case Store(_, _) =>
    case PopStore(_, _) =>
    case Deliver(_) =>
    case _ =>
  }

  lemma {:induction false} RunIsNumbered(schedule: seq<Action>)
    requires CleanInserts(schedule)
    ensures Numbered(Run(INIT, schedule))
    decreases |schedule|
  {
    if schedule != [] {
      var before, a := schedule[..|schedule| - 1], schedule[|schedule| - 1];
      RunIsNumbered(before);
      var l := RunIsCore(before);
      var s := Run(INIT, before);
      ActionNumbered(s, l, a);
    }
  }

  lemma PlacesOfCell(s: State, l: seq<Addr>, a: Addr)
    requires Core(s, l) && Numbered(s) && a in s.heap
    ensures var n := s.heap[a].rec.serial;
            Count(WithCreator(s, n)) + Count(InList(s, l, n)) + Count(WithPopper(s, n)) == 1
  {
    var n := s.heap[a].rec.serial;
    assert InList(s, l, n) <==> a in l;
    assert NULL !in s.heap;
    forall t: Tid | Owner(PcOf(s, t)) in s.heap && s.heap[Owner(PcOf(s, t))].rec.serial == n
      ensures Owner(PcOf(s, t)) == a
    {
    }
    if a !in l {
      var t: Tid :| Owner(PcOf(s, t)) == a;
      assert forall u: Tid :: u != t ==> Owner(PcOf(s, u)) != a;
      assert WithCreator(s, n) <==> Creating(PcOf(s, t));
      assert WithPopper(s, n) <==> !Creating(PcOf(s, t));
    } else {
      assert forall t: Tid :: Owner(PcOf(s, t)) != a;
    }
  }

  // Main result: in every run each record ever allocated is in exactly one of the four
  // places, and no record is freed twice.
  lemma {:induction false} RecordAccounting(schedule: seq<Action>, n: nat)
    requires CleanInserts(schedule) && n < Run(INIT, schedule).allocs
    ensures var s := Run(INIT, schedule);
            var w := Walk(s.heap, s.head, |s.heap|);
            && w.Some? && FreedOnce(s.freed)
            && Count(WithCreator(s, n)) + Count(InList(s, w.value, n))
               + Count(WithPopper(s, n)) + Count(Freed(s, n)) == 1
  {
    var l := RunIsCore(schedule);
    RunIsNumbered(schedule);
    var s := Run(INIT, schedule);
    CoreRefines(s, l);
    if !Freed(s, n) {
      assert Live(s, n);
      var a :| a in s.heap && s.heap[a].rec.serial == n;
      PlacesOfCell(s, l, a);
    }
  }

  // ------------------------------------------------------------------
  // Unloading the module
  // ------------------------------------------------------------------

  function UnloadOne(s: State): State
    requires s.head in s.heap
  {
    var rec := s.heap[s.head].rec;
    s.(head := s.heap[s.head].next, heap := s.heap - {s.head}, popped := s.popped + [rec], freed := s.freed + [rec])
  }

  // The loop of cleanup_spybot: pop without the mutex and free, until the list is empty.
  // `fuel` bounds the number of rounds.
  function Unload(s: State, fuel: nat): State
    decreases fuel
  {
    if s.head == NULL || fuel == 0 then s
    else if s.head !in s.heap then Fault(s)
    else Unload(UnloadOne(s), fuel - 1)
  }

  lemma UnloadOneKeeps(s: State, l: seq<Addr>)
    requires Chain(s.heap, s.head, l) && l != []
    ensures s.head in s.heap
    ensures var s1 := UnloadOne(s);
            && Chain(s1.heap, s1.head, l[1..])
            && (forall a :: a in l <==> a == l[0] || a in l[1..])
  {
    ChainTail(s.heap, s.head, l);
    ChainFrame(s.heap, UnloadOne(s).head, l[1..], UnloadOne(s).heap);
  }

  lemma {:induction false} UnloadDrains(s: State, l: seq<Addr>, fuel: nat)
    requires Chain(s.heap, s.head, l) && !s.fault && |l| <= fuel
    ensures var s' := Unload(s, fuel);
            && s'.head == NULL && !s'.fault && s'.allocs == s.allocs
            && (forall a :: a in s'.heap <==> a in s.heap && a !in l)
            && (forall a :: a in s'.heap ==> s'.heap[a] == s.heap[a])
    decreases fuel
  {
    if l != [] {
      UnloadOneKeeps(s, l);
      UnloadDrains(UnloadOne(s), l[1..], fuel - 1);
    }
  }

  // Every record of the list goes to `freed`, oldest first.
  lemma {:induction false} UnloadFrees(s: State, l: seq<Addr>, fuel: nat)
    requires Chain(s.heap, s.head, l) && |l| <= fuel
    ensures Unload(s, fuel).freed == s.freed + Recs(s.heap, l)
    decreases fuel
  {
    if l == [] {
      assert Recs(s.heap, l) == [];
    } else {
      UnloadOneKeeps(s, l);
      UnloadFrees(UnloadOne(s), l[1..], fuel - 1);
      ChainTail(s.heap, s.head, l);
      assert Recs(UnloadOne(s).heap, l[1..]) == Recs(s.heap, l[1..]);
    }
  }

  lemma {:induction false} UnloadNumbered(s: State, l: seq<Addr>, fuel: nat)
    requires Chain(s.heap, s.head, l) && Numbered(s)
    ensures Numbered(Unload(s, fuel))
    decreases fuel
  {
    if l != [] && fuel > 0 {
      UnloadOneKeeps(s, l);
      FreeNumbered(s, UnloadOne(s), s.head);
      UnloadNumbered(UnloadOne(s), l[1..], fuel - 1);
    }
  }

  // Main result: unloading after any run frees the queued records, oldest first, in as many
  // rounds as there are, and leaves no record behind exactly when no thread was holding one.
  lemma {:induction false} UnloadFreesAllIff(schedule: seq<Action>)
    requires CleanInserts(schedule)
    ensures var s := Run(INIT, schedule);
            var s' := Unload(s, |s.heap|);
            var w := Walk(s.heap, s.head, |s.heap|);
            && s'.head == NULL && !s'.fault && FreedOnce(s'.freed)
            && w.Some? && (forall a :: a in w.value ==> a in s.heap) && s'.freed == s.freed + Recs(s.heap, w.value)
            && (AllFreed(s') <==> forall t: Tid :: Owner(PcOf(s, t)) == NULL)
  {
    var l := RunIsCore(schedule);
    RunIsNumbered(schedule);
    var s := Run(INIT, schedule);
    DistinctFits(l, s.heap.Keys);
    CoreRefines(s, l);
    UnloadDrains(s, l, |s.heap|);
    UnloadFrees(s, l, |s.heap|);
    UnloadNumbered(s, l, |s.heap|);
    var s' := Unload(s, |s.heap|);
    AllFreedIff(s');
    if t: Tid :| Owner(PcOf(s, t)) != NULL {
      assert Owner(PcOf(s, t)) in s'.heap;
    } else {
      assert forall a :: a in s.heap ==> a in l;
    }
  }

  ghost predicate AllFreed(s: State) {
    forall n: nat :: n < s.allocs ==> Freed(s, n)
  }

  lemma AllFreedIff(s: State)
    requires Numbered(s)
    ensures AllFreed(s) <==> forall a :: a !in s.heap
  {
    if a :| a in s.heap {
      assert !Freed(s, s.heap[a].rec.serial);
    } else {
      forall n: nat | n < s.allocs
        ensures Freed(s, n)
      {
        assert !Live(s, n);
      }
    }
  }
}
