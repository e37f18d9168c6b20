/**
  The syscall table of the driver: hijack, snapshot, compare, repair, and the write bit of
  the page that holds the table.

  `table` and `snap` have one word more than there are system calls: word `Nr` is whatever
  the kernel keeps right after the table (and right after the snapshot).  fix_sct reaches it.
*/
module SyscallTable {
  newtype Word = w: int | 0 <= w < 0x1_0000_0000_0000_0000

  const EXECVE: nat := 59                  // __NR_execve on x86-64

  // A page entry: the write bit, and the entry with the write bit cleared (pte & ~_PAGE_RW),
  // which is not zero for a page that is mapped.
  datatype Pte = Pte(rw: bool, others: nat)

  datatype Sct = Sct(table: seq<Word>, snap: seq<Word>, execveScf: Word, pte: Pte, fault: bool) {
    // The number of system calls.
    function Nr(): int {
      |table| - 1
    }

    ghost predicate Valid() {
      |table| == |snap| && EXECVE < Nr() && pte.others != 0
    }

    predicate Writable() {
      pte.rw
    }

    // A store to the table: it traps when the page is read-only.
    function Write(i: nat, v: Word): Sct
      requires i < |table|
    {
      if Writable() then this.(table := table[i := v]) else this.(fault := true)
    }

    function SetPageRw(): Sct {
      if pte.others != 0 then this.(pte := pte.(rw := true)) else this
    }

    function SetPageRo(): Sct {
      this.(pte := pte.(rw := false))
    }

    function Hijack(newExecve: Word): Sct
      requires EXECVE < |table|
    {
      var m := SetPageRw();
      m.(execveScf := m.table[EXECVE]).Write(EXECVE, newExecve).SetPageRo()
    }

    function RemoveHijack(): Sct
      requires EXECVE < |table|
    {
      SetPageRw().Write(EXECVE, execveScf).SetPageRo()
    }

    // create_temp_sct copies the Nr() entries and nothing more.
    function Snapshot(): Sct
      requires |table| == |snap| > 0
    {
      this.(snap := table[..Nr()] + snap[Nr()..])
    }

    // compare_scts from entry i on.
    function CompareFrom(i: nat): int
      requires |table| == |snap| && i < |table|
      decreases Nr() - i
    {
      if i == Nr() then -1 else if table[i] != snap[i] then i else CompareFrom(i + 1)
    }

    function Compare(): int
      requires |table| == |snap| > 0
    {
      CompareFrom(0)
    }

    // The range check of fix_sct, with its `<=`.
    predicate Fixes(syscall: int) {
      syscall >= 0 && syscall <= Nr()
    }

    function Fix(syscall: int): Sct
      requires |table| == |snap|
    {
      if Fixes(syscall) then SetPageRw().Write(syscall, snap[syscall]).SetPageRo() else this
    }

    // init_spybot, as far as the table goes: the snapshot is taken after the hook.
    function Load(newExecve: Word): Sct
      requires |table| == |snap| && EXECVE < Nr()
    {
      Hijack(newExecve).Snapshot()
    }
  }

  // ------------------------------------------------------------------
  // The operations on memory
  // ------------------------------------------------------------------

  class Driver {
    const nr: nat
    const table: array<Word>
    const snap: array<Word>
    var execveScf: Word
    var pte: Pte
    ghost var fault: bool

    ghost predicate Valid()
      reads this, table, snap
    {
      table != snap && table.Length == snap.Length == nr + 1 && Abs().Valid()
    }

    ghost function Abs(): Sct
      reads this, table, snap
    {
      Sct(table[..], snap[..], execveScf, pte, fault)
    }

    constructor (nr: nat, table: array<Word>, snap: array<Word>, pte: Pte)
      requires table != snap && table.Length == snap.Length == nr + 1 && EXECVE < nr
      requires pte.others != 0
      ensures Valid() && Abs() == Sct(table[..], snap[..], 0, pte, false)
      ensures this.nr == nr && this.table == table && this.snap == snap
    {
      this.nr, this.table, this.snap, this.pte := nr, table, snap, pte;
      execveScf, fault := 0, false;
    }

    method SetPageRw()
      requires Valid()
      modifies `pte
      ensures Abs() == old(Abs()).SetPageRw()
    {
      if pte.others != 0 {
        pte := pte.(rw := true);
      }
    }

    method SetPageRo()
      requires Valid()
      modifies `pte
      ensures Abs() == old(Abs()).SetPageRo()
    {
      pte := pte.(rw := false);
    }

    // A store traps, and changes nothing, when the page is read-only.
    method Write(i: nat, v: Word)
      requires Valid() && i <= nr
      modifies table, `fault
      ensures Abs() == old(Abs()).Write(i, v)
    {
      if pte.rw {
        table[i] := v;
      } else {
        fault := true;
      }
    }

    method SyscallHijack(newExecve: Word)
      requires Valid()
      modifies this, table
      ensures Valid() && Abs() == old(Abs()).Hijack(newExecve)
    {
      SetPageRw();
      execveScf := table[EXECVE];
      Write(EXECVE, newExecve);
      SetPageRo();
    }

    method RemoveSyscallHijack()
      requires Valid()
      modifies this, table
      ensures Valid() && Abs() == old(Abs()).RemoveHijack()
    {
      SetPageRw();
      Write(EXECVE, execveScf);
      SetPageRo();
    }

    method CreateTempSct()
      requires Valid()
      modifies snap
      ensures Valid() && Abs() == old(Abs()).Snapshot()
    {
      var i := 0;
      while i < nr
        invariant 0 <= i <= nr
        invariant snap[..] == table[..i] + old(snap[..])[i..]
      {
        snap[i] := table[i];
        i := i + 1;
      }
      assert table[..][..nr] == table[..nr];
    }

    method CompareScts() returns (r: int)
      requires Valid()
      ensures r == Abs().Compare()
    {
      var i := 0;
      while i < nr
        invariant 0 <= i <= nr
        invariant Abs().Compare() == Abs().CompareFrom(i)
      {
        if table[i] != snap[i] {
          return i;
        }
        i := i + 1;
      }
      return -1;
    }

    method FixSct(syscall: int) returns (isFixed: bool)
      requires Valid()
      modifies table, `pte, `fault
      ensures Valid() && Abs() == old(Abs()).Fix(syscall) && isFixed == old(Abs()).Fixes(syscall)
    {
      isFixed := false;
      if syscall >= 0 && syscall <= nr {
        SetPageRw();
        Write(syscall, snap[syscall]);
        SetPageRo();
        isFixed := true;
      }
    }

    method Load(newExecve: Word)
      requires Valid()
      modifies this, table, snap
      ensures Valid() && Abs() == old(Abs()).Load(newExecve)
    {
      SyscallHijack(newExecve);
      CreateTempSct();
    }
  }

  // ------------------------------------------------------------------
  // Scan and repair
  // ------------------------------------------------------------------

  // compare_scts reports the least entry that differs, and -1 exactly when none does.
  lemma {:induction false} CompareIsLeast(m: Sct, i: nat)
    requires |m.table| == |m.snap| && i < |m.table|
    ensures var r := m.CompareFrom(i);
            && (r == -1 <==> forall j :: i <= j < m.Nr() ==> m.table[j] == m.snap[j])
            && (r != -1 ==> i <= r < m.Nr() && m.table[r] != m.snap[r])
            && (r != -1 ==> forall j :: i <= j < r ==> m.table[j] == m.snap[j])
    decreases m.Nr() - i
  {
    if i < m.Nr() && m.table[i] == m.snap[i] {
      CompareIsLeast(m, i + 1);
    }
  }

  // A repair of an entry of the table writes that entry and nothing else.
  lemma FixEntry(m: Sct, i: nat)
    requires m.Valid() && i < |m.table|
    ensures m.Fix(i) == m.(table := m.table[i := m.snap[i]], pte := m.pte.(rw := false)) && m.Fix(i).Valid()
  {
  }

  // A client that scans and repairs the reported entry until the scan is clean: the entries
  // it is told about, and the state it ends in.
  function ScanRepair(m: Sct): (seq<int>, Sct)
    requires m.Valid()
    decreases if m.Compare() == -1 then 0 else m.Nr() - m.Compare()
  {
    var i := m.Compare();
    if i == -1 then ([], m)
    else
      CompareIsLeast(m, 0);
      FixEntry(m, i);
      CompareIsLeast(m.Fix(i), 0);
      var (reported, end) := ScanRepair(m.Fix(i));
      ([i] + reported, end)
  }

  ghost function Differing(m: Sct): set<int>
    requires |m.table| == |m.snap|
  {
    set i | 0 <= i < m.Nr() && m.table[i] != m.snap[i]
  }

  lemma FixReported(m: Sct)
    requires m.Valid()
    ensures var i := m.Compare();
            && (i == -1 ==> Differing(m) == {})
            && (i != -1 ==>
                  && i in Differing(m) && m.Fix(i).Valid() && Differing(m.Fix(i)) == Differing(m) - {i}
                  && (m.Fix(i).Compare() != -1 ==> m.Fix(i).Compare() > i)
                  && forall d :: d in Differing(m.Fix(i)) ==> i < d)
  {
    CompareIsLeast(m, 0);
    if m.Compare() != -1 {
      FixEntry(m, m.Compare());
      CompareIsLeast(m.Fix(m.Compare()), 0);
    }
  }

  // Main result: from any tampered table the loop reports the differing entries, all of
  // them, once each and in increasing order ...
  lemma {:induction false} ScanRepairReports(m: Sct)
    requires m.Valid()
    ensures var reported := ScanRepair(m).0;
            && (forall j, k :: 0 <= j < k < |reported| ==> reported[j] < reported[k])
            && (forall i :: i in reported <==> i in Differing(m))
            && |reported| == |Differing(m)|
    decreases if m.Compare() == -1 then 0 else m.Nr() - m.Compare()
  {
    var i := m.Compare();
    FixReported(m);
    if i != -1 {
      ScanRepairReports(m.Fix(i));
      var rest := ScanRepair(m.Fix(i)).0;
      assert ScanRepair(m).0 == [i] + rest;
      assert forall k :: 0 <= k < |rest| ==> rest[k] in Differing(m.Fix(i));
    }
  }

  // ... and it ends clean: the table equals the snapshot, the word after it is untouched.
  lemma {:induction false} ScanRepairConverges(m: Sct)
    requires m.Valid()
    ensures var end := ScanRepair(m).1;
            && end.table == m.snap[..m.Nr()] + m.table[m.Nr()..]
            && end.snap == m.snap && end.execveScf == m.execveScf && end.fault == m.fault
            && end.Compare() == -1
    decreases if m.Compare() == -1 then 0 else m.Nr() - m.Compare()
  {
    var i := m.Compare();
    CompareIsLeast(m, 0);
    if i != -1 {
      FixEntry(m, i);
      CompareIsLeast(m.Fix(i), 0);
      ScanRepairConverges(m.Fix(i));
    }
  }

  // fix_sct accepts one index too many.  A call leaves the word after the table alone
  // exactly when its argument is not that index, or the two stray words agree anyway.
  lemma {:induction false} FixStaysInTableIff(m: Sct, syscall: int)
    requires m.Valid()
    ensures m.Fix(syscall).table[m.Nr()] == m.table[m.Nr()]
            <==> syscall != m.Nr() || m.snap[m.Nr()] == m.table[m.Nr()]
  {
    if m.Fixes(syscall) {
      FixEntry(m, syscall);
    }
  }

  // ------------------------------------------------------------------
  // From load to unload
  // ------------------------------------------------------------------

  // What happens between load and unload: somebody overwrites a word of the table or the
  // word after it, or a client asks for a scan or for a repair with any argument.
  datatype Event = Tamper(i: nat, v: Word) | Scan | Repair(syscall: int)

  function Apply(m: Sct, e: Event): Sct
    requires |m.table| == |m.snap|
  {
    match e
    case Tamper(i, v) => if i < |m.table| then m.(table := m.table[i := v]) else m
    case Scan => m
    case Repair(syscall) => m.Fix(syscall)
  }

  function After(m: Sct, events: seq<Event>): (r: Sct)
    requires |m.table| == |m.snap|
    ensures |r.table| == |r.snap| == |m.table|
    decreases |events|
  {
    if events == [] then m else Apply(After(m, events[..|events| - 1]), events[|events| - 1])
  }

  // Events word by word, and one after the other.
  lemma EventWords(m: Sct, e: Event, j: nat)
    requires m.Valid() && j < |m.table|
    ensures var m' := Apply(m, e);
            && m'.snap == m.snap && m'.execveScf == m.execveScf && |m'.table| == |m.table|
            && (e.Tamper? ==> m'.table[j] == if j == e.i then e.v else m.table[j])
            && (e.Scan? ==> m' == m)
            && (e.Repair? ==> m'.table[j] == if j == e.syscall then m.snap[j] else m.table[j])
  {
  }

  lemma EventsInOrder(m: Sct, events: seq<Event>, e: Event)
    requires |m.table| == |m.snap|
    ensures After(m, []) == m && After(m, events + [e]) == Apply(After(m, events), e)
  {
    assert (events + [e])[..|events|] == events;
  }

  // Between two operations of the driver: mapped, closed, never trapped.
  ghost predicate Settled(m: Sct) {
    m.Valid() && !m.fault && !m.Writable()
  }

  lemma LoadSettles(pre: Sct, newExecve: Word)
    requires pre.Valid() && !pre.fault
    ensures var m := pre.Load(newExecve);
            && Settled(m) && m.execveScf == pre.table[EXECVE]
            && m.table == pre.table[EXECVE := newExecve]
            && (forall i :: 0 <= i < m.Nr() ==> m.snap[i] == m.table[i])
            && m.snap[m.Nr()] == pre.snap[pre.Nr()]
  {
    var m := pre.Load(newExecve);
    forall i | 0 <= i < m.Nr()
      ensures m.snap[i] == m.table[i]
    {
      assert pre.Hijack(newExecve).table[..m.Nr()][i] == m.table[i];
    }
  }

  lemma {:induction false} EventsSettle(m: Sct, events: seq<Event>)
    requires Settled(m)
    ensures var r := After(m, events); Settled(r) && r.snap == m.snap && r.execveScf == m.execveScf && r.pte == m.pte
    decreases |events|
  {
    if events != [] {
      EventsSettle(m, events[..|events| - 1]);
      var r, e := After(m, events[..|events| - 1]), events[|events| - 1];
      if e.Repair? && r.Fixes(e.syscall) {
        FixEntry(r, e.syscall);
      }
    }
  }

  // Main result: over any run from load through any events to unload, no store of the
  // driver ever finds the page read-only, and the page is read-only after every operation.
  lemma {:induction false} NeverTraps(pre: Sct, newExecve: Word, events: seq<Event>)
    requires pre.Valid() && !pre.fault
    ensures var m := After(pre.Load(newExecve), events);
            Settled(pre.Load(newExecve)) && Settled(m) && Settled(m.RemoveHijack())
  {
    LoadSettles(pre, newExecve);
    EventsSettle(pre.Load(newExecve), events);
  }

  // The snapshot contains the driver's own hook, so it is not reported.
  lemma CleanAfterLoad(pre: Sct, newExecve: Word)
    requires pre.Valid() && !pre.fault
    ensures pre.Load(newExecve).Compare() == -1
  {
    LoadSettles(pre, newExecve);
    CompareIsLeast(pre.Load(newExecve), 0);
  }

  // Main result: unload always puts the original execve entry back, and it gives back the
  // whole table exactly when no other entry differs from the snapshot at that moment.
  lemma UnloadRestoresIff(pre: Sct, newExecve: Word, events: seq<Event>)
    requires pre.Valid() && !pre.fault
    ensures var m := After(pre.Load(newExecve), events);
            var end := m.RemoveHijack();
            && end.table[EXECVE] == pre.table[EXECVE]
            && (end.table[..pre.Nr()] == pre.table[..pre.Nr()] <==> Differing(m) <= {EXECVE})
            && (m.Compare() == -1 ==> end.table[..pre.Nr()] == pre.table[..pre.Nr()])
  {
    LoadSettles(pre, newExecve);
    EventsSettle(pre.Load(newExecve), events);
    var m := After(pre.Load(newExecve), events);
    var end, nr := m.RemoveHijack(), pre.Nr();
    CompareIsLeast(m, 0);
    forall i | 0 <= i < nr && i != EXECVE
      ensures end.table[..nr][i] == pre.table[..nr][i] <==> i !in Differing(m)
    {
      assert m.snap[i] == pre.table[i] && end.table[i] == m.table[i];
    }
    assert end.table[..nr][EXECVE] == pre.table[..nr][EXECVE];
    if Differing(m) <= {EXECVE} {
      assert forall i :: 0 <= i < nr && i != EXECVE ==> i !in Differing(m);
    }
  }
}
