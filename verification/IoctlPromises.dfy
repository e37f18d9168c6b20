/**
  What the ioctl entry promises a client, in terms of the words of the table, the tasks and
  the queued records.
*/
module IoctlPromises {
  import opened SyscallTable
  import opened DriverIoctl

  // ------------------------------------------------------------------
  // Each request
  // ------------------------------------------------------------------

  // A SEND whose argument can be read, and the device after it.
  function Sent(d: Device, option: int, param: int, kernel: Kernel): Device
    requires d.Valid()
  {
    Ioctl(d, Send(option, param), kernel).0
  }

  // What a client collects next.
  predicate Answers(d: Device, kernel: Kernel, value: int)
    requires d.Valid()
  {
    kernel.copyTo ==> Ioctl(d, Recv, kernel) == (d, Answer(value))
  }

  // Everything but the `result` word.
  predicate SameButResult(d: Device, d': Device) {
    d'.sct == d.sct && d'.queue == d.queue
  }

  // Main result: a repair writes the snapshot's word into the entry it names, and nothing
  // else, for every entry up to the word after the table; any other argument is refused.
  lemma RepairRestores(d: Device, i: int, kernel: Kernel, later: Kernel)
    requires d.Valid() && kernel.copyFrom
    ensures var d' := Sent(d, SCT_FIX, i, kernel);
            && Ioctl(d, Send(SCT_FIX, i), kernel).1 == Done && d'.Valid() && d'.queue == d.queue
            && d'.sct.snap == d.sct.snap && d'.sct.execveScf == d.sct.execveScf && d'.sct.fault == d.sct.fault
            && |d'.sct.table| == |d.sct.table|
            && (forall j :: 0 <= j < |d.sct.table| ==>
                  d'.sct.table[j] == if j == i then d.sct.snap[j] else d.sct.table[j])
            && (0 <= i < |d.sct.table| ==> Answers(d', later, 1))
            && (!(0 <= i < |d.sct.table|) ==> SameButResult(d, d') && Answers(d', later, 0))
  {
    if 0 <= i < |d.sct.table| {
      FixEntry(d.sct, i);
    }
  }

  // A scan answers the least entry that differs from the snapshot, or -1 if none does.
  lemma ScanAnswers(d: Device, kernel: Kernel, later: Kernel)
    requires d.Valid() && kernel.copyFrom
    ensures var d', sct := Sent(d, SCT_SCAN, 0, kernel), d.sct;
            && Ioctl(d, Send(SCT_SCAN, 0), kernel).1 == Done && SameButResult(d, d') && Answers(d', later, d'.result)
            && (d'.result == -1 <==> forall j :: 0 <= j < |sct.table| - 1 ==> sct.table[j] == sct.snap[j])
            && (d'.result != -1 ==>
                  && 0 <= d'.result < |sct.table| - 1 && sct.table[d'.result] != sct.snap[d'.result]
                  && forall j :: 0 <= j < d'.result ==> sct.table[j] == sct.snap[j])
  {
    CompareIsLeast(d.sct, 0);
  }

  // The three signals answer whether the task was found, and the scan of the interrupt
  // table what it found.
  lemma SignalAnswers(d: Device, option: int, param: int, kernel: Kernel, later: Kernel)
    requires d.Valid() && kernel.copyFrom && option in {KILL, SUSPEND, CONT, IDT_SCAN}
    ensures var d' := Sent(d, option, param, kernel);
            && Ioctl(d, Send(option, param), kernel).1 == Done && SameButResult(d, d')
            && Answers(d', later, if option == IDT_SCAN then kernel.idtEntry else if kernel.taskExists then 1 else 0)
  {
  }

  // GET_HOOK removes the oldest record and nothing else, and replies it if the copy to the
  // client succeeds; on an empty queue it dereferences null.
  lemma HookIsOldest(d: Device, param: int, kernel: Kernel)
    requires d.Valid() && kernel.copyFrom
    ensures var (d', reply) := Ioctl(d, Send(GET_HOOK, param), kernel);
            && d'.sct == d.sct && d'.result == d.result
            && (d.queue == [] ==> d' == d && reply == NullDereference)
            && (d.queue != [] ==> d.queue == [d.queue[0]] + d'.queue)
            && (d.queue != [] ==> reply == if kernel.copyTo then HookReply(d.queue[0]) else EFault)
  {
  }

  // The option numbers that a client sends, and the requests that change nothing.
  lemma RefusedChangesNothing(d: Device, command: Command, kernel: Kernel)
    requires d.Valid()
    ensures var (d', reply) := Ioctl(d, command, kernel);
            && (command.Send? && !kernel.copyFrom ==> d' == d && reply == EFault)
            && (command.Send? && kernel.copyFrom && !(0 <= command.option <= 6) ==> d' == d && reply == EInval)
            && (command == Recv && !kernel.copyTo ==> d' == d && reply == EFault)
            && (command == OtherCommand ==> d' == d && reply == ENotTy)
  {
  }

  // ------------------------------------------------------------------
  // A client that scans and repairs
  // ------------------------------------------------------------------

  // SEND(SCT_SCAN), RECV and SEND(SCT_FIX, answer), until the answer is -1 or the rounds are
  // used up; every copy succeeds.
  function RepairAll(d: Device, kernel: Kernel, rounds: nat): (r: Device)
    requires d.Valid() && kernel.copyFrom && kernel.copyTo
    ensures r.Valid()
    decreases rounds
  {
    var scanned := Sent(d, SCT_SCAN, 0, kernel);
    match Ioctl(scanned, Recv, kernel).1
    case Answer(entry) =>
      if entry == -1 || rounds == 0 then scanned
      else RepairAll(Sent(scanned, SCT_FIX, entry, kernel), kernel, rounds - 1)
    case _ => scanned
  }

  // The entries from `from` on are all that can differ.
  predicate CleanBelow(sct: Sct, from: nat) {
    |sct.table| == |sct.snap| && from < |sct.table| && forall j :: 0 <= j < from ==> sct.table[j] == sct.snap[j]
  }

  lemma {:induction false} RepairAllFrom(d: Device, kernel: Kernel, from: nat, rounds: nat)
    requires d.Valid() && kernel.copyFrom && kernel.copyTo
    requires CleanBelow(d.sct, from) && from + rounds >= |d.sct.table| - 1
    ensures var d', nr := RepairAll(d, kernel, rounds), |d.sct.table| - 1;
            && |d'.sct.table| == |d.sct.table| && (forall j :: 0 <= j < nr ==> d'.sct.table[j] == d.sct.snap[j])
            && d'.sct.table[nr] == d.sct.table[nr] && d'.sct.snap == d.sct.snap && d'.queue == d.queue
            && d'.result == -1
    decreases rounds
  {
    var scanned := Sent(d, SCT_SCAN, 0, kernel);
    ScanAnswers(d, kernel, kernel);
    assert Answers(scanned, kernel, scanned.result);
    if scanned.result != -1 {
      var entry := scanned.result;
      assert entry >= from;
      var fixed := Sent(scanned, SCT_FIX, entry, kernel);
      RepairRestores(scanned, entry, kernel, kernel);
      RepairAllFrom(fixed, kernel, entry + 1, rounds - 1);
    }
  }

  // Main result: with as many rounds as there are entries, such a client ends with the table
  // equal to the snapshot and a clean scan, and has touched neither the word after the table
  // nor the queue.
  lemma RepairAllRestores(d: Device, kernel: Kernel)
    requires d.Valid() && kernel.copyFrom && kernel.copyTo
    ensures var nr := |d.sct.table| - 1;
            var d' := RepairAll(d, kernel, nr);
            && |d'.sct.table| == nr + 1 && (forall j :: 0 <= j < nr ==> d'.sct.table[j] == d.sct.snap[j])
            && d'.sct.table[nr] == d.sct.table[nr] && d'.sct.snap == d.sct.snap && d'.queue == d.queue
            && d'.result == -1
  {
    RepairAllFrom(d, kernel, 0, |d.sct.table| - 1);
  }
}
