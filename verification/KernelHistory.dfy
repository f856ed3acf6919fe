/** What has happened in a run, read off its events and states: who sent what, what arrived
    where, and with which context each process last entered the kernel. The log that the machine
    keeps is exactly that. */
module KernelHistory {
  import opened Options
  import opened KernelModel
  import opened KernelSafety

  /** The event makes the kernel look at the system call area: an exception, or a software
      interrupt that is not a kill. */
  predicate TakesCall(k: K, e: Event)
    requires k.Wf()
  {
    match e
    case Exception(_, _, _) => true
    case Interrupt(id, ctrlC, _, _) => id == INTR_ID_SOFT && !(ctrlC && k.Curr().pid >= GPID_USER_START)
    case _ => false
  }

  /** The event saves the context of the running process: all but a timer interrupt of one of the
      servers, which returns at once. */
  predicate EntersKernel(k: K, e: Event)
    requires k.Wf()
  {
    match e
    case Exception(_, _, _) => true
    case Interrupt(id, _, _, _) => !(id == INTR_ID_TIMER && k.Curr().pid < GPID_SHELL)
    case _ => false
  }

  /** The stack pointer and program counter to come back to: past the instruction that caused
      an exception, at the one that was interrupted. */
  function ContextOf(e: Event): (int, int) {
    match e
    case Exception(_, sp, mepc) => (sp, mepc + 4)
    case Interrupt(_, _, sp, mepc) => (sp, mepc)
    case _ => (0, 0)
  }

  predicate Exists(procs: seq<Process>, pid: int) {
    exists i :: 0 <= i < |procs| && procs[i].pid == pid
  }

  predicate Waits(procs: seq<Process>, pid: int) {
    exists i :: 0 <= i < |procs| && procs[i].pid == pid && procs[i].status.WaitToRecv?
  }

  predicate HasSender(procs: seq<Process>, pid: int) {
    exists i :: 0 <= i < |procs| && SendsTo(procs[i], pid)
  }

  predicate Calls(k: K, e: Event, call: Call)
    requires k.Wf()
  {
    TakesCall(k, e) && k.Page(k.vm).call == call
  }

  /** The message that the running process asks to be sent. */
  function Request(k: K): Msg
    requires k.Wf()
  {
    Msg(k.Curr().pid, k.Page(k.vm).msg.receiver, k.Page(k.vm).msg.content)
  }

  /** A send call to a process that exists. */
  function Sent(k: K, e: Event): seq<Msg>
    requires k.Wf()
  {
    if Calls(k, e, Send) && Exists(k.procs, Request(k).receiver) then [Request(k)] else []
  }

  /** What has arrived in the area of a receiver after the step: of a process that waited for the
      message that is sent, or of the one that receives from a process that waits to send. */
  function Arrived(k: K, e: Event, k': K): seq<Msg>
    requires k.Wf()
  {
    if Calls(k, e, Send) && Waits(k.procs, Request(k).receiver) then [k'.Page(Request(k).receiver).msg]
    else if Calls(k, e, Recv) && HasSender(k.procs, k.Curr().pid) then [k'.Page(k.Curr().pid).msg]
    else []
  }

  /** The calls that processes are in while the scheduler runs. */
  function Pending(calling: map<int, Call>, k: K, e: Event): map<int, Call>
    requires k.Wf()
  {
    if TakesCall(k, e) then calling[k.Curr().pid := k.Page(k.vm).call] else calling
  }

  /** The history h after the step from k to k'; the process that runs then is in no call. */
  function Recorded(h: Log, k: K, e: Event, k': K): Log
    requires k.Wf() && k'.Wf()
  {
    Log(h.sends + Sent(k, e),
        h.deliveries + Arrived(k, e, k'),
        h.recvs + if Calls(k, e, Recv) then [k.Curr().pid] else [],
        if EntersKernel(k, e) then h.entry[k.Curr().pid := ContextOf(e)] else h.entry,
        Pending(h.calling, k, e) - {k'.Curr().pid})
  }

  const NOTHING := Log([], [], [], map[], map[])

  /** The history of a run, after the history h. */
  ghost function HistoryFrom(h: Log, k: K, events: seq<Event>): Log
    decreases |events|
  {
    if events == [] || !k.Wf() || Step(k, events[0]).None? || !Step(k, events[0]).value.Wf() then h
    else HistoryFrom(Recorded(h, k, events[0], Step(k, events[0]).value), Step(k, events[0]).value, events[1..])
  }

  ghost function History(page: Syscall, events: seq<Event>): Log {
    HistoryFrom(NOTHING, Booted(page), events)
  }

  // ------------------------------------------------------------------ the machine's log

  /** Finding the receiver, and finding it waiting, in terms of the slots. */
  lemma FoundIs(procs: seq<Process>, nprocs: nat, pid: int)
    requires PidsOk(procs, nprocs) && UniquePids(procs)
    ensures FindPid(procs, pid, 0).Some? <==> Exists(procs, pid)
    ensures FindPid(procs, pid, 0).Some? ==> (procs[FindPid(procs, pid, 0).value].status.WaitToRecv? <==> Waits(procs, pid))
  {
  }

  lemma SenderIs(procs: seq<Process>, pid: int)
    ensures FindSender(procs, pid, |procs|).Some? <==> HasSender(procs, pid)
  {
  }

  /** What a system call logs. */
  ghost predicate ActRecorded(k: K, e: Event, act: Act)
    requires k.Wf()
  {
    match act
    case Fatal => true
    case Return(k') => k'.Wf() && k'.log == Recorded(k.log, k, e, k')
    case Reschedule(k') =>
      && k'.Wf()
      && k'.log.sends == k.log.sends + Sent(k, e)
      && k'.log.deliveries == k.log.deliveries + Arrived(k, e, k')
      && k'.log.recvs == k.log.recvs + (if Calls(k, e, Recv) then [k.Curr().pid] else [])
      && k'.log.entry == (if EntersKernel(k, e) then k.log.entry[k.Curr().pid := ContextOf(e)] else k.log.entry)
      && k'.log.calling == Pending(k.log.calling, k, e)
  }

  /** Processes are found as before after an entry to the kernel. */
  lemma FoundAfterEntry(k: K, sp: int, mepc: int, pid: int)
    requires Safe(k)
    ensures var procs := Enter(k, sp, mepc).procs;
      && (FindPid(procs, pid, 0).Some? <==> Exists(k.procs, pid))
      && (FindPid(procs, pid, 0).Some? ==> (procs[FindPid(procs, pid, 0).value].status.WaitToRecv? <==> Waits(k.procs, pid)))
      && (FindSender(procs, pid, MAX_NPROCESS).Some? <==> HasSender(k.procs, pid))
  {
    var procs := Enter(k, sp, mepc).procs;
    FoundIs(procs, k.nprocs, pid);
    SenderIs(procs, pid);
    assert forall i :: 0 <= i < MAX_NPROCESS ==>
      procs[i].pid == k.procs[i].pid && procs[i].status == k.procs[i].status && procs[i].receiver == k.procs[i].receiver;
  }

  lemma SendRecorded(k: K, e: Event, k1: K)
    requires Safe(k) && Calls(k, e, Send) && k.Curr().pid !in k.log.calling
    requires k1 == Enter(k, ContextOf(e).0, ContextOf(e).1)
    ensures ActRecorded(k, e, SendAct(Called(k1)))
  {
    FoundAfterEntry(k, ContextOf(e).0, ContextOf(e).1, Request(k).receiver);
    var k2 := Called(k1);
    assert k2.procs == k1.procs && k2.Page(k.vm).msg == k.Page(k.vm).msg;
  }

  lemma RecvRecorded(k: K, e: Event, k1: K)
    requires Safe(k) && Calls(k, e, Recv) && k1 == Enter(k, ContextOf(e).0, ContextOf(e).1)
    ensures ActRecorded(k, e, Reschedule(RecvStep(Called(k1))))
  {
    FoundAfterEntry(k, ContextOf(e).0, ContextOf(e).1, k.Curr().pid);
    var k2 := Called(k1);
    assert k2.procs == k1.procs;
  }

  lemma SyscallRecorded(k: K, e: Event, k1: K)
    requires Safe(k) && TakesCall(k, e) && k.Curr().pid !in k.log.calling
    requires k1 == Enter(k, ContextOf(e).0, ContextOf(e).1)
    ensures ActRecorded(k, e, SyscallAct(k1))
  {
    if k.Page(k.vm).call == Send {
      SendRecorded(k, e, k1);
    } else if k.Page(k.vm).call == Recv {
      RecvRecorded(k, e, k1);
    }
  }

  lemma HandleRecorded(k: K, e: Event)
    requires Safe(k) && Possible(k, e) && k.Curr().pid !in k.log.calling
    ensures ActRecorded(k, e, Handle(k, e))
  {
    match e {
      case Exception(id, sp, mepc) =>
        EveryExceptionIsSyscall(k, id, sp, mepc);
        SyscallRecorded(k, e, Enter(k, sp, mepc + 4));
      case Interrupt(id, ctrlC, sp, mepc) =>
        InterruptRecorded(k, id, ctrlC, sp, mepc);
      case _ =>
        assert k.log.calling - {k.Curr().pid} == k.log.calling;
    }
  }

  lemma InterruptRecorded(k: K, id: int, ctrlC: bool, sp: int, mepc: int)
    requires Safe(k) && k.Curr().pid !in k.log.calling
    ensures ActRecorded(k, Interrupt(id, ctrlC, sp, mepc), Handle(k, Interrupt(id, ctrlC, sp, mepc)))
  {
    var e := Interrupt(id, ctrlC, sp, mepc);
    if TakesCall(k, e) {
      SyscallRecorded(k, e, Enter(k, sp, mepc));
    } else {
      assert k.log.calling - {k.Curr().pid} == k.log.calling;
    }
  }

  /** Every step logs exactly what happens in it. */
  lemma StepRecorded(k: K, e: Event)
    requires Safe(k) && Possible(k, e) && k.Curr().pid !in k.log.calling && Step(k, e).Some?
    ensures Step(k, e).value.Wf() && Step(k, e).value.log == Recorded(k.log, k, e, Step(k, e).value)
  {
    HandleRecorded(k, e);
    StepSafe(k, e);
    var act, k' := Handle(k, e), Step(k, e).value;
    if act.Reschedule? {
      assert k'.pages == act.k.pages && k'.log == act.k.log.(calling := act.k.log.calling - {k'.Curr().pid});
    }
  }

  lemma {:induction false} LogIsHistoryFrom(k: K, events: seq<Event>, k': K)
    requires Safe(k) && k.Curr().pid !in k.log.calling && IsRun(k, events, k')
    ensures k'.log == HistoryFrom(k.log, k, events)
    decreases |events|
  {
    if events != [] {
      StepSafe(k, events[0]);
      StepRecorded(k, events[0]);
      LogIsHistoryFrom(Step(k, events[0]).value, events[1..], k');
    }
  }

  /** In every run from boot the log is the history of the run. */
  lemma LogIsHistory(page: Syscall, events: seq<Event>, k: K)
    requires IsRun(Booted(page), events, k)
    ensures k.log == History(page, events)
  {
    LogIsHistoryFrom(Booted(page), events, k);
  }

  /** The history of a run with one more step. */
  lemma {:induction false} HistoryNext(h: Log, k: K, events: seq<Event>, mid: K, e: Event)
    requires Safe(k) && IsRun(k, events, mid) && mid.Wf() && Possible(mid, e) && Step(mid, e).Some?
    ensures Safe(mid) && Safe(Step(mid, e).value)
    ensures HistoryFrom(h, k, events + [e]) == Recorded(HistoryFrom(h, k, events), mid, e, Step(mid, e).value)
    decreases |events|
  {
    if events == [] {
      StepSafe(k, e);
      assert [e][1..] == [] && events + [e] == [e];
    } else {
      var k1 := Step(k, events[0]).value;
      StepSafe(k, events[0]);
      HistoryNext(Recorded(h, k, events[0], k1), k1, events[1..], mid, e);
      assert (events + [e])[1..] == events[1..] + [e];
    }
  }
}
