/** What holds whenever a process runs, in every run of the kernel: one process is running and
    it is the current one, in its own address space; process numbers are unique; and no
    process waits to send to one that waits to receive. */
module KernelSafety {
  import opened KernelModel

  predicate UniquePids(procs: seq<Process>) {
    forall i, j :: 0 <= i < |procs| && 0 <= j < |procs| && procs[i].pid == procs[j].pid && procs[i].pid != 0 ==> i == j
  }

  predicate PidsOk(procs: seq<Process>, nprocs: nat) {
    forall i :: 0 <= i < |procs| ==> 0 <= procs[i].pid <= nprocs && (!procs[i].status.Unused? ==> procs[i].pid > 0)
  }

  /** No lost wakeup. */
  predicate NoLostWakeup(procs: seq<Process>) {
    forall i, j :: 0 <= i < |procs| && 0 <= j < |procs| && procs[j].status.WaitToRecv? ==> !SendsTo(procs[i], procs[j].pid)
  }

  /** What holds inside the kernel, when the current process may have given up the processor. */
  predicate Mid(k: K) {
    && k.Wf()
    && PidsOk(k.procs, k.nprocs)
    && UniquePids(k.procs)
    && NoLostWakeup(k.procs)
    && forall i :: 0 <= i < MAX_NPROCESS && i != k.curr ==> !k.procs[i].status.Running?
  }

  predicate Safe(k: K) {
    && Mid(k)
    && k.Curr().status.Running?
    && k.vm == k.Curr().pid
  }

  lemma StatusOnlyOf(procs: seq<Process>, nprocs: nat, i: nat, s: Status)
    requires PidsOk(procs, nprocs) && UniquePids(procs) && i < |procs| && procs[i].pid > 0
    ensures WithStatus(procs, procs[i].pid, s) == procs[i := procs[i].(status := s)]
  {
    var r := WithStatus(procs, procs[i].pid, s);
    assert forall j :: 0 <= j < |procs| ==> r[j] == procs[i := procs[i].(status := s)][j];
  }

  /** From inside the kernel, a yield leads to a safe state whose current process was
      schedulable. */
  lemma YieldSafe(k: K)
    requires Mid(k) && Yield(k).Some?
    ensures Safe(Yield(k).value)
  {
    var n := FindNext(k.procs, k.curr, 1).value;
    var procs := if k.Curr().status.Running? then WithStatus(k.procs, k.Curr().pid, Runnable) else k.procs;
    if k.Curr().status.Running? {
      StatusOnlyOf(k.procs, k.nprocs, k.curr, Runnable);
    }
    StatusOnlyOf(procs, k.nprocs, n, Running);
  }

  lemma EnterSafe(k: K, sp: int, mepc: int)
    requires Mid(k)
    ensures Mid(Enter(k, sp, mepc))
    ensures Safe(k) ==> Safe(Enter(k, sp, mepc))
  {
  }

  lemma RecvSafe(k: K)
    requires Mid(k) && k.Curr().status.Running?
    ensures Mid(RecvStep(k))
  {
    var from := FindSender(k.procs, k.Curr().pid, MAX_NPROCESS);
    if from.Some? {
      StatusOnlyOf(k.procs, k.nprocs, from.value, Runnable);
    }
  }

  ghost predicate ActSafe(act: Act) {
    match act
    case Fatal => true
    case Return(k) => Safe(k)
    case Reschedule(k) => Mid(k)
  }

  lemma SendSafe(k: K)
    requires Safe(k)
    ensures ActSafe(SendAct(k))
  {
    var msg := k.Page(k.vm).msg;
    var to := FindPid(k.procs, msg.receiver, 0);
    if to.Some? {
      if k.procs[to.value].status.WaitToRecv? {
        StatusOnlyOf(k.procs, k.nprocs, to.value, Runnable);
      } else {
        // The receiver's slot is the only one with its process number, so nobody with that
        // number waits to receive.
        assert forall j :: 0 <= j < MAX_NPROCESS && k.procs[j].status.WaitToRecv? ==> k.procs[j].pid != msg.receiver;
      }
    }
  }

  lemma SyscallSafe(k: K)
    requires Safe(k)
    ensures ActSafe(SyscallAct(k))
  {
    if k.Page(k.vm).call.Recv? {
      RecvSafe(Called(k));
    } else if k.Page(k.vm).call.Send? {
      SendSafe(Called(k));
    }
  }

  lemma KilledSafe(k: K)
    requires Safe(k) && k.Curr().pid >= GPID_USER_START
    ensures Mid(Killed(k))
  {
  }

  lemma InterruptSafe(k: K, id: int, ctrlC: bool, sp: int, mepc: int)
    requires Safe(k)
    ensures ActSafe(Handle(k, Interrupt(id, ctrlC, sp, mepc)))
  {
    EnterSafe(k, sp, mepc);
    SyscallSafe(Enter(k, sp, mepc));
    if k.Curr().pid >= GPID_USER_START {
      KilledSafe(k);
      EnterSafe(Killed(k), sp, mepc);
    }
  }

  lemma AllocSafe(k: K)
    requires Safe(k)
    ensures ActSafe(Handle(k, Alloc))
  {
  }

  lemma LoadSafe(k: K, pid: int, page: Syscall)
    requires Safe(k) && Possible(k, Load(pid, page))
    ensures ActSafe(Handle(k, Load(pid, page)))
  {
    var i :| 0 <= i < MAX_NPROCESS && k.procs[i].pid == pid && k.procs[i].status.Loading?;
    StatusOnlyOf(k.procs, k.nprocs, i, Ready);
  }

  lemma FreeSafe(k: K, pid: int)
    requires Safe(k) && Possible(k, Free(pid))
    ensures ActSafe(Handle(k, Free(pid)))
  {
  }

  lemma FreeUsersSafe(k: K)
    requires Safe(k) && Possible(k, FreeUsers)
    ensures ActSafe(Handle(k, FreeUsers))
  {
  }

  lemma ComputeSafe(k: K, page: Syscall)
    requires Safe(k)
    ensures ActSafe(Handle(k, Compute(page)))
  {
  }

  lemma ExceptionSafe(k: K, id: int, sp: int, mepc: int)
    requires Safe(k)
    ensures ActSafe(Handle(k, Exception(id, sp, mepc)))
  {
    EveryExceptionIsSyscall(k, id, sp, mepc);
    EnterSafe(k, sp, mepc + 4);
    SyscallSafe(Enter(k, sp, mepc + 4));
  }

  lemma HandleSafe(k: K, e: Event)
    requires Safe(k) && Possible(k, e)
    ensures ActSafe(Handle(k, e))
  {
    match e {
      case Compute(page) =>
        ComputeSafe(k, page);
      case Exception(id, sp, mepc) =>
        ExceptionSafe(k, id, sp, mepc);
      case Interrupt(id, ctrlC, sp, mepc) =>
        InterruptSafe(k, id, ctrlC, sp, mepc);
      case Alloc =>
        AllocSafe(k);
      case Load(pid, page) =>
        LoadSafe(k, pid, page);
      case Free(pid) =>
        FreeSafe(k, pid);
      case FreeUsers =>
        FreeUsersSafe(k);
    }
  }

  /** What a handler may do to slot i before it reschedules: the current process keeps running,
      waits or is gone, any other keeps its status or becomes runnable. */
  predicate StatusKept(k: K, k1: K, i: nat)
    requires k.Wf() && i < MAX_NPROCESS
  {
    && k1.Wf() && k1.curr == k.curr
    && if i == k.curr then !k1.procs[i].status.Ready?
       else k1.procs[i].status == k.procs[i].status || k1.procs[i].status.Runnable?
  }

  lemma SyscallStatus(k: K, i: nat)
    requires Safe(k) && i < MAX_NPROCESS && SyscallAct(k).Reschedule?
    ensures StatusKept(k, SyscallAct(k).k, i)
  {
  }

  lemma HandleStatus(k: K, e: Event, i: nat)
    requires Safe(k) && i < MAX_NPROCESS && Handle(k, e).Reschedule?
    ensures StatusKept(k, Handle(k, e).k, i)
  {
    match e {
      case Exception(id, sp, mepc) =>
        EveryExceptionIsSyscall(k, id, sp, mepc);
        EnterSafe(k, sp, mepc + 4);
        SyscallStatus(Enter(k, sp, mepc + 4), i);
      case Interrupt(id, ctrlC, sp, mepc) =>
        EnterSafe(k, sp, mepc);
        if id == INTR_ID_SOFT && !(ctrlC && k.Curr().pid >= GPID_USER_START) {
          SyscallStatus(Enter(k, sp, mepc), i);
        }
      case _ =>
    }
  }

  /** Every event keeps the machine safe, kills included. */
  lemma StepSafe(k: K, e: Event)
    requires Safe(k) && Possible(k, e) && Step(k, e).Some?
    ensures Safe(Step(k, e).value)
  {
    HandleSafe(k, e);
    var act := Handle(k, e);
    if act.Reschedule? {
      YieldSafe(act.k);
    }
  }

  /** A run: the events are possible one after the other and none of them is fatal. */
  ghost predicate IsRun(k: K, events: seq<Event>, k': K)
    decreases |events|
  {
    if events == [] then k == k'
    else k.Wf() && Possible(k, events[0]) && Step(k, events[0]).Some? && IsRun(Step(k, events[0]).value, events[1..], k')
  }

  lemma {:induction false} RunsJoin(k: K, events: seq<Event>, mid: K, more: seq<Event>, k': K)
    requires IsRun(k, events, mid) && IsRun(mid, more, k')
    ensures IsRun(k, events + more, k')
    decreases |events|
  {
    if events == [] {
      assert events + more == more;
    } else {
      var all := events + more;
      RunsJoin(Step(k, events[0]).value, events[1..], mid, more, k');
      assert all[0] == events[0] && all[1..] == events[1..] + more;
    }
  }

  /** The machine once the first process, the process server, has been started. */
  function Booted(page: Syscall): K {
    K(seq(MAX_NPROCESS, i => if i == 0 then Process(1, Running, 0, 0, 0) else Process(0, Unused, 0, 0, 0)),
      0, 1, map[1 := page], 1, Log([], [], [], map[], map[]))
  }

  lemma {:induction false} RunSafe(k: K, events: seq<Event>, k': K)
    requires Safe(k) && IsRun(k, events, k')
    ensures Safe(k')
    decreases |events|
  {
    if events != [] {
      StepSafe(k, events[0]);
      RunSafe(Step(k, events[0]).value, events[1..], k');
    }
  }

  /** In every state that a run from boot reaches, exactly one slot is running, it is the
      current one, its address space is selected, process numbers are unique, and nobody waits
      to send to a process that waits to receive. */
  lemma AlwaysSafe(page: Syscall, events: seq<Event>, k: K)
    requires IsRun(Booted(page), events, k)
    ensures k.Wf() && k.vm == k.Curr().pid
    ensures forall i :: 0 <= i < MAX_NPROCESS ==> (k.procs[i].status.Running? <==> i == k.curr)
    ensures UniquePids(k.procs) && NoLostWakeup(k.procs)
  {
    RunSafe(Booted(page), events, k);
  }
}
