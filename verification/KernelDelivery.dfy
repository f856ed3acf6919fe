/** Messages are delivered exactly once and unchanged, and processes resume where they left:
    in every run in which no kill wakes the shell out of a call. */
module KernelDelivery {
  import opened Options
  import opened KernelModel
  import opened KernelSafety
  import opened KernelHistory

  /** The messages in a log from process p. */
  function By(log: seq<Msg>, p: int): seq<Msg> {
    if log == [] then []
    else By(log[..|log| - 1], p) + if log[|log| - 1].sender == p then [log[|log| - 1]] else []
  }

  /** The messages in a log for process p. */
  function For(log: seq<Msg>, p: int): seq<Msg> {
    if log == [] then []
    else For(log[..|log| - 1], p) + if log[|log| - 1].receiver == p then [log[|log| - 1]] else []
  }

  function Count(log: seq<int>, p: int): nat {
    if log == [] then 0 else Count(log[..|log| - 1], p) + if log[|log| - 1] == p then 1 else 0
  }

  lemma Append(log: seq<Msg>, m: Msg, p: int)
    ensures By(log + [m], p) == By(log, p) + if m.sender == p then [m] else []
    ensures For(log + [m], p) == For(log, p) + if m.receiver == p then [m] else []
  {
    assert (log + [m])[..|log|] == log;
  }

  lemma AppendCount(log: seq<int>, q: int, p: int)
    ensures Count(log + [q], p) == Count(log, p) + if q == p then 1 else 0
  {
    assert (log + [q])[..|log|] == log;
  }

  /** The process has left the processor and can come back to it. */
  predicate IsParked(s: Status) {
    s.Runnable? || s.WaitToSend? || s.WaitToRecv?
  }

  ghost predicate SlotExact(k: K, q: Process) {
    && (q.status.WaitToSend? ==>
          && By(k.log.sends, q.pid) == By(k.log.deliveries, q.pid) + [k.Page(q.pid).msg]
          && k.Page(q.pid).msg.sender == q.pid && k.Page(q.pid).msg.receiver == q.receiver)
    && (!q.status.WaitToSend? ==> By(k.log.sends, q.pid) == By(k.log.deliveries, q.pid))
    && Count(k.log.recvs, q.pid) == |For(k.log.deliveries, q.pid)| + (if q.status.WaitToRecv? then 1 else 0)
    && (IsParked(q.status) ==> q.pid in k.log.entry && k.log.entry[q.pid] == (q.sp, q.mepc))
    && (IsParked(q.status) && q.pid in k.log.calling ==> k.Page(q.pid).retval == 0 && k.Page(q.pid).call == NoCall)
    && (q.status.Runnable? && q.pid in k.log.calling && k.log.calling[q.pid] == Recv ==>
          For(k.log.deliveries, q.pid) != [] && k.Page(q.pid).msg == Last(For(k.log.deliveries, q.pid)))
    && (q.status.WaitToRecv? ==> q.pid in k.log.calling && k.log.calling[q.pid] == Recv)
    && (q.status.WaitToSend? ==> q.pid in k.log.calling && k.log.calling[q.pid] == Send)
    && (q.status.Loading? || q.status.Ready? ==> q.pid !in k.log.entry)
    && (!IsParked(q.status) ==> q.pid !in k.log.calling)
    && (!q.status.Loading? ==> q.pid in k.pages)
  }

  function Last(s: seq<Msg>): Msg {
    if s == [] then Msg(0, 0, []) else s[|s| - 1]
  }

  /** Only processes that exist occur in the log. */
  ghost predicate LogOk(k: K) {
    && (forall m :: m in k.log.sends ==> 0 < m.sender <= k.nprocs)
    && (forall m :: m in k.log.deliveries ==> 0 < m.sender <= k.nprocs && 0 < m.receiver <= k.nprocs)
    && (forall p :: p in k.log.recvs ==> 0 < p <= k.nprocs)
    && (forall p :: p in k.log.calling ==> 0 < p <= k.nprocs)
    && (forall p :: p in k.log.entry ==> 0 < p <= k.nprocs)
  }

  ghost predicate SlotOk(k: K, q: Process) {
    if q.status.Unused? then q.pid !in k.pages else SlotExact(k, q)
  }

  ghost predicate Exact(k: K) {
    && k.Wf()
    && LogOk(k)
    && forall i {:trigger SlotOk(k, k.procs[i])} :: 0 <= i < MAX_NPROCESS ==> SlotOk(k, k.procs[i])
  }

  /** The state in which the scheduler looks for the next process: a process that is still
      running has been set aside as runnable. */
  function Parked(k: K): K
    requires k.Wf()
  {
    if k.Curr().status.Running? then k.SetCurr(k.Curr().(status := Runnable)) else k
  }

  /** A slot that is the same and whose process nothing has happened to is still exact. */
  lemma SlotFrame(k: K, k': K, q: Process)
    requires SlotOk(k, q)
    requires By(k'.log.sends, q.pid) == By(k.log.sends, q.pid)
    requires By(k'.log.deliveries, q.pid) == By(k.log.deliveries, q.pid)
    requires For(k'.log.deliveries, q.pid) == For(k.log.deliveries, q.pid)
    requires Count(k'.log.recvs, q.pid) == Count(k.log.recvs, q.pid)
    requires q.pid in k'.log.entry <==> q.pid in k.log.entry
    requires q.pid in k.log.entry ==> k'.log.entry[q.pid] == k.log.entry[q.pid]
    requires q.pid in k'.log.calling <==> q.pid in k.log.calling
    requires q.pid in k.log.calling ==> k'.log.calling[q.pid] == k.log.calling[q.pid]
    requires q.pid in k'.pages <==> q.pid in k.pages
    requires k'.Page(q.pid) == k.Page(q.pid)
    ensures SlotOk(k', q)
  {
  }

  /** Entering the kernel leaves the process ready to be set aside. */
  lemma EnterExact(k: K, sp: int, mepc: int)
    requires Safe(k) && Exact(k)
    ensures Exact(Parked(Enter(k, sp, mepc)))
  {
    var k' := Parked(Enter(k, sp, mepc));
    forall i | 0 <= i < MAX_NPROCESS
      ensures SlotOk(k', k'.procs[i])
    {
      assert SlotOk(k, k.procs[i]);
      if i != k.curr {
        SlotFrame(k, k', k.procs[i]);
      }
    }
  }

  /** The scheduler. */
  lemma YieldExact(k: K)
    requires Mid(k) && Exact(Parked(k)) && Yield(k).Some?
    ensures Exact(Yield(k).value)
  {
    var k1, k' := Parked(k), Yield(k).value;
    var n := FindNext(k.procs, k.curr, 1).value;
    if k.Curr().status.Running? {
      StatusOnlyOf(k.procs, k.nprocs, k.curr, Runnable);
    }
    StatusOnlyOf(k1.procs, k.nprocs, n, Running);
    assert k'.procs == k1.procs[n := k1.procs[n].(status := Running)];
    forall i | 0 <= i < MAX_NPROCESS
      ensures SlotOk(k', k'.procs[i])
    {
      assert SlotOk(k1, k1.procs[i]);
      if i != n {
        SlotFrame(k1, k', k1.procs[i]);
      }
    }
  }

  /** The state right after entering the kernel for a call: the caller runs in its own address
      space and has no other call outstanding. */
  ghost predicate AtCall(k: K) {
    && Safe(k)
    && Exact(Parked(k))
    && k.Curr().pid !in k.log.calling
  }

  /** A receive without a waiting sender. */
  lemma RecvWaitsSlot(k: K, i: nat)
    requires AtCall(k) && FindSender(k.procs, k.Curr().pid, MAX_NPROCESS).None? && k.Page(k.vm).call == Recv
    requires i < MAX_NPROCESS
    ensures SlotOk(RecvStep(Called(k)), RecvStep(Called(k)).procs[i])
  {
    var k0, k', p := Parked(k), RecvStep(Called(k)), k.Curr().pid;
    assert SlotOk(k0, k0.procs[i]) && SlotOk(k0, k0.procs[k.curr]);
    AppendCount(k.log.recvs, p, k.procs[i].pid);
    if i != k.curr {
      SlotFrame(k0, k', k.procs[i]);
    }
  }

  /** A receive from the waiting sender in slot s. */
  lemma RecvTakesSlot(k: K, s: nat, i: nat)
    requires AtCall(k) && FindSender(k.procs, k.Curr().pid, MAX_NPROCESS) == Some(s) && k.Page(k.vm).call == Recv
    requires i < MAX_NPROCESS
    ensures SlotOk(Parked(RecvStep(Called(k))), Parked(RecvStep(Called(k))).procs[i])
    ensures k.Page(k.procs[s].pid).msg.sender == k.procs[s].pid && k.Page(k.procs[s].pid).msg.receiver == k.Curr().pid
  {
    var k0, p, from := Parked(k), k.Curr().pid, k.procs[s].pid;
    var k' := Parked(RecvStep(Called(k)));
    var m := k.Page(from).msg;
    StatusOnlyOf(k.procs, k.nprocs, s, Runnable);
    assert k'.procs == k0.procs[s := k0.procs[s].(status := Runnable)];
    assert SlotOk(k0, k0.procs[i]) && SlotOk(k0, k0.procs[s]) && SlotOk(k0, k0.procs[k.curr]);
    Append(k.log.deliveries, m, k.procs[i].pid);
    AppendCount(k.log.recvs, p, k.procs[i].pid);
    if i != k.curr && i != s {
      SlotFrame(k0, k', k.procs[i]);
    }
  }

  lemma RecvExact(k: K)
    requires AtCall(k) && k.Page(k.vm).call == Recv
    ensures Exact(Parked(RecvStep(Called(k))))
  {
    var from := FindSender(k.procs, k.Curr().pid, MAX_NPROCESS);
    var k' := Parked(RecvStep(Called(k)));
    forall i | 0 <= i < MAX_NPROCESS
      ensures SlotOk(k', k'.procs[i])
    {
      if from.None? {
        RecvWaitsSlot(k, i);
      } else {
        RecvTakesSlot(k, from.value, i);
      }
    }
    if from.Some? {
      RecvTakesSlot(k, from.value, 0);
    }
  }

  /** A send to a process that does not exist. */
  lemma SendFails(k: K)
    requires AtCall(k) && k.Page(k.vm).call == Send
    requires FindPid(k.procs, k.Page(k.vm).msg.receiver, 0).None?
    ensures SendAct(Called(k)).Return? && Exact(SendAct(Called(k)).k)
  {
    var k0, k' := Parked(k), SendAct(Called(k)).k;
    forall i | 0 <= i < MAX_NPROCESS
      ensures SlotOk(k', k'.procs[i])
    {
      assert SlotOk(k0, k0.procs[i]) && SlotOk(k0, k0.procs[k.curr]);
      if i != k.curr {
        SlotFrame(k0, k', k.procs[i]);
      }
    }
  }

  /** A send to a process that is not receiving. */
  lemma SendWaitsSlot(k: K, to: nat, i: nat)
    requires AtCall(k) && k.Page(k.vm).call == Send && i < MAX_NPROCESS
    requires FindPid(k.procs, k.Page(k.vm).msg.receiver, 0) == Some(to) && !k.procs[to].status.WaitToRecv?
    ensures SendAct(Called(k)).Reschedule? && SlotOk(SendAct(Called(k)).k, SendAct(Called(k)).k.procs[i])
  {
    var k0, k', p := Parked(k), SendAct(Called(k)).k, k.Curr().pid;
    var m := k.Page(p).msg.(sender := p);
    assert SlotOk(k0, k0.procs[i]) && SlotOk(k0, k0.procs[k.curr]);
    Append(k.log.sends, m, k.procs[i].pid);
    if i != k.curr {
      SlotFrame(k0, k', k.procs[i]);
    }
  }

  /** A send to the process in slot `to`, which waits to receive. */
  lemma SendHandsState(k: K, to: nat)
    requires AtCall(k) && k.Page(k.vm).call == Send
    requires FindPid(k.procs, k.Page(k.vm).msg.receiver, 0) == Some(to) && k.procs[to].status.WaitToRecv?
    ensures SendAct(Called(k)).Reschedule?
    ensures Parked(SendAct(Called(k)).k).procs == Parked(k).procs[to := Parked(k).procs[to].(status := Runnable)]
  {
    StatusOnlyOf(k.procs, k.nprocs, to, Runnable);
  }

  ghost predicate Hands(k: K, to: nat) {
    && AtCall(k) && k.Page(k.vm).call == Send
    && FindPid(k.procs, k.Page(k.vm).msg.receiver, 0) == Some(to) && k.procs[to].status.WaitToRecv?
  }

  /** What the hand-over does to the machine. */
  lemma SendHandsEffect(k: K, to: nat, k': K, m: Msg)
    requires Hands(k, to) && m == k.Page(k.vm).msg.(sender := k.Curr().pid)
    requires k' == Parked(Handed(Called(k).SetPage(k.vm, Called(k).Page(k.vm).(msg := m)), m))
    ensures SendAct(Called(k)).Reschedule? && k' == Parked(SendAct(Called(k)).k)
    ensures k'.procs == Parked(k).procs[to := Parked(k).procs[to].(status := Runnable)]
    ensures to != k.curr && m.receiver == k.procs[to].pid != k.Curr().pid == m.sender
    ensures k'.log == k.log.(sends := k.log.sends + [m], deliveries := k.log.deliveries + [m],
                             calling := k.log.calling[k.vm := Send])
    ensures k'.Page(k.vm) == k.Page(k.vm).(retval := 0, call := NoCall, msg := m)
    ensures k'.Page(m.receiver) == k.Page(m.receiver).(msg := m)
    ensures k'.pages.Keys == k.pages.Keys + {k.vm, m.receiver}
  {
    SendHandsState(k, to);
  }

  lemma SendHandsSender(k: K, to: nat, k': K, m: Msg)
    requires Hands(k, to) && m == k.Page(k.vm).msg.(sender := k.Curr().pid)
    requires k' == Parked(Handed(Called(k).SetPage(k.vm, Called(k).Page(k.vm).(msg := m)), m))
    ensures SlotOk(k', k'.procs[k.curr])
  {
    SendHandsEffect(k, to, k', m);
    assert SlotOk(Parked(k), Parked(k).procs[k.curr]);
    Append(k.log.sends, m, k.vm);
    Append(k.log.deliveries, m, k.vm);
  }

  lemma SendHandsReceiver(k: K, to: nat, k': K, m: Msg)
    requires Hands(k, to) && m == k.Page(k.vm).msg.(sender := k.Curr().pid)
    requires k' == Parked(Handed(Called(k).SetPage(k.vm, Called(k).Page(k.vm).(msg := m)), m))
    ensures SlotOk(k', k'.procs[to])
  {
    SendHandsEffect(k, to, k', m);
    assert SlotOk(Parked(k), Parked(k).procs[to]);
    Append(k.log.sends, m, m.receiver);
    Append(k.log.deliveries, m, m.receiver);
  }

  lemma SendHandsSlot(k: K, to: nat, i: nat)
    requires Hands(k, to) && i < MAX_NPROCESS
    ensures SendAct(Called(k)).Reschedule? && SlotOk(Parked(SendAct(Called(k)).k), Parked(SendAct(Called(k)).k).procs[i])
  {
    var m := k.Page(k.vm).msg.(sender := k.Curr().pid);
    var k' := Parked(Handed(Called(k).SetPage(k.vm, Called(k).Page(k.vm).(msg := m)), m));
    SendHandsEffect(k, to, k', m);
    if i == k.curr {
      SendHandsSender(k, to, k', m);
    } else if i == to {
      SendHandsReceiver(k, to, k', m);
    } else {
      assert SlotOk(Parked(k), Parked(k).procs[i]);
      Append(k.log.sends, m, k.procs[i].pid);
      Append(k.log.deliveries, m, k.procs[i].pid);
      SlotFrame(Parked(k), k', k.procs[i]);
    }
  }

  lemma SendExact(k: K)
    requires AtCall(k) && k.Page(k.vm).call == Send
    ensures ActExact(SendAct(Called(k)))
  {
    var to := FindPid(k.procs, k.Page(k.vm).msg.receiver, 0);
    if to.None? {
      SendFails(k);
    } else {
      var k' := Parked(SendAct(Called(k)).k);
      forall i | 0 <= i < MAX_NPROCESS
        ensures SlotOk(k', k'.procs[i])
      {
        if k.procs[to.value].status.WaitToRecv? {
          SendHandsSlot(k, to.value, i);
        } else {
          SendWaitsSlot(k, to.value, i);
        }
      }
    }
  }

  ghost predicate ActExact(act: Act) {
    match act
    case Fatal => true
    case Return(k) => Exact(k)
    case Reschedule(k) => k.Wf() && Exact(Parked(k))
  }

  lemma AtCallAfterEnter(k: K, sp: int, mepc: int)
    requires Safe(k) && Exact(k)
    ensures AtCall(Enter(k, sp, mepc))
  {
    EnterSafe(k, sp, mepc);
    EnterExact(k, sp, mepc);
    assert SlotOk(k, k.procs[k.curr]);
  }

  lemma SyscallExact(k: K)
    requires AtCall(k)
    ensures ActExact(SyscallAct(k))
  {
    if k.Page(k.vm).call.Recv? {
      RecvExact(k);
    } else if k.Page(k.vm).call.Send? {
      SendExact(k);
    }
  }

  lemma ComputeExact(k: K, page: Syscall)
    requires Safe(k) && Exact(k)
    ensures ActExact(Handle(k, Compute(page)))
  {
    var k' := k.SetPage(k.vm, page);
    forall i | 0 <= i < MAX_NPROCESS
      ensures SlotOk(k', k'.procs[i])
    {
      assert SlotOk(k, k.procs[i]) && SlotOk(k, k.procs[k.curr]);
      if i != k.curr {
        SlotFrame(k, k', k.procs[i]);
      }
    }
  }

  lemma {:induction false} NothingLogged(log: seq<Msg>, p: int)
    requires forall m :: m in log ==> m.sender != p
    ensures By(log, p) == []
  {
    if log != [] {
      assert log[|log| - 1] in log;
      NothingLogged(log[..|log| - 1], p);
    }
  }

  lemma {:induction false} NothingDelivered(log: seq<Msg>, recvs: seq<int>, p: int)
    requires (forall m :: m in log ==> m.receiver != p) && p !in recvs
    ensures For(log, p) == [] && Count(recvs, p) == 0
    decreases |log| + |recvs|
  {
    if log != [] {
      assert log[|log| - 1] in log;
      NothingDelivered(log[..|log| - 1], recvs, p);
    }
    if recvs != [] {
      assert recvs[|recvs| - 1] in recvs;
      NothingDelivered(log, recvs[..|recvs| - 1], p);
    }
  }

  /** A new process number has no history. */
  lemma AllocExact(k: K)
    requires Safe(k) && Exact(k)
    ensures ActExact(Handle(k, Alloc))
  {
    var slot := FindUnused(k.procs, 0);
    if slot.Some? {
      var k', p := Allocated(k).value, k.nprocs + 1;
      NothingLogged(k.log.sends, p);
      NothingLogged(k.log.deliveries, p);
      NothingDelivered(k.log.deliveries, k.log.recvs, p);
      forall i | 0 <= i < MAX_NPROCESS
        ensures SlotOk(k', k'.procs[i])
      {
        assert SlotOk(k, k.procs[i]);
        if i != slot.value {
          SlotFrame(k, k', k.procs[i]);
        }
      }
    }
  }

  lemma LoadExact(k: K, pid: int, page: Syscall)
    requires Safe(k) && Exact(k) && Possible(k, Load(pid, page))
    ensures ActExact(Handle(k, Load(pid, page)))
  {
    var n :| 0 <= n < MAX_NPROCESS && k.procs[n].pid == pid && k.procs[n].status.Loading?;
    StatusOnlyOf(k.procs, k.nprocs, n, Ready);
    var k' := Handle(k, Load(pid, page)).k;
    forall i | 0 <= i < MAX_NPROCESS
      ensures SlotOk(k', k'.procs[i])
    {
      assert SlotOk(k, k.procs[i]);
      if i != n {
        SlotFrame(k, k', k.procs[i]);
      }
    }
  }

  lemma FreeExact(k: K, pid: int)
    requires Safe(k) && Exact(k) && pid > 0
    ensures Exact(Freed(k, pid))
  {
    var k' := Freed(k, pid);
    forall i | 0 <= i < MAX_NPROCESS
      ensures SlotOk(k', k'.procs[i])
    {
      assert SlotOk(k, k.procs[i]);
      if k.procs[i].pid != pid {
        SlotFrame(k, k', k.procs[i]);
      }
    }
  }

  lemma FreeUsersExact(k: K)
    requires Safe(k) && Exact(k)
    ensures Exact(FreedAll(k))
  {
    var k' := FreedAll(k);
    forall i | 0 <= i < MAX_NPROCESS
      ensures SlotOk(k', k'.procs[i])
    {
      assert SlotOk(k, k.procs[i]);
      if !IsUserProcess(k.procs[i]) {
        SlotFrame(k, k', k.procs[i]);
      }
    }
  }

  // ----------------------------------------------------------------- what is seen

  /** In the history h, what has arrived from process q is, in order, exactly what it has sent,
      with its own number, its receiver and its contents, except for the one it is waiting to
      send; and one message has arrived at it for every receive call that it is not still
      waiting in. */
  ghost predicate Delivered(h: Log, k: K, q: Process) {
    && By(h.sends, q.pid) == By(h.deliveries, q.pid)
         + (if q.status.WaitToSend? then [k.Page(q.pid).msg] else [])
    && (q.status.WaitToSend? ==> k.Page(q.pid).msg.sender == q.pid && k.Page(q.pid).msg.receiver == q.receiver)
    && Count(h.recvs, q.pid) == |For(h.deliveries, q.pid)| + (if q.status.WaitToRecv? then 1 else 0)
  }

  /** Process q, off the processor, has its memory and in its slot the context of its own last
      entry to the kernel; if it can run, a call that it is in returns 0, with the last message
      that arrived at it if it is a receive. */
  ghost predicate Resumable(h: Log, k: K, q: Process) {
    IsParked(q.status) ==>
      && q.pid in k.pages
      && q.pid in h.entry && h.entry[q.pid] == (q.sp, q.mepc)
      && (q.status.Runnable? && q.pid in h.calling ==> k.Page(q.pid).retval == 0)
      && (q.status.Runnable? && q.pid in h.calling && h.calling[q.pid] == Recv ==>
            k.Page(q.pid).msg == Last(For(h.deliveries, q.pid)))
  }

  ghost predicate SlotSeen(h: Log, k: K, q: Process) {
    !q.status.Unused? ==> Delivered(h, k, q) && Resumable(h, k, q)
  }

  /** Deliveries and contexts are in order for all processes. */
  ghost predicate InOrder(h: Log, k: K)
    requires k.Wf()
  {
    forall i {:trigger SlotSeen(h, k, k.procs[i])} :: 0 <= i < MAX_NPROCESS ==> SlotSeen(h, k, k.procs[i])
  }

  lemma ExactIsInOrder(k: K)
    requires Exact(k)
    ensures InOrder(k.log, k)
  {
    forall i | 0 <= i < MAX_NPROCESS
      ensures SlotSeen(k.log, k, k.procs[i])
    {
      assert SlotOk(k, k.procs[i]);
    }
  }

  // ----------------------------------------------------------------------- kills

  /** The shell, if there is one, can run: it is in no call. */
  predicate ShellRunnable(k: K)
    requires k.Wf()
  {
    forall i :: 0 <= i < MAX_NPROCESS && k.procs[i].pid == GPID_SHELL ==> k.procs[i].status.Runnable?
  }

  lemma KillExact(k: K, sp: int, mepc: int)
    requires Safe(k) && Exact(k) && k.Curr().pid >= GPID_USER_START && ShellRunnable(k)
    ensures Exact(Parked(Enter(Killed(k), sp, mepc)))
  {
    var k' := Parked(Enter(Killed(k), sp, mepc));
    forall i | 0 <= i < MAX_NPROCESS
      ensures SlotOk(k', k'.procs[i])
    {
      assert SlotOk(k, k.procs[i]);
      if i != k.curr {
        assert k'.procs[i] == k.procs[i];
        SlotFrame(k, k', k.procs[i]);
      }
    }
  }

  /** After a kill, when the scheduler runs, deliveries and contexts are in order for all
      processes if and only if the shell, if there is one, could run before it. The forced wake
      out of a send loses the message, out of a receive makes one up; before its first run the
      shell has no saved context, and after its end no memory. */
  lemma KillInOrderIff(k: K, sp: int, mepc: int)
    requires Safe(k) && Exact(k) && k.Curr().pid >= GPID_USER_START
    ensures InOrder(k.log.(entry := k.log.entry[k.Curr().pid := (sp, mepc)]), Parked(Enter(Killed(k), sp, mepc)))
            <==> ShellRunnable(k)
  {
    var k', h := Parked(Enter(Killed(k), sp, mepc)), k.log.(entry := k.log.entry[k.Curr().pid := (sp, mepc)]);
    assert k'.log == h;
    if ShellRunnable(k) {
      KillExact(k, sp, mepc);
      ExactIsInOrder(k');
    } else {
      var i :| 0 <= i < MAX_NPROCESS && k.procs[i].pid == GPID_SHELL && !k.procs[i].status.Runnable?;
      assert SlotOk(k, k.procs[i]);
      assert k'.procs[i] == k.procs[i].(status := Runnable);
      assert !SlotSeen(h, k', k'.procs[i]);
    }
  }

  // ------------------------------------------------------------------------ runs

  lemma HandleExact(k: K, e: Event)
    requires Safe(k) && Exact(k) && Possible(k, e) && (IsKill(k, e) ==> ShellRunnable(k))
    ensures ActExact(Handle(k, e))
  {
    match e {
      case Compute(page) =>
        ComputeExact(k, page);
      case Exception(id, sp, mepc) =>
        EveryExceptionIsSyscall(k, id, sp, mepc);
        AtCallAfterEnter(k, sp, mepc + 4);
        SyscallExact(Enter(k, sp, mepc + 4));
      case Interrupt(id, ctrlC, sp, mepc) =>
        InterruptExact(k, id, ctrlC, sp, mepc);
      case Alloc =>
        AllocExact(k);
      case Load(pid, page) =>
        LoadExact(k, pid, page);
      case Free(pid) =>
        FreeExact(k, pid);
      case FreeUsers =>
        FreeUsersExact(k);
    }
  }

  lemma InterruptExact(k: K, id: int, ctrlC: bool, sp: int, mepc: int)
    requires Safe(k) && Exact(k) && (IsKill(k, Interrupt(id, ctrlC, sp, mepc)) ==> ShellRunnable(k))
    ensures ActExact(Handle(k, Interrupt(id, ctrlC, sp, mepc)))
  {
    AtCallAfterEnter(k, sp, mepc);
    SyscallExact(Enter(k, sp, mepc));
    if k.Curr().pid >= GPID_USER_START && ShellRunnable(k) {
      KillExact(k, sp, mepc);
    }
  }

  lemma StepExact(k: K, e: Event)
    requires Safe(k) && Exact(k) && Possible(k, e) && (IsKill(k, e) ==> ShellRunnable(k)) && Step(k, e).Some?
    ensures Safe(Step(k, e).value) && Exact(Step(k, e).value)
  {
    HandleSafe(k, e);
    HandleExact(k, e);
    StepSafe(k, e);
    var act := Handle(k, e);
    if act.Reschedule? {
      YieldExact(act.k);
    }
  }

  /** Every kill in the run finds the shell able to run. */
  ghost predicate KillsHarmless(k: K, events: seq<Event>)
    decreases |events|
  {
    events != [] && k.Wf() && Step(k, events[0]).Some? ==>
      (IsKill(k, events[0]) ==> ShellRunnable(k)) && KillsHarmless(Step(k, events[0]).value, events[1..])
  }

  lemma {:induction false} RunExact(k: K, events: seq<Event>, k': K)
    requires Safe(k) && Exact(k) && IsRun(k, events, k') && KillsHarmless(k, events)
    ensures Safe(k') && Exact(k')
    decreases |events|
  {
    if events != [] {
      StepExact(k, events[0]);
      RunExact(Step(k, events[0]).value, events[1..], k');
    }
  }

  lemma BootedExact(page: Syscall)
    ensures Safe(Booted(page)) && Exact(Booted(page))
  {
    var k := Booted(page);
    forall i | 0 <= i < MAX_NPROCESS
      ensures SlotOk(k, k.procs[i])
    {
    }
  }

  /** Exactly-once delivery, in every state of every such run: the history is that of the events
      and states of the run, so every send call to a process that exists has its message arrive
      there, once and unchanged, or is still waiting. */
  lemma DeliveredExactlyOnce(page: Syscall, events: seq<Event>, k: K, i: nat)
    requires IsRun(Booted(page), events, k) && KillsHarmless(Booted(page), events) && i < MAX_NPROCESS
    ensures k.Wf() && (!k.procs[i].status.Unused? ==> Delivered(History(page, events), k, k.procs[i]))
  {
    BootedExact(page);
    RunExact(Booted(page), events, k);
    ExactIsInOrder(k);
    LogIsHistory(page, events, k);
    assert SlotSeen(k.log, k, k.procs[i]);
  }

  /** What a process that comes out of the kernel finds: the context of its own last entry, the
      return value of the call it was in, -1 exactly for a send to nobody, and after a receive
      the last message that arrived at it. */
  ghost predicate Returned(h: Log, calling: map<int, Call>, k: K, p: int, failed: bool)
    requires k.Wf()
  {
    && p in h.entry && (k.Curr().sp, k.Curr().mepc) == h.entry[p]
    && (p in calling ==> k.Page(p).retval == if failed then -1 else 0)
    && (p in calling && calling[p] == Recv ==> k.Page(p).msg == Last(For(h.deliveries, p)))
  }

  /** The send call of the running process is to a process that does not exist. */
  predicate SendsToNobody(k: K, e: Event)
    requires k.Wf()
  {
    Calls(k, e, Send) && !Exists(k.procs, Request(k).receiver)
  }

  /** Whoever runs after an event that entered the kernel, unless for the first time, comes out
      of it as it should. */
  lemma ResumesOwnContext(page: Syscall, events: seq<Event>, k: K, e: Event, k': K)
    requires IsRun(Booted(page), events, k) && KillsHarmless(Booted(page), events)
    requires k.Wf() && Possible(k, e) && (IsKill(k, e) ==> ShellRunnable(k))
    requires EntersKernel(k, e) && Step(k, e) == Some(k')
    ensures k'.Wf()
    ensures !k.procs[k'.curr].status.Ready? ==>
              Returned(History(page, events + [e]), Pending(History(page, events).calling, k, e), k', k'.Curr().pid,
                       SendsToNobody(k, e))
  {
    BootedExact(page);
    RunExact(Booted(page), events, k);
    LogIsHistory(page, events, k);
    HistoryNext(NOTHING, Booted(page), events, k, e);
    assert SlotOk(k, k.procs[k.curr]);
    StepRecorded(k, e);
    StepExact(k, e);
    HandleRecorded(k, e);
    if Handle(k, e).Reschedule? {
      ResumedContext(k, e, k');
    } else {
      ReturnedContext(k, e, k');
    }
  }

  lemma SendToNobodyReturns(k: K, e: Event)
    requires Safe(k) && SendsToNobody(k, e)
    ensures Handle(k, e).Return?
  {
    FoundAfterEntry(k, ContextOf(e).0, ContextOf(e).1, Request(k).receiver);
    if e.Exception? {
      EveryExceptionIsSyscall(k, e.id, e.sp, e.mepc);
    }
  }

  /** The scheduler has chosen the process. */
  lemma ResumedContext(k: K, e: Event, k': K)
    requires Safe(k) && Exact(k) && Possible(k, e) && (IsKill(k, e) ==> ShellRunnable(k))
    requires Handle(k, e).Reschedule? && Step(k, e) == Some(k') && k'.Wf() && ActRecorded(k, e, Handle(k, e))
    ensures !k.procs[k'.curr].status.Ready? ==>
              Returned(k'.log, Pending(k.log.calling, k, e), k', k'.Curr().pid, SendsToNobody(k, e))
  {
    HandleSafe(k, e);
    HandleExact(k, e);
    if SendsToNobody(k, e) {
      SendToNobodyReturns(k, e);
    }
    var k1 := Handle(k, e).k;
    HandleStatus(k, e, k'.curr);
    YieldResumes(k1, k');
  }

  lemma YieldResumes(k1: K, k': K)
    requires Mid(k1) && Exact(Parked(k1)) && Yield(k1) == Some(k')
    ensures k'.Wf() && (!k1.procs[k'.curr].status.Ready? ==> Returned(k'.log, k1.log.calling, k', k'.Curr().pid, false))
  {
    var mid := Parked(k1);
    if k1.Curr().status.Running? {
      StatusOnlyOf(k1.procs, k1.nprocs, k1.curr, Runnable);
    }
    StatusOnlyOf(mid.procs, mid.nprocs, k'.curr, Running);
    assert SlotOk(mid, mid.procs[k'.curr]);
  }

  /** The call has returned at once: the send to nobody. */
  lemma ReturnedContext(k: K, e: Event, k': K)
    requires Safe(k) && Exact(k) && EntersKernel(k, e) && Handle(k, e) == Return(k') && k'.Wf()
    requires k'.log == Recorded(k.log, k, e, k')
    ensures Returned(k'.log, Pending(k.log.calling, k, e), k', k'.Curr().pid, SendsToNobody(k, e))
  {
    FoundAfterEntry(k, ContextOf(e).0, ContextOf(e).1, Request(k).receiver);
    if e.Exception? {
      EveryExceptionIsSyscall(k, e.id, e.sp, e.mepc);
    }
  }
}
