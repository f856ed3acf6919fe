/** What a system call comes to, in terms of the slots and areas before and after it. */
module KernelCalls {
  import opened Options
  import opened KernelModel
  import opened KernelSafety
  import opened KernelFairness
  import opened KernelHistory

  /** What the scheduler does to slot i. */
  lemma YieldStatus(k: K, k': K, i: nat)
    requires Mid(k) && Yield(k) == Some(k') && i < MAX_NPROCESS
    ensures k'.Wf() && k'.pages == k.pages && Schedulable(k.procs[k'.curr].status)
    ensures k'.procs[i] == k.procs[i].(status := if i == k'.curr then Running
                                                 else if k.procs[i].status.Running? then Runnable else k.procs[i].status)
  {
    var procs := if k.Curr().status.Running? then WithStatus(k.procs, k.Curr().pid, Runnable) else k.procs;
    if k.Curr().status.Running? {
      StatusOnlyOf(k.procs, k.nprocs, k.curr, Runnable);
    }
    StatusOnlyOf(procs, k.nprocs, k'.curr, Running);
  }

  predicate CanRun(s: Status) {
    s.Runnable? || s.Running?
  }

  /** The call has been taken and returns v. */
  predicate TakenWith(sc: Syscall, v: int) {
    sc.call == NoCall && sc.retval == v
  }

  /** There is nobody to send to: the call returns -1 and nothing else happens. */
  ghost predicate SendFailed(k: K, k': K)
    requires k.Wf() && k'.Wf()
  {
    && k'.curr == k.curr && TakenWith(k'.Page(k.Curr().pid), -1)
    && (forall i :: 0 <= i < MAX_NPROCESS ==> k'.procs[i].status == k.procs[i].status)
    && (forall p :: p in k.pages && p != k.Curr().pid ==> p in k'.pages && k'.pages[p] == k.pages[p])
  }

  /** The receiver was waiting: it has the message and can run, and so can the sender, with 0. */
  ghost predicate SendHanded(k: K, k': K, m: Msg)
    requires k.Wf() && k'.Wf()
  {
    && k'.Page(m.receiver).msg == m && TakenWith(k'.Page(k.Curr().pid), 0)
    && CanRun(k'.procs[k.curr].status)
    && forall i :: 0 <= i < MAX_NPROCESS && k.procs[i].pid == m.receiver ==> CanRun(k'.procs[i].status)
  }

  /** The receiver is busy: the sender waits, with the message in its own area. */
  ghost predicate SendBlocked(k: K, k': K, m: Msg)
    requires k.Wf() && k'.Wf()
  {
    && k'.procs[k.curr].status.WaitToSend? && k'.procs[k.curr].receiver == m.receiver
    && k'.Page(k.Curr().pid).msg == m && TakenWith(k'.Page(k.Curr().pid), 0)
  }

  /** Exactly one of these comes of a send call. */
  ghost predicate SendDone(k: K, k': K)
    requires k.Wf() && k'.Wf()
  {
    var m := Request(k);
    if !Exists(k.procs, m.receiver) then SendFailed(k, k')
    else if Waits(k.procs, m.receiver) then SendHanded(k, k', m)
    else SendBlocked(k, k', m)
  }

  lemma SendOutcome(k: K, e: Event, k': K)
    requires Safe(k) && Calls(k, e, Send) && Step(k, e) == Some(k')
    ensures k'.Wf() && SendDone(k, k')
  {
    var ctx := ContextOf(e);
    EnterSafe(k, ctx.0, ctx.1);
    CallIsSyscall(k, e);
    SendOutcomeOf(k, Enter(k, ctx.0, ctx.1), k');
  }

  lemma CallIsSyscall(k: K, e: Event)
    requires Safe(k) && TakesCall(k, e)
    ensures Handle(k, e) == SyscallAct(Enter(k, ContextOf(e).0, ContextOf(e).1))
  {
    if e.Exception? {
      EveryExceptionIsSyscall(k, e.id, e.sp, e.mepc);
    }
  }

  /** The caller, its area and the other slots are those of k in k1. */
  ghost predicate Entered(k: K, k1: K) {
    && Safe(k) && Safe(k1) && k1.curr == k.curr && k1.pages == k.pages && k1.vm == k.vm
    && forall i :: 0 <= i < MAX_NPROCESS ==>
         k1.procs[i].pid == k.procs[i].pid && k1.procs[i].status == k.procs[i].status && k1.procs[i].receiver == k.procs[i].receiver
  }

  lemma SendOutcomeOf(k: K, k1: K, k': K)
    requires Entered(k, k1) && k.Page(k.vm).call == Send && Finish(SyscallAct(k1)) == Some(k')
    ensures k'.Wf() && SendDone(k, k')
  {
    var m, k2 := Request(k), Called(k1);
    FoundIs(k1.procs, k1.nprocs, m.receiver);
    SendSafe(k2);
    assert k2.Page(k.vm).msg == k.Page(k.vm).msg;
    assert Exists(k1.procs, m.receiver) <==> Exists(k.procs, m.receiver);
    assert Waits(k1.procs, m.receiver) <==> Waits(k.procs, m.receiver);
    if Waits(k.procs, m.receiver) {
      SendHandedOf(k, k1, k', FindPid(k1.procs, m.receiver, 0).value);
    } else if Exists(k.procs, m.receiver) {
      YieldStatus(SendAct(k2).k, k', k.curr);
    }
  }

  lemma SendHandedOf(k: K, k1: K, k': K, to: nat)
    requires Entered(k, k1) && k.Page(k.vm).call == Send && Finish(SyscallAct(k1)) == Some(k')
    requires FindPid(k1.procs, Request(k).receiver, 0) == Some(to) && k1.procs[to].status.WaitToRecv?
    ensures k'.Wf() && SendHanded(k, k', Request(k))
  {
    var k2 := Called(k1);
    assert k2.Page(k.vm).msg == k.Page(k.vm).msg;
    SendSafe(k2);
    StatusOnlyOf(k1.procs, k1.nprocs, to, Runnable);
    YieldStatus(SendAct(k2).k, k', k.curr);
    YieldStatus(SendAct(k2).k, k', to);
  }

  /** The highest slot from which a process waits to send to pid. */
  predicate IsLastSender(procs: seq<Process>, pid: int, s: nat) {
    && s < |procs| && SendsTo(procs[s], pid)
    && forall i :: s < i < |procs| ==> !SendsTo(procs[i], pid)
  }

  /** A receive with a waiting sender in slot s has its message and both can run; without one the
      caller waits. */
  ghost predicate RecvDone(k: K, k': K)
    requires k.Wf() && k'.Wf()
  {
    if !HasSender(k.procs, k.Curr().pid) then k'.procs[k.curr].status.WaitToRecv? && TakenWith(k'.Page(k.Curr().pid), 0)
    else
      exists s: nat {:trigger IsLastSender(k.procs, k.Curr().pid, s)} :: IsLastSender(k.procs, k.Curr().pid, s)
        && k'.Page(k.Curr().pid).msg == k.Page(k.procs[s].pid).msg && TakenWith(k'.Page(k.Curr().pid), 0)
        && CanRun(k'.procs[s].status) && CanRun(k'.procs[k.curr].status)
  }

  lemma {:induction false} LastSender(procs: seq<Process>, pid: int, n: nat)
    requires n <= |procs| && FindSender(procs, pid, n).Some?
    ensures forall i :: FindSender(procs, pid, n).value < i < n ==> !SendsTo(procs[i], pid)
  {
    if !SendsTo(procs[n - 1], pid) {
      LastSender(procs, pid, n - 1);
    }
  }

  lemma RecvOutcome(k: K, e: Event, k': K)
    requires Safe(k) && Calls(k, e, Recv) && Step(k, e) == Some(k')
    ensures k'.Wf() && RecvDone(k, k')
  {
    var ctx := ContextOf(e);
    EnterSafe(k, ctx.0, ctx.1);
    CallIsSyscall(k, e);
    RecvOutcomeOf(k, Enter(k, ctx.0, ctx.1), k');
  }

  lemma RecvOutcomeOf(k: K, k1: K, k': K)
    requires Entered(k, k1) && k.Page(k.vm).call == Recv && Finish(SyscallAct(k1)) == Some(k')
    ensures k'.Wf() && RecvDone(k, k')
  {
    var p, k2 := k.Curr().pid, Called(k1);
    RecvSafe(k2);
    SenderIs(k2.procs, p);
    YieldStatus(RecvStep(k2), k', k.curr);
    if HasSender(k.procs, p) {
      var s := FindSender(k2.procs, p, MAX_NPROCESS).value;
      LastSender(k2.procs, p, MAX_NPROCESS);
      StatusOnlyOf(k2.procs, k2.nprocs, s, Runnable);
      YieldStatus(RecvStep(k2), k', s);
      assert IsLastSender(k.procs, p, s);
    }
  }

  /** A send or receive call does not end the machine if another process can run. */
  lemma CallGoesOn(k: K, e: Event, i: nat)
    requires Safe(k) && (Calls(k, e, Send) || Calls(k, e, Recv))
    requires i < MAX_NPROCESS && i != k.curr && Schedulable(k.procs[i].status)
    ensures Step(k, e).Some?
  {
    CallIsSyscall(k, e);
    if Handle(k, e).Reschedule? {
      StaysSchedulable(k, e, i);
      YieldApproaches(Handle(k, e).k, i);
    }
  }

  // -------------------------------------------------------------- who waits to send

  /** A process that waits to send has its message, with its own number, in its own area. */
  predicate SlotStamped(k: K, q: Process) {
    q.status.WaitToSend? ==> k.Page(q.pid).msg.sender == q.pid && k.Page(q.pid).msg.receiver == q.receiver
  }

  ghost predicate Stamps(k: K) {
    k.Wf() && forall i {:trigger SlotStamped(k, k.procs[i])} :: 0 <= i < MAX_NPROCESS ==> SlotStamped(k, k.procs[i])
  }

  lemma YieldStamps(k: K, k': K)
    requires Mid(k) && Stamps(k) && Yield(k) == Some(k')
    ensures Stamps(k')
  {
    YieldSafe(k);
    forall i | 0 <= i < MAX_NPROCESS
      ensures SlotStamped(k', k'.procs[i])
    {
      assert SlotStamped(k, k.procs[i]);
      YieldStatus(k, k', i);
    }
  }

  lemma SlotSyscallStamps(k: K, i: nat)
    requires Safe(k) && i < MAX_NPROCESS && SlotStamped(k, k.procs[i]) && !SyscallAct(k).Fatal?
    ensures SyscallAct(k).k.Wf() && SlotStamped(SyscallAct(k).k, SyscallAct(k).k.procs[i])
  {
  }

  lemma SlotHandleStamps(k: K, e: Event, i: nat)
    requires Safe(k) && Possible(k, e) && Stamps(k) && i < MAX_NPROCESS && !Handle(k, e).Fatal?
    ensures Handle(k, e).k.Wf() && SlotStamped(Handle(k, e).k, Handle(k, e).k.procs[i])
  {
    assert SlotStamped(k, k.procs[i]);
    if TakesCall(k, e) {
      var ctx := ContextOf(e);
      EnterSafe(k, ctx.0, ctx.1);
      CallIsSyscall(k, e);
      SlotSyscallStamps(Enter(k, ctx.0, ctx.1), i);
    }
  }

  lemma StepStamps(k: K, e: Event)
    requires Safe(k) && Possible(k, e) && Stamps(k) && Step(k, e).Some?
    ensures Stamps(Step(k, e).value)
  {
    var act := Handle(k, e);
    HandleSafe(k, e);
    assert Stamps(act.k) by {
      forall i | 0 <= i < MAX_NPROCESS
        ensures act.k.Wf() && SlotStamped(act.k, act.k.procs[i])
      {
        SlotHandleStamps(k, e, i);
      }
      SlotHandleStamps(k, e, 0);
    }
    if act.Reschedule? {
      YieldStamps(act.k, Step(k, e).value);
    }
  }

  /** In every run from boot, kills and all, whoever waits to send has its own message ready. */
  lemma {:induction false} RunStamps(k: K, events: seq<Event>, k': K)
    requires Safe(k) && Stamps(k) && IsRun(k, events, k')
    ensures Stamps(k')
    decreases |events|
  {
    if events != [] {
      StepSafe(k, events[0]);
      StepStamps(k, events[0]);
      RunStamps(Step(k, events[0]).value, events[1..], k');
    }
  }
}
