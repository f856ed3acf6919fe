/** Round-robin scheduling: a process that can run is chosen within MAX_NPROCESS switches. */
module KernelFairness {
  import opened KernelModel
  import opened KernelSafety

  /** How many slots the scheduler may still try before slot i: from the one after curr. */
  function Distance(curr: nat, i: nat): (d: nat)
    requires curr < MAX_NPROCESS && i < MAX_NPROCESS
    ensures d < MAX_NPROCESS
  {
    if curr < i then i - curr - 1 else i + MAX_NPROCESS - curr - 1
  }

  lemma {:induction false} FindNextBefore(procs: seq<Process>, curr: nat, i: nat, n: nat)
    requires |procs| == MAX_NPROCESS && curr < MAX_NPROCESS && i < MAX_NPROCESS && Schedulable(procs[i].status)
    requires 1 <= n <= Distance(curr, i) + 1
    ensures FindNext(procs, curr, n).Some?
    ensures Distance(curr, FindNext(procs, curr, n).value) <= Distance(curr, i)
    decreases MAX_NPROCESS - n
  {
    var slot := (curr + n) % MAX_NPROCESS;
    assert Distance(curr, slot) == n - 1;
    if !Schedulable(procs[slot].status) {
      assert slot != i;
      FindNextBefore(procs, curr, i, n + 1);
    }
  }

  lemma Closer(curr: nat, n: nat, i: nat)
    requires curr < MAX_NPROCESS && n < MAX_NPROCESS && i < MAX_NPROCESS && n != i
    requires Distance(curr, n) <= Distance(curr, i)
    ensures Distance(n, i) < Distance(curr, i)
  {
  }

  /** A yield chooses slot i or comes closer to it. */
  lemma YieldApproaches(k: K, i: nat)
    requires k.Wf() && i < MAX_NPROCESS && Schedulable(k.procs[i].status)
    ensures Yield(k).Some?
    ensures Yield(k).value.curr == i || Distance(Yield(k).value.curr, i) < Distance(k.curr, i)
  {
    FindNextBefore(k.procs, k.curr, i, 1);
    var n := FindNext(k.procs, k.curr, 1).value;
    if n != i {
      Closer(k.curr, n, i);
    }
  }

  /** No handler takes a process that can run off the processor's list, except the current one. */
  lemma StaysSchedulable(k: K, e: Event, i: nat)
    requires Safe(k) && i < MAX_NPROCESS && i != k.curr && Schedulable(k.procs[i].status) && Handle(k, e).Reschedule?
    ensures Handle(k, e).k.Wf() && Handle(k, e).k.curr == k.curr
    ensures Schedulable(Handle(k, e).k.procs[i].status)
  {
    HandleStatus(k, e, i);
  }

  /** How often the scheduler runs in a run. */
  ghost function Switches(k: K, events: seq<Event>): nat
    decreases |events|
  {
    if events == [] || !k.Wf() || Step(k, events[0]).None? then 0
    else (if Handle(k, events[0]).Reschedule? then 1 else 0) + Switches(Step(k, events[0]).value, events[1..])
  }

  /** In all states of the run, slot i can run but does not. */
  ghost predicate KeptWaiting(k: K, events: seq<Event>, i: nat)
    requires i < MAX_NPROCESS
    decreases |events|
  {
    && k.Wf() && Schedulable(k.procs[i].status) && k.curr != i
    && (events != [] && Step(k, events[0]).Some? ==> KeptWaiting(Step(k, events[0]).value, events[1..], i))
  }

  /** Bounded waiting: in a run through which a process could run but did not, the scheduler
      ran fewer than MAX_NPROCESS times. */
  lemma {:induction false} BoundedWaiting(k: K, events: seq<Event>, k': K, i: nat)
    requires Safe(k) && i < MAX_NPROCESS && IsRun(k, events, k') && KeptWaiting(k, events, i)
    ensures Switches(k, events) <= Distance(k.curr, i) < MAX_NPROCESS
    decreases |events|
  {
    if events != [] {
      var e := events[0];
      StepSafe(k, e);
      BoundedWaiting(Step(k, e).value, events[1..], k', i);
      if Handle(k, e).Reschedule? {
        StaysSchedulable(k, e, i);
        YieldApproaches(Handle(k, e).k, i);
      } else {
        ReturnKeepsCurrent(k, e);
      }
    }
  }

  lemma ReturnKeepsCurrent(k: K, e: Event)
    requires k.Wf() && Handle(k, e).Return?
    ensures Handle(k, e).k.curr == k.curr
  {
  }

  /** A yield of a process that could go on: the nearest slot after it that can run is chosen. */
  lemma YieldsToNearest(k: K)
    requires Mid(k) && k.Curr().status.Running? && k.Curr().pid > 0
    ensures Yield(k).Some?
    ensures var k' := Yield(k).value;
      && k'.Wf() && k'.pages == k.pages
      && k'.procs[k.curr] == k.Curr().(status := if k'.curr == k.curr then Running else Runnable)
      && IsNearest(k.procs, k.curr, k'.curr)
  {
    YieldApproaches(k, k.curr);
    var n := FindNext(k.procs, k.curr, 1).value;
    StatusOnlyOf(k.procs, k.nprocs, k.curr, Runnable);
    StatusOnlyOf(k.procs[k.curr := k.Curr().(status := Runnable)], k.nprocs, n, Running);
    forall i | 0 <= i < MAX_NPROCESS && Schedulable(k.procs[i].status)
      ensures Distance(k.curr, n) <= Distance(k.curr, i)
    {
      FindNextBefore(k.procs, k.curr, i, 1);
    }
  }

  /** Slot n can run, and none before it after slot curr can. */
  predicate IsNearest(procs: seq<Process>, curr: nat, n: nat)
    requires |procs| == MAX_NPROCESS && curr < MAX_NPROCESS && n < MAX_NPROCESS
  {
    && Schedulable(procs[n].status)
    && forall i :: 0 <= i < MAX_NPROCESS && Schedulable(procs[i].status) ==> Distance(curr, n) <= Distance(curr, i)
  }

  lemma NearestByStatus(procs: seq<Process>, procs': seq<Process>, curr: nat, n: nat)
    requires |procs| == |procs'| == MAX_NPROCESS && curr < MAX_NPROCESS && n < MAX_NPROCESS && IsNearest(procs, curr, n)
    requires forall i :: 0 <= i < MAX_NPROCESS ==> procs'[i].status == procs[i].status
    ensures IsNearest(procs', curr, n)
  {
  }

  /** A timer interrupt without a kill: the servers are not interrupted; any other process has its
      context saved and goes on only if no other slot can run, else the nearest one after it does. */
  lemma TimerPreempts(k: K, ctrlC: bool, sp: int, mepc: int)
    requires Safe(k) && !(ctrlC && k.Curr().pid >= GPID_USER_START)
    ensures Step(k, Interrupt(INTR_ID_TIMER, ctrlC, sp, mepc)).Some?
    ensures var k' := Step(k, Interrupt(INTR_ID_TIMER, ctrlC, sp, mepc)).value;
      && k'.Wf()
      && (k.Curr().pid < GPID_SHELL ==> k' == k)
      && (k.Curr().pid >= GPID_SHELL ==>
            && k'.procs[k.curr] == k.Curr().(sp := sp, mepc := mepc, status := if k'.curr == k.curr then Running else Runnable)
            && k'.pages == k.pages && IsNearest(k.procs, k.curr, k'.curr))
  {
    if k.Curr().pid >= GPID_SHELL {
      var k1 := Enter(k, sp, mepc);
      EnterSafe(k, sp, mepc);
      YieldsToNearest(k1);
      NearestByStatus(k1.procs, k.procs, k.curr, Yield(k1).value.curr);
    }
  }

  /** Interrupts that are neither timer nor software interrupts are fatal, unless they are kills. */
  lemma OtherInterruptsAreFatal(k: K, id: int, ctrlC: bool, sp: int, mepc: int)
    requires k.Wf() && id != INTR_ID_TIMER && id != INTR_ID_SOFT
    ensures Step(k, Interrupt(id, ctrlC, sp, mepc)).None? || (ctrlC && k.Curr().pid >= GPID_USER_START)
  {
  }
}
