/** Which processes have memory, and that every step of the kernel keeps it so. */
module KernelMemory {
  import opened Options
  import opened Pages
  import opened Bytes
  import opened KernelModel
  import opened KernelSafety

  predicate HasMemory(s: Status) {
    !s.Unused? && !s.Loading?
  }

  ghost predicate HasPages(keys: set<VirtualPage>, pid: int) {
    forall p {:trigger VirtualPage(pid, p)} :: IsAppPage(p) ==> VirtualPage(pid, p) in keys
  }

  ghost predicate HasNoPages(keys: set<VirtualPage>, pid: int) {
    forall k :: k in keys ==> k.pid != pid
  }

  /** A process has all its application pages from the time it is ready until it is freed, none
      before and after. */
  ghost predicate SlotMemory(q: Process, keys: set<VirtualPage>, dead: set<int>) {
    && (if HasMemory(q.status) then HasPages(keys, q.pid) else HasNoPages(keys, q.pid))
    && (q.pid in dead ==> q.status.Unused?)
  }

  ghost predicate MemoryOk(procs: seq<Process>, nprocs: nat, keys: set<VirtualPage>, dead: set<int>) {
    && (forall i {:trigger SlotMemory(procs[i], keys, dead)} :: 0 <= i < |procs| ==> SlotMemory(procs[i], keys, dead))
    && (forall k :: k in keys ==> 0 < k.pid <= nprocs)
    && (forall p :: p in dead ==> 0 < p <= nprocs)
  }

  /** Process numbers fit into a C int. */
  ghost predicate KernelOk(k: K, keys: set<VirtualPage>, dead: set<int>) {
    Mid(k) && MemoryOk(k.procs, k.nprocs, keys, dead) && k.nprocs < INT_LIMIT
  }

  /** The same processes have memory. */
  ghost predicate SameMemory(procs: seq<Process>, procs': seq<Process>) {
    && |procs'| == |procs|
    && forall i :: 0 <= i < |procs| ==>
         && procs'[i].pid == procs[i].pid
         && (procs'[i].status == procs[i].status || (HasMemory(procs'[i].status) && HasMemory(procs[i].status)))
  }

  lemma SameMemoryOk(procs: seq<Process>, procs': seq<Process>, nprocs: nat, keys: set<VirtualPage>, dead: set<int>)
    requires MemoryOk(procs, nprocs, keys, dead) && SameMemory(procs, procs')
    ensures MemoryOk(procs', nprocs, keys, dead)
  {
    forall i | 0 <= i < |procs'|
      ensures SlotMemory(procs'[i], keys, dead)
    {
      assert SlotMemory(procs[i], keys, dead);
    }
  }

  lemma SlotHasPage(procs: seq<Process>, nprocs: nat, keys: set<VirtualPage>, dead: set<int>, i: nat, page: nat)
    requires MemoryOk(procs, nprocs, keys, dead) && i < |procs| && HasMemory(procs[i].status) && IsAppPage(page)
    ensures VirtualPage(procs[i].pid, page) in keys
  {
    assert SlotMemory(procs[i], keys, dead);
  }

  lemma SlotHasArea(procs: seq<Process>, nprocs: nat, keys: set<VirtualPage>, dead: set<int>, i: nat)
    requires MemoryOk(procs, nprocs, keys, dead) && i < |procs| && HasMemory(procs[i].status)
    ensures VirtualPage(procs[i].pid, ARG_PAGE) in keys
  {
    assert SlotMemory(procs[i], keys, dead);
  }

  lemma YieldMemory(k: K, k': K, keys: set<VirtualPage>, dead: set<int>)
    requires KernelOk(k, keys, dead) && Yield(k) == Some(k')
    ensures KernelOk(k', keys, dead) && Safe(k')
  {
    var n := FindNext(k.procs, k.curr, 1).value;
    YieldSafe(k);
    var procs := if k.Curr().status.Running? then WithStatus(k.procs, k.Curr().pid, Runnable) else k.procs;
    if k.Curr().status.Running? {
      StatusOnlyOf(k.procs, k.nprocs, k.curr, Runnable);
    }
    StatusOnlyOf(procs, k.nprocs, n, Running);
    SameMemoryOk(k.procs, k'.procs, k.nprocs, keys, dead);
  }

  lemma EnterMemory(k: K, sp: int, mepc: int, keys: set<VirtualPage>, dead: set<int>)
    requires KernelOk(k, keys, dead)
    ensures KernelOk(Enter(k, sp, mepc), keys, dead) && (Safe(k) ==> Safe(Enter(k, sp, mepc)))
  {
    EnterSafe(k, sp, mepc);
    SameMemoryOk(k.procs, Enter(k, sp, mepc).procs, k.nprocs, keys, dead);
  }

  lemma CalledMemory(k: K, keys: set<VirtualPage>, dead: set<int>)
    requires KernelOk(k, keys, dead) && Safe(k)
    ensures KernelOk(Called(k), keys, dead) && Safe(Called(k))
  {
  }

  lemma SendFailsMemory(k: K, keys: set<VirtualPage>, dead: set<int>)
    requires KernelOk(k, keys, dead) && Safe(k) && SendAct(k).Return?
    ensures KernelOk(SendAct(k).k, keys, dead) && Safe(SendAct(k).k)
  {
    SendSafe(k);
  }

  /** A send that does not return at once. */
  lemma SendMemory(k: K, keys: set<VirtualPage>, dead: set<int>)
    requires Safe(k) && KernelOk(k, keys, dead) && SendAct(k).Reschedule?
    ensures KernelOk(SendAct(k).k, keys, dead)
  {
    SendSafe(k);
    var to := FindPid(k.procs, k.Page(k.vm).msg.receiver, 0);
    if k.procs[to.value].status.WaitToRecv? {
      StatusOnlyOf(k.procs, k.nprocs, to.value, Runnable);
    }
    SameMemoryOk(k.procs, SendAct(k).k.procs, k.nprocs, keys, dead);
  }

  lemma RecvMemory(k: K, keys: set<VirtualPage>, dead: set<int>)
    requires Safe(k) && KernelOk(k, keys, dead)
    ensures KernelOk(RecvStep(k), keys, dead)
  {
    RecvSafe(k);
    var from := FindSender(k.procs, k.Curr().pid, MAX_NPROCESS);
    if from.Some? {
      StatusOnlyOf(k.procs, k.nprocs, from.value, Runnable);
    }
    SameMemoryOk(k.procs, RecvStep(k).procs, k.nprocs, keys, dead);
  }

  ghost function KeysWithout(keys: set<VirtualPage>, pid: int): set<VirtualPage> {
    set k | k in keys && k.pid != pid
  }

  lemma FreedMemory(procs: seq<Process>, nprocs: nat, keys: set<VirtualPage>, dead: set<int>, pid: int, dead': set<int>)
    requires MemoryOk(procs, nprocs, keys, dead) && 0 < pid <= nprocs && (dead' == dead || dead' == dead + {pid})
    ensures MemoryOk(WithStatus(procs, pid, Unused), nprocs, KeysWithout(keys, pid), dead')
  {
    var procs', keys' := WithStatus(procs, pid, Unused), KeysWithout(keys, pid);
    forall i | 0 <= i < |procs'|
      ensures SlotMemory(procs'[i], keys', dead')
    {
      assert SlotMemory(procs[i], keys, dead);
    }
  }

  /** A slot that is not in use gets a new process number. */
  lemma AllocatedMemory(procs: seq<Process>, nprocs: nat, keys: set<VirtualPage>, dead: set<int>, i: nat)
    requires MemoryOk(procs, nprocs, keys, dead) && i < |procs|
    ensures MemoryOk(procs[i := procs[i].(pid := nprocs + 1, status := Loading)], nprocs + 1, keys, dead)
  {
    var procs' := procs[i := procs[i].(pid := nprocs + 1, status := Loading)];
    forall j | 0 <= j < |procs'|
      ensures SlotMemory(procs'[j], keys, dead)
    {
      assert j != i ==> SlotMemory(procs[j], keys, dead);
    }
  }

  /** A process that is loading gets its pages and is ready. */
  lemma LoadedMemory(procs: seq<Process>, nprocs: nat, keys: set<VirtualPage>, dead: set<int>, pid: int, keys': set<VirtualPage>)
    requires MemoryOk(procs, nprocs, keys, dead) && 0 < pid <= nprocs && pid !in dead
    requires forall k :: k in keys' <==> k in keys || (k.pid == pid && IsAppPage(k.page))
    ensures MemoryOk(WithStatus(procs, pid, Ready), nprocs, keys', dead)
  {
    var procs' := WithStatus(procs, pid, Ready);
    forall i | 0 <= i < |procs'|
      ensures SlotMemory(procs'[i], keys', dead)
    {
      assert SlotMemory(procs[i], keys, dead);
    }
  }

  /** A process that is loading has no memory and its number is fresh. */
  lemma LoadingHasNone(k: K, keys: set<VirtualPage>, dead: set<int>, pid: int, page: Syscall)
    requires KernelOk(k, keys, dead) && Safe(k) && Possible(k, Load(pid, page))
    ensures 0 < pid <= k.nprocs && pid != k.vm && pid !in dead && HasNoPages(keys, pid)
  {
    var i :| 0 <= i < MAX_NPROCESS && k.procs[i].pid == pid && k.procs[i].status.Loading?;
    assert SlotMemory(k.procs[i], keys, dead);
  }

  lemma LoadMemory(k: K, keys: set<VirtualPage>, dead: set<int>, pid: int, page: Syscall, keys': set<VirtualPage>)
    requires KernelOk(k, keys, dead) && Safe(k) && Possible(k, Load(pid, page))
    requires forall j :: j in keys' <==> j in keys || (j.pid == pid && IsAppPage(j.page))
    ensures Step(k, Load(pid, page)).Some?
    ensures KernelOk(Step(k, Load(pid, page)).value, keys', dead) && Safe(Step(k, Load(pid, page)).value)
  {
    LoadingHasNone(k, keys, dead, pid, page);
    LoadedMemory(k.procs, k.nprocs, keys, dead, pid, keys');
    LoadSafe(k, pid, page);
  }

  /** The shell, if there is one, has memory. */
  predicate ShellLoaded(k: K)
    requires k.Wf()
  {
    forall i :: 0 <= i < MAX_NPROCESS && k.procs[i].pid == GPID_SHELL ==> HasMemory(k.procs[i].status)
  }

  lemma KilledMemory(k: K, k1: K, keys: set<VirtualPage>, dead: set<int>)
    requires Safe(k) && k.Curr().pid >= GPID_USER_START && k.nprocs < INT_LIMIT && ShellLoaded(k)
    requires k1 == Freed(k, k.Curr().pid) && MemoryOk(k1.procs, k.nprocs, keys, dead)
    ensures KernelOk(Killed(k), keys, dead)
  {
    KilledSafe(k);
    SameMemoryOk(k1.procs, Killed(k).procs, k.nprocs, keys, dead);
  }

  /** proc_free as called by the process server. */
  lemma FreeMemory(k: K, pid: int, k': K, keys: set<VirtualPage>, dead: set<int>)
    requires Safe(k) && Possible(k, Free(pid)) && k.nprocs < INT_LIMIT
    requires k' == Freed(k, pid) && MemoryOk(k'.procs, k.nprocs, keys, dead)
    ensures KernelOk(k', keys, dead) && Safe(k')
  {
    FreeSafe(k, pid);
  }

  lemma FreeUsersMemory(k: K, k': K, keys: set<VirtualPage>, dead: set<int>)
    requires Safe(k) && Possible(k, FreeUsers) && k.nprocs < INT_LIMIT
    requires k' == FreedAll(k) && MemoryOk(k'.procs, k.nprocs, keys, dead)
    ensures KernelOk(k', keys, dead) && Safe(k')
  {
    FreeUsersSafe(k);
  }

  lemma AllocMemory(k: K, k': K, keys: set<VirtualPage>, dead: set<int>)
    requires KernelOk(k, keys, dead) && Safe(k) && k.nprocs + 1 < INT_LIMIT && Allocated(k) == Some(k')
    ensures KernelOk(k', keys, dead) && Safe(k')
  {
    AllocSafe(k);
    AllocatedMemory(k.procs, k.nprocs, keys, dead, FindUnused(k.procs, 0).value);
  }
}
