/** The kernel as a state machine: process slots, the round-robin scheduler and messages
    between processes. An address space is the process's own system call area; selecting one
    is atomic. A fatal error ends the machine (None). */
module KernelModel {
  import opened Options

  const MAX_NPROCESS := 16
  const GPID_PROCESS := 1
  const GPID_SHELL := 4
  const GPID_USER_START := 5
  const EXCP_ID_ECALL_U := 8
  const EXCP_ID_ECALL_S := 9
  const EXCP_ID_ECALL_M := 11
  const INTR_ID_SOFT := 3
  const INTR_ID_TIMER := 7

  datatype Status = Unused | Loading | Ready | Running | Runnable | WaitToSend | WaitToRecv

  datatype Process = Process(pid: int, status: Status, receiver: int, sp: int, mepc: int)

  datatype Call = NoCall | Recv | Send | BadCall

  datatype Msg = Msg(sender: int, receiver: int, content: seq<int>)

  /** The system call area at SYSCALL_ARG. */
  datatype Syscall = Syscall(call: Call, msg: Msg, retval: int)

  /** What has happened: sends accepted, messages copied to receivers, receive calls, the
      context of each process at its last entry to the kernel, and the calls that processes
      have not yet returned from. */
  datatype Log = Log(
    sends: seq<Msg>,
    deliveries: seq<Msg>,
    recvs: seq<int>,
    entry: map<int, (int, int)>,
    calling: map<int, Call>)

  datatype K = K(procs: seq<Process>, curr: nat, nprocs: nat, pages: map<int, Syscall>, vm: int, log: Log) {
    predicate Wf() {
      |procs| == MAX_NPROCESS && curr < MAX_NPROCESS
    }

    function Curr(): Process
      requires Wf()
    {
      procs[curr]
    }

    function Page(pid: int): Syscall {
      if pid in pages then pages[pid] else Syscall(NoCall, Msg(0, 0, []), 0)
    }

    function SetCurr(p: Process): K
      requires Wf()
    {
      this.(procs := procs[curr := p])
    }

    function SetPage(pid: int, page: Syscall): K {
      this.(pages := pages[pid := page])
    }
  }

  // ---------------------------------------------------------------- scheduling

  predicate Schedulable(s: Status) {
    s.Ready? || s.Running? || s.Runnable?
  }

  /** proc_set_status: every slot with the pid. */
  function WithStatus(procs: seq<Process>, pid: int, s: Status): (r: seq<Process>)
    ensures |r| == |procs|
  {
    seq(|procs|, i requires 0 <= i < |procs| => if procs[i].pid == pid then procs[i].(status := s) else procs[i])
  }

  /** The first schedulable slot among the slots curr + i, curr + i + 1, ..., curr + 16. */
  function FindNext(procs: seq<Process>, curr: nat, i: nat): (r: Option<nat>)
    requires |procs| == MAX_NPROCESS && i <= MAX_NPROCESS + 1
    ensures r.Some? ==> r.value < MAX_NPROCESS && Schedulable(procs[r.value].status)
    decreases MAX_NPROCESS + 1 - i
  {
    if i > MAX_NPROCESS then None
    else if Schedulable(procs[(curr + i) % MAX_NPROCESS].status) then Some((curr + i) % MAX_NPROCESS)
    else FindNext(procs, curr, i + 1)
  }

  /** proc_yield. */
  function Yield(k: K): Option<K>
    requires k.Wf()
  {
    var next := FindNext(k.procs, k.curr, 1);
    if next.None? then None
    else
      var procs := if k.Curr().status.Running? then WithStatus(k.procs, k.Curr().pid, Runnable) else k.procs;
      Some(Resumed(k, procs, next.value))
  }

  /** The process in slot n runs next, in its own address space. */
  function Resumed(k: K, procs: seq<Process>, n: nat): K
    requires |procs| == MAX_NPROCESS && n < MAX_NPROCESS
  {
    var p := procs[n].pid;
    k.(procs := WithStatus(procs, p, Running), curr := n, vm := p, log := k.log.(calling := k.log.calling - {p}))
  }

  // ------------------------------------------------------------------- messages

  function FindPid(procs: seq<Process>, pid: int, i: nat): (r: Option<nat>)
    requires i <= |procs|
    ensures r.Some? ==> i <= r.value < |procs| && procs[r.value].pid == pid
    ensures r.None? ==> forall j :: i <= j < |procs| ==> procs[j].pid != pid
    decreases |procs| - i
  {
    if i == |procs| then None else if procs[i].pid == pid then Some(i) else FindPid(procs, pid, i + 1)
  }

  predicate SendsTo(p: Process, pid: int) {
    p.status.WaitToSend? && p.receiver == pid
  }

  /** The waiting sender in the highest slot below n. */
  function FindSender(procs: seq<Process>, pid: int, n: nat): (r: Option<nat>)
    requires n <= |procs|
    ensures r.Some? ==> r.value < n && SendsTo(procs[r.value], pid)
    ensures r.None? ==> forall j :: 0 <= j < n ==> !SendsTo(procs[j], pid)
  {
    if n == 0 then None else if SendsTo(procs[n - 1], pid) then Some(n - 1) else FindSender(procs, pid, n - 1)
  }

  /** How a handler ends: fatally, by returning to the current process, or with proc_yield. */
  datatype Act = Fatal | Return(k: K) | Reschedule(k: K)

  /** proc_send. */
  function SendAct(k: K): Act
    requires k.Wf()
  {
    var msg := k.Page(k.vm).msg.(sender := k.Curr().pid);
    var k1 := k.SetPage(k.vm, k.Page(k.vm).(msg := msg));
    var to := FindPid(k.procs, msg.receiver, 0);
    if to.None? then Return(NotFound(k, msg))
    else if !k.procs[to.value].status.WaitToRecv? then Reschedule(Blocked(k1, msg))
    else Reschedule(Handed(k1, msg))
  }

  function NotFound(k: K, msg: Msg): K
    requires k.Wf()
  {
    k.SetPage(k.vm, k.Page(k.vm).(msg := msg, retval := -1)).(log := k.log.(calling := k.log.calling - {k.Curr().pid}))
  }

  function Blocked(k: K, msg: Msg): K
    requires k.Wf()
  {
    k.SetCurr(k.Curr().(status := WaitToSend, receiver := msg.receiver)).(log := k.log.(sends := k.log.sends + [msg]))
  }

  /** The message is copied into the address space of the receiver, which becomes runnable. */
  function Handed(k: K, msg: Msg): K
    requires k.Wf()
  {
    k.(vm := msg.receiver,
       pages := k.pages[msg.receiver := k.Page(msg.receiver).(msg := msg)],
       procs := WithStatus(k.procs, msg.receiver, Runnable),
       log := k.log.(sends := k.log.sends + [msg], deliveries := k.log.deliveries + [msg]))
  }

  /** proc_recv, up to the final yield. */
  function RecvStep(k: K): K
    requires k.Wf()
  {
    var p := k.Curr().pid;
    var from := FindSender(k.procs, p, MAX_NPROCESS);
    var k1 := k.(log := k.log.(recvs := k.log.recvs + [p]));
    if from.None? then k1.SetCurr(k.Curr().(status := WaitToRecv))
    else Taken(k1, k.procs[from.value].pid)
  }

  function Taken(k: K, sender: int): K
    requires k.Wf()
  {
    var msg := k.Page(sender).msg;
    var p := k.Curr().pid;
    k.(vm := p,
       pages := k.pages[p := k.Page(p).(msg := msg)],
       procs := WithStatus(k.procs, sender, Runnable),
       log := k.log.(deliveries := k.log.deliveries + [msg]))
  }

  /** Entering the kernel: the context of the running process is saved in its slot. */
  function Enter(k: K, sp: int, mepc: int): K
    requires k.Wf()
  {
    k.SetCurr(k.Curr().(sp := sp, mepc := mepc)).(log := k.log.(entry := k.log.entry[k.Curr().pid := (sp, mepc)]))
  }

  /** proc_syscall. */
  function SyscallAct(k: K): Act
    requires k.Wf()
  {
    match k.Page(k.vm).call
    case Recv => Reschedule(RecvStep(Called(k)))
    case Send => SendAct(Called(k))
    case _ => Fatal
  }

  /** The system call area is marked as taken before the call is carried out. */
  function Called(k: K): K
    requires k.Wf()
  {
    k.SetPage(k.vm, k.Page(k.vm).(retval := 0, call := NoCall))
     .(log := k.log.(calling := k.log.calling[k.Curr().pid := k.Page(k.vm).call]))
  }

  // ------------------------------------------------------------------ processes

  function FindUnused(procs: seq<Process>, i: nat): (r: Option<nat>)
    requires i <= |procs|
    ensures r.Some? ==> i <= r.value < |procs| && procs[r.value].status.Unused?
    decreases |procs| - i
  {
    if i == |procs| then None else if procs[i].status.Unused? then Some(i) else FindUnused(procs, i + 1)
  }

  /** proc_alloc: process numbers are never used twice. */
  function Allocated(k: K): Option<K>
    requires k.Wf()
  {
    var slot := FindUnused(k.procs, 0);
    if slot.None? then None
    else Some(k.(nprocs := k.nprocs + 1,
                 procs := k.procs[slot.value := k.procs[slot.value].(pid := k.nprocs + 1, status := Loading)]))
  }

  /** proc_free of one process. */
  function Freed(k: K, pid: int): K {
    k.(procs := WithStatus(k.procs, pid, Unused), pages := k.pages - {pid})
  }

  predicate IsUserProcess(p: Process) {
    p.pid >= GPID_USER_START && !p.status.Unused?
  }

  /** proc_free of all user processes. */
  function FreedAll(k: K): K {
    k.(procs := seq(|k.procs|, i requires 0 <= i < |k.procs| =>
                if IsUserProcess(k.procs[i]) then k.procs[i].(status := Unused) else k.procs[i]),
       pages := k.pages - set i | 0 <= i < |k.procs| && IsUserProcess(k.procs[i]) :: k.procs[i].pid)
  }

  /** The Ctrl+C path of intr_entry: kill the running user process and wake the shell. */
  function Killed(k: K): K
    requires k.Wf()
  {
    var k1 := Freed(k, k.Curr().pid);
    k1.(procs := WithStatus(k1.procs, GPID_SHELL, Runnable))
  }

  /** The test in excp_entry: its last operand is a constant other than 0. */
  predicate TakenAsSyscall(id: int) {
    id == EXCP_ID_ECALL_U || id == EXCP_ID_ECALL_S || EXCP_ID_ECALL_M != 0
  }

  /** What excp_entry does if the test fails: kill a user process, or stop. */
  function OtherException(k: K, sp: int, mepc: int): Act {
    if k.Wf() && k.Curr().pid >= GPID_USER_START then Reschedule(Enter(Killed(k), sp, mepc)) else Fatal
  }

  // --------------------------------------------------------------------- events

  datatype Event =
    | Compute(page: Syscall) // the running process writes its own system call area
    | Exception(id: int, sp: int, mepc: int)
    | Interrupt(id: int, ctrlC: bool, sp: int, mepc: int)
    | Alloc // the last four are calls by the process server
    | Load(pid: int, page: Syscall) // the process is loaded and set ready
    | Free(pid: int)
    | FreeUsers

  /** Which events can occur: process management is done by the process server, which frees
      only others and sets ready what it is loading. */
  predicate Possible(k: K, e: Event)
    requires k.Wf()
  {
    match e
    case Alloc => k.Curr().pid == GPID_PROCESS
    case Load(pid, _) =>
      k.Curr().pid == GPID_PROCESS && exists i :: 0 <= i < MAX_NPROCESS && k.procs[i].pid == pid && k.procs[i].status.Loading?
    case Free(pid) => k.Curr().pid == GPID_PROCESS && pid != GPID_PROCESS && pid > 0
    case FreeUsers => k.Curr().pid == GPID_PROCESS
    case _ => true
  }

  predicate IsKill(k: K, e: Event)
    requires k.Wf()
  {
    && e.Interrupt? && e.ctrlC
    && k.Curr().pid >= GPID_USER_START
  }

  function Handle(k: K, e: Event): Act
    requires k.Wf()
  {
    match e
    case Compute(page) => Return(k.SetPage(k.vm, page))
    case Exception(id, sp, mepc) =>
      if TakenAsSyscall(id) then SyscallAct(Enter(k, sp, mepc + 4)) else OtherException(k, sp, mepc + 4)
    case Interrupt(id, ctrlC, sp, mepc) =>
      if id == INTR_ID_TIMER && k.Curr().pid < GPID_SHELL then Return(k)
      else if ctrlC && k.Curr().pid >= GPID_USER_START then Reschedule(Enter(Killed(k), sp, mepc))
      else if id == INTR_ID_SOFT then SyscallAct(Enter(k, sp, mepc))
      else if id == INTR_ID_TIMER then Reschedule(Enter(k, sp, mepc))
      else Fatal
    case Alloc => var r := Allocated(k); if r.None? then Fatal else Return(r.value)
    case Load(pid, page) => Return(k.(procs := WithStatus(k.procs, pid, Ready), pages := k.pages[pid := page]))
    case Free(pid) => Return(Freed(k, pid))
    case FreeUsers => Return(FreedAll(k))
  }

  /** The test never fails: every exception is taken as a system call, so a faulting process is
      not killed by excp_entry. */
  lemma EveryExceptionIsSyscall(k: K, id: int, sp: int, mepc: int)
    requires k.Wf()
    ensures TakenAsSyscall(id) && Handle(k, Exception(id, sp, mepc)) == SyscallAct(Enter(k, sp, mepc + 4))
  {
  }

  /** What a handler leads to; None is the fatal end. */
  function Finish(act: Act): Option<K>
    requires act.Reschedule? ==> act.k.Wf()
  {
    match act
    case Fatal => None
    case Return(k) => Some(k)
    case Reschedule(k) => Yield(k)
  }

  function Step(k: K, e: Event): Option<K>
    requires k.Wf()
  {
    Finish(Handle(k, e))
  }
}
