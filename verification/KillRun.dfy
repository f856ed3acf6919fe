/** Runs from boot in which a kill makes the shell return from a receive without a message. */
module KillRun {
  import opened Options
  import opened KernelModel
  import opened KernelSafety
  import opened KernelHistory
  import opened KernelFairness
  import opened KernelDelivery

  const NOBODY := Process(0, Unused, 0, 0, 0)
  const L := Loading

  function Proc(pid: int, s: Status): Process {
    Process(pid, s, 0, 0, 0)
  }

  function Slots(a: Process, b: Process, c: Process, d: Process, e: Process): (procs: seq<Process>)
    ensures |procs| == MAX_NPROCESS
  {
    [a, b, c, d, e] + seq(11, _ => NOBODY)
  }

  function Changed(p: Process, pid: int, s: Status): Process {
    if p.pid == pid then p.(status := s) else p
  }

  lemma SlotsWithStatus(a: Process, b: Process, c: Process, d: Process, e: Process, pid: int, s: Status)
    requires pid != 0
    ensures WithStatus(Slots(a, b, c, d, e), pid, s) ==
            Slots(Changed(a, pid, s), Changed(b, pid, s), Changed(c, pid, s), Changed(d, pid, s), Changed(e, pid, s))
  {
  }

  lemma RunOne(k: K, e: Event, rest: seq<Event>, k1: K, k': K)
    requires k.Wf() && Possible(k, e) && Step(k, e) == Some(k1) && IsRun(k1, rest, k')
    ensures IsRun(k, [e] + rest, k')
  {
    assert ([e] + rest)[1..] == rest;
  }

  // --------------------------------------------------------------------- starting

  lemma {:induction false} FirstUnused(procs: seq<Process>, slot: nat, i: nat)
    requires i <= slot < |procs| && procs[slot].status.Unused? && forall j :: i <= j < slot ==> !procs[j].status.Unused?
    ensures FindUnused(procs, i) == Some(slot)
    decreases slot - i
  {
    if i < slot {
      FirstUnused(procs, slot, i + 1);
    }
  }

  lemma AllocStep(k: K, slot: nat, k': K)
    requires k.Wf() && k.Curr().pid == GPID_PROCESS && slot < MAX_NPROCESS && k.procs[slot] == NOBODY
    requires forall i :: 0 <= i < slot ==> !k.procs[i].status.Unused?
    requires k' == k.(nprocs := k.nprocs + 1, procs := k.procs[slot := Proc(k.nprocs + 1, Loading)])
    ensures Possible(k, Alloc) && Step(k, Alloc) == Some(k')
  {
    FirstUnused(k.procs, slot, 0);
  }

  /** The process server has taken four more slots. */
  function Allocated(page: Syscall): K {
    Booted(page).(procs := Slots(Proc(1, Running), Proc(2, L), Proc(3, L), Proc(4, L), Proc(5, L)), nprocs := 5)
  }

  lemma AllocatedRun(page: Syscall)
    ensures IsRun(Booted(page), [Alloc, Alloc, Alloc, Alloc], Allocated(page))
  {
    var k0, k4 := Booted(page), Allocated(page);
    var n := NOBODY;
    assert k0.procs == Slots(Proc(1, Running), n, n, n, n);
    var k1 := k0.(procs := Slots(Proc(1, Running), Proc(2, L), n, n, n), nprocs := 2);
    var k2 := k0.(procs := Slots(Proc(1, Running), Proc(2, L), Proc(3, L), n, n), nprocs := 3);
    var k3 := k0.(procs := Slots(Proc(1, Running), Proc(2, L), Proc(3, L), Proc(4, L), n), nprocs := 4);
    AllocStep(k0, 1, k1);
    AllocStep(k1, 2, k2);
    AllocStep(k2, 3, k3);
    AllocStep(k3, 4, k4);
    RunOne(k3, Alloc, [], k4, k4);
    RunOne(k2, Alloc, [Alloc], k3, k4);
    RunOne(k1, Alloc, [Alloc, Alloc], k2, k4);
    RunOne(k0, Alloc, [Alloc, Alloc, Alloc], k1, k4);
  }

  /** It has loaded the shell and a user process. */
  function Started(page: Syscall): K {
    Allocated(page).(
      procs := Slots(Proc(1, Running), Proc(2, L), Proc(3, L), Proc(4, Ready), Proc(5, Ready)),
      pages := map[1 := page, 4 := page, 5 := page])
  }

  lemma StartedRun(page: Syscall)
    ensures IsRun(Allocated(page), [Load(4, page), Load(5, page)], Started(page))
  {
    var k0, k2 := Allocated(page), Started(page);
    var k1 := k0.(procs := Slots(Proc(1, Running), Proc(2, L), Proc(3, L), Proc(4, Ready), Proc(5, L)),
                  pages := map[1 := page, 4 := page]);
    SlotsWithStatus(Proc(1, Running), Proc(2, L), Proc(3, L), Proc(4, L), Proc(5, L), 4, Ready);
    assert k0.procs[3].status.Loading? && Possible(k0, Load(4, page));
    assert Step(k0, Load(4, page)) == Some(k1);
    SlotsWithStatus(Proc(1, Running), Proc(2, L), Proc(3, L), Proc(4, Ready), Proc(5, L), 5, Ready);
    assert k1.procs[4].status.Loading? && Possible(k1, Load(5, page));
    assert Step(k1, Load(5, page)) == Some(k2);
    RunOne(k1, Load(5, page), [], k2, k2);
    RunOne(k0, Load(4, page), [Load(5, page)], k1, k2);
  }

  // -------------------------------------------------------------------- receiving

  /** The scheduler takes slot n if it can run and the slots between cannot. */
  lemma NextIs(procs: seq<Process>, curr: nat, n: nat)
    requires |procs| == MAX_NPROCESS && curr < MAX_NPROCESS && n < MAX_NPROCESS && Schedulable(procs[n].status)
    requires forall i :: 0 <= i < MAX_NPROCESS && Schedulable(procs[i].status) ==> i == n || Distance(curr, n) < Distance(curr, i)
    ensures FindNext(procs, curr, 1) == Some(n)
  {
    FindNextBefore(procs, curr, n, 1);
  }

  /** A receive call without a sender, after which the process in slot n runs. */
  lemma ReceiveStep(k: K, id: int, sp: int, mepc: int, procs: seq<Process>, n: nat, k': K)
    requires k.Wf() && k.vm == k.Curr().pid && k.Page(k.vm).call == Recv && n < MAX_NPROCESS
    requires forall i :: 0 <= i < MAX_NPROCESS ==> !SendsTo(k.procs[i], k.Curr().pid)
    requires procs == k.procs[k.curr := k.Curr().(status := WaitToRecv, sp := sp, mepc := mepc + 4)]
    requires FindNext(procs, k.curr, 1) == Some(n)
    requires k' == Resumed(k.(pages := k.pages[k.vm := k.Page(k.vm).(retval := 0, call := NoCall)],
                              log := k.log.(recvs := k.log.recvs + [k.vm], entry := k.log.entry[k.vm := (sp, mepc + 4)],
                                            calling := k.log.calling[k.vm := Recv])), procs, n)
    ensures Step(k, Exception(id, sp, mepc)) == Some(k')
  {
    EveryExceptionIsSyscall(k, id, sp, mepc);
    var k1 := Called(Enter(k, sp, mepc + 4));
    assert k1.Page(k.vm) == k.Page(k.vm).(retval := 0, call := NoCall);
    NoSender(k1.procs, k.vm);
    var k2 := RecvStep(k1);
    assert k2.procs == procs;
    assert Step(k, Exception(id, sp, mepc)) == Yield(k2);
  }

  lemma NoSender(procs: seq<Process>, pid: int)
    requires forall i :: 0 <= i < |procs| ==> !SendsTo(procs[i], pid)
    ensures FindSender(procs, pid, |procs|).None?
  {
  }

  /** A process that waits in sys_recv, and the system call area that it then has. */
  function Waiting(pid: int, sp: int, mepc: int): Process {
    Process(pid, WaitToRecv, 0, sp, mepc + 4)
  }

  function Taken(page: Syscall): Syscall {
    page.(retval := 0, call := NoCall)
  }

  /** The process server waits for a message, the shell runs. */
  function ShellRuns(page: Syscall, sp: int, mepc: int): K {
    K(Slots(Waiting(1, sp, mepc), Proc(2, L), Proc(3, L), Proc(4, Running), Proc(5, Ready)), 3, 5,
      map[1 := Taken(page), 4 := page, 5 := page], 4,
      Log([], [], [1], map[1 := (sp, mepc + 4)], map[1 := Recv]))
  }

  lemma ServerReceives(page: Syscall, id: int, sp: int, mepc: int)
    requires page.call == Recv
    ensures Step(Started(page), Exception(id, sp, mepc)) == Some(ShellRuns(page, sp, mepc))
  {
    var k, k' := Started(page), ShellRuns(page, sp, mepc);
    var procs := Slots(Waiting(1, sp, mepc), Proc(2, L), Proc(3, L), Proc(4, Ready), Proc(5, Ready));
    NextIs(procs, 0, 3);
    SlotsWithStatus(Waiting(1, sp, mepc), Proc(2, L), Proc(3, L), Proc(4, Ready), Proc(5, Ready), 4, Running);
    assert k'.log.calling == map[1 := Recv] - {4};
    ReceiveStep(k, id, sp, mepc, procs, 3, k');
  }

  /** The shell waits for a message too, the user process runs. */
  function UserRuns(page: Syscall, sp: int, mepc: int): K {
    K(Slots(Waiting(1, sp, mepc), Proc(2, L), Proc(3, L), Waiting(4, sp, mepc), Proc(5, Running)), 4, 5,
      map[1 := Taken(page), 4 := Taken(page), 5 := page], 5,
      Log([], [], [1, 4], map[1 := (sp, mepc + 4), 4 := (sp, mepc + 4)], map[1 := Recv, 4 := Recv]))
  }

  lemma ShellReceives(page: Syscall, id: int, sp: int, mepc: int)
    requires page.call == Recv
    ensures Step(ShellRuns(page, sp, mepc), Exception(id, sp, mepc)) == Some(UserRuns(page, sp, mepc))
  {
    var k, k' := ShellRuns(page, sp, mepc), UserRuns(page, sp, mepc);
    var procs := Slots(Waiting(1, sp, mepc), Proc(2, L), Proc(3, L), Waiting(4, sp, mepc), Proc(5, Ready));
    NextIs(procs, 3, 4);
    SlotsWithStatus(Waiting(1, sp, mepc), Proc(2, L), Proc(3, L), Waiting(4, sp, mepc), Proc(5, Ready), 5, Running);
    assert k'.log.calling == map[1 := Recv, 4 := Recv] - {5};
    ReceiveStep(k, id, sp, mepc, procs, 4, k');
  }

  // --------------------------------------------------------------------- the kill

  /** The user process has been killed and the shell is back from its receive. */
  function ShellBack(page: Syscall, sp: int, mepc: int): K {
    K(Slots(Waiting(1, sp, mepc), Proc(2, L), Proc(3, L), Waiting(4, sp, mepc).(status := Running),
            Process(5, Unused, 0, sp, mepc)), 3, 5,
      map[1 := Taken(page), 4 := Taken(page)], 4,
      Log([], [], [1, 4], map[1 := (sp, mepc + 4), 4 := (sp, mepc + 4), 5 := (sp, mepc)], map[1 := Recv]))
  }

  /** A kill of the running process, after which the process in slot n runs. */
  lemma KillStep(k: K, id: int, sp: int, mepc: int, procs: seq<Process>, n: nat, k': K)
    requires k.Wf() && k.Curr().pid >= GPID_USER_START && n < MAX_NPROCESS
    requires procs == Enter(Killed(k), sp, mepc).procs && !procs[k.curr].status.Running?
    requires FindNext(procs, k.curr, 1) == Some(n)
    requires k' == Resumed(k.(pages := k.pages - {k.Curr().pid},
                              log := k.log.(entry := k.log.entry[k.Curr().pid := (sp, mepc)])), procs, n)
    ensures Step(k, Interrupt(id, true, sp, mepc)) == Some(k')
  {
    var k1 := Enter(Killed(k), sp, mepc);
    assert k1.log.entry == k.log.entry[k.Curr().pid := (sp, mepc)];
    assert Step(k, Interrupt(id, true, sp, mepc)) == Yield(k1);
  }

  lemma SlotsKilled(k: K, sp: int, mepc: int)
    requires k.curr == 4 && k.procs == Slots(Waiting(1, sp, mepc), Proc(2, L), Proc(3, L), Waiting(4, sp, mepc), Proc(5, Running))
    ensures Enter(Killed(k), sp, mepc).procs ==
            Slots(Waiting(1, sp, mepc), Proc(2, L), Proc(3, L), Waiting(4, sp, mepc).(status := Runnable), Process(5, Unused, 0, sp, mepc))
  {
    SlotsWithStatus(Waiting(1, sp, mepc), Proc(2, L), Proc(3, L), Waiting(4, sp, mepc), Proc(5, Running), 5, Unused);
    SlotsWithStatus(Waiting(1, sp, mepc), Proc(2, L), Proc(3, L), Waiting(4, sp, mepc), Proc(5, Unused), 4, Runnable);
  }

  lemma UserKilled(page: Syscall, id: int, sp: int, mepc: int)
    ensures Step(UserRuns(page, sp, mepc), Interrupt(id, true, sp, mepc)) == Some(ShellBack(page, sp, mepc))
  {
    var k, k' := UserRuns(page, sp, mepc), ShellBack(page, sp, mepc);
    var shell, gone := Waiting(4, sp, mepc).(status := Runnable), Process(5, Unused, 0, sp, mepc);
    var procs := Slots(Waiting(1, sp, mepc), Proc(2, L), Proc(3, L), shell, gone);
    SlotsKilled(k, sp, mepc);
    NextIs(procs, 4, 3);
    SlotsWithStatus(Waiting(1, sp, mepc), Proc(2, L), Proc(3, L), shell, gone, 4, Running);
    assert k.pages - {5} == k'.pages && k.log.calling - {4} == k'.log.calling;
    KillStep(k, id, sp, mepc, procs, 3, k');
  }

  /** The events of the run: the process server starts the shell and a user process, and then
      the server and the shell call sys_recv and Ctrl+C kills the user process. */
  function Events(page: Syscall, id: int, sp: int, mepc: int): seq<Event> {
    [Alloc, Alloc, Alloc, Alloc] + ([Load(4, page), Load(5, page)] + Calls(id, sp, mepc))
  }

  function Calls(id: int, sp: int, mepc: int): seq<Event> {
    [Exception(EXCP_ID_ECALL_U, sp, mepc)] + ([Exception(EXCP_ID_ECALL_U, sp, mepc)] + [Interrupt(id, true, sp, mepc)])
  }

  lemma CallsRun(page: Syscall, id: int, sp: int, mepc: int)
    requires page.call == Recv
    ensures IsRun(Started(page), Calls(id, sp, mepc), ShellBack(page, sp, mepc))
  {
    var ecall, ctrlC, k' := Exception(EXCP_ID_ECALL_U, sp, mepc), Interrupt(id, true, sp, mepc), ShellBack(page, sp, mepc);
    ServerReceives(page, EXCP_ID_ECALL_U, sp, mepc);
    ShellReceives(page, EXCP_ID_ECALL_U, sp, mepc);
    UserKilled(page, id, sp, mepc);
    RunOne(UserRuns(page, sp, mepc), ctrlC, [], k', k');
    assert [ctrlC] + [] == [ctrlC];
    RunOne(ShellRuns(page, sp, mepc), ecall, [ctrlC], UserRuns(page, sp, mepc), k');
    RunOne(Started(page), ecall, [ecall] + [ctrlC], ShellRuns(page, sp, mepc), k');
  }

  lemma WholeRun(page: Syscall, id: int, sp: int, mepc: int)
    requires page.call == Recv
    ensures IsRun(Booted(page), Events(page, id, sp, mepc), ShellBack(page, sp, mepc))
  {
    AllocatedRun(page);
    StartedRun(page);
    CallsRun(page, id, sp, mepc);
    RunsJoin(Allocated(page), [Load(4, page), Load(5, page)], Started(page), Calls(id, sp, mepc), ShellBack(page, sp, mepc));
    RunsJoin(Booted(page), [Alloc, Alloc, Alloc, Alloc], Allocated(page),
             [Load(4, page), Load(5, page)] + Calls(id, sp, mepc), ShellBack(page, sp, mepc));
  }

  /** After that run the shell runs again after one receive call, and no message ever arrived at
      it: exactly-once delivery does not hold for all runs. */
  lemma ShellReturnsWithoutMessage(page: Syscall, id: int, sp: int, mepc: int, k: K, h: Log)
    requires page.call == Recv && k == ShellBack(page, sp, mepc) && h == History(page, Events(page, id, sp, mepc))
    ensures IsRun(Booted(page), Events(page, id, sp, mepc), k)
    ensures k.Wf() && k.Curr().pid == GPID_SHELL && k.Curr().status == Running
    ensures Count(h.recvs, GPID_SHELL) == 1 && |For(h.deliveries, GPID_SHELL)| == 0
    ensures !Delivered(h, k, k.Curr())
  {
    WholeRun(page, id, sp, mepc);
    LogIsHistory(page, Events(page, id, sp, mepc), k);
    AppendCount([1], 4, GPID_SHELL);
    AppendCount([], 1, GPID_SHELL);
    assert [1] + [4] == k.log.recvs && [] + [1] == [1];
  }
}
