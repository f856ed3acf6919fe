/** The whole system: processes in memory under either translation mechanism, the kernel's
    handlers and the process server's management calls. Whatever happens to it is a run of the
    kernel's state machine, whose system call areas are the bytes in the processes' memories. */
module System {
  import opened Options
  import opened Pages
  import opened Bytes
  import opened Sv39
  import opened Earth
  import opened ElfLoader
  import opened KernelModel
  import opened KernelSafety
  import opened KernelMemory
  import opened KernelHistory
  import opened KernelCalls
  import opened KernelDelivery
  import opened SyscallArea
  import opened Kernel

  datatype Program = Program(reader: nat -> FileBlock, header: ProgramHeader, argc: nat, argv: Option<Args>)

  predicate Loadable(p: Program) {
    p.header.filesz <= APPS_SIZE && p.argc <= CMD_NARGS
  }

  /** What can happen: the running process writes to one of its pages, an exception or an
      interrupt occurs, or the process server manages processes. */
  datatype Input =
    | UserStore(page: nat, content: Page)
    | Trap(id: int, sp: int, mepc: int)
    | Intr(id: int, ctrlC: bool, sp: int, mepc: int)
    | NewProcess
    | LoadProcess(pid: int, program: Program)
    | FreeProcess(pid: int)
    | FreeUserProcesses

  /** Where the model applies: processes keep to their own pages, only the process server manages
      processes, and a kill finds a shell with memory, if it finds one. */
  predicate CanHappen(k: K, input: Input)
    requires k.Wf()
  {
    match input
    case UserStore(page, _) => IsAppPage(page)
    case Trap(_, _, _) => true
    case Intr(id, ctrlC, sp, mepc) => IsKill(k, Interrupt(id, ctrlC, sp, mepc)) ==> ShellLoaded(k)
    case NewProcess => Possible(k, Alloc) && k.nprocs + 1 < INT_LIMIT
    case LoadProcess(pid, program) => Possible(k, Load(pid, k.Page(pid))) && Loadable(program)
    case FreeProcess(pid) => Possible(k, Free(pid)) && pid <= k.nprocs
    case FreeUserProcesses => Possible(k, FreeUsers)
  }

  /** The event of the state machine that an input is: a store outside the system call area and
      the rest of its page changes nothing in the machine's eyes. */
  predicate Matches(k: K, input: Input, e: Event)
    requires k.Wf()
  {
    match input
    case UserStore(page, content) => e == Compute(if page == ARG_PAGE then Decode(content) else k.Page(k.vm))
    case Trap(id, sp, mepc) => e == Exception(id, sp, mepc)
    case Intr(id, ctrlC, sp, mepc) => e == Interrupt(id, ctrlC, sp, mepc)
    case NewProcess => e == Alloc
    case LoadProcess(pid, _) => e.Load? && e.pid == pid
    case FreeProcess(pid) => e == Free(pid)
    case FreeUserProcesses => e == FreeUsers
  }

  /** A store by the running process to one of its pages. */
  method Store(kernel: Kernel, page: nat, content: Page)
    requires kernel.Valid() && Safe(kernel.State()) && IsAppPage(page)
    modifies kernel`pages, kernel.earth, kernel.earth.tlb, kernel.earth.mmu
    ensures kernel.Valid() && Safe(kernel.State())
    ensures var k := old(kernel.State());
      Step(k, Compute(if page == ARG_PAGE then Decode(content) else k.Page(k.vm))) == Some(kernel.State())
    ensures kernel.earth.spaces == old(kernel.earth.spaces)[VirtualPage(kernel.earth.curr, page) := content]
    ensures kernel.earth.curr == old(kernel.earth.curr)
  {
    var earth := kernel.earth;
    ghost var k := kernel.State();
    SlotHasPage(k.procs, k.nprocs, earth.spaces.Keys, earth.dead, k.curr, page);
    if page == ARG_PAGE {
      kernel.WriteArea(content);
    } else {
      SlotHasPage(k.procs, k.nprocs, earth.spaces.Keys, earth.dead, k.curr, ARG_PAGE);
      assert AreaAt(earth.spaces, kernel.pages, earth.curr);
      AreasKept(earth.spaces, kernel.pages, VirtualPage(earth.curr, page), content);
      earth.Store(page, content);
      assert kernel.pages == kernel.pages[earth.curr := k.Page(earth.curr)];
    }
    assert earth.spaces.Keys == old(kernel.earth.spaces.Keys);
  }

  /** The process pid has exactly its application pages, with the image of the program, and all
      other memory is as before. */
  ghost predicate AddedProcess(m: Memory, m': Memory, pid: int, program: Program) {
    && (forall k :: k in m' <==> k in m || (k.pid == pid && IsAppPage(k.page)))
    && (forall k :: k in m ==> m'[k] == m[k])
    && forall x {:trigger ImageByte(program.reader, program.header, x)} :: 0 <= x < APPS_SIZE ==>
         && VirtualPage(pid, (APPS_ENTRY + x) / 4096) in m'
         && ByteAt(m', pid, APPS_ENTRY + x) == ImageByte(program.reader, program.header, x)
  }

  /** The slot of the process is ready, and nothing else in the slots changes. */
  predicate SlotsAfterLoad(procs: seq<Process>, procs': seq<Process>, pid: int) {
    && |procs'| == |procs|
    && forall i :: 0 <= i < |procs| ==> procs'[i] == procs[i].(status := if procs[i].pid == pid then Ready else procs[i].status)
  }

  /** elf_load and proc_set_ready for a process that is loading: false is the fatal end, which
      comes exactly if there are too few frames. */
  method LoadReady(kernel: Kernel, pid: int, program: Program) returns (ok: bool, ghost area: Syscall)
    requires kernel.Valid() && Safe(kernel.State()) && Loadable(program)
    requires Possible(kernel.State(), Load(pid, kernel.State().Page(pid)))
    modifies kernel`pages, kernel.procs, kernel.earth, kernel.earth.tlb, kernel.earth.mmu
    ensures ok <==> old(kernel.earth.CanGive(pid, 6))
    ensures ok ==> kernel.Valid() && Safe(kernel.State()) && Step(old(kernel.State()), Load(pid, area)) == Some(kernel.State())
    ensures ok ==> AddedProcess(old(kernel.earth.spaces), kernel.earth.spaces, pid, program)
    ensures ok ==> SlotsAfterLoad(old(kernel.procs[..]), kernel.procs[..], pid)
  {
    var earth := kernel.earth;
    ghost var k, spaces := kernel.State(), earth.spaces;
    area := k.Page(pid);
    LoadingHasNone(k, spaces.Keys, earth.dead, pid, area);
    ghost var page0;
    ok, page0 := LoadApp(earth, pid, program.reader, program.argc, program.argv, program.header);
    if ok {
      area := Decode(earth.spaces[VirtualPage(pid, ARG_PAGE)]);
      AreasAdded(spaces, earth.spaces, kernel.pages, pid);
      kernel.pages := kernel.pages[pid := area];
      LoadMemory(k, spaces.Keys, earth.dead, pid, area, earth.spaces.Keys);
      kernel.SetStatus(pid, Ready);
    }
  }

  /** proc_alloc, as called by the process server. */
  method AllocProcess(kernel: Kernel) returns (ok: bool)
    requires kernel.Valid() && Safe(kernel.State()) && kernel.nprocs + 1 < INT_LIMIT
    modifies kernel`nprocs, kernel.procs
    ensures if ok then Step(old(kernel.State()), Alloc) == Some(kernel.State()) && kernel.Valid() && Safe(kernel.State())
            else Step(old(kernel.State()), Alloc).None?
  {
    ghost var k := kernel.State();
    var pid := kernel.ProcAlloc();
    ok := pid.Some?;
    if ok {
      AllocMemory(k, kernel.State(), kernel.earth.spaces.Keys, kernel.earth.dead);
    }
  }

  /** proc_free, as called by the process server for one or for all user processes. */
  method FreeProcesses(kernel: Kernel, pid: int)
    requires kernel.Valid() && Safe(kernel.State())
    requires if pid == -1 then Possible(kernel.State(), FreeUsers) else Possible(kernel.State(), Free(pid)) && pid <= kernel.nprocs
    modifies kernel`pages, kernel.procs, kernel.earth, kernel.earth.tlb, kernel.earth.mmu
    ensures kernel.Valid() && Safe(kernel.State())
    ensures Step(old(kernel.State()), if pid == -1 then FreeUsers else Free(pid)) == Some(kernel.State())
    ensures FreedMemories(old(kernel.State()), old(kernel.earth.spaces), kernel.earth.spaces, pid)
  {
    ghost var k := kernel.State();
    kernel.ProcFree(pid);
    if pid == -1 {
      FreeUsersMemory(k, kernel.State(), kernel.earth.spaces.Keys, kernel.earth.dead);
    } else {
      FreeMemory(k, pid, kernel.State(), kernel.earth.spaces.Keys, kernel.earth.dead);
    }
  }

  /** The processes that are freed have no memory, all others keep theirs. */
  ghost predicate FreedMemories(k: K, m: Memory, m': Memory, pid: int)
    requires k.Wf()
  {
    && Spared(m, m', pid)
    && forall i :: 0 <= i < MAX_NPROCESS && Frees(pid, k.procs[i].pid) ==> HasNoPages(m'.Keys, k.procs[i].pid)
  }

  /** What each input does to the memories. */
  ghost predicate InputMemory(k: K, input: Input, m: Memory, m': Memory)
    requires k.Wf()
  {
    match input
    case UserStore(page, content) => m' == m[VirtualPage(k.vm, page) := content]
    case Trap(id, sp, mepc) => MemoryAfter(k, Exception(id, sp, mepc), m, m')
    case Intr(id, ctrlC, sp, mepc) => MemoryAfter(k, Interrupt(id, ctrlC, sp, mepc), m, m')
    case NewProcess => m' == m
    case LoadProcess(pid, program) => AddedProcess(m, m', pid, program)
    case FreeProcess(pid) => FreedMemories(k, m, m', pid)
    case FreeUserProcesses => FreedMemories(k, m, m', -1)
  }

  datatype Outcome = Done | Halted | Outside

  /** One input to the system: a step of the state machine. It halts exactly if the step is
      fatal or there are too few frames for a process to be loaded. */
  method Handle(kernel: Kernel, input: Input) returns (outcome: Outcome, ghost e: Event)
    requires kernel.Valid() && Safe(kernel.State())
    modifies kernel, kernel.procs, kernel.earth, kernel.earth.tlb, kernel.earth.mmu
    ensures outcome == Outside <==> !CanHappen(old(kernel.State()), input)
    ensures outcome != Outside ==> Matches(old(kernel.State()), input, e) && Possible(old(kernel.State()), e)
    ensures outcome == Done ==> kernel.Valid() && Safe(kernel.State()) && Step(old(kernel.State()), e) == Some(kernel.State())
    ensures outcome == Done ==> InputMemory(old(kernel.State()), input, old(kernel.earth.spaces), kernel.earth.spaces)
    ensures outcome == Halted ==>
              Step(old(kernel.State()), e).None? || (input.LoadProcess? && !old(kernel.earth.CanGive(input.pid, 6)))
  {
    ghost var k := kernel.State();
    e := Compute(k.Page(k.vm));
    var can := CanHappen(K(kernel.procs[..], kernel.curr, kernel.nprocs, map[], 0, Log([], [], [], map[], map[])), input);
    if !can {
      return Outside, e;
    }
    var ok := true;
    match input {
      case UserStore(page, content) =>
        e := Compute(if page == ARG_PAGE then Decode(content) else k.Page(k.vm));
        Store(kernel, page, content);
      case Trap(id, sp, mepc) =>
        e := Exception(id, sp, mepc);
        ok := kernel.ExcpEntry(id, sp, mepc);
      case Intr(id, ctrlC, sp, mepc) =>
        e := Interrupt(id, ctrlC, sp, mepc);
        ok := kernel.IntrEntry(id, ctrlC, sp, mepc);
      case NewProcess =>
        e := Alloc;
        ok := AllocProcess(kernel);
      case LoadProcess(pid, program) =>
        ghost var area;
        ok, area := LoadReady(kernel, pid, program);
        e := Load(pid, area);
      case FreeProcess(pid) =>
        e := Free(pid);
        FreeProcesses(kernel, pid);
      case FreeUserProcesses =>
        e := FreeUsers;
        FreeProcesses(kernel, -1);
    }
    outcome := if ok then Done else Halted;
  }

  /** The inputs take the machine from k to k' by way of the events. */
  ghost predicate IsInputRun(k: K, inputs: seq<Input>, events: seq<Event>, k': K)
    decreases |inputs|
  {
    if inputs == [] then events == [] && k == k'
    else
      && events != [] && k.Wf() && CanHappen(k, inputs[0]) && Matches(k, inputs[0], events[0])
      && Possible(k, events[0]) && Step(k, events[0]).Some?
      && IsInputRun(Step(k, events[0]).value, inputs[1..], events[1..], k')
  }

  lemma {:induction false} InputRunIsRun(k: K, inputs: seq<Input>, events: seq<Event>, k': K)
    requires IsInputRun(k, inputs, events, k')
    ensures IsRun(k, events, k') && |events| == |inputs|
    decreases |inputs|
  {
    if inputs != [] {
      InputRunIsRun(Step(k, events[0]).value, inputs[1..], events[1..], k');
    }
  }

  /** Any number of inputs: a run of the state machine, up to n inputs, after which it is in state
      k and either all inputs have been handled or the next one halts the system or is outside
      the model. */
  method Run(kernel: Kernel, inputs: seq<Input>) returns (outcome: Outcome, n: nat, ghost events: seq<Event>, ghost k: K)
    requires kernel.Valid() && Safe(kernel.State())
    modifies kernel, kernel.procs, kernel.earth, kernel.earth.tlb, kernel.earth.mmu
    ensures n <= |inputs| && IsInputRun(old(kernel.State()), inputs[..n], events, k) && k.Wf()
    ensures outcome == Done ==> n == |inputs| && kernel.Valid() && Safe(kernel.State()) && kernel.State() == k
    ensures outcome == Outside ==> n < |inputs| && !CanHappen(k, inputs[n])
    ensures outcome == Halted ==> n < |inputs|
    ensures outcome == Halted ==> inputs[n].LoadProcess? || exists e :: Matches(k, inputs[n], e) && Step(k, e).None?
    decreases |inputs|
  {
    k := kernel.State();
    if inputs == [] {
      return Done, 0, [], k;
    }
    ghost var e;
    outcome, e := Handle(kernel, inputs[0]);
    if outcome != Done {
      return outcome, 0, [], k;
    }
    ghost var k0 := k;
    outcome, n, events, k := Run(kernel, inputs[1..]);
    assert inputs[..n + 1][1..] == inputs[1..][..n] && ([e] + events)[1..] == events;
    n, events := n + 1, [e] + events;
  }

  /** The boot of the system: the process server is loaded and runs. There are always enough
      frames for it. */
  method Boot(translation: Mechanism, frames: seq<Frame>, mem: seq<Page>, program: Program) returns (kernel: Kernel)
    requires |frames| == NFRAMES && |mem| == CACHE_PAGE - MEM_PAGE && Loadable(program)
    ensures fresh(kernel) && fresh(kernel.procs) && fresh(kernel.earth) && fresh(kernel.earth.tlb) && fresh(kernel.earth.mmu)
    ensures kernel.Valid() && Safe(kernel.State()) && kernel.earth.translation == translation
    ensures kernel.State() == Booted(kernel.State().Page(GPID_PROCESS))
  {
    var earth := new Earth(translation, frames, mem);
    assert earth.Room(GPID_PROCESS) >= 6;
    ghost var page0;
    var ok;
    ok, page0 := LoadApp(earth, GPID_PROCESS, program.reader, program.argc, program.argv, program.header);
    kernel := new Kernel(earth);
  }

  /** Exactly-once delivery in terms of memory: what process q has sent and what of it has
      arrived differ exactly by the message that q waits to send, which is in q's own memory. */
  ghost predicate DeliveredFromMemory(h: Log, spaces: Memory, q: Process) {
    && (q.status.WaitToSend? ==>
          && VirtualPage(q.pid, ARG_PAGE) in spaces
          && HoldsMessage(spaces[VirtualPage(q.pid, ARG_PAGE)], q.pid, q.receiver, []))
    && By(h.sends, q.pid) == By(h.deliveries, q.pid) + (if q.status.WaitToSend?
         then [MsgOf(MsgBytes(spaces[VirtualPage(q.pid, ARG_PAGE)]))] else [])
    && Count(h.recvs, q.pid) == |For(h.deliveries, q.pid)| + (if q.status.WaitToRecv? then 1 else 0)
  }

  /** Whoever can run next after a receive has the last message that arrived in its memory. */
  ghost predicate ReceivedInMemory(h: Log, spaces: Memory, q: Process) {
    q.status.Runnable? && q.pid in h.calling && h.calling[q.pid] == Recv ==>
      && VirtualPage(q.pid, ARG_PAGE) in spaces
      && MsgOf(MsgBytes(spaces[VirtualPage(q.pid, ARG_PAGE)])) == Last(For(h.deliveries, q.pid))
  }

  ghost predicate InMemory(h: Log, spaces: Memory, q: Process) {
    !q.status.Unused? ==> DeliveredFromMemory(h, spaces, q) && ReceivedInMemory(h, spaces, q)
  }

  lemma SeenInMemory(h: Log, k: K, spaces: Memory, dead: set<int>, q: Process)
    requires SlotSeen(h, k, q) && AreasAre(spaces, k.pages) && SlotMemory(q, spaces.Keys, dead)
    ensures InMemory(h, spaces, q)
  {
    assert AreaAt(spaces, k.pages, q.pid);
    if HasMemory(q.status) {
      assert VirtualPage(q.pid, ARG_PAGE) in spaces.Keys;
      MessageInPage(spaces[VirtualPage(q.pid, ARG_PAGE)], k.Page(q.pid).msg, []);
    }
  }

  /** The system from boot, under either translation mechanism, for any inputs. If all of them are
      handled, then exactly one process is running, it is the current one and its memory is
      selected, process numbers are unique and nobody waits to send to a process that waits to
      receive. If moreover every kill found the shell able to run, then messages are delivered
      exactly once and unchanged, from the memory of the sender to the memory of the receiver,
      however many processes ran in between. What was sent and what arrived is the history of the
      run's events and states. */
  method RunFromBoot(translation: Mechanism, frames: seq<Frame>, mem: seq<Page>, program: Program, inputs: seq<Input>)
    returns (outcome: Outcome, kernel: Kernel, n: nat, ghost page: Syscall, ghost events: seq<Event>, ghost k: K)
    requires |frames| == NFRAMES && |mem| == CACHE_PAGE - MEM_PAGE && Loadable(program)
    ensures n <= |inputs| && IsInputRun(Booted(page), inputs[..n], events, k) && k.Wf()
    ensures outcome == Outside ==> n < |inputs| && !CanHappen(k, inputs[n])
    ensures outcome == Halted ==> n < |inputs|
    ensures outcome == Halted ==> inputs[n].LoadProcess? || exists e :: Matches(k, inputs[n], e) && Step(k, e).None?
    ensures outcome == Done ==> n == |inputs| && kernel.Valid() && kernel.State() == k && Safe(k) && Stamps(k)
    ensures outcome == Done ==> kernel.earth.curr == kernel.procs[kernel.curr].pid
    ensures outcome == Done ==> UniquePids(kernel.procs[..]) && NoLostWakeup(kernel.procs[..])
    ensures outcome == Done ==> forall i :: 0 <= i < MAX_NPROCESS ==> (kernel.procs[i].status.Running? <==> i == kernel.curr)
    ensures outcome == Done && KillsHarmless(Booted(page), events) ==>
              forall i :: 0 <= i < MAX_NPROCESS ==> InMemory(History(page, events), kernel.earth.spaces, kernel.procs[i])
  {
    kernel := Boot(translation, frames, mem, program);
    page := kernel.State().Page(GPID_PROCESS);
    outcome, n, events, k := Run(kernel, inputs);
    if outcome == Done {
      InputRunIsRun(Booted(page), inputs[..n], events, k);
      RunStamps(Booted(page), events, k);
      if KillsHarmless(Booted(page), events) {
        BootedExact(page);
        RunExact(Booted(page), events, k);
        ExactIsInOrder(k);
        LogIsHistory(page, events, k);
        forall i | 0 <= i < MAX_NPROCESS
          ensures InMemory(k.log, kernel.earth.spaces, k.procs[i])
        {
          assert SlotSeen(k.log, k, k.procs[i]) && SlotMemory(k.procs[i], kernel.earth.spaces.Keys, kernel.earth.dead);
          SeenInMemory(k.log, k, kernel.earth.spaces, kernel.earth.dead, k.procs[i]);
        }
      }
    }
  }
}
