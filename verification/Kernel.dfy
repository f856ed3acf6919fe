/** The kernel's handlers on their own data: the array of process slots, scanned and updated in
    place, and the memory of the processes behind the translation mechanism. A system call area
    is reached at one address in whatever memory is selected. Each handler does exactly what the
    state machine says. */
module Kernel {
  import opened Options
  import opened Pages
  import opened Bytes
  import opened Earth
  import opened KernelModel
  import opened KernelSafety
  import opened KernelHistory
  import opened KernelMemory
  import opened SyscallArea

  class Kernel {
    const procs: array<Process>
    const earth: Earth
    var curr: nat
    var nprocs: nat
    ghost var pages: map<int, Syscall>
    ghost var log: Log

    /** The system call areas of the machine are those in the memories of the processes. */
    ghost predicate Shape()
      reads this, earth, earth.tlb, earth.mmu
    {
      procs.Length == MAX_NPROCESS && curr < MAX_NPROCESS && earth.Valid() && AreasAre(earth.spaces, pages)
    }

    /** The state of the machine; its address space is the selected one. */
    ghost function State(): K
      reads this, procs, earth
    {
      K(procs[..], curr, nprocs, pages, earth.curr, log)
    }

    ghost predicate Valid()
      reads this, procs, earth, earth.tlb, earth.mmu
    {
      Shape() && KernelOk(State(), earth.spaces.Keys, earth.dead)
    }

    /** The start of grass, once the process server has been loaded. */
    constructor (earth: Earth)
      requires earth.Valid() && earth.dead == {}
      requires forall k :: k in earth.spaces <==> k.pid == GPID_PROCESS && IsAppPage(k.page)
      modifies earth, earth.tlb, earth.mmu
      ensures Valid() && Safe(State()) && this.earth == earth && fresh(procs) && earth.spaces == old(earth.spaces)
      ensures VirtualPage(GPID_PROCESS, ARG_PAGE) in earth.spaces
      ensures State() == Booted(Decode(earth.spaces[VirtualPage(GPID_PROCESS, ARG_PAGE)]))
    {
      procs := new Process[MAX_NPROCESS](_ => Process(0, Unused, 0, 0, 0));
      this.earth := earth;
      curr, nprocs, log := 0, 0, Log([], [], [], map[], map[]);
      pages := map[GPID_PROCESS := Decode(earth.spaces[VirtualPage(GPID_PROCESS, ARG_PAGE)])];
      new;
      BootedAreas(earth.spaces);
      var pid := ProcAlloc();
      if pid.Some? {
        SetStatus(pid.value, Running);
      }
      Select(GPID_PROCESS);
      BootedMemory(State(), earth.spaces);
    }

    // -------------------------------------------------------- the system call area

    /** Reading the page at APPS_ARG, which holds the system call area. */
    method ReadArea() returns (page: Page)
      requires Shape() && VirtualPage(earth.curr, ARG_PAGE) in earth.spaces
      ensures page == earth.spaces[VirtualPage(earth.curr, ARG_PAGE)] && Decode(page) == State().Page(earth.curr)
    {
      assert AreaAt(earth.spaces, pages, earth.curr);
      page := earth.Load(ARG_PAGE);
    }

    method WriteArea(page: Page)
      requires Shape() && VirtualPage(earth.curr, ARG_PAGE) in earth.spaces
      modifies this`pages, earth`spaces, earth.tlb`mem, earth.mmu`frames
      ensures Shape() && earth.spaces == old(earth.spaces)[VirtualPage(earth.curr, ARG_PAGE) := page]
      ensures State() == old(State()).SetPage(earth.curr, Decode(page))
    {
      AreasStored(earth.spaces, pages, earth.curr, page);
      earth.Store(ARG_PAGE, page);
      pages := pages[earth.curr := Decode(page)];
    }

    /** mmu_switch. */
    method Select(pid: int)
      requires Shape() && VirtualPage(pid, ARG_PAGE) in earth.spaces
      modifies earth`curr, earth.tlb`frames, earth.tlb`mem, earth.tlb`currVmPid, earth.mmu`currVmPid, earth.mmu`satp
      ensures Shape() && State() == old(State()).(vm := pid) && earth.spaces == old(earth.spaces)
    {
      earth.Switch(pid, ARG_PAGE);
    }

    // ------------------------------------------------------------------ scheduling

    method SetStatus(pid: int, s: Status)
      requires procs.Length == MAX_NPROCESS
      modifies procs
      ensures procs[..] == WithStatus(old(procs[..]), pid, s)
    {
      var i := 0;
      while i < MAX_NPROCESS
        invariant 0 <= i <= MAX_NPROCESS
        invariant forall j :: 0 <= j < i ==> procs[j] == WithStatus(old(procs[..]), pid, s)[j]
        invariant forall j :: i <= j < MAX_NPROCESS ==> procs[j] == old(procs[j])
      {
        if procs[i].pid == pid {
          procs[i] := procs[i].(status := s);
        }
        i := i + 1;
      }
    }

    /** The scan of proc_yield. */
    method FindNextSlot() returns (next: int)
      requires procs.Length == MAX_NPROCESS && curr < MAX_NPROCESS
      ensures FindNext(procs[..], curr, 1) == if next < 0 then None else Some(next)
    {
      next := -1;
      var i := 1;
      while i <= MAX_NPROCESS && next == -1
        invariant 1 <= i <= MAX_NPROCESS + 1 && -1 <= next
        invariant FindNext(procs[..], curr, 1) == if next == -1 then FindNext(procs[..], curr, i) else Some(next)
      {
        var slot := (curr + i) % MAX_NPROCESS;
        if Schedulable(procs[slot].status) {
          next := slot;
        }
        i := i + 1;
      }
    }

    /** proc_yield: false is the fatal end, no process can run. */
    method ProcYield() returns (ok: bool)
      requires Valid()
      modifies this, procs, earth, earth.tlb, earth.mmu
      ensures if ok then Yield(old(State())) == Some(State()) && Valid() && Safe(State()) else Yield(old(State())).None?
      ensures ok ==> earth.spaces == old(earth.spaces)
    {
      ghost var k := State();
      var next := FindNextSlot();
      if next < 0 {
        return false;
      }
      SlotHasArea(procs[..], nprocs, earth.spaces.Keys, earth.dead, next);
      if procs[curr].status.Running? {
        SetStatus(procs[curr].pid, Runnable);
      }
      Resume(next);
      YieldMemory(k, State(), earth.spaces.Keys, earth.dead);
      return true;
    }

    /** The end of proc_yield: the process in slot next runs, in its own memory. */
    method Resume(next: nat)
      requires Shape() && next < MAX_NPROCESS && VirtualPage(procs[next].pid, ARG_PAGE) in earth.spaces
      modifies this, procs, earth`curr, earth.tlb`frames, earth.tlb`mem, earth.tlb`currVmPid, earth.mmu`currVmPid, earth.mmu`satp
      ensures Shape() && State() == Resumed(old(State()), old(procs[..]), next)
    {
      curr := next;
      Select(procs[curr].pid);
      log := log.(calling := log.calling - {procs[curr].pid});
      SetStatus(procs[curr].pid, Running);
    }

    // -------------------------------------------------------------------- messages

    /** The current process writes its own number into its message. */
    method StampSender(ghost to: int)
      requires Shape() && VirtualPage(earth.curr, ARG_PAGE) in earth.spaces && 0 <= procs[curr].pid < INT_LIMIT
      modifies this`pages, earth`spaces, earth.tlb`mem, earth.mmu`frames
      ensures Shape() && KeptBut(old(earth.spaces), earth.spaces, earth.curr, to)
      ensures var k := old(State());
        State() == k.SetPage(k.vm, k.Page(k.vm).(msg := k.Page(k.vm).msg.(sender := k.procs[k.curr].pid)))
    {
      var page := ReadArea();
      DecodeWithSender(page, procs[curr].pid);
      CallerKept(earth.spaces, earth.curr, to, procs[curr].pid);
      WriteArea(WithSender(page, procs[curr].pid));
    }

    method SetRetval(v: int, ghost to: int)
      requires Shape() && VirtualPage(earth.curr, ARG_PAGE) in earth.spaces && -INT_LIMIT <= v < INT_LIMIT
      modifies this`pages, earth`spaces, earth.tlb`mem, earth.mmu`frames
      ensures Shape() && KeptBut(old(earth.spaces), earth.spaces, earth.curr, to)
      ensures var k := old(State()); State() == k.SetPage(k.vm, k.Page(k.vm).(retval := v))
    {
      var page := ReadArea();
      DecodeWithRetval(page, v);
      CallerKept(earth.spaces, earth.curr, to, v);
      WriteArea(WithRetval(page, v));
    }

    /** Copying the message from one process to another through the kernel stack, by way of two
        switches. */
    method CopyMessage(from: int, to: int, ghost caller: int)
      requires Shape() && VirtualPage(from, ARG_PAGE) in earth.spaces && VirtualPage(to, ARG_PAGE) in earth.spaces
      modifies this`pages, earth`curr, earth`spaces, earth.tlb`frames, earth.tlb`mem, earth.tlb`currVmPid
      modifies earth.mmu`frames, earth.mmu`currVmPid, earth.mmu`satp
      ensures Shape() && KeptBut(old(earth.spaces), earth.spaces, caller, to) && VirtualPage(to, ARG_PAGE) in earth.spaces
      ensures MsgBytes(earth.spaces[VirtualPage(to, ARG_PAGE)]) == MsgBytes(old(earth.spaces)[VirtualPage(from, ARG_PAGE)])
      ensures var k := old(State());
        State() == k.(vm := to, pages := k.pages[to := k.Page(to).(msg := k.Page(from).msg)])
    {
      Select(from);
      var page := ReadArea();
      var tmp := MsgBytes(page);
      Select(to);
      page := ReadArea();
      DecodeWithMsg(page, tmp);
      PartnerKept(earth.spaces, caller, to, tmp);
      WriteArea(WithMsg(page, tmp));
    }

    method FindSlot(pid: int) returns (slot: int)
      requires procs.Length == MAX_NPROCESS
      ensures FindPid(procs[..], pid, 0) == if slot < 0 then None else Some(slot)
    {
      slot := 0;
      while slot < MAX_NPROCESS
        invariant 0 <= slot <= MAX_NPROCESS && FindPid(procs[..], pid, 0) == FindPid(procs[..], pid, slot)
      {
        if procs[slot].pid == pid {
          return;
        }
        slot := slot + 1;
      }
      slot := -1;
    }

    /** proc_send. */
    method ProcSend() returns (ok: bool)
      requires Valid() && Safe(State())
      modifies this, procs, earth, earth.tlb, earth.mmu
      ensures if ok then Finish(SendAct(old(State()))) == Some(State()) && Valid() && Safe(State())
              else Finish(SendAct(old(State()))).None?
      ensures ok ==> KeptBut(old(earth.spaces), earth.spaces, old(earth.curr), old(State()).Page(old(earth.curr)).msg.receiver)
    {
      ghost var k := State();
      SlotHasArea(procs[..], nprocs, earth.spaces.Keys, earth.dead, curr);
      StampSender(k.Page(k.vm).msg.receiver);
      var page := ReadArea();
      var to := FindSlot(Decode(page).msg.receiver);
      if to < 0 {
        FailSend(k, old(earth.spaces));
        return true;
      }
      SendTo(to, k, old(earth.spaces));
      ok := ProcYield();
    }

    /** The state of a send once the sender is stamped; m is the memory at the call. */
    ghost predicate Sending(k: K, m: Memory)
      reads this, procs, earth, earth.tlb, earth.mmu
    {
      && Shape() && KernelOk(k, earth.spaces.Keys, earth.dead) && Safe(k)
      && VirtualPage(earth.curr, ARG_PAGE) in earth.spaces
      && State() == k.SetPage(k.vm, k.Page(k.vm).(msg := Stamped(k)))
      && KeptBut(m, earth.spaces, k.vm, Stamped(k).receiver)
    }

    /** There is no receiver. */
    method FailSend(ghost k: K, ghost m: Memory)
      requires Sending(k, m) && FindPid(k.procs, k.Page(k.vm).msg.receiver, 0).None?
      modifies this`log, this`pages, earth`spaces, earth.tlb`mem, earth.mmu`frames
      ensures SendAct(k).Return? && State() == SendAct(k).k && Valid() && Safe(State())
      ensures KeptBut(m, earth.spaces, k.vm, Stamped(k).receiver)
    {
      ghost var m1 := earth.spaces;
      SetRetval(-1, Stamped(k).receiver);
      log := log.(calling := log.calling - {procs[curr].pid});
      assert State().pages == k.pages[k.vm := k.Page(k.vm).(msg := Stamped(k), retval := -1)];
      SendFailsMemory(k, earth.spaces.Keys, earth.dead);
      KeptTwice(m, m1, earth.spaces, k.vm, Stamped(k).receiver);
    }

    /** The receiver is in slot `to`: hand over the message or wait. */
    method SendTo(to: nat, ghost k: K, ghost m: Memory)
      requires Sending(k, m) && FindPid(k.procs, k.Page(k.vm).msg.receiver, 0) == Some(to)
      modifies this, procs, earth, earth.tlb, earth.mmu
      ensures SendAct(k).Reschedule? && State() == SendAct(k).k && Valid()
      ensures KeptBut(m, earth.spaces, k.vm, Stamped(k).receiver)
    {
      if !procs[to].status.WaitToRecv? {
        procs[curr] := procs[curr].(status := WaitToSend, receiver := procs[to].pid);
        log := log.(sends := log.sends + [Stamped(k)]);
      } else {
        HandOver(to, k, m);
      }
      SendMemory(k, earth.spaces.Keys, earth.dead);
    }

    method HandOver(to: nat, ghost k: K, ghost m: Memory)
      requires Sending(k, m) && FindPid(k.procs, k.Page(k.vm).msg.receiver, 0) == Some(to) && k.procs[to].status.WaitToRecv?
      modifies this`log, this`pages, procs, earth, earth.tlb, earth.mmu
      ensures Shape() && KeptBut(m, earth.spaces, k.vm, Stamped(k).receiver) && earth.dead == old(earth.dead)
      ensures earth.spaces.Keys == old(earth.spaces.Keys) && State() == Handed(old(State()), Stamped(k))
    {
      ghost var m1 := earth.spaces;
      SlotHasArea(procs[..], nprocs, earth.spaces.Keys, earth.dead, to);
      CopyMessage(procs[curr].pid, procs[to].pid, k.vm);
      KeptTwice(m, m1, earth.spaces, k.vm, Stamped(k).receiver);
      SetStatus(procs[to].pid, Runnable);
      log := log.(sends := log.sends + [Stamped(k)], deliveries := log.deliveries + [Stamped(k)]);
    }

    /** The scan of proc_recv: the highest slot that waits to send to the process. */
    method FindSenderSlot(pid: int) returns (sender: Option<nat>)
      requires procs.Length == MAX_NPROCESS
      ensures sender == FindSender(procs[..], pid, MAX_NPROCESS)
    {
      sender := None;
      var i := 0;
      while i < MAX_NPROCESS
        invariant 0 <= i <= MAX_NPROCESS
        invariant sender == FindSender(procs[..], pid, i)
      {
        if procs[i].status.WaitToSend? && procs[i].receiver == pid {
          sender := Some(i);
        }
        i := i + 1;
      }
    }

    /** proc_recv. */
    method ProcRecv() returns (ok: bool)
      requires Valid() && Safe(State())
      modifies this, procs, earth, earth.tlb, earth.mmu
      ensures if ok then Yield(RecvStep(old(State()))) == Some(State()) && Valid() && Safe(State())
              else Yield(RecvStep(old(State()))).None?
      ensures ok ==> KeptBut(old(earth.spaces), earth.spaces, old(earth.curr), old(earth.curr))
    {
      ghost var k := State();
      var sender := FindSenderSlot(procs[curr].pid);
      log := log.(recvs := log.recvs + [procs[curr].pid]);
      if sender.None? {
        procs[curr] := procs[curr].(status := WaitToRecv);
      } else {
        SlotHasArea(procs[..], nprocs, earth.spaces.Keys, earth.dead, curr);
        SlotHasArea(procs[..], nprocs, earth.spaces.Keys, earth.dead, sender.value);
        TakeFrom(procs[sender.value].pid);
      }
      RecvMemory(k, earth.spaces.Keys, earth.dead);
      ok := ProcYield();
    }

    method TakeFrom(sender: int)
      requires Shape() && VirtualPage(sender, ARG_PAGE) in earth.spaces && VirtualPage(procs[curr].pid, ARG_PAGE) in earth.spaces
      modifies this`log, this`pages, procs, earth, earth.tlb, earth.mmu
      ensures Shape() && KeptBut(old(earth.spaces), earth.spaces, procs[curr].pid, procs[curr].pid) && earth.dead == old(earth.dead)
      ensures State() == Taken(old(State()), sender)
    {
      log := log.(deliveries := log.deliveries + [State().Page(sender).msg]);
      CopyMessage(sender, procs[curr].pid, procs[curr].pid);
      SetStatus(sender, Runnable);
    }

    /** The start of proc_syscall: the call is read and marked as taken. */
    method TakeCall(ghost to: int) returns (call: Call)
      requires Shape() && VirtualPage(earth.curr, ARG_PAGE) in earth.spaces
      modifies this`log, this`pages, earth`spaces, earth.tlb`mem, earth.mmu`frames
      ensures Shape() && KeptBut(old(earth.spaces), earth.spaces, earth.curr, to)
      ensures call == old(State()).Page(old(earth.curr)).call && State() == Called(old(State()))
    {
      var page := ReadArea();
      call := Decode(page).call;
      DecodeTaken(page);
      TakenKept(earth.spaces, earth.curr, to);
      WriteArea(WithType(WithRetval(page, 0), 0));
      log := log.(calling := log.calling[procs[curr].pid := call]);
    }

    /** proc_syscall. */
    method ProcSyscall() returns (ok: bool)
      requires Valid() && Safe(State())
      modifies this, procs, earth, earth.tlb, earth.mmu
      ensures if ok then Finish(SyscallAct(old(State()))) == Some(State()) && Valid() && Safe(State())
              else Finish(SyscallAct(old(State()))).None?
      ensures ok ==> KeptBut(old(earth.spaces), earth.spaces, old(earth.curr), Partner(old(State())))
    {
      ghost var to := Partner(State());
      SlotHasArea(procs[..], nprocs, earth.spaces.Keys, earth.dead, curr);
      CalledMemory(State(), earth.spaces.Keys, earth.dead);
      var call := TakeCall(to);
      ghost var m1, caller := earth.spaces, earth.curr;
      match call {
        case Recv =>
          ok := ProcRecv();
        case Send =>
          ok := ProcSend();
        case _ =>
          ok := false;
      }
      if ok {
        KeptTwice(old(earth.spaces), m1, earth.spaces, caller, to);
      }
    }

    // -------------------------------------------------------------------- handlers

    /** ctx_start and the start of ctx_entry: the context goes into the current slot. */
    method SaveContext(sp: int, mepc: int)
      requires Valid()
      modifies procs, this`log
      ensures Valid() && State() == Enter(old(State()), sp, mepc)
      ensures old(Safe(State())) ==> Safe(State())
    {
      EnterMemory(State(), sp, mepc, earth.spaces.Keys, earth.dead);
      PutContext(sp, mepc);
    }

    method PutContext(sp: int, mepc: int)
      requires procs.Length == MAX_NPROCESS && curr < MAX_NPROCESS
      modifies procs, this`log
      ensures State() == Enter(old(State()), sp, mepc)
    {
      log := log.(entry := log.entry[procs[curr].pid := (sp, mepc)]);
      procs[curr] := procs[curr].(sp := sp, mepc := mepc);
    }

    /** excp_entry. The test is constantly true, so the branch for other exceptions is dead. */
    method ExcpEntry(id: int, sp: int, mepc: int) returns (ok: bool)
      requires Valid() && Safe(State())
      modifies this, procs, earth, earth.tlb, earth.mmu
      ensures if ok then Step(old(State()), Exception(id, sp, mepc)) == Some(State()) && Valid() && Safe(State())
              else Step(old(State()), Exception(id, sp, mepc)).None?
      ensures ok ==> KeptBut(old(earth.spaces), earth.spaces, old(earth.curr), Partner(old(State())))
    {
      EveryExceptionIsSyscall(State(), id, sp, mepc);
      if TakenAsSyscall(id) {
        SaveContext(sp, mepc + 4);
        ok := ProcSyscall();
      } else {
        assert false;
      }
    }

    /** intr_entry. A kill is only for a machine whose shell, if it has one, has memory: the
        forced wake would otherwise run a process without any. */
    method IntrEntry(id: int, ctrlC: bool, sp: int, mepc: int) returns (ok: bool)
      requires Valid() && Safe(State()) && (IsKill(State(), Interrupt(id, ctrlC, sp, mepc)) ==> ShellLoaded(State()))
      modifies this, procs, earth, earth.tlb, earth.mmu
      ensures var e := Interrupt(id, ctrlC, sp, mepc);
        if ok then Step(old(State()), e) == Some(State()) && Valid() && Safe(State()) else Step(old(State()), e).None?
      ensures ok ==> MemoryAfter(old(State()), Interrupt(id, ctrlC, sp, mepc), old(earth.spaces), earth.spaces)
    {
      if id == INTR_ID_TIMER && procs[curr].pid < GPID_SHELL {
        return true;
      } else if ctrlC && procs[curr].pid >= GPID_USER_START {
        Kill();
        SaveContext(sp, mepc);
        ok := ProcYield();
      } else if id == INTR_ID_SOFT {
        SaveContext(sp, mepc);
        ok := ProcSyscall();
      } else if id == INTR_ID_TIMER {
        SaveContext(sp, mepc);
        ok := ProcYield();
      } else {
        ok := false;
      }
    }

    /** Killing the running user process and waking the shell. */
    method Kill()
      requires Valid() && Safe(State()) && procs[curr].pid >= GPID_USER_START && ShellLoaded(State())
      modifies this`pages, procs, earth, earth.tlb, earth.mmu
      ensures Valid() && State() == Killed(old(State()))
      ensures earth.spaces == Without(old(earth.spaces), old(procs[curr].pid))
      ensures SlotsAfterKill(old(procs[..]), procs[..], curr)
    {
      ghost var k := State();
      FreeOne(procs[curr].pid);
      SetStatus(GPID_SHELL, Runnable);
      KilledMemory(k, Freed(k, k.Curr().pid), earth.spaces.Keys, earth.dead);
    }

    // ------------------------------------------------------------------- processes

    /** proc_free of one process: mmu_free and proc_set_status. */
    method FreeOne(pid: int)
      requires Shape() && 0 < pid <= nprocs && MemoryOk(procs[..], nprocs, earth.spaces.Keys, earth.dead)
      modifies this`pages, procs, earth, earth.tlb, earth.mmu
      ensures Shape() && State() == Freed(old(State()), pid) && earth.spaces == Without(old(earth.spaces), pid)
      ensures MemoryOk(procs[..], nprocs, earth.spaces.Keys, earth.dead)
    {
      ghost var keys, dead, was := earth.spaces.Keys, earth.dead, procs[..];
      AreasWithout(earth.spaces, pages, pid);
      earth.Free(pid);
      pages := pages - {pid};
      assert earth.spaces.Keys == KeysWithout(keys, pid);
      SetStatus(pid, Unused);
      FreedMemory(was, nprocs, keys, dead, pid, earth.dead);
    }

    /** proc_free: one process, or with -1 all user processes. */
    method ProcFree(pid: int)
      requires Valid() && (pid == -1 || 0 < pid <= nprocs)
      modifies this`pages, procs, earth, earth.tlb, earth.mmu
      ensures Shape() && MemoryOk(procs[..], nprocs, earth.spaces.Keys, earth.dead)
      ensures State() == if pid != -1 then Freed(old(State()), pid) else FreedAll(old(State()))
      ensures forall i :: 0 <= i < MAX_NPROCESS ==>
                if Frees(pid, old(procs[i]).pid)
                then procs[i] == old(procs[i]).(status := Unused) && HasNoPages(earth.spaces.Keys, procs[i].pid)
                else procs[i] == old(procs[i])
      ensures Spared(old(earth.spaces), earth.spaces, pid)
    {
      ghost var k := State();
      FreedSlots(k, pid);
      if pid != -1 {
        FreeOne(pid);
        FreedHaveNoPages(procs[..], nprocs, earth.spaces.Keys, earth.dead);
        return;
      }
      FreedUpToAll(k);
      var i := 0;
      while i < MAX_NPROCESS
        invariant 0 <= i <= MAX_NPROCESS && Shape() && MemoryOk(procs[..], nprocs, earth.spaces.Keys, earth.dead)
        invariant State() == FreedUpTo(k, i) && Spared(old(earth.spaces), earth.spaces, -1)
      {
        FreedUpToNext(k, i);
        if procs[i].pid >= GPID_USER_START && !procs[i].status.Unused? {
          FreeOne(procs[i].pid);
        }
        i := i + 1;
      }
      FreedHaveNoPages(procs[..], nprocs, earth.spaces.Keys, earth.dead);
    }

    /** proc_alloc: the new process number, or the fatal end when all slots are in use. */
    method ProcAlloc() returns (r: Option<int>)
      requires procs.Length == MAX_NPROCESS && curr < MAX_NPROCESS
      modifies this`nprocs, procs
      ensures if r.Some? then Allocated(old(State())) == Some(State()) else Allocated(old(State())).None?
      ensures r.Some? ==> r.value == old(nprocs) + 1 == nprocs
      ensures r.Some? ==> exists i :: (
                0 <= i < MAX_NPROCESS && old(procs[i]).status.Unused?
                && procs[..] == old(procs[..])[i := old(procs[i]).(pid := nprocs, status := Loading)])
      ensures r.None? ==> forall i :: 0 <= i < MAX_NPROCESS ==> !procs[i].status.Unused?
    {
      var i := 0;
      while i < MAX_NPROCESS
        invariant 0 <= i <= MAX_NPROCESS
        invariant FindUnused(procs[..], 0) == FindUnused(procs[..], i)
        invariant forall j :: 0 <= j < i ==> !procs[j].status.Unused?
      {
        if procs[i].status.Unused? {
          nprocs := nprocs + 1;
          procs[i] := procs[i].(pid := nprocs, status := Loading);
          return Some(nprocs);
        }
        i := i + 1;
      }
      return None;
    }
  }

  /** The process whose message area a system call of the running process may write. */
  ghost function Partner(k: K): int
    requires k.Wf()
  {
    if k.Page(k.vm).call == Send then k.Page(k.vm).msg.receiver else k.Curr().pid
  }

  /** What an exception or an interrupt does to the memories: a system call writes the fields that
      it should and no other byte, a kill takes away one memory, and nothing else writes any. */
  ghost predicate MemoryAfter(k: K, e: Event, m: Memory, m': Memory)
    requires k.Wf()
  {
    if TakesCall(k, e) then KeptBut(m, m', k.vm, Partner(k))
    else if IsKill(k, e) then m' == Without(m, k.Curr().pid)
    else m' == m
  }

  /** The slot curr is free, the shell can run, and nothing else in the slots changes. */
  predicate SlotsAfterKill(procs: seq<Process>, procs': seq<Process>, curr: nat) {
    && |procs'| == |procs|
    && forall i :: 0 <= i < |procs| ==> procs'[i] == procs[i].(status :=
         if i == curr then Unused else if procs[i].pid == GPID_SHELL then Runnable else procs[i].status)
  }

  /** Whether proc_free(pid) frees process p: the one, or with -1 all from number 5 on. */
  predicate Frees(pid: int, p: int) {
    if pid == -1 then p >= GPID_USER_START else p == pid
  }

  /** Every memory that proc_free(pid) does not free is there with the same contents, and no other
      is new. */
  ghost predicate Spared(m: Memory, m': Memory, pid: int) {
    && (forall k :: k in m && !Frees(pid, k.pid) ==> k in m')
    && (forall k :: k in m' ==> k in m && m'[k] == m[k])
  }

  /** What the machine's frees do to the slots. */
  lemma FreedSlots(k: K, pid: int)
    requires Mid(k)
    ensures var procs := if pid != -1 then Freed(k, pid).procs else FreedAll(k).procs;
      forall i :: 0 <= i < MAX_NPROCESS ==>
        procs[i] == if Frees(pid, k.procs[i].pid) then k.procs[i].(status := Unused) else k.procs[i]
  {
  }

  lemma FreedHaveNoPages(procs: seq<Process>, nprocs: nat, keys: set<VirtualPage>, dead: set<int>)
    requires MemoryOk(procs, nprocs, keys, dead)
    ensures forall i :: 0 <= i < |procs| && procs[i].status.Unused? ==> HasNoPages(keys, procs[i].pid)
  {
    forall i | 0 <= i < |procs| && procs[i].status.Unused?
      ensures HasNoPages(keys, procs[i].pid)
    {
      assert SlotMemory(procs[i], keys, dead);
    }
  }

  /** The first n slots of user processes have been freed. */
  function FreedUpTo(k: K, n: nat): K
    requires n <= |k.procs|
  {
    k.(procs := seq(|k.procs|, i requires 0 <= i < |k.procs| =>
                if i < n && IsUserProcess(k.procs[i]) then k.procs[i].(status := Unused) else k.procs[i]),
       pages := k.pages - set i | 0 <= i < n && IsUserProcess(k.procs[i]) :: k.procs[i].pid)
  }

  lemma FreedUpToNext(k: K, n: nat)
    requires Mid(k) && n < MAX_NPROCESS
    ensures FreedUpTo(k, n).procs[n] == k.procs[n] && 0 <= k.procs[n].pid <= k.nprocs
    ensures FreedUpTo(k, n + 1) == if IsUserProcess(k.procs[n]) then Freed(FreedUpTo(k, n), k.procs[n].pid) else FreedUpTo(k, n)
  {
    var k0, k1 := FreedUpTo(k, n), FreedUpTo(k, n + 1);
    if IsUserProcess(k.procs[n]) {
      var k2 := Freed(k0, k.procs[n].pid);
      assert k1.procs == k2.procs;
      assert k1.pages == k2.pages;
    } else {
      assert k1.procs == k0.procs;
      assert k1.pages == k0.pages;
    }
  }

  lemma FreedUpToAll(k: K)
    requires k.Wf()
    ensures FreedUpTo(k, 0) == k && FreedUpTo(k, MAX_NPROCESS) == FreedAll(k)
  {
    assert FreedUpTo(k, 0).procs == k.procs && FreedUpTo(k, 0).pages == k.pages;
    assert FreedUpTo(k, MAX_NPROCESS).procs == FreedAll(k).procs;
  }

  /** The message of a send with the number of its sender. */
  ghost function Stamped(k: K): Msg
    requires k.Wf()
  {
    k.Page(k.vm).msg.(sender := k.Curr().pid)
  }

  lemma BootedAreas(spaces: Memory)
    requires forall j :: j in spaces <==> j.pid == GPID_PROCESS && IsAppPage(j.page)
    ensures VirtualPage(GPID_PROCESS, ARG_PAGE) in spaces
    ensures AreasAre(spaces, map[GPID_PROCESS := Decode(spaces[VirtualPage(GPID_PROCESS, ARG_PAGE)])])
  {
  }

  lemma BootedMemory(k: K, spaces: Memory)
    requires forall j :: j in spaces <==> j.pid == GPID_PROCESS && IsAppPage(j.page)
    requires k.Wf() && k.curr == 0 && k.nprocs == 1 && k.vm == GPID_PROCESS
    requires k.procs[0] == Process(GPID_PROCESS, Running, 0, 0, 0)
    requires forall i :: 0 < i < MAX_NPROCESS ==> k.procs[i] == Process(0, Unused, 0, 0, 0)
    ensures KernelOk(k, spaces.Keys, {}) && Safe(k)
    ensures k.procs == Booted(k.Page(GPID_PROCESS)).procs
  {
    forall i | 0 <= i < MAX_NPROCESS
      ensures SlotMemory(k.procs[i], spaces.Keys, {})
    {
    }
  }
}
