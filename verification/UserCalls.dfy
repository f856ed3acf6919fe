/** sys_send and sys_recv: a process writes its request into its own memory and traps. What
    comes of it, in the bytes of the memories. */
module UserCalls {
  import opened Pages
  import opened Bytes
  import opened Earth
  import opened KernelModel
  import opened KernelSafety
  import opened KernelHistory
  import opened KernelCalls
  import opened KernelMemory
  import opened SyscallArea
  import opened Kernel

  /** The call is refused without a trap, the kernel has carried it out, or nobody can run. */
  datatype CallResult = TooLong | Taken | Stuck

  /** What holds between the steps of every run from boot. */
  ghost predicate Sound(kernel: Kernel)
    reads kernel, kernel.procs, kernel.earth, kernel.earth.tlb, kernel.earth.mmu
  {
    kernel.Valid() && Safe(kernel.State()) && Stamps(kernel.State())
  }

  /** The kernel has taken the call of the process, which returns v. */
  predicate CallReturns(m: Memory, pid: int, v: int) {
    && VirtualPage(pid, ARG_PAGE) in m
    && BytesInt(m[VirtualPage(pid, ARG_PAGE)][TYPE_AT..SENDER_AT]) == SYS_UNUSED
    && BytesInt(m[VirtualPage(pid, ARG_PAGE)][RETVAL_AT..END_AT]) == v
  }

  /** The message is in the memory of process pid. */
  predicate HasMessage(m: Memory, pid: int, sender: int, receiver: int, bytes: seq<Byte>) {
    VirtualPage(pid, ARG_PAGE) in m && HoldsMessage(m[VirtualPage(pid, ARG_PAGE)], sender, receiver, bytes)
  }

  /** After a send of the bytes by the process in slot curr: if the receiver does not exist the
      call returns -1; if it waits it has the bytes and can run; otherwise the sender waits, with
      the bytes in its own memory. */
  ghost predicate SendInMemory(procs: seq<Process>, curr: nat, k': K, m': Memory, receiver: int, bytes: seq<Byte>)
    requires |procs| == MAX_NPROCESS && curr < MAX_NPROCESS && k'.Wf()
  {
    var p := procs[curr].pid;
    if !Exists(procs, receiver) then k'.curr == curr && CallReturns(m', p, -1)
    else if Waits(procs, receiver) then
      && HasMessage(m', receiver, p, receiver, bytes) && CallReturns(m', p, 0) && CanRun(k'.procs[curr].status)
      && forall i :: 0 <= i < MAX_NPROCESS && procs[i].pid == receiver ==> CanRun(k'.procs[i].status)
    else
      && HasMessage(m', p, p, receiver, bytes) && CallReturns(m', p, 0)
      && k'.procs[curr].status.WaitToSend? && k'.procs[curr].receiver == receiver
  }

  /** After a receive by the process in slot curr: with a process waiting to send to it, it has
      that one's number and bytes and both can run; otherwise it waits. */
  ghost predicate RecvInMemory(procs: seq<Process>, curr: nat, m: Memory, k': K, m': Memory)
    requires |procs| == MAX_NPROCESS && curr < MAX_NPROCESS && k'.Wf()
  {
    var p := procs[curr].pid;
    && CallReturns(m', p, 0)
    && if !HasSender(procs, p) then k'.procs[curr].status.WaitToRecv?
       else exists s: nat {:trigger IsLastSender(procs, p, s)} ::
         && IsLastSender(procs, p, s) && VirtualPage(procs[s].pid, ARG_PAGE) in m
         && HasMessage(m', p, procs[s].pid, p, m[VirtualPage(procs[s].pid, ARG_PAGE)][CONTENT_AT..RETVAL_AT])
         && CanRun(k'.procs[s].status) && CanRun(k'.procs[curr].status)
  }

  /** The system call area of a process as bytes. */
  lemma TakenInMemory(m: Memory, pages: map<int, Syscall>, pid: int, v: int)
    requires AreasAre(m, pages) && VirtualPage(pid, ARG_PAGE) in m
    requires pid in pages ==> TakenWith(pages[pid], v)
    ensures CallReturns(m, pid, v)
  {
    assert AreaAt(m, pages, pid);
  }

  lemma MessageInMemory(m: Memory, k: K, pid: int, msg: Msg, bytes: seq<Byte>)
    requires AreasAre(m, k.pages) && VirtualPage(pid, ARG_PAGE) in m && k.Page(pid).msg == msg
    requires |bytes| <= SYSCALL_MSG_LEN && |bytes| <= |msg.content| && msg.content[..|bytes|] == bytes
    ensures HasMessage(m, pid, msg.sender, msg.receiver, bytes)
  {
    assert AreaAt(m, k.pages, pid);
    MessageInPage(m[VirtualPage(pid, ARG_PAGE)], msg, bytes);
  }

  lemma SendReaches(k: K, k': K, m': Memory, keys: set<VirtualPage>, dead: set<int>, bytes: seq<Byte>)
    requires KernelOk(k, keys, dead) && Safe(k) && k'.Wf() && SendDone(k, k')
    requires AreasAre(m', k'.pages) && m'.Keys == keys
    requires |bytes| <= SYSCALL_MSG_LEN <= |Request(k).content| && Request(k).content[..|bytes|] == bytes
    ensures SendInMemory(k.procs, k.curr, k', m', Request(k).receiver, bytes)
  {
    var p, msg := k.Curr().pid, Request(k);
    SlotHasArea(k.procs, k.nprocs, keys, dead, k.curr);
    TakenInMemory(m', k'.pages, p, if Exists(k.procs, msg.receiver) then 0 else -1);
    if Waits(k.procs, msg.receiver) {
      var i :| 0 <= i < |k.procs| && k.procs[i].pid == msg.receiver && k.procs[i].status.WaitToRecv?;
      SlotHasArea(k.procs, k.nprocs, keys, dead, i);
      MessageInMemory(m', k', msg.receiver, msg, bytes);
    } else if Exists(k.procs, msg.receiver) {
      MessageInMemory(m', k', p, msg, bytes);
    }
  }

  lemma RecvReaches(k: K, k': K, m: Memory, m': Memory, dead: set<int>)
    requires KernelOk(k, m.Keys, dead) && Safe(k) && Stamps(k) && k'.Wf() && RecvDone(k, k')
    requires AreasAre(m, k.pages) && AreasAre(m', k'.pages) && m'.Keys == m.Keys
    ensures RecvInMemory(k.procs, k.curr, m, k', m')
  {
    var p := k.Curr().pid;
    SlotHasArea(k.procs, k.nprocs, m.Keys, dead, k.curr);
    TakenInMemory(m', k'.pages, p, 0);
    if HasSender(k.procs, p) {
      var s: nat :| IsLastSender(k.procs, p, s) && k'.Page(p).msg == k.Page(k.procs[s].pid).msg
        && CanRun(k'.procs[s].status) && CanRun(k'.procs[k.curr].status);
      var from := k.procs[s].pid;
      SlotHasArea(k.procs, k.nprocs, m.Keys, dead, s);
      assert SlotStamped(k, k.procs[s]) && AreaAt(m, k.pages, from);
      MsgFields(m[VirtualPage(from, ARG_PAGE)]);
      var bytes := m[VirtualPage(from, ARG_PAGE)][CONTENT_AT..RETVAL_AT];
      assert bytes[..|bytes|] == bytes;
      MessageInMemory(m', k', p, k.Page(from).msg, bytes);
    }
  }

  /** The page with the system call area of the running process. */
  method OwnArea(kernel: Kernel) returns (page: Page)
    requires kernel.Valid() && Safe(kernel.State())
    ensures VirtualPage(kernel.earth.curr, ARG_PAGE) in kernel.earth.spaces
    ensures page == kernel.earth.spaces[VirtualPage(kernel.earth.curr, ARG_PAGE)]
    ensures Decode(page) == kernel.State().Page(kernel.earth.curr)
  {
    SlotHasArea(kernel.procs[..], kernel.nprocs, kernel.earth.spaces.Keys, kernel.earth.dead, kernel.curr);
    page := kernel.ReadArea();
  }

  /** A store by the running process to its own system call area. */
  method StoreOwn(kernel: Kernel, page: Page)
    requires kernel.Valid() && Safe(kernel.State())
    modifies kernel`pages, kernel.earth`spaces, kernel.earth.tlb`mem, kernel.earth.mmu`frames
    ensures kernel.Valid() && Safe(kernel.State())
    ensures kernel.State() == old(kernel.State()).SetPage(kernel.earth.curr, Decode(page))
    ensures kernel.earth.spaces == old(kernel.earth.spaces)[VirtualPage(kernel.earth.curr, ARG_PAGE) := page]
    ensures kernel.earth.spaces.Keys == old(kernel.earth.spaces.Keys)
  {
    SlotHasArea(kernel.procs[..], kernel.nprocs, kernel.earth.spaces.Keys, kernel.earth.dead, kernel.curr);
    kernel.WriteArea(page);
    assert kernel.earth.spaces.Keys == old(kernel.earth.spaces.Keys);
  }

  /** The first two assignments of sys_send to its own system call area. */
  method PutReceiver(kernel: Kernel, receiver: int, ghost page0: Page)
    requires kernel.Valid() && Safe(kernel.State()) && VirtualPage(kernel.earth.curr, ARG_PAGE) in kernel.earth.spaces
    requires page0 == kernel.earth.spaces[VirtualPage(kernel.earth.curr, ARG_PAGE)]
    modifies kernel`pages, kernel.earth`spaces, kernel.earth.tlb`mem, kernel.earth.mmu`frames
    ensures kernel.Valid() && Safe(kernel.State()) && kernel.earth.spaces.Keys == old(kernel.earth.spaces.Keys)
    ensures kernel.earth.spaces[VirtualPage(kernel.earth.curr, ARG_PAGE)] == WithReceiver(WithType(page0, SYS_SEND), receiver)
    ensures var k, k1 := old(kernel.State()), kernel.State(); k1 == k.SetPage(k.vm, k1.Page(k.vm))
  {
    ghost var k := kernel.State();
    var page := OwnArea(kernel);
    StoreOwn(kernel, WithType(page, SYS_SEND));
    page := OwnArea(kernel);
    StoreOwn(kernel, WithReceiver(page, receiver));
    assert kernel.pages == k.pages[k.vm := Decode(WithReceiver(page, receiver))];
  }

  /** The three assignments of sys_send to its own system call area. */
  method PutSendRequest(kernel: Kernel, receiver: int, bytes: seq<Byte>)
    requires kernel.Valid() && Safe(kernel.State())
    requires -INT_LIMIT <= receiver < INT_LIMIT && |bytes| <= SYSCALL_MSG_LEN
    modifies kernel`pages, kernel.earth`spaces, kernel.earth.tlb`mem, kernel.earth.mmu`frames
    ensures kernel.Valid() && Safe(kernel.State()) && kernel.earth.spaces.Keys == old(kernel.earth.spaces.Keys)
    ensures var k, k1 := old(kernel.State()), kernel.State();
      && k1 == k.SetPage(k.vm, k1.Page(k.vm)) && k1.Page(k.vm).call == Send
      && Request(k1).receiver == receiver && |Request(k1).content| == SYSCALL_MSG_LEN && Request(k1).content[..|bytes|] == bytes
  {
    ghost var k := kernel.State();
    var page := OwnArea(kernel);
    ghost var page0 := page;
    PutReceiver(kernel, receiver, page0);
    page := OwnArea(kernel);
    StoreOwn(kernel, WithContent(page, bytes));
    assert kernel.pages == k.pages[k.vm := Decode(SendRequest(page0, receiver, bytes))];
    DecodeSendRequest(page0, receiver, bytes);
  }

  /** The ecall of sys_invoke with a request in place: false if nobody can run after it. */
  method Ecall(kernel: Kernel, sp: int, mepc: int) returns (ok: bool)
    requires Sound(kernel)
    requires var call := kernel.State().Page(kernel.earth.curr).call; call == Send || call == Recv
    modifies kernel, kernel.procs, kernel.earth, kernel.earth.tlb, kernel.earth.mmu
    ensures !ok ==> forall i :: 0 <= i < MAX_NPROCESS && i != old(kernel.curr) ==> !Schedulable(old(kernel.procs[..])[i].status)
    ensures ok ==> Sound(kernel) && kernel.earth.spaces.Keys == old(kernel.earth.spaces.Keys)
    ensures ok ==> var k := old(kernel.State());
      if k.Page(k.vm).call == Send then SendDone(k, kernel.State()) else RecvDone(k, kernel.State())
  {
    ghost var k, e := kernel.State(), Exception(EXCP_ID_ECALL_U, sp, mepc);
    if i: nat :| i < MAX_NPROCESS && i != k.curr && Schedulable(k.procs[i].status) {
      CallGoesOn(k, e, i);
    }
    ok := kernel.ExcpEntry(EXCP_ID_ECALL_U, sp, mepc);
    if ok {
      StepStamps(k, e);
      if k.Page(k.vm).call == Send {
        SendOutcome(k, e, kernel.State());
      } else {
        RecvOutcome(k, e, kernel.State());
      }
    }
  }

  /** sys_send, up to where the kernel lets some process run. */
  method SysSend(kernel: Kernel, receiver: int, bytes: seq<Byte>, sp: int, mepc: int) returns (r: CallResult)
    requires Sound(kernel) && -INT_LIMIT <= receiver < INT_LIMIT
    modifies kernel, kernel.procs, kernel.earth, kernel.earth.tlb, kernel.earth.mmu
    ensures r == TooLong <==> |bytes| > SYSCALL_MSG_LEN
    ensures r == TooLong ==> kernel.State() == old(kernel.State()) && kernel.earth.spaces == old(kernel.earth.spaces)
    ensures r == Stuck ==>
              forall i :: 0 <= i < MAX_NPROCESS && i != old(kernel.curr) ==> !Schedulable(old(kernel.procs[..])[i].status)
    ensures r != Stuck ==> Sound(kernel)
    ensures r == Taken ==>
              SendInMemory(old(kernel.procs[..]), old(kernel.curr), kernel.State(), kernel.earth.spaces, receiver, bytes)
  {
    if |bytes| > SYSCALL_MSG_LEN {
      return TooLong;
    }
    ghost var k := kernel.State();
    PutSendRequest(kernel, receiver, bytes);
    ghost var k1, keys, dead := kernel.State(), kernel.earth.spaces.Keys, kernel.earth.dead;
    StepStamps(k, Compute(k1.Page(k.vm)));
    var ok := Ecall(kernel, sp, mepc);
    if !ok {
      return Stuck;
    }
    SendReaches(k1, kernel.State(), kernel.earth.spaces, keys, dead, bytes);
    return Taken;
  }

  /** sys_recv for at most size bytes, up to where the kernel lets some process run. */
  method SysRecv(kernel: Kernel, size: int, sp: int, mepc: int) returns (r: CallResult)
    requires Sound(kernel)
    modifies kernel, kernel.procs, kernel.earth, kernel.earth.tlb, kernel.earth.mmu
    ensures r == TooLong <==> size > SYSCALL_MSG_LEN
    ensures r == TooLong ==> kernel.State() == old(kernel.State()) && kernel.earth.spaces == old(kernel.earth.spaces)
    ensures r == Stuck ==>
              forall i :: 0 <= i < MAX_NPROCESS && i != old(kernel.curr) ==> !Schedulable(old(kernel.procs[..])[i].status)
    ensures r != Stuck ==> Sound(kernel)
    ensures r == Taken ==> RecvInMemory(old(kernel.procs[..]), old(kernel.curr), old(kernel.earth.spaces),
                                        kernel.State(), kernel.earth.spaces)
  {
    if size > SYSCALL_MSG_LEN {
      return TooLong;
    }
    ghost var k, m := kernel.State(), kernel.earth.spaces;
    var page := OwnArea(kernel);
    DecodeWithType(page, SYS_RECV);
    StoreOwn(kernel, WithType(page, SYS_RECV));
    ghost var k1, m1, dead := kernel.State(), kernel.earth.spaces, kernel.earth.dead;
    StepStamps(k, Compute(k1.Page(k.vm)));
    var ok := Ecall(kernel, sp, mepc);
    if !ok {
      return Stuck;
    }
    RecvReaches(k1, kernel.State(), m1, kernel.earth.spaces, dead);
    SenderUntouched(k, m, m1, kernel.State(), kernel.earth.spaces);
    return Taken;
  }

  /** Whoever waits to send is not the caller, so its memory is as it was before the request. */
  lemma SenderUntouched(k: K, m: Memory, m1: Memory, k': K, m': Memory)
    requires Safe(k) && k'.Wf() && m1.Keys == m.Keys && RecvInMemory(k.procs, k.curr, m1, k', m')
    requires forall v :: v in m && v.pid != k.vm ==> m1[v] == m[v]
    ensures RecvInMemory(k.procs, k.curr, m, k', m')
  {
    var p := k.Curr().pid;
    if HasSender(k.procs, p) {
      var s: nat :| IsLastSender(k.procs, p, s) && VirtualPage(k.procs[s].pid, ARG_PAGE) in m1
        && HasMessage(m', p, k.procs[s].pid, p, m1[VirtualPage(k.procs[s].pid, ARG_PAGE)][CONTENT_AT..RETVAL_AT])
        && CanRun(k'.procs[s].status) && CanRun(k'.procs[k.curr].status);
      assert VirtualPage(k.procs[s].pid, ARG_PAGE) in m.Keys;
    }
  }

  /** The end of sys_send and sys_recv, once the process runs again: the first size bytes of the
      message, the number of its sender and the return value. */
  method Results(kernel: Kernel, size: nat) returns (sender: int, bytes: seq<Byte>, v: int)
    requires kernel.Valid() && Safe(kernel.State()) && size <= SYSCALL_MSG_LEN
    ensures |bytes| == size
    ensures exists receiver :: HasMessage(kernel.earth.spaces, kernel.procs[kernel.curr].pid, sender, receiver, bytes)
    ensures VirtualPage(kernel.earth.curr, ARG_PAGE) in kernel.earth.spaces
    ensures v == BytesInt(kernel.earth.spaces[VirtualPage(kernel.earth.curr, ARG_PAGE)][RETVAL_AT..END_AT])
  {
    var page := OwnArea(kernel);
    sender, v := BytesInt(page[SENDER_AT..RECEIVER_AT]), BytesInt(page[RETVAL_AT..END_AT]);
    bytes := page[CONTENT_AT..CONTENT_AT + size];
    assert HasMessage(kernel.earth.spaces, kernel.earth.curr, sender, BytesInt(page[RECEIVER_AT..CONTENT_AT]), bytes);
  }
}
