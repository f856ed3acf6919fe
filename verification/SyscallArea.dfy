/** The system call structure at SYSCALL_ARG as bytes of a page: type, sender, receiver,
    contents and return value. It is 1040 bytes long, 16 more than the area set aside for it, so
    its end lies in the lowest words of the application stack, in the same page. */
module SyscallArea {
  import opened Pages
  import opened Bytes
  import opened KernelModel

  const TYPE_AT := 1024 // SYSCALL_ARG in the page of APPS_ARG
  const SENDER_AT := 1028
  const RECEIVER_AT := 1032
  const CONTENT_AT := 1036
  const RETVAL_AT := 2060 // after SYSCALL_MSG_LEN bytes of contents
  const END_AT := 2064

  const SYSCALL_MSG_LEN := 1024

  // enum syscall_type
  const SYS_UNUSED := 0
  const SYS_RECV := 1
  const SYS_SEND := 2

  function CallOf(n: int): Call {
    if n == SYS_UNUSED then NoCall else if n == SYS_RECV then Recv else if n == SYS_SEND then Send else BadCall
  }

  /** The struct sys_msg in a page. */
  function MsgBytes(page: Page): (s: seq<Byte>)
    ensures |s| == RETVAL_AT - SENDER_AT
  {
    page[SENDER_AT..RETVAL_AT]
  }

  function MsgOf(s: seq<Byte>): Msg
    requires |s| == RETVAL_AT - SENDER_AT
  {
    Msg(BytesInt(s[..4]), BytesInt(s[4..8]), s[8..])
  }

  function Decode(page: Page): Syscall {
    Syscall(CallOf(BytesInt(page[TYPE_AT..SENDER_AT])), MsgOf(MsgBytes(page)), BytesInt(page[RETVAL_AT..END_AT]))
  }

  // ----------------------------------------------------------------- writing fields

  function WithType(page: Page, t: int): Page {
    Splice(page, TYPE_AT, IntBytes(t))
  }

  function WithReceiver(page: Page, pid: int): Page {
    Splice(page, RECEIVER_AT, IntBytes(pid))
  }

  function WithContent(page: Page, bytes: seq<Byte>): Page
    requires |bytes| <= SYSCALL_MSG_LEN
  {
    Splice(page, CONTENT_AT, bytes)
  }

  function WithRetval(page: Page, v: int): Page {
    Splice(page, RETVAL_AT, IntBytes(v))
  }

  function WithSender(page: Page, pid: int): Page {
    Splice(page, SENDER_AT, IntBytes(pid))
  }

  function WithMsg(page: Page, msg: seq<Byte>): Page
    requires |msg| == RETVAL_AT - SENDER_AT
  {
    Splice(page, SENDER_AT, msg)
  }

  lemma DecodeWithType(page: Page, t: int)
    requires -INT_LIMIT <= t < INT_LIMIT
    ensures Decode(WithType(page, t)) == Decode(page).(call := CallOf(t))
  {
    IntRoundTrip(t);
    SpliceAt(page, TYPE_AT, IntBytes(t), TYPE_AT, SENDER_AT);
    SpliceAt(page, TYPE_AT, IntBytes(t), SENDER_AT, RETVAL_AT);
    SpliceAt(page, TYPE_AT, IntBytes(t), RETVAL_AT, END_AT);
  }

  lemma DecodeWithRetval(page: Page, v: int)
    requires -INT_LIMIT <= v < INT_LIMIT
    ensures Decode(WithRetval(page, v)) == Decode(page).(retval := v)
  {
    IntRoundTrip(v);
    SpliceAt(page, RETVAL_AT, IntBytes(v), TYPE_AT, SENDER_AT);
    SpliceAt(page, RETVAL_AT, IntBytes(v), SENDER_AT, RETVAL_AT);
    SpliceAt(page, RETVAL_AT, IntBytes(v), RETVAL_AT, END_AT);
  }

  lemma DecodeTaken(page: Page)
    ensures Decode(WithType(WithRetval(page, 0), 0)) == Decode(page).(retval := 0, call := NoCall)
  {
    DecodeWithRetval(page, 0);
    DecodeWithType(WithRetval(page, 0), 0);
  }

  lemma DecodeWithMsg(page: Page, msg: seq<Byte>)
    requires |msg| == RETVAL_AT - SENDER_AT
    ensures MsgBytes(WithMsg(page, msg)) == msg
    ensures Decode(WithMsg(page, msg)) == Decode(page).(msg := MsgOf(msg))
  {
    SpliceAt(page, SENDER_AT, msg, TYPE_AT, SENDER_AT);
    SpliceAt(page, SENDER_AT, msg, SENDER_AT, RETVAL_AT);
    SpliceAt(page, SENDER_AT, msg, RETVAL_AT, END_AT);
  }

  lemma DecodeWithSender(page: Page, pid: int)
    requires -INT_LIMIT <= pid < INT_LIMIT
    ensures Decode(WithSender(page, pid)) == Decode(page).(msg := Decode(page).msg.(sender := pid))
  {
    IntRoundTrip(pid);
    var bytes := IntBytes(pid);
    var page' := WithSender(page, pid);
    SpliceAt(page, SENDER_AT, bytes, TYPE_AT, SENDER_AT);
    SpliceAt(page, SENDER_AT, bytes, SENDER_AT, RECEIVER_AT);
    SpliceAt(page, SENDER_AT, bytes, RECEIVER_AT, CONTENT_AT);
    SpliceAt(page, SENDER_AT, bytes, CONTENT_AT, RETVAL_AT);
    SpliceAt(page, SENDER_AT, bytes, RETVAL_AT, END_AT);
    MsgFields(page);
    MsgFields(page');
  }

  /** The fields of the message in the page. */
  lemma MsgFields(page: Page)
    ensures MsgOf(MsgBytes(page)) ==
            Msg(BytesInt(page[SENDER_AT..RECEIVER_AT]), BytesInt(page[RECEIVER_AT..CONTENT_AT]), page[CONTENT_AT..RETVAL_AT])
  {
    var s := MsgBytes(page);
    assert s[..4] == page[SENDER_AT..RECEIVER_AT] && s[4..8] == page[RECEIVER_AT..CONTENT_AT];
    assert s[8..] == page[CONTENT_AT..RETVAL_AT];
  }

  // ---------------------------------------------------------------------- requests

  /** The page holds a message with this sender and receiver whose contents start with the bytes. */
  predicate HoldsMessage(page: Page, sender: int, receiver: int, bytes: seq<Byte>) {
    && |bytes| <= SYSCALL_MSG_LEN
    && BytesInt(page[SENDER_AT..RECEIVER_AT]) == sender
    && BytesInt(page[RECEIVER_AT..CONTENT_AT]) == receiver
    && page[CONTENT_AT..CONTENT_AT + |bytes|] == bytes
  }

  /** What sys_send puts into its area. */
  function SendRequest(page: Page, receiver: int, bytes: seq<Byte>): Page
    requires |bytes| <= SYSCALL_MSG_LEN
  {
    WithContent(WithReceiver(WithType(page, SYS_SEND), receiver), bytes)
  }

  lemma DecodeSendRequest(page: Page, receiver: int, bytes: seq<Byte>)
    requires |bytes| <= SYSCALL_MSG_LEN && -INT_LIMIT <= receiver < INT_LIMIT
    ensures var sc := Decode(SendRequest(page, receiver, bytes));
      && sc.call == Send && sc.msg.receiver == receiver
      && |sc.msg.content| == SYSCALL_MSG_LEN && sc.msg.content[..|bytes|] == bytes
  {
    var p1 := WithType(page, SYS_SEND);
    var p2 := WithReceiver(p1, receiver);
    var p3 := WithContent(p2, bytes);
    IntRoundTrip(SYS_SEND);
    IntRoundTrip(receiver);
    SpliceAt(page, TYPE_AT, IntBytes(SYS_SEND), TYPE_AT, SENDER_AT);
    SpliceAt(p1, RECEIVER_AT, IntBytes(receiver), TYPE_AT, SENDER_AT);
    SpliceAt(p1, RECEIVER_AT, IntBytes(receiver), RECEIVER_AT, CONTENT_AT);
    SpliceAt(p2, CONTENT_AT, bytes, TYPE_AT, SENDER_AT);
    SpliceAt(p2, CONTENT_AT, bytes, RECEIVER_AT, CONTENT_AT);
    SpliceAt(p2, CONTENT_AT, bytes, CONTENT_AT, CONTENT_AT + |bytes|);
    MsgFields(p3);
    assert p3[CONTENT_AT..RETVAL_AT][..|bytes|] == p3[CONTENT_AT..CONTENT_AT + |bytes|];
  }

  /** A decoded message is in the page. */
  lemma MessageInPage(page: Page, m: Msg, bytes: seq<Byte>)
    requires Decode(page).msg == m && |bytes| <= |m.content| && m.content[..|bytes|] == bytes && |bytes| <= SYSCALL_MSG_LEN
    ensures HoldsMessage(page, m.sender, m.receiver, bytes)
  {
    MsgFields(page);
    assert page[CONTENT_AT..RETVAL_AT][..|bytes|] == page[CONTENT_AT..CONTENT_AT + |bytes|];
  }

  // ---------------------------------------------------------------- what is left alone

  /** Which bytes a system call of one process, with another as its partner, may write: the
      caller's type, sender and return value, and the partner's message. */
  predicate Writable(k: VirtualPage, j: int, caller: int, partner: int) {
    && k.page == ARG_PAGE
    && ((k.pid == caller && (TYPE_AT <= j < RECEIVER_AT || RETVAL_AT <= j < END_AT))
        || (k.pid == partner && SENDER_AT <= j < RETVAL_AT))
  }

  /** All other bytes of all memories are as before. */
  ghost predicate KeptBut(spaces: map<VirtualPage, Page>, spaces': map<VirtualPage, Page>, caller: int, partner: int) {
    && spaces'.Keys == spaces.Keys
    && forall k, j {:trigger spaces'[k][j]} ::
         k in spaces && k in spaces' && 0 <= j < 4096 && !Writable(k, j, caller, partner) ==> spaces'[k][j] == spaces[k][j]
  }

  lemma KeptTwice(m: map<VirtualPage, Page>, m1: map<VirtualPage, Page>, m2: map<VirtualPage, Page>, caller: int, partner: int)
    requires KeptBut(m, m1, caller, partner) && KeptBut(m1, m2, caller, partner)
    ensures KeptBut(m, m2, caller, partner)
  {
    forall k, j | k in m && k in m2 && 0 <= j < 4096 && !Writable(k, j, caller, partner)
      ensures m2[k][j] == m[k][j]
    {
      assert k in m1.Keys;
      assert m2[k][j] == m1[k][j] && m1[k][j] == m[k][j];
    }
  }

  lemma CallerKept(m: map<VirtualPage, Page>, caller: int, partner: int, v: int)
    requires VirtualPage(caller, ARG_PAGE) in m
    ensures var k := VirtualPage(caller, ARG_PAGE);
      && KeptBut(m, m[k := WithSender(m[k], v)], caller, partner)
      && KeptBut(m, m[k := WithRetval(m[k], v)], caller, partner)
      && KeptBut(m, m[k := WithType(m[k], v)], caller, partner)
  {
  }

  lemma TakenKept(m: map<VirtualPage, Page>, caller: int, partner: int)
    requires VirtualPage(caller, ARG_PAGE) in m
    ensures var k := VirtualPage(caller, ARG_PAGE); KeptBut(m, m[k := WithType(WithRetval(m[k], 0), 0)], caller, partner)
  {
  }

  lemma PartnerKept(m: map<VirtualPage, Page>, caller: int, partner: int, msg: seq<Byte>)
    requires VirtualPage(partner, ARG_PAGE) in m && |msg| == RETVAL_AT - SENDER_AT
    ensures var k := VirtualPage(partner, ARG_PAGE); KeptBut(m, m[k := WithMsg(m[k], msg)], caller, partner)
  {
  }

  // ------------------------------------------------------------------ all processes

  /** The system call area of process pid is what its memory holds at SYSCALL_ARG. */
  ghost predicate AreaAt(spaces: map<VirtualPage, Page>, areas: map<int, Syscall>, pid: int) {
    && (pid in areas <==> VirtualPage(pid, ARG_PAGE) in spaces)
    && (pid in areas ==> areas[pid] == Decode(spaces[VirtualPage(pid, ARG_PAGE)]))
  }

  ghost predicate AreasAre(spaces: map<VirtualPage, Page>, areas: map<int, Syscall>) {
    forall pid {:trigger AreaAt(spaces, areas, pid)} :: AreaAt(spaces, areas, pid)
  }

  lemma AreasStored(spaces: map<VirtualPage, Page>, areas: map<int, Syscall>, pid: int, page: Page)
    requires AreasAre(spaces, areas)
    ensures AreasAre(spaces[VirtualPage(pid, ARG_PAGE) := page], areas[pid := Decode(page)])
  {
    var spaces', areas' := spaces[VirtualPage(pid, ARG_PAGE) := page], areas[pid := Decode(page)];
    forall p
      ensures AreaAt(spaces', areas', p)
    {
      assert AreaAt(spaces, areas, p);
    }
  }

  lemma AreasKept(spaces: map<VirtualPage, Page>, areas: map<int, Syscall>, k: VirtualPage, page: Page)
    requires AreasAre(spaces, areas) && k.page != ARG_PAGE
    ensures AreasAre(spaces[k := page], areas)
  {
    var spaces' := spaces[k := page];
    forall p
      ensures AreaAt(spaces', areas, p)
    {
      assert AreaAt(spaces, areas, p);
    }
  }

  lemma AreasWithout(spaces: map<VirtualPage, Page>, areas: map<int, Syscall>, pid: int)
    requires AreasAre(spaces, areas)
    ensures AreasAre(Without(spaces, pid), areas - {pid})
  {
    var spaces', areas' := Without(spaces, pid), areas - {pid};
    forall p
      ensures AreaAt(spaces', areas', p)
    {
      assert AreaAt(spaces, areas, p);
    }
  }

  /** A process is added with its own pages. */
  lemma AreasAdded(spaces: map<VirtualPage, Page>, spaces': map<VirtualPage, Page>, areas: map<int, Syscall>, pid: int)
    requires AreasAre(spaces, areas) && VirtualPage(pid, ARG_PAGE) in spaces'
    requires forall k :: k in spaces' <==> k in spaces || (k.pid == pid && IsAppPage(k.page))
    requires forall k :: k in spaces ==> spaces'[k] == spaces[k]
    ensures AreasAre(spaces', areas[pid := Decode(spaces'[VirtualPage(pid, ARG_PAGE)])])
  {
    var areas' := areas[pid := Decode(spaces'[VirtualPage(pid, ARG_PAGE)])];
    forall p
      ensures AreaAt(spaces', areas', p)
    {
      assert AreaAt(spaces, areas, p);
    }
  }
}
