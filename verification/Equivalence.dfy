/** The two translation mechanisms present the same thing, a private memory per process: any
    run gives the same loads under page copying as under page tables. */
module Equivalence {
  import opened Options
  import opened Pages
  import opened Sv39
  import opened PageTables
  import Pt = PtMmu
  import Soft = SoftTlb

  /** What a run does: the loader gives a process a page, the kernel switches or frees
      processes, the running process loads and stores words. */
  datatype Op =
    | MapPage(pid: int, page: nat, content: Frame)
    | SwitchTo(pid: int)
    | LoadWord(page: nat, word: nat)
    | StoreWord(page: nat, word: nat, value: U64)
    | FreeProcess(pid: int)

  datatype Machine = Machine(spaces: map<VirtualPage, Frame>, curr: int, dead: set<int>)

  /** Pages are mapped once and before the process runs, a process runs only when it has
      pages, it uses only its own pages, and process numbers are not reused. */
  ghost predicate OpOk(m: Machine, op: Op) {
    match op
    case MapPage(pid, page, _) =>
      pid > 0 && pid !in m.dead && pid != m.curr && IsAppPage(page) && VirtualPage(pid, page) !in m.spaces
    case SwitchTo(pid) => pid > 0 && exists k :: k in m.spaces && k.pid == pid
    case LoadWord(page, word) => VirtualPage(m.curr, page) in m.spaces && word < 512
    case StoreWord(page, word, _) => VirtualPage(m.curr, page) in m.spaces && word < 512
    case FreeProcess(pid) => pid > 0
  }

  /** How many pages a run maps. */
  function Maps(ops: seq<Op>): nat {
    if ops == [] then 0 else (if ops[0].MapPage? then 1 else 0) + Maps(ops[1..])
  }

  ghost function Step(m: Machine, op: Op): Machine
    requires OpOk(m, op)
  {
    match op
    case MapPage(pid, page, content) => m.(spaces := m.spaces[VirtualPage(pid, page) := content])
    case SwitchTo(pid) => m.(curr := pid)
    case LoadWord(_, _) => m
    case StoreWord(page, word, value) =>
      m.(spaces := m.spaces[VirtualPage(m.curr, page) := m.spaces[VirtualPage(m.curr, page)][word := value]])
    case FreeProcess(pid) =>
      m.(spaces := Without(m.spaces, pid), dead := m.dead + {pid})
  }

  /** What is seen of a step: the word that a load gives. */
  ghost function Seen(m: Machine, op: Op): seq<U64>
    requires OpOk(m, op)
  {
    match op
    case LoadWord(page, word) => [m.spaces[VirtualPage(m.curr, page)][word]]
    case _ => []
  }

  ghost predicate RunOk(m: Machine, ops: seq<Op>)
    decreases |ops|
  {
    ops == [] || (OpOk(m, ops[0]) && RunOk(Step(m, ops[0]), ops[1..]))
  }

  ghost function SeenInRun(m: Machine, ops: seq<Op>): seq<U64>
    requires RunOk(m, ops)
    decreases |ops|
  {
    if ops == [] then [] else Seen(m, ops[0]) + SeenInRun(Step(m, ops[0]), ops[1..])
  }

  method SoftMapPage(tlb: Soft.SoftTlb<Frame>, pid: int, page: nat, content: Frame) returns (halted: bool)
    requires tlb.Valid() && pid > 0 && pid != tlb.currVmPid && IsAppPage(page) && VirtualPage(pid, page) !in tlb.Spaces()
    modifies tlb
    ensures halted <==> old(tlb.FreeCount()) == 0
    ensures !halted ==> tlb.Valid() && tlb.Spaces() == old(tlb.Spaces())[VirtualPage(pid, page) := content]
    ensures !halted ==> tlb.currVmPid == old(tlb.currVmPid) && tlb.FreeCount() == old(tlb.FreeCount()) - 1
  {
    var frame := tlb.NewPage(pid, page);
    if frame.None? {
      return true;
    }
    tlb.FillPage(frame.value, content, VirtualPage(pid, page));
    return false;
  }

  method SoftFree(tlb: Soft.SoftTlb<Frame>, pid: int)
    requires tlb.Valid() && pid > 0
    modifies tlb
    ensures tlb.Valid() && tlb.Spaces() == Without(old(tlb.Spaces()), pid)
    ensures tlb.currVmPid == old(tlb.currVmPid) && tlb.FreeCount() >= old(tlb.FreeCount())
  {
    ghost var table0, freed := tlb.table, set k | k in tlb.frameOf && k.pid == pid :: tlb.frameOf[k];
    tlb.Free(pid);
    MoreUnused(table0, tlb.table, freed);
  }

  /** The machine at the end of a run. */
  ghost function EndOf(m: Machine, ops: seq<Op>): Machine
    requires RunOk(m, ops)
    decreases |ops|
  {
    if ops == [] then m else EndOf(Step(m, ops[0]), ops[1..])
  }

  /** A step under page copying. */
  method SoftStep(tlb: Soft.SoftTlb<Frame>, op: Op, ghost m: Machine) returns (halted: bool, seen: seq<U64>)
    requires tlb.Valid() && tlb.Spaces() == m.spaces && tlb.currVmPid == m.curr && OpOk(m, op)
    modifies tlb
    ensures !halted ==> tlb.Valid() && tlb.Spaces() == Step(m, op).spaces && tlb.currVmPid == Step(m, op).curr
    ensures !halted ==> seen == Seen(m, op)
    ensures halted <==> op.MapPage? && old(tlb.FreeCount()) == 0
    ensures !halted ==> tlb.FreeCount() >= old(tlb.FreeCount()) - Maps([op])
  {
    halted, seen := false, [];
    assert Maps([op]) == if op.MapPage? then 1 else 0;
    match op {
      case MapPage(pid, page, content) =>
        halted := SoftMapPage(tlb, pid, page, content);
      case SwitchTo(pid) =>
        tlb.Switch(pid);
      case LoadWord(page, word) =>
        assert tlb.MappedOk(VirtualPage(m.curr, page));
        var content := tlb.Load(page);
        seen := [content[word]];
      case StoreWord(page, word, value) =>
        assert tlb.MappedOk(VirtualPage(m.curr, page));
        var content := tlb.Load(page);
        tlb.Store(page, content[word := value]);
      case FreeProcess(pid) =>
        SoftFree(tlb, pid);
    }
  }

  /** The same step under page tables. */
  method PtStep(mmu: Pt.PtMmu, op: Op, ghost m: Machine) returns (halted: bool, seen: seq<U64>)
    requires mmu.Valid() && mmu.Selected() && Pt.SixEach(mmu.pt) && OpOk(m, op)
    requires mmu.Spaces() == m.spaces && mmu.currVmPid == m.curr && mmu.pt.dead == m.dead
    modifies mmu
    ensures !halted ==> mmu.Valid() && mmu.Selected() && Pt.SixEach(mmu.pt)
    ensures halted <==> op.MapPage? && (op.pid >= NPIDS || old(mmu.FreeCount()) < 1 + TableCost(old(mmu.pt), op.pid))
    ensures !halted ==> mmu.FreeCount() >= old(mmu.FreeCount()) - 7 * Maps([op])
    ensures !halted ==> mmu.Spaces() == Step(m, op).spaces && mmu.currVmPid == Step(m, op).curr && mmu.pt.dead == Step(m, op).dead
    ensures !halted ==> seen == Seen(m, op)
  {
    halted, seen := false, [];
    assert Maps([op]) == if op.MapPage? then 1 else 0;
    match op {
      case MapPage(pid, page, content) =>
        halted := PtMapPage(mmu, pid, page, content);
      case SwitchTo(pid) =>
        ghost var k :| k in m.spaces && k.pid == pid;
        Pt.UserIsLive(mmu.table, mmu.frames, mmu.base, mmu.pt, k);
        mmu.Switch(pid);
      case LoadWord(page, word) =>
        var content := mmu.Load(page);
        seen := [content[word]];
      case StoreWord(page, word, value) =>
        var content := mmu.Load(page);
        mmu.Store(page, content[word := value]);
      case FreeProcess(pid) =>
        PtFree(mmu, pid);
    }
  }

  method PtFree(mmu: Pt.PtMmu, pid: int)
    requires mmu.Valid() && mmu.Selected() && Pt.SixEach(mmu.pt) && pid > 0
    modifies mmu
    ensures mmu.Valid() && mmu.Selected() && Pt.SixEach(mmu.pt) && mmu.FreeCount() >= old(mmu.FreeCount())
    ensures mmu.Spaces() == Without(old(mmu.Spaces()), pid)
    ensures mmu.currVmPid == old(mmu.currVmPid) && mmu.pt.dead == old(mmu.pt.dead) + {pid}
    ensures forall p {:trigger HasRoot(mmu.pt, p)} :: HasRoot(mmu.pt, p) <==> HasRoot(old(mmu.pt), p) && p != pid
  {
    ghost var table0, freed := mmu.table, Pt.TableFrames(mmu.pt, pid);
    Pt.FreeSpaces(mmu.frames, mmu.pt, pid);
    mmu.Free(pid);
    MoreUnused(table0, mmu.table, freed);
  }

  ghost predicate HasRoot(pt: PtLayout, pid: int) {
    TPos(pid, 2, 0) in pt.node
  }

  /** Process pid has a root in pt', others have one if they had one in pt. */
  ghost predicate RootAdded(pt: PtLayout, pt': PtLayout, pid: int) {
    forall p {:trigger HasRoot(pt', p)} :: HasRoot(pt', p) <==> HasRoot(pt, p) || p == pid
  }

  lemma RootsAfterMap(pt: PtLayout, pt': PtLayout, pid: int, page: nat)
    requires pt'.node.Keys == pt.node.Keys + Pt.TablesFor(pt, pid, page)
    ensures RootAdded(pt, pt', pid)
  {
    forall p
      ensures HasRoot(pt', p) <==> HasRoot(pt, p) || p == pid
    {
      assert TPos(p, 2, 0) in pt'.node.Keys <==> TPos(p, 2, 0) in pt.node.Keys || TPos(p, 2, 0) in Pt.TablesFor(pt, pid, page);
      assert TPos(pid, 2, 0) in Pt.ThreeTables(pid, page);
    }
  }

  /** How many frames a page of process pid takes for tables. */
  ghost function TableCost(pt: PtLayout, pid: int): nat {
    if HasRoot(pt, pid) then 0 else 6
  }

  method PtMapPage(mmu: Pt.PtMmu, pid: int, page: nat, content: Frame) returns (halted: bool)
    requires mmu.Valid() && mmu.Selected() && Pt.SixEach(mmu.pt)
    requires pid > 0 && pid !in mmu.pt.dead && pid != mmu.currVmPid && IsAppPage(page)
    modifies mmu
    ensures halted <==> pid >= NPIDS || old(mmu.FreeCount()) < 1 + TableCost(old(mmu.pt), pid)
    ensures !halted ==> mmu.Valid() && mmu.Selected() && Pt.SixEach(mmu.pt)
    ensures !halted ==> mmu.FreeCount() == old(mmu.FreeCount()) - 1 - TableCost(old(mmu.pt), pid)
    ensures !halted ==> mmu.Spaces() == old(mmu.Spaces())[VirtualPage(pid, page) := content]
    ensures !halted ==> mmu.currVmPid == old(mmu.currVmPid) && mmu.pt.dead == old(mmu.pt.dead)
  {
    var frame := PtNewPage(mmu, pid, page);
    if frame.None? {
      return true;
    }
    ghost var k := VirtualPage(pid, page);
    Pt.UserTargetOf(mmu.table, mmu.frames, mmu.base, mmu.pt, k);
    Pt.StoreSpaces(mmu.table, mmu.frames, mmu.base, mmu.pt, k, content);
    mmu.Fill(frame.value, content);
    return false;
  }

  /** mmu_alloc and page_table_map. */
  method PtNewPage(mmu: Pt.PtMmu, pid: int, page: nat) returns (r: Option<nat>)
    requires mmu.Valid() && mmu.Selected() && Pt.SixEach(mmu.pt)
    requires pid > 0 && pid !in mmu.pt.dead && pid != mmu.currVmPid && IsAppPage(page)
    modifies mmu
    ensures r.None? <==> pid >= NPIDS || old(mmu.FreeCount()) < 1 + TableCost(old(mmu.pt), pid)
    ensures r.Some? ==> NewPageIn(mmu, old(mmu.Spaces()), VirtualPage(pid, page), r.value)
    ensures r.Some? ==> mmu.FreeCount() == old(mmu.FreeCount()) - 1 - TableCost(old(mmu.pt), pid)
    ensures r.Some? ==> mmu.currVmPid == old(mmu.currVmPid) && mmu.pt.dead == old(mmu.pt.dead)
    ensures r.Some? ==> RootAdded(old(mmu.pt), mmu.pt, pid)
  {
    r := mmu.Alloc();
    if r.None? {
      return;
    }
    AllocSpaces(mmu.frames, old(mmu.pt), r.value);
    var ok := PtMapFrame(mmu, pid, page, r.value);
    if !ok {
      return None;
    }
  }

  /** Page k has been added to the memories m, in the given frame. */
  ghost predicate NewPageIn(mmu: Pt.PtMmu, m: map<VirtualPage, Frame>, k: VirtualPage, frame: nat)
    reads mmu
  {
    && mmu.Valid() && mmu.Selected() && Pt.SixEach(mmu.pt)
    && frame < NFRAMES && mmu.Spaces() == m[k := mmu.frames[frame]]
    && k in mmu.pt.trans && mmu.pt.trans[k] == User(frame)
  }

  method PtMapFrame(mmu: Pt.PtMmu, pid: int, page: nat, frame: nat) returns (ok: bool)
    requires mmu.Valid() && mmu.Selected() && Pt.SixEach(mmu.pt)
    requires pid > 0 && pid !in mmu.pt.dead && pid != mmu.currVmPid && IsAppPage(page)
    requires frame < NFRAMES && mmu.pt.role[frame] == Loose
    modifies mmu
    ensures ok <==> pid < NPIDS && TableCost(old(mmu.pt), pid) <= old(mmu.FreeCount())
    ensures ok ==> NewPageIn(mmu, old(mmu.Spaces()), VirtualPage(pid, page), frame)
    ensures ok ==> mmu.FreeCount() == old(mmu.FreeCount()) - TableCost(old(mmu.pt), pid)
    ensures ok ==> mmu.currVmPid == old(mmu.currVmPid) && mmu.pt.dead == old(mmu.pt.dead)
    ensures ok ==> RootAdded(old(mmu.pt), mmu.pt, pid)
  {
    ghost var k := VirtualPage(pid, page);
    ghost var table1, frames1, base1, pt1 := mmu.table, mmu.frames, mmu.base, mmu.pt;
    Pt.LackingNoneOrSix(pt1, pid, page);
    ok := mmu.Map(pid, page, frame);
    if !ok {
      return;
    }
    Pt.SixAfterMap(pt1, mmu.pt, pid, page);
    Pt.SelectsAfterMap(mmu.satp, pt1, mmu.pt, pid, page, mmu.currVmPid);
    Pt.MapSpaces(table1, frames1, base1, pt1, mmu.frames, mmu.pt, k, frame);
    assert Pt.MapAt(pt1, mmu.pt.trans, k, frame, k);
    RootsAfterMap(pt1, mmu.pt, pid, page);
  }

  lemma AllocSpaces(frames: seq<Frame>, pt: PtLayout, f: nat)
    requires |frames| == |pt.role| == NFRAMES && f < NFRAMES && pt.role[f] == Unused
    ensures Pt.SpacesOf(frames, pt.(role := pt.role[f := Loose])) == Pt.SpacesOf(frames, pt)
  {
  }

  /** Both mechanisms through the same run, for any run: all loads agree with each other and with
      the private memories. One of them stops before the end only for a process number that has
      no place in the table of roots, or if there are fewer frames than the run may take, one
      or seven for each page. */
  method RunBoth(tlb: Soft.SoftTlb<Frame>, mmu: Pt.PtMmu, ops: seq<Op>, ghost m: Machine)
    returns (halted: bool, soft: seq<U64>, paged: seq<U64>)
    requires tlb.Valid() && mmu.Valid() && mmu.Selected() && Pt.SixEach(mmu.pt)
    requires tlb.Spaces() == mmu.Spaces() == m.spaces && tlb.currVmPid == mmu.currVmPid == m.curr && mmu.pt.dead == m.dead
    requires RunOk(m, ops) && OnlyAppPages(m.spaces)
    modifies tlb, mmu
    ensures !halted ==> soft == paged == SeenInRun(m, ops)
    ensures !halted ==> tlb.Valid() && mmu.Valid() && mmu.Selected() && Pt.SixEach(mmu.pt)
    ensures !halted ==> tlb.Spaces() == mmu.Spaces() == EndOf(m, ops).spaces && OnlyAppPages(mmu.Spaces())
    ensures !halted ==> tlb.currVmPid == mmu.currVmPid == EndOf(m, ops).curr && mmu.pt.dead == EndOf(m, ops).dead
    ensures halted ==>
              || (exists op :: op in ops && op.MapPage? && op.pid >= NPIDS)
              || old(tlb.FreeCount()) < Maps(ops) || old(mmu.FreeCount()) < 7 * Maps(ops)
    decreases |ops|
  {
    if ops == [] {
      return false, [], [];
    }
    assert ops[0] in ops && (forall op :: op in ops[1..] ==> op in ops) && Maps(ops) == Maps([ops[0]]) + Maps(ops[1..]);
    var h1, s1 := SoftStep(tlb, ops[0], m);
    var h2, s2 := PtStep(mmu, ops[0], m);
    if h1 || h2 {
      return true, [], [];
    }
    halted, soft, paged := RunBoth(tlb, mmu, ops[1..], Step(m, ops[0]));
    soft, paged := s1 + soft, s2 + paged;
  }

  method BootPaged(frames: seq<Frame>) returns (mmu: Pt.PtMmu)
    requires |frames| == NFRAMES
    ensures fresh(mmu) && mmu.Valid() && mmu.Selected() && Pt.SixEach(mmu.pt)
    ensures mmu.Spaces() == map[] && mmu.currVmPid == -1 && mmu.pt.dead == {}
    ensures mmu.FreeCount() == NFRAMES - 6
    ensures forall p {:trigger HasRoot(mmu.pt, p)} :: HasRoot(mmu.pt, p) <==> p == 0
  {
    mmu := new Pt.PtMmu(frames);
    AllUnused(mmu.table);
    var ok := mmu.Init();
    assert mmu.pt.node.Keys == Pt.SixTables(0);
    SystemOnly(mmu.frames, mmu.pt);
  }

  lemma SystemOnly(frames: seq<Frame>, pt: PtLayout)
    requires pt.node.Keys == Pt.SixTables(0) && pt.trans == Pt.WithIdentity(map[], 0)
    ensures Pt.SixEach(pt) && Pt.SpacesOf(frames, pt) == map[]
    ensures forall p {:trigger HasRoot(pt, p)} :: HasRoot(pt, p) <==> p == 0
  {
    forall t | t in pt.node
      ensures t in Pt.SixTables(t.pid) && t.pid == 0
    {
      assert t in pt.node.Keys;
    }
    assert TPos(0, 2, 0) in pt.node.Keys;
    forall k | k in pt.trans
      ensures pt.trans[k].System?
    {
      Pt.IdentityAt(map[], 0, k);
    }
  }

  method BootSoft<P(0)>(frames: seq<P>, mem: seq<P>) returns (tlb: Soft.SoftTlb<P>)
    requires |frames| == NFRAMES && |mem| == CACHE_PAGE - MEM_PAGE
    ensures fresh(tlb) && tlb.Valid() && tlb.Spaces() == map[] && tlb.currVmPid == -1 && tlb.FreeCount() == NFRAMES
  {
    tlb := new Soft.SoftTlb<P>(frames, mem);
    AllUnused(tlb.table);
  }

  /** Both mechanisms as they start: no process has memory, all frames are free except for the
      six tables with the identity mappings of the system. */
  method Boot(frames: seq<Frame>, mem: seq<Frame>) returns (tlb: Soft.SoftTlb<Frame>, mmu: Pt.PtMmu)
    requires |frames| == NFRAMES && |mem| == CACHE_PAGE - MEM_PAGE
    ensures fresh(tlb) && fresh(mmu) && tlb.Valid() && tlb.Spaces() == map[] && tlb.currVmPid == -1
    ensures mmu.Valid() && mmu.Selected() && Pt.SixEach(mmu.pt)
    ensures mmu.Spaces() == map[] && mmu.currVmPid == -1 && mmu.pt.dead == {}
    ensures tlb.FreeCount() == NFRAMES && mmu.FreeCount() == NFRAMES - 6
  {
    tlb := BootSoft<Frame>(frames, mem);
    mmu := BootPaged(frames);
  }

  // ------------------------------------------------------------------ protection

  predicate Live(k: VirtualPage, dead: set<int>) {
    0 <= k.pid < NPIDS && k.pid !in dead && k.page < VPN_LIMIT
  }

  /** The leaf entry with which users may access page k, if the hardware finds one. */
  function UserPte(frames: seq<Frame>, base: seq<nat>, k: VirtualPage): Option<U64>
    requires |frames| == NFRAMES && |base| == NPIDS && 0 <= k.pid < NPIDS
  {
    var t := Pt.HwTranslate(frames, base, k);
    if t.Leaf? && U(t.pte) then Some(t.pte) else None
  }

  /** Users reach exactly the pages in spaces. */
  ghost predicate UsersReach(frames: seq<Frame>, base: seq<nat>, dead: set<int>, spaces: map<VirtualPage, Frame>)
    requires |frames| == NFRAMES && |base| == NPIDS
  {
    forall k: VirtualPage {:trigger UserPte(frames, base, k)} :: Live(k, dead) ==>
      (UserPte(frames, base, k).Some? <==> k in spaces)
  }

  /** No two pages that users reach share a frame. */
  ghost predicate UsersApart(frames: seq<Frame>, base: seq<nat>, dead: set<int>)
    requires |frames| == NFRAMES && |base| == NPIDS
  {
    forall j: VirtualPage, k: VirtualPage {:trigger UserPte(frames, base, j), UserPte(frames, base, k)} ::
      Live(j, dead) && Live(k, dead) && j != k && UserPte(frames, base, j).Some? && UserPte(frames, base, k).Some? ==>
        PteGetPa(UserPte(frames, base, j).value) != PteGetPa(UserPte(frames, base, k).value)
  }

  /** No page that users reach is a page table of anyone. */
  ghost predicate TablesApart(frames: seq<Frame>, base: seq<nat>, pt: PtLayout)
    requires |frames| == NFRAMES && |base| == NPIDS
  {
    forall k: VirtualPage, t {:trigger UserPte(frames, base, k), pt.node[t]} ::
      Live(k, pt.dead) && UserPte(frames, base, k).Some? && t in pt.node ==>
        pt.node[t] < NFRAMES && FrameAddr(pt.node[t]) != PteGetPa(UserPte(frames, base, k).value)
  }

  lemma UserPteMeans(table: seq<FrameMapping>, frames: seq<Frame>, base: seq<nat>, pt: PtLayout, k: VirtualPage)
    requires PtInv(table, frames, base, pt) && Live(k, pt.dead)
    ensures UserPte(frames, base, k).Some? <==> k in Pt.SpacesOf(frames, pt)
    ensures UserPte(frames, base, k).Some? ==> Pt.HwTranslate(frames, base, k) == Leaf(UserPte(frames, base, k).value, 0)
  {
    Pt.HardwareAgrees(table, frames, base, pt, k);
    if k in pt.trans {
      assert TransOk(pt, k);
      EncodeMeaning(k.page, pt.trans[k]);
    }
  }

  lemma Protection(table: seq<FrameMapping>, frames: seq<Frame>, base: seq<nat>, pt: PtLayout)
    requires PtInv(table, frames, base, pt)
    ensures UsersReach(frames, base, pt.dead, Pt.SpacesOf(frames, pt))
    ensures UsersApart(frames, base, pt.dead) && TablesApart(frames, base, pt)
  {
    forall k: VirtualPage | Live(k, pt.dead)
      ensures UserPte(frames, base, k).Some? <==> k in Pt.SpacesOf(frames, pt)
    {
      UserPteMeans(table, frames, base, pt, k);
    }
    forall j: VirtualPage, k: VirtualPage
      | Live(j, pt.dead) && Live(k, pt.dead) && UserPte(frames, base, j).Some? && UserPte(frames, base, k).Some?
      ensures j != k ==> PteGetPa(UserPte(frames, base, j).value) != PteGetPa(UserPte(frames, base, k).value)
      ensures forall t :: t in pt.node ==>
                pt.node[t] < NFRAMES && FrameAddr(pt.node[t]) != PteGetPa(UserPte(frames, base, j).value)
    {
      UserPteMeans(table, frames, base, pt, j);
      UserPteMeans(table, frames, base, pt, k);
      Pt.Isolation(table, frames, base, pt, j, UserPte(frames, base, j).value, k, UserPte(frames, base, k).value);
    }
  }

  /** What users can reach at the end of any run from boot. The hardware finds an entry with
      the user bit for a page of a live process exactly if the process has been given that page,
      which is then an application page: no page of earth, grass, their stack or interfaces ever
      has the user bit. No two such pages share a frame, none is a page table, and every address
      space has exactly six tables. */
  method RunFromBoot(frames: seq<Frame>, mem: seq<Frame>, ops: seq<Op>) returns (halted: bool, mmu: Pt.PtMmu)
    requires |frames| == NFRAMES && |mem| == CACHE_PAGE - MEM_PAGE && RunOk(Machine(map[], -1, {}), ops)
    ensures fresh(mmu)
    ensures halted ==> (exists op :: op in ops && op.MapPage? && op.pid >= NPIDS) || NFRAMES - 6 < 7 * Maps(ops)
    ensures !halted ==> mmu.Valid() && OnlyAppPages(EndOf(Machine(map[], -1, {}), ops).spaces)
    ensures !halted ==> mmu.pt.dead == EndOf(Machine(map[], -1, {}), ops).dead
    ensures !halted ==> UsersReach(mmu.frames, mmu.base, mmu.pt.dead, EndOf(Machine(map[], -1, {}), ops).spaces)
    ensures !halted ==> UsersApart(mmu.frames, mmu.base, mmu.pt.dead) && TablesApart(mmu.frames, mmu.base, mmu.pt)
    ensures !halted ==> forall pid :: TPos(pid, 2, 0) in mmu.pt.node ==> |Pt.TableFrames(mmu.pt, pid)| == 6
  {
    var tlb, soft, paged;
    tlb, mmu := Boot(frames, mem);
    halted, soft, paged := RunBoth(tlb, mmu, ops, Machine(map[], -1, {}));
    if !halted {
      Protection(mmu.table, mmu.frames, mmu.base, mmu.pt);
      forall pid | TPos(pid, 2, 0) in mmu.pt.node
        ensures |Pt.TableFrames(mmu.pt, pid)| == 6
      {
        Pt.SixFrames(mmu.table, mmu.frames, mmu.base, mmu.pt, pid);
      }
    }
  }
}
