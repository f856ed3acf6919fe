/** The page-table mechanism of the memory management unit. */
module PtMmu {
  import opened Options
  import opened Pages
  import opened Sv39
  import opened PageTables

  const UART_PAGE := 0x2500
  const SMHC_PAGE := 0x4020

  /** Data in frames and existing tables stay where they are. */
  ghost predicate Kept(frames: seq<Frame>, pt: PtLayout, frames': seq<Frame>, pt': PtLayout) {
    && |frames| == |frames'| == |pt.role| == |pt'.role| == NFRAMES
    && pt'.dead == pt.dead
    && (forall t :: t in pt.node ==> t in pt'.node && pt'.node[t] == pt.node[t])
    && (forall f :: 0 <= f < NFRAMES && (pt.role[f].Data? || pt.role[f].Loose?) ==>
          pt'.role[f] == pt.role[f] && frames'[f] == frames[f])
  }

  /** From entry vpn0 on, table t has the entries of the pages from vpn on. */
  ghost predicate EntriesIn(t: TPos, pid: int, vpn: nat, vpn0: nat) {
    forall v: nat {:trigger TableOf(pid, v, 0)} :: vpn <= v < vpn + 512 - vpn0 ==>
      TableOf(pid, v, 0) == t && Index(v, 0) == vpn0 + v - vpn
  }

  /** The pages that every address space maps onto themselves. */
  predicate IsIdentityPage(pid: int, page: nat) {
    || page == UART_PAGE
    || SMHC_PAGE <= page < SMHC_PAGE + 3
    || (pid == 0 && MEM_PAGE <= page < MEM_PAGE + 512)
    || (pid != 0 && (MEM_PAGE <= page < APPS_PAGE || STACK_PAGE <= page < CACHE_PAGE))
    || (pid == 1 && CACHE_PAGE <= page < CACHE_PAGE + NFRAMES)
  }

  /** The tables of an address space: the root, and on the second level and below those for
      the devices and for memory. */
  function SixTables(pid: int): set<TPos> {
    {TPos(pid, 2, 0), TPos(pid, 1, 0), TPos(pid, 1, 1), TPos(pid, 0, 18), TPos(pid, 0, 32), TPos(pid, 0, 512)}
  }

  function ThreeTables(pid: int, vpn: nat): set<TPos> {
    {TableOf(pid, vpn, 2), TableOf(pid, vpn, 1), TableOf(pid, vpn, 0)}
  }

  /** Translations with the n pages from vpn on mapped onto themselves. */
  ghost function WithRegion(trans: map<VirtualPage, Entry>, pid: int, vpn: nat, n: nat): map<VirtualPage, Entry>
    requires vpn + n <= VPN_LIMIT
  {
    trans + map i {:trigger VirtualPage(pid, i)} | vpn <= i < vpn + n :: VirtualPage(pid, i) := System
  }

  /** The first n pages of a region have been entered. */
  ghost predicate RegionFilled(table: seq<FrameMapping>, frames: seq<Frame>, base: seq<nat>, pt: PtLayout,
                               frames1: seq<Frame>, pt1: PtLayout, pid: int, vpn: nat, n: nat)
  {
    && PtInv(table, frames, base, pt) && Kept(frames1, pt1, frames, pt)
    && vpn + n <= VPN_LIMIT && pt == pt1.(trans := WithRegion(pt1.trans, pid, vpn, n))
  }

  lemma RegionStart(trans: map<VirtualPage, Entry>, pid: int, vpn: nat)
    requires vpn <= VPN_LIMIT
    ensures WithRegion(trans, pid, vpn, 0) == trans
  {
  }

  lemma RegionStep(trans: map<VirtualPage, Entry>, pid: int, vpn: nat, n: nat)
    requires vpn + n + 1 <= VPN_LIMIT
    ensures WithRegion(trans, pid, vpn, n + 1) == WithRegion(trans, pid, vpn, n)[VirtualPage(pid, vpn + n) := System]
  {
    var m, m' := WithRegion(trans, pid, vpn, n), WithRegion(trans, pid, vpn, n + 1);
    forall k: VirtualPage
      ensures k in m' <==> k in m || k == VirtualPage(pid, vpn + n)
      ensures k in m' ==> m'[k] == if k == VirtualPage(pid, vpn + n) then System else m[k]
    {
      assert k == VirtualPage(k.pid, k.page);
    }
  }

  /** How many of some tables do not exist yet: of one, of those on the path to a page, and of
      those of an address space. */
  ghost function Lacking(node: map<TPos, nat>, t: TPos): nat {
    if t in node then 0 else 1
  }

  ghost function LackingThree(node: map<TPos, nat>, pid: int, vpn: nat): nat {
    Lacking(node, TableOf(pid, vpn, 2)) + Lacking(node, TableOf(pid, vpn, 1)) + Lacking(node, TableOf(pid, vpn, 0))
  }

  ghost function LackingFour(node: map<TPos, nat>, pid: int): nat {
    Lacking(node, TPos(pid, 2, 0)) + Lacking(node, TPos(pid, 1, 0)) + Lacking(node, TPos(pid, 0, 18)) + Lacking(node, TPos(pid, 0, 32))
  }

  ghost function LackingSix(node: map<TPos, nat>, pid: int): nat {
    LackingFour(node, pid) + Lacking(node, TPos(pid, 1, 1)) + Lacking(node, TPos(pid, 0, 512))
  }

  lemma LackingForDevices(node: map<TPos, nat>, node': map<TPos, nat>, pid: int)
    requires node'.Keys == node.Keys + ThreeTables(pid, UART_PAGE)
    ensures LackingThree(node, pid, UART_PAGE) + LackingThree(node', pid, SMHC_PAGE) == LackingFour(node, pid)
  {
    assert forall t :: t in node' <==> t in node || t in ThreeTables(pid, UART_PAGE);
  }

  lemma LackingForMemory(node: map<TPos, nat>, node': map<TPos, nat>, pid: int)
    requires node'.Keys == node.Keys + ThreeTables(pid, UART_PAGE) + ThreeTables(pid, SMHC_PAGE)
    ensures LackingFour(node, pid) + LackingThree(node', pid, MEM_PAGE) == LackingSix(node, pid)
  {
    assert forall t :: t in node' <==> t in node || t in ThreeTables(pid, UART_PAGE) || t in ThreeTables(pid, SMHC_PAGE);
  }

  /** How many tables a mapping of the page has to set up: on a first mapping those of the
      address space, and in any case those on the path to the page. */
  ghost function LackingFor(node: map<TPos, nat>, pid: int, page: nat): nat {
    if TPos(pid, 2, 0) in node then LackingThree(node, pid, page)
    else LackingSix(node, pid) + LackingBesides(node, TableOf(pid, page, 1)) + LackingBesides(node, TableOf(pid, page, 0))
  }

  ghost function LackingBesides(node: map<TPos, nat>, t: TPos): nat {
    if t in node || t in SixTables(t.pid) then 0 else 1
  }

  lemma LackingForPage(node: map<TPos, nat>, node': map<TPos, nat>, pid: int, page: nat)
    requires TPos(pid, 2, 0) !in node && node'.Keys == node.Keys + SixTables(pid)
    ensures LackingFor(node, pid, page) == LackingSix(node, pid) + LackingThree(node', pid, page)
  {
    assert forall t :: t in node' <==> t in node || t in SixTables(pid);
  }

  /** The tables that must exist for a page to be mapped. */
  ghost function TablesFor(pt: PtLayout, pid: int, page: nat): set<TPos> {
    ThreeTables(pid, page) + if TPos(pid, 2, 0) in pt.node then {} else SixTables(pid)
  }

  lemma NoneLacking(node: map<TPos, nat>, pid: int, vpn: nat)
    requires ThreeTables(pid, vpn) <= node.Keys
    ensures LackingThree(node, pid, vpn) == 0
  {
    assert TableOf(pid, vpn, 2) in node.Keys && TableOf(pid, vpn, 1) in node.Keys && TableOf(pid, vpn, 0) in node.Keys;
  }

  /** The selected root is that of the process, if it has one. */
  ghost predicate Selects(satp: U64, pt: PtLayout, pid: int) {
    TPos(pid, 2, 0) in pt.node && pt.node[TPos(pid, 2, 0)] < NFRAMES ==> satp == MakeSatp(FrameAddr(pt.node[TPos(pid, 2, 0)]))
  }

  class PtMmu {
    var table: seq<FrameMapping>
    var frames: seq<Frame>
    var base: seq<nat>
    var currVmPid: int
    var satp: U64
    ghost var pt: PtLayout

    ghost predicate Valid()
      reads this
    {
      PtInv(table, frames, base, pt)
    }

    ghost predicate Selected()
      reads this
    {
      Selects(satp, pt, currVmPid)
    }

    ghost function FreeCount(): nat
      reads this`table
    {
      |UnusedFrames(table)|
    }

    constructor (frames: seq<Frame>)
      requires |frames| == NFRAMES
      ensures Valid() && pt.node == map[] && pt.trans == map[] && pt.dead == {} && currVmPid == -1
      ensures forall f :: 0 <= f < NFRAMES ==> pt.role[f] == Unused && !table[f].use
    {
      table := seq(NFRAMES, _ => FrameMapping(false, 0, 0));
      this.frames := frames;
      base := seq(NPIDS, _ => 0);
      currVmPid, satp := -1, 0;
      pt := PtLayout(seq(NFRAMES, _ => Unused), map[], map[], {});
    }

    /** mmu_alloc: the first frame not in use; None is the fatal end. */
    method Alloc() returns (r: Option<nat>)
      requires Valid()
      modifies this`table, this`pt
      ensures r.None? <==> forall f :: 0 <= f < NFRAMES ==> old(pt).role[f] != Unused
      ensures r.Some? ==> r.value < NFRAMES && old(pt).role[r.value] == Unused
      ensures r.Some? ==> forall f :: 0 <= f < r.value ==> old(pt).role[f] != Unused
      ensures r.Some? ==> Valid() && pt == old(pt).(role := old(pt).role[r.value := Loose])
      ensures r.Some? <==> old(FreeCount()) > 0
      ensures r.Some? ==> FreeCount() == old(FreeCount()) - 1
    {
      var i := 0;
      while i < NFRAMES
        invariant 0 <= i <= NFRAMES && unchanged(this)
        invariant forall f :: 0 <= f < i ==> pt.role[f] != Unused && table[f].use
      {
        assert RoleOk(table, pt, i);
        if !table[i].use {
          AllocStep(table, frames, base, pt, i);
          UseFrame(table, i);
          table := table[i := table[i].(use := true)];
          pt := pt.(role := pt.role[i := Loose]);
          return Some(i);
        }
        i := i + 1;
      }
      AllInUse(table);
      return None;
    }

    /** The start of walk_page_tables: the root table, set up if the process has none. */
    method RootTable(pid: int) returns (r: Option<nat>)
      requires Valid() && 0 <= pid < NPIDS && pid !in pt.dead
      modifies this`table, this`frames, this`base, this`pt
      ensures r.Some? ==> Valid() && Kept(old(frames), old(pt), frames, pt) && pt.trans == old(pt).trans
      ensures r.Some? ==> pt.node.Keys == old(pt).node.Keys + {TPos(pid, 2, 0)} && pt.node[TPos(pid, 2, 0)] == r.value
      ensures r.Some? <==> Lacking(old(pt).node, TPos(pid, 2, 0)) <= old(FreeCount())
      ensures r.Some? ==> FreeCount() == old(FreeCount()) - Lacking(old(pt).node, TPos(pid, 2, 0))
    {
      ghost var t := TPos(pid, 2, 0);
      if base[pid] == 0 {
        assert t in pt.node ==> NodeOk(frames, base, pt, t);
        r := Alloc();
        if r.None? {
          return;
        }
        AddStep(table, frames, base, pt, t, r.value);
        OwnFrame(table, r.value, pid);
        table := table[r.value := table[r.value].(pid := pid)];
        frames := frames[r.value := ZeroFrame()];
        base := base[pid := FrameAddr(r.value)];
        pt := Added(pt, t, r.value);
      } else {
        assert t in pt.node;
        assert NodeOk(frames, base, pt, t);
        r := Some(FrameAt(base[pid]));
      }
    }

    /** One level of walk_page_tables: follow the entry of the table in frame f, or set up an
        empty table for it. */
    method NextTable(f: nat, pid: int, vpn: nat, level: nat) returns (r: Option<nat>)
      requires Valid() && 0 <= pid < NPIDS && pid !in pt.dead && vpn < VPN_LIMIT && 1 <= level <= 2
      requires TableOf(pid, vpn, level) in pt.node && pt.node[TableOf(pid, vpn, level)] == f
      modifies this`table, this`frames, this`pt
      ensures r.Some? ==> Valid() && Kept(old(frames), old(pt), frames, pt) && pt.trans == old(pt).trans
      ensures r.Some? ==> pt.node.Keys == old(pt).node.Keys + {TableOf(pid, vpn, level - 1)}
      ensures r.Some? ==> pt.node[TableOf(pid, vpn, level - 1)] == r.value
      ensures r.Some? <==> Lacking(old(pt).node, TableOf(pid, vpn, level - 1)) <= old(FreeCount())
      ensures r.Some? ==> FreeCount() == old(FreeCount()) - Lacking(old(pt).node, TableOf(pid, vpn, level - 1))
    {
      assert NodeOk(frames, base, pt, TableOf(pid, vpn, level));
      EntryOfTable(table, frames, base, pt, pid, vpn, level);
      var pte := frames[f][Index(vpn, level)];
      if V(pte) {
        r := Some(FrameAt(PteGetPa(pte)));
      } else {
        r := NewTable(f, pid, vpn, level);
      }
    }

    /** An empty table for the entry of the table in frame f. */
    method NewTable(f: nat, pid: int, vpn: nat, level: nat) returns (r: Option<nat>)
      requires Valid() && 0 <= pid < NPIDS && pid !in pt.dead && vpn < VPN_LIMIT && 1 <= level <= 2
      requires TableOf(pid, vpn, level) in pt.node && pt.node[TableOf(pid, vpn, level)] == f
      requires TableOf(pid, vpn, level - 1) !in pt.node
      modifies this`table, this`frames, this`pt
      ensures r.Some? ==> Valid() && Kept(old(frames), old(pt), frames, pt) && pt.trans == old(pt).trans
      ensures r.Some? ==> pt.node == old(pt).node[TableOf(pid, vpn, level - 1) := r.value]
      ensures r.Some? <==> 1 <= old(FreeCount())
      ensures r.Some? ==> FreeCount() == old(FreeCount()) - 1
    {
      ghost var c := TableOf(pid, vpn, level - 1);
      TableSteps(VirtualPage(pid, vpn), level - 1);
      assert NodeOk(frames, base, pt, TableOf(pid, vpn, level));
      r := Alloc();
      if r.None? {
        return;
      }
      AddStep(table, frames, base, pt, c, r.value);
      OwnFrame(table, r.value, pid);
      EntriesAreEncoded(r.value, 0, 0);
      table := table[r.value := table[r.value].(pid := pid)];
      frames := frames[r.value := ZeroFrame()];
      frames := frames[f := frames[f][Index(vpn, level) := WithFlags(PaToPte(FrameAddr(r.value)), PTE_V)]];
      pt := Added(pt, c, r.value);
    }

    /** walk_page_tables: the leaf table for a page, with all tables on the way. */
    method WalkPageTables(pid: int, vpn: nat) returns (r: Option<nat>)
      requires Valid() && 0 <= pid < NPIDS && pid !in pt.dead && vpn < VPN_LIMIT
      modifies this`table, this`frames, this`base, this`pt
      ensures r.Some? ==> Valid() && Kept(old(frames), old(pt), frames, pt) && pt.trans == old(pt).trans
      ensures r.Some? ==> pt.node.Keys == old(pt).node.Keys + ThreeTables(pid, vpn)
      ensures r.Some? ==> pt.node[TableOf(pid, vpn, 0)] == r.value < NFRAMES
      ensures r.Some? <==> LackingThree(old(pt).node, pid, vpn) <= old(FreeCount())
      ensures r.Some? ==> FreeCount() == old(FreeCount()) - LackingThree(old(pt).node, pid, vpn)
    {
      r := RootTable(pid);
      if r.Some? {
        r := NextTable(r.value, pid, vpn, 2);
      }
      if r.Some? {
        r := NextTable(r.value, pid, vpn, 1);
      }
      if r.Some? {
        assert NodeOk(frames, base, pt, TableOf(pid, vpn, 0));
      }
    }

    /** Entering a leaf entry for a physical page into its table. */
    method SetLeaf(leaf: nat, vpn: nat, ppn: nat, flags: nat, ghost pid: int, ghost e: Entry)
      requires Valid() && vpn < VPN_LIMIT && ppn < PPN_LIMIT && flags < 1024
      requires TableOf(pid, vpn, 0) in pt.node && pt.node[TableOf(pid, vpn, 0)] == leaf
      requires LeafAllowed(pt, e) && LeafPte(ppn, flags) == Encode(vpn, e)
      modifies this`frames, this`pt
      ensures Valid() && pt == Entered(old(pt), VirtualPage(pid, vpn), e)
      ensures leaf < NFRAMES && forall f :: 0 <= f < NFRAMES && f != leaf ==> frames[f] == old(frames)[f]
    {
      EntriesAreEncoded(0, ppn, flags);
      LeafStep(table, frames, base, pt, VirtualPage(pid, vpn), e);
      frames := frames[leaf := frames[leaf][Index(vpn, 0) := WithFlags(PaToPte(ppn * 4096), flags)]];
      pt := Entered(pt, VirtualPage(pid, vpn), e);
    }

    /** setup_identity_region: maps pages of one leaf table onto themselves; false is the fatal
        end, out of frames or past the end of the table. */
    method SetupIdentityRegion(pid: int, vpn: nat, npages: nat) returns (ok: bool)
      requires Valid() && 0 <= pid < NPIDS && pid !in pt.dead && vpn + npages <= VPN_LIMIT && vpn < VPN_LIMIT
      modifies this`table, this`frames, this`base, this`pt
      ensures ok ==> Valid() && Kept(old(frames), old(pt), frames, pt)
      ensures ok ==> pt.node.Keys == old(pt).node.Keys + ThreeTables(pid, vpn)
      ensures ok ==> pt.trans == WithRegion(old(pt).trans, pid, vpn, npages)
      ensures ok <==> LackingThree(old(pt).node, pid, vpn) <= old(FreeCount())
                      && Index(vpn, 0) + npages <= 512
      ensures ok ==> FreeCount() == old(FreeCount()) - LackingThree(old(pt).node, pid, vpn)
    {
      var leaf := WalkPageTables(pid, vpn);
      if leaf.None? {
        return false;
      }
      RegionStart(pt.trans, pid, vpn);
      ok := FillRegion(leaf.value, pid, vpn, Index(vpn, 0), npages, TableOf(pid, vpn, 0));
    }

    /** The loop of setup_identity_region; vpn0 is the index of the first entry in table t. */
    method FillRegion(leaf: nat, ghost pid: int, vpn: nat, vpn0: nat, npages: nat, ghost t: TPos) returns (ok: bool)
      requires Filled(frames, pt, pid, vpn, 0) && vpn + npages <= VPN_LIMIT && EntriesIn(t, pid, vpn, vpn0)
      requires t in pt.node && pt.node[t] == leaf && vpn0 < 512
      modifies this`frames, this`pt
      ensures ok <==> vpn0 + npages <= 512
      ensures ok ==> Filled(old(frames), old(pt), pid, vpn, npages)
    {
      ghost var frames1, pt1 := frames, pt;
      for i := 0 to npages
        invariant vpn0 + i <= 512 && Filled(frames1, pt1, pid, vpn, i)
      {
        if vpn0 + i > 511 {
          return false;
        }
        IdentityLeaf(leaf, pid, vpn, vpn0, i, t, frames1, pt1);
      }
      return true;
    }

    ghost predicate Filled(frames1: seq<Frame>, pt1: PtLayout, pid: int, vpn: nat, n: nat)
      reads this
    {
      RegionFilled(table, frames, base, pt, frames1, pt1, pid, vpn, n)
    }

    /** One round of it. */
    method IdentityLeaf(leaf: nat, ghost pid: int, vpn: nat, vpn0: nat, i: nat, ghost t: TPos,
                        ghost frames1: seq<Frame>, ghost pt1: PtLayout)
      requires vpn + i < VPN_LIMIT && EntriesIn(t, pid, vpn, vpn0) && vpn0 + i <= 511
      requires t in pt1.node && pt1.node[t] == leaf && Filled(frames1, pt1, pid, vpn, i)
      modifies this`frames, this`pt
      ensures Filled(frames1, pt1, pid, vpn, i + 1)
    {
      RegionStep(pt1.trans, pid, vpn, i);
      assert TableOf(pid, vpn + i, 0) == t;
      assert NodeOk(frames, base, pt, t);
      SetLeaf(leaf, vpn + i, vpn + i, PTE_A + PTE_D + OS_XWRV, pid, System);
    }

    /** pagetable_identity_mapping: devices, and memory as far as the process may see it. */
    method IdentityMapping(pid: int) returns (ok: bool)
      requires Valid() && 0 <= pid < NPIDS && pid !in pt.dead
      modifies this`table, this`frames, this`base, this`pt
      ensures ok ==> Valid() && Kept(old(frames), old(pt), frames, pt)
      ensures ok ==> pt.node.Keys == old(pt).node.Keys + SixTables(pid)
      ensures ok ==> pt.trans == WithIdentity(old(pt).trans, pid)
      ensures ok <==> LackingSix(old(pt).node, pid) <= old(FreeCount())
      ensures ok ==> FreeCount() == old(FreeCount()) - LackingSix(old(pt).node, pid)
    {
      SixAreThreeTimesThree(pid);
      ok := SetupDeviceRegions(pid);
      if ok {
        LackingForMemory(old(pt).node, pt.node, pid);
        if pid == 0 {
          ok := SetupIdentityRegion(pid, MEM_PAGE, 512);
        } else {
          ok := SetupMemoryRegions(pid);
        }
      }
    }

    /** UART0 and SMHC0. */
    method SetupDeviceRegions(pid: int) returns (ok: bool)
      requires Valid() && 0 <= pid < NPIDS && pid !in pt.dead
      modifies this`table, this`frames, this`base, this`pt
      ensures ok ==> Valid() && Kept(old(frames), old(pt), frames, pt)
      ensures ok ==> pt.node.Keys == old(pt).node.Keys + ThreeTables(pid, UART_PAGE) + ThreeTables(pid, SMHC_PAGE)
      ensures ok ==> pt.trans == WithRegion(WithRegion(old(pt).trans, pid, UART_PAGE, 1), pid, SMHC_PAGE, 3)
      ensures ok <==> LackingFour(old(pt).node, pid) <= old(FreeCount())
      ensures ok ==> FreeCount() == old(FreeCount()) - LackingFour(old(pt).node, pid)
    {
      ok := SetupIdentityRegion(pid, UART_PAGE, 1);
      if ok {
        LackingForDevices(old(pt).node, pt.node, pid);
        ok := SetupIdentityRegion(pid, SMHC_PAGE, 3);
      }
    }

    method SetupMemoryRegions(pid: int) returns (ok: bool)
      requires Valid() && 0 < pid < NPIDS && pid !in pt.dead
      modifies this`table, this`frames, this`base, this`pt
      ensures ok ==> Valid() && Kept(old(frames), old(pt), frames, pt)
      ensures ok ==> pt.node.Keys == old(pt).node.Keys + ThreeTables(pid, MEM_PAGE)
      ensures ok ==> pt.trans == WithKernel(WithSystem(old(pt).trans, pid), pid)
      ensures ok <==> LackingThree(old(pt).node, pid, MEM_PAGE) <= old(FreeCount())
      ensures ok ==> FreeCount() == old(FreeCount()) - LackingThree(old(pt).node, pid, MEM_PAGE)
    {
      ok := SetupSystemRegions(pid);
      if ok {
        NoneLacking(pt.node, pid, MEM_PAGE);
        ok := SetupKernelRegions(pid);
      }
    }

    /** The code and data of earth and grass. */
    method SetupSystemRegions(pid: int) returns (ok: bool)
      requires Valid() && 0 < pid < NPIDS && pid !in pt.dead
      modifies this`table, this`frames, this`base, this`pt
      ensures ok ==> Valid() && Kept(old(frames), old(pt), frames, pt)
      ensures ok ==> pt.node.Keys == old(pt).node.Keys + ThreeTables(pid, MEM_PAGE)
      ensures ok ==> pt.trans == WithSystem(old(pt).trans, pid)
      ensures ok <==> LackingThree(old(pt).node, pid, MEM_PAGE) <= old(FreeCount())
      ensures ok ==> FreeCount() == old(FreeCount()) - LackingThree(old(pt).node, pid, MEM_PAGE)
    {
      MemoryTables(pid);
      ok := SetupIdentityRegion(pid, MEM_PAGE, 36);
      if ok {
        NoneLacking(pt.node, pid, GRASS_PAGE);
        ok := SetupIdentityRegion(pid, GRASS_PAGE, 3);
      }
    }

    /** Their stack and interfaces, and the frame cache for the process that loads others. */
    method SetupKernelRegions(pid: int) returns (ok: bool)
      requires Valid() && 0 < pid < NPIDS && pid !in pt.dead
      modifies this`table, this`frames, this`base, this`pt
      ensures ok ==> Valid() && Kept(old(frames), old(pt), frames, pt)
      ensures ok ==> pt.node.Keys == old(pt).node.Keys + ThreeTables(pid, MEM_PAGE)
      ensures ok ==> pt.trans == WithKernel(old(pt).trans, pid)
      ensures ok <==> LackingThree(old(pt).node, pid, MEM_PAGE) <= old(FreeCount())
      ensures ok ==> FreeCount() == old(FreeCount()) - LackingThree(old(pt).node, pid, MEM_PAGE)
    {
      MemoryTables(pid);
      ok := SetupIdentityRegion(pid, STACK_PAGE, 2);
      if ok {
        NoneLacking(pt.node, pid, INTERFACE_PAGE);
        ok := SetupIdentityRegion(pid, INTERFACE_PAGE, 1);
      }
      if ok && pid == 1 {
        NoneLacking(pt.node, pid, CACHE_PAGE);
        ok := SetupIdentityRegion(pid, CACHE_PAGE, 256);
      }
    }

    /** The start of page_table_map: identity mappings for an address space without a root. */
    method IdentityIfNew(pid: int, ghost page: nat) returns (ok: bool)
      requires Valid() && 0 <= pid < NPIDS && pid !in pt.dead
      modifies this`table, this`frames, this`base, this`pt
      ensures ok ==> Valid() && Kept(old(frames), old(pt), frames, pt) && pt.trans == WithRoot(old(pt), pid)
      ensures ok ==> pt.node.Keys == old(pt).node.Keys + if TPos(pid, 2, 0) in old(pt).node then {} else SixTables(pid)
      ensures !ok ==> old(FreeCount()) < LackingFor(old(pt).node, pid, page)
      ensures ok ==> FreeCount() - LackingThree(pt.node, pid, page) == old(FreeCount()) - LackingFor(old(pt).node, pid, page)
    {
      assert TPos(pid, 2, 0) in pt.node ==> NodeOk(frames, base, pt, TPos(pid, 2, 0));
      ok := true;
      if base[pid] == 0 {
        ok := IdentityMapping(pid);
        if ok {
          LackingForPage(old(pt).node, pt.node, pid, page);
        }
      }
    }

    /** page_table_map: the page goes to the frame, with its first call an address space also
        gets its identity mappings, and no other translation of any live process changes. */
    method Map(pid: int, pageNo: nat, frame: nat) returns (ok: bool)
      requires Valid() && 0 <= pid && pid !in pt.dead && pageNo < VPN_LIMIT
      requires frame < NFRAMES && pt.role[frame] == Loose
      modifies this`table, this`frames, this`base, this`pt
      ensures ok ==> pid < NPIDS && Valid() && pt.dead == old(pt).dead
      ensures ok ==> MapEffect(old(pt), pt.trans, VirtualPage(pid, pageNo), frame)
      ensures ok ==> pt.node.Keys == old(pt).node.Keys + TablesFor(old(pt), pid, pageNo)
      ensures ok <==> pid < NPIDS && LackingFor(old(pt).node, pid, pageNo) <= old(FreeCount())
      ensures ok ==> FreeCount() == old(FreeCount()) - LackingFor(old(pt).node, pid, pageNo)
      ensures ok ==> forall t :: t in old(pt).node ==> pt.node[t] == old(pt).node[t]
      ensures ok ==> pt.role[frame] == Data(VirtualPage(pid, pageNo)) && frames[frame] == old(frames)[frame]
      ensures ok ==> forall f :: 0 <= f < NFRAMES && f != frame && (old(pt).role[f].Data? || old(pt).role[f].Loose?) ==>
                pt.role[f] == old(pt).role[f] && frames[f] == old(frames)[f]
    {
      if pid >= NPIDS {
        return false;
      }
      ok := IdentityIfNew(pid, pageNo);
      if !ok {
        return;
      }
      var leaf := WalkPageTables(pid, pageNo);
      if leaf.None? {
        return false;
      }
      assert NodeOk(frames, base, pt, TableOf(pid, pageNo, 0));
      SetLeaf(leaf.value, pageNo, CACHE_PAGE + frame, PTE_A + PTE_D + USER_XWRV, pid, User(frame));
      MapEffectHolds(old(pt), pt.trans, VirtualPage(pid, pageNo), frame);
      return true;
    }

    /** mmu_free: exactly the frames of the process's tables come back; its data frames do not. */
    method Free(pid: int)
      requires Valid() && pid > 0
      modifies this`table, this`pt
      ensures Valid() && pt == Removed(old(pt), pid)
      ensures UnusedFrames(table) == old(UnusedFrames(table)) + TableFrames(old(pt), pid)
      ensures forall f :: f in TableFrames(old(pt), pid) ==> 0 <= f < NFRAMES && old(table)[f].use
      ensures old(Selected()) ==> Selected()
    {
      var i := 0;
      while i < NFRAMES
        invariant 0 <= i <= NFRAMES && |table| == NFRAMES && pt == old(pt)
        invariant forall f :: 0 <= f < NFRAMES ==>
          table[f] == if f < i && old(table[f].use && table[f].pid == pid) then FrameMapping(false, 0, 0) else old(table[f])
      {
        if table[i].use && table[i].pid == pid {
          table := table[i := FrameMapping(false, 0, 0)];
        }
        i := i + 1;
      }
      RemoveStep(old(table), table, frames, base, pt, pid);
      FramesFreed(old(table), table, frames, base, pt, pid);
      pt := Removed(pt, pid);
    }

    /** page_table_switch: afterwards the hardware translates with the tables of the process. */
    method Switch(pid: int)
      requires Valid() && Selected() && 0 <= pid < NPIDS && pid !in pt.dead
      modifies this`currVmPid, this`satp
      ensures Valid() && Selected() && currVmPid == pid
    {
      if pid == currVmPid {
        return;
      }
      assert TPos(pid, 2, 0) in pt.node ==> NodeOk(frames, base, pt, TPos(pid, 2, 0));
      satp := MakeSatp(base[pid]);
      currVmPid := pid;
    }

    /** mmu_init for page tables: the identity mappings of the system are selected. */
    method Init() returns (ok: bool)
      requires Valid() && 0 !in pt.dead
      modifies this`table, this`frames, this`base, this`pt, this`satp
      ensures ok <==> LackingSix(old(pt).node, 0) <= old(FreeCount())
      ensures ok ==> Valid() && Selects(satp, pt, 0) && pt.node.Keys == old(pt).node.Keys + SixTables(0)
      ensures ok ==> pt.trans == WithIdentity(old(pt).trans, 0) && pt.dead == old(pt).dead
      ensures ok ==> FreeCount() == old(FreeCount()) - LackingSix(old(pt).node, 0)
    {
      ok := IdentityMapping(0);
      if ok {
        assert NodeOk(frames, base, pt, TPos(0, 2, 0));
        satp := MakeSatp(base[0]);
      }
    }

    /** The private memories of all live processes: the frames behind their user pages. */
    ghost function Spaces(): map<VirtualPage, Frame>
      requires Valid()
      reads this
    {
      SpacesOf(frames, pt)
    }

    /** A load of a user page by the running process, through the page tables. */
    method Load(pageNo: nat) returns (content: Frame)
      requires Valid() && Selected() && VirtualPage(currVmPid, pageNo) in Spaces()
      ensures content == Spaces()[VirtualPage(currVmPid, pageNo)]
    {
      UserAccess(table, frames, base, pt, satp, VirtualPage(currVmPid, pageNo));
      var leaf := Walk(frames, FrameAt(SatpRoot(satp)), pageNo, 2);
      content := frames[FrameAt(PteGetPa(leaf.pte))];
    }

    /** A store to a user page by the running process, through the page tables. */
    method Store(pageNo: nat, content: Frame)
      requires Valid() && Selected() && VirtualPage(currVmPid, pageNo) in Spaces()
      modifies this`frames
      ensures Valid() && Spaces() == old(Spaces())[VirtualPage(currVmPid, pageNo) := content]
    {
      ghost var k := VirtualPage(currVmPid, pageNo);
      UserAccess(table, frames, base, pt, satp, k);
      var leaf := Walk(frames, FrameAt(SatpRoot(satp)), pageNo, 2);
      StoreSpaces(table, frames, base, pt, k, content);
      frames := frames[FrameAt(PteGetPa(leaf.pte)) := content];
    }

    /** Writing into a frame through its address in the frame cache. */
    method Fill(frame: nat, content: Frame)
      requires Valid() && frame < NFRAMES && (pt.role[frame].Data? || pt.role[frame].Loose?)
      modifies this`frames
      ensures Valid() && frames == old(frames)[frame := content]
    {
      StoreStep(table, frames, base, pt, frame, content);
      frames := frames[frame := content];
    }
  }

  /** The entry for the next table is valid exactly if that table exists, and then points to it. */
  lemma EntryOfTable(table: seq<FrameMapping>, frames: seq<Frame>, base: seq<nat>, pt: PtLayout, pid: int, vpn: nat, level: nat)
    requires PtInv(table, frames, base, pt) && vpn < VPN_LIMIT && 1 <= level <= 2
    requires TableOf(pid, vpn, level) in pt.node && pt.node[TableOf(pid, vpn, level)] < NFRAMES
    ensures var pte, c := frames[pt.node[TableOf(pid, vpn, level)]][Index(vpn, level)], TableOf(pid, vpn, level - 1);
      && (V(pte) <==> c in pt.node)
      && (V(pte) ==> IsFrameAddr(PteGetPa(pte)) && FrameAt(PteGetPa(pte)) == pt.node[c])
  {
    var t, c := TableOf(pid, vpn, level), TableOf(pid, vpn, level - 1);
    assert NodeOk(frames, base, pt, t);
    TableSteps(VirtualPage(pid, vpn), level);
    assert frames[pt.node[t]][Index(vpn, level)] == TableEntry(pt.node, c);
    if c in pt.node {
      assert NodeOk(frames, base, pt, c);
      TableTarget(pt.node[c]);
      FrameRoundTrip(pt.node[c]);
    }
  }

  lemma SixAreThreeTimesThree(pid: int)
    ensures ThreeTables(pid, UART_PAGE) + ThreeTables(pid, SMHC_PAGE) + ThreeTables(pid, MEM_PAGE) == SixTables(pid)
  {
  }

  lemma MemoryTables(pid: int)
    ensures ThreeTables(pid, GRASS_PAGE) == ThreeTables(pid, STACK_PAGE) == ThreeTables(pid, INTERFACE_PAGE)
         == ThreeTables(pid, CACHE_PAGE) == ThreeTables(pid, MEM_PAGE)
  {
  }

  ghost function WithSystem(trans: map<VirtualPage, Entry>, pid: int): map<VirtualPage, Entry> {
    WithRegion(WithRegion(trans, pid, MEM_PAGE, 36), pid, GRASS_PAGE, 3)
  }

  ghost function WithKernel(trans: map<VirtualPage, Entry>, pid: int): map<VirtualPage, Entry> {
    var own := WithRegion(WithRegion(trans, pid, STACK_PAGE, 2), pid, INTERFACE_PAGE, 1);
    if pid == 1 then WithRegion(own, pid, CACHE_PAGE, 256) else own
  }

  ghost function WithIdentity(trans: map<VirtualPage, Entry>, pid: int): map<VirtualPage, Entry> {
    var devices := WithRegion(WithRegion(trans, pid, UART_PAGE, 1), pid, SMHC_PAGE, 3);
    if pid == 0 then WithRegion(devices, pid, MEM_PAGE, 512) else WithKernel(WithSystem(devices, pid), pid)
  }

  /** The translations once the address space of pid has its identity mappings. */
  ghost function WithRoot(pt: PtLayout, pid: int): map<VirtualPage, Entry> {
    if TPos(pid, 2, 0) in pt.node then pt.trans else WithIdentity(pt.trans, pid)
  }

  /** What mapping page k to a frame does to the translation of a page j: k goes to the frame,
      and only a first mapping adds anything else, the identity mappings of that process. */
  ghost predicate MapAt(pt: PtLayout, trans: map<VirtualPage, Entry>, k: VirtualPage, frame: nat, j: VirtualPage) {
    if j == k then j in trans && trans[j] == User(frame)
    else AddedAt(pt.trans, trans, j, TPos(k.pid, 2, 0) !in pt.node && j.pid == k.pid && IsIdentityPage(k.pid, j.page))
  }

  ghost predicate MapEffect(pt: PtLayout, trans: map<VirtualPage, Entry>, k: VirtualPage, frame: nat) {
    forall j {:trigger MapAt(pt, trans, k, frame, j)} :: MapAt(pt, trans, k, frame, j)
  }

  lemma MapEffectHolds(pt: PtLayout, trans: map<VirtualPage, Entry>, k: VirtualPage, frame: nat)
    requires trans == WithRoot(pt, k.pid)[k := User(frame)]
    ensures MapEffect(pt, trans, k, frame)
  {
    forall j
      ensures MapAt(pt, trans, k, frame, j)
    {
      IdentityAt(pt.trans, k.pid, j);
    }
  }

  // ------------------------------------------------------- hardware translation

  /** What the hardware makes of a virtual page of a process, given memory and root pointers. */
  function HwTranslate(frames: seq<Frame>, base: seq<nat>, k: VirtualPage): Translation
    requires |frames| == NFRAMES && |base| == NPIDS && 0 <= k.pid < NPIDS
  {
    if IsFrameAddr(base[k.pid]) then Walk(frames, FrameAt(base[k.pid]), k.page, 2) else Fault
  }

  /** For live processes the hardware translates exactly as recorded, so the effect of every
      operation on the record is its effect on translation. */
  lemma HardwareAgrees(table: seq<FrameMapping>, frames: seq<Frame>, base: seq<nat>, pt: PtLayout, k: VirtualPage)
    requires PtInv(table, frames, base, pt) && k.page < VPN_LIMIT && 0 <= k.pid < NPIDS && k.pid !in pt.dead
    ensures HwTranslate(frames, base, k) == if k in pt.trans then Leaf(Encode(k.page, pt.trans[k]), 0) else Fault
  {
    var root := TPos(k.pid, 2, 0);
    assert TableOf(k.pid, k.page, 2) == root;
    if root in pt.node {
      assert NodeOk(frames, base, pt, root);
      FrameRoundTrip(pt.node[root]);
      WalkFinds(table, frames, base, pt, k, 2);
    } else if k in pt.trans {
      NoTableNoPage(table, frames, base, pt, k, 2);
    }
  }

  /** trans' is trans with the page k, if it is among those added, mapped onto itself. */
  ghost predicate AddedAt(trans: map<VirtualPage, Entry>, trans': map<VirtualPage, Entry>, k: VirtualPage, added: bool) {
    && (k in trans' <==> k in trans || added)
    && (added ==> trans'[k] == System)
    && (k in trans && !added ==> trans'[k] == trans[k])
  }

  lemma RegionAt(trans: map<VirtualPage, Entry>, pid: int, vpn: nat, n: nat, k: VirtualPage)
    requires vpn + n <= VPN_LIMIT
    ensures AddedAt(trans, WithRegion(trans, pid, vpn, n), k, k.pid == pid && vpn <= k.page < vpn + n)
  {
    assert k == VirtualPage(k.pid, k.page);
  }

  lemma AddedTwice(t0: map<VirtualPage, Entry>, t1: map<VirtualPage, Entry>, t2: map<VirtualPage, Entry>,
                   k: VirtualPage, first: bool, second: bool)
    requires AddedAt(t0, t1, k, first) && AddedAt(t1, t2, k, second)
    ensures AddedAt(t0, t2, k, first || second)
  {
  }

  lemma TwoRegionsAt(trans: map<VirtualPage, Entry>, pid: int, v1: nat, n1: nat, v2: nat, n2: nat, k: VirtualPage)
    requires v1 + n1 <= VPN_LIMIT && v2 + n2 <= VPN_LIMIT
    ensures AddedAt(trans, WithRegion(WithRegion(trans, pid, v1, n1), pid, v2, n2), k,
                    k.pid == pid && (v1 <= k.page < v1 + n1 || v2 <= k.page < v2 + n2))
  {
    var t1 := WithRegion(trans, pid, v1, n1);
    RegionAt(trans, pid, v1, n1, k);
    RegionAt(t1, pid, v2, n2, k);
    AddedTwice(trans, t1, WithRegion(t1, pid, v2, n2), k,
               k.pid == pid && v1 <= k.page < v1 + n1, k.pid == pid && v2 <= k.page < v2 + n2);
  }

  lemma KernelAt(trans: map<VirtualPage, Entry>, pid: int, k: VirtualPage)
    ensures AddedAt(trans, WithKernel(trans, pid), k,
                    k.pid == pid && (STACK_PAGE <= k.page < CACHE_PAGE || (pid == 1 && CACHE_PAGE <= k.page < CACHE_PAGE + NFRAMES)))
  {
    var own := WithRegion(WithRegion(trans, pid, STACK_PAGE, 2), pid, INTERFACE_PAGE, 1);
    var isOwn := k.pid == pid && STACK_PAGE <= k.page < CACHE_PAGE;
    TwoRegionsAt(trans, pid, STACK_PAGE, 2, INTERFACE_PAGE, 1, k);
    if pid == 1 {
      RegionAt(own, pid, CACHE_PAGE, 256, k);
      AddedTwice(trans, own, WithRegion(own, pid, CACHE_PAGE, 256), k,
                 isOwn, k.pid == pid && CACHE_PAGE <= k.page < CACHE_PAGE + 256);
    }
  }

  /** Which pages an address space gets with its identity mappings: onto themselves, without
      the user bit, and nothing else changes. */
  lemma IdentityAt(trans: map<VirtualPage, Entry>, pid: int, k: VirtualPage)
    ensures AddedAt(trans, WithIdentity(trans, pid), k, k.pid == pid && IsIdentityPage(pid, k.page))
  {
    var devices := WithRegion(WithRegion(trans, pid, UART_PAGE, 1), pid, SMHC_PAGE, 3);
    var isDevice := k.pid == pid && (k.page == UART_PAGE || SMHC_PAGE <= k.page < SMHC_PAGE + 3);
    TwoRegionsAt(trans, pid, UART_PAGE, 1, SMHC_PAGE, 3, k);
    if pid == 0 {
      RegionAt(devices, pid, MEM_PAGE, 512, k);
      AddedTwice(trans, devices, WithIdentity(trans, pid), k, isDevice, k.pid == pid && MEM_PAGE <= k.page < MEM_PAGE + 512);
    } else {
      var system := WithSystem(devices, pid);
      var isSystem := k.pid == pid && MEM_PAGE <= k.page < APPS_PAGE;
      var isKernel := k.pid == pid
        && (STACK_PAGE <= k.page < CACHE_PAGE || (pid == 1 && CACHE_PAGE <= k.page < CACHE_PAGE + NFRAMES));
      TwoRegionsAt(devices, pid, MEM_PAGE, 36, GRASS_PAGE, 3, k);
      KernelAt(system, pid, k);
      AddedTwice(trans, devices, system, k, isDevice, isSystem);
      AddedTwice(trans, system, WithIdentity(trans, pid), k, isDevice || isSystem, isKernel);
    }
  }

  // ------------------------------------------------------------------ isolation

  /** User pages of different processes, or different user pages of one, never share a frame,
      and no user page is a page table: pj and pk are the entries that the hardware finds. */
  lemma Isolation(table: seq<FrameMapping>, frames: seq<Frame>, base: seq<nat>, pt: PtLayout,
                  j: VirtualPage, pj: U64, k: VirtualPage, pk: U64)
    requires PtInv(table, frames, base, pt)
    requires 0 <= j.pid < NPIDS && j.pid !in pt.dead && j.page < VPN_LIMIT
    requires 0 <= k.pid < NPIDS && k.pid !in pt.dead && k.page < VPN_LIMIT
    requires HwTranslate(frames, base, j) == Leaf(pj, 0) && U(pj)
    requires HwTranslate(frames, base, k) == Leaf(pk, 0) && U(pk)
    ensures IsFrameAddr(PteGetPa(pj))
    ensures j != k ==> PteGetPa(pj) != PteGetPa(pk)
    ensures forall t :: t in pt.node ==> pt.node[t] < NFRAMES && FrameAddr(pt.node[t]) != PteGetPa(pj)
  {
    var fj := UserTarget(table, frames, base, pt, j, pj);
    var fk := UserTarget(table, frames, base, pt, k, pk);
    forall t | t in pt.node
      ensures pt.node[t] < NFRAMES && FrameAddr(pt.node[t]) != PteGetPa(pj)
    {
      assert NodeOk(frames, base, pt, t);
    }
  }

  /** Pages other than those of applications, in particular those of earth and grass, their
      stack and interfaces, are never accessible to users: the hardware finds no entry or one
      without the user bit. */
  lemma SystemPagesAreProtected(table: seq<FrameMapping>, frames: seq<Frame>, base: seq<nat>, pt: PtLayout, k: VirtualPage)
    requires PtInv(table, frames, base, pt) && OnlyAppPages(SpacesOf(frames, pt))
    requires 0 <= k.pid < NPIDS && k.pid !in pt.dead && k.page < VPN_LIMIT && !IsAppPage(k.page)
    ensures HwTranslate(frames, base, k).Leaf? ==> !U(HwTranslate(frames, base, k).pte)
  {
    HardwareAgrees(table, frames, base, pt, k);
    if k in pt.trans {
      assert TransOk(pt, k);
      assert pt.trans[k].User? ==> k in SpacesOf(frames, pt);
      EncodeMeaning(k.page, pt.trans[k]);
    }
  }

  lemma UserTarget(table: seq<FrameMapping>, frames: seq<Frame>, base: seq<nat>, pt: PtLayout, k: VirtualPage, pk: U64)
    returns (f: nat)
    requires PtInv(table, frames, base, pt) && 0 <= k.pid < NPIDS && k.pid !in pt.dead && k.page < VPN_LIMIT
    requires HwTranslate(frames, base, k) == Leaf(pk, 0) && U(pk)
    ensures f < NFRAMES && pt.role[f] == Data(k) && PteGetPa(pk) == FrameAddr(f) && IsFrameAddr(PteGetPa(pk))
  {
    HardwareAgrees(table, frames, base, pt, k);
    assert TransOk(pt, k);
    EncodeMeaning(k.page, pt.trans[k]);
    f := pt.trans[k].frame;
    FrameRoundTrip(f);
  }

  /** The memories that user pages give access to. */
  ghost function SpacesOf(frames: seq<Frame>, pt: PtLayout): map<VirtualPage, Frame> {
    map k | k in pt.trans && pt.trans[k].User? && pt.trans[k].frame < |frames| :: frames[pt.trans[k].frame]
  }

  /** A user page of a process is reached through the root that is selected for it. */
  lemma UserAccess(table: seq<FrameMapping>, frames: seq<Frame>, base: seq<nat>, pt: PtLayout, satp: U64, k: VirtualPage)
    requires PtInv(table, frames, base, pt) && k in SpacesOf(frames, pt) && Selects(satp, pt, k.pid)
    ensures 0 <= k.pid < NPIDS && k.pid !in pt.dead && pt.role[pt.trans[k].frame].Data?
    ensures IsFrameAddr(SatpRoot(satp)) && SatpRoot(satp) == base[k.pid]
    ensures var leaf := Walk(frames, FrameAt(SatpRoot(satp)), k.page, 2);
      leaf.Leaf? && U(leaf.pte) && IsFrameAddr(PteGetPa(leaf.pte)) && FrameAt(PteGetPa(leaf.pte)) == pt.trans[k].frame
  {
    assert TransOk(pt, k);
    NoTableNoPage(table, frames, base, pt, k, 2);
    assert NodeOk(frames, base, pt, TPos(k.pid, 2, 0));
    SatpRoundTrip(base[k.pid]);
    FrameRoundTrip(pt.trans[k].frame);
    HardwareAgrees(table, frames, base, pt, k);
    EncodeMeaning(k.page, pt.trans[k]);
  }

  /** A process with user pages is alive and has a number in range. */
  lemma UserIsLive(table: seq<FrameMapping>, frames: seq<Frame>, base: seq<nat>, pt: PtLayout, k: VirtualPage)
    requires PtInv(table, frames, base, pt) && k in SpacesOf(frames, pt)
    ensures 0 <= k.pid < NPIDS && k.pid !in pt.dead
  {
    assert TransOk(pt, k);
    assert NodeOk(frames, base, pt, TableOf(k.pid, k.page, 0));
  }

  lemma UserTargetOf(table: seq<FrameMapping>, frames: seq<Frame>, base: seq<nat>, pt: PtLayout, k: VirtualPage)
    requires PtInv(table, frames, base, pt) && k in SpacesOf(frames, pt)
    ensures pt.trans[k].frame < NFRAMES && pt.role[pt.trans[k].frame] == Data(k)
  {
    assert TransOk(pt, k);
  }

  /** Mapping a page of another process does not disturb the selected root. */
  lemma SelectsAfterMap(satp: U64, pt: PtLayout, pt': PtLayout, pid: int, page: nat, curr: int)
    requires Selects(satp, pt, curr) && pid != curr
    requires pt'.node.Keys == pt.node.Keys + TablesFor(pt, pid, page)
    requires forall t :: t in pt.node ==> pt'.node[t] == pt.node[t]
    ensures Selects(satp, pt', curr)
  {
    assert TPos(curr, 2, 0) !in TablesFor(pt, pid, page);
    assert TPos(curr, 2, 0) in pt'.node.Keys ==> TPos(curr, 2, 0) in pt.node.Keys;
  }

  /** Stores to data frames do not touch the tables. */
  lemma StoreStep(table: seq<FrameMapping>, frames: seq<Frame>, base: seq<nat>, pt: PtLayout, f: nat, x: Frame)
    requires PtInv(table, frames, base, pt) && f < NFRAMES && (pt.role[f].Data? || pt.role[f].Loose?)
    ensures PtInv(table, frames[f := x], base, pt)
  {
    forall g | 0 <= g < NFRAMES
      ensures RoleOk(table, pt, g)
    {
    }
    forall t | t in pt.node
      ensures NodeOk(frames[f := x], base, pt, t)
    {
      assert NodeOk(frames, base, pt, t);
    }
    forall k | k in pt.trans
      ensures TransOk(pt, k)
    {
    }
  }

  lemma StoreSpaces(table: seq<FrameMapping>, frames: seq<Frame>, base: seq<nat>, pt: PtLayout, k: VirtualPage, x: Frame)
    requires PtInv(table, frames, base, pt) && k in SpacesOf(frames, pt)
    ensures pt.trans[k].frame < NFRAMES && PtInv(table, frames[pt.trans[k].frame := x], base, pt)
    ensures SpacesOf(frames[pt.trans[k].frame := x], pt) == SpacesOf(frames, pt)[k := x]
  {
    assert TransOk(pt, k);
    StoreStep(table, frames, base, pt, pt.trans[k].frame, x);
    forall j | j in SpacesOf(frames, pt) && j != k
      ensures pt.trans[j].frame != pt.trans[k].frame
    {
      assert TransOk(pt, j);
    }
  }

  // -------------------------------------------------- effects of the operations

  /** The effect of page_table_map on hardware translation, for every page of every live
      process: the mapped page goes to the frame with all permissions, and only a first
      mapping adds anything else, the identity mappings of that process. */
  lemma MapTranslation(table: seq<FrameMapping>, frames: seq<Frame>, base: seq<nat>, pt: PtLayout,
                       table': seq<FrameMapping>, frames': seq<Frame>, base': seq<nat>, pt': PtLayout,
                       k: VirtualPage, frame: nat, j: VirtualPage)
    requires PtInv(table, frames, base, pt) && PtInv(table', frames', base', pt') && pt'.dead == pt.dead && k.page < VPN_LIMIT
    requires frame < NFRAMES && MapEffect(pt, pt'.trans, k, frame)
    requires j.page < VPN_LIMIT && 0 <= j.pid < NPIDS && j.pid !in pt.dead
    ensures HwTranslate(frames', base', j) ==
      if j == k then Leaf(LeafPte(CACHE_PAGE + frame, USER_FLAGS), 0)
      else if j.pid == k.pid && TPos(k.pid, 2, 0) !in pt.node && IsIdentityPage(k.pid, j.page)
      then Leaf(LeafPte(j.page, OS_FLAGS), 0)
      else HwTranslate(frames, base, j)
  {
    HardwareAgrees(table, frames, base, pt, j);
    HardwareAgrees(table', frames', base', pt', j);
    assert MapAt(pt, pt'.trans, k, frame, j);
  }

  /** Mapping a page adds its contents to the private memory of the process. */
  lemma MapSpaces(table: seq<FrameMapping>, frames: seq<Frame>, base: seq<nat>, pt: PtLayout,
                  frames': seq<Frame>, pt': PtLayout, k: VirtualPage, frame: nat)
    requires PtInv(table, frames, base, pt) && |frames'| == |pt'.role| == NFRAMES
    requires frame < NFRAMES && pt.role[frame] == Loose && pt'.role[frame] == Data(k)
    requires MapEffect(pt, pt'.trans, k, frame)
    requires forall f :: 0 <= f < NFRAMES && f != frame && (pt.role[f].Data? || pt.role[f].Loose?) ==>
      pt'.role[f] == pt.role[f] && frames'[f] == frames[f]
    ensures SpacesOf(frames', pt') == SpacesOf(frames, pt)[k := frames'[frame]]
  {
    assert MapAt(pt, pt'.trans, k, frame, k);
    forall j: VirtualPage | j != k
      ensures j in SpacesOf(frames', pt') <==> j in SpacesOf(frames, pt)
      ensures j in SpacesOf(frames, pt) ==> SpacesOf(frames', pt')[j] == SpacesOf(frames, pt)[j]
    {
      assert MapAt(pt, pt'.trans, k, frame, j);
      if j in pt.trans {
        assert TransOk(pt, j);
        NoTableNoPage(table, frames, base, pt, j, 2);
      }
    }
  }

  lemma FreeSpaces(frames: seq<Frame>, pt: PtLayout, pid: int)
    ensures SpacesOf(frames, Removed(pt, pid)) == Without(SpacesOf(frames, pt), pid)
  {
  }

  /** Every address space consists of exactly its six tables. */
  ghost predicate SixEach(pt: PtLayout) {
    forall t :: t in pt.node ==> t in SixTables(t.pid) && SixTables(t.pid) <= pt.node.Keys
  }

  lemma SixAfterMap(pt: PtLayout, pt': PtLayout, pid: int, page: nat)
    requires SixEach(pt) && IsAppPage(page)
    requires pt'.node.Keys == pt.node.Keys + TablesFor(pt, pid, page)
    ensures SixEach(pt')
  {
    AppTables(pid, page);
    forall t | t in pt'.node
      ensures t in SixTables(t.pid) && SixTables(t.pid) <= pt'.node.Keys
    {
      assert t in pt.node || t in SixTables(pid);
    }
  }

  /** A page of a new address space takes six tables, any other page of it none. */
  lemma LackingNoneOrSix(pt: PtLayout, pid: int, page: nat)
    requires SixEach(pt) && IsAppPage(page)
    ensures LackingFor(pt.node, pid, page) == if TPos(pid, 2, 0) in pt.node then 0 else 6
  {
    AppTables(pid, page);
    if TPos(pid, 2, 0) in pt.node {
      NoneLacking(pt.node, pid, page);
    } else {
      assert TableOf(pid, page, 1) in ThreeTables(pid, page) && TableOf(pid, page, 0) in ThreeTables(pid, page);
      assert forall t :: t in SixTables(pid) ==> t !in pt.node;
    }
  }

  lemma AppTables(pid: int, page: nat)
    requires IsAppPage(page)
    ensures ThreeTables(pid, page) <= SixTables(pid)
  {
  }

  ghost function TableFrames(pt: PtLayout, pid: int): set<nat> {
    set t | t in pt.node && t.pid == pid :: pt.node[t]
  }

  lemma FramesFreed(table: seq<FrameMapping>, table': seq<FrameMapping>, frames: seq<Frame>, base: seq<nat>, pt: PtLayout, pid: int)
    requires PtInv(table, frames, base, pt) && |table'| == NFRAMES
    requires forall f :: 0 <= f < NFRAMES ==>
      table'[f] == if table[f].use && table[f].pid == pid then FrameMapping(false, 0, 0) else table[f]
    requires forall f :: 0 <= f < NFRAMES ==>
      (table[f].use && table[f].pid == pid <==> exists t :: t in pt.node && t.pid == pid && pt.node[t] == f)
    ensures UnusedFrames(table') == UnusedFrames(table) + TableFrames(pt, pid)
    ensures forall f :: f in TableFrames(pt, pid) ==> 0 <= f < NFRAMES && table[f].use
  {
    forall f | f in TableFrames(pt, pid)
      ensures 0 <= f < NFRAMES && table[f].use && table[f].pid == pid
    {
      var t :| t in pt.node && t.pid == pid && pt.node[t] == f;
      assert NodeOk(frames, base, pt, t);
    }
    forall f | 0 <= f < NFRAMES && table[f].use && table[f].pid == pid
      ensures f in TableFrames(pt, pid)
    {
    }
  }

  /** The six tables of an address space are in six different frames. */
  lemma SixFrames(table: seq<FrameMapping>, frames: seq<Frame>, base: seq<nat>, pt: PtLayout, pid: int)
    requires PtInv(table, frames, base, pt) && SixEach(pt) && TPos(pid, 2, 0) in pt.node
    ensures |TableFrames(pt, pid)| == 6
  {
    var n := pt.node;
    var a, b, c := TPos(pid, 2, 0), TPos(pid, 1, 0), TPos(pid, 1, 1);
    var d, e, f := TPos(pid, 0, 18), TPos(pid, 0, 32), TPos(pid, 0, 512);
    assert NodeOk(frames, base, pt, a) && NodeOk(frames, base, pt, b) && NodeOk(frames, base, pt, c);
    assert NodeOk(frames, base, pt, d) && NodeOk(frames, base, pt, e) && NodeOk(frames, base, pt, f);
    assert TableFrames(pt, pid) == {n[a], n[b], n[c], n[d], n[e], n[f]};
  }
}
