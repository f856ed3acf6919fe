/** The memory interface that grass and the loader use: mmu_alloc, mmu_map, mmu_switch and
    mmu_free, and the loads and stores of the running process, under either translation
    mechanism. The contracts are about the private memories alone and the same for both. */
module Earth {
  import opened Options
  import opened Pages
  import opened Bytes
  import opened Sv39
  import opened PageTables
  import Pt = PtMmu
  import Soft = SoftTlb
  import Equivalence

  type Memory = map<VirtualPage, Page>

  /** Memories of words seen as memories of bytes. */
  ghost function BytesOf(spaces: map<VirtualPage, Frame>): Memory {
    map k | k in spaces :: PageOf(spaces[k])
  }

  lemma BytesUpdated(spaces: map<VirtualPage, Frame>, k: VirtualPage, page: Page)
    ensures BytesOf(spaces[k := FrameOf(page)]) == BytesOf(spaces)[k := page]
  {
    PageRoundTrip(page);
  }

  lemma BytesMapped(spaces: map<VirtualPage, Frame>, k: VirtualPage, frame: Frame)
    ensures BytesOf(spaces[k := frame]) == BytesOf(spaces)[k := PageOf(frame)]
  {
  }

  lemma BytesWithout(spaces: map<VirtualPage, Frame>, pid: int)
    ensures BytesOf(Without(spaces, pid)) == Without(BytesOf(spaces), pid)
  {
  }

  datatype Mechanism = PageTable | SoftTlb

  class Earth {
    /** earth->translation. Only the mechanism that is chosen is used. */
    const translation: Mechanism
    const tlb: Soft.SoftTlb<Page>
    const mmu: Pt.PtMmu

    /** What is seen of the mechanism: the private memories of all processes, the process whose
        memory is selected, the processes that were freed (which with page tables must not be
        used again) and those with page tables, the number of free frames, and the frame of the
        page that was mapped last. */
    ghost var spaces: Memory
    ghost var curr: int
    ghost var dead: set<int>
    ghost var started: set<int>
    ghost var free: nat
    ghost var frameOf: map<VirtualPage, nat>

    predicate Chosen(m: Mechanism) {
      m == translation
    }

    ghost predicate Valid()
      reads this, tlb, mmu
    {
      forall m {:trigger Chosen(m)} :: Chosen(m) ==> Seen(m)
    }

    /** The invariant of a mechanism, and what is seen of it. */
    ghost predicate Seen(m: Mechanism)
      reads this, tlb, mmu
    {
      OnlyAppPages(spaces) && if m.PageTable? then SeenPaged() else SeenSoft()
    }

    ghost predicate SeenPaged()
      reads this, mmu
    {
      && mmu.Valid() && mmu.Selected() && Pt.SixEach(mmu.pt)
      && spaces == BytesOf(mmu.Spaces()) && curr == mmu.currVmPid && dead == mmu.pt.dead && free == mmu.FreeCount()
      && (forall pid {:trigger pid in started} :: pid in started <==> Equivalence.HasRoot(mmu.pt, pid))
      && (forall k :: k in frameOf ==> k in mmu.pt.trans && mmu.pt.trans[k] == User(frameOf[k]))
    }

    ghost predicate SeenSoft()
      reads this, tlb
    {
      && tlb.Valid()
      && spaces == tlb.Spaces() && curr == tlb.currVmPid && dead == {} && free == tlb.FreeCount()
      && (forall k :: k in frameOf ==> k in tlb.frameOf && tlb.frameOf[k] == frameOf[k])
    }

    /** How many pages process pid can still be given: with page tables its first page takes six
        more frames. */
    ghost function Room(pid: int): int
      reads this`free, this`started
    {
      if translation.SoftTlb? || pid in started then free else free - 6
    }

    /** Whether process pid can be given n more pages. */
    ghost predicate CanGive(pid: int, n: nat)
      reads this`free, this`started
    {
      n == 0 || (n <= Room(pid) && (translation.PageTable? ==> pid < NPIDS))
    }

    constructor (translation: Mechanism, frames: seq<Frame>, mem: seq<Page>)
      requires |frames| == NFRAMES && |mem| == CACHE_PAGE - MEM_PAGE
      ensures Valid() && spaces == map[] && curr == -1 && dead == {} && this.translation == translation
      ensures fresh(tlb) && fresh(mmu)
      ensures forall pid :: pid > 0 ==> Room(pid) == if translation.PageTable? then NFRAMES - 12 else NFRAMES
    {
      var pages := seq(NFRAMES, i requires 0 <= i < NFRAMES => PageOf(frames[i]));
      var soft := Equivalence.BootSoft<Page>(pages, mem);
      var hard := Equivalence.BootPaged(frames);
      this.translation, tlb, mmu := translation, soft, hard;
      spaces, curr, dead, started, frameOf := map[], -1, {}, {0}, map[];
      free := if translation.PageTable? then NFRAMES - 6 else NFRAMES;
    }

    /** mmu_alloc and mmu_map: a page for a process that is not selected. None is the fatal end,
        for want of a frame or with page tables of a place in the table of roots. */
    method NewPage(pid: int, pageNo: nat) returns (r: Option<nat>)
      requires Valid() && pid > 0 && pid != curr && pid !in dead && IsAppPage(pageNo)
      requires VirtualPage(pid, pageNo) !in spaces
      modifies this, tlb, mmu
      ensures r.Some? <==> old(CanGive(pid, 1))
      ensures r.Some? ==> Valid() && curr == old(curr) && dead == old(dead) && Room(pid) == old(Room(pid)) - 1
      ensures r.Some? ==> VirtualPage(pid, pageNo) in spaces && frameOf == map[VirtualPage(pid, pageNo) := r.value]
      ensures r.Some? ==> spaces == old(spaces)[VirtualPage(pid, pageNo) := spaces[VirtualPage(pid, pageNo)]]
    {
      if Chosen(PageTable) {
        r := NewPagedPage(pid, pageNo);
      } else {
        assert Chosen(SoftTlb);
        r := tlb.NewPage(pid, pageNo);
        if r.Some? {
          spaces, free, frameOf := tlb.Spaces(), free - 1, map[VirtualPage(pid, pageNo) := r.value];
        }
      }
    }

    method NewPagedPage(pid: int, pageNo: nat) returns (r: Option<nat>)
      requires SeenPaged() && translation.PageTable? && pid > 0 && pid != curr && pid !in dead && IsAppPage(pageNo)
      requires VirtualPage(pid, pageNo) !in spaces
      modifies this, mmu
      ensures r.Some? <==> old(CanGive(pid, 1))
      ensures r.Some? ==> SeenPaged() && curr == old(curr) && dead == old(dead) && Room(pid) == old(Room(pid)) - 1
      ensures r.Some? ==> VirtualPage(pid, pageNo) in spaces && frameOf == map[VirtualPage(pid, pageNo) := r.value]
      ensures r.Some? ==> spaces == old(spaces)[VirtualPage(pid, pageNo) := spaces[VirtualPage(pid, pageNo)]]
    {
      ghost var k := VirtualPage(pid, pageNo);
      assert pid in started <==> Equivalence.HasRoot(mmu.pt, pid);
      r := Equivalence.PtNewPage(mmu, pid, pageNo);
      if r.Some? {
        BytesMapped(old(mmu.Spaces()), k, mmu.frames[r.value]);
        spaces := spaces[k := PageOf(mmu.frames[r.value])];
        started, free, frameOf := started + {pid}, mmu.FreeCount(), map[k := r.value];
      }
    }

    /** Writing bytes through the address of the frame that holds page k of a process that is not
        selected. */
    method WriteBytes(frame: nat, at: nat, bytes: seq<Byte>, ghost k: VirtualPage)
      requires Valid() && k in spaces && k in frameOf && frameOf[k] == frame && k.pid != curr && at + |bytes| <= 4096
      modifies this`spaces, tlb`frames, mmu`frames
      ensures Valid() && spaces == old(spaces)[k := Splice(old(spaces)[k], at, bytes)]
    {
      if Chosen(PageTable) {
        WriteBytesPaged(frame, at, bytes, k);
      } else {
        assert Chosen(SoftTlb);
        assert tlb.MappedOk(k);
        tlb.FillPage(frame, Splice(tlb.frames[frame], at, bytes), k);
        spaces := spaces[k := Splice(spaces[k], at, bytes)];
      }
    }

    method WriteBytesPaged(frame: nat, at: nat, bytes: seq<Byte>, ghost k: VirtualPage)
      requires SeenPaged() && k in spaces && k in frameOf && frameOf[k] == frame && at + |bytes| <= 4096
      modifies this`spaces, mmu`frames
      ensures SeenPaged() && spaces == old(spaces)[k := Splice(old(spaces)[k], at, bytes)]
    {
      Pt.UserTargetOf(mmu.table, mmu.frames, mmu.base, mmu.pt, k);
      var page := Splice(PageOf(mmu.frames[frame]), at, bytes);
      Pt.StoreSpaces(mmu.table, mmu.frames, mmu.base, mmu.pt, k, FrameOf(page));
      BytesUpdated(mmu.Spaces(), k, page);
      mmu.Fill(frame, FrameOf(page));
      spaces := spaces[k := page];
    }

    /** mmu_switch to a process that has memory: every process keeps its memory. */
    method Switch(pid: int, ghost pageNo: nat)
      requires Valid() && VirtualPage(pid, pageNo) in spaces
      modifies this`curr, tlb`frames, tlb`mem, tlb`currVmPid, mmu`currVmPid, mmu`satp
      ensures Valid() && curr == pid
    {
      if Chosen(PageTable) {
        Pt.UserIsLive(mmu.table, mmu.frames, mmu.base, mmu.pt, VirtualPage(pid, pageNo));
        mmu.Switch(pid);
      } else {
        assert Chosen(SoftTlb);
        assert tlb.MappedOk(VirtualPage(pid, pageNo));
        tlb.Switch(pid);
      }
      curr := pid;
    }

    /** A load by the selected process. */
    method Load(pageNo: nat) returns (page: Page)
      requires Valid() && VirtualPage(curr, pageNo) in spaces
      ensures page == spaces[VirtualPage(curr, pageNo)]
    {
      if Chosen(PageTable) {
        var frame := mmu.Load(pageNo);
        page := PageOf(frame);
      } else {
        assert Chosen(SoftTlb);
        assert tlb.MappedOk(VirtualPage(tlb.currVmPid, pageNo));
        page := tlb.Load(pageNo);
      }
    }

    /** A store by the selected process. */
    method Store(pageNo: nat, page: Page)
      requires Valid() && VirtualPage(curr, pageNo) in spaces
      modifies this`spaces, tlb`mem, mmu`frames
      ensures Valid() && spaces == old(spaces)[VirtualPage(curr, pageNo) := page]
    {
      if Chosen(PageTable) {
        StorePaged(pageNo, page);
      } else {
        assert Chosen(SoftTlb);
        tlb.Store(pageNo, page);
        spaces := spaces[VirtualPage(curr, pageNo) := page];
      }
    }

    method StorePaged(pageNo: nat, page: Page)
      requires SeenPaged() && VirtualPage(curr, pageNo) in spaces
      modifies this`spaces, mmu`frames
      ensures SeenPaged() && spaces == old(spaces)[VirtualPage(curr, pageNo) := page]
    {
      BytesUpdated(mmu.Spaces(), VirtualPage(mmu.currVmPid, pageNo), page);
      mmu.Store(pageNo, FrameOf(page));
      spaces := spaces[VirtualPage(curr, pageNo) := page];
    }

    /** mmu_free: the process loses its memory, nobody else notices. */
    method Free(pid: int)
      requires Valid() && pid > 0
      modifies this, tlb, mmu
      ensures Valid() && spaces == Without(old(spaces), pid) && curr == old(curr)
      ensures dead == old(dead) + if translation.PageTable? then {pid} else {}
    {
      if Chosen(PageTable) {
        FreePaged(pid);
      } else {
        assert Chosen(SoftTlb);
        FreeSoft(pid);
      }
    }

    method FreeSoft(pid: int)
      requires SeenSoft() && pid > 0
      modifies this, tlb
      ensures SeenSoft() && spaces == Without(old(spaces), pid) && curr == old(curr) && dead == old(dead)
    {
      tlb.Free(pid);
      spaces, free, frameOf := Without(spaces, pid), tlb.FreeCount(), map[];
    }

    method FreePaged(pid: int)
      requires SeenPaged() && pid > 0
      modifies this, mmu
      ensures SeenPaged() && spaces == Without(old(spaces), pid) && curr == old(curr) && dead == old(dead) + {pid}
    {
      BytesWithout(mmu.Spaces(), pid);
      Equivalence.PtFree(mmu, pid);
      spaces, dead, started, free, frameOf := Without(spaces, pid), dead + {pid}, started - {pid}, mmu.FreeCount(), map[];
    }
  }
}
