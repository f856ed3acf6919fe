/** Software address translation: the pages of the resident process are live in user memory,
    those of all others wait in frames and are copied in and out on a switch. */
module SoftTlb {
  import opened Options
  import opened Pages

  class SoftTlb<P(0)> {
    var table: seq<FrameMapping>
    var frames: seq<P>
    var mem: seq<P>
    var currVmPid: int

    /** Which frame holds which page of which process, and the frames allocated but not mapped. */
    ghost var frameOf: map<VirtualPage, nat>
    ghost var loose: set<nat>

    ghost predicate Valid()
      reads this
    {
      && |table| == |frames| == NFRAMES
      && |mem| == CACHE_PAGE - MEM_PAGE
      && (forall i :: i in loose ==> 0 <= i < NFRAMES && table[i].use && table[i].pid == 0)
      && (forall i :: 0 <= i < NFRAMES && table[i].use && i !in loose ==> Owned(i))
      && (forall i :: 0 <= i < NFRAMES && !table[i].use ==> table[i].pid == 0)
      && (forall k :: k in frameOf ==> MappedOk(k))
      && currVmPid != 0
    }

    ghost predicate Owned(i: nat)
      requires i < |table|
      reads this
    {
      VirtualPage(table[i].pid, table[i].pageNo) in frameOf && frameOf[VirtualPage(table[i].pid, table[i].pageNo)] == i
    }

    ghost predicate MappedOk(k: VirtualPage)
      requires k in frameOf
      reads this
    {
      && frameOf[k] < |table|
      && frameOf[k] !in loose
      && table[frameOf[k]] == FrameMapping(true, k.pid, k.page)
      && k.pid > 0 && IsUserPage(k.page)
    }

    /** What process k.pid sees in its page k.page. */
    ghost function View(k: VirtualPage): P
      requires Valid() && k in frameOf
      reads this
    {
      assert MappedOk(k);
      if k.pid == currVmPid then mem[k.page - MEM_PAGE] else frames[frameOf[k]]
    }

    /** The private memories of all processes. */
    ghost function Spaces(): map<VirtualPage, P>
      requires Valid()
      reads this
    {
      map k | k in frameOf :: View(k)
    }

    ghost function FreeCount(): nat
      reads this`table
    {
      |UnusedFrames(table)|
    }

    constructor (frames: seq<P>, mem: seq<P>)
      requires |frames| == NFRAMES && |mem| == CACHE_PAGE - MEM_PAGE
      ensures Valid() && Spaces() == map[] && loose == {} && currVmPid == -1
      ensures forall i :: 0 <= i < NFRAMES ==> !table[i].use
    {
      table := seq(NFRAMES, _ => FrameMapping(false, 0, 0));
      this.frames, this.mem, currVmPid := frames, mem, -1;
      frameOf, loose := map[], {};
    }

    /** mmu_alloc: the first frame not in use; None is the fatal end. */
    method Alloc() returns (r: Option<nat>)
      requires Valid()
      modifies this`table, this`loose
      ensures r.None? <==> forall i :: 0 <= i < NFRAMES ==> old(table[i].use)
      ensures r.None? ==> unchanged(this)
      ensures r.Some? ==> r.value < NFRAMES && !old(table)[r.value].use
      ensures r.Some? ==> forall i :: 0 <= i < r.value ==> old(table)[i].use
      ensures r.Some? ==> Valid() && loose == old(loose) + {r.value} && Spaces() == old(Spaces())
      ensures r.Some? <==> old(FreeCount()) > 0
      ensures r.Some? ==> FreeCount() == old(FreeCount()) - 1
    {
      var i := 0;
      while i < NFRAMES
        invariant 0 <= i <= NFRAMES && forall j :: 0 <= j < i ==> table[j].use
        invariant unchanged(this)
      {
        if !table[i].use {
          UseFrame(table, i);
          table := table[i := table[i].(use := true)];
          loose := loose + {i};
          return Some(i);
        }
        i := i + 1;
      }
      AllInUse(table);
      return None;
    }

    /** mmu_free: the process loses its memory and its frames, nobody else notices. */
    method Free(pid: int)
      requires Valid() && pid > 0
      modifies this`table, this`frameOf
      ensures Valid() && Spaces() == Without(old(Spaces()), pid)
      ensures forall i :: 0 <= i < NFRAMES ==>
        table[i] == if old(table[i].use && table[i].pid == pid) then FrameMapping(false, 0, 0) else old(table[i])
      ensures UnusedFrames(table) == old(UnusedFrames(table)) + set k | k in old(frameOf) && k.pid == pid :: old(frameOf)[k]
    {
      var i := 0;
      while i < NFRAMES
        invariant 0 <= i <= NFRAMES && |table| == NFRAMES && frameOf == old(frameOf)
        invariant forall j :: 0 <= j < NFRAMES ==>
          table[j] == if j < i && old(table[j].use && table[j].pid == pid) then FrameMapping(false, 0, 0) else old(table[j])
      {
        if table[i].use && table[i].pid == pid {
          table := table[i := FrameMapping(false, 0, 0)];
        }
        i := i + 1;
      }
      frameOf := map k | k in frameOf && k.pid != pid :: frameOf[k];
    }

    /** soft_tlb_map: a loose frame becomes a page of a process, which for the resident process
        is what is in memory at its address. */
    method Map(pid: int, pageNo: nat, frame: nat)
      requires Valid() && frame in loose && VirtualPage(pid, pageNo) !in frameOf
      requires pid > 0 && IsUserPage(pageNo)
      modifies this`table, this`frameOf, this`loose
      ensures Valid() && loose == old(loose) - {frame}
      ensures frameOf == old(frameOf)[VirtualPage(pid, pageNo) := frame]
      ensures Spaces() == old(Spaces())[VirtualPage(pid, pageNo) :=
                            if pid == currVmPid then mem[pageNo - MEM_PAGE] else frames[frame]]
      ensures FreeCount() == old(FreeCount())
    {
      ghost var table0 := table;
      table := table[frame := table[frame].(pid := pid, pageNo := pageNo)];
      frameOf := frameOf[VirtualPage(pid, pageNo) := frame];
      loose := loose - {frame};
      assert UnusedFrames(table) == UnusedFrames(table0);
    }

    /** A new page for a process: mmu_alloc and then soft_tlb_map. */
    method NewPage(pid: int, pageNo: nat) returns (r: Option<nat>)
      requires Valid() && pid > 0 && IsUserPage(pageNo) && VirtualPage(pid, pageNo) !in Spaces()
      modifies this`table, this`frameOf, this`loose
      ensures r.Some? <==> old(FreeCount()) > 0
      ensures r.Some? ==> Valid() && FreeCount() == old(FreeCount()) - 1
      ensures r.Some? ==> VirtualPage(pid, pageNo) in frameOf && frameOf[VirtualPage(pid, pageNo)] == r.value < NFRAMES
      ensures r.Some? ==> Spaces() == old(Spaces())[VirtualPage(pid, pageNo) := Spaces()[VirtualPage(pid, pageNo)]]
    {
      r := Alloc();
      if r.Some? {
        Map(pid, pageNo, r.value);
      }
    }

    /** Writing into a frame through its address in the frame cache. */
    method Fill(frame: nat, content: P)
      requires Valid() && frame < NFRAMES
      modifies this`frames
      ensures Valid() && frames == old(frames)[frame := content]
      ensures forall k :: k in frameOf ==>
                Spaces()[k] == if frameOf[k] == frame && k.pid != currVmPid then content else old(Spaces())[k]
    {
      frames := frames[frame := content];
    }

    /** Writing into the frame of a page of a process that is not resident. */
    method FillPage(frame: nat, content: P, ghost k: VirtualPage)
      requires Valid() && k in frameOf && frameOf[k] == frame && k.pid != currVmPid
      modifies this`frames
      ensures Valid() && Spaces() == old(Spaces())[k := content]
    {
      assert MappedOk(k);
      forall j | j in frameOf && frameOf[j] == frame
        ensures j == k
      {
        assert MappedOk(j);
      }
      Fill(frame, content);
    }

    /** soft_tlb_switch: every process keeps its view of its pages, and pages that the new
        process has not mapped stay as they are. */
    method Switch(pid: int)
      requires Valid() && pid > 0
      modifies this`frames, this`mem, this`currVmPid
      ensures Valid() && currVmPid == pid
      ensures Spaces() == old(Spaces())
      ensures forall p :: 0 <= p < |mem| && VirtualPage(pid, p + MEM_PAGE) !in frameOf ==> mem[p] == old(mem)[p]
    {
      if pid == currVmPid {
        return;
      }
      CopyOut();
      CopyIn(pid);
      currVmPid := pid;
    }

    /** The first loop of soft_tlb_switch: paging_write for every page of the resident process. */
    method CopyOut()
      requires Valid()
      modifies this`frames
      ensures Valid()
      ensures forall k :: k in frameOf ==>
        frames[frameOf[k]] == if k.pid == currVmPid then mem[k.page - MEM_PAGE] else old(frames)[frameOf[k]]
    {
      var i := 0;
      while i < NFRAMES
        invariant 0 <= i <= NFRAMES && Valid()
        invariant forall k :: k in frameOf ==>
          frames[frameOf[k]] ==
            if k.pid == currVmPid && frameOf[k] < i then mem[k.page - MEM_PAGE] else old(frames)[frameOf[k]]
      {
        if table[i].use && table[i].pid == currVmPid {
          assert Owned(i) && MappedOk(VirtualPage(table[i].pid, table[i].pageNo));
          frames := frames[i := mem[table[i].pageNo - MEM_PAGE]];
        }
        i := i + 1;
      }
    }

    /** The second loop: each page of the new process is copied to its address. */
    method CopyIn(pid: int)
      requires Valid() && pid > 0
      modifies this`mem
      ensures Valid()
      ensures forall k :: k in frameOf && k.pid == pid ==> mem[k.page - MEM_PAGE] == frames[frameOf[k]]
      ensures forall p :: 0 <= p < |mem| && VirtualPage(pid, p + MEM_PAGE) !in frameOf ==> mem[p] == old(mem)[p]
    {
      var i := 0;
      while i < NFRAMES
        invariant 0 <= i <= NFRAMES && Valid()
        invariant forall k :: k in frameOf && k.pid == pid && frameOf[k] < i ==> mem[k.page - MEM_PAGE] == frames[frameOf[k]]
        invariant forall p :: 0 <= p < |mem| && VirtualPage(pid, p + MEM_PAGE) !in frameOf ==> mem[p] == old(mem)[p]
      {
        if table[i].use && table[i].pid == pid {
          assert Owned(i) && MappedOk(VirtualPage(table[i].pid, table[i].pageNo));
          mem := mem[table[i].pageNo - MEM_PAGE := frames[i]];
        }
        i := i + 1;
      }
    }

    /** A load by the resident process. */
    method Load(pageNo: nat) returns (content: P)
      requires Valid() && IsUserPage(pageNo)
      ensures content == mem[pageNo - MEM_PAGE]
      ensures VirtualPage(currVmPid, pageNo) in frameOf ==> content == Spaces()[VirtualPage(currVmPid, pageNo)]
    {
      content := mem[pageNo - MEM_PAGE];
    }

    /** A store by the resident process to one of its pages. */
    method Store(pageNo: nat, content: P)
      requires Valid() && VirtualPage(currVmPid, pageNo) in frameOf
      modifies this`mem
      ensures Valid() && Spaces() == old(Spaces())[VirtualPage(currVmPid, pageNo) := content]
    {
      assert MappedOk(VirtualPage(currVmPid, pageNo));
      mem := mem[pageNo - MEM_PAGE := content];
    }
  }
}
