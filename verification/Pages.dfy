/** What both address-translation mechanisms share: the memory layout in page numbers, the
    frame table and the pages of processes. */
module Pages {
  import Radix

  const NFRAMES := 256

  const MEM_PAGE := 0x40000 // MEM_START: start of DRAM
  const GRASS_PAGE := 0x40024 // GRASS_ENTRY, after 36 pages of earth
  const APPS_PAGE := 0x40027 // APPS_ENTRY, after 3 pages of grass
  const APPS_PAGES := 4 // APPS_SIZE
  const ARG_PAGE := 0x400FB // APPS_ARG: arguments, system call area and stack, 2 pages
  const STACK_PAGE := 0x400FD // GRASS_STACK_BOTTOM, 2 pages
  const INTERFACE_PAGE := 0x400FF // GRASS_INTERFACE
  const CACHE_PAGE := 0x40100 // FRAME_CACHE_START, up to the end of the memory in use

  datatype FrameMapping = FrameMapping(use: bool, pid: int, pageNo: nat)

  /** The frames not in use. */
  ghost function UnusedFrames(table: seq<FrameMapping>): set<nat> {
    set i | 0 <= i < |table| && !table[i].use
  }

  lemma UseFrame(table: seq<FrameMapping>, i: nat)
    requires i < |table| && !table[i].use
    ensures |UnusedFrames(table[i := table[i].(use := true)])| == |UnusedFrames(table)| - 1
  {
    assert UnusedFrames(table[i := table[i].(use := true)]) == UnusedFrames(table) - {i};
  }

  lemma OwnFrame(table: seq<FrameMapping>, i: nat, pid: int)
    requires i < |table|
    ensures UnusedFrames(table[i := table[i].(pid := pid)]) == UnusedFrames(table)
  {
  }

  lemma MoreUnused(table: seq<FrameMapping>, table': seq<FrameMapping>, freed: set<nat>)
    requires UnusedFrames(table') == UnusedFrames(table) + freed
    ensures |UnusedFrames(table')| >= |UnusedFrames(table)|
  {
    assert UnusedFrames(table') == UnusedFrames(table) + (freed - UnusedFrames(table));
  }

  lemma AllUnused(table: seq<FrameMapping>)
    requires forall i :: 0 <= i < |table| ==> !table[i].use
    ensures |UnusedFrames(table)| == |table|
  {
    Radix.RangeSize(0, |table|, UnusedFrames(table));
  }

  lemma AllInUse(table: seq<FrameMapping>)
    ensures |UnusedFrames(table)| == 0 <==> forall i :: 0 <= i < |table| ==> table[i].use
  {
    if i :| 0 <= i < |table| && !table[i].use {
      assert i in UnusedFrames(table);
    } else {
      assert UnusedFrames(table) == {};
    }
  }

  /** A page in the address space of a process. */
  datatype VirtualPage = VirtualPage(pid: int, page: nat)

  /** Pages of user memory below the frame cache. */
  predicate IsUserPage(pageNo: nat) {
    MEM_PAGE <= pageNo < CACHE_PAGE
  }

  /** The pages that the loader maps for every application. */
  predicate IsAppPage(pageNo: nat) {
    APPS_PAGE <= pageNo < APPS_PAGE + APPS_PAGES || ARG_PAGE <= pageNo < ARG_PAGE + 2
  }

  /** Processes have memory only in application pages. */
  ghost predicate OnlyAppPages<T>(spaces: map<VirtualPage, T>) {
    forall k :: k in spaces ==> IsAppPage(k.page)
  }

  /** The memories without those of one process. */
  ghost function Without<T>(spaces: map<VirtualPage, T>, pid: int): map<VirtualPage, T> {
    map k | k in spaces && k.pid != pid :: spaces[k]
  }
}
