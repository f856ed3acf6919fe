/** Loading an application: its program segment, arguments and stack become pages of a new
    process, filled frame by frame through the frame cache. */
module ElfLoader {
  import opened Options
  import opened Pages
  import opened Bytes
  import opened Earth

  const PAGE_SIZE := 4096
  const BLOCK_SIZE := 512
  const APPS_ENTRY := 0x4002_7000
  const APPS_SIZE := 0x4000
  const APPS_ARG := 0x400F_B000
  const SYSCALL_ARG := 0x400F_B400
  const CMD_NARGS := 16
  const CMD_ARG_LEN := 32

  type FileBlock = b: seq<Byte> | |b| == 512 witness seq(512, _ => 0)

  /** The part of a program header that the loader uses. */
  datatype ProgramHeader = ProgramHeader(offset: nat, filesz: nat)

  /** Byte i of a file that is read block by block. */
  function FileByte(reader: nat -> FileBlock, i: nat): Byte {
    reader(i / 512)[i % 512]
  }

  /** What byte x of the loaded segment should be: the file from the block of p_offset on, and
      zero past p_filesz. */
  function ImageByte(reader: nat -> FileBlock, header: ProgramHeader, x: nat): Byte {
    if x < header.filesz then FileByte(reader, header.offset / 512 * 512 + x) else 0
  }

  /** For which headers the loaded segment is the file from p_offset on, whatever the file. */
  ghost predicate LoadsFromOffset(header: ProgramHeader) {
    forall reader: nat -> FileBlock, x {:trigger ImageByte(reader, header, x)} ::
      0 <= x < header.filesz ==> ImageByte(reader, header, x) == FileByte(reader, header.offset + x)
  }

  /** The division that finds the first block drops the rest of p_offset, so the segment comes
      from p_offset exactly if that is a multiple of the block size. */
  lemma LoadsFromOffsetIff(header: ProgramHeader)
    ensures LoadsFromOffset(header) <==> header.offset % 512 == 0 || header.filesz == 0
  {
    if header.offset % 512 != 0 && header.filesz > 0 {
      var q := header.offset / 512;
      var marked: FileBlock := seq(512, i => if i == 0 then 1 else 0);
      var reader: nat -> FileBlock := (b: nat) => marked;
      assert ImageByte(reader, header, 0) == marked[0];
      assert FileByte(reader, header.offset + 0) == marked[header.offset % 512];
    } else {
      forall reader: nat -> FileBlock, x | 0 <= x < header.filesz
        ensures ImageByte(reader, header, x) == FileByte(reader, header.offset + x)
      {
        assert header.offset / 512 * 512 + x == header.offset + x;
      }
    }
  }

  /** A byte in the address space of a process. */
  function ByteAt(m: Memory, pid: int, addr: nat): Byte
    requires VirtualPage(pid, addr / 4096) in m
  {
    m[VirtualPage(pid, addr / 4096)][addr % 4096]
  }

  // --------------------------------------------------------------- the segment

  function SegPage(pid: int, q: nat): VirtualPage {
    VirtualPage(pid, APPS_PAGE + q)
  }

  /** m is m0 with the first n pages of the segment of process pid added. */
  ghost predicate Added(m0: Memory, m: Memory, pid: int, n: nat) {
    && (forall k :: k in m <==> k in m0 || (k.pid == pid && APPS_PAGE <= k.page < APPS_PAGE + n))
    && (forall k :: k in m0 && !(k.pid == pid && APPS_PAGE <= k.page < APPS_PAGE + n) ==> m[k] == m0[k])
  }

  /** The bytes of the first n pages that lie in [from, to) are those of the image. */
  ghost predicate HasImage(m: Memory, pid: int, n: nat, reader: nat -> FileBlock, header: ProgramHeader, from: nat, to: nat) {
    forall q, j {:trigger m[SegPage(pid, q)][j]} ::
      0 <= q < n && 0 <= j < 4096 && from <= q * 4096 + j < to && SegPage(pid, q) in m ==>
        m[SegPage(pid, q)][j] == ImageByte(reader, header, q * 4096 + j)
  }

  // -------------------------------------------------------------------- methods

  /** Pages for b blocks. */
  function PagesFor(b: nat): nat {
    (b + 7) / 8
  }

  function MorePages(b: nat): nat {
    if b % 8 == 0 then 1 else 0
  }

  lemma BlockOffset(b: nat)
    ensures 512 * b % 4096 == 512 * (b % 8) <= 3584 && 512 * b / 4096 == b / 8 && 512 * b % 512 == 0
    ensures PagesFor(b) == if b % 8 == 0 then b / 8 else b / 8 + 1
    ensures PagesFor(b + 1) == b / 8 + 1
    ensures b % 8 == 0 ==> 512 * b == PagesFor(b) * 4096
  {
    assert 512 * b == 4096 * (b / 8) + 512 * (b % 8);
  }

  lemma PagesBefore(b: nat, size: nat)
    requires 512 * b < size
    ensures PagesFor(b + 1) <= (size + 4095) / 4096
  {
  }

  lemma PagesAtEnd(b: nat, size: nat)
    requires size <= 512 * b < size + 512
    ensures PagesFor(b) == (size + 4095) / 4096
  {
  }

  function Min(a: nat, b: nat): nat {
    if a < b then a else b
  }

  /** The frame holds page k. */
  ghost predicate Holds(earth: Earth, k: VirtualPage, frame: nat)
    reads earth`frameOf
  {
    k in earth.frameOf && earth.frameOf[k] == frame
  }

  /** The same process is selected, and the same processes are gone. */
  ghost predicate SameProcesses(earth: Earth, curr: int, dead: set<int>)
    reads earth`curr, earth`dead
  {
    earth.curr == curr && earth.dead == dead
  }

  /** The first off bytes of the file have been loaded; the last page is in frame. */
  ghost predicate Loaded(earth: Earth, m0: Memory, pid: int, n: nat, frame: nat,
                         reader: nat -> FileBlock, header: ProgramHeader, off: nat)
    reads earth, earth.tlb, earth.mmu
  {
    && earth.Valid() && pid > 0 && pid != earth.curr && pid !in earth.dead
    && Added(m0, earth.spaces, pid, n)
    && HasImage(earth.spaces, pid, n, reader, header, 0, Min(off, header.filesz))
    && (n > 0 ==> SegPage(pid, n - 1) in earth.spaces && Holds(earth, SegPage(pid, n - 1), frame))
  }

  method SegmentPage(earth: Earth, pid: int, npages: nat, ghost m0: Memory, ghost frame: nat,
                     ghost reader: nat -> FileBlock, ghost header: ProgramHeader) returns (r: Option<nat>)
    requires npages < APPS_PAGES && (forall k :: k in m0 ==> k.pid != pid)
    requires Loaded(earth, m0, pid, npages, frame, reader, header, npages * 4096)
    modifies earth, earth.tlb, earth.mmu
    ensures r.Some? ==> SameProcesses(earth, old(earth.curr), old(earth.dead))
    ensures r.Some? ==> Loaded(earth, m0, pid, npages + 1, r.value, reader, header, npages * 4096)
    ensures r.Some? <==> old(earth.CanGive(pid, 1))
    ensures r.Some? ==> earth.Room(pid) == old(earth.Room(pid)) - 1
  {
    ghost var m := earth.spaces;
    r := earth.NewPage(pid, APPS_PAGE + npages);
    if r.Some? {
      PageAdded(m0, m, earth.spaces, pid, npages, reader, header);
    }
  }

  lemma PageAdded(m0: Memory, m: Memory, m': Memory, pid: int, n: nat, reader: nat -> FileBlock, header: ProgramHeader)
    requires Added(m0, m, pid, n) && HasImage(m, pid, n, reader, header, 0, Min(n * 4096, header.filesz))
    requires SegPage(pid, n) in m' && m' == m[SegPage(pid, n) := m'[SegPage(pid, n)]]
    ensures Added(m0, m', pid, n + 1) && HasImage(m', pid, n + 1, reader, header, 0, Min(n * 4096, header.filesz))
  {
    forall q, j | 0 <= q < n + 1 && 0 <= j < 4096 && q * 4096 + j < Min(n * 4096, header.filesz) && SegPage(pid, q) in m'
      ensures m'[SegPage(pid, q)][j] == ImageByte(reader, header, q * 4096 + j)
    {
      assert m[SegPage(pid, q)][j] == ImageByte(reader, header, q * 4096 + j);
    }
  }

  /** A new page every eight blocks. */
  method PageForBlock(earth: Earth, pid: int, ghost reader: nat -> FileBlock, ghost header: ProgramHeader, b: nat,
                      npages0: nat, frame0: nat, ghost m0: Memory)
    returns (ok: bool, npages: nat, frame: nat)
    requires b / 8 < APPS_PAGES && (forall k :: k in m0 ==> k.pid != pid)
    requires npages0 == PagesFor(b) && Loaded(earth, m0, pid, npages0, frame0, reader, header, 512 * b)
    modifies earth, earth.tlb, earth.mmu
    ensures ok ==> SameProcesses(earth, old(earth.curr), old(earth.dead))
    ensures ok ==> npages == PagesFor(b + 1) && Loaded(earth, m0, pid, npages, frame, reader, header, 512 * b)
    ensures ok <==> old(earth.CanGive(pid, MorePages(b)))
    ensures ok ==> earth.Room(pid) == old(earth.Room(pid)) - (npages - npages0)
  {
    npages, frame := npages0, frame0;
    BlockOffset(b);
    if 512 * b % PAGE_SIZE == 0 {
      var r := SegmentPage(earth, pid, npages, m0, frame, reader, header);
      if r.None? {
        return false, npages, frame;
      }
      frame, npages := r.value, npages + 1;
    }
    ok := true;
  }

  /** One round of the first loop of load_app, for block b. */
  method LoadBlock(earth: Earth, pid: int, reader: nat -> FileBlock, header: ProgramHeader, b: nat,
                   npages0: nat, frame0: nat, ghost m0: Memory)
    returns (ok: bool, npages: nat, frame: nat)
    requires 512 * b < header.filesz <= APPS_SIZE && (forall k :: k in m0 ==> k.pid != pid)
    requires npages0 == PagesFor(b) && Loaded(earth, m0, pid, npages0, frame0, reader, header, 512 * b)
    modifies earth, earth.tlb, earth.mmu
    ensures ok ==> SameProcesses(earth, old(earth.curr), old(earth.dead))
    ensures ok ==> npages == PagesFor(b + 1) && Loaded(earth, m0, pid, npages, frame, reader, header, 512 * (b + 1))
    ensures ok <==> old(earth.CanGive(pid, MorePages(b)))
    ensures ok ==> earth.Room(pid) == old(earth.Room(pid)) - (npages - npages0)
  {
    ok, npages, frame := PageForBlock(earth, pid, reader, header, b, npages0, frame0, m0);
    if ok {
      BlockOffset(b);
      PutBlock(earth, pid, reader, header, 512 * b, npages, frame, m0);
    }
  }

  /** Reading the block at off into its place in the last page. */
  method PutBlock(earth: Earth, pid: int, reader: nat -> FileBlock, header: ProgramHeader, off: nat,
                  npages: nat, frame: nat, ghost m0: Memory)
    requires off % 512 == 0 && off % 4096 <= 3584 && off < header.filesz && npages == off / 4096 + 1
    requires Loaded(earth, m0, pid, npages, frame, reader, header, off)
    modifies earth`spaces, earth.tlb`frames, earth.mmu`frames
    ensures Loaded(earth, m0, pid, npages, frame, reader, header, off + 512)
  {
    BlockWritten(earth.spaces, pid, npages, reader, header, off);
    earth.WriteBytes(frame, off % PAGE_SIZE, reader(header.offset / BLOCK_SIZE + off / 512), SegPage(pid, npages - 1));
  }

  /** The first loop of load_app. */
  method LoadBlocks(earth: Earth, pid: int, reader: nat -> FileBlock, header: ProgramHeader)
    returns (ok: bool, npages: nat, frame: nat)
    requires earth.Valid() && pid > 0 && pid != earth.curr && pid !in earth.dead && header.filesz <= APPS_SIZE
    requires forall k :: k in earth.spaces ==> k.pid != pid
    modifies earth, earth.tlb, earth.mmu
    ensures ok ==> SameProcesses(earth, old(earth.curr), old(earth.dead)) && npages == (header.filesz + 4095) / 4096
    ensures ok ==> Loaded(earth, old(earth.spaces), pid, npages, frame, reader, header, header.filesz)
    ensures ok <==> old(earth.CanGive(pid, (header.filesz + 4095) / 4096))
    ensures ok ==> earth.Room(pid) == old(earth.Room(pid)) - npages
  {
    ghost var m0 := earth.spaces;
    var b := 0;
    ok, npages, frame := true, 0, 0;
    while b * BLOCK_SIZE < header.filesz
      invariant 0 <= b && 512 * b < header.filesz + 512 && npages == PagesFor(b)
      invariant SameProcesses(earth, old(earth.curr), old(earth.dead))
      invariant Loaded(earth, m0, pid, npages, frame, reader, header, 512 * b)
      invariant earth.Room(pid) == old(earth.Room(pid)) - npages && old(earth.CanGive(pid, npages))
      decreases header.filesz - 512 * b
    {
      PagesBefore(b, header.filesz);
      ok, npages, frame := LoadBlock(earth, pid, reader, header, b, npages, frame, m0);
      if !ok {
        return;
      }
      b := b + 1;
    }
    PagesAtEnd(b, header.filesz);
    ok := true;
  }

  /** The block at off extends the image by 512 bytes. */
  lemma BlockWritten(m: Memory, pid: int, n: nat, reader: nat -> FileBlock, header: ProgramHeader, off: nat)
    requires off % 512 == 0 && n == off / 4096 + 1 && off < header.filesz && SegPage(pid, n - 1) in m
    requires HasImage(m, pid, n, reader, header, 0, off)
    ensures var m' := m[SegPage(pid, n - 1) := Splice(m[SegPage(pid, n - 1)], off % 4096, reader(header.offset / 512 + off / 512))];
      HasImage(m', pid, n, reader, header, 0, Min(off + 512, header.filesz))
  {
    var k := SegPage(pid, n - 1);
    var m' := m[k := Splice(m[k], off % 4096, reader(header.offset / 512 + off / 512))];
    forall q, j | 0 <= q < n && 0 <= j < 4096 && 0 <= q * 4096 + j < off + 512 && q * 4096 + j < header.filesz && SegPage(pid, q) in m'
      ensures m'[SegPage(pid, q)][j] == ImageByte(reader, header, q * 4096 + j)
    {
      var x := q * 4096 + j;
      if x >= off {
        assert q == n - 1 && j == off % 4096 + (x - off);
        FileByteInBlock(reader, header.offset, off, x - off);
      } else {
        assert m[SegPage(pid, q)][j] == ImageByte(reader, header, x);
      }
    }
  }

  lemma FileByteInBlock(reader: nat -> FileBlock, offset: nat, off: nat, i: nat)
    requires off % 512 == 0 && i < 512
    ensures FileByte(reader, offset / 512 * 512 + (off + i)) == reader(offset / 512 + off / 512)[i]
  {
    var b := offset / 512 + off / 512;
    assert offset / 512 * 512 + (off + i) == b * 512 + i;
    assert (b * 512 + i) / 512 == b;
  }

  /** The first n pages hold the image of the segment, zeros included. */
  ghost predicate Imaged(earth: Earth, m0: Memory, pid: int, n: nat, reader: nat -> FileBlock, header: ProgramHeader)
    reads earth, earth.tlb, earth.mmu
  {
    && earth.Valid() && pid > 0 && pid != earth.curr && pid !in earth.dead
    && Added(m0, earth.spaces, pid, n)
    && HasImage(earth.spaces, pid, n, reader, header, 0, n * 4096)
  }

  /** Zeros from the end of the file to the end of its last page. */
  method ZeroTail(earth: Earth, pid: int, npages: nat, frame: nat, ghost m0: Memory,
                  ghost reader: nat -> FileBlock, header: ProgramHeader)
    requires npages == (header.filesz + 4095) / 4096 && Loaded(earth, m0, pid, npages, frame, reader, header, header.filesz)
    modifies earth`spaces, earth.tlb`frames, earth.mmu`frames
    ensures Imaged(earth, m0, pid, npages, reader, header)
  {
    var filled := header.filesz % PAGE_SIZE;
    if filled != 0 {
      TailZeroed(earth.spaces, pid, npages, reader, header);
      earth.WriteBytes(frame, filled, seq(PAGE_SIZE - filled, _ => 0), SegPage(pid, npages - 1));
    }
  }

  method ZeroedPage(earth: Earth, pid: int, npages: nat, ghost m0: Memory,
                    ghost reader: nat -> FileBlock, ghost header: ProgramHeader) returns (ok: bool)
    requires npages < APPS_PAGES && header.filesz <= npages * 4096 && (forall k :: k in m0 ==> k.pid != pid)
    requires Imaged(earth, m0, pid, npages, reader, header)
    modifies earth, earth.tlb, earth.mmu
    ensures ok ==> SameProcesses(earth, old(earth.curr), old(earth.dead)) && Imaged(earth, m0, pid, npages + 1, reader, header)
    ensures ok <==> old(earth.CanGive(pid, 1))
    ensures ok ==> earth.Room(pid) == old(earth.Room(pid)) - 1
  {
    ghost var m := earth.spaces;
    var r := earth.NewPage(pid, APPS_PAGE + npages);
    if r.None? {
      return false;
    }
    ZeroPage(m, earth.spaces[SegPage(pid, npages)], pid, npages, reader, header);
    earth.WriteBytes(r.value, 0, seq(PAGE_SIZE, _ => 0), SegPage(pid, npages));
    return true;
  }

  /** The second part of load_app: zeros from the end of the file to the end of the segment. */
  method ZeroRest(earth: Earth, pid: int, npages0: nat, frame: nat, ghost m0: Memory,
                  ghost reader: nat -> FileBlock, header: ProgramHeader) returns (ok: bool)
    requires header.filesz <= APPS_SIZE && npages0 == (header.filesz + 4095) / 4096 && (forall k :: k in m0 ==> k.pid != pid)
    requires Loaded(earth, m0, pid, npages0, frame, reader, header, header.filesz)
    modifies earth, earth.tlb, earth.mmu
    ensures ok ==> SameProcesses(earth, old(earth.curr), old(earth.dead)) && Imaged(earth, m0, pid, APPS_PAGES, reader, header)
    ensures ok <==> old(earth.CanGive(pid, APPS_PAGES - npages0))
    ensures ok ==> earth.Room(pid) == old(earth.Room(pid)) - (APPS_PAGES - npages0)
  {
    ZeroTail(earth, pid, npages0, frame, m0, reader, header);
    var npages := npages0;
    while npages < APPS_PAGES
      invariant npages0 <= npages <= APPS_PAGES
      invariant SameProcesses(earth, old(earth.curr), old(earth.dead)) && Imaged(earth, m0, pid, npages, reader, header)
      invariant earth.Room(pid) == old(earth.Room(pid)) - (npages - npages0) && old(earth.CanGive(pid, npages - npages0))
    {
      ok := ZeroedPage(earth, pid, npages, m0, reader, header);
      if !ok {
        return;
      }
      npages := npages + 1;
    }
    return true;
  }

  lemma TailZeroed(m: Memory, pid: int, n: nat, reader: nat -> FileBlock, header: ProgramHeader)
    requires header.filesz % 4096 != 0 && n == (header.filesz + 4095) / 4096 && SegPage(pid, n - 1) in m
    requires HasImage(m, pid, n, reader, header, 0, header.filesz)
    ensures var filled := header.filesz % 4096;
      var m' := m[SegPage(pid, n - 1) := Splice(m[SegPage(pid, n - 1)], filled, seq(4096 - filled, _ => 0))];
      HasImage(m', pid, n, reader, header, 0, n * 4096)
  {
    var filled, k := header.filesz % 4096, SegPage(pid, n - 1);
    var m' := m[k := Splice(m[k], filled, seq(4096 - filled, _ => 0))];
    assert header.filesz == (n - 1) * 4096 + filled;
    forall q, j | 0 <= q < n && 0 <= j < 4096 && SegPage(pid, q) in m'
      ensures m'[SegPage(pid, q)][j] == ImageByte(reader, header, q * 4096 + j)
    {
      if q * 4096 + j < header.filesz {
        assert m[SegPage(pid, q)][j] == ImageByte(reader, header, q * 4096 + j);
      }
    }
  }

  lemma ZeroPage(m: Memory, page: Page, pid: int, n: nat, reader: nat -> FileBlock, header: ProgramHeader)
    requires header.filesz <= n * 4096 && HasImage(m, pid, n, reader, header, 0, n * 4096)
    ensures var m' := m[SegPage(pid, n) := page];
      HasImage(m'[SegPage(pid, n) := Splice(page, 0, seq(4096, _ => 0))], pid, n + 1, reader, header, 0, (n + 1) * 4096)
  {
    var m' := m[SegPage(pid, n) := page][SegPage(pid, n) := Splice(page, 0, seq(4096, _ => 0))];
    forall q, j | 0 <= q < n + 1 && 0 <= j < 4096 && SegPage(pid, q) in m'
      ensures m'[SegPage(pid, q)][j] == ImageByte(reader, header, q * 4096 + j)
    {
      if q < n {
        assert m[SegPage(pid, q)][j] == ImageByte(reader, header, q * 4096 + j);
      }
    }
  }

  // -------------------------------------------------------------- the arguments

  const ARGS_OFFSET := 132 // after argc and CMD_NARGS pointers

  type Args = a: seq<Byte> | |a| == 512 witness seq(512, _ => 0)

  function ArgPointer(i: nat): nat {
    APPS_ARG + ARGS_OFFSET + i * CMD_ARG_LEN
  }

  /** The argument page: argc, a table of pointers, the argument strings; everything from the
      end of the argument strings on is left alone, in particular the system call area. */
  ghost predicate ArgsOk(page0: Page, page: Page, argc: nat, argv: Option<Args>)
    requires argc <= CMD_NARGS
  {
    ArgsUpTo(page0, page, argc, argv, argc)
  }

  /** The same with the first n pointers in place. */
  ghost predicate ArgsUpTo(page0: Page, page: Page, argc: nat, argv: Option<Args>, n: nat)
    requires n <= argc <= CMD_NARGS
  {
    && page[..4] == ToBytes(argc, 4)
    && PointersOk(page, n)
    && (argv.Some? ==> page[132..132 + 32 * argc] == argv.value[..32 * argc])
    && page[644..] == page0[644..]
  }

  ghost predicate PointersOk(page: Page, n: nat)
    requires n <= CMD_NARGS
  {
    forall i :: 0 <= i < n ==> page[4 + 8 * i..12 + 8 * i] == ToBytes(ArgPointer(i), 8)
  }

  lemma ArgcWritten(page0: Page, argc: nat, argv: Option<Args>)
    requires argc <= CMD_NARGS
    ensures var page := Splice(page0, 0, ToBytes(argc, 4));
      page[..4] == ToBytes(argc, 4) && page[644..] == page0[644..]
  {
    SpliceAt(page0, 0, ToBytes(argc, 4), 0, 4);
    SpliceAt(page0, 0, ToBytes(argc, 4), 644, 4096);
  }

  lemma StringsWritten(page0: Page, page: Page, argc: nat, argv: Args)
    requires argc <= CMD_NARGS && page[..4] == ToBytes(argc, 4) && page[644..] == page0[644..]
    ensures var page' := Splice(page, 132, argv[..32 * argc]);
      page'[..4] == ToBytes(argc, 4) && page'[132..132 + 32 * argc] == argv[..32 * argc] && page'[644..] == page0[644..]
  {
    SpliceAt(page, 132, argv[..32 * argc], 0, 4);
    SpliceAt(page, 132, argv[..32 * argc], 132, 132 + 32 * argc);
    SpliceAt(page, 132, argv[..32 * argc], 644, 4096);
  }

  lemma PointersWritten(page: Page, i: nat)
    requires i < CMD_NARGS && PointersOk(page, i)
    ensures PointersOk(Splice(page, 4 + 8 * i, ToBytes(ArgPointer(i), 8)), i + 1)
  {
    var bytes := ToBytes(ArgPointer(i), 8);
    forall j | 0 <= j < i + 1
      ensures Splice(page, 4 + 8 * i, bytes)[4 + 8 * j..12 + 8 * j] == ToBytes(ArgPointer(j), 8)
    {
      SpliceAt(page, 4 + 8 * i, bytes, 4 + 8 * j, 12 + 8 * j);
    }
  }

  lemma PointerWritten(page0: Page, page: Page, argc: nat, argv: Option<Args>, i: nat)
    requires i < argc <= CMD_NARGS && ArgsUpTo(page0, page, argc, argv, i)
    ensures ArgsUpTo(page0, Splice(page, 4 + 8 * i, ToBytes(ArgPointer(i), 8)), argc, argv, i + 1)
  {
    var bytes, strings := ToBytes(ArgPointer(i), 8), 132 + 32 * argc;
    PointersWritten(page, i);
    SpliceAt(page, 4 + 8 * i, bytes, 0, 4);
    SpliceAt(page, 4 + 8 * i, bytes, 644, 4096);
    SpliceAt(page, 4 + 8 * i, bytes, 132, strings);
  }

  /** Each pointer in the table, read back as a number and followed in the process's own
      memory, gives that argument; and the arguments end before the system call area. */
  lemma ArgvPointsToArguments(m: Memory, pid: int, page0: Page, argc: nat, argv: Args, i: nat, c: nat)
    requires VirtualPage(pid, ARG_PAGE) in m && i < argc <= CMD_NARGS && c < CMD_ARG_LEN
    requires ArgsOk(page0, m[VirtualPage(pid, ARG_PAGE)], argc, Some(argv))
    ensures var p := FromBytes(m[VirtualPage(pid, ARG_PAGE)][4 + 8 * i..12 + 8 * i]);
      && APPS_ARG <= p && p + CMD_ARG_LEN <= SYSCALL_ARG
      && (p + c) / 4096 == ARG_PAGE
      && ByteAt(m, pid, p + c) == argv[32 * i + c]
  {
    var page := m[VirtualPage(pid, ARG_PAGE)];
    assert Pow256(8) >= 0x1_0000_0000 by {
      assert Pow256(4) == 0x1_0000_0000;
    }
    BytesRoundTrip(ArgPointer(i), 8);
    assert page[132..132 + 32 * argc][32 * i + c] == argv[..32 * argc][32 * i + c];
  }

  /** The last part of load_app: argc and argv in the first of two pages, the second of which
      is for the stack. */
  method LoadArgs(earth: Earth, pid: int, argc: nat, argv: Option<Args>) returns (ok: bool, ghost page0: Page)
    requires earth.Valid() && pid > 0 && pid != earth.curr && pid !in earth.dead && argc <= CMD_NARGS
    requires VirtualPage(pid, ARG_PAGE) !in earth.spaces && VirtualPage(pid, ARG_PAGE + 1) !in earth.spaces
    modifies earth, earth.tlb, earth.mmu
    ensures ok ==> earth.Valid() && SameProcesses(earth, old(earth.curr), old(earth.dead))
    ensures ok ==> VirtualPage(pid, ARG_PAGE) in earth.spaces && VirtualPage(pid, ARG_PAGE + 1) in earth.spaces
    ensures ok ==> earth.spaces == old(earth.spaces)[VirtualPage(pid, ARG_PAGE) := earth.spaces[VirtualPage(pid, ARG_PAGE)]]
                                               [VirtualPage(pid, ARG_PAGE + 1) := earth.spaces[VirtualPage(pid, ARG_PAGE + 1)]]
    ensures ok ==> ArgsOk(page0, earth.spaces[VirtualPage(pid, ARG_PAGE)], argc, argv)
    ensures ok <==> old(earth.CanGive(pid, 2))
    ensures ok ==> earth.Room(pid) == old(earth.Room(pid)) - 2
  {
    ghost var k := VirtualPage(pid, ARG_PAGE);
    page0 := seq(4096, _ => 0);
    var frame := earth.NewPage(pid, ARG_PAGE);
    if frame.None? {
      return false, page0;
    }
    page0 := earth.spaces[k];
    WriteArgs(earth, frame.value, argc, argv, k);
    var second := earth.NewPage(pid, ARG_PAGE + 1);
    return second.Some?, page0;
  }

  method WriteArgs(earth: Earth, frame: nat, argc: nat, argv: Option<Args>, ghost k: VirtualPage)
    requires earth.Valid() && k in earth.spaces && Holds(earth, k, frame) && k.pid != earth.curr && argc <= CMD_NARGS
    modifies earth`spaces, earth.tlb`frames, earth.mmu`frames
    ensures earth.Valid() && k in earth.spaces && earth.spaces == old(earth.spaces)[k := earth.spaces[k]]
    ensures ArgsOk(old(earth.spaces)[k], earth.spaces[k], argc, argv)
  {
    ghost var m := earth.spaces;
    WriteStrings(earth, frame, argc, argv, k);
    ghost var page := earth.spaces[k];
    var i := 0;
    while i < argc
      invariant 0 <= i <= argc && earth.Valid() && earth.spaces == m[k := page]
      invariant ArgsUpTo(m[k], page, argc, argv, i)
    {
      PointerWritten(m[k], page, argc, argv, i);
      page := Splice(page, 4 + 8 * i, ToBytes(ArgPointer(i), 8));
      WritePointer(earth, frame, i, m, k);
      i := i + 1;
    }
  }

  method WritePointer(earth: Earth, frame: nat, i: nat, ghost m: Memory, ghost k: VirtualPage)
    requires earth.Valid() && k in earth.spaces && Holds(earth, k, frame) && k.pid != earth.curr && i < CMD_NARGS
    requires earth.spaces == m[k := earth.spaces[k]]
    modifies earth`spaces, earth.tlb`frames, earth.mmu`frames
    ensures earth.Valid() && earth.spaces == m[k := Splice(old(earth.spaces)[k], 4 + 8 * i, ToBytes(ArgPointer(i), 8))]
  {
    earth.WriteBytes(frame, 4 + 8 * i, ToBytes(ArgPointer(i), 8), k);
  }

  method WriteStrings(earth: Earth, frame: nat, argc: nat, argv: Option<Args>, ghost k: VirtualPage)
    requires earth.Valid() && k in earth.spaces && Holds(earth, k, frame) && k.pid != earth.curr && argc <= CMD_NARGS
    modifies earth`spaces, earth.tlb`frames, earth.mmu`frames
    ensures earth.Valid() && k in earth.spaces && earth.spaces == old(earth.spaces)[k := earth.spaces[k]]
    ensures ArgsUpTo(old(earth.spaces)[k], earth.spaces[k], argc, argv, 0)
  {
    ghost var page0 := earth.spaces[k];
    ArgcWritten(page0, argc, argv);
    earth.WriteBytes(frame, 0, ToBytes(argc, 4), k);
    if argv.Some? {
      StringsWritten(page0, earth.spaces[k], argc, argv.value);
      earth.WriteBytes(frame, ARGS_OFFSET, argv.value[..argc * CMD_ARG_LEN], k);
    }
  }

  // ------------------------------------------------------------------- load_app

  /** load_app: the new process sees the file's segment at APPS_ENTRY followed by zeros, its
      arguments, and nothing else; no other process's memory changes. It takes six frames, with
      page tables twelve for a new address space, and fails exactly if there are fewer. */
  method LoadApp(earth: Earth, pid: int, reader: nat -> FileBlock, argc: nat, argv: Option<Args>, header: ProgramHeader)
    returns (ok: bool, ghost page0: Page)
    requires earth.Valid() && pid > 0 && pid != earth.curr && pid !in earth.dead
    requires header.filesz <= APPS_SIZE && argc <= CMD_NARGS
    requires forall k :: k in earth.spaces ==> k.pid != pid
    modifies earth, earth.tlb, earth.mmu
    ensures ok ==> earth.Valid() && SameProcesses(earth, old(earth.curr), old(earth.dead))
    ensures ok ==> forall k :: k in earth.spaces <==> k in old(earth.spaces) || (k.pid == pid && IsAppPage(k.page))
    ensures ok ==> forall k :: k in old(earth.spaces) ==> earth.spaces[k] == old(earth.spaces)[k]
    ensures ok ==> forall x {:trigger ImageByte(reader, header, x)} :: 0 <= x < APPS_SIZE ==>
                VirtualPage(pid, (APPS_ENTRY + x) / 4096) in earth.spaces
                && ByteAt(earth.spaces, pid, APPS_ENTRY + x) == ImageByte(reader, header, x)
    ensures ok ==> VirtualPage(pid, ARG_PAGE) in earth.spaces
    ensures ok ==> ArgsOk(page0, earth.spaces[VirtualPage(pid, ARG_PAGE)], argc, argv)
    ensures ok <==> old(earth.CanGive(pid, 6))
    ensures ok ==> earth.Room(pid) == old(earth.Room(pid)) - 6
  {
    ghost var m0 := earth.spaces;
    page0 := seq(4096, _ => 0);
    var npages, frame;
    ok, npages, frame := LoadBlocks(earth, pid, reader, header);
    if !ok {
      return;
    }
    ok := ZeroRest(earth, pid, npages, frame, m0, reader, header);
    if !ok {
      return;
    }
    ghost var m1 := earth.spaces;
    ok, page0 := LoadArgs(earth, pid, argc, argv);
    if ok {
      ImageInView(m0, m1, earth.spaces, pid, reader, header);
    }
  }

  lemma ImageInView(m0: Memory, m1: Memory, m: Memory, pid: int, reader: nat -> FileBlock, header: ProgramHeader)
    requires (forall k :: k in m0 ==> k.pid != pid) && Added(m0, m1, pid, APPS_PAGES)
    requires HasImage(m1, pid, APPS_PAGES, reader, header, 0, APPS_SIZE)
    requires VirtualPage(pid, ARG_PAGE) in m && VirtualPage(pid, ARG_PAGE + 1) in m
    requires m == m1[VirtualPage(pid, ARG_PAGE) := m[VirtualPage(pid, ARG_PAGE)]]
                    [VirtualPage(pid, ARG_PAGE + 1) := m[VirtualPage(pid, ARG_PAGE + 1)]]
    ensures forall k :: k in m <==> k in m0 || (k.pid == pid && IsAppPage(k.page))
    ensures forall k :: k in m0 ==> m[k] == m0[k]
    ensures forall x {:trigger ImageByte(reader, header, x)} :: 0 <= x < APPS_SIZE ==>
              VirtualPage(pid, (APPS_ENTRY + x) / 4096) in m && ByteAt(m, pid, APPS_ENTRY + x) == ImageByte(reader, header, x)
  {
    forall x {:trigger ImageByte(reader, header, x)} | 0 <= x < APPS_SIZE
      ensures VirtualPage(pid, (APPS_ENTRY + x) / 4096) in m && ByteAt(m, pid, APPS_ENTRY + x) == ImageByte(reader, header, x)
    {
      var q, j := x / 4096, x % 4096;
      assert (APPS_ENTRY + x) / 4096 == APPS_PAGE + q && (APPS_ENTRY + x) % 4096 == j && q * 4096 + j == x;
      assert SegPage(pid, q) in m1;
      assert m1[SegPage(pid, q)][j] == ImageByte(reader, header, x);
    }
  }
}
