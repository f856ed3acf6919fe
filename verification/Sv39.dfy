/** Sv39 page-table entries and the address-translation algorithm of the RISC-V privileged
    architecture (version 1.10, sections 4.3.2 and 4.4), on the frames of the frame cache. */
module Sv39 {
  import opened Pages
  import Radix

  const U64_LIMIT := 0x1_0000_0000_0000_0000
  const PPN_LIMIT := 0x1000_0000_0000 // 44 bits
  const VPN_LIMIT := 0x800_0000 // 27 bits

  type U64 = x: int | 0 <= x < U64_LIMIT

  /** A 4 KB frame as 512 64-bit words. */
  type Frame = f: seq<U64> | |f| == 512 witness seq(512, _ => 0)

  const CACHE_START := 0x4010_0000 // FRAME_CACHE_START

  function ZeroFrame(): (z: Frame)
    ensures forall i :: 0 <= i < 512 ==> z[i] == 0
  {
    seq(512, _ => 0)
  }

  // Entry bits
  const PTE_V := 0x1
  const OS_XWRV := 0xF
  const USER_XWRV := 0x1F
  const PTE_A := 0x40
  const PTE_D := 0x80
  const OS_FLAGS := 0xCF // PTE_A | PTE_D | OS_XWRV
  const USER_FLAGS := 0xDF // PTE_A | PTE_D | USER_XWRV

  predicate V(pte: U64) { pte % 2 == 1 }
  predicate R(pte: U64) { pte / 2 % 2 == 1 }
  predicate W(pte: U64) { pte / 4 % 2 == 1 }
  predicate X(pte: U64) { pte / 8 % 2 == 1 }
  predicate U(pte: U64) { pte / 16 % 2 == 1 }
  predicate A(pte: U64) { pte / 64 % 2 == 1 }
  predicate D(pte: U64) { pte / 128 % 2 == 1 }

  /** PA_TO_PTE: bits 12 to 55 of an address moved to bits 10 to 53. */
  function PaToPte(pa: U64): (pte: U64)
    ensures pte % 1024 == 0
  {
    pa / 4 / 1024 % PPN_LIMIT * 1024
  }

  /** PTE_GET_PA: the address of the page that an entry refers to. */
  function PteGetPa(pte: U64): U64 {
    pte / 1024 % PPN_LIMIT * 4096
  }

  /** An entry with low bits set: the flags do not overlap the page number. */
  function WithFlags(pte: U64, flags: nat): U64
    requires pte % 1024 == 0 && flags < 1024
  {
    pte + flags
  }

  /** VA_GET_VPN for the page with the given virtual page number. */
  function Index(vpn: nat, level: nat): (i: nat)
    requires level <= 2
    ensures i < 512
  {
    if level == 0 then vpn % 512 else if level == 1 then vpn / 512 % 512 else vpn / 262144 % 512
  }

  function FrameAddr(f: nat): U64
    requires f < NFRAMES
  {
    CACHE_START + f * 4096
  }

  predicate IsFrameAddr(pa: nat) {
    CACHE_START <= pa < CACHE_START + NFRAMES * 4096 && pa % 4096 == 0
  }

  function FrameAt(pa: nat): (f: nat)
    requires IsFrameAddr(pa)
    ensures f < NFRAMES && FrameAddr(f) == pa
  {
    (pa - CACHE_START) / 4096
  }

  lemma FrameRoundTrip(f: nat)
    requires f < NFRAMES
    ensures IsFrameAddr(FrameAddr(f)) && FrameAt(FrameAddr(f)) == f
  {
  }

  /** Encoding a page-aligned address and flags into an entry loses neither. */
  lemma PteRoundTrip(pa: U64, flags: nat)
    requires pa % 4096 == 0 && pa < PPN_LIMIT * 4096 && flags < 1024
    ensures PteGetPa(WithFlags(PaToPte(pa), flags)) == pa
    ensures WithFlags(PaToPte(pa), flags) % 1024 == flags
  {
    var ppn := pa / 4096;
    assert pa == 4096 * ppn;
    assert pa / 4 == 1024 * ppn;
    Radix.DivUnique(1024 * ppn + flags, 1024, ppn, flags);
  }

  /** MAKE_SATP: the mode field says Sv39, the low 44 bits are the page number of the root. */
  function MakeSatp(root: nat): U64
    requires root < PPN_LIMIT * 4096
  {
    0x8000_0000_0000_0000 + root / 4096
  }

  /** Where the hardware finds the root table. */
  function SatpRoot(satp: U64): U64 {
    satp % PPN_LIMIT * 4096
  }

  lemma SatpRoundTrip(root: nat)
    requires root % 4096 == 0 && root < PPN_LIMIT * 4096
    ensures SatpRoot(MakeSatp(root)) == root && MakeSatp(root) / 0x1000_0000_0000_0000 == 8
  {
    assert 0x8000_0000_0000_0000 == 0x8_0000 * PPN_LIMIT;
    Radix.DivUnique(MakeSatp(root), PPN_LIMIT, 0x8_0000, root / 4096);
    Radix.DivUnique(MakeSatp(root), 0x1000_0000_0000_0000, 8, root / 4096);
  }

  /** An entry that points to a page table in frame f. */
  function TablePte(f: nat): (pte: U64)
    requires f < NFRAMES
  {
    (CACHE_PAGE + f) * 1024 + PTE_V
  }

  /** A leaf entry for the page with the given physical page number. */
  function LeafPte(ppn: nat, flags: nat): (pte: U64)
    requires ppn < PPN_LIMIT && flags < 1024
  {
    ppn * 1024 + flags
  }

  /** These are the entries that the macros build from addresses and flags. */
  lemma EntriesAreEncoded(f: nat, ppn: nat, flags: nat)
    requires f < NFRAMES && ppn < PPN_LIMIT && flags < 1024
    ensures TablePte(f) == WithFlags(PaToPte(FrameAddr(f)), PTE_V)
    ensures LeafPte(ppn, flags) == WithFlags(PaToPte(ppn * 4096), flags)
  {
  }

  lemma LeafTarget(ppn: nat, flags: nat)
    requires ppn < PPN_LIMIT && flags < 1024
    ensures PteGetPa(LeafPte(ppn, flags)) == ppn * 4096 && LeafPte(ppn, flags) % 1024 == flags
  {
  }

  /** The outcome of address translation: a page fault, or the leaf entry and its level. */
  datatype Translation = Fault | Leaf(pte: U64, level: nat)

  /** The translation algorithm for a virtual page, from the table in frame f at the level. */
  function Walk(frames: seq<Frame>, f: nat, vpn: nat, level: nat): Translation
    requires |frames| == NFRAMES && f < NFRAMES && level <= 2
    decreases level, 1
  {
    WalkEntry(frames, frames[f][Index(vpn, level)], vpn, level)
  }

  function WalkEntry(frames: seq<Frame>, pte: U64, vpn: nat, level: nat): Translation
    requires |frames| == NFRAMES && level <= 2
    decreases level, 0
  {
    if !V(pte) || (!R(pte) && W(pte)) then Fault
    else if R(pte) || X(pte) then
      if level > 0 && Misaligned(pte, level) then Fault else Leaf(pte, level)
    else if level == 0 || !IsFrameAddr(PteGetPa(pte)) then Fault
    else Walk(frames, FrameAt(PteGetPa(pte)), vpn, level - 1)
  }

  /** A superpage must start at a multiple of its size. */
  predicate Misaligned(pte: U64, level: nat) {
    pte / 1024 % (if level == 1 then 512 else 262144) != 0
  }

  lemma LeafBits(pte: U64)
    ensures pte % 1024 == OS_FLAGS ==> V(pte) && R(pte) && W(pte) && X(pte) && !U(pte) && A(pte) && D(pte)
    ensures pte % 1024 == USER_FLAGS ==> V(pte) && R(pte) && W(pte) && X(pte) && U(pte) && A(pte) && D(pte)
  {
    LowBits(pte, pte / 1024, pte % 1024);
  }

  /** Bits 0 to 9 of an entry are those of its flags. */
  lemma LowBits(x: nat, q: nat, c: nat)
    requires x == 1024 * q + c && c < 1024
    ensures x % 2 == c % 2 && x / 2 % 2 == c / 2 % 2 && x / 4 % 2 == c / 4 % 2 && x / 8 % 2 == c / 8 % 2
    ensures x / 16 % 2 == c / 16 % 2 && x / 64 % 2 == c / 64 % 2 && x / 128 % 2 == c / 128 % 2
  {
    LowBit(x, 512 * q, 1, c);
    LowBit(x, 256 * q, 2, c);
    LowBit(x, 128 * q, 4, c);
    LowBit(x, 64 * q, 8, c);
    LowBit(x, 32 * q, 16, c);
    LowBit(x, 8 * q, 64, c);
    LowBit(x, 4 * q, 128, c);
  }

  lemma LowBit(x: nat, m: nat, d: nat, c: nat)
    requires d > 0 && x == d * (2 * m) + c
    ensures x / d % 2 == c / d % 2
  {
    assert c == d * (c / d) + c % d;
    assert d * (2 * m) + d * (c / d) == d * (2 * m + c / d);
    Radix.DivUnique(x, d, 2 * m + c / d, c % d);
  }

  lemma TableTarget(f: nat)
    requires f < NFRAMES
    ensures var pte := TablePte(f);
      V(pte) && !R(pte) && !W(pte) && !X(pte) && PteGetPa(pte) == FrameAddr(f)
  {
    LeafTarget(CACHE_PAGE + f, PTE_V);
    LowBits(TablePte(f), CACHE_PAGE + f, PTE_V);
  }

  /** How the walk treats the three kinds of entries that occur. */
  lemma WalkEntries(frames: seq<Frame>, f: nat, pte: U64, vpn: nat, level: nat)
    requires |frames| == NFRAMES && f < NFRAMES && level <= 2
    ensures WalkEntry(frames, 0, vpn, level) == Fault
    ensures level > 0 ==> WalkEntry(frames, TablePte(f), vpn, level) == Walk(frames, f, vpn, level - 1)
    ensures pte % 1024 == OS_FLAGS || pte % 1024 == USER_FLAGS ==> WalkEntry(frames, pte, vpn, 0) == Leaf(pte, 0)
  {
    TableTarget(f);
    LeafBits(pte);
    FrameRoundTrip(f);
  }
}
