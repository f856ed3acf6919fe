/** The treedisk operations on an ideal block store. A panic ends the program, so it is an
    outcome of its own after which nothing is promised about the disk. */
module Treedisk {
  import opened Options
  import opened Radix
  import opened TreeLayout
  import opened TreeSteps
  import opened WriteSpec

  datatype Status = Done | Failed | Panicked

  /** The store below: an array of blocks. */
  class BlockStore {
    var blocks: Disk

    constructor (blocks: Disk)
      ensures this.blocks == blocks
    {
      this.blocks := blocks;
    }

    method Read(b: nat) returns (block: Block)
      requires b < |blocks|
      ensures block == blocks[b]
    {
      block := blocks[b];
    }

    method Write(b: nat, block: Block)
      requires b < |blocks|
      modifies this
      ensures blocks == old(blocks)[b := block]
    {
      blocks := blocks[b := block];
    }
  }

  /** In-memory copies of the superblock and of the block with the inode; inode is the word
      of the inode in that block. */
  class Snapshot {
    var superblock: Block
    var inodeblock: Block
    var inodeBlockno: nat
    var inode: nat

    constructor ()
    {
      superblock, inodeblock, inodeBlockno, inode := ZeroBlock(), ZeroBlock(), 0, 0;
    }
  }

  /** The block that an allocation takes: the last reference in the first free-list block, and
      that block itself once it has none. */
  ghost predicate IsNextFree(disk: Disk, b: nat) {
    && |disk| > 0 && disk[0][1] < |disk|
    && var refs := disk[disk[0][1]];
       || (b == disk[0][1] && forall j :: 0 < j < 128 ==> refs[j] == 0)
       || (b != 0 && exists i :: 0 < i < 128 && refs[i] == b && forall j :: i < j < 128 ==> refs[j] == 0)
  }

  class Treedisk {
    const below: BlockStore
    ghost var lay: Layout

    constructor (below: BlockStore, ghost lay: Layout)
      requires FsInv(below.blocks, lay)
      ensures this.below == below && this.lay == lay
    {
      this.below := below;
      this.lay := lay;
    }

    ghost predicate Valid()
      reads this, below
    {
      FsInv(below.blocks, lay)
    }

    ghost function FreeCount(): nat
      reads this
    {
      |FreeBlocks(lay)|
    }

    method GetSnapshot(snapshot: Snapshot, ino: nat) returns (ok: bool)
      requires Valid() && ino < WORD_LIMIT
      modifies snapshot
      ensures ok <==> ino < |lay.height|
      ensures ok ==> snapshot.superblock == below.blocks[0]
      ensures ok ==> snapshot.inodeBlockno == InodeBlock(ino) < |below.blocks| && snapshot.inode == RootWord(ino)
      ensures ok ==> snapshot.inodeblock == below.blocks[InodeBlock(ino)]
    {
      snapshot.superblock := below.Read(0);
      if ino >= snapshot.superblock[0] * INODES_PER_BLOCK {
        return false;
      }
      snapshot.inodeBlockno := 1 + ino / INODES_PER_BLOCK;
      snapshot.inodeblock := below.Read(snapshot.inodeBlockno);
      snapshot.inode := 2 * (ino % INODES_PER_BLOCK);
      return true;
    }

    /** Takes one block off the free list; panics exactly when no block is free. */
    method AllocBlock(snapshot: Snapshot, ghost limbo: set<nat>) returns (r: Option<nat>)
      requires Ownership(lay, |below.blocks|, limbo) && FreeList(below.blocks, lay)
      requires snapshot.superblock == below.blocks[0]
      modifies this`lay, below, snapshot`superblock
      ensures r.None? <==> old(FreeBlocks(lay)) == {}
      ensures r.Some? ==> r.value in old(FreeBlocks(lay)) && FreeBlocks(lay) == old(FreeBlocks(lay)) - {r.value}
      ensures r.Some? ==> old(lay).inodeBlocks < r.value < |below.blocks| && IsNextFree(old(below.blocks), r.value)
      ensures r.Some? ==> Ownership(lay, |below.blocks|, limbo + {r.value}) && FreeList(below.blocks, lay)
      ensures r.Some? ==> snapshot.superblock == below.blocks[0]
      ensures r.Some? ==> OnlyFreeListChanged(old(below.blocks), below.blocks, old(lay)) && SameTrees(old(lay), lay)
      ensures r.Some? ==> forall k :: 0 <= k < |lay.chain| ==> lay.chain[k] in old(lay).chain
    {
      var b := snapshot.superblock[1];
      if b == 0 {
        NoneFree(below.blocks, lay, limbo);
        return None;
      }
      assert ChainOk(below.blocks, lay, |lay.chain| - 1);
      var freelistblock := below.Read(b);
      var i := 127;
      while i > 0 && freelistblock[i] == 0
        invariant 0 <= i < 128
        invariant forall j :: i < j < 128 ==> freelistblock[j] == 0
      {
        i := i - 1;
      }
      if i == 0 {
        AllocHead(below.blocks, lay, limbo);
        snapshot.superblock := snapshot.superblock[1 := freelistblock[0]];
        below.Write(0, snapshot.superblock);
        lay := lay.(owner := lay.owner - {b}, chain := lay.chain[..|lay.chain| - 1]);
        r := Some(b);
      } else {
        AllocEntry(below.blocks, lay, limbo, i);
        ghost var e := freelistblock[i];
        r := Some(freelistblock[i]);
        below.Write(b, freelistblock[i := 0]);
        lay := lay.(owner := lay.owner - {e});
      }
    }

    /** The walk of treedisk_read from the root block down to the offset. */
    method ReadPath(ghost ino: nat, offset: Word, nlevels: nat, root: Word) returns (block: Block)
      requires Valid() && ino < |lay.height| && nlevels == lay.height[ino]
      requires root == Ref(lay.node, At(ino, offset, nlevels))
      ensures block == Content(below.blocks, lay, ino, offset)
    {
      var b, level := root, nlevels;
      block := ZeroBlock();
      while b != 0
        invariant 0 <= level <= nlevels && b == Ref(lay.node, At(ino, offset, level))
        invariant b == 0 ==> block == ZeroBlock()
        decreases level
      {
        LookupIsContent(below.blocks, lay, ino, level, offset);
        assert NodeOk(below.blocks, lay, At(ino, offset, level));
        block := below.Read(b);
        if level == 0 {
          return;
        }
        ChildOnPath(ino, offset, level);
        level := level - 1;
        ShiftRemovesDigits(offset, level);
        b := block[LogShiftR(offset, level * 7) % REFS_PER_BLOCK];
        if b == 0 {
          block := ZeroBlock();
        }
      }
      LookupIsContent(below.blocks, lay, ino, level, offset);
    }

    /** treedisk_read: the block at the offset, a hole being zero; -1 exactly for an inode
        number or an offset out of range. */
    method Read(ino: nat, offset: Word) returns (r: Option<Block>)
      requires Valid() && ino < WORD_LIMIT
      ensures r.Some? <==> ino < |Files(below.blocks)| && offset < |Files(below.blocks)[ino]|
      ensures r.Some? ==> r.value == Files(below.blocks)[ino][offset]
    {
      var snapshot := new Snapshot();
      var ok := GetSnapshot(snapshot, ino);
      if !ok {
        return None;
      }
      var nblocks := snapshot.inodeblock[snapshot.inode + 1];
      if offset >= nblocks {
        return None;
      }
      var nlevels := CountLevels(nblocks - 1);
      assert HeightOk(below.blocks, lay, ino);
      HeightCovers(nblocks);
      RootPlace(ino, offset, nlevels);
      FileIsContent(below.blocks, lay, ino);
      var block := ReadPath(ino, offset, nlevels, snapshot.inodeblock[snapshot.inode]);
      return Some(block);
    }

    /** What holds inside a write while block `at` is kept in memory as buf. */
    ghost predicate Mid(at: nat, buf: Block)
      reads this, below
    {
      && |below.blocks| <= WORD_LIMIT
      && Ownership(lay, |below.blocks|, {})
      && FreeList(below.blocks, lay)
      && 0 < at < |below.blocks| && at !in lay.chain
      && TreeInv(Overlay(below.blocks, at, buf), lay)
    }

    /** One round of the growth loop of treedisk_write: a new root above the old one. */
    method GrowOnce(snapshot: Snapshot, ghost data: Pos) returns (ok: bool)
      requires data.ino < |lay.height|
      requires snapshot.inodeBlockno == InodeBlock(data.ino) && snapshot.inode == RootWord(data.ino)
      requires Mid(snapshot.inodeBlockno, snapshot.inodeblock) && snapshot.superblock == below.blocks[0]
      requires snapshot.inodeblock[snapshot.inode + 1] > 0
      modifies this`lay, below, snapshot`superblock, snapshot`inodeblock
      ensures ok <==> old(FreeBlocks(lay)) != {}
      ensures ok ==> FreeCount() == old(FreeCount()) - 1
      ensures ok ==> Mid(snapshot.inodeBlockno, snapshot.inodeblock) && snapshot.superblock == below.blocks[0]
      ensures ok ==> Progress(old(Overlay(below.blocks, snapshot.inodeBlockno, snapshot.inodeblock)), old(lay),
                              Overlay(below.blocks, snapshot.inodeBlockno, snapshot.inodeblock), lay, data)
      ensures ok ==> lay.height[data.ino] == old(lay).height[data.ino] + 1
      ensures ok ==> lay.node.Keys == old(lay).node.Keys + {Pos(data.ino, lay.height[data.ino], 0)}
    {
      ghost var disk1, lay1, at, buf := below.blocks, lay, snapshot.inodeBlockno, snapshot.inodeblock;
      var indir := AllocBlock(snapshot, {});
      if indir.None? {
        return false;
      }
      AllocKeepsTree(disk1, below.blocks, lay1, lay, {}, at, buf, data);
      GrowStep(below.blocks, lay, buf, data.ino, indir.value, data);
      ghost var over2, lay2 := Overlay(below.blocks, at, buf), lay;
      var tib: Block := ZeroBlock()[0 := snapshot.inodeblock[snapshot.inode]];
      snapshot.inodeblock := snapshot.inodeblock[snapshot.inode := indir.value];
      below.Write(indir.value, tib);
      lay := Grown(lay, data.ino, indir.value);
      ProgressTrans(Overlay(disk1, at, buf), lay1, over2, lay2, Overlay(below.blocks, at, snapshot.inodeblock), lay, data);
      return true;
    }

    ghost predicate Settled()
      reads this, below
    {
      && |below.blocks| <= WORD_LIMIT
      && Ownership(lay, |below.blocks|, {})
      && FreeList(below.blocks, lay)
      && TreeInv(below.blocks, lay)
    }

    /** The growth loop of treedisk_write. */
    method GrowLevels(snapshot: Snapshot, ghost data: Pos, nlevels: nat, nlevelsAfter: nat) returns (ok: bool)
      requires data.ino < |lay.height| && lay.height[data.ino] == nlevels <= nlevelsAfter
      requires snapshot.inodeBlockno == InodeBlock(data.ino) && snapshot.inode == RootWord(data.ino)
      requires Mid(snapshot.inodeBlockno, snapshot.inodeblock) && snapshot.superblock == below.blocks[0]
      requires snapshot.inodeblock[snapshot.inode + 1] > 0
      modifies this`lay, below, snapshot`superblock, snapshot`inodeblock
      ensures ok <==> nlevelsAfter - nlevels <= old(FreeCount())
      ensures ok ==> FreeCount() == old(FreeCount()) - (nlevelsAfter - nlevels)
      ensures ok ==> Mid(snapshot.inodeBlockno, snapshot.inodeblock) && snapshot.superblock == below.blocks[0]
      ensures ok ==> Progress(old(Overlay(below.blocks, snapshot.inodeBlockno, snapshot.inodeblock)), old(lay),
                              Overlay(below.blocks, snapshot.inodeBlockno, snapshot.inodeblock), lay, data)
      ensures ok ==> lay.height[data.ino] == nlevelsAfter
      ensures ok ==> forall p :: p in lay.node && p !in old(lay).node ==> p.index == 0
      ensures ok && nlevels < nlevelsAfter ==> Pos(data.ino, nlevelsAfter, 0) in lay.node
    {
      ghost var at := snapshot.inodeBlockno;
      ghost var over0, lay0 := Overlay(below.blocks, at, snapshot.inodeblock), lay;
      var level := nlevels;
      while nlevelsAfter > level
        invariant nlevels <= level <= nlevelsAfter
        invariant Mid(at, snapshot.inodeblock) && snapshot.superblock == below.blocks[0]
        invariant Progress(over0, lay0, Overlay(below.blocks, at, snapshot.inodeblock), lay, data)
        invariant lay.height[data.ino] == level
        invariant FreeCount() == old(FreeCount()) - (level - nlevels)
        invariant forall p :: p in lay.node && p !in lay0.node ==> p.index == 0
        invariant level > nlevels ==> Pos(data.ino, level, 0) in lay.node
      {
        ghost var over1, lay1 := Overlay(below.blocks, at, snapshot.inodeblock), lay;
        assert Size(over1, data.ino) == Size(over0, data.ino);
        ok := GrowOnce(snapshot, data);
        if !ok {
          return false;
        }
        ProgressTrans(over0, lay0, over1, lay1, Overlay(below.blocks, at, snapshot.inodeblock), lay, data);
        level := level + 1;
      }
      return true;
    }

    /** Filling the hole at p while walking down: allocate a block, put it into the parent
        block buf and write that back. */
    method FillHole(snapshot: Snapshot, at: nat, buf: Block, slot: nat, ghost p: Pos, ghost data: Pos) returns (r: Option<nat>)
      requires Mid(at, buf) && snapshot.superblock == below.blocks[0]
      requires InTree(Overlay(below.blocks, at, buf), lay, p) && p !in lay.node
      requires at == SlotBlock(lay, p) && slot == SlotWord(lay, p)
      requires data.ino == p.ino && (p.level == 0 ==> p == data)
      modifies this`lay, below, snapshot`superblock
      ensures r.None? <==> old(FreeBlocks(lay)) == {}
      ensures r.Some? ==> 0 < r.value < |below.blocks| && lay.node == old(lay).node[p := r.value]
      ensures r.Some? ==> FreeCount() == old(FreeCount()) - 1 && snapshot.superblock == below.blocks[0]
      ensures r.Some? ==> lay.height == old(lay).height
      ensures r.Some? ==> Mid(r.value, Fresh(p.level, below.blocks[r.value]))
      ensures r.Some? ==> Progress(old(Overlay(below.blocks, at, buf)), old(lay),
        Overlay(below.blocks, r.value, Fresh(p.level, below.blocks[r.value])), lay, data)
    {
      ghost var disk0, lay0 := below.blocks, lay;
      r := AllocBlock(snapshot, {});
      if r.None? {
        return;
      }
      FillStep(disk0, lay0, below.blocks, lay, buf, p, r.value, data);
      below.Write(at, buf[slot := r.value]);
      lay := Attached(lay, p, r.value);
    }

    /** One round of the walk: gets or allocates the block at p and, unless it is the data
        block, leaves its contents in tib. */
    method NextBlock(snapshot: Snapshot, at: nat, buf: Block, slot: nat, level: nat, ghost p: Pos, ghost data: Pos)
      returns (r: Option<nat>, tib: Block)
      requires Mid(at, buf) && snapshot.superblock == below.blocks[0]
      requires buf == below.blocks[at] || buf == ZeroBlock()
      requires InTree(Overlay(below.blocks, at, buf), lay, p) && p.level == level
      requires at == SlotBlock(lay, p) && slot == SlotWord(lay, p)
      requires data.ino == p.ino && (level == 0 ==> p == data)
      modifies this`lay, below, snapshot`superblock
      ensures r.None? <==> p !in old(lay).node && old(FreeBlocks(lay)) == {}
      ensures r.Some? ==> 0 < r.value < |below.blocks| && lay.node == old(lay).node[p := r.value]
      ensures r.Some? ==> FreeCount() == old(FreeCount()) - (if p in old(lay).node then 0 else 1)
      ensures r.Some? ==> snapshot.superblock == below.blocks[0]
      ensures r.Some? ==> tib == below.blocks[r.value] || (level > 0 && tib == ZeroBlock())
      ensures r.Some? ==> Mid(r.value, tib) && lay.height == old(lay).height
      ensures r.Some? ==> Progress(old(Overlay(below.blocks, at, buf)), old(lay), Overlay(below.blocks, r.value, tib), lay, data)
    {
      SlotHoldsReference(Overlay(below.blocks, at, buf), lay, p);
      var b := buf[slot];
      tib := ZeroBlock();
      if b == 0 {
        r := FillHole(snapshot, at, buf, slot, p, data);
        if r.Some? && level == 0 {
          tib := below.Read(r.value);
        }
      } else {
        assert Overlay(below.blocks, at, buf) == below.blocks;
        assert NodeOk(below.blocks, lay, p);
        tib := below.Read(b);
        assert Overlay(below.blocks, b, tib) == below.blocks;
        r := Some(b);
      }
    }

    /** The walk has reached place p: its reference is word slot of block `at`, kept in memory
        as buf. */
    ghost predicate Walking(at: nat, buf: Block, slot: nat, p: Pos)
      reads this, below
    {
      && Mid(at, buf)
      && (buf == below.blocks[at] || buf == ZeroBlock())
      && InTree(Overlay(below.blocks, at, buf), lay, p)
      && at == SlotBlock(lay, p) && slot == SlotWord(lay, p)
    }

    /** One level of the walk above the data block. */
    method WalkLevel(snapshot: Snapshot, at: nat, buf: Block, slot: nat, level: nat, offset: Word, ghost p: Pos)
      returns (r: Option<nat>, buf': Block, slot': nat)
      requires Walking(at, buf, slot, p) && snapshot.superblock == below.blocks[0]
      requires p == At(p.ino, offset, level + 1) && offset < Pow(lay.height[p.ino])
      requires offset < Size(Overlay(below.blocks, at, buf), p.ino)
      modifies this`lay, below, snapshot`superblock
      ensures r.None? <==> p !in old(lay).node && old(FreeBlocks(lay)) == {}
      ensures r.Some? ==> Walking(r.value, buf', slot', At(p.ino, offset, level)) && snapshot.superblock == below.blocks[0]
      ensures r.Some? ==> FreeCount() == old(FreeCount()) - Missing(old(lay).node, p.ino, offset, level + 1)
                                         + Missing(lay.node, p.ino, offset, level)
      ensures r.Some? ==> lay.height == old(lay).height
      ensures r.Some? ==> Progress(old(Overlay(below.blocks, at, buf)), old(lay), Overlay(below.blocks, r.value, buf'), lay,
                                   Pos(p.ino, 0, offset))
    {
      ghost var over, lay0 := Overlay(below.blocks, at, buf), lay;
      r, buf' := NextBlock(snapshot, at, buf, slot, level + 1, p, Pos(p.ino, 0, offset));
      slot' := 0;
      if r.Some? {
        Descend(over, Overlay(below.blocks, r.value, buf'), lay0, lay, offset, p, r.value);
        ShiftRemovesDigits(offset, level);
        slot' := LogShiftR(offset, level * 7) % REFS_PER_BLOCK;
      }
    }

    /** The last loop of treedisk_write, down to the parent of the data block: the holes on the
        path are filled. */
    method WalkToParent(snapshot: Snapshot, ghost ino: nat, offset: Word, nlevels: nat)
      returns (r: Option<nat>, buf: Block, slot: nat)
      requires ino < |lay.height| && lay.height[ino] == nlevels
      requires snapshot.inodeBlockno == InodeBlock(ino) && snapshot.inode == RootWord(ino)
      requires Settled() && snapshot.superblock == below.blocks[0]
      requires snapshot.inodeblock == below.blocks[InodeBlock(ino)]
      requires offset < Size(below.blocks, ino) && offset < Pow(nlevels)
      modifies this`lay, below, snapshot`superblock
      ensures r.None? ==> old(FreeCount()) < Missing(old(lay).node, ino, offset, nlevels)
      ensures r.Some? ==> Walking(r.value, buf, slot, Pos(ino, 0, offset)) && snapshot.superblock == below.blocks[0]
      ensures r.Some? ==> Progress(old(below.blocks), old(lay), Overlay(below.blocks, r.value, buf), lay, Pos(ino, 0, offset))
      ensures r.Some? ==> lay.height == old(lay).height
      ensures r.Some? ==> FreeCount() == old(FreeCount()) - Missing(old(lay).node, ino, offset, nlevels)
                                       + Missing(lay.node, ino, offset, 0)
    {
      ghost var data := Pos(ino, 0, offset);
      ghost var disk0, lay0 := below.blocks, lay;
      ghost var free0, missing0 := FreeCount(), Missing(lay.node, ino, offset, nlevels);
      r, buf, slot := Some(snapshot.inodeBlockno), snapshot.inodeblock, snapshot.inode;
      assert Overlay(below.blocks, r.value, buf) == below.blocks;
      PathInTree(below.blocks, lay, ino, offset, nlevels);
      var level: nat := nlevels;
      while level > 0
        invariant r.Some? && level <= nlevels && Walking(r.value, buf, slot, At(ino, offset, level))
        invariant snapshot.superblock == below.blocks[0] && lay.height == lay0.height
        invariant Progress(disk0, lay0, Overlay(below.blocks, r.value, buf), lay, data)
        invariant FreeCount() == free0 - missing0 + Missing(lay.node, ino, offset, level)
      {
        ghost var over1, lay1 := Overlay(below.blocks, r.value, buf), lay;
        assert Size(over1, ino) == Size(disk0, ino);
        level := level - 1;
        r, buf, slot := WalkLevel(snapshot, r.value, buf, slot, level, offset, At(ino, offset, level + 1));
        if r.None? {
          return;
        }
        ProgressTrans(disk0, lay0, over1, lay1, Overlay(below.blocks, r.value, buf), lay, data);
      }
      DataPlace(ino, offset);
    }

    /** The last loop of treedisk_write: finds the data block of the offset, filling the holes
        on the path. */
    method WalkDown(snapshot: Snapshot, ghost ino: nat, offset: Word, nlevels: nat) returns (r: Option<nat>)
      requires ino < |lay.height| && lay.height[ino] == nlevels
      requires snapshot.inodeBlockno == InodeBlock(ino) && snapshot.inode == RootWord(ino)
      requires Settled() && snapshot.superblock == below.blocks[0]
      requires snapshot.inodeblock == below.blocks[InodeBlock(ino)]
      requires offset < Size(below.blocks, ino) && offset < Pow(nlevels)
      modifies this`lay, below, snapshot`superblock
      ensures r.Some? <==> Missing(old(lay).node, ino, offset, nlevels) <= old(FreeCount())
      ensures r.Some? ==> FreeCount() == old(FreeCount()) - Missing(old(lay).node, ino, offset, nlevels)
      ensures r.Some? ==> Pos(ino, 0, offset) in lay.node && lay.node[Pos(ino, 0, offset)] == r.value < |below.blocks|
      ensures r.Some? ==> Settled() && lay.height == old(lay).height
      ensures r.Some? ==> Progress(old(below.blocks), old(lay), below.blocks, lay, Pos(ino, 0, offset))
    {
      ghost var data := Pos(ino, 0, offset);
      ghost var disk0, lay0 := below.blocks, lay;
      var at, buf, slot := WalkToParent(snapshot, ino, offset, nlevels);
      if at.None? {
        return None;
      }
      DataPlace(ino, offset);
      ghost var over1, lay1 := Overlay(below.blocks, at.value, buf), lay;
      r, buf := NextBlock(snapshot, at.value, buf, slot, 0, data, data);
      if r.Some? {
        ProgressTrans(disk0, lay0, over1, lay1, Overlay(below.blocks, r.value, buf), lay, data);
        assert Overlay(below.blocks, r.value, buf) == below.blocks;
      }
    }

    /** Counts the levels now and after the write and sets the new size in memory. */
    method Resize(snapshot: Snapshot, ghost ino: nat, offset: Word) returns (nlevels: nat, nlevelsAfter: nat, dirty: bool)
      requires Valid() && ino < |lay.height| && offset < WORD_LIMIT - 1
      requires snapshot.inodeBlockno == InodeBlock(ino) && snapshot.inode == RootWord(ino)
      requires snapshot.inodeblock == below.blocks[InodeBlock(ino)]
      modifies snapshot`inodeblock
      ensures dirty <==> offset >= Size(below.blocks, ino)
      ensures !dirty ==> snapshot.inodeblock == below.blocks[InodeBlock(ino)]
      ensures nlevels == Height(Size(below.blocks, ino)) == lay.height[ino] <= nlevelsAfter
      ensures nlevelsAfter == Height(Max(Size(below.blocks, ino), offset + 1))
      ensures Overlay(below.blocks, InodeBlock(ino), snapshot.inodeblock)
           == ResizedDisk(below.blocks, ino, Max(Size(below.blocks, ino), offset + 1))
      ensures Mid(InodeBlock(ino), snapshot.inodeblock) && snapshot.inodeblock[snapshot.inode + 1] > 0
    {
      var nblocks := snapshot.inodeblock[snapshot.inode + 1];
      nlevels := 0;
      if nblocks > 0 {
        nlevels := CountLevels(nblocks - 1);
      }
      nlevelsAfter, dirty := nlevels, offset >= nblocks;
      WrittenOffsetInside(nblocks, offset);
      if offset >= nblocks {
        nlevelsAfter := CountLevels(offset);
        snapshot.inodeblock := snapshot.inodeblock[snapshot.inode + 1 := SizeAfter(nblocks, offset)];
      }
      ResizeStep(below.blocks, lay, ino, Max(nblocks, offset + 1), snapshot.inodeblock);
    }

    /** The first half of treedisk_write: sets the size, grows the tree to the new height and
        writes the inode block back. Gives the number of levels. */
    method Prepare(snapshot: Snapshot, ghost ino: nat, offset: Word) returns (r: Option<nat>)
      requires Valid() && ino < |lay.height| && offset < WORD_LIMIT - 1
      requires snapshot.inodeBlockno == InodeBlock(ino) && snapshot.inode == RootWord(ino)
      requires snapshot.inodeblock == below.blocks[InodeBlock(ino)] && snapshot.superblock == below.blocks[0]
      modifies this`lay, below, snapshot`superblock, snapshot`inodeblock
      ensures r.Some? <==> NewHeight(old(below.blocks), ino, offset) - old(lay).height[ino] <= old(FreeCount())
      ensures r.Some? ==> |below.blocks| == |old(below.blocks)| && Settled()
      ensures r.Some? ==> snapshot.superblock == below.blocks[0] && snapshot.inodeblock == below.blocks[InodeBlock(ino)]
      ensures r.Some? ==> FreeCount() == old(FreeCount()) - (NewHeight(old(below.blocks), ino, offset) - old(lay).height[ino])
      ensures r.Some? ==> Prepared(old(below.blocks), old(lay), below.blocks, lay, ino, offset)
      ensures r.Some? ==> r.value == lay.height[ino]
    {
      ghost var disk0, lay0, data := below.blocks, lay, Pos(ino, 0, offset);
      var nlevels, nlevelsAfter, dirty := Resize(snapshot, ino, offset);
      if nlevelsAfter > nlevels {
        var ok := GrowLevels(snapshot, data, nlevels, nlevelsAfter);
        if !ok {
          return None;
        }
      }
      ghost var over := Overlay(below.blocks, InodeBlock(ino), snapshot.inodeblock);
      FreeListFrame(below.blocks, over, lay, lay);
      if dirty || nlevelsAfter > nlevels {
        below.Write(snapshot.inodeBlockno, snapshot.inodeblock);
      }
      assert below.blocks == over;
      return Some(nlevelsAfter);
    }

    /** treedisk_write: in the array of files, one block changes and a file that is too short
        is padded with zero blocks. It panics exactly when it needs more blocks than are free,
        and otherwise takes exactly the blocks it needs. */
    method Write(ino: nat, offset: Word, block: Block) returns (status: Status)
      requires Valid() && ino < WORD_LIMIT && offset < WORD_LIMIT - 1
      modifies this`lay, below
      ensures status == Failed <==> ino >= |old(Files(below.blocks))|
      ensures status == Failed ==> below.blocks == old(below.blocks) && lay == old(lay)
      ensures status == Panicked ==> old(FreeCount()) < CostAt(old(below.blocks), old(lay), ino, offset)
      ensures status == Done ==> FreeCount() == old(FreeCount()) - CostAt(old(below.blocks), old(lay), ino, offset)
      ensures status == Done ==> Valid() && |below.blocks| == |old(below.blocks)|
      ensures status == Done ==> Files(below.blocks) == WriteFile(old(Files(below.blocks)), ino, offset, block)
    {
      var snapshot := new Snapshot();
      var ok := GetSnapshot(snapshot, ino);
      if !ok {
        return Failed;
      }
      ghost var disk0, lay0 := below.blocks, lay;
      PrepareCost(disk0, lay0, ino, offset);
      var nlevels := Prepare(snapshot, ino, offset);
      if nlevels.None? {
        return Panicked;
      }
      ghost var disk1, lay1 := below.blocks, lay;
      CostOfWrite(disk0, lay0, disk1, lay1, ino, offset);
      var b := WalkDown(snapshot, ino, offset, nlevels.value);
      if b.None? {
        return Panicked;
      }
      WriteDone(disk0, lay0, disk1, lay1, below.blocks, lay, ino, offset, b.value, block);
      below.Write(b.value, block);
      return Done;
    }
  }
}
