/** What a write means for the files, what it costs, and why the steps of treedisk_write add
    up to that. */
module WriteSpec {
  import opened Radix
  import opened TreeLayout
  import opened TreeSteps

  // ------------------------------------------------------------------- costs

  /** How many places at level l or below on the path to offset are holes. */
  ghost function Missing(node: map<Pos, nat>, ino: nat, offset: nat, l: nat): nat {
    (if At(ino, offset, l) in node then 0 else 1) + if l == 0 then 0 else Missing(node, ino, offset, l - 1)
  }

  function Max(a: nat, b: nat): nat {
    if a < b then b else a
  }

  /** The number of blocks that a write at offset to a file of n blocks takes off the free
      list. */
  ghost function Cost(node: map<Pos, nat>, n: nat, ino: nat, offset: nat): nat {
    if Height(Max(n, offset + 1)) > Height(n)
    then Height(Max(n, offset + 1)) - Height(n) + Height(Max(n, offset + 1))
    else Missing(node, ino, offset, Height(n))
  }

  lemma {:induction false} MissingFrame(node: map<Pos, nat>, p: Pos, b: nat, ino: nat, offset: nat, l: nat)
    requires p.level > l
    ensures Missing(node[p := b], ino, offset, l) == Missing(node, ino, offset, l)
  {
    if l > 0 {
      MissingFrame(node, p, b, ino, offset, l - 1);
    }
  }

  lemma {:induction false} MissingBelowHole(disk: Disk, lay: Layout, ino: nat, offset: nat, l: nat)
    requires TreeInv(disk, lay) && ino < |lay.height| && l <= lay.height[ino]
    requires At(ino, offset, l) !in lay.node
    ensures Missing(lay.node, ino, offset, l) == l + 1
  {
    if l > 0 {
      HolesAreClosed(disk, lay, ino, offset, l, l - 1);
      MissingBelowHole(disk, lay, ino, offset, l - 1);
    }
  }

  // ----------------------------------------------------------- specification

  function Zeros(n: nat): (s: seq<Block>)
    ensures |s| == n
  {
    seq(n, _ => ZeroBlock())
  }

  /** An array of blocks after block `block` is put at offset, past its end if need be. */
  function WriteBlock(f: seq<Block>, offset: nat, block: Block): (f': seq<Block>)
    ensures |f'| == Max(|f|, offset + 1)
    ensures f'[offset] == block
  {
    if offset < |f| then f[offset := block] else f + Zeros(offset - |f|) + [block]
  }

  function WriteFile(fs: seq<seq<Block>>, ino: nat, offset: nat, block: Block): seq<seq<Block>>
    requires ino < |fs|
  {
    fs[ino := WriteBlock(fs[ino], offset, block)]
  }

  lemma PathInTree(disk: Disk, lay: Layout, ino: nat, offset: nat, l: nat)
    requires TreeInv(disk, lay) && ino < |lay.height| && l <= lay.height[ino]
    requires offset < Size(disk, ino) && offset < Pow(lay.height[ino])
    requires l < lay.height[ino] ==> At(ino, offset, l + 1) in lay.node
    ensures InTree(disk, lay, At(ino, offset, l))
  {
    PrefixStart(offset, l);
  }

  /** From a place on the path that is now occupied to the next one below it. */
  lemma Descend(disk0: Disk, disk: Disk, lay: Layout, lay': Layout, offset: nat, p: Pos, b: nat)
    requires TreeInv(disk, lay') && p.ino < |lay'.height| && 0 < p.level <= lay'.height[p.ino]
    requires SameSizes(disk0, disk, lay')
    requires offset < Size(disk0, p.ino) && offset < Pow(lay'.height[p.ino])
    requires p == At(p.ino, offset, p.level) && lay'.node == lay.node[p := b]
    ensures InTree(disk, lay', At(p.ino, offset, p.level - 1))
    ensures SlotBlock(lay', At(p.ino, offset, p.level - 1)) == b
    ensures SlotWord(lay', At(p.ino, offset, p.level - 1)) == Digit(offset, p.level - 1)
    ensures Missing(lay.node, p.ino, offset, p.level) ==
            (if p in lay.node then 0 else 1) + Missing(lay'.node, p.ino, offset, p.level - 1)
  {
    assert Size(disk, p.ino) == Size(disk0, p.ino);
    ChildOnPath(p.ino, offset, p.level);
    PathInTree(disk, lay', p.ino, offset, p.level - 1);
    MissingFrame(lay.node, p, b, p.ino, offset, p.level - 1);
  }

  /** An empty chain means that no block is free. */
  lemma NoneFree(disk: Disk, lay: Layout, limbo: set<nat>)
    requires Ownership(lay, |disk|, limbo) && FreeList(disk, lay)
    ensures disk[0][1] == 0 <==> FreeBlocks(lay) == {}
  {
    if lay.chain == [] {
      forall b | b in lay.owner
        ensures lay.owner[b].Tree?
      {
        assert RoleOk(lay, b);
      }
    } else {
      assert lay.chain[0] in FreeBlocks(lay);
      assert ChainOk(disk, lay, |lay.chain| - 1);
    }
  }

  // ------------------------------------------------------------ putting together

  /** Once the tree has grown, the path to the offset leaves it at the new root. */
  lemma GrownMissing(disk: Disk, lay: Layout, disk': Disk, lay': Layout, ino: nat, offset: nat)
    requires TreeInv(disk, lay) && TreeInv(disk', lay') && |lay'.height| == |lay.height| && ino < |lay.height|
    requires forall p :: p in lay'.node && p !in lay.node ==> p.index == 0
    requires lay'.height[ino] > lay.height[ino] && Pos(ino, lay'.height[ino], 0) in lay'.node
    requires Pow(lay'.height[ino] - 1) <= offset < Pow(lay'.height[ino])
    ensures Missing(lay'.node, ino, offset, lay'.height[ino]) == lay'.height[ino]
  {
    var h := lay'.height[ino];
    var p := At(ino, offset, h - 1);
    RootPlace(ino, offset, h);
    PrefixZero(offset, h - 1);
    StartInside(p.index, h - 1);
    PowMonotone(lay.height[ino], h - 1);
    assert p in lay.node ==> NodeOk(disk, lay, p);
    MissingBelowHole(disk', lay', ino, offset, h - 1);
  }

  /** Setting the new size in the inode block that is kept in memory. */
  lemma ResizeStep(disk: Disk, lay: Layout, ino: nat, n: Word, buf: Block)
    requires FsInv(disk, lay) && ino < |lay.height| && Size(disk, ino) <= n
    requires buf == disk[InodeBlock(ino)][RootWord(ino) + 1 := n]
    ensures Overlay(disk, InodeBlock(ino), buf) == ResizedDisk(disk, ino, n)
    ensures TreeInv(Overlay(disk, InodeBlock(ino), buf), lay)
    ensures lay.height[ino] == Height(Size(disk, ino)) <= Height(n)
  {
    assert HeightOk(disk, lay, ino);
    ResizeTree(disk, lay, ino, n);
    HeightMonotone(Size(disk, ino), n);
  }

  ghost function NewHeight(disk: Disk, ino: nat, offset: nat): nat
    requires InodeBlock(ino) < |disk|
  {
    Height(Max(Size(disk, ino), offset + 1))
  }

  /** What holds once the size is set and the tree has grown to the new height. */
  ghost predicate Prepared(disk0: Disk, lay0: Layout, disk: Disk, lay: Layout, ino: nat, offset: nat)
    requires ino < |lay0.height| == 64 * lay0.inodeBlocks && lay0.inodeBlocks + 1 <= |disk0| && offset < WORD_LIMIT - 1
  {
    && Progress(ResizedDisk(disk0, ino, Max(Size(disk0, ino), offset + 1)), lay0, disk, lay, Pos(ino, 0, offset))
    && lay.height[ino] == NewHeight(disk0, ino, offset) >= lay0.height[ino]
    && (forall p :: p in lay.node && p !in lay0.node ==> p.index == 0)
    && (lay.height[ino] == lay0.height[ino] ==> lay.node == lay0.node)
    && (lay.height[ino] > lay0.height[ino] ==> Pos(ino, lay.height[ino], 0) in lay.node)
  }

  /** The blocks taken for growing and those for the path add up to the cost. */
  lemma CostOfWrite(disk: Disk, lay: Layout, disk': Disk, lay': Layout, ino: nat, offset: nat)
    requires FsInv(disk, lay) && TreeInv(disk', lay') && ino < |lay.height| && offset < WORD_LIMIT - 1
    requires Prepared(disk, lay, disk', lay', ino, offset)
    ensures offset < Pow(lay'.height[ino]) && offset < Size(disk', ino)
    ensures NewHeight(disk, ino, offset) - lay.height[ino] + Missing(lay'.node, ino, offset, lay'.height[ino])
         == Cost(lay.node, Size(disk, ino), ino, offset)
  {
    assert HeightOk(disk, lay, ino);
    var n := Max(Size(disk, ino), offset + 1);
    ResizeTree(disk, lay, ino, n);
    assert Size(disk', ino) == Size(ResizedDisk(disk, ino, n), ino);
    HeightCovers(n);
    if lay'.height[ino] > lay.height[ino] {
      HeightIsLeast(Size(disk, ino), lay'.height[ino] - 1);
      GrownMissing(disk, lay, disk', lay', ino, offset);
    }
  }

  ghost function CostAt(disk: Disk, lay: Layout, ino: nat, offset: nat): nat {
    if InodeBlock(ino) < |disk| then Cost(lay.node, Size(disk, ino), ino, offset) else 0
  }

  lemma PrepareCost(disk: Disk, lay: Layout, ino: nat, offset: nat)
    requires FsInv(disk, lay) && ino < |lay.height|
    ensures 0 <= NewHeight(disk, ino, offset) - lay.height[ino] <= CostAt(disk, lay, ino, offset)
  {
    assert HeightOk(disk, lay, ino);
    HeightMonotone(Size(disk, ino), Max(Size(disk, ino), offset + 1));
  }

  /** Everything that holds when the walk of a write has reached the data block b. */
  ghost predicate Reached(disk0: Disk, lay0: Layout, disk: Disk, lay: Layout, ino: nat, offset: nat, b: nat)
    requires ino < |lay0.height| == 64 * lay0.inodeBlocks && lay0.inodeBlocks + 1 <= |disk0| && offset < WORD_LIMIT - 1
  {
    && |disk| <= WORD_LIMIT
    && Ownership(lay, |disk|, {}) && FreeList(disk, lay) && TreeInv(disk, lay)
    && Progress(ResizedDisk(disk0, ino, Max(Size(disk0, ino), offset + 1)), lay0, disk, lay, Pos(ino, 0, offset))
    && lay.height[ino] == Height(Max(Size(disk0, ino), offset + 1))
    && Pos(ino, 0, offset) in lay.node && lay.node[Pos(ino, 0, offset)] == b < |disk|
  }

  lemma ReachedSizes(disk0: Disk, lay0: Layout, disk: Disk, lay: Layout, ino: nat, offset: nat, b: nat, i: nat)
    requires TreeInv(disk0, lay0) && ino < |lay0.height| && i < |lay0.height| && offset < WORD_LIMIT - 1
    requires Reached(disk0, lay0, disk, lay, ino, offset, b)
    ensures Size(disk, i) == if i == ino then Max(Size(disk0, ino), offset + 1) else Size(disk0, i)
  {
    var n := Max(Size(disk0, ino), offset + 1);
    ResizeTree(disk0, lay0, ino, n);
    assert Size(disk, i) == Size(ResizedDisk(disk0, ino, n), i);
  }

  /** Writing the data block last restores the invariant. */
  lemma WriteRestoresInvariant(disk0: Disk, lay0: Layout, disk: Disk, lay: Layout, ino: nat, offset: nat, b: nat, block: Block)
    requires FsInv(disk0, lay0) && ino < |lay0.height| && offset < WORD_LIMIT - 1
    requires Reached(disk0, lay0, disk, lay, ino, offset, b)
    ensures FsInv(disk[b := block], lay)
  {
    var data := Pos(ino, 0, offset);
    var disk' := disk[b := block];
    assert NodeOk(disk, lay, data);
    FreeListFrame(disk, disk', lay, lay);
    TreeFrame(disk, disk', lay, lay);
    forall i | 0 <= i < |lay.height|
      ensures HeightOk(disk', lay, i)
    {
      ReachedSizes(disk0, lay0, disk, lay, ino, offset, b, i);
      if i == ino {
        HeightCovers(Size(disk, ino));
        RootPlace(ino, offset, lay.height[ino]);
        DataPlace(ino, offset);
        if Pos(ino, lay.height[ino], 0) !in lay.node {
          HolesAreClosed(disk, lay, ino, offset, lay.height[ino], 0);
        }
      } else {
        assert HeightOk(disk0, lay0, i);
      }
    }
  }

  lemma WriteContents(disk0: Disk, lay0: Layout, disk: Disk, lay: Layout, ino: nat, offset: nat, b: nat, block: Block, p: Pos)
    requires FsInv(disk0, lay0) && ino < |lay0.height| && offset < WORD_LIMIT - 1 && p.level == 0
    requires Reached(disk0, lay0, disk, lay, ino, offset, b)
    ensures BlockAt(disk[b := block], lay, p) == if p == Pos(ino, 0, offset) then block else BlockAt(disk0, lay0, p)
  {
    var data := Pos(ino, 0, offset);
    var n := Max(Size(disk0, ino), offset + 1);
    ResizeData(disk0, lay0, ino, n, data);
    if p != data {
      assert BlockAt(disk, lay, p) == BlockAt(ResizedDisk(disk0, ino, n), lay0, p) == BlockAt(disk0, lay0, p);
      assert p in lay.node ==> lay.owner[lay.node[p]] == Tree(p);
    }
  }

  /** The files after the write are those of the specification. */
  lemma WriteMeaning(disk0: Disk, lay0: Layout, disk: Disk, lay: Layout, ino: nat, offset: nat, b: nat, block: Block)
    requires FsInv(disk0, lay0) && ino < |lay0.height| && offset < WORD_LIMIT - 1
    requires Reached(disk0, lay0, disk, lay, ino, offset, b) && FsInv(disk[b := block], lay)
    ensures Files(disk[b := block]) == WriteFile(Files(disk0), ino, offset, block)
  {
    var disk' := disk[b := block];
    forall i | 0 <= i < |lay0.height|
      ensures Files(disk')[i] == WriteFile(Files(disk0), ino, offset, block)[i]
    {
      FileMeaning(disk0, lay0, disk, lay, ino, offset, b, block, i);
    }
  }

  lemma FileMeaning(disk0: Disk, lay0: Layout, disk: Disk, lay: Layout, ino: nat, offset: nat, b: nat, block: Block, i: nat)
    requires FsInv(disk0, lay0) && ino < |lay0.height| && i < |lay0.height| && offset < WORD_LIMIT - 1
    requires Reached(disk0, lay0, disk, lay, ino, offset, b) && FsInv(disk[b := block], lay)
    ensures FileOf(disk[b := block], i) ==
            if i == ino then WriteBlock(FileOf(disk0, ino), offset, block) else FileOf(disk0, i)
  {
    var disk' := disk[b := block];
    FileIsContent(disk0, lay0, i);
    FileIsContent(disk', lay, i);
    ReachedSizes(disk0, lay0, disk, lay, ino, offset, b, i);
    var f := if i == ino then WriteBlock(FileOf(disk0, ino), offset, block) else FileOf(disk0, i);
    forall k | 0 <= k < Size(disk', i)
      ensures FileOf(disk', i)[k] == f[k]
    {
      WriteContents(disk0, lay0, disk, lay, ino, offset, b, block, Pos(i, 0, k));
      if k >= Size(disk0, i) {
        PastEnd(disk0, lay0, i, k);
      }
    }
  }

  /** The walk and the data write complete what Prepare began. */
  lemma WriteDone(disk0: Disk, lay0: Layout, disk1: Disk, lay1: Layout, disk: Disk, lay: Layout,
                  ino: nat, offset: nat, b: nat, block: Block)
    requires FsInv(disk0, lay0) && ino < |lay0.height| && offset < WORD_LIMIT - 1
    requires Prepared(disk0, lay0, disk1, lay1, ino, offset)
    requires Progress(disk1, lay1, disk, lay, Pos(ino, 0, offset)) && lay.height == lay1.height
    requires |disk| <= WORD_LIMIT && Ownership(lay, |disk|, {}) && FreeList(disk, lay) && TreeInv(disk, lay)
    requires Pos(ino, 0, offset) in lay.node && lay.node[Pos(ino, 0, offset)] == b < |disk|
    ensures |disk| == |disk0| && FsInv(disk[b := block], lay)
    ensures Files(disk[b := block]) == WriteFile(Files(disk0), ino, offset, block)
  {
    var n := Max(Size(disk0, ino), offset + 1);
    ProgressTrans(ResizedDisk(disk0, ino, n), lay0, disk1, lay1, disk, lay, Pos(ino, 0, offset));
    WriteRestoresInvariant(disk0, lay0, disk, lay, ino, offset, b, block);
    WriteMeaning(disk0, lay0, disk, lay, ino, offset, b, block);
  }

  /** Past the end of a file there are only holes. */
  lemma PastEnd(disk: Disk, lay: Layout, ino: nat, offset: nat)
    requires TreeInv(disk, lay) && ino < |lay.height| && offset >= Size(disk, ino)
    ensures Content(disk, lay, ino, offset) == ZeroBlock()
  {
    var p := Pos(ino, 0, offset);
    assert p in lay.node ==> NodeOk(disk, lay, p);
  }

  // ---------------------------------------------------------- bounds and sizes

  /** The cost of a write: raising the height from l to l' takes exactly (l' - l) + l' blocks,
      the first write at offset 0 takes one, any other write at most the height. So a write
      always succeeds with max(1, 2 l') free blocks. */
  lemma CostBounds(disk: Disk, lay: Layout, ino: nat, offset: nat)
    requires FsInv(disk, lay) && ino < |lay.height|
    ensures var l, l' := lay.height[ino], NewHeight(disk, ino, offset);
      && (l' > l ==> CostAt(disk, lay, ino, offset) == (l' - l) + l')
      && (Size(disk, ino) == 0 && offset == 0 ==> CostAt(disk, lay, ino, offset) == 1)
      && (Size(disk, ino) > 0 && l' == l ==> CostAt(disk, lay, ino, offset) <= l)
      && CostAt(disk, lay, ino, offset) <= Max(1, 2 * l')
  {
    assert HeightOk(disk, lay, ino);
    var n := Size(disk, ino);
    HeightMonotone(n, Max(n, offset + 1));
    if n == 0 {
      HeightIsLeast(offset + 1, 0);
      if offset == 0 {
        assert At(ino, 0, 0) in lay.node ==> NodeOk(disk, lay, At(ino, 0, 0));
        assert Missing(lay.node, ino, 0, 0) == 1;
      }
    } else if NewHeight(disk, ino, offset) == lay.height[ino] {
      HeightCovers(Max(n, offset + 1));
      RootPlace(ino, offset, lay.height[ino]);
      MissingAtMost(lay.node, ino, offset, lay.height[ino]);
    }
  }

  /** No write within 32-bit sizes takes more than ten blocks. */
  lemma CostAtMostTen(disk: Disk, lay: Layout, ino: nat, offset: nat)
    requires FsInv(disk, lay) && ino < |lay.height| && offset < WORD_LIMIT - 1
    ensures CostAt(disk, lay, ino, offset) <= 10
  {
    CostBounds(disk, lay, ino, offset);
    HeightIsLeast(Max(Size(disk, ino), offset + 1), 5);
  }

  lemma {:induction false} MissingAtMost(node: map<Pos, nat>, ino: nat, offset: nat, l: nat)
    ensures Missing(node, ino, offset, l) <= l + 1
    ensures At(ino, offset, l) in node ==> Missing(node, ino, offset, l) <= l
  {
    if l > 0 {
      MissingAtMost(node, ino, offset, l - 1);
    }
  }

  /** The size that treedisk_write stores, in 32-bit arithmetic. */
  function SizeAfter(n: Word, offset: Word): Word {
    if offset >= n then (offset + 1) % WORD_LIMIT else n
  }

  /** A written offset lies inside the stored size unless it is the very last 32-bit offset,
      for which the size wraps around to 0. */
  lemma WrittenOffsetInside(n: Word, offset: Word)
    ensures offset < SizeAfter(n, offset) <==> offset != WORD_LIMIT - 1
    ensures offset != WORD_LIMIT - 1 ==> SizeAfter(n, offset) == Max(n, offset + 1)
    ensures offset == WORD_LIMIT - 1 ==> SizeAfter(n, offset) == 0
  {
  }

  /** What that does to the device: with the size that a write at the last offset stores, the
      whole file is empty, whatever it held before. */
  lemma LastOffsetEmptiesFile(disk: Disk, ino: nat)
    requires InodeBlock(ino) < |disk|
    ensures FileOf(ResizedDisk(disk, ino, SizeAfter(Size(disk, ino), WORD_LIMIT - 1)), ino) == []
  {
  }

  /** And once the write has put a root there, no layout fits the device any more. */
  lemma RootWithoutSizeIsInvalid(disk: Disk, lay: Layout, ino: nat)
    requires InodeBlock(ino) < |disk| && ino < |lay.height| && Size(disk, ino) == 0 && Root(disk, ino) != 0
    ensures !FsInv(disk, lay)
  {
    if FsInv(disk, lay) {
      EmptyFileHasNoRoot(disk, lay, ino);
    }
  }

  /** A file without blocks has no root. */
  lemma EmptyFileHasNoRoot(disk: Disk, lay: Layout, ino: nat)
    requires TreeInv(disk, lay) && ino < |lay.height| && Size(disk, ino) == 0
    ensures Root(disk, ino) == 0
  {
    var top := Pos(ino, lay.height[ino], 0);
    assert top in lay.node ==> NodeOk(disk, lay, top);
  }

  /** Every reference whose offsets start at or past the end of the file is 0: those in indirect
      blocks, and the root if the file is empty. */
  lemma NoReferencePastEnd(disk: Disk, lay: Layout, p: Pos)
    requires TreeInv(disk, lay) && p.ino < |lay.height| && p.Start() >= Size(disk, p.ino)
    requires p.level <= lay.height[p.ino] && (p.level == lay.height[p.ino] ==> p.index == 0)
    requires p.level < lay.height[p.ino] ==> p.Parent() in lay.node
    ensures SlotBlock(lay, p) < |disk| && disk[SlotBlock(lay, p)][SlotWord(lay, p)] == 0
  {
    assert p in lay.node ==> NodeOk(disk, lay, p);
    if p.level == lay.height[p.ino] {
      assert Root(disk, p.ino) == Ref(lay.node, p);
    } else {
      assert NodeOk(disk, lay, p.Parent());
      assert p.Parent().Child(p.index % 128) == p;
    }
  }

  /** Free and used blocks together are the blocks past the inode area, none counted twice. */
  lemma Conservation(disk: Disk, lay: Layout)
    requires FsInv(disk, lay)
    ensures |FreeBlocks(lay)| + |lay.node| == |disk| - 1 - lay.inodeBlocks
  {
    var used, free := UsedBlocks(lay), FreeBlocks(lay);
    assert lay.owner.Keys == free + used && free !! used;
    assert |lay.owner.Keys| == |free| + |used|;
    RangeSize(lay.inodeBlocks + 1, |disk|, lay.owner.Keys);
    forall b | b in used
      ensures exists p :: p in lay.node && lay.node[p] == b
    {
      assert RoleOk(lay, b);
      assert lay.owner[b].pos in lay.node;
    }
    ImageSize(lay.node, used);
  }

  /** An injective map has as many keys as values. */
  lemma {:induction false} ImageSize(m: map<Pos, nat>, image: set<nat>)
    requires forall p :: p in m ==> m[p] in image
    requires forall b :: b in image ==> exists p :: p in m && m[p] == b
    requires forall p, q :: p in m && q in m && m[p] == m[q] ==> p == q
    ensures |m| == |image|
    decreases |m|
  {
    if m.Keys == {} {
      assert image == {};
    } else {
      var p :| p in m;
      var m' := m - {p};
      assert m'.Keys == m.Keys - {p};
      forall b | b in image - {m[p]}
        ensures exists q :: q in m' && m'[q] == b
      {
        var q :| q in m && m[q] == b;
        assert q in m';
      }
      ImageSize(m', image - {m[p]});
    }
  }
}
