/** The elementary changes that treedisk_write makes to the disk, each with the part of the
    invariant that it keeps. */
module TreeSteps {
  import opened Radix
  import opened TreeLayout

  /** Taking the reference out of word j of the first free-list block. */
  function TakeEntry(disk: Disk, c: nat, j: nat): Disk
    requires c < |disk| && j < 128
  {
    disk[c := disk[c][j := 0]]
  }

  lemma AllocEntry(disk: Disk, lay: Layout, limbo: set<nat>, j: nat)
    requires Ownership(lay, |disk|, limbo) && FreeList(disk, lay)
    requires lay.chain != [] && 1 <= j < 128 && disk[Top(lay.chain)][j] != 0
    ensures var e := disk[Top(lay.chain)][j];
      var lay' := lay.(owner := lay.owner - {e});
      && e in FreeBlocks(lay)
      && Ownership(lay', |disk|, limbo + {e})
      && FreeList(TakeEntry(disk, Top(lay.chain), j), lay')
  {
    var top := |lay.chain| - 1;
    var c := lay.chain[top];
    var e := disk[c][j];
    var disk' := TakeEntry(disk, c, j);
    var lay' := lay.(owner := lay.owner - {e});
    assert ChainOk(disk, lay, top);
    assert lay.owner[e] == Entry(top, j);
    forall b | b in lay'.owner
      ensures RoleOk(lay', b)
    {
      assert RoleOk(lay, b);
    }
    forall k | 0 <= k < |lay.chain|
      ensures ChainOk(disk', lay', k)
    {
      assert ChainOk(disk, lay, k);
    }
    forall b | b in lay'.owner && lay'.owner[b].Entry?
      ensures EntryOk(disk', lay', b)
    {
      assert EntryOk(disk, lay, b);
    }
  }

  /** Taking the first free-list block itself once it holds no references. */
  lemma AllocHead(disk: Disk, lay: Layout, limbo: set<nat>)
    requires Ownership(lay, |disk|, limbo) && FreeList(disk, lay)
    requires lay.chain != []
    requires forall j :: 1 <= j < 128 ==> disk[Top(lay.chain)][j] == 0
    ensures var c := Top(lay.chain);
      var lay' := lay.(owner := lay.owner - {c}, chain := lay.chain[..|lay.chain| - 1]);
      && c in FreeBlocks(lay)
      && Ownership(lay', |disk|, limbo + {c})
      && FreeList(disk[0 := disk[0][1 := disk[c][0]]], lay')
  {
    var top := |lay.chain| - 1;
    var c := lay.chain[top];
    assert ChainOk(disk, lay, top);
    var disk' := disk[0 := disk[0][1 := disk[c][0]]];
    var lay' := lay.(owner := lay.owner - {c}, chain := lay.chain[..top]);
    forall b | b in lay'.owner
      ensures RoleOk(lay', b)
      ensures lay'.owner[b].Entry? ==> EntryOk(disk', lay', b)
    {
      assert RoleOk(lay, b);
      assert lay.owner[b].Entry? ==> EntryOk(disk, lay, b);
    }
    forall k | 0 <= k < top
      ensures ChainOk(disk', lay', k)
    {
      assert ChainOk(disk, lay, k);
      assert lay.chain[..top][..k] == lay.chain[..k];
    }
  }

  /** Giving a block in transit its place in a tree. */
  ghost function Attached(lay: Layout, p: Pos, b: nat): Layout {
    lay.(owner := lay.owner[b := Tree(p)], node := lay.node[p := b])
  }

  lemma AttachOwnership(lay: Layout, nblocks: nat, limbo: set<nat>, p: Pos, b: nat)
    requires Ownership(lay, nblocks, limbo) && b in limbo && lay.inodeBlocks < b < nblocks
    requires p !in lay.node
    ensures Ownership(Attached(lay, p, b), nblocks, limbo - {b})
    ensures FreeBlocks(Attached(lay, p, b)) == FreeBlocks(lay)
  {
    var lay' := Attached(lay, p, b);
    forall x | x in lay'.owner
      ensures RoleOk(lay', x)
    {
      assert x != b ==> RoleOk(lay, x);
    }
  }

  /** The free list does not depend on tree and inode blocks, nor on the tree table. */
  lemma FreeListFrame(disk: Disk, disk': Disk, lay: Layout, lay': Layout)
    requires FreeList(disk, lay) && |disk'| == |disk| && disk'[0] == disk[0]
    requires forall k :: 0 <= k < |lay.chain| ==> lay.chain[k] < |disk| && disk'[lay.chain[k]] == disk[lay.chain[k]]
    requires lay'.chain == lay.chain
    requires forall b :: b in lay.owner ==> b in lay'.owner && lay'.owner[b] == lay.owner[b]
    requires forall b :: b in lay'.owner && lay'.owner[b].Entry? ==> b in lay.owner
    ensures FreeList(disk', lay')
  {
    forall k | 0 <= k < |lay'.chain|
      ensures ChainOk(disk', lay', k)
    {
      assert ChainOk(disk, lay, k);
    }
    forall b | b in lay'.owner && lay'.owner[b].Entry?
      ensures EntryOk(disk', lay', b)
    {
      assert EntryOk(disk, lay, b);
    }
  }

  /** The trees do not depend on free-list and data blocks, nor on the roles of free blocks. */
  lemma TreeFrame(disk: Disk, disk': Disk, lay: Layout, lay': Layout)
    requires TreeInv(disk, lay) && |disk'| == |disk| && disk'[0][0] == disk[0][0]
    requires forall b :: 1 <= b <= lay.inodeBlocks ==> disk'[b] == disk[b]
    requires forall p :: p in lay.node && p.level > 0 ==> lay.node[p] < |disk| && disk'[lay.node[p]] == disk[lay.node[p]]
    requires lay'.inodeBlocks == lay.inodeBlocks && lay'.node == lay.node && lay'.height == lay.height
    ensures TreeInv(disk', lay')
  {
    forall p | p in lay.node
      ensures NodeOk(disk', lay', p)
    {
      assert NodeOk(disk, lay, p);
    }
  }

  // ------------------------------------------------------------ tree changes

  /** The block and the word in it that hold the reference to a place. */
  ghost function SlotBlock(lay: Layout, p: Pos): nat
    requires p.ino < |lay.height|
  {
    if p.level == lay.height[p.ino] then InodeBlock(p.ino) else Ref(lay.node, p.Parent())
  }

  ghost function SlotWord(lay: Layout, p: Pos): (w: nat)
    requires p.ino < |lay.height|
    ensures w < 128
  {
    if p.level == lay.height[p.ino] then RootWord(p.ino) else p.index % 128
  }

  lemma SlotHoldsReference(disk: Disk, lay: Layout, p: Pos)
    requires TreeInv(disk, lay) && InTree(disk, lay, p)
    ensures 0 < SlotBlock(lay, p) < |disk|
    ensures p.level == lay.height[p.ino] ==> p.index == 0
    ensures disk[SlotBlock(lay, p)][SlotWord(lay, p)] == Ref(lay.node, p)
  {
    if p.level == lay.height[p.ino] {
      StartInside(p.index, p.level);
      assert Root(disk, p.ino) == Ref(lay.node, Pos(p.ino, lay.height[p.ino], 0));
    } else {
      assert NodeOk(disk, lay, p.Parent());
      assert p.Parent().Child(p.index % 128) == p;
    }
  }

  /** A disk after the reference in p's slot has been set to b and block b to x. */
  ghost function AttachedDisk(disk: Disk, lay: Layout, p: Pos, b: nat, x: Block): Disk
    requires p.ino < |lay.height| && SlotBlock(lay, p) < |disk| && b < |disk| && b < WORD_LIMIT
  {
    disk[SlotBlock(lay, p) := disk[SlotBlock(lay, p)][SlotWord(lay, p) := b]][b := x]
  }

  lemma InodeWordsApart(i: nat, j: nat)
    requires i != j && InodeBlock(i) == InodeBlock(j)
    ensures RootWord(i) != RootWord(j)
  {
  }

  /** Filling a hole: a fresh data block with any contents, or a fresh indirect block that
      is all zero. */
  lemma AttachTree(disk: Disk, lay: Layout, limbo: set<nat>, p: Pos, b: nat, x: Block)
    requires Ownership(lay, |disk|, limbo) && b in limbo && lay.inodeBlocks < b < |disk| <= WORD_LIMIT
    requires TreeInv(disk, lay) && InTree(disk, lay, p) && p !in lay.node
    requires p.level > 0 ==> x == ZeroBlock()
    requires SlotBlock(lay, p) < |disk|
    ensures TreeInv(AttachedDisk(disk, lay, p, b, x), Attached(lay, p, b))
    ensures forall i :: 0 <= i < |lay.height| ==> Size(AttachedDisk(disk, lay, p, b, x), i) == Size(disk, i)
  {
    var lay' := Attached(lay, p, b);
    var disk' := AttachedDisk(disk, lay, p, b, x);
    forall i | 0 <= i < |lay.height|
      ensures Root(disk', i) == Ref(lay'.node, Pos(i, lay'.height[i], 0))
      ensures Size(disk', i) == Size(disk, i)
    {
      AttachInode(disk, lay, p, b, x, i);
    }
    forall q | q in lay'.node
      ensures NodeOk(disk', lay', q)
    {
      if q == p {
        NewNodeOk(disk, lay, disk', p, b);
      } else {
        assert NodeOk(disk, lay, q);
        OldNodeOk(disk, lay, limbo, disk', p, b, x, q);
      }
    }
    SlotHoldsReference(disk, lay, p);
    assert disk'[0] == disk[0];
  }

  lemma AttachInode(disk: Disk, lay: Layout, p: Pos, b: nat, x: Block, i: nat)
    requires lay.inodeBlocks < b < |disk| <= WORD_LIMIT
    requires TreeInv(disk, lay) && InTree(disk, lay, p) && p !in lay.node
    requires SlotBlock(lay, p) < |disk| && i < |lay.height|
    ensures Root(AttachedDisk(disk, lay, p, b, x), i) == Ref(Attached(lay, p, b).node, Pos(i, lay.height[i], 0))
    ensures Size(AttachedDisk(disk, lay, p, b, x), i) == Size(disk, i)
  {
    SlotHoldsReference(disk, lay, p);
    if i != p.ino && InodeBlock(i) == InodeBlock(p.ino) {
      InodeWordsApart(i, p.ino);
    }
    assert Root(disk, i) == Ref(lay.node, Pos(i, lay.height[i], 0));
    if p.level < lay.height[p.ino] {
      assert NodeOk(disk, lay, p.Parent());
    }
  }

  lemma AttachData(disk: Disk, lay: Layout, limbo: set<nat>, p: Pos, b: nat, x: Block)
    requires Ownership(lay, |disk|, limbo) && b in limbo && lay.inodeBlocks < b < |disk| <= WORD_LIMIT
    requires TreeInv(disk, lay) && InTree(disk, lay, p) && p !in lay.node
    requires SlotBlock(lay, p) < |disk|
    ensures SameData(disk, lay, AttachedDisk(disk, lay, p, b, x), Attached(lay, p, b), p)
  {
    forall q: Pos | q.level == 0 && q != p
      ensures BlockAt(AttachedDisk(disk, lay, p, b, x), Attached(lay, p, b), q) == BlockAt(disk, lay, q)
    {
      assert q in lay.node ==> NodeOk(disk, lay, q);
    }
  }

  lemma NewNodeOk(disk: Disk, lay: Layout, disk': Disk, p: Pos, b: nat)
    requires TreeInv(disk, lay) && InTree(disk, lay, p) && p !in lay.node
    requires |disk'| == |disk| && lay.inodeBlocks < b < |disk|
    requires Size(disk', p.ino) == Size(disk, p.ino)
    requires p.level > 0 ==> disk'[b] == ZeroBlock()
    ensures NodeOk(disk', Attached(lay, p, b), p)
  {
    if p.level > 0 {
      forall j | 0 <= j < 128
        ensures p.Child(j) !in lay.node
      {
        assert p.Child(j).Parent() == p;
        assert p.Child(j) in lay.node ==> NodeOk(disk, lay, p.Child(j));
      }
    }
  }

  lemma OldNodeOk(disk: Disk, lay: Layout, limbo: set<nat>, disk': Disk, p: Pos, b: nat, x: Block, q: Pos)
    requires Ownership(lay, |disk|, limbo) && b in limbo
    requires TreeInv(disk, lay) && InTree(disk, lay, p) && p !in lay.node
    requires lay.inodeBlocks < b < |disk| <= WORD_LIMIT && SlotBlock(lay, p) < |disk|
    requires disk' == AttachedDisk(disk, lay, p, b, x)
    requires q in lay.node && NodeOk(disk, lay, q) && Size(disk', q.ino) == Size(disk, q.ino)
    ensures NodeOk(disk', Attached(lay, p, b), q)
  {
    if q.level > 0 {
      SlotHoldsReference(disk, lay, p);
      forall j | 0 <= j < 128
        ensures disk'[lay.node[q]][j] == Ref(Attached(lay, p, b).node, q.Child(j))
      {
        assert disk[lay.node[q]][j] == Ref(lay.node, q.Child(j));
        assert q.Child(j).Parent() == q;
        if q == p.Parent() && p.level < lay.height[p.ino] {
          assert p.Parent().Child(p.index % 128) == p;
        }
      }
    }
  }

  /** The contents of every data place except p are the same on both disks. */
  ghost predicate SameData(disk: Disk, lay: Layout, disk': Disk, lay': Layout, p: Pos) {
    forall q: Pos {:trigger BlockAt(disk', lay', q)} :: q.level == 0 && q != p ==> BlockAt(disk', lay', q) == BlockAt(disk, lay, q)
  }

  /** Putting a new root above the tree of ino. */
  ghost function Grown(lay: Layout, ino: nat, b: nat): Layout
    requires ino < |lay.height|
  {
    Attached(lay, Pos(ino, lay.height[ino] + 1, 0), b).(height := lay.height[ino := lay.height[ino] + 1])
  }

  function GrownDisk(disk: Disk, ino: nat, b: nat): Disk
    requires InodeBlock(ino) < |disk| && b < |disk| <= WORD_LIMIT
  {
    disk[b := ZeroBlock()[0 := Root(disk, ino)]][InodeBlock(ino) := disk[InodeBlock(ino)][RootWord(ino) := b]]
  }

  lemma GrowTree(disk: Disk, lay: Layout, limbo: set<nat>, ino: nat, b: nat)
    requires Ownership(lay, |disk|, limbo) && b in limbo && lay.inodeBlocks < b < |disk| <= WORD_LIMIT
    requires TreeInv(disk, lay) && ino < |lay.height| && Size(disk, ino) > 0
    ensures Pos(ino, lay.height[ino] + 1, 0) !in lay.node
    ensures TreeInv(GrownDisk(disk, ino, b), Grown(lay, ino, b))
    ensures forall i :: 0 <= i < |lay.height| ==> Size(GrownDisk(disk, ino, b), i) == Size(disk, i)
  {
    var top := Pos(ino, lay.height[ino] + 1, 0);
    var lay' := Grown(lay, ino, b);
    var disk' := GrownDisk(disk, ino, b);
    assert top in lay.node ==> NodeOk(disk, lay, top);
    forall i | 0 <= i < |lay.height|
      ensures Root(disk', i) == Ref(lay'.node, Pos(i, lay'.height[i], 0))
      ensures Size(disk', i) == Size(disk, i)
    {
      GrowInode(disk, lay, ino, b, i);
    }
    forall p | p in lay'.node
      ensures NodeOk(disk', lay', p)
    {
      if p == top {
        GrownRootOk(disk, lay, ino, b);
      } else {
        assert NodeOk(disk, lay, p);
        GrownInTree(disk, lay, disk', ino, b, p);
      }
    }
  }

  lemma GrowInode(disk: Disk, lay: Layout, ino: nat, b: nat, i: nat)
    requires lay.inodeBlocks < b < |disk| <= WORD_LIMIT
    requires TreeInv(disk, lay) && ino < |lay.height| && i < |lay.height|
    ensures Root(GrownDisk(disk, ino, b), i) == Ref(Grown(lay, ino, b).node, Pos(i, Grown(lay, ino, b).height[i], 0))
    ensures Size(GrownDisk(disk, ino, b), i) == Size(disk, i)
  {
    if i != ino && InodeBlock(i) == InodeBlock(ino) {
      InodeWordsApart(i, ino);
    }
    assert Root(disk, i) == Ref(lay.node, Pos(i, lay.height[i], 0));
  }

  lemma GrowData(disk: Disk, lay: Layout, limbo: set<nat>, ino: nat, b: nat, p: Pos)
    requires Ownership(lay, |disk|, limbo) && b in limbo && lay.inodeBlocks < b < |disk| <= WORD_LIMIT
    requires TreeInv(disk, lay) && ino < |lay.height|
    ensures SameData(disk, lay, GrownDisk(disk, ino, b), Grown(lay, ino, b), p)
  {
    forall q: Pos | q.level == 0 && q != p
      ensures BlockAt(GrownDisk(disk, ino, b), Grown(lay, ino, b), q) == BlockAt(disk, lay, q)
    {
      assert q in lay.node ==> NodeOk(disk, lay, q);
    }
  }

  lemma GrownInTree(disk: Disk, lay: Layout, disk': Disk, ino: nat, b: nat, p: Pos)
    requires TreeInv(disk, lay) && p in lay.node && NodeOk(disk, lay, p) && ino < |lay.height|
    requires |disk'| == |disk| && Size(disk', p.ino) == Size(disk, p.ino)
    ensures InTree(disk', Grown(lay, ino, b), p)
  {
    if p.ino == ino {
      var h := lay.height[ino];
      assert Pow(h) < Pow(h + 1);
      if p.level == h {
        StartInside(p.index, h);
      }
    }
  }

  lemma GrownRootOk(disk: Disk, lay: Layout, ino: nat, b: nat)
    requires TreeInv(disk, lay) && ino < |lay.height| && Size(disk, ino) > 0
    requires lay.inodeBlocks < b < |disk| <= WORD_LIMIT
    ensures NodeOk(GrownDisk(disk, ino, b), Grown(lay, ino, b), Pos(ino, lay.height[ino] + 1, 0))
  {
    var h := lay.height[ino];
    var top := Pos(ino, h + 1, 0);
    StartInside(0, h + 1);
    StartIsProduct(0, h + 1);
    assert Root(disk, ino) == Ref(lay.node, Pos(ino, h, 0));
    forall j | 0 < j < 128
      ensures top.Child(j) !in lay.node
    {
      StartInside(j, h);
      assert top.Child(j) in lay.node ==> NodeOk(disk, lay, top.Child(j));
    }
  }

  /** Enlarging a file before its tree follows. */
  function ResizedDisk(disk: Disk, ino: nat, n: Word): Disk
    requires InodeBlock(ino) < |disk|
  {
    disk[InodeBlock(ino) := disk[InodeBlock(ino)][RootWord(ino) + 1 := n]]
  }

  lemma ResizeTree(disk: Disk, lay: Layout, ino: nat, n: Word)
    requires TreeInv(disk, lay) && ino < |lay.height| && Size(disk, ino) <= n
    ensures TreeInv(ResizedDisk(disk, ino, n), lay)
    ensures forall i :: 0 <= i < |lay.height| ==> Size(ResizedDisk(disk, ino, n), i) == if i == ino then n else Size(disk, i)
  {
    var disk' := ResizedDisk(disk, ino, n);
    forall i | 0 <= i < |lay.height|
      ensures Root(disk', i) == Ref(lay.node, Pos(i, lay.height[i], 0))
      ensures Size(disk', i) == if i == ino then n else Size(disk, i)
    {
      assert Root(disk, i) == Ref(lay.node, Pos(i, lay.height[i], 0));
      if i != ino && InodeBlock(i) == InodeBlock(ino) {
        InodeWordsApart(i, ino);
      }
    }
    forall p | p in lay.node
      ensures NodeOk(disk', lay, p)
    {
      assert NodeOk(disk, lay, p);
    }
  }

  lemma ResizeData(disk: Disk, lay: Layout, ino: nat, n: Word, p: Pos)
    requires TreeInv(disk, lay) && ino < |lay.height|
    ensures SameData(disk, lay, ResizedDisk(disk, ino, n), lay, p)
  {
    forall q: Pos | q.level == 0 && q != p
      ensures BlockAt(ResizedDisk(disk, ino, n), lay, q) == BlockAt(disk, lay, q)
    {
      assert q in lay.node ==> NodeOk(disk, lay, q);
    }
  }

  // ------------------------------------------------- steps with a block in memory

  /** The disk as it will be once the block kept in memory has been written back. */
  function Overlay(disk: Disk, at: nat, buf: Block): (d: Disk)
    requires at < |disk|
    ensures |d| == |disk|
  {
    disk[at := buf]
  }

  ghost predicate SameSizes(disk: Disk, disk': Disk, lay: Layout) {
    && |disk'| == |disk|
    && |lay.height| == 64 * lay.inodeBlocks && lay.inodeBlocks + 1 <= |disk|
    && forall i {:trigger Size(disk', i)} :: 0 <= i < |lay.height| ==> Size(disk', i) == Size(disk, i)
  }

  /** Nothing is lost between two states of a write to the data place p: trees only gain
      nodes, only the height of that file's tree may change, and all other data stays. */
  ghost predicate Progress(disk: Disk, lay: Layout, disk': Disk, lay': Layout, p: Pos) {
    && lay'.inodeBlocks == lay.inodeBlocks
    && |lay'.height| == |lay.height|
    && (forall i :: 0 <= i < |lay.height| && i != p.ino ==> lay'.height[i] == lay.height[i])
    && (forall q :: q in lay.node ==> q in lay'.node)
    && SameSizes(disk, disk', lay)
    && SameData(disk, lay, disk', lay', p)
  }

  lemma ProgressTrans(d0: Disk, l0: Layout, d1: Disk, l1: Layout, d2: Disk, l2: Layout, p: Pos)
    requires Progress(d0, l0, d1, l1, p) && Progress(d1, l1, d2, l2, p)
    ensures Progress(d0, l0, d2, l2, p)
  {
    forall i | 0 <= i < |l0.height|
      ensures Size(d2, i) == Size(d0, i)
    {
      assert Size(d2, i) == Size(d1, i) == Size(d0, i);
    }
    forall q: Pos | q.level == 0 && q != p
      ensures BlockAt(d2, l2, q) == BlockAt(d0, l0, q)
    {
      assert BlockAt(d2, l2, q) == BlockAt(d1, l1, q) == BlockAt(d0, l0, q);
    }
  }

  /** Only the superblock's free-list word and free-list blocks differ. */
  ghost predicate OnlyFreeListChanged(disk: Disk, disk': Disk, lay: Layout) {
    && |disk'| == |disk| > 0
    && disk'[0][0] == disk[0][0]
    && forall b :: 0 < b < |disk| && b !in lay.chain ==> disk'[b] == disk[b]
  }

  ghost predicate SameTrees(lay: Layout, lay': Layout) {
    lay'.inodeBlocks == lay.inodeBlocks && lay'.node == lay.node && lay'.height == lay.height
  }

  lemma AllocKeepsTree(disk: Disk, disk': Disk, lay: Layout, lay': Layout, limbo: set<nat>, at: nat, buf: Block, p: Pos)
    requires Ownership(lay, |disk|, limbo) && OnlyFreeListChanged(disk, disk', lay) && SameTrees(lay, lay')
    requires 0 < at < |disk| && at !in lay.chain && TreeInv(Overlay(disk, at, buf), lay)
    ensures TreeInv(Overlay(disk', at, buf), lay')
    ensures Progress(Overlay(disk, at, buf), lay, Overlay(disk', at, buf), lay', p)
  {
    TreeFrame(Overlay(disk, at, buf), Overlay(disk', at, buf), lay, lay');
  }

  /** The body of the growth loop after its allocation: b becomes the root. */
  lemma GrowStep(disk: Disk, lay: Layout, buf: Block, ino: nat, b: nat, p: Pos)
    requires |disk| <= WORD_LIMIT && Ownership(lay, |disk|, {b}) && lay.inodeBlocks < b < |disk|
    requires FreeList(disk, lay) && ino < |lay.height| && p.ino == ino && InodeBlock(ino) <= lay.inodeBlocks
    requires TreeInv(Overlay(disk, InodeBlock(ino), buf), lay) && buf[RootWord(ino) + 1] > 0
    ensures var disk' := disk[b := ZeroBlock()[0 := buf[RootWord(ino)]]];
      var lay' := Grown(lay, ino, b);
      var at := InodeBlock(ino);
      && Ownership(lay', |disk|, {})
      && FreeBlocks(lay') == FreeBlocks(lay)
      && FreeList(disk', lay')
      && TreeInv(Overlay(disk', at, buf[RootWord(ino) := b]), lay')
      && Progress(Overlay(disk, at, buf), lay, Overlay(disk', at, buf[RootWord(ino) := b]), lay', p)
  {
    var at := InodeBlock(ino);
    var over := Overlay(disk, at, buf);
    var lay' := Grown(lay, ino, b);
    var disk' := disk[b := ZeroBlock()[0 := buf[RootWord(ino)]]];
    assert Overlay(disk', at, buf[RootWord(ino) := b]) == GrownDisk(over, ino, b);
    GrowTree(over, lay, {b}, ino, b);
    GrowData(over, lay, {b}, ino, b, p);
    AttachOwnership(lay, |disk|, {b}, Pos(ino, lay.height[ino] + 1, 0), b);
    SameRolesOwnership(Attached(lay, Pos(ino, lay.height[ino] + 1, 0), b), lay', |disk|);
    FreeListFrame(disk, disk', lay, lay');
  }

  lemma SameRolesOwnership(lay: Layout, lay': Layout, nblocks: nat)
    requires Ownership(lay, nblocks, {}) && lay' == lay.(height := lay'.height)
    ensures Ownership(lay', nblocks, {})
    ensures FreeBlocks(lay') == FreeBlocks(lay)
  {
    forall b | b in lay'.owner
      ensures RoleOk(lay', b)
    {
      assert RoleOk(lay, b);
    }
  }

  /** The body of the walk after its allocation: b fills the hole at p, whose parent block
      buf is written back. Below, a fresh indirect block is zero but not yet on disk. */
  lemma AttachStep(disk: Disk, lay: Layout, buf: Block, p: Pos, b: nat, x: Block, data: Pos)
    requires |disk| <= WORD_LIMIT && Ownership(lay, |disk|, {b}) && lay.inodeBlocks < b < |disk|
    requires FreeList(disk, lay) && p.ino < |lay.height|
    requires 0 < SlotBlock(lay, p) < |disk| && SlotBlock(lay, p) !in lay.chain
    requires TreeInv(Overlay(disk, SlotBlock(lay, p), buf), lay)
    requires InTree(Overlay(disk, SlotBlock(lay, p), buf), lay, p) && p !in lay.node
    requires p.level > 0 ==> x == ZeroBlock()
    requires data.ino == p.ino && (p.level == 0 ==> p == data)
    ensures var at := SlotBlock(lay, p);
      var disk' := disk[at := buf[SlotWord(lay, p) := b]];
      var lay' := Attached(lay, p, b);
      && Ownership(lay', |disk|, {})
      && FreeBlocks(lay') == FreeBlocks(lay)
      && FreeList(disk', lay')
      && TreeInv(Overlay(disk', b, x), lay')
      && Progress(Overlay(disk, at, buf), lay, Overlay(disk', b, x), lay', data)
  {
    var at := SlotBlock(lay, p);
    var over := Overlay(disk, at, buf);
    var disk' := disk[at := buf[SlotWord(lay, p) := b]];
    var lay' := Attached(lay, p, b);
    assert Overlay(disk', b, x) == AttachedDisk(over, lay, p, b, x);
    AttachTree(over, lay, {b}, p, b, x);
    AttachData(over, lay, {b}, p, b, x);
    if p.level > 0 {
      assert p !in lay.node && BlockAt(over, lay, p) == ZeroBlock();
    }
    AttachOwnership(lay, |disk|, {b}, p, b);
    FreeListFrame(disk, disk', lay, lay');
  }

  /** What stands for a block that has just been given a place: an indirect block is zero
      in memory, a data block still has its old contents. */
  function Fresh(level: nat, block: Block): Block {
    if level > 0 then ZeroBlock() else block
  }

  /** A whole round of the walk that fills a hole: allocation (disk to disk1) and attachment. */
  lemma FillStep(disk: Disk, lay: Layout, disk1: Disk, lay1: Layout, buf: Block, p: Pos, b: nat, data: Pos)
    requires |disk| <= WORD_LIMIT && p.ino < |lay.height|
    requires 0 < SlotBlock(lay, p) < |disk| && SlotBlock(lay, p) !in lay.chain
    requires TreeInv(Overlay(disk, SlotBlock(lay, p), buf), lay)
    requires InTree(Overlay(disk, SlotBlock(lay, p), buf), lay, p) && p !in lay.node
    requires data.ino == p.ino && (p.level == 0 ==> p == data)
    requires Ownership(lay, |disk|, {}) && OnlyFreeListChanged(disk, disk1, lay) && SameTrees(lay, lay1)
    requires Ownership(lay1, |disk|, {b}) && FreeList(disk1, lay1) && lay.inodeBlocks < b < |disk|
    requires forall k :: 0 <= k < |lay1.chain| ==> lay1.chain[k] in lay.chain
    ensures var at := SlotBlock(lay, p);
      var disk' := disk1[at := buf[SlotWord(lay, p) := b]];
      var lay' := Attached(lay1, p, b);
      && Ownership(lay', |disk|, {})
      && FreeBlocks(lay') == FreeBlocks(lay1)
      && FreeList(disk', lay')
      && TreeInv(Overlay(disk', b, Fresh(p.level, disk'[b])), lay')
      && Progress(Overlay(disk, at, buf), lay, Overlay(disk', b, Fresh(p.level, disk'[b])), lay', data)
  {
    var at := SlotBlock(lay, p);
    AllocKeepsTree(disk, disk1, lay, lay1, {}, at, buf, data);
    var over, over1 := Overlay(disk, at, buf), Overlay(disk1, at, buf);
    assert Size(over1, p.ino) == Size(over, p.ino);
    var disk' := disk1[at := buf[SlotWord(lay, p) := b]];
    AttachStep(disk1, lay1, buf, p, b, Fresh(p.level, disk'[b]), data);
    ProgressTrans(over, lay, over1, lay1, Overlay(disk', b, Fresh(p.level, disk'[b])), Attached(lay1, p, b), data);
  }
}
