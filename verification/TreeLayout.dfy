/** The on-disk layout of a treedisk file system, and the invariant that says which block
    plays which part in it.

    A block is 128 words. Block 0 is the superblock (word 0: number of inode blocks, word 1:
    head of the free list); inode i is words 2(i mod 64) (root) and 2(i mod 64) + 1 (size) of
    block 1 + i / 64; indirect blocks and free-list blocks are all references. */
module TreeLayout {
  import opened Radix

  const INODES_PER_BLOCK := 64

  type Block = b: seq<Word> | |b| == 128 witness seq(128, _ => 0)
  type Disk = seq<Block>

  function ZeroBlock(): (z: Block)
    ensures forall j :: 0 <= j < 128 ==> z[j] == 0
  {
    seq(128, _ => 0)
  }

  /** A place in a file's tree: the block of the given level (0 for data) that covers the
      offsets from index * 128^level on. */
  datatype Pos = Pos(ino: nat, level: nat, index: nat) {
    function Parent(): Pos {
      Pos(ino, level + 1, index / 128)
    }

    function Child(j: nat): Pos
      requires level > 0
    {
      Pos(ino, level - 1, 128 * index + j)
    }

    function Start(): nat {
      StartOf(index, level)
    }
  }

  /** The place at the given level on the path to an offset. */
  function At(ino: nat, offset: nat, level: nat): Pos {
    Pos(ino, level, Prefix(offset, level))
  }

  /** What a block past the inode area is used for: a place in a tree, a node of the free
      list, or word j of free-list node k. */
  datatype Role = Tree(pos: Pos) | Chain(k: nat) | Entry(k: nat, j: nat)

  /** Who owns which block. The free list is a stack: its head is the last node of chain. */
  datatype Layout = Layout(
    inodeBlocks: nat,
    owner: map<nat, Role>,
    node: map<Pos, nat>,
    chain: seq<nat>,
    height: seq<nat>)

  function Ref(node: map<Pos, nat>, p: Pos): nat {
    if p in node then node[p] else 0
  }

  function InodeBlock(ino: nat): nat {
    1 + ino / 64
  }

  function RootWord(ino: nat): (w: nat)
    ensures w < 127
  {
    2 * (ino % 64)
  }

  function Root(disk: Disk, ino: nat): Word
    requires InodeBlock(ino) < |disk|
  {
    disk[InodeBlock(ino)][RootWord(ino)]
  }

  function Size(disk: Disk, ino: nat): Word
    requires InodeBlock(ino) < |disk|
  {
    disk[InodeBlock(ino)][RootWord(ino) + 1]
  }

  /** Every block past the inode area, except those in transit, has one role, and the roles
      agree with the tree and chain tables. */
  ghost predicate Ownership(lay: Layout, nblocks: nat, limbo: set<nat>) {
    && (forall b {:trigger b in lay.owner} :: b in lay.owner <==> lay.inodeBlocks < b < nblocks && b !in limbo)
    && (forall b {:trigger RoleOk(lay, b)} :: b in lay.owner ==> RoleOk(lay, b))
    && (forall p {:trigger lay.node[p]} :: p in lay.node ==> lay.node[p] in lay.owner && lay.owner[lay.node[p]] == Tree(p))
    && (forall k :: 0 <= k < |lay.chain| ==> lay.chain[k] in lay.owner && lay.owner[lay.chain[k]] == Chain(k))
  }

  ghost predicate RoleOk(lay: Layout, b: nat)
    requires b in lay.owner
  {
    match lay.owner[b]
    case Tree(p) => p in lay.node && lay.node[p] == b
    case Chain(k) => k < |lay.chain| && lay.chain[k] == b
    case Entry(k, j) => k < |lay.chain| && 1 <= j < 128
  }

  function Top(chain: seq<nat>): nat {
    if chain == [] then 0 else chain[|chain| - 1]
  }

  /** The superblock and the free-list blocks spell out the chain and exactly the blocks
      whose role is Entry. */
  ghost predicate FreeList(disk: Disk, lay: Layout) {
    && |disk| > 0
    && disk[0][1] == Top(lay.chain)
    && (forall k {:trigger ChainOk(disk, lay, k)} :: 0 <= k < |lay.chain| ==> ChainOk(disk, lay, k))
    && (forall b {:trigger EntryOk(disk, lay, b)} :: b in lay.owner && lay.owner[b].Entry? ==> EntryOk(disk, lay, b))
  }

  ghost predicate ChainOk(disk: Disk, lay: Layout, k: nat)
    requires k < |lay.chain|
  {
    && 0 < lay.chain[k] < |disk|
    && disk[lay.chain[k]][0] == Top(lay.chain[..k])
    && EntriesOwned(disk[lay.chain[k]], lay, k)
  }

  ghost predicate EntriesOwned(block: Block, lay: Layout, k: nat) {
    forall j :: 1 <= j < 128 && block[j] != 0 ==> block[j] in lay.owner && lay.owner[block[j]] == Entry(k, j)
  }

  ghost predicate EntryOk(disk: Disk, lay: Layout, b: nat)
    requires b in lay.owner && lay.owner[b].Entry?
  {
    && lay.owner[b].k < |lay.chain|
    && lay.owner[b].j < 128
    && lay.chain[lay.owner[b].k] < |disk|
    && disk[lay.chain[lay.owner[b].k]][lay.owner[b].j] == b
  }

  /** The inode and indirect blocks hold exactly the references that the tree table says:
      a place that is not in the table is a hole, reference 0. */
  ghost predicate TreeInv(disk: Disk, lay: Layout) {
    && lay.inodeBlocks + 1 <= |disk|
    && disk[0][0] == lay.inodeBlocks
    && |lay.height| == 64 * lay.inodeBlocks
    && (forall i :: 0 <= i < |lay.height| ==> Root(disk, i) == Ref(lay.node, Pos(i, lay.height[i], 0)))
    && (forall p {:trigger NodeOk(disk, lay, p)} :: p in lay.node ==> NodeOk(disk, lay, p))
  }

  ghost predicate NodeOk(disk: Disk, lay: Layout, p: Pos)
    requires p in lay.node && |lay.height| == 64 * lay.inodeBlocks && lay.inodeBlocks + 1 <= |disk|
  {
    && lay.inodeBlocks < lay.node[p] < |disk|
    && InTree(disk, lay, p)
    && (p.level > 0 ==> forall j :: 0 <= j < 128 ==> disk[lay.node[p]][j] == Ref(lay.node, p.Child(j)))
  }

  /** The offsets covered by the place start inside the file and inside the tree, and all
      places above it are occupied. */
  ghost predicate InTree(disk: Disk, lay: Layout, p: Pos)
    requires |lay.height| == 64 * lay.inodeBlocks && lay.inodeBlocks + 1 <= |disk|
  {
    && p.ino < |lay.height|
    && p.level <= lay.height[p.ino]
    && p.Start() < Size(disk, p.ino)
    && p.Start() < Pow(lay.height[p.ino])
    && (p.level < lay.height[p.ino] ==> p.Parent() in lay.node)
  }

  /** The invariant at operation boundaries. */
  ghost predicate FsInv(disk: Disk, lay: Layout) {
    && |disk| <= WORD_LIMIT
    && Ownership(lay, |disk|, {})
    && FreeList(disk, lay)
    && TreeInv(disk, lay)
    && forall i {:trigger HeightOk(disk, lay, i)} :: 0 <= i < |lay.height| ==> HeightOk(disk, lay, i)
  }

  ghost predicate HeightOk(disk: Disk, lay: Layout, i: nat)
    requires i < |lay.height| == 64 * lay.inodeBlocks && lay.inodeBlocks + 1 <= |disk|
  {
    && lay.height[i] == Height(Size(disk, i))
    && (Size(disk, i) > 0 ==> Pos(i, lay.height[i], 0) in lay.node)
  }

  // ---------------------------------------------------------------- contents

  /** What the block trees mean, read off the disk alone: holes are zero. */
  function Lookup(disk: Disk, b: nat, level: nat, offset: nat): Block
    decreases level
  {
    if b == 0 || b >= |disk| then ZeroBlock()
    else if level == 0 then disk[b]
    else Lookup(disk, disk[b][Digit(offset, level - 1)], level - 1, offset)
  }

  function FileOf(disk: Disk, ino: nat): (f: seq<Block>)
    requires InodeBlock(ino) < |disk|
  {
    seq(Size(disk, ino), offset requires offset >= 0 => Lookup(disk, Root(disk, ino), Height(Size(disk, ino)), offset))
  }

  /** All files of the file system, by inode number. */
  function Files(disk: Disk): (fs: seq<seq<Block>>)
    requires |disk| > 0 && disk[0][0] < |disk|
  {
    seq(64 * disk[0][0], i requires 0 <= i < 64 * disk[0][0] => FileOf(disk, i))
  }

  ghost function Content(disk: Disk, lay: Layout, ino: nat, offset: nat): Block {
    BlockAt(disk, lay, Pos(ino, 0, offset))
  }

  ghost function BlockAt(disk: Disk, lay: Layout, p: Pos): Block {
    if p in lay.node && lay.node[p] < |disk| then disk[lay.node[p]] else ZeroBlock()
  }

  /** Below a hole there are only holes. */
  lemma {:induction false} HolesAreClosed(disk: Disk, lay: Layout, ino: nat, offset: nat, l: nat, k: nat)
    requires TreeInv(disk, lay) && ino < |lay.height|
    requires k <= l <= lay.height[ino] && At(ino, offset, l) !in lay.node
    ensures At(ino, offset, k) !in lay.node
    decreases l - k
  {
    if k < l {
      HolesAreClosed(disk, lay, ino, offset, l, k + 1);
      assert At(ino, offset, k).Parent() == At(ino, offset, k + 1);
      assert At(ino, offset, k) in lay.node ==> NodeOk(disk, lay, At(ino, offset, k));
    }
  }

  lemma RootPlace(ino: nat, offset: nat, h: nat)
    requires offset < Pow(h)
    ensures At(ino, offset, h) == Pos(ino, h, 0)
  {
    PrefixZero(offset, h);
  }

  lemma ChildOnPath(ino: nat, offset: nat, l: nat)
    requires l > 0
    ensures At(ino, offset, l).Child(Digit(offset, l - 1)) == At(ino, offset, l - 1)
    ensures At(ino, offset, l - 1).Parent() == At(ino, offset, l)
  {
  }

  lemma DataPlace(ino: nat, offset: nat)
    ensures At(ino, offset, 0) == Pos(ino, 0, offset)
  {
  }

  /** Walking down from any place on the path gives the contents at the offset. */
  lemma {:induction false} LookupIsContent(disk: Disk, lay: Layout, ino: nat, l: nat, offset: nat)
    requires TreeInv(disk, lay) && ino < |lay.height| && l <= lay.height[ino]
    ensures Lookup(disk, Ref(lay.node, At(ino, offset, l)), l, offset) == Content(disk, lay, ino, offset)
    decreases l
  {
    DataPlace(ino, offset);
    if At(ino, offset, l) !in lay.node {
      HolesAreClosed(disk, lay, ino, offset, l, 0);
    } else {
      assert NodeOk(disk, lay, At(ino, offset, l));
      if l > 0 {
        ChildOnPath(ino, offset, l);
        LookupIsContent(disk, lay, ino, l - 1, offset);
      }
    }
  }

  lemma FileIsContent(disk: Disk, lay: Layout, ino: nat)
    requires FsInv(disk, lay) && ino < |lay.height|
    ensures |FileOf(disk, ino)| == Size(disk, ino)
    ensures forall offset :: 0 <= offset < Size(disk, ino) ==>
              FileOf(disk, ino)[offset] == Content(disk, lay, ino, offset)
  {
    assert HeightOk(disk, lay, ino);
    HeightCovers(Size(disk, ino));
    forall offset | 0 <= offset < Size(disk, ino)
      ensures FileOf(disk, ino)[offset] == Content(disk, lay, ino, offset)
    {
      RootPlace(ino, offset, lay.height[ino]);
      LookupIsContent(disk, lay, ino, lay.height[ino], offset);
    }
  }

  // ------------------------------------------------------------- free blocks

  ghost function FreeBlocks(lay: Layout): set<nat> {
    set b | b in lay.owner && !lay.owner[b].Tree?
  }

  ghost function UsedBlocks(lay: Layout): set<nat> {
    set b | b in lay.owner && lay.owner[b].Tree?
  }
}
