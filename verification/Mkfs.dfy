/** Making a file system: the free list, the empty inodes, and the sequence of writes that
    fills the files. */
module Mkfs {
  import opened Radix
  import opened TreeLayout
  import opened WriteSpec
  import opened Treedisk

  /** The contents of the free-list block b of a fresh free list over [first, nblocks): a link
      to the previous one and the up to 127 blocks after it. */
  function FreshLink(first: nat, nblocks: nat, b: nat): Block
    requires first <= b < nblocks < WORD_LIMIT
  {
    seq(128, j requires 0 <= j < 128 => FreshWord(first, nblocks, b, j))
  }

  function FreshWord(first: nat, nblocks: nat, b: nat, j: nat): Word
    requires first <= b < nblocks < WORD_LIMIT
  {
    if j == 0 then (if b < first + 128 then 0 else b - 128) else if b + j < nblocks then b + j else 0
  }

  predicate IsLink(first: nat, b: nat) {
    b >= first && (b - first) % 128 == 0
  }

  /** The last free-list block below end. */
  function LastLink(first: nat, end: nat): nat {
    if end <= first then 0 else first + (end - 1 - first) / 128 * 128
  }

  /** The device after treedisk_create has formatted it. */
  function Formatted(disk: Disk, inodeBlocks: nat): (d: Disk)
    requires inodeBlocks + 2 <= |disk| < WORD_LIMIT
    ensures |d| == |disk|
  {
    seq(|disk|, b requires 0 <= b < |disk| => FormattedBlock(disk, inodeBlocks, b))
  }

  function FormattedBlock(disk: Disk, inodeBlocks: nat, b: nat): Block
    requires inodeBlocks + 2 <= |disk| < WORD_LIMIT && b < |disk|
  {
    if b == 0 then ZeroBlock()[0 := inodeBlocks][1 := LastLink(inodeBlocks + 1, |disk|)]
    else if b <= inodeBlocks then ZeroBlock()
    else if IsLink(inodeBlocks + 1, b) then FreshLink(inodeBlocks + 1, |disk|, b)
    else disk[b]
  }

  /** The inner loops of setup_freelist: references to the following blocks, then zeros. */
  method FillLink(data: array<Word>, ghost first: nat, next0: nat, nblocks: nat, ghost link: nat) returns (next: nat)
    requires data.Length == 128 && first <= link < nblocks < WORD_LIMIT && next0 == link + 1
    requires data[0] == FreshWord(first, nblocks, link, 0)
    modifies data
    ensures next == if link + 128 < nblocks then link + 128 else nblocks
    ensures forall j :: 0 <= j < 128 ==> data[j] == FreshWord(first, nblocks, link, j)
  {
    next := next0;
    var i := 1;
    while i < 128 && next < nblocks
      invariant 1 <= i <= 128 && next == link + i <= nblocks
      invariant forall j :: 0 <= j < i ==> data[j] == FreshWord(first, nblocks, link, j)
    {
      data[i] := next;
      next := next + 1;
      i := i + 1;
    }
    while i < 128
      invariant 1 <= i <= 128 && (i < 128 ==> next == nblocks)
      invariant next <= link + i && next == if link + 128 < nblocks then link + 128 else nblocks
      invariant forall j :: 0 <= j < i ==> data[j] == FreshWord(first, nblocks, link, j)
    {
      data[i] := 0;
      i := i + 1;
    }
  }

  /** setup_freelist. */
  method SetupFreelist(below: BlockStore, first: nat, nblocks: nat) returns (head: nat)
    requires 0 < first <= nblocks == |below.blocks| < WORD_LIMIT
    modifies below
    ensures head == LastLink(first, nblocks)
    ensures |below.blocks| == nblocks
    ensures forall b :: 0 <= b < nblocks ==>
              below.blocks[b] == if IsLink(first, b) then FreshLink(first, nblocks, b) else old(below.blocks)[b]
  {
    var data := new Word[128](_ => 0);
    var next := first;
    head := 0;
    while next < nblocks
      invariant first <= next <= nblocks == |below.blocks|
      invariant next == nblocks || (next - first) % 128 == 0
      invariant head == LastLink(first, next)
      invariant fresh(data)
      invariant forall b :: 0 <= b < nblocks ==>
        below.blocks[b] == if IsLink(first, b) && b < next then FreshLink(first, nblocks, b) else old(below.blocks)[b]
    {
      ghost var link := next;
      data[0] := head;
      head := next;
      next := FillLink(data, first, next + 1, nblocks, link);
      assert data[..] == FreshLink(first, nblocks, link);
      below.Write(head, data[..]);
    }
  }

  /** treedisk_create: refuses a device that is too small, leaves a formatted one alone and
      formats any other. */
  method Create(below: BlockStore, ninodes: Word) returns (status: Status)
    requires 0 < |below.blocks| < WORD_LIMIT
    modifies below
    ensures status == (if |below.blocks| < (ninodes + 63) / 64 + 2 then Failed else Done)
    ensures below.blocks == Created(old(below.blocks), (ninodes + 63) / 64)
  {
    var inodeBlocks := (ninodes + INODES_PER_BLOCK - 1) / INODES_PER_BLOCK;
    var nblocks := |below.blocks|;
    if nblocks < inodeBlocks + 2 {
      return Failed;
    }
    ghost var disk := below.blocks;
    var superblock := below.Read(0);
    if superblock[0] == 0 {
      superblock := ZeroBlock()[0 := inodeBlocks];
      var head := SetupFreelist(below, inodeBlocks + 1, nblocks);
      superblock := superblock[1 := head];
      below.Write(0, superblock);
      var i := 1;
      while i <= inodeBlocks
        invariant 1 <= i <= inodeBlocks + 1 && |below.blocks| == nblocks
        invariant forall b :: 0 <= b < nblocks && !(i <= b <= inodeBlocks) ==>
                    below.blocks[b] == FormattedBlock(disk, inodeBlocks, b)
      {
        below.Write(i, ZeroBlock());
        i := i + 1;
      }
      assert below.blocks == Formatted(disk, inodeBlocks);
    }
    return Done;
  }

  function Created(disk: Disk, inodeBlocks: nat): Disk
    requires 0 < |disk| < WORD_LIMIT
  {
    if |disk| < inodeBlocks + 2 || disk[0][0] != 0 then disk else Formatted(disk, inodeBlocks)
  }

  // ------------------------------------------------------ the formatted device

  function FreshRole(first: nat, b: nat): Role
    requires first <= b
  {
    if (b - first) % 128 == 0 then Chain((b - first) / 128) else Entry((b - first) / 128, (b - first) % 128)
  }

  /** The layout of a fresh file system: all blocks past the inodes are free. */
  ghost function FreshLayout(inodeBlocks: nat, nblocks: nat): Layout
    requires inodeBlocks + 2 <= nblocks
  {
    Layout(
      inodeBlocks,
      map b {:trigger FreshRole(inodeBlocks + 1, b)} | inodeBlocks < b < nblocks :: FreshRole(inodeBlocks + 1, b),
      map[],
      seq((nblocks - inodeBlocks - 2) / 128 + 1, k => inodeBlocks + 1 + 128 * k),
      seq(64 * inodeBlocks, _ => 0))
  }

  lemma FreshOwnership(inodeBlocks: nat, nblocks: nat)
    requires inodeBlocks + 2 <= nblocks
    ensures Ownership(FreshLayout(inodeBlocks, nblocks), nblocks, {})
  {
    var lay := FreshLayout(inodeBlocks, nblocks);
    forall b | b in lay.owner
      ensures RoleOk(lay, b)
    {
      assert lay.owner[b] == FreshRole(inodeBlocks + 1, b);
    }
    forall k | 0 <= k < |lay.chain|
      ensures lay.chain[k] in lay.owner && lay.owner[lay.chain[k]] == Chain(k)
    {
      assert lay.chain[k] == inodeBlocks + 1 + 128 * k;
      assert FreshRole(inodeBlocks + 1, lay.chain[k]) == Chain(k);
    }
  }

  lemma FreshChainOk(disk: Disk, inodeBlocks: nat, k: nat)
    requires inodeBlocks + 2 <= |disk| < WORD_LIMIT && k < |FreshLayout(inodeBlocks, |disk|).chain|
    ensures ChainOk(Formatted(disk, inodeBlocks), FreshLayout(inodeBlocks, |disk|), k)
  {
    var lay, d, first := FreshLayout(inodeBlocks, |disk|), Formatted(disk, inodeBlocks), inodeBlocks + 1;
    var c := lay.chain[k];
    assert c == first + 128 * k && IsLink(first, c);
    assert d[c] == FreshLink(first, |disk|, c);
    assert k > 0 ==> lay.chain[..k][k - 1] == first + 128 * (k - 1);
    forall j | 1 <= j < 128 && d[c][j] != 0
      ensures d[c][j] in lay.owner && lay.owner[d[c][j]] == Entry(k, j)
    {
      assert d[c][j] == c + j;
      assert FreshRole(first, c + j) == Entry(k, j);
    }
  }

  lemma FreshEntryOk(disk: Disk, inodeBlocks: nat, b: nat)
    requires inodeBlocks + 2 <= |disk| < WORD_LIMIT && b in FreshLayout(inodeBlocks, |disk|).owner
    requires FreshLayout(inodeBlocks, |disk|).owner[b].Entry?
    ensures EntryOk(Formatted(disk, inodeBlocks), FreshLayout(inodeBlocks, |disk|), b)
  {
    var lay, d, first := FreshLayout(inodeBlocks, |disk|), Formatted(disk, inodeBlocks), inodeBlocks + 1;
    assert lay.owner[b] == FreshRole(first, b);
    var c := lay.chain[(b - first) / 128];
    assert c == first + 128 * ((b - first) / 128) && IsLink(first, c);
    assert d[c] == FreshLink(first, |disk|, c);
  }

  lemma FreshFreeList(disk: Disk, inodeBlocks: nat)
    requires inodeBlocks + 2 <= |disk| < WORD_LIMIT
    ensures FreeList(Formatted(disk, inodeBlocks), FreshLayout(inodeBlocks, |disk|))
  {
    var lay, d := FreshLayout(inodeBlocks, |disk|), Formatted(disk, inodeBlocks);
    assert lay.chain[|lay.chain| - 1] == LastLink(inodeBlocks + 1, |disk|);
    forall k | 0 <= k < |lay.chain|
      ensures ChainOk(d, lay, k)
    {
      FreshChainOk(disk, inodeBlocks, k);
    }
    forall b | b in lay.owner && lay.owner[b].Entry?
      ensures EntryOk(d, lay, b)
    {
      FreshEntryOk(disk, inodeBlocks, b);
    }
  }

  /** Formatting gives a valid file system in which all files are empty and every block from
      the inode area to the end of the device is free, whatever the device held before. */
  lemma FormattedIsEmpty(disk: Disk, inodeBlocks: nat)
    requires inodeBlocks + 2 <= |disk| < WORD_LIMIT
    ensures FsInv(Formatted(disk, inodeBlocks), FreshLayout(inodeBlocks, |disk|))
    ensures forall b :: b in FreeBlocks(FreshLayout(inodeBlocks, |disk|)) <==> inodeBlocks < b < |disk|
    ensures Files(Formatted(disk, inodeBlocks)) == seq(64 * inodeBlocks, _ => [])
  {
    var lay, d := FreshLayout(inodeBlocks, |disk|), Formatted(disk, inodeBlocks);
    FreshOwnership(inodeBlocks, |disk|);
    FreshFreeList(disk, inodeBlocks);
    forall i | 0 <= i < 64 * inodeBlocks
      ensures Root(d, i) == 0 && Size(d, i) == 0 && HeightOk(d, lay, i) && FileOf(d, i) == []
    {
      assert d[InodeBlock(i)] == ZeroBlock();
    }
    forall b | inodeBlocks < b < |disk|
      ensures b in FreeBlocks(lay)
    {
      assert lay.owner[b] == FreshRole(inodeBlocks + 1, b);
    }
  }

  /** Creating a file system a second time changes nothing. */
  lemma CreateTwice(disk: Disk, inodeBlocks: nat)
    requires 0 < |disk| < WORD_LIMIT
    ensures Created(Created(disk, inodeBlocks), inodeBlocks) == Created(disk, inodeBlocks)
  {
    if |disk| >= inodeBlocks + 2 && disk[0][0] == 0 {
      var d := Formatted(disk, inodeBlocks);
      assert Formatted(d, inodeBlocks) == d by {
        forall b | 0 <= b < |d|
          ensures FormattedBlock(d, inodeBlocks, b) == d[b]
        {
          assert d[b] == FormattedBlock(disk, inodeBlocks, b);
        }
      }
    }
  }

  /** Creating a file system on one that has inodes changes no block, whatever it holds; one
      without inodes looks like a blank device. */
  lemma CreateKeepsFileSystem(disk: Disk, lay: Layout, inodeBlocks: nat)
    requires FsInv(disk, lay) && |disk| < WORD_LIMIT
    ensures Created(disk, inodeBlocks) == disk <==>
            |Files(disk)| > 0 || |disk| < inodeBlocks + 2 || disk == Formatted(disk, inodeBlocks)
  {
  }

  // ------------------------------------------------------------ runs of writes

  datatype WriteOp = WriteOp(ino: nat, offset: nat, block: Block)

  predicate OpOk(op: WriteOp) {
    op.ino < WORD_LIMIT && op.offset < WORD_LIMIT - 1
  }

  /** The files after one write, which fails for an inode out of range. */
  function WriteOne(fs: seq<seq<Block>>, op: WriteOp): seq<seq<Block>> {
    if op.ino < |fs| then WriteFile(fs, op.ino, op.offset, op.block) else fs
  }

  /** The files after a run of writes. */
  function WriteAll(fs: seq<seq<Block>>, ops: seq<WriteOp>): seq<seq<Block>> {
    if ops == [] then fs else WriteOne(WriteAll(fs, ops[..|ops| - 1]), ops[|ops| - 1])
  }

  lemma WriteAllNext(fs: seq<seq<Block>>, ops: seq<WriteOp>, i: nat)
    requires i < |ops|
    ensures WriteAll(fs, ops[..i + 1]) == WriteOne(WriteAll(fs, ops[..i]), ops[i])
  {
    assert ops[..i + 1][..i] == ops[..i];
  }

  /** A write, with the bound on the blocks that it takes. */
  method WriteInRun(td: Treedisk, ino: nat, offset: Word, block: Block) returns (status: Status)
    requires td.Valid() && ino < WORD_LIMIT && offset < WORD_LIMIT - 1
    modifies td`lay, td.below
    ensures status == Panicked ==> old(td.FreeCount()) < 10
    ensures status == Panicked ==> ino < |old(Files(td.below.blocks))|
    ensures status != Panicked ==> td.Valid() && td.FreeCount() >= old(td.FreeCount()) - 10
    ensures status != Panicked ==> |td.below.blocks| == |old(td.below.blocks)|
    ensures status != Panicked ==>
              Files(td.below.blocks) == WriteOne(old(Files(td.below.blocks)), WriteOp(ino, offset, block))
  {
    if ino < |td.lay.height| {
      CostAtMostTen(td.below.blocks, td.lay, ino, offset);
    }
    status := td.Write(ino, offset, block);
  }

  /** Any run of writes on any valid file system is the same run on the array of files; with
      ten free blocks for each write it cannot run out of space. */
  method RunWrites(td: Treedisk, ops: seq<WriteOp>) returns (ok: bool)
    requires td.Valid() && forall op :: op in ops ==> OpOk(op)
    modifies td`lay, td.below
    ensures ok ==> td.Valid() && Files(td.below.blocks) == WriteAll(old(Files(td.below.blocks)), ops)
    ensures ok ==> |td.below.blocks| == |old(td.below.blocks)|
    ensures old(td.FreeCount()) >= 10 * |ops| ==> ok
  {
    var i := 0;
    while i < |ops|
      invariant 0 <= i <= |ops| && td.Valid() && |td.below.blocks| == |old(td.below.blocks)|
      invariant Files(td.below.blocks) == WriteAll(old(Files(td.below.blocks)), ops[..i])
      invariant td.FreeCount() >= old(td.FreeCount()) - 10 * i
    {
      assert OpOk(ops[i]);
      WriteAllNext(old(Files(td.below.blocks)), ops, i);
      var status := WriteInRun(td, ops[i].ino, ops[i].offset, ops[i].block);
      if status == Panicked {
        return false;
      }
      i := i + 1;
    }
    assert ops[..|ops|] == ops;
    return true;
  }

  /** A run of writes and then treedisk_create: the files stay as they were written. */
  method RunWritesThenCreate(td: Treedisk, ops: seq<WriteOp>, ninodes: Word) returns (ok: bool)
    requires td.Valid() && |td.below.blocks| < WORD_LIMIT && forall op :: op in ops ==> OpOk(op)
    requires |Files(td.below.blocks)| > 0
    modifies td`lay, td.below
    ensures ok ==> td.Valid() && Files(td.below.blocks) == WriteAll(old(Files(td.below.blocks)), ops)
    ensures old(td.FreeCount()) >= 10 * |ops| ==> ok
  {
    ok := RunWrites(td, ops);
    if ok {
      LastWriteWins(old(Files(td.below.blocks)), ops, 0);
      CreateKeepsFileSystem(td.below.blocks, td.lay, (ninodes + 63) / 64);
      var _ := Create(td.below, ninodes);
    }
  }

  /** What a block of a file is after a run of writes: the last block written there, else what
      was there before, else zero. */
  function LastWritten(f: seq<Block>, ops: seq<WriteOp>, ino: nat, offset: nat): Block {
    if ops == [] then (if offset < |f| then f[offset] else ZeroBlock())
    else if ops[|ops| - 1].ino == ino && ops[|ops| - 1].offset == offset then ops[|ops| - 1].block
    else LastWritten(f, ops[..|ops| - 1], ino, offset)
  }

  lemma {:induction false} LastWriteWins(fs: seq<seq<Block>>, ops: seq<WriteOp>, ino: nat)
    requires ino < |fs|
    ensures |WriteAll(fs, ops)| == |fs|
    ensures |fs[ino]| <= |WriteAll(fs, ops)[ino]|
    ensures forall op :: op in ops && op.ino == ino ==> op.offset < |WriteAll(fs, ops)[ino]|
    ensures forall offset :: 0 <= offset < |WriteAll(fs, ops)[ino]| ==>
              WriteAll(fs, ops)[ino][offset] == LastWritten(fs[ino], ops, ino, offset)
  {
    if ops != [] {
      var init, op := ops[..|ops| - 1], ops[|ops| - 1];
      LastWriteWins(fs, init, ino);
      assert ops == init + [op];
      forall offset | |WriteAll(fs, init)[ino]| <= offset
        ensures LastWritten(fs[ino], init, ino, offset) == ZeroBlock()
      {
        NeverWritten(fs[ino], init, ino, offset);
      }
    }
  }

  lemma {:induction false} NeverWritten(f: seq<Block>, ops: seq<WriteOp>, ino: nat, offset: nat)
    requires |f| <= offset && forall op :: op in ops && op.ino == ino ==> op.offset < offset
    ensures LastWritten(f, ops, ino, offset) == ZeroBlock()
  {
    if ops != [] {
      assert ops[|ops| - 1] in ops;
      NeverWritten(f, ops[..|ops| - 1], ino, offset);
    }
  }

  function Blocks(contents: seq<seq<Block>>): nat {
    if contents == [] then 0 else Blocks(contents[..|contents| - 1]) + |contents[|contents| - 1]|
  }

  lemma {:induction false} BlocksMonotone(contents: seq<seq<Block>>, i: nat)
    requires i < |contents|
    ensures Blocks(contents[..i + 1]) == Blocks(contents[..i]) + |contents[i]|
    ensures Blocks(contents[..i + 1]) <= Blocks(contents)
    decreases |contents|
  {
    assert contents[..i + 1][..i] == contents[..i];
    if i + 1 < |contents| {
      var init := contents[..|contents| - 1];
      BlocksMonotone(init, i);
      assert init[..i + 1] == contents[..i + 1];
    } else {
      assert contents[..i + 1] == contents;
    }
  }

  /** mkfs: format a blank device and write every file block by block. The result holds exactly
      the given files, and with ten blocks on the device for each block of a file it is made. */
  method MakeFileSystem(nblocks: nat, ninodes: Word, contents: seq<seq<Block>>) returns (td: Treedisk, ok: bool)
    requires (ninodes + 63) / 64 + 2 <= nblocks < WORD_LIMIT
    requires |contents| <= ninodes && forall f :: f in contents ==> |f| < WORD_LIMIT
    ensures fresh(td) && fresh(td.below)
    ensures nblocks - 1 - (ninodes + 63) / 64 >= 10 * Blocks(contents) ==> ok
    ensures ok ==> td.Valid()
    ensures ok ==> |contents| <= |Files(td.below.blocks)| == (ninodes + 63) / 64 * 64
    ensures ok ==> forall i :: 0 <= i < |Files(td.below.blocks)| ==>
              Files(td.below.blocks)[i] == if i < |contents| then contents[i] else []
  {
    var inodeBlocks := (ninodes + 63) / 64;
    td := EmptyFileSystem(nblocks, ninodes);
    ok := true;
    var ino := 0;
    while ino < |contents|
      invariant 0 <= ino <= |contents| && td.Valid() && fresh(td) && fresh(td.below)
      invariant |Files(td.below.blocks)| == 64 * inodeBlocks
      invariant forall i :: 0 <= i < 64 * inodeBlocks ==>
                  Files(td.below.blocks)[i] == if i < ino then contents[i] else []
      invariant ok && td.FreeCount() >= nblocks - 1 - inodeBlocks - 10 * Blocks(contents[..ino])
    {
      BlocksMonotone(contents, ino);
      ok := WriteWhole(td, ino, contents[ino]);
      if !ok {
        return;
      }
      ino := ino + 1;
    }
  }

  method EmptyFileSystem(nblocks: nat, ninodes: Word) returns (td: Treedisk)
    requires (ninodes + 63) / 64 + 2 <= nblocks < WORD_LIMIT
    ensures fresh(td) && fresh(td.below) && td.Valid()
    ensures Files(td.below.blocks) == seq(64 * ((ninodes + 63) / 64), _ => [])
    ensures td.FreeCount() == nblocks - 1 - (ninodes + 63) / 64
  {
    ghost var blank: Disk := seq(nblocks, _ => ZeroBlock());
    ghost var lay := FreshLayout((ninodes + 63) / 64, nblocks);
    var below := new BlockStore(seq(nblocks, _ => ZeroBlock()));
    var status := Create(below, ninodes);
    FormattedIsEmpty(blank, (ninodes + 63) / 64);
    RangeSize((ninodes + 63) / 64 + 1, nblocks, FreeBlocks(lay));
    td := new Treedisk(below, lay);
  }

  /** Writing the blocks of a new file one after the other. */
  method WriteWhole(td: Treedisk, ino: nat, content: seq<Block>) returns (ok: bool)
    requires td.Valid() && ino < |Files(td.below.blocks)| && ino < WORD_LIMIT && |content| < WORD_LIMIT
    requires Files(td.below.blocks)[ino] == []
    modifies td`lay, td.below
    ensures old(td.FreeCount()) >= 10 * |content| ==> ok
    ensures ok ==> td.Valid() && Files(td.below.blocks) == old(Files(td.below.blocks))[ino := content]
    ensures ok ==> td.FreeCount() >= old(td.FreeCount()) - 10 * |content|
  {
    var b := 0;
    while b < |content|
      invariant 0 <= b <= |content| && td.Valid()
      invariant Files(td.below.blocks) == old(Files(td.below.blocks))[ino := content[..b]]
      invariant td.FreeCount() >= old(td.FreeCount()) - 10 * b
    {
      var status := WriteInRun(td, ino, b, content[b]);
      if status == Panicked {
        return false;
      }
      assert content[..b] + Zeros(0) + [content[b]] == content[..b + 1];
      b := b + 1;
    }
    assert content[..|content|] == content;
    return true;
  }
}
