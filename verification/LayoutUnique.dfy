/** The disk alone determines who owns every block. */
module LayoutUnique {
  import opened Radix
  import opened TreeLayout

  lemma {:induction false} SameNode(disk: Disk, l1: Layout, l2: Layout, p: Pos)
    requires TreeInv(disk, l1) && TreeInv(disk, l2) && l1.height == l2.height
    requires p in l1.node
    ensures p in l2.node && l2.node[p] == l1.node[p]
    decreases if p.ino < |l1.height| then l1.height[p.ino] - p.level else 0
  {
    assert NodeOk(disk, l1, p);
    if p.level == l1.height[p.ino] {
      StartInside(p.index, p.level);
      assert Root(disk, p.ino) == Ref(l1.node, p) == Ref(l2.node, p);
    } else {
      var q, j := p.Parent(), p.index % 128;
      SameNode(disk, l1, l2, q);
      assert NodeOk(disk, l1, q) && NodeOk(disk, l2, q);
      assert q.Child(j) == p;
      assert disk[l1.node[q]][j] == Ref(l1.node, p) == Ref(l2.node, p);
    }
  }

  lemma {:induction false} SameChain(disk: Disk, l1: Layout, l2: Layout, k1: nat, k2: nat)
    requires FreeList(disk, l1) && FreeList(disk, l2) && k1 <= |l1.chain| && k2 <= |l2.chain|
    requires Top(l1.chain[..k1]) == Top(l2.chain[..k2])
    ensures l1.chain[..k1] == l2.chain[..k2]
  {
    if k1 > 0 {
      assert ChainOk(disk, l1, k1 - 1);
    }
    if k2 > 0 {
      assert ChainOk(disk, l2, k2 - 1);
    }
    if k1 > 0 {
      assert k2 > 0;
      SameChain(disk, l1, l2, k1 - 1, k2 - 1);
      assert l1.chain[..k1] == l1.chain[..k1 - 1] + [l1.chain[k1 - 1]];
      assert l2.chain[..k2] == l2.chain[..k2 - 1] + [l2.chain[k2 - 1]];
    }
  }

  lemma SameOwner(disk: Disk, l1: Layout, l2: Layout, b: nat)
    requires FsInv(disk, l1) && FsInv(disk, l2)
    requires l1.node == l2.node && l1.chain == l2.chain && l1.inodeBlocks == l2.inodeBlocks
    requires b in l1.owner
    ensures b in l2.owner && l2.owner[b] == l1.owner[b]
  {
    assert RoleOk(l1, b);
    match l1.owner[b] {
      case Tree(p) =>
        assert l2.owner[l2.node[p]] == Tree(p);
      case Chain(k) =>
        assert l2.owner[l2.chain[k]] == Chain(k);
      case Entry(k, j) =>
        assert EntryOk(disk, l1, b);
        assert ChainOk(disk, l2, k);
        assert EntriesOwned(disk[l2.chain[k]], l2, k);
    }
  }

  /** A disk has at most one layout, so block ownership, the free list and the cost of a
      write are facts about the disk. */
  lemma LayoutIsUnique(disk: Disk, l1: Layout, l2: Layout)
    requires FsInv(disk, l1) && FsInv(disk, l2)
    ensures l1 == l2
  {
    forall i | 0 <= i < |l1.height|
      ensures l1.height[i] == l2.height[i]
    {
      assert HeightOk(disk, l1, i) && HeightOk(disk, l2, i);
    }
    assert l1.height == l2.height;
    forall p | p in l1.node
      ensures p in l2.node && l2.node[p] == l1.node[p]
    {
      SameNode(disk, l1, l2, p);
    }
    forall p | p in l2.node
      ensures p in l1.node
    {
      SameNode(disk, l2, l1, p);
    }
    assert l1.node == l2.node;
    assert l1.chain[..|l1.chain|] == l1.chain && l2.chain[..|l2.chain|] == l2.chain;
    SameChain(disk, l1, l2, |l1.chain|, |l2.chain|);
    forall b | b in l1.owner
      ensures b in l2.owner && l2.owner[b] == l1.owner[b]
    {
      SameOwner(disk, l1, l2, b);
    }
    assert l1.owner == l2.owner;
  }
}
