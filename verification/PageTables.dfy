/** The page tables of all processes: what each frame is used for, and what the tables say. */
module PageTables {
  import opened Pages
  import opened Sv39

  const NPIDS := 32

  /** A page table: the root is level 2 with prefix 0, and the table at level l with a prefix
      serves the virtual pages vpn with vpn / 512^(l+1) equal to the prefix. */
  datatype TPos = TPos(pid: int, level: nat, prefix: nat) {
    function Parent(): TPos {
      TPos(pid, level + 1, prefix / 512)
    }

    function Child(i: nat): TPos
      requires level > 0
    {
      TPos(pid, level - 1, 512 * prefix + i)
    }

    /** The virtual page that entry i of a level 0 table is for. */
    function Page(i: nat): VirtualPage {
      VirtualPage(pid, 512 * prefix + i)
    }
  }

  function TableOf(pid: int, vpn: nat, level: nat): TPos
    requires level <= 2
  {
    TPos(pid, level, if level == 2 then 0 else if level == 1 then vpn / 262144 else vpn / 512)
  }

  /** The use of a frame; Loose is allocated but not mapped. */
  datatype Role = Unused | Loose | Table(t: TPos) | Data(k: VirtualPage)

  /** What a leaf entry means: the page itself, for the system only, or a data frame. */
  datatype Entry = System | User(frame: nat)

  function Encode(page: nat, e: Entry): U64
    requires page < VPN_LIMIT
  {
    match e
    case System => LeafPte(page, OS_FLAGS)
    case User(f) => if f < NFRAMES then LeafPte(CACHE_PAGE + f, USER_FLAGS) else 0
  }

  /** The entries tell the two kinds apart by the user bit, and the frame by the address. */
  lemma EncodeMeaning(page: nat, e: Entry)
    requires page < VPN_LIMIT && (e.User? ==> e.frame < NFRAMES)
    ensures U(Encode(page, e)) <==> e.User?
    ensures V(Encode(page, e)) && R(Encode(page, e)) && W(Encode(page, e)) && X(Encode(page, e))
    ensures A(Encode(page, e)) && D(Encode(page, e))
    ensures PteGetPa(Encode(page, e)) == if e.User? then FrameAddr(e.frame) else page * 4096
    ensures Encode(page, e) % 1024 == if e.User? then USER_FLAGS else OS_FLAGS
  {
    LeafTarget(if e.User? then CACHE_PAGE + e.frame else page, if e.User? then USER_FLAGS else OS_FLAGS);
    LeafBits(Encode(page, e));
  }

  datatype PtLayout = PtLayout(
    role: seq<Role>,
    node: map<TPos, nat>,
    trans: map<VirtualPage, Entry>,
    dead: set<int>)

  function TableEntry(node: map<TPos, nat>, t: TPos): U64 {
    if t in node && node[t] < NFRAMES then TablePte(node[t]) else 0
  }

  function LeafEntry(trans: map<VirtualPage, Entry>, k: VirtualPage): U64 {
    if k in trans && k.page < VPN_LIMIT then Encode(k.page, trans[k]) else 0
  }

  /** Frame table, frame contents and root pointers agree with the layout. */
  ghost predicate PtInv(table: seq<FrameMapping>, frames: seq<Frame>, base: seq<nat>, pt: PtLayout) {
    && |table| == |frames| == |pt.role| == NFRAMES
    && |base| == NPIDS
    && (forall f {:trigger RoleOk(table, pt, f)} :: 0 <= f < NFRAMES ==> RoleOk(table, pt, f))
    && (forall t {:trigger NodeOk(frames, base, pt, t)} :: t in pt.node ==> NodeOk(frames, base, pt, t))
    && (forall k {:trigger TransOk(pt, k)} :: k in pt.trans ==> TransOk(pt, k))
    && (forall p :: 0 <= p < NPIDS && p !in pt.dead && TPos(p, 2, 0) !in pt.node ==> base[p] == 0)
  }

  ghost predicate RoleOk(table: seq<FrameMapping>, pt: PtLayout, f: nat)
    requires f < |table| && f < |pt.role|
  {
    match pt.role[f]
    case Unused => !table[f].use && table[f].pid == 0
    case Loose => table[f].use && table[f].pid == 0
    case Data(_) => table[f].use && table[f].pid == 0
    case Table(t) => table[f].use && table[f].pid == t.pid && t in pt.node && pt.node[t] == f
  }

  /** A table is in the frame with its role, its parent exists and refers to it, and its
      entries are exactly its child tables or its leaf entries. */
  ghost predicate NodeOk(frames: seq<Frame>, base: seq<nat>, pt: PtLayout, t: TPos)
    requires t in pt.node && |pt.role| == |frames| == NFRAMES && |base| == NPIDS
  {
    && pt.node[t] < NFRAMES && pt.role[pt.node[t]] == Table(t)
    && 0 <= t.pid < NPIDS && t.pid !in pt.dead
    && t.level <= 2
    && (t.level == 2 ==> t.prefix == 0 && base[t.pid] == FrameAddr(pt.node[t]))
    && (t.level < 2 ==> t.Parent() in pt.node)
    && (t.level > 0 ==> forall i :: 0 <= i < 512 ==> frames[pt.node[t]][i] == TableEntry(pt.node, t.Child(i)))
    && (t.level == 0 ==> forall i :: 0 <= i < 512 ==>
          frames[pt.node[t]][i] == LeafEntry(pt.trans, t.Page(i)))
  }

  /** A page is mapped either onto itself, for the system only, or to a data frame of its own. */
  ghost predicate TransOk(pt: PtLayout, k: VirtualPage)
    requires k in pt.trans && |pt.role| == NFRAMES
  {
    && k.page < VPN_LIMIT
    && TableOf(k.pid, k.page, 0) in pt.node
    && (pt.trans[k].User? ==> pt.trans[k].frame < NFRAMES && pt.role[pt.trans[k].frame] == Data(k))
  }

  /** The hardware walk gives exactly the recorded translation. */
  lemma {:induction false} WalkFinds(table: seq<FrameMapping>, frames: seq<Frame>, base: seq<nat>, pt: PtLayout,
                                     k: VirtualPage, level: nat)
    requires PtInv(table, frames, base, pt) && k.page < VPN_LIMIT && level <= 2
    requires TableOf(k.pid, k.page, level) in pt.node
    ensures pt.node[TableOf(k.pid, k.page, level)] < NFRAMES
    ensures Walk(frames, pt.node[TableOf(k.pid, k.page, level)], k.page, level)
         == if k in pt.trans then Leaf(Encode(k.page, pt.trans[k]), 0) else Fault
  {
    var t := TableOf(k.pid, k.page, level);
    assert NodeOk(frames, base, pt, t);
    TableSteps(k, level);
    if level == 0 {
      if k in pt.trans {
        assert TransOk(pt, k);
        EncodeMeaning(k.page, pt.trans[k]);
      }
      WalkEntries(frames, 0, LeafEntry(pt.trans, k), k.page, 0);
    } else {
      var c := TableOf(k.pid, k.page, level - 1);
      if c in pt.node {
        WalkFinds(table, frames, base, pt, k, level - 1);
        WalkEntries(frames, pt.node[c], 0, k.page, level);
      } else {
        WalkEntries(frames, 0, 0, k.page, level);
        if k in pt.trans {
          NoTableNoPage(table, frames, base, pt, k, level - 1);
        }
      }
    }
  }

  lemma TableSteps(k: VirtualPage, level: nat)
    requires k.page < VPN_LIMIT && level <= 2
    ensures level > 0 ==> TableOf(k.pid, k.page, level).Child(Index(k.page, level)) == TableOf(k.pid, k.page, level - 1)
    ensures level < 2 ==> TableOf(k.pid, k.page, level).Parent() == TableOf(k.pid, k.page, level + 1)
    ensures level < 2 ==> TableOf(k.pid, k.page, level).prefix % 512 == Index(k.page, level + 1)
    ensures level == 0 ==> TableOf(k.pid, k.page, 0).Page(Index(k.page, 0)) == k
  {
  }

  /** A page that is mapped has all three tables on its path. */
  lemma NoTableNoPage(table: seq<FrameMapping>, frames: seq<Frame>, base: seq<nat>, pt: PtLayout, k: VirtualPage, level: nat)
    requires PtInv(table, frames, base, pt) && level <= 2 && k in pt.trans
    ensures TableOf(k.pid, k.page, level) in pt.node
  {
    assert TransOk(pt, k);
    assert NodeOk(frames, base, pt, TableOf(k.pid, k.page, 0));
    TableSteps(k, 0);
    assert NodeOk(frames, base, pt, TableOf(k.pid, k.page, 1));
    TableSteps(k, 1);
  }

  // -------------------------------------------------------------------- steps

  lemma AllocStep(table: seq<FrameMapping>, frames: seq<Frame>, base: seq<nat>, pt: PtLayout, f: nat)
    requires PtInv(table, frames, base, pt) && f < NFRAMES && !table[f].use
    ensures pt.role[f] == Unused
    ensures PtInv(table[f := table[f].(use := true)], frames, base, pt.(role := pt.role[f := Loose]))
  {
    var table', pt' := table[f := table[f].(use := true)], pt.(role := pt.role[f := Loose]);
    assert RoleOk(table, pt, f);
    forall g | 0 <= g < NFRAMES
      ensures RoleOk(table', pt', g)
    {
      assert RoleOk(table, pt, g);
    }
    forall t | t in pt'.node
      ensures NodeOk(frames, base, pt', t)
    {
      assert NodeOk(frames, base, pt, t);
    }
    forall k | k in pt'.trans
      ensures TransOk(pt', k)
    {
      assert TransOk(pt, k);
    }
  }

  ghost predicate CanAdd(pt: PtLayout, t: TPos) {
    && t !in pt.node
    && 0 <= t.pid < NPIDS && t.pid !in pt.dead
    && t.level <= 2
    && (t.level == 2 ==> t.prefix == 0)
    && (t.level < 2 ==> t.Parent() in pt.node)
  }

  ghost function Added(pt: PtLayout, t: TPos, f: nat): PtLayout
    requires f < |pt.role|
  {
    pt.(role := pt.role[f := Table(t)], node := pt.node[t := f])
  }

  /** The frames after an empty table for t has been set up in frame f and entered in its
      parent, and the root pointers after the same. */
  ghost function AddedFrames(frames: seq<Frame>, pt: PtLayout, t: TPos, f: nat): seq<Frame>
    requires |frames| == NFRAMES && f < NFRAMES && (t.level < 2 ==> t.Parent() in pt.node && pt.node[t.Parent()] < NFRAMES)
  {
    var cleared := frames[f := ZeroFrame()];
    if t.level < 2 then
      cleared[pt.node[t.Parent()] := cleared[pt.node[t.Parent()]][t.prefix % 512 := TablePte(f)]]
    else cleared
  }

  ghost function AddedBase(base: seq<nat>, t: TPos, f: nat): seq<nat>
    requires f < NFRAMES && 0 <= t.pid < |base|
  {
    if t.level == 2 then base[t.pid := FrameAddr(f)] else base
  }

  lemma AddStep(table: seq<FrameMapping>, frames: seq<Frame>, base: seq<nat>, pt: PtLayout, t: TPos, f: nat)
    requires PtInv(table, frames, base, pt) && CanAdd(pt, t) && f < NFRAMES && pt.role[f] == Loose
    ensures t.level < 2 ==> pt.node[t.Parent()] < NFRAMES
    ensures PtInv(table[f := table[f].(pid := t.pid)], AddedFrames(frames, pt, t, f), AddedBase(base, t, f), Added(pt, t, f))
  {
    assert RoleOk(table, pt, f);
    if t.level < 2 {
      assert NodeOk(frames, base, pt, t.Parent());
    }
    var table', frames', base', pt' :=
      table[f := table[f].(pid := t.pid)], AddedFrames(frames, pt, t, f), AddedBase(base, t, f), Added(pt, t, f);
    forall g | 0 <= g < NFRAMES
      ensures RoleOk(table', pt', g)
    {
      assert RoleOk(table, pt, g);
    }
    forall u | u in pt'.node
      ensures NodeOk(frames', base', pt', u)
    {
      if u == t {
        AddedNewNode(table, frames, base, pt, t, f);
      } else {
        assert NodeOk(frames, base, pt, u);
        AddedOldNode(table, frames, base, pt, t, f, u);
      }
    }
    forall k | k in pt'.trans
      ensures TransOk(pt', k)
    {
      assert TransOk(pt, k);
    }
  }

  lemma AddedNewNode(table: seq<FrameMapping>, frames: seq<Frame>, base: seq<nat>, pt: PtLayout, t: TPos, f: nat)
    requires PtInv(table, frames, base, pt) && CanAdd(pt, t) && f < NFRAMES && pt.role[f] == Loose
    requires t.level < 2 ==> pt.node[t.Parent()] < NFRAMES && pt.node[t.Parent()] != f
    ensures NodeOk(AddedFrames(frames, pt, t, f), AddedBase(base, t, f), Added(pt, t, f), t)
  {
    if t.level > 0 {
      forall i | 0 <= i < 512
        ensures t.Child(i) !in pt.node
      {
        assert t.Child(i).Parent() == t;
        assert t.Child(i) in pt.node ==> NodeOk(frames, base, pt, t.Child(i));
      }
    } else {
      forall i | 0 <= i < 512
        ensures t.Page(i) !in pt.trans
      {
        var k := t.Page(i);
        assert TableOf(k.pid, k.page, 0) == t;
        assert k in pt.trans ==> TransOk(pt, k);
      }
    }
  }

  lemma AddedOldNode(table: seq<FrameMapping>, frames: seq<Frame>, base: seq<nat>, pt: PtLayout, t: TPos, f: nat, u: TPos)
    requires PtInv(table, frames, base, pt) && CanAdd(pt, t) && f < NFRAMES && pt.role[f] == Loose
    requires t.level < 2 ==> pt.node[t.Parent()] < NFRAMES && pt.role[pt.node[t.Parent()]] == Table(t.Parent())
    requires u in pt.node && u != t && NodeOk(frames, base, pt, u)
    ensures NodeOk(AddedFrames(frames, pt, t, f), AddedBase(base, t, f), Added(pt, t, f), u)
  {
    var frames' := AddedFrames(frames, pt, t, f);
    if u.level > 0 {
      forall i | 0 <= i < 512
        ensures frames'[pt.node[u]][i] == TableEntry(Added(pt, t, f).node, u.Child(i))
      {
        assert frames[pt.node[u]][i] == TableEntry(pt.node, u.Child(i));
        assert u.Child(i).Parent() == u;
        if t.level < 2 && u == t.Parent() {
          assert u.Child(t.prefix % 512) == t;
        }
      }
    }
  }

  /** Entering a leaf entry: a page onto itself, or a loose frame that becomes user data. */
  ghost function LeafFrames(frames: seq<Frame>, leaf: nat, k: VirtualPage, e: Entry): seq<Frame>
    requires leaf < |frames| && k.page < VPN_LIMIT
  {
    frames[leaf := frames[leaf][k.page % 512 := Encode(k.page, e)]]
  }

  ghost predicate LeafAllowed(pt: PtLayout, e: Entry) {
    e.User? ==> e.frame < NFRAMES == |pt.role| && pt.role[e.frame] == Loose
  }

  ghost function Entered(pt: PtLayout, k: VirtualPage, e: Entry): PtLayout
    requires LeafAllowed(pt, e)
  {
    pt.(trans := pt.trans[k := e], role := if e.User? then pt.role[e.frame := Data(k)] else pt.role)
  }

  lemma LeafStep(table: seq<FrameMapping>, frames: seq<Frame>, base: seq<nat>, pt: PtLayout, k: VirtualPage, e: Entry)
    requires PtInv(table, frames, base, pt) && k.page < VPN_LIMIT
    requires TableOf(k.pid, k.page, 0) in pt.node && LeafAllowed(pt, e)
    ensures pt.node[TableOf(k.pid, k.page, 0)] < NFRAMES
    ensures PtInv(table, LeafFrames(frames, pt.node[TableOf(k.pid, k.page, 0)], k, e), base, Entered(pt, k, e))
  {
    var t := TableOf(k.pid, k.page, 0);
    assert NodeOk(frames, base, pt, t);
    var frames', pt' := LeafFrames(frames, pt.node[t], k, e), Entered(pt, k, e);
    forall g | 0 <= g < NFRAMES
      ensures RoleOk(table, pt', g)
    {
      assert RoleOk(table, pt, g);
    }
    forall u | u in pt'.node
      ensures NodeOk(frames', base, pt', u)
    {
      assert NodeOk(frames, base, pt, u);
      LeafKeepsNode(table, frames, base, pt, k, e, u);
    }
    forall j | j in pt'.trans
      ensures TransOk(pt', j)
    {
      assert j != k ==> TransOk(pt, j);
    }
  }

  lemma LeafKeepsNode(table: seq<FrameMapping>, frames: seq<Frame>, base: seq<nat>, pt: PtLayout,
                      k: VirtualPage, e: Entry, u: TPos)
    requires PtInv(table, frames, base, pt) && k.page < VPN_LIMIT && LeafAllowed(pt, e)
    requires TableOf(k.pid, k.page, 0) in pt.node && NodeOk(frames, base, pt, TableOf(k.pid, k.page, 0))
    requires u in pt.node && NodeOk(frames, base, pt, u)
    ensures NodeOk(LeafFrames(frames, pt.node[TableOf(k.pid, k.page, 0)], k, e), base, Entered(pt, k, e), u)
  {
    var t := TableOf(k.pid, k.page, 0);
    if u.level == 0 {
      forall i | 0 <= i < 512
        ensures LeafFrames(frames, pt.node[t], k, e)[pt.node[u]][i] == LeafEntry(pt.trans[k := e], u.Page(i))
      {
        assert frames[pt.node[u]][i] == LeafEntry(pt.trans, u.Page(i));
      }
    }
  }

  /** Freeing a process: its tables are gone, its translations too, and it is never reused. */
  ghost function Removed(pt: PtLayout, pid: int): PtLayout {
    PtLayout(
      seq(|pt.role|, f requires 0 <= f < |pt.role| => if pt.role[f].Table? && pt.role[f].t.pid == pid then Unused else pt.role[f]),
      map t | t in pt.node && t.pid != pid :: pt.node[t],
      map k | k in pt.trans && k.pid != pid :: pt.trans[k],
      pt.dead + {pid})
  }

  lemma RemoveStep(table: seq<FrameMapping>, table': seq<FrameMapping>, frames: seq<Frame>, base: seq<nat>, pt: PtLayout, pid: int)
    requires PtInv(table, frames, base, pt) && pid > 0 && |table'| == NFRAMES
    requires forall f :: 0 <= f < NFRAMES ==>
      table'[f] == if table[f].use && table[f].pid == pid then FrameMapping(false, 0, 0) else table[f]
    ensures PtInv(table', frames, base, Removed(pt, pid))
    ensures forall f :: 0 <= f < NFRAMES ==>
      (table[f].use && table[f].pid == pid <==> exists t :: t in pt.node && t.pid == pid && pt.node[t] == f)
  {
    var pt' := Removed(pt, pid);
    forall f | 0 <= f < NFRAMES
      ensures RoleOk(table', pt', f)
      ensures table[f].use && table[f].pid == pid <==> exists t :: t in pt.node && t.pid == pid && pt.node[t] == f
    {
      assert RoleOk(table, pt, f);
      forall t | t in pt.node && pt.node[t] == f
        ensures pt.role[f] == Table(t)
      {
        assert NodeOk(frames, base, pt, t);
      }
    }
    forall t | t in pt'.node
      ensures NodeOk(frames, base, pt', t)
    {
      assert NodeOk(frames, base, pt, t);
    }
    forall k | k in pt'.trans
      ensures TransOk(pt', k)
    {
      assert TransOk(pt, k);
    }
  }
}
