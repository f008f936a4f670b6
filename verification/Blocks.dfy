/** The blocks of the JOS file system (`inc/fs.h`, `fs/fs.c`) and who owns them.

    The state is the sequence of all disk blocks as the file server sees them.  A block
    holds file bytes, an indirect table, directory entries or the free bitmap; a block of
    zeros reads as empty under each of these.  Files are named by where their inode is.
 */
module Blocks {

  const BLKSIZE: int := 4096
  const NDIRECT: int := 10
  const NINDIRECT: int := 1024
  const BLKFILES: int := 16

  datatype Inode = Inode(name: string, size: int, dir: bool, direct: seq<int>, indirect: int)

  /** An unused directory entry. */
  function Empty(): Inode { Inode("", 0, false, [0, 0, 0, 0, 0, 0, 0, 0, 0, 0], 0) }

  datatype Block =
    | Data(bytes: seq<int>)
    | Table(slots: seq<int>)
    | Nodes(nodes: seq<Inode>)
    | Bitmap(free: seq<bool>)

  function Zeros(): (s: seq<int>)
    ensures |s| == 4096 && forall i {:trigger s[i]} :: 0 <= i < 4096 ==> s[i] == 0
  {
    seq(4096, i => 0)
  }

  /** What memset leaves in a block. */
  function Zero(): Block { Data(Zeros()) }

  function Bytes(x: Block): (s: seq<int>)
    ensures |s| == 4096
  {
    if x.Data? && |x.bytes| == 4096 then x.bytes else Zeros()
  }

  function Slots(x: Block): (s: seq<int>)
    ensures |s| == 1024
  {
    if x.Table? && |x.slots| == 1024 then x.slots else seq(1024, i => 0)
  }

  function NodesOf(x: Block): (s: seq<Inode>)
    ensures |s| == 16
  {
    if x.Nodes? && |x.nodes| == 16 then x.nodes else seq(16, i => Empty())
  }

  type View = seq<Block>

  function BlockAt(v: View, b: int): Block {
    if 0 <= b < |v| then v[b] else Zero()
  }

  /** A file: the block that holds its inode, and the index there. */
  datatype File = File(b: int, j: int)

  /** The root directory's inode is in the superblock. */
  function Root(): File { File(1, 0) }

  function NodeAt(v: View, f: File): Inode {
    if 0 <= f.j < 16 then NodesOf(BlockAt(v, f.b))[f.j] else Empty()
  }

  function DirectAt(n: Inode, i: int): int {
    if 0 <= i < 10 && |n.direct| == 10 then n.direct[i] else 0
  }

  /** The places that may hold a block number. */
  datatype Place = Slot(f: File, i: int) | Indirect(f: File)

  /** The block number at a place; 0 is the null block number. */
  function Look(v: View, p: Place): int {
    var n := NodeAt(v, p.f);
    match p
    case Indirect(_) => n.indirect
    case Slot(_, i) =>
      if i < 10 then DirectAt(n, i)
      else if i < 1034 && n.indirect != 0 then Slots(BlockAt(v, n.indirect))[i - 10]
      else 0
  }

  /** Bit set means free; nothing beyond the bitmap is free. */
  function IsFree(v: View, b: int): bool {
    var m := BlockAt(v, 2);
    m.Bitmap? && 0 <= b < |m.free| && m.free[b]
  }

  // ---------- The invariant ----------

  type Owners = map<int, Place>

  /** A block number stored at a place makes that place the owner of the block. */
  ghost predicate OwnsAt(v: View, own: Owners, p: Place) {
    Look(v, p) != 0 ==> Look(v, p) in own && own[Look(v, p)] == p
  }

  /** The owner of a block does refer to it, and owned blocks are never reserved ones. */
  ghost predicate OwnedAt(v: View, own: Owners, b: int) {
    b in own ==> 3 <= b < |v| && Look(v, own[b]) == b
  }

  /** A block is free exactly when it is not reserved, not owned and not held by an
      operation in progress. */
  ghost predicate FreeAt(v: View, own: Owners, held: set<int>, b: int) {
    IsFree(v, b) <==> 3 <= b < |v| && b !in own && b !in held
  }

  ghost predicate HeldAt(v: View, own: Owners, held: set<int>, b: int) {
    b in held ==> 3 <= b < |v| && b !in own
  }

  /** The contents of a block are what its owner takes them for. */
  ghost predicate KindAt(v: View, own: Owners, b: int) {
    if b in own then
      match own[b]
      case Indirect(_) => BlockAt(v, b).Table? || BlockAt(v, b) == Zero()
      case Slot(f, _) =>
        if NodeAt(v, f).dir then BlockAt(v, b).Nodes? || BlockAt(v, b) == Zero() else BlockAt(v, b).Data?
    else b != 1 ==> !BlockAt(v, b).Nodes?
  }

  ghost predicate GoodNodes(s: seq<Inode>) {
    |s| == 16 && forall j {:trigger s[j]} :: 0 <= j < 16 ==> |s[j].direct| == 10 && 0 <= s[j].size
  }

  ghost predicate ShapeAt(v: View, b: int) {
    match BlockAt(v, b)
    case Data(s) => |s| == 4096
    case Table(s) => |s| == 1024
    case Nodes(s) => GoodNodes(s)
    case Bitmap(s) => |s| == |v|
  }

  /** File blocks past the end of a file are not allocated. */
  ghost predicate TailAt(v: View, f: File, i: int) {
    0 <= i && 4096 * i >= NodeAt(v, f).size ==> Look(v, Slot(f, i)) == 0
  }

  /** An entry without a name is unused; directories consist of whole blocks. */
  ghost predicate EntryAt(v: View, f: File) {
    && (NodeAt(v, f).name == "" ==> NodeAt(v, f) == Empty())
    && (NodeAt(v, f).dir ==> NodeAt(v, f).size % 4096 == 0)
    && (f.b == 1 && f.j != 0 ==> NodeAt(v, f) == Empty())
  }

  ghost predicate Inv(v: View, own: Owners, held: set<int>) {
    && 3 <= |v| && v[1].Nodes? && v[2].Bitmap? && NodeAt(v, Root()).dir && NodeAt(v, Root()).name != ""
    && (forall p {:trigger OwnsAt(v, own, p)} :: OwnsAt(v, own, p))
    && (forall b {:trigger OwnedAt(v, own, b)} :: OwnedAt(v, own, b))
    && (forall b {:trigger FreeAt(v, own, held, b)} :: FreeAt(v, own, held, b))
    && (forall b {:trigger HeldAt(v, own, held, b)} :: HeldAt(v, own, held, b))
    && (forall b {:trigger KindAt(v, own, b)} :: KindAt(v, own, b))
    && (forall b {:trigger ShapeAt(v, b)} :: ShapeAt(v, b))
    && (forall f, i {:trigger TailAt(v, f, i)} :: TailAt(v, f, i))
    && (forall f {:trigger EntryAt(v, f)} :: EntryAt(v, f))
  }

  /** Every block number in use is at one place only. */
  lemma DistinctBlocks(v: View, own: Owners, held: set<int>, p: Place, q: Place)
    requires Inv(v, own, held) && Look(v, p) == Look(v, q) != 0
    ensures p == q
  {
    assert OwnsAt(v, own, p) && OwnsAt(v, own, q);
  }

  // ---------- Contents ----------

  /** Byte `pos` of file `f`, also past its end; holes read as zero. */
  function RawByte(v: View, f: File, pos: int): int
  {
    var b := Look(v, Slot(f, pos / 4096));
    if 0 <= pos && b != 0 then Bytes(BlockAt(v, b))[pos % 4096] else 0
  }

  // ---------- Updates ----------

  function SetNode(v: View, f: File, n: Inode): View
    requires 0 <= f.b < |v| && 0 <= f.j < 16
  {
    v[f.b := Nodes(NodesOf(v[f.b])[f.j := n])]
  }

  function SetSlot(v: View, b: int, i: int, x: int): View
    requires 0 <= b < |v| && 0 <= i < 1024
  {
    v[b := Table(Slots(v[b])[i := x])]
  }

  function SetFree(v: View, b: int, free: bool): View
    requires 3 <= |v| && v[2].Bitmap? && |v[2].free| == |v| && 0 <= b < |v|
  {
    v[2 := Bitmap(v[2].free[b := free])]
  }

  /** Where the block number of a place is stored. */
  predicate Storable(v: View, p: Place) {
    var n := NodeAt(v, p.f);
    && 0 <= p.f.b < |v| && 0 <= p.f.j < 16 && |n.direct| == 10
    && (p.Slot? ==> 0 <= p.i < 1034 && (p.i >= 10 ==> 0 < n.indirect < |v|))
  }

  function Assign(v: View, p: Place, x: int): View
    requires Storable(v, p)
  {
    var n := NodeAt(v, p.f);
    match p
    case Indirect(f) => SetNode(v, f, n.(indirect := x))
    case Slot(f, i) =>
      if i < 10 then SetNode(v, f, n.(direct := n.direct[i := x]))
      else SetSlot(v, n.indirect, i - 10, x)
  }

  lemma NodeSetNode(v: View, f: File, n: Inode, g: File)
    requires 0 <= f.b < |v| && 0 <= f.j < 16
    ensures NodeAt(SetNode(v, f, n), g) == if g == f then n else NodeAt(v, g)
  {
  }

  /** A live inode is in the superblock or in a directory block, so it shares its block with
      no file data and no indirect table. */
  lemma LiveHome(v: View, own: Owners, held: set<int>, f: File)
    requires Inv(v, own, held) && NodeAt(v, f).name != ""
    ensures 0 < f.b < |v| && 0 <= f.j < 16 && BlockAt(v, f.b).Nodes? && |NodeAt(v, f).direct| == 10
    ensures f.b == 1 || (f.b in own && own[f.b].Slot? && NodeAt(v, own[f.b].f).dir)
    ensures f.b != 2 && NodeAt(v, f).size >= 0
  {
    assert KindAt(v, own, f.b) && ShapeAt(v, f.b) && OwnedAt(v, own, f.b);
  }

  /** The indirect block of a file is no inode block. */
  lemma IndirectHome(v: View, own: Owners, held: set<int>, f: File)
    requires Inv(v, own, held) && NodeAt(v, f).indirect != 0
    ensures var b := NodeAt(v, f).indirect;
            && 3 <= b < |v| && b in own && own[b] == Indirect(f)
            && !BlockAt(v, b).Nodes? && (BlockAt(v, b).Table? || BlockAt(v, b) == Zero())
            && NodeAt(v, f).name != ""
  {
    var b := NodeAt(v, f).indirect;
    assert OwnsAt(v, own, Indirect(f)) && OwnedAt(v, own, b) && KindAt(v, own, b) && EntryAt(v, f);
  }

  /** The two states store the same block number everywhere except at `p0`, which now
      holds `x`. */
  ghost predicate OnlyAt(v: View, v2: View, p0: Place, x: int) {
    forall p {:trigger Look(v2, p)} :: Look(v2, p) == if p == p0 then x else Look(v, p)
  }

  ghost predicate MetaAt(v: View, v2: View, f: File) {
    var n, m := NodeAt(v, f), NodeAt(v2, f);
    n.name == m.name && n.size == m.size && n.dir == m.dir
  }

  ghost predicate MetaSame(v: View, v2: View) {
    forall f {:trigger MetaAt(v, v2, f)} :: MetaAt(v, v2, f)
  }

  /** Storing a direct block number changes that slot only. */
  lemma AssignDirect(v: View, own: Owners, held: set<int>, f: File, i: int, x: int)
    requires Inv(v, own, held) && NodeAt(v, f).name != "" && 0 <= i < 10
    ensures Storable(v, Slot(f, i))
    ensures OnlyAt(v, Assign(v, Slot(f, i), x), Slot(f, i), x) && MetaSame(v, Assign(v, Slot(f, i), x))
  {
    LiveHome(v, own, held, f);
    var n := NodeAt(v, f).(direct := NodeAt(v, f).direct[i := x]);
    var v2 := Assign(v, Slot(f, i), x);
    forall p {:trigger Look(v2, p)} | true
      ensures Look(v2, p) == if p == Slot(f, i) then x else Look(v, p)
    {
      NodeSetNode(v, f, n, p.f);
      if NodeAt(v, p.f).indirect != 0 { IndirectHome(v, own, held, p.f); }
    }
    forall g {:trigger MetaAt(v, v2, g)} | true
      ensures MetaAt(v, v2, g)
    {
      NodeSetNode(v, f, n, g);
    }
  }

  /** Storing a block number in the indirect table changes that slot only. */
  lemma AssignTable(v: View, own: Owners, held: set<int>, f: File, i: int, x: int)
    requires Inv(v, own, held) && NodeAt(v, f).indirect != 0 && 10 <= i < 1034
    ensures Storable(v, Slot(f, i))
    ensures OnlyAt(v, Assign(v, Slot(f, i), x), Slot(f, i), x) && MetaSame(v, Assign(v, Slot(f, i), x))
  {
    IndirectHome(v, own, held, f);
    LiveHome(v, own, held, f);
    var v2 := Assign(v, Slot(f, i), x);
    forall g {:trigger NodeAt(v2, g)} | true
      ensures NodeAt(v2, g) == NodeAt(v, g)
    {
    }
    forall p {:trigger Look(v2, p)} | true
      ensures Look(v2, p) == if p == Slot(f, i) then x else Look(v, p)
    {
      assert NodeAt(v2, p.f) == NodeAt(v, p.f);
      if NodeAt(v, p.f).indirect != 0 { IndirectHome(v, own, held, p.f); }
    }
  }

  /** Changing the indirect pointer between null and an all-zero table changes that pointer
      only. */
  lemma AssignIndirect(v: View, own: Owners, held: set<int>, f: File, x: int)
    requires Inv(v, own, held) && NodeAt(v, f).name != ""
    requires NodeAt(v, f).indirect == 0
             || forall i {:trigger Look(v, Slot(f, i))} :: i >= 10 ==> Look(v, Slot(f, i)) == 0
    requires x == 0 || (x != f.b && BlockAt(v, x) == Zero())
    ensures Storable(v, Indirect(f))
    ensures OnlyAt(v, Assign(v, Indirect(f), x), Indirect(f), x) && MetaSame(v, Assign(v, Indirect(f), x))
  {
    LiveHome(v, own, held, f);
    var n := NodeAt(v, f).(indirect := x);
    var v2 := Assign(v, Indirect(f), x);
    forall p {:trigger Look(v2, p)} | true
      ensures Look(v2, p) == if p == Indirect(f) then x else Look(v, p)
    {
      NodeSetNode(v, f, n, p.f);
      if NodeAt(v, p.f).indirect != 0 { IndirectHome(v, own, held, p.f); }
      if p.f == f && p.Slot? && p.i >= 10 { assert NodeAt(v, f).indirect != 0 ==> Look(v, Slot(f, p.i)) == 0; }
    }
    forall g {:trigger MetaAt(v, v2, g)} | true
      ensures MetaAt(v, v2, g)
    {
      NodeSetNode(v, f, n, g);
    }
  }

  /** The block that holds the block number of a place. */
  function HomeOf(v: View, p: Place): int {
    if p.Slot? && p.i >= 10 then NodeAt(v, p.f).indirect else p.f.b
  }

  /** `x` may be stored at place `p`: the file is live and has the slot, and a change of the
      indirect pointer is between null and an all-zero table. */
  ghost predicate Assignable(v: View, p: Place, x: int) {
    && NodeAt(v, p.f).name != ""
    && (p.Slot? ==> 0 <= p.i < 1034 && (p.i >= 10 ==> NodeAt(v, p.f).indirect != 0))
    && (p.Indirect? ==>
          && (NodeAt(v, p.f).indirect == 0 ||
              forall i {:trigger Look(v, Slot(p.f, i))} :: i >= 10 ==> Look(v, Slot(p.f, i)) == 0)
          && (x == 0 || (x != p.f.b && BlockAt(v, x) == Zero())))
  }

  lemma AssignOnly(v: View, own: Owners, held: set<int>, p: Place, x: int)
    requires Inv(v, own, held) && Assignable(v, p, x)
    ensures Storable(v, p)
    ensures var v2 := Assign(v, p, x);
            && OnlyAt(v, v2, p, x) && MetaSame(v, v2) && |v2| == |v|
            && 0 < HomeOf(v, p) < |v| && HomeOf(v, p) != 2
            && v2 == v[HomeOf(v, p) := v2[HomeOf(v, p)]]
            && (if p.Slot? && p.i >= 10
                then HomeOf(v, p) in own && own[HomeOf(v, p)] == Indirect(p.f) && v2[HomeOf(v, p)].Table?
                     && |v2[HomeOf(v, p)].slots| == 1024
                else v[HomeOf(v, p)].Nodes? && v2[HomeOf(v, p)].Nodes? && |v2[HomeOf(v, p)].nodes| == 16)
  {
    LiveHome(v, own, held, p.f);
    match p
    case Indirect(f) =>
      AssignIndirect(v, own, held, f, x);
    case Slot(f, i) =>
      if i < 10 {
        AssignDirect(v, own, held, f, i, x);
      } else {
        IndirectHome(v, own, held, f);
        AssignTable(v, own, held, f, i, x);
      }
  }

  lemma AssignShape(v: View, own: Owners, held: set<int>, p: Place, x: int, b: int)
    requires Inv(v, own, held) && Assignable(v, p, x)
    ensures Storable(v, p) && ShapeAt(Assign(v, p, x), b)
  {
    AssignOnly(v, own, held, p, x);
    LiveHome(v, own, held, p.f);
    assert ShapeAt(v, b) && ShapeAt(v, p.f.b);
  }

  lemma AssignKind(v: View, own: Owners, held: set<int>, p: Place, x: int, b: int)
    requires Inv(v, own, held) && Assignable(v, p, x)
    ensures Storable(v, p) && KindAt(Assign(v, p, x), own, b)
  {
    AssignOnly(v, own, held, p, x);
    LiveHome(v, own, held, p.f);
    var v2 := Assign(v, p, x);
    assert KindAt(v, own, b) && OwnedAt(v, own, b);
    if b in own { assert MetaAt(v, v2, own[b].f); }
  }

  lemma AssignEntry(v: View, own: Owners, held: set<int>, p: Place, x: int, g: File)
    requires Inv(v, own, held) && Assignable(v, p, x)
    ensures Storable(v, p) && EntryAt(Assign(v, p, x), g)
  {
    AssignOnly(v, own, held, p, x);
    LiveHome(v, own, held, p.f);
    var v2 := Assign(v, p, x);
    assert EntryAt(v, g) && MetaAt(v, v2, g) && EntryAt(v, p.f);
    assert g != p.f ==> NodeAt(v2, g) == NodeAt(v, g) by {
      if p.Indirect? { NodeSetNode(v, p.f, NodeAt(v, p.f).(indirect := x), g); }
      else if p.i < 10 { NodeSetNode(v, p.f, NodeAt(v, p.f).(direct := NodeAt(v, p.f).direct[p.i := x]), g); }
    }
  }

  /** What survives a stored block number whatever it is. */
  ghost predicate Skeleton(v: View) {
    && 3 <= |v| && v[1].Nodes? && v[2].Bitmap? && NodeAt(v, Root()).dir && NodeAt(v, Root()).name != ""
    && (forall b {:trigger ShapeAt(v, b)} :: ShapeAt(v, b))
    && (forall f {:trigger EntryAt(v, f)} :: EntryAt(v, f))
  }

  lemma AssignSkeleton(v: View, own: Owners, held: set<int>, p: Place, x: int)
    requires Inv(v, own, held) && Assignable(v, p, x)
    ensures Storable(v, p) && Skeleton(Assign(v, p, x))
  {
    AssignOnly(v, own, held, p, x);
    var v2 := Assign(v, p, x);
    assert OwnedAt(v, own, 1) && MetaAt(v, v2, Root());
    forall b {:trigger ShapeAt(v2, b)} | true
      ensures ShapeAt(v2, b)
    {
      AssignShape(v, own, held, p, x, b);
    }
    forall g {:trigger EntryAt(v2, g)} | true
      ensures EntryAt(v2, g)
    {
      AssignEntry(v, own, held, p, x, g);
    }
  }

  ghost predicate SameRaw(v: View, v2: View) {
    forall f, pos {:trigger RawByte(v2, f, pos)} :: RawByte(v2, f, pos) == RawByte(v, f, pos)
  }

  /** Making place `p` the owner of the zeroed block `b` keeps the invariant and shows in no
      file's bytes. */
  lemma Give(v: View, own: Owners, held: set<int>, p: Place, b: int)
    requires Inv(v, own, held) && Assignable(v, p, b) && Look(v, p) == 0
    requires b in held && BlockAt(v, b) == Zero()
    requires p.Slot? ==> 4096 * p.i < NodeAt(v, p.f).size
    ensures Storable(v, p) && Inv(Assign(v, p, b), own[b := p], held - {b})
    ensures MetaSame(v, Assign(v, p, b)) && SameRaw(v, Assign(v, p, b))
  {
    AssignOnly(v, own, held, p, b);
    AssignSkeleton(v, own, held, p, b);
    var v2, own2, held2 := Assign(v, p, b), own[b := p], held - {b};
    assert HeldAt(v, own, held, b);
    GiveOwners(v, v2, own, held, p, b);
    forall c {:trigger KindAt(v2, own2, c)} | true
      ensures KindAt(v2, own2, c)
    {
      AssignKind(v, own, held, p, b, c);
    }
    forall f, i {:trigger TailAt(v2, f, i)} | true
      ensures TailAt(v2, f, i)
    {
      assert TailAt(v, f, i) && MetaAt(v, v2, f);
      assert Look(v2, Slot(f, i)) == if Slot(f, i) == p then b else Look(v, Slot(f, i));
    }
    forall f, pos {:trigger RawByte(v2, f, pos)} | true
      ensures RawByte(v2, f, pos) == RawByte(v, f, pos)
    {
      GiveRaw(v, own, held, p, b, f, pos);
    }
  }

  lemma GiveOwners(v: View, v2: View, own: Owners, held: set<int>, p: Place, b: int)
    requires Inv(v, own, held) && OnlyAt(v, v2, p, b) && Look(v, p) == 0 && b in held
    requires |v2| == |v| && BlockAt(v2, 2) == BlockAt(v, 2)
    ensures var own2, held2 := own[b := p], held - {b};
            && (forall q {:trigger OwnsAt(v2, own2, q)} :: OwnsAt(v2, own2, q))
            && (forall c {:trigger OwnedAt(v2, own2, c)} :: OwnedAt(v2, own2, c))
            && (forall c {:trigger FreeAt(v2, own2, held2, c)} :: FreeAt(v2, own2, held2, c))
            && (forall c {:trigger HeldAt(v2, own2, held2, c)} :: HeldAt(v2, own2, held2, c))
  {
    var own2, held2 := own[b := p], held - {b};
    assert HeldAt(v, own, held, b);
    forall q {:trigger OwnsAt(v2, own2, q)} | true
      ensures OwnsAt(v2, own2, q)
    {
      assert OwnsAt(v, own, q);
      assert Look(v2, q) == if q == p then b else Look(v, q);
    }
    forall c {:trigger OwnedAt(v2, own2, c)} | true
      ensures OwnedAt(v2, own2, c)
    {
      assert OwnedAt(v, own, c);
      if c in own2 { assert Look(v2, own2[c]) == if own2[c] == p then b else Look(v, own2[c]); }
    }
    forall c {:trigger FreeAt(v2, own2, held2, c)} {:trigger HeldAt(v2, own2, held2, c)} | true
      ensures FreeAt(v2, own2, held2, c) && HeldAt(v2, own2, held2, c)
    {
      assert FreeAt(v, own, held, c) && HeldAt(v, own, held, c);
    }
  }

  lemma GiveRaw(v: View, own: Owners, held: set<int>, p: Place, b: int, f: File, pos: int)
    requires Inv(v, own, held) && Assignable(v, p, b) && Look(v, p) == 0
    requires b in held && BlockAt(v, b) == Zero()
    ensures Storable(v, p) && RawByte(Assign(v, p, b), f, pos) == RawByte(v, f, pos)
  {
    AssignOnly(v, own, held, p, b);
    var v2, q := Assign(v, p, b), Slot(f, pos / 4096);
    assert HeldAt(v, own, held, b) && OwnsAt(v, own, q);
    assert Look(v2, q) == if q == p then b else Look(v, q);
    if q != p && Look(v, q) != 0 {
      DataBlockStays(v, own, held, p, b, q);
    }
  }

  /** Storing a block number elsewhere does not change the bytes in a file's data block. */
  lemma DataBlockStays(v: View, own: Owners, held: set<int>, p: Place, x: int, q: Place)
    requires Inv(v, own, held) && Assignable(v, p, x) && q.Slot? && Look(v, q) != 0
    ensures Storable(v, p) && Bytes(BlockAt(Assign(v, p, x), Look(v, q))) == Bytes(BlockAt(v, Look(v, q)))
  {
    AssignOnly(v, own, held, p, x);
    assert OwnsAt(v, own, q) && KindAt(v, own, Look(v, q));
  }

  /** Clearing place `p` hands its block to the operation in progress. */
  lemma Drop(v: View, own: Owners, held: set<int>, p: Place)
    requires Inv(v, own, held) && Assignable(v, p, 0) && Look(v, p) != 0
    requires p.Slot? ==> !NodeAt(v, p.f).dir
    ensures Storable(v, p)
    ensures var b := Look(v, p);
            b in own && b !in held && Inv(Assign(v, p, 0), own - {b}, held + {b})
    ensures MetaSame(v, Assign(v, p, 0))
  {
    AssignOnly(v, own, held, p, 0);
    AssignSkeleton(v, own, held, p, 0);
    var b, v2 := Look(v, p), Assign(v, p, 0);
    var own2, held2 := own - {b}, held + {b};
    assert OwnsAt(v, own, p) && HeldAt(v, own, held, b);
    DropOwners(v, v2, own, held, p);
    forall c {:trigger KindAt(v2, own2, c)} | true
      ensures KindAt(v2, own2, c)
    {
      AssignKind(v, own, held, p, 0, c);
      assert MetaAt(v, v2, p.f);
    }
    forall f, i {:trigger TailAt(v2, f, i)} | true
      ensures TailAt(v2, f, i)
    {
      assert TailAt(v, f, i) && MetaAt(v, v2, f);
      assert Look(v2, Slot(f, i)) == if Slot(f, i) == p then 0 else Look(v, Slot(f, i));
    }
  }

  lemma DropOwners(v: View, v2: View, own: Owners, held: set<int>, p: Place)
    requires Inv(v, own, held) && OnlyAt(v, v2, p, 0) && Look(v, p) != 0
    requires |v2| == |v| && BlockAt(v2, 2) == BlockAt(v, 2)
    ensures var own2, held2 := own - {Look(v, p)}, held + {Look(v, p)};
            && (forall q {:trigger OwnsAt(v2, own2, q)} :: OwnsAt(v2, own2, q))
            && (forall c {:trigger OwnedAt(v2, own2, c)} :: OwnedAt(v2, own2, c))
            && (forall c {:trigger FreeAt(v2, own2, held2, c)} :: FreeAt(v2, own2, held2, c))
            && (forall c {:trigger HeldAt(v2, own2, held2, c)} :: HeldAt(v2, own2, held2, c))
  {
    var b := Look(v, p);
    var own2, held2 := own - {b}, held + {b};
    assert OwnsAt(v, own, p) && OwnedAt(v, own, b);
    forall q {:trigger OwnsAt(v2, own2, q)} | true
      ensures OwnsAt(v2, own2, q)
    {
      assert OwnsAt(v, own, q);
      assert Look(v2, q) == if q == p then 0 else Look(v, q);
    }
    forall c {:trigger OwnedAt(v2, own2, c)} | true
      ensures OwnedAt(v2, own2, c)
    {
      assert OwnedAt(v, own, c);
      if c in own2 { assert Look(v2, own2[c]) == if own2[c] == p then 0 else Look(v, own2[c]); }
    }
    forall c {:trigger FreeAt(v2, own2, held2, c)} {:trigger HeldAt(v2, own2, held2, c)} | true
      ensures FreeAt(v2, own2, held2, c) && HeldAt(v2, own2, held2, c)
    {
      assert FreeAt(v, own, held, c) && HeldAt(v, own, held, c);
    }
  }

  /** After a block is dropped its part of the file reads as zeros, and nothing else
      changes. */
  lemma DropRaw(v: View, own: Owners, held: set<int>, p: Place, f: File, pos: int)
    requires Inv(v, own, held) && Assignable(v, p, 0) && 0 <= pos
    ensures Storable(v, p)
    ensures RawByte(Assign(v, p, 0), f, pos) == if p == Slot(f, pos / 4096) then 0 else RawByte(v, f, pos)
  {
    AssignOnly(v, own, held, p, 0);
    var v2, q := Assign(v, p, 0), Slot(f, pos / 4096);
    assert Look(v2, q) == if q == p then 0 else Look(v, q);
    if q != p && Look(v, q) != 0 {
      DataBlockStays(v, own, held, p, 0, q);
    }
  }

  // ---------- Updates that store no block number ----------

  /** Every inode and every stored block number is as it was. */
  ghost predicate SameLooks(v: View, v2: View) {
    && (forall f {:trigger NodeAt(v2, f)} :: NodeAt(v2, f) == NodeAt(v, f))
    && (forall p {:trigger Look(v2, p)} :: Look(v2, p) == Look(v, p))
  }

  /** A block that changes neither its inodes nor its table entries. */
  lemma HarmlessLook(v: View, v2: View, b: int)
    requires 0 <= b < |v| == |v2| && v2 == v[b := v2[b]]
    requires NodesOf(v2[b]) == NodesOf(v[b]) && Slots(v2[b]) == Slots(v[b])
    ensures SameLooks(v, v2)
  {
    forall f {:trigger NodeAt(v2, f)} | true
      ensures NodeAt(v2, f) == NodeAt(v, f)
    {
    }
    forall p {:trigger Look(v2, p)} | true
      ensures Look(v2, p) == Look(v, p)
    {
      assert NodeAt(v2, p.f) == NodeAt(v, p.f);
    }
  }

  /** Everything but the bitmap carries over when one block changes. */
  lemma CarryInv(v: View, v2: View, own: Owners, held: set<int>, held2: set<int>, b: int)
    requires Inv(v, own, held) && SameLooks(v, v2)
    requires 0 <= b < |v| == |v2| && v2 == v[b := v2[b]]
    requires b != 1 && v2[2].Bitmap? && ShapeAt(v2, b) && KindAt(v2, own, b)
    requires forall c {:trigger FreeAt(v2, own, held2, c)} :: FreeAt(v2, own, held2, c)
    requires forall c {:trigger HeldAt(v2, own, held2, c)} :: HeldAt(v2, own, held2, c)
    ensures Inv(v2, own, held2)
    ensures MetaSame(v, v2)
  {
    assert NodeAt(v2, Root()) == NodeAt(v, Root());
    forall p {:trigger OwnsAt(v2, own, p)} | true
      ensures OwnsAt(v2, own, p)
    {
      assert OwnsAt(v, own, p) && Look(v2, p) == Look(v, p);
    }
    forall c {:trigger OwnedAt(v2, own, c)} {:trigger KindAt(v2, own, c)} {:trigger ShapeAt(v2, c)} | true
      ensures OwnedAt(v2, own, c) && KindAt(v2, own, c) && ShapeAt(v2, c)
    {
      assert OwnedAt(v, own, c) && KindAt(v, own, c) && ShapeAt(v, c);
      if c in own {
        assert Look(v2, own[c]) == Look(v, own[c]) && NodeAt(v2, own[c].f) == NodeAt(v, own[c].f);
      }
    }
    forall f, i {:trigger TailAt(v2, f, i)} | true
      ensures TailAt(v2, f, i)
    {
      assert TailAt(v, f, i) && NodeAt(v2, f) == NodeAt(v, f) && Look(v2, Slot(f, i)) == Look(v, Slot(f, i));
    }
    forall f {:trigger EntryAt(v2, f)} {:trigger MetaAt(v, v2, f)} | true
      ensures EntryAt(v2, f) && MetaAt(v, v2, f)
    {
      assert EntryAt(v, f) && NodeAt(v2, f) == NodeAt(v, f);
    }
  }

  /** A change to a block that no place refers to shows in no file. */
  lemma UnownedRaw(v: View, v2: View, own: Owners, held: set<int>, b: int)
    requires Inv(v, own, held) && SameLooks(v, v2) && b !in own
    requires 0 <= b < |v| == |v2| && v2 == v[b := v2[b]]
    ensures SameRaw(v, v2)
  {
    forall f, pos {:trigger RawByte(v2, f, pos)} | true
      ensures RawByte(v2, f, pos) == RawByte(v, f, pos)
    {
      var q := Slot(f, pos / 4096);
      assert OwnsAt(v, own, q) && Look(v2, q) == Look(v, q);
    }
  }

  /** Clearing the free bit of a free block. */
  lemma MarkUsed(v: View, own: Owners, held: set<int>, b: int)
    requires Inv(v, own, held) && IsFree(v, b)
    ensures 3 <= b < |v| && |v[2].free| == |v|
    ensures var v2 := SetFree(v, b, false);
            Inv(v2, own, held + {b}) && MetaSame(v, v2) && SameLooks(v, v2) && SameRaw(v, v2)
  {
    assert FreeAt(v, own, held, b) && ShapeAt(v, 2) && OwnedAt(v, own, 2) && KindAt(v, own, 2);
    var v2, held2 := SetFree(v, b, false), held + {b};
    forall c {:trigger FreeAt(v2, own, held2, c)} {:trigger HeldAt(v2, own, held2, c)} | true
      ensures FreeAt(v2, own, held2, c) && HeldAt(v2, own, held2, c)
    {
      assert FreeAt(v, own, held, c) && HeldAt(v, own, held, c);
    }
    HarmlessLook(v, v2, 2);
    CarryInv(v, v2, own, held, held2, 2);
    UnownedRaw(v, v2, own, held, 2);
  }

  /** Setting the free bit of a held block. */
  lemma MarkFree(v: View, own: Owners, held: set<int>, b: int)
    requires Inv(v, own, held) && b in held
    ensures 3 <= b < |v| && |v[2].free| == |v|
    ensures var v2 := SetFree(v, b, true);
            Inv(v2, own, held - {b}) && MetaSame(v, v2) && SameLooks(v, v2) && SameRaw(v, v2)
  {
    assert HeldAt(v, own, held, b) && ShapeAt(v, 2) && OwnedAt(v, own, 2) && KindAt(v, own, 2);
    var v2, held2 := SetFree(v, b, true), held - {b};
    forall c {:trigger FreeAt(v2, own, held2, c)} {:trigger HeldAt(v2, own, held2, c)} | true
      ensures FreeAt(v2, own, held2, c) && HeldAt(v2, own, held2, c)
    {
      assert FreeAt(v, own, held, c) && HeldAt(v, own, held, c);
    }
    HarmlessLook(v, v2, 2);
    CarryInv(v, v2, own, held, held2, 2);
    UnownedRaw(v, v2, own, held, 2);
  }

  /** Filling a held block with zeros. */
  lemma Clear(v: View, own: Owners, held: set<int>, b: int)
    requires Inv(v, own, held) && b in held
    ensures 3 <= b < |v|
    ensures var v2 := v[b := Zero()];
            Inv(v2, own, held) && MetaSame(v, v2) && SameLooks(v, v2) && SameRaw(v, v2)
  {
    assert HeldAt(v, own, held, b) && KindAt(v, own, b) && OwnedAt(v, own, 2);
    var v2 := v[b := Zero()];
    ClearLook(v, own, held, b);
    forall c {:trigger FreeAt(v2, own, held, c)} {:trigger HeldAt(v2, own, held, c)} | true
      ensures FreeAt(v2, own, held, c) && HeldAt(v2, own, held, c)
    {
      assert FreeAt(v, own, held, c) && HeldAt(v, own, held, c);
    }
    CarryInv(v, v2, own, held, held, b);
    UnownedRaw(v, v2, own, held, b);
  }

  lemma ClearLook(v: View, own: Owners, held: set<int>, b: int)
    requires Inv(v, own, held) && b in held
    ensures 3 <= b < |v| && SameLooks(v, v[b := Zero()])
  {
    assert HeldAt(v, own, held, b) && KindAt(v, own, b);
    var v2 := v[b := Zero()];
    forall f {:trigger NodeAt(v2, f)} | true
      ensures NodeAt(v2, f) == NodeAt(v, f)
    {
    }
    forall p {:trigger Look(v2, p)} | true
      ensures Look(v2, p) == Look(v, p)
    {
      assert NodeAt(v2, p.f) == NodeAt(v, p.f);
      if NodeAt(v, p.f).indirect != 0 { IndirectHome(v, own, held, p.f); }
    }
  }

  /** Overwriting the bytes of a regular file's data block changes that part of that file and
      no other byte of any file. */
  lemma Overwrite(v: View, own: Owners, held: set<int>, f: File, i: int, bytes: seq<int>)
    requires Inv(v, own, held) && Look(v, Slot(f, i)) != 0 && !NodeAt(v, f).dir && |bytes| == 4096
    ensures var b := Look(v, Slot(f, i));
            && 3 <= b < |v|
            && var v2 := v[b := Data(bytes)];
            && Inv(v2, own, held) && MetaSame(v, v2) && SameLooks(v, v2)
            && forall g, pos {:trigger RawByte(v2, g, pos)} ::
                 RawByte(v2, g, pos)
                 == if g == f && 0 <= pos && pos / 4096 == i then bytes[pos % 4096] else RawByte(v, g, pos)
  {
    var p := Slot(f, i);
    var b := Look(v, p);
    assert OwnsAt(v, own, p) && OwnedAt(v, own, b) && KindAt(v, own, b) && OwnedAt(v, own, 2);
    var v2 := v[b := Data(bytes)];
    HarmlessLook(v, v2, b);
    forall c {:trigger FreeAt(v2, own, held, c)} {:trigger HeldAt(v2, own, held, c)} | true
      ensures FreeAt(v2, own, held, c) && HeldAt(v2, own, held, c)
    {
      assert FreeAt(v, own, held, c) && HeldAt(v, own, held, c);
    }
    assert NodeAt(v2, f) == NodeAt(v, f);
    CarryInv(v, v2, own, held, held, b);
    forall g, pos {:trigger RawByte(v2, g, pos)} | true
      ensures RawByte(v2, g, pos)
              == if g == f && 0 <= pos && pos / 4096 == i then bytes[pos % 4096] else RawByte(v, g, pos)
    {
      var q := Slot(g, pos / 4096);
      assert OwnsAt(v, own, q) && Look(v2, q) == Look(v, q);
    }
  }

  // ---------- Changing an inode ----------

  /** A new inode that stores the same block numbers. */
  lemma SetNodeLook(v: View, own: Owners, held: set<int>, f: File, n: Inode)
    requires Inv(v, own, held) && 0 < f.b < |v| && 0 <= f.j < 16
    requires BlockAt(v, f.b).Nodes? || BlockAt(v, f.b) == Zero()
    requires forall g {:trigger NodeAt(v, g)} :: NodeAt(v, g).indirect != f.b
    requires n.direct == NodeAt(v, f).direct && n.indirect == NodeAt(v, f).indirect
    ensures var v2 := SetNode(v, f, n);
            && (forall p {:trigger Look(v2, p)} :: Look(v2, p) == Look(v, p))
            && (forall g {:trigger NodeAt(v2, g)} :: NodeAt(v2, g) == if g == f then n else NodeAt(v, g))
  {
    var v2 := SetNode(v, f, n);
    forall g {:trigger NodeAt(v2, g)} | true
      ensures NodeAt(v2, g) == if g == f then n else NodeAt(v, g)
    {
      NodeSetNode(v, f, n, g);
    }
    forall p {:trigger Look(v2, p)} | true
      ensures Look(v2, p) == Look(v, p)
    {
      assert NodeAt(v2, p.f) == if p.f == f then n else NodeAt(v, p.f);
      assert NodeAt(v, p.f).indirect != f.b;
    }
  }

  lemma NoIndirectHere(v: View, own: Owners, held: set<int>, b: int)
    requires Inv(v, own, held) && 0 < b
    requires BlockAt(v, b).Nodes? || (b in own && own[b].Slot?)
    ensures forall g {:trigger NodeAt(v, g)} :: NodeAt(v, g).indirect != b
  {
    forall g {:trigger NodeAt(v, g)} | true
      ensures NodeAt(v, g).indirect != b
    {
      if NodeAt(v, g).indirect != 0 { IndirectHome(v, own, held, g); }
    }
  }

  lemma NodeInv(v: View, own: Owners, held: set<int>, f: File, n: Inode)
    requires Inv(v, own, held) && 0 < f.b < |v| && 0 <= f.j < 16 && f.b != 2
    requires (f.b == 1 && f.j == 0) || (f.b in own && own[f.b].Slot? && NodeAt(v, own[f.b].f).dir)
    requires n.direct == NodeAt(v, f).direct && |n.direct| == 10 && n.indirect == NodeAt(v, f).indirect
    requires n.name != "" && n.dir == NodeAt(v, f).dir && n.size >= 0 && (n.dir ==> n.size % 4096 == 0)
    requires forall i {:trigger Look(v, Slot(f, i))} :: 0 <= i && 4096 * i >= n.size ==> Look(v, Slot(f, i)) == 0
    ensures var v2 := SetNode(v, f, n);
            && Inv(v2, own, held)
            && (forall p {:trigger Look(v2, p)} :: Look(v2, p) == Look(v, p))
            && (forall g {:trigger NodeAt(v2, g)} :: NodeAt(v2, g) == if g == f then n else NodeAt(v, g))
  {
    var v2 := SetNode(v, f, n);
    assert KindAt(v, own, f.b) && OwnedAt(v, own, f.b) && OwnedAt(v, own, 1) && OwnedAt(v, own, 2);
    NoIndirectHere(v, own, held, f.b);
    SetNodeLook(v, own, held, f, n);
    NodeInvBlocks(v, own, held, f, n);
    assert NodeAt(v2, Root()) == if Root() == f then n else NodeAt(v, Root());
    forall p {:trigger OwnsAt(v2, own, p)} | true
      ensures OwnsAt(v2, own, p)
    {
      assert OwnsAt(v, own, p) && Look(v2, p) == Look(v, p);
    }
    forall g, i {:trigger TailAt(v2, g, i)} | true
      ensures TailAt(v2, g, i)
    {
      assert TailAt(v, g, i) && Look(v2, Slot(g, i)) == Look(v, Slot(g, i));
      assert NodeAt(v2, g) == if g == f then n else NodeAt(v, g);
    }
    forall g {:trigger EntryAt(v2, g)} | true
      ensures EntryAt(v2, g)
    {
      assert EntryAt(v, g) && NodeAt(v2, g) == if g == f then n else NodeAt(v, g);
    }
  }

  lemma NodeInvBlocks(v: View, own: Owners, held: set<int>, f: File, n: Inode)
    requires Inv(v, own, held) && 0 < f.b < |v| && 0 <= f.j < 16 && f.b != 2
    requires f.b == 1 || (f.b in own && own[f.b].Slot? && NodeAt(v, own[f.b].f).dir)
    requires |n.direct| == 10 && n.size >= 0 && n.dir == NodeAt(v, f).dir
    requires var v2 := SetNode(v, f, n);
             && (forall p {:trigger Look(v2, p)} :: Look(v2, p) == Look(v, p))
             && (forall g {:trigger NodeAt(v2, g)} :: NodeAt(v2, g) == if g == f then n else NodeAt(v, g))
    ensures var v2 := SetNode(v, f, n);
            && (forall c {:trigger OwnedAt(v2, own, c)} :: OwnedAt(v2, own, c))
            && (forall c {:trigger FreeAt(v2, own, held, c)} :: FreeAt(v2, own, held, c))
            && (forall c {:trigger HeldAt(v2, own, held, c)} :: HeldAt(v2, own, held, c))
            && (forall c {:trigger KindAt(v2, own, c)} :: KindAt(v2, own, c))
            && (forall c {:trigger ShapeAt(v2, c)} :: ShapeAt(v2, c))
  {
    var v2 := SetNode(v, f, n);
    assert ShapeAt(v, f.b);
    forall c {:trigger OwnedAt(v2, own, c)} {:trigger KindAt(v2, own, c)} {:trigger ShapeAt(v2, c)}
             {:trigger FreeAt(v2, own, held, c)} {:trigger HeldAt(v2, own, held, c)} | true
      ensures OwnedAt(v2, own, c) && KindAt(v2, own, c) && ShapeAt(v2, c)
      ensures FreeAt(v2, own, held, c) && HeldAt(v2, own, held, c)
    {
      assert OwnedAt(v, own, c) && KindAt(v, own, c) && ShapeAt(v, c);
      assert FreeAt(v, own, held, c) && HeldAt(v, own, held, c);
      if c in own {
        assert Look(v2, own[c]) == Look(v, own[c]);
        assert NodeAt(v2, own[c].f) == if own[c].f == f then n else NodeAt(v, own[c].f);
      }
    }
  }
}
