/** The image that `fs/fsformat.c` writes: the initial state of the file system. */
module Format {
  import opened Blocks
  import opened FileSystem
  import opened Directories

  const MAXFILESIZE: int := 1034 * 4096
  const MAX_DIR_ENTS: int := 128

  /** A file to put on the image. */
  datatype Source = Source(name: string, bytes: seq<int>)

  // ---------- ROUNDUP ----------

  /** ROUNDUP(n, BLKSIZE) in 32-bit unsigned arithmetic. */
  function RoundUnsigned(n: int): int {
    var m := (n - 1) % 0x1_0000_0000;
    (m + 4096 - m % 4096) % 0x1_0000_0000
  }

  /** ROUNDUP(n, BLKSIZE) in signed arithmetic, whose remainder takes the sign of n - 1. */
  function RoundSigned(n: int): int {
    var m := n - 1;
    m + 4096 - if m >= 0 then m % 4096 else -((-m) % 4096)
  }

  function BlocksFor(n: int): int { (n + 4095) / 4096 }

  /** Both round up to whole blocks, except that the signed one makes a block of nothing. */
  lemma RoundExact(n: int)
    requires 0 <= n <= 0x1_0000_0000 - 4096
    ensures RoundUnsigned(n) == 4096 * BlocksFor(n)
    ensures RoundSigned(n) == 4096 * BlocksFor(n) <==> n > 0
    ensures RoundSigned(0) == 4096
  {
    UnsignedExact(n);
    SignedExact(n);
  }

  lemma UnsignedExact(n: int)
    requires 0 <= n <= 0x1_0000_0000 - 4096
    ensures RoundUnsigned(n) == 4096 * BlocksFor(n)
  {
    if n > 0 {
      var q, d := Divide(n - 1);
      Quotient(n - 1, q, d);
      Quotient(n + 4095, q + 1, d);
      Modulo(n - 1, 0, n - 1);
      Modulo(4096 * q + 4096, 0, 4096 * q + 4096);
    } else {
      Modulo(n - 1, -1, 0xFFFF_FFFF);
      Quotient(0xFFFF_FFFF, 0xF_FFFF, 4095);
      Quotient(n + 4095, 0, 4095);
      Modulo(0x1_0000_0000, 1, 0);
    }
  }

  lemma SignedExact(n: int)
    requires 0 <= n
    ensures RoundSigned(n) == 4096 * BlocksFor(n) <==> n > 0
  {
    var q, d := Divide(n - 1);
    Quotient(n - 1, q, d);
    Quotient(n + 4095, q + 1, d);
  }

  lemma Divide(x: int) returns (q: int, d: int)
    ensures x == 4096 * q + d && 0 <= d < 4096
  {
    q, d := x / 4096, x % 4096;
  }

  lemma Quotient(x: int, q: int, d: int)
    requires x == 4096 * q + d && 0 <= d < 4096
    ensures x / 4096 == q && x % 4096 == d
  {
  }

  lemma Modulo(x: int, q: int, d: int)
    requires x == 0x1_0000_0000 * q + d && 0 <= d < 0x1_0000_0000
    ensures x % 0x1_0000_0000 == d
  {
  }

  /** Storing a block changes that block only. */
  lemma BlockUpdate(v: View, b: int, x: Block)
    requires 0 <= b < |v|
    ensures forall c {:trigger BlockAt(v[b := x], c)} :: BlockAt(v[b := x], c) == if c == b then x else BlockAt(v, c)
  {
  }

  // ---------- The layout while files are added ----------

  /** What a block below the next free one is for. */
  datatype Use = Reserved | DataOf(j: int, i: int) | TableOf(j: int)

  /** Block `i` of a file, from its inode. */
  function SlotOf(v: View, n: Inode, i: int): int {
    if i < 10 then DirectAt(n, i)
    else if i < 1034 && n.indirect != 0 then Slots(BlockAt(v, n.indirect))[i - 10]
    else 0
  }

  ghost predicate SlotAt(v: View, ents: seq<Inode>, who: seq<Use>, j: int, i: int) {
    0 <= j < |ents| && SlotOf(v, ents[j], i) != 0 ==>
      var b := SlotOf(v, ents[j], i); 3 <= b < |who| && who[b] == DataOf(j, i)
  }

  ghost predicate TableAt(ents: seq<Inode>, who: seq<Use>, j: int) {
    0 <= j < |ents| && ents[j].indirect != 0 ==> 3 <= ents[j].indirect < |who| && who[ents[j].indirect] == TableOf(j)
  }

  ghost predicate UseAt(v: View, ents: seq<Inode>, who: seq<Use>, b: int) {
    3 <= b < |who| ==>
      match who[b]
      case Reserved => false
      case DataOf(j, i) => 0 <= j < |ents| && 0 <= i && SlotOf(v, ents[j], i) == b && BlockAt(v, b).Data?
      case TableOf(j) => 0 <= j < |ents| && ents[j].indirect == b && BlockAt(v, b).Table?
  }

  ghost predicate EntAt(ents: seq<Inode>, files: seq<Source>, j: int) {
    0 <= j < |ents| && j < |files| ==>
      && ents[j].name == files[j].name && ents[j].size == |files[j].bytes| && !ents[j].dir && |ents[j].direct| == 10
  }

  ghost predicate EndAt(v: View, ents: seq<Inode>, j: int, i: int) {
    0 <= j < |ents| && 0 <= i && 4096 * i >= ents[j].size ==> SlotOf(v, ents[j], i) == 0
  }

  /** Byte `p` of file `j` is on the image. */
  ghost predicate ByteAt(v: View, ents: seq<Inode>, files: seq<Source>, j: int, p: int) {
    0 <= j < |ents| && j < |files| && 0 <= p < |files[j].bytes| ==>
      && SlotOf(v, ents[j], p / 4096) != 0
      && Bytes(BlockAt(v, SlotOf(v, ents[j], p / 4096)))[p % 4096] == files[j].bytes[p]
  }

  ghost predicate RestAt(v: View, pos: int, b: int) {
    pos <= b < |v| || b == 0 ==> BlockAt(v, b) == Zero()
  }

  /** The root inode before the directory is finished. */
  function RootNode(): Inode { Empty().(name := "/", dir := true) }

  function SuperBlock(): Block { Nodes([RootNode()] + seq(15, i => Empty())) }

  /** The bitmap that opendisk writes. */
  function AllFree(n: int): (s: seq<bool>)
    requires 0 <= n
    ensures |s| == n && forall b {:trigger s[b]} :: 0 <= b < n ==> s[b]
  {
    seq(n, b => true)
  }

  ghost predicate Layout(v: View, ents: seq<Inode>, who: seq<Use>, files: seq<Source>) {
    && 3 <= |who| < |v| && v[1] == SuperBlock() && v[2] == Bitmap(AllFree(|v|)) && |ents| == |files|
    && (forall j, i {:trigger SlotAt(v, ents, who, j, i)} :: SlotAt(v, ents, who, j, i))
    && (forall j {:trigger TableAt(ents, who, j)} :: TableAt(ents, who, j))
    && (forall b {:trigger UseAt(v, ents, who, b)} :: UseAt(v, ents, who, b))
    && (forall j {:trigger EntAt(ents, files, j)} :: EntAt(ents, files, j))
    && (forall j, i {:trigger EndAt(v, ents, j, i)} :: EndAt(v, ents, j, i))
    && (forall j, p {:trigger ByteAt(v, ents, files, j, p)} :: ByteAt(v, ents, files, j, p))
    && (forall b {:trigger RestAt(v, |who|, b)} :: RestAt(v, |who|, b))
    && (forall b {:trigger ShapeAt(v, b)} :: ShapeAt(v, b))
  }

  // ---------- One more file ----------

  /** Block `k` of `bytes`, padded with zeros. */
  function Chunk(bytes: seq<int>, k: int): (s: seq<int>)
    requires 0 <= k
    ensures |s| == 4096
    ensures forall x {:trigger s[x]} :: 0 <= x < 4096 && 4096 * k + x < |bytes| ==> s[x] == bytes[4096 * k + x]
  {
    seq(4096, x requires 0 <= x < 4096 => if 4096 * k + x < |bytes| then bytes[4096 * k + x] else 0)
  }

  /** How many blocks a file takes with its indirect table: finishfile makes one as soon as
      all direct slots are used. */
  function Taken(n: int): int { BlocksFor(n) + if BlocksFor(n) >= 10 then 1 else 0 }

  /** `n` is the inode of a file whose `nb` blocks start at `start`, with the table behind. */
  ghost predicate Contiguous(n: Inode, start: int, nb: int) {
    && |n.direct| == 10 && n.indirect == (if nb >= 10 then start + nb else 0)
    && (forall i {:trigger n.direct[i]} :: 0 <= i < 10 ==> n.direct[i] == if i < nb then start + i else 0)
  }

  ghost predicate TableFor(x: Block, start: int, nb: int) {
    x.Table? && |x.slots| == 1024
    && forall i {:trigger x.slots[i]} :: 0 <= i < 1024 ==> x.slots[i] == if i + 10 < nb then start + 10 + i else 0
  }

  ghost predicate AddedAt(v: View, v2: View, start: int, bytes: seq<int>, b: int) {
    var nb := BlocksFor(|bytes|);
    if start <= b < start + nb then BlockAt(v2, b) == Data(Chunk(bytes, b - start))
    else if b == start + nb && nb >= 10 then TableFor(BlockAt(v2, b), start, nb)
    else BlockAt(v2, b) == BlockAt(v, b)
  }

  /** `bytes` and the table, if any, were written from `start` on; nothing else changed. */
  ghost predicate Added(v: View, v2: View, start: int, bytes: seq<int>) {
    |v2| == |v| && forall b {:trigger AddedAt(v, v2, start, bytes, b)} :: AddedAt(v, v2, start, bytes, b)
  }

  lemma NewSlots(v: View, v2: View, start: int, bytes: seq<int>, n: Inode, i: int)
    requires Added(v, v2, start, bytes) && Contiguous(n, start, BlocksFor(|bytes|)) && BlocksFor(|bytes|) <= 1034
             && 3 <= start
    ensures SlotOf(v2, n, i) == if 0 <= i < BlocksFor(|bytes|) then start + i else 0
  {
    var nb := BlocksFor(|bytes|);
    assert AddedAt(v, v2, start, bytes, start + nb);
    if 0 <= i < 10 { assert n.direct[i] == if i < nb then start + i else 0; }
    if 10 <= i < 1034 && nb >= 10 {
      var t := BlockAt(v2, n.indirect).slots;
      assert t[i - 10] == if i - 10 + 10 < nb then start + 10 + (i - 10) else 0;
    }
  }

  lemma OldSlots(v: View, ents: seq<Inode>, who: seq<Use>, files: seq<Source>, v2: View, bytes: seq<int>, j: int,
                 i: int)
    requires Layout(v, ents, who, files) && Added(v, v2, |who|, bytes) && 0 <= j < |ents|
    ensures SlotOf(v2, ents[j], i) == SlotOf(v, ents[j], i)
  {
    assert TableAt(ents, who, j) && AddedAt(v, v2, |who|, bytes, ents[j].indirect);
  }

  /** The uses of the blocks after file `j` was added. */
  function UsesWith(who: seq<Use>, j: int, n: int): (w: seq<Use>)
    requires 0 <= n
    ensures |w| == |who| + Taken(n)
    ensures forall b {:trigger w[b]} :: 0 <= b < |w| ==>
      w[b] == if b < |who| then who[b] else if b < |who| + BlocksFor(n) then DataOf(j, b - |who|) else TableOf(j)
  {
    who + seq(BlocksFor(n), i => DataOf(j, i)) + if BlocksFor(n) >= 10 then [TableOf(j)] else []
  }

  /** Adding a file keeps the layout. */
  lemma AddFile(v: View, ents: seq<Inode>, who: seq<Use>, files: seq<Source>, v2: View, n: Inode, file: Source)
    requires Layout(v, ents, who, files) && Added(v, v2, |who|, file.bytes)
    requires Contiguous(n, |who|, BlocksFor(|file.bytes|)) && BlocksFor(|file.bytes|) <= 1034
    requires n.name == file.name && n.size == |file.bytes| && !n.dir && |who| + Taken(|file.bytes|) < |v|
    ensures Layout(v2, ents + [n], UsesWith(who, |ents|, |file.bytes|), files + [file])
  {
    var ents2, files2, who2 := ents + [n], files + [file], UsesWith(who, |ents|, |file.bytes|);
    assert AddedAt(v, v2, |who|, file.bytes, 1) && AddedAt(v, v2, |who|, file.bytes, 2);
    AddSlots(v, ents, who, files, v2, n, file);
    AddUses(v, ents, who, files, v2, n, file);
    AddBytes(v, ents, who, files, v2, n, file);
    forall j {:trigger TableAt(ents2, who2, j)} | true
      ensures TableAt(ents2, who2, j)
    {
      assert TableAt(ents, who, j);
    }
    forall j {:trigger EntAt(ents2, files2, j)} | true
      ensures EntAt(ents2, files2, j)
    {
      assert EntAt(ents, files, j);
    }
    forall b {:trigger RestAt(v2, |who2|, b)} | true
      ensures RestAt(v2, |who2|, b)
    {
      assert RestAt(v, |who|, b) && AddedAt(v, v2, |who|, file.bytes, b);
    }
    forall b {:trigger ShapeAt(v2, b)} | true
      ensures ShapeAt(v2, b)
    {
      assert ShapeAt(v, b) && AddedAt(v, v2, |who|, file.bytes, b);
    }
  }

  lemma AddSlots(v: View, ents: seq<Inode>, who: seq<Use>, files: seq<Source>, v2: View, n: Inode, file: Source)
    requires Layout(v, ents, who, files) && Added(v, v2, |who|, file.bytes)
    requires Contiguous(n, |who|, BlocksFor(|file.bytes|)) && BlocksFor(|file.bytes|) <= 1034
    requires n.name == file.name && n.size == |file.bytes| && |who| + Taken(|file.bytes|) < |v|
    ensures forall j, i {:trigger SlotAt(v2, ents + [n], UsesWith(who, |ents|, |file.bytes|), j, i)} ::
      SlotAt(v2, ents + [n], UsesWith(who, |ents|, |file.bytes|), j, i)
    ensures forall j, i {:trigger EndAt(v2, ents + [n], j, i)} :: EndAt(v2, ents + [n], j, i)
  {
    var ents2, who2 := ents + [n], UsesWith(who, |ents|, |file.bytes|);
    forall j, i {:trigger SlotAt(v2, ents2, who2, j, i)} | true
      ensures SlotAt(v2, ents2, who2, j, i)
    {
      if 0 <= j < |ents| {
        OldSlots(v, ents, who, files, v2, file.bytes, j, i);
        assert SlotAt(v, ents, who, j, i);
      } else if j == |ents| {
        NewSlots(v, v2, |who|, file.bytes, n, i);
      }
    }
    forall j, i {:trigger EndAt(v2, ents2, j, i)} | true
      ensures EndAt(v2, ents2, j, i)
    {
      if 0 <= j < |ents| {
        OldSlots(v, ents, who, files, v2, file.bytes, j, i);
        assert EndAt(v, ents, j, i);
      } else if j == |ents| {
        NewSlots(v, v2, |who|, file.bytes, n, i);
      }
    }
  }

  lemma AddUses(v: View, ents: seq<Inode>, who: seq<Use>, files: seq<Source>, v2: View, n: Inode, file: Source)
    requires Layout(v, ents, who, files) && Added(v, v2, |who|, file.bytes)
    requires Contiguous(n, |who|, BlocksFor(|file.bytes|)) && BlocksFor(|file.bytes|) <= 1034
    ensures forall b {:trigger UseAt(v2, ents + [n], UsesWith(who, |ents|, |file.bytes|), b)} ::
      UseAt(v2, ents + [n], UsesWith(who, |ents|, |file.bytes|), b)
  {
    var ents2, who2 := ents + [n], UsesWith(who, |ents|, |file.bytes|);
    forall b {:trigger UseAt(v2, ents2, who2, b)} | true
      ensures UseAt(v2, ents2, who2, b)
    {
      assert UseAt(v, ents, who, b) && AddedAt(v, v2, |who|, file.bytes, b);
      if 3 <= b < |who| {
        assert who2[b] == who[b];
        if who[b].DataOf? { OldSlots(v, ents, who, files, v2, file.bytes, who[b].j, who[b].i); }
      } else if |who| <= b < |who2| {
        NewSlots(v, v2, |who|, file.bytes, n, b - |who|);
        assert ents2[|ents|] == n;
      }
    }
  }

  lemma AddBytes(v: View, ents: seq<Inode>, who: seq<Use>, files: seq<Source>, v2: View, n: Inode, file: Source)
    requires Layout(v, ents, who, files) && Added(v, v2, |who|, file.bytes)
    requires Contiguous(n, |who|, BlocksFor(|file.bytes|)) && BlocksFor(|file.bytes|) <= 1034
    ensures forall j, p {:trigger ByteAt(v2, ents + [n], files + [file], j, p)} ::
              ByteAt(v2, ents + [n], files + [file], j, p)
  {
    var ents2, files2 := ents + [n], files + [file];
    forall j, p {:trigger ByteAt(v2, ents2, files2, j, p)} | true
      ensures ByteAt(v2, ents2, files2, j, p)
    {
      if 0 <= j < |ents| {
        OldSlots(v, ents, who, files, v2, file.bytes, j, p / 4096);
        assert ByteAt(v, ents, files, j, p) && SlotAt(v, ents, who, j, p / 4096);
        assert AddedAt(v, v2, |who|, file.bytes, SlotOf(v, ents[j], p / 4096));
      } else if j == |ents| && 0 <= p < |file.bytes| {
        NewSlots(v, v2, |who|, file.bytes, n, p / 4096);
        assert AddedAt(v, v2, |who|, file.bytes, |who| + p / 4096);
        assert 4096 * (p / 4096) + p % 4096 == p;
        assert Chunk(file.bytes, p / 4096)[p % 4096] == file.bytes[p];
      }
    }
  }

  // ---------- The finished image ----------

  /** Block `k` of the root directory. */
  function EntBlock(ents: seq<Inode>, k: int): (s: seq<Inode>)
    requires 0 <= k
    ensures |s| == 16
    ensures forall x {:trigger s[x]} :: 0 <= x < 16 ==>
              s[x] == if 16 * k + x < |ents| then ents[16 * k + x] else Empty()
  {
    seq(16, x requires 0 <= x < 16 => if 16 * k + x < |ents| then ents[16 * k + x] else Empty())
  }

  function DirBlocks(n: int): int { (n + 15) / 16 }

  ghost predicate DoneAt(v: View, v3: View, ents: seq<Inode>, start: int, root: Inode, b: int) {
    var nd := DirBlocks(|ents|);
    if b == 1 then BlockAt(v3, 1).Nodes? && BlockAt(v3, 1).nodes == [root] + seq(15, i => Empty())
    else if b == 2 then BlockAt(v3, 2).Bitmap?
    else if start <= b < start + nd then BlockAt(v3, b) == Nodes(EntBlock(ents, b - start))
    else BlockAt(v3, b) == BlockAt(v, b)
  }

  /** The first free block of the finished image. */
  function EndOf(ents: seq<Inode>, start: int): int { start + DirBlocks(|ents|) }

  ghost predicate BitAt(v3: View, end: int, b: int) {
    IsFree(v3, b) <==> end <= b < |v3|
  }

  /** The directory was written from `start` on and the root inode and the bitmap were
      completed. */
  ghost predicate Done(v: View, v3: View, ents: seq<Inode>, start: int, root: Inode) {
    && |v3| == |v| && 3 <= start && start + DirBlocks(|ents|) < |v3|
    && (forall b {:trigger DoneAt(v, v3, ents, start, root, b)} :: DoneAt(v, v3, ents, start, root, b))
    && (forall b {:trigger BitAt(v3, EndOf(ents, start), b)} :: BitAt(v3, EndOf(ents, start), b))
    && BlockAt(v3, 2).Bitmap? && |BlockAt(v3, 2).free| == |v3|
  }

  /** What finishdir leaves in the root inode. */
  ghost predicate RootOf(root: Inode, start: int, n: int) {
    && root.name == "/" && root.dir && root.size == RoundSigned(256 * n)
    && Contiguous(root, start, RoundSigned(256 * n) / 4096)
  }

  lemma RootSize(n: int)
    requires 0 <= n <= 128
    ensures RoundSigned(256 * n) == 4096 * if n == 0 then 1 else DirBlocks(n)
    ensures 0 <= DirBlocks(n) <= 8 && BlocksFor(256 * n) == DirBlocks(n)
    ensures BlocksFor(RoundSigned(256 * n)) == RoundSigned(256 * n) / 4096 == if n == 0 then 1 else DirBlocks(n)
  {
    assert BlocksFor(256 * n) == DirBlocks(n);
    if n > 0 { RoundExact(256 * n); }
    var k := if n == 0 then 1 else DirBlocks(n);
    Quotient(4096 * k, k, 0);
    Quotient(4096 * k + 4095, k, 4095);
  }

  /** The entry of file `j`. */
  function EntFile(start: int, j: int): File { File(start + j / 16, j % 16) }

  /** The number of the file whose entry is at `f`, or -1. */
  function EntOf(ents: seq<Inode>, start: int, f: File): int {
    if 0 <= f.j < 16 && start <= f.b && 16 * (f.b - start) + f.j < |ents| then 16 * (f.b - start) + f.j else -1
  }

  lemma EntFileOf(ents: seq<Inode>, start: int, j: int)
    requires 0 <= j < |ents|
    ensures EntOf(ents, start, EntFile(start, j)) == j && start <= EntFile(start, j).b < start + DirBlocks(|ents|)
  {
  }

  lemma EntOfFile(ents: seq<Inode>, start: int, f: File)
    requires EntOf(ents, start, f) != -1
    ensures EntFile(start, EntOf(ents, start, f)) == f && start <= f.b < start + DirBlocks(|ents|)
  {
  }

  lemma DoneNode(v: View, ents: seq<Inode>, who: seq<Use>, files: seq<Source>, v3: View, root: Inode, f: File)
    requires Layout(v, ents, who, files) && Done(v, v3, ents, |who|, root)
    ensures NodeAt(v3, f) == if f == Root() then root
            else if EntOf(ents, |who|, f) != -1 then ents[EntOf(ents, |who|, f)] else Empty()
  {
    assert DoneAt(v, v3, ents, |who|, root, f.b) && UseAt(v, ents, who, f.b) && RestAt(v, |who|, f.b);
    if EntOf(ents, |who|, f) != -1 { EntOfFile(ents, |who|, f); }
    if |who| <= f.b < |who| + DirBlocks(|ents|) && 0 <= f.j < 16 {
      assert EntBlock(ents, f.b - |who|)[f.j] == NodeAt(v3, f);
    }
    if f.b == 1 && 0 <= f.j < 16 { assert NodeAt(v3, f) == BlockAt(v3, 1).nodes[f.j]; }
  }

  lemma DoneLook(v: View, ents: seq<Inode>, who: seq<Use>, files: seq<Source>, v3: View, root: Inode, p: Place)
    requires Layout(v, ents, who, files) && Done(v, v3, ents, |who|, root) && RootOf(root, |who|, |ents|)
             && 0 < |ents| <= 128
    ensures var j := EntOf(ents, |who|, p.f);
            Look(v3, p) ==
              if p.f == Root() then (if p.Slot? && 0 <= p.i < DirBlocks(|ents|) then |who| + p.i else 0)
              else if j == -1 then 0
              else if p.Slot? then SlotOf(v, ents[j], p.i) else ents[j].indirect
  {
    RootSize(|ents|);
    DoneNode(v, ents, who, files, v3, root, p.f);
    var j := EntOf(ents, |who|, p.f);
    if p.f == Root() {
      if p.Slot? && 0 <= p.i < 10 { assert root.direct[p.i] == if p.i < DirBlocks(|ents|) then |who| + p.i else 0; }
    } else if j != -1 {
      assert TableAt(ents, who, j) && DoneAt(v, v3, ents, |who|, root, ents[j].indirect);
    }
  }

  /** Whom a block of the finished image belongs to. */
  function PlaceOf(who: seq<Use>, b: int): Place {
    if 0 <= b < |who| then
      match who[b]
      case DataOf(j, i) => Slot(EntFile(|who|, j), i)
      case TableOf(j) => Indirect(EntFile(|who|, j))
      case Reserved => Indirect(Root())
    else Slot(Root(), b - |who|)
  }

  function OwnersOf(who: seq<Use>, n: int): Owners {
    map b {:trigger PlaceOf(who, b)} | 3 <= b < |who| + DirBlocks(n) :: PlaceOf(who, b)
  }

  /** A name is a last path component that fits in an entry with its terminating zero; a longer
      one would run over the fields behind it. */
  ghost predicate FitsEntry(name: string) { 0 < |name| < 128 && '/' !in name }

  ghost predicate Named(files: seq<Source>) {
    forall j {:trigger files[j]} :: 0 <= j < |files| ==> FitsEntry(files[j].name)
  }

  /** Such a name is a path of one component. */
  lemma OneComponent(name: string)
    requires FitsEntry(name)
    ensures Components(name) == [name]
  {
    var n := |name|;
    forall k {:trigger name[k]} | 0 <= k < n
      ensures name[k] != '/'
    {
      assert name[k] in name;
    }
    NextComponent(name, n);
    assert name[..n] == name && name[n..] == "";
    assert Pieces("") == [""] && Names([""]) == Names([""][1..]);
  }

  lemma DoneOwners(v: View, ents: seq<Inode>, who: seq<Use>, files: seq<Source>, v3: View, root: Inode)
    requires Layout(v, ents, who, files) && Done(v, v3, ents, |who|, root) && RootOf(root, |who|, |ents|)
             && 0 < |ents| <= 128
    ensures forall p {:trigger OwnsAt(v3, OwnersOf(who, |ents|), p)} :: OwnsAt(v3, OwnersOf(who, |ents|), p)
    ensures forall b {:trigger OwnedAt(v3, OwnersOf(who, |ents|), b)} :: OwnedAt(v3, OwnersOf(who, |ents|), b)
  {
    var own := OwnersOf(who, |ents|);
    RootSize(|ents|);
    forall p {:trigger OwnsAt(v3, own, p)} | true
      ensures OwnsAt(v3, own, p)
    {
      DoneLook(v, ents, who, files, v3, root, p);
      var j := EntOf(ents, |who|, p.f);
      if p.f != Root() && j != -1 {
        EntOfFile(ents, |who|, p.f);
        assert TableAt(ents, who, j);
        if p.Slot? { assert SlotAt(v, ents, who, j, p.i); }
      }
    }
    forall b {:trigger OwnedAt(v3, own, b)} | true
      ensures OwnedAt(v3, own, b)
    {
      if b in own {
        assert UseAt(v, ents, who, b);
        DoneLook(v, ents, who, files, v3, root, own[b]);
        if b < |who| { EntFileOf(ents, |who|, who[b].j); }
      }
    }
  }

  lemma DoneKinds(v: View, ents: seq<Inode>, who: seq<Use>, files: seq<Source>, v3: View, root: Inode)
    requires Layout(v, ents, who, files) && Done(v, v3, ents, |who|, root) && RootOf(root, |who|, |ents|)
             && 0 < |ents| <= 128
    ensures forall b {:trigger KindAt(v3, OwnersOf(who, |ents|), b)} :: KindAt(v3, OwnersOf(who, |ents|), b)
    ensures forall b {:trigger FreeAt(v3, OwnersOf(who, |ents|), {}, b)} :: FreeAt(v3, OwnersOf(who, |ents|), {}, b)
  {
    var own := OwnersOf(who, |ents|);
    forall b {:trigger KindAt(v3, own, b)} | true
      ensures KindAt(v3, own, b)
    {
      assert DoneAt(v, v3, ents, |who|, root, b) && UseAt(v, ents, who, b) && RestAt(v, |who|, b);
      if b in own {
        DoneNode(v, ents, who, files, v3, root, own[b].f);
        if b < |who| {
          EntFileOf(ents, |who|, who[b].j);
          assert EntAt(ents, files, who[b].j);
        }
      }
    }
    forall b {:trigger FreeAt(v3, own, {}, b)} | true
      ensures FreeAt(v3, own, {}, b)
    {
      assert BitAt(v3, EndOf(ents, |who|), b);
    }
  }

  lemma DoneFiles(v: View, ents: seq<Inode>, who: seq<Use>, files: seq<Source>, v3: View, root: Inode)
    requires Layout(v, ents, who, files) && Done(v, v3, ents, |who|, root) && RootOf(root, |who|, |ents|)
             && 0 < |ents| <= 128
    requires Named(files)
    ensures forall b {:trigger ShapeAt(v3, b)} :: ShapeAt(v3, b)
    ensures forall f, i {:trigger TailAt(v3, f, i)} :: TailAt(v3, f, i)
    ensures forall f {:trigger EntryAt(v3, f)} :: EntryAt(v3, f)
  {
    RootSize(|ents|);
    forall b {:trigger ShapeAt(v3, b)} | true
      ensures ShapeAt(v3, b)
    {
      assert DoneAt(v, v3, ents, |who|, root, b) && ShapeAt(v, b);
      if |who| <= b < |who| + DirBlocks(|ents|) { GoodEnts(ents, files, b - |who|); }
    }
    forall f, i {:trigger TailAt(v3, f, i)} | true
      ensures TailAt(v3, f, i)
    {
      DoneNode(v, ents, who, files, v3, root, f);
      DoneLook(v, ents, who, files, v3, root, Slot(f, i));
      var j := EntOf(ents, |who|, f);
      assert EndAt(v, ents, j, i);
    }
    forall f {:trigger EntryAt(v3, f)} | true
      ensures EntryAt(v3, f)
    {
      DoneNode(v, ents, who, files, v3, root, f);
      var j := EntOf(ents, |who|, f);
      if j != -1 {
        EntOfFile(ents, |who|, f);
        assert EntAt(ents, files, j) && files[j].name != "";
      }
    }
  }

  lemma GoodEnts(ents: seq<Inode>, files: seq<Source>, k: int)
    requires 0 <= k && |ents| == |files| && forall j {:trigger EntAt(ents, files, j)} :: EntAt(ents, files, j)
    ensures GoodNodes(EntBlock(ents, k))
  {
    var s := EntBlock(ents, k);
    forall x {:trigger s[x]} | 0 <= x < 16
      ensures |s[x].direct| == 10 && 0 <= s[x].size
    {
      assert EntAt(ents, files, 16 * k + x);
    }
  }

  /** The finished image is a file system in order. */
  lemma ImageInv(v: View, ents: seq<Inode>, who: seq<Use>, files: seq<Source>, v3: View, root: Inode)
    requires Layout(v, ents, who, files) && Done(v, v3, ents, |who|, root) && RootOf(root, |who|, |ents|)
             && 0 < |ents| <= 128
    requires Named(files)
    ensures Inv(v3, OwnersOf(who, |ents|), {})
  {
    DoneOwners(v, ents, who, files, v3, root);
    DoneKinds(v, ents, who, files, v3, root);
    DoneFiles(v, ents, who, files, v3, root);
    DoneNode(v, ents, who, files, v3, root, Root());
    assert DoneAt(v, v3, ents, |who|, root, 1);
    var own := OwnersOf(who, |ents|);
    forall b {:trigger HeldAt(v3, own, {}, b)} | true
      ensures HeldAt(v3, own, {}, b)
    {
    }
  }

  /** Reading a file back gives its source. */
  lemma ImageBytes(v: View, ents: seq<Inode>, who: seq<Use>, files: seq<Source>, v3: View, root: Inode, j: int)
    requires Layout(v, ents, who, files) && Done(v, v3, ents, |who|, root) && RootOf(root, |who|, |ents|)
             && 0 < |ents| <= 128
    requires 0 <= j < |files|
    ensures FileBytes(v3, EntFile(|who|, j)) == files[j].bytes
    ensures HasName(v3, OwnersOf(who, |ents|), Root(), files[j].name, EntFile(|who|, j)) <==> files[j].name != ""
  {
    var f, own := EntFile(|who|, j), OwnersOf(who, |ents|);
    EntFileOf(ents, |who|, j);
    DoneNode(v, ents, who, files, v3, root, f);
    assert EntAt(ents, files, j);
    assert f.b in own && own[f.b] == Slot(Root(), f.b - |who|);
    var s := FileBytes(v3, f);
    assert |s| == |files[j].bytes|;
    forall p {:trigger s[p]} | 0 <= p < |s|
      ensures s[p] == files[j].bytes[p]
    {
      DoneLook(v, ents, who, files, v3, root, Slot(f, p / 4096));
      assert ByteAt(v, ents, files, j, p) && SlotAt(v, ents, who, j, p / 4096);
      assert DoneAt(v, v3, ents, |who|, root, SlotOf(v, ents[j], p / 4096));
      assert s[p] == RawByte(v3, f, p);
    }
  }

  /** Without files the signed ROUNDUP gives the root directory a block that is still free. */
  lemma NoFilesBreaks(v: View, who: seq<Use>, v3: View, root: Inode, own: Owners)
    requires Layout(v, [], who, []) && Done(v, v3, [], |who|, root) && RootOf(root, |who|, 0)
    ensures !Inv(v3, own, {})
  {
    DoneNode(v, [], who, [], v3, root, Root());
    assert root.direct[0] == |who|;
    var b := Look(v3, Slot(Root(), 0));
    var none: seq<Inode> := [];
    assert b == |who| && BitAt(v3, EndOf(none, |who|), b);
    assert FreeAt(v3, own, {}, b) ==> !OwnsAt(v3, own, Slot(Root(), 0));
  }

  ghost predicate DistinctNames(files: seq<Source>) {
    forall j, k {:trigger files[j], files[k]} ::
      0 <= j < |files| && 0 <= k < |files| && files[j].name == files[k].name ==> j == k
  }

  /** The names on the image are the names of the files. */
  lemma ImageNames(v: View, ents: seq<Inode>, who: seq<Use>, files: seq<Source>, v3: View, root: Inode, d: File,
                   name: string, g: File)
    requires Layout(v, ents, who, files) && Done(v, v3, ents, |who|, root) && RootOf(root, |who|, |ents|)
             && 0 < |ents| <= 128
    requires HasName(v3, OwnersOf(who, |ents|), d, name, g)
    ensures EntOf(ents, |who|, g) != -1 && d == Root() && name == files[EntOf(ents, |who|, g)].name
  {
    DoneNode(v, ents, who, files, v3, root, g);
    var j := EntOf(ents, |who|, g);
    assert g != Root();
    if j != -1 {
      EntOfFile(ents, |who|, g);
      assert EntAt(ents, files, j);
    }
  }

  /** No directory has a name twice exactly when the files were given distinct names. */
  lemma ImageUnique(v: View, ents: seq<Inode>, who: seq<Use>, files: seq<Source>, v3: View, root: Inode)
    requires Layout(v, ents, who, files) && Done(v, v3, ents, |who|, root) && RootOf(root, |who|, |ents|)
             && 0 < |ents| <= 128
    requires Named(files)
    ensures UniqueNames(v3, OwnersOf(who, |ents|)) <==> DistinctNames(files)
  {
    var own := OwnersOf(who, |ents|);
    if DistinctNames(files) {
      forall d, name, g, h {:trigger UniqueAt(v3, own, d, name, g, h)} | true
        ensures UniqueAt(v3, own, d, name, g, h)
      {
        if HasName(v3, own, d, name, g) && HasName(v3, own, d, name, h) {
          ImageNames(v, ents, who, files, v3, root, d, name, g);
          ImageNames(v, ents, who, files, v3, root, d, name, h);
          assert files[EntOf(ents, |who|, g)].name == files[EntOf(ents, |who|, h)].name;
          EntOfFile(ents, |who|, g);
          EntOfFile(ents, |who|, h);
        }
      }
    }
    if UniqueNames(v3, own) {
      forall j, k {:trigger files[j], files[k]} | 0 <= j < |files| && 0 <= k < |files| && files[j].name == files[k].name
        ensures j == k
      {
        ImageBytes(v, ents, who, files, v3, root, j);
        ImageBytes(v, ents, who, files, v3, root, k);
        EntFileOf(ents, |who|, j);
        EntFileOf(ents, |who|, k);
        assert UniqueAt(v3, own, Root(), files[j].name, EntFile(|who|, j), EntFile(|who|, k));
      }
    }
  }

  // ---------- The program ----------

  /** The blocks that a list of files takes. */
  function TotalTaken(files: seq<Source>): (n: int)
    ensures n >= 0
  {
    if files == [] then 0 else TotalTaken(files[..|files| - 1]) + Taken(|files[|files| - 1].bytes|)
  }

  lemma {:induction false} TakenGrows(files: seq<Source>, k: int)
    requires 0 <= k <= |files|
    ensures TotalTaken(files[..k]) <= TotalTaken(files)
  {
    if k == |files| {
      assert files[..k] == files;
    } else {
      TakenGrows(files[..|files| - 1], k);
      assert files[..|files| - 1][..k] == files[..k];
    }
  }

  /** The files go on an image of `nblocks` blocks; the last block is never given out. */
  predicate FitsOn(nblocks: int, files: seq<Source>) {
    && 2 <= nblocks <= 1024 && |files| <= 128
    && (forall j {:trigger files[j]} :: 0 <= j < |files| ==> |files[j].bytes| < MAXFILESIZE)
    && 3 + TotalTaken(files) + DirBlocks(|files|) < nblocks
  }

  /** The first `k` blocks of `bytes` were copied. */
  ghost predicate Copied(v: View, v2: View, start: int, bytes: seq<int>, k: int) {
    && |v2| == |v|
    && (forall b {:trigger BlockAt(v2, b)} ::
          BlockAt(v2, b) == if start <= b < start + k then Data(Chunk(bytes, b - start)) else BlockAt(v, b))
  }

  /** The first `k` blocks of entries were copied. */
  ghost predicate DirCopied(v: View, v2: View, start: int, ents: seq<Inode>, k: int) {
    && |v2| == |v|
    && (forall b {:trigger BlockAt(v2, b)} ::
          BlockAt(v2, b) == if start <= b < start + k then Nodes(EntBlock(ents, b - start)) else BlockAt(v, b))
  }

  /** opendisk leaves an image without files. */
  lemma EmptyLayout(v: View)
    requires 3 < |v| && v[1] == SuperBlock() && v[2] == Bitmap(AllFree(|v|))
    requires forall b {:trigger BlockAt(v, b)} :: b != 1 && b != 2 ==> BlockAt(v, b) == Zero()
    ensures Layout(v, [], [Reserved, Reserved, Reserved], [])
  {
    forall b {:trigger ShapeAt(v, b)} | true
      ensures ShapeAt(v, b)
    {
      assert b != 1 && b != 2 ==> BlockAt(v, b) == Zero();
    }
    forall b {:trigger RestAt(v, 3, b)} | true
      ensures RestAt(v, 3, b)
    {
      assert b != 1 && b != 2 ==> BlockAt(v, b) == Zero();
    }
  }

  /** One more file; where it does not fit, all of them do not. */
  lemma TakenNext(nblocks: int, files: seq<Source>, k: int)
    requires 0 <= k < |files|
    ensures TotalTaken(files[..k + 1]) == TotalTaken(files[..k]) + Taken(|files[k].bytes|)
    ensures k >= 128 || |files[k].bytes| >= MAXFILESIZE || 3 + TotalTaken(files[..k + 1]) >= nblocks ==>
            !FitsOn(nblocks, files)
  {
    assert files[..k + 1][..k] == files[..k];
    TakenGrows(files, k + 1);
  }

  class Image {
    const nblocks: int
    var disk: View
    var pos: int
    var ents: seq<Inode>
    ghost var who: seq<Use>
    ghost var files: seq<Source>

    constructor (nblocks: int)
      requires 2 <= nblocks <= 1024
      ensures this.nblocks == nblocks && |disk| == nblocks && pos == 0 && ents == [] && files == []
      ensures forall b {:trigger BlockAt(disk, b)} :: BlockAt(disk, b) == Zero()
    {
      this.nblocks := nblocks;
      disk, pos, ents, files, who := seq(nblocks, b => Zero()), 0, [], [], [];
    }

    ghost predicate Building()
      reads this
    {
      |disk| == nblocks <= 1024 && pos == |who| && Layout(disk, ents, who, files)
    }

    /** alloc; the result `false` stands for the panic. */
    method Alloc(bytes: int) returns (ok: bool, start: int)
      requires 0 <= bytes <= 0x1_0000_0000 - 4096
      modifies `pos
      ensures start == old(pos) && pos == old(pos) + BlocksFor(bytes) && ok == (pos < nblocks)
    {
      RoundExact(bytes);
      start := pos;
      pos := pos + RoundUnsigned(bytes) / BLKSIZE;
      ok := pos < nblocks;
    }

    /** opendisk. */
    method OpenDisk() returns (ok: bool)
      requires |disk| == nblocks && 2 <= nblocks <= 1024 && pos == 0 && ents == [] && files == []
      requires forall b {:trigger BlockAt(disk, b)} :: BlockAt(disk, b) == Zero()
      modifies this
      ensures ok == (3 < nblocks) && files == [] && pos == 3
      ensures ok ==> Building()
    {
      var ok1, ok2, ok3, start;
      ok1, start := Alloc(BLKSIZE);
      ok2, start := Alloc(BLKSIZE);
      BlockUpdate(disk, 1, SuperBlock());
      disk := disk[1 := SuperBlock()];
      var nbitblocks := (nblocks + 32767) / 32768;
      ok3, start := Alloc(nbitblocks * BLKSIZE);
      ok := ok1 && ok2 && ok3;
      if ok {
        BlockUpdate(disk, 2, Bitmap(AllFree(nblocks)));
        disk := disk[2 := Bitmap(AllFree(nblocks))];
        who := [Reserved, Reserved, Reserved];
        EmptyLayout(disk);
      }
    }

    /** readn, into the mapped blocks from `start` on. */
    method CopyIn(start: int, bytes: seq<int>)
      requires 0 <= start && start + BlocksFor(|bytes|) <= |disk|
      modifies `disk
      ensures Copied(old(disk), disk, start, bytes, BlocksFor(|bytes|))
    {
      var k := 0;
      while k < BlocksFor(|bytes|)
        invariant 0 <= k <= BlocksFor(|bytes|) && Copied(old(disk), disk, start, bytes, k)
      {
        BlockUpdate(disk, start + k, Data(Chunk(bytes, k)));
        disk := disk[start + k := Data(Chunk(bytes, k))];
        k := k + 1;
      }
    }

    /** The first loop of finishfile. */
    method FillDirect(n0: Inode, start: int, nb: int) returns (n: Inode, i: int)
      requires n0.direct == Empty().direct && 0 <= nb
      ensures i == if nb < 10 then nb else 10
      ensures n == n0.(direct := n.direct) && |n.direct| == 10
      ensures forall k {:trigger n.direct[k]} :: 0 <= k < 10 ==> n.direct[k] == if k < nb then start + k else 0
    {
      n, i := n0, 0;
      while i < nb && i < NDIRECT
        invariant 0 <= i <= nb && i <= 10 && n == n0.(direct := n.direct) && |n.direct| == 10
        invariant forall k {:trigger n.direct[k]} :: 0 <= k < 10 ==> n.direct[k] == if k < i then start + k else 0
      {
        n := n.(direct := n.direct[i := start + i]);
        i := i + 1;
      }
    }

    /** The second loop of finishfile, on a table of zeros at block `b`. */
    method FillTable(b: int, start: int, nb: int)
      requires 0 <= b < |disk| && disk[b] == Zero() && 10 <= nb <= 1034
      modifies `disk
      ensures |disk| == |old(disk)| && TableFor(BlockAt(disk, b), start, nb)
      ensures forall c {:trigger BlockAt(disk, c)} :: c != b ==> BlockAt(disk, c) == BlockAt(old(disk), c)
    {
      BlockUpdate(disk, b, Table(Slots(disk[b])));
      disk := disk[b := Table(Slots(disk[b]))];
      var i := NDIRECT;
      while i < nb
        invariant 10 <= i <= nb && |disk| == |old(disk)| && TableFor(BlockAt(disk, b), start, i)
        invariant forall c {:trigger BlockAt(disk, c)} :: c != b ==> BlockAt(disk, c) == BlockAt(old(disk), c)
      {
        BlockUpdate(disk, b, Table(Slots(disk[b])[i - NDIRECT := start + i]));
        disk := disk[b := Table(Slots(disk[b])[i - NDIRECT := start + i])];
        i := i + 1;
      }
    }

    /** finishfile. */
    method FinishFile(n0: Inode, start: int, len: int) returns (ok: bool, n: Inode)
      requires n0.direct == Empty().direct && n0.indirect == 0 && 0 <= len <= 1034 * 4096
      requires BlocksFor(len) >= 10 ==>
               pos == start + BlocksFor(len) && 0 <= pos < |disk| == nblocks && disk[pos] == Zero()
      modifies `disk, `pos
      ensures pos == old(pos) + if BlocksFor(len) >= 10 then 1 else 0
      ensures ok == (BlocksFor(len) >= 10 ==> pos < nblocks)
      ensures |disk| == |old(disk)| && Contiguous(n, start, BlocksFor(len))
      ensures n.name == n0.name && n.dir == n0.dir && n.size == len
      ensures BlocksFor(len) < 10 ==> disk == old(disk)
      ensures BlocksFor(len) >= 10 ==> TableFor(BlockAt(disk, old(pos)), start, BlocksFor(len))
      ensures forall c {:trigger BlockAt(disk, c)} :: c != old(pos) ==> BlockAt(disk, c) == BlockAt(old(disk), c)
    {
      RoundExact(len);
      n := n0.(size := len);
      var nb := RoundUnsigned(len) / BLKSIZE;
      var i;
      n, i := FillDirect(n, start, nb);
      ok := true;
      if i == NDIRECT {
        var b;
        ok, b := Alloc(BLKSIZE);
        n := n.(indirect := b);
        FillTable(b, start, nb);
      }
    }

    /** writefile, from the file's contents. */
    method WriteFile(file: Source) returns (ok: bool)
      requires Building()
      modifies this
      ensures ok == (|old(ents)| < 128 && |file.bytes| < MAXFILESIZE && old(pos) + Taken(|file.bytes|) < nblocks)
      ensures ok ==> Building() && files == old(files) + [file] && pos == old(pos) + Taken(|file.bytes|)
      ensures ok ==> |ents| == |old(ents)| + 1
    {
      if |file.bytes| >= MAXFILESIZE || |ents| + 1 > MAX_DIR_ENTS {
        return false;
      }
      var start;
      ok, start := Alloc(|file.bytes|);
      if !ok {
        return;
      }
      ghost var v := disk;
      ghost var nb := BlocksFor(|file.bytes|);
      assert RestAt(v, |who|, start + nb);
      CopyIn(start, file.bytes);
      var n;
      assert BlockAt(disk, start + nb) == BlockAt(v, start + nb);
      ok, n := FinishFile(Empty().(name := file.name), start, |file.bytes|);
      if ok {
        forall b {:trigger AddedAt(v, disk, start, file.bytes, b)} | true
          ensures AddedAt(v, disk, start, file.bytes, b)
        {
          assert BlockAt(disk, b) == BlockAt(disk, b);
        }
        AddFile(v, ents, who, files, disk, n, file);
        who := UsesWith(who, |ents|, |file.bytes|);
        ents, files := ents + [n], files + [file];
      }
    }

    /** The loop of main over the files. */
    method WriteAll(all: seq<Source>) returns (ok: bool)
      requires Building() && files == [] && pos == 3 && 2 <= nblocks
      modifies this
      ensures !ok ==> !FitsOn(nblocks, all)
      ensures ok ==> Building() && files == all && pos == 3 + TotalTaken(all) && |all| <= 128
      ensures ok ==> (FitsOn(nblocks, all) <==> pos + DirBlocks(|ents|) < nblocks)
    {
      var k := 0;
      assert all[..0] == [];
      while k < |all|
        invariant WroteTo(all, k)
      {
        ok := WriteNext(all, k);
        if !ok {
          return;
        }
        k := k + 1;
      }
      assert all[..k] == all;
      ok := true;
    }

    /** The first `k` files are on the image. */
    ghost predicate WroteTo(all: seq<Source>, k: int)
      reads this
    {
      && 0 <= k <= |all| && Building() && files == all[..k]
      && pos == 3 + TotalTaken(all[..k]) && |ents| == k <= 128
      && forall j {:trigger all[j]} :: 0 <= j < k ==> |all[j].bytes| < MAXFILESIZE
    }

    method WriteNext(all: seq<Source>, k: int) returns (ok: bool)
      requires WroteTo(all, k) && k < |all|
      modifies this
      ensures if ok then WroteTo(all, k + 1) else !FitsOn(nblocks, all)
    {
      TakenNext(nblocks, all, k);
      ok := WriteFile(all[k]);
      assert ok ==> files == all[..k + 1];
    }

    /** The copy of the entries in finishdir. */
    method CopyDir(start: int)
      requires 0 <= start && start + DirBlocks(|ents|) <= |disk|
      modifies `disk
      ensures DirCopied(old(disk), disk, start, ents, DirBlocks(|ents|))
    {
      var k := 0;
      while k < DirBlocks(|ents|)
        invariant 0 <= k <= DirBlocks(|ents|) && DirCopied(old(disk), disk, start, ents, k)
      {
        BlockUpdate(disk, start + k, Nodes(EntBlock(ents, k)));
        disk := disk[start + k := Nodes(EntBlock(ents, k))];
        k := k + 1;
      }
    }

    /** finishdisk: the blocks before `pos` are in use. */
    method FinishDisk()
      requires 3 <= pos <= |disk| && disk[2] == Bitmap(AllFree(|disk|))
      modifies `disk
      ensures |disk| == |old(disk)| && disk[2].Bitmap? && |disk[2].free| == |disk|
      ensures forall b {:trigger BitAt(disk, pos, b)} :: BitAt(disk, pos, b)
      ensures forall c {:trigger BlockAt(disk, c)} :: c != 2 ==> BlockAt(disk, c) == BlockAt(old(disk), c)
    {
      var i := 0;
      while i < pos
        invariant 0 <= i <= pos && |disk| == |old(disk)| && disk[2].Bitmap? && |disk[2].free| == |disk|
        invariant forall b {:trigger disk[2].free[b]} :: 0 <= b < |disk| ==> disk[2].free[b] == (i <= b)
        invariant forall c {:trigger BlockAt(disk, c)} :: c != 2 ==> BlockAt(disk, c) == BlockAt(old(disk), c)
      {
        BlockUpdate(disk, 2, Bitmap(disk[2].free[i := false]));
        disk := disk[2 := Bitmap(disk[2].free[i := false])];
        i := i + 1;
      }
      forall b {:trigger BitAt(disk, pos, b)} | true
        ensures BitAt(disk, pos, b)
      {
        if 0 <= b < |disk| { assert disk[2].free[b] == (i <= b); }
      }
    }

    /** finishdir for the root directory, then finishdisk. */
    method FinishDir() returns (ok: bool, ghost root: Inode)
      requires Building() && |ents| <= 128
      modifies `disk, `pos
      ensures ok == (old(pos) + DirBlocks(|ents|) < nblocks)
      ensures ok ==> RootOf(root, |who|, |ents|) && Done(old(disk), disk, ents, |who|, root)
    {
      RootSize(|ents|);
      root := Empty();
      var size := 256 * |ents|;
      var start;
      ok, start := Alloc(size);
      if !ok {
        return;
      }
      ghost var v, end := disk, pos;
      CopyDir(start);
      assert BlockAt(disk, 1) == BlockAt(v, 1) && BlockAt(disk, 2) == BlockAt(v, 2);
      var n := NodesOf(disk[1])[0];
      ok, n := FinishFile(n, start, RoundSigned(size));
      BlockUpdate(disk, 1, Nodes(NodesOf(disk[1])[0 := n]));
      disk := disk[1 := Nodes(NodesOf(disk[1])[0 := n])];
      root := n;
      ghost var v2 := disk;
      FinishDisk();
      forall b {:trigger BitAt(disk, end, b)} | true
        ensures BitAt(disk, end, b)
      {
        assert BitAt(disk, pos, b);
      }
      DirDone(v, v2, disk, ents, start, end, n);
    }
  }

  lemma DirDone(v: View, v2: View, v3: View, ents: seq<Inode>, start: int, end: int, n: Inode)
    requires 3 <= start && end == EndOf(ents, start) < |v| == |v2| == |v3| && v[1] == SuperBlock()
    requires forall b {:trigger BlockAt(v2, b)} :: b != 1 ==>
      BlockAt(v2, b)
      == if start <= b < start + DirBlocks(|ents|) then Nodes(EntBlock(ents, b - start)) else BlockAt(v, b)
    requires v2[1] == Nodes(NodesOf(v[1])[0 := n])
    requires forall b {:trigger BlockAt(v3, b)} :: b != 2 ==> BlockAt(v3, b) == BlockAt(v2, b)
    requires v3[2].Bitmap? && |v3[2].free| == |v3|
    requires forall b {:trigger BitAt(v3, end, b)} :: BitAt(v3, end, b)
    ensures Done(v, v3, ents, start, n)
  {
    forall b {:trigger DoneAt(v, v3, ents, start, n, b)} | true
      ensures DoneAt(v, v3, ents, start, n, b)
    {
      assert b != 2 ==> BlockAt(v3, b) == BlockAt(v2, b);
      assert b != 1 ==>
             BlockAt(v2, b)
             == if start <= b < start + DirBlocks(|ents|) then Nodes(EntBlock(ents, b - start)) else BlockAt(v, b);
      assert BlockAt(v3, 1) == BlockAt(v2, 1);
      assert v2[1].nodes == [n] + seq(15, i => Empty());
    }
  }

  /** Every file of the list is on the image under its name, where walk_path finds it. */
  ghost predicate HoldsAt(v: View, own: Owners, file: Source, f: File) {
    && HasName(v, own, Root(), file.name, f) && FileBytes(v, f) == file.bytes
    && PathTo(v, own, Components(file.name), [Root(), f])
  }

  ghost predicate HoldsFile(v: View, own: Owners, files: seq<Source>, j: int) {
    0 <= j < |files| ==> exists f :: HoldsAt(v, own, files[j], f)
  }

  ghost predicate Holds(v: View, own: Owners, files: seq<Source>) {
    forall j {:trigger HoldsFile(v, own, files, j)} :: HoldsFile(v, own, files, j)
  }

  /** The image of fsformat is a file system in order with these files, and nothing but
      them, exactly when there is at least one file. */
  lemma ImageExact(v: View, ents: seq<Inode>, who: seq<Use>, files: seq<Source>, v3: View, root: Inode)
    requires Layout(v, ents, who, files) && Done(v, v3, ents, |who|, root) && RootOf(root, |who|, |ents|)
             && |ents| <= 128
    requires Named(files)
    ensures files != [] ==> && Inv(v3, OwnersOf(who, |ents|), {}) && Holds(v3, OwnersOf(who, |ents|), files)
                            && (UniqueNames(v3, OwnersOf(who, |ents|)) <==> DistinctNames(files))
    ensures files == [] ==> forall own :: !Inv(v3, own, {})
  {
    var own := OwnersOf(who, |ents|);
    if files == [] {
      forall own2 | true
        ensures !Inv(v3, own2, {})
      {
        NoFilesBreaks(v, who, v3, root, own2);
      }
    } else {
      ImageInv(v, ents, who, files, v3, root);
      ImageUnique(v, ents, who, files, v3, root);
      ImageHolds(v, ents, who, files, v3, root);
    }
  }

  lemma ImageHolds(v: View, ents: seq<Inode>, who: seq<Use>, files: seq<Source>, v3: View, root: Inode)
    requires Layout(v, ents, who, files) && Done(v, v3, ents, |who|, root) && RootOf(root, |who|, |ents|)
             && 0 < |ents| <= 128
    requires Named(files)
    ensures Holds(v3, OwnersOf(who, |ents|), files)
  {
    var own := OwnersOf(who, |ents|);
    forall j {:trigger HoldsFile(v3, own, files, j)} | true
      ensures HoldsFile(v3, own, files, j)
    {
      if 0 <= j < |files| {
        ImageBytes(v, ents, who, files, v3, root, j);
        OneComponent(files[j].name);
        DoneNode(v, ents, who, files, v3, root, Root());
        RootPath(v3, own, files[j].name, EntFile(|who|, j));
        assert HoldsAt(v3, own, files[j], EntFile(|who|, j));
      }
    }
  }

  /** A file of the root directory is at the end of the path that is its name. */
  lemma RootPath(v: View, own: Owners, name: string, f: File)
    requires NodeAt(v, Root()).dir && HasName(v, own, Root(), name, f)
    ensures PathTo(v, own, [name], [Root(), f])
  {
    var names, trace := [name], [Root(), f];
    forall k {:trigger PathAt(v, own, names, trace, k)} | true
      ensures PathAt(v, own, names, trace, k)
    {
    }
  }

  /** fsformat: succeeds exactly when the files fit. */
  method MakeImage(nblocks: int, files: seq<Source>) returns (ok: bool, disk: View, ghost own: Owners)
    requires Named(files)
    ensures ok == FitsOn(nblocks, files)
    ensures ok && files != [] ==> Inv(disk, own, {}) && Holds(disk, own, files)
    ensures ok && files != [] ==> (UniqueNames(disk, own) <==> DistinctNames(files))
    ensures ok && files == [] ==> forall own :: !Inv(disk, own, {})
  {
    disk, own := [], map[];
    if nblocks < 2 || nblocks > 1024 {
      return false, disk, own;
    }
    var image := new Image(nblocks);
    ok := image.OpenDisk();
    if !ok {
      return;
    }
    ok := image.WriteAll(files);
    if !ok {
      return;
    }
    ghost var v, root := image.disk, Empty();
    ok, root := image.FinishDir();
    if ok {
      disk, own := image.disk, OwnersOf(image.who, |image.ents|);
      ImageExact(v, image.ents, image.who, files, disk, root);
    }
  }
}
