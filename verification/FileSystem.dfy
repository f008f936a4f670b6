/** The block allocator, block maps and file operations of `fs/fs.c`, on the block cache. */
module FileSystem {
  import opened Blocks
  import opened BlockCache
  import opened Space

  datatype Error = Ok | NoDisk | Inval | NotFound | BadPath | FileExists

  ghost predicate BitmapOk(v: View) {
    3 <= |v| && v[2].Bitmap? && |v[2].free| == |v|
  }

  /** `b` is the lowest free block. */
  ghost predicate LowestFree(v: View, b: int) {
    IsFree(v, b) && forall c {:trigger IsFree(v, c)} :: IsFree(v, c) ==> b <= c
  }

  ghost predicate DiskFull(v: View) {
    forall c {:trigger IsFree(v, c)} :: !IsFree(v, c)
  }

  /** No block number was overwritten: at most slot `i` and the indirect pointer of `f` went
      from null to a block. */
  ghost predicate GrowsAt(v: View, v2: View, f: File, i: int, p: Place) {
    Look(v2, p) == Look(v, p) || (Look(v, p) == 0 && (p == Slot(f, i) || p == Indirect(f)))
  }

  ghost predicate Grows(v: View, v2: View, f: File, i: int) {
    forall p {:trigger GrowsAt(v, v2, f, i, p)} :: GrowsAt(v, v2, f, i, p)
  }

  class FileServer {
    const bc: Cache
    ghost var own: Owners
    ghost var held: set<int>

    /** fs_init, on a disk in order. */
    constructor (disk: seq<Block>, ghost own: Owners)
      requires Inv(disk, own, {})
      ensures Ready() && View() == disk && held == {} && this.own == own && fresh(bc)
    {
      bc := new Cache(disk);
      this.own, held := own, {};
    }

    ghost function View(): View
      reads this, bc
    {
      bc.View()
    }

    ghost predicate Ready()
      reads this, bc
    {
      bc.Valid() && Inv(bc.View(), own, held)
    }

    /** block_is_free */
    method BlockIsFree(b: int) returns (free: bool)
      requires Ready()
      modifies bc`cache
      ensures Ready() && View() == old(View()) && free == IsFree(View(), b)
    {
      assert FreeAt(View(), own, held, 2) && FreeAt(View(), own, held, b);
      if b < 0 || b >= |bc.disk| {
        return false;
      }
      var x := bc.Get(2);
      assert ShapeAt(View(), 2);
      free := x.free[b];
    }

    /** free_block */
    method FreeBlock(b: int)
      requires bc.Valid() && BitmapOk(View()) && 3 <= b < |View()| && !IsFree(View(), 2)
      modifies bc`cache, bc`dirty
      ensures bc.Valid() && View() == SetFree(old(View()), b, true)
    {
      var x := bc.Get(2);
      bc.Put(2, Bitmap(x.free[b := true]));
    }

    /** alloc_block: the lowest free block, whose bitmap block is on disk afterwards. */
    method AllocBlock() returns (b: int)
      requires Ready()
      modifies this`held, bc`cache, bc`dirty, bc`disk
      ensures Ready()
      ensures b == -1 ==> DiskFull(old(View())) && View() == old(View()) && held == old(held)
      ensures b != -1 ==> && LowestFree(old(View()), b) && 3 <= b < |View()| && b !in old(held)
                          && held == old(held) + {b} && bc.Stored(2) && b < |old(View())|
                          && BitmapOk(old(View())) && View() == SetFree(old(View()), b, false)
                          && MetaSame(old(View()), View()) && SameLooks(old(View()), View())
                          && SameRaw(old(View()), View())
    {
      b := 2;
      LowReserved(View(), own, held);
      while b < |bc.disk|
        invariant 2 <= b && Ready() && View() == old(View()) && held == old(held) && own == old(own)
        invariant forall c {:trigger IsFree(View(), c)} :: IsFree(View(), c) ==> b <= c
      {
        var free := BlockIsFree(b);
        if free {
          Claim(b);
          return;
        }
        b := b + 1;
      }
      HighReserved(View(), own, held);
      b := -1;
    }

    /** The part of alloc_block that takes the free block it found. */
    method Claim(b: int)
      requires Ready() && IsFree(View(), b)
      modifies this`held, bc`cache, bc`dirty, bc`disk
      ensures Ready() && 3 <= b < |View()| && b !in old(held) && held == old(held) + {b} && bc.Stored(2)
      ensures b < |old(View())| && BitmapOk(old(View())) && View() == SetFree(old(View()), b, false)
      ensures MetaSame(old(View()), View()) && SameLooks(old(View()), View()) && SameRaw(old(View()), View())
    {
      MarkUsed(View(), own, held, b);
      assert FreeAt(View(), own, held, 2) && FreeAt(View(), own, held, b);
      var x := bc.Get(2);
      bc.Put(2, Bitmap(x.free[b := false]));
      held := held + {b};
      bc.Flush(2);
    }

    /** The inode of `f`, read in place. */
    method LoadNode(f: File) returns (n: Inode)
      requires bc.Valid() && 0 < f.b < |View()| && 0 <= f.j < 16 && !IsFree(View(), f.b)
      modifies bc`cache
      ensures bc.Valid() && View() == old(View()) && n == NodeAt(View(), f)
    {
      var x := bc.Get(f.b);
      n := NodesOf(x)[f.j];
    }

    /** The block number at place `p`: the pointer that file_block_walk computes, followed. */
    method Load(p: Place) returns (x: int)
      requires bc.Valid() && Storable(View(), p) && 0 < p.f.b && !IsFree(View(), p.f.b)
      requires p.Slot? && p.i >= 10 ==> !IsFree(View(), NodeAt(View(), p.f).indirect)
      modifies bc`cache
      ensures bc.Valid() && View() == old(View()) && x == Look(View(), p)
    {
      var n := LoadNode(p.f);
      match p
      case Indirect(_) => x := n.indirect;
      case Slot(_, i) =>
        if i < 10 {
          x := n.direct[i];
        } else {
          var t := bc.Get(n.indirect);
          x := Slots(t)[i - 10];
        }
    }

    /** A store through that pointer. */
    method Store(p: Place, x: int)
      requires bc.Valid() && Storable(View(), p) && 0 < p.f.b && !IsFree(View(), p.f.b)
      requires p.Slot? && p.i >= 10 ==> !IsFree(View(), NodeAt(View(), p.f).indirect)
      modifies bc`cache, bc`dirty
      ensures bc.Valid() && View() == Assign(old(View()), p, x)
    {
      var y := bc.Get(p.f.b);
      var n := NodesOf(y)[p.f.j];
      match p
      case Indirect(f) => bc.Put(f.b, Nodes(NodesOf(y)[f.j := n.(indirect := x)]));
      case Slot(f, i) =>
        if i < 10 {
          bc.Put(f.b, Nodes(NodesOf(y)[f.j := n.(direct := n.direct[i := x])]));
        } else {
          var t := bc.Get(n.indirect);
          bc.Put(n.indirect, Table(Slots(t)[i - 10 := x]));
        }
    }

    /** The common end of file_block_walk and file_get_block: store the new block's number at
        its place, zero the block and flush it. */
    method Attach(p: Place, b: int)
      requires Ready() && b in held && Look(View(), p) == 0 && NodeAt(View(), p.f).name != ""
      requires p.Slot? ==> && 0 <= p.i < 1034 && 4096 * p.i < NodeAt(View(), p.f).size
                           && (p.i >= 10 ==> NodeAt(View(), p.f).indirect != 0)
      modifies this`held, this`own, bc`cache, bc`dirty, bc`disk
      ensures Ready() && held == old(held) - {b} && own == old(own)[b := p]
      ensures OnlyAt(old(View()), View(), p, b) && MetaSame(old(View()), View()) && SameRaw(old(View()), View())
      ensures bc.Stored(b) && 0 <= b < |View()| == |old(View())| && View()[b] == Zero()
    {
      AttachEffect(View(), own, held, p, b);
      Store(p, b);
      bc.Put(b, Zero());
      bc.Flush(b);
      own := own[b := p];
      held := held - {b};
    }

    /** file_block_walk.  On success the slot of file block `i` can be read and written at
        `Slot(f, i)`. */
    method FileBlockWalk(f: File, i: int, alloc: bool) returns (r: Error)
      requires Ready() && NodeAt(View(), f).name != "" && 0 <= i
      modifies this`held, this`own, bc`cache, bc`dirty, bc`disk
      ensures Ready() && held == old(held) && |View()| == |old(View())|
      ensures MetaSame(old(View()), View()) && SameRaw(old(View()), View()) && Grows(old(View()), View(), f, -1)
      ensures r == WalkResult(old(View()), f, i, alloc)
      ensures r == Ok ==> i < 1034 && (i >= 10 ==> NodeAt(View(), f).indirect != 0)
      ensures r != Ok || !alloc || i < 10 || NodeAt(old(View()), f).indirect != 0 ==>
                View() == old(View()) && own == old(own)
      ensures !alloc ==> bc.disk == old(bc.disk)
      ensures FreeCount(View()) == FreeCount(old(View()))
                                   - if r == Ok && i >= 10 && NodeAt(old(View()), f).indirect == 0 then 1 else 0
    {
      if i >= NDIRECT + NINDIRECT {
        return Inval;
      }
      if i < NDIRECT {
        return Ok;
      }
      HomesInUse(View(), own, held, f);
      var n := LoadNode(f);
      if n.indirect == 0 {
        if !alloc {
          return NotFound;
        }
        var b := AllocAt(f, -1, Indirect(f));
        if b == -1 {
          return NoDisk;
        }
      }
      return Ok;
    }

    /** alloc_block for the null place `p` of file `f`, with the zeroing that follows it. */
    method AllocAt(f: File, ghost i: int, p: Place) returns (b: int)
      requires Ready() && p.f == f && Look(View(), p) == 0 && NodeAt(View(), f).name != ""
               && (p == Slot(f, i) || p == Indirect(f))
      requires p.Slot? ==> && 0 <= i < 1034 && 4096 * i < NodeAt(View(), f).size
                           && (i >= 10 ==> NodeAt(View(), f).indirect != 0)
      modifies this`held, this`own, bc`cache, bc`dirty, bc`disk
      ensures Ready() && held == old(held) && |View()| == |old(View())|
      ensures b == -1 <==> DiskFull(old(View()))
      ensures b == -1 ==> View() == old(View()) && own == old(own)
      ensures b != -1 ==> && MetaSame(old(View()), View()) && SameRaw(old(View()), View())
                          && Grows(old(View()), View(), f, i) && Look(View(), p) == b && b > 0
                          && FreeCount(View()) == FreeCount(old(View())) - 1
                          && (p.Slot? ==> NodeAt(View(), f).indirect == NodeAt(old(View()), f).indirect)
    {
      b := AllocBlock();
      if b == -1 {
        return;
      }
      NotFull(old(View()), b);
      OneTaken(old(View()), b);
      ghost var v1, own1, held1 := View(), own, held;
      assert NodeAt(v1, f) == NodeAt(old(View()), f) && Look(v1, p) == Look(old(View()), p);
      Attach(p, b);
      AttachGrows(old(View()), v1, View(), f, i, p, b);
      AttachFree(v1, own1, held1, View(), own, held, p, b);
      assert Look(View(), p) == b && (p.Slot? ==> Look(View(), Indirect(f)) == Look(v1, Indirect(f)));
    }

    /** file_get_block: the block of file block `i`, allocated if it was a hole. */
    method FileGetBlock(f: File, i: int) returns (r: Error, b: int)
      requires Ready() && NodeAt(View(), f).name != "" && 0 <= i && 4096 * i < NodeAt(View(), f).size
      modifies this`held, this`own, bc`cache, bc`dirty, bc`disk
      ensures Ready() && held == old(held) && |View()| == |old(View())|
      ensures MetaSame(old(View()), View()) && SameRaw(old(View()), View()) && Grows(old(View()), View(), f, i)
      ensures r == Ok ==> b == Look(View(), Slot(f, i)) != 0 && i < 1034
      ensures r == Inval <==> i >= 1034
      ensures r == Ok || r == Inval || r == NoDisk
      ensures r == NoDisk ==> DiskFull(View()) && Look(old(View()), Slot(f, i)) == 0
      ensures Look(old(View()), Slot(f, i)) != 0 ==> View() == old(View())
      ensures r == NoDisk <==> i < 1034 && Shortfall(old(View()), f, i, i + 1) > 0
      ensures r == Ok ==> FreeCount(View()) == FreeCount(old(View())) - Needed(old(View()), f, i, i + 1)
      ensures i < 10 ==> NodeAt(View(), f).indirect == NodeAt(old(View()), f).indirect
    {
      b := 0;
      NeededOne(View(), f, i);
      NoneFree(View(), own, held);
      r := FileBlockWalk(f, i, true);
      if r != Ok {
        return;
      }
      ghost var v1 := View();
      NoneFree(v1, own, held);
      assert MetaAt(old(View()), v1, f) && GrowsAt(old(View()), v1, f, -1, Slot(f, i));
      HomesInUse(v1, own, held, f);
      b := Load(Slot(f, i));
      if b == 0 {
        b := AllocAt(f, i, Slot(f, i));
        GetCompose(old(View()), v1, View(), f, i);
        if b == -1 {
          return NoDisk, 0;
        }
      } else {
        GetCompose(old(View()), v1, View(), f, i);
      }
      return Ok, b;
    }

    /** file_read: returns the bytes from `offset` up to the end of the file or `count` of them.
        Holes are filled in, but no file's bytes change.  It fails exactly where there is no room
        to fill the holes of the range. */
    method FileRead(f: File, count: int, offset: int) returns (r: Error, buf: seq<int>)
      requires Ready() && NodeAt(View(), f).name != "" && 0 <= count && 0 <= offset
      modifies this`held, this`own, bc`cache, bc`dirty, bc`disk
      ensures Ready() && held == old(held) && |View()| == |old(View())|
      ensures MetaSame(old(View()), View()) && SameRaw(old(View()), View())
      ensures r == RangeResult(old(View()), f, offset, ReadLength(old(View()), f, count, offset))
      ensures r == NoDisk ==> DiskFull(View())
      ensures r == Ok ==> |buf| == ReadLength(old(View()), f, count, offset)
      ensures r == Ok && !NodeAt(old(View()), f).dir ==>
              buf == Slice(old(View()), f, offset, ReadLength(old(View()), f, count, offset))
    {
      buf := [];
      HomesInUse(View(), own, held, f);
      var node := LoadNode(f);
      if offset >= node.size {
        ProgressEnds(View(), View(), f, offset, 0, offset / 4096);
        return Ok, [];
      }
      var total := if count < node.size - offset then count else node.size - offset;
      r, buf := ReadLoop(f, offset, total);
    }

    /** The loop of file_read, over bytes within the file. */
    method ReadLoop(f: File, offset: int, total: int) returns (r: Error, buf: seq<int>)
      requires Ready() && NodeAt(View(), f).name != ""
      requires 0 <= offset && 0 <= total && offset + total <= NodeAt(View(), f).size
      modifies this`held, this`own, bc`cache, bc`dirty, bc`disk
      ensures Ready() && held == old(held) && |View()| == |old(View())|
      ensures MetaSame(old(View()), View()) && SameRaw(old(View()), View())
      ensures r == RangeResult(old(View()), f, offset, total) && (r == NoDisk ==> DiskFull(View()))
      ensures r == Ok ==> buf == Slice(old(View()), f, offset, total)
    {
      var n := 0;
      ghost var i := offset / 4096;
      buf := [];
      SelfMeta(View());
      while n < total
        invariant 0 <= n <= total && buf == Slice(old(View()), f, offset, n)
        invariant Ready() && held == old(held) && |View()| == |old(View())|
        invariant MetaSame(old(View()), View()) && SameRaw(old(View()), View())
        invariant Progress(old(View()), View(), f, offset, total, n, i)
      {
        var more;
        r, more := ReadTurn(f, offset, total, n, old(View()), i);
        if r != Ok {
          return;
        }
        buf := buf + more;
        n, i := n + |more|, i + 1;
      }
      ProgressEnds(old(View()), View(), f, offset, total, i);
      r := Ok;
    }

    /** One turn of file_read's loop, which began in state `v0` and has come to block `i`. */
    method ReadTurn(f: File, offset: int, total: int, n: int, ghost v0: View, ghost i: int)
      returns (r: Error, more: seq<int>)
      requires Ready() && MetaSame(v0, View()) && SameRaw(v0, View()) && NodeAt(v0, f).name != ""
      requires 0 <= offset && 0 <= n < total && offset + total <= NodeAt(v0, f).size
      requires Progress(v0, View(), f, offset, total, n, i)
      modifies this`held, this`own, bc`cache, bc`dirty, bc`disk
      ensures Ready() && held == old(held) && |View()| == |old(View())|
      ensures MetaSame(v0, View()) && SameRaw(v0, View())
      ensures r == Ok ==> && 0 < |more| <= total - n && Progress(v0, View(), f, offset, total, n + |more|, i + 1)
                          && Slice(v0, f, offset, n) + more == Slice(v0, f, offset, n + |more|)
      ensures r != Ok ==> r == RangeResult(v0, f, offset, total) && (r == NoDisk ==> DiskFull(View()))
    {
      r, more := ReadPiece(f, offset, total, n, v0);
      ProgressMore(v0, old(View()), View(), f, offset, total, n, i, r);
    }

    /** Copy from the block that byte `offset + n` is in. */
    method ReadPiece(f: File, offset: int, total: int, n: int, ghost v0: View) returns (r: Error, more: seq<int>)
      requires Ready() && MetaSame(v0, View()) && SameRaw(v0, View()) && NodeAt(v0, f).name != ""
      requires 0 <= offset && 0 <= n < total && offset + total <= NodeAt(v0, f).size
      modifies this`held, this`own, bc`cache, bc`dirty, bc`disk
      ensures Ready() && held == old(held) && |View()| == |old(View())|
      ensures MetaSame(v0, View()) && SameRaw(v0, View())
      ensures BlockResult(old(View()), View(), f, (offset + n) / 4096, Reach(offset, total), r)
      ensures r == Ok ==> && |more| == TurnLength(offset, total, n)
                          && Slice(v0, f, offset, n) + more == Slice(v0, f, offset, n + |more|)
    {
      assert MetaAt(v0, View(), f);
      ghost var v1 := View();
      var pos, left, x := offset + n, total - n, Zero();
      more := [];
      r, x := ReadBlock(f, pos / 4096, Reach(offset, total));
      SameTrans(v0, v1, View());
      if r == Ok {
        var at := pos % 4096;
        var bn := if 4096 - at < left then 4096 - at else left;
        SliceMore(v0, View(), f, offset, n, bn);
        more := Bytes(x)[at..at + bn];
      }
    }

    /** The contents of file block `i`. */
    method ReadBlock(f: File, i: int, ghost hi: int) returns (r: Error, x: Block)
      requires Ready() && NodeAt(View(), f).name != "" && 0 <= i && 4096 * i < NodeAt(View(), f).size
      modifies this`held, this`own, bc`cache, bc`dirty, bc`disk
      ensures Ready() && held == old(held) && |View()| == |old(View())|
      ensures MetaSame(old(View()), View()) && SameRaw(old(View()), View())
      ensures BlockResult(old(View()), View(), f, i, hi, r)
      ensures r == Ok ==> Look(View(), Slot(f, i)) != 0 && x == BlockAt(View(), Look(View(), Slot(f, i)))
    {
      var b;
      x := Zero();
      r, b := GetBlock(f, i, hi);
      if r == Ok {
        BlockInUse(View(), own, held, Slot(f, i));
        x := bc.Get(b);
      }
    }

    /** file_get_block, with what it leaves to get of the blocks up to `hi`. */
    method GetBlock(f: File, i: int, ghost hi: int) returns (r: Error, b: int)
      requires Ready() && NodeAt(View(), f).name != "" && 0 <= i && 4096 * i < NodeAt(View(), f).size
      modifies this`held, this`own, bc`cache, bc`dirty, bc`disk
      ensures Ready() && held == old(held) && |View()| == |old(View())|
      ensures MetaSame(old(View()), View()) && SameRaw(old(View()), View())
      ensures BlockResult(old(View()), View(), f, i, hi, r)
      ensures r == Ok ==> b == Look(View(), Slot(f, i)) != 0
    {
      r, b := FileGetBlock(f, i);
      if r == Ok {
        BlockThere(old(View()), View(), f, i, hi);
      }
    }

    /** The shared end of file_free_block and file_truncate_blocks: mark the block at place
        `p` free and null the place. */
    method Detach(p: Place)
      requires Ready() && Look(View(), p) != 0 && (p.Slot? ==> !NodeAt(View(), p.f).dir)
      requires p.Indirect? ==> TableEmpty(View(), p.f)
      modifies this`own, bc`cache, bc`dirty
      ensures Ready() && |View()| == |old(View())|
      ensures OnlyAt(old(View()), View(), p, 0) && MetaSame(old(View()), View())
      ensures RawExcept(old(View()), View(), p)
      ensures IsFree(View(), Look(old(View()), p))
    {
      DetachEffect(View(), own, held, p);
      var b := Load(p);
      FreeBlock(b);
      Store(p, 0);
      own := own - {b};
    }

    /** file_free_block */
    method FileFreeBlock(f: File, i: int) returns (r: Error)
      requires Ready() && NodeAt(View(), f).name != "" && !NodeAt(View(), f).dir && 0 <= i
      modifies this`held, this`own, bc`cache, bc`dirty, bc`disk
      ensures Ready() && held == old(held) && |View()| == |old(View())|
      ensures r == WalkResult(old(View()), f, i, false)
      ensures OnlyAt(old(View()), View(), Slot(f, i), 0) && MetaSame(old(View()), View())
      ensures RawExcept(old(View()), View(), Slot(f, i))
    {
      r := FileBlockWalk(f, i, false);
      if r != Ok {
        NullAlready(View(), Slot(f, i));
        return;
      }
      HomesInUse(View(), own, held, f);
      var b := Load(Slot(f, i));
      if b != 0 {
        Detach(Slot(f, i));
      } else {
        NullAlready(View(), Slot(f, i));
      }
    }

    /** file_truncate_blocks: frees every block from `Blocks(newsize)` on, and the indirect
        block when it is no longer needed. */
    method FileTruncateBlocks(f: File, newsize: int)
      requires Ready() && NodeAt(View(), f).name != "" && !NodeAt(View(), f).dir && 0 <= newsize
      modifies this`held, this`own, bc`cache, bc`dirty, bc`disk
      ensures Ready() && held == old(held) && |View()| == |old(View())| && MetaSame(old(View()), View())
      ensures Truncated(old(View()), View(), f, BlockCount(newsize))
      ensures RawFrom(old(View()), View(), f, BlockCount(newsize))
    {
      HomesInUse(View(), own, held, f);
      var n := LoadNode(f);
      var old_nblocks, new_nblocks := (n.size + BLKSIZE - 1) / BLKSIZE, (newsize + BLKSIZE - 1) / BLKSIZE;
      ghost var bno := FreeBlocks(f, new_nblocks, old_nblocks);
      assert MetaAt(old(View()), View(), f);
      TrimDone(old(View()), View(), own, held, f, new_nblocks, bno);
      ghost var v2 := View();
      HomesInUse(View(), own, held, f);
      n := LoadNode(f);
      if new_nblocks <= NDIRECT && n.indirect != 0 {
        Detach(Indirect(f));
        TrimIndirect(old(View()), v2, View(), f, new_nblocks, bno);
      } else {
        TrimRest(old(View()), v2, f, new_nblocks, bno);
      }
    }

    /** The loop of file_truncate_blocks, which ends at `bno`. */
    method FreeBlocks(f: File, first: int, last: int) returns (ghost bno: int)
      requires Ready() && NodeAt(View(), f).name != "" && !NodeAt(View(), f).dir && 0 <= first
      modifies this`held, this`own, bc`cache, bc`dirty, bc`disk
      ensures Ready() && held == old(held) && |View()| == |old(View())| && MetaSame(old(View()), View())
      ensures bno >= first && bno >= last
      ensures Trimmed(old(View()), View(), f, first, bno) && RawTrimmed(old(View()), View(), f, first, bno)
    {
      var i := first;
      TrimStart(View(), f, first);
      while i < last
        invariant first <= i
        invariant Ready() && held == old(held) && |View()| == |old(View())| && MetaSame(old(View()), View())
        invariant Trimmed(old(View()), View(), f, first, i) && RawTrimmed(old(View()), View(), f, first, i)
      {
        assert MetaAt(old(View()), View(), f);
        ghost var v1 := View();
        var r := FileFreeBlock(f, i);
        TrimMore(old(View()), v1, View(), f, first, i);
        i := i + 1;
      }
      bno := i;
    }

    /** file_set_size: afterwards the inode has the new size and is on disk. */
    method FileSetSize(f: File, newsize: int)
      requires Ready() && NodeAt(View(), f).name != "" && !NodeAt(View(), f).dir && 0 <= newsize
      modifies this`held, this`own, bc`cache, bc`dirty, bc`disk
      ensures Ready() && held == old(held) && |View()| == |old(View())| && bc.Stored(f.b)
      ensures SizeSet(old(View()), View(), f, newsize)
      ensures newsize >= NodeAt(old(View()), f).size ==> SameRaw(old(View()), View())
      ensures newsize < NodeAt(old(View()), f).size ==> RawFrom(old(View()), View(), f, BlockCount(newsize))
      ensures newsize >= NodeAt(old(View()), f).size ==> SameSlots(old(View()), View(), f) && own == old(own)
    {
      HomesInUse(View(), own, held, f);
      var n := LoadNode(f);
      if n.size > newsize {
        FileTruncateBlocks(f, newsize);
      }
      ghost var v1 := View();
      SelfMeta(v1);
      ResizeReady(old(View()), v1, own, held, f, newsize);
      ResizeEffect(v1, own, held, f, newsize);
      var x := bc.Get(f.b);
      bc.Put(f.b, Nodes(NodesOf(x)[f.j := NodesOf(x)[f.j].(size := newsize)]));
      bc.Flush(f.b);
      SizeCompose(old(View()), v1, View(), f, newsize);
    }

    /** The write loop's memmove into one block. */
    method WriteBlock(f: File, pos: int, data: seq<int>)
      requires Ready() && !NodeAt(View(), f).dir && 0 <= pos && Look(View(), Slot(f, pos / 4096)) != 0
      requires pos % 4096 + |data| <= 4096
      modifies bc`cache, bc`dirty
      ensures Ready() && |View()| == |old(View())| && MetaSame(old(View()), View())
      ensures Written(old(View()), View(), f, pos, data) && SameSlots(old(View()), View(), f)
    {
      var at := pos % 4096;
      ghost var i := pos / 4096;
      BlockInUse(View(), own, held, Slot(f, i));
      LookLive(View(), own, held, Slot(f, i));
      HomesInUse(View(), own, held, f);
      var b := Load(Slot(f, pos / 4096));
      var x := bc.Get(b);
      var bytes := Bytes(x)[..at] + data + Bytes(x)[at + |data|..];
      Overwrite(View(), own, held, f, i, bytes);
      bc.Put(b, Data(bytes));
      PatchWritten(old(View()), View(), f, pos, data, bytes);
    }

    /** file_write, on a regular file.  Success sets exactly the bytes from `offset` on to
        `buf` and extends the size if needed.  On an error some prefix of `buf` was written
        and the size is already extended.  The disk is found too small exactly if it has fewer
        free blocks than the range needs, as far as a file can reach, and else the range is found
        too large exactly if it goes beyond that. */
    method FileWrite(f: File, buf: seq<int>, offset: int) returns (r: Error, ghost done: int)
      requires Ready() && NodeAt(View(), f).name != "" && !NodeAt(View(), f).dir && 0 <= offset
      modifies this`held, this`own, bc`cache, bc`dirty, bc`disk
      ensures Ready() && held == old(held) && |View()| == |old(View())|
      ensures SizeSet(old(View()), View(), f, NewSize(old(View()), f, offset + |buf|))
      ensures 0 <= done <= |buf| && Written(old(View()), View(), f, offset, buf[..done])
      ensures r == Ok ==> done == |buf|
      ensures r == RangeResult(old(View()), f, offset, |buf|) && (r == NoDisk ==> DiskFull(View()))
    {
      Extend(f, offset + |buf|);
      WriteNone(old(View()), View(), f, offset);
      RangeSame(old(View()), old(own), old(held), View(), f, offset, |buf|);
      r, done := WriteLoop(f, buf, offset, old(View()), NewSize(old(View()), f, offset + |buf|));
    }

    /** The first part of file_write: the file is made to reach `end`. */
    method Extend(f: File, end: int)
      requires Ready() && NodeAt(View(), f).name != "" && !NodeAt(View(), f).dir && 0 <= end
      modifies this`held, this`own, bc`cache, bc`dirty, bc`disk
      ensures Ready() && held == old(held) && own == old(own) && |View()| == |old(View())|
      ensures SizeSet(old(View()), View(), f, NewSize(old(View()), f, end))
      ensures SameRaw(old(View()), View()) && SameSlots(old(View()), View(), f)
    {
      HomesInUse(View(), own, held, f);
      var n := LoadNode(f);
      if end > n.size {
        FileSetSize(f, end);
      } else {
        SizeKept(View(), f);
      }
    }

    /** The loop of file_write, for a file that already has its final size. */
    method WriteLoop(f: File, buf: seq<int>, offset: int, ghost v0: View, ghost size: int)
      returns (r: Error, ghost done: int)
      requires Ready() && SizeSet(v0, View(), f, size) && Written(v0, View(), f, offset, [])
      requires NodeAt(v0, f).name != "" && !NodeAt(v0, f).dir && 0 <= offset && offset + |buf| <= size
      modifies this`held, this`own, bc`cache, bc`dirty, bc`disk
      ensures Ready() && held == old(held) && |View()| == |old(View())|
      ensures SizeSet(v0, View(), f, size)
      ensures 0 <= done <= |buf| && Written(v0, View(), f, offset, buf[..done])
      ensures r == Ok ==> done == |buf|
      ensures r == RangeResult(old(View()), f, offset, |buf|) && (r == NoDisk ==> DiskFull(View()))
    {
      var n := 0;
      ghost var i := offset / 4096;
      done := 0;
      assert buf[..0] == [];
      while n < |buf|
        invariant 0 <= n <= |buf| && done == n
        invariant Ready() && held == old(held) && |View()| == |old(View())|
        invariant SizeSet(v0, View(), f, size) && Written(v0, View(), f, offset, buf[..n])
        invariant Progress(old(View()), View(), f, offset, |buf|, n, i)
      {
        r, n := WriteTurn(f, buf, offset, n, v0, size, old(View()), i);
        if r != Ok {
          return;
        }
        done, i := n, i + 1;
      }
      ProgressEnds(old(View()), View(), f, offset, |buf|, i);
      r := Ok;
    }

    /** One turn of file_write's loop, which began in state `start` and has come to block `i`. */
    method WriteTurn(f: File, buf: seq<int>, offset: int, n: int, ghost v0: View, ghost size: int,
                     ghost start: View, ghost i: int)
      returns (r: Error, n2: int)
      requires Ready() && SizeSet(v0, View(), f, size) && 0 <= n < |buf| && Written(v0, View(), f, offset, buf[..n])
      requires NodeAt(v0, f).name != "" && !NodeAt(v0, f).dir && 0 <= offset && offset + |buf| <= size
      requires Progress(start, View(), f, offset, |buf|, n, i)
      modifies this`held, this`own, bc`cache, bc`dirty, bc`disk
      ensures Ready() && held == old(held) && |View()| == |old(View())|
      ensures SizeSet(v0, View(), f, size) && n <= n2 <= |buf| && Written(v0, View(), f, offset, buf[..n2])
      ensures r == Ok ==> n < n2 && Progress(start, View(), f, offset, |buf|, n2, i + 1)
      ensures r != Ok ==> n2 == n && r == RangeResult(start, f, offset, |buf|) && (r == NoDisk ==> DiskFull(View()))
    {
      var bn;
      r, bn := WritePiece(f, buf, offset, n, v0, size);
      ProgressMore(start, old(View()), View(), f, offset, |buf|, n, i, r);
      n2 := if r == Ok then n + bn else n;
    }

    /** Fill the block that byte `offset + n` is in. */
    method WritePiece(f: File, buf: seq<int>, offset: int, n: int, ghost v0: View, ghost size: int)
      returns (r: Error, bn: int)
      requires Ready() && SizeSet(v0, View(), f, size) && 0 <= n < |buf| && Written(v0, View(), f, offset, buf[..n])
      requires NodeAt(v0, f).name != "" && !NodeAt(v0, f).dir && 0 <= offset && offset + |buf| <= size
      modifies this`held, this`own, bc`cache, bc`dirty, bc`disk
      ensures Ready() && held == old(held) && |View()| == |old(View())|
      ensures SizeSet(v0, View(), f, size)
      ensures bn == TurnLength(offset, |buf|, n)
      ensures Written(v0, View(), f, offset, buf[..if r == Ok then n + bn else n])
      ensures BlockResult(old(View()), View(), f, (offset + n) / 4096, Reach(offset, |buf|), r)
    {
      ghost var v1 := View();
      assert SizeSetAt(v0, v1, f, size, f);
      var pos, left := offset + n, |buf| - n;
      bn := if 4096 - pos % 4096 < left then 4096 - pos % 4096 else left;
      r := WriteChunk(f, pos, buf[n..n + bn], Reach(offset, |buf|));
      SizeSetMore(v0, v1, View(), f, size);
      if r == Ok {
        WrittenMore(v0, v1, View(), f, offset, buf, n, bn);
      } else {
        WrittenSame(v0, v1, View(), f, offset, buf[..n]);
      }
    }

    /** Get the block, then copy into it. */
    method WriteChunk(f: File, pos: int, data: seq<int>, ghost hi: int) returns (r: Error)
      requires Ready() && NodeAt(View(), f).name != "" && !NodeAt(View(), f).dir && 0 <= pos < NodeAt(View(), f).size
      requires pos % 4096 + |data| <= 4096
      modifies this`held, this`own, bc`cache, bc`dirty, bc`disk
      ensures Ready() && held == old(held) && |View()| == |old(View())| && MetaSame(old(View()), View())
      ensures r == Ok ==> Written(old(View()), View(), f, pos, data)
      ensures r != Ok ==> SameRaw(old(View()), View())
      ensures BlockResult(old(View()), View(), f, pos / 4096, hi, r)
    {
      var b;
      r, b := GetBlock(f, pos / 4096, hi);
      if r != Ok {
        return;
      }
      ghost var v1, own1, held1 := View(), own, held;
      assert MetaAt(old(View()), v1, f);
      WriteBlock(f, pos, data);
      ChunkCompose(old(View()), v1, View(), f, pos, data);
      ChunkSpace(old(View()), v1, own1, held1, View(), f, pos / 4096, hi);
    }

    /** file_flush: afterwards the file's data blocks, its inode and its indirect block are on
        disk as the file server sees them. */
    method FileFlush(f: File)
      requires Ready() && NodeAt(View(), f).name != ""
      modifies this`held, this`own, bc`cache, bc`dirty, bc`disk
      ensures Ready() && View() == old(View()) && own == old(own) && held == old(held)
      ensures forall p: Place {:trigger SavedAt(bc.disk, View(), p)} :: p.f == f ==> SavedAt(bc.disk, View(), p)
      ensures bc.Stored(f.b)
      ensures forall b {:trigger KeptSavedAt(old(bc.disk), bc.disk, View(), b)} ::
                KeptSavedAt(old(bc.disk), bc.disk, View(), b)
    {
      HomesInUse(View(), own, held, f);
      var n := LoadNode(f);
      var i := 0;
      SavedStart(bc.disk, View());
      while i < (n.size + BLKSIZE - 1) / BLKSIZE
        invariant 0 <= i && Ready() && View() == old(View()) && own == old(own) && held == old(held)
        invariant forall k {:trigger SavedAt(bc.disk, View(), Slot(f, k))} :: k < i ==>
                    SavedAt(bc.disk, View(), Slot(f, k))
        invariant forall b {:trigger KeptSavedAt(old(bc.disk), bc.disk, View(), b)} ::
                    KeptSavedAt(old(bc.disk), bc.disk, View(), b)
        decreases n.size - i
      {
        ghost var disk1 := bc.disk;
        FlushSlot(f, i);
        SavedMore(old(bc.disk), disk1, bc.disk, View(), f, i);
        i := i + 1;
      }
      ghost var disk2 := bc.disk;
      bc.Flush(f.b);
      if n.indirect != 0 {
        IndirectHome(View(), own, held, f);
        bc.Flush(n.indirect);
      }
      FlushDone(old(bc.disk), disk2, bc.disk, View(), own, held, f, i);
    }

    /** The part of file_flush for one file block. */
    method FlushSlot(f: File, i: int)
      requires Ready() && NodeAt(View(), f).name != "" && 0 <= i
      modifies this`held, this`own, bc`cache, bc`dirty, bc`disk
      ensures Ready() && View() == old(View()) && own == old(own) && held == old(held)
      ensures var b := Look(View(), Slot(f, i));
              && |bc.disk| == |old(bc.disk)|
              && bc.disk == (if b != 0 && 0 <= b < |View()| then old(bc.disk)[b := View()[b]] else old(bc.disk))
    {
      var r := FileBlockWalk(f, i, false);
      if r != Ok {
        return;
      }
      HomesInUse(View(), own, held, f);
      var b := Load(Slot(f, i));
      if b != 0 {
        BlockInUse(View(), own, held, Slot(f, i));
        bc.Flush(b);
      }
    }
  }

  /** The block that place `p` names is on disk as seen. */
  ghost predicate SavedAt(disk: seq<Block>, v: View, p: Place) {
    var b := Look(v, p);
    b != 0 && 0 <= b < |v| && b < |disk| ==> disk[b] == v[b]
  }

  /** A block that was on disk as seen still is. */
  ghost predicate KeptSavedAt(disk: seq<Block>, disk2: seq<Block>, v: View, b: int) {
    && |disk2| == |disk| == |v|
    && (0 <= b < |v| ==> disk2[b] == disk[b] || disk2[b] == v[b])
  }

  lemma SavedStart(disk: seq<Block>, v: View)
    requires |disk| == |v|
    ensures forall b {:trigger KeptSavedAt(disk, disk, v, b)} :: KeptSavedAt(disk, disk, v, b)
    ensures forall f, k {:trigger SavedAt(disk, v, Slot(f, k))} :: k < 0 ==> SavedAt(disk, v, Slot(f, k))
  {
  }

  lemma SavedMore(disk: seq<Block>, disk1: seq<Block>, disk2: seq<Block>, v: View, f: File, i: int)
    requires forall b {:trigger KeptSavedAt(disk, disk1, v, b)} :: KeptSavedAt(disk, disk1, v, b)
    requires forall k {:trigger SavedAt(disk1, v, Slot(f, k))} :: k < i ==> SavedAt(disk1, v, Slot(f, k))
    requires |disk1| == |disk2|
    requires var b := Look(v, Slot(f, i));
             disk2 == if b != 0 && 0 <= b < |v| && b < |disk1| then disk1[b := v[b]] else disk1
    ensures forall b {:trigger KeptSavedAt(disk, disk2, v, b)} :: KeptSavedAt(disk, disk2, v, b)
    ensures forall k {:trigger SavedAt(disk2, v, Slot(f, k))} :: k < i + 1 ==> SavedAt(disk2, v, Slot(f, k))
  {
    forall b {:trigger KeptSavedAt(disk, disk2, v, b)} | true
      ensures KeptSavedAt(disk, disk2, v, b)
    {
      assert KeptSavedAt(disk, disk1, v, b);
    }
    forall k {:trigger SavedAt(disk2, v, Slot(f, k))} | k < i + 1
      ensures SavedAt(disk2, v, Slot(f, k))
    {
      assert k < i ==> SavedAt(disk1, v, Slot(f, k));
    }
  }

  lemma FlushDone(disk: seq<Block>, disk2: seq<Block>, disk3: seq<Block>, v: View, own: Owners, held: set<int>,
                  f: File, i: int)
    requires Inv(v, own, held) && 0 <= f.b < |v| == |disk2| == |disk3| && 4096 * i >= NodeAt(v, f).size
    requires forall b {:trigger KeptSavedAt(disk, disk2, v, b)} :: KeptSavedAt(disk, disk2, v, b)
    requires forall k {:trigger SavedAt(disk2, v, Slot(f, k))} :: k < i ==> SavedAt(disk2, v, Slot(f, k))
    requires var ind := NodeAt(v, f).indirect;
             && (ind != 0 ==> 0 <= ind < |v|)
             && disk3 == (if ind != 0 then disk2[f.b := v[f.b]][ind := v[ind]] else disk2[f.b := v[f.b]])
    ensures forall p: Place {:trigger SavedAt(disk3, v, p)} :: p.f == f ==> SavedAt(disk3, v, p)
    ensures disk3[f.b] == v[f.b]
    ensures forall b {:trigger KeptSavedAt(disk, disk3, v, b)} :: KeptSavedAt(disk, disk3, v, b)
  {
    forall p: Place {:trigger SavedAt(disk3, v, p)} | p.f == f
      ensures SavedAt(disk3, v, p)
    {
      if p.Slot? {
        assert p.i < i ==> SavedAt(disk2, v, Slot(f, p.i));
        assert TailAt(v, f, p.i);
      }
    }
    forall b {:trigger KeptSavedAt(disk, disk3, v, b)} | true
      ensures KeptSavedAt(disk, disk3, v, b)
    {
      assert KeptSavedAt(disk, disk2, v, b);
    }
  }

  // ---------- Files as byte sequences ----------

  /** The contents of a file. */
  function FileBytes(v: View, f: File): (s: seq<int>) {
    if NodeAt(v, f).size < 0 then [] else Slice(v, f, 0, NodeAt(v, f).size)
  }

  /** A read after a write returns what was written. */
  lemma ReadBack(v: View, v2: View, f: File, offset: int, data: seq<int>)
    requires Written(v, v2, f, offset, data)
    ensures Slice(v2, f, offset, |data|) == data
  {
    var s := Slice(v2, f, offset, |data|);
    forall k {:trigger s[k]} | 0 <= k < |data|
      ensures s[k] == data[k]
    {
      assert WrittenAt(v, v2, f, offset, data, f, offset + k);
    }
  }

  /** As byte sequences: a write replaces the bytes it covers, keeps those around them, and
      leaves every other file as it was.  A write past the end leaves what was behind the end
      as a gap. */
  lemma WriteSplices(v: View, v2: View, own: Owners, held: set<int>, f: File, offset: int, data: seq<int>, g: File)
    requires Inv(v, own, held) && Written(v, v2, f, offset, data) && 0 <= offset
    requires SizeSet(v, v2, f, NewSize(v, f, offset + |data|))
    ensures var a, b := FileBytes(v, f), FileBytes(v2, f);
            if offset <= |a|
            then b == a[..offset] + data + if offset + |data| <= |a| then a[offset + |data|..] else []
            else b == a + Slice(v, f, |a|, offset - |a|) + data
    ensures g != f ==> FileBytes(v2, g) == FileBytes(v, g)
  {
    var size := NewSize(v, f, offset + |data|);
    assert SizeSetAt(v, v2, f, size, f) && SizeSetAt(v, v2, f, size, g) && ShapeAt(v, f.b);
    var a, b := FileBytes(v, f), FileBytes(v2, f);
    forall k {:trigger b[k]} | 0 <= k < |b|
      ensures b[k] == if offset <= k < offset + |data| then data[k - offset] else RawByte(v, f, k)
    {
      assert WrittenAt(v, v2, f, offset, data, f, k);
    }
    if g != f {
      var c, d := FileBytes(v, g), FileBytes(v2, g);
      forall k {:trigger d[k]} | 0 <= k < |d|
        ensures d[k] == c[k]
      {
        assert WrittenAt(v, v2, f, offset, data, g, k);
      }
    }
  }

  /** Behind the last block of a file the gap is zero. */
  lemma GapZero(v: View, own: Owners, held: set<int>, f: File, pos: int)
    requires Inv(v, own, held) && 0 <= pos && 4096 * (pos / 4096) >= NodeAt(v, f).size
    ensures RawByte(v, f, pos) == 0
  {
    assert TailAt(v, f, pos / 4096);
  }

  // ---------- When there is room ----------

  /** The end of the file blocks that hold the `count` bytes from `offset`, as far as a file can
      reach. */
  function Reach(offset: int, count: int): (hi: int)
    requires 0 <= offset
    ensures hi <= 1034
  {
    if count <= 0 then 0
    else if (offset + count - 1) / 4096 < 1034 then (offset + count - 1) / 4096 + 1
    else 1034
  }

  /** What comes of getting every file block of a range in turn: the answer of file_read and
      file_write. */
  ghost function RangeResult(v: View, f: File, offset: int, count: int): Error
    requires 0 <= offset
  {
    if Shortfall(v, f, offset / 4096, Reach(offset, count)) > 0 then NoDisk
    else if count > 0 && offset + count > 4096 * 1034 then Inval
    else Ok
  }

  /** How many bytes are in the block of byte `offset + n`, up to the end of the range. */
  function TurnLength(offset: int, count: int, n: int): (bn: int)
    requires 0 <= offset && 0 <= n < count
    ensures 0 < bn <= count - n && (offset + n) % 4096 + bn <= 4096
  {
    var at := (offset + n) % 4096;
    if 4096 - at < count - n then 4096 - at else count - n
  }

  /** After `n` bytes the loop has come to file block `i`, or to the end of the range. */
  predicate AtBlock(offset: int, count: int, n: int, i: int)
    requires 0 <= offset
  {
    if n < count then i == (offset + n) / 4096
    else i == if count <= 0 then offset / 4096 else (offset + count - 1) / 4096 + 1
  }

  /** The result of getting file block `i`: exactly when it fails, and else what is left to get
      up to `hi`. */
  ghost predicate BlockResult(v: View, v2: View, f: File, i: int, hi: int, r: Error) {
    && (r == Ok || r == Inval || r == NoDisk)
    && (r == Inval <==> i >= 1034)
    && (r == NoDisk <==> i < 1034 && Shortfall(v, f, i, i + 1) > 0) && (r == NoDisk ==> DiskFull(v2))
    && (r == Ok && i < hi ==> Shortfall(v2, f, i + 1, hi) == Shortfall(v, f, i, hi))
  }

  /** How far the loop over the range has come from state `v0` to `v`: `n` bytes are done, file
      block `i` is next, and the blocks still to get fall short by as much as those of the whole
      range did. */
  ghost predicate Progress(v0: View, v: View, f: File, offset: int, count: int, n: int, i: int)
    requires 0 <= offset
  {
    && AtBlock(offset, count, n, i) && (n == 0 || i <= 1034)
    && Shortfall(v, f, i, Reach(offset, count)) == Shortfall(v0, f, offset / 4096, Reach(offset, count))
  }

  lemma TurnEnds(offset: int, count: int, n: int, i: int, bn: int)
    requires 0 <= offset && 0 <= n < count && AtBlock(offset, count, n, i) && bn == TurnLength(offset, count, n)
    ensures AtBlock(offset, count, n + bn, i + 1) && (i < 1034 <==> i < Reach(offset, count))
  {
  }

  /** One turn gets the next block, or the loop stops for the reason of the whole range. */
  lemma ProgressMore(v0: View, v: View, v2: View, f: File, offset: int, count: int, n: int, i: int, r: Error)
    requires 0 <= offset && 0 <= n < count && Progress(v0, v, f, offset, count, n, i)
    requires BlockResult(v, v2, f, (offset + n) / 4096, Reach(offset, count), r)
    ensures r == Ok ==> Progress(v0, v2, f, offset, count, n + TurnLength(offset, count, n), i + 1)
    ensures r != Ok ==> r == RangeResult(v0, f, offset, count) && (r == NoDisk ==> DiskFull(v2))
  {
    var cap := Reach(offset, count);
    TurnEnds(offset, count, n, i, TurnLength(offset, count, n));
    if i < cap { FirstShort(v, f, i, cap); }
  }

  /** At the end of the loop the range had room. */
  lemma ProgressEnds(v0: View, v: View, f: File, offset: int, count: int, i: int)
    requires 0 <= offset && 0 <= count && Progress(v0, v, f, offset, count, count, i)
    ensures RangeResult(v0, f, offset, count) == Ok
  {
  }

  lemma BlockThere(v: View, v2: View, f: File, i: int, hi: int)
    requires Grows(v, v2, f, i) && Look(v2, Slot(f, i)) != 0
    requires i < 10 ==> NodeAt(v2, f).indirect == NodeAt(v, f).indirect
    requires FreeCount(v2) == FreeCount(v) - Needed(v, f, i, i + 1)
    ensures i < hi ==> Shortfall(v2, f, i + 1, hi) == Shortfall(v, f, i, hi)
  {
    forall j {:trigger Look(v2, Slot(f, j))} | j != i
      ensures Look(v2, Slot(f, j)) == Look(v, Slot(f, j))
    {
      assert GrowsAt(v, v2, f, i, Slot(f, j));
    }
    if i < hi { NeededNext(v, v2, f, i, hi); }
  }

  /** Writing into a block takes no other. */
  lemma ChunkSpace(v: View, v1: View, own: Owners, held: set<int>, v2: View, f: File, i: int, hi: int)
    requires BlockResult(v, v1, f, i, hi, Ok)
    requires Inv(v1, own, held) && Inv(v2, own, held) && |v2| == |v1| && SameSlots(v1, v2, f)
    ensures BlockResult(v, v2, f, i, hi, Ok)
  {
    FreeSame(v1, own, held, v2, own, held);
    NeededSame(v1, v2, f, i + 1, hi);
  }

  lemma RangeSame(v: View, own: Owners, held: set<int>, v2: View, f: File, offset: int, count: int)
    requires Inv(v, own, held) && Inv(v2, own, held) && |v2| == |v| && SameSlots(v, v2, f) && 0 <= offset
    ensures RangeResult(v2, f, offset, count) == RangeResult(v, f, offset, count)
  {
    FreeSame(v, own, held, v2, own, held);
    NeededSame(v, v2, f, offset / 4096, Reach(offset, count));
  }

  /** The size that file_write leaves. */
  function NewSize(v: View, f: File, end: int): (size: int)
    ensures size >= NodeAt(v, f).size && size >= end && (size == end || size == NodeAt(v, f).size)
  {
    if end > NodeAt(v, f).size then end else NodeAt(v, f).size
  }

  lemma SizeKept(v: View, f: File)
    ensures SizeSet(v, v, f, NodeAt(v, f).size) && SameRaw(v, v)
  {
  }

  lemma WriteNone(v: View, v2: View, f: File, offset: int)
    requires SameRaw(v, v2)
    ensures Written(v, v2, f, offset, [])
  {
    forall g, q {:trigger WrittenAt(v, v2, f, offset, [], g, q)} | true
      ensures WrittenAt(v, v2, f, offset, [], g, q)
    {
      assert RawByte(v2, g, q) == RawByte(v, g, q);
    }
  }

  lemma SizeSetMore(v: View, v1: View, v2: View, f: File, size: int)
    requires SizeSet(v, v1, f, size) && MetaSame(v1, v2)
    ensures SizeSet(v, v2, f, size)
  {
    forall g {:trigger SizeSetAt(v, v2, f, size, g)} | true
      ensures SizeSetAt(v, v2, f, size, g)
    {
      assert SizeSetAt(v, v1, f, size, g) && MetaAt(v1, v2, g);
    }
  }

  lemma WrittenSame(v: View, v1: View, v2: View, f: File, offset: int, data: seq<int>)
    requires Written(v, v1, f, offset, data) && SameRaw(v1, v2)
    ensures Written(v, v2, f, offset, data)
  {
    forall g, q {:trigger WrittenAt(v, v2, f, offset, data, g, q)} | true
      ensures WrittenAt(v, v2, f, offset, data, g, q)
    {
      assert WrittenAt(v, v1, f, offset, data, g, q) && RawByte(v2, g, q) == RawByte(v1, g, q);
    }
  }

  lemma WrittenMore(v: View, v1: View, v2: View, f: File, offset: int, buf: seq<int>, k: int, bn: int)
    requires 0 <= k && 0 <= bn && k + bn <= |buf|
    requires Written(v, v1, f, offset, buf[..k]) && Written(v1, v2, f, offset + k, buf[k..k + bn])
    ensures Written(v, v2, f, offset, buf[..k + bn])
  {
    var data := buf[..k + bn];
    forall g, q {:trigger WrittenAt(v, v2, f, offset, data, g, q)} | true
      ensures WrittenAt(v, v2, f, offset, data, g, q)
    {
      assert WrittenAt(v, v1, f, offset, buf[..k], g, q) && WrittenAt(v1, v2, f, offset + k, buf[k..k + bn], g, q);
    }
  }

  lemma ChunkCompose(v: View, v1: View, v2: View, f: File, pos: int, data: seq<int>)
    requires MetaSame(v, v1) && SameRaw(v, v1) && MetaSame(v1, v2) && Written(v1, v2, f, pos, data)
    ensures MetaSame(v, v2) && Written(v, v2, f, pos, data)
  {
    forall g {:trigger MetaAt(v, v2, g)} | true
      ensures MetaAt(v, v2, g)
    {
      assert MetaAt(v, v1, g) && MetaAt(v1, v2, g);
    }
    forall g, q {:trigger WrittenAt(v, v2, f, pos, data, g, q)} | true
      ensures WrittenAt(v, v2, f, pos, data, g, q)
    {
      assert WrittenAt(v1, v2, f, pos, data, g, q) && RawByte(v1, g, q) == RawByte(v, g, q);
    }
  }

  /** The blocks that a file of `size` bytes needs. */
  function BlockCount(size: int): (m: int)
    requires 0 <= size
    ensures 0 <= m && forall i {:trigger 4096 * i} :: i < m <==> 4096 * i < size
  {
    (size + 4095) / 4096
  }

  /** The slots of `f` from `m` to `k` are null; all other places are as before. */
  ghost predicate Trimmed(v: View, v2: View, f: File, m: int, k: int) {
    forall p {:trigger Look(v2, p)} :: Look(v2, p) == if p.f == f && p.Slot? && m <= p.i < k then 0 else Look(v, p)
  }

  ghost predicate RawTrimmed(v: View, v2: View, f: File, m: int, k: int) {
    forall g, pos {:trigger RawByte(v2, g, pos)} ::
      RawByte(v2, g, pos) == if g == f && m <= pos / 4096 < k then 0 else RawByte(v, g, pos)
  }

  lemma TrimStart(v: View, f: File, m: int)
    ensures Trimmed(v, v, f, m, m) && RawTrimmed(v, v, f, m, m) && MetaSame(v, v)
  {
  }

  lemma TrimMore(v: View, v1: View, v2: View, f: File, m: int, k: int)
    requires Trimmed(v, v1, f, m, k) && RawTrimmed(v, v1, f, m, k) && MetaSame(v, v1) && m <= k
    requires OnlyAt(v1, v2, Slot(f, k), 0) && RawExcept(v1, v2, Slot(f, k)) && MetaSame(v1, v2)
    ensures Trimmed(v, v2, f, m, k + 1) && RawTrimmed(v, v2, f, m, k + 1) && MetaSame(v, v2)
  {
    forall p {:trigger Look(v2, p)} | true
      ensures Look(v2, p) == if p.f == f && p.Slot? && m <= p.i < k + 1 then 0 else Look(v, p)
    {
      assert Look(v1, p) == if p.f == f && p.Slot? && m <= p.i < k then 0 else Look(v, p);
    }
    forall g, pos {:trigger RawByte(v2, g, pos)} | true
      ensures RawByte(v2, g, pos) == if g == f && m <= pos / 4096 < k + 1 then 0 else RawByte(v, g, pos)
    {
      assert RawByte(v1, g, pos) == if g == f && m <= pos / 4096 < k then 0 else RawByte(v, g, pos);
    }
    forall g {:trigger MetaAt(v, v2, g)} | true
      ensures MetaAt(v, v2, g)
    {
      assert MetaAt(v, v1, g) && MetaAt(v1, v2, g);
    }
  }

  /** No slot of `f` from `m` on is in use. */
  ghost predicate SlotsEnd(v: View, f: File, m: int) {
    forall i {:trigger Look(v, Slot(f, i))} :: m <= i ==> Look(v, Slot(f, i)) == 0
  }

  lemma TrimDone(v: View, v2: View, own: Owners, held: set<int>, f: File, m: int, k: int)
    requires Inv(v2, own, held) && Trimmed(v, v2, f, m, k) && 0 <= m && 4096 * k >= NodeAt(v2, f).size
    ensures SlotsEnd(v2, f, m) && (m <= 10 ==> TableEmpty(v2, f))
  {
    forall i {:trigger Look(v2, Slot(f, i))} | m <= i
      ensures Look(v2, Slot(f, i)) == 0
    {
      assert TailAt(v2, f, i);
      assert Look(v2, Slot(f, i)) == if m <= i < k then 0 else Look(v, Slot(f, i));
    }
  }

  /** The places of `f` that a file of `m` blocks does not need are null; all other places are
      as before. */
  ghost predicate Truncated(v: View, v2: View, f: File, m: int) {
    forall p {:trigger Look(v2, p)} ::
      Look(v2, p) == if p.f == f && (if p.Slot? then m <= p.i else m <= 10) then 0 else Look(v, p)
  }

  /** The bytes of `f` from block `m` on read as zeros; no other byte changes. */
  ghost predicate RawFrom(v: View, v2: View, f: File, m: int) {
    forall g, pos {:trigger RawByte(v2, g, pos)} ::
      RawByte(v2, g, pos) == if g == f && 4096 * m <= pos then 0 else RawByte(v, g, pos)
  }

  lemma TrimRest(v: View, v2: View, f: File, m: int, k: int)
    requires Trimmed(v, v2, f, m, k) && RawTrimmed(v, v2, f, m, k) && SlotsEnd(v2, f, m) && 0 <= m
    requires m <= 10 ==> Look(v2, Indirect(f)) == 0
    ensures Truncated(v, v2, f, m) && RawFrom(v, v2, f, m)
  {
    forall p {:trigger Look(v2, p)} | true
      ensures Look(v2, p) == if p.f == f && (if p.Slot? then m <= p.i else m <= 10) then 0 else Look(v, p)
    {
      assert p.Slot? && p.f == f && m <= p.i ==> Look(v2, Slot(f, p.i)) == 0;
    }
    forall g, pos {:trigger RawByte(v2, g, pos)} | true
      ensures RawByte(v2, g, pos) == if g == f && 4096 * m <= pos then 0 else RawByte(v, g, pos)
    {
      assert g == f && m <= pos / 4096 ==> Look(v2, Slot(f, pos / 4096)) == 0;
    }
  }

  lemma TrimIndirect(v: View, v2: View, v3: View, f: File, m: int, k: int)
    requires Trimmed(v, v2, f, m, k) && RawTrimmed(v, v2, f, m, k) && SlotsEnd(v2, f, m) && 0 <= m <= 10
    requires OnlyAt(v2, v3, Indirect(f), 0) && RawExcept(v2, v3, Indirect(f)) && MetaSame(v, v2) && MetaSame(v2, v3)
    ensures Truncated(v, v3, f, m) && RawFrom(v, v3, f, m) && MetaSame(v, v3)
  {
    forall p {:trigger Look(v3, p)} | true
      ensures Look(v3, p) == if p.f == f && (if p.Slot? then m <= p.i else m <= 10) then 0 else Look(v, p)
    {
      assert Look(v2, p) == if p.f == f && p.Slot? && m <= p.i < k then 0 else Look(v, p);
      assert p.Slot? && p.f == f && m <= p.i ==> Look(v2, Slot(f, p.i)) == 0;
    }
    forall g, pos {:trigger RawByte(v3, g, pos)} | true
      ensures RawByte(v3, g, pos) == if g == f && 4096 * m <= pos then 0 else RawByte(v, g, pos)
    {
      assert RawByte(v2, g, pos) == if g == f && m <= pos / 4096 < k then 0 else RawByte(v, g, pos);
      assert g == f && m <= pos / 4096 ==> Look(v2, Slot(f, pos / 4096)) == 0;
    }
    forall g {:trigger MetaAt(v, v3, g)} | true
      ensures MetaAt(v, v3, g)
    {
      assert MetaAt(v, v2, g) && MetaAt(v2, v3, g);
    }
  }

  /** Only the size of `f` differs. */
  ghost predicate SizeSetAt(v: View, v2: View, f: File, size: int, g: File) {
    var n, m := NodeAt(v, g), NodeAt(v2, g);
    n.name == m.name && n.dir == m.dir && m.size == if g == f then size else n.size
  }

  ghost predicate SizeSet(v: View, v2: View, f: File, size: int) {
    forall g {:trigger SizeSetAt(v, v2, f, size, g)} :: SizeSetAt(v, v2, f, size, g)
  }

  lemma SelfMeta(v: View)
    ensures MetaSame(v, v) && SameRaw(v, v)
  {
  }

  lemma ResizeReady(v: View, v1: View, own: Owners, held: set<int>, f: File, size: int)
    requires Inv(v1, own, held) && NodeAt(v, f).name != "" && !NodeAt(v, f).dir && 0 <= size && MetaSame(v, v1)
    requires size >= NodeAt(v, f).size || Truncated(v, v1, f, BlockCount(size))
    ensures NodeAt(v1, f).name != "" && !NodeAt(v1, f).dir
    ensures forall i {:trigger Look(v1, Slot(f, i))} :: 0 <= i && 4096 * i >= size ==> Look(v1, Slot(f, i)) == 0
  {
    assert MetaAt(v, v1, f);
    forall i {:trigger Look(v1, Slot(f, i))} | 0 <= i && 4096 * i >= size
      ensures Look(v1, Slot(f, i)) == 0
    {
      assert TailAt(v1, f, i);
      assert i < BlockCount(size) <==> 4096 * i < size;
    }
  }

  lemma SizeCompose(v: View, v1: View, v2: View, f: File, size: int)
    requires MetaSame(v, v1) && Resized(v1, v2, f, size) && SameRaw(v1, v2)
    ensures SizeSet(v, v2, f, size)
    ensures SameRaw(v, v1) ==> SameRaw(v, v2)
    ensures forall m {:trigger RawFrom(v, v2, f, m)} :: RawFrom(v, v1, f, m) ==> RawFrom(v, v2, f, m)
  {
    forall g {:trigger SizeSetAt(v, v2, f, size, g)} | true
      ensures SizeSetAt(v, v2, f, size, g)
    {
      assert MetaAt(v, v1, g) && NodeAt(v2, g) == if g == f then NodeAt(v1, f).(size := size) else NodeAt(v1, g);
    }
    if SameRaw(v, v1) {
      forall g, pos {:trigger RawByte(v2, g, pos)} | true
        ensures RawByte(v2, g, pos) == RawByte(v, g, pos)
      {
        assert RawByte(v2, g, pos) == RawByte(v1, g, pos);
      }
    }
    forall m {:trigger RawFrom(v, v2, f, m)} | RawFrom(v, v1, f, m)
      ensures RawFrom(v, v2, f, m)
    {
      forall g, pos {:trigger RawByte(v2, g, pos)} | true
        ensures RawByte(v2, g, pos) == if g == f && 4096 * m <= pos then 0 else RawByte(v, g, pos)
      {
        assert RawByte(v2, g, pos) == RawByte(v1, g, pos);
      }
    }
  }

  /** Every slot of the indirect table of `f` is null. */
  ghost predicate TableEmpty(v: View, f: File) {
    forall i {:trigger Look(v, Slot(f, i))} :: i >= 10 ==> Look(v, Slot(f, i)) == 0
  }

  /** Only the part of a file that place `p` held changes, and reads as zeros. */
  ghost predicate RawExcept(v: View, v2: View, p: Place) {
    forall g, pos {:trigger RawByte(v2, g, pos)} ::
      RawByte(v2, g, pos) == if p == Slot(g, pos / 4096) then 0 else RawByte(v, g, pos)
  }

  lemma NullAlready(v: View, p: Place)
    requires Look(v, p) == 0
    ensures OnlyAt(v, v, p, 0) && MetaSame(v, v) && RawExcept(v, v, p)
  {
  }

  lemma DetachEffect(v: View, own: Owners, held: set<int>, p: Place)
    requires Inv(v, own, held) && Look(v, p) != 0 && (p.Slot? ==> !NodeAt(v, p.f).dir)
    requires p.Indirect? ==> TableEmpty(v, p.f)
    ensures BitmapOk(v) && Storable(v, p) && 0 < p.f.b && !IsFree(v, p.f.b) && !IsFree(v, 2)
    ensures p.Slot? && p.i >= 10 ==> !IsFree(v, NodeAt(v, p.f).indirect)
    ensures var b := Look(v, p);
            && 3 <= b < |v| && Storable(SetFree(v, b, true), p)
            && var v1, v2 := SetFree(v, b, true), Assign(SetFree(v, b, true), p, 0);
            && !IsFree(v1, p.f.b) && (p.Slot? && p.i >= 10 ==> !IsFree(v1, NodeAt(v1, p.f).indirect))
            && Inv(v2, own - {b}, held) && OnlyAt(v, v2, p, 0) && MetaSame(v, v2) && RawExcept(v, v2, p)
            && IsFree(v2, b)
  {
    var b := Look(v, p);
    LookLive(v, own, held, p);
    HomesInUse(v, own, held, p.f);
    LiveHome(v, own, held, p.f);
    assert ShapeAt(v, 2) && FreeAt(v, own, held, 2);
    BlockInUse(v, own, held, p);
    Drop(v, own, held, p);
    AssignOnly(v, own, held, p, 0);
    var v1 := Assign(v, p, 0);
    assert OwnsAt(v, own, p) && OwnedAt(v, own, b);
    MarkFree(v1, own - {b}, held + {b}, b);
    assert held + {b} - {b} == held;
    DetachCommutes(v, own, held, p, b);
    DetachRaw(v, own, held, p, b);
  }

  lemma DetachCommutes(v: View, own: Owners, held: set<int>, p: Place, b: int)
    requires Inv(v, own, held) && BitmapOk(v) && Storable(v, p) && NodeAt(v, p.f).name != "" && Look(v, p) == b
    requires 3 <= b < |v| && (p.Slot? ==> !NodeAt(v, p.f).dir)
    requires p.Slot? && p.i >= 10 ==> NodeAt(v, p.f).indirect != 0
    ensures BitmapOk(Assign(v, p, 0)) && Storable(SetFree(v, b, true), p)
    ensures SetFree(Assign(v, p, 0), b, true) == Assign(SetFree(v, b, true), p, 0)
    ensures !IsFree(SetFree(v, b, true), p.f.b)
    ensures p.Slot? && p.i >= 10 ==> !IsFree(SetFree(v, b, true), NodeAt(SetFree(v, b, true), p.f).indirect)
  {
    LiveHome(v, own, held, p.f);
    HomesInUse(v, own, held, p.f);
    assert OwnsAt(v, own, p) && KindAt(v, own, b) && OwnedAt(v, own, 1) && OwnedAt(v, own, 2);
    if p.Slot? && p.i >= 10 { IndirectHome(v, own, held, p.f); }
    OtherHome(v, own, held, p, b);
  }

  /** The number of a block is not stored in that block. */
  lemma OtherHome(v: View, own: Owners, held: set<int>, p: Place, b: int)
    requires Inv(v, own, held) && NodeAt(v, p.f).name != "" && Look(v, p) == b != 0
    ensures p.Slot? && p.i >= 10 ==> NodeAt(v, p.f).indirect != b
    ensures p.Indirect? || !NodeAt(v, p.f).dir ==> p.f.b != b
  {
    assert OwnsAt(v, own, p) && KindAt(v, own, b);
    LiveHome(v, own, held, p.f);
    if p.Slot? && p.i >= 10 && NodeAt(v, p.f).indirect != 0 { IndirectHome(v, own, held, p.f); }
  }

  lemma DetachRaw(v: View, own: Owners, held: set<int>, p: Place, b: int)
    requires Inv(v, own, held) && BitmapOk(v) && Storable(v, p) && Assignable(v, p, 0) && 3 <= b < |v|
    requires BitmapOk(Assign(v, p, 0)) && OnlyAt(v, Assign(v, p, 0), p, 0) && MetaSame(v, Assign(v, p, 0))
    requires var v1 := Assign(v, p, 0); var v2 := SetFree(v1, b, true);
             MetaSame(v1, v2) && SameLooks(v1, v2) && SameRaw(v1, v2)
    ensures var v2 := SetFree(Assign(v, p, 0), b, true);
            OnlyAt(v, v2, p, 0) && MetaSame(v, v2) && RawExcept(v, v2, p)
  {
    var v1 := Assign(v, p, 0);
    var v2 := SetFree(v1, b, true);
    forall q {:trigger Look(v2, q)} | true
      ensures Look(v2, q) == if q == p then 0 else Look(v, q)
    {
      assert Look(v1, q) == if q == p then 0 else Look(v, q);
    }
    forall g {:trigger MetaAt(v, v2, g)} | true
      ensures MetaAt(v, v2, g)
    {
      assert MetaAt(v, v1, g) && MetaAt(v1, v2, g);
    }
    forall g, pos {:trigger RawByte(v2, g, pos)} | true
      ensures RawByte(v2, g, pos) == if p == Slot(g, pos / 4096) then 0 else RawByte(v, g, pos)
    {
      assert RawByte(v2, g, pos) == RawByte(v1, g, pos);
      if 0 <= pos { DropRaw(v, own, held, p, g, pos); }
    }
  }

  /** The inode of `f` has a new size; everything else about every inode and every place is as
      before. */
  ghost predicate Resized(v: View, v2: View, f: File, size: int) {
    && (forall p {:trigger Look(v2, p)} :: Look(v2, p) == Look(v, p))
    && (forall g {:trigger NodeAt(v2, g)} ::
          NodeAt(v2, g) == if g == f then NodeAt(v, f).(size := size) else NodeAt(v, g))
  }

  lemma ResizeEffect(v: View, own: Owners, held: set<int>, f: File, size: int)
    requires Inv(v, own, held) && NodeAt(v, f).name != "" && 0 <= size
    requires NodeAt(v, f).dir ==> size % 4096 == 0
    requires forall i {:trigger Look(v, Slot(f, i))} :: 0 <= i && 4096 * i >= size ==> Look(v, Slot(f, i)) == 0
    ensures 0 < f.b < |v| && 0 <= f.j < 16 && !IsFree(v, f.b)
    ensures var v2 := SetNode(v, f, NodeAt(v, f).(size := size));
            Inv(v2, own, held) && Resized(v, v2, f, size) && SameRaw(v, v2)
  {
    LiveHome(v, own, held, f);
    HomesInUse(v, own, held, f);
    assert EntryAt(v, f);
    var n := NodeAt(v, f).(size := size);
    NodeInv(v, own, held, f, n);
    SetNodeRaw(v, own, held, f, n);
  }

  lemma SetNodeRaw(v: View, own: Owners, held: set<int>, f: File, n: Inode)
    requires Inv(v, own, held) && 0 <= f.b < |v| && 0 <= f.j < 16
    requires BlockAt(v, f.b).Nodes? || BlockAt(v, f.b) == Zero()
    requires forall p {:trigger Look(SetNode(v, f, n), p)} :: Look(SetNode(v, f, n), p) == Look(v, p)
    ensures SameRaw(v, SetNode(v, f, n))
  {
    var v2 := SetNode(v, f, n);
    forall g, pos {:trigger RawByte(v2, g, pos)} | true
      ensures RawByte(v2, g, pos) == RawByte(v, g, pos)
    {
      assert Look(v2, Slot(g, pos / 4096)) == Look(v, Slot(g, pos / 4096));
    }
  }

  /** Exactly the bytes of `f` from `pos` on are `data`; every other byte of every file is as
      before. */
  ghost predicate WrittenAt(v: View, v2: View, f: File, pos: int, data: seq<int>, g: File, q: int) {
    RawByte(v2, g, q) == if g == f && pos <= q < pos + |data| then data[q - pos] else RawByte(v, g, q)
  }

  ghost predicate Written(v: View, v2: View, f: File, pos: int, data: seq<int>) {
    forall g, q {:trigger WrittenAt(v, v2, f, pos, data, g, q)} :: WrittenAt(v, v2, f, pos, data, g, q)
  }

  lemma PatchWritten(v: View, v2: View, f: File, pos: int, data: seq<int>, bytes: seq<int>)
    requires 0 <= pos && pos % 4096 + |data| <= 4096 && Look(v, Slot(f, pos / 4096)) != 0
    requires var old_bytes := Bytes(BlockAt(v, Look(v, Slot(f, pos / 4096))));
             bytes == old_bytes[..pos % 4096] + data + old_bytes[pos % 4096 + |data|..]
    requires forall g, q {:trigger RawByte(v2, g, q)} ::
               RawByte(v2, g, q)
               == if g == f && 0 <= q && q / 4096 == pos / 4096 then bytes[q % 4096] else RawByte(v, g, q)
    ensures Written(v, v2, f, pos, data)
  {
    forall g, q {:trigger WrittenAt(v, v2, f, pos, data, g, q)} | true
      ensures WrittenAt(v, v2, f, pos, data, g, q)
    {
      if g == f && pos <= q < pos + |data| {
        WithinBlock(pos, q - pos);
      }
    }
  }

  /** Only live files have blocks. */
  lemma LookLive(v: View, own: Owners, held: set<int>, p: Place)
    requires Inv(v, own, held) && Look(v, p) != 0
    ensures NodeAt(v, p.f).name != "" && (p.Slot? ==> 0 <= p.i < 1034 && 4096 * p.i < NodeAt(v, p.f).size)
    ensures p.Slot? && p.i >= 10 ==> NodeAt(v, p.f).indirect != 0
  {
    assert EntryAt(v, p.f);
    if p.Slot? { assert TailAt(v, p.f, p.i); }
  }

  /** How much file_read returns. */
  function ReadLength(v: View, f: File, count: int, offset: int): (n: int)
    requires 0 <= count && 0 <= offset
    ensures 0 <= n <= count
  {
    var size := NodeAt(v, f).size;
    if offset >= size then 0 else if count < size - offset then count else size - offset
  }

  /** The `n` bytes of `f` from `offset`. */
  function Slice(v: View, f: File, offset: int, n: int): (s: seq<int>)
    requires 0 <= n
    ensures |s| == n && forall k {:trigger s[k]} :: 0 <= k < n ==> s[k] == RawByte(v, f, offset + k)
  {
    seq(n, k => RawByte(v, f, offset + k))
  }

  /** Bytes within one block of a file are next to each other in its disk block. */
  lemma WithinBlock(pos: int, k: int)
    requires 0 <= pos && 0 <= k && pos % 4096 + k < 4096
    ensures (pos + k) / 4096 == pos / 4096 && (pos + k) % 4096 == pos % 4096 + k
  {
  }

  lemma SliceMore(v: View, v2: View, f: File, offset: int, n: int, bn: int)
    requires SameRaw(v, v2) && Look(v2, Slot(f, (offset + n) / 4096)) != 0
    requires 0 <= offset && 0 <= n && 0 <= bn && (offset + n) % 4096 + bn <= 4096
    ensures var pos := offset + n;
            Slice(v, f, offset, n) + Bytes(BlockAt(v2, Look(v2, Slot(f, pos / 4096))))[pos % 4096..pos % 4096 + bn]
            == Slice(v, f, offset, n + bn)
  {
    var pos := offset + n;
    var bytes, at := Bytes(BlockAt(v2, Look(v2, Slot(f, pos / 4096)))), pos % 4096;
    var part := bytes[at..at + bn];
    var done, all := Slice(v, f, offset, n), Slice(v, f, offset, n + bn);
    forall k {:trigger all[k]} | 0 <= k < |all|
      ensures (done + part)[k] == all[k]
    {
      if k < n {
        assert done[k] == RawByte(v, f, offset + k);
      } else {
        var j := k - n;
        WithinBlock(pos, j);
        assert (done + part)[k] == part[j] == bytes[at + j] == RawByte(v2, f, pos + j);
      }
    }
  }

  lemma SameTrans(v: View, v1: View, v2: View)
    requires MetaSame(v, v1) && SameRaw(v, v1) && MetaSame(v1, v2) && SameRaw(v1, v2)
    ensures MetaSame(v, v2) && SameRaw(v, v2)
  {
    forall g {:trigger MetaAt(v, v2, g)} | true
      ensures MetaAt(v, v2, g)
    {
      assert MetaAt(v, v1, g) && MetaAt(v1, v2, g);
    }
    forall g, pos {:trigger RawByte(v2, g, pos)} | true
      ensures RawByte(v2, g, pos) == RawByte(v, g, pos)
    {
      assert RawByte(v1, g, pos) == RawByte(v, g, pos);
    }
  }

  /** A block that some place refers to is on the disk and not free. */
  lemma BlockInUse(v: View, own: Owners, held: set<int>, p: Place)
    requires Inv(v, own, held) && Look(v, p) != 0
    ensures 0 < Look(v, p) < |v| && !IsFree(v, Look(v, p))
  {
    assert OwnsAt(v, own, p) && OwnedAt(v, own, Look(v, p)) && FreeAt(v, own, held, Look(v, p));
  }

  /** What file_block_walk answers. */
  ghost function WalkResult(v: View, f: File, i: int, alloc: bool): Error {
    if i >= 1034 then Inval
    else if i < 10 || NodeAt(v, f).indirect != 0 then Ok
    else if !alloc then NotFound
    else if DiskFull(v) then NoDisk
    else Ok
  }

  lemma NotFull(v: View, b: int)
    requires IsFree(v, b)
    ensures !DiskFull(v)
  {
  }

  lemma AttachGrows(v: View, v1: View, v2: View, f: File, i: int, p: Place, b: int)
    requires SameLooks(v, v1) && MetaSame(v, v1) && SameRaw(v, v1) && Look(v, p) == 0
    requires OnlyAt(v1, v2, p, b) && MetaSame(v1, v2) && SameRaw(v1, v2) && (p == Slot(f, i) || p == Indirect(f))
    ensures Grows(v, v2, f, i) && MetaSame(v, v2) && SameRaw(v, v2)
  {
    forall q {:trigger GrowsAt(v, v2, f, i, q)} | true
      ensures GrowsAt(v, v2, f, i, q)
    {
      assert Look(v1, q) == Look(v, q) && Look(v2, q) == if q == p then b else Look(v1, q);
    }
    forall g {:trigger MetaAt(v, v2, g)} | true
      ensures MetaAt(v, v2, g)
    {
      assert MetaAt(v, v1, g) && MetaAt(v1, v2, g);
    }
    forall g, pos {:trigger RawByte(v2, g, pos)} | true
      ensures RawByte(v2, g, pos) == RawByte(v, g, pos)
    {
      assert RawByte(v1, g, pos) == RawByte(v, g, pos);
    }
  }

  lemma AttachFree(v: View, own: Owners, held: set<int>, v2: View, own2: Owners, held2: set<int>, p: Place, b: int)
    requires Inv(v, own, held) && Inv(v2, own2, held2) && |v2| == |v| && b in held
    requires own2 == own[b := p] && held2 == held - {b}
    ensures FreeCount(v2) == FreeCount(v)
  {
    assert own2.Keys + held2 == own.Keys + held;
    FreeSame(v, own, held, v2, own2, held2);
  }

  lemma GetCompose(v: View, v1: View, v2: View, f: File, i: int)
    requires Grows(v, v1, f, -1) && MetaSame(v, v1) && SameRaw(v, v1)
    requires v2 == v1 || (Grows(v1, v2, f, i) && MetaSame(v1, v2) && SameRaw(v1, v2))
    ensures Grows(v, v2, f, i) && MetaSame(v, v2) && SameRaw(v, v2)
  {
    forall q {:trigger GrowsAt(v, v2, f, i, q)} | true
      ensures GrowsAt(v, v2, f, i, q)
    {
      assert GrowsAt(v, v1, f, -1, q) && GrowsAt(v1, v2, f, i, q) && GrowsAt(v, v1, f, -1, Slot(f, -1));
      assert Look(v1, Slot(f, -1)) == 0 == Look(v, Slot(f, -1));
    }
    forall g {:trigger MetaAt(v, v2, g)} | true
      ensures MetaAt(v, v2, g)
    {
      assert MetaAt(v, v1, g) && MetaAt(v1, v2, g);
    }
    forall g, pos {:trigger RawByte(v2, g, pos)} | true
      ensures RawByte(v2, g, pos) == RawByte(v, g, pos)
    {
      assert RawByte(v1, g, pos) == RawByte(v, g, pos);
    }
  }

  lemma AttachEffect(v: View, own: Owners, held: set<int>, p: Place, b: int)
    requires Inv(v, own, held) && b in held && Look(v, p) == 0 && NodeAt(v, p.f).name != ""
    requires p.Slot? ==> && 0 <= p.i < 1034 && 4096 * p.i < NodeAt(v, p.f).size
                         && (p.i >= 10 ==> NodeAt(v, p.f).indirect != 0)
    ensures Storable(v, p) && 0 < p.f.b && !IsFree(v, p.f.b) && 3 <= b < |v| && !IsFree(Assign(v, p, b), b)
    ensures p.Slot? && p.i >= 10 ==> !IsFree(v, NodeAt(v, p.f).indirect)
    ensures var v2 := Assign(v, p, b)[b := Zero()];
            && Inv(v2, own[b := p], held - {b})
            && OnlyAt(v, v2, p, b) && MetaSame(v, v2) && SameRaw(v, v2)
  {
    HomesInUse(v, own, held, p.f);
    assert HeldAt(v, own, held, b) && FreeAt(v, own, held, b);
    Clear(v, own, held, b);
    var v1 := v[b := Zero()];
    assert NodeAt(v1, p.f) == NodeAt(v, p.f) && Look(v1, p) == Look(v, p);
    assert MetaAt(v, v1, p.f);
    Give(v1, own, held, p, b);
    AssignOnly(v1, own, held, p, b);
    AttachCommutes(v, own, held, p, b);
    var v2 := Assign(v1, p, b);
    forall q {:trigger Look(v2, q)} | true
      ensures Look(v2, q) == if q == p then b else Look(v, q)
    {
      assert Look(v1, q) == Look(v, q);
    }
    forall f {:trigger MetaAt(v, v2, f)} | true
      ensures MetaAt(v, v2, f)
    {
      assert MetaAt(v, v1, f) && MetaAt(v1, v2, f);
    }
    forall f, pos {:trigger RawByte(v2, f, pos)} | true
      ensures RawByte(v2, f, pos) == RawByte(v, f, pos)
    {
      assert RawByte(v1, f, pos) == RawByte(v, f, pos);
    }
  }

  /** Zeroing the new block before or after its number is stored comes to the same. */
  lemma AttachCommutes(v: View, own: Owners, held: set<int>, p: Place, b: int)
    requires Inv(v, own, held) && b in held && NodeAt(v, p.f).name != "" && 3 <= b < |v|
    requires p.Slot? ==> 0 <= p.i < 1034 && (p.i >= 10 ==> NodeAt(v, p.f).indirect != 0)
    ensures Storable(v, p) && Storable(v[b := Zero()], p)
    ensures Assign(v[b := Zero()], p, b) == Assign(v, p, b)[b := Zero()]
    ensures BlockAt(Assign(v, p, b), 2) == BlockAt(v, 2)
  {
    LiveHome(v, own, held, p.f);
    assert HeldAt(v, own, held, b);
    if p.Slot? && p.i >= 10 { IndirectHome(v, own, held, p.f); }
  }

  /** The blocks that hold a live file's inode and indirect table are not free. */
  lemma HomesInUse(v: View, own: Owners, held: set<int>, f: File)
    requires Inv(v, own, held) && NodeAt(v, f).name != ""
    ensures 0 < f.b < |v| && 0 <= f.j < 16 && !IsFree(v, f.b)
    ensures |NodeAt(v, f).direct| == 10
    ensures NodeAt(v, f).indirect != 0 ==> 0 < NodeAt(v, f).indirect < |v| && !IsFree(v, NodeAt(v, f).indirect)
  {
    LiveHome(v, own, held, f);
    assert FreeAt(v, own, held, f.b);
    if NodeAt(v, f).indirect != 0 {
      IndirectHome(v, own, held, f);
      assert FreeAt(v, own, held, NodeAt(v, f).indirect);
    }
  }

  lemma LowReserved(v: View, own: Owners, held: set<int>)
    requires Inv(v, own, held)
    ensures forall c {:trigger IsFree(v, c)} :: IsFree(v, c) ==> 2 <= c
  {
    forall c {:trigger IsFree(v, c)} | IsFree(v, c)
      ensures 2 <= c
    {
      assert FreeAt(v, own, held, c);
    }
  }

  lemma HighReserved(v: View, own: Owners, held: set<int>)
    requires Inv(v, own, held) && forall c {:trigger IsFree(v, c)} :: IsFree(v, c) ==> |v| <= c
    ensures DiskFull(v)
  {
    forall c {:trigger IsFree(v, c)} | true
      ensures !IsFree(v, c)
    {
      assert FreeAt(v, own, held, c);
    }
  }
}
