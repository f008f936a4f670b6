/** The lwIP heap of `net/lwip/core/mem.c`: one flat memory cut into blocks, each
    starting with an in-place header that links to the next and the previous block.

    Offsets are relative to `ram`.  The block headers live in `ram`, keyed by the offset
    they are stored at; headers of blocks that were merged away stay behind as stale
    entries, as their bytes do in the original.  The ghost set `blocks` names the offsets
    that currently start a block, the end marker included.

    The invariants quantify over blocks through one small predicate per block (`StepAt`,
    `PrevAt`, ...), which is also the trigger: a proof names the blocks it is about.
 */
module Heap {

  /** MEM_ALIGNMENT, as configured for JOS. */
  const ALIGN: int := 4

  type Aligned = n: int | 0 < n && n % 4 == 0 witness 4

  /** SIZEOF_STRUCT_MEM and MIN_SIZE_ALIGNED: any positive multiples of the alignment. */
  const HDR: Aligned
  const MIN: Aligned

  datatype Mem = Mem(next: int, prev: int, used: bool)

  datatype Pointer = Null | At(offset: int)

  type Ram = map<int, Mem>

  /** LWIP_MEM_ALIGN_SIZE, followed by the raise to the minimum block size. */
  function BlockSize(n: int): (r: int)
    requires 0 <= n
    ensures n <= r && MIN <= r && r % 4 == 0
  {
    var a := (n + ALIGN - 1) / ALIGN * ALIGN;
    if a < MIN then MIN else a
  }

  lemma BlockSizeLeast(n: int, s: int)
    requires 0 <= n <= s && MIN <= s && s % 4 == 0
    ensures BlockSize(n) <= s
  {
    assert (n + ALIGN - 1) / ALIGN <= (s + ALIGN - 1) / ALIGN;
  }

  // ---------- The block list ----------

  /** Block `b` holds a header and at least the minimum of data up to the next block. */
  ghost predicate StepAt(ram: Ram, blocks: set<int>, b: int) {
    b in ram && ram[b].next in blocks && b + HDR + MIN <= ram[b].next
  }

  /** No block lies between `b` and the block it links to, and in particular not `c`. */
  ghost predicate OrderAt(ram: Ram, b: int, c: int) {
    b in ram && b < c ==> ram[b].next <= c
  }

  ghost predicate PrevAt(ram: Ram, blocks: set<int>, b: int) {
    b in ram && ram[b].prev in blocks && ram[b].prev in ram && ram[b].prev < b && ram[ram[b].prev].next == b
  }

  /** The heap starts with a block, and ends with the marker, which is in use and links
      to itself. */
  ghost predicate Ends(ram: Ram, blocks: set<int>, size: int) {
    && 0 in blocks && size in blocks && 0 < size && blocks <= ram.Keys
    && (forall b {:trigger b in blocks} :: b in blocks ==> 0 <= b <= size && b % 4 == 0)
    && ram[0].prev == 0 && ram[size].used && ram[size].next == size
  }

  /** The blocks tile the heap in order, and `prev` inverts `next` except at the end
      marker, whose `prev` the original does not maintain. */
  ghost predicate Chain(ram: Ram, blocks: set<int>, size: int) {
    && Ends(ram, blocks, size)
    && (forall b {:trigger StepAt(ram, blocks, b)} :: b in blocks && b < size ==> StepAt(ram, blocks, b))
    && (forall b, c {:trigger OrderAt(ram, b, c)} :: b in blocks && c in blocks ==> OrderAt(ram, b, c))
    && (forall b {:trigger PrevAt(ram, blocks, b)} :: b in blocks && 0 < b < size ==>
          PrevAt(ram, blocks, b))
  }

  /** Block `b` and the block after it are not both free. */
  ghost predicate PluggedAt(ram: Ram, b: int) {
    b in ram && ram[b].next in ram && (ram[b].used || ram[ram[b].next].used)
  }

  ghost predicate Plugged(ram: Ram, blocks: set<int>, size: int)
    requires blocks <= ram.Keys
  {
    forall b {:trigger PluggedAt(ram, b)} :: b in blocks && b < size ==> PluggedAt(ram, b)
  }

  /** No two free neighbours, except that `x` may have free neighbours. */
  ghost predicate PluggedExcept(ram: Ram, blocks: set<int>, size: int, x: int)
    requires blocks <= ram.Keys
  {
    forall b {:trigger PluggedAt(ram, b)} ::
      b in blocks && b < size && b != x && ram[b].next != x ==> PluggedAt(ram, b)
  }

  ghost predicate UsedAt(ram: Ram, b: int) {
    b in ram && ram[b].used
  }

  ghost predicate UsedBelow(ram: Ram, blocks: set<int>, l: int)
    requires blocks <= ram.Keys
  {
    l in blocks && forall b {:trigger UsedAt(ram, b)} :: b in blocks && b < l ==> UsedAt(ram, b)
  }

  /** `l` is the lowest free block, or the end marker when no block is free. */
  ghost predicate Lowest(ram: Ram, blocks: set<int>, size: int, l: int)
    requires blocks <= ram.Keys
  {
    UsedBelow(ram, blocks, l) && (l < size ==> !ram[l].used)
  }

  /** The live allocations: block offset to the offset just past the block. */
  ghost function Live(ram: Ram, blocks: set<int>, size: int): (m: map<int, int>)
    requires blocks <= ram.Keys
  {
    map b | b in blocks && b < size && ram[b].used :: ram[b].next
  }

  /** Block `b` is free and its data part holds at least `n` bytes. */
  ghost predicate Fits(ram: Ram, blocks: set<int>, size: int, b: int, n: int)
    requires blocks <= ram.Keys
  {
    b in blocks && b < size && !ram[b].used && b + HDR + n <= ram[b].next
  }

  /** What first fit from the start of the heap picks. */
  ghost predicate FirstFit(ram: Ram, blocks: set<int>, size: int, b: int, n: int)
    requires blocks <= ram.Keys
  {
    && Fits(ram, blocks, size, b, n)
    && forall c {:trigger Fits(ram, blocks, size, c, n)} :: Fits(ram, blocks, size, c, n) ==> b <= c
  }

  /** Every byte of the heap lies in exactly one block. */
  lemma {:induction false} Tiles(ram: Ram, blocks: set<int>, size: int, x: int) returns (b: int)
    requires Chain(ram, blocks, size) && 0 <= x < size
    ensures b in blocks && b <= x < ram[b].next
    ensures forall c {:trigger c in blocks} :: c in blocks && c <= x < ram[c].next ==> c == b
  {
    b := 0;
    while ram[b].next <= x
      invariant b in blocks && b <= x
      decreases x - b
    {
      assert StepAt(ram, blocks, b);
      b := ram[b].next;
    }
    forall c {:trigger c in blocks} | c in blocks && c <= x < ram[c].next
      ensures c == b
    {
      assert OrderAt(ram, b, c) && OrderAt(ram, c, b);
    }
  }

  /** Two live allocations never overlap, headers included, and stay inside the heap. */
  lemma LiveDisjoint(ram: Ram, blocks: set<int>, size: int, a: int, b: int)
    requires Chain(ram, blocks, size)
    requires a in Live(ram, blocks, size) && b in Live(ram, blocks, size) && a < b
    ensures 0 <= a < Live(ram, blocks, size)[a] <= b < Live(ram, blocks, size)[b] <= size
  {
    assert StepAt(ram, blocks, a) && StepAt(ram, blocks, b) && OrderAt(ram, a, b);
  }

  // ---------- Dropping block x into its predecessor p ----------

  /** The header writes of one half of plug_holes. */
  function Unlink(ram: Ram, p: int, x: int): (ram2: Ram)
    requires p in ram && x in ram && ram[x].next in ram
  {
    var after := ram[x].next;
    var ram1 := ram[p := ram[p].(next := after)];
    ram1[after := ram1[after].(prev := p)]
  }

  lemma UnlinkChain(ram: Ram, blocks: set<int>, size: int, p: int, x: int)
    requires Chain(ram, blocks, size)
    requires p in blocks && x in blocks && p < x < size && ram[p].next == x
    ensures ram[x].next in blocks && Chain(Unlink(ram, p, x), blocks - {x}, size)
  {
    assert StepAt(ram, blocks, p) && StepAt(ram, blocks, x);
    var ram2, bs, after := Unlink(ram, p, x), blocks - {x}, ram[x].next;
    forall b {:trigger StepAt(ram2, bs, b)} | b in bs && b < size
      ensures StepAt(ram2, bs, b)
    {
      assert StepAt(ram, blocks, b) && OrderAt(ram, b, p) && OrderAt(ram, p, b);
    }
    forall b, c {:trigger OrderAt(ram2, b, c)} | b in bs && c in bs
      ensures OrderAt(ram2, b, c)
    {
      assert OrderAt(ram, b, c) && OrderAt(ram, x, c);
    }
    forall b {:trigger PrevAt(ram2, bs, b)} | b in bs && 0 < b < size
      ensures PrevAt(ram2, bs, b)
    {
      assert PrevAt(ram, blocks, b);
    }
  }

  lemma UnlinkLive(ram: Ram, blocks: set<int>, size: int, p: int, x: int)
    requires blocks <= ram.Keys && p in blocks && x in blocks && p < x < size
    requires ram[x].next in blocks && !ram[x].used
    ensures Live(Unlink(ram, p, x), blocks - {x}, size) ==
            if ram[p].used then Live(ram, blocks, size)[p := ram[x].next] else Live(ram, blocks, size)
  {
  }

  lemma UnlinkPlugged(ram: Ram, blocks: set<int>, size: int, p: int, x: int, e: int)
    requires Chain(ram, blocks, size)
    requires p in blocks && x in blocks && p < x < size && ram[p].next == x && ram[x].next in blocks
    requires PluggedExcept(ram, blocks, size, e) && (e == p || e == x)
    ensures PluggedExcept(Unlink(ram, p, x), blocks - {x}, size, p)
  {
    var ram2, bs := Unlink(ram, p, x), blocks - {x};
    forall b {:trigger PluggedAt(ram2, b)} | b in bs && b < size && b != p && ram2[b].next != p
      ensures PluggedAt(ram2, b)
    {
      assert PluggedAt(ram, b) by {
        assert StepAt(ram, blocks, b) && OrderAt(ram, b, p) && OrderAt(ram, p, b);
      }
    }
  }

  lemma UnlinkUsedBelow(ram: Ram, blocks: set<int>, size: int, p: int, x: int, l: int)
    requires Chain(ram, blocks, size)
    requires p in blocks && x in blocks && p < x < size && ram[x].next in blocks
    requires UsedBelow(ram, blocks, l)
    ensures UsedBelow(Unlink(ram, p, x), blocks - {x}, if l == x then ram[x].next else l)
  {
    var ram2, bs, l2 := Unlink(ram, p, x), blocks - {x}, if l == x then ram[x].next else l;
    assert StepAt(ram, blocks, x);
    forall b {:trigger UsedAt(ram2, b)} | b in bs && b < l2
      ensures UsedAt(ram2, b)
    {
      assert OrderAt(ram, x, b) && UsedAt(ram, b);
    }
  }

  // ---------- Cutting a new free block x out of block p ----------

  /** The header writes that insert the free block `x` between `p` and the block after. */
  function Insert(ram: Ram, size: int, p: int, x: int): (ram2: Ram)
    requires p in ram && ram[p].next in ram && x != p
  {
    var after := ram[p].next;
    var ram1 := ram[x := Mem(after, p, false)][p := ram[p].(next := x)];
    if after != size then ram1[after := ram1[after].(prev := x)] else ram1
  }

  lemma InsertChain(ram: Ram, blocks: set<int>, size: int, p: int, x: int)
    requires Chain(ram, blocks, size) && p in blocks && p < size
    requires p + HDR + MIN <= x && x + HDR + MIN <= ram[p].next && x % 4 == 0
    ensures ram[p].next in blocks && x !in blocks
    ensures Chain(Insert(ram, size, p, x), blocks + {x}, size)
  {
    assert StepAt(ram, blocks, p);
    assert !OrderAt(ram, p, x);
    var ram2, bs := Insert(ram, size, p, x), blocks + {x};
    forall b {:trigger StepAt(ram2, bs, b)} | b in bs && b < size
      ensures StepAt(ram2, bs, b)
    {
      if b != x { assert StepAt(ram, blocks, b); }
    }
    forall b, c {:trigger OrderAt(ram2, b, c)} | b in bs && c in bs
      ensures OrderAt(ram2, b, c)
    {
      if b < c { InsertOrder(ram, blocks, size, p, x, b, c); }
    }
    forall b {:trigger PrevAt(ram2, bs, b)} | b in bs && 0 < b < size
      ensures PrevAt(ram2, bs, b)
    {
      if b != x { assert PrevAt(ram, blocks, b); }
    }
  }

  lemma InsertOrder(ram: Ram, blocks: set<int>, size: int, p: int, x: int, b: int, c: int)
    requires Chain(ram, blocks, size) && p in blocks && p < x < ram[p].next && x !in blocks
    requires b in blocks + {x} && c in blocks + {x} && b < c
    ensures (if b == x then ram[p].next else if b == p then x else ram[b].next) <= c
  {
    if b == x {
      assert OrderAt(ram, p, c);
    } else if c == x {
      assert OrderAt(ram, b, p) && OrderAt(ram, p, b);
    } else {
      assert OrderAt(ram, b, c);
    }
  }

  lemma InsertLive(ram: Ram, blocks: set<int>, size: int, p: int, x: int)
    requires blocks <= ram.Keys && p in blocks && p < size && ram[p].next in blocks && x !in blocks
    ensures Live(Insert(ram, size, p, x), blocks + {x}, size) ==
            if ram[p].used then Live(ram, blocks, size)[p := x] else Live(ram, blocks, size)
  {
  }

  lemma InsertPlugged(ram: Ram, blocks: set<int>, size: int, p: int, x: int)
    requires Chain(ram, blocks, size) && p in blocks && p < size && x !in blocks
    requires ram[p].next in blocks && ram[p].used && ram[ram[p].next].used
    requires PluggedExcept(ram, blocks, size, p)
    ensures Plugged(Insert(ram, size, p, x), blocks + {x}, size)
  {
    var ram2, bs := Insert(ram, size, p, x), blocks + {x};
    forall b {:trigger PluggedAt(ram2, b)} | b in bs && b < size
      ensures PluggedAt(ram2, b)
    {
      if b != x {
        assert StepAt(ram, blocks, b);
        if b != p && ram[b].next != p { assert PluggedAt(ram, b); }
      }
    }
  }

  lemma InsertUsedBelow(ram: Ram, blocks: set<int>, size: int, p: int, x: int, l: int)
    requires blocks <= ram.Keys && p in blocks && ram[p].next in blocks && x !in blocks
    requires UsedBelow(ram, blocks, l)
    ensures UsedBelow(Insert(ram, size, p, x), blocks + {x}, if x < l then x else l)
  {
    var ram2, bs, l2 := Insert(ram, size, p, x), blocks + {x}, if x < l then x else l;
    forall b {:trigger UsedAt(ram2, b)} | b in bs && b < l2
      ensures UsedAt(ram2, b)
    {
      assert UsedAt(ram, b);
    }
  }

  // ---------- Changing the use flag of block x ----------

  function Mark(ram: Ram, x: int, u: bool): (ram2: Ram)
    requires x in ram
  {
    ram[x := ram[x].(used := u)]
  }

  lemma MarkChain(ram: Ram, blocks: set<int>, size: int, x: int, u: bool)
    requires Chain(ram, blocks, size) && x in blocks && x < size
    ensures Chain(Mark(ram, x, u), blocks, size)
  {
    var ram2 := Mark(ram, x, u);
    forall b {:trigger StepAt(ram2, blocks, b)} | b in blocks && b < size
      ensures StepAt(ram2, blocks, b)
    {
      assert StepAt(ram, blocks, b);
    }
    forall b, c {:trigger OrderAt(ram2, b, c)} | b in blocks && c in blocks
      ensures OrderAt(ram2, b, c)
    {
      assert OrderAt(ram, b, c);
    }
    forall b {:trigger PrevAt(ram2, blocks, b)} | b in blocks && 0 < b < size
      ensures PrevAt(ram2, blocks, b)
    {
      assert PrevAt(ram, blocks, b);
    }
  }

  lemma MarkLive(ram: Ram, blocks: set<int>, size: int, x: int, u: bool)
    requires blocks <= ram.Keys && x in blocks && x < size
    ensures Live(Mark(ram, x, u), blocks, size) ==
            if u then Live(ram, blocks, size)[x := ram[x].next] else Live(ram, blocks, size) - {x}
  {
  }

  lemma MarkPlugged(ram: Ram, blocks: set<int>, size: int, x: int, u: bool)
    requires blocks <= ram.Keys && x in blocks
    requires Plugged(ram, blocks, size)
    ensures PluggedExcept(Mark(ram, x, u), blocks, size, x)
    ensures u ==> Plugged(Mark(ram, x, u), blocks, size)
  {
    var ram2 := Mark(ram, x, u);
    forall b {:trigger PluggedAt(ram2, b)} | b in blocks && b < size && (u || (b != x && ram[b].next != x))
      ensures PluggedAt(ram2, b)
    {
      assert PluggedAt(ram, b);
    }
  }

  lemma MarkUsedBelow(ram: Ram, blocks: set<int>, x: int, u: bool, l: int)
    requires blocks <= ram.Keys && x in blocks
    requires UsedBelow(ram, blocks, l)
    ensures UsedBelow(Mark(ram, x, u), blocks, if !u && x < l then x else l)
  {
    var ram2, l2 := Mark(ram, x, u), if !u && x < l then x else l;
    forall b {:trigger UsedAt(ram2, b)} | b in blocks && b < l2
      ensures UsedAt(ram2, b)
    {
      assert UsedAt(ram, b);
    }
  }

  /** Once the neighbours of `x` are in use, no two free blocks are neighbours. */
  lemma FinishPlug(ram: Ram, blocks: set<int>, size: int, x: int)
    requires Chain(ram, blocks, size) && x in blocks && x < size
    requires PluggedExcept(ram, blocks, size, x)
    requires ram[x].next in ram && ram[ram[x].next].used
    requires x != 0 ==> ram[x].prev in ram && ram[ram[x].prev].used
    ensures Plugged(ram, blocks, size)
  {
    forall b {:trigger PluggedAt(ram, b)} | b in blocks && b < size
      ensures PluggedAt(ram, b)
    {
      assert StepAt(ram, blocks, b);
      if ram[b].next == x {
        assert PrevAt(ram, blocks, x);
        var q := ram[x].prev;
        assert OrderAt(ram, b, q) && OrderAt(ram, q, b) && StepAt(ram, blocks, q);
      }
    }
  }

  // ---------- The operations ----------

  /** Putting the free block `x` in use. */
  lemma ClaimEffect(ram: Ram, blocks: set<int>, size: int, l: int, x: int)
    requires Chain(ram, blocks, size) && Plugged(ram, blocks, size) && UsedBelow(ram, blocks, l)
    requires x in blocks && x < size && !ram[x].used
    ensures ram[x].next in blocks && ram[x].next != x && ram[ram[x].next].used
    ensures var ram2 := Mark(ram, x, true);
            && Chain(ram2, blocks, size) && Plugged(ram2, blocks, size)
            && PluggedExcept(ram2, blocks, size, x) && UsedBelow(ram2, blocks, l)
            && Live(ram2, blocks, size) == Live(ram, blocks, size)[x := ram[x].next]
  {
    assert StepAt(ram, blocks, x) && PluggedAt(ram, x);
    MarkChain(ram, blocks, size, x, true);
    MarkLive(ram, blocks, size, x, true);
    MarkPlugged(ram, blocks, size, x, true);
    MarkUsedBelow(ram, blocks, x, true, l);
  }

  lemma MergeEffect(ram: Ram, blocks: set<int>, size: int, l: int, p: int, x: int, e: int)
    requires Chain(ram, blocks, size) && Lowest(ram, blocks, size, l)
    requires p in blocks && x in blocks && p < x < size && ram[p].next == x
    requires !ram[p].used && !ram[x].used
    requires PluggedExcept(ram, blocks, size, e) && (e == p || e == x)
    ensures ram[x].next in blocks && l != x
    ensures var ram2, bs := Unlink(ram, p, x), blocks - {x};
            && Chain(ram2, bs, size) && Lowest(ram2, bs, size, l)
            && PluggedExcept(ram2, bs, size, p)
            && Live(ram2, bs, size) == Live(ram, blocks, size)
  {
    UnlinkChain(ram, blocks, size, p, x);
    UnlinkLive(ram, blocks, size, p, x);
    UnlinkPlugged(ram, blocks, size, p, x, e);
    UnlinkUsedBelow(ram, blocks, size, p, x, l);
    assert !UsedAt(ram, p);
  }

  lemma SplitEffect(ram: Ram, blocks: set<int>, size: int, l: int, p: int, x: int)
    requires Chain(ram, blocks, size) && UsedBelow(ram, blocks, l)
    requires p in blocks && p < size && ram[p].used && ram[p].next in blocks && ram[ram[p].next].used
    requires p + HDR + MIN <= x && x + HDR + MIN <= ram[p].next && x % 4 == 0
    requires PluggedExcept(ram, blocks, size, p)
    ensures x !in blocks
    ensures var ram2, bs := Insert(ram, size, p, x), blocks + {x};
            && Chain(ram2, bs, size) && Plugged(ram2, bs, size)
            && UsedBelow(ram2, bs, if x < l then x else l)
            && Live(ram2, bs, size) == Live(ram, blocks, size)[p := x]
  {
    InsertChain(ram, blocks, size, p, x);
    InsertLive(ram, blocks, size, p, x);
    InsertPlugged(ram, blocks, size, p, x);
    InsertUsedBelow(ram, blocks, size, p, x, l);
  }

  /** The `prev` of the end marker is not constrained. */
  lemma EndPrevFree(ram: Ram, blocks: set<int>, size: int, l: int, v: int)
    requires Chain(ram, blocks, size) && Plugged(ram, blocks, size) && UsedBelow(ram, blocks, l)
    ensures var ram2 := ram[size := ram[size].(prev := v)];
            && Chain(ram2, blocks, size) && Plugged(ram2, blocks, size) && UsedBelow(ram2, blocks, l)
            && Live(ram2, blocks, size) == Live(ram, blocks, size)
  {
    var ram2 := ram[size := ram[size].(prev := v)];
    forall b {:trigger StepAt(ram2, blocks, b)} {:trigger PluggedAt(ram2, b)} | b in blocks && b < size
      ensures StepAt(ram2, blocks, b) && PluggedAt(ram2, b)
    {
      assert StepAt(ram, blocks, b) && PluggedAt(ram, b);
    }
    forall b, c {:trigger OrderAt(ram2, b, c)} | b in blocks && c in blocks
      ensures OrderAt(ram2, b, c)
    {
      assert OrderAt(ram, b, c);
    }
    forall b {:trigger PrevAt(ram2, blocks, b)} | b in blocks && 0 < b < size
      ensures PrevAt(ram2, blocks, b)
    {
      assert PrevAt(ram, blocks, b);
    }
    forall b {:trigger UsedAt(ram2, b)} | b in blocks && b < l
      ensures UsedAt(ram2, b)
    {
      assert UsedAt(ram, b);
    }
  }

  /** The header writes of mem_realloc that move the free block `x` after `p` down to `y`. */
  function Move(ram: Ram, size: int, p: int, x: int, y: int): (ram2: Ram)
    requires p in ram && x in ram && ram[x].next in ram && y != p
  {
    var after := ram[x].next;
    var ram1 := ram[y := Mem(after, p, false)][p := ram[p].(next := y)];
    if after != size then ram1[after := ram1[after].(prev := y)] else ram1
  }

  lemma MoveEffect(ram: Ram, blocks: set<int>, size: int, l: int, p: int, x: int, y: int)
    requires Chain(ram, blocks, size) && Plugged(ram, blocks, size) && Lowest(ram, blocks, size, l)
    requires p in blocks && x in blocks && x < size && ram[p].next == x && ram[p].used && !ram[x].used
    requires p + HDR + MIN <= y < x && y % 4 == 0
    ensures y !in blocks && ram[x].next in blocks
    ensures var ram2, bs, l2 := Move(ram, size, p, x, y), blocks - {x} + {y}, if l == x then y else l;
            && Chain(ram2, bs, size) && Plugged(ram2, bs, size) && Lowest(ram2, bs, size, l2)
            && Live(ram2, bs, size) == Live(ram, blocks, size)[p := y]
  {
    assert StepAt(ram, blocks, p) && StepAt(ram, blocks, x) && PluggedAt(ram, x);
    assert !OrderAt(ram, p, y);
    var after := ram[x].next;
    var ram1, bs1, l1 := Unlink(ram, p, x), blocks - {x}, if l == x then after else l;
    UnlinkChain(ram, blocks, size, p, x);
    UnlinkLive(ram, blocks, size, p, x);
    assert PluggedExcept(ram, blocks, size, p);
    UnlinkPlugged(ram, blocks, size, p, x, p);
    UnlinkUsedBelow(ram, blocks, size, p, x, l);
    SplitEffect(ram1, bs1, size, l1, p, y);
    assert !UsedAt(ram, x);
    assert l <= x && (l < x ==> l <= p) by { assert OrderAt(ram, p, l); }
    var ram2 := Insert(ram1, size, p, y);
    if after == size {
      EndPrevFree(ram2, bs1 + {y}, size, if y < l1 then y else l1, ram[size].prev);
      assert Move(ram, size, p, x, y) == ram2[size := ram2[size].(prev := ram[size].prev)];
    } else {
      assert Move(ram, size, p, x, y) == ram2;
    }
  }

  lemma FreeOutside(ram: Ram, blocks: set<int>, size: int, p: int)
    requires Chain(ram, blocks, size)
    requires p < 0 || size <= p
    ensures p - HDR !in Live(ram, blocks, size)
  {
    var b := p - HDR;
    assert StepAt(ram, blocks, b) <==> b in ram && ram[b].next in blocks && p + MIN <= ram[b].next;
  }

  lemma SkipUsed(ram: Ram, blocks: set<int>, size: int, n: int, l: int)
    requires blocks <= ram.Keys && UsedBelow(ram, blocks, l)
    ensures forall c {:trigger Fits(ram, blocks, size, c, n)} :: Fits(ram, blocks, size, c, n) ==> l <= c
  {
    forall c {:trigger Fits(ram, blocks, size, c, n)} | Fits(ram, blocks, size, c, n)
      ensures l <= c
    {
      assert !UsedAt(ram, c);
    }
  }

  lemma SkipOne(ram: Ram, blocks: set<int>, size: int, n: int, b: int)
    requires Chain(ram, blocks, size) && b in blocks && b < size && !Fits(ram, blocks, size, b, n)
    requires forall c {:trigger Fits(ram, blocks, size, c, n)} :: Fits(ram, blocks, size, c, n) ==> b <= c
    ensures forall c {:trigger Fits(ram, blocks, size, c, n)} :: Fits(ram, blocks, size, c, n) ==> ram[b].next <= c
  {
    forall c {:trigger Fits(ram, blocks, size, c, n)} | Fits(ram, blocks, size, c, n)
      ensures ram[b].next <= c
    {
      assert OrderAt(ram, b, c);
    }
  }

  /** The loop bound of mem_malloc excludes no block with room. */
  lemma NothingFits(ram: Ram, blocks: set<int>, size: int, n: int, b: int)
    requires Chain(ram, blocks, size) && 0 <= n && size - n <= b
    requires n <= size ==> forall c {:trigger Fits(ram, blocks, size, c, n)} :: Fits(ram, blocks, size, c, n) ==> b <= c
    ensures forall c {:trigger Fits(ram, blocks, size, c, n)} :: !Fits(ram, blocks, size, c, n)
  {
    forall c {:trigger Fits(ram, blocks, size, c, n)} | true
      ensures !Fits(ram, blocks, size, c, n)
    {
      assert StepAt(ram, blocks, c) ==> c in ram && ram[c].next in blocks;
    }
  }

  lemma UsedBelowNext(ram: Ram, blocks: set<int>, size: int, l: int)
    requires Chain(ram, blocks, size) && UsedBelow(ram, blocks, l) && l < size && ram[l].used
    ensures UsedBelow(ram, blocks, ram[l].next)
  {
    assert StepAt(ram, blocks, l);
    forall b {:trigger UsedAt(ram, b)} | b in blocks && b < ram[l].next
      ensures UsedAt(ram, b)
    {
      assert OrderAt(ram, l, b);
    }
  }

  lemma ShrinkBound(ram: Ram, blocks: set<int>, size: int, p: Pointer)
    requires Chain(ram, blocks, size)
    ensures p.At? && p.offset - HDR in Live(ram, blocks, size) ==>
              Live(ram, blocks, size)[p.offset - HDR] <= size && HDR <= p.offset
  {
    if p.At? {
      var b := p.offset - HDR;
      assert StepAt(ram, blocks, b) <==> b in ram && ram[b].next in blocks && b + HDR + MIN <= ram[b].next;
    }
  }

  // ---------- What a caller sees: the live allocations alone ----------

  ghost predicate ApartAt(a: map<int, int>, x: int, len: int, b: int) {
    b in a ==> a[b] <= x || x + len <= b
  }

  /** No live allocation reaches into the `len` bytes from `x`. */
  ghost predicate Open(a: map<int, int>, size: int, x: int, len: int) {
    0 <= x && x + len <= size && forall b {:trigger ApartAt(a, x, len, b)} :: ApartAt(a, x, len, b)
  }

  /** An allocation of `want` bytes at `b` ends right behind them if another block of the least
      size has room there; otherwise where the next live allocation or the heap ends the room. */
  ghost predicate EndsAt(a: map<int, int>, size: int, b: int, want: int, end: int) {
    if Open(a, size, b, HDR + want + HDR + MIN) then end == b + HDR + want
    else b < end && (end == size || end in a) && Open(a, size, b, end - b)
  }

  /** mem_malloc: null exactly for size 0 or if no gap between the live allocations has room for
      a header and the aligned size; otherwise the lowest place that has. */
  ghost predicate Mallocs(a: map<int, int>, size: int, n: int, p: Pointer, a2: map<int, int>)
    requires 0 <= n
  {
    var room := HDR + BlockSize(n);
    if p.Null? then
      a2 == a && (n == 0 || forall x {:trigger Open(a, size, x, room)} :: !Open(a, size, x, room))
    else
      var b := p.offset - HDR;
      && n != 0 && Open(a, size, b, room) && b !in a && b in a2
      && (forall x {:trigger Open(a, size, x, room)} :: Open(a, size, x, room) ==> b <= x)
      && a2 == a[b := a2[b]] && EndsAt(a, size, b, BlockSize(n), a2[b])
  }

  ghost predicate NonemptyAt(a: map<int, int>, b: int) { b in a ==> b < a[b] }

  /** What mem_malloc does depends on nothing but the live allocations. */
  lemma MallocDetermined(a: map<int, int>, size: int, n: int, p: Pointer, a2: map<int, int>, q: Pointer,
                         a3: map<int, int>)
    requires 0 <= n && forall b {:trigger NonemptyAt(a, b)} :: NonemptyAt(a, b)
    requires Mallocs(a, size, n, p, a2) && Mallocs(a, size, n, q, a3)
    ensures p == q && a2 == a3
  {
    if p.At? && q.At? {
      var b := p.offset - HDR;
      var e, f := a2[b], a3[b];
      assert ApartAt(a, b, e - b, f) && ApartAt(a, b, f - b, e) && NonemptyAt(a, e) && NonemptyAt(a, f);
    }
  }

  /** mem_free undoes mem_malloc: the next request of that size gets the same place again. */
  lemma FreeUndoesMalloc(a: map<int, int>, size: int, n: int, p: Pointer, a2: map<int, int>)
    requires 0 <= n && p.At? && Mallocs(a, size, n, p, a2)
    ensures a2 - {p.offset - HDR} == a && Mallocs(a2 - {p.offset - HDR}, size, n, p, a2)
  {
    assert a2 - {p.offset - HDR} == a;
  }

  /** What mem_malloc leaves of the room it found can be allocated. */
  lemma MallocTwice(a: map<int, int>, size: int, n: int, p: Pointer, a2: map<int, int>, m: int, q: Pointer,
                    a3: map<int, int>)
    requires 0 <= n && 0 < m && p.At? && Mallocs(a, size, n, p, a2) && Mallocs(a2, size, m, q, a3)
    requires Open(a, size, p.offset - HDR, HDR + BlockSize(n) + HDR + BlockSize(m))
    ensures q.At?
  {
    var b, x := p.offset - HDR, p.offset + BlockSize(n);
    OpenLess(a, size, b, HDR + BlockSize(n) + HDR + BlockSize(m), HDR + BlockSize(n) + HDR + MIN);
    forall c {:trigger ApartAt(a2, x, HDR + BlockSize(m), c)} | true
      ensures ApartAt(a2, x, HDR + BlockSize(m), c)
    {
      assert ApartAt(a, b, HDR + BlockSize(n) + HDR + BlockSize(m), c);
    }
    assert Open(a2, size, x, HDR + BlockSize(m));
  }

  lemma OpenLess(a: map<int, int>, size: int, x: int, len: int, less: int)
    requires Open(a, size, x, len) && less <= len
    ensures Open(a, size, x, less)
  {
    forall b {:trigger ApartAt(a, x, less, b)} | true
      ensures ApartAt(a, x, less, b)
    {
      assert ApartAt(a, x, len, b);
    }
  }

  /** A free block is open. */
  lemma FreeOpen(ram: Ram, blocks: set<int>, size: int, b: int)
    requires Chain(ram, blocks, size) && b in blocks && b < size && !ram[b].used
    ensures Open(Live(ram, blocks, size), size, b, ram[b].next - b)
  {
    var a := Live(ram, blocks, size);
    assert StepAt(ram, blocks, b);
    forall c {:trigger ApartAt(a, b, ram[b].next - b, c)} | true
      ensures ApartAt(a, b, ram[b].next - b, c)
    {
      if c in a { assert OrderAt(ram, b, c) && OrderAt(ram, c, b); }
    }
  }

  /** Whatever is open lies in one free block, for the block after a free one is in use. */
  lemma OpenFree(ram: Ram, blocks: set<int>, size: int, x: int, len: int) returns (b: int)
    requires Chain(ram, blocks, size) && Plugged(ram, blocks, size)
    requires Open(Live(ram, blocks, size), size, x, len) && 0 < len
    ensures b in blocks && b < size && !ram[b].used && b <= x && x + len <= ram[b].next
  {
    var a := Live(ram, blocks, size);
    b := Tiles(ram, blocks, size, x);
    assert StepAt(ram, blocks, b) && PluggedAt(ram, b);
    assert ApartAt(a, x, len, b) && ApartAt(a, x, len, ram[b].next);
    assert ram[b].next < size ==> StepAt(ram, blocks, ram[b].next);
  }

  /** First fit over the blocks is the lowest open place for a header and `want` bytes. */
  lemma FitsOpen(ram: Ram, blocks: set<int>, size: int, want: int, room: int)
    requires Chain(ram, blocks, size) && Plugged(ram, blocks, size) && 0 <= want && room == HDR + want
    ensures forall b {:trigger Fits(ram, blocks, size, b, want)} ::
              Fits(ram, blocks, size, b, want) ==> Open(Live(ram, blocks, size), size, b, room)
    ensures forall x {:trigger Open(Live(ram, blocks, size), size, x, room)} ::
              Open(Live(ram, blocks, size), size, x, room) ==>
                exists b {:trigger Fits(ram, blocks, size, b, want)} :: b <= x && Fits(ram, blocks, size, b, want)
  {
    var a := Live(ram, blocks, size);
    forall b {:trigger Fits(ram, blocks, size, b, want)} | Fits(ram, blocks, size, b, want)
      ensures Open(a, size, b, room)
    {
      FreeOpen(ram, blocks, size, b);
      OpenLess(a, size, b, ram[b].next - b, room);
    }
    forall x {:trigger Open(a, size, x, room)} | Open(a, size, x, room)
      ensures exists b {:trigger Fits(ram, blocks, size, b, want)} :: b <= x && Fits(ram, blocks, size, b, want)
    {
      var b := OpenFree(ram, blocks, size, x, room);
      assert Fits(ram, blocks, size, b, want);
    }
  }

  /** The block is split if the room behind the taken bytes is open. */
  lemma TakenEnds(ram: Ram, blocks: set<int>, size: int, b: int, want: int)
    requires Chain(ram, blocks, size) && Plugged(ram, blocks, size) && 0 <= want
    requires b in blocks && b < size && !ram[b].used && b + HDR + want <= ram[b].next
    ensures EndsAt(Live(ram, blocks, size), size, b, want,
                   if ram[b].next - (b + HDR) >= want + HDR + MIN then b + HDR + want else ram[b].next)
  {
    var a, more := Live(ram, blocks, size), HDR + want + HDR + MIN;
    FreeOpen(ram, blocks, size, b);
    assert StepAt(ram, blocks, b) && PluggedAt(ram, b);
    if ram[b].next - b >= more {
      OpenLess(a, size, b, ram[b].next - b, more);
    } else if Open(a, size, b, more) {
      OpenWithin(ram, blocks, size, b, more);
    }
  }

  lemma OpenWithin(ram: Ram, blocks: set<int>, size: int, b: int, len: int)
    requires Chain(ram, blocks, size) && Plugged(ram, blocks, size) && b in blocks && 0 < len
    requires Open(Live(ram, blocks, size), size, b, len)
    ensures b + len <= ram[b].next
  {
    var c := OpenFree(ram, blocks, size, b, len);
    assert OrderAt(ram, c, b);
  }

  lemma NoFitMallocs(ram: Ram, blocks: set<int>, size: int, n: int)
    requires Chain(ram, blocks, size) && Plugged(ram, blocks, size) && 0 <= n
    requires forall b {:trigger Fits(ram, blocks, size, b, BlockSize(n))} :: !Fits(ram, blocks, size, b, BlockSize(n))
    ensures Mallocs(Live(ram, blocks, size), size, n, Null, Live(ram, blocks, size))
  {
    FitsOpen(ram, blocks, size, BlockSize(n), HDR + BlockSize(n));
  }

  lemma FirstFitMallocs(ram: Ram, blocks: set<int>, size: int, b: int, n: int, a2: map<int, int>)
    requires Chain(ram, blocks, size) && Plugged(ram, blocks, size) && 0 < n
    requires FirstFit(ram, blocks, size, b, BlockSize(n))
    requires a2 == Live(ram, blocks, size)[b :=
               if ram[b].next - (b + HDR) >= BlockSize(n) + HDR + MIN then b + HDR + BlockSize(n) else ram[b].next]
    ensures Mallocs(Live(ram, blocks, size), size, n, At(b + HDR), a2)
  {
    FitsOpen(ram, blocks, size, BlockSize(n), HDR + BlockSize(n));
    TakenEnds(ram, blocks, size, b, BlockSize(n));
  }

  /** What mem_free and mem_realloc may be handed: null, a pointer outside the heap, or the
      data of a live allocation. */
  ghost predicate Passable(ram: Ram, blocks: set<int>, size: int, p: Pointer)
    requires blocks <= ram.Keys
  {
    p.Null? || p.offset < 0 || size <= p.offset || p.offset - HDR in Live(ram, blocks, size)
  }

  class Heap {
    const size: int
    var ram: Ram
    var lfree: int
    ghost var blocks: set<int>

    ghost predicate Valid()
      reads this
    {
      && Chain(ram, blocks, size)
      && Plugged(ram, blocks, size)
      && Lowest(ram, blocks, size, lfree)
    }

    ghost function Allocs(): map<int, int>
      requires blocks <= ram.Keys
      reads this
    {
      Live(ram, blocks, size)
    }

    /** mem_init */
    constructor (n: int)
      requires n % 4 == 0 && HDR + MIN <= n
      ensures Valid() && size == n && Allocs() == map[]
    {
      size := n;
      ram := map[0 := Mem(n, 0, false), n := Mem(n, n, true)];
      lfree := 0;
      blocks := {0, n};
    }

    /** One half of plug_holes: the free block `x` joins the free block `p` before it.
        `e` is the block that may have free neighbours on entry. */
    method Merge(p: int, x: int, ghost e: int)
      requires Chain(ram, blocks, size) && Lowest(ram, blocks, size, lfree)
      requires p in blocks && x in blocks && p < x < size && ram[p].next == x
      requires !ram[p].used && !ram[x].used
      requires PluggedExcept(ram, blocks, size, e) && (e == p || e == x)
      modifies this
      ensures x in old(ram) && old(ram)[x].next in old(ram) && ram == Unlink(old(ram), p, x)
      ensures blocks == old(blocks) - {x}
      ensures Chain(ram, blocks, size) && Lowest(ram, blocks, size, lfree)
      ensures PluggedExcept(ram, blocks, size, p)
      ensures Allocs() == old(Allocs())
    {
      MergeEffect(ram, blocks, size, lfree, p, x, e);
      lfree := if lfree == x then p else lfree;
      var after := ram[x].next;
      ram := ram[p := ram[p].(next := after)];
      ram := ram[after := ram[after].(prev := p)];
      blocks := blocks - {x};
    }

    /** plug_holes */
    method PlugHoles(mem: int)
      requires Chain(ram, blocks, size) && Lowest(ram, blocks, size, lfree)
      requires mem in blocks && mem < size && !ram[mem].used
      requires PluggedExcept(ram, blocks, size, mem)
      modifies this
      ensures Valid() && Allocs() == old(Allocs())
    {
      assert StepAt(ram, blocks, mem);
      var nmem := ram[mem].next;
      if mem != nmem && !ram[nmem].used && nmem != size {
        assert StepAt(ram, blocks, nmem) && PluggedAt(ram, nmem);
        Merge(mem, nmem, mem);
      }
      assert ram[mem].next in blocks && ram[ram[mem].next].used;
      var pmem := ram[mem].prev;
      assert mem != 0 ==> PrevAt(ram, blocks, mem);
      if pmem != mem && !ram[pmem].used {
        assert pmem != 0 ==> PrevAt(ram, blocks, pmem) && PluggedAt(ram, ram[pmem].prev);
        Merge(pmem, mem, mem);
        FinishPlug(ram, blocks, size, pmem);
      } else {
        FinishPlug(ram, blocks, size, mem);
      }
    }

    /** mem_free */
    method Free(rmem: Pointer)
      requires Valid() && Passable(ram, blocks, size, rmem)
      modifies this
      ensures Valid()
      ensures Allocs() == if rmem.Null? then old(Allocs()) else old(Allocs()) - {rmem.offset - HDR}
    {
      if rmem.Null? {
        return;
      }
      if rmem.offset < 0 || size <= rmem.offset {
        FreeOutside(ram, blocks, size, rmem.offset);
        return;
      }
      var mem := rmem.offset - HDR;
      MarkChain(ram, blocks, size, mem, false);
      MarkLive(ram, blocks, size, mem, false);
      MarkPlugged(ram, blocks, size, mem, false);
      MarkUsedBelow(ram, blocks, mem, false, lfree);
      ram := ram[mem := ram[mem].(used := false)];
      if mem < lfree {
        lfree := mem;
      }
      PlugHoles(mem);
    }

    /** The header writes that cut the free block `x` out of the tail of block `p`. */
    method Split(p: int, x: int)
      requires Chain(ram, blocks, size) && UsedBelow(ram, blocks, lfree)
      requires p in blocks && p < size && ram[p].used
      requires ram[p].next in blocks && ram[ram[p].next].used
      requires p + HDR + MIN <= x && x + HDR + MIN <= ram[p].next && x % 4 == 0
      requires PluggedExcept(ram, blocks, size, p)
      modifies this`ram, this`blocks
      ensures x !in old(blocks) && blocks == old(blocks) + {x}
      ensures ram == Insert(old(ram), size, p, x)
      ensures Chain(ram, blocks, size) && Plugged(ram, blocks, size)
      ensures UsedBelow(ram, blocks, if x < lfree then x else lfree)
      ensures Allocs() == old(Allocs())[p := x]
    {
      SplitEffect(ram, blocks, size, lfree, p, x);
      var after := ram[p].next;
      ram := ram[x := Mem(after, p, false)];
      ram := ram[p := ram[p].(next := x)];
      if after != size {
        ram := ram[after := ram[after].(prev := x)];
      }
      blocks := blocks + {x};
    }

    /** The part of mem_realloc that moves the free block after `mem` down to `ptr2`. */
    method MoveDown(mem: int, mem2: int, ptr2: int)
      requires Valid()
      requires mem in blocks && mem2 in blocks && mem2 < size && ram[mem].next == mem2
      requires ram[mem].used && !ram[mem2].used
      requires mem + HDR + MIN <= ptr2 < mem2 && ptr2 % 4 == 0
      modifies this
      ensures Valid()
      ensures Allocs() == old(Allocs())[mem := ptr2]
    {
      MoveEffect(ram, blocks, size, lfree, mem, mem2, ptr2);
      var next := ram[mem2].next;
      if lfree == mem2 {
        lfree := ptr2;
      }
      ram := ram[ptr2 := Mem(next, mem, false)];
      ram := ram[mem := ram[mem].(next := ptr2)];
      if next != size {
        ram := ram[next := ram[next].(prev := ptr2)];
      }
      blocks := blocks - {mem2} + {ptr2};
    }

    /** mem_realloc, which only ever shrinks.  A null result means that the block was too
        small and nothing changed; otherwise the block keeps its place and at least the
        asked size, and gives the rest back when the next block is free or the rest can
        hold a block of its own. */
    method Realloc(rmem: Pointer, n: int) returns (p: Pointer)
      requires Valid() && Passable(ram, blocks, size, rmem) && 0 <= n
      modifies this
      ensures Valid() && (p == rmem || p == Null)
      ensures rmem.At? && rmem.offset - HDR in old(Allocs()) ==>
                var b, end := rmem.offset - HDR, rmem.offset + BlockSize(n);
                var old_end := old(Allocs())[b];
                && (p.Null? <==> end > old_end)
                && Allocs() == old(Allocs())[b :=
                     if end <= old_end && (end + HDR + MIN <= old_end || (old_end < size && old_end !in old(Allocs())))
                     then end else old_end]
      ensures p.Null? || rmem.offset - HDR !in old(Allocs()) ==> Allocs() == old(Allocs())
    {
      var want := BlockSize(n);
      if size < want {
        ShrinkBound(ram, blocks, size, rmem);
        return Null;
      }
      if rmem.Null? || rmem.offset < 0 || size <= rmem.offset {
        if rmem.At? { FreeOutside(ram, blocks, size, rmem.offset); }
        return rmem;
      }
      var mem := rmem.offset - HDR;
      assert StepAt(ram, blocks, mem);
      var have := ram[mem].next - mem - HDR;
      if want > have {
        return Null;
      }
      if want < have {
        Shrink(mem, mem + HDR + want);
      }
      return rmem;
    }

    /** The part of mem_realloc that ends the block at `ptr2`, where the rest can be given back. */
    method Shrink(mem: int, ptr2: int)
      requires Valid() && mem in Allocs() && mem + HDR + MIN <= ptr2 < ram[mem].next && ptr2 % 4 == 0
      requires ram[mem].next in blocks
      modifies this
      ensures Valid()
      ensures var end := old(ram)[mem].next;
              Allocs() == old(Allocs())[mem :=
                if ptr2 + HDR + MIN <= end || (end < size && end !in old(Allocs())) then ptr2 else end]
    {
      var mem2 := ram[mem].next;
      if !ram[mem2].used {
        MoveDown(mem, mem2, ptr2);
      } else if ptr2 + HDR + MIN <= mem2 {
        SplitOff(mem, ptr2);
      } else {
        assert Allocs()[mem] == mem2;
      }
    }

    method SplitOff(mem: int, ptr2: int)
      requires Valid() && mem in Allocs() && mem + HDR + MIN <= ptr2 && ptr2 % 4 == 0
      requires ram[mem].next in blocks && ram[ram[mem].next].used && ptr2 + HDR + MIN <= ram[mem].next
      modifies this
      ensures Valid() && Allocs() == old(Allocs())[mem := ptr2]
    {
      Split(mem, ptr2);
      if ptr2 < lfree {
        lfree := ptr2;
      }
    }

    /** mem_malloc: first fit from `lfree`, then the hint moves on if its block was taken.
        The scan from the hint picks what first fit from the start of the heap would. */
    method Malloc(n: int) returns (p: Pointer)
      requires Valid() && 0 <= n
      modifies this
      ensures Valid()
      ensures p.Null? ==> ram == old(ram) && blocks == old(blocks) && lfree == old(lfree)
      ensures Mallocs(old(Allocs()), size, n, p, Allocs()) && (p.At? ==> p.offset % 4 == 0)
    {
      if n == 0 {
        return Null;
      }
      var want := BlockSize(n);
      if size < want {
        NothingFits(ram, blocks, size, want, size);
        NoFitMallocs(ram, blocks, size, n);
        return Null;
      }
      var ptr := Scan(want);
      if ptr >= size - want {
        NothingFits(ram, blocks, size, want, ptr);
        NoFitMallocs(ram, blocks, size, n);
        return Null;
      }
      Take(ptr, want);
      FirstFitMallocs(old(ram), old(blocks), size, ptr, n, Allocs());
      return At(ptr + HDR);
    }

    /** The search loop of mem_malloc: it stops at the first free block with room, or at
        the loop bound. */
    method Scan(want: int) returns (ptr: int)
      requires Valid() && MIN <= want <= size
      ensures ptr in blocks && lfree <= ptr
      ensures ptr < size - want ==> FirstFit(ram, blocks, size, ptr, want)
      ensures forall c {:trigger Fits(ram, blocks, size, c, want)} :: Fits(ram, blocks, size, c, want) ==> ptr <= c
    {
      ptr := lfree;
      SkipUsed(ram, blocks, size, want, lfree);
      while ptr < size - want
        invariant ptr in blocks && lfree <= ptr
        invariant forall c {:trigger Fits(ram, blocks, size, c, want)} :: Fits(ram, blocks, size, c, want) ==> ptr <= c
        decreases size - ptr
      {
        assert StepAt(ram, blocks, ptr);
        if !ram[ptr].used && ram[ptr].next - (ptr + HDR) >= want {
          assert Fits(ram, blocks, size, ptr, want);
          return;
        }
        SkipOne(ram, blocks, size, want, ptr);
        ptr := ram[ptr].next;
      }
    }

    /** The part of mem_malloc that claims the free block `mem` for `want` bytes. */
    method Take(mem: int, want: int)
      requires Valid() && mem in blocks && mem < size && !ram[mem].used && lfree <= mem
      requires MIN <= want && want % 4 == 0 && mem + HDR + want <= ram[mem].next
      modifies this
      ensures Valid()
      ensures mem !in old(Allocs())
      ensures Allocs() == old(Allocs())[mem :=
                if old(ram)[mem].next - (mem + HDR) >= want + HDR + MIN then mem + HDR + want else old(ram)[mem].next]
    {
      Cut(mem, want);
      if mem == lfree {
        AdvanceHint();
      }
    }

    /** The block is marked as used and split if the rest can hold a block of its own; the hint
        still stands at or before it. */
    method Cut(mem: int, want: int)
      requires Valid() && mem in blocks && mem < size && !ram[mem].used && lfree <= mem
      requires MIN <= want && want % 4 == 0 && mem + HDR + want <= ram[mem].next
      modifies this`ram, this`blocks
      ensures Chain(ram, blocks, size) && Plugged(ram, blocks, size) && UsedBelow(ram, blocks, lfree)
      ensures lfree != mem ==> Lowest(ram, blocks, size, lfree)
      ensures mem !in old(Allocs())
      ensures Allocs() == old(Allocs())[mem :=
                if old(ram)[mem].next - (mem + HDR) >= want + HDR + MIN then mem + HDR + want else old(ram)[mem].next]
    {
      ClaimEffect(ram, blocks, size, lfree, mem);
      var next := ram[mem].next;
      ram := ram[mem := ram[mem].(used := true)];
      if next - (mem + HDR) >= want + HDR + MIN {
        Split(mem, mem + HDR + want);
      }
    }

    /** The loop of mem_malloc that moves the hint to the next free block. */
    method AdvanceHint()
      requires Chain(ram, blocks, size) && UsedBelow(ram, blocks, lfree)
      modifies this`lfree
      ensures Lowest(ram, blocks, size, lfree)
    {
      while ram[lfree].used && lfree != size
        invariant UsedBelow(ram, blocks, lfree)
        decreases size - lfree
      {
        assert StepAt(ram, blocks, lfree);
        UsedBelowNext(ram, blocks, size, lfree);
        lfree := ram[lfree].next;
      }
    }
  }
}
