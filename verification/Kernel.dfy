/** The physical page allocator and the page-table operations of `kern/pmap.c`, on a free
    list threaded through the page descriptors. */
module Kernel {
  import opened PageTables
  import opened EnvIds

  // ---------- The free list ----------

  /** The free pages, bottom of the list first: each links to the one below. */
  ghost predicate LinkAt(link: seq<int>, free: seq<int>, i: int) {
    0 <= i < |free| ==> 0 <= free[i] < |link| && link[free[i]] == if i == 0 then -1 else free[i - 1]
  }

  ghost predicate NoLinkAt(link: seq<int>, free: seq<int>, p: int) {
    0 <= p < |link| && p !in free ==> link[p] == -1
  }

  ghost predicate DistinctAt(free: seq<int>, i: int, j: int) {
    0 <= i < j < |free| ==> free[i] != free[j]
  }

  ghost predicate FreeList(link: seq<int>, head: int, free: seq<int>) {
    && head == (if free == [] then -1 else free[|free| - 1])
    && (forall i {:trigger LinkAt(link, free, i)} :: LinkAt(link, free, i))
    && (forall p {:trigger NoLinkAt(link, free, p)} :: NoLinkAt(link, free, p))
    && (forall i, j {:trigger DistinctAt(free, i, j)} :: DistinctAt(free, i, j))
  }

  lemma Pop(link: seq<int>, head: int, free: seq<int>)
    requires FreeList(link, head, free) && head != -1
    ensures free != [] && 0 <= head < |link| && head !in free[..|free| - 1]
    ensures FreeList(link[head := -1], link[head], free[..|free| - 1])
  {
    var link2, free2 := link[head := -1], free[..|free| - 1];
    assert LinkAt(link, free, |free| - 1);
    forall i {:trigger LinkAt(link2, free2, i)} | true
      ensures LinkAt(link2, free2, i)
    {
      assert LinkAt(link, free, i) && DistinctAt(free, i, |free| - 1);
    }
    forall p {:trigger NoLinkAt(link2, free2, p)} | true
      ensures NoLinkAt(link2, free2, p)
    {
      assert NoLinkAt(link, free, p);
      assert p in free ==> p == head || p in free2;
    }
    forall i, j {:trigger DistinctAt(free2, i, j)} | true
      ensures DistinctAt(free2, i, j)
    {
      assert DistinctAt(free, i, j);
    }
    forall k | 0 <= k < |free2|
      ensures free2[k] != head
    {
      assert DistinctAt(free, k, |free| - 1);
    }
  }

  lemma Push(link: seq<int>, head: int, free: seq<int>, p: int)
    requires FreeList(link, head, free) && 0 <= p < |link| && p !in free
    ensures FreeList(link[p := head], p, free + [p])
  {
    var link2, free2 := link[p := head], free + [p];
    forall i {:trigger LinkAt(link2, free2, i)} | true
      ensures LinkAt(link2, free2, i)
    {
      assert LinkAt(link, free, i);
      assert 0 <= i < |free| ==> free[i] in free;
    }
    forall q {:trigger NoLinkAt(link2, free2, q)} | true
      ensures NoLinkAt(link2, free2, q)
    {
      assert NoLinkAt(link, free, q);
      assert q in free ==> q in free2;
      assert free2[|free|] == p;
    }
    forall i, j {:trigger DistinctAt(free2, i, j)} | true
      ensures DistinctAt(free2, i, j)
    {
      assert DistinctAt(free, i, j);
      assert 0 <= i < |free| ==> free[i] in free;
    }
  }

  // ---------- Free pages and reference counts ----------

  /** A page is on the free list exactly when nothing refers to it and no operation in
      progress holds it. */
  ghost predicate FreeAt(ppRef: seq<int>, free: seq<int>, held: set<int>, p: int) {
    0 <= p < |ppRef| ==> (p in free <==> ppRef[p] == 0 && p !in held)
  }

  ghost predicate HeldAt(ppRef: seq<int>, held: set<int>, p: int) {
    p in held ==> 0 <= p < |ppRef| && ppRef[p] == 0
  }

  /** `pp_ref` counts the references to a page; pages the kernel took at boot keep theirs
      and are referred to by no environment. */
  ghost predicate RefAt(ppRef: seq<int>, refs: Refs, kern: set<int>, p: int) {
    0 <= p < |ppRef| && p < |refs| ==>
      if p in kern then refs[p] == {} && ppRef[p] > 0 else ppRef[p] == |refs[p]| < 65536
  }

  ghost predicate Accounted(ppRef: seq<int>, free: seq<int>, held: set<int>, refs: Refs, kern: set<int>) {
    && |ppRef| == |refs|
    && (forall p {:trigger FreeAt(ppRef, free, held, p)} :: FreeAt(ppRef, free, held, p))
    && (forall p {:trigger HeldAt(ppRef, held, p)} :: HeldAt(ppRef, held, p))
    && (forall p {:trigger RefAt(ppRef, refs, kern, p)} :: RefAt(ppRef, refs, kern, p))
  }

  lemma PopAccounted(ppRef: seq<int>, free: seq<int>, held: set<int>, refs: Refs, kern: set<int>)
    requires Accounted(ppRef, free, held, refs, kern) && free != []
    requires 0 <= free[|free| - 1] < |ppRef| && free[|free| - 1] !in free[..|free| - 1]
    ensures var p := free[|free| - 1];
            && Accounted(ppRef, free[..|free| - 1], held + {p}, refs, kern)
            && refs[p] == {} && p !in kern && p !in held
  {
    var last := free[|free| - 1];
    var free2, held2 := free[..|free| - 1], held + {last};
    assert FreeAt(ppRef, free, held, last) && RefAt(ppRef, refs, kern, last);
    forall p {:trigger FreeAt(ppRef, free2, held2, p)} | true
      ensures FreeAt(ppRef, free2, held2, p)
    {
      assert FreeAt(ppRef, free, held, p);
      assert p in free ==> p == last || p in free2;
    }
    forall p {:trigger HeldAt(ppRef, held2, p)} | true
      ensures HeldAt(ppRef, held2, p)
    {
      assert HeldAt(ppRef, held, p);
    }
  }

  lemma PushAccounted(ppRef: seq<int>, free: seq<int>, held: set<int>, refs: Refs, kern: set<int>, p: int)
    requires Accounted(ppRef, free, held, refs, kern) && p in held
    ensures Accounted(ppRef, free + [p], held - {p}, refs, kern)
  {
    var free2, held2 := free + [p], held - {p};
    forall q {:trigger FreeAt(ppRef, free2, held2, q)} | true
      ensures FreeAt(ppRef, free2, held2, q)
    {
      assert FreeAt(ppRef, free, held, q) && HeldAt(ppRef, held, p);
      assert free2[|free|] == p;
      assert q in free ==> q in free2;
    }
    forall q {:trigger HeldAt(ppRef, held2, q)} | true
      ensures HeldAt(ppRef, held2, q)
    {
      assert HeldAt(ppRef, held, q);
    }
  }

  /** Counting one more reference to a page that is in use or held. */
  lemma AddAccounted(ppRef: seq<int>, free: seq<int>, held: set<int>, refs: Refs, kern: set<int>, p: int, r: Ref)
    requires Accounted(ppRef, free, held, refs, kern)
    requires 0 <= p < |refs| && p !in kern && p !in free && r !in refs[p] && |refs[p]| < 65535
    ensures Accounted(ppRef[p := ppRef[p] + 1], free, held - {p}, refs[p := refs[p] + {r}], kern)
  {
    var ppRef2, held2, refs2 := ppRef[p := ppRef[p] + 1], held - {p}, refs[p := refs[p] + {r}];
    assert RefAt(ppRef, refs, kern, p);
    forall q {:trigger FreeAt(ppRef2, free, held2, q)} | true
      ensures FreeAt(ppRef2, free, held2, q)
    {
      assert FreeAt(ppRef, free, held, q);
    }
    forall q {:trigger HeldAt(ppRef2, held2, q)} | true
      ensures HeldAt(ppRef2, held2, q)
    {
      assert HeldAt(ppRef, held, q);
    }
    forall q {:trigger RefAt(ppRef2, refs2, kern, q)} | true
      ensures RefAt(ppRef2, refs2, kern, q)
    {
      assert RefAt(ppRef, refs, kern, q);
    }
  }

  /** Dropping a reference; a page that loses its last one is held until it is freed. */
  lemma DropAccounted(ppRef: seq<int>, free: seq<int>, held: set<int>, refs: Refs, kern: set<int>, p: int, r: Ref)
    requires Accounted(ppRef, free, held, refs, kern)
    requires 0 <= p < |refs| && r in refs[p]
    ensures ppRef[p] > 0 && p !in free && p !in held && p !in kern && ppRef[p] == |refs[p]|
    ensures var held2 := if ppRef[p] == 1 then held + {p} else held;
            Accounted(ppRef[p := ppRef[p] - 1], free, held2, refs[p := refs[p] - {r}], kern)
  {
    var ppRef2, refs2 := ppRef[p := ppRef[p] - 1], refs[p := refs[p] - {r}];
    var held2 := if ppRef[p] == 1 then held + {p} else held;
    assert RefAt(ppRef, refs, kern, p) && FreeAt(ppRef, free, held, p) && HeldAt(ppRef, held, p);
    forall q {:trigger FreeAt(ppRef2, free, held2, q)} | true
      ensures FreeAt(ppRef2, free, held2, q)
    {
      assert FreeAt(ppRef, free, held, q);
    }
    forall q {:trigger HeldAt(ppRef2, held2, q)} | true
      ensures HeldAt(ppRef2, held2, q)
    {
      assert HeldAt(ppRef, held, q);
    }
    forall q {:trigger RefAt(ppRef2, refs2, kern, q)} | true
      ensures RefAt(ppRef2, refs2, kern, q)
    {
      assert RefAt(ppRef, refs, kern, q);
    }
  }

  // ---------- What the operations do to the mappings ----------

  /** The page mapped at page number `n` of environment `e` is now `x`, and every other
      page mapping is as before. */
  ghost predicate MapsOnly(frames: Frames, dirs: Dirs, frames2: Frames, e: int, n: int, x: Entry) {
    forall e2, n2 {:trigger Look(frames2, dirs, ByPte(e2, n2))} ::
      Look(frames2, dirs, ByPte(e2, n2)) ==
      if e2 == e && n2 == n then x else Look(frames, dirs, ByPte(e2, n2))
  }

  ghost predicate MapsSame(frames: Frames, dirs: Dirs, frames2: Frames) {
    forall e, n {:trigger Look(frames2, dirs, ByPte(e, n))} ::
      Look(frames2, dirs, ByPte(e, n)) == Look(frames, dirs, ByPte(e, n))
  }

  /** A page that is neither free nor a table keeps its contents and becomes no table. */
  ghost predicate KeptAt(frames: Frames, dirs: Dirs, free: seq<int>, frames2: Frames, p: int) {
    0 <= p < |frames| && p < |frames2| && p !in free && NoTable(frames, dirs, p) ==>
      frames2[p] == frames[p] && NoTable(frames2, dirs, p)
  }

  ghost predicate Kept(frames: Frames, dirs: Dirs, free: seq<int>, frames2: Frames) {
    && |frames2| == |frames|
    && forall p {:trigger KeptAt(frames, dirs, free, frames2, p)} :: KeptAt(frames, dirs, free, frames2, p)
  }

  /** No page table or directory changed, except that of `e` for the pages of directory entry
      `d`. */
  ghost predicate TableAt(frames: Frames, dirs: Dirs, frames2: Frames, e: int, d: int, r: Ref) {
    r.ByPte? || r == ByPde(e, d) || Look(frames2, dirs, r) == Look(frames, dirs, r)
  }

  ghost predicate TablesOnly(frames: Frames, dirs: Dirs, frames2: Frames, e: int, d: int) {
    forall r {:trigger TableAt(frames, dirs, frames2, e, d, r)} :: TableAt(frames, dirs, frames2, e, d, r)
  }

  ghost predicate SlotAt(slots: Slots, dirs: Dirs, i: int) {
    (i in dirs <==> 0 <= i < 1024 && !slots[i].free) && NamedAt(slots, i)
  }

  /** The list of free environments holds exactly the free slots. */
  ghost predicate EnvFreeAt(slots: Slots, envFree: seq<int>, i: int) {
    i in envFree <==> 0 <= i < 1024 && slots[i].free
  }

  /** The kernel's own directory maps nothing below UTOP. */
  ghost predicate KernelDir(dir: seq<Entry>) {
    |dir| == 1024 && forall d {:trigger dir[d]} :: 0 <= d < NPDE ==> !dir[d].bits.p
  }

  /** No page has so many references that one more would wrap its 16-bit count. */
  ghost predicate RoomAt(refs: Refs, p: int) {
    0 <= p < |refs| ==> |refs[p]| < 65535
  }

  /** No page gains more than `c` references. */
  ghost predicate GrowAt(refs: Refs, refs2: Refs, c: int, p: int) {
    0 <= p < |refs| && p < |refs2| ==> |refs2[p]| <= |refs[p]| + c
  }

  ghost predicate Grows(refs: Refs, refs2: Refs, c: int) {
    |refs2| == |refs| && forall p {:trigger GrowAt(refs, refs2, c, p)} :: GrowAt(refs, refs2, c, p)
  }

  /** Only a free page may gain a reference. */
  ghost predicate WalkGrowAt(refs: Refs, refs2: Refs, free: seq<int>, p: int) {
    0 <= p < |refs| && p < |refs2| ==> |refs2[p]| <= |refs[p]| + if p in free then 1 else 0
  }

  lemma InsertGrows(r0: Refs, r1: Refs, r2: Refs, r3: Refs, free: seq<int>, pp: int, r: Ref)
    requires |r1| == |r0| && pp !in free
    requires forall p {:trigger WalkGrowAt(r0, r1, free, p)} :: WalkGrowAt(r0, r1, free, p)
    requires Grows(r1, r2, 0) && 0 <= pp < |r0|
    requires r3 == r2 || r3 == r2[pp := r2[pp] + {r}]
    ensures Grows(r0, r3, 1)
  {
    forall p {:trigger GrowAt(r0, r3, 1, p)} | true
      ensures GrowAt(r0, r3, 1, p)
    {
      assert WalkGrowAt(r0, r1, free, p) && GrowAt(r1, r2, 0, p);
    }
  }

  ghost function Range(lo: int, hi: int): (s: set<int>)
    ensures forall p {:trigger p in s} :: p in s <==> lo <= p < hi
    decreases hi - lo
  {
    if hi <= lo then {} else {hi - 1} + Range(lo, hi - 1)
  }

  const TABLE_BITS := NO_BITS.(p := true, u := true, w := true)

  /** The pages that are free again once page `pp` is mapped at `n`: the page that was mapped
      there, if it is another one and had no other reference. */
  ghost function GivenBack(frames: Frames, dirs: Dirs, refs: Refs, e: int, n: int, pp: int): int {
    var x := Look(frames, dirs, ByPte(e, n));
    if x.bits.p && x.page != pp && 0 <= x.page < |refs| && |refs[x.page]| == 1 then 1 else 0
  }

  class Kernel {
    const npages: int
    ghost const kern: set<int>
    var ppRef: seq<int>
    var link: seq<int>
    var head: int
    var frames: Frames
    var dirs: Dirs
    var slots: Slots
    var envFree: seq<int>
    var cur: int
    const kernDir: seq<Entry>
    ghost const lost: set<int>
    ghost var free: seq<int>
    ghost var held: set<int>
    ghost var refs: Refs

    /** The page descriptors agree with the references `refs`. */
    ghost predicate Sound()
      reads this
    {
      && |link| == |ppRef| == |frames| == npages
      && FreeList(link, head, free)
      && Accounted(ppRef, free, held, refs, kern)
    }

    /** ... and `refs` are the references that the page tables hold. */
    ghost predicate Inv()
      reads this
    {
      Sound() && Mapped(frames, dirs, refs)
    }

    /** What holds whenever no kernel operation is in progress: no page is held apart from
        the base-memory pages that boot leaves unlisted, and an environment has a page
        directory exactly while its slot is taken. */
    ghost predicate Settled()
      reads this
    {
      && Inv() && held == lost
      && (forall i {:trigger SlotAt(slots, dirs, i)} :: SlotAt(slots, dirs, i))
      && (forall i {:trigger EnvFreeAt(slots, envFree, i)} :: EnvFreeAt(slots, envFree, i))
      && (forall i, j {:trigger DistinctAt(envFree, i, j)} :: DistinctAt(envFree, i, j))
      && KernelDir(kernDir)
    }

    /** The state in which system calls are made: some environment is current. */
    ghost predicate Boundary()
      reads this
    {
      Settled() && 0 <= cur < 1024 && cur in dirs
    }

    /** mem_init, page_init and env_init: base memory up to `basemem` and everything from
        `nextfree` on is free, except page 0 and the page of the boot code for other CPUs. */
    constructor (npages: int, basemem: int, iohole: int, nextfree: int, mpentry: int, kernDir: seq<Entry>)
      requires 0 < mpentry < basemem <= iohole <= nextfree <= npages && KernelDir(kernDir)
      ensures Settled() && this.npages == npages && dirs == map[]
      ensures forall p {:trigger p in free} :: p in free <==>
                (1 <= p < basemem && p != mpentry) || nextfree <= p < npages
      ensures forall p {:trigger p in kern} :: p in kern <==> p == 0 || p == mpentry || iohole <= p < nextfree
      ensures forall p {:trigger p in lost} :: p in lost <==> basemem <= p < iohole
      ensures forall i {:trigger slots[i]} :: 0 <= i < 1024 ==> slots[i] == Slot(true, 0, 0)
      ensures |envFree| == 1024 && forall i {:trigger envFree[i]} :: 0 <= i < 1024 ==> envFree[i] == i
    {
      this.npages, this.kernDir := npages, kernDir;
      kern := {0, mpentry} + Range(iohole, nextfree);
      lost := Range(basemem, iohole);
      ppRef := seq(npages, i => 0);
      link := seq(npages, i => -1);
      frames := seq(npages, i => ZeroFrame());
      refs := seq(npages, i => {});
      head, free, dirs, cur := -1, [], map[], 0;
      slots := seq(1024, i => Slot(true, 0, 0));
      envFree := seq(1024, i => i);
      held := Range(basemem, iohole);
      new;
      ppRef := ppRef[0 := 1][mpentry := 1];
      EmptyFreeList(link);
      FreeRange(1, basemem, mpentry);
      Reserve(iohole, nextfree);
      FreeRange(nextfree, npages, -1);
      BootAccounted(ppRef, free, held, refs, kern, npages);
      BootMapped(frames, refs);
      BootSlots(slots, envFree);
    }

    /** The loops of page_init: put the pages from `lo` to `hi`, except `skip`, on the free
        list, one by one. */
    method FreeRange(lo: int, hi: int, skip: int)
      requires 0 <= lo <= hi <= |link| && FreeList(link, head, free)
      requires forall p {:trigger p in free} :: p in free ==> p < lo
      modifies this`link, this`head, this`free
      ensures |link| == |old(link)| && FreeList(link, head, free)
      ensures forall p {:trigger p in free} :: p in free <==> p in old(free) || (lo <= p < hi && p != skip)
    {
      var i := lo;
      while i < hi
        invariant lo <= i <= hi && |link| == |old(link)| && FreeList(link, head, free)
        invariant forall p {:trigger p in free} :: p in free <==> p in old(free) || (lo <= p < i && p != skip)
      {
        if i != skip {
          Push(link, head, free, i);
          PushMembers(free, i);
          link := link[i := head];
          head := i;
          free := free + [i];
        }
        i := i + 1;
      }
    }

    /** The loop of page_init that marks pages as in use. */
    method Reserve(lo: int, hi: int)
      requires 0 <= lo <= hi <= |ppRef|
      modifies this`ppRef
      ensures |ppRef| == |old(ppRef)|
      ensures forall p {:trigger ppRef[p]} :: 0 <= p < |ppRef| ==>
                ppRef[p] == if lo <= p < hi then 1 else old(ppRef)[p]
    {
      var i := lo;
      while i < hi
        invariant lo <= i <= hi && |ppRef| == |old(ppRef)|
        invariant forall p {:trigger ppRef[p]} :: 0 <= p < |ppRef| ==>
                    ppRef[p] == if lo <= p < i then 1 else old(ppRef)[p]
      {
        ppRef := ppRef[i := 1];
        i := i + 1;
      }
    }

    /** page_alloc */
    method PageAlloc(zero: bool) returns (p: int)
      requires Inv()
      modifies this`link, this`head, this`frames, this`free, this`held
      ensures Inv()
      ensures p == -1 <==> old(free) == []
      ensures p == -1 ==> frames == old(frames) && free == old(free) && held == old(held)
      ensures p != -1 ==> && 0 <= p < npages && p in old(free) && p !in old(held) && p !in kern
                          && held == old(held) + {p} && refs[p] == {}
                          && free == old(free)[..|old(free)| - 1] && p !in free
                          && frames == (if zero then old(frames)[p := ZeroFrame()] else old(frames))
      ensures SameLook(old(frames), dirs, frames, dirs)
    {
      assert LinkAt(link, free, |free| - 1);
      if head == -1 {
        return -1;
      }
      Pop(link, head, free);
      PopAccounted(ppRef, free, held, refs, kern);
      p := head;
      head := link[p];
      link := link[p := -1];
      free := free[..|free| - 1];
      held := held + {p};
      if zero {
        UntargetedNoTable(frames, dirs, refs, p);
        WriteData(frames, dirs, p, ZeroFrame());
        SameMapped(frames, dirs, frames[p := ZeroFrame()], dirs, refs);
        frames := frames[p := ZeroFrame()];
      }
    }

    /** page_free.  The original panics unless `pp_ref` is zero and `pp_link` is null; both
        hold for every page handed to it. */
    method PageFree(p: int)
      requires Sound() && p in held
      modifies this`link, this`head, this`free, this`held
      ensures Sound() && free == old(free) + [p] && held == old(held) - {p}
    {
      assert HeldAt(ppRef, held, p) && FreeAt(ppRef, free, held, p) && NoLinkAt(link, free, p);
      assert ppRef[p] == 0 && link[p] == -1;
      Push(link, head, free, p);
      PushAccounted(ppRef, free, held, refs, kern, p);
      link := link[p := head];
      head := p;
      free := free + [p];
      held := held - {p};
    }

    /** page_decref, for the reference at `r`. */
    method PageDecref(p: int, ghost r: Ref)
      requires Sound() && 0 <= p < |refs| && r in refs[p]
      modifies this`ppRef, this`link, this`head, this`free, this`held, this`refs
      ensures Sound() && refs == old(refs)[p := old(refs)[p] - {r}] && held == old(held)
      ensures free == if |old(refs)[p]| == 1 then old(free) + [p] else old(free)
    {
      DropAccounted(ppRef, free, held, refs, kern, p, r);
      held := if ppRef[p] == 1 then held + {p} else held;
      refs := refs[p := refs[p] - {r}];
      ppRef := ppRef[p := ppRef[p] - 1];
      if ppRef[p] == 0 {
        PageFree(p);
      }
    }

    /** page_remove, with the walk of page_lookup. */
    method PageRemove(e: int, n: int)
      requires Inv() && e in dirs && 0 <= n < NPAGE
      modifies this`ppRef, this`link, this`head, this`frames, this`free, this`held, this`refs
      ensures Inv() && held == old(held)
      ensures OnlyAt(old(frames), dirs, frames, dirs, ByPte(e, n), ABSENT)
      ensures Kept(old(frames), dirs, [], frames)
      ensures var q := Target(old(frames), dirs, ByPte(e, n));
              && free == (if q != -1 && 0 <= q < |old(refs)| && |old(refs)[q]| == 1 then old(free) + [q] else old(free))
              && forall p :: 0 <= p < npages && p != q ==> refs[p] == old(refs)[p]
      ensures Grows(old(refs), refs, 0)
    {
      var tp := Target(frames, dirs, ByPde(e, Pdx(n)));
      if tp == -1 {
        return;
      }
      var pte := Read(frames, tp, Ptx(n));
      if pte.bits.p {
        RemoveEffect(frames, dirs, refs, e, n);
        PageDecref(pte.page, ByPte(e, n));
        frames := Write(frames, tp, Ptx(n), ABSENT);
      }
    }

    /** pgdir_walk: the frame of the page table that covers page number `n`, or -1. */
    method PgdirWalk(e: int, n: int, create: bool) returns (tp: int)
      requires Inv() && e in dirs && 0 <= n < NPAGE
      modifies this`ppRef, this`link, this`head, this`frames, this`free, this`held, this`refs
      ensures Inv() && held == old(held)
      ensures tp == -1 ==> frames == old(frames) && free == old(free) && refs == old(refs)
      ensures tp == -1 <==> old(Look(frames, dirs, ByPde(e, Pdx(n)))) == ABSENT && (create ==> old(free) == [])
      ensures tp != -1 ==> 0 <= tp < npages && Target(frames, dirs, ByPde(e, Pdx(n))) == tp
      ensures !create || old(Look(frames, dirs, ByPde(e, Pdx(n)))) != ABSENT ==>
                frames == old(frames) && free == old(free) && refs == old(refs)
      ensures MapsSame(old(frames), dirs, frames)
      ensures Kept(old(frames), dirs, old(free), frames)
      ensures forall p :: p in free ==> p in old(free)
      ensures forall p :: 0 <= p < npages && p !in old(free) ==> refs[p] == old(refs)[p]
      ensures |refs| == |old(refs)|
      ensures forall p {:trigger WalkGrowAt(old(refs), refs, old(free), p)} :: WalkGrowAt(old(refs), refs, old(free), p)
      ensures TablesOnly(old(frames), dirs, frames, e, Pdx(n))
      ensures tp != -1 ==> |free| == |old(free)| - if old(Look(frames, dirs, ByPde(e, Pdx(n)))) == ABSENT then 1 else 0
    {
      assert InRangeAt(frames, dirs, ByPde(e, Pdx(n)));
      if !Read(frames, dirs[e], Pdx(n)).bits.p {
        if !create {
          return -1;
        }
        tp := PageAlloc(true);
        if tp == -1 {
          return -1;
        }
        ZeroBlank(frames, tp);
        NewTableEffect(frames, dirs, refs, e, Pdx(n), tp);
        NewTableKept(old(frames), frames, dirs, old(free), e, Pdx(n), tp);
        NewTableOnly(old(frames), frames, dirs, e, Pdx(n), Write(frames, dirs[e], Pdx(n), Entry(tp, TABLE_BITS)), tp);
        assert RefAt(ppRef, refs, kern, tp);
        AddAccounted(ppRef, free, held, refs, kern, tp, ByPde(e, Pdx(n)));
        ppRef := ppRef[tp := 1];
        held := held - {tp};
        refs := refs[tp := refs[tp] + {ByPde(e, Pdx(n))}];
        frames := Write(frames, dirs[e], Pdx(n), Entry(tp, TABLE_BITS));
      } else {
        tp := Read(frames, dirs[e], Pdx(n)).page;
      }
    }

    /** page_insert.  The bound on `refs[pp]` keeps the 16-bit count from wrapping. */
    method PageInsert(e: int, pp: int, n: int, perm: Bits) returns (ok: bool)
      requires Inv() && e in dirs && 0 <= n < NPAGE
      requires 0 <= pp < npages && pp !in kern && pp !in free && NoTable(frames, dirs, pp)
      requires |refs[pp]| < 65535
               || (Look(frames, dirs, ByPte(e, n)).bits.p && Look(frames, dirs, ByPte(e, n)).page == pp)
      modifies this`ppRef, this`link, this`head, this`frames, this`free, this`held, this`refs
      ensures Inv()
      ensures ok <==> old(free) != [] || old(Look(frames, dirs, ByPde(e, Pdx(n)))) != ABSENT
      ensures !ok ==> frames == old(frames) && free == old(free) && held == old(held) && refs == old(refs)
      ensures Grows(old(refs), refs, 1)
      ensures ok ==> && MapsOnly(old(frames), dirs, frames, e, n, Entry(pp, perm.(p := true)))
                     && held == old(held) - {pp} && pp !in free
                     && Kept(old(frames), dirs, old(free), frames)
                     && TablesOnly(old(frames), dirs, frames, e, Pdx(n))
      ensures ok ==> |free| == |old(free)| + GivenBack(old(frames), dirs, old(refs), e, n, pp)
                                - if old(Look(frames, dirs, ByPde(e, Pdx(n)))) == ABSENT then 1 else 0
    {
      var tp := PgdirWalk(e, n, true);
      if tp == -1 {
        return false;
      }
      ghost var frames1, refs1, x := frames, refs, Entry(pp, perm.(p := true));
      assert KeptAt(old(frames), dirs, old(free), frames, pp);
      assert Look(frames, dirs, ByPte(e, n)) == Look(old(frames), dirs, ByPte(e, n));
      ghost var refs2 := SetPte(e, n, tp, Entry(pp, perm.(p := true)));
      InsertGrows(old(refs), refs1, refs2, refs, old(free), pp, ByPte(e, n));
      InsertCompose(old(frames), frames1, frames, dirs, old(free), e, n, x);
      InsertTables(old(frames), frames1, frames, dirs, e, n, x);
      return true;
    }

    /** The part of page_insert behind the walk: the entry is stored where another page, the same
        page or none was mapped before. */
    method SetPte(e: int, n: int, tp: int, x: Entry) returns (ghost refs2: Refs)
      requires Inv() && e in dirs && 0 <= n < NPAGE && 0 <= tp < npages
      requires Target(frames, dirs, ByPde(e, Pdx(n))) == tp
      requires x.bits.p && 0 <= x.page < npages && x.page !in kern && x.page !in free && NoTable(frames, dirs, x.page)
      requires |refs[x.page]| < 65535
               || (Look(frames, dirs, ByPte(e, n)).bits.p && Look(frames, dirs, ByPte(e, n)).page == x.page)
      modifies this`ppRef, this`link, this`head, this`frames, this`free, this`held, this`refs
      ensures Inv() && held == old(held) - {x.page} && x.page !in free
      ensures OnlyAt(old(frames), dirs, frames, dirs, ByPte(e, n), x) && Kept(old(frames), dirs, [], frames)
      ensures Grows(old(refs), refs2, 0)
      ensures refs == refs2 || (0 <= x.page < |refs2| && refs == refs2[x.page := refs2[x.page] + {ByPte(e, n)}])
      ensures |free| == |old(free)| + GivenBack(old(frames), dirs, old(refs), e, n, x.page)
    {
      var pte := Read(frames, tp, Ptx(n));
      refs2 := refs;
      if pte.bits.p && pte.page == x.page {
        RemapPte(e, n, tp, x);
        return;
      }
      if pte.bits.p {
        assert InRangeAt(frames, dirs, ByPte(e, n));
        PageRemove(e, n);
      }
      ghost var frames1 := frames;
      refs2 := refs;
      assert KeptAt(old(frames), dirs, [], frames, x.page);
      StorePte(e, n, tp, x);
      ReplaceCompose(old(frames), frames1, frames, dirs, e, n, x);
    }

    /** The end of page_insert: count the new mapping and store its entry. */
    method StorePte(e: int, n: int, tp: int, x: Entry)
      requires Inv() && e in dirs && 0 <= n < NPAGE && 0 <= tp < npages
      requires Target(frames, dirs, ByPde(e, Pdx(n))) == tp && Look(frames, dirs, ByPte(e, n)) == ABSENT
      requires x.bits.p && 0 <= x.page < npages && x.page !in kern && x.page !in free
      requires NoTable(frames, dirs, x.page) && |refs[x.page]| < 65535
      modifies this`ppRef, this`frames, this`held, this`refs
      ensures Inv() && held == old(held) - {x.page}
      ensures refs == old(refs)[x.page := old(refs)[x.page] + {ByPte(e, n)}]
      ensures OnlyAt(old(frames), dirs, frames, dirs, ByPte(e, n), x)
      ensures Kept(old(frames), dirs, [], frames)
    {
      var pp := x.page;
      InsertEffect(frames, dirs, refs, e, n, x);
      AddAccounted(ppRef, free, held, refs, kern, pp, ByPte(e, n));
      assert RefAt(ppRef, refs, kern, pp);
      ppRef := ppRef[pp := (ppRef[pp] + 1) % 65536];
      held := held - {pp};
      refs := refs[pp := refs[pp] + {ByPte(e, n)}];
      frames := Write(frames, tp, Ptx(n), x);
    }

    /** The branch of page_insert for a page that is already mapped at `n`. */
    method RemapPte(e: int, n: int, tp: int, x: Entry)
      requires Inv() && e in dirs && 0 <= n < NPAGE && 0 <= tp < npages
      requires Target(frames, dirs, ByPde(e, Pdx(n))) == tp
      requires Look(frames, dirs, ByPte(e, n)).bits.p && x.bits.p
      requires Look(frames, dirs, ByPte(e, n)).page == x.page
      modifies this`frames
      ensures Inv() && x.page !in held && x.page !in free
      ensures OnlyAt(old(frames), dirs, frames, dirs, ByPte(e, n), x)
      ensures Kept(old(frames), dirs, [], frames)
    {
      RemapEffect(frames, dirs, refs, e, n, x);
      assert InRangeAt(frames, dirs, ByPte(e, n));
      SameCount(ppRef, free, held, refs, kern, frames, dirs, x.page, ByPte(e, n));
      frames := Write(frames, tp, Ptx(n), x);
    }
  }

  /** Storing a new permission for a page that stays mapped where it is. */
  lemma RemapEffect(frames: Frames, dirs: Dirs, refs: Refs, e: int, n: int, x: Entry)
    requires Mapped(frames, dirs, refs) && e in dirs && 0 <= n < NPAGE
    requires Look(frames, dirs, ByPte(e, n)).bits.p && x.bits.p && x.page == Look(frames, dirs, ByPte(e, n)).page
    ensures var tp := Target(frames, dirs, ByPde(e, Pdx(n)));
            && 0 <= tp < |frames|
            && var frames2 := Write(frames, tp, Ptx(n), x);
            && Mapped(frames2, dirs, refs)
            && OnlyAt(frames, dirs, frames2, dirs, ByPte(e, n), x)
            && Kept(frames, dirs, [], frames2)
  {
    var r, tp := ByPte(e, n), Target(frames, dirs, ByPde(e, Pdx(n)));
    assert InRangeAt(frames, dirs, r) && InRangeAt(frames, dirs, ByPde(e, Pdx(n)));
    WritePte(frames, dirs, e, n, x);
    var frames2 := Write(frames, tp, Ptx(n), x);
    UserNoTable(frames, dirs, refs, r);
    RetargetMapped(frames, dirs, frames2, dirs, refs, r, x);
    assert CountAt(frames, dirs, refs, r, x.page);
    assert refs[x.page] - {r} + {r} == refs[x.page];
    assert Retarget(refs, r, x.page, x.page) == refs;
    TableKept(frames, dirs, ByPde(e, Pdx(n)), r, x, frames2);
  }

  /** Storing an entry where none was present. */
  lemma InsertEffect(frames: Frames, dirs: Dirs, refs: Refs, e: int, n: int, x: Entry)
    requires Mapped(frames, dirs, refs) && e in dirs && 0 <= n < NPAGE
    requires Look(frames, dirs, ByPte(e, n)) == ABSENT && Look(frames, dirs, ByPde(e, Pdx(n))).bits.p
    requires x.bits.p && 0 <= x.page < |frames| && NoTable(frames, dirs, x.page)
    ensures ByPte(e, n) !in refs[x.page]
    ensures var tp := Target(frames, dirs, ByPde(e, Pdx(n)));
            && 0 <= tp < |frames|
            && var frames2 := Write(frames, tp, Ptx(n), x);
            && Mapped(frames2, dirs, refs[x.page := refs[x.page] + {ByPte(e, n)}])
            && OnlyAt(frames, dirs, frames2, dirs, ByPte(e, n), x)
            && Kept(frames, dirs, [], frames2)
  {
    var r, tp := ByPte(e, n), Target(frames, dirs, ByPde(e, Pdx(n)));
    assert InRangeAt(frames, dirs, ByPde(e, Pdx(n))) && CountAt(frames, dirs, refs, r, x.page);
    WritePte(frames, dirs, e, n, x);
    var frames2 := Write(frames, tp, Ptx(n), x);
    RetargetMapped(frames, dirs, frames2, dirs, refs, r, x);
    TableKept(frames, dirs, ByPde(e, Pdx(n)), r, x, frames2);
  }

  /** A page that is mapped somewhere is no table. */
  lemma UserNoTable(frames: Frames, dirs: Dirs, refs: Refs, r: Ref)
    requires Mapped(frames, dirs, refs) && r.ByPte? && Look(frames, dirs, r).bits.p
    ensures 0 <= Look(frames, dirs, r).page < |frames|
    ensures NoTable(frames, dirs, Look(frames, dirs, r).page)
  {
    assert InRangeAt(frames, dirs, r);
    forall q: Ref {:trigger Target(frames, dirs, q)} | !q.ByPte?
      ensures Target(frames, dirs, q) != Look(frames, dirs, r).page
    {
      assert TypedAt(frames, dirs, q, r);
    }
  }

  lemma SameCount(ppRef: seq<int>, free: seq<int>, held: set<int>, refs: Refs, kern: set<int>,
                  frames: Frames, dirs: Dirs, p: int, r: Ref)
    requires Accounted(ppRef, free, held, refs, kern) && Counted(frames, dirs, refs)
    requires 0 <= p < |refs| && Target(frames, dirs, r) == p
    ensures p !in held && p !in free
  {
    assert CountAt(frames, dirs, refs, r, p) && RefAt(ppRef, refs, kern, p);
    assert HeldAt(ppRef, held, p) && FreeAt(ppRef, free, held, p);
  }

  /** The steps of page_insert put together: walk, remove, store. */
  lemma InsertCompose(f0: Frames, f1: Frames, f2: Frames, dirs: Dirs, free: seq<int>, e: int, n: int, x: Entry)
    requires MapsSame(f0, dirs, f1) && Kept(f0, dirs, free, f1)
    requires OnlyAt(f1, dirs, f2, dirs, ByPte(e, n), x) && Kept(f1, dirs, [], f2)
    ensures MapsOnly(f0, dirs, f2, e, n, x) && Kept(f0, dirs, free, f2)
  {
    forall e2, n2 {:trigger Look(f2, dirs, ByPte(e2, n2))} | true
      ensures Look(f2, dirs, ByPte(e2, n2)) == if e2 == e && n2 == n then x else Look(f0, dirs, ByPte(e2, n2))
    {
      assert Look(f1, dirs, ByPte(e2, n2)) == Look(f0, dirs, ByPte(e2, n2));
    }
    forall p {:trigger KeptAt(f0, dirs, free, f2, p)} | true
      ensures KeptAt(f0, dirs, free, f2, p)
    {
      assert KeptAt(f0, dirs, free, f1, p) && KeptAt(f1, dirs, [], f2, p);
    }
  }

  lemma InsertTables(f0: Frames, f1: Frames, f2: Frames, dirs: Dirs, e: int, n: int, x: Entry)
    requires TablesOnly(f0, dirs, f1, e, Pdx(n)) && OnlyAt(f1, dirs, f2, dirs, ByPte(e, n), x)
    ensures TablesOnly(f0, dirs, f2, e, Pdx(n))
  {
    forall r {:trigger TableAt(f0, dirs, f2, e, Pdx(n), r)} | true
      ensures TableAt(f0, dirs, f2, e, Pdx(n), r)
    {
      assert TableAt(f0, dirs, f1, e, Pdx(n), r);
      assert !r.ByPte? ==> Look(f2, dirs, r) == Look(f1, dirs, r);
    }
  }

  /** Clearing an entry and storing another. */
  lemma ReplaceCompose(f0: Frames, f1: Frames, f2: Frames, dirs: Dirs, e: int, n: int, x: Entry)
    requires f1 == f0 || (OnlyAt(f0, dirs, f1, dirs, ByPte(e, n), ABSENT) && Kept(f0, dirs, [], f1))
    requires OnlyAt(f1, dirs, f2, dirs, ByPte(e, n), x) && Kept(f1, dirs, [], f2)
    ensures OnlyAt(f0, dirs, f2, dirs, ByPte(e, n), x) && Kept(f0, dirs, [], f2)
  {
    forall r: Ref {:trigger Look(f2, dirs, r)} | true
      ensures Look(f2, dirs, r) == if r == ByPte(e, n) then x else Look(f0, dirs, r)
    {
      assert f1 != f0 ==> Look(f1, dirs, r) == if r == ByPte(e, n) then ABSENT else Look(f0, dirs, r);
    }
    forall p {:trigger KeptAt(f0, dirs, [], f2, p)} | true
      ensures KeptAt(f0, dirs, [], f2, p)
    {
      assert KeptAt(f1, dirs, [], f2, p);
      assert f1 != f0 ==> KeptAt(f0, dirs, [], f1, p);
    }
  }

  /** Clearing a present page table entry. */
  lemma RemoveEffect(frames: Frames, dirs: Dirs, refs: Refs, e: int, n: int)
    requires Mapped(frames, dirs, refs) && e in dirs && 0 <= n < NPAGE
    requires Look(frames, dirs, ByPte(e, n)).bits.p
    ensures var tp, p := Target(frames, dirs, ByPde(e, Pdx(n))), Target(frames, dirs, ByPte(e, n));
            && 0 <= tp < |frames| && 0 <= p < |refs| && ByPte(e, n) in refs[p]
            && var frames2 := Write(frames, tp, Ptx(n), ABSENT);
            && Mapped(frames2, dirs, refs[p := refs[p] - {ByPte(e, n)}])
            && OnlyAt(frames, dirs, frames2, dirs, ByPte(e, n), ABSENT)
            && Kept(frames, dirs, [], frames2)
  {
    var tp, p := Target(frames, dirs, ByPde(e, Pdx(n))), Target(frames, dirs, ByPte(e, n));
    assert InRangeAt(frames, dirs, ByPte(e, n)) && CountAt(frames, dirs, refs, ByPte(e, n), p);
    assert InRangeAt(frames, dirs, ByPde(e, Pdx(n)));
    WritePte(frames, dirs, e, n, ABSENT);
    var frames2 := Write(frames, tp, Ptx(n), ABSENT);
    RetargetMapped(frames, dirs, frames2, dirs, refs, ByPte(e, n), ABSENT);
    TableKept(frames, dirs, ByPde(e, Pdx(n)), ByPte(e, n), ABSENT, frames2);
  }

  /** A change to one table that redirects only a page mapping is no change to any data
      page. */
  lemma TableKept(frames: Frames, dirs: Dirs, t: Ref, r: Ref, x: Entry, frames2: Frames)
    requires !t.ByPte? && r.ByPte? && 0 <= Target(frames, dirs, t) < |frames| == |frames2|
    requires frames2 == frames[Target(frames, dirs, t) := frames2[Target(frames, dirs, t)]]
    requires OnlyAt(frames, dirs, frames2, dirs, r, x)
    ensures Kept(frames, dirs, [], frames2)
  {
    forall p {:trigger KeptAt(frames, dirs, [], frames2, p)} | true
      ensures KeptAt(frames, dirs, [], frames2, p)
    {
      if 0 <= p < |frames| && NoTable(frames, dirs, p) {
        assert Target(frames, dirs, t) != p;
        forall q: Ref {:trigger Target(frames2, dirs, q)} | !q.ByPte?
          ensures Target(frames2, dirs, q) != p
        {
          assert Target(frames, dirs, q) != p;
          assert Look(frames2, dirs, q) == Look(frames, dirs, q);
        }
      }
    }
  }

  /** Hanging the blank page `p` into the directory of `e` as a page table. */
  lemma NewTableEffect(frames: Frames, dirs: Dirs, refs: Refs, e: int, d: int, p: int)
    requires Mapped(frames, dirs, refs) && e in dirs && 0 <= d < NPDE
    requires Look(frames, dirs, ByPde(e, d)) == ABSENT
    requires 0 <= p < |refs| && refs[p] == {} && Blank(frames, p)
    ensures 0 <= dirs[e] < |frames|
    ensures var x, frames2 := Entry(p, TABLE_BITS), Write(frames, dirs[e], d, Entry(p, TABLE_BITS));
            && Mapped(frames2, dirs, refs[p := refs[p] + {ByPde(e, d)}])
            && OnlyAt(frames, dirs, frames2, dirs, ByPde(e, d), x)
  {
    assert InRangeAt(frames, dirs, ByEnv(e)) && CountAt(frames, dirs, refs, ByEnv(e), p);
    var x := Entry(p, TABLE_BITS);
    WritePde(frames, dirs, e, d, x);
    RetargetMapped(frames, dirs, Write(frames, dirs[e], d, x), dirs, refs, ByPde(e, d), x);
  }

  lemma NewTableOnly(f0: Frames, f1: Frames, dirs: Dirs, e: int, d: int, f2: Frames, p: int)
    requires SameLook(f0, dirs, f1, dirs) && OnlyAt(f1, dirs, f2, dirs, ByPde(e, d), Entry(p, TABLE_BITS))
    ensures TablesOnly(f0, dirs, f2, e, d)
  {
    forall r {:trigger TableAt(f0, dirs, f2, e, d, r)} | true
      ensures TableAt(f0, dirs, f2, e, d, r)
    {
      assert r != ByPde(e, d) ==> Look(f2, dirs, r) == Look(f1, dirs, r) == Look(f0, dirs, r);
    }
  }

  lemma NewTableKept(frames: Frames, frames1: Frames, dirs: Dirs, free: seq<int>, e: int, d: int, p: int)
    requires e in dirs && 0 <= dirs[e] < |frames| && p in free && 0 <= p < |frames| && 0 <= d < NPDE
    requires SameLook(frames, dirs, frames1, dirs) && frames1 == frames[p := ZeroFrame()]
    requires var x, frames2 := Entry(p, TABLE_BITS), Write(frames1, dirs[e], d, Entry(p, TABLE_BITS));
             OnlyAt(frames1, dirs, frames2, dirs, ByPde(e, d), x)
    ensures Kept(frames, dirs, free, Write(frames1, dirs[e], d, Entry(p, TABLE_BITS)))
  {
    var frames2 := Write(frames1, dirs[e], d, Entry(p, TABLE_BITS));
    forall q {:trigger KeptAt(frames, dirs, free, frames2, q)} | true
      ensures KeptAt(frames, dirs, free, frames2, q)
    {
      if 0 <= q < |frames| && NoTable(frames, dirs, q) && q !in free {
        assert Target(frames, dirs, ByEnv(e)) != q;
        forall r: Ref {:trigger Target(frames2, dirs, r)} | !r.ByPte?
          ensures Target(frames2, dirs, r) != q
        {
          assert Target(frames, dirs, r) != q;
          assert Look(frames1, dirs, r) == Look(frames, dirs, r);
        }
      }
    }
  }

  lemma ZeroBlank(frames: Frames, p: int)
    requires 0 <= p < |frames| && frames[p] == ZeroFrame()
    ensures Blank(frames, p)
  {
    forall i {:trigger BlankAt(frames, p, i)} | true
      ensures BlankAt(frames, p, i)
    {
    }
  }

  lemma UntargetedNoTable(frames: Frames, dirs: Dirs, refs: Refs, p: int)
    requires Counted(frames, dirs, refs) && 0 <= p < |refs| && refs[p] == {}
    ensures Unused(frames, dirs, p) && NoTable(frames, dirs, p)
  {
    forall r: Ref {:trigger Target(frames, dirs, r)} | true
      ensures Target(frames, dirs, r) != p
    {
      assert CountAt(frames, dirs, refs, r, p);
    }
  }

  lemma PushMembers(free: seq<int>, p: int)
    ensures forall q {:trigger q in free + [p]} :: q in free + [p] <==> q in free || q == p
  {
    assert (free + [p])[|free|] == p;
  }

  lemma EmptyFreeList(link: seq<int>)
    requires forall p {:trigger link[p]} :: 0 <= p < |link| ==> link[p] == -1
    ensures FreeList(link, -1, [])
  {
  }

  lemma BootAccounted(ppRef: seq<int>, free: seq<int>, held: set<int>, refs: Refs, kern: set<int>, npages: int)
    requires |ppRef| == |refs| == npages
    requires forall p {:trigger refs[p]} :: 0 <= p < npages ==> refs[p] == {}
    requires forall p {:trigger ppRef[p]} :: 0 <= p < npages ==> ppRef[p] == if p in kern then 1 else 0
    requires forall p {:trigger p in held} :: p in held ==> 0 <= p < npages && p !in kern
    requires forall p {:trigger p in free} :: p in free <==> 0 <= p < npages && p !in kern && p !in held
    ensures Accounted(ppRef, free, held, refs, kern)
  {
    forall p {:trigger FreeAt(ppRef, free, held, p)} {:trigger HeldAt(ppRef, held, p)}
             {:trigger RefAt(ppRef, refs, kern, p)} | true
      ensures FreeAt(ppRef, free, held, p) && HeldAt(ppRef, held, p) && RefAt(ppRef, refs, kern, p)
    {
      if 0 <= p < npages {
        assert ppRef[p] == (if p in kern then 1 else 0) && refs[p] == {};
      }
    }
  }

  lemma BootMapped(frames: Frames, refs: Refs)
    requires |frames| == |refs| && forall p {:trigger refs[p]} :: 0 <= p < |refs| ==> refs[p] == {}
    ensures Mapped(frames, map[], refs)
  {
  }

  lemma BootSlots(slots: Slots, envFree: seq<int>)
    requires forall i {:trigger slots[i]} :: 0 <= i < 1024 ==> slots[i].free
    requires |envFree| == 1024 && forall i {:trigger envFree[i]} :: 0 <= i < 1024 ==> envFree[i] == i
    ensures forall i {:trigger SlotAt(slots, map[], i)} :: SlotAt(slots, map[], i)
    ensures forall i {:trigger EnvFreeAt(slots, envFree, i)} :: EnvFreeAt(slots, envFree, i)
    ensures forall i, j {:trigger DistinctAt(envFree, i, j)} :: DistinctAt(envFree, i, j)
  {
    forall i {:trigger EnvFreeAt(slots, envFree, i)} | true
      ensures EnvFreeAt(slots, envFree, i)
    {
      if 0 <= i < 1024 { assert envFree[i] == i; }
    }
  }

  /** At every boundary: the count of a page is the number of places that refer to it, the
      free list holds the pages nothing refers to, and each of them once. */
  lemma CountsAtBoundary(k: Kernel, p: int)
    requires k.Settled() && 0 <= p < k.npages && p !in k.kern && p !in k.lost
    ensures k.ppRef[p] == |Places(k.frames, k.dirs, p)|
    ensures p in k.free <==> Places(k.frames, k.dirs, p) == {}
    ensures multiset(k.free)[p] <= 1
  {
    assert RefAt(k.ppRef, k.refs, k.kern, p) && FreeAt(k.ppRef, k.free, k.held, p);
    RefsArePlaces(k.frames, k.dirs, k.refs, p);
    ListedOnce(k.free, p);
  }

  lemma {:induction false} ListedOnce(free: seq<int>, p: int)
    requires forall i, j {:trigger DistinctAt(free, i, j)} :: DistinctAt(free, i, j)
    ensures multiset(free)[p] <= 1
  {
    if free != [] {
      var rest, last := free[..|free| - 1], free[|free| - 1];
      forall i, j {:trigger DistinctAt(rest, i, j)} | true
        ensures DistinctAt(rest, i, j)
      {
        assert DistinctAt(free, i, j);
      }
      ListedOnce(rest, p);
      assert free == rest + [last];
      assert last !in rest by {
        forall k | 0 <= k < |rest|
          ensures rest[k] != last
        {
          assert DistinctAt(free, k, |free| - 1);
        }
      }
    }
  }
}
