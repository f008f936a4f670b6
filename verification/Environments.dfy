/** Creation and destruction of environments (`kern/env.c`): the part that builds and tears
    down address spaces. */
module Environments {
  import opened PageTables
  import opened EnvIds
  import opened Kernel

  datatype Created = Created(slot: int) | NoFreeEnv | NoMem

  /** PDX(UVPT). */
  const UVPT: int := 957

  /** Entry that env_setup_vm stores to map an environment's own page table read-only. */
  function SelfMap(p: int): Entry {
    Entry(p, NO_BITS.(p := true, u := true))
  }

  lemma DirBare(frames: Frames, dirs: Dirs, refs: Refs, kernDir: seq<Entry>, p: int)
    requires Mapped(frames, dirs, refs) && KernelDir(kernDir) && 0 <= p < |refs| && refs[p] == {}
    ensures var frames2 := frames[p := Table(kernDir[UVPT := SelfMap(p)])];
            && SameLook(frames, dirs, frames2, dirs) && Mapped(frames2, dirs, refs) && Bare(frames2, p)
  {
    var frames2 := frames[p := Table(kernDir[UVPT := SelfMap(p)])];
    UntargetedNoTable(frames, dirs, refs, p);
    WriteData(frames, dirs, p, frames2[p]);
    SameMapped(frames, dirs, frames2, dirs, refs);
    forall d {:trigger BlankAt(frames2, p, d)} | 0 <= d < NPDE
      ensures BlankAt(frames2, p, d)
    {
      assert !kernDir[d].bits.p;
    }
  }

  lemma NewDirEffect(frames: Frames, dirs: Dirs, refs: Refs, e: int, p: int)
    requires Mapped(frames, dirs, refs) && e !in dirs && 0 <= p < |refs| && refs[p] == {} && Bare(frames, p)
    ensures ByEnv(e) !in refs[p]
    ensures var x := Entry(p, NO_BITS.(p := true));
            && Mapped(frames, dirs[e := p], refs[p := refs[p] + {ByEnv(e)}])
            && OnlyAt(frames, dirs, frames, dirs[e := p], ByEnv(e), x)
  {
    AddDir(frames, dirs, e, p);
    RetargetMapped(frames, dirs, frames, dirs[e := p], refs, ByEnv(e), Entry(p, NO_BITS.(p := true)));
  }

  /** env_setup_vm */
  method EnvSetupVm(k: Kernel, e: int) returns (ok: bool)
    requires k.Inv() && KernelDir(k.kernDir) && e !in k.dirs
    modifies k`ppRef, k`link, k`head, k`frames, k`free, k`held, k`refs, k`dirs
    ensures k.Inv() && k.held == old(k.held)
    ensures ok <==> old(k.free) != []
    ensures Grows(old(k.refs), k.refs, 1)
    ensures !ok ==> k.frames == old(k.frames) && k.dirs == old(k.dirs) && k.free == old(k.free)
    ensures ok ==> && e in k.dirs && k.dirs == old(k.dirs)[e := k.dirs[e]] && k.dirs[e] in old(k.free)
                   && OnlyAt(old(k.frames), old(k.dirs), k.frames, k.dirs, ByEnv(e),
                             Entry(k.dirs[e], NO_BITS.(p := true)))
                   && 0 <= k.dirs[e] < |old(k.frames)| && |k.free| == |old(k.free)| - 1
                   && k.frames == old(k.frames)[k.dirs[e] := Table(k.kernDir[UVPT := SelfMap(k.dirs[e])])]
  {
    var p := k.PageAlloc(true);
    if p == -1 {
      return false;
    }
    ghost var frames1 := k.frames;
    DirBare(k.frames, k.dirs, k.refs, k.kernDir, p);
    k.frames := k.frames[p := Table(k.kernDir[UVPT := SelfMap(p)])];
    NewDirEffect(k.frames, k.dirs, k.refs, e, p);
    AddAccounted(k.ppRef, k.free, k.held, k.refs, k.kern, p, ByEnv(e));
    SetupCompose(old(k.frames), frames1, k.frames, k.dirs, k.dirs[e := p], e, p);
    k.ppRef := k.ppRef[p := k.ppRef[p] + 1];
    k.held := k.held - {p};
    k.refs := k.refs[p := k.refs[p] + {ByEnv(e)}];
    k.dirs := k.dirs[e := p];
    return true;
  }

  lemma SetupCompose(f0: Frames, f1: Frames, f2: Frames, dirs: Dirs, dirs2: Dirs, e: int, p: int)
    requires SameLook(f0, dirs, f1, dirs) && SameLook(f1, dirs, f2, dirs)
    requires OnlyAt(f2, dirs, f2, dirs2, ByEnv(e), Entry(p, NO_BITS.(p := true)))
    ensures OnlyAt(f0, dirs, f2, dirs2, ByEnv(e), Entry(p, NO_BITS.(p := true)))
  {
    forall r: Ref {:trigger Look(f2, dirs2, r)} | true
      ensures Look(f2, dirs2, r) == if r == ByEnv(e) then Entry(p, NO_BITS.(p := true)) else Look(f0, dirs, r)
    {
      assert Look(f2, dirs, r) == Look(f1, dirs, r) == Look(f0, dirs, r);
    }
  }

  /** env_alloc: the first free slot gets the next id, a page directory and nothing below
      UTOP. */
  method EnvAlloc(k: Kernel, parent: int) returns (r: Created)
    requires k.Settled()
    modifies k`ppRef, k`link, k`head, k`frames, k`free, k`held, k`refs, k`dirs, k`slots, k`envFree
    ensures k.Settled() && (old(k.Boundary()) ==> k.Boundary())
    ensures Grows(old(k.refs), k.refs, 1)
    ensures r.NoFreeEnv? <==> forall i {:trigger old(k.slots)[i]} :: 0 <= i < 1024 ==> !old(k.slots)[i].free
    ensures r.NoMem? <==> old(k.free) == [] && !r.NoFreeEnv?
    ensures !r.Created? ==> k.frames == old(k.frames) && k.dirs == old(k.dirs) && k.slots == old(k.slots)
    ensures r.Created? ==>
              && 0 <= r.slot < 1024 && old(k.slots)[r.slot].free && r.slot in k.dirs
              && old(k.envFree) != [] && r.slot == old(k.envFree)[0] && k.envFree == old(k.envFree)[1..]
              && k.slots == old(k.slots)[r.slot :=
                   Slot(false, NextId(old(k.slots)[r.slot].id, r.slot), parent)]
              && k.dirs == old(k.dirs)[r.slot := k.dirs[r.slot]]
              && OnlyAt(old(k.frames), old(k.dirs), k.frames, k.dirs, ByEnv(r.slot),
                        Entry(k.dirs[r.slot], NO_BITS.(p := true)))
              && k.dirs[r.slot] in old(k.free) && 0 <= k.dirs[r.slot] < |old(k.frames)| == |k.frames|
              && |k.free| == |old(k.free)| - 1
              && k.frames == old(k.frames)[k.dirs[r.slot] := k.frames[k.dirs[r.slot]]]
  {
    if k.envFree == [] {
      FullSlots(k.slots, k.envFree);
      return NoFreeEnv;
    }
    var e := k.envFree[0];
    assert EnvFreeAt(k.slots, k.envFree, e) && SlotAt(k.slots, k.dirs, e);
    var ok := EnvSetupVm(k, e);
    if !ok {
      return NoMem;
    }
    SlotTaken(k.slots, old(k.dirs), k.dirs, k.envFree, Slot(false, NextId(k.slots[e].id, e), parent));
    k.slots := k.slots[e := Slot(false, NextId(k.slots[e].id, e), parent)];
    k.envFree := k.envFree[1..];
    return Created(e);
  }

  /** The part of env_run that concerns memory: environment `e` becomes the current one. */
  method EnvRun(k: Kernel, e: int)
    requires k.Settled() && e in k.dirs
    modifies k`cur
    ensures k.Boundary() && k.cur == e
  {
    assert SlotAt(k.slots, k.dirs, e);
    k.cur := e;
  }

  /** From boot to the first environment: every system call finds the kernel at a boundary.
      This fails exactly if boot leaves no page free. */
  method Boot(npages: int, basemem: int, iohole: int, nextfree: int, mpentry: int, kernDir: seq<Entry>)
    returns (k: Kernel, ok: bool)
    requires 0 < mpentry < basemem <= iohole <= nextfree <= npages && KernelDir(kernDir)
    ensures fresh(k) && k.Settled() && (ok ==> k.Boundary() && k.cur == 0 && k.slots[0] == Slot(false, 4096, 0))
    ensures ok <==> basemem > 2 || nextfree < npages
  {
    k := new Kernel(npages, basemem, iohole, nextfree, mpentry, kernDir);
    ghost var p := if basemem <= 2 then nextfree else if mpentry == 1 then 2 else 1;
    assert p in k.free <==> basemem > 2 || nextfree < npages;
    if k.free != [] {
      ghost var q := k.free[0];
      assert q in k.free;
      assert (1 <= q < basemem && q != mpentry) || nextfree <= q < npages;
    }
    assert k.free != [] <==> basemem > 2 || nextfree < npages;
    ok := FirstEnv(k);
  }

  /** The first environment is created in slot 0 and run. */
  method FirstEnv(k: Kernel) returns (ok: bool)
    requires k.Settled() && k.envFree != [] && k.envFree[0] == 0 && k.slots[0] == Slot(true, 0, 0)
    modifies k
    ensures k.Settled() && (ok <==> old(k.free) != [])
    ensures ok ==> k.Boundary() && k.cur == 0 && k.slots[0] == Slot(false, 4096, 0)
  {
    var r := EnvAlloc(k, 0);
    ok := r.Created?;
    if ok {
      FirstId(0);
      EnvRun(k, r.slot);
    }
  }

  lemma FullSlots(slots: Slots, envFree: seq<int>)
    requires forall i {:trigger EnvFreeAt(slots, envFree, i)} :: EnvFreeAt(slots, envFree, i)
    requires envFree == []
    ensures forall i {:trigger slots[i]} :: 0 <= i < 1024 ==> !slots[i].free
  {
    forall i {:trigger slots[i]} | 0 <= i < 1024
      ensures !slots[i].free
    {
      assert EnvFreeAt(slots, envFree, i);
    }
  }

  lemma SlotTaken(slots: Slots, dirs: Dirs, dirs2: Dirs, envFree: seq<int>, s: Slot)
    requires forall i {:trigger SlotAt(slots, dirs, i)} :: SlotAt(slots, dirs, i)
    requires forall i {:trigger EnvFreeAt(slots, envFree, i)} :: EnvFreeAt(slots, envFree, i)
    requires forall i, j {:trigger DistinctAt(envFree, i, j)} :: DistinctAt(envFree, i, j)
    requires envFree != [] && 0 <= envFree[0] < 1024 && !s.free && s.id > 0 && Envx(s.id) == envFree[0]
    requires forall i {:trigger i in dirs2} :: i in dirs2 <==> i in dirs || i == envFree[0]
    ensures var slots2, list2 := slots[envFree[0] := s], envFree[1..];
            && (forall i {:trigger SlotAt(slots2, dirs2, i)} :: SlotAt(slots2, dirs2, i))
            && (forall i {:trigger EnvFreeAt(slots2, list2, i)} :: EnvFreeAt(slots2, list2, i))
            && (forall i, j {:trigger DistinctAt(list2, i, j)} :: DistinctAt(list2, i, j))
  {
    var slots2: Slots, list2 := slots[envFree[0] := s], envFree[1..];
    forall i {:trigger SlotAt(slots2, dirs2, i)} {:trigger EnvFreeAt(slots2, list2, i)} | true
      ensures SlotAt(slots2, dirs2, i) && EnvFreeAt(slots2, list2, i)
    {
      assert SlotAt(slots, dirs, i) && EnvFreeAt(slots, envFree, i);
      assert i in envFree <==> i == envFree[0] || i in list2;
      assert envFree[0] !in list2 by {
        forall j | 0 <= j < |list2|
          ensures list2[j] != envFree[0]
        {
          assert DistinctAt(envFree, 0, j + 1);
        }
      }
    }
    forall i, j {:trigger DistinctAt(list2, i, j)} | true
      ensures DistinctAt(list2, i, j)
    {
      assert DistinctAt(envFree, i + 1, j + 1);
    }
  }

  // ---------- Tearing an address space down ----------

  /** The mappings of `e` below page number `m` and its page tables below directory entry
      `c` are gone; everything else is as in `frames0`. */
  ghost function Stripped(frames0: Frames, dirs: Dirs, e: int, m: int, c: int, r: Ref): Entry {
    if r.e == e && ((r.ByPte? && r.n < m) || (r.ByPde? && r.d < c)) then ABSENT else Look(frames0, dirs, r)
  }

  ghost predicate StrippedTo(frames0: Frames, dirs: Dirs, frames: Frames, e: int, m: int, c: int) {
    && |frames| == |frames0|
    && forall r: Ref {:trigger Look(frames, dirs, r)} ::
         Look(frames, dirs, r) == Stripped(frames0, dirs, e, m, c, r)
  }

  /** Data pages keep their contents while tables come down. */
  ghost predicate ContentsAt(frames0: Frames, dirs: Dirs, frames: Frames, p: int) {
    0 <= p < |frames0| && p < |frames| && NoTable(frames0, dirs, p) ==> frames[p] == frames0[p]
  }

  ghost predicate Contents(frames0: Frames, dirs: Dirs, frames: Frames) {
    forall p {:trigger ContentsAt(frames0, dirs, frames, p)} :: ContentsAt(frames0, dirs, frames, p)
  }

  lemma StripOne(frames0: Frames, dirs: Dirs, f1: Frames, f2: Frames, e: int, m: int, c: int)
    requires StrippedTo(frames0, dirs, f1, e, m, c) && Contents(frames0, dirs, f1) && |f2| == |f1|
    requires OnlyAt(f1, dirs, f2, dirs, ByPte(e, m), ABSENT) && Kept(f1, dirs, [], f2)
    ensures StrippedTo(frames0, dirs, f2, e, m + 1, c) && Contents(frames0, dirs, f2)
  {
    forall r: Ref {:trigger Look(f2, dirs, r)} | true
      ensures Look(f2, dirs, r) == Stripped(frames0, dirs, e, m + 1, c, r)
    {
      assert Look(f1, dirs, r) == Stripped(frames0, dirs, e, m, c, r);
    }
    forall p {:trigger ContentsAt(frames0, dirs, f2, p)} | true
      ensures ContentsAt(frames0, dirs, f2, p)
    {
      assert ContentsAt(frames0, dirs, f1, p) && KeptAt(f1, dirs, [], f2, p);
      StillNoTable(frames0, dirs, f1, e, m, c, p);
    }
  }

  lemma StillNoTable(frames0: Frames, dirs: Dirs, f1: Frames, e: int, m: int, c: int, p: int)
    requires StrippedTo(frames0, dirs, f1, e, m, c)
    ensures 0 <= p && NoTable(frames0, dirs, p) ==> NoTable(f1, dirs, p)
  {
    if 0 <= p && NoTable(frames0, dirs, p) {
      forall r: Ref {:trigger Target(f1, dirs, r)} | !r.ByPte?
        ensures Target(f1, dirs, r) != p
      {
        assert Look(f1, dirs, r) == Stripped(frames0, dirs, e, m, c, r);
        assert Target(frames0, dirs, r) != p;
      }
    }
  }

  /** Entries that are absent already need no removal. */
  lemma StripAbsent(frames0: Frames, dirs: Dirs, f: Frames, e: int, m: int, m2: int, c: int)
    requires StrippedTo(frames0, dirs, f, e, m, c) && m <= m2
    requires forall n {:trigger Look(f, dirs, ByPte(e, n))} :: m <= n < m2 ==> Look(f, dirs, ByPte(e, n)) == ABSENT
    ensures StrippedTo(frames0, dirs, f, e, m2, c)
  {
    forall r: Ref {:trigger Look(f, dirs, r)} | true
      ensures Look(f, dirs, r) == Stripped(frames0, dirs, e, m2, c, r)
    {
      assert Look(f, dirs, r) == Stripped(frames0, dirs, e, m, c, r);
      if r.ByPte? && r.e == e { assert m <= r.n < m2 ==> Look(f, dirs, ByPte(e, r.n)) == ABSENT; }
    }
  }

  /** The inner loop of env_free: removes every page of one page table. */
  method UnmapTable(k: Kernel, e: int, d: int, ghost frames0: Frames)
    requires k.Inv() && e in k.dirs && 0 <= d < NPDE
    requires Look(k.frames, k.dirs, ByPde(e, d)).bits.p
    requires StrippedTo(frames0, k.dirs, k.frames, e, 1024 * d, d) && Contents(frames0, k.dirs, k.frames)
    modifies k`ppRef, k`link, k`head, k`frames, k`free, k`held, k`refs
    ensures k.Inv() && k.held == old(k.held)
    ensures StrippedTo(frames0, k.dirs, k.frames, e, 1024 * (d + 1), d) && Contents(frames0, k.dirs, k.frames)
  {
    var pteno := 0;
    while pteno < 1024
      invariant 0 <= pteno <= 1024
      invariant k.Inv() && k.held == old(k.held)
      invariant StrippedTo(frames0, k.dirs, k.frames, e, 1024 * d + pteno, d) && Contents(frames0, k.dirs, k.frames)
    {
      var n := 1024 * d + pteno;
      ghost var before := k.frames;
      if Look(k.frames, k.dirs, ByPte(e, n)).bits.p {
        k.PageRemove(e, n);
        StripOne(frames0, k.dirs, before, k.frames, e, n, d);
      } else {
        StripAbsent(frames0, k.dirs, k.frames, e, n, n + 1, d);
      }
      pteno := pteno + 1;
    }
  }

  /** Clearing the directory entry of a page table whose pages are all gone. */
  lemma ClearPdeEffect(frames0: Frames, dirs: Dirs, refs: Refs, frames: Frames, e: int, d: int)
    requires Mapped(frames, dirs, refs) && e in dirs && 0 <= d < NPDE
    requires Look(frames, dirs, ByPde(e, d)).bits.p
    requires StrippedTo(frames0, dirs, frames, e, 1024 * (d + 1), d) && Contents(frames0, dirs, frames)
    ensures var p := Look(frames, dirs, ByPde(e, d)).page;
            && 0 <= p < |refs| && ByPde(e, d) in refs[p] && 0 <= dirs[e] < |frames|
            && var frames2 := Write(frames, dirs[e], d, ABSENT);
            && Mapped(frames2, dirs, refs[p := refs[p] - {ByPde(e, d)}])
            && StrippedTo(frames0, dirs, frames2, e, 1024 * (d + 1), d + 1) && Contents(frames0, dirs, frames2)
  {
    var r0, p := ByPde(e, d), Look(frames, dirs, ByPde(e, d)).page;
    assert InRangeAt(frames, dirs, r0) && InRangeAt(frames, dirs, ByEnv(e)) && CountAt(frames, dirs, refs, r0, p);
    assert Blank(frames, p) by {
      forall i {:trigger BlankAt(frames, p, i)} | true
        ensures BlankAt(frames, p, i)
      {
        if 0 <= i < 1024 {
          var n := 1024 * d + i;
          assert Look(frames, dirs, ByPte(e, n)) == Stripped(frames0, dirs, e, 1024 * (d + 1), d, ByPte(e, n));
          assert Pdx(n) == d && Ptx(n) == i;
        }
      }
    }
    WritePde(frames, dirs, e, d, ABSENT);
    var frames2 := Write(frames, dirs[e], d, ABSENT);
    RetargetMapped(frames, dirs, frames2, dirs, refs, r0, ABSENT);
    StripPde(frames0, dirs, frames, frames2, e, d);
  }

  lemma StripPde(frames0: Frames, dirs: Dirs, frames: Frames, frames2: Frames, e: int, d: int)
    requires e in dirs && 0 <= dirs[e] < |frames| == |frames2|
    requires StrippedTo(frames0, dirs, frames, e, 1024 * (d + 1), d) && Contents(frames0, dirs, frames)
    requires OnlyAt(frames, dirs, frames2, dirs, ByPde(e, d), ABSENT)
    requires frames2 == frames[dirs[e] := frames2[dirs[e]]]
    ensures StrippedTo(frames0, dirs, frames2, e, 1024 * (d + 1), d + 1) && Contents(frames0, dirs, frames2)
  {
    forall r: Ref {:trigger Look(frames2, dirs, r)} | true
      ensures Look(frames2, dirs, r) == Stripped(frames0, dirs, e, 1024 * (d + 1), d + 1, r)
    {
      assert Look(frames, dirs, r) == Stripped(frames0, dirs, e, 1024 * (d + 1), d, r);
    }
    forall q {:trigger ContentsAt(frames0, dirs, frames2, q)} | true
      ensures ContentsAt(frames0, dirs, frames2, q)
    {
      assert ContentsAt(frames0, dirs, frames, q);
      assert NoTable(frames0, dirs, q) ==> Target(frames0, dirs, ByEnv(e)) != q;
    }
  }

  /** Every place of environment `e` is empty; all other places are as before. */
  ghost predicate Gone(frames0: Frames, dirs0: Dirs, frames: Frames, dirs: Dirs, e: int) {
    forall r: Ref {:trigger Look(frames, dirs, r)} ::
      Look(frames, dirs, r) == if r.e == e then ABSENT else Look(frames0, dirs0, r)
  }

  lemma DropDirEffect(frames0: Frames, dirs: Dirs, refs: Refs, frames: Frames, e: int)
    requires Mapped(frames, dirs, refs) && e in dirs
    requires StrippedTo(frames0, dirs, frames, e, NPAGE, NPDE)
    ensures 0 <= dirs[e] < |refs| && ByEnv(e) in refs[dirs[e]]
    ensures Mapped(frames, dirs - {e}, refs[dirs[e] := refs[dirs[e]] - {ByEnv(e)}])
    ensures Gone(frames0, dirs, frames, dirs - {e}, e)
  {
    var p := dirs[e];
    assert InRangeAt(frames, dirs, ByEnv(e)) && CountAt(frames, dirs, refs, ByEnv(e), p);
    forall d {:trigger Look(frames, dirs, ByPde(e, d))} | true
      ensures Look(frames, dirs, ByPde(e, d)) == ABSENT
    {
      assert Look(frames, dirs, ByPde(e, d)) == Stripped(frames0, dirs, e, NPAGE, NPDE, ByPde(e, d));
    }
    DropDir(frames, dirs, e);
    RetargetMapped(frames, dirs, frames, dirs - {e}, refs, ByEnv(e), ABSENT);
    forall r: Ref {:trigger Look(frames, dirs - {e}, r)} | true
      ensures Look(frames, dirs - {e}, r) == if r.e == e then ABSENT else Look(frames0, dirs, r)
    {
      assert Look(frames, dirs, r) == Stripped(frames0, dirs, e, NPAGE, NPDE, r);
    }
  }

  lemma SlotFreed(slots: Slots, dirs: Dirs, envFree: seq<int>, e: int)
    requires forall i {:trigger SlotAt(slots, dirs, i)} :: SlotAt(slots, dirs, i)
    requires forall i {:trigger EnvFreeAt(slots, envFree, i)} :: EnvFreeAt(slots, envFree, i)
    requires forall i, j {:trigger DistinctAt(envFree, i, j)} :: DistinctAt(envFree, i, j)
    requires e in dirs
    ensures 0 <= e < 1024
    ensures var slots2: Slots, list2 := slots[e := slots[e].(free := true)], [e] + envFree;
            && (forall i {:trigger SlotAt(slots2, dirs - {e}, i)} :: SlotAt(slots2, dirs - {e}, i))
            && (forall i {:trigger EnvFreeAt(slots2, list2, i)} :: EnvFreeAt(slots2, list2, i))
            && (forall i, j {:trigger DistinctAt(list2, i, j)} :: DistinctAt(list2, i, j))
  {
    assert SlotAt(slots, dirs, e) && EnvFreeAt(slots, envFree, e);
    var slots2: Slots, list2 := slots[e := slots[e].(free := true)], [e] + envFree;
    forall i {:trigger SlotAt(slots2, dirs - {e}, i)} {:trigger EnvFreeAt(slots2, list2, i)} | true
      ensures SlotAt(slots2, dirs - {e}, i) && EnvFreeAt(slots2, list2, i)
    {
      assert SlotAt(slots, dirs, i) && EnvFreeAt(slots, envFree, i);
      assert i in list2 <==> i == e || i in envFree;
    }
    forall i, j {:trigger DistinctAt(list2, i, j)} | true
      ensures DistinctAt(list2, i, j)
    {
      assert DistinctAt(envFree, i - 1, j - 1);
      assert 0 < j < |list2| ==> list2[j] in envFree;
    }
  }

  /** The outer loop of env_free: takes down every page table below UTOP. */
  method StripAll(k: Kernel, e: int)
    requires k.Inv() && e in k.dirs
    modifies k`ppRef, k`link, k`head, k`frames, k`free, k`held, k`refs
    ensures k.Inv() && k.held == old(k.held)
    ensures StrippedTo(old(k.frames), k.dirs, k.frames, e, NPAGE, NPDE)
    ensures Contents(old(k.frames), k.dirs, k.frames)
  {
    var pdeno := 0;
    ghost var frames0 := k.frames;
    assert StrippedTo(frames0, k.dirs, k.frames, e, 0, 0);
    while pdeno < NPDE
      invariant 0 <= pdeno <= NPDE && frames0 == old(k.frames)
      invariant k.Inv() && k.held == old(k.held)
      invariant StrippedTo(frames0, k.dirs, k.frames, e, 1024 * pdeno, pdeno) && Contents(frames0, k.dirs, k.frames)
    {
      var pde := Look(k.frames, k.dirs, ByPde(e, pdeno));
      if pde.bits.p {
        UnmapTable(k, e, pdeno, frames0);
        FreeTable(k, e, pdeno, frames0);
      } else {
        SkipTable(frames0, k.dirs, k.frames, e, pdeno);
      }
      pdeno := pdeno + 1;
    }
  }

  lemma SkipTable(frames0: Frames, dirs: Dirs, f: Frames, e: int, d: int)
    requires StrippedTo(frames0, dirs, f, e, 1024 * d, d) && e in dirs && 0 <= d < NPDE
    requires !Look(f, dirs, ByPde(e, d)).bits.p
    ensures StrippedTo(frames0, dirs, f, e, 1024 * (d + 1), d + 1)
  {
    StripAbsent(frames0, dirs, f, e, 1024 * d, 1024 * (d + 1), d);
    forall r: Ref {:trigger Look(f, dirs, r)} | true
      ensures Look(f, dirs, r) == Stripped(frames0, dirs, e, 1024 * (d + 1), d + 1, r)
    {
      assert Look(f, dirs, r) == Stripped(frames0, dirs, e, 1024 * (d + 1), d, r);
    }
  }

  /** The part of env_free that clears a directory entry and gives the page table back. */
  method FreeTable(k: Kernel, e: int, d: int, ghost frames0: Frames)
    requires k.Inv() && e in k.dirs && 0 <= d < NPDE
    requires StrippedTo(frames0, k.dirs, k.frames, e, 1024 * (d + 1), d) && Contents(frames0, k.dirs, k.frames)
    requires Look(k.frames, k.dirs, ByPde(e, d)).bits.p
    modifies k`ppRef, k`link, k`head, k`frames, k`free, k`held, k`refs
    ensures k.Inv() && k.held == old(k.held)
    ensures StrippedTo(frames0, k.dirs, k.frames, e, 1024 * (d + 1), d + 1) && Contents(frames0, k.dirs, k.frames)
  {
    var p := Look(k.frames, k.dirs, ByPde(e, d)).page;
    ClearPdeEffect(frames0, k.dirs, k.refs, k.frames, e, d);
    k.frames := Write(k.frames, k.dirs[e], d, ABSENT);
    k.PageDecref(p, ByPde(e, d));
  }

  /** env_free: environment `e` loses every mapping, page table and its page directory, and
      nothing else changes hands. */
  method EnvFree(k: Kernel, e: int)
    requires k.Settled() && e in k.dirs
    modifies k`ppRef, k`link, k`head, k`frames, k`free, k`held, k`refs, k`dirs, k`slots, k`envFree
    ensures k.Settled()
    ensures k.dirs == old(k.dirs) - {e} && 0 <= e < 1024
    ensures k.slots == old(k.slots)[e := old(k.slots)[e].(free := true)]
    ensures Gone(old(k.frames), old(k.dirs), k.frames, k.dirs, e)
    ensures Contents(old(k.frames), old(k.dirs), k.frames)
  {
    StripAll(k, e);
    DropDirEffect(old(k.frames), k.dirs, k.refs, k.frames, e);
    SlotFreed(k.slots, k.dirs, k.envFree, e);
    var p := k.dirs[e];
    k.dirs := k.dirs - {e};
    k.PageDecref(p, ByEnv(e));
    k.slots := k.slots[e := k.slots[e].(free := true)];
    k.envFree := [e] + k.envFree;
  }

  /** What env_free means for the counts: each page keeps exactly the references of the
      other environments, and is free afterwards exactly when those are none. */
  lemma FreedCounts(k: Kernel, frames0: Frames, dirs0: Dirs, refs0: Refs, e: int, p: int)
    requires k.Settled() && Counted(frames0, dirs0, refs0) && |frames0| == k.npages
    requires Gone(frames0, dirs0, k.frames, k.dirs, e)
    requires 0 <= p < k.npages && p !in k.kern && p !in k.lost
    ensures k.refs[p] == set r | r in refs0[p] && r.e != e
    ensures k.ppRef[p] == |refs0[p]| - |set r | r in refs0[p] && r.e == e|
    ensures p in k.free <==> forall r :: r in refs0[p] ==> r.e == e
  {
    var mine, rest := set r | r in refs0[p] && r.e == e, set r | r in refs0[p] && r.e != e;
    assert k.refs[p] == rest by {
      forall r {:trigger r in rest} {:trigger r in k.refs[p]} | true
        ensures r in k.refs[p] <==> r in rest
      {
        assert CountAt(k.frames, k.dirs, k.refs, r, p) && CountAt(frames0, dirs0, refs0, r, p);
        assert Look(k.frames, k.dirs, r) == if r.e == e then ABSENT else Look(frames0, dirs0, r);
      }
    }
    assert mine + rest == refs0[p] && mine !! rest;
    assert RefAt(k.ppRef, k.refs, k.kern, p) && FreeAt(k.ppRef, k.free, k.held, p);
    assert rest == {} <==> forall r :: r in refs0[p] ==> r.e == e;
  }
}
