/** The user-level fault handler and fork of `lib/fork.c`, made of the system calls, and the
    proof that each call takes the step of the copy-on-write machine that bears its name. */
module Fork {
  import opened PageTables
  import opened EnvIds
  import opened Kernel
  import opened Syscalls
  import opened Environments
  import opened Cow

  ghost function Now(k: Kernel): State
    reads k
  {
    State(k.frames, k.dirs)
  }

  // ---------- From the kernel's terms to the machine's ----------

  lemma MappedInUse(ppRef: seq<int>, free: seq<int>, held: set<int>, refs: Refs, kern: set<int>,
                    frames: Frames, dirs: Dirs, a: At)
    requires Accounted(ppRef, free, held, refs, kern) && Mapped(frames, dirs, refs)
    requires EntryAt(State(frames, dirs), a).bits.p
    ensures var p := EntryAt(State(frames, dirs), a).page;
            0 <= p < |frames| && p !in free && NoTable(frames, dirs, p)
  {
    var r := ByPte(a.e, a.n);
    UserNoTable(frames, dirs, refs, r);
    SameCount(ppRef, free, held, refs, kern, frames, dirs, Look(frames, dirs, r).page, r);
  }

  lemma KeptKeeps(ppRef: seq<int>, free: seq<int>, held: set<int>, refs: Refs, kern: set<int>,
                  frames: Frames, dirs: Dirs, frames2: Frames)
    requires Accounted(ppRef, free, held, refs, kern) && Mapped(frames, dirs, refs)
    requires Kept(frames, dirs, free, frames2)
    ensures Keeps(State(frames, dirs), State(frames2, dirs))
  {
    var s, t := State(frames, dirs), State(frames2, dirs);
    forall a {:trigger KeepsAt(s, t, a)} | true
      ensures KeepsAt(s, t, a)
    {
      if EntryAt(s, a).bits.p {
        MappedInUse(ppRef, free, held, refs, kern, frames, dirs, a);
        assert KeptAt(frames, dirs, free, frames2, EntryAt(s, a).page);
      }
    }
  }

  lemma FreeFresh(ppRef: seq<int>, free: seq<int>, held: set<int>, refs: Refs, kern: set<int>,
                  frames: Frames, dirs: Dirs, p: int)
    requires Accounted(ppRef, free, held, refs, kern) && Mapped(frames, dirs, refs) && p in free
    ensures Fresh(State(frames, dirs), p)
  {
    var s := State(frames, dirs);
    forall a {:trigger FreshAt(s, p, a)} | true
      ensures FreshAt(s, p, a)
    {
      if EntryAt(s, a).bits.p {
        MappedInUse(ppRef, free, held, refs, kern, frames, dirs, a);
      }
    }
  }

  lemma MapsOnlyAfter(frames: Frames, dirs: Dirs, frames2: Frames, e: int, n: int, x: Entry, a: At)
    requires MapsOnly(frames, dirs, frames2, e, n, x)
    ensures EntryAt(State(frames2, dirs), a) == if a == At(e, n) then x else EntryAt(State(frames, dirs), a)
  {
    assert Look(frames2, dirs, ByPte(a.e, a.n)) ==
           if a.e == e && a.n == n then x else Look(frames, dirs, ByPte(a.e, a.n));
  }

  // ---------- What the running environment does to its own pages ----------

  lemma WriteFrame(k: Kernel, n: int, f: Frame)
    requires k.Boundary() && Look(k.frames, k.dirs, ByPte(k.cur, n)).bits.p
    ensures var p := Look(k.frames, k.dirs, ByPte(k.cur, n)).page;
            && 0 <= p < |k.frames|
            && SameLook(k.frames, k.dirs, k.frames[p := f], k.dirs) && Mapped(k.frames[p := f], k.dirs, k.refs)
  {
    var r := ByPte(k.cur, n);
    UserNoTable(k.frames, k.dirs, k.refs, r);
    var p := Look(k.frames, k.dirs, r).page;
    WriteData(k.frames, k.dirs, p, f);
    SameMapped(k.frames, k.dirs, k.frames[p := f], k.dirs, k.refs);
  }

  /** A store by the current environment, which the page tables must allow. */
  method UserStore(k: Kernel, n: int, off: int, b: int)
    requires k.Boundary() && 0 <= off < 4096
    requires Look(k.frames, k.dirs, ByPte(k.cur, n)).bits.p && Look(k.frames, k.dirs, ByPte(k.cur, n)).bits.w
    modifies k`frames
    ensures k.Boundary()
    ensures Step(old(Now(k)), Store(k.cur, n, off, b), Now(k))
  {
    var p := Look(k.frames, k.dirs, ByPte(k.cur, n)).page;
    assert InRangeAt(k.frames, k.dirs, ByPte(k.cur, n));
    var f := Data(Bytes(k.frames[p])[off := b]);
    WriteFrame(k, n, f);
    k.frames := k.frames[p := f];
    ghost var s, t, op := old(Now(k)), Now(k), Store(k.cur, n, off, b);
    forall a {:trigger EntryAfterAt(s, op, t, a)} | true
      ensures EntryAfterAt(s, op, t, a)
    {
      assert Look(k.frames, k.dirs, ByPte(a.e, a.n)) == Look(old(k.frames), k.dirs, ByPte(a.e, a.n));
    }
  }

  /** memcpy of one page within the current environment. */
  method CopyPage(k: Kernel, dst: int, src: int)
    requires k.Boundary()
    requires Look(k.frames, k.dirs, ByPte(k.cur, dst)).bits.p && Look(k.frames, k.dirs, ByPte(k.cur, dst)).bits.w
    requires Look(k.frames, k.dirs, ByPte(k.cur, src)).bits.p
    modifies k`frames
    ensures k.Boundary() && SameLook(old(k.frames), k.dirs, k.frames, k.dirs)
    ensures var q := Look(k.frames, k.dirs, ByPte(k.cur, dst)).page;
            var p := Look(k.frames, k.dirs, ByPte(k.cur, src)).page;
            && 0 <= q < |old(k.frames)| && 0 <= p < |old(k.frames)|
            && k.frames == old(k.frames)[q := Data(Bytes(old(k.frames)[p]))]
  {
    var q := Look(k.frames, k.dirs, ByPte(k.cur, dst)).page;
    var p := Look(k.frames, k.dirs, ByPte(k.cur, src)).page;
    assert InRangeAt(k.frames, k.dirs, ByPte(k.cur, dst)) && InRangeAt(k.frames, k.dirs, ByPte(k.cur, src));
    var f := Data(Bytes(k.frames[p]));
    WriteFrame(k, dst, f);
    k.frames := k.frames[q := f];
    assert Look(k.frames, k.dirs, ByPte(k.cur, dst)) == Look(old(k.frames), k.dirs, ByPte(k.cur, dst));
    assert Look(k.frames, k.dirs, ByPte(k.cur, src)) == Look(old(k.frames), k.dirs, ByPte(k.cur, src));
  }

  // ---------- Room in the 16-bit counts ----------

  /** The references to a page that is mapped are its mappings. */
  lemma MappedRefs(k: Kernel, p: int, a: At, r: Ref)
    requires k.Inv() && EntryAt(Now(k), a).bits.p && EntryAt(Now(k), a).page == p
    ensures 0 <= p < |k.refs|
    ensures r in k.refs[p] <==> r.ByPte? && Look(k.frames, k.dirs, r).bits.p && Look(k.frames, k.dirs, r).page == p
  {
    UserNoTable(k.frames, k.dirs, k.refs, ByPte(a.e, a.n));
    assert CountAt(k.frames, k.dirs, k.refs, r, p);
    assert !r.ByPte? ==> Target(k.frames, k.dirs, r) != p;
  }

  /** A page that was just allocated has one reference. */
  lemma NewPageRoom(k: Kernel, f0: Frames, e: int, n: int, q: int, bits: Bits)
    requires k.Inv() && MapsOnly(f0, k.dirs, k.frames, e, n, Entry(q, bits)) && bits.p && Fresh(State(f0, k.dirs), q)
    ensures RoomAt(k.refs, q)
  {
    MapsOnlyAfter(f0, k.dirs, k.frames, e, n, Entry(q, bits), At(e, n));
    MappedRefs(k, q, At(e, n), ByPte(e, n));
    forall r {:trigger r in k.refs[q]} | true
      ensures r in k.refs[q] <==> r == ByPte(e, n)
    {
      MappedRefs(k, q, At(e, n), r);
      if r.ByPte? {
        MapsOnlyAfter(f0, k.dirs, k.frames, e, n, Entry(q, bits), At(r.e, r.n));
        assert FreshAt(State(f0, k.dirs), q, At(r.e, r.n));
      }
    }
    assert k.refs[q] == {ByPte(e, n)};
  }

  // ---------- The fault handler ----------

  /** The four phases of pgfault: allocate at PFTEMP, copy, map at the fault address, unmap
      PFTEMP. */
  lemma FaultCompose(f0: Frames, f1: Frames, f2: Frames, f3: Frames, f4: Frames, dirs: Dirs, e: int, n: int, q: int)
    requires n != PFTEMP
    requires var x := Look(f0, dirs, ByPte(e, n)); x.bits.p && x.bits.cow
    requires MapsOnly(f0, dirs, f1, e, PFTEMP, Entry(q, WRITE_BITS)) && Fresh(State(f0, dirs), q)
    requires SameLook(f1, dirs, f2, dirs)
    requires MapsOnly(f2, dirs, f3, e, n, Entry(q, WRITE_BITS))
    requires OnlyAt(f3, dirs, f4, dirs, ByPte(e, PFTEMP), ABSENT)
    ensures var s, t, op := State(f0, dirs), State(f4, dirs), Fault(e, n);
            && (forall a {:trigger EntryAfterAt(s, op, t, a)} :: a != At(e, n) ==> EntryAfterAt(s, op, t, a))
            && EntryAt(t, At(e, n)) == Entry(q, WRITE_BITS) && Enabled(s, op)
  {
    var s, t, op := State(f0, dirs), State(f4, dirs), Fault(e, n);
    forall a {:trigger EntryAfterAt(s, op, t, a)} | a != At(e, n)
      ensures EntryAfterAt(s, op, t, a)
    {
      FaultPlace(f0, f1, f2, f3, f4, dirs, e, n, q, a);
    }
    FaultPlace(f0, f1, f2, f3, f4, dirs, e, n, q, At(e, n));
  }

  lemma FaultPlace(f0: Frames, f1: Frames, f2: Frames, f3: Frames, f4: Frames, dirs: Dirs, e: int, n: int, q: int,
                   a: At)
    requires n != PFTEMP
    requires MapsOnly(f0, dirs, f1, e, PFTEMP, Entry(q, WRITE_BITS))
    requires SameLook(f1, dirs, f2, dirs)
    requires MapsOnly(f2, dirs, f3, e, n, Entry(q, WRITE_BITS))
    requires OnlyAt(f3, dirs, f4, dirs, ByPte(e, PFTEMP), ABSENT)
    ensures EntryAt(State(f4, dirs), a) ==
            if a == At(e, n) then Entry(q, WRITE_BITS)
            else if a == At(e, PFTEMP) then ABSENT else EntryAt(State(f0, dirs), a)
    ensures a != At(e, n) && a != At(e, PFTEMP) ==>
              EntryAt(State(f0, dirs), a) == EntryAt(State(f1, dirs), a) == EntryAt(State(f2, dirs), a)
              == EntryAt(State(f3, dirs), a)
  {
    MapsOnlyAfter(f0, dirs, f1, e, PFTEMP, Entry(q, WRITE_BITS), a);
    assert Look(f2, dirs, ByPte(a.e, a.n)) == Look(f1, dirs, ByPte(a.e, a.n));
    MapsOnlyAfter(f2, dirs, f3, e, n, Entry(q, WRITE_BITS), a);
    assert Look(f4, dirs, ByPte(a.e, a.n)) ==
           if ByPte(a.e, a.n) == ByPte(e, PFTEMP) then ABSENT else Look(f3, dirs, ByPte(a.e, a.n));
  }

  lemma FaultKeeps(f0: Frames, f1: Frames, f2: Frames, f3: Frames, f4: Frames, dirs: Dirs, e: int, n: int, q: int,
                   p: int)
    requires n != PFTEMP && Look(f0, dirs, ByPte(e, n)).bits.p && Look(f0, dirs, ByPte(e, n)).page == p
    requires MapsOnly(f0, dirs, f1, e, PFTEMP, Entry(q, WRITE_BITS)) && Fresh(State(f0, dirs), q)
    requires SameLook(f1, dirs, f2, dirs)
    requires 0 <= q < |f1| && 0 <= p < |f1| && f2 == f1[q := Data(Bytes(f1[p]))]
    requires MapsOnly(f2, dirs, f3, e, n, Entry(q, WRITE_BITS))
    requires OnlyAt(f3, dirs, f4, dirs, ByPte(e, PFTEMP), ABSENT)
    requires Keeps(State(f0, dirs), State(f1, dirs)) && Keeps(State(f2, dirs), State(f3, dirs))
    requires Keeps(State(f3, dirs), State(f4, dirs))
    ensures Keeps(State(f0, dirs), State(f4, dirs))
  {
    var s0, s1, s2, s3, s4 := State(f0, dirs), State(f1, dirs), State(f2, dirs), State(f3, dirs), State(f4, dirs);
    forall a {:trigger KeepsAt(s0, s4, a)} | true
      ensures KeepsAt(s0, s4, a)
    {
      FaultPlace(f0, f1, f2, f3, f4, dirs, e, n, q, a);
      assert FreshAt(s0, q, a) && KeepsAt(s0, s1, a) && KeepsAt(s2, s3, a) && KeepsAt(s3, s4, a);
    }
  }

  /** The page at the fault address ends up with the bytes it had. */
  lemma FaultCopies(f0: Frames, f1: Frames, f2: Frames, f3: Frames, f4: Frames, dirs: Dirs, e: int, n: int, q: int,
                    p: int)
    requires n != PFTEMP && Look(f0, dirs, ByPte(e, n)).bits.p && Look(f0, dirs, ByPte(e, n)).page == p
    requires MapsOnly(f0, dirs, f1, e, PFTEMP, Entry(q, WRITE_BITS))
    requires SameLook(f1, dirs, f2, dirs)
    requires 0 <= q < |f1| && 0 <= p < |f1| && f2 == f1[q := Data(Bytes(f1[p]))]
    requires MapsOnly(f2, dirs, f3, e, n, Entry(q, WRITE_BITS))
    requires OnlyAt(f3, dirs, f4, dirs, ByPte(e, PFTEMP), ABSENT)
    requires Keeps(State(f0, dirs), State(f1, dirs)) && Keeps(State(f2, dirs), State(f3, dirs))
    requires Keeps(State(f3, dirs), State(f4, dirs))
    ensures PageBytes(State(f4, dirs), q) == PageBytes(State(f0, dirs), p)
  {
    var s0, s1, s2, s3, s4 := State(f0, dirs), State(f1, dirs), State(f2, dirs), State(f3, dirs), State(f4, dirs);
    var here, temp := At(e, n), At(e, PFTEMP);
    FaultPlace(f0, f1, f2, f3, f4, dirs, e, n, q, here);
    MapsOnlyAfter(f0, dirs, f1, e, PFTEMP, Entry(q, WRITE_BITS), here);
    MapsOnlyAfter(f0, dirs, f1, e, PFTEMP, Entry(q, WRITE_BITS), temp);
    MapsOnlyAfter(f2, dirs, f3, e, n, Entry(q, WRITE_BITS), temp);
    MapsOnlyAfter(f2, dirs, f3, e, n, Entry(q, WRITE_BITS), here);
    assert Look(f2, dirs, ByPte(e, PFTEMP)) == Look(f1, dirs, ByPte(e, PFTEMP));
    assert KeepsAt(s0, s1, here) && KeepsAt(s2, s3, temp) && KeepsAt(s3, s4, here);
  }

  lemma FaultSteps(f0: Frames, f1: Frames, f2: Frames, f3: Frames, f4: Frames, dirs: Dirs, e: int, n: int, q: int,
                   x: Entry)
    requires n != PFTEMP && Look(f0, dirs, ByPte(e, n)) == x && x.bits.p && x.bits.cow
    requires MapsOnly(f0, dirs, f1, e, PFTEMP, Entry(q, WRITE_BITS)) && Fresh(State(f0, dirs), q)
    requires SameLook(f1, dirs, f2, dirs)
    requires 0 <= q < |f1| && 0 <= x.page < |f1| && f2 == f1[q := Data(Bytes(f1[x.page]))]
    requires MapsOnly(f2, dirs, f3, e, n, Entry(q, WRITE_BITS))
    requires OnlyAt(f3, dirs, f4, dirs, ByPte(e, PFTEMP), ABSENT)
    requires Keeps(State(f0, dirs), State(f1, dirs)) && Keeps(State(f2, dirs), State(f3, dirs))
    requires Keeps(State(f3, dirs), State(f4, dirs))
    ensures Step(State(f0, dirs), Fault(e, n), State(f4, dirs))
  {
    FaultKeeps(f0, f1, f2, f3, f4, dirs, e, n, q, x.page);
    FaultCopies(f0, f1, f2, f3, f4, dirs, e, n, q, x.page);
    FaultCompose(f0, f1, f2, f3, f4, dirs, e, n, q);
  }

  /** pgfault.  A false result is the handler's panic, which happens exactly when the fault
      was no write to a copy-on-write page or when memory ran out; in particular the two
      calls after the copy never fail. */
  method PgFault(k: Kernel, n: int, write: bool) returns (ok: bool)
    requires k.Boundary() && 0 <= n < NPAGE && n != PFTEMP
    modifies k`ppRef, k`link, k`head, k`frames, k`free, k`held, k`refs
    ensures k.Boundary()
    ensures ok <==> && write && old(Look(k.frames, k.dirs, ByPte(k.cur, n))).bits.cow
                    && !old(Short(k, k.cur, PFTEMP, 1))
    ensures !ok ==> MapsSame(old(k.frames), k.dirs, k.frames) && Keeps(old(Now(k)), Now(k))
    ensures ok ==> Step(old(Now(k)), Fault(k.cur, n), Now(k))
  {
    var x := Look(k.frames, k.dirs, ByPte(k.cur, n));
    if !write || !x.bits.cow {
      return false;
    }
    var r := SysPageAlloc(k, 0, PFTEMP * PGSIZE, WRITE_BITS);
    KeptKeeps(old(k.ppRef), old(k.free), old(k.held), old(k.refs), k.kern, old(k.frames), k.dirs, k.frames);
    if r != Ok {
      return false;
    }
    ghost var f0, f1 := old(k.frames), k.frames;
    ghost var q := Look(k.frames, k.dirs, ByPte(k.cur, PFTEMP)).page;
    FreeFresh(old(k.ppRef), old(k.free), old(k.held), old(k.refs), k.kern, f0, k.dirs, q);
    MapsOnlyAfter(f0, k.dirs, f1, k.cur, PFTEMP, Entry(q, WRITE_BITS), At(k.cur, n));
    MapsOnlyAfter(f0, k.dirs, f1, k.cur, PFTEMP, Entry(q, WRITE_BITS), At(k.cur, PFTEMP));
    NewPageRoom(k, f0, k.cur, PFTEMP, q, WRITE_BITS);
    CopyPage(k, PFTEMP, n);
    ghost var f2 := k.frames;
    assert Look(f2, k.dirs, ByPte(k.cur, n)) == Look(f1, k.dirs, ByPte(k.cur, n)) == x;
    assert Look(f2, k.dirs, ByPte(k.cur, PFTEMP)) == Look(f1, k.dirs, ByPte(k.cur, PFTEMP));
    FinishFault(k, n, q, f0, f1, x);
    return true;
  }

  /** The second half of pgfault: move the copied page to the fault address. */
  method FinishFault(k: Kernel, n: int, ghost q: int, ghost f0: Frames, ghost f1: Frames, ghost x: Entry)
    requires k.Boundary() && RoomAt(k.refs, q) && 0 <= n < NPAGE && n != PFTEMP
    requires x == Look(f0, k.dirs, ByPte(k.cur, n)) == Look(k.frames, k.dirs, ByPte(k.cur, n)) && x.bits.p && x.bits.cow
    requires Look(k.frames, k.dirs, ByPte(k.cur, PFTEMP)) == Entry(q, WRITE_BITS)
    requires MapsOnly(f0, k.dirs, f1, k.cur, PFTEMP, Entry(q, WRITE_BITS)) && Fresh(State(f0, k.dirs), q)
    requires SameLook(f1, k.dirs, k.frames, k.dirs) && Keeps(State(f0, k.dirs), State(f1, k.dirs))
    requires 0 <= q < |f1| && 0 <= x.page < |f1| && k.frames == f1[q := Data(Bytes(f1[x.page]))]
    modifies k`ppRef, k`link, k`head, k`frames, k`free, k`held, k`refs
    ensures k.Boundary()
    ensures Step(State(f0, k.dirs), Fault(k.cur, n), Now(k))
  {
    ghost var f2 := k.frames;
    MoveUp(k, n, q);
    ghost var f3 := k.frames;
    Unmap(k, PFTEMP);
    FaultSteps(f0, f1, f2, f3, k.frames, k.dirs, k.cur, n, q, x);
  }

  /** sys_page_map from PFTEMP to the fault address, which already has a page table. */
  method MoveUp(k: Kernel, n: int, ghost q: int)
    requires k.Boundary() && RoomAt(k.refs, q) && 0 <= n < NPAGE
    requires Look(k.frames, k.dirs, ByPte(k.cur, n)).bits.p
    requires Look(k.frames, k.dirs, ByPte(k.cur, PFTEMP)) == Entry(q, WRITE_BITS)
    modifies k`ppRef, k`link, k`head, k`frames, k`free, k`held, k`refs
    ensures k.Boundary()
    ensures MapsOnly(old(k.frames), k.dirs, k.frames, k.cur, n, Entry(q, WRITE_BITS)) && Keeps(old(Now(k)), Now(k))
  {
    var r := SysPageMap(k, 0, PFTEMP * PGSIZE, 0, n * PGSIZE, WRITE_BITS);
    assert r == Ok;
    KeptKeeps(old(k.ppRef), old(k.free), old(k.held), old(k.refs), k.kern, old(k.frames), k.dirs, k.frames);
  }

  /** sys_page_unmap for the current environment. */
  method Unmap(k: Kernel, n: int)
    requires k.Boundary() && 0 <= n < NPAGE
    modifies k`ppRef, k`link, k`head, k`frames, k`free, k`held, k`refs
    ensures k.Boundary()
    ensures OnlyAt(old(k.frames), k.dirs, k.frames, k.dirs, ByPte(k.cur, n), ABSENT) && Keeps(old(Now(k)), Now(k))
    ensures var q := Target(old(k.frames), k.dirs, ByPte(k.cur, n));
            k.free == if 0 <= q < |old(k.refs)| && |old(k.refs)[q]| == 1 then old(k.free) + [q] else old(k.free)
  {
    assert PageNum(n * PGSIZE) == n;
    var r := SysPageUnmap(k, 0, n * PGSIZE);
    assert r == Ok;
    KeptWeaken(old(k.frames), k.dirs, old(k.free), k.frames);
    KeptKeeps(old(k.ppRef), old(k.free), old(k.held), old(k.refs), k.kern, old(k.frames), k.dirs, k.frames);
  }

  /** The same call as a step of the machine. */
  method UnmapPage(k: Kernel, n: int)
    requires k.Boundary() && 0 <= n < NPAGE
    modifies k`ppRef, k`link, k`head, k`frames, k`free, k`held, k`refs
    ensures k.Boundary() && Step(old(Now(k)), Op.Unmap(k.cur, n), Now(k))
  {
    Unmap(k, n);
    UnmapSteps(old(k.frames), k.dirs, k.frames, k.cur, n);
  }

  lemma UnmapSteps(frames: Frames, dirs: Dirs, frames2: Frames, e: int, n: int)
    requires OnlyAt(frames, dirs, frames2, dirs, ByPte(e, n), ABSENT)
             && Keeps(State(frames, dirs), State(frames2, dirs))
    ensures Step(State(frames, dirs), Op.Unmap(e, n), State(frames2, dirs))
  {
    var s, t, op := State(frames, dirs), State(frames2, dirs), Op.Unmap(e, n);
    forall a {:trigger EntryAfterAt(s, op, t, a)} | true
      ensures EntryAfterAt(s, op, t, a)
    {
      assert Look(frames2, dirs, ByPte(a.e, a.n)) ==
             if ByPte(a.e, a.n) == ByPte(e, n) then ABSENT else Look(frames, dirs, ByPte(a.e, a.n));
    }
  }

  /** env_free, as everyone sees it: the Exit step. */
  method Leave(k: Kernel, e: int)
    requires k.Settled() && e in k.dirs
    modifies k`ppRef, k`link, k`head, k`frames, k`free, k`held, k`refs, k`dirs, k`slots, k`envFree
    ensures k.Settled() && k.dirs == old(k.dirs) - {e}
    ensures Step(old(Now(k)), Exit(e), Now(k))
  {
    EnvFree(k, e);
    ExitSteps(old(k.ppRef), old(k.free), old(k.held), old(k.refs), k.kern, old(k.frames), old(k.dirs), k.frames,
              k.dirs, e);
  }

  lemma ExitSteps(ppRef: seq<int>, free: seq<int>, held: set<int>, refs: Refs, kern: set<int>,
                  frames: Frames, dirs: Dirs, frames2: Frames, dirs2: Dirs, e: int)
    requires Accounted(ppRef, free, held, refs, kern) && Mapped(frames, dirs, refs)
    requires Gone(frames, dirs, frames2, dirs2, e) && Contents(frames, dirs, frames2) && |frames2| == |frames|
    ensures Step(State(frames, dirs), Exit(e), State(frames2, dirs2))
  {
    var s, t, op := State(frames, dirs), State(frames2, dirs2), Exit(e);
    forall a {:trigger EntryAfterAt(s, op, t, a)} {:trigger KeepsAt(s, t, a)} | true
      ensures EntryAfterAt(s, op, t, a) && KeepsAt(s, t, a)
    {
      assert Look(frames2, dirs2, ByPte(a.e, a.n)) == if a.e == e then ABSENT else Look(frames, dirs, ByPte(a.e, a.n));
      if EntryAt(s, a).bits.p {
        MappedInUse(ppRef, free, held, refs, kern, frames, dirs, a);
        assert ContentsAt(frames, dirs, frames2, EntryAt(s, a).page);
      }
    }
  }

  lemma KeptWeaken(frames: Frames, dirs: Dirs, free: seq<int>, frames2: Frames)
    requires Kept(frames, dirs, [], frames2)
    ensures Kept(frames, dirs, free, frames2)
  {
    forall p {:trigger KeptAt(frames, dirs, free, frames2, p)} | true
      ensures KeptAt(frames, dirs, free, frames2, p)
    {
      assert KeptAt(frames, dirs, [], frames2, p);
    }
  }

  // ---------- duppage ----------

  /** The step that duppage takes, from its one or two mapping calls. */
  lemma DupSteps(f0: Frames, f1: Frames, f2: Frames, dirs: Dirs, e: int, c: int, n: int, x: Entry)
    requires x == Look(f0, dirs, ByPte(e, n)) && x.bits.p && e != c
    requires MapsOnly(f0, dirs, f1, c, n, ChildEntry(x)) && Keeps(State(f0, dirs), State(f1, dirs))
    requires MapsOnly(f1, dirs, f2, e, n, ParentEntry(x)) && Keeps(State(f1, dirs), State(f2, dirs))
    ensures Step(State(f0, dirs), Dup(e, c, n), State(f2, dirs))
  {
    var s0, s1, s2, op := State(f0, dirs), State(f1, dirs), State(f2, dirs), Dup(e, c, n);
    forall a {:trigger EntryAfterAt(s0, op, s2, a)} | true
      ensures EntryAfterAt(s0, op, s2, a)
    {
      MapsOnlyAfter(f0, dirs, f1, c, n, ChildEntry(x), a);
      MapsOnlyAfter(f1, dirs, f2, e, n, ParentEntry(x), a);
    }
    forall a {:trigger KeepsAt(s0, s2, a)} | true
      ensures KeepsAt(s0, s2, a)
    {
      MapsOnlyAfter(f0, dirs, f1, c, n, ChildEntry(x), a);
      MapsOnlyAfter(f1, dirs, f2, e, n, ParentEntry(x), a);
      assert KeepsAt(s0, s1, a) && KeepsAt(s1, s2, a);
    }
  }

  lemma SameMapsOnly(frames: Frames, dirs: Dirs, e: int, n: int)
    ensures MapsOnly(frames, dirs, frames, e, n, Look(frames, dirs, ByPte(e, n)))
    ensures Keeps(State(frames, dirs), State(frames, dirs))
  {
  }

  /** One sys_page_map of duppage, from the current environment to environment `d` at the
      same page. */
  method MapTo(k: Kernel, envid: int, d: int, n: int, perm: Bits) returns (r: Outcome)
    requires k.Boundary() && 0 <= n < NPAGE && Envid2Env(k.slots, k.cur, envid, true) == d
    requires d == k.cur || RoomAt(k.refs, Look(k.frames, k.dirs, ByPte(k.cur, n)).page)
    requires d != -1 && Look(k.frames, k.dirs, ByPte(k.cur, n)).bits.p
    requires perm.w ==> Look(k.frames, k.dirs, ByPte(k.cur, n)).bits.w
    modifies k`ppRef, k`link, k`head, k`frames, k`free, k`held, k`refs
    ensures k.Boundary() && Grows(old(k.refs), k.refs, 1)
    ensures r == Ok <==> GoodPerm(perm) && !old(Short(k, d, n, 0))
    ensures r != Ok ==> k.frames == old(k.frames)
    ensures r == Ok ==> && MapsOnly(old(k.frames), k.dirs, k.frames, d, n,
                                    Entry(Look(old(k.frames), k.dirs, ByPte(k.cur, n)).page, perm))
                        && Keeps(old(Now(k)), Now(k)) && TablesOnly(old(k.frames), k.dirs, k.frames, d, Pdx(n))
    ensures r == Ok && (d == k.cur || !old(Look(k.frames, k.dirs, ByPte(d, n))).bits.p) ==>
              |k.free| == |old(k.free)| - Wanted(old(k.frames), k.dirs, d, n, 0)
  {
    assert PageNum(n * PGSIZE) == n;
    r := SysPageMap(k, 0, n * PGSIZE, envid, n * PGSIZE, perm);
    if r == Ok {
      KeptKeeps(old(k.ppRef), old(k.free), old(k.held), old(k.refs), k.kern, old(k.frames), k.dirs, k.frames);
    }
  }

  /** duppage.  On failure nothing has changed: the second call of the copy-on-write branch
      only remaps a page in place and never fails. */
  method DupPage(k: Kernel, childid: int, n: int) returns (ok: bool)
    requires k.Boundary() && 0 <= n < NPAGE
    requires var c := Envid2Env(k.slots, k.cur, childid, true); c != -1 && c != k.cur
    requires Look(k.frames, k.dirs, ByPte(k.cur, n)).bits.p
             && RoomAt(k.refs, Look(k.frames, k.dirs, ByPte(k.cur, n)).page)
    modifies k`ppRef, k`link, k`head, k`frames, k`free, k`held, k`refs
    ensures k.Boundary()
    ensures !ok ==> k.frames == old(k.frames)
    ensures ok <==> var x := old(Look(k.frames, k.dirs, ByPte(k.cur, n)));
                    (x.bits.share ==> x.bits.u) &&
                    !old(Short(k, Envid2Env(k.slots, k.cur, childid, true), n, 0))
    ensures ok ==> Step(old(Now(k)), Dup(k.cur, Envid2Env(k.slots, k.cur, childid, true), n), Now(k))
    ensures var c := Envid2Env(k.slots, k.cur, childid, true);
            ok && !old(Look(k.frames, k.dirs, ByPte(c, n))).bits.p ==>
              TableSpent(old(Now(k)), Now(k), |old(k.free)|, |k.free|, c, n)
  {
    ghost var c := Envid2Env(k.slots, k.cur, childid, true);
    var x := Look(k.frames, k.dirs, ByPte(k.cur, n));
    if !x.bits.share && (x.bits.cow || x.bits.w) {
      ok := DupCow(k, childid, n, x);
      return;
    }
    var perm := if x.bits.share then x.bits.(other := 0) else READ_BITS;
    var r := MapTo(k, childid, Envid2Env(k.slots, k.cur, childid, true), n, perm);
    if r != Ok {
      return false;
    }
    MapsOnlyAfter(old(k.frames), k.dirs, k.frames, c, n, ChildEntry(x), At(k.cur, n));
    MapsOnlyAfter(old(k.frames), k.dirs, k.frames, c, n, ChildEntry(x), At(c, n));
    SameMapsOnly(k.frames, k.dirs, k.cur, n);
    DupSteps(old(k.frames), k.frames, k.frames, k.dirs, k.cur, c, n, x);
    if !Look(old(k.frames), k.dirs, ByPte(c, n)).bits.p {
      SpentOnce(old(Now(k)), Now(k), |old(k.free)|, |k.free|, c, n);
    }
    return true;
  }

  /** Mapping page `n` of environment `c` cost one free page if the page table for it was
      missing, and the table is there now; no other table came or went. */
  ghost predicate TableSpent(s: State, t: State, free: int, free2: int, c: int, n: int) {
    && free2 == free - Wanted(s.frames, s.dirs, c, n, 0)
    && (forall d {:trigger TableSpentAt(s, t, c, n, d)} :: TableSpentAt(s, t, c, n, d))
  }

  ghost predicate HasTable(s: State, c: int, d: int) { Look(s.frames, s.dirs, ByPde(c, d)) != ABSENT }

  ghost predicate TableSpentAt(s: State, t: State, c: int, n: int, d: int) {
    HasTable(t, c, d) <==> d == Pdx(n) || HasTable(s, c, d)
  }

  lemma SpentOnce(s: State, t: State, free: int, free2: int, c: int, n: int)
    requires t.dirs == s.dirs && TablesOnly(s.frames, s.dirs, t.frames, c, Pdx(n)) && EntryAt(t, At(c, n)).bits.p
    requires free2 == free - Wanted(s.frames, s.dirs, c, n, 0)
    ensures TableSpent(s, t, free, free2, c, n)
  {
    forall d {:trigger TableSpentAt(s, t, c, n, d)} | true
      ensures TableSpentAt(s, t, c, n, d)
    {
      assert TableAt(s.frames, s.dirs, t.frames, c, Pdx(n), ByPde(c, d));
    }
  }

  /** A second mapping, of the caller's own page in place, costs nothing. */
  lemma SpentBefore(s: State, t: State, u: State, free: int, free2: int, e: int, c: int, n: int)
    requires TableSpent(s, t, free, free2, c, n) && u.dirs == t.dirs && e != c
    requires TablesOnly(t.frames, t.dirs, u.frames, e, Pdx(n))
    ensures TableSpent(s, u, free, free2, c, n)
  {
    forall d {:trigger TableSpentAt(s, u, c, n, d)} | true
      ensures TableSpentAt(s, u, c, n, d)
    {
      assert TableSpentAt(s, t, c, n, d) && TableAt(t.frames, t.dirs, u.frames, e, Pdx(n), ByPde(c, d));
    }
  }

  /** The branch of duppage for a page that is writable or copy-on-write. */
  method DupCow(k: Kernel, childid: int, n: int, x: Entry) returns (ok: bool)
    requires k.Boundary() && RoomAt(k.refs, x.page) && 0 <= n < NPAGE
    requires var c := Envid2Env(k.slots, k.cur, childid, true); c != -1 && c != k.cur
    requires x == Look(k.frames, k.dirs, ByPte(k.cur, n)) && x.bits.p
    requires !x.bits.share && (x.bits.cow || x.bits.w)
    modifies k`ppRef, k`link, k`head, k`frames, k`free, k`held, k`refs
    ensures k.Boundary()
    ensures !ok ==> k.frames == old(k.frames)
    ensures ok <==> !old(Short(k, Envid2Env(k.slots, k.cur, childid, true), n, 0))
    ensures ok ==> Step(old(Now(k)), Dup(k.cur, Envid2Env(k.slots, k.cur, childid, true), n), Now(k))
    ensures var c := Envid2Env(k.slots, k.cur, childid, true);
            ok && !old(Look(k.frames, k.dirs, ByPte(c, n))).bits.p ==>
              TableSpent(old(Now(k)), Now(k), |old(k.free)|, |k.free|, c, n)
  {
    var c := Envid2Env(k.slots, k.cur, childid, true);
    var r := MapTo(k, childid, c, n, COW_BITS);
    if r != Ok {
      return false;
    }
    ghost var f1, s1 := k.frames, Now(k);
    MapsOnlyAfter(old(k.frames), k.dirs, k.frames, c, n, ChildEntry(x), At(k.cur, n));
    MapsOnlyAfter(old(k.frames), k.dirs, k.frames, c, n, ChildEntry(x), At(c, n));
    if !Look(old(k.frames), k.dirs, ByPte(c, n)).bits.p {
      SpentOnce(old(Now(k)), s1, |old(k.free)|, |k.free|, c, n);
    }
    r := MapTo(k, 0, k.cur, n, COW_BITS);
    assert r == Ok;
    DupSteps(old(k.frames), f1, k.frames, k.dirs, k.cur, c, n, x);
    if !Look(old(k.frames), k.dirs, ByPte(c, n)).bits.p {
      SpentBefore(old(Now(k)), s1, Now(k), |old(k.free)|, |k.free|, k.cur, c, n);
    }
    return true;
  }

  // ---------- fork ----------

  /** What fork promises: pages below `m` of the child are the parent's, as they are now. */
  ghost predicate ForkHas(v: Eager, parent: int, child: int, m: int, a: At) {
    if a.e == child && 0 <= a.n < m then At(parent, a.n) in v else a in v
  }

  ghost function ForkView(v: Eager, parent: int, child: int, m: int): Eager {
    imap a: At | ForkHas(v, parent, child, m, a) ::
      if a.e == child && 0 <= a.n < m then v[At(parent, a.n)] else v[a]
  }

  lemma ForkStart(v: Eager, parent: int, child: int)
    ensures ForkView(v, parent, child, 0) == v
  {
  }

  lemma ForkNext(v: Eager, parent: int, child: int, m: int)
    requires parent != child && 0 <= m && At(child, m) !in v
    ensures At(parent, m) in ForkView(v, parent, child, m) <==> At(parent, m) in v
    ensures At(parent, m) in v ==>
              EagerStep(ForkView(v, parent, child, m), Dup(parent, child, m)) == ForkView(v, parent, child, m + 1)
    ensures At(parent, m) !in v ==> ForkView(v, parent, child, m) == ForkView(v, parent, child, m + 1)
  {
  }

  lemma AllocSteps(ppRef: seq<int>, free: seq<int>, held: set<int>, refs: Refs, kern: set<int>,
                   frames: Frames, dirs: Dirs, frames2: Frames, e: int, n: int, p: int, bits: Bits)
    requires Accounted(ppRef, free, held, refs, kern) && Mapped(frames, dirs, refs)
    requires Kept(frames, dirs, free, frames2) && MapsOnly(frames, dirs, frames2, e, n, Entry(p, bits))
    requires p in free && 0 <= p < |frames2| && frames2[p] == ZeroFrame() && bits.p
    ensures Step(State(frames, dirs), Alloc(e, n, bits, p), State(frames2, dirs))
  {
    var s, t, op := State(frames, dirs), State(frames2, dirs), Alloc(e, n, bits, p);
    KeptKeeps(ppRef, free, held, refs, kern, frames, dirs, frames2);
    FreeFresh(ppRef, free, held, refs, kern, frames, dirs, p);
    forall a {:trigger EntryAfterAt(s, op, t, a)} | true
      ensures EntryAfterAt(s, op, t, a)
    {
      MapsOnlyAfter(frames, dirs, frames2, e, n, Entry(p, bits), a);
    }
    assert Bytes(ZeroFrame()) == seq(4096, i => 0);
  }

  lemma CreateSteps(ppRef: seq<int>, free: seq<int>, held: set<int>, refs: Refs, kern: set<int>,
                    frames: Frames, dirs: Dirs, frames2: Frames, dirs2: Dirs, e: int, p: int, x: Entry)
    requires Accounted(ppRef, free, held, refs, kern) && Mapped(frames, dirs, refs)
    requires OnlyAt(frames, dirs, frames2, dirs2, ByEnv(e), x)
    requires p in free && 0 <= p < |frames| == |frames2| && frames2 == frames[p := frames2[p]]
    ensures Step(State(frames, dirs), Create(e), State(frames2, dirs2))
  {
    var s, t, op := State(frames, dirs), State(frames2, dirs2), Create(e);
    FreeFresh(ppRef, free, held, refs, kern, frames, dirs, p);
    forall a {:trigger EntryAfterAt(s, op, t, a)} {:trigger KeepsAt(s, t, a)} | true
      ensures EntryAfterAt(s, op, t, a) && KeepsAt(s, t, a)
    {
      assert Look(frames2, dirs2, ByPte(a.e, a.n)) == Look(frames, dirs, ByPte(a.e, a.n));
      assert FreshAt(s, p, a);
    }
  }

  /** Environment `c` has the same page tables. */
  ghost predicate SameTables(s: State, t: State, c: int) {
    forall d {:trigger SameTableAt(s, t, c, d)} :: SameTableAt(s, t, c, d)
  }

  ghost predicate SameTableAt(s: State, t: State, c: int, d: int) { HasTable(t, c, d) <==> HasTable(s, c, d) }

  /** The part of fork that creates the child: sys_exofork. */
  method Exofork(k: Kernel) returns (r: Created)
    requires k.Boundary()
    modifies k`ppRef, k`link, k`head, k`frames, k`free, k`held, k`refs, k`dirs, k`slots, k`envFree
    ensures k.Boundary()
    ensures r.NoFreeEnv? <==> forall i {:trigger old(k.slots)[i]} :: 0 <= i < 1024 ==> !old(k.slots)[i].free
    ensures r.NoMem? <==> old(k.free) == [] && !r.NoFreeEnv?
    ensures !r.Created? ==> k.frames == old(k.frames) && k.dirs == old(k.dirs) && k.slots == old(k.slots)
    ensures r.Created? ==>
              && 0 <= r.slot < 1024 && r.slot != k.cur && r.slot !in old(k.dirs)
              && k.slots[r.slot].id > 0 && Envid2Env(k.slots, k.cur, k.slots[r.slot].id, true) == r.slot
              && Step(old(Now(k)), Create(r.slot), Now(k)) && |k.free| == |old(k.free)| - 1
              && (forall d {:trigger HasTable(Now(k), r.slot, d)} :: !HasTable(Now(k), r.slot, d))
              && SameTables(old(Now(k)), Now(k), k.cur)
  {
    assert SlotAt(k.slots, k.dirs, k.cur);
    r := EnvAlloc(k, k.slots[k.cur].id);
    if r.Created? {
      assert SlotAt(old(k.slots), old(k.dirs), r.slot);
      CreateSteps(old(k.ppRef), old(k.free), old(k.held), old(k.refs), k.kern, old(k.frames), old(k.dirs),
                  k.frames, k.dirs, r.slot, k.dirs[r.slot], Entry(k.dirs[r.slot], NO_BITS.(p := true)));
      forall d {:trigger HasTable(Now(k), r.slot, d)} | true
        ensures !HasTable(Now(k), r.slot, d)
      {
        assert Look(k.frames, k.dirs, ByPde(r.slot, d)) == Look(old(k.frames), old(k.dirs), ByPde(r.slot, d));
      }
      forall d {:trigger SameTableAt(old(Now(k)), Now(k), k.cur, d)} | true
        ensures SameTableAt(old(Now(k)), Now(k), k.cur, d)
      {
        assert Look(k.frames, k.dirs, ByPde(k.cur, d)) == Look(old(k.frames), old(k.dirs), ByPde(k.cur, d));
      }
    }
  }

  /** Environment `e` has no page at `n`. */
  ghost predicate NoCellAt(v: Eager, e: int, n: int) {
    At(e, n) !in v
  }

  ghost predicate NoCells(v: Eager, e: int) {
    forall n {:trigger NoCellAt(v, e, n)} :: NoCellAt(v, e, n)
  }

  /** The pages of `e` below `n` where page `p` is mapped. */
  ghost function Uses(s: State, e: int, p: int, n: int): set<int> {
    set m {:trigger EntryAt(s, At(e, m))} | 0 <= m < n && EntryAt(s, At(e, m)).bits.p && EntryAt(s, At(e, m)).page == p
  }

  /** After fork, which maps it once more for each place where `e` has it, the references to
      page `p` fit in 16 bits. */
  ghost predicate ForkRoomAt(s: State, refs: Refs, e: int, p: int) {
    0 <= p < |refs| ==> |refs[p]| + |Uses(s, e, p, NPAGE - 2)| <= 65535
  }

  ghost predicate ForkRoom(s: State, refs: Refs, e: int) {
    forall p {:trigger ForkRoomAt(s, refs, e, p)} :: ForkRoomAt(s, refs, e, p)
  }

  /** Environment `e` has mapped its pages below `n` for `c`; all other mappings are of the
      pages they were in `s0`. */
  ghost predicate PageCopied(s0: State, s: State, e: int, c: int, n: int, a: At) {
    var b := if a.e == c && 0 <= a.n < n then At(e, a.n) else a;
    EntryAt(s, a).bits.p == EntryAt(s0, b).bits.p
    && (EntryAt(s, a).bits.p ==> EntryAt(s, a).page == EntryAt(s0, b).page)
  }

  ghost predicate PagesCopied(s0: State, s: State, e: int, c: int, n: int) {
    forall a {:trigger PageCopied(s0, s, e, c, n, a)} :: PageCopied(s0, s, e, c, n, a)
  }

  /** Between two pages of fork's loop, which began in state `s0` with the references `refs0`:
      the pages below `n` are the child's. */
  ghost predicate Forking(k: Kernel, s0: State, refs0: Refs, childid: int, c: int, n: int)
    reads k
  {
    && k.Boundary() && Separated(Now(k)) && 0 <= n <= NPAGE - 2
    && c == Envid2Env(k.slots, k.cur, childid, true) && c != -1 && c != k.cur
    && NoCells(View(s0), c)
    && Counted(s0.frames, s0.dirs, refs0) && ForkRoom(s0, refs0, k.cur) && |refs0| == k.npages
    && PagesCopied(s0, Now(k), k.cur, c, n)
    && Forked(Now(k), View(s0), k.cur, c, n)
  }

  /** The page tables that the mapped pages of `e` below `n` lie in. */
  ghost function TablesFor(s: State, e: int, n: int): set<int> {
    set m {:trigger EntryAt(s, At(e, m))} | 0 <= m < n && EntryAt(s, At(e, m)).bits.p :: m / 1024
  }

  /** sys_page_map takes the permissions of a shared page only with PTE_U among them. */
  ghost predicate LegalAt(s: State, e: int, m: int) {
    var x := EntryAt(s, At(e, m));
    x.bits.p && x.bits.share ==> x.bits.u
  }

  ghost predicate Legal(s: State, e: int, n: int) {
    forall m {:trigger LegalAt(s, e, m)} :: 0 <= m < n ==> LegalAt(s, e, m)
  }

  /** What fork takes besides the child's directory: its page tables and its exception stack. */
  ghost function SpaceCost(s: State, e: int): int {
    1 + |TablesFor(s, e, NPAGE - 2) + {(NPAGE - 1) / 1024}|
  }

  ghost predicate CanCopy(s: State, e: int, free: int) {
    Legal(s, e, NPAGE - 2) && free >= SpaceCost(s, e)
  }

  /** The pages of `e` from `n` on are mapped as in `s0`. */
  ghost predicate AheadAt(s0: State, s: State, e: int, n: int, m: int) {
    n <= m ==> EntryAt(s, At(e, m)) == EntryAt(s0, At(e, m))
  }

  ghost predicate DirAt(s: State, c: int, tables: set<int>, d: int) { HasTable(s, c, d) <==> d in tables }

  /** The pages below `n` were copied for the price of their page tables, out of `free` pages. */
  ghost predicate Paid(s0: State, s: State, left: int, free: int, e: int, c: int, n: int) {
    && left + |TablesFor(s0, e, n)| == free && Legal(s0, e, n)
    && (forall d {:trigger DirAt(s, c, TablesFor(s0, e, n), d)} :: DirAt(s, c, TablesFor(s0, e, n), d))
    && (forall m {:trigger AheadAt(s0, s, e, n, m)} :: AheadAt(s0, s, e, n, m))
  }

  lemma TablesNext(s: State, e: int, n: int)
    requires 0 <= n
    ensures TablesFor(s, e, n + 1)
            == if EntryAt(s, At(e, n)).bits.p then TablesFor(s, e, n) + {n / 1024} else TablesFor(s, e, n)
  {
    var a, b := TablesFor(s, e, n), TablesFor(s, e, n + 1);
    forall d {:trigger d in a} {:trigger d in b} | true
      ensures d in b <==> d in a || (EntryAt(s, At(e, n)).bits.p && d == n / 1024)
    {
      if d in b {
        var m :| 0 <= m < n + 1 && EntryAt(s, At(e, m)).bits.p && m / 1024 == d;
        assert m < n ==> d in a;
      }
      if d in a {
        var m :| 0 <= m < n && EntryAt(s, At(e, m)).bits.p && m / 1024 == d;
        assert 0 <= m < n + 1;
      }
    }
  }

  lemma TablesGrow(s: State, e: int, n: int)
    requires 0 <= n < NPAGE - 2 && EntryAt(s, At(e, n)).bits.p
    ensures TablesFor(s, e, n) + {n / 1024} <= TablesFor(s, e, NPAGE - 2)
  {
    forall d {:trigger d in TablesFor(s, e, n)} | d in TablesFor(s, e, n)
      ensures d in TablesFor(s, e, NPAGE - 2)
    {
      var m :| 0 <= m < n && EntryAt(s, At(e, m)).bits.p && m / 1024 == d;
      assert 0 <= m < NPAGE - 2;
    }
  }

  /** One more page is paid for. */
  lemma PaidMore(s0: State, s: State, t: State, left: int, left2: int, free: int, e: int, c: int, n: int)
    requires Paid(s0, s, left, free, e, c, n) && 0 <= n && e != c && Step(s, Dup(e, c, n), t)
    requires TableSpent(s, t, left, left2, c, n) && LegalAt(s0, e, n)
    ensures Paid(s0, t, left2, free, e, c, n + 1)
  {
    assert AheadAt(s0, s, e, n, n);
    TablesNext(s0, e, n);
    DirsMore(s, t, left, left2, c, n, TablesFor(s0, e, n));
    AheadMore(s0, s, t, e, c, n);
  }

  lemma DirsMore(s: State, t: State, left: int, left2: int, c: int, n: int, tables: set<int>)
    requires forall d {:trigger DirAt(s, c, tables, d)} :: DirAt(s, c, tables, d)
    requires TableSpent(s, t, left, left2, c, n)
    ensures forall d {:trigger DirAt(t, c, tables + {n / 1024}, d)} :: DirAt(t, c, tables + {n / 1024}, d)
    ensures left2 + |tables + {n / 1024}| == left + |tables|
  {
    forall d {:trigger DirAt(t, c, tables + {n / 1024}, d)} | true
      ensures DirAt(t, c, tables + {n / 1024}, d)
    {
      assert DirAt(s, c, tables, d) && TableSpentAt(s, t, c, n, d);
    }
    assert DirAt(s, c, tables, n / 1024);
    OneAdded(tables, n / 1024);
  }

  lemma OneAdded(tables: set<int>, d: int)
    ensures |tables + {d}| == |tables| + if d in tables then 0 else 1
  {
    if d in tables { assert tables + {d} == tables; }
  }

  lemma AheadMore(s0: State, s: State, t: State, e: int, c: int, n: int)
    requires forall m {:trigger AheadAt(s0, s, e, n, m)} :: AheadAt(s0, s, e, n, m)
    requires e != c && Step(s, Dup(e, c, n), t)
    ensures forall m {:trigger AheadAt(s0, t, e, n + 1, m)} :: AheadAt(s0, t, e, n + 1, m)
  {
    forall m {:trigger AheadAt(s0, t, e, n + 1, m)} | true
      ensures AheadAt(s0, t, e, n + 1, m)
    {
      assert AheadAt(s0, s, e, n, m) && EntryAfterAt(s, Dup(e, c, n), t, At(e, m));
    }
  }

  lemma PaidSkip(s0: State, s: State, left: int, free: int, e: int, c: int, n: int)
    requires Paid(s0, s, left, free, e, c, n) && 0 <= n && !EntryAt(s, At(e, n)).bits.p
    ensures Paid(s0, s, left, free, e, c, n + 1)
  {
    assert AheadAt(s0, s, e, n, n);
    TablesNext(s0, e, n);
    forall d {:trigger DirAt(s, c, TablesFor(s0, e, n + 1), d)} | true
      ensures DirAt(s, c, TablesFor(s0, e, n + 1), d)
    {
      assert DirAt(s, c, TablesFor(s0, e, n), d);
    }
    forall m {:trigger AheadAt(s0, s, e, n + 1, m)} | true
      ensures AheadAt(s0, s, e, n + 1, m)
    {
      assert AheadAt(s0, s, e, n, m);
    }
  }

  /** Where duppage fails, the whole cannot be copied. */
  lemma PaidFails(s0: State, s: State, left: int, free: int, e: int, c: int, n: int)
    requires Paid(s0, s, left, free, e, c, n) && 0 <= n < NPAGE - 2 && EntryAt(s, At(e, n)).bits.p
    requires left < Wanted(s.frames, s.dirs, c, n, 0) || !LegalAt(s, e, n)
    ensures left >= 0 ==> !CanCopy(s0, e, free)
  {
    assert AheadAt(s0, s, e, n, n) && DirAt(s, c, TablesFor(s0, e, n), n / 1024);
    if LegalAt(s, e, n) && left >= 0 {
      TablesGrow(s0, e, n);
      var tables := TablesFor(s0, e, n);
      SubsetSize(tables + {n / 1024}, TablesFor(s0, e, NPAGE - 2) + {(NPAGE - 1) / 1024});
      OneAdded(tables, n / 1024);
    } else {
      assert LegalAt(s0, e, n) == LegalAt(s, e, n);
    }
  }

  lemma SubsetSize<T>(a: set<T>, b: set<T>)
    requires a <= b
    ensures |a| <= |b|
  {
    assert b == a + (b - a);
  }

  /** The mappings of the pages `ms` by `c` are as many as the pages. */
  lemma {:induction false} ImageSize(ms: set<int>, c: int, image: set<Ref>)
    requires forall r {:trigger r in image} :: r in image ==> r.ByPte? && r.e == c && r.n in ms
    ensures |image| <= |ms|
  {
    if image != {} {
      var r :| r in image;
      ImageSize(ms - {r.n}, c, image - {r});
      assert ms == (ms - {r.n}) + {r.n};
    }
  }

  /** The page that fork comes to next has room for one more reference. */
  lemma ForkHasRoom(k: Kernel, s0: State, refs0: Refs, childid: int, c: int, n: int)
    requires Forking(k, s0, refs0, childid, c, n) && n < NPAGE - 2 && EntryAt(Now(k), At(k.cur, n)).bits.p
    ensures RoomAt(k.refs, EntryAt(Now(k), At(k.cur, n)).page)
  {
    var s, e := Now(k), k.cur;
    var p := EntryAt(s, At(e, n)).page;
    MappedRefs(k, p, At(e, n), ByPte(e, n));
    assert PageCopied(s0, s, e, c, n, At(e, n));
    var mine := k.refs[p] - refs0[p];
    forall r {:trigger r in mine} | r in mine
      ensures r.ByPte? && r.e == c && r.n in Uses(s0, e, p, n)
    {
      MappedRefs(k, p, At(e, n), r);
      assert PageCopied(s0, s, e, c, n, At(r.e, r.n)) && CountAt(s0.frames, s0.dirs, refs0, r, p);
      assert EntryAt(s0, At(e, r.n)) == Look(s0.frames, s0.dirs, ByPte(e, r.n));
    }
    ImageSize(Uses(s0, e, p, n), c, mine);
    SubsetSize(k.refs[p], refs0[p] + mine);
    assert Uses(s0, e, p, n) + {n} <= Uses(s0, e, p, NPAGE - 2);
    SubsetSize(Uses(s0, e, p, n) + {n}, Uses(s0, e, p, NPAGE - 2));
    assert ForkRoomAt(s0, refs0, e, p);
  }

  lemma PagesMore(s0: State, s: State, t: State, e: int, c: int, n: int)
    requires PagesCopied(s0, s, e, c, n) && Step(s, Dup(e, c, n), t) && 0 <= n && NoCells(View(s0), c)
    ensures PagesCopied(s0, t, e, c, n + 1)
  {
    forall a {:trigger PageCopied(s0, t, e, c, n + 1, a)} | true
      ensures PageCopied(s0, t, e, c, n + 1, a)
    {
      assert PageCopied(s0, s, e, c, n, a) && EntryAfterAt(s, Dup(e, c, n), t, a);
      if a == At(c, n) {
        assert PageCopied(s0, s, e, c, n, At(e, n));
      } else {
        assert EntryAt(t, a).bits.p == EntryAt(s, a).bits.p && EntryAt(t, a).page == EntryAt(s, a).page;
      }
    }
  }

  lemma PagesSkip(s0: State, s: State, e: int, c: int, n: int)
    requires PagesCopied(s0, s, e, c, n) && !EntryAt(s, At(e, n)).bits.p && e != c && 0 <= n && NoCells(View(s0), c)
    ensures PagesCopied(s0, s, e, c, n + 1)
  {
    forall a {:trigger PageCopied(s0, s, e, c, n + 1, a)} | true
      ensures PageCopied(s0, s, e, c, n + 1, a)
    {
      assert PageCopied(s0, s, e, c, n, a) && PageCopied(s0, s, e, c, n, At(e, n));
      assert NoCellAt(View(s0), c, n);
    }
  }

  /** Environment `e` has copied its pages below `n` to `c`, as seen from `a`. */
  ghost predicate ForkedAt(s: State, v0: Eager, e: int, c: int, n: int, a: At) {
    && (a in View(s) <==> a in ForkView(v0, e, c, n))
    && (a in View(s) ==> View(s)[a] == ForkView(v0, e, c, n)[a])
  }

  ghost predicate Forked(s: State, v0: Eager, e: int, c: int, n: int) {
    forall a {:trigger ForkedAt(s, v0, e, c, n, a)} :: ForkedAt(s, v0, e, c, n, a)
  }

  lemma ForkedView(s: State, v0: Eager, e: int, c: int, n: int)
    ensures Forked(s, v0, e, c, n) <==> View(s) == ForkView(v0, e, c, n)
  {
    if Forked(s, v0, e, c, n) {
      forall a {:trigger a in View(s)} {:trigger a in ForkView(v0, e, c, n)} | true
        ensures a in View(s) <==> a in ForkView(v0, e, c, n)
        ensures a in View(s) ==> View(s)[a] == ForkView(v0, e, c, n)[a]
      {
        assert ForkedAt(s, v0, e, c, n, a);
      }
    }
  }

  lemma ForkMore(v0: Eager, s: State, t: State, e: int, c: int, n: int)
    requires Separated(s) && Step(s, Dup(e, c, n), t) && Forked(s, v0, e, c, n)
    requires 0 <= n && NoCells(v0, c)
    ensures Separated(t) && Forked(t, v0, e, c, n + 1)
  {
    ForkedView(s, v0, e, c, n);
    ForkedView(t, v0, e, c, n + 1);
    assert NoCellAt(v0, c, n);
    assert At(e, n) in View(s);
    ForkNext(v0, e, c, n);
    StepSimulates(s, Dup(e, c, n), t);
  }

  lemma ForkSkip(v0: Eager, s: State, e: int, c: int, n: int)
    requires Forked(s, v0, e, c, n) && !EntryAt(s, At(e, n)).bits.p && e != c
    requires 0 <= n && NoCells(v0, c)
    ensures Forked(s, v0, e, c, n + 1) && At(e, n) !in v0
  {
    ForkedView(s, v0, e, c, n);
    ForkedView(s, v0, e, c, n + 1);
    assert NoCellAt(v0, c, n);
    assert At(e, n) !in View(s);
    ForkNext(v0, e, c, n);
  }

  /** Nobody but `c` sees a difference. */
  ghost predicate OthersSee(v: Eager, w: Eager, c: int) {
    forall a: At {:trigger SeesAt(v, w, a)} :: a.e != c ==> SeesAt(v, w, a)
  }

  /** Everyone sees `w`, place by place. */
  ghost predicate ShowsAt(s: State, w: Eager, a: At) {
    var x := EntryAt(s, a);
    (x.bits.p <==> a in w) && (x.bits.p ==> CellOf(s, x) == w[a])
  }

  ghost predicate Shows(s: State, w: Eager) {
    forall a {:trigger ShowsAt(s, w, a)} :: ShowsAt(s, w, a)
  }

  lemma ShowsView(s: State, w: Eager)
    ensures Shows(s, w) <==> View(s) == w
  {
    var v := View(s);
    if Shows(s, w) {
      forall a {:trigger SeesAt(v, w, a)} | true
        ensures SeesAt(v, w, a)
      {
        assert ShowsAt(s, w, a);
      }
      SameViews(v, w);
    }
  }

  lemma ForkingOthers(s: State, v0: Eager, e: int, c: int, n: int)
    requires Forked(s, v0, e, c, n)
    ensures OthersSee(v0, View(s), c)
  {
    forall a: At {:trigger SeesAt(v0, View(s), a)} | a.e != c
      ensures SeesAt(v0, View(s), a)
    {
      assert ForkedAt(s, v0, e, c, n, a);
    }
  }

  /** The pages below `n` are the child's, and paid for out of `free` pages. */
  ghost predicate Copying(k: Kernel, s0: State, refs0: Refs, childid: int, c: int, free: int, n: int)
    reads k
  {
    Forking(k, s0, refs0, childid, c, n) && Paid(s0, Now(k), |k.free|, free, k.cur, c, n)
  }

  /** One turn of fork's loop, for a mapped page. */
  method DupOne(k: Kernel, childid: int, n: int, ghost s0: State, ghost refs0: Refs, ghost c: int, ghost free: int)
    returns (ok: bool)
    requires Forking(k, s0, refs0, childid, c, n) && n < NPAGE - 2 && Look(k.frames, k.dirs, ByPte(k.cur, n)).bits.p
    requires Paid(s0, Now(k), |k.free|, free, k.cur, c, n)
    modifies k`ppRef, k`link, k`head, k`frames, k`free, k`held, k`refs
    ensures k.Boundary()
    ensures ok ==> Forking(k, s0, refs0, childid, c, n + 1) && Paid(s0, Now(k), |k.free|, free, k.cur, c, n + 1)
    ensures !ok ==> OthersSee(View(s0), View(Now(k)), c) && !CanCopy(s0, k.cur, free)
  {
    ghost var s, left := Now(k), |k.free|;
    ForkHasRoom(k, s0, refs0, childid, c, n);
    ForkingOthers(s, View(s0), k.cur, c, n);
    assert PageCopied(s0, s, k.cur, c, n, At(c, n)) && NoCellAt(View(s0), c, n);
    assert AheadAt(s0, s, k.cur, n, n);
    ok := DupPage(k, childid, n);
    if !ok {
      PaidFails(s0, s, left, free, k.cur, c, n);
      return;
    }
    ForkMore(View(s0), s, Now(k), k.cur, c, n);
    PagesMore(s0, s, Now(k), k.cur, c, n);
    PaidMore(s0, s, Now(k), left, |k.free|, free, k.cur, c, n);
  }

  lemma ForkingSkip(k: Kernel, s0: State, refs0: Refs, childid: int, c: int, n: int)
    requires Forking(k, s0, refs0, childid, c, n) && n < NPAGE - 2 && !Look(k.frames, k.dirs, ByPte(k.cur, n)).bits.p
    ensures Forking(k, s0, refs0, childid, c, n + 1)
  {
    ForkSkip(View(s0), Now(k), k.cur, c, n);
    PagesSkip(s0, Now(k), k.cur, c, n);
  }

  /** The loop of fork: duppage for every mapped page below the exception stack. */
  method DupAll(k: Kernel, childid: int, ghost s0: State, ghost refs0: Refs, ghost c: int, ghost free: int)
    returns (ok: bool)
    requires Copying(k, s0, refs0, childid, c, free, 0)
    modifies k`ppRef, k`link, k`head, k`frames, k`free, k`held, k`refs
    ensures k.Boundary()
    ensures ok ==> Copying(k, s0, refs0, childid, c, free, NPAGE - 2)
    ensures !ok ==> OthersSee(View(s0), View(Now(k)), c) && !CanCopy(s0, k.cur, free)
  {
    var n := 0;
    while n < NPAGE - 2
      invariant 0 <= n <= NPAGE - 2 && Copying(k, s0, refs0, childid, c, free, n)
    {
      ok := DupTurn(k, childid, n, s0, refs0, c, free);
      if !ok {
        return;
      }
      n := n + 1;
    }
    return true;
  }

  /** One turn of the loop. */
  method DupTurn(k: Kernel, childid: int, n: int, ghost s0: State, ghost refs0: Refs, ghost c: int, ghost free: int)
    returns (ok: bool)
    requires Copying(k, s0, refs0, childid, c, free, n) && n < NPAGE - 2
    modifies k`ppRef, k`link, k`head, k`frames, k`free, k`held, k`refs
    ensures k.Boundary()
    ensures ok ==> Copying(k, s0, refs0, childid, c, free, n + 1)
    ensures !ok ==> OthersSee(View(s0), View(Now(k)), c) && !CanCopy(s0, k.cur, free)
  {
    if Look(k.frames, k.dirs, ByPte(k.cur, n)).bits.p {
      ok := DupOne(k, childid, n, s0, refs0, c, free);
    } else {
      ForkingSkip(k, s0, refs0, childid, c, n);
      PaidSkip(s0, Now(k), |k.free|, free, k.cur, c, n);
      ok := true;
    }
  }

  /** fork, up to the calls that set the child's handler and let it run.  A negative result
      is the panic of the parent.  Afterwards each environment sees what eager copying would
      show it: the child has the parent's pages below the exception stack, private except
      where shared, and a fresh exception stack; everyone else is unaffected, also when fork
      fails.  It succeeds exactly if a slot is free, every shared page may be mapped again, and
      the free pages cover the child's directory, one page table for each table that a copied
      page or the exception stack lies in, and the exception stack. */
  method ForkChild(k: Kernel) returns (childid: int)
    requires k.Boundary() && Separated(Now(k)) && ForkRoom(Now(k), k.refs, k.cur)
    modifies k`ppRef, k`link, k`head, k`frames, k`free, k`held, k`refs, k`dirs, k`slots, k`envFree
    ensures k.Boundary()
    ensures childid >= 0 ==>
              var c := Envid2Env(k.slots, k.cur, childid, true);
              && childid > 0 && c != -1 && c !in old(k.dirs) && Separated(Now(k))
              && View(Now(k)) == ForkView(old(View(Now(k))), k.cur, c, NPAGE - 2)
                                   [At(c, NPAGE - 1) := Private(true, seq(4096, i => 0))]
    ensures childid < 0 ==> exists c :: c !in old(k.dirs) && OthersSee(old(View(Now(k))), View(Now(k)), c)
    ensures childid > 0 <==>
            && (exists i {:trigger old(k.slots)[i]} :: 0 <= i < 1024 && old(k.slots)[i].free)
            && Legal(old(Now(k)), k.cur, NPAGE - 2) && |old(k.free)| >= 1 + SpaceCost(old(Now(k)), k.cur)
  {
    ghost var s0, refs0 := Now(k), k.refs;
    var r := Exofork(k);
    if !r.Created? {
      AllSee(s0, 1024);
      assert SlotAt(k.slots, k.dirs, 1024);
      return -1;
    }
    var c := r.slot;
    childid := k.slots[c].id;
    StepSimulates(s0, Create(c), Now(k));
    AbsentNoCells(s0, c);
    ForkStart(View(s0), k.cur, c);
    ForkedView(Now(k), View(s0), k.cur, c, 0);
    CreatePages(s0, Now(k), k.cur, c);
    PaidNothing(s0, Now(k), |k.free|, k.cur, c);
    var ok := CopySpace(k, childid, s0, refs0, c, |k.free|);
    if !ok {
      return -1;
    }
  }

  lemma AllSee(s: State, c: int)
    ensures OthersSee(View(s), View(s), c)
  {
  }

  lemma CreatePages(s0: State, s: State, e: int, c: int)
    requires Step(s0, Create(c), s)
    ensures PagesCopied(s0, s, e, c, 0)
  {
    forall a {:trigger PageCopied(s0, s, e, c, 0, a)} | true
      ensures PageCopied(s0, s, e, c, 0, a)
    {
      assert EntryAfterAt(s0, Create(c), s, a);
    }
  }

  /** The part of fork after sys_exofork. */
  method CopySpace(k: Kernel, childid: int, ghost s0: State, ghost refs0: Refs, ghost c: int, ghost free: int)
    returns (ok: bool)
    requires Forking(k, s0, refs0, childid, c, 0) && Paid(s0, Now(k), |k.free|, free, k.cur, c, 0)
    modifies k`ppRef, k`link, k`head, k`frames, k`free, k`held, k`refs
    ensures k.Boundary()
    ensures ok ==> && Separated(Now(k))
                   && View(Now(k)) == ForkView(View(s0), k.cur, c, NPAGE - 2)
                                        [At(c, NPAGE - 1) := Private(true, seq(4096, i => 0))]
    ensures !ok ==> OthersSee(View(s0), View(Now(k)), c)
    ensures ok <==> CanCopy(s0, k.cur, free)
  {
    ok := DupAll(k, childid, s0, refs0, c, free);
    if ok {
      PaidAll(s0, Now(k), |k.free|, free, k.cur, c);
      ForkedView(Now(k), View(s0), k.cur, c, NPAGE - 2);
      ForkingOthers(Now(k), View(s0), k.cur, c, NPAGE - 2);
      ok := NewStack(k, childid, c);
    }
  }

  /** What is left to pay once all pages are copied. */
  lemma PaidAll(s0: State, s: State, left: int, free: int, e: int, c: int)
    requires Paid(s0, s, left, free, e, c, NPAGE - 2)
    ensures left >= Wanted(s.frames, s.dirs, c, NPAGE - 1, 1) <==> CanCopy(s0, e, free)
  {
    assert DirAt(s, c, TablesFor(s0, e, NPAGE - 2), (NPAGE - 1) / 1024);
    OneAdded(TablesFor(s0, e, NPAGE - 2), (NPAGE - 1) / 1024);
  }

  /** A new child has no page table. */
  lemma PaidNothing(s0: State, s: State, left: int, e: int, c: int)
    requires Step(s0, Create(c), s) && forall d {:trigger HasTable(s, c, d)} :: !HasTable(s, c, d)
    ensures Paid(s0, s, left, left, e, c, 0)
  {
    assert TablesFor(s0, e, 0) == {};
    forall m {:trigger AheadAt(s0, s, e, 0, m)} | true
      ensures AheadAt(s0, s, e, 0, m)
    {
      assert EntryAfterAt(s0, Create(c), s, At(e, m));
    }
  }

  lemma AbsentNoCells(s: State, e: int)
    requires e !in s.dirs
    ensures NoCells(View(s), e)
  {
  }

  /** Where no mapping and no mapped byte changed, everyone sees the same. */
  lemma SameMapsView(frames: Frames, dirs: Dirs, frames2: Frames)
    requires MapsSame(frames, dirs, frames2) && Keeps(State(frames, dirs), State(frames2, dirs))
    ensures View(State(frames2, dirs)) == View(State(frames, dirs))
  {
    var s, t := State(frames, dirs), State(frames2, dirs);
    forall a {:trigger a in View(s)} {:trigger a in View(t)} | true
      ensures (a in View(s) <==> a in View(t)) && (a in View(s) ==> View(s)[a] == View(t)[a])
    {
      assert Look(frames2, dirs, ByPte(a.e, a.n)) == Look(frames, dirs, ByPte(a.e, a.n)) && KeepsAt(s, t, a);
    }
  }

  /** The exception stack of the child. */
  method NewStack(k: Kernel, childid: int, ghost c: int) returns (ok: bool)
    requires k.Boundary() && Separated(Now(k)) && c == Envid2Env(k.slots, k.cur, childid, true) && c != -1
    modifies k`ppRef, k`link, k`head, k`frames, k`free, k`held, k`refs
    ensures k.Boundary()
    ensures ok ==> && Separated(Now(k))
                   && View(Now(k)) == old(View(Now(k)))[At(c, NPAGE - 1) := Private(true, seq(4096, i => 0))]
    ensures !ok ==> View(Now(k)) == old(View(Now(k)))
    ensures ok <==> !old(Short(k, c, NPAGE - 1, 1))
  {
    assert PageNum((NPAGE - 1) * PGSIZE) == NPAGE - 1;
    var r := SysPageAlloc(k, childid, (NPAGE - 1) * PGSIZE, WRITE_BITS);
    KeptKeeps(old(k.ppRef), old(k.free), old(k.held), old(k.refs), k.kern, old(k.frames), k.dirs, k.frames);
    if r != Ok {
      SameMapsView(old(k.frames), k.dirs, k.frames);
      return false;
    }
    ghost var p := Look(k.frames, k.dirs, ByPte(c, NPAGE - 1)).page;
    AllocSteps(old(k.ppRef), old(k.free), old(k.held), old(k.refs), k.kern, old(k.frames), k.dirs, k.frames,
               c, NPAGE - 1, p, WRITE_BITS);
    StepSimulates(old(Now(k)), Alloc(c, NPAGE - 1, WRITE_BITS, p), Now(k));
    AllocView(old(View(Now(k))), c, NPAGE - 1, p);
    return true;
  }

  lemma AllocView(v: Eager, c: int, n: int, p: int)
    ensures EagerStep(v, Alloc(c, n, WRITE_BITS, p)) == v[At(c, n) := Private(true, seq(4096, i => 0))]
  {
    var w, d := EagerStep(v, Alloc(c, n, WRITE_BITS, p)), v[At(c, n) := Private(true, seq(4096, i => 0))];
    forall a {:trigger SeesAt(w, d, a)} | true
      ensures SeesAt(w, d, a)
    {
    }
    SameViews(w, d);
  }
}
