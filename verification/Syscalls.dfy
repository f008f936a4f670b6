/** The memory system calls of `kern/syscall.c`, on top of the page tables. */
module Syscalls {
  import opened PageTables
  import opened EnvIds
  import opened Kernel

  datatype Outcome = Ok | BadEnv | Inval | NoMem

  /** UTOP and the page size, in bytes. */
  const UTOP: int := 0xEEC0_0000
  const PGSIZE: int := 4096

  /** The checks on an address argument: below UTOP and page-aligned. */
  predicate GoodVa(va: int) {
    0 <= va < UTOP && va % 4096 == 0
  }

  /** The checks on a permission argument: PTE_U and PTE_P set, nothing outside
      PTE_SYSCALL. */
  predicate GoodPerm(perm: Bits) {
    perm.u && perm.p && perm.other == 0
  }

  function PageNum(va: int): int { va / 4096 }

  /** page_lookup, read through the page tables. */
  function PageLookup(frames: Frames, dirs: Dirs, e: int, n: int): Entry {
    Look(frames, dirs, ByPte(e, n))
  }

  /** The free pages cannot cover a new page plus, if it is missing, a page table. */
  ghost predicate Short(k: Kernel, e: int, n: int, pages: int)
    reads k
  {
    |k.free| < Wanted(k.frames, k.dirs, e, n, pages)
  }

  /** `pages` pages, and one more if the page table for page `n` is missing. */
  ghost function Wanted(frames: Frames, dirs: Dirs, e: int, n: int, pages: int): int {
    pages + if Look(frames, dirs, ByPde(e, Pdx(n))) == ABSENT then 1 else 0
  }

  /** What sys_page_alloc answers. */
  ghost function AllocOutcome(k: Kernel, envid: int, va: int, perm: Bits): Outcome
    requires 0 <= k.cur < 1024
    reads k
  {
    var e := Envid2Env(k.slots, k.cur, envid, true);
    if e == -1 then BadEnv
    else if !GoodVa(va) || !GoodPerm(perm) then Inval
    else if Short(k, e, PageNum(va), 1) then NoMem
    else Ok
  }

  /** No environment that the caller may manipulate goes by this id. */
  ghost predicate Nobody(slots: Slots, cur: int, envid: int)
    requires 0 <= cur < 1024
  {
    forall e {:trigger Denotes(slots, cur, envid, true, e)} :: !Denotes(slots, cur, envid, true, e)
  }

  lemma BoundaryNamed(k: Kernel)
    requires k.Boundary()
    ensures Named(k.slots)
  {
    forall i {:trigger NamedAt(k.slots, i)} | true
      ensures NamedAt(k.slots, i)
    {
      assert SlotAt(k.slots, k.dirs, i);
    }
  }

  /** What sys_page_alloc answers, by the environment meant. */
  lemma AllocAnswered(k: Kernel, envid: int, va: int, perm: Bits)
    requires k.Boundary()
    ensures AllocOutcome(k, envid, va, perm) == BadEnv <==> Nobody(k.slots, k.cur, envid)
    ensures forall e {:trigger Denotes(k.slots, k.cur, envid, true, e)} :: Denotes(k.slots, k.cur, envid, true, e) ==>
              AllocOutcome(k, envid, va, perm) ==
              if va < 0 || va >= UTOP || va % PGSIZE != 0 || !perm.u || !perm.p || perm.other != 0 then Inval
              else if |k.free| < Wanted(k.frames, k.dirs, e, va / PGSIZE, 1) then NoMem
              else Ok
  {
    BoundaryNamed(k);
    LookupExact(k.slots, k.cur, envid, true, -1);
    forall e {:trigger Denotes(k.slots, k.cur, envid, true, e)} | Denotes(k.slots, k.cur, envid, true, e)
      ensures Envid2Env(k.slots, k.cur, envid, true) == e
    {
      LookupExact(k.slots, k.cur, envid, true, e);
    }
  }

  /** sys_page_alloc.  It refuses an id that stands for nobody the caller may manipulate, then a
      bad address or permission, and fails else exactly if the free pages do not cover the page
      and a missing page table. */
  method SysPageAlloc(k: Kernel, envid: int, va: int, perm: Bits) returns (r: Outcome)
    requires k.Boundary()
    modifies k`ppRef, k`link, k`head, k`frames, k`free, k`held, k`refs
    ensures k.Boundary()
    ensures r == old(AllocOutcome(k, envid, va, perm))
    ensures r == BadEnv <==> Nobody(k.slots, k.cur, envid)
    ensures forall e {:trigger Denotes(k.slots, k.cur, envid, true, e)} :: Denotes(k.slots, k.cur, envid, true, e) ==>
              r == if va < 0 || va >= UTOP || va % PGSIZE != 0 || !perm.u || !perm.p || perm.other != 0 then Inval
                   else if |old(k.free)| < Wanted(old(k.frames), k.dirs, e, va / PGSIZE, 1) then NoMem
                   else Ok
    ensures Kept(old(k.frames), k.dirs, old(k.free), k.frames) && Grows(old(k.refs), k.refs, 1)
    ensures r != Ok ==> MapsSame(old(k.frames), k.dirs, k.frames)
    ensures r == Ok ==>
              var e, n := Envid2Env(k.slots, k.cur, envid, true), PageNum(va);
              var p := Look(k.frames, k.dirs, ByPte(e, n)).page;
              && p in old(k.free) && 0 <= p < |k.frames| && k.frames[p] == ZeroFrame()
              && MapsOnly(old(k.frames), k.dirs, k.frames, e, n, Entry(p, perm))
              && TablesOnly(old(k.frames), k.dirs, k.frames, e, Pdx(n))
              && |k.free| == |old(k.free)| - Wanted(old(k.frames), k.dirs, e, n, 1)
                             + GivenBack(old(k.frames), k.dirs, old(k.refs), e, n, -1)
  {
    AllocAnswered(k, envid, va, perm);
    var e := Envid2Env(k.slots, k.cur, envid, true);
    if e == -1 {
      return BadEnv;
    }
    assert SlotAt(k.slots, k.dirs, e);
    if !GoodVa(va) || !GoodPerm(perm) {
      return Inval;
    }
    var ok := AllocInto(k, e, PageNum(va), perm);
    return if ok then Ok else NoMem;
  }

  /** The part of sys_page_alloc behind its checks. */
  method AllocInto(k: Kernel, e: int, n: int, perm: Bits) returns (ok: bool)
    requires k.Boundary() && e in k.dirs && 0 <= n < NPAGE && perm.p
    modifies k`ppRef, k`link, k`head, k`frames, k`free, k`held, k`refs
    ensures k.Boundary() && (ok <==> !old(Short(k, e, n, 1)))
    ensures Kept(old(k.frames), k.dirs, old(k.free), k.frames) && Grows(old(k.refs), k.refs, 1)
    ensures !ok ==> MapsSame(old(k.frames), k.dirs, k.frames)
    ensures ok ==>
              var p := Look(k.frames, k.dirs, ByPte(e, n)).page;
              && p in old(k.free) && 0 <= p < |k.frames| && k.frames[p] == ZeroFrame()
              && MapsOnly(old(k.frames), k.dirs, k.frames, e, n, Entry(p, perm))
              && TablesOnly(old(k.frames), k.dirs, k.frames, e, Pdx(n))
              && |k.free| == |old(k.free)| - Wanted(old(k.frames), k.dirs, e, n, 1)
                             + GivenBack(old(k.frames), k.dirs, old(k.refs), e, n, -1)
  {
    var p := k.PageAlloc(true);
    if p == -1 {
      return false;
    }
    ghost var frames1, free1 := k.frames, k.free;
    UntargetedNoTable(k.frames, k.dirs, k.refs, p);
    ok := InsertOrFree(k, e, p, n, perm);
    AllocKept(old(k.frames), frames1, k.frames, k.dirs, old(k.free), free1, p);
    AllocTables(old(k.frames), frames1, k.frames, k.dirs, e, Pdx(n));
    assert KeptAt(frames1, k.dirs, free1, k.frames, p);
    assert Look(frames1, k.dirs, ByPte(e, n)) == Look(old(k.frames), k.dirs, ByPte(e, n));
  }

  /** Map the new page, or free it again. */
  method InsertOrFree(k: Kernel, e: int, p: int, n: int, perm: Bits) returns (ok: bool)
    requires k.Inv() && e in k.dirs && 0 <= n < NPAGE
    requires 0 <= p < k.npages && p !in k.kern && p !in k.free && p in k.held && k.refs[p] == {}
    requires NoTable(k.frames, k.dirs, p)
    modifies k`ppRef, k`link, k`head, k`frames, k`free, k`held, k`refs
    ensures k.Inv() && k.held == old(k.held) - {p} && Grows(old(k.refs), k.refs, 1)
    ensures ok <==> old(k.free) != [] || old(Look(k.frames, k.dirs, ByPde(e, Pdx(n)))) != ABSENT
    ensures Kept(old(k.frames), k.dirs, old(k.free), k.frames)
    ensures TablesOnly(old(k.frames), k.dirs, k.frames, e, Pdx(n))
    ensures !ok ==> k.frames == old(k.frames)
    ensures ok ==> MapsOnly(old(k.frames), k.dirs, k.frames, e, n, Entry(p, perm.(p := true)))
    ensures ok ==> |k.free| == |old(k.free)| + GivenBack(old(k.frames), k.dirs, old(k.refs), e, n, -1)
                               - if old(Look(k.frames, k.dirs, ByPde(e, Pdx(n)))) == ABSENT then 1 else 0
  {
    NewGivesBack(k, e, n, p);
    ok := k.PageInsert(e, p, n, perm);
    if !ok {
      k.PageFree(p);
    }
  }

  /** A page without references is not the one that is mapped there. */
  lemma NewGivesBack(k: Kernel, e: int, n: int, p: int)
    requires k.Inv() && 0 <= p < |k.refs| && k.refs[p] == {}
    ensures GivenBack(k.frames, k.dirs, k.refs, e, n, p) == GivenBack(k.frames, k.dirs, k.refs, e, n, -1)
  {
    assert CountAt(k.frames, k.dirs, k.refs, ByPte(e, n), p);
  }

  lemma AllocTables(f0: Frames, f1: Frames, f2: Frames, dirs: Dirs, e: int, d: int)
    requires SameLook(f0, dirs, f1, dirs) && TablesOnly(f1, dirs, f2, e, d)
    ensures TablesOnly(f0, dirs, f2, e, d)
    ensures Look(f1, dirs, ByPde(e, d)) == Look(f0, dirs, ByPde(e, d))
  {
    forall r {:trigger TableAt(f0, dirs, f2, e, d, r)} | true
      ensures TableAt(f0, dirs, f2, e, d, r)
    {
      assert TableAt(f1, dirs, f2, e, d, r) && Look(f1, dirs, r) == Look(f0, dirs, r);
    }
  }

  /** Zeroing a free page and then mapping it disturbs no data page. */
  lemma AllocKept(f0: Frames, f1: Frames, f2: Frames, dirs: Dirs, free0: seq<int>, free1: seq<int>, p: int)
    requires 0 <= p < |f0| && f1 == f0[p := ZeroFrame()] && SameLook(f0, dirs, f1, dirs)
    requires p in free0 && forall q :: q in free1 ==> q in free0
    requires Kept(f1, dirs, free1, f2)
    ensures Kept(f0, dirs, free0, f2)
  {
    forall q {:trigger KeptAt(f0, dirs, free0, f2, q)} | true
      ensures KeptAt(f0, dirs, free0, f2, q)
    {
      assert KeptAt(f1, dirs, free1, f2, q);
      if 0 <= q < |f0| && NoTable(f0, dirs, q) {
        forall r: Ref {:trigger Target(f1, dirs, r)} | !r.ByPte?
          ensures Target(f1, dirs, r) != q
        {
          assert Look(f1, dirs, r) == Look(f0, dirs, r) && Target(f0, dirs, r) != q;
        }
      }
    }
  }

  /** What sys_page_map answers. */
  ghost function MapOutcome(k: Kernel, srcid: int, srcva: int, dstid: int, dstva: int, perm: Bits): Outcome
    requires 0 <= k.cur < 1024
    reads k
  {
    var s, d := Envid2Env(k.slots, k.cur, srcid, true), Envid2Env(k.slots, k.cur, dstid, true);
    if s == -1 || d == -1 then BadEnv
    else if !GoodVa(srcva) || !GoodVa(dstva) || !GoodPerm(perm) then Inval
    else
      var pte := Look(k.frames, k.dirs, ByPte(s, PageNum(srcva)));
      if !pte.bits.p || (perm.w && !pte.bits.w) then Inval
      else if Short(k, d, PageNum(dstva), 0) then NoMem
      else Ok
  }

  /** The 16-bit count of the page to map has room for one more, or the page is mapped there
      already. */
  ghost predicate MapRoom(k: Kernel, srcid: int, srcva: int, dstid: int, dstva: int)
    requires 0 <= k.cur < 1024
    reads k
  {
    var s, d := Envid2Env(k.slots, k.cur, srcid, true), Envid2Env(k.slots, k.cur, dstid, true);
    var x, y := Look(k.frames, k.dirs, ByPte(s, PageNum(srcva))), Look(k.frames, k.dirs, ByPte(d, PageNum(dstva)));
    RoomAt(k.refs, x.page) || (y.bits.p && y.page == x.page)
  }

  /** What sys_page_map answers for environments `s` and `d`: both addresses and the permission
      must be good, a page must be there, and a read-only page is not given for writing. */
  ghost function MapAnswer(frames: Frames, dirs: Dirs, free: seq<int>, s: int, srcva: int, d: int, dstva: int,
                           perm: Bits): Outcome {
    var pte := Look(frames, dirs, ByPte(s, srcva / PGSIZE));
    if srcva < 0 || srcva >= UTOP || srcva % PGSIZE != 0 || dstva < 0 || dstva >= UTOP || dstva % PGSIZE != 0 then Inval
    else if !perm.u || !perm.p || perm.other != 0 || !pte.bits.p || (perm.w && !pte.bits.w) then Inval
    else if free == [] && Look(frames, dirs, ByPde(d, Pdx(dstva / PGSIZE))) == ABSENT then NoMem
    else Ok
  }

  lemma MapAnswered(k: Kernel, srcid: int, srcva: int, dstid: int, dstva: int, perm: Bits)
    requires k.Boundary()
    ensures MapOutcome(k, srcid, srcva, dstid, dstva, perm) == BadEnv <==>
            Nobody(k.slots, k.cur, srcid) || Nobody(k.slots, k.cur, dstid)
    ensures forall s, d {:trigger Denotes(k.slots, k.cur, srcid, true, s), Denotes(k.slots, k.cur, dstid, true, d)} ::
              Denotes(k.slots, k.cur, srcid, true, s) && Denotes(k.slots, k.cur, dstid, true, d) ==>
                MapOutcome(k, srcid, srcva, dstid, dstva, perm)
                == MapAnswer(k.frames, k.dirs, k.free, s, srcva, d, dstva, perm)
  {
    BoundaryNamed(k);
    LookupExact(k.slots, k.cur, srcid, true, -1);
    LookupExact(k.slots, k.cur, dstid, true, -1);
    forall s, d {:trigger Denotes(k.slots, k.cur, srcid, true, s), Denotes(k.slots, k.cur, dstid, true, d)}
      | Denotes(k.slots, k.cur, srcid, true, s) && Denotes(k.slots, k.cur, dstid, true, d)
      ensures MapOutcome(k, srcid, srcva, dstid, dstva, perm)
              == MapAnswer(k.frames, k.dirs, k.free, s, srcva, d, dstva, perm)
    {
      LookupExact(k.slots, k.cur, srcid, true, s);
      LookupExact(k.slots, k.cur, dstid, true, d);
    }
  }

  /** sys_page_map. */
  method SysPageMap(k: Kernel, srcid: int, srcva: int, dstid: int, dstva: int, perm: Bits) returns (r: Outcome)
    requires k.Boundary() && MapRoom(k, srcid, srcva, dstid, dstva)
    modifies k`ppRef, k`link, k`head, k`frames, k`free, k`held, k`refs
    ensures k.Boundary()
    ensures r == old(MapOutcome(k, srcid, srcva, dstid, dstva, perm)) && Grows(old(k.refs), k.refs, 1)
    ensures r == BadEnv <==> Nobody(k.slots, k.cur, srcid) || Nobody(k.slots, k.cur, dstid)
    ensures forall s, d {:trigger Denotes(k.slots, k.cur, srcid, true, s), Denotes(k.slots, k.cur, dstid, true, d)} ::
              Denotes(k.slots, k.cur, srcid, true, s) && Denotes(k.slots, k.cur, dstid, true, d) ==>
                r == MapAnswer(old(k.frames), k.dirs, old(k.free), s, srcva, d, dstva, perm)
    ensures r != Ok ==> k.frames == old(k.frames) && k.free == old(k.free)
    ensures r == Ok ==>
              var s, d := Envid2Env(k.slots, k.cur, srcid, true), Envid2Env(k.slots, k.cur, dstid, true);
              var p := Look(old(k.frames), k.dirs, ByPte(s, PageNum(srcva))).page;
              && Kept(old(k.frames), k.dirs, old(k.free), k.frames) && p !in old(k.free)
              && MapsOnly(old(k.frames), k.dirs, k.frames, d, PageNum(dstva), Entry(p, perm))
              && TablesOnly(old(k.frames), k.dirs, k.frames, d, Pdx(PageNum(dstva)))
              && |k.free| == |old(k.free)| - Wanted(old(k.frames), k.dirs, d, PageNum(dstva), 0)
                             + GivenBack(old(k.frames), k.dirs, old(k.refs), d, PageNum(dstva), p)
  {
    MapAnswered(k, srcid, srcva, dstid, dstva, perm);
    var s, d := Envid2Env(k.slots, k.cur, srcid, true), Envid2Env(k.slots, k.cur, dstid, true);
    if s == -1 || d == -1 {
      return BadEnv;
    }
    assert SlotAt(k.slots, k.dirs, s) && SlotAt(k.slots, k.dirs, d);
    if !GoodVa(srcva) || !GoodVa(dstva) || !GoodPerm(perm) {
      return Inval;
    }
    var pte := PageLookup(k.frames, k.dirs, s, PageNum(srcva));
    if !pte.bits.p {
      return Inval;
    }
    if !pte.bits.w && perm.w {
      return Inval;
    }
    var ok := MapInto(k, s, PageNum(srcva), d, PageNum(dstva), perm);
    return if ok then Ok else NoMem;
  }

  /** The part of sys_page_map behind its checks. */
  method MapInto(k: Kernel, s: int, m: int, d: int, n: int, perm: Bits) returns (ok: bool)
    requires k.Boundary() && d in k.dirs && 0 <= n < NPAGE && perm.p
    requires Look(k.frames, k.dirs, ByPte(s, m)).bits.p
    requires var x, y := Look(k.frames, k.dirs, ByPte(s, m)), Look(k.frames, k.dirs, ByPte(d, n));
             RoomAt(k.refs, x.page) || (y.bits.p && y.page == x.page)
    modifies k`ppRef, k`link, k`head, k`frames, k`free, k`held, k`refs
    ensures k.Boundary() && Grows(old(k.refs), k.refs, 1)
    ensures ok <==> old(k.free) != [] || old(Look(k.frames, k.dirs, ByPde(d, Pdx(n)))) != ABSENT
    ensures !ok ==> k.frames == old(k.frames) && k.free == old(k.free)
    ensures ok ==>
              var p := Look(old(k.frames), k.dirs, ByPte(s, m)).page;
              && Kept(old(k.frames), k.dirs, old(k.free), k.frames) && p !in old(k.free)
              && MapsOnly(old(k.frames), k.dirs, k.frames, d, n, Entry(p, perm))
              && TablesOnly(old(k.frames), k.dirs, k.frames, d, Pdx(n))
              && |k.free| == |old(k.free)| - Wanted(old(k.frames), k.dirs, d, n, 0)
                             + GivenBack(old(k.frames), k.dirs, old(k.refs), d, n, p)
  {
    MappedPage(k, ByPte(s, m));
    ok := k.PageInsert(d, Look(k.frames, k.dirs, ByPte(s, m)).page, n, perm);
  }

  /** A mapped page may be mapped once more: it is in range, no kernel page, not free, not
      held and no table. */
  lemma MappedPage(k: Kernel, r: Ref)
    requires k.Inv() && r.ByPte? && Look(k.frames, k.dirs, r).bits.p
    ensures var p := Look(k.frames, k.dirs, r).page;
            && 0 <= p < k.npages && p !in k.kern && p !in k.free && p !in k.held
            && NoTable(k.frames, k.dirs, p) && r in k.refs[p]
            && (RoomAt(k.refs, p) <==> |k.refs[p]| < 65535)
  {
    var p := Look(k.frames, k.dirs, r).page;
    UserNoTable(k.frames, k.dirs, k.refs, r);
    SameCount(k.ppRef, k.free, k.held, k.refs, k.kern, k.frames, k.dirs, p, r);
    assert CountAt(k.frames, k.dirs, k.refs, r, p) && RefAt(k.ppRef, k.refs, k.kern, p);
  }

  /** What sys_page_unmap answers. */
  ghost function UnmapOutcome(k: Kernel, envid: int, va: int): Outcome
    requires 0 <= k.cur < 1024
    reads k
  {
    if Envid2Env(k.slots, k.cur, envid, true) == -1 then BadEnv
    else if !GoodVa(va) then Inval
    else Ok
  }

  /** sys_page_unmap. */
  method SysPageUnmap(k: Kernel, envid: int, va: int) returns (r: Outcome)
    requires k.Boundary()
    modifies k`ppRef, k`link, k`head, k`frames, k`free, k`held, k`refs
    ensures k.Boundary()
    ensures r == old(UnmapOutcome(k, envid, va)) && Grows(old(k.refs), k.refs, 0)
    ensures r == if Nobody(k.slots, k.cur, envid) then BadEnv
                 else if va < 0 || va >= UTOP || va % PGSIZE != 0 then Inval else Ok
    ensures r != Ok ==> k.frames == old(k.frames) && k.free == old(k.free)
    ensures r == Ok ==>
              var e := Envid2Env(k.slots, k.cur, envid, true);
              && OnlyAt(old(k.frames), k.dirs, k.frames, k.dirs, ByPte(e, PageNum(va)), ABSENT)
              && Kept(old(k.frames), k.dirs, [], k.frames)
              && var q := Target(old(k.frames), k.dirs, ByPte(e, PageNum(va)));
                 k.free == if 0 <= q < |old(k.refs)| && |old(k.refs)[q]| == 1 then old(k.free) + [q] else old(k.free)
  {
    BoundaryNamed(k);
    LookupExact(k.slots, k.cur, envid, true, -1);
    var e := Envid2Env(k.slots, k.cur, envid, true);
    if e == -1 {
      return BadEnv;
    }
    assert SlotAt(k.slots, k.dirs, e);
    if !GoodVa(va) {
      return Inval;
    }
    k.PageRemove(e, PageNum(va));
    return Ok;
  }
}
