/** The eager copy of `user/dumbfork.c`: its duppage makes the step of the eager machine that
    copy-on-write fork is measured against. */
module Dumbfork {
  import opened PageTables
  import opened EnvIds
  import opened Kernel
  import opened Syscalls
  import opened Cow
  import opened Fork

  /** UTEMP, as a page number. */
  const UTEMP: int := 0x400

  /** What everybody sees after environment `e` has copied its page `n` to environment `c`. */
  ghost function CopiedView(v: Eager, e: int, c: int, n: int): Eager {
    imap a: At | InCopied(v, e, c, n, a) :: CopiedCell(v, e, c, n, a)
  }

  ghost predicate InCopied(v: Eager, e: int, c: int, n: int, a: At) {
    if At(e, n) in v then a == At(c, n) || (a in v && a != At(e, UTEMP)) else a in v
  }

  ghost function CopiedCell(v: Eager, e: int, c: int, n: int, a: At): Cell
    requires InCopied(v, e, c, n, a)
  {
    if At(e, n) in v && a == At(c, n) then Private(true, v[At(e, n)].bytes) else v[a]
  }

  /** For a page that the parent may write and does not share, this is the eager step. */
  lemma CopyIsEagerDup(v: Eager, e: int, c: int, n: int)
    requires At(e, n) in v && v[At(e, n)].Private? && v[At(e, n)].w && At(e, UTEMP) !in v
    ensures CopiedView(v, e, c, n) == EagerStep(v, Dup(e, c, n))
  {
    var w, d := CopiedView(v, e, c, n), EagerStep(v, Dup(e, c, n));
    forall a {:trigger SeesAt(w, d, a)} | true
      ensures SeesAt(w, d, a)
    {
    }
    SameViews(w, d);
  }

  /** The states between the calls of duppage: the child's page is allocated, mapped at UTEMP
      as well, filled, and unmapped there. */
  ghost predicate Calls(f0: Frames, f1: Frames, f2: Frames, f3: Frames, f4: Frames, dirs: Dirs, e: int, c: int, n: int,
                        q: int, p: int) {
    && MapsOnly(f0, dirs, f1, c, n, Entry(q, WRITE_BITS)) && Fresh(State(f0, dirs), q)
    && MapsOnly(f1, dirs, f2, e, UTEMP, Entry(q, WRITE_BITS))
    && 0 <= q < |f2| && 0 <= p < |f2| && f3 == f2[q := Data(Bytes(f2[p]))] && SameLook(f2, dirs, f3, dirs)
    && OnlyAt(f3, dirs, f4, dirs, ByPte(e, UTEMP), ABSENT)
    && Keeps(State(f0, dirs), State(f1, dirs)) && Keeps(State(f1, dirs), State(f2, dirs))
    && Keeps(State(f3, dirs), State(f4, dirs))
  }

  lemma CallsPlace(f0: Frames, f1: Frames, f2: Frames, f3: Frames, f4: Frames, dirs: Dirs, e: int, c: int, n: int,
                   q: int, p: int, a: At)
    requires Calls(f0, f1, f2, f3, f4, dirs, e, c, n, q, p) && e != c
    ensures EntryAt(State(f1, dirs), a) == if a == At(c, n) then Entry(q, WRITE_BITS) else EntryAt(State(f0, dirs), a)
    ensures EntryAt(State(f3, dirs), a) == EntryAt(State(f2, dirs), a) ==
            if a == At(e, UTEMP) then Entry(q, WRITE_BITS) else EntryAt(State(f1, dirs), a)
    ensures EntryAt(State(f4, dirs), a) == if a == At(e, UTEMP) then ABSENT else EntryAt(State(f3, dirs), a)
  {
    MapsOnlyAfter(f0, dirs, f1, c, n, Entry(q, WRITE_BITS), a);
    MapsOnlyAfter(f1, dirs, f2, e, UTEMP, Entry(q, WRITE_BITS), a);
    assert Look(f3, dirs, ByPte(a.e, a.n)) == Look(f2, dirs, ByPte(a.e, a.n));
    assert Look(f4, dirs, ByPte(a.e, a.n)) ==
           if ByPte(a.e, a.n) == ByPte(e, UTEMP) then ABSENT else Look(f3, dirs, ByPte(a.e, a.n));
  }

  /** A place other than the child's page and UTEMP shows what it showed. */
  lemma CallsKeep(f0: Frames, f1: Frames, f2: Frames, f3: Frames, f4: Frames, dirs: Dirs, e: int, c: int, n: int,
                  q: int, p: int, a: At)
    requires Calls(f0, f1, f2, f3, f4, dirs, e, c, n, q, p) && e != c
    requires a != At(c, n) && a != At(e, UTEMP) && EntryAt(State(f0, dirs), a).bits.p
    ensures PageBytes(State(f4, dirs), EntryAt(State(f0, dirs), a).page)
            == PageBytes(State(f0, dirs), EntryAt(State(f0, dirs), a).page)
    ensures PageBytes(State(f2, dirs), EntryAt(State(f0, dirs), a).page)
            == PageBytes(State(f0, dirs), EntryAt(State(f0, dirs), a).page)
  {
    CallsPlace(f0, f1, f2, f3, f4, dirs, e, c, n, q, p, a);
    var s0, s1, s2, s3, s4 := State(f0, dirs), State(f1, dirs), State(f2, dirs), State(f3, dirs), State(f4, dirs);
    assert FreshAt(s0, q, a) && KeepsAt(s0, s1, a) && KeepsAt(s1, s2, a) && KeepsAt(s3, s4, a);
  }

  lemma CallsCopy(f0: Frames, f1: Frames, f2: Frames, f3: Frames, f4: Frames, dirs: Dirs, e: int, c: int, n: int,
                  q: int, p: int)
    requires Calls(f0, f1, f2, f3, f4, dirs, e, c, n, q, p) && e != c && n != UTEMP
    requires EntryAt(State(f0, dirs), At(e, n)).bits.p && EntryAt(State(f0, dirs), At(e, n)).page == p
    ensures PageBytes(State(f4, dirs), q) == PageBytes(State(f0, dirs), p)
  {
    CallsPlace(f0, f1, f2, f3, f4, dirs, e, c, n, q, p, At(c, n));
    CallsKeep(f0, f1, f2, f3, f4, dirs, e, c, n, q, p, At(e, n));
    assert KeepsAt(State(f3, dirs), State(f4, dirs), At(c, n));
  }

  lemma CallsView(f0: Frames, f1: Frames, f2: Frames, f3: Frames, f4: Frames, dirs: Dirs,
                  e: int, c: int, n: int, q: int, p: int)
    requires Calls(f0, f1, f2, f3, f4, dirs, e, c, n, q, p) && e != c && n != UTEMP
    requires EntryAt(State(f0, dirs), At(e, n)).bits.p && EntryAt(State(f0, dirs), At(e, n)).page == p
    ensures Shows(State(f4, dirs), CopiedView(View(State(f0, dirs)), e, c, n))
  {
    var s, t := State(f0, dirs), State(f4, dirs);
    var w := CopiedView(View(s), e, c, n);
    CallsCopy(f0, f1, f2, f3, f4, dirs, e, c, n, q, p);
    forall a {:trigger ShowsAt(t, w, a)} | true
      ensures ShowsAt(t, w, a)
    {
      CallsPlace(f0, f1, f2, f3, f4, dirs, e, c, n, q, p, a);
      if a != At(c, n) && a != At(e, UTEMP) && EntryAt(s, a).bits.p {
        CallsKeep(f0, f1, f2, f3, f4, dirs, e, c, n, q, p, a);
      }
      CopyShows(s, t, e, c, n, q, a);
    }
  }

  /** The copied view, place by place, from the entries and the bytes behind them. */
  lemma CopyShows(s: State, t: State, e: int, c: int, n: int, q: int, a: At)
    requires e != c && EntryAt(s, At(e, n)).bits.p
    requires EntryAt(t, a) == if a == At(c, n) then Entry(q, WRITE_BITS)
                              else if a == At(e, UTEMP) then ABSENT else EntryAt(s, a)
    requires a == At(c, n) ==> PageBytes(t, q) == PageBytes(s, EntryAt(s, At(e, n)).page)
    requires a != At(c, n) && a != At(e, UTEMP) && EntryAt(s, a).bits.p ==>
               PageBytes(t, EntryAt(s, a).page) == PageBytes(s, EntryAt(s, a).page)
    ensures ShowsAt(t, CopiedView(View(s), e, c, n), a)
  {
  }

  /** Nobody but the child sees a difference, except that UTEMP may be gone from the parent. */
  ghost predicate OnlyChild(v: Eager, t: State, e: int, c: int) {
    forall a: At {:trigger ShowsAt(t, v, a)} :: a.e != c && a != At(e, UTEMP) ==> ShowsAt(t, v, a)
  }

  /** How many free pages duppage takes: the copy, and page tables for it and for UTEMP. */
  ghost function CopyCost(k: Kernel, c: int, n: int): int
    reads k
  {
    Wanted(k.frames, k.dirs, c, n, 1) + Wanted(k.frames, k.dirs, k.cur, UTEMP, 0)
  }

  /** The first copy gives back a page that is mapped at UTEMP and nowhere else. */
  ghost function TempBack(s: State, refs: Refs, e: int): int {
    GivenBack(s.frames, s.dirs, refs, e, UTEMP, -1)
  }

  /** The page was copied for its price: the child has its page table and the parent that of
      UTEMP, and no other table of the child came or went. */
  ghost predicate CopyPaid(s: State, t: State, free: int, free2: int, back: int, e: int, c: int, n: int) {
    && free2 == free - Wanted(s.frames, s.dirs, c, n, 1) - Wanted(s.frames, s.dirs, e, UTEMP, 0) + back
    && (forall d {:trigger TableSpentAt(s, t, c, n, d)} :: TableSpentAt(s, t, c, n, d))
    && HasTable(t, e, Pdx(UTEMP))
  }

  /** duppage of dumbfork; a false result is its panic.  It fails exactly for lack of memory, with
      a page that the child had there before given back. */
  method EagerDupPage(k: Kernel, childid: int, n: int) returns (ok: bool)
    requires k.Boundary() && 0 <= n < NPAGE && n != UTEMP
    requires var c := Envid2Env(k.slots, k.cur, childid, true); c != -1 && c != k.cur
    requires Look(k.frames, k.dirs, ByPte(k.cur, n)).bits.p
    modifies k`ppRef, k`link, k`head, k`frames, k`free, k`held, k`refs
    ensures k.Boundary() && At(k.cur, n) in View(old(Now(k)))
    ensures var c := Envid2Env(k.slots, k.cur, childid, true);
            && (ok <==> && |old(k.free)| >= old(Wanted(k.frames, k.dirs, c, n, 1))
                        && |old(k.free)| + old(GivenBack(k.frames, k.dirs, k.refs, c, n, -1)) >= old(CopyCost(k, c, n)))
            && (ok && !old(Look(k.frames, k.dirs, ByPte(c, n))).bits.p ==>
                  CopyPaid(old(Now(k)), Now(k), |old(k.free)|, |k.free|, old(TempBack(Now(k), k.refs, k.cur)),
                           k.cur, c, n))
            && (ok ==> Shows(Now(k), CopiedView(View(old(Now(k))), k.cur, c, n)))
            && (!ok ==> OnlyChild(View(old(Now(k))), Now(k), k.cur, c))
  {
    ghost var c, f0 := Envid2Env(k.slots, k.cur, childid, true), k.frames;
    ghost var p, q, f2 := Look(f0, k.dirs, ByPte(k.cur, n)).page, 0, f0;
    ok, q := NewPage(k, childid, n, c);
    if !ok {
      return;
    }
    ghost var f1, s1 := k.frames, Now(k);
    ok, f2 := FillPage(k, childid, n, c, q);
    if ok {
      SpentThenSame(old(Now(k)), s1, Now(k), c, n);
      CallsView(f0, f1, f2, f2[q := Data(Bytes(f2[p]))], k.frames, k.dirs, k.cur, c, n, q, p);
    }
  }

  lemma SpentThenSame(s: State, t: State, u: State, c: int, n: int)
    requires forall d {:trigger TableSpentAt(s, t, c, n, d)} :: TableSpentAt(s, t, c, n, d)
    requires SameTables(t, u, c)
    ensures forall d {:trigger TableSpentAt(s, u, c, n, d)} :: TableSpentAt(s, u, c, n, d)
  {
    forall d {:trigger TableSpentAt(s, u, c, n, d)} | true
      ensures TableSpentAt(s, u, c, n, d)
    {
      assert TableSpentAt(s, t, c, n, d) && SameTableAt(t, u, c, d);
    }
  }

  /** The first call of duppage: a new page for the child. */
  method NewPage(k: Kernel, childid: int, n: int, ghost c: int) returns (ok: bool, ghost q: int)
    requires k.Boundary() && 0 <= n < NPAGE && n != UTEMP
    requires c == Envid2Env(k.slots, k.cur, childid, true) && c != -1 && c != k.cur
    modifies k`ppRef, k`link, k`head, k`frames, k`free, k`held, k`refs
    ensures k.Boundary() && (ok <==> !old(Short(k, c, n, 1)))
    ensures OnlyChild(View(old(Now(k))), Now(k), k.cur, c)
    ensures Wanted(k.frames, k.dirs, k.cur, UTEMP, 0) == old(Wanted(k.frames, k.dirs, k.cur, UTEMP, 0)) || !ok
    ensures ok ==> && MapsOnly(old(k.frames), k.dirs, k.frames, c, n, Entry(q, WRITE_BITS)) && RoomAt(k.refs, q)
                   && Fresh(old(Now(k)), q) && Keeps(old(Now(k)), Now(k))
                   && Look(k.frames, k.dirs, ByPte(c, n)) == Entry(q, WRITE_BITS)
                   && Look(k.frames, k.dirs, ByPte(k.cur, n)) == Look(old(k.frames), k.dirs, ByPte(k.cur, n))
                   && |k.free| == |old(k.free)| - Wanted(old(k.frames), k.dirs, c, n, 1)
                                  + GivenBack(old(k.frames), k.dirs, old(k.refs), c, n, -1)
    ensures ok ==> forall d {:trigger TableSpentAt(old(Now(k)), Now(k), c, n, d)} ::
                     TableSpentAt(old(Now(k)), Now(k), c, n, d)
    ensures ok && !old(Look(k.frames, k.dirs, ByPte(c, n))).bits.p ==>
              GivenBack(k.frames, k.dirs, k.refs, k.cur, UTEMP, q) == old(TempBack(Now(k), k.refs, k.cur))
  {
    ghost var f0 := k.frames;
    assert PageNum(n * PGSIZE) == n;
    var r := SysPageAlloc(k, childid, n * PGSIZE, WRITE_BITS);
    ghost var f1 := k.frames;
    q := Look(f1, k.dirs, ByPte(c, n)).page;
    KeptKeeps(old(k.ppRef), old(k.free), old(k.held), old(k.refs), k.kern, f0, k.dirs, f1);
    ok := r == Ok;
    if ok {
      FreeFresh(old(k.ppRef), old(k.free), old(k.held), old(k.refs), k.kern, f0, k.dirs, q);
      NewPageThere(k, f0, c, n, q);
      if !Look(f0, k.dirs, ByPte(c, n)).bits.p {
        TempKept(old(Now(k)), old(k.refs), Now(k), k.refs, k.cur, c, n, q);
      }
    } else {
      SameMapsChild(f0, k.dirs, f1, k.cur, c);
    }
  }

  lemma SameMapsChild(f0: Frames, dirs: Dirs, f1: Frames, e: int, c: int)
    requires MapsSame(f0, dirs, f1) && Keeps(State(f0, dirs), State(f1, dirs))
    ensures OnlyChild(View(State(f0, dirs)), State(f1, dirs), e, c)
  {
    var s, t := State(f0, dirs), State(f1, dirs);
    forall a: At {:trigger ShowsAt(t, View(s), a)} | a.e != c && a != At(e, UTEMP)
      ensures ShowsAt(t, View(s), a)
    {
      assert Look(f1, dirs, ByPte(a.e, a.n)) == Look(f0, dirs, ByPte(a.e, a.n)) && KeepsAt(s, t, a);
    }
  }

  ghost predicate SameUseAt(s: State, t: State, p: int, a: At) {
    var x, y := EntryAt(s, a), EntryAt(t, a);
    x.bits.p && x.page == p <==> y.bits.p && y.page == p
  }

  /** The references to a page are known from where it is mapped. */
  lemma RefsSame(s: State, refs: Refs, t: State, refs2: Refs, a: At, p: int)
    requires Mapped(s.frames, s.dirs, refs) && Mapped(t.frames, t.dirs, refs2)
    requires EntryAt(s, a).bits.p && EntryAt(s, a).page == p
    requires forall b {:trigger SameUseAt(s, t, p, b)} :: SameUseAt(s, t, p, b)
    ensures 0 <= p < |refs| && p < |refs2| && refs2[p] == refs[p]
  {
    assert SameUseAt(s, t, p, a);
    UserNoTable(s.frames, s.dirs, refs, ByPte(a.e, a.n));
    UserNoTable(t.frames, t.dirs, refs2, ByPte(a.e, a.n));
    forall r {:trigger r in refs[p]} {:trigger r in refs2[p]} | true
      ensures r in refs[p] <==> r in refs2[p]
    {
      assert CountAt(s.frames, s.dirs, refs, r, p) && CountAt(t.frames, t.dirs, refs2, r, p);
      if r.ByPte? {
        assert SameUseAt(s, t, p, At(r.e, r.n));
      }
    }
  }

  /** A new page for the child does not change what is given back at UTEMP. */
  lemma TempKept(s: State, refs: Refs, t: State, refs2: Refs, e: int, c: int, n: int, q: int)
    requires Mapped(s.frames, s.dirs, refs) && Mapped(t.frames, t.dirs, refs2) && s.dirs == t.dirs && e != c
    requires MapsOnly(s.frames, s.dirs, t.frames, c, n, Entry(q, WRITE_BITS)) && Fresh(s, q)
    requires !EntryAt(s, At(c, n)).bits.p
    ensures GivenBack(t.frames, t.dirs, refs2, e, UTEMP, q) == TempBack(s, refs, e)
  {
    var u := At(e, UTEMP);
    var x := EntryAt(s, u);
    MapsOnlyAfter(s.frames, s.dirs, t.frames, c, n, Entry(q, WRITE_BITS), u);
    if x.bits.p {
      assert FreshAt(s, q, u);
      forall a {:trigger SameUseAt(s, t, x.page, a)} | true
        ensures SameUseAt(s, t, x.page, a)
      {
        MapsOnlyAfter(s.frames, s.dirs, t.frames, c, n, Entry(q, WRITE_BITS), a);
      }
      RefsSame(s, refs, t, refs2, u, x.page);
    }
  }

  /** What is known of the child's new page. */
  lemma NewPageThere(k: Kernel, f0: Frames, c: int, n: int, q: int)
    requires k.Inv() && c != k.cur && n != UTEMP && MapsOnly(f0, k.dirs, k.frames, c, n, Entry(q, WRITE_BITS))
    requires Fresh(State(f0, k.dirs), q) && Keeps(State(f0, k.dirs), Now(k))
    requires TablesOnly(f0, k.dirs, k.frames, c, Pdx(n))
    ensures OnlyChild(View(State(f0, k.dirs)), Now(k), k.cur, c) && RoomAt(k.refs, q)
    ensures Wanted(k.frames, k.dirs, k.cur, UTEMP, 0) == Wanted(f0, k.dirs, k.cur, UTEMP, 0)
    ensures Look(k.frames, k.dirs, ByPte(c, n)) == Entry(q, WRITE_BITS)
    ensures Look(k.frames, k.dirs, ByPte(k.cur, n)) == Look(f0, k.dirs, ByPte(k.cur, n))
    ensures forall d {:trigger TableSpentAt(State(f0, k.dirs), Now(k), c, n, d)} ::
              TableSpentAt(State(f0, k.dirs), Now(k), c, n, d)
  {
    var free := Wanted(f0, k.dirs, c, n, 0);
    SpentOnce(State(f0, k.dirs), Now(k), free, 0, c, n);
    MapsOnlyAfter(f0, k.dirs, k.frames, c, n, Entry(q, WRITE_BITS), At(c, n));
    MapsOnlyAfter(f0, k.dirs, k.frames, c, n, Entry(q, WRITE_BITS), At(k.cur, n));
    NewPageRoom(k, f0, c, n, q, WRITE_BITS);
    AllocOthers(f0, k.dirs, k.frames, k.cur, c, n, Entry(q, WRITE_BITS));
    assert TableAt(f0, k.dirs, k.frames, c, Pdx(n), ByPde(k.cur, Pdx(UTEMP)));
  }

  lemma AllocOthers(f0: Frames, dirs: Dirs, f1: Frames, e: int, c: int, n: int, x: Entry)
    requires MapsOnly(f0, dirs, f1, c, n, x) && Keeps(State(f0, dirs), State(f1, dirs))
    ensures OnlyChild(View(State(f0, dirs)), State(f1, dirs), e, c)
  {
    var s, t := State(f0, dirs), State(f1, dirs);
    forall a: At {:trigger ShowsAt(t, View(s), a)} | a.e != c && a != At(e, UTEMP)
      ensures ShowsAt(t, View(s), a)
    {
      MapsOnlyAfter(f0, dirs, f1, c, n, x, a);
      assert KeepsAt(s, t, a);
    }
  }

  /** The part of duppage that fills the child's new page through UTEMP. */
  method FillPage(k: Kernel, childid: int, n: int, ghost c: int, ghost q: int) returns (ok: bool, ghost f2: Frames)
    requires k.Boundary() && RoomAt(k.refs, q) && 0 <= n < NPAGE && n != UTEMP
    requires c == Envid2Env(k.slots, k.cur, childid, true) && c != -1 && c != k.cur
    requires Look(k.frames, k.dirs, ByPte(k.cur, n)).bits.p
             && Look(k.frames, k.dirs, ByPte(c, n)) == Entry(q, WRITE_BITS)
    modifies k`ppRef, k`link, k`head, k`frames, k`free, k`held, k`refs
    ensures k.Boundary() && (ok <==> !old(Short(k, k.cur, UTEMP, 0))) && (!ok ==> k.frames == old(k.frames))
    ensures ok ==>
              var p := Look(old(k.frames), k.dirs, ByPte(k.cur, n)).page;
              && MapsOnly(old(k.frames), k.dirs, f2, k.cur, UTEMP, Entry(q, WRITE_BITS))
              && Keeps(old(Now(k)), State(f2, k.dirs)) && 0 <= q < |f2| && 0 <= p < |f2|
              && var f3 := f2[q := Data(Bytes(f2[p]))];
                 && SameLook(f2, k.dirs, f3, k.dirs) && Keeps(State(f3, k.dirs), Now(k))
                 && OnlyAt(f3, k.dirs, k.frames, k.dirs, ByPte(k.cur, UTEMP), ABSENT)
    ensures ok ==> && SameTables(old(Now(k)), Now(k), c) && HasTable(Now(k), k.cur, Pdx(UTEMP))
                   && |k.free| == |old(k.free)| - Wanted(old(k.frames), k.dirs, k.cur, UTEMP, 0)
                                  + GivenBack(old(k.frames), k.dirs, old(k.refs), k.cur, UTEMP, q)
  {
    ok := MapTemp(k, childid, n, c, q);
    f2 := k.frames;
    if !ok {
      return;
    }
    TempTable(old(k.frames), k.dirs, f2, k.cur, c);
    MapsOnlyAfter(old(k.frames), k.dirs, f2, k.cur, UTEMP, Entry(q, WRITE_BITS), At(k.cur, n));
    MapsOnlyAfter(old(k.frames), k.dirs, f2, k.cur, UTEMP, Entry(q, WRITE_BITS), At(k.cur, UTEMP));
    CopyPage(k, UTEMP, n);
    assert Look(k.frames, k.dirs, ByPte(k.cur, UTEMP)) == Look(f2, k.dirs, ByPte(k.cur, UTEMP));
    assert Look(k.frames, k.dirs, ByPte(k.cur, n)) == Look(f2, k.dirs, ByPte(k.cur, n));
    MapsOnlyAfter(old(k.frames), k.dirs, f2, k.cur, UTEMP, Entry(q, WRITE_BITS), At(c, n));
    assert Look(k.frames, k.dirs, ByPte(c, n)) == Look(f2, k.dirs, ByPte(c, n));
    TwoRefs(k, q, At(c, n), At(k.cur, UTEMP));
    ghost var f3 := k.frames;
    Fork.Unmap(k, UTEMP);
    KeptTables(old(k.frames), f2, f3, k.frames, k.dirs, k.cur, c);
  }

  /** A page mapped at two places has two references. */
  lemma TwoRefs(k: Kernel, q: int, a: At, b: At)
    requires k.Inv() && a != b && EntryAt(Now(k), a).bits.p && EntryAt(Now(k), b).bits.p
    requires EntryAt(Now(k), a).page == q == EntryAt(Now(k), b).page
    ensures 0 <= q < |k.refs| && |k.refs[q]| >= 2
  {
    MappedRefs(k, q, a, ByPte(a.e, a.n));
    MappedRefs(k, q, a, ByPte(b.e, b.n));
    SubsetSize({ByPte(a.e, a.n), ByPte(b.e, b.n)}, k.refs[q]);
  }

  lemma TempTable(f0: Frames, dirs: Dirs, f1: Frames, e: int, c: int)
    requires TablesOnly(f0, dirs, f1, e, Pdx(UTEMP)) && e != c && Look(f1, dirs, ByPte(e, UTEMP)).bits.p
    ensures SameTables(State(f0, dirs), State(f1, dirs), c) && HasTable(State(f1, dirs), e, Pdx(UTEMP))
  {
    forall d {:trigger SameTableAt(State(f0, dirs), State(f1, dirs), c, d)} | true
      ensures SameTableAt(State(f0, dirs), State(f1, dirs), c, d)
    {
      assert TableAt(f0, dirs, f1, e, Pdx(UTEMP), ByPde(c, d));
    }
  }

  lemma KeptTables(f0: Frames, f2: Frames, f3: Frames, f4: Frames, dirs: Dirs, e: int, c: int)
    requires SameTables(State(f0, dirs), State(f2, dirs), c) && HasTable(State(f2, dirs), e, Pdx(UTEMP))
    requires SameLook(f2, dirs, f3, dirs) && OnlyAt(f3, dirs, f4, dirs, ByPte(e, UTEMP), ABSENT)
    ensures SameTables(State(f0, dirs), State(f4, dirs), c) && HasTable(State(f4, dirs), e, Pdx(UTEMP))
  {
    forall d {:trigger SameTableAt(State(f0, dirs), State(f4, dirs), c, d)} | true
      ensures SameTableAt(State(f0, dirs), State(f4, dirs), c, d)
    {
      assert SameTableAt(State(f0, dirs), State(f2, dirs), c, d);
      assert Look(f4, dirs, ByPde(c, d)) == Look(f3, dirs, ByPde(c, d)) == Look(f2, dirs, ByPde(c, d));
    }
    var r := ByPde(e, Pdx(UTEMP));
    assert Look(f4, dirs, r) == Look(f3, dirs, r) == Look(f2, dirs, r);
  }

  /** The second call of duppage: the child's page at UTEMP as well. */
  method MapTemp(k: Kernel, childid: int, n: int, ghost c: int, ghost q: int) returns (ok: bool)
    requires k.Boundary() && RoomAt(k.refs, q) && 0 <= n < NPAGE
    requires c == Envid2Env(k.slots, k.cur, childid, true) && c != -1
    requires Look(k.frames, k.dirs, ByPte(c, n)) == Entry(q, WRITE_BITS)
    modifies k`ppRef, k`link, k`head, k`frames, k`free, k`held, k`refs
    ensures k.Boundary() && (ok <==> !old(Short(k, k.cur, UTEMP, 0))) && (!ok ==> k.frames == old(k.frames))
    ensures ok ==>
            && MapsOnly(old(k.frames), k.dirs, k.frames, k.cur, UTEMP, Entry(q, WRITE_BITS))
            && Keeps(old(Now(k)), Now(k)) && TablesOnly(old(k.frames), k.dirs, k.frames, k.cur, Pdx(UTEMP))
            && |k.free| == |old(k.free)| - Wanted(old(k.frames), k.dirs, k.cur, UTEMP, 0)
                           + GivenBack(old(k.frames), k.dirs, old(k.refs), k.cur, UTEMP, q)
  {
    assert PageNum(n * PGSIZE) == n && PageNum(UTEMP * PGSIZE) == UTEMP;
    var r := SysPageMap(k, childid, n * PGSIZE, 0, UTEMP * PGSIZE, WRITE_BITS);
    ok := r == Ok;
    if ok {
      KeptKeeps(old(k.ppRef), old(k.free), old(k.held), old(k.refs), k.kern, old(k.frames), k.dirs, k.frames);
    }
  }

  // ---------- dumbfork ----------

  /** UTEXT, as a page number. */
  const UTEXT: int := 0x800

  /** What everybody sees once the pages from UTEXT to `hi` are copied. */
  ghost function DumbView(v: Eager, e: int, c: int, hi: int): Eager
    decreases hi
  {
    if hi <= UTEXT then v else CopiedView(DumbView(v, e, c, hi - 1), e, c, hi - 1)
  }

  ghost predicate HasPage(v: Eager, e: int, m: int) { At(e, m) in v }

  /** The program is mapped up to `end`. */
  ghost predicate HasAll(v: Eager, e: int, end: int) {
    forall m {:trigger HasPage(v, e, m)} :: UTEXT <= m < end ==> HasPage(v, e, m)
  }

  /** The child has its own copies of the parent's pages, the parent loses UTEMP, and nothing
      else is different. */
  ghost predicate DumbAt(v: Eager, w: Eager, e: int, c: int, hi: int, a: At) {
    if a.e == c && UTEXT <= a.n < hi then
      HasPage(v, e, a.n) && a in w && w[a] == Private(true, v[At(e, a.n)].bytes)
    else if a == At(e, UTEMP) && UTEXT < hi then a !in w
    else SeesAt(v, w, a)
  }

  lemma {:induction false} DumbViewAt(v: Eager, e: int, c: int, hi: int, a: At)
    requires e != c && HasAll(v, e, hi)
    ensures DumbAt(v, DumbView(v, e, c, hi), e, c, hi, a)
    decreases hi
  {
    if hi > UTEXT {
      assert HasPage(v, e, hi - 1);
      DumbViewAt(v, e, c, hi - 1, a);
      DumbViewAt(v, e, c, hi - 1, At(e, hi - 1));
    }
  }

  /** The same, of what the page tables hold. */
  ghost predicate DumbedAt(s: State, v: Eager, e: int, c: int, hi: int, a: At) {
    var x := EntryAt(s, a);
    if a.e == c && UTEXT <= a.n < hi then
      HasPage(v, e, a.n) && x.bits.p && CellOf(s, x) == Private(true, v[At(e, a.n)].bytes)
    else if a == At(e, UTEMP) && UTEXT < hi then !x.bits.p
    else (a in v <==> x.bits.p) && (x.bits.p ==> v[a] == CellOf(s, x))
  }

  ghost predicate Dumbed(s: State, v: Eager, e: int, c: int, hi: int) {
    forall a {:trigger DumbedAt(s, v, e, c, hi, a)} :: DumbedAt(s, v, e, c, hi, a)
  }

  lemma DumbedShows(s: State, v: Eager, e: int, c: int, hi: int)
    requires e != c && HasAll(v, e, hi)
    ensures Dumbed(s, v, e, c, hi) <==> Shows(s, DumbView(v, e, c, hi))
  {
    var d := DumbView(v, e, c, hi);
    forall a {:trigger DumbedAt(s, v, e, c, hi, a)} {:trigger ShowsAt(s, d, a)} | true
      ensures DumbedAt(s, v, e, c, hi, a) <==> ShowsAt(s, d, a)
    {
      DumbViewAt(v, e, c, hi, a);
      DumbedOne(s, v, d, e, c, hi, a);
    }
  }

  lemma DumbedOne(s: State, v: Eager, d: Eager, e: int, c: int, hi: int, a: At)
    requires DumbAt(v, d, e, c, hi, a)
    ensures DumbedAt(s, v, e, c, hi, a) <==> ShowsAt(s, d, a)
  {
  }

  /** The page tables of the pages from UTEXT to `n`. */
  ghost function DumbTables(n: int): set<int>
    decreases n - UTEXT
  {
    if n <= UTEXT then {} else DumbTables(n - 1) + {(n - 1) / 1024}
  }

  lemma {:induction false} DumbTablesGrow(n: int, end: int)
    requires n <= end
    ensures DumbTables(n) <= DumbTables(end)
    decreases end - n
  {
    if n < end { DumbTablesGrow(n, end - 1); }
  }

  /** What the child's copies take: a page for each page of the program and for the stack, and
      the page tables that these lie in. */
  ghost function DumbCost(end: int, sp: int): int {
    end - UTEXT + 1 + |DumbTables(end) + {sp / 1024}|
  }

  /** The copies can be paid for.  `temp` is 1 if the parent lacks the page table for UTEMP, and
      `back` is 1 if the first copy, which takes two pages, gives back the page at UTEMP. */
  ghost predicate CanDumb(free: int, temp: int, back: int, end: int, sp: int) {
    free >= 2 + temp && free + back >= temp + DumbCost(end, sp)
  }

  /** The pages below `n` were copied for their price, out of `free` pages. */
  ghost predicate DumbPaid(s: State, left: int, free: int, temp: int, back: int, e: int, c: int, n: int) {
    && 0 <= temp && 0 <= back <= 1
    && (forall d {:trigger DirAt(s, c, DumbTables(n), d)} :: DirAt(s, c, DumbTables(n), d))
    && Wanted(s.frames, s.dirs, e, UTEMP, 0) == (if n == UTEXT then temp else 0)
    && left == if n == UTEXT then free else free + back - temp - (n - UTEXT) - |DumbTables(n)|
  }

  /** One more page is paid for. */
  lemma DumbPaidMore(s: State, t: State, left: int, left2: int, free: int, temp: int, back: int, e: int, c: int,
                     n: int, next: int)
    requires DumbPaid(s, left, free, temp, back, e, c, n) && UTEXT <= n && next == n + 1
    requires CopyPaid(s, t, left, left2, if n == UTEXT then back else 0, e, c, n)
    ensures DumbPaid(t, left2, free, temp, back, e, c, next)
  {
    DirsMore(s, t, left, left - Wanted(s.frames, s.dirs, c, n, 0), c, n, DumbTables(n));
    assert DumbTables(UTEXT) == {};
  }

  /** Where duppage fails, the whole cannot be paid for. */
  lemma DumbPaidFails(s: State, left: int, free: int, temp: int, back: int, e: int, c: int, n: int, end: int, sp: int)
    requires DumbPaid(s, left, free, temp, back, e, c, n) && UTEXT <= n < end
    requires left < Wanted(s.frames, s.dirs, c, n, 1) + Wanted(s.frames, s.dirs, e, UTEMP, 0)
    ensures !CanDumb(free, temp, back, end, sp)
  {
    assert DirAt(s, c, DumbTables(n), n / 1024);
    DumbTablesGrow(n + 1, end);
    OneAdded(DumbTables(n), n / 1024);
    SubsetSize(DumbTables(n + 1), DumbTables(end) + {sp / 1024});
    assert DumbTables(UTEXT) == {};
  }

  /** What is left to pay once the program is copied. */
  lemma DumbPaidLast(s: State, left: int, free: int, temp: int, back: int, e: int, c: int, end: int, sp: int)
    requires DumbPaid(s, left, free, temp, back, e, c, end) && UTEXT <= end
    ensures left >= Wanted(s.frames, s.dirs, c, sp, 1) + Wanted(s.frames, s.dirs, e, UTEMP, 0)
            <==> CanDumb(free, temp, back, end, sp)
  {
    assert DirAt(s, c, DumbTables(end), sp / 1024);
    OneAdded(DumbTables(end), sp / 1024);
    if end == UTEXT {
      assert DumbTables(UTEXT) == {};
    } else {
      DumbTablesGrow(UTEXT + 1, end);
      assert UTEXT / 1024 in DumbTables(UTEXT + 1);
    }
  }

  /** dumbfork, up to the call that makes the child run: `end` is the page after the program
      and `sp` the page of the stack.  A negative result is its panic.  The child gets its own
      copy of each page; on failure no other environment sees a difference.  It succeeds exactly
      if a slot is free and the free pages cover the directory, the copies and their tables. */
  method DumbFork(k: Kernel, end: int, sp: int) returns (childid: int)
    requires k.Boundary() && UTEXT <= end <= NPAGE && 0 <= sp < NPAGE && sp != UTEMP
    requires HasPage(View(Now(k)), k.cur, sp)
    requires HasAll(View(Now(k)), k.cur, end)
    modifies k`ppRef, k`link, k`head, k`frames, k`free, k`held, k`refs, k`dirs, k`slots, k`envFree
    ensures k.Boundary()
    ensures childid >= 0 ==>
              var c := Envid2Env(k.slots, k.cur, childid, true);
              && childid > 0 && c != -1 && c != k.cur && c !in old(k.dirs)
              && Shows(Now(k), CopiedView(DumbView(View(old(Now(k))), k.cur, c, end), k.cur, c, sp))
    ensures childid < 0 ==> Spared(View(old(Now(k))), Now(k), k.cur, old(k.dirs))
    ensures var temp, back := old(Wanted(k.frames, k.dirs, k.cur, UTEMP, 0)), old(TempBack(Now(k), k.refs, k.cur));
            childid > 0 <==>
              && (exists i {:trigger old(k.slots)[i]} :: 0 <= i < 1024 && old(k.slots)[i].free)
              && |old(k.free)| >= 3 + temp && |old(k.free)| + back >= 1 + temp + DumbCost(end, sp)
  {
    ghost var v, temp, back := View(Now(k)), Wanted(k.frames, k.dirs, k.cur, UTEMP, 0), TempBack(Now(k), k.refs, k.cur);
    var c;
    childid, c := NewChild(k);
    if childid < 0 {
      return;
    }
    var ok := DumbCopy(k, childid, end, sp, v, c, |k.free|, temp, back);
    if !ok {
      SparedBy(v, Now(k), k.cur, old(k.dirs), c);
      return -1;
    }
  }

  /** At most an environment that was not there before sees a difference, and the parent at
      UTEMP. */
  ghost predicate Spared(v: Eager, t: State, e: int, dirs: Dirs) {
    exists c :: c !in dirs && OnlyChild(v, t, e, c)
  }

  lemma SparedBy(v: Eager, t: State, e: int, dirs: Dirs, c: int)
    requires c !in dirs && OnlyChild(v, t, e, c)
    ensures Spared(v, t, e, dirs)
  {
  }

  /** Everybody sees `v`, the new child `c` has nothing, and nothing was paid yet. */
  ghost predicate Started(k: Kernel, v: Eager, c: int, temp: int, back: int)
    reads k
  {
    && Shows(Now(k), v) && NoCells(v, c) && TempBack(Now(k), k.refs, k.cur) == back
    && DumbPaid(Now(k), |k.free|, |k.free|, temp, back, k.cur, c, UTEXT)
  }

  /** sys_exofork; the child's slot is known from its id. */
  method NewChild(k: Kernel) returns (childid: int, c: int)
    requires k.Boundary()
    modifies k`ppRef, k`link, k`head, k`frames, k`free, k`held, k`refs, k`dirs, k`slots, k`envFree
    ensures k.Boundary()
    ensures childid >= 0 ==>
              && childid > 0 && c == Envid2Env(k.slots, k.cur, childid, true) && c != -1 && c != k.cur
              && c !in old(k.dirs) && |k.free| == |old(k.free)| - 1
              && Started(k, View(old(Now(k))), c, old(Wanted(k.frames, k.dirs, k.cur, UTEMP, 0)),
                         old(TempBack(Now(k), k.refs, k.cur)))
    ensures childid > 0 <==>
            (exists i {:trigger old(k.slots)[i]} :: 0 <= i < 1024 && old(k.slots)[i].free) && old(k.free) != []
    ensures childid < 0 ==> Spared(View(old(Now(k))), Now(k), k.cur, old(k.dirs))
  {
    ghost var s0 := Now(k);
    var r := Exofork(k);
    if !r.Created? {
      assert SlotAt(k.slots, k.dirs, 1024);
      SparedBy(View(s0), Now(k), k.cur, old(k.dirs), 1024);
      return -1, -1;
    }
    childid, c := k.slots[r.slot].id, r.slot;
    CreateView(s0, Now(k), c);
    ShowsView(Now(k), View(s0));
    AbsentNoCells(s0, c);
    TempCreate(s0, old(k.refs), Now(k), k.refs, k.cur, c);
    assert SameTableAt(s0, Now(k), k.cur, Pdx(UTEMP));
    assert DumbTables(UTEXT) == {};
  }

  lemma TempCreate(s: State, refs: Refs, t: State, refs2: Refs, e: int, c: int)
    requires Mapped(s.frames, s.dirs, refs) && Mapped(t.frames, t.dirs, refs2) && Step(s, Create(c), t)
    ensures TempBack(t, refs2, e) == TempBack(s, refs, e)
  {
    var u := At(e, UTEMP);
    var x := EntryAt(s, u);
    assert EntryAfterAt(s, Create(c), t, u);
    if x.bits.p {
      forall a {:trigger SameUseAt(s, t, x.page, a)} | true
        ensures SameUseAt(s, t, x.page, a)
      {
        assert EntryAfterAt(s, Create(c), t, a);
      }
      RefsSame(s, refs, t, refs2, u, x.page);
    }
  }

  lemma CreateView(s: State, t: State, c: int)
    requires Step(s, Create(c), t)
    ensures View(t) == View(s)
  {
    forall a {:trigger AgreesAt(s, Create(c), t, a)} | true
      ensures AgreesAt(s, Create(c), t, a)
    {
      OtherSimulates(s, Create(c), t, a);
    }
    Agreement(s, Create(c), t);
  }

  /** The copies of the pages of the program and of the stack. */
  method DumbCopy(k: Kernel, childid: int, end: int, sp: int, ghost v: Eager, ghost c: int,
                  ghost free: int, ghost temp: int, ghost back: int) returns (ok: bool)
    requires k.Boundary() && UTEXT <= end <= NPAGE && 0 <= sp < NPAGE && sp != UTEMP && HasPage(v, k.cur, sp)
    requires HasAll(v, k.cur, end)
    requires c == Envid2Env(k.slots, k.cur, childid, true) && c != -1 && c != k.cur
    requires Started(k, v, c, temp, back) && free == |k.free|
    modifies k`ppRef, k`link, k`head, k`frames, k`free, k`held, k`refs
    ensures k.Boundary()
    ensures ok ==> Shows(Now(k), CopiedView(DumbView(v, k.cur, c, end), k.cur, c, sp))
    ensures !ok ==> OnlyChild(v, Now(k), k.cur, c)
    ensures ok <==> CanDumb(free, temp, back, end, sp)
  {
    DumbedShows(Now(k), v, k.cur, c, UTEXT);
    ok := DumbLoop(k, childid, end, sp, v, k.cur, c, free, temp, back);
    if ok {
      DumbedShows(Now(k), v, k.cur, c, end);
      DumbPaidLast(Now(k), |k.free|, free, temp, back, k.cur, c, end, sp);
      assert NoCellAt(v, c, sp) && DumbedAt(Now(k), v, k.cur, c, end, At(c, sp));
      ok := DumbOne(k, childid, end, sp, v, c);
    }
  }

  /** The loop of dumbfork over the pages of the program. */
  method DumbLoop(k: Kernel, childid: int, end: int, ghost sp: int, ghost v: Eager, ghost e: int, ghost c: int,
                  ghost free: int, ghost temp: int, ghost back: int) returns (ok: bool)
    requires Copied(k, v, e, childid, c, free, temp, back, UTEXT)
    requires UTEXT <= end <= NPAGE && HasAll(v, e, end) && NoCells(v, c)
    modifies k`ppRef, k`link, k`head, k`frames, k`free, k`held, k`refs
    ensures if ok then Copied(k, v, e, childid, c, free, temp, back, end)
            else Stopped(k, v, e, c, free, temp, back, end, sp)
  {
    var n := UTEXT;
    while n < end
      invariant UTEXT <= n <= end && Copied(k, v, e, childid, c, free, temp, back, n)
    {
      ok, n := DumbTurn(k, childid, n, end, sp, v, e, c, free, temp, back);
      if !ok {
        return;
      }
    }
    return true;
  }

  /** Environment `e` is current and has copied and paid for its pages below `n`. */
  ghost predicate Dumbing(k: Kernel, v: Eager, e: int, childid: int, c: int, free: int, temp: int, back: int, n: int)
    reads k
  {
    && k.Boundary() && e == k.cur && c == Envid2Env(k.slots, k.cur, childid, true) && c != -1 && c != e
    && Dumbed(Now(k), v, e, c, n) && DumbPaid(Now(k), |k.free|, free, temp, back, e, c, n)
    && TempBack(Now(k), k.refs, e) == if n == UTEXT then back else 0
  }

  /** The copy failed for lack of memory, and only the child can see that. */
  ghost predicate Stopped(k: Kernel, v: Eager, e: int, c: int, free: int, temp: int, back: int, end: int, sp: int)
    reads k
  {
    k.Boundary() && e == k.cur && OnlyChild(v, Now(k), e, c) && !CanDumb(free, temp, back, end, sp)
  }

  ghost predicate Copied(k: Kernel, v: Eager, e: int, childid: int, c: int, free: int, temp: int, back: int, n: int)
    reads k
  {
    Dumbing(k, v, e, childid, c, free, temp, back, n)
  }

  /** One turn of the loop. */
  method DumbTurn(k: Kernel, childid: int, n: int, ghost end: int, ghost sp: int, ghost v: Eager, ghost e: int,
                  ghost c: int, ghost free: int, ghost temp: int, ghost back: int) returns (ok: bool, next: int)
    requires Copied(k, v, e, childid, c, free, temp, back, n)
    requires UTEXT <= n < end <= NPAGE && HasAll(v, e, end) && NoCells(v, c)
    modifies k`ppRef, k`link, k`head, k`frames, k`free, k`held, k`refs
    ensures next == n + 1
    ensures if ok then Copied(k, v, e, childid, c, free, temp, back, next)
            else Stopped(k, v, e, c, free, temp, back, end, sp)
  {
    assert HasPage(v, e, n) && NoCellAt(v, c, n) && DumbedAt(Now(k), v, e, c, n, At(c, n));
    DumbedShows(Now(k), v, e, c, n);
    ghost var s, left := Now(k), |k.free|;
    next := n + 1;
    ok := DumbOne(k, childid, n, n, v, c);
    if ok {
      DumbNext(Now(k), v, e, c, n, next);
      DumbPaidMore(s, Now(k), left, |k.free|, free, temp, back, e, c, n, next);
      assert DumbedAt(Now(k), v, e, c, next, At(e, UTEMP));
    } else {
      DumbPaidFails(s, left, free, temp, back, e, c, n, end, sp);
    }
  }

  lemma DumbNext(s: State, v: Eager, e: int, c: int, n: int, next: int)
    requires e != c && UTEXT <= n && next == n + 1 && Shows(s, CopiedView(DumbView(v, e, c, n), e, c, n))
    requires HasAll(v, e, next)
    ensures Dumbed(s, v, e, c, next)
  {
    var d := DumbView(v, e, c, n);
    forall a {:trigger DumbedAt(s, v, e, c, next, a)} | true
      ensures DumbedAt(s, v, e, c, next, a)
    {
      assert ShowsAt(s, CopiedView(d, e, c, n), a) && HasPage(v, e, n);
      DumbViewAt(v, e, c, n, a);
      DumbViewAt(v, e, c, n, At(e, n));
      DumbNextAt(s, v, d, e, c, n, a);
    }
  }

  lemma DumbNextAt(s: State, v: Eager, d: Eager, e: int, c: int, n: int, a: At)
    requires e != c && UTEXT <= n && HasPage(v, e, n) && ShowsAt(s, CopiedView(d, e, c, n), a)
    requires DumbAt(v, d, e, c, n, a) && DumbAt(v, d, e, c, n, At(e, n))
    ensures DumbedAt(s, v, e, c, n + 1, a)
  {
  }

  /** One call of duppage, with the pages below `n` copied. */
  method DumbOne(k: Kernel, childid: int, ghost n: int, m: int, ghost v: Eager, ghost c: int) returns (ok: bool)
    requires k.Boundary() && 0 <= m < NPAGE && m != UTEMP && HasPage(v, k.cur, m)
    requires HasAll(v, k.cur, n)
    requires c == Envid2Env(k.slots, k.cur, childid, true) && c != -1 && c != k.cur
    requires Shows(Now(k), DumbView(v, k.cur, c, n))
    modifies k`ppRef, k`link, k`head, k`frames, k`free, k`held, k`refs
    ensures k.Boundary()
    ensures ok ==> Shows(Now(k), CopiedView(DumbView(v, k.cur, c, n), k.cur, c, m))
    ensures !ok ==> OnlyChild(v, Now(k), k.cur, c)
    ensures ok <==> && |old(k.free)| >= old(Wanted(k.frames, k.dirs, c, m, 1))
                    && |old(k.free)| + old(GivenBack(k.frames, k.dirs, k.refs, c, m, -1)) >= old(CopyCost(k, c, m))
    ensures ok && !old(Look(k.frames, k.dirs, ByPte(c, m))).bits.p ==>
              CopyPaid(old(Now(k)), Now(k), |old(k.free)|, |k.free|, old(TempBack(Now(k), k.refs, k.cur)), k.cur, c, m)
  {
    DumbViewAt(v, k.cur, c, n, At(k.cur, m));
    ShowsView(Now(k), DumbView(v, k.cur, c, n));
    assert At(k.cur, m) in View(Now(k));
    ghost var w := View(Now(k));
    ok := EagerDupPage(k, childid, m);
    if !ok {
      DumbOthers(v, w, Now(k), k.cur, c, n);
    }
  }

  lemma DumbOthers(v: Eager, w: Eager, t: State, e: int, c: int, n: int)
    requires w == DumbView(v, e, c, n) && OnlyChild(w, t, e, c) && e != c
    requires HasAll(v, e, n)
    ensures OnlyChild(v, t, e, c)
  {
    forall a: At {:trigger ShowsAt(t, v, a)} | a.e != c && a != At(e, UTEMP)
      ensures ShowsAt(t, v, a)
    {
      DumbViewAt(v, e, c, n, a);
      assert ShowsAt(t, w, a);
    }
  }

  /** On the pages that dumbfork copies, and that the parent may write and does not share, fork
      shows the child the same; and both leave the other environments alone. */
  lemma ForkMatchesDumbfork(v: Eager, e: int, c: int, end: int, a: At)
    requires e != c && UTEXT <= end <= NPAGE - 2
    requires HasAll(v, e, end)
    requires forall m {:trigger HasPage(v, e, m)} :: HasPage(v, e, m) ==> v[At(e, m)].Private? && v[At(e, m)].w
    ensures (a.e == c && UTEXT <= a.n < end) || (a.e != c && a != At(e, UTEMP)) ==>
              SeesAt(ForkView(v, e, c, NPAGE - 2), DumbView(v, e, c, end), a)
  {
    DumbViewAt(v, e, c, end, a);
    assert a.e == c ==> (HasPage(v, e, a.n) <==> At(e, a.n) in v);
  }
}
