/** Two-level page tables held in physical page frames, as walked by `kern/pmap.c`, and the
    references to a frame that `pp_ref` counts.

    Virtual addresses below UTOP are given by their page number.  A frame holds either
    plain bytes or a table of 1024 entries; a zero-filled frame reads as a table of absent
    entries, which is how the kernel turns a fresh page into a page table.
 */
module PageTables {

  /** PDX(UTOP): the page directory entries that belong to the environment. */
  const NPDE: int := 955

  /** UTOP in pages. */
  const NPAGE: int := 955 * 1024

  function Pdx(n: int): int { n / 1024 }
  function Ptx(n: int): int { n % 1024 }

  /** The low twelve bits of an entry.  `other` stands for the six bits outside
      PTE_SYSCALL, which system calls may not set. */
  datatype Bits = Bits(p: bool, w: bool, u: bool, avail: bool, share: bool, cow: bool, other: int)

  const NO_BITS := Bits(false, false, false, false, false, false, 0)

  datatype Entry = Entry(page: int, bits: Bits)

  const ABSENT := Entry(0, NO_BITS)

  datatype Frame = Data(bytes: seq<int>) | Table(entries: seq<Entry>)

  function Entries(f: Frame): (es: seq<Entry>)
    ensures |es| == 1024
  {
    if f.Table? && |f.entries| == 1024 then f.entries else seq(1024, i => ABSENT)
  }

  /** A page filled with zero bytes. */
  function ZeroFrame(): Frame {
    Data(seq(4096, i => 0))
  }

  type Frames = seq<Frame>
  type Dirs = map<int, int>

  /** Entry `i` of the table in frame `p`. */
  function Read(frames: Frames, p: int, i: int): Entry {
    if 0 <= p < |frames| && 0 <= i < 1024 then Entries(frames[p])[i] else ABSENT
  }

  function Write(frames: Frames, p: int, i: int, x: Entry): Frames
    requires 0 <= p < |frames| && 0 <= i < 1024
  {
    frames[p := Table(Entries(frames[p])[i := x])]
  }

  /** The places that hold a counted reference to a frame: the page directory of an
      environment, a directory entry below UTOP, a page table entry below UTOP. */
  datatype Ref = ByEnv(e: int) | ByPde(e: int, d: int) | ByPte(e: int, n: int)

  function Norm(x: Entry): Entry {
    if x.bits.p then x else ABSENT
  }

  /** The present entry stored at a reference place; absent where there is none. */
  function Look(frames: Frames, dirs: Dirs, r: Ref): (x: Entry) {
    if r.e !in dirs then ABSENT else
    match r
    case ByEnv(e) => Entry(dirs[e], NO_BITS.(p := true))
    case ByPde(e, d) => if 0 <= d < NPDE then Norm(Read(frames, dirs[e], d)) else ABSENT
    case ByPte(e, n) =>
      if 0 <= n < NPAGE then
        var pde := Read(frames, dirs[e], Pdx(n));
        if pde.bits.p then Norm(Read(frames, pde.page, Ptx(n))) else ABSENT
      else ABSENT
  }

  /** The frame that a place refers to, or -1. */
  function Target(frames: Frames, dirs: Dirs, r: Ref): int {
    var x := Look(frames, dirs, r);
    if x.bits.p then x.page else -1
  }

  /** A frame used as a page table or page directory has no second reference. */
  ghost predicate TypedAt(frames: Frames, dirs: Dirs, r: Ref, r2: Ref) {
    !r.ByPte? && Target(frames, dirs, r) == Target(frames, dirs, r2) && Target(frames, dirs, r) != -1 ==> r == r2
  }

  ghost predicate Typed(frames: Frames, dirs: Dirs) {
    forall r, r2 {:trigger TypedAt(frames, dirs, r, r2)} :: TypedAt(frames, dirs, r, r2)
  }

  ghost predicate InRangeAt(frames: Frames, dirs: Dirs, r: Ref) {
    Look(frames, dirs, r).bits.p ==> 0 <= Look(frames, dirs, r).page < |frames|
  }

  ghost predicate InRange(frames: Frames, dirs: Dirs) {
    forall r: Ref {:trigger InRangeAt(frames, dirs, r)} :: InRangeAt(frames, dirs, r)
  }

  /** Nothing refers to frame `p`. */
  ghost predicate Unused(frames: Frames, dirs: Dirs, p: int) {
    forall r: Ref {:trigger Target(frames, dirs, r)} :: Target(frames, dirs, r) != p
  }

  /** The two states store the same entry everywhere except at `r0`, which now holds `x`. */
  ghost predicate OnlyAt(frames: Frames, dirs: Dirs, frames2: Frames, dirs2: Dirs, r0: Ref, x: Entry) {
    forall r: Ref {:trigger Look(frames2, dirs2, r)} ::
      Look(frames2, dirs2, r) == if r == r0 then x else Look(frames, dirs, r)
  }

  lemma ReadWrite(frames: Frames, p: int, i: int, x: Entry, q: int, j: int)
    requires 0 <= p < |frames| && 0 <= i < 1024
    ensures Read(Write(frames, p, i, x), q, j) == if q == p && j == i then x else Read(frames, q, j)
  {
  }

  /** Storing a page table entry changes that entry and no other. */
  lemma WritePte(frames: Frames, dirs: Dirs, e: int, n: int, x: Entry)
    requires Typed(frames, dirs) && InRange(frames, dirs) && e in dirs && 0 <= n < NPAGE
    requires Target(frames, dirs, ByPde(e, Pdx(n))) != -1
    ensures var tp := Target(frames, dirs, ByPde(e, Pdx(n)));
            && 0 <= tp < |frames|
            && OnlyAt(frames, dirs, Write(frames, tp, Ptx(n), x), dirs, ByPte(e, n), Norm(x))
  {
    var tp := Target(frames, dirs, ByPde(e, Pdx(n)));
    assert InRangeAt(frames, dirs, ByPde(e, Pdx(n)));
    var frames2 := Write(frames, tp, Ptx(n), x);
    forall r: Ref {:trigger Look(frames2, dirs, r)} | true
      ensures Look(frames2, dirs, r) == if r == ByPte(e, n) then Norm(x) else Look(frames, dirs, r)
    {
      WritePteAt(frames, dirs, e, n, x, r);
    }
  }

  lemma WritePteAt(frames: Frames, dirs: Dirs, e: int, n: int, x: Entry, r: Ref)
    requires Typed(frames, dirs) && e in dirs && 0 <= n < NPAGE
    requires 0 <= Target(frames, dirs, ByPde(e, Pdx(n))) < |frames|
    ensures var tp := Target(frames, dirs, ByPde(e, Pdx(n)));
            Look(Write(frames, tp, Ptx(n), x), dirs, r) ==
            if r == ByPte(e, n) then Norm(x) else Look(frames, dirs, r)
  {
    var tp := Target(frames, dirs, ByPde(e, Pdx(n)));
    assert TypedAt(frames, dirs, ByPde(e, Pdx(n)), ByEnv(r.e));
    match r
    case ByEnv(_) =>
    case ByPde(e2, d) =>
      ReadWrite(frames, tp, Ptx(n), x, if e2 in dirs then dirs[e2] else 0, d);
    case ByPte(e2, n2) =>
      if e2 in dirs && 0 <= n2 < NPAGE {
        ReadWrite(frames, tp, Ptx(n), x, dirs[e2], Pdx(n2));
        var pde := Read(frames, dirs[e2], Pdx(n2));
        ReadWrite(frames, tp, Ptx(n), x, pde.page, Ptx(n2));
        assert TypedAt(frames, dirs, ByPde(e, Pdx(n)), ByPde(e2, Pdx(n2)));
      }
  }

  /** No entry of the table in frame `p` is present. */
  ghost predicate BlankAt(frames: Frames, p: int, i: int) {
    !Read(frames, p, i).bits.p
  }

  ghost predicate Blank(frames: Frames, p: int) {
    forall i {:trigger BlankAt(frames, p, i)} :: BlankAt(frames, p, i)
  }

  /** Storing a directory entry whose old and new tables are blank changes that entry and
      no other. */
  lemma WritePde(frames: Frames, dirs: Dirs, e: int, d: int, x: Entry)
    requires Typed(frames, dirs) && InRange(frames, dirs) && e in dirs && 0 <= d < NPDE
    requires Look(frames, dirs, ByPde(e, d)).bits.p ==> Blank(frames, Look(frames, dirs, ByPde(e, d)).page)
    requires x.bits.p ==> Blank(frames, x.page) && x.page != dirs[e]
    ensures 0 <= dirs[e] < |frames|
    ensures OnlyAt(frames, dirs, Write(frames, dirs[e], d, x), dirs, ByPde(e, d), Norm(x))
  {
    assert InRangeAt(frames, dirs, ByEnv(e)) && TypedAt(frames, dirs, ByEnv(e), ByPde(e, d));
    var frames2 := Write(frames, dirs[e], d, x);
    forall r: Ref {:trigger Look(frames2, dirs, r)} | true
      ensures Look(frames2, dirs, r) == if r == ByPde(e, d) then Norm(x) else Look(frames, dirs, r)
    {
      WritePdeAt(frames, dirs, e, d, x, r);
    }
  }

  lemma WritePdeAt(frames: Frames, dirs: Dirs, e: int, d: int, x: Entry, r: Ref)
    requires Typed(frames, dirs) && e in dirs && 0 <= d < NPDE && 0 <= dirs[e] < |frames|
    requires Look(frames, dirs, ByPde(e, d)).bits.p ==> Blank(frames, Look(frames, dirs, ByPde(e, d)).page)
    requires x.bits.p ==> Blank(frames, x.page) && x.page != dirs[e]
    ensures Look(Write(frames, dirs[e], d, x), dirs, r) ==
            if r == ByPde(e, d) then Norm(x) else Look(frames, dirs, r)
  {
    assert TypedAt(frames, dirs, ByEnv(e), ByEnv(r.e));
    match r
    case ByEnv(_) =>
    case ByPde(e2, d2) =>
      ReadWrite(frames, dirs[e], d, x, if e2 in dirs then dirs[e2] else 0, d2);
    case ByPte(e2, n) =>
      if e2 in dirs && 0 <= n < NPAGE {
        ReadWrite(frames, dirs[e], d, x, dirs[e2], Pdx(n));
        var pde := Read(frames, dirs[e2], Pdx(n));
        assert TypedAt(frames, dirs, ByEnv(e), ByPde(e2, Pdx(n)));
        ReadWrite(frames, dirs[e], d, x, pde.page, Ptx(n));
        ReadWrite(frames, dirs[e], d, x, x.page, Ptx(n));
        assert BlankAt(frames, pde.page, Ptx(n)) <==> !Read(frames, pde.page, Ptx(n)).bits.p;
        assert BlankAt(frames, x.page, Ptx(n)) <==> !Read(frames, x.page, Ptx(n)).bits.p;
      }
  }

  /** Frame `p` is neither a page table nor a page directory. */
  ghost predicate NoTable(frames: Frames, dirs: Dirs, p: int) {
    forall r: Ref {:trigger Target(frames, dirs, r)} :: !r.ByPte? ==> Target(frames, dirs, r) != p
  }

  ghost predicate SameLook(frames: Frames, dirs: Dirs, frames2: Frames, dirs2: Dirs) {
    forall r: Ref {:trigger Look(frames2, dirs2, r)} :: Look(frames2, dirs2, r) == Look(frames, dirs, r)
  }

  /** Changing a frame that is no table changes no mapping. */
  lemma WriteData(frames: Frames, dirs: Dirs, p: int, f: Frame)
    requires 0 <= p < |frames| && NoTable(frames, dirs, p)
    ensures SameLook(frames, dirs, frames[p := f], dirs)
  {
    var frames2 := frames[p := f];
    forall r: Ref {:trigger Look(frames2, dirs, r)} | true
      ensures Look(frames2, dirs, r) == Look(frames, dirs, r)
    {
      assert Target(frames, dirs, ByEnv(r.e)) != p;
      if r.ByPte? {
        assert Target(frames, dirs, ByPde(r.e, Pdx(r.n))) != p;
      }
    }
  }

  /** No entry below UTOP of the directory in frame `p` is present. */
  ghost predicate Bare(frames: Frames, p: int) {
    forall d {:trigger BlankAt(frames, p, d)} :: 0 <= d < NPDE ==> BlankAt(frames, p, d)
  }

  /** A fresh page directory with nothing below UTOP adds one reference, from its
      environment. */
  lemma AddDir(frames: Frames, dirs: Dirs, e: int, p: int)
    requires e !in dirs && Bare(frames, p)
    ensures OnlyAt(frames, dirs, frames, dirs[e := p], ByEnv(e), Entry(p, NO_BITS.(p := true)))
  {
    forall r: Ref {:trigger Look(frames, dirs[e := p], r)} | true
      ensures Look(frames, dirs[e := p], r) ==
              if r == ByEnv(e) then Entry(p, NO_BITS.(p := true)) else Look(frames, dirs, r)
    {
      if r.ByPde? { assert BlankAt(frames, p, r.d) <==> !Read(frames, p, r.d).bits.p; }
      if r.ByPte? { assert BlankAt(frames, p, Pdx(r.n)) <==> !Read(frames, p, Pdx(r.n)).bits.p; }
    }
  }

  /** Dropping a page directory with nothing below UTOP removes one reference. */
  lemma DropDir(frames: Frames, dirs: Dirs, e: int)
    requires e in dirs
    requires forall d {:trigger Look(frames, dirs, ByPde(e, d))} :: Look(frames, dirs, ByPde(e, d)) == ABSENT
    ensures OnlyAt(frames, dirs, frames, dirs - {e}, ByEnv(e), ABSENT)
  {
    forall r: Ref {:trigger Look(frames, dirs - {e}, r)} | true
      ensures Look(frames, dirs - {e}, r) == if r == ByEnv(e) then ABSENT else Look(frames, dirs, r)
    {
      if r.ByPte? { assert Look(frames, dirs, ByPde(e, Pdx(r.n))) == ABSENT; }
    }
  }

  // ---------- Who refers to a frame ----------

  type Refs = seq<set<Ref>>

  /** `refs[p]` holds exactly the places that refer to frame `p`. */
  ghost predicate CountAt(frames: Frames, dirs: Dirs, refs: Refs, r: Ref, p: int) {
    0 <= p < |refs| ==> (r in refs[p] <==> Target(frames, dirs, r) == p)
  }

  ghost predicate Counted(frames: Frames, dirs: Dirs, refs: Refs) {
    && |refs| == |frames|
    && forall r, p {:trigger CountAt(frames, dirs, refs, r, p)} :: CountAt(frames, dirs, refs, r, p)
  }

  ghost predicate Mapped(frames: Frames, dirs: Dirs, refs: Refs) {
    Counted(frames, dirs, refs) && InRange(frames, dirs) && Typed(frames, dirs)
  }

  /** Place `r` stops referring to `a` and starts referring to `b`; -1 stands for no frame. */
  ghost function Retarget(refs: Refs, r: Ref, a: int, b: int): (refs2: Refs)
    requires -1 <= a < |refs| && -1 <= b < |refs|
    ensures |refs2| == |refs|
  {
    var refs1 := if a == -1 then refs else refs[a := refs[a] - {r}];
    if b == -1 then refs1 else refs1[b := refs1[b] + {r}]
  }

  lemma RetargetMapped(frames: Frames, dirs: Dirs, frames2: Frames, dirs2: Dirs, refs: Refs, r0: Ref, x: Entry)
    requires Mapped(frames, dirs, refs) && |frames2| == |frames|
    requires OnlyAt(frames, dirs, frames2, dirs2, r0, x)
    requires x.bits.p ==> 0 <= x.page < |frames|
    requires x.bits.p && r0.ByPte? ==> NoTable(frames, dirs, x.page)
    requires x.bits.p && !r0.ByPte? ==> refs[x.page] == {}
    ensures var a, b := Target(frames, dirs, r0), if x.bits.p then x.page else -1;
            && -1 <= a < |refs|
            && Mapped(frames2, dirs2, Retarget(refs, r0, a, b))
  {
    assert InRangeAt(frames, dirs, r0);
    var a, b := Target(frames, dirs, r0), if x.bits.p then x.page else -1;
    var refs2 := Retarget(refs, r0, a, b);
    forall r, p {:trigger CountAt(frames2, dirs2, refs2, r, p)} | true
      ensures CountAt(frames2, dirs2, refs2, r, p)
    {
      assert CountAt(frames, dirs, refs, r, p);
      assert Target(frames2, dirs2, r) == if r == r0 then b else Target(frames, dirs, r);
    }
    forall r {:trigger InRangeAt(frames2, dirs2, r)} | true
      ensures InRangeAt(frames2, dirs2, r)
    {
      assert InRangeAt(frames, dirs, r);
    }
    forall r, r2 {:trigger TypedAt(frames2, dirs2, r, r2)} | true
      ensures TypedAt(frames2, dirs2, r, r2)
    {
      assert TypedAt(frames, dirs, r, r2) && CountAt(frames, dirs, refs, r, b) && CountAt(frames, dirs, refs, r2, b);
      assert Target(frames2, dirs2, r) == if r == r0 then b else Target(frames, dirs, r);
      assert Target(frames2, dirs2, r2) == if r2 == r0 then b else Target(frames, dirs, r2);
    }
  }

  lemma SameMapped(frames: Frames, dirs: Dirs, frames2: Frames, dirs2: Dirs, refs: Refs)
    requires Mapped(frames, dirs, refs) && |frames2| == |frames|
    requires SameLook(frames, dirs, frames2, dirs2)
    ensures Mapped(frames2, dirs2, refs)
  {
    forall r, p {:trigger CountAt(frames2, dirs2, refs, r, p)} | true
      ensures CountAt(frames2, dirs2, refs, r, p)
    {
      assert CountAt(frames, dirs, refs, r, p);
    }
    forall r {:trigger InRangeAt(frames2, dirs2, r)} | true
      ensures InRangeAt(frames2, dirs2, r)
    {
      assert InRangeAt(frames, dirs, r);
    }
    forall r, r2 {:trigger TypedAt(frames2, dirs2, r, r2)} | true
      ensures TypedAt(frames2, dirs2, r, r2)
    {
      assert TypedAt(frames, dirs, r, r2);
    }
  }

  /** All places that refer to frame `p`: environments whose page directory it is, directory
      entries whose page table it is, and page table entries that map it. */
  ghost function Places(frames: Frames, dirs: Dirs, p: int): set<Ref> {
    (set e | e in dirs.Keys && dirs[e] == p :: ByEnv(e))
    + (set e, d | e in dirs.Keys && 0 <= d < NPDE && Target(frames, dirs, ByPde(e, d)) == p :: ByPde(e, d))
    + (set e, n | e in dirs.Keys && 0 <= n < NPAGE && Target(frames, dirs, ByPte(e, n)) == p :: ByPte(e, n))
  }

  lemma RefsArePlaces(frames: Frames, dirs: Dirs, refs: Refs, p: int)
    requires Counted(frames, dirs, refs) && 0 <= p < |refs|
    ensures refs[p] == Places(frames, dirs, p)
  {
    forall r {:trigger r in refs[p]} {:trigger r in Places(frames, dirs, p)} | true
      ensures r in refs[p] <==> r in Places(frames, dirs, p)
    {
      assert CountAt(frames, dirs, refs, r, p);
    }
  }
}
