/** Copy-on-write fork (`lib/fork.c`) against eager copying (`user/dumbfork.c`).

    The eager machine gives every environment its own copy of every page that is not marked
    PTE_SHARE.  The copy-on-write machine is the page tables themselves: its steps are the
    changes that the library calls make to them.  Every run of the second looks exactly
    like the run of the first with the same steps.
 */
module Cow {
  import opened PageTables

  type Page = seq<int>

  /** A page of an environment. */
  datatype At = At(e: int, n: int)

  /** The bytes of a frame; a frame that holds no plain bytes reads as zeros. */
  function Bytes(f: Frame): (b: Page)
    ensures |b| == 4096
  {
    if f.Data? && |f.bytes| == 4096 then f.bytes else seq(4096, i => 0)
  }

  /** PFTEMP, where the fault handler maps the new page while it copies. */
  const PFTEMP: int := 0x7FF

  // ---------- The eager machine ----------

  /** What an environment has at a page: its own bytes, or a page shared by name. */
  datatype Cell = Private(w: bool, bytes: Page) | Shared(w: bool, id: int, bytes: Page)

  type Eager = imap<At, Cell>

  datatype Op =
    | Store(e: int, n: int, off: int, b: int)
    | Dup(parent: int, child: int, n: int)
    | Fault(e: int, n: int)
    | Alloc(e: int, n: int, bits: Bits, page: int)
    | Map(src: At, dst: At, bits: Bits)
    | Unmap(e: int, n: int)
    | Create(e: int)
    | Exit(e: int)

  function SetByte(p: Page, off: int, b: int): Page {
    if 0 <= off < |p| then p[off := b] else p
  }

  /** A page mapped a second time is shared with the first place, or a copy of it. */
  function MapCell(cell: Cell, bits: Bits): Cell {
    match cell
    case Shared(_, id, bytes) => Shared(bits.w, id, bytes)
    case Private(_, bytes) => Private(bits.w || bits.cow, bytes)
  }

  /** The place has a page after the step. */
  ghost predicate InAfter(s: Eager, op: Op, a: At) {
    match op
    case Dup(parent, child, n) => a in s || (a == At(child, n) && At(parent, n) in s)
    case Fault(e, n) => a in s && a != At(e, PFTEMP)
    case Alloc(e, n, bits, page) => a in s || a == At(e, n)
    case Map(src, dst, bits) => a in s || (a == dst && src in s)
    case Unmap(e, n) => a in s && a != At(e, n)
    case Exit(e) => a in s && a.e != e
    case _ => a in s
  }

  /** A store into a private page changes that page of that environment; a store into a
      shared page changes it for everyone who shares it. */
  ghost predicate Stored(s: Eager, op: Op, a: At)
    requires op.Store? && a in s
  {
    var b := At(op.e, op.n);
    b in s && 0 <= op.off < 4096 && (a == b || (s[b].Shared? && s[a].Shared? && s[a].id == s[b].id))
  }

  /** The page at the place after the step.  A fault leaves the environment a page of its own: a
      private page was that before, and one marked both shared and copy-on-write is shared no
      longer. */
  ghost function CellAfter(s: Eager, op: Op, a: At): Cell
    requires InAfter(s, op, a)
  {
    match op
    case Store(e, n, off, b) => if Stored(s, op, a) then s[a].(bytes := SetByte(s[At(e, n)].bytes, off, b)) else s[a]
    case Dup(parent, child, n) => if a == At(child, n) && At(parent, n) in s then s[At(parent, n)] else s[a]
    case Fault(e, n) => if a == At(e, n) then Private(true, s[a].bytes) else s[a]
    case Alloc(e, n, bits, page) =>
      var zero := seq(4096, i => 0);
      if a != At(e, n) then s[a]
      else if bits.share then Shared(bits.w, page, zero)
      else Private(bits.w || bits.cow, zero)
    case Map(src, dst, bits) => if a == dst && src in s then MapCell(s[src], bits) else s[a]
    case _ => s[a]
  }

  /** A step of the eager machine. */
  ghost function EagerStep(s: Eager, op: Op): Eager {
    imap a: At | InAfter(s, op, a) :: CellAfter(s, op, a)
  }

  // ---------- The copy-on-write machine ----------

  datatype State = State(frames: Frames, dirs: Dirs)

  ghost function EntryAt(s: State, a: At): Entry {
    Look(s.frames, s.dirs, ByPte(a.e, a.n))
  }

  ghost function PageBytes(s: State, p: int): Page {
    if 0 <= p < |s.frames| then Bytes(s.frames[p]) else seq(4096, i => 0)
  }

  ghost function CellOf(s: State, x: Entry): Cell {
    if x.bits.share then Shared(x.bits.w, x.page, PageBytes(s, x.page))
    else Private(x.bits.w || x.bits.cow, PageBytes(s, x.page))
  }

  /** What each environment sees: a writable page is one it may write at once or after a
      copy-on-write fault. */
  ghost function View(s: State): Eager {
    imap a: At | EntryAt(s, a).bits.p :: CellOf(s, EntryAt(s, a))
  }

  /** Two mappings of a page either both share it or are both read-only. */
  predicate Compatible(x: Bits, y: Bits) {
    (x.share <==> y.share) && (!x.share ==> !x.w && !y.w)
  }

  ghost predicate PairAt(s: State, a: At, b: At) {
    var x, y := EntryAt(s, a), EntryAt(s, b);
    a != b && x.bits.p && y.bits.p && x.page == y.page ==> Compatible(x.bits, y.bits)
  }

  /** A writable page that is not shared is mapped once. */
  ghost predicate Separated(s: State) {
    forall a, b {:trigger PairAt(s, a, b)} :: PairAt(s, a, b)
  }

  /** A place that maps the same page in `s` and in `t` shows the same contents. */
  ghost predicate KeepsAt(s: State, t: State, a: At) {
    var x, y := EntryAt(s, a), EntryAt(t, a);
    x.bits.p && y.bits.p && x.page == y.page ==> PageBytes(t, x.page) == PageBytes(s, x.page)
  }

  ghost predicate Keeps(s: State, t: State) {
    forall a {:trigger KeepsAt(s, t, a)} :: KeepsAt(s, t, a)
  }

  /** No environment maps page `p`. */
  ghost predicate FreshAt(s: State, p: int, a: At) {
    EntryAt(s, a).bits.p ==> EntryAt(s, a).page != p
  }

  ghost predicate Fresh(s: State, p: int) {
    forall a {:trigger FreshAt(s, p, a)} :: FreshAt(s, p, a)
  }

  const COW_BITS := NO_BITS.(p := true, u := true, cow := true)
  const READ_BITS := NO_BITS.(p := true, u := true)
  const WRITE_BITS := NO_BITS.(p := true, u := true, w := true)

  /** The entries that duppage leaves at the child and at the parent. */
  function ChildEntry(x: Entry): Entry {
    if x.bits.share then Entry(x.page, x.bits.(other := 0))
    else if x.bits.cow || x.bits.w then Entry(x.page, COW_BITS)
    else Entry(x.page, READ_BITS)
  }

  function ParentEntry(x: Entry): Entry {
    if !x.bits.share && (x.bits.cow || x.bits.w) then Entry(x.page, COW_BITS) else x
  }

  /** The entry at place `a` after `op`, where it does not depend on a page the step picks. */
  ghost function EntryAfter(s: State, op: Op, a: At): Entry {
    match op
    case Store(_, _, _, _) => EntryAt(s, a)
    case Dup(parent, child, n) =>
      if a == At(child, n) then ChildEntry(EntryAt(s, At(parent, n)))
      else if a == At(parent, n) then ParentEntry(EntryAt(s, At(parent, n)))
      else EntryAt(s, a)
    case Fault(e, n) => if a == At(e, PFTEMP) then ABSENT else EntryAt(s, a)
    case Alloc(e, n, bits, page) => if a == At(e, n) then Entry(page, bits) else EntryAt(s, a)
    case Map(src, dst, bits) => if a == dst then Entry(EntryAt(s, src).page, bits) else EntryAt(s, a)
    case Unmap(e, n) => if a == At(e, n) then ABSENT else EntryAt(s, a)
    case Create(_) => EntryAt(s, a)
    case Exit(e) => if a.e == e then ABSENT else EntryAt(s, a)
  }

  ghost predicate EntryAfterAt(s: State, op: Op, t: State, a: At) {
    EntryAt(t, a) == EntryAfter(s, op, a)
  }

  /** When the library may take the step at all. */
  ghost predicate Enabled(s: State, op: Op) {
    match op
    case Store(e, n, off, _) => EntryAt(s, At(e, n)).bits.p && EntryAt(s, At(e, n)).bits.w && 0 <= off < 4096
    case Dup(parent, child, n) => parent != child && EntryAt(s, At(parent, n)).bits.p
    case Fault(e, n) =>
      var x := EntryAt(s, At(e, n));
      x.bits.p && x.bits.cow && n != PFTEMP
    case Alloc(_, _, bits, page) => bits.p && Fresh(s, page)
    case Map(src, dst, bits) =>
      src != dst && EntryAt(s, src).bits.p && bits.p && Compatible(EntryAt(s, src).bits, bits)
    case Unmap(_, _) => true
    case Create(_) => true
    case Exit(_) => true
  }

  /** The step changes the mappings and the contents of mapped pages as `op` says. */
  ghost predicate Step(s: State, op: Op, t: State) {
    && Enabled(s, op)
    && match op
       case Fault(e, n) =>
         var x, y := EntryAt(s, At(e, n)), EntryAt(t, At(e, n));
         && (forall a {:trigger EntryAfterAt(s, op, t, a)} :: a != At(e, n) ==> EntryAfterAt(s, op, t, a))
         && y == Entry(y.page, WRITE_BITS) && Fresh(s, y.page)
         && PageBytes(t, y.page) == PageBytes(s, x.page) && Keeps(s, t)
       case Store(e, n, off, b) =>
         var p := EntryAt(s, At(e, n)).page;
         && (forall a {:trigger EntryAfterAt(s, op, t, a)} :: EntryAfterAt(s, op, t, a))
         && (forall q {:trigger PageBytes(t, q)} :: PageBytes(t, q) ==
               if q == p then SetByte(PageBytes(s, p), off, b) else PageBytes(s, q))
       case Alloc(_, _, _, page) =>
         && (forall a {:trigger EntryAfterAt(s, op, t, a)} :: EntryAfterAt(s, op, t, a))
         && PageBytes(t, page) == seq(4096, i => 0) && Keeps(s, t)
       case _ =>
         && (forall a {:trigger EntryAfterAt(s, op, t, a)} :: EntryAfterAt(s, op, t, a))
         && Keeps(s, t)
  }

  // ---------- Simulation, step by step ----------

  /** `t` shows at `a` what the eager machine has there after `op`. */
  ghost predicate AgreesAt(s: State, op: Op, t: State, a: At) {
    var y := EntryAt(t, a);
    && (y.bits.p <==> InAfter(View(s), op, a))
    && (y.bits.p ==> CellOf(t, y) == CellAfter(View(s), op, a))
  }

  /** Two views have the same at `a`. */
  ghost predicate SeesAt(v: Eager, w: Eager, a: At) {
    (a in v <==> a in w) && (a in v ==> v[a] == w[a])
  }

  lemma SameViews(v: Eager, w: Eager)
    requires forall a {:trigger SeesAt(v, w, a)} :: SeesAt(v, w, a)
    ensures v == w
  {
    forall a {:trigger a in v} {:trigger a in w} | true
      ensures (a in v <==> a in w) && (a in v ==> v[a] == w[a])
    {
      assert SeesAt(v, w, a);
    }
  }

  lemma Agreement(s: State, op: Op, t: State)
    requires forall a {:trigger AgreesAt(s, op, t, a)} :: AgreesAt(s, op, t, a)
    ensures View(t) == EagerStep(View(s), op)
  {
    var v, w := View(t), EagerStep(View(s), op);
    forall a {:trigger SeesAt(v, w, a)} | true
      ensures SeesAt(v, w, a)
    {
      assert AgreesAt(s, op, t, a);
    }
    SameViews(v, w);
  }

  lemma StoreSimulates(s: State, op: Op, t: State, a: At)
    requires Separated(s) && op.Store? && Step(s, op, t)
    ensures AgreesAt(s, op, t, a)
  {
    var b := At(op.e, op.n);
    var x, y := EntryAt(s, a), EntryAt(s, b);
    assert EntryAfterAt(s, op, t, a) && PairAt(s, a, b);
    if x.page == y.page {
      assert PageBytes(t, x.page) == SetByte(PageBytes(s, y.page), op.off, op.b);
    } else {
      assert PageBytes(t, x.page) == PageBytes(s, x.page);
    }
  }

  lemma DupSimulates(s: State, op: Op, t: State, a: At)
    requires op.Dup? && Step(s, op, t)
    ensures AgreesAt(s, op, t, a)
  {
    var p := At(op.parent, op.n);
    assert EntryAfterAt(s, op, t, a) && EntryAfterAt(s, op, t, p);
    assert KeepsAt(s, t, if a == At(op.child, op.n) then p else a);
  }

  lemma MapSimulates(s: State, op: Op, t: State, a: At)
    requires op.Map? && Step(s, op, t)
    ensures AgreesAt(s, op, t, a)
  {
    assert EntryAfterAt(s, op, t, a) && EntryAfterAt(s, op, t, op.src);
    assert KeepsAt(s, t, if a == op.dst then op.src else a);
  }

  lemma FaultSimulates(s: State, op: Op, t: State, a: At)
    requires op.Fault? && Step(s, op, t)
    ensures AgreesAt(s, op, t, a)
  {
    if a != At(op.e, op.n) {
      assert EntryAfterAt(s, op, t, a) && KeepsAt(s, t, a);
    }
  }

  lemma OtherSimulates(s: State, op: Op, t: State, a: At)
    requires (op.Alloc? || op.Unmap? || op.Create? || op.Exit?) && Step(s, op, t)
    ensures AgreesAt(s, op, t, a)
  {
    assert EntryAfterAt(s, op, t, a) && KeepsAt(s, t, a);
  }

  lemma PairPreserved(s: State, op: Op, t: State, a: At, b: At)
    requires Separated(s) && Step(s, op, t)
    ensures PairAt(t, a, b)
  {
    assert PairAt(s, a, b);
    match op
    case Fault(e, n) => FaultPair(s, op, t, a, b);
    case Dup(parent, child, n) => DupPair(s, op, t, a, b);
    case Map(src, dst, bits) =>
      assert EntryAfterAt(s, op, t, a) && EntryAfterAt(s, op, t, b);
      assert PairAt(s, src, a) && PairAt(s, src, b);
    case Alloc(_, _, _, page) =>
      assert EntryAfterAt(s, op, t, a) && EntryAfterAt(s, op, t, b);
      assert FreshAt(s, page, a) && FreshAt(s, page, b);
    case _ =>
      assert EntryAfterAt(s, op, t, a) && EntryAfterAt(s, op, t, b);
  }

  lemma FaultPair(s: State, op: Op, t: State, a: At, b: At)
    requires PairAt(s, a, b) && op.Fault? && Step(s, op, t)
    ensures PairAt(t, a, b)
  {
    var here := At(op.e, op.n);
    assert a != here ==> EntryAfterAt(s, op, t, a);
    assert b != here ==> EntryAfterAt(s, op, t, b);
    assert FreshAt(s, EntryAt(t, here).page, a) && FreshAt(s, EntryAt(t, here).page, b);
  }

  lemma DupPair(s: State, op: Op, t: State, a: At, b: At)
    requires Separated(s) && op.Dup? && Step(s, op, t)
    ensures PairAt(t, a, b)
  {
    var p := At(op.parent, op.n);
    assert EntryAfterAt(s, op, t, a) && EntryAfterAt(s, op, t, b);
    assert PairAt(s, a, b) && PairAt(s, p, a) && PairAt(s, p, b);
  }

  /** One step of the copy-on-write machine is the same step of the eager machine. */
  lemma StepSimulates(s: State, op: Op, t: State)
    requires Separated(s) && Step(s, op, t)
    ensures Separated(t)
    ensures View(t) == EagerStep(View(s), op)
  {
    forall a, b {:trigger PairAt(t, a, b)} | true
      ensures PairAt(t, a, b)
    {
      PairPreserved(s, op, t, a, b);
    }
    forall a {:trigger AgreesAt(s, op, t, a)} | true
      ensures AgreesAt(s, op, t, a)
    {
      match op
      case Store(_, _, _, _) => StoreSimulates(s, op, t, a);
      case Dup(_, _, _) => DupSimulates(s, op, t, a);
      case Fault(_, _) => FaultSimulates(s, op, t, a);
      case Map(_, _, _) => MapSimulates(s, op, t, a);
      case _ => OtherSimulates(s, op, t, a);
    }
    Agreement(s, op, t);
  }

  // ---------- Whole runs ----------

  ghost predicate StepAt(run: seq<State>, ops: seq<Op>, i: int) {
    0 <= i < |ops| && i + 1 < |run| ==> Step(run[i], ops[i], run[i + 1])
  }

  ghost predicate Run(run: seq<State>, ops: seq<Op>) {
    |run| == |ops| + 1 && forall i {:trigger StepAt(run, ops, i)} :: StepAt(run, ops, i)
  }

  ghost function EagerRun(s: Eager, ops: seq<Op>): Eager {
    if ops == [] then s else EagerStep(EagerRun(s, ops[..|ops| - 1]), ops[|ops| - 1])
  }

  /** For every run, each environment sees exactly what it would see with private copies. */
  lemma {:induction false} CowRefinesEager(run: seq<State>, ops: seq<Op>)
    requires Run(run, ops) && Separated(run[0])
    ensures Separated(run[|ops|])
    ensures View(run[|ops|]) == EagerRun(View(run[0]), ops)
  {
    if ops != [] {
      var m := |ops| - 1;
      var run1, ops1 := run[..m + 1], ops[..m];
      forall i {:trigger StepAt(run1, ops1, i)} | true
        ensures StepAt(run1, ops1, i)
      {
        assert StepAt(run, ops, i);
      }
      CowRefinesEager(run1, ops1);
      assert StepAt(run, ops, m);
      StepSimulates(run[m], ops[m], run[m + 1]);
    }
  }

  /** A store into a page that is not shared shows in no other environment, and nowhere else
      in its own. */
  lemma StoreStaysPrivate(s: State, op: Op, t: State, a: At)
    requires Separated(s) && op.Store? && Step(s, op, t)
    requires !EntryAt(s, At(op.e, op.n)).bits.share && a != At(op.e, op.n)
    ensures a in View(t) <==> a in View(s)
    ensures a in View(s) ==> View(t)[a] == View(s)[a]
  {
    StoreSimulates(s, op, t, a);
  }

  /** A store into a shared page shows wherever that page is mapped. */
  lemma StoreReachesSharers(s: State, op: Op, t: State, a: At)
    requires Separated(s) && op.Store? && Step(s, op, t)
    requires EntryAt(s, At(op.e, op.n)).bits.share
    requires EntryAt(s, a).bits.p && EntryAt(s, a).page == EntryAt(s, At(op.e, op.n)).page
    ensures a in View(t) && View(t)[a].Shared? && View(t)[a].bytes[op.off] == op.b
  {
    var b := At(op.e, op.n);
    assert EntryAfterAt(s, op, t, a) && PairAt(s, a, b);
    assert PageBytes(t, EntryAt(s, b).page) == SetByte(PageBytes(s, EntryAt(s, b).page), op.off, op.b);
  }

  /** A fault on a page that is not shared is not to be seen, except that PFTEMP is unmapped. */
  lemma FaultUnseen(s: State, e: int, n: int, t: State, a: At)
    requires Separated(s) && Step(s, Fault(e, n), t) && a != At(e, PFTEMP)
    requires a == At(e, n) ==> !EntryAt(s, a).bits.share
    ensures a in View(t) <==> a in View(s)
    ensures a in View(s) ==> View(t)[a] == View(s)[a]
  {
    FaultSimulates(s, Fault(e, n), t, a);
  }

  /** Place `dst` comes to map the page that `src` maps, and nothing else changes. */
  ghost predicate Maps(s: State, op: Op, t: State)
    requires op.Map?
  {
    && op.src != op.dst && EntryAt(s, op.src).bits.p && op.bits.p && Keeps(s, t)
    && (forall a {:trigger EntryAfterAt(s, op, t, a)} :: EntryAfterAt(s, op, t, a))
  }

  /** Mapping a page a second time keeps private writable pages apart exactly if both mappings
      share the page or neither can write it; exactly then it is a step of the machine. */
  lemma MapExact(s: State, op: Op, t: State)
    requires Separated(s) && op.Map? && Maps(s, op, t)
    ensures Separated(t) <==> Compatible(EntryAt(s, op.src).bits, op.bits)
    ensures Separated(t) <==> Step(s, op, t)
  {
    if Compatible(EntryAt(s, op.src).bits, op.bits) {
      StepSimulates(s, op, t);
    } else {
      assert EntryAfterAt(s, op, t, op.src) && EntryAfterAt(s, op, t, op.dst);
      assert !PairAt(t, op.src, op.dst);
    }
  }
}
