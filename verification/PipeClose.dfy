/** How the two ends of a pipe learn that the other is gone (`lib/pipe.c`, `lib/fd.c`,
    `lib/pageref.c`): by comparing the reference counts of two pages that other environments
    map and unmap one at a time.

    The steps are single system calls and single reads, on one CPU; a step of another
    environment needs a switch to it, and every switch counts in env_runs.
 */
module PipeClose {

  /** What the descriptor page of a slot is: none, or that of the reading or writing end. */
  datatype End = None | Reader | Writer

  /** A descriptor slot of some environment: its descriptor page and whether the page of the
      pipe is mapped behind it.  Environment `e` has the slots 32 * e to 32 * e + 31, one for
      each descriptor number. */
  datatype Slot = Slot(fd: End, data: bool)

  /** What dup still has to do once the target slot is closed. */
  datatype Then = Done | Dup(src: int)

  /** Where an environment is in close, dup, fork or _pipeisclosed.  An environment that was
      not created yet, or is destroyed, is unborn; while its parent fills it, or after the parent gave up, it is
      an embryo and cannot run. */
  datatype Pc =
    | Ready
    | Unborn
    | Embryo(parent: int)
    | UnmapFd(y: int, next: Then)
    | UnmapData(y: int, next: Then)
    | UnmapAgain(y: int, next: Then)
    | MapData(x: int, y: int)
    | MapFd(x: int, y: int)
    | ForkFd(child: int, i: int)
    | ForkData(child: int, i: int)
    | ReadRuns(x: int)
    | ReadFd(x: int, n: int)
    | ReadPipe(x: int, n: int, a: int)
    | Compare(x: int, n: int, a: int, b: int)

  datatype State = State(slots: seq<Slot>, pcs: seq<Pc>, runs: seq<int>, cur: int)

  // ---------- Reference counts ----------

  /** pageref of a descriptor page: how many slots map it. */
  function Fds(slots: seq<Slot>, e: End): (n: int)
    ensures n >= 0
  {
    if slots == [] then 0
    else Fds(slots[..|slots| - 1], e) + if slots[|slots| - 1].fd == e then 1 else 0
  }

  /** pageref of the page of the pipe. */
  function Datas(slots: seq<Slot>): (n: int)
    ensures n >= 0
  {
    if slots == [] then 0
    else Datas(slots[..|slots| - 1]) + if slots[|slots| - 1].data then 1 else 0
  }

  ghost predicate SlotAt(slots: seq<Slot>, x: int) {
    0 <= x < |slots| && slots[x].fd != None ==> slots[x].data
  }

  /** Wherever a descriptor is mapped, so is the pipe. */
  ghost predicate Covered(slots: seq<Slot>) {
    forall x {:trigger SlotAt(slots, x)} :: SlotAt(slots, x)
  }

  ghost predicate WholeAt(slots: seq<Slot>, x: int) {
    0 <= x < |slots| ==> (slots[x].data <==> slots[x].fd != None)
  }

  /** No slot is half open. */
  ghost predicate Whole(slots: seq<Slot>) {
    forall x {:trigger WholeAt(slots, x)} :: WholeAt(slots, x)
  }

  lemma {:induction false} PipeExact(slots: seq<Slot>)
    requires Whole(slots)
    ensures Datas(slots) == Fds(slots, Reader) + Fds(slots, Writer)
  {
    if slots != [] {
      var n := |slots| - 1;
      forall x {:trigger WholeAt(slots[..n], x)} | true
        ensures WholeAt(slots[..n], x)
      {
        assert WholeAt(slots, x);
      }
      PipeExact(slots[..n]);
      assert WholeAt(slots, n);
    }
  }

  /** How many slots have the descriptor without the pipe. */
  function Half(slots: seq<Slot>): (n: int)
    ensures n >= 0
  {
    if slots == [] then 0
    else
      var v := slots[|slots| - 1];
      Half(slots[..|slots| - 1]) + if v.fd != None && !v.data then 1 else 0
  }

  /** How many slots have the pipe without the descriptor. */
  function Left(slots: seq<Slot>): (n: int)
    ensures n >= 0
  {
    if slots == [] then 0
    else
      var v := slots[|slots| - 1];
      Left(slots[..|slots| - 1]) + if v.data && v.fd == None then 1 else 0
  }

  /** How the three reference counts are related, whatever is mapped. */
  lemma {:induction false} CountsRelate(slots: seq<Slot>)
    ensures Datas(slots) + Half(slots) == Fds(slots, Reader) + Fds(slots, Writer) + Left(slots)
  {
    if slots != [] {
      CountsRelate(slots[..|slots| - 1]);
    }
  }

  lemma {:induction false} NoneHalf(slots: seq<Slot>)
    ensures Half(slots) == 0 <==> Covered(slots)
  {
    if slots != [] {
      var n := |slots| - 1;
      NoneHalf(slots[..n]);
      if Covered(slots) {
        forall x {:trigger SlotAt(slots[..n], x)} | true
          ensures SlotAt(slots[..n], x)
        {
          assert SlotAt(slots, x);
        }
        assert SlotAt(slots, n);
      }
      if Half(slots) == 0 {
        forall x {:trigger SlotAt(slots, x)} | true
          ensures SlotAt(slots, x)
        {
          assert SlotAt(slots[..n], x);
        }
      }
    }
  }

  /** Where every mapped descriptor has its pipe, the page of the pipe has at least as many
      references as the two descriptor pages together. */
  lemma PipeCovers(slots: seq<Slot>)
    requires Covered(slots)
    ensures Datas(slots) >= Fds(slots, Reader) + Fds(slots, Writer)
  {
    NoneHalf(slots);
    CountsRelate(slots);
  }

  /** Changing one slot changes the counts by that slot. */
  lemma {:induction false} CountsUpdate(slots: seq<Slot>, x: int, v: Slot, e: End)
    requires 0 <= x < |slots|
    ensures Fds(slots[x := v], e) == Fds(slots, e) - (if slots[x].fd == e then 1 else 0) + (if v.fd == e then 1 else 0)
    ensures Datas(slots[x := v]) == Datas(slots) - (if slots[x].data then 1 else 0) + (if v.data then 1 else 0)
  {
    var n := |slots| - 1;
    if x == n {
      assert slots[x := v][..n] == slots[..n];
    } else {
      CountsUpdate(slots[..n], x, v, e);
      assert slots[x := v][..n] == slots[..n][x := v];
    }
  }

  lemma {:induction false} CountsEmpty(slots: seq<Slot>, e: End)
    requires e != None && forall x {:trigger slots[x]} :: 0 <= x < |slots| ==> slots[x] == Slot(None, false)
    ensures Fds(slots, e) == 0 && Datas(slots) == 0
  {
    if slots != [] {
      var n := |slots| - 1;
      forall x {:trigger slots[..n][x]} | 0 <= x < n
        ensures slots[..n][x] == Slot(None, false)
      {
        assert slots[..n][x] == slots[x];
      }
      CountsEmpty(slots[..n], e);
    }
  }

  /** No slot holds end `e`. */
  ghost predicate Gone(slots: seq<Slot>, e: End) {
    forall x {:trigger slots[x]} :: 0 <= x < |slots| ==> slots[x].fd != e
  }

  lemma {:induction false} CountGone(slots: seq<Slot>, e: End)
    ensures Fds(slots, e) == 0 <==> Gone(slots, e)
  {
    if slots != [] {
      var n := |slots| - 1;
      CountGone(slots[..n], e);
      if Gone(slots, e) {
        forall x {:trigger slots[..n][x]} | 0 <= x < n
          ensures slots[..n][x].fd != e
        {
          assert slots[..n][x] == slots[x];
        }
      }
      if Fds(slots, e) == 0 {
        forall x {:trigger slots[x]} | 0 <= x < |slots|
          ensures slots[x].fd != e
        {
          if x < n { assert slots[..n][x] == slots[x]; }
        }
      }
    }
  }

  // ---------- Steps ----------

  datatype Act =
    | Switch(f: int)
    | Close(x: int)
    | StartDup(x: int, y: int)
    | StartFork(child: int)
    | Check(x: int)
    | Kill(e: int)
    | Go
    | Fail

  predicate Mine(s: State, x: int) {
    0 <= x < |s.slots| && x / 32 == s.cur
  }

  function SetPc(s: State, pc: Pc): State {
    if 0 <= s.cur < |s.pcs| then s.(pcs := s.pcs[s.cur := pc]) else s
  }

  function SetSlot(s: State, x: int, v: Slot): State {
    if 0 <= x < |s.slots| then s.(slots := s.slots[x := v]) else s
  }

  function SlotOf(s: State, x: int): Slot {
    if 0 <= x < |s.slots| then s.slots[x] else Slot(None, false)
  }

  function RunsOf(s: State): int {
    if 0 <= s.cur < |s.runs| then s.runs[s.cur] else 0
  }

  function AfterClose(y: int, next: Then): Pc {
    match next
    case Done => Ready
    case Dup(x) => MapData(x, y)
  }

  /** One page of fork's loop: all descriptor pages come before all pages behind them, because
      fork goes up the addresses. */
  function ForkStep(s: State, pc: Pc): State
    requires pc.ForkFd? || pc.ForkData?
  {
    var x, y := 32 * s.cur + pc.i, 32 * pc.child + pc.i;
    if pc.ForkFd? then
      if pc.i == 32 then SetPc(s, ForkData(pc.child, 0))
      else SetPc(SetSlot(s, y, SlotOf(s, y).(fd := SlotOf(s, x).fd)), ForkFd(pc.child, pc.i + 1))
    else if pc.i < 32 then
      SetPc(SetSlot(s, y, SlotOf(s, y).(data := SlotOf(s, x).data)), ForkData(pc.child, pc.i + 1))
    else if 0 <= pc.child < |s.pcs| then SetPc(s.(pcs := s.pcs[pc.child := Ready]), Ready)
    else s
  }

  /** What the current environment does next. */
  function Advance(s: State, pc: Pc): State {
    match pc
    case Ready => s
    case Unborn => s
    case Embryo(_) => s
    // devpipe_close, then fd_close
    case UnmapFd(y, next) => SetPc(SetSlot(s, y, SlotOf(s, y).(fd := None)), UnmapData(y, next))
    case UnmapData(y, next) => SetPc(SetSlot(s, y, SlotOf(s, y).(data := false)), UnmapAgain(y, next))
    case UnmapAgain(y, next) => SetPc(SetSlot(s, y, SlotOf(s, y).(fd := None)), AfterClose(y, next))
    // dup
    case MapData(x, y) =>
      SetPc(if SlotOf(s, x).data then SetSlot(s, y, SlotOf(s, y).(data := true)) else s, MapFd(x, y))
    case MapFd(x, y) =>
      if SlotOf(s, x).fd == None then SetPc(s, UnmapFd(y, Done))
      else SetPc(SetSlot(s, y, SlotOf(s, y).(fd := SlotOf(s, x).fd)), Ready)
    // fork
    case ForkFd(_, _) => ForkStep(s, pc)
    case ForkData(_, _) => ForkStep(s, pc)
    // _pipeisclosed
    case ReadRuns(x) => SetPc(s, ReadFd(x, RunsOf(s)))
    case ReadFd(x, n) => SetPc(s, ReadPipe(x, n, Fds(s.slots, SlotOf(s, x).fd)))
    case ReadPipe(x, n, a) => SetPc(s, Compare(x, n, a, Datas(s.slots)))
    case Compare(x, n, a, b) => SetPc(s, if RunsOf(s) == n then Ready else ReadRuns(x))
  }

  /** The current environment gives an answer about slot `x`. */
  predicate Answers(s: State, x: int) {
    0 <= s.cur < |s.pcs| && s.pcs[s.cur].Compare? && s.pcs[s.cur].x == x && s.pcs[s.cur].n == RunsOf(s)
  }

  /** The answer is that the other end is closed. */
  predicate AnswersClosed(s: State, x: int) {
    Answers(s, x) && s.pcs[s.cur].a == s.pcs[s.cur].b
  }

  predicate CanRun(s: State, f: int) {
    0 <= f < |s.pcs| && !s.pcs[f].Unborn? && !s.pcs[f].Embryo?
  }

  ghost predicate BareAt(s: State, f: int, i: int) {
    0 <= i < 32 ==> SlotOf(s, 32 * f + i) == Slot(None, false)
  }

  /** The code at `pc` is copying pages to environment `c`. */
  predicate Copies(pc: Pc, c: int) { (pc.ForkFd? || pc.ForkData?) && pc.child == c }

  ghost predicate UnclaimedAt(s: State, c: int, g: int) { 0 <= g < |s.pcs| ==> !Copies(s.pcs[g], c) }

  /** No fork is filling environment `c`. */
  ghost predicate Unclaimed(s: State, c: int) {
    forall g {:trigger UnclaimedAt(s, c, g)} :: UnclaimedAt(s, c, g)
  }

  /** The slots when environment `e` has lost all its pages. */
  function Cleared(slots: seq<Slot>, e: int): (r: seq<Slot>)
    ensures |r| == |slots|
  {
    seq(|slots|, x requires 0 <= x < |slots| => if x / 32 == e then Slot(None, false) else slots[x])
  }

  /** Whether the current environment can be destroyed, wherever it is in the code, or can
      destroy another between two operations.  A child is its parent's to destroy, and not
      while the parent forks it. */
  ghost predicate CanKill(s: State, e: int) {
    && CanRun(s, s.cur) && 0 <= e < |s.pcs|
    && (e == s.cur || (s.pcs[s.cur].Ready? && Unclaimed(s, e)))
  }

  ghost function Do(s: State, act: Act): State {
    if !(0 <= s.cur < |s.pcs| == |s.runs|) then s
    else
      var pc := s.pcs[s.cur];
      match act
      case Switch(f) => if CanRun(s, f) then s.(cur := f, runs := s.runs[f := s.runs[f] + 1]) else s
      case Close(x) => if pc.Ready? && Mine(s, x) && s.slots[x].fd != None then SetPc(s, UnmapFd(x, Done)) else s
      case StartDup(x, y) =>
        if pc.Ready? && Mine(s, x) && Mine(s, y) && s.slots[x].fd != None
        then SetPc(s, if s.slots[y].fd != None then UnmapFd(y, Dup(x)) else MapData(x, y))
        else s
      case StartFork(c) =>
        if pc.Ready? && 0 <= c < |s.pcs| && s.pcs[c].Unborn? && (forall i {:trigger BareAt(s, c, i)} :: BareAt(s, c, i))
        then SetPc(s.(pcs := s.pcs[c := Embryo(s.cur)]), ForkFd(c, 0))
        else s
      case Check(x) => if pc.Ready? && Mine(s, x) && s.slots[x].fd != None then SetPc(s, ReadRuns(x)) else s
      case Kill(e) =>
        if CanKill(s, e) then s.(slots := Cleared(s.slots, e), pcs := s.pcs[e := Unborn]) else s
      case Go => Advance(s, pc)
      case Fail =>
        if pc.MapData? || pc.MapFd? then SetPc(s, UnmapFd(pc.y, Done))
        else if pc.ForkFd? || pc.ForkData? then SetPc(s, Ready)
        else s
  }

  // ---------- The invariant ----------

  ghost predicate Owns(s: State, f: int, x: int) {
    0 <= x < |s.slots| && x / 32 == f
  }

  /** The environment reads in state `n` runs, and nobody has run since. */
  predicate Undisturbed(s: State, f: int, n: int)
    requires 0 <= f < |s.runs|
  {
    s.cur == f && s.runs[f] == n
  }

  /** The child has the parent's descriptors below `i`, and the pipe below `j`. */
  ghost predicate CopyAt(s: State, f: int, c: int, i: int, j: int, k: int) {
    && (0 <= k < i ==> SlotOf(s, 32 * c + k).fd == SlotOf(s, 32 * f + k).fd)
    && (0 <= k < j ==> SlotOf(s, 32 * c + k).data == SlotOf(s, 32 * f + k).data)
  }

  ghost predicate Copying(s: State, f: int, c: int, i: int, j: int) {
    && 0 <= c < |s.pcs| && c != f && s.pcs[c] == Embryo(f)
    && (forall k {:trigger CopyAt(s, f, c, i, j, k)} :: CopyAt(s, f, c, i, j, k))
  }

  ghost predicate PcOk(s: State, f: int, pc: Pc)
    requires 0 <= f < |s.runs|
  {
    match pc
    case UnmapFd(y, next) => Owns(s, f, y) && (next.Dup? ==> Owns(s, f, next.src))
    case UnmapData(y, next) => Owns(s, f, y) && s.slots[y].fd == None && (next.Dup? ==> Owns(s, f, next.src))
    case UnmapAgain(y, next) => Owns(s, f, y) && s.slots[y] == Slot(None, false) && (next.Dup? ==> Owns(s, f, next.src))
    case MapData(x, y) => Owns(s, f, x) && Owns(s, f, y)
    case MapFd(x, y) => Owns(s, f, x) && Owns(s, f, y) && (s.slots[x].fd != None ==> s.slots[y].data)
    case ForkFd(c, i) => 0 <= i <= 32 && Copying(s, f, c, i, 0)
    case ForkData(c, i) => 0 <= i <= 32 && Copying(s, f, c, 32, i)
    case ReadRuns(x) => Owns(s, f, x) && s.slots[x].fd != None
    case ReadFd(x, n) => Owns(s, f, x) && s.slots[x].fd != None && n <= s.runs[f]
    case ReadPipe(x, n, a) =>
      && Owns(s, f, x) && s.slots[x].fd != None && n <= s.runs[f]
      && (Undisturbed(s, f, n) ==> a == Fds(s.slots, s.slots[x].fd))
    case Compare(x, n, a, b) =>
      && Owns(s, f, x) && s.slots[x].fd != None && n <= s.runs[f]
      && (Undisturbed(s, f, n) ==> a == Fds(s.slots, s.slots[x].fd) && b == Datas(s.slots))
    case _ => true
  }

  ghost predicate PcAt(s: State, f: int) {
    |s.pcs| == |s.runs| && 0 <= f < |s.pcs| ==> PcOk(s, f, s.pcs[f])
  }

  /** Outside embryos, wherever a descriptor is mapped, so is the pipe. */
  ghost predicate BornAt(s: State, x: int) {
    0 <= x < |s.slots| && x / 32 < |s.pcs| && !s.pcs[x / 32].Embryo? ==> SlotAt(s.slots, x)
  }

  ghost predicate Inv(s: State) {
    && |s.slots| == 32 * |s.pcs| && |s.pcs| == |s.runs|
    && (forall x {:trigger BornAt(s, x)} :: BornAt(s, x))
    && (forall f {:trigger PcAt(s, f)} :: PcAt(s, f))
  }

  ghost predicate SlotKept(s: State, s2: State, c: int, x: int) {
    0 <= x < |s.slots| == |s2.slots| && x / 32 != s.cur && x / 32 != c ==> s2.slots[x] == s.slots[x]
  }

  ghost predicate PcKept(s: State, s2: State, c: int, g: int) {
    0 <= g < |s.pcs| == |s2.pcs| && g != s.cur && g != c ==> s2.pcs[g] == s.pcs[g]
  }

  /** A step of the current environment touches its own slots, and those of one other that no
      fork of a third is filling. */
  ghost predicate Local(s: State, s2: State, c: int) {
    && |s2.slots| == |s.slots| && |s2.pcs| == |s.pcs| && s2.runs == s.runs && s2.cur == s.cur
    && 0 <= s.cur < |s.pcs| && 0 <= c < |s.pcs| && CanRun(s, s.cur)
    && (c == s.cur || s.pcs[c] == Embryo(s.cur) || s.pcs[c] == Unborn || Unclaimed(s, c))
    && (c == s.cur || s2.pcs[c] == Embryo(s.cur) || s2.pcs[c] == Ready || s2.pcs[c] == Unborn)
    && (forall x {:trigger SlotKept(s, s2, c, x)} :: SlotKept(s, s2, c, x))
    && (forall g {:trigger PcKept(s, s2, c, g)} :: PcKept(s, s2, c, g))
  }

  lemma OtherPc(s: State, s2: State, c: int, g: int)
    requires Inv(s) && Local(s, s2, c) && 0 <= g < |s.pcs| && g != s.cur
    ensures PcOk(s2, g, s2.pcs[g])
  {
    assert PcAt(s, g) && PcKept(s, s2, c, g);
    var pc := s.pcs[g];
    if g != c {
      forall x {:trigger SlotOf(s2, x)} | 0 <= x < |s.slots| && x / 32 == g
        ensures SlotOf(s2, x) == SlotOf(s, x)
      {
        assert SlotKept(s, s2, c, x);
      }
      if pc.ForkFd? {
        OtherFork(s, s2, c, g, pc.child, pc.i, 0);
      } else if pc.ForkData? {
        OtherFork(s, s2, c, g, pc.child, 32, pc.i);
      } else {
        OtherSlots(s, s2, c, g, pc);
      }
    }
  }

  lemma OtherSlots(s: State, s2: State, c: int, g: int, pc: Pc)
    requires Inv(s) && Local(s, s2, c) && 0 <= g < |s.pcs| && g != s.cur && g != c && pc == s.pcs[g] == s2.pcs[g]
    requires forall x {:trigger SlotOf(s2, x)} :: 0 <= x < |s.slots| && x / 32 == g ==> SlotOf(s2, x) == SlotOf(s, x)
    requires PcOk(s, g, pc) && !pc.ForkFd? && !pc.ForkData?
    ensures PcOk(s2, g, pc)
  {
    if pc.UnmapFd? || pc.UnmapData? || pc.UnmapAgain? || pc.MapData? || pc.MapFd? {
      assert SlotOf(s2, pc.y) == SlotOf(s, pc.y);
    }
    if pc.MapData? || pc.MapFd? || pc.ReadRuns? || pc.ReadFd? || pc.ReadPipe? || pc.Compare? {
      assert SlotOf(s2, pc.x) == SlotOf(s, pc.x);
    }
  }

  lemma OtherFork(s: State, s2: State, c: int, g: int, d: int, i: int, j: int)
    requires Inv(s) && Local(s, s2, c) && 0 <= g < |s.pcs| && g != s.cur && g != c
    requires Copying(s, g, d, i, j) && Copies(s.pcs[g], d) && 0 <= i <= 32 && 0 <= j <= 32
    ensures Copying(s2, g, d, i, j)
  {
    assert PcKept(s, s2, c, d);
    assert Unclaimed(s, c) ==> UnclaimedAt(s, c, g);
    forall k {:trigger CopyAt(s2, g, d, i, j, k)} | true
      ensures CopyAt(s2, g, d, i, j, k)
    {
      assert CopyAt(s, g, d, i, j, k) && SlotKept(s, s2, c, 32 * d + k) && SlotKept(s, s2, c, 32 * g + k);
    }
  }

  lemma LocalKeeps(s: State, s2: State, c: int)
    requires Inv(s) && Local(s, s2, c) && PcOk(s2, s.cur, s2.pcs[s.cur])
    requires forall x {:trigger BornAt(s2, x)} :: x / 32 == s.cur || x / 32 == c ==> BornAt(s2, x)
    ensures Inv(s2)
  {
    forall g {:trigger PcAt(s2, g)} | true
      ensures PcAt(s2, g)
    {
      if 0 <= g < |s.pcs| && g != s.cur { OtherPc(s, s2, c, g); }
    }
    forall x {:trigger BornAt(s2, x)} | true
      ensures BornAt(s2, x)
    {
      assert BornAt(s, x) && SlotKept(s, s2, c, x) && PcKept(s, s2, c, x / 32);
    }
  }

  /** A step that changes one slot of the current environment and its place in the code. */
  lemma OwnStep(s: State, s2: State, x: int, v: Slot, pc: Pc)
    requires Inv(s) && CanRun(s, s.cur) && Owns(s, s.cur, x) && !pc.Embryo?
    requires s2 == SetPc(SetSlot(s, x, v), pc) || s2 == SetPc(s, pc)
    requires PcOk(s2, s.cur, pc) && SlotAt(s2.slots, x)
    ensures Inv(s2)
  {
    forall y {:trigger BornAt(s2, y)} | y / 32 == s.cur
      ensures BornAt(s2, y)
    {
      assert BornAt(s, y);
    }
    LocalKeeps(s, s2, s.cur);
  }

  lemma SwitchKeeps(s: State, f: int)
    requires Inv(s) && CanRun(s, f)
    ensures Inv(s.(cur := f, runs := s.runs[f := s.runs[f] + 1]))
  {
    var s2 := s.(cur := f, runs := s.runs[f := s.runs[f] + 1]);
    forall g {:trigger PcAt(s2, g)} | true
      ensures PcAt(s2, g)
    {
      assert PcAt(s, g);
      if 0 <= g < |s.pcs| { SamePcs(s, s2, g, s.pcs[g]); }
    }
    forall x {:trigger BornAt(s2, x)} | true
      ensures BornAt(s2, x)
    {
      assert BornAt(s, x);
    }
  }

  lemma SamePcs(s: State, s2: State, g: int, pc: Pc)
    requires s2.slots == s.slots && s2.pcs == s.pcs && 0 <= g < |s.runs| == |s2.runs| && PcOk(s, g, pc)
    requires s2.runs[g] >= s.runs[g] && (s2.cur == g ==> s2.runs[g] > s.runs[g])
    ensures PcOk(s2, g, pc)
  {
    if pc.ForkFd? { SameCopying(s, s2, g, pc.child, pc.i, 0); }
    if pc.ForkData? { SameCopying(s, s2, g, pc.child, 32, pc.i); }
  }

  lemma SameCopying(s: State, s2: State, f: int, c: int, i: int, j: int)
    requires s2.slots == s.slots && s2.pcs == s.pcs && Copying(s, f, c, i, j)
    ensures Copying(s2, f, c, i, j)
  {
    forall k {:trigger CopyAt(s2, f, c, i, j, k)} | true
      ensures CopyAt(s2, f, c, i, j, k)
    {
      assert CopyAt(s, f, c, i, j, k);
    }
  }

  lemma CloseKeeps(s: State)
    requires Inv(s) && 0 <= s.cur < |s.pcs|
    requires s.pcs[s.cur].UnmapFd? || s.pcs[s.cur].UnmapData? || s.pcs[s.cur].UnmapAgain?
    ensures Inv(Advance(s, s.pcs[s.cur]))
  {
    var pc := s.pcs[s.cur];
    var s2 := Advance(s, pc);
    assert PcAt(s, s.cur);
    OwnStep(s, s2, pc.y, SlotOf(s2, pc.y), s2.pcs[s.cur]);
  }

  lemma DupKeeps(s: State)
    requires Inv(s) && 0 <= s.cur < |s.pcs| && (s.pcs[s.cur].MapData? || s.pcs[s.cur].MapFd?)
    ensures Inv(Advance(s, s.pcs[s.cur]))
  {
    var pc := s.pcs[s.cur];
    var s2 := Advance(s, pc);
    assert PcAt(s, s.cur) && BornAt(s, pc.x) && BornAt(s, pc.y);
    OwnStep(s, s2, pc.y, SlotOf(s2, pc.y), s2.pcs[s.cur]);
  }

  lemma CheckKeeps(s: State)
    requires Inv(s) && 0 <= s.cur < |s.pcs|
    requires s.pcs[s.cur].ReadRuns? || s.pcs[s.cur].ReadFd? || s.pcs[s.cur].ReadPipe? || s.pcs[s.cur].Compare?
    ensures Inv(Advance(s, s.pcs[s.cur]))
  {
    var pc := s.pcs[s.cur];
    var s2 := Advance(s, pc);
    assert PcAt(s, s.cur) && BornAt(s, pc.x);
    OwnStep(s, s2, pc.x, SlotOf(s2, pc.x), s2.pcs[s.cur]);
  }

  /** One page more is copied to the child. */
  lemma CopyMore(s: State, s2: State, f: int, c: int, i: int, j: int, i2: int, j2: int)
    requires Copying(s, f, c, i, j) && |s.slots| == 32 * |s.pcs|
    requires 0 <= f < |s.pcs| == |s2.pcs| && s2.pcs == s.pcs[f := s2.pcs[f]]
    requires (i2 == i + 1 && j2 == j) || (i2 == i && j2 == j + 1)
    requires var k := if i2 == i then j else i;
             0 <= k < 32 && s2.slots == s.slots[32 * c + k :=
               if i2 == i then s.slots[32 * c + k].(data := s.slots[32 * f + k].data)
               else s.slots[32 * c + k].(fd := s.slots[32 * f + k].fd)]
    ensures Copying(s2, f, c, i2, j2)
  {
    forall k {:trigger CopyAt(s2, f, c, i2, j2, k)} | true
      ensures CopyAt(s2, f, c, i2, j2, k)
    {
      assert CopyAt(s, f, c, i, j, k);
    }
  }

  /** fork's next page, or its end. */
  lemma ForkKeeps(s: State)
    requires Inv(s) && 0 <= s.cur < |s.pcs| && (s.pcs[s.cur].ForkFd? || s.pcs[s.cur].ForkData?)
    ensures Inv(Advance(s, s.pcs[s.cur]))
  {
    var pc := s.pcs[s.cur];
    assert PcAt(s, s.cur);
    if pc.i < 32 {
      ForkCopies(s);
    } else if pc.ForkFd? {
      ForkTurns(s);
    } else {
      BirthKeeps(s, Advance(s, pc), pc.child);
    }
  }

  /** One more descriptor or pipe page is copied. */
  lemma ForkCopies(s: State)
    requires Inv(s) && 0 <= s.cur < |s.pcs| && (s.pcs[s.cur].ForkFd? || s.pcs[s.cur].ForkData?) && s.pcs[s.cur].i < 32
    ensures Inv(Advance(s, s.pcs[s.cur]))
  {
    var pc := s.pcs[s.cur];
    var s2, c, i := Advance(s, pc), pc.child, pc.i;
    assert PcAt(s, s.cur);
    if pc.ForkFd? {
      CopyMore(s, s2, s.cur, c, i, 0, i + 1, 0);
    } else {
      CopyMore(s, s2, s.cur, c, 32, i, 32, i + 1);
    }
    ForkLocal(s, s2, c, 32 * c + i);
  }

  /** All descriptors are copied, and the pages behind them are next. */
  lemma ForkTurns(s: State)
    requires Inv(s) && 0 <= s.cur < |s.pcs| && s.pcs[s.cur].ForkFd? && s.pcs[s.cur].i == 32
    ensures Inv(Advance(s, s.pcs[s.cur]))
  {
    var pc := s.pcs[s.cur];
    var s2, c := Advance(s, pc), pc.child;
    assert PcAt(s, s.cur);
    forall k {:trigger CopyAt(s2, s.cur, c, 32, 0, k)} | true
      ensures CopyAt(s2, s.cur, c, 32, 0, k)
    {
      assert CopyAt(s, s.cur, c, 32, 0, k);
    }
    ForkLocal(s, s2, c, 32 * c);
  }

  lemma ForkLocal(s: State, s2: State, c: int, y: int)
    requires Inv(s) && CanRun(s, s.cur) && 0 <= c < |s.pcs| && c != s.cur && s.pcs[c] == Embryo(s.cur)
    requires Owns(s, c, y) && |s2.slots| == |s.slots| && s2.slots == s.slots[y := s2.slots[y]]
    requires |s2.pcs| == |s.pcs| && s2.pcs == s.pcs[s.cur := s2.pcs[s.cur]] && s2.runs == s.runs && s2.cur == s.cur
    requires PcOk(s2, s.cur, s2.pcs[s.cur])
    ensures Inv(s2)
  {
    forall x {:trigger BornAt(s2, x)} | x / 32 == s.cur || x / 32 == c
      ensures BornAt(s2, x)
    {
      assert BornAt(s, x);
    }
    LocalKeeps(s, s2, c);
  }

  /** When fork is done the child is in order like its parent. */
  lemma BirthKeeps(s: State, s2: State, c: int)
    requires Inv(s) && CanRun(s, s.cur) && Copying(s, s.cur, c, 32, 32)
    requires s2 == s.(pcs := s.pcs[c := Ready][s.cur := Ready])
    ensures Inv(s2)
  {
    forall x {:trigger BornAt(s2, x)} | x / 32 == s.cur || x / 32 == c
      ensures BornAt(s2, x)
    {
      assert BornAt(s, x);
      if x / 32 == c && 0 <= x < |s.slots| {
        var k := x % 32;
        assert x == 32 * c + k;
        assert CopyAt(s, s.cur, c, 32, 32, k) && BornAt(s, 32 * s.cur + k);
      }
    }
    LocalKeeps(s, s2, c);
  }

  lemma StartForkKeeps(s: State, c: int)
    requires Inv(s) && CanRun(s, s.cur) && 0 <= c < |s.pcs| && s.pcs[c].Unborn?
    ensures Inv(SetPc(s.(pcs := s.pcs[c := Embryo(s.cur)]), ForkFd(c, 0)))
  {
    var s2 := SetPc(s.(pcs := s.pcs[c := Embryo(s.cur)]), ForkFd(c, 0));
    forall x {:trigger BornAt(s2, x)} | x / 32 == s.cur || x / 32 == c
      ensures BornAt(s2, x)
    {
      assert BornAt(s, x);
    }
    LocalKeeps(s, s2, c);
  }

  lemma KillKeeps(s: State, e: int)
    requires Inv(s) && CanKill(s, e)
    ensures Inv(Do(s, Kill(e)))
  {
    var s2 := Do(s, Kill(e));
    forall x {:trigger BornAt(s2, x)} | x / 32 == s.cur || x / 32 == e
      ensures BornAt(s2, x)
    {
      assert BornAt(s, x);
    }
    LocalKeeps(s, s2, e);
  }

  lemma AdvanceKeeps(s: State)
    requires Inv(s) && 0 <= s.cur < |s.pcs|
    ensures Inv(Advance(s, s.pcs[s.cur]))
  {
    var pc := s.pcs[s.cur];
    if pc.UnmapFd? || pc.UnmapData? || pc.UnmapAgain? {
      CloseKeeps(s);
    } else if pc.MapData? || pc.MapFd? {
      DupKeeps(s);
    } else if pc.ForkFd? || pc.ForkData? {
      ForkKeeps(s);
    } else if pc.ReadRuns? || pc.ReadFd? || pc.ReadPipe? || pc.Compare? {
      CheckKeeps(s);
    }
  }

  /** A step that only moves the current environment on, with slot `x` of its own. */
  lemma MoveKeeps(s: State, x: int, pc: Pc)
    requires Inv(s) && CanRun(s, s.cur) && Owns(s, s.cur, x) && !pc.Embryo? && PcOk(SetPc(s, pc), s.cur, pc)
    ensures Inv(SetPc(s, pc))
  {
    assert BornAt(s, x);
    OwnStep(s, SetPc(s, pc), x, SlotOf(s, x), pc);
  }

  /** Every step of close, dup, fork, the check and env_destroy keeps the invariant. */
  lemma StepKeeps(s: State, act: Act)
    requires Inv(s)
    ensures Inv(Do(s, act))
  {
    if 0 <= s.cur < |s.pcs| && Do(s, act) != s {
      var pc := s.pcs[s.cur];
      assert PcAt(s, s.cur);
      match act
      case Switch(f) => SwitchKeeps(s, f);
      case Go => AdvanceKeeps(s);
      case StartFork(c) => StartForkKeeps(s, c);
      case Kill(e) => KillKeeps(s, e);
      case Close(x) => MoveKeeps(s, x, UnmapFd(x, Done));
      case StartDup(x, y) => MoveKeeps(s, y, if s.slots[y].fd != None then UnmapFd(y, Dup(x)) else MapData(x, y));
      case Check(x) => MoveKeeps(s, x, ReadRuns(x));
      case Fail =>
        if pc.MapData? || pc.MapFd? {
          MoveKeeps(s, pc.y, UnmapFd(pc.y, Done));
        } else {
          MoveKeeps(s, 32 * s.cur, Ready);
        }
    }
  }

  // ---------- Runs ----------

  ghost function Run(s: State, acts: seq<Act>): State {
    if acts == [] then s else Do(Run(s, acts[..|acts| - 1]), acts[|acts| - 1])
  }

  /** A pipe on which no operation is in progress, as pipe() leaves it. */
  ghost predicate Quiet(s: State) {
    && |s.slots| == 32 * |s.pcs| && |s.pcs| == |s.runs| && Whole(s.slots)
    && (forall f {:trigger s.pcs[f]} :: 0 <= f < |s.pcs| ==> s.pcs[f] == Ready || s.pcs[f] == Unborn)
  }

  lemma QuietInv(s: State)
    requires Quiet(s)
    ensures Inv(s)
  {
    forall x {:trigger BornAt(s, x)} | true
      ensures BornAt(s, x)
    {
      assert WholeAt(s.slots, x);
    }
    forall f {:trigger PcAt(s, f)} | true
      ensures PcAt(s, f)
    {
    }
  }

  lemma {:induction false} RunInv(s: State, acts: seq<Act>)
    requires Quiet(s)
    ensures Inv(Run(s, acts))
  {
    if acts == [] {
      QuietInv(s);
    } else {
      RunInv(s, acts[..|acts| - 1]);
      StepKeeps(Run(s, acts[..|acts| - 1]), acts[|acts| - 1]);
    }
  }

  function Other(e: End): End {
    match e
    case Reader => Writer
    case Writer => Reader
    case None => None
  }

  /** No fork is under way, and none was given up. */
  ghost predicate NoEmbryo(s: State) {
    forall f {:trigger s.pcs[f]} :: 0 <= f < |s.pcs| ==> !s.pcs[f].Embryo?
  }

  lemma NoEmbryoCovered(s: State)
    requires Inv(s) && NoEmbryo(s)
    ensures Covered(s.slots) && Half(s.slots) == 0
  {
    forall x {:trigger SlotAt(s.slots, x)} | true
      ensures SlotAt(s.slots, x)
    {
      assert BornAt(s, x);
      if 0 <= x < |s.slots| { assert !s.pcs[x / 32].Embryo?; }
    }
    NoneHalf(s.slots);
  }

  /** When the check says "closed", in every interleaving of dup, close, fork, env_destroy and
      _pipeisclosed by any number of environments on one CPU: exactly when the descriptors of
      the other end and the slots with only the pipe are as many as the slots with only the
      descriptor. */
  lemma AnswerExact(s: State, acts: seq<Act>, x: int)
    requires Quiet(s) && Answers(Run(s, acts), x)
    ensures var t := Run(s, acts);
            && 0 <= x < |t.slots| && t.slots[x].fd != None
            && (AnswersClosed(t, x) <==> Fds(t.slots, Other(t.slots[x].fd)) + Left(t.slots) == Half(t.slots))
  {
    RunInv(s, acts);
    var t := Run(s, acts);
    assert PcAt(t, t.cur);
    CountsRelate(t.slots);
  }

  /** The answer "closed" is wrong exactly when the other end is still there and its
      descriptors are made up for by slots that a fork has half filled. */
  lemma WrongExact(s: State, acts: seq<Act>, x: int)
    requires Quiet(s) && Answers(Run(s, acts), x)
    ensures var t := Run(s, acts);
            && 0 <= x < |t.slots|
            && var other := Other(t.slots[x].fd);
               AnswersClosed(t, x) && !Gone(t.slots, other)
               <==> Fds(t.slots, other) > 0 && Fds(t.slots, other) == Half(t.slots) - Left(t.slots)
  {
    AnswerExact(s, acts, x);
    var t := Run(s, acts);
    CountGone(t.slots, Other(t.slots[x].fd));
  }

  /** Without a fork under way or given up, "closed" is answered exactly when no descriptor of
      the other end is left and no slot is in the middle of a dup or close. */
  lemma ClosedIsTrue(s: State, acts: seq<Act>, x: int)
    requires Quiet(s) && Answers(Run(s, acts), x) && NoEmbryo(Run(s, acts))
    ensures var t := Run(s, acts);
            && 0 <= x < |t.slots|
            && (AnswersClosed(t, x) <==> Gone(t.slots, Other(t.slots[x].fd)) && Left(t.slots) == 0)
  {
    RunInv(s, acts);
    AnswerExact(s, acts, x);
    var t := Run(s, acts);
    NoEmbryoCovered(t);
    CountGone(t.slots, Other(t.slots[x].fd));
  }

  ghost predicate ForkAt(acts: seq<Act>, k: int) { 0 <= k < |acts| && acts[k].StartFork? }

  /** Runs without fork have no embryos. */
  lemma {:induction false} NoForkNoEmbryo(s: State, acts: seq<Act>)
    requires Quiet(s) && forall k {:trigger ForkAt(acts, k)} :: !ForkAt(acts, k)
    ensures NoEmbryo(Run(s, acts))
  {
    if acts != [] {
      var n := |acts| - 1;
      forall k {:trigger ForkAt(acts[..n], k)} | true
        ensures !ForkAt(acts[..n], k)
      {
        assert !ForkAt(acts, k);
      }
      NoForkNoEmbryo(s, acts[..n]);
      assert !ForkAt(acts, n);
      NoForkStep(Run(s, acts[..n]), acts[n]);
    }
  }

  lemma NoForkStep(s: State, act: Act)
    requires NoEmbryo(s) && !act.StartFork?
    ensures NoEmbryo(Do(s, act))
  {
    var t := Do(s, act);
    if 0 <= s.cur < |s.pcs| == |s.runs| && act == Go { AdvancePcs(s, s.pcs[s.cur]); }
    forall f {:trigger t.pcs[f]} | 0 <= f < |t.pcs|
      ensures !t.pcs[f].Embryo?
    {
      assert f < |s.pcs| ==> !s.pcs[f].Embryo?;
    }
  }

  lemma AdvancePcs(s: State, pc: Pc)
    requires NoEmbryo(s)
    ensures NoEmbryo(Advance(s, pc))
  {
    var t := Advance(s, pc);
    forall f {:trigger t.pcs[f]} | 0 <= f < |t.pcs|
      ensures !t.pcs[f].Embryo?
    {
      assert f < |s.pcs| ==> !s.pcs[f].Embryo?;
    }
  }

  /** An end that is gone stays gone, whatever happens. */
  lemma GoneStays(s: State, act: Act, e: End)
    requires Gone(s.slots, e) && e != None
    ensures Gone(Do(s, act).slots, e)
  {
    if 0 <= s.cur < |s.pcs| == |s.runs| && act == Go { AdvanceGone(s, s.pcs[s.cur], e); }
  }

  lemma AdvanceGone(s: State, pc: Pc, e: End)
    requires Gone(s.slots, e) && e != None
    ensures Gone(Advance(s, pc).slots, e)
  {
    var t := Advance(s, pc);
    var from := if pc.MapFd? then pc.x else if pc.ForkFd? then 32 * s.cur + pc.i else -1;
    assert 0 <= from < |s.slots| ==> s.slots[from].fd != e;
    forall x {:trigger t.slots[x]} | 0 <= x < |t.slots|
      ensures t.slots[x].fd != e
    {
      assert s.slots[x].fd != e;
    }
  }

  lemma {:induction false} GoneForever(s: State, acts: seq<Act>, e: End)
    requires Gone(s.slots, e) && e != None
    ensures Gone(Run(s, acts).slots, e)
  {
    if acts != [] {
      GoneForever(s, acts[..|acts| - 1], e);
      GoneStays(Run(s, acts[..|acts| - 1]), acts[|acts| - 1], e);
    }
  }

  /** Between operations the counts tell exactly whether the other end is gone. */
  lemma QuietExact(s: State, x: int)
    requires Quiet(s) && 0 <= x < |s.slots| && s.slots[x].fd != None
    ensures Fds(s.slots, s.slots[x].fd) == Datas(s.slots) <==> Gone(s.slots, Other(s.slots[x].fd))
  {
    PipeExact(s.slots);
    CountGone(s.slots, Other(s.slots[x].fd));
  }

  // ---------- fork fools the reader ----------

  function Bare(): (slots: seq<Slot>)
    ensures |slots| == 96 && forall x {:trigger slots[x]} :: 0 <= x < 96 ==> slots[x] == Slot(None, false)
  {
    seq(96, x => Slot(None, false))
  }

  /** Environment 0 has both ends, environment 1 the reading end; environment 2 is unborn. */
  function ThreeSlots(): (slots: seq<Slot>)
    ensures |slots| == 96
  {
    Bare()[0 := Slot(Reader, true)][1 := Slot(Writer, true)][32 := Slot(Reader, true)]
  }

  ghost function Three(): State { State(ThreeSlots(), [Ready, Ready, Unborn], [0, 0, 0], 0) }

  /** The slots once fork has copied the first descriptor page. */
  function HalfForked(): seq<Slot> { ThreeSlots()[64 := Slot(Reader, false)] }

  lemma HalfForkedCounts()
    ensures Fds(HalfForked(), Reader) == 3 && Datas(HalfForked()) == 3
  {
    var s0 := Bare();
    var s1 := s0[0 := Slot(Reader, true)];
    var s2 := s1[1 := Slot(Writer, true)];
    CountsEmpty(s0, Reader);
    CountsUpdate(s0, 0, Slot(Reader, true), Reader);
    CountsUpdate(s1, 1, Slot(Writer, true), Reader);
    CountsUpdate(s2, 32, Slot(Reader, true), Reader);
    CountsUpdate(ThreeSlots(), 64, Slot(Reader, false), Reader);
  }

  lemma ThreeQuiet()
    ensures Quiet(Three())
  {
    forall x {:trigger WholeAt(ThreeSlots(), x)} | true
      ensures WholeAt(ThreeSlots(), x)
    {
    }
  }

  /** Environment 0 forks and copies one descriptor page. */
  lemma ForkBegins()
    ensures Do(Do(Three(), StartFork(2)), Go) == State(HalfForked(), [ForkFd(2, 1), Ready, Embryo(0)], [0, 0, 0], 0)
  {
    var s := Three();
    forall i {:trigger BareAt(s, 2, i)} | true
      ensures BareAt(s, 2, i)
    {
    }
    var s1 := Do(s, StartFork(2));
    assert s1 == State(ThreeSlots(), [ForkFd(2, 0), Ready, Embryo(0)], [0, 0, 0], 0);
    assert SlotOf(s1, 0) == Slot(Reader, true) && SlotOf(s1, 64) == Slot(None, false);
  }

  /** Environment 1 then asks whether the pipe is closed. */
  lemma ReaderAsks(s: State)
    requires s == State(HalfForked(), [ForkFd(2, 1), Ready, Embryo(0)], [0, 0, 0], 0)
    ensures Do(Do(Do(Do(Do(s, Switch(1)), Check(32)), Go), Go), Go)
         == State(HalfForked(), [ForkFd(2, 1), Compare(32, 1, 3, 3), Embryo(0)], [0, 1, 0], 1)
  {
    HalfForkedCounts();
    assert HalfForked()[32] == Slot(Reader, true);
    var s1 := Do(Do(s, Switch(1)), Check(32));
    assert s1 == State(HalfForked(), [ForkFd(2, 1), ReadRuns(32), Embryo(0)], [0, 1, 0], 1);
    var s2 := Do(s1, Go);
    assert s2 == State(HalfForked(), [ForkFd(2, 1), ReadFd(32, 1), Embryo(0)], [0, 1, 0], 1);
    var s3 := Do(s2, Go);
    assert s3 == State(HalfForked(), [ForkFd(2, 1), ReadPipe(32, 1, 3), Embryo(0)], [0, 1, 0], 1);
  }

  /** From a pipe at rest: while environment 0 forks, environment 1 is told that the writing
      end is closed although environment 0 holds it. */
  lemma ForkFoolsReader()
    ensures Quiet(Three())
    ensures var acts := [StartFork(2), Go, Switch(1), Check(32), Go, Go, Go];
            var t := Run(Three(), acts);
            AnswersClosed(t, 32) && |t.slots| == 96 && t.slots[32].fd == Reader && !Gone(t.slots, Writer)
  {
    ThreeQuiet();
    ForkBegins();
    var s2 := Do(Do(Three(), StartFork(2)), Go);
    ReaderAsks(s2);
    var acts := [StartFork(2), Go, Switch(1), Check(32), Go, Go, Go];
    assert acts[..6][..5] == acts[..5] && acts[..5][..4] == acts[..4] && acts[..4][..3] == acts[..3];
    assert acts[..3][..2] == acts[..2] && acts[..2][..1] == acts[..1] && acts[..1][..0] == [];
    assert Run(Three(), acts[..1]) == Do(Three(), StartFork(2));
    assert Run(Three(), acts[..2]) == s2;
    assert Run(Three(), acts[..4]) == Do(Run(Three(), acts[..3]), Check(32));
    assert Run(Three(), acts[..6]) == Do(Run(Three(), acts[..5]), Go);
    assert HalfForked()[1] == Slot(Writer, true);
  }
}
