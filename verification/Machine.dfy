/** CPUs, the big kernel lock and environments as one step system: `kern/trap.c`,
    `kern/spinlock.c`, `kern/sched.c`, `kern/env.c` and the system calls that touch the status
    of environments.

    A step is what one CPU does between two points where another CPU can act.  The two words
    of the lock change in separate steps, as in the source.
 */
module Machine {
  import opened Scheduler

  /** What a CPU waits for the lock for.  `HaltUser` is a trap from user mode on a CPU that is
      marked as halted, which would take the lock twice. */
  datatype Why = Boot | FromUser | FromHalt | HaltUser

  datatype Phase = Entry | Dispatch | Return | Sched | Monitor

  /** Where a CPU is: outside the kernel, in spin_lock (before the check, in the loop, after
      the exchange), inside the kernel, in spin_unlock, or stopped by a panic. */
  datatype Mode =
    | User
    | Halted
    | Want(why: Why)
    | Spin(why: Why)
    | Won(why: Why)
    | Kernel(phase: Phase)
    | Leaving(halt: bool)
    | Panicked

  /** `halted` is cpu_status == CPU_HALTED; `cur` is the slot of curenv, or -1. */
  datatype Cpu = Cpu(mode: Mode, halted: bool, cur: int)

  /** `owner` is the CPU recorded in the lock, or -1. */
  datatype State = State(envs: seq<Env>, cpus: seq<Cpu>, locked: bool, owner: int)

  datatype Op =
    | Trap
    | Go
    | Nothing
    | Yield
    | Exofork(i: int, id: int)
    | SetStatus(i: int, runnable: bool)
    | Destroy(i: int)
    | Send(i: int, value: int)
    | Receive

  // ---------- What each step does ----------

  function SetCpu(s: State, c: int, p: Cpu): State
    requires 0 <= c < |s.cpus|
  {
    s.(cpus := s.cpus[c := p])
  }

  function SetMode(s: State, c: int, m: Mode): State
    requires 0 <= c < |s.cpus|
  {
    SetCpu(s, c, s.cpus[c].(mode := m))
  }

  function SetEnv(s: State, i: int, e: Env): State {
    if 0 <= i < |s.envs| then s.(envs := s.envs[i := e]) else s
  }

  function StatusOf(s: State, i: int): Status {
    if 0 <= i < |s.envs| then s.envs[i].status else Free
  }

  function Renamed(s: State, i: int, st: Status): State {
    if 0 <= i < |s.envs| then SetEnv(s, i, s.envs[i].(status := st)) else s
  }

  /** The head of trap: leave the halted state, then go for the lock as often as the two tests
      say. */
  function Enter(s: State, c: int): (r: State)
    requires 0 <= c < |s.cpus|
    ensures |r.cpus| == |s.cpus| && |r.envs| == |s.envs|
  {
    var p := s.cpus[c];
    match p.mode
    case User => SetCpu(s, c, p.(halted := false, mode := Want(if p.halted then HaltUser else FromUser)))
    case Halted => SetCpu(s, c, p.(halted := false, mode := if p.halted then Want(FromHalt) else Kernel(Dispatch)))
    case _ => s
  }

  predicate Holding(s: State, c: int) { s.locked && s.owner == c }

  /** Where a CPU goes on once it has the lock. */
  function After(why: Why): Mode {
    match why
    case Boot => Kernel(Sched)
    case FromUser => Kernel(Entry)
    case FromHalt => Kernel(Dispatch)
    case HaltUser => Want(FromUser)
  }

  /** The steps of spin_lock. */
  function LockStep(s: State, c: int): (r: State)
    requires 0 <= c < |s.cpus|
    ensures |r.cpus| == |s.cpus| && |r.envs| == |s.envs|
  {
    match s.cpus[c].mode
    case Want(w) => SetMode(s, c, if Holding(s, c) then Panicked else Spin(w))
    case Spin(w) => if s.locked then s else SetMode(s, c, Won(w)).(locked := true)
    case Won(w) => SetMode(s, c, After(w)).(owner := c)
    case _ => s
  }

  /** The first part of spin_unlock. */
  function Unlock(s: State, c: int, halt: bool): (r: State)
    requires 0 <= c < |s.cpus|
    ensures |r.cpus| == |s.cpus| && |r.envs| == |s.envs|
  {
    if Holding(s, c) then SetMode(s, c, Leaving(halt)).(owner := -1) else SetMode(s, c, Panicked)
  }

  /** env_run */
  function EnvRun(s: State, c: int, e: int): (r: State)
    requires 0 <= c < |s.cpus| && 0 <= e < |s.envs|
    ensures |r.cpus| == |s.cpus| && |r.envs| == |s.envs|
  {
    var cur := s.cpus[c].cur;
    var s1 := if StatusOf(s, cur) == Running then Renamed(s, cur, Runnable) else s;
    var s2 := SetEnv(s1, e, s1.envs[e].(status := Running, inRecv := false));
    Unlock(SetCpu(s2, c, s2.cpus[c].(cur := e)), c, false)
  }

  /** Some user environment exists. */
  predicate AnyUser(envs: seq<Env>) {
    exists i {:trigger envs[i]} :: 0 <= i < |envs| && envs[i].user && envs[i].status != Free
  }

  /** sched_halt */
  function Halt(s: State, c: int): (r: State)
    requires 0 <= c < |s.cpus|
    ensures |r.cpus| == |s.cpus| && |r.envs| == |s.envs|
  {
    if AnyUser(s.envs) then Unlock(SetCpu(s, c, s.cpus[c].(cur := -1, halted := true)), c, true)
    else SetMode(s, c, Kernel(Monitor))
  }

  /** sched_yield */
  function Schedule(s: State, c: int): (r: State)
    requires 0 <= c < |s.cpus|
    ensures |r.cpus| == |s.cpus| && |r.envs| == |s.envs|
  {
    var cur := s.cpus[c].cur;
    var i := NextEnv(s.envs, cur);
    if 0 <= i < |s.envs| then EnvRun(s, c, i)
    else if StatusOf(s, cur) == Running then EnvRun(s, c, cur)
    else Halt(s, c)
  }

  /** The zombie check of trap. */
  function Checked(s: State, c: int): (r: State)
    requires 0 <= c < |s.cpus|
    ensures |r.cpus| == |s.cpus| && |r.envs| == |s.envs|
  {
    var p := s.cpus[c];
    if p.cur == -1 then SetMode(s, c, Panicked)
    else if StatusOf(s, p.cur) == Dying then SetCpu(Renamed(s, p.cur, Free), c, p.(cur := -1, mode := Kernel(Sched)))
    else SetMode(s, c, Kernel(Dispatch))
  }

  /** The end of trap. */
  function Resume(s: State, c: int): (r: State)
    requires 0 <= c < |s.cpus|
    ensures |r.cpus| == |s.cpus| && |r.envs| == |s.envs|
  {
    var cur := s.cpus[c].cur;
    if StatusOf(s, cur) == Running then EnvRun(s, c, cur) else SetMode(s, c, Kernel(Sched))
  }

  /** The CPU goes on by itself. */
  function Advance(s: State, c: int): (r: State)
    requires 0 <= c < |s.cpus|
    ensures |r.cpus| == |s.cpus| && |r.envs| == |s.envs|
  {
    match s.cpus[c].mode
    case Kernel(phase) => (
      match phase
      case Entry => Checked(s, c)
      case Return => Resume(s, c)
      case Sched => Schedule(s, c)
      case _ => s)
    case Leaving(halt) => SetMode(s, c, if halt then Halted else User).(locked := false)
    case _ => LockStep(s, c)
  }

  /** env_destroy */
  function EnvDestroy(s: State, c: int, i: int): (r: State)
    requires 0 <= c < |s.cpus|
    ensures |r.cpus| == |s.cpus| && |r.envs| == |s.envs|
  {
    var p := s.cpus[c];
    if StatusOf(s, i) == Running && p.cur != i then SetMode(Renamed(s, i, Dying), c, Kernel(Return))
    else if p.cur == i then SetCpu(Renamed(s, i, Free), c, p.(cur := -1, mode := Kernel(Sched)))
    else SetMode(Renamed(s, i, Free), c, Kernel(Return))
  }

  /** A send succeeds exactly when the target waits in sys_ipc_recv. */
  predicate Delivers(s: State, i: int) {
    0 <= i < |s.envs| && s.envs[i].status != Free && s.envs[i].recving
  }

  /** The permission check of envid2env: the target is the caller or a child of it. */
  predicate May(s: State, me: int, i: int) {
    i == me || (0 <= me < |s.envs| && 0 <= i < |s.envs| && s.envs[i].parent == s.envs[me].id)
  }

  /** envid2env with that check finds environment `i` for environment `me`. */
  predicate Finds(s: State, me: int, i: int) { StatusOf(s, i) != Free && May(s, me, i) }

  /** The system calls of the current environment `me`. */
  function Call(s: State, c: int, me: int, op: Op): (r: State)
    requires 0 <= c < |s.cpus| && 0 <= me < |s.envs|
    ensures |r.cpus| == |s.cpus| && |r.envs| == |s.envs|
  {
    var back := SetMode(s, c, Kernel(Return));
    match op
    case Exofork(i, id) =>
      if 0 <= i < |s.envs| && s.envs[i].status == Free
      then SetEnv(back, i, s.envs[i].(id := id, parent := s.envs[me].id, status := NotRunnable, user := true,
                                      recving := false, inRecv := false))
      else back
    case SetStatus(i, r) =>
      if Finds(s, me, i) then Renamed(back, i, if r then Runnable else NotRunnable) else back
    case Destroy(i) => if Finds(s, me, i) then EnvDestroy(s, c, i) else back
    case Send(i, value) =>
      if Delivers(s, i)
      then SetEnv(back, i, s.envs[i].(recving := false, from := s.envs[me].id, value := value, status := Runnable))
      else back
    case Receive =>
      SetEnv(SetMode(s, c, Kernel(Sched)), me, s.envs[me].(recving := true, inRecv := true, status := NotRunnable))
    case _ => s
  }

  /** One step of CPU `c`. */
  function Do(s: State, c: int, op: Op): (r: State)
    ensures |r.cpus| == |s.cpus| && |r.envs| == |s.envs|
  {
    if !(0 <= c < |s.cpus|) then s
    else if op == Trap then Enter(s, c)
    else if op == Go then Advance(s, c)
    else if s.cpus[c].mode != Kernel(Dispatch) then s
    else if op == Nothing then SetMode(s, c, Kernel(Return))
    else if op == Yield then SetMode(s, c, Kernel(Sched))
    else if 0 <= s.cpus[c].cur < |s.envs| then Call(s, c, s.cpus[c].cur, op)
    else s
  }

  // ---------- The invariant ----------

  /** The CPU is past the lock. */
  predicate Past(m: Mode) { m.Won? || m.Kernel? || m.Leaving? }

  predicate Waiting(m: Mode) { m.Want? || m.Spin? || m.Won? }

  /** The CPU belongs to an environment that runs, or was told to die, on it. */
  predicate Busy(m: Mode) {
    m == User || (Waiting(m) && m.why == FromUser) || m == Kernel(Entry) || m == Leaving(false)
  }

  /** The CPU has no current environment. */
  predicate Idle(m: Mode) {
    m == Halted || (Waiting(m) && m.why != FromUser) || m == Leaving(true)
  }

  predicate Alive(st: Status) { st == Running || st == Dying }

  predicate CpuOk(s: State, c: int, p: Cpu) {
    && p.mode != Panicked && (Waiting(p.mode) ==> p.mode.why != HaltUser)
    && p.halted == (p.mode == Halted || p.mode == Leaving(true))
    && (Past(p.mode) ==> s.locked) && (p.mode.Kernel? <==> s.owner == c)
    && -1 <= p.cur < |s.envs|
    && (Busy(p.mode) ==> Alive(StatusOf(s, p.cur)))
    && (Idle(p.mode) ==> p.cur == -1)
    && (p.mode == Kernel(Dispatch) ==> p.cur == -1 || StatusOf(s, p.cur) == Running)
    && (p.mode.Kernel? && p.mode.phase != Entry && p.cur != -1 ==>
        StatusOf(s, p.cur) != Free && StatusOf(s, p.cur) != Dying)
  }

  ghost predicate CpuAt(s: State, c: int) { 0 <= c < |s.cpus| ==> CpuOk(s, c, s.cpus[c]) }

  /** At most one CPU is past the lock. */
  ghost predicate MutexAt(s: State, c: int, d: int) {
    0 <= c < |s.cpus| && 0 <= d < |s.cpus| && Past(s.cpus[c].mode) && Past(s.cpus[d].mode) ==> c == d
  }

  /** No environment is current on two CPUs. */
  ghost predicate SingleAt(s: State, c: int, d: int) {
    0 <= c < |s.cpus| && 0 <= d < |s.cpus| && s.cpus[c].cur == s.cpus[d].cur != -1 ==> c == d
  }

  ghost predicate OnCpu(s: State, i: int, c: int) { 0 <= c < |s.cpus| && s.cpus[c].cur == i }

  /** A running or dying environment is current on some CPU; one that waits for a message can
      not run. */
  ghost predicate EnvAt(s: State, i: int) {
    0 <= i < |s.envs| ==>
      && (Alive(s.envs[i].status) ==> exists c :: OnCpu(s, i, c))
      && (s.envs[i].recving ==> s.envs[i].status == NotRunnable || s.envs[i].status == Free)
  }

  ghost predicate Holder(s: State, c: int) { 0 <= c < |s.cpus| && Past(s.cpus[c].mode) }

  ghost predicate Inv(s: State) {
    && (forall c {:trigger CpuAt(s, c)} :: CpuAt(s, c))
    && (forall c, d {:trigger MutexAt(s, c, d)} :: MutexAt(s, c, d))
    && (forall c, d {:trigger SingleAt(s, c, d)} :: SingleAt(s, c, d))
    && (forall i {:trigger EnvAt(s, i)} :: EnvAt(s, i))
    && (s.locked ==> exists c :: Holder(s, c))
    && (s.owner == -1 || 0 <= s.owner < |s.cpus|)
  }

  /** A step of CPU `c` changes the lock only as its own mode allows. */
  ghost predicate LockKept(s: State, s2: State, c: int)
    requires 0 <= c < |s.cpus| == |s2.cpus|
  {
    && (s2.owner == s.owner || ((s.owner == c || s.owner == -1) && (s2.owner == c || s2.owner == -1)))
    && (s.locked && !s2.locked ==> Past(s.cpus[c].mode))
    && (s2.locked ==> Past(s2.cpus[c].mode) || (s.locked && !Past(s.cpus[c].mode)))
    && (Past(s2.cpus[c].mode) ==> Past(s.cpus[c].mode) || !s.locked)
  }

  /** A step of CPU `c` leaves the environments of other CPUs alive, and environments that come
      alive are its own. */
  ghost predicate EnvKept(s: State, s2: State, c: int, i: int)
    requires 0 <= c < |s.cpus| == |s2.cpus| && |s2.envs| == |s.envs|
  {
    0 <= i < |s.envs| ==>
      && (Alive(s.envs[i].status) && i != s.cpus[c].cur ==> Alive(s2.envs[i].status))
      && (Alive(s2.envs[i].status) ==> i == s2.cpus[c].cur || (Alive(s.envs[i].status) && i != s.cpus[c].cur))
      && (s2.envs[i].recving ==> s2.envs[i].status == NotRunnable || s2.envs[i].status == Free)
  }

  /** What is left to check for a step of CPU `c`. */
  ghost predicate Local(s: State, s2: State, c: int) {
    && 0 <= c < |s.cpus| == |s2.cpus| && |s2.envs| == |s.envs|
    && s2.cpus == s.cpus[c := s2.cpus[c]]
    && CpuOk(s2, c, s2.cpus[c]) && LockKept(s, s2, c)
    && (s2.envs == s.envs || Past(s.cpus[c].mode))
    && (s2.cpus[c].cur == -1 || s2.cpus[c].cur == s.cpus[c].cur
        || (Past(s.cpus[c].mode) && StatusOf(s, s2.cpus[c].cur) == Runnable))
    && (forall i {:trigger EnvKept(s, s2, c, i)} :: EnvKept(s, s2, c, i))
  }

  /** The CPUs other than the one that holds the lock are busy or idle. */
  lemma OtherCpu(s: State, c: int, d: int)
    requires Inv(s) && 0 <= c < |s.cpus| && 0 <= d < |s.cpus| && c != d && Past(s.cpus[c].mode)
    ensures !Past(s.cpus[d].mode) && (s.cpus[d].cur == -1 || Alive(StatusOf(s, s.cpus[d].cur)))
  {
    assert MutexAt(s, c, d) && CpuAt(s, d);
  }

  lemma LocalKeeps(s: State, s2: State, c: int)
    requires Inv(s) && Local(s, s2, c)
    ensures Inv(s2)
  {
    forall d {:trigger CpuAt(s2, d)} | true
      ensures CpuAt(s2, d)
    {
      if 0 <= d < |s.cpus| && d != c { OtherKept(s, s2, c, d); }
    }
    forall d, e {:trigger MutexAt(s2, d, e)} | true
      ensures MutexAt(s2, d, e)
    {
      assert MutexAt(s, d, e) && CpuAt(s, d) && CpuAt(s, e);
    }
    forall d, e {:trigger SingleAt(s2, d, e)} | true
      ensures SingleAt(s2, d, e)
    {
      assert SingleAt(s, d, e);
      if d == c && 0 <= e < |s.cpus| && e != c { NotStolen(s, s2, c, e); }
      if e == c && 0 <= d < |s.cpus| && d != c { NotStolen(s, s2, c, d); }
    }
    forall i {:trigger EnvAt(s2, i)} | true
      ensures EnvAt(s2, i)
    {
      assert EnvAt(s, i) && EnvKept(s, s2, c, i);
      if 0 <= i < |s.envs| && Alive(s2.envs[i].status) {
        if i == s2.cpus[c].cur {
          assert OnCpu(s2, i, c);
        } else {
          var d :| OnCpu(s, i, d);
          assert OnCpu(s2, i, d);
        }
      }
    }
    if s2.locked {
      if Past(s2.cpus[c].mode) {
        assert Holder(s2, c);
      } else {
        var d :| Holder(s, d);
        assert Holder(s2, d);
      }
    }
  }

  lemma NotStolen(s: State, s2: State, c: int, d: int)
    requires Inv(s) && Local(s, s2, c) && 0 <= d < |s.cpus| && d != c
    ensures s2.cpus[c].cur == -1 || s2.cpus[c].cur != s.cpus[d].cur
  {
    assert SingleAt(s, c, d) && CpuAt(s, d);
    if Past(s.cpus[c].mode) { OtherCpu(s, c, d); }
  }

  lemma OtherKept(s: State, s2: State, c: int, d: int)
    requires Inv(s) && Local(s, s2, c) && 0 <= d < |s.cpus| && d != c
    ensures CpuOk(s2, d, s.cpus[d])
  {
    assert CpuAt(s, d) && CpuAt(s, c) && MutexAt(s, c, d) && SingleAt(s, c, d);
    assert EnvKept(s, s2, c, s.cpus[d].cur);
    if Past(s.cpus[c].mode) { OtherCpu(s, c, d); }
  }

  // ---------- Every guarded step keeps the invariant ----------

  predicate Recving(s: State, i: int) { 0 <= i < |s.envs| && s.envs[i].recving }

  /** The conditions on calls that pass the permission check: the status of another environment
      is set only while it is stopped, and not to runnable while it waits for a message; a dying
      environment is not destroyed again. */
  predicate Guard(s: State, c: int, op: Op) {
    0 <= c < |s.cpus| && s.cpus[c].mode == Kernel(Dispatch) ==>
      match op
      case SetStatus(i, r) => i != s.cpus[c].cur && Finds(s, s.cpus[c].cur, i) ==>
        !Alive(StatusOf(s, i)) && (r ==> !Recving(s, i))
      case Destroy(i) => Finds(s, s.cpus[c].cur, i) ==> StatusOf(s, i) != Dying
      case _ => true
  }

  /** No environment changes. */
  lemma SameEnvs(s: State, s2: State, c: int)
    requires Inv(s) && 0 <= c < |s.cpus| == |s2.cpus| && s2.envs == s.envs
    requires s2.cpus[c].cur == s.cpus[c].cur || !Alive(StatusOf(s, s.cpus[c].cur))
    ensures forall i {:trigger EnvKept(s, s2, c, i)} :: EnvKept(s, s2, c, i)
  {
    forall i {:trigger EnvKept(s, s2, c, i)} | true
      ensures EnvKept(s, s2, c, i)
    {
      assert EnvAt(s, i);
    }
  }

  lemma EnterLocal(s: State, c: int)
    requires Inv(s) && 0 <= c < |s.cpus|
    ensures Local(s, Enter(s, c), c)
  {
    assert CpuAt(s, c);
    SameEnvs(s, Enter(s, c), c);
  }

  lemma LockLocal(s: State, c: int)
    requires Inv(s) && 0 <= c < |s.cpus|
    ensures Local(s, LockStep(s, c), c)
  {
    assert CpuAt(s, c) && CpuAt(s, s.owner) && MutexAt(s, c, s.owner);
    SameEnvs(s, LockStep(s, c), c);
  }

  lemma LeaveLocal(s: State, c: int)
    requires Inv(s) && 0 <= c < |s.cpus| && s.cpus[c].mode.Leaving?
    ensures Local(s, Advance(s, c), c)
  {
    assert CpuAt(s, c);
    SameEnvs(s, Advance(s, c), c);
  }

  /** env_run of a runnable environment or of the current one. */
  lemma RunLocal(s: State, c: int, e: int)
    requires Inv(s) && 0 <= c < |s.cpus| && s.cpus[c].mode.Kernel? && s.cpus[c].mode != Kernel(Entry)
    requires 0 <= e < |s.envs| && (StatusOf(s, e) == Runnable || (e == s.cpus[c].cur && StatusOf(s, e) == Running))
    ensures Local(s, EnvRun(s, c, e), c)
  {
    var s2 := EnvRun(s, c, e);
    assert CpuAt(s, c);
    forall i {:trigger EnvKept(s, s2, c, i)} | true
      ensures EnvKept(s, s2, c, i)
    {
      assert EnvAt(s, i);
    }
  }

  lemma HaltLocal(s: State, c: int)
    requires Inv(s) && 0 <= c < |s.cpus| && s.cpus[c].mode == Kernel(Sched) && StatusOf(s, s.cpus[c].cur) != Running
    ensures Local(s, Halt(s, c), c)
  {
    assert CpuAt(s, c);
    SameEnvs(s, Halt(s, c), c);
  }

  lemma ScheduleLocal(s: State, c: int)
    requires Inv(s) && 0 <= c < |s.cpus| && s.cpus[c].mode == Kernel(Sched)
    ensures Local(s, Schedule(s, c), c)
  {
    assert CpuAt(s, c);
    var cur := s.cpus[c].cur;
    if s.envs != [] { NextEnvSound(s.envs, cur); }
    var i := NextEnv(s.envs, cur);
    if 0 <= i < |s.envs| {
      RunLocal(s, c, i);
    } else if StatusOf(s, cur) == Running {
      RunLocal(s, c, cur);
    } else {
      HaltLocal(s, c);
    }
  }

  lemma CheckedLocal(s: State, c: int)
    requires Inv(s) && 0 <= c < |s.cpus| && s.cpus[c].mode == Kernel(Entry)
    ensures Local(s, Checked(s, c), c)
  {
    var s2 := Checked(s, c);
    assert CpuAt(s, c);
    forall i {:trigger EnvKept(s, s2, c, i)} | true
      ensures EnvKept(s, s2, c, i)
    {
      assert EnvAt(s, i);
    }
  }

  lemma ResumeLocal(s: State, c: int)
    requires Inv(s) && 0 <= c < |s.cpus| && s.cpus[c].mode == Kernel(Return)
    ensures Local(s, Resume(s, c), c)
  {
    assert CpuAt(s, c);
    if StatusOf(s, s.cpus[c].cur) == Running {
      RunLocal(s, c, s.cpus[c].cur);
    } else {
      SameEnvs(s, Resume(s, c), c);
    }
  }

  lemma AdvanceLocal(s: State, c: int)
    requires Inv(s) && 0 <= c < |s.cpus|
    ensures Local(s, Advance(s, c), c)
  {
    match s.cpus[c].mode
    case Kernel(phase) => {
      match phase
      case Entry => CheckedLocal(s, c);
      case Return => ResumeLocal(s, c);
      case Sched => ScheduleLocal(s, c);
      case _ =>
        assert CpuAt(s, c);
        SameEnvs(s, s, c);
    }
    case Leaving(_) => LeaveLocal(s, c);
    case _ => LockLocal(s, c);
  }

  lemma CallLocal(s: State, c: int, op: Op)
    requires Inv(s) && 0 <= c < |s.cpus| && s.cpus[c].mode == Kernel(Dispatch) && 0 <= s.cpus[c].cur < |s.envs|
    requires Guard(s, c, op)
    ensures Local(s, Call(s, c, s.cpus[c].cur, op), c)
  {
    var s2 := Call(s, c, s.cpus[c].cur, op);
    assert CpuAt(s, c);
    forall i {:trigger EnvKept(s, s2, c, i)} | true
      ensures EnvKept(s, s2, c, i)
    {
      assert EnvAt(s, i);
    }
  }

  /** Every guarded step keeps the invariant. */
  lemma StepKeeps(s: State, c: int, op: Op)
    requires Inv(s) && Guard(s, c, op)
    ensures Inv(Do(s, c, op))
  {
    if 0 <= c < |s.cpus| {
      if op == Trap {
        EnterLocal(s, c);
      } else if op == Go {
        AdvanceLocal(s, c);
      } else if s.cpus[c].mode == Kernel(Dispatch) && (op == Nothing || op == Yield) {
        assert CpuAt(s, c);
        SameEnvs(s, Do(s, c, op), c);
      } else if s.cpus[c].mode == Kernel(Dispatch) && 0 <= s.cpus[c].cur < |s.envs| {
        CallLocal(s, c, op);
      }
      if Do(s, c, op) != s { LocalKeeps(s, Do(s, c, op), c); }
    }
  }

  // ---------- Runs ----------

  datatype Action = Action(c: int, op: Op)

  /** The state after a list of steps. */
  ghost function Run(s: State, acts: seq<Action>): State
  {
    if acts == [] then s
    else var n := |acts| - 1; Do(Run(s, acts[..n]), acts[n].c, acts[n].op)
  }

  ghost predicate GuardAt(s: State, acts: seq<Action>, k: int) {
    0 <= k < |acts| ==> Guard(Run(s, acts[..k]), acts[k].c, acts[k].op)
  }

  /** All steps of a run are guarded. */
  ghost predicate Guarded(s: State, acts: seq<Action>) {
    forall k {:trigger GuardAt(s, acts, k)} :: GuardAt(s, acts, k)
  }

  /** The machine at the end of booting: CPU 0 holds the lock and is about to schedule, the
      others go for the lock; no environment has run. */
  ghost predicate Booted(s: State) {
    && |s.cpus| > 0 && s.locked && s.owner == 0
    && s.cpus[0] == Cpu(Kernel(Sched), false, -1)
    && (forall c {:trigger s.cpus[c]} :: 0 < c < |s.cpus| ==> s.cpus[c] == Cpu(Want(Boot), false, -1))
    && (forall i {:trigger s.envs[i]} :: 0 <= i < |s.envs| ==>
          (s.envs[i].status == Free || s.envs[i].status == Runnable) && !s.envs[i].recving && !s.envs[i].inRecv)
  }

  lemma BootedInv(s: State)
    requires Booted(s)
    ensures Inv(s)
  {
    forall c {:trigger CpuAt(s, c)} | true
      ensures CpuAt(s, c)
    {
      if 0 < c < |s.cpus| { assert s.cpus[c] == Cpu(Want(Boot), false, -1); }
    }
    forall c, d {:trigger MutexAt(s, c, d)} | true
      ensures MutexAt(s, c, d)
    {
      if 0 < c < |s.cpus| { assert s.cpus[c] == Cpu(Want(Boot), false, -1); }
      if 0 < d < |s.cpus| { assert s.cpus[d] == Cpu(Want(Boot), false, -1); }
    }
    forall c, d {:trigger SingleAt(s, c, d)} | true
      ensures SingleAt(s, c, d)
    {
      if 0 < c < |s.cpus| { assert s.cpus[c] == Cpu(Want(Boot), false, -1); }
    }
    forall i {:trigger EnvAt(s, i)} | true
      ensures EnvAt(s, i)
    {
    }
    assert Holder(s, 0);
  }

  lemma {:induction false} RunInv(s: State, acts: seq<Action>)
    requires Booted(s) && Guarded(s, acts)
    ensures Inv(Run(s, acts))
  {
    if acts == [] {
      BootedInv(s);
    } else {
      var n := |acts| - 1;
      assert Guarded(s, acts[..n]) by { PrefixGuarded(s, acts, n); }
      RunInv(s, acts[..n]);
      assert GuardAt(s, acts, n);
      StepKeeps(Run(s, acts[..n]), acts[n].c, acts[n].op);
    }
  }

  lemma PrefixGuarded(s: State, acts: seq<Action>, n: int)
    requires Guarded(s, acts) && 0 <= n <= |acts|
    ensures Guarded(s, acts[..n])
  {
    forall k {:trigger GuardAt(s, acts[..n], k)} | true
      ensures GuardAt(s, acts[..n], k)
    {
      assert GuardAt(s, acts, k);
      if 0 <= k < n { assert acts[..n][..k] == acts[..k]; }
    }
  }

  /** In every state of every run of guarded steps, on any number of CPUs: at most one CPU is
      past the lock; none has panicked, so the lock is never taken twice or released by a CPU
      that does not hold it, and curenv is there on a trap from user mode; and no environment
      is current on two CPUs. */
  lemma RunSafe(s: State, acts: seq<Action>, c: int, d: int)
    requires Booted(s) && Guarded(s, acts)
    requires 0 <= c < |Run(s, acts).cpus| && 0 <= d < |Run(s, acts).cpus| && c != d
    ensures var p, q := Run(s, acts).cpus[c], Run(s, acts).cpus[d];
            && !(Past(p.mode) && Past(q.mode)) && p.mode != Panicked
            && (p.cur == -1 || p.cur != q.cur)
  {
    RunInv(s, acts);
    var t := Run(s, acts);
    assert CpuAt(t, c) && MutexAt(t, c, d) && SingleAt(t, c, d);
  }

  /** A dying environment is freed only by the CPU that it is current on, on its way into the
      kernel. */
  lemma DyingFreedAtHome(s: State, c: int, op: Op, i: int)
    requires Inv(s) && Guard(s, c, op) && 0 <= i < |s.envs| && s.envs[i].status == Dying
    ensures Do(s, c, op).envs[i].status == Dying
         || (OnCpu(s, i, c) && s.cpus[c].mode == Kernel(Entry) && op == Go && Do(s, c, op).envs[i].status == Free)
  {
    if 0 <= c < |s.cpus| {
      assert CpuAt(s, c) && EnvAt(s, i);
      if op == Go {
        DyingAdvance(s, c, i);
      } else if s.cpus[c].mode == Kernel(Dispatch) && 0 <= s.cpus[c].cur < |s.envs| {
        DyingCall(s, c, op, i);
      }
    }
  }

  lemma DyingAdvance(s: State, c: int, i: int)
    requires Inv(s) && 0 <= c < |s.cpus| && 0 <= i < |s.envs| && s.envs[i].status == Dying
    ensures Advance(s, c).envs[i].status == Dying
         || (OnCpu(s, i, c) && s.cpus[c].mode == Kernel(Entry) && Advance(s, c).envs[i].status == Free)
  {
    assert CpuAt(s, c);
    NextEnvSound(s.envs, s.cpus[c].cur);
  }

  lemma DyingCall(s: State, c: int, op: Op, i: int)
    requires Inv(s) && Guard(s, c, op) && 0 <= c < |s.cpus| && s.cpus[c].mode == Kernel(Dispatch)
    requires 0 <= s.cpus[c].cur < |s.envs| && 0 <= i < |s.envs| && s.envs[i].status == Dying
    ensures Call(s, c, s.cpus[c].cur, op).envs[i].status == Dying
  {
    assert CpuAt(s, c) && EnvAt(s, i);
  }

  /** A step of one CPU does nothing to the environment that another CPU runs, except to mark
      it as dying. */
  lemma OthersRunOn(s: State, c: int, op: Op, d: int)
    requires Inv(s) && Guard(s, c, op) && 0 <= d < |s.cpus| && d != c && Busy(s.cpus[d].mode)
    ensures var i, s2 := s.cpus[d].cur, Do(s, c, op);
            && 0 <= i < |s.envs| == |s2.envs| && |s2.cpus| == |s.cpus| && s2.cpus[d] == s.cpus[d]
            && (s2.envs[i] == s.envs[i] || s2.envs[i] == s.envs[i].(status := Dying))
  {
    assert CpuAt(s, d);
    if 0 <= c < |s.cpus| {
      var i := s.cpus[d].cur;
      assert CpuAt(s, c) && EnvAt(s, i) && SingleAt(s, c, d);
      if op == Go {
        OthersAdvance(s, c, i);
      } else if s.cpus[c].mode == Kernel(Dispatch) && 0 <= s.cpus[c].cur < |s.envs| {
        OthersCall(s, c, op, i);
      }
    }
  }

  lemma OthersAdvance(s: State, c: int, i: int)
    requires Inv(s) && 0 <= c < |s.cpus| && 0 <= i < |s.envs| && Alive(s.envs[i].status) && s.cpus[c].cur != i
    ensures var s2 := Advance(s, c);
            |s2.envs| == |s.envs| && s2.envs[i] == s.envs[i] && s2.cpus == s.cpus[c := s2.cpus[c]]
  {
    assert CpuAt(s, c);
    if s.cpus[c].mode == Kernel(Sched) { OthersSchedule(s, c, i); }
  }

  lemma OthersSchedule(s: State, c: int, i: int)
    requires 0 <= c < |s.cpus| && 0 <= i < |s.envs| && Alive(s.envs[i].status) && s.cpus[c].cur != i
    requires -1 <= s.cpus[c].cur < |s.envs|
    ensures var s2 := Schedule(s, c);
            |s2.envs| == |s.envs| && s2.envs[i] == s.envs[i] && s2.cpus == s.cpus[c := s2.cpus[c]]
  {
    NextEnvSound(s.envs, s.cpus[c].cur);
  }

  lemma OthersCall(s: State, c: int, op: Op, i: int)
    requires Inv(s) && Guard(s, c, op) && 0 <= c < |s.cpus| && s.cpus[c].mode == Kernel(Dispatch)
             && 0 <= s.cpus[c].cur < |s.envs|
    requires 0 <= i < |s.envs| && Alive(s.envs[i].status) && s.cpus[c].cur != i
    ensures var s2 := Call(s, c, s.cpus[c].cur, op);
            && |s2.envs| == |s.envs| && s2.cpus == s.cpus[c := s2.cpus[c]]
            && (s2.envs[i] == s.envs[i] || s2.envs[i] == s.envs[i].(status := Dying))
  {
    assert EnvAt(s, i);
  }

  // ---------- What the code may rely on ----------

  /** A trap goes for the lock once: the CPU does not hold it, and is not marked as halted any
      more. */
  lemma EntersOnce(s: State, c: int)
    requires Inv(s) && 0 <= c < |s.cpus| && (s.cpus[c].mode == User || s.cpus[c].mode == Halted)
    ensures var p := Enter(s, c).cpus[c];
            && p.mode == Want(if s.cpus[c].mode == User then FromUser else FromHalt) && !p.halted
            && !Holding(Enter(s, c), c) && p.cur == s.cpus[c].cur
  {
    assert CpuAt(s, c);
  }

  /** Whoever records itself in the lock is the only CPU past it, and from there on its
      owner. */
  lemma AcquiresAlone(s: State, c: int, d: int)
    requires Inv(s) && 0 <= c < |s.cpus| && s.cpus[c].mode.Won? && 0 <= d < |s.cpus| && d != c
    ensures var t := LockStep(s, c);
            && Holding(t, c) && t.cpus[c].mode.Kernel? && t.envs == s.envs
            && t.cpus[d] == s.cpus[d] && !Past(t.cpus[d].mode)
  {
    assert CpuAt(s, c) && MutexAt(s, c, d);
  }

  /** A CPU that spins gets the lock exactly if no CPU is past it. */
  lemma SpinsExactly(s: State, c: int)
    requires Inv(s) && 0 <= c < |s.cpus| && s.cpus[c].mode.Spin?
    ensures LockStep(s, c).cpus[c].mode.Won? <==>
            forall d {:trigger s.cpus[d]} :: 0 <= d < |s.cpus| ==> !Past(s.cpus[d].mode)
    ensures !LockStep(s, c).cpus[c].mode.Won? ==> LockStep(s, c) == s
  {
    if s.locked {
      var d :| Holder(s, d);
      assert Past(s.cpus[d].mode);
    } else {
      forall d {:trigger s.cpus[d]} | 0 <= d < |s.cpus|
        ensures !Past(s.cpus[d].mode)
      {
        assert CpuAt(s, d);
      }
    }
  }

  /** Once the release is complete no CPU is past the lock. */
  lemma ReleaseFrees(s: State, c: int, d: int)
    requires Inv(s) && 0 <= c < |s.cpus| && s.cpus[c].mode.Leaving? && 0 <= d < |s.cpus|
    ensures var t := Advance(s, c); !t.locked && t.owner == -1 && !Past(t.cpus[d].mode)
  {
    assert CpuAt(s, c) && CpuAt(s, s.owner) && MutexAt(s, c, s.owner) && MutexAt(s, c, d);
  }

  /** env_run releases the lock without a panic.  The environment is then current on this CPU
      and on no other, the one that ran here before is runnable again, and all others are as
      they were. */
  lemma RunsAlone(s: State, c: int, e: int)
    requires Inv(s) && 0 <= c < |s.cpus| && s.cpus[c].mode.Kernel? && s.cpus[c].mode != Kernel(Entry)
    requires 0 <= e < |s.envs| && (StatusOf(s, e) == Runnable || (e == s.cpus[c].cur && StatusOf(s, e) == Running))
    ensures var t := EnvRun(s, c, e);
            && t.cpus[c] == Cpu(Leaving(false), false, e) && t.owner == -1 && t.locked
            && t.envs[e].status == Running
            && (forall d {:trigger t.cpus[d]} :: 0 <= d < |t.cpus| && d != c ==>
                  t.cpus[d] == s.cpus[d] && t.cpus[d].cur != e)
            && (forall i {:trigger t.envs[i]} :: 0 <= i < |t.envs| && i != e ==>
                  t.envs[i] == if i == s.cpus[c].cur && s.envs[i].status == Running
                               then s.envs[i].(status := Runnable) else s.envs[i])
  {
    var t := EnvRun(s, c, e);
    assert CpuAt(s, c);
    forall d {:trigger t.cpus[d]} | 0 <= d < |t.cpus| && d != c
      ensures t.cpus[d] == s.cpus[d] && t.cpus[d].cur != e
    {
      assert SingleAt(s, c, d);
      OtherCpu(s, c, d);
    }
  }

  /** Environment `i` after CPU `c` switched from `cur` to `next`. */
  ghost predicate SwitchedAt(s: State, t: State, cur: int, next: int, i: int)
    requires |t.envs| == |s.envs|
  {
    0 <= i < |s.envs| ==>
      t.envs[i] == if i == next then s.envs[i].(status := Running, inRecv := false)
                   else if i == cur && s.envs[i].status == Running then s.envs[i].(status := Runnable)
                   else s.envs[i]
  }

  /** What sched_yield is for: the nearest runnable environment after the current one runs; if
      none is runnable, the current one goes on if it was running; else the CPU halts without a
      current environment, or enters the monitor if no user environment is left. */
  ghost predicate Yields(s: State, c: int, t: State)
    requires 0 <= c < |s.cpus| == |t.cpus| && |s.envs| == |t.envs|
  {
    var cur, next := s.cpus[c].cur, t.cpus[c].cur;
    if !NoneRunnable(s.envs) || StatusOf(s, cur) == Running then
      && (if NoneRunnable(s.envs) then next == cur else Nearest(s.envs, if cur == -1 then 0 else cur + 1, next))
      && t.cpus == s.cpus[c := Cpu(Leaving(false), s.cpus[c].halted, next)]
      && (forall i {:trigger SwitchedAt(s, t, cur, next, i)} :: SwitchedAt(s, t, cur, next, i))
    else
      && t.envs == s.envs
      && t.cpus == s.cpus[c :=
           if exists i {:trigger s.envs[i]} :: 0 <= i < |s.envs| && s.envs[i].user && s.envs[i].status != Free
           then Cpu(Leaving(true), true, -1) else Cpu(Kernel(Monitor), s.cpus[c].halted, cur)]
  }

  lemma RunSwitches(s: State, c: int, e: int)
    requires 0 <= c < |s.cpus| && Holding(s, c) && 0 <= e < |s.envs|
    requires s.envs[e].status == Runnable || (e == s.cpus[c].cur && s.envs[e].status == Running)
    ensures var t := EnvRun(s, c, e);
            && t.cpus == s.cpus[c := Cpu(Leaving(false), s.cpus[c].halted, e)] && t.owner == -1
            && forall i {:trigger SwitchedAt(s, t, s.cpus[c].cur, e, i)} :: SwitchedAt(s, t, s.cpus[c].cur, e, i)
  {
  }

  /** A CPU that holds the lock and schedules does so. */
  lemma SchedulesNearest(s: State, c: int)
    requires 0 <= c < |s.cpus| && -1 <= s.cpus[c].cur < |s.envs| && Holding(s, c)
    ensures Yields(s, c, Schedule(s, c))
  {
    var cur := s.cpus[c].cur;
    NextEnvSound(s.envs, cur);
    if !NoneRunnable(s.envs) {
      RunSwitches(s, c, NextEnv(s.envs, cur));
    } else if StatusOf(s, cur) == Running {
      RunSwitches(s, c, cur);
    }
  }

  /** So it is on a machine in order, for there whoever schedules holds the lock. */
  lemma SchedulesInOrder(s: State, c: int)
    requires Inv(s) && 0 <= c < |s.cpus| && s.cpus[c].mode == Kernel(Sched)
    ensures Yields(s, c, Do(s, c, Go))
  {
    assert CpuAt(s, c);
    SchedulesNearest(s, c);
  }

  /** The check on entry finds the current environment in place.  If it is dying, exactly it is
      freed, and then it is current nowhere; else no environment changes. */
  lemma ChecksOwn(s: State, c: int)
    requires Inv(s) && 0 <= c < |s.cpus| && s.cpus[c].mode == Kernel(Entry)
    ensures var t, i := Checked(s, c), s.cpus[c].cur;
            && 0 <= i < |s.envs| && t.cpus[c].mode != Panicked
            && (s.envs[i].status != Dying ==> t == SetMode(s, c, Kernel(Dispatch)) && s.envs[i].status == Running)
            && (s.envs[i].status == Dying ==>
                  && t.envs == s.envs[i := s.envs[i].(status := Free)]
                  && forall d {:trigger t.cpus[d]} :: 0 <= d < |t.cpus| ==> t.cpus[d].cur != i)
  {
    var t, i := Checked(s, c), s.cpus[c].cur;
    assert CpuAt(s, c);
    forall d {:trigger t.cpus[d]} | 0 <= d < |t.cpus| && s.envs[i].status == Dying
      ensures t.cpus[d].cur != i
    {
      assert SingleAt(s, c, d);
    }
  }

  /** The end of a trap resumes the environment of this CPU, which no other CPU runs, or leaves
      every environment to the scheduler unchanged. */
  lemma ResumesOwn(s: State, c: int)
    requires Inv(s) && 0 <= c < |s.cpus| && s.cpus[c].mode == Kernel(Return)
    ensures var t := Resume(s, c);
            if StatusOf(s, s.cpus[c].cur) == Running
            then && t.cpus[c] == Cpu(Leaving(false), false, s.cpus[c].cur) && t.owner == -1
                 && forall d {:trigger t.cpus[d]} :: 0 <= d < |t.cpus| && d != c ==> t.cpus[d].cur != s.cpus[c].cur
            else t.envs == s.envs && t.cpus[c].mode == Kernel(Sched) && Holding(t, c)
  {
    assert CpuAt(s, c);
    if StatusOf(s, s.cpus[c].cur) == Running { RunsAlone(s, c, s.cpus[c].cur); }
  }

  /** A guarded sys_env_destroy marks an environment that another CPU runs as dying, and leaves
      it with that CPU; any other environment is freed and is then current nowhere.  Without
      permission it does nothing. */
  lemma DestroysOrMarks(s: State, c: int, i: int)
    requires Inv(s) && 0 <= c < |s.cpus| && s.cpus[c].mode == Kernel(Dispatch) && 0 <= s.cpus[c].cur < |s.envs|
    requires 0 <= i < |s.envs| && s.envs[i].status != Free && s.envs[i].status != Dying
    ensures var t := Do(s, c, Destroy(i));
            if i != s.cpus[c].cur && s.envs[i].parent != s.envs[s.cpus[c].cur].id
            then t == SetMode(s, c, Kernel(Return))
            else if s.envs[i].status == Running && i != s.cpus[c].cur
            then && t.envs == s.envs[i := s.envs[i].(status := Dying)]
                 && exists d {:trigger s.cpus[d]} ::
                      0 <= d < |s.cpus| && d != c && s.cpus[d].cur == i
                      && Busy(s.cpus[d].mode) && t.cpus[d] == s.cpus[d]
            else && t.envs == s.envs[i := s.envs[i].(status := Free)]
                 && forall d {:trigger t.cpus[d]} :: 0 <= d < |t.cpus| ==> t.cpus[d].cur != i
  {
    var t := Do(s, c, Destroy(i));
    assert CpuAt(s, c);
    if !May(s, s.cpus[c].cur, i) {
    } else if s.envs[i].status == Running && i != s.cpus[c].cur {
      var d := HomeOf(s, c, i);
      assert t.cpus[d] == s.cpus[d];
    } else {
      forall d {:trigger t.cpus[d]} | 0 <= d < |t.cpus|
        ensures t.cpus[d].cur != i
      {
        assert SingleAt(s, c, d);
        if d != c { OtherCpu(s, c, d); }
      }
    }
  }

  // ---------- The guards are exact ----------

  /** The CPU that an environment of another CPU runs on. */
  lemma HomeOf(s: State, c: int, i: int) returns (d: int)
    requires Inv(s) && 0 <= c < |s.cpus| && Past(s.cpus[c].mode) && 0 <= i < |s.envs| && Alive(s.envs[i].status)
             && i != s.cpus[c].cur
    ensures 0 <= d < |s.cpus| && d != c && s.cpus[d].cur == i && Busy(s.cpus[d].mode)
  {
    assert EnvAt(s, i);
    d :| OnCpu(s, i, d);
    assert CpuAt(s, d) && MutexAt(s, c, d);
  }

  /** sys_env_set_status keeps the invariant exactly under its guard. */
  lemma SetStatusExact(s: State, c: int, i: int, r: bool)
    requires Inv(s) && 0 <= c < |s.cpus| && s.cpus[c].mode == Kernel(Dispatch) && 0 <= s.cpus[c].cur < |s.envs|
    ensures Inv(Do(s, c, SetStatus(i, r))) <==> Guard(s, c, SetStatus(i, r))
  {
    var s2 := Do(s, c, SetStatus(i, r));
    if Guard(s, c, SetStatus(i, r)) {
      StepKeeps(s, c, SetStatus(i, r));
    } else if Alive(StatusOf(s, i)) {
      var d := HomeOf(s, c, i);
      assert !CpuAt(s2, d);
    } else {
      assert !EnvAt(s2, i);
    }
  }

  /** sys_env_destroy keeps the invariant exactly when the caller may not destroy the target or
      the target is not dying already; else it frees an environment that another CPU runs. */
  lemma DestroyExact(s: State, c: int, i: int)
    requires Inv(s) && 0 <= c < |s.cpus| && s.cpus[c].mode == Kernel(Dispatch) && 0 <= s.cpus[c].cur < |s.envs|
    ensures Inv(Do(s, c, Destroy(i))) <==> !(StatusOf(s, i) == Dying && May(s, s.cpus[c].cur, i))
    ensures StatusOf(s, i) == Dying && May(s, s.cpus[c].cur, i) ==>
      exists d {:trigger s.cpus[d]} :: 0 <= d < |s.cpus| && d != c && Busy(s.cpus[d].mode) && s.cpus[d].cur == i
                                       && Do(s, c, Destroy(i)).cpus[d] == s.cpus[d]
                                       && StatusOf(Do(s, c, Destroy(i)), i) == Free
  {
    var s2 := Do(s, c, Destroy(i));
    assert CpuAt(s, c);
    if !(StatusOf(s, i) == Dying && May(s, s.cpus[c].cur, i)) {
      StepKeeps(s, c, Destroy(i));
    } else {
      var d := HomeOf(s, c, i);
      assert !CpuAt(s2, d);
      assert s2.cpus[d] == s.cpus[d];
    }
  }
}
