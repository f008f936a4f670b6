/** The kernel code that makes the steps of the machine, on state updated in place. */
module Smp {
  import opened Scheduler
  import opened Machine

  class Smp {
    var envs: seq<Env>
    var cpus: seq<Cpu>
    var locked: bool
    var owner: int

    function Abs(): State
      reads this
    {
      State(envs, cpus, locked, owner)
    }

    /** The start of the machine, with the environments that the boot code created. */
    constructor (envs: seq<Env>, ncpu: int)
      requires ncpu > 0
      requires forall i {:trigger envs[i]} :: 0 <= i < |envs| ==>
                 (envs[i].status == Free || envs[i].status == Runnable) && !envs[i].recving && !envs[i].inRecv
      ensures Booted(Abs()) && this.envs == envs && |cpus| == ncpu
    {
      this.envs := envs;
      cpus := [Cpu(Kernel(Sched), false, -1)] + seq(ncpu - 1, c => Cpu(Want(Boot), false, -1));
      locked, owner := true, 0;
    }

    method SetModeTo(c: int, m: Mode)
      requires 0 <= c < |cpus|
      modifies `cpus
      ensures Abs() == SetMode(old(Abs()), c, m)
    {
      cpus := cpus[c := cpus[c].(mode := m)];
    }

    method SetStatusTo(i: int, st: Status)
      requires 0 <= i < |envs|
      modifies `envs
      ensures Abs() == Renamed(old(Abs()), i, st)
    {
      envs := envs[i := envs[i].(status := st)];
    }

    /** spin_unlock up to the exchange. */
    method SpinUnlock(c: int, halt: bool)
      requires 0 <= c < |cpus|
      modifies `cpus, `owner
      ensures Abs() == Unlock(old(Abs()), c, halt)
    {
      if !(locked && owner == c) {
        SetModeTo(c, Panicked);
      } else {
        owner := -1;
        SetModeTo(c, Leaving(halt));
      }
    }

    /** env_run */
    method RunEnv(c: int, e: int)
      requires 0 <= c < |cpus| && 0 <= e < |envs|
      modifies `cpus, `envs, `owner
      ensures Abs() == EnvRun(old(Abs()), c, e)
    {
      var cur := cpus[c].cur;
      if 0 <= cur < |envs| && envs[cur].status == Running {
        SetStatusTo(cur, Runnable);
      }
      cpus := cpus[c := cpus[c].(cur := e)];
      envs := envs[e := envs[e].(status := Running, inRecv := false)];
      SpinUnlock(c, false);
    }

    /** sched_halt */
    method SchedHalt(c: int)
      requires 0 <= c < |cpus|
      modifies `cpus, `owner
      ensures Abs() == Halt(old(Abs()), c)
    {
      var i := 0;
      while i < |envs|
        invariant 0 <= i <= |envs|
        invariant forall k {:trigger envs[k]} :: 0 <= k < i ==> envs[k].status == Free || !envs[k].user
        invariant cpus == old(cpus) && owner == old(owner)
      {
        if (envs[i].status == Runnable || envs[i].status == Running || envs[i].status == NotRunnable
            || envs[i].status == Dying) && envs[i].user {
          break;
        }
        i := i + 1;
      }
      if i == |envs| {
        SetModeTo(c, Kernel(Monitor));
        return;
      }
      cpus := cpus[c := cpus[c].(cur := -1)];
      cpus := cpus[c := cpus[c].(halted := true)];
      SpinUnlock(c, true);
    }

    /** sched_yield */
    method SchedYield(c: int)
      requires 0 <= c < |cpus| && -1 <= cpus[c].cur < |envs|
      modifies `cpus, `envs, `owner
      ensures Abs() == Schedule(old(Abs()), c)
      ensures old(Holding(Abs(), c)) ==> Yields(old(Abs()), c, Abs())
    {
      if Holding(Abs(), c) {
        SchedulesNearest(Abs(), c);
      }
      var cur := cpus[c].cur;
      var i := FindRunnable(envs, cur);
      if i != -1 {
        RunEnv(c, i);
      } else if cur != -1 && envs[cur].status == Running {
        RunEnv(c, cur);
      } else {
        SchedHalt(c);
      }
    }

    /** The head of trap. */
    method TrapHead(c: int)
      requires 0 <= c < |cpus| && (cpus[c].mode == User || cpus[c].mode == Halted)
      modifies `cpus
      ensures Abs() == Enter(old(Abs()), c)
    {
      var fromUser, wasHalted := cpus[c].mode == User, cpus[c].halted;
      cpus := cpus[c := cpus[c].(halted := false)];
      if wasHalted {
        SetModeTo(c, Want(if fromUser then HaltUser else FromHalt));
      } else if fromUser {
        SetModeTo(c, Want(FromUser));
      } else {
        SetModeTo(c, Kernel(Dispatch));
      }
    }

    /** spin_lock, from one of its points to the next. */
    method SpinLock(c: int)
      requires 0 <= c < |cpus| && Waiting(cpus[c].mode)
      modifies `cpus, `locked, `owner
      ensures Abs() == LockStep(old(Abs()), c)
    {
      var m := cpus[c].mode;
      if m.Want? {
        SetModeTo(c, if locked && owner == c then Panicked else Spin(m.why));
      } else if m.Spin? {
        var was := locked;
        locked := true;
        if !was {
          SetModeTo(c, Won(m.why));
        }
      } else {
        owner := c;
        SetModeTo(c, After(m.why));
      }
    }

    /** The zombie check in trap. */
    method TrapCheck(c: int)
      requires 0 <= c < |cpus| && -1 <= cpus[c].cur < |envs|
      modifies `cpus, `envs
      ensures Abs() == Checked(old(Abs()), c)
    {
      var cur := cpus[c].cur;
      if cur == -1 {
        SetModeTo(c, Panicked);
      } else if envs[cur].status == Dying {
        SetStatusTo(cur, Free);
        cpus := cpus[c := cpus[c].(cur := -1)];
        SetModeTo(c, Kernel(Sched));
      } else {
        SetModeTo(c, Kernel(Dispatch));
      }
    }

    /** The end of trap. */
    method TrapTail(c: int)
      requires 0 <= c < |cpus| && -1 <= cpus[c].cur < |envs|
      modifies `cpus, `envs, `owner
      ensures Abs() == Resume(old(Abs()), c)
    {
      var cur := cpus[c].cur;
      if cur != -1 && envs[cur].status == Running {
        RunEnv(c, cur);
      } else {
        SetModeTo(c, Kernel(Sched));
      }
    }

    /** sys_env_destroy with env_destroy. */
    method SysEnvDestroy(c: int, i: int)
      requires 0 <= c < |cpus| && 0 <= cpus[c].cur < |envs| && 0 <= i < |envs|
      modifies `cpus, `envs
      ensures Abs() == Call(old(Abs()), c, old(cpus[c].cur), Destroy(i))
    {
      if envs[i].status == Free || (cpus[c].cur != i && envs[i].parent != envs[cpus[c].cur].id) {
        SetModeTo(c, Kernel(Return));
        return;
      }
      if envs[i].status == Running && cpus[c].cur != i {
        SetStatusTo(i, Dying);
        SetModeTo(c, Kernel(Return));
        return;
      }
      SetStatusTo(i, Free);
      if cpus[c].cur == i {
        cpus := cpus[c := cpus[c].(cur := -1)];
        SetModeTo(c, Kernel(Sched));
      } else {
        SetModeTo(c, Kernel(Return));
      }
    }

    /** sys_exofork, with env_alloc giving slot `i` and `id`. */
    method SysExofork(c: int, i: int, id: int)
      requires 0 <= c < |cpus| && 0 <= cpus[c].cur < |envs|
      modifies `cpus, `envs
      ensures Abs() == Call(old(Abs()), c, old(cpus[c].cur), Exofork(i, id))
      ensures 0 <= i < |old(envs)| && old(envs)[i].status == Free ==>
                && |envs| == |old(envs)| && envs == old(envs)[i := envs[i]] && envs[i].id == id
                && envs[i].parent == old(envs)[old(cpus)[c].cur].id && envs[i].user
                && envs[i].status == NotRunnable && !envs[i].recving && !envs[i].inRecv
    {
      if 0 <= i < |envs| && envs[i].status == Free {
        envs := envs[i := envs[i].(id := id, parent := envs[cpus[c].cur].id, user := true, status := Runnable,
                                   recving := false, inRecv := false)];
        SetStatusTo(i, NotRunnable);
      }
      SetModeTo(c, Kernel(Return));
    }

    /** sys_env_set_status */
    method SysEnvSetStatus(c: int, i: int, runnable: bool)
      requires 0 <= c < |cpus| && 0 <= cpus[c].cur < |envs| && 0 <= i < |envs|
      modifies `cpus, `envs
      ensures Abs() == Call(old(Abs()), c, old(cpus[c].cur), SetStatus(i, runnable))
      ensures var me := old(cpus)[c].cur;
              envs == if old(envs)[i].status != Free && (i == me || old(envs)[i].parent == old(envs)[me].id)
                      then old(envs)[i := old(envs)[i].(status := if runnable then Runnable else NotRunnable)]
                      else old(envs)
    {
      if envs[i].status != Free && (i == cpus[c].cur || envs[i].parent == envs[cpus[c].cur].id) {
        SetStatusTo(i, if runnable then Runnable else NotRunnable);
      }
      SetModeTo(c, Kernel(Return));
    }

    /** sys_ipc_try_send, without a page. */
    method SysIpcTrySend(c: int, i: int, value: int) returns (ok: bool)
      requires 0 <= c < |cpus| && 0 <= cpus[c].cur < |envs| && 0 <= i < |envs|
      modifies `cpus, `envs
      ensures ok == Delivers(old(Abs()), i)
      ensures Abs() == Call(old(Abs()), c, old(cpus[c].cur), Send(i, value))
    {
      ok := envs[i].status != Free && envs[i].recving;
      if ok {
        envs := envs[i := envs[i].(recving := false, from := envs[cpus[c].cur].id, value := value)];
        SetStatusTo(i, Runnable);
      }
      SetModeTo(c, Kernel(Return));
    }

    /** sys_ipc_recv */
    method SysIpcRecv(c: int)
      requires 0 <= c < |cpus| && 0 <= cpus[c].cur < |envs|
      modifies `cpus, `envs
      ensures Abs() == Call(old(Abs()), c, old(cpus[c].cur), Receive)
    {
      var me := cpus[c].cur;
      envs := envs[me := envs[me].(recving := true, inRecv := true)];
      SetStatusTo(me, NotRunnable);
      SetModeTo(c, Kernel(Sched));
    }

    /** One step of CPU `c`: on a machine in order, a guarded step leaves it in order. */
    method Step(c: int, op: Op)
      requires Inv(Abs()) && Guard(Abs(), c, op)
      modifies this
      ensures Abs() == Do(old(Abs()), c, op) && Inv(Abs())
    {
      StepKeeps(Abs(), c, op);
      if !(0 <= c < |cpus|) {
        return;
      }
      assert CpuAt(Abs(), c);
      var m := cpus[c].mode;
      if op == Trap {
        if m == User || m == Halted { TrapHead(c); }
      } else if op == Go {
        Proceed(c);
      } else if m == Kernel(Dispatch) {
        Serve(c, op);
      }
    }

    /** The CPU goes on by itself. */
    method Proceed(c: int)
      requires 0 <= c < |cpus| && -1 <= cpus[c].cur < |envs|
      modifies this
      ensures Abs() == Advance(old(Abs()), c)
    {
      match cpus[c].mode
      case Kernel(phase) => {
        match phase
        case Entry => TrapCheck(c);
        case Return => TrapTail(c);
        case Sched => SchedYield(c);
        case _ =>
      }
      case Leaving(halt) =>
        locked := false;
        SetModeTo(c, if halt then Halted else User);
      case Want(_) => SpinLock(c);
      case Spin(_) => SpinLock(c);
      case Won(_) => SpinLock(c);
      case _ =>
    }

    /** trap_dispatch */
    method Serve(c: int, op: Op)
      requires 0 <= c < |cpus| && -1 <= cpus[c].cur < |envs| && cpus[c].mode == Kernel(Dispatch) && op != Trap
               && op != Go
      modifies this
      ensures Abs() == Do(old(Abs()), c, op)
    {
      if op == Nothing {
        SetModeTo(c, Kernel(Return));
      } else if op == Yield {
        SetModeTo(c, Kernel(Sched));
      } else if cpus[c].cur != -1 {
        match op
        case Exofork(i, id) => SysExofork(c, i, id);
        case SetStatus(i, r) =>
          if 0 <= i < |envs| { SysEnvSetStatus(c, i, r); } else { SetModeTo(c, Kernel(Return)); }
        case Destroy(i) =>
          if 0 <= i < |envs| { SysEnvDestroy(c, i); } else { SetModeTo(c, Kernel(Return)); }
        case Send(i, value) =>
          if 0 <= i < |envs| { var ok := SysIpcTrySend(c, i, value); } else { SetModeTo(c, Kernel(Return)); }
        case Receive => SysIpcRecv(c);
        case _ =>
      }
    }
  }
}
