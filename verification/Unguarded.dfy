/** What goes wrong on two CPUs when sys_env_set_status and env_destroy (`kern/syscall.c`,
    `kern/env.c`) are called outside their guards: runs from boot to unsafe states.  In each of
    them an environment forks a child, which comes to run on the other CPU, and makes calls on
    it that its parent is permitted to make.
 */
module Unguarded {
  import opened EnvIds
  import opened Scheduler
  import opened Machine

  /** State `t` is reached from `s` by some run. */
  ghost predicate Reached(s: State, t: State) { exists acts :: Run(s, acts) == t }

  lemma ReachedSelf(s: State)
    ensures Reached(s, s)
  {
    assert Run(s, []) == s;
  }

  lemma ReachedStep(s: State, t: State, c: int, op: Op)
    requires Reached(s, t)
    ensures Reached(s, Do(t, c, op))
  {
    var acts :| Run(s, acts) == t;
    assert (acts + [Action(c, op)])[..|acts|] == acts;
    assert Run(s, acts + [Action(c, op)]) == Do(t, c, op);
  }

  /** CPU `c` traps and gets through the lock to the dispatch of the trap. */
  ghost function Entered(s: State, c: int): State {
    Do(Do(Do(Do(Do(s, c, Trap), c, Go), c, Go), c, Go), c, Go)
  }

  /** CPU `c` makes a system call and returns to user mode. */
  ghost function Called(s: State, c: int, op: Op): State { Do(Do(Do(Entered(s, c), c, op), c, Go), c, Go) }

  /** CPU `c` traps and yields. */
  ghost function Yielded(s: State, c: int): State { Do(Do(Entered(s, c), c, Yield), c, Go) }

  /** CPU 0 leaves the boot code for user mode; CPU 1 finds nothing to run and halts. */
  ghost function Started(s: State): State {
    Do(Do(Do(Do(Do(Do(Do(s, 0, Go), 0, Go), 1, Go), 1, Go), 1, Go), 1, Go), 1, Go)
  }

  /** CPU 1 wakes up and schedules. */
  ghost function Woken(s: State): State {
    Do(Do(Do(Do(Do(Do(Do(s, 1, Trap), 1, Go), 1, Go), 1, Go), 1, Yield), 1, Go), 1, Go)
  }

  /** The environment on CPU 0 creates a child and starts it, and CPU 1 comes to run it. */
  ghost function Forked(s: State): State {
    Woken(Called(Called(Started(s), 0, Exofork(1, NextId(0, 1))), 0, SetStatus(1, true)))
  }

  lemma ReachedEntered(s: State, t: State, c: int)
    requires Reached(s, t)
    ensures Reached(s, Entered(t, c))
  {
    var t1 := Do(t, c, Trap);
    ReachedStep(s, t, c, Trap);
    ReachedStep(s, t1, c, Go);
    ReachedStep(s, Do(t1, c, Go), c, Go);
    ReachedStep(s, Do(Do(t1, c, Go), c, Go), c, Go);
    ReachedStep(s, Do(Do(Do(t1, c, Go), c, Go), c, Go), c, Go);
  }

  lemma ReachedCalled(s: State, t: State, c: int, op: Op)
    requires Reached(s, t)
    ensures Reached(s, Called(t, c, op))
  {
    ReachedEntered(s, t, c);
    ReachedStep(s, Entered(t, c), c, op);
    ReachedStep(s, Do(Entered(t, c), c, op), c, Go);
    ReachedStep(s, Do(Do(Entered(t, c), c, op), c, Go), c, Go);
  }

  lemma ReachedYielded(s: State, t: State, c: int)
    requires Reached(s, t)
    ensures Reached(s, Yielded(t, c))
  {
    ReachedEntered(s, t, c);
    ReachedStep(s, Entered(t, c), c, Yield);
    ReachedStep(s, Do(Entered(t, c), c, Yield), c, Go);
  }

  lemma ReachedWoken(s: State, t: State)
    requires Reached(s, t)
    ensures Reached(s, Woken(t))
  {
    var t4 := Do(Do(Do(Do(t, 1, Trap), 1, Go), 1, Go), 1, Go);
    ReachedStep(s, t, 1, Trap);
    ReachedStep(s, Do(t, 1, Trap), 1, Go);
    ReachedStep(s, Do(Do(t, 1, Trap), 1, Go), 1, Go);
    ReachedStep(s, Do(Do(Do(t, 1, Trap), 1, Go), 1, Go), 1, Go);
    ReachedStep(s, t4, 1, Yield);
    ReachedStep(s, Do(t4, 1, Yield), 1, Go);
    ReachedStep(s, Do(Do(t4, 1, Yield), 1, Go), 1, Go);
  }

  lemma ReachedStarted(s: State)
    ensures Reached(s, Started(s))
  {
    ReachedSelf(s);
    var s2 := Do(Do(s, 0, Go), 0, Go);
    ReachedStep(s, s, 0, Go);
    ReachedStep(s, Do(s, 0, Go), 0, Go);
    ReachedStep(s, s2, 1, Go);
    ReachedStep(s, Do(s2, 1, Go), 1, Go);
    ReachedStep(s, Do(Do(s2, 1, Go), 1, Go), 1, Go);
    ReachedStep(s, Do(Do(Do(s2, 1, Go), 1, Go), 1, Go), 1, Go);
    ReachedStep(s, Do(Do(Do(Do(s2, 1, Go), 1, Go), 1, Go), 1, Go), 1, Go);
  }

  /** The environment that env_create makes in slot 0, and a slot that was never used. */
  ghost function First(): Env { Env(NextId(0, 0), 0, Runnable, true, false, false, 0, 0) }

  ghost function Unused(): Env { Env(0, 0, Free, false, false, false, 0, 0) }

  /** Two CPUs and one environment. */
  ghost function Boot2(): State {
    State([First(), Unused()], [Cpu(Kernel(Sched), false, -1), Cpu(Want(Boot), false, -1)], true, 0)
  }

  lemma Boot2Booted()
    ensures Booted(Boot2())
  {
  }

  /** CPU 0 runs environment 0, with environment 1 and CPU 1 as given; the lock is free. */
  ghost function Two(e0: Env, e1: Env, p: Cpu): State { State([e0, e1], [Cpu(User, false, 0), p], false, -1) }

  /** The same with CPU 0 in a system call. */
  ghost function TwoIn(e0: Env, e1: Env, p: Cpu, phase: Phase): State {
    State([e0, e1], [Cpu(Kernel(phase), false, 0), p], true, 0)
  }

  ghost function OnOne(): Cpu { Cpu(User, false, 1) }

  ghost function HaltedOne(): Cpu { Cpu(Halted, true, -1) }

  lemma StartedTwo()
    ensures Started(Boot2()) == Two(First().(status := Running), Unused(), HaltedOne())
  {
    var e0, e1, r0 := First(), Unused(), First().(status := Running);
    var s0 := Boot2();
    var s1 := Do(s0, 0, Go);
    assert Scan(s0.envs, 0, 0) == 0;
    assert s1 == State([r0, e1], [Cpu(Leaving(false), false, 0), Cpu(Want(Boot), false, -1)], true, -1);
    var s2 := Do(s1, 0, Go);
    assert s2 == State([r0, e1], [Cpu(User, false, 0), Cpu(Want(Boot), false, -1)], false, -1);
    StartOne(r0, e1);
  }

  lemma StartOne(r0: Env, e1: Env)
    requires r0.status == Running && r0.user && e1.status == Free
    ensures Do(Do(Do(Do(Do(Two(r0, e1, Cpu(Want(Boot), false, -1)), 1, Go), 1, Go), 1, Go), 1, Go), 1, Go)
         == Two(r0, e1, HaltedOne())
  {
    var p0 := Cpu(User, false, 0);
    var s3 := Do(Two(r0, e1, Cpu(Want(Boot), false, -1)), 1, Go);
    assert s3 == Two(r0, e1, Cpu(Spin(Boot), false, -1));
    var s5 := Do(Do(s3, 1, Go), 1, Go);
    assert s5 == State([r0, e1], [p0, Cpu(Kernel(Sched), false, -1)], true, 1);
    assert Scan(s5.envs, 0, 2) == -1 && Scan(s5.envs, 0, 1) == -1 && Scan(s5.envs, 0, 0) == -1;
    assert s5.envs[0].user;
    assert Do(s5, 1, Go) == State([r0, e1], [p0, Cpu(Leaving(true), true, -1)], true, -1);
  }

  lemma EnteredTwo(e0: Env, e1: Env, p: Cpu)
    requires e0.status == Running
    ensures Entered(Two(e0, e1, p), 0) == TwoIn(e0, e1, p, Dispatch)
  {
    var s2 := Do(Do(Two(e0, e1, p), 0, Trap), 0, Go);
    assert s2 == State([e0, e1], [Cpu(Spin(FromUser), false, 0), p], false, -1);
    var s4 := Do(Do(s2, 0, Go), 0, Go);
    assert s4 == TwoIn(e0, e1, p, Entry);
  }

  /** The end of a system call of environment 0. */
  lemma ReturnsTwo(e0: Env, e1: Env, p: Cpu)
    requires e0.status == Running && !e0.inRecv
    ensures Do(Do(TwoIn(e0, e1, p, Return), 0, Go), 0, Go) == Two(e0, e1, p)
  {
    var s1 := Do(TwoIn(e0, e1, p, Return), 0, Go);
    assert s1 == State([e0, e1], [Cpu(Leaving(false), false, 0), p], true, -1);
  }

  /** A call of environment 0 that touches environment 1 only. */
  lemma CalledTwo(e0: Env, e1: Env, p: Cpu, op: Op, e2: Env)
    requires e0.status == Running && !e0.inRecv
    requires Do(TwoIn(e0, e1, p, Dispatch), 0, op) == TwoIn(e0, e2, p, Return)
    ensures Called(Two(e0, e1, p), 0, op) == Two(e0, e2, p)
  {
    EnteredTwo(e0, e1, p);
    ReturnsTwo(e0, e2, p);
  }

  lemma SetStatusTwo(e0: Env, e1: Env, p: Cpu, r: bool)
    requires e0.status == Running && !e0.inRecv && e1.status != Free && e1.parent == e0.id
    ensures Called(Two(e0, e1, p), 0, SetStatus(1, r)) == Two(e0, e1.(status := if r then Runnable else NotRunnable), p)
  {
    CalledTwo(e0, e1, p, SetStatus(1, r), e1.(status := if r then Runnable else NotRunnable));
  }

  lemma DestroyTwo(e0: Env, e1: Env, p: Cpu)
    requires e0.status == Running && !e0.inRecv && e1.status != Free && e1.parent == e0.id
    ensures Called(Two(e0, e1, p), 0, Destroy(1))
            == Two(e0, e1.(status := if e1.status == Running then Dying else Free), p)
  {
    CalledTwo(e0, e1, p, Destroy(1), e1.(status := if e1.status == Running then Dying else Free));
  }

  lemma SendTwo(e0: Env, e1: Env, p: Cpu, v: int)
    requires e0.status == Running && !e0.inRecv && e1.status != Free && e1.recving
    ensures Called(Two(e0, e1, p), 0, Send(1, v))
         == Two(e0, e1.(recving := false, from := e0.id, value := v, status := Runnable), p)
  {
    CalledTwo(e0, e1, p, Send(1, v), e1.(recving := false, from := e0.id, value := v, status := Runnable));
  }

  lemma WokenTwo(e0: Env, w1: Env)
    requires e0.status == Running && w1.status == Runnable
    ensures Woken(Two(e0, w1, HaltedOne())) == Two(e0, w1.(status := Running, inRecv := false), OnOne())
  {
    var p0, r1 := Cpu(User, false, 0), w1.(status := Running, inRecv := false);
    var s2 := Do(Do(Two(e0, w1, HaltedOne()), 1, Trap), 1, Go);
    assert s2 == State([e0, w1], [p0, Cpu(Spin(FromHalt), false, -1)], false, -1);
    var s5 := Do(Do(Do(s2, 1, Go), 1, Go), 1, Yield);
    assert s5 == State([e0, w1], [p0, Cpu(Kernel(Sched), false, -1)], true, 1);
    assert Scan(s5.envs, 0, 0) == Scan(s5.envs, 0, 1) == 1;
    assert Do(s5, 1, Go) == State([e0, r1], [p0, Cpu(Leaving(false), false, 1)], true, -1);
  }

  /** The child of environment 0, as sys_exofork leaves it. */
  ghost function Child(): Env { Env(NextId(0, 1), First().id, NotRunnable, true, false, false, 0, 0) }

  lemma ExoforkTwo(e0: Env, p: Cpu)
    requires e0.status == Running && !e0.inRecv && e0.id == First().id
    ensures Called(Two(e0, Unused(), p), 0, Exofork(1, NextId(0, 1))) == Two(e0, Child(), p)
  {
    CalledTwo(e0, Unused(), p, Exofork(1, NextId(0, 1)), Child());
  }

  /** Parent and child run on the two CPUs. */
  lemma ForkedTwo()
    ensures Forked(Boot2()) == Two(First().(status := Running), Child().(status := Running), OnOne())
    ensures Reached(Boot2(), Forked(Boot2()))
  {
    var s, r0, e1 := Boot2(), First().(status := Running), Child();
    StartedTwo();
    ReachedStarted(s);
    ExoforkTwo(r0, HaltedOne());
    ReachedCalled(s, Two(r0, Unused(), HaltedOne()), 0, Exofork(1, NextId(0, 1)));
    SetStatusTwo(r0, e1, HaltedOne(), true);
    ReachedCalled(s, Two(r0, e1, HaltedOne()), 0, SetStatus(1, true));
    WokenTwo(r0, e1.(status := Runnable));
    ReachedWoken(s, Two(r0, e1.(status := Runnable), HaltedOne()));
  }

  /** Both CPUs run environment 1. */
  ghost predicate Twice(s: State) {
    && |s.cpus| == 2 && s.cpus[0].cur == s.cpus[1].cur == 1
    && s.cpus[0].mode == Leaving(false) && s.cpus[1].mode == User
  }

  lemma YieldedTwice(e0: Env, e1: Env)
    requires e0.status == Running && e1.status == Runnable
    ensures Twice(Yielded(Two(e0, e1, OnOne()), 0))
  {
    EnteredTwo(e0, e1, OnOne());
    var t := TwoIn(e0, e1, OnOne(), Sched);
    assert Do(TwoIn(e0, e1, OnOne(), Dispatch), 0, Yield) == t;
    assert Scan(t.envs, 1, 0) == 1;
  }

  /** From boot, without the guard of sys_env_set_status: environment 0 makes its child runnable
      while CPU 1 runs it, yields, and both CPUs run the child. */
  lemma RunnableRunsTwice()
    ensures Booted(Boot2())
    ensures var s := Yielded(Called(Forked(Boot2()), 0, SetStatus(1, true)), 0);
            Twice(s) && Reached(Boot2(), s)
  {
    Boot2Booted();
    ForkedTwo();
    var e0, e1 := First().(status := Running), Child().(status := Running);
    SetStatusTwo(e0, e1, OnOne(), true);
    ReachedCalled(Boot2(), Two(e0, e1, OnOne()), 0, SetStatus(1, true));
    YieldedTwice(e0, e1.(status := Runnable));
    ReachedYielded(Boot2(), Two(e0, e1.(status := Runnable), OnOne()), 0);
  }

  /** The same where the child is first marked not runnable while it runs; the second call is
      then within its guard. */
  lemma StoppedRunsTwice()
    ensures Booted(Boot2())
    ensures var s := Yielded(Called(Called(Forked(Boot2()), 0, SetStatus(1, false)), 0, SetStatus(1, true)), 0);
            Twice(s) && Reached(Boot2(), s)
  {
    Boot2Booted();
    ForkedTwo();
    var e0, e1 := First().(status := Running), Child().(status := Running);
    SetStatusTwo(e0, e1, OnOne(), false);
    ReachedCalled(Boot2(), Two(e0, e1, OnOne()), 0, SetStatus(1, false));
    SetStatusTwo(e0, e1.(status := NotRunnable), OnOne(), true);
    ReachedCalled(Boot2(), Two(e0, e1.(status := NotRunnable), OnOne()), 0, SetStatus(1, true));
    YieldedTwice(e0, e1.(status := Runnable));
    ReachedYielded(Boot2(), Two(e0, e1.(status := Runnable), OnOne()), 0);
  }

  /** From boot, without the guard of env_destroy: destroyed twice by its parent, the child is
      free while CPU 1 runs it. */
  lemma DestroyedWhileRunning()
    ensures Booted(Boot2())
    ensures var s := Called(Called(Forked(Boot2()), 0, Destroy(1)), 0, Destroy(1));
            && Reached(Boot2(), s) && |s.cpus| == 2 && s.cpus[1] == OnOne() && StatusOf(s, 1) == Free
  {
    Boot2Booted();
    ForkedTwo();
    var e0, e1 := First().(status := Running), Child().(status := Running);
    DestroyTwo(e0, e1, OnOne());
    ReachedCalled(Boot2(), Two(e0, e1, OnOne()), 0, Destroy(1));
    DestroyTwo(e0, e1.(status := Dying), OnOne());
    ReachedCalled(Boot2(), Two(e0, e1.(status := Dying), OnOne()), 0, Destroy(1));
  }

  // ---------- A receiver that is made runnable ----------

  /** Environment 1 calls sys_ipc_recv and CPU 1 halts. */
  ghost function Received(s: State): State { Do(Do(Do(Entered(s, 1), 1, Receive), 1, Go), 1, Go) }

  lemma ReachedReceived(s: State, t: State)
    requires Reached(s, t)
    ensures Reached(s, Received(t))
  {
    ReachedEntered(s, t, 1);
    ReachedStep(s, Entered(t, 1), 1, Receive);
    ReachedStep(s, Do(Entered(t, 1), 1, Receive), 1, Go);
    ReachedStep(s, Do(Do(Entered(t, 1), 1, Receive), 1, Go), 1, Go);
  }

  ghost function Waits(e: Env): Env { e.(recving := true, inRecv := true, status := NotRunnable) }

  lemma ReceivedTwo(e0: Env, e1: Env)
    requires e0.status == Running && e0.user && e1.status == Running
    ensures Received(Two(e0, e1, OnOne())) == Two(e0, Waits(e1), HaltedOne())
  {
    EnteredOne(e0, e1);
    var s5 := State([e0, e1], [Cpu(User, false, 0), Cpu(Kernel(Dispatch), false, 1)], true, 1);
    var s6 := State([e0, Waits(e1)], [Cpu(User, false, 0), Cpu(Kernel(Sched), false, 1)], true, 1);
    assert Do(s5, 1, Receive) == s6;
    HaltsTwo(e0, Waits(e1));
  }

  lemma EnteredOne(e0: Env, e1: Env)
    requires e1.status == Running
    ensures Entered(Two(e0, e1, OnOne()), 1)
         == State([e0, e1], [Cpu(User, false, 0), Cpu(Kernel(Dispatch), false, 1)], true, 1)
  {
    var p0 := Cpu(User, false, 0);
    var s2 := Do(Do(Two(e0, e1, OnOne()), 1, Trap), 1, Go);
    assert s2 == State([e0, e1], [p0, Cpu(Spin(FromUser), false, 1)], false, -1);
    var s4 := Do(Do(s2, 1, Go), 1, Go);
    assert s4 == State([e0, e1], [p0, Cpu(Kernel(Entry), false, 1)], true, 1);
  }

  lemma HaltsTwo(e0: Env, w1: Env)
    requires e0.status == Running && e0.user && w1.status == NotRunnable
    ensures Do(Do(State([e0, w1], [Cpu(User, false, 0), Cpu(Kernel(Sched), false, 1)], true, 1), 1, Go), 1, Go)
         == Two(e0, w1, HaltedOne())
  {
    var s6 := State([e0, w1], [Cpu(User, false, 0), Cpu(Kernel(Sched), false, 1)], true, 1);
    assert Scan(s6.envs, 2, 2) == -1 && Scan(s6.envs, 2, 1) == -1 && Scan(s6.envs, 2, 0) == -1;
    assert s6.envs[0].user;
    assert Do(s6, 1, Go) == State([e0, w1], [Cpu(User, false, 0), Cpu(Leaving(true), true, -1)], true, -1);
  }

  /** From boot: the child waits for a message, is made runnable by its parent all the same, runs
      on CPU 1, and a message to it makes it runnable while it runs; both CPUs run it. */
  lemma ReceiverRunsTwice(v: int)
    ensures Booted(Boot2())
    ensures var s := Woken(Called(Received(Forked(Boot2())), 0, SetStatus(1, true)));
            var t := Yielded(Called(s, 0, Send(1, v)), 0);
            Twice(t) && Reached(Boot2(), t)
  {
    Boot2Booted();
    ForkedTwo();
    var e0, e1 := First().(status := Running), Child().(status := Running);
    var w1 := Waits(e1);
    ReceivedTwo(e0, e1);
    ReachedReceived(Boot2(), Two(e0, e1, OnOne()));
    SetStatusTwo(e0, w1, HaltedOne(), true);
    ReachedCalled(Boot2(), Two(e0, w1, HaltedOne()), 0, SetStatus(1, true));
    var r1 := w1.(status := Running, inRecv := false);
    WokenTwo(e0, w1.(status := Runnable));
    ReachedWoken(Boot2(), Two(e0, w1.(status := Runnable), HaltedOne()));
    SendTwo(e0, r1, OnOne(), v);
    ReachedCalled(Boot2(), Two(e0, r1, OnOne()), 0, Send(1, v));
    var m1 := r1.(recving := false, from := e0.id, value := v, status := Runnable);
    YieldedTwice(e0, m1);
    ReachedYielded(Boot2(), Two(e0, m1, OnOne()), 0);
  }
}
