/** Round robin over whole runs of the machine: how long an environment that stays runnable waits
    until a CPU runs it (`kern/sched.c`).

    The stretch of a run that counts goes from its step `i` to its end.
 */
module Fairness {
  import opened EnvIds
  import opened Scheduler
  import opened Machine

  /** CPU `c` chooses what to run next. */
  predicate Turn(t: State, c: int, a: Action) {
    a == Action(c, Go) && 0 <= c < |t.cpus| && t.cpus[c].mode == Kernel(Sched)
  }

  /** CPU `c` loses its current environment. */
  predicate Drop(t: State, c: int, a: Action) {
    0 <= c < |t.cpus| && t.cpus[c].cur != -1 && Do(t, a.c, a.op).cpus[c].cur == -1
  }

  /** How often CPU `c` schedules. */
  ghost function Turns(s: State, acts: seq<Action>, c: int, i: nat): int {
    if |acts| <= i then 0
    else var n := |acts| - 1;
      Turns(s, acts[..n], c, i) + if Turn(Run(s, acts[..n]), c, acts[n]) then 1 else 0
  }

  ghost function Drops(s: State, acts: seq<Action>, c: int, i: nat): int {
    if |acts| <= i then 0
    else var n := |acts| - 1;
      Drops(s, acts[..n], c, i) + if Drop(Run(s, acts[..n]), c, acts[n]) then 1 else 0
  }

  /** At one of its turns CPU `c` switched to `e`. */
  ghost predicate Served(s: State, acts: seq<Action>, c: int, e: int, i: nat) {
    && |acts| > i
    && var n := |acts| - 1;
       || Served(s, acts[..n], c, e, i)
       || (Turn(Run(s, acts[..n]), c, acts[n]) && Run(s, acts).cpus[c].cur == e)
  }

  /** Until it is served, `e` is runnable whenever CPU `c` schedules. */
  ghost predicate Ready(s: State, acts: seq<Action>, c: int, e: int, i: nat) {
    |acts| > i ==>
      var n := |acts| - 1;
      && Ready(s, acts[..n], c, e, i)
      && (Turn(Run(s, acts[..n]), c, acts[n]) && !Served(s, acts[..n], c, e, i) ==>
            StatusOf(Run(s, acts[..n]), e) == Runnable)
  }

  lemma {:induction false} RunSizes(s: State, acts: seq<Action>)
    ensures |Run(s, acts).envs| == |s.envs| && |Run(s, acts).cpus| == |s.cpus|
  {
    if acts != [] { RunSizes(s, acts[..|acts| - 1]); }
  }

  /** Between its turns a CPU keeps its current environment or loses it. */
  lemma KeepsOrDrops(t: State, c: int, a: Action)
    requires 0 <= c < |t.cpus| && !Turn(t, c, a)
    ensures Do(t, a.c, a.op).cpus[c].cur == t.cpus[c].cur || Do(t, a.c, a.op).cpus[c].cur == -1
  {
    if 0 <= a.c < |t.cpus| {
      if a.op == Go {
        AdvanceKeeps(t, a.c, c);
      } else if a.op != Trap && a.op != Nothing && a.op != Yield && 0 <= t.cpus[a.c].cur < |t.envs| {
        CallKeeps(t, a.c, a.op, c);
      }
    }
  }

  lemma AdvanceKeeps(t: State, d: int, c: int)
    requires 0 <= d < |t.cpus| && 0 <= c < |t.cpus| && (c == d ==> t.cpus[c].mode != Kernel(Sched))
    ensures Advance(t, d).cpus[c].cur == t.cpus[c].cur || Advance(t, d).cpus[c].cur == -1
  {
    if c != d { AdvanceOther(t, d, c); }
  }

  lemma AdvanceOther(t: State, d: int, c: int)
    requires 0 <= d < |t.cpus| && 0 <= c < |t.cpus| && c != d
    ensures Advance(t, d).cpus[c] == t.cpus[c]
  {
    match t.cpus[d].mode
    case Kernel(phase) =>
      if phase == Sched {
        assert Schedule(t, d).cpus[c] == t.cpus[c];
      }
    case _ =>
  }

  lemma CallKeeps(t: State, d: int, op: Op, c: int)
    requires 0 <= d < |t.cpus| && 0 <= c < |t.cpus| && 0 <= t.cpus[d].cur < |t.envs|
    ensures var u := Call(t, d, t.cpus[d].cur, op); u.cpus[c].cur == t.cpus[c].cur || u.cpus[c].cur == -1
  {
  }

  /** A turn that passes over a runnable environment brings the search closer to it. */
  lemma TurnCloser(t: State, c: int, a: Action, e: int)
    requires Inv(t) && Turn(t, c, a) && StatusOf(t, e) == Runnable && Do(t, a.c, a.op).cpus[c].cur != e
    ensures var next := Do(t, a.c, a.op).cpus[c].cur;
            && 0 <= next < |t.envs| && -1 <= t.cpus[c].cur < |t.envs|
            && Distance(|t.envs|, Start(next), e) < Distance(|t.envs|, Start(t.cpus[c].cur), e)
  {
    assert CpuAt(t, c);
    SchedulesInOrder(t, c);
    CloserNext(|t.envs|, Start(t.cpus[c].cur), Do(t, a.c, a.op).cpus[c].cur, e);
  }

  /** Each turn uses up one place of the round to `e`; each loss of the current environment
      starts the round again from slot 0. */
  lemma {:induction false} WaitBounded(s: State, acts: seq<Action>, c: int, e: int, i: nat)
    requires Booted(s) && Guarded(s, acts) && i <= |acts| && 0 <= c < |s.cpus| && 0 <= e < |s.envs|
    requires Ready(s, acts, c, e, i) && !Served(s, acts, c, e, i)
    ensures var t := Run(s, acts);
            && |t.cpus| == |s.cpus| && -1 <= t.cpus[c].cur < |s.envs|
            && Turns(s, acts, c, i) + Distance(|s.envs|, Start(t.cpus[c].cur), e)
               < |s.envs| * (1 + Drops(s, acts, c, i))
  {
    RunSizes(s, acts);
    RunInv(s, acts);
    assert CpuAt(Run(s, acts), c);
    if |acts| > i {
      var n := |acts| - 1;
      PrefixGuarded(s, acts, n);
      WaitBounded(s, acts[..n], c, e, i);
      var t, a, d := Run(s, acts[..n]), acts[n], Drops(s, acts[..n], c, i);
      RunSizes(s, acts[..n]);
      RunInv(s, acts[..n]);
      if Turn(t, c, a) {
        TurnCloser(t, c, a, e);
      } else {
        KeepsOrDrops(t, c, a);
      }
      assert |s.envs| * (1 + (d + 1)) == |s.envs| * (1 + d) + |s.envs|;
    }
  }

  /** On every run, an environment that stays runnable until CPU `c` runs it is run by CPU `c`
      within as many of its turns as there are environments, unless the CPU loses its current
      environment meanwhile; for each such loss the bound grows by as much again. */
  lemma ServedInTime(s: State, acts: seq<Action>, c: int, e: int, i: nat)
    requires Booted(s) && Guarded(s, acts) && i <= |acts| && 0 <= c < |s.cpus| && 0 <= e < |s.envs|
    requires Ready(s, acts, c, e, i) && Turns(s, acts, c, i) >= |s.envs| * (1 + Drops(s, acts, c, i))
    ensures Served(s, acts, c, e, i)
  {
    if !Served(s, acts, c, e, i) { WaitBounded(s, acts, c, e, i); }
  }

  // ---------- A CPU that keeps losing its environment never comes to slot 2 ----------

  /** One CPU, with a program in slot 0 and one in slot 2. */
  ghost function Boot1(): State {
    State([Env(NextId(0, 0), 0, Runnable, true, false, false, 0, 0), Env(0, 0, Free, false, false, false, 0, 0),
           Env(NextId(0, 2), 0, Runnable, true, false, false, 0, 0)], [Cpu(Kernel(Sched), false, -1)], true, 0)
  }

  ghost predicate PassedBy(t: State) {
    |t.envs| == 3 && |t.cpus| == 1 && t.envs[2].status == Runnable && t.cpus[0].cur != 2
  }

  /** A guarded run on which slot 2 is always runnable and never current. */
  ghost predicate Starved(s: State, acts: seq<Action>) {
    && PassedBy(Run(s, acts))
    && (acts != [] ==>
          var n := |acts| - 1; Starved(s, acts[..n]) && Guard(Run(s, acts[..n]), acts[n].c, acts[n].op))
  }

  lemma {:induction false} StarvedMeans(s: State, acts: seq<Action>)
    requires Starved(s, acts)
    ensures Guarded(s, acts) && Ready(s, acts, 0, 2, 0) && !Served(s, acts, 0, 2, 0)
  {
    if acts != [] {
      var n := |acts| - 1;
      StarvedMeans(s, acts[..n]);
      forall k {:trigger GuardAt(s, acts, k)} | true
        ensures GuardAt(s, acts, k)
      {
        assert GuardAt(s, acts[..n], k);
        if 0 <= k < n { assert acts[..n][..k] == acts[..k]; }
      }
    }
  }

  /** The machine with its one CPU. */
  ghost function One(envs: seq<Env>, m: Mode, cur: int, locked: bool, owner: int): State {
    State(envs, [Cpu(m, false, cur)], locked, owner)
  }

  /** The run goes on by one step of the CPU, to state `t`. */
  lemma Onward(s: State, acts: seq<Action>, op: Op, t: State) returns (more: seq<Action>)
    requires Starved(s, acts) && Guard(Run(s, acts), 0, op) && Do(Run(s, acts), 0, op) == t && PassedBy(t)
    ensures Run(s, more) == t && Starved(s, more)
    ensures Turns(s, more, 0, 0) == Turns(s, acts, 0, 0) + if Turn(Run(s, acts), 0, Action(0, op)) then 1 else 0
  {
    more := acts + [Action(0, op)];
    assert more[..|acts|] == acts;
  }

  /** The CPU runs the environment in slot `me`, one of the first two, in user mode. */
  ghost predicate InUser(t: State, me: int) {
    PassedBy(t) && 0 <= me <= 1 && t.envs[me].status == Running && t == One(t.envs, User, me, false, -1)
  }

  lemma TrapSteps(envs: seq<Env>, me: int)
    requires 0 <= me < |envs| && envs[me].status == Running
    ensures Do(One(envs, User, me, false, -1), 0, Trap) == One(envs, Want(FromUser), me, false, -1)
    ensures Do(One(envs, Want(FromUser), me, false, -1), 0, Go) == One(envs, Spin(FromUser), me, false, -1)
    ensures Do(One(envs, Spin(FromUser), me, false, -1), 0, Go) == One(envs, Won(FromUser), me, true, -1)
    ensures Do(One(envs, Won(FromUser), me, true, -1), 0, Go) == One(envs, Kernel(Entry), me, true, 0)
    ensures Do(One(envs, Kernel(Entry), me, true, 0), 0, Go) == One(envs, Kernel(Dispatch), me, true, 0)
  {
  }

  lemma ReturnSteps(envs: seq<Env>, me: int)
    requires 0 <= me < |envs| && envs[me].status == Running
    ensures Do(One(envs, Kernel(Return), me, true, 0), 0, Go)
            == One(envs[me := envs[me].(inRecv := false)], Leaving(false), me, true, -1)
    ensures Do(One(envs, Leaving(false), me, true, -1), 0, Go) == One(envs, User, me, false, -1)
  {
  }

  /** It traps and gets through the lock. */
  lemma Entering(s: State, acts: seq<Action>, envs: seq<Env>, me: int) returns (more: seq<Action>)
    requires Starved(s, acts) && Run(s, acts) == One(envs, User, me, false, -1)
    requires 0 <= me < |envs| && envs[me].status == Running
    ensures Starved(s, more) && Turns(s, more, 0, 0) == Turns(s, acts, 0, 0)
    ensures Run(s, more) == One(envs, Kernel(Dispatch), me, true, 0)
  {
    TrapSteps(envs, me);
    more := Onward(s, acts, Trap, One(envs, Want(FromUser), me, false, -1));
    more := Onward(s, more, Go, One(envs, Spin(FromUser), me, false, -1));
    more := Onward(s, more, Go, One(envs, Won(FromUser), me, true, -1));
    more := Onward(s, more, Go, One(envs, Kernel(Entry), me, true, 0));
    more := Onward(s, more, Go, One(envs, Kernel(Dispatch), me, true, 0));
  }

  /** It makes a system call that changes the other slot to `x`, and returns. */
  lemma Calling(s: State, acts: seq<Action>, me: int, op: Op, x: Env) returns (more: seq<Action>)
    requires Starved(s, acts) && InUser(Run(s, acts), me)
    requires var envs := Run(s, acts).envs;
             && Guard(One(envs, Kernel(Dispatch), me, true, 0), 0, op) && op != Go
             && Do(One(envs, Kernel(Dispatch), me, true, 0), 0, op)
                == One(envs[1 - me := x], Kernel(Return), me, true, 0)
    ensures Starved(s, more) && Turns(s, more, 0, 0) == Turns(s, acts, 0, 0) && InUser(Run(s, more), me)
    ensures Run(s, more).envs == Run(s, acts).envs[1 - me := x][me := Run(s, acts).envs[me].(inRecv := false)]
  {
    var envs := Run(s, acts).envs;
    var envs2 := envs[1 - me := x];
    var envs3 := envs2[me := envs[me].(inRecv := false)];
    more := Entering(s, acts, envs, me);
    more := Onward(s, more, op, One(envs2, Kernel(Return), me, true, 0));
    ReturnSteps(envs2, me);
    more := Onward(s, more, Go, One(envs3, Leaving(false), me, true, -1));
    ReturnSteps(envs3, me);
    more := Onward(s, more, Go, One(envs3, User, me, false, -1));
  }

  lemma ExitSteps(envs: seq<Env>, me: int)
    requires |envs| == 3 && 0 <= me <= 1 && envs[me].status == Running && envs[1 - me].status == Runnable
    ensures var envs2 := envs[me := envs[me].(status := Free)];
            && Do(One(envs, Kernel(Dispatch), me, true, 0), 0, Destroy(me)) == One(envs2, Kernel(Sched), -1, true, 0)
            && Do(One(envs2, Kernel(Sched), -1, true, 0), 0, Go)
               == One(envs2[1 - me := envs[1 - me].(status := Running, inRecv := false)],
                      Leaving(false), 1 - me, true, -1)
  {
    var envs2 := envs[me := envs[me].(status := Free)];
    NextEnvSound(envs2, -1);
    assert envs2[1 - me].status == Runnable;
    assert NextEnv(envs2, -1) == 1 - me;
  }

  /** It exits, and the CPU switches to the other slot, which is runnable. */
  lemma Exiting(s: State, acts: seq<Action>, me: int) returns (more: seq<Action>)
    requires Starved(s, acts) && InUser(Run(s, acts), me) && Run(s, acts).envs[1 - me].status == Runnable
    ensures Starved(s, more) && Turns(s, more, 0, 0) == Turns(s, acts, 0, 0) + 1
    ensures InUser(Run(s, more), 1 - me) && Run(s, more).envs[me].status == Free
  {
    var envs, other := Run(s, acts).envs, 1 - me;
    var envs2 := envs[me := envs[me].(status := Free)];
    var envs3 := envs2[other := envs[other].(status := Running, inRecv := false)];
    more := Entering(s, acts, envs, me);
    ExitSteps(envs, me);
    more := Onward(s, more, Destroy(me), One(envs2, Kernel(Sched), -1, true, 0));
    more := Onward(s, more, Go, One(envs3, Leaving(false), other, true, -1));
    ReturnSteps(envs3, other);
    more := Onward(s, more, Go, One(envs3, User, other, false, -1));
  }

  /** An environment forks a child, starts it and exits. */
  lemma Round(s: State, acts: seq<Action>, me: int) returns (more: seq<Action>)
    requires Starved(s, acts) && InUser(Run(s, acts), me) && Run(s, acts).envs[1 - me].status == Free
    ensures Starved(s, more) && Turns(s, more, 0, 0) == Turns(s, acts, 0, 0) + 1
    ensures InUser(Run(s, more), 1 - me) && Run(s, more).envs[me].status == Free
  {
    var t, child := Run(s, acts), 1 - me;
    var id := NextId(t.envs[child].id, child);
    var x := t.envs[child].(id := id, parent := t.envs[me].id, status := NotRunnable, user := true,
                            recving := false, inRecv := false);
    more := Calling(s, acts, me, Exofork(child, id), x);
    more := Calling(s, more, me, SetStatus(child, true), x.(status := Runnable));
    more := Exiting(s, more, me);
  }

  /** However often the CPU schedules, there is a run on which it has not run slot 2 yet, although
      that was runnable all the time: a chain of programs, each of which forks the next one and
      exits. */
  lemma {:induction false} CanStarve(r: nat) returns (acts: seq<Action>, me: int)
    ensures Booted(Boot1()) && Guarded(Boot1(), acts) && Ready(Boot1(), acts, 0, 2, 0)
    ensures Turns(Boot1(), acts, 0, 0) == r + 1 && !Served(Boot1(), acts, 0, 2, 0)
    ensures Starved(Boot1(), acts) && InUser(Run(Boot1(), acts), me)
    ensures Run(Boot1(), acts).envs[1 - me].status == Free
  {
    var s := Boot1();
    if r == 0 {
      assert Starved(s, []);
      NextEnvSound(s.envs, -1);
      var envs := s.envs[0 := s.envs[0].(status := Running)];
      acts := Onward(s, [], Go, One(envs, Leaving(false), 0, true, -1));
      ReturnSteps(envs, 0);
      acts := Onward(s, acts, Go, One(envs, User, 0, false, -1));
      me := 0;
    } else {
      acts, me := CanStarve(r - 1);
      acts := Round(s, acts, me);
      me := 1 - me;
    }
    StarvedMeans(s, acts);
  }
}
