/** The choice of the next environment (`kern/sched.c`) and its fairness. */
module Scheduler {

  datatype Status = Free | Dying | Runnable | Running | NotRunnable

  /** The fields of `struct Env` that scheduling and IPC use.  `inRecv` says that the saved
      registers are those of a call to sys_ipc_recv that has not returned yet. */
  datatype Env = Env(id: int, parent: int, status: Status, user: bool, recving: bool, inRecv: bool,
                     from: int, value: int)

  /** The first runnable environment among places j, j + 1, ... of the circular order that
      begins at `start`; -1 if there is none. */
  function Scan(envs: seq<Env>, start: int, j: int): int
    requires |envs| > 0 && 0 <= j <= |envs|
    decreases |envs| - j
  {
    if j == |envs| then -1
    else if envs[(start + j) % |envs|].status == Runnable then (start + j) % |envs|
    else Scan(envs, start, j + 1)
  }

  /** Where the search starts: after the current environment, or at 0 without one. */
  function Start(cur: int): int { if cur < 0 then 0 else cur + 1 }

  /** The runnable environment that sched_yield picks, or -1. */
  function NextEnv(envs: seq<Env>, cur: int): int {
    if envs == [] then -1 else Scan(envs, Start(cur), 0)
  }

  /** The search loop of sched_yield: the nearest runnable environment after the current one, or
      -1 if none is runnable. */
  method FindRunnable(envs: seq<Env>, cur: int) returns (i: int)
    requires -1 <= cur < |envs|
    ensures i == NextEnv(envs, cur)
    ensures if NoneRunnable(envs) then i == -1 else Nearest(envs, if cur == -1 then 0 else cur + 1, i)
  {
    NextEnvSound(envs, cur);
    var start := 0;
    if cur != -1 {
      start := cur + 1;
    }
    var j := 0;
    while j < |envs|
      invariant 0 <= j <= |envs|
      invariant envs != [] ==> Scan(envs, start, 0) == Scan(envs, start, j)
    {
      i := (start + j) % |envs|;
      if envs[i].status == Runnable {
        return;
      }
      j := j + 1;
    }
    i := -1;
  }

  /** How many environments the search passes before it comes to `i`. */
  function Distance(n: int, start: int, i: int): (d: int)
    requires 0 <= start <= n && 0 <= i < n
    ensures 0 <= d < n
  {
    if i >= start then i - start else i - start + n
  }

  /** `i` is the runnable environment that a search from `start` comes to first. */
  ghost predicate Nearest(envs: seq<Env>, start: int, i: int) {
    && 0 <= start <= |envs| && 0 <= i < |envs| && envs[i].status == Runnable
    && forall e {:trigger envs[e]} :: 0 <= e < |envs| && envs[e].status == Runnable ==>
         Distance(|envs|, start, i) <= Distance(|envs|, start, e)
  }

  ghost predicate NoneRunnable(envs: seq<Env>) {
    forall e {:trigger envs[e]} :: 0 <= e < |envs| ==> envs[e].status != Runnable
  }

  /** Place `j` of the circular order is at distance `j`, and each environment is at the place
      of its distance. */
  lemma Places(n: int, start: int, j: int)
    requires 0 <= start <= n && 0 <= j < n
    ensures 0 <= (start + j) % n < n && Distance(n, start, (start + j) % n) == j
    ensures (start + Distance(n, start, j)) % n == j
  {
    Wraps(n, start + j);
    Wraps(n, start + Distance(n, start, j));
  }

  lemma Wraps(n: int, x: int)
    requires 0 <= x < 2 * n
    ensures x % n == if x < n then x else x - n
  {
    if x >= n {
      assert x == 1 * n + (x - n);
    }
  }

  /** The search finds the nearest runnable environment, and fails only if there is none. */
  lemma {:induction false} ScanNearest(envs: seq<Env>, start: int, j: int, e: int)
    requires 0 <= j <= |envs| && 0 <= e < |envs| && 0 <= start <= |envs| && envs[e].status == Runnable
             && j <= Distance(|envs|, start, e)
    ensures var i := Scan(envs, start, j);
            0 <= i < |envs| && envs[i].status == Runnable && Distance(|envs|, start, i) <= Distance(|envs|, start, e)
    decreases |envs| - j
  {
    var n := |envs|;
    Places(n, start, j);
    if envs[(start + j) % n].status != Runnable {
      Places(n, start, e);
      ScanNearest(envs, start, j + 1, e);
    }
  }

  lemma {:induction false} ScanRunnable(envs: seq<Env>, start: int, j: int)
    requires |envs| > 0 && 0 <= j <= |envs|
    ensures var i := Scan(envs, start, j); i == -1 || (0 <= i < |envs| && envs[i].status == Runnable)
    decreases |envs| - j
  {
    if j < |envs| {
      ScanRunnable(envs, start, j + 1);
    }
  }

  /** What sched_yield does: the nearest runnable environment after the current one runs; if
      none is runnable the current one goes on if it can; else the CPU halts. */
  lemma NextEnvSound(envs: seq<Env>, cur: int)
    requires -1 <= cur < |envs|
    ensures var i := NextEnv(envs, cur); i == -1 || (0 <= i < |envs| && envs[i].status == Runnable)
    ensures forall e {:trigger envs[e]} :: 0 <= e < |envs| && envs[e].status == Runnable ==>
      NextEnv(envs, cur) != -1 && Distance(|envs|, Start(cur), NextEnv(envs, cur)) <= Distance(|envs|, Start(cur), e)
    ensures if NoneRunnable(envs) then NextEnv(envs, cur) == -1
            else Nearest(envs, if cur == -1 then 0 else cur + 1, NextEnv(envs, cur))
  {
    if envs != [] {
      ScanRunnable(envs, Start(cur), 0);
      forall e {:trigger envs[e]} | 0 <= e < |envs| && envs[e].status == Runnable
        ensures NextEnv(envs, cur) != -1
                && Distance(|envs|, Start(cur), NextEnv(envs, cur)) <= Distance(|envs|, Start(cur), e)
      {
        ScanNearest(envs, Start(cur), 0, e);
      }
    }
  }

  // ---------- Fairness ----------

  /** Passing over `e` for another environment brings the search closer to `e`. */
  lemma CloserNext(n: int, start: int, next: int, e: int)
    requires 0 <= start <= n && 0 <= next < n && 0 <= e < n
    requires Distance(n, start, next) <= Distance(n, start, e) && next != e
    ensures Distance(n, next + 1, e) < Distance(n, start, e)
  {
  }
}
