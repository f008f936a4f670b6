/** Message passing (`kern/syscall.c`): what environments receive is what was sent to them. */
module Ipc {
  import opened Scheduler
  import opened Machine

  datatype Message = Message(from: int, value: int)

  /** Action `a` is a system call of the environment that is current on its CPU. */
  ghost predicate Calls(t: State, a: Action) {
    && 0 <= a.c < |t.cpus| && t.cpus[a.c].mode == Kernel(Dispatch) && 0 <= t.cpus[a.c].cur < |t.envs|
  }

  /** The action creates environment `e`. */
  ghost predicate Creates(t: State, a: Action, e: int) {
    Calls(t, a) && a.op.Exofork? && a.op.i == e && StatusOf(t, e) == Free
  }

  /** The action sends to `e`, successfully. */
  ghost predicate Sends(t: State, a: Action, e: int) {
    Calls(t, a) && a.op.Send? && a.op.i == e && Delivers(t, e)
  }

  /** The action is a call to sys_ipc_recv by `e`. */
  ghost predicate Receives(t: State, a: Action, e: int) {
    Calls(t, a) && a.op.Receive? && t.cpus[a.c].cur == e
  }

  /** A call to sys_ipc_recv by `e` returns to user mode. */
  ghost predicate Returns(t: State, a: Action, e: int)
    requires 0 <= e < |t.envs|
  {
    t.envs[e].inRecv && !Do(t, a.c, a.op).envs[e].inRecv
  }

  /** The logs of an environment since it was created: messages sent to it, messages it found
      in its fields when a receive returned, and the number of its receives. */
  datatype Log = Log(sent: seq<Message>, got: seq<Message>, recvs: int)

  ghost function Next(t: State, a: Action, e: int, log: Log): Log
    requires 0 <= e < |t.envs|
  {
    var after := Do(t, a.c, a.op).envs[e];
    if Creates(t, a, e) then Log([], [], 0)
    else if Sends(t, a, e) then log.(sent := log.sent + [Message(t.envs[t.cpus[a.c].cur].id, a.op.value)])
    else if Receives(t, a, e) then log.(recvs := log.recvs + 1)
    else if Returns(t, a, e) then log.(got := log.got + [Message(after.from, after.value)])
    else log
  }

  lemma {:induction false} SameEnvCount(s: State, acts: seq<Action>)
    ensures |Run(s, acts).envs| == |s.envs|
  {
    if acts != [] { SameEnvCount(s, acts[..|acts| - 1]); }
  }

  ghost function LogOf(s: State, acts: seq<Action>, e: int): Log
    requires 0 <= e < |s.envs|
  {
    if acts == [] then Log([], [], 0)
    else
      var n := |acts| - 1;
      SameEnvCount(s, acts[..n]);
      Next(Run(s, acts[..n]), acts[n], e, LogOf(s, acts[..n], e))
  }

  /** The message that was delivered and not read yet. */
  function Unread(v: Env): seq<Message> {
    if v.inRecv && !v.recving then [Message(v.from, v.value)] else []
  }

  ghost predicate LogOk(v: Env, log: Log) {
    && log.sent == log.got + Unread(v)
    && log.recvs == |log.sent| + (if v.recving then 1 else 0)
    && (v.recving ==> v.inRecv) && (Alive(v.status) ==> !v.inRecv)
  }

  /** How the CPU's own steps change an environment. */
  lemma AdvanceEnv(t: State, c: int, e: int)
    requires Inv(t) && 0 <= c < |t.cpus| && 0 <= e < |t.envs|
    ensures var v, w := t.envs[e], Advance(t, c).envs[e];
            || w == v
            || (w == v.(status := w.status) && !Alive(w.status))
            || (w == v.(status := Running, inRecv := false) && (v.status == Runnable || v.status == Running))
  {
    assert CpuAt(t, c);
    NextEnvSound(t.envs, t.cpus[c].cur);
  }

  lemma NextOk(t: State, a: Action, e: int, log: Log)
    requires Inv(t) && Guard(t, a.c, a.op) && 0 <= e < |t.envs| && LogOk(t.envs[e], log)
    ensures LogOk(Do(t, a.c, a.op).envs[e], Next(t, a, e, log))
  {
    assert EnvAt(t, e);
    if 0 <= a.c < |t.cpus| {
      assert CpuAt(t, a.c);
      if a.op == Go {
        AdvanceEnv(t, a.c, e);
      } else if Calls(t, a) && a.op != Trap && a.op != Nothing && a.op != Yield {
        CallOk(t, a, e, log);
      }
    }
  }

  lemma CallOk(t: State, a: Action, e: int, log: Log)
    requires Inv(t) && Guard(t, a.c, a.op) && 0 <= e < |t.envs| && LogOk(t.envs[e], log)
    requires Calls(t, a) && a.op != Go && a.op != Trap && a.op != Nothing && a.op != Yield
    ensures LogOk(Do(t, a.c, a.op).envs[e], Next(t, a, e, log))
  {
    assert EnvAt(t, e) && CpuAt(t, a.c);
    var v, w := t.envs[e], Do(t, a.c, a.op).envs[e];
    if Sends(t, a, e) {
      assert Unread(v) == [] && log.got + [] == log.got;
    } else if Receives(t, a, e) {
      assert Unread(v) == [] == Unread(w);
    } else if !Creates(t, a, e) {
      assert w == v.(status := w.status);
    }
  }

  lemma {:induction false} LogsOk(s: State, acts: seq<Action>, e: int)
    requires Booted(s) && Guarded(s, acts) && 0 <= e < |s.envs|
    ensures |Run(s, acts).envs| == |s.envs| && LogOk(Run(s, acts).envs[e], LogOf(s, acts, e))
  {
    SameEnvCount(s, acts);
    if acts == [] {
      assert s.envs[e].status == Free || s.envs[e].status == Runnable;
    } else {
      var n := |acts| - 1;
      PrefixGuarded(s, acts, n);
      LogsOk(s, acts[..n], e);
      RunInv(s, acts[..n]);
      assert GuardAt(s, acts, n);
      NextOk(Run(s, acts[..n]), acts[n], e, LogOf(s, acts[..n], e));
    }
  }

  /** In every run, the messages an environment has received are, in order, the messages that
      were successfully sent to it, save at most one that it has not read yet; and each
      receive but the last is matched by exactly one send, the last one too unless it still
      waits. */
  lemma ReceivedIsSent(s: State, acts: seq<Action>, e: int)
    requires Booted(s) && Guarded(s, acts) && 0 <= e < |s.envs|
    ensures var log := LogOf(s, acts, e);
            && log.got <= log.sent && |log.sent| <= |log.got| + 1
            && |log.sent| <= log.recvs <= |log.sent| + 1
    ensures |Run(s, acts).envs| == |s.envs|
    ensures Alive(Run(s, acts).envs[e].status) ==>
            LogOf(s, acts, e).got == LogOf(s, acts, e).sent && LogOf(s, acts, e).recvs == |LogOf(s, acts, e).got|
  {
    LogsOk(s, acts, e);
    RunInv(s, acts);
    assert EnvAt(Run(s, acts), e);
  }

  // ---------- Failed sends and delivered fields ----------

  /** The action is a send that fails. */
  ghost predicate Fails(t: State, a: Action) {
    Calls(t, a) && a.op.Send? && !Delivers(t, a.op.i)
  }

  /** The run with every send that fails left out: the call does nothing but return. */
  ghost function Silenced(s: State, acts: seq<Action>): (r: seq<Action>)
    ensures |r| == |acts|
  {
    if acts == [] then []
    else
      var n := |acts| - 1;
      Silenced(s, acts[..n]) + [if Fails(Run(s, acts[..n]), acts[n]) then Action(acts[n].c, Nothing) else acts[n]]
  }

  /** Failed sends change nothing: without them a run goes through the same states, and every
      environment has sent and received the same messages. */
  lemma {:induction false} FailedSendsVanish(s: State, acts: seq<Action>, e: int)
    requires 0 <= e < |s.envs|
    ensures Run(s, Silenced(s, acts)) == Run(s, acts)
    ensures LogOf(s, Silenced(s, acts), e) == LogOf(s, acts, e)
  {
    if acts != [] {
      var n := |acts| - 1;
      FailedSendsVanish(s, acts[..n], e);
      SameEnvCount(s, acts[..n]);
      assert Silenced(s, acts)[..n] == Silenced(s, acts[..n]);
      if Fails(Run(s, acts[..n]), acts[n]) { FailedNext(Run(s, acts[..n]), acts[n], e, LogOf(s, acts[..n], e)); }
    }
  }

  lemma FailedNext(t: State, a: Action, e: int, log: Log)
    requires 0 <= e < |t.envs| && Fails(t, a)
    ensures Do(t, a.c, Nothing) == Do(t, a.c, a.op) && Next(t, Action(a.c, Nothing), e, log) == Next(t, a, e, log)
  {
  }

  /** What decides a send, by the history of the target alone: it succeeds exactly if the target
      exists and one receive of it was not answered by a send yet. */
  lemma SendExact(s: State, acts: seq<Action>, e: int)
    requires Booted(s) && Guarded(s, acts) && 0 <= e < |s.envs|
    ensures Delivers(Run(s, acts), e) <==>
            StatusOf(Run(s, acts), e) != Free && LogOf(s, acts, e).recvs > |LogOf(s, acts, e).sent|
  {
    LogsOk(s, acts, e);
  }

  /** No action of the run from place `m` on is a receive by `e`. */
  ghost predicate QuietAt(s: State, acts: seq<Action>, m: int, e: int, k: int) {
    m <= k < |acts| && 0 <= k ==> !Receives(Run(s, acts[..k]), acts[k], e)
  }

  lemma FieldsStep(t: State, a: Action, e: int)
    requires Inv(t) && Guard(t, a.c, a.op) && 0 <= e < |t.envs| && !t.envs[e].recving && !Receives(t, a, e)
    ensures var v, w := t.envs[e], Do(t, a.c, a.op).envs[e]; w.from == v.from && w.value == v.value && !w.recving
  {
    if 0 <= a.c < |t.cpus| && a.op == Go { AdvanceEnv(t, a.c, e); }
  }

  /** Once delivered, a message stays in the fields of the receiver until its next receive,
      over any stretch of any run. */
  lemma {:induction false} FieldsStay(s: State, acts: seq<Action>, m: int, e: int)
    requires Booted(s) && Guarded(s, acts) && 0 <= e < |s.envs| && 0 <= m <= |acts|
    requires |Run(s, acts[..m]).envs| == |s.envs| && !Run(s, acts[..m]).envs[e].recving
    requires forall k {:trigger QuietAt(s, acts, m, e, k)} :: QuietAt(s, acts, m, e, k)
    ensures |Run(s, acts).envs| == |s.envs|
    ensures var v, w := Run(s, acts[..m]).envs[e], Run(s, acts).envs[e];
            w.from == v.from && w.value == v.value && !w.recving
  {
    SameEnvCount(s, acts);
    if m == |acts| {
      assert acts[..m] == acts;
    } else {
      var n := |acts| - 1;
      PrefixGuarded(s, acts, n);
      assert acts[..n][..m] == acts[..m];
      forall k {:trigger QuietAt(s, acts[..n], m, e, k)} | true
        ensures QuietAt(s, acts[..n], m, e, k)
      {
        assert QuietAt(s, acts, m, e, k);
        if 0 <= k < n { assert acts[..n][..k] == acts[..k]; }
      }
      FieldsStay(s, acts[..n], m, e);
      RunInv(s, acts[..n]);
      assert GuardAt(s, acts, n) && QuietAt(s, acts, m, e, n);
      FieldsStep(Run(s, acts[..n]), acts[n], e);
    }
  }
}
