/** Message passing with pages (`kern/syscall.c`): sys_ipc_recv and sys_ipc_try_send over the
    page tables. */
module Mail {
  import opened PageTables
  import opened EnvIds
  import opened Kernel
  import opened Syscalls

  /** The IPC fields of an environment. */
  datatype Box = Box(recving: bool, dstva: int, from: int, value: int, perm: Bits, runnable: bool)

  datatype Answer = Sent | NoEnv | NotRecv | Bad | Full

  /** An address at which a page is wanted is page-aligned. */
  ghost predicate BoxAt(box: seq<Box>, i: int) {
    0 <= i < |box| ==> 0 <= box[i].dstva && (box[i].dstva < UTOP ==> GoodVa(box[i].dstva))
  }

  class Mailboxes {
    var box: seq<Box>

    ghost predicate Valid()
      reads this
    {
      |box| == 1024 && forall i {:trigger BoxAt(box, i)} :: BoxAt(box, i)
    }
  }

  /** sys_ipc_recv, up to the call of the scheduler. */
  method SysIpcRecv(m: Mailboxes, cur: int, dstva: int) returns (ok: bool)
    requires m.Valid() && 0 <= cur < 1024 && 0 <= dstva
    modifies m
    ensures m.Valid() && ok == (dstva < UTOP ==> dstva % 4096 == 0)
    ensures m.box == if ok then old(m.box)[cur := old(m.box[cur]).(recving := true, dstva := dstva, runnable := false)]
            else old(m.box)
  {
    if dstva < UTOP && dstva % PGSIZE != 0 {
      return false;
    }
    m.box := m.box[cur := m.box[cur].(dstva := dstva, recving := true, runnable := false)];
    forall i {:trigger BoxAt(m.box, i)} | true
      ensures BoxAt(m.box, i)
    {
      assert BoxAt(old(m.box), i);
    }
    ok := true;
  }

  /** The page that a send offers: the mapping of `srcva` in the sender. */
  ghost function Offer(k: Kernel, srcva: int): Entry
    reads k
  {
    Look(k.frames, k.dirs, ByPte(k.cur, PageNum(srcva)))
  }

  /** A page goes over exactly when the sender offers one and the receiver wants one. */
  predicate Transfers(srcva: int, dstva: int) { srcva < UTOP && dstva < UTOP }

  /** What sys_ipc_try_send answers. */
  ghost function SendAnswer(k: Kernel, m: Mailboxes, envid: int, srcva: int, perm: Bits): Answer
    requires 0 <= k.cur < 1024 && |m.box| == 1024
    reads k, m
  {
    var e := Envid2Env(k.slots, k.cur, envid, false);
    if e == -1 then NoEnv
    else if !m.box[e].recving then NotRecv
    else if srcva < UTOP && (!GoodVa(srcva) || !GoodPerm(perm) || !Offer(k, srcva).bits.p
                             || (perm.w && !Offer(k, srcva).bits.w)) then Bad
    else if Transfers(srcva, m.box[e].dstva) && Short(k, e, PageNum(m.box[e].dstva), 0) then Full
    else Sent
  }

  /** What sys_ipc_try_send answers for a target in slot `e` whose fields are `b`. */
  ghost function AnswerTo(frames: Frames, dirs: Dirs, free: seq<int>, cur: int, e: int, b: Box, srcva: int,
                          perm: Bits): Answer {
    var pte := Look(frames, dirs, ByPte(cur, srcva / PGSIZE));
    if !b.recving then NotRecv
    else if srcva >= UTOP then Sent
    else if srcva % PGSIZE != 0 || !perm.u || !perm.p || perm.other != 0 then Bad
    else if !pte.bits.p || (perm.w && !pte.bits.w) then Bad
    else if b.dstva < UTOP && free == [] && Look(frames, dirs, ByPde(e, Pdx(b.dstva / PGSIZE))) == ABSENT then Full
    else Sent
  }

  /** The target is the one that has the id, whoever sends. */
  lemma Answered(k: Kernel, m: Mailboxes, envid: int, srcva: int, perm: Bits)
    requires k.Boundary() && |m.box| == 1024 && 0 <= srcva
    ensures SendAnswer(k, m, envid, srcva, perm) == NoEnv <==>
            envid != 0 && forall e {:trigger k.slots[e]} :: 0 <= e < 1024 ==> k.slots[e].free || k.slots[e].id != envid
    ensures forall e {:trigger Denotes(k.slots, k.cur, envid, false, e)} :: Denotes(k.slots, k.cur, envid, false, e) ==>
              0 <= e < 1024 && SendAnswer(k, m, envid, srcva, perm)
              == AnswerTo(k.frames, k.dirs, k.free, k.cur, e, m.box[e], srcva, perm)
  {
    BoundaryNamed(k);
    LookupExact(k.slots, k.cur, envid, false, -1);
    forall e {:trigger k.slots[e]} | 0 <= e < 1024 && !k.slots[e].free && k.slots[e].id == envid
      ensures Envid2Env(k.slots, k.cur, envid, false) != -1
    {
      assert Denotes(k.slots, k.cur, envid, false, e) || envid == 0;
    }
    forall e {:trigger Denotes(k.slots, k.cur, envid, false, e)} | Denotes(k.slots, k.cur, envid, false, e)
      ensures Envid2Env(k.slots, k.cur, envid, false) == e && 0 <= e < 1024
    {
      LookupExact(k.slots, k.cur, envid, false, e);
    }
  }

  /** sys_ipc_try_send.  A failed send changes nothing; a successful one completes the receive
      and maps the page where both sides agree on one, and nowhere else. */
  method SysIpcTrySend(k: Kernel, m: Mailboxes, envid: int, value: int, srcva: int, perm: Bits) returns (r: Answer)
    requires k.Boundary() && RoomAt(k.refs, Offer(k, srcva).page) && m.Valid() && 0 <= srcva
    modifies m, k`ppRef, k`link, k`head, k`frames, k`free, k`held, k`refs
    ensures k.Boundary() && m.Valid() && r == old(SendAnswer(k, m, envid, srcva, perm))
    ensures r == NoEnv <==>
            envid != 0 && forall e {:trigger k.slots[e]} :: 0 <= e < 1024 ==> k.slots[e].free || k.slots[e].id != envid
    ensures forall e {:trigger Denotes(k.slots, k.cur, envid, false, e)} :: Denotes(k.slots, k.cur, envid, false, e) ==>
              0 <= e < |old(m.box)|
              && r == AnswerTo(old(k.frames), k.dirs, old(k.free), k.cur, e, old(m.box)[e], srcva, perm)
    ensures r != Sent ==> m.box == old(m.box) && k.frames == old(k.frames) && k.free == old(k.free)
    ensures Kept(old(k.frames), k.dirs, old(k.free), k.frames) && Grows(old(k.refs), k.refs, 1)
    ensures r == Sent ==>
              var e := Envid2Env(k.slots, k.cur, envid, false);
              var b := old(m.box[e]);
              && m.box == old(m.box)[e := b.(
                   recving := false, from := k.slots[k.cur].id, value := value, runnable := true,
                   perm := if srcva >= UTOP then NO_BITS else if b.dstva < UTOP then perm else b.perm)]
              && (if Transfers(srcva, b.dstva)
                  then MapsOnly(old(k.frames), k.dirs, k.frames, e, PageNum(b.dstva),
                                Entry(old(Offer(k, srcva)).page, perm))
                  else k.frames == old(k.frames))
  {
    Answered(k, m, envid, srcva, perm);
    r := TrySend(k, m, envid, value, srcva, perm);
  }

  method TrySend(k: Kernel, m: Mailboxes, envid: int, value: int, srcva: int, perm: Bits) returns (r: Answer)
    requires k.Boundary() && RoomAt(k.refs, Offer(k, srcva).page) && m.Valid() && 0 <= srcva
    modifies m, k`ppRef, k`link, k`head, k`frames, k`free, k`held, k`refs
    ensures k.Boundary() && m.Valid() && r == old(SendAnswer(k, m, envid, srcva, perm))
    ensures r != Sent ==> m.box == old(m.box) && k.frames == old(k.frames) && k.free == old(k.free)
    ensures Kept(old(k.frames), k.dirs, old(k.free), k.frames) && Grows(old(k.refs), k.refs, 1)
    ensures r == Sent ==>
              var e := Envid2Env(k.slots, k.cur, envid, false);
              var b := old(m.box[e]);
              && m.box == old(m.box)[e := b.(
                   recving := false, from := k.slots[k.cur].id, value := value, runnable := true,
                   perm := if srcva >= UTOP then NO_BITS else if b.dstva < UTOP then perm else b.perm)]
              && (if Transfers(srcva, b.dstva)
                  then MapsOnly(old(k.frames), k.dirs, k.frames, e, PageNum(b.dstva),
                                Entry(old(Offer(k, srcva)).page, perm))
                  else k.frames == old(k.frames))
  {
    KeptRefl(k.frames, k.dirs, k.free, k.refs);
    var e := Envid2Env(k.slots, k.cur, envid, false);
    if e == -1 {
      return NoEnv;
    }
    assert SlotAt(k.slots, k.dirs, e) && SlotAt(k.slots, k.dirs, k.cur);
    if !m.box[e].recving {
      return NotRecv;
    }
    var b := m.box[e];
    if srcva < UTOP {
      if !GoodVa(srcva) || !GoodPerm(perm) {
        return Bad;
      }
      var pte := PageLookup(k.frames, k.dirs, k.cur, PageNum(srcva));
      if !pte.bits.p || (perm.w && !pte.bits.w) {
        return Bad;
      }
      if b.dstva < UTOP {
        assert BoxAt(m.box, e);
        MappedPage(k, ByPte(k.cur, PageNum(srcva)));
        var ok := k.PageInsert(e, pte.page, PageNum(b.dstva), perm);
        if !ok {
          return Full;
        }
        b := b.(perm := perm);
      }
    } else {
      b := b.(perm := NO_BITS);
    }
    Deliver(m, e, b.(recving := false, from := k.slots[k.cur].id, value := value, runnable := true));
    r := Sent;
  }

  method Deliver(m: Mailboxes, e: int, b: Box)
    requires m.Valid() && 0 <= e < 1024 && b.dstva == m.box[e].dstva
    modifies m
    ensures m.Valid() && m.box == old(m.box)[e := b]
  {
    m.box := m.box[e := b];
    forall i {:trigger BoxAt(m.box, i)} | true
      ensures BoxAt(m.box, i)
    {
      assert BoxAt(old(m.box), i);
      assert BoxAt(old(m.box), e);
    }
  }

  lemma KeptRefl(frames: Frames, dirs: Dirs, free: seq<int>, refs: Refs)
    ensures Kept(frames, dirs, free, frames) && Grows(refs, refs, 1)
  {
  }
}
