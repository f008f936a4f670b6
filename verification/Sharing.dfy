/** System calls that map a page at a second place (`kern/syscall.c`), as steps of the
    copy-on-write machine: sys_page_map, and sys_ipc_try_send with a page.
 */
module Sharing {
  import opened PageTables
  import opened EnvIds
  import opened Kernel
  import opened Syscalls
  import opened Cow
  import opened Fork
  import opened Mail

  lemma MapsThere(frames: Frames, dirs: Dirs, frames2: Frames, src: At, dst: At, bits: Bits)
    requires src != dst && EntryAt(State(frames, dirs), src).bits.p && bits.p
    requires MapsOnly(frames, dirs, frames2, dst.e, dst.n, Entry(EntryAt(State(frames, dirs), src).page, bits))
    requires Keeps(State(frames, dirs), State(frames2, dirs))
    ensures Maps(State(frames, dirs), Op.Map(src, dst, bits), State(frames2, dirs))
  {
    var s, t, op := State(frames, dirs), State(frames2, dirs), Op.Map(src, dst, bits);
    forall a {:trigger EntryAfterAt(s, op, t, a)} | true
      ensures EntryAfterAt(s, op, t, a)
    {
      MapsOnlyAfter(frames, dirs, frames2, dst.e, dst.n, Entry(EntryAt(s, src).page, bits), a);
    }
  }

  /** sys_page_map to another place.  Where private writable pages are apart, the call takes the
      Map step, or ends that state of affairs, exactly by the permissions of the two mappings. */
  method MapPage(k: Kernel, srcid: int, srcva: int, dstid: int, dstva: int, perm: Bits)
    returns (r: Outcome, ghost src: At, ghost dst: At)
    requires k.Boundary() && MapRoom(k, srcid, srcva, dstid, dstva)
    modifies k`ppRef, k`link, k`head, k`frames, k`free, k`held, k`refs
    ensures k.Boundary() && r == old(MapOutcome(k, srcid, srcva, dstid, dstva, perm))
    ensures r != Ok ==> Now(k) == old(Now(k))
    ensures src == At(Envid2Env(k.slots, k.cur, srcid, true), PageNum(srcva))
    ensures dst == At(Envid2Env(k.slots, k.cur, dstid, true), PageNum(dstva))
    ensures r == Ok && src != dst ==> Maps(old(Now(k)), Op.Map(src, dst, perm), Now(k))
    ensures r == Ok && src != dst && Separated(old(Now(k))) ==>
              (Separated(Now(k)) <==> Compatible(EntryAt(old(Now(k)), src).bits, perm))
  {
    src := At(Envid2Env(k.slots, k.cur, srcid, true), PageNum(srcva));
    dst := At(Envid2Env(k.slots, k.cur, dstid, true), PageNum(dstva));
    r := SysPageMap(k, srcid, srcva, dstid, dstva, perm);
    if r == Ok && src != dst {
      KeptKeeps(old(k.ppRef), old(k.free), old(k.held), old(k.refs), k.kern, old(k.frames), k.dirs, k.frames);
      MapsThere(old(k.frames), k.dirs, k.frames, src, dst, perm);
      if Separated(old(Now(k))) {
        MapExact(old(Now(k)), Op.Map(src, dst, perm), Now(k));
      }
    }
  }

  /** sys_ipc_try_send with a page that the receiver wants: the same. */
  method SendPage(k: Kernel, m: Mailboxes, envid: int, value: int, srcva: int, perm: Bits)
    returns (r: Answer, ghost src: At, ghost dst: At)
    requires k.Boundary() && RoomAt(k.refs, Offer(k, srcva).page) && m.Valid() && 0 <= srcva
    modifies m, k`ppRef, k`link, k`head, k`frames, k`free, k`held, k`refs
    ensures k.Boundary() && m.Valid() && r == old(SendAnswer(k, m, envid, srcva, perm))
    ensures src == At(k.cur, PageNum(srcva))
    ensures var e := Envid2Env(k.slots, k.cur, envid, false);
            if r == Sent && Transfers(srcva, old(m.box)[e].dstva)
            then && dst == At(e, PageNum(old(m.box)[e].dstva))
                 && (src != dst ==> Maps(old(Now(k)), Op.Map(src, dst, perm), Now(k)))
                 && (src != dst && Separated(old(Now(k))) ==>
                       (Separated(Now(k)) <==> Compatible(EntryAt(old(Now(k)), src).bits, perm)))
            else Now(k) == old(Now(k))
  {
    var e := Envid2Env(k.slots, k.cur, envid, false);
    src := At(k.cur, PageNum(srcva));
    dst := At(e, PageNum(if e == -1 then 0 else m.box[e].dstva));
    r := SysIpcTrySend(k, m, envid, value, srcva, perm);
    if r == Sent && Transfers(srcva, old(m.box)[e].dstva) && src != dst {
      KeptKeeps(old(k.ppRef), old(k.free), old(k.held), old(k.refs), k.kern, old(k.frames), k.dirs, k.frames);
      MapsThere(old(k.frames), k.dirs, k.frames, src, dst, perm);
      if Separated(old(Now(k))) {
        MapExact(old(Now(k)), Op.Map(src, dst, perm), Now(k));
      }
    }
  }
}
