/** Environment identifiers (`kern/env.c`): the low ten bits name the slot, the bits above
    tell the environments that have used the slot apart. */
module EnvIds {

  datatype Slot = Slot(free: bool, id: int, parent: int)

  type Slots = s: seq<Slot> | |s| == 1024 witness seq(1024, i => Slot(true, 0, 0))

  /** ENVX: the low ten bits, also of a negative number in two's complement. */
  function Envx(id: int): (i: int)
    ensures 0 <= i < 1024
  {
    id % 1024
  }

  /** envid2env: the slot that `envid` names for the environment in slot `cur`, or -1 for
      E_BAD_ENV.  Zero names the caller. */
  function Envid2Env(slots: Slots, cur: int, envid: int, checkperm: bool): (i: int)
    requires 0 <= cur < 1024
    ensures -1 <= i < 1024
    ensures i != -1 && envid != 0 ==>
              && !slots[i].free && slots[i].id == envid
              && (checkperm ==> i == cur || slots[i].parent == slots[cur].id)
  {
    if envid == 0 then cur else
    var i := Envx(envid);
    if slots[i].free || slots[i].id != envid then -1
    else if checkperm && i != cur && slots[i].parent != slots[cur].id then -1
    else i
  }

  /** The environment in slot `i` is the one that `envid` stands for when the one in slot `cur`
      uses it: the caller itself for zero, else the environment that has the id, which with
      `checkperm` must be the caller or a child of it. */
  ghost predicate Denotes(slots: Slots, cur: int, envid: int, checkperm: bool, i: int)
    requires 0 <= cur < 1024
  {
    if envid == 0 then i == cur
    else
      && 0 <= i < 1024 && !slots[i].free && slots[i].id == envid
      && (checkperm ==> i == cur || slots[i].parent == slots[cur].id)
  }

  /** The ids in use are positive, and name their slots by their low bits. */
  ghost predicate NamedAt(slots: Slots, i: int) {
    0 <= i < 1024 && !slots[i].free ==> slots[i].id > 0 && slots[i].id % 1024 == i
  }

  ghost predicate Named(slots: Slots) {
    forall i {:trigger NamedAt(slots, i)} :: NamedAt(slots, i)
  }

  /** envid2env finds the environment that the id stands for, and none exactly if it stands for
      none. */
  lemma LookupExact(slots: Slots, cur: int, envid: int, checkperm: bool, i: int)
    requires 0 <= cur < 1024 && Named(slots)
    ensures i != -1 ==> (Envid2Env(slots, cur, envid, checkperm) == i <==> Denotes(slots, cur, envid, checkperm, i))
    ensures Envid2Env(slots, cur, envid, checkperm) == -1 <==>
            forall j {:trigger Denotes(slots, cur, envid, checkperm, j)} :: !Denotes(slots, cur, envid, checkperm, j)
  {
    forall j {:trigger Denotes(slots, cur, envid, checkperm, j)} | true
      ensures Denotes(slots, cur, envid, checkperm, j) ==> Envid2Env(slots, cur, envid, checkperm) == j
    {
      assert NamedAt(slots, j);
    }
    assert Envid2Env(slots, cur, envid, checkperm) != -1 ==>
           Denotes(slots, cur, envid, checkperm, Envid2Env(slots, cur, envid, checkperm));
  }

  /** Every environment is found by zero, by its own id and by its parent, and nobody else may
      manipulate it. */
  lemma WhoFinds(slots: Slots, cur: int, i: int)
    requires 0 <= cur < 1024 && 0 <= i < 1024 && !slots[cur].free && !slots[i].free && Named(slots)
    ensures Envid2Env(slots, cur, 0, true) == cur == Envid2Env(slots, cur, slots[cur].id, true)
    ensures Envid2Env(slots, cur, slots[i].id, true) == (if i == cur || slots[i].parent == slots[cur].id then i else -1)
    ensures Envid2Env(slots, cur, slots[i].id, false) == i
  {
    assert NamedAt(slots, i) && NamedAt(slots, cur);
    LookupExact(slots, cur, slots[i].id, true, i);
    LookupExact(slots, cur, slots[cur].id, true, cur);
  }

  /** 32-bit two's complement wrap-around. */
  function Wrap32(x: int): (r: int)
    ensures -0x8000_0000 <= r < 0x8000_0000
  {
    (x + 0x8000_0000) % 0x1_0000_0000 - 0x8000_0000
  }

  /** The id that env_alloc gives to slot `i` when its last id was `last`. */
  function NextId(last: int, i: int): (id: int)
    requires 0 <= i < 1024
    ensures 0 < id && Envx(id) == i
  {
    var sum := Wrap32(last + 4096);
    var generation := sum - sum % 1024;
    (if generation <= 0 then 4096 else generation) + i
  }

  /** The id of slot `i` after env_alloc has taken the slot `k` times since boot. */
  function IdAfter(i: int, k: nat): (id: int)
    requires 0 <= i < 1024
  {
    if k == 0 then 0 else NextId(IdAfter(i, k - 1), i)
  }

  /** The remainder by 2^19 - 1, the number of generations that fit in an id. */
  function Generation(x: int): (g: int)
    ensures 0 <= g < 0x7_FFFF
  {
    x % 0x7_FFFF
  }

  lemma GenerationUnique(x: int, q: int, g: int)
    requires x == 0x7_FFFF * q + g && 0 <= g < 0x7_FFFF
    ensures Generation(x) == g
  {
  }

  lemma GenerationStep(x: int)
    requires 0 <= x
    ensures Generation(x + 1) == if Generation(x) == 0x7_FFFE then 0 else Generation(x) + 1
  {
    var q := x / 0x7_FFFF;
    if Generation(x) == 0x7_FFFE {
      GenerationUnique(x + 1, q + 1, 0);
    } else {
      GenerationUnique(x + 1, q, Generation(x) + 1);
    }
  }

  lemma GenerationRepeats(x: int, y: int)
    ensures Generation(x) == Generation(y) <==> Generation(y - x) == 0
  {
    var a, b, q := Generation(x), Generation(y), y / 0x7_FFFF - x / 0x7_FFFF;
    if a <= b {
      GenerationUnique(y - x, q, b - a);
    } else {
      GenerationUnique(y - x, q - 1, b - a + 0x7_FFFF);
    }
  }

  lemma WrapNone(x: int)
    requires -0x8000_0000 <= x < 0x8000_0000
    ensures Wrap32(x) == x
  {
  }

  lemma WrapOver(x: int)
    requires 0x8000_0000 <= x < 0x1_0000_0000
    ensures Wrap32(x) == x - 0x1_0000_0000
  {
  }

  lemma LowBits(x: int, q: int, i: int)
    requires x == 1024 * q + i && 0 <= i < 1024
    ensures Envx(x) == i
  {
  }

  lemma NextIdStep(g: int, i: int)
    requires 0 <= g < 0x7_FFFF && 0 <= i < 1024
    ensures NextId((g + 1) * 4096 + i, i) == (if g == 0x7_FFFE then 1 else g + 2) * 4096 + i
  {
    var sum := (g + 2) * 4096 + i;
    if g == 0x7_FFFE {
      WrapOver(sum);
    } else {
      WrapNone(sum);
      LowBits(sum, 4 * (g + 2), i);
    }
  }

  lemma FirstId(i: int)
    requires 0 <= i < 1024
    ensures NextId(0, i) == 4096 + i && Generation(0) == 0
  {
    WrapNone(4096);
    LowBits(4096, 4, 0);
  }

  /** Closed form of the ids of a slot: the generations 1 to 2^19 - 1 take turns. */
  lemma {:induction false} IdFormula(i: int, k: nat)
    requires 0 <= i < 1024 && k > 0
    ensures IdAfter(i, k) == (Generation(k - 1) + 1) * 4096 + i
  {
    if k == 1 {
      FirstId(i);
      assert IdAfter(i, 1) == NextId(IdAfter(i, 0), i);
    } else {
      var g := Generation(k - 2);
      IdFormula(i, k - 1);
      GenerationStep(k - 2);
      NextIdStep(g, i);
      assert IdAfter(i, k) == NextId((g + 1) * 4096 + i, i);
    }
  }

  /** Ids are positive, name their slot, and never collide across slots. */
  lemma IdsNameSlots(i: int, k: nat, j: int, m: nat)
    requires 0 <= i < 1024 && 0 <= j < 1024 && k > 0 && m > 0
    ensures 0 < IdAfter(i, k) < 0x8000_0000 && Envx(IdAfter(i, k)) == i
    ensures IdAfter(i, k) == IdAfter(j, m) ==> i == j
  {
    IdFormula(i, k);
    IdFormula(j, m);
    LowBits(IdAfter(i, k), 4 * (Generation(k - 1) + 1), i);
    LowBits(IdAfter(j, m), 4 * (Generation(m - 1) + 1), j);
  }

  /** The ids of two uses of a slot coincide exactly when the number of reuses between them
      is a multiple of 2^19 - 1. */
  lemma IdsRepeat(i: int, k: nat, m: nat)
    requires 0 <= i < 1024 && 0 < k <= m
    ensures IdAfter(i, k) == IdAfter(i, m) <==> Generation(m - k) == 0
  {
    IdFormula(i, k);
    IdFormula(i, m);
    GenerationRepeats(k - 1, m - 1);
  }

  /** A stale id is rejected through the next 2^19 - 2 reuses of its slot, and the reuse
      after that makes it valid again. */
  lemma StaleIdRejected(slots: Slots, cur: int, i: int, k: nat, m: nat, checkperm: bool)
    requires 0 <= cur < 1024 && 0 <= i < 1024 && 0 < k < m && slots[i].id == IdAfter(i, m)
    ensures m - k < 0x7_FFFF ==> Envid2Env(slots, cur, IdAfter(i, k), checkperm) == -1
    ensures m - k == 0x7_FFFF && !slots[i].free ==> Envid2Env(slots, cur, IdAfter(i, k), false) == i
  {
    IdsNameSlots(i, k, i, m);
    IdsRepeat(i, k, m);
    if m - k < 0x7_FFFF {
      GenerationUnique(m - k, 0, m - k);
    } else if m - k == 0x7_FFFF {
      GenerationUnique(m - k, 1, 0);
    }
  }
}
