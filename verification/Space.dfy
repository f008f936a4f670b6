/** How many blocks a file operation needs, and how many are free. */
module Space {
  import opened Blocks

  ghost function FreeSet(v: View): set<int> {
    set b {:trigger IsFree(v, b)} | 0 <= b < |v| && IsFree(v, b)
  }

  /** The number of free blocks. */
  ghost function FreeCount(v: View): (n: int)
    ensures n >= 0
  {
    |FreeSet(v)|
  }

  /** The file blocks from `i` up to `hi` that are holes. */
  function Holes(v: View, f: File, i: int, hi: int): (n: int)
    ensures n >= 0
    decreases hi - i
  {
    if i >= hi then 0 else (if Look(v, Slot(f, i)) == 0 then 1 else 0) + Holes(v, f, i + 1, hi)
  }

  /** The blocks that have to be allocated before all file blocks from `i` up to `hi` are there:
      one for each hole, and one for the indirect table if it is needed and missing. */
  function Needed(v: View, f: File, i: int, hi: int): (n: int)
    ensures n >= 0
  {
    Holes(v, f, i, hi) + if i < hi && hi > 10 && NodeAt(v, f).indirect == 0 then 1 else 0
  }

  /** By how much the free blocks fall short of the needed ones. */
  ghost function Shortfall(v: View, f: File, i: int, hi: int): int {
    Needed(v, f, i, hi) - FreeCount(v)
  }

  // ---------- Free blocks ----------

  lemma FreeSame(v: View, own: Owners, held: set<int>, v2: View, own2: Owners, held2: set<int>)
    requires Inv(v, own, held) && Inv(v2, own2, held2) && |v2| == |v| && own2.Keys + held2 == own.Keys + held
    ensures FreeCount(v2) == FreeCount(v)
  {
    forall b {:trigger IsFree(v2, b)} | true
      ensures IsFree(v2, b) <==> IsFree(v, b)
    {
      assert FreeAt(v, own, held, b) && FreeAt(v2, own2, held2, b);
      assert b in own2.Keys + held2 <==> b in own.Keys + held;
    }
    assert FreeSet(v2) == FreeSet(v);
  }

  lemma OneTaken(v: View, b: int)
    requires 3 <= |v| && v[2].Bitmap? && |v[2].free| == |v| && IsFree(v, b)
    ensures FreeCount(SetFree(v, b, false)) == FreeCount(v) - 1
  {
    assert FreeSet(SetFree(v, b, false)) == FreeSet(v) - {b};
    assert b in FreeSet(v);
  }

  lemma NoneFree(v: View, own: Owners, held: set<int>)
    requires Inv(v, own, held)
    ensures FreeCount(v) == 0 <==> forall b {:trigger IsFree(v, b)} :: !IsFree(v, b)
  {
    if FreeCount(v) == 0 {
      forall b {:trigger IsFree(v, b)} | true
        ensures !IsFree(v, b)
      {
        assert FreeAt(v, own, held, b);
        assert b !in FreeSet(v);
      }
    } else {
      var b :| b in FreeSet(v);
    }
  }

  // ---------- Needed blocks ----------

  /** The slots of `f` are the same but for `i`. */
  ghost predicate OtherSlots(v: View, v2: View, f: File, i: int) {
    forall j {:trigger Look(v2, Slot(f, j))} :: j != i ==> Look(v2, Slot(f, j)) == Look(v, Slot(f, j))
  }

  /** The block map of `f` is the same. */
  ghost predicate SameSlots(v: View, v2: View, f: File) {
    && (forall j {:trigger Look(v2, Slot(f, j))} :: Look(v2, Slot(f, j)) == Look(v, Slot(f, j)))
    && NodeAt(v2, f).indirect == NodeAt(v, f).indirect
  }

  lemma {:induction false} HolesSame(v: View, v2: View, f: File, i: int, k: int, hi: int)
    requires OtherSlots(v, v2, f, k) && k < i
    ensures Holes(v2, f, i, hi) == Holes(v, f, i, hi)
    decreases hi - i
  {
    if i < hi {
      HolesSame(v, v2, f, i + 1, k, hi);
      assert Look(v2, Slot(f, i)) == Look(v, Slot(f, i));
    }
  }

  lemma NeededOne(v: View, f: File, i: int)
    ensures Needed(v, f, i, i + 1) == (if Look(v, Slot(f, i)) == 0 then 1 else 0)
                                      + (if i >= 10 && NodeAt(v, f).indirect == 0 then 1 else 0)
  {
    assert Holes(v, f, i + 1, i + 1) == 0;
  }

  /** Once block `i` is there, what remains is what was needed less what it took. */
  lemma NeededNext(v: View, v2: View, f: File, i: int, hi: int)
    requires i < hi && OtherSlots(v, v2, f, i) && Look(v2, Slot(f, i)) != 0
    requires i < 10 ==> NodeAt(v2, f).indirect == NodeAt(v, f).indirect
    ensures Needed(v2, f, i + 1, hi) == Needed(v, f, i, hi) - Needed(v, f, i, i + 1)
  {
    HolesSame(v, v2, f, i + 1, i, hi);
    assert Holes(v, f, i + 1, i + 1) == 0;
  }

  /** Where nothing of the file's block map changes, as much is needed as before. */
  lemma NeededSame(v: View, v2: View, f: File, i: int, hi: int)
    requires SameSlots(v, v2, f)
    ensures Needed(v2, f, i, hi) == Needed(v, f, i, hi)
  {
    HolesSame(v, v2, f, i, i - 1, hi);
  }

  /** If one block is too much, so is any range that begins with it. */
  lemma {:induction false} FirstShort(v: View, f: File, i: int, hi: int)
    requires i < hi
    ensures Needed(v, f, i, hi) >= Needed(v, f, i, i + 1)
  {
    assert Holes(v, f, i + 1, i + 1) == 0;
  }
}
