/** What a search through a directory answers and costs (`fs/fs.c`).  The search gets block after
    block, and fills holes on its way. */
module DirSpace {
  import opened Blocks
  import opened Space
  import opened FileSystem

  /** The name of entry `j` in block `i` of directory `d`; all entries of a hole are unused. */
  ghost function EntryName(v: View, d: File, i: int, j: int): string {
    var b := Look(v, Slot(d, i));
    if b == 0 then "" else NodeAt(v, File(b, j)).name
  }

  /** Block `i` of directory `d` has an entry called `name`. */
  ghost predicate Hit(v: View, d: File, name: string, i: int) {
    exists j {:trigger EntryName(v, d, i, j)} :: 0 <= j < 16 && EntryName(v, d, i, j) == name
  }

  ghost function DirBlocks(v: View, d: File): int { NodeAt(v, d).size / 4096 }

  /** The first such block from `i` on, or `n`. */
  ghost function FirstHit(v: View, d: File, name: string, i: int, n: int): (h: int)
    ensures i <= n ==> i <= h <= n
    decreases n - i
  {
    if i >= n then n else if Hit(v, d, name, i) then i else FirstHit(v, d, name, i + 1, n)
  }

  /** How many blocks the search for `name` gets. */
  ghost function Gets(v: View, d: File, name: string): int {
    var n := DirBlocks(v, d);
    var h := FirstHit(v, d, name, 0, n);
    if h < n then h + 1 else n
  }

  /** How many blocks it allocates. */
  ghost function SearchCost(v: View, d: File, name: string): (n: int)
    ensures n >= 0
  {
    Needed(v, d, 0, Gets(v, d, name))
  }

  /** What it answers: it fails exactly if the holes on its way can not be filled or if its way
      leads beyond the last block that a file can have. */
  ghost function SearchAnswer(v: View, d: File, name: string): Error {
    var n, g := DirBlocks(v, d), Gets(v, d, name);
    if Shortfall(v, d, 0, if g < 1034 then g else 1034) > 0 then NoDisk
    else if g > 1034 then Inval
    else if FirstHit(v, d, name, 0, n) < n then Ok
    else NotFound
  }

  // ---------- The search, block by block ----------

  ghost predicate SameEntryAt(v: View, v2: View, d: File, i: int, j: int) {
    EntryName(v2, d, i, j) == EntryName(v, d, i, j)
  }

  ghost predicate SameEntries(v: View, v2: View) {
    forall d, i, j {:trigger SameEntryAt(v, v2, d, i, j)} :: SameEntryAt(v, v2, d, i, j)
  }

  ghost predicate OtherAt(v: View, v2: View, d: File, h: File) { h != d ==> SameSlots(v, v2, h) }

  /** No file but `d` got another block. */
  ghost predicate OthersSame(v: View, v2: View, d: File) {
    forall h {:trigger OtherAt(v, v2, d, h)} :: OtherAt(v, v2, d, h)
  }

  /** What getting block `i` leaves of the blocks up to `hi`. */
  ghost predicate LessAt(v: View, v2: View, d: File, i: int, hi: int) {
    i < hi ==> Shortfall(v2, d, i + 1, hi) == Shortfall(v, d, i, hi)
  }

  ghost predicate KeptAt(v: View, v2: View, d: File, k: int) {
    Look(v, Slot(d, k)) != 0 ==> Look(v2, Slot(d, k)) != 0
  }

  /** The result of one turn of the search; NotFound means go on. */
  ghost predicate TurnResult(v: View, v2: View, d: File, name: string, i: int, r: Error) {
    && (r == Ok || r == NotFound || r == NoDisk || r == Inval)
    && (r == Inval <==> i >= 1034) && (r == NoDisk <==> i < 1034 && Shortfall(v, d, i, i + 1) > 0)
    && (r == Ok ==> Hit(v, d, name, i)) && (r == NotFound ==> !Hit(v, d, name, i))
    && (r == Ok || r == NotFound ==> forall hi {:trigger LessAt(v, v2, d, i, hi)} :: LessAt(v, v2, d, i, hi))
    && (r == NotFound ==> Look(v2, Slot(d, i)) != 0)
    && (forall k {:trigger KeptAt(v, v2, d, k)} :: KeptAt(v, v2, d, k))
  }

  ghost predicate ThereAt(v: View, d: File, i: int, k: int) { 0 <= k < i ==> Look(v, Slot(d, k)) != 0 }

  /** The first `i` blocks of `d` are there. */
  ghost predicate Filled(v: View, d: File, i: int) {
    forall k {:trigger ThereAt(v, d, i, k)} :: ThereAt(v, d, i, k)
  }

  ghost predicate LeftAt(v0: View, v: View, d: File, i: int, hi: int) {
    i <= hi ==> Shortfall(v, d, i, hi) == Shortfall(v0, d, 0, hi)
  }

  /** The first `i` blocks were searched in vain, from state `v0` to `v`. */
  ghost predicate Scanned(v0: View, v: View, d: File, name: string, i: int) {
    var n := DirBlocks(v0, d);
    && 0 <= i <= n && i <= 1034 && FirstHit(v0, d, name, 0, n) == FirstHit(v0, d, name, i, n)
    && SameEntries(v0, v) && Filled(v, d, i)
    && forall hi {:trigger LeftAt(v0, v, d, i, hi)} :: LeftAt(v0, v, d, i, hi)
  }

  lemma HitSame(v: View, v2: View, d: File, name: string, i: int)
    requires SameEntries(v, v2)
    ensures Hit(v2, d, name, i) <==> Hit(v, d, name, i)
  {
    if Hit(v, d, name, i) {
      var j :| 0 <= j < 16 && EntryName(v, d, i, j) == name;
      assert SameEntryAt(v, v2, d, i, j);
    }
    if Hit(v2, d, name, i) {
      var j :| 0 <= j < 16 && EntryName(v2, d, i, j) == name;
      assert SameEntryAt(v, v2, d, i, j);
    }
  }

  lemma {:induction false} FirstHitSame(v: View, v2: View, d: File, name: string, i: int, n: int)
    requires SameEntries(v, v2)
    ensures FirstHit(v2, d, name, i, n) == FirstHit(v, d, name, i, n)
    decreases n - i
  {
    if i < n {
      HitSame(v, v2, d, name, i);
      FirstHitSame(v, v2, d, name, i + 1, n);
    }
  }

  lemma SameEntriesTrans(v: View, v1: View, v2: View)
    requires SameEntries(v, v1) && SameEntries(v1, v2)
    ensures SameEntries(v, v2)
  {
    forall d, i, j {:trigger SameEntryAt(v, v2, d, i, j)} | true
      ensures SameEntryAt(v, v2, d, i, j)
    {
      assert SameEntryAt(v, v1, d, i, j) && SameEntryAt(v1, v2, d, i, j);
    }
  }

  lemma OthersTrans(v: View, v1: View, v2: View, d: File)
    requires OthersSame(v, v1, d) && OthersSame(v1, v2, d)
    ensures OthersSame(v, v2, d)
  {
    forall h {:trigger OtherAt(v, v2, d, h)} | true
      ensures OtherAt(v, v2, d, h)
    {
      assert OtherAt(v, v1, d, h) && OtherAt(v1, v2, d, h);
      if h != d { SlotsTrans(v, v1, v2, h); }
    }
  }

  lemma SlotsTrans(v: View, v1: View, v2: View, h: File)
    requires SameSlots(v, v1, h) && SameSlots(v1, v2, h)
    ensures SameSlots(v, v2, h)
  {
    forall j {:trigger Look(v2, Slot(h, j))} | true
      ensures Look(v2, Slot(h, j)) == Look(v, Slot(h, j))
    {
      assert Look(v1, Slot(h, j)) == Look(v, Slot(h, j));
    }
  }

  lemma ScanStart(v: View, d: File, name: string)
    requires 0 <= DirBlocks(v, d)
    ensures Scanned(v, v, d, name, 0)
  {
  }

  /** A turn goes on with the search, or ends it with its answer. */
  lemma ScanMore(v0: View, v: View, v2: View, d: File, name: string, i: int, next: int, r: Error)
    requires Scanned(v0, v, d, name, i) && i < DirBlocks(v0, d) && next == i + 1
    requires TurnResult(v, v2, d, name, i, r) && SameEntries(v, v2)
    ensures r == NotFound ==> Scanned(v0, v2, d, name, next)
    ensures r != NotFound ==> r == SearchAnswer(v0, d, name)
    ensures r == Ok ==> FreeCount(v2) == FreeCount(v0) - SearchCost(v0, d, name)
  {
    var n := DirBlocks(v0, d);
    HitSame(v0, v, d, name, i);
    if r == NoDisk {
      var g := Gets(v0, d, name);
      var cap := if g < 1034 then g else 1034;
      FirstShort(v, d, i, cap);
      assert LeftAt(v0, v, d, i, cap);
    } else if r == Inval {
      assert LeftAt(v0, v, d, i, 1034);
      assert Needed(v, d, 1034, 1034) == 0;
    } else {
      assert LeftAt(v0, v, d, i, next) && LessAt(v, v2, d, i, next);
      assert Needed(v2, d, next, next) == 0;
      if r == NotFound {
        SameEntriesTrans(v0, v, v2);
        forall hi {:trigger LeftAt(v0, v2, d, next, hi)} | true
          ensures LeftAt(v0, v2, d, next, hi)
        {
          assert LeftAt(v0, v, d, i, hi) && LessAt(v, v2, d, i, hi);
        }
        forall k {:trigger ThereAt(v2, d, next, k)} | true
          ensures ThereAt(v2, d, next, k)
        {
          assert ThereAt(v, d, i, k) && KeptAt(v, v2, d, k);
        }
      }
    }
  }

  lemma ScanEnds(v0: View, v: View, d: File, name: string)
    requires Scanned(v0, v, d, name, DirBlocks(v0, d))
    ensures SearchAnswer(v0, d, name) == NotFound
    ensures FreeCount(v) == FreeCount(v0) - SearchCost(v0, d, name)
  {
    var n := DirBlocks(v0, d);
    assert LeftAt(v0, v, d, n, n);
    assert Needed(v, d, n, n) == 0;
  }

  /** A search depends on the block map and the entries of its directory, and on the free
      blocks. */
  lemma SearchSame(v: View, v2: View, d: File, name: string)
    requires SameEntries(v, v2) && SameSlots(v, v2, d) && NodeAt(v2, d).size == NodeAt(v, d).size
    ensures FirstHit(v2, d, name, 0, DirBlocks(v2, d)) == FirstHit(v, d, name, 0, DirBlocks(v, d))
    ensures Gets(v2, d, name) == Gets(v, d, name) && SearchCost(v2, d, name) == SearchCost(v, d, name)
  {
    FirstHitSame(v, v2, d, name, 0, DirBlocks(v, d));
    NeededSame(v, v2, d, 0, Gets(v, d, name));
  }

  /** What the search answers with `left` blocks free. */
  ghost function AnswerWith(v: View, d: File, name: string, left: int): Error {
    var n, g := DirBlocks(v, d), Gets(v, d, name);
    if left < Needed(v, d, 0, if g < 1034 then g else 1034) then NoDisk
    else if g > 1034 then Inval
    else if FirstHit(v, d, name, 0, n) < n then Ok
    else NotFound
  }

  lemma AnswerSame(v: View, v2: View, d: File, name: string)
    requires SameEntries(v, v2) && SameSlots(v, v2, d) && NodeAt(v2, d).size == NodeAt(v, d).size
    ensures SearchAnswer(v2, d, name) == AnswerWith(v, d, name, FreeCount(v2))
  {
    var g := Gets(v, d, name);
    SearchSame(v, v2, d, name);
    NeededSame(v, v2, d, 0, if g < 1034 then g else 1034);
  }

  /** Blocks that are there need no others. */
  lemma FilledNeeds(v: View, d: File, n: int)
    requires Filled(v, d, n)
    ensures Needed(v, d, 0, n) == 0
  {
    FilledHoles(v, d, 0, n);
    assert n > 10 ==> ThereAt(v, d, n, 10);
  }

  lemma {:induction false} FilledHoles(v: View, d: File, i: int, n: int)
    requires Filled(v, d, n) && 0 <= i
    ensures Holes(v, d, i, n) == 0
    decreases n - i
  {
    if i < n {
      assert ThereAt(v, d, n, i);
      FilledHoles(v, d, i + 1, n);
    }
  }

  /** With the first `n` blocks there, block `n` needs as much as all blocks up to it. */
  lemma {:induction false} FilledNext(v: View, d: File, i: int, n: int)
    requires Filled(v, d, n) && 0 <= i <= n
    ensures Needed(v, d, i, n + 1) == Needed(v, d, n, n + 1)
    decreases n - i
  {
    if i < n {
      assert ThereAt(v, d, n, i);
      FilledNext(v, d, i + 1, n);
    }
  }

  lemma FilledLess(v: View, d: File, n: int, m: int)
    requires Filled(v, d, n) && m <= n
    ensures Filled(v, d, m)
  {
    forall k {:trigger ThereAt(v, d, m, k)} | true
      ensures ThereAt(v, d, m, k)
    {
      assert ThereAt(v, d, n, k);
    }
  }

  lemma {:induction false} HitBefore(v: View, d: File, name: string, i: int, k: int, n: int)
    requires i <= k < n && Hit(v, d, name, k)
    ensures FirstHit(v, d, name, i, n) <= k
    decreases k - i
  {
    if i < k { HitBefore(v, d, name, i + 1, k, n); }
  }

  lemma {:induction false} FirstHits(v: View, d: File, name: string, i: int, n: int)
    requires i <= n
    ensures FirstHit(v, d, name, i, n) < n ==> Hit(v, d, name, FirstHit(v, d, name, i, n))
    decreases n - i
  {
    if i < n { FirstHits(v, d, name, i + 1, n); }
  }
}
