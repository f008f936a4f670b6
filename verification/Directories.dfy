/** Directories and path names of `fs/fs.c`: lookup, creation and the walk along a path. */
module Directories {
  import opened Blocks
  import opened FileSystem
  import opened Space
  import opened DirSpace

  /** Entry `g` lies in a block of directory `d`. */
  ghost predicate InDir(own: Owners, d: File, g: File) {
    0 <= g.j < 16 && g.b in own && own[g.b].Slot? && own[g.b].f == d
  }

  /** Directory `d` has the file `g` under `name`. */
  ghost predicate HasName(v: View, own: Owners, d: File, name: string, g: File) {
    name != "" && InDir(own, d, g) && NodeAt(v, g).name == name
  }

  /** Directory `d` has no file called `name`. */
  ghost predicate Lacks(v: View, own: Owners, d: File, name: string) {
    forall g {:trigger HasName(v, own, d, name, g)} :: !HasName(v, own, d, name, g)
  }

  /** No directory has two files of the same name. */
  ghost predicate UniqueAt(v: View, own: Owners, d: File, name: string, g: File, h: File) {
    HasName(v, own, d, name, g) && HasName(v, own, d, name, h) ==> g == h
  }

  ghost predicate UniqueNames(v: View, own: Owners) {
    forall d, name, g, h {:trigger UniqueAt(v, own, d, name, g, h)} :: UniqueAt(v, own, d, name, g, h)
  }

  /** The two states have the same names in the same directories. */
  ghost predicate SameNameAt(v: View, own: Owners, v2: View, own2: Owners, d: File, name: string, g: File) {
    HasName(v2, own2, d, name, g) <==> HasName(v, own, d, name, g)
  }

  ghost predicate SameNames(v: View, own: Owners, v2: View, own2: Owners) {
    forall d, name, g {:trigger SameNameAt(v, own, v2, own2, d, name, g)} :: SameNameAt(v, own, v2, own2, d, name, g)
  }

  /** Filling holes adds no names: a fresh directory block has no entries. */
  lemma GrowthKeepsNames(v: View, own: Owners, held: set<int>, v2: View, own2: Owners, held2: set<int>, f: File, i: int)
    requires Inv(v, own, held) && Inv(v2, own2, held2) && MetaSame(v, v2) && Grows(v, v2, f, i)
    ensures SameNames(v, own, v2, own2)
  {
    forall d, name, g {:trigger SameNameAt(v, own, v2, own2, d, name, g)} | true
      ensures SameNameAt(v, own, v2, own2, d, name, g)
    {
      assert MetaAt(v, v2, g);
      if HasName(v, own, d, name, g) {
        assert OwnedAt(v, own, g.b) && GrowsAt(v, v2, f, i, own[g.b]) && OwnsAt(v2, own2, own[g.b]);
      }
      if HasName(v2, own2, d, name, g) {
        LiveHome(v, own, held, g);
        assert OwnedAt(v2, own2, g.b);
        if g.b != 1 {
          assert OwnedAt(v, own, g.b) && GrowsAt(v, v2, f, i, own[g.b]) && OwnsAt(v2, own2, own[g.b]);
        }
      }
    }
  }

  /** Filling a hole of `d` changes no entry and takes no block from another file. */
  lemma GrowthKeepsEntries(v: View, own: Owners, held: set<int>, v2: View, own2: Owners, d: File, i: int)
    requires Inv(v, own, held) && Inv(v2, own2, held) && MetaSame(v, v2) && Grows(v, v2, d, i)
    ensures SameEntries(v, v2) && OthersSame(v, v2, d)
  {
    forall e, k, j {:trigger SameEntryAt(v, v2, e, k, j)} | true
      ensures SameEntryAt(v, v2, e, k, j)
    {
      assert GrowsAt(v, v2, d, i, Slot(e, k));
      var b := Look(v2, Slot(e, k));
      assert MetaAt(v, v2, File(b, j));
      if b != Look(v, Slot(e, k)) {
        NewBlock(v, own, held, v2, own2, d, i);
        assert KindAt(v, own, b) && OwnsAt(v2, own2, Slot(e, k)) && OwnedAt(v2, own2, b);
      }
    }
    forall h {:trigger OtherAt(v, v2, d, h)} | h != d
      ensures SameSlots(v, v2, h)
    {
      assert GrowsAt(v, v2, d, i, Indirect(h));
      forall k {:trigger Look(v2, Slot(h, k))} | true
        ensures Look(v2, Slot(h, k)) == Look(v, Slot(h, k))
      {
        assert GrowsAt(v, v2, d, i, Slot(h, k));
      }
    }
  }

  lemma SameNamesTrans(v: View, own: Owners, v1: View, own1: Owners, v2: View, own2: Owners)
    requires SameNames(v, own, v1, own1) && SameNames(v1, own1, v2, own2)
    ensures SameNames(v, own, v2, own2)
  {
    forall d, name, g {:trigger SameNameAt(v, own, v2, own2, d, name, g)} | true
      ensures SameNameAt(v, own, v2, own2, d, name, g)
    {
      assert SameNameAt(v, own, v1, own1, d, name, g) && SameNameAt(v1, own1, v2, own2, d, name, g);
    }
  }

  /** No name, size or byte changed. */
  ghost predicate SameTree(v: View, own: Owners, v2: View, own2: Owners) {
    SameNames(v, own, v2, own2) && MetaSame(v, v2) && SameRaw(v, v2)
  }

  lemma SameTreeTrans(v: View, own: Owners, v1: View, own1: Owners, v2: View, own2: Owners)
    requires SameTree(v, own, v1, own1) && SameTree(v1, own1, v2, own2)
    ensures SameTree(v, own, v2, own2)
  {
    SameTrans(v, v1, v2);
    SameNamesTrans(v, own, v1, own1, v2, own2);
  }

  lemma SameNamesRefl(v: View, own: Owners)
    ensures SameNames(v, own, v, own) && MetaSame(v, v) && SameRaw(v, v)
  {
  }

  /** The entries of the first `i` blocks of `d`, and the first `j` of the next, are not called
      `name`. */
  ghost predicate SearchedAt(v: View, own: Owners, d: File, name: string, i: int, j: int, g: File) {
    InDir(own, d, g) && (own[g.b].i < i || (own[g.b].i == i && g.j < j)) ==> NodeAt(v, g).name != name
  }

  ghost predicate Searched(v: View, own: Owners, d: File, name: string, i: int, j: int) {
    forall g {:trigger SearchedAt(v, own, d, name, i, j, g)} :: SearchedAt(v, own, d, name, i, j, g)
  }

  /** The inner loop of dir_lookup and dir_alloc_file: the first entry of the block that is
      called `name`, or 16. */
  method SearchBlock(x: Block, name: string) returns (j: int)
    ensures 0 <= j <= 16
    ensures j < 16 ==> NodesOf(x)[j].name == name
    ensures forall k {:trigger NodesOf(x)[k]} :: 0 <= k < j ==> NodesOf(x)[k].name != name
  {
    j := 0;
    while j < BLKFILES
      invariant 0 <= j <= 16
      invariant forall k {:trigger NodesOf(x)[k]} :: 0 <= k < j ==> NodesOf(x)[k].name != name
    {
      if NodesOf(x)[j].name == name {
        return;
      }
      j := j + 1;
    }
  }

  lemma SearchedBlock(v: View, own: Owners, held: set<int>, d: File, name: string, i: int, b: int)
    requires Inv(v, own, held) && Searched(v, own, d, name, i, 0) && b == Look(v, Slot(d, i)) != 0
    requires forall k {:trigger NodesOf(BlockAt(v, b))[k]} :: 0 <= k < 16 ==> NodesOf(BlockAt(v, b))[k].name != name
    ensures Searched(v, own, d, name, i + 1, 0)
  {
    assert OwnsAt(v, own, Slot(d, i));
    forall g {:trigger SearchedAt(v, own, d, name, i + 1, 0, g)} | true
      ensures SearchedAt(v, own, d, name, i + 1, 0, g)
    {
      assert SearchedAt(v, own, d, name, i, 0, g);
      if InDir(own, d, g) && own[g.b].i == i {
        assert OwnedAt(v, own, g.b);
        assert NodesOf(BlockAt(v, b))[g.j].name != name;
      }
    }
  }

  /** Getting block `i` does not undo the search of the blocks before it. */
  lemma SearchedKept(v: View, own: Owners, held: set<int>, v2: View, own2: Owners, held2: set<int>, d: File,
                     name: string, i: int)
    requires Inv(v, own, held) && Inv(v2, own2, held2) && MetaSame(v, v2) && Grows(v, v2, d, i)
    requires Searched(v, own, d, name, i, 0) && 0 <= i
    ensures Searched(v2, own2, d, name, i, 0)
  {
    forall g {:trigger SearchedAt(v2, own2, d, name, i, 0, g)} | true
      ensures SearchedAt(v2, own2, d, name, i, 0, g)
    {
      assert SearchedAt(v, own, d, name, i, 0, g) && MetaAt(v, v2, g);
      if InDir(own2, d, g) && own2[g.b].i < i {
        assert OwnedAt(v2, own2, g.b) && GrowsAt(v, v2, d, i, own2[g.b]) && OwnsAt(v, own, own2[g.b]);
      }
    }
  }

  lemma SearchedAll(v: View, own: Owners, held: set<int>, d: File, name: string, i: int)
    requires Inv(v, own, held) && Searched(v, own, d, name, i, 0) && 4096 * i >= NodeAt(v, d).size
    ensures Lacks(v, own, d, name)
  {
    forall g {:trigger HasName(v, own, d, name, g)} | true
      ensures !HasName(v, own, d, name, g)
    {
      assert SearchedAt(v, own, d, name, i, 0, g);
      if InDir(own, d, g) {
        assert OwnedAt(v, own, g.b) && TailAt(v, d, own[g.b].i);
      }
    }
  }

  /** The two-level loop that dir_lookup and dir_alloc_file share: the first entry of `d` that
      is called `name`.  Holes in the directory are filled on the way, which changes no name. */
  method SearchDir(fs: FileServer, d: File, name: string) returns (r: Error, g: File)
    requires fs.Ready() && NodeAt(fs.View(), d).name != "" && NodeAt(fs.View(), d).dir
    modifies fs`held, fs`own, fs.bc`cache, fs.bc`dirty, fs.bc`disk
    ensures fs.Ready() && fs.held == old(fs.held)
    ensures MetaSame(old(fs.View()), fs.View()) && SameRaw(old(fs.View()), fs.View())
    ensures SameNames(old(fs.View()), old(fs.own), fs.View(), fs.own)
    ensures r == Ok ==> InDir(fs.own, d, g) && NodeAt(fs.View(), g).name == name
    ensures r == NotFound ==> Searched(fs.View(), fs.own, d, name, NodeAt(fs.View(), d).size / 4096, 0)
    ensures r == NoDisk ==> DiskFull(fs.View())
    ensures SearchDone(old(fs.View()), fs.View(), d, name, r)
  {
    g := d;
    HomesInUse(fs.View(), fs.own, fs.held, d);
    LiveHome(fs.View(), fs.own, fs.held, d);
    assert EntryAt(fs.View(), d);
    var n := fs.LoadNode(d);
    var nblock := n.size / BLKSIZE;
    SameNamesRefl(fs.View(), fs.own);
    NothingBefore(fs.View(), fs.own, fs.held, d, name);
    ScanStart(fs.View(), d, name);
    var i := 0;
    r := NotFound;
    while i < nblock
      invariant 0 <= i <= nblock && fs.Ready() && fs.held == old(fs.held) && r == NotFound
      invariant MetaSame(old(fs.View()), fs.View()) && SameRaw(old(fs.View()), fs.View())
      invariant SameNames(old(fs.View()), old(fs.own), fs.View(), fs.own)
      invariant NodeAt(fs.View(), d).size == n.size
      invariant Searched(fs.View(), fs.own, d, name, i, 0)
      invariant Scanned(old(fs.View()), fs.View(), d, name, i) && OthersSame(old(fs.View()), fs.View(), d)
    {
      ghost var v1, own1 := fs.View(), fs.own;
      assert MetaAt(old(fs.View()), v1, d);
      r, g := LookupBlock(fs, d, name, i);
      assert MetaAt(v1, fs.View(), d);
      SameTreeTrans(old(fs.View()), old(fs.own), v1, own1, fs.View(), fs.own);
      ScanMore(old(fs.View()), v1, fs.View(), d, name, i, i + 1, r);
      OthersTrans(old(fs.View()), v1, fs.View(), d);
      if r != NotFound {
        SameEntriesTrans(old(fs.View()), v1, fs.View());
        return;
      }
      i := i + 1;
    }
    ScanEnds(old(fs.View()), fs.View(), d, name);
  }

  /** The answer of the search and what it took; all other files have the blocks they had. */
  ghost predicate SearchDone(v: View, v2: View, d: File, name: string, r: Error) {
    && r == SearchAnswer(v, d, name) && SameEntries(v, v2) && OthersSame(v, v2, d)
    && (r == Ok || r == NotFound ==> FreeCount(v2) == FreeCount(v) - SearchCost(v, d, name))
    && (r == NotFound ==> Scanned(v, v2, d, name, DirBlocks(v, d)))
  }

  /** dir_lookup. */
  method DirLookup(fs: FileServer, d: File, name: string) returns (r: Error, g: File)
    requires fs.Ready() && NodeAt(fs.View(), d).name != "" && NodeAt(fs.View(), d).dir && name != ""
    modifies fs`held, fs`own, fs.bc`cache, fs.bc`dirty, fs.bc`disk
    ensures fs.Ready() && fs.held == old(fs.held)
    ensures MetaSame(old(fs.View()), fs.View()) && SameRaw(old(fs.View()), fs.View())
    ensures SameNames(old(fs.View()), old(fs.own), fs.View(), fs.own)
    ensures r == Ok ==> HasName(fs.View(), fs.own, d, name, g)
    ensures r == NotFound ==> Lacks(fs.View(), fs.own, d, name)
    ensures r == NoDisk ==> DiskFull(fs.View())
    ensures SearchDone(old(fs.View()), fs.View(), d, name, r)
  {
    r, g := SearchDir(fs, d, name);
    assert EntryAt(fs.View(), d) && MetaAt(old(fs.View()), fs.View(), d);
    if r == NotFound {
      SearchedAll(fs.View(), fs.own, fs.held, d, name, NodeAt(fs.View(), d).size / 4096);
    }
  }

  lemma NothingBefore(v: View, own: Owners, held: set<int>, d: File, name: string)
    requires Inv(v, own, held)
    ensures Searched(v, own, d, name, 0, 0)
  {
    forall g {:trigger SearchedAt(v, own, d, name, 0, 0, g)} | true
      ensures SearchedAt(v, own, d, name, 0, 0, g)
    {
      if InDir(own, d, g) { assert OwnedAt(v, own, g.b); }
    }
  }

  /** One turn of dir_lookup's outer loop; NotFound means go on. */
  method LookupBlock(fs: FileServer, d: File, name: string, i: int) returns (r: Error, g: File)
    requires fs.Ready() && NodeAt(fs.View(), d).name != "" && NodeAt(fs.View(), d).dir
    requires 0 <= i && 4096 * i < NodeAt(fs.View(), d).size && Searched(fs.View(), fs.own, d, name, i, 0)
    modifies fs`held, fs`own, fs.bc`cache, fs.bc`dirty, fs.bc`disk
    ensures fs.Ready() && fs.held == old(fs.held)
    ensures MetaSame(old(fs.View()), fs.View()) && SameRaw(old(fs.View()), fs.View())
    ensures SameNames(old(fs.View()), old(fs.own), fs.View(), fs.own)
    ensures r == Ok ==> InDir(fs.own, d, g) && NodeAt(fs.View(), g).name == name
    ensures r == NotFound ==> Searched(fs.View(), fs.own, d, name, i + 1, 0)
    ensures r == NoDisk ==> DiskFull(fs.View())
    ensures TurnResult(old(fs.View()), fs.View(), d, name, i, r)
    ensures SameEntries(old(fs.View()), fs.View()) && OthersSame(old(fs.View()), fs.View(), d)
  {
    g := d;
    var b;
    r, b := fs.FileGetBlock(d, i);
    GrowthKeepsNames(old(fs.View()), old(fs.own), fs.held, fs.View(), fs.own, fs.held, d, i);
    GrowthKeepsEntries(old(fs.View()), old(fs.own), fs.held, fs.View(), fs.own, d, i);
    GotBlock(old(fs.View()), fs.View(), d, i, r);
    if r != Ok {
      return;
    }
    SearchedKept(old(fs.View()), old(fs.own), fs.held, fs.View(), fs.own, fs.held, d, name, i);
    BlockInUse(fs.View(), fs.own, fs.held, Slot(d, i));
    assert OwnsAt(fs.View(), fs.own, Slot(d, i));
    var x := fs.bc.Get(b);
    var j := SearchBlock(x, name);
    BlockHit(fs.View(), d, name, i, j);
    HitSame(old(fs.View()), fs.View(), d, name, i);
    if j < 16 {
      return Ok, File(b, j);
    }
    SearchedBlock(fs.View(), fs.own, fs.held, d, name, i, b);
    r := NotFound;
  }

  /** What is left to get once block `i` is there. */
  lemma GotBlock(v: View, v2: View, d: File, i: int, r: Error)
    requires Grows(v, v2, d, i)
    requires r == Ok ==> && Look(v2, Slot(d, i)) != 0 && FreeCount(v2) == FreeCount(v) - Needed(v, d, i, i + 1)
                         && (i < 10 ==> NodeAt(v2, d).indirect == NodeAt(v, d).indirect)
    ensures r == Ok ==> forall hi {:trigger LessAt(v, v2, d, i, hi)} :: LessAt(v, v2, d, i, hi)
    ensures forall k {:trigger KeptAt(v, v2, d, k)} :: KeptAt(v, v2, d, k)
  {
    if r == Ok {
      forall hi {:trigger LessAt(v, v2, d, i, hi)} | true
        ensures LessAt(v, v2, d, i, hi)
      {
        BlockThere(v, v2, d, i, hi);
      }
    }
    forall k {:trigger KeptAt(v, v2, d, k)} | true
      ensures KeptAt(v, v2, d, k)
    {
      assert GrowsAt(v, v2, d, i, Slot(d, k));
    }
  }

  lemma BlockHit(v: View, d: File, name: string, i: int, j: int)
    requires Look(v, Slot(d, i)) != 0 && 0 <= j <= 16
    requires var x := BlockAt(v, Look(v, Slot(d, i)));
             && (j < 16 ==> NodesOf(x)[j].name == name)
             && forall k {:trigger NodesOf(x)[k]} :: 0 <= k < j ==> NodesOf(x)[k].name != name
    ensures Hit(v, d, name, i) <==> j < 16
  {
    if j < 16 { assert EntryName(v, d, i, j) == name; }
  }

  // ---------- Creating a file ----------

  lemma GrownTree(v: View, own: Owners, v1: View, own1: Owners, v2: View, own2: Owners, d: File, size: int)
    requires SameNames(v, own, v1, own1) && MetaSame(v, v1) && SameRaw(v, v1)
    requires SameNames(v1, own1, v2, own2) && SizeSet(v1, v2, d, size) && SameRaw(v1, v2)
    ensures SameNames(v, own, v2, own2) && SizeSet(v, v2, d, size) && SameRaw(v, v2) && NodeAt(v2, d).size == size
  {
    SizeTrans(v, v1, v2, d, size);
    SameNamesTrans(v, own, v1, own1, v2, own2);
    RawTrans(v, v1, v2);
    assert SizeSetAt(v1, v2, d, size, d);
  }

  /** The directory bits of all files are the same. */
  ghost predicate DirAt(v: View, v2: View, f: File) {
    NodeAt(v2, f).dir == NodeAt(v, f).dir
  }

  ghost predicate SameDirs(v: View, v2: View) {
    forall f {:trigger DirAt(v, v2, f)} :: DirAt(v, v2, f)
  }

  /** dir_alloc_file: an unused entry of `d`, in a new block if the others are full. */
  method DirAllocFile(fs: FileServer, d: File) returns (r: Error, g: File)
    requires fs.Ready() && NodeAt(fs.View(), d).name != "" && NodeAt(fs.View(), d).dir
    modifies fs`held, fs`own, fs.bc`cache, fs.bc`dirty, fs.bc`disk
    ensures fs.Ready() && fs.held == old(fs.held)
    ensures SameNames(old(fs.View()), old(fs.own), fs.View(), fs.own) && SameRaw(old(fs.View()), fs.View())
    ensures SizeSet(old(fs.View()), fs.View(), d, NodeAt(fs.View(), d).size)
    ensures NodeAt(fs.View(), d).size == NodeAt(old(fs.View()), d).size
            || NodeAt(fs.View(), d).size == NodeAt(old(fs.View()), d).size + 4096
    ensures r == Ok ==> InDir(fs.own, d, g) && NodeAt(fs.View(), g) == Empty()
    ensures r == NoDisk ==> DiskFull(fs.View())
    ensures r == AllocAnswer(old(fs.View()), d)
  {
    r, g := SearchUnused(fs, d);
    if r == NotFound {
      assert LeftAt(old(fs.View()), fs.View(), d, DirBlocks(old(fs.View()), d), DirBlocks(old(fs.View()), d) + 1);
      r, g := GrowSearched(fs, d, old(fs.View()), old(fs.own));
    }
  }

  /** What dir_alloc_file answers: like the search for an unused entry; but if there is none, it
      fails exactly if the directory can not get one more block. */
  ghost function AllocAnswer(v: View, d: File): Error {
    var r, n := SearchAnswer(v, d, ""), DirBlocks(v, d);
    if r != NotFound then r
    else if n >= 1034 then Inval
    else if Shortfall(v, d, 0, n + 1) > 0 then NoDisk
    else Ok
  }

  /** The directory is full and gets one more block. */
  method GrowSearched(fs: FileServer, d: File, ghost v: View, ghost own: Owners) returns (r: Error, g: File)
    requires fs.Ready() && NodeAt(v, d).name != "" && NodeAt(v, d).dir && SameTree(v, own, fs.View(), fs.own)
    modifies fs`held, fs`own, fs.bc`cache, fs.bc`dirty, fs.bc`disk
    ensures fs.Ready() && fs.held == old(fs.held)
    ensures SameNames(v, own, fs.View(), fs.own) && SameRaw(v, fs.View())
    ensures SizeSet(v, fs.View(), d, NodeAt(fs.View(), d).size)
    ensures NodeAt(fs.View(), d).size == NodeAt(v, d).size + 4096
    ensures r == Ok ==> InDir(fs.own, d, g) && NodeAt(fs.View(), g) == Empty()
    ensures r == NoDisk ==> DiskFull(fs.View())
    ensures r == GrowAnswer(old(fs.View()), d)
  {
    ghost var v1, own1 := fs.View(), fs.own;
    assert MetaAt(v, v1, d);
    r, g := GrowDir(fs, d);
    GrownTree(v, own, v1, own1, fs.View(), fs.own, d, NodeAt(v1, d).size + 4096);
  }

  /** The search for an unused entry. */
  method SearchUnused(fs: FileServer, d: File) returns (r: Error, g: File)
    requires fs.Ready() && NodeAt(fs.View(), d).name != "" && NodeAt(fs.View(), d).dir
    modifies fs`held, fs`own, fs.bc`cache, fs.bc`dirty, fs.bc`disk
    ensures fs.Ready() && fs.held == old(fs.held)
    ensures SameTree(old(fs.View()), old(fs.own), fs.View(), fs.own)
    ensures NodeAt(fs.View(), d).size == NodeAt(old(fs.View()), d).size
    ensures SizeSet(old(fs.View()), fs.View(), d, NodeAt(old(fs.View()), d).size)
    ensures r == Ok ==> InDir(fs.own, d, g) && NodeAt(fs.View(), g) == Empty()
    ensures r == NoDisk ==> DiskFull(fs.View())
    ensures SearchDone(old(fs.View()), fs.View(), d, "", r)
  {
    r, g := SearchDir(fs, d, "");
    assert MetaAt(old(fs.View()), fs.View(), d) && EntryAt(fs.View(), g);
    MetaIsSize(old(fs.View()), fs.View(), d);
  }

  lemma MetaIsSize(v: View, v2: View, d: File)
    requires MetaSame(v, v2)
    ensures SizeSet(v, v2, d, NodeAt(v, d).size)
  {
    forall g {:trigger SizeSetAt(v, v2, d, NodeAt(v, d).size, g)} | true
      ensures SizeSetAt(v, v2, d, NodeAt(v, d).size, g)
    {
      assert MetaAt(v, v2, g);
    }
  }

  lemma SizeTrans(v: View, v1: View, v2: View, d: File, size: int)
    requires MetaSame(v, v1) && SizeSet(v1, v2, d, size)
    ensures SizeSet(v, v2, d, size)
  {
    forall g {:trigger SizeSetAt(v, v2, d, size, g)} | true
      ensures SizeSetAt(v, v2, d, size, g)
    {
      assert MetaAt(v, v1, g) && SizeSetAt(v1, v2, d, size, g);
    }
  }

  lemma RawTrans(v: View, v1: View, v2: View)
    requires SameRaw(v, v1) && SameRaw(v1, v2)
    ensures SameRaw(v, v2)
  {
    forall g, pos {:trigger RawByte(v2, g, pos)} | true
      ensures RawByte(v2, g, pos) == RawByte(v, g, pos)
    {
      assert RawByte(v1, g, pos) == RawByte(v, g, pos);
    }
  }

  /** The assignment to the size in dir_alloc_file; the result is the new last block. */
  method ExtendDir(fs: FileServer, d: File) returns (i: int)
    requires fs.Ready() && NodeAt(fs.View(), d).name != "" && NodeAt(fs.View(), d).dir
    modifies fs`held, fs`own, fs.bc`cache, fs.bc`dirty, fs.bc`disk
    ensures fs.Ready() && fs.held == old(fs.held) && fs.own == old(fs.own)
    ensures 0 <= i && NodeAt(old(fs.View()), d).size == 4096 * i && Look(old(fs.View()), Slot(d, i)) == 0
    ensures Resized(old(fs.View()), fs.View(), d, 4096 * i + 4096) && SameRaw(old(fs.View()), fs.View())
    ensures Shortfall(fs.View(), d, i, i + 1) == Shortfall(old(fs.View()), d, i, i + 1)
  {
    ghost var v0 := fs.View();
    LiveHome(v0, fs.own, fs.held, d);
    assert EntryAt(v0, d);
    HomesInUse(v0, fs.own, fs.held, d);
    var x := fs.bc.Get(d.b);
    var n := NodesOf(x)[d.j];
    i := n.size / 4096;
    GrowReady(v0, fs.own, fs.held, d, i);
    ResizeEffect(v0, fs.own, fs.held, d, 4096 * i + 4096);
    fs.bc.Put(d.b, Nodes(NodesOf(x)[d.j := n.(size := n.size + BLKSIZE)]));
    FreeSame(v0, fs.own, fs.held, fs.View(), fs.own, fs.held);
    NeededSame(v0, fs.View(), d, i, i + 1);
  }

  /** One more block for a directory fails exactly at the largest size of a file, or if there is
      no room for it and, where it is the first indirect one, for the indirect table. */
  ghost function GrowAnswer(v: View, d: File): Error {
    var n := DirBlocks(v, d);
    if n >= 1034 then Inval else if Shortfall(v, d, n, n + 1) > 0 then NoDisk else Ok
  }

  /** The end of dir_alloc_file: one more block for directory `d`. */
  method GrowDir(fs: FileServer, d: File) returns (r: Error, g: File)
    requires fs.Ready() && NodeAt(fs.View(), d).name != "" && NodeAt(fs.View(), d).dir
    modifies fs`held, fs`own, fs.bc`cache, fs.bc`dirty, fs.bc`disk
    ensures fs.Ready() && fs.held == old(fs.held)
    ensures SameNames(old(fs.View()), old(fs.own), fs.View(), fs.own) && SameRaw(old(fs.View()), fs.View())
    ensures SizeSet(old(fs.View()), fs.View(), d, NodeAt(old(fs.View()), d).size + 4096)
    ensures r == Ok ==> InDir(fs.own, d, g) && NodeAt(fs.View(), g) == Empty()
    ensures r == NoDisk ==> DiskFull(fs.View())
    ensures r == GrowAnswer(old(fs.View()), d)
  {
    g := d;
    ghost var v0, size := fs.View(), NodeAt(fs.View(), d).size + 4096;
    var i := ExtendDir(fs, d);
    ghost var v1, own1 := fs.View(), fs.own;
    assert NodeAt(v1, d) == NodeAt(v0, d).(size := size);
    ResizedSize(v0, v1, fs.own, d, size);
    var b;
    r, b := fs.FileGetBlock(d, i);
    SizeSetMore(v0, v1, fs.View(), d, size);
    GrowthKeepsNames(v1, own1, fs.held, fs.View(), fs.own, fs.held, d, i);
    SameNamesTrans(v0, own1, v1, own1, fs.View(), fs.own);
    RawTrans(v0, v1, fs.View());
    if r == Ok {
      assert Look(v1, Slot(d, i)) == Look(v0, Slot(d, i));
      FreshBlockEmpty(v1, own1, fs.held, fs.View(), fs.own, d, i, b);
      g := File(b, 0);
    }
  }

  lemma GrowReady(v: View, own: Owners, held: set<int>, d: File, i: int)
    requires Inv(v, own, held) && 0 <= i && NodeAt(v, d).size == 4096 * i
    ensures forall k {:trigger Look(v, Slot(d, k))} :: 0 <= k && 4096 * k >= 4096 * i ==> Look(v, Slot(d, k)) == 0
  {
    forall k {:trigger Look(v, Slot(d, k))} | 0 <= k && 4096 * k >= 4096 * i
      ensures Look(v, Slot(d, k)) == 0
    {
      assert TailAt(v, d, k);
    }
  }

  lemma ResizedSize(v: View, v2: View, own: Owners, d: File, size: int)
    requires Resized(v, v2, d, size)
    ensures SizeSet(v, v2, d, size) && SameNames(v, own, v2, own)
  {
    forall g {:trigger SizeSetAt(v, v2, d, size, g)} | true
      ensures SizeSetAt(v, v2, d, size, g)
    {
      assert NodeAt(v2, g) == if g == d then NodeAt(v, d).(size := size) else NodeAt(v, g);
    }
    forall e, name, g {:trigger SameNameAt(v, own, v2, own, e, name, g)} | true
      ensures SameNameAt(v, own, v2, own, e, name, g)
    {
      assert SizeSetAt(v, v2, d, size, g);
    }
  }

  /** A block that fills a hole was not owned before. */
  lemma NewBlock(v: View, own: Owners, held: set<int>, v2: View, own2: Owners, d: File, i: int)
    requires Inv(v, own, held) && Inv(v2, own2, held) && Grows(v, v2, d, i)
    requires Look(v, Slot(d, i)) == 0 && Look(v2, Slot(d, i)) != 0
    ensures Look(v2, Slot(d, i)) !in own
  {
    var b := Look(v2, Slot(d, i));
    var p := if b in own then own[b] else Slot(d, i);
    assert OwnsAt(v2, own2, Slot(d, i)) && OwnedAt(v, own, b) && GrowsAt(v, v2, d, i, p) && OwnsAt(v2, own2, p);
  }

  /** A block that fills a hole of a directory has only unused entries. */
  lemma FreshBlockEmpty(v: View, own: Owners, held: set<int>, v2: View, own2: Owners, d: File, i: int, b: int)
    requires Inv(v, own, held) && Inv(v2, own2, held) && MetaSame(v, v2) && Grows(v, v2, d, i)
    requires Look(v, Slot(d, i)) == 0 && b == Look(v2, Slot(d, i)) != 0
    ensures InDir(own2, d, File(b, 0)) && NodeAt(v2, File(b, 0)) == Empty()
  {
    var g := File(b, 0);
    assert OwnsAt(v2, own2, Slot(d, i)) && MetaAt(v, v2, g) && EntryAt(v2, g);
    assert b !in own by { NewBlock(v, own, held, v2, own2, d, i); }
    assert KindAt(v, own, b) && OwnedAt(v2, own2, b);
  }

  /** Naming an unused entry adds that one name. */
  lemma CreateEffect(v: View, own: Owners, held: set<int>, d: File, g: File, name: string)
    requires Inv(v, own, held) && InDir(own, d, g) && NodeAt(v, g) == Empty() && NodeAt(v, d).dir && name != ""
    ensures 0 < g.b < |v| && !IsFree(v, g.b)
    ensures var v2 := SetNode(v, g, Empty().(name := name));
            && Inv(v2, own, held) && SameRaw(v, v2)
            && (forall h {:trigger NodeAt(v2, h)} ::
                  NodeAt(v2, h) == if h == g then Empty().(name := name) else NodeAt(v, h))
            && (forall p {:trigger Look(v2, p)} :: Look(v2, p) == Look(v, p))
  {
    assert OwnedAt(v, own, g.b) && KindAt(v, own, g.b) && FreeAt(v, own, held, g.b);
    var n := Empty().(name := name);
    NodeInv(v, own, held, g, n);
    SetNodeRaw(v, own, held, g, n);
  }

  /** Exactly one name was added: `name` for `g` in `d`. */
  ghost predicate NameAddedAt(v: View, own: Owners, v2: View, own2: Owners, d: File, name: string, g: File, e: File,
                              s: string, h: File) {
    HasName(v2, own2, e, s, h) <==> HasName(v, own, e, s, h) || (e == d && s == name && h == g)
  }

  ghost predicate NameAdded(v: View, own: Owners, v2: View, own2: Owners, d: File, name: string, g: File) {
    forall e, s, h {:trigger NameAddedAt(v, own, v2, own2, d, name, g, e, s, h)} ::
      NameAddedAt(v, own, v2, own2, d, name, g, e, s, h)
  }

  lemma CreateAdds(v: View, own: Owners, v1: View, own1: Owners, v2: View, d: File, g: File, name: string)
    requires SameNames(v, own, v1, own1) && InDir(own1, d, g) && NodeAt(v1, g) == Empty() && name != ""
    requires forall h {:trigger NodeAt(v2, h)} ::
               NodeAt(v2, h) == if h == g then Empty().(name := name) else NodeAt(v1, h)
    ensures NameAdded(v, own, v2, own1, d, name, g)
  {
    forall e, s, h {:trigger NameAddedAt(v, own, v2, own1, d, name, g, e, s, h)} | true
      ensures NameAddedAt(v, own, v2, own1, d, name, g, e, s, h)
    {
      assert SameNameAt(v, own, v1, own1, e, s, h);
      assert NodeAt(v2, h) == if h == g then Empty().(name := name) else NodeAt(v1, h);
    }
  }

  lemma AddedUnique(v: View, own: Owners, v2: View, own2: Owners, d: File, name: string, g: File)
    requires UniqueNames(v, own) && Lacks(v, own, d, name) && NameAdded(v, own, v2, own2, d, name, g)
    ensures UniqueNames(v2, own2)
  {
    forall e, s, h, k {:trigger UniqueAt(v2, own2, e, s, h, k)} | true
      ensures UniqueAt(v2, own2, e, s, h, k)
    {
      assert UniqueAt(v, own, e, s, h, k);
      assert NameAddedAt(v, own, v2, own2, d, name, g, e, s, h) && NameAddedAt(v, own, v2, own2, d, name, g, e, s, k);
      assert e == d && s == name ==> !HasName(v, own, d, name, h) && !HasName(v, own, d, name, k);
    }
  }

  lemma SameUnique(v: View, own: Owners, v2: View, own2: Owners)
    requires UniqueNames(v, own) && SameNames(v, own, v2, own2)
    ensures UniqueNames(v2, own2)
  {
    forall e, s, h, k {:trigger UniqueAt(v2, own2, e, s, h, k)} | true
      ensures UniqueAt(v2, own2, e, s, h, k)
    {
      assert UniqueAt(v, own, e, s, h, k);
      assert SameNameAt(v, own, v2, own2, e, s, h) && SameNameAt(v, own, v2, own2, e, s, k);
    }
  }

  /** No file has another size, except that directory `d` may have grown by a block. */
  ghost predicate SizeAt(v: View, v2: View, d: File, h: File) {
    NodeAt(v2, h).size == NodeAt(v, h).size || (h == d && NodeAt(v2, h).size == NodeAt(v, h).size + 4096)
  }

  ghost predicate SizesKept(v: View, v2: View, d: File) {
    forall h {:trigger SizeAt(v, v2, d, h)} :: SizeAt(v, v2, d, h)
  }

  lemma GrownSizes(v: View, v2: View, d: File, size: int)
    requires SizeSet(v, v2, d, size) && (size == NodeAt(v, d).size || size == NodeAt(v, d).size + 4096)
    ensures SizesKept(v, v2, d)
  {
    forall h {:trigger SizeAt(v, v2, d, h)} | true
      ensures SizeAt(v, v2, d, h)
    {
      assert SizeSetAt(v, v2, d, size, h);
    }
  }

  lemma NamingKeepsSizes(v: View, v1: View, v2: View, d: File, g: File, name: string)
    requires SizesKept(v, v1, d) && NodeAt(v1, g) == Empty()
    requires forall h {:trigger NodeAt(v2, h)} ::
               NodeAt(v2, h) == if h == g then Empty().(name := name) else NodeAt(v1, h)
    ensures SizesKept(v, v2, d)
  {
    forall h {:trigger SizeAt(v, v2, d, h)} | true
      ensures SizeAt(v, v2, d, h)
    {
      assert SizeAt(v, v1, d, h);
      assert NodeAt(v2, h) == if h == g then Empty().(name := name) else NodeAt(v1, h);
    }
  }

  lemma MetaThenSizes(v: View, v1: View, v2: View, d: File)
    requires MetaSame(v, v1) && SizesKept(v1, v2, d)
    ensures SizesKept(v, v2, d)
  {
    forall h {:trigger SizeAt(v, v2, d, h)} | true
      ensures SizeAt(v, v2, d, h)
    {
      assert MetaAt(v, v1, h) && SizeAt(v1, v2, d, h);
    }
  }

  lemma SizeKeepsDirs(v: View, v2: View, d: File, size: int)
    requires SizeSet(v, v2, d, size)
    ensures SameDirs(v, v2)
  {
    forall f {:trigger DirAt(v, v2, f)} | true
      ensures DirAt(v, v2, f)
    {
      assert SizeSetAt(v, v2, d, size, f);
    }
  }

  lemma NamingKeepsDirs(v: View, v1: View, v2: View, g: File, name: string)
    requires SameDirs(v, v1) && NodeAt(v1, g) == Empty()
    requires forall h {:trigger NodeAt(v2, h)} ::
               NodeAt(v2, h) == if h == g then Empty().(name := name) else NodeAt(v1, h)
    ensures SameDirs(v, v2)
  {
    forall f {:trigger DirAt(v, v2, f)} | true
      ensures DirAt(v, v2, f)
    {
      assert DirAt(v, v1, f);
      assert NodeAt(v2, f) == if f == g then Empty().(name := name) else NodeAt(v1, f);
    }
  }

  /** The part of file_create after the walk: claim an entry, name it, flush the directory. */
  method AddEntry(fs: FileServer, d: File, name: string) returns (r: Error, g: File)
    requires fs.Ready() && NodeAt(fs.View(), d).name != "" && NodeAt(fs.View(), d).dir && name != ""
    modifies fs`held, fs`own, fs.bc`cache, fs.bc`dirty, fs.bc`disk
    ensures fs.Ready() && fs.held == old(fs.held) && SameRaw(old(fs.View()), fs.View())
    ensures r == Ok ==> NameAdded(old(fs.View()), old(fs.own), fs.View(), fs.own, d, name, g)
    ensures r == Ok ==> NodeAt(fs.View(), g) == Empty().(name := name)
    ensures r != Ok ==> SameNames(old(fs.View()), old(fs.own), fs.View(), fs.own)
    ensures r == AllocAnswer(old(fs.View()), d)
    ensures SameDirs(old(fs.View()), fs.View()) && SizesKept(old(fs.View()), fs.View(), d)
  {
    r, g := DirAllocFile(fs, d);
    ghost var v1 := fs.View();
    SizeKeepsDirs(old(fs.View()), v1, d, NodeAt(v1, d).size);
    GrownSizes(old(fs.View()), v1, d, NodeAt(v1, d).size);
    if r != Ok {
      return;
    }
    assert SizeSetAt(old(fs.View()), v1, d, NodeAt(v1, d).size, d);
    CreateEffect(v1, fs.own, fs.held, d, g, name);
    var x := fs.bc.Get(g.b);
    fs.bc.Put(g.b, Nodes(NodesOf(x)[g.j := NodesOf(x)[g.j].(name := name)]));
    CreateAdds(old(fs.View()), old(fs.own), v1, fs.own, fs.View(), d, g, name);
    RawTrans(old(fs.View()), v1, fs.View());
    NamingKeepsDirs(old(fs.View()), v1, fs.View(), g, name);
    NamingKeepsSizes(old(fs.View()), v1, fs.View(), d, g, name);
    assert NodeAt(fs.View(), d) == if d == g then Empty().(name := name) else NodeAt(v1, d);
    fs.FileFlush(d);
  }

  // ---------- Path names ----------

  /** The pieces between the slashes of `s`. */
  function Pieces(s: string): (ps: seq<string>)
    ensures |ps| >= 1
  {
    if s == "" then [""]
    else if s[0] == '/' then [""] + Pieces(s[1..])
    else var ps := Pieces(s[1..]); [[s[0]] + ps[0]] + ps[1..]
  }

  function Names(ps: seq<string>): seq<string> {
    if ps == [] then []
    else if ps[0] == "" then Names(ps[1..])
    else [ps[0]] + Names(ps[1..])
  }

  /** The names in a path; how many slashes are between them does not matter. */
  function Components(path: string): seq<string> { Names(Pieces(path)) }

  /** skip_slash. */
  method SkipSlash(path: string, start: int) returns (i: int)
    requires 0 <= start <= |path|
    ensures start <= i <= |path| && (i < |path| ==> path[i] != '/')
    ensures Components(path[i..]) == Components(path[start..])
  {
    i := start;
    while i < |path| && path[i] == '/'
      invariant start <= i <= |path|
      invariant Components(path[i..]) == Components(path[start..])
    {
      assert path[i..][1..] == path[i + 1..];
      i := i + 1;
    }
  }

  /** The first piece of a string is what stands before its first slash. */
  lemma {:induction false} FirstPiece(s: string, j: int)
    requires 0 <= j <= |s| && (j < |s| ==> s[j] == '/')
    requires forall k {:trigger s[k]} :: 0 <= k < j ==> s[k] != '/'
    ensures Pieces(s) == [s[..j]] + if j < |s| then Pieces(s[j + 1..]) else []
  {
    if j == 0 {
      assert s[..0] == "";
    } else {
      var t := s[1..];
      forall k {:trigger t[k]} | 0 <= k < j - 1
        ensures t[k] != '/'
      {
        assert t[k] == s[k + 1];
      }
      FirstPiece(t, j - 1);
      var rest := if j < |s| then Pieces(s[j + 1..]) else [];
      assert j < |s| ==> t[j..] == s[j + 1..];
      assert Pieces(t) == [t[..j - 1]] + rest;
      assert Pieces(t)[0] == t[..j - 1] && Pieces(t)[1..] == rest;
      assert [s[0]] + t[..j - 1] == s[..j];
      assert Pieces(s) == [[s[0]] + Pieces(t)[0]] + Pieces(t)[1..];
    }
  }

  lemma NextComponent(s: string, j: int)
    requires 0 < j <= |s| && (j < |s| ==> s[j] == '/')
    requires forall k {:trigger s[k]} :: 0 <= k < j ==> s[k] != '/'
    ensures Components(s) == [s[..j]] + Components(s[j..])
  {
    FirstPiece(s, j);
    var rest := if j < |s| then Pieces(s[j + 1..]) else [];
    assert Pieces(s)[0] == s[..j] && Pieces(s)[1..] == rest;
    if j < |s| {
      var u := s[j..];
      assert u[0] == '/' && u[1..] == s[j + 1..];
      assert Pieces(u) == [""] + rest;
    } else {
      assert s[j..] == "" && Pieces("") == [""];
      assert Names([""]) == Names([""][1..]);
    }
  }

  /** The inner loop of walk_path: the end of the name that starts at `start`. */
  method NameEnd(path: string, start: int) returns (i: int)
    requires 0 <= start < |path| && path[start] != '/'
    ensures start < i <= |path|
    ensures Components(path[start..]) == [path[start..i]] + Components(path[i..])
  {
    i := start;
    while i < |path| && path[i] != '/'
      invariant start <= i <= |path| && (i == start ==> path[i] != '/')
      invariant forall k {:trigger path[k]} :: start <= k < i ==> path[k] != '/'
    {
      i := i + 1;
    }
    ghost var s := path[start..];
    forall k {:trigger s[k]} | 0 <= k < i - start
      ensures s[k] != '/'
    {
      assert s[k] == path[start + k];
    }
    NextComponent(s, i - start);
    assert s[..i - start] == path[start..i] && s[i - start..] == path[i..];
  }

  lemma MoreComponents(path: string, i: int)
    requires 0 <= i <= |path| && (i < |path| ==> path[i] != '/')
    ensures Components(path[i..]) == [] <==> i == |path|
  {
    if i == |path| {
      assert path[i..] == "" && Names([""]) == Names([""][1..]);
    }
  }

  /** The name at the front of what is left of a path, and where the next one starts. */
  method NextName(path: string, start: int) returns (name: string, i: int)
    requires 0 <= start < |path| && path[start] != '/'
    ensures start < i <= |path| && (i < |path| ==> path[i] != '/')
    ensures name != "" && Components(path[start..]) == [name] + Components(path[i..])
    ensures i == |path| <==> Components(path[i..]) == []
  {
    i := NameEnd(path, start);
    name := path[start..i];
    i := SkipSlash(path, i);
    MoreComponents(path, i);
  }

  /** `trace` leads from the root along `names`, each a file in the directory before it. */
  ghost predicate PathAt(v: View, own: Owners, names: seq<string>, trace: seq<File>, k: int) {
    0 <= k < |names| && k + 1 < |trace| ==> NodeAt(v, trace[k]).dir && HasName(v, own, trace[k], names[k], trace[k + 1])
  }

  ghost predicate PathTo(v: View, own: Owners, names: seq<string>, trace: seq<File>) {
    && |trace| == |names| + 1 && trace[0] == Root()
    && (forall k {:trigger PathAt(v, own, names, trace, k)} :: PathAt(v, own, names, trace, k))
  }

  lemma PathKept(v: View, own: Owners, v2: View, own2: Owners, names: seq<string>, trace: seq<File>)
    requires PathTo(v, own, names, trace) && SameNames(v, own, v2, own2) && SameDirs(v, v2)
    ensures PathTo(v2, own2, names, trace)
  {
    forall k {:trigger PathAt(v2, own2, names, trace, k)} | true
      ensures PathAt(v2, own2, names, trace, k)
    {
      assert PathAt(v, own, names, trace, k);
      if 0 <= k < |names| {
        assert SameNameAt(v, own, v2, own2, trace[k], names[k], trace[k + 1]) && DirAt(v, v2, trace[k]);
      }
    }
  }

  lemma PathStep(v: View, own: Owners, names: seq<string>, trace: seq<File>, name: string, g: File)
    requires PathTo(v, own, names, trace)
    requires NodeAt(v, trace[|names|]).dir && HasName(v, own, trace[|names|], name, g)
    ensures PathTo(v, own, names + [name], trace + [g])
  {
    var names2, trace2 := names + [name], trace + [g];
    forall k {:trigger PathAt(v, own, names2, trace2, k)} | true
      ensures PathAt(v, own, names2, trace2, k)
    {
      assert PathAt(v, own, names, trace, k);
    }
  }

  /** The end of a path is a live file. */
  lemma PathLive(v: View, own: Owners, held: set<int>, names: seq<string>, trace: seq<File>)
    requires Inv(v, own, held) && PathTo(v, own, names, trace)
    ensures NodeAt(v, trace[|names|]).name != ""
  {
    assert PathAt(v, own, names, trace, |names| - 1);
  }

  datatype Parent = NoDir | Dir(d: File)

  /** The first `k` names are short enough for a directory entry. */
  ghost predicate ShortNames(names: seq<string>, k: int)
    requires k <= |names|
  {
    forall j {:trigger names[j]} :: 0 <= j < k ==> |names[j]| < 128
  }

  /** What walk_path reports: how far `trace` follows the names of the path, and why it
      stopped there. */
  ghost predicate Walked(v: View, own: Owners, path: string, r: Error, pdir: Parent, f: File, last: string,
                         trace: seq<File>) {
    var names := Components(path);
    var k := |trace| - 1;
    && 0 <= k <= |names| && PathTo(v, own, names[..k], trace) && ShortNames(names, k)
    && (r == Ok ==> k == |names| && f == trace[k] && pdir == if k == 0 then NoDir else Dir(trace[k - 1]))
    && (r != Ok ==> k < |names|)
    && (r == BadPath <==> k < |names| && |names[k]| >= 128)
    && (r == NotFound && NodeAt(v, trace[k]).dir ==> Lacks(v, own, trace[k], names[k]))
    && (r != Ok ==>
        pdir == if r == NotFound && NodeAt(v, trace[k]).dir && k + 1 == |names| then Dir(trace[k]) else NoDir)
    && (r != Ok && pdir.Dir? ==> last == names[k])
  }

  // ---------- What a walk answers and costs ----------

  /** The blocks that following `way` allocates: in each directory on it, those of the search for
      the next name. */
  ghost function WayCost(v: View, names: seq<string>, way: seq<File>): (n: int)
    requires |way| <= |names| + 1
    ensures n >= 0
  {
    if |way| <= 1 then 0
    else var k := |way| - 2; WayCost(v, names, way[..k + 1]) + SearchCost(v, way[k], names[k])
  }

  /** `way` follows the names as far as they lead: to the last one, or up to a name that is too
      long, stands behind a file or is missing. */
  ghost predicate Longest(v: View, own: Owners, names: seq<string>, way: seq<File>) {
    var k := |way| - 1;
    && 0 <= k <= |names| && PathTo(v, own, names[..k], way) && ShortNames(names, k)
    && (k == |names| || |names[k]| >= 128 || !NodeAt(v, way[k]).dir || Lacks(v, own, way[k], names[k]))
  }

  /** What walk_path answers: the reason that the way ends, unless the holes in its directories
      can not be filled or the last of them is too large to be searched. */
  ghost function WalkAnswer(v: View, names: seq<string>, way: seq<File>): Error
    requires 0 < |way| <= |names| + 1
  {
    var k, left := |way| - 1, FreeCount(v) - WayCost(v, names, way);
    if left < 0 then NoDisk
    else if k == |names| then Ok
    else if |names[k]| >= 128 then BadPath
    else if !NodeAt(v, way[k]).dir then NotFound
    else
      var n := DirBlocks(v, way[k]);
      if left < Needed(v, way[k], 0, if n < 1034 then n else 1034) then NoDisk
      else if n > 1034 then Inval
      else NotFound
  }

  ghost predicate AheadAt(v0: View, v: View, trace: seq<File>, h: File) {
    |trace| > 0 && h !in trace[..|trace| - 1] ==> SameSlots(v0, v, h)
  }

  /** The searches along `trace` took what they cost, and only its directories were filled. */
  ghost predicate Paying(v0: View, v: View, names: seq<string>, trace: seq<File>)
    requires |trace| <= |names| + 1
  {
    && SameEntries(v0, v) && FreeCount(v) == FreeCount(v0) - WayCost(v0, names, trace)
    && (forall h {:trigger AheadAt(v0, v, trace, h)} :: AheadAt(v0, v, trace, h))
  }

  lemma PayMore(v0: View, v: View, v2: View, names: seq<string>, trace: seq<File>, k: int, g: File)
    requires 0 <= k == |trace| - 1 < |names| && Paying(v0, v, names, trace) && trace[k] !in trace[..k]
    requires MetaSame(v0, v) && SearchDone(v, v2, trace[k], names[k], Ok)
    ensures Paying(v0, v2, names, trace + [g])
  {
    var d, more := trace[k], trace + [g];
    assert AheadAt(v0, v, trace, d) && MetaAt(v0, v, d);
    SearchSame(v0, v, d, names[k]);
    SameEntriesTrans(v0, v, v2);
    assert more[..k + 1] == trace;
    forall h {:trigger AheadAt(v0, v2, more, h)} | true
      ensures AheadAt(v0, v2, more, h)
    {
      assert AheadAt(v0, v, trace, h) && OtherAt(v, v2, d, h);
      if h !in trace {
        assert h !in trace[..k];
        SlotsTrans(v0, v, v2, h);
      }
    }
  }

  lemma {:induction false} WayGrows(v: View, names: seq<string>, way: seq<File>, m: int)
    requires 1 <= m <= |way| <= |names| + 1
    ensures WayCost(v, names, way[..m]) <= WayCost(v, names, way)
  {
    if m == |way| {
      assert way[..m] == way;
    } else {
      var rest := way[..|way| - 1];
      WayGrows(v, names, rest, m);
      assert rest[..m] == way[..m];
    }
  }

  /** Every path can be followed to where the names lead. */
  lemma {:induction false} Complete(v: View, own: Owners, names: seq<string>, trace: seq<File>) returns (way: seq<File>)
    requires 0 < |trace| <= |names| + 1 && PathTo(v, own, names[..|trace| - 1], trace) && ShortNames(names, |trace| - 1)
    ensures Longest(v, own, names, way) && |trace| <= |way| && way[..|trace|] == trace
    decreases |names| - |trace|
  {
    var k := |trace| - 1;
    if Longest(v, own, names, trace) {
      way := trace;
    } else {
      var g :| HasName(v, own, trace[k], names[k], g);
      PathStep(v, own, names[..k], trace, names[k], g);
      assert names[..k] + [names[k]] == names[..k + 1];
      way := Complete(v, own, names, trace + [g]);
      assert way[..|trace|] == way[..|trace| + 1][..|trace|];
    }
  }

  /** Where names are unique there is one such way. */
  lemma LongestUnique(v: View, own: Owners, names: seq<string>, t: seq<File>, u: seq<File>)
    requires UniqueNames(v, own) && Longest(v, own, names, t) && Longest(v, own, names, u)
    ensures t == u
  {
    if |t| > |u| {
      LongestNoLonger(v, own, names, u, t);
    } else if |u| > |t| {
      LongestNoLonger(v, own, names, t, u);
    } else {
      forall k {:trigger t[k]} | 0 <= k < |t|
        ensures t[k] == u[k]
      {
        PathUnique(v, own, names[..|t| - 1], t, u, k);
      }
    }
  }

  lemma LongestNoLonger(v: View, own: Owners, names: seq<string>, t: seq<File>, u: seq<File>)
    requires UniqueNames(v, own) && Longest(v, own, names, t)
    requires 0 < |u| <= |names| + 1 && PathTo(v, own, names[..|u| - 1], u) && ShortNames(names, |u| - 1)
    ensures |u| <= |t|
  {
    var k := |t| - 1;
    if |u| > |t| {
      var ns := names[..|u| - 1];
      assert PathAt(v, own, ns, u, k);
      PathPrefix(v, own, ns, u, k);
      assert ns[..k] == names[..k];
      PathUnique(v, own, names[..k], t, u[..k + 1], k);
    }
  }

  /** No directory is on a path twice. */
  lemma {:induction false} NoRepeat(v: View, own: Owners, held: set<int>, names: seq<string>, t: seq<File>, j: int,
                                    k: int)
    requires Inv(v, own, held) && PathTo(v, own, names, t) && 0 <= j < k <= |names|
    ensures t[j] != t[k]
  {
    assert PathAt(v, own, names, t, k - 1) && OwnedAt(v, own, t[k].b);
    if j > 0 {
      assert PathAt(v, own, names, t, j - 1);
      NoRepeat(v, own, held, names, t, j - 1, k - 1);
    }
  }

  lemma LastIsNew(v: View, own: Owners, held: set<int>, names: seq<string>, t: seq<File>)
    requires Inv(v, own, held) && PathTo(v, own, names, t)
    ensures t[|names|] !in t[..|names|]
  {
    if t[|names|] in t[..|names|] {
      var j :| 0 <= j < |names| && t[j] == t[|names|];
      NoRepeat(v, own, held, names, t, j, |names|);
    }
  }

  /** The search in a directory hits exactly if the directory has the name. */
  lemma HasHit(v: View, own: Owners, held: set<int>, d: File, name: string)
    requires Inv(v, own, held) && name != "" && NodeAt(v, d).dir
    ensures FirstHit(v, d, name, 0, DirBlocks(v, d)) < DirBlocks(v, d) <==> !Lacks(v, own, d, name)
    ensures !Lacks(v, own, d, name) ==> Gets(v, d, name) <= 1034
  {
    var n := DirBlocks(v, d);
    var h := FirstHit(v, d, name, 0, n);
    if !Lacks(v, own, d, name) {
      var g :| HasName(v, own, d, name, g);
      var i := own[g.b].i;
      assert OwnedAt(v, own, g.b) && TailAt(v, d, i) && EntryAt(v, d) && EntryName(v, d, i, g.j) == name;
      HitBefore(v, d, name, 0, i, n);
    } else if 0 <= n && h < n {
      FirstHits(v, d, name, 0, n);
      var j :| 0 <= j < 16 && EntryName(v, d, h, j) == name;
      assert OwnsAt(v, own, Slot(d, h));
      assert HasName(v, own, d, name, File(Look(v, Slot(d, h)), j));
    }
  }

  /** Where the search for the next name fails, so does the walk: `left` blocks are free when it
      starts. */
  lemma SearchStops(v: View, own: Owners, held: set<int>, names: seq<string>, trace: seq<File>, way: seq<File>, k: int,
                    left: int, r: Error)
    requires Inv(v, own, held) && 0 <= k == |trace| - 1 < |names| && names[k] != "" && |names[k]| < 128
    requires Longest(v, own, names, way) && |trace| <= |way| && way[..|trace|] == trace && NodeAt(v, trace[k]).dir
    requires 0 <= left == FreeCount(v) - WayCost(v, names, trace)
    requires r == AnswerWith(v, trace[k], names[k], left) && r != Ok
    ensures r == WalkAnswer(v, names, way) && (r != NoDisk ==> way == trace)
  {
    assert way[k] == trace[k];
    HasHit(v, own, held, trace[k], names[k]);
    if |way| == |trace| {
      assert way == trace;
      StopsHere(v, names, way, k, left);
    } else {
      assert PathAt(v, own, names[..|way| - 1], way, k);
      StopsBefore(v, names, trace, way, k, left);
    }
  }

  /** The name is missing, and the whole directory is searched. */
  lemma StopsHere(v: View, names: seq<string>, way: seq<File>, k: int, left: int)
    requires 0 <= k == |way| - 1 < |names| && |names[k]| < 128 && NodeAt(v, way[k]).dir
    requires 0 <= left == FreeCount(v) - WayCost(v, names, way)
    requires FirstHit(v, way[k], names[k], 0, DirBlocks(v, way[k])) >= DirBlocks(v, way[k])
    ensures AnswerWith(v, way[k], names[k], left) == WalkAnswer(v, names, way)
  {
  }

  /** The name is there, but the search does not come to it. */
  lemma StopsBefore(v: View, names: seq<string>, trace: seq<File>, way: seq<File>, k: int, left: int)
    requires 0 <= k == |trace| - 1 < |names| && |trace| < |way| <= |names| + 1 && way[..|trace|] == trace
    requires left == FreeCount(v) - WayCost(v, names, trace) && Gets(v, trace[k], names[k]) <= 1034
    requires FirstHit(v, trace[k], names[k], 0, DirBlocks(v, trace[k])) < DirBlocks(v, trace[k])
    ensures AnswerWith(v, trace[k], names[k], left) == Ok || AnswerWith(v, trace[k], names[k], left) == NoDisk
    ensures AnswerWith(v, trace[k], names[k], left) == NoDisk ==> WalkAnswer(v, names, way) == NoDisk
  {
    WayStep(v, names, trace, way, k);
    assert SearchCost(v, trace[k], names[k]) == Needed(v, trace[k], 0, Gets(v, trace[k], names[k]));
  }

  lemma WayStep(v: View, names: seq<string>, trace: seq<File>, way: seq<File>, k: int)
    requires 0 <= k == |trace| - 1 < |names| && |trace| < |way| <= |names| + 1 && way[..|trace|] == trace
    ensures WayCost(v, names, trace) + SearchCost(v, trace[k], names[k]) <= WayCost(v, names, way)
  {
    var step := way[..k + 2];
    WayGrows(v, names, way, k + 2);
    assert step[..k + 1] == trace && step[k] == trace[k];
    assert WayCost(v, names, step) == WayCost(v, names, trace) + SearchCost(v, trace[k], names[k]);
  }

  /** The walk searched the last directory of `way` in vain, and filled it: what it needs to get
      one more block. */
  ghost predicate Exhausted(v0: View, v: View, names: seq<string>, way: seq<File>)
    requires 0 < |way| <= |names| + 1
  {
    var d := way[|way| - 1];
    var n := DirBlocks(v0, d);
    && 0 <= n <= 1034 && SameEntries(v0, v) && Filled(v, d, n)
    && Shortfall(v, d, n, n + 1) == Needed(v0, d, 0, n + 1) + WayCost(v0, names, way) - FreeCount(v0)
  }

  lemma SearchExhausts(v0: View, v: View, v2: View, names: seq<string>, trace: seq<File>, k: int)
    requires 0 <= k == |trace| - 1 < |names| && Paying(v0, v, names, trace) && SameSlots(v0, v, trace[k])
    requires NodeAt(v, trace[k]).size == NodeAt(v0, trace[k]).size
    requires SearchDone(v, v2, trace[k], names[k], NotFound)
    ensures Exhausted(v0, v2, names, trace)
  {
    var d := trace[k];
    var n := DirBlocks(v0, d);
    assert LeftAt(v, v2, d, n, n + 1);
    NeededSame(v0, v, d, 0, n + 1);
    SameEntriesTrans(v0, v, v2);
  }

  /** An entry of `d` is unused. */
  ghost predicate Vacant(v: View, d: File) {
    exists i {:trigger Hit(v, d, "", i)} :: 0 <= i < DirBlocks(v, d) && Hit(v, d, "", i)
  }

  /** What file_create answers: a path that leads to a file is refused, and so is one that does
      not lead to a missing last name.  The directory takes the new entry if one of its entries
      is unused, or if it can get one more block. */
  ghost function CreateAnswer(v: View, names: seq<string>, way: seq<File>): Error
    requires 0 < |way| <= |names| + 1
  {
    var r, k := WalkAnswer(v, names, way), |way| - 1;
    if r == Ok then FileExists
    else if r != NotFound || k + 1 < |names| || !NodeAt(v, way[k]).dir then r
    else
      var n := DirBlocks(v, way[k]);
      if Vacant(v, way[k]) then Ok
      else if n >= 1034 then Inval
      else if FreeCount(v) - WayCost(v, names, way) < Needed(v, way[k], 0, n + 1) then NoDisk
      else Ok
  }

  lemma VacantSame(v: View, v2: View, d: File)
    requires SameEntries(v, v2) && 0 <= DirBlocks(v, d) == DirBlocks(v2, d)
    ensures FirstHit(v2, d, "", 0, DirBlocks(v, d)) < DirBlocks(v, d) <==> Vacant(v, d)
  {
    var n := DirBlocks(v, d);
    FirstHitSame(v, v2, d, "", 0, n);
    if Vacant(v, d) {
      var i :| 0 <= i < n && Hit(v, d, "", i);
      HitBefore(v, d, "", 0, i, n);
    }
    FirstHits(v, d, "", 0, n);
  }

  /** dir_alloc_file after the walk. */
  lemma AllocAnswered(v0: View, v: View, names: seq<string>, way: seq<File>)
    requires 0 < |way| <= |names| + 1 && Exhausted(v0, v, names, way) && MetaSame(v0, v)
    requires WalkAnswer(v0, names, way) == NotFound && |way| == |names| && NodeAt(v0, way[|way| - 1]).dir
    ensures AllocAnswer(v, way[|way| - 1]) == CreateAnswer(v0, names, way)
  {
    var d := way[|way| - 1];
    assert MetaAt(v0, v, d);
    var n := DirBlocks(v0, d);
    VacantSame(v0, v, d);
    FilledLess(v, d, n, Gets(v, d, ""));
    FilledNeeds(v, d, Gets(v, d, ""));
    FilledNext(v, d, 0, n);
  }

  /** Following the names from state `v`, the walk came as far as `trace` with answer `r`; `way` is
      where they lead. */
  ghost predicate Answered(v: View, own: Owners, names: seq<string>, r: Error, trace: seq<File>, way: seq<File>) {
    && Longest(v, own, names, way) && r == WalkAnswer(v, names, way)
    && |trace| <= |way| && trace == way[..|trace|] && (r != NoDisk ==> trace == way)
  }

  lemma PathBack(v: View, own: Owners, v2: View, own2: Owners, names: seq<string>, trace: seq<File>)
    requires PathTo(v2, own2, names, trace) && SameTree(v, own, v2, own2)
    ensures PathTo(v, own, names, trace)
  {
    forall k {:trigger PathAt(v, own, names, trace, k)} | true
      ensures PathAt(v, own, names, trace, k)
    {
      assert PathAt(v2, own2, names, trace, k);
      if 0 <= k < |names| {
        assert SameNameAt(v, own, v2, own2, trace[k], names[k], trace[k + 1]) && MetaAt(v, v2, trace[k]);
      }
    }
  }

  /** The walk stopped without a search, or with the last name. */
  lemma StopsAnswered(v0: View, own0: Owners, v: View, own: Owners, names: seq<string>, trace: seq<File>, k: int)
    requires 0 <= k == |trace| - 1 <= |names| && PathTo(v, own, names[..k], trace) && ShortNames(names, k)
    requires SameTree(v0, own0, v, own) && Paying(v0, v, names, trace)
    requires k == |names| || |names[k]| >= 128 || !NodeAt(v, trace[k]).dir
    ensures Answered(v0, own0, names, if k == |names| then Ok else if |names[k]| >= 128 then BadPath else NotFound,
                     trace, trace)
  {
    PathBack(v0, own0, v, own, names[..k], trace);
    assert MetaAt(v0, v, trace[k]);
  }

  /** The walk searched a directory for its next name. */
  lemma SearchAnswered(v0: View, own0: Owners, held: set<int>, v: View, own: Owners, v2: View, names: seq<string>,
                       trace: seq<File>, k: int, r: Error, g: File)
    returns (way: seq<File>)
    requires 0 <= k == |trace| - 1 < |names| && PathTo(v, own, names[..k], trace) && ShortNames(names, k)
    requires Inv(v0, own0, held) && SameTree(v0, own0, v, own) && Paying(v0, v, names, trace)
    requires names[k] != "" && |names[k]| < 128 && NodeAt(v, trace[k]).dir
    requires SearchDone(v, v2, trace[k], names[k], r)
    ensures r == Ok ==> Paying(v0, v2, names, trace + [g])
    ensures r != Ok ==> Answered(v0, own0, names, r, trace, way)
    ensures r == NotFound ==> Exhausted(v0, v2, names, trace)
  {
    PathBack(v0, own0, v, own, names[..k], trace);
    LastIsNew(v0, own0, held, names[..k], trace);
    assert AheadAt(v0, v, trace, trace[k]) && MetaAt(v0, v, trace[k]);
    AnswerSame(v0, v, trace[k], names[k]);
    way := Complete(v0, own0, names, trace);
    if r == Ok {
      PayMore(v0, v, v2, names, trace, k, g);
    } else {
      SearchStops(v0, own0, held, names, trace, way, k, FreeCount(v), r);
      if r == NotFound { SearchExhausts(v0, v, v2, names, trace, k); }
    }
  }

  lemma SplitNames(names: seq<string>, k: int, name: string, rest: seq<string>)
    requires 0 <= k <= |names| && names[k..] == [name] + rest
    ensures k < |names| && names[k] == name && names[k + 1..] == rest
    ensures names[..k] + [name] == names[..k + 1] && (k + 1 == |names| <==> rest == [])
  {
    assert names[k..][0] == name && names[k..][1..] == rest;
  }

  /** The part of walk_path's loop that follows one name. */
  method WalkStep(fs: FileServer, d: File, name: string, ghost names: seq<string>, ghost trace: seq<File>,
                  ghost v0: View, ghost own0: Owners)
    returns (r: Error, g: File, isDir: bool)
    requires fs.Ready() && PathTo(fs.View(), fs.own, names, trace) && d == trace[|names|] && name != ""
    requires SameTree(v0, own0, fs.View(), fs.own)
    modifies fs`held, fs`own, fs.bc`cache, fs.bc`dirty, fs.bc`disk
    ensures fs.Ready() && fs.held == old(fs.held)
    ensures SameTree(v0, own0, fs.View(), fs.own)
    ensures PathTo(fs.View(), fs.own, names, trace) && isDir == NodeAt(fs.View(), d).dir
    ensures r == Ok ==> PathTo(fs.View(), fs.own, names + [name], trace + [g])
    ensures r == NotFound && isDir ==> Lacks(fs.View(), fs.own, d, name)
    ensures r == NoDisk ==> DiskFull(fs.View())
    ensures isDir == NodeAt(old(fs.View()), d).dir
    ensures if isDir then SearchDone(old(fs.View()), fs.View(), d, name, r) else r == NotFound
  {
    PathLive(fs.View(), fs.own, fs.held, names, trace);
    HomesInUse(fs.View(), fs.own, fs.held, d);
    LiveHome(fs.View(), fs.own, fs.held, d);
    var n := fs.LoadNode(d);
    isDir := n.dir;
    if !isDir {
      return NotFound, d, isDir;
    }
    r, g := DirLookup(fs, d, name);
    assert MetaAt(old(fs.View()), fs.View(), d);
    SameTreeTrans(v0, own0, old(fs.View()), old(fs.own), fs.View(), fs.own);
    MetaKeepsDirs(old(fs.View()), fs.View());
    PathKept(old(fs.View()), old(fs.own), fs.View(), fs.own, names, trace);
    if r == Ok {
      PathStep(fs.View(), fs.own, names, trace, name, g);
    }
  }

  lemma MetaKeepsDirs(v: View, v2: View)
    requires MetaSame(v, v2)
    ensures SameDirs(v, v2)
  {
    forall f {:trigger DirAt(v, v2, f)} | true
      ensures DirAt(v, v2, f)
    {
      assert MetaAt(v, v2, f);
    }
  }

  /** The walk has come to character `i` of the path and has `k` names behind it. */
  ghost predicate WalkedTo(path: string, i: int, k: int, f: File, pdir: Parent, trace: seq<File>) {
    var names := Components(path);
    && 0 <= i <= |path| && (i < |path| ==> path[i] != '/') && (i == |path| <==> k == |names|)
    && 0 <= k <= |names| && names[k..] == Components(path[i..]) && ShortNames(names, k)
    && |trace| == k + 1 && trace[k] == f && pdir == (if k == 0 then NoDir else Dir(trace[k - 1]))
  }

  ghost predicate Walking(v: View, own: Owners, path: string, i: int, k: int, f: File, pdir: Parent, trace: seq<File>) {
    WalkedTo(path, i, k, f, pdir, trace) && PathTo(v, own, Components(path)[..k], trace)
  }

  /** What the next name of the path is, and where the walk is once it has followed it. */
  lemma WalkOn(path: string, i0: int, k: int, f0: File, pdir0: Parent, trace0: seq<File>, name: string, i: int, f: File)
    requires WalkedTo(path, i0, k, f0, pdir0, trace0) && 0 <= i <= |path| && (i < |path| ==> path[i] != '/')
    requires Components(path[i0..]) == [name] + Components(path[i..])
    requires i == |path| <==> Components(path[i..]) == []
    ensures k < |Components(path)| && Components(path)[k] == name && (i == |path| <==> k + 1 == |Components(path)|)
    ensures Components(path)[..k] + [name] == Components(path)[..k + 1]
    ensures |name| < 128 ==> WalkedTo(path, i, k + 1, f, Dir(f0), trace0 + [f])
  {
    SplitNames(Components(path), k, name, Components(path[i..]));
  }

  /** walk_path. */
  method WalkPath(fs: FileServer, path: string)
    returns (r: Error, pdir: Parent, f: File, last: string, ghost trace: seq<File>, ghost way: seq<File>)
    requires fs.Ready()
    modifies fs`held, fs`own, fs.bc`cache, fs.bc`dirty, fs.bc`disk
    ensures fs.Ready() && fs.held == old(fs.held)
    ensures MetaSame(old(fs.View()), fs.View()) && SameRaw(old(fs.View()), fs.View())
    ensures SameNames(old(fs.View()), old(fs.own), fs.View(), fs.own)
    ensures Walked(fs.View(), fs.own, path, r, pdir, f, last, trace)
    ensures r == NoDisk ==> DiskFull(fs.View())
    ensures Answered(old(fs.View()), old(fs.own), Components(path), r, trace, way)
    ensures r == NotFound && pdir.Dir? ==> Exhausted(old(fs.View()), fs.View(), Components(path), trace)
  {
    var i := SkipSlash(path, 0);
    assert path[0..] == path;
    MoreComponents(path, i);
    r, f, pdir, last, trace := Ok, Root(), NoDir, "", [Root()];
    SameNamesRefl(fs.View(), fs.own);
    ghost var k := 0;
    assert PathTo(fs.View(), fs.own, Components(path)[..0], trace);
    while i < |path|
      invariant fs.Ready() && fs.held == old(fs.held) && r == Ok
      invariant SameTree(old(fs.View()), old(fs.own), fs.View(), fs.own)
      invariant Walking(fs.View(), fs.own, path, i, k, f, pdir, trace)
      invariant Paying(old(fs.View()), fs.View(), Components(path), trace)
    {
      r, i, f, pdir, last, trace, way := WalkTurn(fs, path, i, f, pdir, trace, k, old(fs.View()), old(fs.own));
      if r != Ok {
        return;
      }
      k := k + 1;
    }
    WalkEnds(fs.View(), fs.own, path, i, k, f, pdir, last, trace);
    StopsAnswered(old(fs.View()), old(fs.own), fs.View(), fs.own, Components(path), trace, k);
    way := trace;
  }

  lemma WalkEnds(v: View, own: Owners, path: string, i: int, k: int, f: File, pdir: Parent, last: string,
                 trace: seq<File>)
    requires Walking(v, own, path, i, k, f, pdir, trace) && i == |path|
    ensures Walked(v, own, path, Ok, pdir, f, last, trace)
  {
    assert Components(path)[..k] == Components(path);
  }

  /** The same, with what it costs. */
  method FollowName(fs: FileServer, d: File, name: string, ghost names: seq<string>, ghost trace: seq<File>,
                    ghost k: int, ghost v0: View, ghost own0: Owners)
    returns (r: Error, g: File, isDir: bool, ghost way: seq<File>)
    requires fs.Ready() && Inv(v0, own0, fs.held) && SameTree(v0, own0, fs.View(), fs.own)
    requires 0 <= k == |trace| - 1 < |names| && PathTo(fs.View(), fs.own, names[..k], trace) && ShortNames(names, k)
    requires d == trace[k] && name == names[k] != "" && |name| < 128 && Paying(v0, fs.View(), names, trace)
    modifies fs`held, fs`own, fs.bc`cache, fs.bc`dirty, fs.bc`disk
    ensures fs.Ready() && fs.held == old(fs.held)
    ensures SameTree(v0, own0, fs.View(), fs.own)
    ensures PathTo(fs.View(), fs.own, names[..k], trace) && isDir == NodeAt(fs.View(), d).dir
    ensures r == Ok ==> PathTo(fs.View(), fs.own, names[..k] + [name], trace + [g])
    ensures r == NotFound && isDir ==> Lacks(fs.View(), fs.own, d, name)
    ensures r == NoDisk ==> DiskFull(fs.View())
    ensures r == Ok ==> Paying(v0, fs.View(), names, trace + [g])
    ensures r != Ok ==> r != BadPath && Answered(v0, own0, names, r, trace, way)
    ensures r == NotFound && isDir ==> Exhausted(v0, fs.View(), names, trace)
  {
    ghost var v1, own1 := fs.View(), fs.own;
    way := trace;
    r, g, isDir := WalkStep(fs, d, name, names[..k], trace, v0, own0);
    if isDir {
      way := SearchAnswered(v0, own0, fs.held, v1, own1, fs.View(), names, trace, k, r, g);
    } else {
      StopsAnswered(v0, own0, v1, own1, names, trace, k);
    }
  }

  /** One turn of walk_path's loop: the next name of the path. */
  method WalkTurn(fs: FileServer, path: string, i0: int, f0: File, pdir0: Parent, ghost trace0: seq<File>, ghost k: int,
                  ghost v0: View, ghost own0: Owners)
    returns (r: Error, i: int, f: File, pdir: Parent, last: string, ghost trace: seq<File>, ghost way: seq<File>)
    requires fs.Ready() && SameTree(v0, own0, fs.View(), fs.own) && Inv(v0, own0, fs.held)
    requires Walking(fs.View(), fs.own, path, i0, k, f0, pdir0, trace0) && i0 < |path|
    requires Paying(v0, fs.View(), Components(path), trace0)
    modifies fs`held, fs`own, fs.bc`cache, fs.bc`dirty, fs.bc`disk
    ensures fs.Ready() && fs.held == old(fs.held) && SameTree(v0, own0, fs.View(), fs.own)
    ensures i > i0
    ensures r == Ok ==> Walking(fs.View(), fs.own, path, i, k + 1, f, pdir, trace)
    ensures r != Ok ==> Walked(fs.View(), fs.own, path, r, pdir, f, last, trace)
    ensures r == NoDisk ==> DiskFull(fs.View())
    ensures r == Ok ==> |trace| == k + 2 <= |Components(path)| + 1 && Paying(v0, fs.View(), Components(path), trace)
    ensures r != Ok ==> Answered(v0, own0, Components(path), r, trace, way)
    ensures r == NotFound && pdir.Dir? ==> Exhausted(v0, fs.View(), Components(path), trace)
  {
    ghost var names := Components(path);
    var name;
    name, i := NextName(path, i0);
    WalkOn(path, i0, k, f0, pdir0, trace0, name, i, f0);
    if |name| >= 128 {
      StopsAnswered(v0, own0, fs.View(), fs.own, names, trace0, k);
      return BadPath, i, f0, NoDir, "", trace0, trace0;
    }
    var isDir;
    r, f, isDir, way := FollowName(fs, f0, name, names, trace0, k, v0, own0);
    WalkOn(path, i0, k, f0, pdir0, trace0, name, i, f);
    if r != Ok {
      pdir := if r == NotFound && isDir && i == |path| then Dir(f0) else NoDir;
      return r, i, f, pdir, name, trace0, way;
    }
    return Ok, i, f, Dir(f0), "", trace0 + [f], way;
  }

  /** Where names are unique a path leads to one file at most. */
  lemma {:induction false} PathUnique(v: View, own: Owners, names: seq<string>, t: seq<File>, u: seq<File>, k: int)
    requires UniqueNames(v, own) && PathTo(v, own, names, t) && PathTo(v, own, names, u) && 0 <= k <= |names|
    ensures t[k] == u[k]
  {
    if k > 0 {
      PathUnique(v, own, names, t, u, k - 1);
      assert PathAt(v, own, names, t, k - 1) && PathAt(v, own, names, u, k - 1);
      assert UniqueAt(v, own, t[k - 1], names[k - 1], t[k], u[k]);
    }
  }

  /** A prefix of a path is a path. */
  lemma PathPrefix(v: View, own: Owners, names: seq<string>, t: seq<File>, k: int)
    requires PathTo(v, own, names, t) && 0 <= k <= |names|
    ensures PathTo(v, own, names[..k], t[..k + 1])
  {
    forall m {:trigger PathAt(v, own, names[..k], t[..k + 1], m)} | true
      ensures PathAt(v, own, names[..k], t[..k + 1], m)
    {
      assert PathAt(v, own, names, t, m);
    }
  }

  /** walk_path finds exactly the files that have a path of names short enough: success gives
      the one file at the end of the path, "not found" means that there is none, and a path
      with a longer name is refused. */
  lemma WalkExact(v: View, own: Owners, path: string, r: Error, pdir: Parent, f: File, last: string, trace: seq<File>,
                  t: seq<File>)
    requires UniqueNames(v, own) && Walked(v, own, path, r, pdir, f, last, trace)
    requires r == Ok || r == NotFound || r == BadPath
    ensures r == Ok ==> PathTo(v, own, Components(path), trace) && ShortNames(Components(path), |Components(path)|)
    ensures PathTo(v, own, Components(path), t) ==>
              && r == (if ShortNames(Components(path), |Components(path)|) then Ok else BadPath)
              && (r == Ok ==> f == t[|Components(path)|])
  {
    var names := Components(path);
    var k := |trace| - 1;
    if r == Ok { assert names[..k] == names; }
    if PathTo(v, own, names, t) {
      PathPrefix(v, own, names, t, k);
      PathUnique(v, own, names[..k], trace, t[..k + 1], k);
      assert PathAt(v, own, names, t, k);
    }
  }

  // ---------- file_create ----------

  /** A created file is at the end of its path. */
  lemma CreatedPath(v: View, own: Owners, v2: View, own2: Owners, names: seq<string>, trace: seq<File>, g: File)
    requires |names| > 0 && PathTo(v, own, names[..|names| - 1], trace) && NodeAt(v, trace[|names| - 1]).dir
    requires SameDirs(v, v2) && NameAdded(v, own, v2, own2, trace[|names| - 1], names[|names| - 1], g)
    ensures PathTo(v2, own2, names, trace + [g])
  {
    var n := |names| - 1;
    var d := trace[n];
    forall k {:trigger PathAt(v2, own2, names[..n], trace, k)} | true
      ensures PathAt(v2, own2, names[..n], trace, k)
    {
      assert PathAt(v, own, names[..n], trace, k);
      if 0 <= k < n {
        assert NameAddedAt(v, own, v2, own2, d, names[n], g, trace[k], names[k], trace[k + 1])
               && DirAt(v, v2, trace[k]);
      }
    }
    assert NameAddedAt(v, own, v2, own2, d, names[n], g, d, names[n], g) && DirAt(v, v2, d);
    PathStep(v2, own2, names[..n], trace, names[n], g);
    assert names[..n] + [names[n]] == names;
  }

  /** There is a longest way along the names, and `r` is the answer that it gives. */
  ghost predicate CreateAnswered(v: View, own: Owners, names: seq<string>, r: Error) {
    exists way {:trigger Longest(v, own, names, way)} :: Longest(v, own, names, way) && r == CreateAnswer(v, names, way)
  }

  /** What the walk decides: everything, or that the answer is that of dir_alloc_file. */
  lemma WalkDecides(v0: View, own0: Owners, v: View, names: seq<string>, r: Error, trace: seq<File>, way: seq<File>,
                    pdir: Parent)
    requires MetaSame(v0, v) && Answered(v0, own0, names, r, trace, way)
    requires var k := |trace| - 1;
             && 0 <= k <= |names| && (r != Ok ==> k < |names|)
             && (r != Ok ==> pdir == if r == NotFound && NodeAt(v, trace[k]).dir && k + 1 == |names| then Dir(trace[k])
                                     else NoDir)
    requires r == NotFound && pdir.Dir? ==> Exhausted(v0, v, names, trace)
    ensures r == Ok ==> CreateAnswered(v0, own0, names, FileExists)
    ensures r != Ok && pdir == NoDir ==> CreateAnswered(v0, own0, names, r)
    ensures r != Ok && pdir.Dir? ==> CreateAnswered(v0, own0, names, AllocAnswer(v, pdir.d))
  {
    var k := |trace| - 1;
    assert MetaAt(v0, v, trace[k]);
    if r != Ok && pdir.Dir? { AllocAnswered(v0, v, names, way); }
    assert Longest(v0, own0, names, way);
  }

  /** Where names are unique, the state before determines the answer. */
  lemma CreateDetermined(v: View, own: Owners, names: seq<string>, way: seq<File>, r: Error)
    requires UniqueNames(v, own) && CreateAnswered(v, own, names, r) && Longest(v, own, names, way)
    ensures r == CreateAnswer(v, names, way)
  {
    var t :| Longest(v, own, names, t) && r == CreateAnswer(v, names, t);
    LongestUnique(v, own, names, t, way);
  }

  /** Where the directories on the way have no holes and the last one is no larger than it may
      be, the names alone decide: the path leads to a file, meets a name that is too long, or
      breaks off before its last name; else the new entry needs an unused one, or one more block
      and, as the first indirect one, a table. */
  lemma CreatePlain(v: View, own: Owners, names: seq<string>, way: seq<File>, r: Error)
    requires UniqueNames(v, own) && CreateAnswered(v, own, names, r) && Longest(v, own, names, way)
    requires WayCost(v, names, way) == 0 && Filled(v, way[|way| - 1], DirBlocks(v, way[|way| - 1]))
    requires 0 <= DirBlocks(v, way[|way| - 1]) <= 1034
    ensures var k, d, n := |way| - 1, way[|way| - 1], DirBlocks(v, way[|way| - 1]);
            && (r == FileExists <==> k == |names|)
            && (r == BadPath <==> k < |names| && |names[k]| >= 128)
            && (r == NotFound <==> k < |names| && |names[k]| < 128 && (k + 1 < |names| || !NodeAt(v, d).dir))
            && (k + 1 == |names| && |names[k]| < 128 && NodeAt(v, d).dir ==>
                  && (r == Ok <==> Vacant(v, d) || (n < 1034 && FreeCount(v) >= Needed(v, d, n, n + 1)))
                  && (r == Inval <==> !Vacant(v, d) && n == 1034)
                  && (r == NoDisk <==> !Vacant(v, d) && n < 1034 && FreeCount(v) < Needed(v, d, n, n + 1)))
  {
    var d, n := way[|way| - 1], DirBlocks(v, way[|way| - 1]);
    CreateDetermined(v, own, names, way, r);
    FilledNeeds(v, d, n);
    FilledNext(v, d, 0, n);
  }

  /** file_create.  On success one name was added, the path leads to the new file, and the file
      is empty; on an error no name changed.  No byte and no size changes, except that the
      directory may grow by a block.  The answer is known from the state before: there is one
      longest way along the names of the path, and the answer is that of this way. */
  method FileCreate(fs: FileServer, path: string) returns (r: Error, g: File, ghost trace: seq<File>)
    requires fs.Ready() && UniqueNames(fs.View(), fs.own)
    modifies fs`held, fs`own, fs.bc`cache, fs.bc`dirty, fs.bc`disk
    ensures fs.Ready() && fs.held == old(fs.held) && UniqueNames(fs.View(), fs.own)
    ensures SameRaw(old(fs.View()), fs.View()) && SameDirs(old(fs.View()), fs.View())
    ensures exists d :: SizesKept(old(fs.View()), fs.View(), d) && (r == Ok ==> |trace| >= 2 && d == trace[|trace| - 2])
    ensures r == Ok ==> |trace| == |Components(path)| + 1 >= 2 && g == trace[|trace| - 1]
    ensures r == Ok ==> PathTo(fs.View(), fs.own, Components(path), trace)
    ensures r == Ok ==> NodeAt(fs.View(), g) == Empty().(name := Components(path)[|trace| - 2])
    ensures r == Ok ==> NameAdded(old(fs.View()), old(fs.own), fs.View(), fs.own, trace[|trace| - 2],
                                  Components(path)[|trace| - 2], g)
    ensures r == FileExists ==> PathTo(fs.View(), fs.own, Components(path), trace)
    ensures r != Ok ==> SameNames(old(fs.View()), old(fs.own), fs.View(), fs.own)
    ensures CreateAnswered(old(fs.View()), old(fs.own), Components(path), r)
  {
    var pdir, f, last;
    r, pdir, f, last, trace := WalkFirst(fs, path);
    g := f;
    ghost var v1, own1 := fs.View(), fs.own;
    SameUnique(old(fs.View()), old(fs.own), v1, own1);
    MetaKeepsDirs(old(fs.View()), v1);
    MetaIsSize(old(fs.View()), v1, Root());
    GrownSizes(old(fs.View()), v1, Root(), NodeAt(old(fs.View()), Root()).size);
    if r == Ok {
      assert Components(path)[..|trace| - 1] == Components(path);
      return FileExists, g, trace;
    }
    if r != NotFound || pdir == NoDir {
      return;
    }
    r, g, trace := CreateIn(fs, pdir.d, last, path, trace, old(fs.View()), old(fs.own));
  }

  /** The walk of file_create, with what it decides. */
  method WalkFirst(fs: FileServer, path: string)
    returns (r: Error, pdir: Parent, f: File, last: string, ghost trace: seq<File>)
    requires fs.Ready()
    modifies fs`held, fs`own, fs.bc`cache, fs.bc`dirty, fs.bc`disk
    ensures fs.Ready() && fs.held == old(fs.held) && SameTree(old(fs.View()), old(fs.own), fs.View(), fs.own)
    ensures Walked(fs.View(), fs.own, path, r, pdir, f, last, trace) && r != FileExists
    ensures r == Ok ==> CreateAnswered(old(fs.View()), old(fs.own), Components(path), FileExists)
    ensures r != Ok && pdir == NoDir ==> CreateAnswered(old(fs.View()), old(fs.own), Components(path), r)
    ensures r != Ok && pdir.Dir? ==>
              CreateAnswered(old(fs.View()), old(fs.own), Components(path), AllocAnswer(fs.View(), pdir.d))
  {
    ghost var way;
    r, pdir, f, last, trace, way := WalkPath(fs, path);
    WalkDecides(old(fs.View()), old(fs.own), fs.View(), Components(path), r, trace, way, pdir);
  }

  /** The part of file_create behind the walk, which found only the last name missing. */
  method CreateIn(fs: FileServer, d: File, name: string, ghost path: string, ghost walked: seq<File>,
                  ghost v: View, ghost own: Owners)
    returns (r: Error, g: File, ghost trace: seq<File>)
    requires fs.Ready() && UniqueNames(fs.View(), fs.own) && SameTree(v, own, fs.View(), fs.own)
    requires 0 < |walked| == |Components(path)| && walked[|walked| - 1] == d && NodeAt(fs.View(), d).dir
    requires PathTo(fs.View(), fs.own, Components(path)[..|walked| - 1], walked)
    requires name == Components(path)[|walked| - 1] && Lacks(fs.View(), fs.own, d, name)
    modifies fs`held, fs`own, fs.bc`cache, fs.bc`dirty, fs.bc`disk
    ensures fs.Ready() && fs.held == old(fs.held) && UniqueNames(fs.View(), fs.own)
    ensures SameRaw(v, fs.View()) && SameDirs(v, fs.View()) && SizesKept(v, fs.View(), d)
    ensures r == Ok ==> trace == walked + [g] && PathTo(fs.View(), fs.own, Components(path), trace)
    ensures r == Ok ==> NodeAt(fs.View(), g) == Empty().(name := name)
    ensures r == Ok ==> NameAdded(v, own, fs.View(), fs.own, d, name, g)
    ensures r == AllocAnswer(old(fs.View()), d)
    ensures r != Ok ==> SameNames(v, own, fs.View(), fs.own)
  {
    ghost var v1, own1 := fs.View(), fs.own;
    ghost var names, k := Components(path), |walked| - 1;
    trace := walked;
    MetaKeepsDirs(v, v1);
    PathLive(v1, own1, fs.held, names[..k], walked);
    ComponentsNonEmpty(Pieces(path), k);
    r, g := AddEntry(fs, d, name);
    DirsTrans(v, v1, fs.View());
    MetaThenSizes(v, v1, fs.View(), d);
    RawTrans(v, v1, fs.View());
    if r == Ok {
      AddedUnique(v1, own1, fs.View(), fs.own, d, name, g);
      SameThenAdded(v, own, v1, own1, fs.View(), fs.own, d, name, g);
      CreatedPath(v1, own1, fs.View(), fs.own, names, walked, g);
      trace := walked + [g];
    } else {
      SameUnique(v1, own1, fs.View(), fs.own);
      SameNamesTrans(v, own, v1, own1, fs.View(), fs.own);
    }
  }

  lemma {:induction false} ComponentsNonEmpty(ps: seq<string>, k: int)
    requires 0 <= k < |Names(ps)|
    ensures Names(ps)[k] != ""
  {
    if ps != [] {
      if ps[0] == "" {
        ComponentsNonEmpty(ps[1..], k);
      } else if k > 0 {
        ComponentsNonEmpty(ps[1..], k - 1);
      }
    }
  }

  lemma DirsTrans(v: View, v1: View, v2: View)
    requires SameDirs(v, v1) && SameDirs(v1, v2)
    ensures SameDirs(v, v2)
  {
    forall f {:trigger DirAt(v, v2, f)} | true
      ensures DirAt(v, v2, f)
    {
      assert DirAt(v, v1, f) && DirAt(v1, v2, f);
    }
  }

  lemma SameThenAdded(v: View, own: Owners, v1: View, own1: Owners, v2: View, own2: Owners, d: File, name: string,
                      g: File)
    requires SameNames(v, own, v1, own1) && NameAdded(v1, own1, v2, own2, d, name, g)
    ensures NameAdded(v, own, v2, own2, d, name, g)
  {
    forall e, s, h {:trigger NameAddedAt(v, own, v2, own2, d, name, g, e, s, h)} | true
      ensures NameAddedAt(v, own, v2, own2, d, name, g, e, s, h)
    {
      assert SameNameAt(v, own, v1, own1, e, s, h) && NameAddedAt(v1, own1, v2, own2, d, name, g, e, s, h);
    }
  }
}
