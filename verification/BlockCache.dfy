/** The demand-paged write-back block cache of `fs/bc.c`.

    A block is mapped when the file server has its page, and dirty when the page was written
    since it was last read or flushed.  `View` is the disk as the file server sees it.
 */
module BlockCache {
  import opened Blocks

  /** A mapped block that is not dirty equals its disk block. */
  ghost predicate CleanAt(disk: seq<Block>, cache: map<int, Block>, dirty: set<int>, b: int) {
    && (b in cache ==> 0 < b < |disk|)
    && (b in dirty ==> b in cache)
    && (b in cache && b !in dirty ==> cache[b] == disk[b])
  }

  function Seen(disk: seq<Block>, cache: map<int, Block>): (v: View)
    ensures |v| == |disk|
    ensures forall b {:trigger v[b]} :: 0 <= b < |disk| ==> v[b] == if b in cache then cache[b] else disk[b]
  {
    seq(|disk|, b requires 0 <= b < |disk| => if b in cache then cache[b] else disk[b])
  }

  lemma SeenPut(disk: seq<Block>, cache: map<int, Block>, b: int, x: Block)
    requires 0 <= b < |disk|
    ensures Seen(disk, cache[b := x]) == Seen(disk, cache)[b := x]
  {
  }

  lemma SeenDisk(disk: seq<Block>, cache: map<int, Block>, b: int, x: Block)
    requires 0 <= b < |disk| && b in cache
    ensures Seen(disk[b := x], cache) == Seen(disk, cache)
  {
  }

  class Cache {
    var disk: seq<Block>
    var cache: map<int, Block>
    var dirty: set<int>

    ghost predicate Valid()
      reads this
    {
      forall b {:trigger CleanAt(disk, cache, dirty, b)} :: CleanAt(disk, cache, dirty, b)
    }

    ghost function View(): View
      reads this
    {
      Seen(disk, cache)
    }

    /** On disk, block `b` is what the file server sees. */
    ghost predicate Stored(b: int)
      reads this
    {
      0 <= b < |disk| ==> disk[b] == View()[b]
    }

    constructor (disk: seq<Block>)
      ensures Valid() && View() == disk && this.disk == disk && dirty == {}
    {
      this.disk, cache, dirty := disk, map[], {};
    }

    /** bc_pgfault: reads the block in.  The original panics on a block beyond the disk and
        on a block marked free. */
    method FaultIn(b: int)
      requires Valid() && 0 < b < |disk| && b !in cache && !IsFree(View(), b)
      modifies this`cache
      ensures Valid() && View() == old(View()) && cache == old(cache)[b := disk[b]]
    {
      SeenPut(disk, cache, b, disk[b]);
      Kept(b, disk[b], dirty);
      cache := cache[b := disk[b]];
    }

    /** Cleanness carries over to every other block when `b` is mapped to `x`. */
    lemma Kept(b: int, x: Block, dirty2: set<int>)
      requires Valid() && 0 < b < |disk| && (b in dirty2 || x == disk[b])
      requires forall c :: c != b ==> (c in dirty2 <==> c in dirty)
      ensures forall c {:trigger CleanAt(disk, cache[b := x], dirty2, c)} :: CleanAt(disk, cache[b := x], dirty2, c)
    {
      forall c {:trigger CleanAt(disk, cache[b := x], dirty2, c)} | true
        ensures CleanAt(disk, cache[b := x], dirty2, c)
      {
        assert CleanAt(disk, cache, dirty, c);
      }
    }

    /** A read through diskaddr. */
    method Get(b: int) returns (x: Block)
      requires Valid() && 0 < b < |disk| && (b in cache || !IsFree(View(), b))
      modifies this`cache
      ensures Valid() && View() == old(View()) && x == View()[b] && b in cache
      ensures forall c :: c in old(cache) ==> c in cache
    {
      if b !in cache {
        FaultIn(b);
      }
      x := cache[b];
    }

    /** A write through diskaddr: the page is faulted in first and becomes dirty. */
    method Put(b: int, x: Block)
      requires Valid() && 0 < b < |disk| && (b in cache || !IsFree(View(), b))
      modifies this`cache, this`dirty
      ensures Valid() && View() == old(View())[b := x] && b in cache
      ensures forall c :: c in old(cache) ==> c in cache
    {
      if b !in cache {
        FaultIn(b);
      }
      SeenPut(disk, cache, b, x);
      Kept(b, x, dirty + {b});
      cache := cache[b := x];
      dirty := dirty + {b};
    }

    /** flush_block */
    method Flush(b: int)
      requires Valid() && 0 < b < |disk|
      modifies this`disk, this`dirty
      ensures Valid() && View() == old(View()) && Stored(b)
      ensures disk == old(disk)[b := View()[b]] && dirty == old(dirty) - {b}
    {
      assert CleanAt(disk, cache, dirty, b);
      if b !in cache || b !in dirty {
        assert disk == disk[b := View()[b]];
        return;
      }
      SeenDisk(disk, cache, b, cache[b]);
      Flushed(b);
      disk := disk[b := cache[b]];
      dirty := dirty - {b};
    }

    lemma Flushed(b: int)
      requires Valid() && 0 < b < |disk| && b in cache
      ensures forall c {:trigger CleanAt(disk[b := cache[b]], cache, dirty - {b}, c)} ::
                CleanAt(disk[b := cache[b]], cache, dirty - {b}, c)
    {
      var disk2, dirty2 := disk[b := cache[b]], dirty - {b};
      forall c {:trigger CleanAt(disk2, cache, dirty2, c)} | true
        ensures CleanAt(disk2, cache, dirty2, c)
      {
        assert CleanAt(disk, cache, dirty, c);
      }
    }

    /** fs_sync: afterwards the disk is what the file server sees. */
    method Sync()
      requires Valid() && 0 < |disk|
      modifies this`disk, this`dirty
      ensures Valid() && View() == old(View()) && disk == View() && dirty == {}
    {
      var i := 1;
      assert CleanAt(disk, cache, dirty, 0);
      forall b {:trigger b in dirty} | b in dirty
        ensures 1 <= b
      {
        assert CleanAt(disk, cache, dirty, b);
      }
      while i < |disk|
        invariant 1 <= i <= |disk| && Valid() && View() == old(View()) && |disk| == |old(disk)|
        invariant forall b {:trigger disk[b]} :: 0 <= b < i ==> disk[b] == View()[b]
        invariant forall b {:trigger b in dirty} :: b in dirty ==> i <= b
      {
        Flush(i);
        i := i + 1;
      }
      forall b {:trigger b in dirty} | true
        ensures b !in dirty
      {
        assert CleanAt(disk, cache, dirty, b);
      }
    }
  }
}
