/** The binary search over debugging symbols (`kern/kdebug.c`): only some entries have the
    wanted type, and a hit does not shrink the interval but raises the address. */
module Stabs {

  datatype Stab = Stab(kind: int, value: int)

  const MAX_ADDR: int := 0xFFFF_FFFF

  predicate Match(stabs: seq<Stab>, kind: int, i: int) {
    0 <= i < |stabs| && stabs[i].kind == kind
  }

  function Value(stabs: seq<Stab>, i: int): int {
    if 0 <= i < |stabs| then stabs[i].value else -1
  }

  ghost predicate SortedAt(stabs: seq<Stab>, kind: int, i: int, j: int) {
    Match(stabs, kind, i) && Match(stabs, kind, j) && i <= j ==> 0 <= Value(stabs, i) <= Value(stabs, j) <= MAX_ADDR
  }

  /** The entries of this type are in increasing order of their 32-bit values. */
  ghost predicate Sorted(stabs: seq<Stab>, kind: int) {
    forall i, j {:trigger SortedAt(stabs, kind, i, j)} :: SortedAt(stabs, kind, i, j)
  }

  // ---------- What the search is for ----------

  ghost predicate GapAt(stabs: seq<Stab>, kind: int, lo: int, hi: int, i: int) {
    lo <= i <= hi ==> !Match(stabs, kind, i)
  }

  /** No entry of this type from `lo` to `hi`. */
  ghost predicate Gap(stabs: seq<Stab>, kind: int, lo: int, hi: int) {
    forall i {:trigger GapAt(stabs, kind, lo, hi, i)} :: GapAt(stabs, kind, lo, hi, i)
  }

  /** `left` is the last entry of the type in [lo, hi] with a value up to `addr`, and `right`
      is just before the next one of the type, or `hi`. */
  ghost predicate Brackets(stabs: seq<Stab>, kind: int, lo: int, hi: int, addr: int, left: int, right: int) {
    && lo <= left <= right <= hi && Match(stabs, kind, left) && Value(stabs, left) <= addr
    && Gap(stabs, kind, left + 1, right)
    && (right < hi ==> Match(stabs, kind, right + 1) && Value(stabs, right + 1) > addr)
  }

  /** There is one such pair at most. */
  lemma BracketsUnique(stabs: seq<Stab>, kind: int, lo: int, hi: int, addr: int, a: int, b: int, c: int, d: int)
    requires Sorted(stabs, kind)
    requires Brackets(stabs, kind, lo, hi, addr, a, b) && Brackets(stabs, kind, lo, hi, addr, c, d)
    ensures a == c && b == d
  {
    assert SortedAt(stabs, kind, b + 1, c) && SortedAt(stabs, kind, d + 1, a);
    assert GapAt(stabs, kind, a + 1, b, c) && GapAt(stabs, kind, c + 1, d, a);
    assert GapAt(stabs, kind, a + 1, b, d + 1) && GapAt(stabs, kind, c + 1, d, b + 1);
  }

  // ---------- When the search overruns ----------

  /** The last entry of the type in [lo, m], or lo - 1. */
  function LastMatch(stabs: seq<Stab>, kind: int, lo: int, m: int): (k: int)
    requires 0 <= lo <= m + 1 <= |stabs|
    ensures lo - 1 <= k <= m && (k >= lo ==> Match(stabs, kind, k))
    decreases m
  {
    if m < lo then lo - 1
    else if stabs[m].kind == kind then m
    else LastMatch(stabs, kind, lo, m - 1)
  }

  lemma {:induction false} LastMatchGap(stabs: seq<Stab>, kind: int, lo: int, m: int)
    requires 0 <= lo <= m + 1 <= |stabs|
    ensures Gap(stabs, kind, LastMatch(stabs, kind, lo, m) + 1, m)
    decreases m
  {
    var k := LastMatch(stabs, kind, lo, m);
    if m >= lo && stabs[m].kind != kind {
      LastMatchGap(stabs, kind, lo, m - 1);
      assert k == LastMatch(stabs, kind, lo, m - 1);
    } else {
      assert k == m;
    }
    forall i {:trigger GapAt(stabs, kind, k + 1, m, i)} | true
      ensures GapAt(stabs, kind, k + 1, m, i)
    {
      if k < m { assert GapAt(stabs, kind, k + 1, m - 1, i); }
    }
    assert Gap(stabs, kind, k + 1, m);
  }

  /** The right bound of the interval in which the bisection of [l, r] first meets a value
      equal to `addr`, or -1 if it never does. */
  function HitBound(stabs: seq<Stab>, kind: int, addr: int, l: int, r: int): int
    requires 0 <= l && r < |stabs|
    decreases r - l + 1
  {
    if l > r then -1
    else
      var mid := (l + r) / 2;
      var m := LastMatch(stabs, kind, l, mid);
      if m < l || stabs[m].value < addr then HitBound(stabs, kind, addr, mid + 1, r)
      else if stabs[m].value > addr then HitBound(stabs, kind, addr, l, m - 1)
      else r
  }

  /** The entry at which the bisection of [l, r] first meets a value equal to `addr`, or -1. */
  function HitAt(stabs: seq<Stab>, kind: int, addr: int, l: int, r: int): int
    decreases r - l + 1
  {
    if l < 0 || r >= |stabs| || l > r then -1
    else
      var mid := (l + r) / 2;
      var m := LastMatch(stabs, kind, l, mid);
      if m < l || stabs[m].value < addr then HitAt(stabs, kind, addr, mid + 1, r)
      else if stabs[m].value > addr then HitAt(stabs, kind, addr, l, m - 1)
      else m
  }

  /** The entry at which the address wraps, for the last address but one: the search for the
      last address that follows the hit. */
  function WrapAt(stabs: seq<Stab>, kind: int, addr: int, lo: int, hi: int): int
    requires 0 <= lo && hi < |stabs|
  {
    HitAt(stabs, kind, addr + 1, HitAt(stabs, kind, addr, lo, hi), HitBound(stabs, kind, addr, lo, hi))
  }

  /** For the last address but one the search that overruns ends before the entry at which the
      address wraps; that happens to be right if an entry of this address is there. */
  ghost predicate Lucky(stabs: seq<Stab>, kind: int, lo: int, hi: int, addr: int)
    requires 0 <= lo && hi < |stabs|
  {
    var w := WrapAt(stabs, kind, addr, lo, hi);
    addr == MAX_ADDR - 1 && lo < w && Match(stabs, kind, w - 1) && Value(stabs, w - 1) == addr
  }

  /** After a hit the search goes on for addr + 1.  It overruns when that value is still in the
      interval, or does not fit in 32 bits. */
  ghost predicate Overruns(stabs: seq<Stab>, kind: int, lo: int, hi: int, addr: int)
    requires 0 <= lo && hi < |stabs|
  {
    var h := HitBound(stabs, kind, addr, lo, hi);
    h != -1 && (addr == MAX_ADDR || exists j :: Next(stabs, kind, lo, h, addr, j))
  }

  ghost predicate Next(stabs: seq<Stab>, kind: int, lo: int, hi: int, addr: int, j: int) {
    lo <= j <= hi && Match(stabs, kind, j) && Value(stabs, j) == addr + 1
  }

  // ---------- The search ----------

  ghost predicate LeftAt(stabs: seq<Stab>, kind: int, lo: int, l: int, a: int, i: int) {
    lo <= i < l && Match(stabs, kind, i) ==> Value(stabs, i) < a
  }

  ghost predicate RightAt(stabs: seq<Stab>, kind: int, r: int, hit: int, addr: int, i: int) {
    r < i <= hit && Match(stabs, kind, i) ==> Value(stabs, i) > addr + 1
  }

  ghost predicate Hit(stabs: seq<Stab>, kind: int, addr: int, lo: int, l: int, i: int) {
    lo <= i <= l && Match(stabs, kind, i) && Value(stabs, i) == addr
  }

  /** The state of the search: `a` is the raised address, `set` says that `left` was set, and
      `hit` is the right bound at the first hit, or -1. */
  ghost predicate Mid(stabs: seq<Stab>, kind: int, lo: int, hi: int, addr: int, l: int, r: int, left: int, a: int,
                      set_: bool, hit: int) {
    && 0 <= lo <= l <= r + 1 <= hi + 1 <= |stabs| && addr <= a <= MAX_ADDR
    && (forall i {:trigger LeftAt(stabs, kind, lo, l, a, i)} :: LeftAt(stabs, kind, lo, l, a, i))
    && (r < hi ==> Match(stabs, kind, r + 1) && Value(stabs, r + 1) > addr)
    && (set_ ==> lo <= left <= r && left <= l && Match(stabs, kind, left) && Value(stabs, left) < a)
    && (!set_ ==> left == lo && Gap(stabs, kind, lo, l - 1))
    && (hit == -1 ==> a == addr && HitBound(stabs, kind, addr, lo, hi) == HitBound(stabs, kind, addr, l, r))
    && (hit == -1 ==> HitAt(stabs, kind, addr, lo, hi) == HitAt(stabs, kind, addr, l, r))
    && (hit != -1 ==> Hit(stabs, kind, addr, lo, l, HitAt(stabs, kind, addr, lo, hi)))
    && (hit != -1 && a == addr + 1 ==> WrapAt(stabs, kind, addr, lo, hi) == HitAt(stabs, kind, addr + 1, l, r))
    && (hit != -1 ==> set_ && hit == HitBound(stabs, kind, addr, lo, hi) && r <= hit && a > addr)
    && (hit != -1 && a == addr + 1 ==>
          forall i {:trigger RightAt(stabs, kind, r, hit, addr, i)} :: RightAt(stabs, kind, r, hit, addr, i))
    && (hit != -1 && a > addr + 1 ==> Value(stabs, left) > addr && exists j :: Next(stabs, kind, lo, hit, addr, j))
  }

  /** The state after the raised address has wrapped around to 0. */
  ghost predicate Wrapped(stabs: seq<Stab>, kind: int, lo: int, hi: int, addr: int, l: int, r: int, left: int, a: int) {
    && 0 <= lo <= l <= r + 1 <= hi + 1 <= |stabs| && a == 0 && left == l <= hi
    && Match(stabs, kind, l) && Value(stabs, l) == MAX_ADDR && Overruns(stabs, kind, lo, hi, addr)
    && (addr < MAX_ADDR - 1 ==>
          exists i {:trigger Match(stabs, kind, i)} :: lo <= i < l && Match(stabs, kind, i) && Value(stabs, i) > addr)
    && (addr == MAX_ADDR - 1 ==>
          l == WrapAt(stabs, kind, addr, lo, hi) && Hit(stabs, kind, addr, lo, l, HitAt(stabs, kind, addr, lo, hi)))
  }

  /** Nothing of the type up to the middle, or a smaller value there. */
  lemma LeftMoves(stabs: seq<Stab>, kind: int, lo: int, hi: int, addr: int, l: int, r: int, left: int, a: int,
                  set_: bool, hit: int, l2: int)
    requires Sorted(stabs, kind) && Mid(stabs, kind, lo, hi, addr, l, r, left, a, set_, hit) && l <= r
    requires l2 == (l + r) / 2 + 1
    ensures var m := LastMatch(stabs, kind, l, l2 - 1);
            && (m < l ==> Mid(stabs, kind, lo, hi, addr, l2, r, left, a, set_, hit))
            && (m >= l && stabs[m].value < a ==> Mid(stabs, kind, lo, hi, addr, l2, r, m, a, true, hit))
  {
    var m := LastMatch(stabs, kind, l, l2 - 1);
    LastMatchGap(stabs, kind, l, l2 - 1);
    if m < l || stabs[m].value < a {
      forall i {:trigger LeftAt(stabs, kind, lo, l2, a, i)} | true
        ensures LeftAt(stabs, kind, lo, l2, a, i)
      {
        assert LeftAt(stabs, kind, lo, l, a, i) && GapAt(stabs, kind, m + 1, l2 - 1, i) && SortedAt(stabs, kind, i, m);
      }
    }
    if m < l && !set_ {
      forall i {:trigger GapAt(stabs, kind, lo, l2 - 1, i)} | true
        ensures GapAt(stabs, kind, lo, l2 - 1, i)
      {
        assert GapAt(stabs, kind, lo, l - 1, i) && GapAt(stabs, kind, m + 1, l2 - 1, i);
      }
    }
    if m >= l { assert SortedAt(stabs, kind, left, m); }
  }

  /** A greater value in the middle. */
  lemma RightMoves(stabs: seq<Stab>, kind: int, lo: int, hi: int, addr: int, l: int, r: int, left: int, a: int,
                   set_: bool, hit: int, r2: int)
    requires Sorted(stabs, kind) && Mid(stabs, kind, lo, hi, addr, l, r, left, a, set_, hit) && l <= r
    requires var m := LastMatch(stabs, kind, l, (l + r) / 2); m >= l && stabs[m].value > a && r2 == m - 1
    ensures Mid(stabs, kind, lo, hi, addr, l, r2, left, a, set_, hit)
  {
    var m := LastMatch(stabs, kind, l, (l + r) / 2);
    if hit != -1 && a == addr + 1 {
      forall i {:trigger RightAt(stabs, kind, r2, hit, addr, i)} | true
        ensures RightAt(stabs, kind, r2, hit, addr, i)
      {
        assert RightAt(stabs, kind, r, hit, addr, i) && SortedAt(stabs, kind, m, i);
      }
    }
  }

  /** An equal value in the middle, below the last address. */
  lemma Hits(stabs: seq<Stab>, kind: int, lo: int, hi: int, addr: int, l: int, r: int, left: int, a: int, set_: bool,
             hit: int)
    requires Sorted(stabs, kind) && Mid(stabs, kind, lo, hi, addr, l, r, left, a, set_, hit) && l <= r && a < MAX_ADDR
    requires var m := LastMatch(stabs, kind, l, (l + r) / 2); m >= l && stabs[m].value == a
    ensures var m := LastMatch(stabs, kind, l, (l + r) / 2);
            Mid(stabs, kind, lo, hi, addr, m, r, m, a + 1, true, if hit == -1 then r else hit)
  {
    var m := LastMatch(stabs, kind, l, (l + r) / 2);
    forall i {:trigger LeftAt(stabs, kind, lo, m, a + 1, i)} | true
      ensures LeftAt(stabs, kind, lo, m, a + 1, i)
    {
      assert SortedAt(stabs, kind, i, m);
    }
    if hit != -1 && a == addr + 1 { assert Next(stabs, kind, lo, hit, addr, m); }
  }

  /** An equal value in the middle, at the last address. */
  lemma Wraps(stabs: seq<Stab>, kind: int, lo: int, hi: int, addr: int, l: int, r: int, left: int, a: int, set_: bool,
              hit: int)
    requires Sorted(stabs, kind) && Mid(stabs, kind, lo, hi, addr, l, r, left, a, set_, hit) && l <= r && a == MAX_ADDR
    requires var m := LastMatch(stabs, kind, l, (l + r) / 2); m >= l && stabs[m].value == a
    ensures var m := LastMatch(stabs, kind, l, (l + r) / 2);
            Wrapped(stabs, kind, lo, hi, addr, m, r, m, 0)
  {
    var m := LastMatch(stabs, kind, l, (l + r) / 2);
    if hit != -1 {
      if a == addr + 1 { assert Next(stabs, kind, lo, hit, addr, m); }
      assert SortedAt(stabs, kind, m, left);
    }
  }

  /** After wrapping every value of the type counts as greater. */
  lemma WrappedMoves(stabs: seq<Stab>, kind: int, lo: int, hi: int, addr: int, l: int, r: int, left: int, a: int)
    requires Sorted(stabs, kind) && Wrapped(stabs, kind, lo, hi, addr, l, r, left, a) && l <= r
    ensures var m := LastMatch(stabs, kind, l, (l + r) / 2);
            m >= l && stabs[m].value > a && Wrapped(stabs, kind, lo, hi, addr, l, m - 1, left, a)
  {
    var m := LastMatch(stabs, kind, l, (l + r) / 2);
    LastMatchGap(stabs, kind, l, (l + r) / 2);
    assert GapAt(stabs, kind, m + 1, (l + r) / 2, l) && SortedAt(stabs, kind, l, m);
  }

  /** The inner loop of the search. */
  method FindMatch(stabs: seq<Stab>, kind: int, l: int, mid: int) returns (m: int)
    requires 0 <= l <= mid < |stabs|
    ensures m == LastMatch(stabs, kind, l, mid)
  {
    m := mid;
    while m >= l && stabs[m].kind != kind
      invariant l - 1 <= m <= mid && LastMatch(stabs, kind, l, mid) == LastMatch(stabs, kind, l, m)
    {
      m := m - 1;
    }
  }

  /** The last loop: the last entry of the type in (left, right], else `left`. */
  method FindRight(stabs: seq<Stab>, kind: int, left: int, right: int) returns (l: int)
    requires 0 <= left && right < |stabs|
    ensures right <= left ==> l == right
    ensures left < right ==>
            left <= l <= right && Gap(stabs, kind, l + 1, right) && (l > left ==> Match(stabs, kind, l))
  {
    l := right;
    while l > left && stabs[l].kind != kind
      invariant right <= left ==> l == right
      invariant left < right ==> left <= l <= right
      invariant Gap(stabs, kind, l + 1, right)
    {
      GapGrows(stabs, kind, l, right);
      l := l - 1;
    }
  }

  lemma GapGrows(stabs: seq<Stab>, kind: int, l: int, right: int)
    requires Gap(stabs, kind, l + 1, right) && !Match(stabs, kind, l)
    ensures Gap(stabs, kind, l, right)
  {
    forall i {:trigger GapAt(stabs, kind, l, right, i)} | true
      ensures GapAt(stabs, kind, l, right, i)
    {
      assert GapAt(stabs, kind, l + 1, right, i);
    }
  }

  /** Some entry of the type in [lo, hi] has a value up to `addr`. */
  ghost predicate BelowAt(stabs: seq<Stab>, kind: int, lo: int, hi: int, addr: int, i: int) {
    lo <= i <= hi && Match(stabs, kind, i) && Value(stabs, i) <= addr
  }

  ghost predicate Below(stabs: seq<Stab>, kind: int, lo: int, hi: int, addr: int) {
    exists i :: BelowAt(stabs, kind, lo, hi, addr, i)
  }

  /** The search is under way: `any` says that an entry of the type was met. */
  ghost predicate Searching(stabs: seq<Stab>, kind: int, lo: int, hi: int, addr: int, l: int, r: int, left: int, a: int,
                            any: bool, set_: bool, hit: int, wrapped: bool) {
    && (set_ ==> any && Below(stabs, kind, lo, hi, addr)) && l <= r + 1 && 0 <= l && r < |stabs| && 0 <= a <= MAX_ADDR
    && (if wrapped then set_ && Wrapped(stabs, kind, lo, hi, addr, l, r, left, a)
        else Mid(stabs, kind, lo, hi, addr, l, r, left, a, set_, hit) && any == (set_ || r < hi))
  }

  /** The address plus one, in 32 bits. */
  function NextAddr(a: int): (b: int)
    requires 0 <= a <= MAX_ADDR
    ensures b == if a == MAX_ADDR then 0 else a + 1
  {
    (a + 1) % 0x1_0000_0000
  }

  /** What each branch of the loop body leaves. */
  lemma Round(stabs: seq<Stab>, kind: int, lo: int, hi: int, addr: int, l: int, r: int, left: int, a: int,
              any: bool, set_: bool, hit: int, wrapped: bool, l2: int, m: int, r2: int)
    requires Sorted(stabs, kind) && Searching(stabs, kind, lo, hi, addr, l, r, left, a, any, set_, hit, wrapped)
             && l <= r
    requires 0 <= addr && l2 == (l + r) / 2 + 1 && m == LastMatch(stabs, kind, l, l2 - 1) && r2 == m - 1
    ensures m < l ==> Searching(stabs, kind, lo, hi, addr, l2, r, left, a, any, set_, hit, wrapped)
    ensures m >= l && stabs[m].value < a ==> Searching(stabs, kind, lo, hi, addr, l2, r, m, a, true, true, hit, wrapped)
    ensures m >= l && stabs[m].value > a ==>
            Searching(stabs, kind, lo, hi, addr, l, r2, left, a, true, set_, hit, wrapped)
    ensures m >= l && stabs[m].value == a ==>
              && !wrapped
              && Searching(stabs, kind, lo, hi, addr, m, r, m, NextAddr(a), true, true,
                           if a < MAX_ADDR && hit == -1 then r else hit, a == MAX_ADDR)
  {
    if wrapped {
      WrappedMoves(stabs, kind, lo, hi, addr, l, r, left, a);
    } else {
      LeftMoves(stabs, kind, lo, hi, addr, l, r, left, a, set_, hit, l2);
      if m >= l && stabs[m].value <= a {
        assert !set_ ==> BelowAt(stabs, kind, lo, hi, addr, m);
        if stabs[m].value == a {
          if a == MAX_ADDR {
            Wraps(stabs, kind, lo, hi, addr, l, r, left, a, set_, hit);
          } else {
            Hits(stabs, kind, lo, hi, addr, l, r, left, a, set_, hit);
          }
        }
      } else if m >= l {
        RightMoves(stabs, kind, lo, hi, addr, l, r, left, a, set_, hit, r2);
      }
    }
  }

  /** How far the search is from its end: the interval, then the room above the address. */
  function Room(a: int, wrapped: bool): int { if wrapped then 0 else 1 + MAX_ADDR - a }

  /** The body of the main loop. */
  method Probe(stabs: seq<Stab>, kind: int, lo: int, hi: int, addr: int, l0: int, r0: int, left0: int, a0: int,
               any0: bool, ghost set0: bool, ghost hit0: int, ghost wrapped0: bool)
    returns (l: int, r: int, left: int, a: int, any: bool, ghost set_: bool, ghost hit: int, ghost wrapped: bool)
    requires Sorted(stabs, kind) && 0 <= addr && l0 <= r0
    requires Searching(stabs, kind, lo, hi, addr, l0, r0, left0, a0, any0, set0, hit0, wrapped0)
    ensures Searching(stabs, kind, lo, hi, addr, l, r, left, a, any, set_, hit, wrapped)
    ensures r - l < r0 - l0 || (r - l == r0 - l0 && 0 <= Room(a, wrapped) < Room(a0, wrapped0))
  {
    var mid := (l0 + r0) / 2;
    var m := FindMatch(stabs, kind, l0, mid);
    Round(stabs, kind, lo, hi, addr, l0, r0, left0, a0, any0, set0, hit0, wrapped0, mid + 1, m, m - 1);
    if m < l0 {
      return mid + 1, r0, left0, a0, any0, set0, hit0, wrapped0;
    }
    if stabs[m].value < a0 {
      return mid + 1, r0, m, a0, true, true, hit0, wrapped0;
    }
    if stabs[m].value > a0 {
      return l0, m - 1, left0, a0, true, set0, hit0, wrapped0;
    }
    return m, r0, m, NextAddr(a0), true, true, if a0 < MAX_ADDR && hit0 == -1 then r0 else hit0, a0 == MAX_ADDR;
  }

  /** The main loop; the right end of the region and of the interval move together. */
  method Bisect(stabs: seq<Stab>, kind: int, lo: int, hi: int, addr: int)
    returns (left: int, right: int, any: bool, ghost l: int, ghost a: int, ghost set_: bool, ghost hit: int,
             ghost wrapped: bool)
    requires Sorted(stabs, kind) && 0 <= lo <= hi + 1 <= |stabs| && 0 <= addr <= MAX_ADDR
    ensures l > right && Searching(stabs, kind, lo, hi, addr, l, right, left, a, any, set_, hit, wrapped)
  {
    var l1, a1 := lo, addr;
    left, right, any := lo, hi, false;
    set_, hit, wrapped := false, -1, false;
    while l1 <= right
      invariant Searching(stabs, kind, lo, hi, addr, l1, right, left, a1, any, set_, hit, wrapped)
      decreases right - l1 + 1, Room(a1, wrapped)
    {
      l1, right, left, a1, any, set_, hit, wrapped :=
        Probe(stabs, kind, lo, hi, addr, l1, right, left, a1, any, set_, hit, wrapped);
    }
    l, a := l1, a1;
  }

  /** The search ended with nothing found up to the address. */
  lemma NothingBelow(stabs: seq<Stab>, kind: int, lo: int, hi: int, addr: int, l: int, r: int, left: int, a: int,
                     hit: int)
    requires Sorted(stabs, kind) && Mid(stabs, kind, lo, hi, addr, l, r, left, a, false, hit) && l > r
    ensures Gap(stabs, kind, lo, r) && !Below(stabs, kind, lo, hi, addr) && (Gap(stabs, kind, lo, hi) <==> r == hi)
  {
    assert l - 1 == r;
    forall i {:trigger GapAt(stabs, kind, lo, r, i)} | true
      ensures GapAt(stabs, kind, lo, r, i)
    {
      assert GapAt(stabs, kind, lo, l - 1, i);
    }
    forall i {:trigger BelowAt(stabs, kind, lo, hi, addr, i)} | true
      ensures !BelowAt(stabs, kind, lo, hi, addr, i)
    {
      assert GapAt(stabs, kind, lo, r, i) && SortedAt(stabs, kind, r + 1, i);
    }
    if r < hi { assert !GapAt(stabs, kind, lo, hi, r + 1); }
  }

  /** The search ended on a left bound: the answer is right exactly unless it overran. */
  lemma Found(stabs: seq<Stab>, kind: int, lo: int, hi: int, addr: int, l: int, r: int, left: int, a: int, hit: int,
              left2: int)
    requires Sorted(stabs, kind) && Mid(stabs, kind, lo, hi, addr, l, r, left, a, true, hit) && l > r
    requires left <= left2 <= r && Gap(stabs, kind, left2 + 1, r) && Match(stabs, kind, left2)
    ensures Brackets(stabs, kind, lo, hi, addr, left2, r) <==> !Overruns(stabs, kind, lo, hi, addr)
    ensures Overruns(stabs, kind, lo, hi, addr) ==> !Lucky(stabs, kind, lo, hi, addr)
  {
    assert LeftAt(stabs, kind, lo, l, a, left2) && SortedAt(stabs, kind, left, left2);
    if hit != -1 && a == addr + 1 {
      forall j {:trigger Next(stabs, kind, lo, hit, addr, j)} | true
        ensures !Next(stabs, kind, lo, hit, addr, j)
      {
        assert LeftAt(stabs, kind, lo, l, a, j) && RightAt(stabs, kind, r, hit, addr, j);
      }
    }
  }

  /** stab_binsearch.  With no entry of the type it leaves an empty range; with entries of the
      type that are all above the address it leaves the range before the first; else it
      brackets the address unless it overruns. */
  method StabBinsearch(stabs: seq<Stab>, kind: int, lo: int, hi: int, addr: int) returns (left: int, right: int)
    requires Sorted(stabs, kind) && 0 <= lo <= hi + 1 <= |stabs| && 0 <= addr <= MAX_ADDR
    ensures Gap(stabs, kind, lo, hi) ==> left == lo && right == lo - 1
    ensures !Gap(stabs, kind, lo, hi) && !Below(stabs, kind, lo, hi, addr) ==>
              lo - 1 <= right < hi && Gap(stabs, kind, lo, right) && Match(stabs, kind, right + 1)
              && left == if right < lo then right else lo
    ensures Below(stabs, kind, lo, hi, addr) ==>
              (Brackets(stabs, kind, lo, hi, addr, left, right)
               <==> !Overruns(stabs, kind, lo, hi, addr) || Lucky(stabs, kind, lo, hi, addr))
  {
    var any;
    ghost var l, a, set_, hit, wrapped;
    left, right, any, l, a, set_, hit, wrapped := Bisect(stabs, kind, lo, hi, addr);
    ghost var left1 := left;
    if !set_ { NothingBelow(stabs, kind, lo, hi, addr, l, right, left, a, hit); }
    if set_ { BelowNoGap(stabs, kind, lo, hi, addr); }
    if !any {
      right := left - 1;
    } else {
      left := FindRight(stabs, kind, left, right);
      if set_ && !wrapped {
        Found(stabs, kind, lo, hi, addr, l, right, left1, a, hit, left);
      } else if wrapped {
        WrappedWrong(stabs, kind, lo, hi, addr, l, right, left1, a);
      } else {
        FirstScan(stabs, kind, lo, right, left);
      }
    }
  }

  lemma BelowNoGap(stabs: seq<Stab>, kind: int, lo: int, hi: int, addr: int)
    requires Below(stabs, kind, lo, hi, addr)
    ensures !Gap(stabs, kind, lo, hi)
  {
    var i :| BelowAt(stabs, kind, lo, hi, addr, i);
    assert !GapAt(stabs, kind, lo, hi, i);
  }

  lemma FirstScan(stabs: seq<Stab>, kind: int, lo: int, right: int, l: int)
    requires Gap(stabs, kind, lo, right) && (right <= lo ==> l == right)
    requires lo < right ==> lo <= l <= right && (l > lo ==> Match(stabs, kind, l))
    ensures l == if right < lo then right else lo
  {
    assert GapAt(stabs, kind, lo, right, l);
  }

  lemma WrappedWrong(stabs: seq<Stab>, kind: int, lo: int, hi: int, addr: int, l: int, r: int, left: int, a: int)
    requires Sorted(stabs, kind) && Wrapped(stabs, kind, lo, hi, addr, l, r, left, a) && l > r
    ensures r == left - 1 && (Brackets(stabs, kind, lo, hi, addr, r, r) <==> Lucky(stabs, kind, lo, hi, addr))
  {
    if addr < MAX_ADDR - 1 {
      var i :| lo <= i < l && Match(stabs, kind, i) && Value(stabs, i) > addr;
      assert SortedAt(stabs, kind, i, r);
    }
    if addr == MAX_ADDR - 1 {
      assert SortedAt(stabs, kind, HitAt(stabs, kind, addr, lo, hi), r);
      forall i {:trigger GapAt(stabs, kind, r + 1, r, i)} | true
        ensures GapAt(stabs, kind, r + 1, r, i)
      {
      }
    }
  }

  // ---------- When it does not overrun ----------

  lemma {:induction false} HitBoundInside(stabs: seq<Stab>, kind: int, addr: int, l: int, r: int)
    requires 0 <= l && r < |stabs|
    ensures HitBound(stabs, kind, addr, l, r) <= if l > r then -1 else r
    decreases r - l + 1
  {
    if l <= r {
      var mid := (l + r) / 2;
      var m := LastMatch(stabs, kind, l, mid);
      if m < l || stabs[m].value < addr {
        HitBoundInside(stabs, kind, addr, mid + 1, r);
      } else if stabs[m].value > addr {
        HitBoundInside(stabs, kind, addr, l, m - 1);
      }
    }
  }

  /** The search does not overrun where no entry of the type has the next address. */
  lemma NoSuccessor(stabs: seq<Stab>, kind: int, lo: int, hi: int, addr: int)
    requires 0 <= lo && hi < |stabs| && addr < MAX_ADDR
    requires forall j {:trigger Next(stabs, kind, lo, hi, addr, j)} :: !Next(stabs, kind, lo, hi, addr, j)
    ensures !Overruns(stabs, kind, lo, hi, addr)
  {
    HitBoundInside(stabs, kind, addr, lo, hi);
    var h := HitBound(stabs, kind, addr, lo, hi);
    forall j {:trigger Next(stabs, kind, lo, h, addr, j)} | true
      ensures !Next(stabs, kind, lo, h, addr, j)
    {
      assert !Next(stabs, kind, lo, hi, addr, j);
    }
  }

  /** It does overrun for the first of two entries one byte apart. */
  lemma SuccessorOverruns(kind: int, addr: int)
    requires 0 <= addr < MAX_ADDR
    ensures var stabs := [Stab(kind, addr), Stab(kind, addr + 1)];
            Sorted(stabs, kind) && Below(stabs, kind, 0, 1, addr) && Overruns(stabs, kind, 0, 1, addr)
  {
    var stabs := [Stab(kind, addr), Stab(kind, addr + 1)];
    assert BelowAt(stabs, kind, 0, 1, addr, 0);
    assert LastMatch(stabs, kind, 0, 0) == 0 && HitBound(stabs, kind, addr, 0, 1) == 1;
    assert Next(stabs, kind, 0, 1, addr, 1);
  }

  /** The last two addresses: the search overruns, and ends at the right entry all the same. */
  lemma LuckyExample(kind: int)
    ensures var stabs := [Stab(kind, MAX_ADDR - 1), Stab(kind, MAX_ADDR)];
            && Sorted(stabs, kind) && Overruns(stabs, kind, 0, 1, MAX_ADDR - 1)
            && Lucky(stabs, kind, 0, 1, MAX_ADDR - 1)
  {
    var stabs := [Stab(kind, MAX_ADDR - 1), Stab(kind, MAX_ADDR)];
    SuccessorOverruns(kind, MAX_ADDR - 1);
    assert LastMatch(stabs, kind, 0, 0) == 0 && LastMatch(stabs, kind, 1, 1) == 1;
    assert HitAt(stabs, kind, MAX_ADDR - 1, 0, 1) == 0 && HitBound(stabs, kind, MAX_ADDR - 1, 0, 1) == 1;
    assert HitAt(stabs, kind, MAX_ADDR, 1, 1) == 1 == HitAt(stabs, kind, MAX_ADDR, 0, 1);
  }
}
