/** The ring buffer of a pipe (`lib/pipe.c`): shared memory, one reader, one writer, no lock. */
module PipeRing {

  /** Positions that are less than `n` apart are in different places of the ring. */
  lemma PlacesDiffer(a: int, b: int, n: int)
    requires 0 <= a < b < a + n
    ensures a % n != b % n
  {
    var p, q := a / n, b / n;
    assert a == p * n + a % n && b == q * n + b % n;
    assert b - a == (q - p) * n + (b % n - a % n);
    if q > p {
      Times(q - p, n);
    } else if q < p {
      Times(p - q, n);
      assert false;
    }
  }

  lemma Times(k: int, n: int)
    requires k >= 1 && n >= 0
    ensures k * n >= n
  {
  }

  /** The bytes from position `r` to `w` are in the ring. */
  ghost predicate HoldsAt(buf: seq<int>, r: int, w: int, stream: seq<int>, k: int) {
    0 <= r <= k < w <= |stream| && |buf| > 0 ==> buf[k % |buf|] == stream[k]
  }

  ghost predicate Holds(buf: seq<int>, r: int, w: int, stream: seq<int>) {
    forall k {:trigger HoldsAt(buf, r, w, stream, k)} :: HoldsAt(buf, r, w, stream, k)
  }

  /** Storing one more byte behind the others leaves them in place. */
  lemma StoreHolds(buf: seq<int>, r: int, w: int, stream: seq<int>, b: int)
    requires 0 <= r <= w == |stream| && w - r < |buf| && Holds(buf, r, w, stream)
    ensures Holds(buf[w % |buf| := b], r, w, stream) && Holds(buf[w % |buf| := b], r, w + 1, stream + [b])
  {
    var buf2, stream2 := buf[w % |buf| := b], stream + [b];
    forall k {:trigger HoldsAt(buf2, r, w, stream, k)} {:trigger HoldsAt(buf2, r, w + 1, stream2, k)} | true
      ensures HoldsAt(buf2, r, w, stream, k) && HoldsAt(buf2, r, w + 1, stream2, k)
    {
      assert HoldsAt(buf, r, w, stream, k);
      if r <= k < w { PlacesDiffer(k, w, |buf|); }
    }
  }

  lemma TakeHolds(buf: seq<int>, r: int, w: int, stream: seq<int>)
    requires 0 <= r && Holds(buf, r, w, stream)
    ensures Holds(buf, r + 1, w, stream)
  {
    forall k {:trigger HoldsAt(buf, r + 1, w, stream, k)} | true
      ensures HoldsAt(buf, r + 1, w, stream, k)
    {
      assert HoldsAt(buf, r, w, stream, k);
    }
  }

  function Unsigned(x: int): int { x % 0x1_0000_0000 }

  /** The check of a full ring, with the wrap-around of unsigned positions. */
  lemma FullExact(r: int, w: int, n: int)
    requires 0 <= r <= w <= r + n && 0 < n < 0x8000_0000 && w < 0x8000_0000
    ensures Unsigned(w) >= Unsigned(r + n) <==> w - r == n
  {
    assert Unsigned(w) == w && Unsigned(r + n) == r + n;
  }

  /** Bytes appended behind position `r` are appended to what is left from there. */
  lemma AppendedFrom(s: seq<int>, r: int, more: seq<int>)
    requires 0 <= r <= |s|
    ensures (s + more)[r..] == s[r..] + more
  {
  }

  /** Taking one more byte of `more`. */
  lemma OneMore(s: seq<int>, more: seq<int>, i: int)
    requires 0 <= i < |more|
    ensures s + more[..i] + [more[i]] == s + more[..i + 1]
  {
  }

  // ---------- Reader and writer interleaved ----------

  /** Where the reader is: about to check, about to copy the byte, about to move on with it. */
  datatype ReaderPc = RCheck | RCopy | RInc(b: int)

  datatype WriterPc = WCheck | WStore(b: int) | WInc(b: int)

  /** `sent` and `got` are the bytes written and read so far. */
  datatype State = State(buf: seq<int>, rpos: int, wpos: int, reader: ReaderPc, writer: WriterPc, sent: seq<int>,
                         got: seq<int>)

  /** The reader goes on, or the writer does; `b` is the byte it wants to write next. */
  datatype Move = Read | Write(b: int)

  function Step(s: State, m: Move): State
    requires |s.buf| > 0
  {
    match m
    case Read => (
      match s.reader
      case RCheck => if s.rpos == s.wpos then s else s.(reader := RCopy)
      case RCopy => s.(reader := RInc(s.buf[s.rpos % |s.buf|]))
      case RInc(b) => s.(rpos := s.rpos + 1, reader := RCheck, got := s.got + [b]))
    case Write(next) => (
      match s.writer
      case WCheck => if Unsigned(s.wpos) >= Unsigned(s.rpos + |s.buf|) then s else s.(writer := WStore(next))
      case WStore(b) => s.(buf := s.buf[s.wpos % |s.buf| := b], writer := WInc(b))
      case WInc(b) => s.(wpos := s.wpos + 1, writer := WCheck, sent := s.sent + [b]))
  }

  ghost predicate Inv(s: State) {
    && 0 < |s.buf| < 0x8000_0000 && s.wpos == |s.sent| && s.rpos == |s.got|
    && 0 <= s.wpos - s.rpos <= |s.buf|
    && s.got == s.sent[..s.rpos] && Holds(s.buf, s.rpos, s.wpos, s.sent)
    && (!s.reader.RCheck? ==> s.rpos < s.wpos)
    && (s.reader.RInc? ==> s.reader.b == s.sent[s.rpos])
    && (!s.writer.WCheck? ==> s.wpos - s.rpos < |s.buf|)
    && (s.writer.WInc? ==> Holds(s.buf, s.rpos, s.wpos + 1, s.sent + [s.writer.b]))
  }

  lemma ReadKeeps(s: State)
    requires Inv(s)
    ensures Inv(Step(s, Read))
  {
    match s.reader
    case RCheck =>
    case RCopy => assert HoldsAt(s.buf, s.rpos, s.wpos, s.sent, s.rpos);
    case RInc(b) =>
      TakeHolds(s.buf, s.rpos, s.wpos, s.sent);
      if s.writer.WInc? { TakeHolds(s.buf, s.rpos, s.wpos + 1, s.sent + [s.writer.b]); }
      assert s.sent[..s.rpos] + [b] == s.sent[..s.rpos + 1];
  }

  lemma WriteKeeps(s: State, next: int)
    requires Inv(s) && s.wpos < 0x8000_0000
    ensures Inv(Step(s, Write(next)))
  {
    match s.writer
    case WCheck =>
    case WStore(b) => StoreHolds(s.buf, s.rpos, s.wpos, s.sent, b);
    case WInc(b) =>
      assert (s.sent + [b])[..s.rpos] == s.sent[..s.rpos];
  }

  /** A run of the two. */
  ghost function Run(s: State, ms: seq<Move>): (t: State)
    requires |s.buf| > 0
    ensures |t.buf| == |s.buf|
  {
    if ms == [] then s else Step(Run(s, ms[..|ms| - 1]), ms[|ms| - 1])
  }

  /** An empty pipe. */
  ghost predicate Fresh(s: State) {
    0 < |s.buf| < 0x8000_0000 && s == State(s.buf, 0, 0, RCheck, WCheck, [], [])
  }

  ghost predicate ShortAt(s: State, ms: seq<Move>, k: int)
    requires |s.buf| > 0
  {
    0 <= k < |ms| ==> Run(s, ms[..k]).wpos < 0x8000_0000
  }

  /** In every interleaving of reader and writer, while the positions fit in 31 bits, the
      bytes read are a prefix of the bytes written, and the ring never holds more than its
      size. */
  lemma {:induction false} ReadIsPrefix(s: State, ms: seq<Move>)
    requires Fresh(s) && forall k {:trigger ShortAt(s, ms, k)} :: ShortAt(s, ms, k)
    ensures var t := Run(s, ms);
            && t.got <= t.sent && 0 <= t.wpos - t.rpos <= |t.buf|
            && t.wpos == |t.sent| && t.rpos == |t.got|
    ensures Inv(Run(s, ms))
  {
    if ms == [] {
      assert s.sent[..0] == s.got;
    } else {
      var n := |ms| - 1;
      forall k {:trigger ShortAt(s, ms[..n], k)} | true
        ensures ShortAt(s, ms[..n], k)
      {
        assert ShortAt(s, ms, k);
        if 0 <= k < n { assert ms[..n][..k] == ms[..k]; }
      }
      ReadIsPrefix(s, ms[..n]);
      assert ShortAt(s, ms, n);
      var t := Run(s, ms[..n]);
      match ms[n]
      case Read => ReadKeeps(t);
      case Write(b) => WriteKeeps(t, b);
    }
  }

  // ---------- Reads and writes that are not interrupted ----------

  class Pipe {
    var rpos: int
    var wpos: int
    const buf: array<int>
    ghost var stream: seq<int>

    ghost predicate Valid()
      reads this, buf
    {
      && 0 < buf.Length < 0x8000_0000 && 0 <= rpos <= wpos == |stream| && wpos - rpos <= buf.Length
      && Holds(buf[..], rpos, wpos, stream)
    }

    /** The bytes in the pipe, oldest first. */
    ghost function Contents(): seq<int>
      requires Valid()
      reads this, buf
    {
      stream[rpos..wpos]
    }

    constructor (n: int)
      requires 0 < n < 0x8000_0000
      ensures Valid() && Contents() == [] && fresh(buf) && buf.Length == n
    {
      rpos, wpos, stream := 0, 0, [];
      buf := new int[n];
    }

    /** devpipe_read up to where it would wait or return: it takes the oldest bytes, as many
        as are wanted and there. */
    method Read(n: int) returns (data: seq<int>)
      requires Valid() && 0 <= n
      modifies this`rpos
      ensures Valid() && data + Contents() == old(Contents())
      ensures |data| == if n < |old(Contents())| then n else |old(Contents())|
    {
      data := [];
      var i := 0;
      while i < n && rpos != wpos
        invariant 0 <= i <= n && Valid() && |data| == i && rpos == old(rpos) + i
        invariant data == stream[old(rpos)..rpos]
      {
        assert HoldsAt(buf[..], rpos, wpos, stream, rpos);
        TakeHolds(buf[..], rpos, wpos, stream);
        data := data + [buf[rpos % buf.Length]];
        rpos := rpos + 1;
        i := i + 1;
      }
      assert data + Contents() == stream[old(rpos)..wpos];
    }

    /** devpipe_write up to where it would wait: it appends as many bytes as fit. */
    method Write(data: seq<int>) returns (i: int)
      requires Valid() && wpos + |data| < 0x8000_0000
      modifies this`wpos, this`stream, buf
      ensures Valid() && 0 <= i <= |data| && Contents() == old(Contents()) + data[..i]
      ensures i < |data| ==> |Contents()| == buf.Length
    {
      i := 0;
      FullExact(rpos, wpos, buf.Length);
      while i < |data| && !(Unsigned(wpos) >= Unsigned(rpos + buf.Length))
        invariant 0 <= i <= |data| && Valid() && wpos == old(wpos) + i
        invariant stream == old(stream) + data[..i]
        invariant Unsigned(wpos) >= Unsigned(rpos + buf.Length) <==> wpos - rpos == buf.Length
      {
        Put(data[i]);
        OneMore(old(stream), data, i);
        FullExact(rpos, wpos, buf.Length);
        i := i + 1;
      }
      AppendedFrom(old(stream), rpos, data[..i]);
    }

    /** Store one byte and move on. */
    method Put(b: int)
      requires Valid() && wpos - rpos < buf.Length
      modifies this`wpos, this`stream, buf
      ensures Valid() && wpos == old(wpos) + 1 && stream == old(stream) + [b]
    {
      StoreHolds(buf[..], rpos, wpos, stream, b);
      ghost var buf2 := buf[..][wpos % buf.Length := b];
      buf[wpos % buf.Length] := b;
      assert buf[..] == buf2;
      stream := stream + [b];
      wpos := wpos + 1;
    }
  }
}
