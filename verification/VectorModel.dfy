/** The vector on top of a buffer with spare room at both ends, with every object's lifetime. */
module VectorModel {
  import opened Wrappers
  import opened Blocks
  import opened VectorMemory

  datatype LengthError = LengthError

  function Values<T>(s: seq<Slot<T>>): (vals: seq<T>)
    requires AllLive(s)
    ensures |vals| == |s| && forall i :: 0 <= i < |s| ==> vals[i] == s[i].value
  {
    seq(|s|, i requires 0 <= i < |s| => s[i].value)
  }

  /** Slots [first, last) hold objects and all the others are raw. */
  ghost predicate LiveExactly<T>(s: seq<Slot<T>>, first: nat, last: nat) {
    && first <= last <= |s|
    && (forall i :: first <= i < last ==> s[i].Live?)
    && (forall i :: 0 <= i < |s| && !(first <= i < last) ==> s[i].Raw?)
  }

  /** Slots [first, last) hold objects, with or without their values, and all the others are raw. */
  ghost predicate ObjectsExactly<T>(s: seq<Slot<T>>, first: nat, last: nat) {
    && first <= last <= |s|
    && (forall i :: 0 <= i < |s| ==> (s[i].Raw? <==> !(first <= i < last)))
  }

  /** What inserting mid at p makes of a sequence. */
  function Inserted<T>(vals: seq<T>, p: nat, mid: seq<T>): (r: seq<T>)
    requires p <= |vals|
    ensures |r| == |vals| + |mid|
  {
    vals[..p] + mid + vals[p..]
  }

  lemma NothingInserted<T>()
    ensures Inserted<T>([], 0, []) == []
  {
  }

  lemma InsertingNothing<T>(vals: seq<T>, p: nat)
    requires p <= |vals|
    ensures Inserted(vals, p, []) == vals
  {
  }

  /** The slots c arise from b by moving those from p to end up by n and putting mid into the gap. */
  ghost predicate GapFilled<T>(b: seq<Slot<T>>, end: nat, p: nat, mid: seq<T>, c: seq<Slot<T>>) {
    && p <= end && end + |mid| <= |b| == |c|
    && (forall q :: 0 <= q < p ==> c[q] == b[q])
    && (forall q :: p <= q < p + |mid| ==> c[q] == Live(mid[q - p]))
    && (forall q :: p + |mid| <= q < end + |mid| ==> c[q] == b[q - |mid|])
    && (forall q :: end + |mid| <= q < |c| ==> c[q] == b[q])
  }

  /** The slots g arise from b by moving those from p to end up by n. */
  ghost predicate GapOpened<T>(b: seq<Slot<T>>, end: nat, p: nat, n: nat, g: seq<Slot<T>>) {
    && p <= end && end + n <= |b| == |g|
    && (forall q :: 0 <= q < p ==> g[q] == b[q])
    && (forall q :: p <= q < Min(p + n, end) ==> g[q] == Moved)
    && (forall q :: end <= q < p + n ==> g[q] == b[q])
    && (forall q :: p + n <= q < end + n ==> g[q] == b[q - n])
    && (forall q :: end + n <= q < |g| ==> g[q] == b[q])
  }

  lemma OpensGap<T>(b: seq<Slot<T>>, end: nat, p: nat, n: nat, g: seq<Slot<T>>)
    requires p <= end && end + n <= |b| == |g|
    requires forall q :: p + n <= q < end + n ==> g[q] == b[q - n]
    requires forall q :: p <= q < Min(p + n, end) ==> g[q] == Moved
    requires forall q :: 0 <= q < p || end <= q < p + n || end + n <= q < |g| ==> g[q] == b[q]
    ensures GapOpened(b, end, p, n, g)
  {
  }

  /**
   * The part of mid that lands beyond the end is constructed first, the gap is opened, and the rest
   * of mid is assigned: together that fills the gap with mid.
   */
  lemma FillsGap<T>(b: seq<Slot<T>>, c: seq<Slot<T>>, end: nat, p: nat, mid: seq<T>, rest: nat, g: seq<Slot<T>>)
    requires p <= end && end + |mid| <= |b|
    requires rest == Min(|mid|, end - p) && c == Splice(b, end, Lives(mid[rest..]))
    requires GapOpened(c, end, p, |mid|, g)
    ensures GapFilled(b, end, p, mid, Splice(g, p, Lives(mid[..rest])))
  {
    var f := Splice(g, p, Lives(mid[..rest]));
    SpliceLives(g, p, mid[..rest]);
    SpliceLives(b, end, mid[rest..]);
    hide Splice, Lives;
    forall q | p <= q < p + |mid|
      ensures f[q] == Live(mid[q - p])
    {
      if q < p + rest {
        assert mid[..rest][q - p] == mid[q - p];
      } else {
        assert f[q] == g[q] == c[q] && mid[rest..][q - end] == mid[q - p];
      }
    }
  }

  lemma SpliceLives<T>(b: seq<Slot<T>>, at: nat, vals: seq<T>)
    requires at + |vals| <= |b|
    ensures |Splice(b, at, Lives(vals))| == |b|
    ensures forall q :: 0 <= q < |b| ==>
              Splice(b, at, Lives(vals))[q] == if at <= q < at + |vals| then Live(vals[q - at]) else b[q]
  {
  }

  lemma FillsGapOfOne<T>(b: seq<Slot<T>>, end: nat, p: nat, v: T, g: seq<Slot<T>>)
    requires p < end < |b| && GapOpened(b, end, p, 1, g)
    ensures g[p] == Moved && GapFilled(b, end, p, [v], g[p := Live(v)])
  {
  }

  /**
   * The objects [from, end) move up to to: those that land beyond last first, in mid, and then the others.
   * Together that opens the gap.
   */
  lemma MovedInTwo<T>(b: seq<Slot<T>>, mid: seq<Slot<T>>, g: seq<Slot<T>>, from: nat, end: nat, to: nat, last: nat)
    requires from <= end <= last && from < to <= last <= end + (to - from) <= |b| == |mid| == |g|
    requires MovedOut(b, mid, from + (last - to), end, last) && MovedUp(mid, g, from, from + (last - to), last)
    ensures GapOpened(b, end, from, to - from, g)
  {
    hide GapOpened;
    var k, i := to - from, from + (last - to);
    forall q | to <= q < end + k
      ensures g[q] == b[q - k]
    {
      if q < last {
        assert g[q] == mid[q - (last - i)] && last - i == k;
      }
    }
    forall q | from <= q < Min(to, end)
      ensures g[q] == Moved
    {
      assert q >= i ==> g[q] == mid[q];
    }
    OpensGap(b, end, from, k, g);
  }

  lemma StillObjects<T>(b: seq<Slot<T>>, mid: seq<Slot<T>>, from: nat, i: nat, end: nat, last: nat)
    requires from <= i && MovedOut(b, mid, i, end, last) && forall q :: 0 <= q < last ==> b[q].Live?
    ensures forall q :: from <= q < i ==> mid[q].Live?
    ensures forall q :: from <= q < last ==> !mid[q].Raw?
  {
  }

  /** The slots that have to be assigned still hold objects. */
  lemma GapHoldsObjects<T>(c: seq<Slot<T>>, end: nat, p: nat, n: nat, g: seq<Slot<T>>)
    requires GapOpened(c, end, p, n, g)
    ensures forall q :: p <= q < p + Min(n, end - p) ==> g[q] == Moved
  {
  }

  lemma FoundAfterGap<T>(b: seq<Slot<T>>, end: nat, p: nat, n: nat, g: seq<Slot<T>>, at: nat)
    requires GapOpened(b, end, p, n, g) && at < end
    ensures g[if at < p then at else at + n] == b[at]
  {
  }

  /** A gap behind the last object is there already. */
  lemma GapAtEnd<T>(c: seq<Slot<T>>, end: nat, n: nat)
    requires end + n <= |c|
    ensures GapOpened(c, end, end, n, c) && Splice(c, end, Lives([])) == c
  {
  }

  lemma GapFilledInserts<T>(b: seq<Slot<T>>, end: nat, p: nat, mid: seq<T>, c: seq<Slot<T>>)
    requires LiveExactly(b, 0, end) && GapFilled(b, end, p, mid, c)
    ensures LiveExactly(c, 0, end + |mid|)
    ensures Values(c[..end + |mid|]) == Inserted(Values(b[..end]), p, mid)
  {
  }

  lemma RotationInserts<T>(b: seq<Slot<T>>, p: nat, last: nat, end: nat)
    requires p <= last <= end <= |b| && LiveExactly(b, 0, end)
    ensures LiveExactly(Splice(b, p, b[last..end] + b[p..last]), 0, end)
    ensures Values(Splice(b, p, b[last..end] + b[p..last])[..end])
            == Inserted(Values(b[..end])[..last], p, Values(b[..end])[last..])
  {
  }

  /** The slots c arise from b by moving the objects from last to end down to first. */
  lemma ClosedGap<T>(b: seq<Slot<T>>, first: nat, last: nat, end: nat, c: seq<Slot<T>>)
    requires first < last <= end <= |b| == |c| && LiveExactly(b, 0, end)
    requires MovedDown(b, c, last, end, first)
    ensures ObjectsExactly(c, 0, end) && forall q :: 0 <= q < first + (end - last) ==> c[q].Live?
    ensures Values(c[..first + (end - last)]) == Values(b[..end])[..first] + Values(b[..end])[last..]
  {
  }

  lemma ObjectsAreLive<T>(b: seq<Slot<T>>, first: nat, last: nat)
    requires LiveExactly(b, first, last)
    ensures forall i :: first <= i < last ==> b[i].Live?
    ensures forall i :: last <= i < |b| ==> b[i].Raw?
  {
  }

  lemma RawInFront<T>(b: seq<Slot<T>>, first: nat, last: nat)
    requires LiveExactly(b, first, last)
    ensures forall i :: 0 <= i < first ==> b[i].Raw?
  {
  }

  /** What relocating the objects from p on behind the objects of another buffer does to the slots. */
  lemma TailRelocated<T>(src: seq<Slot<T>>, start: nat, p: nat, end: nat, dst: seq<Slot<T>>, first: nat, last: nat)
    requires LiveExactly(src, start, end) && LiveExactly(dst, first, last)
    requires start <= p <= end && last + (end - p) <= |dst|
    ensures LiveExactly(Splice(src, p, Raws(end - p)), start, p)
    ensures LiveExactly(Splice(dst, last, src[p..end]), first, last + (end - p))
    ensures Values(Splice(src, p, Raws(end - p))[start..p]) == Values(src[start..end])[..p - start]
    ensures Values(Splice(dst, last, src[p..end])[first..last + (end - p)])
            == Values(dst[first..last]) + Values(src[start..end])[p - start..]
  {
    RangeTakenAway(src, start, p, end);
    PutBehind(dst, first, last, src[p..end]);
    ValuesOfPart(src, start, p, end);
  }

  lemma RangeTakenAway<T>(src: seq<Slot<T>>, start: nat, p: nat, end: nat)
    requires LiveExactly(src, start, end) && start <= p <= end
    ensures LiveExactly(Splice(src, p, Raws(end - p)), start, p)
    ensures Splice(src, p, Raws(end - p))[start..p] == src[start..p]
  {
  }

  lemma ValuesOfPart<T>(src: seq<Slot<T>>, start: nat, p: nat, end: nat)
    requires LiveExactly(src, start, end) && start <= p <= end
    ensures Values(src[start..p]) == Values(src[start..end])[..p - start]
    ensures Values(src[p..end]) == Values(src[start..end])[p - start..]
  {
  }

  lemma PutBehind<T>(dst: seq<Slot<T>>, first: nat, last: nat, objects: seq<Slot<T>>)
    requires LiveExactly(dst, first, last) && last + |objects| <= |dst| && AllLive(objects)
    ensures LiveExactly(Splice(dst, last, objects), first, last + |objects|)
    ensures Values(Splice(dst, last, objects)[first..last + |objects|]) == Values(dst[first..last]) + Values(objects)
  {
    assert Splice(dst, last, objects)[first..last + |objects|] == dst[first..last] + objects;
  }

  /** What relocating all objects in front of the objects of another buffer does to the slots. */
  lemma FrontRelocated<T>(src: seq<Slot<T>>, start: nat, end: nat, dst: seq<Slot<T>>, first: nat, last: nat)
    requires LiveExactly(src, start, end) && LiveExactly(dst, first, last) && end - start <= first
    ensures LiveExactly(Splice(src, start, Raws(end - start)), start, start)
    ensures var at := first - (end - start);
            && LiveExactly(Splice(dst, at, src[start..end]), at, last)
            && Values(Splice(dst, at, src[start..end])[at..last]) == Values(src[start..end]) + Values(dst[first..last])
  {
    var at := first - (end - start);
    RangeTakenAway(src, start, start, end);
    PutInFront(dst, first, last, src[start..end]);
  }

  lemma PutInFront<T>(dst: seq<Slot<T>>, first: nat, last: nat, objects: seq<Slot<T>>)
    requires LiveExactly(dst, first, last) && |objects| <= first && AllLive(objects)
    ensures var at := first - |objects|;
            && LiveExactly(Splice(dst, at, objects), at, last)
            && Values(Splice(dst, at, objects)[at..last]) == Values(objects) + Values(dst[first..last])
  {
    assert Splice(dst, first - |objects|, objects)[first - |objects|..last] == objects + dst[first..last];
  }

  /** An element given by reference; it may be an element of the vector that is being changed. */
  datatype Ref<T> = Ref(buf: array<Slot<T>>, at: nat)

  ghost function Owned<T>(buf: array?<Slot<T>>): set<object> {
    if buf == null then {} else {buf}
  }

  /** A contiguous buffer with raw slots in front of and behind its objects. */
  class SplitBuffer<T> {
    var buf: array?<Slot<T>>
    var frontCap: nat
    var begin: nat
    var end: nat
    var backCap: nat
    const pool: Pool

    ghost predicate Holds()
      reads this, buf
    {
      && frontCap == 0 && begin <= end <= backCap
      && (if buf == null then backCap == 0
          else buf.Length == backCap && 0 < backCap && LiveExactly(buf[..], begin, end))
    }

    ghost predicate Valid()
      reads this, buf, pool
    {
      Holds() && (buf != null ==> buf in pool.live)
    }

    ghost function Contents(): (vals: seq<T>)
      requires Holds()
      reads this, buf
      ensures |vals| == end - begin
    {
      if buf == null then [] else Values(buf[begin..end])
    }

    constructor (cap: nat, start: nat, pool: Pool)
      requires start <= cap
      modifies pool
      ensures Valid() && Contents() == [] && this.pool == pool
      ensures begin == start && end == start && backCap == cap
      ensures buf != null <==> cap > 0
      ensures buf != null ==> fresh(buf)
      ensures pool.live == old(pool.live) + Owned(buf)
    {
      this.pool := pool;
      buf, frontCap, begin, end, backCap := null, 0, start, start, cap;
      new;
      if cap > 0 {
        buf := pool.Allocate(cap);
      }
    }

    function BackSpare(): int
      reads this
    {
      backCap - end
    }

    /** Constructs one object behind the others; there is room, so nothing has to move. */
    method EmplaceBack(v: T)
      requires Valid() && BackSpare() > 0
      modifies `end, buf
      ensures Valid() && Contents() == old(Contents()) + [v]
      ensures end == old(end) + 1
    {
      ghost var before := Contents();
      Construct(buf, end, v);
      end := end + 1;
      assert Contents() == before + [v];
    }

    method ConstructAtEnd(n: nat, v: T)
      requires Valid() && 0 < n <= BackSpare()
      modifies `end, buf
      ensures Valid() && Contents() == old(Contents()) + Repeat(v, n)
      ensures end == old(end) + n
    {
      ghost var before := Contents();
      ConstructCopies(buf, end, n, v);
      end := end + n;
      assert Contents() == before + Repeat(v, n);
    }

    method ConstructAtEndWithSize(vals: seq<T>)
      requires Valid() && |vals| <= BackSpare() && (buf == null ==> vals == [])
      modifies `end, buf
      ensures Valid() && Contents() == old(Contents()) + vals
      ensures end == old(end) + |vals|
    {
      ghost var before := Contents();
      if buf != null {
        ConstructAll(buf, end, vals);
      }
      end := end + |vals|;
      assert Contents() == before + vals;
    }

    /** Constructs objects with the given values behind the others, growing whenever the room is used up. */
    method ConstructAtEndWithSentinel(vals: seq<T>)
      requires Valid() && begin == 0
      modifies this, buf, pool
      ensures Valid() && begin == 0 && Contents() == old(Contents()) + vals
      ensures buf == old(buf) || fresh(buf)
      ensures pool.live == old(pool.live) - Owned(old(buf)) + Owned(buf)
    {
      ghost var before := Contents();
      var i := 0;
      while i != |vals|
        invariant 0 <= i <= |vals|
        invariant Valid() && begin == 0 && Contents() == before + vals[..i]
        invariant buf == old(buf) || fresh(buf)
        invariant pool.live == old(pool.live) - Owned(old(buf)) + Owned(buf)
      {
        if BackSpare() == 0 {
          Grow();
        }
        EmplaceBack(vals[i]);
        i := i + 1;
      }
    }

    /** Moves all values to another buffer; objects without a value remain. */
    method MoveInto(t: SplitBuffer<T>)
      requires Valid() && t.Valid() && t != this && t.begin == t.end == begin == 0 && t.buf != null && t.buf != buf
      requires end <= t.BackSpare()
      modifies buf, t`end, t.buf
      ensures Sound() && t.Valid() && t.Contents() == old(Contents())
    {
      ghost var before := Contents();
      if buf != null {
        MoveAcross(buf, begin, end, t.buf, t.end);
      }
      t.end := t.end + (end - begin);
      assert t.Contents() == before;
    }

    /** Moves the objects to the front of a buffer of twice the size. */
    method Grow()
      requires Valid() && begin == 0 && BackSpare() == 0
      modifies this, buf, pool
      ensures Valid() && begin == 0 && Contents() == old(Contents()) && BackSpare() > 0
      ensures fresh(buf)
      ensures pool.live == old(pool.live) - Owned(old(buf)) + Owned(buf)
    {
      var t := new SplitBuffer<T>(Max(2 * backCap, 8), 0, pool);
      MoveInto(t);
      buf, t.buf := t.buf, buf;
      begin, t.begin := t.begin, begin;
      end, t.end := t.end, end;
      backCap, t.backCap := t.backCap, backCap;
      t.Release();
    }

    /** Relocates all objects of another buffer behind this one's. */
    method Absorb(v: SplitBuffer<T>)
      requires Valid() && v.Valid() && v != this && buf != null && v.buf != buf && v.end - v.begin <= BackSpare()
      modifies `end, buf, v`end, v.buf
      ensures Valid() && Contents() == old(Contents()) + old(v.Contents())
      ensures v.Valid() && v.Contents() == []
    {
      hide LiveExactly, Values, Splice;
      if v.buf != null {
        ghost var s, d := v.buf[..], buf[..];
        assert v.buf[v.begin..v.end] == s[v.begin..v.end] && buf[begin..end] == d[begin..end];
        ObjectsAreLive(s, v.begin, v.end);
        ObjectsAreLive(d, begin, end);
        TailRelocated(s, v.begin, v.begin, v.end, d, begin, end);
        Relocate(v.buf, v.begin, v.end, buf, end);
        assert v.buf[v.begin..v.begin] == v.buf[..][v.begin..v.begin];
        assert buf[begin..end + (v.end - v.begin)] == buf[..][begin..end + (v.end - v.begin)];
      }
      end := end + (v.end - v.begin);
      v.end := v.begin;
    }

    /** Valid, except that objects may have been moved from. */
    ghost predicate Sound()
      reads this, buf, pool
    {
      && frontCap == 0 && begin <= end <= backCap
      && (if buf == null then backCap == 0
          else buf.Length == backCap && buf in pool.live && ObjectsExactly(buf[..], begin, end))
    }

    lemma ValidIsSound()
      requires Valid()
      ensures Sound()
    {
    }

    /** The end of life of the buffer: destroys what is left in it and hands the memory back. */
    method Release()
      requires Sound()
      modifies this, buf, pool
      ensures pool.live == old(pool.live) - Owned(old(buf))
    {
      if buf != null {
        DestroyFromEnd(buf, begin, end);
        end := begin;
        assert buf[..] == Raws(buf.Length);
        pool.Deallocate(buf, backCap - frontCap);
      }
    }
  }

  /**
   * The capacity next after a vector with room for cap has got size elements: the same if they fit, and otherwise
   * twice as much, or as much as is needed, but never more than the largest size.
   */
  ghost predicate GrowsTo(cap: nat, size: nat, maxSize: nat, next: nat) {
    if size <= cap then next == cap else next == if maxSize / 2 <= cap then maxSize else Max(2 * cap, size)
  }

  class Vector<T> {
    var buf: array?<Slot<T>>
    var begin: nat
    var end: nat
    var cap: nat
    const pool: Pool
    /** The largest number of elements. */
    const maxSize: nat

    constructor (pool: Pool, maxSize: nat)
      ensures Valid() && Contents() == [] && this.pool == pool && this.maxSize == maxSize && buf == null
    {
      this.pool, this.maxSize := pool, maxSize;
      buf, begin, end, cap := null, 0, 0, 0;
    }

    /** The objects are exactly the slots from begin to end, and begin is where the buffer starts. */
    ghost predicate Holds()
      reads this, buf
    {
      && begin == 0 && end <= cap
      && (if buf == null then cap == 0
          else buf.Length == cap && 0 < cap && LiveExactly(buf[..], begin, end))
    }

    ghost predicate Valid()
      reads this, buf, pool
    {
      Holds() && (buf != null ==> buf in pool.live)
    }

    ghost function Contents(): (vals: seq<T>)
      requires Holds()
      reads this, buf
      ensures |vals| == end
    {
      if buf == null then [] else Values(buf[begin..end])
    }

    function Size(): int
      reads this
    {
      end - begin
    }

    function Capacity(): int
      reads this
    {
      cap - begin
    }

    /** The capacity to grow to, or an error when the elements would be too many. */
    function Recommend(newSize: nat): (r: Result<nat, LengthError>)
      requires Capacity() >= 0
      reads this
      ensures newSize > maxSize <==> r == Err(LengthError)
      ensures r.Ok? ==> newSize <= r.value <= maxSize
    {
      if newSize > maxSize then Err(LengthError)
      else if Capacity() >= maxSize / 2 then Ok(maxSize)
      else Ok(Max(2 * Capacity(), newSize))
    }

    /** Exchanges the buffers of the vector and the split buffer. */
    method SwapLayouts(v: SplitBuffer<T>)
      modifies this`buf, this`begin, this`end, this`cap, v
      ensures buf == old(v.buf) && begin == old(v.begin) && end == old(v.end) && cap == old(v.backCap)
      ensures v.buf == old(buf) && v.begin == old(begin) && v.end == old(end) && v.backCap == old(cap)
      ensures v.frontCap == old(v.frontCap)
    {
      var vectorBuf, vectorBegin, vectorEnd, vectorCap := buf, begin, end, cap;
      buf, begin, end, cap := v.buf, v.begin, v.end, v.backCap;
      v.buf, v.begin, v.end, v.backCap := vectorBuf, vectorBegin, vectorEnd, vectorCap;
    }

    /** What holds of a vector and of the split buffer that is about to replace its buffer. */
    ghost predicate Fits(v: SplitBuffer<T>)
      reads this, buf, v, v.buf, pool, v.pool
    {
      && Valid() && v.Valid() && v.pool == pool
      && (buf != null && v.buf != null ==> buf != v.buf)
      && (v.buf == null ==> Size() == 0)
    }

    /**
     * Relocates the elements to the room in front of v's objects, which is exactly theirs, and takes
     * over its buffer; v is left with the old buffer, in which no object remains.
     */
    method SwapOut(v: SplitBuffer<T>)
      requires Fits(v) && v.begin == Size()
      modifies this`buf, this`begin, this`end, this`cap, buf, v, v.buf
      ensures Valid() && Contents() == old(Contents()) + old(v.Contents())
      ensures buf == old(v.buf) && cap == old(v.backCap)
      ensures v.Valid() && v.Contents() == [] && v.buf == old(buf)
    {
      MoveInFront(v);
      SwapLayouts(v);
      v.frontCap := v.begin;
    }

    /** The first half of SwapOut. */
    method MoveInFront(v: SplitBuffer<T>)
      requires Fits(v) && v.begin == Size()
      modifies this`end, buf, v`begin, v.buf
      ensures Fits(v) && v.begin == begin == end
      ensures v.Contents() == old(Contents()) + old(v.Contents())
    {
      hide LiveExactly, Values, Splice;
      var newBegin := v.begin - Size();
      if buf != null && v.buf != null {
        ghost var s, d := buf[..], v.buf[..];
        assert buf[begin..end] == s[begin..end] && v.buf[v.begin..v.end] == d[v.begin..v.end];
        ObjectsAreLive(s, begin, end);
        RawInFront(d, v.begin, v.end);
        FrontRelocated(s, begin, end, d, v.begin, v.end);
        Relocate(buf, begin, end, v.buf, newBegin);
        assert v.buf[newBegin..v.end] == v.buf[..][newBegin..v.end];
      }
      v.begin := newBegin;
      end := begin;
    }

    /**
     * Relocates the elements from p on to the room behind v's objects, then those before p to the
     * room in front, which is exactly theirs, and takes over the buffer. Returns where p now is.
     */
    method SwapOutAt(v: SplitBuffer<T>, p: nat) returns (ret: nat)
      requires Fits(v) && p <= end && v.begin == p && end - p <= v.BackSpare()
      modifies this`buf, this`begin, this`end, this`cap, buf, v, v.buf
      ensures Valid() && Contents() == Inserted(old(Contents()), p, old(v.Contents()))
      ensures buf == old(v.buf) && cap == old(v.backCap) && ret == p
      ensures v.Valid() && v.Contents() == [] && v.buf == old(buf)
    {
      ghost var all, mid := Contents(), v.Contents();
      ret := v.begin;
      MoveTailBehind(v, p);
      SwapOut(v);
      assert Contents() == all[..p] + (mid + all[p..]);
    }

    /** The same, and then the end of v's life with what was the vector's buffer. */
    method SwapOutAndRelease(v: SplitBuffer<T>, p: nat) returns (ret: nat)
      requires Fits(v) && p <= end && v.begin == p && end - p <= v.BackSpare()
      modifies this`buf, this`begin, this`end, this`cap, buf, v, v.buf, pool
      ensures Valid() && Contents() == Inserted(old(Contents()), p, old(v.Contents()))
      ensures buf == old(v.buf) && cap == old(v.backCap) && ret == p
      ensures pool.live == old(pool.live) - Owned(old(buf))
    {
      hide Inserted, Values, LiveExactly, ObjectsExactly, Contents, SplitBuffer.Contents;
      ret := SwapOutAt(v, p);
      ghost var all := Contents();
      v.ValidIsSound();
      v.Release();
      assert Contents() == all;
    }

    /** The first half of SwapOutAt. */
    method MoveTailBehind(v: SplitBuffer<T>, p: nat)
      requires Fits(v) && p <= end && end - p <= v.BackSpare()
      modifies this`end, buf, v`end, v.buf
      ensures Fits(v) && end == p && Contents() == old(Contents())[..p]
      ensures v.Contents() == old(v.Contents()) + old(Contents())[p..]
    {
      hide LiveExactly, Values, Splice;
      ghost var all, mid := Contents(), v.Contents();
      if buf != null && v.buf != null {
        ghost var s, d := buf[..], v.buf[..];
        assert buf[begin..end] == s[begin..end] && v.buf[v.begin..v.end] == d[v.begin..v.end];
        ObjectsAreLive(s, begin, end);
        ObjectsAreLive(d, v.begin, v.end);
        TailRelocated(s, begin, p, end, d, v.begin, v.end);
        Relocate(buf, p, end, v.buf, v.end);
        assert buf[begin..p] == buf[..][begin..p];
        assert v.buf[v.begin..v.end + (end - p)] == v.buf[..][v.begin..v.end + (end - p)];
      }
      v.end := v.end + (end - p);
      end := p;
    }

    /** An element by reference is one that exists, here or elsewhere. */
    ghost predicate Exists(x: Ref<T>)
      reads x.buf
    {
      x.at < x.buf.Length && x.buf[x.at].Live?
    }

    /** Appends a copy of an element, which may be one of this vector's own. */
    method EmplaceBack(x: Ref<T>) returns (r: Outcome<LengthError>)
      requires Valid() && Exists(x)
      modifies this`buf, this`begin, this`end, this`cap, buf, pool
      ensures Valid()
      ensures r.Fail? <==> old(end) == old(cap) && old(Size()) + 1 > maxSize
      ensures r.Fail? ==> Contents() == old(Contents()) && buf == old(buf)
      ensures r.Pass? ==> Contents() == old(Contents()) + [old(x.buf[x.at].value)]
      ensures old(cap) <= cap && (cap == old(cap) || cap <= maxSize)
      ensures pool.live == old(pool.live) - Owned(old(buf)) + Owned(buf)
              && (buf == old(buf) || buf == null || fresh(buf))
      ensures r.Pass? ==> GrowsTo(old(cap), |Contents()|, maxSize, cap)
    {
      ghost var before := Contents();
      if end < cap {
        Construct(buf, end, x.buf[x.at].value);
        end := end + 1;
        assert Contents() == before + [old(x.buf[x.at].value)];
        return Pass;
      }
      r := EmplaceBackSlowPath(x);
    }

    /** There is no room: the element is constructed in a larger buffer before the others move there. */
    method EmplaceBackSlowPath(x: Ref<T>) returns (r: Outcome<LengthError>)
      requires Valid() && Exists(x) && end == cap
      modifies this`buf, this`begin, this`end, this`cap, buf, pool
      ensures Valid()
      ensures r.Fail? <==> old(Size()) + 1 > maxSize
      ensures r.Fail? ==> Contents() == old(Contents()) && buf == old(buf) && cap == old(cap)
      ensures r.Pass? ==> Contents() == old(Contents()) + [old(x.buf[x.at].value)] && old(cap) < cap <= maxSize
      ensures pool.live == old(pool.live) - Owned(old(buf)) + Owned(buf)
              && (buf == old(buf) || buf == null || fresh(buf))
      ensures r.Pass? ==> GrowsTo(old(cap), |Contents()|, maxSize, cap)
    {
      hide Values;
      var wanted := Recommend(Size() + 1);
      if wanted.Err? {
        return Fail(wanted.error);
      }
      var v := new SplitBuffer<T>(wanted.value, Size(), pool);
      v.EmplaceBack(x.buf[x.at].value);
      assert v.Contents() == [old(x.buf[x.at].value)];
      SwapOut(v);
      v.Release();
      r := Pass;
    }

    /**
     * Fills a new vector with values that can be read only once. All buffers but the last are handed back,
     * and the last one, too, if there are too many values.
     */
    method InitWithSentinel(vals: seq<T>) returns (r: Outcome<LengthError>)
      requires Valid() && buf == null
      modifies this`buf, this`begin, this`end, this`cap, pool
      ensures Valid() && Contents() == if r.Pass? then vals else []
      ensures r.Pass? <==> |vals| <= maxSize
      ensures r.Fail? ==> buf == null
      ensures pool.live == old(pool.live) + Owned(buf) && (buf == null || fresh(buf))
    {
      hide Values, LiveExactly;
      for i := 0 to |vals|
        invariant Valid() && Contents() == vals[..i] && cap <= maxSize
        invariant pool.live == old(pool.live) + Owned(buf) && (buf == null || fresh(buf))
      {
        var pushed := EmplaceValue(vals[i]);
        if pushed.Fail? {
          Deallocate();
          return pushed;
        }
      }
      r := Pass;
    }

    /** Appends a value that is no element. */
    method EmplaceValue(value: T) returns (r: Outcome<LengthError>)
      requires Valid()
      modifies this`buf, this`begin, this`end, this`cap, buf, pool
      ensures Valid()
      ensures r.Fail? <==> old(end) == old(cap) && old(Size()) + 1 > maxSize
      ensures r.Fail? ==> Contents() == old(Contents()) && buf == old(buf)
      ensures r.Pass? ==> Contents() == old(Contents()) + [value]
      ensures old(cap) <= cap && (cap == old(cap) || cap <= maxSize)
      ensures pool.live == old(pool.live) - Owned(old(buf)) + Owned(buf)
              && (buf == old(buf) || buf == null || fresh(buf))
      ensures r.Pass? ==> GrowsTo(old(cap), |Contents()|, maxSize, cap)
    {
      hide Values, LiveExactly;
      var temporary := new Slot<T>[1](_ => Live(value));
      r := EmplaceBack(Ref(temporary, 0));
    }

    /**
     * Replaces the elements by values that can be read only once: assigns as many as there are elements, and
     * then takes the others off or appends. If there are too many, as many as possible are kept.
     */
    method AssignWithSentinel(vals: seq<T>) returns (r: Outcome<LengthError>)
      requires Valid()
      modifies this`buf, this`begin, this`end, this`cap, buf, pool
      ensures Valid() && (r.Pass? <==> |vals| <= Max(old(cap), maxSize))
      ensures Contents() == if r.Pass? then vals else vals[..Max(old(cap), maxSize)]
      ensures pool.live == old(pool.live) - Owned(old(buf)) + Owned(buf)
              && (buf == old(buf) || buf == null || fresh(buf))
    {
      hide Values, LiveExactly;
      var i := AssignFront(vals);
      if i != end {
        TakeOff(i);
        assert Contents() == vals;
        return Pass;
      }
      while i != |vals|
        invariant Valid() && i == end <= |vals| && Contents() == vals[..i] && old(cap) <= cap <= Max(old(cap), maxSize)
        invariant pool.live == old(pool.live) - Owned(old(buf)) + Owned(buf)
                  && (buf == old(buf) || buf == null || fresh(buf))
      {
        var pushed := EmplaceValue(vals[i]);
        if pushed.Fail? {
          return pushed;
        }
        i := i + 1;
      }
      r := Pass;
    }

    /** Assigns the first of the values to the elements, as many as there are of both. */
    method AssignFront(vals: seq<T>) returns (i: nat)
      requires Valid()
      modifies buf
      ensures Valid() && i == Min(|vals|, end)
      ensures Contents() == vals[..i] + old(Contents())[i..]
    {
      ghost var before := Contents();
      i := 0;
      while i != |vals| && i != end
        invariant 0 <= i <= |vals| && i <= end
        invariant buf != null ==> forall q :: 0 <= q < buf.Length ==> buf[q] == if q < i then Live(vals[q])
                  else old(buf[..])[q]
      {
        CopyAssign(buf, i, vals[i]);
        i := i + 1;
      }
      assert Contents() == vals[..i] + before[i..];
    }

    /** Constructs n copies of an element behind the last one. */
    method ConstructAtEnd(n: nat, x: Ref<T>)
      requires Valid() && Exists(x) && 0 < n <= cap - end
      modifies `end, buf
      ensures Valid() && end == old(end) + n && x.buf[x.at] == old(x.buf[x.at])
      ensures buf[..] == Splice(old(buf[..]), old(end), Lives(Repeat(old(x.buf[x.at].value), n)))
      ensures Contents() == old(Contents()) + Repeat(old(x.buf[x.at].value), n)
    {
      ghost var before, copies := Contents(), Repeat(x.buf[x.at].value, n);
      ConstructCopies(buf, end, n, x.buf[x.at].value);
      end := end + n;
      assert Contents() == before + copies;
    }

    /**
     * Opens a gap: the elements [fromS, fromE) move up to to. Those that land beyond the end are
     * constructed there, the others are assigned, from the back.
     */
    method MoveRange(fromS: nat, fromE: nat, to: nat)
      requires buf != null && fromS <= fromE <= end && fromS < to <= end
      requires end <= fromE + (to - fromS) <= buf.Length
      requires forall i :: 0 <= i < end ==> buf[i].Live?
      requires forall i :: end <= i < buf.Length ==> buf[i].Raw?
      modifies this`end, buf
      ensures end == fromE + (to - fromS)
      ensures GapOpened(old(buf[..]), fromE, fromS, to - fromS, buf[..])
    {
      hide GapOpened, MovedOut, MovedUp;
      ghost var b := buf[..];
      var oldLast := end;
      var n := oldLast - to;
      var i := fromS + n;
      MoveToRaw(buf, i, fromE, oldLast);
      ghost var mid := buf[..];
      end := oldLast + (fromE - i);
      StillObjects(b, mid, fromS, i, fromE, oldLast);
      MoveBackward(buf, fromS, i, oldLast);
      MovedInTwo(b, mid, buf[..], fromS, fromE, to, oldLast);
    }

    /** Inserts a copy of an element, which may be one that the insertion moves. */
    method Insert(p: nat, x: Ref<T>) returns (r: Result<nat, LengthError>)
      requires Valid() && Exists(x) && p <= end
      modifies this`buf, this`begin, this`end, this`cap, buf, pool
      ensures Valid()
      ensures r.Err? <==> old(end) == old(cap) && old(Size()) + 1 > maxSize
      ensures r.Err? ==> Contents() == old(Contents()) && buf == old(buf)
      ensures r.Ok? ==> r.value == p && Contents() == Inserted(old(Contents()), p, [old(x.buf[x.at].value)])
      ensures pool.live == old(pool.live) - Owned(old(buf)) + Owned(buf)
              && (buf == old(buf) || buf == null || fresh(buf))
      ensures r.Ok? ==> GrowsTo(old(cap), |Contents()|, maxSize, cap)
    {
      ghost var before := Contents();
      if end < cap {
        if p == end {
          Construct(buf, end, x.buf[x.at].value);
          end := end + 1;
          assert Contents() == Inserted(before, p, [old(x.buf[x.at].value)]);
        } else {
          InsertByShift(p, x);
        }
        return Ok(p);
      }
      r := InsertInNewBuffer(p, x.buf[x.at].value);
    }

    /** There is no room: the value is constructed in a larger buffer, and the elements move around it. */
    method InsertInNewBuffer(p: nat, value: T) returns (r: Result<nat, LengthError>)
      requires Valid() && p <= end == cap
      modifies this`buf, this`begin, this`end, this`cap, buf, pool
      ensures Valid()
      ensures r.Err? <==> old(Size()) + 1 > maxSize
      ensures r.Err? ==> Contents() == old(Contents()) && buf == old(buf)
      ensures r.Ok? ==> r.value == p && Contents() == Inserted(old(Contents()), p, [value])
      ensures pool.live == old(pool.live) - Owned(old(buf)) + Owned(buf)
              && (buf == old(buf) || buf == null || fresh(buf))
      ensures r.Ok? ==> GrowsTo(old(cap), |Contents()|, maxSize, cap)
    {
      hide Inserted, Values;
      var wanted := Recommend(Size() + 1);
      if wanted.Err? {
        return Err(wanted.error);
      }
      var v := new SplitBuffer<T>(wanted.value, p, pool);
      v.EmplaceBack(value);
      assert v.Contents() == [value];
      var q := SwapOutAndRelease(v, p);
      r := Ok(q);
    }

    /**
     * Inserts a value made from an element, which may be one that the insertion moves: the value is made before
     * anything moves.
     */
    method Emplace(p: nat, make: T -> T, x: Ref<T>) returns (r: Result<nat, LengthError>)
      requires Valid() && Exists(x) && p <= end
      modifies this`buf, this`begin, this`end, this`cap, buf, pool
      ensures Valid()
      ensures r.Err? <==> old(end) == old(cap) && old(Size()) + 1 > maxSize
      ensures r.Err? ==> Contents() == old(Contents()) && buf == old(buf)
      ensures r.Ok? ==> r.value == p && Contents() == Inserted(old(Contents()), p, [make(old(x.buf[x.at].value))])
      ensures pool.live == old(pool.live) - Owned(old(buf)) + Owned(buf)
              && (buf == old(buf) || buf == null || fresh(buf))
      ensures r.Ok? ==> GrowsTo(old(cap), |Contents()|, maxSize, cap)
    {
      ghost var before := Contents();
      if end < cap {
        if p == end {
          Construct(buf, end, make(x.buf[x.at].value));
          end := end + 1;
          assert Contents() == Inserted(before, p, [make(old(x.buf[x.at].value))]);
        } else {
          var temporary := make(x.buf[x.at].value);
          MoveInByShift(p, temporary);
        }
        return Ok(p);
      }
      r := InsertInNewBuffer(p, make(x.buf[x.at].value));
    }

    /** Opens a gap and assigns a value that is no element. */
    method MoveInByShift(p: nat, value: T)
      requires Valid() && p < end < cap
      modifies `end, buf
      ensures Valid() && Contents() == Inserted(old(Contents()), p, [value])
    {
      hide Inserted, Values, GapOpened, GapFilled, Splice;
      ghost var b, oldEnd := buf[..], end;
      assert b[..end] == buf[begin..end];
      MoveRange(p, end, p + 1);
      FillsGapOfOne(b, oldEnd, p, value, buf[..]);
      CopyAssign(buf, p, value);
      InsertionDone(b, oldEnd, p, [value]);
    }

    /** Moves the elements from p to last up by n, and says where the element x is afterwards. */
    method OpenGap(p: nat, last: nat, n: nat, x: Ref<T>) returns (xr: nat)
      requires buf != null && p < last <= end && 0 < n && p + n <= end <= last + n <= buf.Length
      requires LiveExactly(buf[..], 0, end) && Exists(x) && (x.buf == buf ==> x.at < last)
      modifies `end, buf
      ensures end == last + n
      ensures xr < x.buf.Length && x.buf[xr] == old(x.buf[x.at]) && (x.buf == buf ==> xr < p || p + n <= xr)
      ensures GapOpened(old(buf[..]), last, p, n, buf[..])
    {
      hide GapOpened, LiveExactly;
      ghost var b := buf[..];
      ObjectsAreLive(b, 0, end);
      MoveRange(p, last, p + n);
      xr := x.at;
      if x.buf == buf && p <= x.at < end {
        xr := xr + n;
      }
      if x.buf == buf {
        FoundAfterGap(b, last, p, n, buf[..], x.at);
      }
    }

    /** Concludes an insertion from what it did to the slots. */
    lemma InsertionDone(b: seq<Slot<T>>, oldEnd: nat, p: nat, mid: seq<T>)
      requires buf != null && begin == 0 && end == oldEnd + |mid| <= cap == buf.Length && 0 < cap && buf in pool.live
      requires LiveExactly(b, 0, oldEnd) && GapFilled(b, oldEnd, p, mid, buf[..])
      ensures Valid() && Contents() == Inserted(Values(b[..oldEnd]), p, mid)
    {
      hide GapFilled, Inserted, Values;
      GapFilledInserts(b, oldEnd, p, mid, buf[..]);
      assert buf[..][..end] == buf[begin..end];
    }

    method InsertByShift(p: nat, x: Ref<T>)
      requires Valid() && Exists(x) && p < end < cap
      modifies `end, buf
      ensures Valid() && Contents() == Inserted(old(Contents()), p, [old(x.buf[x.at].value)])
    {
      hide Inserted, Values, GapOpened, GapFilled, Splice;
      ghost var b, oldEnd, v := buf[..], end, x.buf[x.at].value;
      assert b[..end] == buf[begin..end];
      var xr := OpenGap(p, end, 1, x);
      ghost var g := buf[..];
      FillsGapOfOne(b, oldEnd, p, v, g);
      CopyAssign(buf, p, x.buf[xr].value);
      InsertionDone(b, oldEnd, p, [v]);
    }

    /** Inserts n copies of an element, which may be one that the insertion moves. */
    method InsertCopies(p: nat, n: nat, x: Ref<T>) returns (r: Result<nat, LengthError>)
      requires Valid() && Exists(x) && p <= end
      modifies this`buf, this`begin, this`end, this`cap, buf, pool
      ensures Valid()
      ensures r.Err? <==> n > old(cap) - old(end) && old(Size()) + n > maxSize
      ensures r.Err? ==> Contents() == old(Contents()) && buf == old(buf)
      ensures r.Ok? ==> r.value == p && Contents() == Inserted(old(Contents()), p, Repeat(old(x.buf[x.at].value), n))
      ensures pool.live == old(pool.live) - Owned(old(buf)) + Owned(buf)
              && (buf == old(buf) || buf == null || fresh(buf))
      ensures r.Ok? ==> GrowsTo(old(cap), |Contents()|, maxSize, cap)
    {
      hide Inserted, Values, LiveExactly;
      if n == 0 {
        InsertingNothing(Contents(), p);
        assert Repeat(x.buf[x.at].value, n) == [];
        return Ok(p);
      }
      if n <= cap - end {
        InsertCopiesByShift(p, n, x);
        return Ok(p);
      }
      var wanted := Recommend(Size() + n);
      if wanted.Err? {
        return Err(wanted.error);
      }
      var v := new SplitBuffer<T>(wanted.value, p, pool);
      v.ConstructAtEnd(n, x.buf[x.at].value);
      assert v.Contents() == Repeat(old(x.buf[x.at].value), n);
      var q := SwapOutAndRelease(v, p);
      r := Ok(q);
    }

    /** Copies that land beyond the end are constructed there before anything moves. */
    method InsertCopiesByShift(p: nat, n: nat, x: Ref<T>)
      requires Valid() && Exists(x) && p <= end && 0 < n <= cap - end
      modifies `end, buf
      ensures Valid() && Contents() == Inserted(old(Contents()), p, Repeat(old(x.buf[x.at].value), n))
    {
      hide Inserted, Values, GapOpened, GapFilled, Splice;
      ghost var b, mid := buf[..], Repeat(x.buf[x.at].value, n);
      assert b[..end] == buf[begin..end];
      var rest, oldLast := n, end;
      if n > end - p {
        var cx := n - (end - p);
        ConstructAtEnd(cx, x);
        rest := rest - cx;
        assert Repeat(mid[0], cx) == mid[rest..];
      } else {
        GapAtEnd(b, end, 0);
        assert mid[rest..] == [];
      }
      ghost var c := buf[..];
      ghost var g := c;
      if rest > 0 {
        var xr := OpenGap(p, oldLast, n, x);
        g := buf[..];
        GapHoldsObjects(c, oldLast, p, n, g);
        AssignCopies(buf, p, rest, x.buf, xr);
        assert Repeat(mid[0], rest) == mid[..rest];
      } else {
        GapAtEnd(c, oldLast, n);
        assert mid[..rest] == [];
      }
      FillsGap(b, c, oldLast, p, mid, rest, g);
      InsertionDone(b, oldLast, p, mid);
    }

    /** Inserts values read from a forward range that does not point into the vector. */
    method InsertWithSize(p: nat, vals: seq<T>) returns (r: Result<nat, LengthError>)
      requires Valid() && p <= end
      modifies this`buf, this`begin, this`end, this`cap, buf, pool
      ensures Valid()
      ensures r.Err? <==> |vals| > old(cap) - old(end) && old(Size()) + |vals| > maxSize
      ensures r.Err? ==> Contents() == old(Contents()) && buf == old(buf)
      ensures r.Ok? ==> r.value == p && Contents() == Inserted(old(Contents()), p, vals)
      ensures pool.live == old(pool.live) - Owned(old(buf)) + Owned(buf)
              && (buf == old(buf) || buf == null || fresh(buf))
      ensures r.Ok? ==> GrowsTo(old(cap), |Contents()|, maxSize, cap)
    {
      hide Inserted, Values, LiveExactly;
      if |vals| == 0 {
        InsertingNothing(Contents(), p);
        return Ok(p);
      }
      if |vals| <= cap - end {
        InsertValuesByShift(p, vals);
        return Ok(p);
      }
      var wanted := Recommend(Size() + |vals|);
      if wanted.Err? {
        return Err(wanted.error);
      }
      var v := new SplitBuffer<T>(wanted.value, p, pool);
      v.ConstructAtEndWithSize(vals);
      assert v.Contents() == vals;
      var q := SwapOutAndRelease(v, p);
      r := Ok(q);
    }

    method InsertValuesByShift(p: nat, vals: seq<T>)
      requires Valid() && p <= end && 0 < |vals| <= cap - end
      modifies `end, buf
      ensures Valid() && Contents() == Inserted(old(Contents()), p, vals)
    {
      hide Inserted, Values, GapOpened, GapFilled, Splice;
      ghost var b := buf[..];
      assert b[..end] == buf[begin..end];
      var n, oldLast, dx := |vals|, end, end - p;
      ghost var rest, c, g := Min(n, dx), b, b;
      GapAtEnd(b, end, 0);
      assert n <= dx ==> vals[rest..] == [];
      if n > dx {
        ConstructValuesAtEnd(vals[dx..]);
        c := buf[..];
        g := c;
        GapAtEnd(c, oldLast, n - dx);
        assert dx == 0 ==> vals[..rest] == [];
        if dx > 0 {
          MoveRange(p, oldLast, p + n);
          g := buf[..];
          GapHoldsObjects(c, oldLast, p, n, g);
          AssignAll(buf, p, vals[..dx]);
        }
      } else {
        MoveRange(p, oldLast, p + n);
        g := buf[..];
        GapHoldsObjects(c, oldLast, p, n, g);
        assert vals[..n] == vals;
        AssignAll(buf, p, vals);
      }
      FillsGap(b, c, oldLast, p, vals, rest, g);
      InsertionDone(b, oldLast, p, vals);
    }

    method ConstructValuesAtEnd(vals: seq<T>)
      requires Valid() && 0 < |vals| <= cap - end
      modifies `end, buf
      ensures Valid() && end == old(end) + |vals|
      ensures buf[..] == Splice(old(buf[..]), old(end), Lives(vals))
      ensures Contents() == old(Contents()) + vals
    {
      ghost var before := Contents();
      ConstructAll(buf, end, vals);
      end := end + |vals|;
      assert Contents() == before + vals;
    }

    /** Destroys the elements from newLast on, from the back. */
    method DestructAtEnd(newLast: nat)
      requires newLast <= end && begin == 0 && end <= cap
      requires if buf == null then cap == 0 else
                 buf.Length == cap && 0 < cap && buf in pool.live && ObjectsExactly(buf[..], 0, end)
                 && forall i :: 0 <= i < newLast ==> buf[i].Live?
      modifies `end, buf
      ensures Valid() && end == newLast
      ensures buf != null ==> Contents() == Values(old(buf[..])[..newLast])
    {
      if buf != null {
        DestroyFromEnd(buf, newLast, end);
      }
      end := newLast;
    }

    /** Destroys the elements behind the first n. */
    method TakeOff(n: nat)
      requires Valid() && n <= end
      modifies `end, buf
      ensures Valid() && end == n && Contents() == old(Contents())[..n]
    {
      ghost var before := Contents();
      DestructAtEnd(n);
      assert Contents() == before[..n];
    }

    /** Removes the elements [first, last). */
    method Erase(first: nat, last: nat) returns (p: nat)
      requires Valid() && first <= last <= end
      modifies `end, buf
      ensures Valid() && p == first
      ensures Contents() == old(Contents())[..first] + old(Contents())[last..]
    {
      hide LiveExactly, ObjectsExactly, Values, MovedDown;
      ghost var before := Contents();
      p := first;
      if first != last {
        ghost var b := buf[..];
        assert b[..end] == buf[begin..end];
        ObjectsAreLive(b, 0, end);
        MoveForward(buf, last, end, first);
        ClosedGap(b, first, last, end, buf[..]);
        DestructAtEnd(first + (end - last));
      } else {
        assert before == before[..first] + before[last..];
      }
    }

    method Clear()
      requires Valid()
      modifies `end, buf
      ensures Valid() && Contents() == []
    {
      DestructAtEnd(begin);
    }

    /** The end of life of the buffer: every element is destroyed and the memory handed back. */
    method Deallocate()
      requires Valid()
      modifies this`buf, this`begin, this`end, this`cap, buf, pool
      ensures Valid() && buf == null && Contents() == []
      ensures pool.live == old(pool.live) - Owned(old(buf))
    {
      if buf != null {
        Clear();
        assert buf[..] == Raws(buf.Length);
        pool.Deallocate(buf, Capacity());
        buf, begin, end, cap := null, 0, 0, 0;
      }
    }

    /** Makes room for n elements in all. */
    method Reserve(n: nat) returns (r: Outcome<LengthError>)
      requires Valid()
      modifies this`buf, this`begin, this`end, this`cap, buf, pool
      ensures Valid() && Contents() == old(Contents())
      ensures r.Fail? <==> n > old(Capacity()) && n > maxSize
      ensures Capacity() == if r.Fail? then old(Capacity()) else Max(old(cap), n)
      ensures pool.live == old(pool.live) - Owned(old(buf)) + Owned(buf)
              && (buf == old(buf) || buf == null || fresh(buf))
    {
      ghost var before := Contents();
      if n > Capacity() {
        if n > maxSize {
          return Fail(LengthError);
        }
        var v := new SplitBuffer<T>(n, Size(), pool);
        SwapOut(v);
        assert Contents() == before + [];
        v.Release();
      }
      r := Pass;
    }

    /** Gives up the room that is not used. */
    method ShrinkToFit()
      requires Valid()
      modifies this`buf, this`begin, this`end, this`cap, buf, pool
      ensures Valid() && Contents() == old(Contents()) && Capacity() == Size()
      ensures pool.live == old(pool.live) - Owned(old(buf)) + Owned(buf)
              && (buf == old(buf) || buf == null || fresh(buf))
    {
      ghost var before := Contents();
      if Capacity() > Size() {
        var v := new SplitBuffer<T>(Size(), Size(), pool);
        if v.backCap < Capacity() {
          SwapOut(v);
          assert Contents() == before + [];
        }
        v.Release();
      }
    }

    /** Appends n copies of an element, which may be one of this vector's own. */
    method Append(n: nat, x: Ref<T>) returns (r: Outcome<LengthError>)
      requires Valid() && Exists(x) && 0 < n
      modifies this`buf, this`begin, this`end, this`cap, buf, pool
      ensures Valid()
      ensures r.Fail? <==> n > old(cap) - old(end) && old(Size()) + n > maxSize
      ensures r.Fail? ==> Contents() == old(Contents()) && buf == old(buf)
      ensures r.Pass? ==> Contents() == old(Contents()) + Repeat(old(x.buf[x.at].value), n)
      ensures pool.live == old(pool.live) - Owned(old(buf)) + Owned(buf)
              && (buf == old(buf) || buf == null || fresh(buf))
      ensures r.Pass? ==> GrowsTo(old(cap), |Contents()|, maxSize, cap)
    {
      hide Values;
      if cap - end >= n {
        ConstructAtEnd(n, x);
      } else {
        var wanted := Recommend(Size() + n);
        if wanted.Err? {
          return Fail(wanted.error);
        }
        var v := new SplitBuffer<T>(wanted.value, Size(), pool);
        v.ConstructAtEnd(n, x.buf[x.at].value);
        SwapOut(v);
        v.Release();
      }
      r := Pass;
    }

    method Resize(size: nat, x: Ref<T>) returns (r: Outcome<LengthError>)
      requires Valid() && Exists(x)
      modifies this`buf, this`begin, this`end, this`cap, buf, pool
      ensures Valid()
      ensures r.Fail? <==> size > old(Capacity()) && size > maxSize
      ensures r.Fail? ==> Contents() == old(Contents()) && buf == old(buf)
      ensures r.Pass? && size <= old(Size()) ==> Contents() == old(Contents())[..size]
      ensures r.Pass? && size > old(Size()) ==>
                Contents() == old(Contents()) + Repeat(old(x.buf[x.at].value), size - old(Size()))
      ensures pool.live == old(pool.live) - Owned(old(buf)) + Owned(buf)
              && (buf == old(buf) || buf == null || fresh(buf))
      ensures r.Pass? ==> GrowsTo(old(cap), |Contents()|, maxSize, cap)
    {
      var current := Size();
      r := Pass;
      if current < size {
        r := Append(size - current, x);
      } else if current > size {
        TakeOff(begin + size);
      }
    }

    /**
     * Inserts values that can be read only once, front to back: they go to the spare room first, and
     * are rotated into place if they all fit; otherwise a larger buffer is put together. A vector
     * that would become too long reports so only after it has given up the values in the spare room,
     * and its end then still lies behind them.
     */
    method InsertWithSentinel(p: nat, vals: seq<T>) returns (r: Result<nat, LengthError>)
      requires Valid() && p <= end
      modifies this`buf, this`begin, this`end, this`cap, buf, pool
      ensures r.Err? <==> |vals| > old(cap) - old(end) && old(Size()) + |vals| > maxSize
      ensures r.Ok? ==> Valid() && r.value == p && Contents() == Inserted(old(Contents()), p, vals)
      ensures r.Err? ==> buf == old(buf) && end == cap == old(cap) && (buf != null ==> buf[..] == old(buf[..]))
      ensures r.Err? ==> (Valid() <==> old(end) == old(cap))
      ensures pool.live == old(pool.live) - Owned(old(buf)) + Owned(buf)
              && (buf == old(buf) || buf == null || fresh(buf))
      ensures r.Ok? ==> GrowsTo(old(cap), |Contents()|, maxSize, cap)
    {
      hide Inserted, Values;
      var oldLast := end;
      var i := FillSpare(vals);
      if i == |vals| {
        RotateIntoPlace(p, oldLast, vals);
        r := Ok(p);
      } else {
        r := Merge(p, oldLast, vals, i);
        assert r.Err? && buf != null ==> buf[..] == old(buf[..]);
        assert r.Err? && buf != null && oldLast < end ==> buf[..][oldLast].Raw?;
      }
    }

    /** Constructs the first of the values in the spare room, as many as fit. */
    method FillSpare(vals: seq<T>) returns (i: nat)
      requires Valid()
      modifies `end, buf
      ensures Valid() && i == Min(|vals|, cap - old(end)) && end == old(end) + i
      ensures Contents() == old(Contents()) + vals[..i]
      ensures buf != null ==> buf[..] == Splice(old(buf[..]), old(end), Lives(vals[..i]))
    {
      ghost var before := Contents();
      i := 0;
      while end != cap && i != |vals|
        invariant 0 <= i <= |vals| && end == old(end) + i <= cap
        invariant buf != null ==> forall q :: 0 <= q < buf.Length ==>
                    buf[q] == if old(end) <= q < end then Live(vals[q - old(end)]) else old(buf[..])[q]
      {
        Construct(buf, end, vals[i]);
        end := end + 1;
        i := i + 1;
      }
      assert Contents() == before + vals[..i];
    }

    /** Exchanges the elements from p to last with those behind them. */
    method RotateIntoPlace(p: nat, last: nat, ghost vals: seq<T>)
      requires Valid() && p <= last <= end && vals == Contents()[last..]
      modifies buf
      ensures Valid() && Contents() == Inserted(old(Contents())[..last], p, vals)
    {
      hide Values, Inserted, LiveExactly, Splice;
      if buf != null {
        ghost var b := buf[..];
        ObjectsAreLive(b, 0, end);
        Rotate(buf, p, last, end);
        RotationInserts(b, p, last, end);
        assert b[..end] == old(buf[begin..end]) && buf[..][..end] == buf[begin..end];
      } else {
        NothingInserted<T>();
      }
    }

    /** Destroys the elements behind last, without taking them off the end, and the buffer v. */
    method GiveUp(last: nat, v: SplitBuffer<T>)
      requires Valid() && v.Valid() && v.pool == pool && last <= end && (v.buf != null ==> v.buf != buf)
      modifies buf, v, v.buf, pool
      ensures buf != null ==> buf[..] == Splice(old(buf[..]), last, Raws(end - last))
      ensures pool.live == old(pool.live) - Owned(old(v.buf))
    {
      hide Values, LiveExactly, ObjectsExactly, Splice;
      if buf != null {
        ObjectsAreLive(buf[..], begin, end);
        DestroyFromEnd(buf, last, end);
      }
      v.ValidIsSound();
      v.Release();
    }

    /** The first i values are behind last, and no room is left. */
    method Merge(p: nat, last: nat, vals: seq<T>, i: nat) returns (r: Result<nat, LengthError>)
      requires Valid() && p <= last <= end == cap && i < |vals| && i == end - last
      requires Contents()[last..] == vals[..i]
      modifies this`buf, this`begin, this`end, this`cap, buf, pool
      ensures r.Err? <==> last + |vals| > maxSize
      ensures r.Ok? ==> Valid() && r.value == p && Contents() == Inserted(old(Contents())[..last], p, vals)
      ensures r.Err? ==> buf == old(buf) && begin == old(begin) && end == cap == old(cap)
      ensures r.Err? && buf != null ==> buf[..] == Splice(old(buf[..]), last, Raws(i))
      ensures pool.live == old(pool.live) - Owned(old(buf)) + Owned(buf)
              && (buf == old(buf) || buf == null || fresh(buf))
      ensures r.Ok? ==> GrowsTo(old(cap), |Contents()|, maxSize, cap)
    {
      hide Values, LiveExactly, ObjectsExactly, Inserted, Contents, SplitBuffer.Contents;
      var v := new SplitBuffer<T>(0, 0, pool);
      v.ConstructAtEndWithSentinel(vals[i..]);
      assert v.Contents() == vals[i..];
      var wanted := Recommend(Size() + (v.end - v.begin));
      if wanted.Err? {
        GiveUp(last, v);
        return Err(wanted.error);
      }
      assert v.end - v.begin == |vals| - i;
      var merged := new SplitBuffer<T>(wanted.value, p, pool);
      assert v.Contents() == vals[i..] && Contents()[last..] == vals[..i];
      assert v.Valid() && Valid();
      assert Contents()[last..] + v.Contents() == vals;
      r := MergeInto(merged, v, p, last);
    }

    /** Relocates the elements behind last and then the objects of v to merged. */
    method GatherBehind(merged: SplitBuffer<T>, v: SplitBuffer<T>, last: nat)
      requires Fits(merged) && v.Valid() && v.pool == pool && v != merged
      requires merged.buf != null && merged.buf != v.buf && (v.buf != null ==> v.buf != buf)
      requires last <= end && end - last + (v.end - v.begin) <= merged.BackSpare() && merged.Contents() == []
      modifies `end, buf, merged`end, merged.buf, v`end, v.buf
      ensures Fits(merged) && end == last && Contents() == old(Contents())[..last]
      ensures merged.Contents() == old(Contents())[last..] + old(v.Contents()) && v.Valid() && v.Contents() == []
    {
      hide Values, LiveExactly, Contents, SplitBuffer.Contents;
      ghost var front, behind, rest := Contents()[..last], Contents()[last..], v.Contents();
      MoveTailBehind(merged, last);
      assert merged.Contents() == behind && Contents() == front && v.Contents() == rest;
      merged.Absorb(v);
      assert Contents() == front;
    }

    /** Puts the buffer together: p elements, those behind last, the objects of v, and the elements from p to last. */
    method MergeInto(merged: SplitBuffer<T>, v: SplitBuffer<T>, p: nat, last: nat) returns (r: Result<nat, LengthError>)
      requires Valid() && v.Valid() && merged.Valid() && v.pool == pool && merged.pool == pool && v != merged
      requires merged.buf != null && merged.buf != buf && merged.buf != v.buf && (v.buf != null ==> v.buf != buf)
      requires p <= last <= end && merged.begin == merged.end == p && end + (v.end - v.begin) <= merged.backCap
      modifies this`buf, this`begin, this`end, this`cap, buf, pool, merged, merged.buf, v, v.buf
      ensures Valid() && r == Ok(p)
      ensures Contents() == Inserted(old(Contents())[..last], p, old(Contents())[last..] + old(v.Contents()))
      ensures buf == old(merged.buf) && cap == old(merged.backCap)
      ensures pool.live == old(pool.live) - Owned(old(buf)) - Owned(old(v.buf))
    {
      hide Values, LiveExactly, ObjectsExactly, Inserted, Contents, SplitBuffer.Contents;
      GatherBehind(merged, v, last);
      var q := SwapOutAt(merged, p);
      ghost var done := Contents();
      merged.ValidIsSound();
      merged.Release();
      v.ValidIsSound();
      v.Release();
      assert Contents() == done;
      r := Ok(q);
    }
  }

  /**
   * One value fits into the spare room and the other is too many: the failure destroys the first one and
   * leaves the end behind it.
   */
  method SentinelFailure() returns (v: Vector<int>, r: Result<nat, LengthError>)
    ensures fresh(v) && r.Err? && !v.Valid()
    ensures v.end == 1 && v.buf != null && v.buf.Length == 1 && v.buf[0] == Raw
  {
    var pool := new Pool();
    v := new Vector<int>(pool, 1);
    var reserved := v.Reserve(1);
    r := v.InsertWithSentinel(0, [1, 2]);
  }
}
