/**
 * Object storage slot by slot. A slot is raw memory, or holds an object, or holds an object whose
 * value has been moved away. Each primitive demands the state in which the operation is allowed.
 */
module VectorMemory {
  import opened Blocks

  datatype Slot<T> = Raw | Live(value: T) | Moved

  /** Hands buffers out, and takes them back: once, whole, and with no object left in them. */
  class Pool {
    /** The buffers that are handed out. */
    ghost var live: set<object>

    constructor ()
      ensures live == {}
    {
      live := {};
    }

    method Allocate<T>(n: nat) returns (buf: array<Slot<T>>)
      modifies this
      ensures fresh(buf) && buf.Length == n && buf[..] == Raws(n)
      ensures live == old(live) + {buf}
    {
      buf := new Slot<T>[n](_ => Raw);
      live := live + {buf};
    }

    method Deallocate<T>(buf: array<Slot<T>>, n: nat)
      requires buf in live && n == buf.Length
      requires buf[..] == Raws(n)
      modifies this
      ensures live == old(live) - {buf}
    {
      live := live - {buf};
    }
  }

  function Raws<T>(n: nat): (s: seq<Slot<T>>)
    ensures |s| == n && forall i :: 0 <= i < n ==> s[i] == Raw
  {
    seq(n, _ => Raw)
  }

  function Moveds<T>(n: nat): (s: seq<Slot<T>>)
    ensures |s| == n && forall i :: 0 <= i < n ==> s[i] == Moved
  {
    seq(n, _ => Moved)
  }

  function Lives<T>(vals: seq<T>): (s: seq<Slot<T>>)
    ensures |s| == |vals| && forall i :: 0 <= i < |vals| ==> s[i] == Live(vals[i])
  {
    seq(|vals|, i requires 0 <= i < |vals| => Live(vals[i]))
  }

  // --- what may be done to one slot ---------------------------------------------------------------

  method Construct<T>(buf: array<Slot<T>>, i: nat, v: T)
    requires i < buf.Length && buf[i].Raw?
    modifies buf
    ensures buf[..] == old(buf[..])[i := Live(v)]
  {
    buf[i] := Live(v);
  }

  method Destroy<T>(buf: array<Slot<T>>, i: nat)
    requires i < buf.Length && !buf[i].Raw?
    modifies buf
    ensures buf[..] == old(buf[..])[i := Raw]
  {
    buf[i] := Raw;
  }

  method CopyAssign<T>(buf: array<Slot<T>>, i: nat, v: T)
    requires i < buf.Length && !buf[i].Raw?
    modifies buf
    ensures buf[..] == old(buf[..])[i := Live(v)]
  {
    buf[i] := Live(v);
  }

  /** Constructs an object by moving from another slot, whose object loses its value. */
  method MoveConstruct<T>(dst: array<Slot<T>>, di: nat, src: array<Slot<T>>, si: nat)
    requires di < dst.Length && dst[di].Raw?
    requires si < src.Length && src[si].Live?
    modifies dst, src
    ensures dst != src ==> dst[..] == old(dst[..])[di := old(src[si])] && src[..] == old(src[..])[si := Moved]
    ensures dst == src ==> dst[..] == old(dst[..])[di := old(src[si])][si := Moved]
  {
    var v := src[si].value;
    src[si] := Moved;
    dst[di] := Live(v);
  }

  method MoveAssign<T>(buf: array<Slot<T>>, di: nat, si: nat)
    requires di < buf.Length && si < buf.Length && di != si && !buf[di].Raw? && buf[si].Live?
    modifies buf
    ensures buf[..] == old(buf[..])[di := old(buf[si])][si := Moved]
    ensures buf[di] == old(buf[si]) && buf[si] == Moved
    ensures forall q :: 0 <= q < buf.Length && q != di && q != si ==> buf[q] == old(buf[q])
  {
    var v := buf[si].value;
    buf[si] := Moved;
    buf[di] := Live(v);
  }

  // --- blocks of slots ------------------------------------------------------------------------------

  ghost predicate AllLive<T>(s: seq<Slot<T>>) {
    forall i :: 0 <= i < |s| ==> s[i].Live?
  }

  /** Destroys the objects in [first, last), from left to right. */
  method DestroyRange<T>(buf: array<Slot<T>>, first: nat, last: nat)
    requires first <= last <= buf.Length
    requires forall i :: first <= i < last ==> !buf[i].Raw?
    modifies buf
    ensures buf[..] == Splice(old(buf[..]), first, Raws(last - first))
  {
    ghost var b := buf[..];
    var i := first;
    while i != last
      invariant first <= i <= last
      invariant forall j :: 0 <= j < buf.Length ==> buf[j] == if first <= j < i then Raw else b[j]
    {
      Destroy(buf, i);
      i := i + 1;
    }
  }

  /** Destroys the objects in [newEnd, end), from right to left. */
  method DestroyFromEnd<T>(buf: array<Slot<T>>, newEnd: nat, end: nat)
    requires newEnd <= end <= buf.Length
    requires forall i :: newEnd <= i < end ==> !buf[i].Raw?
    modifies buf
    ensures buf[..] == Splice(old(buf[..]), newEnd, Raws(end - newEnd))
  {
    ghost var b := buf[..];
    var i := end;
    while newEnd != i
      invariant newEnd <= i <= end
      invariant forall j :: 0 <= j < buf.Length ==> buf[j] == if i <= j < end then Raw else b[j]
    {
      i := i - 1;
      Destroy(buf, i);
    }
  }

  /** Constructs n copies of a value in raw slots. */
  method ConstructCopies<T>(buf: array<Slot<T>>, first: nat, n: nat, v: T)
    requires first + n <= buf.Length
    requires forall i :: first <= i < first + n ==> buf[i].Raw?
    modifies buf
    ensures buf[..] == Splice(old(buf[..]), first, Lives(Repeat(v, n)))
  {
    ghost var b := buf[..];
    var i := first;
    while i != first + n
      invariant first <= i <= first + n
      invariant forall j :: 0 <= j < buf.Length ==> buf[j] == if first <= j < i then Live(v) else b[j]
    {
      Construct(buf, i, v);
      i := i + 1;
    }
  }

  /** Constructs copies of a sequence of values in raw slots. */
  method ConstructAll<T>(buf: array<Slot<T>>, first: nat, vals: seq<T>)
    requires first + |vals| <= buf.Length
    requires forall i :: first <= i < first + |vals| ==> buf[i].Raw?
    modifies buf
    ensures buf[..] == Splice(old(buf[..]), first, Lives(vals))
  {
    ghost var b := buf[..];
    var i := 0;
    while i != |vals|
      invariant 0 <= i <= |vals|
      invariant forall j :: 0 <= j < buf.Length ==> buf[j] == if first <= j < first + i then Live(vals[j - first])
                else b[j]
    {
      Construct(buf, first + i, vals[i]);
      i := i + 1;
    }
  }

  /** Assigns one element's value to n slots that hold objects; the element is none of them. */
  method AssignCopies<T>(buf: array<Slot<T>>, first: nat, n: nat, src: array<Slot<T>>, at: nat)
    requires first + n <= buf.Length
    requires forall i :: first <= i < first + n ==> !buf[i].Raw?
    requires at < src.Length && src[at].Live? && !(src == buf && first <= at < first + n)
    modifies buf
    ensures buf[..] == Splice(old(buf[..]), first, Lives(Repeat(old(src[at].value), n)))
  {
    ghost var b, v := buf[..], src[at].value;
    var i := first;
    while i != first + n
      invariant first <= i <= first + n
      invariant src[at] == Live(v)
      invariant forall j :: 0 <= j < buf.Length ==> buf[j] == if first <= j < i then Live(v) else b[j]
    {
      CopyAssign(buf, i, src[at].value);
      i := i + 1;
    }
  }

  /** Assigns a sequence of values to slots that hold objects. */
  method AssignAll<T>(buf: array<Slot<T>>, first: nat, vals: seq<T>)
    requires first + |vals| <= buf.Length
    requires forall i :: first <= i < first + |vals| ==> !buf[i].Raw?
    modifies buf
    ensures buf[..] == Splice(old(buf[..]), first, Lives(vals))
  {
    ghost var b := buf[..];
    var i := 0;
    while i != |vals|
      invariant 0 <= i <= |vals|
      invariant forall j :: 0 <= j < buf.Length ==> buf[j] == if first <= j < first + i then Live(vals[j - first])
                else b[j]
    {
      CopyAssign(buf, first + i, vals[i]);
      i := i + 1;
    }
  }

  /**
   * Relocates the objects in [first, last) to raw slots of another buffer: each is constructed by a
   * move, and when all have been, the originals are destroyed.
   */
  method Relocate<T>(src: array<Slot<T>>, first: nat, last: nat, dst: array<Slot<T>>, result: nat)
    requires src != dst && first <= last <= src.Length && result + (last - first) <= dst.Length
    requires forall i :: first <= i < last ==> src[i].Live?
    requires forall i :: result <= i < result + (last - first) ==> dst[i].Raw?
    modifies src, dst
    ensures dst[..] == Splice(old(dst[..]), result, old(src[..])[first..last])
    ensures src[..] == Splice(old(src[..]), first, Raws(last - first))
  {
    ghost var s, d := src[..], dst[..];
    MoveAcross(src, first, last, dst, result);
    DestroyRange(src, first, last);
    assert src[..] == Splice(s, first, Raws(last - first));
  }

  method MoveAcross<T>(src: array<Slot<T>>, first: nat, last: nat, dst: array<Slot<T>>, result: nat)
    requires src != dst && first <= last <= src.Length && result + (last - first) <= dst.Length
    requires forall i :: first <= i < last ==> src[i].Live?
    requires forall i :: result <= i < result + (last - first) ==> dst[i].Raw?
    modifies src, dst
    ensures dst[..] == Splice(old(dst[..]), result, old(src[..])[first..last])
    ensures src[..] == Splice(old(src[..]), first, Moveds(last - first))
  {
    ghost var s, d := src[..], dst[..];
    var i := 0;
    while first + i != last
      invariant 0 <= i <= last - first
      invariant forall j :: 0 <= j < dst.Length ==> dst[j] == if result <= j < result + i then s[first + j - result]
                else d[j]
      invariant forall j :: 0 <= j < src.Length ==> src[j] == if first <= j < first + i then Moved else s[j]
    {
      MoveConstruct(dst, result + i, src, first + i);
      i := i + 1;
    }
  }

  /** The slots c arise from b by moving the objects [first, last) to dest, which is behind them. */
  ghost predicate MovedOut<T>(b: seq<Slot<T>>, c: seq<Slot<T>>, first: nat, last: nat, dest: nat) {
    && first <= last <= dest && dest + (last - first) <= |b| == |c|
    && (forall q :: dest <= q < dest + (last - first) ==> c[q] == b[q - dest + first])
    && (forall q :: first <= q < last ==> c[q] == Moved)
    && (forall q :: 0 <= q < |c| && !(first <= q < last) && !(dest <= q < dest + (last - first)) ==> c[q] == b[q])
  }

  lemma NothingMovedOut<T>(b: seq<Slot<T>>, first: nat, dest: nat)
    requires first <= dest <= |b|
    ensures MovedOut(b, b, first, first, dest)
  {
  }

  lemma MovedOutNext<T>(b: seq<Slot<T>>, c: seq<Slot<T>>, first: nat, last: nat, dest: nat)
    requires MovedOut(b, c, first, last, dest) && last < dest && dest + (last - first) < |b|
    ensures var at := dest + (last - first);
            c[last] == b[last] && c[at] == b[at] && MovedOut(b, c[at := c[last]][last := Moved], first, last + 1, dest)
  {
  }

  /** Moves the objects in [first, last) of a buffer to raw slots of the same buffer, from dest on. */
  method MoveToRaw<T>(buf: array<Slot<T>>, first: nat, last: nat, dest: nat)
    requires first <= last <= dest && dest + (last - first) <= buf.Length
    requires forall i :: first <= i < last ==> buf[i].Live?
    requires forall i :: dest <= i < dest + (last - first) ==> buf[i].Raw?
    modifies buf
    ensures MovedOut(old(buf[..]), buf[..], first, last, dest)
  {
    hide MovedOut;
    ghost var b := buf[..];
    NothingMovedOut(b, first, dest);
    var i := 0;
    while first + i < last
      invariant 0 <= i <= last - first && MovedOut(b, buf[..], first, first + i, dest)
    {
      MovedOutNext(b, buf[..], first, first + i, dest);
      MoveConstruct(buf, dest + i, buf, first + i);
      i := i + 1;
    }
  }

  /** The slots c arise from b by moving the objects [first, last) up, to where they end at dest. */
  ghost predicate MovedUp<T>(b: seq<Slot<T>>, c: seq<Slot<T>>, first: nat, last: nat, dest: nat) {
    && first <= last < dest <= |b| == |c|
    && (forall q :: dest - (last - first) <= q < dest ==> c[q] == b[q - (dest - last)])
    && (forall q :: first <= q < Min(last, dest - (last - first)) ==> c[q] == Moved)
    && (forall q :: 0 <= q < first || last <= q < dest - (last - first) || dest <= q < |c| ==> c[q] == b[q])
  }

  lemma NothingMovedUp<T>(b: seq<Slot<T>>, last: nat, dest: nat)
    requires last < dest <= |b|
    ensures MovedUp(b, b, last, last, dest)
  {
  }

  lemma MovedUpNext<T>(b: seq<Slot<T>>, c: seq<Slot<T>>, first: nat, last: nat, dest: nat)
    requires MovedUp(b, c, first, last, dest) && 0 < first
    ensures var from, to := first - 1, first - 1 + (dest - last);
            c[from] == b[from] && MovedUp(b, c[to := c[from]][from := Moved], first - 1, last, dest)
  {
  }

  /** Assigns the objects in [first, last) to the slots that end at dest, from the back. */
  method MoveBackward<T>(buf: array<Slot<T>>, first: nat, last: nat, dest: nat)
    requires first <= last < dest <= buf.Length
    requires forall i :: first <= i < last ==> buf[i].Live?
    requires forall i :: first <= i < dest ==> !buf[i].Raw?
    modifies buf
    ensures MovedUp(old(buf[..]), buf[..], first, last, dest)
  {
    hide MovedUp;
    ghost var b := buf[..];
    NothingMovedUp(b, last, dest);
    var k := dest - last;
    var j := last;
    while j > first
      invariant first <= j <= last && MovedUp(b, buf[..], j, last, dest)
      invariant forall q :: first <= q < dest ==> !buf[q].Raw?
    {
      MovedUpNext(b, buf[..], j, last, dest);
      j := j - 1;
      MoveAssign(buf, j + k, j);
    }
  }

  /** The slots c arise from b by moving the objects [first, last) down to dest. */
  ghost predicate MovedDown<T>(b: seq<Slot<T>>, c: seq<Slot<T>>, first: nat, last: nat, dest: nat) {
    && dest < first <= last <= |b| == |c|
    && (forall q :: dest <= q < dest + (last - first) ==> c[q] == b[q + (first - dest)])
    && (forall q :: Max(first, dest + (last - first)) <= q < last ==> c[q] == Moved)
    && (forall q :: 0 <= q < dest || dest + (last - first) <= q < first || last <= q < |c| ==> c[q] == b[q])
  }

  lemma NothingMovedDown<T>(b: seq<Slot<T>>, first: nat, dest: nat)
    requires dest < first <= |b|
    ensures MovedDown(b, b, first, first, dest)
  {
  }

  lemma MovedDownNext<T>(b: seq<Slot<T>>, c: seq<Slot<T>>, first: nat, last: nat, dest: nat)
    requires MovedDown(b, c, first, last, dest) && last < |b|
    ensures var to := last - (first - dest);
            c[last] == b[last] && MovedDown(b, c[to := c[last]][last := Moved], first, last + 1, dest)
  {
  }

  /** Assigns the objects in [first, last) to the slots from dest on, from the front. */
  method MoveForward<T>(buf: array<Slot<T>>, first: nat, last: nat, dest: nat)
    requires dest < first <= last <= buf.Length
    requires forall i :: dest <= i < last ==> buf[i].Live?
    modifies buf
    ensures MovedDown(old(buf[..]), buf[..], first, last, dest)
  {
    hide MovedDown;
    ghost var b := buf[..];
    NothingMovedDown(b, first, dest);
    var k := first - dest;
    var j := first;
    while j != last
      invariant first <= j <= last && MovedDown(b, buf[..], first, j, dest)
      invariant forall q :: dest <= q < last ==> !buf[q].Raw?
    {
      MovedDownNext(b, buf[..], first, j, dest);
      MoveAssign(buf, j - k, j);
      j := j + 1;
    }
  }

  /** Exchanges two adjacent blocks of objects. */
  method Rotate<T>(buf: array<Slot<T>>, first: nat, mid: nat, last: nat)
    requires first <= mid <= last <= buf.Length
    requires forall i :: first <= i < last ==> buf[i].Live?
    modifies buf
    ensures buf[..] == Splice(old(buf[..]), first, old(buf[..])[mid..last] + old(buf[..])[first..mid])
  {
    var rotated := buf[mid..last] + buf[first..mid];
    forall i | first <= i < last {
      buf[i] := rotated[i - first];
    }
  }
}
