/** Character buffers, pointers into them, and the block operations the string is built from. */
module StringMemory {
  import opened Blocks
  import opened StringLayout

  /** Hands out buffers and takes them back; a buffer handed back may not be touched again. */
  class Allocator {
    /** The largest buffer that can be had. */
    const limit: nat
    ghost var freed: set<array<byte>>
    /** The buffers that were handed out and not yet handed back. */
    ghost var live: set<array<byte>>

    constructor (limit: nat)
      ensures this.limit == limit && freed == {} && live == {}
    {
      this.limit := limit;
      freed, live := {}, {};
    }

    /** A new buffer, or null when there is no memory for it. */
    method Allocate(n: nat) returns (a: array?<byte>)
      modifies `live
      ensures n > limit <==> a == null
      ensures a != null ==> fresh(a) && a.Length == n
      ensures live == old(live) + Owned(a)
    {
      if n > limit {
        return null;
      }
      a := new byte[n];
      live := live + {a};
    }

    /** A buffer is handed back once, whole. */
    method Deallocate(a: array<byte>, n: nat)
      requires a in live && a !in freed && n == a.Length
      modifies this
      ensures freed == old(freed) + {a} && live == old(live) - {a}
    {
      freed, live := freed + {a}, live - {a};
    }
  }

  ghost function Owned(a: array?<byte>): set<array<byte>> {
    if a == null then {} else {a}
  }

  /** A character pointer: a buffer and an offset in it. */
  datatype Pointer = Pointer(buf: array<byte>, off: nat)

  /** The n characters a pointer designates. */
  ghost function Chars(s: Pointer, n: nat): (x: seq<byte>)
    requires s.off + n <= s.buf.Length
    reads s.buf
    ensures |x| == n
  {
    s.buf[..][s.off..s.off + n]
  }

  /** Copies n characters; the ranges may overlap, and what is copied is what was there before. */
  method Move(alloc: Allocator, dst: array<byte>, di: nat, src: array<byte>, si: nat, n: nat)
    requires dst !in alloc.freed && src !in alloc.freed
    requires di + n <= dst.Length && si + n <= src.Length
    modifies dst
    ensures dst[..] == Splice(old(dst[..]), di, old(src[..])[si..si + n])
  {
    forall i | 0 <= i < n {
      dst[di + i] := src[si + i];
    }
  }

  /** Copies n characters between ranges that must not overlap. */
  method Copy(alloc: Allocator, dst: array<byte>, di: nat, src: array<byte>, si: nat, n: nat)
    requires dst !in alloc.freed && src !in alloc.freed
    requires di + n <= dst.Length && si + n <= src.Length
    requires dst != src || di + n <= si || si + n <= di
    modifies dst
    ensures dst[..] == Splice(old(dst[..]), di, old(src[..])[si..si + n])
  {
    forall i | 0 <= i < n {
      dst[di + i] := src[si + i];
    }
  }

  /** Writes n copies of a character. */
  method Fill(alloc: Allocator, dst: array<byte>, di: nat, n: nat, c: byte)
    requires dst !in alloc.freed && di + n <= dst.Length
    modifies dst
    ensures dst[..] == Splice(old(dst[..]), di, Repeat(c, n))
  {
    forall i | 0 <= i < n {
      dst[di + i] := c;
    }
  }

  // --- what sequences of block moves inside one buffer amount to --------------------------------

  /** The characters before pos, the new ones, and those from pos + n1 up to the old size. */
  function Replaced(b: seq<byte>, sz: nat, pos: nat, n1: nat, x: seq<byte>): (r: seq<byte>)
    requires pos + n1 <= sz <= |b|
    ensures |r| == sz - n1 + |x|
  {
    b[..pos] + x + b[pos + n1..sz]
  }

  lemma AllReplaced(b: seq<byte>, sz: nat, x: seq<byte>)
    requires sz <= |b|
    ensures Replaced(b, sz, 0, sz, x) == x
  {
  }

  lemma FilledGap(b: seq<byte>, pos: nat, x: seq<byte>, size: nat)
    requires pos + |x| <= size <= |b|
    ensures Splice(b, pos, x)[..size] == b[..pos] + x + b[pos + |x|..size] && SameFrom(b, Splice(b, pos, x), size)
  {
  }

  lemma PartsOfPrefix(b: seq<byte>, sz: nat, i: nat, j: nat)
    requires i <= j <= sz <= |b|
    ensures b[..sz][..i] == b[..i] && b[..sz][j..] == b[j..sz]
  {
  }

  lemma ReplacedInContent(b: seq<byte>, sz: nat, pos: nat, n1: nat, x: seq<byte>)
    requires pos + n1 <= sz <= |b|
    ensures Replaced(b, sz, pos, n1, x) == b[..sz][..pos] + x + b[..sz][pos + n1..]
  {
    PartsOfPrefix(b, sz, pos, pos + n1);
  }

  /** Nothing after the replaced part has to move. */
  lemma NoTailMove(b: seq<byte>, sz: nat, pos: nat, n1: nat, x: seq<byte>)
    requires pos + n1 <= sz <= |b| && sz - n1 + |x| <= |b| && (n1 == |x| || pos + n1 == sz)
    ensures var b1 := Splice(b, pos, x);
            var m := Max(sz, sz - n1 + |x|);
            b1[..sz - n1 + |x|] == Replaced(b, sz, pos, n1, x) && SameFrom(b, b1, m)
  {
  }

  /** Shrinking: the new characters first, then the tail. */
  lemma ShrinkInPlace(b: seq<byte>, sz: nat, pos: nat, n1: nat, x: seq<byte>)
    requires pos + n1 <= sz <= |b| && |x| <= n1
    ensures var b1 := Splice(b, pos, x);
            var b2 := Splice(b1, pos + |x|, b1[pos + n1..sz]);
            b2[..sz - n1 + |x|] == Replaced(b, sz, pos, n1, x) && SameFrom(b, b2, sz)
  {
  }

  /** Growing: the tail first, then the new characters. */
  lemma GrowInPlace(b: seq<byte>, sz: nat, pos: nat, n1: nat, x: seq<byte>)
    requires pos + n1 <= sz && n1 <= |x| && sz - n1 + |x| <= |b|
    ensures var b1 := Splice(b, pos + |x|, b[pos + n1..sz]);
            var b2 := Splice(b1, pos, x);
            b2[..sz - n1 + |x|] == Replaced(b, sz, pos, n1, x) && SameFrom(b, b2, sz - n1 + |x|)
  {
  }

  /**
   * Where the new characters are found after the tail has moved up, when they lie in the buffer
   * itself: in place if they start at or before pos, shifted if they start in the tail.
   */
  lemma SourceAfterTailMove(b: seq<byte>, sz: nat, pos: nat, n1: nat, n2: nat, s: nat)
    requires pos + n1 <= sz && n1 <= n2 && sz - n1 + n2 <= |b| && s + n2 <= sz
    ensures var b1 := Splice(b, pos + n2, b[pos + n1..sz]);
            && (s <= pos ==> b1[s..s + n2] == b[s..s + n2])
            && (pos + n1 <= s ==> b1[s + (n2 - n1)..s + (n2 - n1) + n2] == b[s..s + n2])
  {
    var tail := b[pos + n1..sz];
    var b1 := Splice(b, pos + n2, tail);
    if pos + n1 <= s {
      var x, y := b1[s + (n2 - n1)..s + (n2 - n1) + n2], b[s..s + n2];
      forall k | 0 <= k < n2 ensures x[k] == y[k] {
        assert x[k] == b1[s + (n2 - n1) + k] == tail[s - n1 + k - pos];
      }
    }
  }

  /** The rest of a source that began inside the replaced part, after the tail has moved up. */
  lemma RestAfterTailMove(b: seq<byte>, sz: nat, pos: nat, n1: nat, n2: nat, s: nat)
    requires pos + n1 <= sz && n1 <= n2 && sz - n1 + n2 <= |b| && s + n2 <= sz
    requires pos < s < pos + n1
    ensures var b2 := Splice(Splice(b, pos, b[s..s + n1]), pos + n2, b[pos + n1..sz]);
            b2[s + n2..s + n2 + (n2 - n1)] == b[s + n1..s + n2]
  {
    var b1 := Splice(b, pos, b[s..s + n1]);
    var tail := b[pos + n1..sz];
    var b2 := Splice(b1, pos + n2, tail);
    var x, y := b2[s + n2..s + n2 + (n2 - n1)], b[s + n1..s + n2];
    forall k | 0 <= k < n2 - n1 ensures x[k] == y[k] {
      assert x[k] == b2[s + n2 + k] == tail[s + k - pos];
    }
  }

  /**
   * Growing when the new characters start inside the part being replaced: the first n1 of them are
   * written before the tail moves, the rest, which were in the tail, after it.
   */
  lemma GrowFromInside(b: seq<byte>, sz: nat, pos: nat, n1: nat, n2: nat, s: nat)
    requires pos + n1 <= sz && n1 <= n2 && sz - n1 + n2 <= |b| && s + n2 <= sz
    requires pos < s < pos + n1
    ensures var b1 := Splice(b, pos, b[s..s + n1]);
            var b2 := Splice(b1, pos + n2, b1[pos + n1..sz]);
            var b3 := Splice(b2, pos + n1, b2[s + n2..s + n2 + (n2 - n1)]);
            && b3[..sz - n1 + n2] == Replaced(b, sz, pos, n1, b[s..s + n2])
            && SameFrom(b, b3, sz - n1 + n2)
  {
    var b1 := Splice(b, pos, b[s..s + n1]);
    assert b1[pos + n1..sz] == b[pos + n1..sz];
    RestAfterTailMove(b, sz, pos, n1, n2, s);
    SpliceTwice(b, sz, pos, n1, b[s..s + n1], b[s + n1..s + n2]);
    assert b[s..s + n2] == b[s..s + n1] + b[s + n1..s + n2];
  }

  /** Writing the head of the new characters, then the tail, then the rest of the new characters. */
  lemma SpliceTwice(b: seq<byte>, sz: nat, pos: nat, n1: nat, head: seq<byte>, rest: seq<byte>)
    requires pos + n1 <= sz && |head| == n1 && sz + |rest| <= |b|
    ensures var b2 := Splice(Splice(b, pos, head), pos + n1 + |rest|, b[pos + n1..sz]);
            var b3 := Splice(b2, pos + n1, rest);
            b3[..sz + |rest|] == Replaced(b, sz, pos, n1, head + rest) && SameFrom(b, b3, sz + |rest|)
  {
    var b2 := Splice(Splice(b, pos, head), pos + n1 + |rest|, b[pos + n1..sz]);
    assert b2[..pos + n1] == b[..pos] + head;
    assert b2[pos + n1 + |rest|..sz + |rest|] == b[pos + n1..sz];
    assert b2[sz + |rest|..] == b[sz + |rest|..];
  }

  /** Appending: writing after the characters in use. */
  lemma SpliceAtEnd(b: seq<byte>, sz: nat, x: seq<byte>)
    requires sz + |x| <= |b|
    ensures Splice(b, sz, x)[..sz + |x|] == b[..sz] + x && SameFrom(b, Splice(b, sz, x), sz + |x|)
  {
  }

  /** Erasing: the tail moves down over the erased characters. */
  lemma TailMovesDown(b: seq<byte>, sz: nat, pos: nat, n: nat)
    requires pos + n <= sz <= |b|
    ensures Splice(b, pos, b[pos + n..sz])[..sz - n] == b[..pos] + b[pos + n..sz]
    ensures SameFrom(b, Splice(b, pos, b[pos + n..sz]), sz)
  {
  }

  /** Opening or closing a gap: the tail moves, what is before the gap does not. */
  lemma TailMoves(b: seq<byte>, sz: nat, pos: nat, n1: nat, n2: nat)
    requires pos + n1 <= sz <= |b| && sz - n1 + n2 <= |b|
    ensures var b1 := Splice(b, pos + n2, b[pos + n1..sz]);
            && b1[..pos] == b[..pos] && b1[pos + n2..sz - n1 + n2] == b[pos + n1..sz]
            && SameFrom(b, b1, sz - n1 + n2)
  {
  }
}
