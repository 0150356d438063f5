/** The string with a short and a long form, its buffer management and its editing operations. */
module StringModel {
  import opened Wrappers
  import opened Blocks
  import opened StringLayout
  import opened StringMemory

  datatype StringError = OutOfRange | LengthError | OutOfMemory

  const ALIGNMENT: nat := 8

  /** The largest size: what a 63-bit capacity can hold, less the alignment and the terminator. */
  const MAX_SIZE: nat := 0x7fff_ffff_ffff_fff6

  /** The count that stands for everything up to the end. */
  const NPOS: nat := 0xffff_ffff_ffff_ffff

  class BasicString {
    /** The bytes of the representation; in the short form they hold the characters. */
    const raw: array<byte>
    /** The buffer that the address in a long representation designates. */
    var data: array?<byte>
    /** The bytes of that address, as they were written; which number they are plays no role. */
    ghost var address: seq<byte>
    const alloc: Allocator

    ghost predicate Separate()
      reads this, raw
    {
      && raw.Length == MIN_CAP && alloc.limit <= MAX_SIZE + 1
      && (data != null ==> data != raw)
    }

    predicate Long()
      requires raw.Length == MIN_CAP
      reads raw
    {
      IsLong(raw[..])
    }

    function View(): Rep
      requires raw.Length == MIN_CAP
      reads raw
    {
      Decode(raw[..])
    }

    /** The first bytes still are the address; in the short form characters take their place. */
    ghost predicate AddressIntact()
      requires raw.Length == MIN_CAP
      reads this, raw
    {
      raw[..8] == address
    }

    /** The buffer that the address designates; it can be read from the long form only. */
    function LongPointer(): array?<byte>
      requires raw.Length == MIN_CAP && Long() && AddressIntact()
      reads this, raw
    {
      data
    }

    /** The buffer in use is one of the right size that has not been handed back. */
    ghost predicate Storage()
      reads this, raw, alloc
    {
      && Separate()
      && raw !in alloc.freed
      && (if Long()
          then && AddressIntact() && data != null && data !in alloc.freed && data in alloc.live
              && data.Length == View().cap
               && MIN_CAP < View().cap <= MAX_SIZE + 1
          else data == null && raw[23] < MIN_CAP)
    }

    function Buffer(): (b: array<byte>)
      requires Storage()
      reads this, raw, alloc
      ensures b !in alloc.freed && b.Length >= MIN_CAP
    {
      if Long() then LongPointer() else raw
    }

    function Size(): (n: int)
      requires raw.Length == MIN_CAP
      reads raw
    {
      View().size
    }

    /** How many characters fit without a new buffer. */
    function Capacity(): (n: int)
      requires Storage()
      reads this, raw, alloc
      ensures MIN_CAP - 1 <= n <= MAX_SIZE
    {
      (if Long() then View().cap else MIN_CAP) - 1
    }

    /** The representation invariant: size within capacity, and a zero after the last character. */
    ghost predicate Valid()
      reads this, raw, data, alloc
    {
      && Storage()
      && 0 <= Size() <= Capacity()
      && Buffer()[Size()] == 0
    }

    ghost function Contents(): (s: seq<byte>)
      requires Valid()
      reads this, raw, data, alloc
      ensures |s| == Size()
    {
      Buffer()[..Size()]
    }

    /** The empty string, in the short form. */
    constructor (alloc: Allocator)
      requires alloc.limit <= MAX_SIZE + 1
      ensures Valid() && Contents() == [] && this.alloc == alloc && fresh(raw) && data == null
    {
      this.alloc := alloc;
      raw := new byte[MIN_CAP](i => if i == MIN_CAP - 1 then MIN_CAP - 1 else 0);
      data, address := null, [];
    }

    /** Writes the size field of whichever form is in use. */
    method SetSize(n: nat)
      requires Storage() && n <= Capacity()
      modifies raw
      ensures Storage() && Long() == old(Long()) && Size() == n && Capacity() == old(Capacity())
      ensures !Long() ==> raw[..] == old(raw[..])[23 := MIN_CAP - 1 - n]
    {
      ghost var before := raw[..];
      if Long() {
        DecodeLongSize(raw[..], n);
        var word := Bytes(n, 8);
        forall i | 0 <= i < 8 {
          raw[8 + i] := word[i];
        }
        assert raw[..] == before[..8] + word + before[16..];
        assert raw[..8] == before[..8];
      } else {
        DecodeShort(raw[..], n);
        raw[23] := MIN_CAP - 1 - n;
        assert raw[..] == before[23 := MIN_CAP - 1 - n];
      }
    }

    /** Sets the size and the terminator; the characters before it stay as they are. */
    method NullTerminateAt(n: nat)
      requires Storage() && n <= Capacity()
      modifies raw, Buffer()
      ensures Valid() && Long() == old(Long()) && Capacity() == old(Capacity())
      ensures Contents() == old(Buffer()[..n])
    {
      SetSize(n);
      var p := Buffer();
      p[n] := 0;
    }

    /**
     * The buffer in use was taken and the former one handed back, unless it is the same. No other buffer
     * was taken or handed back.
     */
    ghost predicate Exchanged(was: array?<byte>, freed: set<array<byte>>, live: set<array<byte>>)
      reads `data, alloc
    {
      && alloc.freed == freed + (if data == was then {} else Owned(was))
      && alloc.live == live - Owned(was) + Owned(data)
    }

    lemma NothingExchanged()
      requires Storage()
      ensures Exchanged(data, alloc.freed, alloc.live)
    {
    }

    /** Makes a buffer the one in use; a long buffer it replaces is handed back with its own capacity. */
    method ReplaceInternalBuffer(buffer: array<byte>, size: nat)
      requires Storage()
      requires buffer !in alloc.freed && buffer in alloc.live && buffer != raw && buffer != data
      requires MIN_CAP < buffer.Length <= MAX_SIZE + 1 && size < TWO_64
      modifies this`data, this`address, raw, alloc
      ensures Storage() && Long() && data == buffer && View() == Rep.Long(size, buffer.Length)
      ensures Exchanged(old(data), old(alloc.freed), old(alloc.live) - {buffer})
    {
      if Long() {
        alloc.Deallocate(LongPointer(), View().cap);
      }
      assert |Bytes(0, 8)| == 8;
      var pointer: seq<byte> :| |pointer| == 8;
      WriteLong(pointer, size, buffer.Length);
      data, address := buffer, pointer;
    }

    /** Writes the three fields of the long form. */
    method WriteLong(pointer: seq<byte>, size: nat, cap: nat)
      requires raw.Length == MIN_CAP && |pointer| == 8 && size < TWO_64 && cap < TWO_63
      modifies raw
      ensures Long() && View() == Rep.Long(size, cap) && raw[..8] == pointer
    {
      hide EncodeLong;
      DecodeLong(pointer, size, cap);
      LongBegins(pointer, size, cap);
      var bytes := EncodeLong(pointer, size, cap);
      forall i | 0 <= i < MIN_CAP {
        raw[i] := bytes[i];
      }
      assert raw[..] == bytes;
      assert raw[..8] == bytes[..8];
    }

    /** The capacity to grow to: at least doubled, aligned, and never beyond the largest size. */
    static function GrownCapacity(oldCap: nat, delta: nat): (c: nat)
      requires oldCap + delta <= MAX_SIZE
      ensures oldCap + delta <= c <= MAX_SIZE + 1
      ensures delta > 0 && oldCap >= MIN_CAP - 1 ==> c >= MIN_CAP
    {
      if oldCap < MAX_SIZE / 2 - ALIGNMENT then
        var wanted := if 2 * oldCap < oldCap + delta then oldCap + delta else 2 * oldCap;
        RecommendSound(wanted);
        Recommend(wanted)
      else MAX_SIZE
    }

    /**
     * The capacity next after size characters were put where there was room for cap: the same if they fit, and
     * otherwise the least one that is one less than a multiple of eight, holds them, and is at least doubled.
     */
    static ghost predicate GrowsTo(cap: nat, size: nat, next: nat) {
      if size <= cap then next == cap
      else cap < MAX_SIZE / 2 - ALIGNMENT && next % 8 == 7 && Max(2 * cap, size) <= next <= Max(2 * cap, size) + 7
    }

    static lemma AsksForNext(cap: nat, size: nat)
      requires MIN_CAP - 1 <= cap < size <= MAX_SIZE && cap < MAX_SIZE / 2 - ALIGNMENT
      ensures GrowsTo(cap, size, Recommend(GrownCapacity(cap, size - cap)))
    {
      var wanted := Max(2 * cap, size);
      assert GrownCapacity(cap, size - cap) == Recommend(wanted);
      RecommendSound(wanted);
    }

    static lemma NextIsOne(cap: nat, size: nat, a: nat, b: nat)
      requires GrowsTo(cap, size, a) && GrowsTo(cap, size, b)
      ensures a == b
    {
    }

    static lemma NoneFromHalf(cap: nat, size: nat)
      requires MAX_SIZE / 2 - ALIGNMENT <= cap < size <= MAX_SIZE
      ensures Recommend(GrownCapacity(cap, size - cap)) == MAX_SIZE + 1
    {
    }

    /**
     * Growing asks for that capacity, and fails exactly beyond the largest size, or if there is no memory for it
     * and a terminator. From half the largest size on there never is.
     */
    static lemma GrowsExactly(cap: nat, size: nat, limit: nat, e: StringError)
      requires MIN_CAP - 1 <= cap < size && cap <= MAX_SIZE && limit <= MAX_SIZE + 1
      ensures CannotGrow(cap, size - cap, limit, e) <==>
              if size > MAX_SIZE then e == LengthError
              else e == OutOfMemory && !exists next: nat :: GrowsTo(cap, size, next) && next < limit
      ensures size <= MAX_SIZE && cap < MAX_SIZE / 2 - ALIGNMENT ==>
                GrowsTo(cap, size, Recommend(GrownCapacity(cap, size - cap)))
    {
      hide GrowsTo, Recommend, GrownCapacity;
      if size <= MAX_SIZE {
        if cap < MAX_SIZE / 2 - ALIGNMENT {
          AsksForNext(cap, size);
          forall next: nat | GrowsTo(cap, size, next)
            ensures next == Recommend(GrownCapacity(cap, size - cap))
          {
            NextIsOne(cap, size, next, Recommend(GrownCapacity(cap, size - cap)));
          }
        } else {
          NoneFromHalf(cap, size);
          forall next: nat
            ensures !GrowsTo(cap, size, next)
          {
            TooLargeToGrow(cap, size, next);
          }
        }
      }
    }

    static lemma TooLargeToGrow(cap: nat, size: nat, next: nat)
      requires MAX_SIZE / 2 - ALIGNMENT <= cap < size
      ensures !GrowsTo(cap, size, next)
    {
    }

    /** A full short string that is given one more character gets room for 47. */
    static lemma FullShortGrows(limit: nat, e: StringError)
      requires limit <= MAX_SIZE + 1
      ensures GrowsTo(MIN_CAP - 1, MIN_CAP, 47)
      ensures CannotGrow(MIN_CAP - 1, 1, limit, e) <==> e == OutOfMemory && limit < 48
    {
    }

    /**
     * The largest request is rounded up to a capacity beyond the largest size. So all capacities that can be
     * had stay within the largest size exactly if no buffer can be had that is longer than that and a
     * terminator.
     */
    static lemma LimitKeepsCapacity(limit: nat)
      ensures (forall n: nat :: MIN_CAP <= n <= MAX_SIZE && Recommend(n) + 1 <= limit ==> Recommend(n) <= MAX_SIZE)
              <==> limit <= MAX_SIZE + 1
    {
      assert Recommend(MAX_SIZE) == MAX_SIZE + 1;
      if limit > MAX_SIZE + 1 {
        assert Recommend(MAX_SIZE) + 1 <= limit;
      }
    }

    /**
     * At that capacity the guard, computed with 64 bits, lets a full string grow by one, into a buffer that
     * has no room for the character and the terminator.
     */
    static lemma FullBeyondLargestSize()
      ensures var cap := Recommend(MAX_SIZE);
              && cap == MAX_SIZE + 1 && !(1 > (MAX_SIZE - cap) % TWO_64)
              && cap >= MAX_SIZE / 2 - ALIGNMENT && Recommend(MAX_SIZE) + 1 < cap + 1 + 1
    {
    }

    /** A buffer for at least the given number of characters and a terminator, if there is memory. */
    method AllocateLongBuffer(capacity: nat) returns (buffer: array?<byte>)
      requires MIN_CAP <= capacity && alloc.limit <= MAX_SIZE + 1
      modifies alloc`live
      ensures alloc.live == old(alloc.live) + Owned(buffer)
      ensures Recommend(capacity) + 1 > alloc.limit <==> buffer == null
      ensures buffer != null ==>
                fresh(buffer) && buffer.Length == Recommend(capacity) + 1 && capacity < buffer.Length <= MAX_SIZE + 1
    {
      RecommendSound(capacity);
      buffer := alloc.Allocate(Recommend(capacity) + 1);
    }

    /** Whether growing fails: beyond the largest size, or beyond what can be allocated. */
    static ghost predicate CannotGrow(oldCap: nat, delta: nat, limit: nat, e: StringError) {
      if delta > MAX_SIZE - oldCap then e == LengthError
      else e == OutOfMemory && Recommend(GrownCapacity(oldCap, delta)) + 1 > limit
    }

    /** A buffer for the capacity to grow to and a terminator, if there is memory. */
    method AllocateGrown(oldCap: nat, delta: nat) returns (buffer: array?<byte>)
      requires MIN_CAP - 1 <= oldCap && 0 < delta && oldCap + delta <= MAX_SIZE && alloc.limit <= MAX_SIZE + 1
      modifies alloc`live
      ensures alloc.live == old(alloc.live) + Owned(buffer)
      ensures forall e :: CannotGrow(oldCap, delta, alloc.limit, e) <==> buffer == null && e == OutOfMemory
      ensures buffer != null ==>
                && fresh(buffer) && MIN_CAP < buffer.Length <= MAX_SIZE + 1 && oldCap + delta < buffer.Length
                && buffer.Length - 1 == Recommend(GrownCapacity(oldCap, delta))
                && GrowsTo(oldCap, oldCap + delta, buffer.Length - 1)
    {
      GrowsExactly(oldCap, oldCap + delta, alloc.limit, OutOfMemory);
      buffer := AllocateLongBuffer(GrownCapacity(oldCap, delta));
    }

    /** Characters that may be read: in a buffer not handed back, within its bounds. */
    ghost predicate Readable(s: Pointer, n: nat)
      reads alloc
    {
      s.buf !in alloc.freed && s.off + n <= s.buf.Length
    }

    /**
     * Moves to a larger buffer, keeping the first nCopy characters, dropping nDel and inserting nAdd
     * in their place. The inserted characters are read before the old buffer is handed back.
     */
    method GrowByAndReplace(oldCap: nat, delta: nat, oldSize: nat, nCopy: nat, nDel: nat, nAdd: nat, s: Pointer)
        returns (r: Outcome<StringError>)
      requires Valid() && oldCap == Capacity() && oldSize == Size()
      requires 0 < delta && nCopy + nDel <= oldSize && oldSize - nDel + nAdd <= oldCap + delta
      requires Readable(s, nAdd)
      modifies this`data, this`address, raw, alloc
      ensures forall e :: r == Fail(e) <==> CannotGrow(oldCap, delta, alloc.limit, e)
      ensures Exchanged(old(data), old(alloc.freed), old(alloc.live))
      ensures r.Fail? ==> Valid() && data == old(data) && raw[..] == old(raw[..])
      ensures r.Pass? ==>
                && Valid() && Long() && fresh(data) && GrowsTo(oldCap, oldCap + delta, Capacity())
                && Contents() == Replaced(old(Buffer()[..]), oldSize, nCopy, nDel, old(Chars(s, nAdd)))
    {
      if delta > MAX_SIZE - oldCap {
        return Fail(LengthError);
      }
      var buffer := AllocateGrown(oldCap, delta);
      if buffer == null {
        return Fail(OutOfMemory);
      }
      hide Decode, Recommend, GrownCapacity, Exchanged, CannotGrow, GrowsTo;
      var size := CopyAround(buffer, oldSize, nCopy, nDel, nAdd, s);
      ReplaceInternalBuffer(buffer, size);
      r := Pass;
    }

    /** Copies the kept and the inserted characters into a new buffer, with a terminator after them. */
    method CopyAround(buffer: array<byte>, oldSize: nat, nCopy: nat, nDel: nat, nAdd: nat, s: Pointer)
        returns (size: nat)
      requires Storage() && oldSize <= Capacity() && nCopy + nDel <= oldSize
      requires Readable(s, nAdd)
      requires buffer !in alloc.freed && buffer != s.buf && buffer != Buffer()
      requires oldSize - nDel + nAdd < buffer.Length
      modifies buffer
      ensures size == oldSize - nDel + nAdd
      ensures buffer[size] == 0
      ensures buffer[..size] == Replaced(old(Buffer()[..]), oldSize, nCopy, nDel, old(Chars(s, nAdd)))
    {
      hide Decode, Recommend;
      var oldP := Buffer();
      ghost var was, added := oldP[..], Chars(s, nAdd);
      CopyIfAny(buffer, 0, oldP, 0, nCopy);
      CopyIfAny(buffer, nCopy, s.buf, s.off, nAdd);
      assert buffer[..nCopy + nAdd] == was[..nCopy] + added;
      var rest := oldSize - nDel - nCopy;
      CopyIfAny(buffer, nCopy + nAdd, oldP, nCopy + nDel, rest);
      size := nCopy + nAdd + rest;
      assert buffer[..size] == was[..nCopy] + added + was[nCopy + nDel..oldSize];
      buffer[size] := 0;
    }

    /** Copies n characters, if any, to position at of a new buffer. */
    method CopyIfAny(buffer: array<byte>, at: nat, src: array<byte>, si: nat, n: nat)
      requires buffer !in alloc.freed && src !in alloc.freed && buffer != src
      requires at + n <= buffer.Length && si + n <= src.Length
      modifies buffer
      ensures buffer[..at + n] == old(buffer[..at]) + src[..][si..si + n]
    {
      if n != 0 {
        Copy(alloc, buffer, at, src, si, n);
      }
    }

    /** Moves to a larger buffer like GrowByAndReplace, but leaves the inserted characters unwritten. */
    method GrowByWithoutReplace(oldCap: nat, delta: nat, oldSize: nat, nCopy: nat, nDel: nat, nAdd: nat)
        returns (r: Outcome<StringError>)
      requires Valid() && oldCap == Capacity() && oldSize == Size()
      requires 0 < delta && nCopy + nDel <= oldSize && oldSize - nDel + nAdd <= oldCap + delta
      modifies this`data, this`address, raw, alloc
      ensures forall e :: r == Fail(e) <==> CannotGrow(oldCap, delta, alloc.limit, e)
      ensures Exchanged(old(data), old(alloc.freed), old(alloc.live))
      ensures r.Fail? ==> Valid() && data == old(data) && raw[..] == old(raw[..])
      ensures r.Pass? ==>
                && Storage() && Long() && fresh(data)
                && oldCap + delta <= MAX_SIZE && Capacity() == Recommend(GrownCapacity(oldCap, delta))
                && GrowsTo(oldCap, oldCap + delta, Capacity())
                && Size() == oldSize - nDel + nAdd
                && data[..nCopy] == old(Buffer()[..nCopy])
                && data[nCopy + nAdd..Size()] == old(Buffer()[nCopy + nDel..oldSize])
    {
      if delta > MAX_SIZE - oldCap {
        return Fail(LengthError);
      }
      var buffer := AllocateGrown(oldCap, delta);
      if buffer == null {
        return Fail(OutOfMemory);
      }
      hide Decode, Recommend, GrownCapacity, Exchanged, CannotGrow, GrowsTo;
      CopyAroundGap(buffer, oldSize, nCopy, nDel, nAdd);
      TakeOver(buffer, oldSize - nDel + nAdd);
      LateExchange(old(data), old(alloc.freed), old(alloc.live), buffer);
      r := Pass;
    }

    lemma LateExchange(was: array?<byte>, freed: set<array<byte>>, live: set<array<byte>>, buffer: array<byte>)
      requires data == buffer && buffer !in live && Exchanged(was, freed, live + {buffer} - {buffer})
      ensures Exchanged(was, freed, live)
    {
      assert live + {buffer} - {buffer} == live;
    }

    /** Makes a buffer the one in use, and only then sets the size. */
    method TakeOver(buffer: array<byte>, size: nat)
      requires Storage()
      requires buffer !in alloc.freed && buffer in alloc.live && buffer != raw && buffer != data
      requires MIN_CAP < buffer.Length <= MAX_SIZE + 1 && size < buffer.Length
      modifies this`data, this`address, raw, alloc
      ensures Storage() && Long() && data == buffer && Size() == size && Capacity() == buffer.Length - 1
      ensures Exchanged(old(data), old(alloc.freed), old(alloc.live) - {buffer})
    {
      hide Decode;
      ReplaceInternalBuffer(buffer, TWO_64 - 1);
      SetSize(size);
    }

    method CopyAroundGap(buffer: array<byte>, oldSize: nat, nCopy: nat, nDel: nat, nAdd: nat)
      requires Storage() && oldSize <= Capacity() && nCopy + nDel <= oldSize
      requires buffer !in alloc.freed && buffer != Buffer() && oldSize - nDel + nAdd < buffer.Length
      modifies buffer
      ensures buffer[..nCopy] == old(Buffer()[..nCopy])
      ensures buffer[nCopy + nAdd..oldSize - nDel + nAdd] == old(Buffer()[nCopy + nDel..oldSize])
    {
      var oldP := Buffer();
      CopyIfAny(buffer, 0, oldP, 0, nCopy);
      var rest := oldSize - nDel - nCopy;
      if rest != 0 {
        Copy(alloc, buffer, nCopy + nAdd, oldP, nCopy + nDel, rest);
      }
    }

    /** Characters to insert: anywhere readable, and if in this string's own buffer, among its characters. */
    ghost predicate Source(s: Pointer, n: nat)
      requires Storage()
      reads this, raw, alloc
    {
      && Readable(s, n)
      && (s.buf == Buffer() ==> s.off + n <= Size())
      && (Long() ==> s.buf != raw)
    }

    /**
     * Replaces n1 characters from pos on by the n2 characters at s, which may be characters of this
     * very string, anywhere in it; they count with the value they had before the call.
     */
    method Replace(pos: nat, n1: nat, s: Pointer, n2: nat) returns (r: Outcome<StringError>)
      requires Valid() && Source(s, n2)
      modifies this`data, this`address, raw, data, alloc
      ensures Valid()
      ensures r == Fail(OutOfRange) <==> pos > old(Size())
      ensures forall e :: e != OutOfRange && pos <= old(Size()) ==>
                var size := old(Size()) - Min(n1, old(Size()) - pos) + n2;
                r == Fail(e)
                <==> size > old(Capacity())
                     && CannotGrow(old(Capacity()), size - old(Capacity()), alloc.limit, e)
      ensures r.Fail? ==> Contents() == old(Contents()) && data == old(data)
      ensures Exchanged(old(data), old(alloc.freed), old(alloc.live))
              && (data == old(data) || data == null || fresh(data))
      ensures r.Pass? ==>
                Contents() == old(Contents())[..pos] + old(Chars(s, n2))
                              + old(Contents())[pos + Min(n1, old(Size()) - pos)..]
      ensures r.Pass? ==> GrowsTo(old(Capacity()), Size(), Capacity())
      ensures r.Pass? && Size() <= old(Capacity()) ==> data == old(data)
    {
      hide Decode, Recommend, Replaced, Exchanged;
      NothingExchanged();
      var sz := Size();
      if pos > sz {
        return Fail(OutOfRange);
      }
      var m1 := Min(n1, sz - pos);
      ReplacedInContent(Buffer()[..], sz, pos, m1, Chars(s, n2));
      var cap := Capacity();
      if cap - sz + m1 < n2 {
        r := GrowByAndReplace(cap, sz - m1 + n2 - cap, sz, pos, m1, n2, s);
        return;
      }
      ReplaceInPlace(pos, m1, s, n2);
      r := Pass;
    }

    method ReplaceInPlace(pos: nat, n1: nat, s: Pointer, n2: nat)
      requires Valid() && Source(s, n2)
      requires pos + n1 <= Size() && Size() - n1 + n2 <= Capacity()
      modifies raw, Buffer()
      ensures Valid() && Long() == old(Long()) && Capacity() == old(Capacity())
      ensures Contents() == Replaced(old(Buffer()[..]), old(Size()), pos, n1, old(Chars(s, n2)))
    {
      hide Splice, Replaced, Decode;
      var sz := Size();
      var p := Buffer();
      var tail := sz - pos - n1;
      if n1 != n2 && tail != 0 {
        if n1 > n2 {
          MoveThenTail(p, sz, pos, n1, s, n2);
        } else {
          TailThenMove(p, sz, pos, n1, s, n2);
        }
      } else {
        NoTailMove(p[..], sz, pos, n1, Chars(s, n2));
        Move(alloc, p, pos, s.buf, s.off, n2);
      }
      assert Short() ==> raw[..][23] == old(raw[..])[23];
      NullTerminateAt(sz - n1 + n2);
    }

    predicate Short()
      requires raw.Length == MIN_CAP
      reads raw
    {
      !Long()
    }

    /** The replacement is shorter: it is written before the tail moves down. */
    method MoveThenTail(p: array<byte>, sz: nat, pos: nat, n1: nat, s: Pointer, n2: nat)
      requires p !in alloc.freed && Readable(s, n2)
      requires pos + n1 <= sz < p.Length && n2 < n1
      modifies p
      ensures p[..sz - n1 + n2] == Replaced(old(p[..]), sz, pos, n1, old(Chars(s, n2)))
      ensures SameFrom(old(p[..]), p[..], sz)
    {
      hide Splice, Replaced, SameFrom;
      ShrinkInPlace(p[..], sz, pos, n1, Chars(s, n2));
      Move(alloc, p, pos, s.buf, s.off, n2);
      Move(alloc, p, pos + n2, p, pos + n1, sz - pos - n1);
    }

    /**
     * The replacement is longer: the tail moves up first. A source in the tail has moved with it; of
     * a source that starts inside the replaced part, the first n1 characters are written beforehand.
     */
    method TailThenMove(p: array<byte>, sz: nat, pos: nat, n1: nat, s: Pointer, n2: nat)
      requires p !in alloc.freed && Readable(s, n2)
      requires pos + n1 < sz && n1 < n2 && sz - n1 + n2 < p.Length
      requires s.buf == p ==> s.off + n2 <= sz
      modifies p
      ensures p[..sz - n1 + n2] == Replaced(old(p[..]), sz, pos, n1, old(Chars(s, n2)))
      ensures SameFrom(old(p[..]), p[..], sz - n1 + n2)
    {
      if s.buf == p && pos + 1 <= s.off < sz {
        if pos + n1 <= s.off {
          FromOutside(p, sz, pos, n1, s, s.off + (n2 - n1), n2);
        } else {
          FromInside(p, sz, pos, n1, s, n2);
        }
      } else {
        FromOutside(p, sz, pos, n1, s, s.off, n2);
      }
    }

    /** The source does not start inside the replaced part; after the tail has moved it is found at from. */
    method FromOutside(p: array<byte>, sz: nat, pos: nat, n1: nat, s: Pointer, from: nat, n2: nat)
      requires p !in alloc.freed && Readable(s, n2)
      requires pos + n1 < sz && n1 < n2 && sz - n1 + n2 < p.Length
      requires s.buf == p ==> s.off + n2 <= sz
      requires if s.buf == p && pos < s.off then pos + n1 <= s.off && from == s.off + (n2 - n1) else from == s.off
      modifies p
      ensures p[..sz - n1 + n2] == Replaced(old(p[..]), sz, pos, n1, old(Chars(s, n2)))
      ensures SameFrom(old(p[..]), p[..], sz - n1 + n2)
    {
      hide Splice, Replaced, SameFrom;
      if s.buf == p {
        SourceAfterTailMove(p[..], sz, pos, n1, n2, s.off);
      }
      GrowInPlace(p[..], sz, pos, n1, Chars(s, n2));
      MoveUp(p, pos, n1, sz - pos - n1, s.buf, from, n2);
    }

    /** The source starts inside the replaced part: its first n1 characters go first, the rest last. */
    method FromInside(p: array<byte>, sz: nat, pos: nat, n1: nat, s: Pointer, n2: nat)
      requires p !in alloc.freed && s.buf == p && s.off + n2 <= sz && pos < s.off < pos + n1
      requires pos + n1 < sz && n1 < n2 && sz - n1 + n2 < p.Length
      modifies p
      ensures p[..sz - n1 + n2] == Replaced(old(p[..]), sz, pos, n1, old(Chars(s, n2)))
      ensures SameFrom(old(p[..]), p[..], sz - n1 + n2)
    {
      hide Splice, Replaced, SameFrom;
      ghost var b := p[..];
      GrowFromInside(b, sz, pos, n1, n2, s.off);
      Move(alloc, p, pos, s.buf, s.off, n1);
      ghost var b1 := p[..];
      assert b1 == Splice(b, pos, b[s.off..s.off + n1]);
      MoveUp(p, pos + n1, 0, sz - pos - n1, s.buf, s.off + n2, n2 - n1);
      ghost var b2 := Splice(b1, pos + n2, b1[pos + n1..sz]);
      assert p[..] == Splice(b2, pos + n1, b2[s.off + n2..s.off + n2 + (n2 - n1)]);
    }

    /** The tail moves up by count - drop; then count characters go where it was. */
    method MoveUp(p: array<byte>, at: nat, drop: nat, tail: nat, buf: array<byte>, from: nat, count: nat)
      requires p !in alloc.freed && buf !in alloc.freed
      requires at + count + tail <= p.Length && at + drop + tail <= p.Length && from + count <= buf.Length
      modifies p
      ensures var b := old(p[..]);
              var up := Splice(b, at + count, b[at + drop..at + drop + tail]);
              p[..] == Splice(up, at, (if buf == p then up else old(buf[..]))[from..from + count])
    {
      hide Splice;
      Move(alloc, p, at + count, p, at + drop, tail);
      Move(alloc, p, at, buf, from, count);
    }

    /** Inserts n characters at pos; they may be characters of this string. */
    method Insert(pos: nat, s: Pointer, n: nat) returns (r: Outcome<StringError>)
      requires Valid() && Source(s, n)
      modifies this`data, this`address, raw, data, alloc
      ensures Valid()
      ensures r == Fail(OutOfRange) <==> pos > old(Size())
      ensures forall e :: e != OutOfRange && pos <= old(Size()) ==>
                var size := old(Size()) + n;
                r == Fail(e)
                <==> size > old(Capacity())
                     && CannotGrow(old(Capacity()), size - old(Capacity()), alloc.limit, e)
      ensures r.Fail? ==> Contents() == old(Contents()) && data == old(data)
      ensures Exchanged(old(data), old(alloc.freed), old(alloc.live))
              && (data == old(data) || data == null || fresh(data))
      ensures r.Pass? ==> Contents() == old(Contents())[..pos] + old(Chars(s, n)) + old(Contents())[pos..]
      ensures r.Pass? ==> GrowsTo(old(Capacity()), Size(), Capacity())
      ensures r.Pass? && Size() <= old(Capacity()) ==> data == old(data)
    {
      hide Decode, Recommend, Replaced, Exchanged;
      NothingExchanged();
      var sz := Size();
      if pos > sz {
        return Fail(OutOfRange);
      }
      ReplacedInContent(Buffer()[..], sz, pos, 0, Chars(s, n));
      var cap := Capacity();
      if cap - sz < n {
        r := GrowByAndReplace(cap, sz + n - cap, sz, pos, 0, n, s);
        return;
      }
      if n == 0 {
        return Pass;
      }
      InsertInPlace(pos, s, n);
      r := Pass;
    }

    method InsertInPlace(pos: nat, s: Pointer, n: nat)
      requires Valid() && Source(s, n) && 0 < n
      requires pos <= Size() && Size() + n <= Capacity()
      modifies raw, Buffer()
      ensures Valid() && Long() == old(Long()) && Capacity() == old(Capacity())
      ensures Contents() == Replaced(old(Buffer()[..]), old(Size()), pos, 0, old(Chars(s, n)))
    {
      hide Splice, Replaced, Decode;
      var sz := Size();
      var p := Buffer();
      var tail := sz - pos;
      if tail != 0 {
        InsertBeforeTail(p, sz, pos, s, n);
      } else {
        NoTailMove(p[..], sz, pos, 0, Chars(s, n));
        Move(alloc, p, pos, s.buf, s.off, n);
      }
      assert Short() ==> raw[..][23] == old(raw[..])[23];
      NullTerminateAt(sz + n);
    }

    /** The tail moves up to make room; a source in it has moved along. */
    method InsertBeforeTail(p: array<byte>, sz: nat, pos: nat, s: Pointer, n: nat)
      requires p !in alloc.freed && Readable(s, n)
      requires pos < sz && 0 < n && sz + n < p.Length
      requires s.buf == p ==> s.off + n <= sz
      modifies p
      ensures p[..sz + n] == Replaced(old(p[..]), sz, pos, 0, old(Chars(s, n)))
      ensures SameFrom(old(p[..]), p[..], sz + n)
    {
      hide Splice, Replaced, SameFrom;
      var from := s.off;
      if s.buf == p {
        SourceAfterTailMove(p[..], sz, pos, 0, n, s.off);
      }
      if s.buf == p && pos <= s.off < sz {
        from := from + n;
      }
      assert p[pos..sz] == p[..][pos..sz];
      MoveInBeforeTail(p, sz, pos, s.buf, from, n, Chars(s, n));
    }

    /** Moves the tail up, and then in front of it the characters x, which are at from by then. */
    method MoveInBeforeTail(p: array<byte>, sz: nat, pos: nat, buf: array<byte>, from: nat, n: nat, ghost x: seq<byte>)
      requires p !in alloc.freed && buf !in alloc.freed
      requires pos < sz && sz + n < p.Length && from + n <= buf.Length && |x| == n
      requires (if buf == p then Splice(p[..], pos + n, p[..][pos..sz]) else buf[..])[from..from + n] == x
      modifies p
      ensures p[..sz + n] == Replaced(old(p[..]), sz, pos, 0, x)
      ensures SameFrom(old(p[..]), p[..], sz + n)
    {
      hide Splice, Replaced, SameFrom;
      GrowInPlace(p[..], sz, pos, 0, x);
      MoveUp(p, pos, 0, sz - pos, buf, from, n);
    }

    /** Appends n characters, which may be characters of this string. */
    method Append(s: Pointer, n: nat) returns (r: Outcome<StringError>)
      requires Valid() && Source(s, n)
      modifies this`data, this`address, raw, data, alloc
      ensures Valid()
      ensures forall e ::
                var size := old(Size()) + n;
                r == Fail(e)
                <==> size > old(Capacity())
                     && CannotGrow(old(Capacity()), size - old(Capacity()), alloc.limit, e)
      ensures r.Fail? ==> Contents() == old(Contents()) && data == old(data)
      ensures Exchanged(old(data), old(alloc.freed), old(alloc.live))
              && (data == old(data) || data == null || fresh(data))
      ensures r.Pass? ==> Contents() == old(Contents()) + old(Chars(s, n))
      ensures r.Pass? ==> GrowsTo(old(Capacity()), Size(), Capacity())
      ensures r.Pass? && Size() <= old(Capacity()) ==> data == old(data)
    {
      hide Decode, Recommend;
      var cap := Capacity();
      var sz := Size();
      if cap - sz < n {
        r := GrowByAndReplace(cap, sz + n - cap, sz, sz, 0, n, s);
        return;
      }
      if n == 0 {
        return Pass;
      }
      AppendInPlace(s, n);
      r := Pass;
    }

    /** The characters in use and the room after them do not overlap, so a plain copy is enough. */
    method AppendInPlace(s: Pointer, n: nat)
      requires Valid() && Source(s, n) && Size() + n <= Capacity()
      modifies raw, Buffer()
      ensures Valid() && Long() == old(Long()) && Capacity() == old(Capacity())
      ensures Contents() == old(Contents()) + old(Chars(s, n))
    {
      hide Splice, Decode;
      var sz := Size();
      var p := Buffer();
      SpliceAtEnd(p[..], sz, Chars(s, n));
      Copy(alloc, p, sz, s.buf, s.off, n);
      assert Short() ==> raw[..][23] == old(raw[..])[23];
      NullTerminateAt(sz + n);
    }

    /** Replaces the whole content by n characters, which may be characters of this string. */
    method Assign(s: Pointer, n: nat) returns (r: Outcome<StringError>)
      requires Valid() && Source(s, n)
      modifies this`data, this`address, raw, data, alloc
      ensures Valid()
      ensures forall e ::
                r == Fail(e)
                <==> n > old(Capacity())
                     && CannotGrow(old(Capacity()), n - old(Capacity()), alloc.limit, e)
      ensures r.Fail? ==> Contents() == old(Contents()) && data == old(data)
      ensures Exchanged(old(data), old(alloc.freed), old(alloc.live))
              && (data == old(data) || data == null || fresh(data))
      ensures r.Pass? ==> Contents() == old(Chars(s, n))
      ensures r.Pass? <==> CanHold(old(Capacity()), n, alloc.limit)
      ensures r.Pass? ==> GrowsTo(old(Capacity()), Size(), Capacity())
      ensures r.Pass? && Size() <= old(Capacity()) ==> data == old(data)
    {
      hide Decode, Recommend, CannotGrow, Replaced;
      var cap := Capacity();
      var sz := Size();
      if cap >= n {
        AssignInPlace(s, n);
        r := Pass;
      } else {
        CanHoldUnlessFails(cap, n - cap, alloc.limit);
        AllReplaced(Buffer()[..], sz, Chars(s, n));
        r := GrowByAndReplace(cap, n - cap, sz, 0, sz, n, s);
      }
    }

    method AssignInPlace(s: Pointer, n: nat)
      requires Valid() && Source(s, n) && n <= Capacity()
      modifies raw, Buffer()
      ensures Valid() && Long() == old(Long()) && Capacity() == old(Capacity())
      ensures Contents() == old(Chars(s, n))
    {
      hide Splice, Decode;
      var p := Buffer();
      SpliceAtEnd(p[..], 0, Chars(s, n));
      Move(alloc, p, 0, s.buf, s.off, n);
      assert Short() ==> raw[..][23] == old(raw[..])[23];
      NullTerminateAt(n);
    }

    /** Appends one character; a full string moves to a larger buffer and is long from then on. */
    method PushBack(c: byte) returns (r: Outcome<StringError>)
      requires Valid()
      modifies this`data, this`address, raw, data, alloc
      ensures Valid()
      ensures forall e ::
                r == Fail(e)
                <==> old(Size()) == old(Capacity())
                     && CannotGrow(old(Capacity()), 1, alloc.limit, e)
      ensures r.Fail? ==> Contents() == old(Contents()) && data == old(data)
      ensures Exchanged(old(data), old(alloc.freed), old(alloc.live))
              && (data == old(data) || data == null || fresh(data))
      ensures r.Pass? ==> Contents() == old(Contents()) + [c]
      ensures r.Pass? ==>
                Capacity() == if old(Size()) < old(Capacity()) then old(Capacity())
                    else Recommend(GrownCapacity(old(Capacity()), 1))
      ensures r.Pass? && old(Size()) == old(Capacity()) ==> Long()
      ensures r.Pass? ==> GrowsTo(old(Capacity()), Size(), Capacity())
      ensures r.Pass? && Size() <= old(Capacity()) ==> data == old(data)
    {
      var cap := Capacity();
      var sz := Size();
      ghost var before := Contents();
      if sz == cap {
        r := GrowByWithoutReplace(cap, 1, sz, sz, 0, 0);
        if r.Fail? {
          return;
        }
      }
      PutAtEnd(sz, c);
      assert Contents() == before + [c];
      r := Pass;
    }

    /** Hands a long buffer back and leaves the empty string, in the short form. */
    method ResetInternalBuffer()
      requires Valid()
      modifies this`data, this`address, raw, alloc
      ensures Valid() && !Long() && Contents() == [] && data == null
      ensures Exchanged(old(data), old(alloc.freed), old(alloc.live))
    {
      if Long() {
        alloc.Deallocate(LongPointer(), View().cap);
      }
      forall i | 0 <= i < MIN_CAP {
        raw[i] := if i == MIN_CAP - 1 then MIN_CAP - 1 else 0;
      }
      data := null;
    }

    /** Whether n characters can be appended one by one when there is room for cap of them. */
    static ghost predicate Reaches(cap: nat, n: nat, limit: nat)
      decreases if n > cap then n - cap else 0
    {
      n <= cap || (cap < MAX_SIZE &&
        var next := Recommend(GrownCapacity(cap, 1));
        cap < next < limit && Reaches(next, n, limit))
    }

    static lemma ReachesStep(cap: nat, n: nat, limit: nat, e: StringError)
      requires cap < n && MIN_CAP - 1 <= cap <= MAX_SIZE && limit <= MAX_SIZE + 1
      ensures CannotGrow(cap, 1, limit, e) ==> !Reaches(cap, n, limit)
      ensures (forall d :: !CannotGrow(cap, 1, limit, d)) ==>
                cap < MAX_SIZE && (Reaches(cap, n, limit) <==> Reaches(Recommend(GrownCapacity(cap, 1)), n, limit))
    {
      if cap < MAX_SIZE {
        RecommendSound(GrownCapacity(cap, 1));
        assert CannotGrow(cap, 1, limit, OutOfMemory) || Recommend(GrownCapacity(cap, 1)) < limit;
      } else {
        assert CannotGrow(cap, 1, limit, LengthError);
      }
    }

    /**
     * Fills a new string with characters that can be read only once. All buffers but the last are handed
     * back, and the last one, too, if memory runs out on the way.
     */
    method InitWithSentinel(chars: seq<byte>) returns (r: Outcome<StringError>)
      requires Valid() && !Long() && Contents() == []
      modifies this`data, this`address, raw, alloc
      ensures Valid() && Contents() == if r.Pass? then chars else []
      ensures r.Pass? <==> Reaches(MIN_CAP - 1, |chars|, alloc.limit)
      ensures r.Fail? ==> data == null
      ensures alloc.live == old(alloc.live) + Owned(data) && (data == null || fresh(data))
      ensures old(alloc.freed) <= alloc.freed && forall a :: a in alloc.freed ==> a in old(alloc.freed) || fresh(a)
    {
      hide Decode, Recommend, CannotGrow, Reaches;
      for i := 0 to |chars|
        invariant Valid() && Contents() == chars[..i]
        invariant Reaches(MIN_CAP - 1, |chars|, alloc.limit) <==> Reaches(Capacity(), |chars|, alloc.limit)
        invariant alloc.live == old(alloc.live) + Owned(data) && (data == null || fresh(data))
        invariant old(alloc.freed) <= alloc.freed && forall a :: a in alloc.freed ==> a in old(alloc.freed) || fresh(a)
      {
        var cap := Capacity();
        var pushed := PushBack(chars[i]);
        if cap == i {
          ReachesStep(cap, |chars|, alloc.limit, if pushed.Fail? then pushed.error else OutOfMemory);
        }
        if pushed.Fail? {
          ResetInternalBuffer();
          return pushed;
        }
      }
      ReachesAlready(Capacity(), |chars|, alloc.limit);
      r := Pass;
    }

    static lemma ReachesAlready(cap: nat, n: nat, limit: nat)
      requires n <= cap
      ensures Reaches(cap, n, limit)
    {
    }

    /** Whether a string with room for cap characters can be given n of them. */
    static ghost predicate CanHold(cap: nat, n: nat, limit: nat) {
      n <= cap || (n <= MAX_SIZE && Recommend(GrownCapacity(cap, n - cap)) < limit)
    }

    static lemma CanHoldUnlessFails(cap: nat, delta: nat, limit: nat)
      requires cap <= MAX_SIZE && delta > 0
      ensures CanHold(cap, cap + delta, limit) <==> forall e :: !CannotGrow(cap, delta, limit, e)
    {
      assert CannotGrow(cap, delta, limit, LengthError) || CannotGrow(cap, delta, limit, OutOfMemory)
             || CanHold(cap, cap + delta, limit);
    }

    /** Replaces the content by characters that can be read only once, by way of another string. */
    method AssignWithSentinel(chars: seq<byte>) returns (r: Outcome<StringError>)
      requires Valid()
      modifies this`data, this`address, raw, data, alloc
      ensures Valid() && Contents() == if r.Pass? then chars else old(Contents())
      ensures r.Pass? <==> Reaches(MIN_CAP - 1, |chars|, alloc.limit) && CanHold(old(Capacity()), |chars|, alloc.limit)
      ensures r.Fail? ==> data == old(data)
      ensures alloc.live == old(alloc.live) - Owned(old(data)) + Owned(data)
              && (data == old(data) || data == null || fresh(data))
      ensures old(alloc.freed) + (if data == old(data) then {} else Owned(old(data))) <= alloc.freed
      ensures forall a :: a in alloc.freed ==>
              a in old(alloc.freed) || fresh(a)
              || (a == old(data) && data != old(data))
    {
      hide Decode, Recommend, Reaches, CanHold;
      var temp := new BasicString(alloc);
      r := temp.InitWithSentinel(chars);
      if r.Pass? {
        r := AssignAndDestroy(temp);
      }
    }

    /** Assigns another string, and ends its life. */
    method AssignAndDestroy(temp: BasicString) returns (r: Outcome<StringError>)
      requires Valid() && temp.Valid() && temp.alloc == alloc && temp != this
      requires temp.raw != raw && temp.raw != data && (temp.data != null ==> temp.data != data && temp.data != raw)
      modifies this`data, this`address, raw, data, alloc, temp`data, temp`address, temp.raw
      ensures Valid() && Contents() == if r.Pass? then old(temp.Contents()) else old(Contents())
      ensures r.Pass? <==> CanHold(old(Capacity()), old(temp.Size()), alloc.limit)
      ensures r.Fail? ==> data == old(data)
      ensures data == old(data) || data == null || fresh(data)
      ensures alloc.live == old(alloc.live) - Owned(old(data)) + Owned(data) - Owned(old(temp.data))
      ensures alloc.freed == old(alloc.freed) + (if data == old(data) then {} else Owned(old(data)))
              + Owned(old(temp.data))
    {
      hide Decode, Recommend, CanHold, CannotGrow;
      r := Assign(Pointer(temp.Buffer(), 0), temp.Size());
      temp.ResetInternalBuffer();
    }

    /** Writes a character after the first n, and ends the string there. */
    method PutAtEnd(n: nat, c: byte)
      requires Storage() && n < Capacity()
      modifies raw, Buffer()
      ensures Valid() && Long() == old(Long()) && Capacity() == old(Capacity())
      ensures Contents() == old(Buffer()[..n]) + [c]
    {
      ghost var before := Buffer()[..n];
      SetSize(n + 1);
      var p := Buffer();
      p[n] := c;
      p[n + 1] := 0;
      assert p[..n] == before;
    }

    /** Removes up to n characters from pos on. */
    method Erase(pos: nat, n: nat) returns (r: Outcome<StringError>)
      requires Valid()
      modifies raw, data
      ensures Valid() && Capacity() == old(Capacity())
      ensures r == (if pos > old(Size()) then Fail(OutOfRange) else Pass)
      ensures r.Fail? ==> Contents() == old(Contents())
      ensures r.Pass? ==>
                Contents() == old(Contents())[..pos] + old(Contents())[pos + Min(n, old(Size()) - pos)..]
    {
      var sz := Size();
      if pos > sz {
        return Fail(OutOfRange);
      }
      if n == NPOS {
        NullTerminateAt(pos);
      } else if n != 0 {
        EraseWithMove(pos, Min(n, sz - pos));
      }
      r := Pass;
    }

    method EraseWithMove(pos: nat, n: nat)
      requires Valid() && pos + n <= Size()
      modifies raw, Buffer()
      ensures Valid() && Capacity() == old(Capacity())
      ensures Contents() == old(Contents())[..pos] + old(Contents())[pos + n..]
    {
      hide Splice, Decode;
      var sz := Size();
      var p := Buffer();
      TailMovesDown(p[..], sz, pos, n);
      var tail := sz - pos - n;
      if tail != 0 {
        Move(alloc, p, pos, p, pos + n, tail);
      }
      assert Short() ==> raw[..][23] == old(raw[..])[23];
      NullTerminateAt(sz - n);
    }

    /** Replaces n1 characters from pos on by n2 copies of one character. */
    method ReplaceFill(pos: nat, n1: nat, n2: nat, c: byte) returns (r: Outcome<StringError>)
      requires Valid()
      modifies this`data, this`address, raw, data, alloc
      ensures Valid()
      ensures r == Fail(OutOfRange) <==> pos > old(Size())
      ensures forall e :: e != OutOfRange && pos <= old(Size()) ==>
                var size := old(Size()) - Min(n1, old(Size()) - pos) + n2;
                r == Fail(e)
                <==> size > old(Capacity())
                     && CannotGrow(old(Capacity()), size - old(Capacity()), alloc.limit, e)
      ensures r.Fail? ==> Contents() == old(Contents()) && data == old(data)
      ensures Exchanged(old(data), old(alloc.freed), old(alloc.live))
              && (data == old(data) || data == null || fresh(data))
      ensures r.Pass? ==>
                Contents() == old(Contents())[..pos] + Repeat(c, n2)
                    + old(Contents())[pos + Min(n1, old(Size()) - pos)..]
      ensures r.Pass? ==> GrowsTo(old(Capacity()), Size(), Capacity())
      ensures r.Pass? && Size() <= old(Capacity()) ==> data == old(data)
    {
      hide Decode, Recommend, Exchanged, CannotGrow;
      var sz := Size();
      if pos > sz {
        NothingExchanged();
        return Fail(OutOfRange);
      }
      r := GapAndFill(pos, Min(n1, sz - pos), n2, c);
    }

    method GapAndFill(pos: nat, n1: nat, n2: nat, c: byte) returns (r: Outcome<StringError>)
      requires Valid() && pos + n1 <= Size()
      modifies this`data, this`address, raw, data, alloc
      ensures Valid() && r != Fail(OutOfRange)
      ensures forall e :: e != OutOfRange ==>
                var size := old(Size()) - n1 + n2;
                r == Fail(e)
                <==> size > old(Capacity())
                     && CannotGrow(old(Capacity()), size - old(Capacity()), alloc.limit, e)
      ensures r.Fail? ==> Contents() == old(Contents()) && data == old(data)
      ensures Exchanged(old(data), old(alloc.freed), old(alloc.live))
              && (data == old(data) || data == null || fresh(data))
      ensures r.Pass? ==> Contents() == old(Contents())[..pos] + Repeat(c, n2) + old(Contents())[pos + n1..]
      ensures r.Pass? ==> GrowsTo(old(Capacity()), Size(), Capacity())
      ensures r.Pass? && Size() <= old(Capacity()) ==> data == old(data)
    {
      hide Decode, Recommend, Exchanged, CannotGrow, Repeat;
      var sz := Size();
      ghost var front, back := Contents()[..pos], Contents()[pos + n1..];
      r := MakeGap(pos, n1, n2);
      if r.Pass? {
        assert Buffer()[..pos] == front && Buffer()[pos + n2..sz - n1 + n2] == back;
        FillGap(pos, n2, c, sz - n1 + n2);
        assert Contents() == front + Repeat(c, n2) + back;
      }
    }

    /** Makes the gap in place if it fits, and in a larger buffer otherwise. */
    method MakeGap(pos: nat, n1: nat, n2: nat) returns (r: Outcome<StringError>)
      requires Valid() && pos + n1 <= Size()
      modifies this`data, this`address, raw, data, alloc
      ensures Storage() && r != Fail(OutOfRange)
      ensures forall e :: e != OutOfRange ==>
                var size := old(Size()) - n1 + n2;
                r == Fail(e)
                <==> size > old(Capacity())
                     && CannotGrow(old(Capacity()), size - old(Capacity()), alloc.limit, e)
      ensures r.Fail? ==>
                Valid() && Contents() == old(Contents()) && data == old(data)
      ensures Exchanged(old(data), old(alloc.freed), old(alloc.live))
              && (data == old(data) || data == null || fresh(data))
      ensures r.Pass? ==> old(Size()) - n1 + n2 <= Capacity() && Buffer()[..pos] == old(Contents())[..pos]
      ensures r.Pass? ==> Buffer()[pos + n2..old(Size()) - n1 + n2] == old(Contents())[pos + n1..]
      ensures r.Pass? ==> GrowsTo(old(Capacity()), old(Size()) - n1 + n2, Capacity())
      ensures r.Pass? && old(Size()) - n1 + n2 <= old(Capacity()) ==> data == old(data)
    {
      hide Decode, Recommend;
      var sz := Size();
      var cap := Capacity();
      if cap - sz + n1 >= n2 {
        OpenGap(pos, n1, n2);
        r := Pass;
      } else {
        r := GrowByWithoutReplace(cap, sz - n1 + n2 - cap, sz, pos, n1, n2);
      }
    }

    /** Moves the tail in place so that n2 characters can take the place of n1. */
    method OpenGap(pos: nat, n1: nat, n2: nat)
      requires Valid() && pos + n1 <= Size() && Size() - n1 + n2 <= Capacity()
      modifies raw, Buffer()
      ensures Storage() && Long() == old(Long()) && Capacity() == old(Capacity())
      ensures Buffer()[..pos] == old(Contents())[..pos]
      ensures Buffer()[pos + n2..old(Size()) - n1 + n2] == old(Contents())[pos + n1..]
    {
      hide Decode, Splice;
      var sz := Size();
      var tail := sz - pos - n1;
      PartsOfPrefix(Buffer()[..], sz, pos, pos + n1);
      if n1 != n2 && tail != 0 {
        var p := Buffer();
        TailMoves(p[..], sz, pos, n1, n2);
        Move(alloc, p, pos + n2, p, pos + n1, tail);
        assert Short() ==> raw[..][23] == old(raw[..])[23];
      }
    }

    /** Fills the gap and ends the string. */
    method FillGap(pos: nat, n: nat, c: byte, size: nat)
      requires Storage() && pos + n <= size <= Capacity()
      modifies raw, Buffer()
      ensures Valid() && Long() == old(Long()) && Capacity() == old(Capacity())
      ensures Contents() == old(Buffer()[..pos]) + Repeat(c, n) + old(Buffer()[pos + n..size])
    {
      hide Decode, Splice;
      var p := Buffer();
      ghost var b := p[..];
      Fill(alloc, p, pos, n, c);
      FilledGap(b, pos, Repeat(c, n), size);
      assert Short() ==> raw[..][23] == old(raw[..])[23];
      NullTerminateAt(size);
    }

    /** Copies the characters with their terminator to another buffer, and makes that the one in use. */
    method MoveToBuffer(buffer: array<byte>, size: nat)
      requires Valid() && size == Size()
      requires buffer !in alloc.freed && buffer in alloc.live && buffer != raw && buffer != data
      requires MIN_CAP < buffer.Length <= MAX_SIZE + 1 && size < buffer.Length
      modifies this`data, this`address, raw, alloc, buffer
      ensures Valid() && Long() && Contents() == old(Contents()) && data == buffer && Capacity() == buffer.Length - 1
      ensures Exchanged(old(data), old(alloc.freed), old(alloc.live) - {buffer})
    {
      hide Decode;
      CopyIfAny(buffer, 0, Buffer(), 0, size + 1);
      assert buffer[..size] == buffer[..size + 1][..size];
      assert buffer[size] == buffer[..size + 1][size];
      ReplaceInternalBuffer(buffer, size);
    }

    /** Makes room for the requested number of characters; never shrinks. */
    method Reserve(requested: nat) returns (r: Outcome<StringError>)
      requires Valid()
      modifies this`data, this`address, raw, alloc
      ensures Valid() && Contents() == old(Contents()) && Capacity() >= old(Capacity())
      ensures r.Pass? ==>
                && Capacity() >= requested
                && Capacity() == if requested <= old(Capacity()) then old(Capacity()) else Recommend(requested)
      ensures r == Fail(LengthError) <==> requested > MAX_SIZE
      ensures r == Fail(OutOfMemory) <==>
                requested <= MAX_SIZE && requested > old(Capacity()) && Recommend(requested) + 1 > alloc.limit
      ensures r != Fail(OutOfRange)
      ensures requested <= old(Capacity()) || r.Fail? ==> data == old(data)
      ensures requested > old(Capacity()) && r.Pass? ==> Long() && fresh(data)
      ensures Exchanged(old(data), old(alloc.freed), old(alloc.live))
    {
      if requested > MAX_SIZE {
        return Fail(LengthError);
      }
      if requested <= Capacity() {
        return Pass;
      }
      var buffer := AllocateLongBuffer(requested);
      if buffer == null {
        return Fail(OutOfMemory);
      }
      MoveToBuffer(buffer, Size());
      r := Pass;
    }

    /** Gives back what is not needed: into the short form if it fits, else into a smaller buffer. */
    method ShrinkToFit()
      requires Valid()
      modifies this`data, this`address, raw, alloc
      ensures Valid() && Contents() == old(Contents()) && Capacity() <= old(Capacity())
      ensures Size() < MIN_CAP ==> !Long()
      ensures old(Long()) && Recommend(Size()) < old(Capacity()) && Recommend(Size()) < alloc.limit ==>
                Capacity() == Recommend(Size()) && data != old(data)
      ensures alloc.live == old(alloc.live) - Owned(old(data)) + Owned(data)
              && (data == old(data) || data == null || fresh(data))
      ensures forall a :: a in alloc.freed ==>
              a in old(alloc.freed) || fresh(a)
              || (a == old(data) && data != old(data))
      ensures old(alloc.freed) + (if data == old(data) then {} else Owned(old(data))) <= alloc.freed
    {
      var target := Recommend(Size());
      if target == Capacity() {
        return;
      }
      if target < MIN_CAP {
        BecomeShort();
        return;
      }
      var size := Size();
      var buffer := AllocateLongBuffer(size);
      if buffer == null {
        return;
      }
      if buffer.Length - 1 >= Capacity() {
        alloc.Deallocate(buffer, buffer.Length);
        return;
      }
      MoveToBuffer(buffer, size);
    }

    /** Moves the characters of a long string back into the representation itself. */
    method BecomeShort()
      requires Valid() && Long() && Size() < MIN_CAP
      modifies this`data, this`address, raw, alloc
      ensures Valid() && !Long() && Contents() == old(Contents())
      ensures Exchanged(old(data), old(alloc.freed), old(alloc.live)) && data == null
    {
      var buffer := LongPointer();
      var size, cap := Size(), View().cap;
      SetShortSize(size);
      Copy(alloc, raw, 0, buffer, 0, size + 1);
      assert raw[..size] == buffer[..size];
      alloc.Deallocate(buffer, cap);
      data := null;
    }

    /** Writes the spare size, which makes the form short. */
    method SetShortSize(n: nat)
      requires raw.Length == MIN_CAP && n < MIN_CAP
      modifies raw
      ensures raw[..] == old(raw[..])[23 := MIN_CAP - 1 - n]
    {
      raw[23] := MIN_CAP - 1 - n;
    }
  }
}