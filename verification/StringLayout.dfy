/**
 * The 24-byte representation of a string of char on a little-endian platform. Short form: 23
 * characters, then a byte with the spare size in its low seven bits. Long form: a pointer, a size
 * and a 63-bit capacity. The top bit of the last byte tells the forms apart.
 */
module StringLayout {
  type byte = x: int | 0 <= x < 256

  const MIN_CAP: nat := 24
  const TWO_63: nat := 0x8000_0000_0000_0000
  const TWO_64: nat := 0x1_0000_0000_0000_0000

  /** The number a little-endian word denotes. */
  function Word(b: seq<byte>): (n: nat) {
    if b == [] then 0 else b[0] + 256 * Word(b[1..])
  }

  function Power256(k: nat): (p: nat)
    ensures p > 0
  {
    if k == 0 then 1 else 256 * Power256(k - 1)
  }

  /** The k bytes of a number, little end first. */
  function Bytes(n: nat, k: nat): (b: seq<byte>)
    ensures |b| == k
  {
    if k == 0 then [] else [n % 256] + Bytes(n / 256, k - 1)
  }

  lemma {:induction false} WordOfBytes(n: nat, k: nat)
    requires n < Power256(k)
    ensures Word(Bytes(n, k)) == n
  {
    if k > 0 {
      WordOfBytes(n / 256, k - 1);
      assert Bytes(n, k)[1..] == Bytes(n / 256, k - 1);
    }
  }

  lemma {:induction false} WordBound(b: seq<byte>)
    ensures Word(b) < Power256(|b|)
  {
    if b != [] {
      WordBound(b[1..]);
    }
  }

  lemma Distribute(p: nat, x: nat, y: nat)
    ensures 256 * (x + p * y) == 256 * x + (256 * p) * y
  {
  }

  lemma {:induction false} WordSplit(b: seq<byte>, k: nat)
    requires k <= |b|
    ensures Word(b) == Word(b[..k]) + Power256(k) * Word(b[k..])
  {
    if k > 0 {
      WordSplit(b[1..], k - 1);
      assert b[1..][..k - 1] == b[..k][1..];
      assert b[1..][k - 1..] == b[k..];
      Distribute(Power256(k - 1), Word(b[..k][1..]), Word(b[k..]));
    } else {
      assert b[0..] == b;
    }
  }

  lemma Powers()
    ensures Power256(7) == 0x100_0000_0000_0000 && Power256(8) == TWO_64
  {
    assert Power256(1) == 256;
    assert Power256(3) == 0x100_0000;
    assert Power256(5) == 0x100_0000_0000;
  }

  /** The top bit of a 64-bit word is the top bit of its last byte. */
  lemma TopBit(b: seq<byte>)
    requires |b| == 8
    ensures Word(b) < TWO_64
    ensures b[7] >= 128 <==> Word(b) >= TWO_63
  {
    Powers();
    WordBound(b);
    WordBound(b[..7]);
    WordSplit(b, 7);
    assert b[7..] == [b[7]];
    assert Word(b[7..]) == b[7] + 256 * Word(b[7..][1..]);
  }

  /** What the 24 bytes say, apart from the characters and the address they hold. */
  datatype Rep = Short(size: int) | Long(size: int, cap: int)

  predicate IsLong(raw: seq<byte>)
    requires |raw| == MIN_CAP
  {
    raw[23] >= 128
  }

  function Decode(raw: seq<byte>): (r: Rep)
    requires |raw| == MIN_CAP
  {
    if IsLong(raw) then
      TopBit(raw[16..24]);
      Long(Word(raw[8..16]), Word(raw[16..24]) - TWO_63)
    else
      Short(MIN_CAP - 1 - raw[23])
  }

  function EncodeLong(address: seq<byte>, size: nat, cap: nat): (raw: seq<byte>)
    requires |address| == 8
    ensures |raw| == MIN_CAP
  {
    address + Bytes(size, 8) + Bytes(cap + TWO_63, 8)
  }

  lemma LongBegins(address: seq<byte>, size: nat, cap: nat)
    requires |address| == 8
    ensures |EncodeLong(address, size, cap)| == MIN_CAP && EncodeLong(address, size, cap)[..8] == address
  {
  }

  /** The long form is recovered field by field, whatever the address. */
  lemma DecodeLong(address: seq<byte>, size: nat, cap: nat)
    requires |address| == 8 && size < TWO_64 && cap < TWO_63
    ensures Decode(EncodeLong(address, size, cap)) == Long(size, cap)
  {
    var raw := EncodeLong(address, size, cap);
    Powers();
    assert raw[8..16] == Bytes(size, 8);
    assert raw[16..24] == Bytes(cap + TWO_63, 8);
    WordOfBytes(size, 8);
    WordOfBytes(cap + TWO_63, 8);
    TopBit(raw[16..24]);
    assert raw[16..24][7] == raw[23];
  }

  /** Overwriting the size word of a long form changes the size and nothing else. */
  lemma DecodeLongSize(raw: seq<byte>, size: nat)
    requires |raw| == MIN_CAP && IsLong(raw) && size < TWO_64
    ensures var t := raw[..8] + Bytes(size, 8) + raw[16..];
            |t| == MIN_CAP && Decode(t) == Decode(raw).(size := size)
  {
    var t := raw[..8] + Bytes(size, 8) + raw[16..];
    Powers();
    WordOfBytes(size, 8);
    assert t[8..16] == Bytes(size, 8);
    assert t[16..24] == raw[16..24];
    assert t[23] == raw[23];
  }

  /** Writing the spare size makes the form short; at 23 characters the byte is a zero terminator. */
  lemma DecodeShort(raw: seq<byte>, size: nat)
    requires |raw| == MIN_CAP && size < MIN_CAP
    ensures var t := raw[23 := MIN_CAP - 1 - size];
            Decode(t) == Short(size) && (size == MIN_CAP - 1 ==> t[size] == 0)
  {
  }

  /** The capacity to ask for so that s characters fit: 23, or one less than a multiple of eight. */
  function Recommend(s: nat): (r: nat) {
    if s < MIN_CAP then MIN_CAP - 1
    else
      var guess := (s + 1 + 7) / 8 * 8 - 1;
      if guess == MIN_CAP then guess + 1 else guess
  }

  lemma RecommendSound(s: nat)
    ensures Recommend(s) >= s && Recommend(s) >= MIN_CAP - 1
    ensures Recommend(s) <= s + 7 || s < MIN_CAP
    ensures Recommend(Recommend(s)) == Recommend(s)
    ensures if s < MIN_CAP then Recommend(s) == MIN_CAP - 1 else Recommend(s) >= 31
    ensures (Recommend(s) + 1) % 8 == 0
    ensures forall t :: s <= t ==> Recommend(s) <= Recommend(t)
  {
  }
}
