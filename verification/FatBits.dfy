/** The allocation table as a string of bits: byte by byte, the lowest bit of each byte first.  An entry is a stretch of
    12, 16 or 32 bits of it, of which 12, 16 or 28 make up its value. */
module FatBits {
  import opened Arithmetic
  import opened FatTable

  function Pow2(k: nat): (p: nat)
    ensures p > 0
  {
    if k == 0 then 1 else 2 * Pow2(k - 1)
  }

  /** Bit k of a number. */
  function Bit(v: nat, k: nat): (b: nat)
    ensures b < 2
  {
    v / Pow2(k) % 2
  }

  /** Bit n of a string of bytes. */
  function BitAt(t: seq<Byte>, n: nat): nat
    requires n < 8 * |t|
  {
    Bit(t[n / 8], n % 8)
  }

  /** Bits from one entry to the next. */
  function Stride(kind: FatKind): nat {
    match kind
    case Fat12 => 12
    case Fat16 => 16
    case Fat32 => 32
  }

  /** Bits of the value of an entry. */
  function Size(kind: FatKind): nat {
    match kind
    case Fat12 => 12
    case Fat16 => 16
    case Fat32 => 28
  }

  // ---- bits of numbers ---------------------------------------------------------------------

  lemma HalvedTwice(v: nat, p: nat)
    requires p > 0
    ensures v / (2 * p) == v / 2 / p
  {
    var h := v / 2;
    assert h == h / p * p + h % p;
    DivMod(v, 2 * p, h / p, 2 * (h % p) + v % 2);
  }

  lemma NextBit(v: nat, k: nat)
    ensures Bit(v, 0) == v % 2
    ensures k > 0 ==> Bit(v, k) == Bit(v / 2, k - 1)
  {
    if k > 0 {
      HalvedTwice(v, Pow2(k - 1));
    }
  }

  lemma PowNext(m: nat, hi: nat)
    requires m > 0
    ensures Pow2(m) == 2 * Pow2(m - 1) && Pow2(m) * hi == 2 * (Pow2(m - 1) * hi)
  {
    var p := Pow2(m - 1);
    assert 2 * p * hi == 2 * (p * hi);
  }

  /** A number put together from m low bits and the rest. */
  lemma {:induction false} JoinedBits(lo: nat, hi: nat, m: nat, k: nat)
    requires lo < Pow2(m)
    ensures Bit(lo + Pow2(m) * hi, k) == if k < m then Bit(lo, k) else Bit(hi, k - m)
  {
    if m > 0 {
      hide Bit, Pow2;
      PowNext(m, hi);
      var x := Pow2(m - 1) * hi;
      HalfOfSum(lo, x);
      NextBit(lo + 2 * x, k);
      NextBit(lo, k);
      if k > 0 {
        JoinedBits(lo / 2, hi, m - 1, k - 1);
      }
    }
  }

  lemma HalfOfSum(lo: nat, x: nat)
    ensures (lo + 2 * x) / 2 == lo / 2 + x && (lo + 2 * x) % 2 == lo % 2
  {}

  lemma Parts(v: nat, p: nat)
    requires p > 0
    ensures v % p + p * (v / p) == v && 0 <= v % p < p && 0 <= v / p
  {}

  /** A number split: hi is what is left without the m low bits. */
  lemma SplitBits(v: nat, m: nat, lo: nat, hi: nat, k: nat)
    requires lo < Pow2(m) && v == lo + Pow2(m) * hi
    ensures Bit(lo, k) == if k < m then Bit(v, k) else 0
    ensures Bit(hi, k) == Bit(v, m + k)
  {
    hide Bit, Pow2;
    JoinedBits(lo, hi, m, k);
    JoinedBits(lo, hi, m, m + k);
    if k >= m {
      JoinedBits(lo, 0, m, k);
      NoBits(k - m);
    }
  }

  lemma NoBits(k: nat)
    ensures Bit(0, k) == 0
  {}

  lemma Powers()
    ensures Pow2(4) == 16 && Pow2(8) == 256 && Pow2(12) == 0x1000 && Pow2(16) == 0x1_0000 && Pow2(28) == 0x1000_0000
  {
    Doubled(0);
    Doubled(4);
    Doubled(8);
    Doubled(12);
    Doubled(16);
    Doubled(20);
    Doubled(24);
  }

  lemma Doubled(k: nat)
    ensures Pow2(k + 4) == 16 * Pow2(k)
  {
    assert Pow2(k + 4) == 2 * Pow2(k + 3);
    assert Pow2(k + 3) == 2 * Pow2(k + 2);
    assert Pow2(k + 2) == 2 * Pow2(k + 1);
  }

  /** A number below 2^m is its m bits. */
  lemma {:induction false} BitsDetermine(v: nat, w: nat, m: nat)
    requires v < Pow2(m) && w < Pow2(m) && forall k :: 0 <= k < m ==> Bit(v, k) == Bit(w, k)
    ensures v == w
  {
    hide Bit;
    if m > 0 {
      NextBit(v, 0);
      NextBit(w, 0);
      assert Bit(v, 0) == Bit(w, 0);
      forall k | 0 <= k < m - 1
        ensures Bit(v / 2, k) == Bit(w / 2, k)
      {
        NextBit(v, k + 1);
        NextBit(w, k + 1);
        assert Bit(v, k + 1) == Bit(w, k + 1);
      }
      BitsDetermine(v / 2, w / 2, m - 1);
    }
  }

  // ---- bits of stored words ----------------------------------------------------------------

  lemma WordBits(t: seq<Byte>, i: nat, k: nat)
    requires i + 2 <= |t| && k < 16
    ensures Bit(LdWord(t, i), k) == BitAt(t, 8 * i + k)
  {
    hide Bit, Pow2;
    Powers();
    JoinedBits(t[i], t[i + 1], 8, k);
  }

  lemma DwordBits(t: seq<Byte>, i: nat, k: nat)
    requires i + 4 <= |t| && k < 32
    ensures Bit(LdDword(t, i), k) == BitAt(t, 8 * i + k)
  {
    hide Bit, Pow2;
    Powers();
    var high: nat := t[i + 2] as int + 256 * (t[i + 3] as int);
    var mid: nat := t[i + 1] as int + 256 * high;
    assert LdDword(t, i) == t[i] as int + 256 * mid;
    JoinedBits(t[i], mid, 8, k);
    if k >= 8 {
      JoinedBits(t[i + 1], high, 8, k - 8);
      if k >= 16 {
        JoinedBits(t[i + 2], t[i + 3], 8, k - 16);
      }
    }
  }

  // ---- bits of entries ---------------------------------------------------------------------

  lemma EntryFits(kind: FatKind)
    ensures Pow2(Size(kind)) == Range(kind)
  {
    Powers();
  }

  /** Entry c is the c-th stretch of the bits of the table. */
  lemma EntryBits(kind: FatKind, t: seq<Byte>, c: nat, k: nat)
    requires Inside(kind, t, c) && k < Size(kind)
    ensures Stride(kind) * c + k < 8 * |t|
    ensures Bit(Entry(kind, t, c), k) == BitAt(t, Stride(kind) * c + k)
  {
    hide Bit, Pow2, LdWord, LdDword, BitAt;
    Powers();
    var o := Offset(kind, c);
    match kind {
      case Fat12 =>
        HalfOffset(c);
        if c % 2 == 1 {
          SplitBits(LdWord(t, o), 4, LdWord(t, o) % 16, LdWord(t, o) / 16, k);
          WordBits(t, o, 4 + k);
        } else {
          SplitBits(LdWord(t, o), 12, LdWord(t, o) % 0x1000, LdWord(t, o) / 0x1000, k);
          WordBits(t, o, k);
        }
      case Fat16 =>
        WordBits(t, o, k);
      case Fat32 =>
        SplitBits(LdDword(t, o), 28, LdDword(t, o) % 0x1000_0000, LdDword(t, o) / 0x1000_0000, k);
        DwordBits(t, o, k);
    }
  }

  /** An odd entry of 12 bits starts in the middle of a byte. */
  lemma HalfOffset(c: nat)
    ensures 12 * c == 8 * Offset(Fat12, c) + if c % 2 == 1 then 4 else 0
  {}

  // ---- bits of a store ---------------------------------------------------------------------

  /** What a store makes of bit n: the bits of the value replace those of the entry, and the four bits above a value of 28
      bits are or-ed in; all other bits stay. */
  function StoredBit(kind: FatKind, was: nat, c: nat, val: Dword, n: nat): nat {
    var first := Stride(kind) * c;
    if first <= n < first + Size(kind) then Bit(val, n - first)
    else if first <= n < first + Stride(kind) && was == 0 then Bit(val, n - first)
    else was
  }

  /** The places of the bytes of a double word. */
  function Place(j: nat): nat
    requires j < 4
  {
    if j == 0 then 1 else if j == 1 then 256 else if j == 2 then 0x1_0000 else 0x100_0000
  }

  lemma PlaceIs(j: nat)
    requires j < 4
    ensures Pow2(8 * j) == Place(j)
  {
    Powers();
    Doubled(16);
    Doubled(20);
  }

  lemma ByteOf(v: Dword, j: nat, k: nat)
    requires j < 4 && k < 8
    ensures Bit(v / Place(j) % 256, k) == Bit(v, 8 * j + k)
  {
    hide Bit, Pow2;
    Powers();
    PlaceIs(j);
    var w := v / Place(j);
    SplitBits(w, 8, w % 256, w / 256, k);
    SplitBits(v, 8 * j, v % Place(j), w, k);
  }

  lemma {:induction false} OrBits(a: nat, b: nat, k: nat)
    ensures Bit(Or(a, b), k) == if Bit(b, k) == 0 then Bit(a, k) else Bit(b, k)
  {
    hide Bit, Pow2;
    NoBits(k);
    if a != 0 && b != 0 {
      var h := Or(a / 2, b / 2);
      HalfOfSum(if a % 2 == 1 || b % 2 == 1 then 1 else 0, h);
      NextBit(Or(a, b), k);
      NextBit(a, k);
      NextBit(b, k);
      if k > 0 {
        OrBits(a / 2, b / 2, k - 1);
      }
    }
  }

  /** The bits that a FAT32 store writes. */
  lemma MergedBits(stored: Dword, val: Dword, k: nat)
    requires k < 32
    ensures Bit(Merged32(stored, val), k) == if k >= 28 && Bit(stored, k) != 0 then Bit(stored, k) else Bit(val, k)
  {
    hide Bit, Pow2, Or;
    Powers();
    var lo, hi := val % 0x1000_0000, OrNibble(val / 0x1000_0000, stored / 0x1000_0000);
    JoinedBits(lo, hi, 28, k);
    SplitBits(val, 28, val % 0x1000_0000, val / 0x1000_0000, k);
    if k >= 28 {
      OrBits(val / 0x1000_0000, stored / 0x1000_0000, k - 28);
      SplitBits(val, 28, val % 0x1000_0000, val / 0x1000_0000, k - 28);
      SplitBits(stored, 28, stored % 0x1000_0000, stored / 0x1000_0000, k - 28);
    }
  }

  /** The bits of the two bytes that a FAT12 store writes. */
  lemma Bits12(c: nat, p: Byte, q: Byte, val: Dword, k: nat)
    requires k < 8
    ensures Bit(First12(c, p, val), k) ==
            if c % 2 == 0 then Bit(val, k) else if k < 4 then Bit(p, k) else Bit(val, k - 4)
    ensures Bit(Second12(c, q, val), k) ==
            if c % 2 == 1 then Bit(val, k + 4) else if k < 4 then Bit(val, k + 8) else Bit(q, k)
  {
    hide Bit, Pow2;
    Powers();
    if c % 2 == 1 {
      SplitBits(p, 4, p % 16, p / 16, k);
      JoinedBits(p % 16, val % 16, 4, k);
      if k >= 4 {
        SplitBits(val, 4, val % 16, val / 16, k - 4);
      }
      SplitBits(val / 16, 8, val / 16 % 256, val / 16 / 256, k);
      SplitBits(val, 4, val % 16, val / 16, k);
    } else {
      SplitBits(val, 8, val % 256, val / 256, k);
      SplitBits(val / 256, 4, val / 256 % 16, val / 256 / 16, k);
      JoinedBits(val / 256 % 16, q / 16, 4, k);
      if k >= 4 {
        SplitBits(q, 4, q % 16, q / 16, k - 4);
      }
    }
  }

  lemma Put12Bits(t: seq<Byte>, c: nat, val: Dword, n: nat)
    requires Inside(Fat12, t, c) && n < 8 * |t|
    ensures BitAt(Put(Fat12, t, c, val), n) == StoredBit(Fat12, BitAt(t, n), c, val, n)
  {
    hide Bit, Pow2, First12, Second12;
    var o := Offset(Fat12, c);
    HalfOffset(c);
    Bits12(c, t[o], t[o + 1], val, n % 8);
  }

  lemma Put16Bits(t: seq<Byte>, c: nat, val: Dword, n: nat)
    requires Inside(Fat16, t, c) && n < 8 * |t|
    ensures BitAt(Put(Fat16, t, c, val), n) == StoredBit(Fat16, BitAt(t, n), c, val, n)
  {
    hide Bit, Pow2;
    ByteOf(val, 0, n % 8);
    ByteOf(val, 1, n % 8);
  }

  lemma Put32Bits(t: seq<Byte>, c: nat, val: Dword, n: nat)
    requires Inside(Fat32, t, c) && n < 8 * |t|
    ensures BitAt(Put(Fat32, t, c, val), n) == StoredBit(Fat32, BitAt(t, n), c, val, n)
  {
    hide Bit, Pow2, LdDword, Merged32;
    var o := Offset(Fat32, c);
    var v := Merged32(LdDword(t, o), val);
    if 32 * c <= n < 32 * c + 32 {
      var k := n - 32 * c;
      ByteOf(v, k / 8, k % 8);
      MergedBits(LdDword(t, o), val, k);
      DwordBits(t, o, k);
    }
  }

  /** Every bit of the table after a store. */
  lemma PutBits(kind: FatKind, t: seq<Byte>, c: nat, val: Dword, n: nat)
    requires Inside(kind, t, c) && n < 8 * |t|
    ensures BitAt(Put(kind, t, c, val), n) == StoredBit(kind, BitAt(t, n), c, val, n)
  {
    hide BitAt, StoredBit, Put;
    match kind
    case Fat12 => Put12Bits(t, c, val, n);
    case Fat16 => Put16Bits(t, c, val, n);
    case Fat32 => Put32Bits(t, c, val, n);
  }
}
