/** The packed allocation table of a FAT volume, as a string of bytes.

    FatFs addresses the FAT structures as byte arrays and never as C structures; an entry
    is 12, 16 or 32 bits wide, and two FAT12 entries share a byte.  Bit operations of the
    source on unsigned values are written here as division and remainder by powers of two.
 */
module FatTable {
  import opened Arithmetic

  datatype FatKind = Fat12 | Fat16 | Fat32

  /** The value read from an entry holding the mark 0x0FFFFFFF. */
  const EOC_MARK: Dword := 0x0FFF_FFFF

  /** Little-endian loads (LD_WORD, LD_DWORD). */
  function LdWord(t: seq<Byte>, i: nat): (r: Word)
    requires i + 2 <= |t|
  {
    t[i] as int + 256 * (t[i + 1] as int)
  }

  function LdDword(t: seq<Byte>, i: nat): (r: Dword)
    requires i + 4 <= |t|
  {
    t[i] as int + 256 * (t[i + 1] as int) + 0x1_0000 * (t[i + 2] as int) + 0x100_0000 * (t[i + 3] as int)
  }

  function Offset(kind: FatKind, c: nat): nat {
    match kind
    case Fat12 => c + c / 2
    case Fat16 => 2 * c
    case Fat32 => 4 * c
  }

  function Width(kind: FatKind): nat {
    if kind.Fat32? then 4 else 2
  }

  /** Entry c lies inside the table. */
  predicate Inside(kind: FatKind, t: seq<Byte>, c: nat) {
    Offset(kind, c) + Width(kind) <= |t|
  }

  /** How much of a value an entry keeps. */
  function Range(kind: FatKind): (r: nat)
    ensures r > 0
  {
    match kind
    case Fat12 => 0x1000
    case Fat16 => 0x1_0000
    case Fat32 => 0x1000_0000
  }

  /** The value of entry c, as get_fat extracts it. */
  function Entry(kind: FatKind, t: seq<Byte>, c: nat): (e: Dword)
    requires Inside(kind, t, c)
    ensures e < Range(kind)
  {
    var o := Offset(kind, c);
    match kind
    case Fat12 =>
      var wc := LdWord(t, o);
      if c % 2 == 1 then wc / 16 else wc % 0x1000
    case Fat16 => LdWord(t, o)
    case Fat32 => LdDword(t, o) % 0x1000_0000
  }

  /** Bitwise or of two four-bit values. */
  function OrNibble(a: int, b: int): (r: int)
    requires 0 <= a < 16 && 0 <= b < 16
    ensures 0 <= r < 16
    ensures a == 0 ==> r == b
  {
    OrBelow(a, b, 16);
    Or(a, b)
  }

  /** The first byte put_fat stores for a FAT12 entry, given the byte already there. */
  function First12(c: nat, was: Byte, val: Dword): Byte {
    if c % 2 == 1 then was % 16 + (val % 16) * 16 else val % 256
  }

  /** The second byte put_fat stores for a FAT12 entry. */
  function Second12(c: nat, was: Byte, val: Dword): Byte {
    if c % 2 == 1 then (val / 16) % 256 else (was / 16) * 16 + (val / 256) % 16
  }

  /** val with the top four bits of the stored FAT32 entry or-ed in. */
  function Merged32(stored: Dword, val: Dword): (r: Dword) {
    val % 0x1000_0000 + OrNibble(val / 0x1000_0000, stored / 0x1000_0000) * 0x1000_0000
  }

  function StWord(t: seq<Byte>, i: nat, v: Dword): (r: seq<Byte>)
    requires i + 2 <= |t|
    ensures |r| == |t|
  {
    t[i := v % 256][i + 1 := (v / 256) % 256]
  }

  function StDword(t: seq<Byte>, i: nat, v: Dword): (r: seq<Byte>)
    requires i + 4 <= |t|
    ensures |r| == |t|
  {
    t[i := v % 256][i + 1 := (v / 256) % 256][i + 2 := (v / 0x1_0000) % 256][i + 3 := (v / 0x100_0000) % 256]
  }

  /** The table after put_fat has stored val in entry c. */
  function Put(kind: FatKind, t: seq<Byte>, c: nat, val: Dword): (r: seq<Byte>)
    requires Inside(kind, t, c)
    ensures |r| == |t|
  {
    var o := Offset(kind, c);
    match kind
    case Fat12 => t[o := First12(c, t[o], val)][o + 1 := Second12(c, t[o + 1], val)]
    case Fat16 => StWord(t, o, val)
    case Fat32 => StDword(t, o, Merged32(LdDword(t, o), val))
  }

  /** The four bytes of a double word, put together again. */
  lemma Digits(v: Dword)
    ensures v % 256 + 256 * ((v / 256) % 256) + 0x1_0000 * ((v / 0x1_0000) % 256) + 0x100_0000 * ((v / 0x100_0000) % 256) == v
  {
    var a := v / 256;
    var b := a / 256;
    assert v / 0x1_0000 == b;
    assert v / 0x100_0000 == b / 256;
  }

  lemma LoadStored(t: seq<Byte>, i: nat, v: Dword)
    requires i + 4 <= |t|
    ensures LdDword(StDword(t, i, v), i) == v
  {
    Digits(v);
  }

  lemma MergedParts(stored: Dword, val: Dword)
    ensures Merged32(stored, val) % 0x1000_0000 == val % 0x1000_0000
    ensures Merged32(stored, val) / 0x1000_0000 == OrNibble(val / 0x1000_0000, stored / 0x1000_0000)
  {
    DivMod(Merged32(stored, val), 0x1000_0000, OrNibble(val / 0x1000_0000, stored / 0x1000_0000), val % 0x1000_0000);
  }

  lemma WordDigits(v: Dword)
    ensures v % 256 + 256 * ((v / 256) % 256) == v % 0x1_0000
  {
    var a := v / 256;
    DivMod(v, 0x1_0000, a / 256, 256 * (a % 256) + v % 256);
  }

  /** A stored value reads back, cut to the width of an entry. */
  lemma PutReadsBack(kind: FatKind, t: seq<Byte>, c: nat, val: Dword)
    requires Inside(kind, t, c)
    ensures Entry(kind, Put(kind, t, c, val), c) == val % Range(kind)
  {
    match kind
    case Fat12 => Split12(c, t[Offset(Fat12, c)], t[Offset(Fat12, c) + 1], val);
    case Fat16 => WordDigits(val);
    case Fat32 => ReadsBack32(t, c, val);
  }

  lemma ReadsBack32(t: seq<Byte>, c: nat, val: Dword)
    requires Inside(Fat32, t, c)
    ensures Entry(Fat32, Put(Fat32, t, c, val), c) == val % 0x1000_0000
  {
    var v := LdDword(t, 4 * c);
    LoadStored(t, 4 * c, Merged32(v, val));
    MergedParts(v, val);
  }

  /** A value split into nibbles: what the shifts and masks of put_fat select. */
  lemma Nibbles(val: Dword) returns (lo: nat, m: nat, h: nat, k: nat)
    ensures lo < 16 && m < 16 && h < 16 && val == 0x1000 * k + 256 * h + 16 * m + lo
    ensures val % 16 == lo && val % 256 == 16 * m + lo && val % 0x1000 == 256 * h + 16 * m + lo
    ensures (val / 16) % 256 == 16 * h + m && (val / 256) % 16 == h
  {
    var a, b := val / 16, val / 256;
    lo, m, h, k := val % 16, a % 16, b % 16, val / 0x1000;
    DivMod(val, 256, a / 16, 16 * m + lo);
    DivMod(val, 0x1000, b / 16, 256 * h + 16 * m + lo);
    DivMod(a, 256, k, 16 * h + m);
  }

  lemma Split12(c: nat, p: Byte, q: Byte, val: Dword)
    ensures var w := First12(c, p, val) as int + 256 * (Second12(c, q, val) as int);
            (if c % 2 == 1 then w / 16 else w % 0x1000) == val % 0x1000
  {
    var lo, m, h, k := Nibbles(val);
    if c % 2 == 1 {
      DivMod(p % 16 + lo * 16 + 256 * (16 * h + m), 16, 256 * h + 16 * m + lo, p % 16);
    } else {
      DivMod(16 * m + lo + 256 * ((q / 16) * 16 + h), 0x1000, q / 16, 256 * h + 16 * m + lo);
    }
  }

  /** Every other entry keeps its value, also when it shares a byte with entry c. */
  lemma PutKeepsOthers(kind: FatKind, t: seq<Byte>, c: nat, val: Dword, d: nat)
    requires Inside(kind, t, c) && Inside(kind, t, d) && c != d
    ensures Entry(kind, Put(kind, t, c, val), d) == Entry(kind, t, d)
  {
    if kind.Fat12? {
      HalfPutKeepsOthers(t, c, val, d);
      SecondKeepsOthers(t[Offset(Fat12, c) := First12(c, t[Offset(Fat12, c)], val)], c, val, d);
    }
  }

  /** A FAT12 store cut short after its first byte also leaves every other entry alone. */
  lemma HalfPutKeepsOthers(t: seq<Byte>, c: nat, val: Dword, d: nat)
    requires Inside(Fat12, t, c) && Inside(Fat12, t, d) && c != d
    ensures Entry(Fat12, t[Offset(Fat12, c) := First12(c, t[Offset(Fat12, c)], val)], d) == Entry(Fat12, t, d)
  {
    if c % 2 == 1 && d == c - 1 {
      var o := Offset(Fat12, c);
      LowNibble(t[o - 1], t[o], First12(c, t[o], val));
    }
  }

  lemma SecondKeepsOthers(t: seq<Byte>, c: nat, val: Dword, d: nat)
    requires Inside(Fat12, t, c) && Inside(Fat12, t, d) && c != d
    ensures Entry(Fat12, t[Offset(Fat12, c) + 1 := Second12(c, t[Offset(Fat12, c) + 1], val)], d) == Entry(Fat12, t, d)
  {
    if c % 2 == 0 && d == c + 1 {
      var o := Offset(Fat12, c);
      HighNibble(t[o + 1], Second12(c, t[o + 1], val), t[o + 2]);
    }
  }

  lemma LowNibble(a: Byte, b: Byte, b': Byte)
    requires b % 16 == b' % 16
    ensures (a as int + 256 * (b as int)) % 0x1000 == (a as int + 256 * (b' as int)) % 0x1000
  {
    DivMod(a as int + 256 * (b as int), 0x1000, b / 16, a as int + 256 * (b % 16));
    DivMod(a as int + 256 * (b' as int), 0x1000, b' / 16, a as int + 256 * (b' % 16));
  }

  lemma HighNibble(a: Byte, a': Byte, b: Byte)
    requires a / 16 == a' / 16
    ensures (a as int + 256 * (b as int)) / 16 == (a' as int + 256 * (b as int)) / 16
  {
    DivMod(a as int + 256 * (b as int), 16, a / 16 + 16 * (b as int), a % 16);
    DivMod(a' as int + 256 * (b as int), 16, a' / 16 + 16 * (b as int), a' % 16);
  }

  /** FAT32 keeps the four reserved top bits of the stored entry, or-ed with those of the value. */
  lemma PutKeepsReservedBits(t: seq<Byte>, c: nat, val: Dword)
    requires Inside(Fat32, t, c)
    ensures var before := LdDword(t, Offset(Fat32, c)) / 0x1000_0000;
            var after := LdDword(Put(Fat32, t, c, val), Offset(Fat32, c)) / 0x1000_0000;
            after == OrNibble(val / 0x1000_0000, before) && (val < 0x1000_0000 ==> after == before)
  {
    var v := LdDword(t, 4 * c);
    LoadStored(t, 4 * c, Merged32(v, val));
    MergedParts(v, val);
  }
}
