/** The FATFS object: one cached sector over a drive, and the allocation table seen through it.

    The drive is a sequence of sectors.  Which of its transfers fail is a parameter; a
    transfer that fails changes nothing.
 */
module FatVolume {
  import opened Arithmetic
  import opened FatTable
  import opened FatBits
  import opened FatGeometry
  import opened SectorBytes

  const DISK_ERROR: Dword := 0xFFFF_FFFF
  const INT_ERROR: Dword := 1

  datatype FResult = Ok | DiskErr | IntErr | Denied | NoFile | NotEnoughCore

  /** The drive and the window at one moment. */
  datatype State = State(g: Geometry, fails: nat -> bool, ops: nat, disk: seq<Sector>,
                         win: Sector, winsect: nat, wflag: bool)

  /** Sectors of the second FAT copy: only move_window writes there. */
  ghost predicate InMirror(g: Geometry, s: nat) {
    g.nFats == 2 && g.fatbase + g.fsize <= s < g.fatbase + 2 * g.fsize
  }

  ghost predicate InFat(g: Geometry, s: nat) {
    g.fatbase <= s < g.fatbase + g.fsize
  }

  /** The cached sector is what the drive holds, unless it is marked dirty. */
  ghost predicate Valid(a: State) {
    && Layout(a.g, |a.disk|)
    && a.winsect < |a.disk|
    && (a.winsect != 0 && !a.wflag ==> a.win == a.disk[a.winsect])
    && (a.wflag ==> a.g.fatbase <= a.winsect && !InMirror(a.g, a.winsect))
  }

  /** The drive as it will be once the window is written back. */
  ghost function View(a: State): (v: seq<Sector>)
    requires Valid(a)
    ensures |v| == |a.disk|
  {
    if a.wflag then a.disk[a.winsect := a.win] else a.disk
  }

  /** The bytes of the first FAT. */
  ghost function TableOf(g: Geometry, v: seq<Sector>): (t: seq<Byte>)
    requires Layout(g, |v|)
    ensures |t| == g.fsize * 512
  {
    seq(g.fsize * 512, b requires 0 <= b < g.fsize * 512 => v[g.fatbase + b / 512][b % 512])
  }

  /** The allocation table as numbers: entry c for every c below n_fatent. */
  ghost function Entries(g: Geometry, t: seq<Byte>): (f: seq<Dword>)
    requires g.nFatent >= 3 && Inside(g.kind, t, g.nFatent - 1)
    ensures |f| == g.nFatent
    ensures forall c :: 0 <= c < g.nFatent ==> f[c] < Range(g.kind)
  {
    seq(g.nFatent, c requires 0 <= c < g.nFatent => Entry(g.kind, t, c))
  }

  ghost function Table(a: State): (t: seq<Byte>)
    requires Valid(a)
    ensures |t| == a.g.fsize * 512
  {
    TableOf(a.g, View(a))
  }

  ghost function Fat(a: State): (f: seq<Dword>)
    requires Valid(a)
    ensures |f| == a.g.nFatent
    ensures forall c :: 0 <= c < |f| ==> f[c] < 0x1000_0000
  {
    Entries(a.g, Table(a))
  }

  /** Bit n of the first FAT, in the sectors of the drive. */
  ghost function FatBit(a: State, n: nat): nat
    requires Valid(a) && n < 4096 * a.g.fsize
  {
    FatInVolume(a.g, |a.disk|);
    Bit(View(a)[a.g.fatbase + n / 4096][n / 8 % 512], n % 8)
  }

  /** r is made up of the bits of entry c. */
  ghost predicate ReadsBits(a: State, c: nat, r: nat)
    requires Valid(a)
  {
    r < Pow2(Size(a.g.kind)) && forall k :: 0 <= k < Size(a.g.kind) ==> ReadsBit(a, c, r, k)
  }

  /** Bit k of r is bit k of entry c. */
  ghost predicate ReadsBit(a: State, c: nat, r: nat, k: nat)
    requires Valid(a)
  {
    var n := Stride(a.g.kind) * c + k;
    n < 4096 * a.g.fsize && Bit(r, k) == FatBit(a, n)
  }

  /** The bits of entry c have become those of val, and all others are as they were. */
  ghost predicate StoresBits(a: State, b: State, c: nat, val: Dword)
    requires Valid(a) && Valid(b) && b.g == a.g
  {
    forall n :: 0 <= n < 4096 * a.g.fsize ==> FatBit(b, n) == StoredBit(a.g.kind, FatBit(a, n), c, val, n)
  }

  lemma TableBit(a: State, n: nat)
    requires Valid(a) && n < 4096 * a.g.fsize
    ensures FatBit(a, n) == BitAt(Table(a), n)
  {
    hide Bit, View;
    FatInVolume(a.g, |a.disk|);
    assert n / 8 / 512 == n / 4096;
  }

  lemma EntryReadsBits(a: State, c: nat)
    requires Valid(a) && c < a.g.nFatent
    ensures ReadsBits(a, c, Fat(a)[c])
  {
    hide Valid, View, Table, BitAt, Bit, Pow2;
    EntryInside(a, c);
    EntryFits(a.g.kind);
    var r := Fat(a)[c];
    assert r == Entry(a.g.kind, Table(a), c);
    assert r < Pow2(Size(a.g.kind));
    forall k | 0 <= k < Size(a.g.kind)
      ensures ReadsBit(a, c, r, k)
    {
      EntryBits(a.g.kind, Table(a), c, k);
      TableBit(a, Stride(a.g.kind) * c + k);
    }
  }

  lemma PutStoresBits(a: State, b: State, c: nat, val: Dword)
    requires Valid(a) && Valid(b) && b.g == a.g && Inside(a.g.kind, Table(a), c)
    requires Table(b) == Put(a.g.kind, Table(a), c, val)
    ensures StoresBits(a, b, c, val)
  {
    hide Valid, View, Table, BitAt, Bit, FatBit, StoredBit, Put;
    forall n | 0 <= n < 4096 * a.g.fsize
      ensures FatBit(b, n) == StoredBit(a.g.kind, FatBit(a, n), c, val, n)
    {
      PutBits(a.g.kind, Table(a), c, val, n);
      TableBit(a, n);
      TableBit(b, n);
    }
  }

  /** Both FAT copies agree, except for a sector still waiting in the window. */
  ghost predicate Mirrored(a: State)
    requires Valid(a)
  {
    a.g.nFats == 2 ==>
      forall s: nat {:trigger a.disk[s]} ::
        InFat(a.g, s) && !(a.wflag && s == a.winsect) ==> a.disk[s + a.g.fsize] == a.disk[s]
  }

  /** No transfer made between two moments fails. */
  ghost predicate Clean(a: State, b: State) {
    forall n :: a.ops <= n < b.ops ==> !a.fails(n)
  }

  /** Two drives that differ at most in the second FAT copy. */
  ghost predicate SameButMirror(g: Geometry, v: seq<Sector>, w: seq<Sector>) {
    |v| == |w| && forall s :: 0 <= s < |v| && !InMirror(g, s) ==> v[s] == w[s]
  }

  /** What every FAT access keeps, whatever fails: outside the FATs, the drive seen through the
      window, and every sector of the drive but the one the window may have been flushed to. */
  ghost predicate Steady(a: State, b: State): (r: bool)
    ensures r ==> Valid(a) && Valid(b) && b.g == a.g && b.fails == a.fails && a.ops <= b.ops && |b.disk| == |a.disk|
  {
    && Valid(a) && Valid(b)
    && b.g == a.g && b.fails == a.fails && a.ops <= b.ops && |b.disk| == |a.disk|
    && (forall s :: a.g.database <= s < |a.disk| ==> View(b)[s] == View(a)[s])
    && (forall s :: a.g.database <= s < |a.disk| && s != a.winsect ==> b.disk[s] == a.disk[s])
    && (b.winsect == a.winsect || InFat(a.g, b.winsect))
    && (Clean(a, b) && Mirrored(a) ==> Mirrored(b))
  }

  lemma SteadyTrans(a: State, b: State, c: State)
    requires Steady(a, b) && Steady(b, c)
    ensures Steady(a, c)
    ensures Clean(a, c) ==> Clean(a, b) && Clean(b, c)
  {
    FatInVolume(a.g, |a.disk|);
  }

  /** The FAT lies before the data area. */
  lemma FatInVolume(g: Geometry, size: nat)
    requires Layout(g, size)
    ensures g.fatbase + g.fsize <= g.database < size
    ensures g.nFats == 2 ==> g.fatbase + 2 * g.fsize <= g.database
  {
    AtLeastOne(g.nFatent - 2, g.csize);
  }

  lemma SameTable(g: Geometry, v: seq<Sector>, w: seq<Sector>)
    requires Layout(g, |v|) && SameButMirror(g, v, w)
    ensures TableOf(g, v) == TableOf(g, w)
  {}

  /** The table lies in the FAT sectors of the drive. */
  lemma EntryInside(a: State, c: nat)
    requires Valid(a) && c < a.g.nFatent
    ensures var o := Offset(a.g.kind, c);
            && o + Width(a.g.kind) <= a.g.fsize * 512
            && InFat(a.g, a.g.fatbase + o / 512) && 0 < a.g.fatbase + o / 512 < |a.disk|
  {
    FatInVolume(a.g, |a.disk|);
  }

  /** The same table means the same entries. */
  lemma SteadyFat(a: State, b: State)
    requires Steady(a, b) && Table(b) == Table(a)
    ensures Fat(b) == Fat(a)
  {}

  /** Byte r of FAT sector q. */
  lemma TableByte(g: Geometry, v: seq<Sector>, q: nat, r: nat)
    requires Layout(g, |v|) && q < g.fsize && r < 512 && g.fatbase + q < |v|
    ensures TableOf(g, v)[q * 512 + r] == v[g.fatbase + q][r]
  {}

  /** Where in its sector an entry of two, or of four, bytes starts. */
  function At16(c: nat): (o: nat)
    ensures o <= 510 && 2 * c == (c / 256) * 512 + o
  {
    c * 2 % 512
  }

  function At32(c: nat): (o: nat)
    ensures o <= 508 && 4 * c == (c / 128) * 512 + o
  {
    DivMod(c * 4, 512, c / 128, (c % 128) * 4);
    c * 4 % 512
  }

  lemma Word16(g: Geometry, v: seq<Sector>, c: nat)
    requires Layout(g, |v|) && c / 256 < g.fsize && g.fatbase + c / 256 < |v|
    ensures 2 * c + 2 <= g.fsize * 512
    ensures LdWord(v[g.fatbase + c / 256], At16(c)) == LdWord(TableOf(g, v), 2 * c)
  {
    var q, r := c / 256, At16(c);
    TableByte(g, v, q, r);
    TableByte(g, v, q, r + 1);
  }

  lemma Dword32(g: Geometry, v: seq<Sector>, c: nat)
    requires Layout(g, |v|) && c / 128 < g.fsize && g.fatbase + c / 128 < |v|
    ensures 4 * c + 4 <= g.fsize * 512
    ensures LdDword(v[g.fatbase + c / 128], At32(c)) == LdDword(TableOf(g, v), 4 * c)
  {
    var q, r := c / 128, At32(c);
    TableByte(g, v, q, r);
    TableByte(g, v, q, r + 1);
    TableByte(g, v, q, r + 2);
    TableByte(g, v, q, r + 3);
  }

  /** The byte of the table at offset b, when its sector is in the window. */
  lemma FatByte(a: State, b: nat)
    requires Valid(a) && b < a.g.fsize * 512 && a.winsect == a.g.fatbase + b / 512
    ensures a.win[b % 512] == Table(a)[b]
  {
    TableByte(a.g, View(a), b / 512, b % 512);
  }

  lemma Entry12(a: State, c: nat)
    requires Valid(a) && a.g.kind.Fat12? && c < a.g.nFatent && c + c / 2 + 2 <= a.g.fsize * 512
    ensures var t := Table(a);
            var wc := LdWord(t, c + c / 2);
            Fat(a)[c] == if c % 2 == 1 then wc / 16 else wc % 0x1000
  {}

  lemma Entry16(a: State, c: nat)
    requires Valid(a) && a.g.kind.Fat16? && c < a.g.nFatent && a.winsect == a.g.fatbase + c / 256
    ensures Fat(a)[c] == LdWord(a.win, At16(c))
  {
    EntryInside(a, c);
    Word16(a.g, View(a), c);
  }

  lemma Entry32(a: State, c: nat)
    requires Valid(a) && a.g.kind.Fat32? && c < a.g.nFatent && a.winsect == a.g.fatbase + c / 128
    ensures Fat(a)[c] == LdDword(a.win, At32(c)) % 0x1000_0000
  {
    EntryInside(a, c);
    Dword32(a.g, View(a), c);
  }

  /** Changing one byte of a FAT sector changes one byte of the table. */
  lemma TableUpdate(g: Geometry, v: seq<Sector>, q: nat, r: nat, x: Byte)
    requires Layout(g, |v|) && q < g.fsize && r < 512 && g.fatbase + q < |v|
    ensures TableOf(g, v[g.fatbase + q := v[g.fatbase + q][r := x]]) == TableOf(g, v)[q * 512 + r := x]
  {}

  /** Storing a value changes that entry and no other. */
  lemma PutUpdatesEntries(g: Geometry, t: seq<Byte>, c: nat, val: Dword)
    requires g.nFatent >= 3 && Inside(g.kind, t, g.nFatent - 1) && c < g.nFatent
    requires Inside(g.kind, t, c)
    ensures Entries(g, Put(g.kind, t, c, val)) == Entries(g, t)[c := val % Range(g.kind)]
  {
    PutReadsBack(g.kind, t, c, val);
    forall d | 0 <= d < g.nFatent && d != c
      ensures Entry(g.kind, Put(g.kind, t, c, val), d) == Entry(g.kind, t, d)
    {
      PutKeepsOthers(g.kind, t, c, val, d);
    }
  }

  /** Changing a FAT sector in the window. */
  lemma Stored(a: State, w: Sector)
    requires Valid(a) && InFat(a.g, a.winsect)
    ensures var c := a.(win := w, wflag := true);
            Steady(a, c) && View(c) == View(a)[a.winsect := w]
  {
    FatInVolume(a.g, |a.disk|);
  }

  lemma StoredByte(a: State, b: nat, x: Byte)
    requires Valid(a) && b < a.g.fsize * 512 && a.winsect == a.g.fatbase + b / 512
    ensures var c := a.(win := a.win[b % 512 := x], wflag := true);
            Steady(a, c) && Table(c) == Table(a)[b := x]
  {
    FatInVolume(a.g, |a.disk|);
    Cached(a);
    hide Valid, Steady, View, Layout, TableOf;
    Stored(a, a.win[b % 512 := x]);
    TableUpdate(a.g, View(a), b / 512, b % 512, x);
  }

  lemma StoredWord(a: State, c: nat, v: Dword)
    requires Valid(a) && a.winsect == a.g.fatbase + c / 256 && 2 * c + 2 <= a.g.fsize * 512
    ensures var b := a.(win := StWord(a.win, At16(c), v), wflag := true);
            Steady(a, b) && Table(b) == StWord(Table(a), 2 * c, v)
  {
    hide Valid, Steady, Table;
    var r := At16(c);
    var b := a.(win := a.win[r := v % 256], wflag := true);
    StoredByte(a, 2 * c, v % 256);
    StoredByte(b, 2 * c + 1, (v / 256) % 256);
    SteadyTrans(a, b, b.(win := b.win[r + 1 := (v / 256) % 256]));
  }

  lemma StoredDword(a: State, c: nat, v: Dword)
    requires Valid(a) && a.winsect == a.g.fatbase + c / 128 && 4 * c + 4 <= a.g.fsize * 512
    ensures var b := a.(win := StDword(a.win, At32(c), v), wflag := true);
            Steady(a, b) && Table(b) == StDword(Table(a), 4 * c, v)
  {
    hide Valid, Steady, Table;
    var r := At32(c);
    var b0 := a.(win := a.win[r := v % 256], wflag := true);
    StoredByte(a, 4 * c, v % 256);
    var b1 := b0.(win := b0.win[r + 1 := (v / 256) % 256]);
    StoredByte(b0, 4 * c + 1, (v / 256) % 256);
    SteadyTrans(a, b0, b1);
    var b2 := b1.(win := b1.win[r + 2 := (v / 0x1_0000) % 256]);
    StoredByte(b1, 4 * c + 2, (v / 0x1_0000) % 256);
    SteadyTrans(a, b1, b2);
    var b3 := b2.(win := b2.win[r + 3 := (v / 0x100_0000) % 256]);
    StoredByte(b2, 4 * c + 3, (v / 0x100_0000) % 256);
    SteadyTrans(a, b2, b3);
  }

  lemma InFatByte(a: State, b: nat)
    requires Valid(a) && b < a.g.fsize * 512 && a.winsect == a.g.fatbase + b / 512
    ensures InFat(a.g, a.winsect)
  {}

  lemma Stored32(a: State, c: nat)
    requires Valid(a) && a.winsect == a.g.fatbase + c / 128 && 4 * c + 4 <= a.g.fsize * 512
    ensures LdDword(a.win, At32(c)) == LdDword(Table(a), 4 * c)
  {
    FatInVolume(a.g, |a.disk|);
    Dword32(a.g, View(a), c);
  }

  /** A FAT12 entry after only its first byte was stored. */
  ghost function HalfPut(t: seq<Byte>, c: nat, val: Dword): seq<Byte>
    requires Inside(Fat12, t, c)
  {
    t[Offset(Fat12, c) := First12(c, t[Offset(Fat12, c)], val)]
  }

  /** The window shows a sector that is written back without harm. */
  ghost predicate Rewritable(a: State) {
    a.g.fatbase <= a.winsect && !InMirror(a.g, a.winsect)
  }

  lemma MarkedDirty(a: State)
    requires Valid(a)
    ensures Valid(a.(wflag := true)) <==> Rewritable(a)
    ensures Rewritable(a) ==> Steady(a, a.(wflag := true)) && Table(a.(wflag := true)) == Table(a)
    ensures InFat(a.g, a.winsect) ==> Rewritable(a)
  {
    if Rewritable(a) {
      assert View(a.(wflag := true)) == View(a);
    }
  }

  lemma FatAfterPut(a: State, b: State, c: nat, val: Dword)
    requires Valid(a) && Valid(b) && a.g == b.g && c < a.g.nFatent && Inside(a.g.kind, Table(a), c)
    requires Table(b) == Put(a.g.kind, Table(a), c, val)
    ensures Fat(b) == Fat(a)[c := val % Range(a.g.kind)]
  {
    PutUpdatesEntries(a.g, Table(a), c, val);
  }

  lemma FatAfterFailedPut(a: State, b: State, c: nat, val: Dword)
    requires Steady(a, b) && c < a.g.nFatent && Inside(a.g.kind, Table(a), c)
    requires Table(b) == Table(a) || (a.g.kind.Fat12? && Table(b) == HalfPut(Table(a), c, val))
    ensures forall d :: 0 <= d < a.g.nFatent && d != c ==> Fat(b)[d] == Fat(a)[d]
  {
    forall d | 0 <= d < a.g.nFatent && d != c
      ensures Fat(b)[d] == Fat(a)[d]
    {
      if Table(b) != Table(a) {
        EntryInside(a, d);
        HalfPutKeepsOthers(Table(a), c, val, d);
      }
    }
  }

  /** The drive after a dirty window is written to its own sector and, if that does not fail, to the other FAT. */
  ghost function WrittenDisk(a: State): (d: seq<Sector>)
    requires Valid(a) && a.wflag
    ensures |d| == |a.disk|
  {
    FatInVolume(a.g, |a.disk|);
    var d := a.disk[a.winsect := a.win];
    if FlushOps(a) == 2 && !a.fails(a.ops + 1) then d[a.winsect + a.g.fsize := a.win] else d
  }

  lemma WrittenBack(a: State, b: State)
    requires Valid(a) && a.wflag
    requires b == a.(wflag := false, ops := a.ops + FlushOps(a), disk := WrittenDisk(a))
    ensures Steady(a, b) && SameButMirror(a.g, View(a), View(b)) && Table(b) == Table(a)
  {
    hide Layout, TableOf;
    FatInVolume(a.g, |a.disk|);
    SameTable(a.g, View(a), View(b));
    if Clean(a, b) {
      assert FlushOps(a) == 2 ==> !a.fails(a.ops + 1);
    }
  }

  /** Writing a dirty FAT sector back loses the copy: the write to the other FAT fails, and does not hold the same
      bytes already. */
  ghost predicate CopyLost(a: State)
    requires Valid(a)
  {
    FatInVolume(a.g, |a.disk|);
    FlushOps(a) == 2 && a.fails(a.ops + 1) && a.disk[a.winsect + a.g.fsize] != a.win
  }

  ghost function FlushedDisk(a: State): (d: seq<Sector>)
    requires Valid(a)
    ensures |d| == |a.disk|
  {
    if a.wflag then WrittenDisk(a) else a.disk
  }

  /** One FAT sector and its copy, after the window is written back. */
  lemma FlushedSector(a: State, s: nat)
    requires Valid(a) && a.g.nFats == 2 && InFat(a.g, s)
    ensures s + a.g.fsize < |a.disk|
    ensures var d := FlushedDisk(a);
            d[s + a.g.fsize] == d[s] <==>
              if a.wflag && s == a.winsect then !CopyLost(a) else a.disk[s + a.g.fsize] == a.disk[s]
  {
    hide Layout;
    FatInVolume(a.g, |a.disk|);
  }

  lemma AgreeingCopies(a: State)
    requires Valid(a) && CopiesAgree(a.g, FlushedDisk(a))
    ensures Mirrored(a) && !CopyLost(a)
  {
    hide Layout, CopyLost, WrittenDisk;
    var d := FlushedDisk(a);
    NoCopyLost(a);
    if a.g.nFats == 2 {
      forall s: nat | InFat(a.g, s)
        ensures s + a.g.fsize < |a.disk|
        ensures if a.wflag && s == a.winsect then !CopyLost(a) else a.disk[s + a.g.fsize] == a.disk[s]
      {
        FlushedSector(a, s);
        assert d[s + a.g.fsize] == d[s];
      }
    }
    if a.g.nFats == 2 && InFat(a.g, a.winsect) {
      FlushedSector(a, a.winsect);
      assert d[a.winsect + a.g.fsize] == d[a.winsect];
    }
  }

  lemma KeptCopies(a: State)
    requires Valid(a) && Mirrored(a) && !CopyLost(a)
    ensures CopiesAgree(a.g, FlushedDisk(a))
  {
    hide Layout, CopyLost, WrittenDisk;
    if a.g.nFats == 2 {
      forall s: nat | InFat(a.g, s)
        ensures s + a.g.fsize < |a.disk| && FlushedDisk(a)[s + a.g.fsize] == FlushedDisk(a)[s]
      {
        FlushedSector(a, s);
        assert !(a.wflag && s == a.winsect) ==> a.disk[s + a.g.fsize] == a.disk[s];
      }
    }
  }

  /** After the window is written back all FAT copies agree exactly when they did outside the window and its own copy
      was not lost. */
  lemma FlushedCopies(a: State)
    requires Valid(a)
    ensures CopiesAgree(a.g, FlushedDisk(a)) <==> Mirrored(a) && !CopyLost(a)
  {
    hide Valid, CopiesAgree, Mirrored, CopyLost;
    if CopiesAgree(a.g, FlushedDisk(a)) {
      AgreeingCopies(a);
    }
    if Mirrored(a) && !CopyLost(a) {
      KeptCopies(a);
    }
  }

  lemma NoCopyLost(a: State)
    requires Valid(a)
    ensures CopyLost(a) ==> FlushOps(a) == 2 && InFat(a.g, a.winsect) && a.wflag
  {}

  /** The window shows its sector. */
  lemma Cached(a: State)
    requires Valid(a)
    ensures a.winsect < |a.disk| && (a.wflag ==> a.winsect != 0)
    ensures a.winsect != 0 ==> View(a)[a.winsect] == a.win
  {}

  /** Every sector of the second FAT copy is that of the first. */
  ghost predicate CopiesAgree(g: Geometry, disk: seq<Sector>) {
    g.nFats == 2 ==>
      forall s: nat :: InFat(g, s) && s + g.fsize < |disk| ==> disk[s + g.fsize] == disk[s]
  }

  lemma AfterFlush(a: State)
    requires Valid(a)
    ensures !a.wflag ==> TableOf(a.g, a.disk) == Table(a)
    ensures !a.wflag && Mirrored(a) ==> CopiesAgree(a.g, a.disk)
  {}

  /** Loading a sector into a clean window. */
  lemma Loaded(a: State, b: State, sector: nat)
    requires Valid(a) && !a.wflag && 0 < sector < |a.disk| && a.ops <= b.ops
    requires b == a.(ops := b.ops, win := a.disk[sector], winsect := sector)
    ensures Valid(b) && View(b) == View(a) && Table(b) == Table(a) && View(b)[sector] == b.win
    ensures InFat(a.g, sector) ==> Steady(a, b)
    ensures Mirrored(a) ==> Mirrored(b)
  {}

  lemma SteadyMirrored(a: State, b: State)
    requires Steady(a, b)
    ensures Clean(a, b) && Mirrored(a) ==> Mirrored(b)
  {}

  lemma SameButMirrorTrans(a: State, b: State, c: State)
    requires Valid(a) && Valid(b) && Valid(c) && a.g == b.g
    requires SameButMirror(a.g, View(a), View(b)) && View(c) == View(b)
    ensures SameButMirror(a.g, View(a), View(c))
  {}

  /** A moment later, with at most a failed transfer in between. */
  lemma Idle(a: State, n: nat)
    requires Valid(a) && a.ops <= n
    ensures Steady(a, a.(ops := n)) && View(a.(ops := n)) == View(a) && Table(a.(ops := n)) == Table(a)
    ensures SameButMirror(a.g, View(a), View(a.(ops := n)))
  {
    hide Layout, TableOf, InMirror, InFat;
    var b := a.(ops := n);
    assert View(b) == View(a);
  }

  // ---- which accesses fail -----------------------------------------------------------------

  /** The number of transfers it takes to write the window back. */
  ghost function FlushOps(a: State): nat {
    if !a.wflag then 0 else if a.winsect < a.g.fatbase + a.g.fsize && a.g.nFats == 2 then 2 else 1
  }

  /** Bringing sector s into the window fails: a dirty window cannot be written to its own sector, or s cannot be
      read.  A failure to write the other FAT copy goes unnoticed. */
  ghost predicate MoveFails(a: State, s: nat) {
    a.winsect != s && ((a.wflag && a.fails(a.ops)) || (s != 0 && a.fails(a.ops + FlushOps(a))))
  }

  /** What later failures depend on, once sector s is in the window. */
  ghost function MovedTo(a: State, s: nat): (b: State)
    ensures b.g == a.g && b.fails == a.fails && b.winsect == s
  {
    if a.winsect == s then a else a.(ops := a.ops + FlushOps(a) + 1, winsect := s, wflag := false)
  }

  /** Whether a move fails depends on the window's sector and flag and on the transfers to come. */
  lemma SameFate(a: State, b: State, s: nat)
    requires a.g == b.g && a.fails == b.fails && a.ops == b.ops && a.winsect == b.winsect && a.wflag == b.wflag
    ensures MoveFails(a, s) == MoveFails(b, s)
  {}

  /** The sectors of the first byte of an entry, and of the second one on FAT12. */
  ghost function FirstSector(g: Geometry, c: nat): nat {
    match g.kind
    case Fat12 => g.fatbase + (c + c / 2) / 512
    case Fat16 => g.fatbase + c / 256
    case Fat32 => g.fatbase + c / 128
  }

  ghost function SecondSector(g: Geometry, c: nat): nat { g.fatbase + (c + c / 2 + 1) / 512 }

  /** Reading entry c fails. */
  ghost predicate ReadFails(a: State, c: nat) {
    var s := FirstSector(a.g, c);
    MoveFails(a, s) || (a.g.kind.Fat12? && MoveFails(MovedTo(a, s), SecondSector(a.g, c)))
  }

  /** Storing into entry c fails: on FAT12 the window is dirty when it moves on to the second byte. */
  ghost predicate StoreFails(a: State, c: nat) {
    var s := FirstSector(a.g, c);
    MoveFails(a, s) || (a.g.kind.Fat12? && MoveFails(MovedTo(a, s).(wflag := true), SecondSector(a.g, c)))
  }

  /** The first sector of an entry lies in the FAT. */
  lemma FirstSectorInFat(a: State, c: nat)
    requires Valid(a) && c < a.g.nFatent
    ensures InFat(a.g, FirstSector(a.g, c)) && 0 < FirstSector(a.g, c) < |a.disk|
  {
    EntryInside(a, c);
    var _, _ := At16(c), At32(c);
  }

  /** A window that may not be rewritten is clean, so only reading can fail. */
  lemma ShieldedFails(a: State, c: nat)
    requires Valid(a) && c < a.g.nFatent && !Rewritable(a)
    ensures MoveFails(a, FirstSector(a.g, c)) <==> a.fails(a.ops)
  {
    FirstSectorInFat(a, c);
    FatInVolume(a.g, |a.disk|);
  }

  class Volume {
    const g: Geometry
    const fails: nat -> bool
    var ops: nat
    var disk: seq<Sector>
    var win: Sector
    var winsect: nat
    var wflag: bool
    var lastClust: Dword
    var freeClust: Dword
    var fsiFlag: bool

    /** The state chk_mounted leaves: no sector in the window, which holds whatever was read last, and the hint and
        the free count as an FSInfo sector gives them, or 0 and unknown. */
    constructor (g: Geometry, disk: seq<Sector>, fails: nat -> bool, win: Sector, hint: Dword, free: Dword)
      requires Layout(g, |disk|)
      ensures Valid(Now()) && this.g == g && this.disk == disk && this.fails == fails && this.win == win
      ensures ops == 0 && winsect == 0 && !wflag && lastClust == hint && freeClust == free
    {
      this.g, this.disk, this.fails, this.win := g, disk, fails, win;
      ops, winsect, wflag := 0, 0, false;
      lastClust, freeClust, fsiFlag := hint, free, false;
      new;
      FatInVolume(g, |disk|);
    }

    ghost function Now(): State
      reads this
    {
      State(g, fails, ops, disk, win, winsect, wflag)
    }

    /** disk_read of one sector; bad tells which transfers fail. */
    method DiskRead(sector: nat, bad: nat -> bool) returns (ok: bool, data: Sector)
      modifies `ops
      ensures ops == old(ops) + 1
      ensures ok <==> sector < |disk| && !bad(old(ops))
      ensures ok ==> data == disk[sector]
    {
      ok := sector < |disk| && !bad(ops);
      ops := ops + 1;
      if ok {
        data := disk[sector];
      } else {
        data := seq(512, _ => 0);
      }
    }

    /** disk_write of one sector. */
    method DiskWrite(data: Sector, sector: nat, bad: nat -> bool) returns (ok: bool)
      modifies `ops, `disk
      ensures ops == old(ops) + 1
      ensures ok <==> sector < |old(disk)| && !bad(old(ops))
      ensures disk == if ok then old(disk)[sector := data] else old(disk)
    {
      ok := sector < |disk| && !bad(ops);
      ops := ops + 1;
      if ok {
        disk := disk[sector := data];
      }
    }

    /** disk_read of several sectors. */
    method DiskReadMany(sector: nat, count: nat, bad: nat -> bool) returns (ok: bool, data: seq<Sector>)
      modifies `ops
      ensures ops == old(ops) + 1
      ensures ok <==> sector + count <= |disk| && !bad(old(ops))
      ensures ok ==> data == disk[sector..sector + count]
    {
      ok := sector + count <= |disk| && !bad(ops);
      ops := ops + 1;
      data := if ok then disk[sector..sector + count] else [];
    }

    /** disk_write of several sectors. */
    method DiskWriteMany(data: seq<Sector>, sector: nat, bad: nat -> bool) returns (ok: bool)
      modifies `ops, `disk
      ensures ops == old(ops) + 1
      ensures ok <==> sector + |data| <= |old(disk)| && !bad(old(ops))
      ensures disk == if ok then Splice(old(disk), sector, data) else old(disk)
    {
      ok := sector + |data| <= |disk| && !bad(ops);
      ops := ops + 1;
      if ok {
        disk := Splice(disk, sector, data);
      }
    }

    /** Writes the dirty window to its sector and to the other FAT copy. */
    method WriteBack() returns (ok: bool)
      requires Valid(Now()) && wflag
      modifies `ops, `disk, `wflag
      ensures Steady(old(Now()), Now()) && SameButMirror(g, View(old(Now())), View(Now()))
      ensures Table(Now()) == Table(old(Now()))
      ensures ok == !wflag == !fails(old(ops)) && (ok ==> ops == old(ops) + FlushOps(old(Now())))
      ensures disk == if ok then WrittenDisk(old(Now())) else old(disk)
      ensures Clean(old(Now()), Now()) ==> ok
    {
      ghost var a := Now();
      FatInVolume(g, |disk|);
      var wsect := winsect;
      ok := DiskWrite(win, wsect, fails);
      if ok {
        wflag := false;
        if wsect < g.fatbase + g.fsize {
          ghost var d, n := disk, ops;
          var nf := g.nFats;
          while nf > 1
            invariant 1 <= nf <= g.nFats && !wflag
            invariant nf == g.nFats ==> disk == d && ops == n && wsect == winsect
            invariant nf < g.nFats ==> nf == 1 && ops == n + 1
            invariant nf < g.nFats ==> disk == if fails(n) then d else d[winsect + g.fsize := win]
          {
            wsect := wsect + g.fsize;
            var _ := DiskWrite(win, wsect, fails);
            nf := nf - 1;
          }
        }
        WrittenBack(a, Now());
      }
    }

    /** Brings a sector into the window; sector 0 only writes a dirty window back. */
    method MoveWindow(sector: nat) returns (ok: bool)
      requires Valid(Now()) && sector < |disk|
      modifies `ops, `disk, `wflag, `win, `winsect
      ensures Valid(Now()) && SameButMirror(g, View(old(Now())), View(Now()))
      ensures Table(Now()) == Table(old(Now()))
      ensures sector == 0 || InFat(g, sector) ==> Steady(old(Now()), Now())
      ensures ok && sector != 0 ==> winsect == sector && win == View(Now())[sector]
      ensures ok && sector == 0 ==> !wflag && winsect == old(winsect) && TableOf(g, disk) == Table(old(Now()))
      ensures Clean(old(Now()), Now()) && Mirrored(old(Now())) ==> Mirrored(Now())
      ensures ok && sector == 0 ==> (CopiesAgree(g, disk) <==> Mirrored(old(Now())) && !CopyLost(old(Now())))
      ensures ok <==> !MoveFails(old(Now()), sector)
      ensures ok && sector != 0 ==> ops == MovedTo(old(Now()), sector).ops && wflag == MovedTo(old(Now()), sector).wflag
      ensures !ok ==> winsect == old(winsect) && win == old(win)
      ensures Clean(old(Now()), Now()) ==> ok
    {
      hide Valid, View, Table, SameButMirror, Mirrored, Layout, TableOf, Steady, InFat, CopiesAgree, CopyLost, WrittenDisk;
      ghost var a := Now();
      Idle(a, ops);
      Cached(a);
      AfterFlush(a);
      FlushedCopies(a);
      if winsect != sector {
        if wflag {
          var written := WriteBack();
          if !written {
            return false;
          }
        }
        ghost var b := Now();
        Idle(b, ops + 1);
        SteadyMirrored(a, b);
        if sector != 0 {
          var read, data := DiskRead(sector, fails);
          if !read {
            SteadyTrans(a, b, Now());
            return false;
          }
          win, winsect := data, sector;
          Loaded(b, Now(), sector);
          SameButMirrorTrans(a, b, Now());
          if InFat(g, sector) {
            SteadyTrans(a, b, Now());
          }
        } else {
          AfterFlush(b);
        }
      }
      ok := true;
    }

    /** Moves the window to the sector of byte b of the table. */
    method ToFatByte(b: nat) returns (ok: bool)
      requires Valid(Now()) && b < g.fsize * 512
      modifies `ops, `disk, `wflag, `win, `winsect
      ensures Steady(old(Now()), Now()) && Table(Now()) == Table(old(Now()))
      ensures ok ==> winsect == g.fatbase + b / 512 && win[b % 512] == Table(Now())[b]
      ensures var s := g.fatbase + b / 512;
              && (ok <==> !MoveFails(old(Now()), s)) && (!ok ==> winsect == old(winsect) && win == old(win))
              && (ok ==> ops == MovedTo(old(Now()), s).ops && wflag == MovedTo(old(Now()), s).wflag && InFat(g, winsect))
      ensures Clean(old(Now()), Now()) ==> ok
    {
      FatInVolume(g, |disk|);
      hide Valid, View, Table, SameButMirror, Mirrored, Layout, Steady;
      ok := MoveWindow(g.fatbase + b / 512);
      if ok {
        FatByte(Now(), b);
        InFatByte(Now(), b);
      }
    }

    /** The two bytes of a FAT12 entry may lie in two sectors. */
    method GetFat12(clst: Dword) returns (r: Dword)
      requires Valid(Now()) && g.kind.Fat12? && clst < g.nFatent
      modifies `ops, `disk, `wflag, `win, `winsect
      ensures Steady(old(Now()), Now()) && Fat(Now()) == Fat(old(Now()))
      ensures r == if ReadFails(old(Now()), clst) then DISK_ERROR else Fat(Now())[clst]
      ensures r != DISK_ERROR ==> InFat(g, winsect)
      ensures Clean(old(Now()), Now()) ==> r == Fat(Now())[clst]
    {
      hide Valid, View, Table, SameButMirror, Mirrored, Layout, Steady, TableOf, Entry, MoveFails, MovedTo, Clean, InFat;
      ghost var a := Now();
      EntryInside(a, clst);
      var bc := clst + clst / 2;
      var ok := ToFatByte(bc);
      ghost var b := Now();
      SteadyFat(a, b);
      if !ok {
        return DISK_ERROR;
      }
      SameFate(b, MovedTo(a, FirstSector(g, clst)), SecondSector(g, clst));
      var lo := win[bc % 512];
      bc := bc + 1;
      ok := ToFatByte(bc);
      SteadyTrans(a, b, Now());
      SteadyFat(a, Now());
      if !ok {
        return DISK_ERROR;
      }
      var wc := lo as int + 256 * (win[bc % 512] as int);
      r := if clst % 2 == 1 then wc / 16 else wc % 0x1000;
      Entry12(Now(), clst);
    }

    method GetFat16(clst: Dword) returns (r: Dword)
      requires Valid(Now()) && g.kind.Fat16? && clst < g.nFatent
      modifies `ops, `disk, `wflag, `win, `winsect
      ensures Steady(old(Now()), Now()) && Fat(Now()) == Fat(old(Now()))
      ensures r == if ReadFails(old(Now()), clst) then DISK_ERROR else Fat(Now())[clst]
      ensures r != DISK_ERROR ==> InFat(g, winsect)
      ensures Clean(old(Now()), Now()) ==> r == Fat(Now())[clst]
    {
      hide Valid, View, Table, SameButMirror, Mirrored, Layout, Steady, TableOf, Entry;
      ghost var a := Now();
      EntryInside(a, clst);
      var ok := MoveWindow(g.fatbase + clst / 256);
      SteadyFat(a, Now());
      if !ok {
        return DISK_ERROR;
      }
      r := LdWord(win, At16(clst));
      Entry16(Now(), clst);
    }

    method GetFat32(clst: Dword) returns (r: Dword)
      requires Valid(Now()) && g.kind.Fat32? && clst < g.nFatent
      modifies `ops, `disk, `wflag, `win, `winsect
      ensures Steady(old(Now()), Now()) && Fat(Now()) == Fat(old(Now()))
      ensures r == if ReadFails(old(Now()), clst) then DISK_ERROR else Fat(Now())[clst]
      ensures r != DISK_ERROR ==> InFat(g, winsect)
      ensures Clean(old(Now()), Now()) ==> r == Fat(Now())[clst]
    {
      hide Valid, View, Table, SameButMirror, Mirrored, Layout, Steady, TableOf, Entry;
      ghost var a := Now();
      EntryInside(a, clst);
      var ok := MoveWindow(g.fatbase + clst / 128);
      SteadyFat(a, Now());
      if !ok {
        return DISK_ERROR;
      }
      r := LdDword(win, At32(clst)) % 0x1000_0000;
      Entry32(Now(), clst);
    }

    /** get_fat: the value of an entry, 1 for a number out of range, 0xFFFFFFFF on a disk error. */
    method GetFat(clst: Dword) returns (r: Dword)
      requires Valid(Now())
      modifies `ops, `disk, `wflag, `win, `winsect
      ensures Steady(old(Now()), Now()) && Fat(Now()) == Fat(old(Now()))
      ensures clst < 2 || clst >= g.nFatent ==> r == 1
      ensures 2 <= clst < g.nFatent ==> r == if ReadFails(old(Now()), clst) then 0xFFFF_FFFF else Fat(Now())[clst]
      ensures 2 <= clst < g.nFatent && r != DISK_ERROR ==> InFat(g, winsect)
      ensures 2 <= clst < g.nFatent && Clean(old(Now()), Now()) ==> r == Fat(Now())[clst]
      ensures 2 <= clst < g.nFatent && r != DISK_ERROR ==> ReadsBits(Now(), clst, r) && ReadsBits(old(Now()), clst, r)
    {
      hide Valid, View, Table, SameButMirror, Mirrored, Layout, Steady, TableOf, Fat, ReadsBits;
      Idle(Now(), ops);
      if clst < 2 || clst >= g.nFatent {
        return INT_ERROR;
      }
      EntryReadsBits(Now(), clst);
      match g.kind {
        case Fat12 => r := GetFat12(clst);
        case Fat16 => r := GetFat16(clst);
        case Fat32 => r := GetFat32(clst);
      }
      EntryReadsBits(Now(), clst);
    }

    method PutFat12(clst: Dword, val: Dword) returns (ok: bool)
      requires Valid(Now()) && g.kind.Fat12? && clst < g.nFatent
      modifies `ops, `disk, `wflag, `win, `winsect
      ensures Steady(old(Now()), Now())
      ensures Inside(Fat12, Table(old(Now())), clst)
      ensures ok ==> InFat(g, winsect) && Table(Now()) == Put(Fat12, Table(old(Now())), clst, val)
      ensures !ok ==> Table(Now()) == Table(old(Now())) || Table(Now()) == HalfPut(Table(old(Now())), clst, val)
      ensures ok <==> !StoreFails(old(Now()), clst)
      ensures if MoveFails(old(Now()), FirstSector(g, clst)) then winsect == old(winsect) && win == old(win)
              else InFat(g, winsect)
      ensures Clean(old(Now()), Now()) ==> ok
    {
      hide Valid, View, Table, SameButMirror, Mirrored, Layout, Steady, TableOf, MoveFails, MovedTo, First12, Second12,
        Clean, InFat;
      ghost var a := Now();
      EntryInside(a, clst);
      var bc := clst + clst / 2;
      ok := ToFatByte(bc);
      ghost var b := Now();
      if !ok {
        return;
      }
      win := win[bc % 512 := First12(clst, win[bc % 512], val)];
      wflag := true;
      ghost var c := Now();
      SameFate(c, MovedTo(a, FirstSector(g, clst)).(wflag := true), SecondSector(g, clst));
      StoredByte(b, bc, c.win[bc % 512]);
      SteadyTrans(a, b, c);
      bc := bc + 1;
      ok := ToFatByte(bc);
      ghost var d := Now();
      SteadyTrans(a, c, d);
      if !ok {
        return;
      }
      win := win[bc % 512 := Second12(clst, win[bc % 512], val)];
      wflag := true;
      StoredByte(d, bc, win[bc % 512]);
      SteadyTrans(a, d, Now());
      InFatByte(Now(), bc);
    }

    method PutFat16(clst: Dword, val: Dword) returns (ok: bool)
      requires Valid(Now()) && g.kind.Fat16? && clst < g.nFatent
      modifies `ops, `disk, `wflag, `win, `winsect
      ensures Steady(old(Now()), Now())
      ensures Inside(Fat16, Table(old(Now())), clst)
      ensures ok ==> InFat(g, winsect) && Table(Now()) == Put(Fat16, Table(old(Now())), clst, val)
      ensures !ok ==> Table(Now()) == Table(old(Now()))
      ensures ok <==> !StoreFails(old(Now()), clst)
      ensures if MoveFails(old(Now()), FirstSector(g, clst)) then winsect == old(winsect) && win == old(win)
              else InFat(g, winsect)
      ensures Clean(old(Now()), Now()) ==> ok
    {
      hide Valid, View, Table, SameButMirror, Mirrored, Layout, Steady, TableOf;
      ghost var a := Now();
      EntryInside(a, clst);
      ok := MoveWindow(g.fatbase + clst / 256);
      ghost var b := Now();
      if !ok {
        return;
      }
      win := StWord(win, At16(clst), val);
      wflag := true;
      StoredWord(b, clst, val);
      SteadyTrans(a, b, Now());
    }

    method PutFat32(clst: Dword, val: Dword) returns (ok: bool)
      requires Valid(Now()) && g.kind.Fat32? && clst < g.nFatent
      modifies `ops, `disk, `wflag, `win, `winsect
      ensures Steady(old(Now()), Now())
      ensures Inside(Fat32, Table(old(Now())), clst)
      ensures ok ==> InFat(g, winsect) && Table(Now()) == Put(Fat32, Table(old(Now())), clst, val)
      ensures !ok ==> Table(Now()) == Table(old(Now()))
      ensures ok <==> !StoreFails(old(Now()), clst)
      ensures if MoveFails(old(Now()), FirstSector(g, clst)) then winsect == old(winsect) && win == old(win)
              else InFat(g, winsect)
      ensures Clean(old(Now()), Now()) ==> ok
    {
      hide Valid, View, Table, SameButMirror, Mirrored, Layout, Steady, TableOf, Merged32, LdDword, StDword;
      ghost var a := Now();
      EntryInside(a, clst);
      ok := MoveWindow(g.fatbase + clst / 128);
      ghost var b := Now();
      if !ok {
        return;
      }
      var v := Merged32(LdDword(win, At32(clst)), val);
      win := StDword(win, At32(clst), v);
      wflag := true;
      Stored32(b, clst);
      StoredDword(b, clst, v);
      SteadyTrans(a, b, Now());
    }

    /** The stores of put_fat by kind of table. */
    method StoreEntry(clst: Dword, val: Dword) returns (ok: bool)
      requires Valid(Now()) && clst < g.nFatent
      modifies `ops, `disk, `wflag, `win, `winsect
      ensures Steady(old(Now()), Now())
      ensures Inside(g.kind, Table(old(Now())), clst)
      ensures ok ==> InFat(g, winsect) && Table(Now()) == Put(g.kind, Table(old(Now())), clst, val)
      ensures !ok ==> Table(Now()) == Table(old(Now())) ||
                      (g.kind.Fat12? && Table(Now()) == HalfPut(Table(old(Now())), clst, val))
      ensures ok <==> !StoreFails(old(Now()), clst)
      ensures if MoveFails(old(Now()), FirstSector(g, clst)) then winsect == old(winsect) && win == old(win)
              else InFat(g, winsect)
      ensures Clean(old(Now()), Now()) ==> ok
    {
      hide Valid, View, Table, SameButMirror, Mirrored, Layout, Steady, TableOf, Put, MoveFails, StoreFails, FirstSector;
      match g.kind {
        case Fat12 => ok := PutFat12(clst, val);
        case Fat16 => ok := PutFat16(clst, val);
        case Fat32 => ok := PutFat32(clst, val);
      }
    }

    /** put_fat.  The dirty flag is set on the error path too.  That breaks the cache exactly when the window shows
        no sector that may be rewritten and the first transfer fails. */
    method PutFat(clst: Dword, val: Dword) returns (res: FResult)
      requires Valid(Now())
      modifies `ops, `disk, `wflag, `win, `winsect
      ensures clst < 2 || clst >= g.nFatent ==> res == IntErr && Now() == old(Now())
      ensures 2 <= clst < g.nFatent ==> res == if StoreFails(old(Now()), clst) then DiskErr else Ok
      ensures 2 <= clst < g.nFatent ==> (Valid(Now()) <==> Rewritable(old(Now())) || !fails(old(ops)))
      ensures 2 <= clst < g.nFatent && !Valid(Now()) ==>
                res == DiskErr && wflag && winsect == old(winsect) && win == old(win)
      ensures |disk| == |old(disk)| && (Valid(Now()) ==> Steady(old(Now()), Now()))
      ensures res == Ok ==> InFat(g, winsect) && Fat(Now()) == Fat(old(Now()))[clst := val % Range(g.kind)]
      ensures res == Ok ==> StoresBits(old(Now()), Now(), clst, val)
      ensures res == DiskErr && Valid(Now()) ==>
                forall d :: 0 <= d < g.nFatent && d != clst ==> Fat(Now())[d] == Fat(old(Now()))[d]
      ensures 2 <= clst < g.nFatent && Clean(old(Now()), Now()) ==> res == Ok
    {
      hide Valid, View, Table, SameButMirror, Mirrored, Layout, Steady, TableOf, Put, Fat, Range, MoveFails, StoreFails,
        FirstSector, InFat, StoresBits;
      Idle(Now(), ops);
      if clst < 2 || clst >= g.nFatent {
        return IntErr;
      }
      ghost var a := Now();
      if !Rewritable(a) {
        ShieldedFails(a, clst);
      }
      var ok := StoreEntry(clst, val);
      ghost var b := Now();
      wflag := true;
      MarkedDirty(b);
      if Rewritable(b) {
        SteadyFat(b, Now());
      }
      if ok {
        FatAfterPut(a, b, clst, val);
        SteadyTrans(a, b, Now());
        PutStoresBits(a, Now(), clst, val);
        return Ok;
      } else {
        if Rewritable(b) {
          FatAfterFailedPut(a, b, clst, val);
          SteadyTrans(a, b, Now());
        }
        return DiskErr;
      }
    }
  }
}
