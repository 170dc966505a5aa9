/** Where the parts of a FAT volume lie, and how chk_mounted derives it from a boot record. */
module FatGeometry {
  import opened Arithmetic
  import opened FatTable
  import opened Options

  const MIN_FAT16 := 4086
  const MIN_FAT32 := 65526

  /** The fields of FATFS that mounting fixes.  dirbase is a sector, or a cluster on FAT32. */
  datatype Geometry = Geometry(
    kind: FatKind, csize: nat, nFats: nat, nRootdir: nat, nFatent: nat,
    fsize: nat, fatbase: nat, dirbase: Dword, database: nat)

  /** The boot record fields that chk_mounted reads, as numbers. */
  datatype BootRecord = BootRecord(
    bytesPerSec: Word, fatSz: Dword, numFats: Byte, secPerClus: Byte, rootEntCnt: Word,
    totSec: Dword, rsvdSecCnt: Word, rootClus: Dword)

  function Decode(win: seq<Byte>): BootRecord
    requires |win| == 512
  {
    var sz16, tot16 := LdWord(win, 22), LdWord(win, 19);
    BootRecord(
      LdWord(win, 11), if sz16 != 0 then sz16 else LdDword(win, 36), win[16], win[13], LdWord(win, 17),
      if tot16 != 0 then tot16 else LdDword(win, 32), LdWord(win, 14), LdDword(win, 44))
  }

  /** The source's test for a power of two: b and b & (b - 1). */
  predicate SingleBit(b: Byte) {
    b != 0 && And(b, b - 1) == 0
  }

  function KindOf(nclst: nat): FatKind {
    if nclst >= MIN_FAT32 then Fat32 else if nclst >= MIN_FAT16 then Fat16 else Fat12
  }

  /** Bytes the table needs, as DWORD arithmetic computes it. */
  function TableBytes(kind: FatKind, n: nat): Dword {
    match kind
    case Fat32 => W32(n * 4)
    case Fat16 => W32(n * 2)
    case Fat12 => W32(W32(n * 3) / 2 + n % 2)
  }

  /** Sectors of all FAT copies together, without wrap-around. */
  function FatSectors(b: BootRecord): nat {
    if b.numFats == 2 then 2 * b.fatSz else b.fatSz
  }

  /** The reserved, FAT and root sectors of a record, without wrap-around. */
  function SystemSectors(b: BootRecord): nat {
    b.rsvdSecCnt as int + FatSectors(b) + b.rootEntCnt / 16
  }

  /** The same sum as DWORD arithmetic computes it. */
  function Sysect(b: BootRecord): Dword {
    W32(b.rsvdSecCnt as int + W32(FatSectors(b)) + b.rootEntCnt / 16)
  }

  function Clusters(b: BootRecord): (n: nat)
    requires b.secPerClus > 0
  {
    if b.totSec < Sysect(b) then 0 else Quotient(b.totSec - Sysect(b), b.secPerClus)
  }

  predicate Plausible(b: BootRecord) {
    && b.bytesPerSec == 512
    && (b.numFats == 1 || b.numFats == 2)
    && SingleBit(b.secPerClus)
    && b.rootEntCnt % 16 == 0
    && b.rsvdSecCnt != 0
    && Sysect(b) <= b.totSec
    && Clusters(b) != 0
  }

  /** The part of chk_mounted that turns a boot record into a geometry, or refuses it. */
  function Mount(b: BootRecord, bsect: Dword): Option<Geometry> {
    if !Plausible(b) then None
    else
      var kind := KindOf(Clusters(b));
      var nFatent := W32(Clusters(b) + 2);
      var fatbase := W32(bsect + b.rsvdSecCnt);
      if kind.Fat32? != (b.rootEntCnt == 0) then None
      else if b.fatSz < W32(TableBytes(kind, nFatent) + 511) / 512 then None
      else
        Some(Geometry(kind, b.secPerClus, b.numFats, b.rootEntCnt, nFatent, b.fatSz, fatbase,
                      if kind.Fat32? then b.rootClus else W32(fatbase + W32(FatSectors(b))), W32(bsect + Sysect(b))))
  }

  /** Sectors taken by all FAT copies. */
  function FatArea(g: Geometry): nat {
    if g.nFats == 2 then 2 * g.fsize else g.fsize
  }

  /** The regions of the volume follow one another and fit in the sectors below size. */
  predicate Layout(g: Geometry, size: nat) {
    && ClusterSize(g.csize)
    && 1 <= g.nFats <= 2
    && 0 < g.fatbase
    && g.fatbase + FatArea(g) <= g.database
    && 3 <= g.nFatent && g.nFatent + 9 <= Range(g.kind)
    && Offset(g.kind, g.nFatent - 1) + Width(g.kind) <= g.fsize * 512
    && g.database + (g.nFatent - 2) * g.csize <= size <= 0x1_0000_0000
  }

  /** The root directory table of FAT12/16 fills the gap between the FATs and the data. */
  predicate RootTableFits(g: Geometry) {
    if g.kind.Fat32? then g.nRootdir == 0 && g.fatbase + FatArea(g) == g.database
    else g.dirbase == g.fatbase + FatArea(g) && g.dirbase + g.nRootdir / 16 == g.database
  }

  /** The size test of chk_mounted leaves room for the last entry. */
  lemma TableFits(kind: FatKind, n: nat, fsize: nat)
    requires 3 <= n < Range(kind)
    requires fsize >= W32(TableBytes(kind, n) + 511) / 512
    ensures Offset(kind, n - 1) + Width(kind) <= fsize * 512
  {}

  /** The sector a cluster starts at; 0 for a number that names no cluster (clust2sect). */
  function ClustToSect(g: Geometry, c: Dword): Dword {
    if c < 2 || c >= g.nFatent then 0 else W32((c - 2) * g.csize + g.database)
  }

  /** What a mounted volume is used for: the FATs, the root table and the data follow on each other behind the boot
      sector, the FAT has room for every entry, the mark ends a chain, and counting sectors from the start of any
      cluster, in a DWORD, gives the sectors of the volume that belong to it. */
  ghost predicate Serves(g: Geometry, bsect: Dword, size: Dword) {
    && bsect < g.fatbase && RootTableFits(g)
    && 3 <= g.nFatent <= EOC_MARK % Range(g.kind)
    && (forall c :: 2 <= c < g.nFatent ==> Offset(g.kind, c) + Width(g.kind) <= g.fsize * 512)
    && AllSectorsServe(g, bsect + size)
  }

  /** Sector k of cluster c is where it belongs. */
  ghost predicate SectorServes(g: Geometry, end: nat, c: Dword, k: nat) {
    W32(ClustToSect(g, c) + k) == g.database + (c - 2) * g.csize + k < end
  }

  ghost predicate AllSectorsServe(g: Geometry, end: nat) {
    forall c: Dword, k: nat :: 2 <= c < g.nFatent && k < g.csize ==> SectorServes(g, end, c, k)
  }

  /** Nothing computed from a record wraps around: the end of the system area, the end of the last cluster, and the
      number of entries, of which an entry keeps 28 bits. */
  predicate NoWrap(b: BootRecord, bsect: Dword) {
    && SystemSectors(b) < 0x1_0000_0000
    && (b.secPerClus > 0 ==>
          && bsect + SystemSectors(b) + Clusters(b) * b.secPerClus <= 0x1_0000_0000
          && Clusters(b) + 2 <= 0x0FFF_FFFF)
  }

  /** The numbers of an accepted record of which nothing wraps around. */
  lemma MountNumbers(b: BootRecord, bsect: Dword, g: Geometry)
    requires Mount(b, bsect) == Some(g) && NoWrap(b, bsect)
    ensures FatArea(g) == FatSectors(b) && g.csize == b.secPerClus && g.nFatent == Clusters(b) + 2
    ensures g.fatbase == bsect + b.rsvdSecCnt && g.database == bsect + SystemSectors(b) && RootTableFits(g)
    ensures g.database + (g.nFatent - 2) * g.csize <= bsect + b.totSec
    ensures g.database + (g.nFatent - 2) * g.csize <= 0x1_0000_0000
  {
    QuotientBound(b.totSec - Sysect(b), b.secPerClus);
    CompareTimes(0, Clusters(b), b.secPerClus);
  }

  /** Conversely, regions that follow on each other show that the system area did not wrap around. */
  lemma SystemFits(b: BootRecord, bsect: Dword, g: Geometry)
    requires Mount(b, bsect) == Some(g) && bsect < g.fatbase && RootTableFits(g) && 3 <= g.nFatent
    ensures SystemSectors(b) < 0x1_0000_0000
    ensures g.database == bsect + SystemSectors(b) && g.nFatent == Clusters(b) + 2 && g.csize == b.secPerClus
  {
    QuotientBound(b.totSec - Sysect(b), b.secPerClus);
  }

  lemma SectorFits(g: Geometry, end: nat, c: Dword, k: nat)
    requires 2 <= c < g.nFatent && k < g.csize
    requires g.database + (g.nFatent - 2) * g.csize <= end && g.database + (g.nFatent - 2) * g.csize <= 0x1_0000_0000
    ensures SectorServes(g, end, c, k)
  {
    CompareTimes(c - 2, g.nFatent - 2, g.csize);
  }

  /** The last sector of the last cluster, where it belongs, is the end of the data area. */
  lemma LastSectorServes(g: Geometry, end: nat)
    requires 3 <= g.nFatent <= 0x1_0000_0000 && 0 < g.csize && AllSectorsServe(g, end)
    ensures g.database + (g.nFatent - 2) * g.csize <= 0x1_0000_0000
  {
    assert SectorServes(g, end, g.nFatent - 1, g.csize - 1);
    assert (g.nFatent - 2) * g.csize == (g.nFatent - 3) * g.csize + g.csize;
  }

  lemma AcceptedTable(b: BootRecord, bsect: Dword, g: Geometry)
    requires Mount(b, bsect) == Some(g) && NoWrap(b, bsect)
    ensures g.fsize >= W32(TableBytes(g.kind, g.nFatent) + 511) / 512 && 3 <= g.nFatent < Range(g.kind)
    ensures g.nFatent <= EOC_MARK % Range(g.kind)
  {
    hide TableBytes;
    MountNumbers(b, bsect, g);
  }

  lemma EntriesFit(b: BootRecord, bsect: Dword, g: Geometry, c: nat)
    requires Mount(b, bsect) == Some(g) && NoWrap(b, bsect) && 2 <= c < g.nFatent
    ensures Offset(g.kind, c) + Width(g.kind) <= g.fsize * 512 && g.nFatent <= EOC_MARK % Range(g.kind)
  {
    hide Mount, NoWrap, TableBytes, Clusters, SystemSectors;
    MountNumbers(b, bsect, g);
    AcceptedTable(b, bsect, g);
    TableFits(g.kind, g.nFatent, g.fsize);
    assert Offset(g.kind, c) <= Offset(g.kind, g.nFatent - 1);
  }

  lemma NoWrapServes(b: BootRecord, bsect: Dword, g: Geometry)
    requires Mount(b, bsect) == Some(g) && NoWrap(b, bsect)
    ensures Serves(g, bsect, b.totSec)
  {
    hide Mount, NoWrap, SectorServes, Offset, RootTableFits;
    AcceptedSizes(b, bsect, g);
    MountNumbers(b, bsect, g);
    forall c | 2 <= c < g.nFatent
      ensures Offset(g.kind, c) + Width(g.kind) <= g.fsize * 512
    {
      EntriesFit(b, bsect, g, c);
    }
    EntriesFit(b, bsect, g, 2);
    var end := bsect + b.totSec;
    forall c: Dword, k: nat | 2 <= c < g.nFatent && k < g.csize
      ensures SectorServes(g, end, c, k)
    {
      SectorFits(g, end, c, k);
    }
  }

  lemma ServesNoWrap(b: BootRecord, bsect: Dword, g: Geometry)
    requires Mount(b, bsect) == Some(g) && Serves(g, bsect, b.totSec)
    ensures NoWrap(b, bsect)
  {
    hide Mount, SectorServes, Offset, RootTableFits, SystemSectors, Clusters;
    AcceptedSizes(b, bsect, g);
    SystemFits(b, bsect, g);
    LastSectorServes(g, bsect + b.totSec);
  }

  lemma AcceptedSizes(b: BootRecord, bsect: Dword, g: Geometry)
    requires Mount(b, bsect) == Some(g)
    ensures 0 < b.secPerClus && 0 < Clusters(b) && 0 < b.rsvdSecCnt && g.nFatent < 0x1_0000_0000 && g.csize == b.secPerClus
  {}

  /** An accepted record describes a volume that serves exactly when nothing wraps around. */
  lemma MountServesIff(b: BootRecord, bsect: Dword, g: Geometry)
    requires Mount(b, bsect) == Some(g)
    ensures NoWrap(b, bsect) <==> Serves(g, bsect, b.totSec)
  {
    hide Mount, NoWrap, Serves;
    if NoWrap(b, bsect) {
      NoWrapServes(b, bsect, g);
    }
    if Serves(g, bsect, b.totSec) {
      ServesNoWrap(b, bsect, g);
    }
  }

  /** The layout that the other modules start from, for volumes of up to 2^32 sectors and entry numbers below those
      that mark bad clusters. */
  lemma MountLayout(b: BootRecord, bsect: Dword, g: Geometry)
    requires Mount(b, bsect) == Some(g) && NoWrap(b, bsect)
    ensures bsect + b.totSec <= 0x1_0000_0000 && Clusters(b) + 2 <= 0x0FFF_FFF7 <==> Layout(g, bsect + b.totSec)
  {
    ClearLowestBit(b.secPerClus);
    ClusterSizes(b.secPerClus);
    MountNumbers(b, bsect, g);
    EntriesFit(b, bsect, g, g.nFatent - 1);
  }

  /** A record whose two FATs of 0x80000000 sectors wrap to nothing is accepted all the same. */
  lemma WrappingRecordIsAccepted()
    ensures var b := BootRecord(512, 0x8000_0000, 2, 1, 16, 100, 1, 0);
            Mount(b, 0).Some? && !Serves(Mount(b, 0).value, 0, b.totSec)
  {
    ClearLowestBit(1);
    var b := BootRecord(512, 0x8000_0000, 2, 1, 16, 100, 1, 0);
    MountServesIff(b, 0, Mount(b, 0).value);
  }

  /** The cluster a data sector belongs to. */
  function ClusterOf(g: Geometry, s: nat): nat
    requires g.csize > 0 && g.database <= s
  {
    Quotient(s - g.database, g.csize) + 2
  }

  /** A cluster starts in the data area and ends there. */
  lemma ClusterStart(g: Geometry, size: nat, c: Dword)
    requires Layout(g, size) && 2 <= c < g.nFatent
    ensures ClustToSect(g, c) == (c - 2) * g.csize + g.database
    ensures 0 < g.database <= ClustToSect(g, c) && ClustToSect(g, c) + g.csize <= size
  {
    hide Offset;
    CompareTimes(c - 2, g.nFatent - 2, g.csize);
  }

  lemma ClusterOfSector(g: Geometry, c: nat, k: nat)
    requires 2 <= c && k < g.csize
    ensures g.database <= (c - 2) * g.csize + g.database + k
    ensures ClusterOf(g, (c - 2) * g.csize + g.database + k) == c
  {
    DivMod((c - 2) * g.csize + k, g.csize, c - 2, k);
  }

  /** Every sector of every cluster lies in the data area and belongs to that cluster only. */
  lemma ClusterSectors(g: Geometry, size: nat, c: Dword, k: nat)
    requires Layout(g, size) && 2 <= c < g.nFatent && k < g.csize
    ensures ClustToSect(g, c) == (c - 2) * g.csize + g.database
    ensures 0 < g.database <= ClustToSect(g, c) + k < size
    ensures ClusterOf(g, ClustToSect(g, c) + k) == c
  {
    hide Layout, ClustToSect, ClusterOf;
    ClusterStart(g, size, c);
    ClusterOfSector(g, c, k);
  }

  /** The last-link mark reads back as "no next cluster" on each of the three kinds. */
  lemma MarkEndsChain(g: Geometry, size: nat)
    requires Layout(g, size)
    ensures EOC_MARK % Range(g.kind) >= g.nFatent
  {}
}
