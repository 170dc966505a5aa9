/** Volumes on which a failing transfer does harm that the error codes do not tell. */
module FatFailures {
  import opened Arithmetic
  import opened FatTable
  import opened FatGeometry
  import opened SectorBytes
  import opened FatVolume
  import opened FatChains
  import opened FatAlloc

  /** put_fat on a freshly mounted volume whose first transfer fails: the window is left dirty, and what it holds
      would be written over the boot sector. */
  method FirstStoreFails(g: Geometry, disk: seq<Sector>, fails: nat -> bool, win: Sector, clst: Dword, val: Dword)
    returns (fs: Volume, res: FResult)
    requires Layout(g, |disk|) && fails(0) && 2 <= clst < g.nFatent
    ensures res == DiskErr && fs.wflag && fs.winsect == 0 && fs.win == win && !Valid(fs.Now())
  {
    hide Layout, Valid, StoreFails;
    fs := new Volume(g, disk, fails, win, 0, UNKNOWN);
    Unwritable(fs.Now());
    res := fs.PutFat(clst, val);
  }

  lemma Unwritable(a: State)
    requires Valid(a) && a.winsect == 0
    ensures !Rewritable(a)
  {}

  /** A FAT16 volume of three clusters with one FAT. */
  const SMALL := Geometry(Fat16, 1, 1, 16, 5, 1, 1, 2, 3)

  /** Cluster 2 links to 3, 3 ends the chain, 4 is free. */
  const LINKED: Sector := seq(512, i => if i == 4 then 3 else if i == 6 || i == 7 then 255 else 0)

  const BLANK: Sector := seq(512, _ => 0)

  const SMALL_DISK: seq<Sector> := [BLANK, LINKED, BLANK, BLANK, BLANK, BLANK]

  lemma SmallLayout()
    ensures Layout(SMALL, |SMALL_DISK|)
  {}

  /** The table of a volume that looks like this through the window. */
  lemma SmallTable(a: State)
    requires Valid(a) && a.g == SMALL && a.disk == SMALL_DISK && !a.wflag
    ensures |Fat(a)| == 5 && Fat(a)[2] == 3 && Fat(a)[3] == 0xFFFF && Fat(a)[4] == 0
  {
    var t := FatVolume.Table(a);
    assert forall b :: 0 <= b < 512 ==> t[b] == LINKED[b];
  }

  ghost predicate IsLinked(f: Table) { |f| == 5 && f[2] == 3 && f[3] == 0xFFFF && f[4] == 0 }

  lemma LinkedAllocates(f: Table, r: Dword, f': Table)
    requires IsLinked(f) && Allocated(f, 2, 2, 0xFFFF, r, f')
    ensures r == 4 && f' == f[4 := 0xFFFF][2 := 4]
  {
    assert IsCluster(f, 4);
  }

  lemma LinkedChains(f: Table)
    requires IsLinked(f)
    ensures IsChain(f, [2, 3])
    ensures var t := f[4 := 0xFFFF][2 := 4];
            IsChain(t, [2, 4]) && IsChain(t, [3]) && !HasPredecessor(t, 3)
  {}

  lemma LinkedCreates(a: State, r: Dword, f': Table)
    requires Valid(a) && a.g == SMALL && a.fails(a.ops) && a.winsect == 0 && !a.wflag && IsLinked(Fat(a))
    requires Created(a, 0, 2, r, f') && r != DISK_ERROR
    ensures ReadFails(a, 2) && r == 4 && f' == Fat(a)[4 := 0xFFFF][2 := 4]
  {
    hide Valid, Fat, Allocated, Damaged;
    LinkedAllocates(Fat(a), r, f');
  }

  /** create_chain called on cluster 2 when only the first transfer fails: it returns cluster 4 and no error, links it
      behind cluster 2, and cuts cluster 3 off from its chain. */
  method DiskErrorCutsChain() returns (fs: Volume, r: Dword, ghost f: Table)
    ensures fs.fails == FIRST_FAILS && r == 4
    ensures IsLinked(f) && IsChain(f, [2, 3])
    ensures Valid(fs.Now()) && Fat(fs.Now()) == f[4 := 0xFFFF][2 := 4]
    ensures IsChain(Fat(fs.Now()), [2, 4]) && IsChain(Fat(fs.Now()), [3]) && !HasPredecessor(Fat(fs.Now()), 3)
  {
    hide Valid, Layout, Fat, Created, IsChain, HasPredecessor, ReadFails;
    SmallLayout();
    fs := new Volume(SMALL, SMALL_DISK, FIRST_FAILS, BLANK, 0, UNKNOWN);
    ghost var a := fs.Now();
    SmallTable(a);
    f := Fat(a);
    LinkedChains(f);
    ghost var read;
    r, read := CreateChain(fs, 2);
    SmallReadFails(a);
    LinkedCreates(a, r, Fat(fs.Now()));
  }

  const FIRST_FAILS: nat -> bool := n => n == 0

  lemma SmallReadFails(a: State)
    requires a.g == SMALL && a.fails(a.ops) && a.winsect == 0 && !a.wflag
    ensures ReadFails(a, 2)
  {}
}
