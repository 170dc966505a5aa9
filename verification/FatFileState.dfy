/** An open file at one moment, and the byte string it stands for.

    The file's data lie in the sectors of its cluster chain, one of which may be held in the
    file's own buffer and be newer there than on the drive.
 */
module FatFileState {
  import opened Arithmetic
  import opened FatTable
  import opened FatGeometry
  import opened FatVolume
  import opened SectorBytes
  import opened FatChains
  import opened FatAlloc

  /** The fields of FIL, the volume, the file's chain and the other chains of the volume. */
  datatype FileState = FileState(
    vol: State, dirty: bool, fptr: Dword, fsize: Dword, sclust: Dword, clust: Dword, dsect: nat, buf: Sector,
    chain: seq<nat>, rest: set<seq<nat>>)

  /** Sectors in the chain. */
  ghost function Cap(x: FileState): nat { |x.chain| * x.vol.g.csize }

  /** The cluster that holds sector i of the file. */
  ghost function ClusterAt(x: FileState, i: nat): nat
  {
    if x.vol.g.csize > 0 && Quotient(i, x.vol.g.csize) < |x.chain| then x.chain[Quotient(i, x.vol.g.csize)] else 0
  }

  /** Where on the drive sector i of the file lies. */
  ghost function SectAt(x: FileState, i: nat): nat
  {
    if x.vol.g.csize > 0 && 2 <= ClusterAt(x, i) then
      (ClusterAt(x, i) - 2) * x.vol.g.csize + x.vol.g.database + Remainder(i, x.vol.g.csize)
    else 0
  }

  /** A sector of the data area that belongs to one of the given clusters. */
  ghost predicate Owned(g: Geometry, chain: seq<nat>, s: nat) {
    g.csize > 0 && g.database <= s && ClusterOf(g, s) in chain
  }

  ghost function AllChains(x: FileState): set<seq<nat>> {
    if x.chain == [] then x.rest else x.rest + {x.chain}
  }

  /** The drive as it will be once the file's buffer is written back. */
  ghost function Over(x: FileState): (d: seq<Sector>)
    ensures |d| == |x.vol.disk|
  {
    if x.dirty && x.dsect < |x.vol.disk| then x.vol.disk[x.dsect := x.buf] else x.vol.disk
  }

  /** The sectors of the file, in order. */
  ghost function Sectors(x: FileState): (s: seq<Sector>)
    ensures |s| == Cap(x)
  {
    seq(Cap(x), i requires 0 <= i < Cap(x) => SectorOr0(Over(x), SectAt(x, i)))
  }

  ghost function SectorOr0(d: seq<Sector>, s: nat): Sector {
    if s < |d| then d[s] else seq(512, _ => 0)
  }

  /** The chain of the file is one of the chains of the volume. */
  ghost predicate ChainInv(x: FileState) {
    && Tidy(x.vol)
    && Decomposes(Fat(x.vol), AllChains(x))
    && x.chain !in x.rest
    && x.sclust == if x.chain == [] then 0 else x.chain[0]
  }

  /** The buffer is what the drive holds, unless it is marked dirty; the window is elsewhere. */
  ghost predicate BufInv(x: FileState) {
    && (x.dsect == 0 ==> !x.dirty)
    && (x.dsect != 0 ==> Owned(x.vol.g, x.chain, x.dsect) && x.dsect < |x.vol.disk|)
    && (x.dsect != 0 && !x.dirty ==> x.buf == x.vol.disk[x.dsect])
    && !Owned(x.vol.g, x.chain, x.vol.winsect)
  }

  /** clust and dsect belong to the file position. */
  ghost predicate PosInv(x: FileState) {
    && x.fptr <= 512 * Cap(x)
    && (x.fptr > 0 ==> x.clust == ClusterAt(x, (x.fptr - 1) / 512))
    && (x.fptr % 512 != 0 ==> x.dsect == SectAt(x, x.fptr / 512))
  }

  ghost predicate Inv(x: FileState): (r: bool)
    ensures r ==> Tidy(x.vol) && x.fsize <= 512 * Cap(x)
  {
    ChainInv(x) && BufInv(x) && PosInv(x) && x.fsize <= 512 * Cap(x)
  }

  /** The chain is good and holds the size. */
  ghost predicate Held(x: FileState) {
    ChainInv(x) && x.fsize <= 512 * Cap(x)
  }

  /** The bytes of the file. */
  ghost function Content(x: FileState): (b: seq<Byte>)
    requires x.fsize <= 512 * Cap(x)
    ensures |b| == x.fsize
  {
    Flat(Sectors(x))[..x.fsize]
  }

  // ---- where sectors lie -------------------------------------------------------------------

  lemma ChainClusters(x: FileState, c: nat)
    requires ChainInv(x) && c in x.chain
    ensures 2 <= c < x.vol.g.nFatent && c < 0x1_0000_0000 && x.vol.g.csize > 0 && Layout(x.vol.g, |x.vol.disk|)
  {
    assert x.chain in AllChains(x);
    assert IsChain(Fat(x.vol), x.chain);
  }

  /** Sector i of the file: its cluster, its place and the cluster its place belongs to. */
  lemma Place(x: FileState, i: nat)
    requires ChainInv(x) && i < Cap(x)
    ensures var g := x.vol.g;
            && g.csize > 0 && Quotient(i, g.csize) < |x.chain|
            && ClusterAt(x, i) == x.chain[Quotient(i, g.csize)]
            && 2 <= ClusterAt(x, i) < g.nFatent
            && SectAt(x, i) == ClustToSect(g, ClusterAt(x, i)) + Remainder(i, g.csize)
            && 0 < g.database <= SectAt(x, i) < |x.vol.disk|
            && ClusterOf(g, SectAt(x, i)) == ClusterAt(x, i)
            && Owned(g, x.chain, SectAt(x, i))
  {
    hide ChainInv, Layout, ClustToSect, ClusterOf, Quotient, Remainder;
    var c := x.vol.g.csize;
    assert x.chain != [];
    ChainClusters(x, x.chain[0]);
    QuotientLess(i, |x.chain|, c);
    var k := x.chain[Quotient(i, c)];
    ChainClusters(x, k);
    ClusterSectors(x.vol.g, |x.vol.disk|, k, Remainder(i, c));
  }

  lemma PlaceInjective(x: FileState, i: nat, j: nat)
    requires ChainInv(x) && i < Cap(x) && j < Cap(x) && SectAt(x, i) == SectAt(x, j)
    ensures i == j
  {
    hide ChainInv, ClusterOf, Quotient, Remainder, Owned, ClusterAt;
    var c := x.vol.g.csize;
    Place(x, i);
    Place(x, j);
    ChainOnce(x, Quotient(i, c), Quotient(j, c));
    QuotientRemainder(i, c);
    QuotientRemainder(j, c);
  }

  lemma ChainOnce(x: FileState, p: nat, q: nat)
    requires ChainInv(x) && p < |x.chain| && q < |x.chain| && x.chain[p] == x.chain[q]
    ensures p == q
  {
    assert x.chain in AllChains(x);
    OnceOnly(Fat(x.vol), x.chain, p, q);
  }

  /** The sectors of one cluster follow one another on the drive. */
  lemma Contiguous(x: FileState, i: nat, j: nat)
    requires ChainInv(x) && i < Cap(x) && x.vol.g.csize > 0 && Remainder(i, x.vol.g.csize) + j < x.vol.g.csize
    ensures i + j < Cap(x) && SectAt(x, i + j) == SectAt(x, i) + j && ClusterAt(x, i + j) == ClusterAt(x, i)
  {
    hide ChainInv, ClusterOf, Owned, ClustToSect;
    var c := x.vol.g.csize;
    Place(x, i);
    var q, r := Quotient(i, c), Remainder(i, c);
    QuotientRemainder(i, c);
    DivMod(i + j, c, q, r + j);
    assert |x.chain| * c == q * c + (|x.chain| - q) * c;
    AtLeastOne(|x.chain| - q, c);
  }

  // ---- what the steps of a transfer do -----------------------------------------------------

  /** y is a later state of the same file: its chain may have grown, and no sector outside it
      differs when seen through the window. */
  ghost predicate Later(x: FileState, y: FileState) {
    && y.vol.g == x.vol.g && |y.vol.disk| == |x.vol.disk| && y.rest == x.rest && x.chain <= y.chain
    && x.vol.ops <= y.vol.ops && y.vol.fails == x.vol.fails
    && Valid(x.vol) && Valid(y.vol)
    && forall s :: x.vol.g.database <= s < |x.vol.disk| && !Owned(x.vol.g, y.chain, s) ==> View(y.vol)[s] == View(x.vol)[s]
  }

  lemma LaterTrans(x: FileState, y: FileState, z: FileState)
    requires Later(x, y) && Later(y, z)
    ensures Later(x, z) && x.vol.ops <= y.vol.ops <= z.vol.ops
  {
    hide Valid, View;
    forall s | x.vol.g.database <= s < |x.vol.disk| && !Owned(x.vol.g, z.chain, s)
      ensures View(z.vol)[s] == View(x.vol)[s]
    {
      assert !Owned(x.vol.g, y.chain, s);
    }
  }

  /** Writing data sectors behind the window's back leaves the volume valid and the FAT alone. */
  lemma DataWrite(a: State, b: State)
    requires Valid(a) && b == a.(disk := b.disk, ops := b.ops) && |b.disk| == |a.disk|
    requires forall s :: 0 <= s < |a.disk| && (s < a.g.database || s == a.winsect) ==> b.disk[s] == a.disk[s]
    ensures Valid(b) && Fat(b) == Fat(a)
    ensures forall s :: 0 <= s < |a.disk| && b.disk[s] == a.disk[s] ==> View(b)[s] == View(a)[s]
  {
    FatInVolume(a.g, |a.disk|);
    var v, w := View(a), View(b);
    assert forall s :: 0 <= s < a.g.database ==> v[s] == w[s];
    SameFat(a.g, v, w);
  }

  lemma SameFat(g: Geometry, v: seq<Sector>, w: seq<Sector>)
    requires Layout(g, |v|) && |v| == |w| && forall s :: 0 <= s < g.database <= |v| ==> v[s] == w[s]
    requires g.fatbase + g.fsize <= g.database <= |v|
    ensures TableOf(g, v) == TableOf(g, w)
  {}

  lemma CapGrows(x: FileState, y: FileState)
    requires y.vol.g == x.vol.g && x.chain <= y.chain
    ensures Cap(x) <= Cap(y)
  {
    var c := x.vol.g.csize;
    assert |y.chain| * c == |x.chain| * c + (|y.chain| - |x.chain|) * c;
  }

  lemma SameCap(x: FileState, y: FileState)
    requires y.vol.g == x.vol.g && y.chain == x.chain
    ensures Cap(y) == Cap(x)
  {}

  lemma SamePlace(x: FileState, y: FileState, i: nat)
    requires ChainInv(x) && i < Cap(x) && y.vol.g == x.vol.g && x.chain <= y.chain
    ensures ClusterAt(y, i) == ClusterAt(x, i) && SectAt(y, i) == SectAt(x, i)
    ensures 0 < SectAt(x, i) < |x.vol.disk| && Owned(x.vol.g, x.chain, SectAt(x, i))
  {
    hide ChainInv, ClusterOf, Quotient, Remainder, Owned, ClustToSect;
    Place(x, i);
  }

  /** The sectors of the file read the same in two states that agree where the file lies. */
  lemma SameSectors(x: FileState, y: FileState)
    requires ChainInv(x) && y.vol.g == x.vol.g && x.chain == y.chain && |y.vol.disk| == |x.vol.disk|
    requires forall s :: 0 <= s < |x.vol.disk| && Owned(x.vol.g, x.chain, s) ==> Over(y)[s] == Over(x)[s]
    ensures Sectors(y) == Sectors(x)
  {
    hide Sectors, Over, Owned, ChainInv;
    SamePrefix(x, y);
    assert Sectors(y)[..Cap(x)] == Sectors(y);
  }

  lemma SamePrefix(x: FileState, y: FileState)
    requires ChainInv(x) && y.vol.g == x.vol.g && x.chain <= y.chain && |y.vol.disk| == |x.vol.disk|
    requires forall s :: 0 <= s < |x.vol.disk| && Owned(x.vol.g, x.chain, s) ==> Over(y)[s] == Over(x)[s]
    ensures Cap(x) <= Cap(y) && Sectors(y)[..Cap(x)] == Sectors(x)
  {
    hide ChainInv, SectAt, ClusterAt, Owned, Over, Cap;
    CapGrows(x, y);
    forall i | 0 <= i < Cap(x)
      ensures Sectors(y)[i] == Sectors(x)[i]
    {
      SamePlace(x, y, i);
    }
  }

  /** What holds throughout a call, also while clust and dsect run ahead of the file position. */
  ghost predicate Core(x: FileState): (r: bool)
    ensures r ==> Tidy(x.vol)
  {
    ChainInv(x) && BufInv(x)
  }

  /** What a call that fails leaves: the chain and the bytes of before, though the buffer may not be good any more. */
  ghost predicate Kept(x: FileState, y: FileState) {
    Later(x, y) && ChainInv(y) && y.chain == x.chain && y.fsize == x.fsize && Sectors(y) == Sectors(x)
  }

  lemma KeptSelf(x: FileState)
    requires ChainInv(x)
    ensures Kept(x, x)
  {}

  lemma KeptTrans(x: FileState, y: FileState, z: FileState)
    requires Later(x, y) && y.chain == x.chain && y.fsize == x.fsize && Sectors(y) == Sectors(x) && Kept(y, z)
    ensures Kept(x, z)
  {
    hide Later, ChainInv, Sectors;
    LaterTrans(x, y, z);
  }

  /** A sector could not be read into a clean buffer. */
  lemma Spoiled(x: FileState, y: FileState)
    requires Core(x) && !x.dirty && x.vol.ops <= y.vol.ops && y == x.(buf := y.buf, vol := x.vol.(ops := y.vol.ops))
    ensures Kept(x, y)
  {
    hide View, Valid, Fat, Decomposes, Owned, Later, Tidy, ChainInv, Sectors;
    OwnData(x, y);
    SameSectors(x, y);
  }

  lemma NotOwned(x: FileState, s: nat)
    requires s < x.vol.g.database
    ensures !Owned(x.vol.g, x.chain, s)
  {}

  /** y differs from x at most in the file's buffer and in the sectors of its chain. */
  ghost predicate OwnDataOnly(x: FileState, y: FileState) {
    && y.vol == x.vol.(disk := y.vol.disk, ops := y.vol.ops) && |y.vol.disk| == |x.vol.disk| && x.vol.ops <= y.vol.ops
    && y.chain == x.chain && y.rest == x.rest && y.sclust == x.sclust
    && forall s :: 0 <= s < |x.vol.disk| && !Owned(x.vol.g, x.chain, s) ==> y.vol.disk[s] == x.vol.disk[s]
  }

  lemma OwnData(x: FileState, y: FileState)
    requires Core(x) && OwnDataOnly(x, y)
    ensures ChainInv(y) && Later(x, y)
  {
    hide View, Valid, Fat, Owned;
    forall s | 0 <= s < x.vol.g.database
      ensures !Owned(x.vol.g, x.chain, s)
    {
      NotOwned(x, s);
    }
    DataWrite(x.vol, y.vol);
  }

  /** A FAT access that changes no entry. */
  lemma FatAccess(x: FileState, b: State)
    requires Core(x) && Steady(x.vol, b) && Fat(b) == Fat(x.vol)
    ensures var y := x.(vol := b);
            Core(y) && Later(x, y) && Sectors(y) == Sectors(x)
  {
    var y := x.(vol := b);
    FatAccessBuf(x, b);
    hide View, Valid, Fat, Owned, BufInv, Sectors;
    assert ChainInv(y);
    SameSectors(x, y);
  }

  lemma FatAccessBuf(x: FileState, b: State)
    requires Core(x) && Steady(x.vol, b)
    ensures BufInv(x.(vol := b)) && Later(x, x.(vol := b))
    ensures forall s :: 0 <= s < |b.disk| && Owned(x.vol.g, x.chain, s) ==> Over(x.(vol := b))[s] == Over(x)[s]
  {
    hide Fat, Decomposes;
    FatInVolume(b.g, |b.disk|);
    if b.winsect < b.g.database {
      NotOwned(x, b.winsect);
    }
  }

  /** Writing the dirty buffer back. */
  lemma Flushed(x: FileState, y: FileState)
    requires Core(x) && x.dirty && x.dsect < |x.vol.disk| && x.vol.ops <= y.vol.ops
    requires y == x.(dirty := false, vol := x.vol.(disk := x.vol.disk[x.dsect := x.buf], ops := y.vol.ops))
    ensures Core(y) && Later(x, y) && Sectors(y) == Sectors(x)
  {
    hide View, Valid, Fat, Decomposes, Owned, Later, Sectors, Tidy, ChainInv;
    OwnData(x, y);
    SameSectors(x, y);
  }

  /** Loading a sector of the file into a clean buffer. */
  lemma Filled(x: FileState, y: FileState, i: nat)
    requires Core(x) && !x.dirty && i < Cap(x) && SectAt(x, i) < |x.vol.disk| && x.vol.ops <= y.vol.ops
    requires y == x.(dsect := SectAt(x, i), buf := x.vol.disk[SectAt(x, i)], vol := x.vol.(ops := y.vol.ops))
    ensures Core(y) && Later(x, y) && Sectors(y) == Sectors(x) && y.buf == Sectors(x)[i]
  {
    hide View, Valid, Fat, Decomposes, Owned, Later, Tidy, ChainInv, SectAt, Cap;
    Place(x, i);
    OwnData(x, y);
    SameSectors(x, y);
  }

  /** Changing the buffered sector of the file. */
  lemma Patched(x: FileState, y: FileState, i: nat)
    requires Core(x) && i < Cap(x) && (x.dirty ==> x.dsect == SectAt(x, i))
    requires y == x.(dsect := SectAt(x, i), buf := y.buf, dirty := true)
    ensures Core(y) && Later(x, y) && Sectors(y) == Sectors(x)[i := y.buf]
  {
    hide View, Valid, Fat, Decomposes, Owned, Later, Tidy, ChainInv, SectAt, Cap, ClusterAt;
    Place(x, i);
    OwnData(x, y);
    SameCap(x, y);
    forall j | 0 <= j < Cap(x)
      ensures Sectors(y)[j] == Sectors(x)[i := y.buf][j]
    {
      SamePlace(x, y, j);
      if SectAt(x, j) == SectAt(x, i) {
        PlaceInjective(x, i, j);
      }
    }
  }

  /** Writing whole sectors of one cluster straight to the drive. */
  lemma WrittenThrough(x: FileState, y: FileState, i: nat, data: seq<Sector>)
    requires Core(x) && !x.dirty && i < Cap(x) && data != [] && x.vol.ops <= y.vol.ops
    requires x.vol.g.csize > 0 && Remainder(i, x.vol.g.csize) + |data| <= x.vol.g.csize
    requires SectAt(x, i) + |data| <= |x.vol.disk|
    requires y == x.(buf := y.buf, vol := x.vol.(disk := Splice(x.vol.disk, SectAt(x, i), data), ops := y.vol.ops))
    requires y.buf == if SectAt(x, i) <= x.dsect < SectAt(x, i) + |data| then data[x.dsect - SectAt(x, i)] else x.buf
    ensures Core(y) && Later(x, y) && i + |data| <= Cap(x)
    ensures Sectors(y) == Splice(Sectors(x), i, data)
  {
    hide View, Valid, Fat, Decomposes, Owned, Later, Tidy, ChainInv, SectAt, Cap, ClusterAt, Remainder, Quotient;
    ClusterRun(x, i, |data|);
    OwnData(x, y);
    SameCap(x, y);
    forall j | 0 <= j < Cap(x)
      ensures Sectors(y)[j] == Splice(Sectors(x), i, data)[j]
    {
      SamePlace(x, y, j);
      if SectAt(x, i) <= SectAt(x, j) < SectAt(x, i) + |data| {
        PlaceInjective(x, j, i + (SectAt(x, j) - SectAt(x, i)));
      }
    }
  }

  /** A run of sectors within one cluster. */
  lemma ClusterRun(x: FileState, i: nat, n: nat)
    requires ChainInv(x) && i < Cap(x) && x.vol.g.csize > 0 && n > 0 && Remainder(i, x.vol.g.csize) + n <= x.vol.g.csize
    ensures i + n <= Cap(x)
    ensures forall j :: i <= j < i + n ==> SectAt(x, j) == SectAt(x, i) + (j - i)
    ensures forall s :: SectAt(x, i) <= s < SectAt(x, i) + n ==> Owned(x.vol.g, x.chain, s)
  {
    hide ChainInv, SectAt, Cap, ClusterAt, Remainder, Quotient, Owned;
    InRun(x, i, n - 1);
    forall j | i <= j < i + n
      ensures SectAt(x, j) == SectAt(x, i) + (j - i)
    {
      InRun(x, i, j - i);
    }
    forall s | SectAt(x, i) <= s < SectAt(x, i) + n
      ensures Owned(x.vol.g, x.chain, s)
    {
      InRun(x, i, s - SectAt(x, i));
    }
  }

  lemma InRun(x: FileState, i: nat, k: nat)
    requires ChainInv(x) && i < Cap(x) && x.vol.g.csize > 0 && Remainder(i, x.vol.g.csize) + k < x.vol.g.csize
    ensures i + k < Cap(x) && SectAt(x, i + k) == SectAt(x, i) + k && Owned(x.vol.g, x.chain, SectAt(x, i) + k)
  {
    hide ChainInv, SectAt, Cap, ClusterAt, Remainder, Quotient, Owned;
    Contiguous(x, i, k);
    Place(x, i + k);
  }

  /** The last cluster of the chain; 0 when there is none. */
  ghost function LastOf(chain: seq<nat>): nat {
    if chain == [] then 0 else chain[|chain| - 1]
  }

  /** The file with cluster r appended to its chain. */
  ghost function Stretched(x: FileState, b: State, r: Dword): FileState {
    x.(vol := b, chain := x.chain + [r], sclust := if x.chain == [] then r else x.sclust)
  }

  lemma StretchedChains(x: FileState, f: Table, r: Dword, e: Dword)
    requires LastOf(x.chain) < 0x1_0000_0000 && (x.chain != [] ==> IsCluster(f, LastOf(x.chain)))
    requires IsFree(f, r) && e >= |f| && x.chain !in x.rest && Decomposes(f, AllChains(x))
    ensures Decomposes(Grown(f, LastOf(x.chain), r, e), x.rest + {x.chain + [r]})
    ensures x.chain + [r] !in x.rest
  {
    hide IsChain, Disjoint, Covered, Decomposes;
    if x.chain == [] {
      Allocate(f, x.rest, r, e);
      assert x.chain + [r] == [r];
    } else {
      ChainFacts(f, AllChains(x), x.chain);
      Extend(f, AllChains(x), x.chain, r, e);
      assert x.rest + {x.chain} - {x.chain} == x.rest;
    }
    if x.chain + [r] in x.rest {
      assert r in x.chain + [r];
      FreshCluster(f, AllChains(x), x.chain + [r], r);
    }
  }

  lemma ChainFacts(f: Table, chains: set<seq<nat>>, ch: seq<nat>)
    requires Decomposes(f, chains) && ch in chains
    ensures IsChain(f, ch) && ch[|ch| - 1] != 0
  {
    assert IsChain(f, ch);
  }

  lemma FreshCluster(f: Table, chains: set<seq<nat>>, ch: seq<nat>, r: nat)
    requires Decomposes(f, chains) && ch in chains && IsFree(f, r)
    ensures r !in ch
  {
    assert IsChain(f, ch);
    FreeIsOutside(f, ch, r);
  }

  /** create_chain gave the file a new last cluster. */
  lemma Appended(x: FileState, b: State, r: Dword, e: Dword)
    requires Core(x) && Steady(x.vol, b) && Tidy(b) && InFat(b.g, b.winsect)
    requires LastOf(x.chain) < 0x1_0000_0000 && (x.chain != [] ==> IsCluster(Fat(x.vol), LastOf(x.chain)))
    requires IsFree(Fat(x.vol), r) && e >= |Fat(x.vol)| && Fat(b) == Grown(Fat(x.vol), LastOf(x.chain), r, e)
    ensures var y := Stretched(x, b, r);
            && Core(y) && Later(x, y)
            && Cap(y) == Cap(x) + x.vol.g.csize
            && Sectors(y)[..Cap(x)] == Sectors(x)
  {
    var y := Stretched(x, b, r);
    hide IsChain, Disjoint, Covered, Decomposes, Fat, Valid, View, Sectors, Owned;
    StretchedChains(x, Fat(x.vol), r, e);
    assert (|x.chain| + 1) * x.vol.g.csize == |x.chain| * x.vol.g.csize + x.vol.g.csize;
    AppendedBuf(x, b, r);
    SamePrefix(x, y);
  }

  lemma AppendedBuf(x: FileState, b: State, r: Dword)
    requires Core(x) && Steady(x.vol, b) && InFat(b.g, b.winsect)
    ensures var y := Stretched(x, b, r);
            && BufInv(y) && Later(x, y)
            && forall s :: 0 <= s < |b.disk| && Owned(x.vol.g, x.chain, s) ==> Over(y)[s] == Over(x)[s]
  {
    hide Fat, Decomposes;
    FatInVolume(b.g, |b.disk|);
    NotOwned(Stretched(x, b, r), b.winsect);
  }

  // ---- the file position and the current cluster --------------------------------------------

  /** At a cluster boundary, clust is the cluster before the one the file position stands at. */
  lemma AtBoundary(x: FileState)
    requires Inv(x) && x.fptr > 0 && x.fptr % 512 == 0
    requires x.vol.g.csize > 0 && Remainder(x.fptr / 512, x.vol.g.csize) == 0
    ensures var i := x.fptr / 512;
            var q := Quotient(i, x.vol.g.csize);
            && 0 < q <= |x.chain| && x.clust == x.chain[q - 1]
            && (q == |x.chain| <==> x.fptr == 512 * Cap(x))
            && (q < |x.chain| ==> i < Cap(x) && ClusterAt(x, i) == x.chain[q])
  {
    hide ChainInv, BufInv, Quotient, Remainder, SectAt;
    DivMod(x.fptr - 1, 512, x.fptr / 512 - 1, 511);
    AtMultiple(x.fptr / 512, x.vol.g.csize, |x.chain|);
  }

  /** Inside a cluster, clust is the cluster the file position stands in. */
  lemma InsideCluster(x: FileState)
    requires Inv(x) && x.fptr % 512 == 0
    requires x.vol.g.csize > 0 && Remainder(x.fptr / 512, x.vol.g.csize) != 0
    ensures x.fptr / 512 < Cap(x) && x.clust == ClusterAt(x, x.fptr / 512)
  {
    hide ChainInv, BufInv, Quotient, Remainder, SectAt;
    OffMultiple(x.fptr / 512, x.vol.g.csize, |x.chain|);
    DivMod(x.fptr - 1, 512, x.fptr / 512 - 1, 511);
  }

  /** Inside a sector, the buffer holds the sector the file position stands in. */
  lemma InsideSector(x: FileState)
    requires Inv(x) && x.fptr % 512 != 0
    ensures x.fptr / 512 < Cap(x) && x.clust == ClusterAt(x, x.fptr / 512) && x.dsect == SectAt(x, x.fptr / 512)
  {
    hide ChainInv, BufInv, ClusterAt, SectAt, Cap;
    assert (x.fptr - 1) / 512 == x.fptr / 512;
  }

  /** Moving the file position within the sector in the buffer. */
  lemma AdvanceInSector(x: FileState, n: nat)
    requires Core(x) && x.fptr / 512 < Cap(x) && 0 < n <= 512 - x.fptr % 512 && x.fptr + n < 0x1_0000_0000
    requires x.clust == ClusterAt(x, x.fptr / 512) && x.dsect == SectAt(x, x.fptr / 512)
    ensures PosInv(x.(fptr := x.fptr + n))
  {
    hide Core, ClusterAt, SectAt, Cap;
    var y, i, o := x.(fptr := x.fptr + n), x.fptr / 512, x.fptr % 512;
    SameView(x, y, i);
    DivMod(y.fptr - 1, 512, i, o + n - 1);
    if o + n < 512 {
      DivMod(y.fptr, 512, i, o + n);
    } else {
      DivMod(y.fptr, 512, i + 1, 0);
    }
  }

  /** Moving the file position over whole sectors of one cluster. */
  lemma AdvanceInCluster(x: FileState, n: nat)
    requires Core(x) && x.fptr % 512 == 0 && x.fptr / 512 < Cap(x) && x.clust == ClusterAt(x, x.fptr / 512)
    requires x.vol.g.csize > 0 && n > 0 && Remainder(x.fptr / 512, x.vol.g.csize) + n <= x.vol.g.csize
    requires x.fptr + 512 * n < 0x1_0000_0000
    ensures PosInv(x.(fptr := x.fptr + 512 * n))
  {
    hide ClusterAt, SectAt, Cap, BufInv, ChainInv, Remainder;
    var y, i := x.(fptr := x.fptr + 512 * n), x.fptr / 512;
    Contiguous(x, i, n - 1);
    SameView(x, y, i + n - 1);
    DivMod(y.fptr - 1, 512, i + n - 1, 511);
    DivMod(y.fptr, 512, i + n, 0);
  }

  lemma SameView(x: FileState, y: FileState, i: nat)
    requires y.vol.g == x.vol.g && y.chain == x.chain
    ensures Cap(y) == Cap(x) && ClusterAt(y, i) == ClusterAt(x, i) && SectAt(y, i) == SectAt(x, i)
  {}

  lemma DirtyInside(x: FileState)
    requires Core(x) && x.dirty
    ensures 0 < x.dsect < |x.vol.disk|
  {}

  lemma LaterSelf(x: FileState)
    requires Core(x)
    ensures Later(x, x)
  {}

  /** The table entry of the q-th cluster of the file. */
  lemma ChainEntry(x: FileState, q: nat)
    requires Core(x) && q < |x.chain|
    ensures IsCluster(Fat(x.vol), x.chain[q]) && x.chain[q] < 0x1_0000_0000
    ensures if q == |x.chain| - 1 then Fat(x.vol)[x.chain[q]] >= |Fat(x.vol)| && LastOf(x.chain) == x.chain[q]
            else Fat(x.vol)[x.chain[q]] == x.chain[q + 1] && IsCluster(Fat(x.vol), x.chain[q + 1])
  {
    hide Fat, Tidy, BufInv;
    assert x.chain in AllChains(x);
    assert IsChain(Fat(x.vol), x.chain);
  }

  lemma NoClusters(x: FileState)
    requires Core(x)
    ensures x.sclust == 0 <==> x.chain == []
    ensures x.chain != [] ==> x.sclust == x.chain[0]
  {
    if x.chain != [] {
      ChainEntry(x, 0);
    }
  }

  /** A sector of the file that is in the buffer. */
  lemma BufferedSector(x: FileState, i: nat)
    requires Core(x) && i < Cap(x) && x.dsect == SectAt(x, i)
    ensures x.buf == Sectors(x)[i]
  {
    hide ChainInv, SectAt, Cap;
    Place(x, i);
  }

  /** A sector of the file that is not in a dirty buffer. */
  lemma StoredSector(x: FileState, i: nat)
    requires Core(x) && i < Cap(x) && !x.dirty
    ensures SectAt(x, i) < |x.vol.disk| && Sectors(x)[i] == x.vol.disk[SectAt(x, i)]
  {
    hide ChainInv, SectAt, Cap;
    Place(x, i);
  }

  /** clust2sect of the current cluster plus the sector offset is the place of the sector. */
  lemma CurrentSector(x: FileState, i: nat)
    requires Core(x) && i < Cap(x) && x.clust == ClusterAt(x, i)
    ensures ClustToSect(x.vol.g, x.clust) != 0 && x.vol.g.csize > 0
    ensures ClustToSect(x.vol.g, x.clust) + Remainder(i, x.vol.g.csize) == SectAt(x, i)
  {
    hide BufInv, SectAt, Cap, ClusterAt, Remainder, ClustToSect, ChainInv;
    Place(x, i);
    ClusterSectors0(x, x.clust);
  }

  lemma ClusterSectors0(x: FileState, c: Dword)
    requires Core(x) && 2 <= c < x.vol.g.nFatent
    ensures ClustToSect(x.vol.g, c) != 0
  {
    ClusterSectors(x.vol.g, |x.vol.disk|, c, 0);
  }

  /** y is x with another file position, size or current cluster. */
  ghost predicate Moved(x: FileState, y: FileState) {
    y == x.(fptr := y.fptr, fsize := y.fsize, clust := y.clust)
  }

  lemma MovedPlaces(x: FileState, y: FileState)
    requires Moved(x, y)
    ensures Cap(y) == Cap(x) && Over(y) == Over(x)
    ensures forall i: nat :: ClusterAt(y, i) == ClusterAt(x, i)
    ensures forall i: nat :: SectAt(y, i) == SectAt(x, i)
  {
    hide Quotient, Remainder;
    forall i: nat
      ensures ClusterAt(y, i) == ClusterAt(x, i) && SectAt(y, i) == SectAt(x, i)
    {
      SameView(x, y, i);
    }
  }

  lemma MovedKeeps(w: FileState, x: FileState, y: FileState)
    requires Core(x) && Moved(x, y) && Later(w, x)
    ensures Core(y) && Later(w, y) && Sectors(y) == Sectors(x) && Cap(y) == Cap(x)
    ensures forall i: nat :: ClusterAt(y, i) == ClusterAt(x, i)
    ensures forall i: nat :: SectAt(y, i) == SectAt(x, i)
  {
    hide ClusterAt, SectAt, Cap, Owned, Over, View, Valid, Tidy, Decomposes, Fat;
    MovedPlaces(x, y);
  }

  /** The file position stays good when neither it nor the chain moves. */
  lemma StaysPut(x: FileState, y: FileState)
    requires Inv(x) && Core(y) && y.chain == x.chain && y.vol.g == x.vol.g && y.dsect == x.dsect
    requires y.fptr == x.fptr && y.fsize == x.fsize && y.clust == x.clust
    ensures Inv(y) && Cap(y) == Cap(x)
  {
    hide ChainInv, BufInv;
    if x.fptr > 0 {
      SameView(x, y, (x.fptr - 1) / 512);
    }
    SameView(x, y, x.fptr / 512);
  }

  lemma EmptyFile(x: FileState)
    ensures x.chain == [] ==> Cap(x) == 0
  {}

  lemma InCap(x: FileState, i: nat)
    requires x.vol.g.csize > 0 && Quotient(i, x.vol.g.csize) < |x.chain|
    ensures i < Cap(x) && ClusterAt(x, i) == x.chain[Quotient(i, x.vol.g.csize)]
  {
    QuotientRemainder(i, x.vol.g.csize);
    CompareTimes(Quotient(i, x.vol.g.csize), |x.chain|, x.vol.g.csize);
  }

  lemma MakeInv(x: FileState, y: FileState, n: nat)
    requires Inv(x) && Core(y) && y.fptr + n < 0x1_0000_0000 && PosInv(y.(fptr := y.fptr + n))
    requires Cap(x) <= Cap(y) && y.fsize == x.fsize
    ensures Inv(y.(fptr := y.fptr + n)) && Sectors(y.(fptr := y.fptr + n)) == Sectors(y)
  {
    hide PosInv, ChainInv, BufInv, Later, Cap, Sectors;
    LaterSelf(y);
    MovedKeeps(y, y, y.(fptr := y.fptr + n));
  }

  /** A disk read alone changes nothing. */
  lemma LaterInTime(x: FileState, y: FileState, p: Dword)
    requires Core(x) && y == x.(vol := x.vol.(ops := y.vol.ops)) && x.vol.ops <= y.vol.ops
    ensures Core(y) && Later(x, y) && Sectors(y) == Sectors(x) && Cap(y) == Cap(x)
    ensures PosInv(x.(fptr := p)) ==> PosInv(y.(fptr := p))
  {
    hide Valid, View, Tidy, Fat, Owned, Steady, ChainInv, BufInv, Later, Sectors, Cap, ClusterAt, SectAt;
    Idle(x.vol, y.vol.ops);
    SteadyFat(x.vol, y.vol);
    FatAccess(x, y.vol);
    SameView(x.(fptr := p), y.(fptr := p), p / 512);
    if p > 0 {
      SameView(x.(fptr := p), y.(fptr := p), (p - 1) / 512);
    }
    SameCap(x, y);
  }

  /** One sector of the file: in the buffer if that is newer, else on the drive. */
  lemma SectorValue(x: FileState, i: nat)
    requires Core(x) && i < Cap(x)
    ensures SectAt(x, i) < |x.vol.disk|
    ensures Sectors(x)[i] == if x.dirty && x.dsect == SectAt(x, i) then x.buf else x.vol.disk[SectAt(x, i)]
  {
    hide ChainInv, SectAt, Cap, Owned;
    Place(x, i);
  }

  /** The sector of the drive that sector k of a file with the given chain is. */
  ghost function Home(g: Geometry, chain: seq<nat>, k: nat): nat {
    if g.csize > 0 && k / g.csize < |chain| && 2 <= chain[k / g.csize] then
      g.database + (chain[k / g.csize] - 2) * g.csize + k % g.csize
    else 0
  }

  lemma HomeIs(x: FileState, k: nat)
    requires ChainInv(x) && k < Cap(x)
    ensures 0 < SectAt(x, k) < |x.vol.disk| && SectAt(x, k) == Home(x.vol.g, x.chain, k)
  {
    hide ChainInv, Owned, ClustToSect, ClusterOf, Cap;
    Place(x, k);
  }

  lemma ContentSector(x: FileState, p: nat)
    requires Inv(x) && p < x.fsize
    ensures p / 512 < Cap(x) && Content(x)[p] == Sectors(x)[p / 512][p % 512]
  {
    hide BufInv, PosInv, ChainInv, Sectors, Cap, Flat;
    var k, o := p / 512, p % 512;
    FlatPart(Sectors(x), k, o, o + 1);
    assert Flat(Sectors(x))[p] == Flat(Sectors(x))[512 * k + o..512 * k + (o + 1)][0];
  }

  /** Where byte p of the file is: in the sector that belongs to it by its cluster, which may be newer in the buffer. */
  lemma ContentAt(x: FileState, p: nat)
    requires Inv(x) && p < x.fsize
    ensures var s := Home(x.vol.g, x.chain, p / 512);
            && 0 < s < |x.vol.disk|
            && Content(x)[p] == if x.dirty && x.dsect == s then x.buf[p % 512] else x.vol.disk[s][p % 512]
  {
    hide BufInv, PosInv, ChainInv, Sectors, Cap, SectAt, Home, Content;
    ContentSector(x, p);
    HomeIs(x, p / 512);
    SectorValue(x, p / 512);
  }

  // ---- seeking -----------------------------------------------------------------------------

  /** The seek stands at the start of the k-th cluster. */
  ghost predicate AtCluster(x: FileState, k: nat) {
    k < |x.chain| && x.clust == x.chain[k] && x.fptr == k * x.vol.g.csize * 512
  }

  /** Where the file position's cluster starts. */
  lemma SeekFromHere(x: FileState)
    requires Inv(x) && x.fptr > 0 && x.vol.g.csize > 0
    ensures var k := (x.fptr - 1) / (512 * x.vol.g.csize);
            && k == Quotient((x.fptr - 1) / 512, x.vol.g.csize)
            && k < |x.chain| && x.clust == x.chain[k]
            && k * x.vol.g.csize * 512 == (x.fptr - 1) - (x.fptr - 1) % (512 * x.vol.g.csize)
  {
    hide ChainInv, BufInv, SectAt, Quotient, Remainder;
    var c := x.vol.g.csize;
    DivideTwice(x.fptr - 1, c);
    QuotientLess((x.fptr - 1) / 512, |x.chain|, c);
  }

  /** Sector q of the k-th cluster. */
  lemma InCluster(x: FileState, k: nat, c: Dword, q: nat, i: nat)
    requires k < |x.chain| && c == x.chain[k] && q < x.vol.g.csize && i == k * x.vol.g.csize + q && Core(x)
    ensures i < Cap(x) && ClusterAt(x, i) == c && SectAt(x, i) == ClustToSect(x.vol.g, c) + q
  {
    hide ChainInv, BufInv, ClustToSect, ClusterOf, Owned, SectAt, ClusterAt, Cap;
    DivMod(i, x.vol.g.csize, k, q);
    InCap(x, i);
    Place(x, i);
  }

  /** The sector of a byte within a run of sectors. */
  lemma SectorOfByte(start: nat, ofs: nat)
    requires ofs > 0
    ensures (start * 512 + ofs - 1) / 512 == start + (ofs - 1) / 512
    ensures (start * 512 + ofs) / 512 == start + ofs / 512 && (start * 512 + ofs) % 512 == ofs % 512
    ensures ofs % 512 != 0 ==> ofs / 512 == (ofs - 1) / 512
  {
    DivMod(start * 512 + ofs - 1, 512, start + (ofs - 1) / 512, (ofs - 1) % 512);
    DivMod(start * 512 + ofs, 512, start + ofs / 512, ofs % 512);
  }

  /** Landing within the k-th cluster: the file position, the cluster and the sector agree. */
  lemma Landing(x: FileState, k: nat, ofs: nat)
    requires Core(x) && AtCluster(x, k) && 0 < ofs <= 512 * x.vol.g.csize && x.fptr + ofs < 0x1_0000_0000
    ensures var p := x.fptr + ofs;
            && p <= 512 * Cap(x) && (p - 1) / 512 < Cap(x)
            && x.clust == ClusterAt(x, (p - 1) / 512)
            && (p % 512 != 0 <==> ofs % 512 != 0)
            && (ofs % 512 != 0 ==> p / 512 < Cap(x) && SectAt(x, p / 512) == ClustToSect(x.vol.g, x.clust) + ofs / 512)
  {
    hide Core, ClustToSect, SectAt, ClusterAt, Cap;
    SectorOfByte(k * x.vol.g.csize, ofs);
    InCluster(x, k, x.clust, (ofs - 1) / 512, k * x.vol.g.csize + (ofs - 1) / 512);
  }

  /** The file position is at the start of sector sect, the csect-th of the current cluster. */
  ghost predicate OnSector(x: FileState, sect: nat, csect: nat) {
    && x.fptr % 512 == 0 && x.fptr / 512 < Cap(x) && x.clust == ClusterAt(x, x.fptr / 512)
    && sect == SectAt(x, x.fptr / 512) && x.vol.g.csize > 0 && csect == Remainder(x.fptr / 512, x.vol.g.csize)
  }
}
