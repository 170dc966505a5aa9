/** f_read, f_write and f_lseek on one open file. */
module FatFile {
  import opened Arithmetic
  import opened FatTable
  import opened FatGeometry
  import opened SectorBytes
  import opened FatVolume
  import opened FatChains
  import opened FatAlloc
  import opened FatFileState

  /** The byte string t comes from s by writing d at p; only the first n bytes of s count. */
  ghost predicate Wrote(s: seq<Byte>, t: seq<Byte>, p: nat, d: seq<Byte>, n: nat) {
    && |s| <= |t| && p + |d| <= |t|
    && (forall k :: p <= k < p + |d| ==> t[k] == d[k - p])
    && (forall k :: 0 <= k < n && k < |s| && !(p <= k < p + |d|) ==> t[k] == s[k])
  }

  /** What copying into the buffered sector does to the byte string. */
  lemma PatchWrote(x: FileState, i: nat, ofs: nat, d: seq<Byte>)
    requires i < Cap(x) && ofs + |d| <= 512 && x.fptr == 512 * i + ofs
    requires x.buf == Sectors(x)[i] || (ofs == 0 && x.fsize <= x.fptr)
    ensures var s := Sectors(x);
            Wrote(Flat(s), Flat(s[i := Splice(x.buf, ofs, d)]), x.fptr, d, if x.fsize > x.fptr then x.fsize else x.fptr)
  {
    hide Sectors, Cap, Flat;
    var s: seq<Sector> := Sectors(x);
    if x.buf == s[i] {
      FlatPatch(s, i, ofs, d);
    } else {
      EdgeWrote(s, i, Splice(x.buf, ofs, d), d);
    }
  }

  /** A sector filled from its start, whatever the rest of it holds. */
  lemma EdgeWrote(s: seq<Sector>, i: nat, w: Sector, d: seq<Byte>)
    requires i < |s| && |d| <= 512 && w[..|d|] == d
    ensures Wrote(Flat(s), Flat(s[i := w]), 512 * i, d, 512 * i)
  {
    hide Flat;
    var f := Flat(s[i := w]);
    forall k | 0 <= k < 512 * i
      ensures f[k] == Flat(s)[k]
    {
      FlatBefore(s, i, w, k);
    }
    FlatPart(s[i := w], i, 0, |d|);
    forall k | 512 * i <= k < 512 * i + |d|
      ensures f[k] == d[k - 512 * i]
    {
      assert f[k] == f[512 * i..512 * i + |d|][k - 512 * i];
    }
  }

  /** The sectors of a transfer that stays within the cluster. */
  lemma RunInside(x: FileState, i: nat, n: nat)
    requires Core(x) && i < Cap(x) && x.vol.g.csize > 0 && n > 0 && Remainder(i, x.vol.g.csize) + n <= x.vol.g.csize
    ensures i + n <= Cap(x) && SectAt(x, i) + n <= |x.vol.disk|
  {
    hide BufInv, ChainInv, SectAt, Cap, Remainder;
    InRun(x, i, n - 1);
    Place(x, i + (n - 1));
  }

  lemma CsizeFacts(x: FileState)
    requires Core(x)
    ensures x.vol.g.csize > 0 && PowerOf2(x.vol.g.csize)
    ensures forall i: nat :: Remainder(i, x.vol.g.csize) == i % x.vol.g.csize
  {
    ClusterSizes(x.vol.g.csize);
  }

  lemma WroteFrom(s: seq<Sector>, t: seq<Sector>, u: seq<Sector>, p: nat, d: seq<Byte>, n: nat)
    requires |s| <= |t| && t[..|s|] == s && Wrote(Flat(t), Flat(u), p, d, n)
    ensures Wrote(Flat(s), Flat(u), p, d, n)
  {
    hide Flat;
    FlatPrefix(s, t);
    assert forall k :: 0 <= k < |Flat(s)| ==> Flat(s)[k] == Flat(t)[..512 * |s|][k];
  }

  /** Sectors behind the written ones do not matter. */
  lemma WroteGrew(s: seq<Byte>, t: seq<Sector>, u: seq<Sector>, p: nat, d: seq<Byte>, n: nat)
    requires |t| <= |u| && u[..|t|] == t && Wrote(s, Flat(t), p, d, n)
    ensures Wrote(s, Flat(u), p, d, n)
  {
    hide Flat;
    FlatPrefix(t, u);
    assert forall k :: 0 <= k < |Flat(t)| ==> Flat(t)[k] == Flat(u)[..512 * |t|][k];
  }

  lemma WroteLess(s: seq<Byte>, t: seq<Byte>, p: nat, d: seq<Byte>, m: nat, n: nat)
    requires n <= m && Wrote(s, t, p, d, m)
    ensures Wrote(s, t, p, d, n)
  {}

  lemma SpliceWrote(s: seq<Byte>, p: nat, d: seq<Byte>, n: nat)
    requires p + |d| <= |s|
    ensures Wrote(s, Splice(s, p, d), p, d, n)
  {}

  lemma WroteTrans(s: seq<Byte>, t: seq<Byte>, u: seq<Byte>, p: nat, d: seq<Byte>, e: seq<Byte>, n: nat)
    requires p <= n <= |s| && Wrote(s, t, p, d, n)
    requires Wrote(t, u, p + |d|, e, if n > p + |d| then n else p + |d|)
    ensures Wrote(s, u, p, d + e, n)
  {}

  lemma WroteNothing(s: seq<Byte>, p: nat, n: nat)
    requires p <= |s|
    ensures Wrote(s, s, p, [], n)
  {}

  /** s with d written over it from p on; writing past the end makes it longer. */
  ghost function Overwritten(s: seq<Byte>, p: nat, d: seq<Byte>): (r: seq<Byte>)
    requires p <= |s|
    ensures |r| == if p + |d| <= |s| then |s| else p + |d|
  {
    if p + |d| <= |s| then Splice(s, p, d) else s[..p] + d
  }

  /** The bytes of y are those of x with d written at the file position of x, as far as the size of y goes. */
  ghost predicate Overwrites(x: FileState, y: FileState, d: seq<Byte>) {
    && x.fptr <= x.fsize <= 512 * Cap(x) && y.fsize <= 512 * Cap(y)
    && y.fsize <= |Overwritten(Content(x), x.fptr, d)| && Content(y) == Overwritten(Content(x), x.fptr, d)[..y.fsize]
  }

  lemma OverwritesWith(x: FileState, y: FileState, d: seq<Byte>)
    requires x.fptr <= x.fsize <= 512 * Cap(x) && x.fsize <= y.fsize <= 512 * Cap(y)
    requires Wrote(Flat(Sectors(x)), Flat(Sectors(y)), x.fptr, d, x.fsize)
    requires y.fsize == x.fsize || y.fsize == x.fptr + |d|
    ensures Overwrites(x, y, d)
  {
    hide Wrote, Flat, Sectors, Overwritten, Cap;
    var s, t := Flat(Sectors(x)), Flat(Sectors(y));
    WroteContent(s, t, x.fptr, d, x.fsize);
    if y.fsize == x.fsize {
      WroteCut(s, t, x.fptr, d, x.fsize);
    } else {
      assert t[..y.fsize][..y.fsize] == t[..y.fsize];
    }
  }

  lemma WroteContent(s: seq<Byte>, t: seq<Byte>, p: nat, d: seq<Byte>, n: nat)
    requires p <= n <= |s| && Wrote(s, t, p, d, n)
    ensures t[..if n > p + |d| then n else p + |d|] == Overwritten(s[..n], p, d)
  {}

  /** The same within the old size. */
  lemma WroteCut(s: seq<Byte>, t: seq<Byte>, p: nat, d: seq<Byte>, n: nat)
    requires p <= n <= |s| && Wrote(s, t, p, d, n)
    ensures n <= |Overwritten(s[..n], p, d)| && t[..n] == Overwritten(s[..n], p, d)[..n]
  {
    WroteContent(s, t, p, d, n);
    assert t[..if n > p + |d| then n else p + |d|][..n] == t[..n];
  }

  /** Setting the size to the file position when the file position has passed the end. */
  lemma Resized(x: FileState, y: FileState)
    requires Inv(x) && y == x.(fsize := y.fsize) && (y.fsize == x.fsize || y.fsize == x.fptr)
    ensures Inv(y) && Sectors(y) == Sectors(x) && Cap(y) == Cap(x)
    ensures Later(x, y)
  {
    hide ChainInv, BufInv, Sectors, ClusterAt, SectAt, Cap, Later;
    LaterSelf(x);
    MovedKeeps(x, x, y);
  }

  /** Moving the file position alone. */
  lemma Shifted(w: FileState, x: FileState, y: FileState)
    requires Later(w, x) && Inv(y) && y == x.(fptr := y.fptr)
    ensures Later(w, y) && Sectors(y) == Sectors(x)
  {
    hide ChainInv, BufInv, ClusterAt, SectAt, Cap, PosInv, Valid, View;
    MovedPlaces(x, y);
  }

  /** A run of sectors read from the drive, the dirty one replaced by the buffer. */
  lemma RunRead(x: FileState, i: nat, n: nat)
    requires Core(x) && i < Cap(x) && x.vol.g.csize > 0 && n > 0 && Remainder(i, x.vol.g.csize) + n <= x.vol.g.csize
    requires i + n <= Cap(x) && SectAt(x, i) + n <= |x.vol.disk|
    ensures var sect := SectAt(x, i);
            var raw := x.vol.disk[sect..sect + n];
            Sectors(x)[i..i + n] == if x.dirty && sect <= x.dsect < sect + n then raw[x.dsect - sect := x.buf] else raw
  {
    hide ChainInv, BufInv, SectAt, Cap, Remainder, Owned, Sectors;
    ClusterRun(x, i, n);
    var sect := SectAt(x, i);
    var raw := x.vol.disk[sect..sect + n];
    var got := if x.dirty && sect <= x.dsect < sect + n then raw[x.dsect - sect := x.buf] else raw;
    forall j | i <= j < i + n
      ensures Sectors(x)[j] == got[j - i]
    {
      SectorValue(x, j);
    }
  }

  /** y is a later state in which the file keeps the sectors it had. */
  ghost predicate Grew(x: FileState, y: FileState) {
    Later(x, y) && Cap(x) <= Cap(y) && Sectors(y)[..Cap(x)] == Sectors(x)
  }

  lemma GrewTrans(x: FileState, y: FileState, z: FileState)
    requires Grew(x, y) && Grew(y, z)
    ensures Grew(x, z) && x.vol.ops <= y.vol.ops <= z.vol.ops
  {
    hide Later, Sectors, Cap;
    LaterTrans(x, y, z);
    assert Sectors(z)[..Cap(x)] == Sectors(z)[..Cap(y)][..Cap(x)];
  }

  lemma GrewMoved(w: FileState, x: FileState, y: FileState)
    requires Core(x) && Moved(x, y) && Grew(w, x)
    ensures Core(y) && Grew(w, y)
  {
    hide ChainInv, BufInv, Later, Sectors, Cap, ClusterAt, SectAt;
    MovedKeeps(w, x, y);
  }

  lemma GrewSelf(x: FileState)
    requires Core(x)
    ensures Grew(x, x)
  {
    hide ChainInv, BufInv, Later, Sectors;
    LaterSelf(x);
    assert Sectors(x)[..Cap(x)] == Sectors(x);
  }

  lemma GrewTime(x: FileState, y: FileState, z: FileState)
    requires Grew(x, y) && Later(y, z)
    ensures x.vol.ops <= y.vol.ops <= z.vol.ops
  {}

  lemma GrewContent(x: FileState, y: FileState)
    requires Grew(x, y) && x.fsize <= 512 * Cap(x) && x.fsize <= y.fsize <= 512 * Cap(y)
    ensures Content(y)[..x.fsize] == Content(x)
  {
    hide ChainInv, BufInv, PosInv, Later, Sectors, Cap, Flat;
    FlatPrefix(Sectors(x), Sectors(y));
    assert Flat(Sectors(y))[..y.fsize][..x.fsize] == Flat(Sectors(y))[..512 * Cap(x)][..x.fsize];
  }

  /** Starting from the current cluster never overshoots the goal. */
  lemma SeekForward(x: FileState, ofs: nat, bcs: nat) returns (k: nat)
    requires Inv(x) && x.fptr > 0 && ofs > 0 && PowerOf2(x.vol.g.csize) && bcs == 512 * x.vol.g.csize
    requires (ofs - 1) / bcs >= (x.fptr - 1) / bcs
    ensures var p := (x.fptr - 1) - And(x.fptr - 1, bcs - 1);
            0 <= p < ofs && k < |x.chain| && x.clust == x.chain[k] != 0 && p == k * x.vol.g.csize * 512
  {
    hide Inv, And, PowerOf2, Cap, Quotient;
    SeekFromHere(x);
    MaskedStart(ofs - 1, x.fptr - 1, x.vol.g.csize, bcs);
    k := (x.fptr - 1) / bcs;
    ClusterIsSet(x, k);
  }

  lemma MaskedStart(x: nat, y: nat, c: nat, b: nat)
    requires PowerOf2(c) && b == 512 * c && x / b >= y / b
    ensures And(y, b - 1) == y % b && 0 <= y - And(y, b - 1) <= x
  {
    hide And, PowerOf2;
    ClusterBytes(c);
    AndMask(y, b);
    SameClusterStart(x, y, b);
  }

  lemma ClusterIsSet(x: FileState, k: nat)
    requires Inv(x) && k < |x.chain|
    ensures x.chain[k] != 0
  {
    ChainEntry(x, k);
  }

  /** A goal more than a cluster away lies in a later cluster of the chain. */
  lemma MoreClusters(x: FileState, k: nat, goal: nat)
    requires AtCluster(x, k) && goal <= 512 * Cap(x) && goal > x.fptr + 512 * x.vol.g.csize
    ensures k + 1 < |x.chain|
  {
    var c := x.vol.g.csize;
    assert (k + 1) * c == k * c + c;
    if |x.chain| <= k + 1 && c > 0 {
      CompareTimes(|x.chain|, k + 1, c);
    }
  }

  lemma GrewSame(w: FileState, x: FileState, y: FileState)
    requires Grew(w, x) && Later(x, y) && y.chain == x.chain && y.vol.g == x.vol.g && Sectors(y) == Sectors(x)
    ensures Grew(w, y)
  {
    hide Later, Sectors;
    LaterTrans(w, x, y);
  }

  lemma Standing(x: FileState, k: nat)
    requires AtCluster(x, k)
    ensures k < |x.chain| && x.clust == x.chain[k]
  {}

  lemma StandsStill(x: FileState, y: FileState, k: nat)
    requires AtCluster(x, k) && y.chain == x.chain && y.vol.g == x.vol.g && y.clust == x.clust && y.fptr == x.fptr
    ensures AtCluster(y, k)
  {}

  lemma NextCluster(x: FileState, y: FileState, k: nat)
    requires AtCluster(x, k) && y.vol.g == x.vol.g && k + 1 < |y.chain| && y.clust == y.chain[k + 1]
    requires y.fptr == x.fptr + 512 * x.vol.g.csize
    ensures AtCluster(y, k + 1)
  {
    assert (k + 1) * x.vol.g.csize == k * x.vol.g.csize + x.vol.g.csize;
  }

  lemma LandedIn(x: FileState, y: FileState)
    requires y.chain == x.chain && y.vol.g == x.vol.g && y.fptr == x.fptr && y.clust == x.clust
    requires 0 < x.fptr <= 512 * Cap(x) && x.clust == ClusterAt(x, (x.fptr - 1) / 512) && y.dsect == SectAt(x, x.fptr / 512)
    ensures PosInv(y)
  {
    hide Cap, ClusterAt, SectAt;
    SameView(x, y, (x.fptr - 1) / 512);
    SameView(x, y, x.fptr / 512);
  }

  lemma GrewLater(x: FileState, y: FileState)
    requires Grew(x, y)
    ensures Later(x, y)
  {}

  /** What the chain holds bounds the size; nothing shrinks. */
  lemma GrewSize(x: FileState, y: FileState)
    requires Inv(x) && Core(y) && Grew(x, y) && y.fsize == x.fsize
    ensures y.fsize <= 512 * Cap(y) && (PosInv(y) ==> Inv(y))
  {}

  lemma GrewHolds(x: FileState, y: FileState)
    requires Grew(x, y) && x.fsize <= 512 * Cap(x) && y.fsize == x.fsize
    ensures y.fsize <= 512 * Cap(y)
  {}

  lemma AtStart(x: FileState)
    requires x.fptr == 0
    ensures PosInv(x)
  {}

  lemma EndOfChain(x: FileState, k: nat)
    requires AtCluster(x, k) && k == |x.chain| - 1
    ensures x.fptr + 512 * x.vol.g.csize == 512 * Cap(x)
  {
    assert (k + 1) * x.vol.g.csize == k * x.vol.g.csize + x.vol.g.csize;
  }

  class File {
    const fs: Volume
    const canRead: bool
    const canWrite: bool
    const dataFails: nat -> bool
    var error: bool
    var written: bool
    var dirty: bool
    var fptr: Dword
    var fsize: Dword
    var sclust: Dword
    var clust: Dword
    var dsect: nat
    var buf: Sector
    ghost var chain: seq<nat>
    ghost var rest: set<seq<nat>>

    /** No transfer fails, neither one of the window nor one of the file itself, at the moments from a to b. */
    ghost predicate Smooth(a: nat, b: nat) {
      forall n :: a <= n < b ==> !fs.fails(n) && !dataFails(n)
    }

    lemma SmoothParts(a: nat, b: nat, c: nat)
      requires a <= b <= c
      ensures Smooth(a, c) ==> Smooth(a, b) && Smooth(b, c)
    {}

    ghost function Now(): FileState
      reads this, fs
    {
      FileState(fs.Now(), dirty, fptr, fsize, sclust, clust, dsect, buf, chain, rest)
    }

    /** The state f_open leaves: the file position at the start, no sector in the buffer. */
    constructor (fs: Volume, canRead: bool, canWrite: bool, dataFails: nat -> bool, start: Dword, size: Dword,
                 ghost chain: seq<nat>, ghost rest: set<seq<nat>>)
      requires Tidy(fs.Now()) && chain !in rest && start == (if chain == [] then 0 else chain[0])
      requires Decomposes(Fat(fs.Now()), if chain == [] then rest else rest + {chain})
      requires size <= 512 * (|chain| * fs.g.csize) && !Owned(fs.g, chain, fs.winsect)
      ensures Inv(Now()) && fptr == 0 && fsize == size && !error && this.chain == chain && this.rest == rest
      ensures this.fs == fs && this.canRead == canRead && this.canWrite == canWrite && this.dataFails == dataFails
    {
      hide Tidy, Decomposes, Fat, Owned, ClusterAt, SectAt;
      this.fs, this.canRead, this.canWrite, this.dataFails := fs, canRead, canWrite, dataFails;
      error, written, dirty := false, false, false;
      fptr, fsize, sclust, clust, dsect := 0, size, start, 0, 0;
      buf := seq(512, _ => 0);
      this.chain, this.rest := chain, rest;
    }

    /** Writes the file's buffer back if it is dirty. */
    method Flush() returns (ok: bool)
      requires Core(Now())
      modifies this`dirty, fs`ops, fs`disk
      ensures Core(Now()) && Later(old(Now()), Now()) && Sectors(Now()) == Sectors(old(Now()))
      ensures dirty == !ok && (Smooth(old(fs.ops), fs.ops) ==> ok)
    {
      hide ChainInv, BufInv, Later, Sectors, Valid;
      ghost var x := Now();
      ok := true;
      if dirty {
        DirtyInside(x);
        ok := fs.DiskWrite(buf, dsect, dataFails);
        if ok {
          dirty := false;
          Flushed(x, Now());
        } else {
          LaterInTime(x, Now(), fptr);
        }
      } else {
        LaterSelf(x);
      }
    }

    /** create_chain called on the q-th cluster of the file: the next cluster, new if it was the last. */
    method Stretch(c: Dword, ghost q: nat) returns (clst: Dword)
      requires Core(Now()) && NoFaults(fs.fails) && q < |chain| && c == chain[q]
      modifies this`chain, fs
      ensures Core(Now()) && Grew(old(Now()), Now())
      ensures if clst == 0 then chain == old(chain) && q == |chain| - 1 && !HasFree(Fat(fs.Now()))
              else q + 1 < |chain| && clst == chain[q + 1]
    {
      hide ChainInv, BufInv, Later, Sectors, Tidy, Fat, Cap, Steady, Created, ReadFails;
      ghost var x := Now();
      ChainEntry(x, q);
      ghost var hint, read := fs.lastClust, fs.Now();
      clst, read := CreateChain(fs, c);
      SteadyTrans(x.vol, read, fs.Now());
      UsableCreate(x.vol, fs.Now(), hint, c, clst);
      if q == |chain| - 1 && clst != 0 {
        Marks(x.vol, 0);
        chain := chain + [clst];
        Appended(x, fs.Now(), clst, EndMark(fs.g));
      } else {
        FatAccess(x, fs.Now());
        SameCap(x, Now());
      }
    }

    /** create_chain called for a file without clusters. */
    method StretchFirst() returns (clst: Dword)
      requires Core(Now()) && NoFaults(fs.fails) && chain == []
      modifies this`chain, this`sclust, fs
      ensures Core(Now()) && Grew(old(Now()), Now())
      ensures if clst == 0 then chain == [] && !HasFree(Fat(fs.Now())) else chain == [clst]
    {
      hide ChainInv, BufInv, Later, Sectors, Tidy, Fat, Cap, Steady, Created, ReadFails;
      ghost var x := Now();
      NoClusters(x);
      ghost var hint, read := fs.lastClust, fs.Now();
      clst, read := CreateChain(fs, 0);
      SteadyTrans(x.vol, read, fs.Now());
      UsableCreate(x.vol, fs.Now(), hint, 0, clst);
      if clst != 0 {
        Marks(x.vol, 0);
        chain := chain + [clst];
        sclust := clst;
        Appended(x, fs.Now(), clst, EndMark(fs.g));
      } else {
        FatAccess(x, fs.Now());
        SameCap(x, Now());
      }
    }

    /** At a cluster boundary of a file being written: goes on to the next cluster, stretching the
        chain if needed; full says that no cluster is left. */
    method NextClusterForWrite() returns (full: bool)
      requires Inv(Now()) && NoFaults(fs.fails)
      requires fptr % 512 == 0 && fs.g.csize > 0 && Remainder(fptr / 512, fs.g.csize) == 0
      modifies this`sclust, this`clust, this`chain, fs
      ensures Core(Now()) && Grew(old(Now()), Now())
      ensures full ==> Inv(Now()) && chain == old(chain) && fptr == 512 * Cap(Now()) && !HasFree(Fat(fs.Now()))
      ensures !full ==> fptr / 512 < Cap(Now()) && clust == ClusterAt(Now(), fptr / 512)
    {
      ghost var x := Now();
      hide ChainInv, BufInv, PosInv, Later, Sectors, Tidy, Fat, SectAt, ClusterAt, Cap, Quotient, Remainder;
      NoClusters(x);
      LaterSelf(x);
      ghost var q := Quotient(fptr / 512, fs.g.csize);
      var clst: Dword;
      if fptr == 0 {
        QuotientBound(0, fs.g.csize);
        clst := sclust;
        if clst == 0 {
          clst := StretchFirst();
          EmptyFile(Now());
        }
      } else {
        AtBoundary(x);
        clst := Stretch(clust, q - 1);
      }
      if clst == 0 {
        StaysPut(x, Now());
        return true;
      }
      ghost var y := Now();
      clust := clst;
      MovedKeeps(x, y, Now());
      InCap(Now(), fptr / 512);
      full := false;
    }

    /** Writes as many whole sectors as the data and the cluster allow straight to the drive. */
    method WriteThrough(data: seq<Byte>, sect: nat, csect: nat) returns (ok: bool, cnt: nat)
      requires Core(Now()) && !dirty && |data| >= 512 && fptr + |data| < 0x1_0000_0000
      requires OnSector(Now(), sect, csect)
      modifies this`buf, fs`ops, fs`disk
      ensures Core(Now()) && Later(old(Now()), Now()) && Cap(Now()) == Cap(old(Now()))
      ensures ok ==>
                && 0 < cnt <= |data| && PosInv(Now().(fptr := fptr + cnt))
                && Wrote(Flat(Sectors(old(Now()))), Flat(Sectors(Now())), fptr, data[..cnt], 0x1_0000_0000)
      ensures !ok ==> Sectors(Now()) == Sectors(old(Now()))
      ensures Smooth(old(fs.ops), fs.ops) ==> ok
    {
      hide ChainInv, BufInv, PosInv, Later, Sectors, Tidy, Fat, SectAt, ClusterAt, Cap, Quotient, Remainder, Flat,
        Chunks, Wrote;
      ghost var x, i := Now(), fptr / 512;
      var cc := |data| / 512;
      if csect + cc > fs.g.csize {
        cc := fs.g.csize - csect;
      }
      RunInside(x, i, cc);
      var chunks := Chunks(data[..512 * cc], cc);
      ok := fs.DiskWriteMany(chunks, sect, dataFails);
      if !ok {
        LaterInTime(x, Now(), fptr);
        return false, 0;
      }
      if sect <= dsect < sect + cc {
        buf := chunks[dsect - sect];
      }
      WrittenThrough(x, Now(), i, chunks);
      FlatRun(Sectors(x), i, data[..512 * cc], cc);
      SpliceWrote(Flat(Sectors(x)), 512 * i, data[..512 * cc], 0x1_0000_0000);
      SameView(x, Now(), i);
      AdvanceInCluster(Now(), cc);
      cnt := 512 * cc;
    }

    /** The sector the file position stands at, when it is at the start of one; the buffer is clean then. */
    method SectorForWrite() returns (ok: bool, sect: nat, csect: nat, full: bool)
      requires Inv(Now()) && NoFaults(fs.fails) && fptr % 512 == 0
      modifies this`sclust, this`clust, this`chain, this`dirty, fs
      ensures Core(Now()) && Grew(old(Now()), Now()) && (full ==> ok)
      ensures full ==> Inv(Now()) && chain == old(chain) && fptr == 512 * Cap(Now()) && !HasFree(Fat(fs.Now()))
      ensures ok && !full ==> !dirty && OnSector(Now(), sect, csect)
      ensures Smooth(old(fs.ops), fs.ops) ==> ok
    {
      hide ChainInv, BufInv, PosInv, Later, Sectors, Tidy, Fat, SectAt, ClusterAt, Cap, Quotient, Remainder;
      ghost var x, i := Now(), fptr / 512;
      CsizeFacts(x);
      AndMask(fptr / 512, fs.g.csize);
      csect := And(fptr / 512, fs.g.csize - 1);
      if csect == 0 {
        full := NextClusterForWrite();
        if full {
          return true, 0, 0, true;
        }
      } else {
        InsideCluster(x);
        LaterSelf(x);
      }
      ghost var y := Now();
      ok := Flush();
      SameView(y, Now(), i);
      LaterTrans(x, y, Now());
      CurrentSector(Now(), i);
      sect := ClustToSect(fs.g, clust) + csect;
      full := false;
    }

    /** Loads the sector the file position stands at into the buffer, unless it lies beyond the file. */
    method FillForWrite(sect: nat) returns (ok: bool)
      requires Core(Now()) && !dirty && fptr / 512 < Cap(Now()) && sect == SectAt(Now(), fptr / 512)
      modifies this`buf, this`dsect, fs`ops
      ensures Kept(old(Now()), Now()) && Cap(Now()) == Cap(old(Now()))
      ensures SectAt(Now(), fptr / 512) == sect && ClusterAt(Now(), fptr / 512) == ClusterAt(old(Now()), fptr / 512)
      ensures ok ==> Core(Now()) && (buf == Sectors(Now())[fptr / 512] || fsize <= fptr)
      ensures Smooth(old(fs.ops), fs.ops) ==> ok
    {
      hide ChainInv, BufInv, PosInv, Later, Sectors, Tidy, Fat, SectAt, ClusterAt, Cap;
      ghost var x, i := Now(), fptr / 512;
      LaterSelf(x);
      ok := true;
      if dsect != sect {
        if fptr < fsize {
          ok := Load(sect, i);
          SameView(x, Now(), i);
          if ok {
            BufferedSector(Now(), i);
          }
        }
      } else {
        BufferedSector(x, i);
      }
    }

    /** A first part of data has been written at the file position of x. */
    ghost predicate Advanced(x: FileState, data: seq<Byte>, cnt: nat)
      reads this, fs
    {
      && Later(x, Now()) && 0 < cnt <= |data| && x.fptr + cnt < 0x1_0000_0000 && Inv(Now().(fptr := x.fptr + cnt))
      && Wrote(Flat(Sectors(x)), Flat(Sectors(Now())), x.fptr, data[..cnt], if x.fsize > x.fptr then x.fsize else x.fptr)
    }

    /** No cluster is left for the file, and nothing has changed. */
    ghost predicate Exhausted(x: FileState)
      reads this, fs
    {
      && Inv(Now()) && Later(x, Now()) && chain == x.chain && fptr == 512 * Cap(Now()) && !HasFree(Fat(fs.Now()))
      && Cap(x) == Cap(Now()) && Sectors(Now()) == Sectors(x)
    }

    /** The buffer is about to be patched: it belongs to the sector the file position lies in. */
    ghost predicate Buffered(sect: nat)
      reads this, fs
    {
      && Core(Now()) && fptr / 512 < Cap(Now()) && clust == ClusterAt(Now(), fptr / 512)
      && sect == SectAt(Now(), fptr / 512) && (dirty ==> dsect == sect)
      && (buf == Sectors(Now())[fptr / 512] || (fptr % 512 == 0 && fsize <= fptr))
    }

    /** Copies data into the buffered sector, which becomes the one the file position stands in. */
    method Patch(data: seq<Byte>, sect: nat) returns (cnt: nat)
      requires Buffered(sect) && data != [] && fptr + |data| < 0x1_0000_0000
      modifies this`buf, this`dirty, this`dsect
      ensures Core(Now()) && Later(old(Now()), Now()) && 0 < cnt <= |data| && Cap(Now()) == Cap(old(Now()))
      ensures PosInv(Now().(fptr := fptr + cnt))
      ensures Wrote(Flat(Sectors(old(Now()))), Flat(Sectors(Now())), fptr, data[..cnt], if fsize > fptr then fsize else fptr)
    {
      hide ChainInv, BufInv, PosInv, Later, Sectors, Tidy, Fat, SectAt, ClusterAt, Cap, Quotient, Remainder, Flat;
      ghost var x, i := Now(), fptr / 512;
      dsect := sect;
      var ofs := fptr % 512;
      cnt := 512 - ofs;
      if cnt > |data| {
        cnt := |data|;
      }
      buf := Splice(buf, ofs, data[..cnt]);
      dirty := true;
      Patched(x, Now(), i);
      SameView(x, Now(), i);
      AdvanceInSector(Now(), cnt);
      PatchWrote(x, i, ofs, data[..cnt]);
    }

    /** A transfer has failed, and nothing has changed but that the chain may have grown. */
    ghost predicate Stuck(x: FileState)
      reads this, fs
    {
      Grew(x, Now()) && ChainInv(Now())
    }

    /** At the start of a sector: finds it, and writes whole sectors at once or fills the buffer. */
    method WriteAligned(data: seq<Byte>) returns (ok: bool, sect: nat, cnt: nat, full: bool)
      requires Inv(Now()) && NoFaults(fs.fails) && data != [] && fptr + |data| < 0x1_0000_0000 && fptr % 512 == 0
      modifies this`sclust, this`clust, this`chain, this`buf, this`dirty, this`dsect, fs
      ensures full ==> ok && Exhausted(old(Now()))
      ensures ok && !full && cnt > 0 ==> Advanced(old(Now()), data, cnt)
      ensures ok && !full && cnt == 0 ==> Grew(old(Now()), Now()) && Buffered(sect)
      ensures !ok ==> Stuck(old(Now()))
      ensures old(fs.ops) <= fs.ops && (Smooth(old(fs.ops), fs.ops) ==> ok)
    {
      hide ChainInv, BufInv, PosInv, Later, Sectors, Tidy, Fat, SectAt, ClusterAt, Cap, Quotient, Remainder, Flat, Wrote,
        Smooth;
      ghost var x := Now();
      ghost var n: nat := if fsize > fptr then fsize else fptr;
      var csect;
      ok, sect, csect, full := SectorForWrite();
      ghost var z := Now();
      GrewTime(x, z, z);
      cnt := 0;
      if full {
        SameCap(x, Now());
        assert Sectors(Now())[..Cap(x)] == Sectors(Now());
      } else if !ok {
      } else if |data| / 512 > 0 {
        ok, cnt := WriteThrough(data, sect, csect);
        LaterTrans(x, z, Now());
        SmoothParts(x.vol.ops, z.vol.ops, fs.ops);
        if ok {
          WroteLess(Flat(Sectors(z)), Flat(Sectors(Now())), fptr, data[..cnt], 0x1_0000_0000, n);
          WroteFrom(Sectors(x), Sectors(z), Sectors(Now()), fptr, data[..cnt], n);
          MakeInv(x, Now(), cnt);
        }
      } else {
        ok := FillForWrite(sect);
        LaterTrans(x, z, Now());
        SmoothParts(x.vol.ops, z.vol.ops, fs.ops);
      }
    }

    /** One turn of the loop of f_write: writes a first part of data at the file position. */
    method WriteStep(data: seq<Byte>) returns (ok: bool, cnt: nat, full: bool)
      requires Inv(Now()) && NoFaults(fs.fails) && data != [] && fptr + |data| < 0x1_0000_0000
      modifies this`sclust, this`clust, this`chain, this`buf, this`dirty, this`dsect, fs
      ensures if !ok then Stuck(old(Now())) else if full then Exhausted(old(Now())) else Advanced(old(Now()), data, cnt)
      ensures old(fs.ops) <= fs.ops && (Smooth(old(fs.ops), fs.ops) ==> ok)
    {
      hide ChainInv, BufInv, PosInv, Later, Sectors, Tidy, Fat, SectAt, ClusterAt, Cap, Quotient, Remainder, Flat, Wrote;
      ghost var x := Now();
      ghost var n: nat := if fsize > fptr then fsize else fptr;
      var sect := dsect;
      ok, full, cnt := true, false, 0;
      if fptr % 512 == 0 {
        ok, sect, cnt, full := WriteAligned(data);
        if !ok || full || cnt > 0 {
          return;
        }
      } else {
        InsideSector(x);
        BufferedSector(x, fptr / 512);
        GrewSelf(x);
      }
      ghost var z := Now();
      cnt := Patch(data, sect);
      LaterTrans(x, z, Now());
      WroteFrom(Sectors(x), Sectors(z), Sectors(Now()), fptr, data[..cnt], n);
      MakeInv(x, Now(), cnt);
    }

    /** The loop of f_write: ends when all data are written, no cluster is left, or a transfer fails. */
    method WriteLoop(data: seq<Byte>) returns (ok: bool, bw: nat)
      requires Inv(Now()) && NoFaults(fs.fails) && fptr <= fsize && fsize + |data| < 0x1_0000_0000
      modifies this`sclust, this`clust, this`chain, this`buf, this`dirty, this`dsect, this`fptr, fs
      ensures ChainInv(Now()) && Later(old(Now()), Now()) && bw <= |data| && fptr == old(fptr) + bw
      ensures Wrote(Flat(Sectors(old(Now()))), Flat(Sectors(Now())), old(fptr), data[..bw], fsize)
      ensures ok ==> Inv(Now()) && (bw < |data| ==> fptr == 512 * Cap(Now()) && !HasFree(Fat(fs.Now())))
      ensures !ok ==> fsize <= 512 * Cap(Now()) && bw < |data| && !Smooth(old(fs.ops), fs.ops)
    {
      hide ChainInv, BufInv, PosInv, Later, Sectors, Tidy, Fat, SectAt, ClusterAt, Cap, Flat, Wrote;
      ghost var x := Now();
      ghost var s := Flat(Sectors(x));
      LaterSelf(x);
      WroteNothing(s, fptr, fsize);
      bw := 0;
      while bw < |data|
        invariant Inv(Now()) && Later(x, Now()) && bw <= |data|
        invariant fptr == x.fptr + bw && Wrote(s, Flat(Sectors(Now())), x.fptr, data[..bw], fsize)
      {
        ghost var y := Now();
        var wcnt, full;
        ok, wcnt, full := WriteStep(data[bw..]);
        LaterTrans(x, y, Now());
        if !ok {
          GrewHolds(y, Now());
          WroteGrew(s, Sectors(y), Sectors(Now()), x.fptr, data[..bw], fsize);
          return;
        }
        if full {
          return;
        }
        WroteTrans(s, Flat(Sectors(y)), Flat(Sectors(Now())), x.fptr, data[..bw], data[bw..][..wcnt], fsize);
        assert data[..bw] + data[bw..][..wcnt] == data[..bw + wcnt];
        ghost var z := Now();
        fptr := fptr + wcnt;
        bw := bw + wcnt;
        Shifted(x, z, Now());
      }
      ok := true;
    }

    /** f_write, whatever transfers of the file's own sectors fail.  A failure marks the file; what has been written up to
        there is in it, as far as its size goes, and all other bytes are as they were. */
    method Write(data: seq<Byte>) returns (res: FResult, bw: nat)
      requires Open() && (canWrite ==> NoFaults(fs.fails)) && |data| < 0x1_0000_0000
      modifies this, fs
      ensures Open() && Later(old(Now()), Now()) && bw <= |data| && fptr == old(fptr) + bw
      ensures old(error) ==> res == IntErr && bw == 0 && Now() == old(Now())
      ensures !old(error) && !canWrite ==> res == Denied && bw == 0 && Now() == old(Now())
      ensures !old(error) && canWrite ==> (res == Ok && written) || (res == DiskErr && !Smooth(old(fs.ops), fs.ops))
      ensures error == (old(error) || res == DiskErr)
      ensures !old(error) ==> Overwrites(old(Now()), Now(), data[..bw])
      ensures if res == DiskErr then bw < |data| && fsize == old(fsize)
              else fsize == if fptr > old(fsize) && res != IntErr then fptr else old(fsize)
      ensures res == Ok && old(fsize) + |data| >= 0x1_0000_0000 ==> bw == 0
      ensures res == Ok && bw < |data| && old(fsize) + |data| < 0x1_0000_0000 ==>
                fptr == 512 * Cap(Now()) && !HasFree(Fat(fs.Now()))
    {
      hide ChainInv, BufInv, PosInv, Later, Sectors, Tidy, Fat, SectAt, ClusterAt, Cap, Flat, Wrote, Overwrites, Smooth;
      ghost var x := Now();
      ghost var s := Flat(Sectors(x));
      KeptSelf(x);
      if error {
        return IntErr, 0;
      }
      WroteNothing(s, fptr, fsize);
      OverwritesWith(x, x, []);
      if !canWrite {
        return Denied, 0;
      }
      var ok;
      ok, bw := WriteLoop(if fsize + |data| >= 0x1_0000_0000 then [] else data);
      ghost var z := Now();
      if !ok {
        error := true;
        OverwritesWith(x, Now(), data[..bw]);
        return DiskErr, bw;
      }
      if fptr > fsize {
        fsize := fptr;
      }
      written := true;
      Resized(z, Now());
      OverwritesWith(x, Now(), data[..bw]);
      LaterTrans(x, z, Now());
      res := Ok;
    }

    /** The sector the file position stands at, when it is at the start of one, for a file being read. */
    method SectorForRead() returns (ok: bool, sect: nat, csect: nat)
      requires Inv(Now()) && fptr % 512 == 0 && fptr < fsize
      modifies this`clust, fs`ops, fs`disk, fs`wflag, fs`win, fs`winsect
      ensures Core(Now()) && Later(old(Now()), Now()) && Cap(Now()) == Cap(old(Now())) && Sectors(Now()) == Sectors(old(Now()))
      ensures (ok ==> OnSector(Now(), sect, csect)) && (Smooth(old(fs.ops), fs.ops) ==> ok)
    {
      hide ChainInv, BufInv, PosInv, Later, Sectors, Tidy, Fat, SectAt, ClusterAt, Cap, Quotient, Remainder,
        ReadFails;
      ghost var x, i := Now(), fptr / 512;
      CsizeFacts(x);
      AndMask(fptr / 512, fs.g.csize);
      csect := And(fptr / 512, fs.g.csize - 1);
      NoClusters(x);
      EmptyFile(x);
      LaterSelf(x);
      if csect == 0 {
        var clst;
        ghost var y := x;
        if fptr == 0 {
          QuotientBound(0, fs.g.csize);
          clst := sclust;
        } else {
          AtBoundary(x);
          ChainEntry(x, Quotient(i, fs.g.csize) - 1);
          clst := fs.GetFat(clust);
          y := Now();
          FatAccess(x, fs.Now());
          SameCap(x, y);
          if clst == DISK_ERROR {
            return false, 0, 0;
          }
        }
        clust := clst;
        MovedKeeps(x, y, Now());
        InCap(Now(), i);
      } else {
        InsideCluster(x);
      }
      CurrentSector(Now(), i);
      ok, sect := true, ClustToSect(fs.g, clust) + csect;
    }

    /** Reads cc sectors of one cluster; the one that is newer in the buffer is taken from there. */
    method FetchRun(sect: nat, cc: nat, ghost i: nat) returns (ok: bool, chunks: seq<Sector>)
      requires Core(Now()) && fs.g.csize > 0 && cc > 0 && Remainder(i, fs.g.csize) + cc <= fs.g.csize
      requires i + cc <= Cap(Now()) && sect == SectAt(Now(), i) && sect + cc <= |fs.disk|
      modifies fs`ops
      ensures fs.Now() == old(fs.Now()).(ops := fs.ops) && fs.ops > old(fs.ops)
      ensures ok ==> chunks == Sectors(old(Now()))[i..i + cc]
      ensures Smooth(old(fs.ops), fs.ops) ==> ok
    {
      hide ChainInv, BufInv, Sectors, Fat, SectAt, ClusterAt, Cap, Quotient, Remainder;
      RunRead(Now(), i, cc);
      ok, chunks := fs.DiskReadMany(sect, cc, dataFails);
      if ok && dirty && sect <= dsect < sect + cc {
        chunks := chunks[dsect - sect := buf];
      }
    }

    /** Reads as many whole sectors as are wanted and the cluster holds straight from the drive. */
    method ReadThrough(btr: nat, sect: nat, csect: nat) returns (ok: bool, data: seq<Byte>)
      requires Core(Now()) && btr >= 512 && fptr + btr < 0x1_0000_0000
      requires OnSector(Now(), sect, csect)
      modifies fs`ops
      ensures Core(Now()) && Later(old(Now()), Now()) && Cap(Now()) == Cap(old(Now())) && Sectors(Now()) == Sectors(old(Now()))
      ensures ok ==>
                && 0 < |data| <= btr && fptr + |data| <= 512 * Cap(Now()) && PosInv(Now().(fptr := fptr + |data|))
                && data == Flat(Sectors(Now()))[fptr..fptr + |data|]
      ensures Smooth(old(fs.ops), fs.ops) ==> ok
    {
      hide ChainInv, BufInv, PosInv, Later, Sectors, Tidy, Fat, SectAt, ClusterAt, Cap, Quotient, Remainder, Flat;
      ghost var x, i := Now(), fptr / 512;
      var cc := btr / 512;
      if csect + cc > fs.g.csize {
        cc := fs.g.csize - csect;
      }
      RunInside(x, i, cc);
      FlatSlice(Sectors(x), i, cc);
      AdvanceInCluster(x, cc);
      var chunks;
      ok, chunks := FetchRun(sect, cc, i);
      LaterInTime(x, Now(), fptr + 512 * cc);
      data := if ok then Flat(chunks) else [];
    }

    /** Makes the buffer hold the sector the file position stands at. */
    method FillForRead(sect: nat) returns (ok: bool)
      requires Core(Now()) && fptr / 512 < Cap(Now()) && sect == SectAt(Now(), fptr / 512)
      modifies this`buf, this`dsect, this`dirty, fs`ops, fs`disk
      ensures Kept(old(Now()), Now()) && Cap(Now()) == Cap(old(Now()))
      ensures SectAt(Now(), fptr / 512) == sect && ClusterAt(Now(), fptr / 512) == ClusterAt(old(Now()), fptr / 512)
      ensures ok ==> Core(Now()) && dsect == sect
      ensures Smooth(old(fs.ops), fs.ops) ==> ok
    {
      hide ChainInv, BufInv, PosInv, Later, Sectors, Tidy, Fat, SectAt, ClusterAt, Cap;
      ghost var x, i := Now(), fptr / 512;
      LaterSelf(x);
      ok := true;
      if dsect != sect {
        ok := Flush();
        SameCap(x, Now());
        SameView(x, Now(), i);
        if ok {
          ghost var y := Now();
          ok := Load(sect, i);
          LaterTrans(x, y, Now());
          SameCap(x, Now());
          SameView(x, Now(), i);
        }
      }
    }

    /** Reads sector i of the file into the clean buffer. */
    method Load(sect: nat, ghost i: nat) returns (ok: bool)
      requires Core(Now()) && !dirty && i < Cap(Now()) && sect == SectAt(Now(), i)
      modifies this`buf, this`dsect, fs`ops
      ensures Kept(old(Now()), Now()) && (ok ==> Core(Now()) && dsect == sect)
      ensures Smooth(old(fs.ops), fs.ops) ==> ok
    {
      hide ChainInv, BufInv, PosInv, Later, Sectors, Tidy, Fat, SectAt, ClusterAt, Cap;
      ghost var x := Now();
      StoredSector(x, i);
      ok, buf := fs.DiskRead(sect, dataFails);
      if ok {
        dsect := sect;
        Filled(x, Now(), i);
      } else {
        Spoiled(x, Now());
      }
    }

    /** One turn of the loop of f_read: reads a first part of the bytes wanted. */
    method ReadStep(btr: nat) returns (ok: bool, data: seq<Byte>)
      requires Inv(Now()) && 0 < btr && fptr + btr <= fsize
      modifies this`clust, this`buf, this`dsect, this`dirty, fs`ops, fs`disk, fs`wflag, fs`win, fs`winsect
      ensures Kept(old(Now()), Now())
      ensures ok ==>
                && 0 < |data| <= btr && Inv(Now().(fptr := fptr + |data|))
                && fptr + |data| <= |Flat(Sectors(Now()))| && data == Flat(Sectors(Now()))[fptr..fptr + |data|]
      ensures Smooth(old(fs.ops), fs.ops) ==> ok
    {
      hide ChainInv, BufInv, PosInv, Later, Sectors, Tidy, Fat, SectAt, ClusterAt, Cap, Quotient, Remainder, Flat;
      ghost var x, i := Now(), fptr / 512;
      data := [];
      if fptr % 512 == 0 {
        var sect, csect;
        ok, sect, csect := SectorForRead();
        if !ok {
          return;
        }
        ghost var y := Now();
        if btr / 512 > 0 {
          ok, data := ReadThrough(btr, sect, csect);
          LaterTrans(x, y, Now());
          if ok {
            MakeInv(x, Now(), |data|);
          }
          return;
        }
        ok := FillForRead(sect);
        LaterTrans(x, y, Now());
        if !ok {
          return;
        }
      } else {
        InsideSector(x);
        LaterSelf(x);
      }
      data := FromBuffer(btr);
      MakeInv(x, Now(), |data|);
      ok := true;
    }

    /** Takes bytes of the sector the file position stands in out of the buffer. */
    method FromBuffer(btr: nat) returns (data: seq<Byte>)
      requires Core(Now()) && 0 < btr && fptr + btr < 0x1_0000_0000
      requires fptr / 512 < Cap(Now()) && clust == ClusterAt(Now(), fptr / 512) && dsect == SectAt(Now(), fptr / 512)
      ensures 0 < |data| <= btr && fptr + |data| < 0x1_0000_0000 && PosInv(Now().(fptr := fptr + |data|))
      ensures fptr + |data| <= |Flat(Sectors(Now()))| && data == Flat(Sectors(Now()))[fptr..fptr + |data|]
    {
      hide ChainInv, BufInv, PosInv, Sectors, SectAt, ClusterAt, Cap, Flat;
      var ofs := fptr % 512;
      var rcnt := 512 - ofs;
      if rcnt > btr {
        rcnt := btr;
      }
      data := buf[ofs..ofs + rcnt];
      BufferedSector(Now(), fptr / 512);
      FlatPart(Sectors(Now()), fptr / 512, ofs, ofs + rcnt);
      AdvanceInSector(Now(), rcnt);
    }

    /** The loop of f_read, which ends early when a transfer fails. */
    method ReadLoop(want: nat) returns (ok: bool, data: seq<Byte>)
      requires Inv(Now()) && fptr + want <= fsize
      modifies this`clust, this`buf, this`dsect, this`dirty, this`fptr, fs`ops, fs`disk, fs`wflag, fs`win, fs`winsect
      ensures Kept(old(Now()), Now()) && |data| <= want && fptr == old(fptr) + |data|
      ensures fptr <= |Flat(Sectors(old(Now())))| && data == Flat(Sectors(old(Now())))[old(fptr)..fptr]
      ensures (ok ==> Inv(Now()) && |data| == want) && (!ok ==> |data| < want && !Smooth(old(fs.ops), fs.ops))
    {
      hide ChainInv, BufInv, PosInv, Later, Sectors, Tidy, Fat, SectAt, ClusterAt, Cap, Flat;
      ghost var x := Now();
      data := [];
      LaterSelf(x);
      while |data| < want
        invariant Inv(Now()) && Later(x, Now()) && Sectors(Now()) == Sectors(x)
        invariant fptr == x.fptr + |data| && |data| <= want
        invariant data == Flat(Sectors(x))[x.fptr..fptr]
      {
        ghost var y := Now();
        var part;
        ok, part := ReadStep(want - |data|);
        ghost var z := Now();
        LaterTrans(x, y, z);
        if !ok {
          return;
        }
        SliceJoin(Flat(Sectors(x)), x.fptr, fptr, fptr + |part|);
        data := data + part;
        fptr := fptr + |part|;
        Shifted(x, z, Now());
      }
      ok := true;
    }

    /** f_read, whatever transfers fail: the bytes that are returned are those of the file, and a failure leaves the
        file as it was but for the position and the error flag. */
    method Read(btr: nat) returns (res: FResult, data: seq<Byte>)
      requires Open()
      modifies this`clust, this`buf, this`dsect, this`dirty, this`fptr, this`error,
        fs`ops, fs`disk, fs`wflag, fs`win, fs`winsect
      ensures Open() && fptr == old(fptr) + |data|
      ensures !old(error) ==> fptr <= fsize && data == Content(old(Now()))[old(fptr)..fptr]
      ensures old(error) ==> res == IntErr && data == [] && Now() == old(Now())
      ensures !old(error) && !canRead ==> res == Denied && data == [] && Now() == old(Now())
      ensures !old(error) && canRead ==> res == Ok || res == DiskErr
      ensures error == (old(error) || res == DiskErr) && Kept(old(Now()), Now()) && Content(Now()) == Content(old(Now()))
      ensures !old(error) ==>
                var want := Min(btr, fsize - old(fptr));
                && (res == Ok ==> |data| == want)
                && (res == DiskErr ==> |data| < want && !Smooth(old(fs.ops), fs.ops))
    {
      hide ChainInv, BufInv, PosInv, Later, Sectors, Tidy, Fat, SectAt, ClusterAt, Cap, Flat;
      ghost var x := Now();
      KeptSelf(x);
      if error {
        return IntErr, [];
      }
      if !canRead {
        return Denied, [];
      }
      var ok;
      ok, data := ReadLoop(Min(btr, fsize - fptr));
      SameCap(x, Now());
      SlicePrefix(Flat(Sectors(x)), x.fptr, fptr, fsize);
      error := !ok;
      res := if ok then Ok else DiskErr;
    }

    /** An open file: all is well with it, or a transfer has failed and it is marked. */
    ghost predicate Open()
      reads this, fs
    {
      Held(Now()) && (!error ==> Inv(Now()) && fptr <= fsize)
    }

    /** f_lseek going back: from the head of the chain, which is created if there is none. */
    method SeekFromHead() returns (clst: Dword)
      requires Core(Now()) && (chain == [] ==> NoFaults(fs.fails))
      modifies this`fptr, this`clust, this`sclust, this`chain, fs
      ensures Core(Now()) && Grew(old(Now()), Now()) && fptr == 0
      ensures clst == 0 ==> chain == [] && !HasFree(Fat(fs.Now()))
      ensures clst != 0 ==> chain != [] && clst == clust == chain[0]
      ensures old(chain) != [] ==> clst != 0 && chain == old(chain)
    {
      hide ChainInv, BufInv, Tidy, Fat, Grew;
      ghost var x := Now();
      NoClusters(x);
      GrewSelf(x);
      fptr := 0;
      GrewMoved(x, x, Now());
      clst := sclust;
      if clst == 0 {
        ghost var y := Now();
        clst := StretchFirst();
        GrewTrans(x, y, Now());
      }
      ghost var z := Now();
      clust := clst;
      GrewMoved(x, z, Now());
    }

    /** The start of f_lseek: from the current cluster when the goal lies in it or behind it. */
    method SeekStart(ofs: Dword) returns (clst: Dword, left: Dword, ghost k: nat)
      requires Inv(Now()) && ofs > 0 && if canWrite then NoFaults(fs.fails) else ofs <= fsize
      modifies this`fptr, this`clust, this`sclust, this`chain, fs
      ensures Core(Now()) && Grew(old(Now()), Now()) && fptr + left == ofs && left > 0
      ensures clst == 0 ==> chain == [] && fptr == 0 && !HasFree(Fat(fs.Now()))
      ensures clst != 0 ==> AtCluster(Now(), k) && clst == clust
      ensures !canWrite ==> clst != 0 && chain == old(chain)
    {
      hide ChainInv, BufInv, PosInv, Tidy, Fat, Cap, Quotient, Grew, And;
      ghost var x := Now();
      CsizeFacts(x);
      EmptyFile(x);
      var ifptr := fptr;
      var bcs := 512 * fs.g.csize;
      if ifptr > 0 && (ofs - 1) / bcs >= (ifptr - 1) / bcs {
        k := SeekForward(x, ofs, bcs);
        fptr := (ifptr - 1) - And(ifptr - 1, bcs - 1);
        left := ofs - fptr;
        clst := clust;
        GrewSelf(x);
        GrewMoved(x, x, Now());
      } else {
        k := 0;
        left := ofs;
        clst := SeekFromHead();
      }
    }

    /** The cluster-following loop of f_lseek: stops in the goal's cluster, or at the end of a full disk, or where a
        transfer fails. */
    method SeekWalk(goal: Dword, ghost k0: nat) returns (ok: bool, left: Dword, ghost k: nat)
      requires Core(Now()) && AtCluster(Now(), k0) && fptr < goal
      requires if canWrite then NoFaults(fs.fails) else goal <= 512 * Cap(Now())
      modifies this`fptr, this`clust, this`chain, fs
      ensures Core(Now()) && Grew(old(Now()), Now()) && AtCluster(Now(), k) && (!canWrite ==> chain == old(chain))
      ensures ok ==> 0 < left <= 512 * fs.g.csize && fptr + left <= goal
      ensures ok && fptr + left < goal ==> canWrite && left == 512 * fs.g.csize && k == |chain| - 1 && !HasFree(Fat(fs.Now()))
      ensures !ok ==> !canWrite && fptr < goal && !Smooth(old(fs.ops), fs.ops)
    {
      hide ChainInv, BufInv, PosInv, Tidy, Fat, Cap, Grew, Sectors, Later, AtCluster, ReadFails;
      ghost var x := Now();
      CsizeFacts(x);
      GrewSelf(x);
      Standing(x, k0);
      var bcs := 512 * fs.g.csize;
      left := goal - fptr;
      k := k0;
      while left > bcs
        invariant Core(Now()) && Grew(x, Now()) && AtCluster(Now(), k) && left > 0 && fptr + left == goal
        invariant !canWrite ==> chain == x.chain
      {
        ghost var y := Now();
        var clst;
        Standing(y, k);
        if canWrite {
          clst := Stretch(clust, k);
          GrewTrans(x, y, Now());
          if clst == 0 {
            StandsStill(y, Now(), k);
            left := bcs;
            return true, left, k;
          }
        } else {
          SameCap(x, y);
          MoreClusters(y, k, goal);
          clst := Follow(k);
          GrewSame(x, y, Now());
          GrewTime(x, y, Now());
          if clst == DISK_ERROR {
            StandsStill(y, Now(), k);
            return false, left, k;
          }
        }
        ghost var z := Now();
        clust := clst;
        fptr := fptr + bcs;
        left := left - bcs;
        NextCluster(y, Now(), k);
        k := k + 1;
        GrewMoved(x, z, Now());
      }
      ok := true;
    }

    /** get_fat on the k-th cluster, which is not the last one. */
    method Follow(ghost k: nat) returns (clst: Dword)
      requires Core(Now()) && k + 1 < |chain| && clust == chain[k]
      modifies fs`ops, fs`disk, fs`wflag, fs`win, fs`winsect
      ensures Core(Now()) && Later(old(Now()), Now()) && Sectors(Now()) == Sectors(old(Now()))
      ensures if clst == DISK_ERROR then !Smooth(old(fs.ops), fs.ops) else clst == chain[k + 1]
    {
      hide ChainInv, BufInv, PosInv, Tidy, Fat, Sectors, Later, ReadFails;
      ghost var x := Now();
      ChainEntry(x, k);
      clst := fs.GetFat(clust);
      FatAccess(x, fs.Now());
    }

    /** The end of f_lseek: moves the file position into the cluster and brings a partly used sector into the buffer. */
    method SeekLand(left: Dword, ghost k: nat) returns (ok: bool)
      requires Core(Now()) && AtCluster(Now(), k) && 0 < left <= 512 * fs.g.csize && fptr + left < 0x1_0000_0000
      modifies this`fptr, this`buf, this`dsect, this`dirty, fs`ops, fs`disk
      ensures Grew(old(Now()), Now()) && ChainInv(Now()) && fptr == old(fptr) + left
      ensures ok ==> Core(Now()) && PosInv(Now())
      ensures Smooth(old(fs.ops), fs.ops) ==> ok
      ensures left % 512 == 0 ==> fs.Now() == old(fs.Now())
    {
      hide ChainInv, BufInv, Tidy, Fat, Cap, Grew, Sectors, Later, AtCluster, SectAt, ClusterAt, ClustToSect;
      ghost var x := Now();
      Landing(x, k, left);
      GrewSelf(x);
      fptr := fptr + left;
      GrewMoved(x, x, Now());
      ghost var y := Now();
      MovedPlaces(x, y);
      ok := true;
      if left % 512 != 0 {
        var nsect := ClustToSect(fs.g, clust) + left / 512;
        ok := FillForRead(nsect);
        GrewSame(x, y, Now());
        if ok {
          LandedIn(y, Now());
        }
      }
    }

    /** f_lseek to an offset other than 0. */
    method SeekTo(ofs: Dword) returns (ok: bool)
      requires Inv(Now()) && ofs > 0 && if canWrite then NoFaults(fs.fails) else ofs <= fsize
      modifies this`fptr, this`clust, this`sclust, this`chain, this`buf, this`dsect, this`dirty, fs
      ensures Grew(old(Now()), Now()) && ChainInv(Now()) && (!canWrite ==> chain == old(chain))
      ensures ok ==> Core(Now()) && PosInv(Now())
      ensures ok ==> fptr == ofs || (canWrite && fptr < ofs && fptr == 512 * Cap(Now()) && !HasFree(Fat(fs.Now())))
      ensures !ok ==> fptr <= ofs && !Smooth(old(fs.ops), fs.ops)
    {
      hide ChainInv, BufInv, Tidy, Fat, Cap, Grew, Sectors, Later, AtCluster, PosInv;
      ghost var x := Now();
      var clst, left;
      ghost var k;
      clst, left, k := SeekStart(ofs);
      ghost var y := Now();
      GrewSize(x, y);
      if clst == 0 {
        EmptyFile(y);
        AtStart(y);
        return true;
      }
      ok := SeekOn(ofs, k);
      GrewTrans(x, y, Now());
    }

    /** The walk and the landing. */
    method SeekOn(ofs: Dword, ghost k0: nat) returns (ok: bool)
      requires Core(Now()) && AtCluster(Now(), k0) && fptr < ofs
      requires if canWrite then NoFaults(fs.fails) else ofs <= 512 * Cap(Now())
      modifies this`fptr, this`clust, this`chain, this`buf, this`dsect, this`dirty, fs
      ensures Grew(old(Now()), Now()) && ChainInv(Now()) && (!canWrite ==> chain == old(chain))
      ensures ok ==> Core(Now()) && PosInv(Now())
      ensures ok ==> fptr == ofs || (canWrite && fptr < ofs && fptr == 512 * Cap(Now()) && !HasFree(Fat(fs.Now())))
      ensures !ok ==> fptr <= ofs && !Smooth(old(fs.ops), fs.ops)
    {
      hide ChainInv, BufInv, Tidy, Fat, Cap, Grew, Sectors, Later, AtCluster, PosInv;
      ghost var x := Now();
      ghost var k;
      var left;
      ok, left, k := SeekWalk(ofs, k0);
      if !ok {
        return;
      }
      ghost var z := Now();
      if k == |chain| - 1 {
        EndOfChain(z, k);
      }
      ok := SeekLand(left, k);
      GrewTrans(x, z, Now());
      SameCap(z, Now());
    }

    /** f_lseek to any offset. */
    method Seek(ofs: Dword) returns (ok: bool)
      requires Inv(Now()) && if canWrite then NoFaults(fs.fails) else ofs <= fsize
      modifies this`fptr, this`clust, this`sclust, this`chain, this`buf, this`dsect, this`dirty, fs
      ensures Grew(old(Now()), Now()) && ChainInv(Now()) && (!canWrite ==> chain == old(chain))
      ensures ok ==> Core(Now()) && PosInv(Now())
      ensures ok ==> fptr == ofs || (canWrite && fptr < ofs && fptr == 512 * Cap(Now()) && !HasFree(Fat(fs.Now())))
      ensures !ok ==> fptr <= ofs && !Smooth(old(fs.ops), fs.ops)
    {
      hide ChainInv, BufInv, Tidy, Fat, Cap, Grew, Sectors, Later, PosInv;
      ghost var x := Now();
      GrewSelf(x);
      ok := true;
      if ofs == 0 {
        fptr := 0;
        GrewMoved(x, x, Now());
        AtStart(Now());
      } else {
        ok := SeekTo(ofs);
      }
    }

    /** f_lseek without a link map.  A file that cannot be written is left as it was whatever transfers fail, but for the
        position and the error flag. */
    method Lseek(ofs0: Dword) returns (res: FResult)
      requires Open() && (canWrite ==> NoFaults(fs.fails))
      modifies this, fs
      ensures Open() && (old(error) ==> res == IntErr && Now() == old(Now()))
      ensures !old(error) ==> res == Ok || (res == DiskErr && fptr <= ofs0 && !Smooth(old(fs.ops), fs.ops))
      ensures error == (old(error) || res == DiskErr) && Later(old(Now()), Now())
      ensures fsize == if res == Ok && fptr > old(fsize) then fptr else old(fsize)
      ensures Content(Now())[..old(fsize)] == Content(old(Now()))
      ensures !old(error) && !canWrite ==> fptr <= fsize == old(fsize) && Content(Now()) == Content(old(Now()))
      ensures res == Ok && !canWrite ==> fptr == if ofs0 < old(fsize) then ofs0 else old(fsize)
      ensures res == Ok && canWrite ==> fptr == ofs0 || (fptr < ofs0 && fptr == 512 * Cap(Now()) && !HasFree(Fat(fs.Now())))
    {
      hide Core, ChainInv, BufInv, Tidy, Fat, Cap, Grew, Sectors, Later, PosInv, Flat;
      ghost var x := Now();
      KeptSelf(x);
      assert Content(x)[..fsize] == Content(x);
      if error {
        return IntErr;
      }
      var ok := Seek(if ofs0 > fsize && !canWrite then fsize else ofs0);
      ghost var w := Now();
      if !ok {
        error := true;
        GrewLater(x, w);
        GrewHolds(x, w);
        GrewContent(x, w);
        assert Content(w)[..fsize] == Content(w);
        return DiskErr;
      }
      SizeUp(x);
      res := Ok;
    }

    /** The end of f_lseek: the size follows a file position behind it. */
    method SizeUp(ghost x: FileState)
      requires Inv(x) && Core(Now()) && PosInv(Now()) && Grew(x, Now()) && fsize == x.fsize
      modifies this`fsize, this`written
      ensures Inv(Now()) && Later(x, Now()) && Cap(Now()) == old(Cap(Now()))
      ensures fsize == (if fptr > x.fsize then fptr else x.fsize) && Content(Now())[..x.fsize] == Content(x)
      ensures fsize == x.fsize ==> Content(Now()) == Content(x)
    {
      hide ChainInv, BufInv, Tidy, Cap, Grew, Sectors, Later, PosInv, Flat;
      ghost var w := Now();
      GrewSize(x, w);
      if fptr > fsize {
        fsize := fptr;
        written := true;
      }
      Resized(w, Now());
      GrewMoved(x, w, Now());
      GrewLater(x, Now());
      GrewContent(x, Now());
      assert Content(Now())[..fsize] == Content(Now());
    }
  }
}
