/** Directory positions: dir_sdi jumps to an entry, dir_next steps to the following one. */
module FatDir {
  import opened Arithmetic
  import opened FatTable
  import opened FatGeometry
  import opened Options
  import opened FatVolume
  import opened FatChains
  import opened FatAlloc

  /** Where an entry of a directory is: its index, cluster (0 in a static table), sector and byte offset. */
  datatype Position = Position(index: nat, clust: nat, sect: nat, offset: nat)

  /** The cluster j links behind c; 0 when the chain ends before. */
  ghost function Walk(f: Table, c: nat, j: nat): nat {
    if j == 0 then c
    else
      var p := Walk(f, c, j - 1);
      if IsCluster(f, p) && IsCluster(f, f[p]) then f[p] else 0
  }

  /** The first cluster of the table; 0 for the static root table. */
  function FirstCluster(g: Geometry, sclust: Dword): Dword {
    if sclust == 0 && g.kind.Fat32? then g.dirbase else sclust
  }

  /** Where entry k lies, if the table has that many entries. */
  ghost function EntryAt(g: Geometry, f: Table, sclust: Dword, k: nat): Option<Position>
    requires g.csize > 0
  {
    var t := k / 16;
    if sclust == 1 || sclust >= g.nFatent then None
    else if FirstCluster(g, sclust) == 0 then
      if k < g.nRootdir then Some(Position(k, 0, g.dirbase + t, (k % 16) * 32)) else None
    else
      var q := Quotient(t, g.csize);
      var c := Walk(f, FirstCluster(g, sclust), q);
      if q > 0 && c == 0 then None
      else Some(Position(k, c, SectorOf(g, c) + Remainder(t, g.csize), (k % 16) * 32))
  }

  function SectorOf(g: Geometry, c: nat): nat {
    if c < 0x1_0000_0000 then ClustToSect(g, c) else 0
  }

  /** A table that has entry k has all entries before it. */
  lemma {:induction false} WalkPrefix(f: Table, c: nat, i: nat, j: nat)
    requires i <= j && Walk(f, c, j) != 0
    ensures Walk(f, c, i) != 0
    decreases j
  {
    if i < j {
      WalkPrefix(f, c, i, j - 1);
    }
  }

  lemma EntriesBefore(g: Geometry, f: Table, sclust: Dword, j: nat, k: nat)
    requires g.csize > 0 && j <= k && EntryAt(g, f, sclust, k).Some?
    ensures EntryAt(g, f, sclust, j).Some?
  {
    hide Quotient, Remainder, Walk;
    if FirstCluster(g, sclust) != 0 {
      QuotientMonotone(j / 16, k / 16, g.csize);
      if Walk(f, FirstCluster(g, sclust), Quotient(k / 16, g.csize)) != 0 {
        WalkPrefix(f, FirstCluster(g, sclust), Quotient(j / 16, g.csize), Quotient(k / 16, g.csize));
      }
    }
  }

  /** Stepping to entry i from the one before: when the sector and the cluster change. */
  lemma StepIndex(i: nat, c: nat)
    requires c > 0 && i > 0
    ensures i % 16 != 0 ==> i / 16 == (i - 1) / 16
    ensures i % 16 == 0 ==> i / 16 == (i - 1) / 16 + 1
    ensures i % 16 == 0 && Remainder(i / 16, c) == 0 ==> Quotient(i / 16, c) == Quotient((i - 1) / 16, c) + 1
    ensures i % 16 == 0 && Remainder(i / 16, c) != 0 ==>
              && Quotient(i / 16, c) == Quotient((i - 1) / 16, c)
              && Remainder(i / 16, c) == Remainder((i - 1) / 16, c) + 1
  {
    var t := i / 16;
    if i % 16 == 0 {
      QuotientRemainder(t, c);
      var q, r := Quotient(t, c), Remainder(t, c);
      if r == 0 {
        DivMod(t - 1, c, q - 1, c - 1);
      } else {
        DivMod(t - 1, c, q, r - 1);
      }
    }
  }

  lemma RemainderIs(t: nat, c: nat)
    requires c > 0
    ensures Remainder(t, c) == t % c
  {}

  /** What is left of an index after taking off j clusters of entries. */
  lemma EntryLeft(idx: nat, c: nat, j: nat)
    requires c > 0 && j <= Quotient(idx / 16, c)
    ensures var q, r, left := Quotient(idx / 16, c), Remainder(idx / 16, c), idx - j * (16 * c);
            && (left >= 16 * c <==> j < q)
            && (j == q ==> left == 16 * r + idx % 16)
  {
    var q, r := Quotient(idx / 16, c), Remainder(idx / 16, c);
    QuotientRemainder(idx / 16, c);
    assert idx == q * (16 * c) + 16 * r + idx % 16;
    CompareTimes(j, q, 16 * c);
  }

  /** Where the entry behind p lies: in the same sector, in the next one, or at the start of the next cluster. */
  lemma EntryAfter(g: Geometry, f: Table, sclust: Dword, p: Position, i: nat)
    requires g.csize > 0 && g.nRootdir % 16 == 0 && i > 0 && EntryAt(g, f, sclust, i - 1) == Some(p)
    ensures var at, r := EntryAt(g, f, sclust, i), Remainder(i / 16, g.csize);
            && (i % 16 != 0 ==> at == Some(p.(index := i, offset := (i % 16) * 32)))
            && (i % 16 == 0 && p.clust == 0 ==> at == if i < g.nRootdir then Some(Position(i, 0, p.sect + 1, 0)) else None)
            && (i % 16 == 0 && p.clust != 0 && r != 0 ==> at == Some(Position(i, p.clust, p.sect + 1, 0)))
            && (i % 16 == 0 && p.clust != 0 && r == 0 ==>
                  at == if IsCluster(f, p.clust) && IsCluster(f, f[p.clust])
                        then Some(Position(i, f[p.clust], SectorOf(g, f[p.clust]), 0)) else None)
  {
    hide Quotient, Remainder, SectorOf;
    StepIndex(i, g.csize);
  }

  lemma {:induction false} WalkAlong(f: Table, ch: seq<nat>, j: nat)
    requires IsChain(f, ch)
    ensures Walk(f, ch[0], j) == if j < |ch| then ch[j] else 0
  {
    if j > 0 {
      WalkAlong(f, ch, j - 1);
    }
  }

  /** The first sector of a cluster. */
  function StartOf(g: Geometry, c: nat): nat
    requires 2 <= c
  {
    g.database + (c - 2) * g.csize
  }

  /** Where bytes 32 k to 32 k + 31 of the clusters of a chain lie. */
  ghost function InChain(g: Geometry, ch: seq<nat>, k: nat): Option<Position>
    requires g.csize > 0
  {
    var sector := 32 * k / 512;
    var i := sector / g.csize;
    if i < |ch| && 2 <= ch[i] then Some(Position(k, ch[i], StartOf(g, ch[i]) + sector % g.csize, 32 * k % 512)) else None
  }

  /** A directory in a chain of clusters is a string of entries of 32 bytes, as long as the clusters. */
  lemma EntryIsBytes(a: State, sclust: Dword, ch: seq<nat>, k: nat)
    requires Valid(a) && IsChain(Fat(a), ch) && a.g.csize > 0
    requires if sclust == 0 then a.g.kind.Fat32? && ch[0] == a.g.dirbase else ch[0] == sclust
    ensures EntryAt(a.g, Fat(a), sclust, k) == InChain(a.g, ch, k)
    ensures InChain(a.g, ch, k).Some? <==> 32 * k < |ch| * (512 * a.g.csize)
  {
    hide Valid, Fat, IsChain, Walk, ClustToSect, Quotient, Remainder;
    var g, f, t := a.g, Fat(a), k / 16;
    var q, r := Quotient(t, g.csize), Remainder(t, g.csize);
    ChainStart(a, ch);
    WalkAlong(f, ch, q);
    EntryBytes(k, g.csize, |ch|);
    if q < |ch| {
      ChainSector(a, ch, q, r);
    }
  }

  lemma ChainStart(a: State, ch: seq<nat>)
    requires Valid(a) && IsChain(Fat(a), ch)
    ensures ch != [] && 2 <= ch[0] < a.g.nFatent
  {}

  lemma ChainSector(a: State, ch: seq<nat>, q: nat, r: nat)
    requires Valid(a) && IsChain(Fat(a), ch) && q < |ch| && r < a.g.csize
    ensures 2 <= ch[q] < 0x1_0000_0000 && ClustToSect(a.g, ch[q]) == (ch[q] - 2) * a.g.csize + a.g.database
  {
    hide Fat, ClustToSect;
    assert IsCluster(Fat(a), ch[q]);
    ClusterSectors(a.g, |a.disk|, ch[q], r);
  }

  /** Bytes, sectors and clusters before entry k. */
  lemma EntryBytes(k: nat, c: nat, n: nat)
    requires c > 0
    ensures 32 * k / 512 / c == Quotient(k / 16, c) && 32 * k / 512 % c == Remainder(k / 16, c)
    ensures 32 * k % 512 == (k % 16) * 32
    ensures Quotient(k / 16, c) < n <==> 32 * k < n * (512 * c)
  {
    DivMod(32 * k, 512, k / 16, (k % 16) * 32);
    DivideTwice(32 * k, c);
    Reached(32 * k, 512 * c, n);
  }

  lemma Reached(x: nat, c: nat, n: nat)
    requires c > 0
    ensures x / c < n <==> x < n * c
  {
    var q := x / c;
    assert x == q * c + x % c;
    CompareTimes(q, n, c);
  }

  /** The root directory of FAT12 and FAT16 lies in sectors of its own. */
  lemma RootIsBytes(g: Geometry, f: Table, k: nat)
    requires g.csize > 0 && !g.kind.Fat32? && g.nFatent > 1
    ensures EntryAt(g, f, 0, k) ==
            if k < g.nRootdir then Some(Position(k, 0, g.dirbase + 32 * k / 512, 32 * k % 512)) else None
  {
    DivMod(32 * k, 512, k / 16, (k % 16) * 32);
  }

  class Dir {
    const fs: Volume
    const sclust: Dword
    var index: Word
    var clust: Dword
    var sect: nat
    var offset: nat

    constructor (fs: Volume, sclust: Dword)
      ensures this.fs == fs && this.sclust == sclust
    {
      this.fs, this.sclust := fs, sclust;
      index, clust, sect, offset := 0, 0, 0, 0;
    }

    ghost function Here(): Position
      reads this
    {
      Position(index, clust, sect, offset)
    }

    /** The loop of dir_sdi that follows the chain to the cluster of the entry. */
    method FollowChain(first: Dword, idx: Word) returns (ok: bool, clst: Dword, left: nat)
      requires Faultless(fs.Now()) && fs.g.csize > 0
      modifies fs
      ensures Steady(old(fs.Now()), fs.Now()) && Fat(fs.Now()) == Fat(old(fs.Now()))
      ensures var q, c := Quotient(idx / 16, fs.g.csize), Walk(Fat(fs.Now()), first, Quotient(idx / 16, fs.g.csize));
              && ok == (q == 0 || c != 0)
              && (ok ==> clst == c && left == 16 * Remainder(idx / 16, fs.g.csize) + idx % 16)
    {
      hide Valid, View, FatVolume.Table, Layout, Steady, Fat, Quotient, Remainder;
      ghost var a, f := fs.Now(), Fat(fs.Now());
      Idle(a, fs.ops);
      clst, left := first, idx;
      var ic := 16 * fs.g.csize;
      ghost var j, q := 0, Quotient(idx / 16, fs.g.csize);
      EntryLeft(idx, fs.g.csize, 0);
      while left >= ic
        invariant Steady(a, fs.Now()) && Fat(fs.Now()) == f && j <= q
        invariant clst == Walk(f, first, j) && left == idx - j * ic && (j > 0 ==> clst != 0)
        decreases left
      {
        EntryLeft(idx, fs.g.csize, j);
        ghost var b := fs.Now();
        clst := fs.GetFat(clst);
        SteadyTrans(a, b, fs.Now());
        if clst < 2 || clst >= fs.g.nFatent {
          assert Walk(f, first, j + 1) == 0;
          if Walk(f, first, q) != 0 {
            WalkPrefix(f, first, j + 1, q);
          }
          return false, clst, left;
        }
        left := left - ic;
        j := j + 1;
        assert j * ic == (j - 1) * ic + ic;
      }
      EntryLeft(idx, fs.g.csize, j);
      ok := true;
    }

    /** dir_sdi: succeeds exactly when the table has the entry, and finds it. */
    method Seek(idx: Word) returns (res: FResult)
      requires Faultless(fs.Now()) && fs.g.csize > 0
      modifies this, fs
      ensures Steady(old(fs.Now()), fs.Now()) && Fat(fs.Now()) == Fat(old(fs.Now()))
      ensures var at := EntryAt(fs.g, Fat(fs.Now()), sclust, idx);
              res == (if at.Some? then Ok else IntErr) && (at.Some? ==> Here() == at.value)
    {
      hide Valid, View, FatVolume.Table, Layout, Steady, Fat, Quotient, Remainder, Walk;
      Idle(fs.Now(), fs.ops);
      index := idx;
      var clst := sclust;
      if clst == 1 || clst >= fs.g.nFatent {
        return IntErr;
      }
      if clst == 0 && fs.g.kind.Fat32? {
        clst := fs.g.dirbase;
      }
      var left: nat := idx;
      if clst == 0 {
        clust := clst;
        if idx >= fs.g.nRootdir {
          return IntErr;
        }
        sect := fs.g.dirbase + idx / 16;
      } else {
        var ok;
        ok, clst, left := FollowChain(clst, idx);
        if !ok {
          return IntErr;
        }
        clust := clst;
        DivMod(left, 16, Remainder(idx / 16, fs.g.csize), idx % 16);
        sect := ClustToSect(fs.g, clst) + left / 16;
      }
      offset := (left % 16) * 32;
      res := Ok;
    }

    /** dir_next without stretching, from an entry to the next one. */
    method Next() returns (res: FResult)
      requires Faultless(fs.Now()) && fs.g.csize > 0 && PowerOf2(fs.g.csize) && fs.g.nRootdir % 16 == 0
      requires EntryAt(fs.g, Fat(fs.Now()), sclust, index) == Some(Here())
      modifies this, fs
      ensures Steady(old(fs.Now()), fs.Now()) && Fat(fs.Now()) == Fat(old(fs.Now()))
      ensures var at := EntryAt(fs.g, Fat(fs.Now()), sclust, old(index) + 1);
              && (res == Ok <==> old(sect) != 0 && old(index) < 65535 && at.Some?)
              && (res == Ok ==> Here() == at.value)
    {
      hide Valid, View, FatVolume.Table, Layout, Steady, Fat, Quotient, Remainder, EntryAt;
      Idle(fs.Now(), fs.ops);
      var i := (index + 1) % 65536;
      if i == 0 || sect == 0 {
        return NoFile;
      }
      EntryAfter(fs.g, Fat(fs.Now()), sclust, Here(), i);
      AndMask(i / 16, fs.g.csize);
      RemainderIs(i / 16, fs.g.csize);
      if i % 16 == 0 {
        sect := sect + 1;
        if clust == 0 {
          if i >= fs.g.nRootdir {
            return NoFile;
          }
        } else {
          if And(i / 16, fs.g.csize - 1) == 0 {
            var clst := fs.GetFat(clust);
            if clst <= 1 {
              return IntErr;
            }
            if clst >= fs.g.nFatent {
              return NoFile;
            }
            clust := clst;
            sect := ClustToSect(fs.g, clst);
          }
        }
      }
      index := i;
      offset := (i % 16) * 32;
      res := Ok;
    }
  }

  /** The table starts at a sector of the volume. */
  ghost predicate Based(g: Geometry, f: Table, sclust: Dword) {
    if FirstCluster(g, sclust) == 0 then g.dirbase > 0 else IsCluster(f, FirstCluster(g, sclust))
  }

  lemma {:induction false} WalkStaysInside(f: Table, c: nat, j: nat)
    requires IsCluster(f, c)
    ensures Walk(f, c, j) == 0 || IsCluster(f, Walk(f, c, j))
  {
    if j > 0 {
      WalkStaysInside(f, c, j - 1);
    }
  }

  lemma SectorIsSet(a: State, sclust: Dword, k: nat)
    requires Valid(a) && a.g.csize > 0 && Based(a.g, Fat(a), sclust) && EntryAt(a.g, Fat(a), sclust, k).Some?
    ensures EntryAt(a.g, Fat(a), sclust, k).value.sect != 0
  {
    var first := FirstCluster(a.g, sclust);
    if first != 0 {
      hide Walk, Quotient, Remainder, Fat, ClustToSect;
      var q := Quotient(k / 16, a.g.csize);
      QuotientBound(0, a.g.csize);
      WalkStaysInside(Fat(a), first, q);
      WalkAtStart(Fat(a), first);
      ClusterSectors(a.g, |a.disk|, Walk(Fat(a), first, q), 0);
    }
  }

  lemma WalkAtStart(f: Table, c: nat)
    ensures Walk(f, c, 0) == c
  {}

  /** k calls of dir_next from dir_sdi(0) lead where dir_sdi(k) leads, and succeed together with it. */
  method StepTo(d: Dir, k: Word) returns (ok: bool)
    requires Faultless(d.fs.Now()) && PowerOf2(d.fs.g.csize) && d.fs.g.nRootdir % 16 == 0
    modifies d, d.fs
    ensures Steady(old(d.fs.Now()), d.fs.Now()) && Fat(d.fs.Now()) == Fat(old(d.fs.Now()))
    ensures ok ==> EntryAt(d.fs.g, Fat(d.fs.Now()), d.sclust, k) == Some(d.Here())
    ensures Based(d.fs.g, Fat(d.fs.Now()), d.sclust) ==> (ok <==> EntryAt(d.fs.g, Fat(d.fs.Now()), d.sclust, k).Some?)
  {
    hide Valid, View, FatVolume.Table, Layout, Steady, Fat, EntryAt, Based;
    ghost var a, f := d.fs.Now(), Fat(d.fs.Now());
    ghost var g, s := d.fs.g, d.sclust;
    var res := d.Seek(0);
    if res == Ok {
      EntryIndex(g, f, s, 0);
    }
    var n := 0;
    while n < k && res == Ok
      invariant Steady(a, d.fs.Now()) && Fat(d.fs.Now()) == f && n <= k
      invariant res == Ok ==> EntryAt(g, f, s, n) == Some(d.Here()) && d.index == n
      invariant res != Ok && Based(g, f, s) ==> EntryAt(g, f, s, n).None?
    {
      ghost var b := d.fs.Now();
      if Based(g, f, s) {
        SectorIsSet(b, s, n);
      }
      res := d.Next();
      SteadyTrans(a, b, d.fs.Now());
      n := n + 1;
      if res == Ok {
        EntryIndex(g, f, s, n);
      }
    }
    if res != Ok && Based(g, f, s) && EntryAt(g, f, s, k).Some? {
      EntriesBefore(g, f, s, n, k);
    }
    ok := res == Ok;
  }

  lemma EntryIndex(g: Geometry, f: Table, sclust: Dword, k: nat)
    requires g.csize > 0 && EntryAt(g, f, sclust, k).Some?
    ensures EntryAt(g, f, sclust, k).value.index == k
  {}
}
