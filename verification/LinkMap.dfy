/** The cluster link map of the fast-seek configuration: a run-length encoding of a chain. */
module LinkMap {
  import opened Arithmetic
  import opened FatGeometry
  import opened FatVolume
  import opened FatChains
  import opened FatAlloc
  import opened FatFileState
  import opened FatFile

  /** A fragment: how many clusters, and the first of them. */
  type Fragment = (nat, nat)

  /** The number of clusters at the start of ch that follow one another. */
  ghost function RunLength(ch: seq<nat>): (n: nat)
    requires ch != []
    ensures 1 <= n <= |ch|
    ensures forall t :: 0 <= t < n ==> ch[t] == ch[0] + t
    decreases |ch|
  {
    if |ch| == 1 || ch[1] != ch[0] + 1 then 1
    else
      var m := RunLength(ch[1..]);
      assert forall t :: 1 <= t < m + 1 ==> ch[t] == ch[1..][t - 1];
      1 + m
  }

  ghost function Fragments(ch: seq<nat>): (fs: seq<Fragment>)
    ensures |fs| <= |ch|
    ensures forall i :: 0 <= i < |fs| ==> fs[i].0 > 0
    decreases |ch|
  {
    if ch == [] then [] else [(RunLength(ch), ch[0])] + Fragments(ch[RunLength(ch)..])
  }

  /** What clmt_clust finds for the k-th cluster. */
  ghost function Lookup(fs: seq<Fragment>, k: nat): nat
    decreases |fs|
  {
    if fs == [] then 0 else if k < fs[0].0 then k + fs[0].1 else Lookup(fs[1..], k - fs[0].0)
  }

  /** Looking up in the fragments of a chain is walking the chain. */
  lemma {:induction false} LookupWalks(ch: seq<nat>, k: nat)
    ensures Lookup(Fragments(ch), k) == if k < |ch| then ch[k] else 0
    decreases |ch|
  {
    if ch != [] {
      var n := RunLength(ch);
      assert Fragments(ch)[1..] == Fragments(ch[n..]);
      if k >= n {
        LookupWalks(ch[n..], k - n);
      }
    }
  }

  /** A run that stops is the whole run. */
  lemma {:induction false} RunStops(ch: seq<nat>, n: nat)
    requires 1 <= n <= |ch| && (forall t :: 0 <= t < n ==> ch[t] == ch[0] + t)
    requires n == |ch| || ch[n] != ch[0] + n
    ensures RunLength(ch) == n
    decreases |ch|
  {
    if n > 1 {
      assert ch[1] == ch[0] + 1;
      var rest := ch[1..];
      forall t | 0 <= t < n - 1
        ensures rest[t] == rest[0] + t
      {
        assert ch[t + 1] == ch[0] + (t + 1);
      }
      RunStops(rest, n - 1);
    }
  }

  /** The table holds the fragments from position 1 on, and a zero behind them. */
  ghost predicate Encodes(t: seq<Dword>, fs: seq<Fragment>) {
    && 2 * |fs| + 1 < |t|
    && (forall i :: 0 <= i < |fs| ==> (t[2 * i + 1], t[2 * i + 2]) == fs[i])
    && t[2 * |fs| + 1] == 0
  }

  /** The table of a chain of two fragments: its size, then how many clusters and the first of them, and a zero. */
  lemma MapOfThree()
    ensures Encodes([6, 2, 2, 1, 7, 0], Fragments([2, 3, 7]))
  {
    var ch := [2, 3, 7];
    assert ch[1..] == [3, 7] && ch[2..] == [7] && [3, 7][1..] == [7];
    assert RunLength(ch) == 2;
    assert [7][1..] == [];
    assert Fragments([7]) == [(1, 7)] + Fragments([7][1..]);
    assert Fragments(ch) == [(2, 2), (1, 7)];
  }

  /** clmt_clust. */
  method ClmtClust(tbl: array<Dword>, ofs: Dword, csize: nat, ghost fs: seq<Fragment>) returns (r: nat)
    requires csize > 0 && Encodes(tbl[..], fs) && forall i :: 0 <= i < |fs| ==> fs[i].0 > 0
    ensures r == Lookup(fs, ofs / 512 / csize)
  {
    var cl: nat := ofs / 512 / csize;
    var i := 1;
    ghost var m := 0;
    assert fs[0..] == fs;
    while true
      invariant i == 2 * m + 1 && m <= |fs| && Lookup(fs[m..], cl) == Lookup(fs, ofs / 512 / csize)
      decreases |fs| - m
    {
      var ncl := tbl[i];
      i := i + 1;
      if ncl == 0 {
        assert m == |fs|;
        return 0;
      }
      assert m < |fs| && (tbl[..][2 * m + 1], tbl[..][2 * m + 2]) == fs[m];
      assert fs[m..][1..] == fs[m + 1..];
      if cl < ncl {
        break;
      }
      cl := cl - ncl;
      i := i + 1;
      m := m + 1;
    }
    r := cl + tbl[i];
  }

  /** The end mark happens to be the number right behind the last cluster. */
  ghost predicate Overruns(f: Table, ch: seq<nat>) {
    ch != [] && ch[|ch| - 1] < |f| && f[ch[|ch| - 1]] == ch[|ch| - 1] + 1
  }

  /** That takes a chain that ends in the last cluster of the volume with the number of entries as its end mark. */
  lemma OverrunsIff(f: Table, ch: seq<nat>)
    requires IsChain(f, ch)
    ensures Overruns(f, ch) <==> ch[|ch| - 1] == |f| - 1 && f[|f| - 1] == |f|
  {}

  /** A table of one cluster that does so. */
  lemma OverrunExists()
    ensures var f: Table := [0, 0, 3]; IsChain(f, [2]) && Overruns(f, [2])
  {}

  /** The mark that create_chain stores never does. */
  lemma MarkedChainsBuild(a: State, ch: seq<nat>)
    requires Valid(a) && IsChain(Fat(a), ch) && ch[|ch| - 1] < a.g.nFatent && Fat(a)[ch[|ch| - 1]] == EndMark(a.g)
    ensures !Overruns(Fat(a), ch)
  {
    hide Valid, Fat, IsChain, Overruns;
    OverrunsIff(Fat(a), ch);
    MarkIsHigh(a);
  }

  lemma MarkIsHigh(a: State)
    requires Valid(a)
    ensures EndMark(a.g) > a.g.nFatent
  {}

  /** The entry behind the i-th cluster: the next cluster, or the end mark. */
  ghost function Successor(f: Table, ch: seq<nat>, i: nat): nat
    requires IsChain(f, ch) && i < |ch|
  {
    f[ch[i]]
  }

  lemma Successors(f: Table, ch: seq<nat>, i: nat)
    requires IsChain(f, ch) && i < |ch|
    ensures IsCluster(f, ch[i]) && Successor(f, ch, i) > 1
    ensures if i < |ch| - 1 then Successor(f, ch, i) == ch[i + 1] else Successor(f, ch, i) >= |f|
  {
    var _ := OnChain(f, ch, ch[i]);
  }

  /** The inner loop of the link-map builder: one fragment, from the i-th cluster on. */
  method GetFragment(fs: Volume, top: Dword, ghost ch: seq<nat>, ghost i: nat)
    returns (res: FResult, ncl: Dword, cl: Dword)
    requires Valid(fs.Now()) && fs.g.nFatent <= 0x1000_0000 && IsChain(Fat(fs.Now()), ch) && i < |ch| && top == ch[i]
    modifies fs`ops, fs`disk, fs`wflag, fs`win, fs`winsect
    ensures Steady(old(fs.Now()), fs.Now()) && Fat(fs.Now()) == Fat(old(fs.Now()))
    ensures res == Ok ==> ncl == RunLength(ch[i..]) && cl == Successor(Fat(fs.Now()), ch, i + ncl - 1)
    ensures res == Ok && i + ncl == |ch| ==> !Overruns(Fat(fs.Now()), ch)
    ensures res == Ok || (res == IntErr && Overruns(Fat(fs.Now()), ch)) ||
            (res == DiskErr && !Clean(old(fs.Now()), fs.Now()))
  {
    hide Valid, View, FatVolume.Table, Layout, Steady, Fat, IsChain, Clean, ReadFails;
    ghost var a := fs.Now();
    Idle(a, fs.ops);
    ghost var f := Fat(a);
    ChainLength(f, ch);
    ncl := 0;
    cl := top;
    ghost var j := i;
    while true
      invariant Steady(a, fs.Now()) && Fat(fs.Now()) == f && j == i + ncl
      invariant j < |ch| ==> cl == ch[j]
      invariant j <= |ch| && forall t :: i <= t < j ==> ch[t] == ch[i] + (t - i)
      invariant j == |ch| ==> Overruns(f, ch) && cl >= |f|
      invariant j < |ch| && j > i ==> ch[j] == ch[j - 1] + 1
      decreases |ch| - j
    {
      ghost var b := fs.Now();
      var pcl := cl;
      if j < |ch| {
        Successors(f, ch, j);
      }
      ncl := ncl + 1;
      cl := fs.GetFat(cl);
      SteadyTrans(a, b, fs.Now());
      if cl <= 1 {
        return IntErr, ncl, cl;
      }
      if cl == DISK_ERROR {
        return DiskErr, ncl, cl;
      }
      j := j + 1;
      if cl != pcl + 1 {
        RunEnds(ch, i, ncl);
        return Ok, ncl, cl;
      }
    }
  }

  lemma RunEnds(ch: seq<nat>, i: nat, n: nat)
    requires n > 0 && i + n <= |ch| && forall t :: i <= t < i + n ==> ch[t] == ch[i] + (t - i)
    requires i + n == |ch| || ch[i + n] != ch[i + n - 1] + 1
    ensures RunLength(ch[i..]) == n
  {
    var rest := ch[i..];
    forall t | 0 <= t < n
      ensures rest[t] == rest[0] + t
    {
      assert ch[i + t] == ch[i] + t;
    }
    RunStops(rest, n);
  }

  /** The fragments found so far are stored, as far as the table had room for all of them. */
  ghost predicate Stored(t: seq<Dword>, fs: seq<Fragment>) {
    2 * |fs| < |t| && forall i :: 0 <= i < |fs| ==> (t[2 * i + 1], t[2 * i + 2]) == fs[i]
  }

  lemma StoredMore(t: seq<Dword>, fs: seq<Fragment>, n: Dword, top: Dword)
    requires Stored(t, fs) && 2 * |fs| + 2 < |t|
    ensures Stored(t[2 * |fs| + 1 := n][2 * |fs| + 2 := top], fs + [(n, top)])
  {}

  lemma StoredEncodes(t: seq<Dword>, fs: seq<Fragment>, u: Dword)
    requires Stored(t, fs) && 2 * |fs| + 1 < |t|
    ensures Encodes(t[0 := u][2 * |fs| + 1 := 0], fs)
  {}

  /** The first fragment of what is left goes behind those already found. */
  lemma FragmentFound(done: seq<Fragment>, ch: seq<nat>, i: nat)
    requires i < |ch| && done + Fragments(ch[i..]) == Fragments(ch)
    ensures var n := RunLength(ch[i..]);
            done + [(n, ch[i])] + Fragments(ch[i + n..]) == Fragments(ch)
  {
    hide Fragments, RunLength;
    var n := RunLength(ch[i..]);
    FirstFragment(ch[i..]);
    assert ch[i..][n..] == ch[i + n..];
    Regroup(done, (n, ch[i]), Fragments(ch[i + n..]));
  }

  lemma FirstFragment(ch: seq<nat>)
    requires ch != []
    ensures Fragments(ch) == [(RunLength(ch), ch[0])] + Fragments(ch[RunLength(ch)..])
  {
    hide RunLength;
  }

  lemma Regroup<T>(a: seq<T>, x: T, b: seq<T>)
    ensures a + [x] + b == a + ([x] + b)
  {}

  lemma NoMoreFragments(done: seq<Fragment>, ch: seq<nat>)
    requires done + Fragments(ch[|ch|..]) == Fragments(ch)
    ensures done == Fragments(ch)
  {}

  lemma Begin(t: seq<Dword>, ch: seq<nat>)
    requires t != []
    ensures Stored(t, []) && [] + Fragments(ch[0..]) == Fragments(ch)
  {
    assert ch[0..] == ch;
  }

  /** Puts one more fragment into the table. */
  method StoreFragment(tbl: array<Dword>, p: nat, ncl: Dword, tcl: Dword, ghost done: seq<Fragment>)
    requires Stored(tbl[..], done) && p == 2 * |done| + 1 && p + 1 < tbl.Length
    modifies tbl
    ensures Stored(tbl[..], done + [(ncl, tcl)])
  {
    hide Stored;
    StoredMore(tbl[..], done, ncl, tcl);
    tbl[p] := ncl;
    tbl[p + 1] := tcl;
  }

  /** Notes the size needed, and ends the table if it was large enough. */
  method Finish(tbl: array<Dword>, p: nat, ulen: Dword, tlen: nat, ghost done: seq<Fragment>) returns (res: FResult)
    requires 1 <= tbl.Length && tlen <= tbl.Length && ulen == 2 + 2 * |done|
    requires ulen <= tlen ==> p == 2 * |done| + 1 && Stored(tbl[..], done)
    modifies tbl
    ensures tbl[0] == ulen && res == if ulen <= tlen then Ok else NotEnoughCore
    ensures res == Ok ==> Encodes(tbl[..], done)
  {
    hide Stored, Encodes;
    ghost var t := tbl[..];
    tbl[0] := ulen;
    if ulen <= tlen {
      StoredEncodes(t, done, ulen);
      tbl[p] := 0;
      res := Ok;
    } else {
      res := NotEnoughCore;
    }
  }

  /** What a chain of the file is on the volume. */
  lemma FileChain(x: FileState)
    requires ChainInv(x)
    ensures if x.chain == [] then x.sclust == 0 else IsChain(Fat(x.vol), x.chain) && x.sclust == x.chain[0] != 0
    ensures x.vol.g.nFatent <= 0x1000_0000 && |Fat(x.vol)| == x.vol.g.nFatent
  {
    if x.chain != [] {
      assert x.chain in AllChains(x);
      Successors(Fat(x.vol), x.chain, 0);
    }
  }

  /** Looking at the table leaves an open file as it is. */
  lemma StaysOpen(x: FileState, b: State)
    requires ChainInv(x) && Steady(x.vol, b) && Fat(b) == Fat(x.vol)
    ensures var y := x.(vol := b);
            && ChainInv(y) && Later(x, y) && (Inv(x) ==> Inv(y) && Sectors(y) == Sectors(x))
  {
    hide Valid, View, Fat, Decomposes, Sectors, ClusterAt, SectAt;
    var y := x.(vol := b);
    if Inv(x) {
      FatAccess(x, b);
      StaysPut(x, y);
    }
  }

  /** The builder of f_lseek(CREATE_LINKMAP): the table is built if it is large enough, and its first word tells the
      size needed in either case; it fails on a chain whose end mark runs on from the last cluster. */
  method BuildMap(fs: Volume, sclust: Dword, tbl: array<Dword>, ghost ch: seq<nat>) returns (res: FResult)
    requires Valid(fs.Now()) && fs.g.nFatent <= 0x1000_0000 && 1 <= tbl.Length && tbl[0] <= tbl.Length
    requires if sclust == 0 then ch == [] else IsChain(Fat(fs.Now()), ch) && sclust == ch[0]
    modifies fs`ops, fs`disk, fs`wflag, fs`win, fs`winsect, tbl
    ensures Steady(old(fs.Now()), fs.Now()) && Fat(fs.Now()) == Fat(old(fs.Now()))
    ensures res == DiskErr ==> !Clean(old(fs.Now()), fs.Now())
    ensures res != DiskErr ==> (res == IntErr <==> Overruns(Fat(fs.Now()), ch))
    ensures res != DiskErr && res != IntErr ==>
              && tbl[0] == 2 + 2 * |Fragments(ch)|
              && res == (if tbl[0] <= old(tbl[0]) then Ok else NotEnoughCore)
    ensures res == Ok ==> Encodes(tbl[..], Fragments(ch))
  {
    hide Valid, View, FatVolume.Table, Layout, Steady, Fat, IsChain, RunLength, Fragments, Stored, Encodes, Clean;
    ghost var a, f := fs.Now(), Fat(fs.Now());
    Idle(a, fs.ops);
    var tlen: int := tbl[0];
    var p, ulen := 1, 2;
    var cl := sclust;
    ghost var i, done: seq<Fragment> := 0, [];
    Begin(tbl[..], ch);
    if cl != 0 {
      ChainLength(f, ch);
      HeadIsCluster(f, ch);
      assert ch[0..] == ch;
      while cl < fs.g.nFatent
        invariant Steady(a, fs.Now()) && Fat(fs.Now()) == f && i <= |ch| && |done| <= i
        invariant if i < |ch| then cl == ch[i] else cl >= |f| && !Overruns(f, ch)
        invariant done + Fragments(ch[i..]) == Fragments(ch) && ulen == 2 + 2 * |done|
        invariant ulen <= tlen ==> p == 2 * |done| + 1 && Stored(tbl[..], done)
        decreases |ch| - i
      {
        ghost var b := fs.Now();
        var tcl := cl;
        ulen := ulen + 2;
        var ncl;
        res, ncl, cl := GetFragment(fs, tcl, ch, i);
        SteadyTrans(a, b, fs.Now());
        if res != Ok {
          return;
        }
        Successors(f, ch, i + ncl - 1);
        FragmentFound(done, ch, i);
        if ulen <= tlen {
          StoreFragment(tbl, p, ncl, tcl, done);
          p := p + 2;
        }
        done := done + [(ncl, tcl)];
        i := i + ncl;
      }
      if i < |ch| {
        Successors(f, ch, i);
      }
    }
    NoMoreFragments(done, ch);
    res := Finish(tbl, p, ulen, tlen, done);
  }

  /** f_lseek(CREATE_LINKMAP) on an open file, whatever transfers fail.  Failing marks the file. */
  method CreateLinkMap(f: File, tbl: array<Dword>) returns (res: FResult)
    requires f.Open() && 1 <= tbl.Length && tbl[0] <= tbl.Length
    modifies f`error, f.fs`ops, f.fs`disk, f.fs`wflag, f.fs`win, f.fs`winsect, tbl
    ensures f.Open() && Later(old(f.Now()), f.Now()) && Fat(f.fs.Now()) == Fat(old(f.fs.Now()))
    ensures old(f.error) ==> res == IntErr && f.Now() == old(f.Now()) && tbl[..] == old(tbl[..])
    ensures f.error == (res == IntErr || res == DiskErr)
    ensures !old(f.error) ==> Sectors(f.Now()) == Sectors(old(f.Now()))
    ensures res == DiskErr ==> !Clean(old(f.fs.Now()), f.fs.Now())
    ensures !old(f.error) && res != DiskErr ==> (res == IntErr <==> Overruns(Fat(f.fs.Now()), f.chain))
    ensures !f.error ==>
              && tbl[0] == 2 + 2 * |Fragments(f.chain)|
              && res == (if tbl[0] <= old(tbl[0]) then Ok else NotEnoughCore)
    ensures res == Ok ==> Encodes(tbl[..], Fragments(f.chain))
  {
    hide ChainInv, BufInv, PosInv, Later, Sectors, Fat, IsChain, Fragments, Encodes, Overruns, Clean, Cap;
    ghost var x := f.Now();
    KeptSelf(x);
    if f.error {
      return IntErr;
    }
    FileChain(x);
    res := BuildMap(f.fs, f.sclust, tbl, f.chain);
    StaysOpen(x, f.fs.Now());
    SameCap(x, f.Now());
    f.error := res == IntErr || res == DiskErr;
  }
}
