/** create_chain and remove_chain over the volume, whatever transfers fail and whatever the table holds. */
module FatAlloc {
  import opened Arithmetic
  import opened FatTable
  import opened FatGeometry
  import opened FatVolume
  import opened FatChains

  const UNKNOWN: Dword := 0xFFFF_FFFF

  ghost predicate NoFaults(fails: nat -> bool) { forall n :: !fails(n) }

  /** A volume whose transfers succeed. */
  ghost predicate Faultless(a: State): (r: bool)
    ensures r ==> Valid(a) && NoFaults(a.fails) && 3 <= a.g.nFatent <= 0x1000_0000
  {
    Valid(a) && NoFaults(a.fails)
  }

  /** A volume whose table holds no reserved value. */
  ghost predicate Tidy(a: State): (r: bool)
    ensures r ==> Valid(a) && 3 <= a.g.nFatent <= 0x1000_0000 && NoReserved(Fat(a))
  {
    Valid(a) && NoReserved(Fat(a))
  }

  /** Such a volume whose transfers succeed. */
  ghost predicate Usable(a: State): (r: bool)
    ensures r ==> Valid(a) && NoFaults(a.fails) && 3 <= a.g.nFatent <= 0x1000_0000
    ensures r ==> NoReserved(Fat(a))
  {
    Tidy(a) && NoFaults(a.fails)
  }

  lemma NothingFails(a: State, c: nat)
    requires NoFaults(a.fails)
    ensures !ReadFails(a, c) && !StoreFails(a, c)
  {}

  /** The free-cluster count, when known, is right. */
  ghost predicate Counted(fs: Volume)
    requires Valid(fs.Now())
    reads fs
  {
    fs.freeClust == UNKNOWN || fs.freeClust == FreeCount(Fat(fs.Now()))
  }

  // ---- the search --------------------------------------------------------------------------

  /** c comes before r when counting up from s and wrapping around to 2. */
  ghost predicate Before(s: nat, c: nat, r: nat) {
    if s < r then s < c < r else s < c || c < r
  }

  /** r is the first free cluster after s. */
  ghost predicate FirstFree(f: Table, s: nat, r: nat) {
    IsFree(f, r) && forall c: nat :: IsCluster(f, c) && Before(s, c, r) ==> f[c] != 0
  }

  /** r is the first cluster after s that is free or holds the reserved value 1. */
  ghost predicate FirstStop(f: Table, s: nat, r: nat) {
    IsCluster(f, r) && f[r] <= 1 && forall c: nat :: IsCluster(f, c) && Before(s, c, r) ==> f[c] > 1
  }

  /** The reserved value comes before any free cluster. */
  ghost predicate Blocked(f: Table, s: nat) { exists r: nat :: FirstStop(f, s, r) && f[r] == 1 }

  ghost predicate Full(f: Table) { forall c: nat :: IsCluster(f, c) ==> f[c] > 1 }

  /** c has been looked at when the search from s stands at r. */
  ghost predicate Searched(s: nat, c: nat, r: nat, wrapped: bool) {
    if wrapped then s < c || c <= r else s < c <= r
  }

  /** The search of create_chain, from any starting point: it ends, at the first cluster that is free or holds 1,
      at a transfer that fails, or with 0 on a table that has neither. */
  method FindFree(fs: Volume, scl: Dword) returns (ncl: Dword)
    requires Valid(fs.Now()) && 1 <= scl < fs.g.nFatent
    modifies fs`ops, fs`disk, fs`wflag, fs`win, fs`winsect
    ensures Steady(old(fs.Now()), fs.Now()) && Fat(fs.Now()) == Fat(old(fs.Now()))
    ensures ncl == 0 ==> Full(Fat(fs.Now()))
    ensures ncl == 1 ==> Blocked(Fat(fs.Now()), scl)
    ensures ncl == DISK_ERROR ==> !Clean(old(fs.Now()), fs.Now())
    ensures ncl > 1 && ncl != DISK_ERROR ==>
              IsFree(Fat(fs.Now()), ncl) && FirstStop(Fat(fs.Now()), scl, ncl) && InFat(fs.g, fs.winsect)
  {
    hide Valid, View, FatVolume.Table, SameButMirror, Mirrored, Layout, Steady, TableOf, Fat, ReadFails, InFat;
    ghost var a := fs.Now();
    Idle(a, fs.ops);
    Marks(a, 0);
    ghost var f := Fat(a);
    ghost var wrapped := false;
    ncl := scl;
    while true
      invariant Steady(a, fs.Now()) && Fat(fs.Now()) == f
      invariant if wrapped then 2 <= ncl < scl else scl <= ncl < fs.g.nFatent
      invariant forall c: nat :: IsCluster(f, c) && Searched(scl, c, ncl, wrapped) ==> f[c] > 1
      decreases if wrapped then scl - ncl else 2 * fs.g.nFatent - ncl
    {
      ncl := ncl + 1;
      if ncl >= fs.g.nFatent {
        wrapped := true;
        ncl := 2;
        if ncl > scl {
          return 0;
        }
      }
      ghost var b := fs.Now();
      var cs := fs.GetFat(ncl);
      SteadyTrans(a, b, fs.Now());
      if cs == 0 {
        return;
      }
      if cs == DISK_ERROR || cs == 1 {
        assert cs == 1 ==> FirstStop(f, scl, ncl);
        return cs;
      }
      if ncl == scl {
        return 0;
      }
    }
  }

  // ---- create_chain ------------------------------------------------------------------------

  /** What an entry holds after the mark 0x0FFFFFFF was stored in it. */
  function EndMark(g: Geometry): Dword { EOC_MARK % Range(g.kind) }

  /** A new chain is asked for, or the cluster is the last of its chain. */
  ghost predicate Growing(f: Table, clst: Dword) {
    clst == 0 || (IsCluster(f, clst) && f[clst] >= |f|)
  }

  /** The cluster already has a successor. */
  ghost predicate Followed(f: Table, clst: Dword) {
    IsCluster(f, clst) && IsCluster(f, f[clst])
  }

  /** Where the search starts: at the cluster to stretch, or at the hint. */
  ghost function SearchStart(f: Table, hint: Dword, clst: Dword): nat {
    if clst != 0 then clst else if hint == 0 || hint >= |f| then 1 else hint
  }

  /** The table with cluster r in use, linked behind clst if there is one. */
  ghost function Grown(f: Table, clst: Dword, r: Dword, e: Dword): (t: Table)
    requires IsCluster(f, r) && (clst == 0 || IsCluster(f, clst))
    ensures |t| == |f|
  {
    if clst == 0 then f[r := e] else f[r := e][clst := r]
  }

  /** The outcome of searching from s and linking what is found behind clst. */
  ghost predicate Allocated(f: Table, clst: Dword, s: nat, e: Dword, r: Dword, f': Table)
    requires clst == 0 || IsCluster(f, clst)
  {
    || (r == 0 && f' == f && Full(f))
    || (r == 1 && f' == f && Blocked(f, s))
    || (IsFree(f, r) && FirstStop(f, s, r) && f' == Grown(f, clst, r, e))
  }

  /** At most the cluster to stretch and one free cluster have changed. */
  ghost predicate Damaged(f: Table, clst: Dword, f': Table) {
    |f'| == |f| && (f' == f || exists n: nat :: IsFree(f, n) && SameBut(f, f', n, clst))
  }

  ghost predicate SameBut(f: Table, f': Table, n: nat, m: nat) {
    |f'| == |f| && forall d :: 0 <= d < |f| && d != n && d != m ==> f'[d] == f[d]
  }

  /** The outcome of create_chain.  It looks for the successor of clst first; a failure to read it is taken for the
      end of the chain. */
  ghost predicate Created(a: State, hint: Dword, clst: Dword, r: Dword, f': Table)
    requires Valid(a)
  {
    var f := Fat(a);
    if clst != 0 && (!IsCluster(f, clst) || (!ReadFails(a, clst) && f[clst] < 2)) then r == 1 && f' == f
    else if clst != 0 && !ReadFails(a, clst) && f[clst] < |f| then r == f[clst] && f' == f
    else
      || Allocated(f, clst, SearchStart(f, hint, clst), EndMark(a.g), r, f')
      || (r == DISK_ERROR && Damaged(f, clst, f'))
  }

  lemma Marks(a: State, c: Dword)
    requires Valid(a)
    ensures EndMark(a.g) >= a.g.nFatent && 3 <= a.g.nFatent <= 0x1000_0000
    ensures c < a.g.nFatent ==> c % Range(a.g.kind) == c
  {
    MarkEndsChain(a.g, |a.disk|);
  }

  /** An allocation takes one from the free clusters. */
  lemma GrownCounts(f: Table, clst: Dword, r: Dword, e: Dword)
    requires IsFree(f, r) && (clst == 0 || (IsCluster(f, clst) && f[clst] != 0)) && e >= |f|
    ensures FreeCount(Grown(f, clst, r, e)) == FreeCount(f) - 1
    ensures NoReserved(f) ==> NoReserved(Grown(f, clst, r, e))
  {
    CountUpdate(f, 2, r, e);
    if clst != 0 {
      CountUpdate(f[r := e], 2, clst, r);
    }
  }

  /** The two stores of create_chain, when the window is in the FAT. */
  method LinkCluster(fs: Volume, clst: Dword, ncl: Dword) returns (res: FResult)
    requires Valid(fs.Now()) && IsFree(Fat(fs.Now()), ncl) && (clst == 0 || IsCluster(Fat(fs.Now()), clst))
    requires InFat(fs.g, fs.winsect)
    modifies fs`ops, fs`disk, fs`wflag, fs`win, fs`winsect
    ensures Steady(old(fs.Now()), fs.Now())
    ensures res == Ok ==> InFat(fs.g, fs.winsect)
    ensures res == Ok ==> Fat(fs.Now()) == Grown(Fat(old(fs.Now())), clst, ncl, EndMark(fs.g))
    ensures res != Ok ==> res == DiskErr && !Clean(old(fs.Now()), fs.Now())
    ensures res != Ok ==> Damaged(Fat(old(fs.Now())), clst, Fat(fs.Now()))
  {
    hide Valid, View, FatVolume.Table, SameButMirror, Mirrored, Layout, Steady, TableOf, Fat, Range, StoreFails, InFat;
    ghost var a := fs.Now();
    ghost var f := Fat(a);
    Marks(a, ncl);
    MarkedDirty(a);
    res := fs.PutFat(ncl, EOC_MARK);
    ghost var b := fs.Now();
    assert res != Ok ==> SameBut(f, Fat(b), ncl, clst);
    if res == Ok && clst != 0 {
      MarkedDirty(b);
      res := fs.PutFat(clst, ncl);
      SteadyTrans(a, b, fs.Now());
      assert res != Ok ==> SameBut(f, Fat(fs.Now()), ncl, clst);
    }
  }

  /** create_chain from the search on. */
  method Append(fs: Volume, clst: Dword, scl: Dword) returns (r: Dword)
    requires Valid(fs.Now()) && 1 <= scl < fs.g.nFatent && (clst == 0 || IsCluster(Fat(fs.Now()), clst))
    modifies fs
    ensures Steady(old(fs.Now()), fs.Now())
    ensures var f, f' := Fat(old(fs.Now())), Fat(fs.Now());
            Allocated(f, clst, scl, EndMark(fs.g), r, f') || (r == DISK_ERROR && Damaged(f, clst, f'))
    ensures r == DISK_ERROR ==> !Clean(old(fs.Now()), fs.Now())
    ensures if IsFree(Fat(old(fs.Now())), r) then fs.lastClust == r && InFat(fs.g, fs.winsect)
            else fs.lastClust == old(fs.lastClust) && fs.freeClust == old(fs.freeClust)
    ensures old(Counted(fs)) && r != DISK_ERROR && (clst == 0 || Fat(old(fs.Now()))[clst] != 0) ==> Counted(fs)
  {
    hide Valid, View, FatVolume.Table, SameButMirror, Mirrored, Layout, Steady, TableOf, Fat, Range, FreeCount, InFat, Clean,
      Damaged;
    ghost var a := fs.Now();
    ghost var f := Fat(a);
    var ncl := FindFree(fs, scl);
    ghost var c := fs.Now();
    Marks(a, 0);
    if ncl <= 1 || ncl == DISK_ERROR {
      assert !IsFree(f, ncl);
      Unharmed(f, clst);
      return ncl;
    }
    var res := LinkCluster(fs, clst, ncl);
    SteadyTrans(a, c, fs.Now());
    if res != Ok {
      return DISK_ERROR;
    }
    if clst == 0 || f[clst] != 0 {
      GrownCounts(f, clst, ncl, EndMark(fs.g));
    }
    Decrement(fs.freeClust);
    fs.lastClust := ncl;
    if fs.freeClust != UNKNOWN {
      fs.freeClust := W32(fs.freeClust + 0xFFFF_FFFF);
      fs.fsiFlag := true;
    }
    r := ncl;
  }

  lemma Unharmed(f: Table, clst: Dword)
    ensures Damaged(f, clst, f)
  {}

  /** create_chain; read is the moment when it has looked at the entry of clst. */
  method CreateChain(fs: Volume, clst: Dword) returns (r: Dword, ghost read: State)
    requires Valid(fs.Now())
    modifies fs
    ensures Steady(old(fs.Now()), read) && Steady(read, fs.Now()) && Steady(old(fs.Now()), fs.Now())
    ensures Created(old(fs.Now()), old(fs.lastClust), clst, r, Fat(fs.Now()))
    ensures r == DISK_ERROR ==> !Clean(read, fs.Now())
    ensures 2 <= clst < fs.g.nFatent && ReadFails(old(fs.Now()), clst) ==> !Clean(old(fs.Now()), read)
    ensures if IsFree(Fat(old(fs.Now())), r) && Fat(fs.Now()) != Fat(old(fs.Now())) then
              fs.lastClust == r && InFat(fs.g, fs.winsect)
            else
              fs.lastClust == old(fs.lastClust) && fs.freeClust == old(fs.freeClust)
    ensures var f := Fat(old(fs.Now()));
            old(Counted(fs)) && r != DISK_ERROR && !(IsFree(f, clst) && ReadFails(old(fs.Now()), clst)) ==> Counted(fs)
  {
    hide Valid, View, FatVolume.Table, SameButMirror, Mirrored, Layout, Steady, TableOf, Fat, Range, FreeCount, ReadFails,
      InFat, Clean, Damaged, Allocated;
    ghost var a := fs.Now();
    ghost var f := Fat(a);
    Idle(a, fs.ops);
    Marks(a, 0);
    read := a;
    var scl;
    if clst == 0 {
      scl := fs.lastClust;
      if scl == 0 || scl >= fs.g.nFatent {
        scl := 1;
      }
    } else {
      var cs := fs.GetFat(clst);
      read := fs.Now();
      Idle(read, fs.ops);
      if cs < 2 {
        return 1, read;
      }
      if cs < fs.g.nFatent {
        return cs, read;
      }
      scl := clst;
    }
    r := Append(fs, clst, scl);
    SteadyTrans(a, read, fs.Now());
    AllocatedDiffers(f, clst, scl, EndMark(fs.g), r, Fat(fs.Now()));
  }

  lemma AllocatedDiffers(f: Table, clst: Dword, s: nat, e: Dword, r: Dword, f': Table)
    requires (clst == 0 || IsCluster(f, clst)) && e >= |f| && (Allocated(f, clst, s, e, r, f') || r >= |f|)
    ensures IsFree(f, r) ==> f' != f
  {}

  /** On a cluster that has a successor, create_chain returns that successor, and leaves the table alone, exactly when
      reading the entry does not fail. */
  lemma SuccessorFound(a: State, hint: Dword, clst: Dword, r: Dword, f': Table)
    requires Valid(a) && Followed(Fat(a), clst) && Created(a, hint, clst, r, f')
    ensures r == Fat(a)[clst] && f' == Fat(a) <==> !ReadFails(a, clst)
    ensures ReadFails(a, clst) && r != 0 && r != 1 && r != DISK_ERROR ==> f' != Fat(a) && f'[clst] == r
  {
    hide Valid, Layout, ReadFails, View, FatVolume.Table;
    Marks(a, 0);
  }

  /** When it does fail and a cluster is found all the same, the chain is cut behind clst: the new cluster takes the
      place of the rest, and the rest is a chain that nothing links to. */
  lemma ChainCut(f: Table, chains: set<seq<nat>>, ch: seq<nat>, i: nat, r: Dword, e: Dword)
    requires Decomposes(f, chains) && ch in chains && i + 1 < |ch| && IsFree(f, r) && e >= |f|
    ensures IsChain(f, ch) && ch[i] < |f|
    ensures var t := f[r := e][ch[i] := r];
            && IsChain(t, ch[..i + 1] + [r]) && IsChain(t, ch[i + 1..]) && !HasPredecessor(t, ch[i + 1]) && !IsChain(t, ch)
  {
    hide Decomposes;
    ChainOf(f, chains, ch);
    FreeIsOutside(f, ch, r);
    var t := f[r := e][ch[i] := r];
    CutFront(f, ch, i, r, e);
    CutRest(f, ch, i, r, e);
    if HasPredecessor(t, ch[i + 1]) {
      var d: nat :| IsCluster(t, d) && t[d] == ch[i + 1];
      assert d != r && d != ch[i] && f[d] == f[ch[i]];
      LinksAreInjective(f, chains, ch[i], d);
    }
  }

  lemma ChainOf(f: Table, chains: set<seq<nat>>, ch: seq<nat>)
    requires Decomposes(f, chains) && ch in chains
    ensures IsChain(f, ch)
  {}

  lemma CutFront(f: Table, ch: seq<nat>, i: nat, r: Dword, e: Dword)
    requires IsChain(f, ch) && i + 1 < |ch| && IsCluster(f, r) && r !in ch && e >= |f|
    ensures IsChain(f[r := e][ch[i] := r], ch[..i + 1] + [r])
  {
    var t, head := f[r := e][ch[i] := r], ch[..i + 1] + [r];
    assert forall k :: 0 <= k <= i ==> head[k] == ch[k];
    assert forall k :: 0 <= k < i ==> t[head[k]] == f[ch[k]] == head[k + 1];
  }

  lemma CutRest(f: Table, ch: seq<nat>, i: nat, r: Dword, e: Dword)
    requires IsChain(f, ch) && i + 1 < |ch| && IsCluster(f, r) && r !in ch
    ensures IsChain(f[r := e][ch[i] := r], ch[i + 1..]) && !IsChain(f[r := e][ch[i] := r], ch)
  {
    var t, rest := f[r := e][ch[i] := r], ch[i + 1..];
    assert forall k :: 0 <= k < |rest| ==> rest[k] == ch[i + 1 + k] && t[rest[k]] == f[rest[k]];
    assert ch[i + 1] in ch && t[ch[i]] == r;
  }

  /** On a usable volume create_chain allocates the first free cluster, or has none. */
  lemma UsableCreate(a: State, b: State, hint: Dword, clst: Dword, r: Dword)
    requires Usable(a) && Steady(a, b) && Created(a, hint, clst, r, Fat(b)) && (r == DISK_ERROR ==> !Clean(a, b))
    ensures Usable(b)
    ensures var f, f' := Fat(a), Fat(b);
            if Growing(f, clst) && HasFree(f) then
              IsFree(f, r) && FirstFree(f, SearchStart(f, hint, clst), r) && f' == Grown(f, clst, r, EndMark(a.g))
            else
              f' == f && r == if Growing(f, clst) then 0 else if Followed(f, clst) then f[clst] else 1
  {
    hide Valid, Layout, Steady, ReadFails, StoreFails, Fat, View, FatVolume.Table;
    Marks(a, 0);
    NothingFails(a, clst);
    var f := Fat(a);
    if IsFree(f, r) && Growing(f, clst) {
      GrownCounts(f, clst, r, EndMark(a.g));
    }
  }

  /** How far c is when counting up from s and wrapping around to 2, on a volume of n entries. */
  function Distance(s: nat, c: nat, n: nat): int { if c > s then c - s else c + n - 2 - s }

  /** Which cluster a chain is stretched by, and what becomes of the table: the nearest free cluster behind the last one
      of the chain, or behind the hint for a new chain, gets the end mark, and the last one is linked to it. */
  lemma NearestFree(a: State, b: State, hint: Dword, clst: Dword, r: Dword)
    requires Usable(a) && Steady(a, b) && Created(a, hint, clst, r, Fat(b)) && (r == DISK_ERROR ==> !Clean(a, b))
    requires clst == 0 || (2 <= clst < a.g.nFatent && Fat(a)[clst] >= a.g.nFatent)
    ensures r == 0 <==> forall c :: 2 <= c < a.g.nFatent ==> Fat(a)[c] != 0
    ensures r == 0 ==> Fat(b) == Fat(a)
    ensures r != 0 ==>
              var s: nat := if clst != 0 then clst else if 2 <= hint < a.g.nFatent then hint else 1;
              && 2 <= r < a.g.nFatent && Fat(a)[r] == 0
              && (forall c :: 2 <= c < a.g.nFatent && Fat(a)[c] == 0 ==>
                    Distance(s, r, a.g.nFatent) <= Distance(s, c, a.g.nFatent))
              && Fat(b)[r] == (match a.g.kind case Fat12 => 0xFFF case Fat16 => 0xFFFF case Fat32 => 0x0FFF_FFFF)
              && (clst != 0 ==> Fat(b)[clst] == r)
              && forall c :: 0 <= c < a.g.nFatent && c != r && c != clst ==> Fat(b)[c] == Fat(a)[c]
  {
    hide Valid, Layout, Steady, ReadFails, StoreFails, Fat, View, FatVolume.Table, Created, Usable;
    UsableCreate(a, b, hint, clst, r);
    Marks(a, 0);
    var f := Fat(a);
    if HasFree(f) {
      forall c | 2 <= c < |f| && f[c] == 0
        ensures Distance(SearchStart(f, hint, clst), r, |f|) <= Distance(SearchStart(f, hint, clst), c, |f|)
      {
        assert IsCluster(f, c);
      }
    } else {
      forall c | 2 <= c < |f|
        ensures f[c] != 0
      {
        assert !IsFree(f, c);
      }
    }
  }

  // ---- remove_chain ------------------------------------------------------------------------

  /** Zeroing an entry in use frees one cluster. */
  lemma FreedCounts(f: Table, c: Dword)
    requires IsCluster(f, c) && f[c] != 0
    ensures FreeCount(f[c := 0]) == FreeCount(f) + 1
  {
    CountUpdate(f, 2, c, 0);
  }

  /** remove_chain: zeroes what it visits.  It stops with an internal error at the reserved value 1, and may stop
      anywhere when a transfer fails. */
  method RemoveChain(fs: Volume, clst: Dword) returns (res: FResult)
    requires Valid(fs.Now())
    modifies fs
    ensures Steady(old(fs.Now()), fs.Now())
    ensures res == Ok || res == IntErr || res == DiskErr
    ensures var f, f' := Fat(old(fs.Now())), Fat(fs.Now());
            if res == DiskErr then
              && !Clean(old(fs.Now()), fs.Now())
              && forall c :: 0 <= c < |f| && f'[c] != f[c] ==> Visited(f, clst, c)
            else
              && f' == Removed(f, clst)
              && (res == Ok <==> 2 <= clst < fs.g.nFatent && !MeetsReserved(f, clst))
    ensures res != DiskErr && old(Counted(fs)) ==> Counted(fs)
  {
    hide Valid, View, FatVolume.Table, SameButMirror, Mirrored, Layout, Steady, TableOf, Fat, Range, FreeCount, ReadFails,
      StoreFails, InFat, Clean, Visited;
    ghost var a := fs.Now();
    Idle(a, fs.ops);
    if clst < 2 || clst >= fs.g.nFatent {
      return IntErr;
    }
    ghost var f := Fat(a);
    var c: Dword := clst;
    ghost var k := 0;
    while c < fs.g.nFatent
      invariant Steady(a, fs.Now()) && c >= 2 && Leads(f, clst, k, c)
      invariant Removed(Fat(fs.Now()), c) == Removed(f, clst) && MeetsReserved(Fat(fs.Now()), c) == MeetsReserved(f, clst)
      invariant forall d :: 0 <= d < |f| && Fat(fs.Now())[d] != f[d] ==> Fat(fs.Now())[d] == 0 && Visited(f, clst, d)
      invariant old(Counted(fs)) ==> Counted(fs)
      decreases FreeRoom(Fat(fs.Now()))
    {
      ghost var b := fs.Now();
      var nxt := fs.GetFat(c);
      ghost var d := fs.Now();
      SteadyTrans(a, b, d);
      if nxt == 0 {
        return Ok;
      }
      if nxt == 1 {
        return IntErr;
      }
      if nxt == DISK_ERROR {
        return DiskErr;
      }
      LeadsOn(f, clst, k, c);
      Marks(d, 0);
      FreedCounts(Fat(d), c);
      FreeRoomShrinks(Fat(d), c);
      MarkedDirty(d);
      res := fs.PutFat(c, 0);
      SteadyTrans(a, d, fs.Now());
      if res != Ok {
        return;
      }
      if fs.freeClust != UNKNOWN {
        fs.freeClust := W32(fs.freeClust + 1);
        fs.fsiFlag := true;
      }
      c, k := nxt, k + 1;
    }
    res := Ok;
  }

  // ---- what they keep -----------------------------------------------------------------------

  /** create_chain keeps the table well formed and puts exactly one cluster more in use. */
  lemma CreateKeepsWellFormed(f: Table, clst: Dword, r: Dword, e: Dword)
    requires WellFormed(f) && Growing(f, clst) && IsFree(f, r) && e >= |f|
    ensures WellFormed(Grown(f, clst, r, e))
  {
    hide IsChain, Decomposes;
    var chains :| Decomposes(f, chains);
    if clst == 0 {
      Allocate(f, chains, r, e);
    } else {
      var ch, i := InUse(f, chains, clst);
      NotTheEnd(f, ch, i);
      Extend(f, chains, ch, r, e);
    }
  }

  lemma NotTheEnd(f: Table, ch: seq<nat>, i: nat)
    requires IsChain(f, ch) && i < |ch| && f[ch[i]] >= |f|
    ensures i == |ch| - 1
  {
    assert i < |ch| - 1 ==> IsCluster(f, ch[i + 1]);
  }

  /** A well-formed table holds no reserved value. */
  lemma WellFormedIsUsable(f: Table)
    requires WellFormed(f)
    ensures NoReserved(f)
  {
    hide IsChain, Decomposes;
    var chains :| Decomposes(f, chains);
    forall c: nat | IsCluster(f, c)
      ensures f[c] != 1
    {
      if f[c] != 0 {
        var _, _ := InUse(f, chains, c);
      }
    }
  }

  lemma RemovedNoReserved(f: Table, s: nat)
    requires NoReserved(f)
    ensures NoReserved(Removed(f, s)) && !MeetsReserved(f, s)
  {
    hide Removed;
    forall c: nat | IsCluster(f, c)
      ensures Removed(f, s)[c] != 1
    {
      RemovedClearsVisited(f, s, c);
    }
    MeetsReservedIff(f, s);
  }

  datatype AllocOp = CreateOp(c: Dword) | RemoveOp(c: Dword)

  /** A removal starts at the head of a chain, or at nothing. */
  ghost predicate OnHead(f: Table, op: AllocOp) {
    op.RemoveOp? && IsCluster(f, op.c) && f[op.c] != 0 ==> !HasPredecessor(f, op.c)
  }

  lemma CreateStep(a: State, b: State, hint: Dword, clst: Dword, r: Dword)
    requires Usable(a) && Steady(a, b) && Created(a, hint, clst, r, Fat(b)) && (r == DISK_ERROR ==> !Clean(a, b))
    ensures Usable(b) && (WellFormed(Fat(a)) ==> WellFormed(Fat(b)))
    ensures r != DISK_ERROR && !ReadFails(a, clst)
  {
    hide Usable, Created, WellFormed, Allocated, ReadFails;
    UsableCreate(a, b, hint, clst, r);
    NothingFails(a, clst);
    Marks(a, 0);
    if WellFormed(Fat(a)) && Growing(Fat(a), clst) && HasFree(Fat(a)) {
      CreateKeepsWellFormed(Fat(a), clst, r, EndMark(a.g));
    }
  }

  lemma RemoveStep(a: State, b: State, c: Dword)
    requires Usable(a) && Steady(a, b) && Fat(b) == Removed(Fat(a), c)
    ensures Usable(b) && (WellFormed(Fat(a)) && OnHead(Fat(a), RemoveOp(c)) ==> WellFormed(Fat(b)))
  {
    hide Valid, Steady, Fat, WellFormed;
    RemovedNoReserved(Fat(a), c);
    if WellFormed(Fat(a)) && IsCluster(Fat(a), c) && Fat(a)[c] != 0 {
      RemoveKeepsWellFormed(Fat(a), c);
    }
  }

  /** Performs one allocation or removal. */
  method AllocOne(fs: Volume, op: AllocOp)
    requires Usable(fs.Now()) && Counted(fs)
    modifies fs
    ensures Steady(old(fs.Now()), fs.Now()) && Usable(fs.Now()) && Counted(fs)
    ensures WellFormed(Fat(old(fs.Now()))) && OnHead(Fat(old(fs.Now())), op) ==> WellFormed(Fat(fs.Now()))
  {
    hide Valid, Steady, Fat, WellFormed, Created, ReadFails, FreeCount, Removed, OnHead;
    ghost var a := fs.Now();
    match op {
      case CreateOp(c) =>
        ghost var hint := fs.lastClust;
        var r, read := CreateChain(fs, c);
        SteadyTrans(a, read, fs.Now());
        CreateStep(a, fs.Now(), hint, c, r);
      case RemoveOp(c) =>
        var res := RemoveChain(fs, c);
        RemoveStep(a, fs.Now(), c);
    }
  }

  /** Any sequence of create_chain and remove_chain calls keeps a known free count right and, as long as chains are
      removed from their heads, the clusters in use a set of disjoint chains; trace lists the tables. */
  method AllocAll(fs: Volume, ops: seq<AllocOp>) returns (ghost trace: seq<Table>)
    requires Valid(fs.Now()) && NoFaults(fs.fails) && WellFormed(Fat(fs.Now())) && Counted(fs)
    modifies fs
    ensures Valid(fs.Now()) && Counted(fs) && |trace| == |ops| + 1
    ensures trace[0] == Fat(old(fs.Now())) && trace[|ops|] == Fat(fs.Now())
    ensures forall n :: 0 <= n <= |ops| && (forall i :: 0 <= i < n ==> OnHead(trace[i], ops[i])) ==> WellFormed(trace[n])
  {
    hide Valid, Steady, Fat, WellFormed, OnHead, FreeCount;
    WellFormedIsUsable(Fat(fs.Now()));
    trace := [Fat(fs.Now())];
    for i := 0 to |ops|
      invariant Usable(fs.Now()) && Counted(fs) && |trace| == i + 1
      invariant trace[0] == Fat(old(fs.Now())) && trace[i] == Fat(fs.Now())
      invariant forall n :: 0 <= n <= i && (forall j :: 0 <= j < n ==> OnHead(trace[j], ops[j])) ==> WellFormed(trace[n])
    {
      AllocOne(fs, ops[i]);
      trace := trace + [Fat(fs.Now())];
    }
  }
}
