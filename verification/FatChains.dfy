/** Cluster chains in an allocation table, and what allocating and freeing does to them.

    Entry c of a table f of length n is 0 for a free cluster, a number from 2 to n - 1 for
    the next cluster of the chain, and at least n at the end of a chain.
 */
module FatChains {
  import opened Arithmetic

  type Table = seq<Dword>

  /** c names a cluster of the volume. */
  ghost predicate IsCluster(f: Table, c: nat) { 2 <= c < |f| }

  ghost predicate IsFree(f: Table, c: nat) { IsCluster(f, c) && f[c] == 0 }

  ghost predicate HasFree(f: Table) { exists c: nat :: IsFree(f, c) }

  /** No entry holds the reserved value 1, which get_fat's callers take for an error. */
  ghost predicate NoReserved(f: Table) { forall c: nat :: IsCluster(f, c) ==> f[c] != 1 }

  ghost predicate Distinct(s: seq<nat>) { forall i, j :: 0 <= i < j < |s| ==> s[i] != s[j] }

  /** ch runs through the table from its head to an end mark, never twice through a cluster. */
  ghost predicate IsChain(f: Table, ch: seq<nat>) {
    && ch != []
    && (forall i :: 0 <= i < |ch| ==> IsCluster(f, ch[i]))
    && (forall i :: 0 <= i < |ch| - 1 ==> f[ch[i]] == ch[i + 1])
    && f[ch[|ch| - 1]] >= |f|
    && Distinct(ch)
  }

  ghost predicate Disjoint(a: seq<nat>, b: seq<nat>) { forall c :: c in a ==> c !in b }

  /** The clusters in use fall into the given chains, each cluster into exactly one. */
  ghost predicate Decomposes(f: Table, chains: set<seq<nat>>) {
    && (forall ch :: ch in chains ==> IsChain(f, ch))
    && (forall a, b :: a in chains && b in chains && a != b ==> Disjoint(a, b))
    && (forall c: nat :: IsCluster(f, c) && f[c] != 0 ==> Covered(chains, c))
  }

  ghost predicate Covered(chains: set<seq<nat>>, c: nat) { exists ch :: ch in chains && c in ch }

  /** The entry of a cluster on a chain is the next cluster, or the end mark. */
  lemma OnChain(f: Table, ch: seq<nat>, c: nat) returns (i: nat)
    requires IsChain(f, ch) && c in ch
    ensures i < |ch| && ch[i] == c && f[c] > 1
    ensures if i < |ch| - 1 then f[c] == ch[i + 1] else f[c] >= |f|
  {
    i :| 0 <= i < |ch| && ch[i] == c;
    if i < |ch| - 1 {
      assert IsCluster(f, ch[i + 1]);
    }
  }

  lemma SharedCluster(f: Table, chains: set<seq<nat>>, a: seq<nat>, b: seq<nat>, c: nat)
    requires Decomposes(f, chains) && a in chains && b in chains && c in a && c in b
    ensures a == b && IsChain(f, a)
  {
    assert a != b ==> Disjoint(a, b);
  }

  lemma InUse(f: Table, chains: set<seq<nat>>, c: nat) returns (ch: seq<nat>, i: nat)
    requires Decomposes(f, chains) && IsCluster(f, c) && f[c] != 0
    ensures ch in chains && IsChain(f, ch) && i < |ch| && ch[i] == c && f[c] > 1
    ensures if i < |ch| - 1 then f[c] == ch[i + 1] else f[c] >= |f|
  {
    assert Covered(chains, c);
    ch :| ch in chains && c in ch;
    i := OnChain(f, ch, c);
  }

  /** No link leads into a free cluster. */
  lemma NoLinkToFree(f: Table, chains: set<seq<nat>>, c: nat)
    requires Decomposes(f, chains) && IsCluster(f, c) && IsCluster(f, f[c])
    ensures f[f[c]] > 1
  {
    hide Decomposes, IsChain;
    var ch, i := InUse(f, chains, c);
    var j := OnChain(f, ch, ch[i + 1]);
  }

  /** No two links lead into one cluster. */
  lemma LinksAreInjective(f: Table, chains: set<seq<nat>>, c: nat, d: nat)
    requires Decomposes(f, chains) && IsCluster(f, c) && IsCluster(f, f[c]) && IsCluster(f, d) && f[d] == f[c]
    ensures d == c
  {
    hide Decomposes, IsChain;
    var ch, i := InUse(f, chains, c);
    var ch', j := InUse(f, chains, d);
    SharedCluster(f, chains, ch, ch', f[c]);
    OnceOnly(f, ch, i + 1, j + 1);
  }

  lemma OnceOnly(f: Table, ch: seq<nat>, i: nat, j: nat)
    requires IsChain(f, ch) && i < |ch| && j < |ch| && ch[i] == ch[j]
    ensures i == j
  {}

  /** Every cluster in use reaches the end of a chain: there are no cycles. */
  ghost predicate EndsWithin(f: Table, c: nat, k: nat)
    decreases k
  {
    IsCluster(f, c) && f[c] != 0 && (f[c] >= |f| || (k > 0 && EndsWithin(f, f[c], k - 1)))
  }

  lemma {:induction false} ChainEnds(f: Table, ch: seq<nat>, i: nat)
    requires IsChain(f, ch) && i < |ch|
    ensures EndsWithin(f, ch[i], |ch| - 1 - i)
    decreases |ch| - i
  {
    if i < |ch| - 1 {
      ChainEnds(f, ch, i + 1);
    }
  }

  lemma NoCycles(f: Table, chains: set<seq<nat>>, c: nat) returns (k: nat)
    requires Decomposes(f, chains) && IsCluster(f, c) && f[c] != 0
    ensures EndsWithin(f, c, k)
  {
    var ch :| ch in chains && c in ch;
    var i :| 0 <= i < |ch| && ch[i] == c;
    ChainEnds(f, ch, i);
    k := |ch| - 1 - i;
  }

  /** Chains of one table are chains of another that has the same entries along them. */
  lemma ChainUnchanged(f: Table, f': Table, ch: seq<nat>)
    requires IsChain(f, ch) && |f'| == |f| && forall c :: c in ch ==> c < |f| && f'[c] == f[c]
    ensures IsChain(f', ch)
  {}

  lemma NewCluster(f: Table, c: nat, e: Dword)
    requires IsCluster(f, c) && e >= |f|
    ensures IsChain(f[c := e], [c])
  {}

  lemma CoveredMore(chains: set<seq<nat>>, ch: seq<nat>, d: nat)
    requires Covered(chains, d) || d in ch
    ensures Covered(chains + {ch}, d)
  {
    if d in ch {
      assert ch in chains + {ch};
    } else {
      var a :| a in chains && d in a;
      assert a in chains + {ch};
    }
  }

  /** Marking a free cluster as an end makes a new chain of one cluster. */
  lemma Allocate(f: Table, chains: set<seq<nat>>, c: nat, e: Dword)
    requires Decomposes(f, chains) && IsFree(f, c) && e >= |f|
    ensures Decomposes(f[c := e], chains + {[c]})
  {
    hide IsChain, Covered;
    var f' := f[c := e];
    NewCluster(f, c, e);
    forall ch | ch in chains
      ensures c !in ch && IsChain(f', ch)
    {
      FreeIsOutside(f, ch, c);
      ChainInTable(f, ch);
      ChainUnchanged(f, f', ch);
    }
    forall d: nat | IsCluster(f', d) && f'[d] != 0
      ensures Covered(chains + {[c]}, d)
    {
      CoveredMore(chains, [c], d);
    }
  }

  lemma ChainInTable(f: Table, ch: seq<nat>)
    requires IsChain(f, ch)
    ensures forall c :: c in ch ==> c < |f|
  {}

  lemma FreeIsOutside(f: Table, ch: seq<nat>, c: nat)
    requires IsChain(f, ch) && IsFree(f, c)
    ensures c !in ch
  {
    if c in ch {
      var i := OnChain(f, ch, c);
    }
  }

  /** The two stores that link a free cluster behind the end of a chain. */
  ghost function Linked(f: Table, ch: seq<nat>, c: nat, e: Dword): (r: Table)
    requires IsChain(f, ch) && IsFree(f, c)
    ensures |r| == |f|
  {
    f[c := e][ch[|ch| - 1] := c]
  }

  lemma LinkedChain(f: Table, ch: seq<nat>, c: nat, e: Dword)
    requires IsChain(f, ch) && IsFree(f, c) && e >= |f|
    ensures IsChain(Linked(f, ch, c, e), ch + [c])
  {
    FreeIsOutside(f, ch, c);
    var f' := Linked(f, ch, c, e);
    forall i | 0 <= i < |ch| - 1
      ensures f'[ch[i]] == ch[i + 1]
    {
      assert ch[i] in ch;
    }
  }

  lemma OtherChainKept(f: Table, chains: set<seq<nat>>, ch: seq<nat>, other: seq<nat>, c: nat, e: Dword)
    requires Decomposes(f, chains) && ch in chains && other in chains && other != ch && IsFree(f, c)
    ensures IsChain(f, ch)
    ensures IsChain(Linked(f, ch, c, e), other) && Disjoint(other, ch + [c]) && Disjoint(ch + [c], other)
  {
    FreeIsOutside(f, other, c);
    assert Disjoint(other, ch) && Disjoint(ch, other);
    assert ch[|ch| - 1] in ch;
    ChainUnchanged(f, Linked(f, ch, c, e), other);
  }

  /** Linking the end of a chain to a free cluster appends that cluster to the chain. */
  lemma Extend(f: Table, chains: set<seq<nat>>, ch: seq<nat>, c: nat, e: Dword)
    requires Decomposes(f, chains) && ch in chains && IsFree(f, c) && e >= |f|
    ensures IsChain(f, ch)
    ensures Decomposes(Linked(f, ch, c, e), chains - {ch} + {ch + [c]})
  {
    hide IsChain, Disjoint, Covered;
    var f', chains' := Linked(f, ch, c, e), chains - {ch} + {ch + [c]};
    LinkedChain(f, ch, c, e);
    forall other | other in chains && other != ch
      ensures IsChain(f', other) && Disjoint(other, ch + [c]) && Disjoint(ch + [c], other)
    {
      OtherChainKept(f, chains, ch, other, c, e);
    }
    forall d: nat | IsCluster(f', d) && f'[d] != 0
      ensures Covered(chains', d)
    {
      LinkedInUse(f, chains, ch, c, e, d);
      StillCovered(chains, ch, c, d);
    }
  }

  lemma LinkedInUse(f: Table, chains: set<seq<nat>>, ch: seq<nat>, c: nat, e: Dword, d: nat)
    requires Decomposes(f, chains) && ch in chains && IsChain(f, ch) && IsFree(f, c)
    requires IsCluster(f, d) && Linked(f, ch, c, e)[d] != 0
    ensures d == c || Covered(chains, d)
  {
    if d == ch[|ch| - 1] {
      assert d in ch;
    }
  }

  lemma StillCovered(chains: set<seq<nat>>, ch: seq<nat>, c: nat, d: nat)
    requires d == c || (Covered(chains, d) && ch in chains)
    ensures Covered(chains - {ch} + {ch + [c]}, d)
  {
    var chains' := chains - {ch} + {ch + [c]};
    assert ch + [c] in chains';
    if d != c {
      var k :| k in chains && d in k;
      assert k == ch || k in chains';
    }
  }

  /** f with the entries of s set to zero. */
  ghost function Cleared(f: Table, s: seq<nat>): (r: Table)
    ensures |r| == |f|
    ensures forall c :: 0 <= c < |f| ==> r[c] == if c in s then 0 else f[c]
  {
    seq(|f|, c requires 0 <= c < |f| => if c in s then 0 else f[c])
  }

  /** Zeroing the entries of a chain removes that chain and nothing else. */
  lemma Release(f: Table, chains: set<seq<nat>>, ch: seq<nat>)
    requires Decomposes(f, chains) && ch in chains
    ensures Decomposes(Cleared(f, ch), chains - {ch})
  {
    var f' := Cleared(f, ch);
    forall other | other in chains - {ch}
      ensures IsChain(f', other)
    {
      assert Disjoint(other, ch);
      ChainUnchanged(f, f', other);
    }
    forall d: nat | IsCluster(f', d) && f'[d] != 0
      ensures Covered(chains - {ch}, d)
    {
      assert Covered(chains, d);
    }
  }

  /** The number of free clusters from c on. */
  ghost function FreeFrom(f: Table, c: nat): (n: nat)
    requires c <= |f|
    decreases |f| - c
    ensures n <= |f| - c
  {
    if c == |f| then 0 else (if f[c] == 0 then 1 else 0) + FreeFrom(f, c + 1)
  }

  /** The number of free clusters of the volume. */
  ghost function FreeCount(f: Table): (n: nat)
    requires |f| >= 2
    ensures n <= |f| - 2
  {
    FreeFrom(f, 2)
  }

  lemma {:induction false} CountUpdate(f: Table, c: nat, at: nat, v: Dword)
    requires c <= at < |f|
    ensures FreeFrom(f[at := v], c) == FreeFrom(f, c) + (if v == 0 then 1 else 0) - (if f[at] == 0 then 1 else 0)
    decreases at - c
  {
    if c < at {
      CountUpdate(f, c + 1, at, v);
    } else {
      CountSuffix(f, f[at := v], c + 1);
    }
  }

  lemma {:induction false} CountSuffix(f: Table, f': Table, c: nat)
    requires |f'| == |f| && c <= |f| && forall d :: c <= d < |f| ==> f'[d] == f[d]
    ensures FreeFrom(f', c) == FreeFrom(f, c)
    decreases |f| - c
  {
    if c < |f| {
      CountSuffix(f, f', c + 1);
    }
  }

  /** The table that remove_chain leaves: it zeroes a cluster and goes on to the entry it held.  It stops at a free
      cluster, at the end of the chain, and at the reserved value 1. */
  ghost function Removed(f: Table, c: nat): (r: Table)
    ensures |r| == |f|
    decreases FreeRoom(f)
  {
    if !IsCluster(f, c) || f[c] <= 1 then f
    else
      FreeRoomShrinks(f, c);
      Removed(f[c := 0], f[c])
  }

  /** The number of clusters that are not free. */
  ghost function FreeRoom(f: Table): nat {
    if |f| < 2 then 0 else |f| - 2 - FreeCount(f)
  }

  lemma FreeRoomShrinks(f: Table, c: nat)
    requires IsCluster(f, c) && f[c] != 0
    ensures FreeRoom(f[c := 0]) == FreeRoom(f) - 1
  {
    CountUpdate(f, 2, c, 0);
  }

  /** Following k links from s leads to c, over clusters in use. */
  ghost predicate Reaches(f: Table, s: nat, k: nat, c: nat)
    decreases k
  {
    IsCluster(f, s) && f[s] > 1 && if k == 0 then s == c else Reaches(f, f[s], k - 1, c)
  }

  ghost predicate Visited(f: Table, s: nat, c: nat) { exists k: nat :: Reaches(f, s, k, c) }

  /** remove_chain zeroes exactly the clusters reached from its start, on any table. */
  lemma {:induction false} RemovedClearsVisited(f: Table, s: nat, c: nat)
    requires c < |f|
    ensures Removed(f, s)[c] == if Visited(f, s, c) then 0 else f[c]
    decreases FreeRoom(f)
  {
    if IsCluster(f, s) && f[s] > 1 {
      FreeRoomShrinks(f, s);
      var f' := f[s := 0];
      RemovedClearsVisited(f', f[s], c);
      if Visited(f', f[s], c) {
        var k: nat :| Reaches(f', f[s], k, c);
        StillReached(f, s, f[s], k, c);
        assert Reaches(f, s, k + 1, c);
      } else if Visited(f, s, c) {
        assert Removed(f', f[s])[c] == f'[c];
        if c != s {
          var k: nat :| Reaches(f, s, k, c);
          var j := AvoidStart(f, s, k, c);
        }
      } else {
        assert Reaches(f, s, 0, s);
      }
    }
  }

  /** Following the links from c, remove_chain comes to a cluster that holds the reserved value 1. */
  ghost predicate MeetsReserved(f: Table, c: nat)
    decreases FreeRoom(f)
  {
    if !IsCluster(f, c) || f[c] == 0 then false
    else if f[c] == 1 then true
    else
      FreeRoomShrinks(f, c);
      MeetsReserved(f[c := 0], f[c])
  }

  /** Cluster c holds 1, and is s or the one a visited cluster links to. */
  ghost predicate ReservedBehind(f: Table, s: nat, c: nat) {
    IsCluster(f, c) && f[c] == 1 && (c == s || exists d: nat :: d < |f| && Visited(f, s, d) && f[d] == c)
  }

  /** It does so exactly when s or a cluster linked to by a visited one holds 1. */
  lemma {:induction false} MeetsReservedIff(f: Table, s: nat)
    ensures MeetsReserved(f, s) <==> exists c: nat :: ReservedBehind(f, s, c)
    decreases FreeRoom(f)
  {
    if IsCluster(f, s) && f[s] > 1 {
      FreeRoomShrinks(f, s);
      var f' := f[s := 0];
      MeetsReservedIff(f', f[s]);
      forall c: nat
        ensures ReservedBehind(f, s, c) <==> ReservedBehind(f', f[s], c)
      {
        ReservedStep(f, s, c);
      }
    } else {
      forall d: nat
        ensures !Visited(f, s, d)
      {}
      assert IsCluster(f, s) && f[s] == 1 ==> ReservedBehind(f, s, s);
    }
  }

  lemma ReservedStep(f: Table, s: nat, c: nat)
    requires IsCluster(f, s) && f[s] > 1
    ensures ReservedBehind(f, s, c) <==> ReservedBehind(f[s := 0], f[s], c)
  {
    var f' := f[s := 0];
    assert Reaches(f, s, 0, s);
    if ReservedBehind(f, s, c) {
      var d: nat :| d < |f| && Visited(f, s, d) && f[d] == c;
      if d != s {
        var k: nat :| Reaches(f, s, k, d);
        var j := AvoidStart(f, s, k, d);
        assert Visited(f', f[s], d) && f'[d] == c;
      }
    }
    if ReservedBehind(f', f[s], c) && c != f[s] {
      var d: nat :| d < |f| && Visited(f', f[s], d) && f'[d] == c;
      var k: nat :| Reaches(f', f[s], k, d);
      StillReached(f, s, f[s], k, d);
      assert Reaches(f, s, k + 1, d);
      InTable(f', f[s], k, d);
    }
  }

  lemma {:induction false} InTable(f: Table, s: nat, k: nat, c: nat)
    requires Reaches(f, s, k, c)
    ensures IsCluster(f, c) && f[c] > 1
    decreases k
  {
    if k > 0 {
      InTable(f, f[s], k - 1, c);
    }
  }

  /** Following k links from s over clusters in use leads to c. */
  ghost predicate Leads(f: Table, s: nat, k: nat, c: nat)
    decreases k
  {
    if k == 0 then s == c else IsCluster(f, s) && f[s] > 1 && Leads(f, f[s], k - 1, c)
  }

  lemma {:induction false} LeadsOn(f: Table, s: nat, k: nat, c: nat)
    requires Leads(f, s, k, c) && IsCluster(f, c) && f[c] > 1
    ensures Leads(f, s, k + 1, f[c]) && Visited(f, s, c)
    decreases k
  {
    LeadsReaches(f, s, k, c);
    if k > 0 {
      LeadsOn(f, f[s], k - 1, c);
    }
  }

  lemma {:induction false} LeadsReaches(f: Table, s: nat, k: nat, c: nat)
    requires Leads(f, s, k, c) && IsCluster(f, c) && f[c] > 1
    ensures Reaches(f, s, k, c)
    decreases k
  {
    if k > 0 {
      LeadsReaches(f, f[s], k - 1, c);
    }
  }

  lemma {:induction false} StillReached(f: Table, s: nat, t: nat, k: nat, c: nat)
    requires IsCluster(f, s) && Reaches(f[s := 0], t, k, c)
    ensures Reaches(f, t, k, c)
    decreases k
  {
    if k > 0 {
      StillReached(f, s, f[t], k - 1, c);
    }
  }

  /** A path to c either stays clear of s, or comes to s with fewer links left. */
  lemma {:induction false} Detour(f: Table, s: nat, t: nat, k: nat, c: nat) returns (through: bool, j: nat)
    requires IsCluster(f, s) && Reaches(f, t, k, c) && c != s
    ensures if through then j <= k && Reaches(f, s, j, c) else Reaches(f[s := 0], t, j, c)
    decreases k
  {
    if t == s || k == 0 {
      through, j := t == s, k;
    } else {
      through, j := Detour(f, s, f[t], k - 1, c);
      if !through {
        j := j + 1;
      }
    }
  }

  /** What s reaches in some links, its successor reaches without coming back to s. */
  lemma {:induction false} AvoidStart(f: Table, s: nat, k: nat, c: nat) returns (j: nat)
    requires Reaches(f, s, k, c) && c != s
    ensures Reaches(f[s := 0], f[s], j, c)
    decreases k
  {
    var through, i := Detour(f, s, f[s], k - 1, c);
    if through {
      j := AvoidStart(f, s, i, c);
    } else {
      j := i;
    }
  }

  lemma {:induction false} ChainReaches(f: Table, ch: seq<nat>, i: nat, k: nat)
    requires IsChain(f, ch) && i + k < |ch|
    ensures Reaches(f, ch[i], k, ch[i + k])
    decreases k
  {
    var j := OnChain(f, ch, ch[i]);
    if k > 0 {
      ChainReaches(f, ch, i + 1, k - 1);
    }
  }

  lemma {:induction false} ReachesOnlyChain(f: Table, ch: seq<nat>, i: nat, k: nat, c: nat)
    requires IsChain(f, ch) && i < |ch| && Reaches(f, ch[i], k, c)
    ensures c in ch
    decreases k
  {
    if k > 0 && i < |ch| - 1 {
      ReachesOnlyChain(f, ch, i + 1, k - 1, c);
    }
  }

  /** Called on the head of a chain, remove_chain clears that chain. */
  lemma RemovedChain(f: Table, ch: seq<nat>)
    requires IsChain(f, ch)
    ensures Removed(f, ch[0]) == Cleared(f, ch)
  {
    forall c: nat | c < |f|
      ensures Removed(f, ch[0])[c] == Cleared(f, ch)[c]
    {
      RemovedClearsVisited(f, ch[0], c);
      if c in ch {
        var i := OnChain(f, ch, c);
        ChainReaches(f, ch, 0, i);
      } else if Visited(f, ch[0], c) {
        var k: nat :| Reaches(f, ch[0], k, c);
        ReachesOnlyChain(f, ch, 0, k, c);
      }
    }
  }

  /** The clusters in use form disjoint chains without cycles, and no link leads into a free cluster. */
  ghost predicate WellFormed(f: Table) { exists chains: set<seq<nat>> :: Decomposes(f, chains) }

  /** Some cluster links to c. */
  ghost predicate HasPredecessor(f: Table, c: nat) { exists d: nat :: IsCluster(f, d) && f[d] == c }

  /** Following links from a cluster of a chain never leads back before it. */
  lemma {:induction false} ReachesForward(f: Table, ch: seq<nat>, i: nat, k: nat, c: nat) returns (j: nat)
    requires IsChain(f, ch) && i < |ch| && Reaches(f, ch[i], k, c)
    ensures i <= j < |ch| && ch[j] == c
    decreases k
  {
    if k == 0 {
      j := i;
    } else {
      var _ := OnChain(f, ch, ch[i]);
      if i < |ch| - 1 {
        j := ReachesForward(f, ch, i + 1, k - 1, c);
      }
    }
  }

  /** Removing from a cluster in use keeps the table well formed exactly when nothing links to it. */
  lemma RemoveKeepsWellFormed(f: Table, c: nat)
    requires WellFormed(f) && IsCluster(f, c) && f[c] != 0
    ensures WellFormed(Removed(f, c)) <==> !HasPredecessor(f, c)
  {
    hide IsChain, Decomposes, Removed, Reaches;
    var chains :| Decomposes(f, chains);
    var ch, i := InUse(f, chains, c);
    if i == 0 {
      RemovedChain(f, ch);
      Release(f, chains, ch);
      HeadHasNoPredecessor(f, chains, ch);
    } else {
      LinkBefore(f, ch, i);
      BrokenLink(f, ch, i);
      if WellFormed(Removed(f, c)) {
        var after :| Decomposes(Removed(f, c), after);
        NoLinkToFree(Removed(f, c), after, ch[i - 1]);
      }
    }
  }

  lemma HeadHasNoPredecessor(f: Table, chains: set<seq<nat>>, ch: seq<nat>)
    requires Decomposes(f, chains) && ch in chains && IsChain(f, ch)
    ensures !HasPredecessor(f, ch[0])
  {
    hide IsChain, Decomposes;
    HeadIsCluster(f, ch);
    forall d: nat | IsCluster(f, d)
      ensures f[d] != ch[0]
    {
      if f[d] == ch[0] {
        var ch', j := InUse(f, chains, d);
        SharedCluster(f, chains, ch, ch', ch[0]);
        OnceOnly(f, ch, j + 1, 0);
      }
    }
  }

  lemma HeadIsCluster(f: Table, ch: seq<nat>)
    requires IsChain(f, ch)
    ensures ch != [] && IsCluster(f, ch[0])
  {}

  lemma LinkBefore(f: Table, ch: seq<nat>, i: nat)
    requires IsChain(f, ch) && 0 < i < |ch|
    ensures IsCluster(f, ch[i - 1]) && f[ch[i - 1]] == ch[i] && IsCluster(f, ch[i])
  {}

  /** After a removal from the middle, the cluster before it links into a free one. */
  lemma BrokenLink(f: Table, ch: seq<nat>, i: nat)
    requires IsChain(f, ch) && 0 < i < |ch| && ch[i] < |f| && ch[i - 1] < |f|
    ensures Removed(f, ch[i])[ch[i]] == 0 && Removed(f, ch[i])[ch[i - 1]] == ch[i]
  {
    hide IsChain, Removed;
    LinkBefore(f, ch, i);
    var _ := OnChain(f, ch, ch[i]);
    assert Reaches(f, ch[i], 0, ch[i]);
    RemovedClearsVisited(f, ch[i], ch[i]);
    RemovedClearsVisited(f, ch[i], ch[i - 1]);
    if Visited(f, ch[i], ch[i - 1]) {
      var k: nat :| Reaches(f, ch[i], k, ch[i - 1]);
      var j := ReachesForward(f, ch, i, k, ch[i - 1]);
      OnceOnly(f, ch, j, i - 1);
    }
  }

  ghost function Numbers(n: nat): (s: set<nat>)
    ensures forall i: nat :: i in s <==> i < n
    ensures |s| == n
  {
    if n == 0 then {} else Numbers(n - 1) + {n - 1}
  }

  lemma DistinctCount(s: seq<nat>, n: nat)
    requires Distinct(s) && forall i :: 0 <= i < |s| ==> s[i] < n
    ensures |s| <= n
  {
    DistinctSet(s);
    SubsetSize(Members(s), Numbers(n));
  }

  ghost function Members(s: seq<nat>): (m: set<nat>)
    ensures forall c :: c in m <==> c in s
  {
    set c | c in s
  }

  lemma {:induction false} DistinctSet(s: seq<nat>)
    requires Distinct(s)
    ensures |Members(s)| == |s|
    decreases |s|
  {
    if s != [] {
      DistinctSet(s[1..]);
      assert Members(s) == Members(s[1..]) + {s[0]};
    }
  }

  lemma SubsetSize(a: set<nat>, b: set<nat>)
    requires a <= b
    ensures |a| <= |b|
  {
    assert b == a + (b - a);
  }

  /** A chain is no longer than the table. */
  lemma ChainLength(f: Table, ch: seq<nat>)
    requires IsChain(f, ch)
    ensures |ch| <= |f|
  {
    DistinctCount(ch, |f|);
  }

  /** The free clusters from c on, as a set. */
  ghost function FreeSet(f: Table, c: nat): set<nat> { set d | d in Numbers(|f|) && c <= d && f[d] == 0 }

  lemma {:induction false} FreeFromCounts(f: Table, c: nat)
    requires c <= |f|
    ensures FreeFrom(f, c) == |FreeSet(f, c)|
    decreases |f| - c
  {
    if c < |f| {
      FreeFromCounts(f, c + 1);
      assert FreeSet(f, c) == if f[c] == 0 then FreeSet(f, c + 1) + {c} else FreeSet(f, c + 1);
    } else {
      assert FreeSet(f, c) == {};
    }
  }

  /** The clusters below n on the given chains. */
  ghost function CoveredBelow(n: nat, chains: set<seq<nat>>): set<nat> { set c | c in Numbers(n) && Covered(chains, c) }

  /** A cluster is free, on the given chain or on another one, and only one of these. */
  lemma ThreeWays(f: Table, chain: seq<nat>, rest: set<seq<nat>>, c: nat)
    requires Decomposes(f, if chain == [] then rest else rest + {chain}) && chain !in rest && IsCluster(f, c)
    ensures f[c] == 0 ==> c !in chain && !Covered(rest, c)
    ensures c in chain ==> !Covered(rest, c)
    ensures f[c] != 0 ==> c in chain || Covered(rest, c)
  {
    var chains := if chain == [] then rest else rest + {chain};
    if c in chain {
      var _ := OnChain(f, chain, c);
    }
    if Covered(rest, c) {
      var ch :| ch in rest && c in ch;
      var _ := OnChain(f, ch, c);
      if c in chain {
        SharedCluster(f, chains, chain, ch, c);
      }
    }
    if f[c] != 0 {
      var ch, _ := InUse(f, chains, c);
      assert c in ch;
    }
  }

  lemma ChainsInside(f: Table, chain: seq<nat>, rest: set<seq<nat>>, c: nat)
    requires Decomposes(f, if chain == [] then rest else rest + {chain}) && (c in chain || Covered(rest, c))
    ensures IsCluster(f, c)
  {
    var chains := if chain == [] then rest else rest + {chain};
    if c in chain {
      assert IsChain(f, chain);
    } else {
      var ch :| ch in rest && c in ch;
      assert IsChain(f, ch);
    }
  }

  lemma ThreeSets(f: Table, chain: seq<nat>, rest: set<seq<nat>>, c: nat)
    requires |f| >= 2 && Decomposes(f, if chain == [] then rest else rest + {chain}) && chain !in rest
    ensures var free, own, others := FreeSet(f, 2), Members(chain), CoveredBelow(|f|, rest);
            && (c in free || c in own || c in others <==> 2 <= c < |f|)
            && !(c in free && c in own) && !(c in free && c in others) && !(c in own && c in others)
  {
    hide Decomposes, Covered;
    if c in Members(chain) || c in CoveredBelow(|f|, rest) {
      ChainsInside(f, chain, rest, c);
    }
    if IsCluster(f, c) {
      ThreeWays(f, chain, rest, c);
    }
  }

  lemma SizesAddUp(n: nat, free: set<nat>, own: set<nat>, others: set<nat>)
    requires n >= 2
    requires forall c: nat :: c in free || c in own || c in others <==> 2 <= c < n
    requires free !! own !! others
    ensures |free| + |own| + |others| == n - 2
  {
    var low, used := Numbers(2), own + others;
    assert |used| == |own| + |others|;
    assert |free + used| == |free| + |used|;
    assert Numbers(n) == low + (free + used);
    assert |low + (free + used)| == |low| + |free + used|;
  }

  /** The clusters of the volume are those of one chain, those of the others and the free ones. */
  lemma CountsAddUp(f: Table, chain: seq<nat>, rest: set<seq<nat>>)
    requires |f| >= 2 && Decomposes(f, if chain == [] then rest else rest + {chain}) && chain !in rest
    ensures FreeCount(f) + |chain| + |CoveredBelow(|f|, rest)| == |f| - 2
  {
    hide Decomposes, Covered, FreeSet, CoveredBelow, Distinct;
    FreeFromCounts(f, 2);
    ChainIsDistinct(f, chain, rest);
    DistinctSet(chain);
    var free, own, others := FreeSet(f, 2), Members(chain), CoveredBelow(|f|, rest);
    forall c: nat
      ensures c in free || c in own || c in others <==> 2 <= c < |f|
      ensures !(c in free && c in own) && !(c in free && c in others) && !(c in own && c in others)
    {
      ThreeSets(f, chain, rest, c);
    }
    SizesAddUp(|f|, free, own, others);
  }

  lemma ChainIsDistinct(f: Table, chain: seq<nat>, rest: set<seq<nat>>)
    requires Decomposes(f, if chain == [] then rest else rest + {chain})
    ensures Distinct(chain)
  {
    if chain != [] {
      assert chain in rest + {chain};
    }
  }

  lemma NoneFree(f: Table)
    requires |f| >= 2
    ensures FreeCount(f) == 0 <==> !HasFree(f)
  {
    FreeFromCounts(f, 2);
    if HasFree(f) {
      var c: nat :| IsFree(f, c);
      assert c in FreeSet(f, 2);
    } else if FreeSet(f, 2) != {} {
      var c :| c in FreeSet(f, 2);
      assert IsFree(f, c);
    }
  }
}
