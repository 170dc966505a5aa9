/** Long file names in directory entries: fit_lfn writes thirteen characters of a name into an entry,
    pick_lfn collects them again, cmp_lfn compares them. */
module Lfn {
  import opened Arithmetic
  import opened FatTable

  const MAX_LFN := 255

  /** Offset in the entry of its s-th character. */
  function LfnOfs(s: nat): (o: nat)
    requires s < 13
    ensures 0 < o <= 30
    ensures o != 11 && o != 12 && o != 13 && o != 10 && o != 25 && o != 26 && o != 27
  {
    if s < 5 then 1 + 2 * s else if s < 11 then 14 + 2 * (s - 5) else 28 + 2 * (s - 11)
  }

  lemma OffsetsApart(s: nat, t: nat)
    requires s < t < 13
    ensures LfnOfs(s) + 2 <= LfnOfs(t)
  {}

  /** A name: no terminator and no filler among its characters. */
  ghost predicate Name(name: seq<Word>) {
    name != [] && forall i :: 0 <= i < |name| ==> name[i] != 0 && name[i] != 0xFFFF
  }

  /** The name, its terminator, and filler without end. */
  ghost function Padded(name: seq<Word>, i: nat): Word {
    if i < |name| then name[i] else if i == |name| then 0 else 0xFFFF
  }

  /** How many entries a name takes. */
  function EntryCount(len: nat): nat { (len + 12) / 13 }

  /** The entry is the last part of the name. */
  ghost predicate IsLast(name: seq<Word>, ord: nat) { |name| <= 13 * ord }

  /** An entry that holds part ord of the name, counted from 1. */
  ghost predicate Holds(e: seq<Byte>, name: seq<Word>, ord: nat, sum: Byte) {
    && |e| == 32 && 1 <= ord <= 20 && 13 * (ord - 1) < |name|
    && e[0] == (if IsLast(name, ord) then ord + 64 else ord)
    && e[11] == 0x0F && e[12] == 0 && e[13] == sum && e[26] == 0 && e[27] == 0
    && forall s :: 0 <= s < 13 ==> LdWord(e, LfnOfs(s)) == Padded(name, 13 * (ord - 1) + s)
  }

  /** The buffer holds the name and its terminator. */
  ghost predicate Terminated(b: seq<Word>, name: seq<Word>) {
    |name| < |b| && (forall i :: 0 <= i < |name| ==> b[i] == name[i]) && b[|name|] == 0
  }

  /** fit_lfn. */
  method FitLfn(lfnbuf: array<Word>, dir: array<Byte>, ord: Byte, sum: Byte, ghost name: seq<Word>)
    requires Name(name) && Terminated(lfnbuf[..], name) && dir.Length == 32
    requires 1 <= ord <= 20 && 13 * (ord - 1) < |name|
    modifies dir
    ensures Holds(dir[..], name, ord, sum)
  {
    dir[13] := sum;
    dir[11] := 0x0F;
    dir[12] := 0;
    dir[26], dir[27] := 0, 0;
    var i := (ord - 1) * 13;
    var s: nat, wc: Word := 0, 0;
    while s < 13
      invariant s <= 13 && dir[11] == 0x0F && dir[12] == 0 && dir[13] == sum && dir[26] == 0 && dir[27] == 0
      invariant (ord - 1) * 13 <= i <= |name| + 1
      invariant wc == 0xFFFF <==> (ord - 1) * 13 + s > |name|
      invariant i == if wc == 0xFFFF then |name| + 1 else (ord - 1) * 13 + s
      invariant forall t :: 0 <= t < s ==> LdWord(dir[..], LfnOfs(t)) == Padded(name, 13 * (ord - 1) + t)
    {
      if wc != 0xFFFF {
        wc := lfnbuf[i];
        i := i + 1;
      }
      forall t | 0 <= t < s
        ensures LfnOfs(t) + 2 <= LfnOfs(s)
      {
        OffsetsApart(t, s);
      }
      dir[LfnOfs(s)], dir[LfnOfs(s) + 1] := wc % 256, wc / 256;
      if wc == 0 {
        wc := 0xFFFF;
      }
      s := s + 1;
    }
    var last := wc == 0xFFFF || lfnbuf[i] == 0;
    dir[0] := if last then ord + 64 else ord;
  }

  /** The index of the first character of an entry, as unsigned arithmetic computes it. */
  function FirstIndex(ord: nat): nat {
    if ord == 0 then 0xFFFF_FFF3 else (ord - 1) * 13
  }

  /** The index behind the last character pick_lfn stores for an entry. */
  ghost function EndIndex(name: seq<Word>, ord: nat): nat {
    if |name| < 13 * ord then |name| + 1 else 13 * ord
  }

  /** pick_lfn: collects the characters of an entry; it fails when the buffer cannot take the characters
      and, behind the last of them, one more terminator. */
  method PickLfn(lfnbuf: array<Word>, dir: seq<Byte>, ghost name: seq<Word>, ghost ord: nat, ghost sum: Byte) returns (ok: bool)
    requires lfnbuf.Length == MAX_LFN + 1 && Name(name) && Holds(dir, name, ord, sum)
    modifies lfnbuf
    ensures ok <==> EndIndex(name, ord) <= MAX_LFN && (IsLast(name, ord) ==> EndIndex(name, ord) < MAX_LFN)
    ensures ok ==> forall k :: 13 * (ord - 1) <= k < EndIndex(name, ord) ==> lfnbuf[k] == Padded(name, k)
    ensures ok && IsLast(name, ord) ==> lfnbuf[EndIndex(name, ord)] == 0
    ensures forall k :: 0 <= k <= MAX_LFN && !(13 * (ord - 1) <= k <= EndIndex(name, ord)) ==> lfnbuf[k] == old(lfnbuf[k])
    ensures !IsLast(name, ord) && EndIndex(name, ord) <= MAX_LFN ==> lfnbuf[EndIndex(name, ord)] == old(lfnbuf[EndIndex(name, ord)])
  {
    var i := FirstIndex(dir[0] % 64);
    assert i == 13 * (ord - 1);
    var s: nat, wc: Word := 0, 1;
    while s < 13
      invariant s <= 13 && (wc == 0 <==> 13 * (ord - 1) + s > |name|)
      invariant i == if wc == 0 then |name| + 1 else 13 * (ord - 1) + s
      invariant i <= MAX_LFN || s == 0
      invariant forall k :: 13 * (ord - 1) <= k < i && k <= MAX_LFN ==> lfnbuf[k] == Padded(name, k)
      invariant forall k :: 0 <= k <= MAX_LFN && !(13 * (ord - 1) <= k < i) ==> lfnbuf[k] == old(lfnbuf[k])
    {
      var uc := LdWord(dir, LfnOfs(s));
      if wc != 0 {
        if i >= MAX_LFN {
          return false;
        }
        lfnbuf[i] := uc;
        wc := uc;
        i := i + 1;
      } else if uc != 0xFFFF {
        return false;
      }
      s := s + 1;
    }
    if dir[0] / 64 % 2 == 1 {
      if i >= MAX_LFN {
        return false;
      }
      lfnbuf[i] := 0;
    }
    ok := true;
  }

  /** What an upper-case conversion does to the terminator. */
  ghost predicate CaseMap(up: Word -> Word) {
    forall c: Word :: up(c) == 0 <==> c == 0
  }

  /** cmp_lfn: an entry matches when its characters, up to the terminator, are those of the buffer in upper
      case, and the buffer ends where a name that fills its last entry ends. */
  method CmpLfn(lfnbuf: array<Word>, dir: seq<Byte>, up: Word -> Word, ghost name: seq<Word>, ghost ord: nat, ghost sum: Byte)
    returns (same: bool)
    requires lfnbuf.Length == MAX_LFN + 1 && Name(name) && Holds(dir, name, ord, sum) && CaseMap(up)
    ensures same <==>
              && EndIndex(name, ord) <= MAX_LFN
              && (forall k :: 13 * (ord - 1) <= k < EndIndex(name, ord) ==> up(lfnbuf[k]) == up(Padded(name, k)))
              && (|name| == 13 * ord ==> lfnbuf[|name|] == 0)
  {
    var i := FirstIndex(dir[0] % 64 + (dir[0] / 128) * 128);
    assert i == 13 * (ord - 1);
    var s: nat, wc: Word := 0, 1;
    while s < 13
      invariant s <= 13 && (wc == 0 <==> 13 * (ord - 1) + s > |name|)
      invariant i == if wc == 0 then |name| + 1 else 13 * (ord - 1) + s
      invariant i <= MAX_LFN || s == 0
      invariant forall k :: 13 * (ord - 1) <= k < i && k <= MAX_LFN ==> up(lfnbuf[k]) == up(Padded(name, k))
    {
      var uc := LdWord(dir, LfnOfs(s));
      if wc != 0 {
        wc := up(uc);
        if i >= MAX_LFN {
          return false;
        }
        if wc != up(lfnbuf[i]) {
          return false;
        }
        i := i + 1;
      } else if uc != 0xFFFF {
        return false;
      }
      s := s + 1;
    }
    same := !(dir[0] / 64 % 2 == 1 && wc != 0 && lfnbuf[i] != 0);
  }

  /** The entries of a name as they stand in the directory: the last part first. */
  ghost predicate Stored(es: seq<seq<Byte>>, name: seq<Word>, sum: Byte) {
    |es| == EntryCount(|name|) && forall j :: 0 <= j < |es| ==> Holds(es[j], name, |es| - j, sum)
  }

  /** Exactly the first stored entry carries the flag of the last part. */
  lemma OneLastEntry(es: seq<seq<Byte>>, name: seq<Word>, sum: Byte, j: nat)
    requires Name(name) && Stored(es, name, sum) && j < |es|
    ensures es[j][0] / 64 % 2 == 1 <==> j == 0
  {
    assert Holds(es[j], name, |es| - j, sum);
  }

  /** The loops of dir_register that count the entries and fill them, the last part first. */
  method StoreName(lfnbuf: array<Word>, sum: Byte, ghost name: seq<Word>) returns (es: seq<seq<Byte>>)
    requires lfnbuf.Length == MAX_LFN + 1 && Name(name) && Terminated(lfnbuf[..], name)
    ensures Stored(es, name, sum)
  {
    var len := 0;
    while lfnbuf[len] != 0
      invariant len <= |name|
      decreases |name| - len
    {
      len := len + 1;
    }
    var ne := (len + 25) / 13 - 1;
    es := [];
    ghost var n := ne;
    while ne > 0
      invariant 0 <= ne <= n == EntryCount(|name|) <= 20 && |es| == n - ne
      invariant forall j :: 0 <= j < |es| ==> Holds(es[j], name, n - j, sum)
    {
      var dir := new Byte[32](_ => 0);
      FitLfn(lfnbuf, dir, ne, sum, name);
      es := es + [dir[..]];
      ne := ne - 1;
    }
  }

  /** Reading the entries back restores the name exactly when it has at most 253 characters. */
  method LoadName(lfnbuf: array<Word>, es: seq<seq<Byte>>, ghost name: seq<Word>, ghost sum: Byte) returns (ok: bool)
    requires lfnbuf.Length == MAX_LFN + 1 && Name(name) && |name| <= MAX_LFN && Stored(es, name, sum)
    modifies lfnbuf
    ensures ok <==> |name| <= 253
    ensures ok ==> Terminated(lfnbuf[..], name)
  {
    ok := true;
    var j := 0;
    while j < |es|
      invariant 0 <= j <= |es| && (j > 0 ==> |name| <= 253)
      invariant j > 0 ==> forall k :: 13 * (|es| - j) <= k <= |name| ==> lfnbuf[k] == Padded(name, k)
    {
      ghost var ord := |es| - j;
      assert Holds(es[j], name, ord, sum);
      ok := PickLfn(lfnbuf, es[j], name, ord, sum);
      if !ok {
        return;
      }
      j := j + 1;
    }
  }

  /** Every entry stored for a name matches that name exactly when the name has at most 254 characters. */
  method MatchName(lfnbuf: array<Word>, es: seq<seq<Byte>>, up: Word -> Word, ghost name: seq<Word>, ghost sum: Byte)
    returns (same: bool)
    requires lfnbuf.Length == MAX_LFN + 1 && Name(name) && Terminated(lfnbuf[..], name) && Stored(es, name, sum) && CaseMap(up)
    ensures same <==> |name| <= 254
  {
    same := true;
    assert forall k :: 0 <= k <= |name| ==> lfnbuf[k] == Padded(name, k);
    var j := 0;
    while j < |es|
      invariant 0 <= j <= |es| && (j > 0 ==> |name| <= 254)
    {
      ghost var ord := |es| - j;
      assert Holds(es[j], name, ord, sum);
      same := CmpLfn(lfnbuf, es[j], up, name, ord, sum);
      if !same {
        return;
      }
      j := j + 1;
    }
  }

  const BOOT_NAME: seq<Word> := [0x62, 0x6F, 0x6F, 0x74, 0x2E, 0x65, 0x6C, 0x66]

  const BOOT_ENTRY: seq<Byte> :=
    [0x41, 0x62, 0, 0x6F, 0, 0x6F, 0, 0x74, 0, 0x2E, 0, 0x0F, 0, 0x5A, 0x65, 0,
     0x6C, 0, 0x66, 0, 0, 0, 0xFF, 0xFF, 0xFF, 0xFF, 0, 0, 0xFF, 0xFF, 0xFF, 0xFF]

  /** The entry of the name "boot.elf": its characters at 1, 3, 5, 7, 9 and from 14 on, the terminator and filler. */
  lemma BootElfEntry()
    ensures Holds(BOOT_ENTRY, BOOT_NAME, 1, 0x5A)
  {
    forall s | 0 <= s < 13
      ensures LdWord(BOOT_ENTRY, LfnOfs(s)) == Padded(BOOT_NAME, 13 * 0 + s)
    {
      if s < 4 {
      } else if s < 8 {
      } else if s < 11 {
      }
    }
  }
}
