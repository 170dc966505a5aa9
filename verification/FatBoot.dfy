/** A boot sector byte by byte: which sectors chk_mounted accepts, and what geometry it takes from them. */
module FatBoot {
  import opened Arithmetic
  import opened FatTable
  import opened FatGeometry
  import opened Options

  /** The number that bytes make up, the lowest first. */
  function Number(t: seq<Byte>): nat {
    if t == [] then 0 else t[0] as int + 256 * Number(t[1..])
  }

  lemma Number2(t: seq<Byte>, i: nat)
    requires i + 2 <= |t|
    ensures Number(t[i..i + 2]) == t[i] as int + 256 * (t[i + 1] as int) == LdWord(t, i)
  {
    var s := [t[i + 1]];
    assert t[i..i + 2][1..] == s && s[1..] == [];
    assert Number(s) == t[i + 1];
  }

  lemma Number4(t: seq<Byte>, i: nat)
    requires i + 4 <= |t|
    ensures Number(t[i..i + 4]) == LdDword(t, i)
    ensures Number(t[i..i + 4]) ==
            t[i] as int + 256 * (t[i + 1] as int) + 0x1_0000 * (t[i + 2] as int) + 0x100_0000 * (t[i + 3] as int)
  {
    assert t[i..i + 4][1..] == t[i + 1..i + 4];
    assert t[i + 1..i + 4][1..] == t[i + 2..i + 4];
    Number2(t, i + 2);
  }

  /** The size in sectors of one FAT, and of the volume: of two fields the first that is not zero. */
  function FatSize(win: seq<Byte>): nat
    requires |win| == 512
  {
    if Number(win[22..24]) != 0 then Number(win[22..24]) else Number(win[36..40])
  }

  function VolumeSize(win: seq<Byte>): nat
    requires |win| == 512
  {
    if Number(win[19..21]) != 0 then Number(win[19..21]) else Number(win[32..36])
  }

  /** Reserved sectors, FATs and root directory, in 32 bits. */
  function SystemSize(win: seq<Byte>): nat
    requires |win| == 512
  {
    (Number(win[14..16]) + win[16] as int * FatSize(win) + Number(win[17..19]) / 16) % 0x1_0000_0000
  }

  function ClusterCount(win: seq<Byte>): nat
    requires |win| == 512 && win[13] > 0 && SystemSize(win) <= VolumeSize(win)
  {
    (VolumeSize(win) - SystemSize(win)) / win[13] as int
  }

  /** The sectors that the table of n clusters needs, in 32 bits. */
  function NeededSize(n: nat): nat {
    var entries := (n + 2) % 0x1_0000_0000;
    var bytes :=
      if n >= 65526 then 4 * entries % 0x1_0000_0000
      else if n >= 4086 then 2 * entries
      else (3 * entries + 1) / 2;
    (bytes + 511) % 0x1_0000_0000 / 512
  }

  /** The boot sectors that are accepted. */
  predicate Acceptable(win: seq<Byte>)
    requires |win| == 512
  {
    && win[11] == 0 && win[12] == 2
    && (win[16] == 1 || win[16] == 2)
    && ClusterSize(win[13])
    && Number(win[17..19]) % 16 == 0
    && Number(win[14..16]) != 0
    && SystemSize(win) <= VolumeSize(win)
    && ClusterCount(win) > 0
    && (ClusterCount(win) >= 65526 <==> Number(win[17..19]) == 0)
    && NeededSize(ClusterCount(win)) <= FatSize(win)
  }

  /** The geometry of an accepted boot sector at sector bsect. */
  predicate Describes(win: seq<Byte>, bsect: Dword, g: Geometry)
    requires |win| == 512 && Acceptable(win)
  {
    && g.kind == (if ClusterCount(win) >= 65526 then Fat32 else if ClusterCount(win) >= 4086 then Fat16 else Fat12)
    && g.csize == win[13] && g.nFats == win[16] && g.nRootdir == Number(win[17..19])
    && g.nFatent == (ClusterCount(win) + 2) % 0x1_0000_0000 && g.fsize == FatSize(win)
    && g.fatbase == (bsect + Number(win[14..16])) % 0x1_0000_0000
    && g.database == (bsect + SystemSize(win)) % 0x1_0000_0000
    && g.dirbase == (if g.kind.Fat32? then Number(win[44..48]) else (g.fatbase + g.nFats * g.fsize) % 0x1_0000_0000)
  }

  lemma {:induction false} LowBits(x: nat)
    ensures W32(x) == x % 0x1_0000_0000
  {
    if x >= 0x1_0000_0000 {
      LowBits(x - 0x1_0000_0000);
    }
  }

  lemma SizesAre(win: seq<Byte>)
    requires |win| == 512
    ensures var b := Decode(win);
            && b.bytesPerSec == win[11] as int + 256 * (win[12] as int) && b.numFats == win[16] && b.secPerClus == win[13]
            && b.fatSz == FatSize(win) && b.totSec == VolumeSize(win) && b.rootEntCnt == Number(win[17..19])
            && b.rsvdSecCnt == Number(win[14..16]) && b.rootClus == Number(win[44..48])
  {
    hide Number;
    Number2(win, 11);
    Number2(win, 14);
    Number2(win, 17);
    Number2(win, 19);
    Number2(win, 22);
    Number4(win, 32);
    Number4(win, 36);
    Number4(win, 44);
  }

  lemma SystemIs(win: seq<Byte>)
    requires |win| == 512 && (win[16] == 1 || win[16] == 2)
    ensures Sysect(Decode(win)) == SystemSize(win)
    ensures W32(FatSectors(Decode(win))) == win[16] as int * FatSize(win) % 0x1_0000_0000
  {
    hide Number, FatSize, Decode;
    SizesAre(win);
    var b := Decode(win);
    assert FatSectors(b) == win[16] as int * FatSize(win);
    LowBits(FatSectors(b));
    LowBits(b.rsvdSecCnt as int + W32(FatSectors(b)) + b.rootEntCnt / 16);
  }

  lemma NeededIs(n: nat)
    ensures W32(TableBytes(KindOf(n), W32(n + 2)) + 511) / 512 == NeededSize(n)
  {
    if n >= 65526 {
      LargeNeeds(n);
    } else {
      SmallNeeds(n);
    }
  }

  lemma LargeNeeds(n: nat)
    requires n >= 65526
    ensures W32(TableBytes(KindOf(n), W32(n + 2)) + 511) / 512 == NeededSize(n)
  {
    hide W32;
    var e: nat := W32(n + 2);
    LowBits(n + 2);
    LowBits(e * 4);
    LowBits(W32(e * 4) + 511);
  }

  lemma SmallNeeds(n: nat)
    requires n < 65526
    ensures W32(TableBytes(KindOf(n), W32(n + 2)) + 511) / 512 == NeededSize(n)
  {
    hide W32;
    var e: nat := n + 2;
    Small(e);
    if n >= 4086 {
      Small(e * 2);
      Small(e * 2 + 511);
    } else {
      Small(e * 3);
      HalfUp(e);
      var bytes: nat := (3 * e + 1) / 2;
      Small(bytes);
      Small(bytes + 511);
    }
  }

  lemma Small(x: nat)
    requires x < 0x1_0000_0000
    ensures W32(x) == x && x % 0x1_0000_0000 == x
  {}

  lemma HalfUp(e: nat)
    ensures e * 3 / 2 + e % 2 == (3 * e + 1) / 2
  {
    DivMod(e * 3, 2, e + e / 2, e % 2);
    DivMod(3 * e + 1, 2, e + e / 2 + e % 2, 1 - e % 2);
  }

  lemma ClustersAre(win: seq<Byte>)
    requires |win| == 512 && (win[16] == 1 || win[16] == 2) && win[13] > 0
    ensures SystemSize(win) <= VolumeSize(win) ==> Clusters(Decode(win)) == ClusterCount(win)
  {
    hide Number, FatSize, VolumeSize, SystemSize, Decode, Sysect;
    SizesAre(win);
    SystemIs(win);
  }

  /** Exactly these sectors are accepted. */
  lemma AcceptedIff(win: seq<Byte>, bsect: Dword)
    requires |win| == 512
    ensures Mount(Decode(win), bsect).Some? <==> Acceptable(win)
  {
    hide Number, FatSize, VolumeSize, SystemSize, Decode, Sysect, TableBytes, NeededSize, Clusters, And, W32;
    SizesAre(win);
    if win[16] == 1 || win[16] == 2 {
      SystemIs(win);
      if win[13] > 0 {
        ClearLowestBit(win[13]);
        ClusterSizes(win[13]);
        ClustersAre(win);
        if SystemSize(win) <= VolumeSize(win) {
          NeededIs(ClusterCount(win));
        }
      }
    }
  }

  /** And this is what they say. */
  lemma AcceptedDescribes(win: seq<Byte>, bsect: Dword)
    requires |win| == 512 && Acceptable(win) && Mount(Decode(win), bsect).Some?
    ensures Describes(win, bsect, Mount(Decode(win), bsect).value)
  {
    hide Number, FatSize, VolumeSize, SystemSize, Decode, Sysect, TableBytes, NeededSize, Clusters, And, W32, ClusterCount;
    SizesAre(win);
    SystemIs(win);
    ClustersAre(win);
    LowBits(ClusterCount(win) + 2);
    LowBits(bsect + Number(win[14..16]));
    LowBits(bsect + SystemSize(win));
    var g := Mount(Decode(win), bsect).value;
    LowBits(g.fatbase + W32(FatSectors(Decode(win))));
    SumOfRemainders(g.fatbase, win[16] as int * FatSize(win));
  }

  lemma SumOfRemainders(x: nat, y: nat)
    ensures (x + y % 0x1_0000_0000) % 0x1_0000_0000 == (x + y) % 0x1_0000_0000
  {}

  /** chk_mounted on the bytes of a boot sector: which it accepts, and the geometry.  The volume serves exactly when
      nothing wraps around. */
  method ChkMounted(win: seq<Byte>, bsect: Dword) returns (r: Option<Geometry>)
    requires |win| == 512
    ensures r.Some? <==> Acceptable(win)
    ensures r.Some? ==> Describes(win, bsect, r.value)
    ensures r == Mount(Decode(win), bsect)
    ensures r.Some? ==> (NoWrap(Decode(win), bsect) <==> Serves(r.value, bsect, Decode(win).totSec))
  {
    hide LdWord, LdDword, W32, Quotient, Acceptable, Describes;
    ghost var rec := Decode(win);
    AcceptedIff(win, bsect);
    if Acceptable(win) {
      AcceptedDescribes(win, bsect);
    }
    if LdWord(win, 11) != 512 {
      return None;
    }
    var fasize: Dword := LdWord(win, 22);
    if fasize == 0 {
      fasize := LdDword(win, 36);
    }
    var fsize, nFats := fasize, win[16];
    if nFats != 1 && nFats != 2 {
      return None;
    }
    fasize := W32(fasize * nFats);
    var csize := win[13];
    if csize == 0 || And(csize, csize - 1) != 0 {
      return None;
    }
    var nRootdir := LdWord(win, 17);
    if nRootdir % 16 != 0 {
      return None;
    }
    var tsect: Dword := LdWord(win, 19);
    if tsect == 0 {
      tsect := LdDword(win, 32);
    }
    var nrsv := LdWord(win, 14);
    if nrsv == 0 {
      return None;
    }
    var sysect := W32(nrsv + fasize + nRootdir / 16);
    assert sysect == Sysect(rec);
    if tsect < sysect {
      return None;
    }
    var nclst := Quotient(tsect - sysect, csize);
    if nclst == 0 {
      return None;
    }
    var fmt := Fat12;
    if nclst >= MIN_FAT16 {
      fmt := Fat16;
    }
    if nclst >= MIN_FAT32 {
      fmt := Fat32;
    }
    var nFatent: nat, database, fatbase := W32(nclst + 2), W32(bsect + sysect), W32(bsect + nrsv);
    var dirbase, szbfat;
    if fmt == Fat32 {
      if nRootdir != 0 {
        return None;
      }
      dirbase, szbfat := LdDword(win, 44), W32(nFatent * 4);
    } else {
      if nRootdir == 0 {
        return None;
      }
      dirbase := W32(fatbase + fasize);
      szbfat := if fmt == Fat16 then W32(nFatent * 2) else W32(W32(nFatent * 3) / 2 + nFatent % 2);
    }
    if fsize < W32(szbfat + 511) / 512 {
      return None;
    }
    r := Some(Geometry(fmt, csize, nFats, nRootdir, nFatent, fsize, fatbase, dirbase, database));
    MountServesIff(rec, bsect, r.value);
  }

  /** The boot sector of a card of 7580 MB: 8 sectors a cluster, 32 reserved sectors, two FATs of 15131 sectors. */
  function CardByte(i: nat): Byte {
    if i == 12 then 0x02 else if i == 13 then 0x08 else if i == 14 then 0x20 else if i == 16 then 0x02
    else if i == 33 then 0xE0 else if i == 34 then 0xEC else if i == 36 then 0x1B else if i == 37 then 0x3B
    else if i == 44 then 0x02 else 0x00
  }

  function Card(): (s: seq<Byte>)
    ensures |s| == 512 && forall i :: 0 <= i < 512 ==> s[i] == CardByte(i)
  {
    seq(512, i requires 0 <= i < 512 => CardByte(i))
  }

  lemma CardNumbers()
    ensures var w := Card();
            && Number(w[14..16]) == 32 && Number(w[17..19]) == Number(w[19..21]) == Number(w[22..24]) == 0
            && Number(w[32..36]) == 15523840 && Number(w[36..40]) == 15131 && Number(w[44..48]) == 2
  {
    hide Number, Card;
    var w := Card();
    Number2(w, 14);
    Number2(w, 17);
    Number2(w, 19);
    Number2(w, 22);
    Number4(w, 32);
    Number4(w, 36);
    Number4(w, 44);
  }

  /** It is mounted as the FAT32 volume that it is. */
  method MountsCard() returns (r: Option<Geometry>)
    ensures r == Some(Geometry(Fat32, 8, 2, 0, 1936695, 15131, 8224, 2, 38486))
  {
    hide Number, Card, Mount, Decode, NoWrap, Serves;
    var w := Card();
    CardNumbers();
    assert SystemSize(w) == 30294 && VolumeSize(w) == 15523840;
    assert ClusterCount(w) == 1936693;
    assert NeededSize(1936693) == 15131;
    r := ChkMounted(w, 8192);
  }
}
