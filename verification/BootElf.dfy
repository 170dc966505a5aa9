/** bootelf's segment loop, a client of f_lseek and f_read on a file open for reading. */
module BootElf {
  import opened Arithmetic
  import opened SectorBytes
  import opened FatVolume
  import opened FatFileState
  import opened FatFile

  /** The fields of an Elf32_Phdr that the loader reads. */
  datatype Phdr = Phdr(ptype: Dword, offset: Dword, vaddr: Dword, filesz: Dword, memsz: Dword)

  const PT_LOAD: Dword := 1

  function Max(a: nat, b: nat): nat { if a > b then a else b }

  /** A segment whose destination exists and whose sums stay in a machine integer. */
  predicate Loadable(p: Phdr, memSize: nat) {
    p.filesz < 0x8000_0000 && p.offset + p.filesz < 0x1_0000_0000 && p.vaddr + Max(p.filesz, p.memsz) <= memSize
  }

  /** The part of the file image of a segment that the file has. */
  function Available(file: seq<Byte>, offset: nat, n: nat): (d: seq<Byte>)
    ensures |d| <= n
  {
    if offset >= |file| then [] else file[offset..if offset + n < |file| then offset + n else |file|]
  }

  function Zeros(n: nat): (z: seq<Byte>)
    ensures |z| == n
  {
    seq(n, _ => 0)
  }

  /** Memory after one segment is loaded: the file image, then zeros up to the memory size. */
  function Loaded(mem: seq<Byte>, file: seq<Byte>, p: Phdr): (m: seq<Byte>)
    requires Loadable(p, |mem|)
    ensures |m| == |mem|
  {
    if p.ptype != PT_LOAD then mem
    else
      var m := Splice(mem, p.vaddr, Available(file, p.offset, p.filesz));
      if p.memsz > p.filesz then Splice(m, p.vaddr + p.filesz, Zeros(p.memsz - p.filesz)) else m
  }

  function LoadedAll(mem: seq<Byte>, file: seq<Byte>, ps: seq<Phdr>): (m: seq<Byte>)
    requires forall i :: 0 <= i < |ps| ==> Loadable(ps[i], |mem|)
    ensures |m| == |mem|
    decreases |ps|
  {
    if ps == [] then mem else Loaded(LoadedAll(mem, file, ps[..|ps| - 1]), file, ps[|ps| - 1])
  }

  /** Copies bytes into memory. */
  method Copy(mem: array<Byte>, at: nat, data: seq<Byte>)
    requires at + |data| <= mem.Length
    modifies mem
    ensures mem[..] == Splice(old(mem[..]), at, data)
  {
    for i := 0 to |data|
      invariant mem[..] == Splice(old(mem[..]), at, data[..i])
    {
      mem[at + i] := data[i];
      assert data[..i + 1][..i] == data[..i];
    }
    assert data[..|data|] == data;
  }

  /** Reading the next chunk extends what has been read so far. */
  lemma NextChunk(file: seq<Byte>, offset: nat, done: nat, n: nat)
    ensures var pos := if offset + done < |file| then offset + done else |file|;
            var end := if pos + n < |file| then pos + n else |file|;
            && Available(file, offset, done) + file[pos..end] == Available(file, offset, done + n)
            && (file[pos..end] != [] ==> |Available(file, offset, done)| == done)
  {
    if offset + done < |file| {
      var pos := offset + done;
      var end := if pos + n < |file| then pos + n else |file|;
      assert Available(file, offset, done) == file[offset..pos];
      SliceJoin(file, offset, pos, end);
    } else {
      assert file[|file|..|file|] == [];
      assert Available(file, offset, done) == Available(file, offset, done + n);
    }
  }

  /** Writing e right behind d; nothing is written where d fell short. */
  lemma SpliceNext(m: seq<Byte>, at: nat, d: seq<Byte>, next: nat, e: seq<Byte>)
    requires at + |d| + |e| <= |m| && next + |e| <= |m| && (e != [] ==> next == at + |d|)
    ensures Splice(Splice(m, at, d), next, e) == Splice(m, at, d + e)
  {}

  lemma LoadableMeans(p: Phdr, size: nat)
    requires Loadable(p, size)
    ensures p.vaddr + p.filesz <= size && p.vaddr + p.memsz <= size && p.filesz < 0x8000_0000
    ensures p.offset + p.filesz < 0x1_0000_0000
  {}

  lemma NothingToRead(m: seq<Byte>, at: nat, file: seq<Byte>, offset: nat)
    requires at <= |m|
    ensures Splice(m, at, Available(file, offset, 0)) == m
  {}

  /** Address a belongs to the memory image of a loaded segment. */
  predicate Covers(p: Phdr, a: nat) {
    p.ptype == 1 && p.vaddr <= a < p.vaddr + Max(p.filesz, p.memsz)
  }

  /** A file that only reads sees the same bytes wherever it is moved. */
  ghost predicate Steadfast(f: File, file: seq<Byte>)
    reads f, f.fs
  {
    f.Open() && !f.error && f.canRead && !f.canWrite && Content(f.Now()) == file
  }

  /** f_lseek then f_read: the slice at the offset, wherever the file position was before, unless a transfer fails. */
  method SeekAndRead(f: File, ofs: Dword, n: nat, ghost file: seq<Byte>) returns (ok: bool, data: seq<Byte>)
    requires Steadfast(f, file)
    modifies f, f.fs
    ensures Later(old(f.Now()), f.Now()) && |data| <= n
    ensures ok ==>
              && Steadfast(f, file)
              && var pos := if ofs < |file| then ofs else |file|;
                 data == file[pos..if pos + n < |file| then pos + n else |file|]
    ensures !ok ==> f.error && !f.Smooth(old(f.fs.ops), f.fs.ops)
  {
    hide Inv, ChainInv, Content, Later, Sectors;
    ghost var x := f.Now();
    var rc := f.Lseek(ofs);
    if rc != Ok {
      return false, [];
    }
    ghost var y := f.Now();
    var rd;
    rd, data := f.Read(n);
    LaterTrans(x, y, f.Now());
    ok := rd == Ok;
  }

  /** Memory is the same but for n bytes at an address. */
  ghost predicate SameOutside(m: seq<Byte>, w: seq<Byte>, at: nat, n: nat) {
    |w| == |m| && forall a :: 0 <= a < |m| && !(at <= a < at + n) ==> w[a] == m[a]
  }

  lemma SpliceOutside(m: seq<Byte>, at: nat, d: seq<Byte>, n: nat)
    requires at + |d| <= |m| && |d| <= n
    ensures SameOutside(m, Splice(m, at, d), at, n)
  {}

  lemma SameTwice(m: seq<Byte>, w: seq<Byte>, at: nat, n: nat, next: nat, d: seq<Byte>)
    requires SameOutside(m, w, at, n) && at <= next && next + |d| <= at + n && next + |d| <= |w|
    ensures SameOutside(m, Splice(w, next, d), at, n)
  {}

  /** The chunk loop of one segment. */
  method LoadChunks(f: File, mem: array<Byte>, p: Phdr, ghost file: seq<Byte>) returns (ok: bool)
    requires Steadfast(f, file) && Loadable(p, mem.Length)
    modifies f, f.fs, mem
    ensures Later(old(f.Now()), f.Now()) && SameOutside(old(mem[..]), mem[..], p.vaddr, p.filesz)
    ensures ok ==>
              Steadfast(f, file) && mem[..] == Splice(old(mem[..]), p.vaddr, Available(file, p.offset, p.filesz))
    ensures !ok ==> f.error && !f.Smooth(old(f.fs.ops), f.fs.ops)
  {
    hide Steadfast, Splice, Available, Later, SameOutside;
    ghost var m, x := mem[..], f.Now();
    NothingToRead(m, p.vaddr, file, p.offset);
    FileGoesOn(f, file);
    var chunk: nat := 0;
    while chunk < p.filesz
      invariant Steadfast(f, file) && Later(x, f.Now())
      invariant mem[..] == Splice(m, p.vaddr, Available(file, p.offset, if chunk < p.filesz then chunk else p.filesz))
    {
      ghost var y := f.Now();
      var toRead := p.filesz - chunk;
      if toRead > 32768 {
        toRead := 32768;
      }
      NextChunk(file, p.offset, chunk, toRead);
      var rc, data := SeekAndRead(f, p.offset + chunk, toRead, file);
      LaterTrans(x, y, f.Now());
      if !rc {
        SpliceOutside(m, p.vaddr, Available(file, p.offset, chunk), p.filesz);
        SameTwice(m, mem[..], p.vaddr, p.filesz, p.vaddr + chunk, data);
        Copy(mem, p.vaddr + chunk, data);
        return false;
      }
      SpliceNext(m, p.vaddr, Available(file, p.offset, chunk), p.vaddr + chunk, data);
      Copy(mem, p.vaddr + chunk, data);
      chunk := chunk + 32768;
    }
    SpliceOutside(m, p.vaddr, Available(file, p.offset, p.filesz), p.filesz);
    ok := true;
  }

  lemma FileGoesOn(f: File, file: seq<Byte>)
    requires Steadfast(f, file)
    ensures Later(f.Now(), f.Now())
  {
    KeptSelf(f.Now());
  }

  /** Addresses that no segment covers are left alone. */
  ghost predicate NoSegment(m: seq<Byte>, w: seq<Byte>, ps: seq<Phdr>) {
    |w| == |m| && forall a :: 0 <= a < |m| && (forall p <- ps :: !Covers(p, a)) ==> w[a] == m[a]
  }

  lemma LoadedNoSegment(m: seq<Byte>, file: seq<Byte>, ps: seq<Phdr>)
    requires forall i :: 0 <= i < |ps| ==> Loadable(ps[i], |m|)
    ensures NoSegment(m, LoadedAll(m, file, ps), ps)
  {
    hide Loadable, Covers, LoadedAll;
    forall a | 0 <= a < |m| && (forall p <- ps :: !Covers(p, a))
      ensures LoadedAll(m, file, ps)[a] == m[a]
    {
      OutsideKept(m, file, ps, a);
    }
  }

  /** A segment that could not be loaded in full. */
  lemma BrokenNoSegment(m: seq<Byte>, v: seq<Byte>, w: seq<Byte>, ps: seq<Phdr>, i: nat)
    requires i < |ps| && ps[i].ptype == PT_LOAD && NoSegment(m, v, ps[..i])
    requires SameOutside(v, w, ps[i].vaddr, ps[i].filesz)
    ensures NoSegment(m, w, ps)
  {
    forall a | 0 <= a < |m| && (forall p <- ps :: !Covers(p, a))
      ensures w[a] == m[a]
    {
      assert !Covers(ps[i], a);
      assert forall p <- ps[..i] :: p in ps;
    }
  }

  /** The two stores of one segment, and of every segment in turn.  If a transfer fails, the image is not complete, but
      memory outside of the segments is as it was. */
  method LoadSegments(f: File, mem: array<Byte>, ps: seq<Phdr>, ghost file: seq<Byte>) returns (ok: bool)
    requires Steadfast(f, file) && forall i :: 0 <= i < |ps| ==> Loadable(ps[i], mem.Length)
    modifies f, f.fs, mem
    ensures ok ==> Steadfast(f, file) && mem[..] == LoadedAll(old(mem[..]), file, ps)
    ensures !ok ==> f.error && !f.Smooth(old(f.fs.ops), f.fs.ops) && NoSegment(old(mem[..]), mem[..], ps)
  {
    hide Steadfast, Splice, Available, Loadable, Later, SameOutside, NoSegment;
    ghost var m, x := mem[..], f.Now();
    FileGoesOn(f, file);
    for i := 0 to |ps|
      invariant Steadfast(f, file) && mem[..] == LoadedAll(m, file, ps[..i]) && Later(x, f.Now())
    {
      var p := ps[i];
      assert ps[..i + 1][..i] == ps[..i];
      LoadableMeans(p, mem.Length);
      NothingToRead(mem[..], p.vaddr, file, p.offset);
      if p.ptype == PT_LOAD {
        if p.filesz > 0 {
          ghost var y, v := f.Now(), mem[..];
          var rc := LoadChunks(f, mem, p, file);
          LaterTrans(x, y, f.Now());
          if !rc {
            LoadedNoSegment(m, file, ps[..i]);
            BrokenNoSegment(m, v, mem[..], ps, i);
            return false;
          }
        }
        if p.memsz > p.filesz {
          Copy(mem, p.vaddr + p.filesz, Zeros(p.memsz - p.filesz));
        }
      }
    }
    assert ps[..|ps|] == ps;
    ok := true;
  }

  /** One byte of memory after one segment is loaded. */
  lemma LoadedByte(mem: seq<Byte>, file: seq<Byte>, p: Phdr, a: nat)
    requires Loadable(p, |mem|) && a < |mem|
    ensures !Covers(p, a) ==> Loaded(mem, file, p)[a] == mem[a]
    ensures Covers(p, a) && a < p.vaddr + p.filesz ==>
              Loaded(mem, file, p)[a] == if p.offset + (a - p.vaddr) < |file| then file[p.offset + (a - p.vaddr)] else mem[a]
    ensures Covers(p, a) && a >= p.vaddr + p.filesz ==> Loaded(mem, file, p)[a] == 0
  {}

  /** Memory outside every segment is left alone. */
  lemma {:induction false} OutsideKept(mem: seq<Byte>, file: seq<Byte>, ps: seq<Phdr>, a: nat)
    requires forall i :: 0 <= i < |ps| ==> Loadable(ps[i], |mem|)
    requires a < |mem| && forall i :: 0 <= i < |ps| ==> !Covers(ps[i], a)
    ensures LoadedAll(mem, file, ps)[a] == mem[a]
    decreases |ps|
  {
    if ps != [] {
      var n := |ps| - 1;
      OutsideKept(mem, file, ps[..n], a);
      LoadedByte(LoadedAll(mem, file, ps[..n]), file, ps[n], a);
    }
  }

  /** A byte of segment k that no later segment covers holds the file's byte, or zero behind the file
      image; where the file is too short it keeps the value it had before the segment was loaded. */
  lemma {:induction false} ImageLoaded(mem: seq<Byte>, file: seq<Byte>, ps: seq<Phdr>, k: nat, a: nat)
    requires forall i :: 0 <= i < |ps| ==> Loadable(ps[i], |mem|)
    requires k < |ps| && a < |mem| && Covers(ps[k], a) && forall j :: k < j < |ps| ==> !Covers(ps[j], a)
    ensures var p := ps[k];
            LoadedAll(mem, file, ps)[a] ==
              if a >= p.vaddr + p.filesz then 0
              else if p.offset + (a - p.vaddr) < |file| then file[p.offset + (a - p.vaddr)]
              else LoadedAll(mem, file, ps[..k])[a]
    decreases |ps|
  {
    var n := |ps| - 1;
    LoadedByte(LoadedAll(mem, file, ps[..n]), file, ps[n], a);
    if k < n {
      ImageLoaded(mem, file, ps[..n], k, a);
      assert ps[..n][..k] == ps[..k];
    }
  }
}
