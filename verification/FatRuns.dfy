/** Whole runs of FatFs calls: a sequence of FAT accesses is a sequence of accesses to a map, and a
    sequence of reads, writes and seeks is one on a byte string with a position. */
module FatRuns {
  import opened Arithmetic
  import opened FatTable
  import opened FatGeometry
  import opened SectorBytes
  import opened FatVolume
  import opened FatChains
  import opened FatAlloc
  import opened FatFileState
  import opened FatFile

  // ---- the allocation table ----------------------------------------------------------------

  datatype FatOp = GetOp(c: Dword) | PutOp(c: Dword, val: Dword) | MoveOp(sector: nat)

  /** One access to a map from cluster numbers to entries, each below range. */
  ghost function MapStep(f: FatChains.Table, range: nat, op: FatOp): (FatChains.Table, Dword)
    requires range > 0
  {
    match op
    case GetOp(c) => (f, if 2 <= c < |f| then f[c] else INT_ERROR)
    case PutOp(c, val) => if 2 <= c < |f| then (f[c := W32(val % range)], 0) else (f, INT_ERROR)
    case MoveOp(_) => (f, 0)
  }

  /** What a run of accesses shows, and the map it leaves. */
  ghost function MapRun(f: FatChains.Table, range: nat, ops: seq<FatOp>): (r: (FatChains.Table, seq<Dword>))
    requires range > 0
    ensures |r.1| == |ops|
    decreases |ops|
  {
    if ops == [] then (f, [])
    else
      var n := |ops| - 1;
      var (g, obs) := MapRun(f, range, ops[..n]);
      var (h, o) := MapStep(g, range, ops[n]);
      (h, obs + [o])
  }

  /** A sector that the window may be written back to. */
  predicate MayRewrite(g: Geometry, s: nat) {
    g.fatbase <= s && !(g.nFats == 2 && g.fatbase + g.fsize <= s < g.fatbase + 2 * g.fsize)
  }

  /** The access fails. */
  ghost predicate OpFails(a: State, op: FatOp) {
    match op
    case GetOp(c) => 2 <= c < a.g.nFatent && ReadFails(a, c)
    case PutOp(c, _) => 2 <= c < a.g.nFatent && StoreFails(a, c)
    case MoveOp(s) => MoveFails(a, s)
  }

  /** A store that fails at its first transfer while the window shows no sector that may be rewritten. */
  ghost predicate Unsafe(a: State, op: FatOp) {
    op.PutOp? && 2 <= op.c < a.g.nFatent && !Rewritable(a) && a.fails(a.ops)
  }

  /** One access to the volume: like one to the map when it does not fail.  One that fails says so and changes at most
      the entry it was to store.  The cache survives exactly if it is not unsafe. */
  ghost predicate Performs(a: State, op: FatOp, o: Dword, b: State)
    requires Valid(a)
  {
    && b.g == a.g && b.fails == a.fails && |b.disk| == |a.disk|
    && (Valid(b) <==> !Unsafe(a, op))
    && (OpFails(a, op) ==> o == DISK_ERROR)
    && (Valid(b) && !OpFails(a, op) ==> (Fat(b), o) == MapStep(Fat(a), Range(a.g.kind), op))
    && (Valid(b) && OpFails(a, op) ==>
          forall d :: 0 <= d < a.g.nFatent && !(op.PutOp? && d == op.c) ==> Fat(b)[d] == Fat(a)[d])
    && (op == MoveOp(0) && !OpFails(a, op) ==> (CopiesAgree(b.g, b.disk) <==> Mirrored(a) && !CopyLost(a)))
    && (Valid(b) && Mirrored(a) && Clean(a, b) ==> Mirrored(b))
  }

  /** Performs one access on the volume. */
  method Access(fs: Volume, op: FatOp) returns (o: Dword, ok: bool)
    requires Valid(fs.Now()) && (op.MoveOp? ==> op.sector < |fs.disk|)
    modifies fs`ops, fs`disk, fs`wflag, fs`win, fs`winsect
    ensures Performs(old(fs.Now()), op, o, fs.Now()) && ok == Valid(fs.Now())
    ensures fs.winsect == old(fs.winsect) || InFat(fs.g, fs.winsect) || (op.MoveOp? && fs.winsect == op.sector != 0)
  {
    hide Valid, View, FatVolume.Table, SameButMirror, Mirrored, Layout, TableOf, Steady, Range, CopiesAgree, ReadFails,
      StoreFails, MoveFails, InFat, CopyLost;
    ghost var a := fs.Now();
    match op {
      case GetOp(c) =>
        o := fs.GetFat(c);
        SteadyMirrored(a, fs.Now());
        SteadyWindow(a, fs.Now());
      case PutOp(c, val) =>
        Kept(fs.Now(), val);
        var res := fs.PutFat(c, val);
        if Valid(fs.Now()) {
          SteadyMirrored(a, fs.Now());
          SteadyWindow(a, fs.Now());
        }
        o := if res == Ok then 0 else if res == DiskErr then DISK_ERROR else INT_ERROR;
      case MoveOp(s) =>
        var moved := fs.MoveWindow(s);
        SameEntries(a, fs.Now());
        o := if moved then 0 else DISK_ERROR;
    }
    ok := !fs.wflag || MayRewrite(fs.g, fs.winsect);
    DirtyMeans(fs.Now());
  }

  lemma DirtyMeans(a: State)
    ensures Valid(a) && a.wflag ==> MayRewrite(a.g, a.winsect)
    ensures Rewritable(a) <==> MayRewrite(a.g, a.winsect)
  {}

  lemma SteadyWindow(a: State, b: State)
    requires Steady(a, b)
    ensures b.winsect == a.winsect || InFat(a.g, b.winsect)
  {}

  lemma Kept(a: State, val: Dword)
    requires Valid(a)
    ensures W32(val % Range(a.g.kind)) == val % Range(a.g.kind)
  {}

  lemma SameEntries(a: State, b: State)
    requires Valid(a) && Valid(b) && a.g == b.g && FatVolume.Table(a) == FatVolume.Table(b)
    requires SameButMirror(a.g, View(a), View(b))
    ensures Fat(a) == Fat(b) && |b.disk| == |a.disk|
  {}

  /** Window moves to sectors that may be rewritten, or none. */
  ghost predicate Tame(g: Geometry, ops: seq<FatOp>) {
    forall i :: 0 <= i < |ops| && ops[i].MoveOp? ==> ops[i].sector == 0 || MayRewrite(g, ops[i].sector)
  }

  lemma PerformedClean(a: State, op: FatOp, o: Dword, b: State)
    requires Valid(a) && Performs(a, op, o, b) && NoFaults(a.fails)
    ensures Valid(b) && (Fat(b), o) == MapStep(Fat(a), Range(a.g.kind), op) && (Mirrored(a) ==> Mirrored(b))
    ensures op == MoveOp(0) && Mirrored(a) ==> CopiesAgree(b.g, b.disk)
  {
    hide Valid, Fat, Range, Mirrored, CopiesAgree;
    if op.GetOp? || op.PutOp? {
      NothingFails(a, op.c);
    }
  }

  /** Any sequence of get_fat, put_fat and move_window calls, whatever fails: it goes through, access by access, or ends
      at the first unsafe store; trace lists its states.  From a window that may be rewritten, and with window moves
      to such sectors only, it goes through.  When nothing fails it is a sequence of accesses to a map. */
  method AccessAll(fs: Volume, ops: seq<FatOp>) returns (obs: seq<Dword>, ghost trace: seq<State>)
    requires Valid(fs.Now())
    requires forall i :: 0 <= i < |ops| && ops[i].MoveOp? ==> ops[i].sector < |fs.disk|
    modifies fs`ops, fs`disk, fs`wflag, fs`win, fs`winsect
    ensures |obs| <= |ops| && |trace| == |obs| + 1 && trace[0] == old(fs.Now()) && trace[|obs|] == fs.Now()
    ensures forall i :: 0 <= i < |obs| ==> Valid(trace[i]) && Performs(trace[i], ops[i], obs[i], trace[i + 1])
    ensures |obs| < |ops| ==> !Valid(fs.Now())
    ensures old(Rewritable(fs.Now())) && Tame(fs.g, ops) ==> Valid(fs.Now())
    ensures NoFaults(fs.fails) ==>
              Valid(fs.Now()) && (Fat(fs.Now()), obs) == MapRun(Fat(old(fs.Now())), Range(fs.g.kind), ops)
    ensures NoFaults(fs.fails) && old(Mirrored(fs.Now())) ==>
              Mirrored(fs.Now()) && (ops != [] && ops[|ops| - 1] == MoveOp(0) ==> CopiesAgree(fs.g, fs.disk))
  {
    hide Valid, Range, Fat, Mirrored, CopiesAgree, Performs, NoFaults;
    ghost var f, clean := Fat(fs.Now()), NoFaults(fs.fails);
    obs, trace := [], [fs.Now()];
    for i := 0 to |ops|
      invariant |fs.disk| == |old(fs.disk)| && Valid(fs.Now())
      invariant |obs| == i && |trace| == i + 1 && trace[0] == old(fs.Now()) && trace[i] == fs.Now()
      invariant forall j :: 0 <= j < i ==> Valid(trace[j]) && Performs(trace[j], ops[j], obs[j], trace[j + 1])
      invariant old(Rewritable(fs.Now())) && Tame(fs.g, ops) ==> Rewritable(fs.Now())
      invariant clean ==> (Fat(fs.Now()), obs) == MapRun(f, Range(fs.g.kind), ops[..i])
      invariant clean && old(Mirrored(fs.Now())) ==> Mirrored(fs.Now())
      invariant clean && old(Mirrored(fs.Now())) && i > 0 && ops[i - 1] == MoveOp(0) ==> CopiesAgree(fs.g, fs.disk)
    {
      ghost var a := fs.Now();
      var o, ok := Access(fs, ops[i]);
      Outcome(a, ops[i], o, fs.Now());
      obs, trace := obs + [o], trace + [fs.Now()];
      assert ops[..i + 1][..i] == ops[..i];
      if clean {
        PerformedClean(a, ops[i], o, fs.Now());
      }
      DirtyMeans(fs.Now());
      if !ok {
        return;
      }
    }
    assert ops[..|ops|] == ops;
  }

  lemma Outcome(a: State, op: FatOp, o: Dword, b: State)
    requires Valid(a) && Performs(a, op, o, b)
    ensures b.g == a.g && b.fails == a.fails && |b.disk| == |a.disk| && (Valid(b) <==> !Unsafe(a, op))
  {}

  // ---- files -------------------------------------------------------------------------------

  /** What a file is to its user: its bytes, a position, and whether a call on it has failed. */
  datatype ByteFile = ByteFile(content: seq<Byte>, pos: nat, failed: bool)

  datatype FileOp = ReadOp(n: nat) | WriteOp(data: seq<Byte>) | SeekOp(ofs: Dword)

  /** What a call gives: bytes, a count or nothing; some bytes or a count before it failed; or a refusal. */
  datatype FileObs = Bytes(data: seq<Byte>) | Count(n: nat) | Done | Failed(data: seq<Byte>) | CutOff(n: nat) | Refused

  /** One call on a byte file that can hold at most room bytes.  A write stops when it is full, and is refused
      as a whole when the size would not fit in 32 bits; a seek makes the file longer up to the same bound;
      only the bytes a seek brings into the file are unspecified. */
  ghost predicate FileStep(room: nat, canRead: bool, canWrite: bool, a: ByteFile, op: FileOp, obs: FileObs, b: ByteFile) {
    a.pos <= |a.content| <= room && b.pos <= |b.content| <= room && !a.failed && !b.failed &&
    match op
    case ReadOp(n) =>
      var m := if canRead then Min(n, |a.content| - a.pos) else 0;
      obs == Bytes(a.content[a.pos..a.pos + m]) && b == ByteFile(a.content, a.pos + m, false)
    case WriteOp(data) =>
      var m := if canWrite && |a.content| + |data| < 0x1_0000_0000 then Min(|data|, room - a.pos) else 0;
      obs == Count(m) && b == ByteFile(Overwritten(a.content, a.pos, data[..m]), a.pos + m, false)
    case SeekOp(ofs) =>
      && obs == Done && b.pos == Min(ofs, if canWrite then room else |a.content|)
      && |b.content| == (if b.pos > |a.content| then b.pos else |a.content|)
      && b.content[..|a.content|] == a.content
  }

  /** A call in which a transfer fails keeps the bytes of the file, but for those that a write has got to; what it has
      returned or written is right, and less than was wanted. */
  ghost predicate FailStep(canRead: bool, canWrite: bool, a: ByteFile, op: FileOp, obs: FileObs, b: ByteFile) {
    !a.failed && b.failed && a.pos <= |a.content| &&
    match op
    case ReadOp(n) =>
      && canRead && obs.Failed? && |obs.data| < Min(n, |a.content| - a.pos)
      && obs.data == a.content[a.pos..a.pos + |obs.data|] && b == ByteFile(a.content, a.pos + |obs.data|, true)
    case WriteOp(data) =>
      && canWrite && obs.CutOff? && obs.n < |data|
      && b == ByteFile(Overwritten(a.content, a.pos, data[..obs.n])[..|a.content|], a.pos + obs.n, true)
    case SeekOp(ofs) =>
      obs == Failed([]) && b.content == a.content && b.pos <= ofs && (canWrite || b.pos <= |a.content|)
  }

  /** Any call: it succeeds, or fails, or is refused because one has failed before. */
  ghost predicate CallStep(room: nat, canRead: bool, canWrite: bool, a: ByteFile, op: FileOp, obs: FileObs, b: ByteFile) {
    if a.failed then obs == Refused && b == a
    else FileStep(room, canRead, canWrite, a, op, obs, b) || FailStep(canRead, canWrite, a, op, obs, b)
  }

  /** The bytes the file can grow to: its own clusters and the free ones. */
  ghost function Room(x: FileState): nat
    requires ChainInv(x)
  {
    BytesIn(|x.chain| + FreeClusters(x), x.vol.g.csize)
  }

  ghost function FreeClusters(x: FileState): nat
    requires ChainInv(x)
  {
    FreeCount(Fat(x.vol))
  }

  /** The size of n clusters. */
  function BytesIn(n: nat, csize: nat): nat { 512 * (n * csize) }

  /** What the file can grow to is the same at every moment: a cluster it gains was free before. */
  lemma RoomKept(x: FileState, y: FileState)
    requires ChainInv(x) && ChainInv(y) && Later(x, y)
    ensures Room(x) == Room(y)
  {
    hide Decomposes, Tidy, FreeCount, CoveredBelow, BufInv, PosInv;
    CountsAddUp(Fat(x.vol), x.chain, x.rest);
    CountsAddUp(Fat(y.vol), y.chain, y.rest);
  }

  lemma RoomFull(x: FileState)
    requires ChainInv(x) && x.fsize <= 512 * Cap(x)
    ensures x.fsize <= 512 * Cap(x) <= Room(x)
    ensures !HasFree(Fat(x.vol)) ==> 512 * Cap(x) == Room(x)
  {
    hide Decomposes, Tidy, FreeCount;
    NoneFree(Fat(x.vol));
    MoreBytes(|x.chain|, FreeClusters(x), x.vol.g.csize);
  }

  lemma MoreBytes(n: nat, free: nat, csize: nat)
    ensures 512 * (n * csize) <= BytesIn(n + free, csize) && (free == 0 ==> 512 * (n * csize) == BytesIn(n, csize))
  {
    assert (n + free) * csize == n * csize + free * csize;
  }

  ghost function UserView(f: File): ByteFile
    requires f.Open()
    reads f, f.fs
  {
    ByteFile(Content(f.Now()), f.fptr, f.error)
  }

  /** The transfers that may fail: any, if the file cannot be written, otherwise those of the file's own sectors. */
  ghost predicate MayFail(f: File) { f.canWrite ==> NoFaults(f.fs.fails) }

  method CallRead(f: File, n: nat) returns (obs: FileObs)
    requires f.Open() && MayFail(f)
    modifies f, f.fs
    ensures f.Open() && Later(old(f.Now()), f.Now())
    ensures ChainInv(old(f.Now()))
    ensures CallStep(Room(old(f.Now())), f.canRead, f.canWrite, old(UserView(f)), ReadOp(n), obs, UserView(f))
    ensures f.error && !old(f.error) ==> !f.Smooth(old(f.fs.ops), f.fs.ops)
  {
    hide Inv, Content, Later, Cap, Fat, Overwritten, Room, ChainInv, Sectors;
    ghost var x := f.Now();
    RoomFull(x);
    var res, data := f.Read(n);
    obs := if res == IntErr then Refused else if res == DiskErr then Failed(data) else Bytes(data);
    RoomKept(x, f.Now());
    RoomFull(f.Now());
  }

  method CallWrite(f: File, data: seq<Byte>) returns (obs: FileObs)
    requires f.Open() && MayFail(f) && |data| < 0x1_0000_0000
    modifies f, f.fs
    ensures f.Open() && Later(old(f.Now()), f.Now())
    ensures ChainInv(old(f.Now()))
    ensures CallStep(Room(old(f.Now())), f.canRead, f.canWrite, old(UserView(f)), WriteOp(data), obs, UserView(f))
    ensures f.error && !old(f.error) ==> !f.Smooth(old(f.fs.ops), f.fs.ops)
  {
    hide Inv, Content, Later, Cap, Fat, Overwritten, Room, ChainInv, Sectors;
    ghost var x := f.Now();
    RoomFull(x);
    var res, bw := f.Write(data);
    obs := if res == IntErr then Refused else if res == DiskErr then CutOff(bw) else Count(bw);
    RoomKept(x, f.Now());
    RoomFull(f.Now());
  }

  method CallSeek(f: File, ofs: Dword) returns (obs: FileObs)
    requires f.Open() && MayFail(f)
    modifies f, f.fs
    ensures f.Open() && Later(old(f.Now()), f.Now())
    ensures ChainInv(old(f.Now()))
    ensures CallStep(Room(old(f.Now())), f.canRead, f.canWrite, old(UserView(f)), SeekOp(ofs), obs, UserView(f))
    ensures f.error && !old(f.error) ==> !f.Smooth(old(f.fs.ops), f.fs.ops)
  {
    hide Inv, Content, Later, Cap, Fat, Overwritten, Room, ChainInv, Sectors;
    ghost var x := f.Now();
    RoomFull(x);
    var res := f.Lseek(ofs);
    obs := if res == IntErr then Refused else if res == DiskErr then Failed([]) else Done;
    RoomKept(x, f.Now());
    RoomFull(f.Now());
  }

  /** Performs one call on an open file. */
  method Call(f: File, op: FileOp) returns (obs: FileObs)
    requires f.Open() && MayFail(f) && (op.WriteOp? ==> |op.data| < 0x1_0000_0000)
    modifies f, f.fs
    ensures f.Open() && Later(old(f.Now()), f.Now()) && Room(f.Now()) == old(Room(f.Now()))
    ensures CallStep(old(Room(f.Now())), f.canRead, f.canWrite, old(UserView(f)), op, obs, UserView(f))
    ensures f.error && !old(f.error) ==> !f.Smooth(old(f.fs.ops), f.fs.ops)
  {
    hide Inv, Content, Later, Cap, Fat, Room, ChainInv, Sectors, CallStep, UserView;
    ghost var x := f.Now();
    match op {
      case ReadOp(n) => obs := CallRead(f, n);
      case WriteOp(data) => obs := CallWrite(f, data);
      case SeekOp(ofs) => obs := CallSeek(f, ofs);
    }
    RoomKept(x, f.Now());
  }

  /** Every run of reads, writes and seeks refines a run on a byte file; trace lists its states.  A call fails only
      when a transfer does. */
  method CallAll(f: File, ops: seq<FileOp>) returns (obs: seq<FileObs>, ghost trace: seq<ByteFile>)
    requires f.Open() && MayFail(f)
    requires forall i :: 0 <= i < |ops| && ops[i].WriteOp? ==> |ops[i].data| < 0x1_0000_0000
    modifies f, f.fs
    ensures f.Open() && Later(old(f.Now()), f.Now())
    ensures Room(f.Now()) == old(Room(f.Now())) && |obs| == |ops| && |trace| == |ops| + 1
    ensures trace[0] == old(UserView(f)) && trace[|ops|] == UserView(f)
    ensures forall i :: 0 <= i < |ops| ==>
              CallStep(old(Room(f.Now())), f.canRead, f.canWrite, trace[i], ops[i], obs[i], trace[i + 1])
    ensures f.error && !old(f.error) ==> !f.Smooth(old(f.fs.ops), f.fs.ops)
  {
    hide Inv, Content, Later, CallStep, UserView, Room, ChainInv, Sectors;
    ghost var x, room := f.Now(), Room(f.Now());
    KeptSelf(x);
    obs, trace := [], [UserView(f)];
    for i := 0 to |ops|
      invariant f.Open() && Later(x, f.Now())
      invariant |obs| == i && |trace| == i + 1 && trace[0] == old(UserView(f)) && trace[i] == UserView(f)
      invariant Room(f.Now()) == room
      invariant forall j :: 0 <= j < i ==> CallStep(room, f.canRead, f.canWrite, trace[j], ops[j], obs[j], trace[j + 1])
      invariant f.error && !old(f.error) ==> !f.Smooth(x.vol.ops, f.fs.ops)
    {
      ghost var y := f.Now();
      var o := Call(f, ops[i]);
      LaterTrans(x, y, f.Now());
      obs, trace := obs + [o], trace + [UserView(f)];
    }
  }

  /** Bytes that reads have returned over a run on a file that cannot be written: each is the byte of the file at the
      position the read had reached, whatever failed before or after, and the bytes of the file never change. */
  lemma {:induction false} ReadsAreRight(room: nat, canRead: bool, ops: seq<FileOp>, obs: seq<FileObs>,
                                         trace: seq<ByteFile>, k: nat)
    requires |obs| == |ops| && |trace| == |ops| + 1 && k <= |ops| && trace[0].pos <= |trace[0].content|
    requires forall i :: 0 <= i < |ops| ==> CallStep(room, canRead, false, trace[i], ops[i], obs[i], trace[i + 1])
    ensures trace[k].content == trace[0].content && trace[k].pos <= |trace[0].content|
    ensures k < |ops| && (obs[k].Bytes? || obs[k].Failed?) && ops[k].ReadOp? ==>
              && trace[k + 1].pos == trace[k].pos + |obs[k].data| <= |trace[0].content|
              && obs[k].data == trace[0].content[trace[k].pos..trace[k + 1].pos]
    ensures trace[k].failed ==> forall i :: k <= i < |ops| ==> obs[i] == Refused
  {
    if k > 0 {
      ReadsAreRight(room, canRead, ops, obs, trace, k - 1);
      StepKeeps(room, canRead, trace[k - 1], ops[k - 1], obs[k - 1], trace[k]);
    }
    if k < |ops| {
      StepKeeps(room, canRead, trace[k], ops[k], obs[k], trace[k + 1]);
    }
    AllRefused(room, canRead, ops, obs, trace, k);
  }

  lemma StepKeeps(room: nat, canRead: bool, a: ByteFile, op: FileOp, obs: FileObs, b: ByteFile)
    requires CallStep(room, canRead, false, a, op, obs, b) && a.pos <= |a.content|
    ensures b.content == a.content && b.pos <= |b.content|
    ensures (obs.Bytes? || obs.Failed?) && op.ReadOp? ==>
              b.pos == a.pos + |obs.data| && obs.data == a.content[a.pos..b.pos]
  {
    assert a.content[..|a.content|] == a.content;
    assert b.content[..|b.content|] == b.content;
    if op.WriteOp? && !a.failed {
      assert Overwritten(a.content, a.pos, []) == a.content;
    }
  }

  lemma {:induction false} AllRefused(room: nat, canRead: bool, ops: seq<FileOp>, obs: seq<FileObs>,
                                      trace: seq<ByteFile>, k: nat)
    requires |obs| == |ops| && |trace| == |ops| + 1 && k <= |ops|
    requires forall i :: 0 <= i < |ops| ==> CallStep(room, canRead, false, trace[i], ops[i], obs[i], trace[i + 1])
    ensures trace[k].failed ==> forall i :: k <= i < |ops| ==> obs[i] == Refused
    decreases |ops| - k
  {
    if k < |ops| {
      AllRefused(room, canRead, ops, obs, trace, k + 1);
    }
  }

  /** What was written is what is read back from the same place. */
  lemma ReadsBackWritten(room: nat, a: ByteFile, data: seq<Byte>, n: nat, b: ByteFile, c: ByteFile, got: seq<Byte>,
                         d: ByteFile)
    requires a.pos < 0x1_0000_0000
    requires FileStep(room, true, true, a, WriteOp(data), Count(n), b)
    requires FileStep(room, true, true, b, SeekOp(a.pos), Done, c)
    requires FileStep(room, true, true, c, ReadOp(n), Bytes(got), d)
    ensures got == data[..n]
  {
    assert c.content == b.content[..|b.content|];
    assert forall k :: 0 <= k < n ==> b.content[a.pos + k] == data[k];
  }
}
