/**
Request bodies kept in memory or in a temporary file (common/body_storage.go), with the counters of
common/disk_cache_config.go. Files are regular files: a read returns all that is asked for and
there. Failures of the file system and of the request's reader are inputs.
*/
module BodyStorage {

  import opened Base

  type Byte = b: int | 0 <= b < 256

  datatype Whence = Start | Current | End

  datatype Error = NoError | Eof | StorageClosed | NegativePosition | FileError

  // ---- The abstract body ----

  /** What both kinds of storage stand for. */
  datatype Body = Body(contents: seq<Byte>, pos: nat, closed: bool)

  datatype Op = Read(n: nat) | Seek(offset: int, whence: Whence) | Bytes | Close

  datatype Result = Result(bytes: seq<Byte>, pos: int, error: Error)

  function Target(b: Body, offset: int, whence: Whence): int {
    match whence
    case Start => offset
    case Current => b.pos + offset
    case End => |b.contents| + offset
  }

  function Step(b: Body, op: Op, disk: bool): (Body, Result) {
    match op
    case Read(n) =>
      if b.closed then (b, Result([], 0, StorageClosed))
      else if b.pos >= |b.contents| then (b, Result([], 0, if disk && n == 0 then NoError else Eof))
      else
        var end := if b.pos + n > |b.contents| then |b.contents| else b.pos + n;
        (b.(pos := end), Result(b.contents[b.pos..end], 0, NoError))
    case Seek(offset, whence) =>
      if b.closed then (b, Result([], 0, StorageClosed))
      else if Target(b, offset, whence) < 0 then (b, Result([], 0, NegativePosition))
      else (b.(pos := Target(b, offset, whence)), Result([], Target(b, offset, whence), NoError))
    case Bytes =>
      if b.closed then (b, Result([], 0, StorageClosed)) else (b, Result(b.contents, 0, NoError))
    case Close => (b.(closed := true), Result([], 0, NoError))
  }

  // ---- The counters ----

  datatype Counters = Counters(diskFiles: int, diskBytes: int, memoryBuffers: int, memoryBytes: int)

  function Opened(c: Counters, disk: bool, size: nat): Counters {
    if disk then c.(diskFiles := c.diskFiles + 1, diskBytes := c.diskBytes + size)
    else c.(memoryBuffers := c.memoryBuffers + 1, memoryBytes := c.memoryBytes + size)
  }

  /** The disk counters are clamped at zero. */
  function ClosedOne(c: Counters, disk: bool, size: nat): Counters {
    if disk then c.(diskFiles := if c.diskFiles - 1 < 0 then 0 else c.diskFiles - 1,
                    diskBytes := if c.diskBytes - size < 0 then 0 else c.diskBytes - size)
    else c.(memoryBuffers := c.memoryBuffers - 1, memoryBytes := c.memoryBytes - size)
  }

  class Stats {
    var diskFiles: int
    var diskBytes: int
    var memoryBuffers: int
    var memoryBytes: int

    constructor ()
      ensures Value() == Counters(0, 0, 0, 0)
    {
      diskFiles, diskBytes, memoryBuffers, memoryBytes := 0, 0, 0, 0;
    }

    ghost function Value(): Counters
      reads this
    {
      Counters(diskFiles, diskBytes, memoryBuffers, memoryBytes)
    }

    method IncrementDiskFiles(size: nat)
      modifies this
      ensures Value() == Opened(old(Value()), true, size)
    {
      diskFiles := diskFiles + 1;
      diskBytes := diskBytes + size;
    }

    method DecrementDiskFiles(size: nat)
      modifies this
      ensures Value() == ClosedOne(old(Value()), true, size)
    {
      diskFiles := diskFiles - 1;
      if diskFiles < 0 { diskFiles := 0; }
      diskBytes := diskBytes - size;
      if diskBytes < 0 { diskBytes := 0; }
    }

    method IncrementMemoryBuffers(size: nat)
      modifies this
      ensures Value() == Opened(old(Value()), false, size)
    {
      memoryBuffers := memoryBuffers + 1;
      memoryBytes := memoryBytes + size;
    }

    method DecrementMemoryBuffers(size: nat)
      modifies this
      ensures Value() == ClosedOne(old(Value()), false, size)
    {
      memoryBuffers := memoryBuffers - 1;
      memoryBytes := memoryBytes - size;
    }
  }

  // ---- Memory ----

  class MemoryStorage {
    const data: seq<Byte>
    const size: nat
    const stats: Stats
    var offset: nat
    var closed: bool

    ghost predicate Valid() {
      size == |data|
    }

    ghost function Abs(): Body
      reads this
    {
      Body(data, offset, closed)
    }

    constructor (d: seq<Byte>, s: Stats)
      modifies s
      ensures Valid() && Abs() == Body(d, 0, false) && stats == s
      ensures s.Value() == Opened(old(s.Value()), false, |d|)
    {
      data, size, stats, offset, closed := d, |d|, s, 0, false;
      new;
      s.IncrementMemoryBuffers(|d|);
    }

    method Read(n: nat) returns (r: Result)
      modifies this
      ensures (Abs(), r) == Step(old(Abs()), Op.Read(n), false)
    {
      if closed { return Result([], 0, StorageClosed); }
      if offset >= |data| { return Result([], 0, Eof); }
      var k := if |data| - offset < n then |data| - offset else n;
      r := Result(data[offset..offset + k], 0, NoError);
      offset := offset + k;
    }

    method Seek(off: int, whence: Whence) returns (r: Result)
      modifies this
      ensures (Abs(), r) == Step(old(Abs()), Op.Seek(off, whence), false)
    {
      if closed { return Result([], 0, StorageClosed); }
      var target := match whence case Start => off case Current => offset + off case End => |data| + off;
      if target < 0 { return Result([], 0, NegativePosition); }
      offset := target;
      r := Result([], target, NoError);
    }

    method Bytes() returns (r: Result)
      ensures (Abs(), r) == Step(Abs(), Op.Bytes, false)
    {
      r := if closed then Result([], 0, StorageClosed) else Result(data, 0, NoError);
    }

    method Close() returns (r: Result)
      requires Valid()
      modifies this, stats
      ensures (Abs(), r) == Step(old(Abs()), Op.Close, false)
      ensures stats.Value() == if old(closed) then old(stats.Value()) else ClosedOne(old(stats.Value()), false, |data|)
    {
      if !closed {
        closed := true;
        stats.DecrementMemoryBuffers(size);
      }
      r := Result([], 0, NoError);
    }
  }

  // ---- Disk ----

  /** A temporary file with its offset. */
  class CacheFile {
    const data: seq<Byte>
    var offset: nat
    var onDisk: bool

    constructor (d: seq<Byte>)
      ensures data == d && offset == 0 && onDisk
    {
      data, offset, onDisk := d, 0, true;
    }

    method Read(n: nat) returns (bytes: seq<Byte>, error: Error)
      modifies this`offset
      ensures offset >= old(offset)
      ensures old(offset) >= |data| ==> bytes == [] && offset == old(offset) && error == if n > 0 then Eof else NoError
      ensures old(offset) < |data| ==> offset == (if old(offset) + n > |data| then |data| else old(offset) + n)
      ensures old(offset) < |data| ==> bytes == data[old(offset)..offset] && error == NoError
    {
      if offset >= |data| { return [], if n > 0 then Eof else NoError; }
      var end := if offset + n > |data| then |data| else offset + n;
      bytes, error := data[offset..end], NoError;
      offset := end;
    }

    method Seek(off: int, whence: Whence) returns (pos: int, error: Error)
      modifies this`offset
      ensures var target := Target(Body(data, old(offset), false), off, whence);
              if target < 0 then offset == old(offset) && pos == 0 && error == NegativePosition
              else offset == target && pos == target && error == NoError
    {
      var target := match whence case Start => off case Current => offset + off case End => |data| + off;
      if target < 0 { return 0, NegativePosition; }
      offset, pos, error := target, target, NoError;
    }
  }

  /** Where reading the whole file can fail: telling, rewinding, reading after some bytes, restoring. */
  datatype FileFault = NoFault | AtTell | AtRewind | AtRead(after: nat) | AtRestore

  /** An empty file is not read at all. */
  predicate Faulted(b: Body, fault: FileFault) {
    !fault.NoFault? && !(fault.AtRead? && b.contents == [])
  }

  function FaultPos(b: Body, fault: FileFault): nat {
    match fault
    case AtRead(after) => if after < |b.contents| then after else |b.contents|
    case AtRestore => |b.contents|
    case _ => b.pos
  }

  class DiskStorage {
    const file: CacheFile
    const size: nat
    const stats: Stats
    var closed: bool

    ghost predicate Valid()
      reads this, file
    {
      size == |file.data| && (file.onDisk <==> !closed)
    }

    ghost function Abs(): Body
      reads this, file
    {
      Body(file.data, file.offset, closed)
    }

    constructor (data: seq<Byte>, s: Stats)
      modifies s
      ensures Valid() && fresh(file) && Abs() == Body(data, 0, false) && stats == s
      ensures s.Value() == Opened(old(s.Value()), true, |data|)
    {
      file := new CacheFile(data);
      size, stats, closed := |data|, s, false;
      new;
      s.IncrementDiskFiles(|data|);
    }

    method Read(n: nat) returns (r: Result)
      requires Valid()
      modifies this, file
      ensures Valid() && (Abs(), r) == Step(old(Abs()), Op.Read(n), true)
    {
      if closed { return Result([], 0, StorageClosed); }
      var bytes, error := file.Read(n);
      r := Result(bytes, 0, error);
    }

    method Seek(off: int, whence: Whence) returns (r: Result)
      requires Valid()
      modifies this, file
      ensures Valid() && (Abs(), r) == Step(old(Abs()), Op.Seek(off, whence), true)
    {
      if closed { return Result([], 0, StorageClosed); }
      var pos, error := file.Seek(off, whence);
      r := Result([], pos, error);
    }

    /** The position is saved, the whole file read from its start, and the position restored; an
        error of the file on the way leaves the position where it happened. */
    method Bytes(fault: FileFault) returns (r: Result)
      requires Valid()
      modifies file
      ensures Valid()
      ensures old(closed) || !Faulted(old(Abs()), fault) ==> (Abs(), r) == Step(old(Abs()), Op.Bytes, true)
      ensures !old(closed) && Faulted(old(Abs()), fault) ==>
                r == Result([], 0, FileError) && Abs() == old(Abs()).(pos := FaultPos(old(Abs()), fault))
    {
      if closed { return Result([], 0, StorageClosed); }
      if fault == AtTell { return Result([], 0, FileError); }
      var saved, error := file.Seek(0, Current);
      if fault == AtRewind { return Result([], 0, FileError); }
      var start;
      start, error := file.Seek(0, Start);
      if fault.AtRead? && size > 0 {
        var part;
        part, error := file.Read(if fault.after < size then fault.after else size);
        return Result([], 0, FileError);
      }
      var data := ReadFull();
      if fault == AtRestore { return Result([], 0, FileError); }
      start, error := file.Seek(saved, Start);
      r := Result(data, 0, NoError);
    }

    /** io.ReadFull from the start of the file. */
    method ReadFull() returns (data: seq<Byte>)
      requires Valid() && file.offset == 0
      modifies file`offset
      ensures data == file.data && file.offset == size
    {
      data := [];
      var error := NoError;
      while |data| < size && error == NoError
        invariant |data| <= size && data == file.data[..|data|] && file.offset == |data| && error == NoError
        decreases size - |data|
      {
        var more;
        more, error := file.Read(size - |data|);
        data := data + more;
      }
      assert data == file.data;
    }

    method Close() returns (r: Result)
      requires Valid()
      modifies this, file, stats
      ensures Valid() && (Abs(), r) == Step(old(Abs()), Op.Close, true)
      ensures stats.Value() == if old(closed) then old(stats.Value()) else ClosedOne(old(stats.Value()), true, |file.data|)
    {
      if !closed {
        closed := true;
        file.onDisk := false;
        stats.DecrementDiskFiles(size);
      }
      r := Result([], 0, NoError);
    }
  }

  // ---- Creating ----

  datatype Config = Config(enabled: bool, threshold: int, max: int)

  datatype Storage = Memory(m: MemoryStorage) | Disk(d: DiskStorage)

  predicate Available(cfg: Config, c: Counters, size: int) {
    cfg.enabled && c.diskBytes + size <= cfg.max
  }

  predicate UsesDisk(cfg: Config, c: Counters, size: int) {
    cfg.enabled && size >= cfg.threshold && Available(cfg, c, size)
  }

  /** A new, valid storage of the kind and contents asked for. */
  twostate predicate Holds(new s: Storage, disk: bool, contents: seq<Byte>, stats: Stats)
    reads if s.Memory? then {s.m} else {s.d, s.d.file}
  {
    && s.Disk? == disk
    && (s.Memory? ==> fresh(s.m) && s.m.Valid() && s.m.stats == stats && s.m.Abs() == Body(contents, 0, false))
    && (s.Disk? ==> fresh(s.d) && s.d.Valid() && s.d.stats == stats && s.d.Abs() == Body(contents, 0, false))
  }

  method CreateBodyStorage(cfg: Config, stats: Stats, data: seq<Byte>, diskFails: bool) returns (s: Storage)
    modifies stats
    ensures var disk := UsesDisk(cfg, old(stats.Value()), |data|) && !diskFails;
            Holds(s, disk, data, stats) && stats.Value() == Opened(old(stats.Value()), disk, |data|)
  {
    if cfg.enabled && |data| >= cfg.threshold && Available(cfg, Counters(0, stats.diskBytes, 0, 0), |data|) {
      if diskFails {
        var m := new MemoryStorage(data, stats);
        return Memory(m);
      }
      var d := new DiskStorage(data, stats);
      return Disk(d);
    }
    var m := new MemoryStorage(data, stats);
    s := Memory(m);
  }

  /** What the reader delivers under io.LimitReader with maxBytes + 1. */
  function Limited(data: seq<Byte>, maxBytes: int): seq<Byte> {
    if maxBytes + 1 <= 0 then [] else if |data| > maxBytes + 1 then data[..maxBytes + 1] else data
  }

  /** Streams a body of declared length into storage; a file that cannot be created is an error,
      because the reader has been consumed. */
  method CreateBodyStorageFromReader(cfg: Config, stats: Stats, data: seq<Byte>, declared: int, maxBytes: int,
                                     diskFails: bool, readFails: bool) returns (s: Option<Storage>)
    modifies stats
    ensures var streams := declared > 0 && UsesDisk(cfg, old(stats.Value()), declared);
            var disk := streams || (UsesDisk(cfg, old(stats.Value()), |data|) && !diskFails);
            if readFails || (streams && diskFails) || |data| > maxBytes then s.None? && stats.Value() == old(stats.Value())
            else s.Some? && Holds(s.value, disk, data, stats) && stats.Value() == Opened(old(stats.Value()), disk, |data|)
  {
    if cfg.enabled && declared > 0 && declared >= cfg.threshold && Available(cfg, Counters(0, stats.diskBytes, 0, 0), declared) {
      if diskFails || readFails { return None; }
      var written := Limited(data, maxBytes);
      if |written| > maxBytes { return None; }
      var d := new DiskStorage(written, stats);
      return Some(Disk(d));
    }
    if readFails { return None; }
    var read := Limited(data, maxBytes);
    if |read| > maxBytes { return None; }
    var created := CreateBodyStorage(cfg, stats, read, diskFails);
    s := Some(created);
  }

  // ---- The two kinds refine one body ----

  /** The one call on which they differ: an empty read at the end of an open body. */
  predicate EmptyReadAtEnd(b: Body, op: Op) {
    op == Read(0) && !b.closed && b.pos >= |b.contents|
  }

  lemma StepsAgree(b: Body, op: Op)
    ensures Step(b, op, true).0 == Step(b, op, false).0
    ensures Step(b, op, true).1 == Step(b, op, false).1 <==> !EmptyReadAtEnd(b, op)
  {}

  function Results(b: Body, ops: seq<Op>, disk: bool): seq<Result>
    decreases |ops|
  {
    if ops == [] then [] else var (next, r) := Step(b, ops[0], disk); [r] + Results(next, ops[1..], disk)
  }

  predicate ReadsEmptyAtEnd(b: Body, ops: seq<Op>)
    decreases |ops|
  {
    ops != [] && (EmptyReadAtEnd(b, ops[0]) || ReadsEmptyAtEnd(Step(b, ops[0], true).0, ops[1..]))
  }

  /** Over every sequence of calls a caller sees the same from both kinds, exactly when it never
      reads into an empty buffer at the end. */
  lemma {:induction false} RunsAgreeIff(b: Body, ops: seq<Op>)
    ensures Results(b, ops, true) == Results(b, ops, false) <==> !ReadsEmptyAtEnd(b, ops)
    decreases |ops|
  {
    if ops != [] {
      StepsAgree(b, ops[0]);
      var (next, r) := Step(b, ops[0], true);
      var q := Step(b, ops[0], false).1;
      RunsAgreeIff(next, ops[1..]);
      HeadsAndTails(r, Results(next, ops[1..], true), q, Results(next, ops[1..], false));
    }
  }

  lemma HeadsAndTails<T>(a: T, s: seq<T>, b: T, t: seq<T>)
    ensures [a] + s == [b] + t <==> a == b && s == t
  {
    if [a] + s == [b] + t {
      assert ([a] + s)[0] == ([b] + t)[0];
      assert ([a] + s)[1..] == s && ([b] + t)[1..] == t;
    }
  }

  /** Rewinding and reading everything gives the contents, as Bytes does from any position. */
  lemma RewindAndRead(b: Body, disk: bool)
    requires !b.closed && b.contents != []
    ensures Step(b, Bytes, disk) == (b, Result(b.contents, 0, NoError))
    ensures var rewound := Step(b, Seek(0, Start), disk).0;
            Step(rewound, Read(|b.contents|), disk) == (b.(pos := |b.contents|), Result(b.contents, 0, NoError))
  {
    assert b.contents[0..|b.contents|] == b.contents;
  }

  // ---- Accounting over whole runs ----

  datatype Stored = Stored(disk: bool, size: nat, closed: bool)

  datatype World = World(stores: seq<Stored>, counters: Counters)

  datatype Event =
    | FromBytes(size: nat, diskFails: bool)
    | FromReader(size: nat, declared: int, maxBytes: int, diskFails: bool, readFails: bool)
    | CloseOne(i: nat)

  function Created(w: World, disk: bool, size: nat): World {
    World(w.stores + [Stored(disk, size, false)], Opened(w.counters, disk, size))
  }

  function Apply(cfg: Config, w: World, e: Event): World {
    match e
    case FromBytes(size, diskFails) => Created(w, UsesDisk(cfg, w.counters, size) && !diskFails, size)
    case FromReader(size, declared, maxBytes, diskFails, readFails) =>
      var streams := declared > 0 && UsesDisk(cfg, w.counters, declared);
      if readFails || (streams && diskFails) || size > maxBytes then w
      else Created(w, streams || (UsesDisk(cfg, w.counters, size) && !diskFails), size)
    case CloseOne(i) =>
      if i < |w.stores| && !w.stores[i].closed
      then World(w.stores[i := w.stores[i].(closed := true)], ClosedOne(w.counters, w.stores[i].disk, w.stores[i].size))
      else w
  }

  function Counts(s: Stored, disk: bool): nat {
    if s.disk == disk && !s.closed then 1 else 0
  }

  function OpenStores(stores: seq<Stored>, disk: bool): nat {
    if stores == [] then 0 else OpenStores(stores[..|stores| - 1], disk) + Counts(stores[|stores| - 1], disk)
  }

  function OpenBytes(stores: seq<Stored>, disk: bool): nat {
    if stores == [] then 0
    else OpenBytes(stores[..|stores| - 1], disk) + Counts(stores[|stores| - 1], disk) * stores[|stores| - 1].size
  }

  /** The counters are the number and the bytes of the open storages of each kind. */
  ghost predicate Exact(w: World) {
    w.counters == Counters(OpenStores(w.stores, true), OpenBytes(w.stores, true), OpenStores(w.stores, false), OpenBytes(w.stores, false))
  }

  lemma {:induction false} ClosingCounts(stores: seq<Stored>, i: nat, disk: bool)
    requires i < |stores| && !stores[i].closed
    ensures var after := stores[i := stores[i].(closed := true)];
            && OpenStores(after, disk) == OpenStores(stores, disk) - Counts(stores[i], disk)
            && OpenBytes(after, disk) == OpenBytes(stores, disk) - Counts(stores[i], disk) * stores[i].size
  {
    var after := stores[i := stores[i].(closed := true)];
    var n := |stores| - 1;
    if i < n {
      ClosingCounts(stores[..n], i, disk);
      assert after[..n] == stores[..n][i := stores[i].(closed := true)];
    } else {
      assert after[..n] == stores[..n];
    }
  }

  lemma CreatedIsExact(w: World, disk: bool, size: nat)
    requires Exact(w)
    ensures Exact(Created(w, disk, size))
  {
    var stores := w.stores + [Stored(disk, size, false)];
    assert stores[..|stores| - 1] == w.stores;
  }

  /** Closing an open storage never reaches the clamp. */
  lemma ClosedIsExact(cfg: Config, w: World, i: nat)
    requires Exact(w) && i < |w.stores| && !w.stores[i].closed
    ensures Exact(Apply(cfg, w, CloseOne(i)))
    ensures w.stores[i].disk ==> w.counters.diskFiles >= 1 && w.counters.diskBytes >= w.stores[i].size
  {
    ClosingCounts(w.stores, i, true);
    ClosingCounts(w.stores, i, false);
  }

  lemma StepKeepsExact(cfg: Config, w: World, e: Event)
    requires Exact(w)
    ensures Exact(Apply(cfg, w, e))
  {
    match e {
      case FromBytes(size, diskFails) => CreatedIsExact(w, UsesDisk(cfg, w.counters, size) && !diskFails, size);
      case FromReader(size, declared, maxBytes, diskFails, readFails) =>
        CreatedIsExact(w, (declared > 0 && UsesDisk(cfg, w.counters, declared)) || (UsesDisk(cfg, w.counters, size) && !diskFails), size);
      case CloseOne(i) =>
        if i < |w.stores| && !w.stores[i].closed { ClosedIsExact(cfg, w, i); }
    }
  }

  /** Closing twice is closing once. */
  lemma CloseIdempotent(cfg: Config, w: World, i: nat)
    ensures Apply(cfg, Apply(cfg, w, CloseOne(i)), CloseOne(i)) == Apply(cfg, w, CloseOne(i))
  {}

  /** The disk never holds more than the configured maximum as long as no streamed body is longer
      than declared. */
  predicate Honest(e: Event) {
    e.FromReader? ==> e.size <= e.declared
  }

  lemma StepWithinMax(cfg: Config, w: World, e: Event)
    requires w.counters.diskBytes <= cfg.max && cfg.max >= 0 && Honest(e)
    ensures Apply(cfg, w, e).counters.diskBytes <= cfg.max
  {}

  function Run(cfg: Config, w: World, es: seq<Event>): World
    decreases |es|
  {
    if es == [] then w else Run(cfg, Apply(cfg, w, es[0]), es[1..])
  }

  const EMPTY := World([], Counters(0, 0, 0, 0))

  lemma {:induction false} RunStaysExact(cfg: Config, w: World, es: seq<Event>)
    requires Exact(w)
    ensures Exact(Run(cfg, w, es))
    ensures w.counters.diskBytes <= cfg.max && cfg.max >= 0 && (forall e | e in es :: Honest(e)) ==>
              OpenBytes(Run(cfg, w, es).stores, true) <= cfg.max
    decreases |es|
  {
    if es != [] {
      StepKeepsExact(cfg, w, es[0]);
      if w.counters.diskBytes <= cfg.max && cfg.max >= 0 && Honest(es[0]) { StepWithinMax(cfg, w, es[0]); }
      RunStaysExact(cfg, Apply(cfg, w, es[0]), es[1..]);
    }
  }

  /** A body longer than declared can overrun the maximum, exactly when the room left is less than
      its size. */
  lemma StreamedOverrunIff(cfg: Config, w: World, size: nat, declared: int, maxBytes: int)
    requires w.counters.diskBytes <= cfg.max && declared > 0 && UsesDisk(cfg, w.counters, declared) && size <= maxBytes
    ensures Apply(cfg, w, FromReader(size, declared, maxBytes, false, false)).counters.diskBytes > cfg.max <==>
            size > cfg.max - w.counters.diskBytes
    ensures size > cfg.max - w.counters.diskBytes ==> size > declared
  {}

  // ---- The kind of storage, told from the request ----

  /** A body in hand goes to disk when caching is on, the body has reached the threshold and still
      fits under the maximum; if the file cannot be made, it goes to memory. */
  lemma KindOfBytes(cfg: Config, w: World, size: nat, diskFails: bool)
    ensures var after := Apply(cfg, w, FromBytes(size, diskFails));
            && |after.stores| == |w.stores| + 1 && after.stores[..|w.stores|] == w.stores
            && var s := after.stores[|w.stores|];
               && s.size == size && !s.closed
               && (s.disk <==> cfg.enabled && cfg.threshold <= size <= cfg.max - w.counters.diskBytes && !diskFails)
  {}

  /** A body that is read goes straight to disk when its declared length does; then a file that
      cannot be made is an error. Otherwise it is treated as a body in hand. */
  lemma KindOfReader(cfg: Config, w: World, size: nat, declared: int, maxBytes: int, diskFails: bool, readFails: bool)
    ensures var after := Apply(cfg, w, FromReader(size, declared, maxBytes, diskFails, readFails));
            if readFails || size > maxBytes then after == w
            else if cfg.enabled && declared > 0 && cfg.threshold <= declared <= cfg.max - w.counters.diskBytes then
              if diskFails then after == w
              else after.stores == w.stores + [Stored(true, size, false)] && after.counters.diskBytes == w.counters.diskBytes + size
            else after == Apply(cfg, w, FromBytes(size, diskFails))
  {}

  // ---- Reading in pieces ----

  function ReadAll(b: Body, sizes: seq<nat>, disk: bool): (seq<Byte>, Body)
    decreases |sizes|
  {
    if sizes == [] then ([], b)
    else
      var (next, r) := Step(b, Read(sizes[0]), disk);
      var (rest, last) := ReadAll(next, sizes[1..], disk);
      (r.bytes + rest, last)
  }

  function SumOf(sizes: seq<nat>): nat {
    if sizes == [] then 0 else sizes[0] + SumOf(sizes[1..])
  }

  /** Reads of any sizes give the bytes from the position on, each once and in order, until their
      sizes are used up or the body ends. */
  lemma {:induction false} ReadsAreConsecutive(b: Body, sizes: seq<nat>, disk: bool)
    requires !b.closed && b.pos <= |b.contents|
    ensures var (bytes, last) := ReadAll(b, sizes, disk);
            && b.pos <= last.pos <= |b.contents| && bytes == b.contents[b.pos..last.pos] && last == b.(pos := last.pos)
            && last.pos == if b.pos + SumOf(sizes) < |b.contents| then b.pos + SumOf(sizes) else |b.contents|
    decreases |sizes|
  {
    if sizes != [] {
      var (next, r) := Step(b, Read(sizes[0]), disk);
      ReadsAreConsecutive(next, sizes[1..], disk);
      var (rest, last) := ReadAll(next, sizes[1..], disk);
      PiecesJoin(b.contents, b.pos, next.pos, last.pos);
    }
  }

  lemma PiecesJoin(s: seq<Byte>, i: nat, j: nat, k: nat)
    requires i <= j <= k <= |s|
    ensures s[i..j] + s[j..k] == s[i..k]
  {}

  /** At the end a read of some bytes reports the end; an empty read does in memory only. */
  lemma ReadAtEnd(b: Body, n: nat, disk: bool)
    requires !b.closed && b.pos >= |b.contents|
    ensures Step(b, Read(n), disk).0 == b && Step(b, Read(n), disk).1.bytes == []
    ensures Step(b, Read(n), disk).1.error == Eof <==> n > 0 || !disk
  {}

  /** After seeking to a place inside, by any of the three origins, reading goes on from there. */
  lemma SeekThenRead(b: Body, offset: int, whence: Whence, at: nat, sizes: seq<nat>, disk: bool)
    requires !b.closed && at <= |b.contents|
    requires || (whence == Start && offset == at) || (whence == Current && b.pos + offset == at)
             || (whence == End && |b.contents| + offset == at)
    ensures var (bytes, last) := ReadAll(Step(b, Seek(offset, whence), disk).0, sizes, disk);
            && at <= last.pos <= |b.contents| && bytes == b.contents[at..last.pos]
            && last.pos == if at + SumOf(sizes) < |b.contents| then at + SumOf(sizes) else |b.contents|
  {
    ReadsAreConsecutive(b.(pos := at), sizes, disk);
  }
}
