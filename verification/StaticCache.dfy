/**
The static-file cache: a concurrent map of file contents beside a lock-free byte counter,
revalidated by a (modification time, length) stamp that is read at a different moment from
the bytes. Each stat, open, read, map operation and atomic addition is one step, so any
interleaving of requests, file edits and cache updates is a run of this machine.
*/
module StaticCache {
  import opened Common

  const MAX_STATIC_FILE_BYTES: nat := 16 * 1024 * 1024
  const STATIC_CACHE_MAX_BYTES: nat := 128 * 1024 * 1024
  const U64: nat := 0x1_0000_0000_0000_0000

  type Path = string
  type Bytes = seq<byte>

  datatype Stamp = Stamp(modified: int, len: nat)

  /** What is at a path between two edits. */
  datatype Version = Missing | Regular(content: Bytes, modified: int) {
    function StampOf(): Stamp
      requires Regular?
    {
      Stamp(modified, |content|)
    }
  }

  /**
  File contents with the stamp of the open file they were read from. Of the path's history,
  `version` is the one the stamp described and `filled` the one current when the read ended:
  only recorded to state what the bytes are.
  */
  datatype CachedFile = CachedFile(bytes: Bytes, stamp: Stamp, version: nat, filled: nat)

  datatype Pc =
    | Idle
    | Removing(path: Path)                                        // the stat found no regular file
    | Statted(path: Path, stat: nat)                              // the stat saw version `stat`
    | Missed(path: Path, stat: nat)                               // the cache had no such version
    | Reading(path: Path, stat: nat, fd: nat, bytes: Bytes)   // the open file's stamp is version `fd`'s
    | Inserting(path: Path, entry: CachedFile)
    | Reserved(path: Path, entry: CachedFile)                     // counted, and under the cap
    | Undoing(len: nat)                                           // counted, and over the cap
    | Subtracting(len: nat)                                       // an entry left the map, still counted

  /**
  A response: the version its stat saw, the one current when its bytes were settled, and
  the contents it answered with, from the cache (`hit`) or from its own read.
  */
  datatype Served = Served(path: Path, stat: nat, now: nat, entry: CachedFile, hit: bool)

  datatype State = State(
    files: map<Path, seq<Version>>,
    cache: map<Path, CachedFile>,
    counter: nat,
    pcs: seq<Pc>,
    served: seq<Served>)

  datatype Step =
    | Edit(path: Path, version: Version)
    | Stat(t: nat, at: Path)
    | Look(t: nat)
    | Open(t: nat, fd: nat)
    | Read(t: nat, from: nat, n: nat)
    | Finish(t: nat, from: nat)
    | Abandon(t: nat)
    | Reserve(t: nat)
    | Undo(t: nat)
    | Insert(t: nat)
    | Remove(t: nat)
    | Subtract(t: nat)

  // ---------------------------------------------------------------------------
  // File histories
  // ---------------------------------------------------------------------------

  predicate HasFile(files: map<Path, seq<Version>>, path: Path) {
    path in files && files[path] != []
  }

  /** Index of the current version. */
  function Now(files: map<Path, seq<Version>>, path: Path): nat
    requires HasFile(files, path)
  {
    |files[path]| - 1
  }

  /** Version `v` of `path` exists and is a regular file. */
  predicate IsRegular(files: map<Path, seq<Version>>, path: Path, v: nat) {
    HasFile(files, path) && v <= Now(files, path) && files[path][v].Regular?
  }

  /** No stamp ever recurs: every edit the cache must notice changes it. */
  ghost predicate FreshStamps(history: seq<Version>) {
    forall i, j :: 0 <= i < j < |history| && history[i].Regular? && history[j].Regular? ==>
      history[i].StampOf() != history[j].StampOf()
  }

  predicate NewStamp(history: seq<Version>, version: Version) {
    version.Regular? ==>
      forall i :: 0 <= i < |history| && history[i].Regular? ==> history[i].StampOf() != version.StampOf()
  }

  // ---------------------------------------------------------------------------
  // Steps
  // ---------------------------------------------------------------------------

  predicate Enabled(s: State, step: Step) {
    if step.Edit? then HasFile(s.files, step.path) && NewStamp(s.files[step.path], step.version)
    else
      step.t < |s.pcs| &&
      var pc := s.pcs[step.t];
      match step
      case Stat(_, at) => pc.Idle? && HasFile(s.files, at)
      case Look(_) => pc.Statted? && IsRegular(s.files, pc.path, pc.stat)
      case Open(_, fd) =>
        // The file opened is the path's at some moment since the stat; over the size limit it is refused.
        && pc.Missed? && pc.stat <= fd && IsRegular(s.files, pc.path, fd)
        && |s.files[pc.path][fd].content| <= MAX_STATIC_FILE_BYTES
      case Read(_, from, n) =>
        // One read returns some bytes at the offset, of any version the open file has had since.
        && pc.Reading? && pc.fd <= from && IsRegular(s.files, pc.path, from)
        && |pc.bytes| + n <= |s.files[pc.path][from].content| && |pc.bytes| + n <= MAX_STATIC_FILE_BYTES
      case Finish(_, from) =>
        // The read loop ends at end of file, or at the `take` limit.
        && pc.Reading? && pc.fd <= from && IsRegular(s.files, pc.path, from)
        && IsRegular(s.files, pc.path, pc.fd)
        && (|s.files[pc.path][from].content| <= |pc.bytes| || |pc.bytes| == MAX_STATIC_FILE_BYTES)
      case Abandon(_) => pc.Statted? || pc.Missed? || pc.Reading?
      case Reserve(_) => pc.Inserting?
      case Undo(_) => pc.Undoing?
      case Insert(_) => pc.Reserved?
      case Remove(_) => pc.Removing?
      case Subtract(_) => pc.Subtracting?
  }

  /** `fetch_add`, on 64 bits. */
  function FetchAdd(counter: nat, n: nat): nat { (counter + n) % U64 }

  /** `fetch_sub`, on 64 bits. */
  function FetchSub(counter: nat, n: nat): nat { (counter - n) % U64 }

  function Goes(s: State, t: nat, pc: Pc): State
    requires t < |s.pcs|
  {
    s.(pcs := s.pcs[t := pc])
  }

  function AfterStat(files: map<Path, seq<Version>>, at: Path): Pc
    requires HasFile(files, at)
  {
    if files[at][Now(files, at)].Regular? then Statted(at, Now(files, at)) else Removing(at)
  }

  function Hit(s: State, pc: Pc): bool
    requires pc.Statted? && IsRegular(s.files, pc.path, pc.stat)
  {
    pc.path in s.cache && s.cache[pc.path].stamp == s.files[pc.path][pc.stat].StampOf()
  }

  function Apply(s: State, step: Step): State
    requires Enabled(s, step)
  {
    if step.Edit? then s.(files := s.files[step.path := s.files[step.path] + [step.version]])
    else
      var pc := s.pcs[step.t];
      match step
      case Stat(t, at) => Goes(s, t, AfterStat(s.files, at))
      case Look(t) =>
        if Hit(s, pc) then
          Goes(s, t, Idle)
            .(served := s.served + [Served(pc.path, pc.stat, Now(s.files, pc.path), s.cache[pc.path], true)])
        else Goes(s, t, Missed(pc.path, pc.stat))
      case Open(t, fd) => Goes(s, t, Reading(pc.path, pc.stat, fd, []))
      case Read(t, from, n) =>
        Goes(s, t, pc.(bytes := pc.bytes + s.files[pc.path][from].content[|pc.bytes|..|pc.bytes| + n]))
      case Finish(t, from) =>
        var now := Now(s.files, pc.path);
        var entry := CachedFile(pc.bytes, s.files[pc.path][pc.fd].StampOf(), pc.fd, now);
        Goes(s, t, Inserting(pc.path, entry))
          .(served := s.served + [Served(pc.path, pc.stat, now, entry, false)])
      case Abandon(t) => Goes(s, t, Idle)
      case Reserve(t) =>
        var len := |pc.entry.bytes|;
        var total := FetchAdd(s.counter, len);
        Goes(s, t, if total > STATIC_CACHE_MAX_BYTES then Undoing(len) else Reserved(pc.path, pc.entry))
          .(counter := total)
      case Undo(t) => Goes(s, t, Idle).(counter := FetchSub(s.counter, pc.len))
      case Insert(t) =>
        Goes(s, t, if pc.path in s.cache then Subtracting(|s.cache[pc.path].bytes|) else Idle)
          .(cache := s.cache[pc.path := pc.entry])
      case Remove(t) =>
        Goes(s, t, if pc.path in s.cache then Subtracting(|s.cache[pc.path].bytes|) else Idle)
          .(cache := s.cache - {pc.path})
      case Subtract(t) => Goes(s, t, Idle).(counter := FetchSub(s.counter, pc.len))
  }

  ghost predicate IsRun(s: State, steps: seq<Step>, last: State)
    decreases |steps|
  {
    if steps == [] then s == last
    else Enabled(s, steps[0]) && IsRun(Apply(s, steps[0]), steps[1..], last)
  }

  predicate IsStart(s: State) {
    && (forall path :: path in s.files ==> |s.files[path]| == 1)
    && s.cache == map[] && s.counter == 0 && s.served == []
    && forall t :: 0 <= t < |s.pcs| ==> s.pcs[t].Idle?
  }

  // ---------------------------------------------------------------------------
  // Accounting
  // ---------------------------------------------------------------------------

  /** Bytes in the map. */
  ghost function Live(cache: map<Path, CachedFile>): nat
    decreases cache.Keys
  {
    if cache == map[] then 0
    else var path :| path in cache; |cache[path].bytes| + Live(cache - {path})
  }

  /** Any entry may be counted first. */
  lemma {:induction false} LiveWithout(cache: map<Path, CachedFile>, path: Path)
    requires path in cache
    ensures Live(cache) == |cache[path].bytes| + Live(cache - {path})
    decreases cache.Keys
  {
    var first :| first in cache && Live(cache) == |cache[first].bytes| + Live(cache - {first});
    if first != path {
      LiveWithout(cache - {first}, path);
      LiveWithout(cache - {path}, first);
      assert cache - {first} - {path} == cache - {path} - {first};
    }
  }

  lemma {:induction false} LiveWith(cache: map<Path, CachedFile>, path: Path, entry: CachedFile)
    ensures Live(cache[path := entry]) == |entry.bytes| + Live(cache - {path})
  {
    LiveWithout(cache[path := entry], path);
    assert cache[path := entry] - {path} == cache - {path};
  }

  /**
  The map and the counter as one request updates them with no other in between: reserve,
  check, undo or insert, subtract what was replaced.
  */
  class SharedCache {
    var cache: map<Path, CachedFile>
    var counter: nat

    ghost predicate Valid()
      reads this
    {
      counter == Live(cache) <= STATIC_CACHE_MAX_BYTES
    }

    constructor ()
      ensures Valid() && cache == map[]
    {
      cache, counter := map[], 0;
    }

    /** The entry is cached if it fits beside everything cached, what it replaces included. */
    method CacheInsert(path: Path, entry: CachedFile)
      requires Valid() && |entry.bytes| <= MAX_STATIC_FILE_BYTES
      modifies this
      ensures Valid()
      ensures cache == if old(Live(cache)) + |entry.bytes| <= STATIC_CACHE_MAX_BYTES
                       then old(cache)[path := entry] else old(cache)
    {
      var len := |entry.bytes|;
      assert FetchAdd(counter, len) == counter + len;
      counter := FetchAdd(counter, len);
      if counter > STATIC_CACHE_MAX_BYTES {
        counter := FetchSub(counter, len);
        return;
      }
      LiveWith(cache, path, entry);
      if path in cache {
        LiveWithout(cache, path);
        var prev := cache[path];
        cache := cache[path := entry];
        counter := FetchSub(counter, |prev.bytes|);
      } else {
        assert cache - {path} == cache;
        cache := cache[path := entry];
      }
    }

    method CacheRemove(path: Path)
      requires Valid()
      modifies this
      ensures Valid() && cache == old(cache) - {path}
    {
      if path in cache {
        LiveWithout(cache, path);
        var prev := cache[path];
        cache := cache - {path};
        counter := FetchSub(counter, |prev.bytes|);
      } else {
        assert cache - {path} == cache;
      }
    }
  }

  /** Bytes a request has in the counter besides those in the map. */
  function Owed(pc: Pc): nat {
    match pc
    case Reserved(_, entry) => |entry.bytes|
    case Undoing(len) => len
    case Subtracting(len) => len
    case _ => 0
  }

  /** The part of them that counts against the cap. */
  function Committed(pc: Pc): nat { if pc.Undoing? then 0 else Owed(pc) }

  /** Every size in the machine is at most one file. */
  ghost predicate Sizes(s: State) {
    && (forall t :: 0 <= t < |s.pcs| ==> Owed(s.pcs[t]) <= MAX_STATIC_FILE_BYTES)
    && (forall t :: 0 <= t < |s.pcs| && s.pcs[t].Reading? ==> |s.pcs[t].bytes| <= MAX_STATIC_FILE_BYTES)
    && (forall t :: 0 <= t < |s.pcs| && s.pcs[t].Inserting? ==> |s.pcs[t].entry.bytes| <= MAX_STATIC_FILE_BYTES)
    && (forall path :: path in s.cache ==> |s.cache[path].bytes| <= MAX_STATIC_FILE_BYTES)
  }

  /** So many requests at once that 64 bits could not hold their sizes are out of reach. */
  predicate FewRequests(s: State) {
    STATIC_CACHE_MAX_BYTES + |s.pcs| * MAX_STATIC_FILE_BYTES + MAX_STATIC_FILE_BYTES < U64
  }

  ghost predicate Accounted(s: State) {
    && s.counter == Live(s.cache) + SumBy(Owed, s.pcs)
    && Live(s.cache) + SumBy(Committed, s.pcs) <= STATIC_CACHE_MAX_BYTES
  }

  lemma {:induction false} SizesKept(s: State, step: Step)
    requires Sizes(s) && Enabled(s, step)
    ensures Sizes(Apply(s, step))
  {
    var s' := Apply(s, step);
    if !step.Edit? {
      var t := step.t;
      assert s'.pcs == s.pcs[t := s'.pcs[t]];
      assert Owed(s.pcs[t]) <= MAX_STATIC_FILE_BYTES;
    }
  }

  /** What one request's move does to the two sums. */
  lemma {:induction false} Moves(pcs: seq<Pc>, t: nat, pc: Pc)
    requires t < |pcs|
    ensures SumBy(Owed, pcs[t := pc]) == SumBy(Owed, pcs) - Owed(pcs[t]) + Owed(pc)
    ensures SumBy(Committed, pcs[t := pc]) == SumBy(Committed, pcs) - Committed(pcs[t]) + Committed(pc)
    ensures Owed(pcs[t]) <= SumBy(Owed, pcs)
  {
    SumByUpdate(Owed, pcs, t, pc);
    SumByUpdate(Committed, pcs, t, pc);
  }

  lemma {:induction false} CommittedAtMostOwed(pcs: seq<Pc>)
    ensures SumBy(Committed, pcs) <= SumBy(Owed, pcs)
  {
    if pcs != [] {
      CommittedAtMostOwed(pcs[1..]);
    }
  }

  /** The counter stays far from 64 bits. */
  lemma {:induction false} CounterBound(s: State)
    requires Accounted(s) && Sizes(s) && FewRequests(s)
    ensures s.counter + MAX_STATIC_FILE_BYTES < U64
  {
    SumByBound(Owed, s.pcs, MAX_STATIC_FILE_BYTES);
  }

  lemma {:induction false} ReserveAccounts(s: State, t: nat)
    requires Accounted(s) && Sizes(s) && FewRequests(s) && Enabled(s, Reserve(t))
    ensures Accounted(Apply(s, Reserve(t)))
  {
    var len := |s.pcs[t].entry.bytes|;
    assert FetchAdd(s.counter, len) == s.counter + len by {
      CounterBound(s);
    }
    CommittedAtMostOwed(s.pcs);
    Moves(s.pcs, t, Undoing(len));
    Moves(s.pcs, t, Reserved(s.pcs[t].path, s.pcs[t].entry));
  }

  /** Giving `len` back to the counter. */
  lemma {:induction false} SubtractAccounts(s: State, t: nat)
    requires Accounted(s) && Sizes(s) && FewRequests(s) && t < |s.pcs|
    requires s.pcs[t].Undoing? || s.pcs[t].Subtracting?
    ensures s.pcs[t].len <= s.counter
    ensures Accounted(Goes(s, t, Idle).(counter := FetchSub(s.counter, s.pcs[t].len)))
  {
    CounterBound(s);
    Moves(s.pcs, t, Idle);
  }

  lemma {:induction false} InsertAccounts(s: State, t: nat)
    requires Accounted(s) && Enabled(s, Insert(t))
    ensures Accounted(Apply(s, Insert(t)))
  {
    var pc, s' := s.pcs[t], Apply(s, Insert(t));
    Moves(s.pcs, t, s'.pcs[t]);
    LiveWith(s.cache, pc.path, pc.entry);
    if pc.path in s.cache {
      LiveWithout(s.cache, pc.path);
    } else {
      assert s.cache - {pc.path} == s.cache;
    }
  }

  lemma {:induction false} RemoveAccounts(s: State, t: nat)
    requires Accounted(s) && Enabled(s, Remove(t))
    ensures Accounted(Apply(s, Remove(t)))
  {
    var pc, s' := s.pcs[t], Apply(s, Remove(t));
    Moves(s.pcs, t, s'.pcs[t]);
    if pc.path in s.cache {
      LiveWithout(s.cache, pc.path);
    } else {
      assert s.cache - {pc.path} == s.cache;
    }
  }

  lemma {:induction false} AccountedKept(s: State, step: Step)
    requires Accounted(s) && Sizes(s) && FewRequests(s) && Enabled(s, step)
    ensures Accounted(Apply(s, step))
  {
    if step.Edit? {
    } else if step.Reserve? {
      ReserveAccounts(s, step.t);
    } else if step.Undo? || step.Subtract? {
      SubtractAccounts(s, step.t);
    } else if step.Insert? {
      InsertAccounts(s, step.t);
    } else if step.Remove? {
      RemoveAccounts(s, step.t);
    } else {
      OtherAccounts(s, step);
    }
  }

  /** A step outside the cache updates owes nothing before or after. */
  lemma {:induction false} OtherAccounts(s: State, step: Step)
    requires Accounted(s) && Enabled(s, step)
    requires step.Stat? || step.Look? || step.Open? || step.Read? || step.Finish? || step.Abandon?
    ensures Accounted(Apply(s, step))
  {
    var s' := Apply(s, step);
    assert s'.cache == s.cache && s'.counter == s.counter;
    assert Owed(s.pcs[step.t]) == 0 == Owed(s'.pcs[step.t]);
    Moves(s.pcs, step.t, s'.pcs[step.t]);
  }

  lemma {:induction false} StartAccounted(s: State)
    requires IsStart(s)
    ensures Accounted(s) && Sizes(s)
  {
    SumByZero(Owed, s.pcs);
    SumByZero(Committed, s.pcs);
  }

  lemma {:induction false} RunAccounted(s: State, steps: seq<Step>, last: State)
    requires Accounted(s) && Sizes(s) && FewRequests(s) && IsRun(s, steps, last)
    ensures Accounted(last) && Sizes(last) && FewRequests(last)
    decreases |steps|
  {
    if steps != [] {
      SizesKept(s, steps[0]);
      AccountedKept(s, steps[0]);
      RunAccounted(Apply(s, steps[0]), steps[1..], last);
    }
  }

  /**
  In every interleaving: the counter is the bytes in the map, plus those reserved, plus
  those that left the map and are still to be subtracted; no addition reaches 64 bits and
  no subtraction goes below zero; the map never holds more than the cap; and when no
  request is inside a cache update, the counter is exactly the bytes in the map.
  */
  lemma {:induction false} CounterIsExact(start: State, steps: seq<Step>, last: State)
    requires IsStart(start) && FewRequests(start) && IsRun(start, steps, last)
    ensures last.counter == Live(last.cache) + SumBy(Owed, last.pcs)
    ensures last.counter + MAX_STATIC_FILE_BYTES < U64
    ensures forall t :: 0 <= t < |last.pcs| && (last.pcs[t].Undoing? || last.pcs[t].Subtracting?) ==>
              last.pcs[t].len <= last.counter
    ensures Live(last.cache) <= STATIC_CACHE_MAX_BYTES
    ensures (forall t :: 0 <= t < |last.pcs| ==> Owed(last.pcs[t]) == 0) ==> last.counter == Live(last.cache)
  {
    StartAccounted(start);
    RunAccounted(start, steps, last);
    CounterBound(last);
    SumByZero(Owed, last.pcs);
    forall t | 0 <= t < |last.pcs| && (last.pcs[t].Undoing? || last.pcs[t].Subtracting?)
      ensures last.pcs[t].len <= last.counter
    {
      SubtractAccounts(last, t);
    }
  }

  /** An entry is let in exactly if, counted, everything is within 128 MiB. */
  lemma {:induction false} ReservesExactly(start: State, steps: seq<Step>, last: State, t: nat)
    requires IsStart(start) && FewRequests(start) && IsRun(start, steps, last)
    requires t < |last.pcs| && last.pcs[t].Inserting?
    ensures Apply(last, Reserve(t)).pcs[t].Reserved?
       <==> last.counter + |last.pcs[t].entry.bytes| <= 134_217_728
    ensures Apply(last, Reserve(t)).counter == last.counter + |last.pcs[t].entry.bytes|
  {
    StartAccounted(start);
    RunAccounted(start, steps, last);
    CounterBound(last);
    assert |last.pcs[t].entry.bytes| <= MAX_STATIC_FILE_BYTES;
  }

  // ---------------------------------------------------------------------------
  // Freshness
  // ---------------------------------------------------------------------------

  ghost predicate FreshFiles(files: map<Path, seq<Version>>) {
    forall path :: path in files ==> FreshStamps(files[path])
  }

  /** Byte `i` of version `v`. */
  predicate ByteAt(files: map<Path, seq<Version>>, path: Path, v: nat, i: nat, b: byte) {
    IsRegular(files, path, v) && i < |files[path][v].content| && files[path][v].content[i] == b
  }

  /** `b` is byte `i` of some version from `lo` to `hi`. */
  ghost predicate ByteIn(files: map<Path, seq<Version>>, path: Path, lo: nat, hi: nat, i: nat, b: byte) {
    exists v: nat :: lo <= v <= hi && ByteAt(files, path, v, i, b)
  }

  /** Each byte is that byte of some version from `lo` to `hi`. */
  ghost predicate Woven(files: map<Path, seq<Version>>, path: Path, lo: nat, hi: nat, bytes: Bytes) {
    forall i :: 0 <= i < |bytes| ==> ByteIn(files, path, lo, hi, i, bytes[i])
  }

  /** What an open file has been read as: pieces of its versions since, of the first alone until an edit. */
  ghost predicate ReadSoFar(files: map<Path, seq<Version>>, path: Path, v: nat, bytes: Bytes) {
    && IsRegular(files, path, v)
    && (v == Now(files, path) ==> bytes <= files[path][v].content)
    && Woven(files, path, v, Now(files, path), bytes)
  }

  /**
  The contents carry their version's stamp, and are that version byte for byte if it was
  current until they were read; otherwise each byte is of some version from then to the end
  of the read.
  */
  ghost predicate FreshEntry(files: map<Path, seq<Version>>, path: Path, entry: CachedFile) {
    && IsRegular(files, path, entry.version)
    && entry.stamp == files[path][entry.version].StampOf()
    && entry.version <= entry.filled <= Now(files, path)
    && (entry.version == entry.filled ==> entry.bytes == files[path][entry.version].content)
    && Woven(files, path, entry.version, entry.filled, entry.bytes)
  }

  ghost predicate FreshPc(files: map<Path, seq<Version>>, pc: Pc) {
    match pc
    case Statted(path, stat) => IsRegular(files, path, stat)
    case Missed(path, stat) => IsRegular(files, path, stat)
    case Reading(path, stat, fd, bytes) =>
      && stat <= fd && IsRegular(files, path, stat) && ReadSoFar(files, path, fd, bytes)
      && |files[path][fd].content| <= MAX_STATIC_FILE_BYTES
    case Inserting(path, entry) => FreshEntry(files, path, entry)
    case Reserved(path, entry) => FreshEntry(files, path, entry)
    case _ => true
  }

  /** A response's contents are of the version it statted, or, read by itself, of one opened since. */
  ghost predicate Exact(files: map<Path, seq<Version>>, r: Served) {
    && IsRegular(files, r.path, r.stat) && FreshEntry(files, r.path, r.entry)
    && r.stat <= r.entry.version && r.entry.filled <= r.now
    && (r.hit ==> r.entry.version == r.stat)
  }

  ghost predicate Fresh(s: State) {
    && FreshFiles(s.files)
    && (forall t :: 0 <= t < |s.pcs| ==> FreshPc(s.files, s.pcs[t]))
    && (forall path :: path in s.cache ==> FreshEntry(s.files, path, s.cache[path]))
    && (forall k :: 0 <= k < |s.served| ==> Exact(s.files, s.served[k]))
  }

  /** `files'` is `files` after an edit: versions are only added. */
  ghost predicate Extends(files: map<Path, seq<Version>>, files': map<Path, seq<Version>>) {
    forall path, v: nat :: IsRegular(files, path, v) ==>
      && IsRegular(files', path, v) && files'[path][v] == files[path][v] && Now(files, path) <= Now(files', path)
  }

  lemma {:induction false} WovenLater(
    files: map<Path, seq<Version>>, files': map<Path, seq<Version>>, path: Path,
    lo: nat, hi: nat, hi': nat, bytes: Bytes)
    requires Extends(files, files') && hi <= hi' && Woven(files, path, lo, hi, bytes)
    ensures Woven(files', path, lo, hi', bytes)
  {
    forall i | 0 <= i < |bytes| ensures ByteIn(files', path, lo, hi', i, bytes[i]) {
      assert ByteIn(files, path, lo, hi, i, bytes[i]);
      var v: nat :| lo <= v <= hi && ByteAt(files, path, v, i, bytes[i]);
      assert ByteAt(files', path, v, i, bytes[i]);
    }
  }

  lemma {:induction false} EntryLater(
    files: map<Path, seq<Version>>, files': map<Path, seq<Version>>, path: Path, entry: CachedFile)
    requires Extends(files, files') && FreshEntry(files, path, entry)
    ensures FreshEntry(files', path, entry)
  {
    WovenLater(files, files', path, entry.version, entry.filled, entry.filled, entry.bytes);
  }

  lemma {:induction false} ReadLater(
    files: map<Path, seq<Version>>, files': map<Path, seq<Version>>, path: Path, v: nat, bytes: Bytes)
    requires Extends(files, files') && ReadSoFar(files, path, v, bytes)
    ensures ReadSoFar(files', path, v, bytes)
  {
    WovenLater(files, files', path, v, Now(files, path), Now(files', path), bytes);
  }

  /** An edit adds a version; nothing stated of the versions before it is lost. */
  lemma {:induction false} EditKeeps(files: map<Path, seq<Version>>, path: Path, version: Version)
    requires HasFile(files, path) && NewStamp(files[path], version) && FreshFiles(files)
    ensures FreshFiles(files[path := files[path] + [version]])
    ensures Extends(files, files[path := files[path] + [version]])
  {
  }

  lemma {:induction false} PcLater(files: map<Path, seq<Version>>, files': map<Path, seq<Version>>, pc: Pc)
    requires Extends(files, files') && FreshPc(files, pc)
    ensures FreshPc(files', pc)
  {
    if pc.Reading? {
      ReadLater(files, files', pc.path, pc.fd, pc.bytes);
    } else if pc.Inserting? || pc.Reserved? {
      EntryLater(files, files', pc.path, pc.entry);
    }
  }

  lemma {:induction false} FreshLater(s: State, files': map<Path, seq<Version>>)
    requires Fresh(s) && Extends(s.files, files') && FreshFiles(files')
    ensures Fresh(s.(files := files'))
  {
    forall t | 0 <= t < |s.pcs| ensures FreshPc(files', s.pcs[t]) {
      PcLater(s.files, files', s.pcs[t]);
    }
    forall path | path in s.cache ensures FreshEntry(files', path, s.cache[path]) {
      EntryLater(s.files, files', path, s.cache[path]);
    }
    forall k | 0 <= k < |s.served| ensures Exact(files', s.served[k]) {
      assert Exact(s.files, s.served[k]);
      EntryLater(s.files, files', s.served[k].path, s.served[k].entry);
    }
  }

  lemma {:induction false} LookIsExact(s: State, t: nat)
    requires Fresh(s) && Enabled(s, Look(t)) && Hit(s, s.pcs[t])
    ensures var pc := s.pcs[t];
      Exact(s.files, Served(pc.path, pc.stat, Now(s.files, pc.path), s.cache[pc.path], true))
  {
    var pc := s.pcs[t];
    var entry := s.cache[pc.path];
    assert FreshEntry(s.files, pc.path, entry);
    assert entry.version == pc.stat by {
      assert FreshStamps(s.files[pc.path]);
    }
  }

  lemma {:induction false} FinishIsFresh(s: State, t: nat, from: nat)
    requires Fresh(s) && Enabled(s, Finish(t, from))
    ensures var pc, s' := s.pcs[t], Apply(s, Finish(t, from));
      && FreshPc(s.files, s'.pcs[t])
      && Exact(s.files, Served(pc.path, pc.stat, Now(s.files, pc.path), s'.pcs[t].entry, false))
  {
    assert FreshPc(s.files, s.pcs[t]);
  }

  /** One more piece, of any version since. */
  lemma {:induction false} WovenMore(
    files: map<Path, seq<Version>>, path: Path, lo: nat, from: nat, bytes: Bytes, n: nat)
    requires lo <= from && IsRegular(files, path, from) && |bytes| + n <= |files[path][from].content|
    requires Woven(files, path, lo, Now(files, path), bytes)
    ensures Woven(files, path, lo, Now(files, path), bytes + files[path][from].content[|bytes|..|bytes| + n])
  {
    var all := bytes + files[path][from].content[|bytes|..|bytes| + n];
    forall i | 0 <= i < |all| ensures ByteIn(files, path, lo, Now(files, path), i, all[i]) {
      if i < |bytes| {
        assert ByteIn(files, path, lo, Now(files, path), i, bytes[i]);
      } else {
        assert ByteAt(files, path, from, i, all[i]);
      }
    }
  }

  lemma {:induction false} ReadIsFresh(s: State, t: nat, from: nat, n: nat)
    requires Fresh(s) && Enabled(s, Read(t, from, n))
    ensures FreshPc(s.files, Apply(s, Read(t, from, n)).pcs[t])
  {
    var pc := s.pcs[t];
    assert FreshPc(s.files, pc);
    WovenMore(s.files, pc.path, pc.fd, from, pc.bytes, n);
  }

  /** A request moves on, and perhaps answers. */
  lemma {:induction false} FreshMove(s: State, t: nat, pc: Pc, answer: seq<Served>)
    requires Fresh(s) && t < |s.pcs| && FreshPc(s.files, pc)
    requires forall k :: 0 <= k < |answer| ==> Exact(s.files, answer[k])
    ensures Fresh(s.(pcs := s.pcs[t := pc], served := s.served + answer))
  {
  }

  /** An entry is put in or taken out. */
  lemma {:induction false} FreshCache(s: State, cache: map<Path, CachedFile>)
    requires Fresh(s) && forall path :: path in cache ==> FreshEntry(s.files, path, cache[path])
    ensures Fresh(s.(cache := cache))
  {
  }

  lemma {:induction false} FreshKept(s: State, step: Step)
    requires Fresh(s) && Enabled(s, step)
    ensures Fresh(Apply(s, step))
  {
    var s' := Apply(s, step);
    if step.Edit? {
      EditKeeps(s.files, step.path, step.version);
      FreshLater(s, s'.files);
    } else {
      var t := step.t;
      assert FreshPc(s.files, s.pcs[t]);
      if step.Look? && Hit(s, s.pcs[t]) {
        LookIsExact(s, t);
      } else if step.Finish? {
        FinishIsFresh(s, t, step.from);
      } else if step.Read? {
        ReadIsFresh(s, t, step.from, step.n);
      }
      FreshStep(s, step);
    }
  }

  lemma {:induction false} FreshStep(s: State, step: Step)
    requires Fresh(s) && Enabled(s, step) && !step.Edit? && FreshPc(s.files, s.pcs[step.t])
    requires FreshPc(s.files, Apply(s, step).pcs[step.t])
    requires forall k :: |s.served| <= k < |Apply(s, step).served| ==> Exact(s.files, Apply(s, step).served[k])
    ensures Fresh(Apply(s, step))
  {
    var s' := Apply(s, step);
    var answer := s'.served[|s.served|..];
    FreshCache(s, s'.cache);
    FreshMove(s.(cache := s'.cache), step.t, s'.pcs[step.t], answer);
    assert s'.served == s.served + answer;
  }

  lemma {:induction false} RunFresh(s: State, steps: seq<Step>, last: State)
    requires Fresh(s) && IsRun(s, steps, last)
    ensures Fresh(last)
    decreases |steps|
  {
    if steps != [] {
      FreshKept(s, steps[0]);
      RunFresh(Apply(s, steps[0]), steps[1..], last);
    }
  }

  /**
  A request that finds no regular file drops the path's entry before it ends: its stat leaves
  it nothing to do but remove, and whenever it is past that, the entry was gone at the moment
  of its removal.
  */
  lemma {:induction false} MissingFileIsDropped(s: State, t: nat, at: Path, steps: seq<Step>, last: State)
    returns (k: nat, after: State)
    requires Enabled(s, Stat(t, at)) && s.files[at][Now(s.files, at)].Missing?
    requires IsRun(Apply(s, Stat(t, at)), steps, last) && t < |last.pcs| && last.pcs[t] != Removing(at)
    ensures k < |steps| && steps[k] == Remove(t)
    ensures IsRun(Apply(s, Stat(t, at)), steps[..k + 1], after) && at !in after.cache
  {
    k, after := RemovesBeforeMovingOn(Apply(s, Stat(t, at)), t, at, steps, last);
  }

  lemma {:induction false} RemovesBeforeMovingOn(s: State, t: nat, at: Path, steps: seq<Step>, last: State)
    returns (k: nat, after: State)
    requires t < |s.pcs| && s.pcs[t] == Removing(at) && IsRun(s, steps, last)
    requires t < |last.pcs| && last.pcs[t] != Removing(at)
    ensures k < |steps| && steps[k] == Remove(t)
    ensures IsRun(s, steps[..k + 1], after) && at !in after.cache
    decreases |steps|
  {
    var next := Apply(s, steps[0]);
    if steps[0] == Remove(t) {
      k, after := 0, next;
      assert steps[..1][1..] == [] && IsRun(next, [], next);
    } else {
      assert next.pcs[t] == s.pcs[t];
      k, after := RemovesBeforeMovingOn(next, t, at, steps[1..], last);
      k := k + 1;
      assert steps[..k + 1][1..] == steps[1..][..k];
    }
  }

  /**
  In every interleaving of requests, edits and cache updates, with stamps that never recur,
  although an entry's stamp is taken before its bytes are read and one read may see several
  versions. A cache hit carries the stamp of the version the request statted, and is that
  version byte for byte unless the file was edited between the open and the end of the read
  that filled the entry, whatever was edited before or since. A miss is, in the same way, a
  version current at some moment since the stat. With such an edit, each byte is still that
  byte of some version from the open to the end of the read.
  */
  lemma {:induction false} ResponsesAreExact(start: State, steps: seq<Step>, last: State, k: nat)
    requires IsStart(start) && IsRun(start, steps, last) && k < |last.served|
    ensures var r := last.served[k];
      && IsRegular(last.files, r.path, r.stat) && IsRegular(last.files, r.path, r.entry.version)
      && r.stat <= r.entry.version <= r.entry.filled <= r.now
      && (r.hit ==> r.entry.version == r.stat)
      && (r.entry.version == r.entry.filled ==> r.entry.bytes == last.files[r.path][r.entry.version].content)
      && Woven(last.files, r.path, r.entry.version, r.entry.filled, r.entry.bytes)
  {
    assert Fresh(start);
    RunFresh(start, steps, last);
    assert Exact(last.files, last.served[k]);
  }

  /** So a response whose file was not edited between its stat and its bytes is that version, from wherever it came. */
  lemma {:induction false} UneditedResponsesAreExact(start: State, steps: seq<Step>, last: State, k: nat)
    requires IsStart(start) && IsRun(start, steps, last)
    requires k < |last.served| && last.served[k].stat == last.served[k].now
    ensures var r := last.served[k];
      IsRegular(last.files, r.path, r.stat) && r.entry.bytes == last.files[r.path][r.stat].content
  {
    ResponsesAreExact(start, steps, last, k);
  }

  lemma {:induction false} ThenStep(s: State, steps: seq<Step>, mid: State, step: Step)
    requires IsRun(s, steps, mid) && Enabled(mid, step)
    ensures IsRun(s, steps + [step], Apply(mid, step))
    decreases |steps|
  {
    if steps == [] {
      assert IsRun(Apply(mid, step), [], Apply(mid, step));
      assert [step][1..] == [];
    } else {
      assert (steps + [step])[1..] == steps[1..] + [step];
      ThenStep(Apply(s, steps[0]), steps[1..], mid, step);
    }
  }

  /**
  An edit during the fill can make a hit differ: for any two versions of a file with
  different stamps there is a run in which a cache hit answers a request that statted the
  first with the bytes of the second. Another request opens the first version, the edit
  lands, and its read sees the second, so the entry carries the first version's stamp over
  the second version's bytes.
  */
  lemma {:induction false} EditedResponseCanDiffer(path: Path, a: Bytes, b: Bytes, before: int, after: int)
    returns (start: State, steps: seq<Step>, last: State)
    requires |a| <= MAX_STATIC_FILE_BYTES && |b| <= MAX_STATIC_FILE_BYTES
    requires Stamp(before, |a|) != Stamp(after, |b|)
    ensures IsStart(start) && IsRun(start, steps, last)
    ensures start.files == map[path := [Regular(a, before)]]
    ensures last.files == map[path := [Regular(a, before), Regular(b, after)]]
    ensures steps != [] && steps[|steps| - 1].Look?
    ensures |last.served| == 2 && last.served[1] == Served(path, 0, 1, CachedFile(b, Stamp(before, |a|), 0, 1), true)
  {
    var v0, v1 := Regular(a, before), Regular(b, after);
    var entry := CachedFile(b, v0.StampOf(), 0, 1);
    var edited := map[path := [v0, v1]];
    start := State(map[path := [v0]], map[], 0, [Idle, Idle], []);
    steps := FillBegins(start, path);
    var open := start.(pcs := [Statted(path, 0), Reading(path, 0, 0, [])]);
    ThenStep(start, steps, open, Edit(path, v1));
    steps := steps + [Edit(path, v1)];
    assert [v0] + [v1] == [v0, v1] && open.files[path := [v0, v1]] == edited;
    var s := open.(files := edited);
    steps := FillReads(start, steps, s, path, v0, v1, entry);
    var filled := s.(pcs := [Statted(path, 0), Inserting(path, entry)], served := [Served(path, 0, 1, entry, false)]);
    steps, last := FillInserts(start, steps, filled, path, v0, v1, entry);
  }

  /** The first half of that run: one request stats, another stats, misses and opens. */
  lemma {:induction false} FillBegins(start: State, path: Path) returns (steps: seq<Step>)
    requires HasFile(start.files, path) && |start.files[path]| == 1 && start.files[path][0].Regular?
    requires |start.files[path][0].content| <= MAX_STATIC_FILE_BYTES
    requires start.cache == map[] && start.pcs == [Idle, Idle]
    ensures IsRun(start, steps, start.(pcs := [Statted(path, 0), Reading(path, 0, 0, [])]))
  {
    var s1 := start.(pcs := [Statted(path, 0), Idle]);
    assert Apply(start, Stat(0, path)) == s1;
    ThenStep(start, [], start, Stat(0, path));
    var s2 := start.(pcs := [Statted(path, 0), Statted(path, 0)]);
    assert Apply(s1, Stat(1, path)) == s2;
    ThenStep(start, [Stat(0, path)], s1, Stat(1, path));
    steps := [Stat(0, path)] + [Stat(1, path)];
    var s3 := start.(pcs := [Statted(path, 0), Missed(path, 0)]);
    assert Apply(s2, Look(1)) == s3;
    ThenStep(start, steps, s2, Look(1));
    steps := steps + [Look(1)];
    var s4 := start.(pcs := [Statted(path, 0), Reading(path, 0, 0, [])]);
    assert Apply(s3, Open(1, 0)) == s4;
    ThenStep(start, steps, s3, Open(1, 0));
    steps := steps + [Open(1, 0)];
  }

  /** Then, after the edit: it reads the new bytes and prepares an entry with the old stamp. */
  lemma {:induction false} FillReads(
    start: State, done: seq<Step>, s: State, path: Path, v0: Version, v1: Version, entry: CachedFile)
    returns (steps: seq<Step>)
    requires IsRun(start, done, s)
    requires v0.Regular? && v1.Regular? && |v1.content| <= MAX_STATIC_FILE_BYTES
    requires s.files == map[path := [v0, v1]] && s.served == []
    requires s.pcs == [Statted(path, 0), Reading(path, 0, 0, [])]
    requires entry == CachedFile(v1.content, v0.StampOf(), 0, 1)
    ensures IsRun(start, steps,
              s.(pcs := [Statted(path, 0), Inserting(path, entry)], served := [Served(path, 0, 1, entry, false)]))
  {
    var n := |v1.content|;
    var s1 := s.(pcs := [Statted(path, 0), Reading(path, 0, 0, v1.content)]);
    assert [] + v1.content[0..n] == v1.content;
    assert Apply(s, Read(1, 1, n)) == s1;
    ThenStep(start, done, s, Read(1, 1, n));
    steps := done + [Read(1, 1, n)];
    var s2 := s1.(pcs := [Statted(path, 0), Inserting(path, entry)], served := [Served(path, 0, 1, entry, false)]);
    assert Apply(s1, Finish(1, 1)) == s2;
    ThenStep(start, steps, s1, Finish(1, 1));
    steps := steps + [Finish(1, 1)];
  }

  /** Last, it inserts the entry, and the first request hits it. */
  lemma {:induction false} FillInserts(
    start: State, done: seq<Step>, s: State, path: Path, v0: Version, v1: Version, entry: CachedFile)
    returns (steps: seq<Step>, last: State)
    requires IsRun(start, done, s)
    requires v0.Regular? && v1.Regular? && |v1.content| <= MAX_STATIC_FILE_BYTES
    requires s.files == map[path := [v0, v1]] && s.cache == map[] && s.counter == 0 && |s.served| == 1
    requires s.pcs == [Statted(path, 0), Inserting(path, entry)]
    requires entry == CachedFile(v1.content, v0.StampOf(), 0, 1)
    ensures IsRun(start, steps, last)
    ensures last.files == s.files && steps != [] && steps[|steps| - 1].Look?
    ensures |last.served| == 2 && last.served[1] == Served(path, 0, 1, entry, true)
  {
    var s3 := s.(pcs := [Statted(path, 0), Reserved(path, entry)], counter := |v1.content|);
    assert Apply(s, Reserve(1)) == s3;
    ThenStep(start, done, s, Reserve(1));
    steps := done + [Reserve(1)];
    var s4 := s3.(pcs := [Statted(path, 0), Idle], cache := map[path := entry]);
    assert Apply(s3, Insert(1)) == s4;
    ThenStep(start, steps, s3, Insert(1));
    steps := steps + [Insert(1)];
    last := Apply(s4, Look(0));
    ThenStep(start, steps, s4, Look(0));
    steps := steps + [Look(0)];
  }
}
