/** The UTMOS model cache under any number of concurrent callers.

Each caller runs `ensure_utmos_assets`: a check without the lock, the lock, the same check again,
and on a miss the removal of the marker, of a small leftover file, the download, the size check
and the marker.  One step touches the file system at most once; steps of different callers
interleave freely; a caller may crash at any step, which releases the lock.  Nothing else touches
the cache directory. */
module UtmosCache {
  import opened Wrappers

  const MIN_SIZE: nat := 10 * 1024 * 1024

  /** The marker's entry for the model file: whether the repository id is the expected one, and
      the recorded size.  A missing, malformed or wrong-schema marker reads as None. */
  datatype Entry = Entry(expectedRepo: bool, size: int)

  /** Marker contents and model file size on disk. */
  datatype Disk = Disk(marker: Option<Entry>, markerExists: bool, file: Option<nat>)

  type Pid = nat

  /** Where a caller is, with what it has read so far. */
  datatype Pc =
    | Idle
    | QuickCheck(read: Option<Entry>)  // marker read without the lock, file not yet looked at
    | Waiting                          // wants the lock
    | Holding                          // has the lock
    | SlowCheck(read: Option<Entry>)   // marker read under the lock
    | Missed                           // about to unlink the marker
    | Unmarked                         // about to look at the old file
    | Fetching                         // about to download
    | Fetched                          // about to look at the new file
    | Sized(size: nat)                 // about to write the marker
    | TooSmall                         // about to unlink the new file
    | Returned(size: nat)              // the file had this size when checked
    | Failed
    | Crashed

  datatype State = State(disk: Disk, pcs: map<Pid, Pc>, holder: Option<Pid>, downloads: nat, crashes: nat)

  /** `_validate_asset` against a marker that was read before. */
  predicate Valid(read: Option<Entry>, file: Option<nat>) {
    read.Some? && read.value.expectedRepo && read.value.size > 0 && file.Some? && file.value == read.value.size
  }

  /** Positions at which a caller holds the lock. */
  predicate Inside(pc: Pc) {
    pc.Holding? || pc.SlowCheck? || pc.Missed? || pc.Unmarked? || pc.Fetching? || pc.Fetched? || pc.Sized? || pc.TooSmall?
  }

  function Marker(disk: Disk): Option<Entry> { if disk.markerExists then disk.marker else None }

  /** One step of a caller: its next position and the disk. */
  ghost predicate Move(pc: Pc, disk: Disk, pc': Pc, disk': Disk) {
    match pc
    case Idle => pc' == QuickCheck(Marker(disk)) && disk' == disk
    case QuickCheck(read) =>
      disk' == disk && pc' == if Valid(read, disk.file) then Returned(disk.file.value) else Waiting
    case Waiting => pc' == Holding && disk' == disk
    case Holding => pc' == SlowCheck(Marker(disk)) && disk' == disk
    case SlowCheck(read) =>
      disk' == disk && pc' == if Valid(read, disk.file) then Returned(disk.file.value) else Missed
    case Missed => pc' == Unmarked && disk' == disk.(markerExists := false)
    case Unmarked =>
      pc' == Fetching && disk' == if disk.file.Some? && disk.file.value < MIN_SIZE then disk.(file := None) else disk
    case Fetching =>
      || (pc' == Fetched && exists size: nat :: disk' == disk.(file := Some(size)))
      || (pc' == Failed && disk' == disk)
    case Fetched =>
      disk' == disk && disk.file.Some? &&
      pc' == if disk.file.value < MIN_SIZE then TooSmall else Sized(disk.file.value)
    case Sized(size) => pc' == Returned(size) && disk' == disk.(marker := Some(Entry(true, size)), markerExists := true)
    case TooSmall => pc' == Failed && (disk' == disk.(file := None) || disk' == disk)
    case Returned(_) | Failed | Crashed => false
  }

  /** A download completes when the fetched file is large enough to be kept. */
  predicate Completes(pc: Pc, disk': Disk) {
    pc.Fetching? && disk'.file.Some? && disk'.file.value >= MIN_SIZE
  }

  ghost predicate Act(s: State, s': State, p: Pid, pc': Pc, disk': Disk) {
    && p in s.pcs && Move(s.pcs[p], s.disk, pc', disk')
    && (s.pcs[p].Waiting? ==> s.holder == None)
    && s' == s.(disk := disk', pcs := s.pcs[p := pc'],
                holder := if s.pcs[p].Waiting? then Some(p)
                          else if Inside(s.pcs[p]) && !Inside(pc') then None else s.holder,
                downloads := if Completes(s.pcs[p], disk') && pc'.Fetched? then s.downloads + 1 else s.downloads)
  }

  ghost predicate Crash(s: State, s': State, p: Pid) {
    && p in s.pcs && !s.pcs[p].Returned? && !s.pcs[p].Failed? && !s.pcs[p].Crashed?
    && s' == s.(pcs := s.pcs[p := Crashed], crashes := s.crashes + 1,
                holder := if Inside(s.pcs[p]) then None else s.holder)
  }

  ghost predicate Step(s: State, s': State) {
    || (exists p, pc', disk' :: Act(s, s', p, pc', disk'))
    || (exists p :: Crash(s, s', p))
  }

  ghost predicate Start(s: State) {
    s.holder == None && s.downloads == 0 && s.crashes == 0 && forall p | p in s.pcs :: s.pcs[p] == Idle
  }

  ghost predicate Run(trace: seq<State>) {
    && trace != [] && Start(trace[0])
    && forall j, k | 0 <= j < |trace| && 0 <= k < |trace| && k == j + 1 :: Step(trace[j], trace[k])
  }

  // ---------- what every step keeps ----------

  /** The cache is good: the marker vouches for the file that is there. */
  predicate Committed(disk: Disk) { Valid(Marker(disk), disk.file) }

  /** The lock holder has a good new file and is about to say so. */
  predicate Pending(s: State) {
    s.holder.Some? && s.holder.value in s.pcs &&
    var pc := s.pcs[s.holder.value];
    s.disk.file.Some? && s.disk.file.value >= MIN_SIZE && (pc.Fetched? || pc == Sized(s.disk.file.value))
  }

  ghost predicate Exclusive(s: State) {
    && (forall p | p in s.pcs && Inside(s.pcs[p]) :: s.holder == Some(p))
    && (s.holder.Some? ==> s.holder.value in s.pcs && Inside(s.pcs[s.holder.value]))
  }

  /** What the lock holder knows about the disk. */
  ghost predicate HolderKnows(s: State) {
    s.holder.Some? && s.holder.value in s.pcs ==>
      var pc := s.pcs[s.holder.value];
      && (pc.SlowCheck? ==> pc.read == Marker(s.disk))
      && (pc.Missed? ==> !Committed(s.disk))
      && (pc.Unmarked? || pc.Fetching? || pc.Fetched? || pc.Sized? || pc.TooSmall? ==> !s.disk.markerExists)
      && (pc.Fetched? ==> s.disk.file.Some?)
      && (pc.Sized? ==> s.disk.file == Some(pc.size) && pc.size >= MIN_SIZE)
      && (pc.TooSmall? ==> s.disk.file.Some? && s.disk.file.value < MIN_SIZE)
  }

  /** Downloads are paid for: by a crash each, but for the one that made the cache good. */
  ghost predicate Paid(s: State) {
    s.downloads <= s.crashes + (if Committed(s.disk) || Pending(s) then 1 else 0)
  }

  ghost predicate Invariant(s: State) { Exclusive(s) && HolderKnows(s) && Paid(s) }

  lemma {:induction false} ActKeeps(s: State, s': State, p: Pid, pc': Pc, disk': Disk)
    requires Invariant(s) && Act(s, s', p, pc', disk')
    ensures Invariant(s')
  {
    assert s'.pcs[p] == pc' && forall q | q in s.pcs && q != p :: s'.pcs[q] == s.pcs[q];
  }

  lemma {:induction false} CrashKeeps(s: State, s': State, p: Pid)
    requires Invariant(s) && Crash(s, s', p)
    ensures Invariant(s')
  {
    assert s'.pcs[p] == Crashed && forall q | q in s.pcs && q != p :: s'.pcs[q] == s.pcs[q];
  }

  lemma {:induction false} RunKeeps(trace: seq<State>, k: nat)
    requires Run(trace) && k < |trace|
    ensures Invariant(trace[k])
  {
    if k > 0 {
      RunKeeps(trace, k - 1);
      var s, s' := trace[k - 1], trace[k];
      assert Step(s, s');
      if p, pc', disk' :| Act(s, s', p, pc', disk') {
        ActKeeps(s, s', p, pc', disk');
      } else {
        var p :| Crash(s, s', p);
        CrashKeeps(s, s', p);
      }
    }
  }

  // ---------- whole runs ----------

  /** Without crashes at most one download completes, whatever the number of callers; each crash
      allows one more. */
  lemma {:induction false} AtMostOneDownload(trace: seq<State>)
    requires Run(trace)
    ensures var end := trace[|trace| - 1]; end.downloads <= end.crashes + 1
  {
    RunKeeps(trace, |trace| - 1);
  }

  ghost predicate HolderActs(s: State, s': State) {
    s.holder.Some? && exists pc', disk' :: Act(s, s', s.holder.value, pc', disk')
  }

  /** In every run only the lock holder removes or writes the marker or the file. */
  lemma {:induction false} OnlyHolderWrites(trace: seq<State>, k: nat)
    requires Run(trace) && k + 1 < |trace| && trace[k + 1].disk != trace[k].disk
    ensures HolderActs(trace[k], trace[k + 1])
  {
    RunKeeps(trace, k);
    var s, s' := trace[k], trace[k + 1];
    assert Step(s, s');
    if p, pc', disk' :| Act(s, s', p, pc', disk') {
      assert Inside(s.pcs[p]);
    }
  }

  /** In every run a good cache is never touched again. */
  lemma {:induction false} GoodStaysGood(trace: seq<State>, j: nat, k: nat)
    requires Run(trace) && j <= k < |trace| && Committed(trace[j].disk)
    ensures trace[k].disk == trace[j].disk
    decreases k
  {
    hide *;
    if j < k {
      GoodStaysGood(trace, j, k - 1);
      RunKeeps(trace, k - 1);
      RunSteps(trace, k);
      GoodStep(trace[k - 1], trace[k]);
    }
  }

  lemma {:induction false} RunSteps(trace: seq<State>, k: nat)
    requires Run(trace) && 0 < k < |trace|
    ensures Step(trace[k - 1], trace[k])
  {}

  lemma {:induction false} GoodStep(s: State, s': State)
    requires Invariant(s) && Step(s, s') && Committed(s.disk)
    ensures s'.disk == s.disk
  {
    if p, pc', disk' :| Act(s, s', p, pc', disk') {
      assert Inside(s.pcs[p]) ==> s.holder == Some(p);
    }
  }

  /** In every run a path is returned only for a file that has, at that step, the size of an entry
      with the expected repository: the entry this caller read, or the one it just wrote. */
  lemma {:induction false} ReturnsAreVouchedFor(trace: seq<State>, k: nat, p: Pid)
    requires Run(trace) && k + 1 < |trace| && p in trace[k].pcs && p in trace[k + 1].pcs
    requires trace[k + 1].pcs[p].Returned? && !trace[k].pcs[p].Returned?
    ensures var size := trace[k + 1].pcs[p].size;
      && size > 0 && trace[k + 1].disk.file == Some(size)
      && (|| trace[k].pcs[p] == QuickCheck(Some(Entry(true, size)))
          || trace[k].pcs[p] == SlowCheck(Some(Entry(true, size)))
          || Marker(trace[k + 1].disk) == Some(Entry(true, size)))
  {
    RunKeeps(trace, k);
    assert Step(trace[k], trace[k + 1]);
  }

  // ---------- the minimum size ----------

  /** An entry that vouches for a file below the minimum; this program never writes one. */
  predicate Small(entry: Option<Entry>) {
    entry.Some? && entry.value.expectedRepo && 0 < entry.value.size < MIN_SIZE
  }

  ghost predicate NoneSmall(s: State) {
    && !Small(Marker(s.disk))
    && forall p | p in s.pcs :: match s.pcs[p]
         case QuickCheck(read) => !Small(read)
         case SlowCheck(read) => !Small(read)
         case Returned(size) => size >= MIN_SIZE
         case _ => true
  }

  lemma {:induction false} NoneSmallKept(s: State, s': State)
    requires Invariant(s) && NoneSmall(s) && Step(s, s')
    ensures NoneSmall(s')
  {
    if p, pc', disk' :| Act(s, s', p, pc', disk') {
      assert s'.pcs[p] == pc' && forall q | q in s.pcs && q != p :: s'.pcs[q] == s.pcs[q];
      assert match s.pcs[p] case QuickCheck(read) => !Small(read) case SlowCheck(read) => !Small(read) case _ => true;
    } else {
      var p :| Crash(s, s', p);
      assert s'.pcs[p] == Crashed && forall q | q in s.pcs && q != p :: s'.pcs[q] == s.pcs[q];
    }
  }

  lemma {:induction false} RunNoneSmall(trace: seq<State>, k: nat)
    requires Run(trace) && k < |trace| && !Small(Marker(trace[0].disk))
    ensures NoneSmall(trace[k])
  {
    if k > 0 {
      RunNoneSmall(trace, k - 1);
      RunKeeps(trace, k - 1);
      NoneSmallKept(trace[k - 1], trace[k]);
    }
  }

  ghost predicate ReturnsSmall(trace: seq<State>) {
    exists k, p :: 0 <= k < |trace| && p in trace[k].pcs && trace[k].pcs[p].Returned? && trace[k].pcs[p].size < MIN_SIZE
  }

  /** One step of caller p to position pc' with the given disk, as a state. */
  function After(s: State, p: Pid, pc': Pc, disk': Disk): State
    requires p in s.pcs
  {
    s.(disk := disk', pcs := s.pcs[p := pc'],
       holder := if s.pcs[p].Waiting? then Some(p) else if Inside(s.pcs[p]) && !Inside(pc') then None else s.holder,
       downloads := if Completes(s.pcs[p], disk') && pc'.Fetched? then s.downloads + 1 else s.downloads)
  }

  lemma {:induction false} Extend(trace: seq<State>, p: Pid, pc': Pc, disk': Disk) returns (longer: seq<State>)
    requires Run(trace) && var s := trace[|trace| - 1];
      p in s.pcs && Move(s.pcs[p], s.disk, pc', disk') && (s.pcs[p].Waiting? ==> s.holder == None)
    ensures Run(longer) && longer[0] == trace[0] && |longer| == |trace| + 1
    ensures longer[|trace|] == After(trace[|trace| - 1], p, pc', disk')
  {
    var s := trace[|trace| - 1];
    longer := trace + [After(s, p, pc', disk')];
    assert Act(s, longer[|trace|], p, pc', disk');
    forall j, k | 0 <= j < |longer| && 0 <= k < |longer| && k == j + 1 ensures Step(longer[j], longer[k]) {
      if k < |trace| { assert Step(trace[j], trace[k]); }
    }
  }

  /** Caller q goes to the lock with an entry that does not match the file. */
  lemma {:induction false} ToTheLock(start: seq<State>, q: Pid) returns (trace: seq<State>)
    requires Run(start) && var s := start[|start| - 1];
      q in s.pcs && s.pcs[q] == Idle && s.holder == None && !Committed(s.disk)
    ensures Run(trace) && trace[0] == start[0]
    ensures var s, t := start[|start| - 1], trace[|trace| - 1];
      t.disk == s.disk && t.holder == Some(q) && t.pcs == s.pcs[q := SlowCheck(Marker(s.disk))]
  {
    var d := start[|start| - 1].disk;
    trace := Extend(start, q, QuickCheck(Marker(d)), d);
    trace := Extend(trace, q, Waiting, d);
    trace := Extend(trace, q, Holding, d);
    trace := Extend(trace, q, SlowCheck(Marker(d)), d);
  }

  /** Having missed, caller q fetches a file of the given size. */
  lemma {:induction false} ToTheFile(start: seq<State>, q: Pid, size: nat) returns (trace: seq<State>)
    requires Run(start) && var s := start[|start| - 1];
      q in s.pcs && s.pcs[q] == SlowCheck(Marker(s.disk)) && !Committed(s.disk)
    ensures Run(trace) && trace[0] == start[0]
    ensures var s, t := start[|start| - 1], trace[|trace| - 1];
      t.disk.file == Some(size) && t.pcs == s.pcs[q := Fetched]
  {
    var d := start[|start| - 1].disk;
    trace := Extend(start, q, Missed, d);
    d := d.(markerExists := false);
    trace := Extend(trace, q, Unmarked, d);
    d := if d.file.Some? && d.file.value < MIN_SIZE then d.(file := None) else d;
    trace := Extend(trace, q, Fetching, d);
    trace := Extend(trace, q, Fetched, d.(file := Some(size)));
  }

  /** A caller that read a small entry returns once some file of that size is there: at once if
      it already is, otherwise after a second caller has fetched a truncated one. */
  lemma {:induction false} SmallRun(start: State, p: Pid, q: Pid) returns (trace: seq<State>)
    requires Start(start) && p in start.pcs && q in start.pcs && Small(Marker(start.disk))
    requires p != q || Committed(start.disk)
    ensures Run(trace) && trace[0] == start && ReturnsSmall(trace)
  {
    var read := Marker(start.disk);
    trace := [start];
    trace := Extend(trace, p, QuickCheck(read), start.disk);
    if !Committed(start.disk) {
      hide Run;
      trace := ToTheLock(trace, q);
      trace := ToTheFile(trace, q, read.value.size);
    }
    trace := Extend(trace, p, Returned(read.value.size), trace[|trace| - 1].disk);
    assert p in trace[|trace| - 1].pcs;
  }

  /** What a single caller knows that found a marker and a file which do not agree. */
  ghost predicate Alone(s: State, p: Pid, found: Disk) {
    && s.pcs.Keys == {p}
    && match s.pcs[p]
       case Idle | Waiting | Holding | Missed => s.disk == found
       case QuickCheck(read) => s.disk == found && read == Marker(found)
       case SlowCheck(read) => s.disk == found && read == Marker(found)
       case Sized(size) => size >= MIN_SIZE
       case Returned(size) => size >= MIN_SIZE
       case _ => true
  }

  lemma {:induction false} AloneKept(s: State, s': State, p: Pid, found: Disk)
    requires !Committed(found) && Alone(s, p, found) && Step(s, s')
    ensures Alone(s', p, found)
  {
    if q, pc', disk' :| Act(s, s', q, pc', disk') {
      assert q in s.pcs.Keys && q == p;
      assert s'.pcs[p] == pc';
    } else {
      var q :| Crash(s, s', q);
      assert q in s.pcs.Keys && q == p;
      assert s'.pcs[p] == Crashed;
    }
  }

  lemma {:induction false} RunAlone(trace: seq<State>, p: Pid, k: nat)
    requires Run(trace) && k < |trace| && trace[0].pcs.Keys == {p} && !Committed(trace[0].disk)
    ensures Alone(trace[k], p, trace[0].disk)
  {
    if k == 0 {
      assert p in trace[0].pcs.Keys;
    } else {
      RunAlone(trace, p, k - 1);
      RunSteps(trace, k);
      hide *;
      AloneKept(trace[k - 1], trace[k], p, trace[0].disk);
    }
  }

  /** One caller, or none, among whom no small entry leads to a small file. */
  ghost predicate Harmless(start: State) {
    || !Small(Marker(start.disk))
    || |start.pcs| == 0
    || (|start.pcs| == 1 && !Committed(start.disk))
  }

  /** The documentation promises a fresh download for a file below the minimum.  The validation
      does not compare with the minimum, so this holds in all runs exactly when the marker found at
      the start does not vouch for a small file, or there is a single caller and no file of the size
      the marker names. */
  lemma {:induction false} SmallFilesAreRefused(start: State)
    requires Start(start)
    ensures (forall trace: seq<State> | Run(trace) && trace[0] == start :: !ReturnsSmall(trace)) <==> Harmless(start)
  {
    if Harmless(start) {
      forall trace: seq<State> | Run(trace) && trace[0] == start ensures !ReturnsSmall(trace) {
        if ReturnsSmall(trace) {
          var k, r :| 0 <= k < |trace| && r in trace[k].pcs && trace[k].pcs[r].Returned? && trace[k].pcs[r].size < MIN_SIZE;
          NoSmallReturn(trace, k, r);
        }
      }
    } else {
      var p, q := Callers(start.pcs.Keys);
      var trace := SmallRun(start, p, q);
    }
  }

  lemma {:induction false} NoSmallReturn(trace: seq<State>, k: nat, r: Pid)
    requires Run(trace) && Harmless(trace[0]) && k < |trace| && r in trace[k].pcs && trace[k].pcs[r].Returned?
    ensures trace[k].pcs[r].size >= MIN_SIZE
  {
    if !Small(Marker(trace[0].disk)) {
      RunNoneSmall(trace, k);
    } else {
      SameCallers(trace, k);
      assert r in trace[k].pcs.Keys && |trace[0].pcs.Keys| == |trace[0].pcs|;
      var p, q := Callers(trace[0].pcs.Keys);
      hide Run;
      RunAlone(trace, p, k);
    }
  }

  lemma {:induction false} SameCallers(trace: seq<State>, k: nat)
    requires Run(trace) && k < |trace|
    ensures trace[k].pcs.Keys == trace[0].pcs.Keys
  {
    if k > 0 {
      SameCallers(trace, k - 1);
      RunSteps(trace, k);
      hide Run, Move, Start;
      var s, s' := trace[k - 1], trace[k];
      if p, pc', disk' :| Act(s, s', p, pc', disk') {
        assert s'.pcs.Keys == s.pcs.Keys;
      } else {
        var p :| Crash(s, s', p);
        assert s'.pcs.Keys == s.pcs.Keys;
      }
    }
  }

  /** Two members of a set, different ones if there are two. */
  lemma {:induction false} Callers(ps: set<Pid>) returns (p: Pid, q: Pid)
    requires ps != {}
    ensures p in ps && q in ps && (|ps| >= 2 ==> p != q) && (|ps| == 1 ==> p == q && ps == {p})
  {
    p :| p in ps;
    q := p;
    var rest := ps - {p};
    assert ps == rest + {p};
    if rest != {} { q :| q in rest; }
  }

  // ---------- the same in plain terms ----------

  /** The counter grows exactly with the steps that bring a file of at least the minimum size. */
  lemma {:induction false} DownloadsCounted(trace: seq<State>, k: nat)
    requires Run(trace) && k + 1 < |trace|
    ensures var s, s' := trace[k], trace[k + 1];
      s'.downloads == s.downloads +
        if exists p :: p in s.pcs && p in s'.pcs && s.pcs[p].Fetching? && s'.pcs[p].Fetched? &&
                       s'.disk.file.Some? && s'.disk.file.value >= 10485760 then 1 else 0
  {
    RunSteps(trace, k + 1);
    hide Run;
    var s, s' := trace[k], trace[k + 1];
    if p, pc', disk' :| Act(s, s', p, pc', disk') {
      assert s'.pcs[p] == pc' && forall q | q in s.pcs && q != p :: s'.pcs[q] == s.pcs[q];
    } else {
      var p :| Crash(s, s', p);
      assert s'.pcs[p] == Crashed && forall q | q in s.pcs && q != p :: s'.pcs[q] == s.pcs[q];
    }
  }

  /** A marker with the expected repository and the size of the file that is there: no run that starts
      with it downloads anything or touches marker or file. */
  lemma {:induction false} GoodCacheIsKept(trace: seq<State>, k: nat)
    requires Run(trace) && k < |trace|
    requires trace[0].disk.markerExists && trace[0].disk.file.Some? && trace[0].disk.file.value > 0
    requires trace[0].disk.marker == Some(Entry(true, trace[0].disk.file.value))
    ensures trace[k].disk == trace[0].disk && trace[k].downloads == 0
  {
    GoodStaysGood(trace, 0, k);
    if k > 0 {
      GoodCacheIsKept(trace, k - 1);
      GoodStaysGood(trace, 0, k - 1);
      RunKeeps(trace, k - 1);
      RunSteps(trace, k);
      hide Run;
      var s, s' := trace[k - 1], trace[k];
      if p, pc', disk' :| Act(s, s', p, pc', disk') {
        assert Inside(s.pcs[p]) ==> s.holder == Some(p);
      }
    }
  }
}
