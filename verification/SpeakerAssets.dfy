/** The speaker-similarity asset cache: a marker protocol that may crash between any two steps.

The state is the cache directory; a call is a sequence of steps on it, each touching one file or
the marker.  A call is given what the outside decides: whether an override checkpoint is passed and
exists, what each download would bring, and after how many steps the process dies. */
module SpeakerAssets {
  import opened Wrappers

  const MIN_SIZE: nat := 100 * 1024 * 1024

  datatype File = BaseModel | FineTune

  /** One file's record in the marker: the size, and whether the repository id is the configured
      one; either may be missing from a marker this program did not write. */
  datatype Entry = Entry(size: Option<int>, configuredRepo: Option<bool>)

  /** A request's surroundings.  A download brings a file of some size or fails (absent key). */
  datatype Request = Request(overridden: bool, overrideExists: bool, fetched: map<File, nat>,
                             cleanupWorks: bool, stepsBeforeCrash: nat)

  /** The download of f would not bring a file of at least the minimum size. */
  predicate BadFetch(request: Request, f: File) { f in request.fetched ==> request.fetched[f] < MIN_SIZE }

  datatype Outcome = Ready | OverrideMissing | DownloadFailed | Crashed

  /** `_validate_asset`: on disk, at least the minimum, and agreeing with whatever is recorded. */
  predicate Valid(files: map<File, nat>, f: File, recorded: Entry) {
    && f in files && files[f] >= MIN_SIZE
    && (recorded.size.Some? ==> files[f] == recorded.size.value)
    && recorded.configuredRepo != Some(false)
  }

  /** The files the cache must hold, in the order they are handled. */
  function Expected(overridden: bool): seq<File> { if overridden then [BaseModel] else [BaseModel, FineTune] }

  function Members(fs: seq<File>): set<File> { set f | f in fs }

  /** A marker that names exactly the expected files, all of them valid. */
  predicate Hit(files: map<File, nat>, marker: Option<map<File, Entry>>, overridden: bool) {
    && marker.Some? && marker.value.Keys == Members(Expected(overridden))
    && forall f | f in Expected(overridden) :: f in marker.value && Valid(files, f, marker.value[f])
  }

  /** Every recorded file is there with the recorded size, at least the minimum, from the
      configured repository. */
  predicate Truthful(files: map<File, nat>, marker: Option<map<File, Entry>>) {
    marker.Some? ==> forall f | f in marker.value ::
      f in files && files[f] >= MIN_SIZE && marker.value[f] == Entry(Some(files[f]), Some(true))
  }

  predicate Large(files: map<File, nat>, f: File) { f in files && files[f] >= MIN_SIZE }

  /** What was a large file in the cache stays as it is. */
  ghost predicate LargeKept(before: map<File, nat>, after: map<File, nat>) {
    forall f | Large(before, f) :: f in after && after[f] == before[f]
  }

  /** Files with the number of their good downloads. */
  datatype Ledger = Ledger(files: map<File, nat>, good: map<File, nat>)

  ghost predicate Counting(l: Ledger) { forall f: File :: f in l.good }

  ghost predicate Same(f: File, a: Ledger, b: Ledger)
    requires Counting(a) && Counting(b)
  { (f in a.files <==> f in b.files) && (f in a.files ==> a.files[f] == b.files[f]) && a.good[f] == b.good[f] }

  /** A good download leaves a large file where none was. */
  ghost predicate Downloaded(f: File, a: Ledger, b: Ledger)
    requires Counting(a) && Counting(b)
  { b.good[f] == a.good[f] + 1 && !Large(a.files, f) && Large(b.files, f) }

  /** Every file is as it was in number of good downloads, or has had one that was needed. */
  ghost predicate Accounted(a: Ledger, b: Ledger) {
    && Counting(a) && Counting(b)
    && forall f :: b.good[f] == a.good[f] || Downloaded(f, a, b)
  }

  /** After k files of the second loop: those present untouched, those missing downloaded. */
  ghost predicate Progress(handled: set<File>, a: Ledger, b: Ledger) {
    && Counting(a) && Counting(b)
    && forall f :: if f in handled && f !in a.files then Downloaded(f, a, b) else Same(f, a, b)
  }

  lemma {:induction false} ProgressAccounts(expected: seq<File>, a: Ledger, b: Ledger)
    requires Progress(Members(expected), a, b)
    ensures Accounted(a, b) && LargeKept(a.files, b.files)
    ensures forall f | f !in expected :: Same(f, a, b)
  {}

  /** A file whose turn has not come is as it was. */
  lemma {:induction false} NextFile(handled: set<File>, f: File, a: Ledger, b: Ledger)
    requires Progress(handled, a, b) && f !in handled
    ensures Counting(b) && (f in b.files <==> f in a.files) && (f in a.files ==> b.files[f] == a.files[f])
  {
    assert Same(f, a, b);
  }

  lemma {:induction false} OthersSame(expected: seq<File>, k: nat, f: File, a: Ledger, b: Ledger)
    requires k < |expected| && f == expected[k] && Counting(a) && Counting(b)
    requires forall g | g !in Members(expected[..k]) && g != f :: Same(g, a, b)
    ensures forall g | g !in expected :: Same(g, a, b)
  {}

  /** What one turn of the second loop did to its file f. */
  ghost predicate Turn(f: File, a: Ledger, b: Ledger) {
    && Counting(a) && Counting(b)
    && (forall g | g != f :: Same(g, a, b))
    && (f in a.files ==> Same(f, a, b))
    && (b.good[f] == a.good[f] || Downloaded(f, a, b))
  }

  lemma {:induction false} TurnAccounts(handled: set<File>, f: File, a: Ledger, b: Ledger, c: Ledger)
    requires Progress(handled, a, b) && f !in handled && Turn(f, b, c)
    ensures Accounted(a, c) && LargeKept(a.files, c.files)
    ensures forall g | g !in handled && g != f :: Same(g, a, c)
    ensures f in a.files || Downloaded(f, b, c) ==> Progress(handled + {f}, a, c)
  {
    assert Same(f, a, b);
    forall g | g !in handled && g != f ensures Same(g, a, c) { assert Same(g, a, b) && Same(g, b, c); }
    forall g ensures c.good[g] == a.good[g] || Downloaded(g, a, c) {
      if g != f { assert Same(g, b, c) && (Downloaded(g, a, b) || Same(g, a, b)); }
    }
    forall g | Large(a.files, g) ensures g in c.files && c.files[g] == a.files[g] {
      if g != f { assert Same(g, b, c); }
    }
    if f in a.files || Downloaded(f, b, c) {
      forall g ensures if g in handled + {f} && g !in a.files then Downloaded(g, a, c) else Same(g, a, c) {
        if g != f { assert Same(g, b, c); }
      }
    }
  }

  lemma {:induction false} NotYet(expected: seq<File>, k: nat)
    requires k < |expected| && (expected == [BaseModel] || expected == [BaseModel, FineTune])
    ensures expected[k] !in Members(expected[..k])
    ensures Members(expected[..k + 1]) == Members(expected[..k]) + {expected[k]}
  {
    assert expected[..k + 1] == expected[..k] + [expected[k]];
  }

  lemma {:induction false} StaysTruthful(info: map<File, Entry>, f: File, a: Ledger, b: Ledger)
    requires f !in info && Truthful(a.files, Some(info)) && Turn(f, a, b) && Large(b.files, f)
    ensures Truthful(b.files, Some(info[f := Entry(Some(b.files[f]), Some(true))]))
  {
    forall g | g in info ensures g in b.files && b.files[g] == a.files[g] { assert Same(g, a, b); }
  }

  lemma {:induction false} HitHasFiles(files: map<File, nat>, marker: Option<map<File, Entry>>, overridden: bool)
    requires Hit(files, marker, overridden)
    ensures forall f | f in Expected(overridden) :: Large(files, f)
    ensures BaseModel in Expected(overridden)
  {
    assert Expected(overridden)[0] == BaseModel;
  }

  /** Moving a large file into a free place downloads nothing and unsettles no truthful marker. */
  lemma {:induction false} MigrationAccounts(a: Ledger, b: Ledger, marker: Option<map<File, Entry>>)
    requires Counting(a) && a.good == b.good
    requires a.files == b.files ||
             (BaseModel !in a.files && Large(b.files, BaseModel) && b.files == a.files[BaseModel := b.files[BaseModel]])
    ensures Accounted(a, b) && LargeKept(a.files, b.files)
    ensures Truthful(a.files, marker) ==> Truthful(b.files, marker)
  {}

  /** A hit in plain terms: the marker lists exactly the base model and, without an override, the
      fine-tuned one; each is there with at least 100 MiB, has the recorded size if one is recorded, and
      is not recorded from another repository. */
  lemma {:induction false} HitInPlainTerms(files: map<File, nat>, marker: Option<map<File, Entry>>, overridden: bool)
    ensures Hit(files, marker, overridden) <==>
      && marker.Some?
      && (forall f :: f in marker.value <==> f == BaseModel || (f == FineTune && !overridden))
      && forall f | f in marker.value ::
           && f in files && files[f] >= 104857600
           && (marker.value[f].size == None || marker.value[f].size == Some(files[f]))
           && marker.value[f].configuredRepo != Some(false)
  {
    var expected := Expected(overridden);
    assert forall f :: f in expected <==> f == BaseModel || (f == FineTune && !overridden) by {
      assert expected[0] == BaseModel && (!overridden ==> expected[1] == FineTune);
    }
    assert forall f :: f in Members(expected) <==> f in expected;
    assert marker.Some? ==> (marker.value.Keys == Members(expected) <==> forall f :: f in marker.value <==> f in expected);
  }

  /** The file and its record do not agree, in size or in repository. */
  predicate Disagrees(size: nat, recorded: Entry) {
    (recorded.size.Some? && recorded.size.value != size) || recorded.configuredRepo == Some(false)
  }

  lemma {:induction false} Disagreement(files: map<File, nat>, marker: Option<map<File, Entry>>, size: nat, recorded: Entry)
    requires files == map[BaseModel := size] && marker == Some(map[BaseModel := recorded]) && Disagrees(size, recorded)
    ensures !Hit(files, marker, true) && !Truthful(files, marker)
  {
    assert Expected(true)[0] == BaseModel;
    assert !Valid(files, BaseModel, marker.value[BaseModel]);
  }

  lemma {:induction false} OnlyEntry(files: map<File, nat>, marker: Option<map<File, Entry>>)
    requires Hit(files, marker, true) && Truthful(files, marker)
    ensures BaseModel in files && marker == Some(map[BaseModel := Entry(Some(files[BaseModel]), Some(true))])
  {
    assert marker.value.Keys == Members(Expected(true)) == {BaseModel};
    assert marker.value == map[BaseModel := Entry(Some(files[BaseModel]), Some(true))];
  }

  class AssetCache {
    var files: map<File, nat>
    var legacy: Option<nat>
    var marker: Option<map<File, Entry>>
    /** Downloads so far that brought a file of at least the minimum size. */
    ghost var good: map<File, nat>

    ghost function Now(): Ledger
      reads this
    { Ledger(files, good) }

    /** `_migrate_legacy_layout`: one rename, only into a free place and only of a large file. */
    method MigrateLegacyLayout()
      modifies this`files, this`legacy
      ensures if old(legacy).Some? && BaseModel !in old(files) && old(legacy).value >= MIN_SIZE
              then files == old(files)[BaseModel := old(legacy).value] && legacy == None
              else files == old(files) && legacy == old(legacy)
    {
      if legacy.None? || BaseModel in files {
        return;
      }
      if legacy.value < MIN_SIZE {
        return;
      }
      files, legacy := files[BaseModel := legacy.value], None;
    }

    /** One turn of the second loop of a miss: fetch the file unless it is there, and check what came. */
    method FetchIfMissing(f: File, request: Request, budget: nat) returns (outcome: Outcome, left: nat)
      requires Counting(Now()) && (f in files ==> files[f] >= MIN_SIZE)
      modifies this`files, this`good
      ensures Turn(f, old(Now()), Now()) && outcome != OverrideMissing
      ensures outcome == Ready ==> Large(files, f)
      ensures (outcome == Crashed ==> budget < 2) && (budget >= 2 ==> left + 2 >= budget)
      ensures outcome == DownloadFailed ==> BadFetch(request, f)
      ensures outcome == Ready && f !in old(files) ==> Downloaded(f, old(Now()), Now())
    {
      left := budget;
      if f in files {
        return Ready, left;
      }
      if left == 0 { return Crashed, left; }
      left := left - 1;
      if f !in request.fetched {
        return DownloadFailed, left;
      }
      files := files[f := request.fetched[f]];
      if files[f] >= MIN_SIZE { good := good[f := good[f] + 1]; }
      if left == 0 { return Crashed, left; }
      left := left - 1;
      if files[f] < MIN_SIZE {
        if request.cleanupWorks { files := files - {f}; }
        return DownloadFailed, left;
      }
      outcome := Ready;
    }

    /** First loop of a miss: leftovers below the minimum go. */
    method RemoveSmall(expected: seq<File>, budget: nat) returns (outcome: Outcome, left: nat)
      modifies this`files
      ensures LargeKept(old(files), files) && outcome in {Ready, Crashed}
      ensures forall f :: f in files ==> f in old(files) && files[f] == old(files)[f]
      ensures outcome == Ready ==> forall f | f in expected && f in files :: files[f] >= MIN_SIZE
      ensures forall f | f !in expected :: f in files <==> f in old(files)
      ensures (outcome == Crashed ==> budget < |expected|) && left + |expected| >= budget
    {
      left := budget;
      for k := 0 to |expected|
        invariant LargeKept(old(files), files)
        invariant forall f :: f in files ==> f in old(files) && files[f] == old(files)[f]
        invariant forall j | 0 <= j < k && expected[j] in files :: files[expected[j]] >= MIN_SIZE
        invariant forall f | f !in expected :: f in files <==> f in old(files)
        invariant left + k >= budget
      {
        var f := expected[k];
        if f in files && files[f] < MIN_SIZE {
          if left == 0 { return Crashed, left; }
          left := left - 1;
          files := files - {f};
        }
      }
      outcome := Ready;
    }

    /** Second loop of a miss: fetch what is missing and record every file, then write the marker. */
    method FetchAll(expected: seq<File>, request: Request, budget: nat) returns (outcome: Outcome)
      requires Counting(Now()) && marker == None && (expected == [BaseModel] || expected == [BaseModel, FineTune])
      requires forall f | f in expected && f in files :: files[f] >= MIN_SIZE
      modifies this`files, this`good, this`marker
      ensures Accounted(old(Now()), Now()) && LargeKept(old(files), files) && Truthful(files, marker)
      ensures outcome != OverrideMissing && (outcome != Ready ==> marker == None)
      ensures outcome == Ready ==> marker.Some? && marker.value.Keys == Members(expected)
      ensures outcome == Crashed ==> budget < 5
      ensures outcome == DownloadFailed ==> exists f :: f in expected && BadFetch(request, f)
      ensures outcome == Ready ==> Progress(Members(expected), old(Now()), Now())
      ensures forall f | f !in expected :: Same(f, old(Now()), Now())
    {
      var left: nat := budget;
      var info: map<File, Entry> := map[];
      ghost var start := Now();
      assert Progress({}, start, Now()) && Truthful(files, Some(info));
      hide *;
      for k := 0 to |expected|
        invariant marker == None && Progress(info.Keys, start, Now())
        invariant info.Keys == Members(expected[..k])
        invariant Truthful(files, Some(info))
        invariant budget >= 4 ==> left + 2 * k >= budget
      {
        var f := expected[k];
        ghost var before := Now();
        NotYet(expected, k);
        NextFile(info.Keys, f, start, before);
        outcome, left := FetchIfMissing(f, request, left);
        TurnAccounts(info.Keys, f, start, before, Now());
        if outcome != Ready {
          OthersSame(expected, k, f, start, Now());
          return;
        }
        StaysTruthful(info, f, before, Now());
        assert info[f := Entry(Some(files[f]), Some(true))].Keys == info.Keys + {f};
        info := info[f := Entry(Some(files[f]), Some(true))];
      }
      assert expected[..|expected|] == expected;
      ProgressAccounts(expected, start, Now());
      if left == 0 { return Crashed; }
      marker := Some(info);
      outcome := Ready;
    }

    /** One call.  The marker is removed before any file is touched and written last. */
    method Ensure(request: Request) returns (outcome: Outcome)
      requires Counting(Now())
      modifies this
      ensures Accounted(old(Now()), Now()) && LargeKept(old(files), files)
      ensures old(Truthful(files, marker)) || marker != old(marker) ==> Truthful(files, marker)
      ensures outcome == Ready ==> Hit(files, marker, request.overridden)
      ensures outcome == Ready ==> forall f | f in Expected(request.overridden) ::
        if old(Large(files, f)) || (f == BaseModel && old(Migrates())) then good[f] == old(good)[f]
        else good[f] == old(good)[f] + 1
      ensures old(Hit(files, marker, request.overridden)) && (request.overridden ==> request.overrideExists) ==>
        outcome == Ready && files == old(files) && legacy == old(legacy) && marker == old(marker) && good == old(good)
      ensures request.overridden && !request.overrideExists <==> outcome == OverrideMissing
      ensures outcome == OverrideMissing ==> marker == old(marker)
      ensures outcome == Crashed ==> request.stepsBeforeCrash < 8
      ensures outcome == DownloadFailed ==> exists f :: f in Expected(request.overridden) && BadFetch(request, f)
      ensures forall f | f !in Expected(request.overridden) :: Same(f, old(Now()), Now())
    {
      var overridden := request.overridden;
      var left := request.stepsBeforeCrash;
      hide Hit, Accounted, LargeKept, Truthful;
      if Hit(files, marker, overridden) { HitHasFiles(files, marker, overridden); }
      ghost var start := Now();
      MigrateLegacyLayout();
      MigrationAccounts(start, Now(), marker);
      if overridden && !request.overrideExists {
        return OverrideMissing;
      }
      assert forall f | f in Expected(overridden) ::
        Large(files, f) <==> Large(start.files, f) || (f == BaseModel && old(Migrates()));
      if Hit(files, marker, overridden) {
        HitHasFiles(files, marker, overridden);
        return Ready;
      }
      ghost var before := Now();
      outcome := Rebuild(request, left);
      AccountedTransitive(start, before, Now());
    }

    /** The rest of a call that found no hit. */
    method Rebuild(request: Request, budget: nat) returns (outcome: Outcome)
      requires Counting(Now())
      modifies this`files, this`good, this`marker
      ensures Accounted(old(Now()), Now()) && LargeKept(old(files), files)
      ensures Truthful(files, marker) || (marker == old(marker) && files == old(files))
      ensures outcome == Ready ==> marker.Some? && Hit(files, marker, request.overridden)
      ensures outcome == Ready ==> forall f | f in Expected(request.overridden) ::
        good[f] == old(good)[f] + (if old(Large(files, f)) then 0 else 1)
      ensures outcome != OverrideMissing && (outcome == Crashed ==> budget < 8)
      ensures outcome == DownloadFailed ==> exists f :: f in Expected(request.overridden) && BadFetch(request, f)
      ensures forall f | f !in Expected(request.overridden) :: Same(f, old(Now()), Now())
    {
      if budget == 0 { return Crashed; }
      var left: nat := budget - 1;
      marker := None;
      var expected := Expected(request.overridden);
      outcome, left := RemoveSmall(expected, left);
      if outcome != Ready { return; }
      outcome := FetchAll(expected, request, left);
    }

    /** A large file that disagrees with its marker is not fetched again: the call succeeds, keeps the
        file as it is and records its size as the right one. */
    method DisagreeingFileIsKept(size: nat, recorded: Entry)
      requires Counting(Now()) && size >= MIN_SIZE && Disagrees(size, recorded)
      requires files == map[BaseModel := size] && marker == Some(map[BaseModel := recorded])
      modifies this
      ensures !old(Hit(files, marker, true))
      ensures files == old(files) && good == old(good)
      ensures marker == Some(map[BaseModel := Entry(Some(size), Some(true))])
    {
      var request := Request(true, true, map[BaseModel := MIN_SIZE], true, 8);
      Disagreement(files, marker, size, recorded);
      hide Accounted, LargeKept;
      var outcome := Ensure(request);
      OnlyEntry(files, marker);
    }

    predicate Migrates()
      reads this
    { legacy.Some? && legacy.value >= MIN_SIZE && BaseModel !in files }

    /** Any sequence of calls, in any modes, with any downloads and crashes: each file has at most
        one good download, and once the marker is truthful or gone it stays so. */
    method Calls(requests: seq<Request>)
      requires Counting(Now())
      modifies this
      ensures Counting(Now()) && LargeKept(old(files), files)
      ensures forall f :: good[f] == old(good)[f] || (good[f] == old(good)[f] + 1 && Large(files, f))
      ensures old(Truthful(files, marker)) ==> Truthful(files, marker)
    {
      for k := 0 to |requests|
        invariant Accounted(old(Now()), Now()) && LargeKept(old(files), files)
        invariant old(Truthful(files, marker)) ==> Truthful(files, marker)
      {
        ghost var before := Now();
        var _ := Ensure(requests[k]);
        AccountedTransitive(old(Now()), before, Now());
      }
    }
  }

  lemma {:induction false} AccountedTransitive(a: Ledger, b: Ledger, c: Ledger)
    requires Accounted(a, b) && LargeKept(a.files, b.files)
    requires Accounted(b, c) && LargeKept(b.files, c.files)
    ensures Accounted(a, c) && LargeKept(a.files, c.files)
  {
    forall f ensures c.good[f] == a.good[f] || Downloaded(f, a, c) {
      assert b.good[f] == a.good[f] || Downloaded(f, a, b);
      assert c.good[f] == b.good[f] || Downloaded(f, b, c);
      assert Large(a.files, f) ==> Large(b.files, f);
      assert Large(b.files, f) ==> Large(c.files, f);
    }
    forall f | Large(a.files, f) ensures f in c.files && c.files[f] == a.files[f] {
      assert Large(b.files, f);
    }
  }
}
