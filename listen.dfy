/**
 A model of `listen`, a polling filesystem listener: it counts the non-directory
 entries of one directory (depth 1), keeps re-counting until the count differs
 from the first one, and then calls a callback once.

 The filesystem is abstracted away. A directory listing, as the walker yields
 it, is a sequence of `Entry` values; the sequence of listings the poll loop
 would observe is given as a sequence of listings.
 */
module Listen {

  datatype Option<T> = None | Some(value: T)

  /** The events a listener can be configured for. */
  datatype Event = OnFileChange | OnFileAdd | OnFileRemove

  /** One item produced by the depth-1 directory walk.
      `Ok(isDir, path)`: a listed entry; `isDir` is what the directory test answered
      for it (false also when the entry vanished after being listed), and `path` is
      its path as a string, `None` when the path is not valid UTF-8.
      `Err`: the walker reported an error for this item. */
  datatype Entry = Ok(isDir: bool, path: Option<string>) | Err

  /** What a call to `listen` ends in. `Fired`: a change was seen and the callback
      was invoked. `StillWaiting`: the supplied polls ran out without a change (the
      real loop would go on spinning). `Unimplemented`: the listener panicked. */
  datatype Outcome = Fired | StillWaiting | Unimplemented

  /** An entry the scan counts: listed without error and not a directory. */
  predicate IsCounted(e: Entry) {
    e.Ok? && !e.isDir
  }

  /** The number of counted entries in a listing. */
  function FileCount(listing: seq<Entry>): (n: nat)
    ensures n <= |listing|
  {
    if listing == [] then 0
    else
      var last := listing[|listing| - 1];
      FileCount(listing[..|listing| - 1]) + (if IsCounted(last) then 1 else 0)
  }

  /** The path strings a storing scan records: the counted entries whose path
      converts to a string, in listing order. */
  function StoredPaths(listing: seq<Entry>): (paths: seq<string>)
    ensures |paths| <= FileCount(listing)
  {
    if listing == [] then []
    else
      var last := listing[|listing| - 1];
      StoredPaths(listing[..|listing| - 1])
        + (if IsCounted(last) && last.path.Some? then [last.path.value] else [])
  }

  /** The paths recorded by storing scans of several listings, one after another. */
  function PollPaths(scans: seq<seq<Entry>>): seq<string> {
    if scans == [] then []
    else PollPaths(scans[..|scans| - 1]) + StoredPaths(scans[|scans| - 1])
  }

  /** The index of the first poll whose count differs from `baseline`, if any. */
  function FirstChange(baseline: int, polls: seq<seq<Entry>>): (r: Option<nat>)
    ensures r.Some? ==>
              && r.value < |polls|
              && FileCount(polls[r.value]) != baseline
              && forall i :: 0 <= i < r.value ==> FileCount(polls[i]) == baseline
    ensures r.None? ==> forall i :: 0 <= i < |polls| ==> FileCount(polls[i]) == baseline
  {
    if polls == [] then None
    else if FileCount(polls[0]) != baseline then Some(0)
    else
      match FirstChange(baseline, polls[1..])
      case None => None
      case Some(k) => Some(k + 1)
  }

  /** The polls the change detector scans: up to and including the first changed
      one, or all of them when none changed. */
  function ScannedPolls(baseline: int, polls: seq<seq<Entry>>): seq<seq<Entry>> {
    match FirstChange(baseline, polls)
    case Some(k) => polls[..k + 1]
    case None => polls
  }

  /** Scanning one more poll appends that poll's recorded paths. */
  lemma PollPathsStep(polls: seq<seq<Entry>>, i: nat)
    requires i < |polls|
    ensures PollPaths(polls[..i + 1]) == PollPaths(polls[..i]) + StoredPaths(polls[i])
  {
    assert polls[..i + 1][..i] == polls[..i];
  }

  /** Looking at one more poll, while no change has been seen yet, finds a change
      exactly when that poll's count differs. */
  lemma FirstChangeStep(baseline: int, polls: seq<seq<Entry>>, i: nat)
    requires i < |polls| && FirstChange(baseline, polls[..i]) == None
    ensures FirstChange(baseline, polls[..i + 1])
              == if FileCount(polls[i]) != baseline then Some(i) else None
  {
  }

  /** Once a change is found among the first polls, later polls do not matter. */
  lemma FirstChangeExtends(baseline: int, polls: seq<seq<Entry>>, k: nat)
    requires k <= |polls| && FirstChange(baseline, polls[..k]).Some?
    ensures FirstChange(baseline, polls) == FirstChange(baseline, polls[..k])
    ensures ScannedPolls(baseline, polls) == polls[..FirstChange(baseline, polls[..k]).value + 1]
  {
  }

  /** When the poll loop stops after `scanned` polls, either because it saw a
      change or because the polls ran out, it has scanned exactly `ScannedPolls`. */
  lemma DetectorStopsAtFirstChange(baseline: int, polls: seq<seq<Entry>>, scanned: nat, changed: bool)
    requires scanned <= |polls| && (changed || scanned == |polls|)
    requires FirstChange(baseline, polls[..scanned]) == if changed then Some(scanned - 1) else None
    ensures changed == FirstChange(baseline, polls).Some?
    ensures ScannedPolls(baseline, polls) == polls[..scanned]
  {
    if changed {
      FirstChangeExtends(baseline, polls, scanned);
    } else {
      assert polls[..scanned] == polls;
    }
  }

  /** The first poll whose count differs is the one `FirstChange` names. */
  lemma FirstChangeAt(baseline: int, polls: seq<seq<Entry>>, k: nat)
    requires k < |polls| && FileCount(polls[k]) != baseline
    requires forall i :: 0 <= i < k ==> FileCount(polls[i]) == baseline
    ensures FirstChange(baseline, polls) == Some(k)
    ensures ScannedPolls(baseline, polls) == polls[..k + 1]
  {
  }

  /** The detector sees no change exactly when every poll counts as many files as
      the baseline: a watch whose count never moves never fires. */
  lemma NoChangeIffSteadyCount(baseline: int, polls: seq<seq<Entry>>)
    ensures FirstChange(baseline, polls) == None <==>
              forall i :: 0 <= i < |polls| ==> FileCount(polls[i]) == baseline
  {
  }

  // ----- Properties of the counting scan -----

  lemma {:induction false} FileCountAppend(a: seq<Entry>, b: seq<Entry>)
    ensures FileCount(a + b) == FileCount(a) + FileCount(b)
    decreases |b|
  {
    if b != [] {
      var ab := a + b;
      assert ab[..|ab| - 1] == a + b[..|b| - 1];
      assert ab[|ab| - 1] == b[|b| - 1];
      FileCountAppend(a, b[..|b| - 1]);
    } else {
      assert a + b == a;
    }
  }

  lemma {:induction false} StoredPathsAppend(a: seq<Entry>, b: seq<Entry>)
    ensures StoredPaths(a + b) == StoredPaths(a) + StoredPaths(b)
    decreases |b|
  {
    if b != [] {
      var ab := a + b;
      assert ab[..|ab| - 1] == a + b[..|b| - 1];
      assert ab[|ab| - 1] == b[|b| - 1];
      StoredPathsAppend(a, b[..|b| - 1]);
    } else {
      assert a + b == a;
    }
  }

  /** The count is exactly the number of positions holding a non-directory `Ok` entry. */
  lemma {:induction false} FileCountIsCountedPositions(listing: seq<Entry>)
    ensures FileCount(listing) == |set i | 0 <= i < |listing| && IsCounted(listing[i])|
  {
    if listing != [] {
      var n := |listing| - 1;
      var front := listing[..n];
      FileCountIsCountedPositions(front);
      var before := set i | 0 <= i < n && IsCounted(front[i]);
      var all := set i | 0 <= i < |listing| && IsCounted(listing[i]);
      if IsCounted(listing[n]) {
        assert all == before + {n};
      } else {
        assert all == before;
      }
    }
  }

  /** A directory entry or a walker error changes neither the count nor the
      recorded paths, wherever it occurs in the listing. */
  lemma {:induction false} UncountedEntryIgnored(a: seq<Entry>, e: Entry, b: seq<Entry>)
    requires !IsCounted(e)
    ensures FileCount(a + [e] + b) == FileCount(a + b)
    ensures StoredPaths(a + [e] + b) == StoredPaths(a + b)
  {
    FileCountAppend(a + [e], b);
    FileCountAppend(a, [e]);
    FileCountAppend(a, b);
    StoredPathsAppend(a + [e], b);
    StoredPathsAppend(a, [e]);
    StoredPathsAppend(a, b);
    assert [e][..0] == [];
  }

  /** A string is recorded exactly when some non-directory `Ok` entry carries it. */
  lemma {:induction false} StoredPathsMembership(listing: seq<Entry>, s: string)
    ensures s in StoredPaths(listing) <==>
              exists i :: 0 <= i < |listing| && listing[i] == Ok(false, Some(s))
  {
    if listing != [] {
      var n := |listing| - 1;
      StoredPathsMembership(listing[..n], s);
      if s in StoredPaths(listing[..n]) {
        var i :| 0 <= i < n && listing[..n][i] == Ok(false, Some(s));
        assert listing[i] == Ok(false, Some(s));
      }
      if exists i :: 0 <= i < |listing| && listing[i] == Ok(false, Some(s)) {
        var i :| 0 <= i < |listing| && listing[i] == Ok(false, Some(s));
        if i < n {
          assert listing[..n][i] == Ok(false, Some(s));
        }
      }
    }
  }

  /** When every counted entry's path converts to a string, a storing scan
      records exactly as many paths as it counts. */
  lemma {:induction false} StoredPathsMatchCount(listing: seq<Entry>)
    requires forall i :: 0 <= i < |listing| && IsCounted(listing[i]) ==> listing[i].path.Some?
    ensures |StoredPaths(listing)| == FileCount(listing)
  {
    if listing != [] {
      var n := |listing| - 1;
      assert forall i :: 0 <= i < n ==> listing[..n][i] == listing[i];
      StoredPathsMatchCount(listing[..n]);
    }
  }

  // ----- Properties of the change detector -----

  /** Adding one file to the directory, wherever the walk yields it, is seen by
      the next poll. */
  lemma AddedFileDetected(a: seq<Entry>, file: Entry, b: seq<Entry>)
    requires IsCounted(file)
    ensures FirstChange(FileCount(a + b), [a + [file] + b]) == Some(0)
  {
    FileCountAppend(a + [file], b);
    FileCountAppend(a, [file]);
    FileCountAppend(a, b);
    assert [file][..0] == [];
  }

  /** Removing one file from the directory is seen by the next poll. */
  lemma RemovedFileDetected(a: seq<Entry>, file: Entry, b: seq<Entry>)
    requires IsCounted(file)
    ensures FirstChange(FileCount(a + [file] + b), [a + b]) == Some(0)
  {
    FileCountAppend(a + [file], b);
    FileCountAppend(a, [file]);
    FileCountAppend(a, b);
    assert [file][..0] == [];
  }

  /** Removing one file and adding another between polls, each at any position of
      the walk, leaves the count unchanged, so however many polls observe the new
      directory, no change is detected. */
  lemma SwappedFileUndetected(a: seq<Entry>, removed: Entry, b: seq<Entry>,
                              c: seq<Entry>, added: Entry, d: seq<Entry>, rounds: nat)
    requires IsCounted(removed) && IsCounted(added) && a + b == c + d
    ensures FirstChange(FileCount(a + [removed] + b), seq(rounds, _ => c + [added] + d)) == None
  {
    FileCountAppend(a + [removed], b);
    FileCountAppend(a, [removed]);
    FileCountAppend(a, b);
    FileCountAppend(c + [added], d);
    FileCountAppend(c, [added]);
    FileCountAppend(c, d);
    assert [removed][..0] == [] && [added][..0] == [];
  }

  /** With storage on, the baseline and every scanned poll append their paths:
      a directory holding a and b, into which c is added, leaves five paths. */
  lemma StoredPathsAccumulate(root: Entry, a: string, b: string, c: string)
    requires root.Ok? && root.isDir
    ensures var initial := [root, Ok(false, Some(a)), Ok(false, Some(b))];
            var polls := [initial, initial + [Ok(false, Some(c))]];
            StoredPaths(initial) + PollPaths(ScannedPolls(FileCount(initial), polls))
              == [a, b, a, b, a, b, c]
  {
    var fileA, fileB := Ok(false, Some(a)), Ok(false, Some(b));
    var initial := [root, fileA, fileB];
    var changed := initial + [Ok(false, Some(c))];
    var polls := [initial, changed];
    assert initial[..2] == [root, fileA] && [root, fileA][..1] == [root] && [root][..0] == [];
    assert changed[..3] == initial;
    assert FileCount([root]) == 0 && FileCount([root, fileA]) == 1;
    assert StoredPaths(initial) == [a, b] && FileCount(initial) == 2;
    assert StoredPaths(changed) == [a, b, c] && FileCount(changed) == 3;
    FirstChangeAt(2, polls, 1);
    assert polls[..2] == polls && polls[..1] == [initial] && [initial][..0] == [];
    assert PollPaths([initial]) == [a, b];
    assert PollPaths(polls) == [a, b, a, b, c];
  }

  /** A listener. `files` grows as storing scans record paths. */
  class Listener {
    var event: Event
    var storeFiles: bool
    var files: seq<string>

    /** `Listener::new()`, which is `Listener::default()`. */
    constructor ()
      ensures event == OnFileChange && !storeFiles && files == []
    {
      event := OnFileChange;
      storeFiles := false;
      files := [];
    }

    /** A listener built field by field, as a struct literal inside the crate would. */
    constructor Make(event: Event, storeFiles: bool, files: seq<string>)
      ensures this.event == event && this.storeFiles == storeFiles && this.files == files
    {
      this.event := event;
      this.storeFiles := storeFiles;
      this.files := files;
    }

    /** One depth-1 scan: counts the non-directory entries and, when storing,
        appends the path strings of those entries to `files`. */
    method CountDirectoryFiles(listing: seq<Entry>) returns (count: nat)
      modifies this`files
      ensures count == FileCount(listing)
      ensures storeFiles ==> files == old(files) + StoredPaths(listing)
      ensures !storeFiles ==> files == old(files)
    {
      count := 0;
      var i := 0;
      while i < |listing|
        invariant 0 <= i <= |listing|
        invariant count == FileCount(listing[..i])
        invariant storeFiles ==> files == old(files) + StoredPaths(listing[..i])
        invariant !storeFiles ==> files == old(files)
      {
        assert listing[..i + 1][..i] == listing[..i];
        match listing[i] {
          case Ok(isDir, path) =>
            if !isDir {
              count := count + 1;
              if storeFiles {
                match path {
                  case Some(file) =>
                    files := files + [file];
                  case None =>
                }
              }
            }
          case Err =>
        }
        i := i + 1;
      }
      assert listing[..i] == listing;
    }

    /** The change detector: one baseline scan, then a scan per poll until a
        count differs from the baseline. Returns true exactly when it saw one. */
    method FileChangeListener(initial: seq<Entry>, polls: seq<seq<Entry>>) returns (changed: bool)
      modifies this`files
      ensures changed == FirstChange(FileCount(initial), polls).Some?
      ensures storeFiles ==>
                files == old(files) + StoredPaths(initial) + PollPaths(ScannedPolls(FileCount(initial), polls))
      ensures !storeFiles ==> files == old(files)
    {
      changed := false;
      var initialCount := CountDirectoryFiles(initial);
      ghost var baselineFiles := files;
      var i := 0;
      while !changed && i < |polls|
        invariant 0 <= i <= |polls|
        invariant FirstChange(initialCount, polls[..i]) == if changed then Some(i - 1) else None
        invariant storeFiles ==> files == baselineFiles + PollPaths(polls[..i])
        invariant !storeFiles ==> files == baselineFiles
      {
        PollPathsStep(polls, i);
        FirstChangeStep(initialCount, polls, i);
        var count := CountDirectoryFiles(polls[i]);
        if count == initialCount {
        } else {
          changed := true;
        }
        i := i + 1;
      }
      DetectorStopsAtFirstChange(initialCount, polls, i, changed);
    }

    /** `Listener::listen`: dispatch on the configured event. For a change event
        the callback runs once, after a detected change; add and remove events
        panic before any scan. `calls` logs the arguments the callback received. */
    method Listen<T>(initial: seq<Entry>, polls: seq<seq<Entry>>, arg: T)
      returns (outcome: Outcome, ghost calls: seq<T>)
      modifies this`files
      ensures event == OnFileChange ==>
                outcome == (if FirstChange(FileCount(initial), polls).Some? then Fired else StillWaiting)
      ensures event == OnFileChange ==>
                files == old(files) + (if storeFiles
                                       then StoredPaths(initial)
                                            + PollPaths(ScannedPolls(FileCount(initial), polls))
                                       else [])
      ensures event != OnFileChange ==> outcome == Unimplemented && files == old(files)
      ensures calls == if outcome == Fired then [arg] else []
    {
      calls := [];
      match event
      case OnFileChange =>
        var changed := FileChangeListener(initial, polls);
        if changed {
          calls := calls + [arg];
          outcome := Fired;
        } else {
          outcome := StillWaiting;
        }
      case OnFileAdd =>
        outcome := Unimplemented;
      case OnFileRemove =>
        outcome := Unimplemented;
    }
  }

  /** `internal_listener`: a fresh default listener listens; the event is unused. */
  method InternalListener<T>(event: Event, initial: seq<Entry>, polls: seq<seq<Entry>>, arg: T)
    returns (outcome: Outcome, ghost calls: seq<T>)
    ensures outcome == (if FirstChange(FileCount(initial), polls).Some? then Fired else StillWaiting)
    ensures calls == if outcome == Fired then [arg] else []
  {
    var listener := new Listener();
    outcome, calls := listener.Listen(initial, polls, arg);
  }

  /** The public `listen`: whatever event it is given, it behaves as a change listener. */
  method Listen<T>(event: Event, initial: seq<Entry>, polls: seq<seq<Entry>>, arg: T)
    returns (outcome: Outcome, ghost calls: seq<T>)
    ensures outcome != Unimplemented
    ensures outcome == Fired <==> FirstChange(FileCount(initial), polls).Some?
    ensures calls == if outcome == Fired then [arg] else []
  {
    outcome, calls := InternalListener(event, initial, polls, arg);
  }
}
