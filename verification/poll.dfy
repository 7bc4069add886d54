/** One tick of the poll loop in `main`: every watched file is checked in
    the configured order, the filesystem is threaded from one `check` to
    the next, and each non-empty delta becomes a notification. Sending is
    left to the caller; the first error ends the tick, as the uncaught
    exception ends the loop. */
module Poll {
  import opened Outcomes
  import opened Paths
  import opened Marker
  import opened Detector

  /** A notification handed to the mailer: the changed file and its delta. */
  datatype Notification = Notification(file: Path, changes: string)

  /** What one tick leaves behind: the notifications handed over, in order,
      the error that stopped it, if any, and the filesystem afterwards. */
  datatype Tick = Tick(sent: seq<Notification>, failure: Option<CheckError>, fs: FileSystem)

  function PollOnce(fs: FileSystem, files: seq<Path>, dataDir: Option<Path>): (t: Tick)
    ensures |t.sent| <= |files|
    ensures fs.Keys <= t.fs.Keys
    decreases |files|
  {
    if files == [] then Tick([], None, fs)
    else
      var c := Check(fs, files[0], dataDir);
      if c.result.Err? then Tick([], Some(c.result.error), c.fs)
      else
        var delta := c.result.value;
        var rest := PollOnce(c.fs, files[1..], dataDir);
        var here := if delta != [] then [Notification(files[0], delta)] else [];
        Tick(here + rest.sent, rest.failure, rest.fs)
  }

  /** The markers a tick over files may write. */
  function Markers(files: seq<Path>, dataDir: Option<Path>): set<Path>
    decreases |files|
  {
    if files == [] then {} else {MarkerPath(files[0], dataDir)} + Markers(files[1..], dataDir)
  }

  /** A tick over a single file notifies exactly when `check` reports a
      non-empty delta. */
  lemma PollSingle(fs: FileSystem, file: Path, dataDir: Option<Path>)
    ensures var c := Check(fs, file, dataDir);
      var t := PollOnce(fs, [file], dataDir);
      && t.fs == c.fs
      && (c.result.Ok? ==> t.failure.None? && t.sent == (if c.result.value != [] then [Notification(file, c.result.value)] else []))
      && (c.result.Err? ==> t.failure == Some(c.result.error) && t.sent == [])
  {
    var c := Check(fs, file, dataDir);
    if c.result.Ok? {
      assert [file][1..] == [];
    }
  }

  /** Every notification carries a non-empty delta of one of files. */
  predicate OnlyChanges(sent: seq<Notification>, files: seq<Path>) {
    forall i :: 0 <= i < |sent| ==> sent[i].changes != [] && sent[i].file in files
  }

  /** A tick's notifications are those of its first file followed by
      those of the rest. */
  lemma OnlyChangesCons(n: seq<Notification>, rest: seq<Notification>, files: seq<Path>)
    requires files != []
    requires |n| <= 1 && (n != [] ==> n[0].changes != [] && n[0].file == files[0])
    requires OnlyChanges(rest, files[1..])
    ensures OnlyChanges(n + rest, files)
  {
    forall i | 0 <= i < |n + rest|
      ensures (n + rest)[i].changes != [] && (n + rest)[i].file in files
    {
      if i >= |n| {
        assert (n + rest)[i] == rest[i - |n|];
        var k :| 0 <= k < |files[1..]| && files[1..][k] == rest[i - |n|].file;
        assert files[k + 1] == rest[i - |n|].file;
      }
    }
  }

  /** Every notification of a tick carries a non-empty delta of one of
      the watched files. */
  lemma {:induction false} PollSendsOnlyChanges(fs: FileSystem, files: seq<Path>, dataDir: Option<Path>)
    ensures OnlyChanges(PollOnce(fs, files, dataDir).sent, files)
    decreases |files|
  {
    var sent := PollOnce(fs, files, dataDir).sent;
    if files == [] {
      assert sent == [];
    } else {
      var c := Check(fs, files[0], dataDir);
      if c.result.Err? {
        assert sent == [];
      } else {
        var delta := c.result.value;
        var here := if delta != [] then [Notification(files[0], delta)] else [];
        var rest := PollOnce(c.fs, files[1..], dataDir).sent;
        assert sent == here + rest;
        PollSendsOnlyChanges(c.fs, files[1..], dataDir);
        OnlyChangesCons(here, rest, files);
      }
    }
  }

  /** The head and the rest of a concatenation whose left part is non-empty. */
  lemma SplitFirst<T>(a: seq<T>, b: seq<T>)
    requires a != []
    ensures (a + b)[0] == a[0] && (a + b)[1..] == a[1..] + b
  {
  }

  /** Concatenation regroups freely. */
  lemma Associative<T>(x: seq<T>, y: seq<T>, z: seq<T>)
    ensures x + (y + z) == (x + y) + z
  {
  }

  /** Ticks compose: a tick over a ++ b is a tick over a followed, if it
      succeeded, by a tick over b from where it left the filesystem. */
  predicate Composes(fs: FileSystem, a: seq<Path>, b: seq<Path>, dataDir: Option<Path>) {
    var ta := PollOnce(fs, a, dataDir);
    var tb := PollOnce(ta.fs, b, dataDir);
    PollOnce(fs, a + b, dataDir) ==
      if ta.failure.Some? then ta else Tick(ta.sent + tb.sent, tb.failure, tb.fs)
  }

  /** The inductive step of `PollAppend`: when the first file of a checks
      cleanly, composition from fs follows from composition after it. */
  lemma ComposesStep(fs: FileSystem, a: seq<Path>, b: seq<Path>, dataDir: Option<Path>)
    requires a != []
    requires Check(fs, a[0], dataDir).result.Ok?
    requires Composes(Check(fs, a[0], dataDir).fs, a[1..], b, dataDir)
    ensures Composes(fs, a, b, dataDir)
  {
    var c := Check(fs, a[0], dataDir);
    SplitFirst(a, b);
    var here := if c.result.value != [] then [Notification(a[0], c.result.value)] else [];
    var ta' := PollOnce(c.fs, a[1..], dataDir);
    var tb := PollOnce(ta'.fs, b, dataDir);
    if ta'.failure.None? {
      Associative(here, ta'.sent, tb.sent);
    }
  }

  /** `Composes` holds for every filesystem and every split of the files. */
  lemma {:induction false} PollAppend(fs: FileSystem, a: seq<Path>, b: seq<Path>, dataDir: Option<Path>)
    ensures Composes(fs, a, b, dataDir)
    decreases |a|
  {
    if a == [] {
      assert a + b == b;
      assert PollOnce(fs, a, dataDir).sent + PollOnce(fs, b, dataDir).sent == PollOnce(fs, b, dataDir).sent;
    } else {
      var c := Check(fs, a[0], dataDir);
      SplitFirst(a, b);
      if c.result.Ok? {
        PollAppend(c.fs, a[1..], b, dataDir);
        ComposesStep(fs, a, b, dataDir);
      }
    }
  }

  /** Frame: a tick changes nothing but the markers of the files it is
      given, including any after a failure that it never reached. */
  lemma {:induction false} PollFrame(fs: FileSystem, files: seq<Path>, dataDir: Option<Path>)
    ensures var t := PollOnce(fs, files, dataDir);
      && fs.Keys <= t.fs.Keys <= fs.Keys + Markers(files, dataDir)
      && forall p :: p in fs && p !in Markers(files, dataDir) ==> t.fs[p] == fs[p]
    decreases |files|
  {
    if files != [] {
      var c := Check(fs, files[0], dataDir);
      var m := MarkerPath(files[0], dataDir);
      assert m in Markers(files, dataDir);
      CheckFrame(fs, files[0], m);
      if c.result.Ok? {
        PollFrame(c.fs, files[1..], dataDir);
      }
    }
  }

  /** A watched file is settled when its marker exists and records at least
      the file's length. */
  predicate Settled(fs: FileSystem, file: Path, dataDir: Option<Path>) {
    && file in fs
    && Stored(fs, MarkerPath(file, dataDir)).Some?
    && Stored(fs, MarkerPath(file, dataDir)).value >= |fs[file]|
  }

  /** No watched file is the marker of a watched file. */
  predicate MarkersApart(files: seq<Path>, dataDir: Option<Path>) {
    forall i, j :: 0 <= i < |files| && 0 <= j < |files| ==> MarkerPath(files[i], dataDir) != files[j]
  }

  /** After a successful `check`, the file is settled. */
  lemma CheckSettles(fs: FileSystem, file: Path, dataDir: Option<Path>)
    requires Check(fs, file, dataDir).result.Ok?
    ensures Settled(Check(fs, file, dataDir).fs, file, dataDir)
  {
    var m := MarkerPath(file, dataDir);
    MarkerNotWatched(file, dataDir);
    CheckFrame(fs, file, m);
    CheckStoredLength(fs, file, m);
  }

  /** Checking another file keeps a settled file settled, as long as that
      other file's marker is not the settled file itself: a shared marker
      only ever grows. */
  lemma CheckKeepsSettled(fs: FileSystem, file: Path, other: Path, dataDir: Option<Path>)
    requires Settled(fs, file, dataDir)
    requires MarkerPath(other, dataDir) != file
    ensures Settled(Check(fs, other, dataDir).fs, file, dataDir)
  {
    var m := MarkerPath(file, dataDir);
    var mo := MarkerPath(other, dataDir);
    var c := CheckMarker(fs, other, mo);
    if c.result.Ok? {
      CheckFrame(fs, other, mo);
      assert c.fs[file] == fs[file];
      if mo == m {
        CheckStoredLength(fs, other, mo);
      } else {
        assert c.fs[m] == fs[m];
      }
    }
  }

  /** A tick keeps a settled file settled when no checked file's marker is
      that file. */
  lemma {:induction false} PollKeepsSettled(fs: FileSystem, files: seq<Path>, file: Path, dataDir: Option<Path>)
    requires Settled(fs, file, dataDir)
    requires forall i :: 0 <= i < |files| ==> MarkerPath(files[i], dataDir) != file
    ensures Settled(PollOnce(fs, files, dataDir).fs, file, dataDir)
    decreases |files|
  {
    if files != [] {
      var c := Check(fs, files[0], dataDir);
      CheckKeepsSettled(fs, file, files[0], dataDir);
      if c.result.Ok? {
        PollKeepsSettled(c.fs, files[1..], file, dataDir);
      }
    }
  }

  /** Dropping the first watched file keeps markers apart, and no later
      file's marker is the first file. */
  lemma ApartTail(files: seq<Path>, dataDir: Option<Path>)
    requires files != []
    requires MarkersApart(files, dataDir)
    ensures MarkersApart(files[1..], dataDir)
    ensures forall i :: 0 <= i < |files[1..]| ==> MarkerPath(files[1..][i], dataDir) != files[0]
  {
    var rest := files[1..];
    forall i, j | 0 <= i < |rest| && 0 <= j < |rest|
      ensures MarkerPath(rest[i], dataDir) != rest[j]
    {
      assert rest[i] == files[i + 1] && rest[j] == files[j + 1];
    }
    forall i | 0 <= i < |rest|
      ensures MarkerPath(rest[i], dataDir) != files[0]
    {
      assert rest[i] == files[i + 1];
    }
  }

  /** After a tick that ran to the end, every watched file is settled. */
  lemma {:induction false} PollSettles(fs: FileSystem, files: seq<Path>, dataDir: Option<Path>)
    requires MarkersApart(files, dataDir)
    requires PollOnce(fs, files, dataDir).failure.None?
    ensures forall i :: 0 <= i < |files| ==> Settled(PollOnce(fs, files, dataDir).fs, files[i], dataDir)
    decreases |files|
  {
    if files != [] {
      var c := Check(fs, files[0], dataDir);
      var rest := files[1..];
      ApartTail(files, dataDir);
      PollSettles(c.fs, rest, dataDir);
      CheckSettles(fs, files[0], dataDir);
      PollKeepsSettled(c.fs, rest, files[0], dataDir);
      forall i | 0 <= i < |files|
        ensures Settled(PollOnce(fs, files, dataDir).fs, files[i], dataDir)
      {
        if i > 0 {
          assert files[i] == rest[i - 1];
        }
      }
    }
  }

  /** A tick over settled files reports nothing and writes nothing. */
  lemma {:induction false} PollQuiet(fs: FileSystem, files: seq<Path>, dataDir: Option<Path>)
    requires forall i :: 0 <= i < |files| ==> Settled(fs, files[i], dataDir)
    ensures PollOnce(fs, files, dataDir) == Tick([], None, fs)
    decreases |files|
  {
    if files != [] {
      var f := files[0];
      CheckSettled(fs, f, MarkerPath(f, dataDir), Stored(fs, MarkerPath(f, dataDir)).value);
      assert forall i :: 0 <= i < |files[1..]| ==> Settled(fs, files[1..][i], dataDir) by {
        forall i | 0 <= i < |files[1..]|
          ensures Settled(fs, files[1..][i], dataDir)
        {
          assert files[1..][i] == files[i + 1];
        }
      }
      PollQuiet(fs, files[1..], dataDir);
    }
  }

  /** Idempotence of a tick: when no watched file is another's marker, a
      second tick with no change in between sends nothing and writes
      nothing, even when several files share one marker. */
  lemma PollIdempotent(fs: FileSystem, files: seq<Path>, dataDir: Option<Path>)
    requires MarkersApart(files, dataDir)
    requires PollOnce(fs, files, dataDir).failure.None?
    ensures var fs' := PollOnce(fs, files, dataDir).fs;
      PollOnce(fs', files, dataDir) == Tick([], None, fs')
  {
    PollSettles(fs, files, dataDir);
    PollQuiet(PollOnce(fs, files, dataDir).fs, files, dataDir);
  }
}
