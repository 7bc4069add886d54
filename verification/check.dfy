/** `check`: the append-delta detector. The filesystem is a map from path
    to contents. `check` derives the marker path, reads the stored length
    from the marker, reads the watched file past that length, and rewrites
    the marker when the length changed. */
module Detector {
  import opened Outcomes
  import opened Paths
  import opened Marker

  type FileSystem = map<Path, string>

  /** The exceptions `check` lets escape. */
  datatype CheckError =
    | MarkerNotANumber(marker: Path)   // `int()` raises `ValueError`
    | WatchedFileMissing(file: Path)   // `open()` raises `FileNotFoundError`

  /** The delta (or the error raised) and the filesystem afterwards. */
  datatype Checked = Checked(result: Result<string, CheckError>, fs: FileSystem)

  /** Text-mode `seek(offset)` then `read()`: everything from offset on, and
      nothing when offset lies at or past the end. */
  function ReadFrom(content: string, offset: nat): (r: string)
    ensures offset <= |content| ==> content == content[..offset] + r
    ensures offset >= |content| ==> r == []
  {
    if offset <= |content| then content[offset..] else []
  }

  /** The length a marker in fs records, when it exists and parses. */
  function Stored(fs: FileSystem, marker: Path): Option<nat> {
    if marker in fs then ParseLength(fs[marker]) else None
  }

  /** `check` once its marker path is known: parse the marker (if any),
      then open the watched file, then write the marker if the length
      changed. */
  function CheckMarker(fs: FileSystem, filename: Path, marker: Path): (r: Checked)
    ensures r.result.Err? ==> r.fs == fs
    ensures r.result.Ok? ==> filename in fs && r.fs.Keys == fs.Keys + {marker}
  {
    if marker in fs && ParseLength(fs[marker]).None? then
      Checked(Err(MarkerNotANumber(marker)), fs)
    else if filename !in fs then
      Checked(Err(WatchedFileMissing(filename)), fs)
    else
      var content := fs[filename];
      var oldLength := Stored(fs, marker);
      var delta := if oldLength.None? then "" else ReadFrom(content, oldLength.value);
      var newLength := if oldLength.None? then |content| else oldLength.value + |delta|;
      if oldLength != Some(newLength) then
        Checked(Ok(delta), fs[marker := FormatLength(newLength)])
      else
        Checked(Ok(delta), fs)
  }

  /** `check(filename, data_dir)`. */
  function Check(fs: FileSystem, filename: Path, dataDir: Option<Path>): (r: Checked)
    ensures r.result.Err? ==> r.fs == fs
    ensures r.result.Ok? ==> filename in fs && r.fs.Keys == fs.Keys + {MarkerPath(filename, dataDir)}
  {
    CheckMarker(fs, filename, MarkerPath(filename, dataDir))
  }

  /** Frame: `check` changes no path but its marker. */
  lemma CheckFrame(fs: FileSystem, filename: Path, marker: Path)
    ensures var r := CheckMarker(fs, filename, marker);
      forall p :: p in fs && p != marker ==> p in r.fs && r.fs[p] == fs[p]
  {
  }

  /** `check` fails exactly when the marker exists but does not hold a
      number, or the watched file is missing; the marker is examined first. */
  lemma CheckFails(fs: FileSystem, filename: Path, marker: Path)
    ensures (CheckMarker(fs, filename, marker).result == Err(MarkerNotANumber(marker)))
      <==> (marker in fs && ParseLength(fs[marker]).None?)
    ensures (CheckMarker(fs, filename, marker).result == Err(WatchedFileMissing(filename)))
      <==> (filename !in fs && (marker in fs ==> ParseLength(fs[marker]).Some?))
  {
  }

  /** First sight: with no marker yet, `check` reports nothing and records
      the file's whole current length, even when that length is 0. */
  lemma CheckFirstSight(fs: FileSystem, filename: Path, marker: Path)
    requires filename in fs
    requires marker !in fs
    ensures CheckMarker(fs, filename, marker) ==
      Checked(Ok(""), fs[marker := FormatLength(|fs[filename]|)])
    ensures Stored(CheckMarker(fs, filename, marker).fs, marker) == Some(|fs[filename]|)
  {
    ParseFormat(|fs[filename]|);
  }

  /** With a stored length L, `check` reports exactly the contents past L
      and afterwards stores the larger of L and the current length: the
      stored length never goes down, and it is rewritten only on growth. */
  lemma CheckDelta(fs: FileSystem, filename: Path, marker: Path, stored: nat)
    requires filename in fs
    requires Stored(fs, marker) == Some(stored)
    ensures var c := fs[filename];
      CheckMarker(fs, filename, marker).result == Ok(if stored <= |c| then c[stored..] else "")
    ensures var c := fs[filename];
      Stored(CheckMarker(fs, filename, marker).fs, marker) == Some(if stored <= |c| then |c| else stored)
    ensures stored < |fs[filename]| ==>
      CheckMarker(fs, filename, marker).fs[marker] == FormatLength(|fs[filename]|)
  {
    var c := fs[filename];
    var r := CheckMarker(fs, filename, marker);
    if stored < |c| {
      ParseFormat(|c|);
      assert r.fs[marker] == FormatLength(|c|);
    } else {
      assert ReadFrom(c, stored) == [];
      assert r.fs[marker] == fs[marker];
    }
  }

  /** After a successful `check` the marker holds the larger of the length
      it held before (if any) and the file's current length. */
  lemma CheckStoredLength(fs: FileSystem, filename: Path, marker: Path)
    requires CheckMarker(fs, filename, marker).result.Ok?
    ensures var n := |fs[filename]|;
      Stored(CheckMarker(fs, filename, marker).fs, marker) ==
        Some(if marker in fs && ParseLength(fs[marker]).value > n then ParseLength(fs[marker]).value else n)
  {
    if marker in fs {
      CheckDelta(fs, filename, marker, ParseLength(fs[marker]).value);
    } else {
      CheckFirstSight(fs, filename, marker);
    }
  }

  /** Write avoidance: `check` leaves the filesystem as it was exactly
      when the marker already records at least the file's length. */
  lemma CheckWritesOnlyOnChange(fs: FileSystem, filename: Path, marker: Path)
    requires CheckMarker(fs, filename, marker).result.Ok?
    ensures (CheckMarker(fs, filename, marker).fs == fs)
      <==> (marker in fs && ParseLength(fs[marker]).value >= |fs[filename]|)
  {
    var r := CheckMarker(fs, filename, marker);
    if marker !in fs {
      assert marker in r.fs;
    } else {
      var n := ParseLength(fs[marker]).value;
      if n < |fs[filename]| {
        CheckDelta(fs, filename, marker, n);
        assert Stored(r.fs, marker) != Stored(fs, marker);
      } else {
        CheckSettled(fs, filename, marker, n);
      }
    }
  }

  /** A file whose marker records at least its length is settled:
      `check` reports nothing and writes nothing. */
  lemma CheckSettled(fs: FileSystem, filename: Path, marker: Path, stored: nat)
    requires filename in fs
    requires Stored(fs, marker) == Some(stored)
    requires stored >= |fs[filename]|
    ensures CheckMarker(fs, filename, marker) == Checked(Ok(""), fs)
  {
    var r := CheckMarker(fs, filename, marker);
    assert ReadFrom(fs[filename], stored) == [];
    assert r.result == Ok("");
    assert r.fs == fs;
  }

  /** Idempotence: a second `check` with no change in between reports
      nothing and writes nothing. */
  lemma CheckIdempotent(fs: FileSystem, filename: Path, dataDir: Option<Path>)
    requires Check(fs, filename, dataDir).result.Ok?
    ensures var fs' := Check(fs, filename, dataDir).fs;
      Check(fs', filename, dataDir) == Checked(Ok(""), fs')
  {
    var marker := MarkerPath(filename, dataDir);
    var fs' := CheckMarker(fs, filename, marker).fs;
    MarkerNotWatched(filename, dataDir);
    CheckFrame(fs, filename, marker);
    CheckStoredLength(fs, filename, marker);
    CheckSettled(fs', filename, marker, Stored(fs', marker).value);
  }

  /** Appending s to a file whose marker records its length makes `check`
      report exactly s and advance the stored length by |s|, writing the
      marker only when s is non-empty. */
  lemma CheckMarkerAfterAppend(fs: FileSystem, filename: Path, marker: Path, s: string)
    requires marker != filename
    requires filename in fs
    requires Stored(fs, marker) == Some(|fs[filename]|)
    ensures var c := fs[filename];
      var grown := fs[filename := c + s];
      var after := CheckMarker(grown, filename, marker);
      && after.result == Ok(s)
      && Stored(after.fs, marker) == Some(|c| + |s|)
      && (s == [] <==> after.fs == grown)
  {
    var c := fs[filename];
    var grown := fs[filename := c + s];
    assert grown[marker] == fs[marker];
    assert Stored(grown, marker) == Some(|c|);
    CheckDelta(grown, filename, marker, |c|);
    assert (c + s)[|c|..] == s;
    CheckWritesOnlyOnChange(grown, filename, marker);
  }

  /** The same through the marker path `check` derives, which is never the
      watched file itself. */
  lemma CheckAfterAppend(fs: FileSystem, filename: Path, dataDir: Option<Path>, s: string)
    requires filename in fs
    requires Stored(fs, MarkerPath(filename, dataDir)) == Some(|fs[filename]|)
    ensures var c := fs[filename];
      var grown := fs[filename := c + s];
      var after := Check(grown, filename, dataDir);
      && after.result == Ok(s)
      && Stored(after.fs, MarkerPath(filename, dataDir)) == Some(|c| + |s|)
      && (s == [] <==> after.fs == grown)
  {
    MarkerNotWatched(filename, dataDir);
    CheckMarkerAfterAppend(fs, filename, MarkerPath(filename, dataDir), s);
  }
}
