/** The repository's own test scenarios for `check`, stated for every
    file name of the shape its tests generate (no slash, no leading dot).
    `NewFileScenario` holds for every starting filesystem with no marker
    for the file yet; `AppendScenario` for every starting filesystem. */
module Scenarios {
  import opened Outcomes
  import opened Paths
  import opened Marker
  import opened Detector

  /** A new file holding "foobar": `check` reports nothing and the marker
      holds "6" and a newline. */
  lemma NewFileScenario(fs: FileSystem, name: Path, file: Path, marker: Path)
    requires name != [] && SlashFree(name) && name[0] != '.'
    requires file == "/tmp/" + name + ".test"
    requires marker == "/tmp/." + name + ".test.babycam"
    requires marker !in fs
    ensures var r := Check(fs[file := "foobar"], file, None);
      r.result == Ok("") && marker in r.fs && r.fs[marker] == "6\n"
  {
    TmpMarker(name);
    MarkerNotWatched(file, None);
    CheckFirstSight(fs[file := "foobar"], file, marker);
    FormatExamples();
  }

  /** A file holding "foobar\n" with a marker holding "7\n": `check`
      reports nothing and writes nothing; after "buzz" is appended it
      reports exactly "buzz" and the marker holds "11" and a newline. */
  lemma AppendScenario(fs: FileSystem, name: Path, file: Path, marker: Path)
    requires name != [] && SlashFree(name) && name[0] != '.'
    requires file == "/tmp/" + name + ".test"
    requires marker == "/tmp/." + name + ".test.babycam"
    ensures var start := fs[file := "foobar\n"][marker := "7\n"];
      var first := Check(start, file, None);
      var second := Check(first.fs[file := "foobar\nbuzz"], file, None);
      && first == Checked(Ok(""), start)
      && second.result == Ok("buzz")
      && marker in second.fs && second.fs[marker] == "11\n"
  {
    var start := fs[file := "foobar\n"][marker := "7\n"];
    var grown := start[file := "foobar\nbuzz"];
    TmpMarker(name);
    MarkerNotWatched(file, None);
    FormatExamples();
    ParseFormat(7);
    assert start[file] == "foobar\n" && Stored(start, marker) == Some(7);
    CheckSettled(start, file, marker, 7);
    assert grown[file] == "foobar\nbuzz" && Stored(grown, marker) == Some(7);
    CheckDelta(grown, file, marker, 7);
    assert "foobar\nbuzz"[7..] == "buzz";
  }
}
