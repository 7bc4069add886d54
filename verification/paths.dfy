/** POSIX path arithmetic (`os.path.split`, `os.path.join`) and the
    sidecar marker path babycam derives from a watched file. */
module Paths {
  import opened Outcomes
  import opened Text

  type Path = string

  /** The extension every marker file name ends with. */
  const MarkerSuffix: string := ".babycam"

  predicate SlashFree(s: string) {
    forall i :: 0 <= i < |s| ==> s[i] != '/'
  }

  /** Index just after the last '/' of p, or 0 when p has none: where the
      final component of p begins. */
  function TailStart(p: Path): (i: nat)
    ensures i <= |p|
    ensures i > 0 ==> p[i - 1] == '/'
    ensures SlashFree(p[i..])
  {
    if p == [] then 0
    else if p[|p| - 1] == '/' then |p|
    else TailStart(p[..|p| - 1])
  }

  /** The directory `os.path.split` reports for a raw directory prefix:
      trailing slashes removed, unless the prefix is nothing but slashes. */
  function HeadOf(d: Path): (h: Path)
    ensures h == [] || AllIn(h, {'/'}) || h[|h| - 1] != '/'
    ensures h <= d
  {
    if d == [] || AllIn(d, {'/'}) then d else RStrip(d, {'/'})
  }

  /** `os.path.split(p)`: the pair (head, tail) where tail is everything
      after the last slash. */
  function Split(p: Path): (r: (Path, Path))
    ensures SlashFree(r.1)
    ensures r.0 == [] || AllIn(r.0, {'/'}) || r.0[|r.0| - 1] != '/'
  {
    var i := TailStart(p);
    (HeadOf(p[..i]), p[i..])
  }

  /** `os.path.join(a, b)`: b alone when it is absolute, otherwise b
      appended to a with one separating slash unless a is empty or already
      ends with one. */
  function Join(a: Path, b: Path): (r: Path)
    ensures |b| <= |r| && r[|r| - |b|..] == b
    ensures b != [] && b[0] == '/' ==> r == b
    ensures (b == [] || b[0] != '/') ==> a <= r && |r| <= |a| + 1 + |b|
  {
    if b != [] && b[0] == '/' then b
    else if a == [] || a[|a| - 1] == '/' then a + b
    else a + "/" + b
  }

  /** `HeadOf` removes only trailing slashes, and keeps a directory that is
      nothing but slashes whole. */
  lemma HeadOfPinned(d: Path)
    ensures AllIn(d[|HeadOf(d)|..], {'/'})
    ensures AllIn(d, {'/'}) ==> HeadOf(d) == d
  {
  }

  /** A relative name is joined to a directory with nothing but slashes
      between them, and with none exactly when the directory is empty or
      already ends with one. */
  lemma JoinParts(a: Path, b: Path)
    requires b == [] || b[0] != '/'
    ensures var r := Join(a, b);
      && |r| >= |a| + |b|
      && a <= r && r[|r| - |b|..] == b
      && AllIn(r[|a|..|r| - |b|], {'/'})
      && (|r| == |a| + |b| <==> a == [] || a[|a| - 1] == '/')
  {
  }

  /** The marker's file name: a dot, the watched name with every leading
      dot removed, then the suffix. */
  function MarkerName(tail: Path): Path
  {
    "." + LStrip(tail, {'.'}) + MarkerSuffix
  }

  /** Where `check` keeps the stored length of `filename`: in `dataDir`
      when one is configured, otherwise beside the watched file. */
  function MarkerPath(filename: Path, dataDir: Option<Path>): Path
  {
    var (head, tail) := Split(filename);
    Join(dataDir.GetOr(head), MarkerName(tail))
  }

  /** A slash-free name appended to a directory prefix that is empty or
      ends with a slash begins right after that prefix. */
  lemma {:induction false} TailStartAfter(x: Path, n: Path)
    requires x == [] || x[|x| - 1] == '/'
    requires SlashFree(n)
    ensures TailStart(x + n) == |x|
  {
    if n == [] {
      assert x + n == x;
    } else {
      var n' := n[..|n| - 1];
      assert (x + n)[..|x + n| - 1] == x + n';
      TailStartAfter(x, n');
    }
  }

  /** A marker name is a single path component, distinct from the name
      it was derived from. */
  lemma MarkerNameShape(tail: Path)
    requires SlashFree(tail)
    ensures SlashFree(MarkerName(tail))
    ensures MarkerName(tail) != tail
  {
    var rest := LStrip(tail, {'.'});
    var m := MarkerName(tail);
    assert m == "." + rest + MarkerSuffix;
    forall i | 0 <= i < |m|
      ensures m[i] != '/'
    {
      if 1 <= i <= |rest| {
        assert m[i] == rest[i - 1] == tail[|tail| - |rest| + i - 1];
      }
    }
    if |m| == |tail| {
      // tail then starts with nine dots, while m's second character is the
      // first kept character (never a dot) or, with nothing kept, m's third
      // character is the 'b' of the suffix
      assert |tail| - |rest| == 9;
      assert tail[..9][1] == tail[1] && tail[..9][2] == tail[2];
      if rest != [] {
        assert m[1] == rest[0] != tail[1];
      } else {
        assert m[2] == 'b' != tail[2];
      }
    }
  }

  /** Splitting a joined path gives back the normalised directory and the
      name. */
  lemma SplitJoin(d: Path, name: Path)
    requires name != [] && SlashFree(name)
    ensures Split(Join(d, name)) == (HeadOf(d), name)
  {
    if d == [] || d[|d| - 1] == '/' {
      TailStartAfter(d, name);
      assert (d + name)[..|d|] == d;
      assert (d + name)[|d|..] == name;
    } else {
      var x := d + "/";
      assert Join(d, name) == x + name;
      TailStartAfter(x, name);
      assert (x + name)[..|x|] == x;
      assert (x + name)[|x|..] == name;
      assert x[|x| - 1 - 1] != '/';
      assert !AllIn(x, {'/'});
      assert x[..|x| - 1] == d;
      assert !AllIn(d, {'/'});
    }
  }

  /** `Split` cuts p into a prefix, a run of slashes and the longest
      slash-free suffix. */
  lemma SplitParts(p: Path)
    ensures |Split(p).0| + |Split(p).1| <= |p|
    ensures Split(p).0 == p[..|Split(p).0|]
    ensures Split(p).1 == p[|p| - |Split(p).1|..]
    ensures AllIn(p[|Split(p).0|..|p| - |Split(p).1|], {'/'})
    ensures |Split(p).1| < |p| ==> p[|p| - |Split(p).1| - 1] == '/'
    ensures AllIn(p[..|p| - |Split(p).1|], {'/'}) ==> |Split(p).0| + |Split(p).1| == |p|
  {
    var i := TailStart(p);
    var h := HeadOf(p[..i]);
    assert Split(p) == (h, p[i..]);
    assert p[|h|..i] == p[..i][|h|..];
  }

  /** The directory `Split` reports is already normalised. */
  lemma SplitHeadIsNormal(p: Path)
    ensures HeadOf(Split(p).0) == Split(p).0
  {
    var h := Split(p).0;
    if h != [] && !AllIn(h, {'/'}) {
      assert h[|h| - 1] !in {'/'};
      RStripExact(h, [], {'/'});
      assert h + [] == h;
    }
  }

  /** The marker lives in the configured data directory, or else in the
      watched file's own directory, under the name `MarkerName` derives
      from the watched file's name. */
  lemma MarkerLocation(filename: Path, dataDir: Option<Path>)
    ensures dataDir.None? ==>
      Split(MarkerPath(filename, dataDir)) == (Split(filename).0, MarkerName(Split(filename).1))
    ensures dataDir.Some? ==>
      Split(MarkerPath(filename, dataDir)) == (HeadOf(dataDir.value), MarkerName(Split(filename).1))
  {
    var head := Split(filename).0;
    var name := MarkerName(Split(filename).1);
    var dir := dataDir.GetOr(head);
    assert MarkerPath(filename, dataDir) == Join(dir, name);
    MarkerNameShape(Split(filename).1);
    SplitJoin(dir, name);
    SplitHeadIsNormal(filename);
  }

  /** The marker is never the watched file itself: their final components
      differ. */
  lemma MarkerNotWatched(filename: Path, dataDir: Option<Path>)
    ensures MarkerPath(filename, dataDir) != filename
  {
    MarkerLocation(filename, dataDir);
    MarkerNameShape(Split(filename).1);
  }

  /** Leading dots do not reach the marker name, so `a`, `.a` and `..a`
      in one directory share one marker. */
  lemma MarkerIgnoresLeadingDots(dir: Path, name: Path)
    requires name != [] && SlashFree(name)
    ensures MarkerPath(Join(dir, "." + name), None) == MarkerPath(Join(dir, name), None)
  {
    assert SlashFree("." + name);
    SplitJoin(dir, name);
    SplitJoin(dir, "." + name);
    assert ("." + name)[1..] == name;
  }

  /** A file named directly inside a directory keeps its marker beside it. */
  lemma MarkerBeside(dir: Path, tail: Path)
    requires tail != [] && SlashFree(tail)
    ensures MarkerPath(Join(dir, tail), None) == Join(HeadOf(dir), MarkerName(tail))
  {
    SplitJoin(dir, tail);
  }

  /** A name that does not start with a dot is kept whole in its marker name. */
  lemma UndottedMarkerName(tail: Path)
    requires tail == [] || tail[0] != '.'
    ensures MarkerName(tail) == "." + tail + MarkerSuffix
  {
    LStripExact([], tail, {'.'});
    assert [] + tail == tail;
  }

  /** `/tmp` is a directory `Split` reports unchanged. */
  lemma TmpIsNormal()
    ensures HeadOf("/tmp") == "/tmp"
  {
    assert "/tmp"[3] != '/';
    RStripExact("/tmp", [], {'/'});
    assert "/tmp" + [] == "/tmp";
  }

  /** Joining `/tmp` with such a marker name inserts one slash. */
  lemma TmpJoin(name: Path)
    ensures Join("/tmp", "." + (name + ".test") + MarkerSuffix) == "/tmp/." + name + ".test.babycam"
  {
  }

  /** A file `<name>.test` in `/tmp` keeps its stored length in
      `/tmp/.<name>.test.babycam`. */
  lemma TmpMarker(name: Path)
    requires name != [] && SlashFree(name) && name[0] != '.'
    ensures MarkerPath("/tmp/" + name + ".test", None) == "/tmp/." + name + ".test.babycam"
  {
    var tail := name + ".test";
    var file := "/tmp/" + name + ".test";
    assert file == Join("/tmp", tail);
    assert SlashFree(tail) && tail[0] != '.';
    MarkerBeside("/tmp", tail);
    TmpIsNormal();
    UndottedMarkerName(tail);
    assert MarkerPath(file, None) == Join("/tmp", "." + tail + MarkerSuffix);
    TmpJoin(name);
  }
}
