# babycam in Dafny

babycam watches text files that only ever grow, such as log files, and mails
whatever was appended since the last look. This project models the change
detector `check` and one tick of the polling loop in `main`. It then proves
what they promise.

What `check(filename, data_dir)` does:

1. It derives a hidden *marker* path from the watched file. The marker name
   is a dot, then the file's name with its leading dots removed, then
   `.babycam`. The marker lives in `data_dir` when one is given, otherwise
   beside the watched file.
2. It reads the length stored in the marker, if the marker exists.
3. It reads the watched file past that length.
4. It writes the new length back, but only when the length changed.
5. It returns the appended text. On first sight it returns the empty string
   and records the current length.

A tick of the loop runs `check` on every watched file in order. A file
whose delta is non-empty gets a notification.

Modules:

- `Outcomes` (outcomes.dfy): `Option` and `Result`.
- `Text` (text.dfy): Python's `str.lstrip`, `str.rstrip` and `str.strip`
  with an explicit character set. Also lemmas that compute the result of
  stripping a known padding.
- `Paths` (paths.dfy): POSIX `os.path.split` and `os.path.join`, the
  marker name and the marker path.
  - `os.path.split` keeps a head made only of slashes, and otherwise drops
    the head's trailing slashes.
  - `os.path.join` returns the second argument alone when it is absolute.
- `Marker` (marker.dfy): the marker's contents, `str(n)` plus a newline.
  Reading a marker is `int(text.strip())`, where strip uses Python's full
  `str.isspace` set.
- `Detector` (check.dfy): `check` over a filesystem modelled as a map from
  path to contents. `CheckMarker` is lines 95-122 of `babycam/__init__.py` with the
  marker path as a parameter. `Check` feeds it the derived marker path.
  The result is the delta, or the exception `check` raises, together with
  the filesystem afterwards.
- `Poll` (poll.dfy): one tick of the loop as a fold over the watched files.
  It collects the notifications in order and stops at the first exception.
- `Scenarios` (scenarios.dfy): the repository's two `check` tests, stated
  for every generated file name. `NewFileScenario` holds for every starting
  filesystem that has no marker for the file yet; `AppendScenario` holds
  for every starting filesystem.

Three consequences of the code that the model keeps:

- Every marker file name ends in `.babycam` (line 92).
- `tail.lstrip('.')` (line 92) removes every leading dot. So `a`, `.a` and
  `..a` in one directory share one marker (`MarkerIgnoresLeadingDots`).
- The stored length never decreases. When a file shrinks, `check` reports
  nothing and keeps the old length. A later re-growth below that length
  goes unreported.

## Model

| member | source | states |
|---|---|---|
| Paths.TailStart | babycam/__init__.py:86 | the tail that `os.path.split` reports starts right after the last slash and contains no slash |
| Paths.Split | babycam/__init__.py:86 | the tail is slash-free; the head has no trailing slash unless it is all slashes |
| Paths.SplitParts | babycam/__init__.py:86 | a path is exactly head, a run of slashes, then tail. The tail is preceded by a slash unless it is the whole path. When everything before the tail is slashes, the head keeps all of them (`/x` splits into `/` and `x`) |
| Paths.Join | babycam/__init__.py:90-93 | joining ends with the name; an absolute name replaces the directory; otherwise the result starts with the directory and is at most one character longer than the two together |
| Paths.JoinParts | babycam/__init__.py:90-93 | for a relative name, only slashes lie between directory and name: none when the directory is empty or ends with a slash, otherwise exactly one |
| Paths.HeadOfPinned | babycam/__init__.py:86 | the head keeps the raw directory part up to its trailing slashes, and keeps an all-slash directory whole; with `HeadOf`'s own contract this fixes its value |
| Paths.HeadOf | babycam/__init__.py:86 | the head `os.path.split` reports is a prefix of the raw directory part with no trailing slash, unless it is empty or all slashes |
| Paths.MarkerName | babycam/__init__.py:92 | the marker name; its contract is carried by `MarkerNameShape` (one component, never the watched name) and `MarkerIgnoresLeadingDots` |
| Paths.MarkerPath | babycam/__init__.py:86-93 | the marker path; its contract is carried by `MarkerLocation` (which directory, which name) and `MarkerNotWatched` |
| Paths.SplitJoin | babycam/__init__.py:86-93 | splitting a joined path gives back the normalised directory and the name |
| Paths.MarkerNameShape | babycam/__init__.py:92 | the marker name is one path component and differs from the watched name |
| Paths.MarkerLocation | babycam/__init__.py:86-93 | the marker sits in the data directory if one is given, else in the watched file's directory, under the derived name |
| Paths.MarkerNotWatched | babycam/__init__.py:86-93 | the marker path is never the watched file |
| Paths.MarkerIgnoresLeadingDots | babycam/__init__.py:92 | with no data directory, a name and the same name with a leading dot in one directory get one marker path (with a data directory this follows from `MarkerLocation`) |
| Paths.TmpMarker | tests/test_main.py:13-17 | `/tmp/<name>.test` keeps its length in `/tmp/.<name>.test.babycam` |
| Text.LStrip | babycam/__init__.py:92 | the result is a suffix of the input; only stripped characters were removed; the result does not start with one |
| Text.RStrip | babycam/__init__.py:98 | the result is a prefix of the input; only stripped characters were removed; the result does not end with one |
| Text.Strip | babycam/__init__.py:98 | the result neither starts nor ends with a stripped character |
| Text.StripExact | babycam/__init__.py:98 | stripping padding made of stripped characters recovers the text between |
| Marker.Decimal | babycam/__init__.py:119 | `str(n)` is a non-empty run of digits that denotes n, with no leading zero |
| Marker.DecimalCanonical | babycam/__init__.py:119 | every numeral without a leading zero is `str` of its value |
| Marker.ParseToleratesSpace | babycam/__init__.py:98 | whitespace around any run of decimal digits, leading zeros included (` 007\n` reads as 7), does not change the length read back |
| Marker.ParseFormat | babycam/__init__.py:96-98 | reading what `check` writes (lines 118-120) yields the length written |
| Marker.FormatInjective | babycam/__init__.py:117-120 | two lengths are written alike exactly when they are equal |
| Marker.FormatLength | babycam/__init__.py:117-120 | the marker text written for a length; its contract is carried by `Decimal` (a numeral for n with no leading zero), `ParseFormat` and `FormatInjective` |
| Marker.ParseLength | babycam/__init__.py:96-98 | the length read from a marker, or none where `int()` raises; its contract is carried by `ParseFormat` and `ParseToleratesSpace` |
| Marker.FormatExamples | tests/test_main.py:33-34 | lengths 6, 7 and 11 are written as `6`, `7` and `11`, each followed by a newline |
| Detector.ReadFrom | babycam/__init__.py:112-113 | seek then read yields the contents past the offset, or nothing past the end |
| Detector.Stored | babycam/__init__.py:96-101 | the length a marker holds, if it exists and parses; its contract is carried by `CheckFails`, `CheckFirstSight` and `CheckDelta` |
| Detector.Check | babycam/__init__.py:80-122 | on an exception the filesystem is untouched; on success the watched file exists and at most the derived marker is added. `CheckIdempotent` and `CheckAfterAppend` carry the rest |
| Detector.CheckMarker | babycam/__init__.py:95-122 | on an exception the filesystem is untouched; on success the watched file exists and at most the marker is added |
| Detector.CheckFrame | babycam/__init__.py:117-120 | `check` changes no path other than its marker |
| Detector.CheckFails | babycam/__init__.py:96-104 | it fails with `ValueError` exactly when the marker exists but does not hold a number. Otherwise it fails with `FileNotFoundError` exactly when the watched file is missing. The marker is examined first |
| Detector.CheckFirstSight | babycam/__init__.py:105-110 | with no marker, it reports nothing and writes the whole current length, even 0 |
| Detector.CheckDelta | babycam/__init__.py:111-120 | with stored length L, it reports exactly the contents past L and stores max(L, length). The marker is rewritten on growth |
| Detector.CheckStoredLength | babycam/__init__.py:105-120 | after success the marker holds the larger of the old stored length and the current length: it never decreases |
| Detector.CheckWritesOnlyOnChange | babycam/__init__.py:117 | the filesystem is left unchanged exactly when the marker already records at least the file's length |
| Detector.CheckSettled | babycam/__init__.py:111-117 | a file whose marker records at least its length yields "" and no write |
| Detector.CheckIdempotent | babycam/__init__.py:80-122 | a second `check` with no change in between reports nothing and writes nothing |
| Detector.CheckMarkerAfterAppend | babycam/__init__.py:111-120 | appending s gives delta s and stored length L + \|s\|; the marker is written only if s is non-empty |
| Detector.CheckAfterAppend | babycam/__init__.py:80-122 | the same for the marker path `check` derives itself |
| Scenarios.NewFileScenario | tests/test_main.py:20-34 | a new file `foobar` yields "" and a marker holding `6` and a newline |
| Scenarios.AppendScenario | tests/test_main.py:37-60 | with marker `7`, "foobar\n" yields "" and no write. After `buzz` is appended it yields `buzz` and a marker holding `11` |
| Poll.PollOnce | babycam/__init__.py:69-75 | a tick sends at most one notification per file and deletes no file |
| Poll.PollSingle | babycam/__init__.py:70-75 | for one file, a notification is sent exactly when `check` returns a non-empty delta; an exception ends the tick |
| Poll.PollSendsOnlyChanges | babycam/__init__.py:72 | every notification carries a non-empty delta of a watched file |
| Poll.PollAppend | babycam/__init__.py:70 | files are checked in order: a tick over a ++ b is a tick over a, then, unless it failed, a tick over b |
| Poll.PollFrame | babycam/__init__.py:69-75 | a tick changes only the markers of the files it is given, including files after a failure that it never reached; every other path keeps its contents |
| Poll.CheckSettles | babycam/__init__.py:80-122 | after a successful `check` the marker records at least the file's length |
| Poll.CheckKeepsSettled | babycam/__init__.py:117-120 | checking another file keeps a settled file settled, provided the other file's marker is not the settled file itself; this holds even when the two share a marker |
| Poll.PollSettles | babycam/__init__.py:69-75 | after a complete tick every watched file is settled, provided no watched file is another file's marker |
| Poll.PollQuiet | babycam/__init__.py:69-75 | a tick over settled files sends nothing and writes nothing |
| Poll.PollIdempotent | babycam/__init__.py:69-75 | a second tick with no change in between sends nothing and writes nothing, provided no watched file is the marker of a watched file (`MarkersApart`) |

## Left out

- The mail side: `send_email`, `smtp_connect`, the SMTP `verify` at start-up, `generate_email_text` and the sending of a notification. A tick hands over the list of notifications instead. Send failures are left out too.
- Command-line parsing (`argparse`, the `getpass`/FQDN default sender) and `setup.py`: these are configuration, not behaviour.
- The endless `while True` loop and `time.sleep`: the model covers one tick. Ticks compose by running `PollOnce` again on the filesystem it returns.
- File encodings and byte offsets: contents are sequences of characters, and the length `tell()` reports is taken to be the number of characters.
- Concurrent writers and files changing between the reads and the write of one `check`.
- Errors other than a non-numeric marker and a missing watched file, such as directories in place of files, permission errors and a missing or unwritable data directory. The model raises none of them.
- Marker.ParseLength: accepts only ASCII digits between whitespace. Python's `int()` also accepts a sign, underscores between digits and non-ASCII decimal digits. The model treats those markers as not holding a number.
- Poll.PollSettles: requires that no watched file is the marker of a watched file. Without that, a tick may rewrite a watched file and leave it unsettled.
- Poll.PollIdempotent: requires the same. Watching `.x.babycam` and `x` together, where `.x.babycam` holds `5` and `x` holds 10 characters, the first tick rewrites `.x.babycam` to `10` and a newline. The second tick then reports that newline as new.
- Paths are compared as strings. `x` and `./x`, `a//b` and `a/b`, and symbolic or hard links are different keys of `FileSystem`. So `CheckFrame`, `PollFrame` and `MarkersApart` speak about spellings, not files on disk. For example, the list `./.x.babycam`, `x` satisfies `MarkersApart`, yet its first entry is the marker of `x`, and the second tick is not quiet.
- Text-mode newline translation: on a file with CRLF line endings, `read()` returns one newline for each CRLF pair. The length added on line 114 then falls behind the byte offset that `tell()` and `seek()` use (lines 109 and 112), and the next `check` reports a lone newline again. The model reads what it stores, character for character.
- Stored lengths are unbounded naturals. The text-mode `seek` on line 112 takes an opaque cookie of bounded width, so a huge marker value may raise instead of reading as past the end, as `ReadFrom` models it.
