# wyzechunk, modelled in Dafny

`wyzechunk` combines the one-minute video fragments a Wyze camera writes into
one video per recording session. The camera stores each fragment as
`<YYYYMMDD>/<HH>/<MM>.mp4`. `combine` finds every fragment and recovers its
timestamp from those three path segments. It then sorts the fragments by
timestamp. One pass over the sorted list closes a session whenever a fragment
starts 90 seconds or more after the fragment before it. Each session goes to
`render_group`, which names the output after the session's first timestamp
(`%Y%m%d_%H%M.mkv`) and writes a `file '<path>'` manifest for `ffmpeg`'s
concat demuxer.

The model follows that structure, one module per stage:

- `Results`: `Option` and `Result`, standing in for `None` and raised exceptions.
- `Decimal`: the digits-only part of `int()`, and the zero-padded fields `strftime` writes.
- `Calendar`: the part of `datetime.datetime` the program uses. That is the
  constructor's range check, field-by-field comparison, and subtraction. Subtraction
  goes through CPython's day ordinal (`_days_before_year`, `_days_before_month`,
  `toordinal`), so minute counts are exact across month, year and leap-day boundaries.
- `Locator`: the `Recording` dataclass, the `??.mp4` filter, timestamp recovery
  from the last three segments, and the parsing loop (a method with a loop,
  proved equal to the function `Locate`).
- `Sorting`: `sorted(..., key=timestamp)` as a stable insertion sort. Lemmas
  show it is sorted, a permutation and stable. Another lemma shows every
  stable sort gives the same list.
- `Sessions`: the grouping loop, as a method `Partition` whose output stands
  for the successive `render_group` calls. Its contract says the output is the
  unique split into sessions.
- `Render`: the output name and the manifest text.
- `Pipeline`: `combine` end to end, as the method `Combine`.

A path is modelled as its sequence of segments below the filesystem root, as
`rglob` yields it when the recordings directory is given as an absolute path. Timestamps have minute resolution. The 90-second threshold
is compared against `60 × (difference in minutes)`, just as the `timedelta`
comparison does it.

`render_group` names the output from the first timestamp alone, never checks
for an existing output, and runs `ffmpeg -y` straight onto the final path.

## Model

| member | source | states |
|---|---|---|
| `Decimal.ParseIntMeaning` | wyzechunk.py:63-67 | `int` succeeds exactly on a non-empty string of decimal digits, and returns its base-ten value (leading zeros allowed) |
| `Decimal.ParsePadded` | wyzechunk.py:20 | a zero-padded field that `strftime` writes reads back as the number written |
| `Calendar.Chronological` | wyzechunk.py:70 | for valid datetimes, `a < b` (field-by-field) holds exactly when `a`'s minute count is smaller, and equal datetimes are exactly those with equal minute counts; so sorting by minute count is sorting by timestamp |
| `Calendar.NextMinuteIsOneMinute` | wyzechunk.py:79 | one minute later is exactly one more minute in the count, across hour, day, month, year and leap-day ends; so the subtraction at line 79 is a true minute difference |
| `Locator.Discover` | wyzechunk.py:58 | a path is discovered exactly when it is among the walked entries and its last segment matches `??.mp4` |
| `Locator.DiscoverIsFilter` | wyzechunk.py:58 | discovery is an order-preserving filter of the walk: it distributes over concatenation and keeps a single entry exactly when it is a fragment path, so walk order and repeats are kept |
| `Locator.ParseTimestamp` | wyzechunk.py:63-68 | every timestamp it recovers passes the `datetime` constructor's range check |
| `Locator.TimestampMeaning` | wyzechunk.py:63-68 | both directions: the parse succeeds exactly when there are at least three segments, each of `parts[-3][0:4]`, `[4:6]`, `[6:8]`, `parts[-2]` and `parts[-1][:-4]` is a non-empty run of decimal digits, and their values form a valid datetime, which is then the timestamp; it fails with "too few segments" exactly below three segments, with "not an integer" exactly when some field text is not a digit run, and with "out of range" exactly when all are digit runs but the date or time does not exist |
| `Locator.ShortDateSegment` | wyzechunk.py:63-65 | because slices clip, a seven-character date segment such as `2024011/10/05.mp4` still parses, with day 1 |
| `Locator.ParseTimestampIgnoresPrefix` | wyzechunk.py:63-67 | only the last three segments decide the timestamp, whatever the directories above them |
| `Locator.CameraPathRoundTrip` | wyzechunk.py:63-68 | the path the camera writes for any valid timestamp, under any prefix, parses back to that timestamp |
| `Locator.Locate` | wyzechunk.py:61-69 | a successful run has one recording per path; a failed run names a path from the input together with the very problem `ParseTimestamp` reports for it |
| `Locator.LocateOk` | wyzechunk.py:61-69 | the run succeeds exactly when every discovered path parses; it then yields one recording per path, in discovery order, each holding its path unchanged and that path's timestamp |
| `Locator.LocateErr` | wyzechunk.py:62-68 | a failing run stops at the first path in discovery order whose timestamp cannot be recovered, with the reason it could not be |
| `Locator.LocateStopsAt` | wyzechunk.py:62-68 | once every earlier path parsed, the first bad path ends the whole run with its error |
| `Locator.ParseRecordings` | wyzechunk.py:61-69 | the parsing loop, which appends one recording per path and stops at the first error, returns exactly `Locate(paths)` |
| `Locator.LocatedAreValid` | wyzechunk.py:68 | every recovered timestamp passes the `datetime` constructor's range check |
| `Sorting.SortByTime` | wyzechunk.py:70 | the insertion sort on the minute-count key `Key` returns a permutation of its input |
| `Sorting.SortSortsAndPermutes` | wyzechunk.py:70 | the sorted list is non-decreasing by timestamp and is a permutation of the parsed recordings |
| `Sorting.SortIsStable` | wyzechunk.py:70 | recordings with equal timestamps keep their discovery order |
| `Sorting.StableSortIsUnique` | wyzechunk.py:70 | two sorted lists that order every group of equal timestamps alike are equal; so a stable sort has one possible result |
| `Sorting.SortIsTheStableSort` | wyzechunk.py:70 | any sorted list that keeps the input's order among equal timestamps is `SortByTime` of the input, so it is what `sorted` returns |
| `Sessions.Near` | wyzechunk.py:76-80 | with whole-minute timestamps, "less than 90 seconds later" means "at most one minute later" |
| `Sessions.Partition` | wyzechunk.py:73-87 | the groups concatenate to the input, in order. Each group is non-empty. Adjacent recordings in a group are under 90 s apart. Between groups the gap is at least 90 s. No input means no groups. Otherwise there is one group more than there are adjacent pairs 90 s or more apart |
| `Sessions.SessionSplitIsUnique` | wyzechunk.py:75-87 | a list has only one split into non-empty chained groups separated by gaps of at least the threshold, so the grouping is fully determined |
| `Sessions.SessionsApart` | wyzechunk.py:75-87 | on sorted input, every recording of an earlier session is at least two minutes before every recording of a later one: sessions are in ascending order and time-disjoint |
| `Render.NameOf` | wyzechunk.py:20 | the name has the shape `YYYYMMDD_HHMM.mkv`: 17 characters, `_` at position 8, `.mkv` at the end |
| `Render.NameRoundTrip` | wyzechunk.py:20 | reading a name back gives the valid timestamp it was made from |
| `Render.OutputName` | wyzechunk.py:20 | the output name reads back as the timestamp of the session's first recording |
| `Render.OutputNameIgnoresRest` | wyzechunk.py:20 | two sessions whose first recordings share a timestamp get the same name, whatever follows: only the start timestamp decides it |
| `Render.NameMatchesCameraPath` | wyzechunk.py:20 | for a fragment in the camera's layout, the name is its date segment, `_`, its hour segment, its minute stem and `.mkv` |
| `Render.OutputNamesDistinct` | wyzechunk.py:20 | different sessions in one run get different output names, so no `ffmpeg -y` run overwrites another session's output |
| `Render.PathText` | wyzechunk.py:23 | the text of a non-empty path is absolute (starts with `/`), and it holds no newline when no segment does |
| `Render.ManifestLine` | wyzechunk.py:23 | a manifest line is `file '`, the path text unchanged, and a closing `'`; it holds a newline only if the path text does |
| `Render.Manifest` | wyzechunk.py:23 | the manifest is empty exactly for an empty session, and otherwise starts with the first recording's line |
| `Render.SplitJoin` | wyzechunk.py:23 | splitting `"\n".join(lines)` at newlines gives back `lines` when no line holds a newline |
| `Render.ManifestHasOneLinePerRecording` | wyzechunk.py:23 | when no path segment holds a newline, the manifest splits into exactly one `file '<path>'` line per recording, in session order, and it ends with the closing quote, not a newline |
| `Pipeline.Combine` | wyzechunk.py:58-87 | `combine` stops on a path error exactly when some discovered path is malformed, and then renders nothing. Otherwise the groups it renders are the session split of the sorted recordings, and it renders nothing exactly when no fragment was found |
| `Pipeline.CombinedSessions` | wyzechunk.py:58-87 | in a successful run, the rendered sessions hold each recovered recording exactly once, are at least two minutes apart in ascending order, and have pairwise distinct output names |
| `Pipeline.TwoSessionsExample` | wyzechunk.py:73-87 | fragments at 10:00, 10:01, 10:02, 10:05 and 10:06 form exactly the sessions {10:00, 10:01, 10:02} and {10:05, 10:06}, named `20240101_1000.mkv` and `20240101_1005.mkv` |

## Left out

- The `ffmpeg` subprocess, the temporary manifest file and its write and flush (wyzechunk.py:25-44): these are a foreign process and file I/O. A session counts as rendered once it is emitted.
- `shutil.which`, the input-directory checks, `mkdir` and the `sys.exit` calls (wyzechunk.py:48-56): environment and filesystem checks.
- The directory walk of `rglob` (wyzechunk.py:58): its input is the list of walked paths, in walk order. Only the `??.mp4` name filter is modelled. The model does not tell directories from files.
- `Path.resolve()` (wyzechunk.py:21, 23): it depends on the filesystem. Paths are taken as already absolute, and `PathText` writes them as `/seg/seg/...`.
- Joining the output directory to the name (wyzechunk.py:21): only the name itself is modelled.
- argparse and `main` (wyzechunk.py:90-111): the command line.
- Decimal.ParseIntMeaning: Python's `int()` also accepts surrounding whitespace, a sign, underscores between digits and non-ASCII digits. The model accepts plain ASCII digits only, so it rejects a few unusual segments that Python would accept.
- Locator.TimestampMeaning: Python's `parts` of an absolute path starts with the root `/`. With fewer than three real segments, Python raises `IndexError`, or `ValueError` on `int("/")`. The model reports `TooFewSegments` in both cases. For absolute paths, the set of paths that succeed is the same.
- Relative recordings directory: the parse (wyzechunk.py:63-67) sees each path as `rglob` yields it, and `Path(args.recordings_dir)` (wyzechunk.py:102) is never resolved, so with a relative directory the parts are relative. A fragment fewer than three levels below a relatively given directory (`10/05.mp4` under `wyzechunk 10`) then fails in Python with `IndexError`, while the model, which takes every path as absolute, parses its absolute path. One `Path` serves both the parse and the resolved manifest text (wyzechunk.py:23), so the model does not represent a relative recordings directory.
- Locator.LocateErr: the model tells apart a non-integer field from an out-of-range field. Python raises `ValueError` for both, or `OverflowError` from the constructor when a field such as the unbounded hour segment exceeds the C `int` range. The model keeps Python's evaluation order: all five `int` calls come before the range check. The path carried in `MalformedPath` is the model's addition: Python's exception names the bad literal or the field range, not the path.
- Pipeline.Combine: rendering never fails in the model. In the program, `subprocess.run(..., check=True)` (wyzechunk.py:42) raises `CalledProcessError` when `ffmpeg` exits non-zero. That happens inside the grouping loop (wyzechunk.py:85, 87), so `combine` ends after the earlier sessions are rendered and before the later ones.
- Render.NameRoundTrip: `%Y` is modelled as four zero-padded digits. `strftime` output for years below 1000 depends on the platform's C library.
- Render.ManifestHasOneLinePerRecording: it assumes that no path segment holds a newline. The manifest does not escape quotes or newlines, and how `ffmpeg` reads such paths is not modelled.
- Span-based names, skip-if-exists and write-then-rename are not in the code and are not modelled.
