/**
  Recording discovery and timestamp recovery (`combine`, first half).

  A path is the sequence of its segments as `rglob` yields it: below the
  filesystem root when the recordings directory is given as an absolute path,
  which the model assumes. The camera writes `<YYYYMMDD>/<HH>/<MM>.mp4`; the timestamp is read
  from the last three segments only, and never from the media itself.
 */
module Locator {
  import opened Results
  import opened Decimal
  import opened Calendar

  type Path = seq<string>

  /** The `Recording` dataclass. */
  datatype Recording = Recording(path: Path, timestamp: DateTime)

  /** Why a discovered path has no timestamp. */
  datatype PathProblem =
    | TooFewSegments   // `parts[-3]` does not exist
    | NotAnInteger     // one of the five `int(...)` calls fails
    | FieldOutOfRange  // the `datetime.datetime(...)` constructor refuses the fields

  /** The whole run stops at the first malformed path; the model records that path with the problem. */
  datatype LocateError = MalformedPath(path: Path, problem: PathProblem)

  const FragmentExtension: string := ".mp4"

  /** The `??.mp4` file-name pattern handed to `rglob`: a two-character stem. */
  predicate IsFragmentName(name: string)
  {
    |name| == 6 && name[2..] == FragmentExtension
  }

  predicate IsFragmentPath(p: Path)
  {
    |p| >= 1 && IsFragmentName(p[|p| - 1])
  }

  /** The paths `rglob("??.mp4")` yields, in the walk's order; `entries` is every path under the root. */
  function Discover(entries: seq<Path>): (r: seq<Path>)
    ensures forall p :: p in r <==> p in entries && IsFragmentPath(p)
    ensures |r| <= |entries|
  {
    if entries == [] then []
    else
      var rest := Discover(entries[..|entries| - 1]);
      var last := entries[|entries| - 1];
      assert entries == entries[..|entries| - 1] + [last];
      if IsFragmentPath(last) then rest + [last] else rest
  }

  /**
    Discovery keeps the walk's order and multiplicity: it is the filter that
    distributes over concatenation and keeps a single entry exactly when it is
    a fragment path.
   */
  lemma {:induction false} DiscoverIsFilter(a: seq<Path>, b: seq<Path>)
    ensures Discover(a + b) == Discover(a) + Discover(b)
    ensures forall p :: Discover([p]) == if IsFragmentPath(p) then [p] else []
  {
    if b != [] {
      var init := b[..|b| - 1];
      DiscoverIsFilter(a, init);
      assert (a + b)[..|a + b| - 1] == a + init;
      assert (a + b)[|a + b| - 1] == b[|b| - 1];
    } else {
      assert a + b == a;
    }
    forall p ensures Discover([p]) == if IsFragmentPath(p) then [p] else [] {
      assert [p][..0] == [];
    }
  }

  /** Python's `s[i:j]` for `0 <= i <= j`: bounds past the end are clipped. */
  function Slice(s: string, i: nat, j: nat): (r: string)
    requires i <= j
    ensures |r| == (if j <= |s| then j - i else if i <= |s| then |s| - i else 0)
  {
    var hi := if j <= |s| then j else |s|;
    var lo := if i <= hi then i else hi;
    s[lo..hi]
  }

  /** Python's `s[:-len(".mp4")]`: everything but the last four characters. */
  function DropExtension(s: string): (r: string)
    ensures |s| >= |FragmentExtension| ==> |r| == |s| - |FragmentExtension| && r + s[|r|..] == s
    ensures |s| < |FragmentExtension| ==> r == ""
  {
    if |s| > |FragmentExtension| then s[..|s| - |FragmentExtension|] else ""
  }

  /** The five `int(...)` fields of a path, before the datetime range check. */
  datatype Fields = Fields(year: nat, month: nat, day: nat, hour: nat, minute: nat)

  function ParseFields(p: Path): (r: Result<Fields, PathProblem>)
    ensures r.Err? ==> r.error != FieldOutOfRange
  {
    if |p| < 3 then Err(TooFewSegments)
    else
      var f := FieldTexts(p);
      var year, month, day := ParseInt(f[0]), ParseInt(f[1]), ParseInt(f[2]);
      var hour, minute := ParseInt(f[3]), ParseInt(f[4]);
      if year.Some? && month.Some? && day.Some? && hour.Some? && minute.Some?
      then Ok(Fields(year.value, month.value, day.value, hour.value, minute.value))
      else Err(NotAnInteger)
  }

  /** The timestamp `combine` builds for one discovered path. */
  function ParseTimestamp(p: Path): (r: Result<DateTime, PathProblem>)
    ensures r.Ok? ==> Valid(r.value)
  {
    match ParseFields(p)
    case Err(e) => Err(e)
    case Ok(f) =>
      var t := DateTime(f.year, f.month, f.day, f.hour, f.minute);
      if Valid(t) then Ok(t) else Err(FieldOutOfRange)
  }

  /** The five texts `combine` hands to `int`: `parts[-3][0:4]`, `[4:6]`, `[6:8]`, `parts[-2]`, `parts[-1][:-4]`. */
  function FieldTexts(p: Path): (texts: seq<string>)
    requires |p| >= 3
    ensures |texts| == 5
  {
    var date := p[|p| - 3];
    [Slice(date, 0, 4), Slice(date, 4, 6), Slice(date, 6, 8), p[|p| - 2], DropExtension(p[|p| - 1])]
  }

  /** Each field text is a non-empty run of decimal digits. */
  predicate AllNumerals(p: Path)
  {
    |p| >= 3 && forall k :: 0 <= k < 5 ==> FieldTexts(p)[k] != [] && AllDigits(FieldTexts(p)[k])
  }

  /** The datetime fields the five digit runs denote, before any range check. */
  function DigitStamp(p: Path): DateTime
    requires AllNumerals(p)
  {
    var f := FieldTexts(p);
    DateTime(ValueOf(f[0]), ValueOf(f[1]), ValueOf(f[2]), ValueOf(f[3]), ValueOf(f[4]))
  }

  /**
    What the parse means: fewer than three segments, a field text that is not
    a non-empty digit run, or fields outside the calendar are the three ways it
    fails, and otherwise the timestamp is the decimal value of each field text.
   */
  lemma TimestampMeaning(p: Path)
    ensures ParseTimestamp(p) == Err(TooFewSegments) <==> |p| < 3
    ensures ParseTimestamp(p) == Err(NotAnInteger) <==> |p| >= 3 && !AllNumerals(p)
    ensures ParseTimestamp(p) == Err(FieldOutOfRange) <==> AllNumerals(p) && !Valid(DigitStamp(p))
    ensures ParseTimestamp(p).Ok? <==> AllNumerals(p) && Valid(DigitStamp(p))
    ensures ParseTimestamp(p).Ok? ==> ParseTimestamp(p).value == DigitStamp(p)
  {
    if |p| >= 3 {
      var f := FieldTexts(p);
      ParseIntMeaning(f[0]);
      ParseIntMeaning(f[1]);
      ParseIntMeaning(f[2]);
      ParseIntMeaning(f[3]);
      ParseIntMeaning(f[4]);
    }
  }

  lemma ShortDateTexts()
    ensures FieldTexts(["2024011", "10", "05.mp4"]) == ["2024", "01", "1", "10", "05"]
  {
    var p: Path := ["2024011", "10", "05.mp4"];
    assert Slice(p[0], 0, 4) == "2024" && Slice(p[0], 4, 6) == "01" && Slice(p[0], 6, 8) == "1";
    assert DropExtension(p[2]) == "05";
  }

  lemma ShortDateValues()
    ensures AllDigits("2024") && ValueOf("2024") == 2024
    ensures AllDigits("01") && ValueOf("01") == 1
    ensures AllDigits("1") && ValueOf("1") == 1
    ensures AllDigits("10") && ValueOf("10") == 10
    ensures AllDigits("05") && ValueOf("05") == 5
  {
    assert "2024"[..3] == "202" && "202"[..2] == "20" && "20"[..1] == "2" && "2"[..0] == "";
    assert "01"[..1] == "0" && "05"[..1] == "0" && "10"[..1] == "1" && "0"[..0] == "" && "1"[..0] == "";
  }

  /**
    Slicing clips short segments: a seven-character date segment still parses,
    its day being the single digit left over.
   */
  lemma ShortDateSegment()
    ensures ParseTimestamp(["2024011", "10", "05.mp4"]) == Ok(DateTime(2024, 1, 1, 10, 5))
  {
    var p: Path := ["2024011", "10", "05.mp4"];
    ShortDateTexts();
    ShortDateValues();
    assert AllNumerals(p);
    assert DigitStamp(p) == DateTime(2024, 1, 1, 10, 5);
    TimestampMeaning(p);
  }

  /** Only the last three segments matter: the tree may sit at any depth. */
  lemma ParseTimestampIgnoresPrefix(prefix: Path, tail: Path)
    requires |tail| == 3
    ensures ParseTimestamp(prefix + tail) == ParseTimestamp(tail)
  {
    var p := prefix + tail;
    assert p[|p| - 3] == tail[0] && p[|p| - 2] == tail[1] && p[|p| - 1] == tail[2];
  }

  /** The path the camera writes for a timestamp. */
  function CameraPath(t: DateTime): (p: Path)
    ensures |p| == 3 && IsFragmentName(p[2])
  {
    [Padded(t.year, 4) + Padded(t.month, 2) + Padded(t.day, 2),
     Padded(t.hour, 2),
     Padded(t.minute, 2) + FragmentExtension]
  }

  /** Reading the camera's layout back recovers the timestamp it encodes. */
  lemma CameraPathRoundTrip(prefix: Path, t: DateTime)
    requires Valid(t)
    ensures ParseTimestamp(prefix + CameraPath(t)) == Ok(t)
  {
    ParseTimestampIgnoresPrefix(prefix, CameraPath(t));
    var p := CameraPath(t);
    var y, mo, d := Padded(t.year, 4), Padded(t.month, 2), Padded(t.day, 2);
    assert Slice(p[0], 0, 4) == y;
    assert Slice(p[0], 4, 6) == mo;
    assert Slice(p[0], 6, 8) == d;
    assert DropExtension(p[2]) == Padded(t.minute, 2);
    assert 9999 < Pow10(4) && 99 < Pow10(2);
    ParsePadded(t.year, 4);
    ParsePadded(t.month, 2);
    ParsePadded(t.day, 2);
    ParsePadded(t.hour, 2);
    ParsePadded(t.minute, 2);
  }

  /** The parsing loop's result, stated over its input: stop at the first bad path. */
  function Locate(paths: seq<Path>): (r: Result<seq<Recording>, LocateError>)
    ensures r.Ok? ==> |r.value| == |paths|
    ensures r.Err? ==> r.error.path in paths && ParseTimestamp(r.error.path) == Err(r.error.problem)
  {
    if paths == [] then Ok([])
    else
      assert paths == paths[..|paths| - 1] + [paths[|paths| - 1]];
      match Locate(paths[..|paths| - 1])
      case Err(e) => Err(e)
      case Ok(recs) =>
        var last := paths[|paths| - 1];
        match ParseTimestamp(last)
        case Err(why) => Err(MalformedPath(last, why))
        case Ok(t) => Ok(recs + [Recording(last, t)])
  }

  /**
    Every discovered path yields exactly one recording, in discovery order,
    carrying that path unchanged; the run succeeds exactly when every path parses.
   */
  lemma {:induction false} LocateOk(paths: seq<Path>)
    ensures Locate(paths).Ok? <==> forall i :: 0 <= i < |paths| ==> ParseTimestamp(paths[i]).Ok?
    ensures Locate(paths).Ok? ==> |Locate(paths).value| == |paths|
    ensures Locate(paths).Ok? ==> forall i :: 0 <= i < |paths| ==>
      Locate(paths).value[i] == Recording(paths[i], ParseTimestamp(paths[i]).value)
  {
    if paths != [] {
      var init, last := paths[..|paths| - 1], paths[|paths| - 1];
      LocateOk(init);
      assert paths == init + [last];
    }
  }

  /** A failing run reports the first path whose timestamp cannot be recovered. */
  lemma {:induction false} LocateErr(paths: seq<Path>)
    ensures Locate(paths).Err? ==>
              exists i: nat :: FirstFailure(paths, i) &&
                               Locate(paths).error == MalformedPath(paths[i], ParseTimestamp(paths[i]).error)
  {
    if paths != [] {
      var init := paths[..|paths| - 1];
      assert forall i :: 0 <= i < |init| ==> init[i] == paths[i];
      LocateOk(init);
      LocateErr(init);
      if Locate(init).Ok? && Locate(paths).Err? {
        assert FirstFailure(paths, |paths| - 1);
      }
    }
  }

  /** Index `i` is the first path whose timestamp cannot be recovered. */
  predicate FirstFailure(paths: seq<Path>, i: nat)
  {
    && i < |paths|
    && ParseTimestamp(paths[i]).Err?
    && forall k :: 0 <= k < i ==> ParseTimestamp(paths[k]).Ok?
  }

  /** Once a prefix is good and the next path is bad, the whole run fails on that path. */
  lemma LocateStopsAt(paths: seq<Path>, i: nat)
    requires i < |paths| && Locate(paths[..i]).Ok? && ParseTimestamp(paths[i]).Err?
    ensures Locate(paths) == Err(MalformedPath(paths[i], ParseTimestamp(paths[i]).error))
  {
    var prefix := paths[..i];
    LocateOk(prefix);
    assert forall k :: 0 <= k < i ==> ParseTimestamp(paths[k]).Ok? by {
      forall k | 0 <= k < i ensures ParseTimestamp(paths[k]).Ok? {
        assert prefix[k] == paths[k];
      }
    }
    LocateOk(paths);
    LocateErr(paths);
    var j: nat :| FirstFailure(paths, j) &&
                  Locate(paths).error == MalformedPath(paths[j], ParseTimestamp(paths[j]).error);
    assert j == i;
  }

  /** The parsing loop: one `Recording` appended per discovered path. */
  method ParseRecordings(paths: seq<Path>) returns (r: Result<seq<Recording>, LocateError>)
    ensures r == Locate(paths)
  {
    var recordings: seq<Recording> := [];
    for i := 0 to |paths|
      invariant Locate(paths[..i]) == Ok(recordings)
    {
      var p := paths[i];
      assert paths[..i + 1][..i] == paths[..i];
      match ParseTimestamp(p)
      case Err(why) =>
        r := Err(MalformedPath(p, why));
        LocateStopsAt(paths, i);
        return;
      case Ok(t) =>
        recordings := recordings + [Recording(p, t)];
    }
    assert paths[..|paths|] == paths;
    r := Ok(recordings);
  }

  /** Every recovered timestamp is one `datetime.datetime` accepts. */
  lemma LocatedAreValid(paths: seq<Path>)
    requires Locate(paths).Ok?
    ensures forall r :: r in Locate(paths).value ==> Valid(r.timestamp)
  {
    LocateOk(paths);
  }
}
