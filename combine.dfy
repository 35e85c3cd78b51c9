/**
  `combine`: discover the fragments, recover their timestamps, sort them,
  split them into sessions and hand each session to `render_group`.
 */
module Pipeline {
  import opened Results
  import opened Locator
  import opened Sorting
  import opened Sessions
  import Render
  import Decimal
  import Calendar

  /**
    The sessions `combine` renders, in call order, for a tree whose paths are
    `entries` (in the walk's order); or the first malformed fragment path, in
    which case nothing is rendered.
   */
  method Combine(entries: seq<Path>) returns (r: Result<seq<seq<Recording>>, LocateError>)
    ensures r.Err? <==> Locate(Discover(entries)).Err?
    ensures r.Err? ==> r.error == Locate(Discover(entries)).error
    ensures r.Ok? ==> IsSessionSplit(SortByTime(Locate(Discover(entries)).value), r.value)
    ensures r.Ok? ==> (r.value == [] <==> Discover(entries) == [])
  {
    var paths := Discover(entries);
    var located := ParseRecordings(paths);
    if located.Err? {
      return Err(located.error);
    }
    var recordings := SortByTime(located.value);
    LocateOk(paths);
    SortSortsAndPermutes(located.value);
    assert recordings == [] <==> paths == [] by {
      assert |recordings| == |multiset(recordings)|;
    }
    var groups := Partition(recordings);
    return Ok(groups);
  }

  /**
    What a successful run renders: sessions in ascending time, each one a
    non-empty run of recordings less than 90 seconds apart, each at least
    two minutes after the one before it, with distinct output names, and
    together exactly the sorted recordings (so every fragment is rendered
    once).
   */
  lemma CombinedSessions(entries: seq<Path>, groups: seq<seq<Recording>>)
    requires Locate(Discover(entries)).Ok?
    requires IsSessionSplit(SortByTime(Locate(Discover(entries)).value), groups)
    ensures multiset(Flatten(groups)) == multiset(Locate(Discover(entries)).value)
    ensures forall j1, j2, a, b :: 0 <= j1 < j2 < |groups| && 0 <= a < |groups[j1]| && 0 <= b < |groups[j2]| ==>
                                   Key(groups[j1][a]) + 2 <= Key(groups[j2][b])
    ensures forall j1, j2 :: 0 <= j1 < j2 < |groups| ==> Render.OutputName(groups[j1]) != Render.OutputName(groups[j2])
  {
    var recordings := Locate(Discover(entries)).value;
    LocatedAreValid(Discover(entries));
    SortSortsAndPermutes(recordings);
    SortKeepsValid(recordings);
    SessionsApart(SortByTime(recordings), groups);
    Render.OutputNamesDistinct(SortByTime(recordings), groups);
  }

  /** The fragment `record/20240101/10/<MM>.mp4`. */
  function At1000(minute: nat): Recording
  {
    Recording(["record", "20240101", "10", Decimal.Padded(minute, 2) + ".mp4"], Calendar.DateTime(2024, 1, 1, 10, minute))
  }

  lemma MinutesAt1000(minute: nat)
    ensures Key(At1000(minute)) == Key(At1000(0)) + minute
  {
  }

  function ExampleRecordings(): seq<Recording>
  {
    [At1000(0), At1000(1), At1000(2), At1000(5), At1000(6)]
  }

  function ExampleSessions(): seq<seq<Recording>>
  {
    [[At1000(0), At1000(1), At1000(2)], [At1000(5), At1000(6)]]
  }

  lemma ExampleGaps()
    ensures Chained(ExampleSessions()[0]) && Chained(ExampleSessions()[1])
    ensures !Near(Last(ExampleSessions()[0]), ExampleSessions()[1][0])
  {
    MinutesAt1000(1);
    MinutesAt1000(2);
    MinutesAt1000(5);
    MinutesAt1000(6);
  }

  lemma ExampleIsSplit()
    ensures IsSessionSplit(ExampleRecordings(), ExampleSessions())
  {
    var e := ExampleSessions();
    ExampleGaps();
    assert e[..1] == [e[0]];
    assert [e[0]][..0] == [];
    assert Flatten(e) == ExampleRecordings();
  }

  lemma ExampleYear()
    ensures Decimal.Padded(2024, 4) == "2024"
  {
    assert Decimal.Padded(2, 1) == "2";
    assert Decimal.Padded(20, 2) == "20";
    assert Decimal.Padded(202, 3) == "202";
  }

  lemma ExampleTwoDigits()
    ensures Decimal.Padded(1, 2) == "01" && Decimal.Padded(10, 2) == "10"
    ensures Decimal.Padded(0, 2) == "00" && Decimal.Padded(5, 2) == "05"
  {
    assert Decimal.Padded(0, 1) == "0" && Decimal.Padded(1, 1) == "1";
  }

  lemma NameAt1000(minute: nat)
    ensures Render.NameOf(At1000(minute).timestamp) == "20240101_10" + Decimal.Padded(minute, 2) + ".mkv"
  {
    ExampleYear();
    ExampleTwoDigits();
    var t := At1000(minute).timestamp;
    assert Render.NameOf(t) == "2024" + "01" + "01" + "_" + "10" + Decimal.Padded(minute, 2) + ".mkv";
  }

  lemma ExampleFirstName()
    ensures Render.NameOf(At1000(0).timestamp) == "20240101_1000.mkv"
  {
    NameAt1000(0);
    ExampleTwoDigits();
    assert "20240101_10" + "00" + ".mkv" == "20240101_1000.mkv";
  }

  lemma ExampleSecondName()
    ensures Render.NameOf(At1000(5).timestamp) == "20240101_1005.mkv"
  {
    NameAt1000(5);
    ExampleTwoDigits();
    assert "20240101_10" + "05" + ".mkv" == "20240101_1005.mkv";
  }

  /**
    Fragments at 10:00, 10:01, 10:02, 10:05 and 10:06 form exactly two
    sessions, rendered as `20240101_1000.mkv` and `20240101_1005.mkv`.
   */
  lemma TwoSessionsExample(groups: seq<seq<Recording>>)
    requires IsSessionSplit(ExampleRecordings(), groups)
    ensures groups == ExampleSessions()
    ensures Render.OutputName(groups[0]) == "20240101_1000.mkv"
    ensures Render.OutputName(groups[1]) == "20240101_1005.mkv"
  {
    ExampleIsSplit();
    SessionSplitIsUnique(ExampleRecordings(), groups, ExampleSessions());
    assert groups[0][0] == At1000(0) && groups[1][0] == At1000(5);
    Render.OutputNameOfFirst(groups[0]);
    Render.OutputNameOfFirst(groups[1]);
    ExampleFirstName();
    ExampleSecondName();
  }
}
