/**
  Session grouping (`combine`, second half): one pass over the sorted
  recordings that closes the current group whenever a recording starts
  90 seconds or more after the recording appended just before it.
 */
module Sessions {
  import opened Locator
  import opened Sorting

  /** `datetime.timedelta(minutes=1, seconds=30)`, in seconds. */
  const ThresholdSeconds: int := 90

  /**
    `next.timestamp - prev.timestamp < timedelta_threshold`. With whole-minute
    timestamps, the threshold admits a gap of at most one minute.
   */
  predicate Near(prev: Recording, next: Recording)
    ensures Near(prev, next) <==> Key(next) - Key(prev) <= 1
  {
    (Key(next) - Key(prev)) * 60 < ThresholdSeconds
  }

  function Last(g: seq<Recording>): Recording
    requires g != []
  {
    g[|g| - 1]
  }

  /** The groups one after another. */
  function Flatten(groups: seq<seq<Recording>>): seq<Recording>
  {
    if groups == [] then [] else Flatten(groups[..|groups| - 1]) + groups[|groups| - 1]
  }

  /** Every step inside `g` is below the threshold. */
  predicate Chained(g: seq<Recording>)
  {
    forall i :: 0 < i < |g| ==> Near(g[i - 1], g[i])
  }

  /** Non-empty groups, each chained, with a gap of at least the threshold between neighbours. */
  predicate WellSplit(groups: seq<seq<Recording>>)
  {
    && (forall j :: 0 <= j < |groups| ==> groups[j] != [] && Chained(groups[j]))
    && (forall j :: 0 < j < |groups| ==> !Near(Last(groups[j - 1]), groups[j][0]))
  }

  /** `groups` is a split of `s` into sessions. */
  predicate IsSessionSplit(s: seq<Recording>, groups: seq<seq<Recording>>)
  {
    Flatten(groups) == s && WellSplit(groups)
  }

  /** How many adjacent pairs of `s` are at least the threshold apart. */
  function BreakCount(s: seq<Recording>): nat
  {
    if |s| <= 1 then 0
    else BreakCount(s[..|s| - 1]) + (if Near(s[|s| - 2], s[|s| - 1]) then 0 else 1)
  }

  lemma FlattenAppend(groups: seq<seq<Recording>>, g: seq<Recording>)
    ensures Flatten(groups + [g]) == Flatten(groups) + g
  {
    assert (groups + [g])[..|groups|] == groups;
  }

  lemma ChainedAppend(g: seq<Recording>, r: Recording)
    requires g != [] && Chained(g) && Near(Last(g), r)
    ensures Chained(g + [r])
  {
  }

  lemma WellSplitAppend(groups: seq<seq<Recording>>, g: seq<Recording>)
    requires WellSplit(groups) && g != [] && Chained(g)
    requires groups != [] ==> !Near(Last(groups[|groups| - 1]), g[0])
    ensures WellSplit(groups + [g])
  {
  }

  lemma BreakCountStep(s: seq<Recording>, i: nat)
    requires 1 <= i < |s|
    ensures BreakCount(s[..i + 1]) == BreakCount(s[..i]) + (if Near(s[i - 1], s[i]) then 0 else 1)
  {
    assert s[..i + 1][..i] == s[..i];
  }

  /** The grouping loop's invariant after the first `i` recordings. */
  predicate Grouping(recordings: seq<Recording>, i: nat, groups: seq<seq<Recording>>, current: seq<Recording>)
  {
    && 1 <= i <= |recordings|
    && current != [] && Chained(current)
    && Flatten(groups) + current == recordings[..i]
    && Last(current) == recordings[i - 1]
    && WellSplit(groups)
    && (groups != [] ==> !Near(Last(groups[|groups| - 1]), current[0]))
    && |groups| == BreakCount(recordings[..i])
  }

  /** A recording close to the previous one joins the current group. */
  lemma GroupingExtend(recordings: seq<Recording>, i: nat, groups: seq<seq<Recording>>, current: seq<Recording>)
    requires Grouping(recordings, i, groups, current) && i < |recordings|
    requires Near(Last(current), recordings[i])
    ensures Grouping(recordings, i + 1, groups, current + [recordings[i]])
  {
    var r := recordings[i];
    var next := current + [r];
    assert recordings[..i + 1] == recordings[..i] + [r];
    assert Flatten(groups) + next == (Flatten(groups) + current) + [r];
    assert next[0] == current[0] && Last(next) == r;
    BreakCountStep(recordings, i);
    ChainedAppend(current, r);
  }

  /** A recording far from the previous one closes the current group and starts a new one. */
  lemma GroupingClose(recordings: seq<Recording>, i: nat, groups: seq<seq<Recording>>, current: seq<Recording>)
    requires Grouping(recordings, i, groups, current) && i < |recordings|
    requires !Near(Last(current), recordings[i])
    ensures Grouping(recordings, i + 1, groups + [current], [recordings[i]])
  {
    assert recordings[..i + 1] == recordings[..i] + [recordings[i]];
    BreakCountStep(recordings, i);
    WellSplitAppend(groups, current);
    FlattenAppend(groups, current);
  }

  /**
    The grouping loop. `groups` lists, in order, the arguments of the
    successive `render_group` calls.
   */
  method Partition(recordings: seq<Recording>) returns (groups: seq<seq<Recording>>)
    ensures IsSessionSplit(recordings, groups)
    ensures groups == [] <==> recordings == []
    ensures recordings != [] ==> |groups| == 1 + BreakCount(recordings)
  {
    groups := [];
    if |recordings| == 0 {
      return;
    }
    var current := [recordings[0]];
    assert Flatten(groups) + current == recordings[..1];
    for i := 1 to |recordings|
      invariant Grouping(recordings, i, groups, current)
    {
      var recording := recordings[i];
      if Near(current[|current| - 1], recording) {
        GroupingExtend(recordings, i, groups, current);
        current := current + [recording];
      } else {
        GroupingClose(recordings, i, groups, current);
        groups := groups + [current];
        current := [recording];
      }
    }
    assert recordings[..|recordings|] == recordings;
    WellSplitAppend(groups, current);
    FlattenAppend(groups, current);
    groups := groups + [current];
  }

  // ---------------------------------------------------------------------------
  // What a session split is

  lemma {:induction false} FlattenMember(groups: seq<seq<Recording>>, j: nat, a: nat)
    requires j < |groups| && a < |groups[j]|
    ensures groups[j][a] in Flatten(groups)
  {
    var init := groups[..|groups| - 1];
    if j < |groups| - 1 {
      assert init[j] == groups[j];
      FlattenMember(init, j, a);
    }
  }

  lemma FlattenLast(groups: seq<seq<Recording>>)
    requires groups != [] && groups[|groups| - 1] != []
    ensures Flatten(groups) != [] && Last(Flatten(groups)) == Last(groups[|groups| - 1])
  {
  }

  lemma WellSplitPrefix(groups: seq<seq<Recording>>)
    requires WellSplit(groups) && groups != []
    ensures WellSplit(groups[..|groups| - 1])
  {
  }

  lemma NoSessionsOfNothing(groups: seq<seq<Recording>>)
    requires WellSplit(groups) && Flatten(groups) == []
    ensures groups == []
  {
  }

  /** Where the last session of a split of `s` begins: after the last break of `s`. */
  lemma LastSessionStart(s: seq<Recording>, g1: seq<seq<Recording>>, g2: seq<seq<Recording>>)
    requires IsSessionSplit(s, g1) && IsSessionSplit(s, g2) && g1 != [] && g2 != []
    ensures |Flatten(g1[..|g1| - 1])| <= |Flatten(g2[..|g2| - 1])|
  {
    var i1, i2 := g1[..|g1| - 1], g2[..|g2| - 1];
    var l1, l2 := g1[|g1| - 1], g2[|g2| - 1];
    var p1, p2 := |Flatten(i1)|, |Flatten(i2)|;
    if p1 > p2 {
      assert s == Flatten(i1) + l1 && s == Flatten(i2) + l2;
      assert i1 != [];
      FlattenLast(i1);
      assert !Near(s[p1 - 1], s[p1]) by {
        assert Last(g1[|g1| - 2]) == s[p1 - 1];
      }
      assert false;
    }
  }

  /**
    The split into sessions is exact: a sequence has only one split into
    non-empty chained groups separated by gaps of at least the threshold.
   */
  lemma {:induction false} SessionSplitIsUnique(s: seq<Recording>, g1: seq<seq<Recording>>, g2: seq<seq<Recording>>)
    requires IsSessionSplit(s, g1) && IsSessionSplit(s, g2)
    ensures g1 == g2
    decreases |s|
  {
    if g1 == [] {
      NoSessionsOfNothing(g2);
    } else if g2 == [] {
      NoSessionsOfNothing(g1);
    } else {
      var i1, i2 := g1[..|g1| - 1], g2[..|g2| - 1];
      var l1, l2 := g1[|g1| - 1], g2[|g2| - 1];
      LastSessionStart(s, g1, g2);
      LastSessionStart(s, g2, g1);
      var p := |Flatten(i1)|;
      assert s == Flatten(i1) + l1 && s == Flatten(i2) + l2;
      assert Flatten(i1) == s[..p] == Flatten(i2);
      assert l1 == s[p..] == l2;
      WellSplitPrefix(g1);
      WellSplitPrefix(g2);
      SessionSplitIsUnique(s[..p], i1, i2);
      assert g1 == i1 + [l1] && g2 == i2 + [l2];
    }
  }

  lemma SortedPrefix(s: seq<Recording>, p: nat)
    requires Sorted(s) && p <= |s|
    ensures Sorted(s[..p]) && Sorted(s[p..])
  {
  }

  /** A recording of an earlier session is at least two minutes before any of the last session. */
  lemma BeforeLastSession(s: seq<Recording>, groups: seq<seq<Recording>>, j: nat, a: nat, b: nat)
    requires Sorted(s) && IsSessionSplit(s, groups)
    requires j < |groups| - 1 && a < |groups[j]| && b < |groups[|groups| - 1]|
    ensures Key(groups[j][a]) + 2 <= Key(groups[|groups| - 1][b])
  {
    var init, last := groups[..|groups| - 1], groups[|groups| - 1];
    var prefix := Flatten(init);
    var p := |prefix|;
    assert s == prefix + last;
    assert init[j] == groups[j];
    FlattenMember(init, j, a);
    var k :| 0 <= k < p && prefix[k] == groups[j][a];
    FlattenLast(init);
    assert s[k] == groups[j][a] && s[p - 1] == Last(groups[|groups| - 2]);
    assert s[p] == last[0] && s[p + b] == last[b];
    assert !Near(s[p - 1], s[p]);
  }

  /**
    On sorted input, sessions are time-disjoint and in ascending order: every
    recording of an earlier session is at least two minutes (so at least the
    90-second threshold) before every recording of a later one.
   */
  lemma {:induction false} SessionsApart(s: seq<Recording>, groups: seq<seq<Recording>>)
    requires Sorted(s) && IsSessionSplit(s, groups)
    ensures forall j1, j2, a, b :: 0 <= j1 < j2 < |groups| && 0 <= a < |groups[j1]| && 0 <= b < |groups[j2]| ==>
                                   Key(groups[j1][a]) + 2 <= Key(groups[j2][b])
  {
    if groups != [] {
      var init, last := groups[..|groups| - 1], groups[|groups| - 1];
      var prefix := Flatten(init);
      var p := |prefix|;
      assert s == prefix + last;
      assert prefix == s[..p] && last == s[p..];
      SortedPrefix(s, p);
      WellSplitPrefix(groups);
      SessionsApart(prefix, init);
      forall j1, j2, a, b | 0 <= j1 < j2 < |groups| && 0 <= a < |groups[j1]| && 0 <= b < |groups[j2]|
        ensures Key(groups[j1][a]) + 2 <= Key(groups[j2][b])
      {
        if j2 < |groups| - 1 {
          assert groups[j1] == init[j1] && groups[j2] == init[j2];
        } else {
          assert groups[j1] == init[j1];
          BeforeLastSession(s, groups, j1, a, b);
        }
      }
    }
  }
}
