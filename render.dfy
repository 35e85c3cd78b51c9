/**
  The two strings `render_group` builds before calling `ffmpeg`: the output
  file name and the concat manifest text.
 */
module Render {
  import opened Results
  import opened Decimal
  import opened Calendar
  import opened Locator
  import opened Sorting
  import opened Sessions

  const OutputExtension: string := ".mkv"

  /** `t.strftime("%Y%m%d_%H%M.mkv")`. */
  function NameOf(t: DateTime): (n: string)
    ensures |n| == 17 && n[8] == '_' && n[13..] == OutputExtension
  {
    Padded(t.year, 4) + Padded(t.month, 2) + Padded(t.day, 2) + "_" +
    Padded(t.hour, 2) + Padded(t.minute, 2) + OutputExtension
  }

  /** The output file name: it encodes the first recording's timestamp, and nothing else. */
  function OutputName(group: seq<Recording>): (n: string)
    requires group != []
    ensures Valid(group[0].timestamp) ==> ParseName(n) == Some(group[0].timestamp)
  {
    var t := group[0].timestamp;
    if Valid(t) then NameRoundTrip(t); NameOf(t) else NameOf(t)
  }

  lemma OutputNameOfFirst(group: seq<Recording>)
    requires group != []
    ensures OutputName(group) == NameOf(group[0].timestamp)
  {
  }

  /** Sessions that start at the same minute get the same name, however they go on. */
  lemma OutputNameIgnoresRest(g1: seq<Recording>, g2: seq<Recording>)
    requires g1 != [] && g2 != [] && g1[0].timestamp == g2[0].timestamp
    ensures OutputName(g1) == OutputName(g2)
  {
  }

  /** Reads a `YYYYMMDD_HHMM.mkv` name back into its fields. */
  function ParseName(name: string): Option<DateTime>
  {
    if |name| != 17 || name[8] != '_' || name[13..] != OutputExtension then None
    else
      var year, month, day := ParseInt(name[0..4]), ParseInt(name[4..6]), ParseInt(name[6..8]);
      var hour, minute := ParseInt(name[9..11]), ParseInt(name[11..13]);
      if year.Some? && month.Some? && day.Some? && hour.Some? && minute.Some?
      then Some(DateTime(year.value, month.value, day.value, hour.value, minute.value))
      else None
  }

  /** Reading a name back gives the timestamp it was made from. */
  lemma NameRoundTrip(t: DateTime)
    requires Valid(t)
    ensures ParseName(NameOf(t)) == Some(t)
  {
    var n := NameOf(t);
    assert n[0..4] == Padded(t.year, 4);
    assert n[4..6] == Padded(t.month, 2);
    assert n[6..8] == Padded(t.day, 2);
    assert n[9..11] == Padded(t.hour, 2);
    assert n[11..13] == Padded(t.minute, 2);
    assert 9999 < Pow10(4) && 99 < Pow10(2);
    ParsePadded(t.year, 4);
    ParsePadded(t.month, 2);
    ParsePadded(t.day, 2);
    ParsePadded(t.hour, 2);
    ParsePadded(t.minute, 2);
  }

  /** For a fragment in the camera's layout, the name repeats its date, hour and minute segments. */
  lemma NameMatchesCameraPath(t: DateTime)
    requires Valid(t)
    ensures var p, n := CameraPath(t), NameOf(t);
      n == p[0] + "_" + p[1] + DropExtension(p[2]) + OutputExtension
  {
  }

  /**
    Sessions of a sorted, valid split get pairwise distinct output names, so
    no render overwrites another's output (`ffmpeg -y` would).
   */
  lemma OutputNamesDistinct(s: seq<Recording>, groups: seq<seq<Recording>>)
    requires AllValid(s) && Sorted(s) && IsSessionSplit(s, groups)
    ensures forall j1, j2 :: 0 <= j1 < j2 < |groups| ==> OutputName(groups[j1]) != OutputName(groups[j2])
  {
    SessionsApart(s, groups);
    forall j1, j2 | 0 <= j1 < j2 < |groups| ensures OutputName(groups[j1]) != OutputName(groups[j2]) {
      var a, b := groups[j1][0].timestamp, groups[j2][0].timestamp;
      FlattenMember(groups, j1, 0);
      FlattenMember(groups, j2, 0);
      assert MinuteOf(a) < MinuteOf(b);
      NameRoundTrip(a);
      NameRoundTrip(b);
    }
  }

  // ---------------------------------------------------------------------------
  // The manifest

  /** `str(path)` of an absolute path. */
  function PathText(p: Path): (text: string)
    ensures p != [] ==> |text| > 0 && text[0] == '/'
    ensures (forall i :: 0 <= i < |p| ==> '\n' !in p[i]) ==> '\n' !in text
  {
    if p == [] then "" else PathText(p[..|p| - 1]) + "/" + p[|p| - 1]
  }

  /** `f"file '{r.path}'"`: one line of the concat manifest. */
  function ManifestLine(r: Recording): (line: string)
    ensures |line| == |PathText(r.path)| + 7
    ensures line[..6] == "file '" && line[6..|line| - 1] == PathText(r.path) && line[|line| - 1] == '\''
    ensures '\n' !in PathText(r.path) ==> '\n' !in line
  {
    "file '" + PathText(r.path) + "'"
  }

  /** `"\n".join(lines)`. */
  function JoinLines(lines: seq<string>): string
  {
    if lines == [] then ""
    else if |lines| == 1 then lines[0]
    else lines[0] + "\n" + JoinLines(lines[1..])
  }

  /** `text.split("\n")`. */
  function SplitLines(text: string): (lines: seq<string>)
    ensures |lines| >= 1
  {
    if text == [] then [""]
    else
      var rest := SplitLines(text[1..]);
      if text[0] == '\n' then [""] + rest else [[text[0]] + rest[0]] + rest[1..]
  }

  function ManifestLines(group: seq<Recording>): (lines: seq<string>)
    ensures |lines| == |group|
    ensures forall i :: 0 <= i < |group| ==> lines[i] == ManifestLine(group[i])
  {
    if group == [] then [] else [ManifestLine(group[0])] + ManifestLines(group[1..])
  }

  /** The manifest text written to the temporary file. */
  function Manifest(group: seq<Recording>): (text: string)
    ensures group == [] <==> text == ""
    ensures group != [] ==> |text| >= |ManifestLine(group[0])| && text[..|ManifestLine(group[0])|] == ManifestLine(group[0])
  {
    JoinLines(ManifestLines(group))
  }

  lemma {:induction false} SplitSingle(line: string)
    requires '\n' !in line
    ensures SplitLines(line) == [line]
  {
    if line != [] {
      SplitSingle(line[1..]);
      assert [line[0]] + line[1..] == line;
    }
  }

  lemma {:induction false} SplitAfter(line: string, rest: string)
    requires '\n' !in line
    ensures SplitLines(line + "\n" + rest) == [line] + SplitLines(rest)
  {
    if line == [] {
      assert line + "\n" + rest == "\n" + rest;
      assert ("\n" + rest)[1..] == rest;
    } else {
      var t := line + "\n" + rest;
      assert t[1..] == line[1..] + "\n" + rest;
      SplitAfter(line[1..], rest);
      assert [line[0]] + line[1..] == line;
    }
  }

  /** Splitting joined lines at the newlines gives the lines back, when none holds a newline. */
  lemma {:induction false} SplitJoin(lines: seq<string>)
    requires lines != []
    requires forall i :: 0 <= i < |lines| ==> '\n' !in lines[i]
    ensures SplitLines(JoinLines(lines)) == lines
  {
    if |lines| == 1 {
      SplitSingle(lines[0]);
    } else {
      SplitJoin(lines[1..]);
      SplitAfter(lines[0], JoinLines(lines[1..]));
    }
  }

  /**
    The manifest has exactly one `file '<path>'` line per recording, in
    session order, joined by single newlines and with no trailing newline.
   */
  lemma ManifestHasOneLinePerRecording(group: seq<Recording>)
    requires group != []
    requires forall r, k :: r in group && 0 <= k < |r.path| ==> '\n' !in r.path[k]
    ensures SplitLines(Manifest(group)) == ManifestLines(group)
    ensures Manifest(group)[|Manifest(group)| - 1] == '\''
  {
    var lines := ManifestLines(group);
    forall i | 0 <= i < |lines| ensures '\n' !in lines[i] {
      assert group[i] in group;
    }
    SplitJoin(lines);
    JoinEndsLikeLastLine(lines);
  }

  lemma {:induction false} JoinEndsLikeLastLine(lines: seq<string>)
    requires lines != [] && lines[|lines| - 1] != []
    ensures var text := JoinLines(lines);
      |text| > 0 && text[|text| - 1] == lines[|lines| - 1][|lines[|lines| - 1]| - 1]
  {
    if |lines| > 1 {
      JoinEndsLikeLastLine(lines[1..]);
    }
  }
}
