/**
 * String and path helpers of the online monitor: trailing directory
 * separators, zero-padded run-number file names, the comma-separated run
 * tags, the "json" reference test, and the run-log line built from `ctime`
 * text.
 */
module OnlineMonitor {
  import opened Common
  import Decimal
  import Text

  const DirSeparator: char := '/'

  // ---------------------------------------------------------------------
  // Directory separators

  /**
   * A directory name ending in exactly the separator it had, or one more:
   * the separator is appended only when the last character differs, and an
   * empty name (the current directory) stays empty.
   */
  function WithTrailingSeparator(dir: string): (r: string)
    ensures dir == [] ==> r == []
    ensures dir != [] ==> |r| > 0 && r[|r| - 1] == DirSeparator
    ensures |dir| <= |r| <= |dir| + 1 && r[..|dir|] == dir
    ensures dir != [] && dir[|dir| - 1] == DirSeparator ==> r == dir
  {
    if dir != [] && dir[|dir| - 1] != DirSeparator then dir + [DirSeparator] else dir
  }

  lemma WithTrailingSeparatorIdempotent(dir: string)
    ensures WithTrailingSeparator(WithTrailingSeparator(dir)) == WithTrailingSeparator(dir)
  {
  }

  /**
   * The unguarded test `str[strlen(str) - 1] != DIR_SEPARATOR`: on an empty
   * name it reads the byte before the buffer, `before`, and appends the
   * separator unless that byte happens to be one.
   */
  function WithTrailingSeparatorAsWritten(dir: string, before: char): (r: string)
    ensures dir != [] ==> r == WithTrailingSeparator(dir)
    ensures dir == [] ==> (r == [DirSeparator] <==> before != DirSeparator)
  {
    var last := if dir == [] then before else dir[|dir| - 1];
    if last != DirSeparator then dir + [DirSeparator] else dir
  }

  /** An empty directory setting becomes the file-system root under the unguarded test. */
  lemma EmptyDirectoryBecomesRoot()
    ensures WithTrailingSeparatorAsWritten("", 'x') == "/"
    ensures WithTrailingSeparator("") == ""
  {
  }

  /** The run-log file of `ana_end_of_run`: in the data directory, or the current one when that is empty. */
  function RunLogPath(dataDir: string): (path: string)
    ensures dataDir == [] ==> path == "runlog.txt"
    ensures dataDir != [] && dataDir[|dataDir| - 1] == DirSeparator ==> path == dataDir + "runlog.txt"
    ensures dataDir != [] && dataDir[|dataDir| - 1] != DirSeparator ==> path == dataDir + "/runlog.txt"
  {
    WithTrailingSeparator(dataDir) + "runlog.txt"
  }

  // ---------------------------------------------------------------------
  // Run-number names

  /** `%05d` / `%05i` of a run number. */
  function Run5(run: int): (r: string)
    ensures Decimal.ParseInt(r) == Some(run)
    ensures |r| >= 5
    ensures 0 <= run ==> Decimal.AllDigits(r)
    ensures 0 <= run < 100000 ==> |r| == 5
  {
    Decimal.ParseZeroPadded(run, 5);
    if 0 <= run < 100000 then Decimal.NatToStringLength(run, 5); Decimal.ZeroPadded(run, 5)
    else Decimal.ZeroPadded(run, 5)
  }

  /** A name laid out as a directory, a fixed stem, the run number and a suffix. */
  lemma NameShape(dir: string, stem: string, num: string, suffix: string)
    ensures var r := dir + stem + num + suffix;
      && |r| == |dir| + |stem| + |num| + |suffix|
      && r[..|dir|] == dir && r[|dir|..|dir| + |stem|] == stem && r[|r| - |suffix|..] == suffix
  {
    var r := dir + stem + num + suffix;
    assert r[..|dir|] == dir;
    assert r[|dir|..|dir| + |stem|] == stem;
    assert r[|r| - |suffix|..] == suffix;
  }

  /** The sis3302 file: the stem follows the directory with no separator of its own. */
  function Sis3302File(dataDir: string, run: int): (r: string)
    ensures |r| >= |dataDir| + 20
    ensures r[..|dataDir|] == dataDir && r[|dataDir|..|dataDir| + 15] == "fe_sis3302_run_"
    ensures r[|r| - 5..] == ".root"
  {
    NameShape(dataDir, "fe_sis3302_run_", Run5(run), ".root");
    dataDir + "fe_sis3302_run_" + Run5(run) + ".root"
  }

  function Sis3316File(dataDir: string, run: int): (r: string)
    ensures |r| >= |dataDir| + 21
    ensures r[..|dataDir|] == dataDir && r[|dataDir|..|dataDir| + 16] == "/fe_sis3316_run_"
    ensures r[|r| - 5..] == ".root"
  {
    NameShape(dataDir, "/fe_sis3316_run_", Run5(run), ".root");
    dataDir + "/fe_sis3316_run_" + Run5(run) + ".root"
  }

  function MergedFile(dataDir: string, run: int): (r: string)
    ensures |r| >= |dataDir| + 10
    ensures r[..|dataDir|] == dataDir && r[|dataDir|..|dataDir| + 5] == "/run_"
    ensures r[|r| - 5..] == ".root"
  {
    NameShape(dataDir, "/run_", Run5(run), ".root");
    dataDir + "/run_" + Run5(run) + ".root"
  }

  function ConfigArchiveFile(histDir: string, run: int): (r: string)
    ensures |r| >= |histDir| + 15
    ensures r[..|histDir|] == histDir && r[|histDir|..|histDir| + 3] == "run"
    ensures r[|r| - 12..] == "_config.json"
  {
    NameShape(histDir, "run", Run5(run), "_config.json");
    histDir + "run" + Run5(run) + "_config.json"
  }

  /**
   * Where the merge and archive loops put their files: the name functions are
   * given the directory after the unguarded separator step, so the sis3302
   * and config-archive names have one separator before their stem, while the
   * sis3316 and merged names, which add one of their own, have two.
   */
  lemma DataFileSeparators(d: string, before: char, run: int)
    ensures var w := WithTrailingSeparatorAsWritten(d, before);
      && (w != [] <==> d != [] || before != DirSeparator)
      && (w != [] ==>
            && w[|w| - 1] == DirSeparator
            && Sis3302File(w, run)[|w| - 1..|w| + 1] == "/f"
            && ConfigArchiveFile(w, run)[|w| - 1..|w| + 1] == "/r"
            && Sis3316File(w, run)[|w| - 1..|w| + 1] == "//"
            && MergedFile(w, run)[|w| - 1..|w| + 1] == "//")
  {
    var w := WithTrailingSeparatorAsWritten(d, before);
    if w != [] {
      NamesAfterSeparator(w, run);
    }
  }

  lemma NamesAfterSeparator(w: string, run: int)
    requires w != [] && w[|w| - 1] == DirSeparator
    ensures Sis3302File(w, run)[|w| - 1..|w| + 1] == "/f"
    ensures ConfigArchiveFile(w, run)[|w| - 1..|w| + 1] == "/r"
    ensures Sis3316File(w, run)[|w| - 1..|w| + 1] == "//"
    ensures MergedFile(w, run)[|w| - 1..|w| + 1] == "//"
  {
    SeparatorBeforeStem(w, Sis3302File(w, run), 'f');
    SeparatorBeforeStem(w, ConfigArchiveFile(w, run), 'r');
    SeparatorBeforeStem(w, Sis3316File(w, run), '/');
    SeparatorBeforeStem(w, MergedFile(w, run), '/');
  }

  lemma SeparatorBeforeStem(w: string, name: string, c: char)
    requires 0 < |w| < |name| && w[|w| - 1] == DirSeparator
    requires name[..|w|] == w && name[|w|] == c
    ensures name[|w| - 1..|w| + 1] == [DirSeparator, c]
  {
    assert name[|w| - 1] == name[..|w|][|w| - 1];
  }

  function RunLogKey(run: int): (r: string)
    ensures |r| >= 9 && r[..4] == "run_"
    ensures Decimal.ParseInt(r[4..]) == Some(run)
  {
    "run_" + Run5(run)
  }

  /** The run number is recoverable from every name built from it, so distinct runs get distinct names. */
  lemma RunNamesEncodeRun(dir: string, run: int)
    ensures var n := Sis3302File(dir, run); Decimal.ParseInt(n[|dir| + 15..|n| - 5]) == Some(run)
    ensures var n := Sis3316File(dir, run); Decimal.ParseInt(n[|dir| + 16..|n| - 5]) == Some(run)
    ensures var n := MergedFile(dir, run); Decimal.ParseInt(n[|dir| + 5..|n| - 5]) == Some(run)
    ensures var n := ConfigArchiveFile(dir, run); Decimal.ParseInt(n[|dir| + 3..|n| - 12]) == Some(run)
    ensures Decimal.ParseInt(RunLogKey(run)[4..]) == Some(run)
  {
    var r := Run5(run);
    var a := Sis3302File(dir, run);
    assert a[|dir| + 15..|a| - 5] == r;
    var b := Sis3316File(dir, run);
    assert b[|dir| + 16..|b| - 5] == r;
    var c := MergedFile(dir, run);
    assert c[|dir| + 5..|c| - 5] == r;
    var d := ConfigArchiveFile(dir, run);
    assert d[|dir| + 3..|d| - 12] == r;
    assert RunLogKey(run)[4..] == r;
  }

  lemma MergedFilesDistinct(dir: string, r1: int, r2: int)
    requires r1 != r2
    ensures MergedFile(dir, r1) != MergedFile(dir, r2)
    ensures RunLogKey(r1) != RunLogKey(r2)
  {
    RunNamesEncodeRun(dir, r1);
    RunNamesEncodeRun(dir, r2);
  }

  // ---------------------------------------------------------------------
  // Run tags

  /**
   * The fields `std::getline(ss, tag, ',')` extracts: the text between
   * commas, in order, keeping empty interior fields, with no field after a
   * trailing comma and none at all for an empty string.
   */
  function SplitTags(s: string): (tags: seq<string>)
    ensures s == [] <==> tags == []
    ensures forall k :: 0 <= k < |tags| ==> ',' !in tags[k]
    decreases |s|
  {
    if s == [] then []
    else
      match Text.FindFirst(s, ",")
      case None =>
        CommaFreePrefix(s, |s|);
        [s]
      case Some(i) =>
        CommaFreePrefix(s, i);
        [s[..i]] + SplitTags(s[i + 1..])
  }

  lemma CommaFreePrefix(s: string, n: nat)
    requires n <= |s|
    requires forall j :: 0 <= j < n ==> !Text.OccursAt(s, ",", j)
    ensures ',' !in s[..n]
  {
    forall j | 0 <= j < n ensures s[j] != ',' {
      assert !Text.OccursAt(s, ",", j);
      assert s[j..j + 1] == [s[j]];
    }
  }

  /** A trailing comma, which `getline` drops. */
  function TrailingComma(s: string): string {
    if s != [] && s[|s| - 1] == ',' then "," else ""
  }

  /** Joining the tags with commas gives back the string, up to a dropped trailing comma. */
  lemma {:induction false} JoinSplitTags(s: string)
    ensures Text.Join(SplitTags(s), ",") + TrailingComma(s) == s
    decreases |s|
  {
    if s != [] {
      var f := Text.FindFirst(s, ",");
      if f.None? {
        JoinSingleTag(s);
      } else {
        var i := f.value;
        var rest := s[i + 1..];
        JoinSplitTags(rest);
        JoinAfterFirstComma(s, i, rest);
      }
    }
  }

  lemma JoinSingleTag(s: string)
    requires s != [] && Text.FindFirst(s, ",").None?
    ensures Text.Join(SplitTags(s), ",") + TrailingComma(s) == s
  {
    assert !Text.OccursAt(s, ",", |s| - 1);
    assert s[|s| - 1..|s|] == [s[|s| - 1]];
    assert SplitTags(s) == [s];
  }

  lemma JoinAfterFirstComma(s: string, i: nat, rest: string)
    requires s != [] && Text.FindFirst(s, ",") == Some(i) && rest == s[i + 1..]
    requires Text.Join(SplitTags(rest), ",") + TrailingComma(rest) == rest
    ensures Text.Join(SplitTags(s), ",") + TrailingComma(s) == s
  {
    var head := s[..i];
    CommaAt(s, i);
    SplitTagsAtComma(s, i);
    if rest == [] {
      JoinLastComma(s, head);
    } else {
      JoinInteriorComma(s, head, rest);
    }
  }

  lemma CommaAt(s: string, i: nat)
    requires Text.OccursAt(s, ",", i)
    ensures s == s[..i] + "," + s[i + 1..]
  {
    assert s[i..i + 1] == ",";
    assert s == s[..i] + s[i..i + 1] + s[i + 1..];
  }

  lemma JoinLastComma(s: string, head: string)
    requires s == head + "," + [] && SplitTags(s) == [head] + SplitTags([])
    ensures Text.Join(SplitTags(s), ",") + TrailingComma(s) == s
  {
    assert SplitTags(s) == [head];
    assert s[|s| - 1] == ',';
  }

  lemma JoinInteriorComma(s: string, head: string, rest: string)
    requires rest != [] && s == head + "," + rest && SplitTags(s) == [head] + SplitTags(rest)
    requires Text.Join(SplitTags(rest), ",") + TrailingComma(rest) == rest
    ensures Text.Join(SplitTags(s), ",") + TrailingComma(s) == s
  {
    var tags := SplitTags(rest);
    assert TrailingComma(s) == TrailingComma(rest) by {
      assert s[|s| - 1] == rest[|rest| - 1];
    }
    Text.JoinCons(head, tags, ",");
    Regroup(head, Text.Join(tags, ","), TrailingComma(rest), rest);
  }

  lemma Regroup(head: string, body: string, tail: string, rest: string)
    requires body + tail == rest
    ensures (head + "," + body) + tail == head + "," + rest
  {
  }

  lemma SplitTagsAtComma(s: string, i: nat)
    requires s != [] && Text.FindFirst(s, ",") == Some(i)
    ensures SplitTags(s) == [s[..i]] + SplitTags(s[i + 1..])
  {
  }

  /** Comma-free tags whose last one is non-empty survive a join and a split unchanged. */
  lemma {:induction false} SplitJoinTags(tags: seq<string>)
    requires forall k :: 0 <= k < |tags| ==> ',' !in tags[k]
    requires tags != [] ==> tags[|tags| - 1] != []
    ensures SplitTags(Text.Join(tags, ",")) == tags
    decreases |tags|
  {
    if |tags| == 1 {
      Text.AbsentFirstChar(tags[0], ",");
    } else if |tags| > 1 {
      var rest := Text.Join(tags[1..], ",");
      var s := tags[0] + "," + rest;
      assert Text.Join(tags, ",") == s;
      Text.FirstOccurrenceAfter(tags[0], ",", rest);
      assert s[..|tags[0]|] == tags[0];
      assert s[|tags[0]| + 1..] == rest;
      JoinNonEmpty(tags[1..]);
      SplitJoinTags(tags[1..]);
    }
  }

  lemma {:induction false} JoinNonEmpty(tags: seq<string>)
    requires tags != [] && tags[|tags| - 1] != []
    ensures Text.Join(tags, ",") != []
    decreases |tags|
  {
    if |tags| > 1 {
      JoinNonEmpty(tags[1..]);
    }
  }

  // ---------------------------------------------------------------------
  // Config references

  /** A config value is followed as a file reference exactly when it contains "json". */
  function IsJsonReference(value: string): (r: bool)
    ensures r <==> exists i :: Text.OccursAt(value, "json", i)
  {
    Text.HasInfix(value, "json")
  }

  // ---------------------------------------------------------------------
  // The run-log line

  /** The broken-down time `ctime` prints. */
  datatype CalendarTime = CalendarTime(weekday: string, month: string, day: int, hour: int, minute: int, second: int, year: int)

  predicate ValidTime(t: CalendarTime) {
    && |t.weekday| == 3 && |t.month| == 3
    && 1 <= t.day <= 31 && 0 <= t.hour < 24 && 0 <= t.minute < 60 && 0 <= t.second <= 60
  }

  function TwoDigits(n: int): (r: string)
    requires 0 <= n < 100
    ensures |r| == 2
  {
    Decimal.NatToStringLength(n, 2);
    Decimal.ZeroPadded(n, 2)
  }

  function DayField(day: int): (r: string)
    requires 1 <= day <= 31
    ensures |r| == 3
  {
    Decimal.NatToStringLength(day, 2);
    Decimal.SpacePadded(day, 3)
  }

  /** `ctime` text: `"%.3s %.3s%3d %.2d:%.2d:%.2d %d\n"`. */
  function Ctime(t: CalendarTime): (r: string)
    requires ValidTime(t)
    ensures |r| >= 22 && r[|r| - 1] == '\n'
  {
    t.weekday + " " + t.month + DayField(t.day) + " "
      + TwoDigits(t.hour) + ":" + TwoDigits(t.minute) + ":" + TwoDigits(t.second)
      + " " + Decimal.IntToString(t.year) + "\n"
  }

  /** The date cut out of `ctime` text by terminating it after ten characters. */
  function DateOf(s: string): string
    requires |s| >= 10
  {
    s[..10]
  }

  /** The clock time cut out of `ctime` text: characters 11 through 18. */
  function ClockOf(s: string): string
    requires |s| >= 19
  {
    s[11..19]
  }

  /** Slicing `ctime` text yields exactly its weekday-month-day and its hh:mm:ss. */
  lemma CtimeSlices(t: CalendarTime)
    requires ValidTime(t)
    ensures |Ctime(t)| >= 19
    ensures DateOf(Ctime(t)) == t.weekday + " " + t.month + DayField(t.day)
    ensures ClockOf(Ctime(t)) == TwoDigits(t.hour) + ":" + TwoDigits(t.minute) + ":" + TwoDigits(t.second)
  {
    var date := t.weekday + " " + t.month + DayField(t.day);
    var clock := TwoDigits(t.hour) + ":" + TwoDigits(t.minute) + ":" + TwoDigits(t.second);
    var tail := " " + Decimal.IntToString(t.year) + "\n";
    CtimeShape(t.weekday, t.month, DayField(t.day), TwoDigits(t.hour), TwoDigits(t.minute), TwoDigits(t.second),
               Decimal.IntToString(t.year));
    SliceShape(date, clock, tail);
  }

  lemma CtimeShape(w: string, m: string, d: string, h: string, mi: string, se: string, y: string)
    ensures w + " " + m + d + " " + h + ":" + mi + ":" + se + " " + y + "\n"
         == (w + " " + m + d) + " " + (h + ":" + mi + ":" + se) + (" " + y + "\n")
  {
  }

  lemma SliceShape(date: string, clock: string, tail: string)
    requires |date| == 10 && |clock| == 8
    ensures |date + " " + clock + tail| >= 19
    ensures (date + " " + clock + tail)[..10] == date
    ensures (date + " " + clock + tail)[11..19] == clock
  {
    var s := date + " " + clock + tail;
    assert s[..10] == date;
    assert s[11..19] == clock;
  }


  /**
   * The line `ana_end_of_run` appends: end date, run number (`%3d`), start
   * and end clock times, thousands of events, and the comment.
   */
  function RunLogLine(endText: string, run: int, startText: string, kiloEvents: int, comment: string): (r: string)
    requires |endText| >= 19 && |startText| >= 19
    ensures |r| >= 11 && r[..10] == DateOf(endText) && r[10] == '\t'
    ensures r[|r| - 1] == '\n'
  {
    DateOf(endText) + "\t" + Decimal.SpacePadded(run, 3) + "\t"
      + ClockOf(startText) + "\t" + ClockOf(endText) + "\t"
      + Decimal.IntToString(kiloEvents) + "k\t" + comment + "\n"
  }

  /** The run log is appended to only when data is written and the run is online. */
  function RunLogEntry(writeData: bool, onlineMode: int, dataDir: string,
                       endText: string, run: int, startText: string, kiloEvents: int, comment: string): (r: Option<(string, string)>)
    requires |endText| >= 19 && |startText| >= 19
    ensures r.Some? <==> writeData && onlineMode == 1
    ensures r.Some? ==> r.value.0 == RunLogPath(dataDir)
  {
    if writeData && onlineMode == 1 then
      Some((RunLogPath(dataDir), RunLogLine(endText, run, startText, kiloEvents, comment)))
    else None
  }

  /** A reader splitting a run-log line at tabs recovers its six columns. */
  lemma RunLogColumns(endText: string, run: int, startText: string, kiloEvents: int, comment: string)
    requires |endText| >= 19 && |startText| >= 19
    requires '\t' !in endText && '\t' !in startText && '\t' !in comment
    ensures Text.Split(RunLogLine(endText, run, startText, kiloEvents, comment), "\t") ==
      [DateOf(endText), Decimal.SpacePadded(run, 3), ClockOf(startText), ClockOf(endText),
       Decimal.IntToString(kiloEvents) + "k", comment + "\n"]
  {
    var a, b, c, d := DateOf(endText), Decimal.SpacePadded(run, 3), ClockOf(startText), ClockOf(endText);
    var k, m := Decimal.IntToString(kiloEvents), comment;
    SliceHasNoTab(endText, 0, 10);
    SliceHasNoTab(startText, 11, 19);
    SliceHasNoTab(endText, 11, 19);
    NumberHasNoTab(run, 3);
    IntHasNoTab(kiloEvents);
    LineShape(a, b, c, d, k, m);
    JoinSix(a, b, c, d, k + "k", m + "\n", "\t");
    ColumnsTabFree(a, b, c, d, k, m);
    Text.SplitJoin([a, b, c, d, k + "k", m + "\n"], "\t");
  }

  lemma SliceHasNoTab(s: string, lo: nat, hi: nat)
    requires lo <= hi <= |s| && '\t' !in s
    ensures '\t' !in s[lo..hi]
  {
    assert forall c :: c in s[lo..hi] ==> c in s;
  }

  lemma LineShape(a: string, b: string, c: string, d: string, k: string, m: string)
    ensures a + "\t" + b + "\t" + c + "\t" + d + "\t" + k + "k\t" + m + "\n"
         == a + "\t" + b + "\t" + c + "\t" + d + "\t" + (k + "k") + "\t" + (m + "\n")
  {
    assert k + "k\t" == (k + "k") + "\t";
  }

  lemma ColumnsTabFree(a: string, b: string, c: string, d: string, k: string, m: string)
    requires '\t' !in a && '\t' !in b && '\t' !in c && '\t' !in d && '\t' !in k && '\t' !in m
    ensures var cols := [a, b, c, d, k + "k", m + "\n"];
      forall i :: 0 <= i < |cols| ==> "\t"[0] !in cols[i]
  {
    var cols := [a, b, c, d, k + "k", m + "\n"];
    assert '\t' !in k + "k";
    assert '\t' !in m + "\n";
    forall i | 0 <= i < |cols| ensures "\t"[0] !in cols[i] {
    }
  }

  lemma JoinSix(a: string, b: string, c: string, d: string, e: string, f: string, sep: string)
    ensures Text.Join([a, b, c, d, e, f], sep) == a + sep + b + sep + c + sep + d + sep + e + sep + f
  {
    assert Text.Join([f], sep) == f;
    Text.JoinCons(e, [f], sep);
    assert [e] + [f] == [e, f];
    Text.JoinCons(d, [e, f], sep);
    assert [d] + [e, f] == [d, e, f];
    Text.JoinCons(c, [d, e, f], sep);
    assert [c] + [d, e, f] == [c, d, e, f];
    Text.JoinCons(b, [c, d, e, f], sep);
    assert [b] + [c, d, e, f] == [b, c, d, e, f];
    Text.JoinCons(a, [b, c, d, e, f], sep);
    assert [a] + [b, c, d, e, f] == [a, b, c, d, e, f];
  }

  lemma IntHasNoTab(n: int)
    ensures '\t' !in Decimal.IntToString(n)
  {
    var m: nat := if n < 0 then -n else n;
    var digits := Decimal.NatToString(m);
    assert forall i :: 0 <= i < |digits| ==> Decimal.IsDigit(digits[i]);
    if n < 0 {
      assert Decimal.IntToString(n) == "-" + digits;
    }
  }

  lemma NumberHasNoTab(n: int, width: nat)
    ensures '\t' !in Decimal.SpacePadded(n, width)
  {
    IntHasNoTab(n);
    var s := Decimal.IntToString(n);
    var r := Decimal.SpacePadded(n, width);
    assert r == Decimal.PadLeft(s, ' ', width);
    assert forall i :: 0 <= i < |r| - |s| ==> r[i] == ' ';
    assert r[|r| - |s|..] == s;
    forall i | 0 <= i < |r| ensures r[i] != '\t' {
      if i >= |r| - |s| {
        assert r[i] == s[i - (|r| - |s|)];
      }
    }
  }
}
