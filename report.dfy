/**
 * `GenerateReport`: `Output/<run date>/report.txt` holds a date line, a
 * count line and one identifier per `combined-*.txt` file found in the run
 * folder, each identifier re-extracted from that file's own name.
 */
module Report {
  import opened Text
  import opened StudentId
  import opened Layout
  import opened Grouping
  import opened Consolidation

  const DATE_LABEL: string := "Processing Date: "
  const COUNT_LABEL: string := "Total Combined Letters: "

  /** `p` is a file directly inside the run folder of `runDate`. */
  predicate InRunFolder(p: Path, runDate: string) {
    |p| == 4 && p[..3] == OutputDir(runDate)
  }

  /**
   * `names` is what `GetFiles(runFolder, "combined-*.txt")` returns for
   * `files`: every name once, each matching the pattern and present, and
   * every matching file of the folder listed.
   */
  predicate ListsCombined(names: seq<string>, files: map<Path, string>, runDate: string) {
    && (forall i, j :: 0 <= i < j < |names| ==> names[i] != names[j])
    && (forall n :: n in names ==> IsCombinedPattern(n) && OutputDir(runDate) + [n] in files)
    && (forall p :: p in files && InRunFolder(p, runDate) && IsCombinedPattern(p[3]) ==> p[3] in names)
  }

  /** Program.cs line 116 for each listed name in order; the pattern guarantees a '-'. */
  function ReportIds(names: seq<string>): (ids: seq<string>)
    requires forall n :: n in names ==> IsCombinedPattern(n)
    ensures |ids| == |names|
    ensures forall i :: 0 <= i < |names| ==> Extract(names[i]) == Some(ids[i])
  {
    if names == [] then []
    else
      var last := names[|names| - 1];
      PatternHasId(last);
      ReportIds(names[..|names| - 1]) + [Extract(last).value]
  }

  /** One more listed name adds its identifier as one more line. */
  lemma ReportLinesStep(head: seq<string>, names: seq<string>, k: int)
    requires forall n :: n in names ==> IsCombinedPattern(n)
    requires 0 <= k < |names|
    ensures Extract(names[k]).Some?
    ensures Lines(head + ReportIds(names[..k + 1])) == Lines(head + ReportIds(names[..k])) + Extract(names[k]).value + NEW_LINE
  {
    PatternHasId(names[k]);
    assert names[..k + 1][..k] == names[..k];
    var ids := ReportIds(names[..k]);
    assert head + ReportIds(names[..k + 1]) == head + ids + [Extract(names[k]).value];
    LinesSnoc(head + ids, Extract(names[k]).value);
  }

  /** The report's lines: date, count, then the identifiers. */
  function ReportLines(displayDate: string, names: seq<string>): (r: seq<string>)
    requires forall n :: n in names ==> IsCombinedPattern(n)
    ensures |r| == |names| + 2
    ensures forall i :: 0 <= i < |names| ==> Extract(names[i]) == Some(r[i + 2])
  {
    [DATE_LABEL + displayDate, COUNT_LABEL + DecimalString(|names|)] + ReportIds(names)
  }

  /** The text the report's `StreamWriter` produces. */
  function ReportText(displayDate: string, names: seq<string>): (r: string)
    requires forall n :: n in names ==> IsCombinedPattern(n)
    ensures |r| >= |names| + 2
    ensures r[|r| - 1] == '\n'
  {
    Lines(ReportLines(displayDate, names))
  }

  /** Neither label holds a line break. */
  lemma LabelsUnbroken()
    ensures '\n' !in DATE_LABEL && '\n' !in COUNT_LABEL
  {
  }

  /** An identifier holds only characters of its file name. */
  lemma IdUnbroken(names: seq<string>, i: int)
    requires forall n :: n in names ==> IsCombinedPattern(n) && '\n' !in n
    requires 0 <= i < |names|
    ensures '\n' !in ReportIds(names)[i]
  {
    assert Extract(names[i]) == Some(ReportIds(names)[i]);
  }

  /** Reading back a report written with any labels free of line breaks. */
  lemma LinesReadBack(dateLine: string, countLabel: string, names: seq<string>)
    requires '\n' !in dateLine && '\n' !in countLabel
    requires forall n :: n in names ==> IsCombinedPattern(n) && '\n' !in n
    ensures var lines := Split(Lines([dateLine, countLabel + DecimalString(|names|)] + ReportIds(names)), '\n');
      && |lines| == |names| + 3
      && lines[0] == dateLine
      && StartsWith(lines[1], countLabel)
      && DecimalValue(lines[1][|countLabel|..]) == |names|
      && (forall i :: 0 <= i < |names| ==> lines[i + 2] == ReportIds(names)[i])
      && lines[|names| + 2] == ""
  {
    var count := countLabel + DecimalString(|names|);
    var ids := ReportIds(names);
    var ls := [dateLine, count] + ids;
    assert '\n' !in count by {
      assert forall c :: c in DecimalString(|names|) ==> '0' <= c <= '9';
    }
    forall i | 0 <= i < |ls| ensures '\n' !in ls[i] {
      if i >= 2 {
        IdUnbroken(names, i - 2);
      }
    }
    SplitLines(ls);
    var lines := Split(Lines(ls), '\n');
    assert lines == ls + [""];
    assert lines[1] == count;
    assert count[..|countLabel|] == countLabel;
    assert count[|countLabel|..] == DecimalString(|names|);
    DecimalRoundTrip(|names|);
  }

  /**
   * Reading the report back: split at the terminator it has one line per
   * combined file plus the date and count lines; the count line reads back
   * as the number of combined files, and line 2 + i holds the identifier
   * extracted from the i-th listed name.
   */
  lemma ReportReadsBack(displayDate: string, names: seq<string>)
    requires '\n' !in displayDate
    requires forall n :: n in names ==> IsCombinedPattern(n) && '\n' !in n
    ensures var lines := Split(ReportText(displayDate, names), '\n');
      && |lines| == |names| + 3
      && lines[0] == DATE_LABEL + displayDate
      && StartsWith(lines[1], COUNT_LABEL)
      && DecimalValue(lines[1][|COUNT_LABEL|..]) == |names|
      && (forall i :: 0 <= i < |names| ==> Extract(names[i]) == Some(lines[i + 2]))
      && lines[|names| + 2] == ""
  {
    LabelsUnbroken();
    LinesReadBack(DATE_LABEL + displayDate, COUNT_LABEL, names);
    var ids := ReportIds(names);
    assert forall i :: 0 <= i < |names| ==> Extract(names[i]) == Some(ids[i]);
  }

  /** The keys whose bucket holds more than one letter, in key order. */
  function MergedKeys(g: Grouping): (r: seq<string>)
    ensures forall id :: id in r <==> id in g.keys && id in g.buckets && |g.buckets[id]| > 1
  {
    MultiKeys(g.keys, g.buckets)
  }

  function MultiKeys(keys: seq<string>, buckets: map<string, seq<Doc>>): (r: seq<string>)
    ensures forall id :: id in r <==> id in keys && id in buckets && |buckets[id]| > 1
    ensures (forall i, j :: 0 <= i < j < |keys| ==> keys[i] != keys[j]) ==>
              forall i, j :: 0 <= i < j < |r| ==> r[i] != r[j]
  {
    if keys == [] then []
    else
      var rest := MultiKeys(keys[1..], buckets);
      assert forall i, j :: 0 <= i < j < |keys[1..]| ==> keys[1..][i] == keys[i + 1] && keys[1..][j] == keys[j + 1];
      (if keys[0] in buckets && |buckets[keys[0]]| > 1 then [keys[0]] else []) + rest
  }

  /** A sequence without repeats has as many distinct elements as entries. */
  lemma {:induction false} DistinctCard<T>(s: seq<T>)
    requires forall i, j :: 0 <= i < j < |s| ==> s[i] != s[j]
    ensures |set x | x in s| == |s|
  {
    if s != [] {
      var n := |s|;
      var init := s[..n - 1];
      DistinctCard(init);
      assert s[n - 1] !in init;
      assert (set x | x in s) == (set x | x in init) + {s[n - 1]} by {
        assert s == init + [s[n - 1]];
      }
    }
  }

  /** The merged file names of a sequence of identifiers, in the same order. */
  function CombinedNames(ids: seq<string>): (r: seq<string>)
    ensures |r| == |ids|
    ensures forall i :: 0 <= i < |ids| ==> r[i] == CombinedName(ids[i])
  {
    if ids == [] then [] else [CombinedName(ids[0])] + CombinedNames(ids[1..])
  }

  /**
   * In a run folder that held no `combined-*.txt` file before the merge,
   * every name the listing returns was written by this run, for a merged
   * student.
   */
  lemma ListedAreMerged(src: map<Path, string>, g: Grouping, runDate: string, names: seq<string>)
    requires WellFormed(g)
    requires Readable(src, g.buckets)
    requires forall p :: p in src && InRunFolder(p, runDate) ==> !IsCombinedPattern(p[3])
    requires ListsCombined(names, WriteCombined(src, g.keys, g.buckets, runDate), runDate)
    ensures forall n :: n in names ==> IsCombinedPattern(n)
    ensures forall i :: 0 <= i < |names| ==>
      Merged(g.keys, g.buckets, ReportIds(names)[i]) && names[i] == CombinedName(ReportIds(names)[i])
  {
    forall i | 0 <= i < |names|
      ensures Merged(g.keys, g.buckets, ReportIds(names)[i]) && names[i] == CombinedName(ReportIds(names)[i])
    {
      ListedIsMerged(src, g, runDate, names, i);
    }
  }

  /**
   * In a run folder that held no `combined-*.txt` file before the merge,
   * the i-th name the listing returns is the merged file of the student it
   * names.
   */
  lemma ListedIsMerged(src: map<Path, string>, g: Grouping, runDate: string, names: seq<string>, i: int)
    requires WellFormed(g)
    requires Readable(src, g.buckets)
    requires forall p :: p in src && InRunFolder(p, runDate) ==> !IsCombinedPattern(p[3])
    requires ListsCombined(names, WriteCombined(src, g.keys, g.buckets, runDate), runDate)
    requires 0 <= i < |names|
    ensures IsCombinedPattern(names[i]) && Extract(names[i]).Some?
    ensures Merged(g.keys, g.buckets, Extract(names[i]).value) && names[i] == CombinedName(Extract(names[i]).value)
  {
    var p := OutputDir(runDate) + [names[i]];
    assert p[3] == names[i] && InRunFolder(p, runDate);
    assert p !in src;
    var id := WrittenFor(src, g, runDate, p);
    assert names[i] == CombinedName(id);
    CombinedNameRoundTrip(id);
    PatternHasId(names[i]);
  }

  /**
   * A merged file left in the run folder by an earlier run is listed again,
   * whether or not this run merged that student.
   */
  lemma EarlierMergeListed(src: map<Path, string>, g: Grouping, runDate: string, names: seq<string>, id: string)
    requires Readable(src, g.buckets)
    requires CombinedPath(runDate, id) in src
    requires ListsCombined(names, WriteCombined(src, g.keys, g.buckets, runDate), runDate)
    ensures CombinedName(id) in names
  {
    var p := CombinedPath(runDate, id);
    CombinedNameMatchesPattern(id);
    assert p[3] == CombinedName(id) && InRunFolder(p, runDate);
  }

  /** A path the merge pass adds belongs to a merged student. */
  lemma WrittenFor(src: map<Path, string>, g: Grouping, runDate: string, p: Path) returns (id: string)
    requires Readable(src, g.buckets)
    requires p in WriteCombined(src, g.keys, g.buckets, runDate) && p !in src
    ensures Merged(g.keys, g.buckets, id) && p == CombinedPath(runDate, id)
  {
    if forall x :: Merged(g.keys, g.buckets, x) ==> p != CombinedPath(runDate, x) {
      WriteCombinedUntouched(src, g.keys, g.buckets, runDate, p);
      assert false;
    }
    id :| Merged(g.keys, g.buckets, id) && p == CombinedPath(runDate, id);
  }

  /** Every merged student's file is among the names the listing returns. */
  lemma MergedAreListed(src: map<Path, string>, g: Grouping, runDate: string, names: seq<string>)
    requires WellFormed(g)
    requires Readable(src, g.buckets)
    requires ListsCombined(names, WriteCombined(src, g.keys, g.buckets, runDate), runDate)
    ensures forall id :: id in g.buckets && |g.buckets[id]| > 1 ==> CombinedName(id) in names
  {
    MergeRule(src, g, runDate);
    forall id | id in g.buckets && |g.buckets[id]| > 1 ensures CombinedName(id) in names {
      var p := CombinedPath(runDate, id);
      CombinedNameMatchesPattern(id);
      assert p[3] == CombinedName(id) && InRunFolder(p, runDate);
    }
  }

  /** Two repeat-free sequences of merged names with the same members have the same length. */
  lemma SameMergedCount(merged: seq<string>, names: seq<string>)
    requires forall i, j :: 0 <= i < j < |merged| ==> merged[i] != merged[j]
    requires forall i, j :: 0 <= i < j < |names| ==> names[i] != names[j]
    requires forall n :: n in names <==> exists id :: id in merged && n == CombinedName(id)
    ensures |names| == |merged|
  {
    var expected := CombinedNames(merged);
    forall i, j | 0 <= i < j < |expected| ensures expected[i] != expected[j] {
      if expected[i] == expected[j] { CombinedNameInjective(merged[i], merged[j]); }
    }
    assert (set x | x in expected) == (set x | x in names) by {
      forall x | x in expected ensures x in names {
        var k :| 0 <= k < |expected| && expected[k] == x;
        assert merged[k] in merged;
      }
      forall x | x in names ensures x in expected {
        var id :| id in merged && x == CombinedName(id);
        var k :| 0 <= k < |merged| && merged[k] == id;
        assert expected[k] == x;
      }
    }
    DistinctCard(expected);
    DistinctCard(names);
  }

  /** The listed names are exactly the merged students' names: the report then counts and lists them. */
  lemma ReportOfMergedNames(g: Grouping, names: seq<string>, ids: seq<string>)
    requires WellFormed(g)
    requires forall i, j :: 0 <= i < j < |names| ==> names[i] != names[j]
    requires |ids| == |names|
    requires forall i :: 0 <= i < |names| ==> Merged(g.keys, g.buckets, ids[i]) && names[i] == CombinedName(ids[i])
    requires forall id :: id in g.buckets && |g.buckets[id]| > 1 ==> CombinedName(id) in names
    ensures |names| == |MergedKeys(g)|
    ensures forall id :: id in ids <==> id in g.buckets && |g.buckets[id]| > 1
  {
    var merged := MergedKeys(g);
    forall id | id in g.buckets && |g.buckets[id]| > 1 ensures id in ids {
      var i :| 0 <= i < |names| && names[i] == CombinedName(id);
      CombinedNameInjective(id, ids[i]);
    }
    forall n ensures n in names <==> exists id :: id in merged && n == CombinedName(id) {
      if n in names {
        var i :| 0 <= i < |names| && names[i] == n;
        assert ids[i] in merged;
      }
    }
    SameMergedCount(merged, names);
  }

  /**
   * End to end: after the merge pass of a run whose folder held no
   * `combined-*.txt` file before, the report of that run counts exactly the
   * students with more than one letter and lists each of them once, under
   * the identifier their merged file was named after.
   */
  lemma ReportListsMergedStudents(src: map<Path, string>, g: Grouping, runDate: string, names: seq<string>)
    requires WellFormed(g)
    requires Readable(src, g.buckets)
    requires forall p :: p in src && InRunFolder(p, runDate) ==> !IsCombinedPattern(p[3])
    requires ListsCombined(names, WriteCombined(src, g.keys, g.buckets, runDate), runDate)
    ensures forall n :: n in names ==> IsCombinedPattern(n)
    ensures |names| == |MergedKeys(g)|
    ensures forall id :: id in ReportIds(names) <==> id in g.buckets && |g.buckets[id]| > 1
    ensures forall i :: 0 <= i < |names| ==> names[i] == CombinedName(ReportIds(names)[i])
  {
    ListedAreMerged(src, g, runDate, names);
    MergedAreListed(src, g, runDate, names);
    ReportOfMergedNames(g, names, ReportIds(names));
  }
}
