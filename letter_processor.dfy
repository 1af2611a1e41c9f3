/**
 * The letter processor itself: the disk it works on as two fields it
 * updates in place, and its three phases as methods. Each method is proved
 * against the specification functions of its phase; what those functions
 * guarantee is proved in the phase modules.
 */
module Processor {
  import opened Text
  import opened StudentId
  import opened Layout
  import opened Grouping
  import opened Consolidation
  import opened Report
  import opened Archive

  class LetterProcessor {
    /** Every file under `CombinedLetters`, with its text. */
    var files: map<Path, string>
    /** Every directory. */
    var dirs: set<Path>

    constructor(files0: map<Path, string>, dirs0: set<Path>)
      ensures files == files0 && dirs == dirs0
    {
      files := files0;
      dirs := dirs0;
    }

    /**
     * Program.cs lines 52-100. Walks `listing` (what `GetDirectories`/`GetFiles` return
     * for the input tree) bucketing every `*.txt` letter by student, then
     * creates `Output/<runDate>` and writes `combined-<id>.txt` for every
     * student with more than one letter. A missing Input folder or a letter
     * name without '-' aborts before anything is written.
     */
    method CombineLetters(listing: seq<Category>, runDate: string) returns (outcome: Outcome)
      requires Describes(listing, files)
      modifies this
      ensures InputDir() !in old(dirs) ==>
        outcome == Fail(InputRootMissing) && files == old(files) && dirs == old(dirs)
      ensures InputDir() in old(dirs) && GroupLetters(Discovered(listing)).Malformed? ==>
        && outcome == Fail(MalformedName(GroupLetters(Discovered(listing)).letter))
        && files == old(files) && dirs == old(dirs)
      ensures InputDir() in old(dirs) && GroupLetters(Discovered(listing)).Grouped? ==>
        var g := GroupLetters(Discovered(listing)).grouping;
        && outcome == Pass
        && dirs == old(dirs) + WithParents(OutputDir(runDate))
        && Readable(old(files), g.buckets)
        && files == WriteCombined(old(files), g.keys, g.buckets, runDate)
    {
      if InputDir() !in dirs {
        return Fail(InputRootMissing);
      }
      ghost var all := Discovered(listing);
      var combinedLetters := EMPTY;
      var i := 0;
      while i < |listing|
        invariant 0 <= i <= |listing|
        invariant GroupFrom(combinedLetters, TreeDocs(listing[i..], true)) == GroupLetters(all)
        invariant files == old(files) && dirs == old(dirs)
      {
        var folder := listing[i];
        TreeDocsAt(listing, i, true);
        GroupFromAppend(combinedLetters, CategoryDocs(folder.name, folder.batches, true), TreeDocs(listing[i + 1..], true));
        var r := GroupCategory(combinedLetters, folder);
        if r.Malformed? {
          return Fail(MalformedName(r.letter));
        }
        combinedLetters := r.grouping;
        i := i + 1;
      }
      assert GroupLetters(all) == Grouped(combinedLetters);
      GroupedLettersReadable(listing, files);
      GroupingIsPartition(all);
      dirs := dirs + WithParents(OutputDir(runDate));
      WriteCombinedFiles(combinedLetters.keys, combinedLetters.buckets, runDate);
      return Pass;
    }

    /**
     * Program.cs lines 83-97: for each student in `Keys` order with more than one
     * letter, write the letters' text, each followed by a line terminator,
     * to `combined-<id>.txt`, reading the letters from the disk.
     */
    method WriteCombinedFiles(keys: seq<string>, buckets: map<string, seq<Doc>>, runDate: string)
      requires Readable(files, buckets)
      modifies this
      ensures dirs == old(dirs)
      ensures files == WriteCombined(old(files), keys, buckets, runDate)
    {
      ghost var src := files;
      var n := 0;
      while n < |keys|
        invariant 0 <= n <= |keys|
        invariant files == WriteCombined(src, keys[..n], buckets, runDate)
        invariant dirs == old(dirs)
      {
        var studentId := keys[n];
        assert keys[..n + 1][..n] == keys[..n];
        if studentId in buckets && |buckets[studentId]| > 1 {
          var members := buckets[studentId];
          var text := "";
          var m := 0;
          while m < |members|
            invariant 0 <= m <= |members|
            invariant text == CombinedText(src, members[..m])
            invariant files == WriteCombined(src, keys[..n], buckets, runDate)
            invariant dirs == old(dirs)
          {
            var letter := members[m];
            assert letter in buckets[studentId];
            assert members[..m + 1][..m] == members[..m];
            WriteCombinedKeepsLetters(src, keys[..n], buckets, runDate, letter);
            text := text + files[InputFile(letter)] + NEW_LINE;
            m := m + 1;
          }
          assert members[..m] == members;
          files := files[CombinedPath(runDate, studentId) := text];
        }
        n := n + 1;
      }
      assert keys[..n] == keys;
    }

    /**
     * Program.cs lines 102-121. `names` is what `GetFiles(runFolder, "combined-*.txt")`
     * returns; the report is written (over any earlier one) with the date
     * line, the count line and one identifier per listed file. A missing run
     * folder aborts with nothing written.
     */
    method GenerateReport(names: seq<string>, runDate: string, displayDate: string) returns (outcome: Outcome)
      requires OutputDir(runDate) in dirs ==> ListsCombined(names, files, runDate)
      modifies this
      ensures dirs == old(dirs)
      ensures OutputDir(runDate) !in old(dirs) ==> outcome == Fail(OutputFolderMissing) && files == old(files)
      ensures OutputDir(runDate) in old(dirs) ==>
        && outcome == Pass
        && (forall n :: n in names ==> IsCombinedPattern(n))
        && files == old(files)[ReportPath(runDate) := ReportText(displayDate, names)]
    {
      if OutputDir(runDate) !in dirs {
        return Fail(OutputFolderMissing);
      }
      var text := WriteReport(names, displayDate);
      files := files[ReportPath(runDate) := text];
      return Pass;
    }

    /**
     * Program.cs lines 123-152. For every date folder of `listing` (what the directory
     * calls return, all files this time), creates `Archive/<date>` when it
     * is missing and moves each file into it; the first move that fails
     * aborts, with the earlier moves kept. The result is the archive plan
     * run on the disk as it was.
     */
    method ArchiveFiles(listing: seq<Category>) returns (outcome: Outcome)
      modifies this
      ensures InputDir() !in old(dirs) ==>
        outcome == Fail(InputRootMissing) && files == old(files) && dirs == old(dirs)
      ensures InputDir() in old(dirs) ==>
        Ran(Disk(files, dirs), outcome) == Run(Disk(old(files), old(dirs)), ArchivePlan(listing))
    {
      if InputDir() !in dirs {
        return Fail(InputRootMissing);
      }
      ghost var start := Disk(files, dirs);
      var i := 0;
      while i < |listing|
        invariant 0 <= i <= |listing|
        invariant Run(Disk(files, dirs), ArchivePlan(listing[i..])) == Run(start, ArchivePlan(listing))
      {
        var folder := listing[i];
        ArchivePlanAt(listing, i);
        RunAppend(Disk(files, dirs), BatchesPlan(folder.name, folder.batches), ArchivePlan(listing[i + 1..]));
        outcome := ArchiveCategory(folder);
        if outcome.Fail? {
          return;
        }
        i := i + 1;
      }
      return Pass;
    }

    /** Program.cs lines 128-149: the date folders of one category, each archived in turn. */
    method ArchiveCategory(folder: Category) returns (outcome: Outcome)
      modifies this
      ensures Ran(Disk(files, dirs), outcome) == Run(Disk(old(files), old(dirs)), BatchesPlan(folder.name, folder.batches))
    {
      ghost var start := Disk(files, dirs);
      var j := 0;
      while j < |folder.batches|
        invariant 0 <= j <= |folder.batches|
        invariant Run(Disk(files, dirs), BatchesPlan(folder.name, folder.batches[j..]))
          == Run(start, BatchesPlan(folder.name, folder.batches))
      {
        var dateFolder := folder.batches[j];
        var archiveDateFolder := ArchiveDir(dateFolder.date);
        BatchStep(Disk(files, dirs), folder.name, folder.batches, j);
        if archiveDateFolder !in dirs {
          dirs := dirs + WithParents(archiveDateFolder);
        }
        outcome := MoveFolderFiles(folder.name, dateFolder.date, dateFolder.names);
        if outcome.Fail? {
          return;
        }
        j := j + 1;
      }
      assert folder.batches[j..] == [];
      return Pass;
    }

    /** Program.cs lines 143-148: move each file of one date folder into `Archive/<date>`, stopping at the first failure. */
    method MoveFolderFiles(category: string, date: string, names: seq<string>) returns (outcome: Outcome)
      modifies this
      ensures Ran(Disk(files, dirs), outcome) == Run(Disk(old(files), old(dirs)), MovesPlan(category, date, names))
    {
      ghost var start := Disk(files, dirs);
      var archiveDateFolder := ArchiveDir(date);
      assert names[0..] == names;
      var k := 0;
      while k < |names|
        invariant 0 <= k <= |names|
        invariant Run(Disk(files, dirs), MovesPlan(category, date, names[k..])) == Run(start, MovesPlan(category, date, names))
      {
        var letter := Doc(category, date, names[k]);
        MovesPlanAt(category, date, names, k);
        RunStep(Disk(files, dirs), Move(letter), MovesPlan(category, date, names[k..]), MovesPlan(category, date, names[k + 1..]));
        var source := InputFile(letter);
        var destFile := archiveDateFolder + [names[k]];
        if source !in files {
          return Fail(SourceMissing(source));
        }
        if destFile in files {
          return Fail(DestinationExists(source, destFile));
        }
        files := (files - {source})[destFile := files[source]];
        k := k + 1;
      }
      assert names[k..] == [];
      return Pass;
    }
  }

  /**
   * Program.cs lines 59-72 for one category folder: the grouping pass continued over
   * its date folders, as the `*.txt` listing of each returns them.
   */
  method GroupCategory(g: Grouping, folder: Category) returns (r: GroupResult)
    ensures r == GroupFrom(g, CategoryDocs(folder.name, folder.batches, true))
  {
    var combinedLetters := g;
    var j := 0;
    while j < |folder.batches|
      invariant 0 <= j <= |folder.batches|
      invariant GroupFrom(combinedLetters, CategoryDocs(folder.name, folder.batches[j..], true))
        == GroupFrom(g, CategoryDocs(folder.name, folder.batches, true))
    {
      var dateFolder := folder.batches[j];
      var files := TxtFiles(dateFolder.names);
      CategoryDocsAt(folder.name, folder.batches, j, true);
      GroupFromAppend(combinedLetters, BatchDocs(folder.name, dateFolder.date, files),
                      CategoryDocs(folder.name, folder.batches[j + 1..], true));
      r := GroupFolder(combinedLetters, folder.name, dateFolder.date, files);
      if r.Malformed? {
        return;
      }
      combinedLetters := r.grouping;
      j := j + 1;
    }
    assert folder.batches[j..] == [];
    return Grouped(combinedLetters);
  }

  /**
   * Program.cs lines 63-71 for one date folder: each file's student identifier is
   * extracted and the file appended to that student's bucket, the bucket
   * being created on first sight; a name without '-' aborts the pass.
   */
  method GroupFolder(g: Grouping, category: string, date: string, files: seq<string>) returns (r: GroupResult)
    ensures r == GroupFrom(g, BatchDocs(category, date, files))
  {
    var keys := g.keys;
    var buckets := g.buckets;
    assert files[0..] == files;
    var k := 0;
    while k < |files|
      invariant 0 <= k <= |files|
      invariant GroupFrom(Grouping(keys, buckets), BatchDocs(category, date, files[k..]))
        == GroupFrom(g, BatchDocs(category, date, files))
    {
      var file := Doc(category, date, files[k]);
      BatchDocsAt(category, date, files, k);
      GroupFromStep(Grouping(keys, buckets), file, BatchDocs(category, date, files[k..]), BatchDocs(category, date, files[k + 1..]));
      var studentId := Extract(file.name);
      if studentId.None? {
        return Malformed(file);
      }
      var id := studentId.value;
      if id !in buckets {
        keys := keys + [id];
        buckets := buckets[id := []];
      }
      buckets := buckets[id := buckets[id] + [file]];
      k := k + 1;
    }
    assert files[k..] == [];
    return Grouped(Grouping(keys, buckets));
  }

  /**
   * Program.cs lines 110-118: the text the report's writer receives, line by line:
   * the date, the count, then the identifier of each listed file in order.
   */
  method WriteReport(names: seq<string>, displayDate: string) returns (text: string)
    requires forall n :: n in names ==> IsCombinedPattern(n)
    ensures text == ReportText(displayDate, names)
  {
    ghost var head := [DATE_LABEL + displayDate, COUNT_LABEL + DecimalString(|names|)];
    text := DATE_LABEL + displayDate + NEW_LINE;
    text := text + COUNT_LABEL + DecimalString(|names|) + NEW_LINE;
    LinesPair(head[0], head[1]);
    assert names[..0] == [];
    assert head + ReportIds(names[..0]) == head;
    var k := 0;
    while k < |names|
      invariant 0 <= k <= |names|
      invariant text == Lines(head + ReportIds(names[..k]))
    {
      var studentId := Extract(names[k]);
      PatternHasId(names[k]);
      ReportLinesStep(head, names, k);
      text := text + studentId.value + NEW_LINE;
      k := k + 1;
    }
    assert names[..k] == names;
  }
}
