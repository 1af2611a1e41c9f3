# Letter consolidation, modelled in Dafny

`LetterProcessor` (Program.cs) is a batch job over a folder tree
`CombinedLetters/`:

- `Input/<category>/<YYYYMMDD>/<prefix>-<studentId>.txt` holds one letter per file.
- `CombineLetters` groups every `*.txt` letter by the student identifier in its
  name. For every student with more than one letter it writes
  `Output/<run date>/combined-<studentId>.txt`: each letter's text followed by a
  line terminator, in discovery order.
- `GenerateReport` lists the `combined-*.txt` files of the run folder. It writes
  `Output/<run date>/report.txt`, which holds the processing date, the number of
  merged files and the identifier re-extracted from each merged file's name.
- `ArchiveFiles` moves every file of every input batch folder to
  `Archive/<YYYYMMDD>/<name>`. It creates each archive folder if it is absent.

The model has eight modules:

- `Text` models string splitting, number formatting and the lines a `StreamWriter` produces.
- `StudentId` models identifier extraction and merged-file names.
- `Layout` holds the folder layout, the directory listings and the error kinds.
- `Grouping` models the `Dictionary<string, List<string>>` pass.
- `Consolidation` models the merged files.
- `Report` models the report.
- `Archive` models the moves.
- `Processor` holds the class `LetterProcessor`. Its fields `files` (a path-to-text map) and
  `dirs` (a set of paths) are the disk, and its three methods update them in
  place, loop for loop as the source does.

Each method is proved against a specification function of its phase. The phase
modules prove what those functions guarantee.

What the operating system reports is a parameter:

- For the input tree, `GetDirectories`/`GetFiles` becomes a `seq<Category>` of dated `Batch`es.
- For the run folder, `GetFiles(…, "combined-*.txt")` becomes a `seq<string>`.
- `Describes` and `ListsCombined` tie each file listing to the disk's files: every listed file exists, no file is listed twice, and every file present is listed.
- `DescribesDirs` ties the input listing to the disk's folders: every listed category and date folder exists, no category is listed twice nor a date twice within its category, and every date folder under `Input` is listed.
- The run date is a parameter `runDate` (the `yyyyMMdd` text).
- The report's date line is a separate parameter `displayDate`, because the source reads the clock a second time for it.

An exception in the source is a `Fail(error)` outcome. The run stops at it, and every change made before it stays. The modelled errors are:

- `InputRootMissing`: `GetDirectories` on a missing `Input` folder.
- `MalformedName`: a letter name without `-`, whose second `-`-separated piece does not exist.
- `OutputFolderMissing`: `GetFiles` on a missing run folder.
- `SourceMissing` and `DestinationExists`: `File.Move`.

Behaviours of Program.cs that the model keeps as they are:

- A letter name without `-` aborts `CombineLetters` before anything is written;
  such a file is not skipped. A name with a `-` but no `.` still yields an
  identifier: the text after the first `-`, up to the next `-` or `.`.
- Any failure ends the phase at once; later students or files are not processed.
- `File.Move` does not overwrite: an archive destination that already exists
  stops the archive pass, and the files moved before it stay moved.
- Merged files always get the `.txt` extension, whatever the letters' own.
- On a second run the same day, `GenerateReport` also counts and lists the
  `combined-*.txt` files the earlier run left, including those of students who
  now have a single letter (`Report.EarlierMergeListed`).

## Model

| member | source | states |
|---|---|---|
| Text.Split | Program.cs:65 | `Split` yields at least one piece; it yields two or more exactly when the separator occurs; no piece contains the separator |
| Text.Lines | Program.cs:110-118 | the text of one `WriteLine` per element: at least one character per line, and it ends with the line terminator whenever there is a line |
| Text.SplitLines | Program.cs:110-118 | text written with `WriteLine` per line splits back at the terminator into those lines plus a final empty piece |
| Text.DecimalString | Program.cs:113 | the count's `ToString()`: a non-empty string of decimal digits without a leading zero |
| Text.DecimalRoundTrip | Program.cs:113 | the decimal rendering of a count reads back as that count |
| StudentId.Extract | Program.cs:65 | an identifier exists exactly when the name contains `-`; it contains neither `-` nor `.` and only characters of the name |
| StudentId.ExtractIsIdAfterDash | Program.cs:65 | extraction agrees with an independent definition: the text after the first `-` up to the next `-` or `.` |
| StudentId.ExtractRoundTrip | Program.cs:65 | `<prefix>-<id>.<ext>` with a dash-free prefix and an identifier without `-` or `.` gives back exactly that identifier |
| StudentId.CombinedName | Program.cs:87 | the merged file name is the identifier between the `combined-` prefix and the `.txt` suffix |
| StudentId.IsTxt | Program.cs:61 | the names `GetFiles(folder, "*.txt")` selects: those ending in `.txt` |
| StudentId.IsCombinedPattern | Program.cs:108 | the names `GetFiles(folder, "combined-*.txt")` selects: those that start with `combined-`, end in `.txt`, and are long enough to hold both |
| StudentId.CombinedNameRoundTrip | Program.cs:87 | extraction on `combined-<id>.txt` gives back `<id>` (line 116 recovers the id used at line 87) |
| StudentId.CombinedNameInjective | Program.cs:87 | distinct students get distinct merged-file names |
| StudentId.CombinedNameMatchesPattern | Program.cs:87 | every merged-file name matches `combined-*.txt` and `*.txt` |
| StudentId.PatternHasId | Program.cs:108 | every name matching `combined-*.txt` has an identifier, so line 116 cannot fail |
| Layout.TxtFiles | Program.cs:61 | the `*.txt` listing keeps exactly the `.txt` names of the folder |
| Layout.TreeDocs | Program.cs:57-63 | the letters visited are exactly those listed in some category's dated batch |
| Layout.WithParents | Program.cs:76 | creating a folder creates that folder |
| Grouping.Add | Program.cs:66-70 | adding a letter creates its identifier's bucket when new and appends the letter to it; every other bucket stays as it was |
| Grouping.GroupFrom | Program.cs:57-72 | the grouping pass continued over the letters still to visit; an abort names one of those letters, whose name has no `-` |
| Grouping.GroupedIffDashes | Program.cs:63-71 | the grouping pass finishes exactly when every visited name contains `-` |
| Grouping.MalformedIsFirstBad | Program.cs:65 | on failure the offending letter is the first visited name without `-` |
| Grouping.GroupFromWellFormed | Program.cs:66-70 | keys are listed once each, every key has a non-empty bucket, and no key contains `-` or `.` |
| Grouping.GroupFromBuckets | Program.cs:63-71 | the bucket of any identifier grows by exactly the visited letters with that identifier, in visit order |
| Grouping.GroupFromTotal | Program.cs:63-71 | the buckets together gain exactly one entry per visited letter |
| Grouping.GroupFromAppend | Program.cs:57-72 | grouping a concatenation is grouping the first part, then continuing from its result |
| Grouping.GroupingIsPartition | Program.cs:53-73 | the buckets partition the letters: each letter is in exactly its identifier's bucket, in order, and the sizes sum to the number of letters |
| Grouping.ListedLettersPartition | Program.cs:57-73 | of all files in the input tree, bucket `id` holds exactly the `.txt` files whose identifier is `id` |
| Grouping.Matching | Program.cs:66-70 | reference definition of a student's letters: those visited whose identifier is that student's |
| Consolidation.CombinedText | Program.cs:90-96 | the merged text: each letter's text followed by a line terminator, in bucket order (what it satisfies is in the two rows that follow) |
| Consolidation.WriteCombined | Program.cs:83-97 | the write loop over the students in `Keys` order; it never removes a file (its whole effect is in the rows that follow) |
| Consolidation.CombinedTextConcat | Program.cs:89-95 | a merged text of two runs of letters is the merged text of the first followed by that of the second |
| Consolidation.CombinedTextSingle | Program.cs:93 | one letter contributes its text followed by a line terminator |
| Consolidation.WrittenMerged | Program.cs:83-95 | a student with more than one letter has a merged file holding its letters' texts in bucket order, whatever later keys write |
| Consolidation.WriteCombinedUntouched | Program.cs:83-97 | a path that is no merged student's file is neither created nor changed |
| Consolidation.NotMergedUntouched | Program.cs:85 | a student with fewer than two letters gets no merged file: that path stays as it was |
| Consolidation.WriteCombinedEffect | Program.cs:83-97 | each student with more than one letter has a merged file holding its letters' texts; every other path is unchanged |
| Consolidation.MergeRule | Program.cs:83-97 | students with a single letter get no merged file, and input letters are left as they were |
| Consolidation.WriteCombinedKeepsLetters | Program.cs:93 | writing the merged files leaves every input letter unchanged |
| Consolidation.GroupedLettersReadable | Program.cs:93 | every letter in a bucket exists, so `ReadAllText` at line 93 succeeds |
| Consolidation.MergedFiles | Program.cs:52-100 | for a listed input tree, `combined-<id>.txt` holds the texts of all `.txt` letters of `<id>` when there are at least two; otherwise nothing is written for `<id>`, and no other file changes |
| Report.ReportIds | Program.cs:114-118 | the i-th identifier written is what extraction gives for the i-th listed name |
| Report.ReportLines | Program.cs:110-118 | the report's lines: two header lines, then for each listed name a line holding that name's identifier |
| Report.ReportText | Program.cs:110-118 | the report text has at least one character per line and ends with a line terminator |
| Report.LinesReadBack | Program.cs:110-118 | for any labels free of line breaks, the written lines split back into the date line, the count line (reading back as the number of names) and the identifiers |
| Processor.WriteReport | Program.cs:110-118 | the writer receives exactly the report text of the listed names |
| Report.ReportReadsBack | Program.cs:110-118 | the report has a date line, a count line whose number equals the number of listed files, and then one identifier line per file |
| Report.MergedKeys | Program.cs:83-85 | the merged students are exactly the keys with more than one letter |
| Report.MultiKeys | Program.cs:83-85 | a key is kept exactly when its bucket has more than one letter; keys stay repeat-free |
| Report.DistinctCard | Program.cs:113 | a repeat-free listing has as many members as entries |
| Report.CombinedNames | Program.cs:87 | names the merged files of a sequence of students, in that order |
| Report.WrittenFor | Program.cs:87-94 | a file the merge pass adds is the merged file of some merged student |
| Report.ListedIsMerged | Program.cs:108 | in a run folder that held no `combined-*.txt` before the merge, the i-th name listed is the merged file of the student it names, who has more than one letter |
| Report.EarlierMergeListed | Program.cs:108 | a `combined-*.txt` file already in the run folder before the merge is listed, whether or not this run merged that student |
| Report.ListedAreMerged | Program.cs:108 | in a run folder that held no `combined-*.txt` before the merge, every `combined-*.txt` file found was written by the merge pass for a student with more than one letter |
| Report.MergedAreListed | Program.cs:108 | every such student's merged file is found |
| Report.SameMergedCount | Program.cs:113 | the listed names and the merged students have the same size |
| Report.ReportOfMergedNames | Program.cs:113-118 | the count equals the number of merged students, and the listed identifiers are exactly those students |
| Report.ReportListsMergedStudents | Program.cs:108-118 | after a merge into a fresh run folder, the report counts exactly the students with several letters and lists each once under its own identifier |
| Archive.MoveFile | Program.cs:147 | `File.Move`: it goes through exactly when the source exists and the destination does not; a failure changes nothing; a success removes the source and puts its text at the destination |
| Archive.MoveAll | Program.cs:143-148 | the moves in order, stopping at the first that fails; a failure is always a missing source or a taken destination |
| Archive.MoveAllCount | Program.cs:143-148 | the moves neither lose nor duplicate a file: the number of files is unchanged, whether they all go through or not |
| Archive.Apply | Program.cs:133-147 | one step: a folder step never fails, never touches a file and leaves the folder existing; a move never touches a folder; no folder disappears |
| Archive.Run | Program.cs:126-150 | the steps in order, stopping at the first that fails; no folder disappears, and a failure is always a move's |
| Archive.MovesPlan | Program.cs:143-148 | one move per listed file of the date folder, position by position in listing order |
| Archive.BatchesPlan | Program.cs:128-149 | per date folder of a category: the step creating its archive folder, then its moves (its properties are in the rows that follow) |
| Archive.BatchesPlanFolderFirst | Program.cs:130-147 | in a category's steps, every move comes after the step that creates its destination folder |
| Archive.ArchivePlan | Program.cs:126-150 | the whole pass's steps in listing order; every move comes after the step that creates its archive folder, so no move targets a missing folder |
| Archive.BatchStep | Program.cs:128-149 | one date folder of a category: its archive folder is made unless present, its moves run, and the later date folders follow unless a move failed |
| Archive.ArchivePlanLetters | Program.cs:126-148 | the archive pass moves every listed input file once, in listing order, and creates exactly the listed dates' archive folders |
| Archive.RunAppend | Program.cs:126-150 | running two plans in turn is running their concatenation; a failure stops the rest |
| Archive.RunIsMoveAll | Program.cs:126-150 | the pass's outcome and files are those of moving its letters in turn; creating folders never fails or touches a file |
| Archive.RunFolders | Program.cs:133-136 | folders only grow, and only by the planned ones and their parents; on success every planned folder exists |
| Archive.MovesPlanLetters | Program.cs:143-148 | one batch moves exactly its listed files |
| Archive.BatchesPlanLetters | Program.cs:128-149 | one category moves the files of its batches, in order |
| Archive.BatchesPlanDirs | Program.cs:130-136 | one category creates exactly the archive folders of its batches' dates, with their parents |
| Archive.ArchivePlanMakesDirs | Program.cs:130-136 | each listed date gets its archive folder step |
| Archive.ArchiveIsNotInput | Program.cs:145 | an archive destination is never an input path |
| Archive.MoveAllPasses | Program.cs:147 | moving all listed files succeeds exactly when every destination is free and no two files share one |
| Archive.MoveAllFails | Program.cs:147 | on failure some file stopped the pass: all before it moved, and its own destination was taken |
| Archive.MoveAllMoves | Program.cs:147 | on success each file is at its archive path with its text, and gone from the input |
| Archive.MoveAllKeeps | Program.cs:147 | on success any path that is neither a source nor a destination is unchanged |
| Archive.MoveAllEmptiesInput | Program.cs:138-148 | on success no input batch folder holds a file |
| Archive.MoveAllArchives | Program.cs:138-148 | on success the input batches are empty, every file is archived with its text, and nothing else changed |
| Archive.ArchiveOutcome | Program.cs:123-152 | the archive pass succeeds exactly when all destinations are free and distinct; a failure names the file that stopped it |
| Archive.ArchiveEffect | Program.cs:123-152 | after a successful pass the input batches are empty, every file is in `Archive/<date>/` with its text, and other files are untouched |
| Archive.ArchiveListedFolders | Program.cs:130-136 | folders only grow, the new ones are archive folders of listed dates and their parents, and on success each listed date's folder exists |
| Archive.ArchiveFolders | Program.cs:125-136 | for a listing that describes the input folders: folders only grow, every new one is the archive folder (or a parent of it) of a date folder present under `Input`, and on success every such date folder has its archive folder |
| Processor.LetterProcessor.CombineLetters | Program.cs:52-100 | a missing input folder or a name without `-` fails with nothing changed; otherwise the run folder is created and the files become exactly the merged output of the grouping |
| Processor.LetterProcessor.WriteCombinedFiles | Program.cs:83-97 | writes exactly the merged files of the grouping and creates no folder |
| Processor.LetterProcessor.GenerateReport | Program.cs:102-121 | a missing run folder fails with nothing changed; otherwise only `report.txt` is written, with the report text of the listed names |
| Processor.LetterProcessor.ArchiveFiles | Program.cs:123-152 | a missing input folder fails with nothing changed; otherwise the disk and outcome are those of the archive plan |
| Processor.LetterProcessor.ArchiveCategory | Program.cs:128-149 | one category's loop does what its part of the plan does |
| Processor.LetterProcessor.MoveFolderFiles | Program.cs:143-148 | one batch's loop does what its moves do |
| Processor.GroupCategory | Program.cs:59-72 | one category's loop continues the grouping over its `.txt` letters |
| Processor.GroupFolder | Program.cs:63-71 | one folder's loop continues the grouping over its letters |

## Left out

- Console output (`Console.WriteLine` progress messages) is not modelled.
- `CreateSampleInputData`, `CreateFile` and `Main` are not modelled. In `Main` an exception from `CombineLetters` ends the program before `GenerateReport` and `ArchiveFiles` run; the model keeps the three phases separate.
- `DateTime.Now` is not modelled: the run date and the report's date line are parameters. If the two clock reads fall on different days, the report's date does not match its folder; the model lets the caller pass any pair.
- Directory enumeration is not modelled: listings and their order are parameters, tied to the disk by `Describes`, `DescribesDirs` and `ListsCombined`.
- Operating-system failures are not modelled: permissions, a full disk, locked files, and `CreateDirectory` failing because a file occupies the path. Files and folders are separate namespaces.
- `File.Move` throwing for a missing destination folder is not modelled: `ArchivePlan` proves that every move comes after the step that creates its folder.
- StudentId.IsTxt: does not model .NET's wildcard rule that `*.txt` also matches longer extensions such as `.txtx`; it is an exact suffix test.
- StudentId.IsCombinedPattern: does not model the same wildcard rule for `combined-*.txt` (a name such as `combined-x.txtx` is not selected); it is an exact prefix and suffix test.
- Path case-insensitivity is not modelled.
- Text encoding and byte-order marks are not modelled. The line terminator is `"\n"`, not the platform's `Environment.NewLine`.
- A `StreamWriter` that fails mid-write could leave a partial file. In the model a merged or report file is written as a whole.
- Archive.ArchiveFolders: does not state the exact set of folders created, only bounds on it, because `CreateDirectory` runs only when the folder is absent and parent folders may already exist.
- Archive.ArchiveListedFolders: does not state the exact set of folders created either, only bounds on it in terms of the listed dates, for the same reason.
- Processor.LetterProcessor.GenerateReport: requires the caller's listing to describe the run folder, since the listing comes from the operating system.
- The concrete sample run (the four letters `CreateSampleInputData` writes) is not stated as a lemma.
