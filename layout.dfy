/**
 * The directory tree the letter processor works on, as values: paths are
 * sequences of segments, the disk is a map from path to content plus the
 * set of existing directories, and a directory listing, whose order the
 * operating system decides, is passed in as a sequence.
 *
 *   CombinedLetters/Input/<category>/<date>/<file>
 *   CombinedLetters/Output/<run date>/combined-<id>.txt, report.txt
 *   CombinedLetters/Archive/<date>/<file>
 */
module Layout {
  import opened StudentId

  type Path = seq<string>

  const ROOT: string := "CombinedLetters"
  const INPUT: string := "Input"
  const OUTPUT: string := "Output"
  const ARCHIVE: string := "Archive"
  const REPORT_NAME: string := "report.txt"

  /** The disk: every file with its text, and every directory. */
  datatype Disk = Disk(files: map<Path, string>, dirs: set<Path>)

  /** What aborts a phase: the exception the source lets escape. */
  datatype Error =
    | InputRootMissing                        // GetDirectories on a missing Input folder
    | MalformedName(letter: Doc)              // a letter name without '-'
    | OutputFolderMissing                     // GetFiles on a missing run folder
    | SourceMissing(source: Path)             // File.Move from a file that is gone
    | DestinationExists(source: Path, dest: Path)  // File.Move onto an existing file

  datatype Outcome = Pass | Fail(error: Error)

  /** One letter found under Input: its category folder, date folder and file name. */
  datatype Doc = Doc(category: string, date: string, name: string)

  /** The listing of one `Input/<category>/<date>` folder: its file names in listing order. */
  datatype Batch = Batch(date: string, names: seq<string>)

  /** The listing of one `Input/<category>` folder: its date folders in listing order. */
  datatype Category = Category(name: string, batches: seq<Batch>)

  function InputDir(): Path { [ROOT, INPUT] }
  function InputFile(d: Doc): Path { [ROOT, INPUT, d.category, d.date, d.name] }
  function OutputDir(runDate: string): Path { [ROOT, OUTPUT, runDate] }
  function CombinedPath(runDate: string, id: string): Path { OutputDir(runDate) + [CombinedName(id)] }
  function ReportPath(runDate: string): Path { OutputDir(runDate) + [REPORT_NAME] }
  function ArchiveDir(date: string): Path { [ROOT, ARCHIVE, date] }
  function ArchiveFile(d: Doc): Path { ArchiveDir(d.date) + [d.name] }

  /** A file sitting directly in some `Input/<category>/<date>` folder. */
  predicate IsBatchFile(p: Path) {
    |p| == 5 && p[0] == ROOT && p[1] == INPUT
  }

  /** `Directory.CreateDirectory(p)`: the folder and all its missing parents. */
  function WithParents(p: Path): (r: set<Path>)
    ensures p != [] ==> p in r
  {
    assert p != [] ==> p[..|p|] == p;
    set k | 1 <= k <= |p| :: p[..k]
  }

  /** `GetFiles(folder, "*.txt")` applied to a folder's listing: the `.txt` names, order kept. */
  function TxtFiles(names: seq<string>): (r: seq<string>)
    ensures forall n :: n in r <==> n in names && IsTxt(n)
    ensures |r| <= |names|
  {
    if names == [] then []
    else (if IsTxt(names[0]) then [names[0]] else []) + TxtFiles(names[1..])
  }

  /** The files a traversal visits in one date folder: all of them, or only `*.txt`. */
  function FilesOf(b: Batch, txtOnly: bool): seq<string> {
    if txtOnly then TxtFiles(b.names) else b.names
  }

  function BatchDocs(category: string, date: string, names: seq<string>): (r: seq<Doc>)
    ensures forall d :: d in r <==> d.category == category && d.date == date && d.name in names
  {
    if names == [] then []
    else [Doc(category, date, names[0])] + BatchDocs(category, date, names[1..])
  }

  function CategoryDocs(category: string, batches: seq<Batch>, txtOnly: bool): (r: seq<Doc>)
    ensures forall d :: d in r <==>
      d.category == category && exists b :: b in batches && b.date == d.date && d.name in FilesOf(b, txtOnly)
  {
    if batches == [] then []
    else
      BatchDocs(category, batches[0].date, FilesOf(batches[0], txtOnly))
      + CategoryDocs(category, batches[1..], txtOnly)
  }

  /** `d` is visited by the category / date / file traversal of `listing`. */
  predicate Listed(listing: seq<Category>, d: Doc, txtOnly: bool) {
    exists c :: c in listing && c.name == d.category
      && exists b :: b in c.batches && b.date == d.date && d.name in FilesOf(b, txtOnly)
  }

  /**
   * The letters in traversal order: categories, then date folders, then
   * files, each in listing order. With `txtOnly` this is what
   * `CombineLetters` visits, without it what `ArchiveFiles` visits.
   */
  function TreeDocs(listing: seq<Category>, txtOnly: bool): (r: seq<Doc>)
    ensures forall d :: d in r <==> Listed(listing, d, txtOnly)
  {
    if listing == [] then []
    else CategoryDocs(listing[0].name, listing[0].batches, txtOnly) + TreeDocs(listing[1..], txtOnly)
  }

  /** The traversal from category `i` on: that category's letters, then the rest. */
  lemma TreeDocsAt(listing: seq<Category>, i: int, txtOnly: bool)
    requires 0 <= i < |listing|
    ensures TreeDocs(listing[i..], txtOnly)
      == CategoryDocs(listing[i].name, listing[i].batches, txtOnly) + TreeDocs(listing[i + 1..], txtOnly)
  {
    assert listing[i..][1..] == listing[i + 1..];
  }

  /** A category's traversal from date folder `j` on: that folder's letters, then the rest. */
  lemma CategoryDocsAt(category: string, batches: seq<Batch>, j: int, txtOnly: bool)
    requires 0 <= j < |batches|
    ensures CategoryDocs(category, batches[j..], txtOnly)
      == BatchDocs(category, batches[j].date, FilesOf(batches[j], txtOnly)) + CategoryDocs(category, batches[j + 1..], txtOnly)
  {
    assert batches[j..][1..] == batches[j + 1..];
  }

  /** A date folder's traversal from file `k` on. */
  lemma BatchDocsAt(category: string, date: string, names: seq<string>, k: int)
    requires 0 <= k < |names|
    ensures BatchDocs(category, date, names[k..]) == [Doc(category, date, names[k])] + BatchDocs(category, date, names[k + 1..])
  {
    assert names[k..][1..] == names[k + 1..];
  }

  /** The letters `CombineLetters` visits. */
  function Discovered(listing: seq<Category>): seq<Doc> { TreeDocs(listing, true) }

  /** The files `ArchiveFiles` visits. */
  function AllFiles(listing: seq<Category>): seq<Doc> { TreeDocs(listing, false) }

  /**
   * The listing is what the operating system reports for `files`: every
   * listed file exists, none is listed twice, and every file in an
   * `Input/<category>/<date>` folder is listed.
   */
  predicate Describes(listing: seq<Category>, files: map<Path, string>) {
    var all := AllFiles(listing);
    && (forall i, j :: 0 <= i < j < |all| ==> all[i] != all[j])
    && (forall d :: d in all ==> InputFile(d) in files)
    && (forall p :: p in files && IsBatchFile(p) ==> Doc(p[2], p[3], p[4]) in all)
  }

  /** A folder directly under some `Input/<category>`: a date folder. */
  predicate IsBatchDir(p: Path) {
    |p| == 4 && p[0] == ROOT && p[1] == INPUT
  }

  /**
   * The listing is what the operating system reports for `dirs`: every
   * listed category and date folder exists, no category is listed twice
   * and no date twice within its category, and every date folder under
   * `Input` is listed.
   */
  predicate DescribesDirs(listing: seq<Category>, dirs: set<Path>) {
    && (forall i, j :: 0 <= i < j < |listing| ==> listing[i].name != listing[j].name)
    && (forall c :: c in listing ==> [ROOT, INPUT, c.name] in dirs)
    && (forall c :: c in listing ==>
          forall i, j :: 0 <= i < j < |c.batches| ==> c.batches[i].date != c.batches[j].date)
    && (forall c, b :: c in listing && b in c.batches ==> [ROOT, INPUT, c.name, b.date] in dirs)
    && (forall p :: p in dirs && IsBatchDir(p) ==>
          exists c, b :: c in listing && b in c.batches && c.name == p[2] && b.date == p[3])
  }

  /** Only `*.txt` files are ever visited for grouping, and all of them are. */
  lemma DiscoveredAreTheTxtFiles(listing: seq<Category>, d: Doc)
    ensures d in Discovered(listing) <==> d in AllFiles(listing) && IsTxt(d.name)
  {
  }
}
