/**
 * `ArchiveFiles`: for every `Input/<category>/<date>` folder, make sure
 * `Archive/<date>` exists, then move every file of the folder (not only
 * `*.txt`) into it under the same name. `File.Move` never overwrites: the
 * first move whose destination is taken aborts the run, leaving the moves
 * made before it in place.
 */
module Archive {
  import opened Layout

  /** The files after one or more moves, and whether they all went through. */
  datatype MoveResult = MoveResult(files: map<Path, string>, outcome: Outcome)

  /** `File.Move(source, dest)` on the files: fails when the source is gone or the destination taken. */
  function MoveFile(files: map<Path, string>, source: Path, dest: Path): (r: MoveResult)
    ensures r.outcome == Pass <==> source in files && dest !in files
    ensures r.outcome.Fail? ==> r.files == files
    ensures r.outcome == Pass ==> source !in r.files && dest in r.files && r.files[dest] == files[source]
  {
    if source !in files then MoveResult(files, Fail(SourceMissing(source)))
    else if dest in files then MoveResult(files, Fail(DestinationExists(source, dest)))
    else MoveResult((files - {source})[dest := files[source]], Pass)
  }

  /** The moves of the given letters, in order, stopping at the first that fails. */
  function MoveAll(files: map<Path, string>, docs: seq<Doc>): (r: MoveResult)
    ensures r.outcome.Fail? ==> r.outcome.error.SourceMissing? || r.outcome.error.DestinationExists?
    decreases |docs|
  {
    if docs == [] then MoveResult(files, Pass)
    else
      var m := MoveFile(files, InputFile(docs[0]), ArchiveFile(docs[0]));
      if m.outcome.Fail? then m else MoveAll(m.files, docs[1..])
  }

  /** One thing the archive pass does to the disk. */
  datatype Step = MakeDir(dir: Path) | Move(letter: Doc)

  /** The disk after one or more steps, and whether they all went through. */
  datatype Ran = Ran(disk: Disk, outcome: Outcome)

  /** One step on the disk: a folder step never fails and never touches a file; a move never touches a folder. */
  function Apply(disk: Disk, step: Step): (r: Ran)
    ensures disk.dirs <= r.disk.dirs
    ensures step.MakeDir? ==> r.outcome == Pass && r.disk.files == disk.files
    ensures step.MakeDir? && step.dir != [] ==> step.dir in r.disk.dirs
    ensures step.Move? ==> r.disk.dirs == disk.dirs
  {
    match step
    case MakeDir(dir) =>
      if dir in disk.dirs then Ran(disk, Pass) else Ran(Disk(disk.files, disk.dirs + WithParents(dir)), Pass)
    case Move(d) =>
      var m := MoveFile(disk.files, InputFile(d), ArchiveFile(d));
      Ran(Disk(m.files, disk.dirs), m.outcome)
  }

  /** The steps in order, stopping at the first that fails. */
  function Run(disk: Disk, plan: seq<Step>): (r: Ran)
    ensures disk.dirs <= r.disk.dirs
    ensures r.outcome.Fail? ==> r.outcome.error.SourceMissing? || r.outcome.error.DestinationExists?
    decreases |plan|
  {
    if plan == [] then Ran(disk, Pass)
    else
      var r := Apply(disk, plan[0]);
      if r.outcome.Fail? then r else Run(r.disk, plan[1..])
  }

  /**
   * Every move of the plan comes after the step that creates its
   * destination folder, so `File.Move` never targets a missing folder.
   */
  predicate FolderFirst(plan: seq<Step>) {
    forall i :: 0 <= i < |plan| && plan[i].Move? ==> MakeDir(ArchiveDir(plan[i].letter.date)) in plan[..i]
  }

  lemma FolderFirstAppend(a: seq<Step>, b: seq<Step>)
    requires FolderFirst(a) && FolderFirst(b)
    ensures FolderFirst(a + b)
  {
    forall i | 0 <= i < |a + b| && (a + b)[i].Move?
      ensures MakeDir(ArchiveDir((a + b)[i].letter.date)) in (a + b)[..i]
    {
      if i < |a| {
        assert (a + b)[..i] == a[..i];
      } else {
        assert (a + b)[i] == b[i - |a|];
        assert (a + b)[..i] == a + b[..i - |a|];
      }
    }
  }

  /** Program.cs lines 143-148: one move per listed file of a date folder, in listing order. */
  function MovesPlan(category: string, date: string, names: seq<string>): (r: seq<Step>)
    ensures |r| == |names|
    ensures forall i :: 0 <= i < |names| ==> r[i] == Move(Doc(category, date, names[i]))
  {
    if names == [] then []
    else [Move(Doc(category, date, names[0]))] + MovesPlan(category, date, names[1..])
  }

  /** A date folder's steps: its archive folder first, then its moves. */
  lemma BatchFolderFirst(category: string, date: string, names: seq<string>)
    ensures FolderFirst([MakeDir(ArchiveDir(date))] + MovesPlan(category, date, names))
  {
    var h := [MakeDir(ArchiveDir(date))] + MovesPlan(category, date, names);
    forall i | 0 <= i < |h| && h[i].Move?
      ensures MakeDir(ArchiveDir(h[i].letter.date)) in h[..i]
    {
      assert h[i] == Move(Doc(category, date, names[i - 1]));
      assert h[..i][0] == h[0];
    }
  }

  /** Program.cs lines 128-149: per date folder, create its archive folder, then move its files. */
  function BatchesPlan(category: string, batches: seq<Batch>): seq<Step> {
    if batches == [] then []
    else
      [MakeDir(ArchiveDir(batches[0].date))] + MovesPlan(category, batches[0].date, batches[0].names)
      + BatchesPlan(category, batches[1..])
  }

  /** A category's plan creates each date's archive folder before moving into it. */
  lemma {:induction false} BatchesPlanFolderFirst(category: string, batches: seq<Batch>)
    ensures FolderFirst(BatchesPlan(category, batches))
    decreases |batches|
  {
    if batches != [] {
      BatchFolderFirst(category, batches[0].date, batches[0].names);
      BatchesPlanFolderFirst(category, batches[1..]);
      FolderFirstAppend([MakeDir(ArchiveDir(batches[0].date))] + MovesPlan(category, batches[0].date, batches[0].names),
                        BatchesPlan(category, batches[1..]));
    }
  }

  /** Program.cs lines 126-150: the category folders in listing order. */
  function ArchivePlan(listing: seq<Category>): (r: seq<Step>)
    ensures FolderFirst(r)
  {
    if listing == [] then []
    else
      BatchesPlanFolderFirst(listing[0].name, listing[0].batches);
      FolderFirstAppend(BatchesPlan(listing[0].name, listing[0].batches), ArchivePlan(listing[1..]));
      BatchesPlan(listing[0].name, listing[0].batches) + ArchivePlan(listing[1..])
  }

  /** The plan from category `i` on. */
  lemma ArchivePlanAt(listing: seq<Category>, i: int)
    requires 0 <= i < |listing|
    ensures ArchivePlan(listing[i..]) == BatchesPlan(listing[i].name, listing[i].batches) + ArchivePlan(listing[i + 1..])
  {
    assert listing[i..][1..] == listing[i + 1..];
  }

  /** A category's plan from date folder `j` on. */
  lemma BatchesPlanAt(category: string, batches: seq<Batch>, j: int)
    requires 0 <= j < |batches|
    ensures BatchesPlan(category, batches[j..])
      == [MakeDir(ArchiveDir(batches[j].date))] + MovesPlan(category, batches[j].date, batches[j].names)
         + BatchesPlan(category, batches[j + 1..])
  {
    assert batches[j..][1..] == batches[j + 1..];
  }

  /** A date folder's moves from file `k` on. */
  lemma MovesPlanAt(category: string, date: string, names: seq<string>, k: int)
    requires 0 <= k < |names|
    ensures MovesPlan(category, date, names[k..])
      == [Move(Doc(category, date, names[k]))] + MovesPlan(category, date, names[k + 1..])
  {
    assert names[k..][1..] == names[k + 1..];
  }

  /** Running a plan whose first step is `s`. */
  lemma RunStep(disk: Disk, s: Step, plan: seq<Step>, rest: seq<Step>)
    requires plan == [s] + rest
    ensures Apply(disk, s).outcome.Fail? ==> Run(disk, plan) == Apply(disk, s)
    ensures Apply(disk, s).outcome == Pass ==> Run(disk, plan) == Run(Apply(disk, s).disk, rest)
  {
    assert plan[0] == s && plan[1..] == rest;
  }

  /** Running two plans in sequence: the first, then, unless it failed, the second. */
  lemma {:induction false} RunAppend(disk: Disk, a: seq<Step>, b: seq<Step>)
    ensures Run(disk, a + b) == if Run(disk, a).outcome.Fail? then Run(disk, a) else Run(Run(disk, a).disk, b)
    decreases |a|
  {
    if a == [] {
      assert a + b == b;
    } else {
      RunStep(disk, a[0], a + b, a[1..] + b);
      var r := Apply(disk, a[0]);
      if r.outcome == Pass {
        RunAppend(r.disk, a[1..], b);
      }
    }
  }

  /**
   * One date folder of a category's plan: its archive folder is made
   * (unless it exists), then its moves run, then, unless one failed, the
   * later date folders.
   */
  lemma BatchStep(disk: Disk, category: string, batches: seq<Batch>, j: int)
    requires 0 <= j < |batches|
    ensures var dir := ArchiveDir(batches[j].date);
      var made := Disk(disk.files, if dir in disk.dirs then disk.dirs else disk.dirs + WithParents(dir));
      var m := Run(made, MovesPlan(category, batches[j].date, batches[j].names));
      Run(disk, BatchesPlan(category, batches[j..]))
        == if m.outcome.Fail? then m else Run(m.disk, BatchesPlan(category, batches[j + 1..]))
  {
    var moves := MovesPlan(category, batches[j].date, batches[j].names);
    var later := BatchesPlan(category, batches[j + 1..]);
    BatchesPlanAt(category, batches, j);
    RunStep(disk, MakeDir(ArchiveDir(batches[j].date)), BatchesPlan(category, batches[j..]), moves + later);
    RunAppend(Apply(disk, MakeDir(ArchiveDir(batches[j].date))).disk, moves, later);
  }

  /** The letters a plan moves, in order. */
  function MovedLetters(plan: seq<Step>): seq<Doc> {
    if plan == [] then []
    else (if plan[0].Move? then [plan[0].letter] else []) + MovedLetters(plan[1..])
  }

  /** The directories a plan creates. */
  function MadeDirs(plan: seq<Step>): set<Path> {
    if plan == [] then {}
    else (if plan[0].MakeDir? then WithParents(plan[0].dir) else {}) + MadeDirs(plan[1..])
  }

  lemma {:induction false} MovedLettersAppend(a: seq<Step>, b: seq<Step>)
    ensures MovedLetters(a + b) == MovedLetters(a) + MovedLetters(b)
    ensures MadeDirs(a + b) == MadeDirs(a) + MadeDirs(b)
  {
    MovedAppend(a, b);
    MadeAppend(a, b);
  }

  lemma {:induction false} MovedAppend(a: seq<Step>, b: seq<Step>)
    ensures MovedLetters(a + b) == MovedLetters(a) + MovedLetters(b)
  {
    if a == [] {
      assert a + b == b;
    } else {
      assert (a + b)[0] == a[0] && (a + b)[1..] == a[1..] + b;
      MovedAppend(a[1..], b);
    }
  }

  lemma {:induction false} MadeAppend(a: seq<Step>, b: seq<Step>)
    ensures MadeDirs(a + b) == MadeDirs(a) + MadeDirs(b)
  {
    if a == [] {
      assert a + b == b;
    } else {
      assert (a + b)[0] == a[0] && (a + b)[1..] == a[1..] + b;
      MadeAppend(a[1..], b);
    }
  }

  lemma {:induction false} MovesPlanLetters(category: string, date: string, names: seq<string>)
    ensures MovedLetters(MovesPlan(category, date, names)) == BatchDocs(category, date, names)
    ensures MadeDirs(MovesPlan(category, date, names)) == {}
  {
    if names != [] {
      var rest := MovesPlan(category, date, names[1..]);
      MovesPlanLetters(category, date, names[1..]);
      assert ([Move(Doc(category, date, names[0]))] + rest)[1..] == rest;
    }
  }

  lemma {:induction false} BatchesPlanLetters(category: string, batches: seq<Batch>)
    ensures MovedLetters(BatchesPlan(category, batches)) == CategoryDocs(category, batches, false)
  {
    if batches != [] {
      var b := batches[0];
      var head := [MakeDir(ArchiveDir(b.date))];
      var moves := MovesPlan(category, b.date, b.names);
      var rest := BatchesPlan(category, batches[1..]);
      assert BatchesPlan(category, batches) == head + moves + rest;
      assert FilesOf(b, false) == b.names;
      assert CategoryDocs(category, batches, false)
        == BatchDocs(category, b.date, b.names) + CategoryDocs(category, batches[1..], false);
      MovedLettersAppend(head + moves, rest);
      MovedLettersAppend(head, moves);
      assert head[1..] == [];
      assert MovedLetters(head) == [];
      MovesPlanLetters(category, b.date, b.names);
      BatchesPlanLetters(category, batches[1..]);
      assert MovedLetters(head + moves) == BatchDocs(category, b.date, b.names);
    }
  }

  lemma {:induction false} BatchesPlanDirs(category: string, batches: seq<Batch>)
    ensures forall p :: p in MadeDirs(BatchesPlan(category, batches)) <==>
      exists b :: b in batches && p in WithParents(ArchiveDir(b.date))
  {
    if batches != [] {
      var b := batches[0];
      var head := [MakeDir(ArchiveDir(b.date))];
      var moves := MovesPlan(category, b.date, b.names);
      var rest := BatchesPlan(category, batches[1..]);
      assert BatchesPlan(category, batches) == head + moves + rest;
      MovedLettersAppend(head + moves, rest);
      MovedLettersAppend(head, moves);
      assert head[1..] == [];
      assert MadeDirs(head) == WithParents(ArchiveDir(b.date));
      MovesPlanLetters(category, b.date, b.names);
      BatchesPlanDirs(category, batches[1..]);
      forall p ensures p in MadeDirs(BatchesPlan(category, batches)) <==>
        exists b' :: b' in batches && p in WithParents(ArchiveDir(b'.date))
      {
        if p in MadeDirs(rest) {
          var b' :| b' in batches[1..] && p in WithParents(ArchiveDir(b'.date));
          assert b' in batches;
        }
        if exists b' :: b' in batches && p in WithParents(ArchiveDir(b'.date)) {
          var b' :| b' in batches && p in WithParents(ArchiveDir(b'.date));
          if b' != b {
            assert b' in batches[1..];
          }
        }
      }
    }
  }

  /** `p` is an archive date folder, or one of its parents, for some listed date folder. */
  predicate ArchiveDirFor(listing: seq<Category>, p: Path) {
    exists c, b :: c in listing && b in c.batches && p in WithParents(ArchiveDir(b.date))
  }

  /**
   * The plan moves exactly the files the traversal visits, in traversal
   * order, and creates exactly the archive folders of the listed date
   * folders, with their parents.
   */
  lemma {:induction false} ArchivePlanLetters(listing: seq<Category>)
    ensures MovedLetters(ArchivePlan(listing)) == AllFiles(listing)
    ensures forall p :: p in MadeDirs(ArchivePlan(listing)) <==> ArchiveDirFor(listing, p)
  {
    if listing != [] {
      var c := listing[0];
      MovedLettersAppend(BatchesPlan(c.name, c.batches), ArchivePlan(listing[1..]));
      BatchesPlanLetters(c.name, c.batches);
      BatchesPlanDirs(c.name, c.batches);
      ArchivePlanLetters(listing[1..]);
      forall p ensures p in MadeDirs(ArchivePlan(listing)) <==> ArchiveDirFor(listing, p) {
        if ArchiveDirFor(listing[1..], p) {
          var c', b :| c' in listing[1..] && b in c'.batches && p in WithParents(ArchiveDir(b.date));
          assert c' in listing;
        }
        if ArchiveDirFor(listing, p) {
          var c', b :| c' in listing && b in c'.batches && p in WithParents(ArchiveDir(b.date));
          if c' != c {
            assert c' in listing[1..];
          }
        }
      }
    }
  }

  /**
   * Creating folders never fails and moves never look at folders: a run
   * does to the files exactly what its moves do.
   */
  lemma {:induction false} RunIsMoveAll(disk: Disk, plan: seq<Step>)
    ensures Run(disk, plan).outcome == MoveAll(disk.files, MovedLetters(plan)).outcome
    ensures Run(disk, plan).disk.files == MoveAll(disk.files, MovedLetters(plan)).files
    decreases |plan|
  {
    if plan != [] {
      var r := Apply(disk, plan[0]);
      var later := MovedLetters(plan[1..]);
      match plan[0]
      case MakeDir(dir) =>
        assert MovedLetters(plan) == [] + later == later;
        RunIsMoveAll(r.disk, plan[1..]);
      case Move(d) =>
        var m := MoveFile(disk.files, InputFile(d), ArchiveFile(d));
        assert MovedLetters(plan) == [d] + later;
        assert ([d] + later)[0] == d && ([d] + later)[1..] == later;
        if m.outcome == Pass {
          RunIsMoveAll(r.disk, plan[1..]);
          assert MoveAll(disk.files, [d] + later) == MoveAll(m.files, later);
        }
    }
  }

  /**
   * Folders are never removed, only the plan's folders and their parents
   * are added, and when the run passes every folder the plan creates exists.
   */
  lemma {:induction false} RunFolders(disk: Disk, plan: seq<Step>)
    ensures disk.dirs <= Run(disk, plan).disk.dirs <= disk.dirs + MadeDirs(plan)
    ensures Run(disk, plan).outcome == Pass ==>
      forall s :: s in plan && s.MakeDir? && s.dir != [] ==> s.dir in Run(disk, plan).disk.dirs
    decreases |plan|
  {
    if plan != [] {
      var r := Apply(disk, plan[0]);
      assert forall s :: s in plan ==> s == plan[0] || s in plan[1..];
      if r.outcome == Pass {
        RunFolders(r.disk, plan[1..]);
      }
    }
  }

  lemma {:induction false} BatchesPlanMakesDirs(category: string, batches: seq<Batch>)
    ensures forall b :: b in batches ==> MakeDir(ArchiveDir(b.date)) in BatchesPlan(category, batches)
  {
    if batches != [] {
      BatchesPlanMakesDirs(category, batches[1..]);
      var head := [MakeDir(ArchiveDir(batches[0].date))] + MovesPlan(category, batches[0].date, batches[0].names);
      var rest := BatchesPlan(category, batches[1..]);
      assert BatchesPlan(category, batches) == head + rest;
      forall b | b in batches ensures MakeDir(ArchiveDir(b.date)) in head + rest {
        if b == batches[0] {
          assert (head + rest)[0] == MakeDir(ArchiveDir(b.date));
        } else {
          assert b in batches[1..];
          var k :| 0 <= k < |rest| && rest[k] == MakeDir(ArchiveDir(b.date));
          assert (head + rest)[|head| + k] == rest[k];
        }
      }
    }
  }

  /** The plan creates the archive folder of every listed date folder. */
  lemma {:induction false} ArchivePlanMakesDirs(listing: seq<Category>)
    ensures forall c, b :: c in listing && b in c.batches ==> MakeDir(ArchiveDir(b.date)) in ArchivePlan(listing)
  {
    if listing != [] {
      ArchivePlanMakesDirs(listing[1..]);
      var head := BatchesPlan(listing[0].name, listing[0].batches);
      var rest := ArchivePlan(listing[1..]);
      BatchesPlanMakesDirs(listing[0].name, listing[0].batches);
      forall c, b | c in listing && b in c.batches ensures MakeDir(ArchiveDir(b.date)) in head + rest {
        if c != listing[0] {
          assert c in listing[1..];
        }
      }
    }
  }

  /** Archive files and input files never coincide. */
  lemma ArchiveIsNotInput(a: Doc, b: Doc)
    ensures ArchiveFile(a) != InputFile(b)
  {
    assert ArchiveFile(a)[1] == ARCHIVE;
  }

  /** Letters with distinct input paths, all present. */
  predicate Movable(files: map<Path, string>, docs: seq<Doc>) {
    && (forall i, j :: 0 <= i < j < |docs| ==> docs[i] != docs[j])
    && (forall d :: d in docs ==> InputFile(d) in files)
  }

  /** No two letters share an archive path, and no archive path is taken already. */
  predicate FreeDestinations(files: map<Path, string>, docs: seq<Doc>) {
    && (forall i, j :: 0 <= i < j < |docs| ==> ArchiveFile(docs[i]) != ArchiveFile(docs[j]))
    && (forall d :: d in docs ==> ArchiveFile(d) !in files)
  }

  /** Moving the first letter keeps the others movable. */
  lemma MoveFirstKeepsMovable(files: map<Path, string>, docs: seq<Doc>)
    requires Movable(files, docs) && docs != []
    requires MoveFile(files, InputFile(docs[0]), ArchiveFile(docs[0])).outcome == Pass
    ensures var files1 := MoveFile(files, InputFile(docs[0]), ArchiveFile(docs[0])).files;
      && Movable(files1, docs[1..])
      && (forall d :: d in docs[1..] ==>
            (ArchiveFile(d) in files1 <==> ArchiveFile(d) in files || ArchiveFile(d) == ArchiveFile(docs[0])))
      && (forall d :: d in docs[1..] ==> files1[InputFile(d)] == files[InputFile(d)])
  {
    var files1 := MoveFile(files, InputFile(docs[0]), ArchiveFile(docs[0])).files;
    forall d | d in docs[1..]
      ensures InputFile(d) in files1 && files1[InputFile(d)] == files[InputFile(d)]
      ensures ArchiveFile(d) in files1 <==> ArchiveFile(d) in files || ArchiveFile(d) == ArchiveFile(docs[0])
    {
      var k :| 0 <= k < |docs| - 1 && docs[1..][k] == d;
      assert docs[k + 1] == d;
      ArchiveIsNotInput(docs[0], d);
      ArchiveIsNotInput(d, docs[0]);
    }
  }

  /** The moves all go through exactly when every destination is free and no two coincide. */
  lemma {:induction false} MoveAllPasses(files: map<Path, string>, docs: seq<Doc>)
    requires Movable(files, docs)
    ensures MoveAll(files, docs).outcome == Pass <==> FreeDestinations(files, docs)
    decreases |docs|
  {
    if docs != [] {
      var d0 := docs[0];
      var m := MoveFile(files, InputFile(d0), ArchiveFile(d0));
      if m.outcome == Pass {
        MoveFirstKeepsMovable(files, docs);
        MoveAllPasses(m.files, docs[1..]);
        assert forall i :: 0 <= i < |docs| - 1 ==> docs[1..][i] == docs[i + 1];
        if FreeDestinations(files, docs) {
          forall d | d in docs[1..] ensures ArchiveFile(d) != ArchiveFile(d0) {
            var k :| 0 <= k < |docs| - 1 && docs[1..][k] == d;
          }
        }
        if FreeDestinations(m.files, docs[1..]) {
          forall i, j | 0 <= i < j < |docs| ensures ArchiveFile(docs[i]) != ArchiveFile(docs[j]) {
            if i == 0 {
              assert docs[j] in docs[1..];
            } else {
              assert docs[i] == docs[1..][i - 1] && docs[j] == docs[1..][j - 1];
            }
          }
          forall d | d in docs ensures ArchiveFile(d) !in files {
            if d != d0 {
              assert d in docs[1..];
            }
          }
        }
      } else {
        assert d0 in docs;
      }
    }
  }

  /** A move that goes through neither loses nor duplicates a file. */
  lemma MoveFileCount(files: map<Path, string>, source: Path, dest: Path)
    requires MoveFile(files, source, dest).outcome == Pass
    ensures |MoveFile(files, source, dest).files| == |files|
  {
    var rest := files - {source};
    assert rest.Keys == files.Keys - {source};
    assert |files.Keys - {source}| == |files.Keys| - 1;
  }

  /** The archive moves keep the number of files, whether they all go through or not. */
  lemma {:induction false} MoveAllCount(files: map<Path, string>, docs: seq<Doc>)
    ensures |MoveAll(files, docs).files| == |files|
    decreases |docs|
  {
    if docs != [] {
      var m := MoveFile(files, InputFile(docs[0]), ArchiveFile(docs[0]));
      if m.outcome == Pass {
        MoveFileCount(files, InputFile(docs[0]), ArchiveFile(docs[0]));
        MoveAllCount(m.files, docs[1..]);
      }
    }
  }

  /** A path no move touches keeps its text through all the moves. */
  lemma {:induction false} MoveAllKeeps(files: map<Path, string>, docs: seq<Doc>, p: Path)
    requires Movable(files, docs)
    requires MoveAll(files, docs).outcome == Pass
    requires forall d :: d in docs ==> p != InputFile(d) && p != ArchiveFile(d)
    ensures p in MoveAll(files, docs).files <==> p in files
    ensures p in files ==> MoveAll(files, docs).files[p] == files[p]
    decreases |docs|
  {
    if docs != [] {
      var files1 := MoveFile(files, InputFile(docs[0]), ArchiveFile(docs[0])).files;
      assert docs[0] in docs;
      MoveFirstKeepsMovable(files, docs);
      MoveAllKeeps(files1, docs[1..], p);
    }
  }

  /** After all the moves a letter sits at its archive path with the text it had, and no longer at its input path. */
  lemma {:induction false} MoveAllMoves(files: map<Path, string>, docs: seq<Doc>, d: Doc)
    requires Movable(files, docs)
    requires MoveAll(files, docs).outcome == Pass
    requires d in docs
    ensures ArchiveFile(d) in MoveAll(files, docs).files
    ensures MoveAll(files, docs).files[ArchiveFile(d)] == files[InputFile(d)]
    ensures InputFile(d) !in MoveAll(files, docs).files
    decreases |docs|
  {
    var d0 := docs[0];
    var rest := docs[1..];
    var files1 := MoveFile(files, InputFile(d0), ArchiveFile(d0)).files;
    MoveFirstKeepsMovable(files, docs);
    MoveAllPasses(files, docs);
    if d == d0 {
      forall e | e in rest ensures ArchiveFile(d0) != InputFile(e) && ArchiveFile(d0) != ArchiveFile(e)
      {
        ArchiveIsNotInput(d0, e);
        var k :| 0 <= k < |rest| && rest[k] == e;
        assert docs[k + 1] == e;
      }
      forall e | e in rest ensures InputFile(d0) != InputFile(e) && InputFile(d0) != ArchiveFile(e)
      {
        ArchiveIsNotInput(e, d0);
        var k :| 0 <= k < |rest| && rest[k] == e;
        assert docs[k + 1] == e;
      }
      MoveAllKeeps(files1, rest, ArchiveFile(d0));
      MoveAllKeeps(files1, rest, InputFile(d0));
    } else {
      assert d in rest;
      MoveAllMoves(files1, rest, d);
    }
  }

  /** Letter `i` cannot be moved: its archive path is taken, or an earlier letter's shares it. */
  predicate Collides(files: map<Path, string>, docs: seq<Doc>, i: int)
    requires 0 <= i < |docs|
  {
    ArchiveFile(docs[i]) in files || exists j :: 0 <= j < i && ArchiveFile(docs[j]) == ArchiveFile(docs[i])
  }

  /** Once the first letter has moved, a later letter collides exactly when it collided before. */
  lemma CollidesAfterFirst(files: map<Path, string>, docs: seq<Doc>, j: int)
    requires Movable(files, docs) && docs != []
    requires MoveFile(files, InputFile(docs[0]), ArchiveFile(docs[0])).outcome == Pass
    requires 0 <= j < |docs| - 1
    ensures Collides(MoveFile(files, InputFile(docs[0]), ArchiveFile(docs[0])).files, docs[1..], j)
      <==> Collides(files, docs, j + 1)
  {
    var files1 := MoveFile(files, InputFile(docs[0]), ArchiveFile(docs[0])).files;
    var rest := docs[1..];
    MoveFirstKeepsMovable(files, docs);
    assert rest[j] == docs[j + 1] && rest[j] in rest;
    if Collides(files1, rest, j) && ArchiveFile(rest[j]) !in files1 {
      var j' :| 0 <= j' < j && ArchiveFile(rest[j']) == ArchiveFile(rest[j]);
      assert ArchiveFile(docs[j' + 1]) == ArchiveFile(docs[j + 1]);
    }
    if Collides(files, docs, j + 1) && ArchiveFile(docs[j + 1]) !in files {
      var j' :| 0 <= j' < j + 1 && ArchiveFile(docs[j']) == ArchiveFile(docs[j + 1]);
      if j' > 0 {
        assert ArchiveFile(rest[j' - 1]) == ArchiveFile(rest[j]);
      }
    }
  }

  /** Letter `i` is the first that collides, and the moves stopped there after moving those before it. */
  predicate StoppedAt(files: map<Path, string>, docs: seq<Doc>, i: int)
    requires 0 <= i < |docs|
  {
    && MoveAll(files, docs).outcome == Fail(DestinationExists(InputFile(docs[i]), ArchiveFile(docs[i])))
    && Collides(files, docs, i)
    && (forall j :: 0 <= j < i ==> !Collides(files, docs, j))
    && MoveAll(files, docs[..i]).outcome == Pass
    && MoveAll(files, docs).files == MoveAll(files, docs[..i]).files
  }

  /**
   * When the moves stop, they stop at the first letter that collides, with
   * `DestinationExists`, after moving every letter before it.
   */
  lemma {:induction false} MoveAllFails(files: map<Path, string>, docs: seq<Doc>)
    requires Movable(files, docs)
    requires MoveAll(files, docs).outcome.Fail?
    ensures exists i :: 0 <= i < |docs| && StoppedAt(files, docs, i)
    decreases |docs|
  {
    var d0 := docs[0];
    var m := MoveFile(files, InputFile(d0), ArchiveFile(d0));
    assert d0 in docs;
    if m.outcome.Fail? {
      assert Collides(files, docs, 0);
      assert docs[..0] == [];
      assert StoppedAt(files, docs, 0);
    } else {
      var rest := docs[1..];
      MoveFirstKeepsMovable(files, docs);
      MoveAllFails(m.files, rest);
      var k :| 0 <= k < |rest| && StoppedAt(m.files, rest, k);
      var i := k + 1;
      CollidesAfterFirst(files, docs, k);
      forall j | 0 <= j < i ensures !Collides(files, docs, j) {
        if j > 0 {
          CollidesAfterFirst(files, docs, j - 1);
        }
      }
      assert rest[k] == docs[i];
      assert docs[..i][0] == d0 && docs[..i][1..] == rest[..k];
      assert MoveAll(files, docs[..i]) == MoveAll(m.files, rest[..k]);
      assert StoppedAt(files, docs, i);
    }
  }

  /** The input folders hold no file: every `Input/<category>/<date>` folder is empty. */
  predicate InputEmptied(files: map<Path, string>) {
    forall p :: p in files ==> !IsBatchFile(p)
  }

  /**
   * A whole archive pass over a listing that describes the disk goes
   * through exactly when no two listed files share an archive path and
   * none is there already; otherwise it stops with `DestinationExists` at
   * the first colliding file, after moving those before it.
   */
  lemma ArchiveOutcome(listing: seq<Category>, disk: Disk)
    requires Describes(listing, disk.files)
    ensures Run(disk, ArchivePlan(listing)).outcome == Pass <==> FreeDestinations(disk.files, AllFiles(listing))
    ensures Run(disk, ArchivePlan(listing)).outcome.Fail? ==>
      exists i :: 0 <= i < |AllFiles(listing)| && StoppedAt(disk.files, AllFiles(listing), i)
    ensures Run(disk, ArchivePlan(listing)).outcome == MoveAll(disk.files, AllFiles(listing)).outcome
    ensures Run(disk, ArchivePlan(listing)).disk.files == MoveAll(disk.files, AllFiles(listing)).files
  {
    ArchivePlanLetters(listing);
    RunIsMoveAll(disk, ArchivePlan(listing));
    MoveAllPasses(disk.files, AllFiles(listing));
    if MoveAll(disk.files, AllFiles(listing)).outcome.Fail? {
      MoveAllFails(disk.files, AllFiles(listing));
    }
  }

  /**
   * After moves that all went through, no file is left in any
   * `Input/<category>/<date>` folder, when every such file was to be moved.
   */
  lemma MoveAllEmptiesInput(files: map<Path, string>, all: seq<Doc>)
    requires Movable(files, all)
    requires forall p :: p in files && IsBatchFile(p) ==> Doc(p[2], p[3], p[4]) in all
    requires MoveAll(files, all).outcome == Pass
    ensures InputEmptied(MoveAll(files, all).files)
  {
    var out := MoveAll(files, all).files;
    forall p | p in out && IsBatchFile(p) ensures false {
      var d := Doc(p[2], p[3], p[4]);
      assert p == InputFile(d);
      if d in all {
        MoveAllMoves(files, all, d);
      } else {
        forall e | e in all ensures p != InputFile(e) && p != ArchiveFile(e) {
          assert ArchiveFile(e)[1] == ARCHIVE;
        }
        MoveAllKeeps(files, all, p);
      }
    }
  }

  /**
   * The moves of letters that cover every file of the input date folders,
   * when they all go through: those folders end empty, every letter sits at
   * its archive path with its text, and every other file is as it was.
   */
  lemma MoveAllArchives(files: map<Path, string>, all: seq<Doc>)
    requires Movable(files, all)
    requires forall p :: p in files && IsBatchFile(p) ==> Doc(p[2], p[3], p[4]) in all
    requires MoveAll(files, all).outcome == Pass
    ensures InputEmptied(MoveAll(files, all).files)
    ensures forall d :: d in all ==>
      ArchiveFile(d) in MoveAll(files, all).files && MoveAll(files, all).files[ArchiveFile(d)] == files[InputFile(d)]
    ensures forall p :: !IsBatchFile(p) && (forall d :: d in all ==> p != ArchiveFile(d)) ==>
      && (p in MoveAll(files, all).files <==> p in files)
      && (p in files ==> MoveAll(files, all).files[p] == files[p])
  {
    var out := MoveAll(files, all).files;
    MoveAllEmptiesInput(files, all);
    forall d | d in all ensures ArchiveFile(d) in out && out[ArchiveFile(d)] == files[InputFile(d)] {
      MoveAllMoves(files, all, d);
    }
    forall p | !IsBatchFile(p) && (forall d :: d in all ==> p != ArchiveFile(d))
      ensures (p in out <==> p in files) && (p in files ==> out[p] == files[p])
    {
      MoveAllKeeps(files, all, p);
    }
  }

  /**
   * What a pass that goes through leaves behind on the files: every date
   * folder of Input is empty, every listed file sits in `Archive/<date>`
   * with its text, and every other file is as it was.
   */
  lemma ArchiveEffect(listing: seq<Category>, disk: Disk)
    requires Describes(listing, disk.files)
    requires Run(disk, ArchivePlan(listing)).outcome == Pass
    ensures InputEmptied(Run(disk, ArchivePlan(listing)).disk.files)
    ensures forall d :: d in AllFiles(listing) ==>
      && ArchiveFile(d) in Run(disk, ArchivePlan(listing)).disk.files
      && Run(disk, ArchivePlan(listing)).disk.files[ArchiveFile(d)] == disk.files[InputFile(d)]
    ensures forall p :: !IsBatchFile(p) && (forall d :: d in AllFiles(listing) ==> p != ArchiveFile(d)) ==>
      && (p in Run(disk, ArchivePlan(listing)).disk.files <==> p in disk.files)
      && (p in disk.files ==> Run(disk, ArchivePlan(listing)).disk.files[p] == disk.files[p])
  {
    ArchiveOutcome(listing, disk);
    MoveAllArchives(disk.files, AllFiles(listing));
  }

  /**
   * The folders after an archive pass: none is removed, every folder added
   * is the archive folder of a listed date folder or a parent of one, and
   * when the pass goes through every listed date folder's archive folder
   * exists.
   */
  lemma ArchiveListedFolders(listing: seq<Category>, disk: Disk)
    ensures disk.dirs <= Run(disk, ArchivePlan(listing)).disk.dirs
    ensures forall p :: p in Run(disk, ArchivePlan(listing)).disk.dirs ==> p in disk.dirs || ArchiveDirFor(listing, p)
    ensures Run(disk, ArchivePlan(listing)).outcome == Pass ==>
      forall c, b :: c in listing && b in c.batches ==> ArchiveDir(b.date) in Run(disk, ArchivePlan(listing)).disk.dirs
  {
    ArchivePlanLetters(listing);
    RunFolders(disk, ArchivePlan(listing));
    ArchivePlanMakesDirs(listing);
  }

  /** An archive folder made for a listed date is one made for an existing date folder. */
  lemma ListedFolderExists(listing: seq<Category>, dirs: set<Path>, p: Path)
    requires DescribesDirs(listing, dirs)
    requires ArchiveDirFor(listing, p)
    ensures exists q :: q in dirs && IsBatchDir(q) && p in WithParents(ArchiveDir(q[3]))
  {
    var c, b :| c in listing && b in c.batches && p in WithParents(ArchiveDir(b.date));
    var q := [ROOT, INPUT, c.name, b.date];
    assert q in dirs && IsBatchDir(q) && q[3] == b.date;
  }

  /**
   * The folders of the archive pass, measured against the date folders
   * actually present under `Input`.
   */
  lemma ArchiveFolders(listing: seq<Category>, disk: Disk)
    requires DescribesDirs(listing, disk.dirs)
    ensures disk.dirs <= Run(disk, ArchivePlan(listing)).disk.dirs
    ensures forall p :: p in Run(disk, ArchivePlan(listing)).disk.dirs ==>
      p in disk.dirs || exists q :: q in disk.dirs && IsBatchDir(q) && p in WithParents(ArchiveDir(q[3]))
    ensures Run(disk, ArchivePlan(listing)).outcome == Pass ==>
      forall q :: q in disk.dirs && IsBatchDir(q) ==> ArchiveDir(q[3]) in Run(disk, ArchivePlan(listing)).disk.dirs
  {
    var r := Run(disk, ArchivePlan(listing));
    ArchiveListedFolders(listing, disk);
    forall p | p in r.disk.dirs && p !in disk.dirs
      ensures exists q :: q in disk.dirs && IsBatchDir(q) && p in WithParents(ArchiveDir(q[3]))
    {
      ListedFolderExists(listing, disk.dirs, p);
    }
    if r.outcome == Pass {
      forall q | q in disk.dirs && IsBatchDir(q) ensures ArchiveDir(q[3]) in r.disk.dirs {
        var c, b :| c in listing && b in c.batches && c.name == q[2] && b.date == q[3];
      }
    }
  }
}
