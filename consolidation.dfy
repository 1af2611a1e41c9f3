/**
 * The write half of `CombineLetters`: for every student with more than one
 * letter, `Output/<run date>/combined-<id>.txt` receives each letter's
 * text followed by a line terminator, in bucket order.
 */
module Consolidation {
  import opened Text
  import opened StudentId
  import opened Layout
  import opened Grouping

  /** Every letter held in a bucket can be read from `src`. */
  predicate Readable(src: map<Path, string>, buckets: map<string, seq<Doc>>) {
    forall id, d :: id in buckets && d in buckets[id] ==> InputFile(d) in src
  }

  /** The merged text: `WriteLine(File.ReadAllText(file))` for each member in order. */
  function CombinedText(src: map<Path, string>, members: seq<Doc>): string
    requires forall d :: d in members ==> InputFile(d) in src
  {
    if members == [] then ""
    else
      var last := members[|members| - 1];
      CombinedText(src, members[..|members| - 1]) + src[InputFile(last)] + NEW_LINE
  }

  /** The merged text of two runs of letters is the merged text of the first, then of the second. */
  lemma {:induction false} CombinedTextConcat(src: map<Path, string>, a: seq<Doc>, b: seq<Doc>)
    requires forall d :: d in a + b ==> InputFile(d) in src
    ensures CombinedText(src, a + b) == CombinedText(src, a) + CombinedText(src, b)
    decreases |b|
  {
    if b != [] {
      var n := |b|;
      assert (a + b)[..|a + b| - 1] == a + b[..n - 1];
      CombinedTextConcat(src, a, b[..n - 1]);
    } else {
      assert a + b == a;
    }
  }

  /** The merged text of one letter is that letter's text and a terminator. */
  lemma CombinedTextSingle(src: map<Path, string>, d: Doc)
    requires InputFile(d) in src
    ensures CombinedText(src, [d]) == src[InputFile(d)] + NEW_LINE
  {
    assert [d][..0] == [];
  }

  /**
   * Program.cs lines 83-97: for each key in `Keys` order, write the merged file when
   * its bucket holds more than one letter. Letters are read from `src`;
   * the writes only touch the run folder, never the letters read.
   */
  function WriteCombined(src: map<Path, string>, keys: seq<string>, buckets: map<string, seq<Doc>>,
                         runDate: string): (out: map<Path, string>)
    requires Readable(src, buckets)
    ensures src.Keys <= out.Keys
  {
    if keys == [] then src
    else
      var out := WriteCombined(src, keys[..|keys| - 1], buckets, runDate);
      var id := keys[|keys| - 1];
      if id in buckets && |buckets[id]| > 1 then out[CombinedPath(runDate, id) := CombinedText(src, buckets[id])]
      else out
  }

  /** `id` is among `keys` and has more than one letter: its merged file gets written. */
  predicate Merged(keys: seq<string>, buckets: map<string, seq<Doc>>, id: string) {
    id in keys && id in buckets && |buckets[id]| > 1
  }

  lemma CombinedPathInjective(runDate: string, a: string, b: string)
    requires CombinedPath(runDate, a) == CombinedPath(runDate, b)
    ensures a == b
  {
    assert CombinedPath(runDate, a)[3] == CombinedName(a);
    CombinedNameInjective(a, b);
  }

  /** The merged file of a student with more than one letter holds that student's merged text. */
  lemma {:induction false} WrittenMerged(src: map<Path, string>, keys: seq<string>,
                                         buckets: map<string, seq<Doc>>, runDate: string, id: string)
    requires Readable(src, buckets)
    requires Merged(keys, buckets, id)
    ensures CombinedPath(runDate, id) in WriteCombined(src, keys, buckets, runDate)
    ensures WriteCombined(src, keys, buckets, runDate)[CombinedPath(runDate, id)] == CombinedText(src, buckets[id])
  {
    var n := |keys|;
    var ks := keys[..n - 1];
    var last := keys[n - 1];
    if id != last {
      assert id in ks by {
        var i :| 0 <= i < n && keys[i] == id;
        assert ks[i] == id;
      }
      WrittenMerged(src, ks, buckets, runDate, id);
      if CombinedPath(runDate, id) == CombinedPath(runDate, last) {
        CombinedPathInjective(runDate, id, last);
      }
    }
  }

  /** A path that is no merged student's file is left as it was. */
  lemma {:induction false} WriteCombinedUntouched(src: map<Path, string>, keys: seq<string>,
                                                  buckets: map<string, seq<Doc>>, runDate: string, p: Path)
    requires Readable(src, buckets)
    requires forall id :: Merged(keys, buckets, id) ==> p != CombinedPath(runDate, id)
    ensures p in WriteCombined(src, keys, buckets, runDate) <==> p in src
    ensures p in src ==> WriteCombined(src, keys, buckets, runDate)[p] == src[p]
  {
    if keys != [] {
      var ks := keys[..|keys| - 1];
      forall id | Merged(ks, buckets, id) ensures p != CombinedPath(runDate, id) {
        assert Merged(keys, buckets, id);
      }
      WriteCombinedUntouched(src, ks, buckets, runDate, p);
    }
  }

  /**
   * What the write loop leaves behind: the merged file of every student
   * with more than one letter holds that student's merged text; every
   * other path is as it was.
   */
  lemma WriteCombinedEffect(src: map<Path, string>, keys: seq<string>,
                            buckets: map<string, seq<Doc>>, runDate: string)
    requires Readable(src, buckets)
    ensures var out := WriteCombined(src, keys, buckets, runDate);
      forall id :: Merged(keys, buckets, id) ==>
        CombinedPath(runDate, id) in out && out[CombinedPath(runDate, id)] == CombinedText(src, buckets[id])
    ensures var out := WriteCombined(src, keys, buckets, runDate);
      forall p :: (forall id :: Merged(keys, buckets, id) ==> p != CombinedPath(runDate, id)) ==>
        (p in out <==> p in src) && (p in src ==> out[p] == src[p])
  {
    forall id | Merged(keys, buckets, id) {
      WrittenMerged(src, keys, buckets, runDate, id);
    }
    forall p | forall id :: Merged(keys, buckets, id) ==> p != CombinedPath(runDate, id) {
      WriteCombinedUntouched(src, keys, buckets, runDate, p);
    }
  }

  /**
   * The merge rule for a finished grouping: `combined-<id>.txt` is written
   * with the bucket's merged text if and only if the bucket holds more than
   * one letter; for a student with a single letter the merged path is left
   * exactly as it was, and so is every path outside the written set, the
   * letters themselves included.
   */
  lemma MergeRule(src: map<Path, string>, g: Grouping, runDate: string)
    requires WellFormed(g)
    requires Readable(src, g.buckets)
    ensures var out := WriteCombined(src, g.keys, g.buckets, runDate);
      && (forall id :: id in g.buckets && |g.buckets[id]| > 1 ==>
            CombinedPath(runDate, id) in out && out[CombinedPath(runDate, id)] == CombinedText(src, g.buckets[id]))
      && (forall id :: id in g.buckets && |g.buckets[id]| == 1 ==>
            (CombinedPath(runDate, id) in out <==> CombinedPath(runDate, id) in src)
            && (CombinedPath(runDate, id) in src ==> out[CombinedPath(runDate, id)] == src[CombinedPath(runDate, id)]))
      && (forall d :: InputFile(d) in src ==> InputFile(d) in out && out[InputFile(d)] == src[InputFile(d)])
  {
    forall id | id in g.buckets && |g.buckets[id]| > 1 {
      WrittenMerged(src, g.keys, g.buckets, runDate, id);
    }
    forall id | id in g.buckets && |g.buckets[id]| == 1 {
      NotMergedUntouched(src, g.keys, g.buckets, runDate, id);
    }
    forall d | InputFile(d) in src {
      WriteCombinedKeepsLetters(src, g.keys, g.buckets, runDate, d);
    }
  }

  /** A student not merged gets no merged file: that path is left as it was. */
  lemma NotMergedUntouched(src: map<Path, string>, keys: seq<string>, buckets: map<string, seq<Doc>>,
                           runDate: string, id: string)
    requires Readable(src, buckets)
    requires !Merged(keys, buckets, id)
    ensures CombinedPath(runDate, id) in WriteCombined(src, keys, buckets, runDate) <==> CombinedPath(runDate, id) in src
    ensures CombinedPath(runDate, id) in src ==>
      WriteCombined(src, keys, buckets, runDate)[CombinedPath(runDate, id)] == src[CombinedPath(runDate, id)]
  {
    forall x | Merged(keys, buckets, x) ensures CombinedPath(runDate, id) != CombinedPath(runDate, x) {
      if CombinedPath(runDate, id) == CombinedPath(runDate, x) {
        CombinedPathInjective(runDate, id, x);
      }
    }
    WriteCombinedUntouched(src, keys, buckets, runDate, CombinedPath(runDate, id));
  }

  /** Writing merged files never touches a letter under Input. */
  lemma WriteCombinedKeepsLetters(src: map<Path, string>, keys: seq<string>, buckets: map<string, seq<Doc>>,
                                  runDate: string, d: Doc)
    requires Readable(src, buckets)
    requires InputFile(d) in src
    ensures InputFile(d) in WriteCombined(src, keys, buckets, runDate)
    ensures WriteCombined(src, keys, buckets, runDate)[InputFile(d)] == src[InputFile(d)]
  {
    forall x | Merged(keys, buckets, x) ensures InputFile(d) != CombinedPath(runDate, x) {
      assert CombinedPath(runDate, x)[1] == OUTPUT;
    }
    WriteCombinedUntouched(src, keys, buckets, runDate, InputFile(d));
  }

  /** Every letter the grouping pass bucketed is listed, so it exists and can be read. */
  lemma GroupedLettersReadable(listing: seq<Category>, files: map<Path, string>)
    requires Describes(listing, files)
    requires GroupLetters(Discovered(listing)).Grouped?
    ensures Readable(files, GroupLetters(Discovered(listing)).grouping.buckets)
  {
    var docs := Discovered(listing);
    var g := GroupLetters(docs).grouping;
    GroupingIsPartition(docs);
    forall id, d | id in g.buckets && d in g.buckets[id] ensures InputFile(d) in files {
      assert d in BucketOf(g, id);
      DiscoveredAreTheTxtFiles(listing, d);
    }
  }

  /** The merge rule for a grouping whose buckets are the reference buckets of `docs`. */
  lemma MergedFilesOf(src: map<Path, string>, docs: seq<Doc>, g: Grouping, runDate: string)
    requires forall d :: d in docs ==> InputFile(d) in src
    requires WellFormed(g)
    requires forall id :: BucketOf(g, id) == Matching(docs, id)
    requires Readable(src, g.buckets)
    ensures var out := WriteCombined(src, g.keys, g.buckets, runDate);
      && (forall id :: |Matching(docs, id)| > 1 ==>
            CombinedPath(runDate, id) in out && out[CombinedPath(runDate, id)] == CombinedText(src, Matching(docs, id)))
      && (forall id :: |Matching(docs, id)| <= 1 ==>
            (CombinedPath(runDate, id) in out <==> CombinedPath(runDate, id) in src)
            && (CombinedPath(runDate, id) in src ==> out[CombinedPath(runDate, id)] == src[CombinedPath(runDate, id)]))
      && (forall p :: (forall id :: p != CombinedPath(runDate, id)) ==>
            (p in out <==> p in src) && (p in src ==> out[p] == src[p]))
  {
    var out := WriteCombined(src, g.keys, g.buckets, runDate);
    forall id | |Matching(docs, id)| <= 1
      ensures (CombinedPath(runDate, id) in out <==> CombinedPath(runDate, id) in src)
      ensures CombinedPath(runDate, id) in src ==> out[CombinedPath(runDate, id)] == src[CombinedPath(runDate, id)]
    {
      assert BucketOf(g, id) == Matching(docs, id);
      NotMergedUntouched(src, g.keys, g.buckets, runDate, id);
    }
    forall id | |Matching(docs, id)| > 1
      ensures CombinedPath(runDate, id) in out && out[CombinedPath(runDate, id)] == CombinedText(src, Matching(docs, id))
    {
      assert BucketOf(g, id) == Matching(docs, id);
      WrittenMerged(src, g.keys, g.buckets, runDate, id);
    }
    forall p | forall id :: p != CombinedPath(runDate, id) {
      WriteCombinedUntouched(src, g.keys, g.buckets, runDate, p);
    }
  }

  /**
   * The merge pass on a disk its listing describes, stated against the
   * letters themselves: a student with more than one letter gets a merged
   * file holding those letters' texts in traversal order; the merged path of
   * a student with at most one letter is left as it was; so is every path
   * that is no merged path at all.
   */
  lemma MergedFiles(listing: seq<Category>, src: map<Path, string>, runDate: string)
    requires Describes(listing, src)
    requires GroupLetters(Discovered(listing)).Grouped?
    ensures forall d :: d in Discovered(listing) ==> InputFile(d) in src
    ensures Readable(src, GroupLetters(Discovered(listing)).grouping.buckets)
    ensures var docs := Discovered(listing);
      var g := GroupLetters(docs).grouping;
      var out := WriteCombined(src, g.keys, g.buckets, runDate);
      && (forall id :: |Matching(docs, id)| > 1 ==>
            CombinedPath(runDate, id) in out && out[CombinedPath(runDate, id)] == CombinedText(src, Matching(docs, id)))
      && (forall id :: |Matching(docs, id)| <= 1 ==>
            (CombinedPath(runDate, id) in out <==> CombinedPath(runDate, id) in src)
            && (CombinedPath(runDate, id) in src ==> out[CombinedPath(runDate, id)] == src[CombinedPath(runDate, id)]))
      && (forall p :: (forall id :: p != CombinedPath(runDate, id)) ==>
            (p in out <==> p in src) && (p in src ==> out[p] == src[p]))
  {
    var docs := Discovered(listing);
    forall d | d in docs ensures InputFile(d) in src {
      DiscoveredAreTheTxtFiles(listing, d);
    }
    GroupingIsPartition(docs);
    GroupedLettersReadable(listing, src);
    MergedFilesOf(src, docs, GroupLetters(docs).grouping, runDate);
  }
}
