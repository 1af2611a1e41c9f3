/**
 * The bucketing `CombineLetters` performs while it walks the input tree:
 * a `Dictionary<string, List<string>>` from student identifier to the
 * letters found for it, filled by appending, never by overwriting.
 */
module Grouping {
  import opened StudentId
  import opened Layout

  /**
   * The dictionary: its buckets, and its keys in the order `Keys`
   * enumerates them (insertion order, as nothing is ever removed).
   */
  datatype Grouping = Grouping(keys: seq<string>, buckets: map<string, seq<Doc>>)

  /** Either the finished dictionary, or the letter whose name has no '-' to split at. */
  datatype GroupResult = Grouped(grouping: Grouping) | Malformed(letter: Doc)

  const EMPTY: Grouping := Grouping([], map[])

  /** The bucket for `id`, empty when the dictionary has no such key. */
  function BucketOf(g: Grouping, id: string): seq<Doc> {
    if id in g.buckets then g.buckets[id] else []
  }

  /** Program.cs lines 66-70: create the bucket when the key is new, then append the letter. */
  function Add(g: Grouping, id: string, d: Doc): (r: Grouping)
    ensures id in r.buckets
    ensures forall x :: BucketOf(r, x) == BucketOf(g, x) + (if x == id then [d] else [])
  {
    var g1 := if id in g.buckets then g else Grouping(g.keys + [id], g.buckets[id := []]);
    Grouping(g1.keys, g1.buckets[id := g1.buckets[id] + [d]])
  }

  /** Continues the grouping pass from dictionary `g` over the letters still to visit. */
  function GroupFrom(g: Grouping, docs: seq<Doc>): (r: GroupResult)
    ensures r.Malformed? ==> r.letter in docs && '-' !in r.letter.name
    decreases |docs|
  {
    if docs == [] then Grouped(g)
    else
      match Extract(docs[0].name)
      case None => Malformed(docs[0])
      case Some(id) => GroupFrom(Add(g, id, docs[0]), docs[1..])
  }

  /** One step of the pass: the next letter either aborts it or is added to its bucket. */
  lemma GroupFromStep(g: Grouping, d: Doc, docs: seq<Doc>, rest: seq<Doc>)
    requires docs == [d] + rest
    ensures Extract(d.name).None? ==> GroupFrom(g, docs) == Malformed(d)
    ensures Extract(d.name).Some? ==> GroupFrom(g, docs) == GroupFrom(Add(g, Extract(d.name).value, d), rest)
  {
    assert docs[0] == d && docs[1..] == rest;
  }

  /** The pass over two runs of letters: the first run, then, unless it aborted, the second. */
  lemma {:induction false} GroupFromAppend(g: Grouping, a: seq<Doc>, b: seq<Doc>)
    ensures GroupFrom(g, a + b) == match GroupFrom(g, a)
      case Malformed(d) => Malformed(d)
      case Grouped(g1) => GroupFrom(g1, b)
    decreases |a|
  {
    if a == [] {
      assert a + b == b;
    } else {
      GroupFromStep(g, a[0], a + b, a[1..] + b);
      if Extract(a[0].name).Some? {
        GroupFromAppend(Add(g, Extract(a[0].name).value, a[0]), a[1..], b);
      }
    }
  }

  /** The whole grouping pass over the letters in traversal order. */
  function GroupLetters(docs: seq<Doc>): GroupResult {
    GroupFrom(EMPTY, docs)
  }

  /** Reference definition of a bucket: the letters whose name yields `id`, in traversal order. */
  function Matching(docs: seq<Doc>, id: string): (r: seq<Doc>)
    ensures forall d :: d in r <==> d in docs && Extract(d.name) == Some(id)
    ensures |r| <= |docs|
  {
    if docs == [] then []
    else (if Extract(docs[0].name) == Some(id) then [docs[0]] else []) + Matching(docs[1..], id)
  }

  lemma MatchingStep(d: Doc, docs: seq<Doc>, id: string)
    requires docs != [] && docs[0] == d
    ensures Matching(docs, id) == (if Extract(d.name) == Some(id) then [d] else []) + Matching(docs[1..], id)
  {
  }

  /** The sum of the bucket sizes, over the keys in order. */
  function Total(keys: seq<string>, buckets: map<string, seq<Doc>>): nat {
    if keys == [] then 0
    else
      var k := keys[|keys| - 1];
      Total(keys[..|keys| - 1], buckets) + (if k in buckets then |buckets[k]| else 0)
  }

  /**
   * The dictionary's own invariant: keys listed once each, exactly the
   * keys present, no bucket empty, and every key an extracted identifier
   * (so free of '-' and '.').
   */
  predicate WellFormed(g: Grouping) {
    && (forall i, j :: 0 <= i < j < |g.keys| ==> g.keys[i] != g.keys[j])
    && (forall k :: k in g.keys ==> k in g.buckets)
    && (forall k :: k in g.buckets ==> k in g.keys)
    && (forall k :: k in g.buckets ==> g.buckets[k] != [] && '-' !in k && '.' !in k)
  }

  lemma AddKeepsWellFormed(g: Grouping, id: string, d: Doc)
    requires WellFormed(g)
    requires '-' !in id && '.' !in id
    ensures WellFormed(Add(g, id, d))
  {
  }

  /** Updating a key that is not listed leaves the total alone. */
  lemma {:induction false} TotalOther(keys: seq<string>, m: map<string, seq<Doc>>, id: string, v: seq<Doc>)
    requires id !in keys
    ensures Total(keys, m[id := v]) == Total(keys, m)
  {
    if keys != [] {
      TotalOther(keys[..|keys| - 1], m, id, v);
    }
  }
  /** Appending to the bucket of a key listed once adds one to the total. */
  lemma {:induction false} TotalAppend(keys: seq<string>, m: map<string, seq<Doc>>, id: string, d: Doc)
    requires forall i, j :: 0 <= i < j < |keys| ==> keys[i] != keys[j]
    requires id in keys && id in m
    ensures Total(keys, m[id := m[id] + [d]]) == Total(keys, m) + 1
  {
    var n := |keys|;
    var ks := keys[..n - 1];
    if keys[n - 1] == id {
      assert id !in ks;
      TotalOther(ks, m, id, m[id] + [d]);
    } else {
      assert id in ks by {
        var i :| 0 <= i < n && keys[i] == id;
        assert ks[i] == id;
      }
      TotalAppend(ks, m, id, d);
    }
  }
  lemma AddTotal(g: Grouping, id: string, d: Doc)
    requires WellFormed(g)
    ensures Total(Add(g, id, d).keys, Add(g, id, d).buckets) == Total(g.keys, g.buckets) + 1
  {
    var a := Add(g, id, d);
    if id in g.buckets {
      assert a.keys == g.keys && a.buckets == g.buckets[id := g.buckets[id] + [d]];
      TotalAppend(g.keys, g.buckets, id, d);
    } else {
      var m := g.buckets[id := [d]];
      assert [] + [d] == [d];
      assert a.keys == g.keys + [id] && a.buckets == m;
      TotalOther(g.keys, g.buckets, id, [d]);
      assert (g.keys + [id])[..|g.keys|] == g.keys;
    }
  }
  /** The pass succeeds exactly when every visited name holds a '-'. */
  lemma {:induction false} GroupedIffDashes(g: Grouping, docs: seq<Doc>)
    ensures GroupFrom(g, docs).Grouped? <==> forall d :: d in docs ==> '-' in d.name
    decreases |docs|
  {
    if docs != [] {
      assert docs == [docs[0]] + docs[1..];
      if '-' in docs[0].name {
        GroupedIffDashes(Add(g, Extract(docs[0].name).value, docs[0]), docs[1..]);
      }
    }
  }

  /** When the pass aborts, it is at the first visited name without a '-'. */
  lemma {:induction false} MalformedIsFirstBad(g: Grouping, docs: seq<Doc>)
    requires GroupFrom(g, docs).Malformed?
    ensures exists i ::
              && 0 <= i < |docs| && docs[i] == GroupFrom(g, docs).letter && '-' !in docs[i].name
              && forall j :: 0 <= j < i ==> '-' in docs[j].name
    decreases |docs|
  {
    if '-' in docs[0].name {
      var r := GroupFrom(g, docs);
      MalformedIsFirstBad(Add(g, Extract(docs[0].name).value, docs[0]), docs[1..]);
      var i :| 0 <= i < |docs| - 1 && docs[1..][i] == r.letter
        && '-' !in docs[1..][i].name && forall j :: 0 <= j < i ==> '-' in docs[1..][j].name;
      assert docs[i + 1] == r.letter;
      forall j | 0 <= j < i + 1 ensures '-' in docs[j].name {
        if j > 0 { assert docs[j] == docs[1..][j - 1]; }
      }
    }
  }

  /** The dictionary stays well formed through the pass. */
  lemma {:induction false} GroupFromWellFormed(g: Grouping, docs: seq<Doc>)
    requires WellFormed(g)
    requires GroupFrom(g, docs).Grouped?
    ensures WellFormed(GroupFrom(g, docs).grouping)
    decreases |docs|
  {
    if docs != [] {
      var id := Extract(docs[0].name).value;
      AddKeepsWellFormed(g, id, docs[0]);
      GroupFromWellFormed(Add(g, id, docs[0]), docs[1..]);
    }
  }

  /**
   * The bucket of `id` at the end is the bucket at the start followed by
   * the matching letters in visiting order.
   */
  lemma {:induction false} GroupFromBuckets(g: Grouping, docs: seq<Doc>, id: string)
    requires GroupFrom(g, docs).Grouped?
    ensures BucketOf(GroupFrom(g, docs).grouping, id) == BucketOf(g, id) + Matching(docs, id)
    decreases |docs|
  {
    if docs != [] {
      var d := docs[0];
      var key := Extract(d.name).value;
      var g1 := Add(g, key, d);
      GroupFromStep(g, d, docs, docs[1..]);
      assert BucketOf(g1, id) == BucketOf(g, id) + (if id == key then [d] else []);
      MatchingStep(d, docs, id);
      GroupFromBuckets(g1, docs[1..], id);
    }
  }

  /** Every visited letter adds exactly one to the total of the bucket sizes. */
  lemma {:induction false} GroupFromTotal(g: Grouping, docs: seq<Doc>)
    requires WellFormed(g)
    requires GroupFrom(g, docs).Grouped?
    ensures Total(GroupFrom(g, docs).grouping.keys, GroupFrom(g, docs).grouping.buckets) == Total(g.keys, g.buckets) + |docs|
    decreases |docs|
  {
    if docs != [] {
      var d := docs[0];
      var id := Extract(d.name).value;
      var g1 := Add(g, id, d);
      GroupFromStep(g, d, docs, docs[1..]);
      AddKeepsWellFormed(g, id, d);
      AddTotal(g, id, d);
      GroupFromTotal(g1, docs[1..]);
    }
  }

  /**
   * The grouping pass is a partition of the visited letters: it succeeds
   * iff every name holds a '-'; then each bucket holds exactly the letters
   * whose name yields its key, in visiting order, every letter sits in the
   * bucket of its own identifier and no other, and the bucket sizes add
   * up to the number of letters visited.
   */
  lemma GroupingIsPartition(docs: seq<Doc>)
    ensures GroupLetters(docs).Grouped? <==> forall d :: d in docs ==> '-' in d.name
    ensures GroupLetters(docs).Grouped? ==>
      var g := GroupLetters(docs).grouping;
      && WellFormed(g)
      && (forall id :: BucketOf(g, id) == Matching(docs, id))
      && (forall d, id :: d in docs ==> (d in BucketOf(g, id) <==> Extract(d.name) == Some(id)))
      && Total(g.keys, g.buckets) == |docs|
  {
    GroupedIffDashes(EMPTY, docs);
    if GroupLetters(docs).Grouped? {
      GroupFromWellFormed(EMPTY, docs);
      forall id ensures BucketOf(GroupLetters(docs).grouping, id) == Matching(docs, id) {
        GroupFromBuckets(EMPTY, docs, id);
      }
      GroupFromTotal(EMPTY, docs);
    }
  }

  /**
   * Over a listed input tree: when the pass succeeds, every `*.txt` file in
   * any date folder lands in the bucket of its own identifier and in no
   * other, and a file of any other extension lands in no bucket.
   */
  lemma ListedLettersPartition(listing: seq<Category>)
    requires GroupLetters(Discovered(listing)).Grouped?
    ensures var g := GroupLetters(Discovered(listing)).grouping;
      forall d, id :: d in AllFiles(listing) ==>
        (d in BucketOf(g, id) <==> IsTxt(d.name) && Extract(d.name) == Some(id))
  {
    var docs := Discovered(listing);
    var g := GroupLetters(docs).grouping;
    GroupingIsPartition(docs);
    forall d, id | d in AllFiles(listing)
      ensures d in BucketOf(g, id) <==> IsTxt(d.name) && Extract(d.name) == Some(id)
    {
      DiscoveredAreTheTxtFiles(listing, d);
      assert BucketOf(g, id) == Matching(docs, id);
    }
  }
}
