/**
 * The student identifier carried in a letter's file name,
 * `<prefix>-<studentId>.<ext>`, and the name of the merged letter,
 * `combined-<studentId>.txt`.
 */
module StudentId {
  import opened Text

  datatype Option<T> = None | Some(value: T)

  /**
   * The student identifier of a letter name: the second '-'-separated
   * piece, cut at its first '.'. None when the name holds no '-', where
   * the source's indexing of the second piece throws.
   */
  function Extract(fileName: string): (r: Option<string>)
    ensures r.Some? <==> '-' in fileName
    ensures r.Some? ==> '-' !in r.value && '.' !in r.value
    ensures r.Some? ==> forall c :: c in r.value ==> c in fileName
  {
    var pieces := Split(fileName, '-');
    if |pieces| < 2 then None else Some(Split(pieces[1], '.')[0])
  }

  /** Reference reading: the text after the first '-', up to the next '-' or '.'. */
  function IdAfterDash(fileName: string): string
    requires '-' in fileName
  {
    Before(fileName[IndexOf(fileName, '-') + 1..], {'-', '.'})
  }

  /** The split-based extraction and the reference reading agree on every name. */
  lemma ExtractIsIdAfterDash(fileName: string)
    ensures Extract(fileName) == if '-' in fileName then Some(IdAfterDash(fileName)) else None
  {
    if '-' in fileName {
      var after := fileName[IndexOf(fileName, '-') + 1..];
      SplitTail(fileName, '-');
      assert Split(fileName, '-')[1] == Split(after, '-')[0];
      SplitHead(after, '-');
      SplitHead(Before(after, {'-'}), '.');
      BeforeBefore(after, {'-'}, {'.'});
      assert {'-'} + {'.'} == {'-', '.'};
    }
  }

  /**
   * Round trip: from `<prefix>-<id>.<ext>`, with no '-' in the prefix and
   * neither '-' nor '.' in the id, the id comes back whatever the extension.
   */
  lemma ExtractRoundTrip(prefix: string, id: string, ext: string)
    requires '-' !in prefix
    requires '-' !in id && '.' !in id
    ensures Extract(prefix + "-" + id + "." + ext) == Some(id)
  {
    var name := prefix + "-" + id + "." + ext;
    assert name == prefix + ['-'] + (id + "." + ext);
    IndexOfAppend(prefix, '-', id + "." + ext);
    assert name[IndexOf(name, '-') + 1..] == id + ['.'] + ext;
    BeforeAppend(id, '.', ext, {'-', '.'});
    ExtractIsIdAfterDash(name);
  }

  const COMBINED_PREFIX: string := "combined-"
  const TXT_SUFFIX: string := ".txt"

  /** The merged file name: the prefix "combined-", the identifier, then ".txt". */
  function CombinedName(id: string): (r: string)
    ensures |r| == |COMBINED_PREFIX| + |id| + |TXT_SUFFIX|
    ensures r[..|COMBINED_PREFIX|] == COMBINED_PREFIX
    ensures r[|COMBINED_PREFIX|..|r| - |TXT_SUFFIX|] == id
    ensures r[|r| - |TXT_SUFFIX|..] == TXT_SUFFIX
  {
    COMBINED_PREFIX + id + TXT_SUFFIX
  }

  /** The merged letter's name gives back the identifier it was built from. */
  lemma CombinedNameRoundTrip(id: string)
    requires '-' !in id && '.' !in id
    ensures Extract(CombinedName(id)) == Some(id)
  {
    assert CombinedName(id) == "combined" + "-" + id + "." + "txt";
    ExtractRoundTrip("combined", id, "txt");
  }

  /** Distinct identifiers never share a merged file name. */
  lemma CombinedNameInjective(a: string, b: string)
    requires CombinedName(a) == CombinedName(b)
    ensures a == b
  {
    var s := CombinedName(a);
    assert a == s[9..|s| - 4];
    assert b == CombinedName(b)[9..|CombinedName(b)| - 4];
  }

  /** Every `*.txt` name, as `GetFiles(folder, "*.txt")` selects them. */
  predicate IsTxt(fileName: string) {
    EndsWith(fileName, TXT_SUFFIX)
  }

  /** Names `GetFiles(folder, "combined-*.txt")` selects: the prefix, any text, the suffix. */
  predicate IsCombinedPattern(fileName: string) {
    |fileName| >= |COMBINED_PREFIX| + |TXT_SUFFIX|
    && StartsWith(fileName, COMBINED_PREFIX) && EndsWith(fileName, TXT_SUFFIX)
  }

  /** Every merged file name matches the pattern the report enumerates. */
  lemma CombinedNameMatchesPattern(id: string)
    ensures IsCombinedPattern(CombinedName(id)) && IsTxt(CombinedName(id))
  {
    var s := CombinedName(id);
    assert s[..9] == COMBINED_PREFIX;
    assert s[|s| - 4..] == TXT_SUFFIX;
  }

  /** A name matching the report pattern always yields an identifier. */
  lemma PatternHasId(fileName: string)
    requires IsCombinedPattern(fileName)
    ensures Extract(fileName).Some?
  {
    assert fileName[8] == COMBINED_PREFIX[8] == '-';
  }
}
