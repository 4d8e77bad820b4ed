/** The word-by-word comparison of the original and the corrected text:
    both are split on single spaces and walked in lock step. */
module ComparisonView {
  import opened Js

  /** One entry of `differences`; `index` is the position `getDifferences`
      records. */
  datatype Diff =
    | Added(text: string, index: nat)
    | Removed(text: string, index: nat)
    | Unchanged(text: string, index: nat)
    | Changed(original: string, corrected: string, index: nat)

  function Max(a: nat, b: nat): nat {
    if a >= b then a else b
  }

  function Min(a: nat, b: nat): nat {
    if a <= b then a else b
  }

  /** The entry at position `k` of the walk over word lists `a` and `b`:
      paired words while both lists last, then the longer list's tail. */
  function DiffAt(a: seq<string>, b: seq<string>, k: nat): Diff
    requires k < Max(|a|, |b|)
  {
    if k >= |a| then Added(b[k], k)
    else if k >= |b| then Removed(a[k], k)
    else if a[k] == b[k] then Unchanged(a[k], k)
    else Changed(a[k], b[k], k)
  }

  /** `getDifferences`. */
  method GetDifferences(originalText: string, correctedText: string) returns (diffs: seq<Diff>)
    ensures var a, b := Split(originalText, ' '), Split(correctedText, ' ');
      && |diffs| == Max(|a|, |b|)
      && forall k :: 0 <= k < |diffs| ==> diffs[k] == DiffAt(a, b, k)
  {
    var originalWords := Split(originalText, ' ');
    var correctedWords := Split(correctedText, ' ');
    diffs := [];
    var i, j := 0, 0;
    while i < |originalWords| || j < |correctedWords|
      invariant |diffs| <= Max(|originalWords|, |correctedWords|)
      invariant i == Min(|diffs|, |originalWords|) && j == Min(|diffs|, |correctedWords|)
      invariant forall k :: 0 <= k < |diffs| ==> diffs[k] == DiffAt(originalWords, correctedWords, k)
      decreases |originalWords| + |correctedWords| - i - j
    {
      if i >= |originalWords| {
        diffs := diffs + [Added(correctedWords[j], j)];
        j := j + 1;
      } else if j >= |correctedWords| {
        diffs := diffs + [Removed(originalWords[i], i)];
        i := i + 1;
      } else if originalWords[i] == correctedWords[j] {
        diffs := diffs + [Unchanged(originalWords[i], i)];
        i := i + 1;
        j := j + 1;
      } else {
        diffs := diffs + [Changed(originalWords[i], correctedWords[j], i)];
        i := i + 1;
        j := j + 1;
      }
    }
  }

  /** Every entry records its own position, and an entry is unchanged
      exactly when both words exist and agree. */
  lemma DiffAtIndex(a: seq<string>, b: seq<string>, k: nat)
    requires k < Max(|a|, |b|)
    ensures DiffAt(a, b, k).index == k
    ensures DiffAt(a, b, k).Unchanged? <==> k < |a| && k < |b| && a[k] == b[k]
    ensures DiffAt(a, b, k).Added? <==> |a| <= k
    ensures DiffAt(a, b, k).Removed? <==> |b| <= k
  {
  }

  /** Comparing a text with itself reports every word unchanged. */
  lemma IdenticalTextsUnchanged(text: string, k: nat)
    requires k < |Split(text, ' ')|
    ensures DiffAt(Split(text, ' '), Split(text, ' '), k) == Unchanged(Split(text, ' ')[k], k)
  {
  }

  /** Splitting the empty text gives one empty word, so comparing it with a
      one-word text reports a change rather than an addition. */
  lemma EmptyTextIsOneWord(word: string)
    requires ' ' !in word && word != ""
    ensures Split("", ' ') == [""]
    ensures DiffAt(Split("", ' '), Split(word, ' '), 0) == Changed("", word, 0)
  {
    SplitCount(word, ' ');
    assert multiset(word)[' '] == 0;
    JoinSplit(word, ' ');
  }
}
