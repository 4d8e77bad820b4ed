/** The grammar correction page: a text, an undo stack of earlier texts,
    corrections spliced in by position or replaced by first occurrence, and
    the highlighted rendering of the known errors. */
module GrammarTool {
  import opened Wrappers
  import opened Js

  datatype ErrorKind = Spelling | GrammarError | StyleError

  /** One entry of `mockErrors`; the explanation and rule are presentation. */
  datatype TextError = TextError(id: nat, text: string, kind: ErrorKind, start: nat, end: nat, suggestion: string)

  const MockErrors: seq<TextError> := [
    TextError(1, "recieve", Spelling, 45, 52, "receive"),
    TextError(2, "there", GrammarError, 78, 83, "their"),
    TextError(3, "very good", StyleError, 120, 129, "excellent")
  ]

  /** `applyCorrection`'s new text: the suggestion replaces the characters
      from `start` to `end`, with `substring`'s clamping. */
  function Apply(text: string, e: TextError): (r: string)
    ensures e.start <= e.end <= |text| ==> r == text[..e.start] + e.suggestion + text[e.end..]
    ensures |text| <= e.start <= e.end ==> r == text + e.suggestion
  {
    Substring(text, 0, e.start) + e.suggestion + SubstringFrom(text, e.end)
  }

  /** The `forEach` of `handleOneClickCorrection`: each error's first
      occurrence is replaced in list order, each on the text the previous
      replacements produced. */
  function ReplaceEach(text: string, errs: seq<TextError>): string
    decreases |errs|
  {
    if errs == [] then text
    else ReplaceEach(ReplaceFirst(text, errs[0].text, errs[0].suggestion), errs[1..])
  }

  /** A text containing none of the error texts is left as it is. */
  lemma {:induction false} ReplaceEachClean(text: string, errs: seq<TextError>)
    requires forall k, i :: 0 <= k < |errs| ==> !OccursAt(text, errs[k].text, i)
    ensures ReplaceEach(text, errs) == text
    decreases |errs|
  {
    if errs != [] {
      assert forall i :: !OccursAt(text, errs[0].text, i);
      ReplaceEachClean(text, errs[1..]);
    }
  }

  /** Replacing the first occurrence of each error in turn: a replacement
      happens at the first place its pattern occurs in the current text. */
  lemma ReplaceEachStep(text: string, errs: seq<TextError>, at: int)
    requires errs != [] && FirstOccurrence(text, errs[0].text, at)
    ensures ReplaceEach(text, errs)
      == ReplaceEach(text[..at] + errs[0].suggestion + text[at + |errs[0].text|..], errs[1..])
  {
  }

  // ------------------------------------------------------------ highlighting

  /** The CSS class of a highlight. */
  function ClassFor(kind: ErrorKind): string {
    match kind
    case GrammarError => "border-b-2 border-red-500 cursor-pointer"
    case Spelling => "border-b-2 border-red-400 cursor-pointer"
    case StyleError => "border-b-2 border-orange-400 cursor-pointer"
  }

  /** The markup that replaces an error's characters. */
  function Span(e: TextError): string {
    "<span class=\"" + ClassFor(e.kind) + "\" data-error-id=\"" + NatToString(e.id) + "\">" + e.text + "</span>"
  }

  /** One step of the highlighting `forEach`. */
  function Splice(text: string, e: TextError): (r: string)
    ensures e.start <= e.end <= |text| ==> r == text[..e.start] + Span(e) + text[e.end..]
  {
    Substring(text, 0, e.start) + Span(e) + SubstringFrom(text, e.end)
  }

  /** The splices applied in list order. */
  function SpliceAll(text: string, errs: seq<TextError>): string
    decreases |errs|
  {
    if errs == [] then text else SpliceAll(Splice(text, errs[0]), errs[1..])
  }

  // ----------------------------------------------------------------- sorting

  /** Sorted by descending start, as `sort((a, b) => b.start - a.start)`
      leaves a list. */
  predicate Descending(errs: seq<TextError>) {
    forall i, j :: 0 <= i < j < |errs| ==> errs[i].start >= errs[j].start
  }

  /** A list stays descending under a new head no smaller than its
      elements. */
  lemma PrependDescending(x: TextError, s: seq<TextError>)
    requires Descending(s) && forall k :: 0 <= k < |s| ==> s[k].start <= x.start
    ensures Descending([x] + s)
  {
  }

  /** `e` goes before the first element whose start is not larger, so
      errors with equal starts keep their order, as in a stable sort. */
  function Insert(e: TextError, sorted: seq<TextError>): seq<TextError>
    decreases |sorted|
  {
    if sorted == [] || e.start >= sorted[0].start then [e] + sorted
    else [sorted[0]] + Insert(e, sorted[1..])
  }

  lemma {:induction false} InsertKeepsOrder(e: TextError, sorted: seq<TextError>)
    requires Descending(sorted)
    ensures multiset(Insert(e, sorted)) == multiset(sorted) + multiset{e}
    ensures Descending(Insert(e, sorted))
    decreases |sorted|
  {
    InsertKeepsErrors(e, sorted);
    if sorted == [] || e.start >= sorted[0].start {
      PrependDescending(e, sorted);
    } else {
      var head, tail := sorted[0], sorted[1..];
      var rest := Insert(e, tail);
      assert Descending(tail) && forall k :: 0 <= k < |tail| ==> tail[k].start <= head.start by {
        assert forall k :: 0 <= k < |tail| ==> tail[k] == sorted[k + 1];
      }
      InsertKeepsOrder(e, tail);
      StartsAtMost(head.start, tail, e, rest);
      PrependDescending(head, rest);
    }
  }

  lemma {:induction false} InsertKeepsErrors(e: TextError, sorted: seq<TextError>)
    ensures multiset(Insert(e, sorted)) == multiset(sorted) + multiset{e}
    decreases |sorted|
  {
    if sorted != [] && e.start < sorted[0].start {
      InsertKeepsErrors(e, sorted[1..]);
      assert sorted == [sorted[0]] + sorted[1..];
    }
  }

  /** A bound on the starts of a list and of `e` bounds the starts of a
      rearrangement of the list with `e` added. */
  lemma StartsAtMost(h: int, s: seq<TextError>, e: TextError, rest: seq<TextError>)
    requires e.start <= h && forall k :: 0 <= k < |s| ==> s[k].start <= h
    requires multiset(rest) == multiset(s) + multiset{e}
    ensures forall k :: 0 <= k < |rest| ==> rest[k].start <= h
  {
    forall k | 0 <= k < |rest|
      ensures rest[k].start <= h
    {
      assert rest[k] in multiset(rest);
      if rest[k] != e {
        assert rest[k] in multiset(s);
      }
    }
  }

  /** `[...errs].sort((a, b) => b.start - a.start)`, as an insertion sort. */
  function SortByStartDesc(errs: seq<TextError>): seq<TextError>
    decreases |errs|
  {
    if errs == [] then [] else Insert(errs[0], SortByStartDesc(errs[1..]))
  }

  /** The sort yields the same errors, by descending start. */
  lemma {:induction false} SortByStartDescSorts(errs: seq<TextError>)
    ensures Descending(SortByStartDesc(errs))
    ensures multiset(SortByStartDesc(errs)) == multiset(errs)
    decreases |errs|
  {
    if errs != [] {
      SortByStartDescSorts(errs[1..]);
      InsertKeepsOrder(errs[0], SortByStartDesc(errs[1..]));
      assert errs == [errs[0]] + errs[1..];
    }
  }

  /** Sorting the mock errors puts them in the order 3, 2, 1. */
  lemma MockErrorsSorted()
    ensures SortByStartDesc(MockErrors) == [MockErrors[2], MockErrors[1], MockErrors[0]]
  {
    var e1, e2, e3 := MockErrors[0], MockErrors[1], MockErrors[2];
    assert MockErrors[1..] == [e2, e3];
    assert MockErrors[1..][1..] == [e3];
    assert SortByStartDesc([e3]) == [e3];
    assert Insert(e2, [e3]) == [e3] + Insert(e2, []);
    assert SortByStartDesc([e2, e3]) == [e3, e2];
  }

  // ---------------------------------------------------- splicing right to left

  /** Splices that go from right to left without overlapping: each error
      ends at or before the start of the one spliced before it. */
  predicate RightToLeft(errs: seq<TextError>) {
    && (forall k :: 0 <= k < |errs| ==> errs[k].start <= errs[k].end)
    && (forall i, j :: 0 <= i < j < |errs| ==> errs[j].end <= errs[i].start)
  }

  lemma ConcatAssoc(a: string, b: string, c: string)
    ensures a + (b + c) == a + b + c
  {
  }

  lemma SpliceInBounds(text: string, e: TextError)
    requires e.start <= e.end <= |text|
    ensures Splice(text, e) == text[..e.start] + (Span(e) + text[e.end..])
  {
    ConcatAssoc(text[..e.start], Span(e), text[e.end..]);
  }

  lemma RightToLeftTail(errs: seq<TextError>)
    requires errs != [] && RightToLeft(errs)
    ensures RightToLeft(errs[1..])
    ensures errs[1..] == [] || errs[1].end <= errs[0].start
  {
  }

  /** Splicing only before `|p|` leaves what follows `p` untouched. */
  lemma {:induction false} SpliceAllAppend(p: string, q: string, errs: seq<TextError>)
    requires RightToLeft(errs) && (errs == [] || errs[0].end <= |p|)
    ensures SpliceAll(p + q, errs) == SpliceAll(p, errs) + q
    decreases |errs|
  {
    if errs != [] {
      var e := errs[0];
      var p' := p[..e.start] + Span(e) + p[e.end..];
      assert (p + q)[..e.start] == p[..e.start];
      assert (p + q)[e.end..] == p[e.end..] + q;
      assert Splice(p + q, e) == p' + q;
      SpliceAllAppend(p', q, errs[1..]);
    }
  }

  /** The first splice fixes the text after its error, and the rest work on
      the untouched text before it. */
  lemma HighlightUsesOriginalOffsets(text: string, errs: seq<TextError>)
    requires errs != [] && RightToLeft(errs) && errs[0].end <= |text|
    ensures SpliceAll(text, errs)
      == SpliceAll(text[..errs[0].start], errs[1..]) + (Span(errs[0]) + text[errs[0].end..])
  {
    var e := errs[0];
    SpliceInBounds(text, e);
    RightToLeftTail(errs);
    SpliceAllAppend(text[..e.start], Span(e) + text[e.end..], errs[1..]);
  }

  /** The highlighted text read from left to right: the text before the
      leftmost error with its own highlights, that error's markup, then the
      original text after it. */
  function Highlighted(text: string, errs: seq<TextError>): string
    requires RightToLeft(errs) && (errs == [] || errs[0].end <= |text|)
    decreases |errs|
  {
    if errs == [] then text
    else
      RightToLeftTail(errs);
      Highlighted(text[..errs[0].start], errs[1..]) + Span(errs[0]) + text[errs[0].end..]
  }

  /** Splicing from right to left puts every error's markup at that error's
      offsets in the original text. */
  lemma {:induction false} SpliceAllIsHighlighted(text: string, errs: seq<TextError>)
    requires RightToLeft(errs) && (errs == [] || errs[0].end <= |text|)
    ensures SpliceAll(text, errs) == Highlighted(text, errs)
    decreases |errs|
  {
    if errs != [] {
      var e, rest := errs[0], errs[1..];
      RightToLeftTail(errs);
      calc {
        SpliceAll(text, errs);
      == { HighlightUsesOriginalOffsets(text, errs); }
        SpliceAll(text[..e.start], rest) + (Span(e) + text[e.end..]);
      == { SpliceAllIsHighlighted(text[..e.start], rest); }
        Highlighted(text[..e.start], rest) + (Span(e) + text[e.end..]);
      == { ConcatAssoc(Highlighted(text[..e.start], rest), Span(e), text[e.end..]); }
        Highlighted(text, errs);
      }
    }
  }

  lemma PrefixSlices(text: string, k: int, i: int, j: int)
    requires 0 <= i <= j <= k <= |text|
    ensures text[..k][..i] == text[..i] && text[..k][j..] == text[j..k]
    ensures text[..k][i..j] == text[i..j]
  {
  }

  /** One error, read from left to right. */
  lemma OneHighlight(text: string, e: TextError)
    requires e.start <= e.end <= |text|
    requires RightToLeft([e])
    ensures Highlighted(text, [e]) == text[..e.start] + Span(e) + text[e.end..]
  {
    var before := text[..e.start];
    assert [e][1..] == [];
    assert Highlighted(before, []) == before;
    assert Highlighted(text, [e]) == Highlighted(before, [e][1..]) + Span(e) + text[e.end..];
  }

  /** Two errors from right to left, read from left to right. */
  lemma TwoHighlights(text: string, e1: TextError, e2: TextError)
    requires e1.start <= e1.end <= e2.start <= e2.end <= |text|
    requires RightToLeft([e2, e1])
    ensures Highlighted(text, [e2, e1])
      == text[..e1.start] + Span(e1) + text[e1.end..e2.start] + Span(e2) + text[e2.end..]
  {
    RightToLeftTail([e2, e1]);
    assert [e2, e1][1..] == [e1];
    var t := text[..e2.start];
    OneHighlight(t, e1);
    PrefixSlices(text, e2.start, e1.start, e1.end);
  }

  /** Three errors from right to left, read from left to right. */
  lemma ThreeHighlights(text: string, e1: TextError, e2: TextError, e3: TextError)
    requires e1.start <= e1.end <= e2.start <= e2.end <= e3.start <= e3.end <= |text|
    requires RightToLeft([e3, e2, e1])
    ensures Highlighted(text, [e3, e2, e1])
      == text[..e1.start] + Span(e1) + text[e1.end..e2.start] + Span(e2)
         + text[e2.end..e3.start] + Span(e3) + text[e3.end..]
  {
    RightToLeftTail([e3, e2, e1]);
    assert [e3, e2, e1][1..] == [e2, e1];
    var t := text[..e3.start];
    TwoHighlights(t, e1, e2);
    PrefixSlices(text, e3.start, e1.start, e1.end);
    PrefixSlices(text, e3.start, e1.end, e2.start);
    PrefixSlices(text, e3.start, e2.end, e2.end);
  }

  /** On a text long enough for every mock error, each highlight sits at
      that error's offsets in the original text. */
  lemma MockHighlight(text: string)
    requires |text| >= 129
    ensures SpliceAll(text, SortByStartDesc(MockErrors))
      == text[..45] + Span(MockErrors[0]) + text[52..78] + Span(MockErrors[1])
         + text[83..120] + Span(MockErrors[2]) + text[129..]
  {
    MockErrorsSorted();
    ThreeSplices(text, MockErrors[0], MockErrors[1], MockErrors[2]);
  }

  /** Three ordered errors, spliced right to left, each land at their own
      offsets in the original text. */
  lemma ThreeSplices(text: string, e1: TextError, e2: TextError, e3: TextError)
    requires e1.start <= e1.end <= e2.start <= e2.end <= e3.start <= e3.end <= |text|
    ensures SpliceAll(text, [e3, e2, e1])
      == text[..e1.start] + Span(e1) + text[e1.end..e2.start] + Span(e2)
         + text[e2.end..e3.start] + Span(e3) + text[e3.end..]
  {
    ThreeRightToLeft(e1, e2, e3);
    ThreeHighlights(text, e1, e2, e3);
    SpliceAllIsHighlighted(text, [e3, e2, e1]);
  }

  /** Three ordered errors listed last first run right to left. */
  lemma ThreeRightToLeft(e1: TextError, e2: TextError, e3: TextError)
    requires e1.start <= e1.end <= e2.start <= e2.end <= e3.start <= e3.end
    ensures RightToLeft([e3, e2, e1])
  {
    var errs := [e3, e2, e1];
    forall i, j | 0 <= i < j < |errs|
      ensures errs[j].end <= errs[i].start
    {
    }
  }

  /** `inputText.split(/\s+/).filter(word => word.length > 0).length`. */
  function WordCount(text: string): nat {
    |Words(text)|
  }

  /** The count is zero exactly for a blank text, and a space between two
      texts adds their counts. */
  lemma WordCountProperties(a: string, b: string)
    ensures WordCount(a) == 0 <==> AllSpace(a)
    ensures WordCount(a + " " + b) == WordCount(a) + WordCount(b)
  {
    NoWordsIffAllSpace(a);
    WordsAroundSpace(a, ' ', b);
    assert a + " " + b == a + [' '] + b;
  }

  class GrammarTool {
    var inputText: string
    var correctedText: string
    var undoStack: seq<string>
    var selectedError: Option<TextError>

    constructor ()
      ensures inputText == "" && correctedText == "" && undoStack == [] && selectedError == None
    {
      inputText, correctedText, undoStack, selectedError := "", "", [], None;
    }

    /** `handleTextChange`: the old text is pushed only when the new one
        differs. */
    method HandleTextChange(newText: string)
      modifies this
      ensures inputText == newText
      ensures undoStack == if newText != old(inputText) then old(undoStack) + [old(inputText)] else old(undoStack)
      ensures correctedText == old(correctedText) && selectedError == old(selectedError)
    {
      if newText != inputText {
        undoStack := undoStack + [inputText];
      }
      inputText := newText;
    }

    /** `handleErrorClick`. */
    method HandleErrorClick(e: TextError)
      modifies this
      ensures selectedError == Some(e)
      ensures inputText == old(inputText) && correctedText == old(correctedText) && undoStack == old(undoStack)
    {
      selectedError := Some(e);
    }

    /** `applyCorrection` of the selected error, from the popup: the old text
        is pushed once and the corrected text becomes both texts. */
    method ApplyCorrection()
      requires selectedError.Some?
      modifies this
      ensures inputText == Apply(old(inputText), old(selectedError).value)
      ensures correctedText == inputText
      ensures undoStack == old(undoStack) + [old(inputText)]
      ensures selectedError == None
    {
      var newText := Apply(inputText, selectedError.value);
      undoStack := undoStack + [inputText];
      inputText := newText;
      correctedText := newText;
      selectedError := None;
    }

    /** `handleUndo`: the top of a non-empty stack comes back and is popped;
        an empty stack changes nothing. */
    method HandleUndo()
      modifies this
      ensures |old(undoStack)| > 0 ==>
        && inputText == old(undoStack)[|old(undoStack)| - 1]
        && undoStack == old(undoStack)[..|old(undoStack)| - 1]
      ensures |old(undoStack)| == 0 ==> inputText == old(inputText) && undoStack == old(undoStack)
      ensures correctedText == old(correctedText) && selectedError == old(selectedError)
    {
      if |undoStack| > 0 {
        inputText := undoStack[|undoStack| - 1];
        undoStack := undoStack[..|undoStack| - 1];
      }
    }

    /** Applying a correction and undoing it gives back the text and the
        stack as they were. */
    method ApplyThenUndo()
      requires selectedError.Some?
      modifies this
      ensures inputText == old(inputText) && undoStack == old(undoStack)
    {
      ApplyCorrection();
      HandleUndo();
    }

    /** `handleOneClickCorrection`, enabled only for a non-empty text. */
    method HandleOneClickCorrection()
      requires inputText != ""
      modifies this
      ensures inputText == ReplaceEach(old(inputText), MockErrors)
      ensures correctedText == inputText
      ensures undoStack == old(undoStack) + [old(inputText)]
      ensures selectedError == old(selectedError)
    {
      var corrected := inputText;
      var i := 0;
      while i < |MockErrors|
        invariant 0 <= i <= |MockErrors|
        invariant ReplaceEach(corrected, MockErrors[i..]) == ReplaceEach(inputText, MockErrors)
      {
        var e := MockErrors[i];
        assert MockErrors[i..][1..] == MockErrors[i + 1..];
        corrected := ReplaceFirst(corrected, e.text, e.suggestion);
        i := i + 1;
      }
      assert MockErrors[i..] == [];
      undoStack := undoStack + [inputText];
      inputText := corrected;
      correctedText := corrected;
    }

    /** `renderHighlightedText`: nothing for an empty text, otherwise every
        error spliced in by descending start. */
    method RenderHighlightedText() returns (html: Option<string>)
      ensures inputText == "" ==> html == None
      ensures inputText != "" ==> html == Some(SpliceAll(inputText, SortByStartDesc(MockErrors)))
    {
      if inputText == "" {
        return None;
      }
      var highlighted := inputText;
      var errs := SortByStartDesc(MockErrors);
      var i := 0;
      while i < |errs|
        invariant 0 <= i <= |errs|
        invariant SpliceAll(highlighted, errs[i..]) == SpliceAll(inputText, errs)
      {
        assert errs[i..][1..] == errs[i + 1..];
        highlighted := Splice(highlighted, errs[i]);
        i := i + 1;
      }
      assert errs[i..] == [];
      html := Some(highlighted);
    }
  }
}
