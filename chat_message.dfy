/** How a chat message shows its grammar errors: each error's text is
    wrapped in a `<span>` whose title is the explanation, working through
    the errors in list order and shifting every later position by the
    markup inserted so far. */
module ChatMessage {
  import opened Wrappers
  import opened Js

  /** One entry of a message's `grammarErrors`; `start` and `end` are
      `position.start` and `position.end`. */
  datatype GrammarError = GrammarError(text: string, correction: string, explanation: string, start: int, end: int)

  /** The markup that opens a highlight. */
  function Open(explanation: string): string {
    "<span class=\"grammar-error\" title=\"" + explanation + "\">"
  }

  const Close: string := "</span>"

  /** The template literal that replaces an error's text. */
  function Replacement(explanation: string, t: string): (r: string)
    ensures |r| == |Open(explanation)| + |t| + |Close|
  {
    Open(explanation) + t + Close
  }

  /** What a highlight adds to the length: its markup, whatever it wraps. */
  function Growth(e: GrammarError): nat {
    |Open(e.explanation)| + |Close|
  }

  function TotalGrowth(errs: seq<GrammarError>): nat
    decreases |errs|
  {
    if errs == [] then 0 else TotalGrowth(errs[..|errs| - 1]) + Growth(errs[|errs| - 1])
  }

  /** The two variables the `forEach` updates. */
  datatype Render = Render(content: string, offset: int)

  /** One iteration of the `forEach`. */
  function Step(st: Render, e: GrammarError): (r: Render)
    ensures r.offset == st.offset + Growth(e)
  {
    var start, end := e.start + st.offset, e.end + st.offset;
    var errorText := Substring(st.content, start, end);
    var replacement := Replacement(e.explanation, errorText);
    Render(Substring(st.content, 0, start) + replacement + SubstringFrom(st.content, end),
           st.offset + |replacement| - |errorText|)
  }

  /** The `forEach` over the first `|errs|` errors. */
  function Run(content: string, errs: seq<GrammarError>): Render
    decreases |errs|
  {
    if errs == [] then Render(content, 0)
    else Step(Run(content, errs[..|errs| - 1]), errs[|errs| - 1])
  }

  lemma RunExtends(content: string, errs: seq<GrammarError>, i: nat)
    requires i < |errs|
    ensures Run(content, errs[..i + 1]) == Step(Run(content, errs[..i]), errs[i])
  {
    assert errs[..i + 1][..i] == errs[..i];
  }

  /** The offset before an error is what the highlights of all earlier
      errors added, for errors in any order and at any position. */
  lemma {:induction false} OffsetIsTotalGrowth(content: string, errs: seq<GrammarError>)
    ensures Run(content, errs).offset == TotalGrowth(errs)
    decreases |errs|
  {
    if errs != [] {
      OffsetIsTotalGrowth(content, errs[..|errs| - 1]);
    }
  }

  /** The text the highlight of error `k` wraps. */
  function WrappedText(content: string, errs: seq<GrammarError>, k: nat): string
    requires k < |errs|
  {
    ErrorText(Run(content, errs[..k]), errs[k])
  }

  /** The `errorText` a step cuts out of the content. */
  function ErrorText(st: Render, e: GrammarError): string {
    Substring(st.content, e.start + st.offset, e.end + st.offset)
  }

  /** What the rendering is written for: positions inside the text, listed
      from left to right, not overlapping. */
  predicate InOrder(errs: seq<GrammarError>, len: int) {
    && (forall k :: 0 <= k < |errs| ==> 0 <= errs[k].start <= errs[k].end <= len)
    && (forall i, j :: 0 <= i < j < |errs| ==> errs[i].end <= errs[j].start)
  }

  lemma InOrderPrefix(errs: seq<GrammarError>, len: int, n: nat)
    requires InOrder(errs, len) && n <= |errs|
    ensures InOrder(errs[..n], len)
  {
  }

  /** Where the last error ends, or 0 with no error. */
  function End(errs: seq<GrammarError>): int {
    if errs == [] then 0 else errs[|errs| - 1].end
  }

  /** The expected rendering of the text up to the last error's end: the
      original text, with each error's own slice wrapped. */
  function MarkedPrefix(c: string, errs: seq<GrammarError>): string
    requires InOrder(errs, |c|)
    decreases |errs|
  {
    if errs == [] then []
    else
      var init, e := errs[..|errs| - 1], errs[|errs| - 1];
      InOrderPrefix(errs, |c|, |errs| - 1);
      assert init != [] ==> init[|init| - 1].end <= e.start;
      MarkedPrefix(c, init) + c[End(init)..e.start] + Replacement(e.explanation, c[e.start..e.end])
  }

  /** A step whose shifted position lies inside the content wraps that
      slice and keeps the text around it. */
  lemma StepInBounds(st: Render, e: GrammarError, before: string, wrapped: string, after: string)
    requires 0 <= e.start + st.offset <= e.end + st.offset <= |st.content|
    requires before == st.content[..e.start + st.offset]
    requires wrapped == st.content[e.start + st.offset..e.end + st.offset]
    requires after == st.content[e.end + st.offset..]
    ensures ErrorText(st, e) == wrapped
    ensures Step(st, e).content == before + Replacement(e.explanation, wrapped) + after
  {
    var start, end := e.start + st.offset, e.end + st.offset;
    assert Substring(st.content, start, end) == wrapped;
    assert Substring(st.content, 0, start) == before;
    assert SubstringFrom(st.content, end) == after;
  }

  /** A step over content that is an already rendered part `p` followed by
      the original text from `m` on, with the offset that `p` adds, wraps
      the error's original slice. */
  lemma ShiftedStep(st: Render, p: string, c: string, m: int, e: GrammarError)
    requires 0 <= m <= e.start <= e.end <= |c|
    requires st.content == p + c[m..] && st.offset == |p| - m
    ensures ErrorText(st, e) == c[e.start..e.end]
    ensures Step(st, e).content
      == (p + c[m..e.start] + Replacement(e.explanation, c[e.start..e.end])) + c[e.end..]
  {
    assert e.start + st.offset == |p| + (e.start - m) && e.end + st.offset == |p| + (e.end - m);
    SlicesAfterPrefix(p, c, m, e.start, e.end);
    StepInBounds(st, e, p + c[m..e.start], c[e.start..e.end], c[e.end..]);
  }

  /** The last error of an ordered list starts after the one before it ends. */
  lemma LastBounds(errs: seq<GrammarError>, len: int)
    requires InOrder(errs, len) && errs != []
    ensures 0 <= End(errs[..|errs| - 1]) <= errs[|errs| - 1].start <= errs[|errs| - 1].end <= len
  {
    var init := errs[..|errs| - 1];
    if init != [] {
      assert init[|init| - 1] == errs[|errs| - 2];
    }
  }

  /** The last error's highlight wraps its original slice when the
      rendering so far is some prefix `p` followed by the original text
      from where the previous error ended. */
  lemma LastWrapped(c: string, errs: seq<GrammarError>, p: string)
    requires errs != []
    requires 0 <= End(errs[..|errs| - 1]) <= errs[|errs| - 1].start <= errs[|errs| - 1].end <= |c|
    requires Run(c, errs[..|errs| - 1]).content == p + c[End(errs[..|errs| - 1])..]
    requires Run(c, errs[..|errs| - 1]).offset == |p| - End(errs[..|errs| - 1])
    ensures WrappedText(c, errs, |errs| - 1) == c[errs[|errs| - 1].start..errs[|errs| - 1].end]
  {
    var init, e := errs[..|errs| - 1], errs[|errs| - 1];
    ShiftedStep(Run(c, init), p, c, End(init), e);
  }

  /** The last step of an ordered rendering keeps the text between the
      highlights and lengthens the rendered prefix by the markup alone. */
  lemma LastStep(c: string, errs: seq<GrammarError>)
    requires InOrder(errs, |c|) && errs != []
    requires InOrder(errs[..|errs| - 1], |c|)
    requires Run(c, errs[..|errs| - 1]).content
      == MarkedPrefix(c, errs[..|errs| - 1]) + c[End(errs[..|errs| - 1])..]
    requires |MarkedPrefix(c, errs[..|errs| - 1])| == End(errs[..|errs| - 1]) + TotalGrowth(errs[..|errs| - 1])
    ensures WrappedText(c, errs, |errs| - 1) == c[errs[|errs| - 1].start..errs[|errs| - 1].end]
    ensures Run(c, errs).content == MarkedPrefix(c, errs) + c[End(errs)..]
    ensures |MarkedPrefix(c, errs)| == End(errs) + TotalGrowth(errs)
  {
    var init, e := errs[..|errs| - 1], errs[|errs| - 1];
    var st := Run(c, init);
    OffsetIsTotalGrowth(c, init);
    LastBounds(errs, |c|);
    var p, m := MarkedPrefix(c, init), End(init);
    ShiftedStep(st, p, c, m, e);
    LastWrapped(c, errs, p);
    MarkedPrefixLast(c, errs);
    assert Run(c, errs) == Step(st, e);
  }

  /** The expected rendering grows by the text up to the last error and
      that error's highlight. */
  lemma MarkedPrefixLast(c: string, errs: seq<GrammarError>)
    requires InOrder(errs, |c|) && errs != []
    ensures InOrder(errs[..|errs| - 1], |c|)
    ensures MarkedPrefix(c, errs)
      == MarkedPrefix(c, errs[..|errs| - 1]) + c[End(errs[..|errs| - 1])..errs[|errs| - 1].start]
        + Replacement(errs[|errs| - 1].explanation, c[errs[|errs| - 1].start..errs[|errs| - 1].end])
  {
    InOrderPrefix(errs, |c|, |errs| - 1);
    LastBounds(errs, |c|);
  }

  /** Slicing `p + c[m..]` beyond `p` is slicing `c`. */
  lemma SlicesAfterPrefix(p: string, c: string, m: int, i: int, j: int)
    requires 0 <= m <= i <= j <= |c|
    ensures (p + c[m..])[|p| + (i - m)..|p| + (j - m)] == c[i..j]
    ensures (p + c[m..])[..|p| + (i - m)] == p + c[m..i]
    ensures (p + c[m..])[|p| + (j - m)..] == c[j..]
  {
    var q, r := p + c[m..], c[m..];
    assert q[..|p|] == p && q[|p|..] == r;
    assert q[|p| + (i - m)..|p| + (j - m)] == r[i - m..j - m] == c[i..j];
    assert q[|p|..][..i - m] == r[..i - m] == c[m..i];
    assert q[..|p| + (i - m)] == q[..|p|] + q[|p|..][..i - m];
    assert q[|p| + (j - m)..] == r[j - m..] == c[j..];
  }

  /** For ordered errors each highlight wraps exactly the error's original
      slice, the text between the highlights is the original text in order,
      and the result is longer by the markup alone. */
  lemma {:induction false} InOrderWrapsOriginalSlices(c: string, errs: seq<GrammarError>)
    requires InOrder(errs, |c|)
    ensures Run(c, errs).content == MarkedPrefix(c, errs) + c[End(errs)..]
    ensures |MarkedPrefix(c, errs)| == End(errs) + TotalGrowth(errs)
    ensures |Run(c, errs).content| == |c| + TotalGrowth(errs)
    decreases |errs|
  {
    if errs != [] {
      InOrderPrefix(errs, |c|, |errs| - 1);
      InOrderWrapsOriginalSlices(c, errs[..|errs| - 1]);
      LastStep(c, errs);
    }
    EndWithin(errs, |c|);
    LengthOfParts(MarkedPrefix(c, errs), c, End(errs), TotalGrowth(errs));
  }

  lemma EndWithin(errs: seq<GrammarError>, len: int)
    requires InOrder(errs, len) && 0 <= len
    ensures 0 <= End(errs) <= len
  {
  }

  lemma LengthOfParts(p: string, c: string, m: int, g: int)
    requires 0 <= m <= |c| && |p| == m + g
    ensures |p + c[m..]| == |c| + g
  {
  }

  /** Every highlight of an ordered list wraps its own error's text. */
  lemma EachSpanWrapsItsSlice(c: string, errs: seq<GrammarError>, k: nat)
    requires InOrder(errs, |c|) && k < |errs|
    ensures WrappedText(c, errs, k) == c[errs[k].start..errs[k].end]
  {
    var upTo := errs[..k + 1];
    InOrderPrefix(errs, |c|, k + 1);
    InOrderPrefix(upTo, |c|, k);
    assert upTo[..k] == errs[..k];
    InOrderWrapsOriginalSlices(c, errs[..k]);
    LastStep(c, upTo);
  }

  /** What the message bubble shows. */
  datatype Rendered = Html(html: string) | Plain(text: string)

  /** `renderMessageContent`: a message without errors (absent or empty)
      is shown as it is; otherwise the loop splices in the highlights. */
  method RenderMessageContent(content: string, grammarErrors: Option<seq<GrammarError>>)
    returns (r: Rendered)
    ensures grammarErrors.None? || grammarErrors.value == [] ==> r == Plain(content)
    ensures grammarErrors.Some? && grammarErrors.value != [] ==>
      r == Html(Run(content, grammarErrors.value).content)
  {
    if grammarErrors.None? || |grammarErrors.value| == 0 {
      return Plain(content);
    }
    var errs := grammarErrors.value;
    var html, offset := content, 0;
    var i := 0;
    while i < |errs|
      invariant 0 <= i <= |errs|
      invariant Render(html, offset) == Run(content, errs[..i])
    {
      RunExtends(content, errs, i);
      var next := Step(Render(html, offset), errs[i]);
      html, offset := next.content, next.offset;
      i := i + 1;
    }
    assert errs[..i] == errs;
    r := Html(html);
  }

  // ----------------------------------------- rendering errors in any order

  /** Every error covers at least one character of the text. */
  predicate Placed(errs: seq<GrammarError>, len: int) {
    forall k :: 0 <= k < |errs| ==> 0 <= errs[k].start < errs[k].end <= len
  }

  /** No two errors overlap, whatever their order. */
  predicate Disjoint(errs: seq<GrammarError>) {
    forall i, j :: 0 <= i < j < |errs| ==> errs[i].end <= errs[j].start || errs[j].end <= errs[i].start
  }

  function InsertByStart(e: GrammarError, s: seq<GrammarError>): seq<GrammarError>
    decreases |s|
  {
    if s == [] || e.start <= s[0].start then [e] + s
    else [s[0]] + InsertByStart(e, s[1..])
  }

  /** `[...errors].sort((a, b) => a.position.start - b.position.start)`. */
  function SortByStart(errs: seq<GrammarError>): seq<GrammarError>
    decreases |errs|
  {
    if errs == [] then [] else InsertByStart(errs[0], SortByStart(errs[1..]))
  }

  lemma {:induction false} InsertByStartPerm(e: GrammarError, s: seq<GrammarError>)
    ensures multiset(InsertByStart(e, s)) == multiset(s) + multiset{e}
    decreases |s|
  {
    if s != [] && e.start > s[0].start {
      InsertByStartPerm(e, s[1..]);
      assert s == [s[0]] + s[1..];
    }
  }

  /** An error placed before every error of an ordered list can go in
      front of it. */
  lemma ConsInOrder(x: GrammarError, s: seq<GrammarError>, len: int)
    requires InOrder(s, len) && Placed(s, len) && 0 <= x.start < x.end <= len
    requires forall k :: 0 <= k < |s| ==> x.end <= s[k].start
    ensures InOrder([x] + s, len) && Placed([x] + s, len)
  {
    var t := [x] + s;
    assert forall k :: 0 < k < |t| ==> t[k] == s[k - 1];
  }

  /** An error that ends before everything in `tail` and before `e` ends
      before everything in a rearrangement of `tail` with `e` added. */
  lemma EndsBeforeAll(x: GrammarError, tail: seq<GrammarError>, e: GrammarError, rest: seq<GrammarError>)
    requires x.end <= e.start
    requires forall k :: 0 <= k < |tail| ==> x.end <= tail[k].start
    requires multiset(rest) == multiset(tail) + multiset{e}
    ensures forall k :: 0 <= k < |rest| ==> x.end <= rest[k].start
  {
    forall k | 0 <= k < |rest|
      ensures x.end <= rest[k].start
    {
      assert rest[k] in multiset(rest);
      if rest[k] != e {
        assert rest[k] in multiset(tail);
      }
    }
  }

  /** An error starting no later than the head of an ordered list, and
      overlapping none of its errors, ends before all of them. */
  lemma BeforeHeadBeforeAll(e: GrammarError, s: seq<GrammarError>, len: int)
    requires InOrder(s, len) && Placed(s, len) && 0 <= e.start < e.end <= len
    requires forall k :: 0 <= k < |s| ==> s[k].end <= e.start || e.end <= s[k].start
    requires s == [] || e.start <= s[0].start
    ensures forall k :: 0 <= k < |s| ==> e.end <= s[k].start
  {
    forall k | 0 <= k < |s|
      ensures e.end <= s[k].start
    {
      if k > 0 {
        assert s[0].end <= s[k].start;
      }
    }
  }

  /** The tail of an ordered list is ordered and starts after the head,
      and an error apart from the list is apart from its tail. */
  lemma OrderedTail(e: GrammarError, s: seq<GrammarError>, len: int)
    requires InOrder(s, len) && Placed(s, len) && s != [] && e.start > s[0].start
    requires forall k :: 0 <= k < |s| ==> s[k].end <= e.start || e.end <= s[k].start
    requires 0 <= e.start < e.end
    ensures InOrder(s[1..], len) && Placed(s[1..], len) && s[0].end <= e.start
    ensures forall k :: 0 <= k < |s[1..]| ==> s[0].end <= s[1..][k].start
    ensures forall k :: 0 <= k < |s[1..]| ==> s[1..][k].end <= e.start || e.end <= s[1..][k].start
  {
    var tail := s[1..];
    assert forall k :: 0 <= k < |tail| ==> tail[k] == s[k + 1];
  }

  lemma {:induction false} InsertByStartInOrder(e: GrammarError, s: seq<GrammarError>, len: int)
    requires InOrder(s, len) && Placed(s, len) && 0 <= e.start < e.end <= len
    requires forall k :: 0 <= k < |s| ==> s[k].end <= e.start || e.end <= s[k].start
    ensures InOrder(InsertByStart(e, s), len) && Placed(InsertByStart(e, s), len)
    decreases |s|
  {
    if s == [] || e.start <= s[0].start {
      BeforeHeadBeforeAll(e, s, len);
      ConsInOrder(e, s, len);
    } else {
      var x, tail := s[0], s[1..];
      OrderedTail(e, s, len);
      InsertByStartInOrder(e, tail, len);
      InsertByStartPerm(e, tail);
      EndsBeforeAll(x, tail, e, InsertByStart(e, tail));
      ConsInOrder(x, InsertByStart(e, tail), len);
    }
  }

  /** Sorting keeps the same errors. */
  lemma {:induction false} SortByStartPerm(errs: seq<GrammarError>)
    ensures multiset(SortByStart(errs)) == multiset(errs)
    ensures |SortByStart(errs)| == |errs|
    decreases |errs|
  {
    if errs != [] {
      SortByStartPerm(errs[1..]);
      InsertByStartPerm(errs[0], SortByStart(errs[1..]));
      assert errs == [errs[0]] + errs[1..];
      assert |multiset(SortByStart(errs))| == |multiset(errs)|;
    }
  }

  /** Sorting by start puts placed, non-overlapping errors in the order the
      rendering is written for. */
  lemma {:induction false} SortByStartInOrder(errs: seq<GrammarError>, len: int)
    requires Placed(errs, len) && Disjoint(errs)
    ensures InOrder(SortByStart(errs), len) && Placed(SortByStart(errs), len)
    decreases |errs|
  {
    if errs != [] {
      var e, tail := errs[0], errs[1..];
      var sorted := SortByStart(tail);
      TailApart(errs, len);
      SortByStartInOrder(tail, len);
      SortByStartPerm(tail);
      ApartFromAll(e, tail, sorted);
      InsertByStartInOrder(e, sorted, len);
    }
  }

  /** The tail of placed, non-overlapping errors is placed and
      non-overlapping, and its errors do not overlap the head. */
  lemma TailApart(errs: seq<GrammarError>, len: int)
    requires Placed(errs, len) && Disjoint(errs) && errs != []
    ensures Placed(errs[1..], len) && Disjoint(errs[1..])
    ensures 0 <= errs[0].start < errs[0].end <= len
    ensures forall k :: 0 <= k < |errs[1..]| ==> errs[1..][k].end <= errs[0].start || errs[0].end <= errs[1..][k].start
  {
    var tail := errs[1..];
    assert forall k :: 0 <= k < |tail| ==> tail[k] == errs[k + 1];
  }

  /** Not overlapping any error of a list is not overlapping any error of
      a rearrangement of it. */
  lemma ApartFromAll(e: GrammarError, s: seq<GrammarError>, t: seq<GrammarError>)
    requires forall k :: 0 <= k < |s| ==> s[k].end <= e.start || e.end <= s[k].start
    requires multiset(t) == multiset(s)
    ensures forall k :: 0 <= k < |t| ==> t[k].end <= e.start || e.end <= t[k].start
  {
    forall k | 0 <= k < |t|
      ensures t[k].end <= e.start || e.end <= t[k].start
    {
      assert t[k] in multiset(s);
      var j :| 0 <= j < |s| && s[j] == t[k];
    }
  }

  /** The rendering with the errors sorted by start first. */
  method RenderMessageContentSorted(content: string, grammarErrors: Option<seq<GrammarError>>)
    returns (r: Rendered)
    ensures grammarErrors.None? || grammarErrors.value == [] ==> r == Plain(content)
    ensures grammarErrors.Some? && grammarErrors.value != [] ==>
      r == Html(Run(content, SortByStart(grammarErrors.value)).content)
  {
    if grammarErrors.None? || |grammarErrors.value| == 0 {
      return Plain(content);
    }
    var errs := grammarErrors.value;
    var sorted := SortByStart(errs);
    assert sorted != [] by {
      assert errs == [errs[0]] + errs[1..];
      assert |InsertByStart(errs[0], SortByStart(errs[1..]))| > 0;
    }
    r := RenderMessageContent(content, Some(sorted));
  }

  /** With the errors sorted first, placed non-overlapping errors in any
      order are each wrapped at their own slice, and the result is longer
      than the text by the markup alone. */
  lemma SortedWrapsEverySlice(c: string, errs: seq<GrammarError>, k: nat)
    requires Placed(errs, |c|) && Disjoint(errs)
    ensures multiset(SortByStart(errs)) == multiset(errs)
    ensures InOrder(SortByStart(errs), |c|)
    ensures k < |SortByStart(errs)| ==>
      WrappedText(c, SortByStart(errs), k) == c[SortByStart(errs)[k].start..SortByStart(errs)[k].end]
    ensures |Run(c, SortByStart(errs)).content| == |c| + TotalGrowth(SortByStart(errs))
  {
    SortByStartPerm(errs);
    SortByStartInOrder(errs, |c|);
    if k < |SortByStart(errs)| {
      EachSpanWrapsItsSlice(c, SortByStart(errs), k);
    }
    InOrderWrapsOriginalSlices(c, SortByStart(errs));
  }
}
