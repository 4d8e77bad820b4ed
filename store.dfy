/** The one query shape the backend uses: Mongoose's `findOne(filter)`,
    which returns the first stored document that satisfies the filter, in
    insertion order, or `null`. */
module Store {
  import opened Wrappers

  function FindFirstFrom<T>(s: seq<T>, p: T -> bool, i: nat): (r: Option<nat>)
    requires i <= |s|
    decreases |s| - i
    ensures r.Some? ==>
      && i <= r.value < |s| && p(s[r.value])
      && forall k :: i <= k < r.value ==> !p(s[k])
    ensures r.None? ==> forall k :: i <= k < |s| ==> !p(s[k])
  {
    if i == |s| then None
    else if p(s[i]) then Some(i)
    else FindFirstFrom(s, p, i + 1)
  }

  /** `findOne`: the position of the first element satisfying `p`, or
      `None` when no element does. */
  function FindFirst<T>(s: seq<T>, p: T -> bool): (r: Option<nat>)
    ensures r.Some? ==>
      && r.value < |s| && p(s[r.value])
      && forall k :: 0 <= k < r.value ==> !p(s[k])
    ensures r.None? <==> forall k :: 0 <= k < |s| ==> !p(s[k])
  {
    FindFirstFrom(s, p, 0)
  }

  /** Appending a document the filter rejects does not change what
      `findOne` returns. */
  lemma FindFirstAppendRejected<T>(s: seq<T>, p: T -> bool, x: T)
    requires !p(x)
    ensures FindFirst(s + [x], p) == FindFirst(s, p)
  {
    var a, b := FindFirst(s + [x], p), FindFirst(s, p);
    if a.Some? {
      assert (s + [x])[a.value] == s[a.value];
    }
    if b.Some? {
      assert (s + [x])[b.value] == s[b.value];
      assert forall k :: 0 <= k < b.value ==> (s + [x])[k] == s[k];
    }
  }
  /** Replacing the first match by another element the filter accepts
      leaves the answer unchanged. */
  lemma FindFirstReplaceMatch<T>(s: seq<T>, p: T -> bool, i: nat, x: T)
    requires FindFirst(s, p) == Some(i) && p(x)
    ensures FindFirst(s[i := x], p) == Some(i)
  {
    assert forall k :: 0 <= k < i ==> s[i := x][k] == s[k];
    assert p(s[i := x][i]);
  }

  /** When nothing matched, an element made to match becomes the answer. */
  lemma FindFirstReplaceNoMatch<T>(s: seq<T>, p: T -> bool, i: nat, x: T)
    requires FindFirst(s, p).None? && i < |s| && p(x)
    ensures FindFirst(s[i := x], p) == Some(i)
  {
    assert forall k :: 0 <= k < |s| && k != i ==> s[i := x][k] == s[k];
    assert p(s[i := x][i]);
  }

  /** When nothing matched, an appended match becomes the answer. */
  lemma FindFirstAppendMatch<T>(s: seq<T>, p: T -> bool, x: T)
    requires FindFirst(s, p).None? && p(x)
    ensures FindFirst(s + [x], p) == Some(|s|)
  {
    assert forall k :: 0 <= k < |s| ==> (s + [x])[k] == s[k];
    assert p((s + [x])[|s|]);
  }
}
