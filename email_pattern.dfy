/** The e-mail check both frontend forms apply: the regular expression
    `\S+@\S+\.\S+` tested without anchors, so it succeeds as soon as some
    part of the string has that shape. */
module EmailPattern {
  import opened Wrappers
  import opened Js

  /** The regular expression matches with its `@` at index `at` and its `.`
      at index `dot`: one non-space before the `@`, at least one non-space
      strictly between the two, one non-space after the dot. Longer runs
      around a match contain such a minimal one, so nothing else is needed. */
  predicate MatchesAt(s: string, at: int, dot: int) {
    && 0 < at && at + 1 < dot && dot + 1 < |s|
    && s[at] == '@' && s[dot] == '.'
    && !IsSpace(s[at - 1]) && !IsSpace(s[dot + 1])
    && forall k :: at < k < dot ==> !IsSpace(s[k])
  }

  /** `/\S+@\S+\.\S+/.test(s)`. */
  predicate LooksLikeEmail(s: string) {
    exists at, dot | 0 < at < |s| && at < dot < |s| :: MatchesAt(s, at, dot)
  }

  /** Being unanchored, the pattern still matches whatever is put around a
      matching string. */
  lemma Unanchored(s: string, before: string, after: string)
    requires LooksLikeEmail(s)
    ensures LooksLikeEmail(before + s + after)
  {
    var at, dot :| 0 < at < |s| && at < dot < |s| && MatchesAt(s, at, dot);
    var t := before + s + after;
    assert forall k :: 0 <= k < |s| ==> t[|before| + k] == s[k];
    assert MatchesAt(t, |before| + at, |before| + dot);
  }

  /** Every space-free `local@domain.tld` with non-empty parts is accepted. */
  lemma AcceptsPlainAddress(local: string, domain: string, tld: string)
    requires local != [] && domain != [] && tld != []
    requires forall k :: 0 <= k < |local| ==> !IsSpace(local[k])
    requires forall k :: 0 <= k < |domain| ==> !IsSpace(domain[k])
    requires !IsSpace(tld[0])
    ensures LooksLikeEmail(local + "@" + domain + "." + tld)
  {
    var s := local + "@" + domain + "." + tld;
    var at, dot := |local|, |local| + 1 + |domain|;
    assert s[at] == '@' && s[dot] == '.';
    assert s[at - 1] == local[|local| - 1];
    assert s[dot + 1] == tld[0];
    assert forall k :: at < k < dot ==> s[k] == domain[k - at - 1];
    assert MatchesAt(s, at, dot);
  }

  /** A matching string contains an `@` followed, later, by a `.`; in
      particular the empty string does not match. */
  lemma MatchNeedsAtAndDot(s: string)
    requires LooksLikeEmail(s)
    ensures exists at, dot | 0 <= at < dot < |s| :: s[at] == '@' && s[dot] == '.'
    ensures |s| >= 5
  {
    var at, dot :| 0 < at < |s| && at < dot < |s| && MatchesAt(s, at, dot);
  }

  lemma EmptyIsNotEmail()
    ensures !LooksLikeEmail("")
  {
  }

  /** An address without a dot after its `@` is refused. */
  lemma RefusesMissingDot()
    ensures !LooksLikeEmail("user@example")
  {
    var s := "user@example";
    assert forall k :: 0 <= k < |s| ==> s[k] != '.';
  }

  const EmailRequired := "Email is required"
  const EmailInvalid := "Please enter a valid email"

  /** The e-mail entry both forms' `validateForm` write: required when
      empty, invalid when the pattern fails. */
  function EmailError(email: string): (r: Option<string>)
    ensures r.Some? <==> !LooksLikeEmail(email)
    ensures r.Some? ==> r.value == if email == "" then EmailRequired else EmailInvalid
  {
    if email == "" then Some(EmailRequired)
    else if !LooksLikeEmail(email) then Some(EmailInvalid)
    else None
  }
}
