/** The JavaScript built-ins the application relies on, as Dafny functions:
    `length` in UTF-16 code units, `substring` with its index clamping, `indexOf`/`includes`, `replace` with
    a string pattern, `split` on one character, `trim`, the word list of
    `split(/\s+/).filter(w => w.length > 0)`, `Number.prototype.toString`,
    `padStart(2, '0')` and `Math.round` of a percentage. */
module Js {

  /** JavaScript's `\s` class, which is also the set `trim` removes. */
  predicate IsSpace(c: char) {
    || c == ' ' || c == '\t' || c == '\n' || c == '\r' || c == '\U{B}' || c == '\U{C}'
    || c == '\U{A0}' || c == '\U{1680}' || ('\U{2000}' <= c <= '\U{200A}')
    || c == '\U{2028}' || c == '\U{2029}' || c == '\U{202F}' || c == '\U{205F}'
    || c == '\U{3000}' || c == '\U{FEFF}'
  }

  predicate AllSpace(s: string) {
    forall i :: 0 <= i < |s| ==> IsSpace(s[i])
  }

  // ---------------------------------------------------------------- length

  /** `s.length`: the number of UTF-16 code units, two for every character
      beyond U+FFFF (a surrogate pair) and one for every other. */
  function Utf16Length(s: string): (n: nat)
    ensures |s| <= n <= 2 * |s|
    ensures n == |s| <==> forall i :: 0 <= i < |s| ==> (s[i] as int) < 0x10000
  {
    if s == [] then 0
    else (if (s[0] as int) < 0x10000 then 1 else 2) + Utf16Length(s[1..])
  }

  /** Three emoji are three characters but six code units, enough for a
      minimum length of 6. */
  lemma EmojiCountTwice()
    ensures Utf16Length("\U{1F600}\U{1F600}\U{1F600}") == 6
  {
    var e := "\U{1F600}\U{1F600}\U{1F600}";
    assert e[1..][1..][1..] == [];
  }

  // ---------------------------------------------------------------- trim

  /** The number of white-space characters `s` starts with. */
  function LeadingSpaces(s: string): (n: nat)
    ensures n <= |s|
    ensures forall i :: 0 <= i < n ==> IsSpace(s[i])
    ensures n < |s| ==> !IsSpace(s[n])
  {
    if s == [] || !IsSpace(s[0]) then 0 else 1 + LeadingSpaces(s[1..])
  }

  function TrimStart(s: string): (r: string)
    ensures |r| <= |s| && r == s[|s| - |r|..]
    ensures r == [] || !IsSpace(r[0])
    ensures AllSpace(s[..|s| - |r|])
  {
    s[LeadingSpaces(s)..]
  }

  function TrimEnd(s: string): (r: string)
    ensures |r| <= |s| && r == s[..|r|]
    ensures r == [] || !IsSpace(r[|r| - 1])
    ensures AllSpace(s[|r|..])
  {
    if s == [] || !IsSpace(s[|s| - 1]) then s else TrimEnd(s[..|s| - 1])
  }

  /** `s.trim()`: a slice of `s` that neither starts nor ends with a space,
      empty exactly when `s` is all spaces. */
  function Trim(s: string): (r: string)
    ensures |r| <= |s|
    ensures r == [] <==> AllSpace(s)
    ensures r == [] || (!IsSpace(r[0]) && !IsSpace(r[|r| - 1]))
    ensures exists i, j :: 0 <= i <= j <= |s| && r == s[i..j] && AllSpace(s[..i]) && AllSpace(s[j..])
  {
    var t := TrimStart(s);
    var r := TrimEnd(t);
    var i := |s| - |t|;
    assert r == s[i..i + |r|] && s[i + |r|..] == t[|r|..];
    assert r != [] ==> r[0] == t[0];
    assert AllSpace(s) ==> t == [] by {
      if t != [] {
        assert t[0] == s[|s| - |t|];
      }
    }
    assert t == [] ==> r == [];
    assert r == [] ==> AllSpace(s) by {
      if r == [] {
        assert t == t[|r|..];
        assert s == s[..|s| - |t|] + t;
      }
    }
    r
  }

  // ------------------------------------------------------------ substring

  function Clamp(i: int, len: nat): (r: nat)
    ensures r <= len
    ensures 0 <= i <= len ==> r == i
    ensures i < 0 ==> r == 0
    ensures i > len ==> r == len
  {
    if i < 0 then 0 else if i > len then len else i
  }

  /** `s.substring(start, end)`: both indices are clamped to [0, |s|] and
      swapped when the first is the larger. */
  function Substring(s: string, start: int, end: int): (r: string)
    ensures 0 <= start <= end <= |s| ==> r == s[start..end]
    ensures 0 <= end <= start <= |s| ==> r == s[end..start]
  {
    var a, b := Clamp(start, |s|), Clamp(end, |s|);
    if a <= b then s[a..b] else s[b..a]
  }

  /** `s.substring(start)`. */
  function SubstringFrom(s: string, start: int): (r: string)
    ensures 0 <= start <= |s| ==> r == s[start..]
    ensures start <= 0 ==> r == s
    ensures start >= |s| ==> r == []
  {
    Substring(s, start, |s|)
  }

  /** Cutting a string anywhere and gluing the halves back gives it back,
      whatever the (clamped) cut point. */
  lemma SubstringSplitJoin(s: string, k: int)
    ensures Substring(s, 0, k) + SubstringFrom(s, k) == s
  {
    var c := Clamp(k, |s|);
    assert Substring(s, 0, k) == s[..c];
    assert SubstringFrom(s, k) == s[c..];
  }

  // ------------------------------------------------------ indexOf, replace

  predicate OccursAt(s: string, p: string, k: int) {
    0 <= k && k + |p| <= |s| && s[k..k + |p|] == p
  }

  function IndexOfFrom(s: string, p: string, i: nat): (r: int)
    decreases |s| - i
    ensures r == -1 || (i <= r && OccursAt(s, p, r))
    ensures r == -1 ==> forall k :: i <= k ==> !OccursAt(s, p, k)
    ensures r >= 0 ==> forall k :: i <= k < r ==> !OccursAt(s, p, k)
  {
    if i + |p| > |s| then -1
    else if s[i..i + |p|] == p then i
    else IndexOfFrom(s, p, i + 1)
  }

  /** `s.indexOf(p)`: the first position where `p` occurs, or -1 when it
      occurs nowhere. */
  function IndexOf(s: string, p: string): (r: int)
    ensures r == -1 <==> forall k :: !OccursAt(s, p, k)
    ensures r >= 0 ==> OccursAt(s, p, r) && forall k :: 0 <= k < r ==> !OccursAt(s, p, k)
  {
    IndexOfFrom(s, p, 0)
  }

  /** `s.includes(p)`. */
  predicate Includes(s: string, p: string) {
    IndexOf(s, p) >= 0
  }

  predicate FirstOccurrence(s: string, p: string, i: int) {
    OccursAt(s, p, i) && forall k :: 0 <= k < i ==> !OccursAt(s, p, k)
  }

  /** `s.replace(p, rep)` with a string pattern: only the first occurrence is
      replaced; with no occurrence the string is unchanged. `rep` is inserted
      literally: the `$&`, `$1`, `$$` substitution patterns JavaScript expands
      in a replacement string are not interpreted (the application's
      replacement strings contain no `$`). */
  function ReplaceFirst(s: string, p: string, rep: string): (r: string)
    ensures (forall k :: !OccursAt(s, p, k)) ==> r == s
    ensures forall i :: FirstOccurrence(s, p, i) ==> r == s[..i] + rep + s[i + |p|..]
  {
    var i := IndexOf(s, p);
    if i < 0 then s else s[..i] + rep + s[i + |p|..]
  }

  // ---------------------------------------------------------------- split

  /** `s.split(c)` for a one-character separator. */
  function Split(s: string, c: char): (r: seq<string>)
    ensures |r| >= 1
    ensures forall k :: 0 <= k < |r| ==> c !in r[k]
  {
    if s == [] then [[]]
    else
      var rest := Split(s[1..], c);
      if s[0] == c then [[]] + rest
      else [[s[0]] + rest[0]] + rest[1..]
  }

  /** There is one more part than there are separators. */
  lemma {:induction false} SplitCount(s: string, c: char)
    ensures |Split(s, c)| == 1 + multiset(s)[c]
  {
    if s != [] {
      SplitCount(s[1..], c);
      assert s == [s[0]] + s[1..];
    }
  }

  /** `parts.join(c)`. */
  function Join(parts: seq<string>, c: char): string
    requires |parts| >= 1
  {
    if |parts| == 1 then parts[0] else parts[0] + [c] + Join(parts[1..], c)
  }

  /** Splitting and joining on the same character gives the string back. */
  lemma {:induction false} JoinSplit(s: string, c: char)
    ensures Join(Split(s, c), c) == s
  {
    if s != [] {
      var rest := Split(s[1..], c);
      JoinSplit(s[1..], c);
      assert s == [s[0]] + s[1..];
      if s[0] == c {
        assert Split(s, c) == [[]] + rest;
        assert ([[]] + rest)[1..] == rest;
      } else if |rest| == 1 {
        assert Split(s, c) == [[s[0]] + rest[0]];
      } else {
        var parts := [[s[0]] + rest[0]] + rest[1..];
        assert Split(s, c) == parts;
        assert parts[1..] == rest[1..];
        calc {
          Join(parts, c);
          [s[0]] + rest[0] + [c] + Join(rest[1..], c);
          [s[0]] + (rest[0] + [c] + Join(rest[1..], c));
          [s[0]] + Join(rest, c);
        }
      }
    }
  }

  // ---------------------------------------------------------------- words

  /** Length of the run of non-space characters at the front of `s`. */
  function WordLength(s: string): (n: nat)
    ensures n <= |s|
    ensures forall k :: 0 <= k < n ==> !IsSpace(s[k])
    ensures n < |s| ==> IsSpace(s[n])
  {
    if s == [] || IsSpace(s[0]) then 0 else 1 + WordLength(s[1..])
  }

  /** The maximal runs of non-space characters, in order: the list
      `s.split(/\s+/).filter(w => w.length > 0)` yields. */
  function Words(s: string): seq<string>
    decreases |s|
  {
    if s == [] then []
    else if IsSpace(s[0]) then Words(s[1..])
    else
      var n := WordLength(s);
      [s[..n]] + Words(s[n..])
  }

  /** Every word is non-empty and holds no white space. */
  lemma {:induction false} WordsHaveNoSpace(s: string, w: string)
    requires w in Words(s)
    ensures w != [] && forall i :: 0 <= i < |w| ==> !IsSpace(w[i])
    decreases |s|
  {
    if IsSpace(s[0]) {
      WordsHaveNoSpace(s[1..], w);
    } else if w != s[..WordLength(s)] {
      WordsHaveNoSpace(s[WordLength(s)..], w);
    }
  }

  /** A string holds no words exactly when it is all spaces. */
  lemma {:induction false} NoWordsIffAllSpace(s: string)
    ensures Words(s) == [] <==> AllSpace(s)
    decreases |s|
  {
    if s != [] && IsSpace(s[0]) {
      NoWordsIffAllSpace(s[1..]);
      assert forall i :: 0 < i < |s| ==> s[i] == s[1..][i - 1];
    }
  }

  /** Words on either side of a space are counted separately and add up. */
  lemma {:induction false} WordsAroundSpace(a: string, sp: char, b: string)
    requires IsSpace(sp)
    ensures Words(a + [sp] + b) == Words(a) + Words(b)
    decreases |a|, 1
  {
    var s := a + [sp] + b;
    if a == [] {
      assert s[1..] == b;
    } else if IsSpace(a[0]) {
      assert s[1..] == a[1..] + [sp] + b;
      WordsAroundSpace(a[1..], sp, b);
    } else {
      WordFirstAroundSpace(a, sp, b);
    }
  }

  /** The case of `WordsAroundSpace` where `a` starts with a word. */
  lemma {:induction false} WordFirstAroundSpace(a: string, sp: char, b: string)
    requires IsSpace(sp) && a != [] && !IsSpace(a[0])
    ensures Words(a + [sp] + b) == Words(a) + Words(b)
    decreases |a|, 0
  {
    var s := a + [sp] + b;
    var n := WordLength(a);
    WordLengthPrefix(a, [sp] + b);
    assert s == a + ([sp] + b);
    assert s[..n] == a[..n];
    if n < |a| {
      assert s[n..] == a[n..] + [sp] + b;
      WordsAroundSpace(a[n..], sp, b);
    } else {
      assert s[n..] == [sp] + b;
      assert ([sp] + b)[1..] == b;
      assert a[n..] == [];
    }
  }

  lemma {:induction false} WordLengthPrefix(a: string, b: string)
    requires b == [] || IsSpace(b[0])
    ensures WordLength(a + b) == WordLength(a)
    decreases |a|
  {
    if a != [] && !IsSpace(a[0]) {
      assert (a + b)[1..] == a[1..] + b;
      WordLengthPrefix(a[1..], b);
    }
  }

  // ---------------------------------------------------------- to decimal

  function DigitChar(d: nat): (c: char)
    requires d < 10
    ensures '0' <= c <= '9'
  {
    "0123456789"[d]
  }

  function DigitValue(c: char): (d: nat)
    requires '0' <= c <= '9'
    ensures d < 10
  {
    (c as int) - ('0' as int)
  }

  predicate IsDigits(s: string) {
    forall i :: 0 <= i < |s| ==> '0' <= s[i] <= '9'
  }

  /** `String(n)` for a non-negative integer: its decimal digits, without
      leading zeros. */
  function NatToString(n: nat): (r: string)
    decreases n
    ensures |r| >= 1 && IsDigits(r)
    ensures r[0] == '0' ==> n == 0
  {
    if n < 10 then [DigitChar(n)] else NatToString(n / 10) + [DigitChar(n % 10)]
  }

  /** The value of a string of decimal digits. */
  function ParseNat(s: string): nat
    requires IsDigits(s)
  {
    if s == [] then 0 else ParseNat(s[..|s| - 1]) * 10 + DigitValue(s[|s| - 1])
  }

  lemma {:induction false} ParseNatToString(n: nat)
    ensures ParseNat(NatToString(n)) == n
    decreases n
  {
    var r := NatToString(n);
    if n >= 10 {
      ParseNatToString(n / 10);
      assert r[..|r| - 1] == NatToString(n / 10);
    }
  }

  /** Distinct numbers print differently. */
  lemma NatToStringInjective(m: nat, n: nat)
    ensures NatToString(m) == NatToString(n) ==> m == n
  {
    ParseNatToString(m);
    ParseNatToString(n);
  }

  /** A leading zero does not change the value read. */
  lemma {:induction false} ParseNatLeadingZero(d: string)
    requires IsDigits(d)
    ensures IsDigits("0" + d) && ParseNat("0" + d) == ParseNat(d)
    decreases |d|
  {
    if d != [] {
      var n := |d| - 1;
      assert ("0" + d)[..|"0" + d| - 1] == "0" + d[..n];
      ParseNatLeadingZero(d[..n]);
    }
  }

  /** `s.padStart(2, '0')`. */
  function PadStart2(s: string): (r: string)
    ensures |r| == if |s| >= 2 then |s| else 2
    ensures r[|r| - |s|..] == s
    ensures forall i :: 0 <= i < |r| - |s| ==> r[i] == '0'
  {
    if |s| >= 2 then s else if |s| == 1 then "0" + s else "00"
  }

  // ----------------------------------------------------------- Math.round

  /** `Math.round(c / t * 100)` computed on exact rationals: the nearest
      integer to 100c/t, halves rounded up. */
  function RoundPercent(c: nat, t: nat): (r: int)
    requires t > 0
    ensures 2 * t * r <= 200 * c + t < 2 * t * (r + 1)
    ensures c <= t ==> 0 <= r <= 100
    ensures c == t ==> r == 100
    ensures c == 0 ==> r == 0
  {
    RoundPercentBounds(c, t);
    (200 * c + t) / (2 * t)
  }

  lemma RoundPercentBounds(c: nat, t: nat)
    requires t > 0
    ensures var q := (200 * c + t) / (2 * t);
      && 2 * t * q <= 200 * c + t < 2 * t * (q + 1)
      && (c <= t ==> 0 <= q <= 100)
      && (c == t ==> q == 100)
      && (c == 0 ==> q == 0)
  {
    var x, d := 200 * c + t, 2 * t;
    var q := x / d;
    DivBracket(x, d);
    if c <= t {
      MulCancel(d, q, 101);
    }
    if c == t {
      assert x == d * 100 + t;
      MulCancel(d, 99, q);
    }
    if c == 0 {
      MulCancel(d, q, 1);
    }
  }

  lemma DivBracket(x: nat, d: nat)
    requires d > 0
    ensures d * (x / d) <= x < d * (x / d + 1)
  {
    assert x == d * (x / d) + x % d;
    assert d * (x / d + 1) == d * (x / d) + d;
  }

  lemma MulCancel(d: nat, a: int, b: int)
    requires d > 0 && d * a < d * b
    ensures a < b
  {
  }
}
