/** The few Ruby String operations the mapper relies on: `include?`, `sub`/`sub!`
    with a literal pattern, the anchored match of everything before a `=`, and
    `Integer#to_s`. */
module RubyStrings {

  datatype Option<+T> = None | Some(value: T)

  /** `pat` occurs in `s` starting at index `j`. */
  predicate OccursAt(s: string, pat: string, j: int)
  {
    0 <= j && j + |pat| <= |s| && s[j..j + |pat|] == pat
  }

  lemma OccursAtTail(s: string, pat: string, j: nat)
    requires |s| > 0
    ensures OccursAt(s, pat, j + 1) <==> OccursAt(s[1..], pat, j)
  {
    if j + 1 + |pat| <= |s| {
      assert s[1..][j..j + |pat|] == s[j + 1..j + 1 + |pat|];
    }
  }

  /** The index of the first occurrence of `pat` in `s`, as Ruby's `String#index`. */
  function FirstIndex(s: string, pat: string): (r: Option<nat>)
    ensures r.Some? ==> OccursAt(s, pat, r.value)
    ensures r.Some? ==> forall j | 0 <= j < r.value :: !OccursAt(s, pat, j)
    ensures r.None? ==> forall j :: !OccursAt(s, pat, j)
    decreases |s|
  {
    if |pat| > |s| then None
    else if s[..|pat|] == pat then Some(0)
    else
      var tail := FirstIndex(s[1..], pat);
      assert !OccursAt(s, pat, 0);
      assert forall j | 1 <= j :: OccursAt(s, pat, j) <==> OccursAt(s[1..], pat, j - 1) by {
        forall j | 1 <= j ensures OccursAt(s, pat, j) <==> OccursAt(s[1..], pat, j - 1) {
          OccursAtTail(s, pat, j - 1);
        }
      }
      match tail
      case None => None
      case Some(k) => Some(k + 1)
  }

  /** Ruby's `s.include?(pat)`: a substring test, not a prefix test. */
  predicate Includes(s: string, pat: string)
  {
    FirstIndex(s, pat).Some?
  }

  /** Ruby's `s.sub(pat, repl)` with a literal pattern: without an occurrence of
      `pat`, `s` comes back unchanged. */
  function SubFirst(s: string, pat: string, repl: string): (r: string)
    ensures (forall j :: !OccursAt(s, pat, j)) ==> r == s
  {
    match FirstIndex(s, pat)
    case None => s
    case Some(i) => s[..i] + repl + s[i + |pat|..]
  }

  /** `sub` replaces only the first occurrence of `pat`. */
  lemma SubFirstAtFirst(s: string, pat: string, repl: string, i: nat)
    requires OccursAt(s, pat, i)
    requires forall j | 0 <= j < i :: !OccursAt(s, pat, j)
    ensures SubFirst(s, pat, repl) == s[..i] + repl + s[i + |pat|..]
  {
    var f := FirstIndex(s, pat);
    assert f.Some?;
    assert f.value == i;
  }

  /** `sub` of an occurring pattern swaps exactly `|pat|` characters for `repl`. */
  lemma SubFirstLength(s: string, pat: string, repl: string)
    requires Includes(s, pat)
    ensures |SubFirst(s, pat, repl)| == |s| - |pat| + |repl|
  {
    SubFirstAtFirst(s, pat, repl, FirstIndex(s, pat).value);
  }

  /** Text spliced between the same two pieces determines the splice. */
  lemma SpliceInjective(pre: string, d1: string, d2: string, post: string)
    requires pre + d1 + post == pre + d2 + post
    ensures d1 == d2
  {
    var s := pre + d1 + post;
    assert |d1| == |d2|;
    assert s[|pre|..|pre| + |d1|] == d1;
    assert (pre + d2 + post)[|pre|..|pre| + |d2|] == d2;
  }

  /** `sub` of an occurring pattern keeps what it put in: different replacements
      give different results. */
  lemma SubFirstInjective(s: string, pat: string, d1: string, d2: string)
    requires exists k :: OccursAt(s, pat, k)
    ensures SubFirst(s, pat, d1) == SubFirst(s, pat, d2) ==> d1 == d2
  {
    var i := FirstIndex(s, pat).value;
    SubFirstAtFirst(s, pat, d1, i);
    SubFirstAtFirst(s, pat, d2, i);
    if SubFirst(s, pat, d1) == SubFirst(s, pat, d2) {
      SpliceInjective(s[..i], d1, d2, s[i + |pat|..]);
    }
  }

  /** Removing a string from the front of a string that starts with it gives the rest. */
  lemma SubFirstOfPrefix(base: string, rest: string, repl: string)
    ensures SubFirst(base + rest, base, repl) == repl + rest
  {
    var s := base + rest;
    assert s[..|base|] == base;
    SubFirstAtFirst(s, base, repl, 0);
    assert s[..0] + repl + s[|base|..] == repl + rest;
  }

  // The text matched by an anchored Ruby regexp `^[^c]*`: everything before the first `c`.
  function UpToFirst(s: string, c: char): (r: string)
    ensures |r| <= |s| && r == s[..|r|]
    ensures forall k | 0 <= k < |r| :: r[k] != c
    ensures |r| < |s| ==> s[|r|] == c
  {
    if s == [] || s[0] == c then [] else [s[0]] + UpToFirst(s[1..], c)
  }

  /** The match of `^[^c]*` ends at the first `c`, or at the end of the string. */
  lemma UpToFirstIs(s: string, c: char, n: nat)
    requires n <= |s|
    requires forall k | 0 <= k < n :: s[k] != c
    requires n < |s| ==> s[n] == c
    ensures UpToFirst(s, c) == s[..n]
  {
    var r := UpToFirst(s, c);
    assert forall k | 0 <= k < |r| :: r[k] == s[k];
    assert |r| == n;
  }

  predicate IsDigit(ch: char)
  {
    '0' <= ch <= '9'
  }

  function Digit(d: nat): (ch: char)
    requires d < 10
    ensures IsDigit(ch)
  {
    "0123456789"[d]
  }

  /** `Integer#to_s` for a non-negative integer: decimal, without leading zeros. */
  function NatToDecimal(n: nat): (r: string)
    ensures |r| >= 1 && forall k | 0 <= k < |r| :: IsDigit(r[k])
    ensures r[0] == '0' ==> r == "0"
  {
    if n < 10 then [Digit(n)] else NatToDecimal(n / 10) + [Digit(n % 10)]
  }

  /** `Integer#to_s` for any integer. */
  function IntToDecimal(i: int): string
  {
    if i < 0 then "-" + NatToDecimal(-i) else NatToDecimal(i)
  }

  /** The value of a string of decimal digits; the inverse of NatToDecimal. */
  function DecimalValue(s: string): nat
    requires forall k | 0 <= k < |s| :: IsDigit(s[k])
  {
    if s == [] then 0
    else
      var last := s[|s| - 1];
      assert IsDigit(last);
      DecimalValue(s[..|s| - 1]) * 10 + (last as int - '0' as int)
  }

  lemma {:induction false} DecimalRoundTrip(n: nat)
    ensures DecimalValue(NatToDecimal(n)) == n
  {
    if n >= 10 {
      var s := NatToDecimal(n);
      assert s[..|s| - 1] == NatToDecimal(n / 10);
      DecimalRoundTrip(n / 10);
    }
  }
}
