/** The two regular expressions of the contact extractor, run the way
    `re.search` runs them: positions are tried left to right and the first
    one where the pattern matches wins; at that position the greedy
    quantifiers make the longest match win.

      email  `\b[A-Za-z0-9._%+-]+@[A-Za-z0-9.-]+\.[A-Za-z]{2,}\b`
      phone  `\b\d{3}[-.\s]?\d{3}[-.\s]?\d{4}\b`

    Each pattern has a declarative description (`IsEmailMatch`,
    `IsPhoneMatch`) of which substrings it matches, and a matcher that
    follows the backtracking engine; the two are proved to agree. */
module Patterns {
  import opened Wrappers
  import opened Text

  /** The match `s[start..end]`. */
  datatype Span = Span(start: nat, end: nat)

  // ---------------------------------------------------------------------
  // Shared pieces
  // ---------------------------------------------------------------------

  predicate WordAt(s: string, i: int) {
    0 <= i < |s| && IsWordChar(s[i])
  }

  /** `\b` at position `i`: a word character on exactly one side. */
  predicate BoundaryAt(s: string, i: int) {
    0 <= i <= |s| && WordAt(s, i - 1) != WordAt(s, i)
  }

  /** The character classes the patterns repeat. */
  datatype CharClass =
    | LocalChars   // `[A-Za-z0-9._%+-]`
    | DomainChars  // `[A-Za-z0-9.-]`
    | Letters      // `[A-Za-z]`
    | DigitChars   // `\d`

  predicate InClass(cl: CharClass, c: char) {
    match cl
    case LocalChars => IsLocalChar(c)
    case DomainChars => IsDomainChar(c)
    case Letters => IsAsciiLetter(c)
    case DigitChars => IsDigit(c)
  }

  /** Every character of `s[lo..hi]` is in `cl`. */
  predicate Run(s: string, lo: int, hi: int, cl: CharClass) {
    0 <= lo <= hi <= |s| && forall k :: lo <= k < hi ==> InClass(cl, s[k])
  }

  /** Where a greedy `cl+` or `cl*` starting at `i` stops. */
  function RunEnd(s: string, i: nat, cl: CharClass): (e: nat)
    requires i <= |s|
    ensures i <= e <= |s|
    ensures Run(s, i, e, cl)
    ensures e < |s| ==> !InClass(cl, s[e])
    decreases |s| - i
  {
    if i < |s| && InClass(cl, s[i]) then RunEnd(s, i + 1, cl) else i
  }

  /** A run of `cl` that is followed by a character outside it (or the end)
      is the one `RunEnd` finds. */
  lemma RunEndUnique(s: string, i: nat, hi: int, cl: CharClass)
    requires i <= |s| && Run(s, i, hi, cl) && (hi == |s| || !InClass(cl, s[hi]))
    ensures RunEnd(s, i, cl) == hi
  {
  }

  /** The engine's outer loop: the first start position, from `i` on, where
      `at` finds a match. */
  function SearchFrom(s: string, i: nat, at: (string, nat) -> Option<nat>): (r: Option<Span>)
    ensures r.Some? ==> i <= r.value.start <= |s| && at(s, r.value.start) == Some(r.value.end)
    ensures r.Some? ==> forall k :: i <= k < r.value.start ==> at(s, k).None?
    ensures r.None? ==> forall k :: i <= k <= |s| ==> at(s, k).None?
    decreases |s| + 1 - i
  {
    if i > |s| then None
    else
      match at(s, i)
      case Some(j) => Some(Span(i, j))
      case None => SearchFrom(s, i + 1, at)
  }

  // ---------------------------------------------------------------------
  // Email
  // ---------------------------------------------------------------------

  /** `[A-Za-z0-9._%+-]` */
  predicate IsLocalChar(c: char) {
    IsAsciiLetter(c) || IsDigit(c) || c == '.' || c == '_' || c == '%' || c == '+' || c == '-'
  }

  /** `[A-Za-z0-9.-]` */
  predicate IsDomainChar(c: char) {
    IsAsciiLetter(c) || IsDigit(c) || c == '.' || c == '-'
  }

  /** `s[i..j]` matches the email pattern with its local part ending at the
      `@` at `at` and its final `.` at `dot`. */
  ghost predicate EmailShape(s: string, i: int, at: int, dot: int, j: int) {
    && BoundaryAt(s, i)
    && i < at && Run(s, i, at, LocalChars)
    && at < |s| && s[at] == '@'
    && at + 1 < dot && Run(s, at + 1, dot, DomainChars)
    && dot < |s| && s[dot] == '.'
    && dot + 3 <= j && Run(s, dot + 1, j, Letters)
    && BoundaryAt(s, j)
  }

  /** The email pattern matches `s[i..j]` (in context, for the `\b`s). */
  ghost predicate IsEmailMatch(s: string, i: int, j: int) {
    exists at, dot :: EmailShape(s, i, at, dot, j)
  }

  /** `\.[A-Za-z]{2,}\b` tried at `dot`: the letters run greedily, and
      backing off cannot help because a letter is a word character. */
  function DotEnd(s: string, dot: nat): (r: Option<nat>)
    requires dot < |s|
    ensures r.Some? ==> s[dot] == '.' && dot + 3 <= r.value <= |s|
    ensures r.Some? ==> Run(s, dot + 1, r.value, Letters) && BoundaryAt(s, r.value)
  {
    if s[dot] == '.' then
      var j := RunEnd(s, dot + 1, Letters);
      if dot + 3 <= j && BoundaryAt(s, j) then Some(j) else None
    else None
  }

  /** The greedy domain part backing off: tries the final `.` at `hi - 1`,
      then `hi - 2`, down to `lo`. */
  function LastDot(s: string, lo: nat, hi: nat): (r: Option<nat>)
    requires hi <= |s|
    ensures r.Some? ==> exists d :: lo <= d < hi && DotEnd(s, d) == r
    ensures forall d :: lo <= d < hi && DotEnd(s, d).Some? ==>
      r.Some? && DotEnd(s, d).value <= r.value
    decreases hi
  {
    if hi <= lo then None
    else
      match DotEnd(s, hi - 1)
      case Some(j) =>
        assert forall d :: lo <= d < hi - 1 && DotEnd(s, d).Some? ==> DotEnd(s, d).value <= hi - 1 by {
          forall d | lo <= d < hi - 1 && DotEnd(s, d).Some?
            ensures DotEnd(s, d).value <= hi - 1
          {
            assert !IsAsciiLetter(s[hi - 1]);
          }
        }
        Some(j)
      case None => LastDot(s, lo, hi - 1)
  }

  /** The email pattern tried at position `i`: the end of its match there. */
  function EmailAt(s: string, i: nat): Option<nat> {
    if i < |s| && BoundaryAt(s, i) then
      var at := RunEnd(s, i, LocalChars);
      if i < at && at < |s| && s[at] == '@' then
        var e := RunEnd(s, at + 1, DomainChars);
        LastDot(s, at + 2, e)
      else None
    else None
  }

  lemma EmailAtSound(s: string, i: nat)
    requires EmailAt(s, i).Some?
    ensures IsEmailMatch(s, i, EmailAt(s, i).value)
  {
    var at := RunEnd(s, i, LocalChars);
    var e := RunEnd(s, at + 1, DomainChars);
    var j := EmailAt(s, i).value;
    var d :| at + 2 <= d < e && DotEnd(s, d) == Some(j);
    assert EmailShape(s, i, at, d, j);
  }

  lemma EmailAtComplete(s: string, i: nat, j: int)
    requires IsEmailMatch(s, i, j)
    ensures EmailAt(s, i).Some? && j <= EmailAt(s, i).value
  {
    var at, dot :| EmailShape(s, i, at, dot, j);
    RunEndUnique(s, i, at, LocalChars);
    var e := RunEnd(s, at + 1, DomainChars);
    assert dot < e;
    assert j == |s| || !IsAsciiLetter(s[j]) by {
      if j < |s| {
        assert WordAt(s, j - 1);
      }
    }
    RunEndUnique(s, dot + 1, j, Letters);
    assert DotEnd(s, dot) == Some(j);
  }

  /** `re.search` with the email pattern. */
  /** `s[i..j]` is the match `re.search` reports: leftmost, and longest among the leftmost. */
  ghost predicate FirstEmailMatch(s: string, i: int, j: int)
  {
    0 <= i <= j <= |s| && IsEmailMatch(s, i, j) && forall i', j' :: IsEmailMatch(s, i', j') ==> i < i' || (i == i' && j' <= j)
  }

  function FindEmail(s: string): (r: Option<Span>)
    ensures r.Some? ==> IsEmailMatch(s, r.value.start, r.value.end)
    ensures r.Some? ==> forall i, j :: IsEmailMatch(s, i, j) ==>
      r.value.start < i || (r.value.start == i && j <= r.value.end)
    ensures r.None? <==> forall i, j :: !IsEmailMatch(s, i, j)
  {
    var r := SearchFrom(s, 0, EmailAt);
    if r.Some? then
      EmailAtSound(s, r.value.start);
      assert forall i, j :: IsEmailMatch(s, i, j) ==>
        r.value.start < i || (r.value.start == i && j <= r.value.end) by {
        forall i, j | IsEmailMatch(s, i, j)
          ensures r.value.start < i || (r.value.start == i && j <= r.value.end)
        {
          EmailAtComplete(s, i, j);
        }
      }
      r
    else
      assert forall i, j :: !IsEmailMatch(s, i, j) by {
        forall i, j | IsEmailMatch(s, i, j)
          ensures false
        {
          EmailAtComplete(s, i, j);
        }
      }
      r
  }

  /** An email match is at least `a@b.cc` long and holds an `@`. */
  lemma EmailMatchShape(s: string, i: int, j: int)
    requires IsEmailMatch(s, i, j)
    ensures 0 <= i && i + 6 <= j <= |s|
    ensures Occurs("@", s[i..j])
  {
    var at, dot :| EmailShape(s, i, at, dot, j);
    assert s[i..j][at - i..at - i + 1] == "@";
    assert OccursAt("@", s[i..j], at - i);
  }

  // ---------------------------------------------------------------------
  // Phone
  // ---------------------------------------------------------------------

  /** `[-.\s]` */
  predicate IsPhoneSep(c: char) {
    c == '-' || c == '.' || IsSpace(c)
  }

  /** `n` digits at `s[lo..lo + n]`. */
  predicate Digits(s: string, lo: int, n: nat) {
    Run(s, lo, lo + n, DigitChars)
  }

  /** `[-.\s]?` from `p` to `q`. */
  ghost predicate OptSep(s: string, p: int, q: int) {
    q == p || (q == p + 1 && 0 <= p < |s| && IsPhoneSep(s[p]))
  }

  ghost predicate PhoneShape(s: string, i: int, p: int, q: int, j: int) {
    && BoundaryAt(s, i) && Digits(s, i, 3)
    && OptSep(s, i + 3, p) && Digits(s, p, 3)
    && OptSep(s, p + 3, q) && Digits(s, q, 4)
    && j == q + 4 && BoundaryAt(s, j)
  }

  /** The phone pattern matches `s[i..j]` (in context, for the `\b`s). */
  ghost predicate IsPhoneMatch(s: string, i: int, j: int) {
    exists p, q :: PhoneShape(s, i, p, q, j)
  }

  /** A greedy `[-.\s]?` at `p`. */
  function SkipSep(s: string, p: nat): nat {
    if p < |s| && IsPhoneSep(s[p]) then p + 1 else p
  }

  /** The phone pattern tried at position `i`. A separator is never a digit,
      so each `?` has only one way to go on and no backtracking is needed. */
  function PhoneAt(s: string, i: nat): Option<nat> {
    if BoundaryAt(s, i) && Digits(s, i, 3) then
      var p := SkipSep(s, i + 3);
      if Digits(s, p, 3) then
        var q := SkipSep(s, p + 3);
        if Digits(s, q, 4) && BoundaryAt(s, q + 4) then Some(q + 4) else None
      else None
    else None
  }

  lemma PhoneAtExact(s: string, i: nat, j: int)
    ensures PhoneAt(s, i) == Some(j) <==> IsPhoneMatch(s, i, j)
  {
    if PhoneAt(s, i) == Some(j) {
      var p := SkipSep(s, i + 3);
      var q := SkipSep(s, p + 3);
      assert PhoneShape(s, i, p, q, j);
    }
    if IsPhoneMatch(s, i, j) {
      var p, q :| PhoneShape(s, i, p, q, j);
      assert p == SkipSep(s, i + 3) by {
        if p == i + 3 && i + 3 < |s| {
          assert IsDigit(s[i + 3]);
        }
      }
      assert q == SkipSep(s, p + 3) by {
        if q == p + 3 && p + 3 < |s| {
          assert IsDigit(s[p + 3]);
        }
      }
    }
  }

  /** `re.search` with the phone pattern. At a given start the pattern has at
      most one match, so the first start decides the whole match. */
  /** `s[i..j]` is the match `re.search` reports: the leftmost one (its end is then fixed). */
  ghost predicate FirstPhoneMatch(s: string, i: int, j: int)
  {
    0 <= i <= j <= |s| && IsPhoneMatch(s, i, j) && forall i', j' :: IsPhoneMatch(s, i', j') ==> i < i' || (i == i' && j' == j)
  }

  function FindPhone(s: string): (r: Option<Span>)
    ensures r.Some? ==> IsPhoneMatch(s, r.value.start, r.value.end)
    ensures r.Some? ==> forall i, j :: IsPhoneMatch(s, i, j) ==>
      r.value.start < i || (r.value.start == i && j == r.value.end)
    ensures r.None? <==> forall i, j :: !IsPhoneMatch(s, i, j)
  {
    var r := SearchFrom(s, 0, PhoneAt);
    assert forall i: nat, j :: IsPhoneMatch(s, i, j) ==> PhoneAt(s, i) == Some(j) by {
      forall i: nat, j | IsPhoneMatch(s, i, j)
        ensures PhoneAt(s, i) == Some(j)
      {
        PhoneAtExact(s, i, j);
      }
    }
    if r.Some? then
      PhoneAtExact(s, r.value.start, r.value.end);
      r
    else
      r
  }

  /** Number of `\d` characters in `t`. */
  function DigitCount(t: string): nat {
    if t == [] then 0 else (if IsDigit(t[0]) then 1 else 0) + DigitCount(t[1..])
  }

  lemma {:induction false} DigitCountAppend(a: string, b: string)
    ensures DigitCount(a + b) == DigitCount(a) + DigitCount(b)
    decreases |a|
  {
    if a == [] {
      assert a + b == b;
    } else {
      assert (a + b)[1..] == a[1..] + b;
      DigitCountAppend(a[1..], b);
    }
  }

  lemma {:induction false} DigitCountAll(t: string)
    requires forall k :: 0 <= k < |t| ==> IsDigit(t[k])
    ensures DigitCount(t) == |t|
    decreases |t|
  {
    if t != [] {
      DigitCountAll(t[1..]);
    }
  }

  lemma DigitCountSep(s: string, p: int, q: int)
    requires OptSep(s, p, q) && 0 <= p <= q <= |s|
    ensures DigitCount(s[p..q]) == 0
  {
    if q == p + 1 {
      assert s[p..q] == [s[p]];
    }
  }

  /** Counting digits over two adjacent slices. */
  lemma DigitCountSplit(s: string, a: int, b: int, c: int)
    requires 0 <= a <= b <= c <= |s|
    ensures DigitCount(s[a..c]) == DigitCount(s[a..b]) + DigitCount(s[b..c])
  {
    assert s[a..c] == s[a..b] + s[b..c];
    DigitCountAppend(s[a..b], s[b..c]);
  }

  lemma DigitCountRun(s: string, lo: int, n: nat)
    requires Digits(s, lo, n)
    ensures DigitCount(s[lo..lo + n]) == n
  {
    DigitCountAll(s[lo..lo + n]);
  }

  /** A phone match is a ten-digit number, written with at most two
      separators. */
  lemma PhoneMatchShape(s: string, i: int, j: int)
    requires IsPhoneMatch(s, i, j)
    ensures 0 <= i && i + 10 <= j <= i + 12 && j <= |s|
    ensures DigitCount(s[i..j]) == 10
  {
    var p, q :| PhoneShape(s, i, p, q, j);
    DigitCountRun(s, i, 3);
    DigitCountRun(s, p, 3);
    DigitCountRun(s, q, 4);
    DigitCountSep(s, i + 3, p);
    DigitCountSep(s, p + 3, q);
    DigitCountSplit(s, q, q, j);
    DigitCountSplit(s, p + 3, q, j);
    DigitCountSplit(s, p, p + 3, j);
    DigitCountSplit(s, i + 3, p, j);
    DigitCountSplit(s, i, i + 3, j);
  }
}
