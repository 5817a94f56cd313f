/** The Python string primitives the classifier is built from: character
    classes, `lower()`, `in` on strings, `strip()`, `split()`, `join()` and
    `replace(old, "")`.

    Character classes follow Python 3's Unicode rules exactly on Latin-1
    (U+0000..U+00FF). Above U+00FF only whitespace is classified; every
    other character there counts as neither a letter nor a word character,
    and `lower()` leaves it unchanged. */
module Text {

  // ---------------------------------------------------------------------
  // Character classes
  // ---------------------------------------------------------------------

  /** `str.isspace()`, which is also what `split()`, `strip()` and the regex
      class `\s` use. */
  predicate IsSpace(c: char) {
    ('\t' <= c <= '\r') || ('\U{1C}' <= c <= '\U{1F}') || c == ' '
    || c == '\U{85}' || c == '\U{A0}' || c == '\U{1680}'
    || ('\U{2000}' <= c <= '\U{200A}') || c == '\U{2028}' || c == '\U{2029}'
    || c == '\U{202F}' || c == '\U{205F}' || c == '\U{3000}'
  }

  /** The regex class `\d` (Unicode decimal digits; on Latin-1 only 0-9). */
  predicate IsDigit(c: char) {
    '0' <= c <= '9'
  }

  /** `[A-Za-z]` */
  predicate IsAsciiLetter(c: char) {
    ('A' <= c <= 'Z') || ('a' <= c <= 'z')
  }

  /** `str.isalpha()` on one character. */
  predicate IsAlpha(c: char) {
    IsAsciiLetter(c) || c == 'ª' || c == 'µ' || c == 'º'
    || ('À' <= c <= 'Ö') || ('Ø' <= c <= 'ö') || ('ø' <= c <= 'ÿ')
  }

  /** The regex class `\w`: alphanumeric in Python's sense, or `_`. */
  predicate IsWordChar(c: char) {
    IsAlpha(c) || IsDigit(c) || c == '_'
    || c == '²' || c == '³' || c == '¹' || ('¼' <= c <= '¾')
  }

  /** Characters that `str.lower()` changes. */
  predicate IsUpper(c: char) {
    ('A' <= c <= 'Z') || ('À' <= c <= 'Ö') || ('Ø' <= c <= 'Þ')
  }

  function LowerChar(c: char): (d: char)
    ensures !IsUpper(d)
    ensures !IsUpper(c) ==> d == c
  {
    if IsUpper(c) then (c as int + 32) as char else c
  }

  /** `str.lower()` */
  function Lower(s: string): (r: string)
    ensures |r| == |s|
    ensures forall i :: 0 <= i < |s| ==> !IsUpper(r[i])
    ensures forall i :: 0 <= i < |s| ==>
      if IsUpper(s[i]) then r[i] as int == s[i] as int + 32 else r[i] == s[i]
  {
    seq(|s|, i requires 0 <= i < |s| => LowerChar(s[i]))
  }

  lemma LowerAppend(a: string, b: string)
    ensures Lower(a + b) == Lower(a) + Lower(b)
  {
    assert forall i | 0 <= i < |a + b| :: Lower(a + b)[i] == (Lower(a) + Lower(b))[i];
  }

  /** A string with no upper-case character is its own lower-case form. */
  lemma LowerOfLower(s: string)
    requires forall i :: 0 <= i < |s| ==> !IsUpper(s[i])
    ensures Lower(s) == s
  {
  }

  // ---------------------------------------------------------------------
  // Substring search: Python's `pat in s`
  // ---------------------------------------------------------------------

  ghost predicate OccursAt(pat: string, s: string, i: int) {
    0 <= i && i + |pat| <= |s| && s[i..i + |pat|] == pat
  }

  /** `pat in s` as a statement about positions. */
  ghost predicate Occurs(pat: string, s: string) {
    exists i :: OccursAt(pat, s, i)
  }

  lemma OccursShift(pat: string, s: string)
    requires |pat| <= |s| && s[..|pat|] != pat
    ensures Occurs(pat, s) <==> Occurs(pat, s[1..])
  {
    if Occurs(pat, s) {
      var i :| OccursAt(pat, s, i);
      assert i != 0;
      assert s[1..][i - 1..i - 1 + |pat|] == s[i..i + |pat|];
      assert OccursAt(pat, s[1..], i - 1);
    }
    if Occurs(pat, s[1..]) {
      var i :| OccursAt(pat, s[1..], i);
      assert s[i + 1..i + 1 + |pat|] == s[1..][i..i + |pat|];
      assert OccursAt(pat, s, i + 1);
    }
  }

  /** The left-to-right scan that decides `pat in s`. */
  function Contains(pat: string, s: string): (r: bool)
    ensures r <==> Occurs(pat, s)
    decreases |s|
  {
    if |s| < |pat| then false
    else if s[..|pat|] == pat then assert OccursAt(pat, s, 0); true
    else OccursShift(pat, s); Contains(pat, s[1..])
  }

  /** `any(k in s for k in keys)` */
  function ContainsAny(keys: seq<string>, s: string): (r: bool)
    ensures r <==> exists k :: k in keys && Occurs(k, s)
  {
    if keys == [] then false
    else Contains(keys[0], s) || ContainsAny(keys[1..], s)
  }

  lemma OccursInLonger(pat: string, s: string, t: string)
    ensures Occurs(pat, s) ==> Occurs(pat, s + t)
    ensures Occurs(pat, t) ==> Occurs(pat, s + t)
  {
    if Occurs(pat, s) {
      var i :| OccursAt(pat, s, i);
      assert (s + t)[i..i + |pat|] == s[i..i + |pat|];
      assert OccursAt(pat, s + t, i);
    }
    if Occurs(pat, t) {
      var i :| OccursAt(pat, t, i);
      assert (s + t)[|s| + i..|s| + i + |pat|] == t[i..i + |pat|];
      assert OccursAt(pat, s + t, |s| + i);
    }
  }

  lemma OccursSelf(s: string)
    ensures Occurs(s, s)
  {
    assert OccursAt(s, s, 0);
  }

  /** `in` is transitive: a pattern inside a part of `t` is inside `t`. */
  lemma OccursTrans(pat: string, s: string, t: string)
    requires Occurs(pat, s) && Occurs(s, t)
    ensures Occurs(pat, t)
  {
    var i :| OccursAt(pat, s, i);
    var j :| OccursAt(s, t, j);
    forall k | 0 <= k < |pat|
      ensures t[j + i + k] == pat[k]
    {
      assert t[j + i + k] == s[i + k];
    }
    assert t[j + i..j + i + |pat|] == pat;
    assert OccursAt(pat, t, j + i);
  }

  lemma OccursLower(pat: string, s: string)
    requires Occurs(pat, s)
    ensures Occurs(Lower(pat), Lower(s))
  {
    var i :| OccursAt(pat, s, i);
    assert Lower(s)[i..i + |pat|] == Lower(pat);
    assert OccursAt(Lower(pat), Lower(s), i);
  }

  // ---------------------------------------------------------------------
  // strip(): `str.strip()` and `str.strip(",")`
  // ---------------------------------------------------------------------

  /** The character sets `strip` removes here: whitespace for `strip()`
      and the comma for `strip(",")`. */
  datatype Strippable = Spaces | Commas

  predicate InSet(cs: Strippable, c: char) {
    match cs
    case Spaces => IsSpace(c)
    case Commas => c == ','
  }

  function TrimLeft(s: string, cs: Strippable): (r: string)
    ensures |r| <= |s| && r == s[|s| - |r|..]
    ensures forall k :: 0 <= k < |s| - |r| ==> InSet(cs, s[k])
    ensures r != [] ==> !InSet(cs, r[0])
    decreases |s|
  {
    if s != [] && InSet(cs, s[0]) then
      var r := TrimLeft(s[1..], cs);
      assert forall k :: 1 <= k < |s| - |r| ==> s[k] == s[1..][k - 1];
      r
    else s
  }

  function TrimRight(s: string, cs: Strippable): (r: string)
    ensures |r| <= |s| && r == s[..|r|]
    ensures forall k :: |r| <= k < |s| ==> InSet(cs, s[k])
    ensures r != [] ==> !InSet(cs, r[|r| - 1])
    decreases |s|
  {
    if s != [] && InSet(cs, s[|s| - 1]) then
      var r := TrimRight(s[..|s| - 1], cs);
      assert forall k :: |r| <= k < |s| - 1 ==> s[k] == s[..|s| - 1][k];
      r
    else s
  }

  /** `r` is `s` with `i` characters of `cs` removed at the front and the
      rest of the removed characters, all of `cs`, at the back. */
  ghost predicate TrimmedAt(s: string, cs: Strippable, r: string, i: int) {
    && 0 <= i && i + |r| <= |s| && r == s[i..i + |r|]
    && (forall k :: 0 <= k < i ==> InSet(cs, s[k]))
    && (forall k :: i + |r| <= k < |s| ==> InSet(cs, s[k]))
  }

  /** Removes every leading and trailing character of `cs`. */
  function Trim(s: string, cs: Strippable): (r: string)
    ensures |r| <= |s|
    ensures r != [] ==> !InSet(cs, r[0]) && !InSet(cs, r[|r| - 1])
  {
    var l := TrimLeft(s, cs);
    var r := TrimRight(l, cs);
    assert r != [] ==> r[0] == l[0];
    r
  }

  /** What `Trim` removes: a run of `cs` characters at each end, and
      everything exactly when the whole string is made of them. */
  lemma TrimRemovesEnds(s: string, cs: Strippable)
    ensures exists i :: TrimmedAt(s, cs, Trim(s, cs), i)
    ensures Trim(s, cs) == [] <==> forall k :: 0 <= k < |s| ==> InSet(cs, s[k])
  {
    TrimBoth(s, cs, TrimLeft(s, cs), Trim(s, cs));
  }

  lemma TrimBoth(s: string, cs: Strippable, l: string, r: string)
    requires |l| <= |s| && l == s[|s| - |l|..]
    requires forall k :: 0 <= k < |s| - |l| ==> InSet(cs, s[k])
    requires |r| <= |l| && r == l[..|r|]
    requires forall k :: |r| <= k < |l| ==> InSet(cs, l[k])
    requires l != [] ==> !InSet(cs, l[0])
    requires r != [] ==> !InSet(cs, r[|r| - 1])
    ensures TrimmedAt(s, cs, r, |s| - |l|)
    ensures r != [] ==> !InSet(cs, r[0]) && !InSet(cs, r[|r| - 1])
    ensures r == [] <==> forall k :: 0 <= k < |s| ==> InSet(cs, s[k])
  {
    var i := |s| - |l|;
    assert r == s[i..i + |r|];
    forall k | i + |r| <= k < |s|
      ensures InSet(cs, s[k])
    {
      assert s[k] == l[k - i];
    }
    if r != [] {
      assert r[0] == l[0];
    }
  }

  /** A string with no character of `cs` at either end is left alone. */
  lemma TrimNoop(s: string, cs: Strippable)
    requires s != [] ==> !InSet(cs, s[0]) && !InSet(cs, s[|s| - 1])
    ensures Trim(s, cs) == s
  {
  }

  lemma TrimIdempotent(s: string, cs: Strippable)
    ensures Trim(Trim(s, cs), cs) == Trim(s, cs)
  {
    TrimNoop(Trim(s, cs), cs);
  }

  /** `str.strip()` */
  function Strip(s: string): string {
    Trim(s, Spaces)
  }

  /** `str.strip(",")` */
  function StripCommas(s: string): string {
    Trim(s, Commas)
  }

  // ---------------------------------------------------------------------
  // split() and join()
  // ---------------------------------------------------------------------

  predicate NoSpace(w: string) {
    forall j :: 0 <= j < |w| ==> !IsSpace(w[j])
  }

  /** The run of non-whitespace characters at the front of `s`. */
  function Word(s: string): (w: string)
    ensures |w| <= |s| && w == s[..|w|]
    ensures NoSpace(w)
    ensures |w| < |s| ==> IsSpace(s[|w|])
    decreases |s|
  {
    if s == [] || IsSpace(s[0]) then [] else [s[0]] + Word(s[1..])
  }

  /** `str.split()` with no separator: the maximal whitespace-free runs. */
  function Split(s: string): (r: seq<string>)
    ensures forall k :: 0 <= k < |r| ==> r[k] != [] && NoSpace(r[k])
    decreases |s|
  {
    if s == [] then []
    else if IsSpace(s[0]) then Split(s[1..])
    else
      var w := Word(s);
      [w] + Split(s[|w|..])
  }

  /** `sep.join(parts)` */
  function JoinWith(sep: string, parts: seq<string>): (r: string)
    ensures parts == [] ==> r == []
    ensures |parts| == 1 ==> r == parts[0]
  {
    if parts == [] then []
    else if |parts| == 1 then parts[0]
    else parts[0] + sep + JoinWith(sep, parts[1..])
  }

  lemma {:induction false} JoinAppend(sep: string, a: seq<string>, b: seq<string>)
    requires a != [] && b != []
    ensures JoinWith(sep, a + b) == JoinWith(sep, a) + sep + JoinWith(sep, b)
    decreases |a|
  {
    if |a| == 1 {
      assert (a + b)[1..] == b;
    } else {
      assert (a + b)[1..] == a[1..] + b;
      JoinAppend(sep, a[1..], b);
    }
  }

  /** Every part is found in the joined text. */
  lemma {:induction false} OccursInJoin(sep: string, parts: seq<string>, k: nat)
    requires k < |parts|
    ensures Occurs(parts[k], JoinWith(sep, parts))
    decreases k
  {
    if |parts| == 1 {
      OccursSelf(parts[0]);
    } else if k == 0 {
      OccursSelf(parts[0]);
      OccursInLonger(parts[0], parts[0], sep + JoinWith(sep, parts[1..]));
      assert JoinWith(sep, parts) == parts[0] + (sep + JoinWith(sep, parts[1..]));
    } else {
      OccursInJoin(sep, parts[1..], k - 1);
      OccursInLonger(parts[k], parts[0] + sep, JoinWith(sep, parts[1..]));
    }
  }

  /** Joining more parts keeps the earlier join as a prefix. */
  lemma JoinGrows(sep: string, a: seq<string>, b: seq<string>)
    ensures Occurs(JoinWith(sep, a), JoinWith(sep, a + b))
  {
    if a == [] {
      assert OccursAt(JoinWith(sep, a), JoinWith(sep, a + b), 0);
    } else if b == [] {
      assert a + b == a;
      OccursSelf(JoinWith(sep, a));
    } else {
      JoinAppend(sep, a, b);
      OccursSelf(JoinWith(sep, a));
      OccursInLonger(JoinWith(sep, a), JoinWith(sep, a), sep + JoinWith(sep, b));
      assert JoinWith(sep, a + b) == JoinWith(sep, a) + (sep + JoinWith(sep, b));
    }
  }

  /** `s` with every whitespace character deleted. */
  function DropSpaces(s: string): (r: string)
    ensures |r| <= |s| && NoSpace(r)
    decreases |s|
  {
    if s == [] then []
    else if IsSpace(s[0]) then DropSpaces(s[1..])
    else [s[0]] + DropSpaces(s[1..])
  }

  lemma {:induction false} DropSpacesAppend(a: string, b: string)
    ensures DropSpaces(a + b) == DropSpaces(a) + DropSpaces(b)
    decreases |a|
  {
    if a == [] {
      assert a + b == b;
    } else {
      assert (a + b)[0] == a[0] && (a + b)[1..] == a[1..] + b;
      DropSpacesAppend(a[1..], b);
    }
  }

  lemma {:induction false} DropSpacesKeeps(w: string)
    requires NoSpace(w)
    ensures DropSpaces(w) == w
    decreases |w|
  {
    if w != [] {
      DropSpacesKeeps(w[1..]);
    }
  }

  lemma JoinNothingCons(w: string, rest: seq<string>)
    ensures JoinWith("", [w] + rest) == w + JoinWith("", rest)
  {
    if rest != [] {
      assert ([w] + rest)[1..] == rest;
    }
  }

  /** The words `split()` returns are all found in `s`, and together they
      are exactly the non-whitespace characters of `s`, in order. */
  lemma {:induction false} SplitCovers(s: string)
    ensures forall k :: 0 <= k < |Split(s)| ==> Occurs(Split(s)[k], s)
    ensures JoinWith("", Split(s)) == DropSpaces(s)
    decreases |s|
  {
    if s == [] {
    } else if IsSpace(s[0]) {
      SplitCovers(s[1..]);
      assert s == [s[0]] + s[1..];
      forall k | 0 <= k < |Split(s)|
        ensures Occurs(Split(s)[k], s)
      {
        OccursInLonger(Split(s)[k], [s[0]], s[1..]);
      }
    } else {
      var w := Word(s);
      var rest := s[|w|..];
      assert s == w + rest;
      SplitCovers(rest);
      assert Split(s) == [w] + Split(rest);
      JoinNothingCons(w, Split(rest));
      DropSpacesAppend(w, rest);
      DropSpacesKeeps(w);
      forall k | 0 <= k < |Split(s)|
        ensures Occurs(Split(s)[k], s)
      {
        if k == 0 {
          assert OccursAt(w, s, 0);
        } else {
          assert Split(s)[k] == Split(rest)[k - 1];
          OccursInLonger(Split(s)[k], w, rest);
        }
      }
    }
  }

  /** A whitespace-free word on its own splits to itself. */
  lemma {:induction false} SplitOneWord(w: string)
    requires w != [] && NoSpace(w)
    ensures Split(w) == [w]
  {
    WordOfNoSpace(w);
    assert w[|w|..] == [];
  }

  lemma {:induction false} WordOfNoSpace(w: string)
    requires NoSpace(w)
    ensures Word(w) == w
    decreases |w|
  {
    if w != [] {
      WordOfNoSpace(w[1..]);
    }
  }

  /** A word stops at the first whitespace character. */
  lemma {:induction false} WordStopsAtSpace(a: string, c: char, b: string)
    requires IsSpace(c)
    ensures Word(a + [c] + b) == Word(a)
    decreases |a|
  {
    if a != [] {
      assert (a + [c] + b)[1..] == a[1..] + [c] + b;
      WordStopsAtSpace(a[1..], c, b);
    }
  }

  /** Splitting at one whitespace character splits the two sides apart:
      with `Split([]) == []` and `SplitOneWord` this fixes `Split` on every
      string. */
  lemma {:induction false} SplitAtSpace(a: string, c: char, b: string)
    requires IsSpace(c)
    ensures Split(a + [c] + b) == Split(a) + Split(b)
    decreases |a|
  {
    var s := a + [c] + b;
    if a == [] {
      assert s[1..] == b;
    } else if IsSpace(a[0]) {
      assert s[1..] == a[1..] + [c] + b;
      SplitAtSpace(a[1..], c, b);
    } else {
      WordStopsAtSpace(a, c, b);
      var w := Word(a);
      assert s[|w|..] == a[|w|..] + [c] + b;
      SplitAtSpace(a[|w|..], c, b);
    }
  }

  // ---------------------------------------------------------------------
  // replace(pat, "")
  // ---------------------------------------------------------------------

  /** `s.replace(pat, "")`: deletes the non-overlapping occurrences of `pat`
      found scanning left to right; an empty `pat` changes nothing. */
  function RemoveAll(s: string, pat: string): (r: string)
    ensures |r| <= |s|
    ensures !Occurs(pat, s) ==> r == s
    ensures pat == [] ==> r == s
    ensures pat != [] && Occurs(pat, s) ==> |r| <= |s| - |pat|
    decreases |s|
  {
    if pat == [] || |s| < |pat| then s
    else if s[..|pat|] == pat then
      assert OccursAt(pat, s, 0);
      RemoveAll(s[|pat|..], pat)
    else
      OccursShift(pat, s);
      [s[0]] + RemoveAll(s[1..], pat)
  }

  /** `pieces` are the stretches of `s` between the occurrences of `pat`
      that a left-to-right scan finds: joining them with `pat` gives back
      `s`, no occurrence starts inside a piece before the next cut (the
      scan takes the leftmost one), and the last piece holds none. */
  ghost predicate ScanPieces(s: string, pat: string, pieces: seq<string>)
    requires pat != []
  {
    && pieces != [] && s == JoinWith(pat, pieces)
    && (forall k :: 0 <= k < |pieces| - 1 ==> !Occurs(pat, pieces[k] + pat[..|pat| - 1]))
    && !Occurs(pat, pieces[|pieces| - 1])
  }

  lemma JoinPrepend(sep: string, c: string, p: seq<string>)
    requires p != []
    ensures JoinWith(sep, [c + p[0]] + p[1..]) == c + JoinWith(sep, p)
  {
    if |p| > 1 {
      assert ([c + p[0]] + p[1..])[1..] == p[1..];
    }
  }

  /** The pieces that `s.replace(pat, "")` keeps: what it returns is
      their concatenation. */
  ghost function ScanSplit(s: string, pat: string): (pieces: seq<string>)
    requires pat != []
    ensures ScanPieces(s, pat, pieces)
    ensures RemoveAll(s, pat) == JoinWith("", pieces)
    decreases |s|
  {
    if |s| < |pat| then
      [s]
    else if s[..|pat|] == pat then
      var p := ScanSplit(s[|pat|..], pat);
      ScanSplitCut(s, pat, p);
      [[]] + p
    else
      var p := ScanSplit(s[1..], pat);
      ScanSplitStep(s, pat, p);
      [[s[0]] + p[0]] + p[1..]
  }

  lemma ScanSplitCut(s: string, pat: string, p: seq<string>)
    requires pat != [] && |pat| <= |s| && s[..|pat|] == pat
    requires ScanPieces(s[|pat|..], pat, p) && RemoveAll(s[|pat|..], pat) == JoinWith("", p)
    ensures ScanPieces(s, pat, [[]] + p)
    ensures RemoveAll(s, pat) == JoinWith("", [[]] + p)
  {
    JoinEmptyFirst("", p);
    CutPieces(s, pat, p);
  }

  lemma CutPieces(s: string, pat: string, p: seq<string>)
    requires pat != [] && |pat| <= |s| && s[..|pat|] == pat
    requires ScanPieces(s[|pat|..], pat, p)
    ensures ScanPieces(s, pat, [[]] + p)
  {
    var q := [[]] + p;
    JoinEmptyFirst(pat, p);
    assert s == pat + s[|pat|..];
    assert q[0] + pat[..|pat| - 1] == pat[..|pat| - 1];
    OccursTooLong(pat, pat[..|pat| - 1]);
    forall k | 1 <= k < |q|
      ensures q[k] == p[k - 1]
    {
    }
  }

  lemma OccursTooLong(pat: string, s: string)
    requires |s| < |pat|
    ensures !Occurs(pat, s)
  {
  }

  lemma JoinEmptyFirst(sep: string, p: seq<string>)
    requires p != []
    ensures JoinWith(sep, [[]] + p) == sep + JoinWith(sep, p)
  {
    assert ([[]] + p)[1..] == p;
  }

  lemma ScanSplitStep(s: string, pat: string, p: seq<string>)
    requires pat != [] && |pat| <= |s| && s[..|pat|] != pat
    requires ScanPieces(s[1..], pat, p) && RemoveAll(s[1..], pat) == JoinWith("", p)
    ensures ScanPieces(s, pat, [[s[0]] + p[0]] + p[1..])
    ensures RemoveAll(s, pat) == JoinWith("", [[s[0]] + p[0]] + p[1..])
  {
    JoinPrepend("", [s[0]], p);
    if |p| == 1 {
      ScanSplitLast(s, pat, p[0]);
    } else {
      ScanSplitMany(s, pat, p);
    }
  }

  lemma ScanSplitLast(s: string, pat: string, p0: string)
    requires pat != [] && |pat| <= |s| && s[..|pat|] != pat
    requires s[1..] == p0 && !Occurs(pat, p0)
    ensures ScanPieces(s, pat, [[s[0]] + p0])
  {
    OccursShift(pat, s);
    assert [s[0]] + p0 == s;
  }

  lemma ScanSplitMany(s: string, pat: string, p: seq<string>)
    requires pat != [] && |pat| <= |s| && s[..|pat|] != pat
    requires |p| > 1 && ScanPieces(s[1..], pat, p)
    ensures ScanPieces(s, pat, [[s[0]] + p[0]] + p[1..])
  {
    var q := [[s[0]] + p[0]] + p[1..];
    JoinPrepend(pat, [s[0]], p);
    assert s == [s[0]] + s[1..];
    FirstPieceClear(s, pat, p);
    forall k | 1 <= k < |q|
      ensures q[k] == p[k]
    {
    }
  }

  /** A first piece that the scan passes over stays clear when the
      character before it is put back, since no occurrence starts there. */
  lemma FirstPieceClear(s: string, pat: string, p: seq<string>)
    requires pat != [] && |pat| <= |s| && s[..|pat|] != pat
    requires |p| > 1 && s[1..] == JoinWith(pat, p)
    requires !Occurs(pat, p[0] + pat[..|pat| - 1])
    ensures !Occurs(pat, [s[0]] + p[0] + pat[..|pat| - 1])
  {
    var t := [s[0]] + p[0] + pat[..|pat| - 1];
    FirstPieceIsPrefix(s, pat, p);
    assert t[..|pat|] == s[..|pat|];
    OccursShift(pat, t);
    assert t[1..] == p[0] + pat[..|pat| - 1];
  }

  lemma FirstPieceIsPrefix(s: string, pat: string, p: seq<string>)
    requires pat != [] && s != [] && |p| > 1 && s[1..] == JoinWith(pat, p)
    ensures |p[0]| + |pat| <= |s|
    ensures [s[0]] + p[0] + pat[..|pat| - 1] == s[..|p[0]| + |pat|]
  {
    JoinAppend(pat, [p[0]], p[1..]);
    assert [p[0]] + p[1..] == p;
    var rest := JoinWith(pat, p[1..]);
    assert s == [s[0]] + (p[0] + pat + rest);
  }

  // ---------------------------------------------------------------------
  // Ordering
  // ---------------------------------------------------------------------

  /** Python's `<` on strings: lexicographic by code point. */
  predicate LexLess(a: string, b: string) {
    if a == [] then b != []
    else if b == [] then false
    else if a[0] != b[0] then a[0] < b[0]
    else LexLess(a[1..], b[1..])
  }
}
