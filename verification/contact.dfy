/** `extract_contact_info` and `detect_enrollment_info_collected`
    (systemprompt.py:68-93, 113-115): the first email and phone number in
    the joined history text, and a name guessed from the first message that
    carries one of them. */
module Contact {
  import opened Wrappers
  import opened Text
  import opened Patterns
  import opened Messages

  /** The `(name, email, phone)` tuple; `None` where nothing was found. */
  datatype ContactInfo = ContactInfo(name: Option<string>, email: Option<string>, phone: Option<string>)

  /** `m.group()` of a `re.search` result. */
  function MatchedText(s: string, m: Option<Span>): Option<string>
    requires m.Some? ==> m.value.start <= m.value.end <= |s|
  {
    match m
    case None => None
    case Some(sp) => Some(s[sp.start..sp.end])
  }

  /** The email `re.search` finds in `s`, as text. */
  function EmailIn(s: string): (r: Option<string>)
    ensures r.Some? <==> exists i, j :: IsEmailMatch(s, i, j)
    ensures r.Some? ==> exists i, j :: FirstEmailMatch(s, i, j) && r.value == s[i..j]
    ensures r.Some? ==> |r.value| >= 6 && Occurs("@", r.value) && Occurs(r.value, s)
  {
    var m := FindEmail(s);
    if m.Some? then
      EmailTextFacts(s, m.value.start, m.value.end);
      MatchedText(s, m)
    else
      None
  }

  lemma EmailTextFacts(s: string, i: int, j: int)
    requires IsEmailMatch(s, i, j)
    ensures 0 <= i <= j <= |s| && |s[i..j]| >= 6 && Occurs("@", s[i..j]) && Occurs(s[i..j], s)
  {
    EmailMatchShape(s, i, j);
    assert OccursAt(s[i..j], s, i);
  }

  /** The phone number `re.search` finds in `s`, as text. */
  function PhoneIn(s: string): (r: Option<string>)
    ensures r.Some? <==> exists i, j :: IsPhoneMatch(s, i, j)
    ensures r.Some? ==> exists i, j :: FirstPhoneMatch(s, i, j) && r.value == s[i..j]
    ensures r.Some? ==> 10 <= |r.value| <= 12 && DigitCount(r.value) == 10 && Occurs(r.value, s)
  {
    var m := FindPhone(s);
    if m.Some? then
      PhoneMatchShape(s, m.value.start, m.value.end);
      assert OccursAt(s[m.value.start..m.value.end], s, m.value.start);
      MatchedText(s, m)
    else
      None
  }

  // ---------------------------------------------------------------------
  // The name guess
  // ---------------------------------------------------------------------

  /** `w.isalpha() and len(w) > 1` */
  predicate IsNameWord(w: string) {
    |w| > 1 && forall k :: 0 <= k < |w| ==> IsAlpha(w[k])
  }

  /** `[w.strip(",") for w in words]` */
  function StripCommasEach(words: seq<string>): (r: seq<string>)
    ensures |r| == |words|
  {
    if words == [] then [] else [StripCommas(words[0])] + StripCommasEach(words[1..])
  }

  /** Each word is stripped on its own, in place. */
  lemma {:induction false} StripCommasEachAt(words: seq<string>)
    ensures forall k :: 0 <= k < |words| ==> StripCommasEach(words)[k] == StripCommas(words[k])
    decreases |words|
  {
    if words != [] {
      StripCommasEachAt(words[1..]);
    }
  }

  /** `[w for w in words if w.isalpha() and len(w) > 1]` */
  function NameWords(words: seq<string>): (r: seq<string>)
    ensures |r| <= |words|
    ensures forall k :: 0 <= k < |r| ==> IsNameWord(r[k]) && r[k] in words
    ensures forall w :: w in words && IsNameWord(w) ==> w in r
    ensures (exists k :: 0 <= k < |words| && IsNameWord(words[k])) ==> r != []
    ensures words != [] && IsNameWord(words[0]) ==> r != [] && r[0] == words[0]
  {
    if words == [] then []
    else if IsNameWord(words[0]) then [words[0]] + NameWords(words[1..])
    else NameWords(words[1..])
  }

  /** The filter keeps order: filtering a concatenation filters each side.
      With the one-word case this fixes `NameWords` on every list. */
  lemma {:induction false} NameWordsAppend(a: seq<string>, b: seq<string>)
    ensures NameWords(a + b) == NameWords(a) + NameWords(b)
    decreases |a|
  {
    if a == [] {
      assert a + b == b;
    } else {
      assert (a + b)[0] == a[0] && (a + b)[1..] == a[1..] + b;
      NameWordsAppend(a[1..], b);
    }
  }

  lemma NameWordsOne(w: string)
    ensures NameWords([w]) == if IsNameWord(w) then [w] else []
  {
    assert [w][1..] == [];
  }

  /** Every name-like token left in a message text once the found email and
      phone have been cut out of it, in order. */
  function NameCandidates(t: string, email: Option<string>, phone: Option<string>): seq<string>
  {
    NameWords(StripCommasEach(Split(RemoveAll(RemoveAll(t, OrEmpty(email)), OrEmpty(phone)))))
  }

  /** The first one or two of those candidates. */
  function NameTokens(t: string, email: Option<string>, phone: Option<string>): (r: seq<string>)
    ensures |r| <= 2
    ensures forall k :: 0 <= k < |r| ==> IsNameWord(r[k])
  {
    var names := NameCandidates(t, email, phone);
    if |names| <= 2 then names else names[..2]
  }

  /** The tokens are the first two candidates, or all of them when there
      are fewer; so there are tokens exactly when there are candidates. */
  lemma NameTokensAreFirstCandidates(t: string, email: Option<string>, phone: Option<string>)
    ensures var n := NameCandidates(t, email, phone);
      |NameTokens(t, email, phone)| == (if |n| < 2 then |n| else 2)
      && NameTokens(t, email, phone) == n[..|NameTokens(t, email, phone)|]
    ensures NameTokens(t, email, phone) != [] <==> NameCandidates(t, email, phone) != []
  {
  }

  /** `email and (email in t) or (phone and phone in t)` */
  predicate MentionsContact(t: string, email: Option<string>, phone: Option<string>) {
    (Truthy(email) && Contains(email.value, t)) || (Truthy(phone) && Contains(phone.value, t))
  }

  /** The message the name guess stops at: it has content, its text holds
      the email or the phone, and some name-like token is left in it. */
  predicate NameSource(m: Message, email: Option<string>, phone: Option<string>) {
    && m.content != []
    && MentionsContact(ContentText(m), email, phone)
    && NameTokens(ContentText(m), email, phone) != []
  }

  /** One or two name-like words joined by one space. */
  ghost predicate IsNameGuess(n: string) {
    || IsNameWord(n)
    || exists k :: 0 <= k < |n| && n[k] == ' ' && IsNameWord(n[..k]) && IsNameWord(n[k + 1..])
  }

  lemma NameGuessShape(toks: seq<string>)
    requires 1 <= |toks| <= 2 && forall k :: 0 <= k < |toks| ==> IsNameWord(toks[k])
    ensures IsNameGuess(JoinWith(" ", toks))
  {
    if |toks| == 2 {
      var n := JoinWith(" ", toks);
      assert n == toks[0] + " " + toks[1];
      assert n[..|toks[0]|] == toks[0];
      assert n[|toks[0]| + 1..] == toks[1];
    }
  }

  lemma NameGuessNonEmpty(n: string)
    requires IsNameGuess(n)
    ensures |n| > 1
  {
    if !IsNameWord(n) {
      var k :| 0 <= k < |n| && n[k] == ' ' && IsNameWord(n[..k]) && IsNameWord(n[k + 1..]);
      assert |n[..k]| > 1;
    }
  }

  /** The loop of systemprompt.py:83-92: the first message that is a name
      source supplies the name. */
  function GuessName(history: seq<Message>, email: Option<string>, phone: Option<string>): (r: Option<string>)
    ensures r.Some? ==> IsNameGuess(r.value)
  {
    if history == [] then None
    else if NameSource(history[0], email, phone) then
      var toks := NameTokens(ContentText(history[0]), email, phone);
      NameGuessShape(toks);
      Some(JoinWith(" ", toks))
    else
      GuessName(history[1..], email, phone)
  }

  /** Entry `k` is the first name source of the history. */
  ghost predicate FirstNameSource(history: seq<Message>, email: Option<string>, phone: Option<string>, k: int) {
    && 0 <= k < |history|
    && NameSource(history[k], email, phone)
    && forall k' :: 0 <= k' < k ==> !NameSource(history[k'], email, phone)
  }

  /** The first name source after a leading entry that is not one. */
  lemma FirstNameSourceShift(history: seq<Message>, email: Option<string>, phone: Option<string>, k: int)
    requires history != [] && !NameSource(history[0], email, phone)
    requires FirstNameSource(history[1..], email, phone, k)
    ensures FirstNameSource(history, email, phone, k + 1) && history[k + 1] == history[1..][k]
  {
    var tail := history[1..];
    forall k' | 0 <= k' < k + 1
      ensures !NameSource(history[k'], email, phone)
    {
      if k' > 0 {
        var m := tail[k' - 1];
        assert !NameSource(m, email, phone);
        assert history[k'] == m;
      }
    }
  }

  /** The name guess finds nothing exactly when no message is a name
      source. */
  lemma {:induction false} GuessNameNone(history: seq<Message>, email: Option<string>, phone: Option<string>)
    ensures GuessName(history, email, phone).None? <==>
      forall k :: 0 <= k < |history| ==> !NameSource(history[k], email, phone)
    decreases |history|
  {
    if history != [] && !NameSource(history[0], email, phone) {
      var tail := history[1..];
      GuessNameNone(tail, email, phone);
      assert forall k :: 1 <= k < |history| ==> tail[k - 1] == history[k];
    }
  }

  /** The name guess stops at the first name source and is built from that
      message's tokens. */
  lemma {:induction false} GuessNameFirstSource(history: seq<Message>, email: Option<string>, phone: Option<string>)
    requires GuessName(history, email, phone).Some?
    ensures exists k :: (FirstNameSource(history, email, phone, k)
      && GuessName(history, email, phone).value == JoinWith(" ", NameTokens(ContentText(history[k]), email, phone)))
    decreases |history|
  {
    if NameSource(history[0], email, phone) {
      assert FirstNameSource(history, email, phone, 0);
    } else {
      var tail := history[1..];
      GuessNameFirstSource(tail, email, phone);
      var k :| FirstNameSource(tail, email, phone, k)
        && GuessName(tail, email, phone).value == JoinWith(" ", NameTokens(ContentText(tail[k]), email, phone));
      FirstNameSourceShift(history, email, phone, k);
    }
  }

  // ---------------------------------------------------------------------
  // extract_contact_info and detect_enrollment_info_collected
  // ---------------------------------------------------------------------

  /** `extract_contact_info(history)` */
  function ExtractContact(history: seq<Message>): (c: ContactInfo)
    ensures c.email.Some? <==> exists i, j :: IsEmailMatch(HistText(history), i, j)
    ensures c.email.Some? ==> exists i, j :: FirstEmailMatch(HistText(history), i, j) && c.email.value == HistText(history)[i..j]
    ensures c.email.Some? ==> Occurs(c.email.value, HistText(history))
    ensures c.phone.Some? <==> exists i, j :: IsPhoneMatch(HistText(history), i, j)
    ensures c.phone.Some? ==> exists i, j :: FirstPhoneMatch(HistText(history), i, j) && c.phone.value == HistText(history)[i..j]
    ensures c.phone.Some? ==> Occurs(c.phone.value, HistText(history)) && DigitCount(c.phone.value) == 10
    ensures c.name.Some? ==> IsNameGuess(c.name.value)
    ensures c.name.Some? ==> exists k :: (0 <= k < |history| && history[k].content != []
      && ((c.email.Some? && Occurs(c.email.value, ContentText(history[k])))
          || (c.phone.Some? && Occurs(c.phone.value, ContentText(history[k])))))
  {
    var text := HistText(history);
    var email := EmailIn(text);
    var phone := PhoneIn(text);
    var name := GuessName(history, email, phone);
    NameSourceMentions(history, email, phone, name);
    ContactInfo(name, email, phone)
  }

  lemma NameSourceMentions(history: seq<Message>, email: Option<string>, phone: Option<string>, name: Option<string>)
    requires name == GuessName(history, email, phone)
    ensures name.Some? ==> exists k :: (0 <= k < |history| && history[k].content != []
      && ((email.Some? && Occurs(email.value, ContentText(history[k])))
          || (phone.Some? && Occurs(phone.value, ContentText(history[k])))))
  {
    if name.Some? {
      GuessNameFirstSource(history, email, phone);
      var k :| FirstNameSource(history, email, phone, k);
      assert MentionsContact(ContentText(history[k]), email, phone);
    }
  }

  /** `all([name, email, phone])` over the extracted contact. */
  function EnrollmentInfoCollected(history: seq<Message>): (r: bool)
    ensures r <==> var c := ExtractContact(history); c.name.Some? && c.email.Some? && c.phone.Some?
  {
    var c := ExtractContact(history);
    assert c.name.Some? ==> c.name.value != "" by {
      if c.name.Some? {
        NameGuessNonEmpty(c.name.value);
      }
    }
    Truthy(c.name) && Truthy(c.email) && Truthy(c.phone)
  }

  /** Collected contact information means an email and a phone number both
      occur in the history text. */
  lemma InfoCollectedHasEmailAndPhone(history: seq<Message>)
    ensures EnrollmentInfoCollected(history) ==> exists i, j :: IsEmailMatch(HistText(history), i, j)
    ensures EnrollmentInfoCollected(history) ==> exists i, j :: IsPhoneMatch(HistText(history), i, j)
  {
  }

  /** The handler's `{role, text}` records carry no `content`, so contact
      information in them is never collected. */
  lemma TextShapedHistoryHasNoContact(history: seq<Message>)
    requires forall k :: 0 <= k < |history| ==> history[k].content == []
    ensures ExtractContact(history) == ContactInfo(None, None, None)
    ensures !EnrollmentInfoCollected(history)
  {
    TextShapedHistoryIsSilent(history);
  }
}
