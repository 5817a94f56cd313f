/** `normalize_history_to_genai` (main.py:79-103): the incoming
    `{role, text}` history turned into the turns sent to the model. */
module History {
  import opened Wrappers
  import opened Text
  import opened Messages

  /** The two roles the model accepts. */
  datatype GenaiRole = User | Model

  /** `Content(role=..., parts=[Part(text=...)])` with its single part. */
  datatype Turn = Turn(role: GenaiRole, text: string)

  /** A string `strip()` leaves alone. */
  predicate IsStripped(s: string) {
    s != [] ==> !IsSpace(s[0]) && !IsSpace(s[|s| - 1])
  }

  lemma StripIsStripped(s: string)
    ensures IsStripped(Strip(s))
  {
  }

  /** The role a lowercased, stripped role name stands for: "assistant" is
      the model, "user" the user, and every other name is unknown. */
  function RoleFromName(name: string): (r: Option<GenaiRole>)
    ensures r.Some? ==> RoleName(r.value) == name
  {
    if name == "assistant" then Some(Model)
    else if name == "user" then Some(User)
    else None
  }

  /** The role name a turn is written back under. */
  function RoleName(r: GenaiRole): string {
    match r
    case User => "user"
    case Model => "assistant"
  }

  /** The role an entry is sent under, read in any letter case and with
      surrounding whitespace. */
  function RoleOf(m: Message): Option<GenaiRole> {
    RoleFromName(Lower(Strip(OrEmpty(m.role))))
  }

  /** An entry is a model turn exactly when its role, stripped and
      lowercased, is "assistant", a user turn exactly when it is "user", and
      skipped otherwise. */
  lemma RoleOfReads(m: Message)
    ensures RoleOf(m) == Some(Model) <==> Lower(Strip(OrEmpty(m.role))) == "assistant"
    ensures RoleOf(m) == Some(User) <==> Lower(Strip(OrEmpty(m.role))) == "user"
    ensures RoleOf(m).None? <==> Lower(Strip(OrEmpty(m.role))) !in {"assistant", "user"}
  {
  }

  /** One loop iteration: the turn an entry becomes, or `None` when it is
      skipped for an empty text or an unknown role. */
  function NormalizeOne(m: Message): (r: Option<Turn>)
    ensures r.None? <==> Strip(OrEmpty(m.text)) == "" || RoleOf(m).None?
    ensures r.Some? ==> r.value.text == Strip(OrEmpty(m.text)) && Some(r.value.role) == RoleOf(m)
    ensures r.Some? ==> r.value.text != "" && IsStripped(r.value.text)
  {
    var text := Strip(OrEmpty(m.text));
    StripIsStripped(OrEmpty(m.text));
    if text == "" then None
    else
      match RoleOf(m)
      case None => None
      case Some(role) => Some(Turn(role, text))
  }

  /** `normalize_history_to_genai(history)`; a missing history is `[]`. */
  function Normalize(history: seq<Message>): (r: seq<Turn>)
    ensures |r| <= |history|
    ensures forall k :: 0 <= k < |r| ==> r[k].text != "" && IsStripped(r[k].text)
  {
    if history == [] then []
    else
      var first := TurnsOf(history[0]);
      assert forall k :: 0 <= k < |first| ==> first[k].text != "" && IsStripped(first[k].text);
      first + Normalize(history[1..])
  }

  /** The turns an entry contributes: none or one. */
  function TurnsOf(m: Message): (r: seq<Turn>)
    ensures |r| <= 1
    ensures r == [] <==> NormalizeOne(m).None?
    ensures r != [] ==> r[0] == NormalizeOne(m).value && r[0].text != "" && IsStripped(r[0].text)
  {
    match NormalizeOne(m)
    case None => []
    case Some(t) => [t]
  }

  /** One step of the loop. */
  lemma NormalizeStep(history: seq<Message>)
    requires history != []
    ensures Normalize(history) == TurnsOf(history[0]) + Normalize(history[1..])
  {
  }

  /** Normalising distributes over concatenation: entries are handled one at
      a time and kept in their order. */
  lemma {:induction false} NormalizeAppend(a: seq<Message>, b: seq<Message>)
    ensures Normalize(a + b) == Normalize(a) + Normalize(b)
    decreases |a|
  {
    if a == [] {
      assert a + b == b;
    } else {
      assert (a + b)[1..] == a[1..] + b;
      NormalizeAppend(a[1..], b);
    }
  }

  /** A single entry becomes at most one turn. */
  lemma NormalizeSingle(m: Message)
    ensures Normalize([m]) == TurnsOf(m)
  {
    NormalizeStep([m]);
  }

  /** Every entry that is not skipped yields its turn. */
  lemma {:induction false} NormalizeKeeps(history: seq<Message>, k: nat)
    requires k < |history| && NormalizeOne(history[k]).Some?
    ensures NormalizeOne(history[k]).value in Normalize(history)
    decreases k
  {
    NormalizeStep(history);
    if k > 0 {
      NormalizeKeeps(history[1..], k - 1);
      assert history[1..][k - 1] == history[k];
    }
  }

  lemma InEither(t: Turn, a: seq<Turn>, b: seq<Turn>)
    requires t in a + b
    ensures t in a || t in b
  {
  }

  lemma TurnsOfHas(m: Message, t: Turn)
    requires t in TurnsOf(m)
    ensures NormalizeOne(m) == Some(t)
  {
  }

  /** Every turn comes from an entry of the history. */
  lemma {:induction false} NormalizeSources(history: seq<Message>, t: Turn)
    ensures t in Normalize(history) ==> exists k :: 0 <= k < |history| && NormalizeOne(history[k]) == Some(t)
    decreases |history|
  {
    if history != [] && t in Normalize(history) {
      NormalizeStep(history);
      var rest := history[1..];
      InEither(t, TurnsOf(history[0]), Normalize(rest));
      if t in TurnsOf(history[0]) {
        TurnsOfHas(history[0], t);
      } else {
        NormalizeSources(rest, t);
        var k :| 0 <= k < |rest| && NormalizeOne(rest[k]) == Some(t);
        assert rest[k] == history[k + 1];
      }
    }
  }

  /** Nothing survives from a history whose entries are all skipped, and
      only from such a history. */
  lemma NormalizeEmpty(history: seq<Message>)
    ensures Normalize(history) == [] <==> forall k :: 0 <= k < |history| ==> NormalizeOne(history[k]).None?
  {
    if Normalize(history) != [] {
      NormalizeSources(history, Normalize(history)[0]);
    }
    forall k | 0 <= k < |history| && NormalizeOne(history[k]).Some?
      ensures Normalize(history) != []
    {
      NormalizeKeeps(history, k);
    }
  }

  // ---------------------------------------------------------------------
  // Round trip through the wire format
  // ---------------------------------------------------------------------

  /** A turn written back as a `{role, text}` history entry. */
  function ToMessage(t: Turn): Message {
    Message(Some(RoleName(t.role)), Some(t.text), [])
  }

  /** Turns written back as a history, one entry per turn. */
  function ToHistory(turns: seq<Turn>): (r: seq<Message>)
    ensures |r| == |turns|
  {
    if turns == [] then [] else [ToMessage(turns[0])] + ToHistory(turns[1..])
  }

  /** A role name read back gives the role. */
  lemma RoleNameRoundTrip(r: GenaiRole)
    ensures Lower(Strip(RoleName(r))) == RoleName(r)
  {
    TrimNoop(RoleName(r), Spaces);
    if r == User {
      LowerOfLower("user");
    } else {
      LowerOfLower("assistant");
    }
  }

  /** The role of a turn written back reads as that role. */
  lemma RoleOfToMessage(t: Turn)
    ensures RoleOf(ToMessage(t)) == Some(t.role)
  {
    RoleNameRoundTrip(t.role);
    assert RoleFromName(RoleName(t.role)) == Some(t.role);
  }

  /** A turn with a non-empty stripped text survives being written back and
      normalised again. */
  lemma ToMessageRoundTrip(t: Turn)
    requires t.text != "" && IsStripped(t.text)
    ensures NormalizeOne(ToMessage(t)) == Some(t)
  {
    TrimNoop(t.text, Spaces);
    RoleOfToMessage(t);
  }

  /** A turn written back contributes itself. */
  lemma TurnsOfToMessage(t: Turn)
    requires t.text != "" && IsStripped(t.text)
    ensures TurnsOf(ToMessage(t)) == [t]
  {
    ToMessageRoundTrip(t);
  }

  /** The step of the round trip: one usable turn in front of turns that
      already survive. */
  lemma RoundTripCons(t: Turn, rest: seq<Turn>)
    requires t.text != "" && IsStripped(t.text)
    requires Normalize(ToHistory(rest)) == rest
    ensures Normalize(ToHistory([t] + rest)) == [t] + rest
  {
    assert ([t] + rest)[1..] == rest;
    TurnsOfToMessage(t);
    NormalizeStep(ToHistory([t] + rest));
  }

  /** Normalised turns written back as history normalise to themselves. */
  lemma {:induction false} NormalizeRoundTrip(turns: seq<Turn>)
    requires forall k :: 0 <= k < |turns| ==> turns[k].text != "" && IsStripped(turns[k].text)
    ensures Normalize(ToHistory(turns)) == turns
    decreases |turns|
  {
    if turns != [] {
      var t, rest := turns[0], turns[1..];
      assert turns == [t] + rest;
      UsableTail(turns);
      NormalizeRoundTrip(rest);
      RoundTripCons(t, rest);
    }
  }

  lemma UsableTail(turns: seq<Turn>)
    requires turns != []
    requires forall k :: 0 <= k < |turns| ==> turns[k].text != "" && IsStripped(turns[k].text)
    ensures forall k :: 0 <= k < |turns[1..]| ==> turns[1..][k].text != "" && IsStripped(turns[1..][k].text)
    ensures turns[0].text != "" && IsStripped(turns[0].text)
  {
    assert forall k :: 0 <= k < |turns[1..]| ==> turns[1..][k] == turns[k + 1];
  }

  /** Normalising twice is normalising once. */
  lemma NormalizeIdempotent(history: seq<Message>)
    ensures Normalize(ToHistory(Normalize(history))) == Normalize(history)
  {
    NormalizeRoundTrip(Normalize(history));
  }
}
