/** `get_contextual_sophia_prompt` (systemprompt.py:142-256): the detector
    results, the chosen stage and the campus hint, and the dynamic fragments
    of the system instruction they are written into. */
module Prompt {
  import opened Wrappers
  import opened Text
  import opened Patterns
  import opened Messages
  import opened Contact
  import opened Detectors
  import opened Stages
  import opened Campuses

  /** Everything the instruction reports about the conversation. */
  datatype PromptState = PromptState(
    language: Language,
    stage: Stage,
    contact: ContactInfo,
    locationConfirmed: bool,
    campuses: set<Campus>)

  /** The seven detector results the stage is chosen from
      (systemprompt.py:151-155). */
  function DetectSignals(history: seq<Message>, query: string): (g: Signals)
    ensures g.hasContact <==> var c := ExtractContact(history); c.name.Some? && c.email.Some? && c.phone.Some?
    ensures g.infoCollected == g.hasContact
    ensures g.completionSignal <==> Mentions(CompletionSignals, Lower(query))
    ensures g.enrollmentShared <==> Mentions(AdvisorPhrases, LowerHist(history))
    ensures g.ready <==>
      && (Mentions(InterestTerms, LowerHist(history)) || Mentions(InterestTerms, Lower(query)))
      && (Mentions(ReadySignals, LowerHist(history)) || Mentions(ReadySignals, Lower(query)))
    ensures g.wantsPrice <==> Mentions(PricingKeys, Lower(query))
    ensures g.wantsPayment <==> Mentions(PaymentKeys, Lower(query))
  {
    var cs := DetectCompletionState(history, query);
    Signals(
      cs.hasContact, cs.completionInQuery, cs.enrollmentShared,
      DetectEnrollmentReady(history, query),
      EnrollmentInfoCollected(history),
      DetectPricingInquiry(query),
      DetectPaymentInquiry(query))
  }

  /** The state part of `get_contextual_sophia_prompt(history, query, rag)`:
      which stage the conversation is in, stated through the keyword lists,
      and what the instruction reports about contact and campus. */
  function ContextualState(history: seq<Message>, query: string): (st: PromptState)
    ensures st.stage == Completion <==>
      && EnrollmentInfoCollected(history)
      && Mentions(CompletionSignals, Lower(query))
      && Mentions(AdvisorPhrases, LowerHist(history))
    ensures st.stage == PostEnrollment <==>
      && EnrollmentInfoCollected(history)
      && !Mentions(CompletionSignals, Lower(query))
      && Mentions(AdvisorPhrases, LowerHist(history))
    ensures st.stage == Pricing ==> Mentions(PricingKeys, Lower(query))
    ensures st.stage == PaymentOptions ==>
      Mentions(PaymentKeys, Lower(query)) && !Mentions(PricingKeys, Lower(query))
    ensures st.stage in {EnrollmentCollection, Interested} ==> DetectEnrollmentReady(history, query)
    ensures st.stage == EnrollmentCollection ==> !EnrollmentInfoCollected(history)
    ensures st.stage == Interested ==> EnrollmentInfoCollected(history)
    ensures st.stage == Initial ==>
      && !DetectEnrollmentReady(history, query)
      && !Mentions(PricingKeys, Lower(query))
      && !Mentions(PaymentKeys, Lower(query))
  {
    PromptState(
      DetectLanguage(query, history),
      SelectStage(DetectSignals(history, query)),
      ExtractContact(history),
      CheckLocationConfirmed(history),
      InferCampuses(query))
  }

  /** The reply language, the location flag and the campuses the reply
      names, as the state reports them. */
  lemma ContextualStateReports(history: seq<Message>, query: string)
    ensures ContextualState(history, query).language == Spanish <==>
      && (Mentions(SpanishMarkers, Lower(query)) || Mentions(SpanishMarkers, LowerHist(history)))
      && !(Mentions(EnglishMarkers, Lower(query)) || Mentions(EnglishMarkers, LowerHist(history)))
    ensures ContextualState(history, query).locationConfirmed <==> Mentions(LocationKeys, LowerHist(history))
    ensures forall c :: c in ContextualState(history, query).campuses <==> Offered(c, Lower(query))
  {
  }

  /** The contact the state reports is taken from the history text. */
  lemma ContextualStateContact(history: seq<Message>, query: string)
    ensures ContextualState(history, query).contact == ExtractContact(history)
    ensures var c := ContextualState(history, query).contact;
      && (c.email.Some? ==> Occurs(c.email.value, HistText(history)))
      && (c.phone.Some? ==> Occurs(c.phone.value, HistText(history)))
      && (c.name.Some? ==> IsNameGuess(c.name.value))
  {
  }

  /** A pricing question wins over a payment question and over plain
      interest, but not over an unfinished enrollment or the advisor
      hand-off. */
  lemma PricingOnlyWhen(history: seq<Message>, query: string)
    ensures ContextualState(history, query).stage == Pricing <==>
      && Mentions(PricingKeys, Lower(query))
      && !(EnrollmentInfoCollected(history) && Mentions(AdvisorPhrases, LowerHist(history)))
      && !(DetectEnrollmentReady(history, query) && !EnrollmentInfoCollected(history))
  {
  }

  /** The completion stage depends only on the contact, the hand-off and the
      reply: price, payment and readiness signals cannot displace it. */
  lemma CompletionRegardless(history: seq<Message>, query: string, more: string)
    ensures ContextualState(history, query).stage == Completion ==>
      ContextualState(history, query + more).stage == Completion
  {
    if Mentions(CompletionSignals, Lower(query)) {
      IntentSurvivesCompletion(query, more);
    }
  }

  lemma IntentSurvivesCompletion(query: string, more: string)
    requires Mentions(CompletionSignals, Lower(query))
    ensures Mentions(CompletionSignals, Lower(query + more))
  {
    MentionsInLonger(CompletionSignals, query, "", more);
    assert "" + query + more == query + more;
  }

  /** A history of `{role, text}` records contributes no text to the
      detectors, so the contact is never complete and the conversation can
      never reach the completion, post-enrollment or interested stages. */
  lemma TextShapedHistoryNeverCompletes(history: seq<Message>, query: string)
    requires forall k :: 0 <= k < |history| ==> history[k].content == []
    ensures ContextualState(history, query).stage !in {Completion, PostEnrollment, Interested}
    ensures ContextualState(history, query).contact == ContactInfo(None, None, None)
  {
    TextShapedHistoryHasNoContact(history);
  }

  // ---------------------------------------------------------------------
  // The dynamic fragments of the instruction text
  // ---------------------------------------------------------------------

  /** `<tag>value</tag>` */
  function Tagged(tag: string, value: string): (r: string)
    ensures |r| == 2 * |tag| + |value| + 5
    ensures r[|tag| + 2..|tag| + 2 + |value|] == value
  {
    "<" + tag + ">" + value + "</" + tag + ">"
  }

  /** `str(b).lower()` */
  function BoolText(b: bool): (r: string)
    ensures b <==> r == "true"
    ensures !b <==> r == "false"
  {
    if b then "true" else "false"
  }

  /** The line of the style block naming the reply language. */
  function StyleLine(lang: Language): (r: string)
    ensures Occurs(LanguageName(lang), r)
  {
    var r := "    - Respond in " + LanguageName(lang) + ".";
    OccursSelf(LanguageName(lang));
    OccursInLonger(LanguageName(lang), "    - Respond in ", LanguageName(lang));
    OccursInLonger(LanguageName(lang), "    - Respond in " + LanguageName(lang), ".");
    r
  }

  /** The lines of the `<state>` block, each with its indentation. */
  function StateLines(st: PromptState, today: string): (r: seq<string>)
    ensures |r| == 11
  {
    [ "  <state>",
      "    " + Tagged("stage", StageName(st.stage)),
      "    <contact>",
      "      " + Tagged("name", OrEmpty(st.contact.name)),
      "      " + Tagged("email", OrEmpty(st.contact.email)),
      "      " + Tagged("phone", OrEmpty(st.contact.phone)),
      "    </contact>",
      "    " + Tagged("location_confirmed", BoolText(st.locationConfirmed)),
      "    " + Tagged("campus_policy_inferred_from_query", RenderCampuses(st.campuses)),
      "    " + Tagged("today", today),
      "  </state>" ]
  }

  /** A line nested at least one level inside `<state>`. */
  predicate Nested(line: string) {
    |line| >= 4 && line[..4] == "    "
  }

  lemma NestedLine(indent: string, rest: string)
    requires indent == "    " || indent == "      "
    ensures Nested(indent + rest)
  {
    assert (indent + rest)[..4] == indent[..4];
  }

  /** The block opens and closes with the `<state>` tags, and every line
      between them is nested at least one level deeper. */
  lemma StateLinesNested(st: PromptState, today: string)
    ensures StateLines(st, today)[0] == "  <state>" && StateLines(st, today)[10] == "  </state>"
    ensures forall k :: 0 < k < 10 ==> Nested(StateLines(st, today)[k])
  {
    var lines := StateLines(st, today);
    NestedLine("    ", Tagged("stage", StageName(st.stage)));
    NestedLine("      ", Tagged("name", OrEmpty(st.contact.name)));
    NestedLine("      ", Tagged("email", OrEmpty(st.contact.email)));
    NestedLine("      ", Tagged("phone", OrEmpty(st.contact.phone)));
    NestedLine("    ", Tagged("location_confirmed", BoolText(st.locationConfirmed)));
    NestedLine("    ", Tagged("campus_policy_inferred_from_query", RenderCampuses(st.campuses)));
    NestedLine("    ", Tagged("today", today));
    assert Nested(lines[2]) && Nested(lines[6]);
  }

  /** The `<state>` block as it appears in the instruction: every one of
      its lines is found in it. */
  function StateBlock(st: PromptState, today: string): (r: string)
    ensures forall k :: 0 <= k < 11 ==> Occurs(StateLines(st, today)[k], r)
  {
    var lines := StateLines(st, today);
    forall k | 0 <= k < 11
      ensures Occurs(lines[k], JoinWith("\n", lines))
    {
      OccursInJoin("\n", lines, k);
    }
    JoinWith("\n", lines)
  }

  /** A line of the state block is part of it, and the tag in that line is
      part of the line. */
  lemma TagInStateBlock(st: PromptState, today: string, k: nat, indent: string, tag: string, value: string)
    requires k < 11 && StateLines(st, today)[k] == indent + Tagged(tag, value)
    ensures Occurs(Tagged(tag, value), StateBlock(st, today))
  {
    OccursSelf(Tagged(tag, value));
    OccursInLonger(Tagged(tag, value), indent, Tagged(tag, value));
    OccursTrans(Tagged(tag, value), indent + Tagged(tag, value), StateBlock(st, today));
  }

  /** The stage is written into its tag. */
  lemma StageTagCarriesStage(st: PromptState, today: string)
    ensures Occurs(Tagged("stage", StageName(st.stage)), StateBlock(st, today))
  {
    TagInStateBlock(st, today, 1, "    ", "stage", StageName(st.stage));
  }

  /** The contact fields are written into their tags. */
  lemma ContactTagsCarryContact(st: PromptState, today: string)
    ensures Occurs(Tagged("name", OrEmpty(st.contact.name)), StateBlock(st, today))
    ensures Occurs(Tagged("email", OrEmpty(st.contact.email)), StateBlock(st, today))
    ensures Occurs(Tagged("phone", OrEmpty(st.contact.phone)), StateBlock(st, today))
  {
    TagInStateBlock(st, today, 3, "      ", "name", OrEmpty(st.contact.name));
    TagInStateBlock(st, today, 4, "      ", "email", OrEmpty(st.contact.email));
    TagInStateBlock(st, today, 5, "      ", "phone", OrEmpty(st.contact.phone));
  }

  /** A value inside a tag is part of whatever holds the tag. */
  lemma ValueInTag(tag: string, value: string, s: string)
    requires Occurs(Tagged(tag, value), s)
    ensures Occurs(value, s)
  {
    assert OccursAt(value, Tagged(tag, value), |tag| + 2);
    OccursTrans(value, Tagged(tag, value), s);
  }

  /** An email that was found appears in the block verbatim. */
  lemma EmailShownVerbatim(st: PromptState, today: string)
    requires st.contact.email.Some?
    ensures Occurs(st.contact.email.value, StateBlock(st, today))
  {
    TagInStateBlock(st, today, 4, "      ", "email", st.contact.email.value);
    ValueInTag("email", st.contact.email.value, StateBlock(st, today));
  }

  /** The location flag and the campus hint are written into their tags. */
  lemma PolicyTagsCarryState(st: PromptState, today: string)
    ensures Occurs(Tagged("location_confirmed", BoolText(st.locationConfirmed)), StateBlock(st, today))
    ensures Occurs(Tagged("campus_policy_inferred_from_query", RenderCampuses(st.campuses)), StateBlock(st, today))
    ensures Occurs(Tagged("today", today), StateBlock(st, today))
  {
    TagInStateBlock(st, today, 7, "    ", "location_confirmed", BoolText(st.locationConfirmed));
    TagInStateBlock(st, today, 8, "    ", "campus_policy_inferred_from_query", RenderCampuses(st.campuses));
    TagInStateBlock(st, today, 9, "    ", "today", today);
  }

  // ---------------------------------------------------------------------
  // `rag_context.strip() or "NONE"`
  // ---------------------------------------------------------------------

  /** The body of the `<rag>` block. */
  function RagBody(rag: string): (r: string)
    ensures r == "NONE" <==> Strip(rag) == "" || Strip(rag) == "NONE"
    ensures r != "NONE" ==> r == Strip(rag)
    ensures r != [] && !IsSpace(r[0]) && !IsSpace(r[|r| - 1])
  {
    var body := Strip(rag);
    if body == "" then "NONE" else body
  }

  /** Writing the block body back through the same rule changes nothing. */
  lemma RagBodyIdempotent(rag: string)
    ensures RagBody(RagBody(rag)) == RagBody(rag)
  {
    TrimNoop(RagBody(rag), Spaces);
  }

  /** The `<rag>` block. */
  function RagBlock(rag: string): (r: string)
    ensures Occurs(RagBody(rag), r)
  {
    var body := RagBody(rag);
    OccursSelf(body);
    OccursInLonger(body, "  <rag>\n", body);
    OccursInLonger(body, "  <rag>\n" + body, "\n  </rag>");
    "  <rag>\n" + body + "\n  </rag>"
  }
}
