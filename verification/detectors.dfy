/** The keyword signal detectors of systemprompt.py: language, location,
    pricing and payment intent, enrollment readiness and the completion
    state. Each one lowercases its text and asks whether any keyword of a
    fixed list occurs in it as a substring. */
module Detectors {
  import opened Wrappers
  import opened Text
  import opened Messages
  import opened Contact

  // ---------------------------------------------------------------------
  // Keyword lists (systemprompt.py:32-36, 50, 55, 60-64, 102-108, 123-129)
  // ---------------------------------------------------------------------

  const SpanishMarkers: seq<string> := [
    "hola", "gracias", "por favor", "precio", "costo", "programa", "curso",
    "inscripción", "telefono", "correo", "ayuda financiera", "matricula",
    "cuánto", "¿", "¡", "español", "espanol"]

  const EnglishMarkers: seq<string> := [
    "hello", "hi", "thanks", "price", "cost", "program", "course",
    "enrollment", "contact", "phone", "email", "financial aid"]

  const LocationKeys: seq<string> := ["new york", "ny", "manhattan", "new jersey", "nj", "wayne"]

  const PricingKeys: seq<string> := [
    "price", "tuition", "cost", "fee", "fees", "precio", "costo", "cuánto", "cuanto"]

  const PaymentKeys: seq<string> := [
    "payment plan", "payment options", "monthly", "weekly",
    "financing", "financial aid",
    "plan de pago", "opciones de pago", "mensual", "semanal", "financiamiento", "ayuda financiera"]

  const InterestTerms: seq<string> := [
    "program", "course", "interested", "start", "apply", "enroll",
    "esthetics", "nails", "waxing", "makeup", "cidesco",
    "skincare", "skin care", "cosmetology", "manicure", "teacher training", "barbering",
    "estética", "uñas", "maquillaje", "depilación", "inscribirme"]

  const ReadySignals: seq<string> := ["ready", "sign up", "apply", "quiero", "listo", "enroll", "start"]

  const CompletionSignals: seq<string> := [
    "nope", "no", "that's correct", "yes that is correct",
    "sounds good", "looks good", "i'm good", "im good", "that's all", "nothing else",
    "nada", "perfecto", "está bien", "esta bien"]

  const AdvisorPhrases: seq<string> := ["enrollment advisor", "enrollment team", "advisor will contact"]

  /** Some keyword of `keys` occurs in `text`. */
  ghost predicate Mentions(keys: seq<string>, text: string) {
    exists k :: k in keys && Occurs(k, text)
  }

  /** The joined history text, lowercased, as the detectors search it. */
  function LowerHist(history: seq<Message>): string {
    Lower(HistText(history))
  }

  /** Keywords found in a text are still found when text is added around it. */
  lemma MentionsInLonger(keys: seq<string>, s: string, before: string, after: string)
    requires Mentions(keys, Lower(s))
    ensures Mentions(keys, Lower(before + s + after))
  {
    var k :| k in keys && Occurs(k, Lower(s));
    LowerAppend(before, s);
    LowerAppend(before + s, after);
    OccursInLonger(k, Lower(before), Lower(s));
    OccursInLonger(k, Lower(before) + Lower(s), Lower(after));
  }

  /** Keywords found in the history are still found after more messages. */
  lemma MentionsPersist(keys: seq<string>, history: seq<Message>, more: seq<Message>)
    requires Mentions(keys, LowerHist(history))
    ensures Mentions(keys, LowerHist(history + more))
  {
    var k :| k in keys && Occurs(k, LowerHist(history));
    KeywordPersists(k, history, more);
  }

  // ---------------------------------------------------------------------
  // detect_language (systemprompt.py:26-43)
  // ---------------------------------------------------------------------

  datatype Language = English | Spanish

  /** The word the prompt's style block uses. */
  function LanguageName(l: Language): string {
    match l
    case English => "english"
    case Spanish => "spanish"
  }

  function DetectLanguage(query: string, history: seq<Message>): (lang: Language)
    ensures lang == Spanish <==>
      && (Mentions(SpanishMarkers, Lower(query)) || Mentions(SpanishMarkers, LowerHist(history)))
      && !(Mentions(EnglishMarkers, Lower(query)) || Mentions(EnglishMarkers, LowerHist(history)))
  {
    var q := Lower(query);
    var h := LowerHist(history);
    var es := ContainsAny(SpanishMarkers, q) || ContainsAny(SpanishMarkers, h);
    var en := ContainsAny(EnglishMarkers, q) || ContainsAny(EnglishMarkers, h);
    if es && !en then Spanish else English
  }

  /** "programa" and "costo" are Spanish markers that contain the English
      markers "program" and "cost", so a text using them always also
      mentions English. */
  lemma SpanishCognatesMentionEnglish(text: string)
    requires Occurs("programa", text) || Occurs("costo", text)
    ensures Mentions(EnglishMarkers, text)
  {
    if Occurs("programa", text) {
      assert OccursAt("program", "programa", 0);
      OccursTrans("program", "programa", text);
      assert "program" in EnglishMarkers;
    } else {
      assert OccursAt("cost", "costo", 0);
      OccursTrans("cost", "costo", text);
      assert "cost" in EnglishMarkers;
    }
  }

  /** A query asking about "el programa" or "el costo" is answered in
      English whatever else the conversation says. */
  lemma SpanishCognatesReadAsEnglish(query: string, history: seq<Message>)
    requires Occurs("programa", Lower(query)) || Occurs("costo", Lower(query))
    ensures DetectLanguage(query, history) == English
  {
    SpanishCognatesMentionEnglish(Lower(query));
  }

  // ---------------------------------------------------------------------
  // check_location_confirmed (systemprompt.py:46-50)
  // ---------------------------------------------------------------------

  function CheckLocationConfirmed(history: seq<Message>): (r: bool)
    ensures r <==> Mentions(LocationKeys, LowerHist(history))
  {
    ContainsAny(LocationKeys, LowerHist(history))
  }

  /** Once a campus location has come up, it stays confirmed for the rest of
      the conversation. */
  lemma LocationStaysConfirmed(history: seq<Message>, more: seq<Message>)
    requires CheckLocationConfirmed(history)
    ensures CheckLocationConfirmed(history + more)
  {
    MentionsPersist(LocationKeys, history, more);
  }

  // ---------------------------------------------------------------------
  // detect_pricing_inquiry, detect_payment_inquiry (systemprompt.py:53-65)
  // ---------------------------------------------------------------------

  function DetectPricingInquiry(query: string): (r: bool)
    ensures r <==> Mentions(PricingKeys, Lower(query))
    ensures query == "" ==> !r
  {
    ContainsAny(PricingKeys, Lower(query))
  }

  function DetectPaymentInquiry(query: string): (r: bool)
    ensures r <==> Mentions(PaymentKeys, Lower(query))
    ensures query == "" ==> !r
  {
    ContainsAny(PaymentKeys, Lower(query))
  }

  /** Words around a pricing or payment question do not hide it. */
  lemma IntentSurvivesContext(query: string, before: string, after: string)
    ensures DetectPricingInquiry(query) ==> DetectPricingInquiry(before + query + after)
    ensures DetectPaymentInquiry(query) ==> DetectPaymentInquiry(before + query + after)
  {
    if DetectPricingInquiry(query) {
      MentionsInLonger(PricingKeys, query, before, after);
    }
    if DetectPaymentInquiry(query) {
      MentionsInLonger(PaymentKeys, query, before, after);
    }
  }

  // ---------------------------------------------------------------------
  // detect_enrollment_ready (systemprompt.py:96-111)
  // ---------------------------------------------------------------------

  function DetectEnrollmentReady(history: seq<Message>, query: string): (r: bool)
    ensures r <==>
      && (Mentions(InterestTerms, LowerHist(history)) || Mentions(InterestTerms, Lower(query)))
      && (Mentions(ReadySignals, LowerHist(history)) || Mentions(ReadySignals, Lower(query)))
  {
    var text := LowerHist(history);
    var q := Lower(query);
    && (ContainsAny(InterestTerms, text) || ContainsAny(InterestTerms, q))
    && (ContainsAny(ReadySignals, text) || ContainsAny(ReadySignals, q))
  }

  /** "start", "apply" and "enroll" are both interest terms and ready
      signals, so one of them alone makes the user ready; "enrollment"
      contains "enroll", so merely asking about enrollment does too. */
  lemma OneWordMakesReady(history: seq<Message>, query: string)
    requires Occurs("enrollment", Lower(query)) || Occurs("start", Lower(query))
    ensures DetectEnrollmentReady(history, query)
  {
    if Occurs("enrollment", Lower(query)) {
      assert OccursAt("enroll", "enrollment", 0);
      OccursTrans("enroll", "enrollment", Lower(query));
      assert "enroll" in InterestTerms && "enroll" in ReadySignals;
    } else {
      assert "start" in InterestTerms && "start" in ReadySignals;
    }
  }

  /** Readiness, once shown in the history, is never lost. */
  lemma ReadinessPersists(history: seq<Message>, more: seq<Message>, query: string)
    ensures DetectEnrollmentReady(history, query) ==> DetectEnrollmentReady(history + more, query)
  {
    if Mentions(InterestTerms, LowerHist(history)) {
      MentionsPersist(InterestTerms, history, more);
    }
    if Mentions(ReadySignals, LowerHist(history)) {
      MentionsPersist(ReadySignals, history, more);
    }
  }

  // ---------------------------------------------------------------------
  // detect_enrollment_completion_state (systemprompt.py:117-130)
  // ---------------------------------------------------------------------

  /** `(has_contact_info, completion_in_query, enrollment_shared)` */
  datatype CompletionState = CompletionState(hasContact: bool, completionInQuery: bool, enrollmentShared: bool)

  function DetectCompletionState(history: seq<Message>, query: string): (st: CompletionState)
    ensures st.hasContact <==>
      var c := ExtractContact(history); c.name.Some? && c.email.Some? && c.phone.Some?
    ensures st.completionInQuery <==> Mentions(CompletionSignals, Lower(query))
    ensures st.enrollmentShared <==> Mentions(AdvisorPhrases, LowerHist(history))
  {
    CompletionState(
      EnrollmentInfoCollected(history),
      ContainsAny(CompletionSignals, Lower(query)),
      ContainsAny(AdvisorPhrases, LowerHist(history)))
  }

  /** "no" is matched inside words: a query containing "not" or "know"
      counts as a completion signal. */
  lemma NoInsideWordsSignalsCompletion(history: seq<Message>, query: string)
    requires Occurs("not", Lower(query)) || Occurs("know", Lower(query))
    ensures DetectCompletionState(history, query).completionInQuery
  {
    if Occurs("not", Lower(query)) {
      assert OccursAt("no", "not", 0);
      OccursTrans("no", "not", Lower(query));
    } else {
      assert OccursAt("no", "know", 1);
      OccursTrans("no", "know", Lower(query));
    }
    assert "no" in CompletionSignals;
  }

  /** Once the advisor hand-off has been mentioned it stays mentioned. */
  lemma AdvisorHandOffPersists(history: seq<Message>, more: seq<Message>, query: string)
    requires DetectCompletionState(history, query).enrollmentShared
    ensures DetectCompletionState(history + more, query).enrollmentShared
  {
    MentionsPersist(AdvisorPhrases, history, more);
  }
}
