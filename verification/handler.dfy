/** The request handling of `app` (main.py:110-151) up to the model call:
    choosing the user message, rejecting a request without one, and
    assembling the turns and the prompt state sent to the model. */
module Handler {
  import opened Wrappers
  import opened Text
  import opened Messages
  import opened History
  import opened Stages
  import opened Contact
  import opened Detectors
  import opened Campuses
  import opened Prompt

  /** The JSON body of a request; a missing or null key is `None`, and a
      missing history is `[]`. */
  datatype Request = Request(message: Option<string>, query: Option<string>, history: seq<Message>)

  /** An error answer: the HTTP status and the `error` text. */
  datatype Rejection = Rejection(status: nat, error: string)

  const MissingMessage: string := "Missing 'message' or 'query' in request."

  /** `(message or query or "").strip()`: a non-empty `message` is taken
      even when it is only whitespace; `query` is read only when `message`
      is missing or empty. */
  function UserMessage(req: Request): (r: string)
    ensures IsStripped(r)
    ensures Truthy(req.message) ==> r == Strip(req.message.value)
    ensures !Truthy(req.message) && Truthy(req.query) ==> r == Strip(req.query.value)
    ensures !Truthy(req.message) && !Truthy(req.query) ==> r == ""
  {
    var raw := if Truthy(req.message) then req.message.value
               else if Truthy(req.query) then req.query.value
               else "";
    StripIsStripped(raw);
    Strip(raw)
  }

  /** `app(request)` up to the model call: a 400 answer when the chosen
      message strips to nothing, otherwise the turns sent to the model, the
      normalised history followed by exactly one new user turn carrying the
      message. */
  function PrepareContents(req: Request): (res: Result<seq<Turn>, Rejection>)
    ensures res.Err? <==> UserMessage(req) == ""
    ensures res.Err? ==> res.error == Rejection(400, MissingMessage)
    ensures res.Ok? ==>
      && |res.value| == |Normalize(req.history)| + 1
      && res.value[..|res.value| - 1] == Normalize(req.history)
      && res.value[|res.value| - 1] == Turn(User, UserMessage(req))
    ensures res.Ok? ==> forall k :: 0 <= k < |res.value| ==>
      res.value[k].text != "" && IsStripped(res.value[k].text)
  {
    var msg := UserMessage(req);
    if msg == "" then
      Err(Rejection(400, MissingMessage))
    else
      var contents := Normalize(req.history) + [Turn(User, msg)];
      assert contents[..|contents| - 1] == Normalize(req.history);
      Ok(contents)
  }

  /** The state the system instruction is built from: the raw history and
      the stripped message (main.py:148-151). */
  function RequestState(req: Request): (r: PromptState)
    ensures r.contact == ExtractContact(req.history)
    ensures r.locationConfirmed <==> Mentions(LocationKeys, LowerHist(req.history))
    ensures forall c :: c in r.campuses <==> Offered(c, Lower(UserMessage(req)))
    ensures r.stage == Completion ==> Mentions(CompletionSignals, Lower(UserMessage(req)))
  {
    ContextualStateReports(req.history, UserMessage(req));
    ContextualStateContact(req.history, UserMessage(req));
    ContextualState(req.history, UserMessage(req))
  }

  /** A message of only whitespace is rejected even when a usable `query`
      is present: the fallback looks at truthiness before stripping. */
  lemma WhitespaceMessageDoesNotFallBack(req: Request)
    requires req.message.Some? && req.message.value != []
    requires forall k :: 0 <= k < |req.message.value| ==> IsSpace(req.message.value[k])
    ensures PrepareContents(req).Err?
  {
    TrimRemovesEnds(req.message.value, Spaces);
  }

  /** The model is always sent exactly one turn more than the usable
      history, and that turn is the user's. */
  lemma OneNewUserTurn(req: Request)
    ensures PrepareContents(req).Ok? ==>
      PrepareContents(req).value == Normalize(req.history) + [Turn(User, UserMessage(req))]
  {
    if PrepareContents(req).Ok? {
      var c := PrepareContents(req).value;
      assert c == c[..|c| - 1] + [c[|c| - 1]];
    }
  }

  /** The handler's `{role, text}` history carries no `content`, so the
      prompt it builds never reports collected contact information and
      never reaches the completion, post-enrollment or interested stages. */
  lemma HandlerHistoryNeverCompletes(req: Request)
    requires forall k :: 0 <= k < |req.history| ==> req.history[k].content == []
    ensures RequestState(req).stage !in {Completion, PostEnrollment, Interested}
  {
    TextShapedHistoryNeverCompletes(req.history, UserMessage(req));
  }
}
