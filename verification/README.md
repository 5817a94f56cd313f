# Sophia enrollment assistant: the prompt-state core in Dafny

The system is a chat endpoint for a beauty school's enrollment assistant.
For every request it takes the user's message and the chat history and
builds two things. The first is the list of turns sent to the language
model. The second is a system instruction whose `<state>` block tells the
model what the conversation has established so far.

That state is computed by keyword detectors and by two regular expressions:

- the reply language;
- whether a campus location came up;
- pricing or payment intent;
- readiness to enroll;
- the user's contact details (name, email, phone);
- whether the advisor hand-off happened;
- which campus the asked-about program is taught at;
- from all of these, the conversation stage.

This project models that core as pure functions over immutable data. It
proves what each piece computes, usually against an independent
declarative description, and states the properties that tie the pieces
together.

Modules, in dependency order:

| module | file | models |
|---|---|---|
| `Wrappers` | wrappers.dfy | `Option`, `Result`, Python truthiness of an optional string |
| `Text` | text.dfy | `isspace`/`isalpha`/`\w`/`\d`, `lower()`, `in`, `strip()`, `strip(",")`, `split()`, `join`, `replace(pat, "")`, string `<` |
| `Patterns` | patterns.dfy | the email and phone regexes as `re.search` runs them |
| `Messages` | messages.dfy | history entries and the joined history text the detectors read |
| `Contact` | contact.dfy | `extract_contact_info`, `detect_enrollment_info_collected` |
| `Detectors` | detectors.dfy | the keyword lists and the language, location, pricing, payment, readiness and completion detectors |
| `Stages` | stages.dfy | the stage labels and the stage precedence |
| `Campuses` | campuses.dfy | `PROGRAM_LOCATION_MAP`, `infer_campuses_from_text`, the rendered campus hint |
| `Prompt` | prompt.dfy | `get_contextual_sophia_prompt`: the state it reports, the `<state>`, style-line and `<rag>` fragments |
| `History` | history.dfy | `normalize_history_to_genai` |
| `Handler` | handler.dfy | the part of `app` before the model call: message choice, the 400 answer, the turn list, the state handed to the prompt builder |

How the model represents the inputs:

- One `Message` record stands for the loosely typed JSON history entry.
  - The handler reads `role` and `text`.
  - The prompt builder reads `content[0].text`.
  - A missing key is `None`.
- Strings are `seq<char>`.
- Character classes follow Python 3 exactly on U+0000..U+00FF.
- Substring search is stated twice:
  - as a position (`Occurs`);
  - as the left-to-right scan that decides it (`Contains`).

  The two are proved equal.
- Each regex has a declarative description of the substrings it matches
  (`IsEmailMatch`, `IsPhoneMatch`) and a matcher that follows the
  backtracking engine. The proofs show the matcher returns the leftmost
  match, and the longest match at that position.

## Model

| member | source | states |
|---|---|---|
| Text.Lower | systemprompt.py:27 | `lower()` keeps the length, leaves no upper-case letter, moves each upper-case letter to its lower-case partner and keeps every other character |
| Text.Contains | systemprompt.py:56 | `pat in s` is true exactly when `pat` occurs in `s` at some position |
| Text.ContainsAny | systemprompt.py:56 | `any(k in s for k in keys)` is true exactly when some key occurs in `s` |
| Text.TrimRemovesEnds | main.py:116 | `strip()` removes a run of whitespace at each end and keeps the middle as one contiguous slice; the result is empty exactly when every character is whitespace |
| Text.Trim | main.py:89 | the stripped text is no longer than the input and has no strippable character at either end |
| Text.TrimIdempotent | main.py:89 | stripping a stripped text changes nothing |
| Text.Split | systemprompt.py:88 | `split()` yields only non-empty words without whitespace |
| Text.SplitCovers | systemprompt.py:88 | every word `split()` returns is found in the text, and the words put together are exactly the text's non-whitespace characters in order |
| Text.SplitOneWord | systemprompt.py:88 | a non-empty text without whitespace splits to itself alone |
| Text.SplitAtSpace | systemprompt.py:88 | splitting at a whitespace character splits the two sides apart; with the two rows above this fixes the words for every text |
| Text.RemoveAll | systemprompt.py:88 | `replace(pat, "")` never lengthens the text, leaves a text without `pat` (or an empty `pat`) unchanged, and removes at least one copy of `pat` when it occurs |
| Text.ScanSplit | systemprompt.py:88 | `replace(pat, "")` returns the concatenation of the pieces that lie between the occurrences a left-to-right scan cuts out: joined with `pat` they give back the text, no occurrence starts in a piece before the next cut, and the last piece holds none |
| Text.OccursInJoin | systemprompt.py:69-71 | every part of a `join` occurs in the joined text |
| Patterns.SearchFrom | systemprompt.py:74 | the search returns the first start position where the matcher succeeds; every earlier position fails; `None` means every position fails |
| Patterns.EmailAtSound | systemprompt.py:74 | what the email matcher returns at a position is a match of the email pattern |
| Patterns.EmailAtComplete | systemprompt.py:74 | every email-pattern match at a position is found by the matcher there, and the matcher's end is at least as far (greedy) |
| Patterns.FindEmail | systemprompt.py:74 | the found span is an email match; no match starts earlier, and none at the same start is longer; `None` exactly when the text holds no match |
| Patterns.EmailMatchShape | systemprompt.py:74 | an email match is at least six characters and contains `@` |
| Patterns.PhoneAtExact | systemprompt.py:78 | the phone matcher at `i` ends at `j` if and only if the phone pattern matches `s[i..j]` |
| Patterns.FindPhone | systemprompt.py:78 | the found span is a phone match; no match starts earlier, and the match at that start is unique; `None` exactly when the text holds no match |
| Patterns.PhoneMatchShape | systemprompt.py:78 | a phone match is 10 to 12 characters long and holds exactly ten digits |
| Messages.ContentTexts | systemprompt.py:69-70 | the joined texts are those of the messages with content: each such message's text is among them, and every one of them is such a text |
| Messages.HistText | systemprompt.py:69-70 | every message text is found in the joined text, and a history without content joins to the empty text |
| Messages.ContentTextInHistText | systemprompt.py:69-71 | the text of every message with content occurs in the joined history text |
| Messages.HistTextGrows | systemprompt.py:69-71 | the joined text of a conversation occurs in the joined text of any longer conversation |
| Messages.KeywordPersists | systemprompt.py:97-99 | a keyword found in the lowercased history text is still found after more messages |
| Messages.TextShapedHistoryIsSilent | systemprompt.py:28-29 | entries without `content` contribute nothing: such a history joins to the empty text |
| Contact.EmailIn | systemprompt.py:73-75 | an email is found exactly when the history text holds an email match; it is the text of the match `re.search` reports (the leftmost, and the longest there), at least six characters, with an `@`, and occurs in the history text |
| Contact.PhoneIn | systemprompt.py:77-79 | a phone is found exactly when the text holds a phone match; it is the text of the leftmost match, has ten digits, and occurs in the text |
| Contact.StripCommasEachAt | systemprompt.py:88 | each token is its word with the commas at both ends stripped, in place |
| Contact.NameWords | systemprompt.py:89 | the kept words are exactly the alphabetic words longer than one character: each kept word is such a word of the input, each such input word is kept, and a qualifying first word comes first |
| Contact.NameWordsAppend | systemprompt.py:89 | the filter works word by word and keeps order: filtering a concatenation filters each side |
| Contact.NameWordsOne | systemprompt.py:89 | a single word is kept exactly when it qualifies |
| Contact.NameTokens | systemprompt.py:88-89 | at most two tokens are kept, each alphabetic and longer than one character |
| Contact.NameTokensAreFirstCandidates | systemprompt.py:88-89 | the tokens are the first two name-like words left after cutting out the email and phone, or all of them when there are fewer; so there are tokens exactly when such a word is left |
| Contact.GuessName | systemprompt.py:82-92 | a guessed name is one or two such words joined by one space |
| Contact.GuessNameNone | systemprompt.py:83-92 | no name is guessed exactly when no message has content that mentions the found email or phone and leaves a name-like word |
| Contact.GuessNameFirstSource | systemprompt.py:83-92 | the guess comes from the first message that can supply one, and is built from that message's tokens |
| Contact.ExtractContact | systemprompt.py:68-93 | email and phone are present exactly when their patterns match the history text; each is the text of the match `re.search` reports there, and occurs in it; a name is one or two alphabetic words and comes from a message holding the email or phone |
| Contact.EnrollmentInfoCollected | systemprompt.py:113-115 | contact counts as collected exactly when name, email and phone were all found |
| Contact.InfoCollectedHasEmailAndPhone | systemprompt.py:113-115 | collected contact means the history text holds both an email and a phone match |
| Contact.TextShapedHistoryHasNoContact | systemprompt.py:68-71 | a history without `content` yields no contact and never counts as collected |
| Detectors.DetectLanguage | systemprompt.py:26-43 | Spanish exactly when a Spanish marker occurs in the query or history and no English marker does |
| Detectors.SpanishCognatesReadAsEnglish | systemprompt.py:32-43 | a query containing "programa" or "costo" is always answered in English, because these contain "program" and "cost" |
| Detectors.CheckLocationConfirmed | systemprompt.py:46-50 | confirmed exactly when a location keyword occurs in the lowercased history text |
| Detectors.LocationStaysConfirmed | systemprompt.py:46-50 | a confirmed location stays confirmed when the conversation goes on |
| Detectors.DetectPricingInquiry | systemprompt.py:53-56 | true exactly when a pricing keyword occurs in the lowercased query; never for an empty query |
| Detectors.DetectPaymentInquiry | systemprompt.py:58-65 | true exactly when a payment keyword occurs in the lowercased query; never for an empty query |
| Detectors.IntentSurvivesContext | systemprompt.py:53-65 | text added around a pricing or payment question does not hide it |
| Detectors.DetectEnrollmentReady | systemprompt.py:96-111 | ready exactly when an interest term and a ready signal each occur in the history or the query |
| Detectors.OneWordMakesReady | systemprompt.py:102-111 | "start" alone, or any word containing "enrollment", makes the user ready |
| Detectors.ReadinessPersists | systemprompt.py:96-111 | readiness shown in the history survives more messages |
| Detectors.DetectCompletionState | systemprompt.py:117-130 | the triple is (contact collected, a completion phrase occurs in the query, an advisor phrase occurs in the history) |
| Detectors.NoInsideWordsSignalsCompletion | systemprompt.py:123-128 | "no" is matched inside words, so "not" or "know" in the query is a completion signal |
| Detectors.AdvisorHandOffPersists | systemprompt.py:129 | a hand-off phrase in the history stays seen when the conversation goes on |
| Stages.StageName | systemprompt.py:158-171 | every stage label reads back as its stage |
| Stages.StageNameInjective | systemprompt.py:158-171 | different stages get different labels |
| Stages.SelectStage | systemprompt.py:157-171 | each of the seven stages is chosen exactly under its row of the if/elif precedence; the rows are exclusive and cover every input |
| Campuses.CampusesFor | systemprompt.py:136-138 | a campus is in the result exactly when some map entry whose key occurs in the text lists it |
| Campuses.InferCampuses | systemprompt.py:133-139 | the result is the union of the campus lists of the program names found in the lowercased text, so it lies within {ny, nj} |
| Campuses.KeywordSelectsCampus | systemprompt.py:136-138 | a program name in the text, in any letter case, puts its campus in the result |
| Campuses.BarberingIsNewJersey | systemprompt.py:21 | "barbering", in any letter case, gives exactly {nj} |
| Campuses.EstheticsIsNewYork | systemprompt.py:14 | "esthetics", in any letter case, gives exactly {ny} |
| Campuses.SortedCodes | systemprompt.py:174 | the codes are those of the set, one per campus, in ascending order |
| Campuses.RenderCampuses | systemprompt.py:174 | the hint is "unknown" exactly when no campus was inferred, and otherwise the comma-joined sorted codes |
| Campuses.RenderCampusesInjective | systemprompt.py:174 | two campus sets with the same hint are equal |
| Campuses.BothCampusesRendered | systemprompt.py:174 | both campuses render as "nj,ny" |
| Prompt.DetectSignals | systemprompt.py:148-155 | each signal is its detector's keyword statement; contact-present and info-collected are the same value |
| Prompt.ContextualState | systemprompt.py:147-171 | completion and post-enrollment hold exactly under their conditions; each other stage implies the keyword facts that select it |
| Prompt.ContextualStateReports | systemprompt.py:148-150 | the language, location flag and campuses in the state are the detectors' keyword statements |
| Prompt.ContextualStateContact | systemprompt.py:149 | the state's contact is the extracted one: email and phone occur in the history text, and the name is one or two name-like words |
| Prompt.PricingOnlyWhen | systemprompt.py:157-165 | pricing is chosen exactly when a pricing keyword is in the query and neither the advisor hand-off nor an unfinished enrollment comes first |
| Prompt.CompletionRegardless | systemprompt.py:158-159 | a completion stays a completion when more text follows in the query, whatever price, payment or readiness words it adds |
| Prompt.TextShapedHistoryNeverCompletes | systemprompt.py:147-171 | with a history without `content`, the stage is never completion, post-enrollment or interested, and the contact is empty |
| Prompt.Tagged | systemprompt.py:191-199 | `<tag>value</tag>` holds the value verbatim right after the opening tag |
| Prompt.StyleLine | systemprompt.py:184 | the style line names the detected language |
| Prompt.BoolText | systemprompt.py:197 | `str(b).lower()` is "true" exactly when `b` holds and "false" exactly when it does not |
| Prompt.StateLines | systemprompt.py:190-200 | the `<state>` block has eleven lines |
| Prompt.StateLinesNested | systemprompt.py:190-200 | the block opens with `<state>`, closes with `</state>`, and every line between is indented one level deeper |
| Prompt.StateBlock | systemprompt.py:190-200 | every line of the block is found in the block text |
| Prompt.StageTagCarriesStage | systemprompt.py:190-191 | the `<state>` block holds the `<stage>` tag with the stage's label |
| Prompt.ContactTagsCarryContact | systemprompt.py:192-196 | the block holds the name, email and phone tags, each with the value or an empty text |
| Prompt.EmailShownVerbatim | systemprompt.py:194 | a found email appears in the block verbatim |
| Prompt.PolicyTagsCarryState | systemprompt.py:197-199 | the block holds the location flag, the campus hint and the date |
| Prompt.RagBody | systemprompt.py:242 | the body is "NONE" exactly when the stripped context is empty or is itself "NONE"; otherwise it is the stripped context; it is never empty and never starts or ends with whitespace |
| Prompt.RagBodyIdempotent | systemprompt.py:242 | putting the body through the same rule again changes nothing |
| Prompt.RagBlock | systemprompt.py:241-243 | the `<rag>` block holds its body |
| History.RoleFromName | main.py:93-99 | a recognised role name is the name that role is written back under |
| History.RoleOfReads | main.py:88-99 | an entry is a model turn exactly when its role, stripped and lowercased, is "assistant", a user turn exactly when it is "user", and skipped otherwise |
| History.NormalizeOne | main.py:88-101 | an entry is skipped exactly when its stripped text is empty or its role is unknown; otherwise it gives that role and the stripped, non-empty text |
| History.TurnsOf | main.py:88-101 | an entry gives no turn or one turn, and the turn is the entry's normalisation |
| History.Normalize | main.py:79-103 | no more turns than entries, each with a non-empty stripped text |
| History.NormalizeAppend | main.py:87-102 | normalising distributes over concatenation, so entries are handled one at a time and order is kept |
| History.NormalizeSingle | main.py:87-102 | a one-entry history normalises to that entry's turns; with the row above this fixes the result for every history |
| History.NormalizeKeeps | main.py:87-102 | every entry that is not skipped gives its turn |
| History.NormalizeSources | main.py:87-102 | every turn comes from some entry of the history |
| History.NormalizeEmpty | main.py:86-103 | the result is empty exactly when every entry is skipped, in particular for an empty history |
| History.RoleOfToMessage | main.py:88-99 | a role written back under its name reads as the same role |
| History.ToMessageRoundTrip | main.py:88-101 | a turn written back as an entry normalises to itself |
| History.NormalizeRoundTrip | main.py:79-103 | turns written back as a history normalise to themselves |
| History.NormalizeIdempotent | main.py:79-103 | normalising twice is normalising once |
| Handler.UserMessage | main.py:116 | the message is the stripped `message` when that is non-empty; otherwise the stripped `query` when that is non-empty; otherwise empty. The result is always stripped |
| Handler.PrepareContents | main.py:116-138 | 400 with the fixed error text exactly when the chosen message strips to nothing; otherwise the normalised history followed by exactly one user turn carrying the message |
| Handler.RequestState | main.py:148-151 | the state handed to the prompt builder takes its contact and location flag from the raw history and its campuses from the stripped message, and a completion needs a completion phrase in that message |
| Handler.WhitespaceMessageDoesNotFallBack | main.py:116-122 | a whitespace-only `message` is rejected even when a usable `query` is present |
| Handler.OneNewUserTurn | main.py:136-138 | the turns sent are the normalised history plus the one new user turn |
| Handler.HandlerHistoryNeverCompletes | main.py:148-151 | the handler passes its `{role, text}` history to the prompt builder unchanged, so that history never yields a completion, post-enrollment or interested stage |

## Left out

- The fixed prose of the system instruction (systemprompt.py:177-254, apart
  from the modelled fragments) is left out. It is constant text; only the
  fragments that carry computed values are modelled.
- `today` (systemprompt.py:8) is a parameter of `Prompt.StateLines`. It
  reads the clock at import time.
- `get_system_prompt_for_request` (systemprompt.py:259-260) is not modelled
  as its own function. It only replaces missing arguments with `[]` and
  `""`, and the model's inputs are never missing.
- A query of `None` is likewise not modelled. Every caller in the model
  passes a string.
- The prompt builder `app` calls is imported from `sophia_prompt`
  (main.py:26). `sophia_prompt` is not part of this model.
  `Handler.RequestState` uses systemprompt.py's builder instead.
- The `<rag>` block is modelled, but `app` passes no retrieval context.
- Outside the model:
  - retrieval and generation with the model client;
  - streaming;
  - the Vertex search tool;
  - markdown-to-HTML conversion and `html_to_text`;
  - logging;
  - timing;
  - environment configuration;
  - the top-level exception handler and its 500 answer;
  - `user_id` and `thread_id`.

  These are I/O or third-party library calls.
- systemp.py, cv_chat_loop.py and test_vertex_search.py are not part of
  this model. They are an older prompt, a console loop and a search smoke
  test.
- Unicode above U+00FF is only partly modelled:
  - whitespace is classified exactly;
  - no other character counts as a letter, a word character or a digit;
  - `lower()` leaves such characters unchanged.

  Python's Unicode tables for those characters are not reproduced.
- Non-string JSON values are left out, such as a number for `message` or a
  `content` that is not a list. A `text` of JSON `null` inside `content` is
  read as empty; Python would raise on joining it.
- Contact.GuessName: its own contract only states the shape of the guess,
  one or two name-like words. Which words they are is stated by
  `Contact.GuessNameFirstSource` and `Contact.NameTokensAreFirstCandidates`.

Two facts of the source that the model keeps as written:

- Completion phrases are matched as substrings of the query
  (systemprompt.py:128), not as whole phrases. See
  `Detectors.NoInsideWordsSignalsCompletion`.
- The ready-and-not-collected row comes before the pricing and payment rows
  (systemprompt.py:162-167).

The handler receives `{role, text}` history entries, but the prompt builder
reads `content[0].text`. So systemprompt.py's builder never sees earlier
turns. `Handler.HandlerHistoryNeverCompletes` and
`Prompt.TextShapedHistoryNeverCompletes` state the consequence.
