# Ruby, the Nomade Technology chat widget — a verified model

Ruby is a React chat widget. It greets a visitor and offers six services. It then
walks the visitor through a guided conversation:

- confirm the chosen service;
- for training courses, choose between the online catalogue and a personalised course;
- describe the need in at least 50 characters;
- leave a name, phone number and e-mail address.

The widget then stores a lead, e-mails the administrator and closes the
conversation. Free text typed outside the guided steps goes to a hosted Gemini
model, together with the transcript and a system instruction.

This project models three parts of the widget:

- **The guided conversation** (`App.tsx`) has two forms.
  - Module `Flow` is a pure reference model over a snapshot `State` of the component.
  - Class `App.Session` has the component's state as fields and one method per handler.
    Each method is proved to produce exactly `Flow`'s next state. Each handler method and `Tick`
    also keep the invariant `Flow.Valid`.
  - Module `FlowProperties` proves what the conversation promises: what each step
    appends and where it leads, that the invariant holds over any sequence of events,
    that the transcript and the outboxes only grow, that `COMPLETED` is never left,
    and that at most one lead and one e-mail are sent.
- **Message display** (`MessageContent` in `App.tsx`) is module `Rendering`.
  - It deletes the markdown markers `*` and `_`.
  - It splits the text around the site address and the phone number, which are shown as links.
- **The request to the model** (`geminiService.ts`) is module `Gemini`.
  - It maps roles, uses a lone "Bonjour" for an empty history and keeps the last 10 entries.
  - It adds the selected-service line to the system instruction.
  - It replaces a failed call with a fixed apology.

Modules `Types`, `Catalog` (`constants.ts`, `types.ts`) and `Text` hold the shared pieces:

- the entities and the service catalogue;
- JavaScript's `trim`;
- `length` in UTF-16 code units;
- the browser's validity test for an e-mail field.

Each handler is two steps in the model, as the source splits it.

- The **handler** does the synchronous part. That is the user's echo, `isLoading := true`,
  the call to the model, and the lead and e-mail on submit.
- It then records a **pending continuation** (`Flow.Pending`) with the values its closure captured.
  `Flow.Resume` / `App.Session.Tick` is the 4-second timer firing.

The split is kept because the closures read captured values, not current state:

- the thanks names the contact as it was when submitted, even if the form is edited meanwhile;
- the validation reply follows the service selected when the button was pressed.

While a continuation is pending, `isLoading` disables every choice.

Behaviour of the code worth knowing:

- **The send button stays usable in `COMPLETED`** (App.tsx:455-467). `COMPLETED` disables the text area.
  The send button depends only on the input and `isLoading`. Leftover input typed before
  the last step can still be sent, and the model answers it. The state stays
  `COMPLETED` (`FlowProperties.CompletedStillAnswersSendButton`).
- **The thanks names only the full name**, not the phone number (App.tsx:281-292).
- **The description threshold is on the untrimmed `length`** (App.tsx:123). That is UTF-16 code units,
  so a character outside the Basic Multilingual Plane (most emoji) counts twice.

## Model

| member | source | states |
|---|---|---|
| Text.Utf16Length | App.tsx:123 | `length` counts UTF-16 code units: between the number of characters and twice that |
| Text.Utf16LengthOfBmp | App.tsx:123 | for text without astral characters, `length` is the number of characters |
| Text.TrimStartKeepsSuffix | App.tsx:112 | trimming the start leaves the suffix that does not start with whitespace, and only whitespace was removed |
| Text.TrimEndKeepsPrefix | App.tsx:112 | trimming the end leaves the prefix that does not end with whitespace, and only whitespace was removed |
| Text.TrimStartEmptyIffBlank | App.tsx:112 | trimming the start gives the empty text exactly when the text is all whitespace |
| Text.TrimEndEmptyIffBlank | App.tsx:112 | trimming the end gives the empty text exactly when the text is all whitespace |
| Text.TrimEmptyIffBlank | App.tsx:112 | `!input.trim()` holds exactly when the input is empty or all whitespace |
| Text.IndexOf | App.tsx:440 | the index of the first occurrence of a character, or the length when it does not occur |
| Text.AtextIsNotWhitespace | App.tsx:440 | the characters allowed before the '@' of a valid address are never whitespace |
| Text.ValidEmailAddressShape | App.tsx:440 | an address the e-mail field accepts is never blank and holds exactly one '@' |
| Text.DomainHasNoAt | App.tsx:440 | the domain part of a valid address holds no '@' |
| Catalog.IndexOf | constants.ts:11-42 | every service id has a position in SERVICES, and that position carries it |
| Catalog.Services | constants.ts:11-42 | SERVICES has six entries |
| Catalog.ServicesListed | constants.ts:11-42 | every entry of SERVICES is a catalogue service (its name, and the support description for support) |
| Catalog.IdsDistinct | constants.ts:11-42 | the six positions carry six different ids |
| Catalog.NameNonEmpty | constants.ts:11-42 | every service name is non-empty |
| Catalog.CatalogWellFormed | constants.ts:11-42 | SERVICES has six entries with distinct ids and non-empty names |
| Rendering.StripMarkup | App.tsx:21 | no `*` or `_` is left, and every other character keeps its number of occurrences |
| Rendering.StripMarkupAppend | App.tsx:21 | stripping works piece by piece, so the kept characters stay in order |
| Rendering.StripMarkupFixedPoint | App.tsx:21 | stripping leaves a text unchanged exactly when it holds no marker |
| Rendering.NoMarkupUnchanged | App.tsx:21 | a text without markers is displayed unchanged |
| Rendering.StripMarkupShorter | App.tsx:21 | stripping never lengthens a text |
| Rendering.StripMarkupIdempotent | App.tsx:21 | stripping twice is stripping once |
| Rendering.LinkAtOccurs | App.tsx:22 | a match of the split pattern is an occurrence of the site address or the phone number |
| Rendering.SplitFromJoin | App.tsx:22 | each step of the split's scan loses nothing: its parts concatenate back to the rest of the text |
| Rendering.SplitLinksJoin | App.tsx:22 | the parts of the split concatenate back to exactly the cleaned text |
| Rendering.TextPartLinkFree | App.tsx:22 | a text part the scan closes holds no link text |
| Rendering.AlternatesPrepend | App.tsx:22 | a link-free text and a link put in front of alternating parts keep them alternating |
| Rendering.SplitFromAlternates | App.tsx:22 | from any point of the scan, the parts alternate between link-free text and link text |
| Rendering.SplitLinksAlternates | App.tsx:22 | the split has an odd number of parts: link-free texts at even positions, the site address or the phone number at odd ones |
| Rendering.LinkFreeIsPlain | App.tsx:26-51 | a part holding no link text is shown as plain text |
| Rendering.MessageContentShowsCleanText | App.tsx:20-55 | the segments displayed spell exactly the stripped message, and exactly the odd ones are links |
| Gemini.FormatMessage | geminiService.ts:24-27 | an entry keeps the message text, and its role is `user` exactly for the user's messages |
| Gemini.FormatHistory | geminiService.ts:23-28 | an empty history becomes one user "Bonjour", any other one entry per message in order |
| Gemini.LastNSuffix | geminiService.ts:32 | `slice(-n)` keeps the last min(length, n) elements, as a suffix |
| Gemini.WindowSize | geminiService.ts:32 | a non-empty history sends min(length, 10) entries |
| Gemini.WindowAt | geminiService.ts:32 | each entry sent is the formatted message at the same distance from the end |
| Gemini.WindowEntries | geminiService.ts:32 | every entry sent is the formatted message at the same distance from the end |
| Gemini.WindowKeepsNewest | geminiService.ts:23-32 | between 1 and 10 entries are sent: "Bonjour" for no history, else the newest messages in order |
| Gemini.RequestEndsWithNewestMessage | geminiService.ts:23-32 | the request made after a message is appended ends with that message |
| Gemini.ServiceLineOnlyWhenSelected | geminiService.ts:14-21 | the instruction has the service line exactly when a non-empty service name is given, and differs by that line only |
| Gemini.GetGeminiResponse | geminiService.ts:30-43 | a failed call gives the apology, a returned call its (possibly undefined) text |
| FlowProperties.FallbackGreetingClean | App.tsx:89 | the built-in greeting holds no markdown marker |
| FlowProperties.GreetingTextClean | App.tsx:89 | the first message is never empty and holds no marker |
| FlowProperties.MessagesNameTheirSubject | App.tsx:161-293 | the confirmation names the service; the thanks and the e-mail subject name the contact, whatever the service and description |
| FlowProperties.SupportTextGivesPhone | App.tsx:195-202 | the support answer gives the contact phone number |
| FlowProperties.StartedIsValid | App.tsx:79-102 | the page starts loading in INITIAL with an empty transcript, in a valid state, and a greeting is due exactly when the model gave a text |
| FlowProperties.GreetingOpensTheMenu | App.tsx:94-99 | when the greeting arrives, the transcript is exactly the model's greeting without markers (or the built-in one when that is empty), it is stored, and the menu is offered |
| FlowProperties.SendKeepsInvariants | App.tsx:110-159 | sending keeps the invariant, only appends, and never leaves COMPLETED |
| FlowProperties.SendDescriptionKeepsInvariants | App.tsx:122-149 | a send in DESCRIPTION keeps the invariant and only appends |
| FlowProperties.SendFreeTextKeepsInvariants | App.tsx:151-158 | a send to the model keeps the invariant and only appends |
| FlowProperties.SelectKeepsInvariants | App.tsx:161-178 | selecting a service keeps the invariant and only appends |
| FlowProperties.ValidateKeepsInvariants | App.tsx:180-216 | answering the validation keeps the invariant and only appends |
| FlowProperties.ChooseFormationKeepsInvariants | App.tsx:218-248 | choosing a formation option keeps the invariant and only appends |
| FlowProperties.AnswerKeepsInvariants | App.tsx:250-264 | answering "anything else" keeps the invariant and only appends |
| FlowProperties.SubmitKeepsInvariants | App.tsx:266-293 | submitting the form keeps the invariant, stores one lead and sends one e-mail |
| FlowProperties.ResumeKeepsInvariants | App.tsx:94-292 | any timer firing keeps the invariant, only appends, and never leaves COMPLETED |
| FlowProperties.ResumeGreetingKeeps | App.tsx:94-99 | the greeting timer keeps the invariant |
| FlowProperties.ResumeShortDescriptionKeeps | App.tsx:125-133 | the re-prompt timer keeps the invariant |
| FlowProperties.ResumeDescriptionAcceptedKeeps | App.tsx:138-147 | the acknowledgement timer keeps the invariant |
| FlowProperties.ResumeAssistantReplyKeeps | App.tsx:155-158 | the model-reply timer keeps the invariant |
| FlowProperties.ResumeServiceConfirmationKeeps | App.tsx:168-177 | the confirmation timer keeps the invariant |
| FlowProperties.ResumeValidationReplyKeeps | App.tsx:185-215 | the validation timer keeps the invariant |
| FlowProperties.ResumeFormationReplyKeeps | App.tsx:228-247 | the formation timer keeps the invariant |
| FlowProperties.ResumeAnythingElseReplyKeeps | App.tsx:255-263 | the "anything else" timer keeps the invariant |
| FlowProperties.ResumeThanksReplyKeeps | App.tsx:281-292 | the thanks timer keeps the invariant |
| FlowProperties.StepKeepsInvariants | App.tsx:110-293 | every action the page offers keeps the invariant, only appends to the transcript and outboxes, and never leaves COMPLETED |
| FlowProperties.RunKeepsInvariants | App.tsx:110-293 | the same over any sequence of actions and timer firings |
| FlowProperties.SessionKeepsInvariants | App.tsx:57-293 | in every session the state is valid, WAITING_FOR_ANSWER is never entered, at most one lead and one e-mail leave, and none before the submit |
| FlowProperties.ValidLeads | App.tsx:266-293 | in a valid state a lead exists only in COMPLETED or while its e-mail is sending |
| FlowProperties.SendIgnoredWhenBlankOrLoading | App.tsx:112 | a blank input, or any send while loading, changes nothing at all |
| FlowProperties.SendEchoesInput | App.tsx:114-120 | otherwise the input is appended as the user's message, stored, cleared, and loading starts |
| FlowProperties.DescriptionThreshold | App.tsx:122-148 | in DESCRIPTION, under 50 code units brings a re-prompt with state and description unchanged; from 50 on the text becomes the description and the contact form follows |
| FlowProperties.DescriptionRepromptedWhenShort | App.tsx:123-134 | under 50 code units: the echo and the re-prompt are appended, and the state and the description stay as they were |
| FlowProperties.DescriptionAcceptedWhenLong | App.tsx:136-147 | from 50 code units on: the text becomes the description, the echo and the acknowledgement are appended, and CONTACT_COLLECTION follows |
| FlowProperties.SendInDescription | App.tsx:122-148 | the synchronous part of a send in DESCRIPTION: the echo, the description kept only when long enough, the reply due |
| FlowProperties.SendOutsideDescription | App.tsx:151-152 | outside DESCRIPTION the reply due is the model's answer to the transcript plus the input |
| FlowProperties.ReplyTextNonEmpty | App.tsx:156 | the reply shown is never empty, and a non-empty answer is shown as is |
| FlowProperties.FreeTextGoesToModel | App.tsx:151-158 | the request ends with the input; the transcript becomes the input then the model's answer (the fallback when it is undefined or empty, the apology when the call fails), never empty; the conversation state does not move |
| FlowProperties.CompletedStillAnswersSendButton | App.tsx:455-467 | in COMPLETED the text area is disabled, yet leftover input can still be sent and answered, and the state stays COMPLETED |
| FlowProperties.ChoicesExclusive | App.tsx:364-447 | at most one kind of choice is offered at a time, and none, nor the text area, in COMPLETED |
| FlowProperties.SelectServiceThenConfirm | App.tsx:161-178 | the service is recorded, its name echoed exactly, then a message naming it asks for validation in VALIDATION |
| FlowProperties.ValidationBranches | App.tsx:180-216 | "yes": formation → FORMATION_CHOICE, support → its description then ASK_ANYTHING_ELSE, other → DESCRIPTION; "no" → the menu, no reply, service kept |
| FlowProperties.FormationBranches | App.tsx:218-248 | personalised → DESCRIPTION, catalogue → ASK_ANYTHING_ELSE, each with its reply |
| FlowProperties.AnythingElseBranches | App.tsx:250-264 | "yes" → the menu with no reply; "no" → the closing message and COMPLETED |
| FlowProperties.SubmitSendsOneLead | App.tsx:266-280 | one lead with the selected service's name (never 'Inconnu'), one e-mail whose subject names the contact, transcript unchanged |
| FlowProperties.ThanksNameTheSubmittedContact | App.tsx:281-292 | exactly one message is appended, thanking the name submitted even if the form was edited, and COMPLETED follows |
| Flow.Started | App.tsx:79-102 | the start-up effect once the greeting request returned; `FlowProperties.StartedIsValid` and `FlowProperties.GreetingOpensTheMenu` state what it leads to |
| Flow.GreetingText | App.tsx:89 | the first message; `FlowProperties.GreetingTextClean` proves it non-empty and free of markers |
| Flow.SendMessage | App.tsx:110-159 | handleSendMessage up to its timer; `FlowProperties.SendIgnoredWhenBlankOrLoading`, `FlowProperties.SendEchoesInput`, `FlowProperties.DescriptionThreshold` and `FlowProperties.FreeTextGoesToModel` state its outcomes |
| Flow.Posted | App.tsx:114-120 | the echo, storage and clearing of the input; `FlowProperties.SendEchoesInput` states it |
| Flow.DescriptionSent | App.tsx:122-149 | the DESCRIPTION branch; `FlowProperties.SendInDescription` and `FlowProperties.DescriptionThreshold` state it |
| Flow.Asked | App.tsx:151-158 | the model branch; `FlowProperties.SendOutsideDescription` and `FlowProperties.FreeTextGoesToModel` state it |
| Flow.ReplyText | App.tsx:156 | the reply shown for the model's answer; `FlowProperties.ReplyTextNonEmpty` states it |
| Flow.SelectService | App.tsx:161-178 | handleServiceSelect; `FlowProperties.SelectServiceThenConfirm` states its outcome |
| Flow.Validate | App.tsx:180-216 | handleValidation; `FlowProperties.ValidationBranches` states its outcomes |
| Flow.ChooseFormation | App.tsx:218-248 | handleFormationOption; `FlowProperties.FormationBranches` states its outcomes |
| Flow.AnswerAnythingElse | App.tsx:250-264 | handleAnythingElse; `FlowProperties.AnythingElseBranches` states its outcomes |
| Flow.SubmitContact | App.tsx:266-293 | handleContactSubmit up to its timer; `FlowProperties.SubmitSendsOneLead` states its outcome |
| Flow.LeadServiceName | App.tsx:273 | the service name stored with the lead; `FlowProperties.SubmitSendsOneLead` proves the 'Inconnu' fallback never applies |
| Flow.LeadNotification | App.tsx:274-279 | the e-mail to the administrator; `FlowProperties.MessagesNameTheirSubject` proves its subject names the contact |
| Flow.Resume | App.tsx:94-292 | the pending timer firing; `FlowProperties.ResumeKeepsInvariants` and the branch lemmas above state its outcomes |
| Flow.ServiceMenuShown | App.tsx:364 | the service buttons; `FlowProperties.ChoicesExclusive` states which choices can show together |
| Flow.FormationButtonsShown | App.tsx:384 | the formation buttons; `FlowProperties.ChoicesExclusive` |
| Flow.YesNoShown | App.tsx:409 | the OUI/NON buttons; `FlowProperties.ChoicesExclusive` |
| Flow.ContactFormShown | App.tsx:426 | the contact form; `FlowProperties.ChoicesExclusive` |
| Flow.SubmitEnabled | App.tsx:443 | the submit button; `FlowProperties.SubmitSendsOneLead` states what it leads to |
| Flow.TextareaEnabled | App.tsx:455 | the text area; `FlowProperties.ChoicesExclusive` proves it disabled in COMPLETED |
| Flow.SendButtonEnabled | App.tsx:467 | the send button; `FlowProperties.CompletedStillAnswersSendButton` proves it ignores the state |
| Flow.FormAccepts | App.tsx:432-440 | the form submits only with a non-empty name, a non-empty phone and a valid address; `Text.ValidEmailAddressShape` states the address's shape |
| Flow.ServiceName | App.tsx:152 | `selectedService?.name`, passed to the model; `FlowProperties.ModelSeesSelectedService` states what reaches the instruction |
| FlowProperties.ModelSeesSelectedService | App.tsx:152 | with no selection the instruction has no service line; a selected service with a name is named in it |
| Rendering.SplitLinks | App.tsx:22 | the split around the links; `Rendering.SplitLinksJoin` and `Rendering.SplitLinksAlternates` state it |
| Rendering.MessageContent | App.tsx:20-55 | the segments a message is displayed as; `Rendering.MessageContentShowsCleanText` states it |
| Gemini.ServiceLine | geminiService.ts:20 | the service line of the instruction; `Gemini.ServiceLineOnlyWhenSelected` states it |
| Gemini.Window | geminiService.ts:32 | the contents sent; `Gemini.WindowKeepsNewest` states it |
| Gemini.BuildRequest | geminiService.ts:30-37 | the request sent; `Gemini.RequestEndsWithNewestMessage` states its last entry |
| Gemini.InstructionHead | geminiService.ts:13-19 | the instruction up to the service line: the base prompt, the company and the local time; `Gemini.InstructionNamesTimeAndService` states it |
| Gemini.InstructionText | geminiService.ts:13-21 | the instruction sent; `Gemini.InstructionNamesTimeAndService` and `Gemini.ServiceLineOnlyWhenSelected` state it |
| Gemini.InstructionNamesTimeAndService | geminiService.ts:13-21 | the instruction sent contains the client's local time, and the service name whenever a non-empty one is given |
| Text.Trim | App.tsx:112 | `String.prototype.trim`; `Text.TrimEmptyIffBlank` states when it is empty |
| Text.IsValidEmailAddress | App.tsx:440 | the e-mail field's validity; `Text.ValidEmailAddressShape` states its shape |
| App.Session.constructor | App.tsx:79-102 | the first render plus the greeting request, as `Flow.Start`, in a valid state |
| App.Session.TypeInput | App.tsx:457 | typing replaces the input, where the text area is enabled |
| App.Session.SendMessage | App.tsx:110-159 | the new state is `Flow.SendMessage` of the old one, valid, and only appended to |
| App.Session.SendDescription | App.tsx:122-149 | the DESCRIPTION branch of a send, as `Flow.DescriptionSent` |
| App.Session.AskModel | App.tsx:151-158 | the model branch of a send, as `Flow.Asked` |
| App.Session.SelectService | App.tsx:161-178 | `Flow.SelectService` of the old state, valid, only appended to |
| App.Session.Validate | App.tsx:180-216 | `Flow.Validate` of the old state, valid, only appended to |
| App.Session.ChooseFormation | App.tsx:218-248 | `Flow.ChooseFormation` of the old state, valid, only appended to |
| App.Session.AnswerAnythingElse | App.tsx:250-264 | `Flow.AnswerAnythingElse` of the old state, valid, only appended to |
| App.Session.EditContact | App.tsx:432-440 | editing the form replaces the contact and nothing else |
| App.Session.SubmitContact | App.tsx:266-293 | `Flow.SubmitContact` of the old state, valid, with exactly one lead |
| App.Session.Tick | App.tsx:94-292 | a timer firing is `Flow.Resume` of the old state, valid, only appended to |
| App.Session.RunCallback | App.tsx:94-292 | the pending callback runs as `Flow.Resume` |
| App.Session.ShowGreeting | App.tsx:94-99 | the greeting replaces the transcript, is stored, and opens the menu |
| App.Session.FollowValidation | App.tsx:186-214 | the validation callback, as `Flow.ValidationAnswered` |
| App.Session.FollowFormation | App.tsx:229-246 | the formation callback, as `Flow.FormationAnswered` |
| App.Session.FollowAnythingElse | App.tsx:256-262 | the "anything else" callback, as `Flow.AnythingElseAnswered` |
| App.Session.ShowReply | App.tsx:155-158 | an assistant message appended and loading over |
| App.Session.Settle | App.tsx:212-214 | loading over without a message |

## Left out

- The hosted model is a function parameter `api` of the request, so any answer, an undefined text or a failure is possible. Its real behaviour, the API key and the network are not modelled.
- The Supabase writes and the Formspree e-mail are outboxes that only grow: `savedMessages`, `leads` and `notifications`. Their network behaviour and swallowed errors are not modelled. The lead's `sessionId` and the e-mail's `type`/`details` fields are not modelled.
- The lead submission waits for the e-mail before it schedules the thanks. The model takes that wait as done within the submit step.
- The greeting request (App.tsx:84) and the free-text request (App.tsx:152) are awaited. The model takes each call and its answer as done within the handler step, in `Flow.Started` and `Flow.Asked`. The request takes the transcript as it is at call time, and `isLoading` blocks every action whose result the wait could change.
- The 4-second delays are one `Tick` each. Several timers are never pending at once, because `isLoading` blocks every action that would schedule one.
- Not modelled:
  - message ids (`Date.now()`), timestamps (`toLocaleTimeString`) and the random session id;
  - dark mode, scrolling, `window.location.reload` and all styling;
  - React's batching of state setters and StrictMode's double effects.
- The client's local time is a parameter `currentTime`.
- Catalog.Listed: a service passed to `handleServiceSelect` is required to carry a catalogue id and that entry's name (and the support description for support). It is not required to equal the entry, because the other descriptions are never read.
- Service ids are an enumeration rather than strings.
- Gemini.Request: it carries the variable parts of the system instruction (the local time and the service line), not the rendered text. `Gemini.InstructionText` renders that text.
- Gemini.Temperature: the 0.7 is kept as a `real` constant. Floating point is not modelled.
- The e-mail field's validity follows the "valid e-mail address" grammar of the HTML standard (section 4.10.5.1.5). Browser-specific deviations and the `tel` field's lack of any check are not modelled beyond `required`.
- Flow.Started: when the greeting request returns no text, `response.replace` throws inside the effect and no greeting is ever scheduled. The model keeps the page loading in INITIAL for good, as the code does.
- Flow.LeadServiceName keeps the `'Inconnu'` fallback of the code. `FlowProperties.SubmitSendsOneLead` proves it never applies.
- FlowProperties.SessionKeepsInvariants is stated over `Flow.Started` of any greeting answer. `Flow.Start` is `Started` of the answer for one particular `api`, so it covers every session.
- App.Session.SendDescription, App.Session.AskModel, App.Session.RunCallback, App.Session.ShowGreeting, App.Session.FollowValidation, App.Session.FollowFormation, App.Session.FollowAnythingElse, App.Session.ShowReply and App.Session.Settle are parts of a handler or of a timer callback. They do not keep the invariant on their own. The handler (`SendMessage`) or `Tick` that calls them states and keeps it.
