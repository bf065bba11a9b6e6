/**
 * The guided conversation of App.tsx as pure functions over a snapshot of the
 * component's state. Each handler is split the way the source splits it: the
 * synchronous part runs when the user acts (echo of the user's choice,
 * `isLoading := true`, the reply-source call, the lead and e-mail), and the
 * rest is a `Pending` continuation that runs when its 4-second timer fires
 * (`Resume`). The continuation carries the values its closure captured.
 */
module Flow {
  import opened Types
  import opened Text
  import Catalog
  import Gemini
  import Rendering

  /** A description is accepted from this many UTF-16 code units on. */
  const MinDescriptionLength: nat := 50

  // ---------------------------------------------------------------------------
  // Fixed texts of the conversation.

  /** The fixed texts the page writes into the conversation, and the fixed parts of the others. */
  datatype Phrase =
    | FallbackGreeting | ShortDescription | DescriptionNoted | ReplyFallback
    | ValidateYes | ValidateNo | FormationQuestion | ChatbotPrompt | GenericPrompt
    | PersonalizedChoice | SiteChoice | PersonalizedPrompt | CatalogPointer
    | MoreRequest | NoMoreRequest | Closing
    | ConfirmationLead | ConfirmationTrail | SupportTrail | ThanksLead | ThanksTrail
    | UnknownService

  function Say(p: Phrase): string
  {
    match p
    case FallbackGreeting =>
      "Bonjour ! Je suis " + "Ruby, votre assistant " +
      "IA.\n\nComment " + "puis-je vous aider ?"
    case ShortDescription =>
      "Votre description est un peu courte (minimum " +
      "50 caractères). Pourriez-vous me donner plus " +
      "de détails sur vos attentes ?"
    case DescriptionNoted =>
      "C'est noté. Pour finaliser votre demande " +
      "d'accompagnement, j'ai besoin de vos " +
      "coordonnées."
    case ReplyFallback => "Je suis là pour vous."
    case ValidateYes => "Oui, je valide"
    case ValidateNo => "Non, je souhaite changer"
    case FormationQuestion =>
      "Souhaitez-vous consulter nos formations " +
      "prêtes à l'achat sur " + Catalog.SiteUrl +
      " ou préférez-vous un accompagnement " +
      "personnalisé ?"
    case ChatbotPrompt =>
      "Excellent ! Pourriez-vous me décrire quel " +
      "genre de chatbot vous imaginez pour votre " +
      "entreprise ? (minimum 50 caractères)"
    case GenericPrompt =>
      "Parfait ! Dites-m'en un peu plus sur votre " +
      "besoin ou votre projet (50 caractères " +
      "minimum) :"
    case PersonalizedChoice => "Je veux une formation personnalisée"
    case SiteChoice => "Je vais voir sur le site"
    case PersonalizedPrompt =>
      "Parfait ! Quel type de formation " +
      "recherchez-vous ? (Marketing, E-commerce, " +
      "IA, etc.)\n\nMerci de rédiger une " +
      "description exacte de vos attentes (50 " +
      "caractères minimum)."
    case CatalogPointer =>
      "C'est entendu. Vous trouverez tout notre " +
      "catalogue ici : " + Catalog.SiteUrl +
      "\n\nAvez-vous besoin d'autre chose ?"
    case MoreRequest => "Oui, j'ai une autre demande"
    case NoMoreRequest => "Non, merci Ruby"
    case Closing =>
      "Merci pour votre confiance. L'équipe de " +
      "Nomade Technology vous souhaite une " +
      "excellente journée !"
    case ConfirmationLead => "Vous avez sélectionné : "
    case ConfirmationTrail => ".\n\nValidez-vous votre choix ?"
    case SupportTrail => "\n\nPuis-je vous renseigner sur un autre service ?"
    case ThanksLead => "Merci "
    case ThanksTrail =>
      " ! Votre demande est bien enregistrée. Nous " +
      "allons l'analyser et revenir vers vous très " +
      "rapidement."
    case UnknownService => "Inconnu"
  }

  function ConfirmationText(service: Service): string
  {
    Say(ConfirmationLead) + service.name + Say(ConfirmationTrail)
  }

  function SupportText(service: Service): string
  {
    service.description + Say(SupportTrail)
  }

  function DescriptionPrompt(service: Service): string
  {
    if service.id == Chatbot then Say(ChatbotPrompt) else Say(GenericPrompt)
  }

  function ThanksText(fullName: string): string
  {
    Say(ThanksLead) + fullName + Say(ThanksTrail)
  }

  // ---------------------------------------------------------------------------
  // Outgoing records and the session snapshot.

  /** The row written to the `leads` table. */
  datatype Lead = Lead(contact: Contact, service: string, description: string)

  /** The e-mail handed to the notification service. */
  datatype Notification = Notification(subject: string, message: string)

  /** What a 4-second timer will do when it fires, with the values its closure captured. */
  datatype Pending =
    | Greeting(text: string)
    | ShortDescriptionReply
    | DescriptionAccepted
    | AssistantReply(text: string)
    | ServiceConfirmation(service: Service)
    | ValidationReply(valid: bool, selected: Option<Service>)
    | FormationReply(isPersonalized: bool)
    | AnythingElseReply(more: bool)
    | ThanksReply(fullName: string)

  /**
   * The component's state, plus what it sent out: `savedMessages` are the
   * messages written to the `messages` table, `leads` and `notifications`
   * the leads stored and the e-mails sent.
   */
  datatype State = State(
    appState: AppState,
    selectedService: Option<Service>,
    userDescription: string,
    contactInfo: Contact,
    isLoading: bool,
    isEmailSending: bool,
    input: string,
    messages: seq<Message>,
    pending: Option<Pending>,
    savedMessages: seq<Message>,
    leads: seq<Lead>,
    notifications: seq<Notification>)

  // ---------------------------------------------------------------------------
  // What the page offers in each state.

  /** The service buttons (App.tsx:364). */
  predicate ServiceMenuShown(s: State)
  {
    s.appState == ServiceSelection && !s.isLoading
  }

  /** The two formation buttons (App.tsx:384). */
  predicate FormationButtonsShown(s: State)
  {
    s.appState == FormationChoice && !s.isLoading
  }

  /** The OUI/NON buttons, shared by validation and "anything else" (App.tsx:409). */
  predicate YesNoShown(s: State)
  {
    (s.appState == Validation || s.appState == AskAnythingElse) && !s.isLoading
  }

  /** The contact form, shown even while loading (App.tsx:426). */
  predicate ContactFormShown(s: State)
  {
    s.appState == ContactCollection
  }

  /** The submit button of the contact form (App.tsx:443). */
  predicate SubmitEnabled(s: State)
  {
    ContactFormShown(s) && !s.isEmailSending && !s.isLoading
  }

  /** The text area (App.tsx:455). */
  predicate TextareaEnabled(s: State)
  {
    !(|| s.isLoading || s.appState == ContactCollection || s.appState == Validation
      || s.appState == FormationChoice || s.appState == AskAnythingElse || s.appState == Completed)
  }

  /** The send button (App.tsx:467): it depends on the input and loading only, not on the state. */
  predicate SendButtonEnabled(s: State)
  {
    Trim(s.input) != "" && !s.isLoading
  }

  /** What the browser checks before it submits the form: three `required` fields, the last of type email. */
  predicate FormAccepts(c: Contact)
  {
    c.fullName != "" && c.phone != "" && c.email != "" && IsValidEmailAddress(c.email)
  }

  // ---------------------------------------------------------------------------
  // Transitions.

  /** The first message: the model's greeting without markers, or the built-in one when that is empty. */
  function GreetingText(response: string): string
  {
    var clean := Rendering.StripMarkup(response);
    if clean == "" then Say(FallbackGreeting) else clean
  }

  /** `responseText || "Je suis là pour vous."` */
  function ReplyText(response: Option<string>): string
  {
    if response.None? || response.value == "" then Say(ReplyFallback) else response.value
  }

  /** `selectedService?.name` */
  function ServiceName(selected: Option<Service>): Option<string>
  {
    if selected.Some? then Some(selected.value.name) else None
  }

  /** `selectedService?.name || 'Inconnu'` */
  function LeadServiceName(selected: Option<Service>): string
  {
    if selected.Some? && selected.value.name != "" then selected.value.name else Say(UnknownService)
  }

  /** `Service: ${selectedService?.name}` prints "undefined" when no service is selected. */
  function LeadNotification(c: Contact, selected: Option<Service>, description: string): Notification
  {
    var service := if selected.Some? then selected.value.name else "undefined";
    Notification("NOUVEAU LEAD : " + c.fullName,
      "Contact: " + c.fullName + "\nTel: " + c.phone + "\nEmail: " + c.email
      + "\nService: " + service + "\nDescription: " + description)
  }

  /**
   * Mounting the page: loading, the greeting asked of the model with an empty
   * history, at the client's local time.
   */
  function Start(currentTime: string, api: Gemini.Api): State
  {
    Started(Gemini.GetGeminiResponse([], currentTime, None, api))
  }

  /**
   * The start-up effect once the greeting request has returned. When the answer
   * has no text, `response.replace` throws inside the effect and nothing is
   * ever scheduled: the page stays loading in INITIAL.
   */
  function Started(response: Option<string>): State
  {
    if response.None? then Mounted()
    else Mounted().(pending := Some(Greeting(GreetingText(response.value))))
  }

  /** The state of the first render: INITIAL, empty form and transcript, the start-up call in progress. */
  function Mounted(): State
  {
    State(Initial, None, "", Contact("", "", ""), true, false, "", [], None, [], [], [])
  }

  /** Typing in the text area. */
  function TypeInput(s: State, text: string): State
    requires TextareaEnabled(s)
  {
    s.(input := text)
  }

  /** handleSendMessage, App.tsx:110-159. */
  function SendMessage(s: State, currentTime: string, api: Gemini.Api): State
  {
    if Trim(s.input) == "" || s.isLoading then s
    else if s.appState == Description then DescriptionSent(Posted(s), s.input)
    else Asked(Posted(s), currentTime, api)
  }

  /** The part of a send common to every state: the input is shown, stored and cleared. */
  function Posted(s: State): State
  {
    var userMsg := Message(User, s.input);
    s.(messages := s.messages + [userMsg], input := "", savedMessages := s.savedMessages + [userMsg])
  }

  /** A description sent in DESCRIPTION: kept and acknowledged when long enough, sent back otherwise. */
  function DescriptionSent(s: State, description: string): State
  {
    if Utf16Length(description) < MinDescriptionLength then s.(isLoading := true, pending := Some(ShortDescriptionReply))
    else s.(userDescription := description, isLoading := true, pending := Some(DescriptionAccepted))
  }

  /** Any other text goes to the model with the whole transcript; the answer waits for the timer. */
  function Asked(s: State, currentTime: string, api: Gemini.Api): State
  {
    var response := Gemini.GetGeminiResponse(s.messages, currentTime, ServiceName(s.selectedService), api);
    s.(isLoading := true, pending := Some(AssistantReply(ReplyText(response))))
  }

  /** handleServiceSelect, App.tsx:161-178. */
  function SelectService(s: State, service: Service): State
    requires ServiceMenuShown(s) && Catalog.Listed(service)
  {
    s.(selectedService := Some(service), messages := s.messages + [Message(User, service.name)],
       isLoading := true, pending := Some(ServiceConfirmation(service)))
  }

  /** handleValidation, App.tsx:180-216. */
  function Validate(s: State, valid: bool): State
    requires YesNoShown(s) && s.appState == Validation
  {
    var echo := if valid then Say(ValidateYes) else Say(ValidateNo);
    s.(messages := s.messages + [Message(User, echo)], isLoading := true,
       pending := Some(ValidationReply(valid, s.selectedService)))
  }

  /** handleFormationOption, App.tsx:218-248. */
  function ChooseFormation(s: State, isPersonalized: bool): State
    requires FormationButtonsShown(s)
  {
    var echo := if isPersonalized then Say(PersonalizedChoice) else Say(SiteChoice);
    s.(messages := s.messages + [Message(User, echo)], isLoading := true,
       pending := Some(FormationReply(isPersonalized)))
  }

  /** handleAnythingElse, App.tsx:250-264. */
  function AnswerAnythingElse(s: State, more: bool): State
    requires YesNoShown(s) && s.appState == AskAnythingElse
  {
    var echo := if more then Say(MoreRequest) else Say(NoMoreRequest);
    s.(messages := s.messages + [Message(User, echo)], isLoading := true,
       pending := Some(AnythingElseReply(more)))
  }

  /** Editing a field of the contact form. */
  function EditContact(s: State, contact: Contact): State
    requires ContactFormShown(s)
  {
    s.(contactInfo := contact)
  }

  /** handleContactSubmit, App.tsx:266-293: the lead and the e-mail leave at once, the thanks later. */
  function SubmitContact(s: State): State
    requires SubmitEnabled(s) && FormAccepts(s.contactInfo)
  {
    var c := s.contactInfo;
    s.(isEmailSending := true, isLoading := true,
       leads := s.leads + [Lead(c, LeadServiceName(s.selectedService), s.userDescription)],
       notifications := s.notifications + [LeadNotification(c, s.selectedService, s.userDescription)],
       pending := Some(ThanksReply(c.fullName)))
  }

  /** An assistant message appended and loading over. */
  function Reply(s: State, text: string): State
  {
    s.(messages := s.messages + [Message(Assistant, text)], isLoading := false, pending := None)
  }

  /** Loading over without a message. */
  function Idle(s: State): State
  {
    s.(isLoading := false, pending := None)
  }

  /** The pending timer fires. */
  function Resume(s: State): State
    requires s.pending.Some?
  {
    match s.pending.value
    case Greeting(text) => GreetingShown(s, text)
    case ShortDescriptionReply => Reply(s, Say(ShortDescription))
    case DescriptionAccepted => Reply(s, Say(DescriptionNoted)).(appState := ContactCollection)
    case AssistantReply(text) => Reply(s, text)
    case ServiceConfirmation(service) => Reply(s, ConfirmationText(service)).(appState := Validation)
    case ValidationReply(valid, selected) => ValidationAnswered(s, valid, selected)
    case FormationReply(isPersonalized) => FormationAnswered(s, isPersonalized)
    case AnythingElseReply(more) => AnythingElseAnswered(s, more)
    case ThanksReply(fullName) => Reply(s, ThanksText(fullName)).(appState := Completed, isEmailSending := false)
  }

  /** The greeting replaces the transcript, is stored, and opens the menu. */
  function GreetingShown(s: State, text: string): State
  {
    var m := Message(Assistant, text);
    s.(messages := [m], appState := ServiceSelection, isLoading := false, pending := None,
       savedMessages := s.savedMessages + [m])
  }

  /** After "Oui, je valide": the chosen service's follow-up; after "Non, je souhaite changer": back to the menu. */
  function ValidationAnswered(s: State, valid: bool, selected: Option<Service>): State
  {
    if valid && selected.Some? then
      if selected.value.id == Formation then Reply(s, Say(FormationQuestion)).(appState := FormationChoice)
      else if selected.value.id == Support then Reply(s, SupportText(selected.value)).(appState := AskAnythingElse)
      else Reply(s, DescriptionPrompt(selected.value)).(appState := Description)
    else Idle(s).(appState := ServiceSelection)
  }

  /** A personalised course leads to the description, the catalogue to the closing question. */
  function FormationAnswered(s: State, isPersonalized: bool): State
  {
    if isPersonalized then Reply(s, Say(PersonalizedPrompt)).(appState := Description)
    else Reply(s, Say(CatalogPointer)).(appState := AskAnythingElse)
  }

  /** "Oui" reopens the menu silently; "Non" closes the conversation. */
  function AnythingElseAnswered(s: State, more: bool): State
  {
    if more then Idle(s).(appState := ServiceSelection)
    else Reply(s, Say(Closing)).(appState := Completed)
  }

  // ---------------------------------------------------------------------------
  // Any sequence of user actions and timer firings.

  datatype Event =
    | Typed(text: string)
    | Sent(currentTime: string, api: Gemini.Api)
    | Selected(service: Service)
    | Validated(valid: bool)
    | FormationChosen(isPersonalized: bool)
    | AnsweredMore(more: bool)
    | ContactEdited(contact: Contact)
    | Submitted
    | TimerFired

  /** Whether the page lets the event happen now. Sending is always possible: the handler guards itself. */
  predicate Enabled(s: State, e: Event)
  {
    match e
    case Typed(_) => TextareaEnabled(s)
    case Sent(_, _) => true
    case Selected(service) => ServiceMenuShown(s) && Catalog.Listed(service)
    case Validated(_) => YesNoShown(s) && s.appState == Validation
    case FormationChosen(_) => FormationButtonsShown(s)
    case AnsweredMore(_) => YesNoShown(s) && s.appState == AskAnythingElse
    case ContactEdited(_) => ContactFormShown(s)
    case Submitted => SubmitEnabled(s) && FormAccepts(s.contactInfo)
    case TimerFired => s.pending.Some?
  }

  function Step(s: State, e: Event): State
    requires Enabled(s, e)
  {
    match e
    case Typed(text) => TypeInput(s, text)
    case Sent(currentTime, api) => SendMessage(s, currentTime, api)
    case Selected(service) => SelectService(s, service)
    case Validated(valid) => Validate(s, valid)
    case FormationChosen(isPersonalized) => ChooseFormation(s, isPersonalized)
    case AnsweredMore(more) => AnswerAnythingElse(s, more)
    case ContactEdited(contact) => EditContact(s, contact)
    case Submitted => SubmitContact(s)
    case TimerFired => Resume(s)
  }

  /** Events the page does not offer at that moment have no effect. */
  function Run(s: State, events: seq<Event>): State
    decreases |events|
  {
    if events == [] then s
    else Run(if Enabled(s, events[0]) then Step(s, events[0]) else s, events[1..])
  }

  // ---------------------------------------------------------------------------
  // The invariant of every reachable state.

  predicate LongEnough(description: string)
  {
    Utf16Length(description) >= MinDescriptionLength
  }

  predicate Valid(s: State)
  {
    // WAITING_FOR_ANSWER is never entered
    && s.appState != WaitingForAnswer
    // a timer is pending exactly while loading, except when the start-up effect threw
    && (s.pending.Some? ==> s.isLoading)
    && (s.isLoading && s.pending.None? ==> s.appState == Initial)
    && (s.appState == Initial ==> s.isLoading && s.messages == [] && (s.pending.None? || s.pending.value.Greeting?))
    && (s.pending.Some? && s.pending.value.Greeting? ==> s.appState == Initial)
    // the selected service comes from the catalog, and the flow past the menu has one
    && (s.selectedService.Some? ==> Catalog.Listed(s.selectedService.value))
    && ((|| s.appState == Validation || s.appState == FormationChoice
         || s.appState == Description || s.appState == ContactCollection) ==> s.selectedService.Some?)
    && (s.pending.Some? && s.pending.value.ServiceConfirmation? ==>
          s.appState == ServiceSelection && s.selectedService == Some(s.pending.value.service))
    && (s.pending.Some? && s.pending.value.ValidationReply? ==>
          s.appState == Validation && s.pending.value.selected == s.selectedService)
    && (s.pending.Some? && s.pending.value.FormationReply? ==> s.appState == FormationChoice)
    && (s.pending.Some? && s.pending.value.AnythingElseReply? ==> s.appState == AskAnythingElse)
    // the contact form is only reached with an accepted description
    && (s.pending.Some? && s.pending.value.DescriptionAccepted? ==> s.appState == Description && LongEnough(s.userDescription))
    && (s.appState == ContactCollection ==> LongEnough(s.userDescription))
    // one submission at most, and the e-mail is sending exactly until the thanks
    && (s.isEmailSending <==> s.pending.Some? && s.pending.value.ThanksReply?)
    && (s.pending.Some? && s.pending.value.ThanksReply? ==> s.appState == ContactCollection)
    && |s.leads| == |s.notifications| <= 1
    && (s.pending.Some? && s.pending.value.ThanksReply? ==> |s.leads| == 1)
    && (|s.leads| == 1 ==> s.appState == Completed || (s.pending.Some? && s.pending.value.ThanksReply?))
  }
}
