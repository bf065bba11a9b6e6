/**
 * What the conversation promises, proved about the transitions of Flow: the
 * invariant of every reachable state, the append-only transcript, the terminal
 * COMPLETED state, and the outcome of each handler once its timer has fired.
 */
module FlowProperties {
  import opened Types
  import opened Text
  import opened Flow
  import Catalog
  import Gemini
  import Rendering

  // ---------------------------------------------------------------------------
  // Texts

  /** The built-in greeting shows no marker. */
  lemma FallbackGreetingClean()
    ensures forall i :: 0 <= i < |Say(FallbackGreeting)| ==> !Rendering.IsMarkup(Say(FallbackGreeting)[i])
  {
    var a, b, c, d := "Bonjour ! Je suis ", "Ruby, votre assistant ", "IA.\n\nComment ", "puis-je vous aider ?";
    assert forall i :: 0 <= i < |a| ==> !Rendering.IsMarkup(a[i]);
    assert forall i :: 0 <= i < |b| ==> !Rendering.IsMarkup(b[i]);
    assert forall i :: 0 <= i < |c| ==> !Rendering.IsMarkup(c[i]);
    assert forall i :: 0 <= i < |d| ==> !Rendering.IsMarkup(d[i]);
    assert forall i :: 0 <= i < |a + b| ==> !Rendering.IsMarkup((a + b)[i]);
    assert forall i :: 0 <= i < |a + b + c| ==> !Rendering.IsMarkup((a + b + c)[i]);
    assert forall i :: 0 <= i < |a + b + c + d| ==> !Rendering.IsMarkup((a + b + c + d)[i]);
  }

  /** The first message is never empty and shows no marker. */
  lemma GreetingTextClean(response: string)
    ensures GreetingText(response) != ""
    ensures forall i :: 0 <= i < |GreetingText(response)| ==> !Rendering.IsMarkup(GreetingText(response)[i])
  {
    if Rendering.StripMarkup(response) == "" {
      FallbackGreetingClean();
    }
  }

  /** Each personalised message names what it must name. */
  lemma MessagesNameTheirSubject(service: Service, c: Contact, selected: Option<Service>, description: string)
    ensures Contains(ConfirmationText(service), service.name)
    ensures Contains(ThanksText(c.fullName), c.fullName)
    ensures Contains(LeadNotification(c, selected, description).subject, c.fullName)
  {
    ContainsInfix(Say(ConfirmationLead), service.name, Say(ConfirmationTrail));
    ContainsInfix(Say(ThanksLead), c.fullName, Say(ThanksTrail));
    ContainsInfix("NOUVEAU LEAD : ", c.fullName, "");
    assert "NOUVEAU LEAD : " + c.fullName + "" == "NOUVEAU LEAD : " + c.fullName;
  }

  /** The support answer carries the contact phone number. */
  lemma SupportTextGivesPhone(service: Service)
    requires Catalog.Listed(service) && service.id == Support
    ensures Contains(SupportText(service), Catalog.ContactPhone)
  {
    ContainsInfix(Catalog.SupportLead, Catalog.ContactPhone, Catalog.SupportTrail);
    ContainsExtended(service.description, Catalog.ContactPhone, Say(SupportTrail));
  }

  // ---------------------------------------------------------------------------
  // The invariant, the transcript and the terminal state

  /** Only ever appending to the transcript and the outboxes, and never leaving COMPLETED. */
  predicate Extends(s: State, t: State)
  {
    && s.messages <= t.messages
    && s.savedMessages <= t.savedMessages
    && s.leads <= t.leads && s.notifications <= t.notifications
    && (s.appState == Completed ==> t.appState == Completed)
  }

  /** The page starts loading, in INITIAL, with an empty transcript, in a valid state. */
  lemma StartedIsValid(response: Option<string>)
    ensures var s := Started(response);
      && Valid(s) && s.appState == Initial && s.isLoading && s.messages == []
      && (s.pending.Some? <==> response.Some?)
  {
  }

  /** When the greeting timer fires, the transcript is exactly the clean greeting and the menu is offered. */
  lemma GreetingOpensTheMenu(response: Option<string>)
    requires response.Some?
    ensures var s := Resume(Started(response));
      && Valid(s) && ServiceMenuShown(s)
      && s.messages == [Message(Assistant, GreetingText(response.value))]
      && s.messages[0].content != ""
      && s.savedMessages == s.messages
  {
    GreetingTextClean(response.value);
  }

  lemma SendKeepsInvariants(s: State, currentTime: string, api: Gemini.Api)
    requires Valid(s)
    ensures var t := SendMessage(s, currentTime, api);
      Valid(t) && Extends(s, t) && t.leads == s.leads
  {
    if Trim(s.input) != "" && !s.isLoading {
      if s.appState == Description {
        SendDescriptionKeepsInvariants(s, currentTime, api);
      } else {
        SendFreeTextKeepsInvariants(s, currentTime, api);
      }
    }
  }

  lemma SendDescriptionKeepsInvariants(s: State, currentTime: string, api: Gemini.Api)
    requires Valid(s) && Trim(s.input) != "" && !s.isLoading && s.appState == Description
    ensures var t := SendMessage(s, currentTime, api);
      Valid(t) && Extends(s, t) && t.leads == s.leads
  {
  }

  lemma SendFreeTextKeepsInvariants(s: State, currentTime: string, api: Gemini.Api)
    requires Valid(s) && Trim(s.input) != "" && !s.isLoading && s.appState != Description
    ensures var t := SendMessage(s, currentTime, api);
      Valid(t) && Extends(s, t) && t.leads == s.leads
  {
  }

  lemma SelectKeepsInvariants(s: State, service: Service)
    requires Valid(s) && ServiceMenuShown(s) && Catalog.Listed(service)
    ensures var t := SelectService(s, service);
      Valid(t) && Extends(s, t) && t.leads == s.leads
  {
  }

  lemma ValidateKeepsInvariants(s: State, valid: bool)
    requires Valid(s) && YesNoShown(s) && s.appState == Validation
    ensures var t := Validate(s, valid);
      Valid(t) && Extends(s, t) && t.leads == s.leads
  {
  }

  lemma ChooseFormationKeepsInvariants(s: State, isPersonalized: bool)
    requires Valid(s) && FormationButtonsShown(s)
    ensures var t := ChooseFormation(s, isPersonalized);
      Valid(t) && Extends(s, t) && t.leads == s.leads
  {
  }

  lemma AnswerKeepsInvariants(s: State, more: bool)
    requires Valid(s) && YesNoShown(s) && s.appState == AskAnythingElse
    ensures var t := AnswerAnythingElse(s, more);
      Valid(t) && Extends(s, t) && t.leads == s.leads
  {
  }

  lemma SubmitKeepsInvariants(s: State)
    requires Valid(s) && SubmitEnabled(s) && FormAccepts(s.contactInfo)
    ensures var t := SubmitContact(s);
      Valid(t) && Extends(s, t) && |t.leads| == 1
  {
  }

  /** What every timer firing preserves. */
  predicate ResumeKeeps(s: State)
    requires s.pending.Some?
  {
    Valid(Resume(s)) && Extends(s, Resume(s)) && Resume(s).leads == s.leads
  }

  lemma ResumeKeepsInvariants(s: State)
    requires Valid(s) && s.pending.Some?
    ensures ResumeKeeps(s)
  {
    match s.pending.value
    case Greeting(_) => ResumeGreetingKeeps(s);
    case ShortDescriptionReply => ResumeShortDescriptionKeeps(s);
    case DescriptionAccepted => ResumeDescriptionAcceptedKeeps(s);
    case AssistantReply(_) => ResumeAssistantReplyKeeps(s);
    case ServiceConfirmation(_) => ResumeServiceConfirmationKeeps(s);
    case ValidationReply(_, _) => ResumeValidationReplyKeeps(s);
    case FormationReply(_) => ResumeFormationReplyKeeps(s);
    case AnythingElseReply(_) => ResumeAnythingElseReplyKeeps(s);
    case ThanksReply(_) => ResumeThanksReplyKeeps(s);
  }

  lemma ResumeGreetingKeeps(s: State)
    requires Valid(s) && s.pending.Some? && s.pending.value.Greeting?
    ensures ResumeKeeps(s)
  {
    assert s.messages == [];
  }

  lemma ResumeShortDescriptionKeeps(s: State)
    requires Valid(s) && s.pending.Some? && s.pending.value.ShortDescriptionReply?
    ensures ResumeKeeps(s)
  {
  }

  lemma ResumeDescriptionAcceptedKeeps(s: State)
    requires Valid(s) && s.pending.Some? && s.pending.value.DescriptionAccepted?
    ensures ResumeKeeps(s)
  {
  }

  lemma ResumeAssistantReplyKeeps(s: State)
    requires Valid(s) && s.pending.Some? && s.pending.value.AssistantReply?
    ensures ResumeKeeps(s)
  {
  }

  lemma ResumeServiceConfirmationKeeps(s: State)
    requires Valid(s) && s.pending.Some? && s.pending.value.ServiceConfirmation?
    ensures ResumeKeeps(s)
  {
  }

  lemma ResumeValidationReplyKeeps(s: State)
    requires Valid(s) && s.pending.Some? && s.pending.value.ValidationReply?
    ensures ResumeKeeps(s)
  {
  }

  lemma ResumeFormationReplyKeeps(s: State)
    requires Valid(s) && s.pending.Some? && s.pending.value.FormationReply?
    ensures ResumeKeeps(s)
  {
  }

  lemma ResumeAnythingElseReplyKeeps(s: State)
    requires Valid(s) && s.pending.Some? && s.pending.value.AnythingElseReply?
    ensures ResumeKeeps(s)
  {
  }

  lemma ResumeThanksReplyKeeps(s: State)
    requires Valid(s) && s.pending.Some? && s.pending.value.ThanksReply?
    ensures ResumeKeeps(s)
  {
  }

  /**
   * Every enabled step keeps the invariant, only ever extends the transcript,
   * the saved messages, the leads and the e-mails, and never leaves COMPLETED.
   */
  lemma StepKeepsInvariants(s: State, e: Event)
    requires Valid(s) && Enabled(s, e)
    ensures Valid(Step(s, e)) && Extends(s, Step(s, e))
  {
    match e
    case Typed(text) =>
    case Sent(currentTime, api) => SendKeepsInvariants(s, currentTime, api);
    case Selected(service) => SelectKeepsInvariants(s, service);
    case Validated(valid) => ValidateKeepsInvariants(s, valid);
    case FormationChosen(isPersonalized) => ChooseFormationKeepsInvariants(s, isPersonalized);
    case AnsweredMore(more) => AnswerKeepsInvariants(s, more);
    case ContactEdited(contact) =>
    case Submitted => SubmitKeepsInvariants(s);
    case TimerFired => ResumeKeepsInvariants(s);
  }

  /** The same, over any sequence of events. */
  lemma {:induction false} RunKeepsInvariants(s: State, events: seq<Event>)
    requires Valid(s)
    ensures Valid(Run(s, events)) && Extends(s, Run(s, events))
    decreases |events|
  {
    if events != [] {
      var next := if Enabled(s, events[0]) then Step(s, events[0]) else s;
      if Enabled(s, events[0]) {
        StepKeepsInvariants(s, events[0]);
      }
      RunKeepsInvariants(next, events[1..]);
    }
  }

  /**
   * In any session, whatever the model answered at start-up, whatever the
   * user does and whatever the model answers later: the state is valid, at
   * most one lead is stored and at most one e-mail sent, and a lead exists
   * only once the form was submitted. `Start` is `Started` of the first
   * answer, so this covers every session.
   */
  lemma SessionKeepsInvariants(response: Option<string>, events: seq<Event>)
    ensures var t := Run(Started(response), events);
      && Valid(t) && t.appState != WaitingForAnswer
      && |t.leads| == |t.notifications| <= 1
      && (t.appState == ContactCollection && !t.isEmailSending ==> t.leads == [])
  {
    StartedIsValid(response);
    RunKeepsInvariants(Started(response), events);
    ValidLeads(Run(Started(response), events));
  }

  /** In a valid state, a lead exists only in COMPLETED or while its e-mail is sending. */
  lemma ValidLeads(t: State)
    requires Valid(t)
    ensures |t.leads| == |t.notifications| <= 1
    ensures |t.leads| == 1 ==> t.appState == Completed || t.isEmailSending
    ensures t.appState == ContactCollection && !t.isEmailSending ==> t.leads == []
  {
    if t.leads != [] {
      assert |t.leads| == 1;
    }
  }

  // ---------------------------------------------------------------------------
  // Sending free text

  /** A blank input, or any input while loading, changes nothing at all. */
  lemma SendIgnoredWhenBlankOrLoading(s: State, currentTime: string, api: Gemini.Api)
    requires Blank(s.input) || s.isLoading
    ensures SendMessage(s, currentTime, api) == s
  {
    TrimEmptyIffBlank(s.input);
  }

  /** Otherwise the input is appended as the user's message, saved, cleared, and loading starts. */
  lemma SendEchoesInput(s: State, currentTime: string, api: Gemini.Api)
    requires !Blank(s.input) && !s.isLoading
    ensures var t := SendMessage(s, currentTime, api);
      && t.messages == s.messages + [Message(User, s.input)]
      && t.savedMessages == s.savedMessages + [Message(User, s.input)]
      && t.input == "" && t.isLoading && t.pending.Some? && t.appState == s.appState
  {
    TrimEmptyIffBlank(s.input);
  }

  /**
   * In DESCRIPTION, an input shorter than 50 code units is answered by a
   * re-prompt and nothing else changes; from 50 on it becomes the description
   * and the contact form follows.
   */
  lemma DescriptionThreshold(s: State, currentTime: string, api: Gemini.Api)
    requires s.appState == Description && SendButtonEnabled(s)
    ensures var t := Resume(SendMessage(s, currentTime, api));
      && !t.isLoading
      && (t.appState == ContactCollection <==> Utf16Length(s.input) >= MinDescriptionLength)
      && (Utf16Length(s.input) < MinDescriptionLength ==>
            && t.appState == Description && t.userDescription == s.userDescription
            && t.messages == s.messages + [Message(User, s.input), Message(Assistant, Say(ShortDescription))])
      && (Utf16Length(s.input) >= MinDescriptionLength ==>
            && t.userDescription == s.input
            && t.messages == s.messages + [Message(User, s.input), Message(Assistant, Say(DescriptionNoted))])
  {
    if LongEnough(s.input) {
      DescriptionAcceptedWhenLong(s, currentTime, api);
    } else {
      DescriptionRepromptedWhenShort(s, currentTime, api);
    }
  }

  /** A description under 50 code units is answered by the re-prompt, and nothing else moves. */
  lemma DescriptionRepromptedWhenShort(s: State, currentTime: string, api: Gemini.Api)
    requires s.appState == Description && SendButtonEnabled(s) && !LongEnough(s.input)
    ensures var t := Resume(SendMessage(s, currentTime, api));
      && !t.isLoading && t.appState == Description && t.userDescription == s.userDescription
      && t.messages == s.messages + [Message(User, s.input), Message(Assistant, Say(ShortDescription))]
  {
    var u := SendMessage(s, currentTime, api);
    SendInDescription(s, currentTime, api);
    assert Resume(u) == Reply(u, Say(ShortDescription));
    var userMsg, reply := Message(User, s.input), Message(Assistant, Say(ShortDescription));
    assert Resume(u).messages == s.messages + [userMsg] + [reply];
    assert s.messages + [userMsg] + [reply] == s.messages + [userMsg, reply];
  }

  /** A description of 50 code units or more is kept, acknowledged, and the contact form follows. */
  lemma DescriptionAcceptedWhenLong(s: State, currentTime: string, api: Gemini.Api)
    requires s.appState == Description && SendButtonEnabled(s) && LongEnough(s.input)
    ensures var t := Resume(SendMessage(s, currentTime, api));
      && !t.isLoading && t.appState == ContactCollection && t.userDescription == s.input
      && t.messages == s.messages + [Message(User, s.input), Message(Assistant, Say(DescriptionNoted))]
  {
    var u := SendMessage(s, currentTime, api);
    SendInDescription(s, currentTime, api);
    assert Resume(u) == Reply(u, Say(DescriptionNoted)).(appState := ContactCollection);
    var userMsg, reply := Message(User, s.input), Message(Assistant, Say(DescriptionNoted));
    assert Resume(u).messages == s.messages + [userMsg] + [reply];
    assert s.messages + [userMsg] + [reply] == s.messages + [userMsg, reply];
  }

  /** What the synchronous part of a send does in DESCRIPTION. */
  lemma SendInDescription(s: State, currentTime: string, api: Gemini.Api)
    requires s.appState == Description && SendButtonEnabled(s)
    ensures var u := SendMessage(s, currentTime, api);
      && u.messages == s.messages + [Message(User, s.input)] && u.appState == Description
      && u.pending == Some(if LongEnough(s.input) then DescriptionAccepted else ShortDescriptionReply)
      && u.userDescription == (if LongEnough(s.input) then s.input else s.userDescription)
  {
  }

  /** What the synchronous part of a send does outside DESCRIPTION. */
  lemma SendOutsideDescription(s: State, currentTime: string, api: Gemini.Api)
    requires s.appState != Description && SendButtonEnabled(s)
    ensures var userMsg := Message(User, s.input);
      var u := SendMessage(s, currentTime, api);
      && u.messages == s.messages + [userMsg] && u.appState == s.appState
      && u.selectedService == s.selectedService
      && u.pending == Some(AssistantReply(ReplyText(Gemini.GetGeminiResponse(s.messages + [userMsg], currentTime, ServiceName(s.selectedService), api))))
  {
  }

  /** The reply shown is never empty, and a non-empty text is shown as is. */
  lemma ReplyTextNonEmpty(response: Option<string>)
    ensures ReplyText(response) != ""
    ensures response.Some? && response.value != "" ==> ReplyText(response) == response.value
  {
    assert Say(ReplyFallback) != "";
  }

  /**
   * `selectedService?.name` reaches the model: with no selection the
   * instruction has no service line, and a selected service with a name is
   * named in it.
   */
  lemma ModelSeesSelectedService(history: seq<Message>, currentTime: string, selected: Option<Service>)
    ensures var line := Gemini.BuildRequest(history, currentTime, ServiceName(selected)).systemInstruction.serviceLine;
      && (selected.None? ==> line == "")
      && (selected.Some? && selected.value.name != "" ==> Contains(line, selected.value.name))
  {
    if selected.Some? && selected.value.name != "" {
      ContainsInfix("- Service sélectionné: ", selected.value.name, "");
      assert Gemini.ServiceLine(ServiceName(selected)) == "- Service sélectionné: " + selected.value.name + "";
    }
  }

  /**
   * Outside DESCRIPTION the input goes to the model: the request ends with that
   * input, the reply appended is never empty and is the apology when the call
   * fails, and the conversation state does not move.
   */
  lemma FreeTextGoesToModel(s: State, currentTime: string, api: Gemini.Api)
    requires s.appState != Description && SendButtonEnabled(s)
    ensures var userMsg := Message(User, s.input);
      var request := Gemini.BuildRequest(s.messages + [userMsg], currentTime, ServiceName(s.selectedService));
      var t := Resume(SendMessage(s, currentTime, api));
      && request.contents[|request.contents| - 1] == Gemini.FormatMessage(userMsg)
      && |t.messages| == |s.messages| + 2
      && t.messages[..|s.messages| + 1] == s.messages + [userMsg]
      && t.messages[|s.messages| + 1].role == Assistant
      && t.messages[|s.messages| + 1].content != ""
      && (api(request).Failed? ==> t.messages[|s.messages| + 1].content == Gemini.Apology)
      && t.appState == s.appState && t.selectedService == s.selectedService
    ensures var userMsg := Message(User, s.input);
      var response := Gemini.GetGeminiResponse(s.messages + [userMsg], currentTime, ServiceName(s.selectedService), api);
      Resume(SendMessage(s, currentTime, api)).messages == s.messages + [userMsg, Message(Assistant, ReplyText(response))]
  {
    var userMsg := Message(User, s.input);
    Gemini.RequestEndsWithNewestMessage(s.messages, userMsg, currentTime, ServiceName(s.selectedService));
    var response := Gemini.GetGeminiResponse(s.messages + [userMsg], currentTime, ServiceName(s.selectedService), api);
    var u := SendMessage(s, currentTime, api);
    SendOutsideDescription(s, currentTime, api);
    ReplyTextNonEmpty(response);
    assert Resume(u) == Reply(u, ReplyText(response));
    var t := Resume(u);
    assert t.messages == u.messages + [Message(Assistant, ReplyText(response))];
    assert t.messages[..|u.messages|] == u.messages;
    assert u.messages + [Message(Assistant, ReplyText(response))] == s.messages + [userMsg, Message(Assistant, ReplyText(response))];
  }

  /**
   * The send button ignores the state: once COMPLETED, leftover input typed
   * earlier can still be sent and is answered by the model, while the state stays COMPLETED.
   */
  lemma CompletedStillAnswersSendButton(s: State, currentTime: string, api: Gemini.Api)
    requires s.appState == Completed && SendButtonEnabled(s)
    ensures !TextareaEnabled(s)
    ensures var t := Resume(SendMessage(s, currentTime, api));
      |t.messages| == |s.messages| + 2 && t.appState == Completed
  {
    FreeTextGoesToModel(s, currentTime, api);
  }

  // ---------------------------------------------------------------------------
  // Choices

  /** At most one kind of choice is offered at a time, and none in COMPLETED. */
  lemma ChoicesExclusive(s: State)
    ensures (if ServiceMenuShown(s) then 1 else 0) + (if FormationButtonsShown(s) then 1 else 0)
          + (if YesNoShown(s) then 1 else 0) + (if ContactFormShown(s) then 1 else 0) <= 1
    ensures s.appState == Completed ==>
              !ServiceMenuShown(s) && !FormationButtonsShown(s) && !YesNoShown(s)
              && !ContactFormShown(s) && !TextareaEnabled(s)
  {
  }

  /**
   * Selecting a service records it, echoes exactly its name, then asks for
   * validation in a message that names it.
   */
  lemma SelectServiceThenConfirm(s: State, service: Service)
    requires ServiceMenuShown(s) && Catalog.Listed(service)
    ensures var t := Resume(SelectService(s, service));
      && t.selectedService == Some(service) && t.appState == Validation && !t.isLoading
      && t.messages == s.messages + [Message(User, service.name), Message(Assistant, ConfirmationText(service))]
      && Contains(t.messages[|t.messages| - 1].content, service.name)
  {
    MessagesNameTheirSubject(service, s.contactInfo, s.selectedService, s.userDescription);
  }

  /**
   * Validation: "yes" leads to the formation choice for `formation`, to the
   * support answer (with the phone number) then "anything else" for `support`,
   * to the description for any other service; "no" goes back to the menu
   * without any reply and keeps the selected service.
   */
  lemma ValidationBranches(s: State, valid: bool)
    requires Valid(s) && YesNoShown(s) && s.appState == Validation
    ensures var t := Resume(Validate(s, valid));
      var service := s.selectedService.value;
      var echo := Message(User, if valid then Say(ValidateYes) else Say(ValidateNo));
      && !t.isLoading && t.selectedService == s.selectedService
      && (valid && service.id == Formation ==>
            t.appState == FormationChoice && t.messages == s.messages + [echo, Message(Assistant, Say(FormationQuestion))])
      && (valid && service.id == Support ==>
            && t.appState == AskAnythingElse && t.messages == s.messages + [echo, Message(Assistant, SupportText(service))]
            && Contains(SupportText(service), Catalog.ContactPhone))
      && (valid && service.id != Formation && service.id != Support ==>
            t.appState == Description && t.messages == s.messages + [echo, Message(Assistant, DescriptionPrompt(service))])
      && (!valid ==> t.appState == ServiceSelection && t.messages == s.messages + [echo])
  {
    if valid && s.selectedService.value.id == Support {
      SupportTextGivesPhone(s.selectedService.value);
    }
  }

  /** The personalised formation leads to the description, the catalogue to "anything else". */
  lemma FormationBranches(s: State, isPersonalized: bool)
    requires FormationButtonsShown(s)
    ensures var t := Resume(ChooseFormation(s, isPersonalized));
      && !t.isLoading
      && (isPersonalized ==>
            && t.appState == Description
            && t.messages == s.messages + [Message(User, Say(PersonalizedChoice)), Message(Assistant, Say(PersonalizedPrompt))])
      && (!isPersonalized ==>
            && t.appState == AskAnythingElse
            && t.messages == s.messages + [Message(User, Say(SiteChoice)), Message(Assistant, Say(CatalogPointer))])
  {
  }

  /** "Yes" goes back to the menu without a reply; "no" closes the conversation. */
  lemma AnythingElseBranches(s: State, more: bool)
    requires YesNoShown(s) && s.appState == AskAnythingElse
    ensures var t := Resume(AnswerAnythingElse(s, more));
      && !t.isLoading
      && (more ==> t.appState == ServiceSelection && t.messages == s.messages + [Message(User, Say(MoreRequest))])
      && (!more ==>
            && t.appState == Completed
            && t.messages == s.messages + [Message(User, Say(NoMoreRequest)), Message(Assistant, Say(Closing))])
  {
  }

  // ---------------------------------------------------------------------------
  // The contact form

  /**
   * Submitting stores exactly one lead, with the selected service's name (the
   * 'Inconnu' fallback never applies), and sends exactly one e-mail whose
   * subject names the contact; the transcript does not change yet.
   */
  lemma SubmitSendsOneLead(s: State)
    requires Valid(s) && SubmitEnabled(s) && FormAccepts(s.contactInfo)
    ensures var t := SubmitContact(s);
      && s.selectedService.Some?
      && t.leads == [Lead(s.contactInfo, s.selectedService.value.name, s.userDescription)]
      && |t.notifications| == 1
      && t.notifications[0].subject == "NOUVEAU LEAD : " + s.contactInfo.fullName
      && t.messages == s.messages && t.isLoading && t.isEmailSending
  {
    Catalog.NameNonEmpty(s.selectedService.value.id);
  }

  /**
   * When the thanks arrives, even if the form was edited meanwhile, exactly one
   * message is appended and it thanks the name that was submitted; the
   * conversation is then COMPLETED.
   */
  lemma ThanksNameTheSubmittedContact(s: State, edited: Contact)
    requires Valid(s) && SubmitEnabled(s) && FormAccepts(s.contactInfo)
    ensures var t := Resume(EditContact(SubmitContact(s), edited));
      && t.appState == Completed && !t.isLoading && !t.isEmailSending
      && t.messages == s.messages + [Message(Assistant, ThanksText(s.contactInfo.fullName))]
      && Contains(t.messages[|t.messages| - 1].content, s.contactInfo.fullName)
      && |t.leads| == 1 && t.contactInfo == edited
  {
    SubmitSendsOneLead(s);
    MessagesNameTheirSubject(s.selectedService.value, s.contactInfo, s.selectedService, s.userDescription);
  }
}
