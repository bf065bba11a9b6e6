/**
 * The App component as an object: one field per piece of React state (plus
 * what was sent out), one method per handler, and `Tick` for a 4-second
 * timer firing. Each method does what its handler does, statement by
 * statement, and is proved to land on the state the Flow function computes,
 * so every property proved of Flow holds of the component.
 */
module App {
  import opened Types
  import opened Text
  import Gemini
  import Catalog
  import Flow
  import FlowProperties

  class Session {
    var appState: AppState
    var selectedService: Option<Service>
    var userDescription: string
    var contactInfo: Contact
    var isLoading: bool
    var isEmailSending: bool
    var input: string
    var messages: seq<Message>
    /** The timer the last handler armed, with what its closure captured. */
    var pending: Option<Flow.Pending>
    /** Rows written to the `messages` table. */
    var savedMessages: seq<Message>
    /** Rows written to the `leads` table. */
    var leads: seq<Flow.Lead>
    /** E-mails handed to the notification service. */
    var notifications: seq<Flow.Notification>

    /** The component's state as a value. */
    function Snapshot(): Flow.State
      reads this
    {
      Flow.State(appState, selectedService, userDescription, contactInfo, isLoading, isEmailSending,
                 input, messages, pending, savedMessages, leads, notifications)
    }

    /** The invariant of every reachable state. */
    predicate Valid()
      reads this
    {
      Flow.Valid(Snapshot())
    }

    /**
     * The first render and the start-up effect (App.tsx:79-102): loading, the
     * greeting requested with an empty history, and its timer armed unless
     * the answer had no text.
     */
    constructor(currentTime: string, api: Gemini.Api)
      ensures Snapshot() == Flow.Start(currentTime, api)
      ensures Valid()
    {
      appState := Initial;
      selectedService := None;
      userDescription := "";
      contactInfo := Contact("", "", "");
      isEmailSending := false;
      input := "";
      messages := [];
      savedMessages := [];
      leads := [];
      notifications := [];
      isLoading := true;
      var response := Gemini.GetGeminiResponse([], currentTime, None, api);
      if response.Some? {
        pending := Some(Flow.Greeting(Flow.GreetingText(response.value)));
      } else {
        pending := None;
      }
      new;
      assert Flow.Start(currentTime, api) == Flow.Started(response);
      assert Snapshot() == Flow.Started(response);
      FlowProperties.StartedIsValid(response);
    }

    /** Typing in the text area. */
    method TypeInput(text: string)
      requires Valid() && Flow.TextareaEnabled(Snapshot())
      modifies this
      ensures Snapshot() == Flow.TypeInput(old(Snapshot()), text)
      ensures Valid()
    {
      input := text;
    }

    /** handleSendMessage (App.tsx:110-159). */
    method SendMessage(currentTime: string, api: Gemini.Api)
      requires Valid()
      modifies this
      ensures Snapshot() == Flow.SendMessage(old(Snapshot()), currentTime, api)
      ensures Valid() && FlowProperties.Extends(old(Snapshot()), Snapshot())
    {
      ghost var before := Snapshot();
      if Trim(input) == "" || isLoading {
        return;
      }
      var currentInput := input;
      var history := messages;
      var userMsg := Message(User, currentInput);
      messages := messages + [userMsg];
      input := "";
      savedMessages := savedMessages + [userMsg];
      assert Snapshot() == Flow.Posted(before);
      if appState == Description {
        SendDescription(currentInput);
      } else {
        AskModel(history + [userMsg], currentTime, api);
      }
      FlowProperties.SendKeepsInvariants(before, currentTime, api);
    }

    /** The DESCRIPTION branch of handleSendMessage (App.tsx:122-149). */
    method SendDescription(description: string)
      modifies this
      ensures Snapshot() == Flow.DescriptionSent(old(Snapshot()), description)
    {
      if Utf16Length(description) < Flow.MinDescriptionLength {
        isLoading := true;
        pending := Some(Flow.ShortDescriptionReply);
        return;
      }
      userDescription := description;
      isLoading := true;
      pending := Some(Flow.DescriptionAccepted);
    }

    /** The rest of handleSendMessage (App.tsx:151-158): the model is asked with the transcript. */
    method AskModel(history: seq<Message>, currentTime: string, api: Gemini.Api)
      requires history == messages
      modifies this
      ensures Snapshot() == Flow.Asked(old(Snapshot()), currentTime, api)
    {
      isLoading := true;
      var responseText := Gemini.GetGeminiResponse(history, currentTime, Flow.ServiceName(selectedService), api);
      pending := Some(Flow.AssistantReply(Flow.ReplyText(responseText)));
    }

    /** handleServiceSelect (App.tsx:161-178). */
    method SelectService(service: Service)
      requires Valid() && Flow.ServiceMenuShown(Snapshot()) && Catalog.Listed(service)
      modifies this
      ensures Snapshot() == Flow.SelectService(old(Snapshot()), service)
      ensures Valid() && FlowProperties.Extends(old(Snapshot()), Snapshot())
    {
      FlowProperties.SelectKeepsInvariants(Snapshot(), service);
      selectedService := Some(service);
      messages := messages + [Message(User, service.name)];
      isLoading := true;
      pending := Some(Flow.ServiceConfirmation(service));
    }

    /** handleValidation (App.tsx:180-216). */
    method Validate(valid: bool)
      requires Valid() && Flow.YesNoShown(Snapshot()) && appState == Validation
      modifies this
      ensures Snapshot() == Flow.Validate(old(Snapshot()), valid)
      ensures Valid() && FlowProperties.Extends(old(Snapshot()), Snapshot())
    {
      FlowProperties.ValidateKeepsInvariants(Snapshot(), valid);
      var echo := if valid then Flow.Say(Flow.ValidateYes) else Flow.Say(Flow.ValidateNo);
      messages := messages + [Message(User, echo)];
      isLoading := true;
      pending := Some(Flow.ValidationReply(valid, selectedService));
    }

    /** handleFormationOption (App.tsx:218-248). */
    method ChooseFormation(isPersonalized: bool)
      requires Valid() && Flow.FormationButtonsShown(Snapshot())
      modifies this
      ensures Snapshot() == Flow.ChooseFormation(old(Snapshot()), isPersonalized)
      ensures Valid() && FlowProperties.Extends(old(Snapshot()), Snapshot())
    {
      FlowProperties.ChooseFormationKeepsInvariants(Snapshot(), isPersonalized);
      var echo := if isPersonalized then Flow.Say(Flow.PersonalizedChoice) else Flow.Say(Flow.SiteChoice);
      messages := messages + [Message(User, echo)];
      isLoading := true;
      pending := Some(Flow.FormationReply(isPersonalized));
    }

    /** handleAnythingElse (App.tsx:250-264). */
    method AnswerAnythingElse(more: bool)
      requires Valid() && Flow.YesNoShown(Snapshot()) && appState == AskAnythingElse
      modifies this
      ensures Snapshot() == Flow.AnswerAnythingElse(old(Snapshot()), more)
      ensures Valid() && FlowProperties.Extends(old(Snapshot()), Snapshot())
    {
      FlowProperties.AnswerKeepsInvariants(Snapshot(), more);
      var echo := if more then Flow.Say(Flow.MoreRequest) else Flow.Say(Flow.NoMoreRequest);
      messages := messages + [Message(User, echo)];
      isLoading := true;
      pending := Some(Flow.AnythingElseReply(more));
    }

    /** Editing the contact form. */
    method EditContact(contact: Contact)
      requires Valid() && Flow.ContactFormShown(Snapshot())
      modifies this
      ensures Snapshot() == Flow.EditContact(old(Snapshot()), contact)
      ensures Valid()
    {
      contactInfo := contact;
    }

    /** handleContactSubmit (App.tsx:266-293): the lead is stored and the e-mail sent before the timer. */
    method SubmitContact()
      requires Valid() && Flow.SubmitEnabled(Snapshot()) && Flow.FormAccepts(contactInfo)
      modifies this
      ensures Snapshot() == Flow.SubmitContact(old(Snapshot()))
      ensures Valid() && FlowProperties.Extends(old(Snapshot()), Snapshot()) && |leads| == 1
    {
      FlowProperties.SubmitKeepsInvariants(Snapshot());
      isEmailSending := true;
      isLoading := true;
      leads := leads + [Flow.Lead(contactInfo, Flow.LeadServiceName(selectedService), userDescription)];
      notifications := notifications + [Flow.LeadNotification(contactInfo, selectedService, userDescription)];
      pending := Some(Flow.ThanksReply(contactInfo.fullName));
    }

    /** The armed 4-second timer fires. */
    method Tick()
      requires Valid() && pending.Some?
      modifies this
      ensures Snapshot() == Flow.Resume(old(Snapshot()))
      ensures Valid() && FlowProperties.Extends(old(Snapshot()), Snapshot())
    {
      ghost var before := Snapshot();
      RunCallback();
      FlowProperties.ResumeKeepsInvariants(before);
    }

    /** The body of the armed `setTimeout` callback, chosen by the handler that armed it. */
    method RunCallback()
      requires pending.Some?
      modifies this
      ensures Snapshot() == Flow.Resume(old(Snapshot()))
    {
      match pending.value
      case Greeting(text) =>
        ShowGreeting(text);
      case ShortDescriptionReply =>
        ShowReply(Flow.Say(Flow.ShortDescription));
      case DescriptionAccepted =>
        ShowReply(Flow.Say(Flow.DescriptionNoted));
        appState := ContactCollection;
      case AssistantReply(text) =>
        ShowReply(text);
      case ServiceConfirmation(service) =>
        ShowReply(Flow.ConfirmationText(service));
        appState := Validation;
      case ValidationReply(valid, selected) =>
        FollowValidation(valid, selected);
      case FormationReply(isPersonalized) =>
        FollowFormation(isPersonalized);
      case AnythingElseReply(more) =>
        FollowAnythingElse(more);
      case ThanksReply(fullName) =>
        ShowReply(Flow.ThanksText(fullName));
        appState := Completed;
        isEmailSending := false;
    }

    /** The greeting timer (App.tsx:94-99). */
    method ShowGreeting(text: string)
      modifies this
      ensures Snapshot() == Flow.GreetingShown(old(Snapshot()), text)
    {
      var m := Message(Assistant, text);
      messages := [m];
      appState := ServiceSelection;
      isLoading := false;
      savedMessages := savedMessages + [m];
      pending := None;
    }

    /** The validation timer (App.tsx:185-215). */
    method FollowValidation(valid: bool, selected: Option<Service>)
      modifies this
      ensures Snapshot() == Flow.ValidationAnswered(old(Snapshot()), valid, selected)
    {
      if valid && selected.Some? {
        if selected.value.id == Formation {
          ShowReply(Flow.Say(Flow.FormationQuestion));
          appState := FormationChoice;
        } else if selected.value.id == Support {
          ShowReply(Flow.SupportText(selected.value));
          appState := AskAnythingElse;
        } else {
          ShowReply(Flow.DescriptionPrompt(selected.value));
          appState := Description;
        }
      } else {
        Settle();
        appState := ServiceSelection;
      }
    }

    /** The formation timer (App.tsx:228-247). */
    method FollowFormation(isPersonalized: bool)
      modifies this
      ensures Snapshot() == Flow.FormationAnswered(old(Snapshot()), isPersonalized)
    {
      if isPersonalized {
        ShowReply(Flow.Say(Flow.PersonalizedPrompt));
        appState := Description;
      } else {
        ShowReply(Flow.Say(Flow.CatalogPointer));
        appState := AskAnythingElse;
      }
    }

    /** The anything-else timer (App.tsx:255-262). */
    method FollowAnythingElse(more: bool)
      modifies this
      ensures Snapshot() == Flow.AnythingElseAnswered(old(Snapshot()), more)
    {
      if more {
        Settle();
        appState := ServiceSelection;
      } else {
        ShowReply(Flow.Say(Flow.Closing));
        appState := Completed;
      }
    }

    /** The assistant's message is appended and loading ends; the timer has fired. */
    method ShowReply(text: string)
      modifies this
      ensures Snapshot() == Flow.Reply(old(Snapshot()), text)
    {
      messages := messages + [Message(Assistant, text)];
      isLoading := false;
      pending := None;
    }

    /** Loading ends without a message; the timer has fired. */
    method Settle()
      modifies this
      ensures Snapshot() == Flow.Idle(old(Snapshot()))
    {
      isLoading := false;
      pending := None;
    }
  }
}
