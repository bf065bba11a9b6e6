/**
 * The reply source (geminiService.ts, getGeminiResponse): how the transcript
 * and the context are turned into a request for the hosted model, and how a
 * failed call is replaced by a fixed apology. The model itself is a function
 * parameter `api`: nothing is assumed about what it answers.
 */
module Gemini {
  import opened Types
  import Catalog
  import opened Text

  const ModelName := "gemini-3-flash-preview"
  const Temperature: real := 0.7

  /** Only the last `HistoryWindow` formatted entries are sent (`slice(-10)`). */
  const HistoryWindow: nat := 10

  /** The single entry sent when there is no history yet. */
  const EmptyHistoryGreeting := "Bonjour"

  const Apology := "Je rencontre une légère perturbation " +
                   "technique. Veuillez m'excuser et réessayer " +
                   "dans un instant."

  /** The roles the hosted model knows. */
  datatype ApiRole = UserRole | ModelRole

  /** One entry of `contents`: a role and a single text part. */
  datatype Content = Content(role: ApiRole, text: string)

  /**
   * The variable parts of the system instruction: the client's local time and
   * the service line. `InstructionText` renders them into the text sent.
   */
  datatype Instruction = Instruction(currentTime: string, serviceLine: string)

  datatype Request = Request(model: string, contents: seq<Content>, systemInstruction: Instruction, temperature: real)

  /**
   * What the call produces: an answer whose `text` may be undefined, or an
   * exception (network, quota, key...).
   */
  datatype ApiOutcome = Answered(text: Option<string>) | Failed

  /** The hosted model, seen from here: any function of the request. */
  type Api = Request -> ApiOutcome

  /** `role === 'user' ? 'user' : 'model'`, keeping the text as the only part. */
  function FormatMessage(m: Message): (c: Content)
    ensures c.text == m.content
    ensures c.role == UserRole <==> m.role == User
  {
    Content(if m.role == User then UserRole else ModelRole, m.content)
  }

  /**
   * The history as the model sees it: one entry per message, in order, or a
   * single user "Bonjour" when the history is empty.
   */
  function FormatHistory(history: seq<Message>): (r: seq<Content>)
    ensures history == [] ==> r == [Content(UserRole, EmptyHistoryGreeting)]
    ensures history != [] ==> |r| == |history|
    ensures history != [] ==> forall i :: 0 <= i < |r| ==> r[i] == FormatMessage(history[i])
  {
    if history == [] then [Content(UserRole, EmptyHistoryGreeting)]
    else seq(|history|, i requires 0 <= i < |history| => FormatMessage(history[i]))
  }

  /** `xs.slice(-n)` for n > 0. */
  function LastN<T>(xs: seq<T>, n: nat): seq<T>
    requires n > 0
  {
    if |xs| > n then xs[|xs| - n..] else xs
  }

  /** `LastN` keeps the last `min(|xs|, n)` elements, in their order. */
  lemma LastNSuffix<T>(xs: seq<T>, n: nat)
    requires n > 0
    ensures |LastN(xs, n)| == if |xs| < n then |xs| else n
    ensures LastN(xs, n) == xs[|xs| - |LastN(xs, n)|..]
  {
  }

  /** The `- Service sélectionné` line, present only for a truthy (given and non-empty) service name. */
  function ServiceLine(selectedService: Option<string>): string
  {
    if selectedService.Some? && selectedService.value != "" then "- Service sélectionné: " + selectedService.value
    else ""
  }

  /**
   * The system instruction up to where the service line goes: SYSTEM_PROMPT_BASE
   * of constants.ts, then the real-time context.
   */
  function InstructionHead(currentTime: string): string
  {
    InstructionIntro + currentTime + InstructionTimeEnd
  }

  /** SYSTEM_PROMPT_BASE of constants.ts, then the real-time context up to the local time. */
  const InstructionIntro :=
    "\n      " +
    "\n" +
    "Identité: Tu es Ruby, l'assistant robotisé " +
    "intelligent de Nomade Technology.\n" +
    "Langue: Français.\n" +
    "\n" +
    "CONSIGNES SPÉCIFIQUES:\n" +
    "- Si un utilisateur demande \"où est Oumar\" " +
    "ou pose une question sur Oumar Tidiane, " +
    "réponds exactement ceci: \"Mon " +
    "administrateur Oumar Tidiane est " +
    "indisponible pour le moment mais vous pouvez " +
    "le joindre sur le numéro : +221777867118.\"\n" +
    "\n" +
    "RÈGLES DE FORMATAGE:\n" +
    "- NE JAMAIS UTILISER D'ASTÉRISQUES (* ou **) " +
    "POUR LE GRAS.\n" +
    "- Utilise uniquement des sauts de ligne pour " +
    "aérer le texte.\n" +
    "- Utilise des tirets (-) pour les listes.\n" +
    "- Ton ton doit être technologique, poli et " +
    "efficace.\n" +
    "\n" +
    "MESSAGE D'ACCUEIL:\n" +
    "Salue l'utilisateur. Présente-toi comme l'IA " +
    "de Nomade Technology. Liste brièvement nos " +
    "expertises : Chatbots IA, E-commerce, " +
    "Formations, Coaching et Web.\n" +
    "\n      \n      CONTEXTE EN TEMPS RÉEL:\n      - Entreprise: " + Catalog.CompanyName +
    "\n      - Heure locale du client: "

  const InstructionTimeEnd := "\n      "

  const InstructionTail := "\n    "

  /** A head, the service line, then the closing indentation. */
  function Compose(head: string, serviceLine: string): string
  {
    head + serviceLine + InstructionTail
  }

  /** The system instruction as sent. */
  function InstructionText(i: Instruction): string
  {
    Compose(InstructionHead(i.currentTime), i.serviceLine)
  }

  /**
   * The instruction sent names the client's local time and, when a non-empty
   * service name is given, that service.
   */
  lemma InstructionNamesTimeAndService(currentTime: string, selectedService: Option<string>)
    ensures Contains(InstructionText(SystemInstruction(currentTime, selectedService)), currentTime)
    ensures selectedService.Some? && selectedService.value != "" ==>
              Contains(InstructionText(SystemInstruction(currentTime, selectedService)), selectedService.value)
  {
    InstructionNamesTime(currentTime, selectedService);
    InstructionNamesService(currentTime, selectedService);
  }

  /** The local time is in the instruction sent. */
  lemma InstructionNamesTime(currentTime: string, selectedService: Option<string>)
    ensures Contains(InstructionText(SystemInstruction(currentTime, selectedService)), currentTime)
  {
    ComposedNamesTime(InstructionIntro, currentTime, ServiceLine(selectedService));
  }

  /** A non-empty service name is in the instruction sent. */
  lemma InstructionNamesService(currentTime: string, selectedService: Option<string>)
    ensures selectedService.Some? && selectedService.value != "" ==>
              Contains(InstructionText(SystemInstruction(currentTime, selectedService)), selectedService.value)
  {
    if selectedService.Some? && selectedService.value != "" {
      ComposedNamesService(InstructionIntro + currentTime + InstructionTimeEnd, selectedService.value);
    }
  }

  /** Whatever comes before it and whatever line follows, the local time is in the instruction. */
  lemma ComposedNamesTime(intro: string, currentTime: string, line: string)
    ensures Contains(Compose(intro + currentTime + InstructionTimeEnd, line), currentTime)
  {
    var rest := InstructionTimeEnd + line + InstructionTail;
    ContainsInfix(intro, currentTime, rest);
    assert Compose(intro + currentTime + InstructionTimeEnd, line) == intro + currentTime + rest;
  }

  /** A non-empty service name given to the instruction is in it. */
  lemma ComposedNamesService(head: string, name: string)
    requires name != ""
    ensures Contains(Compose(head, ServiceLine(Some(name))), name)
  {
    var prefix := head + "- Service sélectionné: ";
    ContainsInfix(prefix, name, InstructionTail);
    assert Compose(head, ServiceLine(Some(name))) == prefix + name + InstructionTail;
  }

  function SystemInstruction(currentTime: string, selectedService: Option<string>): Instruction
  {
    Instruction(currentTime, ServiceLine(selectedService))
  }

  /** `formattedHistory.slice(-10)`. */
  function Window(history: seq<Message>): seq<Content>
  {
    LastN(FormatHistory(history), HistoryWindow)
  }

  function BuildRequest(history: seq<Message>, currentTime: string, selectedService: Option<string>): Request
  {
    Request(ModelName, Window(history), SystemInstruction(currentTime, selectedService), Temperature)
  }

  /**
   * `getGeminiResponse(history, currentTime, selectedService)`: the model's text
   * (possibly undefined) when the call returns, the apology when it throws.
   */
  function GetGeminiResponse(history: seq<Message>, currentTime: string, selectedService: Option<string>, api: Api): (r: Option<string>)
    ensures api(BuildRequest(history, currentTime, selectedService)).Failed? ==> r == Some(Apology)
    ensures api(BuildRequest(history, currentTime, selectedService)).Answered? ==>
              r == api(BuildRequest(history, currentTime, selectedService)).text
  {
    match api(BuildRequest(history, currentTime, selectedService))
    case Answered(text) => text
    case Failed => Some(Apology)
  }

  /**
   * The contents sent are never empty and hold at most ten entries: the last
   * entries of the formatted history, each the formatted message at the same
   * distance from the end of the transcript.
   */
  lemma WindowKeepsNewest(history: seq<Message>)
    ensures var contents := Window(history);
      && 1 <= |contents| <= HistoryWindow
      && (history == [] ==> contents == [Content(UserRole, EmptyHistoryGreeting)])
      && (history != [] ==> |contents| == if |history| < HistoryWindow then |history| else HistoryWindow)
      && (history != [] ==> forall i :: 0 <= i < |contents| ==>
            contents[i] == FormatMessage(history[|history| - |contents| + i]))
  {
    if history == [] {
      assert Window(history) == FormatHistory(history);
    } else {
      WindowSize(history);
      WindowEntries(history);
    }
  }

  /** A non-empty history fills the window up to its size. */
  lemma WindowSize(history: seq<Message>)
    requires history != []
    ensures |Window(history)| == if |history| < HistoryWindow then |history| else HistoryWindow
  {
    LastNSuffix(FormatHistory(history), HistoryWindow);
  }

  /** Every entry of the window of a non-empty history is a formatted message of it. */
  lemma WindowEntries(history: seq<Message>)
    requires history != []
    ensures forall i :: 0 <= i < |Window(history)| ==>
              Window(history)[i] == FormatMessage(history[|history| - |Window(history)| + i])
  {
    forall i | 0 <= i < |Window(history)|
      ensures Window(history)[i] == FormatMessage(history[|history| - |Window(history)| + i])
    {
      WindowAt(history, i);
    }
  }

  /** One entry of the window: the formatted message at the same distance from the end. */
  lemma WindowAt(history: seq<Message>, i: nat)
    requires history != [] && i < |Window(history)|
    ensures Window(history)[i] == FormatMessage(history[|history| - |Window(history)| + i])
  {
    var formatted := FormatHistory(history);
    var contents := LastN(formatted, HistoryWindow);
    LastNSuffix(formatted, HistoryWindow);
    var k := |formatted| - |contents|;
    assert contents[i] == formatted[k + i];
  }

  /** A request made from a non-empty history ends with the newest message. */
  lemma RequestEndsWithNewestMessage(history: seq<Message>, m: Message, currentTime: string, selectedService: Option<string>)
    ensures var contents := BuildRequest(history + [m], currentTime, selectedService).contents;
      contents != [] && contents[|contents| - 1] == FormatMessage(m)
  {
    WindowKeepsNewest(history + [m]);
  }

  /**
   * The instruction differs from the one without a service exactly when a
   * non-empty service name is given, and then only by the service line,
   * inserted after the head (which ends with the local time).
   */
  lemma ServiceLineOnlyWhenSelected(head: string, selectedService: Option<string>)
    ensures Compose(head, ServiceLine(selectedService)) != Compose(head, ServiceLine(None))
            <==> selectedService.Some? && selectedService.value != ""
    ensures var plain := Compose(head, ServiceLine(None));
            |head| <= |plain| &&
            Compose(head, ServiceLine(selectedService)) == plain[..|head|] + ServiceLine(selectedService) + plain[|head|..]
  {
    var plain := Compose(head, "");
    assert plain == head + InstructionTail;
    assert plain[..|head|] == head;
    assert plain[|head|..] == InstructionTail;
    if selectedService.Some? && selectedService.value != "" {
      assert |ServiceLine(selectedService)| > 0;
      assert |Compose(head, ServiceLine(selectedService))| > |plain|;
    }
  }
}
