/** The constants of the widget (constants.ts): company data and the service catalog. */
module Catalog {
  import opened Types

  const CompanyName := "Nomade Technology"
  const AdminEmail := "o.tidianendiaye@gmail.com"
  const ContactPhone := "+221777867118"

  /** The public site, spelled out in App.tsx where links are detected and offered. */
  const SiteUrl := "www.nomadetech.digital"

  /** The ids in the order of SERVICES. */
  function IdAt(i: nat): ServiceId
    requires i < 6
  {
    [Chatbot, Ecommerce, Formation, Coaching, DevWeb, Support][i]
  }

  /** The position of an id in SERVICES. */
  function IndexOf(id: ServiceId): (i: nat)
    ensures i < 6 && IdAt(i) == id
  {
    match id
    case Chatbot => 0
    case Ecommerce => 1
    case Formation => 2
    case Coaching => 3
    case DevWeb => 4
    case Support => 5
  }

  /** The entry of SERVICES that carries the given id. */
  function Entry(id: ServiceId): Service
  {
    Service(id, Name(id), Blurb(id))
  }

  /** The name shown on the menu button and echoed when the service is chosen. */
  function Name(id: ServiceId): string
  {
    match id
    case Chatbot => "🤖 Conception de Chatbot IA"
    case Ecommerce => "🛒 Boutique e-commerce"
    case Formation => "🎓 Formations en ligne"
    case Coaching => "🤝 Coaching"
    case DevWeb => "💻 Développement web"
    case Support => "📞 Support / Informations"
  }

  /** The description; only the support entry's is ever shown in the conversation. */
  function Blurb(id: ServiceId): string
  {
    match id
    case Chatbot =>
      "Nous concevons des agents conversationnels " +
      "intelligents basés sur les dernières " +
      "avancées en Intelligence Artificielle. Nos " +
      "chatbots automatisent votre service client, " +
      "qualifient vos prospects et améliorent " +
      "l'engagement sur vos plateformes 24h/24. " +
      "C'est la solution idéale pour moderniser " +
      "votre entreprise."
    case Ecommerce =>
      "Nomade Technology accompagne les " +
      "entrepreneurs et entreprises dans la " +
      "création et la gestion de boutiques en ligne " +
      "performantes. Nous prenons en charge toutes " +
      "les étapes clés : configuration, paiement et " +
      "optimisation client."
    case Formation =>
      "Nous proposons des formations de pointe pour " +
      "maîtriser le marketing digital, le " +
      "e-commerce et les nouvelles technologies."
    case Coaching =>
      "Un service de coaching personnalisé pour " +
      "aider les entrepreneurs et professionnels à " +
      "structurer leurs projets numériques et " +
      "clarifier leurs objectifs."
    case DevWeb =>
      "Nous réalisons des sites web et applications " +
      "sur mesure : sites vitrines, plateformes " +
      "e-commerce et outils métiers performants."
    case Support => SupportDescription()
  }

  /** The support entry's description: it gives the contact phone number. */
  function SupportDescription(): string
  {
    SupportLead + ContactPhone + SupportTrail
  }

  const SupportLead := "Contactez l'administrateur directement au "
  const SupportTrail := " pour toute information complémentaire."

  /** SERVICES, in the order of the menu. */
  function Services(): (r: seq<Service>)
    ensures |r| == 6
  {
    seq(6, i requires 0 <= i < 6 => Entry(IdAt(i)))
  }

  /**
   * The service carries a catalog id and that entry's name, and the support
   * entry's description when it is the support entry: what the conversation
   * reads of a service passed by a menu button.
   */
  predicate Listed(s: Service)
  {
    s.name == Name(s.id) && (s.id == Support ==> s.description == SupportDescription())
  }

  /** Every entry of SERVICES is listed. */
  lemma ServicesListed(i: nat)
    requires i < 6
    ensures Listed(Services()[i])
  {
  }

  /** Distinct positions of SERVICES carry distinct ids. */
  lemma IdsDistinct()
    ensures forall i, j :: 0 <= i < j < 6 ==> IdAt(i) != IdAt(j)
  {
  }

  /** The catalog holds six entries with distinct ids and non-empty names. */
  lemma CatalogWellFormed()
    ensures |Services()| == 6
    ensures forall i, j :: 0 <= i < j < 6 ==> Services()[i].id != Services()[j].id
    ensures forall i :: 0 <= i < 6 ==> Services()[i].name != ""
  {
    IdsDistinct();
    forall i | 0 <= i < 6 ensures Services()[i].name != "" {
      NameNonEmpty(IdAt(i));
    }
  }

  /** Every catalog name is non-empty. */
  lemma NameNonEmpty(id: ServiceId)
    ensures Name(id) != ""
  {
    match id
    case Chatbot =>
    case Ecommerce =>
    case Formation =>
    case Coaching =>
    case DevWeb =>
    case Support =>
  }
}
