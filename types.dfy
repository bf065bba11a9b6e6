/** The records and the enumeration shared by the chat widget (types.ts). */
module Types {

  datatype Option<+T> = None | Some(value: T)

  /** Who authored a transcript entry. */
  datatype Role = User | Assistant

  /** A transcript entry. Its id (Date.now()) and its display timestamp are not modelled. */
  datatype Message = Message(role: Role, content: string)

  /** The stage of the guided conversation. WaitingForAnswer is declared but never entered. */
  datatype AppState =
    | Initial
    | ServiceSelection
    | WaitingForAnswer
    | Validation
    | FormationChoice
    | Description
    | ContactCollection
    | AskAnythingElse
    | Completed

  /**
   * The ids of the catalog entries ("chatbot", "ecommerce", "formation",
   * "coaching", "devweb", "support"). The source only ever compares an id
   * with one of these strings, so they are modelled as an enumeration.
   */
  datatype ServiceId = Chatbot | Ecommerce | Formation | Coaching | DevWeb | Support

  /** An entry of the fixed service catalog. */
  datatype Service = Service(id: ServiceId, name: string, description: string)

  /** The three fields of the contact form. */
  datatype Contact = Contact(fullName: string, phone: string, email: string)
}
