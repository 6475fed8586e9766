/** The records the engine works on: a persona, a message with its reasoning
    metadata, and the conversation that collects the messages of one run. */
module Model {

  /** A synthetic user. The enumerated attributes (`techLiteracy`,
      `riskAversion`, `tone`) are free strings, as in the source, which
      only ever compares them with one literal each. The values of the
      open `demographics` map are kept abstract as strings. */
  datatype Persona = Persona(
    id: string,
    name: string,
    archetype: string,
    demographics: map<string, string>,
    traits: seq<string>,
    goals: seq<string>,
    techLiteracy: string,
    riskAversion: string,
    tone: string,
    painPoints: seq<string>,
    motivations: seq<string>,
    domainExpertise: seq<string>,
    context: string)

  /** Who wrote a message: the source's role strings "user" and "persona". */
  datatype Role = UserRole | PersonaRole

  /** The meta dictionary of a message: empty (`{}`) on user messages, the
      reasoning record on heuristic persona replies. `confidence` is the
      unrounded score. */
  datatype Meta =
    | NoMeta
    | Reasoning(
        salientTraits: seq<string>,
        assumptions: seq<string>,
        keywordsHit: seq<string>,
        confidence: real,
        followUps: seq<string>)

  datatype Message = Message(role: Role, content: string, meta: Meta)

  /** One run. `featureId` and `createdAt` come from the wall clock in the
      source and are inputs here. */
  datatype Conversation = Conversation(
    featureId: string,
    featureTitle: string,
    featureSpec: string,
    persona: Persona,
    seed: int,
    messages: seq<Message>,
    createdAt: string)
}
