/**
 * Messages of the group chat and the fixed agent names the orchestration
 * compares them against.
 */
module Chat {

  datatype Option<+T> = None | Some(value: T)

  /**
   * One chat-history entry: the speaker's name (`None` for the user's own
   * request, which carries only a role) and the text content.
   */
  datatype Message = Message(name: Option<string>, content: string)

  const BusinessAnalyst: string := "BusinessAnalyst"
  const SoftwareEngineer: string := "SoftwareEngineer"
  const ProductOwner: string := "ProductOwner"
  const User: string := "User"

  /** The initial request as the workflow adds it: role user, no name. */
  function UserRequest(text: string): Message {
    Message(None, text)
  }

  predicate SpokenBy(m: Message, speaker: string) {
    m.name == Some(speaker)
  }
}
