/** The records the application passes around (src/lib/types.ts), plus the
    seed payload a slash command hands to another view. */
module Types {
  import opened Wrappers

  /** Chat ids are the strings `crypto.randomUUID` produces; the model treats
      them as opaque and takes each fresh one as a parameter. */
  type ChatId = string

  datatype Role = User | Assistant

  /** One chat message. Messages carry no id of their own. */
  datatype Message = Message(role: Role, content: string, imageUrl: Option<string>)

  /** One conversation. `createdAt` is an ISO time stamp, opaque here. */
  datatype Chat = Chat(
    id: ChatId,
    title: string,
    createdAt: string,
    messages: seq<Message>,
    persona: string,
    language: string)

  /** The five views the application can show; `GetIdea` is the source's
      'Get Idea'. */
  datatype Capability = Solve | Study | Explain | Summarize | GetIdea

  /** The property name of a seed object: `question`, `topic` or `text`. */
  datatype SeedKey = Question | Topic | TextKey

  /** A seed object with a single string property, such as `{ topic: args }`. */
  datatype Seed = Seed(key: SeedKey, value: string)
}
