/** The chat message record. */
module Messages {

  /** Who wrote a message. The component tags replies with the string 'ai'. */
  datatype Sender = User | Ai

  /** One chat turn. `id` comes from the wall clock and is not unique in
      general; `timestamp` is a display string. */
  datatype Message = Message(id: int, text: string, timestamp: string, sender: Sender)
}
