/** The request record the server dispatches on: its tokens and whether
    it has been read completely. */
module Message {
  import opened Bytes

  datatype Message = Message(tokens: seq<Bytes>, completed: bool)

  /** An empty, incomplete message. */
  function NewMessage(): (m: Message)
    ensures m.tokens == [] && !m.completed
  {
    Message([], false)
  }
}
