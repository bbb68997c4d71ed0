/** Conversation histories and the memories that stand in for archived prefixes of them. */
module History {
  import opened Wrappers

  datatype Transition = Created(task: string) | Ended(task: string)

  /** What a frame reports about its remaining capacity inside a tool result. */
  datatype Report = Report(remaining: int, permitted: bool)

  datatype Content = Answered(answer: string, report: Option<Report>) | Errored(reason: string)

  datatype Arguments = Arguments(memoryId: Option<string>, question: Option<string>)

  datatype Turn =
    | User(text: string)
    | Assistant(text: string)
    | Call(id: string, name: string, arguments: Arguments)
    | Result(callId: string, name: string, content: Content, transitions: seq<Transition>)
    | Memory(tombstone: Tombstone)

  datatype Tombstone = Tombstone(
    id: string, summary: string, messages: seq<Turn>, remaining: seq<Turn>, inner: Option<Tombstone>)

  /** What stays visible once a memory replaces a prefix. */
  function ActiveContext(memory: Tombstone): seq<Turn> { [Memory(memory)] + memory.remaining }

  /** What a recall of this memory may read: its own messages behind the memory nested in it. */
  function RecallSource(memory: Tombstone): seq<Turn> {
    (if memory.inner.Some? then [Memory(memory.inner.value)] else []) + memory.messages
  }

  /** A history without memory turns. */
  predicate Plain(items: seq<Turn>) { forall i | i in items :: !i.Memory? }
}
