/** The entries of a conversation: `src/providers/traits.rs`. */
module Messages {
  import opened Text

  datatype Role = System | User | Assistant | Tool

  datatype ChatMessage = ChatMessage(role: Role, content: string)

  datatype ToolCall = ToolCall(id: string, name: string, arguments: string)

  datatype ToolResult = ToolResult(toolCallId: string, content: string)

  /** One history entry. A call and the results that answer it are separate entries. */
  datatype Message =
    | Chat(chat: ChatMessage)
    | ToolCalls(text: Option<string>, calls: seq<ToolCall>)
    | ToolResults(results: seq<ToolResult>)

  predicate IsSystem(m: Message) {
    m.Chat? && m.chat.role == System
  }

  predicate IsUser(m: Message) {
    m.Chat? && m.chat.role == User
  }

  function SystemMessage(content: string): Message {
    Chat(ChatMessage(System, content))
  }

  function UserMessage(content: string): Message {
    Chat(ChatMessage(User, content))
  }

  function AssistantMessage(content: string): Message {
    Chat(ChatMessage(Assistant, content))
  }
}
