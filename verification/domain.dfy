/** The records the chat client exchanges with its realtime transport. */
module Domain {
  import opened Wrappers

  /** A received chat message; each property may be missing from the payload. */
  datatype ChatMessage = ChatMessage(
    userIcon: Option<string>,
    userNickname: Option<string>,
    body: Option<string>)

  datatype UserSettings = UserSettings(userNickname: Option<string>)

  /** One roster entry as the transport reports it. */
  datatype User = User(socketConnectionId: Option<string>, userSettings: Option<UserSettings>)

  /** The typing-presence payload: whether anyone types, and the connection ids of those who do. */
  datatype TypingPresence = TypingPresence(anyoneTyping: Option<bool>, usersTyping: Option<seq<string>>)

  /** The message built from the empty object `{}` when a message event carries no data. */
  const EmptyMessage := ChatMessage(None, None, None)

  /** The presence `{}` stored when a typing-presence event carries no data. */
  const EmptyPresence := TypingPresence(None, None)

  /** The presence the client starts with: nobody typing. */
  const InitialPresence := TypingPresence(Some(false), Some([]))

  /**
   * An inbound envelope, one variant per arm of the client's dispatch; the
   * payload of each is optional because `data` may be absent.
   */
  datatype Inbound =
    | MessageEvent(messageData: Option<ChatMessage>)
    | UserListEvent(users: Option<seq<User>>)
    | TypingPresenceEvent(presenceData: Option<TypingPresence>)
    | OtherEvent(kind: Option<string>)

  /** JavaScript truthiness of an optional string: present and not empty. */
  predicate Truthy(s: Option<string>) {
    s.Some? && s.value != ""
  }
}
