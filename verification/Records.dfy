/** The values that cross component boundaries: JIDs, stored chat rows and their IPC form. */
module Records {

  datatype Server = GroupServer | DefaultUserServer | LegacyUserServer | HiddenUserServer | OtherServer(name: string)

  datatype Jid = Jid(user: string, device: nat, server: Server) {
    function ToNonAD(): (r: Jid) {
      this.(device := 0)
    }
  }

  /** A row of the chats table. */
  datatype Chat = Chat(
    name: string,
    unread: int,
    archived: bool,
    pinned: bool,
    lastMessage: string,
    updatedAt: int,
    isGroup: bool,
    mutedUntil: int)

  /** A chat as the desktop client receives it. */
  datatype ProtoChat = ProtoChat(
    jid: Jid,
    name: string,
    unread: int,
    archived: bool,
    pinned: bool,
    lastMessage: string,
    updatedAt: int,
    isGroup: bool,
    mutedUntil: int)

  /** A client's row shows the stored row of j, column by column. */
  predicate Shows(row: ProtoChat, j: Jid, c: Chat) {
    && row.jid == j && row.name == c.name && row.unread == c.unread
    && row.archived == c.archived && row.pinned == c.pinned
    && row.lastMessage == c.lastMessage && row.updatedAt == c.updatedAt
    && row.isGroup == c.isGroup && row.mutedUntil == c.mutedUntil
  }

  function ToProtoChat(jid: Jid, c: Chat): (r: ProtoChat) {
    ProtoChat(jid, c.name, c.unread, c.archived, c.pinned, c.lastMessage, c.updatedAt, c.isGroup, c.mutedUntil)
  }
}
