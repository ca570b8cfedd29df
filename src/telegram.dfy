/** The shapes of the Telegram Bot API objects the handlers read: chats,
    users, messages and chat-member statuses. Only the fields the bot looks at
    are kept; a field the API may omit is an `Option`. */
module Telegram {
  import opened Wrappers

  type String = seq<char>

  datatype ChatType = Private | Group | Channel | Supergroup

  /** A chat; `title` is absent for private chats. */
  datatype Chat = Chat(id: int, chatType: ChatType, title: Option<String>)

  datatype User = User(id: int, firstName: String, lastName: Option<String>)

  /** The sizes of a photo, smallest first; the API never sends an empty list. */
  type PhotoSizes = s: seq<String> | |s| > 0 witness [[]]

  /** A message; `chatId` is the chat it was sent in and `photo` holds the
      file ids of the photo's sizes. */
  datatype Message = Message(
    messageId: int,
    chatId: int,
    text: Option<String>,
    caption: Option<String>,
    photo: Option<PhotoSizes>,
    forwardedFromChat: bool,
    mediaGroupId: Option<String>)
  {
    /** The message's caption is present and not empty (`m.caption` is truthy). */
    predicate HasCaption() {
      caption.Some? && caption.value != []
    }

    /** `caption || ''`. */
    function CaptionOrEmpty(): String {
      if HasCaption() then caption.value else []
    }
  }

  datatype MemberStatus = Creator | Administrator | Member | Restricted | Left | Kicked

  /** What a handler sees of an incoming update (`ctx.chat`, `ctx.from`,
      `ctx.message`); each may be absent. */
  datatype Update = Update(chat: Option<Chat>, from: Option<User>, message: Option<Message>)
  {
    predicate InChatOfType(t: ChatType) {
      chat.Some? && chat.value.chatType == t
    }
  }
}
