/** The channel table and the channel-management handlers
    (src/handlers/channelManagement.ts): how the bot's membership updates
    switch a row's active flag, and how `listChannels` pages and groups the
    active rows. The table is the `channel` relation of the database, keyed
    by its unique `chatId`. */
module Channels {
  import opened Wrappers
  import opened Telegram
  import JsString
  import Paging

  const ChannelsPerPage: nat := 10

  /** The `type` column: the handlers only ever store 'channel' or 'group'. */
  datatype StoredType = ChannelType | GroupType

  /** `registrationStatus`; `StatusUnset` stands for a row created without
      one, which gets the schema's default. */
  datatype RegistrationStatus = StatusUnset | Pending | Registered

  datatype ChannelRow = ChannelRow(
    id: nat,
    chatId: int,
    title: String,
    storedType: StoredType,
    isActive: bool,
    mahallahId: Option<nat>,
    registrationStatus: RegistrationStatus,
    addedByAdminId: Option<int>)
  {
    /** `channel.mahallahId` is truthy. */
    predicate HasMahallah() {
      mahallahId.Some? && mahallahId.value != 0
    }
  }

  /** `getChatTitle`: the chat's title, or "Chat <id>" when it has none. */
  function ChatTitle(chat: Chat): (title: String)
    ensures chat.title.Some? ==> title == chat.title.value
  {
    if chat.title.Some? then chat.title.value else "Chat " + JsString.IntToString(chat.id)
  }

  /** The fallback title names the chat: it reads back as the chat's id. */
  lemma UntitledChatNamedById(chat: Chat)
    requires chat.title.None?
    ensures JsString.StartsWith(ChatTitle(chat), "Chat ")
    ensures JsString.Number(ChatTitle(chat)[5..]) == JsString.Finite(chat.id)
  {
    var title := ChatTitle(chat);
    assert title[5..] == JsString.IntToString(chat.id);
    JsString.NumberOfIntToString(chat.id);
  }

  /** The type a new row gets: 'channel' for a channel, 'group' for any other
      chat type. */
  function StoredTypeOf(chatType: ChatType): (t: StoredType)
    ensures t == ChannelType <==> chatType == Channel
  {
    if chatType == Channel then ChannelType else GroupType
  }

  /** What `handleNewAdmin` replies. */
  datatype NewAdminReply = NoReply | AskForAdmin | Reactivated(title: String) | Connected(storedType: StoredType, title: String)

  class ChannelTable {
    var rows: map<int, ChannelRow>
    var nextId: nat

    /** Rows are keyed by their chat id and carry distinct ids below `nextId`. */
    predicate Valid()
      reads this
    {
      (forall k :: k in rows ==> rows[k].chatId == k && rows[k].id < nextId) &&
      (forall a, b :: a in rows && b in rows && a != b ==> rows[a].id != rows[b].id)
    }

    constructor()
      ensures rows == map[] && Valid()
    {
      rows := map[];
      nextId := 1;
    }

    /** `handleNewAdmin`: only an 'administrator' status acts. An inactive row
        is reactivated with the current title, an active row is left alone,
        and an unknown chat gets a new active row. */
    method HandleNewAdmin(chat: Chat, status: MemberStatus) returns (reply: NewAdminReply)
      requires Valid()
      modifies this
      ensures Valid()
      ensures status != Administrator ==>
        rows == old(rows) && reply == (if status == Member then AskForAdmin else NoReply)
      ensures status == Administrator && chat.id in old(rows) && old(rows)[chat.id].isActive ==>
        rows == old(rows) && reply == NoReply
      ensures status == Administrator && chat.id in old(rows) && !old(rows)[chat.id].isActive ==>
        rows == old(rows)[chat.id := old(rows)[chat.id].(isActive := true, title := ChatTitle(chat))]
        && reply == Reactivated(ChatTitle(chat))
      ensures status == Administrator && chat.id !in old(rows) ==>
        rows == old(rows)[chat.id := ChannelRow(old(nextId), chat.id, ChatTitle(chat), StoredTypeOf(chat.chatType),
                                            true, None, StatusUnset, None)]
        && reply == Connected(StoredTypeOf(chat.chatType), ChatTitle(chat))
    {
      if status != Administrator {
        reply := if status == Member then AskForAdmin else NoReply;
        return;
      }
      var title := ChatTitle(chat);
      if chat.id in rows {
        var existing := rows[chat.id];
        if !existing.isActive {
          rows := rows[chat.id := existing.(isActive := true, title := title)];
          reply := Reactivated(title);
        } else {
          reply := NoReply;
        }
      } else {
        rows := rows[chat.id := ChannelRow(nextId, chat.id, title, StoredTypeOf(chat.chatType), true, None, StatusUnset, None)];
        nextId := nextId + 1;
        reply := Connected(StoredTypeOf(chat.chatType), title);
      }
    }

    /** `handleLeftChat`: unless the new status is 'administrator', the
        active row of that chat becomes inactive; nothing is ever activated. */
    method HandleLeftChat(chatId: int, status: MemberStatus)
      requires Valid()
      modifies this
      ensures Valid() && nextId == old(nextId)
      ensures status == Administrator || chatId !in old(rows) || !old(rows)[chatId].isActive ==>
        rows == old(rows)
      ensures status != Administrator && chatId in old(rows) && old(rows)[chatId].isActive ==>
        rows == old(rows)[chatId := old(rows)[chatId].(isActive := false)]
    {
      if status == Administrator {
        return;
      }
      if chatId in rows && rows[chatId].isActive {
        rows := rows[chatId := rows[chatId].(isActive := false)];
      }
    }

    /** `removeChannel`: only an active row is acted on; the bot tries to
        leave the chat, and whether or not that succeeds (`leaveSucceeded`)
        the row becomes inactive. Returns the removed channel's title. */
    method RemoveChannel(chatId: int, leaveSucceeded: bool) returns (removed: Option<String>)
      requires Valid()
      modifies this
      ensures Valid() && nextId == old(nextId)
      ensures removed.Some? <==> chatId in old(rows) && old(rows)[chatId].isActive
      ensures removed.None? ==> rows == old(rows)
      ensures removed.Some? ==>
        removed.value == old(rows)[chatId].title
        && rows == old(rows)[chatId := old(rows)[chatId].(isActive := false)]
    {
      if chatId !in rows || !rows[chatId].isActive {
        return None;
      }
      var channel := rows[chatId];
      rows := rows[chatId := channel.(isActive := false)];
      return Some(channel.title);
    }
  }

  /** Whether a type heading goes before the `i`th row of a list: before the
      first row and wherever the type changes (`currentType !== channel.type`). */
  predicate HeaderAt(rows: seq<ChannelRow>, i: nat)
    requires i < |rows|
  {
    i == 0 || rows[i - 1].storedType != rows[i].storedType
  }

  /** Every row's type has a heading at or before the row. */
  lemma {:induction false} EveryTypeHeaded(rows: seq<ChannelRow>, i: nat)
    requires i < |rows|
    ensures exists j :: 0 <= j <= i && HeaderAt(rows, j) && rows[j].storedType == rows[i].storedType
  {
    if !HeaderAt(rows, i) {
      EveryTypeHeaded(rows, i - 1);
    }
  }

  function TypeRank(t: StoredType): nat {
    if t == ChannelType then 0 else 1
  }

  /** The database orders the rows by `type` ascending: 'channel' first. */
  predicate SortedByType(rows: seq<ChannelRow>) {
    forall i, j :: 0 <= i < j < |rows| ==> TypeRank(rows[i].storedType) <= TypeRank(rows[j].storedType)
  }

  /** In rows sorted by type each type gets one heading only. */
  lemma SortedRowsHeadEachTypeOnce(rows: seq<ChannelRow>, i: nat, j: nat)
    requires SortedByType(rows)
    requires i < j < |rows| && HeaderAt(rows, i) && HeaderAt(rows, j)
    ensures rows[i].storedType != rows[j].storedType
  {
    assert TypeRank(rows[i].storedType) <= TypeRank(rows[j - 1].storedType);
  }

  /** A line of the `listChannels` message. */
  datatype ListLine = TypeHeading(storedType: StoredType) | Item(title: String)

  /** The lines listing `rows`: a heading wherever `HeaderAt` says, then
      one line per row. */
  function Listing(rows: seq<ChannelRow>): seq<ListLine> {
    if rows == [] then []
    else
      var n := |rows| - 1;
      Listing(rows[..n]) + (if HeaderAt(rows, n) then [TypeHeading(rows[n].storedType)] else []) + [Item(rows[n].title)]
  }

  datatype NavLabel = First | Prev | Next | Last

  datatype ListButton = Remove(chatId: int) | Nav(direction: NavLabel, target: int)

  /** The loop of `listChannels` over one page of rows: the message lines and
      one remove button per row. */
  method ListPage(rows: seq<ChannelRow>) returns (lines: seq<ListLine>, keyboard: seq<seq<ListButton>>)
    ensures lines == Listing(rows)
    ensures |keyboard| == |rows|
    ensures forall i :: 0 <= i < |rows| ==> keyboard[i] == [Remove(rows[i].chatId)]
  {
    lines := [];
    keyboard := [];
    var currentType: Option<StoredType> := None;
    for i := 0 to |rows|
      invariant lines == Listing(rows[..i])
      invariant |keyboard| == i && forall k :: 0 <= k < i ==> keyboard[k] == [Remove(rows[k].chatId)]
      invariant currentType == if i == 0 then None else Some(rows[i - 1].storedType)
    {
      assert rows[..i + 1][..i] == rows[..i];
      if currentType != Some(rows[i].storedType) {
        lines := lines + [TypeHeading(rows[i].storedType)];
        currentType := Some(rows[i].storedType);
      }
      lines := lines + [Item(rows[i].title)];
      keyboard := keyboard + [[Remove(rows[i].chatId)]];
    }
    assert rows[..|rows|] == rows;
  }

  /** The navigation row of `listChannels`. */
  function ListNav(total: nat, page: nat): seq<ListButton> {
    var totalPages := Paging.CeilDiv(total, ChannelsPerPage);
    (if page > 0 then [Nav(First, 0), Nav(Prev, page - 1)] else [])
    + (if page + 1 < totalPages then [Nav(Next, page + 1), Nav(Last, totalPages - 1)] else [])
  }

  /** First and Prev appear exactly when there is an earlier page; Next and
      Last exactly when rows exist past this page, and Last leads to the page
      holding the last row. */
  lemma ListNavSpec(total: nat, page: nat)
    ensures (Nav(First, 0) in ListNav(total, page)) <==> page > 0
    ensures page > 0 ==> Nav(Prev, page - 1) in ListNav(total, page)
    ensures (Nav(Next, page + 1) in ListNav(total, page)) <==> (page + 1) * ChannelsPerPage < total
    ensures (Nav(Next, page + 1) in ListNav(total, page)) ==>
      var last := Paging.CeilDiv(total, ChannelsPerPage) - 1;
      Nav(Last, last) in ListNav(total, page) && last * ChannelsPerPage < total <= (last + 1) * ChannelsPerPage
  {
    var totalPages := Paging.CeilDiv(total, ChannelsPerPage);
    if page + 1 < totalPages {
      Paging.MulMonotone(page + 2, totalPages, ChannelsPerPage);
    } else if totalPages >= 1 {
      Paging.MulMonotone(totalPages, page + 1, ChannelsPerPage);
    }
  }

  datatype ListReply =
    | NoChannels
    | ChannelPage(lines: seq<ListLine>, keyboard: seq<seq<ListButton>>, pageNumber: nat, totalPages: nat)

  /** `listChannels(page)` over the active rows in the query's order. */
  method ListChannels(active: seq<ChannelRow>, page: nat) returns (reply: ListReply)
    ensures active == [] <==> reply == NoChannels
    ensures reply.ChannelPage? ==>
      var shown := Paging.Window(active, page * ChannelsPerPage, ChannelsPerPage);
      reply.lines == Listing(shown)
      && reply.pageNumber == page + 1
      && reply.totalPages == Paging.CeilDiv(|active|, ChannelsPerPage)
      && |reply.keyboard| == |shown| + (if ListNav(|active|, page) == [] then 0 else 1)
      && (forall i :: 0 <= i < |shown| ==> reply.keyboard[i] == [Remove(shown[i].chatId)])
      && (ListNav(|active|, page) != [] ==> reply.keyboard[|shown|] == ListNav(|active|, page))
  {
    if |active| == 0 {
      return NoChannels;
    }
    var shown := Paging.Window(active, page * ChannelsPerPage, ChannelsPerPage);
    var lines, keyboard := ListPage(shown);
    var nav := ListNav(|active|, page);
    if nav != [] {
      keyboard := keyboard + [nav];
    }
    reply := ChannelPage(lines, keyboard, page + 1, Paging.CeilDiv(|active|, ChannelsPerPage));
  }
}
