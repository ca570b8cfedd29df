/** The deep-link registration wizard (src/handlers/safeMahallahRegistration.ts):
    when the bot becomes an admin of a chat it marks the chat's row pending
    and posts a link `?start=connect_<chatId>_<userId>`; whoever opens it in a
    private chat, if an admin of that chat, picks a region, a district and a
    mahallah, and the row is then registered to that mahallah.

    `getChatMember` is the input `isChatAdmin` (whether the current user is
    the creator or an administrator of the chat); the regions, districts and
    mahallahs are the read-only `Geography`. */
module Registration {
  import opened Wrappers
  import opened Telegram
  import opened JsString
  import opened Sessions
  import opened Channels

  /** Region ids, each district's region and each mahallah's district. */
  datatype Geography = Geography(regions: set<int>, districts: map<int, int>, mahallahs: map<nat, int>)

  const Prefix: String := "connect_"

  /** The deep-link payload `connect_${chat.id}_${from.id}`. */
  function Payload(chatId: int, userId: int): String {
    Prefix + IntToString(chatId) + "_" + IntToString(userId)
  }

  /** How `handleStartWithPayload` reads a payload. */
  datatype ParsedPayload = NotConnect | Malformed | Connect(chatPart: String, adminPart: String)

  function ParsePayload(payload: String): ParsedPayload {
    if !StartsWith(payload, Prefix) then NotConnect
    else
      var parts := Split(payload, '_');
      if |parts| != 3 then Malformed else Connect(parts[1], parts[2])
  }

  /** A payload built from two integer ids splits back into those two ids:
      decimal numerals, a leading '-' included, hold no '_'. */
  lemma PayloadRoundTrip(chatId: int, userId: int)
    ensures ParsePayload(Payload(chatId, userId)) == Connect(IntToString(chatId), IntToString(userId))
    ensures Number(ParsePayload(Payload(chatId, userId)).chatPart) == Finite(chatId)
    ensures Number(ParsePayload(Payload(chatId, userId)).adminPart) == Finite(userId)
  {
    IntToStringHasNoSeparator(chatId, '_');
    IntToStringHasNoSeparator(userId, '_');
    SplitPayload(IntToString(chatId), IntToString(userId));
    NumberOfIntToString(chatId);
    NumberOfIntToString(userId);
  }

  lemma SplitPayload(a: String, b: String)
    requires '_' !in a && '_' !in b
    ensures StartsWith(Prefix + a + "_" + b, Prefix)
    ensures Split(Prefix + a + "_" + b, '_') == ["connect", a, b]
  {
    var p := Prefix + a + "_" + b;
    assert p[..|Prefix|] == Prefix;
    assert p == "connect" + ['_'] + (a + ['_'] + b) by {
      assert Prefix == "connect" + ['_'];
    }
    assert '_' !in "connect" by {
      assert forall i :: 0 <= i < |"connect"| ==> "connect"[i] != '_';
    }
    SplitAfterPiece("connect", '_', a + ['_'] + b);
    SplitAfterPiece(a, '_', b);
    SplitNoSeparator(b, '_');
  }

  /** `first_name` and, when truthy, a space and `last_name`. */
  function AdminName(user: User): (name: String)
    ensures StartsWith(name, user.firstName)
    ensures |name| == |user.firstName| ==> user.lastName.None? || user.lastName.value == []
  {
    user.firstName + (if user.lastName.Some? && user.lastName.value != [] then " " + user.lastName.value else "")
  }

  /** The answers of `handleStartWithPayload`. */
  datatype StartReply =
    | NotHandled
    | BadLink
    | NotChatAdmin
    | StartFailed
    | ChannelMissing
    | AlreadyRegistered
    | AskRegion(data: RegistrationData)

  /** `handleStartWithPayload(ctx, payload)` for the user `user`: returns
      false (`NotHandled`) only for a payload that is not a connect link. */
  function Start(payload: String, user: User, isChatAdmin: bool, rows: map<int, ChannelRow>): StartReply {
    match ParsePayload(payload)
    case NotConnect => NotHandled
    case Malformed => BadLink
    case Connect(chatPart, _) =>
      if !isChatAdmin then NotChatAdmin
      else
        match Number(chatPart)
        case NaN => StartFailed
        case Finite(chatId) =>
          if chatId !in rows then ChannelMissing
          else if rows[chatId].HasMahallah() then AlreadyRegistered
          else AskRegion(RegistrationData(chatId, user.id, AdminName(user), RegionStep, None, None))
  }

  /** A session is started exactly for a well-formed link opened by an admin
      of a known chat that has no mahallah yet; it starts at the region step,
      for the link's chat and with the current user as the admin. */
  lemma StartSpec(payload: String, user: User, isChatAdmin: bool, rows: map<int, ChannelRow>)
    ensures Start(payload, user, isChatAdmin, rows) == NotHandled <==> !StartsWith(payload, Prefix)
    ensures StartsWith(payload, Prefix) && Count(payload, '_') != 2 ==> Start(payload, user, isChatAdmin, rows) == BadLink
    ensures Start(payload, user, isChatAdmin, rows).AskRegion? <==>
      ParsePayload(payload).Connect? && isChatAdmin
      && Number(ParsePayload(payload).chatPart).Finite?
      && Number(ParsePayload(payload).chatPart).value in rows
      && !rows[Number(ParsePayload(payload).chatPart).value].HasMahallah()
    ensures Start(payload, user, isChatAdmin, rows).AskRegion? ==>
      var data := Start(payload, user, isChatAdmin, rows).data;
      Finite(data.chatId) == Number(ParsePayload(payload).chatPart)
      && data.adminId == user.id && data.step == RegionStep
      && data.regionId.None? && data.districtId.None?
  {
  }

  /** The admin id written into a link is never used: a link works the same
      whoever it was made for, so the reminders' links (made for the user 0)
      work like the links posted when the bot is added. */
  lemma LinkAdminIgnored(chatId: int, a: int, b: int, user: User, isChatAdmin: bool, rows: map<int, ChannelRow>)
    ensures Start(Payload(chatId, a), user, isChatAdmin, rows) == Start(Payload(chatId, b), user, isChatAdmin, rows)
  {
    var p, q := Payload(chatId, a), Payload(chatId, b);
    PayloadRoundTrip(chatId, a);
    PayloadRoundTrip(chatId, b);
    StartByChatPart(p, q, user, isChatAdmin, rows);
  }

  /** `Start` reads only the chat part of a connect link. */
  lemma StartByChatPart(p: String, q: String, user: User, isChatAdmin: bool, rows: map<int, ChannelRow>)
    requires ParsePayload(p).Connect? && ParsePayload(q).Connect?
    requires ParsePayload(p).chatPart == ParsePayload(q).chatPart
    ensures Start(p, user, isChatAdmin, rows) == Start(q, user, isChatAdmin, rows)
  {
  }

  /** The link of an unregistered chat, opened by an admin of the chat,
      starts the wizard for that chat. */
  lemma LinkStartsWizard(chatId: int, linkAdmin: int, user: User, rows: map<int, ChannelRow>)
    requires chatId in rows && !rows[chatId].HasMahallah()
    ensures Start(Payload(chatId, linkAdmin), user, true, rows) ==
      AskRegion(RegistrationData(chatId, user.id, AdminName(user), RegionStep, None, None))
  {
    PayloadRoundTrip(chatId, linkAdmin);
  }

  /** `handleStartWithPayload`: the reply, whether it was handled, and the
      session's new registration data. */
  method HandleStartWithPayload(session: Session, payload: String, user: User, isChatAdmin: bool, table: ChannelTable)
    returns (handled: bool, reply: StartReply)
    modifies session
    ensures reply == Start(payload, user, isChatAdmin, table.rows)
    ensures handled <==> reply != NotHandled
    ensures session.registrationData == if reply.AskRegion? then Some(reply.data) else old(session.registrationData)
    ensures session.pendingPost == old(session.pendingPost) && session.editingActivity == old(session.editingActivity)
  {
    reply := Start(payload, user, isChatAdmin, table.rows);
    handled := reply != NotHandled;
    if reply.AskRegion? {
      session.registrationData := Some(reply.data);
    }
  }

  /** The number at the second `:`-separated place of a callback's data,
      read with `parseInt` (NaN when there is none). */
  function CallbackId(data: String): Num {
    var parts := Split(data, ':');
    if |parts| >= 2 then ParseInt(parts[1]) else NaN
  }

  /** The answers of the three selection callbacks. */
  datatype StepReply =
    | SessionExpired
    | NotAnAdmin
    | NotFound
    | RegionChosen(regionId: int)
    | DistrictChosen(districtId: int)

  /** `handleRegionSelectionSafe`: the reply and the new registration data. */
  function RegionSelection(data: Option<RegistrationData>, isChatAdmin: bool, geo: Geography, id: Num)
    : (StepReply, Option<RegistrationData>)
  {
    if data.None? then (SessionExpired, data)
    else if !isChatAdmin then (NotAnAdmin, data)
    else if id.NaN? || id.value !in geo.regions then (NotFound, data)
    else (RegionChosen(id.value), Some(data.value.(regionId := Some(id.value), step := DistrictStep)))
  }

  /** `handleDistrictSelectionSafe`: the reply and the new registration data. */
  function DistrictSelection(data: Option<RegistrationData>, isChatAdmin: bool, geo: Geography, id: Num)
    : (StepReply, Option<RegistrationData>)
  {
    if data.None? then (SessionExpired, data)
    else if !isChatAdmin then (NotAnAdmin, data)
    else if id.NaN? || id.value !in geo.districts then (NotFound, data)
    else (DistrictChosen(id.value), Some(data.value.(districtId := Some(id.value), step := MahallahStep)))
  }

  /** A selection without a session, by a non-admin or of an unknown place
      changes nothing; otherwise it records the choice and moves the step on,
      keeping the chat, the admin and the earlier choices. The step the
      session is at is never consulted. */
  lemma SelectionSpec(data: Option<RegistrationData>, isChatAdmin: bool, geo: Geography, id: Num, step: RegistrationStep)
    ensures data.None? ==>
      RegionSelection(data, isChatAdmin, geo, id) == (SessionExpired, None)
      && DistrictSelection(data, isChatAdmin, geo, id) == (SessionExpired, None)
    ensures RegionSelection(data, isChatAdmin, geo, id).0.RegionChosen? <==>
      data.Some? && isChatAdmin && id.Finite? && id.value in geo.regions
    ensures DistrictSelection(data, isChatAdmin, geo, id).0.DistrictChosen? <==>
      data.Some? && isChatAdmin && id.Finite? && id.value in geo.districts
    ensures !RegionSelection(data, isChatAdmin, geo, id).0.RegionChosen? ==> RegionSelection(data, isChatAdmin, geo, id).1 == data
    ensures !DistrictSelection(data, isChatAdmin, geo, id).0.DistrictChosen? ==> DistrictSelection(data, isChatAdmin, geo, id).1 == data
    ensures RegionSelection(data, isChatAdmin, geo, id).0.RegionChosen? ==>
      var next := RegionSelection(data, isChatAdmin, geo, id).1.value;
      next.step == DistrictStep && next.regionId == Some(id.value)
      && next.chatId == data.value.chatId && next.adminId == data.value.adminId && next.districtId == data.value.districtId
    ensures DistrictSelection(data, isChatAdmin, geo, id).0.DistrictChosen? ==>
      var next := DistrictSelection(data, isChatAdmin, geo, id).1.value;
      next.step == MahallahStep && next.districtId == Some(id.value)
      && next.chatId == data.value.chatId && next.adminId == data.value.adminId && next.regionId == data.value.regionId
    ensures data.Some? ==>
      RegionSelection(Some(data.value.(step := step)), isChatAdmin, geo, id).0 == RegionSelection(data, isChatAdmin, geo, id).0
      && DistrictSelection(Some(data.value.(step := step)), isChatAdmin, geo, id).0 == DistrictSelection(data, isChatAdmin, geo, id).0
  {
  }

  method HandleRegionSelection(session: Session, isChatAdmin: bool, geo: Geography, callbackData: String)
    returns (reply: StepReply)
    modifies session
    ensures (reply, session.registrationData) ==
      RegionSelection(old(session.registrationData), isChatAdmin, geo, CallbackId(callbackData))
    ensures session.pendingPost == old(session.pendingPost) && session.editingActivity == old(session.editingActivity)
  {
    var next;
    reply, next := RegionSelection(session.registrationData, isChatAdmin, geo, CallbackId(callbackData)).0,
                   RegionSelection(session.registrationData, isChatAdmin, geo, CallbackId(callbackData)).1;
    session.registrationData := next;
  }

  method HandleDistrictSelection(session: Session, isChatAdmin: bool, geo: Geography, callbackData: String)
    returns (reply: StepReply)
    modifies session
    ensures (reply, session.registrationData) ==
      DistrictSelection(old(session.registrationData), isChatAdmin, geo, CallbackId(callbackData))
    ensures session.pendingPost == old(session.pendingPost) && session.editingActivity == old(session.editingActivity)
  {
    var next;
    reply, next := DistrictSelection(session.registrationData, isChatAdmin, geo, CallbackId(callbackData)).0,
                   DistrictSelection(session.registrationData, isChatAdmin, geo, CallbackId(callbackData)).1;
    session.registrationData := next;
  }

  /** An `adminConfirmation` row. */
  datatype AdminConfirmation = AdminConfirmation(mahallahId: nat, channelId: nat, adminUserId: int, adminName: String)

  /** The `adminConfirmation` table. */
  class ConfirmationLog {
    var records: seq<AdminConfirmation>

    constructor()
      ensures records == []
    {
      records := [];
    }
  }

  datatype FinishReply = FinishExpired | FinishNotAdmin | MahallahMissing | FinishFailed | Completed(mahallahId: nat)

  /** The chosen mahallah, when the callback names a known one. */
  function ChosenMahallah(geo: Geography, id: Num): Option<nat> {
    if id.Finite? && id.value >= 0 && id.value in geo.mahallahs then Some(id.value) else None
  }

  /** The row a registration turns `row` into. */
  function RegisteredRow(row: ChannelRow, mahallahId: nat, adminId: int): (r: ChannelRow)
    ensures r.chatId == row.chatId && r.id == row.id && r.isActive == row.isActive && r.title == row.title
    ensures r.registrationStatus == Registered && r.addedByAdminId == Some(adminId)
    ensures r.mahallahId == Some(mahallahId) && (mahallahId != 0 ==> r.HasMahallah())
  {
    row.(mahallahId := Some(mahallahId), registrationStatus := Registered, addedByAdminId := Some(adminId))
  }

  /** `handleMahallahSelectionSafe`: the chosen mahallah is written to the
      session's chat row, which becomes registered to the session's admin;
      one confirmation is recorded and the session ends. A session whose chat
      has no row fails at the update and changes nothing. `finalEditOk` is
      whether Telegram accepts the closing answer and the legacy-Markdown
      edit of the message; when either throws, the writes stand but the
      session keeps its registration data. */
  method HandleMahallahSelection(session: Session, table: ChannelTable, log: ConfirmationLog,
                                 isChatAdmin: bool, geo: Geography, callbackData: String, finalEditOk: bool)
    returns (reply: FinishReply)
    requires table.Valid()
    modifies session, table, log
    ensures table.Valid() && table.nextId == old(table.nextId)
    ensures session.pendingPost == old(session.pendingPost) && session.editingActivity == old(session.editingActivity)
    ensures reply.Completed? <==>
      old(session.registrationData).Some? && isChatAdmin
      && ChosenMahallah(geo, CallbackId(callbackData)).Some?
      && old(session.registrationData).value.chatId in old(table.rows)
    ensures !reply.Completed? ==>
      table.rows == old(table.rows) && log.records == old(log.records)
      && session.registrationData == old(session.registrationData)
    ensures old(session.registrationData).None? ==> reply == FinishExpired
    ensures reply.Completed? ==>
      var data := old(session.registrationData).value;
      var row := old(table.rows)[data.chatId];
      reply.mahallahId == ChosenMahallah(geo, CallbackId(callbackData)).value
      && table.rows == old(table.rows)[data.chatId := RegisteredRow(row, reply.mahallahId, data.adminId)]
      && log.records == old(log.records) + [AdminConfirmation(reply.mahallahId, row.id, data.adminId, data.adminName)]
      && (session.registrationData == None <==> finalEditOk)
      && (!finalEditOk ==> session.registrationData == old(session.registrationData))
  {
    if session.registrationData.None? {
      return FinishExpired;
    }
    var data := session.registrationData.value;
    if !isChatAdmin {
      return FinishNotAdmin;
    }
    var chosen := ChosenMahallah(geo, CallbackId(callbackData));
    if chosen.None? {
      return MahallahMissing;
    }
    if data.chatId !in table.rows {
      return FinishFailed;
    }
    var row := table.rows[data.chatId];
    table.rows := table.rows[data.chatId := RegisteredRow(row, chosen.value, data.adminId)];
    log.records := log.records + [AdminConfirmation(chosen.value, row.id, data.adminId, data.adminName)];
    if finalEditOk {
      session.registrationData := None;
    }
    reply := Completed(chosen.value);
  }

  /** What `handleBotAddedSafe` replies. */
  datatype AddedReply = AddedSilently | AskToPromote | AlreadyConnected | RegisterLink(payload: String)

  /** `handleBotAddedSafe`: as an administrator the bot marks the chat's row
      pending (creating it if needed) and posts the registration link, unless
      the chat is already registered to a mahallah; any other status writes
      nothing. */
  method HandleBotAddedSafe(table: ChannelTable, chat: Chat, status: MemberStatus, from: User)
    returns (reply: AddedReply)
    requires table.Valid()
    modifies table
    ensures table.Valid()
    ensures status != Administrator ==>
      table.rows == old(table.rows) && reply == (if status == Member then AskToPromote else AddedSilently)
    ensures status == Administrator && chat.id in old(table.rows) && old(table.rows)[chat.id].HasMahallah() ==>
      table.rows == old(table.rows) && reply == AlreadyConnected
    ensures status == Administrator && chat.id in old(table.rows) && !old(table.rows)[chat.id].HasMahallah() ==>
      table.rows == old(table.rows)[chat.id := old(table.rows)[chat.id].(isActive := true, title := ChatTitle(chat), registrationStatus := Pending)]
      && reply == RegisterLink(Payload(chat.id, from.id))
    ensures status == Administrator && chat.id !in old(table.rows) ==>
      table.rows == old(table.rows)[chat.id := ChannelRow(old(table.nextId), chat.id, ChatTitle(chat),
                                              StoredTypeOf(chat.chatType), true, None, Pending, None)]
      && reply == RegisterLink(Payload(chat.id, from.id))
  {
    if status != Administrator {
      reply := if status == Member then AskToPromote else AddedSilently;
      return;
    }
    if chat.id in table.rows && table.rows[chat.id].HasMahallah() {
      return AlreadyConnected;
    }
    var title := ChatTitle(chat);
    if chat.id in table.rows {
      var existing := table.rows[chat.id];
      table.rows := table.rows[chat.id := existing.(isActive := true, title := title, registrationStatus := Pending)];
    } else {
      table.rows := table.rows[chat.id := ChannelRow(table.nextId, chat.id, title, StoredTypeOf(chat.chatType), true, None, Pending, None)];
      table.nextId := table.nextId + 1;
    }
    reply := RegisterLink(Payload(chat.id, from.id));
  }

  /** `sendRegistrationReminder(bot, chatId)`: the link it posts, if any. */
  function Reminder(rows: map<int, ChannelRow>, chatId: int): Option<String> {
    if chatId !in rows || rows[chatId].HasMahallah() then None else Some(Payload(chatId, 0))
  }

  /** No reminder goes to an unknown or registered chat; the reminder of any
      other chat, opened by one of its admins, starts the wizard for it. */
  lemma ReminderSpec(rows: map<int, ChannelRow>, chatId: int, user: User)
    ensures Reminder(rows, chatId).None? <==> chatId !in rows || rows[chatId].HasMahallah()
    ensures Reminder(rows, chatId).Some? ==>
      Start(Reminder(rows, chatId).value, user, true, rows) ==
        AskRegion(RegistrationData(chatId, user.id, AdminName(user), RegionStep, None, None))
  {
    if Reminder(rows, chatId).Some? {
      LinkStartsWizard(chatId, 0, user, rows);
    }
  }

  /** After a completed registration the same link is refused as already
      registered, and no reminder is sent. */
  lemma RegisteredChatClosed(rows: map<int, ChannelRow>, chatId: int, mahallahId: nat, adminId: int,
                             linkAdmin: int, user: User)
    requires chatId in rows && mahallahId != 0
    ensures var after := rows[chatId := RegisteredRow(rows[chatId], mahallahId, adminId)];
      Start(Payload(chatId, linkAdmin), user, true, after) == AlreadyRegistered
      && Reminder(after, chatId) == None
  {
    PayloadRoundTrip(chatId, linkAdmin);
  }
}
