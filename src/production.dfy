/** The production wiring in src/index.PRODUCTION.ts: `isAdmin` guards only
    the texts that start with an admin command, `/register` starts the
    in-group registration, and the keyboard grows the admin-panel buttons.
    The message handler, the album buffer and `processMediaGroup` are the
    ones of src/index.ts (module `Bot`) with one more keyboard text. */
module Production {
  import opened Wrappers
  import opened Telegram
  import opened JsString
  import opened Bot
  import Auth

  /** `adminCommands` */
  const AdminCommands: seq<String> := ["menu", "post", "channels", "activities", "admin", "stats", "mahallahs", "report"]

  /** `adminCommands.some(cmd => text.startsWith(`/${cmd}`))` */
  predicate IsAdminCommandText(text: String) {
    exists k :: 0 <= k < |AdminCommands| && StartsWith(text, ['/'] + AdminCommands[k])
  }

  /** The update is a text message that starts with an admin command. */
  predicate AdminText(u: Update) {
    u.message.Some? && u.message.value.text.Some? && IsAdminCommandText(u.message.value.text.value)
  }

  /** The middleware of lines 46-60: `isAdmin` for admin-command texts,
      `next()` for everything else. */
  function Gate(adminIds: seq<Num>, u: Update): Auth.Gate {
    if AdminText(u) then Auth.IsAdmin(adminIds, u) else Auth.Next
  }

  /** Only an admin-command text can be stopped; one is let through exactly
      when its sender is a listed admin, and the refusal answers only in a
      private chat. */
  lemma GateSpec(adminIds: seq<Num>, u: Update)
    ensures !AdminText(u) ==> Gate(adminIds, u) == Auth.Next
    ensures AdminText(u) && !u.InChatOfType(Channel) ==>
      (Gate(adminIds, u) == Auth.Next <==> Auth.Listed(adminIds, u))
    ensures Gate(adminIds, u).Refused? ==>
      AdminText(u) && (Gate(adminIds, u).repliedInPrivate <==> u.InChatOfType(Private))
  {
    Auth.IsAdminSpec(adminIds, u);
    if AdminText(u) {
      var text := u.message.value.text.value;
      SlashFirst(text);
      assert text[..1] == "/";
      assert Auth.IsCommand(u.message);
    }
  }

  /** An admin-command text starts with a slash. */
  lemma SlashFirst(text: String)
    ensures IsAdminCommandText(text) ==> text != [] && text[0] == '/'
  {
    if IsAdminCommandText(text) {
      var k :| 0 <= k < |AdminCommands| && StartsWith(text, ['/'] + AdminCommands[k]);
      assert text[0] == (['/'] + AdminCommands[k])[0];
    }
  }

  /** The test is a prefix test: anything that merely starts with an admin
      command, such as `/posts` or `/reports`, is guarded too. */
  lemma PrefixGated(k: nat, rest: String)
    requires k < |AdminCommands|
    ensures IsAdminCommandText(['/'] + AdminCommands[k] + rest)
  {
    var text := ['/'] + AdminCommands[k] + rest;
    assert text[..|['/'] + AdminCommands[k]|] == ['/'] + AdminCommands[k];
  }

  lemma LongerWordsGated()
    ensures IsAdminCommandText("/posts") && IsAdminCommandText("/reports")
  {
    PrefixGated(1, "s");
    assert ['/'] + AdminCommands[1] + "s" == "/posts";
    PrefixGated(7, "s");
    assert ['/'] + AdminCommands[7] + "s" == "/reports";
  }

  lemma NotPrefix(text: String, p: String, i: nat)
    requires i < |p| && i < |text| && text[i] != p[i]
    ensures !StartsWith(text, p)
  {
    assert |p| > |text| || text[..|p|][i] != p[i];
  }

  /** `/start`, `/register` and `/cleanup` are not guarded. */
  lemma OpenCommands()
    ensures !IsAdminCommandText("/start")
    ensures !IsAdminCommandText("/register")
    ensures !IsAdminCommandText("/cleanup")
  {
    forall k | 0 <= k < |AdminCommands|
      ensures !StartsWith("/start", ['/'] + AdminCommands[k])
      ensures !StartsWith("/register", ['/'] + AdminCommands[k])
      ensures !StartsWith("/cleanup", ['/'] + AdminCommands[k])
    {
      var p := ['/'] + AdminCommands[k];
      assert p[1..] == AdminCommands[k];
      // The first letters are m, p, c, a, a, s, m, r.
      if k == 2 {
        NotPrefix("/start", p, 1);
        NotPrefix("/register", p, 1);
        NotPrefix("/cleanup", p, 2);
      } else if k == 5 {
        NotPrefix("/start", p, 4);
        NotPrefix("/register", p, 1);
        NotPrefix("/cleanup", p, 1);
      } else if k == 7 {
        NotPrefix("/start", p, 1);
        NotPrefix("/register", p, 3);
        NotPrefix("/cleanup", p, 1);
      } else {
        NotPrefix("/start", p, 1);
        NotPrefix("/register", p, 1);
        NotPrefix("/cleanup", p, 1);
      }
    }
  }

  /* ---------------------------------------------------------------------- */
  /* Handlers in registration order                                          */

  const Commands: seq<Handler> := [
    Command("start", MainMenu, NoAction),
    Command("menu", MainMenu, NoAction),
    Command("channels", ChannelList, NoAction),
    Command("activities", ActivityLog, NoAction),
    Command("cleanup", Cleanup, NoAction),
    Command("admin", AdminPanel, NoAction),
    Command("stats", Statistics, NoAction),
    Command("mahallahs", MahallahStatus, NoAction),
    Command("report", ExcelReport, NoAction)]

  /** `/register`: refused in a private chat, the registration elsewhere. */
  const Register: Handler := Command("register", RegisterRefused, GroupRegistration)

  const Keyboard: seq<Handler> := [
    Hears("📢 Kanallar", ChannelList, NoAction),
    Hears("📋 Faoliyat", ActivityLog, NoAction),
    Hears("ℹ️ Yordam", MainMenu, NoAction),
    Hears("👨‍💼 Admin Panel", AdminPanel, NoAction),
    Hears("📊 Statistika", Statistics, NoAction),
    Hears("🗺️ Mahallalar holati", MahallahStatus, NoAction),
    Hears("📥 Excel Hisobot", ExcelReport, NoAction),
    Hears("📋 Kontent statistikasi", ContentStatistics, NoAction),
    Hears("🔙 Orqaga", MainMenu, NoAction)]

  /** The keyboard texts the message handler passes on (line 254). */
  const Buttons: seq<String> := ["✏️ Yangi Post", "📢 Kanallar", "📋 Faoliyat", "ℹ️ Yordam", "👨‍💼 Admin Panel"]

  const Ahead: seq<Handler> := Commands + [Register] + Keyboard

  const Chain: seq<Handler> := Ahead + [OnAnyMessage(Buttons), PostCommand, PostButton]

  /** An update behind a given gate. */
  function RouteWith(gate: Auth.Gate, u: Update, editing: bool, me: String): Option<Route> {
    if gate.Refused? then Some(Denied(gate.repliedInPrivate))
    else if u.chat.None? || u.message.None? then None
    else Dispatch(Chain, u.chat.value.chatType, editing, u.message.value, me)
  }

  /** An update as src/index.PRODUCTION.ts routes it. */
  function RouteUpdate(adminIds: seq<Num>, u: Update, editing: bool, me: String): Option<Route> {
    RouteWith(Gate(adminIds, u), u, editing, me)
  }

  /** `/register` reaches its handler from anyone: refused in a private
      chat, the in-group registration elsewhere. */
  lemma RegisterRouting(adminIds: seq<Num>, u: Update, editing: bool, me: String)
    requires u.chat.Some? && u.message.Some? && u.message.value.text == Some("/register")
    ensures RouteUpdate(adminIds, u, editing, me)
         == Some(if u.InChatOfType(Private) then RegisterRefused else GroupRegistration)
  {
    OpenCommands();
    RegisterFound(u.chat.value.chatType, editing, u.message.value, me);
  }

  lemma RegisterFound(t: ChatType, editing: bool, m: Message, me: String)
    requires m.text == Some("/register")
    ensures Dispatch(Chain, t, editing, m, me) == Some(if t == Private then RegisterRefused else GroupRegistration)
  {
    SlashRegister(me);
    CommandsMiss(t, editing, m, me);
    DispatchAppend(Commands, [Register], t, editing, m, me);
    DispatchAppend(Commands + [Register], Keyboard, t, editing, m, me);
    DispatchAppend(Ahead, [OnAnyMessage(Buttons), PostCommand, PostButton], t, editing, m, me);
  }

  lemma SlashRegister(me: String)
    ensures CommandName("/register", me) == Some("register")
  {
    assert IsCommandWord("register");
    CommandOfWord("register", [], me);
    assert ['/'] + "register" + [] == "/register";
  }

  lemma CommandsMiss(t: ChatType, editing: bool, m: Message, me: String)
    requires m.text.Some? && CommandName(m.text.value, me) == Some("register")
    ensures Dispatch(Commands, t, editing, m, me) == None
  {
    NoneMatches(Commands, t, editing, m, me);
  }

  /** A text that is not a command and not a keyboard text. */
  predicate PlainText(text: String) {
    text != [] && text[0] != '/'
    && forall k :: 0 <= k < |Keyboard| ==> Keyboard[k].text != text
  }

  lemma AheadMissesPlainText(t: ChatType, editing: bool, m: Message, me: String)
    requires m.text.Some? && PlainText(m.text.value)
    ensures Dispatch(Ahead, t, editing, m, me) == None
  {
    forall k | 0 <= k < |Ahead|
      ensures !Matches(Ahead[k], m, me)
    {
      if k >= |Commands| + 1 {
        assert Ahead[k] == Keyboard[k - |Commands| - 1];
      }
    }
    NoneMatches(Ahead, t, editing, m, me);
  }

  /** As written, anyone who writes a plain text to the bot in a private
      chat starts a post, listed admin or not: the guard looks at admin
      commands only and the posting handler checks nobody. */
  lemma AnyoneStartsAPost(adminIds: seq<Num>, u: Update, me: String)
    requires u.InChatOfType(Private) && u.message.Some?
    requires u.message.value.text.Some? && PlainText(u.message.value.text.value)
    requires u.message.value.text.value !in Buttons
    requires !InAlbum(u.message.value) && !u.message.value.forwardedFromChat
    ensures RouteUpdate(adminIds, u, false, me) == Some(Handled(DirectPost))
  {
    var m := u.message.value;
    SlashFirst(m.text.value);
    AheadMissesPlainText(Private, false, m, me);
    DispatchAppend(Ahead, [OnAnyMessage(Buttons), PostCommand, PostButton], Private, false, m, me);
  }

  /** The guard as evidently intended: every update in a private chat goes
      through `isAdmin`, as in src/index.ts, and elsewhere only the
      admin-command texts do. */
  function IntendedGate(adminIds: seq<Num>, u: Update): Auth.Gate {
    if u.InChatOfType(Private) || AdminText(u) then Auth.IsAdmin(adminIds, u) else Auth.Next
  }

  /** Behind the intended guard nobody but a listed admin gets past a
      private chat, so nobody else can post; listed admins, groups and
      channels are routed exactly as before. */
  lemma IntendedGateStopsStrangers(adminIds: seq<Num>, u: Update, editing: bool, me: String)
    ensures u.InChatOfType(Private) && !Auth.Listed(adminIds, u) ==>
      RouteWith(IntendedGate(adminIds, u), u, editing, me) == Some(Denied(true))
    ensures u.InChatOfType(Private) && Auth.Listed(adminIds, u) ==>
      RouteWith(IntendedGate(adminIds, u), u, editing, me) == RouteUpdate(adminIds, u, editing, me)
    ensures !u.InChatOfType(Private) ==> IntendedGate(adminIds, u) == Gate(adminIds, u)
  {
    Auth.IsAdminSpec(adminIds, u);
    GateSpec(adminIds, u);
  }

  /** The `/post` command is registered after the message handler here too,
      so it never shows its prompt. */
  lemma SlashPostNeverPrompts(adminIds: seq<Num>, u: Update, editing: bool, me: String)
    requires u.message.Some? && IsSlashPost(u.message.value)
    ensures RouteUpdate(adminIds, u, editing, me) != Some(PostPrompt)
  {
    if u.chat.Some? {
      ChainOnSlashPost(u.chat.value.chatType, editing, u.message.value, me);
    }
  }

  lemma ChainOnSlashPost(t: ChatType, editing: bool, m: Message, me: String)
    requires IsSlashPost(m)
    ensures Dispatch(Chain, t, editing, m, me)
         == Some(if t == Private then Handled(HandleMessage(Private, editing, m, Buttons)) else NoAction)
  {
    AheadMissesSlashPost(t, editing, m, me);
    SlashPostNotAButton();
    PostAfterMessages(Ahead, Buttons, t, editing, m, me);
  }

  lemma SlashPostNotAButton()
    ensures "/post" !in Buttons
  {
  }

  lemma AheadMissesSlashPost(t: ChatType, editing: bool, m: Message, me: String)
    requires IsSlashPost(m)
    ensures Dispatch(Ahead, t, editing, m, me) == None
  {
    SlashPostIsPost(m, me);
    forall k | 0 <= k < |Ahead|
      ensures !Matches(Ahead[k], m, me)
    {
      if k >= |Commands| + 1 {
        assert Ahead[k] == Keyboard[k - |Commands| - 1];
      }
    }
    NoneMatches(Ahead, t, editing, m, me);
  }
}
