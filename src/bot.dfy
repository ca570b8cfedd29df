/** The bot's wiring in src/index.ts: the chain of handlers Telegraf tries in
    the order they were registered, the catch-all message handler that decides
    what an admin's private message is, the buffer that collects the messages
    of an album, and `processMediaGroup`, which turns a collected album into
    one post.

    Timers are not modelled: a flush is the moment the album's timer fires,
    and the caller says which album it is. */
module Bot {
  import opened Wrappers
  import opened Telegram
  import opened JsString
  import opened StableSort
  import Auth

  /* ---------------------------------------------------------------------- */
  /* processMediaGroup                                                       */

  /** The comparator `(a, b) => a.message_id - b.message_id`. */
  function ById(m: Message): int {
    m.messageId
  }

  /** `messages.sort(...)`, an insertion sort in place that agrees with the
      stable sort of the messages by ascending id. */
  method SortById(a: array<Message>)
    modifies a
    ensures a[..] == Sort(old(a[..]), ById)
  {
    ghost var original := a[..];
    var i := 0;
    while i < a.Length
      invariant 0 <= i <= a.Length
      invariant a[..i] == Sort(original[..i], ById)
      invariant forall t :: i <= t < a.Length ==> a[t] == original[t]
    {
      SortedPrefix(original, i);
      InsertInto(a, i);
      i := i + 1;
    }
    assert a[..] == a[..a.Length] && original == original[..a.Length];
  }

  lemma SortedPrefix(s: seq<Message>, i: nat)
    requires i < |s|
    ensures SortedBy(Sort(s[..i], ById), ById)
    ensures Sort(s[..i + 1], ById) == Insert(Sort(s[..i], ById), s[i], ById)
  {
    SortIsSortedPermutation(s[..i], ById);
    assert s[..i + 1][..i] == s[..i];
  }

  /** One step of the sort: the greater messages of the sorted prefix move
      one place right and `a[i]` goes into the gap. */
  method InsertInto(a: array<Message>, i: nat)
    requires i < a.Length && SortedBy(a[..i], ById)
    modifies a
    ensures a[..i + 1] == Insert(old(a[..i]), old(a[i]), ById)
    ensures forall t :: i < t < a.Length ==> a[t] == old(a[t])
  {
    var x := a[i];
    ghost var sorted := a[..i];
    var j := i;
    while j > 0 && a[j - 1].messageId > x.messageId
      invariant 0 <= j <= i
      invariant forall t :: 0 <= t < j ==> a[t] == sorted[t]
      invariant forall t :: j < t <= i ==> a[t] == sorted[t - 1]
      invariant forall t :: j <= t < i ==> x.messageId < sorted[t].messageId
      invariant forall t :: i < t < a.Length ==> a[t] == old(a[t])
    {
      a[j] := a[j - 1];
      j := j - 1;
    }
    a[j] := x;
    PlacedAt(sorted, x, j, a[..i + 1]);
  }

  /** Shifting the greater elements of a sorted prefix one place right and
      putting `x` in the gap is inserting `x`. */
  lemma PlacedAt(sorted: seq<Message>, x: Message, j: nat, placed: seq<Message>)
    requires SortedBy(sorted, ById) && j <= |sorted| && |placed| == |sorted| + 1
    requires forall t :: 0 <= t < j ==> placed[t] == sorted[t]
    requires placed[j] == x
    requires forall t :: j < t <= |sorted| ==> placed[t] == sorted[t - 1]
    requires j == 0 || sorted[j - 1].messageId <= x.messageId
    requires forall t :: j <= t < |sorted| ==> x.messageId < sorted[t].messageId
    ensures placed == Insert(sorted, x, ById)
  {
    InsertAt(sorted, x, j, ById);
    assert placed == sorted[..j] + [x] + sorted[j..] by {
      forall t | 0 <= t < |placed|
        ensures placed[t] == (sorted[..j] + [x] + sorted[j..])[t]
      {
      }
    }
  }

  /** The index of the first message with a (truthy) caption. */
  function FirstCaptioned(s: seq<Message>): (r: Option<nat>)
    ensures r.Some? ==> r.value < |s| && s[r.value].HasCaption()
    ensures r.Some? ==> forall j :: 0 <= j < r.value ==> !s[j].HasCaption()
    ensures r.None? <==> forall j :: 0 <= j < |s| ==> !s[j].HasCaption()
  {
    if s == [] then None
    else if s[0].HasCaption() then Some(0)
    else
      var rest := FirstCaptioned(s[1..]);
      if rest.None? then
        assert forall j :: 1 <= j < |s| ==> s[j] == s[1..][j - 1];
        None
      else
        assert forall j :: 1 <= j < rest.value + 1 ==> s[j] == s[1..][j - 1];
        Some(rest.value + 1)
  }

  /** `messages.find(m => m.caption) || messages[0]`: absent only for an
      empty album. */
  function MainMessage(s: seq<Message>): (main: Option<Message>)
    ensures main.None? <==> s == []
    ensures main.Some? ==> main.value in s
  {
    var k := FirstCaptioned(s);
    if k.Some? then Some(s[k.value])
    else if s != [] then Some(s[0])
    else None
  }

  /** One entry of `media_group`: the largest size's file id and the
      caption or `''`. */
  datatype PhotoEntry = PhotoEntry(media: String, caption: String)

  function EntryOf(m: Message): PhotoEntry
    requires m.photo.Some?
  {
    PhotoEntry(m.photo.value[|m.photo.value| - 1], m.CaptionOrEmpty())
  }

  /** The number of messages that carry a photo. */
  function PhotoCount(s: seq<Message>): nat {
    if s == [] then 0 else (if s[0].photo.Some? then 1 else 0) + PhotoCount(s[1..])
  }

  /** What one message contributes to `media_group`. */
  function EntriesOf(m: Message): seq<PhotoEntry> {
    if m.photo.Some? then [EntryOf(m)] else []
  }

  /** `messages.map(...).filter(Boolean)`: photo messages become entries and
      every other message is dropped. */
  function MediaEntries(s: seq<Message>): (entries: seq<PhotoEntry>)
    ensures |entries| == PhotoCount(s) <= |s|
  {
    if s == [] then [] else EntriesOf(s[0]) + MediaEntries(s[1..])
  }

  /** The album handed to the posting handler. */
  datatype MediaGroup = MediaGroup(main: Option<Message>, entries: seq<PhotoEntry>)

  /** `processMediaGroup`: sorts the array in place, then builds the album
      from the sorted messages. */
  method ProcessMediaGroup(messages: array<Message>) returns (group: MediaGroup)
    modifies messages
    ensures messages[..] == Sort(old(messages[..]), ById)
    ensures group == MediaGroup(MainMessage(messages[..]), MediaEntries(messages[..]))
  {
    SortById(messages);
    var sorted := messages[..];
    group := MediaGroup(MainMessage(sorted), MediaEntries(sorted));
  }

  /** The main message is the first captioned message when there is one and
      the first message otherwise. */
  lemma MainMessageChoice(s: seq<Message>)
    requires s != []
    ensures (exists i :: 0 <= i < |s| && s[i].HasCaption()) ==>
      exists i :: 0 <= i < |s| && MainMessage(s) == Some(s[i]) && s[i].HasCaption()
        && forall j :: 0 <= j < i ==> !s[j].HasCaption()
    ensures (forall i :: 0 <= i < |s| ==> !s[i].HasCaption()) ==> MainMessage(s) == Some(s[0])
  {
    var k := FirstCaptioned(s);
    if k.Some? {
      assert MainMessage(s) == Some(s[k.value]);
    }
  }

  lemma {:induction false} MediaEntriesAppend(a: seq<Message>, b: seq<Message>)
    ensures MediaEntries(a + b) == MediaEntries(a) + MediaEntries(b)
  {
    if a == [] {
      assert a + b == b;
    } else {
      var ab := a + b;
      assert ab[0] == a[0] && ab[1..] == a[1..] + b;
      MediaEntriesAppend(a[1..], b);
    }
  }

  /** Each photo message gives exactly one entry, in the album's order: the
      message at `i` gives the entry after those of the photo messages
      before it. */
  lemma EntriesFollowMessages(s: seq<Message>, i: nat)
    requires i < |s| && s[i].photo.Some?
    ensures PhotoCount(s[..i]) < |MediaEntries(s)|
    ensures MediaEntries(s)[PhotoCount(s[..i])] == EntryOf(s[i])
  {
    assert s == s[..i] + s[i..];
    MediaEntriesAppend(s[..i], s[i..]);
    assert s[i..][1..] == s[i + 1..];
  }

  /** An album made only of photos gives one entry per message, in order. */
  lemma {:induction false} AllPhotos(s: seq<Message>)
    requires forall i :: 0 <= i < |s| ==> s[i].photo.Some?
    ensures |MediaEntries(s)| == |s|
    ensures forall i :: 0 <= i < |s| ==> MediaEntries(s)[i] == EntryOf(s[i])
  {
    if s != [] {
      AllPhotos(s[1..]);
    }
  }

  /** The posted album is sorted by id, holds the same messages, and keeps
      the arrival order of messages with equal ids. */
  lemma SortedAlbum(s: seq<Message>, id: int)
    ensures SortedBy(Sort(s, ById), ById)
    ensures multiset(Sort(s, ById)) == multiset(s)
    ensures WithKey(Sort(s, ById), ById, id) == WithKey(s, ById, id)
  {
    SortIsSortedPermutation(s, ById);
    SortIsStable(s, ById, id);
  }

  /* ---------------------------------------------------------------------- */
  /* mediaGroupBuffer                                                        */

  /** The album id a message belongs to, when `media_group_id` is truthy. */
  predicate InAlbum(m: Message) {
    m.mediaGroupId.Some? && m.mediaGroupId.value != []
  }

  /** The buffer after `m` arrives: appended to its album's messages, or a
      fresh one-message album. */
  function Buffered(groups: map<String, seq<Message>>, m: Message): (after: map<String, seq<Message>>)
    requires InAlbum(m)
    ensures after.Keys == groups.Keys + {m.mediaGroupId.value}
  {
    var id := m.mediaGroupId.value;
    groups[id := (if id in groups then groups[id] else []) + [m]]
  }

  /** Every album in the buffer is non-empty and holds only its own messages. */
  predicate WellFormed(groups: map<String, seq<Message>>) {
    forall id :: id in groups ==>
      groups[id] != [] && forall k :: 0 <= k < |groups[id]| ==> groups[id][k].mediaGroupId == Some(id)
  }

  /** Adding a message keeps the buffer well formed, keeps every other album
      as it was, and puts the message last in its own album. */
  lemma BufferedWellFormed(groups: map<String, seq<Message>>, m: Message)
    requires WellFormed(groups) && InAlbum(m)
    ensures WellFormed(Buffered(groups, m))
    ensures var id := m.mediaGroupId.value;
      var album := Buffered(groups, m)[id];
      album[|album| - 1] == m && album[..|album| - 1] == (if id in groups then groups[id] else [])
    ensures forall other :: other in groups && other != m.mediaGroupId.value ==>
      Buffered(groups, m)[other] == groups[other]
  {
  }

  /** Messages of two albums never mix: buffering a sequence of messages
      leaves in each album exactly the messages with its id, in arrival
      order. */
  function BufferAll(groups: map<String, seq<Message>>, ms: seq<Message>): map<String, seq<Message>>
    requires forall k :: 0 <= k < |ms| ==> InAlbum(ms[k])
    decreases |ms|
  {
    if ms == [] then groups else BufferAll(Buffered(groups, ms[0]), ms[1..])
  }

  /** The messages of `ms` that belong to album `id`, in order. */
  function OfAlbum(ms: seq<Message>, id: String): seq<Message> {
    if ms == [] then []
    else (if ms[0].mediaGroupId == Some(id) then [ms[0]] else []) + OfAlbum(ms[1..], id)
  }

  lemma {:induction false} BufferAllCollects(groups: map<String, seq<Message>>, ms: seq<Message>, id: String)
    requires forall k :: 0 <= k < |ms| ==> InAlbum(ms[k])
    ensures var before := if id in groups then groups[id] else [];
      var after := BufferAll(groups, ms);
      (id in after || before + OfAlbum(ms, id) != []) ==>
        id in after && after[id] == before + OfAlbum(ms, id)
    decreases |ms|
  {
    if ms != [] {
      var next := Buffered(groups, ms[0]);
      BufferAllCollects(next, ms[1..], id);
      if ms[0].mediaGroupId == Some(id) {
        assert OfAlbum(ms, id) == [ms[0]] + OfAlbum(ms[1..], id);
        assert next[id] == (if id in groups then groups[id] else []) + [ms[0]];
      } else {
        assert OfAlbum(ms, id) == OfAlbum(ms[1..], id);
      }
    }
  }

  /** `mediaGroupBuffer`: the albums being collected, keyed by
      `media_group_id`. */
  class MediaGroupBuffer {
    var groups: map<String, seq<Message>>

    predicate Valid()
      reads this
    {
      WellFormed(groups)
    }

    constructor()
      ensures groups == map[] && Valid()
    {
      groups := map[];
    }

    /** A message of album `id` arrives (src/index.ts:191-218). */
    method Add(m: Message)
      requires Valid() && InAlbum(m)
      modifies this
      ensures Valid()
      ensures groups == Buffered(old(groups), m)
    {
      BufferedWellFormed(groups, m);
      var id := m.mediaGroupId.value;
      if id in groups {
        groups := groups[id := groups[id] + [m]];
      } else {
        groups := groups[id := [m]];
      }
    }

    /** The album's timer fires: its entry is removed and its messages
        handed back; an album with no entry gives nothing and changes
        nothing. */
    method Flush(id: String) returns (messages: Option<seq<Message>>)
      requires Valid()
      modifies this
      ensures Valid()
      ensures groups == old(groups) - {id}
      ensures messages.Some? <==> id in old(groups)
      ensures messages.Some? ==> messages.value == old(groups)[id] && messages.value != []
    {
      if id in groups {
        messages := Some(groups[id]);
        groups := groups - {id};
      } else {
        messages := None;
      }
    }

    /** The timer callback: flush the album and, if it was there, process it. */
    method OnTimeout(id: String) returns (posted: Option<MediaGroup>)
      requires Valid()
      modifies this
      ensures Valid()
      ensures groups == old(groups) - {id}
      ensures posted.None? <==> id !in old(groups)
      ensures posted.Some? ==>
        posted.value == MediaGroup(MainMessage(Sort(old(groups)[id], ById)),
                                   MediaEntries(Sort(old(groups)[id], ById)))
      ensures posted.Some? ==> posted.value.main.Some?
    {
      var messages := Flush(id);
      if messages.None? {
        return None;
      }
      var a := new Message[|messages.value|](k requires 0 <= k < |messages.value| => messages.value[k]);
      assert a[..] == messages.value;
      var group := ProcessMediaGroup(a);
      SortIsSortedPermutation(messages.value, ById);
      posted := Some(group);
    }
  }

  /* ---------------------------------------------------------------------- */
  /* The catch-all message handler                                           */

  /** What the message handler does with a message. */
  datatype MessageRoute =
    | PassOn               // `next()`: later handlers get the message
    | EditActivity         // `activityHandler.handleEdit`
    | BufferMedia(id: String)
    | ForwardPost          // `postingHandler.handleForward`
    | DirectPost           // `postingHandler.handleDirectPost`

  /** `bot.on('message', ...)`; `buttons` are the keyboard texts it leaves to
      the `hears` handlers. */
  function HandleMessage(chatType: ChatType, editing: bool, m: Message, buttons: seq<String>): MessageRoute {
    if chatType != Private then PassOn
    else if editing then EditActivity
    else if m.text.Some? && m.text.value in buttons then PassOn
    else if InAlbum(m) then BufferMedia(m.mediaGroupId.value)
    else if m.forwardedFromChat then ForwardPost
    else if m.text.Some? || m.photo.Some? then DirectPost
    else PassOn
  }

  /** The order in which the message handler's cases win: editing first,
      then keyboard texts, then albums, forwards and plain posts. */
  lemma Precedence(chatType: ChatType, editing: bool, m: Message, buttons: seq<String>)
    ensures var r := HandleMessage(chatType, editing, m, buttons);
      (r == EditActivity <==> chatType == Private && editing)
      && (r.BufferMedia? <==>
            (chatType == Private && !editing && InAlbum(m) && !(m.text.Some? && m.text.value in buttons)))
      && (r.BufferMedia? ==> r.id == m.mediaGroupId.value)
      && (r == ForwardPost <==>
            (chatType == Private && !editing && !InAlbum(m) && m.forwardedFromChat
             && !(m.text.Some? && m.text.value in buttons)))
      && (r == DirectPost ==> chatType == Private && !editing && !InAlbum(m) && !m.forwardedFromChat)
      && (m.text.Some? && m.text.value in buttons && !editing ==> r == PassOn)
  {
  }

  /** The message handler for one message: an album message goes into the
      buffer, and nothing else touches it. */
  method OnMessage(buffer: MediaGroupBuffer, chatType: ChatType, editing: bool, m: Message, buttons: seq<String>)
    returns (route: MessageRoute)
    requires buffer.Valid()
    modifies buffer
    ensures buffer.Valid()
    ensures route == HandleMessage(chatType, editing, m, buttons)
    ensures route.BufferMedia? ==> buffer.groups == Buffered(old(buffer.groups), m)
    ensures !route.BufferMedia? ==> buffer.groups == old(buffer.groups)
  {
    route := HandleMessage(chatType, editing, m, buttons);
    if route.BufferMedia? {
      buffer.Add(m);
    }
  }

  /* ---------------------------------------------------------------------- */
  /* Handlers in registration order                                          */

  /** What an update ends up doing. */
  datatype Route =
    | Denied(repliedInPrivate: bool)   // `isAdmin` stopped it
    | NoAction                         // a handler took it and returned at once
    | MainMenu | ChannelList | ActivityLog | Cleanup | PostPrompt
    | AdminPanel | Statistics | MahallahStatus | ExcelReport | ContentStatistics
    | RegisterRefused | GroupRegistration
    | Handled(step: MessageRoute)      // the message handler took it

  /** A registered handler: `bot.command`, `bot.hears` or the message
      handler, with what a command or text does in a private chat and
      elsewhere. */
  datatype Handler =
    | Command(name: String, inPrivate: Route, elsewhere: Route)
    | Hears(text: String, inPrivate: Route, elsewhere: Route)
    | OnAnyMessage(buttons: seq<String>)

  /** A character Telegram lets a command name or a bot's username hold. */
  predicate IsCommandChar(c: char) {
    'a' <= c <= 'z' || 'A' <= c <= 'Z' || '0' <= c <= '9' || c == '_'
  }

  /** The longest prefix of `s` made of command characters. */
  function CommandRun(s: String): (w: String)
    ensures |w| <= |s| && w == s[..|w|]
    ensures forall k :: 0 <= k < |w| ==> IsCommandChar(w[k])
    ensures |w| < |s| ==> !IsCommandChar(s[|w|])
  {
    if s == [] || !IsCommandChar(s[0]) then []
    else
      var rest := CommandRun(s[1..]);
      assert forall k :: 1 <= k < |rest| + 1 ==> ([s[0]] + rest)[k] == rest[k - 1];
      [s[0]] + rest
  }

  /** A run of command characters is read whole, up to what follows it. */
  lemma {:induction false} WholeRun(w: String, rest: String)
    requires forall k :: 0 <= k < |w| ==> IsCommandChar(w[k])
    requires rest == [] || !IsCommandChar(rest[0])
    ensures CommandRun(w + rest) == w
  {
    var r := CommandRun(w + rest);
    assert r == (w + rest)[..|w|];
  }

  /** A character after which Telegram does not end a command: another
      word character, a slash or an angle bracket. */
  predicate ContinuesCommand(c: char) {
    IsCommandChar(c) || c == '/' || c == '<' || c == '>'
  }

  /** A `bot_command` entity at the start of a text: the name after the
      slash and the bot username after an `@`, if any. */
  datatype CommandEntity = CommandEntity(name: String, mention: Option<String>)

  /** The `bot_command` entity Telegram marks at offset 0: a slash, 1 to 64
      command characters, optionally `@` and a username of 3 to 32 of them,
      and then the end of the text or a character that does not continue
      the command. */
  function LeadingCommand(text: String): (e: Option<CommandEntity>)
    ensures e.Some? ==>
      1 <= |e.value.name| <= 64 && 1 + |e.value.name| <= |text| && text[..1 + |e.value.name|] == ['/'] + e.value.name
    ensures e.Some? && e.value.mention.Some? ==> 3 <= |e.value.mention.value| <= 32
  {
    if text == [] || text[0] != '/' then None
    else
      var name := CommandRun(text[1..]);
      var after := text[1 + |name|..];
      if |name| == 0 || |name| > 64 then None
      else if after != [] && after[0] == '@' then
        var mention := CommandRun(after[1..]);
        var rest := after[1 + |mention|..];
        if |mention| < 3 || |mention| > 32 then None
        else if rest != [] && ContinuesCommand(rest[0]) then None
        else Some(CommandEntity(name, Some(mention)))
      else if after != [] && ContinuesCommand(after[0]) then None
      else Some(CommandEntity(name, None))
  }

  /** The command a text invokes for the bot named `me`: the name of the
      leading `bot_command` entity, unless it is addressed to another bot. */
  function CommandName(text: String, me: String): Option<String> {
    match LeadingCommand(text)
    case None => None
    case Some(e) => if e.mention.None? || e.mention == Some(me) then Some(e.name) else None
  }

  /** A valid command name. */
  predicate IsCommandWord(w: String) {
    1 <= |w| <= 64 && forall k :: 0 <= k < |w| ==> IsCommandChar(w[k])
  }

  /** A slash and a command name, followed by the end of the text or by a
      character that is neither a word character, `@`, a slash nor an angle
      bracket, invokes that name, for every bot. */
  lemma CommandOfWord(w: String, rest: String, me: String)
    requires IsCommandWord(w)
    requires rest == [] || (!ContinuesCommand(rest[0]) && rest[0] != '@')
    ensures CommandName(['/'] + w + rest, me) == Some(w)
    ensures LeadingCommand(['/'] + w + rest) == Some(CommandEntity(w, None))
  {
    var text := ['/'] + w + rest;
    assert text[1..] == w + rest;
    WholeRun(w, rest);
    assert text[1 + |w|..] == rest;
  }

  /** A slash, a command name, `@` and a username: the command is the bot's
      exactly when the username is the bot's own. */
  lemma CommandOfMention(w: String, bot: String, me: String)
    requires IsCommandWord(w) && 3 <= |bot| <= 32
    requires forall k :: 0 <= k < |bot| ==> IsCommandChar(bot[k])
    ensures CommandName(['/'] + w + ['@'] + bot, me) == if bot == me then Some(w) else None
  {
    var text := ['/'] + w + ['@'] + bot;
    assert text[1..] == w + (['@'] + bot);
    WholeRun(w, ['@'] + bot);
    var after := text[1 + |w|..];
    assert after == ['@'] + bot;
    assert after[1..] == bot + [];
    WholeRun(bot, []);
    assert after[1 + |bot|..] == [];
  }

  /** Telegram ends a command at a hyphen: `/post-x` invokes `post`. */
  lemma HyphenEndsCommand(me: String)
    ensures CommandName("/post-x", me) == Some("post")
  {
    assert IsCommandWord("post");
    CommandOfWord("post", "-x", me);
    assert ['/'] + "post" + "-x" == "/post-x";
  }

  lemma PostIsCommandWord() ensures IsCommandWord("post") {}
  lemma OtherBotIsUsername() ensures forall k :: 0 <= k < |"other_bot"| ==> IsCommandChar("other_bot"[k]) {}

  /** A command addressed to another bot is passed on. */
  lemma OtherBotsCommandIgnored(me: String)
    requires me != "other_bot"
    ensures CommandName(['/'] + "post" + ['@'] + "other_bot", me) == None
  {
    PostIsCommandWord();
    OtherBotIsUsername();
    CommandOfMention("post", "other_bot", me);
  }

  /** The same command addressed to the bot itself is its own. */
  lemma OwnMentionAccepted()
    ensures CommandName(['/'] + "post" + ['@'] + "other_bot", "other_bot") == Some("post")
  {
    PostIsCommandWord();
    OtherBotIsUsername();
    CommandOfMention("post", "other_bot", "other_bot");
  }

  predicate Matches(h: Handler, m: Message, me: String) {
    match h
    case Command(name, _, _) => m.text.Some? && CommandName(m.text.value, me) == Some(name)
    case Hears(text, _, _) => m.text == Some(text)
    case OnAnyMessage(_) => true
  }

  /** Telegraf's middleware chain for a message: the first handler that
      matches takes it, and only the message handler ever passes it on;
      `None` when no handler takes it. */
  function Dispatch(chain: seq<Handler>, chatType: ChatType, editing: bool, m: Message, me: String): Option<Route>
    decreases |chain|
  {
    if chain == [] then None
    else if !Matches(chain[0], m, me) then Dispatch(chain[1..], chatType, editing, m, me)
    else match chain[0]
      case OnAnyMessage(buttons) =>
        var r := HandleMessage(chatType, editing, m, buttons);
        if r.PassOn? then Dispatch(chain[1..], chatType, editing, m, me) else Some(Handled(r))
      case _ => Some(if chatType == Private then chain[0].inPrivate else chain[0].elsewhere)
  }

  /** Trying two chains one after the other. */
  lemma {:induction false} DispatchAppend(a: seq<Handler>, b: seq<Handler>, chatType: ChatType, editing: bool, m: Message, me: String)
    ensures Dispatch(a + b, chatType, editing, m, me)
      == if Dispatch(a, chatType, editing, m, me).None? then Dispatch(b, chatType, editing, m, me)
         else Dispatch(a, chatType, editing, m, me)
  {
    if a == [] {
      assert a + b == b;
    } else {
      assert (a + b)[0] == a[0] && (a + b)[1..] == a[1..] + b;
      DispatchAppend(a[1..], b, chatType, editing, m, me);
      if a[0].OnAnyMessage? && Matches(a[0], m, me) {
        var r := HandleMessage(chatType, editing, m, a[0].buttons);
        assert Dispatch(a, chatType, editing, m, me) == if r.PassOn? then Dispatch(a[1..], chatType, editing, m, me) else Some(Handled(r));
      }
    }
  }

  /** A chain none of whose handlers matches passes the message on. */
  lemma {:induction false} NoneMatches(chain: seq<Handler>, chatType: ChatType, editing: bool, m: Message, me: String)
    requires forall k :: 0 <= k < |chain| ==> !Matches(chain[k], m, me)
    ensures Dispatch(chain, chatType, editing, m, me) == None
  {
    if chain != [] {
      NoneMatches(chain[1..], chatType, editing, m, me);
    }
  }

  /** Outside a private chat the message handler never takes a message, so
      nothing is edited, buffered or posted there. */
  lemma {:induction false} NothingHandledOutsidePrivate(chain: seq<Handler>, chatType: ChatType, editing: bool, m: Message, me: String)
    requires chatType != Private
    ensures var r := Dispatch(chain, chatType, editing, m, me);
      r.Some? ==> exists k :: 0 <= k < |chain| && !chain[k].OnAnyMessage? && r.value == chain[k].elsewhere
  {
    if chain != [] {
      NothingHandledOutsidePrivate(chain[1..], chatType, editing, m, me);
      var r := Dispatch(chain, chatType, editing, m, me);
      if r.Some? {
        if Matches(chain[0], m, me) && !chain[0].OnAnyMessage? {
          assert r.value == chain[0].elsewhere;
        } else {
          var k :| 0 <= k < |chain[1..]| && !chain[1..][k].OnAnyMessage? && r.value == chain[1..][k].elsewhere;
          assert chain[1..][k] == chain[k + 1];
        }
      }
    }
  }

  /** Moving a command ahead of the message handler changes the route of
      that command's messages only. */
  lemma CommandAheadOfMessages(before: seq<Handler>, buttons: seq<String>, cmd: Handler, after: seq<Handler>,
                               chatType: ChatType, editing: bool, m: Message, me: String)
    requires cmd.Command? && !Matches(cmd, m, me)
    ensures Dispatch(before + [cmd, OnAnyMessage(buttons)] + after, chatType, editing, m, me)
         == Dispatch(before + [OnAnyMessage(buttons), cmd] + after, chatType, editing, m, me)
  {
    DispatchAppend(before + [cmd, OnAnyMessage(buttons)], after, chatType, editing, m, me);
    DispatchAppend(before + [OnAnyMessage(buttons), cmd], after, chatType, editing, m, me);
    DispatchAppend(before, [cmd, OnAnyMessage(buttons)], chatType, editing, m, me);
    DispatchAppend(before, [OnAnyMessage(buttons), cmd], chatType, editing, m, me);
  }

  /* ---------------------------------------------------------------------- */
  /* src/index.ts                                                            */

  /** The keyboard texts the message handler leaves to `hears`. */
  const Buttons: seq<String> := ["✏️ Yangi Post", "📢 Kanallar", "📋 Faoliyat", "ℹ️ Yordam"]

  /** The commands and texts registered before the message handler. */
  const Ahead: seq<Handler> := [
    Command("start", MainMenu, NoAction),
    Command("menu", MainMenu, NoAction),
    Command("channels", ChannelList, NoAction),
    Command("activities", ActivityLog, NoAction),
    Command("cleanup", Cleanup, NoAction),
    Hears("📢 Kanallar", ChannelList, NoAction),
    Hears("📋 Faoliyat", ActivityLog, NoAction),
    Hears("ℹ️ Yordam", MainMenu, NoAction)]

  /** `/post` and the new-post button, registered after the message handler. */
  const PostCommand: Handler := Command("post", PostPrompt, NoAction)
  const PostButton: Handler := Hears("✏️ Yangi Post", PostPrompt, NoAction)

  /** The chain as registered in src/index.ts. */
  const Chain: seq<Handler> := Ahead + [OnAnyMessage(Buttons), PostCommand, PostButton]

  /** The chain with `/post` registered before the message handler. */
  const IntendedChain: seq<Handler> := Ahead + [PostCommand, OnAnyMessage(Buttons), PostButton]

  /** An update as src/index.ts routes it: `isAdmin` first, then the
      handlers in order. */
  function RouteUpdate(adminIds: seq<Num>, u: Update, editing: bool, chain: seq<Handler>, me: String): Option<Route> {
    var gate := Auth.IsAdmin(adminIds, u);
    if gate.Refused? then Some(Denied(gate.repliedInPrivate))
    else if u.chat.None? || u.message.None? then None
    else Dispatch(chain, u.chat.value.chatType, editing, u.message.value, me)
  }

  predicate IsSlashPost(m: Message) {
    m.text == Some("/post")
  }

  lemma SlashPostIsPost(m: Message, me: String)
    requires IsSlashPost(m)
    ensures Matches(PostCommand, m, me) && CommandName(m.text.value, me) == Some("post")
  {
    assert IsCommandWord("post");
    CommandOfWord("post", [], me);
    assert ['/'] + "post" + [] == "/post";
  }

  lemma AheadMissesSlashPost(chatType: ChatType, editing: bool, m: Message, me: String)
    requires IsSlashPost(m)
    ensures Dispatch(Ahead, chatType, editing, m, me) == None
  {
    SlashPostIsPost(m, me);
    NoneMatches(Ahead, chatType, editing, m, me);
  }

  /** With the message handler registered before `/post`, the handler sees
      `/post` first: in a private chat it takes it, elsewhere it passes it on
      to the command, which does nothing there. */
  lemma PostAfterMessages(ahead: seq<Handler>, buttons: seq<String>, chatType: ChatType, editing: bool, m: Message, me: String)
    requires IsSlashPost(m) && m.text.value !in buttons
    requires Dispatch(ahead, chatType, editing, m, me) == None
    ensures Dispatch(ahead + [OnAnyMessage(buttons), PostCommand, PostButton], chatType, editing, m, me)
         == Some(if chatType == Private then Handled(HandleMessage(Private, editing, m, buttons)) else NoAction)
  {
    SlashPostIsPost(m, me);
    var tail := [OnAnyMessage(buttons), PostCommand, PostButton];
    DispatchAppend(ahead, tail, chatType, editing, m, me);
    var r := HandleMessage(chatType, editing, m, buttons);
    assert chatType == Private <==> !r.PassOn?;
    assert tail[1..] == [PostCommand, PostButton];
    assert Dispatch(tail[1..], chatType, editing, m, me) == Some(NoAction) || chatType == Private;
  }

  /** With `/post` registered before the message handler, `/post` shows the
      prompt in a private chat and does nothing elsewhere. */
  lemma PostBeforeMessages(ahead: seq<Handler>, buttons: seq<String>, chatType: ChatType, editing: bool, m: Message, me: String)
    requires IsSlashPost(m)
    requires Dispatch(ahead, chatType, editing, m, me) == None
    ensures Dispatch(ahead + [PostCommand, OnAnyMessage(buttons), PostButton], chatType, editing, m, me)
         == Some(if chatType == Private then PostPrompt else NoAction)
  {
    SlashPostIsPost(m, me);
    var tail := [PostCommand, OnAnyMessage(buttons), PostButton];
    DispatchAppend(ahead, tail, chatType, editing, m, me);
    assert Dispatch(tail, chatType, editing, m, me) == Some(if chatType == Private then PostPrompt else NoAction);
  }

  /** As registered, `/post` never shows the new-post prompt: in a private
      chat the message handler takes it first (as a text to post, or as the
      edit of an activity), and elsewhere the command does nothing. */
  lemma SlashPostNeverPrompts(adminIds: seq<Num>, u: Update, editing: bool, me: String)
    requires u.message.Some? && IsSlashPost(u.message.value)
    ensures RouteUpdate(adminIds, u, editing, Chain, me) != Some(PostPrompt)
    ensures (u.InChatOfType(Private) && !editing && !InAlbum(u.message.value) && !u.message.value.forwardedFromChat
             && Auth.IsAdmin(adminIds, u) == Auth.Next) ==> RouteUpdate(adminIds, u, editing, Chain, me) == Some(Handled(DirectPost))
  {
    if u.chat.Some? {
      ChainOnSlashPost(u.chat.value.chatType, editing, u.message.value, me);
    }
  }

  lemma ChainOnSlashPost(chatType: ChatType, editing: bool, m: Message, me: String)
    requires IsSlashPost(m)
    ensures Dispatch(Chain, chatType, editing, m, me)
         == Some(if chatType == Private then Handled(HandleMessage(Private, editing, m, Buttons)) else NoAction)
  {
    AheadMissesSlashPost(chatType, editing, m, me);
    SlashPostNotAButton();
    PostAfterMessages(Ahead, Buttons, chatType, editing, m, me);
  }

  lemma SlashPostNotAButton()
    ensures "/post" !in Buttons
  {
  }

  /** With `/post` registered first, an admin's `/post` in a private chat
      shows the prompt, whatever the session holds. */
  lemma IntendedPostPrompt(adminIds: seq<Num>, u: Update, editing: bool, me: String)
    requires u.message.Some? && IsSlashPost(u.message.value) && u.InChatOfType(Private)
    requires Auth.IsAdmin(adminIds, u) == Auth.Next
    ensures RouteUpdate(adminIds, u, editing, IntendedChain, me) == Some(PostPrompt)
  {
    AheadMissesSlashPost(Private, editing, u.message.value, me);
    PostBeforeMessages(Ahead, Buttons, Private, editing, u.message.value, me);
  }

  /** Moving `/post` ahead changes the route of no other message. */
  lemma IntendedAgreesElsewhere(adminIds: seq<Num>, u: Update, editing: bool, me: String)
    requires u.message.Some? ==> !Matches(PostCommand, u.message.value, me)
    ensures RouteUpdate(adminIds, u, editing, IntendedChain, me) == RouteUpdate(adminIds, u, editing, Chain, me)
  {
    if u.message.Some? && u.chat.Some? {
      CommandAheadOfMessages(Ahead, Buttons, PostCommand, [PostButton], u.chat.value.chatType, editing, u.message.value, me);
      assert IntendedChain == Ahead + [PostCommand, OnAnyMessage(Buttons)] + [PostButton];
      assert Chain == Ahead + [OnAnyMessage(Buttons), PostCommand] + [PostButton];
    }
  }

  /** What a `my_chat_member` update does: the bot made an administrator is
      welcomed in, any other new status is treated as the bot leaving. */
  datatype MemberRoute = BotPromoted | BotLeft

  function OnMyChatMember(status: MemberStatus): (r: MemberRoute)
    ensures r == BotPromoted <==> status == Administrator
  {
    if status == Administrator then BotPromoted else BotLeft
  }
}
