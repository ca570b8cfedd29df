/** Broadcasting a post to the selected channels
    (src/handlers/postingHandler.ts): the default selection, the selection
    toggle, the selector keyboard, and `confirmPosting`, which copies the post
    to every target and records the copies that succeeded.

    The copies run concurrently; the model folds over their completions in an
    arbitrary order (`order`, a permutation of the targets) and shows that the
    counts and the records do not depend on that order. The Telegram calls and
    the database lookups are inputs: `copied[i]` is the id of the copy sent to
    target `i` (None when the copy threw) and `table` is the channel table. */
module Posting {
  import opened Wrappers
  import opened Telegram
  import opened Sessions
  import Channels
  import JsString
  import RateLimiting

  type ChannelRow = Channels.ChannelRow

  /** `channels.map(ch => Number(ch.chatId))` */
  function ChatIds(rows: seq<ChannelRow>): (ids: seq<int>)
    ensures |ids| == |rows| && forall i :: 0 <= i < |rows| ==> ids[i] == rows[i].chatId
  {
    seq(|rows|, i requires 0 <= i < |rows| => rows[i].chatId)
  }

  /** The rows of `findMany({ where: { isActive: true } })`, in table order. */
  function Active(rows: seq<ChannelRow>): (r: seq<ChannelRow>)
    ensures forall c :: c in r <==> c in rows && c.isActive
  {
    if rows == [] then []
    else Active(rows[..|rows| - 1]) + (if rows[|rows| - 1].isActive then [rows[|rows| - 1]] else [])
  }

  /** The default selection names exactly the active channels. */
  lemma DefaultSelectsEveryActiveChannel(rows: seq<ChannelRow>, chatId: int)
    ensures chatId in ChatIds(Active(rows)) <==> exists c :: c in rows && c.isActive && c.chatId == chatId
  {
    var ids := ChatIds(Active(rows));
    if chatId in ids {
      var i :| 0 <= i < |ids| && ids[i] == chatId;
      assert Active(rows)[i] in Active(rows);
    }
    if c :| c in rows && c.isActive && c.chatId == chatId {
      var i :| 0 <= i < |Active(rows)| && Active(rows)[i] == c;
      assert ids[i] == chatId;
    }
  }

  datatype StartReply = NotForwarded | NotTextOrPhoto | NoChannels | SelectorShown

  /** Both entry points: with no active channel nothing is pending, otherwise
      every active channel is selected. */
  method SelectAllActive(session: Session, postType: PostType, message: Message, rows: seq<ChannelRow>)
    returns (reply: StartReply)
    modifies session
    ensures Active(rows) == [] ==> reply == NoChannels && session.pendingPost == old(session.pendingPost)
    ensures Active(rows) != [] ==>
      reply == SelectorShown && session.pendingPost == Some(PendingPost(postType, message, ChatIds(Active(rows)), None))
    ensures session.editingActivity == old(session.editingActivity)
    ensures session.registrationData == old(session.registrationData)
  {
    var channels := Active(rows);
    if |channels| == 0 {
      return NoChannels;
    }
    session.pendingPost := Some(PendingPost(postType, message, ChatIds(channels), None));
    reply := SelectorShown;
  }

  /** `handleForward`: only a message forwarded from a chat starts a post. */
  method HandleForward(session: Session, message: Message, rows: seq<ChannelRow>) returns (reply: StartReply)
    modifies session
    ensures !message.forwardedFromChat ==> reply == NotForwarded && session.pendingPost == old(session.pendingPost)
    ensures message.forwardedFromChat && Active(rows) == [] ==>
      reply == NoChannels && session.pendingPost == old(session.pendingPost)
    ensures message.forwardedFromChat && Active(rows) != [] ==>
      reply == SelectorShown && session.pendingPost == Some(PendingPost(Forward, message, ChatIds(Active(rows)), None))
    ensures session.editingActivity == old(session.editingActivity)
    ensures session.registrationData == old(session.registrationData)
  {
    if !message.forwardedFromChat {
      return NotForwarded;
    }
    reply := SelectAllActive(session, Forward, message, rows);
  }

  /** `handleDirectPost`: only a text or photo message starts a post. */
  method HandleDirectPost(session: Session, message: Message, rows: seq<ChannelRow>) returns (reply: StartReply)
    modifies session
    ensures message.text.None? && message.photo.None? ==>
      reply == NotTextOrPhoto && session.pendingPost == old(session.pendingPost)
    ensures (message.text.Some? || message.photo.Some?) && Active(rows) == [] ==>
      reply == NoChannels && session.pendingPost == old(session.pendingPost)
    ensures (message.text.Some? || message.photo.Some?) && Active(rows) != [] ==>
      reply == SelectorShown && session.pendingPost == Some(PendingPost(Direct, message, ChatIds(Active(rows)), None))
    ensures session.editingActivity == old(session.editingActivity)
    ensures session.registrationData == old(session.registrationData)
  {
    if message.text.None? && message.photo.None? {
      return NotTextOrPhoto;
    }
    reply := SelectAllActive(session, Direct, message, rows);
  }

  /** `targets.indexOf(x)`: the first position holding `x`, or -1. */
  function IndexOf(s: seq<int>, x: int): (i: int)
    ensures -1 <= i < |s|
    ensures i == -1 <==> x !in s
    ensures i >= 0 ==> s[i] == x && x !in s[..i]
  {
    if s == [] then -1
    else if s[0] == x then 0
    else
      var j := IndexOf(s[1..], x);
      if j == -1 then -1
      else
        assert s[..j + 1] == [s[0]] + s[1..][..j];
        j + 1
  }

  /** The selection after toggling `chatId`: its first occurrence is spliced
      out, or, when absent, it is pushed at the end. */
  function Toggled(targets: seq<int>, chatId: int): (r: seq<int>)
    ensures chatId !in targets ==> r == targets + [chatId]
    ensures chatId in targets ==> |r| == |targets| - 1
  {
    var i := IndexOf(targets, chatId);
    if i == -1 then targets + [chatId] else targets[..i] + targets[i + 1..]
  }

  /** Removing position `i` shifts every later element down by one. */
  lemma SpliceIndex(s: seq<int>, i: nat, k: nat)
    requires i < |s| && k < |s| - 1
    ensures (s[..i] + s[i + 1..])[k] == if k < i then s[k] else s[k + 1]
  {
  }

  /** Toggling a selected channel removes one occurrence of it and nothing else. */
  lemma ToggleRemovesOneOccurrence(targets: seq<int>, chatId: int)
    requires chatId in targets
    ensures multiset(Toggled(targets, chatId)) == multiset(targets) - multiset{chatId}
  {
    var i := IndexOf(targets, chatId);
    assert targets == targets[..i] + [targets[i]] + targets[i + 1..];
  }

  /** Toggling an unselected channel twice gives the selection back. */
  lemma ToggleTwiceRestores(targets: seq<int>, chatId: int)
    requires chatId !in targets
    ensures Toggled(Toggled(targets, chatId), chatId) == targets
  {
    var once := targets + [chatId];
    var i := IndexOf(once, chatId);
    assert once[..|targets|] == targets;
    assert i == |targets|;
  }

  predicate NoDuplicates(s: seq<int>) {
    forall i, j :: 0 <= i < j < |s| ==> s[i] != s[j]
  }

  /** On a selection without duplicates (the default one has none) a toggle
      flips the membership of that channel only and keeps the selection free
      of duplicates. */
  lemma ToggleFlipsOneChannel(targets: seq<int>, chatId: int, other: int)
    requires NoDuplicates(targets)
    ensures NoDuplicates(Toggled(targets, chatId))
    ensures chatId in Toggled(targets, chatId) <==> chatId !in targets
    ensures other != chatId ==> (other in Toggled(targets, chatId) <==> other in targets)
  {
    if chatId in targets {
      var i := IndexOf(targets, chatId);
      var r := targets[..i] + targets[i + 1..];
      assert Toggled(targets, chatId) == r;
      forall k, l | 0 <= k < l < |r|
        ensures r[k] != r[l]
      {
        SpliceIndex(targets, i, k);
        SpliceIndex(targets, i, l);
      }
      forall k | 0 <= k < |r|
        ensures r[k] != chatId
      {
        SpliceIndex(targets, i, k);
      }
      if other in targets && other != chatId {
        var k :| 0 <= k < |targets| && targets[k] == other;
        var j := if k < i then k else k - 1;
        SpliceIndex(targets, i, j);
        assert r[j] == other;
      }
    } else {
      var r := targets + [chatId];
      forall k, l | 0 <= k < l < |r|
        ensures r[k] != r[l]
      {
        if l == |targets| {
          assert r[k] == targets[k];
        }
      }
    }
  }

  /** The callback data of a selector button and of its heading. */
  datatype SelectorCallback = HeaderDummy | SelectChannel(chatId: int)

  /** The data string of a channel button, `select_channel:${chatId}`. */
  function SelectData(chatId: int): JsString.String {
    "select_channel:" + JsString.IntToString(chatId)
  }

  /** `Number(data.split(':')[1])` gives back the chat id a button carries. */
  lemma SelectDataRoundTrip(chatId: int)
    ensures |JsString.Split(SelectData(chatId), ':')| == 2
    ensures JsString.Number(JsString.Split(SelectData(chatId), ':')[1]) == JsString.Finite(chatId)
  {
    var digits := JsString.IntToString(chatId);
    JsString.IntToStringHasNoSeparator(chatId, ':');
    assert SelectData(chatId) == "select_channel" + [':'] + digits;
    JsString.SplitAfterPiece("select_channel", ':', digits);
    JsString.SplitNoSeparator(digits, ':');
    JsString.NumberOfIntToString(chatId);
  }

  datatype ToggleAnswer = HeaderIgnored | PostMissing | Added | Removed

  /** `handleChannelSelection` */
  method ToggleTarget(session: Session, callback: SelectorCallback) returns (answer: ToggleAnswer)
    modifies session
    ensures callback == HeaderDummy ==> answer == HeaderIgnored && session.pendingPost == old(session.pendingPost)
    ensures callback.SelectChannel? && old(session.pendingPost).None? ==>
      answer == PostMissing && session.pendingPost == None
    ensures callback.SelectChannel? && old(session.pendingPost).Some? ==>
      var p := old(session.pendingPost).value;
      session.pendingPost == Some(p.(targetChannels := Toggled(p.targetChannels, callback.chatId)))
      && answer == (if callback.chatId in p.targetChannels then Removed else Added)
    ensures session.editingActivity == old(session.editingActivity)
    ensures session.registrationData == old(session.registrationData)
  {
    if callback == HeaderDummy {
      return HeaderIgnored;
    }
    if session.pendingPost.None? {
      return PostMissing;
    }
    var p := session.pendingPost.value;
    var index := IndexOf(p.targetChannels, callback.chatId);
    if index == -1 {
      session.pendingPost := Some(p.(targetChannels := p.targetChannels + [callback.chatId]));
      answer := Added;
    } else {
      session.pendingPost := Some(p.(targetChannels := p.targetChannels[..index] + p.targetChannels[index + 1..]));
      answer := Removed;
    }
  }

  /** A button of the selector keyboard. */
  datatype Button =
    | Heading(storedType: Channels.StoredType)
    | Select(chatId: int, selected: bool, title: String)
    | Confirm
    | Cancel

  function SelectButton(row: ChannelRow, targets: seq<int>): Button {
    Select(row.chatId, row.chatId in targets, row.title)
  }

  /** The selector's buttons read row by row: a heading wherever the type
      changes, then each channel's button. */
  function SelectorButtons(rows: seq<ChannelRow>, targets: seq<int>): seq<Button> {
    if rows == [] then []
    else
      var n := |rows| - 1;
      SelectorButtons(rows[..n], targets)
      + (if Channels.HeaderAt(rows, n) then [Heading(rows[n].storedType)] else [])
      + [SelectButton(rows[n], targets)]
  }

  function Flatten(keyboard: seq<seq<Button>>): seq<Button> {
    if keyboard == [] then [] else Flatten(keyboard[..|keyboard| - 1]) + keyboard[|keyboard| - 1]
  }

  lemma FlattenPush(keyboard: seq<seq<Button>>, row: seq<Button>)
    ensures Flatten(keyboard + [row]) == Flatten(keyboard) + row
  {
    assert (keyboard + [row])[..|keyboard|] == keyboard;
  }

  lemma SelectorButtonsStep(rows: seq<ChannelRow>, i: nat, targets: seq<int>)
    requires i < |rows|
    ensures SelectorButtons(rows[..i + 1], targets)
         == SelectorButtons(rows[..i], targets)
            + (if Channels.HeaderAt(rows, i) then [Heading(rows[i].storedType)] else [])
            + [SelectButton(rows[i], targets)]
  {
    assert rows[..i + 1][..i] == rows[..i];
  }

  /** A row of one or two buttons in which a heading stands alone. */
  predicate RowOk(row: seq<Button>) {
    1 <= |row| <= 2 && forall k :: 0 <= k < |row| && row[k].Heading? ==> |row| == 1
  }

  predicate RowsOk(keyboard: seq<seq<Button>>) {
    forall r :: 0 <= r < |keyboard| ==> RowOk(keyboard[r])
  }

  /** A row holding a single channel button. */
  predicate PartialRow(row: seq<Button>) {
    |row| == 1 && row[0].Select?
  }

  predicate HeadingRow(row: seq<Button>) {
    |row| > 0 && row[0].Heading?
  }

  /** Every row with a single channel button is followed by a heading row. */
  predicate FlushedBeforeHeadings(keyboard: seq<seq<Button>>) {
    forall r :: 0 <= r < |keyboard| && PartialRow(keyboard[r]) ==> r + 1 < |keyboard| && HeadingRow(keyboard[r + 1])
  }

  /** One iteration of the selector loop: on a new type the pending row is
      flushed and a heading row pushed; then the channel's button joins the
      pending row, which is pushed once it holds two buttons. */
  method PlaceButton(keyboard: seq<seq<Button>>, currentRow: seq<Button>, newType: bool, heading: Button, button: Button)
    returns (keyboard': seq<seq<Button>>, currentRow': seq<Button>)
    requires heading.Heading? && button.Select?
    requires |currentRow| <= 1 && (currentRow != [] ==> currentRow[0].Select?)
    requires RowsOk(keyboard) && FlushedBeforeHeadings(keyboard)
    ensures Flatten(keyboard') + currentRow' == Flatten(keyboard) + currentRow + (if newType then [heading] else []) + [button]
    ensures |currentRow'| <= 1 && (currentRow' != [] ==> currentRow'[0].Select?)
    ensures RowsOk(keyboard') && FlushedBeforeHeadings(keyboard')
  {
    keyboard', currentRow' := keyboard, currentRow;
    if newType {
      if currentRow' != [] {
        FlattenPush(keyboard', currentRow');
        keyboard' := keyboard' + [currentRow'];
        currentRow' := [];
      }
      FlattenPush(keyboard', [heading]);
      keyboard' := keyboard' + [[heading]];
    }
    currentRow' := currentRow' + [button];
    if |currentRow'| == 2 {
      FlattenPush(keyboard', currentRow');
      keyboard' := keyboard' + [currentRow'];
      currentRow' := [];
    }
  }

  /** `showChannelSelector`'s keyboard over the listed rows: read row by row
      it is the selector's buttons followed by Confirm and Cancel, in rows of
      at most two buttons; a heading has a row of its own, a row left with
      one channel button is flushed only before a heading or the control row,
      and the control row comes last. */
  method ChannelSelector(rows: seq<ChannelRow>, targets: seq<int>) returns (keyboard: seq<seq<Button>>)
    ensures Flatten(keyboard) == SelectorButtons(rows, targets) + [Confirm, Cancel]
    ensures |keyboard| >= 1 && keyboard[|keyboard| - 1] == [Confirm, Cancel]
    ensures RowsOk(keyboard)
    ensures forall r :: 0 <= r < |keyboard| - 1 && PartialRow(keyboard[r]) ==>
      HeadingRow(keyboard[r + 1]) || keyboard[r + 1] == [Confirm, Cancel]
  {
    keyboard := [];
    var currentRow: seq<Button> := [];
    var currentType: Option<Channels.StoredType> := None;
    for i := 0 to |rows|
      invariant Flatten(keyboard) + currentRow == SelectorButtons(rows[..i], targets)
      invariant |currentRow| <= 1 && (currentRow != [] ==> currentRow[0].Select?)
      invariant currentType == if i == 0 then None else Some(rows[i - 1].storedType)
      invariant RowsOk(keyboard) && FlushedBeforeHeadings(keyboard)
    {
      SelectorButtonsStep(rows, i, targets);
      var newType := currentType != Some(rows[i].storedType);
      keyboard, currentRow := PlaceButton(keyboard, currentRow, newType, Heading(rows[i].storedType), SelectButton(rows[i], targets));
      currentType := Some(rows[i].storedType);
    }
    assert rows[..|rows|] == rows;
    CloseKeyboard(keyboard, currentRow);
    keyboard := keyboard + (if currentRow == [] then [] else [currentRow]) + [[Confirm, Cancel]];
  }

  /** After the loop the pending row, if any, is flushed and the control row
      appended. */
  lemma CloseKeyboard(keyboard: seq<seq<Button>>, currentRow: seq<Button>)
    requires |currentRow| <= 1 && (currentRow != [] ==> currentRow[0].Select?)
    requires RowsOk(keyboard) && FlushedBeforeHeadings(keyboard)
    ensures var closed := keyboard + (if currentRow == [] then [] else [currentRow]) + [[Confirm, Cancel]];
      Flatten(closed) == Flatten(keyboard) + currentRow + [Confirm, Cancel]
      && RowsOk(closed)
      && forall r :: 0 <= r < |closed| - 1 && PartialRow(closed[r]) ==>
           HeadingRow(closed[r + 1]) || closed[r + 1] == [Confirm, Cancel]
  {
    var body := keyboard + (if currentRow == [] then [] else [currentRow]);
    if currentRow == [] {
      assert body == keyboard;
    } else {
      FlattenPush(keyboard, currentRow);
    }
    FlattenPush(body, [Confirm, Cancel]);
    var closed := body + [[Confirm, Cancel]];
    forall r | 0 <= r < |closed| - 1 && PartialRow(closed[r])
      ensures HeadingRow(closed[r + 1]) || closed[r + 1] == [Confirm, Cancel]
    {
      if r < |keyboard| {
        assert closed[r] == keyboard[r];
        assert r + 1 < |keyboard| && HeadingRow(keyboard[r + 1]);
        assert closed[r + 1] == keyboard[r + 1];
      }
    }
    forall r | 0 <= r < |closed|
      ensures RowOk(closed[r])
    {
      if r < |keyboard| {
        assert closed[r] == keyboard[r];
      }
    }
  }

  /** The channel buttons among `buttons`, in order. */
  function Selects(buttons: seq<Button>): seq<Button> {
    if buttons == [] then []
    else Selects(buttons[..|buttons| - 1]) + (if buttons[|buttons| - 1].Select? then [buttons[|buttons| - 1]] else [])
  }

  lemma {:induction false} SelectsAppend(a: seq<Button>, b: seq<Button>)
    ensures Selects(a + b) == Selects(a) + Selects(b)
  {
    if b != [] {
      SelectsAppend(a, b[..|b| - 1]);
      assert (a + b)[..|a + b| - 1] == a + b[..|b| - 1];
    } else {
      assert a + b == a;
    }
  }

  lemma SelectsSkipHeading(before: seq<Button>, heading: seq<Button>, button: Button)
    requires heading == [] || (|heading| == 1 && heading[0].Heading?)
    requires button.Select?
    ensures Selects(before + heading + [button]) == Selects(before) + [button]
  {
    if heading != [] {
      SelectsAppend(before, heading);
      assert heading[..0] == [];
      assert Selects(before + heading) == Selects(before);
    } else {
      assert before + heading == before;
    }
  }

  /** The selector shows one button per listed channel, in the listed order,
      marked selected exactly when the channel is a target. */
  lemma {:induction false} SelectorShowsEveryChannel(rows: seq<ChannelRow>, targets: seq<int>)
    ensures |Selects(SelectorButtons(rows, targets))| == |rows|
    ensures forall i :: 0 <= i < |rows| ==>
      Selects(SelectorButtons(rows, targets))[i] == Select(rows[i].chatId, rows[i].chatId in targets, rows[i].title)
  {
    if rows != [] {
      var n := |rows| - 1;
      var init := rows[..n];
      SelectorShowsEveryChannel(init, targets);
      var heading: seq<Button> := if Channels.HeaderAt(rows, n) then [Heading(rows[n].storedType)] else [];
      var button := SelectButton(rows[n], targets);
      SelectsSkipHeading(SelectorButtons(init, targets), heading, button);
      var all := Selects(SelectorButtons(rows, targets));
      assert all == Selects(SelectorButtons(init, targets)) + [button];
      forall i | 0 <= i < n
        ensures all[i] == Select(rows[i].chatId, rows[i].chatId in targets, rows[i].title)
      {
        assert init[i] == rows[i];
      }
    }
  }

  /** The throttling type of a copy: `channelTypeMap.get(chatId) || 'channel'`,
      where the map holds the stored type of every target that has a row. */
  function ThrottleType(table: map<int, ChannelRow>, chatId: int): (t: ChatType)
    ensures t == Group <==> chatId in table && table[chatId].storedType == Channels.GroupType
    ensures t == Channel <==> !(chatId in table && table[chatId].storedType == Channels.GroupType)
  {
    if chatId in table && table[chatId].storedType == Channels.GroupType then Group else Channel
  }

  /** A target without a row is throttled as a channel: its copy faces only
      the global cap. */
  lemma UnknownTargetThrottledAsChannel(table: map<int, ChannelRow>, chatId: int, id: nat, l: RateLimiting.Limiter, now: int)
    requires chatId !in table
    ensures RateLimiting.SafeCallTask(RateLimiting.CopyMessage, id, chatId, Some(ThrottleType(table, chatId))).chatType == Channel
    ensures RateLimiting.Admissible(RateLimiting.SafeCallTask(RateLimiting.CopyMessage, id, chatId, Some(ThrottleType(table, chatId))), l, now)
            <==> l.globalCounter.count < RateLimiting.BroadcastLimit
  {
  }

  /** The nested record stored for one successful copy. */
  datatype Record = Record(messageId: int, channelId: nat)

  /** What one target's promise resolves to: a record when its copy was sent
      and its channel row was found, `null` otherwise. */
  function TargetResult(chatId: int, copied: Option<int>, table: map<int, ChannelRow>): (r: Option<Record>)
    ensures r.Some? <==> copied.Some? && chatId in table
    ensures r.Some? ==> r.value == Record(copied.value, table[chatId].id)
  {
    if copied.Some? && chatId in table then Some(Record(copied.value, table[chatId].id)) else None
  }

  /** The array `Promise.all` yields: one result per target, in target order. */
  function Expected(targets: seq<int>, copied: seq<Option<int>>, table: map<int, ChannelRow>): seq<Option<Record>>
    requires |copied| == |targets|
  {
    seq(|targets|, i requires 0 <= i < |targets| => TargetResult(targets[i], copied[i], table))
  }

  function CountSome<T>(s: seq<Option<T>>): (c: nat)
    ensures c <= |s|
  {
    if s == [] then 0 else CountSome(s[..|s| - 1]) + (if s[|s| - 1].Some? then 1 else 0)
  }

  lemma {:induction false} CountSomeNone<T>(s: seq<Option<T>>)
    requires forall i :: 0 <= i < |s| ==> s[i].None?
    ensures CountSome(s) == 0
  {
    if s != [] {
      CountSomeNone(s[..|s| - 1]);
    }
  }

  /** `messages.filter(msg => msg !== null)`: one entry per present result. */
  function Present<T(!new)>(s: seq<Option<T>>): (r: seq<T>)
    ensures |r| == CountSome(s)
    ensures forall x :: x in r <==> Some(x) in s
  {
    if s == [] then []
    else
      var init := s[..|s| - 1];
      assert s == init + [s[|s| - 1]];
      Present(init) + (if s[|s| - 1].Some? then [s[|s| - 1].value] else [])
  }

  lemma {:induction false} CountSomeSet<T>(s: seq<Option<T>>, i: nat, v: Option<T>)
    requires i < |s| && s[i].None?
    ensures CountSome(s[i := v]) == CountSome(s) + (if v.Some? then 1 else 0)
  {
    var n := |s| - 1;
    if i < n {
      CountSomeSet(s[..n], i, v);
      assert s[i := v][..n] == s[..n][i := v];
    } else {
      assert s[i := v][..n] == s[..n];
    }
  }

  /** The completion order of the targets' promises: every target exactly once. */
  predicate IsOrder(order: seq<nat>, n: nat) {
    |order| == n
    && (forall k :: 0 <= k < n ==> order[k] < n)
    && (forall j :: 0 <= j < n ==> j in order)
    && (forall k, l :: 0 <= k < l < n ==> order[k] != order[l])
  }

  /** The target completing `k`th has not completed before. */
  lemma OrderStep(order: seq<nat>, n: nat, k: nat)
    requires IsOrder(order, n) && k < n
    ensures order[k] !in order[..k]
    ensures forall j :: j in order[..k + 1] <==> j in order[..k] || j == order[k]
  {
    assert order[..k + 1] == order[..k] + [order[k]];
  }

  /** The completion positions at which a progress edit succeeded: in
      increasing order, each at least 5000 ms after the previous successful
      edit finished, or after the start for the first. */
  predicate EditsSpaced(edits: seq<nat>, startTime: int, clock: seq<int>, editedAt: seq<int>) {
    (forall m :: 0 <= m < |edits| ==> edits[m] < |clock| && edits[m] < |editedAt|)
    && (forall m, m' :: 0 <= m < m' < |edits| ==> edits[m] < edits[m'])
    && (forall m :: 0 <= m < |edits| ==>
          clock[edits[m]] - (if m == 0 then startTime else editedAt[edits[m - 1]]) >= 5000)
  }

  /** `results.lastUpdate`: when the last successful edit finished, or the start. */
  function LastUpdate(edits: seq<nat>, startTime: int, editedAt: seq<int>): int
    requires forall m :: 0 <= m < |edits| ==> edits[m] < |editedAt|
  {
    if edits == [] then startTime else editedAt[edits[|edits| - 1]]
  }

  lemma EditsSpacedPush(edits: seq<nat>, k: nat, startTime: int, clock: seq<int>, editedAt: seq<int>)
    requires EditsSpaced(edits, startTime, clock, editedAt)
    requires k < |clock| && k < |editedAt| && forall m :: 0 <= m < |edits| ==> edits[m] < k
    requires clock[k] - LastUpdate(edits, startTime, editedAt) >= 5000
    ensures EditsSpaced(edits + [k], startTime, clock, editedAt)
  {
    var pushed := edits + [k];
    assert forall m :: 0 <= m < |edits| ==> pushed[m] == edits[m];
  }

  /** The fold over the targets' completions. At the `k`th completion the
      clock reads `clock[k]`; a progress edit made then reports `editOk[k]`
      and finishes at `editedAt[k]`. Returns the counters, the joined results
      and the completion positions at which a progress edit succeeded.

      Every target is counted once, the results are the same whatever the
      order, and a progress edit happens only after a success, at least
      5000 ms after the last successful edit (or the start). */
  method Broadcast(
    targets: seq<int>, copied: seq<Option<int>>, table: map<int, ChannelRow>, order: seq<nat>,
    startTime: int, clock: seq<int>, editOk: seq<bool>, editedAt: seq<int>)
    returns (success: nat, failed: nat, results: seq<Option<Record>>, edits: seq<nat>, lastUpdate: int)
    requires |copied| == |targets| && IsOrder(order, |targets|)
    requires |clock| == |targets| && |editOk| == |targets| && |editedAt| == |targets|
    ensures results == Expected(targets, copied, table)
    ensures success == CountSome(results) && success + failed == |targets|
    ensures |edits| <= success
    ensures EditsSpaced(edits, startTime, clock, editedAt)
    ensures forall m :: 0 <= m < |edits| ==> results[order[edits[m]]].Some? && editOk[edits[m]]
    ensures lastUpdate == LastUpdate(edits, startTime, editedAt)
  {
    var n := |targets|;
    var expected := Expected(targets, copied, table);
    results := seq(n, _ => None);
    CountSomeNone(results);
    success, failed := 0, 0;
    edits := [];
    lastUpdate := startTime;
    for k := 0 to n
      invariant |results| == n
      invariant forall j :: 0 <= j < n ==> results[j] == (if j in order[..k] then expected[j] else None)
      invariant success == CountSome(results) && success + failed == k
      invariant |edits| <= success
      invariant EditsSpaced(edits, startTime, clock, editedAt)
      invariant forall m :: 0 <= m < |edits| ==> edits[m] < k && expected[order[edits[m]]].Some? && editOk[edits[m]]
      invariant lastUpdate == LastUpdate(edits, startTime, editedAt)
    {
      var i := order[k];
      OrderStep(order, n, k);
      var r := TargetResult(targets[i], copied[i], table);
      CountSomeSet(results, i, r);
      results := results[i := r];
      if r.Some? {
        success := success + 1;
        if clock[k] - lastUpdate >= 5000 && editOk[k] {
          EditsSpacedPush(edits, k, startTime, clock, editedAt);
          edits := edits + [k];
          lastUpdate := editedAt[k];
        }
      } else {
        failed := failed + 1;
      }
    }
    assert order[..n] == order;
    assert results == expected;
  }

  /** A stored broadcast: its type, the admin's message and one record per
      successful copy. */
  datatype Activity = Activity(postType: PostType, content: Message, records: seq<Record>)

  datatype ConfirmReply = NoPostFound | NoTargetSelected | Finished(success: nat, failed: nat, total: nat) | PostingError

  /** `confirmPosting`. `persistOk` is whether creating the activity
      succeeds; when it throws, the error reply is sent and the pending post
      is kept. Returns the activity written, if any, and the copy tasks handed
      to the rate limiter, one per target in target order, each throttled by
      the target's stored type or as a channel when it has no row. */
  method ConfirmPosting(
    session: Session, table: map<int, ChannelRow>, copied: seq<Option<int>>, order: seq<nat>,
    startTime: int, clock: seq<int>, editOk: seq<bool>, editedAt: seq<int>, persistOk: bool)
    returns (reply: ConfirmReply, created: Option<Activity>, copies: seq<RateLimiting.Task>)
    requires session.pendingPost.Some? ==>
      var n := |session.pendingPost.value.targetChannels|;
      |copied| == n && IsOrder(order, n) && |clock| == n && |editOk| == n && |editedAt| == n
    modifies session
    ensures old(session.pendingPost).None? ==>
      reply == NoPostFound && created == None && copies == [] && session.pendingPost == None
    ensures old(session.pendingPost).Some? && old(session.pendingPost).value.targetChannels == [] ==>
      reply == NoTargetSelected && created == None && copies == [] && session.pendingPost == old(session.pendingPost)
    ensures old(session.pendingPost).Some? && old(session.pendingPost).value.targetChannels != [] ==>
      var p := old(session.pendingPost).value;
      var expected := Expected(p.targetChannels, copied, table);
      var success := CountSome(expected);
      |copies| == |p.targetChannels|
      && (forall i :: 0 <= i < |copies| ==>
            copies[i] == RateLimiting.SafeCallTask(RateLimiting.CopyMessage, i, p.targetChannels[i],
                                                   Some(ThrottleType(table, p.targetChannels[i]))))
      && (created.Some? <==> success > 0 && persistOk)
      && (created.Some? ==> created.value == Activity(p.postType, p.content, Present(expected)))
      && (success > 0 && !persistOk ==> reply == PostingError && session.pendingPost == old(session.pendingPost))
      && (success == 0 || persistOk ==>
            reply == Finished(success, |p.targetChannels| - success, |p.targetChannels|)
            && session.pendingPost == None)
    ensures session.editingActivity == old(session.editingActivity)
    ensures session.registrationData == old(session.registrationData)
  {
    if session.pendingPost.None? {
      return NoPostFound, None, [];
    }
    var p := session.pendingPost.value;
    if |p.targetChannels| == 0 {
      return NoTargetSelected, None, [];
    }
    var targets := p.targetChannels;
    copies := seq(|targets|, i requires 0 <= i < |targets| =>
      RateLimiting.SafeCallTask(RateLimiting.CopyMessage, i, targets[i], Some(ThrottleType(table, targets[i]))));
    var success, failed, results, edits, lastUpdate :=
      Broadcast(p.targetChannels, copied, table, order, startTime, clock, editOk, editedAt);
    created := None;
    if success > 0 {
      if !persistOk {
        return PostingError, None, copies;
      }
      created := Some(Activity(p.postType, p.content, Present(results)));
    }
    reply := Finished(success, failed, |p.targetChannels|);
    session.pendingPost := None;
  }

  /** The stored activity holds one record per successful target and nothing
      else, whatever order the copies completed in. */
  lemma RecordsMatchSuccesses(targets: seq<int>, copied: seq<Option<int>>, table: map<int, ChannelRow>, rec: Record)
    requires |copied| == |targets|
    ensures |Present(Expected(targets, copied, table))| == CountSome(Expected(targets, copied, table))
    ensures rec in Present(Expected(targets, copied, table)) <==>
      exists i :: 0 <= i < |targets| && copied[i] == Some(rec.messageId) && targets[i] in table
                  && table[targets[i]].id == rec.channelId
  {
    var e := Expected(targets, copied, table);
    if rec in Present(e) {
      var i :| 0 <= i < |e| && e[i] == Some(rec);
      assert copied[i] == Some(rec.messageId);
    }
    if exists i :: 0 <= i < |targets| && copied[i] == Some(rec.messageId) && targets[i] in table
                  && table[targets[i]].id == rec.channelId {
      var i :| 0 <= i < |targets| && copied[i] == Some(rec.messageId) && targets[i] in table
               && table[targets[i]].id == rec.channelId;
      assert e[i] == Some(rec);
    }
  }

  /** `cancelPosting` drops the pending post. */
  method CancelPosting(session: Session)
    modifies session
    ensures session.pendingPost == None
    ensures session.editingActivity == old(session.editingActivity)
    ensures session.registrationData == old(session.registrationData)
  {
    session.pendingPost := None;
  }
}
