# adliyaxabar-bot core in Dafny

A Dafny model of the core of *adliyaxabar-bot*. This Telegram bot lets the
admins of a mahallah (neighbourhood) news service post to many channels and
groups at once. The model covers:

- how a post is prepared, confirmed, broadcast and logged as an activity;
- how an activity is edited or deleted, and how its list is paginated;
- how channels and groups are registered when the bot is added to them;
- the wizard that links a chat to its region, district and mahallah;
- the admin gate of both entry points, and the rate limiter that spaces
  every Telegram call;
- the Markdown escapers;
- the script that turns the mahallah spreadsheet into an SQL seed file.

Each module follows one source file:

| module | models |
|---|---|
| `Markdown` | `src/utils/markdown.ts` |
| `RateLimiting` | `src/utils/rateLimiter.ts` |
| `Auth` | `src/middleware/auth.ts` |
| `Channels` | `src/handlers/channelManagement.ts` |
| `Posting` | `src/handlers/postingHandler.ts` |
| `Activities` | `src/handlers/activityHandler.ts` |
| `Registration` | `src/handlers/safeMahallahRegistration.ts` |
| `Bot` | `src/index.ts` |
| `Production` | `src/index.PRODUCTION.ts` |
| `GenerateSql` | `scripts/generateSQL.ts` |

Shared modules model the JavaScript built-ins and API shapes the code relies
on:

- `Wrappers` holds `Option`.
- `JsString` models `split`, `join`, `trim`, `Number`, `parseInt`, `String(n)`
  and JavaScript truthiness.
- `StableSort` models `Array.prototype.sort` with a numeric comparator, which
  the language guarantees to be stable.
- `Escaping` models chains of `.replace(/c/g, '\\c')`.
- `Paging` models `Math.ceil`, `slice`, and `skip`/`take` windows.
- `Telegram` and `Sessions` model the update, chat and message shapes and the
  session record of `src/types/context.ts`.

Objects the source updates in place are classes with `modifies` clauses:
the rate limiter, the session, the database tables and the media-group
buffer. Their methods are proved against pure functions that specify one
step. The pure functions carry the lemmas.

Whether Telegram accepts a MarkdownV2 message is modelled by
`Markdown.ScanV2`, a reader of the parts of the format the bot uses:

- A backslash before any ASCII character shows that character.
- `*` opens and closes bold.
- A bare `] ( ) # + - = { } .`, a lone `!` or a lone `|` is refused.
- A text whose bold is still open at its end is refused.

Entities the bot never writes are read as `Unmodelled`. Examples are
italic, links, code and spoilers. Command texts are read the way Telegram
marks a `bot_command` entity and Telegraf's `command` matches it
(`Bot.LeadingCommand`, `Bot.CommandName`). Text lengths are counted the
way JavaScript counts them, in UTF-16 code units (`Activities.Utf16Length`).

Prisma queries, Telegram calls, timers and the clock are not executed.
Their outcomes are parameters: a table's rows before and after, the result
of each API call, and `now`.

## Model

| member | source | states |
|---|---|---|
| Escaping.EscapeAll | src/utils/markdown.ts:6-24 | Escaping adds exactly one character per reserved character of the text. |
| Escaping.EscapeAllAppend | src/utils/markdown.ts:6-24 | The per-character escaper distributes over concatenation. |
| Escaping.ReplaceAfterEscape | src/utils/markdown.ts:6-24 | A `.replace` for a new, non-backslash character, run on already escaped text, escapes that character as well. It leaves the escapes already present alone. |
| Escaping.ChainIsOnePass | src/utils/markdown.ts:6-24 | A chain of `.replace` calls over distinct non-backslash characters equals one pass escaping all of them. No link re-escapes the output of an earlier one. |
| Escaping.ChainIsOnePassFromText | src/utils/markdown.ts:30-35 | The same, started on raw text. |
| Escaping.DropEscapesInverts | src/utils/markdown.ts:4-25 | Dropping the backslash before each reserved character gives back the original text. |
| Escaping.EscapeAllLeavesNoBareReserved | src/utils/markdown.ts:4-25 | Every reserved character of the output has a backslash right before it. |
| Escaping.EscapeAllOfUnreserved | src/utils/markdown.ts:30-35 | Text without reserved characters is copied unchanged. |
| Escaping.EscapedStartsUnreserved | src/utils/markdown.ts:4-25 | Escaped non-empty text never starts with a reserved character. |
| Markdown.V2ChainDistinct | src/utils/markdown.ts:7-24 | The eighteen characters of `escapeMarkdown`'s chain are distinct, and none is the backslash. |
| Markdown.V2ChainCharacters | src/utils/markdown.ts:7-24 | The chain's characters are exactly MarkdownV2's reserved set. |
| Markdown.EscapeMarkdownIsOnePass | src/utils/markdown.ts:4-25 | `escapeMarkdown` equals one pass escaping the MarkdownV2 reserved set. |
| Markdown.EscapeMarkdownSimpleIsOnePass | src/utils/markdown.ts:30-36 | `escapeMarkdownSimple` equals one pass escaping `_ * [` and the backtick. |
| Markdown.EscapeMarkdownSpec | src/utils/markdown.ts:4-25 | The output is longer by the number of reserved characters. No reserved character is left bare. Dropping the escapes gives back the input. |
| Markdown.EscapeMarkdownSimpleSpec | src/utils/markdown.ts:30-36 | The same for the four legacy characters. Text without them is copied unchanged. |
| Markdown.EscapeMarkdownMisreadByTelegram | src/utils/markdown.ts:4-25 | As written, a typed backslash before an ordinary character is swallowed by Telegram. Before a reserved character, the typed backslash cancels the escape, so the text is not shown as typed. When that character opens no entity, or is `*`, the text is refused. |
| Markdown.ReservedPairRefused | src/utils/markdown.ts:4-25 | Telegram refuses a double backslash followed by a reserved character. |
| Markdown.PlainPairRead | src/utils/markdown.ts:4-25 | Telegram shows a backslash followed by an ordinary character as that character alone. |
| Markdown.EscapedPair | src/utils/markdown.ts:4-25 | What `escapeMarkdown` makes of a backslash followed by one character. |
| Markdown.EscapeMarkdownReadsBack | src/utils/markdown.ts:4-25 | Telegram shows the output of `escapeMarkdown` on a text without backslashes as that text, and leaves the bold state to what follows. |
| Markdown.EscapedReadsBack | src/utils/markdown.ts:4-25 | Once the backslash is escaped too, Telegram shows every text exactly as typed. |
| Markdown.EscapeMarkdownCorrected | src/utils/markdown.ts:4-25 | The corrected escaper, which also escapes the backslash: Telegram shows its output as exactly the input. |
| Paging.CeilDiv | src/handlers/channelManagement.ts:154 | `Math.ceil(a / b)` is the least page count whose pages hold all `a` items. |
| Paging.Slice | src/handlers/activityHandler.ts:450 | `slice(start, end)` clamps both bounds. It is the plain subsequence when the bounds are in order and in range, and empty when `end <= start`. |
| Paging.Window | src/handlers/channelManagement.ts:124-132 | A `skip`/`take` query returns at most `take` rows, each the item at `skip` plus its position. It returns exactly `take` rows when enough remain, and the rest otherwise. |
| Paging.ItemOnExactlyOnePage | src/handlers/channelManagement.ts:124-132 | Every item is on exactly one page, page `i / size`, and that page's window shows it. |
| JsString.Split | src/middleware/auth.ts:18 | `split(c)` gives one more piece than there are separators, and no piece contains the separator. |
| JsString.JoinSplit | src/middleware/auth.ts:17-18 | Joining the pieces of a split gives back the string. |
| JsString.SplitJoin | src/handlers/safeMahallahRegistration.ts:74-108 | Splitting a join of separator-free pieces gives back the pieces. |
| JsString.SplitNoSeparator | src/middleware/auth.ts:17 | A string without the separator splits into itself. |
| JsString.SplitAfterPiece | src/handlers/safeMahallahRegistration.ts:103-108 | A separator-free piece followed by the separator splits off as the first piece. |
| JsString.JoinChars | src/middleware/auth.ts:18 | Every character of a join is the separator or comes from a piece. |
| JsString.TrimStart | src/middleware/auth.ts:18 | The result is a suffix of the input that does not start with whitespace, and everything removed is whitespace. Whitespace is JavaScript's set: the ASCII blanks, the no-break space, the byte order mark, every Unicode space separator and the line and paragraph separators. |
| JsString.TrimEnd | src/middleware/auth.ts:18 | The result is a prefix of the input that does not end with whitespace, and everything removed is whitespace, in the same sense. |
| JsString.Trim | src/middleware/auth.ts:17-18 | `trim()` leaves no whitespace at either end, and what it keeps is a contiguous part of the input with only whitespace before and after it. |
| JsString.TrimTrailingSpace | scripts/generateSQL.ts:45-47 | Whitespace after a text, a trailing no-break space included, does not change its trim. |
| JsString.TrimNoSpace | src/middleware/auth.ts:17-18 | Trimming text without whitespace at its ends changes nothing. |
| JsString.NatToString | src/handlers/safeMahallahRegistration.ts:74 | `String(n)` is a non-empty decimal numeral whose value is `n`. |
| JsString.IntToString | src/handlers/safeMahallahRegistration.ts:74 | `String(n)` is non-empty and made of digits, with at most a leading minus. |
| JsString.IntToStringHasNoSeparator | src/handlers/safeMahallahRegistration.ts:74 | A numeral contains no character other than digits and a minus sign, so none of the separators the bot splits on. |
| JsString.Number | src/middleware/auth.ts:18 | `Number` of blank text is 0. |
| JsString.NumberOfIntToString | src/handlers/postingHandler.ts:28 | `Number(String(n)) === n`. |
| JsString.TrimIntToString | src/middleware/auth.ts:18 | A numeral has no surrounding whitespace. |
| JsString.SignedValueOfIntToString | src/handlers/postingHandler.ts:28 | The signed value of a numeral is its number. |
| JsString.DigitPrefix | scripts/generateSQL.ts:48 | The longest prefix made of digits: the next character, if any, is not a digit. |
| JsString.DigitPrefixAll | scripts/generateSQL.ts:48 | A string of digits is its own digit prefix. |
| JsString.ParseIntOfIntToString | scripts/generateSQL.ts:48 | `parseInt(String(n)) === n`. |
| Sessions.Session.constructor | src/types/context.ts:10-21 | A new session holds no pending post, no activity being edited and no registration data. |
| RateLimiting.FirstAdmissible | src/utils/rateLimiter.ts:64-82 | `findIndex`: the index found is admissible and every earlier task is not. `None` means no task is admissible. |
| RateLimiting.FindAdmissible | src/utils/rateLimiter.ts:64-82 | The search loop finds an index exactly when one is admissible, and the index is the first admissible one. |
| RateLimiting.FirstAdmissibleIsUnique | src/utils/rateLimiter.ts:64-82 | The first admissible index is unique. |
| RateLimiting.RateLimiter.constructor | src/utils/rateLimiter.ts:19-24 | A new limiter has an empty queue, is not processing, has no counters, and its global counter starts at 0 at creation. |
| RateLimiting.RateLimiter.Enqueue | src/utils/rateLimiter.ts:26-40 | The queue becomes the stable sort, by descending priority, of the old queue plus the task. A pass starts exactly when none was running. The counters are unchanged. |
| RateLimiting.RateLimiter.Step | src/utils/rateLimiter.ts:42-122 | One `processQueue` pass brings the limiter to the state, and gives the result, that `Pass` specifies. It keeps the global and group caps. |
| RateLimiting.RateLimiter.Splice | src/utils/rateLimiter.ts:91 | `splice(i, 1)[0]` returns task `i` and removes it from the queue, keeping the other tasks in order. |
| RateLimiting.RateLimiter.CountAdmission | src/utils/rateLimiter.ts:94-103 | The counter updates made before a task runs are exactly `Admit`. |
| RateLimiting.RateLimiter.PurgeExpiredGroups | src/utils/rateLimiter.ts:56-61 | The loop that deletes every group counter a minute old or older leaves exactly `PurgeGroups` of the old counters. |
| RateLimiting.RateLimiter.ClearChatCounters | src/utils/rateLimiter.ts:124-127 | Both per-chat maps are emptied. Nothing else changes and the caps still hold. |
| RateLimiting.PassKeepsValid | src/utils/rateLimiter.ts:42-122 | A pass never lets the global count exceed 30, or a group's count exceed 20. |
| RateLimiting.PassOnEmptyQueue | src/utils/rateLimiter.ts:43-48 | A pass is idle exactly on an empty queue, and then only `isProcessing` changes. Any other pass sets `isProcessing`. |
| RateLimiting.PassIsPaced | src/utils/rateLimiter.ts:84-121 | After an admitted task the next pass waits at least the 50 ms pacing delay. After a blocked pass it waits 100 ms. Only an empty queue ends the passes. |
| RateLimiting.PacingCapsRate | src/utils/rateLimiter.ts:119-121 | Admissions at least 50 ms apart, as `RateLimiting.PassIsPaced` proves successive passes are, number at most 20 in any second, below the broadcast limit of 30. The lemma is stated over the admission times, not over `Pass` itself. |
| RateLimiting.PassBlocksIffNoneAdmissible | src/utils/rateLimiter.ts:84-89 | A pass waits exactly when no queued task is admissible after the resets. It then waits 100 ms and changes nothing but the resets. |
| RateLimiting.PassAdmitsFirstAdmissible | src/utils/rateLimiter.ts:91-116 | An admitting pass runs the first admissible task and splices it out, keeping every other task in place. After a 429 the task returns to the front with one more priority. |
| RateLimiting.ResetRules | src/utils/rateLimiter.ts:51-61 | The global counter restarts after a second. Group counters a minute old are deleted and the others are kept. Private counters and the queue are untouched. |
| RateLimiting.AdmitCounters | src/utils/rateLimiter.ts:94-103 | Admission adds one to the global count. It sets a private chat's counter to {1, now}. It increments a group's counter keeping its start, or creates it at {1, now}. No other counter changes. |
| RateLimiting.PrivateCooldown | src/utils/rateLimiter.ts:69-73 | A private chat that just received a task gets nothing more for one second. |
| RateLimiting.GroupCapHolds | src/utils/rateLimiter.ts:74-79 | A group counter at 20 blocks that group. A pass never moves a surviving counter's start. |
| RateLimiting.GlobalCapBlocks | src/utils/rateLimiter.ts:65-67 | With 30 admissions in the current second, the pass waits. |
| RateLimiting.SortedQueueAdmitsHighest | src/utils/rateLimiter.ts:34 | In a queue sorted by `enqueue`, the admitted task has the highest priority among the admissible ones. |
| RateLimiting.RequeueCanUnsortQueue | src/utils/rateLimiter.ts:110 | The 429 requeue uses `unshift` without re-sorting, so a sorted queue can come out unsorted. |
| RateLimiting.EnqueueSorts | src/utils/rateLimiter.ts:33-34 | `enqueue` adds exactly the new task and leaves the queue in non-increasing priority order. Equal priorities keep their arrival order. In a sorted queue the task goes after every task of priority at least its own. |
| RateLimiting.SafeCallTask | src/utils/rateLimiter.ts:134-191 | The wrappers enqueue at priority 0, for the given chat, and use the given chat type when there is one. |
| RateLimiting.SafeCallDefaults | src/utils/rateLimiter.ts:134-191 | Without a chat type, copy, edit and delete face only the global cap, while a send is held by the private cooldown. |
| Channels.ChatTitle | src/handlers/channelManagement.ts:10-15 | A chat's title is its own title when it has one. |
| Channels.UntitledChatNamedById | src/handlers/channelManagement.ts:10-15 | Without a title, the name is "Chat " followed by a numeral that reads back as the chat id. |
| Channels.StoredTypeOf | src/handlers/channelManagement.ts:66 | A new row is stored as 'channel' exactly for a channel, and as 'group' for any other chat type. |
| Channels.ChannelTable.constructor | src/handlers/channelManagement.ts:6 | The table starts empty, with rows keyed by chat id and distinct row ids. |
| Channels.ChannelTable.HandleNewAdmin | src/handlers/channelManagement.ts:17-80 | Only an 'administrator' status acts; a plain 'member' status is asked for admin rights. An inactive row is reactivated with the current title. An active row is left alone. An unknown chat gets a new active row of the right type. Row ids stay distinct. |
| Channels.ChannelTable.HandleLeftChat | src/handlers/channelManagement.ts:82-102 | Unless the new status is 'administrator', the chat's active row becomes inactive. Nothing else changes, and nothing is ever activated. |
| Channels.ChannelTable.RemoveChannel | src/handlers/channelManagement.ts:202-241 | Only an active row is removed. It becomes inactive whether or not leaving the chat succeeded, and its title is reported. Otherwise nothing changes. |
| Channels.EveryTypeHeaded | src/handlers/channelManagement.ts:139-151 | Every listed row has a heading of its type at or before it. |
| Channels.SortedRowsHeadEachTypeOnce | src/handlers/channelManagement.ts:126-151 | In rows ordered by type, as the query orders them, each type gets exactly one heading. |
| Channels.ListPage | src/handlers/channelManagement.ts:139-151 | The listing loop produces the lines `Listing` specifies, and one remove button per row, in row order. |
| Channels.ListNavSpec | src/handlers/channelManagement.ts:158-177 | First and Prev appear exactly when there is an earlier page. Next and Last appear exactly when rows exist past this page, and Last leads to the page holding the last row. |
| Channels.ListChannels | src/handlers/channelManagement.ts:104-187 | No active rows gives the 'no channels' reply. Otherwise the reply lists the page's window of rows and shows page `page + 1` of `ceil(total / 10)`. It has one remove button per shown row, and a navigation row exactly when there is somewhere to go. |
| Posting.ChatIds | src/handlers/postingHandler.ts:28 | `channels.map(ch => Number(ch.chatId))` keeps one id per row, in row order. |
| Posting.Active | src/handlers/postingHandler.ts:16-18 | The active query returns exactly the rows that are active. |
| Posting.DefaultSelectsEveryActiveChannel | src/handlers/postingHandler.ts:25-29 | The default selection names exactly the chat ids of the active channels. |
| Posting.SelectAllActive | src/handlers/postingHandler.ts:45-58 | With no active channel, nothing becomes pending. Otherwise the post becomes pending with every active channel selected. The rest of the session is unchanged. |
| Posting.HandleForward | src/handlers/postingHandler.ts:9-36 | Only a message forwarded from a chat starts a forward post. Then, with active channels, the post is pending with all of them selected. |
| Posting.HandleDirectPost | src/handlers/postingHandler.ts:38-65 | Only a text or photo message starts a direct post. Then, with active channels, the post is pending with all of them selected. |
| Posting.IndexOf | src/handlers/postingHandler.ts:145 | `indexOf` is -1 exactly when the id is absent. Otherwise it is the first position holding the id. |
| Posting.Toggled | src/handlers/postingHandler.ts:145-154 | An absent id is pushed at the end. A present id loses one entry. |
| Posting.ToggleRemovesOneOccurrence | src/handlers/postingHandler.ts:152 | Toggling a selected id removes exactly one occurrence of it and nothing else. |
| Posting.ToggleTwiceRestores | src/handlers/postingHandler.ts:145-154 | Toggling an unselected channel twice gives back the selection. |
| Posting.ToggleFlipsOneChannel | src/handlers/postingHandler.ts:145-154 | On a selection without duplicates, a toggle flips that channel's membership only and keeps the selection free of duplicates. |
| Posting.SelectDataRoundTrip | src/handlers/postingHandler.ts:95-145 | A button's `select_channel:<id>` data splits in two, and its second part reads back as the chat id. |
| Posting.ToggleTarget | src/handlers/postingHandler.ts:131-162 | The heading button changes nothing. Without a pending post, the toggle is refused. Otherwise the selection is toggled, and the answer says whether the channel was removed or added. |
| Posting.PlaceButton | src/handlers/postingHandler.ts:81-103 | One loop iteration. On a new type, a pending single button is flushed and a heading row pushed. The channel's button then joins the pending row, which is pushed once it holds two. The buttons read in order and the row invariants are kept. |
| Posting.ChannelSelector | src/handlers/postingHandler.ts:67-114 | Read row by row, the keyboard is the selector's buttons followed by Confirm and Cancel. Rows hold at most two buttons, and a heading has a row of its own. A row left with one channel is flushed only before a heading or the control row. The control row comes last. |
| Posting.CloseKeyboard | src/handlers/postingHandler.ts:106-114 | Flushing the pending row and appending the control row keeps the row invariants and puts the buttons in order. |
| Posting.SelectorShowsEveryChannel | src/handlers/postingHandler.ts:80-104 | The selector shows one button per listed channel, in list order. A button is marked selected exactly when its channel is a target. |
| Posting.ThrottleType | src/handlers/postingHandler.ts:208-220 | A copy is throttled as a group exactly when the target's row is a group. Otherwise, unknown targets included, it is throttled as a channel. |
| Posting.UnknownTargetThrottledAsChannel | src/handlers/postingHandler.ts:220 | A target without a row faces only the global cap. |
| Posting.TargetResult | src/handlers/postingHandler.ts:213-266 | A target yields a record exactly when its copy was sent and its channel row was found. The record holds the copy's message id and the row's id. |
| Posting.Present | src/handlers/postingHandler.ts:278 | `filter(msg => msg !== null)` keeps one entry per present result, and exactly the present values. |
| Posting.OrderStep | src/handlers/postingHandler.ts:213-269 | In a completion order, each target completes once. |
| Posting.Broadcast | src/handlers/postingHandler.ts:188-269 | The fold over completions, in any order, yields `Expected`: one result per target, in target order. Success counts the present results, and success plus failed is the total. A progress edit follows only a success whose copy was recorded, at least 5000 ms after the last successful edit or the start. |
| Posting.ConfirmPosting | src/handlers/postingHandler.ts:164-298 | With no pending post, or no target, no copy task is handed to the rate limiter. Otherwise there is one copy task per target, in target order, throttled by the target's stored type, or as a channel when it has no row. Then an activity is written exactly when some copy succeeded and persisting worked, and it holds the present records. The reply reports success, failed and total, and the pending post is deleted. A persist error keeps the pending post and gives the error reply. |
| Posting.RecordsMatchSuccesses | src/handlers/postingHandler.ts:272-281 | The stored records are exactly the successful copies: a copy that was sent to a target with a row, carrying that row's id. |
| Posting.CancelPosting | src/handlers/postingHandler.ts:300-304 | Cancelling drops the pending post and nothing else. |
| Activities.EscapersAgree | src/handlers/activityHandler.ts:107-115 | The handler's two escapers have the same class. That class is exactly the MarkdownV2 reserved set, so both agree with `Markdown.EscapeMarkdown` on every input. |
| Activities.Utf16LengthOfBmp | src/handlers/activityHandler.ts:38 | For text of Basic Multilingual Plane characters, `.length` is the number of characters. |
| Activities.CutUnits | src/handlers/activityHandler.ts:38 | `substring(0, k)` keeps the longest prefix of whole characters that fits in `k` UTF-16 code units. |
| Activities.Preview | src/handlers/activityHandler.ts:37-38 | The preview is never longer than 30 UTF-16 code units. It is the text itself exactly when the text fits. Otherwise it is what `substring(0, 27)` keeps, followed by "...". That is 27 code units, or 26 when the cut falls inside an emoji. |
| Activities.TruncateBody | src/handlers/activityHandler.ts:179-183 | An escaped body of at most 800 UTF-16 code units is kept whole. A longer one keeps what `substring(0, 800)` keeps and ends in "...". |
| Activities.TrailingDotsRefused | src/handlers/activityHandler.ts:182 | A MarkdownV2 text ending in two dots is never accepted by Telegram, whatever precedes them and whatever entity is open. |
| Activities.HeaderClosed | src/handlers/activityHandler.ts:185-198 | Telegram reads the whole header of the detail view, with every bold title closed, for any date without a backslash and any counts. |
| Activities.TruncatedDetailRefused | src/handlers/activityHandler.ts:143-199 | As written, every detail message whose escaped body exceeds 800 code units is not accepted, whatever the header. With the real header and a text without backslashes, it is refused. |
| Activities.CutBodyRefused | src/handlers/activityHandler.ts:179-183 | The cut body of a text without backslashes is refused on its own, wherever the cut falls. |
| Activities.ShortDetailAccepted | src/handlers/activityHandler.ts:143-199 | A detail message whose escaped body fits in 800 code units is accepted, for a text and date without backslashes, and ends with the text as typed. |
| Activities.DetailBodyCorrected | src/handlers/activityHandler.ts:179-183 | The corrected body displays exactly the text cut to 800 code units, followed by "..." when it was longer. |
| Activities.IntendedDetailAccepted | src/handlers/activityHandler.ts:143-199 | With the corrected body, the detail message of every post is accepted, and it ends with the cut text. |
| Activities.BackslashPostRefused | src/handlers/activityHandler.ts:112-115 | As written, a post whose text is a backslash followed by a character such as `.` gets a detail message Telegram refuses. |
| Activities.ActivityLogNavSpec | src/handlers/activityHandler.ts:50-84 | No navigation row for five activities or fewer. First and Prev appear exactly when there is an earlier page. Next appears exactly when activities follow this page, and Last appears with it. Last leads to the page holding the oldest activity. |
| Activities.Live | src/handlers/activityHandler.ts:11-12 | The query returns exactly the activities not marked deleted. |
| Activities.ShowActivityLog | src/handlers/activityHandler.ts:9-100 | An empty page gives the 'log is empty' reply. Otherwise there is one button per activity in the page's window, then the navigation row when there is one. The total counts the live activities. The page note `page + 1 / ceil(total / 5)` shows exactly when there is more than one page. |
| Activities.ActionRow | src/handlers/activityHandler.ts:150-164 | Delete comes first and the channel list last. Edit is offered exactly for a direct post with text. |
| Activities.ChannelLinesSpec | src/handlers/activityHandler.ts:444-453 | Page `page` lists the copies from `page * 20` to `min(page * 20 + 20, total)`, in order. They are numbered from `page * 20 + 1` with escaped titles. A page past the end lists nothing. |
| Activities.ChannelsNavSpec | src/handlers/activityHandler.ts:455-476 | No navigation row with one page or fewer. Prev appears exactly when there is an earlier page and more than one page. Next appears exactly when copies follow this page. |
| Activities.EditAll | src/handlers/activityHandler.ts:371-393 | A photo aborts exactly when there is a copy to edit. A text is sent to every copy, in order. The number updated is the number of successful edits, and updated plus failed is the number of copies. Any other message edits nothing. |
| Activities.DeleteAll | src/handlers/activityHandler.ts:291-298 | One deletion is attempted per copy, in order, whatever earlier ones did. |
| Activities.ActivityStore.StartEdit | src/handlers/activityHandler.ts:314-341 | Unauthorized callers and activities that are missing or not direct are refused, and the session is unchanged. Otherwise the session remembers the activity. |
| Activities.ActivityStore.HandleEdit | src/handlers/activityHandler.ts:343-413 | Without an activity being edited, nothing happens and nothing is sent. A missing activity, a change between text and media, or a photo with copies to edit sends nothing and leaves the store and the session unchanged. Otherwise a text edit sends one edit request per copy, with that copy's chat, message id and the new text. When the final update is stored, the content is replaced, the session forgets the activity, and the counts are those of `EditAll`. When that update fails, the reply is the failure and the store and session are unchanged. |
| Activities.ActivityStore.DeleteActivity | src/handlers/activityHandler.ts:265-312 | Unauthorized callers and missing activities change nothing and send nothing. Otherwise every copy gets a deletion request. When the final update is stored, the activity is marked deleted and nothing else in the store changes. When that update fails, the reply is the failure and the store is unchanged. |
| Auth.AdminIds | src/middleware/auth.ts:7-22 | An unset or empty variable gives no admins. Otherwise the list has one entry per comma-separated piece of the text before the first `#`. |
| Auth.ReadList | src/middleware/auth.ts:18 | The list has one entry more than the text has commas. |
| Auth.AdminIdsOfPieces | src/middleware/auth.ts:16-18 | Numerals and empty pieces joined by commas, with or without a `#` comment, are read piece by piece with `Number`. |
| Auth.AdminIdsRoundTrip | src/middleware/auth.ts:7-22 | Ids written as numerals joined by commas, with or without a comment, read back as exactly those ids. |
| Auth.TrailingCommaListsZero | src/middleware/auth.ts:18 | A trailing comma adds the id 0 to the list. |
| Auth.IsAdminSpec | src/middleware/auth.ts:26-53 | Channel posts always pass. Group and supergroup messages that are not commands always pass. Any other update passes exactly when its sender is truthy and listed. A refusal replies exactly in a private chat. |
| Auth.ConfiguredAdminsOnly | src/middleware/auth.ts:7-53 | With `ADMIN_IDS` listing some ids, a private message passes exactly when its nonzero sender is one of them. Anyone else is refused with a reply. |
| Auth.ZeroNeverAdmitted | src/middleware/auth.ts:44 | The user id 0 is refused in a private chat even when the list holds 0. |
| Registration.PayloadRoundTrip | src/handlers/safeMahallahRegistration.ts:74-108 | A payload built from two integer ids splits into exactly three parts. Its chat part and admin part read back as those ids. |
| Registration.AdminName | src/handlers/safeMahallahRegistration.ts:147 | The name starts with the first name. It is exactly the first name when the last name is absent or empty. |
| Registration.StartSpec | src/handlers/safeMahallahRegistration.ts:100-159 | Only a payload without the `connect_` prefix is left unhandled. A prefixed payload without exactly two underscores is a bad link. A session starts exactly for a well-formed link, opened by an admin of the chat, naming a known chat that has no mahallah yet. The session is at the region step, for the link's chat, with the current user as admin. |
| Registration.LinkAdminIgnored | src/handlers/safeMahallahRegistration.ts:108-149 | The admin id written into a link is never used: two links for the same chat behave alike. |
| Registration.LinkStartsWizard | src/handlers/safeMahallahRegistration.ts:74-154 | The link posted for an unregistered chat, opened by an admin of it, starts the wizard for that chat. |
| Registration.HandleStartWithPayload | src/handlers/safeMahallahRegistration.ts:100-159 | The reply is `Start`'s. The call reports handled exactly when the payload is a connect link. The session holds the new registration data exactly when the wizard starts. |
| Registration.SelectionSpec | src/handlers/safeMahallahRegistration.ts:205-346 | Without a session, the session has expired. A choice is recorded exactly when the session exists, the user is still an admin and the place is known. Then the step moves on and the chat, the admin and earlier choices are kept. Otherwise nothing changes. The session's current step is never consulted. |
| Registration.HandleRegionSelection | src/handlers/safeMahallahRegistration.ts:205-273 | The reply and the new registration data are `RegionSelection`'s, for the id after the first `:`. |
| Registration.HandleDistrictSelection | src/handlers/safeMahallahRegistration.ts:275-346 | The reply and the new registration data are `DistrictSelection`'s, for the id after the first `:`. |
| Registration.RegisteredRow | src/handlers/safeMahallahRegistration.ts:380-388 | Registration keeps the row's identity, chat, title and activity. It sets the mahallah, the registered status and the admin. |
| Registration.HandleMahallahSelection | src/handlers/safeMahallahRegistration.ts:348-419 | Registration completes exactly when the session exists, the user is an admin, the mahallah is known and the chat has a row. Then the row is registered and one confirmation is appended. The session ends exactly when the closing answer and the legacy-Markdown edit succeed. When either throws, the writes stand and the registration data stays. Otherwise nothing changes. |
| Registration.HandleBotAddedSafe | src/handlers/safeMahallahRegistration.ts:17-95 | A status other than administrator writes nothing. A member status asks to be promoted. A chat already registered to a mahallah is left alone. Otherwise the row is marked pending and active, or created that way, and the link `connect_<chat>_<sender>` is posted. |
| Registration.ReminderSpec | src/handlers/safeMahallahRegistration.ts:425-458 | No reminder goes to an unknown or registered chat. Any other chat's reminder, opened by one of its admins, starts the wizard for it. |
| Registration.RegisteredChatClosed | src/handlers/safeMahallahRegistration.ts:131-141 | After registration, any link to the chat is refused as already registered, and no reminder is sent. |
| StableSort.InsertSplit | src/utils/rateLimiter.ts:34 | Inserting places the element at `InsertIndex`: after every leading element whose key is not greater, before the first with a greater key. |
| StableSort.InsertAt | src/index.ts:145 | In a sorted sequence, a position with no greater key before it and only greater keys from it on is where the element is inserted. |
| StableSort.InsertPermutes | src/index.ts:145 | Inserting adds exactly the one element. |
| StableSort.InsertKeepsSorted | src/index.ts:145 | Inserting into a sorted sequence keeps it sorted. |
| StableSort.SortIsSortedPermutation | src/index.ts:145 | `sort` with the comparator `key(a) - key(b)` orders by ascending key and only rearranges the elements. |
| StableSort.SortOfSorted | src/utils/rateLimiter.ts:34 | Sorting an already sorted sequence changes nothing. |
| StableSort.SortAppend | src/utils/rateLimiter.ts:33-34 | Pushing onto a sorted queue and sorting again inserts the new element after every element whose key is not greater. |
| StableSort.WithKeyInsert | src/index.ts:145 | Inserting an element into a sorted sequence puts it last among the elements with its key. |
| StableSort.SortIsStable | src/index.ts:145 | Among elements with equal keys, `sort` keeps their input order. |
| Bot.SortById | src/index.ts:145 | The in-place sort leaves the array holding the stable sort of its old contents by ascending message id. |
| Bot.InsertInto | src/index.ts:145 | One step of the in-place sort inserts `a[i]` into the sorted prefix and leaves the rest of the array alone. |
| Bot.PlacedAt | src/index.ts:145 | Shifting the greater elements of a sorted prefix one place right and putting the element in the gap is inserting it. |
| Bot.FirstCaptioned | src/index.ts:148 | The index found holds a captioned message and none before it is captioned. Nothing is found exactly when no message is captioned. |
| Bot.MainMessage | src/index.ts:148 | The main message is absent exactly for an empty album. Otherwise it is one of the album's messages. |
| Bot.MainMessageChoice | src/index.ts:148 | The main message is the first captioned message when there is one, and the first message otherwise. |
| Bot.MediaEntries | src/index.ts:153-163 | One entry per photo message, and never more entries than messages. |
| Bot.MediaEntriesAppend | src/index.ts:153-163 | The entries of two runs of messages are the entries of each, one after the other. |
| Bot.EntriesFollowMessages | src/index.ts:153-163 | The photo message at `i` gives the entry right after those of the photo messages before it. |
| Bot.AllPhotos | src/index.ts:153-163 | An album of photos only gives one entry per message, in order. |
| Bot.ProcessMediaGroup | src/index.ts:143-167 | The array is sorted by id in place. The album is built from the sorted messages: their main message and their entries. |
| Bot.SortedAlbum | src/index.ts:145 | The posted album is sorted by id, holds the same messages, and keeps the arrival order of messages with equal ids. |
| Bot.Buffered | src/index.ts:188-218 | Buffering a message adds its album id to the buffer's albums and no other. |
| Bot.BufferedWellFormed | src/index.ts:188-218 | Buffering keeps every album non-empty and made only of its own messages. The message goes last in its album, and other albums are unchanged. |
| Bot.BufferAllCollects | src/index.ts:188-218 | After any run of album messages, each album holds its earlier messages followed by the run's messages with its id, in arrival order. |
| Bot.MediaGroupBuffer.Add | src/index.ts:188-218 | The buffer becomes `Buffered` of the old buffer and the message, and stays well formed. |
| Bot.MediaGroupBuffer.Flush | src/index.ts:198-211 | The album's entry is removed. Its messages come back exactly when it was there, and they are never empty. |
| Bot.MediaGroupBuffer.OnTimeout | src/index.ts:198-211 | The album is removed. A post is made exactly when it was there: the sorted album's main message and entries, with a main message always present. |
| Bot.Precedence | src/index.ts:170-235 | In a private chat, an activity being edited wins. A keyboard text is passed on. Then an album message is buffered under its id, then a forward starts a forward post, and only then does a text or photo start a direct post. |
| Bot.OnMessage | src/index.ts:170-235 | The route is `HandleMessage`'s. The buffer changes exactly for an album message, by `Buffered`. |
| Bot.CommandRun | src/index.ts:81-110 | The run is the longest prefix of command characters: letters, digits and `_`. |
| Bot.WholeRun | src/index.ts:81-110 | A run of command characters followed by anything else is read whole. |
| Bot.CommandOfWord | src/index.ts:81-110 | A slash and a name of 1 to 64 command characters, followed by the end or by a character that does not continue a command, invokes that name for every bot. |
| Bot.CommandOfMention | src/index.ts:81-110 | A command followed by `@` and a username of 3 to 32 characters is the bot's exactly when the username is the bot's own. |
| Bot.HyphenEndsCommand | src/index.ts:81-110 | `/post-x` invokes `post`. |
| Bot.OtherBotsCommandIgnored | src/index.ts:81-110 | `/post@other_bot` is passed on by every other bot. |
| Bot.OwnMentionAccepted | src/index.ts:81-110 | `/post@other_bot` invokes `post` for the bot named `other_bot`. |
| Bot.DispatchAppend | src/index.ts:81-260 | Running two chains one after the other is the first chain's route when it has one, and the second's otherwise. |
| Bot.NoneMatches | src/index.ts:81-260 | A chain none of whose handlers matches passes the message on. |
| Bot.NothingHandledOutsidePrivate | src/index.ts:170-171 | Outside a private chat the route, if any, is a command's or text's route for other chats. The message handler never takes it. |
| Bot.CommandAheadOfMessages | src/index.ts:170-260 | Moving a command ahead of the message handler changes the route of no message the command does not match. |
| Bot.PostAfterMessages | src/index.ts:170-248 | With the message handler registered before `/post`, it takes `/post` in a private chat. Elsewhere the command takes it and does nothing. |
| Bot.PostBeforeMessages | src/index.ts:238-248 | With `/post` registered first, `/post` shows the prompt in a private chat and does nothing elsewhere. |
| Bot.AheadMissesSlashPost | src/index.ts:81-110 | No command or text registered before the message handler takes `/post`. |
| Bot.ChainOnSlashPost | src/index.ts:81-260 | As registered, `/post` goes to the message handler in a private chat and to the no-op command elsewhere. |
| Bot.SlashPostNeverPrompts | src/index.ts:170-248 | As registered, `/post` never shows the new-post prompt. An admin's `/post` in a private chat, outside an edit, becomes a direct post of the text "/post". |
| Bot.IntendedPostPrompt | src/index.ts:238-248 | With `/post` registered before the message handler, an admin's `/post` in a private chat shows the prompt, whatever the session holds. |
| Bot.IntendedAgreesElsewhere | src/index.ts:81-260 | Moving `/post` ahead changes the route of no update other than `/post`'s. |
| Bot.OnMyChatMember | src/index.ts:113-119 | A chat member update is handled as the bot's promotion exactly when the new status is administrator. Any other status is handled as the bot leaving. |
| Production.GateSpec | src/index.PRODUCTION.ts:43-60 | Only a text starting with an admin command can be stopped. One is let through exactly when its sender is a listed admin, and a refusal replies only in a private chat. |
| Production.SlashFirst | src/index.PRODUCTION.ts:50 | A text the guard treats as an admin command starts with a slash. |
| Production.PrefixGated | src/index.PRODUCTION.ts:50 | Any text that starts with `/` and an admin command's name is guarded, whatever follows. |
| Production.LongerWordsGated | src/index.PRODUCTION.ts:50 | `/posts` and `/reports` are guarded, though no such commands exist. |
| Production.OpenCommands | src/index.PRODUCTION.ts:44-50 | `/start`, `/register` and `/cleanup` are not guarded. |
| Production.RegisterRouting | src/index.PRODUCTION.ts:133-140 | `/register` reaches its handler from anyone. It is refused in a private chat and starts the in-group registration elsewhere. |
| Production.AheadMissesPlainText | src/index.PRODUCTION.ts:93-179 | No command or keyboard text registered before the message handler takes a plain text. |
| Production.AnyoneStartsAPost | src/index.PRODUCTION.ts:46-60 | As written, anyone's plain text in a private chat starts a direct post, listed admin or not. |
| Production.IntendedGateStopsStrangers | src/index.PRODUCTION.ts:46-60 | Behind the intended guard, anyone but a listed admin is refused in a private chat. Listed admins, groups and channels are routed as before. |
| Production.SlashPostNeverPrompts | src/index.PRODUCTION.ts:245-316 | `/post` is registered after the message handler here too, so it never shows its prompt. |
| Production.ChainOnSlashPost | src/index.PRODUCTION.ts:93-316 | `/post` goes to the message handler in a private chat and to the no-op command elsewhere. |
| GenerateSql.EscapeSqlOnePass | scripts/generateSQL.ts:12-14 | The two chained `.replace` calls equal one pass that escapes `'` and `"`: the second never acts on the first one's output. |
| GenerateSql.EscapeSqlPerCharacter | scripts/generateSQL.ts:12-14 | `escapeSql` works character by character. It puts one backslash before each `'` and `"` and copies every other character, the backslash included. |
| GenerateSql.ReadsBack | scripts/generateSQL.ts:12-14 | Escaping a set of characters that MySQL reads back as themselves, the quote among them, makes a text read back exactly. The text must have no backslash, or have its backslashes escaped too. What follows the closing quote is left over. |
| GenerateSql.Unterminated | scripts/generateSQL.ts:93 | A literal with no quote left after it never closes. |
| GenerateSql.EscapeSqlReadsBackWithoutBackslash | scripts/generateSQL.ts:12-14 | As written, any value without a backslash reads back exactly. |
| GenerateSql.EscapeSqlMisreadByMysql | scripts/generateSQL.ts:12-14 | As written, a name made of one backslash swallows the closing quote. The literal never closes, whatever follows on the line. |
| GenerateSql.CorrectedReservedReadBack | scripts/generateSQL.ts:12-14 | The backslash and both quotes read back as themselves after a backslash. |
| GenerateSql.EscapeSqlCorrectedOnePass | scripts/generateSQL.ts:12-14 | The corrected chain, backslash first, equals one pass that escapes the backslash and both quotes. |
| GenerateSql.EscapeSqlCorrectedReadsBack | scripts/generateSQL.ts:12-14 | With the backslash escaped too, every value reads back exactly. |
| GenerateSql.LowerAndReplace | scripts/generateSQL.ts:17 | Lower-casing and replacing keep the length. Every character becomes a slug character, and slug characters are kept. |
| GenerateSql.Squeeze | scripts/generateSQL.ts:17 | Squeezing never lengthens the text and empties only the empty text. It keeps the first and last characters, adds no new character, and leaves no two underscores in a row. |
| GenerateSql.TrimUnderscoresSpec | scripts/generateSQL.ts:17 | Trimming a squeezed text of slug characters leaves no underscore at either end. |
| GenerateSql.Slugify | scripts/generateSQL.ts:16-18 | A slug holds only lower-case ASCII letters, digits and single underscores, and never starts or ends with an underscore. |
| GenerateSql.SlugifyOfSlug | scripts/generateSQL.ts:16-18 | A text of that form slugifies to itself. |
| GenerateSql.SlugifyIdempotent | scripts/generateSQL.ts:16-18 | Slugifying a slug changes nothing. |
| GenerateSql.FirstTruthy | scripts/generateSQL.ts:38-41 | A value is found exactly when some column holds a truthy cell. It is the cell under the first such column. |
| GenerateSql.ExtractKeeps | scripts/generateSQL.ts:37-51 | A row is kept exactly when region, district and mahallah each have a truthy cell under one of their columns. The population is present exactly when one of its columns holds a truthy cell. |
| GenerateSql.ExtractTrims | scripts/generateSQL.ts:45-47 | The kept names have no surrounding whitespace, in JavaScript's sense, no-break spaces included. |
| GenerateSql.SpacePaddedCellSameEntry | scripts/generateSQL.ts:45-47 | A name cell with whitespace after its text, such as a trailing no-break space, gives the same entry as the bare text, so both rows fall under one region, district and mahallah. |
| GenerateSql.ExtractNumericPopulation | scripts/generateSQL.ts:48 | A numeric population cell is parsed back to its own value. |
| GenerateSql.KeptAppend | scripts/generateSQL.ts:37-51 | Each row contributes its own entry or nothing, in order, and never more entries than rows. |
| GenerateSql.CollectEntries | scripts/generateSQL.ts:35-51 | The row loop pushes exactly the kept rows, in order. |
| GenerateSql.SetTwice | scripts/generateSQL.ts:60-65 | Setting a key twice is setting it to the second value. |
| GenerateSql.GroupByRegion | scripts/generateSQL.ts:56-69 | The grouping loop computes `Grouped` of the kept rows. |
| GenerateSql.FirstSeen | scripts/generateSQL.ts:56-69 | The first-seen order holds each element of the sequence exactly once. |
| GenerateSql.AppendOne | scripts/generateSQL.ts:58-68 | One more row adds its region, its district within its region, and itself to its district, at the end. |
| GenerateSql.GroupedDescribes | scripts/generateSQL.ts:56-69 | Regions appear in the order first seen. Under each, its districts appear in the order first seen. Under each district, its rows appear in input order. |
| GenerateSql.FlattenGrouped | scripts/generateSQL.ts:56-69 | Every kept row lands exactly once in the grouping. |
| GenerateSql.TotalDistrictsAdd | scripts/generateSQL.ts:64-66 | A row adds a district exactly when its (region, district) pair is new. |
| GenerateSql.TotalDistrictsGrouped | scripts/generateSQL.ts:145 | The summed district map sizes count the distinct (region, district) pairs. |
| GenerateSql.RegionInsertMisread | scripts/generateSQL.ts:93 | As written, the `INSERT` of a region named by a single backslash opens a literal MySQL never sees closed. |
| GenerateSql.RegionInsertReadsBack | scripts/generateSQL.ts:93 | Corrected, every region's `INSERT` holds exactly the region's name. Its literal closes right before the rest of the statement. |
| GenerateSql.PopulationColumnOfRow | scripts/generateSQL.ts:48-115 | The population column is written exactly when the first truthy population cell parses to a non-zero number. A numeric cell gives its own value. |
| GenerateSql.EmitDistrict | scripts/generateSQL.ts:104-119 | One district's lines are appended: its comment, its variable, one `INSERT` per row in list order, and a blank line. |
| GenerateSql.EmitDistrictInserts | scripts/generateSQL.ts:98-100 | One district `INSERT` per district key is appended, in key order. |
| GenerateSql.EmitDistricts | scripts/generateSQL.ts:104-119 | Each district's lines are appended in the map's order. |
| GenerateSql.EmitRegion | scripts/generateSQL.ts:89-120 | One region's lines are appended: its comment, `INSERT` and variable, then its district `INSERT`s, then each district's lines. |
| GenerateSql.EmitSql | scripts/generateSQL.ts:74-132 | The emitted lines are the header, every region's lines in first-seen order, and the statistics query. |
| GenerateSql.BetweenCount | scripts/generateSQL.ts:74-132 | Lines that insert nothing around a block leave its `INSERT` count alone. |
| GenerateSql.EmissionCounts | scripts/generateSQL.ts:89-120 | The script has one region `INSERT` per region key and one district `INSERT` per district key. It has one mahallah `INSERT` per row in the map. |
| GenerateSql.GeneratedCounts | scripts/generateSQL.ts:89-148 | One region `INSERT` per distinct region, one district `INSERT` per distinct (region, district) pair, and one mahallah `INSERT` per kept row. |
| GenerateSql.GenerateSqlScript | scripts/generateSQL.ts:20-159 | The script is the emission of the grouped kept rows. The three reported statistics equal the numbers of region, district and mahallah `INSERT`s in it. |

## Left out

- Timers, promises and `Promise.all` are not modelled. A rate-limiter pass is one call of `Step` with `now` and the admitted task's outcome as parameters. An album flush is the moment its timer fires. The waits a pass returns are values, not sleeps.
- `Posting.Broadcast`: each progress edit is atomic within its completion. In the source, the `await` on `editMessageText` lets other completions interleave before `lastUpdate` is written. The counts and records do not depend on this, but the exact set of progress edits can.
- Prisma queries and Telegram API calls are not executed. Their results are parameters: table contents, `copied[i]`, `editOk[k]`, `leaveSucceeded`, `isChatAdmin`, `persistOk`, `finalEditOk`. Where such a parameter exists, a failing call is its `false`. This includes the final `prisma.activity.update` of `handleEdit` and `deleteActivity`, whose `persistOk` selects the failure reply. The calls listed below have no such parameter. The model assumes each of them succeeds.
- `Posting.ConfirmPosting`: the status `ctx.reply` (`src/handlers/postingHandler.ts:179`), the `prisma.channel.findMany` of the targets' types (:196) and the final summary reply (:285) always succeed. When the first two throw, the source sends no copies and keeps `pendingPost`. The model always hands over one copy task per target.
- `Channels.ChannelTable.HandleNewAdmin`: the `prisma.channel.update` (`src/handlers/channelManagement.ts:51`) and `prisma.channel.create` (:62) always succeed. When they throw, the source gives the error reply and leaves the rows as they were. The model always commits the new rows.
- `Channels.ChannelTable.HandleLeftChat`: the `prisma.channel.updateMany` (`src/handlers/channelManagement.ts:90`) always succeeds. The model always deactivates the active row.
- `Channels.ChannelTable.RemoveChannel`: the `prisma.channel.update` after leaving (`src/handlers/channelManagement.ts:228`) always succeeds. The model always deactivates the row.
- `Registration.HandleMahallahSelection`: the `prisma.channel.update` and `prisma.adminConfirmation.create` (`src/handlers/safeMahallahRegistration.ts:380-399`) always succeed, apart from the update of a chat with no row, which the model refuses as the source does. When the confirmation create throws after the row update, the source keeps the row registered and the session, and answers with the error. The model always appends the confirmation.
- `Registration.HandleBotAddedSafe`: the `prisma.channel.findUnique` and `prisma.channel.upsert` (`src/handlers/safeMahallahRegistration.ts:36-72`) always succeed. When they throw, the source writes nothing and gives the error reply. The model always writes the pending row.
- A database lookup whose result is a parameter, such as the table contents, never throws in the model.
- `checkAuthorization`, which `src/handlers/activityHandler.ts:4` imports, is not defined in `src/middleware/auth.ts`. Its answer is the input `authorized`.
- `postingHandler.handleMediaGroup`, which `src/index.ts:166` calls, does not exist in `src/handlers/postingHandler.ts`. `Bot.ProcessMediaGroup` returns the album it would be handed.
- Console output, reply texts and inline-keyboard labels are left out, except where a label carries data (callback data, page numbers, preview text).
- The date strings of `toLocaleString`, `toLocaleTimeString` and `toISOString` are not modelled. The script's timestamp is the parameter `generated`.
- The `Math.round` progress percentage of `confirmPosting` is floating point and left out.
- `JSON.parse` and `JSON.stringify` of stored message content are left out. A stored activity holds the message value itself.
- `Activities.Preview`: when `substring` cuts inside an emoji, JavaScript keeps the emoji's lone high surrogate. A Dafny string holds whole characters only, so the model keeps the text before that emoji. The kept text is then one code unit shorter than the source's. `Activities.CutUnits`, which both cut with, and `Activities.TruncateBody` are modelled the same way.
- `Activities.ContentTypeText`: a message of the model has no video or document field, so the `Video` and `Fayl` content types are not modelled. Such a post shows `Boshqa`.
- `Bot.LeadingCommand`: only ASCII letters, digits and `_` continue a command. Telegram also refuses a command followed directly by a non-ASCII letter or digit. The model reads that command. `Bot.CommandOfWord` and `Bot.CommandRun` share this restriction.
- `Bot.CommandName`: the mention is compared with the bot's username exactly. A mention that differs only in letter case is treated as another bot's.
- `Markdown.ScanV2`: italic, underline, strikethrough, spoilers, links, code and quotes are read as `Unmodelled`. Only texts that open none of them are judged. The length limit of a message is not modelled.
- The plain-text fallback of the detail view (`src/handlers/activityHandler.ts:213-242`), sent when Telegram refuses the MarkdownV2 text, is not modelled.
- `handleBackToLog` only re-shows the log. It is covered by `Activities.ShowActivityLog`.
- `Activities.ChannelLinesSpec`: `page` is a natural number because the callback patterns at `src/index.ts:130-131` admit only digits.
- `JsString`: `Number`, `parseInt` and `BigInt` are modelled on decimal numerals with surrounding whitespace. Hexadecimal, exponent and fractional forms are out of scope. `Registration.Start` reads the chat id with `Number` where the database lookup uses `BigInt`. The two agree on every numeral a link can carry.
- `GenerateSql.LowerAndReplace`: `toLowerCase` is modelled on ASCII letters only. A non-ASCII letter becomes `_` either way, but Unicode case mapping that yields ASCII letters (such as the Kelvin sign) is not modelled.
- `GenerateSql.Cell`: the spreadsheet reader gives text or integer cells. Fractional and date cells are not modelled.
- `GenerateSql.GenerateSqlScript`: the script is the sequence of its lines. The UTF-8 byte-order mark, the `join('\n')` and the file write are left out.
- `GenerateSql.ReadsBack`: MySQL is modelled under its default SQL mode, where a backslash escapes. Under `NO_BACKSLASH_ESCAPES` a backslash is an ordinary character, and every `\'` the script writes would close its literal.
- What MySQL does with `ON DUPLICATE KEY UPDATE` and `LAST_INSERT_ID()` is not modelled. On a duplicate region, `LAST_INSERT_ID()` is not that region's id, so `@region_<slug>` may name another row.
- Two names with the same slug share one `@region_` or `@district_` variable, so a later line can use another name's id. The model does not track variable values.
- A name containing a newline breaks its `-- <name>` comment line. The model keeps each line as one value.
- Registration: `addedByAdminName` is not a field of the modelled channel row. The confirmation record carries the admin's name.
- `src/index.PRODUCTION.ts:182-188` makes the same `my_chat_member` decision as `src/index.ts:113-119`, modelled by `Bot.OnMyChatMember`. It sends a promotion to `handleBotAddedSimple` of `src/handlers/inGroupRegistration.ts`, which is not part of this model.
- The album buffer and `processMediaGroup` of `src/index.PRODUCTION.ts` are the ones of `src/index.ts`. They are modelled once, in `Bot`.
- `Posting.ChannelSelector` and `Posting.PlaceButton`: each type heading is created with `hide` set to `true` (`src/handlers/postingHandler.ts:86-90`), and Telegraf's `inlineKeyboard` drops hidden buttons. Telegram therefore gets an empty row where the model has a `Heading` button. The heading case of `Posting.ToggleTarget` cannot be reached from the keyboard Telegram shows.
- Callback-query routing (`bot.action` patterns) is not modelled. The handlers are modelled from the point where the callback data is read.

## Findings

| source | as written | input that shows it | evidently intended | confidence | as-written member | corrected member |
|---|---|---|---|---|---|---|
| src/handlers/activityHandler.ts:112-115 | `escapeMarkdownV2` escapes the 18 reserved characters but not the backslash. The handler calls it on the post's text at line 144. `escapeMarkdown` of `src/utils/markdown.ts:4-25` has the same class, and `Activities.EscapersAgree` proves the two equal. | A post whose text is `\.`: its detail message is refused. The text `\x` shows as `x`. | The backslash is escaped too, so Telegram shows the text as typed. | high; not executed | Activities.BackslashPostRefused | Activities.IntendedDetailAccepted |
| src/handlers/activityHandler.ts:179-183 | The escaped body is cut to 800 code units and an unescaped `...` is appended. | Any post without backslashes whose escaped text is longer than 800 code units: the detail message is refused. | Cut the text, then escape it with the ellipsis. | high; not executed | Activities.TruncatedDetailRefused | Activities.DetailBodyCorrected |
| src/index.ts:170-248 | `/post` is registered after the catch-all message handler. | An admin sends `/post` in a private chat: the text "/post" is handled as a direct post. The prompt never shows. | `/post` shows the new-post prompt. | medium; not executed | Bot.SlashPostNeverPrompts | Bot.IntendedPostPrompt |
| src/index.PRODUCTION.ts:46-60 | The admin gate guards only texts that start with an admin command. | A stranger sends "hello" in a private chat: it reaches the posting handler as a direct post. | Private chats stay admin-only, as under `src/index.ts`. | medium; not executed | Production.AnyoneStartsAPost | Production.IntendedGateStopsStrangers |
| scripts/generateSQL.ts:12-14 | `escapeSql` escapes quotes but not the backslash. | A region named `\`: the line reads `VALUES ('\')`, and the literal never closes on that line. | The backslash is escaped first, so every name reads back. | high; not executed | GenerateSql.EscapeSqlMisreadByMysql | GenerateSql.EscapeSqlCorrectedReadsBack |
