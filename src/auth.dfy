/** The admin gate (src/middleware/auth.ts): the list of admin ids read once
    from the `ADMIN_IDS` environment variable, and the `isAdmin` middleware
    that lets an update through to the next handler or stops it.

    The environment variable is the input `env` (`None` when unset). */
module Auth {
  import opened Wrappers
  import opened JsString
  import opened Telegram

  /** `getAdminIds()`: an unset or empty variable gives no admins; otherwise
      everything from the first `#` on is a comment, and the rest is a
      comma-separated list read with `Number` after trimming each piece. */
  function AdminIds(env: Option<String>): (ids: seq<Num>)
    ensures env.None? || env.value == [] ==> ids == []
    ensures env.Some? && env.value != [] ==> |ids| == Count(Trim(Split(env.value, '#')[0]), ',') + 1
  {
    if env.None? || env.value == [] then []
    else ReadList(Trim(Split(env.value, '#')[0]))
  }

  /** `clean.split(',').map(id => Number(id.trim()))` */
  function ReadList(clean: String): (ids: seq<Num>)
    ensures |ids| == Count(clean, ',') + 1
  {
    var pieces := Split(clean, ',');
    seq(|pieces|, i requires 0 <= i < |pieces| => Number(Trim(pieces[i])))
  }

  /** `String(n)` for each id. */
  function Numerals(ids: seq<int>): (parts: seq<String>)
    ensures |parts| == |ids|
    ensures forall i :: 0 <= i < |ids| ==> parts[i] == IntToString(ids[i])
  {
    seq(|ids|, i requires 0 <= i < |ids| => IntToString(ids[i]))
  }

  function Finites(ids: seq<int>): (nums: seq<Num>)
    ensures |nums| == |ids|
    ensures forall i :: 0 <= i < |ids| ==> nums[i] == Finite(ids[i])
  {
    seq(|ids|, i requires 0 <= i < |ids| => Finite(ids[i]))
  }

  /** A piece the list may hold: a decimal numeral or nothing at all. */
  ghost predicate NumeralOrEmpty(piece: String) {
    piece == [] || exists n :: piece == IntToString(n)
  }

  /** The value of a piece: `Number` of a numeral or of nothing. */
  function PieceValues(parts: seq<String>): seq<Num> {
    seq(|parts|, i requires 0 <= i < |parts| => Number(parts[i]))
  }

  /** `ADMIN_IDS` as the list followed, or not, by a `#` comment. */
  function WithComment(list: String, comment: Option<String>): String {
    if comment.Some? then list + ['#'] + comment.value else list
  }

  lemma CommentDropped(list: String, comment: Option<String>)
    requires '#' !in list
    ensures Split(WithComment(list, comment), '#')[0] == list
  {
    if comment.Some? {
      SplitAfterPiece(list, '#', comment.value);
    } else {
      SplitNoSeparator(list, '#');
    }
  }

  /** A character a list of numerals joined by commas may hold. */
  predicate ListChar(x: char) {
    x == ',' || x == '-' || IsDigit(x)
  }

  predicate AllListChars(list: String) {
    forall i :: 0 <= i < |list| ==> ListChar(list[i])
  }

  lemma JoinedNumeralChars(parts: seq<String>)
    requires |parts| >= 1
    requires forall i :: 0 <= i < |parts| ==> NumeralOrEmpty(parts[i])
    ensures AllListChars(Join(parts, ','))
  {
    forall k | 0 <= k < |Join(parts, ',')|
      ensures ListChar(Join(parts, ',')[k])
    {
      var x := Join(parts, ',')[k];
      JoinChars(parts, ',', x);
      if x != ',' {
        var i :| 0 <= i < |parts| && x in parts[i];
        var n :| parts[i] == IntToString(n);
      }
    }
  }

  lemma JoinOfNumerals(parts: seq<String>)
    requires |parts| >= 1 && parts[0] != []
    requires forall i :: 0 <= i < |parts| ==> NumeralOrEmpty(parts[i])
    ensures '#' !in Join(parts, ',')
    ensures Trim(Join(parts, ',')) == Join(parts, ',')
  {
    JoinedNumeralChars(parts);
    JoinPrefix(parts, ',');
    ListUntrimmed(Join(parts, ','));
    ListHasNoHash(Join(parts, ','));
  }

  lemma ListHasNoHash(list: String)
    requires AllListChars(list)
    ensures '#' !in list
  {
    forall i | 0 <= i < |list|
      ensures list[i] != '#'
    {
      assert ListChar(list[i]);
    }
  }

  /** A nonempty list of list characters has no blank to trim. */
  lemma ListUntrimmed(list: String)
    requires |list| >= 1
    requires AllListChars(list)
    ensures Trim(list) == list
  {
    assert ListChar(list[0]) && ListChar(list[|list| - 1]);
    TrimNoSpace(list);
  }

  lemma ReadJoined(parts: seq<String>)
    requires |parts| >= 1
    requires forall i :: 0 <= i < |parts| ==> NumeralOrEmpty(parts[i])
    ensures ReadList(Join(parts, ',')) == PieceValues(parts)
  {
    forall i | 0 <= i < |parts|
      ensures ',' !in parts[i] && Trim(parts[i]) == parts[i]
    {
      if parts[i] != [] {
        var n :| parts[i] == IntToString(n);
        IntToStringHasNoSeparator(n, ',');
        TrimIntToString(n);
      }
    }
    SplitJoin(parts, ',');
  }

  /** A list of numerals and empty pieces joined by commas, with or without
      a `#` comment after it, is read piece by piece with `Number`. */
  lemma AdminIdsOfPieces(parts: seq<String>, comment: Option<String>)
    requires |parts| >= 1 && parts[0] != []
    requires forall i :: 0 <= i < |parts| ==> NumeralOrEmpty(parts[i])
    ensures AdminIds(Some(WithComment(Join(parts, ','), comment))) == PieceValues(parts)
  {
    JoinOfNumerals(parts);
    CommentDropped(Join(parts, ','), comment);
    ReadJoined(parts);
  }

  lemma {:induction false} JoinPrefix(parts: seq<String>, c: char)
    requires |parts| >= 1
    ensures |parts[0]| <= |Join(parts, c)| && Join(parts, c)[..|parts[0]|] == parts[0]
  {
  }

  /** `ADMIN_IDS` written as the ids joined by commas, with or without a
      comment, gives those ids back. */
  lemma AdminIdsRoundTrip(ids: seq<int>, comment: Option<String>)
    requires |ids| >= 1
    ensures AdminIds(Some(WithComment(Join(Numerals(ids), ','), comment))) == Finites(ids)
  {
    var parts := Numerals(ids);
    forall i | 0 <= i < |parts|
      ensures NumeralOrEmpty(parts[i]) && Number(parts[i]) == Finite(ids[i])
    {
      NumberOfIntToString(ids[i]);
    }
    AdminIdsOfPieces(parts, comment);
  }

  /** A trailing comma (`ADMIN_IDS=1,2,`) adds the id 0 to the list. */
  lemma TrailingCommaListsZero(ids: seq<int>)
    requires |ids| >= 1
    ensures AdminIds(Some(Join(Numerals(ids) + [[]], ','))) == Finites(ids) + [Finite(0)]
  {
    var parts := Numerals(ids) + [[]];
    forall i | 0 <= i < |parts|
      ensures NumeralOrEmpty(parts[i])
    {
      if i < |ids| {
        assert parts[i] == IntToString(ids[i]);
      }
    }
    AdminIdsOfPieces(parts, None);
    assert WithComment(Join(parts, ','), None) == Join(parts, ',');
    ValuesWithEmptyLast(ids);
  }

  lemma ValuesWithEmptyLast(ids: seq<int>)
    ensures PieceValues(Numerals(ids) + [[]]) == Finites(ids) + [Finite(0)]
  {
    var parts := Numerals(ids) + [[]];
    var values := PieceValues(parts);
    forall i | 0 <= i < |values|
      ensures values[i] == (Finites(ids) + [Finite(0)])[i]
    {
      if i < |ids| {
        assert parts[i] == IntToString(ids[i]);
        NumberOfIntToString(ids[i]);
      } else {
        assert parts[i] == [];
      }
    }
  }

  /** What `isAdmin` does with an update. */
  datatype Gate = Next | Refused(repliedInPrivate: bool)

  /** The message is a text starting with `/`. */
  predicate IsCommand(message: Option<Message>) {
    message.Some? && message.value.text.Some? && StartsWith(message.value.text.value, "/")
  }

  /** The sender's id is truthy and in the admin list. */
  predicate Listed(adminIds: seq<Num>, u: Update) {
    u.from.Some? && u.from.value.id != 0 && Finite(u.from.value.id) in adminIds
  }

  /** `isAdmin(ctx, next)` */
  function IsAdmin(adminIds: seq<Num>, u: Update): Gate {
    if u.InChatOfType(Channel) then Next
    else if (u.InChatOfType(Group) || u.InChatOfType(Supergroup)) && !IsCommand(u.message) then Next
    else if u.from.None? || u.from.value.id == 0 || Finite(u.from.value.id) !in adminIds then
      Refused(u.InChatOfType(Private))
    else Next
  }

  /** Channel posts and group traffic other than commands always pass; any
      other update passes exactly when its sender is a listed admin; a refusal
      answers only in a private chat. */
  lemma IsAdminSpec(adminIds: seq<Num>, u: Update)
    ensures u.InChatOfType(Channel) ==> IsAdmin(adminIds, u) == Next
    ensures (u.InChatOfType(Group) || u.InChatOfType(Supergroup)) && !IsCommand(u.message) ==> IsAdmin(adminIds, u) == Next
    ensures !u.InChatOfType(Channel) && !((u.InChatOfType(Group) || u.InChatOfType(Supergroup)) && !IsCommand(u.message)) ==>
      (IsAdmin(adminIds, u) == Next <==> Listed(adminIds, u))
    ensures IsAdmin(adminIds, u).Refused? ==> (IsAdmin(adminIds, u).repliedInPrivate <==> u.InChatOfType(Private))
  {
  }

  /** An admin named in `ADMIN_IDS` is let through everywhere; anyone else
      is stopped in a private chat and told so. */
  lemma ConfiguredAdminsOnly(ids: seq<int>, u: Update)
    requires |ids| >= 1
    requires u.InChatOfType(Private) && u.from.Some?
    ensures var gate := IsAdmin(AdminIds(Some(Join(Numerals(ids), ','))), u);
      (gate == Next <==> u.from.value.id in ids && u.from.value.id != 0)
      && (gate != Next ==> gate == Refused(true))
  {
    AdminIdsRoundTrip(ids, None);
    FinitesMembership(ids, u.from.value.id);
  }

  lemma FinitesMembership(ids: seq<int>, id: int)
    ensures Finite(id) in Finites(ids) <==> id in ids
  {
    var listed := Finites(ids);
    if id in ids {
      var k :| 0 <= k < |ids| && ids[k] == id;
      assert listed[k] == Finite(id);
    }
    if Finite(id) in listed {
      var k :| 0 <= k < |listed| && listed[k] == Finite(id);
      assert ids[k] == id;
    }
  }

  /** The user id 0 is never let through a private chat, even when the list
      holds 0 (as a trailing comma makes it). */
  lemma ZeroNeverAdmitted(adminIds: seq<Num>, u: Update)
    requires u.InChatOfType(Private) && u.from.Some? && u.from.value.id == 0
    ensures IsAdmin(adminIds, u) == Refused(true)
  {
  }
}
