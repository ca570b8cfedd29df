/** The activity log (src/handlers/activityHandler.ts): the paged list of
    past broadcasts, the detail view with its MarkdownV2 body, the paged list
    of the channels a broadcast reached, and editing or deleting a broadcast's
    copies in every channel.

    A stored activity is the `activity` row joined with its messages and each
    message's channel. The database lookups and Telegram calls are inputs:
    `editOk[k]` is whether editing the `k`th copy succeeds. Whether the caller
    passes `checkAuthorization` is the input `authorized`. */
module Activities {
  import opened Wrappers
  import opened Telegram
  import opened Sessions
  import Escaping
  import Markdown
  import Paging
  import JsString

  const ItemsPerPage: nat := 5
  const PreviewLimit: nat := 30
  const PreviewKeep: nat := 27
  const BodyLimit: nat := 800
  const ChannelsPerPage: nat := 20

  /** One copy of a broadcast: its message id and its channel's chat id and title. */
  datatype StoredMessage = StoredMessage(messageId: int, chatId: int, channelTitle: String)

  /** An activity row; `content` is the admin's original message. */
  datatype StoredActivity = StoredActivity(
    id: String,
    postType: PostType,
    content: Message,
    messages: seq<StoredMessage>,
    isDeleted: bool)

  /** The characters of the regular-expression class the handler's two
      escapers use, `[_*\[\]()~`>#+=|{}.!-]`. */
  predicate InEscapeClass(c: char) {
    c == '_' || c == '*' || c == '[' || c == ']' || c == '(' || c == ')' || c == '~' || c == '`' || c == '>'
    || c == '#' || c == '+' || c == '=' || c == '|' || c == '{' || c == '}' || c == '.' || c == '!' || c == '-'
  }

  const EscapeClass: set<char> := set c: char | InEscapeClass(c)

  /** `escapeMarkdownV2(text)` and the handler's own `escapeMarkdown(text)`:
      both replace every character of the class by a backslash and itself. */
  function EscapeMarkdownV2(text: string): string {
    Escaping.EscapeAll(text, EscapeClass)
  }

  /** The handler's escapers and `escapeMarkdown` of the utilities agree on
      every input: the class holds exactly the MarkdownV2 reserved set. */
  lemma EscapersAgree(text: string)
    ensures EscapeClass == Markdown.V2Reserved
    ensures EscapeMarkdownV2(text) == Markdown.EscapeMarkdown(text)
    ensures EscapeMarkdownV2(text) == Escaping.EscapeAll(text, Markdown.V2Reserved)
  {
    Markdown.EscapeMarkdownIsOnePass(text);
  }

  /** `content.text || content.caption || 'Media kontent'` */
  function PreviewSource(content: Message): String {
    if content.text.Some? && content.text.value != [] then content.text.value
    else if content.HasCaption() then content.caption.value
    else "Media kontent"
  }

  /** The UTF-16 code units a character takes in a JavaScript string: two
      for a character outside the Basic Multilingual Plane (most emoji). */
  function Units(c: char): nat {
    if c as int >= 0x10000 then 2 else 1
  }

  /** `s.length` in JavaScript: the number of UTF-16 code units. */
  function Utf16Length(s: String): nat {
    if s == [] then 0 else Units(s[0]) + Utf16Length(s[1..])
  }

  lemma {:induction false} Utf16LengthAppend(a: String, b: String)
    ensures Utf16Length(a + b) == Utf16Length(a) + Utf16Length(b)
  {
    if a == [] {
      assert a + b == b;
    } else {
      assert (a + b)[1..] == a[1..] + b;
      Utf16LengthAppend(a[1..], b);
    }
  }

  /** Text of Basic Multilingual Plane characters has one code unit per
      character. */
  lemma {:induction false} Utf16LengthOfBmp(s: String)
    requires forall i :: 0 <= i < |s| ==> s[i] as int < 0x10000
    ensures Utf16Length(s) == |s|
  {
    if s != [] {
      Utf16LengthOfBmp(s[1..]);
    }
  }

  lemma EmojiTakesTwoUnits()
    ensures Utf16Length("📋") == 2 && |"📋"| == 1
  {
    assert "📋"[1..] == [];
  }

  /** The characters `s.substring(0, k)` keeps whole: the longest prefix of
      `s` that fits in `k` code units. */
  function CutUnits(s: String, k: nat): (p: String)
    ensures |p| <= |s| && p == s[..|p|]
    ensures Utf16Length(p) <= k
    ensures |p| < |s| ==> Utf16Length(p) + Units(s[|p|]) > k
  {
    if s == [] || Units(s[0]) > k then []
    else
      var rest := CutUnits(s[1..], k - Units(s[0]));
      assert ([s[0]] + rest)[1..] == rest;
      [s[0]] + rest
  }

  /** `kept` is what `s.substring(0, k)` keeps of a text longer than `k` code
      units: exactly `k` units, or `k - 1` when the cut falls inside the
      surrogate pair of the next character. */
  predicate KeptOfCut(s: String, kept: String, k: nat) {
    |kept| < |s| && kept == s[..|kept|]
    && (Utf16Length(kept) == k || (Utf16Length(kept) + 1 == k && Units(s[|kept|]) == 2))
  }

  /** A text longer than `k` units is cut to `KeptOfCut`, with the
      ellipsis after it. */
  lemma CutWithEllipsis(s: String, k: nat)
    requires Utf16Length(s) > k
    ensures KeptOfCut(s, CutUnits(s, k), k)
    ensures Utf16Length(CutUnits(s, k) + "...") <= k + 3
    ensures (CutUnits(s, k) + "...")[|CutUnits(s, k) + "..."| - 3..] == "..."
    ensures (CutUnits(s, k) + "...")[..|CutUnits(s, k) + "..."| - 3] == CutUnits(s, k)
  {
    var p := CutUnits(s, k);
    Utf16LengthAppend(p, "...");
    assert "..."[1..] == ".." && ".."[1..] == "." && "."[1..] == [];
  }

  /** The list preview: the text itself when it fits in 30 code units,
      otherwise what `substring(0, 27)` keeps and an ellipsis. */
  function Preview(s: String): (p: String)
    ensures Utf16Length(p) <= PreviewLimit
    ensures p == s <==> Utf16Length(s) <= PreviewLimit
    ensures Utf16Length(s) > PreviewLimit ==>
      |p| >= 3 && p[|p| - 3..] == "..." && KeptOfCut(s, p[..|p| - 3], PreviewKeep)
  {
    if Utf16Length(s) > PreviewLimit then
      CutWithEllipsis(s, PreviewKeep);
      CutUnits(s, PreviewKeep) + "..."
    else s
  }

  /** The detail body as written: the escaped text, cut to what
      `substring(0, 800)` keeps with "..." appended when it is longer than
      800 code units. */
  function TruncateBody(escaped: String): (b: String)
    ensures Utf16Length(escaped) <= BodyLimit ==> b == escaped
    ensures Utf16Length(escaped) > BodyLimit ==>
      |b| >= 3 && b[|b| - 3..] == "..." && KeptOfCut(escaped, b[..|b| - 3], BodyLimit)
  {
    if Utf16Length(escaped) > BodyLimit then
      CutWithEllipsis(escaped, BodyLimit);
      CutUnits(escaped, BodyLimit) + "..."
    else escaped
  }

  /** A MarkdownV2 text ending in two dots is never accepted: the last dot
      is a reserved character without a backslash in front of it. */
  lemma {:induction false} TrailingDotsRefused(p: string, boldOpen: bool)
    ensures !Markdown.ScanV2(p + ['.', '.'], boldOpen).Read?
    decreases |p|
  {
    var r := p + ['.', '.'];
    if p == [] {
      assert Markdown.NeverOpens(r[0]);
    } else if p[0] == Escaping.Backslash && 1 <= r[1] as int <= 126 {
      if |p| == 1 {
        assert r[2..] == ['.'];
        assert Markdown.NeverOpens(r[2..][0]);
      } else {
        assert r[2..] == p[2..] + ['.', '.'];
        TrailingDotsRefused(p[2..], boldOpen);
      }
    } else if !Markdown.IsV2Reserved(p[0]) {
      assert r[1..] == p[1..] + ['.', '.'];
      TrailingDotsRefused(p[1..], boldOpen);
    } else if p[0] == '*' {
      assert r[1..] == p[1..] + ['.', '.'];
      TrailingDotsRefused(p[1..], !boldOpen);
    }
  }

  /** The body of the detail view of an activity with this content. */
  function DetailBody(content: Message): String {
    TruncateBody(EscapeMarkdownV2(PreviewSource(content)))
  }

  /* The header of the detail view (activityHandler.ts:185-198), line by
     line, each line followed by the `'\n'` of the `join`. */

  /** `activity.type === 'forward' ? 'Forward qilingan' : 'To\'g\'ridan\\-to\'g\'ri'` */
  function PostTypeText(t: PostType): String {
    if t == Forward then "Forward qilingan" else "To'g'ridan" + "\\-" + "to'g'ri"
  }

  /** The content-type word: 'Matn' for a text, 'Rasm' for a photo. */
  function ContentTypeText(c: Message): String {
    if c.text.Some? then "Matn" else if c.photo.Some? then "Rasm" else "Boshqa"
  }

  /** `totalChannels > 0 ? 100 : 0` */
  function SuccessRate(total: nat): nat {
    if total > 0 then 100 else 0
  }

  function TitleLines(): String {
    Markdown.Bold("📋 Faoliyat Hisoboti") + "\n\n"
  }

  function DateLine(date: String): String {
    Markdown.Bold("📅 Sana:") + " " + EscapeMarkdownV2(date) + "\n"
  }

  function TypeLine(t: PostType): String {
    Markdown.Bold("📝 Turi:") + " " + PostTypeText(t) + " xabar\n"
  }

  function KindLines(c: Message): String {
    Markdown.Bold("📄 Kontent turi:") + " " + ContentTypeText(c) + "\n\n"
  }

  /** A line of the statistics: a caption, a number and its unit. */
  function CountLine(lead: String, n: nat, tail: String): String {
    lead + JsString.NatToString(n) + tail
  }

  function StatsLines(total: nat): String {
    Markdown.Bold("📊 Statistika:") + "\n"
    + CountLine("• Jami kanallar: ", total, " ta\n")
    + CountLine("• Muvaffaqiyatli yuborilgan: ", total, " ta\n")
    + CountLine("• Muvaffaqiyat darajasi: ", SuccessRate(total), "%\n\n")
  }

  function BodyTitle(): String {
    Markdown.Bold("💬 Xabar mazmuni:") + "\n"
  }

  /** The lines of the detail message before its body; `date` is the
      `toLocaleString()` of the creation time. */
  function DetailHeader(a: StoredActivity, date: String): String {
    TitleLines() + DateLine(date) + TypeLine(a.postType) + KindLines(a.content) + StatsLines(|a.messages|) + BodyTitle()
  }

  /** The MarkdownV2 text `handleActivitySelection` sends. */
  function DetailText(a: StoredActivity, date: String): String {
    DetailHeader(a, date) + DetailBody(a.content)
  }

  /** Text Telegram reads from the closed state back to it without opening
      anything else, and which does not end in a backslash. */
  predicate ReadsClosed(s: String) {
    Markdown.ScanV2(s, false).Read? && !Markdown.ScanV2(s, false).boldOpen
    && (s == [] || s[|s| - 1] != Escaping.Backslash)
  }

  lemma Glue(a: String, b: String)
    requires ReadsClosed(a) && ReadsClosed(b) && b != []
    ensures ReadsClosed(a + b)
  {
    Markdown.ScanAppend(a, b, false);
    assert (a + b)[|a + b| - 1] == b[|b| - 1];
  }

  lemma PlainClosed(s: String)
    requires Markdown.Plain(s)
    ensures ReadsClosed(s)
  {
    Markdown.PlainReads(s, false);
  }

  lemma BoldClosed(s: String)
    requires Markdown.Plain(s)
    ensures ReadsClosed(Markdown.Bold(s))
  {
    Markdown.BoldReads(s);
  }

  /** Escaped text without backslashes shows the text as typed. */
  lemma EscapedReads(u: String)
    requires Escaping.Backslash !in u
    ensures Markdown.ScanV2(EscapeMarkdownV2(u), false) == Markdown.Read(u, false)
  {
    EscapersAgree(u);
    EscapedAllReads(u);
  }

  lemma EscapedAllReads(u: String)
    requires Escaping.Backslash !in u
    ensures Markdown.ScanV2(Escaping.EscapeAll(u, Markdown.V2Reserved), false) == Markdown.Read(u, false)
  {
    var e := Escaping.EscapeAll(u, Markdown.V2Reserved);
    Markdown.EscapeMarkdownReadsBack(u, [], false);
    assert e + [] == e;
  }

  lemma EscapedClosed(u: String)
    requires Escaping.Backslash !in u
    ensures ReadsClosed(EscapeMarkdownV2(u))
  {
    EscapedReads(u);
    EscapersAgree(u);
    Markdown.EscapeAllForm(u);
  }

  lemma NumeralClosed(n: nat)
    ensures ReadsClosed(JsString.NatToString(n))
  {
    var s := JsString.NatToString(n);
    assert forall i :: 0 <= i < |s| ==> JsString.IsDigit(s[i]);
    PlainClosed(s);
  }

  /* The fixed pieces of the header hold no reserved character and no
     backslash; each fact is proved on its own, where it is cheap. */

  lemma TitlePlain() ensures Markdown.Plain("📋 Faoliyat Hisoboti") {}
  lemma DateTitlePlain() ensures Markdown.Plain("📅 Sana:") {}
  lemma TypeTitlePlain() ensures Markdown.Plain("📝 Turi:") {}
  lemma KindTitlePlain() ensures Markdown.Plain("📄 Kontent turi:") {}
  lemma StatsTitlePlain() ensures Markdown.Plain("📊 Statistika:") {}
  lemma BodyTitlePlain() ensures Markdown.Plain("💬 Xabar mazmuni:") {}
  lemma SpacePlain() ensures Markdown.Plain(" ") {}
  lemma NewlinePlain() ensures Markdown.Plain("\n") {}
  lemma BlankLinePlain() ensures Markdown.Plain("\n\n") {}
  lemma PostSuffixPlain() ensures Markdown.Plain(" xabar\n") {}
  lemma ForwardPlain() ensures Markdown.Plain("Forward qilingan") {}
  lemma DirectHeadPlain() ensures Markdown.Plain("To'g'ridan") {}
  lemma DirectTailPlain() ensures Markdown.Plain("to'g'ri") {}
  lemma ContentTypePlain(c: Message) ensures Markdown.Plain(ContentTypeText(c)) {}
  lemma ChannelsPlain() ensures Markdown.Plain("• Jami kanallar: ") {}
  lemma DeliveredPlain() ensures Markdown.Plain("• Muvaffaqiyatli yuborilgan: ") {}
  lemma RatePlain() ensures Markdown.Plain("• Muvaffaqiyat darajasi: ") {}
  lemma CountUnitPlain() ensures Markdown.Plain(" ta\n") {}
  lemma PercentPlain() ensures Markdown.Plain("%\n\n") {}

  lemma TitleLinesClosed()
    ensures ReadsClosed(TitleLines())
  {
    TitlePlain();
    BlankLinePlain();
    BoldClosed("📋 Faoliyat Hisoboti");
    PlainClosed("\n\n");
    Glue(Markdown.Bold("📋 Faoliyat Hisoboti"), "\n\n");
  }

  lemma DateLineClosed(date: String)
    requires Escaping.Backslash !in date
    ensures ReadsClosed(DateLine(date))
  {
    var head := Markdown.Bold("📅 Sana:");
    DateTitlePlain();
    SpacePlain();
    NewlinePlain();
    BoldClosed("📅 Sana:");
    PlainClosed(" ");
    PlainClosed("\n");
    Glue(head, " ");
    EscapedClosed(date);
    if EscapeMarkdownV2(date) != [] {
      Glue(head + " ", EscapeMarkdownV2(date));
    } else {
      assert head + " " + EscapeMarkdownV2(date) == head + " ";
    }
    Glue(head + " " + EscapeMarkdownV2(date), "\n");
  }

  /** `\\-` shows a hyphen. */
  lemma EscapedHyphenClosed()
    ensures ReadsClosed("\\-")
  {
    var r := "\\-";
    assert r[2..] == [];
    assert Markdown.ScanV2(r, false) == Markdown.ShownBefore("-", Markdown.Read([], false));
  }

  lemma PostTypeTextClosed(t: PostType)
    ensures ReadsClosed(PostTypeText(t)) && PostTypeText(t) != []
  {
    if t == Forward {
      ForwardPlain();
      PlainClosed("Forward qilingan");
    } else {
      DirectHeadPlain();
      DirectTailPlain();
      PlainClosed("To'g'ridan");
      PlainClosed("to'g'ri");
      EscapedHyphenClosed();
      Glue("To'g'ridan", "\\-");
      Glue("To'g'ridan" + "\\-", "to'g'ri");
    }
  }

  lemma TypeLineClosed(t: PostType)
    ensures ReadsClosed(TypeLine(t))
  {
    var head := Markdown.Bold("📝 Turi:");
    TypeTitlePlain();
    SpacePlain();
    PostSuffixPlain();
    BoldClosed("📝 Turi:");
    PlainClosed(" ");
    PlainClosed(" xabar\n");
    PostTypeTextClosed(t);
    Glue(head, " ");
    Glue(head + " ", PostTypeText(t));
    Glue(head + " " + PostTypeText(t), " xabar\n");
  }

  lemma KindLinesClosed(c: Message)
    ensures ReadsClosed(KindLines(c))
  {
    var head := Markdown.Bold("📄 Kontent turi:");
    KindTitlePlain();
    SpacePlain();
    BlankLinePlain();
    ContentTypePlain(c);
    BoldClosed("📄 Kontent turi:");
    PlainClosed(" ");
    PlainClosed("\n\n");
    PlainClosed(ContentTypeText(c));
    Glue(head, " ");
    Glue(head + " ", ContentTypeText(c));
    Glue(head + " " + ContentTypeText(c), "\n\n");
  }

  /** A line `<lead><number><tail>`, lead and tail plain. */
  lemma CountLineClosed(lead: String, n: nat, tail: String)
    requires Markdown.Plain(lead) && Markdown.Plain(tail) && lead != [] && tail != []
    ensures ReadsClosed(CountLine(lead, n, tail))
  {
    PlainClosed(lead);
    PlainClosed(tail);
    NumeralClosed(n);
    Glue(lead, JsString.NatToString(n));
    Glue(lead + JsString.NatToString(n), tail);
  }

  lemma StatsLinesClosed(total: nat)
    ensures ReadsClosed(StatsLines(total))
  {
    var l0 := Markdown.Bold("📊 Statistika:") + "\n";
    var l1 := CountLine("• Jami kanallar: ", total, " ta\n");
    var l2 := CountLine("• Muvaffaqiyatli yuborilgan: ", total, " ta\n");
    var l3 := CountLine("• Muvaffaqiyat darajasi: ", SuccessRate(total), "%\n\n");
    StatsTitlePlain();
    NewlinePlain();
    ChannelsPlain();
    DeliveredPlain();
    RatePlain();
    CountUnitPlain();
    PercentPlain();
    BoldClosed("📊 Statistika:");
    PlainClosed("\n");
    Glue(Markdown.Bold("📊 Statistika:"), "\n");
    CountLineClosed("• Jami kanallar: ", total, " ta\n");
    CountLineClosed("• Muvaffaqiyatli yuborilgan: ", total, " ta\n");
    CountLineClosed("• Muvaffaqiyat darajasi: ", SuccessRate(total), "%\n\n");
    Glue(l0, l1);
    Glue(l0 + l1, l2);
    Glue(l0 + l1 + l2, l3);
  }

  lemma BodyTitleClosed()
    ensures ReadsClosed(BodyTitle())
  {
    BodyTitlePlain();
    NewlinePlain();
    BoldClosed("💬 Xabar mazmuni:");
    PlainClosed("\n");
    Glue(Markdown.Bold("💬 Xabar mazmuni:"), "\n");
  }

  /** Telegram reads the whole header, every bold title closed, and it ends
      in the newline before the body. */
  lemma HeaderClosed(a: StoredActivity, date: String)
    requires Escaping.Backslash !in date
    ensures ReadsClosed(DetailHeader(a, date))
  {
    TitleLinesClosed();
    DateLineClosed(date);
    TypeLineClosed(a.postType);
    KindLinesClosed(a.content);
    StatsLinesClosed(|a.messages|);
    BodyTitleClosed();
    var h1 := TitleLines() + DateLine(date);
    Glue(TitleLines(), DateLine(date));
    Glue(h1, TypeLine(a.postType));
    Glue(h1 + TypeLine(a.postType), KindLines(a.content));
    Glue(h1 + TypeLine(a.postType) + KindLines(a.content), StatsLines(|a.messages|));
    Glue(h1 + TypeLine(a.postType) + KindLines(a.content) + StatsLines(|a.messages|), BodyTitle());
  }

  /** Escaped text without backslashes, cut anywhere and followed by an
      unescaped "...", is refused: the last dots are bare. */
  lemma CutEscapedThenDotsRefused(kept: String, boldOpen: bool)
    requires Markdown.EscapedForm(kept)
    ensures Markdown.ScanV2(kept + "...", boldOpen) == Markdown.Refused
  {
    var dots := Markdown.ScanV2("...", boldOpen);
    assert dots == Markdown.Refused;
    if kept == [] || kept[|kept| - 1] != Escaping.Backslash {
      Markdown.EscapedFormReads(kept, "...", boldOpen);
    } else {
      var k := kept[..|kept| - 1];
      Markdown.EscapedFormPrefix(kept, |kept| - 1);
      if k != [] && k[|k| - 1] == Escaping.Backslash {
        assert false;
      }
      assert kept + "..." == k + "\\...";
      Markdown.EscapedFormReads(k, "\\...", boldOpen);
      var r := "\\...";
      assert r[2..] == "..";
      assert Markdown.ScanV2("..", boldOpen) == Markdown.Refused;
    }
  }

  /** As written, a post whose escaped text is longer than 800 code units
      gets a detail message Telegram never accepts, whatever precedes the
      body: the appended "..." is not escaped. For the message the handler
      builds, and a post without backslashes, it is refused. */
  lemma TruncatedDetailRefused(a: StoredActivity, date: String, header: String)
    requires Utf16Length(EscapeMarkdownV2(PreviewSource(a.content))) > BodyLimit
    ensures !Markdown.ReadV2(header + DetailBody(a.content)).Read?
    ensures Escaping.Backslash !in date && Escaping.Backslash !in PreviewSource(a.content) ==>
      Markdown.ReadV2(DetailText(a, date)) == Markdown.Refused
  {
    var body := DetailBody(a.content);
    var kept := body[..|body| - 3];
    assert body == kept + "...";
    assert header + body == (header + kept + ['.']) + ['.', '.'];
    TrailingDotsRefused(header + kept + ['.'], false);
    if Escaping.Backslash !in date && Escaping.Backslash !in PreviewSource(a.content) {
      CutBodyRefused(a.content);
      HeaderClosed(a, date);
      Markdown.ScanAppend(DetailHeader(a, date), body, false);
    }
  }

  /** The body of a cut post without backslashes, read on its own from the
      closed state, is refused. */
  lemma CutBodyRefused(content: Message)
    requires Escaping.Backslash !in PreviewSource(content)
    requires Utf16Length(EscapeMarkdownV2(PreviewSource(content))) > BodyLimit
    ensures Markdown.ScanV2(DetailBody(content), false) == Markdown.Refused
  {
    var u := PreviewSource(content);
    var escaped := EscapeMarkdownV2(u);
    var body := DetailBody(content);
    var kept := body[..|body| - 3];
    assert body == kept + "...";
    EscapersAgree(u);
    Markdown.EscapeAllForm(u);
    Markdown.EscapedFormPrefix(escaped, |kept|);
    CutEscapedThenDotsRefused(kept, false);
  }


  /** A message that starts with text read from the closed state back to
      it is accepted, and ends with what its remainder shows. */
  lemma ClosedThenRead(h: String, b: String, x: String)
    requires ReadsClosed(h) && Markdown.ScanV2(b, false) == Markdown.Read(x, false)
    ensures var r := Markdown.ReadV2(h + b);
      r.Read? && |r.shown| >= |x| && r.shown[|r.shown| - |x|..] == x
  {
    var hs := Markdown.ScanV2(h, false).shown;
    Markdown.ScanAppend(h, b, false);
    assert Markdown.ScanV2(h + b, false) == Markdown.Read(hs + x, false);
    assert (hs + x)[|hs + x| - |x|..] == x;
  }

  /** A body that was not cut shows the post's text as typed. */
  lemma ShortBodyReads(content: Message)
    requires Escaping.Backslash !in PreviewSource(content)
    requires Utf16Length(EscapeMarkdownV2(PreviewSource(content))) <= BodyLimit
    ensures Markdown.ScanV2(DetailBody(content), false) == Markdown.Read(PreviewSource(content), false)
  {
    EscapedReads(PreviewSource(content));
  }

  /** A post without backslashes whose escaped text fits in 800 code units
      gets a detail message Telegram accepts, with the post's text shown as
      typed at its end. */
  lemma ShortDetailAccepted(a: StoredActivity, date: String)
    requires Escaping.Backslash !in date && Escaping.Backslash !in PreviewSource(a.content)
    requires Utf16Length(EscapeMarkdownV2(PreviewSource(a.content))) <= BodyLimit
    ensures var r := Markdown.ReadV2(DetailText(a, date));
      var text := PreviewSource(a.content);
      r.Read? && |r.shown| >= |text| && r.shown[|r.shown| - |text|..] == text
  {
    HeaderClosed(a, date);
    ShortBodyReads(a.content);
    ClosedThenRead(DetailHeader(a, date), DetailBody(a.content), PreviewSource(a.content));
  }

  /** As written, a post whose text is a backslash and a reserved
      character that never opens an entity (such as `\.`) gets a detail
      message Telegram refuses: the typed backslash escapes the escaping
      backslash, and the character is left bare. */
  lemma BackslashPostRefused(a: StoredActivity, date: String, c: char)
    requires PreviewSource(a.content) == [Escaping.Backslash, c] && Markdown.NeverOpens(c)
    requires Escaping.Backslash !in date
    ensures Markdown.ReadV2(DetailText(a, date)) == Markdown.Refused
  {
    PairBodyRefused(a.content, c);
    HeaderClosed(a, date);
    Markdown.ScanAppend(DetailHeader(a, date), DetailBody(a.content), false);
  }

  lemma PairBodyRefused(content: Message, c: char)
    requires PreviewSource(content) == [Escaping.Backslash, c] && Markdown.NeverOpens(c)
    ensures Markdown.ScanV2(DetailBody(content), false) == Markdown.Refused
  {
    var body := [Escaping.Backslash, Escaping.Backslash, c];
    EscapedPairBody(c);
    Utf16LengthOfBmp(body);
    assert DetailBody(content) == body;
    assert body[2..] == [c];
    assert Markdown.ScanV2([c], false) == Markdown.Refused;
  }

  lemma EscapedPairBody(c: char)
    requires Markdown.NeverOpens(c)
    ensures EscapeMarkdownV2([Escaping.Backslash, c]) == [Escaping.Backslash, Escaping.Backslash, c]
  {
    EscapersAgree([Escaping.Backslash, c]);
    Markdown.EscapedPair(c);
  }

  /** The text the intended body shows: cut to 800 code units with an
      ellipsis when longer. */
  function CutText(text: string): string {
    if Utf16Length(text) > BodyLimit then CutUnits(text, BodyLimit) + "..." else text
  }

  /** The evidently intended body: the text is cut first and then escaped
      as a whole (ellipsis included, backslash included), so that Telegram
      shows exactly the cut text. */
  function DetailBodyCorrected(text: string): (b: string)
    ensures Markdown.ReadV2(b) == Markdown.Read(CutText(text), false)
    ensures Utf16Length(text) <= BodyLimit ==> CutText(text) == text
    ensures Utf16Length(text) > BodyLimit ==> KeptOfCut(text, CutText(text)[..|CutText(text)| - 3], BodyLimit)
  {
    if Utf16Length(text) > BodyLimit then
      CutWithEllipsis(text, BodyLimit);
      Markdown.EscapeMarkdownCorrected(CutText(text))
    else Markdown.EscapeMarkdownCorrected(CutText(text))
  }

  /** With the intended body, the detail message of every post is accepted
      and ends with the cut text, backslashes and all. */
  lemma IntendedDetailAccepted(a: StoredActivity, date: String)
    requires Escaping.Backslash !in date
    ensures var r := Markdown.ReadV2(DetailHeader(a, date) + DetailBodyCorrected(PreviewSource(a.content)));
      var shown := CutText(PreviewSource(a.content));
      r.Read? && |r.shown| >= |shown| && r.shown[|r.shown| - |shown|..] == shown
  {
    var shown := CutText(PreviewSource(a.content));
    var body := DetailBodyCorrected(PreviewSource(a.content));
    assert Markdown.ScanV2(body, false) == Markdown.Read(shown, false);
    HeaderClosed(a, date);
    ClosedThenRead(DetailHeader(a, date), body, shown);
  }


  /** A button of the activity log's navigation row. */
  datatype PageButton = FirstPage | PrevPage(page: nat) | NextPage(page: nat) | LastPage(page: nat)

  /** The activity log's navigation row for `total` live activities. */
  function ActivityLogNav(total: nat, page: nat): seq<PageButton> {
    if total <= ItemsPerPage then []
    else
      var lastPage := Paging.CeilDiv(total, ItemsPerPage) - 1;
      (if page > 0 then [FirstPage, PrevPage(page - 1)] else [])
      + (if (page + 1) * ItemsPerPage < total then [NextPage(page + 1)] else [])
      + (if page < lastPage then [LastPage(lastPage)] else [])
  }

  /** The navigation row appears only when there is more than one page;
      First and Prev exactly when there is an earlier page; Next exactly when
      activities follow this page, and then also Last, which leads to the
      page holding the oldest activity. */
  lemma ActivityLogNavSpec(total: nat, page: nat)
    ensures total <= ItemsPerPage ==> ActivityLogNav(total, page) == []
    ensures FirstPage in ActivityLogNav(total, page) <==> total > ItemsPerPage && page > 0
    ensures page > 0 && total > ItemsPerPage ==> PrevPage(page - 1) in ActivityLogNav(total, page)
    ensures NextPage(page + 1) in ActivityLogNav(total, page) <==> (page + 1) * ItemsPerPage < total
    ensures total > ItemsPerPage ==>
      var lastPage := Paging.CeilDiv(total, ItemsPerPage) - 1;
      lastPage >= 1
      && (LastPage(lastPage) in ActivityLogNav(total, page) <==> NextPage(page + 1) in ActivityLogNav(total, page))
      && lastPage * ItemsPerPage < total <= (lastPage + 1) * ItemsPerPage
  {
    if total > ItemsPerPage {
      var pages := Paging.CeilDiv(total, ItemsPerPage);
      if page + 1 < pages {
        Paging.MulMonotone(page + 2, pages, ItemsPerPage);
      } else {
        Paging.MulMonotone(pages, page + 1, ItemsPerPage);
      }
    }
  }

  /** The activities `findMany({ where: { isDeleted: false } })` returns, in
      the given (newest first) order. */
  function Live(all: seq<StoredActivity>): (r: seq<StoredActivity>)
    ensures forall a :: a in r <==> a in all && !a.isDeleted
  {
    if all == [] then []
    else Live(all[..|all| - 1]) + (if all[|all| - 1].isDeleted then [] else [all[|all| - 1]])
  }

  /** What one activity's button shows and carries. */
  datatype LogEntry = LogEntry(activityId: String, forwarded: bool, preview: String, channelCount: nat)

  function EntryOf(a: StoredActivity): LogEntry {
    LogEntry(a.id, a.postType == Forward, Preview(PreviewSource(a.content)), |a.messages|)
  }

  datatype LogButton = Entry(entry: LogEntry) | Nav(button: PageButton)

  datatype LogReply =
    | LogEmpty
    | LogPage(keyboard: seq<seq<LogButton>>, total: nat, pageInfo: Option<(nat, nat)>)

  /** `showActivityLog(page)` over all activities, newest first. */
  method ShowActivityLog(all: seq<StoredActivity>, page: nat) returns (reply: LogReply)
    ensures var shown := Paging.Window(Live(all), page * ItemsPerPage, ItemsPerPage);
      (reply == LogEmpty <==> shown == [])
      && (reply.LogPage? ==>
            var nav := ActivityLogNav(|Live(all)|, page);
            reply.total == |Live(all)|
            && |reply.keyboard| == |shown| + (if nav == [] then 0 else 1)
            && (forall i :: 0 <= i < |shown| ==> reply.keyboard[i] == [Entry(EntryOf(shown[i]))])
            && (nav != [] ==> reply.keyboard[|shown|] == seq(|nav|, k requires 0 <= k < |nav| => Nav(nav[k])))
            && (reply.pageInfo.Some? <==> |Live(all)| > ItemsPerPage)
            && (reply.pageInfo.Some? ==> reply.pageInfo.value == (page + 1, Paging.CeilDiv(|Live(all)|, ItemsPerPage))))
  {
    var live := Live(all);
    var shown := Paging.Window(live, page * ItemsPerPage, ItemsPerPage);
    if |shown| == 0 {
      return LogEmpty;
    }
    var keyboard: seq<seq<LogButton>> := [];
    for i := 0 to |shown|
      invariant |keyboard| == i
      invariant forall j :: 0 <= j < i ==> keyboard[j] == [Entry(EntryOf(shown[j]))]
    {
      keyboard := keyboard + [[Entry(EntryOf(shown[i]))]];
    }
    var nav := ActivityLogNav(|live|, page);
    if |nav| > 0 {
      keyboard := keyboard + [seq(|nav|, k requires 0 <= k < |nav| => Nav(nav[k]))];
    }
    var pageInfo: Option<(nat, nat)> := None;
    if |live| > ItemsPerPage {
      pageInfo := Some((page + 1, Paging.CeilDiv(|live|, ItemsPerPage)));
    }
    reply := LogPage(keyboard, |live|, pageInfo);
  }

  /** The buttons of the detail view's action row. */
  datatype ActionButton = DeleteAction | EditAction | ChannelsAction

  /** The edit button is offered for a direct post whose content has text. */
  predicate EditOffered(a: StoredActivity) {
    a.postType == Direct && a.content.text.Some?
  }

  function ActionRow(a: StoredActivity): (row: seq<ActionButton>)
    ensures |row| >= 2 && row[0] == DeleteAction && row[|row| - 1] == ChannelsAction
    ensures EditAction in row <==> EditOffered(a)
  {
    [DeleteAction] + (if EditOffered(a) then [EditAction] else []) + [ChannelsAction]
  }

  /** One line of the channel list: its number and the escaped title. */
  datatype ChannelLine = ChannelLine(number: nat, title: string)

  /** The lines of `showChannelsList` on page `page`: the copies from
      `page * 20` up to `min(page * 20 + 20, total)`, numbered from
      `page * 20 + 1`. */
  function ChannelLines(messages: seq<StoredMessage>, page: nat): seq<ChannelLine> {
    var start := page * ChannelsPerPage;
    var end := Paging.Min(start + ChannelsPerPage, |messages|);
    var onPage := Paging.Slice(messages, start, end);
    seq(|onPage|, k requires 0 <= k < |onPage| => ChannelLine(start + k + 1, EscapeMarkdownV2(onPage[k].channelTitle)))
  }

  /** The page lists the copies numbered `start + 1` to `end` in order, and
      nothing when the page is past the end. */
  lemma ChannelLinesSpec(messages: seq<StoredMessage>, page: nat)
    ensures var start := page * ChannelsPerPage;
      var end := Paging.Min(start + ChannelsPerPage, |messages|);
      |ChannelLines(messages, page)| == (if start <= end then end - start else 0)
      && forall k :: 0 <= k < |ChannelLines(messages, page)| ==>
           start + k < |messages|
           && ChannelLines(messages, page)[k] == ChannelLine(start + k + 1, EscapeMarkdownV2(messages[start + k].channelTitle))
  {
  }

  /** The channel list's navigation row. */
  function ChannelsNav(total: nat, page: nat): seq<PageButton> {
    var totalPages := Paging.CeilDiv(total, ChannelsPerPage);
    if totalPages <= 1 then []
    else
      (if page > 0 then [PrevPage(page - 1)] else [])
      + (if page + 1 < totalPages then [NextPage(page + 1)] else [])
  }

  /** Prev appears exactly when there is an earlier page and more than one
      page; Next exactly when copies follow this page. */
  lemma ChannelsNavSpec(total: nat, page: nat)
    ensures Paging.CeilDiv(total, ChannelsPerPage) <= 1 ==> ChannelsNav(total, page) == []
    ensures page > 0 ==> (PrevPage(page - 1) in ChannelsNav(total, page) <==> total > ChannelsPerPage)
    ensures NextPage(page + 1) in ChannelsNav(total, page) <==> (page + 1) * ChannelsPerPage < total
  {
    var pages := Paging.CeilDiv(total, ChannelsPerPage);
    if page + 1 < pages {
      Paging.MulMonotone(page + 2, pages, ChannelsPerPage);
    } else {
      Paging.MulMonotone(pages, page + 1, ChannelsPerPage);
    }
  }

  function CountTrue(s: seq<bool>): (n: nat)
    ensures n <= |s|
  {
    if s == [] then 0 else CountTrue(s[..|s| - 1]) + (if s[|s| - 1] then 1 else 0)
  }

  /** A call `editMessageText(chatId, messageId, undefined, text)`. */
  datatype EditRequest = EditRequest(chatId: int, messageId: int, text: String)

  /** The loop of `handleEdit` over the stored copies: a text message edits
      every copy and counts each as updated or failed; a photo stops at the
      first copy; any other message does nothing. */
  method EditAll(messages: seq<StoredMessage>, newMessage: Message, editOk: seq<bool>)
    returns (aborted: bool, updated: nat, failed: nat, requests: seq<EditRequest>)
    requires |editOk| == |messages|
    ensures aborted <==> newMessage.text.None? && newMessage.photo.Some? && messages != []
    ensures newMessage.text.Some? ==>
      updated == CountTrue(editOk) && updated + failed == |messages|
      && |requests| == |messages|
      && forall k :: 0 <= k < |messages| ==>
           requests[k] == EditRequest(messages[k].chatId, messages[k].messageId, newMessage.text.value)
    ensures newMessage.text.None? ==> updated == 0 && failed == 0 && requests == []
  {
    aborted, updated, failed, requests := false, 0, 0, [];
    for k := 0 to |messages|
      invariant newMessage.text.Some? ==>
        updated == CountTrue(editOk[..k]) && updated + failed == k
        && |requests| == k
        && forall j :: 0 <= j < k ==>
             requests[j] == EditRequest(messages[j].chatId, messages[j].messageId, newMessage.text.value)
      invariant newMessage.text.None? ==> updated == 0 && failed == 0 && requests == []
      invariant newMessage.text.None? && newMessage.photo.Some? ==> k == 0
    {
      assert editOk[..k + 1][..k] == editOk[..k];
      if newMessage.text.Some? {
        requests := requests + [EditRequest(messages[k].chatId, messages[k].messageId, newMessage.text.value)];
        if editOk[k] {
          updated := updated + 1;
        } else {
          failed := failed + 1;
        }
      } else if newMessage.photo.Some? {
        return true, 0, 0, [];
      }
    }
    assert editOk[..|messages|] == editOk;
  }

  /** A call `deleteMessage(chatId, messageId)`. */
  datatype DeleteRequest = DeleteRequest(chatId: int, messageId: int)

  /** The loop of `deleteActivity`: a deletion is attempted for every copy;
      a failed one is logged and the loop goes on. */
  method DeleteAll(messages: seq<StoredMessage>) returns (requests: seq<DeleteRequest>)
    ensures |requests| == |messages|
    ensures forall k :: 0 <= k < |messages| ==> requests[k] == DeleteRequest(messages[k].chatId, messages[k].messageId)
  {
    requests := [];
    for k := 0 to |messages|
      invariant |requests| == k
      invariant forall j :: 0 <= j < k ==> requests[j] == DeleteRequest(messages[j].chatId, messages[j].messageId)
    {
      requests := requests + [DeleteRequest(messages[k].chatId, messages[k].messageId)];
    }
  }

  datatype StartEditAnswer = StartEditUnauthorized | NotEditable | AwaitingNewVersion

  /** What `handleEdit` answers; `EditFailed` is the error reply of its
      `catch`, reached when storing the new content throws. */
  datatype EditReply = NotEditing | EditActivityMissing | KindMismatch | PhotoUnsupported | Updated(updated: nat, failed: nat) | EditFailed

  /** What `deleteActivity` answers; `DeleteFailed` is the error answer of
      its `catch`, reached when marking the activity deleted throws. */
  datatype DeleteReply = DeleteUnauthorized | DeleteActivityMissing | Deleted | DeleteFailed

  /** The `activity` table, keyed by id. */
  class ActivityStore {
    var activities: map<String, StoredActivity>

    constructor(activities: map<String, StoredActivity>)
      ensures this.activities == activities
    {
      this.activities := activities;
    }

    /** `startEdit`: only a direct post can be edited; the session then
        remembers which activity the next message replaces. */
    method StartEdit(session: Session, authorized: bool, id: String) returns (answer: StartEditAnswer)
      modifies session
      ensures !authorized ==> answer == StartEditUnauthorized && session.editingActivity == old(session.editingActivity)
      ensures authorized && (id !in activities || activities[id].postType != Direct) ==>
        answer == NotEditable && session.editingActivity == old(session.editingActivity)
      ensures authorized && id in activities && activities[id].postType == Direct ==>
        answer == AwaitingNewVersion && session.editingActivity == Some(id)
      ensures session.pendingPost == old(session.pendingPost)
      ensures session.registrationData == old(session.registrationData)
    {
      if !authorized {
        return StartEditUnauthorized;
      }
      if id !in activities || activities[id].postType != Direct {
        return NotEditable;
      }
      session.editingActivity := Some(id);
      answer := AwaitingNewVersion;
    }

    /** `handleEdit`: the new message must be of the same kind (text or not)
        as the original. A text is sent as the new text of every copy; a
        photo aborts at the first copy. Then the activity's content is
        replaced and the session forgets the activity; `persistOk` is whether
        that final update succeeds. When it throws, the copies are already
        edited, the stored content stays and the session still remembers the
        activity. */
    method HandleEdit(session: Session, newMessage: Message, editOk: seq<bool>, persistOk: bool)
      returns (reply: EditReply, requests: seq<EditRequest>)
      requires session.IsEditing() && session.editingActivity.value in activities ==>
        |editOk| == |activities[session.editingActivity.value].messages|
      modifies this, session
      ensures !old(session.IsEditing()) ==>
        reply == NotEditing && requests == [] && activities == old(activities) && session.editingActivity == old(session.editingActivity)
      ensures old(session.IsEditing()) ==>
        var id := old(session.editingActivity).value;
        (id !in old(activities) ==>
           reply == EditActivityMissing && requests == []
           && activities == old(activities) && session.editingActivity == old(session.editingActivity))
        && (id in old(activities) ==>
           var a := old(activities)[id];
           var sameKind := a.content.text.Some? == newMessage.text.Some?;
           var photoAborts := newMessage.text.None? && newMessage.photo.Some? && a.messages != [];
           (!sameKind ==>
              reply == KindMismatch && requests == []
              && activities == old(activities) && session.editingActivity == old(session.editingActivity))
           && (sameKind && photoAborts ==>
              reply == PhotoUnsupported && requests == []
              && activities == old(activities) && session.editingActivity == old(session.editingActivity))
           && (sameKind && !photoAborts ==>
              (newMessage.text.Some? ==>
                 |requests| == |a.messages|
                 && forall k :: 0 <= k < |requests| ==>
                      requests[k] == EditRequest(a.messages[k].chatId, a.messages[k].messageId, newMessage.text.value))
              && (newMessage.text.None? ==> requests == [])
              && (persistOk ==>
                    activities == old(activities)[id := a.(content := newMessage)]
                    && session.editingActivity == None
                    && (newMessage.text.Some? ==>
                          reply.Updated? && reply.updated == CountTrue(editOk) && reply.updated + reply.failed == |a.messages|)
                    && (newMessage.text.None? ==> reply == Updated(0, 0)))
              && (!persistOk ==>
                    reply == EditFailed
                    && activities == old(activities) && session.editingActivity == old(session.editingActivity))))
      ensures session.pendingPost == old(session.pendingPost)
      ensures session.registrationData == old(session.registrationData)
    {
      requests := [];
      if !session.IsEditing() {
        return NotEditing, [];
      }
      var id := session.editingActivity.value;
      if id !in activities {
        return EditActivityMissing, [];
      }
      var a := activities[id];
      if a.content.text.Some? != newMessage.text.Some? {
        return KindMismatch, [];
      }
      var aborted, updated, failed;
      aborted, updated, failed, requests := EditAll(a.messages, newMessage, editOk);
      if aborted {
        return PhotoUnsupported, [];
      }
      if !persistOk {
        return EditFailed, requests;
      }
      activities := activities[id := a.(content := newMessage)];
      session.editingActivity := None;
      reply := Updated(updated, failed);
    }

    /** `deleteActivity`: every copy is deleted (failures are skipped), then
        the activity is marked deleted so the log no longer lists it;
        `persistOk` is whether that final update succeeds. When it throws,
        the copies are already gone but the activity stays listed. */
    method DeleteActivity(authorized: bool, id: String, persistOk: bool) returns (reply: DeleteReply, requests: seq<DeleteRequest>)
      modifies this
      ensures !authorized || id !in old(activities) ==> activities == old(activities) && requests == []
      ensures !authorized ==> reply == DeleteUnauthorized
      ensures authorized && id !in old(activities) ==> reply == DeleteActivityMissing
      ensures authorized && id in old(activities) ==>
        |requests| == |old(activities)[id].messages|
        && (forall k :: 0 <= k < |requests| ==>
              requests[k] == DeleteRequest(old(activities)[id].messages[k].chatId, old(activities)[id].messages[k].messageId))
        && (persistOk ==> reply == Deleted && activities == old(activities)[id := old(activities)[id].(isDeleted := true)])
        && (!persistOk ==> reply == DeleteFailed && activities == old(activities))
    {
      if !authorized {
        return DeleteUnauthorized, [];
      }
      if id !in activities {
        return DeleteActivityMissing, [];
      }
      var a := activities[id];
      requests := DeleteAll(a.messages);
      if !persistOk {
        return DeleteFailed, requests;
      }
      activities := activities[id := a.(isDeleted := true)];
      reply := Deleted;
    }
  }
}
