/** The two Markdown escapers of the bot's utilities. `EscapeMarkdown` targets
    the MarkdownV2 style of the Telegram Bot API ("Formatting options",
    "MarkdownV2 style"): eighteen characters must carry a backslash outside
    entities. `EscapeMarkdownSimple` targets the legacy "Markdown style",
    where only `_ * [ `` ` `` are special. Both are chains of `.replace` calls;
    the lemmas show each chain is a single per-character pass. */
module Markdown {
  import opened Wrappers
  import opened Escaping

  /** The characters `escapeMarkdown` escapes, in the order of its chain. */
  const V2Chain: seq<char> :=
    ['_', '*', '[', ']', '(', ')', '~', '`', '>', '#', '+', '-', '=', '|', '{', '}', '.', '!']

  /** The characters MarkdownV2 reserves outside entities. */
  predicate IsV2Reserved(c: char) {
    c == '_' || c == '*' || c == '[' || c == ']' || c == '(' || c == ')' || c == '~' || c == '`' || c == '>'
    || c == '#' || c == '+' || c == '-' || c == '=' || c == '|' || c == '{' || c == '}' || c == '.' || c == '!'
  }

  const V2Reserved: set<char> := set c: char | IsV2Reserved(c)

  /** The characters `escapeMarkdownSimple` escapes, in the order of its chain. */
  const SimpleChain: seq<char> := ['_', '*', '[', '`']

  const SimpleReserved: set<char> := set c | c in SimpleChain

  /** `escapeMarkdown(text)`: eighteen chained `.replace` calls. */
  function EscapeMarkdown(text: string): string {
    ChainReplace(text, V2Chain)
  }

  /** `escapeMarkdownSimple(text)`: four chained `.replace` calls. */
  function EscapeMarkdownSimple(text: string): string {
    ChainReplace(text, SimpleChain)
  }

  lemma V2ChainDistinct()
    ensures Distinct(V2Chain) && Backslash !in V2Chain
  {
    var chars := "_*[]()~`>#+-=|{}.!";
    assert V2Chain == chars;
    forall i | 0 <= i < |chars|
      ensures V2Position(chars[i]) == i
    {
      assert V2Position(chars[i]) == i;
    }
    DistinctByPosition(V2Chain, V2Position);
  }

  /** The position of a character in `V2Chain`, -1 when it is absent. */
  function V2Position(c: char): int {
    if c == '_' then 0 else if c == '*' then 1 else if c == '[' then 2 else if c == ']' then 3
    else if c == '(' then 4 else if c == ')' then 5 else if c == '~' then 6 else if c == '`' then 7
    else if c == '>' then 8 else if c == '#' then 9 else if c == '+' then 10 else if c == '-' then 11
    else if c == '=' then 12 else if c == '|' then 13 else if c == '{' then 14 else if c == '}' then 15
    else if c == '.' then 16 else if c == '!' then 17 else -1
  }

  lemma V2ChainCharacters()
    ensures (set c | c in V2Chain) == V2Reserved
  {
  }

  /** The chain of eighteen replaces is one pass escaping the MarkdownV2 set:
      no `.replace` acts on the output of an earlier one. */
  lemma EscapeMarkdownIsOnePass(text: string)
    ensures EscapeMarkdown(text) == EscapeAll(text, V2Reserved)
  {
    V2ChainDistinct();
    V2ChainCharacters();
    ChainIsOnePassFromText(text, V2Chain);
  }

  lemma EscapeMarkdownSimpleIsOnePass(text: string)
    ensures EscapeMarkdownSimple(text) == EscapeAll(text, SimpleReserved)
  {
    assert Distinct(SimpleChain) && Backslash !in SimpleChain;
    ChainIsOnePassFromText(text, SimpleChain);
  }

  /** `escapeMarkdown` adds exactly one backslash per reserved character,
      leaves no reserved character without its backslash, and dropping each
      backslash that precedes a reserved character gives the input back. */
  lemma EscapeMarkdownSpec(text: string)
    ensures |EscapeMarkdown(text)| == |text| + CountIn(text, V2Reserved)
    ensures ReservedAllEscaped(EscapeMarkdown(text), V2Reserved)
    ensures DropEscapes(EscapeMarkdown(text), V2Reserved) == text
  {
    EscapeMarkdownIsOnePass(text);
    EscapeAllLeavesNoBareReserved(text, V2Reserved);
    DropEscapesInverts(text, V2Reserved);
  }

  /** `escapeMarkdownSimple` does the same for its four characters and copies
      text without them, `] ( ) . !` and the rest included, unchanged. */
  lemma EscapeMarkdownSimpleSpec(text: string)
    ensures |EscapeMarkdownSimple(text)| == |text| + CountIn(text, SimpleReserved)
    ensures ReservedAllEscaped(EscapeMarkdownSimple(text), SimpleReserved)
    ensures DropEscapes(EscapeMarkdownSimple(text), SimpleReserved) == text
    ensures (forall i :: 0 <= i < |text| ==> text[i] !in SimpleReserved) ==> EscapeMarkdownSimple(text) == text
  {
    EscapeMarkdownSimpleIsOnePass(text);
    EscapeAllLeavesNoBareReserved(text, SimpleReserved);
    DropEscapesInverts(text, SimpleReserved);
    if forall i :: 0 <= i < |text| ==> text[i] !in SimpleReserved {
      EscapeAllOfUnreserved(text, SimpleReserved);
    }
  }

  /** The reserved characters that never open an entity: without a
      backslash in front of them Telegram refuses the text. */
  predicate NeverOpens(c: char) {
    c == ']' || c == '(' || c == ')' || c == '#' || c == '+' || c == '-' || c == '=' || c == '{' || c == '}' || c == '.'
  }

  /** Telegram's reading of a MarkdownV2 text: what it shows and whether a
      bold entity is still open; `Refused` when it rejects the text (a
      reserved character without its backslash, or an entity left open);
      `Unmodelled` when the text opens an entity other than bold (italic,
      underline, strikethrough, spoiler, code, link, custom emoji, quote),
      which this reader does not follow. */
  datatype V2Reading = Read(shown: string, boldOpen: bool) | Refused | Unmodelled

  /** `r` with `x` shown in front of it. */
  function ShownBefore(x: string, r: V2Reading): V2Reading {
    match r
    case Read(shown, boldOpen) => Read(x + shown, boldOpen)
    case _ => r
  }

  /** The parser of the Bot API's "MarkdownV2 style", from a state where a
      bold entity is open or not: a backslash followed by a character with
      code 1 to 126 shows that character; an unreserved character (the
      backslash included) shows itself; `*` opens or closes bold; `!` and
      `|` open an entity only as `![` and `||`. */
  function ScanV2(r: string, boldOpen: bool): V2Reading
    decreases |r|
  {
    if r == [] then Read([], boldOpen)
    else if r[0] == Backslash && |r| >= 2 && 1 <= r[1] as int <= 126 then ShownBefore([r[1]], ScanV2(r[2..], boldOpen))
    else if !IsV2Reserved(r[0]) then ShownBefore([r[0]], ScanV2(r[1..], boldOpen))
    else if r[0] == '*' then ScanV2(r[1..], !boldOpen)
    else if NeverOpens(r[0]) then Refused
    else if r[0] == '!' then (if |r| >= 2 && r[1] == '[' then Unmodelled else Refused)
    else if r[0] == '|' then (if |r| >= 2 && r[1] == '|' then Unmodelled else Refused)
    else Unmodelled
  }

  /** A whole message: a bold entity still open at the end is refused.
      `Read(t, false)` means Telegram accepts the message and shows `t`. */
  function ReadV2(r: string): V2Reading {
    match ScanV2(r, false)
    case Read(shown, true) => Refused
    case other => other
  }

  /** Reading a text that does not end in a backslash, then more text: the
      second part is read from the state the first one leaves. */
  lemma {:induction false} ScanAppend(a: string, b: string, boldOpen: bool)
    requires a == [] || a[|a| - 1] != Backslash
    requires ScanV2(a, boldOpen).Read?
    ensures ScanV2(a + b, boldOpen)
         == ShownBefore(ScanV2(a, boldOpen).shown, ScanV2(b, ScanV2(a, boldOpen).boldOpen))
    decreases |a|
  {
    if a == [] {
      assert a + b == b;
    } else if a[0] == Backslash && |a| >= 2 && 1 <= a[1] as int <= 126 {
      assert (a + b)[2..] == a[2..] + b;
      ScanAppend(a[2..], b, boldOpen);
      ShownBeforeTwice([a[1]], ScanV2(a[2..], boldOpen).shown, ScanV2(b, ScanV2(a[2..], boldOpen).boldOpen));
    } else if !IsV2Reserved(a[0]) {
      assert (a + b)[1..] == a[1..] + b;
      ScanAppend(a[1..], b, boldOpen);
      ShownBeforeTwice([a[0]], ScanV2(a[1..], boldOpen).shown, ScanV2(b, ScanV2(a[1..], boldOpen).boldOpen));
    } else {
      assert a[0] == '*';
      assert (a + b)[1..] == a[1..] + b;
      ScanAppend(a[1..], b, !boldOpen);
    }
  }

  lemma ShownBeforeTwice(x: string, y: string, r: V2Reading)
    ensures ShownBefore(x, ShownBefore(y, r)) == ShownBefore(x + y, r)
  {
    if r.Read? {
      assert x + (y + r.shown) == (x + y) + r.shown;
    }
  }

  /** Two texts that Telegram reads from the closed state back to it read
      as one. */
  lemma Extend(a: string, x: string, b: string, y: string)
    requires a == [] || a[|a| - 1] != Backslash
    requires ScanV2(a, false) == Read(x, false) && ScanV2(b, false) == Read(y, false)
    ensures ScanV2(a + b, false) == Read(x + y, false)
  {
    ScanAppend(a, b, false);
  }

  /** Text without reserved characters and backslashes. */
  predicate Plain(s: string) {
    forall i :: 0 <= i < |s| ==> !IsV2Reserved(s[i]) && s[i] != Backslash
  }

  /** Plain text shows itself and leaves the bold state alone. */
  lemma {:induction false} PlainReads(s: string, boldOpen: bool)
    requires Plain(s)
    ensures ScanV2(s, boldOpen) == Read(s, boldOpen)
    decreases |s|
  {
    if s != [] {
      PlainReads(s[1..], boldOpen);
      assert [s[0]] + s[1..] == s;
    }
  }

  /** `*text*` around plain text shows the text in bold. */
  function Bold(s: string): string {
    ['*'] + s + ['*']
  }

  lemma BoldReads(s: string)
    requires Plain(s)
    ensures ScanV2(Bold(s), false) == Read(s, false)
  {
    var r := Bold(s);
    assert r[1..] == s + ['*'];
    PlainReads(s, true);
    ScanAppend(s, ['*'], true);
    assert ScanV2(['*'], true) == ScanV2([], false);
    assert s + [] == s;
  }

  /** Text in which every reserved character has a backslash in front of it
      and every backslash is followed, if by anything, by a reserved
      character: what an escaper produces from text without backslashes,
      and every prefix of that. */
  predicate EscapedForm(t: string) {
    Escaping.ReservedAllEscaped(t, V2Reserved)
    && forall i :: 0 <= i < |t| - 1 && t[i] == Backslash ==> IsV2Reserved(t[i + 1])
  }

  lemma EscapedFormPrefix(t: string, n: nat)
    requires EscapedForm(t) && n <= |t|
    ensures EscapedForm(t[..n])
  {
    var p := t[..n];
    assert forall i :: 0 <= i < |p| ==> p[i] == t[i];
  }

  /** Text in escaped form, not ending in a backslash, shows its unescaped
      text and leaves the bold state to what follows. */
  lemma {:induction false} EscapedFormReads(t: string, b: string, boldOpen: bool)
    requires EscapedForm(t) && (t == [] || t[|t| - 1] != Backslash)
    ensures ScanV2(t + b, boldOpen) == ShownBefore(DropEscapes(t, V2Reserved), ScanV2(b, boldOpen))
    decreases |t|
  {
    if t == [] {
      assert t + b == b;
      assert ShownBefore([], ScanV2(b, boldOpen)) == ScanV2(b, boldOpen) by {
        if ScanV2(b, boldOpen).Read? {
          assert [] + ScanV2(b, boldOpen).shown == ScanV2(b, boldOpen).shown;
        }
      }
    } else if t[0] == Backslash {
      assert |t| >= 2;
      assert IsV2Reserved(t[1]);
      ReservedIsAscii(t[1]);
      var rest := t[2..];
      assert EscapedForm(rest) by {
        forall i | 0 <= i < |rest| && rest[i] in V2Reserved
          ensures i > 0 && rest[i - 1] == Backslash
        {
          assert t[i + 2] in V2Reserved;
        }
        forall i | 0 <= i < |rest| - 1 && rest[i] == Backslash
          ensures IsV2Reserved(rest[i + 1])
        {
          assert t[i + 2] == Backslash;
        }
      }
      assert (t + b)[2..] == rest + b;
      EscapedFormReads(rest, b, boldOpen);
      ShownBeforeTwice([t[1]], DropEscapes(rest, V2Reserved), ScanV2(b, boldOpen));
    } else {
      assert t[0] !in V2Reserved;
      var rest := t[1..];
      assert EscapedForm(rest) by {
        forall i | 0 <= i < |rest| && rest[i] in V2Reserved
          ensures i > 0 && rest[i - 1] == Backslash
        {
          assert t[i + 1] in V2Reserved;
        }
        forall i | 0 <= i < |rest| - 1 && rest[i] == Backslash
          ensures IsV2Reserved(rest[i + 1])
        {
          assert t[i + 1] == Backslash;
        }
      }
      assert (t + b)[1..] == rest + b;
      EscapedFormReads(rest, b, boldOpen);
      ShownBeforeTwice([t[0]], DropEscapes(rest, V2Reserved), ScanV2(b, boldOpen));
    }
  }

  lemma ReservedIsAscii(c: char)
    requires IsV2Reserved(c)
    ensures 1 <= c as int <= 126
  {
  }

  /** The escaper's output for text without backslashes is in escaped form. */
  lemma {:induction false} EscapeAllForm(u: string)
    requires Backslash !in u
    ensures EscapedForm(EscapeAll(u, V2Reserved))
    ensures u != [] ==> EscapeAll(u, V2Reserved)[|EscapeAll(u, V2Reserved)| - 1] != Backslash
  {
    EscapeAllLeavesNoBareReserved(u, V2Reserved);
    if u != [] {
      var head := EscapeChar(u[0], V2Reserved);
      var tail := EscapeAll(u[1..], V2Reserved);
      EscapeAllForm(u[1..]);
      var t := head + tail;
      assert EscapeAll(u, V2Reserved) == t;
      forall i | 0 <= i < |t| - 1 && t[i] == Backslash
        ensures IsV2Reserved(t[i + 1])
      {
        if i >= |head| {
          assert t[i] == tail[i - |head|] && t[i + 1] == tail[i + 1 - |head|];
        } else {
          assert u[0] in V2Reserved && i == 0;
        }
      }
      if tail == [] {
        assert t[|t| - 1] == head[|head| - 1] == u[0];
      } else {
        assert t[|t| - 1] == tail[|tail| - 1];
      }
    }
  }

  /** What `escapeMarkdown` produces from text without backslashes reads
      back as that text. */
  lemma EscapeMarkdownReadsBack(u: string, b: string, boldOpen: bool)
    requires Backslash !in u
    ensures ScanV2(EscapeAll(u, V2Reserved) + b, boldOpen) == ShownBefore(u, ScanV2(b, boldOpen))
  {
    EscapeAllForm(u);
    EscapedFormReads(EscapeAll(u, V2Reserved), b, boldOpen);
    DropEscapesInverts(u, V2Reserved);
  }

  /** As written, `escapeMarkdown` leaves backslashes alone, so Telegram
      swallows a backslash the user typed in front of an ordinary character
      (`\b` shows as `b`), and a typed backslash in front of a reserved
      character cancels its escape: `\.` and `\*` are refused, and no
      reserved character is shown as typed. */
  lemma EscapeMarkdownMisreadByTelegram(c: char)
    requires c != Backslash
    ensures !IsV2Reserved(c) && 1 <= c as int <= 126 ==>
      ReadV2(EscapeMarkdown([Backslash, c])) == Read([c], false)
    ensures IsV2Reserved(c) ==> ReadV2(EscapeMarkdown([Backslash, c])) != Read([Backslash, c], false)
    ensures NeverOpens(c) || c == '*' ==> ReadV2(EscapeMarkdown([Backslash, c])) == Refused
  {
    EscapeMarkdownIsOnePass([Backslash, c]);
    EscapedPair(c);
    if IsV2Reserved(c) {
      ReservedPairRefused(c);
    } else if 1 <= c as int <= 126 {
      PlainPairRead(c);
    }
  }

  /** An escaped backslash followed by a bare reserved character. */
  lemma ReservedPairRefused(c: char)
    requires IsV2Reserved(c)
    ensures ReadV2([Backslash, Backslash, c]) != Read([Backslash, c], false)
    ensures NeverOpens(c) || c == '*' ==> ReadV2([Backslash, Backslash, c]) == Refused
  {
    var r := [Backslash, Backslash, c];
    assert r[2..] == [c];
    var rest := ScanV2([c], false);
    assert ScanV2(r, false) == ShownBefore([Backslash], rest);
    if c == '*' {
      assert [c][1..] == [];
      assert ScanV2([c][1..], true) == Read([], true);
      assert rest == Read([], true);
    }
  }

  lemma PlainPairRead(c: char)
    requires !IsV2Reserved(c) && 1 <= c as int <= 126
    ensures ReadV2([Backslash, c]) == Read([c], false)
  {
    var r := [Backslash, c];
    assert r[0] == Backslash && |r| >= 2 && r[1] == c;
    assert r[2..] == [];
    assert ScanV2(r[2..], false) == Read([], false);
    assert [r[1]] + [] == [c];
  }

  lemma EscapedPair(c: char)
    requires c != Backslash
    ensures EscapeAll([Backslash, c], V2Reserved) == if IsV2Reserved(c) then [Backslash, Backslash, c] else [Backslash, c]
  {
    EscapeAllAppend([Backslash], [c], V2Reserved);
    EscapeAllOfUnreserved([Backslash], V2Reserved);
    assert EscapeAll([c], V2Reserved) == EscapeChar(c, V2Reserved) + EscapeAll([], V2Reserved);
  }

  /** One character escaped along with the backslash shows itself. */
  lemma EscapedCharReads(c: char, tail: string, boldOpen: bool)
    ensures ScanV2(EscapeChar(c, V2Reserved + {Backslash}) + tail, boldOpen) == ShownBefore([c], ScanV2(tail, boldOpen))
  {
    if c in V2Reserved + {Backslash} {
      assert 1 <= c as int <= 126;
      assert ([Backslash, c] + tail)[2..] == tail;
    } else {
      assert ([c] + tail)[1..] == tail;
    }
  }

  /** With the backslash escaped as well, every text reads back exactly,
      whatever follows it. */
  lemma {:induction false} EscapedReadsBack(text: string, b: string, boldOpen: bool)
    ensures ScanV2(EscapeAll(text, V2Reserved + {Backslash}) + b, boldOpen) == ShownBefore(text, ScanV2(b, boldOpen))
  {
    var all := V2Reserved + {Backslash};
    var rb := ScanV2(b, boldOpen);
    if text == [] {
      assert EscapeAll(text, all) + b == b;
      assert ShownBefore([], rb) == rb by {
        if rb.Read? {
          assert [] + rb.shown == rb.shown;
        }
      }
    } else {
      var c := text[0];
      var rest := EscapeAll(text[1..], all);
      EscapedReadsBack(text[1..], b, boldOpen);
      assert EscapeAll(text, all) + b == EscapeChar(c, all) + (rest + b);
      EscapedCharReads(c, rest + b, boldOpen);
      ShownBeforeTwice([c], text[1..], rb);
      assert [c] + text[1..] == text;
    }
  }

  /** The evidently intended escaper: the backslash is escaped as well
      (`.replace(/\\/g, '\\\\')` ahead of the chain), and Telegram then shows
      every text exactly as typed. */
  function EscapeMarkdownCorrected(text: string): (r: string)
    ensures ReadV2(r) == Read(text, false)
    ensures |r| == |text| + CountIn(text, V2Reserved + {Backslash})
  {
    EscapedReadsBack(text, [], false);
    assert EscapeAll(text, V2Reserved + {Backslash}) + [] == EscapeAll(text, V2Reserved + {Backslash});
    assert text + [] == text;
    EscapeAll(text, V2Reserved + {Backslash})
  }
}
