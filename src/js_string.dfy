/** The JavaScript string and number built-ins the bot's code relies on:
    `split`, `startsWith`, `trim`, `Number`, `parseInt`, `String(n)` and the
    truthiness of strings. Whitespace is JavaScript's WhiteSpace and
    LineTerminator set, and numerals are decimal; hexadecimal, exponent and
    fractional forms are outside the model. */
module JsString {

  type String = seq<char>

  /** The two kinds of value `Number` and `parseInt` return on the inputs
      modelled here: a finite integer, or `NaN`. */
  datatype Num = Finite(value: int) | NaN {
    /** JavaScript truthiness of a number: `0` and `NaN` are falsy. */
    predicate Truthy() {
      Finite? && value != 0
    }
  }

  /** JavaScript truthiness of a string: only the empty string is falsy. */
  predicate Truthy(s: String) {
    s != []
  }

  /** `s.startsWith(p)` */
  predicate StartsWith(s: String, p: String) {
    |p| <= |s| && s[..|p|] == p
  }

  /** The number of occurrences of `c` in `s`. */
  function Count(s: String, c: char): nat {
    if s == [] then 0 else (if s[0] == c then 1 else 0) + Count(s[1..], c)
  }

  /** `s.split(c)` for a one-character separator: one piece more than there
      are separators, and no piece contains the separator. */
  function Split(s: String, c: char): (parts: seq<String>)
    ensures |parts| == Count(s, c) + 1
    ensures forall i :: 0 <= i < |parts| ==> c !in parts[i]
  {
    if s == [] then [[]]
    else
      var rest := Split(s[1..], c);
      if s[0] == c then [[]] + rest
      else [[s[0]] + rest[0]] + rest[1..]
  }

  /** `parts.join(c)` */
  function Join(parts: seq<String>, c: char): String
    requires |parts| >= 1
  {
    if |parts| == 1 then parts[0] else parts[0] + [c] + Join(parts[1..], c)
  }

  /** Splitting and joining on the same separator gives the string back. */
  lemma {:induction false} JoinSplit(s: String, c: char)
    ensures Join(Split(s, c), c) == s
  {
    if s != [] {
      JoinSplit(s[1..], c);
      var rest := Split(s[1..], c);
      if s[0] != c && |rest| > 1 {
        assert Join(rest, c) == rest[0] + [c] + Join(rest[1..], c);
      }
    }
  }

  lemma {:induction false} SplitNoSeparator(s: String, c: char)
    requires c !in s
    ensures Split(s, c) == [s]
  {
    if s != [] {
      SplitNoSeparator(s[1..], c);
      assert [s[0]] + s[1..] == s;
    }
  }

  lemma {:induction false} SplitAfterPiece(a: String, c: char, b: String)
    requires c !in a
    ensures Split(a + [c] + b, c) == [a] + Split(b, c)
  {
    if a == [] {
      assert a + [c] + b == [c] + b;
    } else {
      assert (a + [c] + b)[1..] == a[1..] + [c] + b;
      SplitAfterPiece(a[1..], c, b);
      assert [a[0]] + a[1..] == a;
    }
  }

  /** Every character of a join is the separator or comes from a piece. */
  lemma {:induction false} JoinChars(parts: seq<String>, c: char, x: char)
    requires |parts| >= 1
    requires x in Join(parts, c)
    ensures x == c || exists i :: 0 <= i < |parts| && x in parts[i]
  {
    if |parts| > 1 && x !in parts[0] && x != c {
      JoinChars(parts[1..], c, x);
      var i :| 0 <= i < |parts[1..]| && x in parts[1..][i];
      assert x in parts[i + 1];
    }
  }

  /** Joining pieces that do not contain the separator and splitting again
      gives the same pieces back. */
  lemma {:induction false} SplitJoin(parts: seq<String>, c: char)
    requires |parts| >= 1
    requires forall i :: 0 <= i < |parts| ==> c !in parts[i]
    ensures Split(Join(parts, c), c) == parts
  {
    if |parts| == 1 {
      SplitNoSeparator(parts[0], c);
    } else {
      SplitJoin(parts[1..], c);
      SplitAfterPiece(parts[0], c, Join(parts[1..], c));
    }
  }

  /** The characters `String.prototype.trim` removes: JavaScript's
      WhiteSpace (tab, vertical tab, form feed, the byte order mark and every
      space separator of Unicode 15, among them the no-break space) and its
      LineTerminator (line feed, carriage return, line and paragraph
      separators). */
  predicate IsSpace(ch: char) {
    ch == '\t' || ch == '\n' || ch == '\U{000B}' || ch == '\U{000C}' || ch == '\r' || ch == ' '
    || ch == '\U{00A0}' || ch == '\U{1680}' || '\U{2000}' <= ch <= '\U{200A}'
    || ch == '\U{2028}' || ch == '\U{2029}' || ch == '\U{202F}' || ch == '\U{205F}'
    || ch == '\U{3000}' || ch == '\U{FEFF}'
  }

  /** `s.trimStart()`: what is removed is whitespace, and what is left is a
      suffix of `s` that does not start with whitespace. */
  function TrimStart(s: String): (r: String)
    ensures r == [] || !IsSpace(r[0])
    ensures |r| <= |s| && r == s[|s| - |r|..]
    ensures forall k :: 0 <= k < |s| - |r| ==> IsSpace(s[k])
  {
    if s != [] && IsSpace(s[0]) then TrimStart(s[1..]) else s
  }

  /** `s.trimEnd()`: what is removed is whitespace, and what is left is a
      prefix of `s` that does not end with whitespace. */
  function TrimEnd(s: String): (r: String)
    ensures r == [] || !IsSpace(r[|r| - 1])
    ensures |r| <= |s| && r == s[..|r|]
    ensures forall k :: |r| <= k < |s| ==> IsSpace(s[k])
  {
    if s != [] && IsSpace(s[|s| - 1]) then TrimEnd(s[..|s| - 1]) else s
  }

  /** `s.trim()`: no leading or trailing whitespace is left, what is left is
      a contiguous part of `s`, and everything removed is whitespace. */
  function Trim(s: String): (r: String)
    ensures r == [] || (!IsSpace(r[0]) && !IsSpace(r[|r| - 1]))
    ensures exists i {:trigger s[i..]} :: 0 <= i <= |s| - |r| && r == s[i..i + |r|]
              && (forall k :: 0 <= k < i ==> IsSpace(s[k]))
              && (forall k :: i + |r| <= k < |s| ==> IsSpace(s[k]))
  {
    var t := TrimStart(s);
    var r := TrimEnd(t);
    var i := |s| - |t|;
    assert r == s[i..i + |r|];
    assert forall k :: i + |r| <= k < |s| ==> s[k] == t[k - i];
    r
  }

  /** Whitespace after the text, a no-break space from a spreadsheet cell
      among it, is removed by `trim()`. */
  lemma {:induction false} TrimTrailingSpace(s: String, c: char)
    requires IsSpace(c)
    ensures Trim(s + [c]) == Trim(s)
  {
    if s == [] {
      assert TrimStart([c]) == TrimStart([]);
    } else if IsSpace(s[0]) {
      assert (s + [c])[1..] == s[1..] + [c];
      TrimTrailingSpace(s[1..], c);
    } else {
      assert TrimStart(s + [c]) == s + [c] && TrimStart(s) == s;
      assert (s + [c])[..|s|] == s;
    }
  }

  lemma TrimNoSpace(s: String)
    requires s == [] || (!IsSpace(s[0]) && !IsSpace(s[|s| - 1]))
    ensures Trim(s) == s
  {
  }

  predicate IsDigit(ch: char) {
    '0' <= ch <= '9'
  }

  predicate AllDigits(s: String) {
    forall i :: 0 <= i < |s| ==> IsDigit(s[i])
  }

  function DigitValue(ch: char): nat
    requires IsDigit(ch)
  {
    ch as int - '0' as int
  }

  function DigitChar(d: nat): (ch: char)
    requires d < 10
    ensures IsDigit(ch) && DigitValue(ch) == d
  {
    ('0' as int + d) as char
  }

  /** The value of a decimal numeral. */
  function DigitsValue(s: String): nat
    requires AllDigits(s)
  {
    if s == [] then 0 else DigitsValue(s[..|s| - 1]) * 10 + DigitValue(s[|s| - 1])
  }

  /** `String(n)` for a natural number: a non-empty decimal numeral whose
      value is `n`. */
  function NatToString(n: nat): (s: String)
    ensures |s| >= 1 && AllDigits(s) && DigitsValue(s) == n
  {
    if n < 10 then [DigitChar(n)]
    else
      var s := NatToString(n / 10) + [DigitChar(n % 10)];
      assert s[..|s| - 1] == NatToString(n / 10);
      s
  }

  /** `String(n)` (or a template literal `${n}`) for an integer. */
  function IntToString(n: int): (s: String)
    ensures |s| >= 1
    ensures forall i :: 0 <= i < |s| ==> IsDigit(s[i]) || (i == 0 && s[i] == '-')
  {
    if n < 0 then ['-'] + NatToString(-n) else NatToString(n)
  }

  /** A decimal numeral never contains a separator the bot splits on. */
  lemma IntToStringHasNoSeparator(n: int, c: char)
    requires !IsDigit(c) && c != '-'
    ensures c !in IntToString(n)
  {
  }

  /** The value of an optionally signed decimal numeral, or `NaN`. */
  function SignedValue(t: String): Num {
    if |t| >= 1 && AllDigits(t) then Finite(DigitsValue(t))
    else if |t| >= 2 && t[0] == '-' && AllDigits(t[1..]) then Finite(-(DigitsValue(t[1..]) as int))
    else if |t| >= 2 && t[0] == '+' && AllDigits(t[1..]) then Finite(DigitsValue(t[1..]))
    else NaN
  }

  /** `Number(s)`: surrounding whitespace is ignored, a blank string is `0`,
      a signed decimal numeral is its value, anything else is `NaN`. */
  function Number(s: String): (r: Num)
    ensures Trim(s) == [] ==> r == Finite(0)
  {
    var t := Trim(s);
    if t == [] then Finite(0) else SignedValue(t)
  }

  lemma TrimIntToString(n: int)
    ensures Trim(IntToString(n)) == IntToString(n)
  {
    var s := IntToString(n);
    assert !IsSpace(s[0]) && !IsSpace(s[|s| - 1]);
    TrimNoSpace(s);
  }

  lemma SignedValueOfIntToString(n: int)
    ensures SignedValue(IntToString(n)) == Finite(n)
  {
    if n < 0 {
      var body := NatToString(-n);
      var s := ['-'] + body;
      assert s[1..] == body;
      assert !IsDigit(s[0]);
      assert SignedValue(s) == Finite(-(DigitsValue(body) as int));
    }
  }

  /** `Number(String(n)) === n`. */
  lemma NumberOfIntToString(n: int)
    ensures Number(IntToString(n)) == Finite(n)
  {
    TrimIntToString(n);
    SignedValueOfIntToString(n);
  }

  /** The longest prefix of `s` made of digits. */
  function DigitPrefix(s: String): (d: String)
    ensures |d| <= |s| && AllDigits(d) && d == s[..|d|]
    ensures |d| == |s| || !IsDigit(s[|d|])
  {
    if s != [] && IsDigit(s[0]) then [s[0]] + DigitPrefix(s[1..]) else []
  }

  /** `parseInt(s)` (radix 10): leading whitespace and one sign are skipped,
      then the longest run of digits is read; no digits gives `NaN`. */
  function ParseInt(s: String): Num {
    var t := TrimStart(s);
    var negative := |t| > 0 && t[0] == '-';
    var body := if |t| > 0 && (t[0] == '-' || t[0] == '+') then t[1..] else t;
    var ds := DigitPrefix(body);
    if ds == [] then NaN
    else Finite(if negative then -(DigitsValue(ds) as int) else DigitsValue(ds))
  }

  lemma DigitPrefixAll(s: String)
    requires AllDigits(s)
    ensures DigitPrefix(s) == s
  {
    if s != [] {
      DigitPrefixAll(s[1..]);
    }
  }

  /** `parseInt(String(n)) === n`. */
  lemma ParseIntOfIntToString(n: int)
    ensures ParseInt(IntToString(n)) == Finite(n)
  {
    var s := IntToString(n);
    if n < 0 {
      assert s[1..] == NatToString(-n);
      DigitPrefixAll(NatToString(-n));
    } else {
      DigitPrefixAll(s);
    }
  }
}
