/** Backslash escaping as the bot's escapers do it: every character of a
    reserved set gets one backslash in front of it, all other characters are
    copied. A chain of `.replace(/c/g, '\\c')` calls and a single
    character-class `.replace` are both expressed with it. */
module Escaping {

  const Backslash: char := '\\'

  /** The text one character becomes. */
  function EscapeChar(c: char, reserved: set<char>): seq<char> {
    if c in reserved then [Backslash, c] else [c]
  }

  /** The number of characters of `s` that belong to `reserved`. */
  function CountIn(s: seq<char>, reserved: set<char>): nat {
    if s == [] then 0 else (if s[0] in reserved then 1 else 0) + CountIn(s[1..], reserved)
  }

  /** One pass over `s` escaping every reserved character: the result is
      longer than `s` by exactly one backslash per reserved character. */
  function EscapeAll(s: seq<char>, reserved: set<char>): (r: seq<char>)
    ensures |r| == |s| + CountIn(s, reserved)
  {
    if s == [] then [] else EscapeChar(s[0], reserved) + EscapeAll(s[1..], reserved)
  }

  /** `s.replace(/c/g, '\\' + c)`: one link of a chain of replaces. */
  function ReplaceWithEscaped(s: seq<char>, c: char): seq<char> {
    EscapeAll(s, {c})
  }

  /** `s.replace(...).replace(...)...`, one `.replace` per character of
      `chain`, applied in that order. */
  function ChainReplace(s: seq<char>, chain: seq<char>): seq<char>
    decreases chain
  {
    if chain == [] then s else ChainReplace(ReplaceWithEscaped(s, chain[0]), chain[1..])
  }

  lemma {:induction false} EscapeAllAppend(a: seq<char>, b: seq<char>, reserved: set<char>)
    ensures EscapeAll(a + b, reserved) == EscapeAll(a, reserved) + EscapeAll(b, reserved)
  {
    if a == [] {
      assert a + b == b;
    } else {
      assert (a + b)[1..] == a[1..] + b;
      EscapeAllAppend(a[1..], b, reserved);
    }
  }

  /** Escaping with an empty set copies the text. */
  lemma {:induction false} EscapeNothing(s: seq<char>)
    ensures EscapeAll(s, {}) == s
  {
    if s != [] {
      EscapeNothing(s[1..]);
      assert [s[0]] + s[1..] == s;
    }
  }

  /** A later `.replace` for a character that is neither the backslash nor
      already escaped only adds escapes for that character: it never touches
      the output of the earlier ones. */
  lemma {:induction false} ReplaceAfterEscape(s: seq<char>, reserved: set<char>, c: char)
    requires c !in reserved && c != Backslash
    ensures ReplaceWithEscaped(EscapeAll(s, reserved), c) == EscapeAll(s, reserved + {c})
  {
    if s != [] {
      ReplaceAfterEscape(s[1..], reserved, c);
      EscapeAllAppend(EscapeChar(s[0], reserved), EscapeAll(s[1..], reserved), {c});
      if s[0] in reserved {
        assert EscapeChar(s[0], reserved) == [Backslash] + [s[0]];
        EscapeAllAppend([Backslash], [s[0]], {c});
      }
    }
  }

  predicate Distinct(chain: seq<char>) {
    forall i, j :: 0 <= i < j < |chain| ==> chain[i] != chain[j]
  }

  /** A chain whose characters each map back to their own position has no
      character twice. */
  lemma DistinctByPosition(chain: seq<char>, position: char -> int)
    requires forall i :: 0 <= i < |chain| ==> position(chain[i]) == i
    ensures Distinct(chain)
  {
  }

  /** A chain of replaces over distinct, non-backslash characters equals one
      pass that escapes all of them at once. */
  lemma {:induction false} ChainIsOnePass(s: seq<char>, reserved: set<char>, chain: seq<char>)
    requires Distinct(chain) && Backslash !in chain
    requires forall i :: 0 <= i < |chain| ==> chain[i] !in reserved
    ensures ChainReplace(EscapeAll(s, reserved), chain) == EscapeAll(s, reserved + set c | c in chain)
    decreases chain
  {
    if chain != [] {
      ReplaceAfterEscape(s, reserved, chain[0]);
      var rest := chain[1..];
      assert forall i :: 0 <= i < |rest| ==> rest[i] == chain[i + 1];
      ChainIsOnePass(s, reserved + {chain[0]}, rest);
      assert (reserved + {chain[0]}) + (set c | c in rest) == reserved + set c | c in chain;
    } else {
      assert reserved + (set c | c in chain) == reserved;
    }
  }

  /** The same, started on the unescaped text. */
  lemma ChainIsOnePassFromText(s: seq<char>, chain: seq<char>)
    requires Distinct(chain) && Backslash !in chain
    ensures ChainReplace(s, chain) == EscapeAll(s, set c | c in chain)
  {
    EscapeNothing(s);
    ChainIsOnePass(s, {}, chain);
    assert {} + (set c | c in chain) == set c | c in chain;
  }

  /** Reads an escaped text back: a backslash in front of a reserved
      character is dropped, every other character is kept. */
  function DropEscapes(r: seq<char>, reserved: set<char>): seq<char> {
    if r == [] then []
    else if |r| >= 2 && r[0] == Backslash && r[1] in reserved then [r[1]] + DropEscapes(r[2..], reserved)
    else [r[0]] + DropEscapes(r[1..], reserved)
  }

  lemma EscapedStartsUnreserved(s: seq<char>, reserved: set<char>)
    requires Backslash !in reserved && s != []
    ensures EscapeAll(s, reserved)[0] !in reserved
  {
  }

  /** Dropping the escapes recovers the original text, whatever it contains,
      backslashes included, as long as the backslash itself is not reserved. */
  lemma {:induction false} DropEscapesInverts(s: seq<char>, reserved: set<char>)
    requires Backslash !in reserved
    ensures DropEscapes(EscapeAll(s, reserved), reserved) == s
  {
    if s != [] {
      var c, t := s[0], s[1..];
      var et := EscapeAll(t, reserved);
      DropEscapesInverts(t, reserved);
      assert EscapeAll(s, reserved) == EscapeChar(c, reserved) + et;
      if c in reserved {
        assert (EscapeChar(c, reserved) + et)[2..] == et;
      } else {
        assert (EscapeChar(c, reserved) + et)[1..] == et;
        if c == Backslash && t != [] {
          EscapedStartsUnreserved(t, reserved);
        }
      }
      assert [c] + t == s;
    }
  }

  /** Every reserved character of `r` has a backslash right before it. */
  predicate ReservedAllEscaped(r: seq<char>, reserved: set<char>) {
    forall i :: 0 <= i < |r| && r[i] in reserved ==> i > 0 && r[i - 1] == Backslash
  }

  /** The escaped text leaves no reserved character without its backslash. */
  lemma {:induction false} EscapeAllLeavesNoBareReserved(s: seq<char>, reserved: set<char>)
    requires Backslash !in reserved
    ensures ReservedAllEscaped(EscapeAll(s, reserved), reserved)
  {
    if s != [] {
      EscapeAllLeavesNoBareReserved(s[1..], reserved);
      var head := EscapeChar(s[0], reserved);
      var tail := EscapeAll(s[1..], reserved);
      assert EscapeAll(s, reserved) == head + tail;
      forall i | 0 <= i < |head + tail| && (head + tail)[i] in reserved
        ensures i > 0 && (head + tail)[i - 1] == Backslash
      {
        if i >= |head| {
          assert (head + tail)[i] == tail[i - |head|];
        }
      }
    }
  }

  /** Text without reserved characters is copied unchanged. */
  lemma {:induction false} EscapeAllOfUnreserved(s: seq<char>, reserved: set<char>)
    requires forall i :: 0 <= i < |s| ==> s[i] !in reserved
    ensures EscapeAll(s, reserved) == s
  {
    if s != [] {
      EscapeAllOfUnreserved(s[1..], reserved);
      assert [s[0]] + s[1..] == s;
    }
  }
}
