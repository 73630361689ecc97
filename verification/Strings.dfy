/** The Python string operations the error classifiers and the revert decoder rely on. */
module Strings {
  import opened Prelude

  predicate OccursAt(needle: string, hay: string, i: nat) {
    i + |needle| <= |hay| && hay[i..i + |needle|] == needle
  }

  /** Python's `needle in hay`. */
  predicate Contains(hay: string, needle: string) {
    exists i | 0 <= i <= |hay| :: OccursAt(needle, hay, i)
  }

  /** An occurrence splits the text around the needle. */
  lemma ContainsExactly(hay: string, needle: string)
    ensures Contains(hay, needle) <==> exists before, after :: hay == before + needle + after
  {
    if Contains(hay, needle) {
      var i :| 0 <= i <= |hay| && OccursAt(needle, hay, i);
      assert hay == hay[..i] + needle + hay[i + |needle|..];
    }
    if before, after :| hay == before + needle + after {
      assert hay[|before|..|before| + |needle|] == needle;
      assert OccursAt(needle, hay, |before|);
    }
  }

  lemma ContainsItself(s: string)
    ensures Contains(s, s)
  {
    assert s[0..|s|] == s;
    assert OccursAt(s, s, 0);
  }

  /** Python's `hay.find(needle)` from position `start`; None stands for -1. */
  function FindFrom(hay: string, needle: string, start: nat): (r: Option<nat>)
    requires start <= |hay|
    ensures r.Some? ==> start <= r.value <= |hay| && OccursAt(needle, hay, r.value)
    ensures r.Some? ==> forall i | start <= i < r.value :: !OccursAt(needle, hay, i)
    ensures r.None? ==> forall i | start <= i <= |hay| :: !OccursAt(needle, hay, i)
    decreases |hay| - start
  {
    if OccursAt(needle, hay, start) then Some(start)
    else if start == |hay| then None
    else FindFrom(hay, needle, start + 1)
  }

  /** `str.lower` restricted to ASCII letters. */
  function LowerChar(c: char): char {
    if 'A' <= c <= 'Z' then (c as int + 32) as char else c
  }

  function Lower(s: string): (r: string)
    ensures |r| == |s| && forall i | 0 <= i < |s| :: r[i] == LowerChar(s[i])
  {
    seq(|s|, i requires 0 <= i < |s| => LowerChar(s[i]))
  }

  const CAPITALS := "ABCDEFGHIJKLMNOPQRSTUVWXYZ"

  /** Lowering turns the capitals into the small letters and leaves every other character. */
  lemma LowersCapitalsOnly(s: string)
    ensures Lower(CAPITALS) == "abcdefghijklmnopqrstuvwxyz"
    ensures (forall c | c in s :: c < 'A' || 'Z' < c) ==> Lower(s) == s
  {
    assert forall i | 0 <= i < |s| :: s[i] in s;
  }

  predicate IsSpace(c: char) {
    9 <= c as int <= 13 || 28 <= c as int <= 32
  }

  predicate IsColonOrBlank(c: char) { c == ':' || c == ' ' }

  /** Tab to carriage return, the four separators, and the blank. */
  lemma DroppedCharacters(c: char)
    ensures IsSpace(c) <==> c in "\t\n\U{00000B}\U{00000C}\r\U{00001C}\U{00001D}\U{00001E}\U{00001F} "
    ensures IsColonOrBlank(c) <==> c in ": "
  {
  }

  /** Python's `s.strip(...)`: drop matching characters from both ends. */
  function Strip(s: string, drop: char -> bool): string {
    if s == [] then s
    else if drop(s[0]) then Strip(s[1..], drop)
    else if drop(s[|s| - 1]) then Strip(s[..|s| - 1], drop)
    else s
  }

  lemma StripStops(s: string, drop: char -> bool)
    requires s == [] || (!drop(s[0]) && !drop(s[|s| - 1]))
    ensures Strip(s, drop) == s
  {
  }

  /** Nothing but dropped characters stands around `middle`, and `middle` neither starts nor ends with one. */
  predicate TrimsTo(s: string, before: string, middle: string, after: string, drop: char -> bool) {
    && s == before + middle + after
    && (forall c | c in before + after :: drop(c))
    && (middle != [] ==> !drop(middle[0]) && !drop(middle[|middle| - 1]))
  }

  lemma {:induction false} StripTrims(s: string, drop: char -> bool) returns (before: string, after: string)
    ensures TrimsTo(s, before, Strip(s, drop), after, drop)
    decreases |s|
  {
    if s == [] {
      before, after := [], [];
    } else if drop(s[0]) {
      before, after := StripTrims(s[1..], drop);
      before := [s[0]] + before;
    } else if drop(s[|s| - 1]) {
      before, after := StripTrims(s[..|s| - 1], drop);
      after := after + [s[|s| - 1]];
    } else {
      before, after := [], [];
    }
  }

  lemma ContainsTail(s: string, needle: string)
    requires s != [] && needle != [] && needle[0] != s[0]
    ensures Contains(s[1..], needle) <==> Contains(s, needle)
  {
    if Contains(s, needle) {
      var i :| 0 <= i <= |s| && OccursAt(needle, s, i);
      assert s[i..i + |needle|][0] == s[i];
      assert s[1..][i - 1..i - 1 + |needle|] == s[i..i + |needle|];
      assert OccursAt(needle, s[1..], i - 1);
    }
    if Contains(s[1..], needle) {
      var i :| 0 <= i <= |s[1..]| && OccursAt(needle, s[1..], i);
      assert s[i + 1..i + 1 + |needle|] == s[1..][i..i + |needle|];
      assert OccursAt(needle, s, i + 1);
    }
  }

  lemma ContainsInit(s: string, needle: string)
    requires s != [] && needle != [] && needle[|needle| - 1] != s[|s| - 1]
    ensures Contains(s[..|s| - 1], needle) <==> Contains(s, needle)
  {
    if Contains(s, needle) {
      var i :| 0 <= i <= |s| && OccursAt(needle, s, i);
      assert s[i..i + |needle|][|needle| - 1] == s[i + |needle| - 1];
      assert s[..|s| - 1][i..i + |needle|] == s[i..i + |needle|];
      assert OccursAt(needle, s[..|s| - 1], i);
    }
    if Contains(s[..|s| - 1], needle) {
      var i :| 0 <= i <= |s[..|s| - 1]| && OccursAt(needle, s[..|s| - 1], i);
      assert s[i..i + |needle|] == s[..|s| - 1][i..i + |needle|];
      assert OccursAt(needle, s, i);
    }
  }

  /** Stripping never destroys or creates an occurrence of a needle whose own ends are not stripped. */
  lemma {:induction false} StripKeeps(s: string, drop: char -> bool, needle: string)
    requires needle != [] && !drop(needle[0]) && !drop(needle[|needle| - 1])
    ensures Contains(Strip(s, drop), needle) <==> Contains(s, needle)
    decreases |s|
  {
    if s == [] {
    } else if drop(s[0]) {
      ContainsTail(s, needle);
      StripKeeps(s[1..], drop, needle);
    } else if drop(s[|s| - 1]) {
      ContainsInit(s, needle);
      StripKeeps(s[..|s| - 1], drop, needle);
    }
  }
}
