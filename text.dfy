/**
 * The string operations of Rust's standard library that the player relies on:
 * substring search (`contains`), `splitn(2, sep)`, `replace`, `trim`,
 * lower-casing and the ordering of `String`.
 * Strings are sequences of Unicode scalar values (`char`).
 */
module Text {
  import opened Wrappers

  type String = seq<char>

  /** `pat` occurs in `s` starting at position `i`. */
  predicate OccursAt(s: String, pat: String, i: nat) {
    i <= |s| && pat <= s[i..]
  }

  lemma OccursAtTail(s: String, pat: String, i: nat)
    requires |s| > 0
    ensures OccursAt(s[1..], pat, i) <==> OccursAt(s, pat, i + 1)
  {
    if i + 1 <= |s| {
      assert s[1..][i..] == s[i + 1..];
    }
  }

  /** `hay.contains(needle)`: the needle occurs somewhere in the haystack. */
  function Contains(hay: String, needle: String): (b: bool)
    ensures b <==> exists i: nat :: OccursAt(hay, needle, i)
    decreases |hay|
  {
    if needle <= hay then
      assert OccursAt(hay, needle, 0);
      true
    else if hay == [] then
      false
    else
      var rest := Contains(hay[1..], needle);
      assert rest ==> exists i: nat :: OccursAt(hay, needle, i) by {
        if rest {
          var i: nat :| OccursAt(hay[1..], needle, i);
          OccursAtTail(hay, needle, i);
        }
      }
      assert (exists i: nat :: OccursAt(hay, needle, i)) ==> rest by {
        if exists i: nat :: OccursAt(hay, needle, i) {
          var i: nat :| OccursAt(hay, needle, i);
          assert i != 0;
          OccursAtTail(hay, needle, i - 1);
        }
      }
      rest
  }

  /**
   * `r` is `s` split at the FIRST occurrence of `sep`: the text before it and
   * everything after it (further separators included), or `None` exactly
   * when `sep` does not occur.
   */
  ghost predicate SplitsAtFirst(s: String, sep: String, r: Option<(String, String)>) {
    && (r.None? <==> forall i: nat :: !OccursAt(s, sep, i))
    && (r.Some? ==> s == r.value.0 + sep + r.value.1)
    && (r.Some? ==> forall i: nat :: i < |r.value.0| ==> !OccursAt(s, sep, i))
  }

  /** `s.splitn(2, sep)`, read as a pair. */
  function SplitOnce(s: String, sep: String): (r: Option<(String, String)>)
    ensures SplitsAtFirst(s, sep, r)
    decreases |s|
  {
    if sep <= s then
      assert s[0..] == s && OccursAt(s, sep, 0);
      Some(([], s[|sep|..]))
    else if s == [] then
      None
    else
      match SplitOnce(s[1..], sep)
      case None =>
        NoSplitStep(s, sep);
        None
      case Some((l, rest)) =>
        SplitStep(s, sep, l, rest);
        Some(([s[0]] + l, rest))
  }

  /** No occurrence in `s[1..]` and none at the start: none in `s`. */
  lemma NoSplitStep(s: String, sep: String)
    requires s != [] && !(sep <= s)
    requires forall i: nat :: !OccursAt(s[1..], sep, i)
    ensures forall i: nat :: !OccursAt(s, sep, i)
  {
    forall i: nat ensures !OccursAt(s, sep, i) {
      if i == 0 { assert s[0..] == s; } else { OccursAtTail(s, sep, i - 1); }
    }
  }

  /** The first split of `s[1..]` extended by `s[0]` is the first split of `s`. */
  lemma SplitStep(s: String, sep: String, l: String, rest: String)
    requires s != [] && !(sep <= s)
    requires s[1..] == l + sep + rest
    requires forall i: nat :: i < |l| ==> !OccursAt(s[1..], sep, i)
    ensures s == [s[0]] + l + sep + rest
    ensures OccursAt(s, sep, |l| + 1)
    ensures forall i: nat :: i < |l| + 1 ==> !OccursAt(s, sep, i)
  {
    assert s == [s[0]] + s[1..];
    assert s[1..][|l|..] == sep + rest;
    OccursAtTail(s, sep, |l|);
    forall i: nat | i < |l| + 1 ensures !OccursAt(s, sep, i) {
      if i == 0 { assert s[0..] == s; } else { OccursAtTail(s, sep, i - 1); }
    }
  }

  /**
   * `s.replace(from, to)`: every non-overlapping occurrence of `from`, found
   * left to right, replaced by `to`. The program only passes non-empty
   * patterns.
   */
  function Replace(s: String, from: String, to: String): (r: String)
    requires |from| > 0
    decreases |s|
  {
    if s == [] then []
    else if from <= s then to + Replace(s[|from|..], from, to)
    else [s[0]] + Replace(s[1..], from, to)
  }

  /** Replacing a pattern that does not occur leaves the string as it is. */
  lemma {:induction false} ReplaceAbsent(s: String, from: String, to: String)
    requires |from| > 0
    requires !Contains(s, from)
    ensures Replace(s, from, to) == s
  {
    if s != [] {
      assert !OccursAt(s, from, 0);
      assert !Contains(s[1..], from) by {
        forall i: nat ensures !OccursAt(s[1..], from, i) {
          OccursAtTail(s, from, i);
        }
      }
      ReplaceAbsent(s[1..], from, to);
      assert s == [s[0]] + s[1..];
    }
  }

  /** A prefix without the pattern's first character passes through `Replace` unchanged. */
  lemma {:induction false} ReplaceSkipsPrefix(a: String, b: String, from: String, to: String)
    requires |from| > 0 && from[0] !in a
    ensures Replace(a + b, from, to) == a + Replace(b, from, to)
  {
    if a != [] {
      assert (a + b)[1..] == a[1..] + b;
      assert !(from <= a + b) by { assert (a + b)[0] == a[0]; }
      ReplaceSkipsPrefix(a[1..], b, from, to);
      assert a == [a[0]] + a[1..];
    } else {
      assert a + b == b;
    }
  }

  /** An occurrence at the start is replaced, and the rest is processed after it. */
  lemma ReplaceAtMatch(rest: String, from: String, to: String)
    requires |from| > 0
    ensures Replace(from + rest, from, to) == to + Replace(rest, from, to)
  {
    assert (from + rest)[|from|..] == rest;
  }

  /** A lone occurrence between two stretches free of its first character is replaced. */
  lemma ReplaceAround(x: String, y: String, from: String, to: String)
    requires |from| > 0 && from[0] !in x && from[0] !in y
    ensures Replace(x + from + y, from, to) == x + to + y
  {
    ReplaceSkipsPrefix(y, [], from, to);
    assert y + [] == y;
    ReplaceAtMatch(y, from, to);
    ReplaceSkipsPrefix(x, from + y, from, to);
    assert x + from + y == x + (from + y);
    assert x + to + y == x + (to + y);
  }

  /** A character not followed by the pattern's second character is copied through `Replace`. */
  lemma ReplaceCopiesChar(c: char, b: String, from: String, to: String)
    requires |from| > 1 && b != [] && b[0] != from[1]
    ensures Replace([c] + b, from, to) == [c] + Replace(b, from, to)
  {
    assert ([c] + b)[1] != from[1];
    assert ([c] + b)[1..] == b;
  }

  /** A replacement text no longer than the pattern never lengthens the string. */
  lemma {:induction false} ReplaceNoLonger(s: String, from: String, to: String)
    requires 0 < |from| && |to| <= |from|
    ensures |Replace(s, from, to)| <= |s|
  {
    if s != [] {
      if from <= s {
        ReplaceNoLonger(s[|from|..], from, to);
      } else {
        ReplaceNoLonger(s[1..], from, to);
      }
    }
  }

  /** Characters with the Unicode White_Space property, which `str::trim` removes. */
  predicate IsWhitespace(c: char) {
    var n := c as int;
    (9 <= n <= 13) || n == 32 || n == 0x85 || n == 0xA0 || n == 0x1680 ||
    (0x2000 <= n <= 0x200A) || n == 0x2028 || n == 0x2029 || n == 0x202F ||
    n == 0x205F || n == 0x3000
  }

  /** The number of whitespace characters at the start of `s`. */
  function LeadingWhitespace(s: String): (n: nat)
    ensures n <= |s|
    ensures forall i :: 0 <= i < n ==> IsWhitespace(s[i])
    ensures n < |s| ==> !IsWhitespace(s[n])
  {
    if s == [] || !IsWhitespace(s[0]) then 0 else 1 + LeadingWhitespace(s[1..])
  }

  /** The number of whitespace characters at the end of `s`. */
  function TrailingWhitespace(s: String): (n: nat)
    ensures n <= |s|
    ensures forall i :: |s| - n <= i < |s| ==> IsWhitespace(s[i])
    ensures n < |s| ==> !IsWhitespace(s[|s| - 1 - n])
  {
    if s == [] || !IsWhitespace(s[|s| - 1]) then 0 else 1 + TrailingWhitespace(s[..|s| - 1])
  }

  /** `s.trim()`: `s` without its leading and trailing whitespace. */
  function Trim(s: String): (r: String)
    ensures r == [] <==> forall i :: 0 <= i < |s| ==> IsWhitespace(s[i])
    ensures r != [] ==> !IsWhitespace(r[0]) && !IsWhitespace(r[|r| - 1])
    ensures LeadingWhitespace(s) + |r| <= |s|
    ensures r == s[LeadingWhitespace(s)..LeadingWhitespace(s) + |r|]
    ensures forall i :: LeadingWhitespace(s) + |r| <= i < |s| ==> IsWhitespace(s[i])
  {
    var lead := LeadingWhitespace(s);
    if lead == |s| then []
    else
      var trail := TrailingWhitespace(s);
      assert !IsWhitespace(s[lead]);
      s[lead..|s| - trail]
  }

  /** Trimming twice is trimming once. */
  lemma TrimIdempotent(s: String)
    ensures Trim(Trim(s)) == Trim(s)
  {
    var t := Trim(s);
    if t != [] {
      assert LeadingWhitespace(t) == 0;
      assert TrailingWhitespace(t) == 0;
    }
  }

  /** A string with no whitespace at either end is its own trim. */
  lemma TrimUnpadded(s: String)
    requires s != [] ==> !IsWhitespace(s[0]) && !IsWhitespace(s[|s| - 1])
    ensures Trim(s) == s
  {
    if s != [] {
      assert LeadingWhitespace(s) == 0;
      assert TrailingWhitespace(s) == 0;
    }
  }

  /** ASCII case folding of one character. */
  function LowerChar(c: char): (d: char)
    ensures 'A' <= c <= 'Z' ==> d as int == c as int + 32
    ensures !('A' <= c <= 'Z') ==> d == c
  {
    if 'A' <= c <= 'Z' then (c as int + 32) as char else c
  }

  /** `s.to_lowercase()`, restricted to ASCII letters. */
  function ToLower(s: String): (r: String)
    ensures |r| == |s|
    ensures forall i :: 0 <= i < |s| ==> r[i] == LowerChar(s[i])
  {
    if s == [] then [] else [LowerChar(s[0])] + ToLower(s[1..])
  }

  /**
   * `a <= b` for Rust strings: lexicographic by code point (the same as
   * comparing their UTF-8 bytes).
   */
  predicate StrLe(a: String, b: String)
    decreases |a|
  {
    if a == [] then true
    else if b == [] then false
    else if a[0] != b[0] then a[0] < b[0]
    else StrLe(a[1..], b[1..])
  }

  lemma {:induction false} StrLeReflexive(a: String)
    ensures StrLe(a, a)
    decreases |a|
  {
    if a != [] { StrLeReflexive(a[1..]); }
  }

  lemma {:induction false} StrLeAntisymmetric(a: String, b: String)
    requires StrLe(a, b) && StrLe(b, a)
    ensures a == b
    decreases |a|
  {
    if a != [] {
      StrLeAntisymmetric(a[1..], b[1..]);
      assert a == [a[0]] + a[1..] && b == [b[0]] + b[1..];
    }
  }

  lemma {:induction false} StrLeTransitive(a: String, b: String, c: String)
    requires StrLe(a, b) && StrLe(b, c)
    ensures StrLe(a, c)
    decreases |a|
  {
    if a != [] && a[0] == b[0] && b[0] == c[0] {
      StrLeTransitive(a[1..], b[1..], c[1..]);
    }
  }

  lemma {:induction false} StrLeTotal(a: String, b: String)
    ensures StrLe(a, b) || StrLe(b, a)
    decreases |a|
  {
    if a != [] && b != [] && a[0] == b[0] {
      StrLeTotal(a[1..], b[1..]);
    }
  }
}
