/**
 * The java.lang.String operations the loan service relies on, over
 * sequences of characters: indexOf, split on one character, trim, isBlank,
 * a case-insensitive substring test and the decimal form of a number.
 * Only ASCII case folding and ASCII whitespace are modelled.
 */
module Text {
  import opened Outcomes

  /** Index of the first `c` in `s`, or |s| when there is none. */
  function IndexOf(s: string, c: char): (k: nat)
    ensures k <= |s|
    ensures k < |s| ==> s[k] == c
    ensures forall m :: 0 <= m < k ==> s[m] != c
  {
    if s == [] then 0
    else if s[0] == c then 0
    else 1 + IndexOf(s[1..], c)
  }

  /** Character.isWhitespace, restricted to the ASCII range. */
  predicate IsWhitespace(c: char)
  {
    c == ' ' || c == '\t' || c == '\n' || c == '\U{B}' || c == '\U{C}' || c == '\r'
    || ('\U{1C}' <= c <= '\U{1F}')
  }

  /** String.isBlank: empty or whitespace only. */
  predicate IsBlank(s: string)
  {
    forall i :: 0 <= i < |s| ==> IsWhitespace(s[i])
  }

  /** The characters String.trim removes: every code point up to and including ' '. */
  predicate TrimmedAway(c: char)
  {
    c <= ' '
  }

  function TrimStart(s: string): (r: string)
    ensures |r| <= |s| && r == s[|s| - |r|..]
    ensures r != [] ==> !TrimmedAway(r[0])
    ensures forall i :: 0 <= i < |s| - |r| ==> TrimmedAway(s[i])
  {
    if s != [] && TrimmedAway(s[0]) then TrimStart(s[1..]) else s
  }

  function TrimEnd(s: string): (r: string)
    ensures |r| <= |s| && r == s[..|r|]
    ensures r != [] ==> !TrimmedAway(r[|r| - 1])
    ensures forall i :: |r| <= i < |s| ==> TrimmedAway(s[i])
  {
    if s != [] && TrimmedAway(s[|s| - 1]) then TrimEnd(s[..|s| - 1]) else s
  }

  /** String.trim: drops leading and trailing characters up to ' '. */
  function Trim(s: string): (r: string)
  {
    TrimEnd(TrimStart(s))
  }

  /** A string that starts and ends with a kept character is its own trim. */
  lemma TrimUntouched(s: string)
    requires s != [] ==> !TrimmedAway(s[0]) && !TrimmedAway(s[|s| - 1])
    ensures Trim(s) == s
  {
  }

  /**
   * Trim keeps a contiguous middle part of its input, starting at `i`, and
   * removes only control characters and spaces around it.
   */
  lemma TrimIsMiddle(s: string) returns (i: nat)
    ensures var r := Trim(s);
      && i + |r| <= |s| && r == s[i..i + |r|]
      && (forall k :: 0 <= k < i ==> TrimmedAway(s[k]))
      && (forall k :: i + |r| <= k < |s| ==> TrimmedAway(s[k]))
      && (r != [] ==> !TrimmedAway(r[0]) && !TrimmedAway(r[|r| - 1]))
  {
    var t := TrimStart(s);
    var r := TrimEnd(t);
    i := |s| - |t|;
    assert r == t[..|r|];
  }

  /** Every piece between occurrences of `sep`, empty pieces included. */
  function SplitAll(s: string, sep: char): (parts: seq<string>)
    ensures |parts| >= 1
    ensures forall p :: p in parts ==> sep !in p
    decreases |s|
  {
    var i := IndexOf(s, sep);
    if i == |s| then [s] else [s[..i]] + SplitAll(s[i + 1..], sep)
  }

  function Join(parts: seq<string>, sep: char): string
    requires |parts| >= 1
  {
    if |parts| == 1 then parts[0] else parts[0] + [sep] + Join(parts[1..], sep)
  }

  /** Splitting loses nothing: joining the pieces back gives the input. */
  lemma {:induction false} SplitJoin(s: string, sep: char)
    ensures Join(SplitAll(s, sep), sep) == s
    decreases |s|
  {
    var i := IndexOf(s, sep);
    if i < |s| {
      SplitJoin(s[i + 1..], sep);
      assert s == s[..i] + [sep] + s[i + 1..];
    }
  }

  function DropTrailingEmpty(parts: seq<string>): (r: seq<string>)
    ensures |r| <= |parts| && r == parts[..|r|]
    ensures r != [] ==> r[|r| - 1] != []
    ensures forall k :: |r| <= k < |parts| ==> parts[k] == []
  {
    if parts != [] && parts[|parts| - 1] == [] then DropTrailingEmpty(parts[..|parts| - 1]) else parts
  }

  /**
   * String.split(",") for a one-character separator: trailing empty pieces
   * are dropped, except that a string without the separator is its own
   * only piece (so "" gives [""]).
   */
  function Split(s: string, sep: char): (parts: seq<string>)
    ensures forall p :: p in parts ==> sep !in p
  {
    if IndexOf(s, sep) == |s| then [s] else DropTrailingEmpty(SplitAll(s, sep))
  }

  /** A string without the separator splits into itself alone. */
  lemma SplitWithoutSeparator(s: string, sep: char)
    requires sep !in s
    ensures Split(s, sep) == [s]
  {
  }

  /** String.valueOf of a possibly null string: "null" for null, the string itself otherwise. */
  function ValueOf(s: Option<string>): (r: string)
    ensures s.Some? ==> r == s.value
    ensures s.None? ==> r == "null"
  {
    if s.None? then "null" else s.value
  }

  function LowerChar(c: char): char
  {
    if 'A' <= c <= 'Z' then (c as int + 32) as char else c
  }

  function Lower(s: string): (r: string)
    ensures |r| == |s|
    ensures forall i :: 0 <= i < |s| ==> r[i] == LowerChar(s[i])
  {
    if s == [] then [] else [LowerChar(s[0])] + Lower(s[1..])
  }

  predicate OccursAt(t: string, s: string, i: nat)
  {
    i + |t| <= |s| && s[i..i + |t|] == t
  }

  predicate IsSubstring(t: string, s: string)
  {
    exists i: nat | i <= |s| :: OccursAt(t, s, i)
  }

  /** `s ILIKE '%' || t || '%'` without wildcard characters in t: case-insensitive containment. */
  predicate ContainsIgnoringCase(s: string, t: string)
  {
    IsSubstring(Lower(t), Lower(s))
  }

  function DigitChar(d: nat): char
    requires d < 10
  {
    ('0' as int + d) as char
  }

  /** Integer.toString for a non-negative number: its decimal digits, no leading zeros. */
  function NatToString(n: nat): (r: string)
    ensures |r| >= 1
    ensures forall i :: 0 <= i < |r| ==> '0' <= r[i] <= '9'
    ensures |r| > 1 ==> r[0] != '0'
  {
    if n < 10 then [DigitChar(n)] else NatToString(n / 10) + [DigitChar(n % 10)]
  }

  function DigitsValue(s: string): int
  {
    if s == [] then 0 else 10 * DigitsValue(s[..|s| - 1]) + (s[|s| - 1] as int - '0' as int)
  }

  /** The decimal form reads back as the number it was made from. */
  lemma {:induction false} NatToStringRoundTrip(n: nat)
    ensures DigitsValue(NatToString(n)) == n
  {
    if n >= 10 {
      NatToStringRoundTrip(n / 10);
      var r := NatToString(n);
      assert r[..|r| - 1] == NatToString(n / 10);
    }
  }
}
