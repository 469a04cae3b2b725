/** The string operations the tracker relies on: `trim`, `length` (which counts UTF-16 code units),
    `toLowerCase` restricted to ASCII letters, and `includes`. */
module Text {

  /** The characters `String.prototype.trim` removes: ECMAScript's WhiteSpace (tab, vertical tab,
      form feed, space, no-break space, zero-width no-break space and the Zs category) and its
      LineTerminator characters (line feed, carriage return, line and paragraph separators). */
  predicate IsWhiteSpace(c: char)
  {
    c == '\t' || c == '\n' || c == '\U{B}' || c == '\U{C}' || c == '\r' || c == ' '
    || c == '\U{A0}' || c == '\U{1680}' || ('\U{2000}' <= c <= '\U{200A}')
    || c == '\U{2028}' || c == '\U{2029}' || c == '\U{202F}' || c == '\U{205F}'
    || c == '\U{3000}' || c == '\U{FEFF}'
  }

  /** `s` with its leading white space removed: a suffix of `s`, everything dropped is white space,
      and what is left does not start with white space. */
  function TrimStart(s: string): (r: string)
    ensures |r| <= |s| && r == s[|s| - |r|..]
    ensures forall k :: 0 <= k < |s| - |r| ==> IsWhiteSpace(s[k])
    ensures r == [] || !IsWhiteSpace(r[0])
    decreases |s|
  {
    if |s| > 0 && IsWhiteSpace(s[0]) then TrimStart(s[1..]) else s
  }

  /** `s` with its trailing white space removed: a prefix of `s`, everything dropped is white
      space, and what is left does not end with white space. */
  function TrimEnd(s: string): (r: string)
    ensures |r| <= |s| && r == s[..|r|]
    ensures forall k :: |r| <= k < |s| ==> IsWhiteSpace(s[k])
    ensures r == [] || !IsWhiteSpace(r[|r| - 1])
    decreases |s|
  {
    if |s| > 0 && IsWhiteSpace(s[|s| - 1]) then TrimEnd(s[..|s| - 1]) else s
  }

  /** `s.trim()`. */
  function Trim(s: string): string
  {
    TrimEnd(TrimStart(s))
  }

  /** The trimmed string is a contiguous part of the input, only white space lies around it, and
      it neither starts nor ends with white space. */
  lemma TrimShape(s: string)
    ensures var i := |s| - |TrimStart(s)|;
      && 0 <= i <= |s| - |Trim(s)| && Trim(s) == s[i..i + |Trim(s)|]
      && (forall k :: 0 <= k < i ==> IsWhiteSpace(s[k]))
      && (forall k :: i + |Trim(s)| <= k < |s| ==> IsWhiteSpace(s[k]))
    ensures Trim(s) == [] || (!IsWhiteSpace(Trim(s)[0]) && !IsWhiteSpace(Trim(s)[|Trim(s)| - 1]))
  {
    TrimSlice(s);
    TrimTrailing(s);
    TrimEnds(s);
  }

  lemma TrimSlice(s: string)
    ensures var i := |s| - |TrimStart(s)|;
      0 <= i <= |s| - |Trim(s)| && Trim(s) == s[i..i + |Trim(s)|]
  {
    var u := TrimStart(s);
    var r := TrimEnd(u);
    assert u == s[|s| - |u|..];
    assert r == u[..|r|];
    PrefixOfSuffix(s, |s| - |u|, u, r);
  }

  /** A prefix of a suffix of `s` is a slice of `s`. */
  lemma PrefixOfSuffix<T>(s: seq<T>, i: nat, u: seq<T>, r: seq<T>)
    requires i <= |s| && u == s[i..] && |r| <= |u| && r == u[..|r|]
    ensures r == s[i..i + |r|]
  {
  }

  lemma TrimTrailing(s: string)
    ensures var i := |s| - |TrimStart(s)|;
      forall k :: i + |Trim(s)| <= k < |s| ==> IsWhiteSpace(s[k])
  {
    var u := TrimStart(s);
    var i, n := |s| - |u|, |TrimEnd(u)|;
    forall k | i + n <= k < |s|
      ensures IsWhiteSpace(s[k])
    {
      assert IsWhiteSpace(u[k - i]);
      assert s[k] == u[k - i];
    }
  }

  lemma TrimEnds(s: string)
    ensures Trim(s) == [] || (!IsWhiteSpace(Trim(s)[0]) && !IsWhiteSpace(Trim(s)[|Trim(s)| - 1]))
  {
    var u := TrimStart(s);
    var r := TrimEnd(u);
    if r != [] {
      assert r[0] == u[0];
    }
  }

  /** Trimming a trimmed string changes nothing. */
  lemma TrimIdempotent(s: string)
    ensures Trim(Trim(s)) == Trim(s)
  {
    var u := TrimStart(s);
    var r := TrimEnd(u);
    if r != [] {
      assert r[0] == u[0];
    }
    assert TrimStart(r) == r;
  }

  /** The code units one character takes in UTF-16: two for a character outside the Basic
      Multilingual Plane, one otherwise. */
  function Utf16Units(c: char): nat
  {
    if c as int >= 0x1_0000 then 2 else 1
  }

  /** `s.length`: the number of UTF-16 code units of `s`. */
  function Utf16Length(s: string): (n: nat)
    ensures |s| <= n <= 2 * |s|
    decreases |s|
  {
    if s == [] then 0 else Utf16Units(s[0]) + Utf16Length(s[1..])
  }

  /** `toLowerCase` on one character, for the ASCII letters. */
  function LowerChar(c: char): (d: char)
  {
    if 'A' <= c <= 'Z' then (c as int + 32) as char else c
  }

  /** `s.toLowerCase()`, restricted to ASCII letters. */
  function Lower(s: string): (r: string)
    ensures |r| == |s|
    ensures forall i :: 0 <= i < |s| ==> r[i] == LowerChar(s[i])
    decreases |s|
  {
    if s == [] then [] else [LowerChar(s[0])] + Lower(s[1..])
  }

  /** Lower-casing is idempotent, so a lower-cased term matches a lower-cased text the same way
      whatever case either was typed in. */
  lemma LowerIdempotent(s: string)
    ensures Lower(Lower(s)) == Lower(s)
  {
    assert forall i :: 0 <= i < |s| ==> LowerChar(LowerChar(s[i])) == LowerChar(s[i]);
  }

  /** `p` is a prefix of `s`. */
  predicate IsPrefix(p: string, s: string)
  {
    |p| <= |s| && s[..|p|] == p
  }

  /** `term` occurs in `s` starting at position `i`. */
  predicate OccursAt(s: string, term: string, i: int)
  {
    0 <= i <= |s| - |term| && s[i..i + |term|] == term
  }

  /** `term` occurs somewhere in `s`. */
  ghost predicate Occurs(s: string, term: string)
  {
    exists i :: OccursAt(s, term, i)
  }

  /** `s.includes(term)`, searching from the left. */
  predicate Includes(s: string, term: string)
    decreases |s|
  {
    IsPrefix(term, s) || (|s| > 0 && Includes(s[1..], term))
  }

  /** `includes` holds exactly when the term occurs at some position of the text. */
  lemma {:induction false} IncludesIff(s: string, term: string)
    ensures Includes(s, term) <==> Occurs(s, term)
    decreases |s|
  {
    if IsPrefix(term, s) {
      assert OccursAt(s, term, 0);
    } else if |s| > 0 {
      IncludesIff(s[1..], term);
      if exists i :: OccursAt(s, term, i) {
        var i :| OccursAt(s, term, i);
        assert i != 0;
        assert s[1..][i - 1..i - 1 + |term|] == s[i..i + |term|];
        assert OccursAt(s[1..], term, i - 1);
      }
      if Includes(s[1..], term) {
        var i :| OccursAt(s[1..], term, i);
        assert s[1..][i..i + |term|] == s[i + 1..i + 1 + |term|];
        assert OccursAt(s, term, i + 1);
      }
    }
  }
}
