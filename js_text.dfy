/**
 * The JavaScript string operations the viewer-response function uses:
 * `trim`, `toLowerCase`, `length` (UTF-16 code units), `substring(0, n)`, and
 * `replace` with a string pattern, which replaces the first occurrence only.
 */
module JsText {

  /** ECMAScript WhiteSpace and LineTerminator: what `String.prototype.trim` removes. */
  predicate IsJsSpace(c: char) {
    || c == '\t' || c == '\n' || c == '\U{000B}' || c == '\U{000C}' || c == '\r' || c == ' '
    || c == '\U{00A0}' || c == '\U{1680}'
    || ('\U{2000}' <= c <= '\U{200A}')
    || c == '\U{2028}' || c == '\U{2029}' || c == '\U{202F}' || c == '\U{205F}' || c == '\U{3000}'
    || c == '\U{FEFF}'
  }

  predicate AllJsSpace(s: string) { forall i :: 0 <= i < |s| ==> IsJsSpace(s[i]) }

  /** s without its leading white space. */
  function TrimStart(s: string): string
  {
    if |s| > 0 && IsJsSpace(s[0]) then TrimStart(s[1..]) else s
  }

  /** s without its trailing white space. */
  function TrimEnd(s: string): string
  {
    if |s| > 0 && IsJsSpace(s[|s| - 1]) then TrimEnd(s[..|s| - 1]) else s
  }

  /** TrimStart drops a white-space prefix, and what is left does not start with white space. */
  lemma {:induction false} TrimStartShape(s: string)
    ensures var t := TrimStart(s);
      && |t| <= |s| && t == s[|s| - |t|..]
      && AllJsSpace(s[..|s| - |t|])
      && (t != [] ==> !IsJsSpace(t[0]))
  {
    if |s| > 0 && IsJsSpace(s[0]) {
      var s' := s[1..];
      TrimStartShape(s');
      var t := TrimStart(s');
      assert TrimStart(s) == t;
      assert s'[|s'| - |t|..] == s[|s| - |t|..];
      var n := |s| - |t|;
      forall i | 0 <= i < n
        ensures IsJsSpace(s[..n][i])
      {
        if i > 0 {
          assert s'[..n - 1][i - 1] == s[..n][i];
        }
      }
    }
  }

  /** TrimEnd drops a white-space suffix, and what is left does not end with white space. */
  lemma {:induction false} TrimEndShape(s: string)
    ensures var t := TrimEnd(s);
      && |t| <= |s| && t == s[..|t|]
      && AllJsSpace(s[|t|..])
      && (t != [] ==> !IsJsSpace(t[|t| - 1]))
  {
    if |s| > 0 && IsJsSpace(s[|s| - 1]) {
      var s' := s[..|s| - 1];
      TrimEndShape(s');
      var t := TrimEnd(s');
      assert TrimEnd(s) == t;
      assert s'[..|t|] == s[..|t|];
      forall i | 0 <= i < |s| - |t|
        ensures IsJsSpace(s[|t|..][i])
      {
        if i < |s| - 1 - |t| {
          assert s'[|t|..][i] == s[|t|..][i];
        }
      }
    }
  }

  /** `s.trim()`. */
  function Trim(s: string): string
  {
    TrimEnd(TrimStart(s))
  }

  /** Trim removes exactly a white-space prefix and a white-space suffix, and leaves no white space at either end. */
  lemma TrimIsInfix(s: string)
    ensures exists i, j :: 0 <= i <= j <= |s| && Trim(s) == s[i..j] && AllJsSpace(s[..i]) && AllJsSpace(s[j..])
    ensures Trim(s) == [] || (!IsJsSpace(Trim(s)[0]) && !IsJsSpace(Trim(s)[|Trim(s)| - 1]))
  {
    var l := TrimStart(s);
    TrimStartShape(s);
    var i := |s| - |l|;
    var r := TrimEnd(l);
    TrimEndShape(l);
    var j := i + |r|;
    assert l == s[i..];
    assert r == l[..|r|];
    assert l[..|r|] == s[i..j];
    assert l[|r|..] == s[j..];
    if r != [] {
      assert r[0] == l[0];
    }
  }

  /** A string with no white space at either end trims to itself. */
  lemma TrimTrimmed(s: string)
    requires s == [] || (!IsJsSpace(s[0]) && !IsJsSpace(s[|s| - 1]))
    ensures Trim(s) == s
  {
  }

  function LowerChar(c: char): char
  {
    if 'A' <= c <= 'Z' then (c as int + 32) as char else c
  }

  /** `s.toLowerCase()`, for the ASCII letters. */
  function AsciiLower(s: string): (t: string)
    ensures |t| == |s|
    ensures forall i :: 0 <= i < |s| ==> t[i] == LowerChar(s[i])
  {
    if s == [] then [] else AsciiLower(s[..|s| - 1]) + [LowerChar(s[|s| - 1])]
  }

  /** `s.length`: UTF-16 code units, two for a character outside the Basic Multilingual Plane. */
  function Utf16Length(s: string): (n: nat)
  {
    if s == [] then 0 else Utf16Length(s[..|s| - 1]) + (if s[|s| - 1] as int >= 0x10000 then 2 else 1)
  }

  /** Every character takes one or two code units. */
  lemma {:induction false} Utf16LengthBounds(s: string)
    ensures |s| <= Utf16Length(s) <= 2 * |s|
  {
    if s != [] {
      Utf16LengthBounds(s[..|s| - 1]);
    }
  }

  /** `s.substring(0, n)`, counting characters. */
  function Prefix(s: string, n: nat): string
  {
    if |s| <= n then s else s[..n]
  }

  /** Prefix keeps the first n characters, or all of a shorter string. */
  lemma PrefixSpec(s: string, n: nat)
    ensures |Prefix(s, n)| <= n && |Prefix(s, n)| <= |s|
    ensures Prefix(s, n) == s[..|Prefix(s, n)|]
    ensures |s| <= n ==> Prefix(s, n) == s
  {
  }

  /** Whether t occurs in s at position i. */
  predicate OccursAt(s: string, t: string, i: int)
  {
    0 <= i && i + |t| <= |s| && s[i..i + |t|] == t
  }

  /** `s.indexOf(t)`: the first position where t occurs in s, or -1. */
  function Find(s: string, t: string): (i: int)
    ensures i == -1 || (0 <= i && i + |t| <= |s|)
    decreases |s|
  {
    if |s| < |t| then -1
    else if s[..|t|] == t then 0
    else
      var j := Find(s[1..], t);
      if j == -1 then -1 else j + 1
  }

  /** Find gives the first occurrence, or -1 when there is none. */
  lemma FindSpec(s: string, t: string)
    ensures var i := Find(s, t);
      && (i == -1 || OccursAt(s, t, i))
      && forall j :: 0 <= j && (i == -1 || j < i) ==> !OccursAt(s, t, j)
  {
    FindOccurs(s, t);
    forall j | 0 <= j && (Find(s, t) == -1 || j < Find(s, t))
      ensures !OccursAt(s, t, j)
    {
      FindFirst(s, t, j);
    }
  }

  /** Where Find gives a position, the pattern occurs there. */
  lemma {:induction false} FindOccurs(s: string, t: string)
    ensures Find(s, t) == -1 || OccursAt(s, t, Find(s, t))
    decreases |s|
  {
    if |s| >= |t| {
      if s[..|t|] == t {
        assert s[0..|t|] == s[..|t|];
      } else {
        FindOccurs(s[1..], t);
        if Find(s[1..], t) != -1 {
          OccursShift(s, t, Find(s[1..], t));
        }
      }
    }
  }

  /** No occurrence comes before the position Find gives, and there is none at all when it gives -1. */
  lemma {:induction false} FindFirst(s: string, t: string, j: nat)
    requires Find(s, t) == -1 || j < Find(s, t)
    ensures !OccursAt(s, t, j)
    decreases |s|
  {
    if |s| >= |t| && s[..|t|] != t {
      if j == 0 {
        assert s[0..|t|] == s[..|t|];
      } else {
        FindFirst(s[1..], t, j - 1);
        OccursShift(s, t, j - 1);
      }
    }
  }

  lemma OccursShift(s: string, t: string, k: nat)
    requires |s| >= 1
    ensures OccursAt(s, t, k + 1) <==> OccursAt(s[1..], t, k)
  {
    if k + 1 + |t| <= |s| {
      var x, y := s[1..][k..k + |t|], s[k + 1..k + 1 + |t|];
      forall m | 0 <= m < |t|
        ensures x[m] == y[m]
      {
        assert x[m] == s[1..][k + m];
      }
      assert x == y;
    }
  }

  /**
   * GetSubstitution with no capture groups: in the replacement "$$" stands
   * for "$", "$&" for the matched text, "$`" for the text before the match
   * and "$'" for the text after it; every other character is itself.
   */
  function Expand(replacement: string, matched: string, before: string, after: string): string
  {
    if replacement == [] then []
    else if |replacement| >= 2 && replacement[0] == '$' && replacement[1] in "$&`'" then
      var piece := match replacement[1]
        case '$' => "$"
        case '&' => matched
        case '`' => before
        case _ => after;
      piece + Expand(replacement[2..], matched, before, after)
    else [replacement[0]] + Expand(replacement[1..], matched, before, after)
  }

  /** `s.replace(pattern, replacement)` with a string pattern, as the language defines it. */
  function ReplaceFirstAsWritten(s: string, pattern: string, replacement: string): string
  {
    var i := Find(s, pattern);
    if i == -1 then s
    else s[..i] + Expand(replacement, pattern, s[..i], s[i + |pattern|..]) + s[i + |pattern|..]
  }

  /** The first occurrence of pattern replaced by the replacement text, character for character. */
  function ReplaceFirst(s: string, pattern: string, replacement: string): (r: string)
  {
    var i := Find(s, pattern);
    if i == -1 then s else s[..i] + replacement + s[i + |pattern|..]
  }

  /** Without a '$' the replacement is taken literally, so the two replacements agree. */
  lemma {:induction false} ExpandLiteral(replacement: string, matched: string, before: string, after: string)
    requires '$' !in replacement
    ensures Expand(replacement, matched, before, after) == replacement
  {
    if replacement != [] {
      assert replacement[1..] == replacement[1..];
      assert '$' !in replacement[1..];
      ExpandLiteral(replacement[1..], matched, before, after);
    }
  }

  lemma ReplaceAgreesWithoutDollar(s: string, pattern: string, replacement: string)
    requires '$' !in replacement
    ensures ReplaceFirstAsWritten(s, pattern, replacement) == ReplaceFirst(s, pattern, replacement)
  {
    var i := Find(s, pattern);
    if i != -1 {
      ExpandLiteral(replacement, pattern, s[..i], s[i + |pattern|..]);
    }
  }

  /**
   * ReplaceFirst puts the replacement, verbatim, in place of the first
   * occurrence and keeps the text around it; without an occurrence nothing
   * changes.
   */
  lemma ReplaceFirstSpec(s: string, pattern: string, replacement: string)
    ensures Find(s, pattern) == -1 ==> ReplaceFirst(s, pattern, replacement) == s
    ensures Find(s, pattern) != -1 ==>
              var i := Find(s, pattern);
              && s == s[..i] + pattern + s[i + |pattern|..]
              && ReplaceFirst(s, pattern, replacement) == s[..i] + replacement + s[i + |pattern|..]
              && forall j :: 0 <= j < i ==> !OccursAt(s, pattern, j)
  {
    FindSpec(s, pattern);
    var i := Find(s, pattern);
    if i != -1 {
      ThreeSlices(s, i, i + |pattern|);
    }
  }

  /** A string is its three slices at i and j put back together. */
  lemma ThreeSlices(s: string, i: nat, j: nat)
    requires i <= j <= |s|
    ensures s == s[..i] + s[i..j] + s[j..]
  {
    assert s[..j] == s[..i] + s[i..j];
    assert s == s[..j] + s[j..];
  }

  /** A string that does not contain the pattern is left as it is. */
  lemma ReplaceAbsent(s: string, pattern: string, replacement: string)
    requires forall j :: 0 <= j ==> !OccursAt(s, pattern, j)
    ensures ReplaceFirst(s, pattern, replacement) == s
  {
    FindSpec(s, pattern);
  }
}
