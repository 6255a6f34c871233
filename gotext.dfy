/**
 * The parts of Go's `unicode`, `strings` and string-to-byte conversion that
 * the tool relies on: `unicode.IsSpace`, `strings.TrimSpace`,
 * `strings.Fields`, and `[]byte(s)`, which encodes a string as UTF-8.
 */
module GoText {
  import Strings

  type byte = x: int | 0 <= x < 256

  /** Go's `unicode.IsSpace`: the Latin-1 spaces and the Unicode White_Space property. */
  predicate IsSpace(c: char) {
    || c == '\t' || c == '\n' || c == '\U{000B}' || c == '\U{000C}' || c == '\r' || c == ' '
    || c == '\U{0085}' || c == '\U{00A0}' || c == '\U{1680}'
    || ('\U{2000}' <= c <= '\U{200A}')
    || c == '\U{2028}' || c == '\U{2029}' || c == '\U{202F}' || c == '\U{205F}' || c == '\U{3000}'
  }

  predicate AllSpace(s: string) { forall i :: 0 <= i < |s| ==> IsSpace(s[i]) }

  predicate NoSpace(s: string) { forall i :: 0 <= i < |s| ==> !IsSpace(s[i]) }

  /** The number of white-space characters s starts with. */
  function LeadingSpace(s: string): (n: nat)
    ensures n <= |s| && (forall i :: 0 <= i < n ==> IsSpace(s[i])) && (n < |s| ==> !IsSpace(s[n]))
  {
    if |s| > 0 && IsSpace(s[0]) then
      var k := LeadingSpace(s[1..]);
      assert forall i :: 1 <= i <= k ==> s[i] == s[1..][i - 1];
      k + 1
    else 0
  }

  /** s without its leading white space. */
  function TrimLeft(s: string): (t: string)
    ensures |t| <= |s| && t == s[|s| - |t|..]
    ensures AllSpace(s[..|s| - |t|])
    ensures t != [] ==> !IsSpace(t[0])
  {
    var n := LeadingSpace(s);
    assert forall i :: 0 <= i < n ==> s[..n][i] == s[i];
    s[n..]
  }

  /** The number of white-space characters s ends with. */
  function TrailingSpace(s: string): (n: nat)
    ensures n <= |s| && (forall i :: |s| - n <= i < |s| ==> IsSpace(s[i])) && (n < |s| ==> !IsSpace(s[|s| - n - 1]))
  {
    if |s| > 0 && IsSpace(s[|s| - 1]) then
      var k := TrailingSpace(s[..|s| - 1]);
      assert forall i :: |s| - 1 - k <= i < |s| - 1 ==> s[i] == s[..|s| - 1][i];
      k + 1
    else 0
  }

  /** s without its trailing white space. */
  function TrimRight(s: string): (t: string)
    ensures |t| <= |s| && t == s[..|t|]
    ensures AllSpace(s[|t|..])
    ensures t != [] ==> !IsSpace(t[|t| - 1])
  {
    var n := TrailingSpace(s);
    var t := s[..|s| - n];
    assert forall i :: 0 <= i < n ==> s[|t|..][i] == s[|t| + i];
    assert t != [] ==> t[|t| - 1] == s[|s| - n - 1];
    t
  }

  /** Go's `strings.TrimSpace`. */
  function TrimSpace(s: string): (t: string)
    ensures t == [] || (!IsSpace(t[0]) && !IsSpace(t[|t| - 1]))
  {
    TrimRight(TrimLeft(s))
  }

  /** TrimSpace removes exactly a white-space prefix and a white-space suffix. */
  lemma TrimSpaceIsInfix(s: string)
    ensures exists i, j :: 0 <= i <= j <= |s| && TrimSpace(s) == s[i..j] && AllSpace(s[..i]) && AllSpace(s[j..])
  {
    var l := TrimLeft(s);
    var i := |s| - |l|;
    var r := TrimRight(l);
    var j := i + |r|;
    SliceOfSuffix(s, i, |r|);
    assert TrimSpace(s) == s[i..j] && AllSpace(s[..i]) && AllSpace(s[j..]);
  }

  /** Slicing the suffix from i is slicing s from i on. */
  lemma SliceOfSuffix(s: string, i: nat, k: nat)
    requires i + k <= |s|
    ensures s[i..][..k] == s[i..i + k] && s[i..][k..] == s[i + k..]
  {
  }

  /** The number of leading characters of s that are not white space. */
  function WordLength(s: string): (n: nat)
    ensures n <= |s| && NoSpace(s[..n]) && (n < |s| ==> IsSpace(s[n]))
  {
    if |s| > 0 && !IsSpace(s[0]) then
      var n := WordLength(s[1..]);
      assert s[..n + 1] == [s[0]] + s[1..][..n];
      n + 1
    else 0
  }

  /** A field of `strings.Fields`: a non-empty run of non-space characters. */
  predicate IsField(w: string) { w != [] && NoSpace(w) }

  /** Go's `strings.Fields`: the maximal runs of non-space characters, in order. */
  function Fields(s: string): (fs: seq<string>)
    ensures forall k :: 0 <= k < |fs| ==> IsField(fs[k])
    decreases |s|
  {
    if s == [] then []
    else if IsSpace(s[0]) then Fields(s[1..])
    else
      var n := WordLength(s);
      assert IsField(s[..n]);
      [s[..n]] + Fields(s[n..])
  }

  /** A field followed by white space (or nothing) is a whole word. */
  lemma {:induction false} WordLengthOfField(w: string, t: string)
    requires NoSpace(w) && (t == [] || IsSpace(t[0]))
    ensures WordLength(w + t) == |w|
    decreases |w|
  {
    if w != [] {
      assert (w + t)[1..] == w[1..] + t;
      WordLengthOfField(w[1..], t);
    } else {
      assert w + t == t;
    }
  }

  /** Trailing white space does not change the first word. */
  lemma {:induction false} WordLengthAppendSpace(x: string, sp: string)
    requires AllSpace(sp)
    ensures WordLength(x + sp) == WordLength(x)
    decreases |x|
  {
    if x == [] {
      assert x + sp == sp;
    } else if !IsSpace(x[0]) {
      assert (x + sp)[1..] == x[1..] + sp;
      WordLengthAppendSpace(x[1..], sp);
    }
  }

  /** Leading white space separates nothing. */
  lemma {:induction false} FieldsSkipSpace(sp: string, rest: string)
    requires AllSpace(sp)
    ensures Fields(sp + rest) == Fields(rest)
    decreases |sp|
  {
    if sp == [] {
      assert sp + rest == rest;
    } else {
      assert (sp + rest)[1..] == sp[1..] + rest;
      FieldsSkipSpace(sp[1..], rest);
    }
  }

  /** Trailing white space separates nothing. */
  lemma {:induction false} FieldsTrailingSpace(x: string, sp: string)
    requires AllSpace(sp)
    ensures Fields(x + sp) == Fields(x)
    decreases |x|
  {
    if x == [] {
      assert x + sp == sp + [];
      FieldsSkipSpace(sp, []);
    } else if IsSpace(x[0]) {
      assert (x + sp)[1..] == x[1..] + sp;
      FieldsTrailingSpace(x[1..], sp);
    } else {
      var n := WordLength(x);
      WordLengthAppendSpace(x, sp);
      assert (x + sp)[..n] == x[..n];
      assert (x + sp)[n..] == x[n..] + sp;
      FieldsTrailingSpace(x[n..], sp);
    }
  }

  /** Trimming a string does not change its fields. */
  lemma FieldsOfTrimLeft(s: string)
    ensures Fields(TrimLeft(s)) == Fields(s)
  {
    var n := |s| - |TrimLeft(s)|;
    assert s == s[..n] + s[n..];
    FieldsSkipSpace(s[..n], s[n..]);
  }

  lemma FieldsOfTrimRight(l: string)
    ensures Fields(TrimRight(l)) == Fields(l)
  {
    var t := TrimRight(l);
    var sp := l[|t|..];
    assert t == l[..|t|] && AllSpace(sp);
    assert l == t + sp;
    FieldsTrailingSpace(t, sp);
  }

  lemma FieldsOfTrimSpace(s: string)
    ensures Fields(TrimSpace(s)) == Fields(s)
  {
    var l := TrimLeft(s);
    FieldsOfTrimLeft(s);
    FieldsOfTrimRight(l);
  }

  /** A field, then white space, then the rest: the field comes first. */
  lemma FieldsCons(w: string, sep: string, rest: string)
    requires IsField(w) && sep != [] && AllSpace(sep)
    ensures Fields(w + sep + rest) == [w] + Fields(rest)
  {
    var s := w + sep + rest;
    assert s == w + (sep + rest);
    WordLengthOfField(w, sep + rest);
    assert s[..|w|] == w;
    assert s[|w|..] == sep + rest;
    FieldsSkipSpace(sep, rest);
  }

  /** A single field is its own only field. */
  lemma FieldsOfField(w: string)
    requires IsField(w)
    ensures Fields(w) == [w]
  {
    WordLengthOfField(w, []);
    assert w + [] == w;
    assert w[|w|..] == [];
  }

  /** The UTF-8 encoding of one Unicode scalar value. */
  function Utf8Char(c: char): (r: seq<byte>)
    ensures 1 <= |r| <= 4
    ensures |r| == 1 <==> c as int < 0x80
    ensures |r| == 1 ==> r[0] == c as int
  {
    var v := c as int;
    if v < 0x80 then [v]
    else if v < 0x800 then [0xC0 + v / 64, 0x80 + v % 64]
    else if v < 0x10000 then [0xE0 + v / 4096, 0x80 + (v / 64) % 64, 0x80 + v % 64]
    else [0xF0 + v / 262144, 0x80 + (v / 4096) % 64, 0x80 + (v / 64) % 64, 0x80 + v % 64]
  }

  /** Go's `[]byte(s)`. */
  function Utf8Encode(s: string): seq<byte>
  {
    if s == [] then [] else Utf8Encode(s[..|s| - 1]) + Utf8Char(s[|s| - 1])
  }

  /** Go's `len([]byte(s))`: the number of bytes of the UTF-8 encoding of s. */
  function ByteLen(s: string): nat
  {
    |Utf8Encode(s)|
  }

  predicate IsAscii(s: string) { forall i :: 0 <= i < |s| ==> s[i] as int < 0x80 }

  lemma {:induction false} Utf8EncodeAppend(a: string, b: string)
    ensures Utf8Encode(a + b) == Utf8Encode(a) + Utf8Encode(b)
    decreases |b|
  {
    if b != [] {
      var front, last := b[..|b| - 1], b[|b| - 1];
      assert (a + b)[..|a + b| - 1] == a + front;
      assert (a + b)[|a + b| - 1] == last;
      assert Utf8Encode(a + b) == Utf8Encode(a + front) + Utf8Char(last);
      assert Utf8Encode(b) == Utf8Encode(front) + Utf8Char(last);
      Utf8EncodeAppend(a, front);
      Strings.AppendAssoc(Utf8Encode(a), Utf8Encode(front), Utf8Char(last));
    } else {
      assert a + b == a;
    }
  }

  /** An ASCII string encodes to one byte per character, each equal to its code. */
  lemma {:induction false} AsciiEncoding(s: string)
    requires IsAscii(s)
    ensures |Utf8Encode(s)| == |s|
    ensures forall i :: 0 <= i < |s| ==> Utf8Encode(s)[i] == s[i] as int
  {
    if s != [] {
      AsciiEncoding(s[..|s| - 1]);
    }
  }

  /** Every character takes at least one byte, so a string has at least as many bytes as characters. */
  lemma {:induction false} ByteLenAtLeastLength(s: string)
    ensures ByteLen(s) >= |s|
  {
    if s != [] {
      ByteLenAtLeastLength(s[..|s| - 1]);
    }
  }
}
