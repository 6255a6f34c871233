/**
 * BuildFunctionCode (package functions, embed.go): the deployed code of an
 * edge function is two injected variable declarations followed by the
 * function's JavaScript source. The embedded sources themselves are opaque
 * byte payloads here.
 */
module FunctionsEmbed {
  import opened GoText

  /** Go's `%v` of a bool. */
  function BoolText(b: bool): string
  {
    if b then "true" else "false"
  }

  const KvsIdOpen: string := "var kvsId = '"
  const KvsIdClose: string := "';\n"
  const DebugOpen: string := "var debugHeaders = "
  const DebugClose: string := ";\n"

  /** The first injected line, with the ID inserted verbatim between single quotes. */
  function KvsIdLine(kvsID: string): string
  {
    KvsIdOpen + kvsID + KvsIdClose
  }

  /** The second injected line. */
  function DebugLine(debugHeaders: bool): string
  {
    DebugOpen + BoolText(debugHeaders) + DebugClose
  }

  /** The `fmt.Sprintf` header of BuildFunctionCode. */
  function Header(kvsID: string, debugHeaders: bool): string
  {
    KvsIdLine(kvsID) + DebugLine(debugHeaders)
  }

  /** BuildFunctionCode: the UTF-8 bytes of the header, then the source bytes. */
  function BuildFunctionCode(jsSource: seq<byte>, kvsID: string, debugHeaders: bool): seq<byte>
  {
    Utf8Encode(Header(kvsID, debugHeaders)) + jsSource
  }

  /** The output is the kvsId line, then the debugHeaders line, then the source unchanged. */
  lemma Layout(jsSource: seq<byte>, kvsID: string, debugHeaders: bool)
    ensures BuildFunctionCode(jsSource, kvsID, debugHeaders)
      == Utf8Encode(KvsIdLine(kvsID)) + Utf8Encode(DebugLine(debugHeaders)) + jsSource
  {
    Utf8EncodeAppend(KvsIdLine(kvsID), DebugLine(debugHeaders));
  }

  /** The source is the suffix, and the length is the header's byte length plus the source's. */
  lemma SourceIsSuffix(jsSource: seq<byte>, kvsID: string, debugHeaders: bool)
    ensures var code := BuildFunctionCode(jsSource, kvsID, debugHeaders);
      |code| == ByteLen(Header(kvsID, debugHeaders)) + |jsSource|
      && code[|code| - |jsSource|..] == jsSource
  {
  }

  /** The header depends only on the ID and the flag: two sources get the same prefix. */
  lemma HeaderIndependentOfSource(js1: seq<byte>, js2: seq<byte>, kvsID: string, debugHeaders: bool)
    ensures var n := ByteLen(Header(kvsID, debugHeaders));
      n <= |BuildFunctionCode(js1, kvsID, debugHeaders)| && n <= |BuildFunctionCode(js2, kvsID, debugHeaders)|
      && BuildFunctionCode(js1, kvsID, debugHeaders)[..n] == BuildFunctionCode(js2, kvsID, debugHeaders)[..n]
  {
    var n := ByteLen(Header(kvsID, debugHeaders));
    assert BuildFunctionCode(js1, kvsID, debugHeaders)[..n] == Utf8Encode(Header(kvsID, debugHeaders));
    assert BuildFunctionCode(js2, kvsID, debugHeaders)[..n] == Utf8Encode(Header(kvsID, debugHeaders));
  }

  /**
   * The output is the bytes of "var kvsId = '", then the ID's own bytes with
   * no quoting or escaping, then those of "';" and a newline, then the
   * debugHeaders line, then the source.
   */
  lemma KvsIdVerbatim(jsSource: seq<byte>, kvsID: string, debugHeaders: bool)
    ensures BuildFunctionCode(jsSource, kvsID, debugHeaders)
      == Utf8Encode(KvsIdOpen) + Utf8Encode(kvsID) + Utf8Encode(KvsIdClose)
         + Utf8Encode(DebugLine(debugHeaders)) + jsSource
  {
    EncodeFour(KvsIdOpen, kvsID, KvsIdClose, DebugLine(debugHeaders));
  }

  /** The bytes of four strings one after another are their bytes one after another. */
  lemma EncodeFour(a: string, b: string, c: string, d: string)
    ensures Utf8Encode(a + b + c + d) == Utf8Encode(a) + Utf8Encode(b) + Utf8Encode(c) + Utf8Encode(d)
  {
    Utf8EncodeAppend(a + b + c, d);
    Utf8EncodeAppend(a + b, c);
    Utf8EncodeAppend(a, b);
  }

  /** The debugHeaders line follows the kvsId line and reads "true" or "false" as the flag says. */
  lemma DebugLineFollows(jsSource: seq<byte>, kvsID: string, debugHeaders: bool)
    ensures var code := BuildFunctionCode(jsSource, kvsID, debugHeaders);
      var m := ByteLen(KvsIdLine(kvsID));
      var d := Utf8Encode(DebugLine(debugHeaders));
      |code| >= m + |d| && code[m..m + |d|] == d
  {
    Layout(jsSource, kvsID, debugHeaders);
  }

  /** The flag can be read back from the output: the two settings never give the same code. */
  lemma DebugFlagDistinguishes(jsSource: seq<byte>, kvsID: string)
    ensures BuildFunctionCode(jsSource, kvsID, true) != BuildFunctionCode(jsSource, kvsID, false)
  {
    // "true" is one byte shorter than "false", so the two outputs differ in length.
    HeaderLength(kvsID, true);
    HeaderLength(kvsID, false);
  }

  /** The header's byte length: the kvsId line, the fixed text of the debugHeaders line, and the flag's letters. */
  lemma HeaderLength(kvsID: string, debugHeaders: bool)
    ensures ByteLen(Header(kvsID, debugHeaders))
      == ByteLen(KvsIdLine(kvsID)) + ByteLen(DebugOpen) + |BoolText(debugHeaders)| + ByteLen(DebugClose)
  {
    var flag := BoolText(debugHeaders);
    Utf8EncodeAppend(KvsIdLine(kvsID), DebugLine(debugHeaders));
    Utf8EncodeAppend(DebugOpen + flag, DebugClose);
    Utf8EncodeAppend(DebugOpen, flag);
    BoolTextBytes(debugHeaders);
  }

  /** "true" and "false" are ASCII: one byte per letter. */
  lemma BoolTextBytes(b: bool)
    ensures ByteLen(BoolText(b)) == |BoolText(b)|
  {
    if b {
      assert IsAscii("true") by { assert forall i :: 0 <= i < 4 ==> "true"[i] in "true"; }
      AsciiEncoding("true");
    } else {
      assert IsAscii("false") by { assert forall i :: 0 <= i < 5 ==> "false"[i] in "false"; }
      AsciiEncoding("false");
    }
  }

  /** A source of the same code gives back the source: the header is removed by dropping its bytes. */
  lemma StripHeader(jsSource: seq<byte>, kvsID: string, debugHeaders: bool)
    ensures BuildFunctionCode(jsSource, kvsID, debugHeaders)[ByteLen(Header(kvsID, debugHeaders))..] == jsSource
  {
  }

  /** Different sources give different code under the same ID and flag. */
  lemma SourceInjective(js1: seq<byte>, js2: seq<byte>, kvsID: string, debugHeaders: bool)
    requires BuildFunctionCode(js1, kvsID, debugHeaders) == BuildFunctionCode(js2, kvsID, debugHeaders)
    ensures js1 == js2
  {
    StripHeader(js1, kvsID, debugHeaders);
    StripHeader(js2, kvsID, debugHeaders);
  }
}
