/**
 * The viewer-response edge function: it builds the list of store keys that
 * can carry headers for the request path, from least to most specific, reads
 * "Name: value" lines from every key that holds a value, lets later keys
 * override earlier ones, caps the added size at 4096, and writes the
 * collected headers (and, when enabled, debug headers) into the response.
 */
module ViewerResponse {
  import opened Wrappers
  import opened Strings
  import opened KvsTypes
  import opened JsText
  import opened EdgeStore
  import HugoHeaders

  /** The budget for added headers: name length + value length + 4 per header. */
  const HeaderSizeLimitBytes: nat := 4096

  /** The token of a header value that stands for the request path. */
  const PathToken: string := "{/path}"

  /** Debug values are clipped to this many characters. */
  const DebugValueLimit: nat := 200

  // ---------------------------------------------------------------------
  // Patterns
  // ---------------------------------------------------------------------

  /** The path the function looks up: the URI with a leading '/' if it has none. */
  function NormalizePath(uri: string): string
  {
    if |uri| > 0 && uri[0] == '/' then uri else "/" + uri
  }

  /** `parts.filter(function(p) { return p; })`: the non-empty parts, in order. */
  function NonEmpty(parts: seq<string>): seq<string>
  {
    if parts == [] then []
    else NonEmpty(parts[..|parts| - 1]) + (if parts[|parts| - 1] != "" then [parts[|parts| - 1]] else [])
  }

  /** The segments of a path: its '/'-separated pieces, empty pieces (from repeated slashes) dropped. */
  function Segments(path: string): seq<string>
  {
    NonEmpty(Split(path, '/'))
  }

  /** A segment of a path is a non-empty string without '/'. */
  predicate IsSegment(s: string)
  {
    s != "" && '/' !in s
  }

  function ParentCount(parts: seq<string>): nat
  {
    if |parts| == 0 then 0 else |parts| - 1
  }

  /** The pattern of the directory made of the first i + 1 segments. */
  function ParentPattern(parts: seq<string>, i: nat): string
    requires i < |parts|
  {
    "/" + Join(parts[..i + 1], "/") + "/"
  }

  /** The pattern of every proper parent directory, shortest first. */
  function ParentPatterns(parts: seq<string>): seq<string>
  {
    seq(ParentCount(parts), i requires 0 <= i < ParentCount(parts) => ParentPattern(parts, i))
  }

  function LastSegment(parts: seq<string>): string
  {
    if |parts| == 0 then "" else parts[|parts| - 1]
  }

  /** The extension wildcard: "*.ext" when the segment has a dot that is not its last character. */
  function ExtensionPattern(segment: string): seq<string>
  {
    var dot := LastIndexOf(segment, '.');
    if dot != -1 && dot < |segment| - 1 then ["*." + segment[dot + 1..]] else []
  }

  /** The lookup patterns, least specific first: the root, the parents, the extension, the path itself. */
  function PatternList(path: string): seq<string>
  {
    var parts := Segments(path);
    ["/"] + ParentPatterns(parts) + ExtensionPattern(LastSegment(parts)) + (if path != "/" then [path] else [])
  }

  /** Building the pattern list, one push at a time. */
  method BuildPatterns(path: string) returns (patterns: seq<string>)
    ensures patterns == PatternList(path)
  {
    patterns := ["/"];
    var parts := Segments(path);
    patterns := PushParents(patterns, parts);
    var lastSegment := if |parts| > 0 then parts[|parts| - 1] else "";
    assert lastSegment == LastSegment(parts);
    patterns := PushExtension(patterns, lastSegment);
    if path != "/" {
      patterns := patterns + [path];
    } else {
      AppendNothing(patterns);
    }
  }

  /** The extension wildcard of the last segment, pushed when it has one. */
  method PushExtension(patterns0: seq<string>, lastSegment: string) returns (patterns: seq<string>)
    ensures patterns == patterns0 + ExtensionPattern(lastSegment)
  {
    patterns := patterns0;
    var lastDotIndex := LastIndexOf(lastSegment, '.');
    if lastDotIndex != -1 && lastDotIndex < |lastSegment| - 1 {
      patterns := patterns + ["*." + lastSegment[lastDotIndex + 1..]];
    } else {
      AppendNothing(patterns);
    }
  }

  lemma AppendNothing(s: seq<string>)
    ensures s + [] == s
  {
  }

  /** The loop over the parent directories: one pattern pushed for each, shortest first. */
  method PushParents(patterns0: seq<string>, parts: seq<string>) returns (patterns: seq<string>)
    ensures patterns == patterns0 + ParentPatterns(parts)
  {
    patterns := patterns0;
    var i := 0;
    while i < |parts| - 1
      invariant 0 <= i <= ParentCount(parts)
      invariant patterns == patterns0 + ParentPatterns(parts)[..i]
    {
      ParentPatternsSnoc(patterns0, parts, i);
      patterns := patterns + ["/" + Join(parts[..i + 1], "/") + "/"];
      i := i + 1;
    }
    assert ParentPatterns(parts)[..i] == ParentPatterns(parts);
  }

  lemma ParentPatternsSnoc(patterns0: seq<string>, parts: seq<string>, i: nat)
    requires i < ParentCount(parts)
    ensures patterns0 + ParentPatterns(parts)[..i + 1] == patterns0 + ParentPatterns(parts)[..i] + [ParentPattern(parts, i)]
  {
    assert ParentPatterns(parts)[..i + 1] == ParentPatterns(parts)[..i] + [ParentPattern(parts, i)];
  }

  // ---------------------------------------------------------------------
  // Header lines
  // ---------------------------------------------------------------------

  /**
   * One line of a stored value: trimmed, split at its first ':', the name
   * trimmed and lowercased, the value trimmed with its first "{/path}"
   * replaced by the path; a line without ':' or with an empty name gives
   * nothing.
   */
  function ParseLine(raw: string, path: string): Option<Entry>
  {
    ParseTrimmed(Trim(raw), path)
  }

  /** ParseLine after the line itself is trimmed. */
  function ParseTrimmed(line: string, path: string): Option<Entry>
  {
    var idx := IndexOf(line, ':');
    if idx == -1 then None
    else
      var name := AsciiLower(Trim(line[..idx]));
      var val := ReplaceFirst(Trim(line[idx + 1..]), PathToken, path);
      if name == "" then None else Some(Entry(name, val))
  }

  /** What each line of a value parses to. */
  function ParsedLines(lines: seq<string>, path: string): seq<Option<Entry>>
  {
    seq(|lines|, i requires 0 <= i < |lines| => ParseLine(lines[i], path))
  }

  /** The headers among parsed lines, in line order. */
  function Somes(ps: seq<Option<Entry>>): seq<Entry>
  {
    if ps == [] then []
    else (if ps[0].Some? then [ps[0].value] else []) + Somes(ps[1..])
  }

  /** The headers the lines of one value give, in line order. */
  function LineEntries(lines: seq<string>, path: string): seq<Entry>
  {
    Somes(ParsedLines(lines, path))
  }

  /** What a header costs against the budget, in UTF-16 code units. */
  function EntrySize(e: Entry): nat
  {
    Utf16Length(e.key) + Utf16Length(e.value) + 4
  }

  // ---------------------------------------------------------------------
  // Collecting
  // ---------------------------------------------------------------------

  /** The collected headers, the added size, and whether a header did not fit. */
  datatype Acc = Acc(headers: map<string, string>, total: nat, truncated: bool)

  /** The collection state, with the indices of the patterns whose lookup hit. */
  datatype Collected = Collected(acc: Acc, matched: seq<nat>)

  /** Accepting headers in order; the first that does not fit sets truncated and ends the collection. */
  /** The accumulator once one header is set and its size counted. */
  function Accept(acc: Acc, e: Entry): Acc
  {
    Acc(acc.headers[e.key := e.value], acc.total + EntrySize(e), acc.truncated)
  }

  function AddEntries(acc: Acc, es: seq<Entry>): Acc
    decreases |es|
  {
    if es == [] then acc
    else
      var size := EntrySize(es[0]);
      if acc.total + size > HeaderSizeLimitBytes then acc.(truncated := true)
      else AddEntries(Accept(acc, es[0]), es[1..])
  }

  /** The collection from pattern i on: a hit is recorded and its lines are added; a miss or an empty value is skipped. */
  function CollectFrom(c: Collected, patterns: seq<string>, i: nat, entries: map<string, string>, path: string): Collected
    requires i <= |patterns|
    decreases |patterns| - i
  {
    if i == |patterns| then c
    else
      var v := Lookup(entries, patterns[i]);
      if IsHit(v) then
        var acc := AddEntries(c.acc, LineEntries(Split(v.value, '\n'), path));
        var c' := Collected(acc, c.matched + [i]);
        if acc.truncated then c' else CollectFrom(c', patterns, i + 1, entries, path)
      else CollectFrom(c, patterns, i + 1, entries, path)
  }

  const Start: Collected := Collected(Acc(map[], 0, false), [])

  function Collect(patterns: seq<string>, entries: map<string, string>, path: string): Collected
  {
    CollectFrom(Start, patterns, 0, entries, path)
  }

  /** Parsing every line of a value. */
  method ParseLines(lines: seq<string>, path: string) returns (ps: seq<Option<Entry>>)
    ensures ps == ParsedLines(lines, path)
  {
    ps := [];
    ghost var want := ParsedLines(lines, path);
    var j := 0;
    while j < |lines|
      invariant 0 <= j <= |lines| && ps == want[..j]
    {
      var parsed := ParseHeaderLine(lines[j], path);
      PrefixSnoc(want, j);
      ps := ps + [parsed];
      j := j + 1;
    }
    assert want[..j] == want;
  }

  /** The inner loop of the handler over the parsed lines of one value, accepting headers while they fit. */
  method AddParsed(ps: seq<Option<Entry>>, headers0: map<string, string>, total0: nat)
    returns (headers: map<string, string>, totalAddedBytes: nat, truncated: bool)
    ensures Acc(headers, totalAddedBytes, truncated) == AddEntries(Acc(headers0, total0, false), Somes(ps))
  {
    headers, totalAddedBytes, truncated := headers0, total0, false;
    var j := 0;
    ghost var goal := AddEntries(Acc(headers0, total0, false), Somes(ps));
    assert ps[j..] == ps;
    while j < |ps|
      invariant 0 <= j <= |ps|
      invariant AddEntries(Acc(headers, totalAddedBytes, false), Somes(ps[j..])) == goal
    {
      ghost var acc := Acc(headers, totalAddedBytes, false);
      AddLineStep(acc, ps, j);
      var parsed := ps[j];
      if parsed.Some? {
        var name, val := parsed.value.key, parsed.value.value;
        var headerSize := Utf16Length(name) + Utf16Length(val) + 4;
        assert headerSize == EntrySize(parsed.value);
        if totalAddedBytes + headerSize > HeaderSizeLimitBytes {
          truncated := true;
          assert Acc(headers, totalAddedBytes, truncated) == acc.(truncated := true);
          return;
        }
        headers := headers[name := val];
        totalAddedBytes := totalAddedBytes + headerSize;
        assert Acc(headers, totalAddedBytes, false) == Accept(acc, parsed.value);
      }
      j := j + 1;
    }
    assert ps[j..] == [];
  }

  /** The lines of one stored value, parsed and then accepted while they fit. */
  method AddValue(value: string, path: string, headers0: map<string, string>, total0: nat)
    returns (headers: map<string, string>, totalAddedBytes: nat, truncated: bool)
    ensures Acc(headers, totalAddedBytes, truncated) == AddEntries(Acc(headers0, total0, false), LineEntries(Split(value, '\n'), path))
  {
    var parsed := ParseLines(Split(value, '\n'), path);
    headers, totalAddedBytes, truncated := AddParsed(parsed, headers0, total0);
  }

  /** The parsing steps of one line, as the handler writes them. */
  method ParseHeaderLine(raw: string, path: string) returns (r: Option<Entry>)
    ensures r == ParseLine(raw, path)
  {
    var line := Trim(raw);
    var idx := IndexOf(line, ':');
    if idx == -1 {
      return None;
    }
    var name := AsciiLower(Trim(line[..idx]));
    var val := Trim(line[idx + 1..]);
    val := ReplaceFirst(val, PathToken, path);
    if name == "" {
      return None;
    }
    return Some(Entry(name, val));
  }

  /** One line of the inner loop: skipped, accepted, or the one that does not fit. */
  lemma AddLineStep(acc: Acc, ps: seq<Option<Entry>>, j: nat)
    requires j < |ps| && !acc.truncated
    ensures ps[j].None? ==> AddEntries(acc, Somes(ps[j..])) == AddEntries(acc, Somes(ps[j + 1..]))
    ensures ps[j].Some? && acc.total + EntrySize(ps[j].value) > HeaderSizeLimitBytes ==>
              AddEntries(acc, Somes(ps[j..])) == acc.(truncated := true)
    ensures ps[j].Some? && acc.total + EntrySize(ps[j].value) <= HeaderSizeLimitBytes ==>
              AddEntries(acc, Somes(ps[j..]))
                == AddEntries(Accept(acc, ps[j].value), Somes(ps[j + 1..]))
  {
    var next := Somes(ps[j + 1..]);
    SomesStep(ps, j);
    if ps[j].Some? {
      var e := ps[j].value;
      assert Somes(ps[j..]) == [e] + next;
      AddEntriesCons(acc, e, next);
    } else {
      assert Somes(ps[j..]) == next;
    }
  }

  lemma SomesStep(ps: seq<Option<Entry>>, j: nat)
    requires j < |ps|
    ensures Somes(ps[j..]) == (if ps[j].Some? then [ps[j].value] + Somes(ps[j + 1..]) else Somes(ps[j + 1..]))
  {
    assert ps[j..][1..] == ps[j + 1..];
    assert [] + Somes(ps[j + 1..]) == Somes(ps[j + 1..]);
  }

  lemma AddEntriesCons(acc: Acc, e: Entry, rest: seq<Entry>)
    requires !acc.truncated
    ensures AddEntries(acc, [e] + rest)
      == if acc.total + EntrySize(e) > HeaderSizeLimitBytes then acc.(truncated := true)
         else AddEntries(Accept(acc, e), rest)
  {
    assert ([e] + rest)[1..] == rest;
  }

  /** The lookup loop of the handler: every pattern in order until the budget is exceeded. */
  method CollectHeaders(patterns: seq<string>, kvs: KeyValueStore, path: string) returns (c: Collected)
    modifies kvs
    ensures c.acc.truncated ==> |c.matched| >= 1 && c.matched[|c.matched| - 1] < |patterns|
    ensures kvs.lookups == old(kvs.lookups) + patterns[..(if c.acc.truncated then c.matched[|c.matched| - 1] + 1 else |patterns|)]
    ensures c == Collect(patterns, kvs.entries, path)
  {
    c := Collected(Acc(map[], 0, false), []);
    ghost var start := kvs.lookups;
    var i := 0;
    while i < |patterns|
      invariant 0 <= i <= |patterns|
      invariant kvs.lookups == start + patterns[..i]
      invariant !c.acc.truncated
      invariant CollectFrom(c, patterns, i, kvs.entries, path) == Collect(patterns, kvs.entries, path)
    {
      var next, stop := VisitPattern(patterns, kvs, path, i, c);
      assert patterns[..i + 1] == patterns[..i] + [patterns[i]];
      if stop {
        return next;
      }
      c := next;
      i := i + 1;
    }
  }

  /** One turn of the lookup loop: look pattern i up and, on a hit, record it and add its lines. */
  method VisitPattern(patterns: seq<string>, kvs: KeyValueStore, path: string, i: nat, cur: Collected)
    returns (next: Collected, stop: bool)
    requires i < |patterns| && !cur.acc.truncated
    modifies kvs
    ensures kvs.lookups == old(kvs.lookups) + [patterns[i]]
    ensures next.acc.truncated == stop
    ensures stop ==> next.matched == cur.matched + [i] && CollectFrom(cur, patterns, i, kvs.entries, path) == next
    ensures !stop ==> CollectFrom(cur, patterns, i, kvs.entries, path) == CollectFrom(next, patterns, i + 1, kvs.entries, path)
  {
    var value := kvs.Get(patterns[i]);
    if value.Some? && value.value != "" {
      var headers, totalAddedBytes, truncated := AddValue(value.value, path, cur.acc.headers, cur.acc.total);
      next := Collected(Acc(headers, totalAddedBytes, truncated), cur.matched + [i]);
      stop := truncated;
      CollectHit(cur, patterns, i, kvs.entries, path, next.acc);
    } else {
      next, stop := cur, false;
      CollectMiss(cur, patterns, i, kvs.entries, path);
    }
  }

  /** A pattern with no usable value is skipped. */
  lemma CollectMiss(c: Collected, patterns: seq<string>, i: nat, entries: map<string, string>, path: string)
    requires i < |patterns| && !IsHit(Lookup(entries, patterns[i]))
    ensures CollectFrom(c, patterns, i, entries, path) == CollectFrom(c, patterns, i + 1, entries, path)
  {
  }

  /** A hit records its index and adds its headers; collection stops there once the budget is exceeded. */
  lemma CollectHit(c: Collected, patterns: seq<string>, i: nat, entries: map<string, string>, path: string, acc: Acc)
    requires i < |patterns| && IsHit(Lookup(entries, patterns[i]))
    requires acc == AddEntries(c.acc, LineEntries(Split(Lookup(entries, patterns[i]).value, '\n'), path))
    ensures acc.truncated ==> CollectFrom(c, patterns, i, entries, path) == Collected(acc, c.matched + [i])
    ensures !acc.truncated ==>
      CollectFrom(c, patterns, i, entries, path) == CollectFrom(Collected(acc, c.matched + [i]), patterns, i + 1, entries, path)
  {
  }

  // ---------------------------------------------------------------------
  // The response
  // ---------------------------------------------------------------------

  /** The viewer response; its header map may be absent. */
  class Response {
    var headers: Option<map<string, string>>

    constructor (headers0: Option<map<string, string>>)
      ensures headers == headers0
    {
      headers := headers0;
    }
  }

  /** The matched pattern indices as `String` gives them. */
  function Decimals(ms: seq<nat>): seq<string>
  {
    seq(|ms|, i requires 0 <= i < |ms| => NatToString(ms[i]))
  }

  const DebugNames: set<string> :=
    {"x-hedgerules-patterns", "x-hedgerules-matched", "x-hedgerules-size", "x-hedgerules-truncated"}

  /** The debug headers: the patterns, the matched indices, the added size, and the truncation flag if set. */
  function WithDebug(h: map<string, string>, patterns: seq<string>, c: Collected): map<string, string>
  {
    var h1 := h["x-hedgerules-patterns" := Prefix(Join(patterns, ","), DebugValueLimit)]
      ["x-hedgerules-matched" := Prefix(Join(Decimals(c.matched), ","), DebugValueLimit)]
      ["x-hedgerules-size" := NatToString(c.acc.total)];
    if c.acc.truncated then h1["x-hedgerules-truncated" := "true"] else h1
  }

  /** The response headers the handler leaves: the old ones overwritten by the collected ones, then the debug ones if enabled. */
  function FinalHeaders(base: map<string, string>, patterns: seq<string>, c: Collected, debugHeaders: bool): map<string, string>
  {
    var h := base + c.acc.headers;
    if debugHeaders then WithDebug(h, patterns, c) else h
  }

  /** The part of m whose keys are in ks. */
  function Restrict(m: map<string, string>, ks: set<string>): map<string, string>
  {
    map k | k in m && k in ks :: m[k]
  }

  /** Copying the collected headers into the response's headers, one name at a time. */
  method ApplyHeaders(base: map<string, string>, headers: map<string, string>) returns (out: map<string, string>)
    ensures out == base + headers
  {
    out := base;
    var rest := headers.Keys;
    while rest != {}
      invariant rest <= headers.Keys
      invariant out == base + Restrict(headers, headers.Keys - rest)
      decreases rest
    {
      var name :| name in rest;
      assert Restrict(headers, headers.Keys - (rest - {name})) == Restrict(headers, headers.Keys - rest)[name := headers[name]];
      out := out[name := headers[name]];
      rest := rest - {name};
    }
    assert Restrict(headers, headers.Keys - {}) == headers;
  }

  /** handler: normalise the path, build the patterns, collect, and write into the response. */
  method Handler(requestUri: string, response: Response, kvs: KeyValueStore, debugHeaders: bool)
    modifies response, kvs
    ensures var path := NormalizePath(requestUri);
            var patterns := PatternList(path);
            response.headers == Some(FinalHeaders(old(response.headers).GetOr(map[]), patterns, Collect(patterns, kvs.entries, path), debugHeaders))
    ensures var patterns := PatternList(NormalizePath(requestUri));
            exists n :: 0 <= n <= |patterns| && kvs.lookups == old(kvs.lookups) + patterns[..n]
  {
    var base := response.headers.GetOr(map[]);
    var path := requestUri;
    if |path| == 0 || path[0] != '/' {
      path := "/" + path;
    }
    var patterns := BuildPatterns(path);
    var c := CollectHeaders(patterns, kvs, path);
    var out := ApplyHeaders(base, c.acc.headers);
    if debugHeaders {
      out := out["x-hedgerules-patterns" := Prefix(Join(patterns, ","), DebugValueLimit)];
      out := out["x-hedgerules-matched" := Prefix(Join(Decimals(c.matched), ","), DebugValueLimit)];
      out := out["x-hedgerules-size" := NatToString(c.acc.total)];
      if c.acc.truncated {
        out := out["x-hedgerules-truncated" := "true"];
      }
    }
    response.headers := Some(out);
  }

  // ---------------------------------------------------------------------
  // Properties of the patterns
  // ---------------------------------------------------------------------

  /** The looked-up path is absolute, ends with the URI, and normalising it again changes nothing. */
  lemma NormalizePathSpec(uri: string)
    ensures var p := NormalizePath(uri);
      && |p| >= 1 && p[0] == '/'
      && EndsWith(p, uri)
      && NormalizePath(p) == p
    ensures |uri| >= 1 && uri[0] == '/' ==> NormalizePath(uri) == uri
  {
    var p := NormalizePath(uri);
    assert p[|p| - |uri|..] == uri;
  }

  /** The kept parts are non-empty parts of the input. */
  lemma {:induction false} NonEmptyShape(parts: seq<string>)
    ensures forall k :: 0 <= k < |NonEmpty(parts)| ==> NonEmpty(parts)[k] != "" && NonEmpty(parts)[k] in parts
  {
    if parts != [] {
      var init := parts[..|parts| - 1];
      NonEmptyShape(init);
      assert forall x :: x in init ==> x in parts;
    }
  }

  lemma {:induction false} NonEmptyAppend(a: seq<string>, b: seq<string>)
    ensures NonEmpty(a + b) == NonEmpty(a) + NonEmpty(b)
    decreases |b|
  {
    if b == [] {
      assert a + b == a;
    } else {
      var b', last := b[..|b| - 1], b[|b| - 1];
      assert (a + b)[..|a + b| - 1] == a + b';
      assert (a + b)[|a + b| - 1] == last;
      var tail := if last != "" then [last] else [];
      assert NonEmpty(a + b) == NonEmpty(a + b') + tail;
      NonEmptyAppend(a, b');
      AppendAssoc(NonEmpty(a), NonEmpty(b'), tail);
    }
  }

  lemma {:induction false} NonEmptyKeepsAll(parts: seq<string>)
    requires forall k :: 0 <= k < |parts| ==> parts[k] != ""
    ensures NonEmpty(parts) == parts
  {
    if parts != [] {
      var init := parts[..|parts| - 1];
      assert forall k :: 0 <= k < |init| ==> init[k] == parts[k];
      NonEmptyKeepsAll(init);
      assert parts == init + [parts[|parts| - 1]];
    }
  }

  /** Every segment of a path is non-empty and free of '/'. */
  lemma SegmentsAreSegments(path: string)
    ensures forall k :: 0 <= k < |Segments(path)| ==> IsSegment(Segments(path)[k])
  {
    NonEmptyShape(Split(path, '/'));
  }

  lemma {:induction false} JoinSnoc(parts: seq<string>, x: string, sep: string)
    requires |parts| >= 1
    ensures Join(parts + [x], sep) == Join(parts, sep) + sep + x
  {
    if |parts| > 1 {
      assert (parts + [x])[1..] == parts[1..] + [x];
      JoinSnoc(parts[1..], x, sep);
    }
  }

  /**
   * A parent pattern is "/", the first i + 1 segments joined by '/', then
   * "/": splitting it at '/' gives those segments between two empty pieces,
   * so its own segments are exactly the first i + 1 segments.
   */
  lemma ParentPatternSegments(parts: seq<string>, i: nat)
    requires i < |parts|
    requires forall k :: 0 <= k < |parts| ==> IsSegment(parts[k])
    ensures Split(ParentPattern(parts, i), '/') == [""] + parts[..i + 1] + [""]
    ensures Segments(ParentPattern(parts, i)) == parts[..i + 1]
    ensures StartsWith(ParentPattern(parts, i), "/") && EndsWith(ParentPattern(parts, i), "/")
  {
    var ps := parts[..i + 1];
    assert ParentPattern(parts, i) == ['/'] + Join(ps, ['/']) + ['/'];
    WrappedSplit(ps, '/');
  }

  /** Non-empty parts free of c, joined by c and with a c before and after, split back into the parts between two empty pieces. */
  lemma WrappedSplit(ps: seq<string>, c: char)
    requires |ps| >= 1
    requires forall k :: 0 <= k < |ps| ==> ps[k] != "" && c !in ps[k]
    ensures var s := [c] + Join(ps, [c]) + [c];
      && Split(s, c) == [""] + ps + [""]
      && NonEmpty(Split(s, c)) == ps
      && StartsWith(s, [c]) && EndsWith(s, [c])
  {
    var w := [""] + ps + [""];
    var s := [c] + Join(ps, [c]) + [c];
    WrappedJoin(ps, [c]);
    forall k | 0 <= k < |w|
      ensures c !in w[k]
    {
      if 0 < k < |w| - 1 {
        assert w[k] == ps[k - 1];
      }
    }
    SplitJoin(w, c);
    WrappedNonEmpty(ps);
    assert s[..1] == [c];
    assert s[|s| - 1..] == [c];
  }

  /** Joining the parts between two empty pieces puts a separator before and after them. */
  lemma WrappedJoin(ps: seq<string>, sep: string)
    requires |ps| >= 1
    ensures Join([""] + ps + [""], sep) == sep + Join(ps, sep) + sep
  {
    var w := [""] + ps + [""];
    assert w[0] == "" && w[1..] == ps + [""];
    JoinSnoc(ps, "", sep);
    assert Join(w, sep) == "" + sep + (Join(ps, sep) + sep + "");
  }

  /** The two empty pieces around non-empty parts are the only ones dropped. */
  lemma WrappedNonEmpty(ps: seq<string>)
    requires forall k :: 0 <= k < |ps| ==> ps[k] != ""
    ensures NonEmpty([""] + ps + [""]) == ps
  {
    NonEmptyAppend([""] + ps, [""]);
    NonEmptyAppend([""], ps);
    NonEmptyKeepsAll(ps);
    assert NonEmpty([""]) == [] && NonEmpty([""] + ps) == ps;
  }

  /**
   * The patterns run from least to most specific: the root first, then each
   * proper parent directory of the path in order of depth, then the
   * extension wildcard if any, and the path itself last unless it is the root.
   */
  lemma PatternListShape(path: string)
    ensures var ps := PatternList(path);
      && |ps| >= 1 && ps[0] == "/"
      && (path != "/" ==> ps[|ps| - 1] == path)
  {
    var parts := Segments(path);
    PartsOfFour(["/"], ParentPatterns(parts), ExtensionPattern(LastSegment(parts)),
                if path != "/" then [path] else []);
  }

  /** The patterns after the root are the proper parents, shortest first, each with the segments of its depth. */
  lemma PatternListParents(path: string)
    ensures var parts := Segments(path);
      forall i :: 0 <= i < ParentCount(parts) ==>
        && PatternList(path)[1 + i] == ParentPattern(parts, i)
        && Segments(PatternList(path)[1 + i]) == parts[..i + 1]
        && i + 1 < |parts|
  {
    forall i | 0 <= i < ParentCount(Segments(path))
      ensures PatternList(path)[1 + i] == ParentPattern(Segments(path), i)
      ensures Segments(PatternList(path)[1 + i]) == Segments(path)[..i + 1]
    {
      ParentAt(path, i);
    }
  }

  lemma ParentAt(path: string, i: nat)
    requires i < ParentCount(Segments(path))
    ensures 1 + i < |PatternList(path)| && PatternList(path)[1 + i] == ParentPattern(Segments(path), i)
    ensures Segments(PatternList(path)[1 + i]) == Segments(path)[..i + 1]
  {
    var parts := Segments(path);
    var pp := ParentPatterns(parts);
    assert 1 + i < |PatternList(path)| && PatternList(path)[1 + i] == ParentPattern(parts, i) by {
      PartsOfFour(["/"], pp, ExtensionPattern(LastSegment(parts)), if path != "/" then [path] else []);
      assert PatternList(path)[1 + i] == pp[i];
    }
    assert Segments(ParentPattern(parts, i)) == parts[..i + 1] by {
      SegmentsAreSegments(path);
      ParentPatternSegments(parts, i);
    }
  }

  lemma PartsOfFour(a: seq<string>, b: seq<string>, c: seq<string>, d: seq<string>)
    ensures |a + b + c + d| == |a| + |b| + |c| + |d|
    ensures forall i :: 0 <= i < |b| ==> (a + b + c + d)[|a| + i] == b[i]
    ensures |a| > 0 ==> (a + b + c + d)[0] == a[0]
    ensures |d| > 0 ==> (a + b + c + d)[|a + b + c + d| - 1] == d[|d| - 1]
  {
  }

  /** The root has no segments, so its only pattern is "/". */
  lemma RootPatterns()
    ensures PatternList("/") == ["/"]
  {
    assert IndexOf("/", '/') == 0;
    assert "/"[1..] == "";
    assert Split("", '/') == [""];
    assert Split("/", '/') == ["", ""];
    assert NonEmpty(["", ""]) == [];
  }

  /** There is an extension wildcard exactly when the last segment has a dot that is not its last character. */
  lemma ExtensionPatternSpec(segment: string)
    ensures ExtensionPattern(segment) != [] <==> '.' in segment && segment[|segment| - 1] != '.'
    ensures ExtensionPattern(segment) != [] ==>
      exists ext ::
        && ExtensionPattern(segment) == ["*." + ext]
        && ext != "" && '.' !in ext
        && EndsWith(segment, "." + ext)
  {
    var dot := LastIndexOf(segment, '.');
    if dot != -1 && dot < |segment| - 1 {
      var ext := segment[dot + 1..];
      TailAfter(segment, dot, '.');
      assert ExtensionPattern(segment) == ["*." + ext];
    } else {
      assert ExtensionPattern(segment) == [];
      assert '.' in segment ==> dot == |segment| - 1;
    }
  }

  /** What follows the last c of s, when c is not the last character, is a non-empty tail without c. */
  lemma TailAfter(s: string, i: nat, c: char)
    requires i < |s| - 1 && s[i] == c && c !in s[i + 1..]
    ensures var t := s[i + 1..];
      && t != "" && c !in t && s[|s| - 1] != c
      && EndsWith(s, [c] + t)
  {
    var t := s[i + 1..];
    assert s[|s| - 1] == t[|t| - 1];
    assert s[|s| - |[c] + t|..] == [c] + t;
  }

  // ---------------------------------------------------------------------
  // Properties of line parsing
  // ---------------------------------------------------------------------

  /** A line without ':' gives no header. */
  lemma ParseLineNoColon(raw: string, path: string)
    requires ':' !in raw
    ensures ParseLine(raw, path) == None
  {
    TrimKeepsOut(raw, ':');
  }

  /** A parsed header name is non-empty, has no ':' and no upper-case ASCII letter. */
  lemma ParseLineName(raw: string, path: string)
    ensures var r := ParseLine(raw, path);
      r.Some? ==>
        && r.value.key != ""
        && ':' !in r.value.key
        && forall k :: 0 <= k < |r.value.key| ==> !('A' <= r.value.key[k] <= 'Z')
  {
    var line := Trim(raw);
    var idx := IndexOf(line, ':');
    if idx != -1 {
      LoweredNameShape(line[..idx]);
    }
  }

  /** Trimming and lower-casing text before the first ':' leaves no ':' and no upper-case ASCII letter. */
  lemma LoweredNameShape(before: string)
    requires ':' !in before
    ensures var name := AsciiLower(Trim(before));
      && ':' !in name
      && forall k :: 0 <= k < |name| ==> !('A' <= name[k] <= 'Z')
  {
    TrimKeepsOut(before, ':');
    var t := Trim(before);
    var name := AsciiLower(t);
    assert forall k :: 0 <= k < |name| ==> name[k] == LowerChar(t[k]);
  }

  /** Trimming only removes characters. */
  lemma TrimKeepsOut(s: string, c: char)
    requires c !in s
    ensures c !in Trim(s)
  {
    TrimStartShape(s);
    var l := TrimStart(s);
    TrimEndShape(l);
    assert forall k :: 0 <= k < |l| ==> l[k] == s[|s| - |l| + k];
  }

  /**
   * The lines the build writes are the lines the edge reads: a header line
   * of a trimmed name without ':' and a trimmed value parses to the
   * lower-cased name and the value with "{/path}" replaced by the path.
   */
  lemma HeaderLineRoundTrip(name: string, value: string, path: string)
    requires name != "" && ':' !in name
    requires !IsJsSpace(name[0]) && !IsJsSpace(name[|name| - 1])
    requires value == "" || (!IsJsSpace(value[0]) && !IsJsSpace(value[|value| - 1]))
    ensures ParseLine(HugoHeaders.HeaderLine(name, value), path)
      == Some(Entry(AsciiLower(name), ReplaceFirst(value, PathToken, path)))
  {
    var rest := if value == "" then "" else " " + value;
    TrimmedHeaderLine(name, value);
    TrimTrimmed(name);
    ParseAtColon(name, rest, path);
    TrimmedRest(value);
  }

  lemma ParseAtColon(name: string, rest: string, path: string)
    requires name != "" && ':' !in name && Trim(name) == name
    ensures ParseTrimmed(name + ":" + rest, path) == Some(Entry(AsciiLower(name), ReplaceFirst(Trim(rest), PathToken, path)))
  {
    var line := name + ":" + rest;
    ColonAfterName(name, rest);
    assert line[..|name|] == name;
    assert line[|name| + 1..] == rest;
  }

  lemma TrimmedHeaderLine(name: string, value: string)
    requires name != "" && !IsJsSpace(name[0])
    requires value == "" || (!IsJsSpace(value[0]) && !IsJsSpace(value[|value| - 1]))
    ensures Trim(HugoHeaders.HeaderLine(name, value)) == name + ":" + (if value == "" then "" else " " + value)
  {
    var raw := HugoHeaders.HeaderLine(name, value);
    assert raw == name + ": " + value;
    if value == "" {
      var line := name + ":";
      assert raw == line + " ";
      assert TrimStart(raw) == raw;
      assert raw[..|raw| - 1] == line;
      assert TrimEnd(raw) == TrimEnd(line);
      assert TrimEnd(line) == line;
    } else {
      assert raw == name + ":" + (" " + value);
      TrimTrimmed(raw);
    }
  }

  lemma ColonAfterName(name: string, rest: string)
    requires ':' !in name
    ensures IndexOf(name + ":" + rest, ':') == |name|
  {
    var line := name + ":" + rest;
    assert line[|name|] == ':';
  }

  lemma TrimmedRest(value: string)
    requires value == "" || (!IsJsSpace(value[0]) && !IsJsSpace(value[|value| - 1]))
    ensures Trim(if value == "" then "" else " " + value) == value
  {
    if value != "" {
      var rest := " " + value;
      assert rest[1..] == value;
      assert TrimStart(rest) == TrimStart(value);
      TrimTrimmed(value);
    }
  }

  // ---------------------------------------------------------------------
  // Properties of the collection
  // ---------------------------------------------------------------------

  /** The budget the entries take together. */
  function SizeSum(es: seq<Entry>): nat
  {
    if es == [] then 0 else EntrySize(es[0]) + SizeSum(es[1..])
  }

  /** How many entries, from the front, fit in the budget together. */
  function FitCount(es: seq<Entry>, budget: int): (k: nat)
    ensures k <= |es|
  {
    if es == [] || EntrySize(es[0]) > budget then 0
    else 1 + FitCount(es[1..], budget - EntrySize(es[0]))
  }

  lemma SizeSumCons(es: seq<Entry>, k: nat)
    requires 1 <= k <= |es|
    ensures SizeSum(es[..k]) == EntrySize(es[0]) + SizeSum(es[1..][..k - 1])
  {
    assert es[..k][1..] == es[1..][..k - 1];
  }

  /** FitCount is the longest prefix within the budget: it fits, and one more entry would not. */
  lemma {:induction false} FitCountSpec(es: seq<Entry>, budget: int)
    requires budget >= 0
    ensures var k := FitCount(es, budget);
      && SizeSum(es[..k]) <= budget
      && (k < |es| ==> SizeSum(es[..k + 1]) > budget)
  {
    if es != [] {
      var size := EntrySize(es[0]);
      if size > budget {
        SizeSumCons(es, 1);
      } else {
        var k' := FitCount(es[1..], budget - size);
        FitCountSpec(es[1..], budget - size);
        SizeSumCons(es, k' + 1);
        if k' + 1 < |es| {
          SizeSumCons(es, k' + 2);
        }
      }
    }
  }

  lemma ToMapCons(e: Entry, rest: seq<Entry>)
    ensures ToMap([e] + rest) == map[e.key := e.value] + ToMap(rest)
  {
    ToMapAppend([e], rest);
    assert [e][..0] == [];
  }

  /**
   * Adding entries under the budget: the longest prefix that fits is
   * written into the map in order, its sizes are added, and the collection
   * is truncated exactly when some entry is left over.
   */
  lemma {:induction false} AddEntriesFit(acc: Acc, es: seq<Entry>)
    requires !acc.truncated && acc.total <= HeaderSizeLimitBytes
    ensures var k := FitCount(es, HeaderSizeLimitBytes - acc.total);
      AddEntries(acc, es) == Acc(acc.headers + ToMap(es[..k]), acc.total + SizeSum(es[..k]), k < |es|)
    decreases |es|
  {
    var k := FitCount(es, HeaderSizeLimitBytes - acc.total);
    if es == [] {
      assert acc.headers + ToMap([]) == acc.headers;
    } else {
      var e := es[0];
      var size := EntrySize(e);
      if acc.total + size > HeaderSizeLimitBytes {
        assert es[..0] == [];
        assert acc.headers + ToMap([]) == acc.headers;
      } else {
        var acc' := Accept(acc, e);
        AddEntriesFit(acc', es[1..]);
        var k' := FitCount(es[1..], HeaderSizeLimitBytes - acc'.total);
        assert k == k' + 1;
        var r := AddEntries(acc', es[1..]);
        assert AddEntries(acc, es) == r;
        assert r.headers == acc.headers + ToMap(es[..k]) by { MergeStep(acc.headers, es, k); }
        assert r.total == acc.total + SizeSum(es[..k]) by { SizeSumCons(es, k); }
      }
    }
  }

  /** Writing the first entry and then k - 1 more is writing the first k. */
  lemma MergeStep(m: map<string, string>, es: seq<Entry>, k: nat)
    requires 1 <= k <= |es|
    ensures m[es[0].key := es[0].value] + ToMap(es[1..][..k - 1]) == m + ToMap(es[..k])
  {
    assert es[..k] == [es[0]] + es[1..][..k - 1];
    ToMapCons(es[0], es[1..][..k - 1]);
    UpdateThenMerge(m, es[0].key, es[0].value, ToMap(es[1..][..k - 1]));
  }

  lemma UpdateThenMerge(m: map<string, string>, k: string, v: string, x: map<string, string>)
    ensures m[k := v] + x == m + (map[k := v] + x)
  {
  }

  /** Adding a then b is adding a, then, unless a truncated, adding b. */
  lemma {:induction false} AddEntriesAppend(acc: Acc, a: seq<Entry>, b: seq<Entry>)
    requires !acc.truncated
    ensures var m := AddEntries(acc, a);
      AddEntries(acc, a + b) == if m.truncated then m else AddEntries(m, b)
    decreases |a|
  {
    if a == [] {
      assert a + b == b;
    } else {
      assert (a + b)[0] == a[0] && (a + b)[1..] == a[1..] + b;
      var size := EntrySize(a[0]);
      if acc.total + size <= HeaderSizeLimitBytes {
        AddEntriesAppend(Accept(acc, a[0]), a[1..], b);
      }
    }
  }

  /** The header lines of every hit from pattern i on, in pattern order. */
  function AllEntries(patterns: seq<string>, i: nat, entries: map<string, string>, path: string): seq<Entry>
    requires i <= |patterns|
    decreases |patterns| - i
  {
    if i == |patterns| then []
    else
      var v := Lookup(entries, patterns[i]);
      (if IsHit(v) then LineEntries(Split(v.value, '\n'), path) else []) + AllEntries(patterns, i + 1, entries, path)
  }

  /** The indices, from i on, of the patterns whose lookup hits. */
  function HitsFrom(patterns: seq<string>, i: nat, entries: map<string, string>): seq<nat>
    requires i <= |patterns|
    decreases |patterns| - i
  {
    if i == |patterns| then []
    else (if IsHit(Lookup(entries, patterns[i])) then [i] else []) + HitsFrom(patterns, i + 1, entries)
  }

  /** A pattern index is in HitsFrom exactly when its lookup hits. */
  lemma {:induction false} HitsFromMembers(patterns: seq<string>, i: nat, entries: map<string, string>)
    requires i <= |patterns|
    ensures forall k :: k in HitsFrom(patterns, i, entries) <==> i <= k < |patterns| && IsHit(Lookup(entries, patterns[k]))
    decreases |patterns| - i
  {
    if i < |patterns| {
      HitsFromMembers(patterns, i + 1, entries);
    }
  }

  predicate Increasing(s: seq<nat>)
  {
    forall a, b :: 0 <= a < b < |s| ==> s[a] < s[b]
  }

  /** The indices in HitsFrom increase. */
  lemma {:induction false} HitsFromIncreasing(patterns: seq<string>, i: nat, entries: map<string, string>)
    requires i <= |patterns|
    ensures Increasing(HitsFrom(patterns, i, entries))
    decreases |patterns| - i
  {
    if i < |patterns| {
      var h := HitsFrom(patterns, i, entries);
      var t := HitsFrom(patterns, i + 1, entries);
      HitsFromIncreasing(patterns, i + 1, entries);
      HitsFromMembers(patterns, i + 1, entries);
      if IsHit(Lookup(entries, patterns[i])) {
        assert h == [i] + t;
        ConsIncreasing(i, t);
      } else {
        assert h == t;
      }
    }
  }

  /** An increasing sequence stays increasing with a smaller element in front. */
  lemma ConsIncreasing(x: nat, t: seq<nat>)
    requires Increasing(t) && forall k :: k in t ==> x < k
    ensures Increasing([x] + t)
  {
    var h := [x] + t;
    forall a, b | 0 <= a < b < |h|
      ensures h[a] < h[b]
    {
      assert h[b] == t[b - 1] && t[b - 1] in t;
      if a > 0 {
        assert h[a] == t[a - 1];
      }
    }
  }

  /**
   * The collection from pattern i adds the lines of every later hit, in
   * order, to the headers so far; the matched indices are the hits, cut
   * off after the one whose lines overflow the budget.
   */
  lemma {:induction false} CollectFromSpec(c: Collected, patterns: seq<string>, i: nat, entries: map<string, string>, path: string)
    requires i <= |patterns| && !c.acc.truncated
    ensures var r := CollectFrom(c, patterns, i, entries, path);
      r.acc == AddEntries(c.acc, AllEntries(patterns, i, entries, path))
    ensures var r := CollectFrom(c, patterns, i, entries, path);
      var h := HitsFrom(patterns, i, entries);
      var n := |r.matched| - |c.matched|;
      && 0 <= n <= |h| && r.matched == c.matched + h[..n]
      && (!r.acc.truncated ==> n == |h|)
    decreases |patterns| - i
  {
    var r := CollectFrom(c, patterns, i, entries, path);
    var h := HitsFrom(patterns, i, entries);
    if i == |patterns| {
      assert h == [] && r == c;
      assert r.matched == c.matched + h[..0];
    } else {
      var v := Lookup(entries, patterns[i]);
      var rest := AllEntries(patterns, i + 1, entries, path);
      var t := HitsFrom(patterns, i + 1, entries);
      if IsHit(v) {
        var es := LineEntries(Split(v.value, '\n'), path);
        var acc := AddEntries(c.acc, es);
        CollectHit(c, patterns, i, entries, path, acc);
        AddEntriesAppend(c.acc, es, rest);
        assert AllEntries(patterns, i, entries, path) == es + rest;
        assert h == [i] + t;
        if acc.truncated {
          assert r == Collected(acc, c.matched + [i]);
          assert r.matched == c.matched + h[..1];
        } else {
          var c' := Collected(acc, c.matched + [i]);
          CollectFromSpec(c', patterns, i + 1, entries, path);
          MatchedCons(c.matched, i, t, r.matched, |r.matched| - |c'.matched|);
        }
      } else {
        CollectMiss(c, patterns, i, entries, path);
        assert AllEntries(patterns, i, entries, path) == [] + rest == rest;
        assert h == t;
        CollectFromSpec(c, patterns, i + 1, entries, path);
      }
    }
  }

  /** Indices recorded after a hit at x are x followed by a prefix of the later hits. */
  lemma MatchedCons(m: seq<nat>, x: nat, t: seq<nat>, rm: seq<nat>, n: int)
    requires 0 <= n <= |t| && rm == m + [x] + t[..n]
    ensures |rm| - |m| == n + 1 && rm == m + ([x] + t)[..n + 1]
  {
    assert ([x] + t)[..n + 1] == [x] + t[..n];
  }

  /**
   * The collected headers: with es the header lines of every hit in pattern
   * order and k the longest prefix of es within 4096, the headers are es[..k]
   * written in order (a later pattern overrides an earlier one), the total is
   * their size and at most 4096, and the collection is truncated exactly when
   * es[k] exists and would go over.
   */
  lemma CollectSpec(patterns: seq<string>, entries: map<string, string>, path: string)
    ensures var es := AllEntries(patterns, 0, entries, path);
      var k := FitCount(es, HeaderSizeLimitBytes);
      var c := Collect(patterns, entries, path);
      && c.acc.headers == ToMap(es[..k])
      && c.acc.total == SizeSum(es[..k]) <= HeaderSizeLimitBytes
      && (c.acc.truncated <==> k < |es|)
      && (k < |es| ==> SizeSum(es[..k + 1]) > HeaderSizeLimitBytes)
  {
    var es := AllEntries(patterns, 0, entries, path);
    CollectFromSpec(Start, patterns, 0, entries, path);
    AddEntriesFit(Start.acc, es);
    FitCountSpec(es, HeaderSizeLimitBytes);
    var k := FitCount(es, HeaderSizeLimitBytes);
    assert map[] + ToMap(es[..k]) == ToMap(es[..k]);
  }

  /** The last accepted line for a name decides its value: later patterns override earlier ones. */
  lemma CollectLastWins(patterns: seq<string>, entries: map<string, string>, path: string, i: nat)
    requires var es := AllEntries(patterns, 0, entries, path);
      var k := FitCount(es, HeaderSizeLimitBytes);
      i < k && forall j :: i < j < k ==> es[j].key != es[i].key
    ensures var es := AllEntries(patterns, 0, entries, path);
      var h := Collect(patterns, entries, path).acc.headers;
      es[i].key in h && h[es[i].key] == es[i].value
  {
    var es := AllEntries(patterns, 0, entries, path);
    var k := FitCount(es, HeaderSizeLimitBytes);
    CollectSpec(patterns, entries, path);
    ToMapLastWins(es[..k], i);
  }

  /** Without truncation the matched indices are exactly the patterns whose lookup hits, in increasing order. */
  lemma CollectMatched(patterns: seq<string>, entries: map<string, string>, path: string)
    ensures var c := Collect(patterns, entries, path);
      !c.acc.truncated ==>
        && (forall k :: k in c.matched <==> 0 <= k < |patterns| && IsHit(Lookup(entries, patterns[k])))
        && Increasing(c.matched)
  {
    var h := HitsFrom(patterns, 0, entries);
    CollectFromSpec(Start, patterns, 0, entries, path);
    HitsFromMembers(patterns, 0, entries);
    HitsFromIncreasing(patterns, 0, entries);
    var c := Collect(patterns, entries, path);
    if !c.acc.truncated {
      assert h[..|h|] == h;
      assert c.matched == h;
    }
  }

  // ---------------------------------------------------------------------
  // Properties of the response
  // ---------------------------------------------------------------------

  /**
   * Outside the debug names, a response header is the collected value if
   * one was collected, else the value the response already had; nothing
   * else is added or removed.
   */
  lemma FinalHeadersOverride(base: map<string, string>, patterns: seq<string>, c: Collected, debugHeaders: bool, n: string)
    requires !debugHeaders || n !in DebugNames
    ensures var h := FinalHeaders(base, patterns, c, debugHeaders);
      && (n in h <==> n in base || n in c.acc.headers)
      && (n in c.acc.headers ==> h[n] == c.acc.headers[n])
      && (n !in c.acc.headers && n in base ==> h[n] == base[n])
  {
    if debugHeaders {
      assert n != "x-hedgerules-patterns" && n != "x-hedgerules-matched";
      assert n != "x-hedgerules-size" && n != "x-hedgerules-truncated";
    }
  }

  /**
   * With debug headers on, the response names the patterns and the matched
   * indices (each clipped to 200 characters), the added size as a decimal
   * that reads back as the total, and the truncation when it happened.
   */
  lemma DebugHeadersSpec(base: map<string, string>, patterns: seq<string>, c: Collected)
    ensures var h := FinalHeaders(base, patterns, c, true);
      && "x-hedgerules-patterns" in h && h["x-hedgerules-patterns"] == Prefix(Join(patterns, ","), DebugValueLimit)
      && |h["x-hedgerules-patterns"]| <= DebugValueLimit
      && "x-hedgerules-matched" in h && h["x-hedgerules-matched"] == Prefix(Join(Decimals(c.matched), ","), DebugValueLimit)
      && |h["x-hedgerules-matched"]| <= DebugValueLimit
      && "x-hedgerules-size" in h && AllDigits(h["x-hedgerules-size"]) && DecimalValue(h["x-hedgerules-size"]) == c.acc.total
      && (c.acc.truncated ==> "x-hedgerules-truncated" in h && h["x-hedgerules-truncated"] == "true")
  {
    PrefixSpec(Join(patterns, ","), DebugValueLimit);
    PrefixSpec(Join(Decimals(c.matched), ","), DebugValueLimit);
    DecimalRoundTrip(c.acc.total);
  }

  /**
   * A '$' sequence in the path is expanded by the language's replace: for
   * the value "<{/path}>" and the path "/a$&" the code as written gives
   * "</a{/path}>", where the path itself, "</a$&>", is meant.
   */
  lemma DollarInPathAsWritten()
    ensures ReplaceFirstAsWritten("<" + PathToken + ">", PathToken, "/a$&") == "<" + ("/a" + PathToken) + ">"
    ensures ReplaceFirst("<" + PathToken + ">", PathToken, "/a$&") == "<" + "/a$&" + ">"
  {
    TokenAtOne();
    ReplaceInContext("<", PathToken, ">", "/a$&");
    ExpandMatched();
  }

  /** Where the first occurrence is right after pre, both replacements keep pre and what follows the occurrence. */
  lemma ReplaceInContext(pre: string, t: string, post: string, rep: string)
    requires Find(pre + t + post, t) == |pre|
    ensures ReplaceFirst(pre + t + post, t, rep) == pre + rep + post
    ensures ReplaceFirstAsWritten(pre + t + post, t, rep) == pre + Expand(rep, t, pre, post) + post
  {
    var s := pre + t + post;
    assert s[..|pre|] == pre;
    assert s[|pre| + |t|..] == post;
  }

  /** In "<{/path}>" the placeholder starts at the second character. */
  lemma TokenAtOne()
    ensures Find("<" + PathToken + ">", PathToken) == 1
  {
    var s := "<" + PathToken + ">";
    assert s[..|PathToken|] != PathToken by {
      assert s[..|PathToken|][0] != PathToken[0];
    }
    assert s[1..][..|PathToken|] == PathToken;
  }

  /** "$&" in the replacement stands for the matched placeholder. */
  lemma ExpandMatched()
    ensures Expand("/a$&", PathToken, "<", ">") == "/a" + PathToken
  {
    var r := "/a$&";
    assert r[1..] == "a$&" && r[1..][1..] == "$&" && r[1..][1..][2..] == "";
    assert Expand("", PathToken, "<", ">") == "";
    assert Expand("$&", PathToken, "<", ">") == PathToken + "";
  }
}
