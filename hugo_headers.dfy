/**
 * The header dataset of package hugo: `_hedge_headers.json` maps URL paths
 * to header names and values; each path becomes one entry whose value lists
 * its headers as "Name: value" lines.
 */
module HugoHeaders {
  import opened Wrappers
  import opened KvsTypes
  import opened Strings

  /**
   * What reading and decoding `_hedge_headers.json` yields: no such file, a
   * read failure, content that is not a JSON object of objects of strings,
   * or the decoded object.
   */
  datatype HeadersFile =
    | NotExist
    | ReadFailed
    | Malformed
    | Decoded(raw: map<string, map<string, string>>)

  datatype HeadersError = ReadError | ParseError

  /** One header as it is stored: `fmt.Sprintf("%s: %s", name, value)`. */
  function HeaderLine(name: string, value: string): string
  {
    name + ": " + value
  }

  /** The lines of the headers named in order, one per name. */
  function HeaderLines(headers: map<string, string>, order: seq<string>): (lines: seq<string>)
    requires forall i :: 0 <= i < |order| ==> order[i] in headers
    ensures |lines| == |order|
    ensures forall i :: 0 <= i < |order| ==> lines[i] == HeaderLine(order[i], headers[order[i]])
  {
    if order == [] then [] else HeaderLines(headers, order[..|order| - 1]) + [HeaderLine(order[|order| - 1], headers[order[|order| - 1]])]
  }

  /** The order of a map iteration: every key exactly once. */
  ghost predicate IsOrderOf(order: seq<string>, keys: set<string>)
  {
    Distinct(order) && SetOf(order) == keys
  }

  /** v lists every header of the map once, as "Name: value" lines joined by "\n", in some order. */
  ghost predicate IsHeaderValue(v: string, headers: map<string, string>)
  {
    exists order :: IsOrderOf(order, headers.Keys) && v == Join(HeaderLines(headers, order), "\n")
  }

  /** One entry per path of the object, keyed by the path, valued by the path's headers. */
  ghost predicate ListsHeaders(entries: seq<Entry>, raw: map<string, map<string, string>>)
  {
    UniqueKeys(entries) && KeysOf(entries) == raw.Keys && |entries| == |raw|
    && forall i :: 0 <= i < |entries| ==> entries[i].key in raw && IsHeaderValue(entries[i].value, raw[entries[i].key])
  }

  /** The entries listed so far: those of every path not in rest. */
  ghost predicate ListsHeadersBut(entries: seq<Entry>, raw: map<string, map<string, string>>, rest: set<string>)
  {
    rest <= raw.Keys && UniqueKeys(entries) && KeysOf(entries) == raw.Keys - rest
    && |entries| + |rest| == |raw.Keys|
    && forall i :: 0 <= i < |entries| ==> entries[i].key in raw && IsHeaderValue(entries[i].value, raw[entries[i].key])
  }

  lemma AddPath(entries: seq<Entry>, raw: map<string, map<string, string>>, rest: set<string>, urlPath: string, value: string)
    requires ListsHeadersBut(entries, raw, rest) && urlPath in rest && IsHeaderValue(value, raw[urlPath])
    ensures ListsHeadersBut(entries + [Entry(urlPath, value)], raw, rest - {urlPath})
  {
    var e := Entry(urlPath, value);
    var es := entries + [e];
    assert UniqueKeys(es) by {
      forall i, j | 0 <= i < j < |es|
        ensures es[i].key != es[j].key
      {
        assert es[i] == entries[i];
        if j < |entries| {
          assert es[j] == entries[j];
        } else {
          assert entries[i].key in KeysOf(entries);
        }
      }
    }
    assert KeysOf(es) == raw.Keys - (rest - {urlPath}) by {
      KeysOfSnoc(entries, e);
    }
    assert |rest - {urlPath}| == |rest| - 1;
    forall i | 0 <= i < |es|
      ensures es[i].key in raw && IsHeaderValue(es[i].value, raw[es[i].key])
    {
      if i < |entries| {
        assert es[i] == entries[i];
      }
    }
  }

  /** The inner loop of ParseHeaders: the lines of one path's headers, joined by "\n". */
  method HeaderValue(headers: map<string, string>) returns (v: string)
    ensures IsHeaderValue(v, headers)
  {
    var lines: seq<string> := [];
    ghost var order: seq<string> := [];
    var rest := headers.Keys;
    while rest != {}
      invariant rest <= headers.Keys
      invariant Distinct(order) && SetOf(order) == headers.Keys - rest
      invariant forall i :: 0 <= i < |order| ==> order[i] in headers
      invariant lines == HeaderLines(headers, order)
      decreases rest
    {
      var name :| name in rest;
      SetOfSnoc(order, name);
      assert forall i :: 0 <= i < |order| ==> order[i] in SetOf(order);
      assert (order + [name])[..|order|] == order;
      lines := lines + [HeaderLine(name, headers[name])];
      order := order + [name];
      rest := rest - {name};
    }
    v := Join(lines, "\n");
    assert headers.Keys - {} == headers.Keys;
  }

  /** ParseHeaders: one entry per URL path; a missing file is no headers, and read and decode failures are errors. */
  method ParseHeaders(file: HeadersFile) returns (r: Result<seq<Entry>, HeadersError>)
    ensures file.NotExist? ==> r == Ok([])
    ensures file.ReadFailed? ==> r == Err(ReadError)
    ensures file.Malformed? ==> r == Err(ParseError)
    ensures file.Decoded? ==> r.Ok? && ListsHeaders(r.value, file.raw)
  {
    match file
    case NotExist =>
      return Ok([]);
    case ReadFailed =>
      return Err(ReadError);
    case Malformed =>
      return Err(ParseError);
    case Decoded(raw) =>
      var entries: seq<Entry> := [];
      var rest := raw.Keys;
      while rest != {}
        invariant ListsHeadersBut(entries, raw, rest)
        decreases rest
      {
        var urlPath :| urlPath in rest;
        var value := HeaderValue(raw[urlPath]);
        AddPath(entries, raw, rest, urlPath, value);
        entries := entries + [Entry(urlPath, value)];
        rest := rest - {urlPath};
      }
      assert raw.Keys - {} == raw.Keys;
      assert |raw.Keys| == |raw|;
      return Ok(entries);
  }

  /** A path without headers gets the empty value, and only then. */
  lemma NoHeadersIsEmpty(v: string)
    ensures IsHeaderValue(v, map[]) <==> v == ""
  {
    var hm: map<string, string> := map[];
    if v == "" {
      assert SetOf([]) == {};
      assert IsOrderOf([], hm.Keys) && v == Join(HeaderLines(hm, []), "\n");
    }
  }

  /** A path with a single header has exactly "Name: value", with no newline. */
  lemma SingleHeader(v: string, name: string, value: string)
    ensures IsHeaderValue(v, map[name := value]) <==> v == HeaderLine(name, value)
  {
    var hm := map[name := value];
    if v == HeaderLine(name, value) {
      assert SetOf([name]) == {name} by {
        assert [name][0] == name;
      }
      assert HeaderLines(hm, [name]) == [HeaderLine(name, value)];
      assert IsOrderOf([name], hm.Keys) && v == Join(HeaderLines(hm, [name]), "\n");
    } else if IsHeaderValue(v, hm) {
      var order :| IsOrderOf(order, hm.Keys) && v == Join(HeaderLines(hm, order), "\n");
      OrderOfSingleton(order, name);
    }
  }

  lemma OrderOfSingleton(order: seq<string>, name: string)
    requires IsOrderOf(order, {name})
    ensures order == [name]
  {
    DistinctLength(order);
    assert |order| == 1;
    assert order[0] in SetOf(order);
  }

  /**
   * When no header name or value contains a newline, splitting a value at
   * "\n" gives back one line per header: every header's "Name: value" line
   * is there, and nothing else is.
   */
  lemma HeaderValueLines(v: string, headers: map<string, string>)
    requires IsHeaderValue(v, headers) && |headers| >= 1
    requires forall n :: n in headers ==> '\n' !in n && '\n' !in headers[n]
    ensures |Split(v, '\n')| == |headers|
    ensures forall n :: n in headers ==> HeaderLine(n, headers[n]) in Split(v, '\n')
    ensures forall l :: l in Split(v, '\n') ==> exists n :: n in headers && l == HeaderLine(n, headers[n])
  {
    var order :| IsOrderOf(order, headers.Keys) && v == Join(HeaderLines(headers, order), "\n");
    var lines := HeaderLines(headers, order);
    DistinctLength(order);
    assert |order| == |headers| by {
      assert |SetOf(order)| == |headers.Keys| == |headers|;
    }
    forall i | 0 <= i < |lines|
      ensures '\n' !in lines[i]
    {
      assert order[i] in SetOf(order);
      NoNewlineInLine(order[i], headers[order[i]]);
    }
    SplitJoin(lines, '\n');
    assert "\n" == ['\n'];
    forall n | n in headers
      ensures HeaderLine(n, headers[n]) in lines
    {
      assert n in SetOf(order);
      var i :| 0 <= i < |order| && order[i] == n;
      assert lines[i] == HeaderLine(n, headers[n]);
    }
    forall l | l in lines
      ensures exists n :: n in headers && l == HeaderLine(n, headers[n])
    {
      var i :| 0 <= i < |lines| && lines[i] == l;
      assert order[i] in SetOf(order);
    }
  }

  lemma NoNewlineInLine(name: string, value: string)
    requires '\n' !in name && '\n' !in value
    ensures '\n' !in HeaderLine(name, value)
  {
    var s := HeaderLine(name, value);
    forall i | 0 <= i < |s|
      ensures s[i] != '\n'
    {
      if i < |name| {
        assert s[i] == name[i];
      } else if i >= |name| + 2 {
        assert s[i] == value[i - |name| - 2];
      }
    }
  }

  /** A sequence without repeats has as many elements as its set. */
  lemma {:induction false} DistinctLength(s: seq<string>)
    requires Distinct(s)
    ensures |SetOf(s)| == |s|
  {
    if s != [] {
      var init := s[..|s| - 1];
      DistinctLength(init);
      assert s == init + [s[|s| - 1]];
      SetOfSnoc(init, s[|s| - 1]);
      assert s[|s| - 1] !in SetOf(init);
    }
  }

  /** An empty object yields no entries. */
  lemma EmptyObject(entries: seq<Entry>)
    requires ListsHeaders(entries, map[])
    ensures entries == []
  {
  }
}
