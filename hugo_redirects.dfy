/**
 * The redirect dataset of package hugo: parsing `_hedge_redirects.txt`,
 * merging it over the directory redirects, and collapsing redirect chains
 * to their final targets.
 */
module HugoRedirects {
  import opened Wrappers
  import opened KvsTypes
  import opened GoText
  import opened Strings

  // ---------------------------------------------------------------------
  // ParseRedirects
  // ---------------------------------------------------------------------

  /**
   * What opening and scanning `_hedge_redirects.txt` yields: no such file,
   * a failure to open it, or the lines the scanner produced and whether it
   * stopped on a read error.
   */
  datatype RedirectsFile =
    | NotExist
    | OpenFailed
    | Scanned(lines: seq<string>, readFailed: bool)

  datatype RedirectsError = OpenError | ReadError

  /** A line with fewer than two fields, reported with its 1-based line number and skipped. */
  datatype Warning = InvalidRedirect(lineNum: nat, line: string)

  /** What one line of the file contributes. */
  datatype LineKind = Skip | Invalid(line: string) | Redirect(entry: Entry)

  /** One line, trimmed: blank and `#` lines are skipped; otherwise fields 0 and 1 are source and destination. */
  function ParseLine(raw: string): LineKind
  {
    var line := TrimSpace(raw);
    if line == "" || StartsWith(line, "#") then Skip
    else
      var parts := Fields(line);
      if |parts| < 2 then Invalid(line) else Redirect(Entry(parts[0], parts[1]))
  }

  /** The entries of the lines, in line order. */
  function LineEntries(lines: seq<string>): seq<Entry>
  {
    if lines == [] then []
    else
      var k := ParseLine(lines[|lines| - 1]);
      LineEntries(lines[..|lines| - 1]) + (if k.Redirect? then [k.entry] else [])
  }

  /** The warnings of the lines, in line order, numbered from 1. */
  function LineWarnings(lines: seq<string>): seq<Warning>
  {
    if lines == [] then []
    else
      var k := ParseLine(lines[|lines| - 1]);
      LineWarnings(lines[..|lines| - 1]) + (if k.Invalid? then [InvalidRedirect(|lines|, k.line)] else [])
  }

  /** ParseRedirects: the redirect entries of the file, plus the warnings printed for invalid lines. */
  method ParseRedirects(file: RedirectsFile) returns (r: Result<(seq<Entry>, seq<Warning>), RedirectsError>)
    ensures file.NotExist? ==> r == Ok(([], []))
    ensures file.OpenFailed? ==> r == Err(OpenError)
    ensures file.Scanned? && file.readFailed ==> r == Err(ReadError)
    ensures file.Scanned? && !file.readFailed ==> r == Ok((LineEntries(file.lines), LineWarnings(file.lines)))
  {
    match file
    case NotExist =>
      return Ok(([], []));
    case OpenFailed =>
      return Err(OpenError);
    case Scanned(lines, readFailed) =>
      var entries: seq<Entry> := [];
      var warnings: seq<Warning> := [];
      var lineNum := 0;
      while lineNum < |lines|
        invariant 0 <= lineNum <= |lines|
        invariant entries == LineEntries(lines[..lineNum])
        invariant warnings == LineWarnings(lines[..lineNum])
      {
        var raw := lines[lineNum];
        lineNum := lineNum + 1;
        assert lines[..lineNum][..lineNum - 1] == lines[..lineNum - 1];
        var line := TrimSpace(raw);
        if line == "" || StartsWith(line, "#") {
          continue;
        }
        var parts := Fields(line);
        if |parts| < 2 {
          warnings := warnings + [InvalidRedirect(lineNum, line)];
          continue;
        }
        entries := entries + [Entry(parts[0], parts[1])];
      }
      assert lines[..|lines|] == lines;
      if readFailed {
        return Err(ReadError);
      }
      return Ok((entries, warnings));
  }

  /**
   * A line is judged by its white-space-separated fields alone: none (a blank
   * line) or a first field starting with `#` is skipped, one field is invalid,
   * and two or more give (field 0, field 1), any further field ignored.
   */
  lemma ParseLineByFields(raw: string)
    ensures var fs := Fields(raw);
      ParseLine(raw) ==
        if fs == [] || fs[0][0] == '#' then Skip
        else if |fs| < 2 then Invalid(TrimSpace(raw))
        else Redirect(Entry(fs[0], fs[1]))
  {
    var line := TrimSpace(raw);
    var fs := Fields(raw);
    FieldsOfTrimSpace(raw);
    if line == "" {
      assert fs == [];
    } else {
      assert fs != [] && fs[0][0] == line[0] by {
        FirstField(line);
      }
      StartsWithChar(line, '#');
      if line[0] != '#' && |fs| >= 2 {
        assert ParseLine(raw) == Redirect(Entry(fs[0], fs[1]));
      }
    }
  }

  /** A non-empty string starts with a one-character prefix exactly when its first character is that character. */
  lemma StartsWithChar(s: string, c: char)
    requires s != []
    ensures StartsWith(s, [c]) <==> s[0] == c
  {
    assert s[..1] == [s[0]];
  }

  /** A string that starts with a non-space character has a first field, and it starts with that character. */
  lemma FirstField(line: string)
    requires line != [] && !IsSpace(line[0])
    ensures Fields(line) != [] && Fields(line)[0][0] == line[0]
  {
    var n := WordLength(line);
    assert Fields(line) == [line[..n]] + Fields(line[n..]);
  }

  /** Source and destination of every redirect are single non-empty words, and the source is no comment. */
  lemma RedirectIsTwoWords(raw: string)
    requires ParseLine(raw).Redirect?
    ensures var e := ParseLine(raw).entry;
      IsField(e.key) && IsField(e.value) && e.key[0] != '#'
  {
    ParseLineByFields(raw);
  }

  /** Lines parse independently: the entries of a + b are those of a, then those of b. */
  lemma {:induction false} LineEntriesAppend(a: seq<string>, b: seq<string>)
    ensures LineEntries(a + b) == LineEntries(a) + LineEntries(b)
    decreases |b|
  {
    if b == [] {
      assert a + b == a;
    } else {
      var b', last := b[..|b| - 1], b[|b| - 1];
      assert (a + b)[..|a + b| - 1] == a + b';
      assert (a + b)[|a + b| - 1] == last;
      var k := ParseLine(last);
      var tail := if k.Redirect? then [k.entry] else [];
      assert LineEntries(a + b) == LineEntries(a + b') + tail;
      assert LineEntries(b) == LineEntries(b') + tail;
      LineEntriesAppend(a, b');
      AppendAssoc(LineEntries(a), LineEntries(b'), tail);
    }
  }

  /** The warnings so far are never taken back by later lines. */
  lemma {:induction false} LineWarningsPrefix(a: seq<string>, b: seq<string>)
    ensures |LineWarnings(a)| <= |LineWarnings(a + b)|
    ensures LineWarnings(a + b)[..|LineWarnings(a)|] == LineWarnings(a)
    decreases |b|
  {
    if b == [] {
      assert a + b == a;
    } else {
      var b', last := b[..|b| - 1], b[|b| - 1];
      assert (a + b)[..|a + b| - 1] == a + b';
      assert (a + b)[|a + b| - 1] == last;
      var k := ParseLine(last);
      var tail := if k.Invalid? then [InvalidRedirect(|a + b|, k.line)] else [];
      assert LineWarnings(a + b) == LineWarnings(a + b') + tail;
      LineWarningsPrefix(a, b');
      assert LineWarnings(a + b)[..|LineWarnings(a + b')|] == LineWarnings(a + b');
    }
  }

  /** An invalid line contributes no entry; parsing carries on after it. */
  lemma InvalidLineSkipped(a: seq<string>, raw: string, b: seq<string>)
    requires ParseLine(raw).Invalid?
    ensures LineEntries(a + [raw] + b) == LineEntries(a) + LineEntries(b)
  {
    assert LineEntries([raw]) == [] by {
      assert [raw][..0] == [];
    }
    calc {
      LineEntries(a + [raw] + b);
      { LineEntriesAppend(a + [raw], b); }
      LineEntries(a + [raw]) + LineEntries(b);
      { LineEntriesAppend(a, [raw]); }
      LineEntries(a) + LineEntries(b);
    }
  }

  /** An invalid line is reported with its 1-based line number, whatever follows it. */
  lemma InvalidLineReported(a: seq<string>, raw: string, b: seq<string>)
    requires ParseLine(raw).Invalid?
    ensures InvalidRedirect(|a| + 1, TrimSpace(raw)) in LineWarnings(a + [raw] + b)
  {
    var w := LineWarnings(a + [raw]);
    assert (a + [raw])[..|a + [raw]| - 1] == a;
    assert w == LineWarnings(a) + [InvalidRedirect(|a| + 1, TrimSpace(raw))];
    LineWarningsPrefix(a + [raw], b);
    assert LineWarnings(a + [raw] + b)[|w| - 1] == w[|w| - 1];
  }

  /** A line of two words is a redirect from the first to the second. */
  lemma TwoWordLine(k: string, sep: string, v: string)
    requires IsField(k) && k[0] != '#' && sep != [] && AllSpace(sep) && IsField(v)
    ensures ParseLine(k + sep + v) == Redirect(Entry(k, v))
  {
    FieldsCons(k, sep, v);
    FieldsOfField(v);
    ParseLineByFields(k + sep + v);
  }

  /** A status field after the destination is ignored. */
  lemma ThreeWordLine(k: string, sep: string, v: string, sep': string, status: string)
    requires IsField(k) && k[0] != '#' && sep != [] && AllSpace(sep) && IsField(v)
    requires sep' != [] && AllSpace(sep') && IsField(status)
    ensures ParseLine(k + sep + v + sep' + status) == Redirect(Entry(k, v))
  {
    FieldsOfThree(k, sep, v, sep', status);
    ParseLineByFields(k + sep + v + sep' + status);
  }

  lemma FieldsOfThree(k: string, sep: string, v: string, sep': string, status: string)
    requires IsField(k) && sep != [] && AllSpace(sep) && IsField(v)
    requires sep' != [] && AllSpace(sep') && IsField(status)
    ensures Fields(k + sep + v + sep' + status) == [k, v, status]
  {
    var rest := v + sep' + status;
    AppendAssoc(k + sep, v, sep');
    AppendAssoc(k + sep, v + sep', status);
    FieldsCons(k, sep, rest);
    FieldsCons(v, sep', status);
    FieldsOfField(status);
  }

  /** A line whose first word starts with `#` is a comment. */
  lemma CommentLine(w: string, sep: string, rest: string)
    requires IsField(w) && w[0] == '#' && sep != [] && AllSpace(sep)
    ensures ParseLine(w + sep + rest) == Skip
  {
    FieldsCons(w, sep, rest);
    ParseLineByFields(w + sep + rest);
  }

  /** A blank or all-white-space line is skipped. */
  lemma BlankLine(raw: string)
    requires AllSpace(raw)
    ensures ParseLine(raw) == Skip
  {
    assert raw == raw + [];
    FieldsSkipSpace(raw, []);
    ParseLineByFields(raw);
  }

  // ---------------------------------------------------------------------
  // MergeRedirects
  // ---------------------------------------------------------------------

  /** MergeRedirects: one entry per key; a file redirect takes precedence over a directory redirect. */
  method MergeRedirects(dirEntries: seq<Entry>, fileEntries: seq<Entry>) returns (entries: seq<Entry>)
    ensures UniqueKeys(entries)
    ensures ToMap(entries) == ToMap(dirEntries) + ToMap(fileEntries)
    ensures |entries| == |KeysOf(dirEntries) + KeysOf(fileEntries)|
  {
    var merged: map<string, string> := map[];
    for i := 0 to |dirEntries|
      invariant merged == ToMap(dirEntries[..i])
    {
      assert dirEntries[..i + 1][..i] == dirEntries[..i];
      merged := merged[dirEntries[i].key := dirEntries[i].value];
    }
    assert dirEntries[..|dirEntries|] == dirEntries;
    for j := 0 to |fileEntries|
      invariant merged == ToMap(dirEntries) + ToMap(fileEntries[..j])
    {
      assert fileEntries[..j + 1][..j] == fileEntries[..j];
      merged := merged[fileEntries[j].key := fileEntries[j].value];
    }
    assert fileEntries[..|fileEntries|] == fileEntries;
    entries := EntriesOf(merged);
    MergePrecedence(dirEntries, fileEntries);
    assert |merged| == |merged.Keys|;
  }

  /**
   * The merged map holds every key of either list; a key in the file takes
   * the file's value, and a key only in the directories keeps its value.
   */
  lemma MergePrecedence(dirEntries: seq<Entry>, fileEntries: seq<Entry>)
    ensures (ToMap(dirEntries) + ToMap(fileEntries)).Keys == KeysOf(dirEntries) + KeysOf(fileEntries)
    ensures forall k :: k in ToMap(fileEntries) ==> (ToMap(dirEntries) + ToMap(fileEntries))[k] == ToMap(fileEntries)[k]
    ensures forall k :: k in ToMap(dirEntries) && k !in ToMap(fileEntries) ==>
      (ToMap(dirEntries) + ToMap(fileEntries))[k] == ToMap(dirEntries)[k]
  {
    ToMapKeys(dirEntries);
    ToMapKeys(fileEntries);
  }

  /** The example of a directory redirect overridden by a file redirect, one kept and one added. */
  lemma MergeExample()
    ensures var dir := [Entry("/blog", "/blog/"), Entry("/about", "/about/")];
      var file := [Entry("/blog", "/new-blog/"), Entry("/custom", "/redirect/")];
      ToMap(dir) + ToMap(file) == map["/blog" := "/new-blog/", "/about" := "/about/", "/custom" := "/redirect/"]
      && |KeysOf(dir) + KeysOf(file)| == 3
  {
    var dir := [Entry("/blog", "/blog/"), Entry("/about", "/about/")];
    var file := [Entry("/blog", "/new-blog/"), Entry("/custom", "/redirect/")];
    assert dir[..1] == [dir[0]] && dir[..1][..0] == [];
    assert file[..1] == [file[0]] && file[..1][..0] == [];
    ToMapKeys(dir);
    ToMapKeys(file);
    assert KeysOf(dir) + KeysOf(file) == {"/blog", "/about", "/custom"};
  }

  // ---------------------------------------------------------------------
  // ResolveChains
  // ---------------------------------------------------------------------

  /** The redirect chain revisits this key. */
  datatype ChainError = RedirectCycle(key: string)

  /**
   * The final target of the chain at cur: follow redirects until reaching a
   * path that is not a source; reaching a visited source again is a cycle.
   */
  function Follow(m: map<string, string>, visited: set<string>, cur: string): Result<string, ChainError>
    decreases m.Keys - visited
  {
    if cur !in m then Ok(cur)
    else if cur in visited then Err(RedirectCycle(cur))
    else
      assert m.Keys - (visited + {cur}) < m.Keys - visited by {
        assert cur in m.Keys - visited;
      }
      Follow(m, visited + {cur}, m[cur])
  }

  /** Where n redirects from k lead; the walk stays at a path that is no source. */
  function Walk(m: map<string, string>, k: string, n: nat): string
    decreases n
  {
    if n == 0 || k !in m then k else Walk(m, m[k], n - 1)
  }

  /**
   * The entries with every value replaced by the final target of its key's
   * chain; the first entry, in entry order, whose chain has a cycle is an
   * error naming that entry's key.
   */
  function ResolveWith(m: map<string, string>, es: seq<Entry>): Result<seq<Entry>, ChainError>
  {
    if es == [] then Ok([])
    else
      var prev := ResolveWith(m, es[..|es| - 1]);
      var key := es[|es| - 1].key;
      var t := Follow(m, {}, key);
      if prev.Err? then prev
      else if t.Err? then Err(RedirectCycle(key))
      else Ok(prev.value + [Entry(key, t.value)])
  }

  /** One chain, followed step by step with a visited set. */
  method FollowChain(m: map<string, string>, key: string) returns (r: Result<string, ChainError>)
    ensures r == Follow(m, {}, key)
  {
    var visited: set<string> := {};
    var cur := key;
    while cur in m && cur !in visited
      invariant Follow(m, visited, cur) == Follow(m, {}, key)
      decreases m.Keys - visited
    {
      assert cur in m.Keys - visited;
      visited := visited + {cur};
      cur := m[cur];
    }
    if cur in m {
      r := Err(RedirectCycle(cur));
    } else {
      r := Ok(cur);
    }
  }

  /** ResolveChains: every redirect points straight at its final destination. */
  method ResolveChains(entries: seq<Entry>) returns (r: Result<seq<Entry>, ChainError>)
    ensures r == ResolveWith(ToMap(entries), entries)
  {
    var m: map<string, string> := map[];
    for i := 0 to |entries|
      invariant m == ToMap(entries[..i])
    {
      assert entries[..i + 1][..i] == entries[..i];
      m := m[entries[i].key := entries[i].value];
    }
    assert entries[..|entries|] == entries;
    var out: seq<Entry> := [];
    for i := 0 to |entries|
      invariant ResolveWith(m, entries[..i]) == Ok(out)
    {
      var key := entries[i].key;
      var t := FollowChain(m, key);
      assert entries[..i + 1][..i] == entries[..i];
      if t.Err? {
        ResolveErrPersists(m, entries, i + 1);
        return Err(RedirectCycle(key));
      }
      out := out + [Entry(key, t.value)];
    }
    r := Ok(out);
  }

  lemma {:induction false} ResolveErrPersists(m: map<string, string>, es: seq<Entry>, n: nat)
    requires n <= |es| && ResolveWith(m, es[..n]).Err?
    ensures ResolveWith(m, es) == ResolveWith(m, es[..n])
    decreases |es| - n
  {
    if n == |es| {
      assert es[..n] == es;
    } else {
      assert es[..n + 1][..n] == es[..n];
      ResolveErrPersists(m, es, n + 1);
    }
  }

  lemma {:induction false} WalkStep(m: map<string, string>, k: string, n: nat)
    requires Walk(m, k, n) in m
    ensures Walk(m, k, n + 1) == m[Walk(m, k, n)]
    decreases n
  {
    if n > 0 && k in m {
      WalkStep(m, m[k], n - 1);
    }
  }

  /** A resolved target is where the chain ends: reached from cur by following redirects, and itself no source. */
  lemma {:induction false} FollowReachesEnd(m: map<string, string>, visited: set<string>, cur: string)
    requires Follow(m, visited, cur).Ok?
    ensures ChainEnd(m, cur, Follow(m, visited, cur).value)
    decreases m.Keys - visited
  {
    var t := Follow(m, visited, cur).value;
    if cur !in m {
      assert Walk(m, cur, 0) == t;
    } else {
      FollowReachesEnd(m, visited + {cur}, m[cur]);
      var n: nat :| Walk(m, m[cur], n) == t;
      assert Walk(m, cur, n + 1) == t;
    }
  }

  /** A reported cycle is a real one: the walk returns to a source it already passed. */
  /** Every visited path is one of the first j steps of the walk from start. */
  ghost predicate PassedBy(m: map<string, string>, start: string, visited: set<string>, j: nat)
  {
    forall v :: v in visited ==> exists x: nat :: x < j && Walk(m, start, x) == v
  }

  lemma {:induction false} FollowErrIsCycle(m: map<string, string>, start: string, visited: set<string>, j: nat)
    requires PassedBy(m, start, visited, j)
    requires Follow(m, visited, Walk(m, start, j)).Err?
    ensures exists i: nat, i': nat :: i < i' && Walk(m, start, i) == Walk(m, start, i') && Walk(m, start, i) in m
    decreases m.Keys - visited
  {
    var cur := Walk(m, start, j);
    if cur in visited {
      var x: nat :| x < j && Walk(m, start, x) == cur;
      assert Walk(m, start, x) == Walk(m, start, j) && Walk(m, start, x) in m;
    } else {
      assert cur in m;
      assert Follow(m, visited, cur) == Follow(m, visited + {cur}, m[cur]);
      WalkStep(m, start, j);
      forall v | v in visited + {cur}
        ensures exists x: nat :: x < j + 1 && Walk(m, start, x) == v
      {
        if v == cur {
          assert Walk(m, start, j) == v;
        } else {
          var x: nat :| x < j && Walk(m, start, x) == v;
          assert x < j + 1;
        }
      }
      assert PassedBy(m, start, visited + {cur}, j + 1);
      FollowErrIsCycle(m, start, visited + {cur}, j + 1);
    }
  }

  /** Resolution keeps every entry, its key and its position. */
  lemma {:induction false} ResolvedShape(m: map<string, string>, es: seq<Entry>)
    requires ResolveWith(m, es).Ok?
    ensures var rs := ResolveWith(m, es).value;
      |rs| == |es|
      && forall i :: 0 <= i < |es| ==> rs[i].key == es[i].key && Follow(m, {}, es[i].key) == Ok(rs[i].value)
  {
    if es != [] {
      ResolvedShape(m, es[..|es| - 1]);
    }
  }

  /** Resolution fails exactly when the chain of some entry's key has a cycle. */
  lemma {:induction false} ResolvedErrIff(m: map<string, string>, es: seq<Entry>)
    ensures ResolveWith(m, es).Err? <==> exists i :: 0 <= i < |es| && Follow(m, {}, es[i].key).Err?
  {
    if es != [] {
      var init := es[..|es| - 1];
      ResolvedErrIff(m, init);
      assert forall i :: 0 <= i < |init| ==> init[i] == es[i];
      if ResolveWith(m, init).Ok? {
        ResolvedShape(m, init);
      }
    }
  }

  /** A failed resolution names the first entry, in entry order, whose chain has a cycle. */
  lemma {:induction false} ResolveErrNamesFirst(m: map<string, string>, es: seq<Entry>) returns (i: nat)
    requires ResolveWith(m, es).Err?
    ensures i < |es| && ResolveWith(m, es) == Err(RedirectCycle(es[i].key))
    ensures Follow(m, {}, es[i].key).Err?
    ensures forall j :: 0 <= j < i ==> Follow(m, {}, es[j].key).Ok?
  {
    var init := es[..|es| - 1];
    assert forall k :: 0 <= k < |init| ==> init[k] == es[k];
    if ResolveWith(m, init).Err? {
      i := ResolveErrNamesFirst(m, init);
    } else {
      i := |es| - 1;
      ResolvedShape(m, init);
    }
  }

  /** t is where the redirect chain from k ends: reached from k by following redirects, and itself no source. */
  ghost predicate ChainEnd(m: map<string, string>, k: string, t: string)
  {
    t !in m && exists n: nat :: Walk(m, k, n) == t
  }

  /** A successful resolution keeps every key in place and sends it to the end of its redirect chain. */
  lemma ResolvedTargetsAreChainEnds(es: seq<Entry>)
    requires ResolveWith(ToMap(es), es).Ok?
    ensures |ResolveWith(ToMap(es), es).value| == |es|
    ensures forall i :: 0 <= i < |es| ==>
      ResolveWith(ToMap(es), es).value[i].key == es[i].key
      && ChainEnd(ToMap(es), es[i].key, ResolveWith(ToMap(es), es).value[i].value)
  {
    var m := ToMap(es);
    var rs := ResolveWith(m, es).value;
    ResolvedShape(m, es);
    forall i | 0 <= i < |es|
      ensures ChainEnd(m, es[i].key, rs[i].value)
    {
      assert Follow(m, {}, es[i].key) == Ok(rs[i].value);
      FollowReachesEnd(m, {}, es[i].key);
    }
  }

  /** A failed resolution has a key whose redirect chain returns to a source it already passed. */
  lemma ResolveFailsOnCycle(es: seq<Entry>)
    requires ResolveWith(ToMap(es), es).Err?
    ensures exists i ::
              && 0 <= i < |es| && ResolveWith(ToMap(es), es) == Err(RedirectCycle(es[i].key))
              && (exists a: nat, b: nat :: a < b && Walk(ToMap(es), es[i].key, a) == Walk(ToMap(es), es[i].key, b) && Walk(ToMap(es), es[i].key, a) in ToMap(es))
              && forall j :: 0 <= j < i ==> Follow(ToMap(es), {}, es[j].key).Ok?
    ensures exists k :: k in KeysOf(es) && exists i: nat, i': nat ::
      i < i' && Walk(ToMap(es), k, i) == Walk(ToMap(es), k, i') && Walk(ToMap(es), k, i) in ToMap(es)
  {
    var m := ToMap(es);
    var i := ResolveErrNamesFirst(m, es);
    FollowErrIsCycle(m, es[i].key, {}, 0);
    assert es[i].key in KeysOf(es);
  }

  /** Entries whose values are not sources come back unchanged, all of them. */
  lemma {:induction false} NoChainsUnchanged(es: seq<Entry>)
    requires UniqueKeys(es)
    requires forall i :: 0 <= i < |es| ==> es[i].value !in KeysOf(es)
    ensures ResolveWith(ToMap(es), es) == Ok(es)
  {
    var m := ToMap(es);
    ToMapKeys(es);
    forall n | 0 <= n <= |es|
      ensures ResolveWith(m, es[..n]) == Ok(es[..n])
    {
      NoChainsPrefix(m, es, n);
    }
    assert es[..|es|] == es;
  }

  lemma {:induction false} NoChainsPrefix(m: map<string, string>, es: seq<Entry>, n: nat)
    requires n <= |es| && m == ToMap(es) && m.Keys == KeysOf(es) && UniqueKeys(es)
    requires forall i :: 0 <= i < |es| ==> es[i].value !in KeysOf(es)
    ensures ResolveWith(m, es[..n]) == Ok(es[..n])
  {
    if n > 0 {
      NoChainsPrefix(m, es, n - 1);
      assert es[..n][..n - 1] == es[..n - 1];
      var e := es[n - 1];
      ToMapUnique(es, n - 1);
      assert Follow(m, {}, e.key) == Follow(m, {e.key}, e.value);
      assert es[..n] == es[..n - 1] + [e];
    }
  }

  /** Resolving an already resolved list changes nothing. */
  lemma ResolveIdempotent(es: seq<Entry>)
    requires UniqueKeys(es) && ResolveWith(ToMap(es), es).Ok?
    ensures var rs := ResolveWith(ToMap(es), es).value; ResolveWith(ToMap(rs), rs) == Ok(rs)
  {
    var m := ToMap(es);
    var rs := ResolveWith(m, es).value;
    ToMapKeys(es);
    ResolvedTargetsAreChainEnds(es);
    assert KeysOf(rs) == KeysOf(es) by {
      assert forall i :: 0 <= i < |es| ==> rs[i].key == es[i].key;
    }
    NoChainsUnchanged(rs);
  }

  /** a -> b, b -> c resolves to a -> c, b -> c. */
  lemma TwoHopChain()
    ensures var es := [Entry("/a", "/b"), Entry("/b", "/c")];
      ResolveWith(ToMap(es), es) == Ok([Entry("/a", "/c"), Entry("/b", "/c")])
  {
    var es := [Entry("/a", "/b"), Entry("/b", "/c")];
    assert es[..1] == [es[0]] && es[..1][..0] == [];
    assert ToMap(es[..1]) == map["/a" := "/b"];
    var m := ToMap(es);
    assert m == map["/a" := "/b", "/b" := "/c"];
    assert Follow(m, {"/a", "/b"}, "/c") == Ok("/c");
    assert Follow(m, {"/b"}, "/c") == Ok("/c");
    assert {} + {"/b"} == {"/b"} && {} + {"/a"} == {"/a"} && {"/a"} + {"/b"} == {"/a", "/b"};
    assert Follow(m, {}, "/b") == Ok("/c");
    assert Follow(m, {"/a"}, "/b") == Ok("/c");
    assert Follow(m, {}, "/a") == Ok("/c");
    assert [] + [Entry("/a", "/c")] == [Entry("/a", "/c")];
    assert [Entry("/a", "/c")] + [Entry("/b", "/c")] == [Entry("/a", "/c"), Entry("/b", "/c")];
    assert ResolveWith(m, es[..1]) == Ok([Entry("/a", "/c")]);
  }

  /** a -> b -> c -> d -> e sends a, b, c and d straight to e. */
  lemma MultiHopChain()
    ensures var es := [Entry("/a", "/b"), Entry("/b", "/c"), Entry("/c", "/d"), Entry("/d", "/e")];
      ResolveWith(ToMap(es), es) == Ok([Entry("/a", "/e"), Entry("/b", "/e"), Entry("/c", "/e"), Entry("/d", "/e")])
  {
    var es := [Entry("/a", "/b"), Entry("/b", "/c"), Entry("/c", "/d"), Entry("/d", "/e")];
    var e1, e2, e3 := es[..1], es[..2], es[..3];
    assert e3 == [es[0], es[1], es[2]] && e3[..2] == e2;
    assert e2 == [es[0], es[1]] && e2[..1] == e1;
    assert e1 == [es[0]] && e1[..0] == [];
    assert ToMap(e1) == map["/a" := "/b"];
    assert ToMap(e2) == map["/a" := "/b", "/b" := "/c"];
    assert ToMap(e3) == map["/a" := "/b", "/b" := "/c", "/c" := "/d"];
    var m := ToMap(es);
    assert m == map["/a" := "/b", "/b" := "/c", "/c" := "/d", "/d" := "/e"];
    assert Follow(m, {"/a", "/b", "/c", "/d"}, "/e") == Ok("/e");
    assert Follow(m, {"/b", "/c", "/d"}, "/e") == Ok("/e");
    assert Follow(m, {"/c", "/d"}, "/e") == Ok("/e");
    assert Follow(m, {"/d"}, "/e") == Ok("/e");
    assert {} + {"/d"} == {"/d"} && {} + {"/c"} == {"/c"} && {} + {"/b"} == {"/b"} && {} + {"/a"} == {"/a"};
    assert {"/c"} + {"/d"} == {"/c", "/d"} && {"/b"} + {"/c"} == {"/b", "/c"} && {"/a"} + {"/b"} == {"/a", "/b"};
    assert {"/b", "/c"} + {"/d"} == {"/b", "/c", "/d"} && {"/a", "/b"} + {"/c"} == {"/a", "/b", "/c"};
    assert {"/a", "/b", "/c"} + {"/d"} == {"/a", "/b", "/c", "/d"};
    assert Follow(m, {"/a", "/b", "/c"}, "/d") == Ok("/e");
    assert Follow(m, {"/a", "/b"}, "/c") == Ok("/e");
    assert Follow(m, {"/a"}, "/b") == Ok("/e");
    assert Follow(m, {"/b", "/c"}, "/d") == Ok("/e");
    assert Follow(m, {"/b"}, "/c") == Ok("/e");
    assert Follow(m, {"/c"}, "/d") == Ok("/e");
    assert Follow(m, {}, "/d") == Ok("/e");
    assert Follow(m, {}, "/c") == Ok("/e");
    assert Follow(m, {}, "/b") == Ok("/e");
    assert Follow(m, {}, "/a") == Ok("/e");
    var r1, r2, r3 := [Entry("/a", "/e")], [Entry("/a", "/e"), Entry("/b", "/e")], [Entry("/a", "/e"), Entry("/b", "/e"), Entry("/c", "/e")];
    assert [] + r1 == r1 && r1 + [Entry("/b", "/e")] == r2 && r2 + [Entry("/c", "/e")] == r3;
    assert r3 + [Entry("/d", "/e")] == [Entry("/a", "/e"), Entry("/b", "/e"), Entry("/c", "/e"), Entry("/d", "/e")];
    assert ResolveWith(m, e1) == Ok(r1);
    assert ResolveWith(m, e2) == Ok(r2);
    assert ResolveWith(m, e3) == Ok(r3);
  }

  /** a -> b -> c -> a is a cycle. */
  lemma CycleDetected()
    ensures var es := [Entry("/a", "/b"), Entry("/b", "/c"), Entry("/c", "/a")];
      ResolveWith(ToMap(es), es) == Err(RedirectCycle("/a"))
  {
    var es := [Entry("/a", "/b"), Entry("/b", "/c"), Entry("/c", "/a")];
    var e1, e2 := es[..1], es[..2];
    assert e2 == [es[0], es[1]] && e2[..1] == e1;
    assert e1 == [es[0]] && e1[..0] == [];
    assert ToMap(e1) == map["/a" := "/b"];
    assert ToMap(e2) == map["/a" := "/b", "/b" := "/c"];
    var m := ToMap(es);
    assert m == map["/a" := "/b", "/b" := "/c", "/c" := "/a"];
    assert Follow(m, {"/a", "/b", "/c"}, "/a") == Err(RedirectCycle("/a"));
    assert Follow(m, {"/a", "/b"}, "/c") == Err(RedirectCycle("/a"));
    assert {"/a"} + {"/b"} == {"/a", "/b"} && {"/a", "/b"} + {"/c"} == {"/a", "/b", "/c"};
    assert Follow(m, {"/a"}, "/b") == Err(RedirectCycle("/a"));
    assert {} + {"/a"} == {"/a"};
    assert Follow(m, {}, "/a") == Err(RedirectCycle("/a"));
    assert ResolveWith(m, e1) == Err(RedirectCycle("/a"));
    ResolveErrPersists(m, es, 1);
  }

  /** x -> a, a -> b, b -> a: the error names the start key x, not the key a that is reached twice. */
  lemma CycleNamesStartKey()
    ensures var es := [Entry("/x", "/a"), Entry("/a", "/b"), Entry("/b", "/a")];
      ResolveWith(ToMap(es), es) == Err(RedirectCycle("/x"))
  {
    var es := [Entry("/x", "/a"), Entry("/a", "/b"), Entry("/b", "/a")];
    var e1, e2 := es[..1], es[..2];
    assert e2 == [es[0], es[1]] && e2[..1] == e1;
    assert e1 == [es[0]] && e1[..0] == [];
    assert ToMap(e1) == map["/x" := "/a"];
    assert ToMap(e2) == map["/x" := "/a", "/a" := "/b"];
    var m := ToMap(es);
    assert m == map["/x" := "/a", "/a" := "/b", "/b" := "/a"];
    assert Follow(m, {"/x", "/a", "/b"}, "/a") == Err(RedirectCycle("/a"));
    assert Follow(m, {"/x", "/a"}, "/b") == Err(RedirectCycle("/a"));
    assert {"/x"} + {"/a"} == {"/x", "/a"} && {"/x", "/a"} + {"/b"} == {"/x", "/a", "/b"};
    assert Follow(m, {"/x"}, "/a") == Err(RedirectCycle("/a"));
    assert {} + {"/x"} == {"/x"};
    assert Follow(m, {}, "/x").Err?;
    assert ResolveWith(m, e1) == Err(RedirectCycle("/x"));
    ResolveErrPersists(m, es, 1);
  }
}
