/**
 * The directory dataset of package hugo: every directory strictly below the
 * output directory becomes an index redirect `/dir → /dir/`.
 *
 * The file system is given as inputs: what stat of the output directory
 * found, and the sequence of callbacks `filepath.WalkDir` makes, each naming
 * a walked path relative to the output directory (the root itself is ".")
 * and whether it is a directory, or reporting a walk error.
 */
module HugoDirectories {
  import opened Wrappers
  import opened KvsTypes
  import opened Strings

  /** What stat of the output directory found. */
  datatype RootStatus = StatFailed | NotADirectory | IsDirectory

  /** One callback of the walk: a visited path, or an error (from the walk itself or from filepath.Rel). */
  datatype WalkItem = Visit(rel: string, isDir: bool) | WalkFailure

  datatype ScanError = StatError | NotADirectoryError | WalkError

  /** filepath.ToSlash: every occurrence of the platform separator becomes '/'. */
  function ToSlash(path: string, separator: char): (r: string)
    ensures |r| == |path|
    ensures forall i :: 0 <= i < |path| ==> r[i] == (if path[i] == separator then '/' else path[i])
  {
    if path == [] then []
    else ToSlash(path[..|path| - 1], separator) + [if path[|path| - 1] == separator then '/' else path[|path| - 1]]
  }

  /** The URL path of a relative directory path: a leading '/' and forward slashes. */
  function UrlPath(rel: string, separator: char): string
  {
    "/" + ToSlash(rel, separator)
  }

  /** The index redirect of one directory. */
  function DirEntry(rel: string, separator: char): Entry
  {
    var urlPath := UrlPath(rel, separator);
    Entry(urlPath, urlPath + "/")
  }

  /** Whether a callback is for a directory other than the output directory itself. */
  predicate IsSubdirectory(item: WalkItem)
  {
    item.Visit? && item.isDir && item.rel != "."
  }

  /** The entries a failure-free walk produces, in walk order. */
  function DirEntries(walk: seq<WalkItem>, separator: char): seq<Entry>
  {
    if walk == [] then []
    else
      var last := walk[|walk| - 1];
      DirEntries(walk[..|walk| - 1], separator) + (if IsSubdirectory(last) then [DirEntry(last.rel, separator)] else [])
  }

  predicate HasFailure(walk: seq<WalkItem>)
  {
    exists i :: 0 <= i < |walk| && walk[i].WalkFailure?
  }

  /**
   * ScanDirectories: a stat failure or a non-directory is an error; the first
   * walk error ends the walk with an error and no entries; otherwise one entry
   * per subdirectory, in walk order.
   */
  method ScanDirectories(root: RootStatus, walk: seq<WalkItem>, separator: char)
    returns (r: Result<seq<Entry>, ScanError>)
    ensures root.StatFailed? ==> r == Err(StatError)
    ensures root.NotADirectory? ==> r == Err(NotADirectoryError)
    ensures root.IsDirectory? && HasFailure(walk) ==> r == Err(WalkError)
    ensures root.IsDirectory? && !HasFailure(walk) ==> r == Ok(DirEntries(walk, separator))
  {
    if root.StatFailed? {
      return Err(StatError);
    }
    if root.NotADirectory? {
      return Err(NotADirectoryError);
    }
    var entries: seq<Entry> := [];
    var i := 0;
    while i < |walk|
      invariant 0 <= i <= |walk|
      invariant !HasFailure(walk[..i])
      invariant entries == DirEntries(walk[..i], separator)
    {
      var item := walk[i];
      assert walk[..i + 1][..i] == walk[..i];
      if item.WalkFailure? {
        return Err(WalkError);
      }
      if item.isDir && item.rel != "." {
        var urlPath := "/" + ToSlash(item.rel, separator);
        entries := entries + [Entry(urlPath, urlPath + "/")];
      }
      i := i + 1;
    }
    assert walk[..i] == walk;
    return Ok(entries);
  }

  /** Entries keep the order of the walk: a longer walk only appends. */
  lemma {:induction false} DirEntriesAppend(a: seq<WalkItem>, b: seq<WalkItem>, separator: char)
    ensures DirEntries(a + b, separator) == DirEntries(a, separator) + DirEntries(b, separator)
    decreases |b|
  {
    if b == [] {
      assert a + b == a;
    } else {
      var b' := b[..|b| - 1];
      assert (a + b)[..|a + b| - 1] == a + b';
      DirEntriesAppend(a, b', separator);
    }
  }

  /** An entry is produced exactly for each subdirectory the walk visits. */
  lemma {:induction false} DirEntriesMembership(walk: seq<WalkItem>, separator: char, e: Entry)
    ensures e in DirEntries(walk, separator) <==>
      exists i :: 0 <= i < |walk| && IsSubdirectory(walk[i]) && e == DirEntry(walk[i].rel, separator)
  {
    if walk != [] {
      var init := walk[..|walk| - 1];
      DirEntriesMembership(init, separator, e);
      assert forall i :: 0 <= i < |init| ==> init[i] == walk[i];
      if e in DirEntries(walk, separator) && e !in DirEntries(init, separator) {
        assert IsSubdirectory(walk[|walk| - 1]);
      }
    }
  }

  /** One entry per subdirectory visit. */
  lemma {:induction false} DirEntriesCount(walk: seq<WalkItem>, separator: char)
    ensures |DirEntries(walk, separator)| == |set i | 0 <= i < |walk| && IsSubdirectory(walk[i])|
  {
    if walk != [] {
      var n := |walk| - 1;
      DirEntriesCount(walk[..n], separator);
      var before := set i | 0 <= i < n && IsSubdirectory(walk[..n][i]);
      var now := set i | 0 <= i < |walk| && IsSubdirectory(walk[i]);
      assert before == set i | 0 <= i < n && IsSubdirectory(walk[i]);
      if IsSubdirectory(walk[n]) {
        assert now == before + {n};
      } else {
        assert now == before;
      }
    }
  }

  /** Every entry redirects its key to the key with a trailing slash, and every key is an absolute URL path. */
  lemma {:induction false} DirEntryShape(walk: seq<WalkItem>, separator: char)
    ensures forall e :: e in DirEntries(walk, separator) ==>
      e.value == e.key + "/" && StartsWith(e.key, "/") && (separator != '/' ==> separator !in e.key)
  {
    forall e | e in DirEntries(walk, separator)
      ensures e.value == e.key + "/" && StartsWith(e.key, "/") && (separator != '/' ==> separator !in e.key)
    {
      DirEntriesMembership(walk, separator, e);
      var i :| 0 <= i < |walk| && IsSubdirectory(walk[i]) && e == DirEntry(walk[i].rel, separator);
      var t := ToSlash(walk[i].rel, separator);
      assert e.key == "/" + t;
      assert forall j :: 0 <= j < |e.key| ==> e.key[j] == if j == 0 then '/' else t[j - 1];
    }
  }

  /** Regular files add nothing to the dataset. */
  lemma FileAddsNothing(walk: seq<WalkItem>, rel: string, separator: char)
    ensures DirEntries(walk + [Visit(rel, false)], separator) == DirEntries(walk, separator)
  {
    assert (walk + [Visit(rel, false)])[..|walk|] == walk;
  }

  /** The output directory itself adds nothing to the dataset. */
  lemma RootAddsNothing(walk: seq<WalkItem>, separator: char)
    ensures DirEntries(walk + [Visit(".", true)], separator) == DirEntries(walk, separator)
  {
    assert (walk + [Visit(".", true)])[..|walk|] == walk;
  }

  /** An empty output directory, whose walk visits only the root, yields no entries. */
  lemma EmptyTree(separator: char)
    ensures DirEntries([Visit(".", true)], separator) == []
  {
    RootAddsNothing([], separator);
    assert [] + [Visit(".", true)] == [Visit(".", true)];
  }

  /** A nested directory gets its own entry beside its parent's: /blog and /blog/2024. */
  lemma NestedDirectories()
    ensures DirEntries([Visit(".", true), Visit("blog", true), Visit("blog/2024", true), Visit("blog/index.html", false)], '/')
      == [Entry("/blog", "/blog/"), Entry("/blog/2024", "/blog/2024/")]
  {
    var w0: seq<WalkItem> := [Visit(".", true)];
    var w1 := w0 + [Visit("blog", true)];
    var w2 := w1 + [Visit("blog/2024", true)];
    var w3 := w2 + [Visit("blog/index.html", false)];
    var e1 := Entry("/blog", "/blog/");
    var e2 := Entry("/blog/2024", "/blog/2024/");
    EmptyTree('/');
    assert DirEntries(w1, '/') == [e1] by {
      SubdirectoryAdds(w0, "blog", '/');
      SlashDirEntry("blog");
      assert "/" + "blog" == "/blog" && "/blog" + "/" == "/blog/";
    }
    assert DirEntries(w2, '/') == [e1] + [e2] by {
      SubdirectoryAdds(w1, "blog/2024", '/');
      SlashDirEntry("blog/2024");
      assert "/" + "blog/2024" == "/blog/2024" && "/blog/2024" + "/" == "/blog/2024/";
    }
    FileAddsNothing(w2, "blog/index.html", '/');
    assert w3 == [Visit(".", true), Visit("blog", true), Visit("blog/2024", true), Visit("blog/index.html", false)];
    assert [e1] + [e2] == [e1, e2];
  }

  /** With '/' as the separator a path is already in URL form. */
  lemma SlashDirEntry(rel: string)
    ensures DirEntry(rel, '/') == Entry("/" + rel, "/" + rel + "/")
  {
    assert ToSlash(rel, '/') == rel;
  }

  /** A subdirectory other than the root appends its own entry. */
  lemma SubdirectoryAdds(walk: seq<WalkItem>, rel: string, separator: char)
    requires rel != "."
    ensures DirEntries(walk + [Visit(rel, true)], separator) == DirEntries(walk, separator) + [DirEntry(rel, separator)]
  {
    assert (walk + [Visit(rel, true)])[..|walk|] == walk;
  }

  /** With a backslash separator, the relative path blog\2024 still becomes /blog/2024. */
  lemma BackslashSeparator()
    ensures DirEntry("blog\\2024", '\\') == Entry("/blog/2024", "/blog/2024/")
  {
    assert ToSlash("blog\\2024", '\\') == "blog/2024";
  }
}
