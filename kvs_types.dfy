/**
 * The entities of package kvs: an Entry destined for a CloudFront
 * KeyValueStore, the Data set of one store, and the SyncPlan that brings a
 * store to its desired state; plus the key→value view of an entry list.
 */
module KvsTypes {

  /** A single key-value pair destined for a KeyValueStore. */
  datatype Entry = Entry(key: string, value: string)

  /** All entries for a single KeyValueStore. */
  datatype Data = Data(entries: seq<Entry>)

  /** What a sync must do: keys to add or update, and keys to remove. */
  datatype SyncPlan = SyncPlan(puts: seq<Entry>, deletes: seq<string>)

  /**
   * An opaque optimistic-concurrency token. The model represents it by the
   * version of the resource it fingerprints.
   */
  datatype ETag = ETag(version: nat)

  function KeysOf(entries: seq<Entry>): set<string>
  {
    set i | 0 <= i < |entries| :: entries[i].key
  }

  predicate UniqueKeys(entries: seq<Entry>)
  {
    forall i, j :: 0 <= i < j < |entries| ==> entries[i].key != entries[j].key
  }

  predicate Distinct(keys: seq<string>)
  {
    forall i, j :: 0 <= i < j < |keys| ==> keys[i] != keys[j]
  }

  /** The map that writing the entries in order into an empty map produces: the last entry for a key wins. */
  function ToMap(entries: seq<Entry>): map<string, string>
  {
    if entries == [] then map[]
    else
      var last := entries[|entries| - 1];
      ToMap(entries[..|entries| - 1])[last.key := last.value]
  }

  /** The keys of ToMap are the keys of the entries. */
  lemma {:induction false} ToMapKeys(entries: seq<Entry>)
    ensures ToMap(entries).Keys == KeysOf(entries)
  {
    if entries != [] {
      var init := entries[..|entries| - 1];
      ToMapKeys(init);
      assert entries == init + [entries[|entries| - 1]];
      KeysOfSnoc(init, entries[|entries| - 1]);
    }
  }

  /** The value ToMap keeps for a key is that of the last entry with the key. */
  lemma {:induction false} ToMapLastWins(entries: seq<Entry>, i: nat)
    requires i < |entries|
    requires forall j :: i < j < |entries| ==> entries[j].key != entries[i].key
    ensures entries[i].key in ToMap(entries) && ToMap(entries)[entries[i].key] == entries[i].value
  {
    if i < |entries| - 1 {
      var init := entries[..|entries| - 1];
      ToMapLastWins(init, i);
    }
  }

  /** With unique keys, ToMap maps every key to the value of its only entry. */
  lemma ToMapUnique(entries: seq<Entry>, i: nat)
    requires UniqueKeys(entries) && i < |entries|
    ensures entries[i].key in ToMap(entries) && ToMap(entries)[entries[i].key] == entries[i].value
  {
    ToMapLastWins(entries, i);
  }

  /** Writing a then b is writing a, then overwriting with b. */
  lemma {:induction false} ToMapAppend(a: seq<Entry>, b: seq<Entry>)
    ensures ToMap(a + b) == ToMap(a) + ToMap(b)
    decreases |b|
  {
    if b == [] {
      assert a + b == a;
    } else {
      var b' := b[..|b| - 1];
      assert (a + b)[..|a + b| - 1] == a + b';
      ToMapAppend(a, b');
    }
  }

  /** The concatenation of a sequence of pages. */
  function Flatten(pages: seq<seq<Entry>>): seq<Entry>
  {
    if pages == [] then [] else Flatten(pages[..|pages| - 1]) + pages[|pages| - 1]
  }

  lemma KeysOfSnoc(es: seq<Entry>, e: Entry)
    ensures KeysOf(es + [e]) == KeysOf(es) + {e.key}
  {
    assert forall i :: 0 <= i < |es| ==> (es + [e])[i] == es[i];
    assert (es + [e])[|es|] == e;
  }

  /** The set of keys listed in a key sequence. */
  function SetOf(keys: seq<string>): set<string>
  {
    set i | 0 <= i < |keys| :: keys[i]
  }

  lemma SetOfSnoc(keys: seq<string>, k: string)
    ensures SetOf(keys + [k]) == SetOf(keys) + {k}
  {
    assert forall i :: 0 <= i < |keys| ==> (keys + [k])[i] == keys[i];
    assert (keys + [k])[|keys|] == k;
  }

  lemma SetOfAppend(a: seq<string>, b: seq<string>)
    ensures SetOf(a + b) == SetOf(a) + SetOf(b)
  {
    assert forall i :: 0 <= i < |a| ==> (a + b)[i] == a[i];
    assert forall i :: 0 <= i < |b| ==> (a + b)[|a| + i] == b[i];
    forall k | k in SetOf(a + b) ensures k in SetOf(a) + SetOf(b) {
      var i :| 0 <= i < |a + b| && (a + b)[i] == k;
      if i >= |a| { assert b[i - |a|] == k; }
    }
  }

  lemma KeysOfAppend(a: seq<Entry>, b: seq<Entry>)
    ensures KeysOf(a + b) == KeysOf(a) + KeysOf(b)
  {
    assert forall i :: 0 <= i < |a| ==> (a + b)[i] == a[i];
    assert forall i :: 0 <= i < |b| ==> (a + b)[|a| + i] == b[i];
    forall k | k in KeysOf(a + b) ensures k in KeysOf(a) + KeysOf(b) {
      var i :| 0 <= i < |a + b| && (a + b)[i].key == k;
      if i >= |a| { assert b[i - |a|].key == k; }
    }
  }

  /**
   * The entries of a map, one per key, in the unspecified order of Go's
   * `for k, v := range m` (the order is any order the choice below picks).
   */
  method EntriesOf(m: map<string, string>) returns (es: seq<Entry>)
    ensures UniqueKeys(es) && |es| == |m|
    ensures ToMap(es) == m
  {
    es := [];
    var rest := m.Keys;
    while rest != {}
      invariant rest <= m.Keys
      invariant ToMap(es) == m - rest
      invariant UniqueKeys(es)
      invariant |es| + |rest| == |m.Keys|
      decreases rest
    {
      var k :| k in rest;
      EntriesOfStep(m, rest, es, k);
      es := es + [Entry(k, m[k])];
      rest := rest - {k};
    }
    assert m - {} == m;
    assert |m.Keys| == |m|;
  }

  lemma EntriesOfStep(m: map<string, string>, rest: set<string>, es: seq<Entry>, k: string)
    requires rest <= m.Keys && k in rest
    requires ToMap(es) == m - rest && UniqueKeys(es)
    ensures ToMap(es + [Entry(k, m[k])]) == m - (rest - {k})
    ensures UniqueKeys(es + [Entry(k, m[k])])
  {
    var e := Entry(k, m[k]);
    assert (es + [e])[..|es|] == es;
    ToMapKeys(es);
    assert k !in KeysOf(es);
    assert forall i :: 0 <= i < |es| ==> es[i].key in KeysOf(es);
    assert (m - rest)[k := m[k]] == m - (rest - {k});
  }
}
