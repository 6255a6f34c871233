/**
 * Capacity validation of a Data set against the KeyValueStore limits, and
 * the size statistics reported to the operator.
 */
module KvsValidate {
  import opened KvsTypes
  import opened GoText
  import opened Strings

  const MaxKeyBytes: nat := 512
  /** Limit on key + value. */
  const MaxEntryBytes: nat := 1024
  /** 5 MB. */
  const MaxTotalBytes: nat := 5242880
  /** The key of the error that reports the total size. */
  const TotalKey: string := "(total)"

  /** A single constraint violation. */
  datatype ValidationError = ValidationError(key: string, message: string)

  /** Summary size information for a Data set. */
  datatype DataStats = DataStats(numKeys: nat, totalBytes: nat)

  function EntryBytes(e: Entry): nat
  {
    ByteLen(e.key) + ByteLen(e.value)
  }

  /** The summed key + value bytes of the entries. */
  function TotalBytes(entries: seq<Entry>): nat
  {
    if entries == [] then 0 else TotalBytes(entries[..|entries| - 1]) + EntryBytes(entries[|entries| - 1])
  }

  /** The fixed parts of the three messages, around the size found. */
  const KeyMessage: string := "key exceeds 512 bytes ("
  const EntryMessage: string := "key+value exceeds 1024 bytes ("
  const TotalMessage: string := "total data exceeds 5242880 bytes ("
  const BytesClose: string := " bytes)"

  function KeyTooLong(key: string, keySize: nat): ValidationError
  {
    ValidationError(key, KeyMessage + NatToString(keySize) + BytesClose)
  }

  function EntryTooLong(key: string, entrySize: nat): ValidationError
  {
    ValidationError(key, EntryMessage + NatToString(entrySize) + BytesClose)
  }

  function TotalTooLarge(totalSize: nat): ValidationError
  {
    ValidationError(TotalKey, TotalMessage + NatToString(totalSize) + BytesClose)
  }

  /** The errors the two per-entry checks report for one entry, key check first. */
  function EntryErrors(e: Entry): seq<ValidationError>
  {
    (if ByteLen(e.key) > MaxKeyBytes then [KeyTooLong(e.key, ByteLen(e.key))] else [])
    + (if EntryBytes(e) > MaxEntryBytes then [EntryTooLong(e.key, EntryBytes(e))] else [])
  }

  /** The per-entry errors of all entries, in entry order. */
  function PerEntryErrors(entries: seq<Entry>): seq<ValidationError>
  {
    if entries == [] then [] else PerEntryErrors(entries[..|entries| - 1]) + EntryErrors(entries[|entries| - 1])
  }

  /** Every violation of the limits, as `Validate` reports them. */
  function Violations(d: Data): seq<ValidationError>
  {
    var total := TotalBytes(d.entries);
    PerEntryErrors(d.entries) + (if total > MaxTotalBytes then [TotalTooLarge(total)] else [])
  }

  /** Data.Stats: the number of entries and their summed key + value bytes. */
  method Stats(d: Data) returns (stats: DataStats)
    ensures stats.numKeys == |d.entries|
    ensures stats.totalBytes == TotalBytes(d.entries)
  {
    var total := 0;
    for i := 0 to |d.entries|
      invariant total == TotalBytes(d.entries[..i])
    {
      var e := d.entries[i];
      assert d.entries[..i + 1][..i] == d.entries[..i];
      total := total + ByteLen(e.key) + ByteLen(e.value);
    }
    assert d.entries[..|d.entries|] == d.entries;
    stats := DataStats(|d.entries|, total);
  }

  /** Data.Validate: checks all KeyValueStore constraints; no errors means valid. */
  method Validate(d: Data) returns (errs: seq<ValidationError>)
    ensures errs == Violations(d)
  {
    errs := [];
    var totalSize := 0;
    for i := 0 to |d.entries|
      invariant errs == PerEntryErrors(d.entries[..i])
      invariant totalSize == TotalBytes(d.entries[..i])
    {
      var e := d.entries[i];
      var entryErrs, entrySize := CheckEntry(e);
      errs := errs + entryErrs;
      totalSize := totalSize + entrySize;
      PrefixStep(d.entries, i);
    }
    assert d.entries[..|d.entries|] == d.entries;
    if totalSize > MaxTotalBytes {
      errs := errs + [TotalTooLarge(totalSize)];
    }
  }

  /** The two checks Validate makes on one entry, key length first; also the entry's size. */
  method CheckEntry(e: Entry) returns (errs: seq<ValidationError>, entrySize: nat)
    ensures errs == EntryErrors(e)
    ensures entrySize == EntryBytes(e)
  {
    errs := [];
    var keySize := ByteLen(e.key);
    entrySize := keySize + ByteLen(e.value);
    if keySize > MaxKeyBytes {
      errs := errs + [KeyTooLong(e.key, keySize)];
    }
    if entrySize > MaxEntryBytes {
      errs := errs + [EntryTooLong(e.key, entrySize)];
    }
  }

  /** One more entry adds its own errors and bytes. */
  lemma PrefixStep(entries: seq<Entry>, i: nat)
    requires i < |entries|
    ensures PerEntryErrors(entries[..i + 1]) == PerEntryErrors(entries[..i]) + EntryErrors(entries[i])
    ensures TotalBytes(entries[..i + 1]) == TotalBytes(entries[..i]) + EntryBytes(entries[i])
  {
    assert entries[..i + 1][..i] == entries[..i];
  }

  /** Per-entry errors follow entry order: the errors of a + b are those of a, then those of b. */
  lemma {:induction false} PerEntryErrorsAppend(a: seq<Entry>, b: seq<Entry>)
    ensures PerEntryErrors(a + b) == PerEntryErrors(a) + PerEntryErrors(b)
    decreases |b|
  {
    if b == [] {
      assert a + b == a;
    } else {
      var b' := b[..|b| - 1];
      assert (a + b)[..|a + b| - 1] == a + b';
      PerEntryErrorsAppend(a, b');
    }
  }

  /** At most two errors per entry and one for the total. */
  lemma {:induction false} ViolationsBound(d: Data)
    ensures |Violations(d)| <= 2 * |d.entries| + 1
  {
    PerEntryErrorsBound(d.entries);
  }

  lemma {:induction false} PerEntryErrorsBound(entries: seq<Entry>)
    ensures |PerEntryErrors(entries)| <= 2 * |entries|
  {
    if entries != [] {
      PerEntryErrorsBound(entries[..|entries| - 1]);
    }
  }

  predicate WithinEntryLimits(e: Entry)
  {
    ByteLen(e.key) <= MaxKeyBytes && EntryBytes(e) <= MaxEntryBytes
  }

  /** Whether err is one of the errors the per-entry checks report for e. */
  predicate ReportedFor(e: Entry, err: ValidationError)
  {
    || (ByteLen(e.key) > MaxKeyBytes && err == KeyTooLong(e.key, ByteLen(e.key)))
    || (EntryBytes(e) > MaxEntryBytes && err == EntryTooLong(e.key, EntryBytes(e)))
  }

  lemma EntryErrorsMembership(e: Entry, err: ValidationError)
    ensures err in EntryErrors(e) <==> ReportedFor(e, err)
  {
  }

  /**
   * Which errors are reported: a key error exactly for each entry whose key is
   * over 512 bytes, an entry error exactly for each entry over 1024 bytes, and
   * the total error exactly when the sum exceeds 5,242,880 bytes.
   */
  lemma PerEntryErrorsMembership(entries: seq<Entry>, err: ValidationError)
    ensures err in PerEntryErrors(entries) <==> exists i :: 0 <= i < |entries| && ReportedFor(entries[i], err)
  {
    if err in PerEntryErrors(entries) {
      var i := ReportedAt(entries, err);
    } else {
      forall i | 0 <= i < |entries|
        ensures !ReportedFor(entries[i], err)
      {
        if ReportedFor(entries[i], err) {
          ReportedIn(entries, i, err);
        }
      }
    }
  }

  /** An error of the list is reported for one of its entries. */
  lemma {:induction false} ReportedAt(entries: seq<Entry>, err: ValidationError) returns (i: nat)
    requires err in PerEntryErrors(entries)
    ensures i < |entries| && ReportedFor(entries[i], err)
  {
    var n := |entries| - 1;
    assert PerEntryErrors(entries) == PerEntryErrors(entries[..n]) + EntryErrors(entries[n]);
    if err in EntryErrors(entries[n]) {
      EntryErrorsMembership(entries[n], err);
      i := n;
    } else {
      i := ReportedAt(entries[..n], err);
      assert entries[i] == entries[..n][i];
    }
  }

  /** An error reported for one entry is among the errors of the list. */
  lemma {:induction false} ReportedIn(entries: seq<Entry>, i: nat, err: ValidationError)
    requires i < |entries| && ReportedFor(entries[i], err)
    ensures err in PerEntryErrors(entries)
  {
    var n := |entries| - 1;
    assert PerEntryErrors(entries) == PerEntryErrors(entries[..n]) + EntryErrors(entries[n]);
    if i == n {
      EntryErrorsMembership(entries[n], err);
    } else {
      assert entries[..n][i] == entries[i];
      ReportedIn(entries[..n], i, err);
    }
  }

  /** No errors exactly when every entry and the total are within their limits. */
  lemma {:induction false} ValidIff(d: Data)
    ensures Violations(d) == [] <==>
      (forall i :: 0 <= i < |d.entries| ==> WithinEntryLimits(d.entries[i])) && TotalBytes(d.entries) <= MaxTotalBytes
  {
    var es := d.entries;
    if Violations(d) == [] {
      forall i | 0 <= i < |es|
        ensures WithinEntryLimits(es[i])
      {
        if !WithinEntryLimits(es[i]) {
          var err := if ByteLen(es[i].key) > MaxKeyBytes then KeyTooLong(es[i].key, ByteLen(es[i].key))
                     else EntryTooLong(es[i].key, EntryBytes(es[i]));
          PerEntryErrorsMembership(es, err);
          assert err in PerEntryErrors(es);
        }
      }
    } else if (forall i :: 0 <= i < |es| ==> WithinEntryLimits(es[i])) && TotalBytes(es) <= MaxTotalBytes {
      var err := Violations(d)[0];
      assert err in PerEntryErrors(es);
      PerEntryErrorsMembership(es, err);
    }
  }

  /** The total error is reported once, after every per-entry error, exactly when the total is over the limit. */
  lemma TotalErrorIsLast(d: Data)
    ensures TotalBytes(d.entries) > MaxTotalBytes <==>
      |Violations(d)| > |PerEntryErrors(d.entries)|
    ensures TotalBytes(d.entries) > MaxTotalBytes ==>
      Violations(d) == PerEntryErrors(d.entries) + [TotalTooLarge(TotalBytes(d.entries))]
  {
  }

  /** An oversized entry still counts toward the total. */
  lemma {:induction false} TotalBytesAppend(a: seq<Entry>, b: seq<Entry>)
    ensures TotalBytes(a + b) == TotalBytes(a) + TotalBytes(b)
    decreases |b|
  {
    if b == [] {
      assert a + b == a;
    } else {
      var b' := b[..|b| - 1];
      assert (a + b)[..|a + b| - 1] == a + b';
      TotalBytesAppend(a, b');
    }
  }

  /** A key of exactly 512 bytes with a value of 512 bytes passes (the limits are inclusive). */
  lemma ExactBoundariesPass()
    ensures Violations(Data([Entry(seq(512, _ => 'a'), seq(512, _ => 'b'))])) == []
  {
    var e := Entry(seq(512, _ => 'a'), seq(512, _ => 'b'));
    AsciiEncoding(e.key);
    AsciiEncoding(e.value);
    assert [e][..0] == [];
    assert PerEntryErrors([e]) == EntryErrors(e);
    assert EntryErrors(e) == [];
    assert TotalBytes([e]) == 1024;
  }

  /** A key of 513 bytes is reported as too long, with its size in the message. */
  lemma KeyOneByteOverFails()
    ensures var e := Entry(['/'] + seq(512, _ => 'a'), "/dest");
      Violations(Data([e])) == [KeyTooLong(e.key, 513)]
  {
    var e := Entry(['/'] + seq(512, _ => 'a'), "/dest");
    AsciiEncoding(e.key);
    AsciiEncoding(e.value);
    assert [e][..0] == [];
    assert PerEntryErrors([e]) == EntryErrors(e);
    assert EntryErrors(e) == [KeyTooLong(e.key, 513)];
    assert TotalBytes([e]) == 518;
  }
}
