/**
 * Reconciliation of one KeyValueStore (kvs/sync.go): the diff of desired
 * entries against the live contents, the paginated fetch of those contents,
 * and the conditional batched write that applies the diff.
 */
module KvsSync {
  import opened Wrappers
  import opened KvsTypes
  import opened KvsClient

  // ---------------------------------------------------------------------
  // ComputeSyncPlan
  // ---------------------------------------------------------------------

  /** An entry must be written when its key is missing from the store or holds another value. */
  predicate NeedsPut(e: Entry, existing: map<string, string>)
  {
    e.key !in existing || existing[e.key] != e.value
  }

  /** The desired entries that need a put, in desired order. */
  function PlannedPuts(desired: seq<Entry>, existing: map<string, string>): seq<Entry>
  {
    if desired == [] then []
    else
      var e := desired[|desired| - 1];
      PlannedPuts(desired[..|desired| - 1], existing) + (if NeedsPut(e, existing) then [e] else [])
  }

  /**
   * What ComputeSyncPlan promises of its plan: the puts are the planned puts,
   * and the deletes list every existing key the desired data lacks, each once.
   */
  ghost predicate IsPlanFor(plan: SyncPlan, desired: Data, existing: map<string, string>)
  {
    plan.puts == PlannedPuts(desired.entries, existing)
    && Distinct(plan.deletes)
    && SetOf(plan.deletes) == existing.Keys - KeysOf(desired.entries)
  }

  /** ComputeSyncPlan: the puts and deletes that bring the store from existing to desired. */
  method ComputeSyncPlan(desired: Data, existing: map<string, string>) returns (plan: SyncPlan)
    ensures IsPlanFor(plan, desired, existing)
  {
    var es := desired.entries;
    var desiredMap: map<string, string> := map[];
    for i := 0 to |es|
      invariant desiredMap == ToMap(es[..i])
    {
      assert es[..i + 1][..i] == es[..i];
      desiredMap := desiredMap[es[i].key := es[i].value];
    }
    assert es[..|es|] == es;
    ToMapKeys(es);

    var puts: seq<Entry> := [];
    for i := 0 to |es|
      invariant puts == PlannedPuts(es[..i], existing)
    {
      assert es[..i + 1][..i] == es[..i];
      var e := es[i];
      if e.key !in existing || existing[e.key] != e.value {
        puts := puts + [e];
      }
    }

    var deletes: seq<string> := [];
    var rest := existing.Keys;
    while rest != {}
      invariant rest <= existing.Keys
      invariant Distinct(deletes)
      invariant SetOf(deletes) == (existing.Keys - rest) - KeysOf(es)
      decreases rest
    {
      var key :| key in rest;
      ghost var deletes0 := deletes;
      if key !in desiredMap {
        deletes := deletes + [key];
      }
      DeleteStep(deletes0, deletes, key, existing.Keys, rest, KeysOf(es));
      rest := rest - {key};
    }
    plan := SyncPlan(puts, deletes);
  }

  /**
   * One key taken from rest: it is listed for deletion exactly when the desired
   * data lacks it, and the list stays free of repeats.
   */
  lemma DeleteStep(deletes0: seq<string>, deletes: seq<string>, key: string,
                   keys: set<string>, rest: set<string>, wanted: set<string>)
    requires key in rest && rest <= keys
    requires Distinct(deletes0) && SetOf(deletes0) == (keys - rest) - wanted
    requires deletes == if key in wanted then deletes0 else deletes0 + [key]
    ensures Distinct(deletes) && SetOf(deletes) == (keys - (rest - {key})) - wanted
  {
    if key !in wanted {
      SetOfSnoc(deletes0, key);
      assert forall i :: 0 <= i < |deletes0| ==> deletes0[i] in SetOf(deletes0);
    }
  }

  /** The puts are exactly the desired entries that are new or changed. */
  lemma {:induction false} PlannedPutsMembership(desired: seq<Entry>, existing: map<string, string>, e: Entry)
    ensures e in PlannedPuts(desired, existing) <==> e in desired && NeedsPut(e, existing)
  {
    if desired != [] {
      var init := desired[..|desired| - 1];
      PlannedPutsMembership(init, existing, e);
      assert desired == init + [desired[|desired| - 1]];
    }
  }

  /** Every put's key is a desired key. */
  lemma {:induction false} PlannedPutsKeys(desired: seq<Entry>, existing: map<string, string>)
    ensures KeysOf(PlannedPuts(desired, existing)) <= KeysOf(desired)
  {
    if desired != [] {
      var init := desired[..|desired| - 1];
      var e := desired[|desired| - 1];
      PlannedPutsKeys(init, existing);
      KeysOfAppend(PlannedPuts(init, existing), if NeedsPut(e, existing) then [e] else []);
      assert desired == init + [e];
      KeysOfAppend(init, [e]);
    }
  }

  lemma OverrideAssoc(a: map<string, string>, b: map<string, string>, c: map<string, string>)
    ensures a + (b + c) == (a + b) + c
  {
  }

  lemma SetOfEmpty(keys: seq<string>)
    ensures SetOf(keys) == {} ==> keys == []
  {
    if keys != [] {
      assert keys[0] in SetOf(keys);
    }
  }

  /**
   * Writing the puts over the existing contents has the effect of writing
   * every desired entry, when the desired keys are unique.
   */
  lemma {:induction false} PutsOverExisting(desired: seq<Entry>, existing: map<string, string>)
    requires UniqueKeys(desired)
    ensures existing + ToMap(PlannedPuts(desired, existing)) == existing + ToMap(desired)
  {
    if desired != [] {
      var init := desired[..|desired| - 1];
      var e := desired[|desired| - 1];
      var tail := if NeedsPut(e, existing) then [e] else [];
      var p := PlannedPuts(init, existing);
      var a := existing + ToMap(init);
      assert UniqueKeys(init);
      calc {
        existing + ToMap(PlannedPuts(desired, existing));
        existing + ToMap(p + tail);
        { ToMapAppend(p, tail); }
        existing + (ToMap(p) + ToMap(tail));
        { OverrideAssoc(existing, ToMap(p), ToMap(tail)); }
        (existing + ToMap(p)) + ToMap(tail);
        { PutsOverExisting(init, existing); }
        a + ToMap(tail);
        { TailStep(init, existing, e); }
        a[e.key := e.value];
        { OverrideUpdate(existing, ToMap(init), e.key, e.value); }
        existing + ToMap(init)[e.key := e.value];
        existing + ToMap(desired);
      }
    }
  }

  /** Writing the last desired entry, or skipping it when the store already holds it, has the same effect. */
  lemma TailStep(init: seq<Entry>, existing: map<string, string>, e: Entry)
    requires forall i :: 0 <= i < |init| ==> init[i].key != e.key
    ensures (existing + ToMap(init)) + ToMap(if NeedsPut(e, existing) then [e] else [])
      == (existing + ToMap(init))[e.key := e.value]
  {
    var a := existing + ToMap(init);
    if NeedsPut(e, existing) {
      assert ToMap([e]) == map[e.key := e.value] by {
        assert [e][..0] == [];
      }
    } else {
      assert ToMap([]) == map[];
      assert e.key !in ToMap(init) by {
        ToMapKeys(init);
        assert e.key !in KeysOf(init);
      }
      assert a[e.key := e.value] == a;
    }
  }

  lemma OverrideUpdate(a: map<string, string>, b: map<string, string>, k: string, v: string)
    ensures a + b[k := v] == (a + b)[k := v]
  {
  }

  /**
   * A plan "brings the store to the desired state": with unique desired keys,
   * applying its puts and deletes to the existing contents yields exactly the
   * key→value map of the desired entries.
   */
  lemma PlanReachesDesired(plan: SyncPlan, desired: Data, existing: map<string, string>)
    requires IsPlanFor(plan, desired, existing) && UniqueKeys(desired.entries)
    ensures ApplyUpdate(existing, plan.puts, plan.deletes) == ToMap(desired.entries)
  {
    PutsOverExisting(desired.entries, existing);
    ToMapKeys(desired.entries);
    var want := ToMap(desired.entries);
    assert (existing + want) - (existing.Keys - want.Keys) == want;
  }

  /**
   * The plan is empty exactly when the store already holds the desired map;
   * in particular a desired set compared with its own applied state plans nothing.
   */
  lemma PlanEmptyIff(plan: SyncPlan, desired: Data, existing: map<string, string>)
    requires IsPlanFor(plan, desired, existing) && UniqueKeys(desired.entries)
    ensures (plan.puts == [] && plan.deletes == []) <==> existing == ToMap(desired.entries)
  {
    if plan.puts == [] && plan.deletes == [] {
      EmptyPlanMeansInSync(plan, desired, existing);
    }
    if existing == ToMap(desired.entries) {
      InSyncMeansEmptyPlan(plan, desired, existing);
    }
  }

  lemma EmptyPlanMeansInSync(plan: SyncPlan, desired: Data, existing: map<string, string>)
    requires IsPlanFor(plan, desired, existing) && UniqueKeys(desired.entries)
    requires plan.puts == [] && plan.deletes == []
    ensures existing == ToMap(desired.entries)
  {
    assert ApplyUpdate(existing, [], []) == existing by {
      assert ToMap([]) == map[] && SetOf([]) == {};
    }
    PlanReachesDesired(plan, desired, existing);
  }

  lemma InSyncMeansEmptyPlan(plan: SyncPlan, desired: Data, existing: map<string, string>)
    requires IsPlanFor(plan, desired, existing) && UniqueKeys(desired.entries)
    requires existing == ToMap(desired.entries)
    ensures plan.puts == [] && plan.deletes == []
  {
    var es := desired.entries;
    if plan.puts != [] {
      var e := plan.puts[0];
      PlannedPutsMembership(es, existing, e);
      var i :| 0 <= i < |es| && es[i] == e;
      ToMapUnique(es, i);
      assert false;
    }
    ToMapKeys(es);
    SetOfEmpty(plan.deletes);
  }

  // ---------------------------------------------------------------------
  // FetchExistingKeys
  // ---------------------------------------------------------------------

  datatype FetchError =
    | DescribeFailed(cause: KvsError)   // "describing KVS: ..."
    | ListFailed(cause: KvsError)       // "listing KVS keys: ..."

  /**
   * FetchExistingKeys: the ETag from DescribeKeyValueStore, then every key and
   * value of every ListKeys page, following NextToken until it is absent.
   */
  method FetchExistingKeys(client: KeyValueStore, kvsArn: string)
    returns (r: Result<(map<string, string>, ETag), FetchError>)
    requires client.Valid()
    ensures kvsArn != client.arn ==> r == Err(DescribeFailed(ResourceNotFound))
    ensures r.Ok? ==> r.value.0 == client.contents && r.value.1 == client.Tag()
  {
    var desc := client.Describe(kvsArn);
    if desc.Err? {
      return Err(DescribeFailed(desc.error));
    }
    var etag := desc.value;

    var existing: map<string, string> := map[];
    var nextToken: Option<nat> := None;
    ghost var seen: nat := 0;
    while true
      invariant seen < |client.pages|
      invariant nextToken == (if seen == 0 then None else Some(seen))
      invariant existing == ToMap(Flatten(client.pages[..seen]))
      decreases |client.pages| - seen
    {
      var resp := client.ListKeys(kvsArn, nextToken);
      if resp.Err? {
        return Err(ListFailed(resp.error));
      }
      var items := resp.value.items;
      ghost var before := Flatten(client.pages[..seen]);
      assert before + items[..0] == before;
      for j := 0 to |items|
        invariant existing == ToMap(before + items[..j])
      {
        ToMapSnocPrefix(before, items, j);
        existing := existing[items[j].key := items[j].value];
      }
      PageStep(client.pages, seen);
      nextToken := resp.value.nextToken;
      seen := seen + 1;
      if nextToken.None? {
        break;
      }
    }
    assert client.pages[..seen] == client.pages;
    return Ok((existing, etag));
  }

  lemma ToMapSnocPrefix(before: seq<Entry>, items: seq<Entry>, j: nat)
    requires j < |items|
    ensures ToMap(before + items[..j + 1]) == ToMap(before + items[..j])[items[j].key := items[j].value]
  {
    assert (before + items[..j + 1])[..|before| + j] == before + items[..j];
  }

  /** The listing up to page seen, then that page's items, is the listing up to the next page. */
  lemma PageStep(pages: seq<seq<Entry>>, seen: nat)
    requires seen < |pages|
    ensures Flatten(pages[..seen]) + pages[seen][..|pages[seen]|] == Flatten(pages[..seen + 1])
  {
    assert pages[seen][..|pages[seen]|] == pages[seen];
    assert pages[..seen + 1][..seen] == pages[..seen];
  }

  // ---------------------------------------------------------------------
  // Sync
  // ---------------------------------------------------------------------

  /** The most items (puts and deletes together) one UpdateKeys call may carry. */
  const MaxKeysPerBatch: nat := 50

  /** The puts and deletes of one UpdateKeys call. */
  datatype Batch = Batch(puts: seq<Entry>, deletes: seq<string>)

  function Size(b: Batch): nat
  {
    |b.puts| + |b.deletes|
  }

  function Min(a: nat, b: nat): nat
  {
    if a <= b then a else b
  }

  /**
   * The batches of a plan: each takes as many of the remaining puts as fit,
   * in order, then fills what capacity is left with the remaining deletes.
   */
  function Batches(puts: seq<Entry>, deletes: seq<string>): seq<Batch>
    decreases |puts| + |deletes|
  {
    if |puts| + |deletes| == 0 then []
    else
      var np := Min(|puts|, MaxKeysPerBatch);
      var nd := Min(|deletes|, MaxKeysPerBatch - np);
      [Batch(puts[..np], deletes[..nd])] + Batches(puts[np..], deletes[nd..])
  }

  /** The puts of the batches, concatenated. */
  function AllPuts(bs: seq<Batch>): seq<Entry>
  {
    if bs == [] then [] else bs[0].puts + AllPuts(bs[1..])
  }

  /** The deletes of the batches, concatenated. */
  function AllDeletes(bs: seq<Batch>): seq<string>
  {
    if bs == [] then [] else bs[0].deletes + AllDeletes(bs[1..])
  }

  /** The store contents after the batches succeed one after the other. */
  function ApplyBatches(m: map<string, string>, bs: seq<Batch>): map<string, string>
  {
    if bs == [] then m
    else
      var last := bs[|bs| - 1];
      ApplyUpdate(ApplyBatches(m, bs[..|bs| - 1]), last.puts, last.deletes)
  }

  /** Sync's error: which batch failed, how many puts and deletes had been sent by then, and why. */
  datatype SyncError = UpdateFailed(batch: nat, putsSent: nat, deletesSent: nat, cause: KvsError)

  /**
   * The UpdateKeys calls of one sync, as the store logged them: the calls
   * send the batches in order to the given store, the first is conditional on
   * the given ETag and each later one on the ETag the previous call returned.
   */
  predicate Chained(prev: UpdateRecord, next: UpdateRecord)
  {
    prev.response.Ok? && next.ifMatch == prev.response.value
  }

  ghost predicate ChainedWrites(log: seq<UpdateRecord>, kvsArn: string, etag: ETag, bs: seq<Batch>)
  {
    |log| <= |bs|
    && (forall i :: 0 <= i < |log| ==> log[i].kvsArn == kvsArn && log[i].puts == bs[i].puts && log[i].deletes == bs[i].deletes)
    && (|log| > 0 ==> log[0].ifMatch == etag)
    && (forall i :: 0 <= i < |log| - 1 ==> Chained(log[i], log[i + 1]))
  }

  /**
   * How a sync that sent the batches bs ended, in terms of the UpdateKeys
   * calls it made (log) and the store contents before and after: the calls
   * are chained writes of the batches; a success sent every batch and every
   * call succeeded, so all batches are applied; a failure is the answer to the
   * last call made, reported with that batch's index and the number of puts
   * and deletes sent up to and including it, and the batches before it stay
   * applied.
   */
  ghost predicate SyncOutcome(log: seq<UpdateRecord>, kvsArn: string, etag: ETag, bs: seq<Batch>,
                              r: Outcome<SyncError>, before: map<string, string>, after: map<string, string>)
  {
    ChainedWrites(log, kvsArn, etag, bs)
    && (r.Pass? ==>
          |log| == |bs| && (forall i :: 0 <= i < |log| ==> log[i].response.Ok?)
          && after == ApplyBatches(before, bs))
    && (r.Fail? ==>
          |log| > 0 && log[|log| - 1].response.Err?
          && r.error == UpdateFailed(|log| - 1, |AllPuts(bs[..|log|])|, |AllDeletes(bs[..|log|])|,
                                     log[|log| - 1].response.error)
          && after == ApplyBatches(before, bs[..|log| - 1]))
  }

  /**
   * A sync seen from the store: the calls it made were appended to the log the
   * store had before (updates0), and they and the contents they left behave
   * as SyncOutcome says.
   */
  ghost predicate SyncEffect(updates0: seq<UpdateRecord>, updates: seq<UpdateRecord>, kvsArn: string, etag: ETag,
                             bs: seq<Batch>, r: Outcome<SyncError>, before: map<string, string>, after: map<string, string>)
  {
    |updates0| <= |updates| && updates[..|updates0|] == updates0
    && SyncOutcome(updates[|updates0|..], kvsArn, etag, bs, r, before, after)
  }

  /**
   * Sync, batched: an empty plan makes no call; otherwise the plan's batches
   * are sent one after the other.
   */
  method Sync(client: KeyValueStore, kvsArn: string, etag: ETag, plan: SyncPlan) returns (r: Outcome<SyncError>)
    requires client.Valid()
    modifies client
    ensures client.Valid()
    ensures SyncEffect(old(client.updates), client.updates, kvsArn, etag, Batches(plan.puts, plan.deletes),
                       r, old(client.contents), client.contents)
  {
    if |plan.puts| == 0 && |plan.deletes| == 0 {
      assert client.updates[|client.updates|..] == [];
      PassOutcome([], kvsArn, etag, [], client.contents);
      return Pass;
    }
    var batches := Batches(plan.puts, plan.deletes);
    r := SendBatches(client, kvsArn, etag, batches);
  }

  /**
   * The batch loop of Sync: each batch is one UpdateKeys call conditional on
   * the ETag the previous call returned (the given ETag for the first); the
   * first failure stops the loop.
   */
  method SendBatches(client: KeyValueStore, kvsArn: string, etag: ETag, batches: seq<Batch>)
    returns (r: Outcome<SyncError>)
    requires client.Valid()
    modifies client
    ensures client.Valid()
    ensures SyncEffect(old(client.updates), client.updates, kvsArn, etag, batches,
                       r, old(client.contents), client.contents)
  {
    ghost var c0 := client.contents;
    ghost var u0 := client.updates;
    var tag := etag;
    var putsSent: nat, deletesSent: nat := 0, 0;
    ghost var log: seq<UpdateRecord> := [];
    SentStart(kvsArn, etag, batches, c0);
    assert client.updates == u0 + log;
    r := Pass;
    var i := 0;
    while i < |batches| && r.Pass?
      invariant i <= |batches|
      invariant client.Valid()
      invariant client.updates == u0 + log
      invariant r.Pass? ==> SentBatches(log, kvsArn, etag, batches, i, tag, putsSent, deletesSent, c0, client.contents)
      invariant r.Fail? ==> SyncEffect(u0, client.updates, kvsArn, etag, batches, r, c0, client.contents)
      decreases |batches| - i, r.Pass?
    {
      var batch := batches[i];
      ghost var now := client.contents;
      var resp := client.UpdateKeys(kvsArn, tag, batch.puts, batch.deletes);
      ghost var rec := UpdateRecord(kvsArn, tag, batch.puts, batch.deletes, resp);
      if resp.Err? {
        SentFail(u0, log, rec, kvsArn, etag, batches, i, tag, putsSent, deletesSent, c0, now);
        r := Fail(UpdateFailed(i, putsSent + |batch.puts|, deletesSent + |batch.deletes|, resp.error));
      } else {
        SentOk(log, rec, kvsArn, etag, batches, i, tag, putsSent, deletesSent, c0, now);
        tag := resp.value;
        i := i + 1;
      }
      LogAppend(u0, log, rec);
      log := log + [rec];
      putsSent, deletesSent := putsSent + |batch.puts|, deletesSent + |batch.deletes|;
    }
    if r.Pass? {
      SentAll(u0, log, kvsArn, etag, batches, tag, putsSent, deletesSent, c0, client.contents);
    }
  }

  lemma LogAppend(u0: seq<UpdateRecord>, log: seq<UpdateRecord>, rec: UpdateRecord)
    ensures u0 + log + [rec] == u0 + (log + [rec])
  {
  }

  /**
   * What the batch loop knows after i calls that all succeeded: the calls are
   * chained writes of the first i batches, tag is the ETag to send next, the
   * counters hold the puts and deletes sent, and the store holds the first i
   * batches applied.
   */
  ghost predicate SentBatches(log: seq<UpdateRecord>, kvsArn: string, etag: ETag, bs: seq<Batch>, i: nat,
                              tag: ETag, putsSent: nat, deletesSent: nat,
                              before: map<string, string>, now: map<string, string>)
  {
    |log| == i <= |bs|
    && ChainedWrites(log, kvsArn, etag, bs)
    && (i == 0 ==> tag == etag)
    && (i > 0 ==> log[i - 1].response == Ok(tag))
    && putsSent == |AllPuts(bs[..i])| && deletesSent == |AllDeletes(bs[..i])|
    && now == ApplyBatches(before, bs[..i])
  }

  /** Before the first call nothing is sent and the store is as it was. */
  lemma SentStart(kvsArn: string, etag: ETag, bs: seq<Batch>, m: map<string, string>)
    ensures SentBatches([], kvsArn, etag, bs, 0, etag, 0, 0, m, m)
  {
    assert bs[..0] == [];
  }

  /** A successful call sending batch i, conditional on tag, extends the loop's facts by one batch. */
  lemma SentOk(log: seq<UpdateRecord>, rec: UpdateRecord, kvsArn: string, etag: ETag, bs: seq<Batch>, i: nat,
               tag: ETag, putsSent: nat, deletesSent: nat, before: map<string, string>, now: map<string, string>)
    requires SentBatches(log, kvsArn, etag, bs, i, tag, putsSent, deletesSent, before, now) && i < |bs|
    requires rec.kvsArn == kvsArn && rec.ifMatch == tag && rec.puts == bs[i].puts && rec.deletes == bs[i].deletes
    requires rec.response.Ok?
    ensures SentBatches(log + [rec], kvsArn, etag, bs, i + 1, rec.response.value,
                        putsSent + |bs[i].puts|, deletesSent + |bs[i].deletes|,
                        before, ApplyUpdate(now, bs[i].puts, bs[i].deletes))
  {
    ChainOk(log, kvsArn, etag, bs);
    SyncStep(log, rec, kvsArn, etag, bs, bs[i]);
    assert (log + [rec])[i] == rec;
    assert ApplyBatches(before, bs[..i + 1]) == ApplyUpdate(now, bs[i].puts, bs[i].deletes) by {
      assert bs[..i + 1] == bs[..i] + [bs[i]];
      ApplyBatchesSnoc(before, bs[..i], bs[i]);
    }
  }

  /** A failed call sending batch i ends the sync with that batch's failure, the earlier batches applied. */
  lemma SentFail(u0: seq<UpdateRecord>, log: seq<UpdateRecord>, rec: UpdateRecord, kvsArn: string, etag: ETag, bs: seq<Batch>, i: nat,
                 tag: ETag, putsSent: nat, deletesSent: nat, before: map<string, string>, now: map<string, string>)
    requires SentBatches(log, kvsArn, etag, bs, i, tag, putsSent, deletesSent, before, now) && i < |bs|
    requires rec.kvsArn == kvsArn && rec.ifMatch == tag && rec.puts == bs[i].puts && rec.deletes == bs[i].deletes
    requires rec.response.Err?
    ensures SyncEffect(u0, u0 + log + [rec], kvsArn, etag, bs,
                       Fail(UpdateFailed(i, putsSent + |bs[i].puts|, deletesSent + |bs[i].deletes|, rec.response.error)),
                       before, now)
  {
    assert (u0 + log + [rec])[..|u0|] == u0 && (u0 + log + [rec])[|u0|..] == log + [rec];
    ChainOk(log, kvsArn, etag, bs);
    SyncStep(log, rec, kvsArn, etag, bs, bs[i]);
    FailOutcome(log + [rec], kvsArn, etag, bs,
                Fail(UpdateFailed(i, putsSent + |bs[i].puts|, deletesSent + |bs[i].deletes|, rec.response.error)),
                before, now);
  }

  /** After every batch went through, the sync succeeded with all of them applied. */
  lemma SentAll(u0: seq<UpdateRecord>, log: seq<UpdateRecord>, kvsArn: string, etag: ETag, bs: seq<Batch>,
                tag: ETag, putsSent: nat, deletesSent: nat, before: map<string, string>, now: map<string, string>)
    requires SentBatches(log, kvsArn, etag, bs, |bs|, tag, putsSent, deletesSent, before, now)
    ensures SyncEffect(u0, u0 + log, kvsArn, etag, bs, Pass, before, now)
  {
    assert (u0 + log)[..|u0|] == u0 && (u0 + log)[|u0|..] == log;
    assert bs[..|bs|] == bs;
    ChainOk(log, kvsArn, etag, bs);
    PassOutcome(log, kvsArn, etag, bs, before);
  }

  /** In a chain every call but the last succeeded; so all did when the last one did. */
  lemma ChainOk(log: seq<UpdateRecord>, kvsArn: string, etag: ETag, bs: seq<Batch>)
    requires ChainedWrites(log, kvsArn, etag, bs)
    requires |log| > 0 ==> log[|log| - 1].response.Ok?
    ensures forall k :: 0 <= k < |log| ==> log[k].response.Ok?
  {
    forall k | 0 <= k < |log| - 1
      ensures log[k].response.Ok?
    {
      assert Chained(log[k], log[k + 1]);
    }
  }

  lemma PassOutcome(log: seq<UpdateRecord>, kvsArn: string, etag: ETag, bs: seq<Batch>, before: map<string, string>)
    requires ChainedWrites(log, kvsArn, etag, bs) && |log| == |bs|
    requires forall i :: 0 <= i < |log| ==> log[i].response.Ok?
    ensures SyncOutcome(log, kvsArn, etag, bs, Pass, before, ApplyBatches(before, bs))
  {
  }

  lemma FailOutcome(log: seq<UpdateRecord>, kvsArn: string, etag: ETag, bs: seq<Batch>,
                    r: Outcome<SyncError>, before: map<string, string>, after: map<string, string>)
    requires ChainedWrites(log, kvsArn, etag, bs) && |log| > 0 && log[|log| - 1].response.Err?
    requires r == Fail(UpdateFailed(|log| - 1, |AllPuts(bs[..|log|])|, |AllDeletes(bs[..|log|])|,
                                    log[|log| - 1].response.error))
    requires after == ApplyBatches(before, bs[..|log| - 1])
    ensures SyncOutcome(log, kvsArn, etag, bs, r, before, after)
  {
  }

  /** What one more UpdateKeys call adds to the facts the Sync loop keeps. */
  lemma SyncStep(log: seq<UpdateRecord>, rec: UpdateRecord, kvsArn: string, etag: ETag,
                 bs: seq<Batch>, batch: Batch)
    requires ChainedWrites(log, kvsArn, etag, bs) && |log| < |bs| && bs[|log|] == batch
    requires forall i :: 0 <= i < |log| ==> log[i].response.Ok?
    requires rec.kvsArn == kvsArn && rec.puts == batch.puts && rec.deletes == batch.deletes
    requires log == [] ==> rec.ifMatch == etag
    requires log != [] ==> log[|log| - 1].response == Ok(rec.ifMatch)
    ensures ChainedWrites(log + [rec], kvsArn, etag, bs)
    ensures |AllPuts(bs[..|log| + 1])| == |AllPuts(bs[..|log|])| + |batch.puts|
    ensures |AllDeletes(bs[..|log| + 1])| == |AllDeletes(bs[..|log|])| + |batch.deletes|
  {
    assert bs[..|log| + 1] == bs[..|log|] + [batch];
    AllSnoc(bs[..|log|], batch);
  }

  lemma ApplyBatchesSnoc(m: map<string, string>, sent: seq<Batch>, b: Batch)
    ensures ApplyBatches(m, sent + [b]) == ApplyUpdate(ApplyBatches(m, sent), b.puts, b.deletes)
  {
    assert (sent + [b])[..|sent|] == sent;
  }

  lemma {:induction false} AllPutsAppend(a: seq<Batch>, b: seq<Batch>)
    ensures AllPuts(a + b) == AllPuts(a) + AllPuts(b)
    ensures AllDeletes(a + b) == AllDeletes(a) + AllDeletes(b)
  {
    if a == [] {
      assert a + b == b;
    } else {
      assert (a + b)[1..] == a[1..] + b;
      AllPutsAppend(a[1..], b);
    }
  }

  lemma AllSnoc(sent: seq<Batch>, b: Batch)
    ensures AllPuts(sent + [b]) == AllPuts(sent) + b.puts
    ensures AllDeletes(sent + [b]) == AllDeletes(sent) + b.deletes
  {
    AllPutsAppend(sent, [b]);
    assert [b][1..] == [];
  }

  // ---------------------------------------------------------------------
  // Properties of the batching
  // ---------------------------------------------------------------------

  /** Every batch carries at least one and at most 50 items, and every batch but the last is full. */
  lemma {:induction false} BatchSizes(puts: seq<Entry>, deletes: seq<string>)
    ensures forall i :: 0 <= i < |Batches(puts, deletes)| ==> 1 <= Size(Batches(puts, deletes)[i]) <= MaxKeysPerBatch
    ensures forall i :: 0 <= i < |Batches(puts, deletes)| - 1 ==> Size(Batches(puts, deletes)[i]) == MaxKeysPerBatch
    decreases |puts| + |deletes|
  {
    if |puts| + |deletes| > 0 {
      var np := Min(|puts|, MaxKeysPerBatch);
      var nd := Min(|deletes|, MaxKeysPerBatch - np);
      var rest := Batches(puts[np..], deletes[nd..]);
      BatchSizes(puts[np..], deletes[nd..]);
      var bs := Batches(puts, deletes);
      assert bs == [Batch(puts[..np], deletes[..nd])] + rest;
      assert forall i :: 1 <= i < |bs| ==> bs[i] == rest[i - 1];
      if rest != [] {
        assert Size(bs[0]) == MaxKeysPerBatch;
      }
    }
  }

  /** The batches send every put and every delete once, in plan order. */
  lemma {:induction false} BatchesCover(puts: seq<Entry>, deletes: seq<string>)
    ensures AllPuts(Batches(puts, deletes)) == puts
    ensures AllDeletes(Batches(puts, deletes)) == deletes
    decreases |puts| + |deletes|
  {
    if |puts| + |deletes| > 0 {
      var np := Min(|puts|, MaxKeysPerBatch);
      var nd := Min(|deletes|, MaxKeysPerBatch - np);
      var bs := Batches(puts, deletes);
      BatchesCover(puts[np..], deletes[nd..]);
      assert bs[1..] == Batches(puts[np..], deletes[nd..]);
      assert puts == puts[..np] + puts[np..];
      assert deletes == deletes[..nd] + deletes[nd..];
    } else {
      assert puts == [] && deletes == [];
    }
  }

  /** Once there are no puts left, no batch carries a put. */
  lemma {:induction false} BatchesOfDeletes(deletes: seq<string>)
    ensures forall i :: 0 <= i < |Batches([], deletes)| ==> Batches([], deletes)[i].puts == []
    decreases |deletes|
  {
    if |deletes| > 0 {
      var nd := Min(|deletes|, MaxKeysPerBatch);
      var bs := Batches([], deletes);
      var none: seq<Entry> := [];
      assert none[0..] == none;
      var rest := Batches([], deletes[nd..]);
      assert bs == [Batch([], deletes[..nd])] + rest;
      BatchesOfDeletes(deletes[nd..]);
      assert forall i :: 1 <= i < |bs| ==> bs[i] == rest[i - 1];
    }
  }

  /**
   * Puts come first: a batch with fewer than 50 puts has taken the last of
   * them, so no later batch carries a put and deletes fill the rest.
   */
  lemma {:induction false} PutsFirst(puts: seq<Entry>, deletes: seq<string>)
    ensures forall i, j ::
      0 <= i < j < |Batches(puts, deletes)| && |Batches(puts, deletes)[i].puts| < MaxKeysPerBatch ==>
      Batches(puts, deletes)[j].puts == []
    decreases |puts| + |deletes|
  {
    if |puts| + |deletes| > 0 {
      var np := Min(|puts|, MaxKeysPerBatch);
      var nd := Min(|deletes|, MaxKeysPerBatch - np);
      var bs := Batches(puts, deletes);
      var rest := Batches(puts[np..], deletes[nd..]);
      assert bs == [Batch(puts[..np], deletes[..nd])] + rest;
      assert forall i :: 1 <= i < |bs| ==> bs[i] == rest[i - 1];
      PutsFirst(puts[np..], deletes[nd..]);
      if np < MaxKeysPerBatch {
        assert puts[np..] == [];
        BatchesOfDeletes(deletes[nd..]);
      }
    }
  }

  /** A plan of at most 50 items is one batch: exactly the single call that sync.go makes. */
  lemma SmallPlanIsSingleCall(plan: SyncPlan)
    requires |plan.puts| + |plan.deletes| <= MaxKeysPerBatch
    ensures Batches(plan.puts, plan.deletes) == SingleCall(plan)
  {
    if |plan.puts| + |plan.deletes| > 0 {
      var bs := Batches(plan.puts, plan.deletes);
      assert plan.puts[..|plan.puts|] == plan.puts && plan.puts[|plan.puts|..] == [];
      assert plan.deletes[..|plan.deletes|] == plan.deletes && plan.deletes[|plan.deletes|..] == [];
    }
  }

  /** 50 items make one call, 51 make two (50, then 1). */
  lemma FiftyOneItemsTwoBatches(puts: seq<Entry>, deletes: seq<string>)
    requires |puts| + |deletes| == MaxKeysPerBatch + 1
    ensures |Batches(puts, deletes)| == 2
    ensures Size(Batches(puts, deletes)[0]) == 50 && Size(Batches(puts, deletes)[1]) == 1
  {
    var np := Min(|puts|, MaxKeysPerBatch);
    var nd := Min(|deletes|, MaxKeysPerBatch - np);
    assert np + nd == MaxKeysPerBatch;
    var p1, d1 := puts[np..], deletes[nd..];
    assert |p1| + |d1| == 1;
    var np1 := Min(|p1|, MaxKeysPerBatch);
    var nd1 := Min(|d1|, MaxKeysPerBatch - np1);
    assert np1 + nd1 == 1;
    assert |p1[np1..]| + |d1[nd1..]| == 0;
    assert Batches(p1[np1..], d1[nd1..]) == [];
    var second := Batch(p1[..np1], d1[..nd1]);
    assert Batches(p1, d1) == [second];
    assert Batches(puts, deletes) == [Batch(puts[..np], deletes[..nd])] + Batches(p1, d1);
  }

  /** 125 puts make three calls of 50, 50 and 25 puts. */
  lemma HundredTwentyFivePuts(puts: seq<Entry>)
    requires |puts| == 125
    ensures var bs := Batches(puts, []);
      |bs| == 3 && |bs[0].puts| == 50 && |bs[1].puts| == 50 && |bs[2].puts| == 25
      && bs[0].deletes == [] && bs[1].deletes == [] && bs[2].deletes == []
  {
    var e: seq<string> := [];
    assert e[0..] == e && e[..0] == e;
    var p1 := puts[50..];
    var p2 := p1[50..];
    assert |p2| == 25 && p2[..25] == p2 && p2[25..] == [];
    assert Batches(p2, []) == [Batch(p2[..25], e[..0])] + Batches(p2[25..], e[0..]);
    assert Batches(p1, []) == [Batch(p1[..50], [])] + Batches(p2, []);
    assert Batches(puts, []) == [Batch(puts[..50], [])] + Batches(p1, []);
  }

  /** 30 puts and 30 deletes make a call of 30 puts and 20 deletes, then one of the 10 other deletes. */
  lemma ThirtyPutsThirtyDeletes(puts: seq<Entry>, deletes: seq<string>)
    requires |puts| == 30 && |deletes| == 30
    ensures Batches(puts, deletes) == [Batch(puts, deletes[..20]), Batch([], deletes[20..])]
  {
    var d1 := deletes[20..];
    assert puts[..30] == puts && puts[30..] == [];
    var none: seq<Entry> := [];
    assert none[..0] == none && none[0..] == none;
    assert d1[..10] == d1 && d1[10..] == [];
    assert Batches(none, d1) == [Batch(none, d1)];
  }

  /**
   * Applying the batches one after the other has the effect of the whole
   * plan, provided no key is both put and deleted.
   */
  lemma {:induction false} BatchesApplyPlan(m: map<string, string>, puts: seq<Entry>, deletes: seq<string>)
    requires KeysOf(puts) !! SetOf(deletes)
    ensures ApplyBatches(m, Batches(puts, deletes)) == ApplyUpdate(m, puts, deletes)
    decreases |puts| + |deletes|
  {
    if |puts| + |deletes| == 0 {
      assert puts == [] && deletes == [];
      assert ToMap([]) == map[] && SetOf([]) == {};
      assert ApplyUpdate(m, puts, deletes) == m;
    } else {
      var np := Min(|puts|, MaxKeysPerBatch);
      var nd := Min(|deletes|, MaxKeysPerBatch - np);
      var b := Batch(puts[..np], deletes[..nd]);
      var p1, d1 := puts[np..], deletes[nd..];
      assert puts == b.puts + p1 && deletes == b.deletes + d1;
      KeysOfAppend(b.puts, p1);
      SetOfAppend(b.deletes, d1);
      BatchesApplyPlan(ApplyUpdate(m, b.puts, b.deletes), p1, d1);
      ApplyBatchesCons(m, b, Batches(p1, d1));
      ApplyUpdateCompose(m, b.puts, b.deletes, p1, d1);
    }
  }

  lemma {:induction false} ApplyBatchesCons(m: map<string, string>, b: Batch, bs: seq<Batch>)
    ensures ApplyBatches(m, [b] + bs) == ApplyBatches(ApplyUpdate(m, b.puts, b.deletes), bs)
    decreases |bs|
  {
    if bs == [] {
      assert [b] + bs == [b];
      assert [b][..0] == [];
    } else {
      var init := bs[..|bs| - 1];
      assert ([b] + bs)[..|[b] + bs| - 1] == [b] + init;
      ApplyBatchesCons(m, b, init);
    }
  }

  /** Two updates in a row are one update with both lists, when the second writes no key the first deleted. */
  lemma ApplyUpdateCompose(m: map<string, string>, p0: seq<Entry>, d0: seq<string>, p1: seq<Entry>, d1: seq<string>)
    requires KeysOf(p1) !! SetOf(d0)
    ensures ApplyUpdate(ApplyUpdate(m, p0, d0), p1, d1) == ApplyUpdate(m, p0 + p1, d0 + d1)
  {
    ToMapAppend(p0, p1);
    SetOfAppend(d0, d1);
    ToMapKeys(p1);
    OverrideAssoc(m, ToMap(p0), ToMap(p1));
    RemoveThenOverride(m + ToMap(p0), ToMap(p1), SetOf(d0), SetOf(d1));
  }

  /** Removing d0 and then writing b, when b writes no key of d0, is writing b first and removing afterwards. */
  lemma RemoveThenOverride(x: map<string, string>, b: map<string, string>, d0: set<string>, d1: set<string>)
    requires b.Keys !! d0
    ensures ((x - d0) + b) - d1 == (x + b) - (d0 + d1)
  {
    var l, r := ((x - d0) + b) - d1, (x + b) - (d0 + d1);
    assert l.Keys == r.Keys;
    forall k | k in l.Keys
      ensures l[k] == r[k]
    {
      if k in b {
        assert l[k] == b[k] == r[k];
      }
    }
  }

  /**
   * The whole reconciliation: for unique desired keys, sending all batches of
   * the plan for the fetched contents leaves the store holding exactly the
   * desired map.
   */
  lemma SyncReachesDesired(plan: SyncPlan, desired: Data, existing: map<string, string>)
    requires IsPlanFor(plan, desired, existing) && UniqueKeys(desired.entries)
    ensures ApplyBatches(existing, Batches(plan.puts, plan.deletes)) == ToMap(desired.entries)
  {
    PlannedPutsKeys(desired.entries, existing);
    BatchesApplyPlan(existing, plan.puts, plan.deletes);
    PlanReachesDesired(plan, desired, existing);
  }

  // ---------------------------------------------------------------------
  // Sync as sync.go writes it
  // ---------------------------------------------------------------------

  /** The calls sync.go makes: none for an empty plan, otherwise one with the whole plan. */
  function SingleCall(plan: SyncPlan): seq<Batch>
  {
    if |plan.puts| + |plan.deletes| == 0 then [] else [Batch(plan.puts, plan.deletes)]
  }

  /** Sync as written in sync.go: the whole plan in one UpdateKeys call conditional on the given ETag. */
  method SyncAsWritten(client: KeyValueStore, kvsArn: string, etag: ETag, plan: SyncPlan) returns (r: Outcome<SyncError>)
    requires client.Valid()
    modifies client
    ensures client.Valid()
    ensures SyncEffect(old(client.updates), client.updates, kvsArn, etag, SingleCall(plan),
                       r, old(client.contents), client.contents)
  {
    ghost var u0 := client.updates;
    ghost var c0 := client.contents;
    if |plan.puts| == 0 && |plan.deletes| == 0 {
      assert client.updates[|u0|..] == [];
      PassOutcome([], kvsArn, etag, [], c0);
      return Pass;
    }
    var resp := client.UpdateKeys(kvsArn, etag, plan.puts, plan.deletes);
    ghost var rec := UpdateRecord(kvsArn, etag, plan.puts, plan.deletes, resp);
    if resp.Err? {
      SingleCallFail(u0, kvsArn, etag, plan, rec, c0);
      return Fail(UpdateFailed(0, |plan.puts|, |plan.deletes|, resp.error));
    }
    SingleCallPass(u0, kvsArn, etag, plan, rec, c0);
    r := Pass;
  }

  /** The one call of sync.go failed: the sync fails with batch 0 and the whole plan counted as sent. */
  lemma SingleCallFail(u0: seq<UpdateRecord>, kvsArn: string, etag: ETag, plan: SyncPlan, rec: UpdateRecord, c0: map<string, string>)
    requires |plan.puts| + |plan.deletes| > 0
    requires rec.kvsArn == kvsArn && rec.ifMatch == etag && rec.puts == plan.puts && rec.deletes == plan.deletes
    requires rec.response.Err?
    ensures SyncEffect(u0, u0 + [rec], kvsArn, etag, SingleCall(plan),
                       Fail(UpdateFailed(0, |plan.puts|, |plan.deletes|, rec.response.error)), c0, c0)
  {
    var bs := SingleCall(plan);
    SentStart(kvsArn, etag, bs, c0);
    assert u0 + [] == u0;
    SentFail(u0, [], rec, kvsArn, etag, bs, 0, etag, 0, 0, c0, c0);
  }

  /** The one call of sync.go succeeded: the sync passes with the whole plan applied. */
  lemma SingleCallPass(u0: seq<UpdateRecord>, kvsArn: string, etag: ETag, plan: SyncPlan, rec: UpdateRecord, c0: map<string, string>)
    requires |plan.puts| + |plan.deletes| > 0
    requires rec.kvsArn == kvsArn && rec.ifMatch == etag && rec.puts == plan.puts && rec.deletes == plan.deletes
    requires rec.response.Ok?
    ensures SyncEffect(u0, u0 + [rec], kvsArn, etag, SingleCall(plan), Pass, c0, ApplyUpdate(c0, plan.puts, plan.deletes))
  {
    var bs := SingleCall(plan);
    SentStart(kvsArn, etag, bs, c0);
    SentOk([], rec, kvsArn, etag, bs, 0, etag, 0, 0, c0, c0);
    assert [] + [rec] == [rec];
    SentAll(u0, [rec], kvsArn, etag, bs, rec.response.value, |plan.puts|, |plan.deletes|, c0, ApplyUpdate(c0, plan.puts, plan.deletes));
  }

  /**
   * The discrepancy: for a plan of more than 50 items, sync.go sends one call
   * carrying all of them, where the batching sends a first call of exactly 50.
   */
  lemma SingleCallOverLimit(plan: SyncPlan)
    requires |plan.puts| + |plan.deletes| > MaxKeysPerBatch
    ensures |SingleCall(plan)| == 1 && Size(SingleCall(plan)[0]) > MaxKeysPerBatch
    ensures SingleCall(plan) != Batches(plan.puts, plan.deletes)
  {
    BatchSizes(plan.puts, plan.deletes);
    var bs := Batches(plan.puts, plan.deletes);
    assert |bs| > 0;
    assert Size(bs[0]) <= MaxKeysPerBatch;
  }

  /** With 125 puts, sync.go makes one call of 125 items where the tests expect three. */
  lemma HundredTwentyFivePutsAsWritten(puts: seq<Entry>)
    requires |puts| == 125
    ensures SingleCall(SyncPlan(puts, [])) == [Batch(puts, [])]
    ensures |Batches(puts, [])| == 3
  {
    HundredTwentyFivePuts(puts);
  }
}
