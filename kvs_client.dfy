/**
 * An abstract CloudFront KeyValueStore, standing for the three calls of the
 * `KVSClient` interface (kvs/sync.go): DescribeKeyValueStore, ListKeys and
 * UpdateKeys. The store keeps its contents, a version that its ETag
 * fingerprints, the listing it pages out, and a log of every UpdateKeys call
 * it received together with the answer it gave (like the test mock, which
 * records each call's sizes and IfMatch).
 *
 * Transport failures are not scripted: any call may fail, and every contract
 * below holds whichever way the remote decides.
 */
module KvsClient {
  import opened Wrappers
  import opened KvsTypes

  /** Why the remote refused a call. */
  datatype KvsError =
    | ResourceNotFound      // no store has the given ARN
    | PreconditionFailed    // IfMatch is not the current ETag
    | InvalidNextToken      // the token does not name a page of the listing
    | ServiceFailure        // any other failure (network, throttling, ...)

  /** One page of a ListKeys answer. */
  datatype KeyPage = KeyPage(items: seq<Entry>, nextToken: Option<nat>)

  /** One UpdateKeys request as the store received it, and its answer. */
  datatype UpdateRecord = UpdateRecord(
    kvsArn: string, ifMatch: ETag, puts: seq<Entry>, deletes: seq<string>, response: Result<ETag, KvsError>)

  /** The contents after a successful UpdateKeys: the puts written in order, then the deletes removed. */
  function ApplyUpdate(m: map<string, string>, puts: seq<Entry>, deletes: seq<string>): map<string, string>
  {
    (m + ToMap(puts)) - SetOf(deletes)
  }

  class KeyValueStore {
    const arn: string
    var contents: map<string, string>
    var version: nat
    /** The listing ListKeys pages out; page i answers the token i (page 0 answers no token). */
    var pages: seq<seq<Entry>>
    ghost var updates: seq<UpdateRecord>

    /** The listing always has a first page and lists exactly the contents. */
    ghost predicate Valid()
      reads this
    {
      |pages| >= 1 && ToMap(Flatten(pages)) == contents
    }

    /** The ETag of the current version. */
    function Tag(): ETag
      reads this
    {
      ETag(version)
    }

    constructor (arn0: string, pages0: seq<seq<Entry>>, version0: nat)
      requires |pages0| >= 1
      ensures Valid()
      ensures arn == arn0 && pages == pages0 && version == version0 && updates == []
    {
      arn := arn0;
      pages := pages0;
      version := version0;
      contents := ToMap(Flatten(pages0));
      updates := [];
    }

    /** DescribeKeyValueStore: the current ETag. */
    method Describe(kvsArn: string) returns (r: Result<ETag, KvsError>)
      ensures kvsArn != arn ==> r == Err(ResourceNotFound)
      ensures r.Ok? ==> r.value == Tag()
    {
      if kvsArn != arn {
        return Err(ResourceNotFound);
      }
      var fails: bool :| true;
      r := if fails then Err(ServiceFailure) else Ok(Tag());
    }

    /** ListKeys: the page the token names and the token of the page after it, if any. */
    method ListKeys(kvsArn: string, token: Option<nat>) returns (r: Result<KeyPage, KvsError>)
      ensures kvsArn != arn ==> r == Err(ResourceNotFound)
      ensures token.Some? && token.value >= |pages| ==> r.Err?
      ensures r.Ok? ==>
        var i := token.GetOr(0);
        i < |pages| && r.value.items == pages[i]
        && r.value.nextToken == (if i + 1 < |pages| then Some(i + 1) else None)
    {
      if kvsArn != arn {
        return Err(ResourceNotFound);
      }
      var i := token.GetOr(0);
      if i >= |pages| {
        return Err(InvalidNextToken);
      }
      var fails: bool :| true;
      r := if fails then Err(ServiceFailure)
        else Ok(KeyPage(pages[i], if i + 1 < |pages| then Some(i + 1) else None));
    }

    /**
     * UpdateKeys: a conditional batch write. It succeeds only when IfMatch is
     * the current ETag; a success applies the batch, moves to a new version
     * and answers its ETag.
     */
    method UpdateKeys(kvsArn: string, ifMatch: ETag, puts: seq<Entry>, deletes: seq<string>)
      returns (r: Result<ETag, KvsError>)
      requires Valid()
      modifies this
      ensures Valid()
      ensures updates == old(updates) + [UpdateRecord(kvsArn, ifMatch, puts, deletes, r)]
      ensures kvsArn != arn ==> r == Err(ResourceNotFound)
      ensures kvsArn == arn && ifMatch != old(Tag()) ==> r == Err(PreconditionFailed)
      ensures r.Ok? ==>
        kvsArn == arn && ifMatch == old(Tag())
        && contents == ApplyUpdate(old(contents), puts, deletes)
        && version == old(version) + 1 && r.value == Tag()
      ensures r.Err? ==> contents == old(contents) && version == old(version) && pages == old(pages)
    {
      if kvsArn != arn {
        r := Err(ResourceNotFound);
      } else if ifMatch != Tag() {
        r := Err(PreconditionFailed);
      } else {
        var fails: bool :| true;
        if fails {
          r := Err(ServiceFailure);
        } else {
          contents := ApplyUpdate(contents, puts, deletes);
          version := version + 1;
          var listing := EntriesOf(contents);
          assert [listing][..0] == [];
          assert Flatten([listing]) == listing;
          pages := [listing];
          r := Ok(Tag());
        }
      }
      updates := updates + [UpdateRecord(kvsArn, ifMatch, puts, deletes, r)];
    }
  }
}
