/**
 * CloudFront Function deployment (package functions, deploy.go): resolving a
 * KeyValueStore name to its ARN through the paginated store listing, and the
 * describe / create-or-update / publish sequence threaded by ETag.
 *
 * Both remotes are classes with a ghost log of the calls they received. Any
 * call may fail with a service failure; every contract holds whichever way
 * the remote decides.
 */
module FunctionsDeploy {
  import opened Wrappers
  import opened KvsTypes
  import opened GoText
  import opened Strings

  // ---------------------------------------------------------------------
  // ResolveKVSARN
  // ---------------------------------------------------------------------

  /** One item of a ListKeyValueStores answer; either field may be nil. */
  datatype StoreSummary = StoreSummary(name: Option<string>, arn: Option<string>)

  /** The KeyValueStoreList of an answer: a page of items and the marker of the next page, if any. */
  datatype StoreList = StoreList(items: seq<StoreSummary>, nextMarker: Option<nat>)

  datatype ListingError = ListingServiceFailure | InvalidMarker

  datatype ResolveError = ListingFailed(cause: ListingError) | StoreNotFound(kvsName: string)

  /** The remote's side of ListKeyValueStores. */
  class StoreLister {
    /**
     * The listing: page i answers the marker i (page 0 answers no marker).
     * A page that is None is an answer without a KeyValueStoreList.
     */
    const pages: seq<Option<seq<StoreSummary>>>
    /** The markers requested, in order. */
    ghost var requests: seq<Option<nat>>
    /** The answers given, in the same order. */
    ghost var answers: seq<Result<Option<StoreList>, ListingError>>

    /** The listing has a first page. */
    ghost predicate Valid()
      reads this
    {
      |pages| >= 1
    }

    constructor (pages0: seq<Option<seq<StoreSummary>>>)
      requires |pages0| >= 1
      ensures Valid() && pages == pages0 && requests == [] && answers == []
    {
      pages := pages0;
      requests := [];
      answers := [];
    }

    /** ListKeyValueStores: the page the marker names, with the marker of the page after it. */
    method ListKeyValueStores(marker: Option<nat>) returns (r: Result<Option<StoreList>, ListingError>)
      modifies this
      ensures requests == old(requests) + [marker]
      ensures answers == old(answers) + [r]
      ensures marker.GetOr(0) >= |pages| ==> r == Err(InvalidMarker)
      ensures marker.GetOr(0) < |pages| && r.Err? ==> r.error == ListingServiceFailure
      ensures r.Ok? ==>
        var i := marker.GetOr(0);
        i < |pages| && r.value == PageAnswer(pages, i)
    {
      requests := requests + [marker];
      var i := marker.GetOr(0);
      if i >= |pages| {
        r := Err(InvalidMarker);
      } else {
        var fails: bool :| true;
        r := if fails then Err(ListingServiceFailure) else Ok(PageAnswer(pages, i));
      }
      answers := answers + [r];
    }
  }

  /** What the remote answers for page i. */
  function PageAnswer(pages: seq<Option<seq<StoreSummary>>>, i: nat): Option<StoreList>
    requires i < |pages|
  {
    if pages[i].None? then None
    else Some(StoreList(pages[i].value, if i + 1 < |pages| then Some(i + 1) else None))
  }

  /** The marker that asks for page i. */
  function MarkerOf(i: nat): Option<nat>
  {
    if i == 0 then None else Some(i)
  }

  /** The requests for pages 0 .. n-1, in order. */
  function MarkersUpTo(n: nat): (ms: seq<Option<nat>>)
    ensures |ms| == n && forall i :: 0 <= i < n ==> ms[i] == MarkerOf(i)
  {
    if n == 0 then [] else MarkersUpTo(n - 1) + [MarkerOf(n - 1)]
  }

  /** The marker ResolveKVSARN sends next, as written: an answer without a list leaves it as it was. */
  function NextMarkerAsWritten(marker: Option<nat>, answer: Option<StoreList>): Option<nat>
  {
    if answer.Some? then answer.value.nextMarker else marker
  }

  /** The marker after the request for the given marker, as written, when the call succeeds and nothing matches. */
  function StepAsWritten(pages: seq<Option<seq<StoreSummary>>>, marker: Option<nat>): (next: Option<nat>)
    requires marker.GetOr(0) < |pages|
    ensures next.GetOr(0) < |pages|
  {
    NextMarkerAsWritten(marker, PageAnswer(pages, marker.GetOr(0)))
  }

  /** The marker after n such requests, as written. */
  function IterateAsWritten(pages: seq<Option<seq<StoreSummary>>>, marker: Option<nat>, n: nat): (m: Option<nat>)
    requires marker.GetOr(0) < |pages|
    ensures m.GetOr(0) < |pages|
    decreases n
  {
    if n == 0 then marker else IterateAsWritten(pages, StepAsWritten(pages, marker), n - 1)
  }

  /**
   * As written, a page after the first that answers without a list is
   * requested again and again: the marker never becomes nil, so the loop
   * never ends.
   */
  lemma {:induction false} MissingListLoopsAsWritten(pages: seq<Option<seq<StoreSummary>>>, i: nat, n: nat)
    requires 0 < i < |pages| && pages[i].None?
    ensures IterateAsWritten(pages, MarkerOf(i), n) == Some(i)
  {
    if n > 0 {
      assert StepAsWritten(pages, MarkerOf(i)) == MarkerOf(i);
      MissingListLoopsAsWritten(pages, i, n - 1);
    }
  }

  /** The marker sent next, corrected: an answer without a list ends the listing. */
  function NextMarker(answer: Option<StoreList>): Option<nat>
  {
    if answer.Some? then answer.value.nextMarker else None
  }

  /** Corrected, every request moves on to the next page or ends the listing, so each page is asked for at most once. */
  lemma NextMarkerAdvances(pages: seq<Option<seq<StoreSummary>>>, i: nat)
    requires i < |pages|
    ensures var m := NextMarker(PageAnswer(pages, i));
      m == None || (i + 1 < |pages| && m == MarkerOf(i + 1))
    ensures pages[i].None? ==> NextMarker(PageAnswer(pages, i)) == None
  {
  }

  /**
   * How many pages the corrected loop reads when nothing fails and nothing
   * matches: up to and including the first page without a list, or all.
   */
  function Reached(pages: seq<Option<seq<StoreSummary>>>): (n: nat)
    ensures n <= |pages| && (pages != [] ==> n >= 1)
    ensures forall i :: 0 <= i < n - 1 ==> pages[i].Some?
    ensures n < |pages| ==> n >= 1 && pages[n - 1].None?
  {
    if pages == [] then 0
    else if pages[0].None? then 1
    else
      var k := Reached(pages[1..]);
      assert forall i :: 1 <= i < k + 1 ==> pages[i] == pages[1..][i - 1];
      k + 1
  }

  /** Whether a listed item is the store sought: its name is kvsName exactly and it has an ARN. */
  predicate IsMatch(item: StoreSummary, kvsName: string)
  {
    item.name == Some(kvsName) && item.arn.Some?
  }

  /** The ARN of the first matching item. */
  function FirstMatch(items: seq<StoreSummary>, kvsName: string): Option<string>
  {
    if items == [] then None
    else if IsMatch(items[0], kvsName) then Some(items[0].arn.value)
    else FirstMatch(items[1..], kvsName)
  }

  /** Every item of the listing, in page order; a page without a list has none. */
  function Listed(pages: seq<Option<seq<StoreSummary>>>): seq<StoreSummary>
  {
    if pages == [] then []
    else Listed(pages[..|pages| - 1]) + pages[|pages| - 1].GetOr([])
  }

  /** What a lookup answers when no call fails: the first match among the pages the listing reaches. */
  function Lookup(pages: seq<Option<seq<StoreSummary>>>, kvsName: string): Result<string, ResolveError>
  {
    match FirstMatch(Listed(pages[..Reached(pages)]), kvsName)
    case Some(arn) => Ok(arn)
    case None => Err(StoreNotFound(kvsName))
  }

  /** The inner loop of ResolveKVSARN over one page. */
  method MatchInPage(items: seq<StoreSummary>, kvsName: string) returns (r: Option<string>)
    ensures r == FirstMatch(items, kvsName)
  {
    r := None;
    var j := 0;
    while j < |items|
      invariant 0 <= j <= |items|
      invariant FirstMatch(items[j..], kvsName) == FirstMatch(items, kvsName)
    {
      assert items[j..][1..] == items[j + 1..];
      if items[j].name.Some? && items[j].name.value == kvsName {
        if items[j].arn.Some? {
          return Some(items[j].arn.value);
        }
      }
      j := j + 1;
    }
    assert items[j..] == [];
  }

  /**
   * What a ResolveKVSARN run promises, over the pages, the name sought, the
   * logs before the run and the logs after it: the answer is the lookup's or
   * the listing failure; the pages 0 .. n-1 were asked for, in order, for
   * some n no larger than the pages reached; the failure comes exactly when
   * the last call failed, every earlier call having succeeded; no page
   * before the last one asked for holds a match, so no page after a match is
   * asked for (RunStopsAtMatch); a successful last call gives the lookup's
   * answer, found in the pages asked for; and "not found" comes only once
   * every reached page was asked for.
   */
  ghost predicate Resolved(pages: seq<Option<seq<StoreSummary>>>, kvsName: string,
                           requests0: seq<Option<nat>>, answers0: seq<Result<Option<StoreList>, ListingError>>,
                           requests: seq<Option<nat>>, answers: seq<Result<Option<StoreList>, ListingError>>,
                           r: Result<string, ResolveError>)
  {
    && (r == Lookup(pages, kvsName) || r == Err(ListingFailed(ListingServiceFailure)))
    && (exists n :: RunOf(pages, kvsName, requests0, answers0, requests, answers, r, n))
    && |answers| > |answers0|
    && (r.Err? && r.error.ListingFailed? <==> answers[|answers| - 1].Err?)
    && (answers[|answers| - 1].Ok? ==> r == Lookup(pages, kvsName))
    && (r.Err? && r.error.StoreNotFound? ==> requests == requests0 + MarkersUpTo(Reached(pages)))
  }

  /**
   * The run made n calls: it asked for pages 0 .. n-1, every answer but the
   * last was a success, none of the pages before the last one asked for
   * holds a match, and a found ARN is the first match in those pages.
   */
  ghost predicate RunOf(pages: seq<Option<seq<StoreSummary>>>, kvsName: string,
                        requests0: seq<Option<nat>>, answers0: seq<Result<Option<StoreList>, ListingError>>,
                        requests: seq<Option<nat>>, answers: seq<Result<Option<StoreList>, ListingError>>,
                        r: Result<string, ResolveError>, n: nat)
  {
    && 1 <= n <= Reached(pages)
    && Logged(requests0, answers0, requests, answers, n)
    && FirstMatch(Listed(pages[..n - 1]), kvsName) == None
    && (r.Ok? ==> FirstMatch(Listed(pages[..n]), kvsName) == Some(r.value))
  }

  /** The logs grew by n calls, for pages 0 .. n-1, and every answer but the last was a success. */
  ghost predicate Logged(requests0: seq<Option<nat>>, answers0: seq<Result<Option<StoreList>, ListingError>>,
                         requests: seq<Option<nat>>, answers: seq<Result<Option<StoreList>, ListingError>>, n: nat)
  {
    && requests == requests0 + MarkersUpTo(n)
    && |answers| == |answers0| + n
    && answers[..|answers0|] == answers0
    && (forall j :: |answers0| <= j < |answers| - 1 ==> answers[j].Ok?)
  }

  /**
   * ResolveKVSARN: the ARN of the first store, in listing order, named
   * kvsName with an ARN; "not found" once the pages run out; a failed listing
   * call ends the lookup, and only a failed call does. The pages are
   * requested in order from the first, and no page after the one holding the
   * match. The marker step is the corrected one (see NextMarker).
   */
  method ResolveKVSARN(lister: StoreLister, kvsName: string) returns (r: Result<string, ResolveError>)
    requires lister.Valid()
    modifies lister
    ensures Resolved(lister.pages, kvsName, old(lister.requests), old(lister.answers), lister.requests, lister.answers, r)
  {
    var marker: Option<nat> := None;
    ghost var k: nat := 0;
    ghost var start := lister.requests;
    ghost var startA := lister.answers;
    ghost var reach := Reached(lister.pages);
    while true
      invariant k < reach && marker == MarkerOf(k)
      invariant Logged(start, startA, lister.requests, lister.answers, k)
      invariant k > 0 ==> lister.answers[|lister.answers| - 1].Ok?
      invariant FirstMatch(Listed(lister.pages[..k]), kvsName) == None
      decreases reach - k
    {
      var done;
      done, r, marker := ListOnce(lister, kvsName, marker, k, start, startA);
      if done {
        return;
      }
      k := k + 1;
    }
  }

  /**
   * One pass of ResolveKVSARN's loop: request the page the marker names,
   * and either end the lookup or move on to the next page.
   */
  method ListOnce(lister: StoreLister, kvsName: string, marker: Option<nat>, ghost k: nat,
                  ghost start: seq<Option<nat>>, ghost startA: seq<Result<Option<StoreList>, ListingError>>)
    returns (done: bool, r: Result<string, ResolveError>, next: Option<nat>)
    requires k < Reached(lister.pages) && marker == MarkerOf(k)
    requires Logged(start, startA, lister.requests, lister.answers, k)
    requires k > 0 ==> lister.answers[|lister.answers| - 1].Ok?
    requires FirstMatch(Listed(lister.pages[..k]), kvsName) == None
    modifies lister
    ensures done ==> Resolved(lister.pages, kvsName, start, startA, lister.requests, lister.answers, r)
    ensures !done ==>
      && k + 1 < Reached(lister.pages) && next == MarkerOf(k + 1)
      && Logged(start, startA, lister.requests, lister.answers, k + 1)
      && lister.answers[|lister.answers| - 1].Ok?
      && FirstMatch(Listed(lister.pages[..k + 1]), kvsName) == None
  {
    ghost var requests0, answers0 := lister.requests, lister.answers;
    var resp := lister.ListKeyValueStores(marker);
    LogStep(start, startA, k, requests0, answers0, lister.requests, lister.answers, resp);
    if resp.Err? {
      FailedAt(lister.pages, kvsName, start, startA, lister.requests, lister.answers, k);
      return true, Err(ListingFailed(resp.error)), marker;
    }
    if resp.value.Some? {
      var list := resp.value.value;
      var found := MatchInPage(list.items, kvsName);
      if found.Some? {
        MatchStep(lister.pages, k, kvsName);
        FoundAt(lister.pages, kvsName, start, startA, lister.requests, lister.answers, k, found.value);
        return true, Ok(found.value), marker;
      }
    }
    NoMatchStep(lister.pages, k, kvsName);
    next := NextMarker(resp.value);
    if next.None? {
      NotFoundAt(lister.pages, kvsName, start, startA, lister.requests, lister.answers, k);
      return true, Err(StoreNotFound(kvsName)), next;
    }
    return false, Err(StoreNotFound(kvsName)), next;
  }

  /** In a run of n calls, none of the first n-1 pages asked for holds a match: the run stops at the page that has one. */
  lemma RunStopsAtMatch(pages: seq<Option<seq<StoreSummary>>>, kvsName: string,
                        requests0: seq<Option<nat>>, answers0: seq<Result<Option<StoreList>, ListingError>>,
                        requests: seq<Option<nat>>, answers: seq<Result<Option<StoreList>, ListingError>>,
                        r: Result<string, ResolveError>, n: nat)
    requires RunOf(pages, kvsName, requests0, answers0, requests, answers, r, n)
    ensures forall j :: 0 <= j < n - 1 ==> FirstMatch(pages[j].GetOr([]), kvsName) == None
  {
    NoMatchBefore(pages, n - 1, kvsName);
  }

  /** When the first m pages list no match, none of them holds one. */
  lemma {:induction false} NoMatchBefore(pages: seq<Option<seq<StoreSummary>>>, m: nat, kvsName: string)
    requires m <= |pages| && FirstMatch(Listed(pages[..m]), kvsName) == None
    ensures forall j :: 0 <= j < m ==> FirstMatch(pages[j].GetOr([]), kvsName) == None
  {
    if m > 0 {
      ListedStep(pages, m - 1);
      FirstMatchAppend(Listed(pages[..m - 1]), pages[m - 1].GetOr([]), kvsName);
      NoMatchBefore(pages, m - 1, kvsName);
    }
  }

  /** A run whose last call failed keeps every promise of Resolved with the listing failure. */
  lemma FailedAt(pages: seq<Option<seq<StoreSummary>>>, kvsName: string,
                 requests0: seq<Option<nat>>, answers0: seq<Result<Option<StoreList>, ListingError>>,
                 requests: seq<Option<nat>>, answers: seq<Result<Option<StoreList>, ListingError>>, k: nat)
    requires k < Reached(pages) && Logged(requests0, answers0, requests, answers, k + 1)
    requires FirstMatch(Listed(pages[..k]), kvsName) == None
    requires answers[|answers| - 1].Err?
    ensures Resolved(pages, kvsName, requests0, answers0, requests, answers, Err(ListingFailed(ListingServiceFailure)))
  {
    assert RunOf(pages, kvsName, requests0, answers0, requests, answers, Err(ListingFailed(ListingServiceFailure)), k + 1);
  }

  /** A run that found arn on page k keeps every promise of Resolved. */
  lemma FoundAt(pages: seq<Option<seq<StoreSummary>>>, kvsName: string,
                requests0: seq<Option<nat>>, answers0: seq<Result<Option<StoreList>, ListingError>>,
                requests: seq<Option<nat>>, answers: seq<Result<Option<StoreList>, ListingError>>, k: nat, arn: string)
    requires k < Reached(pages) && Logged(requests0, answers0, requests, answers, k + 1)
    requires FirstMatch(Listed(pages[..k]), kvsName) == None
    requires answers[|answers| - 1].Ok?
    requires FirstMatch(Listed(pages[..k + 1]), kvsName) == Some(arn) && Lookup(pages, kvsName) == Ok(arn)
    ensures Resolved(pages, kvsName, requests0, answers0, requests, answers, Ok(arn))
  {
    assert RunOf(pages, kvsName, requests0, answers0, requests, answers, Ok(arn), k + 1);
  }

  /** A run that read every reached page without a match keeps every promise of Resolved. */
  lemma NotFoundAt(pages: seq<Option<seq<StoreSummary>>>, kvsName: string,
                   requests0: seq<Option<nat>>, answers0: seq<Result<Option<StoreList>, ListingError>>,
                   requests: seq<Option<nat>>, answers: seq<Result<Option<StoreList>, ListingError>>, k: nat)
    requires k + 1 == Reached(pages) && Logged(requests0, answers0, requests, answers, k + 1)
    requires FirstMatch(Listed(pages[..k]), kvsName) == None
    requires answers[|answers| - 1].Ok? && Lookup(pages, kvsName) == Err(StoreNotFound(kvsName))
    ensures Resolved(pages, kvsName, requests0, answers0, requests, answers, Err(StoreNotFound(kvsName)))
  {
    assert RunOf(pages, kvsName, requests0, answers0, requests, answers, Err(StoreNotFound(kvsName)), k + 1);
  }

  /** One more call extends the logs by its marker and its answer. */
  lemma LogStep(start: seq<Option<nat>>, startA: seq<Result<Option<StoreList>, ListingError>>, k: nat,
                requests0: seq<Option<nat>>, answers0: seq<Result<Option<StoreList>, ListingError>>,
                requests: seq<Option<nat>>, answers: seq<Result<Option<StoreList>, ListingError>>,
                resp: Result<Option<StoreList>, ListingError>)
    requires Logged(start, startA, requests0, answers0, k)
    requires k > 0 ==> answers0[|answers0| - 1].Ok?
    requires requests == requests0 + [MarkerOf(k)] && answers == answers0 + [resp]
    ensures Logged(start, startA, requests, answers, k + 1) && answers[|answers| - 1] == resp
  {
    assert answers[..|startA|] == answers0[..|startA|];
    AppendAssoc(start, MarkersUpTo(k), [MarkerOf(k)]);
  }

  /** A match on page k, when no earlier page has one, is the lookup's answer. */
  lemma MatchStep(pages: seq<Option<seq<StoreSummary>>>, k: nat, kvsName: string)
    requires k < Reached(pages) && FirstMatch(Listed(pages[..k]), kvsName) == None
    requires pages[k].Some? && FirstMatch(pages[k].value, kvsName).Some?
    ensures FirstMatch(Listed(pages[..k + 1]), kvsName) == FirstMatch(pages[k].value, kvsName)
    ensures Lookup(pages, kvsName) == Ok(FirstMatch(pages[k].value, kvsName).value)
  {
    ListedStep(pages, k);
    FirstMatchAppend(Listed(pages[..k]), pages[k].GetOr([]), kvsName);
    ReachedPrefix(pages, k + 1);
    LookupFromPrefix(pages[..Reached(pages)], k + 1, kvsName);
  }

  /**
   * No match on page k, when no earlier page has one: the listing goes on to
   * page k+1 within the reached pages, or it ends and the lookup finds nothing.
   */
  lemma NoMatchStep(pages: seq<Option<seq<StoreSummary>>>, k: nat, kvsName: string)
    requires k < Reached(pages) && FirstMatch(Listed(pages[..k]), kvsName) == None
    requires pages[k].None? || FirstMatch(pages[k].value, kvsName).None?
    ensures FirstMatch(Listed(pages[..k + 1]), kvsName) == None
    ensures var m := NextMarker(PageAnswer(pages, k));
      if m.None? then k + 1 == Reached(pages) && Lookup(pages, kvsName) == Err(StoreNotFound(kvsName))
      else k + 1 < Reached(pages) && m == MarkerOf(k + 1)
  {
    ListedStep(pages, k);
    FirstMatchAppend(Listed(pages[..k]), pages[k].GetOr([]), kvsName);
    NextMarkerAdvances(pages, k);
    if NextMarker(PageAnswer(pages, k)).None? {
      assert k + 1 == Reached(pages);
      assert pages[..Reached(pages)] == pages[..k + 1];
    }
  }

  /** The first n pages of the reached ones are the first n pages. */
  lemma ReachedPrefix(pages: seq<Option<seq<StoreSummary>>>, n: nat)
    requires n <= Reached(pages)
    ensures pages[..Reached(pages)][..n] == pages[..n]
  {
  }

  lemma ListedStep(pages: seq<Option<seq<StoreSummary>>>, k: nat)
    requires k < |pages|
    ensures Listed(pages[..k + 1]) == Listed(pages[..k]) + pages[k].GetOr([])
  {
    assert pages[..k + 1][..k] == pages[..k];
  }

  /** A match in the first pages is the match of the whole listing: later pages cannot change it. */
  lemma {:induction false} LookupFromPrefix(pages: seq<Option<seq<StoreSummary>>>, n: nat, kvsName: string)
    requires n <= |pages| && FirstMatch(Listed(pages[..n]), kvsName).Some?
    ensures FirstMatch(Listed(pages), kvsName) == FirstMatch(Listed(pages[..n]), kvsName)
    decreases |pages| - n
  {
    if n < |pages| {
      ListedStep(pages, n);
      FirstMatchAppend(Listed(pages[..n]), pages[n].GetOr([]), kvsName);
      LookupFromPrefix(pages, n + 1, kvsName);
    } else {
      assert pages[..n] == pages;
    }
  }

  /** The first match of a concatenation is the first part's, if it has one, and otherwise the second part's. */
  lemma {:induction false} FirstMatchAppend(a: seq<StoreSummary>, b: seq<StoreSummary>, kvsName: string)
    ensures FirstMatch(a + b, kvsName) == if FirstMatch(a, kvsName).Some? then FirstMatch(a, kvsName) else FirstMatch(b, kvsName)
  {
    if a == [] {
      assert a + b == b;
    } else {
      assert (a + b)[0] == a[0];
      assert (a + b)[1..] == a[1..] + b;
      FirstMatchAppend(a[1..], b, kvsName);
    }
  }

  /** FirstMatch is the ARN of the earliest item that matches: no earlier item matches. */
  lemma {:induction false} FirstMatchIsEarliest(items: seq<StoreSummary>, kvsName: string, arn: string)
    ensures FirstMatch(items, kvsName) == Some(arn) <==>
      exists i :: 0 <= i < |items| && IsMatch(items[i], kvsName) && items[i].arn.value == arn
        && forall j :: 0 <= j < i ==> !IsMatch(items[j], kvsName)
  {
    if items != [] {
      FirstMatchIsEarliest(items[1..], kvsName, arn);
      if FirstMatch(items, kvsName) == Some(arn) && !IsMatch(items[0], kvsName) {
        var i :| 0 <= i < |items[1..]| && IsMatch(items[1..][i], kvsName) && items[1..][i].arn.value == arn
          && forall j :: 0 <= j < i ==> !IsMatch(items[1..][j], kvsName);
        assert forall j :: 1 <= j < i + 1 ==> items[j] == items[1..][j - 1];
      }
      if exists i ::
           && 0 <= i < |items| && IsMatch(items[i], kvsName) && items[i].arn.value == arn
           && forall j :: 0 <= j < i ==> !IsMatch(items[j], kvsName)
      {
        var i :| 0 <= i < |items| && IsMatch(items[i], kvsName) && items[i].arn.value == arn
          && forall j :: 0 <= j < i ==> !IsMatch(items[j], kvsName);
        if i > 0 {
          assert IsMatch(items[1..][i - 1], kvsName) && forall j :: 0 <= j < i - 1 ==> !IsMatch(items[1..][j], kvsName);
        }
      }
    }
  }

  /** A store listed under the right name but without an ARN is passed over. */
  lemma NilArnSkipped(name: string, rest: seq<StoreSummary>)
    ensures FirstMatch([StoreSummary(Some(name), None)] + rest, name) == FirstMatch(rest, name)
  {
    assert ([StoreSummary(Some(name), None)] + rest)[1..] == rest;
  }

  /** Two pages, the store on the second: its ARN is found. */
  lemma FoundOnSecondPage()
    ensures Lookup([Some([StoreSummary(Some("other"), Some("arn:1"))]), Some([StoreSummary(Some("site"), Some("arn:2"))])], "site")
      == Ok("arn:2")
  {
    var p0 := Some([StoreSummary(Some("other"), Some("arn:1"))]);
    var p1 := Some([StoreSummary(Some("site"), Some("arn:2"))]);
    var pages := [p0, p1];
    assert pages[..1] == [p0] && [p0][..0] == [];
    assert Listed([p0]) == [StoreSummary(Some("other"), Some("arn:1"))];
    assert Listed(pages) == [StoreSummary(Some("other"), Some("arn:1")), StoreSummary(Some("site"), Some("arn:2"))];
    assert Listed(pages)[1..] == [StoreSummary(Some("site"), Some("arn:2"))];
  }

  /**
   * The store on the first of two pages: a run asks for the first page only,
   * and it answers the ARN unless that one call failed.
   */
  lemma MatchOnFirstPageStops(requests: seq<Option<nat>>, answers: seq<Result<Option<StoreList>, ListingError>>,
                              r: Result<string, ResolveError>)
    requires Resolved([Some([StoreSummary(Some("site"), Some("arn:1"))]), Some([])], "site", [], [], requests, answers, r)
    ensures requests == [None] && |answers| == 1
    ensures r == Ok("arn:1") || (r == Err(ListingFailed(ListingServiceFailure)) && answers[0].Err?)
  {
    var item := StoreSummary(Some("site"), Some("arn:1"));
    var pages := [Some([item]), Some([])];
    var n :| RunOf(pages, "site", [], [], requests, answers, r, n);
    RunStopsAtMatch(pages, "site", [], [], requests, answers, r, n);
    assert FirstMatch(pages[0].GetOr([]), "site") == Some("arn:1");
    assert n == 1;
    assert pages[..1] == [Some([item])] && [Some([item])][..0] == [];
    assert Listed(pages[..1]) == [item];
    assert Lookup(pages, "site") == Ok("arn:1");
  }

  // ---------------------------------------------------------------------
  // DeployFunction
  // ---------------------------------------------------------------------

  datatype Stage = Development | Live

  /** The FunctionConfig sent on create and update. */
  datatype FunctionConfig = FunctionConfig(comment: string, runtime: string, kvsAssociations: seq<string>)

  /** One stage's content of a function. */
  datatype FunctionVersion = FunctionVersion(code: seq<byte>, config: FunctionConfig)

  /** A function as the remote keeps it: its DEVELOPMENT content and ETag version, and what is LIVE. */
  datatype FunctionRecord = FunctionRecord(development: FunctionVersion, devVersion: nat, live: Option<FunctionVersion>)

  datatype CfError = NoSuchFunctionExists | FunctionAlreadyExists | PreconditionFailed | CfServiceFailure

  /** One call the remote received, with its answer. */
  datatype CfCall =
    | DescribeCall(name: string, stage: Stage, described: Result<Option<ETag>, CfError>)
    | CreateCall(name: string, code: seq<byte>, config: FunctionConfig, created: Result<ETag, CfError>)
    | UpdateCall(name: string, ifMatch: ETag, code: seq<byte>, config: FunctionConfig, updated: Result<ETag, CfError>)
    | PublishCall(name: string, ifMatch: ETag, published: Outcome<CfError>)

  datatype DeployError =
    | DescribeFailed(cause: CfError)
    | UpdateFailed(cause: CfError)
    | CreateFailed(cause: CfError)
    | PublishFailed(cause: CfError)

  const Runtime: string := "cloudfront-js-2.0"

  /** The configuration both branches send: the runtime, one KVS association and the management comment. */
  function ManagedConfig(name: string, kvsArn: string): FunctionConfig
  {
    FunctionConfig("Managed by hedgerules: " + name, Runtime, [kvsArn])
  }

  /** The remote's side of the CloudFront Functions API. */
  class FunctionsClient {
    var functions: map<string, FunctionRecord>
    ghost var calls: seq<CfCall>

    /** The ETag of a function's DEVELOPMENT stage. */
    function DevTag(name: string): ETag
      reads this
      requires name in functions
    {
      ETag(functions[name].devVersion)
    }

    constructor (functions0: map<string, FunctionRecord>)
      ensures functions == functions0 && calls == []
    {
      functions := functions0;
      calls := [];
    }

    /** DescribeFunction: the stage's ETag, or NoSuchFunctionExists. */
    method DescribeFunction(name: string, stage: Stage) returns (r: Result<Option<ETag>, CfError>)
      modifies this
      ensures functions == old(functions)
      ensures calls == old(calls) + [DescribeCall(name, stage, r)]
      ensures (name !in functions || (stage == Live && functions[name].live.None?)) ==> r == Err(NoSuchFunctionExists)
      ensures r.Ok? ==> name in functions && r.value == Some(DevTag(name))
      ensures r.Err? ==> r.error == NoSuchFunctionExists || r.error == CfServiceFailure
    {
      if name !in functions || (stage == Live && functions[name].live.None?) {
        r := Err(NoSuchFunctionExists);
      } else {
        var fails: bool :| true;
        r := if fails then Err(CfServiceFailure) else Ok(Some(DevTag(name)));
      }
      calls := calls + [DescribeCall(name, stage, r)];
    }

    /** CreateFunction: a new function in DEVELOPMENT, nothing LIVE yet. */
    method CreateFunction(name: string, code: seq<byte>, config: FunctionConfig) returns (r: Result<ETag, CfError>)
      modifies this
      ensures calls == old(calls) + [CreateCall(name, code, config, r)]
      ensures name in old(functions) ==> r == Err(FunctionAlreadyExists)
      ensures r.Ok? ==>
                && functions == old(functions)[name := FunctionRecord(FunctionVersion(code, config), 0, None)]
                && r.value == DevTag(name)
      ensures r.Err? ==> functions == old(functions)
    {
      if name in functions {
        r := Err(FunctionAlreadyExists);
      } else {
        var fails: bool :| true;
        if fails {
          r := Err(CfServiceFailure);
        } else {
          functions := functions[name := FunctionRecord(FunctionVersion(code, config), 0, None)];
          r := Ok(DevTag(name));
        }
      }
      calls := calls + [CreateCall(name, code, config, r)];
    }

    /** UpdateFunction: a conditional write of the DEVELOPMENT stage, which moves to a new ETag. */
    method UpdateFunction(name: string, ifMatch: ETag, code: seq<byte>, config: FunctionConfig)
      returns (r: Result<ETag, CfError>)
      modifies this
      ensures calls == old(calls) + [UpdateCall(name, ifMatch, code, config, r)]
      ensures name !in old(functions) ==> r == Err(NoSuchFunctionExists)
      ensures name in old(functions) && ifMatch != old(DevTag(name)) ==> r == Err(PreconditionFailed)
      ensures r.Ok? ==>
                && name in old(functions) && ifMatch == old(DevTag(name))
                && functions == old(functions)[name := old(functions)[name].(
                     development := FunctionVersion(code, config), devVersion := old(functions)[name].devVersion + 1)]
                && r.value == DevTag(name) && r.value != ifMatch
      ensures r.Err? ==> functions == old(functions)
    {
      if name !in functions {
        r := Err(NoSuchFunctionExists);
      } else if ifMatch != DevTag(name) {
        r := Err(PreconditionFailed);
      } else {
        var fails: bool :| true;
        if fails {
          r := Err(CfServiceFailure);
        } else {
          var f := functions[name];
          functions := functions[name := f.(development := FunctionVersion(code, config), devVersion := f.devVersion + 1)];
          r := Ok(DevTag(name));
        }
      }
      calls := calls + [UpdateCall(name, ifMatch, code, config, r)];
    }

    /** PublishFunction: the DEVELOPMENT content becomes LIVE, if IfMatch is its ETag. */
    method PublishFunction(name: string, ifMatch: ETag) returns (r: Outcome<CfError>)
      modifies this
      ensures calls == old(calls) + [PublishCall(name, ifMatch, r)]
      ensures name !in old(functions) ==> r == Fail(NoSuchFunctionExists)
      ensures name in old(functions) && ifMatch != old(DevTag(name)) ==> r == Fail(PreconditionFailed)
      ensures r.Pass? ==>
                && name in old(functions) && ifMatch == old(DevTag(name))
                && functions == old(functions)[name := old(functions)[name].(live := Some(old(functions)[name].development))]
      ensures r.Fail? ==> functions == old(functions)
    {
      if name !in functions {
        r := Fail(NoSuchFunctionExists);
      } else if ifMatch != DevTag(name) {
        r := Fail(PreconditionFailed);
      } else {
        var fails: bool :| true;
        if fails {
          r := Fail(CfServiceFailure);
        } else {
          var f := functions[name];
          functions := functions[name := f.(live := Some(f.development))];
          r := Pass;
        }
      }
      calls := calls + [PublishCall(name, ifMatch, r)];
    }
  }

  /** The publish step: exactly one PublishCall with the write's ETag, whose failure is the deployment's. */
  ghost predicate PublishTrace(trace: seq<CfCall>, name: string, tag: ETag, r: Outcome<DeployError>)
  {
    |trace| == 1 && trace[0].PublishCall? && trace[0].name == name && trace[0].ifMatch == tag
    && r == (if trace[0].published.Pass? then Pass else Fail(PublishFailed(trace[0].published.error)))
  }

  /**
   * The calls DeployFunction makes, in order: describe the DEVELOPMENT stage;
   * stop on an error other than NoSuchFunctionExists; update with IfMatch
   * set to the described ETag, or create when there is none; stop on a write
   * failure; publish with the ETag the write answered.
   */
  ghost predicate DeployTrace(trace: seq<CfCall>, name: string, code: seq<byte>, kvsArn: string, r: Outcome<DeployError>)
  {
    |trace| >= 1 && trace[0].DescribeCall? && trace[0].name == name && trace[0].stage == Development
    && var d := trace[0].described;
    var config := ManagedConfig(name, kvsArn);
    if d.Err? && d.error != NoSuchFunctionExists then
      |trace| == 1 && r == Fail(DescribeFailed(d.error))
    else if d.Ok? && d.value.Some? then
      |trace| >= 2 && trace[1].UpdateCall? && trace[1].name == name && trace[1].ifMatch == d.value.value
      && trace[1].code == code && trace[1].config == config
      && if trace[1].updated.Err? then |trace| == 2 && r == Fail(UpdateFailed(trace[1].updated.error))
         else PublishTrace(trace[2..], name, trace[1].updated.value, r)
    else
      |trace| >= 2 && trace[1].CreateCall? && trace[1].name == name && trace[1].code == code && trace[1].config == config
      && if trace[1].created.Err? then |trace| == 2 && r == Fail(CreateFailed(trace[1].created.error))
         else PublishTrace(trace[2..], name, trace[1].created.value, r)
  }

  /**
   * DeployFunction: create or update the function's DEVELOPMENT stage with
   * the code and the managed configuration, then publish it. Success means
   * the code and configuration are LIVE; no other function changes.
   */
  method DeployFunction(client: FunctionsClient, name: string, code: seq<byte>, kvsArn: string)
    returns (r: Outcome<DeployError>)
    modifies client
    ensures exists trace :: client.calls == old(client.calls) + trace && DeployTrace(trace, name, code, kvsArn, r)
    ensures r.Pass? ==>
              && name in client.functions
              && client.functions[name].development == FunctionVersion(code, ManagedConfig(name, kvsArn))
              && client.functions[name].live == Some(FunctionVersion(code, ManagedConfig(name, kvsArn)))
    ensures client.functions.Keys - {name} == old(client.functions).Keys - {name}
    ensures forall n :: n in old(client.functions) && n != name ==> n in client.functions && client.functions[n] == old(client.functions)[n]
  {
    var config := ManagedConfig(name, kvsArn);
    ghost var start := client.calls;
    var desc := client.DescribeFunction(name, Development);
    ghost var d := DescribeCall(name, Development, desc);
    if desc.Err? && desc.error != NoSuchFunctionExists {
      assert DeployTrace([d], name, code, kvsArn, Fail(DescribeFailed(desc.error)));
      return Fail(DescribeFailed(desc.error));
    }
    var written: Result<ETag, DeployError>;
    ghost var w: CfCall;
    written, w := WriteFunction(client, name, code, config, desc);
    if written.Err? {
      assert DeployTrace([d, w], name, code, kvsArn, Fail(written.error));
      return Fail(written.error);
    }
    var published := client.PublishFunction(name, written.value);
    ghost var p := PublishCall(name, written.value, published);
    r := if published.Pass? then Pass else Fail(PublishFailed(published.error));
    assert [d, w, p][2..] == [p];
    assert DeployTrace([d, w, p], name, code, kvsArn, r);
    assert client.calls == start + [d, w, p];
  }

  /** The write of one deployment: the call it makes on the described ETag, and its failure as the deployment's. */
  ghost predicate WriteTrace(w: CfCall, name: string, code: seq<byte>, config: FunctionConfig,
                             desc: Result<Option<ETag>, CfError>, r: Result<ETag, DeployError>)
  {
    if desc.Ok? && desc.value.Some? then
      && w.UpdateCall? && w.name == name && w.ifMatch == desc.value.value && w.code == code && w.config == config
      && r == if w.updated.Err? then Err(UpdateFailed(w.updated.error)) else Ok(w.updated.value)
    else
      && w.CreateCall? && w.name == name && w.code == code && w.config == config
      && r == if w.created.Err? then Err(CreateFailed(w.created.error)) else Ok(w.created.value)
  }

  /**
   * The create-or-update step of DeployFunction: an update with IfMatch set
   * to the described ETag, or a create when there is none. A success leaves
   * the code and configuration in DEVELOPMENT and answers its ETag.
   */
  method WriteFunction(client: FunctionsClient, name: string, code: seq<byte>, config: FunctionConfig,
                       desc: Result<Option<ETag>, CfError>)
    returns (r: Result<ETag, DeployError>, ghost w: CfCall)
    modifies client
    ensures client.calls == old(client.calls) + [w]
    ensures WriteTrace(w, name, code, config, desc, r)
    ensures r.Ok? ==>
              && name in client.functions
              && client.functions[name].development == FunctionVersion(code, config)
              && r.value == client.DevTag(name)
    ensures client.functions.Keys - {name} == old(client.functions).Keys - {name}
    ensures forall n :: n in old(client.functions) && n != name ==> n in client.functions && client.functions[n] == old(client.functions)[n]
  {
    if desc.Ok? && desc.value.Some? {
      var etag := desc.value.value;
      var updated := client.UpdateFunction(name, etag, code, config);
      w := UpdateCall(name, etag, code, config, updated);
      r := if updated.Err? then Err(UpdateFailed(updated.error)) else Ok(updated.value);
    } else {
      var created := client.CreateFunction(name, code, config);
      w := CreateCall(name, code, config, created);
      r := if created.Err? then Err(CreateFailed(created.error)) else Ok(created.value);
    }
  }

  /** Both branches send the cloudfront-js-2.0 runtime, exactly the one given KVS, and the management comment. */
  lemma ManagedConfigShape(name: string, kvsArn: string)
    ensures ManagedConfig(name, kvsArn).runtime == "cloudfront-js-2.0"
    ensures ManagedConfig(name, kvsArn).kvsAssociations == [kvsArn]
    ensures StartsWith(ManagedConfig(name, kvsArn).comment, "Managed by hedgerules: ")
    ensures EndsWith(ManagedConfig(name, kvsArn).comment, name)
  {
    var c := ManagedConfig(name, kvsArn).comment;
    assert c[..|"Managed by hedgerules: "|] == "Managed by hedgerules: ";
    assert c[|c| - |name|..] == name;
  }

  /** A describe failure other than NoSuchFunctionExists creates, updates and publishes nothing. */
  lemma DescribeFailureStops(trace: seq<CfCall>, name: string, code: seq<byte>, kvsArn: string, r: Outcome<DeployError>)
    requires DeployTrace(trace, name, code, kvsArn, r)
    requires trace[0].described.Err? && trace[0].described.error != NoSuchFunctionExists
    ensures trace == [DescribeCall(name, Development, trace[0].described)]
    ensures r == Fail(DescribeFailed(trace[0].described.error))
  {
  }

  /**
   * A deployment publishes at most once, only after a successful write, and
   * with the ETag that write answered; only an update carries IfMatch, and
   * that IfMatch is the described ETag.
   */
  lemma PublishFollowsWrite(trace: seq<CfCall>, name: string, code: seq<byte>, kvsArn: string, r: Outcome<DeployError>, i: nat)
    requires DeployTrace(trace, name, code, kvsArn, r)
    requires i < |trace| && trace[i].PublishCall?
    ensures i == 2 && |trace| == 3
    ensures trace[1].UpdateCall? ==> trace[1].updated == Ok(trace[2].ifMatch) && trace[0].described == Ok(Some(trace[1].ifMatch))
    ensures trace[1].CreateCall? ==> trace[1].created == Ok(trace[2].ifMatch)
  {
    assert trace[2..][0] == trace[2];
  }

  /** Success needs every call to have succeeded, and then the last call was the publish. */
  lemma PassMeansPublished(trace: seq<CfCall>, name: string, code: seq<byte>, kvsArn: string)
    requires DeployTrace(trace, name, code, kvsArn, Pass)
    ensures |trace| == 3 && trace[2].PublishCall? && trace[2].published == Pass
    ensures trace[1].UpdateCall? || trace[1].CreateCall?
  {
    assert trace[2..][0] == trace[2];
  }
}
