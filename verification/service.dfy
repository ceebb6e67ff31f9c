/** The page-walking aggregator behind `ContactService.getAllContacts`.

    The upstream API is an oracle from page number to what that request
    produced. Within one call each page is requested at most once, so any
    upstream, however it changes between requests, looks like such a function
    to the aggregator.

    Termination needs no extra assumption: `Integer.parseInt` caps every
    announced total at `Int32Max`, and the walk only moves on from page `p`
    when `p` is below the total, so `p` never exceeds `Int32Max` and the
    distance to it shrinks on every request. */
module ContactService {
  import opened Wrappers
  import opened Contacts
  import opened TotalPagesHeader

  /** A completed HTTP exchange. `contacts` is `None` when the body does not
      decode as a page of contacts; `totalPagesHeader` is `None` when the
      `Total-Pages` header is absent. */
  datatype Response = Response(status: int, contacts: Option<seq<Contact>>, totalPagesHeader: Option<string>)

  /** What one request produced: a response, or a failure to get one. */
  datatype Exchange = Delivered(response: Response) | TransportFailure

  type Upstream = int -> Exchange

  /** Why the aggregation was abandoned; `page` is the page that caused it. */
  datatype FetchError =
    | TransportError(page: int)
    | UpstreamError(page: int, status: int)
    | UndecodableBody(page: int)
    | MalformedTotalPages(page: int, header: string)

  /** The effect of requesting one page: either the whole call fails, or the
      page yields its contacts and the total page count it announces. */
  datatype PageStep = Failed(error: FetchError) | Fetched(contacts: seq<Contact>, total: int)

  /** One iteration of the loop body, checks in source order: the status
      first, then the body, then the header. */
  function Step(up: Upstream, page: int): (s: PageStep)
    ensures s.Failed? ==> s.error.page == page
    ensures s.Fetched? ==> Int32Min <= s.total <= Int32Max
    ensures s.Fetched? <==>
      && up(page).Delivered?
      && up(page).response.status == 200
      && up(page).response.contacts.Some?
      && TotalPages(up(page).response.totalPagesHeader).Some?
  {
    match up(page)
    case TransportFailure => Failed(TransportError(page))
    case Delivered(resp) =>
      if resp.status != 200 then Failed(UpstreamError(page, resp.status))
      else if resp.contacts.None? then Failed(UndecodableBody(page))
      else
        var total := TotalPages(resp.totalPagesHeader);
        if total.None? then Failed(MalformedTotalPages(page, resp.totalPagesHeader.value))
        else Fetched(resp.contacts.value, total.value)
  }

  /** What a fetched page yields: the contacts of its response and the total
      its `Total-Pages` header gives, 1 when the header is absent. */
  lemma StepYieldsResponse(up: Upstream, page: int)
    ensures Step(up, page).Fetched? ==>
      && Step(up, page).contacts == up(page).response.contacts.value
      && Some(Step(up, page).total) == TotalPages(up(page).response.totalPagesHeader)
  {
  }

  /** The per-page outcomes of an upstream, page by page. */
  function Steps(up: Upstream): int -> PageStep
  {
    p => Step(up, p)
  }

  /** No page announces more pages than a Java `int` can count. */
  ghost predicate Bounded(steps: int -> PageStep)
  {
    forall p :: steps(p).Fetched? ==> steps(p).total <= Int32Max
  }

  lemma StepsBounded(up: Upstream)
    ensures Bounded(Steps(up))
  {
  }

  /** The pages requested, in order, and what the call returned. */
  datatype Aggregation = Aggregation(requested: seq<int>, result: Result<seq<Contact>, FetchError>)

  /** Aggregation `a`, as seen by a loop that had already requested
      `requested` and collected `contacts` before it began. */
  function Resume(requested: seq<int>, contacts: seq<Contact>, a: Aggregation): Aggregation
  {
    Aggregation(requested + a.requested,
                match a.result
                case Success(more) => Success(contacts + more)
                case Failure(e) => Failure(e))
  }

  /** The loop from page `page` on, given each page's outcome. */
  function Walk(steps: int -> PageStep, page: int): (a: Aggregation)
    requires 1 <= page <= Int32Max
    requires Bounded(steps)
    ensures |a.requested| >= 1
    ensures forall i :: 0 <= i < |a.requested| ==> a.requested[i] == page + i
    decreases Int32Max - page
  {
    match steps(page)
    case Failed(e) => Aggregation([page], Failure(e))
    case Fetched(cs, total) =>
      if page < total then Resume([page], cs, Walk(steps, page + 1))
      else Aggregation([page], Success(cs))
  }

  /** `getAllContacts()`: the walk from page 1. */
  function FetchAll(up: Upstream): (a: Aggregation)
    ensures |a.requested| >= 1
    ensures forall i :: 0 <= i < |a.requested| ==> a.requested[i] == i + 1
  {
    StepsBounded(up);
    Walk(Steps(up), 1)
  }

  // ---------------------------------------------------------------------
  // The reference: which pages a correct walk requests and what it returns,
  // stated without the loop.

  /** After page `p`, the walk goes on to page `p + 1`: `p` was fetched and is
      below the total that `p`'s own response announced. */
  predicate Continues(steps: int -> PageStep, p: int)
  {
    steps(p).Fetched? && p < steps(p).total
  }

  /** Page `k` is the last one requested: every page before it continues,
      and `k` does not. */
  ghost predicate StopsAt(steps: int -> PageStep, k: int)
  {
    1 <= k && !Continues(steps, k) && forall p :: 1 <= p < k ==> Continues(steps, p)
  }

  /** The contacts of a page, or none if it did not yield any. */
  function ContactsOf(steps: int -> PageStep, p: int): seq<Contact>
  {
    if steps(p).Fetched? then steps(p).contacts else []
  }

  /** Pages `lo` to `hi`, concatenated in page order. */
  function Pages(steps: int -> PageStep, lo: int, hi: int): seq<Contact>
    decreases hi - lo
  {
    if hi < lo then [] else ContactsOf(steps, lo) + Pages(steps, lo + 1, hi)
  }

  /** The number of contacts pages `lo` to `hi` yield. */
  function Count(steps: int -> PageStep, lo: int, hi: int): nat
    decreases hi - lo
  {
    if hi < lo then 0 else |ContactsOf(steps, lo)| + Count(steps, lo + 1, hi)
  }

  /** What a walk from page `lo` that stops at page `k` returns: the error
      of page `k`, or every page from `lo` to `k`. */
  function Expected(steps: int -> PageStep, lo: int, k: int): Result<seq<Contact>, FetchError>
  {
    match steps(k)
    case Failed(e) => Failure(e)
    case Fetched(_, _) => Success(Pages(steps, lo, k))
  }

  /** The walk from `page` stops at the first page from `page` on that does
      not continue, and returns the reference result for it. */
  lemma {:induction false} WalkMatchesReference(steps: int -> PageStep, page: int)
    requires 1 <= page <= Int32Max
    requires Bounded(steps)
    ensures var a := Walk(steps, page);
            var k := page + |a.requested| - 1;
            && !Continues(steps, k)
            && (forall p :: page <= p < k ==> Continues(steps, p))
            && a.result == Expected(steps, page, k)
    decreases Int32Max - page
  {
    var a := Walk(steps, page);
    var k := page + |a.requested| - 1;
    match steps(page)
    case Failed(e) =>
      assert k == page;
    case Fetched(cs, total) =>
      if page < total {
        var b := Walk(steps, page + 1);
        assert a == Resume([page], cs, b);
        WalkMatchesReference(steps, page + 1);
        assert k == page + 1 + |b.requested| - 1;
        assert Continues(steps, page);
        if steps(k).Fetched? {
          assert Pages(steps, page, k) == cs + Pages(steps, page + 1, k);
        }
      } else {
        assert k == page;
        assert Pages(steps, page + 1, page) == [];
        assert Pages(steps, page, page) == cs + [] == cs;
      }
  }

  /** The walk from page 1 requests exactly pages 1, 2, ..., k in that
      order, where k is the first page that does not continue, and returns
      the reference result for k. */
  lemma WalkFromFirstPage(steps: int -> PageStep)
    requires Bounded(steps)
    ensures var a := Walk(steps, 1);
            && StopsAt(steps, |a.requested|)
            && (forall i :: 0 <= i < |a.requested| ==> a.requested[i] == i + 1)
            && a.result == Expected(steps, 1, |a.requested|)
  {
    WalkMatchesReference(steps, 1);
  }

  /** `getAllContacts()` meets the reference for the per-page outcomes of
      its upstream. */
  lemma FetchAllMatchesReference(up: Upstream)
    ensures var a := FetchAll(up);
            && StopsAt(Steps(up), |a.requested|)
            && (forall i :: 0 <= i < |a.requested| ==> a.requested[i] == i + 1)
            && a.result == Expected(Steps(up), 1, |a.requested|)
  {
    StepsBounded(up);
    WalkFromFirstPage(Steps(up));
  }

  /** At most one page can be the stopping page, so the reference fixes the
      walk completely. */
  lemma StopPageUnique(steps: int -> PageStep, k1: int, k2: int)
    requires StopsAt(steps, k1) && StopsAt(steps, k2)
    ensures k1 == k2
  {
  }

  // ---------------------------------------------------------------------
  // Consequences.

  /** Page 1 is always requested first, pages follow without gaps or
      repeats, and a page is requested only while the previous one
      continues. */
  lemma NextPageRequestedIff(up: Upstream, i: int)
    requires 0 <= i < |FetchAll(up).requested|
    ensures FetchAll(up).requested[0] == 1
    ensures FetchAll(up).requested[i] == i + 1
    ensures i + 1 < |FetchAll(up).requested| <==> Continues(Steps(up), i + 1)
  {
    FetchAllMatchesReference(up);
  }

  /** No page is requested twice. */
  lemma NoPageRequestedTwice(up: Upstream, i: int, j: int)
    requires 0 <= i < j < |FetchAll(up).requested|
    ensures FetchAll(up).requested[i] < FetchAll(up).requested[j]
  {
  }

  lemma {:induction false} PagesLength(steps: int -> PageStep, lo: int, hi: int)
    ensures |Pages(steps, lo, hi)| == Count(steps, lo, hi)
    decreases hi - lo
  {
    if lo <= hi {
      PagesLength(steps, lo + 1, hi);
    }
  }

  /** A page lies in the concatenation at the offset given by the pages
      before it, in its own order. */
  lemma {:induction false} PageIsSlice(steps: int -> PageStep, lo: int, p: int, hi: int)
    requires lo <= p <= hi
    ensures |Pages(steps, lo, hi)| >= Count(steps, lo, p - 1) + |ContactsOf(steps, p)|
    ensures Pages(steps, lo, hi)[Count(steps, lo, p - 1) .. Count(steps, lo, p - 1) + |ContactsOf(steps, p)|]
            == ContactsOf(steps, p)
    decreases p - lo
  {
    PagesLength(steps, lo, hi);
    PagesLength(steps, lo + 1, hi);
    if p == lo {
      assert Count(steps, lo, p - 1) == 0;
      assert Pages(steps, lo, hi) == ContactsOf(steps, lo) + Pages(steps, lo + 1, hi);
    } else {
      PageIsSlice(steps, lo + 1, p, hi);
      var off := Count(steps, lo + 1, p - 1);
      var n := |ContactsOf(steps, p)|;
      var first := ContactsOf(steps, lo);
      var rest := Pages(steps, lo + 1, hi);
      assert Count(steps, lo, p - 1) == |first| + off;
      assert Pages(steps, lo, hi) == first + rest;
      assert (first + rest)[|first| + off .. |first| + off + n] == rest[off .. off + n];
    }
  }

  /** A successful walk from page 1 returns pages 1 to k concatenated, so
      each fetched page sits at the offset fixed by the pages before it. */
  lemma WalkSuccessIsConcatenation(steps: int -> PageStep, i: int)
    requires Bounded(steps)
    requires Walk(steps, 1).result.Success?
    requires 0 <= i < |Walk(steps, 1).requested|
    ensures var a := Walk(steps, 1); var k := |a.requested|;
            && steps(i + 1).Fetched?
            && a.result.value == Pages(steps, 1, k)
            && |a.result.value| == Count(steps, 1, k)
            && Count(steps, 1, i) + |steps(i + 1).contacts| <= Count(steps, 1, k)
            && a.result.value[Count(steps, 1, i) .. Count(steps, 1, i) + |steps(i + 1).contacts|]
               == steps(i + 1).contacts
  {
    var a := Walk(steps, 1);
    var k := |a.requested|;
    WalkFromFirstPage(steps);
    PageWithinStop(steps, k, i + 1);
    PagesLength(steps, 1, k);
    PageIsSlice(steps, 1, i + 1, k);
  }

  /** Every page before the stopping page was fetched, and so was the
      stopping page itself unless it failed. */
  lemma PageWithinStop(steps: int -> PageStep, k: int, p: int)
    requires StopsAt(steps, k)
    requires steps(k).Fetched?
    requires 1 <= p <= k
    ensures steps(p).Fetched? && ContactsOf(steps, p) == steps(p).contacts
  {
    if p < k {
      assert Continues(steps, p);
    }
  }

  /** On success every requested page answered 200 with a decodable body,
      and the result is the concatenation of those pages in request order,
      each page's contacts appearing in their own order at the offset fixed
      by the pages before it; its length is the sum of the page sizes, so
      nothing is dropped, filtered or merged. */
  lemma SuccessIsConcatenation(up: Upstream, i: int)
    requires FetchAll(up).result.Success?
    requires 0 <= i < |FetchAll(up).requested|
    ensures var a := FetchAll(up); var p := a.requested[i]; var k := |a.requested|;
            && up(p).Delivered? && up(p).response.status == 200 && up(p).response.contacts.Some?
            && a.result.value == Pages(Steps(up), 1, k)
            && |a.result.value| == Count(Steps(up), 1, k)
            && Count(Steps(up), 1, p - 1) + |up(p).response.contacts.value| <= Count(Steps(up), 1, k)
            && a.result.value[Count(Steps(up), 1, p - 1) .. Count(Steps(up), 1, p - 1) + |up(p).response.contacts.value|]
               == up(p).response.contacts.value
  {
    StepsBounded(up);
    FetchAllMatchesReference(up);
    WalkSuccessIsConcatenation(Steps(up), i);
    assert Steps(up)(i + 1) == Step(up, i + 1);
  }

  /** Without a `Total-Pages` header on page 1, exactly one request is made
      and the result is page 1's contacts. */
  lemma HeaderAbsentSingleRequest(up: Upstream, cs: seq<Contact>)
    requires up(1) == Delivered(Response(200, Some(cs), None))
    ensures FetchAll(up) == Aggregation([1], Success(cs))
  {
  }

  /** A total of 1 or less (0 and negative totals included) still fetches
      page 1 and stops right after it. */
  lemma SmallTotalStopsAfterFirstPage(up: Upstream, cs: seq<Contact>, header: string)
    requires up(1) == Delivered(Response(200, Some(cs), Some(header)))
    requires ParseInt(header).Some? && ParseInt(header).value <= 1
    ensures FetchAll(up) == Aggregation([1], Success(cs))
  {
  }

  /** The total that decides whether page `p + 1` is requested is the one
      page `p` announced, not the one page 1 did: a later page can extend or
      cut short the walk. */
  lemma LatestTotalDecides(up: Upstream, p: int, cs: seq<Contact>, header: Option<string>)
    requires 1 <= p <= |FetchAll(up).requested|
    requires up(p) == Delivered(Response(200, Some(cs), header))
    requires TotalPages(header).Some?
    ensures p < |FetchAll(up).requested| <==> p < TotalPages(header).value
  {
    NextPageRequestedIff(up, p - 1);
    assert Steps(up)(p) == Fetched(cs, TotalPages(header).value);
  }

  /** A requested page without a `Total-Pages` header counts as announcing
      one page in all, so it is the last page requested, whichever it is. */
  lemma AbsentHeaderEndsWalk(up: Upstream, p: int, cs: seq<Contact>)
    requires 1 <= p <= |FetchAll(up).requested|
    requires up(p) == Delivered(Response(200, Some(cs), None))
    ensures p == |FetchAll(up).requested|
  {
    LatestTotalDecides(up, p, cs, None);
  }

  /** All or nothing: if any requested page is not answered with 200, the
      call fails with that page's status, that page is the last one
      requested, and no contacts are returned. */
  lemma NonOkPageFails(up: Upstream, i: int)
    requires 0 <= i < |FetchAll(up).requested|
    requires var p := FetchAll(up).requested[i];
             up(p).Delivered? && up(p).response.status != 200
    ensures var a := FetchAll(up); var p := a.requested[i];
            && i == |a.requested| - 1
            && a.result == Failure(UpstreamError(p, up(p).response.status))
  {
    var a := FetchAll(up);
    FetchAllMatchesReference(up);
    var p := a.requested[i];
    assert Steps(up)(p) == Failed(UpstreamError(p, up(p).response.status));
    assert !Continues(Steps(up), p);
  }

  /** A `Total-Pages` header that `Integer.parseInt` rejects, on any
      requested page that is otherwise fine, makes the call fail. */
  lemma MalformedHeaderFails(up: Upstream, i: int, cs: seq<Contact>, header: string)
    requires 0 <= i < |FetchAll(up).requested|
    requires up(FetchAll(up).requested[i]) == Delivered(Response(200, Some(cs), Some(header)))
    requires ParseInt(header).None?
    ensures i == |FetchAll(up).requested| - 1
    ensures FetchAll(up).result == Failure(MalformedTotalPages(FetchAll(up).requested[i], header))
  {
    var a := FetchAll(up);
    FetchAllMatchesReference(up);
    var p := a.requested[i];
    assert Steps(up)(p) == Failed(MalformedTotalPages(p, header));
    assert !Continues(Steps(up), p);
  }

  /** A failed call failed on the last page it requested; every earlier
      page was fetched. */
  lemma FailureIsAtLastPage(up: Upstream)
    requires FetchAll(up).result.Failure?
    ensures var a := FetchAll(up);
            && a.result.error.page == |a.requested|
            && Step(up, |a.requested|) == Failed(a.result.error)
            && forall p :: 1 <= p < |a.requested| ==> Step(up, p).Fetched?
  {
    var a := FetchAll(up);
    FetchAllMatchesReference(up);
    var k := |a.requested|;
    assert Steps(up)(k).Failed?;
    forall p | 1 <= p < k ensures Step(up, p).Fetched? {
      assert Continues(Steps(up), p);
    }
  }

  // ---------------------------------------------------------------------
  // The loop as written.

  /** `getAllContacts()` as a loop: request page after page, abandon on the
      first failure, append each page's contacts, and go on while the page
      number is below the total the latest response announced. The checks on
      each response come in source order: the status, then the body, then the
      `Total-Pages` header. */
  method GetAllContacts(up: Upstream) returns (requested: seq<int>, result: Result<seq<Contact>, FetchError>)
    ensures Aggregation(requested, result) == FetchAll(up)
    ensures |requested| >= 1 && forall i :: 0 <= i < |requested| ==> requested[i] == i + 1
  {
    StepsBounded(up);
    var contacts: seq<Contact> := [];
    var page := 1;
    var morePages := true;
    requested := [];
    ResumeNothing(Walk(Steps(up), page));
    while morePages
      invariant morePages ==> 1 <= page <= Int32Max
      invariant morePages ==> Resume(requested, contacts, Walk(Steps(up), page)) == FetchAll(up)
      invariant !morePages ==> Aggregation(requested, Success(contacts)) == FetchAll(up)
      invariant page <= Int32Max + 1
      invariant |requested| == page - 1
      invariant forall i :: 0 <= i < |requested| ==> requested[i] == i + 1
      decreases Int32Max + 1 - page
    {
      var previous := requested;
      requested := requested + [page];
      assert Steps(up)(page) == Step(up, page);
      var exchange := up(page);
      if exchange.TransportFailure? {
        result := Failure(TransportError(page));
        return;
      }
      var response := exchange.response;
      if response.status != 200 {
        result := Failure(UpstreamError(page, response.status));
        return;
      }
      if response.contacts.None? {
        result := Failure(UndecodableBody(page));
        return;
      }
      var current := response.contacts.value;
      var collected := contacts;
      contacts := contacts + current;
      var totalPages := TotalPages(response.totalPagesHeader);
      if totalPages.None? {
        result := Failure(MalformedTotalPages(page, response.totalPagesHeader.value));
        return;
      }
      morePages := page < totalPages.value;
      if morePages {
        ResumeTwice(previous, [page], collected, current, Walk(Steps(up), page + 1));
      }
      page := page + 1;
    }
    result := Success(contacts);
  }

  lemma ResumeNothing(a: Aggregation)
    ensures Resume([], [], a) == a
  {
    assert [] + a.requested == a.requested;
    if a.result.Success? {
      assert [] + a.result.value == a.result.value;
    }
  }

  lemma ResumeTwice(r1: seq<int>, r2: seq<int>, c1: seq<Contact>, c2: seq<Contact>, a: Aggregation)
    ensures Resume(r1, c1, Resume(r2, c2, a)) == Resume(r1 + r2, c1 + c2, a)
  {
    assert r1 + (r2 + a.requested) == (r1 + r2) + a.requested;
    if a.result.Success? {
      assert c1 + (c2 + a.result.value) == (c1 + c2) + a.result.value;
    }
  }
}
