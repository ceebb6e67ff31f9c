/** The `GET /contacts` endpoint (`ContactResource.getAllContacts`): it runs
    the aggregator and turns its outcome into an HTTP response. Every
    failure, whatever its cause, becomes the same 500 response. */
module ContactResource {
  import opened Wrappers
  import opened Contacts
  import opened ContactService

  const StatusOk: int := 200
  const StatusInternalServerError: int := 500

  /** The entity of the error response, a fixed JSON text. */
  const ErrorBody: string := "{\"error\": \"Internal Server Error\"}"

  /** A response entity: the contact list, written as a JSON array, or a
      literal text. */
  datatype Body = ContactArray(contacts: seq<Contact>) | Text(text: string)

  datatype HttpResponse = HttpResponse(status: int, body: Body)

  /** The `try`/`catch` around the service call. */
  function Respond<E>(outcome: Result<seq<Contact>, E>): (r: HttpResponse)
    ensures r.status == StatusOk <==> outcome.Success?
    ensures r.status == StatusOk || r.status == StatusInternalServerError
    ensures r.body.ContactArray? <==> outcome.Success?
  {
    match outcome
    case Success(contacts) => HttpResponse(StatusOk, ContactArray(contacts))
    case Failure(_) => HttpResponse(StatusInternalServerError, Text(ErrorBody))
  }

  /** What a client reads back from a response: the contact list of a 200
      response, nothing otherwise. */
  function ClientView(r: HttpResponse): Option<seq<Contact>>
  {
    if r.status == StatusOk && r.body.ContactArray? then Some(r.body.contacts) else None
  }

  /** The endpoint hands the service's list to the client unchanged (same
      length, order and elements, the empty list included), and hands over
      nothing when the service failed. */
  lemma ClientSeesServiceList<E>(outcome: Result<seq<Contact>, E>)
    ensures ClientView(Respond(outcome)) == outcome.ToOption()
  {
  }

  /** Every failure gives the same response, so nothing about the cause, and
      no contact, reaches the client. */
  lemma FailureHidesCause<E>(e1: E, e2: E)
    ensures Respond<E>(Failure(e1)) == Respond<E>(Failure(e2))
    ensures Respond<E>(Failure(e1)) == HttpResponse(StatusInternalServerError, Text(ErrorBody))
  {
  }

  /** An empty list is a success, not an error. */
  lemma EmptyListIsOk<E>()
    ensures Respond<E>(Success([])) == HttpResponse(StatusOk, ContactArray([]))
  {
  }

  /** Every element of a 200 answer is written with all six keys, in the
      fixed order, a null value standing exactly for a null property. */
  lemma ElementsWrittenInKeyOrder<E>(outcome: Result<seq<Contact>, E>, j: int)
    requires ClientView(Respond(outcome)).Some? && 0 <= j < |ClientView(Respond(outcome)).value|
    ensures Respond(outcome).status == StatusOk
    ensures var c := ClientView(Respond(outcome)).value[j];
            var members := Serialize(c);
            && |members| == 6
            && members[0].0 == "id" && members[1].0 == "name" && members[2].0 == "email"
            && members[3].0 == "source" && members[4].0 == "created_at" && members[5].0 == "updated_at"
            && forall i :: 0 <= i < 6 ==> (members[i].1 == JNull <==> !Present(c, KeyOrder[i]))
  {
    KeyOrderSpelled();
  }

  // ---------------------------------------------------------------------
  // The endpoint end to end, over an upstream.

  /** `GET /contacts` against upstream `up`: the client gets the aggregated
      list exactly when the aggregation succeeded, and the fixed error
      response otherwise. */
  function GetContacts(up: Upstream): (r: HttpResponse)
    ensures ClientView(r) == FetchAll(up).result.ToOption()
    ensures r.status != StatusOk ==> r == HttpResponse(StatusInternalServerError, Text(ErrorBody))
  {
    Respond(FetchAll(up).result)
  }

  /** If any requested page is answered with a status other than 200, the
      endpoint answers 500 with the fixed error text, and no contact of an
      earlier page is sent. */
  lemma NonOkPageGives500(up: Upstream, i: int)
    requires 0 <= i < |FetchAll(up).requested|
    requires var p := FetchAll(up).requested[i];
             up(p).Delivered? && up(p).response.status != 200
    ensures GetContacts(up) == HttpResponse(StatusInternalServerError, Text(ErrorBody))
  {
    NonOkPageFails(up, i);
  }

  /** A 200 answer carries every requested page's contacts, concatenated in
      page order. */
  lemma OkCarriesAllPages(up: Upstream)
    requires GetContacts(up).status == StatusOk
    ensures GetContacts(up).body == ContactArray(Pages(Steps(up), 1, |FetchAll(up).requested|))
  {
    FetchAllMatchesReference(up);
    var k := |FetchAll(up).requested|;
    assert Steps(up)(k).Fetched?;
  }
}
