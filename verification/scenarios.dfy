/** The endpoint applied to concrete upstreams, each with the response it
    must give. */
module Scenarios {
  import opened Wrappers
  import opened Contacts
  import opened TotalPagesHeader
  import opened ContactService
  import opened ContactResource

  /** The contact the tests build: id 1, "Jaime Enriquez". */
  function Jaime(): Contact
  {
    SetEmail(SetName(SetId(NewContact(), Some(1)), Some("Jaime Enriquez")), Some("jaime.a.enriquez@gmail.com"))
  }

  /** An upstream whose every page answers `status`, `contacts` and `header`. */
  function Constant(status: int, contacts: seq<Contact>, header: Option<string>): Upstream
  {
    p => Delivered(Response(status, Some(contacts), header))
  }

  /** The endpoint over a one-page upstream whose page holds one contact:
      200, and the client reads that one contact back. */
  lemma SinglePageOneContact()
    ensures var r := GetContacts(Constant(200, [Jaime()], Some("1")));
            && r.status == StatusOk
            && ClientView(r) == Some([Jaime()])
            && ClientView(r).value[0].name == Some("Jaime Enriquez")
  {
  }

  /** Two pages announcing two pages in all: both are requested, in order,
      and their contacts are concatenated. */
  lemma TwoPagesConcatenated(c1: Contact, c2: Contact)
    ensures var up: Upstream := p => Delivered(Response(200, Some(if p == 1 then [c1] else [c2]), Some("2")));
            && FetchAll(up).requested == [1, 2]
            && GetContacts(up) == HttpResponse(StatusOk, ContactArray([c1, c2]))
  {
  }

  /** An upstream that answers 401 makes the endpoint answer 500 with the
      fixed error text. */
  lemma UnauthorizedUpstream()
    ensures GetContacts(Constant(401, [], None)) == HttpResponse(StatusInternalServerError, Text(ErrorBody))
  {
  }

  /** A page without `Total-Pages`: one request, and both contacts of that
      page come back. */
  lemma MissingHeaderOneRequest(c1: Contact, c2: Contact)
    ensures FetchAll(Constant(200, [c1, c2], None)) == Aggregation([1], Success([c1, c2]))
  {
  }

  /** A total of 0 still fetches page 1 and returns its contacts. */
  lemma ZeroTotalPages(c1: Contact)
    ensures GetContacts(Constant(200, [c1], Some("0"))) == HttpResponse(StatusOk, ContactArray([c1]))
  {
  }

  /** A non-numeric total makes the endpoint answer 500. */
  lemma NonNumericTotalPages(c1: Contact)
    ensures GetContacts(Constant(200, [c1], Some("two"))) == HttpResponse(StatusInternalServerError, Text(ErrorBody))
  {
  }
}
