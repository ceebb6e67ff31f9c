# Contacts aggregator: a Dafny model

This project models the contacts service of a small Quarkus application.
Its `GET /contacts` endpoint walks a paginated upstream contacts API page by
page and returns the combined list.

The model covers three parts:

- **The aggregator.** `ContactService.getAllContacts` starts at page 1 and requests one page at a time.
  - It aborts on any status other than 200.
  - It appends each page's contacts in order.
  - It reads the `Total-Pages` header of each response: absent means 1, present goes through `Integer.parseInt`.
  - It continues while the current page number is below that total.
- **The endpoint.** `ContactResource.getAllContacts` maps the aggregator's list to a 200 response. It maps any failure to a 500 response with a fixed JSON error text.
- **The `Contact` record.** It has six nullable properties. `source` defaults to `"KENECT_LABS"`, and each setter changes one property. It is written as a JSON object with all six keys, in a fixed order, nulls included.

## Files

- `wrappers.dfy` (module `Wrappers`): the `Option` and `Result` types.
- `contact.dfy` (module `Contacts`):
  - the `Contact` record, its defaults and its setters;
  - the JSON members it is written as;
  - a strictly typed reader for those members, with the write/read round trip.
- `header.dfy` (module `TotalPagesHeader`):
  - `Integer.parseInt` and its meaning;
  - the absent-header rule;
  - `Integer.toString` with the parse/format round trip.
- `service.dfy` (module `ContactService`):
  - the upstream as an oracle from page number to exchange;
  - the per-page checks and the recursive walk;
  - a loop-free reference definition, with the lemmas that connect the two;
  - the `while` loop as a method, with the per-page checks inline, proved equal to the walk.
- `resource.dfy` (module `ContactResource`): the mapping to an HTTP response, and the endpoint end to end.
- `scenarios.dfy` (module `Scenarios`): the endpoint applied to concrete upstreams, each with the response it yields.

The upstream is a function from page number to what the request produced. Within one call no page is requested twice, so any upstream, even one that changes between requests, looks like such a function to the aggregator.

Termination needs no extra assumption.
- `Integer.parseInt` caps every announced total at 2147483647.
- The walk only moves past page `p` when `p` is below the total.
- So the page number never exceeds that cap, and the distance to the cap shrinks with every request.

## Model

| member | source | states |
|---|---|---|
| ContactService.GetAllContacts | src/main/java/com/example/ContactService.java:58-103 | The loop, with the status, body and header checks inline in source order, returns exactly the pages-requested list and result of the recursive walk from page 1. The pages requested are 1, 2, …, k. |
| ContactService.FetchAll | src/main/java/com/example/ContactService.java:58-103 | `getAllContacts()` as a function: at least one page is requested, and the pages requested are 1, 2, …, k in that order. |
| ContactService.Step | src/main/java/com/example/ContactService.java:75-92 | A page yields contacts and a total exactly when it was delivered with status 200, a decodable body and a parseable (or absent) header. A failure names the page that caused it. Totals lie in the Java `int` range. |
| ContactService.StepYieldsResponse | src/main/java/com/example/ContactService.java:83-92 | A fetched page yields exactly the contacts of its response's body. Its total is the `Total-Pages` header's value, or 1 when the header is absent. |
| ContactService.Walk | src/main/java/com/example/ContactService.java:68-98 | The walk from page `page` requests at least one page, and the pages it requests are consecutive from `page`. |
| ContactService.FetchAllMatchesReference | src/main/java/com/example/ContactService.java:58-103 | The call stops at the first page that does not continue, meaning it failed or is not below its own total. The pages requested are 1..k. The result is that page's error, or pages 1..k concatenated. |
| ContactService.WalkFromFirstPage | src/main/java/com/example/ContactService.java:60-97 | The same agreement with the reference, for any per-page outcomes that respect the `int` bound. |
| ContactService.StopPageUnique | src/main/java/com/example/ContactService.java:93 | Only one page can be the stopping page, so the reference determines the walk. |
| ContactService.NextPageRequestedIff | src/main/java/com/example/ContactService.java:60-97 | Page 1 is requested first, and the i-th request is for page i. Page p+1 is requested if and only if page p was fetched and p is below the total it announced. |
| ContactService.NoPageRequestedTwice | src/main/java/com/example/ContactService.java:60-97 | Requested page numbers strictly increase, so no page is requested twice. |
| ContactService.SuccessIsConcatenation | src/main/java/com/example/ContactService.java:59-86 | On success every requested page answered 200 with a decodable body. The result is those pages concatenated in request order, and its length is the sum of the page sizes. Each page's contacts appear in their own order at the offset the earlier pages fix. |
| ContactService.PagesLength | src/main/java/com/example/ContactService.java:86 | The concatenation of a range of pages is as long as the sum of their sizes. |
| ContactService.PageIsSlice | src/main/java/com/example/ContactService.java:86 | Each page's contacts form a contiguous slice of the concatenation, at the offset given by the sizes of the pages before it. |
| ContactService.HeaderAbsentSingleRequest | src/main/java/com/example/ContactService.java:91-93 | Without a `Total-Pages` header on page 1, exactly one request is made and the result is page 1's contacts. |
| ContactService.SmallTotalStopsAfterFirstPage | src/main/java/com/example/ContactService.java:60-93 | Page 1 is always requested. A total of 1, 0 or a negative number stops the call after it, with page 1's contacts. |
| ContactService.LatestTotalDecides | src/main/java/com/example/ContactService.java:92-93 | After page p, another page is requested if and only if p is below the total announced by page p's own response, where an absent header counts as 1. |
| ContactService.AbsentHeaderEndsWalk | src/main/java/com/example/ContactService.java:91-93 | A requested page, on any page number, that comes without a `Total-Pages` header is the last page requested. |
| ContactService.NonOkPageFails | src/main/java/com/example/ContactService.java:75-80 | A requested page answered with a status other than 200 is the last page requested. The call then fails with that page and status, and no contacts are returned. |
| ContactService.MalformedHeaderFails | src/main/java/com/example/ContactService.java:91-92 | A `Total-Pages` header that `Integer.parseInt` rejects is the last page requested. The call then fails with that page and header. |
| ContactService.FailureIsAtLastPage | src/main/java/com/example/ContactService.java:68-80 | A failed call failed on the last page it requested, with that page's error, and every earlier page was fetched. |
| TotalPagesHeader.ParseInt | src/main/java/com/example/ContactService.java:92 | `Integer.parseInt` yields only values in the Java `int` range; its exact meaning is `TotalPagesHeader.ParseIntMeaning`. |
| TotalPagesHeader.TotalPages | src/main/java/com/example/ContactService.java:91-92 | An absent header counts as one page. A present one gives a value in the `int` range, or nothing. |
| TotalPagesHeader.ParseIntMeaning | src/main/java/com/example/ContactService.java:92 | `Integer.parseInt` accepts exactly an optional sign followed by one or more decimal digits, whose value fits an `int`. It returns that value. |
| TotalPagesHeader.ParseFormatRoundTrip | src/main/java/com/example/ContactService.java:92 | Every `int` written in decimal is parsed back to itself. |
| TotalPagesHeader.OutOfRangeRejected | src/main/java/com/example/ContactService.java:92 | Any decimal numeral (optional sign, leading zeros allowed) whose value lies outside the `int` range is rejected, with no wrap-around. |
| TotalPagesHeader.PlusSignIgnored | src/main/java/com/example/ContactService.java:92 | A leading `+` is accepted and does not change the value. |
| TotalPagesHeader.RejectedHeaders | src/main/java/com/example/ContactService.java:92 | These header texts make the call fail: the empty text, a lone sign, leading or trailing spaces, and a decimal point. |
| ContactResource.Respond | src/main/java/com/example/ContactResource.java:51-63 | Status 200 with the contact array if and only if the service succeeded; otherwise 500. |
| ContactResource.GetContacts | src/main/java/com/example/ContactResource.java:51-63 | `GET /contacts` over an upstream: the client reads the aggregated list exactly when the aggregation succeeded. Any other answer is 500 with the fixed error text. |
| ContactResource.ClientSeesServiceList | src/main/java/com/example/ContactResource.java:54-55 | A client reads back exactly the service's list (same length, order and elements) on success, and nothing on failure. |
| ContactResource.EmptyListIsOk | src/main/java/com/example/ContactResource.java:55 | An empty list is a 200 response with an empty array, not an error. |
| ContactResource.FailureHidesCause | src/main/java/com/example/ContactResource.java:56-61 | Every failure gives the same response: 500 with the body `{"error": "Internal Server Error"}`. |
| ContactResource.NonOkPageGives500 | src/main/java/com/example/ContactResource.java:56-61 | A non-200 answer on any requested upstream page makes the endpoint answer 500 with the fixed error text. |
| ContactResource.OkCarriesAllPages | src/main/java/com/example/ContactResource.java:54-55 | A 200 answer carries every requested page's contacts, concatenated in page order. |
| ContactResource.ElementsWrittenInKeyOrder | src/main/java/com/example/Contact.java:39-40 | An endpoint response whose list the client reads has status 200. Each element is written with the keys `id`, `name`, `email`, `source`, `created_at`, `updated_at` in that order, a null value standing exactly for a null property. |
| Contacts.NewContact | src/main/java/com/example/Contact.java:46-81 | A new contact has source `"KENECT_LABS"`, and every other property is null. |
| Contacts.Get | src/main/java/com/example/Contact.java:90-182 | A getter returns null exactly when the property is null, and always a value of the property's type. |
| Contacts.SetId | src/main/java/com/example/Contact.java:99-101 | The getter returns the value just set, and no other property changes. |
| Contacts.SetName | src/main/java/com/example/Contact.java:117-119 | The getter returns the value just set, and no other property changes. |
| Contacts.SetEmail | src/main/java/com/example/Contact.java:135-137 | The getter returns the value just set, and no other property changes. |
| Contacts.SetSource | src/main/java/com/example/Contact.java:153-155 | The getter returns the value just set (null included, which removes the default), and no other property changes. |
| Contacts.SetCreatedAt | src/main/java/com/example/Contact.java:171-173 | The getter returns the value just set, and no other property changes. |
| Contacts.SetUpdatedAt | src/main/java/com/example/Contact.java:189-191 | The getter returns the value just set, and no other property changes. |
| Contacts.SetterLaws | src/main/java/com/example/Contact.java:99-191 | For each of the six setters: setting a property to its current value changes nothing, and a second call overrides the first. |
| Contacts.SettersCommute | src/main/java/com/example/Contact.java:99-191 | For any two different properties and any values they can hold, calling the two setters in either order gives the same contact. |
| Contacts.AssignOwnValueIdentity | src/main/java/com/example/Contact.java:99-191 | For the setter call the JSON reader makes, on every property: setting the value its getter returns changes nothing. |
| Contacts.AssignOverrides | src/main/java/com/example/Contact.java:99-191 | For the setter call the JSON reader makes, on every property and any two values it accepts: a second call overrides the first. |
| Contacts.SameViewSameContact | src/main/java/com/example/Contact.java:90-182 | The six getters determine a contact: two contacts that agree on all of them are equal. |
| Contacts.Serialize | src/main/java/com/example/Contact.java:39-81 | A contact is written as six members: `id`, `name`, `email`, `source`, `created_at`, `updated_at`, in that order. Each value is what the property's getter returns, null exactly when the property is null, so null properties are still written. |
| Contacts.FieldOfKey | src/main/java/com/example/Contact.java:46-79 | A JSON key belongs to the property written under it. A key no property is written under belongs to none. |
| Contacts.Assign | src/main/java/com/example/Contact.java:99-191 | A JSON value is accepted for a property exactly when it has that property's type or is null. It is then returned by the getter, and no other property changes. |
| Contacts.BindFrom | src/main/java/com/example/Contact.java:46-191 | Reading JSON members calls the setter of each known key. It fails exactly when some known key carries a value of the wrong type, and the error names such a member: one of the input, with a known key and a value its property cannot hold. |
| Contacts.BindFromLastWins | src/main/java/com/example/Contact.java:99-191 | When a known key occurs, its property ends up with the value of the key's last occurrence, because later setter calls override earlier ones. |
| Contacts.Bind | src/main/java/com/example/Contact.java:46-191 | Reading a contact from JSON, starting from `new Contact()`, succeeds exactly when every known key carries a value of its property's type. |
| Contacts.BindFromKeepsAbsent | src/main/java/com/example/Contact.java:46-81 | Reading a JSON object leaves untouched any property whose key does not occur in it. |
| Contacts.MissingSourceDefaults | src/main/java/com/example/Contact.java:64-65 | A contact read from JSON without a `source` key has source `"KENECT_LABS"`. |
| Contacts.MissingSourceWritten | src/main/java/com/example/Contact.java:39-65 | A contact read from JSON without a `source` key is written back with the member `"source": "KENECT_LABS"`, in fourth place. |
| Contacts.BindSerializeRoundTrip | src/main/java/com/example/Contact.java:39-81 | With timestamps taken as opaque text, reading back the JSON a contact is written as yields the same contact, null properties included. |
| Scenarios.SinglePageOneContact | src/main/java/com/example/ContactResource.java:51-55 | The endpoint over a one-page upstream whose page holds one contact answers 200, and the client reads that contact back. |
| Scenarios.TwoPagesConcatenated | src/main/java/com/example/ContactService.java:86-97 | Two pages that announce a total of 2 are requested in order, and their contacts are concatenated. |
| Scenarios.UnauthorizedUpstream | src/main/java/com/example/ContactService.java:75-80 | An upstream answering 401 makes the endpoint answer 500 with the fixed error text. |
| Scenarios.MissingHeaderOneRequest | src/main/java/com/example/ContactService.java:91-92 | A page without `Total-Pages` leads to a single request that returns both of its contacts. |
| Scenarios.ZeroTotalPages | src/main/java/com/example/ContactService.java:93 | A total of 0 still returns page 1's contacts with status 200. |
| Scenarios.NonNumericTotalPages | src/main/java/com/example/ContactService.java:92 | A total of `two` makes the endpoint answer 500. |

## Left out

- HTTP transport is not modelled: the JAX-RS client, the query parameter, the `Authorization: Bearer` header and reading the error body (ContactService.java:62, 69-72, 76). A request is one call of the upstream function. A transport failure is one `Exchange` case, and like any `RuntimeException` it aborts the call.
- Logging is not modelled (ContactService.java:65-66, 84, 88, 96, 101; ContactResource.java:57), because it only has side effects.
- The URL and token configuration (ContactService.java:45-49) and the dependency-injection wiring are not modelled, because they do not affect the result.
- Jackson's decoding of a page body into a contact list is one `Option` per response: `None` means the body does not decode. Jackson's coercions between JSON scalar types are not modelled. `Contacts.Bind` accepts only values of the property's own JSON type, or null.
- Contacts.BindFrom: a key that names no property is assumed to be ignored, as the object mapper Quarkus configures by default does. `Contact` (Contact.java:39-41) carries no `@JsonIgnoreProperties(ignoreUnknown = true)`, and a plain Jackson `ObjectMapper` would reject such an object. The mapper's configuration is not part of the source.
- The `OffsetDateTime` values and their date-format pattern are not modelled (Contact.java:72, 80, 218-226). A timestamp is opaque text. `parseStringToOffsetDateTime` is a library call and is not modelled.
- `toString` (Contact.java:199-208) produces debug text only and is not modelled.
- The `int` wrap-around of `page++` (ContactService.java:97) is not modelled: `ContactService.GetAllContacts` increments an unbounded page number. Only the increment after the last page could overflow, after page 2147483647, and its value is never used, so the result is the same.
- The `Current-Page` header and the 401 pass-through that the integration test expects (ContactResourceIT.java:71, 85-86) are not modelled, because the code does not implement them. An upstream 401 gives 500 here, as in the code.
- TotalPagesHeader.ParseInt accepts only the ASCII digits `0`-`9`. Java's `Integer.parseInt` also accepts digits from other Unicode scripts, such as Arabic-Indic digits.
- `@JsonPropertyOrder` (Contact.java:40) names `createdAt` and `updatedAt`, while the keys are `created_at` and `updated_at`. So the annotation does not fix where `created_at` and `updated_at` go. Jackson places them by its default ordering of the remaining properties, which comes from their getters and setters (`getCreated_at`, `setCreated_at`). The model assumes the order the annotation evidently intends: `Contacts.KeyOrder`, with `created_at` before `updated_at` at the end.
- ContactResource.ElementsWrittenInKeyOrder: a `null` entry in an upstream page's `contacts` array is not modelled. Jackson keeps such an entry, `addAll` (ContactService.java:86) passes it on, and the 200 response writes it as a bare `null` without keys. A page here is a list of contacts, so the lemma speaks only of non-null elements.
- Contacts.BindSerializeRoundTrip: the round trip is stated for timestamps as opaque text. Java writes `created_at` and `updated_at` with the pattern `yyyy-MM-dd'T'HH:mm:ss.SSSXXXXX` in UTC (Contact.java:72, 80). So the Java write/read is the identity only for UTC timestamps with millisecond precision, and reading rejects timestamp text that does not match the pattern, which `Contacts.Assign` accepts.
