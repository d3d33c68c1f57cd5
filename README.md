# Classified ads: a verified model of the service core

This project models, in Dafny, the logic of a small classified-ads system: an
ASP.NET Core server that stores ads in a JSON file, and an Angular client that
edits them.

- **Server side:**
  - the ad service's list query: filters, an optional geo-radius branch, the sort and the pagination;
  - its create, delete, look-up and partial-update operations on the stored list;
  - the two request validators;
  - the geocoding endpoint's one-request-per-second throttle and its result classification;
  - the `WithTraceId` Problem Details helper.
- **Client side:**
  - the ad form's group validators and its submit mapping;
  - the address-to-coordinates machinery (the address change handler and the debounced geocoding pipeline), as a state machine;
  - the error-message interceptor;
  - the loading-indicator counter;
  - the query-parameter filter of the HTTP client.

How the code's form is kept:
- Code that computes a value is modelled as functions.
- Code that changes state is modelled as a class whose methods state the whole new state.
  - `AdsService.AdsStore` holds the stored list.
  - `Geocoding.GeocodingGate` holds `_lastRequest` and the clock.
  - `AdsForm.AddressGeocoder` holds the form fields and the hidden rxjs state: the debounced value, the last value let through, the open request, and whether the pipeline is alive.
  - `LoadingInterceptor.LoadingTracker` holds the counter and the body class.
  - `ProblemDetailsExtensions.ProblemDetails` holds the extension map.

Inputs that are not part of the model:
- The Haversine distance is a parameter `dist`; every ordering and inclusion property is proved for every `dist`.
- The e-mail format check is a parameter `isEmail`.
- `double.TryParse` is a parameter `parse`.
- The upstream geocoder's answer and the clock are inputs.

Representations:
- Strings are `seq<char>`:
  - white space is ASCII 9-13, space and U+00A0;
  - lower-casing touches ASCII letters only;
  - titles sort by ordinal lexicographic order.
- Time is a count of 100-ns ticks and a `Guid` is a natural number.
- `decimal` and `double` values are `real`.
- C# `int` is the subset type `Int32`. The 32-bit wrap-around of the page offset is written out in `AdsQuery.PaginateAsWritten`. The list endpoint `GetList` uses the corrected offset; see "## Left out" and "## Findings".

Where the code and its documentation disagree, the model follows the code:
- A geocoding failure for a stale address is documented as discarded.
- In the code it still reaches the subscription's error handler (`ads-form.component.ts:263-267`), which shows the error and ends the pipeline.
- `AddressGeocoder.GeoFailure` states exactly that.

## Model

| member | source | states |
|---|---|---|
| Text.Trim | server/IAI_server/Services/AdsService.cs:78-80 | the trimmed string is no longer than the input, and is empty exactly when the input is all white space |
| Text.TrimEnds | server/IAI_server/Services/AdsService.cs:80 | the trimmed string is the input minus a blank prefix and a blank suffix, and starts and ends with a non-white-space character |
| Text.TrimBorders | server/IAI_server/Services/AdsService.cs:80 | the trimmed string is the input minus a blank prefix and a blank suffix, and nothing else is removed |
| Text.TrimIdempotent | Client/src/app/features/ads/ads-form/ads-form.component.ts:139-141 | trimming twice is trimming once |
| Text.Lower | server/IAI_server/Services/AdsService.cs:130-131 | definition: `ToLowerInvariant` / `toLowerCase` on ASCII letters, one character at a time |
| Text.LowerCaseBlind | server/IAI_server/Services/AdsService.cs:82-83 | lower-casing leaves no upper-case letter and is idempotent, and neither the ignore-case equality nor the ignore-case `Contains` can tell a string from its lower-cased form |
| Text.Normalize | Client/src/app/features/ads/ads-form/ads-form.component.ts:139-141 | definition: the client's comparison form of an address, `trim().toLowerCase()`, used again at lines 186-187, 205, 216 and 244 |
| Text.IsInfixAt | server/IAI_server/Services/AdsService.cs:82-83 | the recursive substring test holds exactly when the needle occurs at some index of the haystack |
| Text.LexTotal | server/IAI_server/Services/AdsService.cs:162-163 | any two titles are comparable |
| Text.LexTransitive | server/IAI_server/Services/AdsService.cs:162-163 | the title order is transitive |
| Text.LexAntisymmetric | server/IAI_server/Services/AdsService.cs:162-163 | titles that sort both ways are equal |
| StableSort.Insert | server/IAI_server/Services/AdsService.cs:160-170 | inserting adds exactly one element to the multiset |
| StableSort.Sort | server/IAI_server/Services/AdsService.cs:160-170 | sorting is a permutation of its input |
| StableSort.InsertSorted | server/IAI_server/Services/AdsService.cs:160-170 | inserting into a sorted list under a total preorder keeps it sorted |
| StableSort.SortSorted | server/IAI_server/Services/AdsService.cs:160-170 | the sort's output is sorted under any total preorder |
| StableSort.TiesAppend | server/IAI_server/Services/AdsService.cs:160-170 | the elements tied with a key are collected piecewise over a concatenation |
| StableSort.InsertTies | server/IAI_server/Services/AdsService.cs:160-170 | inserting places the new element before its ties and leaves every class of equal keys in order |
| StableSort.TieBlocked | server/IAI_server/Services/AdsService.cs:160-170 | an element the inserted one may not precede is not tied with the inserted one's class |
| StableSort.SortStable | server/IAI_server/Services/AdsService.cs:160-170 | the sort is stable: every class of equal keys keeps its input order |
| AdsQuery.Where | server/IAI_server/Services/AdsService.cs:81-100 | a filter never lengthens the list |
| AdsQuery.WhereMembers | server/IAI_server/Services/AdsService.cs:81-100 | an ad survives a filter exactly when it was in the list and passes; no ad is duplicated |
| AdsQuery.WhereIsSubsequence | server/IAI_server/Services/AdsService.cs:81-100 | a filter's result is a subsequence of its input |
| AdsQuery.WhereWhere | server/IAI_server/Services/AdsService.cs:78-101 | two filters in a row equal one filter on the conjunction |
| AdsQuery.WhereSamePredicate | server/IAI_server/Services/AdsService.cs:78-101 | filters with pointwise-equal conditions give the same list |
| AdsQuery.WhereMonotone | server/IAI_server/Services/AdsService.cs:78-101 | a stronger condition keeps no more ads |
| AdsQuery.MatchesText | server/IAI_server/Services/AdsService.cs:78-84 | definition: a blank or absent `q` keeps every ad; otherwise the trimmed `q` must occur, ignoring case, in a non-empty title or a non-empty description |
| AdsQuery.MatchesCategory | server/IAI_server/Services/AdsService.cs:86-87 | definition: a blank or absent category keeps every ad; otherwise the ad's category must equal it, ignoring case, and an ad without a category never matches |
| AdsQuery.ApplyFilters | server/IAI_server/Services/AdsService.cs:76-101 | definition: the text, category, min-price, max-price and has-location filters, each applied only when its parameter is given, in the source's order |
| AdsQuery.GeoFilter | server/IAI_server/Services/AdsService.cs:104-124 | definition: keeps the ads with both coordinates whose distance from the user is at most the radius (10 km by default) |
| AdsQuery.ListOrder | server/IAI_server/Services/AdsService.cs:155-170 | definition: the (key, direction) switch of the list branch; every pair outside the seven listed ones sorts by creation time descending |
| AdsQuery.GeoTieBreak | server/IAI_server/Services/AdsService.cs:130-151 | definition: the secondary key of the geo branch; an unknown key means creation time, and any direction but "asc" is descending |
| AdsQuery.Ordered | server/IAI_server/Services/AdsService.cs:72-173 | definition: the filtered ads, restricted to the radius and sorted by distance then field in the geo branch, or sorted by the list order otherwise |
| AdsQuery.ApplyFiltersIsOneWhere | server/IAI_server/Services/AdsService.cs:76-101 | the chain of text, category, min-price, max-price and has-location filters is one filter on their conjunction |
| AdsQuery.KeyLeTotalPreorder | server/IAI_server/Services/AdsService.cs:160-170 | every (field, direction) order of the list branch is a total preorder |
| AdsQuery.GeoOrderTotalPreorder | server/IAI_server/Services/AdsService.cs:127-151 | distance then the requested field is a total preorder |
| AdsQuery.Offset | server/IAI_server/Services/AdsService.cs:181 | the page offset of a valid page and size is never negative |
| AdsQuery.Paginate | server/IAI_server/Services/AdsService.cs:175-191 | page = max(1, page), pageSize is clamped to 1..100, total is the list length, and the items are the slice from (page-1)*pageSize of length min(pageSize, what remains) |
| AdsQuery.GetList | server/IAI_server/Services/AdsService.cs:72-191 | the page number is max(1, page), the size is clamped to 1..100, a page holds at most that many ads, and every ad shown is stored and passes every filter |
| AdsQuery.BeforeSortIsMatching | server/IAI_server/Services/AdsService.cs:76-124 | before the sort, both branches hold exactly the ads that pass every filter, in store order |
| AdsQuery.OrderedIsPermutationOfMatching | server/IAI_server/Services/AdsService.cs:104-173 | the sorted list is a permutation of the matching ads: an ad is in it exactly when it is stored and passes every filter |
| AdsQuery.OrderedSortedByListOrder | server/IAI_server/Services/AdsService.cs:155-172 | without the geo branch the list is sorted by the (key, direction) pair's order |
| AdsQuery.OrderedByDistanceThenField | server/IAI_server/Services/AdsService.cs:104-153 | with the geo branch every ad has coordinates, distances never decrease, and equal distances follow the requested field |
| AdsQuery.OrderedIsStable | server/IAI_server/Services/AdsService.cs:127-170 | ads with equal sort keys keep their store order in both branches |
| AdsQuery.TotalCountsMatches | server/IAI_server/Services/AdsService.cs:179 | Total is the number of matching ads before paging, at most the number stored |
| AdsQuery.AddingFiltersNeverIncreasesTotal | server/IAI_server/Services/AdsService.cs:78-124 | a query that adds filters to another never has a larger Total |
| AdsQuery.MissingPriceAsymmetry | server/IAI_server/Services/AdsService.cs:90-93 | an ad without a price counts as 0 for the price filters but sorts below every price (`decimal.MinValue`) |
| AdsQuery.UnknownSortKeyFallsBack | server/IAI_server/Services/AdsService.cs:148-150 | an unknown key sorts by creation time, descending in the list branch and by the direction in the geo branch; an unknown direction falls back to creation time descending |
| AdsQuery.OffsetStep | server/IAI_server/Services/AdsService.cs:181 | each page starts one page size after the previous one |
| AdsQuery.PageExtendsPrefix | server/IAI_server/Services/AdsService.cs:180-182 | the prefix before page k followed by page k is the prefix before page k+1 |
| AdsQuery.PagesUpToIsPrefix | server/IAI_server/Services/AdsService.cs:175-184 | pages 1..k concatenated are exactly the list's first k*pageSize ads |
| AdsQuery.AllPagesReproduceList | server/IAI_server/Services/AdsService.cs:175-184 | once the pages cover the list, their concatenation is the whole list: no duplicate, no omission |
| AdsQuery.PaginateAsWritten | server/IAI_server/Services/AdsService.cs:181 | the 32-bit offset agrees with the exact one whenever it fits in an `int` |
| AdsQuery.GetListAsWrittenBelowOverflow | server/IAI_server/Services/AdsService.cs:175-191 | the endpoint with the 32-bit offset returns exactly `GetList`'s page whenever the offset fits in an `int` |
| AdsQuery.PageOffsetOverflow | server/IAI_server/Services/AdsService.cs:181 | page 21474838 of size 100 returns the first ad as written, and nothing with the exact offset |
| Validation.QueryParamsValid | server/IAI_server/Validation/QueryParamsValidator.cs:10-37 | definition: page >= 1; size 1..100; prices not negative and min <= max; direction empty, asc or desc ignoring case; any location parameter demands both coordinates in range and a positive radius when one is given |
| Validation.UpdateAdValid | server/IAI_server/Validation/UpdateAdValidator.cs:10-26 | definition: each rule applies only to a field that is present: title 1-80 and description 1-2000 characters, not blank; price not negative; a contact has a name, an e-mail or a phone, and any e-mail given is well-formed; coordinates in range |
| Validation.EmptyUpdateIsValid | server/IAI_server/Validation/UpdateAdValidator.cs:10-26 | an update request with every field absent passes, whatever the e-mail check |
| Validation.RadiusAloneIsRejected | server/IAI_server/Validation/QueryParamsValidator.cs:25-33 | a radius without both coordinates fails |
| Validation.DefaultQueryIsValid | server/IAI_server/Contracts/AdsQueryParams.cs:18-21 | the default query (page 1, size 10, createdAt, desc) passes |
| Validation.ValidQueryKeepsPaging | server/IAI_server/Validation/QueryParamsValidator.cs:10-11 | on a valid query the service's clamping leaves page and page size as sent |
| Validation.ValidQueryLocationMeansGeo | server/IAI_server/Validation/QueryParamsValidator.cs:25-37 | on a valid query a location parameter appears exactly when the geo branch runs, with a positive radius |
| Validation.ValidQuerySortDir | server/IAI_server/Validation/QueryParamsValidator.cs:18-22 | on a valid query the lower-cased direction is "asc", "desc" or "" |
| AdsService.NewAd | server/IAI_server/Services/AdsService.cs:20-44 | definition: the ad built from a create request, contact and location copied field by field, both stamps `now` |
| AdsService.MergeContact | server/IAI_server/Services/AdsService.cs:206-212 | definition: a missing contact is created; the name is replaced only by a non-null one, phone and e-mail always |
| AdsService.MergeLocation | server/IAI_server/Services/AdsService.cs:214-220 | definition: a missing location is created; each of address, lat and lng is replaced only by a non-null value |
| AdsService.ApplyUpdate | server/IAI_server/Services/AdsService.cs:201-222 | definition: title, description and category replaced only by non-empty values, price by a non-null one, contact and location merged when sent, UpdatedAt set to now |
| AdsService.IndexOfId | server/IAI_server/Services/AdsService.cs:57 | the index found holds the id and no earlier ad does; none is found only when no ad has the id |
| AdsService.FindById | server/IAI_server/Services/AdsService.cs:57 | the scan returns the first index holding the id |
| AdsService.AdsStore.constructor | server/IAI_server/Persistence/FileAdsRepository.cs:19-44 | the store starts with the list read from the file |
| AdsService.AdsStore.Create | server/IAI_server/Services/AdsService.cs:20-51 | exactly one ad is appended, copied from the request, with CreatedAt = UpdatedAt = now; the earlier ads stay in place |
| AdsService.AdsStore.Delete | server/IAI_server/Services/AdsService.cs:54-63 | unknown id: false, nothing written; otherwise the first ad with the id is removed, the rest keep their order, and the result is true |
| AdsService.AdsStore.GetById | server/IAI_server/Services/AdsService.cs:65-70 | returns the first ad with the id, or null |
| AdsService.AdsStore.GetList | server/IAI_server/Services/AdsService.cs:72-192 | the list endpoint returns the query pipeline's page over the stored list |
| AdsService.AdsStore.Update | server/IAI_server/Services/AdsService.cs:195-226 | unknown id: null, nothing written; otherwise only the first ad with the id changes, to the partial merge of the request stamped now, and that ad is returned |
| AdsService.Lookup | server/IAI_server/Services/AdsService.cs:65-70 | definition: `FirstOrDefault(x => x.Id == id)`, the ad at the first index holding the id, or none |
| AdsService.RemoveAt | server/IAI_server/Services/AdsService.cs:57-59 | definition: `list.Remove(existing)` on the first match: the ads before it, then the ads after it |
| AdsService.LookupMeaning | server/IAI_server/Services/AdsService.cs:65-70 | a found ad is stored and has the id; nothing is found only when no stored ad has it |
| AdsService.CreateThenGet | server/IAI_server/Services/AdsService.cs:20-51 | after a create with a fresh id the earlier ads are the prefix, the new ad is found by its id, and unique ids stay unique |
| AdsService.RemoveAtShape | server/IAI_server/Services/AdsService.cs:59 | removing one ad shortens the list by one, keeps the ads before it and shifts the rest down |
| AdsService.RemoveAtMultiset | server/IAI_server/Services/AdsService.cs:59 | removing one ad drops exactly one occurrence of it |
| AdsService.DeleteRemovesTheId | server/IAI_server/Services/AdsService.cs:54-63 | with unique ids, after a delete no ad has the id and ids stay unique |
| AdsService.UpdateKeepsIdentity | server/IAI_server/Services/AdsService.cs:195-226 | an update keeps Id and CreatedAt and sets UpdatedAt to now |
| AdsService.EmptyUpdateOnlyStamps | server/IAI_server/Services/AdsService.cs:201-222 | a request with no field changes nothing but UpdatedAt |
| AdsService.UpdateIdempotent | server/IAI_server/Services/AdsService.cs:201-222 | applying the same update twice equals applying it once |
| AdsService.UpdateNestedRules | server/IAI_server/Services/AdsService.cs:206-220 | a missing contact or location is created; a null name keeps the stored one while e-mail and phone are overwritten even by null; each location field is kept when the request's is null; an absent group is untouched |
| AdsService.ValidUpdatePreservesAd | server/IAI_server/Validation/UpdateAdValidator.cs:10-26 | a request that passes the update validator keeps a well-formed ad well-formed (texts non-blank and in length, price not negative, contact usable, coordinates in range, CreatedAt <= UpdatedAt) |
| AdsService.UpdateThenGet | server/IAI_server/Services/AdsService.cs:195-226 | after an update the id finds the updated ad, every other ad is unchanged, and unique ids stay unique |
| Geocoding.NextStamp | server/IAI_server/Controllers/GeocodingController.cs:36-40 | the new `_lastRequest` is at least one second after the previous one and not before the arrival; without a wait it is the arrival time plus the latency |
| Geocoding.GeocodingGate.constructor | server/IAI_server/Controllers/GeocodingController.cs:17-19 | the gate starts free, with `_lastRequest` at `DateTimeOffset.MinValue` |
| Geocoding.GeocodingGate.AdvanceClock | server/IAI_server/Controllers/GeocodingController.cs:36 | time passing changes nothing but the clock |
| Geocoding.GeocodingGate.Geocode | server/IAI_server/Controllers/GeocodingController.cs:28-88 | a null or blank address gives 400 and touches neither the gate nor upstream; otherwise the call waits out the interval, stamps, sends the address upstream once and returns the classified answer, with all stamps one second apart |
| Geocoding.Classify | server/IAI_server/Controllers/GeocodingController.cs:42-82 | definition: an exception or a failed status is 500, a null or empty array 404, unparsable coordinates of the first candidate 500, otherwise 200 with that candidate |
| Geocoding.NotFoundExactly | server/IAI_server/Controllers/GeocodingController.cs:58-59 | 404 comes exactly from a successful answer with a null or empty candidate list |
| Geocoding.OkExactly | server/IAI_server/Controllers/GeocodingController.cs:61-77 | 200 comes exactly when both coordinates of the first candidate parse, and carries them with its display name |
| Geocoding.OtherwiseServerError | server/IAI_server/Controllers/GeocodingController.cs:48-52 | every other answer, an exception included, is 500 "Failed to geocode address"; 400 never comes from upstream |
| Geocoding.OnlyFirstCandidate | server/IAI_server/Controllers/GeocodingController.cs:61 | candidates after the first never change the result |
| Geocoding.SpacedAppend | server/IAI_server/Controllers/GeocodingController.cs:36-40 | a stamp one second after the last keeps the stamps spaced |
| AdsForm.ContactError | Client/src/app/features/ads/ads-form/ads-form.component.ts:14-23 | definition: `required` without a truthy name, else `contactRequired` without a truthy phone or e-mail, else no error |
| AdsForm.LocationError | Client/src/app/features/ads/ads-form/ads-form.component.ts:28-37 | definition: no error without a truthy address, else `locationIncomplete` unless both coordinates are truthy |
| AdsForm.ContactErrorMeaning | Client/src/app/features/ads/ads-form/ads-form.component.ts:14-23 | the contact group is valid exactly when the name and a phone or e-mail are truthy; `required` marks a missing name, `contactRequired` a missing phone and e-mail |
| AdsForm.LocationErrorMeaning | Client/src/app/features/ads/ads-form/ads-form.component.ts:28-37 | the location group is valid exactly when the address is empty or both coordinates are truthy |
| AdsForm.ZeroCoordinateRejected | Client/src/app/features/ads/ads-form/ads-form.component.ts:33 | an address with latitude 0 is refused as incomplete |
| AdsForm.OrUndefined | Client/src/app/features/ads/ads-form/ads-form.component.ts:319-323 | `s \|\| undefined` keeps exactly the truthy strings |
| AdsForm.SubmitBodyAsWritten | Client/src/app/features/ads/ads-form/ads-form.component.ts:305-330 | definition: the update body as written, with `price \|\| undefined`, empty strings sent as absent, and a location only for a truthy address |
| AdsForm.SubmitBody | Client/src/app/features/ads/ads-form/ads-form.component.ts:305-330 | definition: the same body with `price ?? undefined`, so a price of 0 is sent |
| AdsForm.SubmitBodiesAgree | Client/src/app/features/ads/ads-form/ads-form.component.ts:315-330 | the written and the corrected bodies differ only for a price of exactly 0 |
| AdsForm.ZeroPriceIsDropped | Client/src/app/features/ads/ads-form/ads-form.component.ts:318 | as written a form price of 0 leaves the stored price unchanged; with `??` it stores 0 |
| AdsForm.SubmittedPriceIsStored | Client/src/app/features/ads/ads-form/ads-form.component.ts:318 | with `??` the stored price after an edit is the price entered |
| AdsForm.ValidLocationSendsCoordinates | Client/src/app/features/ads/ads-form/ads-form.component.ts:325-329 | a valid location group sends a location exactly when the address is truthy, and then with two non-zero coordinates |
| AdsForm.EmptyCategoryKeepsStored | Client/src/app/features/ads/ads-form/ads-form.component.ts:319 | an empty category is sent as absent, so an edit keeps the stored category |
| AdsForm.AlreadyGeocoded | Client/src/app/features/ads/ads-form/ads-form.component.ts:138-149 | definition: the handler's skip guard: the normalised address equals the normalised last geocoded one (or "" when there is none) and both coordinates are truthy |
| AdsForm.SameAddress | Client/src/app/features/ads/ads-form/ads-form.component.ts:185-189 | definition: the `distinctUntilChanged` comparator: two addresses are the same when they normalise alike |
| AdsForm.AddressGeocoder.constructor | Client/src/app/features/ads/ads-form/ads-form.component.ts:96-112 | the form starts with an empty address, no coordinates, nothing remembered and a live pipeline |
| AdsForm.AddressGeocoder.EditCoordinates | Client/src/app/features/ads/ads-form/ads-form.component.ts:109-110 | typing coordinates changes only lat and lng |
| AdsForm.AddressGeocoder.ClearAddress | Client/src/app/features/ads/ads-form/ads-form.component.ts:127-136 | a blank address clears lat, lng, the error and both remembered addresses, and sends nothing |
| AdsForm.AddressGeocoder.Edit | Client/src/app/features/ads/ads-form/ads-form.component.ts:122-163 | a blank address clears as above; an address equal after trim and lower-casing to the last geocoded one with truthy coordinates is skipped; any other is recorded in `lastSentToSubject` and handed to the debouncer, which a dead pipeline no longer hears |
| AdsForm.AddressGeocoder.DebounceElapsed | Client/src/app/features/ads/ads-form/ads-form.component.ts:181-207 | only the last value survives the debounce; it is dropped when it normalises like the last value let through; otherwise it is dispatched, the form is marked busy with no error, and it replaces any open request |
| AdsForm.AddressGeocoder.GeoSuccess | Client/src/app/features/ads/ads-form/ads-form.component.ts:209-237 | a result for the current address commits lat and lng, records the address twice and clears busy and error; a stale result changes nothing and the form stays busy |
| AdsForm.AddressGeocoder.GeoFailure | Client/src/app/features/ads/ads-form/ads-form.component.ts:239-268 | any failure clears busy, shows the message or the default text, and ends the pipeline for good |
| AdsForm.TypingSendsLastValueOnly | Client/src/app/features/ads/ads-form/ads-form.component.ts:183 | typing "A", "AB", "ABC" without pause sends one request, for "ABC" |
| AdsForm.FailureEndsGeocoding | Client/src/app/features/ads/ads-form/ads-form.component.ts:258-268 | after one failed request no later address is geocoded |
| AdsForm.RetypedAddressIsNotGeocoded | Client/src/app/features/ads/ads-form/ads-form.component.ts:127-136 | after geocoding "Haifa", clearing the address and typing "Haifa" again sends no request and the coordinates stay empty, because `distinctUntilChanged` still holds "Haifa" |
| AdsForm.ClearedAddressStaysBusy | Client/src/app/features/ads/ads-form/ads-form.component.ts:232-236 | clearing the address while a request is open leaves the form busy after the stale answer |
| ErrorInterceptor.UserMessage | Client/src/app/core/interceptors/error.interceptor.ts:11-48 | definition: "Error: " and the event's text for a client-side error; otherwise the body's message, replaced by the fixed text of 401, 403, 404 and 500 |
| ErrorInterceptor.Rethrown | Client/src/app/core/interceptors/error.interceptor.ts:60-63 | the rethrown error is the original with a non-empty `userMessage` |
| ErrorInterceptor.UserMessageNonEmpty | Client/src/app/core/interceptors/error.interceptor.ts:11-48 | the message is never empty |
| ErrorInterceptor.ClientEventIgnoresStatus | Client/src/app/core/interceptors/error.interceptor.ts:13-15 | a client-side event gives "Error: " and its text whatever the status |
| ErrorInterceptor.FixedStatusesOverride | Client/src/app/core/interceptors/error.interceptor.ts:36-47 | 401, 403, 404 and 500 give their fixed texts whatever the body |
| ErrorInterceptor.OtherStatusesKeepBodyMessage | Client/src/app/core/interceptors/error.interceptor.ts:33-35 | 400 and every unlisted status keep the body's message, so "Invalid request" is never produced |
| ErrorInterceptor.BodyPrecedence | Client/src/app/core/interceptors/error.interceptor.ts:18-26 | `title` over `message` over `detail` over the default, and for an object body the response's own message is ignored |
| LoadingInterceptor.LoadingTracker.constructor | Client/src/app/core/interceptors/loading.interceptor.ts:8 | the count starts at 0 with no class |
| LoadingInterceptor.LoadingTracker.Start | Client/src/app/core/interceptors/loading.interceptor.ts:12-19 | a request adds exactly 1 and the class is present; a first request brings the count to 1 |
| LoadingInterceptor.LoadingTracker.Finalize | Client/src/app/core/interceptors/loading.interceptor.ts:22-28 | a finalisation removes exactly 1, and the class stays exactly while requests remain |
| LoadingInterceptor.LoadingTracker.Replay | Client/src/app/core/interceptors/loading.interceptor.ts:8-28 | over any matched run of starts and finalisations the count moves by starts minus finalisations and the class is present exactly while it is positive |
| LoadingInterceptor.NetAppend | Client/src/app/core/interceptors/loading.interceptor.ts:12-23 | the net count of two runs adds up |
| LoadingInterceptor.PairedRequestsCancel | Client/src/app/core/interceptors/loading.interceptor.ts:12-23 | a request and its finalisation around a balanced run leave the count unchanged |
| LoadingInterceptor.AllFinishedClearsLoading | Client/src/app/core/interceptors/loading.interceptor.ts:23-27 | once every started request has finalised the count is 0 and the class is gone |
| ApiClient.KeptParams | Client/src/app/core/services/api-client.service.ts:30-37 | definition: the entries in key order, without those whose value is null, undefined or "", each value as its `String()` text |
| ApiClient.Get | Client/src/app/core/services/api-client.service.ts:29-40 | the URL is base URL + endpoint; no parameter object gives no parameters; otherwise the parameters are the kept entries in key order |
| ApiClient.KeptParamsAppend | Client/src/app/core/services/api-client.service.ts:32-36 | the kept parameters of two runs of keys are concatenated in order |
| ApiClient.KeptParamsMembers | Client/src/app/core/services/api-client.service.ts:33-36 | every entry not null, undefined or "" is sent with its text, and no more parameters than entries |
| ApiClient.KeptParamsSources | Client/src/app/core/services/api-client.service.ts:33-36 | every parameter sent comes from an entry with a sent value and carries its text |
| ApiClient.FalsyValuesStillSent | Client/src/app/core/services/api-client.service.ts:34 | `false` and 0 are sent; null, undefined and "" are dropped |
| ProblemDetailsExtensions.AddTraceId | server/IAI_server/Contracts/ProblemDetailsExtensions.cs:9-10 | `traceId` is present afterwards, every existing member keeps its value, and a missing `traceId` gets the given id |
| ProblemDetailsExtensions.ProblemDetails.constructor | server/IAI_server/Contracts/ProblemDetailsExtensions.cs:7 | the object carries the given extension members |
| ProblemDetailsExtensions.WithTraceId | server/IAI_server/Contracts/ProblemDetailsExtensions.cs:7-12 | the same instance is returned, with its extensions stamped |
| ProblemDetailsExtensions.AddTraceIdIdempotent | server/IAI_server/Contracts/ProblemDetailsExtensions.cs:9-10 | stamping twice with any ids equals stamping once with the first |
| ProblemDetailsExtensions.ExistingTraceIdKept | server/IAI_server/Contracts/ProblemDetailsExtensions.cs:9 | an existing `traceId` is never overwritten |

## Left out

- AdsService.AdsStore.GetList / AdsQuery.GetList: the endpoint is modelled with the corrected page offset (`Paginate`), not the 32-bit wrapped one of `AdsService.cs:181`. The two agree whenever (page-1)*pageSize fits in an `int` (`AdsQuery.GetListAsWrittenBelowOverflow`). Beyond that the source returns pages from the start of the list, and the model returns an empty page; the Findings row records the discrepancy.
- File persistence and locking (`FileAdsRepository`, `FileLock`): JSON files, atomic replace and per-path semaphores. The stored list is the field `AdsStore.ads`. Each operation reads and writes it whole. The unlocked gap between a read and its write is a concurrency matter and is not modelled.
- The Haversine distance and `double` arithmetic: the distance is the parameter `dist`, and coordinates are exact reals.
- Culture-sensitive string operations:
  - Case folding and white space are limited to ASCII plus U+00A0.
  - Titles sort by ordinal lexicographic order, not by the culture comparer `OrderBy` uses.
- E-mail format (`Validators.email`, `EmailAddress()`): the abstract parameter `isEmail`.
- The geocoder's HTTP call, URL building, JSON deserialisation and `double.TryParse`: the answer is the input `Upstream` and parsing is the parameter `parse`.
- The semaphore's queueing of concurrent callers: calls are taken one at a time, so the semaphore itself is not modelled.
- rxjs timing: debounce and `switchMap` cancellation are the events `DebounceElapsed`, `GeoSuccess` and `GeoFailure`, not timers. `lastSentTime` is written but never read, and is left out.
- Geocoding.GeocodingGate.Geocode: the clock is assumed not to run backwards while the call waits.
- The form's field validators (`required`, `minLength`, `maxLength`, `min`) and Angular's form status: the group validators and the submit mapping are modelled, not the form's overall validity. `onSubmit`'s navigation and the create/update HTTP calls are left out.
- Logging and `console.log`.
- LoadingInterceptor.LoadingTracker.Finalize requires an open request: a finalisation without a matching start cannot happen in rxjs and is not modelled.
- AdsService.AdsStore.Create takes the new id as a parameter: `Guid.NewGuid()` is not modelled, and the lemmas assume the id is fresh where they need it.

## Findings

| source | as written | input that shows it | evidently intended | confidence | as-written member | corrected member |
|---|---|---|---|---|---|---|
| server/IAI_server/Services/AdsService.cs:181 | `Skip((page - 1) * pageSize)` multiplies two `int`s in the default unchecked context, so a large page wraps to a negative offset and `Skip` of a negative count returns the list from its start | page = 21474838, pageSize = 100 (both pass the query validator): (page-1)*pageSize = 2147483700 wraps to -2147483596, and a store of one ad returns that ad instead of an empty page | a page past the end is empty | high (not executed) | AdsQuery.PageOffsetOverflow | AdsQuery.Paginate |
| Client/src/app/features/ads/ads-form/ads-form.component.ts:318 | `price: formValue.price \|\| undefined` turns a price of 0 into `undefined`, and the server's update keeps the stored price when none is sent | editing an ad priced 5 and entering 0 leaves the price at 5 | a price of 0, allowed by the form's `min(0)` and by the server's validator, is stored | high (not executed) | AdsForm.ZeroPriceIsDropped | AdsForm.SubmittedPriceIsStored |
