/**
 * The server's declarative request rules (`QueryParamsValidator`,
 * `UpdateAdValidator`), each as one predicate that holds exactly when no rule
 * fails. The e-mail format check is the parameter `isEmail`.
 */
module Validation {
  import opened Wrappers
  import opened Text
  import opened AdsDomain
  import opened AdsQuery

  /** `!string.IsNullOrEmpty(s)`. */
  predicate NonEmpty(s: Option<string>) {
    s.Some? && s.value != ""
  }

  /** FluentValidation's `NotEmpty()` on a string: not null, not blank. */
  predicate NotEmptyText(s: Option<string>) {
    s.Some? && !IsBlank(s.value)
  }

  predicate SortDirAllowed(d: Option<string>) {
    d.None? || d.value == "" || EqualsIgnoreCase(d.value, "asc") || EqualsIgnoreCase(d.value, "desc")
  }

  /** Any of the three location parameters switches the location rules on. */
  predicate AnyLocationParam(q: AdsQueryParams) {
    q.userLat.Some? || q.userLng.Some? || q.radius.Some?
  }

  predicate QueryParamsValid(q: AdsQueryParams) {
    && q.page >= 1
    && 1 <= q.pageSize <= 100
    && (q.minPrice.Some? ==> q.minPrice.value >= 0.0)
    && (q.maxPrice.Some? ==> q.maxPrice.value >= 0.0)
    && (q.minPrice.Some? && q.maxPrice.Some? ==> q.minPrice.value <= q.maxPrice.value)
    && SortDirAllowed(q.sortDir)
    && (AnyLocationParam(q) ==>
          && q.userLat.Some? && -90.0 <= q.userLat.value <= 90.0
          && q.userLng.Some? && -180.0 <= q.userLng.value <= 180.0
          && (q.radius.Some? ==> q.radius.value > 0.0))
  }

  predicate UpdateAdValid(r: UpdateAdRequest, isEmail: string -> bool) {
    && (r.title.Some? ==> NotEmptyText(r.title) && 1 <= |r.title.value| <= 80)
    && (r.description.Some? ==> NotEmptyText(r.description) && 1 <= |r.description.value| <= 2000)
    && (r.price.Some? ==> r.price.value >= 0.0)
    && (r.contact.Some? ==>
          var c := r.contact.value;
          && NotEmptyText(c.name)
          && (NonEmpty(c.email) || NonEmpty(c.phone))
          && (NonEmpty(c.email) ==> isEmail(c.email.value)))
    && (r.location.Some? ==>
          var l := r.location.value;
          && (l.lat.Some? ==> -90.0 <= l.lat.value <= 90.0)
          && (l.lng.Some? ==> -180.0 <= l.lng.value <= 180.0))
  }

  const EmptyUpdate: UpdateAdRequest := UpdateAdRequest(None, None, None, None, None, None)

  /** Every rule is guarded, so a request with no field passes. */
  lemma EmptyUpdateIsValid(isEmail: string -> bool)
    ensures UpdateAdValid(EmptyUpdate, isEmail)
  {
  }

  /** A radius alone fails: it switches the rules on without the coordinates. */
  lemma RadiusAloneIsRejected(q: AdsQueryParams)
    requires q.radius.Some? && (q.userLat.None? || q.userLng.None?)
    ensures !QueryParamsValid(q)
  {
  }

  lemma DefaultQueryIsValid()
    ensures QueryParamsValid(DefaultQuery)
  {
    assert Lower("desc") == "desc";
  }

  /** On a valid query the service's clamping of page and page size changes nothing. */
  lemma ValidQueryKeepsPaging(ads: seq<Ad>, q: AdsQueryParams, dist: Distance)
    requires QueryParamsValid(q)
    ensures GetList(ads, q, dist).page == q.page
    ensures GetList(ads, q, dist).pageSize == q.pageSize
  {
  }

  /** On a valid query a location parameter always means the geo branch, with a positive radius. */
  lemma ValidQueryLocationMeansGeo(q: AdsQueryParams)
    requires QueryParamsValid(q)
    ensures AnyLocationParam(q) <==> GeoActive(q)
    ensures GeoActive(q) ==> RadiusKm(q) > 0.0
  {
  }

  /** On a valid query the lower-cased direction is "asc", "desc" or "". */
  lemma ValidQuerySortDir(q: AdsQueryParams)
    requires QueryParamsValid(q)
    ensures SortDirName(q) in {"asc", "desc", ""}
  {
    assert Lower("asc") == "asc" && Lower("desc") == "desc";
    if q.sortDir.Some? && q.sortDir.value == "" {
      assert Lower(q.sortDir.value) == "";
    }
  }
}
