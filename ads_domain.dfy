/**
 * The records of the classified-ads service: an ad with its contact and
 * location value objects, and the request shapes the service accepts.
 * `Guid` is a natural number and `DateTimeOffset` a count of 100-ns ticks.
 */
module AdsDomain {
  import opened Wrappers

  /** C#'s `int`. */
  type Int32 = x: int | -0x8000_0000 <= x < 0x8000_0000

  const DecimalMaxValue: real := 79228162514264337593543950335.0
  const DecimalMinValue: real := -79228162514264337593543950335.0

  /** C#'s `decimal`: exact, within its range. */
  type Decimal = r: real | DecimalMinValue <= r <= DecimalMaxValue witness 0.0

  /** A point in time, in ticks. */
  type Instant = int

  const TicksPerSecond: int := 10_000_000

  datatype Contact = Contact(name: Option<string>, phone: Option<string>, email: Option<string>)

  datatype Location = Location(address: Option<string>, lat: Option<real>, lng: Option<real>)

  datatype Ad = Ad(
    id: nat,
    title: string,
    description: string,
    price: Option<Decimal>,
    category: Option<string>,
    contact: Option<Contact>,
    location: Option<Location>,
    createdAt: Instant,
    updatedAt: Instant)

  /** `a.Location?.Lat.HasValue == true && a.Location?.Lng.HasValue == true`. */
  predicate HasCoordinates(a: Ad) {
    a.location.Some? && a.location.value.lat.Some? && a.location.value.lng.Some?
  }

  datatype CreateAdRequest = CreateAdRequest(
    title: string,
    description: string,
    price: Option<Decimal>,
    category: Option<string>,
    contact: Option<Contact>,
    location: Option<Location>)

  /** Every field is optional; an absent field leaves the stored value alone. */
  datatype UpdateAdRequest = UpdateAdRequest(
    title: Option<string>,
    description: Option<string>,
    price: Option<Decimal>,
    category: Option<string>,
    contact: Option<Contact>,
    location: Option<Location>)

  /** The query string of the list endpoint. */
  datatype AdsQueryParams = AdsQueryParams(
    q: Option<string>,
    category: Option<string>,
    minPrice: Option<Decimal>,
    maxPrice: Option<Decimal>,
    hasLocation: Option<bool>,
    userLat: Option<real>,
    userLng: Option<real>,
    radius: Option<real>,
    page: Int32,
    pageSize: Int32,
    sortBy: Option<string>,
    sortDir: Option<string>)

  /** The query when the client sends no parameter at all. */
  const DefaultQuery: AdsQueryParams :=
    AdsQueryParams(None, None, None, None, None, None, None, None, 1, 10, Some("createdAt"), Some("desc"))

  /** A page of ads (`AdDto` is a field-by-field copy of `Ad`). */
  datatype PagedResult = PagedResult(items: seq<Ad>, total: int, page: int, pageSize: int)
}
