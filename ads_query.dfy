/**
 * The list query of the ads service (`AdsService.GetListAsync`): text,
 * category, price and has-location filters, an optional geo-radius branch,
 * a sort chosen by the sort key and direction, then pagination.
 *
 * The great-circle distance is a parameter `dist`; nothing here depends on
 * how it is computed.
 */
module AdsQuery {
  import opened Wrappers
  import opened Text
  import opened StableSort
  import opened AdsDomain

  /** Distance in km between (lat1, lng1) and (lat2, lng2). */
  type Distance = (real, real, real, real) -> real

  const DefaultRadiusKm: real := 10.0
  const MaxPageSize: int := 100

  // ---------------------------------------------------------------------
  // LINQ Where

  function Where(s: seq<Ad>, keep: Ad -> bool): (r: seq<Ad>)
    ensures |r| <= |s|
  {
    if s == [] then []
    else (if keep(s[0]) then [s[0]] else []) + Where(s[1..], keep)
  }

  /** Where keeps exactly the elements that satisfy `keep`, and no more copies. */
  lemma {:induction false} WhereMembers(s: seq<Ad>, keep: Ad -> bool)
    ensures forall a :: a in Where(s, keep) <==> a in s && keep(a)
    ensures multiset(Where(s, keep)) <= multiset(s)
  {
    if s != [] {
      WhereMembers(s[1..], keep);
      assert s == [s[0]] + s[1..];
    }
  }

  /** `r` is `s` with some elements left out, the rest in order. */
  ghost predicate IsSubsequence(r: seq<Ad>, s: seq<Ad>) {
    r == [] || (s != [] && ((r[0] == s[0] && IsSubsequence(r[1..], s[1..])) || IsSubsequence(r, s[1..])))
  }

  lemma {:induction false} WhereIsSubsequence(s: seq<Ad>, keep: Ad -> bool)
    ensures IsSubsequence(Where(s, keep), s)
  {
    if s != [] {
      WhereIsSubsequence(s[1..], keep);
      var r := Where(s, keep);
      if keep(s[0]) {
        assert r == [s[0]] + Where(s[1..], keep);
        assert r[0] == s[0] && r[1..] == Where(s[1..], keep);
        assert IsSubsequence(r[1..], s[1..]);
      } else {
        assert r == Where(s[1..], keep);
        assert IsSubsequence(r, s[1..]);
      }
    }
  }

  function Both(p: Ad -> bool, q: Ad -> bool): Ad -> bool {
    a => p(a) && q(a)
  }

  /** Two Where calls in a row are one Where on the conjunction. */
  lemma {:induction false} WhereWhere(s: seq<Ad>, p: Ad -> bool, q: Ad -> bool)
    ensures Where(Where(s, p), q) == Where(s, Both(p, q))
  {
    if s != [] {
      WhereWhere(s[1..], p, q);
      var rest := Where(s[1..], p);
      if p(s[0]) {
        assert Where(s, p) == [s[0]] + rest;
        assert ([s[0]] + rest)[1..] == rest;
      } else {
        assert Where(s, p) == rest;
      }
    }
  }

  lemma {:induction false} WhereSamePredicate(s: seq<Ad>, p: Ad -> bool, q: Ad -> bool)
    requires forall a :: p(a) == q(a)
    ensures Where(s, p) == Where(s, q)
  {
    if s != [] {
      WhereSamePredicate(s[1..], p, q);
    }
  }

  lemma {:induction false} WhereMonotone(s: seq<Ad>, p: Ad -> bool, q: Ad -> bool)
    requires forall a :: p(a) ==> q(a)
    ensures |Where(s, p)| <= |Where(s, q)|
  {
    if s != [] {
      WhereMonotone(s[1..], p, q);
    }
  }

  // ---------------------------------------------------------------------
  // The filters, in the order the service applies them

  /** Trimmed `q` is a case-insensitive substring of the title or the description. */
  predicate MatchesText(q: Option<string>, a: Ad) {
    q.None? || IsBlank(q.value) ||
    var t := Trim(q.value);
    (a.title != [] && ContainsIgnoreCase(a.title, t)) ||
    (a.description != [] && ContainsIgnoreCase(a.description, t))
  }

  predicate MatchesCategory(c: Option<string>, a: Ad) {
    c.None? || IsBlank(c.value) ||
    (a.category.Some? && EqualsIgnoreCase(a.category.value, c.value))
  }

  /** A missing price counts as 0 when filtering. */
  function FilterPrice(a: Ad): real {
    a.price.GetOr(0.0)
  }

  predicate AtLeastMinPrice(m: Option<Decimal>, a: Ad) {
    m.None? || FilterPrice(a) >= m.value
  }

  predicate AtMostMaxPrice(m: Option<Decimal>, a: Ad) {
    m.None? || FilterPrice(a) <= m.value
  }

  /** Tri-state: true needs both coordinates, false needs one missing, absent keeps all. */
  predicate MatchesHasLocation(h: Option<bool>, a: Ad) {
    h.None? || (if h.value then HasCoordinates(a) else !HasCoordinates(a))
  }

  function ApplyFilters(s: seq<Ad>, q: AdsQueryParams): seq<Ad> {
    var byText := Where(s, a => MatchesText(q.q, a));
    var byCategory := Where(byText, a => MatchesCategory(q.category, a));
    var byMin := Where(byCategory, a => AtLeastMinPrice(q.minPrice, a));
    var byMax := Where(byMin, a => AtMostMaxPrice(q.maxPrice, a));
    Where(byMax, a => MatchesHasLocation(q.hasLocation, a))
  }

  predicate PassesFilters(q: AdsQueryParams, a: Ad) {
    && MatchesText(q.q, a)
    && MatchesCategory(q.category, a)
    && AtLeastMinPrice(q.minPrice, a)
    && AtMostMaxPrice(q.maxPrice, a)
    && MatchesHasLocation(q.hasLocation, a)
  }

  lemma ApplyFiltersIsOneWhere(s: seq<Ad>, q: AdsQueryParams)
    ensures ApplyFilters(s, q) == Where(s, a => PassesFilters(q, a))
  {
    var p1 := a => MatchesText(q.q, a);
    var p2 := a => MatchesCategory(q.category, a);
    var p3 := a => AtLeastMinPrice(q.minPrice, a);
    var p4 := a => AtMostMaxPrice(q.maxPrice, a);
    var p5 := a => MatchesHasLocation(q.hasLocation, a);
    var all := Both(Both(Both(Both(p1, p2), p3), p4), p5);
    WhereWhere(s, p1, p2);
    WhereWhere(s, Both(p1, p2), p3);
    WhereWhere(s, Both(Both(p1, p2), p3), p4);
    WhereWhere(s, Both(Both(Both(p1, p2), p3), p4), p5);
    WhereSamePredicate(s, all, a => PassesFilters(q, a));
  }

  // ---------------------------------------------------------------------
  // The geo-radius branch

  /** Used only when both the user's latitude and longitude are given. */
  predicate GeoActive(q: AdsQueryParams) {
    q.userLat.Some? && q.userLng.Some?
  }

  function RadiusKm(q: AdsQueryParams): real {
    q.radius.GetOr(DefaultRadiusKm)
  }

  /** Distance from the user to an ad that has coordinates. */
  function DistanceTo(dist: Distance, q: AdsQueryParams, a: Ad): real
    requires GeoActive(q) && HasCoordinates(a)
  {
    dist(q.userLat.value, q.userLng.value, a.location.value.lat.value, a.location.value.lng.value)
  }

  /** The radius is a closed bound. */
  predicate WithinRadius(dist: Distance, q: AdsQueryParams, a: Ad)
    requires GeoActive(q) && HasCoordinates(a)
  {
    DistanceTo(dist, q, a) <= RadiusKm(q)
  }

  function GeoFilter(s: seq<Ad>, q: AdsQueryParams, dist: Distance): seq<Ad>
    requires GeoActive(q)
  {
    var withLocation := Where(s, a => HasCoordinates(a));
    Where(withLocation, a => HasCoordinates(a) && WithinRadius(dist, q, a))
  }

  // ---------------------------------------------------------------------
  // Sorting

  datatype SortField = ByPrice | ByTitle | ByUpdatedAt | ByCreatedAt

  datatype SortOrder = SortOrder(field: SortField, ascending: bool)

  /** A missing price sorts as `decimal.MinValue`. */
  function SortPrice(a: Ad): real {
    a.price.GetOr(DecimalMinValue)
  }

  predicate AscendingLe(f: SortField, a: Ad, b: Ad) {
    match f
    case ByPrice => SortPrice(a) <= SortPrice(b)
    case ByTitle => LexLe(a.title, b.title)
    case ByUpdatedAt => a.updatedAt <= b.updatedAt
    case ByCreatedAt => a.createdAt <= b.createdAt
  }

  /** `a` may precede `b` under the sort order `o`. */
  predicate KeyLe(o: SortOrder, a: Ad, b: Ad) {
    if o.ascending then AscendingLe(o.field, a, b) else AscendingLe(o.field, b, a)
  }

  function SortByName(q: AdsQueryParams): string {
    Lower(q.sortBy.GetOr("createdAt"))
  }

  function SortDirName(q: AdsQueryParams): string {
    Lower(q.sortDir.GetOr("desc"))
  }

  /** The order of the non-geo branch, chosen by the (sort key, direction) pair. */
  function ListOrder(sortBy: string, dir: string): SortOrder {
    if sortBy == "title" && dir == "asc" then SortOrder(ByTitle, true)
    else if sortBy == "title" && dir == "desc" then SortOrder(ByTitle, false)
    else if sortBy == "price" && dir == "asc" then SortOrder(ByPrice, true)
    else if sortBy == "price" && dir == "desc" then SortOrder(ByPrice, false)
    else if sortBy == "updatedat" && dir == "asc" then SortOrder(ByUpdatedAt, true)
    else if sortBy == "updatedat" && dir == "desc" then SortOrder(ByUpdatedAt, false)
    else if sortBy == "createdat" && dir == "asc" then SortOrder(ByCreatedAt, true)
    else SortOrder(ByCreatedAt, false)
  }

  /** The secondary order of the geo branch: any direction but "asc" is descending. */
  function GeoTieBreak(sortBy: string, dir: string): SortOrder {
    var field :=
      if sortBy == "price" then ByPrice
      else if sortBy == "title" then ByTitle
      else if sortBy == "updatedat" then ByUpdatedAt
      else ByCreatedAt;
    SortOrder(field, dir == "asc")
  }

  function ListLe(o: SortOrder): (Ad, Ad) -> bool {
    (a: Ad, b: Ad) => KeyLe(o, a, b)
  }

  /** The distance an ad is sorted by (every sorted ad has coordinates). */
  function SortDistance(dist: Distance, q: AdsQueryParams, a: Ad): real
    requires GeoActive(q)
  {
    if HasCoordinates(a) then DistanceTo(dist, q, a) else 0.0
  }

  /** Distance ascending first, then the requested field. */
  predicate GeoLe(dist: Distance, q: AdsQueryParams, o: SortOrder, a: Ad, b: Ad)
    requires GeoActive(q)
  {
    SortDistance(dist, q, a) < SortDistance(dist, q, b) ||
    (SortDistance(dist, q, a) == SortDistance(dist, q, b) && KeyLe(o, a, b))
  }

  function GeoOrder(dist: Distance, q: AdsQueryParams, o: SortOrder): (Ad, Ad) -> bool
    requires GeoActive(q)
  {
    (a: Ad, b: Ad) => GeoLe(dist, q, o, a, b)
  }

  lemma KeyLeTotalPreorder(o: SortOrder)
    ensures TotalPreorder(ListLe(o))
  {
    var le := ListLe(o);
    forall a, b ensures le(a, b) || le(b, a) {
      LexTotal(a.title, b.title);
    }
    forall a, b, c | le(a, b) && le(b, c) ensures le(a, c) {
      if o.ascending {
        if o.field == ByTitle { LexTransitive(a.title, b.title, c.title); }
      } else {
        if o.field == ByTitle { LexTransitive(c.title, b.title, a.title); }
      }
    }
  }

  lemma GeoOrderTotalPreorder(dist: Distance, q: AdsQueryParams, o: SortOrder)
    requires GeoActive(q)
    ensures TotalPreorder(GeoOrder(dist, q, o))
  {
    KeyLeTotalPreorder(o);
    var key := ListLe(o);
    var le := GeoOrder(dist, q, o);
    forall a, b ensures le(a, b) || le(b, a) {
      assert key(a, b) || key(b, a);
    }
    forall a, b, c | le(a, b) && le(b, c) ensures le(a, c) {
      assert key(a, b) && key(b, c) ==> key(a, c);
    }
  }

  // ---------------------------------------------------------------------
  // The final list and pagination

  /** The filtered ads in result order, before paging. */
  function Ordered(s: seq<Ad>, q: AdsQueryParams, dist: Distance): seq<Ad> {
    var filtered := ApplyFilters(s, q);
    if GeoActive(q) then
      Sort(GeoFilter(filtered, q, dist), GeoOrder(dist, q, GeoTieBreak(SortByName(q), SortDirName(q))))
    else
      Sort(filtered, ListLe(ListOrder(SortByName(q), SortDirName(q))))
  }

  function Max(a: int, b: int): int { if a < b then b else a }

  function Clamp(v: int, lo: int, hi: int): int
    requires lo <= hi
  {
    if v < lo then lo else if v > hi then hi else v
  }

  /** `Skip(n)`: a non-positive count skips nothing. */
  function Skip(s: seq<Ad>, n: int): seq<Ad> {
    if n <= 0 then s else if n >= |s| then [] else s[n..]
  }

  /** `Take(n)` for a positive count. */
  function Take(s: seq<Ad>, n: int): seq<Ad>
    requires n > 0
  {
    if n >= |s| then s else s[..n]
  }

  function Min(a: int, b: int): int { if a < b then a else b }

  /** Where page `page` of size `size` starts. */
  function Offset(page: int, size: int): (n: int)
    requires page >= 1 && size >= 1
    ensures n >= 0
  {
    (page - 1) * size
  }

  /**
   * Pagination over the ordered list, with the offset computed without
   * overflow (see `PaginateAsWritten` for the 32-bit offset of the source).
   */
  function Paginate(s: seq<Ad>, page: Int32, pageSize: Int32): (r: PagedResult)
    ensures r.page == Max(1, page) && r.pageSize == Clamp(pageSize, 1, MaxPageSize)
    ensures r.total == |s|
    ensures var offset := Offset(r.page, r.pageSize);
      && |r.items| == (if offset < |s| then Min(r.pageSize, |s| - offset) else 0)
      && forall i :: 0 <= i < |r.items| ==> r.items[i] == s[offset + i]
  {
    var p := Max(1, page);
    var size := Clamp(pageSize, 1, MaxPageSize);
    var offset := Offset(p, size);
    var items := Take(Skip(s, offset), size);
    assert offset < |s| ==> Skip(s, offset) == s[offset..];
    PagedResult(items, |s|, p, size)
  }

  /**
   * `GetListAsync`: one page of the ordered matching ads. Every ad shown is a
   * stored ad that passes every filter, and a page never exceeds its size.
   */
  function GetList(ads: seq<Ad>, q: AdsQueryParams, dist: Distance): (r: PagedResult)
    ensures r.page == Max(1, q.page) && r.pageSize == Clamp(q.pageSize, 1, MaxPageSize)
    ensures |r.items| <= r.pageSize
    ensures forall a :: a in r.items ==> a in ads && Passes(q, dist, a)
  {
    OrderedIsPermutationOfMatching(ads, q, dist);
    var o := Ordered(ads, q, dist);
    var r := Paginate(o, q.page, q.pageSize);
    assert forall a :: a in r.items ==> a in o by {
      forall a | a in r.items ensures a in o {
        var i :| 0 <= i < |r.items| && r.items[i] == a;
        assert a == o[Offset(r.page, r.pageSize) + i];
      }
    }
    r
  }

  // ---------------------------------------------------------------------
  // Properties of the query

  /** The whole filter chain, geo branch included, as one predicate. */
  predicate Passes(q: AdsQueryParams, dist: Distance, a: Ad) {
    PassesFilters(q, a) && (GeoActive(q) ==> HasCoordinates(a) && WithinRadius(dist, q, a))
  }

  function Matching(ads: seq<Ad>, q: AdsQueryParams, dist: Distance): seq<Ad> {
    Where(ads, a => Passes(q, dist, a))
  }

  lemma BeforeSortIsMatching(ads: seq<Ad>, q: AdsQueryParams, dist: Distance)
    ensures GeoActive(q) ==> GeoFilter(ApplyFilters(ads, q), q, dist) == Matching(ads, q, dist)
    ensures !GeoActive(q) ==> ApplyFilters(ads, q) == Matching(ads, q, dist)
  {
    ApplyFiltersIsOneWhere(ads, q);
    var pf := a => PassesFilters(q, a);
    if GeoActive(q) {
      var hc := a => HasCoordinates(a);
      var wr := a => HasCoordinates(a) && WithinRadius(dist, q, a);
      WhereWhere(ads, pf, hc);
      WhereWhere(ads, Both(pf, hc), wr);
      WhereSamePredicate(ads, Both(Both(pf, hc), wr), a => Passes(q, dist, a));
    } else {
      WhereSamePredicate(ads, pf, a => Passes(q, dist, a));
    }
  }

  /**
   * The final list holds exactly the ads that pass every filter (the radius
   * bound included, so an ad at exactly the radius is kept), each as often as
   * in the store: it is a permutation of the matching ads.
   */
  lemma OrderedIsPermutationOfMatching(ads: seq<Ad>, q: AdsQueryParams, dist: Distance)
    ensures multiset(Ordered(ads, q, dist)) == multiset(Matching(ads, q, dist))
    ensures forall a :: a in Ordered(ads, q, dist) <==> a in ads && Passes(q, dist, a)
    ensures |Ordered(ads, q, dist)| == |Matching(ads, q, dist)|
  {
    BeforeSortIsMatching(ads, q, dist);
    var m := Matching(ads, q, dist);
    WhereMembers(ads, a => Passes(q, dist, a));
    var r := Ordered(ads, q, dist);
    if GeoActive(q) {
      assert r == Sort(m, GeoOrder(dist, q, GeoTieBreak(SortByName(q), SortDirName(q))));
    } else {
      assert r == Sort(m, ListLe(ListOrder(SortByName(q), SortDirName(q))));
    }
    assert multiset(r) == multiset(m);
    assert |r| == |multiset(r)| == |multiset(m)| == |m|;
    forall a ensures a in r <==> a in m {
      assert a in r <==> a in multiset(r);
      assert a in m <==> a in multiset(m);
    }
  }

  /** Without the geo branch, the list is sorted by the (key, direction) pair. */
  lemma OrderedSortedByListOrder(ads: seq<Ad>, q: AdsQueryParams, dist: Distance)
    requires !GeoActive(q)
    ensures Sorted(Ordered(ads, q, dist), ListLe(ListOrder(SortByName(q), SortDirName(q))))
  {
    var o := ListOrder(SortByName(q), SortDirName(q));
    KeyLeTotalPreorder(o);
    SortSorted(ApplyFilters(ads, q), ListLe(o));
  }

  /**
   * With the geo branch, distances never decrease along the list, and ads at
   * the same distance are ordered by the requested field.
   */
  lemma OrderedByDistanceThenField(ads: seq<Ad>, q: AdsQueryParams, dist: Distance)
    requires GeoActive(q)
    ensures var r := Ordered(ads, q, dist);
      var o := GeoTieBreak(SortByName(q), SortDirName(q));
      forall i, j :: 0 <= i < j < |r| ==>
        && HasCoordinates(r[i]) && HasCoordinates(r[j])
        && DistanceTo(dist, q, r[i]) <= DistanceTo(dist, q, r[j])
        && (DistanceTo(dist, q, r[i]) == DistanceTo(dist, q, r[j]) ==> KeyLe(o, r[i], r[j]))
  {
    var o := GeoTieBreak(SortByName(q), SortDirName(q));
    var r := Ordered(ads, q, dist);
    GeoOrderTotalPreorder(dist, q, o);
    SortSorted(GeoFilter(ApplyFilters(ads, q), q, dist), GeoOrder(dist, q, o));
    OrderedIsPermutationOfMatching(ads, q, dist);
    assert forall i :: 0 <= i < |r| ==> r[i] in r;
    forall i, j | 0 <= i < j < |r|
      ensures DistanceTo(dist, q, r[i]) <= DistanceTo(dist, q, r[j])
    {
      assert GeoOrder(dist, q, o)(r[i], r[j]);
    }
  }

  /** The sort is stable: ads with equal sort keys keep their order in the store. */
  lemma OrderedIsStable(ads: seq<Ad>, q: AdsQueryParams, dist: Distance, k: Ad)
    ensures !GeoActive(q) ==>
      var le := ListLe(ListOrder(SortByName(q), SortDirName(q)));
      Ties(Ordered(ads, q, dist), k, le) == Ties(Matching(ads, q, dist), k, le)
    ensures GeoActive(q) ==>
      var le := GeoOrder(dist, q, GeoTieBreak(SortByName(q), SortDirName(q)));
      Ties(Ordered(ads, q, dist), k, le) == Ties(Matching(ads, q, dist), k, le)
  {
    BeforeSortIsMatching(ads, q, dist);
    if GeoActive(q) {
      var o := GeoTieBreak(SortByName(q), SortDirName(q));
      GeoOrderTotalPreorder(dist, q, o);
      SortStable(Matching(ads, q, dist), k, GeoOrder(dist, q, o));
    } else {
      var o := ListOrder(SortByName(q), SortDirName(q));
      KeyLeTotalPreorder(o);
      SortStable(Matching(ads, q, dist), k, ListLe(o));
    }
  }

  /** Total counts the ads that pass every filter, before paging. */
  lemma TotalCountsMatches(ads: seq<Ad>, q: AdsQueryParams, dist: Distance)
    ensures GetList(ads, q, dist).total == |Matching(ads, q, dist)|
    ensures GetList(ads, q, dist).total <= |ads|
  {
    OrderedIsPermutationOfMatching(ads, q, dist);
  }

  /** `narrow` sets every filter `wide` sets, to the same value, and maybe more. */
  predicate AddsFilters(narrow: AdsQueryParams, wide: AdsQueryParams) {
    && (wide.q.None? || narrow.q == wide.q)
    && (wide.category.None? || narrow.category == wide.category)
    && (wide.minPrice.None? || narrow.minPrice == wide.minPrice)
    && (wide.maxPrice.None? || narrow.maxPrice == wide.maxPrice)
    && (wide.hasLocation.None? || narrow.hasLocation == wide.hasLocation)
    && (GeoActive(wide) ==>
          narrow.userLat == wide.userLat && narrow.userLng == wide.userLng && narrow.radius == wide.radius)
  }

  /** Adding a filter never increases Total. */
  lemma {:induction false} AddingFiltersNeverIncreasesTotal(ads: seq<Ad>, narrow: AdsQueryParams, wide: AdsQueryParams, dist: Distance)
    requires AddsFilters(narrow, wide)
    ensures GetList(ads, narrow, dist).total <= GetList(ads, wide, dist).total
  {
    TotalCountsMatches(ads, narrow, dist);
    TotalCountsMatches(ads, wide, dist);
    assert forall a :: Passes(narrow, dist, a) ==> Passes(wide, dist, a);
    WhereMonotone(ads, a => Passes(narrow, dist, a), a => Passes(wide, dist, a));
  }

  /** An absent price counts as 0 for the price filters but sorts below every price. */
  lemma MissingPriceAsymmetry(a: Ad, b: Ad, m: Decimal)
    requires a.price.None?
    ensures AtLeastMinPrice(Some(m), a) <==> m <= 0.0
    ensures AtMostMaxPrice(Some(m), a) <==> m >= 0.0
    ensures KeyLe(SortOrder(ByPrice, true), a, b) && KeyLe(SortOrder(ByPrice, false), b, a)
  {
  }

  /**
   * An unknown sort key sorts by creation time: descending whatever the
   * direction without the geo branch, and by the direction with it. Without
   * the geo branch, any direction other than "asc"/"desc" also falls back.
   */
  lemma UnknownSortKeyFallsBack(sortBy: string, dir: string)
    ensures sortBy !in {"title", "price", "updatedat", "createdat"} ==>
      ListOrder(sortBy, dir) == SortOrder(ByCreatedAt, false) &&
      GeoTieBreak(sortBy, dir) == SortOrder(ByCreatedAt, dir == "asc")
    ensures dir !in {"asc", "desc"} ==>
      ListOrder(sortBy, dir) == SortOrder(ByCreatedAt, false) &&
      !GeoTieBreak(sortBy, dir).ascending
  {
  }

  // ---------------------------------------------------------------------
  // Pages

  /** Pages 1..k concatenated. */
  function PagesUpTo(s: seq<Ad>, size: Int32, k: nat): seq<Ad>
    requires 1 <= size <= MaxPageSize && k < 0x8000_0000
  {
    if k == 0 then [] else PagesUpTo(s, size, k - 1) + Paginate(s, k, size).items
  }

  lemma OffsetStep(k: int, size: int)
    requires k >= 1 && size >= 1
    ensures Offset(k + 1, size) == Offset(k, size) + size
  {
  }

  /** Page k continues the prefix that pages 1..k-1 cover. */
  lemma PageExtendsPrefix(s: seq<Ad>, size: Int32, k: Int32)
    requires 1 <= size <= MaxPageSize && k >= 1
    ensures s[..Min(Offset(k, size), |s|)] + Paginate(s, k, size).items
         == s[..Min(Offset(k + 1, size), |s|)]
  {
    OffsetStep(k, size);
    var off := Offset(k, size);
    var end := Min(off + size, |s|);
    var r := Paginate(s, k, size);
    assert r.page == k && r.pageSize == size;
    if off < |s| {
      assert r.items == s[off..end];
      assert s[..off] + s[off..end] == s[..end];
    } else {
      assert r.items == [];
    }
  }

  lemma {:induction false} PagesUpToIsPrefix(s: seq<Ad>, size: Int32, k: nat)
    requires 1 <= size <= MaxPageSize && k < 0x8000_0000
    ensures PagesUpTo(s, size, k) == s[..Min(Offset(k + 1, size), |s|)]
  {
    if k > 0 {
      PagesUpToIsPrefix(s, size, k - 1);
      PageExtendsPrefix(s, size, k);
    }
  }

  /**
   * Reading pages 1..k in order, for any k whose pages reach the end, gives
   * back the whole list with no ad missing or repeated.
   */
  lemma AllPagesReproduceList(s: seq<Ad>, size: Int32, k: nat)
    requires 1 <= size <= MaxPageSize && k < 0x8000_0000
    requires Offset(k + 1, size) >= |s|
    ensures PagesUpTo(s, size, k) == s
  {
    PagesUpToIsPrefix(s, size, k);
  }

  /** C#'s unchecked `int` arithmetic: the result wraps into 32 bits. */
  function Wrap32(x: int): Int32 {
    (x + 0x8000_0000) % 0x1_0000_0000 - 0x8000_0000
  }

  /**
   * The source's pagination: `(page - 1) * pageSize` is computed in `int`, so a
   * large page number wraps to a negative offset, and `Skip` of a negative count
   * skips nothing.
   */
  function PaginateAsWritten(s: seq<Ad>, page: Int32, pageSize: Int32): (r: PagedResult)
    ensures r.page == Max(1, page) && r.pageSize == Clamp(pageSize, 1, MaxPageSize) && r.total == |s|
    ensures Offset(r.page, r.pageSize) < 0x8000_0000 ==> r == Paginate(s, page, pageSize)
  {
    var p := Max(1, page);
    var size := Clamp(pageSize, 1, MaxPageSize);
    PagedResult(Take(Skip(s, Wrap32((p - 1) * size)), size), |s|, p, size)
  }

  /** Page 21474838 of size 100 of a one-ad list is that ad, not an empty page. */
  lemma PageOffsetOverflow(a: Ad)
    ensures PaginateAsWritten([a], 21474838, 100).items == [a]
    ensures Paginate([a], 21474838, 100).items == []
  {
    assert Wrap32(21474837 * 100) == -2147483596;
  }

  /**
   * The endpoint with the source's 32-bit offset returns what `GetList` returns
   * whenever the offset fits in an `int`; only larger offsets differ.
   */
  lemma GetListAsWrittenBelowOverflow(ads: seq<Ad>, q: AdsQueryParams, dist: Distance)
    requires Offset(Max(1, q.page), Clamp(q.pageSize, 1, MaxPageSize)) < 0x8000_0000
    ensures PaginateAsWritten(Ordered(ads, q, dist), q.page, q.pageSize) == GetList(ads, q, dist)
  {
  }
}
