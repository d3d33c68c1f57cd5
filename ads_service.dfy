/**
 * The ad record service: create, delete, look up and partially update ads in
 * the stored list. Each operation reads the whole list, changes it in place and
 * writes it back; the store is a class whose `ads` field is the list on disk.
 */
module AdsService {
  import opened Wrappers
  import opened Text
  import opened AdsDomain
  import opened AdsQuery
  import opened Validation

  // ---------------------------------------------------------------------
  // Specification functions
  // ---------------------------------------------------------------------

  /** Position of the ad `list.FirstOrDefault(x => x.Id == id)` finds. */
  function IndexOfId(s: seq<Ad>, id: nat): (r: Option<nat>)
    ensures r.Some? ==> r.value < |s| && s[r.value].id == id
    ensures r.Some? ==> forall k :: 0 <= k < r.value ==> s[k].id != id
    ensures r.None? <==> forall k :: 0 <= k < |s| ==> s[k].id != id
  {
    if s == [] then None
    else if s[0].id == id then Some(0)
    else
      match IndexOfId(s[1..], id)
      case None => None
      case Some(j) => Some(j + 1)
  }

  /** What `GetByIdAsync` returns. */
  function Lookup(s: seq<Ad>, id: nat): Option<Ad> {
    match IndexOfId(s, id)
    case None => None
    case Some(i) => Some(s[i])
  }

  predicate UniqueIds(s: seq<Ad>) {
    forall i, j :: 0 <= i < j < |s| ==> s[i].id != s[j].id
  }

  /** The ad `CreateAsync` builds: contact and location are copied field by field. */
  function NewAd(req: CreateAdRequest, id: nat, now: Instant): Ad {
    Ad(id, req.title, req.description, req.price, req.category, req.contact, req.location, now, now)
  }

  function RemoveAt(s: seq<Ad>, i: nat): seq<Ad>
    requires i < |s|
  {
    s[..i] + s[i + 1..]
  }

  /** `existing.Contact ??= new Contact()` followed by the three assignments. */
  function MergeContact(existing: Option<Contact>, req: Contact): Contact {
    var c := existing.GetOr(Contact(None, None, None));
    Contact(req.name.OrElse(c.name), req.phone, req.email)
  }

  /** `existing.Location ??= new Location()` followed by the three `??` assignments. */
  function MergeLocation(existing: Option<Location>, req: Location): Location {
    var l := existing.GetOr(Location(None, None, None));
    Location(req.address.OrElse(l.address), req.lat.OrElse(l.lat), req.lng.OrElse(l.lng))
  }

  /** The ad after a partial update at time `now`. */
  function ApplyUpdate(a: Ad, r: UpdateAdRequest, now: Instant): Ad {
    a.(title := if NonEmpty(r.title) then r.title.value else a.title,
       description := if NonEmpty(r.description) then r.description.value else a.description,
       price := if r.price.Some? then r.price else a.price,
       category := if NonEmpty(r.category) then r.category else a.category,
       contact := if r.contact.Some? then Some(MergeContact(a.contact, r.contact.value)) else a.contact,
       location := if r.location.Some? then Some(MergeLocation(a.location, r.location.value)) else a.location,
       updatedAt := now)
  }

  // ---------------------------------------------------------------------
  // The store
  // ---------------------------------------------------------------------

  /** `list.FirstOrDefault(x => x.Id == id)`, as a position in the list. */
  method FindById(list: seq<Ad>, id: nat) returns (found: Option<nat>)
    ensures found == IndexOfId(list, id)
  {
    var i := 0;
    while i < |list|
      invariant 0 <= i <= |list|
      invariant forall k :: 0 <= k < i ==> list[k].id != id
    {
      if list[i].id == id {
        return Some(i);
      }
      i := i + 1;
    }
    return None;
  }

  class AdsStore {
    /** The list the repository reads and writes. */
    var ads: seq<Ad>

    constructor (initial: seq<Ad>)
      ensures ads == initial
    {
      ads := initial;
    }

    /** Appends one new ad, stamped `now` twice, with the fresh id `id`. */
    method Create(req: CreateAdRequest, id: nat, now: Instant) returns (dto: Ad)
      modifies this
      ensures dto == NewAd(req, id, now)
      ensures ads == old(ads) + [dto]
    {
      var ad := NewAd(req, id, now);
      var list := ads;
      list := list + [ad];
      ads := list;
      dto := ad;
    }

    /** Removes the first ad with `id`; false, and nothing written, when there is none. */
    method Delete(id: nat) returns (deleted: bool)
      modifies this
      ensures deleted <==> IndexOfId(old(ads), id).Some?
      ensures !deleted ==> ads == old(ads)
      ensures deleted ==> ads == RemoveAt(old(ads), IndexOfId(old(ads), id).value)
    {
      var list := ads;
      var existing := FindById(list, id);
      if existing.None? {
        return false;
      }
      list := RemoveAt(list, existing.value);
      ads := list;
      return true;
    }

    method GetById(id: nat) returns (dto: Option<Ad>)
      ensures dto == Lookup(ads, id)
    {
      var list := ads;
      var existing := FindById(list, id);
      if existing.None? {
        return None;
      }
      return Some(list[existing.value]);
    }

    method GetList(q: AdsQueryParams, dist: Distance) returns (page: PagedResult)
      ensures page == AdsQuery.GetList(ads, q, dist)
    {
      page := AdsQuery.GetList(ads, q, dist);
    }

    /**
     * Merges `req` into the first ad with `id`, field by field, and writes the
     * list back; None, and nothing written, when there is no such ad.
     */
    method Update(id: nat, req: UpdateAdRequest, now: Instant) returns (dto: Option<Ad>)
      modifies this
      ensures IndexOfId(old(ads), id).None? ==> dto.None? && ads == old(ads)
      ensures IndexOfId(old(ads), id).Some? ==>
        var i := IndexOfId(old(ads), id).value;
        && dto == Some(ApplyUpdate(old(ads)[i], req, now))
        && ads == old(ads)[i := dto.value]
    {
      var list := ads;
      var found := FindById(list, id);
      if found.None? {
        return None;
      }
      var i := found.value;
      var existing := list[i];
      if NonEmpty(req.title) { existing := existing.(title := req.title.value); }
      if NonEmpty(req.description) { existing := existing.(description := req.description.value); }
      if req.price.Some? { existing := existing.(price := req.price); }
      if NonEmpty(req.category) { existing := existing.(category := req.category); }
      if req.contact.Some? {
        var contact := existing.contact.GetOr(Contact(None, None, None));
        contact := contact.(name := req.contact.value.name.OrElse(contact.name));
        contact := contact.(email := req.contact.value.email);
        contact := contact.(phone := req.contact.value.phone);
        existing := existing.(contact := Some(contact));
      }
      if req.location.Some? {
        var location := existing.location.GetOr(Location(None, None, None));
        location := location.(address := req.location.value.address.OrElse(location.address));
        location := location.(lat := req.location.value.lat.OrElse(location.lat));
        location := location.(lng := req.location.value.lng.OrElse(location.lng));
        existing := existing.(location := Some(location));
      }
      existing := existing.(updatedAt := now);
      list := list[i := existing];
      ads := list;
      return Some(existing);
    }
  }

  // ---------------------------------------------------------------------
  // Properties
  // ---------------------------------------------------------------------

  /** The ad found is the first with that id; none is found only when no ad has it. */
  lemma LookupMeaning(s: seq<Ad>, id: nat)
    ensures Lookup(s, id).Some? ==> Lookup(s, id).value in s && Lookup(s, id).value.id == id
    ensures Lookup(s, id).None? <==> forall a :: a in s ==> a.id != id
  {
    if Lookup(s, id).None? {
      forall a | a in s ensures a.id != id {
        var k :| 0 <= k < |s| && s[k] == a;
      }
    }
  }

  /** Creating keeps every earlier ad in place and, with a fresh id, ids stay unique and the new ad is found. */
  lemma CreateThenGet(s: seq<Ad>, req: CreateAdRequest, id: nat, now: Instant)
    requires forall k :: 0 <= k < |s| ==> s[k].id != id
    ensures (s + [NewAd(req, id, now)])[..|s|] == s
    ensures Lookup(s + [NewAd(req, id, now)], id) == Some(NewAd(req, id, now))
    ensures NewAd(req, id, now).createdAt == NewAd(req, id, now).updatedAt == now
    ensures UniqueIds(s) ==> UniqueIds(s + [NewAd(req, id, now)])
  {
    var t := s + [NewAd(req, id, now)];
    assert t[|s|].id == id;
    assert forall k :: 0 <= k < |s| ==> t[k] == s[k];
  }

  /** Removing position `i` keeps the elements before it and shifts the ones after it down by one. */
  lemma RemoveAtShape(s: seq<Ad>, i: nat)
    requires i < |s|
    ensures |RemoveAt(s, i)| == |s| - 1
    ensures forall k :: 0 <= k < |s| - 1 ==> RemoveAt(s, i)[k] == (if k < i then s[k] else s[k + 1])
  {
  }

  /** Removing position `i` drops exactly one occurrence of `s[i]` and nothing else. */
  lemma RemoveAtMultiset(s: seq<Ad>, i: nat)
    requires i < |s|
    ensures multiset(RemoveAt(s, i)) == multiset(s) - multiset{s[i]}
  {
    assert s == s[..i] + ([s[i]] + s[i + 1..]);
    calc {
      multiset(s);
      multiset(s[..i]) + (multiset{s[i]} + multiset(s[i + 1..]));
      multiset(RemoveAt(s, i)) + multiset{s[i]};
    }
  }

  /** With unique ids, deleting the first match leaves no ad with that id, and ids stay unique. */
  lemma DeleteRemovesTheId(s: seq<Ad>, id: nat)
    requires UniqueIds(s) && IndexOfId(s, id).Some?
    ensures UniqueIds(RemoveAt(s, IndexOfId(s, id).value))
    ensures Lookup(RemoveAt(s, IndexOfId(s, id).value), id).None?
  {
    var i := IndexOfId(s, id).value;
    var t := RemoveAt(s, i);
    RemoveAtShape(s, i);
    assert forall k :: 0 <= k < |t| ==> t[k].id != id;
  }

  /** An update keeps the identity and creation time, and stamps `now`. */
  lemma UpdateKeepsIdentity(a: Ad, r: UpdateAdRequest, now: Instant)
    ensures ApplyUpdate(a, r, now).id == a.id
    ensures ApplyUpdate(a, r, now).createdAt == a.createdAt
    ensures ApplyUpdate(a, r, now).updatedAt == now
  {
  }

  /** A request with every field absent changes nothing but the timestamp. */
  lemma EmptyUpdateOnlyStamps(a: Ad, now: Instant)
    ensures ApplyUpdate(a, EmptyUpdate, now) == a.(updatedAt := now)
  {
  }

  /** Sending the same update twice has the effect of sending it once. */
  lemma UpdateIdempotent(a: Ad, r: UpdateAdRequest, now: Instant)
    ensures ApplyUpdate(ApplyUpdate(a, r, now), r, now) == ApplyUpdate(a, r, now)
  {
  }

  /**
   * The nested objects: a missing contact or location is created; a null
   * contact name keeps the stored one, while e-mail and phone are overwritten
   * even by null; each location field is kept when the request's is null.
   */
  lemma UpdateNestedRules(a: Ad, r: UpdateAdRequest, now: Instant)
    ensures var u := ApplyUpdate(a, r, now);
      && (r.contact.Some? ==>
            && u.contact.Some?
            && u.contact.value.email == r.contact.value.email
            && u.contact.value.phone == r.contact.value.phone
            && (r.contact.value.name.None? && a.contact.Some? ==> u.contact.value.name == a.contact.value.name)
            && (r.contact.value.name.None? && a.contact.None? ==> u.contact.value.name.None?))
      && (r.contact.None? ==> u.contact == a.contact)
      && (r.location.Some? ==>
            && u.location.Some?
            && (r.location.value.lat.None? && a.location.Some? ==> u.location.value.lat == a.location.value.lat)
            && (r.location.value.lng.None? && a.location.Some? ==> u.location.value.lng == a.location.value.lng)
            && (r.location.value.address.None? && a.location.Some? ==> u.location.value.address == a.location.value.address))
      && (r.location.None? ==> u.location == a.location)
  {
  }

  /** A contact as the update rules leave it. */
  predicate ContactOk(c: Contact, isEmail: string -> bool) {
    && NotEmptyText(c.name)
    && (NonEmpty(c.email) || NonEmpty(c.phone))
    && (NonEmpty(c.email) ==> isEmail(c.email.value))
  }

  /** The shape of an ad the update rules keep. */
  predicate StoredAdOk(a: Ad, isEmail: string -> bool) {
    && !IsBlank(a.title) && |a.title| <= 80
    && !IsBlank(a.description) && |a.description| <= 2000
    && (a.price.Some? ==> a.price.value >= 0.0)
    && (a.contact.Some? ==> ContactOk(a.contact.value, isEmail))
    && (a.location.Some? ==>
          && (a.location.value.lat.Some? ==> -90.0 <= a.location.value.lat.value <= 90.0)
          && (a.location.value.lng.Some? ==> -180.0 <= a.location.value.lng.value <= 180.0))
    && a.createdAt <= a.updatedAt
  }

  /** A request that passes validation keeps a well-formed ad well-formed. */
  lemma ValidUpdatePreservesAd(a: Ad, r: UpdateAdRequest, now: Instant, isEmail: string -> bool)
    requires StoredAdOk(a, isEmail) && UpdateAdValid(r, isEmail)
    requires a.updatedAt <= now
    ensures StoredAdOk(ApplyUpdate(a, r, now), isEmail)
  {
    if r.title.Some? {
      assert r.title.value != [] by { assert !IsBlank(r.title.value); }
    }
    if r.description.Some? {
      assert r.description.value != [] by { assert !IsBlank(r.description.value); }
    }
  }

  /** After an update, looking the id up returns the updated ad; the other ads are untouched. */
  lemma UpdateThenGet(s: seq<Ad>, id: nat, r: UpdateAdRequest, now: Instant)
    requires IndexOfId(s, id).Some?
    ensures var i := IndexOfId(s, id).value;
      var t := s[i := ApplyUpdate(s[i], r, now)];
      && Lookup(t, id) == Some(ApplyUpdate(s[i], r, now))
      && (forall k :: 0 <= k < |s| && k != i ==> t[k] == s[k])
      && (UniqueIds(s) ==> UniqueIds(t))
  {
    var i := IndexOfId(s, id).value;
    var t := s[i := ApplyUpdate(s[i], r, now)];
    assert forall k :: 0 <= k < i ==> t[k].id != id;
    assert t[i].id == id;
  }
}
