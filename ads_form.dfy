/**
 * The client's ad form: its two group validators, the mapping of the form
 * value to the request body on submit, and the address-to-coordinates
 * machinery (the address `valueChanges` handler and the debounced geocoding
 * pipeline) as a state machine driven by four events.
 *
 * JavaScript truthiness is explicit: a string is truthy when present and not
 * "", a number when present and not 0.
 */
module AdsForm {
  import opened Wrappers
  import opened Text
  import opened AdsDomain
  import opened AdsService

  predicate Truthy(s: Option<string>) {
    s.Some? && s.value != ""
  }

  predicate TruthyNum(x: Option<real>) {
    x.Some? && x.value != 0.0
  }

  // ---------------------------------------------------------------------
  // Group validators
  // ---------------------------------------------------------------------

  datatype ContactGroup = ContactGroup(name: Option<string>, phone: Option<string>, email: Option<string>)

  datatype LocationGroup = LocationGroup(address: Option<string>, lat: Option<real>, lng: Option<real>)

  datatype ValidationError = Required | ContactRequired | LocationIncomplete

  /** `contactValidator`: None means valid. */
  function ContactError(contact: Option<ContactGroup>): Option<ValidationError> {
    if contact.None? || !Truthy(contact.value.name) then Some(Required)
    else if !Truthy(contact.value.phone) && !Truthy(contact.value.email) then Some(ContactRequired)
    else None
  }

  /** `locationValidator`: None means valid. */
  function LocationError(location: Option<LocationGroup>): Option<ValidationError> {
    if location.None? || !Truthy(location.value.address) then None
    else if !TruthyNum(location.value.lat) || !TruthyNum(location.value.lng) then Some(LocationIncomplete)
    else None
  }

  /** The contact group is valid exactly when it has a name and a phone or an e-mail; the two errors split the rest. */
  lemma ContactErrorMeaning(contact: Option<ContactGroup>)
    ensures ContactError(contact).None? <==>
      contact.Some? && Truthy(contact.value.name) &&
      (Truthy(contact.value.phone) || Truthy(contact.value.email))
    ensures ContactError(contact) == Some(Required) <==> contact.None? || !Truthy(contact.value.name)
    ensures ContactError(contact) == Some(ContactRequired) <==>
      contact.Some? && Truthy(contact.value.name) &&
      !Truthy(contact.value.phone) && !Truthy(contact.value.email)
  {
  }

  /** The location group is valid exactly when it has no address or both coordinates are non-zero. */
  lemma LocationErrorMeaning(location: Option<LocationGroup>)
    ensures LocationError(location).None? <==>
      location.None? || !Truthy(location.value.address) ||
      (TruthyNum(location.value.lat) && TruthyNum(location.value.lng))
    ensures LocationError(location).Some? ==> LocationError(location).value == LocationIncomplete
  {
  }

  /** A coordinate of exactly 0 counts as missing, so a point on the equator is refused. */
  lemma ZeroCoordinateRejected(address: string, lng: Option<real>)
    requires address != ""
    ensures LocationError(Some(LocationGroup(Some(address), Some(0.0), lng))) == Some(LocationIncomplete)
  {
  }

  // ---------------------------------------------------------------------
  // Submit mapping
  // ---------------------------------------------------------------------

  /** The form's value when it is submitted. */
  datatype FormValue = FormValue(
    title: string,
    description: string,
    price: Option<Decimal>,
    category: Option<string>,
    contact: ContactGroup,
    location: LocationGroup)

  /** `s || undefined` on a string. */
  function OrUndefined(s: Option<string>): (r: Option<string>)
    ensures r.Some? ==> r == s && r.value != ""
    ensures Truthy(s) ==> r == s
  {
    if Truthy(s) then s else None
  }

  /** The location part of the body: present exactly when the address is truthy. */
  function LocationBody(l: LocationGroup): Option<Location> {
    if Truthy(l.address) then Some(Location(l.address, l.lat, l.lng)) else None
  }

  /** The body `onSubmit` sends, as written: `price: formValue.price || undefined`. */
  function SubmitBodyAsWritten(f: FormValue): UpdateAdRequest {
    UpdateAdRequest(
      Some(f.title),
      Some(f.description),
      if TruthyNum(f.price) then f.price else None,
      OrUndefined(f.category),
      Some(Contact(f.contact.name, OrUndefined(f.contact.phone), OrUndefined(f.contact.email))),
      LocationBody(f.location))
  }

  /** The body with `price: formValue.price ?? undefined`, which keeps a price of 0. */
  function SubmitBody(f: FormValue): UpdateAdRequest {
    UpdateAdRequest(
      Some(f.title),
      Some(f.description),
      f.price,
      OrUndefined(f.category),
      Some(Contact(f.contact.name, OrUndefined(f.contact.phone), OrUndefined(f.contact.email))),
      LocationBody(f.location))
  }

  /** The two mappings differ only for a price of exactly 0. */
  lemma SubmitBodiesAgree(f: FormValue)
    ensures f.price != Some(0.0) ==> SubmitBodyAsWritten(f) == SubmitBody(f)
    ensures f.price == Some(0.0) ==> SubmitBodyAsWritten(f) == SubmitBody(f).(price := None)
  {
  }

  /**
   * As written, a form price of 0 never reaches the stored ad: the update keeps
   * the old price. With `??` the stored price becomes 0.
   */
  lemma ZeroPriceIsDropped(a: Ad, f: FormValue, now: Instant)
    requires f.price == Some(0.0)
    ensures ApplyUpdate(a, SubmitBodyAsWritten(f), now).price == a.price
    ensures ApplyUpdate(a, SubmitBody(f), now).price == Some(0.0)
  {
  }

  /** The stored price after an edit is the price the user entered, whenever one was entered. */
  lemma SubmittedPriceIsStored(a: Ad, f: FormValue, now: Instant)
    requires f.price.Some?
    ensures ApplyUpdate(a, SubmitBody(f), now).price == f.price
  {
  }

  /** A form whose location group is valid sends an address only together with two non-zero coordinates. */
  lemma ValidLocationSendsCoordinates(f: FormValue)
    requires LocationError(Some(f.location)).None?
    ensures SubmitBody(f).location.Some? ==>
      && Truthy(SubmitBody(f).location.value.address)
      && TruthyNum(SubmitBody(f).location.value.lat)
      && TruthyNum(SubmitBody(f).location.value.lng)
    ensures SubmitBody(f).location.None? <==> !Truthy(f.location.address)
  {
  }

  /** Optional text fields left empty in the form are sent as absent, so the update keeps the stored values. */
  lemma EmptyCategoryKeepsStored(a: Ad, f: FormValue, now: Instant)
    requires !Truthy(f.category)
    ensures ApplyUpdate(a, SubmitBody(f), now).category == a.category
  {
  }

  // ---------------------------------------------------------------------
  // Address geocoding state machine
  // ---------------------------------------------------------------------

  const DefaultGeocodingError: string := "Failed to geocode address. Please enter coordinates manually."

  /** A snapshot of every field the handler and the pipeline read or write. */
  datatype FormState = FormState(
    address: string,
    lat: Option<real>,
    lng: Option<real>,
    lastGeocodedAddress: Option<string>,
    lastSentToSubject: Option<string>,
    geocodingError: Option<string>,
    geocodingInProgress: bool,
    pending: Option<string>,
    lastPassed: Option<string>,
    inFlight: Option<string>,
    alive: bool)

  /** The handler skips an address it already has non-zero coordinates for. */
  predicate AlreadyGeocoded(address: string, lastGeocoded: Option<string>, lat: Option<real>, lng: Option<real>) {
    Normalize(address) == (if lastGeocoded.Some? then Normalize(lastGeocoded.value) else "")
    && TruthyNum(lat) && TruthyNum(lng)
  }

  /** `distinctUntilChanged`'s comparator: equal after trim and lower-casing. */
  predicate SameAddress(prev: string, curr: string) {
    Normalize(prev) == Normalize(curr)
  }

  lemma NormalizeNonBlank(s: string)
    requires !IsBlank(s)
    ensures Normalize(s) != ""
  {
    assert |Lower(Trim(s))| == |Trim(s)|;
  }

  lemma NormalizeBlank(s: string)
    requires Normalize(s) != ""
    ensures !IsBlank(s)
  {
    assert |Lower(Trim(s))| == |Trim(s)|;
  }

  class AddressGeocoder {
    /** The form's `location.address`, `location.lat` and `location.lng`. */
    var address: string
    var lat: Option<real>
    var lng: Option<real>
    var lastGeocodedAddress: Option<string>
    var lastSentToSubject: Option<string>
    var geocodingError: Option<string>
    var geocodingInProgress: bool
    /** The value `debounceTime` holds, waiting for quiet. */
    var pending: Option<string>
    /** The last value `distinctUntilChanged` let through. */
    var lastPassed: Option<string>
    /** The normalised address of the request `switchMap` keeps open. */
    var inFlight: Option<string>
    /** False once an error has reached the subscription and ended it. */
    var alive: bool

    function State(): FormState
      reads this
    {
      FormState(address, lat, lng, lastGeocodedAddress, lastSentToSubject, geocodingError,
                geocodingInProgress, pending, lastPassed, inFlight, alive)
    }

    /**
     * An open request is the one for the last value let through, shows as in
     * progress with no error, and only exists in a live pipeline; a dead
     * pipeline holds nothing back; the recorded addresses are never blank.
     */
    predicate Valid()
      reads this
    {
      && (inFlight.Some? ==>
            && alive && geocodingInProgress && geocodingError.None?
            && lastPassed.Some? && inFlight.value == Normalize(lastPassed.value)
            && inFlight.value != "")
      && (!alive ==> pending.None? && inFlight.None?)
      && (pending.Some? ==> !IsBlank(pending.value))
      && (lastGeocodedAddress.Some? ==> !IsBlank(lastGeocodedAddress.value))
      && (lastSentToSubject.Some? ==> !IsBlank(lastSentToSubject.value))
    }

    /** The form as `initializeForm` and `setupAddressGeocoding` leave it. */
    constructor ()
      ensures Valid()
      ensures State() == FormState("", None, None, None, None, None, false, None, None, None, true)
    {
      address := "";
      lat := None;
      lng := None;
      lastGeocodedAddress := None;
      lastSentToSubject := None;
      geocodingError := None;
      geocodingInProgress := false;
      pending := None;
      lastPassed := None;
      inFlight := None;
      alive := true;
    }

    /** The user types into the latitude and longitude inputs. */
    method EditCoordinates(newLat: Option<real>, newLng: Option<real>)
      requires Valid()
      modifies this
      ensures Valid()
      ensures State() == old(State()).(lat := newLat, lng := newLng)
    {
      lat := newLat;
      lng := newLng;
    }

    /** The address is cleared: the coordinates, the error and both remembered addresses go with it. */
    method ClearAddress(s: string)
      requires Valid() && IsBlank(s)
      modifies this
      ensures Valid()
      ensures State() == old(State()).(address := s, lat := None, lng := None, geocodingError := None,
                                       lastGeocodedAddress := None, lastSentToSubject := None)
    {
      address := s;
      lat := None;
      lng := None;
      geocodingError := None;
      lastGeocodedAddress := None;
      lastSentToSubject := None;
    }

    /**
     * The address changes to `s`. A blank address clears the coordinates, the
     * error and both remembered addresses and sends nothing; an address already
     * geocoded with non-zero coordinates is skipped; anything else is recorded
     * and sent to the debouncer (which a dead pipeline no longer listens to).
     */
    method Edit(s: string)
      requires Valid()
      modifies this
      ensures Valid()
      ensures IsBlank(s) ==>
        State() == old(State()).(address := s, lat := None, lng := None, geocodingError := None,
                                 lastGeocodedAddress := None, lastSentToSubject := None)
      ensures !IsBlank(s) && AlreadyGeocoded(s, old(lastGeocodedAddress), old(lat), old(lng)) ==>
        State() == old(State()).(address := s)
      ensures !IsBlank(s) && !AlreadyGeocoded(s, old(lastGeocodedAddress), old(lat), old(lng)) ==>
        State() == old(State()).(address := s, lastSentToSubject := Some(s),
                                 pending := if old(alive) then Some(s) else old(pending))
    {
      if s == "" || IsBlank(s) {
        ClearAddress(s);
        return;
      }
      address := s;
      var normalized := Normalize(s);
      var lastGeocodedNormalized := if lastGeocodedAddress.Some? then Normalize(lastGeocodedAddress.value) else "";
      if normalized == lastGeocodedNormalized {
        if TruthyNum(lat) && TruthyNum(lng) {
          return;
        }
      }
      lastSentToSubject := Some(s);
      if alive {
        pending := Some(s);
      }
    }

    /**
     * 1500 ms pass with no new value. The held value is dropped when it equals
     * the last one let through (after trim and lower-casing); otherwise it is
     * let through, marks the form busy, clears the error and replaces any open
     * request. Returns the address sent to the server, if any.
     */
    method DebounceElapsed() returns (dispatched: Option<string>)
      requires Valid()
      modifies this
      ensures Valid()
      ensures old(pending).None? ==> dispatched.None? && State() == old(State())
      ensures old(pending).Some? && old(lastPassed).Some? && SameAddress(old(lastPassed).value, old(pending).value) ==>
        dispatched.None? && State() == old(State()).(pending := None)
      ensures old(pending).Some? && !(old(lastPassed).Some? && SameAddress(old(lastPassed).value, old(pending).value)) ==>
        && dispatched == old(pending)
        && State() == old(State()).(pending := None, lastPassed := old(pending),
                                    geocodingInProgress := true, geocodingError := None,
                                    inFlight := Some(Normalize(old(pending).value)))
    {
      if pending.None? {
        return None;
      }
      var v := pending.value;
      pending := None;
      if lastPassed.Some? && SameAddress(lastPassed.value, v) {
        return None;
      }
      lastPassed := Some(v);
      if v == "" || IsBlank(v) {
        return None;
      }
      geocodingInProgress := true;
      geocodingError := None;
      NormalizeNonBlank(v);
      inFlight := Some(Normalize(v));
      return Some(v);
    }

    /**
     * The open request answers with coordinates. They are committed only when
     * the current address still normalises to the requested one; a stale answer
     * changes nothing, and the form stays busy.
     */
    method GeoSuccess(resultLat: real, resultLng: real)
      requires Valid() && inFlight.Some?
      modifies this
      ensures Valid()
      ensures Normalize(old(address)) == old(inFlight).value ==>
        State() == old(State()).(geocodingInProgress := false, geocodingError := None,
                                 lastGeocodedAddress := Some(old(address)), lastSentToSubject := Some(old(address)),
                                 lat := Some(resultLat), lng := Some(resultLng), inFlight := None)
      ensures Normalize(old(address)) != old(inFlight).value ==>
        State() == old(State()).(inFlight := None)
    {
      var requested := inFlight.value;
      var currentAddress := address;
      if Normalize(currentAddress) == requested {
        NormalizeBlank(currentAddress);
        geocodingInProgress := false;
        geocodingError := None;
        lastGeocodedAddress := Some(currentAddress);
        lastSentToSubject := Some(currentAddress);
        lat := Some(resultLat);
        lng := Some(resultLng);
      }
      inFlight := None;
    }

    /**
     * The open request fails. A matching address shows the message; the error
     * then leaves `switchMap` (nothing catches it), so the subscription's error
     * handler shows it whatever the address, and the pipeline ends for good.
     */
    method GeoFailure(message: Option<string>)
      requires Valid() && inFlight.Some?
      modifies this
      ensures Valid()
      ensures State() == old(State()).(geocodingInProgress := false,
                                       geocodingError := Some(if Truthy(message) then message.value else DefaultGeocodingError),
                                       alive := false, pending := None, inFlight := None)
    {
      var requested := inFlight.value;
      var text := if Truthy(message) then message.value else DefaultGeocodingError;
      if Normalize(address) == requested {
        geocodingInProgress := false;
        geocodingError := Some(text);
      }
      geocodingInProgress := false;
      geocodingError := Some(text);
      alive := false;
      inFlight := None;
      pending := None;
    }
  }

  // ---------------------------------------------------------------------
  // Scenarios
  // ---------------------------------------------------------------------

  /** Typing "A", "AB", "ABC" without pause sends one request, for "ABC". */
  method TypingSendsLastValueOnly() returns (sent: Option<string>)
    ensures sent == Some("ABC")
  {
    var g := new AddressGeocoder();
    assert Normalize("A") != "" by { assert !IsBlank("A") by { assert !IsWhiteSpace("A"[0]); } NormalizeNonBlank("A"); }
    assert !IsBlank("AB") by { assert !IsWhiteSpace("AB"[0]); }
    assert !IsBlank("ABC") by { assert !IsWhiteSpace("ABC"[0]); }
    g.Edit("A");
    g.Edit("AB");
    g.Edit("ABC");
    sent := g.DebounceElapsed();
  }

  /** After one failed request, no later address is ever geocoded. */
  method FailureEndsGeocoding() returns (sent: Option<string>)
    ensures sent.None?
  {
    var g := new AddressGeocoder();
    assert !IsBlank("Haifa") by { assert !IsWhiteSpace("Haifa"[0]); }
    assert !IsBlank("Tel Aviv") by { assert !IsWhiteSpace("Tel Aviv"[0]); }
    g.Edit("Haifa");
    var first := g.DebounceElapsed();
    assert first == Some("Haifa");
    g.GeoFailure(Some("Http failure"));
    g.Edit("Tel Aviv");
    sent := g.DebounceElapsed();
  }

  /** Clearing the address while a request is open leaves the form busy after the stale answer arrives. */
  method ClearedAddressStaysBusy() returns (busy: bool)
    ensures busy
  {
    var g := new AddressGeocoder();
    assert !IsBlank("Haifa") by { assert !IsWhiteSpace("Haifa"[0]); }
    g.Edit("Haifa");
    var first := g.DebounceElapsed();
    g.Edit("");
    assert Normalize("") == "";
    g.GeoSuccess(32.8, 35.0);
    busy := g.geocodingInProgress;
  }

  /**
   * After an address is geocoded, clearing it and typing it again sends no
   * request: the clear resets the remembered addresses, but
   * `distinctUntilChanged` still compares with the last value it let through,
   * so the coordinates stay empty.
   */
  method RetypedAddressIsNotGeocoded() returns (sent: Option<string>, lat: Option<real>)
    ensures sent.None? && lat.None?
  {
    var g := new AddressGeocoder();
    assert !IsBlank("Haifa") by { assert !IsWhiteSpace("Haifa"[0]); }
    g.Edit("Haifa");
    var first := g.DebounceElapsed();
    assert first == Some("Haifa");
    g.GeoSuccess(32.8, 35.0);
    assert g.lat == Some(32.8);
    g.Edit("");
    g.Edit("Haifa");
    sent := g.DebounceElapsed();
    lat := g.lat;
  }
}
