/**
 * The server's geocoding endpoint: a process-wide gate that lets at most one
 * upstream request out per second, and the classification of the upstream
 * answer into the endpoint's result.
 *
 * The clock is the field `now`, advanced by the caller and by the wait; the
 * upstream service is an input `Upstream`; `double.TryParse` is the parameter
 * `parse`.
 */
module Geocoding {
  import opened Wrappers
  import opened Text
  import opened AdsDomain

  /** `DateTimeOffset.MinValue`, in ticks. */
  const MinValue: Instant := 0

  /** `_minInterval`: one second. */
  const MinInterval: int := TicksPerSecond

  const EmptyAddressError: string := "Address cannot be empty"
  const FailedError: string := "Failed to geocode address"
  const NotFoundError: string := "Address not found"

  /** One element of the upstream JSON array. */
  datatype Candidate = Candidate(lat: string, lon: string, displayName: string)

  /** What the upstream call produced. */
  datatype Upstream =
    | Threw
    | Answered(success: bool, candidates: Option<seq<Candidate>>)

  datatype GeocodeResult =
    | Ok(lat: real, lng: real, formattedAddress: string)
    | BadRequest(error: string)
    | NotFound(error: string)
    | ServerError(error: string)

  /** The request is refused before the gate when it has no usable address. */
  predicate Refused(request: Option<string>) {
    request.None? || IsBlank(request.value)
  }

  /** The endpoint's answer once the upstream call has been made. */
  function Classify(upstream: Upstream, parse: string -> Option<real>): GeocodeResult {
    match upstream
    case Threw => ServerError(FailedError)
    case Answered(success, candidates) =>
      if !success then ServerError(FailedError)
      else if candidates.None? || candidates.value == [] then NotFound(NotFoundError)
      else
        var r := candidates.value[0];
        if parse(r.lat).None? || parse(r.lon).None? then ServerError(FailedError)
        else Ok(parse(r.lat).value, parse(r.lon).value, r.displayName)
  }

  /**
   * The `_lastRequest` stamp of a call that arrives at `arrival`, after the
   * stamp `last`, and spends `latency` ticks besides any wait.
   */
  function NextStamp(last: Instant, arrival: Instant, latency: nat): (t: Instant)
    ensures t >= last + MinInterval
    ensures t >= arrival + latency
    ensures arrival - last >= MinInterval ==> t == arrival + latency
    ensures arrival - last < MinInterval ==> t == last + MinInterval + latency
  {
    var since := arrival - last;
    if since < MinInterval then last + MinInterval + latency else arrival + latency
  }

  /** Consecutive stamps are at least one interval apart. */
  predicate Spaced(stamps: seq<Instant>) {
    forall i :: 0 <= i < |stamps| - 1 ==> stamps[i + 1] - stamps[i] >= MinInterval
  }

  class GeocodingGate {
    /** `_lastRequest`. */
    var lastRequest: Instant
    /** `DateTimeOffset.UtcNow`. */
    var now: Instant
    /** The addresses sent upstream, in order. */
    var sent: seq<string>
    /** Every value `_lastRequest` has taken after the initial one. */
    ghost var stamps: seq<Instant>

    ghost predicate Valid()
      reads this
    {
      && MinValue <= lastRequest <= now
      && |stamps| == |sent|
      && (stamps == [] ==> lastRequest == MinValue)
      && (stamps != [] ==> lastRequest == stamps[|stamps| - 1])
      && Spaced(stamps)
    }

    constructor (start: Instant)
      requires start >= MinValue
      ensures Valid()
      ensures lastRequest == MinValue && now == start && sent == [] && stamps == []
    {
      lastRequest := MinValue;
      now := start;
      sent := [];
      stamps := [];
    }

    /** Time passes between requests. */
    method AdvanceClock(d: nat)
      requires Valid()
      modifies this
      ensures Valid()
      ensures now == old(now) + d
      ensures lastRequest == old(lastRequest) && sent == old(sent) && stamps == old(stamps)
    {
      now := now + d;
    }

    /**
     * Handles one request: a missing or blank address is refused with nothing
     * else happening; otherwise the gate is taken, the call waits until a second
     * has passed since the last stamp, stamps, asks upstream, classifies the
     * answer and releases the gate.
     */
    method Geocode(request: Option<string>, latency: nat, upstream: Upstream, parse: string -> Option<real>)
      returns (result: GeocodeResult)
      requires Valid()
      modifies this
      ensures Valid()
      ensures Refused(request) ==>
        && result == BadRequest(EmptyAddressError)
        && lastRequest == old(lastRequest) && now == old(now)
        && sent == old(sent) && stamps == old(stamps)
      ensures !Refused(request) ==>
        && result == Classify(upstream, parse)
        && lastRequest == NextStamp(old(lastRequest), old(now), latency)
        && now == lastRequest
        && sent == old(sent) + [request.value]
        && stamps == old(stamps) + [lastRequest]
    {
      if request.None? || IsBlank(request.value) {
        return BadRequest(EmptyAddressError);
      }
      var since := now - lastRequest;
      if since < MinInterval {
        now := now + (MinInterval - since);
      }
      now := now + latency;
      lastRequest := now;
      stamps := stamps + [lastRequest];
      sent := sent + [request.value];
      result := Classify(upstream, parse);
    }
  }

  // ---------------------------------------------------------------------
  // Properties
  // ---------------------------------------------------------------------

  /** A 404 comes exactly from a successful answer with no candidate. */
  lemma NotFoundExactly(upstream: Upstream, parse: string -> Option<real>)
    ensures Classify(upstream, parse).NotFound? <==>
      upstream.Answered? && upstream.success &&
      (upstream.candidates.None? || upstream.candidates.value == [])
  {
  }

  /**
   * A 200 comes exactly from a successful answer whose first candidate's two
   * coordinates both parse, and carries that candidate's values.
   */
  lemma OkExactly(upstream: Upstream, parse: string -> Option<real>)
    ensures Classify(upstream, parse).Ok? <==>
      && upstream.Answered? && upstream.success
      && upstream.candidates.Some? && upstream.candidates.value != []
      && parse(upstream.candidates.value[0].lat).Some?
      && parse(upstream.candidates.value[0].lon).Some?
    ensures Classify(upstream, parse).Ok? ==>
      var r := upstream.candidates.value[0];
      Classify(upstream, parse) == Ok(parse(r.lat).value, parse(r.lon).value, r.displayName)
  {
  }

  /** Every other outcome after the gate is a 500 with the one fixed message; 400 never comes from upstream. */
  lemma OtherwiseServerError(upstream: Upstream, parse: string -> Option<real>)
    ensures !Classify(upstream, parse).Ok? && !Classify(upstream, parse).NotFound? ==>
      Classify(upstream, parse) == ServerError(FailedError)
    ensures !Classify(upstream, parse).BadRequest?
  {
  }

  /** Only the first candidate matters. */
  lemma OnlyFirstCandidate(c: Candidate, rest1: seq<Candidate>, rest2: seq<Candidate>, parse: string -> Option<real>)
    ensures Classify(Answered(true, Some([c] + rest1)), parse) == Classify(Answered(true, Some([c] + rest2)), parse)
  {
  }

  /** Appending a stamp at least an interval after the last keeps the stamps spaced. */
  lemma SpacedAppend(stamps: seq<Instant>, t: Instant)
    requires Spaced(stamps)
    requires stamps != [] ==> t - stamps[|stamps| - 1] >= MinInterval
    ensures Spaced(stamps + [t])
  {
  }
}
