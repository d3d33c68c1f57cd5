/**
 * `WithTraceId`: stamps a Problem Details object with a `traceId` extension
 * member (section 3.2 of RFC 7807) unless it already carries one.
 */
module ProblemDetailsExtensions {

  const TraceIdKey: string := "traceId"

  class ProblemDetails {
    /** `Extensions`, the members beyond the standard ones. */
    var extensions: map<string, string>

    constructor (initial: map<string, string>)
      ensures extensions == initial
    {
      extensions := initial;
    }
  }

  /** The extension members after stamping `traceId`. */
  function AddTraceId(m: map<string, string>, traceId: string): (r: map<string, string>)
    ensures r.Keys == m.Keys + {TraceIdKey}
    ensures forall k :: k in m ==> r[k] == m[k]
    ensures TraceIdKey !in m ==> r[TraceIdKey] == traceId
  {
    if TraceIdKey !in m then m[TraceIdKey := traceId] else m
  }

  /** Adds `traceId` when absent and returns the same object. */
  method WithTraceId(pd: ProblemDetails, traceId: string) returns (r: ProblemDetails)
    modifies pd
    ensures r == pd
    ensures pd.extensions == AddTraceId(old(pd.extensions), traceId)
  {
    if TraceIdKey !in pd.extensions {
      pd.extensions := pd.extensions[TraceIdKey := traceId];
    }
    return pd;
  }

  /** Stamping twice, with any ids, is stamping once with the first. */
  lemma AddTraceIdIdempotent(m: map<string, string>, first: string, second: string)
    ensures AddTraceId(AddTraceId(m, first), second) == AddTraceId(m, first)
  {
  }

  /** An existing `traceId` is never overwritten, and the map changes only when it was missing. */
  lemma ExistingTraceIdKept(m: map<string, string>, traceId: string)
    requires TraceIdKey in m
    ensures AddTraceId(m, traceId) == m
  {
  }
}
