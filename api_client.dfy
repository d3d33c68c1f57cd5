/**
 * The client's single HTTP entry point, `get`: it builds the query string from
 * a parameter object, keeping every value except null, undefined and "", and
 * sends the request to the base URL followed by the endpoint.
 */
module ApiClient {
  import opened Wrappers

  /** A JavaScript value a parameter object can hold. */
  datatype JsValue =
    | Null
    | Undefined
    | Str(s: string)
    | Num(text: string)
    | Bool(b: bool)

  /** `value !== null && value !== undefined && value !== ''`. */
  predicate IsSent(v: JsValue) {
    v != Null && v != Undefined && v != Str("")
  }

  /** `value.toString()`; a number carries its own decimal text. */
  function ToText(v: JsValue): string
    requires IsSent(v)
  {
    match v
    case Str(s) => s
    case Num(text) => text
    case Bool(b) => if b then "true" else "false"
  }

  /** The query parameters built from the entries of a parameter object, in key order. */
  function KeptParams(entries: seq<(string, JsValue)>): seq<(string, string)> {
    if entries == [] then []
    else
      var (k, v) := entries[0];
      (if IsSent(v) then [(k, ToText(v))] else []) + KeptParams(entries[1..])
  }

  datatype GetRequest = GetRequest(url: string, params: seq<(string, string)>)

  /** `get(endpoint, params)`: the loop over `Object.keys(params)` and the URL. */
  method Get(baseUrl: string, endpoint: string, params: Option<seq<(string, JsValue)>>) returns (request: GetRequest)
    ensures request.url == baseUrl + endpoint
    ensures params.None? ==> request.params == []
    ensures params.Some? ==> request.params == KeptParams(params.value)
  {
    var httpParams: seq<(string, string)> := [];
    if params.Some? {
      var entries := params.value;
      var i := 0;
      while i < |entries|
        invariant 0 <= i <= |entries|
        invariant httpParams + KeptParams(entries[i..]) == KeptParams(entries)
      {
        var (key, value) := entries[i];
        assert entries[i..] == [entries[i]] + entries[i + 1..];
        if value != Null && value != Undefined && value != Str("") {
          httpParams := httpParams + [(key, ToText(value))];
        }
        i := i + 1;
      }
      assert entries[i..] == [];
    }
    request := GetRequest(baseUrl + endpoint, httpParams);
  }

  /** Filtering respects concatenation: parameters keep their order. */
  lemma {:induction false} KeptParamsAppend(a: seq<(string, JsValue)>, b: seq<(string, JsValue)>)
    ensures KeptParams(a + b) == KeptParams(a) + KeptParams(b)
  {
    if a != [] {
      assert (a + b)[0] == a[0] && (a + b)[1..] == a[1..] + b;
      KeptParamsAppend(a[1..], b);
    } else {
      assert a + b == b;
    }
  }

  /** An entry is sent, with its text, exactly when its value is not null, undefined or "". */
  lemma {:induction false} KeptParamsMembers(entries: seq<(string, JsValue)>, k: string, v: JsValue)
    requires IsSent(v)
    ensures (k, v) in entries ==> (k, ToText(v)) in KeptParams(entries)
    ensures |KeptParams(entries)| <= |entries|
  {
    if entries != [] {
      KeptParamsMembers(entries[1..], k, v);
      if (k, v) in entries && entries[0] != (k, v) {
        assert (k, v) in entries[1..];
      }
    }
  }

  /** Every parameter sent comes from an entry whose value is sent. */
  lemma {:induction false} KeptParamsSources(entries: seq<(string, JsValue)>, p: (string, string))
    requires p in KeptParams(entries)
    ensures exists v :: (p.0, v) in entries && IsSent(v) && ToText(v) == p.1
  {
    var (k0, v0) := entries[0];
    if IsSent(v0) && p == (k0, ToText(v0)) {
      assert (k0, v0) in entries;
    } else {
      KeptParamsSources(entries[1..], p);
      var v :| (p.0, v) in entries[1..] && IsSent(v) && ToText(v) == p.1;
      assert (p.0, v) in entries;
    }
  }

  /** `false` and 0 are falsy but still sent; null, undefined and "" are dropped. */
  lemma FalsyValuesStillSent(k: string)
    ensures KeptParams([(k, Bool(false))]) == [(k, "false")]
    ensures KeptParams([(k, Num("0"))]) == [(k, "0")]
    ensures KeptParams([(k, Null), (k, Undefined), (k, Str(""))]) == []
  {
    var e3 := [(k, Str(""))];
    var e2 := [(k, Undefined)] + e3;
    var e1 := [(k, Null)] + e2;
    assert e3[1..] == [] && e2[1..] == e3 && e1[1..] == e2;
    assert KeptParams(e3) == [];
    assert KeptParams(e2) == [];
    assert e1 == [(k, Null), (k, Undefined), (k, Str(""))];
  }
}
