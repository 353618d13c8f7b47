/**
 * The slice of net/http the middleware relies on: header maps with Go's
 * Get/Set/Add, and a response writer whose first WriteHeader fixes the status.
 * Header keys are taken as already canonical.
 */
module Http {
  /** `http.Header`: each key maps to its list of values. */
  type Header = map<string, seq<string>>

  /** No status written yet. */
  const NoStatus: int := 0
  const StatusOK: int := 200

  /** `Header.Get`, and `url.Values.Get`: the first value of the key, "" when there is none. */
  function HeaderGet(h: Header, key: string): (v: string)
    ensures key !in h || h[key] == [] ==> v == ""
    ensures key in h && h[key] != [] ==> v == h[key][0]
  {
    if key in h && |h[key]| > 0 then h[key][0] else ""
  }

  /** `Header.Set`: the key's values become exactly `[value]`; other keys are untouched. */
  function HeaderSet(h: Header, key: string, value: string): (r: Header)
    ensures r.Keys == h.Keys + {key}
    ensures r[key] == [value]
    ensures forall k :: k in h && k != key ==> r[k] == h[k]
  {
    h[key := [value]]
  }

  /** `Header.Add`: `value` is appended after the key's existing values; other keys are untouched. */
  function HeaderAdd(h: Header, key: string, value: string): (r: Header)
    ensures r.Keys == h.Keys + {key}
    ensures r[key] == (if key in h then h[key] else []) + [value]
    ensures forall k :: k in h && k != key ==> r[k] == h[k]
  {
    h[key := (if key in h then h[key] else []) + [value]]
  }

  /** Setting a key twice keeps only the second value: an earlier Set of the same key is lost. */
  lemma SetOverwrites(h: Header, key: string, first: string, second: string)
    ensures HeaderSet(HeaderSet(h, key, first), key, second) == HeaderSet(h, key, second)
  {
  }

  /** Adding to a key twice keeps both values, in order, after any it had. */
  lemma AddKeepsBoth(h: Header, key: string, first: string, second: string)
    ensures HeaderAdd(HeaderAdd(h, key, first), key, second)[key] ==
              (if key in h then h[key] else []) + [first, second]
  {
  }

  /** A response under construction: its header map and the status written so far. */
  class ResponseWriter {
    var header: Header
    var status: int

    constructor ()
      ensures header == map[] && status == NoStatus
    {
      header := map[];
      status := NoStatus;
    }

    /** `w.Header().Set(key, value)`. */
    method Set(key: string, value: string)
      modifies this
      ensures header == HeaderSet(old(header), key, value)
      ensures status == old(status)
    {
      header := HeaderSet(header, key, value);
    }

    /** `w.Header().Add(key, value)`. */
    method Add(key: string, value: string)
      modifies this
      ensures header == HeaderAdd(old(header), key, value)
      ensures status == old(status)
    {
      header := HeaderAdd(header, key, value);
    }

    /** `w.WriteHeader(code)`: only the first call takes effect. */
    method WriteHeader(code: int)
      modifies this
      ensures status == (if old(status) == NoStatus then code else old(status))
      ensures header == old(header)
    {
      if status == NoStatus {
        status := code;
      }
    }
  }
}
