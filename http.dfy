/** The slice of `net/http` the filter touches: a header map with Go's
    `Add`/`Set`/`Get` semantics, an incoming request, and a response writer
    whose header map and status the filter updates in place. */
module Http {
  import opened Wrappers

  /** `http.Header`: each key maps to the list of its values, in order. */
  type Header = map<string, seq<string>>

  const MethodOptions: string := "OPTIONS"
  const StatusNoContent: int := 204

  /** The values stored under `key`; a missing key has none. */
  function HeaderValues(h: Header, key: string): seq<string>
  {
    if key in h then h[key] else []
  }

  /** `Header.Get`: the first value stored under `key`, or "" when there is none. */
  function Get(h: Header, key: string): string
  {
    var vs := HeaderValues(h, key);
    if |vs| > 0 then vs[0] else ""
  }

  /** `Header.Add`: append `value` to the values of `key`, leave every other key alone. */
  function Add(h: Header, key: string, value: string): Header
  {
    h[key := HeaderValues(h, key) + [value]]
  }

  /** `Header.Set`: replace all values of `key` by the single `value`, leave every other key alone. */
  function Set(h: Header, key: string, value: string): Header
  {
    h[key := [value]]
  }

  /** The error a handler returns. */
  datatype Error = Error(message: string)

  /** Header `key` of `r` holds exactly the single value `v`. */
  predicate SetTo(r: Header, key: string, v: string)
  {
    key in r && r[key] == [v]
  }

  /** Header `key` is the same in `r` as in `h` (present or absent alike). */
  predicate KeptAs(h: Header, r: Header, key: string)
  {
    (key in r <==> key in h) && (key in h ==> r[key] == h[key])
  }

  /** `Add` appends to the values of `key`, `Set` makes `value` its only
      value (so `Get` returns it); both add `key` to the map and leave every
      other header as it was. */
  lemma HeaderUpdates(h: Header, key: string, value: string, k: string)
    requires k != key
    ensures HeaderValues(Add(h, key, value), key) == HeaderValues(h, key) + [value]
    ensures SetTo(Set(h, key, value), key, value) && Get(Set(h, key, value), key) == value
    ensures Add(h, key, value).Keys == h.Keys + {key} && KeptAs(h, Add(h, key, value), k)
    ensures Set(h, key, value).Keys == h.Keys + {key} && KeptAs(h, Set(h, key, value), k)
  {
  }

  /** An incoming request as the filter sees it: its method and its headers. */
  datatype Request = Request(httpMethod: string, header: Header)

  /** The response being built: its header map and the status written so far. */
  class ResponseWriter {
    var header: Header
    var status: Option<int>

    constructor ()
      ensures header == map[] && status == None
    {
      header := map[];
      status := None;
    }

    method AddHeader(key: string, value: string)
      modifies this
      ensures header == Add(old(header), key, value)
      ensures status == old(status)
    {
      header := Add(header, key, value);
    }

    method SetHeader(key: string, value: string)
      modifies this
      ensures header == Set(old(header), key, value)
      ensures status == old(status)
    {
      header := Set(header, key, value);
    }

    method WriteHeader(code: int)
      modifies this
      ensures status == Some(code)
      ensures header == old(header)
    {
      status := Some(code);
    }
  }
}
