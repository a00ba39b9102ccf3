/** URLs as the client builds and reads them (Go's net/url). A URL is kept as
    a record; turning it into text and back is left to the url library,
    which the client reaches through the collaborators in module External. */
module Urls {

  /** One decoded `key=value` pair of a query string. */
  datatype Param = Param(key: string, value: string)

  /** A URL with its query decoded into pairs, in the order they appear in the
      query string (url.Values.Encode writes keys in sorted order). An empty
      query means the URL has no `?` part at all. */
  datatype Url = Url(scheme: string, host: string, path: string, query: seq<Param>)

  /** The fixed scheme of SQRL URLs (ssp.SqrlScheme). */
  const SqrlScheme: string := "sqrl"

  /** The query gives at least one value for `key`. */
  predicate HasKey(query: seq<Param>, key: string) {
    exists i :: 0 <= i < |query| && query[i].key == key
  }

  /** url.Values.Get: the first value given for `key`, or "" when there is none. */
  function Get(query: seq<Param>, key: string): (r: string)
    ensures (forall i :: 0 <= i < |query| ==> query[i].key != key) ==> r == ""
    ensures forall i :: (0 <= i < |query| && query[i].key == key
                         && forall j :: 0 <= j < i ==> query[j].key != key) ==> r == query[i].value
  {
    if |query| == 0 then ""
    else if query[0].key == key then query[0].value
    else Get(query[1..], key)
  }
}
