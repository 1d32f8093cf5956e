/** The parts of an outgoing HTTP request that a push sets: method, URL,
    header fields, basic credentials and body. */
module Http {
  import opened Wrappers

  newtype uint8 = x: int | 0 <= x < 256

  type Bytes = seq<uint8>

  /** A header maps a field name to its values, in the order they were added. */
  type Header = map<string, seq<string>>

  /** The user-id and password pair of the Basic authentication scheme
      (section 2 of RFC 7617); empty strings are valid and are still sent. */
  datatype Credentials = Credentials(user: string, password: string)

  datatype Request = Request(
    verb: string,
    url: string,
    header: Header,
    basicAuth: Option<Credentials>,
    body: Bytes)

  /** A request as first created: the given method, URL and body, with no
      header fields and no credentials. */
  function NewRequest(verb: string, url: string, body: Bytes): (r: Request)
    ensures r.verb == verb && r.url == url && r.body == body
    ensures r.header == map[] && r.basicAuth == None
  {
    Request(verb, url, map[], None, body)
  }

  /** Appends `value` to the values of `name`, keeping those already there. */
  function AddHeader(r: Request, name: string, value: string): (r': Request)
    ensures r'.header.Keys == r.header.Keys + {name}
    ensures r'.header[name] == (if name in r.header then r.header[name] else []) + [value]
    ensures forall n :: n in r.header && n != name ==> r'.header[n] == r.header[n]
    ensures r' == r.(header := r'.header)
  {
    var prior := if name in r.header then r.header[name] else [];
    r.(header := r.header[name := prior + [value]])
  }

  /** Replaces every value of `name` by the single `value`. */
  function SetHeader(r: Request, name: string, value: string): (r': Request)
    ensures r'.header.Keys == r.header.Keys + {name}
    ensures r'.header[name] == [value]
    ensures forall n :: n in r.header && n != name ==> r'.header[n] == r.header[n]
    ensures r' == r.(header := r'.header)
  {
    r.(header := r.header[name := [value]])
  }

  /** Sets the request's Basic credentials, replacing any earlier ones. */
  function SetBasicAuth(r: Request, user: string, password: string): (r': Request)
    ensures r'.basicAuth == Some(Credentials(user, password))
    ensures r' == r.(basicAuth := r'.basicAuth)
  {
    r.(basicAuth := Some(Credentials(user, password)))
  }
}
