/** Values shared by the whole client: optional values, results carrying
    the client's errors, and the shape of an HTTP reply as the client sees it. */
module Common {

  datatype Option<+T> = None | Some(value: T)

  /** The ways a call of the client can fail. Each constructor stands for one
      `error` value the Go code returns. */
  datatype Error =
    | Transport(reason: string)      // http.Get, http.Post or RoundTrip failed
    | ReadBody(reason: string)       // ioutil.ReadAll or a JSON decoder could not read the body
    | BadStatus(status: int)         // "invalid response code"
    | ParseResponse                  // ssp.ParseCliResponse rejected the body
    | ParseQuery                     // "couldn't parse url encoded body"
    | ParseUrl                       // url.Parse rejected the text
    | DecodeJson                     // json.Decoder rejected the body
    | ScanFailed(reason: string)     // the line scanner stopped with an error
    | NotFound                       // "SQRL URL Not Found"

  datatype Result<+T> = Ok(value: T) | Err(error: Error)

  /** What a body read with ioutil.ReadAll yields. */
  datatype ReadResult = Read(text: string) | ReadFailed(reason: string)

  /** What a line scanner (bufio.Scanner) yields over a body: the lines it
      hands out, then either the end of the body or an error. */
  datatype ScanResult = Scan(lines: seq<string>, err: Option<string>)

  /** The outcome of one HTTP round trip: the transport failed, or the server
      answered with a status code and a body of type B. */
  datatype Reply<+B> = TransportFailed(reason: string) | Reply(status: int, body: B)

  /** http.StatusOK */
  const StatusOK: int := 200

  newtype byte = x: int | 0 <= x < 256

  /** ssp.Nut: an opaque server-issued token. */
  type Nut = string
}
