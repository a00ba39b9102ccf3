/** The protocol codec (sqrl-ssp), ed25519 signing and the url library, seen
    only through their results. The records below hold the fields of the
    codec's types that the client reads or writes; the collaborators' code
    is not part of this model and enters as the function-valued fields of
    `Env`, about which nothing is assumed beyond what each field's comment
    says. */
module External {
  import opened Common
  import opened Urls

  /** The client part of a command (ssp.ClientBody). */
  datatype ClientBody = ClientBody(
    version: seq<int>,
    cmd: string,
    opt: map<string, bool>,
    idk: string,
    vuk: string,
    suk: string)

  /** The value of a command (ssp.CliRequest): the client body, the echoed
      server text and the two signatures. */
  datatype RequestValue = RequestValue(client: ClientBody, server: string, ids: string, urs: string)

  /** A parsed server reply (ssp.CliResponse): the next nut, the response
      flags (TIF) and the server unlock key it may echo. */
  datatype CliResponse = CliResponse(nut: Nut, tif: bv32, qry: string, suk: string)

  /** The collaborators the client calls into. */
  datatype Env = Env(
    sqrl64: seq<byte> -> string,                 // ssp.Sqrl64.EncodeToString
    utf8: string -> seq<byte>,                   // the conversion []byte(s)
    sign: (seq<byte>, seq<byte>) -> seq<byte>,   // ed25519.Sign(private key, message)
    // CliRequest.SigningString: the bytes both signatures cover. It is a
    // function of the client body and the server text only, as the signed
    // part of a SQRL command is client plus server; ids and urs are not in it.
    signingString: (ClientBody, string) -> seq<byte>,
    encode: RequestValue -> string,              // CliRequest.Encode, the POST body
    parseCliResponse: string -> Option<CliResponse>, // ssp.ParseCliResponse
    urlString: Url -> string,                    // (*url.URL).String
    parseUrl: string -> Option<Url>,             // url.Parse
    parseQuery: string -> Option<seq<Param>>)    // url.ParseQuery
}
