# sqrlua client model

A Dafny model of the client side of sqrlua, a test client for SQRL servers
(Secure Quick Reliable Login). It covers three parts:

- **The session client** (`Request`, request.go). `Client` holds the current
  nut, the last server response and the last nut response.
  - It builds the `cli.sqrl`, `nut.sqrl` and `sqrl://` URLs.
  - It prepares each command before it is posted. It echoes the server text
    and adds the unlock keys an `ident` needs. It signs `enable` and `remove`
    with both the identity key and the unlock key, and every other command
    with the identity key only.
  - An exchange moves the session on only when the server answers 200 with
    a reply that parses.
  - `FakeIdentity` fills a command's key fields in place, in the source's
    order. `CliRequest` is a class whose fields are updated in place.
- **The response-flag comparator** (`Tif`, utilities.go). `TIFCompare` walks
  the 32 bits of `expected XOR actual` and reports each differing bit that
  the flag registry describes. It reports nothing (nil) when the masks agree.
  The loop is proved equal to a recursive definition. That definition is
  proved equal to a reference definition stated over bit positions.
- **The nut providers** (`NutRequest`, nut_request.go).
  - The embedded-URL scanner is `sqrlURLRegexp` and `parseSQRLURLFromBody`.
    The pattern is modelled as a leftmost, longest match of `sqrl://`
    followed by characters of the class.
  - The two third-party `GetNut` variants take the nut from the `nut`
    parameter of the URL they find.

Collaborators the client only calls are fields of `External.Env`. These are
the sqrl-ssp codec (`Encode`, `SigningString`, `ParseCliResponse`,
`Sqrl64`), `ed25519.Sign`, and the URL library's `String`, `Parse` and
`ParseQuery`. The JSON decoder is the `decode` parameter of
`NutRequest.DotNetGetNut`. Nothing is assumed about them except one thing: the signing
string is a function of the client body and the server text. The reply to
each HTTP request is a parameter (`Common.Reply`). The client keeps ghost
logs of the URLs it fetched (`fetched`) and the commands it posted
(`posted`).

## Model

| member | source | states |
|---|---|---|
| Urls.Get | request.go:213-215 | url.Values.Get: "" when the key is absent, otherwise the value of its first occurrence |
| Tif.TIFCompare | utilities.go:10-28 | the loop's result is nil exactly when nothing was appended, else the appended list (at most 32 entries), as defined by `Compare` |
| Tif.DescribedDiffs | utilities.go:15-20 | the reported positions are strictly ascending, below 32, and are exactly the bits that differ and are described |
| Tif.MismatchesByPosition | utilities.go:15-20 | with no entry for mask 0, the list is one mismatch per differing, described bit, in ascending bit order, each holding the bit's description and its actual and expected values |
| Tif.SameMaskIsNil | utilities.go:11-25 | comparing a mask with itself gives nil |
| Tif.MismatchesDiffer | utilities.go:16-20 | every reported mismatch has different actual and expected booleans |
| Tif.Swapped | utilities.go:20 | swaps the two booleans of each mismatch, keeping descriptions and order |
| Tif.SwapArguments | utilities.go:11-20 | swapping expected and actual gives the same descriptions in the same order with the booleans swapped, whatever the registry holds |
| Tif.CompareSwap | utilities.go:11-26 | the swap property for the nil-or-list result: nil for one order exactly when nil for the other |
| Tif.SingleBitDifference | utilities.go:15-26 | masks that differ in one described bit give exactly that one mismatch, with differing actual and expected values |
| NutRequest.RunEndIsMaximal | nut_request.go:109 | the `+` of the pattern: the run of class characters extends as far as possible and stops at the first character outside the class |
| NutRequest.LeftmostStart | nut_request.go:109-114 | a found start position has `sqrl://` plus one class character there |
| NutRequest.LeftmostStartIsFirst | nut_request.go:109-114 | no earlier position starts a match; none is found only when no position starts one |
| NutRequest.LeftmostMatchIsLeftmost | nut_request.go:109-114 | no match exactly when no position starts one; otherwise the bounds of the leftmost, longest match |
| NutRequest.FindString | nut_request.go:109-114 | sqrlURLRegexp.FindString: "" or a text longer than `sqrl://` and no longer than the line; which text it is, is stated by the lemmas below |
| NutRequest.MatchShape | nut_request.go:109 | a non-empty match is `sqrl://` followed by one or more class characters |
| NutRequest.MatchAvoidsTerminators | nut_request.go:109 | a match never contains `%`, space, tab, CR, LF, `"`, `<` or `>` |
| NutRequest.EmptyIffNoStart | nut_request.go:114 | FindString returns "" exactly when the line holds no match |
| NutRequest.FindStringIsTheLeftmostMatch | nut_request.go:109-114 | any bounds that satisfy the leftmost-longest condition are the bounds FindString returns |
| NutRequest.MatchStopsAt | nut_request.go:109-114 | in a line with no colon before the URL, the match is the URL up to the first character outside the class (e.g. `%`) |
| NutRequest.FirstMatchingLine | nut_request.go:113-114 | the first line holding a match, with every earlier line matchless; none when no line matches |
| NutRequest.FirstMatchingLineAppend | nut_request.go:113-117 | lines after the first matching one do not change which line is first |
| NutRequest.FirstMatchDecides | nut_request.go:113-117 | a matching line preceded only by matchless lines decides the result: the parse of its match |
| NutRequest.NoMatchDecides | nut_request.go:113-123 | with no matching line the result is the scanner's error if it stopped with one, else "SQRL URL Not Found" |
| NutRequest.ParseSQRLURLFromBody | nut_request.go:111-124 | the scan loop returns the parsed match of the first matching line, else the scanner error, else "SQRL URL Not Found" (as `UrlFromBody`) |
| NutRequest.LaterLinesIgnored | nut_request.go:113-118 | once a line has matched, neither later lines nor the scanner's final error change the result |
| NutRequest.NotFoundExactly | nut_request.go:120-123 | "not found" exactly when no line matches and the scan ended cleanly; a scanner error takes precedence |
| NutRequest.FoundNut | nut_request.go:52-56 | the nut response carries the found URL and that URL's `nut` parameter |
| NutRequest.JavaGetNut | nut_request.go:32-58 | transport error and non-200 are returned before any scanning; otherwise the scan's error or the nut of the found URL |
| NutRequest.DotNetGetNut | nut_request.go:74-107 | transport error, then non-200, then read error, then JSON decode error, then url.Parse error, each as its own error; success exactly when the JSON decodes and its `url` parses, with the nut of that URL |
| Request.FakeIdentity.WithIdk | request.go:162-165 | idk is set first; ids is the idk-key signature of the request with idk set; server and urs unchanged |
| Request.FakeIdentity.WithIdkAndUrs | request.go:168-173 | idk and vuk are set first; ids and urs sign the same signing string, with the idk key and the vuk key |
| Request.FakeIdentity.SignIdk | request.go:162-165 | the in-place update leaves the request `WithIdk` describes |
| Request.FakeIdentity.SignIdkAndURS | request.go:168-173 | the in-place update leaves the request `WithIdkAndUrs` describes |
| Request.FakeIdentity.SignIds | request.go:175-177 | only ids changes; it is the idk-key signature of the current request |
| Request.FakeIdentity.SignUrs | request.go:179-181 | only urs changes; it is the vuk-key signature of the current request |
| Request.Prepared | request.go:74-85 | server is the last server response; idk always set; vuk for ident, enable, remove; suk for ident only; ids always signed; urs signed for enable and remove, otherwise untouched |
| Request.PreparedTwice | request.go:74-85 | preparing an already prepared command for the same session changes nothing |
| Request.CliFromReply | request.go:94-113 | transport error, then read error, then bad status, then parse error; success exactly for a 200 reply whose body parses |
| Request.NutFromQuery | request.go:212-216 | the nut response holds the `nut`, `pag` and `can` parameters |
| Request.NutFromReply | request.go:196-216 | transport error, then bad status, then read error, then query parse error; success exactly for a 200 reply whose body parses as a query |
| Request.Client.constructor | request.go:17-25 | a client of scheme://host/root with no nut, no nut response and no server text |
| Request.Client.BaseURL | request.go:50-57 | the client's scheme and host, its root path as the path, and no query |
| Request.Client.CliURL | request.go:28-42 | client's scheme and host, path root + "/cli.sqrl"; `nut` present iff the nut is non-empty, `can` present iff can is non-empty, no query when both are empty; the query holds exactly those parameters and nothing else |
| Request.Client.NutURL | request.go:44-48 | client's scheme and host, path root + "/nut.sqrl", no query |
| Request.Client.SQRLCliURL | request.go:117-128 | SQRL scheme, client's host, path root + "/cli.sqrl"; always `nut`; the Sqrl64 `can` iff asked for; the query holds exactly those one or two parameters and nothing else |
| Request.Client.SQRLCliURLIsCliURL | request.go:117-128 | without `can`, the sqrl:// URL is the cli URL of the same nut under the SQRL scheme |
| Request.Client.ServerTextFor | request.go:218 | the Sqrl64 of the text of the URL with scheme `sqrl`, the client's host, path root + "/cli.sqrl" and the single query parameter `nut` of the nut response (no `can`) |
| Request.Client.MakeNutRequest | request.go:194-221 | fetches the nut URL; on success stores the nut response, its nut and the Sqrl64 of its sqrl:// URL; on error changes nothing |
| Request.Client.ApplyStateAndSign | request.go:74-85 | the in-place update leaves the command `Prepared` describes for the client's identity and last server response |
| Request.Client.MakeRawCliRequest | request.go:89-114 | posts the encoded command; only a 200 reply that parses sets the current nut to the reply's nut and the server text to the raw body |
| Request.Client.MakeCliRequest | request.go:60-72 | fetches a nut only when none is held; a failed fetch returns its error with nothing signed or posted; otherwise the prepared command is posted to the cli URL of the current nut and can |

## Left out

- HTTP transport (`http.Get`, `http.Post`, `RoundTrip`, `ioutil.ReadAll`, `resp.Write`). The outcome of each request is a parameter. Response bodies are text, and the status is an integer compared with 200. Closing bodies is not modelled.
- `http.NewRequest` errors for the two fixed third-party URLs are left out. They cannot occur for those constant URLs.
- The URLs the third-party `GetNut` variants fetch are fixed constants and are not recorded.
- The sqrl-ssp codec, Sqrl64 (section 5 of RFC 4648) and ed25519 (RFC 8032) are uninterpreted fields of `Env`. So are `url.String`, `url.Parse` and `url.ParseQuery`. The JSON decoder is the `decode` parameter of `NutRequest.DotNetGetNut`. Percent-escaping and the byte layout of encoded URLs are therefore not modelled. A URL is a record whose query lists its parameters in encoding order (`can` before `nut`). `Request.Client.MakeRawCliRequest` takes that record where the source takes its text.
- The contents of `ssp.TIFDesc` are left out. The registry is a parameter. Lemmas that need "mask 0 is not described" say so (`Tif.NoZeroEntry`). `Tif.TIFCompare` itself keeps the source's lookup of `mask & diff`, which is 0 for bits that agree.
- Error values are constructors of `Common.Error`, not formatted messages.
- `bufio.Scanner` line splitting and its token-size limit are left out. A scanned body is its lines plus an optional final error.
- `NewFakeIdentity` (key generation) is left out. An identity is a value holding its five keys.
- `log.Printf` calls are left out.
- `NewClient`, `MakeStandardURLRawCliRequest` and `UseJava` are not part of this model. They are referenced by the tests but not defined in the shown source.
- The `Nutter` interface is two separate members, `NutRequest.JavaGetNut` and `NutRequest.DotNetGetNut`.
- The two declarations of `NutResponse` are one record with all four fields.
- Request.Client.MakeCliRequest: requires a nut response whenever a nut is held, because request.go:68 dereferences `NutResponse` and panics when it is nil. This happens when the nut came from `MakeRawCliRequest` alone.
- Pointer aliasing of `ssp.ClientBody` between commands is left out. The client body is a value.
- A nil `Client.Identity` is left out. The identity is always present.
- A nil `cli.Client`, which panics at request.go:76, is left out. A `Request.CliRequest` always holds a client body; its constructor stands for the `&ssp.CliRequest{Client: ...}` literal callers build.
- NutRequest.DotNetGetNut: does not model the panic on a JSON `null` body. nut_request.go:93 decodes into `&dnr`, a pointer to a pointer, so `null` sets `dnr` to nil without an error, and `dnr.ParsedURL()` (nut_request.go:97, 71) then dereferences nil. `decode` yields either no value (a decode error) or a whole `DotNetResponse`.
