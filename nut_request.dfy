/** The nut providers of nut_request.go: the record a nut request yields,
    the scan of a login page for an embedded SQRL URL (`sqrlURLRegexp`,
    `parseSQRLURLFromBody`), and the two third-party `GetNut` variants that
    take the nut from the found URL's query. */
module NutRequest {
  import opened Common
  import opened Urls
  import opened External

  /** NutResponse, with every field of both declarations: the nut, the SQRL
      URL it was found in (only the third-party variants set it), and the
      `pag` nut and `can` URL of a self-served nut request. */
  datatype NutResponse = NutResponse(nut: Nut, sqrlUrl: Option<Url>, pagNut: Nut, can: string)

  // ---------------------------------------------------------------------
  // The pattern `sqrl://[\-0-9A-Za-z._~:/?#[\]@!$&'()*+,;=]+`

  /** The unreserved characters of section 2.3 of RFC 3986. */
  predicate Unreserved(c: char) {
    'A' <= c <= 'Z' || 'a' <= c <= 'z' || '0' <= c <= '9' || c == '-' || c == '.' || c == '_' || c == '~'
  }

  /** The gen-delims of section 2.2 of RFC 3986. */
  predicate GenDelim(c: char) {
    c == ':' || c == '/' || c == '?' || c == '#' || c == '[' || c == ']' || c == '@'
  }

  /** The sub-delims of section 2.2 of RFC 3986. */
  predicate SubDelim(c: char) {
    c == '!' || c == '$' || c == '&' || c == '\'' || c == '(' || c == ')'
    || c == '*' || c == '+' || c == ',' || c == ';' || c == '='
  }

  /** The character class of the pattern. `%` is not in it, so a
      percent-encoded URL is cut short at its first `%`. */
  predicate Allowed(c: char) {
    Unreserved(c) || GenDelim(c) || SubDelim(c)
  }

  const SqrlPrefix: string := "sqrl://"

  /** A match of the pattern can start at i: the literal prefix followed by at
      least one allowed character. */
  predicate StartsAt(line: string, i: nat) {
    i + |SqrlPrefix| < |line| && line[i..i + |SqrlPrefix|] == SqrlPrefix && Allowed(line[i + |SqrlPrefix|])
  }

  /** The end of the longest run of allowed characters that begins at j. */
  function RunEnd(line: string, j: nat): (r: nat)
    requires j <= |line|
    ensures j <= r <= |line|
    decreases |line| - j
  {
    if j == |line| || !Allowed(line[j]) then j else RunEnd(line, j + 1)
  }

  /** RunEnd stops only where the run of allowed characters does. */
  lemma {:induction false} RunEndIsMaximal(line: string, j: nat)
    requires j <= |line|
    ensures var r := RunEnd(line, j);
            && (forall m :: j <= m < r ==> Allowed(line[m]))
            && (r == |line| || !Allowed(line[r]))
    decreases |line| - j
  {
    if j < |line| && Allowed(line[j]) {
      RunEndIsMaximal(line, j + 1);
    }
  }

  /** line[i..j] is the leftmost match of the pattern, extended as far as the
      allowed characters go. */
  predicate IsLeftmostMatch(line: string, i: nat, j: nat) {
    && StartsAt(line, i)
    && (forall k: nat :: k < i ==> !StartsAt(line, k))
    && i + |SqrlPrefix| < j <= |line|
    && (forall m :: i + |SqrlPrefix| <= m < j ==> Allowed(line[m]))
    && (j == |line| || !Allowed(line[j]))
  }

  /** The leftmost position from `from` on where a match can start. */
  function LeftmostStart(line: string, from: nat): (r: Option<nat>)
    ensures r.Some? ==> from <= r.value && StartsAt(line, r.value)
    decreases |line| - from
  {
    if |line| <= from + |SqrlPrefix| then None
    else if StartsAt(line, from) then Some(from)
    else LeftmostStart(line, from + 1)
  }

  /** LeftmostStart skips only positions where no match starts. */
  lemma {:induction false} LeftmostStartIsFirst(line: string, from: nat)
    ensures var r := LeftmostStart(line, from);
            && (r.None? ==> forall i: nat :: from <= i ==> !StartsAt(line, i))
            && (r.Some? ==> forall i: nat :: from <= i < r.value ==> !StartsAt(line, i))
    decreases |line| - from
  {
    if from + |SqrlPrefix| < |line| && !StartsAt(line, from) {
      LeftmostStartIsFirst(line, from + 1);
    }
  }

  /** The bounds of the leftmost match, when there is one. */
  function LeftmostMatch(line: string): (r: Option<(nat, nat)>)
    ensures r.Some? ==> r.value.0 + |SqrlPrefix| < r.value.1 <= |line|
  {
    match LeftmostStart(line, 0)
    case None => None
    case Some(i) => Some((i, RunEnd(line, i + |SqrlPrefix|)))
  }

  /** LeftmostMatch finds nothing exactly when no position starts a match,
      and otherwise finds the leftmost, longest one. */
  lemma LeftmostMatchIsLeftmost(line: string)
    ensures var r := LeftmostMatch(line);
            && (r.None? <==> forall i: nat :: !StartsAt(line, i))
            && (r.Some? ==> IsLeftmostMatch(line, r.value.0, r.value.1))
  {
    LeftmostStartIsFirst(line, 0);
    var r := LeftmostStart(line, 0);
    if r.Some? {
      RunEndIsMaximal(line, r.value + |SqrlPrefix|);
    }
  }

  /** sqrlURLRegexp.FindString: the text of the leftmost match, or "" when
      the line holds none. A match is never empty, so "" means no match. */
  function FindString(line: string): (m: string)
    ensures m != "" ==> |SqrlPrefix| < |m| <= |line|
  {
    match LeftmostMatch(line)
    case None => ""
    case Some((i, j)) => line[i..j]
  }

  /** A match is the literal prefix followed by at least one character of the
      class, and nothing else: no `%`, whitespace, `"`, `<` or `>`. */
  lemma MatchShape(line: string)
    ensures var m := FindString(line);
            m != "" ==> && |SqrlPrefix| < |m| && m[..|SqrlPrefix|] == SqrlPrefix
                        && forall c :: c in m[|SqrlPrefix|..] ==> Allowed(c)
  {
    LeftmostMatchIsLeftmost(line);
  }

  /** Characters that end a URL in running text or in HTML markup. */
  const Terminators: set<char> := {'%', ' ', '\t', '\r', '\n', '"', '<', '>'}

  /** No match holds a terminator: the prefix holds none and the class
      admits none. */
  lemma MatchAvoidsTerminators(line: string)
    ensures forall c :: c in FindString(line) ==> c !in Terminators
  {
    var m := FindString(line);
    MatchShape(line);
    forall p | 0 <= p < |m| ensures m[p] !in Terminators {
      if p < |SqrlPrefix| {
        assert m[p] == SqrlPrefix[p];
      } else {
        assert m[p] in m[|SqrlPrefix|..];
      }
    }
  }

  /** FindString finds nothing exactly when no position starts a match. */
  lemma EmptyIffNoStart(line: string)
    ensures FindString(line) == "" <==> forall i: nat :: !StartsAt(line, i)
  {
    LeftmostMatchIsLeftmost(line);
  }

  /** The leftmost match is the only one: whatever bounds satisfy
      IsLeftmostMatch are the ones FindString returns. */
  lemma FindStringIsTheLeftmostMatch(line: string, i: nat, j: nat)
    requires IsLeftmostMatch(line, i, j)
    ensures FindString(line) == line[i..j]
  {
    LeftmostMatchIsLeftmost(line);
    var r := LeftmostMatch(line);
    assert r.Some?;
  }

  /** Every match starts with "sqrl:", so it has a colon four places in. */
  lemma ColonInPrefix(line: string, k: nat)
    ensures StartsAt(line, k) ==> line[k + 4] == ':'
  {
    if StartsAt(line, k) {
      assert line[k..k + |SqrlPrefix|][4] == ':';
    }
  }

  /** A match ends at the first character outside the class, such as the
      `%` of a percent-encoded nut or the quote that closes an HTML
      attribute: text before the URL that holds no `:` cannot start a match,
      so the match is the URL up to that character. */
  lemma MatchStopsAt(pre: string, url: string, stop: char, rest: string)
    requires ':' !in pre
    requires |url| > 0 && forall c :: c in url ==> Allowed(c)
    requires !Allowed(stop)
    ensures FindString(pre + SqrlPrefix + url + [stop] + rest) == SqrlPrefix + url
  {
    var line := pre + SqrlPrefix + url + [stop] + rest;
    var i := |pre|;
    var j := |pre| + |SqrlPrefix| + |url|;
    assert line[i..i + |SqrlPrefix|] == SqrlPrefix;
    assert line[i + |SqrlPrefix|] == url[0];
    assert StartsAt(line, i);
    forall p | 0 <= p < |pre| + 4 ensures line[p] != ':' {
      if p < |pre| {
        assert line[p] == pre[p];
      } else {
        assert line[p] == SqrlPrefix[p - |pre|];
      }
    }
    forall k: nat | k < i ensures !StartsAt(line, k) {
      ColonInPrefix(line, k);
    }
    forall m | i + |SqrlPrefix| <= m < j ensures Allowed(line[m]) {
      assert line[m] == url[m - i - |SqrlPrefix|];
    }
    assert line[j] == stop;
    FindStringIsTheLeftmostMatch(line, i, j);
    assert line[i..j] == SqrlPrefix + url;
  }

  // ---------------------------------------------------------------------
  // parseSQRLURLFromBody

  /** The match of each line, in order ("" for a line without one). */
  function Matches(lines: seq<string>): (ms: seq<string>)
    ensures |ms| == |lines|
    ensures forall k :: 0 <= k < |lines| ==> ms[k] == FindString(lines[k])
  {
    seq(|lines|, k requires 0 <= k < |lines| => FindString(lines[k]))
  }

  /** The first index, from `from` on, whose match is not empty. */
  function FirstMatchingLine(ms: seq<string>, from: nat): (r: Option<nat>)
    ensures r.None? ==> forall k :: from <= k < |ms| ==> ms[k] == ""
    ensures r.Some? ==> from <= r.value < |ms| && ms[r.value] != ""
                        && forall k :: from <= k < r.value ==> ms[k] == ""
    decreases |ms| - from
  {
    if |ms| <= from then None
    else if ms[from] != "" then Some(from)
    else FirstMatchingLine(ms, from + 1)
  }

  /** url.Parse applied to a match. */
  function ParseMatch(env: Env, m: string): Result<Url> {
    match env.parseUrl(m)
    case Some(u) => Ok(u)
    case None => Err(ParseUrl)
  }

  /** What parseSQRLURLFromBody yields for a scanned body: the parsed match of
      the first line that has one; otherwise the scanner's error if it
      stopped with one, and "SQRL URL Not Found" if it did not. */
  function UrlFromBody(env: Env, body: ScanResult): Result<Url> {
    var ms := Matches(body.lines);
    match FirstMatchingLine(ms, 0)
    case Some(k) => ParseMatch(env, ms[k])
    case None =>
      if body.err.Some? then Err(ScanFailed(body.err.value)) else Err(NotFound)
  }

  /** An index with a non-empty entry after only empty ones is the first. */
  lemma FirstNonEmptyAt(ms: seq<string>, i: nat)
    requires i < |ms| && ms[i] != ""
    requires forall k :: 0 <= k < i ==> ms[k] == ""
    ensures FirstMatchingLine(ms, 0) == Some(i)
  {
  }

  /** A line that matches after matchless lines decides the result. */
  lemma FirstMatchDecides(env: Env, body: ScanResult, i: nat)
    requires i < |body.lines|
    requires forall k :: 0 <= k < i ==> Matches(body.lines)[k] == ""
    requires FindString(body.lines[i]) != ""
    ensures UrlFromBody(env, body) == ParseMatch(env, FindString(body.lines[i]))
  {
    var ms := Matches(body.lines);
    assert ms[i] != "";
    FirstNonEmptyAt(ms, i);
  }

  /** With no matching line, how the scan ended decides the result. */
  lemma NoMatchDecides(env: Env, body: ScanResult)
    requires forall k :: 0 <= k < |body.lines| ==> Matches(body.lines)[k] == ""
    ensures UrlFromBody(env, body) == if body.err.Some? then Err(ScanFailed(body.err.value)) else Err(NotFound)
  {
    assert FirstMatchingLine(Matches(body.lines), 0).None?;
  }

  /** parseSQRLURLFromBody: reads the body line by line and stops at the
      first line that holds a match. */
  method ParseSQRLURLFromBody(env: Env, body: ScanResult) returns (r: Result<Url>)
    ensures r == UrlFromBody(env, body)
  {
    ghost var ms := Matches(body.lines);
    var i := 0;
    while i < |body.lines|
      invariant i <= |body.lines|
      invariant forall k :: 0 <= k < i ==> ms[k] == ""
    {
      var m := FindString(body.lines[i]);
      if m != "" {
        FirstMatchDecides(env, body, i);
        return ParseMatch(env, m);
      }
      i := i + 1;
    }
    NoMatchDecides(env, body);
    if body.err.Some? {
      return Err(ScanFailed(body.err.value));
    }
    return Err(NotFound);
  }

  /** Appending indices after the first non-empty one does not move it. */
  lemma {:induction false} FirstMatchingLineAppend(ms: seq<string>, more: seq<string>, from: nat)
    requires FirstMatchingLine(ms, from).Some?
    ensures FirstMatchingLine(ms + more, from) == FirstMatchingLine(ms, from)
    decreases |ms| - from
  {
    assert (ms + more)[from] == ms[from];
    if ms[from] == "" {
      FirstMatchingLineAppend(ms, more, from + 1);
    }
  }

  /** Once a line has matched, nothing after it is looked at: neither later
      lines nor how the scan ends. */
  lemma LaterLinesIgnored(env: Env, lines: seq<string>, more: seq<string>, err: Option<string>, err': Option<string>)
    requires exists k :: 0 <= k < |lines| && FindString(lines[k]) != ""
    ensures UrlFromBody(env, Scan(lines + more, err)) == UrlFromBody(env, Scan(lines, err'))
  {
    var ms := Matches(lines);
    var all := Matches(lines + more);
    assert all == ms + Matches(more) by {
      forall j | 0 <= j < |all| ensures all[j] == (ms + Matches(more))[j] {
        if j < |lines| {
          assert (lines + more)[j] == lines[j];
        } else {
          assert (lines + more)[j] == more[j - |lines|];
        }
      }
    }
    FirstMatchingLineAppend(ms, Matches(more), 0);
    var k := FirstMatchingLine(ms, 0).value;
    assert all[k] == ms[k];
  }

  /** "SQRL URL Not Found" is returned exactly when no line matches and the
      scan ended without error; a scanner error takes its place otherwise. */
  lemma NotFoundExactly(env: Env, body: ScanResult)
    ensures UrlFromBody(env, body) == Err(NotFound)
        <==> (forall k :: 0 <= k < |body.lines| ==> FindString(body.lines[k]) == "") && body.err.None?
    ensures (forall k :: 0 <= k < |body.lines| ==> FindString(body.lines[k]) == "") && body.err.Some?
        ==> UrlFromBody(env, body) == Err(ScanFailed(body.err.value))
  {
    var ms := Matches(body.lines);
    if (forall k :: 0 <= k < |body.lines| ==> FindString(body.lines[k]) == "") {
      assert FirstMatchingLine(ms, 0).None?;
    }
  }

  // ---------------------------------------------------------------------
  // The nut taken from a discovered URL

  /** The nut of a URL: its `nut` query parameter (sqrlURL.Query().Get("nut")). */
  function NutOf(u: Url): Nut {
    Get(u.query, "nut")
  }

  /** The NutResponse both third-party variants build from the URL they found. */
  function FoundNut(u: Url): (nr: NutResponse)
    ensures nr.sqrlUrl == Some(u) && nr.nut == Get(u.query, "nut")
    ensures nr.pagNut == "" && nr.can == ""
  {
    NutResponse(NutOf(u), Some(u), "", "")
  }

  /** JavaNutter.GetNut: fetch the login page, find the SQRL URL in it and
      take the nut from that URL. The page is not scanned unless the status
      is 200. */
  method JavaGetNut(env: Env, reply: Reply<ScanResult>) returns (r: Result<NutResponse>)
    ensures reply.TransportFailed? ==> r == Err(Transport(reply.reason))
    ensures reply.Reply? && reply.status != StatusOK ==> r == Err(BadStatus(reply.status))
    ensures reply.Reply? && reply.status == StatusOK ==>
              match UrlFromBody(env, reply.body)
              case Ok(u) => r == Ok(FoundNut(u))
              case Err(e) => r == Err(e)
  {
    if reply.TransportFailed? {
      return Err(Transport(reply.reason));
    }
    if reply.status != StatusOK {
      return Err(BadStatus(reply.status));
    }
    var found := ParseSQRLURLFromBody(env, reply.body);
    if found.Err? {
      return Err(found.error);
    }
    return Ok(FoundNut(found.value));
  }

  /** DotNetResponse: the JSON reply of the .NET reference server. */
  datatype DotNetResponse = DotNetResponse(
    url: string, checkUrl: string, cancelUrl: string, qrCodeBase64: string, redirectUrl: string)

  /** DotNetNutter.GetNut: fetch the JSON reply, parse its `url` field and
      take the nut from that URL. `decode` stands for json.Decoder. */
  function DotNetGetNut(env: Env, decode: string -> Option<DotNetResponse>, reply: Reply<ReadResult>): (r: Result<NutResponse>)
    ensures reply.TransportFailed? ==> r == Err(Transport(reply.reason))
    ensures reply.Reply? && reply.status != StatusOK ==> r == Err(BadStatus(reply.status))
    ensures r.Ok? <==> reply.Reply? && reply.status == StatusOK && reply.body.Read?
                       && decode(reply.body.text).Some?
                       && env.parseUrl(decode(reply.body.text).value.url).Some?
    ensures r.Ok? ==> r.value == FoundNut(env.parseUrl(decode(reply.body.text).value.url).value)
    ensures reply.Reply? && reply.status == StatusOK && reply.body.ReadFailed? ==> r == Err(ReadBody(reply.body.reason))
    ensures (reply.Reply? && reply.status == StatusOK && reply.body.Read?
             && decode(reply.body.text).None?) ==> r == Err(DecodeJson)
    ensures (reply.Reply? && reply.status == StatusOK && reply.body.Read? && decode(reply.body.text).Some?
             && env.parseUrl(decode(reply.body.text).value.url).None?) ==> r == Err(ParseUrl)
  {
    match reply
    case TransportFailed(reason) => Err(Transport(reason))
    case Reply(status, body) =>
      if status != StatusOK then Err(BadStatus(status))
      else match body
        case ReadFailed(reason) => Err(ReadBody(reason))
        case Read(text) =>
          match decode(text)
          case None => Err(DecodeJson)
          case Some(dnr) =>
            match env.parseUrl(dnr.url)
            case None => Err(ParseUrl)
            case Some(u) => Ok(FoundNut(u))
  }
}
