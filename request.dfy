/** The stateful SQRL client of request.go: its URLs, the test identity that
    signs commands, how a command is prepared for the current session, and
    how each exchange with the server moves the session on. */
module Request {
  import opened Common
  import opened Urls
  import opened External
  import opened NutRequest

  // ---------------------------------------------------------------------
  // The identity and its signatures

  /** The Sqrl64 text of ed25519.Sign(key, SigningString) for a request:
      what signIdk stores in ids (with the idk private key) and signUrs
      stores in urs (with the vuk private key). */
  function Signature(env: Env, key: seq<byte>, v: RequestValue): string {
    env.sqrl64(env.sign(key, env.signingString(v.client, v.server)))
  }

  /** FakeIdentity: the identity key pair, the unlock key pair and a server
      unlock key. Created once and never changed. */
  datatype FakeIdentity = FakeIdentity(
    idkPrivate: seq<byte>,
    idk: seq<byte>,
    vukPrivate: seq<byte>,
    vuk: seq<byte>,
    suk: seq<byte>)
  {
    /** The request SignIdk leaves: idk is set first, then ids is the
        signature of the request so changed. */
    function WithIdk(env: Env, v: RequestValue): (r: RequestValue)
      ensures r.client == v.client.(idk := env.sqrl64(idk))
      ensures r.server == v.server && r.urs == v.urs
      ensures r.ids == Signature(env, idkPrivate, r)
    {
      var signed := v.(client := v.client.(idk := env.sqrl64(idk)));
      signed.(ids := Signature(env, idkPrivate, signed))
    }

    /** The request SignIdkAndURS leaves: idk and vuk are both set before
        either signature is taken, and both signatures cover the same
        signing string, ids with the idk key and urs with the vuk key. */
    function WithIdkAndUrs(env: Env, v: RequestValue): (r: RequestValue)
      ensures r.client == v.client.(idk := env.sqrl64(idk), vuk := env.sqrl64(vuk))
      ensures r.server == v.server
      ensures r.ids == env.sqrl64(env.sign(idkPrivate, env.signingString(r.client, r.server)))
      ensures r.urs == env.sqrl64(env.sign(vukPrivate, env.signingString(r.client, r.server)))
    {
      var keyed := v.(client := v.client.(idk := env.sqrl64(idk), vuk := env.sqrl64(vuk)));
      var withIds := keyed.(ids := Signature(env, idkPrivate, keyed));
      withIds.(urs := Signature(env, vukPrivate, withIds))
    }

    /** SignIdk: sets idk and signs with the identity key. */
    method SignIdk(env: Env, req: CliRequest)
      modifies req
      ensures req.Value() == WithIdk(env, old(req.Value()))
    {
      req.client := req.client.(idk := env.sqrl64(idk));
      SignIds(env, req);
    }

    /** SignIdkAndURS: sets idk and vuk, then signs with the identity key
        and with the unlock key. */
    method SignIdkAndURS(env: Env, req: CliRequest)
      modifies req
      ensures req.Value() == WithIdkAndUrs(env, old(req.Value()))
    {
      req.client := req.client.(idk := env.sqrl64(idk));
      req.client := req.client.(vuk := env.sqrl64(vuk));
      SignIds(env, req);
      SignUrs(env, req);
    }

    /** signIdk: ids becomes the identity key's signature of the request. */
    method SignIds(env: Env, req: CliRequest)
      modifies req`ids
      ensures req.ids == Signature(env, idkPrivate, req.Value())
    {
      req.ids := Signature(env, idkPrivate, req.Value());
    }

    /** signUrs: urs becomes the unlock key's signature of the request. */
    method SignUrs(env: Env, req: CliRequest)
      modifies req`urs
      ensures req.urs == Signature(env, vukPrivate, req.Value())
    {
      req.urs := Signature(env, vukPrivate, req.Value());
    }
  }

  /** ssp.CliRequest, whose fields the client fills in place. The
      constructor stands for the `&ssp.CliRequest{Client: ...}` literal a
      caller builds before handing the command to the client. */
  class CliRequest {
    var client: ClientBody
    var server: string
    var ids: string
    var urs: string

    /** A command with only its client body filled in. */
    constructor (client: ClientBody)
      ensures Value() == RequestValue(client, "", "", "")
    {
      this.client := client;
      server, ids, urs := "", "", "";
    }

    function Value(): RequestValue
      reads this
    {
      RequestValue(client, server, ids, urs)
    }
  }

  // ---------------------------------------------------------------------
  // Preparing a command

  /** The commands that need the unlock key's signature as well. */
  predicate DualSigned(cmd: string) {
    cmd == "enable" || cmd == "remove"
  }

  /** The request ApplyStateAndSign leaves, given the identity and the text
      of the last server response: which fields are set and which
      signatures are taken depends on the command alone. */
  function Prepared(env: Env, identity: FakeIdentity, server: string, v: RequestValue): (r: RequestValue)
    ensures r.server == server
    ensures r.client.version == v.client.version && r.client.cmd == v.client.cmd && r.client.opt == v.client.opt
    ensures r.client.idk == env.sqrl64(identity.idk)
    ensures r.client.vuk == if v.client.cmd == "ident" || DualSigned(v.client.cmd) then env.sqrl64(identity.vuk) else v.client.vuk
    ensures r.client.suk == if v.client.cmd == "ident" then env.sqrl64(identity.suk) else v.client.suk
    ensures r.ids == Signature(env, identity.idkPrivate, r)
    ensures r.urs == if DualSigned(v.client.cmd) then Signature(env, identity.vukPrivate, r) else v.urs
  {
    var withServer := v.(server := server);
    var keyed :=
      if v.client.cmd == "ident"
      then withServer.(client := withServer.client.(vuk := env.sqrl64(identity.vuk), suk := env.sqrl64(identity.suk)))
      else withServer;
    if DualSigned(v.client.cmd) then identity.WithIdkAndUrs(env, keyed) else identity.WithIdk(env, keyed)
  }

  /** Preparing a command twice for the same session gives what preparing it
      once gave: the second pass sets the same keys and server text and so
      signs the same signing string again. */
  lemma PreparedTwice(env: Env, identity: FakeIdentity, server: string, v: RequestValue)
    ensures Prepared(env, identity, server, Prepared(env, identity, server, v)) == Prepared(env, identity, server, v)
  {
  }

  // ---------------------------------------------------------------------
  // Reading the server's replies

  /** What MakeRawCliRequest makes of the reply to its POST. The body is read
      before the status is looked at, so a read error wins over a bad status. */
  function CliFromReply(env: Env, reply: Reply<ReadResult>): (r: Result<CliResponse>)
    ensures reply.TransportFailed? ==> r == Err(Transport(reply.reason))
    ensures reply.Reply? && reply.body.ReadFailed? ==> r == Err(ReadBody(reply.body.reason))
    ensures reply.Reply? && reply.body.Read? && reply.status != StatusOK ==> r == Err(BadStatus(reply.status))
    ensures r.Ok? <==> reply.Reply? && reply.status == StatusOK && reply.body.Read?
                       && env.parseCliResponse(reply.body.text).Some?
    ensures r.Ok? ==> r.value == env.parseCliResponse(reply.body.text).value
    ensures (reply.Reply? && reply.status == StatusOK && reply.body.Read?
             && env.parseCliResponse(reply.body.text).None?) ==> r == Err(ParseResponse)
  {
    match reply
    case TransportFailed(reason) => Err(Transport(reason))
    case Reply(status, body) =>
      match body
      case ReadFailed(reason) => Err(ReadBody(reason))
      case Read(text) =>
        if status != StatusOK then Err(BadStatus(status))
        else match env.parseCliResponse(text)
          case None => Err(ParseResponse)
          case Some(resp) => Ok(resp)
  }

  /** The NutResponse of a url-encoded nut reply: its `nut`, `pag` and `can`
      parameters. */
  function NutFromQuery(params: seq<Param>): (nr: NutResponse)
    ensures nr.nut == Get(params, "nut") && nr.pagNut == Get(params, "pag") && nr.can == Get(params, "can")
    ensures nr.sqrlUrl == None
  {
    NutResponse(Get(params, "nut"), None, Get(params, "pag"), Get(params, "can"))
  }

  /** What MakeNutRequest makes of the reply to its GET. Here the status is
      looked at before the body is read. */
  function NutFromReply(env: Env, reply: Reply<ReadResult>): (r: Result<NutResponse>)
    ensures reply.TransportFailed? ==> r == Err(Transport(reply.reason))
    ensures reply.Reply? && reply.status != StatusOK ==> r == Err(BadStatus(reply.status))
    ensures r.Ok? <==> reply.Reply? && reply.status == StatusOK && reply.body.Read?
                       && env.parseQuery(reply.body.text).Some?
    ensures r.Ok? ==> r.value == NutFromQuery(env.parseQuery(reply.body.text).value)
    ensures reply.Reply? && reply.status == StatusOK && reply.body.ReadFailed? ==> r == Err(ReadBody(reply.body.reason))
    ensures (reply.Reply? && reply.status == StatusOK && reply.body.Read?
             && env.parseQuery(reply.body.text).None?) ==> r == Err(ParseQuery)
  {
    match reply
    case TransportFailed(reason) => Err(Transport(reason))
    case Reply(status, body) =>
      if status != StatusOK then Err(BadStatus(status))
      else match body
        case ReadFailed(reason) => Err(ReadBody(reason))
        case Read(text) =>
          match env.parseQuery(text)
          case None => Err(ParseQuery)
          case Some(params) => Ok(NutFromQuery(params))
  }

  // ---------------------------------------------------------------------
  // The client

  /** One POST the client issued: the URL and the encoded command. */
  datatype Post = Post(url: Url, body: string)

  /** The part of the client that the exchanges change. */
  datatype SessionState = SessionState(nutResponse: Option<NutResponse>, currentNut: Nut, lastServerResponse: string)

  /** Client: a stateful client of one SQRL service. */
  class Client {
    var scheme: string
    var host: string
    var rootPath: string
    var identity: FakeIdentity
    var nutResponse: Option<NutResponse>
    var currentNut: Nut
    var lastServerResponse: string
    /** Every URL a nut request was sent to, in order. */
    ghost var fetched: seq<Url>
    /** Every command POSTed, in order. */
    ghost var posted: seq<Post>

    /** A client of the service at scheme://host/rootPath that has no nut yet. */
    constructor (scheme: string, host: string, rootPath: string, identity: FakeIdentity)
      ensures this.scheme == scheme && this.host == host && this.rootPath == rootPath
      ensures this.identity == identity
      ensures Session() == SessionState(None, "", "")
      ensures fetched == [] && posted == []
    {
      this.scheme, this.host, this.rootPath := scheme, host, rootPath;
      this.identity := identity;
      nutResponse, currentNut, lastServerResponse := None, "", "";
      fetched, posted := [], [];
    }

    function Session(): SessionState
      reads this
    {
      SessionState(nutResponse, currentNut, lastServerResponse)
    }

    /** baseURL: the client's scheme, host and root path. */
    function BaseURL(): (u: Url)
      reads this
      ensures u.scheme == scheme && u.host == host && u.path == rootPath
      ensures u.query == []
    {
      Url(scheme, host, rootPath, [])
    }

    /** CliURL: the cli.sqrl endpoint under the root path, with a `nut`
        parameter when the nut is not empty and a `can` parameter when `can`
        is not empty; with neither there is no query at all. */
    function CliURL(nut: Nut, can: string): (u: Url)
      reads this
      ensures u.scheme == scheme && u.host == host && u.path == rootPath + "/cli.sqrl"
      ensures HasKey(u.query, "nut") <==> nut != ""
      ensures HasKey(u.query, "can") <==> can != ""
      ensures Get(u.query, "nut") == nut && Get(u.query, "can") == can
      ensures u.query == [] <==> nut == "" && can == ""
      ensures forall p :: p in u.query ==> p == Param("nut", nut) || p == Param("can", can)
      ensures |u.query| == (if nut != "" then 1 else 0) + (if can != "" then 1 else 0)
    {
      // url.Values.Encode writes the keys in sorted order: can, then nut.
      var canPart := if can != "" then [Param("can", can)] else [];
      var params := canPart + (if nut != "" then [Param("nut", nut)] else []);
      assert nut != "" ==> params[|canPart|] == Param("nut", nut);
      assert can != "" ==> params[0] == Param("can", can);
      var u := BaseURL();
      u.(path := u.path + "/cli.sqrl", query := params)
    }

    /** NutURL: the nut.sqrl endpoint under the root path, without a query. */
    function NutURL(): (u: Url)
      reads this
      ensures u.scheme == scheme && u.host == host && u.path == rootPath + "/nut.sqrl"
      ensures u.query == []
    {
      var u := BaseURL();
      u.(path := u.path + "/nut.sqrl")
    }

    /** SQRLCliURL: the sqrl:// URL of the cli.sqrl endpoint for a nut
        response. It always carries the nut; it carries the Sqrl64 form of
        `can` only when asked to. */
    function SQRLCliURL(env: Env, nr: NutResponse, includeCan: bool): (u: Url)
      reads this
      ensures u.scheme == SqrlScheme && u.host == host && u.path == rootPath + "/cli.sqrl"
      ensures HasKey(u.query, "nut") && Get(u.query, "nut") == nr.nut
      ensures HasKey(u.query, "can") <==> includeCan
      ensures includeCan ==> Get(u.query, "can") == env.sqrl64(env.utf8(nr.can))
      ensures forall p :: p in u.query ==> p == Param("nut", nr.nut) || p == Param("can", env.sqrl64(env.utf8(nr.can)))
      ensures |u.query| == if includeCan then 2 else 1
    {
      var u := BaseURL();
      var canPart := if includeCan then [Param("can", env.sqrl64(env.utf8(nr.can)))] else [];
      var params := canPart + [Param("nut", nr.nut)];
      assert params[|canPart|] == Param("nut", nr.nut);
      assert includeCan ==> params[0].key == "can";
      u.(scheme := SqrlScheme, path := u.path + "/cli.sqrl", query := params)
    }

    /** The sqrl:// URL without `can` is the cli URL of the same nut under
        the SQRL scheme, provided the nut is not empty. */
    lemma SQRLCliURLIsCliURL(env: Env, nr: NutResponse)
      requires nr.nut != ""
      ensures SQRLCliURL(env, nr, false) == CliURL(nr.nut, "").(scheme := SqrlScheme)
    {
    }

    /** What MakeNutRequest stores as the last server response: the Sqrl64
        text of the SQRL URL for the nut, without `can`. */
    function ServerTextFor(env: Env, nr: NutResponse): (text: string)
      reads this
      ensures text == env.sqrl64(env.utf8(env.urlString(
                        Url(SqrlScheme, host, rootPath + "/cli.sqrl", [Param("nut", nr.nut)]))))
    {
      var u := SQRLCliURL(env, nr, false);
      assert u.query == [Param("nut", nr.nut)] by {
        assert |u.query| == 1;
        assert u.query[0] in u.query;
      }
      env.sqrl64(env.utf8(env.urlString(u)))
    }

    /** MakeNutRequest: GET the nut URL; on success the nut response, the
        current nut and the last server response are replaced, and on any
        error nothing changes. */
    method MakeNutRequest(env: Env, reply: Reply<ReadResult>) returns (r: Result<NutResponse>)
      modifies this`nutResponse, this`currentNut, this`lastServerResponse, this`fetched
      ensures fetched == old(fetched) + [NutURL()]
      ensures r == NutFromReply(env, reply)
      ensures r.Ok? ==> Session() == SessionState(Some(r.value), r.value.nut, ServerTextFor(env, r.value))
      ensures r.Err? ==> Session() == old(Session())
    {
      var u := NutURL();
      fetched := fetched + [u];
      if reply.TransportFailed? {
        return Err(Transport(reply.reason));
      }
      if reply.status != StatusOK {
        return Err(BadStatus(reply.status));
      }
      if reply.body.ReadFailed? {
        return Err(ReadBody(reply.body.reason));
      }
      var params := env.parseQuery(reply.body.text);
      if params.None? {
        return Err(ParseQuery);
      }
      var nr := NutFromQuery(params.value);
      nutResponse := Some(nr);
      lastServerResponse := ServerTextFor(env, nr);
      currentNut := nr.nut;
      return Ok(nr);
    }

    /** ApplyStateAndSign: echo the last server response, add the unlock
        and server unlock keys to an ident, and sign: enable and remove with
        both keys, every other command with the identity key only. */
    method ApplyStateAndSign(env: Env, cli: CliRequest)
      modifies cli
      ensures cli.Value() == Prepared(env, identity, lastServerResponse, old(cli.Value()))
    {
      cli.server := lastServerResponse;
      if cli.client.cmd == "ident" {
        cli.client := cli.client.(vuk := env.sqrl64(identity.vuk));
        cli.client := cli.client.(suk := env.sqrl64(identity.suk));
      }
      if cli.client.cmd == "enable" || cli.client.cmd == "remove" {
        identity.SignIdkAndURS(env, cli);
      } else {
        identity.SignIdk(env, cli);
      }
    }

    /** MakeRawCliRequest: POST the command as it is. Only a 200 reply that
        parses moves the session on: the current nut becomes the reply's nut
        and the last server response the reply's body. */
    method MakeRawCliRequest(env: Env, cliURL: Url, cli: CliRequest, reply: Reply<ReadResult>) returns (r: Result<CliResponse>)
      modifies this`currentNut, this`lastServerResponse, this`posted
      ensures posted == old(posted) + [Post(cliURL, env.encode(cli.Value()))]
      ensures r == CliFromReply(env, reply)
      ensures r.Ok? ==> currentNut == r.value.nut && lastServerResponse == reply.body.text
      ensures r.Err? ==> currentNut == old(currentNut) && lastServerResponse == old(lastServerResponse)
    {
      var reqBody := env.encode(cli.Value());
      posted := posted + [Post(cliURL, reqBody)];
      if reply.TransportFailed? {
        return Err(Transport(reply.reason));
      }
      if reply.body.ReadFailed? {
        return Err(ReadBody(reply.body.reason));
      }
      if reply.status != StatusOK {
        return Err(BadStatus(reply.status));
      }
      var body := reply.body.text;
      var cliResp := env.parseCliResponse(body);
      if cliResp.None? {
        return Err(ParseResponse);
      }
      lastServerResponse := body;
      currentNut := cliResp.value.nut;
      return Ok(cliResp.value);
    }

    /** MakeCliRequest: fetch a nut only when none is held (a failed fetch
        ends the call before anything is signed or posted), then prepare the
        command and POST it to the cli URL of the current nut. */
    method MakeCliRequest(env: Env, cli: CliRequest, nutReply: Reply<ReadResult>, cliReply: Reply<ReadResult>)
      returns (r: Result<CliResponse>)
      requires currentNut != "" ==> nutResponse.Some?
      modifies this`nutResponse, this`currentNut, this`lastServerResponse, this`fetched, this`posted, cli
      ensures fetched == if old(currentNut) == "" then old(fetched) + [NutURL()] else old(fetched)
      ensures old(currentNut) == "" && NutFromReply(env, nutReply).Err? ==>
                && r == Err(NutFromReply(env, nutReply).error)
                && posted == old(posted)
                && cli.Value() == old(cli.Value())
                && Session() == old(Session())
      ensures old(currentNut) != "" || NutFromReply(env, nutReply).Ok? ==>
                var needNut := old(currentNut) == "";
                var nr := if needNut then NutFromReply(env, nutReply).value else old(nutResponse).value;
                var nut := if needNut then nr.nut else old(currentNut);
                var server := if needNut then ServerTextFor(env, nr) else old(lastServerResponse);
                && cli.Value() == Prepared(env, identity, server, old(cli.Value()))
                && posted == old(posted) + [Post(CliURL(nut, nr.can), env.encode(cli.Value()))]
                && r == CliFromReply(env, cliReply)
                && nutResponse == Some(nr)
                && (r.Ok? ==> currentNut == r.value.nut && lastServerResponse == cliReply.body.text)
                && (r.Err? ==> currentNut == nut && lastServerResponse == server)
    {
      if currentNut == "" {
        var fetchedNut := MakeNutRequest(env, nutReply);
        if fetchedNut.Err? {
          return Err(fetchedNut.error);
        }
      }
      var cliURL := CliURL(currentNut, nutResponse.value.can);
      ApplyStateAndSign(env, cli);
      r := MakeRawCliRequest(env, cliURL, cli, cliReply);
    }
  }
}
