/**
 * `ExchangeConnection`: the WebDAV session with the Exchange server. The
 * `inbox` field doubles as the "connected" flag: `connect` signs on and looks
 * the inbox URL up, and every mailbox operation refuses to run without it.
 *
 * Each operation is proved against a trace function that says which
 * requests go out, in which order, and what the call returns, given the
 * server's answers.
 */
module Connection {
  import opened Wrappers
  import opened Http
  import opened SaxText
  import opened DavRequests
  import JavaLang
  import UrlEscape

  /** The exceptions the connection throws. */
  datatype Failure =
    | NotConnected           // IllegalStateException("Not connected.")
    | TransportFailure       // an IOException out of executeMethod
    | SignOnFailed(status: int)
    | UnableToObtainInbox
    | UnableToDelete
    | UnableToMarkRead
    | FetchFailed(status: int)
    | MalformedResponse      // a SAXException out of the parser
    | MalformedServerUrl     // a MalformedURLException out of `new URL(server)`

  /**
   * What sign-on does against the server: the requests it issues, how it
   * ends, the `inbox` it leaves, and whether it got as far as `findInbox`.
   */
  datatype SignOnTrace = SignOnTrace(requests: seq<Request>, outcome: Outcome<Failure>,
                                     inbox: Option<string>, reachedFindInbox: bool)

  /** What a mailbox operation does: the requests it issues and its result. */
  datatype Call<+T> = Call(requests: seq<Request>, result: Result<T, Failure>)

  /** `findInbox`, after the requests in `history`. */
  function FindInboxRun(server: string, mailbox: string, respond: (seq<Request>, Request) -> Reply,
                        history: seq<Request>): SignOnTrace
  {
    var request := FindInboxRequest(server, mailbox);
    match respond(history, request)
    case TransportError => SignOnTrace([request], Fail(TransportFailure), None, true)
    case Reply(status, _, _, parse) =>
      if status >= 300 then SignOnTrace([request], Fail(UnableToObtainInbox), None, true)
      else match parse
        case Document(events) => SignOnTrace([request], Pass, LastInbox(events), true)
        case Malformed(delivered) => SignOnTrace([request], Fail(MalformedResponse), LastInbox(delivered), true)
  }

  /** A trace with `earlier` requests issued first. */
  function After(earlier: seq<Request>, t: SignOnTrace): SignOnTrace
  {
    t.(requests := earlier + t.requests)
  }

  /**
   * `signOn`: `new URL(server)`, which throws before any request when the
   * server does not parse (`serverParses` is false); the `OPTIONS` probe;
   * the form `POST` only when the probe is refused (status 400 or more);
   * then `findInbox`, unless the `POST` was refused too.
   */
  function SignOnRun(server: string, mailbox: string, username: string, password: string, serverParses: bool,
                     respond: (seq<Request>, Request) -> Reply, history: seq<Request>): SignOnTrace
  {
    if !serverParses then SignOnTrace([], Fail(MalformedServerUrl), None, false)
    else
      var probe := AuthTestRequest(server);
      var afterProbe := history + [probe];
      match respond(history, probe)
      case TransportError => SignOnTrace([probe], Fail(TransportFailure), None, false)
      case Reply(status, _, _, _) =>
        if status < 400 then After([probe], FindInboxRun(server, mailbox, respond, afterProbe))
        else
          var post := SignOnRequest(server, username, password);
          match respond(afterProbe, post)
          case TransportError => SignOnTrace([probe, post], Fail(TransportFailure), None, false)
          case Reply(postStatus, _, _, _) =>
            if postStatus >= 400 then SignOnTrace([probe, post], Fail(SignOnFailed(postStatus)), None, false)
            else After([probe, post], FindInboxRun(server, mailbox, respond, afterProbe + [post]))
  }

  /** The `inbox` that `connect` leaves: cleared again when sign-on throws. */
  function ConnectedInbox(t: SignOnTrace): Option<string>
  {
    if t.outcome.Fail? then None else t.inbox
  }

  /** `listInbox` with the `getMessages` handler. */
  function GetMessagesRun(inbox: Option<string>, includeRead: bool, limit: int,
                          respond: (seq<Request>, Request) -> Reply, history: seq<Request>): Call<seq<string>>
  {
    if inbox.None? then Call([], Err(NotConnected))
    else
      var request := SearchRequest(inbox.value, includeRead, limit);
      match respond(history, request)
      case TransportError => Call([request], Err(TransportFailure))
      case Reply(status, _, _, parse) =>
        if status >= 300 then Call([request], Err(UnableToObtainInbox))
        else match parse
          case Document(events) => Call([request], Ok(Hrefs(events)))
          case Malformed(_) => Call([request], Err(MalformedResponse))
  }

  /** A batch request (`delete` or `markRead`): any status of 300 or more is `refused`. */
  function BatchRun(inbox: Option<string>, request: Request, refused: Failure,
                    respond: (seq<Request>, Request) -> Reply, history: seq<Request>): Call<()>
  {
    if inbox.None? then Call([], Err(NotConnected))
    else
      match respond(history, request)
      case TransportError => Call([request], Err(TransportFailure))
      case Reply(status, _, _, _) =>
        if status >= 300 then Call([request], Err(refused)) else Call([request], Ok(()))
  }

  function DeleteRun(inbox: Option<string>, urls: seq<string>,
                     respond: (seq<Request>, Request) -> Reply, history: seq<Request>): Call<()>
  {
    BatchRun(inbox, DeleteRequest(if inbox.Some? then inbox.value else "", urls), UnableToDelete, respond, history)
  }

  function MarkReadRun(inbox: Option<string>, urls: seq<string>,
                       respond: (seq<Request>, Request) -> Reply, history: seq<Request>): Call<()>
  {
    BatchRun(inbox, MarkReadRequest(if inbox.Some? then inbox.value else "", urls), UnableToMarkRead, respond, history)
  }

  /** The bytes of a body read chunk by chunk. */
  function Flatten(chunks: seq<seq<byte>>): seq<byte>
  {
    if chunks == [] then [] else Flatten(chunks[..|chunks| - 1]) + chunks[|chunks| - 1]
  }

  /**
   * `getInputStream`: the message bytes, copied into the cache file; a read
   * that throws during the copy makes the fetch throw.
   */
  function FetchRun(inbox: Option<string>, url: string,
                    respond: (seq<Request>, Request) -> Reply, history: seq<Request>): Call<seq<byte>>
  {
    if inbox.None? then Call([], Err(NotConnected))
    else
      var request := FetchRequest(url);
      match respond(history, request)
      case TransportError => Call([request], Err(TransportFailure))
      case Reply(status, chunks, readFails, _) =>
        if status >= 300 then Call([request], Err(FetchFailed(status)))
        else if readFails then Call([request], Err(TransportFailure))
        else Call([request], Ok(Flatten(chunks)))
  }

  /** The `findInbox` handler: keeps the text since the last start tag, sets the owner's inbox. */
  class InboxHandler {
    const owner: ExchangeConnection
    var content: string

    constructor(owner: ExchangeConnection)
      ensures this.owner == owner && content == ""
    {
      this.owner := owner;
      content := "";
    }

    method StartElement(uri: string, localName: string)
      modifies this
      ensures content == ""
    {
      content := "";
    }

    method Characters(text: string)
      modifies this
      ensures content == old(content) + text
    {
      content := content + text;
    }

    method EndElement(uri: string, localName: string)
      modifies owner
      ensures owner.inbox == if IsInboxEnd(Http.EndElement(uri, localName)) then Some(content) else old(owner.inbox)
      ensures owner.client == old(owner.client)
    {
      if uri == HTTPMAIL_NAMESPACE && localName == "inbox" {
        owner.inbox := Some(content);
      }
    }

    /** The parser delivering `events` to this handler, in order. */
    method Parse(events: seq<SaxEvent>)
      requires content == ""
      modifies this, owner
      ensures content == Pending(events)
      ensures owner.inbox == if LastInbox(events).Some? then LastInbox(events) else old(owner.inbox)
      ensures owner.client == old(owner.client)
    {
      var i := 0;
      while i < |events|
        invariant 0 <= i <= |events|
        invariant content == Pending(events[..i])
        invariant owner.inbox == if LastInbox(events[..i]).Some? then LastInbox(events[..i]) else old(owner.inbox)
        invariant owner.client == old(owner.client)
      {
        assert events[..i + 1][..i] == events[..i];
        match events[i] {
          case StartElement(uri, localName) => StartElement(uri, localName);
          case Characters(text) => Characters(text);
          case EndElement(uri, localName) => EndElement(uri, localName);
        }
        i := i + 1;
      }
      assert events[..|events|] == events;
    }
  }

  /** The `getMessages` handler: collects the text of every `DAV:href` element. */
  class MessageListHandler {
    var content: string
    var messages: seq<string>

    constructor()
      ensures content == "" && messages == []
    {
      content, messages := "", [];
    }

    method StartElement(uri: string, localName: string)
      modifies this
      ensures content == "" && messages == old(messages)
    {
      content := "";
    }

    method Characters(text: string)
      modifies this
      ensures content == old(content) + text && messages == old(messages)
    {
      content := content + text;
    }

    method EndElement(uri: string, localName: string)
      modifies this
      ensures content == old(content)
      ensures messages == old(messages) + if IsHrefEnd(Http.EndElement(uri, localName)) then [content] else []
    {
      if uri == DAV_NAMESPACE && localName == "href" {
        messages := messages + [content];
      }
    }

    /** The parser delivering `events` to this handler, in order. */
    method Parse(events: seq<SaxEvent>)
      requires content == "" && messages == []
      modifies this
      ensures content == Pending(events) && messages == Hrefs(events)
    {
      var i := 0;
      while i < |events|
        invariant 0 <= i <= |events|
        invariant content == Pending(events[..i]) && messages == Hrefs(events[..i])
      {
        assert events[..i + 1][..i] == events[..i];
        match events[i] {
          case StartElement(uri, localName) => StartElement(uri, localName);
          case Characters(text) => Characters(text);
          case EndElement(uri, localName) => EndElement(uri, localName);
        }
        i := i + 1;
      }
      assert events[..|events|] == events;
    }
  }

  class ExchangeConnection {
    const server: string
    const mailbox: string
    const username: string
    const password: string
    const timeout: int
    const connectionTimeout: int
    const localAddress: Option<string>
    /** `java.net.URL`'s verdict on a text: whether `new URL(text)` returns rather than throws. */
    const urlParses: string -> bool
    /** The server this connection talks to. */
    const net: Network
    /** The class's static `ALLOWED_CHARS` table. */
    const allowedChars: array<bool>
    var client: HttpClient?
    var inbox: Option<string>

    /** The client, once made, talks to `net` with the configured settings. */
    ghost predicate Valid()
      reads this, allowedChars, client
    {
      && UrlEscape.IsAllowedTable(allowedChars)
      && (client != null ==> client.net == net && Configured(client))
    }

    /** The settings `getClient` makes: each only when given. */
    ghost predicate Configured(c: HttpClient)
      reads c
    {
      && c.soTimeout == (if timeout > 0 then Some(timeout) else None)
      && c.connectionTimeout == (if connectionTimeout > 0 then Some(connectionTimeout) else None)
      && c.localAddress == localAddress
    }

    constructor(server: string, mailbox: string, username: string, password: string,
                timeout: int, connectionTimeout: int, localAddress: Option<string>,
                urlParses: string -> bool, net: Network, allowedChars: array<bool>)
      requires UrlEscape.IsAllowedTable(allowedChars)
      ensures Valid() && client == null && inbox.None?
      ensures this.server == server && this.mailbox == mailbox
      ensures this.username == username && this.password == password
      ensures this.timeout == timeout && this.connectionTimeout == connectionTimeout
      ensures this.localAddress == localAddress && this.urlParses == urlParses
      ensures this.net == net && this.allowedChars == allowedChars
    {
      this.server, this.mailbox, this.username, this.password := server, mailbox, username, password;
      this.timeout, this.connectionTimeout, this.localAddress := timeout, connectionTimeout, localAddress;
      this.urlParses, this.net, this.allowedChars := urlParses, net, allowedChars;
      client, inbox := null, None;
    }

    predicate IsConnected()
      reads this
    {
      inbox.Some?
    }

    /** `getClient`: made and configured on first use, the same client afterwards. */
    method GetClient() returns (c: HttpClient)
      requires Valid()
      modifies this
      ensures Valid() && c == client && c.net == net && inbox == old(inbox)
      ensures old(client) != null ==> c == old(client)
      ensures old(client) == null ==> fresh(c)
    {
      if client == null {
        var made := new HttpClient(net);
        if timeout > 0 {
          made.soTimeout := Some(timeout);
        }
        if connectionTimeout > 0 {
          made.connectionTimeout := Some(connectionTimeout);
        }
        if localAddress.Some? {
          made.localAddress := localAddress;
        }
        client := made;
      }
      c := client;
    }

    /** `connect`: `inbox` is cleared, sign-on runs, and `inbox` is cleared again if it throws. */
    method Connect() returns (r: Outcome<Failure>)
      requires Valid()
      modifies this, net
      ensures Valid()
      ensures var t := SignOnRun(server, mailbox, username, password, urlParses(server), net.respond, old(net.sent));
        && net.sent == old(net.sent) + t.requests
        && r == t.outcome
        && inbox == ConnectedInbox(t)
    {
      inbox := None;
      r := SignOn();
      if r.Fail? {
        inbox := None;
      }
    }

    /** `signOn`: the server URL parse, the probe, the form post if the probe was refused, then `findInbox`. */
    method SignOn() returns (r: Outcome<Failure>)
      requires Valid()
      modifies this, net
      ensures Valid()
      ensures var t := SignOnRun(server, mailbox, username, password, urlParses(server), net.respond, old(net.sent));
        && net.sent == old(net.sent) + t.requests
        && r == t.outcome
        && inbox == (if t.reachedFindInbox then t.inbox else old(inbox))
    {
      var c := GetClient();
      if !urlParses(server) {
        return Fail(MalformedServerUrl);
      }
      var probe := AuthTestRequest(server);
      var reply := c.Execute(probe);
      if reply.TransportError? {
        return Fail(TransportFailure);
      }
      var authenticated := reply.status < 400;
      if !authenticated {
        var post := SignOnRequest(server, username, password);
        reply := c.Execute(post);
        if reply.TransportError? {
          return Fail(TransportFailure);
        }
        if reply.status >= 400 {
          return Fail(SignOnFailed(reply.status));
        }
      }
      r := FindInbox();
    }

    /** `findInbox`: the `PROPFIND`, whose answer the inbox handler reads. */
    method FindInbox() returns (r: Outcome<Failure>)
      requires Valid()
      modifies this, net
      ensures Valid()
      ensures var t := FindInboxRun(server, mailbox, net.respond, old(net.sent));
        && net.sent == old(net.sent) + t.requests
        && r == t.outcome
        && inbox == t.inbox
    {
      inbox := None;
      var c := GetClient();
      var reply := c.Execute(FindInboxRequest(server, mailbox));
      if reply.TransportError? {
        return Fail(TransportFailure);
      }
      if reply.status >= 300 {
        return Fail(UnableToObtainInbox);
      }
      var handler := new InboxHandler(this);
      match reply.parse
      case Document(events) =>
        handler.Parse(events);
        r := Pass;
      case Malformed(delivered) =>
        handler.Parse(delivered);
        r := Fail(MalformedResponse);
    }

    /** `getMessages` through `listInbox`: the hrefs of the `SEARCH` answer. */
    method GetMessages(includeRead: bool, limit: int) returns (r: Result<seq<string>, Failure>)
      requires Valid()
      modifies this, net
      ensures Valid() && inbox == old(inbox)
      ensures var call := GetMessagesRun(inbox, includeRead, limit, net.respond, old(net.sent));
        net.sent == old(net.sent) + call.requests && r == call.result
    {
      var handler := new MessageListHandler();
      var listed := ListInbox(includeRead, limit, handler);
      if listed.Fail? {
        return Err(listed.error);
      }
      r := Ok(handler.messages);
    }

    /** `listInbox`: the guarded `SEARCH`, whose answer `handler` reads. */
    method ListInbox(includeRead: bool, limit: int, handler: MessageListHandler) returns (r: Outcome<Failure>)
      requires Valid() && handler.content == "" && handler.messages == []
      modifies this, net, handler
      ensures Valid() && inbox == old(inbox)
      ensures var call := GetMessagesRun(inbox, includeRead, limit, net.respond, old(net.sent));
        && net.sent == old(net.sent) + call.requests
        && (r.Pass? <==> call.result.Ok?)
        && (r.Fail? ==> call.result == Err(r.error))
        && (r.Pass? ==> call.result == Ok(handler.messages))
    {
      if !IsConnected() {
        return Fail(NotConnected);
      }
      var c := GetClient();
      var reply := c.Execute(SearchRequest(inbox.value, includeRead, limit));
      if reply.TransportError? {
        return Fail(TransportFailure);
      }
      if reply.status >= 300 {
        return Fail(UnableToObtainInbox);
      }
      match reply.parse
      case Document(events) =>
        handler.Parse(events);
        r := Pass;
      case Malformed(delivered) =>
        handler.Parse(delivered);
        r := Fail(MalformedResponse);
    }

    /** `delete`: one `BDELETE` on the batch path naming every message. */
    method Delete(urls: seq<string>) returns (r: Result<(), Failure>)
      requires Valid()
      modifies this, net
      ensures Valid() && inbox == old(inbox)
      ensures var call := DeleteRun(inbox, urls, net.respond, old(net.sent));
        net.sent == old(net.sent) + call.requests && r == call.result
    {
      if !IsConnected() {
        return Err(NotConnected);
      }
      var c := GetClient();
      var path := inbox.value;
      if !(|path| > 0 && path[|path| - 1] == '/') {
        path := path + "/";
      }
      var reply := c.Execute(Request("BDELETE", path, BATCH_HEADERS, XmlDocument(DeleteEntity(urls))));
      if reply.TransportError? {
        return Err(TransportFailure);
      }
      if reply.status >= 300 {
        return Err(UnableToDelete);
      }
      r := Ok(());
    }

    /** `markRead`: one `BPROPPATCH` on the batch path setting `read` on every message. */
    method MarkRead(urls: seq<string>) returns (r: Result<(), Failure>)
      requires Valid()
      modifies this, net
      ensures Valid() && inbox == old(inbox)
      ensures var call := MarkReadRun(inbox, urls, net.respond, old(net.sent));
        net.sent == old(net.sent) + call.requests && r == call.result
    {
      if !IsConnected() {
        return Err(NotConnected);
      }
      var c := GetClient();
      var path := inbox.value;
      if !(|path| > 0 && path[|path| - 1] == '/') {
        path := path + "/";
      }
      var reply := c.Execute(Request("BPROPPATCH", path, BATCH_HEADERS, XmlDocument(MarkReadEntity(urls))));
      if reply.TransportError? {
        return Err(TransportFailure);
      }
      if reply.status >= 300 {
        return Err(UnableToMarkRead);
      }
      r := Ok(());
    }

    /** `getInputStream`: the `GET` of the escaped URL, copied into the cache file. */
    method GetInputStream(url: string) returns (r: Result<seq<byte>, Failure>)
      requires Valid()
      modifies this, net
      ensures Valid() && inbox == old(inbox)
      ensures var call := FetchRun(inbox, url, net.respond, old(net.sent));
        net.sent == old(net.sent) + call.requests && r == call.result
    {
      if !IsConnected() {
        return Err(NotConnected);
      }
      var c := GetClient();
      var units := UrlEscape.EscapeUrl(allowedChars, JavaLang.Utf16(url));
      UrlEscape.EscapeOutputAllowed(JavaLang.Utf16(url));
      var reply := c.Execute(Request("GET", JavaLang.AsciiText(units), [Header("Translate", "F")], NoEntity));
      if reply.TransportError? {
        return Err(TransportFailure);
      }
      if reply.status >= 300 {
        return Err(FetchFailed(reply.status));
      }
      var file := CopyToFile(reply.chunks);
      if reply.readFails {
        return Err(TransportFailure);
      }
      r := Ok(file);
    }
  }

  /** The copy loop of `getInputStream`: every chunk read is written, in order. */
  method CopyToFile(chunks: seq<seq<byte>>) returns (file: seq<byte>)
    ensures file == Flatten(chunks)
  {
    file := [];
    var k := 0;
    while k < |chunks|
      invariant 0 <= k <= |chunks|
      invariant file == Flatten(chunks[..k])
    {
      assert chunks[..k + 1][..k] == chunks[..k];
      file := file + chunks[k];
      k := k + 1;
    }
    assert chunks[..|chunks|] == chunks;
  }

  /**
   * A server that `java.net.URL` refuses ends sign-on before any request:
   * `signOn` throws, and `connect` leaves no inbox.
   */
  lemma SignOnMalformedServer(server: string, mailbox: string, username: string, password: string,
                              respond: (seq<Request>, Request) -> Reply, history: seq<Request>)
    ensures var t := SignOnRun(server, mailbox, username, password, false, respond, history);
      && t.requests == [] && t.outcome == Fail(MalformedServerUrl)
      && !t.reachedFindInbox && ConnectedInbox(t) == None
  {
  }

  /**
   * Sign-on issues at most three requests; it issues any exactly when the
   * server parses, and then the first is the `OPTIONS` probe.
   */
  lemma SignOnStartsWithProbe(server: string, mailbox: string, username: string, password: string, serverParses: bool,
                              respond: (seq<Request>, Request) -> Reply, history: seq<Request>)
    ensures var t := SignOnRun(server, mailbox, username, password, serverParses, respond, history);
      && |t.requests| <= 3
      && (t.requests != [] <==> serverParses)
      && (serverParses ==> t.requests[0] == AuthTestRequest(server))
  {
  }

  /**
   * The form `POST` is issued exactly when the server parses and the probe
   * came back with a status of 400 or more.
   */
  lemma SignOnPostOnlyWhenRefused(server: string, mailbox: string, username: string, password: string, serverParses: bool,
                                  respond: (seq<Request>, Request) -> Reply, history: seq<Request>)
    ensures var t := SignOnRun(server, mailbox, username, password, serverParses, respond, history);
      var probe := respond(history, AuthTestRequest(server));
      (|t.requests| >= 2 && t.requests[1] == SignOnRequest(server, username, password))
        <==> (serverParses && probe.Reply? && probe.status >= 400)
  {
    var t := SignOnRun(server, mailbox, username, password, serverParses, respond, history);
    var probe := respond(history, AuthTestRequest(server));
    if serverParses && probe.Reply? && probe.status < 400 {
      assert t.requests[1].verb == "PROPFIND";
    }
  }

  /**
   * With a server that parses, a refused `POST` ends sign-on: no `PROPFIND`
   * follows and `connect` leaves no inbox.
   */
  lemma SignOnRefusedStops(server: string, mailbox: string, username: string, password: string,
                           respond: (seq<Request>, Request) -> Reply, history: seq<Request>)
    requires var probe := respond(history, AuthTestRequest(server));
      probe.Reply? && probe.status >= 400
    requires var post := respond(history + [AuthTestRequest(server)], SignOnRequest(server, username, password));
      post.Reply? && post.status >= 400
    ensures var t := SignOnRun(server, mailbox, username, password, true, respond, history);
      var post := respond(history + [AuthTestRequest(server)], SignOnRequest(server, username, password));
      && t.requests == [AuthTestRequest(server), SignOnRequest(server, username, password)]
      && t.outcome == Fail(SignOnFailed(post.status))
      && !t.reachedFindInbox
      && ConnectedInbox(t) == None
  {
  }

  /**
   * `findInbox` runs exactly when sign-on gets past its checks, always as the
   * last request, and that request asks with `Depth: 0`.
   */
  lemma SignOnEndsWithFindInbox(server: string, mailbox: string, username: string, password: string, serverParses: bool,
                                respond: (seq<Request>, Request) -> Reply, history: seq<Request>)
    ensures var t := SignOnRun(server, mailbox, username, password, serverParses, respond, history);
      && (t.reachedFindInbox <==> t.requests != [] && t.requests[|t.requests| - 1] == FindInboxRequest(server, mailbox))
      && (t.reachedFindInbox ==> HeaderValue(t.requests[|t.requests| - 1].headers, "Depth") == Some("0"))
      && (!t.reachedFindInbox ==> t.outcome.Fail? && t.inbox == None)
  {
    var t := SignOnRun(server, mailbox, username, password, serverParses, respond, history);
    FindInboxDepth(server, mailbox);
    if !t.reachedFindInbox && t.requests != [] {
      assert t.requests[|t.requests| - 1].verb != "PROPFIND";
    }
  }

  /**
   * After `connect` the connection holds an inbox only when sign-on passed
   * and the `PROPFIND` answer named one; a failure always leaves none.
   */
  lemma ConnectedOnlyOnSuccess(server: string, mailbox: string, username: string, password: string, serverParses: bool,
                               respond: (seq<Request>, Request) -> Reply, history: seq<Request>)
    ensures var t := SignOnRun(server, mailbox, username, password, serverParses, respond, history);
      && (t.outcome.Fail? ==> ConnectedInbox(t).None?)
      && (ConnectedInbox(t).Some? ==> t.outcome.Pass? && t.reachedFindInbox)
  {
  }

  /**
   * The inbox is the text of the last `inbox` element of the `PROPFIND`
   * answer; with no such element `findInbox` still returns normally and the
   * connection stays unconnected.
   */
  lemma FindInboxTakesLast(server: string, mailbox: string, respond: (seq<Request>, Request) -> Reply,
                           history: seq<Request>)
    requires var reply := respond(history, FindInboxRequest(server, mailbox));
      reply.Reply? && reply.status < 300 && reply.parse.Document?
    ensures var t := FindInboxRun(server, mailbox, respond, history);
      var events := respond(history, FindInboxRequest(server, mailbox)).parse.events;
      && t.outcome == Pass
      && (t.inbox.None? <==> forall k :: 0 <= k < |events| ==> !IsInboxEnd(events[k]))
      && (t.inbox.Some? ==> exists k :: 0 <= k < |events| && IsInboxEnd(events[k])
                                        && t.inbox.value == Pending(events[..k])
                                        && (forall j :: k < j < |events| ==> !IsInboxEnd(events[j])))
  {
    var events := respond(history, FindInboxRequest(server, mailbox)).parse.events;
    LastInboxNone(events);
    if LastInbox(events).Some? {
      LastInboxIsLast(events);
    }
  }

  /** Without an inbox every mailbox operation fails with `NotConnected` and sends nothing. */
  lemma UnconnectedSendsNothing(includeRead: bool, limit: int, urls: seq<string>, url: string,
                                respond: (seq<Request>, Request) -> Reply, history: seq<Request>)
    ensures GetMessagesRun(None, includeRead, limit, respond, history) == Call([], Err(NotConnected))
    ensures DeleteRun(None, urls, respond, history) == Call([], Err(NotConnected))
    ensures MarkReadRun(None, urls, respond, history) == Call([], Err(NotConnected))
    ensures FetchRun(None, url, respond, history) == Call([], Err(NotConnected))
  {
  }

  /**
   * A connected operation issues exactly its one request, and succeeds
   * exactly when the answer's status is below 300 (and, for a listing, the
   * body parses; for a fetch, the body reads to its end).
   */
  lemma ConnectedOperations(inbox: string, includeRead: bool, limit: int, urls: seq<string>, url: string,
                            respond: (seq<Request>, Request) -> Reply, history: seq<Request>)
    ensures var call := GetMessagesRun(Some(inbox), includeRead, limit, respond, history);
      var reply := respond(history, SearchRequest(inbox, includeRead, limit));
      && call.requests == [SearchRequest(inbox, includeRead, limit)]
      && (call.result.Ok? <==> reply.Reply? && reply.status < 300 && reply.parse.Document?)
      && (call.result.Ok? ==> call.result.value == Hrefs(reply.parse.events))
    ensures var call := DeleteRun(Some(inbox), urls, respond, history);
      var reply := respond(history, DeleteRequest(inbox, urls));
      && call.requests == [DeleteRequest(inbox, urls)]
      && (call.result.Ok? <==> reply.Reply? && reply.status < 300)
      && (reply.Reply? && reply.status >= 300 ==> call.result == Err(UnableToDelete))
    ensures var call := MarkReadRun(Some(inbox), urls, respond, history);
      var reply := respond(history, MarkReadRequest(inbox, urls));
      && call.requests == [MarkReadRequest(inbox, urls)]
      && (call.result.Ok? <==> reply.Reply? && reply.status < 300)
      && (reply.Reply? && reply.status >= 300 ==> call.result == Err(UnableToMarkRead))
    ensures var call := FetchRun(Some(inbox), url, respond, history);
      var reply := respond(history, FetchRequest(url));
      && call.requests == [FetchRequest(url)]
      && (call.result.Ok? <==> reply.Reply? && reply.status < 300 && !reply.readFails)
      && (call.result.Ok? ==> call.result.value == Flatten(reply.chunks))
      && (reply.Reply? && reply.status < 300 && reply.readFails ==> call.result == Err(TransportFailure))
  {
  }

  /** The copied file is the body read in any split into chunks. */
  lemma {:induction false} FlattenAppend(a: seq<seq<byte>>, b: seq<seq<byte>>)
    ensures Flatten(a + b) == Flatten(a) + Flatten(b)
  {
    if b == [] {
      assert a + b == a;
    } else {
      var init := b[..|b| - 1];
      assert (a + b)[..|a + b| - 1] == a + init;
      FlattenAppend(a, init);
    }
  }
}
