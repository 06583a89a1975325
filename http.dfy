/**
 * The HTTP and XML vocabulary of the connection: requests as the
 * commons-httpclient methods are configured, request bodies as the DOM trees
 * the connection builds, response bodies as the SAX events a parser reports,
 * and the server as an oracle that answers each request from the history of
 * requests before it.
 */
module Http {
  import opened Wrappers

  newtype byte = b: int | 0 <= b < 256

  datatype Header = Header(name: string, value: string)

  /**
   * An element tree as the DOM builders create it. `Resource(name)` is the
   * text of a class-path resource, whose content is outside this model.
   */
  datatype Node =
    | Element(ns: string, name: string, children: seq<Node>)
    | Text(text: string)
    | Resource(name: string)

  /** A request body: none, a serialised XML document, or URL-encoded form fields. */
  datatype Entity =
    | NoEntity
    | XmlDocument(root: Node)
    | Form(fields: seq<(string, string)>)

  datatype Request = Request(verb: string, target: string, headers: seq<Header>, entity: Entity)

  /** The callbacks a namespace-aware SAX parser makes on a handler. */
  datatype SaxEvent =
    | StartElement(uri: string, localName: string)
    | Characters(text: string)
    | EndElement(uri: string, localName: string)

  /**
   * What the parser makes of a response body: a well-formed document's
   * events, or the events delivered before it gave up with a `SAXException`.
   */
  datatype Parse = Document(events: seq<SaxEvent>) | Malformed(delivered: seq<SaxEvent>)

  /**
   * The outcome of `executeMethod`: a status with the body, or an
   * `IOException`. The body is given as the chunks successive `read` calls
   * return, with `readFails` when the read after the last chunk throws an
   * `IOException` instead of reporting the end, and as parsed XML.
   */
  datatype Reply =
    | Reply(status: int, chunks: seq<seq<byte>>, readFails: bool, parse: Parse)
    | TransportError

  /** The value of a header, or `None` when the request does not carry it. */
  function HeaderValue(headers: seq<Header>, name: string): (r: Option<string>)
    ensures r.None? <==> forall k :: 0 <= k < |headers| ==> headers[k].name != name
    ensures r.Some? ==> exists k :: 0 <= k < |headers| && headers[k] == Header(name, r.value)
  {
    if headers == [] then None
    else if headers[0].name == name then Some(headers[0].value)
    else HeaderValue(headers[1..], name)
  }

  /**
   * The server and the wire: `respond` answers a request from the requests
   * sent before it; `sent` is every request issued so far, in order.
   */
  class Network {
    var sent: seq<Request>
    const respond: (seq<Request>, Request) -> Reply

    constructor(respond: (seq<Request>, Request) -> Reply)
      ensures sent == [] && this.respond == respond
    {
      sent := [];
      this.respond := respond;
    }
  }

  /** A commons-httpclient `HttpClient` with the three settings the connection makes. */
  class HttpClient {
    const net: Network
    var soTimeout: Option<int>
    var connectionTimeout: Option<int>
    var localAddress: Option<string>

    /** `new HttpClient()`: nothing configured. */
    constructor(net: Network)
      ensures this.net == net
      ensures soTimeout.None? && connectionTimeout.None? && localAddress.None?
    {
      this.net := net;
      soTimeout, connectionTimeout, localAddress := None, None, None;
    }

    /** `executeMethod(op)`: the request goes out and the server's reply comes back. */
    method Execute(request: Request) returns (reply: Reply)
      modifies net
      ensures net.sent == old(net.sent) + [request]
      ensures reply == net.respond(old(net.sent), request)
    {
      reply := net.respond(net.sent, request);
      net.sent := net.sent + [request];
    }
  }
}
