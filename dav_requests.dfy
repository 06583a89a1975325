/**
 * The requests `ExchangeConnection` sends, as pure functions of its
 * configuration and arguments: verb, target, headers and body.
 */
module DavRequests {
  import opened Wrappers
  import opened JavaLang
  import opened Http
  import opened SaxText
  import UrlEscape

  const SIGN_ON_URI: string := "/exchweb/bin/auth/owaauth.dll"
  const XML_CONTENT_TYPE: string := "text/xml; charset=\"UTF-8\""
  const FORM_CONTENT_TYPE: string := "application/x-www-form-urlencoded"
  const GET_UNREAD_MESSAGES_SQL_RESOURCE: string := "get-unread-messages.sql"
  const GET_ALL_MESSAGES_SQL_RESOURCE: string := "get-all-messages.sql"

  /**
   * `url.substring(url.lastIndexOf("/") + 1)`: the name a message has inside
   * its folder, which the batch bodies list.
   */
  function Basename(url: string): (file: string)
    ensures '/' !in file
    ensures |file| <= |url| && file == url[|url| - |file|..]
    ensures |file| < |url| ==> url[|url| - |file| - 1] == '/'
  {
    url[LastIndexOf(url, '/') + 1..]
  }

  function Basenames(urls: seq<string>): (files: seq<string>)
    ensures |files| == |urls|
    ensures forall k :: 0 <= k < |urls| ==> files[k] == Basename(urls[k])
  {
    if urls == [] then [] else [Basename(urls[0])] + Basenames(urls[1..])
  }

  /** One `DAV:href` element per message URL, in list order. */
  function HrefElements(urls: seq<string>): seq<Node>
  {
    if urls == [] then []
    else [Element(DAV_NAMESPACE, "href", [Text(Basename(urls[0]))])] + HrefElements(urls[1..])
  }

  /** `createDeleteEntity`: `<delete><target><href>…</href>…</target></delete>`. */
  function DeleteEntity(urls: seq<string>): Node
  {
    Element(DAV_NAMESPACE, "delete", [Element(DAV_NAMESPACE, "target", HrefElements(urls))])
  }

  /** The `<set><prop><read>1</read></prop></set>` part of the mark-read body. */
  const MARK_READ_UPDATE: Node :=
    Element(DAV_NAMESPACE, "set", [Element(DAV_NAMESPACE, "prop", [Element(HTTPMAIL_NAMESPACE, "read", [Text("1")])])])

  /** `createMarkReadEntity`: the targets, then the update setting `read` to 1. */
  function MarkReadEntity(urls: seq<string>): Node
  {
    Element(DAV_NAMESPACE, "propertyupdate", [Element(DAV_NAMESPACE, "target", HrefElements(urls)), MARK_READ_UPDATE])
  }

  /** `createFindInboxEntity`: a `propfind` asking for the `inbox` property. */
  const FIND_INBOX_ENTITY: Node :=
    Element(DAV_NAMESPACE, "propfind", [Element(DAV_NAMESPACE, "prop", [Element(HTTPMAIL_NAMESPACE, "inbox", [])])])

  /** `createSearchEntity(sql)`, with the SQL read from a class-path resource. */
  function SearchEntity(resource: string): Node
  {
    Element(DAV_NAMESPACE, "searchrequest", [Element(DAV_NAMESPACE, "sql", [Resource(resource)])])
  }

  /** The query resource `listInbox` sends. */
  function QueryResource(includeRead: bool): string
  {
    if includeRead then GET_ALL_MESSAGES_SQL_RESOURCE else GET_UNREAD_MESSAGES_SQL_RESOURCE
  }

  /** The batch endpoint: `inbox`, with `/` appended unless it already ends in one. */
  function BatchPath(inbox: string): string
  {
    if |inbox| > 0 && inbox[|inbox| - 1] == '/' then inbox else inbox + "/"
  }

  /** `OPTIONS <server>/exchange`, the authentication probe. */
  function AuthTestRequest(server: string): Request
  {
    Request("OPTIONS", server + "/exchange", [], NoEntity)
  }

  /** The forms-based sign-on `POST`. */
  function SignOnRequest(server: string, username: string, password: string): Request
  {
    Request("POST", server + SIGN_ON_URI, [Header("Content-Type", FORM_CONTENT_TYPE)],
      Form([("destination", server + "/exchange"), ("flags", "0"), ("username", username), ("password", password)]))
  }

  /** The `PROPFIND` on the mailbox that asks for its inbox URL. */
  function FindInboxRequest(server: string, mailbox: string): Request
  {
    Request("PROPFIND", server + "/exchange/" + mailbox,
      [Header("Content-Type", XML_CONTENT_TYPE), Header("Depth", "0"), Header("Brief", "t")],
      XmlDocument(FIND_INBOX_ENTITY))
  }

  /** The `Range` header of `listInbox`, present only for a positive limit. */
  function RangeHeader(limit: int): seq<Header>
  {
    if limit > 0 then [Header("Range", "rows=0-" + IntString(limit))] else []
  }

  /** The `SEARCH` on the inbox that lists the messages. */
  function SearchRequest(inbox: string, includeRead: bool, limit: int): Request
  {
    Request("SEARCH", inbox,
      [Header("Content-Type", XML_CONTENT_TYPE)] + RangeHeader(limit) + [Header("Brief", "t")],
      XmlDocument(SearchEntity(QueryResource(includeRead))))
  }

  const BATCH_HEADERS: seq<Header> :=
    [Header("Content-Type", XML_CONTENT_TYPE), Header("If-Match", "*"), Header("Brief", "t")]

  /** The `BDELETE` that deletes the listed messages. */
  function DeleteRequest(inbox: string, urls: seq<string>): Request
  {
    Request("BDELETE", BatchPath(inbox), BATCH_HEADERS, XmlDocument(DeleteEntity(urls)))
  }

  /** The `BPROPPATCH` that marks the listed messages read. */
  function MarkReadRequest(inbox: string, urls: seq<string>): Request
  {
    Request("BPROPPATCH", BatchPath(inbox), BATCH_HEADERS, XmlDocument(MarkReadEntity(urls)))
  }

  /** `escape(url)` as a string: the escaped units are all ASCII. */
  function EscapedUrl(url: string): (target: string)
    ensures |target| >= |url|
  {
    var units := UrlEscape.Escape(Utf16(url));
    UrlEscape.EscapeOutputAllowed(Utf16(url));
    UrlEscape.EscapeLength(Utf16(url));
    AsciiText(units)
  }

  /** The `GET` of one message, with `Translate: F` so that the raw message comes back. */
  function FetchRequest(url: string): Request
  {
    Request("GET", EscapedUrl(url), [Header("Translate", "F")], NoEntity)
  }

  /** Without a slash the whole URL is the name. */
  lemma BasenameWithoutSlash(url: string)
    requires '/' !in url
    ensures Basename(url) == url
  {
  }

  /** With a slash the name is exactly what follows the last one. */
  lemma BasenameAfterLastSlash(dir: string, file: string)
    requires '/' !in file
    ensures Basename(dir + "/" + file) == file
  {
    var url := dir + "/" + file;
    assert url[|dir|] == '/';
  }

  lemma {:induction false} HrefElementsEvents(urls: seq<string>, resources: string -> string)
    ensures StartsFresh(ChildEvents(HrefElements(urls), resources))
    ensures Hrefs(ChildEvents(HrefElements(urls), resources)) == Basenames(urls)
  {
    if urls != [] {
      var href := Element(DAV_NAMESPACE, "href", [Text(Basename(urls[0]))]);
      var nodes := HrefElements(urls);
      assert nodes[0] == href && nodes[1..] == HrefElements(urls[1..]);
      var first, rest := Events(href, resources), ChildEvents(HrefElements(urls[1..]), resources);
      assert ChildEvents(nodes, resources) == first + rest;
      HrefElement(Basename(urls[0]), resources);
      HrefElementsEvents(urls[1..], resources);
      HrefsAppend(first, rest);
      assert [] + first == first;
      HrefsAppend([], first);
    }
  }

  /** The events of a one-child element are those of the child. */
  lemma OneChild(n: Node, resources: string -> string)
    ensures ChildEvents([n], resources) == Events(n, resources)
  {
    assert [n][1..] == [];
  }

  lemma TwoChildren(m: Node, n: Node, resources: string -> string)
    ensures ChildEvents([m, n], resources) == Events(m, resources) + Events(n, resources)
  {
    assert [m, n][1..] == [n];
    OneChild(n, resources);
  }

  /** Wrapping events in an element other than `href` keeps their hrefs. */
  lemma Wrapped(ns: string, name: string, inner: seq<SaxEvent>)
    requires !IsHrefEnd(EndElement(ns, name))
    ensures StartsFresh([StartElement(ns, name)] + inner + [EndElement(ns, name)])
    ensures Hrefs([StartElement(ns, name)] + inner + [EndElement(ns, name)]) == Hrefs(inner)
  {
    var start := StartElement(ns, name);
    var events := [start] + inner + [EndElement(ns, name)];
    assert events[..|events| - 1] == [start] + inner;
    HrefsAfterStart(start, inner);
  }

  /** A leading start tag leaves an empty buffer, as an empty stream does. */
  lemma {:induction false} PendingAfterLeadingStart(start: SaxEvent, inner: seq<SaxEvent>)
    requires start.StartElement?
    ensures Pending([start] + inner) == Pending(inner)
  {
    if inner != [] {
      var init := inner[..|inner| - 1];
      assert ([start] + inner)[..|inner|] == [start] + init;
      PendingAfterLeadingStart(start, init);
    }
  }

  /** A start tag contributes no href of its own. */
  lemma {:induction false} HrefsAfterStart(start: SaxEvent, inner: seq<SaxEvent>)
    requires start.StartElement?
    ensures Hrefs([start] + inner) == Hrefs(inner)
  {
    if inner != [] {
      var init := inner[..|inner| - 1];
      assert ([start] + inner)[..|inner|] == [start] + init;
      HrefsAfterStart(start, init);
      PendingAfterLeadingStart(start, init);
    }
  }

  /** The target element yields the basenames. */
  lemma TargetEvents(urls: seq<string>, resources: string -> string)
    ensures StartsFresh(Events(Element(DAV_NAMESPACE, "target", HrefElements(urls)), resources))
    ensures Hrefs(Events(Element(DAV_NAMESPACE, "target", HrefElements(urls)), resources)) == Basenames(urls)
  {
    HrefElementsEvents(urls, resources);
    Wrapped(DAV_NAMESPACE, "target", ChildEvents(HrefElements(urls), resources));
  }

  /**
   * Each message URL contributes exactly one `href`, in list order, and its
   * text is the URL's basename: the `getMessages` handler reading the
   * delete body back collects exactly the basenames.
   */
  lemma DeleteEntityHrefs(urls: seq<string>, resources: string -> string)
    ensures Hrefs(Events(DeleteEntity(urls), resources)) == Basenames(urls)
  {
    var targetNode := Element(DAV_NAMESPACE, "target", HrefElements(urls));
    TargetEvents(urls, resources);
    OneChild(targetNode, resources);
    Wrapped(DAV_NAMESPACE, "delete", Events(targetNode, resources));
  }

  /** The update part of the mark-read body holds no `href`. */
  lemma MarkReadUpdateEvents(resources: string -> string)
    ensures StartsFresh(Events(MARK_READ_UPDATE, resources))
    ensures Hrefs(Events(MARK_READ_UPDATE, resources)) == []
  {
    var readNode := Element(HTTPMAIL_NAMESPACE, "read", [Text("1")]);
    var propNode := Element(DAV_NAMESPACE, "prop", [readNode]);
    OneChild(Text("1"), resources);
    Wrapped(HTTPMAIL_NAMESPACE, "read", [Characters("1")]);
    assert Hrefs([Characters("1")]) == [];
    OneChild(readNode, resources);
    Wrapped(DAV_NAMESPACE, "prop", Events(readNode, resources));
    OneChild(propNode, resources);
    Wrapped(DAV_NAMESPACE, "set", Events(propNode, resources));
  }

  /** The same holds for the mark-read body: one `href` per message, in order. */
  lemma MarkReadEntityHrefs(urls: seq<string>, resources: string -> string)
    ensures Hrefs(Events(MarkReadEntity(urls), resources)) == Basenames(urls)
  {
    var targetNode := Element(DAV_NAMESPACE, "target", HrefElements(urls));
    var target, update := Events(targetNode, resources), Events(MARK_READ_UPDATE, resources);
    TargetEvents(urls, resources);
    MarkReadUpdateEvents(resources);
    TwoChildren(targetNode, MARK_READ_UPDATE, resources);
    HrefsAppend(target, update);
    Wrapped(DAV_NAMESPACE, "propertyupdate", target + update);
  }

  /** The batch path ends in exactly one added `/`, or is `inbox` itself. */
  lemma BatchPathShape(inbox: string)
    ensures var path := BatchPath(inbox);
      && path[|path| - 1] == '/'
      && path[..|inbox|] == inbox
      && (|inbox| > 0 && inbox[|inbox| - 1] == '/' ==> path == inbox)
      && (|inbox| == 0 || inbox[|inbox| - 1] != '/' ==> path == inbox + "/")
  {
  }

  /** Appending the slash once is enough. */
  lemma BatchPathIdempotent(inbox: string)
    ensures BatchPath(BatchPath(inbox)) == BatchPath(inbox)
  {
  }

  /** The `Range` header is sent exactly when the limit is positive, and carries the limit. */
  lemma SearchRange(inbox: string, includeRead: bool, limit: int)
    requires INT_MIN <= limit <= INT_MAX
    ensures var range := HeaderValue(SearchRequest(inbox, includeRead, limit).headers, "Range");
      && (range.Some? <==> limit > 0)
      && (range.Some? ==> |range.value| > 7 && range.value[..7] == "rows=0-"
                          && ParseInt(range.value[7..]) == Some(limit))
  {
    var headers := SearchRequest(inbox, includeRead, limit).headers;
    if limit > 0 {
      var value := "rows=0-" + IntString(limit);
      assert headers[1] == Header("Range", value);
      assert value[7..] == IntString(limit);
      ParseIntString(limit);
    } else {
      assert headers == [Header("Content-Type", XML_CONTENT_TYPE), Header("Brief", "t")];
    }
  }

  /** `includeRead` picks the all-messages query, otherwise the unread one. */
  lemma SearchQuery(inbox: string, includeRead: bool, limit: int)
    ensures SearchRequest(inbox, includeRead, limit).entity.root.children[0].children[0]
         == Resource(if includeRead then "get-all-messages.sql" else "get-unread-messages.sql")
    ensures HeaderValue(SearchRequest(inbox, includeRead, limit).headers, "Brief") == Some("t")
  {
    var headers := SearchRequest(inbox, includeRead, limit).headers;
    var brief := [Header("Brief", "t")];
    if limit > 0 {
      assert headers == [Header("Content-Type", XML_CONTENT_TYPE)] + RangeHeader(limit) + brief;
      assert headers[1..][1..] == brief;
      assert HeaderValue(headers[1..][1..], "Brief") == Some("t");
      assert HeaderValue(headers[1..], "Brief") == Some("t");
    } else {
      assert headers[1..] == brief;
    }
  }

  /** The `PROPFIND` only asks about the mailbox itself (section 9.1 of RFC 4918). */
  lemma FindInboxDepth(server: string, mailbox: string)
    ensures HeaderValue(FindInboxRequest(server, mailbox).headers, "Depth") == Some("0")
  {
  }

  /** A fetched target only holds allowed characters and is the escaped URL. */
  lemma FetchTarget(url: string)
    ensures var target := FetchRequest(url).target;
      && (forall k :: 0 <= k < |target| ==> UrlEscape.Allowed(target[k] as int))
      && Utf16(target) == UrlEscape.Escape(Utf16(url))
  {
    var units := UrlEscape.Escape(Utf16(url));
    UrlEscape.EscapeOutputAllowed(Utf16(url));
    var target := EscapedUrl(url);
    Utf16OfBmp(target);
  }
}
