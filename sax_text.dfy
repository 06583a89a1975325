/**
 * What the two SAX handlers of `ExchangeConnection` compute, as functions of
 * the event stream: each keeps the text seen since the latest start tag, and
 * acts on the end tags it looks for. The handler classes themselves are in
 * module `Connection`; their methods are proved against these functions.
 */
module SaxText {
  import opened Wrappers
  import opened Http

  const DAV_NAMESPACE: string := "DAV:"
  const HTTPMAIL_NAMESPACE: string := "urn:schemas:httpmail:"

  /** The end tag of a `DAV:` `href` element, the one `getMessages` collects. */
  predicate IsHrefEnd(e: SaxEvent)
  {
    e == EndElement(DAV_NAMESPACE, "href")
  }

  /** The end tag of a `urn:schemas:httpmail:` `inbox` element, the one `findInbox` takes. */
  predicate IsInboxEnd(e: SaxEvent)
  {
    e == EndElement(HTTPMAIL_NAMESPACE, "inbox")
  }

  /**
   * The handlers' `content` buffer after `events`: cleared by every start
   * tag, extended by character data, left alone by end tags.
   */
  function Pending(events: seq<SaxEvent>): string
  {
    if events == [] then ""
    else
      var init := events[..|events| - 1];
      match events[|events| - 1]
      case StartElement(_, _) => ""
      case Characters(text) => Pending(init) + text
      case EndElement(_, _) => Pending(init)
  }

  /** The list `getMessages` returns: the buffer at each `DAV:href` end tag, in order. */
  function Hrefs(events: seq<SaxEvent>): seq<string>
  {
    if events == [] then []
    else
      var init := events[..|events| - 1];
      if IsHrefEnd(events[|events| - 1]) then Hrefs(init) + [Pending(init)] else Hrefs(init)
  }

  /** The `inbox` that `findInbox`'s handler leaves: the buffer at the last inbox end tag. */
  function LastInbox(events: seq<SaxEvent>): Option<string>
  {
    if events == [] then None
    else
      var init := events[..|events| - 1];
      if IsInboxEnd(events[|events| - 1]) then Some(Pending(init)) else LastInbox(init)
  }

  /**
   * The events a namespace-aware parser reports for the serialisation of a
   * tree; `resources` gives the text of class-path resources.
   */
  function Events(n: Node, resources: string -> string): seq<SaxEvent>
    decreases n
  {
    match n
    case Element(ns, name, children) =>
      [StartElement(ns, name)] + ChildEvents(children, resources) + [EndElement(ns, name)]
    case Text(text) => if text == "" then [] else [Characters(text)]
    case Resource(name) => if resources(name) == "" then [] else [Characters(resources(name))]
  }

  function ChildEvents(children: seq<Node>, resources: string -> string): seq<SaxEvent>
    decreases children
  {
    if children == [] then [] else Events(children[0], resources) + ChildEvents(children[1..], resources)
  }

  /** Events that are empty or begin with a start tag, as every element's events do. */
  predicate StartsFresh(events: seq<SaxEvent>)
  {
    events == [] || events[0].StartElement?
  }

  lemma InitOfAppend(a: seq<SaxEvent>, b: seq<SaxEvent>)
    requires b != []
    ensures (a + b)[..|a + b| - 1] == a + b[..|b| - 1]
    ensures (a + b)[|a + b| - 1] == b[|b| - 1]
  {
  }

  /** A start tag clears the buffer: what came before it no longer matters. */
  lemma {:induction false} PendingAfterStart(a: seq<SaxEvent>, b: seq<SaxEvent>)
    requires b != [] && b[0].StartElement?
    ensures Pending(a + b) == Pending(b)
  {
    InitOfAppend(a, b);
    if |b| > 1 {
      PendingAfterStart(a, b[..|b| - 1]);
    }
  }

  /** Documents that start with a start tag contribute their hrefs independently. */
  lemma {:induction false} HrefsAppend(a: seq<SaxEvent>, b: seq<SaxEvent>)
    requires StartsFresh(b)
    ensures Hrefs(a + b) == Hrefs(a) + Hrefs(b)
  {
    if b == [] {
      assert a + b == a;
    } else {
      var init := b[..|b| - 1];
      InitOfAppend(a, b);
      if init == [] {
        assert Hrefs(b) == [];
      } else {
        HrefsAppend(a, init);
        if IsHrefEnd(b[|b| - 1]) {
          PendingAfterStart(a, init);
        }
      }
    }
  }

  /** The inbox found in a later part of the stream overrides any earlier one. */
  lemma {:induction false} LastInboxAppend(a: seq<SaxEvent>, b: seq<SaxEvent>)
    requires StartsFresh(b)
    ensures LastInbox(a + b) == if LastInbox(b).Some? then LastInbox(b) else LastInbox(a)
  {
    if b == [] {
      assert a + b == a;
    } else {
      var init := b[..|b| - 1];
      InitOfAppend(a, b);
      if init == [] {
        assert LastInbox(b) == None;
      } else {
        LastInboxAppend(a, init);
        if IsInboxEnd(b[|b| - 1]) {
          PendingAfterStart(a, init);
        }
      }
    }
  }

  /** `inbox` stays null exactly when the stream has no inbox end tag. */
  lemma {:induction false} LastInboxNone(events: seq<SaxEvent>)
    ensures LastInbox(events).None? <==> forall k :: 0 <= k < |events| ==> !IsInboxEnd(events[k])
  {
    if events != [] {
      var init := events[..|events| - 1];
      LastInboxNone(init);
      assert forall k :: 0 <= k < |init| ==> init[k] == events[k];
    }
  }

  /**
   * When an inbox is found it is the buffer at the last inbox end tag: no
   * inbox end tag follows that one.
   */
  lemma {:induction false} LastInboxIsLast(events: seq<SaxEvent>)
    requires LastInbox(events).Some?
    ensures exists k :: 0 <= k < |events| && IsInboxEnd(events[k])
                      && LastInbox(events).value == Pending(events[..k])
                      && (forall j :: k < j < |events| ==> !IsInboxEnd(events[j]))
  {
    var n := |events| - 1;
    var init := events[..n];
    if IsInboxEnd(events[n]) {
      assert events[..n] == init;
    } else {
      LastInboxIsLast(init);
      var k :| 0 <= k < |init| && IsInboxEnd(init[k])
        && LastInbox(init).value == Pending(init[..k])
        && forall j :: k < j < |init| ==> !IsInboxEnd(init[j]);
      assert init[..k] == events[..k];
      assert events[k] == init[k];
      assert forall j :: k < j < |events| ==> !IsInboxEnd(events[j]) by {
        forall j | k < j < |events|
          ensures !IsInboxEnd(events[j])
        {
          if j < n {
            assert events[j] == init[j];
          }
        }
      }
    }
  }

  /** Each `href` end tag contributes exactly one entry: the count is the number of end tags. */
  function CountHrefEnds(events: seq<SaxEvent>): nat
  {
    if events == [] then 0
    else CountHrefEnds(events[..|events| - 1]) + if IsHrefEnd(events[|events| - 1]) then 1 else 0
  }

  lemma {:induction false} HrefsCount(events: seq<SaxEvent>)
    ensures |Hrefs(events)| == CountHrefEnds(events)
  {
    if events != [] {
      HrefsCount(events[..|events| - 1]);
    }
  }

  /** An `href` element with text `file` yields exactly `[file]`. */
  lemma HrefElement(file: string, resources: string -> string)
    ensures StartsFresh(Events(Element(DAV_NAMESPACE, "href", [Text(file)]), resources))
    ensures Hrefs(Events(Element(DAV_NAMESPACE, "href", [Text(file)]), resources)) == [file]
  {
    var start := StartElement(DAV_NAMESPACE, "href");
    var end := EndElement(DAV_NAMESPACE, "href");
    var body := Events(Text(file), resources);
    assert ChildEvents([Text(file)], resources) == body + [];
    var events := Events(Element(DAV_NAMESPACE, "href", [Text(file)]), resources);
    assert events == [start] + body + [end];
    assert events[..|events| - 1] == [start] + body;
    assert Hrefs([start]) == [] && Pending([start]) == "";
    if file != "" {
      var pre := [start, Characters(file)];
      assert [start] + body == pre && pre[..1] == [start];
      assert Hrefs(pre) == [] && Pending(pre) == file;
    }
  }
}
