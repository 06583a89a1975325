/**
 * `ExchangeTransport`: the SMTP side. Before a message goes out its
 * recipient headers are rewritten to match the envelope: To, Cc and Bcc keep
 * only envelope addresses, and envelope addresses the headers do not name
 * are added to Bcc.
 */
module Transport {
  import opened Wrappers
  import opened Http
  import Connection

  /** A recipient: an RFC 822 mailbox or a newsgroup. */
  datatype Address = InternetAddress(address: string) | NewsAddress(newsgroup: string)

  /** The exceptions `sendMessage` and `protocolConnect` throw. */
  datatype TransportFailure =
    | InvalidMessage                 // not a MimeMessage
    | NoAddresses                    // null or empty envelope
    | InvalidAddress(address: Address)
    | NotConnected                   // IllegalStateException("Not connected.")
    | DeliveryFailed                 // the connection's send threw
    | CreateFailed(reason: string)   // createConnection threw
    | AuthenticationFailed           // connect threw

  /** A recipient header: absent (`null`) or a list of addresses. */
  type Header = Option<seq<Address>>

  /** The To, Cc and Bcc headers as `sendMessage` writes them back. */
  datatype Recipients = Recipients(to: Header, cc: Header, bcc: Header)

  /** A missing header reads as an empty list. */
  function Listed(header: Header): seq<Address>
  {
    if header.None? then [] else header.value
  }

  /** An empty list is written back as an absent header. */
  function AbsentIfEmpty(list: seq<Address>): (header: Header)
    ensures header != Some([])
    ensures Listed(header) == list
  {
    if list == [] then None else Some(list)
  }

  /** The entries of `list` that are in `targets`, in their original order. */
  function Retained(list: seq<Address>, targets: seq<Address>): seq<Address>
  {
    if list == [] then []
    else
      var last := list[|list| - 1];
      Retained(list[..|list| - 1], targets) + if last in targets then [last] else []
  }

  /** The entries of `envelope` that `known` does not contain, in envelope order. */
  function Unlisted(envelope: seq<Address>, known: seq<Address>): seq<Address>
  {
    if envelope == [] then []
    else
      var last := envelope[|envelope| - 1];
      Unlisted(envelope[..|envelope| - 1], known) + if last !in known then [last] else []
  }

  /** The first envelope entry that is not an Internet address. */
  function FirstInvalid(envelope: seq<Address>): Option<Address>
  {
    if envelope == [] then None
    else if !envelope[0].InternetAddress? then Some(envelope[0])
    else FirstInvalid(envelope[1..])
  }

  /** There is no invalid entry exactly when every entry is an Internet address. */
  lemma {:induction false} FirstInvalidNone(envelope: seq<Address>)
    ensures FirstInvalid(envelope).None? <==> forall k :: 0 <= k < |envelope| ==> envelope[k].InternetAddress?
  {
    if envelope != [] && envelope[0].InternetAddress? {
      FirstInvalidNone(envelope[1..]);
      assert forall k :: 1 <= k < |envelope| ==> envelope[k] == envelope[1..][k - 1];
    }
  }

  /** The entry reported is the first one that is not an Internet address. */
  lemma {:induction false} FirstInvalidAt(envelope: seq<Address>, i: nat)
    requires i < |envelope| && !envelope[i].InternetAddress?
    requires forall k :: 0 <= k < i ==> envelope[k].InternetAddress?
    ensures FirstInvalid(envelope) == Some(envelope[i])
  {
    if i > 0 {
      FirstInvalidAt(envelope[1..], i - 1);
    }
  }

  /**
   * `getAllRecipients` of a `MimeMessage`: To, Cc and Bcc, then the
   * newsgroups.
   */
  function AllRecipients(to: Header, cc: Header, bcc: Header, newsgroups: seq<string>): seq<Address>
  {
    Listed(to) + Listed(cc) + Listed(bcc) + seq(|newsgroups|, k requires 0 <= k < |newsgroups| => NewsAddress(newsgroups[k]))
  }

  /**
   * The headers `sendMessage` writes for a non-empty `envelope`, or the
   * invalid address it throws on.
   */
  function Readdress(to: Header, cc: Header, bcc: Header, newsgroups: seq<string>,
                     envelope: seq<Address>): Result<Recipients, TransportFailure>
  {
    match FirstInvalid(envelope)
    case Some(address) => Err(InvalidAddress(address))
    case None =>
      var known := AllRecipients(to, cc, bcc, newsgroups);
      Ok(Recipients(AbsentIfEmpty(Retained(Listed(to), envelope)),
                    AbsentIfEmpty(Retained(Listed(cc), envelope)),
                    AbsentIfEmpty(Retained(Listed(bcc), envelope) + Unlisted(envelope, known))))
  }

  /** A message; `isMime` says whether it is a `MimeMessage`. */
  class Message {
    const isMime: bool
    var to: Header
    var cc: Header
    var bcc: Header
    const newsgroups: seq<string>

    constructor(isMime: bool, to: Header, cc: Header, bcc: Header, newsgroups: seq<string>)
      ensures this.isMime == isMime && this.to == to && this.cc == cc && this.bcc == bcc
      ensures this.newsgroups == newsgroups
    {
      this.isMime, this.to, this.cc, this.bcc, this.newsgroups := isMime, to, cc, bcc, newsgroups;
    }
  }

  /** The iterator loop that removes every entry not in `targets`. */
  method RetainTargeted(list: seq<Address>, targets: seq<Address>) returns (kept: seq<Address>)
    ensures kept == Retained(list, targets)
  {
    kept := list;
    var k := 0;
    ghost var j := 0;
    while k < |kept|
      invariant 0 <= j <= |list|
      invariant kept == Retained(list[..j], targets) + list[j..]
      invariant k == |Retained(list[..j], targets)|
      decreases |list| - j
    {
      assert list[..j + 1][..j] == list[..j];
      assert kept[k] == list[j];
      if kept[k] !in targets {
        kept := kept[..k] + kept[k + 1..];
      } else {
        k := k + 1;
      }
      j := j + 1;
    }
    assert list[..|list|] == list;
  }

  /**
   * The envelope loop: throws on the first address that is not an Internet
   * address, and otherwise appends every address `known` lacks to `bcc`.
   */
  method AppendUnknown(bcc: seq<Address>, envelope: seq<Address>, known: seq<Address>)
    returns (r: Result<seq<Address>, TransportFailure>)
    ensures r == match FirstInvalid(envelope)
                 case Some(address) => Err(InvalidAddress(address))
                 case None => Ok(bcc + Unlisted(envelope, known))
  {
    var extended := bcc;
    var i := 0;
    while i < |envelope|
      invariant 0 <= i <= |envelope|
      invariant forall k :: 0 <= k < i ==> envelope[k].InternetAddress?
      invariant extended == bcc + Unlisted(envelope[..i], known)
    {
      var address := envelope[i];
      if !address.InternetAddress? {
        FirstInvalidAt(envelope, i);
        return Err(InvalidAddress(address));
      }
      assert envelope[..i + 1][..i] == envelope[..i];
      if address !in known {
        extended := extended + [address];
      }
      i := i + 1;
    }
    assert envelope[..|envelope|] == envelope;
    FirstInvalidNone(envelope);
    r := Ok(extended);
  }

  class ExchangeTransport {
    /** The `Service` connected flag. */
    var serviceConnected: bool
    var connection: Connection.ExchangeConnection?

    constructor()
      ensures !serviceConnected && connection == null
    {
      serviceConnected, connection := false, null;
    }

    /** Connected only with the service flag set and a connection present. */
    predicate IsConnected()
      reads this
    {
      serviceConnected && connection != null
    }

    /** `setConnected`: clearing the flag drops the connection. */
    method SetConnected(connected: bool)
      modifies this
      ensures serviceConnected == connected
      ensures connection == if connected then old(connection) else null
      ensures !connected ==> !IsConnected()
    {
      serviceConnected := connected;
      if !connected {
        connection := null;
      }
    }

    /**
     * `protocolConnect`: `created` is what `createConnection` produced (or
     * why it threw); the new connection then connects.
     */
    method ProtocolConnect(created: Result<Connection.ExchangeConnection, string>)
      returns (r: Result<bool, TransportFailure>)
      requires created.Ok? ==> created.value.Valid()
      modifies this, if created.Ok? then {created.value, created.value.net} else {}
      ensures created.Err? ==> r == Err(CreateFailed(created.error)) && connection == old(connection)
      ensures created.Ok? ==> var c := created.value;
        var t := Connection.SignOnRun(c.server, c.mailbox, c.username, c.password, c.urlParses(c.server),
                                      c.net.respond, old(c.net.sent));
        && connection == c && c.Valid() && c.inbox == Connection.ConnectedInbox(t)
        && c.net.sent == old(c.net.sent) + t.requests
        && r == (if t.outcome.Pass? then Ok(true) else Err(AuthenticationFailed))
      ensures serviceConnected == old(serviceConnected)
    {
      if created.Err? {
        return Err(CreateFailed(created.error));
      }
      connection := created.value;
      var connected := connection.Connect();
      if connected.Fail? {
        return Err(AuthenticationFailed);
      }
      r := Ok(true);
    }

    /**
     * `sendMessage`: validation, the header rewrite, then the connection
     * check and the hand-over. `delivered` is whether the connection's
     * `send` returns normally.
     */
    method SendMessage(message: Message, addresses: Option<seq<Address>>, delivered: bool)
      returns (r: Outcome<TransportFailure>)
      modifies message
      ensures !message.isMime ==> r == Fail(InvalidMessage) && unchanged(message)
      ensures message.isMime && (addresses.None? || addresses.value == []) ==>
        r == Fail(NoAddresses) && unchanged(message)
      ensures message.isMime && addresses.Some? && addresses.value != [] ==>
        var rewritten := Readdress(old(message.to), old(message.cc), old(message.bcc), message.newsgroups, addresses.value);
        match rewritten
        case Err(e) => r == Fail(e) && unchanged(message)
        case Ok(recipients) =>
          && message.to == recipients.to && message.cc == recipients.cc && message.bcc == recipients.bcc
          && r == (if !IsConnected() then Fail(NotConnected) else if !delivered then Fail(DeliveryFailed) else Pass)
    {
      if !message.isMime {
        return Fail(InvalidMessage);
      }
      if addresses.None? || addresses.value == [] {
        return Fail(NoAddresses);
      }
      var envelope := addresses.value;
      var to := RetainTargeted(Listed(message.to), envelope);
      var cc := RetainTargeted(Listed(message.cc), envelope);
      var bcc := RetainTargeted(Listed(message.bcc), envelope);
      var known := AllRecipients(message.to, message.cc, message.bcc, message.newsgroups);
      var extended := AppendUnknown(bcc, envelope, known);
      if extended.Err? {
        return Fail(extended.error);
      }
      message.to := AbsentIfEmpty(to);
      message.cc := AbsentIfEmpty(cc);
      message.bcc := AbsentIfEmpty(extended.value);
      if !IsConnected() {
        return Fail(NotConnected);
      }
      if !delivered {
        return Fail(DeliveryFailed);
      }
      r := Pass;
    }
  }

  /** `Retained` keeps exactly the entries that are targeted. */
  lemma {:induction false} RetainedMembers(list: seq<Address>, targets: seq<Address>, x: Address)
    ensures x in Retained(list, targets) <==> x in list && x in targets
  {
    if list != [] {
      var init := list[..|list| - 1];
      RetainedMembers(init, targets, x);
      assert list == init + [list[|list| - 1]];
    }
  }

  /** `Retained` keeps the original order: filtering distributes over concatenation. */
  lemma {:induction false} RetainedAppend(a: seq<Address>, b: seq<Address>, targets: seq<Address>)
    ensures Retained(a + b, targets) == Retained(a, targets) + Retained(b, targets)
  {
    if b == [] {
      assert a + b == a;
    } else {
      var init := b[..|b| - 1];
      assert (a + b)[..|a + b| - 1] == a + init;
      RetainedAppend(a, init, targets);
    }
  }

  /** A list that holds only targeted entries is kept whole. */
  lemma {:induction false} RetainedAll(list: seq<Address>, targets: seq<Address>)
    requires forall k :: 0 <= k < |list| ==> list[k] in targets
    ensures Retained(list, targets) == list
  {
    if list != [] {
      RetainedAll(list[..|list| - 1], targets);
    }
  }

  /** `Unlisted` holds exactly the envelope entries that are not known. */
  lemma {:induction false} UnlistedMembers(envelope: seq<Address>, known: seq<Address>, x: Address)
    ensures x in Unlisted(envelope, known) <==> x in envelope && x !in known
  {
    if envelope != [] {
      var init := envelope[..|envelope| - 1];
      UnlistedMembers(init, known, x);
      assert envelope == init + [envelope[|envelope| - 1]];
    }
  }

  /** When every envelope entry is known, nothing is added. */
  lemma {:induction false} UnlistedNone(envelope: seq<Address>, known: seq<Address>)
    requires forall k :: 0 <= k < |envelope| ==> envelope[k] in known
    ensures Unlisted(envelope, known) == []
  {
    if envelope != [] {
      UnlistedNone(envelope[..|envelope| - 1], known);
    }
  }

  /** `sendMessage` throws an invalid-address error exactly when the envelope holds a non-Internet address. */
  lemma ReaddressFails(to: Header, cc: Header, bcc: Header, newsgroups: seq<string>, envelope: seq<Address>)
    ensures Readdress(to, cc, bcc, newsgroups, envelope).Err?
        <==> exists k :: 0 <= k < |envelope| && !envelope[k].InternetAddress?
    ensures Readdress(to, cc, bcc, newsgroups, envelope).Err? ==>
        Readdress(to, cc, bcc, newsgroups, envelope).error.InvalidAddress?
  {
    FirstInvalidNone(envelope);
  }

  /** No header is ever written back as an empty list. */
  lemma ReaddressNeverEmpty(to: Header, cc: Header, bcc: Header, newsgroups: seq<string>, envelope: seq<Address>)
    requires Readdress(to, cc, bcc, newsgroups, envelope).Ok?
    ensures var rs := Readdress(to, cc, bcc, newsgroups, envelope).value;
      rs.to != Some([]) && rs.cc != Some([]) && rs.bcc != Some([])
  {
  }

  /**
   * After the rewrite To, Cc and Bcc together name exactly the envelope
   * recipients; To and Cc only lose entries.
   */
  lemma ReaddressCoversEnvelope(to: Header, cc: Header, bcc: Header, newsgroups: seq<string>,
                                envelope: seq<Address>, x: Address)
    requires Readdress(to, cc, bcc, newsgroups, envelope).Ok?
    ensures var rs := Readdress(to, cc, bcc, newsgroups, envelope).value;
      && (x in Listed(rs.to) + Listed(rs.cc) + Listed(rs.bcc) <==> x in envelope)
      && (x in Listed(rs.to) <==> x in Listed(to) && x in envelope)
      && (x in Listed(rs.cc) <==> x in Listed(cc) && x in envelope)
  {
    var known := AllRecipients(to, cc, bcc, newsgroups);
    var news := seq(|newsgroups|, k requires 0 <= k < |newsgroups| => NewsAddress(newsgroups[k]));
    RetainedMembers(Listed(to), envelope, x);
    RetainedMembers(Listed(cc), envelope, x);
    RetainedMembers(Listed(bcc), envelope, x);
    UnlistedMembers(envelope, known, x);
    FirstInvalidNone(envelope);
    if x in envelope && x in known {
      assert x.InternetAddress?;
      assert x !in news;
      assert known == Listed(to) + Listed(cc) + Listed(bcc) + news;
    }
  }

  /** Rewriting headers that were already rewritten for the same envelope changes nothing. */
  lemma ReaddressIdempotent(to: Header, cc: Header, bcc: Header, newsgroups: seq<string>, envelope: seq<Address>)
    requires Readdress(to, cc, bcc, newsgroups, envelope).Ok?
    ensures var rs := Readdress(to, cc, bcc, newsgroups, envelope).value;
      Readdress(rs.to, rs.cc, rs.bcc, newsgroups, envelope) == Ok(rs)
  {
    var rs := Readdress(to, cc, bcc, newsgroups, envelope).value;
    var known := AllRecipients(to, cc, bcc, newsgroups);
    var to1, cc1, bcc1 := Listed(rs.to), Listed(rs.cc), Listed(rs.bcc);
    forall k | 0 <= k < |to1| ensures to1[k] in envelope {
      RetainedMembers(Listed(to), envelope, to1[k]);
    }
    forall k | 0 <= k < |cc1| ensures cc1[k] in envelope {
      RetainedMembers(Listed(cc), envelope, cc1[k]);
    }
    forall k | 0 <= k < |bcc1| ensures bcc1[k] in envelope {
      RetainedMembers(Listed(bcc), envelope, bcc1[k]);
      UnlistedMembers(envelope, known, bcc1[k]);
    }
    RetainedAll(to1, envelope);
    RetainedAll(cc1, envelope);
    RetainedAll(bcc1, envelope);
    var known1 := AllRecipients(rs.to, rs.cc, rs.bcc, newsgroups);
    forall k | 0 <= k < |envelope| ensures envelope[k] in known1 {
      ReaddressCoversEnvelope(to, cc, bcc, newsgroups, envelope, envelope[k]);
    }
    UnlistedNone(envelope, known1);
    assert bcc1 + [] == bcc1;
  }

  lemma RetainedExample(a: Address, b: Address, c: Address, d: Address)
    requires b !in [a, c, d]
    ensures Retained([a, b], [a, c, d]) == [a] && Retained([c], [a, c, d]) == [c]
  {
    assert [a, b][..1] == [a];
    assert Retained([a], [a, c, d]) == [a];
  }

  lemma UnlistedExample(a: Address, b: Address, c: Address, d: Address)
    requires d !in [a, b, c]
    ensures Unlisted([a, c, d], [a, b, c]) == [d]
  {
    assert [a, c, d][..2] == [a, c] && [a, c][..1] == [a];
    assert Unlisted([a], [a, b, c]) == [];
    assert Unlisted([a, c], [a, b, c]) == [];
  }

  /**
   * To `[a, b]` and Cc `[c]` sent to `[a, c, d]`: `b` is dropped from To and
   * `d`, named in no header, goes to Bcc.
   */
  lemma ReaddressExample(a: Address, b: Address, c: Address, d: Address)
    requires a.InternetAddress? && c.InternetAddress? && d.InternetAddress?
    requires b !in [a, c, d] && d !in [a, b, c]
    ensures Readdress(Some([a, b]), Some([c]), None, [], [a, c, d]) == Ok(Recipients(Some([a]), Some([c]), Some([d])))
  {
    FirstInvalidNone([a, c, d]);
    RetainedExample(a, b, c, d);
    UnlistedExample(a, b, c, d);
    assert AllRecipients(Some([a, b]), Some([c]), None, []) == [a, b, c];
  }
}
