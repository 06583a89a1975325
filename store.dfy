/**
 * `ExchangeStore`: the POP3 side. `protocolConnect` works out the server,
 * account and options from its arguments and the session properties, then
 * creates and connects an `ExchangeConnection`; the folder accessors are
 * refused until the store is connected.
 */
module Store {
  import opened Wrappers
  import opened JavaLang
  import opened Http
  import opened StoreOptions
  import UrlEscape
  import Connection

  /** An `ExchangeFolder`: its name and the store's connection. */
  datatype Folder = Folder(name: string, connection: Connection.ExchangeConnection?)

  /**
   * `parseOptions`: each `,`- or `;`-separated piece on a line of its own,
   * the collector encoded as ISO-8859-1 and loaded as a `Properties` table.
   */
  method ParseOptions(options: string) returns (props: Properties)
    ensures props == OptionProperties(options)
  {
    var pairs := SplitOptions(options);
    var collector := "";
    for i := 0 to |pairs|
      invariant collector == OptionText(pairs[..i])
    {
      assert pairs[..i + 1][..i] == pairs[..i];
      collector := collector + pairs[i] + "\n";
    }
    assert pairs[..|pairs|] == pairs;
    props := LoadProperties(Latin1(collector));
  }

  /** The server string: the URL-form host first, then the port argument, property and default. */
  method ServerFor(host: string, port: int, secure: bool, url: Option<UrlParts>, portProperty: Option<string>)
    returns (server: string)
    ensures server == ServerString(ResolveEndpoint(host, port, secure, url, portProperty))
  {
    var h, p, secure := host, port, secure;
    if url.Some? {
      secure := EqualsIgnoreCase("https", url.value.protocol);
      h := url.value.host;
      if url.value.port != -1 {
        p := url.value.port;
      }
    }
    if p == -1 {
      if portProperty.Some? && ParseInt(portProperty.value).Some? {
        p := ParseInt(portProperty.value).value;
      }
      if p == -1 {
        p := DefaultPort(secure);
      }
    }
    assert Endpoint(secure, h, p) == ResolveEndpoint(host, port, secure, url, portProperty);
    server := SchemePrefix(secure) + h;
    if p != DefaultPort(secure) {
      server := server + (":" + IntString(p));
    }
  }

  /** The username cut at its first `:`; without one the mailbox property applies. */
  method SplitAccount(username: string, mailboxProperty: Option<string>) returns (r: Result<Account, StoreFailure>)
    ensures r == SplitUsername(username, mailboxProperty)
  {
    var index := IndexOf(username, ':');
    if index == -1 {
      return Ok(Account(username, mailboxProperty, None));
    }
    r := SplitBox(username[..index], username[index + 1..]);
  }

  /** The mailbox cut at its first `[`, and the option text at the next `]`. */
  method SplitBox(user: string, box: string) returns (r: Result<Account, StoreFailure>)
    ensures r == SplitMailbox(user, box)
  {
    var mailbox, options := box, None;
    var index := IndexOf(box, '[');
    if index != -1 {
      var rest := box[index + 1..];
      var close := IndexOf(rest, ']');
      if close == -1 {
        return Err(UnterminatedOptions);
      }
      options := Some(rest[..close]);
      mailbox := box[..index];
    }
    r := Ok(Account(user, Some(mailbox), options));
  }

  /** The timeouts, the local address and the mailbox check, in that order. */
  method Settle(props: Properties, server: string, account: Account, password: string,
                resolveAddress: string -> Option<string>) returns (r: Result<Settings, StoreFailure>)
    ensures r == ConnectionSettings(props, server, account, password, resolveAddress)
  {
    var timeout := -1;
    var timeoutString := Get(props, TIMEOUT_PROPERTY);
    if timeoutString.Some? {
      var parsed := ParseInt(timeoutString.value);
      if parsed.None? {
        return Err(InvalidTimeout(timeoutString.value));
      }
      timeout := parsed.value;
    }
    var connectionTimeout := -1;
    timeoutString := Get(props, CONNECTION_TIMEOUT_PROPERTY);
    if timeoutString.Some? {
      var parsed := ParseInt(timeoutString.value);
      if parsed.None? {
        return Err(InvalidConnectionTimeout(timeoutString.value));
      }
      connectionTimeout := parsed.value;
    }
    var localAddress: Option<string> := None;
    var localAddressString := Get(props, LOCAL_ADDRESS_PROPERTY);
    if localAddressString.Some? {
      localAddress := resolveAddress(localAddressString.value);
      if localAddress.None? {
        return Err(InvalidLocalAddress(localAddressString.value));
      }
    }
    if account.mailbox.None? {
      return Err(NoMailbox);
    }
    r := Ok(Settings(server, account.mailbox.value, account.username, password, timeout, connectionTimeout, localAddress));
  }

  class ExchangeStore {
    /** The `Service` connected flag, which `connect` sets when `protocolConnect` returns `true`. */
    var serviceConnected: bool
    var connection: Connection.ExchangeConnection?
    var unfiltered: bool
    var delete: bool
    var limit: int

    constructor()
      ensures !serviceConnected && connection == null
      ensures !unfiltered && !delete && limit == 0
    {
      serviceConnected, connection := false, null;
      unfiltered, delete, limit := false, false, 0;
    }

    predicate IsConnected()
      reads this
    {
      serviceConnected
    }

    /** The flags as the store holds them. */
    function CurrentFlags(): Flags
      reads this
    {
      Flags(unfiltered, delete, limit)
    }

    /**
     * `protocolConnect`. `parseUrl` stands for `new URL(..)`, here of the host
     * and later in the connection's sign-on of the server string, and
     * `resolveAddress` for `InetAddress.getByName`, each `None` where they
     * throw; `net` is the server the new connection talks to.
     */
    method ProtocolConnect(host: Option<string>, port: int, username: Option<string>, password: Option<string>,
                           props: Properties, parseUrl: string -> Option<UrlParts>,
                           resolveAddress: string -> Option<string>, net: Network, allowedChars: array<bool>)
      returns (r: Result<bool, StoreFailure>)
      requires UrlEscape.IsAllowedTable(allowedChars)
      modifies this, net
      ensures serviceConnected == old(serviceConnected)
      ensures match Resolve(host, port, username, password, props, parseUrl, resolveAddress)
        case Missing =>
          && r == Ok(false) && CurrentFlags() == old(CurrentFlags())
          && connection == old(connection) && net.sent == old(net.sent)
        case Rejected(flags, e) =>
          && r == Err(e) && CurrentFlags() == flags
          && connection == old(connection) && net.sent == old(net.sent)
        case Resolved(flags, s) =>
          && CurrentFlags() == flags
          && connection != null && fresh(connection) && connection.Valid() && connection.net == net
          && connection.server == s.server && connection.mailbox == s.mailbox
          && connection.username == s.username && connection.password == s.password
          && connection.timeout == s.timeout && connection.connectionTimeout == s.connectionTimeout
          && connection.localAddress == s.localAddress
          && var t := Connection.SignOnRun(s.server, s.mailbox, s.username, s.password, parseUrl(s.server).Some?,
                                           net.respond, old(net.sent));
            && net.sent == old(net.sent) + t.requests
            && connection.inbox == Connection.ConnectedInbox(t)
            && r == (if t.outcome.Pass? then Ok(true) else Err(AuthenticationFailed))
    {
      var resolution := Configure(host, port, username, password, props, parseUrl, resolveAddress);
      match resolution
      case Missing =>
        return Ok(false);
      case Rejected(_, e) =>
        return Err(e);
      case Resolved(_, s) =>
        connection := new Connection.ExchangeConnection(s.server, s.mailbox, s.username, s.password, s.timeout,
                                                         s.connectionTimeout, s.localAddress,
                                                         u => parseUrl(u).Some?, net, allowedChars);
        var connected := connection.Connect();
        if connected.Fail? {
          return Err(AuthenticationFailed);
        }
        r := Ok(true);
    }

    /**
     * The steps of `protocolConnect` before the connection is created: the
     * flags are assigned as each step is reached, and the first failing step
     * ends it.
     */
    method Configure(host: Option<string>, port: int, username: Option<string>, password: Option<string>,
                     props: Properties, parseUrl: string -> Option<UrlParts>,
                     resolveAddress: string -> Option<string>) returns (outcome: Resolution)
      modifies this
      ensures outcome == Resolve(host, port, username, password, props, parseUrl, resolveAddress)
      ensures serviceConnected == old(serviceConnected) && connection == old(connection)
      ensures CurrentFlags() == if outcome.Missing? then old(CurrentFlags()) else outcome.flags
    {
      if host.None? || username.None? || password.None? {
        return Missing;
      }
      var flagsLoaded := LoadFlags(props);
      if flagsLoaded.Fail? {
        return Rejected(CurrentFlags(), flagsLoaded.error);
      }
      var server := ServerFor(host.value, port, ParseBoolean(Get(props, HTTPS_PROPERTY)),
                              parseUrl(host.value), Get(props, PORT_PROPERTY));
      var account := SplitAccount(username.value, Get(props, MAILBOX_PROPERTY));
      if account.Err? {
        return Rejected(CurrentFlags(), account.error);
      }
      var optionsApplied := ApplyOptions(account.value.options);
      if optionsApplied.Fail? {
        return Rejected(CurrentFlags(), optionsApplied.error);
      }
      var settings := Settle(props, server, account.value, password.value, resolveAddress);
      if settings.Err? {
        return Rejected(CurrentFlags(), settings.error);
      }
      outcome := Resolved(CurrentFlags(), settings.value);
    }

    /** The flags from the session properties; a limit that does not parse is refused. */
    method LoadFlags(props: Properties) returns (r: Outcome<StoreFailure>)
      modifies this
      ensures serviceConnected == old(serviceConnected) && connection == old(connection)
      ensures match PropertyFlags(props)
        case Ok(flags) => r == Pass && CurrentFlags() == flags
        case Err(flags) => r == Fail(InvalidLimit(Get(props, LIMIT_PROPERTY).value)) && CurrentFlags() == flags
    {
      unfiltered := ParseBoolean(Get(props, UNFILTERED_PROPERTY));
      delete := ParseBoolean(Get(props, DELETE_PROPERTY));
      limit := -1;
      var limitString := Get(props, LIMIT_PROPERTY);
      if limitString.Some? {
        var parsed := ParseInt(limitString.value);
        if parsed.None? {
          return Fail(InvalidLimit(limitString.value));
        }
        limit := parsed.value;
      }
      r := Pass;
    }

    /** The mailbox options, when there are any, are parsed and applied. */
    method ApplyOptions(options: Option<string>) returns (r: Outcome<StoreFailure>)
      modifies this
      ensures serviceConnected == old(serviceConnected) && connection == old(connection)
      ensures match OptionFlags(old(CurrentFlags()), options)
        case Ok(flags) => r == Pass && CurrentFlags() == flags
        case Err((flags, e)) => r == Fail(e) && CurrentFlags() == flags
    {
      r := Pass;
      if options.Some? {
        var table := ParseOptions(options.value);
        r := ApplyTable(table);
      }
    }

    /** The options override the flags they name; a limit that does not parse is refused. */
    method ApplyTable(table: Properties) returns (r: Outcome<StoreFailure>)
      modifies this
      ensures serviceConnected == old(serviceConnected) && connection == old(connection)
      ensures match TableFlags(old(CurrentFlags()), table)
        case Ok(flags) => r == Pass && CurrentFlags() == flags
        case Err((flags, e)) => r == Fail(e) && CurrentFlags() == flags
    {
      if "unfiltered" in table {
        unfiltered := ParseBoolean(Some(table["unfiltered"]));
      }
      if "delete" in table {
        delete := ParseBoolean(Some(table["delete"]));
      }
      if "limit" in table {
        var parsed := ParseInt(table["limit"]);
        if parsed.None? {
          return Fail(InvalidLimit(table["limit"]));
        }
        limit := parsed.value;
      }
      r := Pass;
    }

    /** `checkConnection`: refused unless connected. */
    method CheckConnection() returns (r: Outcome<StoreFailure>)
      ensures r.Pass? <==> IsConnected()
      ensures r.Fail? ==> r.error == NotConnected
    {
      if !IsConnected() {
        return Fail(NotConnected);
      }
      r := Pass;
    }

    /** `getFolder`: a folder of the given name over the store's connection. */
    method GetFolder(name: string) returns (r: Result<Folder, StoreFailure>)
      ensures IsConnected() ==> r == Ok(Folder(name, connection))
      ensures !IsConnected() ==> r == Err(NotConnected)
    {
      var checked := CheckConnection();
      if checked.Fail? {
        return Err(checked.error);
      }
      r := Ok(Folder(name, connection));
    }

    /** `getDefaultFolder`: the folder with the empty name. */
    method GetDefaultFolder() returns (r: Result<Folder, StoreFailure>)
      ensures IsConnected() ==> r == Ok(Folder("", connection))
      ensures !IsConnected() ==> r == Err(NotConnected)
    {
      r := GetFolder("");
    }
  }
}
