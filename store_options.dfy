/**
 * The configuration rules of `ExchangeStore.protocolConnect`: which session
 * properties and connect arguments win, how the server URL is formed, how a
 * `user:mailbox[name=value,...]` username is taken apart, and how the option
 * text becomes a `java.util.Properties` table.
 */
module StoreOptions {
  import opened Wrappers
  import opened JavaLang

  const MAILBOX_PROPERTY: string := "org.exjello.mail.mailbox"
  const UNFILTERED_PROPERTY: string := "org.exjello.mail.unfiltered"
  const DELETE_PROPERTY: string := "org.exjello.mail.delete"
  const LIMIT_PROPERTY: string := "org.exjello.mail.limit"
  const HTTPS_PROPERTY: string := "mail.pop3.ssl.enable"
  const PORT_PROPERTY: string := "mail.pop3.port"
  const TIMEOUT_PROPERTY: string := "mail.pop3.timeout"
  const CONNECTION_TIMEOUT_PROPERTY: string := "mail.pop3.connectiontimeout"
  const LOCAL_ADDRESS_PROPERTY: string := "mail.pop3.localaddress"

  const HTTP_PORT: int := 80
  const HTTPS_PORT: int := 443

  /** The exceptions `protocolConnect` and the folder accessors throw. */
  datatype StoreFailure =
    | InvalidLimit(text: string)
    | UnterminatedOptions            // `[` without a later `]`: substring(0, -1) throws
    | InvalidTimeout(text: string)
    | InvalidConnectionTimeout(text: string)
    | InvalidLocalAddress(text: string)
    | NoMailbox
    | AuthenticationFailed
    | NotConnected

  /** Session properties, and a `Properties` table built from options. */
  type Properties = map<string, string>

  /** `getProperty`: the value, or `None` for `null`. */
  function Get(props: Properties, key: string): Option<string>
  {
    if key in props then Some(props[key]) else None
  }

  /* ---------------- server, host and port ---------------- */

  /** What `java.net.URL` yields for a host given in URL form; `port` is -1 when it names none. */
  datatype UrlParts = UrlParts(protocol: string, host: string, port: int)

  datatype Endpoint = Endpoint(secure: bool, host: string, port: int)

  function DefaultPort(secure: bool): int
  {
    if secure then HTTPS_PORT else HTTP_PORT
  }

  /**
   * The scheme, host and port `protocolConnect` settles on: a URL-form host
   * decides the scheme and host and may name the port; otherwise the port
   * argument, then the port property (ignored if it does not parse), then
   * the scheme's default. -1 means "not given" at every stage.
   */
  function ResolveEndpoint(host: string, port: int, secure: bool, url: Option<UrlParts>,
                           portProperty: Option<string>): Endpoint
  {
    var secure := if url.Some? then EqualsIgnoreCase("https", url.value.protocol) else secure;
    var host := if url.Some? then url.value.host else host;
    var port := if url.Some? && url.value.port != -1 then url.value.port else port;
    var port :=
      if port != -1 then port
      else
        var fromProperty := if portProperty.Some? && ParseInt(portProperty.value).Some?
                            then ParseInt(portProperty.value).value else -1;
        if fromProperty != -1 then fromProperty else DefaultPort(secure);
    Endpoint(secure, host, port)
  }

  function SchemePrefix(secure: bool): string
  {
    if secure then "https://" else "http://"
  }

  /** The `server` string: scheme and host, with `:port` unless it is the scheme's default. */
  function ServerString(e: Endpoint): string
  {
    SchemePrefix(e.secure) + e.host + if e.port != DefaultPort(e.secure) then ":" + IntString(e.port) else ""
  }

  /** The port is resolved in the order URL, argument, property, default, and is never left at -1. */
  lemma PortPrecedence(host: string, port: int, secure: bool, url: Option<UrlParts>, portProperty: Option<string>)
    ensures var e := ResolveEndpoint(host, port, secure, url, portProperty);
      && e.port != -1
      && e.secure == (if url.Some? then EqualsIgnoreCase("https", url.value.protocol) else secure)
      && (url.Some? && url.value.port != -1 ==> e.port == url.value.port)
      && ((url.None? || url.value.port == -1) && port != -1 ==> e.port == port)
      && ((url.None? || url.value.port == -1) && port == -1 && portProperty.Some? ==>
            match ParseInt(portProperty.value)
            case Some(n) => e.port == (if n != -1 then n else DefaultPort(e.secure))
            case None => e.port == DefaultPort(e.secure))
      && ((url.None? || url.value.port == -1) && port == -1 && portProperty.None? ==> e.port == DefaultPort(e.secure))
  {
  }

  /** The server string starts with its scheme and host, and the scheme is `https` exactly when secure. */
  lemma ServerStringScheme(e: Endpoint)
    ensures SchemePrefix(e.secure) + e.host <= ServerString(e)
    ensures ServerString(e)[..5] == "https" <==> e.secure
  {
    var server := ServerString(e);
    assert server == SchemePrefix(e.secure) + (e.host + if e.port != DefaultPort(e.secure) then ":" + IntString(e.port) else "");
    assert server[..5] == SchemePrefix(e.secure)[..5];
    if !e.secure {
      assert server[..5][4] == ':' != "https"[4];
    }
  }

  /**
   * After the scheme and host comes a port suffix exactly when the port is
   * not the scheme's default, and that suffix parses back to the port.
   */
  lemma ServerStringPort(e: Endpoint)
    requires INT_MIN <= e.port <= INT_MAX
    ensures ServerString(e) == SchemePrefix(e.secure) + e.host <==> e.port == DefaultPort(e.secure)
    ensures var head := SchemePrefix(e.secure) + e.host;
      ServerString(e) != head ==>
        |ServerString(e)| > |head| + 1 && ServerString(e)[|head|] == ':' && ParseInt(ServerString(e)[|head| + 1..]) == Some(e.port)
  {
    var head := SchemePrefix(e.secure) + e.host;
    var server := ServerString(e);
    if e.port != DefaultPort(e.secure) {
      assert server == head + (":" + IntString(e.port));
      assert server[|head| + 1..] == IntString(e.port);
      ParseIntString(e.port);
    } else {
      assert server == head + "";
    }
  }

  /* ---------------- username and mailbox ---------------- */

  /** The username and mailbox a connect uses, with the option text if any. */
  datatype Account = Account(username: string, mailbox: Option<string>, options: Option<string>)

  /**
   * `s.indexOf(c)` with the two `substring`s around it: the text before the
   * first `c` and the text after it, or `None` when `c` is absent.
   */
  function CutAt(s: string, c: char): (r: Option<(string, string)>)
    ensures r.None? <==> c !in s
    ensures r.Some? ==> s == r.value.0 + [c] + r.value.1 && c !in r.value.0
  {
    var i := IndexOf(s, c);
    if i == -1 then None
    else
      assert forall k :: 0 <= k < i ==> s[..i][k] == s[k];
      assert s == s[..i] + [c] + s[i + 1..];
      Some((s[..i], s[i + 1..]))
  }

  /** Cutting a text built around its first `c` gives the two sides back. */
  lemma CutAtFirst(before: string, c: char, after: string)
    requires c !in before
    ensures CutAt(before + [c] + after, c) == Some((before, after))
  {
    var s := before + [c] + after;
    var r := CutAt(s, c);
    assert s[|before|] == c;
    var b', a' := r.value.0, r.value.1;
    assert b' == s[..|before|] == before;
    assert a' == s[|before| + 1..] == after;
  }

  /**
   * A username `user:mailbox` names the mailbox after the first `:`; a `[`
   * in the mailbox starts the option text, which ends at the next `]`.
   * Without a `:` the mailbox property applies.
   */
  function SplitUsername(username: string, mailboxProperty: Option<string>): Result<Account, StoreFailure>
  {
    match CutAt(username, ':')
    case None => Ok(Account(username, mailboxProperty, None))
    case Some((user, box)) => SplitMailbox(user, box)
  }

  /** The mailbox after the `:`, with the option text between `[` and the next `]` cut out. */
  function SplitMailbox(user: string, box: string): Result<Account, StoreFailure>
  {
    match CutAt(box, '[')
    case None => Ok(Account(user, Some(box), None))
    case Some((mailbox, rest)) =>
      match CutAt(rest, ']')
      case None => Err(UnterminatedOptions)
      case Some((options, _)) => Ok(Account(user, Some(mailbox), Some(options)))
  }

  /**
   * The parts are cut at the first `:`, the first `[` after it and the first
   * `]` after that; any text after the `]` is dropped.
   */
  lemma SplitUsernameParts(username: string, mailboxProperty: Option<string>, a: Account)
    requires SplitUsername(username, mailboxProperty) == Ok(a)
    ensures ':' !in username ==> a == Account(username, mailboxProperty, None)
    ensures ':' in username ==> a.mailbox.Some? && ':' !in a.username && '[' !in a.mailbox.value
    ensures ':' in username && a.options.None? ==> username == a.username + ":" + a.mailbox.value
    ensures ':' in username && a.options.Some? ==>
      && ']' !in a.options.value
      && exists dropped :: username == a.username + ":" + (a.mailbox.value + "[" + a.options.value + "]" + dropped)
  {
    if ':' in username {
      var box := CutAt(username, ':').value.1;
      if '[' in box {
        var (mailbox, rest) := CutAt(box, '[').value;
        var (options, dropped) := CutAt(rest, ']').value;
        assert a == Account(a.username, Some(mailbox), Some(options));
        BracketAssoc(mailbox, options, dropped);
      }
    }
  }

  lemma BracketAssoc(mailbox: string, options: string, dropped: string)
    ensures mailbox + "[" + (options + "]" + dropped) == mailbox + "[" + options + "]" + dropped
  {
  }

  /** Splitting a username composed from parts gives the parts back. */
  lemma SplitUsernameComposed(user: string, mailbox: string, options: string, dropped: string,
                              mailboxProperty: Option<string>)
    requires ':' !in user && '[' !in mailbox && ']' !in options
    ensures SplitUsername(user + ":" + (mailbox + "[" + options + "]" + dropped), mailboxProperty)
         == Ok(Account(user, Some(mailbox), Some(options)))
  {
    CutAtFirst(user, ':', mailbox + "[" + options + "]" + dropped);
    assert mailbox + "[" + options + "]" + dropped == mailbox + ['['] + (options + "]" + dropped);
    CutAtFirst(mailbox, '[', options + "]" + dropped);
    CutAtFirst(options, ']', dropped);
  }

  /** Splitting fails only on a `[` with no `]` after it, and then with that error. */
  lemma SplitUsernameFails(username: string, mailboxProperty: Option<string>)
    requires SplitUsername(username, mailboxProperty).Err?
    ensures SplitUsername(username, mailboxProperty).error == UnterminatedOptions
    ensures exists user, mailbox, rest :: username == user + ":" + (mailbox + "[" + rest)
              && ':' !in user && '[' !in mailbox && ']' !in rest
  {
    var (user, box) := CutAt(username, ':').value;
    var (mailbox, rest) := CutAt(box, '[').value;
    assert username == user + ":" + (mailbox + "[" + rest);
  }

  /** A `[` with no `]` after it in the mailbox part is refused. */
  lemma SplitUsernameUnterminated(user: string, mailbox: string, rest: string, mailboxProperty: Option<string>)
    requires ':' !in user && '[' !in mailbox && ']' !in rest
    ensures SplitUsername(user + ":" + (mailbox + "[" + rest), mailboxProperty) == Err(UnterminatedOptions)
  {
    CutAtFirst(user, ':', mailbox + "[" + rest);
    CutAtFirst(mailbox, '[', rest);
  }

  /* ---------------- parseOptions ---------------- */

  const OPTION_SEPARATORS: set<char> := {',', ';'}

  const LINE_TERMINATORS: set<char> := {'\n', '\r'}

  /** `s` cut at every character in `seps`, keeping empty pieces. */
  function Pieces(s: string, seps: set<char>): (pieces: seq<string>)
    ensures |pieces| >= 1
  {
    if s == [] then [""]
    else
      var init := Pieces(s[..|s| - 1], seps);
      var c := s[|s| - 1];
      if c in seps then init + [""] else init[..|init| - 1] + [init[|init| - 1] + [c]]
  }

  function DropTrailingEmpty(pieces: seq<string>): seq<string>
  {
    if pieces == [] || pieces[|pieces| - 1] != "" then pieces
    else DropTrailingEmpty(pieces[..|pieces| - 1])
  }

  /**
   * `options.split("[,;]")`: the pieces between separators with trailing
   * empty ones removed; the empty string gives one empty piece.
   */
  function SplitOptions(options: string): seq<string>
  {
    if options == "" then [""] else DropTrailingEmpty(Pieces(options, OPTION_SEPARATORS))
  }

  /** The pieces joined with `c` in between. */
  function Join(pieces: seq<string>, c: char): string
  {
    if pieces == [] then ""
    else if |pieces| == 1 then pieces[0]
    else Join(pieces[..|pieces| - 1], c) + [c] + pieces[|pieces| - 1]
  }

  /** No piece holds a separator. */
  lemma {:induction false} PiecesClean(s: string, seps: set<char>)
    ensures forall k :: 0 <= k < |Pieces(s, seps)| ==> forall j :: 0 <= j < |Pieces(s, seps)[k]| ==> Pieces(s, seps)[k][j] !in seps
  {
    if s != [] {
      PiecesClean(s[..|s| - 1], seps);
    }
  }

  /** Joining the pieces with the one separator `s` uses restores it. */
  lemma {:induction false} PiecesJoin(s: string, seps: set<char>, c: char)
    requires forall k :: 0 <= k < |s| ==> (s[k] in seps <==> s[k] == c)
    ensures Join(Pieces(s, seps), c) == s
  {
    if s != [] {
      var init := s[..|s| - 1];
      var x := s[|s| - 1];
      PiecesJoin(init, seps, c);
      var p := Pieces(init, seps);
      assert init + [x] == s;
      if x !in seps {
        var q := p[..|p| - 1] + [p[|p| - 1] + [x]];
        assert Pieces(s, seps) == q;
        if |p| == 1 {
          assert Join(q, c) == p[0] + [x];
        } else {
          assert q[..|q| - 1] == p[..|p| - 1];
          assert Join(q, c) == Join(p[..|p| - 1], c) + [c] + (p[|p| - 1] + [x]);
        }
      } else {
        var q := p + [""];
        assert Pieces(s, seps) == q;
        assert q[..|q| - 1] == p;
        assert Join(q, c) == Join(p, c) + [c] + "";
      }
    }
  }

  /** Only empty pieces are dropped, and only from the end. */
  lemma {:induction false} DropTrailingEmptyPrefix(pieces: seq<string>)
    ensures var kept := DropTrailingEmpty(pieces);
      && kept <= pieces
      && (kept == [] || kept[|kept| - 1] != "")
      && forall k :: |kept| <= k < |pieces| ==> pieces[k] == ""
  {
    if pieces != [] && pieces[|pieces| - 1] == "" {
      DropTrailingEmptyPrefix(pieces[..|pieces| - 1]);
    }
  }

  /** The collector text: each piece on a line of its own. */
  function OptionText(pieces: seq<string>): string
  {
    if pieces == [] then "" else OptionText(pieces[..|pieces| - 1]) + pieces[|pieces| - 1] + "\n"
  }

  /** `getBytes("ISO-8859-1")` read back as characters: anything beyond Latin-1 becomes `?`. */
  function Latin1(s: string): (r: string)
    ensures |r| == |s|
    ensures forall k :: 0 <= k < |s| ==> r[k] == if s[k] as int < 256 then s[k] else '?'
  {
    seq(|s|, k requires 0 <= k < |s| => if s[k] as int < 256 then s[k] else '?')
  }

  /* ---------------- Properties.load ---------------- */

  predicate IsBlank(c: char) { c == ' ' || c == '\t' || c == 12 as char }

  function SkipBlanks(s: string): (r: string)
    ensures |r| <= |s| && r == s[|s| - |r|..] && (r == [] || !IsBlank(r[0]))
  {
    if s != [] && IsBlank(s[0]) then SkipBlanks(s[1..]) else s
  }

  predicate EndsKey(c: char) { c == '=' || c == ':' || IsBlank(c) }

  /** The length of the key: up to the first `=`, `:` or blank. */
  function KeyLength(s: string): (n: nat)
    ensures n <= |s| && (n < |s| ==> EndsKey(s[n]))
    ensures forall k :: 0 <= k < n ==> !EndsKey(s[k])
  {
    if s == [] || EndsKey(s[0]) then 0 else 1 + KeyLength(s[1..])
  }

  /** The value after the key terminator: blanks skipped, and one `=` or `:` if none was seen. */
  function ValueText(s: string, hasSeparator: bool): string
  {
    if s == [] then ""
    else if IsBlank(s[0]) then ValueText(s[1..], hasSeparator)
    else if !hasSeparator && (s[0] == '=' || s[0] == ':') then ValueText(s[1..], true)
    else s
  }

  /** One natural line: a key and value, or `None` for a blank or comment line. */
  function ParseLine(line: string): Option<(string, string)>
  {
    var body := SkipBlanks(line);
    if body == [] || body[0] == '#' || body[0] == '!' then None
    else
      var n := KeyLength(body);
      var rest := body[n..];
      var hasSeparator := rest != [] && (rest[0] == '=' || rest[0] == ':');
      Some((body[..n], ValueText(if rest == [] then [] else rest[1..], hasSeparator)))
  }

  /** The table the parsed lines produce; a later entry for the same key wins. */
  function LoadEntries(entries: seq<Option<(string, string)>>): Properties
  {
    if entries == [] then map[]
    else
      var table := LoadEntries(entries[..|entries| - 1]);
      match entries[|entries| - 1]
      case None => table
      case Some(entry) => table[entry.0 := entry.1]
  }

  function ParsedLines(lines: seq<string>): (entries: seq<Option<(string, string)>>)
    ensures |entries| == |lines|
    ensures forall k :: 0 <= k < |lines| ==> entries[k] == ParseLine(lines[k])
  {
    seq(|lines|, k requires 0 <= k < |lines| => ParseLine(lines[k]))
  }

  /** `Properties.load` over Latin-1 text. */
  function LoadProperties(text: string): Properties
  {
    LoadEntries(ParsedLines(Pieces(text, LINE_TERMINATORS)))
  }

  /** What `parseOptions` returns for the option text. */
  function OptionProperties(options: string): Properties
  {
    LoadProperties(Latin1(OptionText(SplitOptions(options))))
  }

  /** A `key=value` line reads back as that key and value. */
  lemma ParseLineKeyValue(key: string, value: string)
    requires key != [] && key[0] != '#' && key[0] != '!'
    requires forall k :: 0 <= k < |key| ==> !EndsKey(key[k])
    requires value == [] || !IsBlank(value[0])
    ensures ParseLine(key + "=" + value) == Some((key, value))
  {
    var line := key + ("=" + value);
    assert line == key + "=" + value;
    assert line[0] == key[0] && !IsBlank(line[0]);
    assert SkipBlanks(line) == line;
    KeyLengthOf(key, "=" + value);
    assert line[..|key|] == key;
    var rest := line[|key|..];
    assert rest == "=" + value;
    assert rest[1..] == value;
    assert ValueText(value, true) == value;
  }

  lemma {:induction false} KeyLengthOf(key: string, rest: string)
    requires forall k :: 0 <= k < |key| ==> !EndsKey(key[k])
    requires rest != [] && EndsKey(rest[0])
    ensures KeyLength(key + rest) == |key|
  {
    if key != [] {
      assert (key + rest)[1..] == key[1..] + rest;
      KeyLengthOf(key[1..], rest);
    }
  }

  predicate Names(entry: Option<(string, string)>, key: string)
  {
    entry.Some? && entry.value.0 == key
  }

  /**
   * A key is in the table exactly when some line defines it, and its value
   * comes from the last such line.
   */
  lemma {:induction false} LoadEntriesLookup(entries: seq<Option<(string, string)>>, key: string)
    ensures key in LoadEntries(entries) <==> exists i :: 0 <= i < |entries| && Names(entries[i], key)
    ensures key in LoadEntries(entries) ==>
      exists i :: 0 <= i < |entries| && entries[i] == Some((key, LoadEntries(entries)[key]))
        && forall j :: i < j < |entries| ==> !Names(entries[j], key)
  {
    if entries != [] {
      var n := |entries| - 1;
      var init := entries[..n];
      LoadEntriesLookup(init, key);
      assert forall i :: 0 <= i < n ==> entries[i] == init[i];
      if Names(entries[n], key) {
        assert entries[n] == Some((key, LoadEntries(entries)[key]));
      } else if key in LoadEntries(entries) {
        var i :| 0 <= i < |init| && init[i] == Some((key, LoadEntries(init)[key]))
          && forall j :: i < j < |init| ==> !Names(init[j], key);
        assert entries[i] == Some((key, LoadEntries(entries)[key]));
      }
    }
  }

  lemma OptionTextExample()
    ensures OptionText(["unfiltered=true", "limit=10"]) == "unfiltered=true\nlimit=10\n"
  {
    assert ["unfiltered=true", "limit=10"][..1] == ["unfiltered=true"];
  }

  /** No character of `p` is in `seps`. */
  predicate Clean(p: string, seps: set<char>)
  {
    forall j :: 0 <= j < |p| ==> p[j] !in seps
  }

  /** A text without separators is one piece. */
  lemma {:induction false} PiecesOfClean(p: string, seps: set<char>)
    requires Clean(p, seps)
    ensures Pieces(p, seps) == [p]
  {
    if p != [] {
      PiecesOfClean(p[..|p| - 1], seps);
      assert p[..|p| - 1] + [p[|p| - 1]] == p;
    }
  }

  /** A separator followed by a clean text adds that text as one more piece. */
  lemma {:induction false} PiecesAppendPiece(s: string, c: char, p: string, seps: set<char>)
    requires c in seps && Clean(p, seps)
    ensures Pieces(s + [c] + p, seps) == Pieces(s, seps) + [p]
  {
    if p == [] {
      assert s + [c] + p == s + [c];
      assert (s + [c])[..|s|] == s;
    } else {
      var init := p[..|p| - 1];
      var x := p[|p| - 1];
      PiecesAppendPiece(s, c, init, seps);
      var t := s + [c] + p;
      assert t[..|t| - 1] == s + [c] + init;
      assert t[|t| - 1] == x && x !in seps;
      var q := Pieces(s, seps) + [init];
      assert Pieces(t, seps) == q[..|q| - 1] + [q[|q| - 1] + [x]];
      assert q[..|q| - 1] == Pieces(s, seps);
      assert init + [x] == p;
    }
  }

  /** Cutting clean pieces joined with a separator gives the pieces back. */
  lemma {:induction false} PiecesOfJoin(pieces: seq<string>, seps: set<char>, c: char)
    requires |pieces| >= 1 && c in seps
    requires forall k :: 0 <= k < |pieces| ==> Clean(pieces[k], seps)
    ensures Pieces(Join(pieces, c), seps) == pieces
  {
    if |pieces| == 1 {
      PiecesOfClean(pieces[0], seps);
    } else {
      var init := pieces[..|pieces| - 1];
      PiecesOfJoin(init, seps, c);
      PiecesAppendPiece(Join(init, c), c, pieces[|pieces| - 1], seps);
      assert init + [pieces[|pieces| - 1]] == pieces;
    }
  }

  /**
   * `split("[,;]")` inverts joining with `,`: pieces free of separators,
   * the last one not empty, come back as they were.
   */
  lemma SplitOptionsJoin(pieces: seq<string>)
    requires |pieces| >= 1 && pieces[|pieces| - 1] != ""
    requires forall k :: 0 <= k < |pieces| ==> Clean(pieces[k], OPTION_SEPARATORS)
    ensures SplitOptions(Join(pieces, ',')) == pieces
  {
    PiecesOfJoin(pieces, OPTION_SEPARATORS, ',');
    var text := Join(pieces, ',');
    if text == "" {
      assert Pieces(text, OPTION_SEPARATORS) == [""];
    }
  }

  /** The collector text is the pieces joined with line ends, plus a final one. */
  lemma {:induction false} OptionTextJoin(pieces: seq<string>)
    requires |pieces| >= 1
    ensures OptionText(pieces) == Join(pieces + [""], '\n')
  {
    var init := pieces[..|pieces| - 1];
    assert (pieces + [""])[..|pieces|] == pieces;
    if |pieces| > 1 {
      OptionTextJoin(init);
      assert (init + [""])[..|init|] == init;
    } else {
      assert OptionText(pieces) == OptionText([]) + pieces[0] + "\n";
    }
  }

  /** Text of Latin-1 pieces stays Latin-1 in the collector. */
  lemma {:induction false} OptionTextLatin1(pieces: seq<string>)
    requires forall k, j :: 0 <= k < |pieces| && 0 <= j < |pieces[k]| ==> pieces[k][j] as int < 256
    ensures Latin1(OptionText(pieces)) == OptionText(pieces)
  {
    if pieces != [] {
      var init := pieces[..|pieces| - 1];
      OptionTextLatin1(init);
      var t := OptionText(pieces);
      assert t == OptionText(init) + pieces[|pieces| - 1] + "\n";
      assert forall k :: 0 <= k < |t| ==> t[k] as int < 256 by {
        forall k | 0 <= k < |t|
          ensures t[k] as int < 256
        {
          if k < |OptionText(init)| {
            assert t[k] == Latin1(OptionText(init))[k];
          }
        }
      }
    }
  }

  /** The lines `Properties.load` sees for options joined with `,`: one per piece, then an empty one. */
  lemma OptionLines(pieces: seq<string>)
    requires |pieces| >= 1 && pieces[|pieces| - 1] != ""
    requires forall k :: 0 <= k < |pieces| ==> Clean(pieces[k], OPTION_SEPARATORS + LINE_TERMINATORS)
    requires forall k, j :: 0 <= k < |pieces| && 0 <= j < |pieces[k]| ==> pieces[k][j] as int < 256
    ensures Pieces(Latin1(OptionText(SplitOptions(Join(pieces, ',')))), LINE_TERMINATORS) == pieces + [""]
  {
    assert forall k :: 0 <= k < |pieces| ==> Clean(pieces[k], OPTION_SEPARATORS);
    SplitOptionsJoin(pieces);
    OptionTextLatin1(pieces);
    OptionTextJoin(pieces);
    var lines := pieces + [""];
    assert forall k :: 0 <= k < |lines| ==> Clean(lines[k], LINE_TERMINATORS);
    PiecesOfJoin(lines, LINE_TERMINATORS, '\n');
  }

  /** A trailing empty line adds nothing to the table. */
  lemma LoadTrailingEmpty(lines: seq<string>)
    ensures LoadEntries(ParsedLines(lines + [""])) == LoadEntries(ParsedLines(lines))
  {
    var entries := ParsedLines(lines + [""]);
    assert entries[..|lines|] == ParsedLines(lines);
    assert entries[|lines|] == None;
  }

  /**
   * Options written as `name=value` pieces joined with `,` load to the table
   * of those lines: each piece is one line of its own.
   */
  lemma OptionPropertiesOfJoin(pieces: seq<string>)
    requires |pieces| >= 1 && pieces[|pieces| - 1] != ""
    requires forall k :: 0 <= k < |pieces| ==> Clean(pieces[k], OPTION_SEPARATORS + LINE_TERMINATORS)
    requires forall k, j :: 0 <= k < |pieces| && 0 <= j < |pieces[k]| ==> pieces[k][j] as int < 256
    ensures OptionProperties(Join(pieces, ',')) == LoadEntries(ParsedLines(pieces))
  {
    OptionLines(pieces);
    LoadTrailingEmpty(pieces);
  }

  /** A piece that can be a key: not a comment, and nothing in it ends a key. */
  predicate PlainKey(key: string)
  {
    key != [] && key[0] != '#' && key[0] != '!' && forall k :: 0 <= k < |key| ==> !EndsKey(key[k])
  }

  /** Text that survives the option split and the Latin-1 encoding as it is. */
  predicate PlainText(s: string)
  {
    forall k :: 0 <= k < |s| ==> s[k] !in OPTION_SEPARATORS + LINE_TERMINATORS && s[k] as int < 256
  }

  /** Two lines that each define a key load to a table of those two. */
  lemma LoadTwoLines(p1: string, p2: string, k1: string, v1: string, k2: string, v2: string)
    requires ParseLine(p1) == Some((k1, v1)) && ParseLine(p2) == Some((k2, v2))
    ensures LoadEntries(ParsedLines([p1, p2])) == map[k1 := v1, k2 := v2]
  {
    var entries := ParsedLines([p1, p2]);
    assert entries == [Some((k1, v1)), Some((k2, v2))];
    assert entries[..1] == [Some((k1, v1))];
    assert entries[..1][..0] == [];
    assert LoadEntries(entries[..1]) == LoadEntries([])[k1 := v1];
    assert LoadEntries(entries) == LoadEntries(entries[..1])[k2 := v2];
  }

  /** `key=value` is plain text when its key and value are. */
  lemma PlainPiece(key: string, value: string)
    requires PlainText(key) && PlainText(value)
    ensures Clean(key + "=" + value, OPTION_SEPARATORS + LINE_TERMINATORS)
    ensures forall j :: 0 <= j < |key + "=" + value| ==> (key + "=" + value)[j] as int < 256
  {
    var p := key + "=" + value;
    assert forall j :: 0 <= j < |p| ==>
      (j < |key| && p[j] == key[j]) || p[j] == '=' || (|key| < j && p[j] == value[j - |key| - 1]);
  }

  /**
   * Options `k1=v1,k2=v2` give exactly those two names, the second value
   * winning when the names are the same.
   */
  lemma OptionPropertiesTwo(k1: string, v1: string, k2: string, v2: string)
    requires PlainKey(k1) && PlainKey(k2)
    requires PlainText(k1) && PlainText(v1) && PlainText(k2) && PlainText(v2)
    requires (v1 == [] || !IsBlank(v1[0])) && (v2 == [] || !IsBlank(v2[0]))
    ensures OptionProperties(k1 + "=" + v1 + "," + k2 + "=" + v2) == map[k1 := v1, k2 := v2]
  {
    var p1, p2 := k1 + "=" + v1, k2 + "=" + v2;
    var pieces := [p1, p2];
    PlainPiece(k1, v1);
    PlainPiece(k2, v2);
    assert Join(pieces, ',') == p1 + [','] + p2 by {
      assert pieces[..1] == [p1];
    }
    assert k1 + "=" + v1 + "," + k2 + "=" + v2 == p1 + [','] + p2;
    OptionPropertiesOfJoin(pieces);
    ParseLineKeyValue(k1, v1);
    ParseLineKeyValue(k2, v2);
    LoadTwoLines(p1, p2, k1, v1, k2, v2);
  }

  /* ---------------- protocolConnect ---------------- */

  /** The store fields `unfiltered`, `delete` and `limit`. */
  datatype Flags = Flags(unfiltered: bool, delete: bool, limit: int)

  /** What the store hands to the new connection. */
  datatype Settings = Settings(server: string, mailbox: string, username: string, password: string,
                               timeout: int, connectionTimeout: int, localAddress: Option<string>)

  /**
   * The outcome of the checks before the connection is created: `false`
   * for a missing argument, an exception with the flags as far as they were
   * assigned, or the settings to connect with.
   */
  datatype Resolution =
    | Missing
    | Rejected(flags: Flags, error: StoreFailure)
    | Resolved(flags: Flags, settings: Settings)

  /** An integer setting: -1 when absent, the error when it does not parse. */
  function IntSetting(text: Option<string>, error: string -> StoreFailure): Result<int, StoreFailure>
  {
    if text.None? then Ok(-1)
    else match ParseInt(text.value)
      case Some(n) => Ok(n)
      case None => Err(error(text.value))
  }

  /** `unfiltered` and `delete` after the mailbox options that name them. */
  function OverrideBooleans(flags: Flags, options: Properties): Flags
  {
    flags.(unfiltered := if "unfiltered" in options then ParseBoolean(Some(options["unfiltered"])) else flags.unfiltered,
           delete := if "delete" in options then ParseBoolean(Some(options["delete"])) else flags.delete)
  }

  /** The flags from the session properties, before the mailbox options. */
  function PropertyFlags(props: Properties): Result<Flags, Flags>
  {
    var flags := Flags(ParseBoolean(Get(props, UNFILTERED_PROPERTY)), ParseBoolean(Get(props, DELETE_PROPERTY)), -1);
    match IntSetting(Get(props, LIMIT_PROPERTY), t => InvalidLimit(t))
    case Err(_) => Err(flags)
    case Ok(limit) => Ok(flags.(limit := limit))
  }

  /** The flags after a mailbox option table: each named flag overridden, a limit that does not parse refused. */
  function TableFlags(flags: Flags, table: Properties): Result<Flags, (Flags, StoreFailure)>
  {
    var flags := OverrideBooleans(flags, table);
    if "limit" !in table then Ok(flags)
    else match ParseInt(table["limit"])
      case Some(n) => Ok(flags.(limit := n))
      case None => Err((flags, InvalidLimit(table["limit"])))
  }

  /** The flags once the mailbox options (if any) are applied. */
  function OptionFlags(flags: Flags, options: Option<string>): Result<Flags, (Flags, StoreFailure)>
  {
    if options.None? then Ok(flags) else TableFlags(flags, OptionProperties(options.value))
  }

  /** The connection settings after the options: timeouts, local address and mailbox. */
  function ConnectionSettings(props: Properties, server: string, account: Account, password: string,
                              resolveAddress: string -> Option<string>): Result<Settings, StoreFailure>
  {
    match IntSetting(Get(props, TIMEOUT_PROPERTY), t => InvalidTimeout(t))
    case Err(e) => Err(e)
    case Ok(timeout) =>
      match IntSetting(Get(props, CONNECTION_TIMEOUT_PROPERTY), t => InvalidConnectionTimeout(t))
      case Err(e) => Err(e)
      case Ok(connectionTimeout) =>
        var addressText := Get(props, LOCAL_ADDRESS_PROPERTY);
        if addressText.Some? && resolveAddress(addressText.value).None? then Err(InvalidLocalAddress(addressText.value))
        else if account.mailbox.None? then Err(NoMailbox)
        else
          var localAddress := if addressText.Some? then resolveAddress(addressText.value) else None;
          Ok(Settings(server, account.mailbox.value, account.username, password, timeout, connectionTimeout, localAddress))
  }

  /**
   * The whole of `protocolConnect` before `new ExchangeConnection`:
   * `parseUrl` is `new URL(host)` and `resolveAddress` is
   * `InetAddress.getByName`.
   */
  function Resolve(host: Option<string>, port: int, username: Option<string>, password: Option<string>,
                   props: Properties, parseUrl: string -> Option<UrlParts>,
                   resolveAddress: string -> Option<string>): Resolution
  {
    if host.None? || username.None? || password.None? then Missing
    else
      match PropertyFlags(props)
      case Err(flags) => Rejected(flags, InvalidLimit(Get(props, LIMIT_PROPERTY).value))
      case Ok(flags) =>
        var endpoint := ResolveEndpoint(host.value, port, ParseBoolean(Get(props, HTTPS_PROPERTY)),
                                        parseUrl(host.value), Get(props, PORT_PROPERTY));
        match SplitUsername(username.value, Get(props, MAILBOX_PROPERTY))
        case Err(e) => Rejected(flags, e)
        case Ok(account) =>
          match OptionFlags(flags, account.options)
          case Err((flags, e)) => Rejected(flags, e)
          case Ok(flags) =>
            match ConnectionSettings(props, ServerString(endpoint), account, password.value, resolveAddress)
            case Err(e) => Rejected(flags, e)
            case Ok(settings) => Resolved(flags, settings)
  }

  /** A missing host, username or password is the only way to get `false`. */
  lemma ResolveMissing(host: Option<string>, port: int, username: Option<string>, password: Option<string>,
                       props: Properties, parseUrl: string -> Option<UrlParts>, resolveAddress: string -> Option<string>)
    ensures Resolve(host, port, username, password, props, parseUrl, resolveAddress).Missing?
        <==> host.None? || username.None? || password.None?
  {
  }

  /** A limit property that is not an integer is rejected, whatever else is configured. */
  lemma ResolveInvalidLimit(host: string, port: int, username: string, password: string,
                            props: Properties, parseUrl: string -> Option<UrlParts>, resolveAddress: string -> Option<string>)
    requires LIMIT_PROPERTY in props && ParseInt(props[LIMIT_PROPERTY]).None?
    ensures Resolve(Some(host), port, Some(username), Some(password), props, parseUrl, resolveAddress)
         == Rejected(Flags(ParseBoolean(Get(props, UNFILTERED_PROPERTY)), ParseBoolean(Get(props, DELETE_PROPERTY)), -1),
                     InvalidLimit(props[LIMIT_PROPERTY]))
  {
  }

  /** A resolved connect went through every stage of `protocolConnect` without an error. */
  lemma ResolvedStages(host: Option<string>, port: int, username: Option<string>, password: Option<string>,
                       props: Properties, parseUrl: string -> Option<UrlParts>, resolveAddress: string -> Option<string>)
    requires Resolve(host, port, username, password, props, parseUrl, resolveAddress).Resolved?
    ensures host.Some? && username.Some? && password.Some?
    ensures PropertyFlags(props).Ok? && SplitUsername(username.value, Get(props, MAILBOX_PROPERTY)).Ok?
    ensures var r := Resolve(host, port, username, password, props, parseUrl, resolveAddress);
      var account := SplitUsername(username.value, Get(props, MAILBOX_PROPERTY)).value;
      && OptionFlags(PropertyFlags(props).value, account.options) == Ok(r.flags)
      && ConnectionSettings(props, r.settings.server, account, password.value, resolveAddress) == Ok(r.settings)
  {
  }

  /** The flags from the properties: the two booleans, and the limit or -1. */
  lemma PropertyFlagsValues(props: Properties, flags: Flags)
    requires PropertyFlags(props) == Ok(flags)
    ensures flags.unfiltered == ParseBoolean(Get(props, UNFILTERED_PROPERTY))
    ensures flags.delete == ParseBoolean(Get(props, DELETE_PROPERTY))
    ensures LIMIT_PROPERTY in props ==> Some(flags.limit) == ParseInt(props[LIMIT_PROPERTY])
    ensures LIMIT_PROPERTY !in props ==> flags.limit == -1
  {
  }

  /** A mailbox option overrides a flag exactly when it names that flag. */
  lemma OptionFlagsValues(before: Flags, options: Option<string>, flags: Flags)
    requires OptionFlags(before, options) == Ok(flags)
    ensures var table := if options.Some? then OptionProperties(options.value) else map[];
      && flags.unfiltered == (if "unfiltered" in table then ParseBoolean(Some(table["unfiltered"])) else before.unfiltered)
      && flags.delete == (if "delete" in table then ParseBoolean(Some(table["delete"])) else before.delete)
      && ("limit" in table ==> Some(flags.limit) == ParseInt(table["limit"]))
      && ("limit" !in table ==> flags.limit == before.limit)
  {
  }

  /**
   * Each flag comes from the mailbox option of its name when there is one,
   * and from the session property otherwise; the limit defaults to -1.
   */
  lemma ResolvedFlags(host: Option<string>, port: int, username: Option<string>, password: Option<string>,
                      props: Properties, parseUrl: string -> Option<UrlParts>, resolveAddress: string -> Option<string>)
    requires Resolve(host, port, username, password, props, parseUrl, resolveAddress).Resolved?
    ensures username.Some? && SplitUsername(username.value, Get(props, MAILBOX_PROPERTY)).Ok?
    ensures var r := Resolve(host, port, username, password, props, parseUrl, resolveAddress);
      var account := SplitUsername(username.value, Get(props, MAILBOX_PROPERTY)).value;
      var table := if account.options.Some? then OptionProperties(account.options.value) else map[];
      && r.flags.unfiltered == ParseBoolean(if "unfiltered" in table then Some(table["unfiltered"]) else Get(props, UNFILTERED_PROPERTY))
      && r.flags.delete == ParseBoolean(if "delete" in table then Some(table["delete"]) else Get(props, DELETE_PROPERTY))
      && ("limit" in table ==> Some(r.flags.limit) == ParseInt(table["limit"]))
      && ("limit" !in table && LIMIT_PROPERTY in props ==> Some(r.flags.limit) == ParseInt(props[LIMIT_PROPERTY]))
      && ("limit" !in table && LIMIT_PROPERTY !in props ==> r.flags.limit == -1)
  {
    ResolvedStages(host, port, username, password, props, parseUrl, resolveAddress);
    var r := Resolve(host, port, username, password, props, parseUrl, resolveAddress);
    var account := SplitUsername(username.value, Get(props, MAILBOX_PROPERTY)).value;
    PropertyFlagsValues(props, PropertyFlags(props).value);
    OptionFlagsValues(PropertyFlags(props).value, account.options, r.flags);
  }

  /** The settings carry the mailbox and username of the account, and the rest from the properties. */
  lemma ConnectionSettingsValues(props: Properties, server: string, account: Account, password: string,
                                 resolveAddress: string -> Option<string>, s: Settings)
    requires ConnectionSettings(props, server, account, password, resolveAddress) == Ok(s)
    ensures account.mailbox == Some(s.mailbox) && s.username == account.username && s.password == password
    ensures s.server == server
    ensures TIMEOUT_PROPERTY in props ==> ParseInt(props[TIMEOUT_PROPERTY]) == Some(s.timeout)
    ensures TIMEOUT_PROPERTY !in props ==> s.timeout == -1
    ensures CONNECTION_TIMEOUT_PROPERTY in props ==> ParseInt(props[CONNECTION_TIMEOUT_PROPERTY]) == Some(s.connectionTimeout)
    ensures CONNECTION_TIMEOUT_PROPERTY !in props ==> s.connectionTimeout == -1
    ensures LOCAL_ADDRESS_PROPERTY in props ==> s.localAddress.Some? && s.localAddress == resolveAddress(props[LOCAL_ADDRESS_PROPERTY])
    ensures LOCAL_ADDRESS_PROPERTY !in props ==> s.localAddress.None?
  {
  }

  /**
   * The connection's mailbox is the one named in the username when it has a
   * `:`, and the mailbox property otherwise; its username never holds a `:`
   * taken from a `user:mailbox` form.
   */
  lemma ResolvedMailbox(host: Option<string>, port: int, username: Option<string>, password: Option<string>,
                        props: Properties, parseUrl: string -> Option<UrlParts>, resolveAddress: string -> Option<string>)
    requires Resolve(host, port, username, password, props, parseUrl, resolveAddress).Resolved?
    ensures username.Some? && password.Some?
    ensures var s := Resolve(host, port, username, password, props, parseUrl, resolveAddress).settings;
      && (':' !in username.value ==> Get(props, MAILBOX_PROPERTY) == Some(s.mailbox) && s.username == username.value)
      && (':' in username.value ==> ':' !in s.username && '[' !in s.mailbox && s.username + ":" + s.mailbox <= username.value)
      && s.password == password.value
  {
    ResolvedStages(host, port, username, password, props, parseUrl, resolveAddress);
    var s := Resolve(host, port, username, password, props, parseUrl, resolveAddress).settings;
    var account := SplitUsername(username.value, Get(props, MAILBOX_PROPERTY)).value;
    ConnectionSettingsValues(props, s.server, account, password.value, resolveAddress, s);
    SplitUsernameParts(username.value, Get(props, MAILBOX_PROPERTY), account);
  }

  /** Without a mailbox from either source the connect is refused. */
  lemma ResolveNoMailbox(host: Option<string>, port: int, username: Option<string>, password: Option<string>,
                         props: Properties, parseUrl: string -> Option<UrlParts>, resolveAddress: string -> Option<string>)
    requires host.Some? && username.Some? && password.Some?
    requires ':' !in username.value && MAILBOX_PROPERTY !in props
    ensures !Resolve(host, port, username, password, props, parseUrl, resolveAddress).Resolved?
    ensures var r := Resolve(host, port, username, password, props, parseUrl, resolveAddress);
      r.Rejected? && r.error.NoMailbox? ==>
        && IntSetting(Get(props, TIMEOUT_PROPERTY), t => InvalidTimeout(t)).Ok?
        && IntSetting(Get(props, CONNECTION_TIMEOUT_PROPERTY), t => InvalidConnectionTimeout(t)).Ok?
  {
  }

  /** The settings' timeouts are the parsed properties, or -1 when unset. */
  lemma ResolvedTimeouts(host: Option<string>, port: int, username: Option<string>, password: Option<string>,
                         props: Properties, parseUrl: string -> Option<UrlParts>, resolveAddress: string -> Option<string>)
    requires Resolve(host, port, username, password, props, parseUrl, resolveAddress).Resolved?
    ensures var s := Resolve(host, port, username, password, props, parseUrl, resolveAddress).settings;
      && (TIMEOUT_PROPERTY in props ==> ParseInt(props[TIMEOUT_PROPERTY]) == Some(s.timeout))
      && (TIMEOUT_PROPERTY !in props ==> s.timeout == -1)
      && (CONNECTION_TIMEOUT_PROPERTY in props ==> ParseInt(props[CONNECTION_TIMEOUT_PROPERTY]) == Some(s.connectionTimeout))
      && (CONNECTION_TIMEOUT_PROPERTY !in props ==> s.connectionTimeout == -1)
      && (LOCAL_ADDRESS_PROPERTY in props ==> s.localAddress.Some? && s.localAddress == resolveAddress(props[LOCAL_ADDRESS_PROPERTY]))
      && (LOCAL_ADDRESS_PROPERTY !in props ==> s.localAddress.None?)
  {
    ResolvedStages(host, port, username, password, props, parseUrl, resolveAddress);
    var s := Resolve(host, port, username, password, props, parseUrl, resolveAddress).settings;
    var account := SplitUsername(username.value, Get(props, MAILBOX_PROPERTY)).value;
    ConnectionSettingsValues(props, s.server, account, password.value, resolveAddress, s);
  }
}
