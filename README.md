# exjello in Dafny

exjello lets a JavaMail client read and send mail through a Microsoft
Exchange server's WebDAV interface, presenting it as a POP3 store and an SMTP
transport. This project models three of its classes and proves properties of
the model:

- `ExchangeConnection`, the WebDAV session. It covers the URL escaper and
  its `ALLOWED_CHARS`/`HEXABET` tables, and the sign-on sequence
  (`OPTIONS` probe, form `POST` fallback, `PROPFIND` for the inbox). It also
  covers the two SAX handlers, the guarded mailbox operations (`SEARCH`,
  `BDELETE`, `BPROPPATCH`, `GET`) and their status checks, and the lazily made
  HTTP client.
- `ExchangeTransport`, the SMTP side. `sendMessage` rewrites the To/Cc/Bcc
  headers against the envelope. The class also has the connection flag.
- `ExchangeStore`, the POP3 side. `protocolConnect` resolves the server
  string, port, username, mailbox, mailbox options, flags, timeouts and local
  address, then creates and connects the `ExchangeConnection`. The store
  also has `parseOptions` and the folder accessors.

The server is an oracle. A `Network` object holds the requests sent so far
and a fixed function from that history and a request to a reply: a status,
the SAX events the body parses to, or a transport error. Every operation
that talks to the server is a method whose contract is a trace function: the
requests it appends to `net.sent`, its result and the state it leaves. The
properties are lemmas about those trace functions. Request bodies are
abstract element trees whose SAX events the handlers read.

Files and modules:

- `wrappers.dfy`: `Option`, `Result` and `Outcome`.
- `java_lang.dfy`: the `Integer.parseInt`/`toString`, `Boolean.parseBoolean`,
  `indexOf`/`lastIndexOf` and UTF-16 behaviour the code relies on.
- `url_escape.dfy`: `escape`.
- `http.dfy`: requests, replies, SAX events, the network and the HTTP client.
- `sax_text.dfy`: what the two handlers compute over an event stream.
- `dav_requests.dfy`: the requests and bodies each operation sends.
- `connection.dfy`: `ExchangeConnection` and its handlers.
- `transport.dfy`: `ExchangeTransport`.
- `store_options.dfy`: the configuration rules of `protocolConnect` and
  `parseOptions`, as functions.
- `store.dfy`: `ExchangeStore`.

## Model

| member | source | states |
|---|---|---|
| UrlEscape.Allow | src/main/java/org/exjello/mail/ExchangeConnection.java:152-170 | setting one table entry leaves every other entry as it was |
| UrlEscape.InitAllowedChars | src/main/java/org/exjello/mail/ExchangeConnection.java:145-171 | the static initialiser yields a 128-entry table that is true exactly on a-z, @, A-Z, 0-9 and the listed punctuation including `%` and `/` |
| UrlEscape.EscapeUnit | src/main/java/org/exjello/mail/ExchangeConnection.java:698-711 | one code unit becomes 1, 3 or 6 code units |
| UrlEscape.EscapeUnitCases | src/main/java/org/exjello/mail/ExchangeConnection.java:699-711 | an allowed unit is kept; a disallowed unit below 0x100 becomes `%XX`; a unit of 0x100 or more becomes `%HH%LL`, high byte first |
| UrlEscape.InsertHexByte | src/main/java/org/exjello/mail/ExchangeConnection.java:700-705 | the two inserts before `%` place `%` and the low byte's two uppercase hex digits at the position, and leave the value shifted right by 8 |
| UrlEscape.Disallowed | src/main/java/org/exjello/mail/ExchangeConnection.java:699 | the `value > 127 \|\| !ALLOWED_CHARS[value]` test is exactly "not allowed" |
| UrlEscape.EscapeAt | src/main/java/org/exjello/mail/ExchangeConnection.java:698-712 | one step at position i replaces that unit by its escape and leaves both sides unchanged |
| UrlEscape.EscapeUrl | src/main/java/org/exjello/mail/ExchangeConnection.java:695-715 | the backward in-place loop over the `StringBuilder` returns `Escape(url)`, each unit escaped independently in order |
| UrlEscape.EscapeFrom | src/main/java/org/exjello/mail/ExchangeConnection.java:697 | escaping a suffix is escaping its first unit followed by escaping the rest |
| UrlEscape.EscapeLength | src/main/java/org/exjello/mail/ExchangeConnection.java:698-711 | the output is at least as long as the input and at most six times as long |
| UrlEscape.EscapeAppend | src/main/java/org/exjello/mail/ExchangeConnection.java:697-713 | escaping distributes over concatenation, so each unit is mapped independently and order is kept |
| UrlEscape.HexByteAllowed | src/main/java/org/exjello/mail/ExchangeConnection.java:114-117 | `%` and the uppercase hex digits are all allowed characters |
| UrlEscape.AllowedAppend | src/main/java/org/exjello/mail/ExchangeConnection.java:699 | two all-allowed texts concatenate to an all-allowed text |
| UrlEscape.EscapeUnitAllowed | src/main/java/org/exjello/mail/ExchangeConnection.java:699-711 | the escape of any unit consists of allowed characters only |
| UrlEscape.EscapeOutputAllowed | src/main/java/org/exjello/mail/ExchangeConnection.java:695-715 | `escape` output contains only allowed characters |
| UrlEscape.EscapeIdentity | src/main/java/org/exjello/mail/ExchangeConnection.java:695-715 | a text of allowed characters is returned unchanged |
| UrlEscape.EscapeIdempotent | src/main/java/org/exjello/mail/ExchangeConnection.java:695-715 | escaping twice equals escaping once |
| UrlEscape.HexDecodes | src/main/java/org/exjello/mail/ExchangeConnection.java:114-117 | each `HEXABET` digit reads back as its value |
| UrlEscape.EscapeUnitDecodes | src/main/java/org/exjello/mail/ExchangeConnection.java:699-711 | a disallowed unit's escape starts with `%` and its hex digits read back as the unit's bytes |
| UrlEscape.EscapeUnitFixed | src/main/java/org/exjello/mail/ExchangeConnection.java:699 | a unit is left as it is exactly when it is allowed |
| UrlEscape.EscapeWideUnitAmbiguous | src/main/java/org/exjello/mail/ExchangeConnection.java:706-711 | U+0120 and the pair U+0001 U+0020 escape to the same text, so the `%HH%LL` form cannot be decoded uniquely |
| UrlEscape.EscapeSpaceExample | src/main/java/org/exjello/mail/ExchangeConnection.java:695-715 | `a b/` escapes to `a%20b/` |
| UrlEscape.EscapeHashExample | src/main/java/org/exjello/mail/ExchangeConnection.java:695-715 | `c#1` escapes to `c%231` |
| UrlEscape.EscapeExample | src/main/java/org/exjello/mail/ExchangeConnection.java:695-715 | `a b/c#1` escapes to `a%20b/c%231` |
| JavaLang.NatString | src/main/java/org/exjello/mail/ExchangeStore.java:180 | the decimal text of a natural number is non-empty and all digits |
| JavaLang.ParseInt | src/main/java/org/exjello/mail/ExchangeStore.java:152 | a parsed value lies in the 32-bit signed range |
| JavaLang.NatStringValue | src/main/java/org/exjello/mail/ExchangeStore.java:180 | the decimal digits of n read back as n |
| JavaLang.ParseIntString | src/main/java/org/exjello/mail/ExchangeStore.java:174-180 | `Integer.parseInt` of the printed port gives the port back, for every 32-bit value |
| JavaLang.ParseIntRejectsNonNumeric | src/main/java/org/exjello/mail/ExchangeStore.java:151-156 | a text without digits does not parse, so the limit check rejects it |
| JavaLang.IndexOf | src/main/java/org/exjello/mail/ExchangeStore.java:183-192 | `indexOf` is -1 exactly when the character is absent, and otherwise the first position holding it |
| JavaLang.LastIndexOf | src/main/java/org/exjello/mail/ExchangeConnection.java:622 | `lastIndexOf` is -1 exactly when the character is absent, and otherwise a position with no later occurrence |
| JavaLang.CodeUnits | src/main/java/org/exjello/mail/ExchangeConnection.java:698 | a character is one or two UTF-16 units |
| JavaLang.Utf16 | src/main/java/org/exjello/mail/ExchangeConnection.java:696 | a string has at least as many UTF-16 units as characters |
| JavaLang.Utf16OfBmp | src/main/java/org/exjello/mail/ExchangeConnection.java:698 | text inside the Basic Multilingual Plane is one unit per character, each its code |
| JavaLang.AsciiText | src/main/java/org/exjello/mail/ExchangeConnection.java:714 | ASCII units convert back to the same characters |
| Http.HeaderValue | src/main/java/org/exjello/mail/ExchangeConnection.java:364-369 | a header lookup is absent exactly when no header has the name, and otherwise names a header that is present |
| Http.HttpClient.constructor | src/main/java/org/exjello/mail/ExchangeConnection.java:463-464 | a new client has no read timeout, no connection timeout and no local address configured |
| Http.HttpClient.Execute | src/main/java/org/exjello/mail/ExchangeConnection.java:488-490 | `executeMethod` appends the request to the network log and returns the oracle's reply for the history so far |
| DavRequests.Basename | src/main/java/org/exjello/mail/ExchangeConnection.java:622 | the `href` text is the suffix after the last `/`, or the whole URL, and never contains `/` |
| DavRequests.Basenames | src/main/java/org/exjello/mail/ExchangeConnection.java:618-624 | one `href` per message, in list order |
| DavRequests.EscapedUrl | src/main/java/org/exjello/mail/ExchangeConnection.java:309 | the escaped `GET` target is never shorter than the URL |
| DavRequests.BasenameWithoutSlash | src/main/java/org/exjello/mail/ExchangeConnection.java:622 | a URL with no `/` is its own basename |
| DavRequests.BasenameAfterLastSlash | src/main/java/org/exjello/mail/ExchangeConnection.java:622 | `dir/file` with a slash-free file gives `file` |
| DavRequests.HrefElementsEvents | src/main/java/org/exjello/mail/ExchangeConnection.java:618-624 | the `href` elements parse, through the list handler, back to the basenames |
| DavRequests.Wrapped | src/main/java/org/exjello/mail/ExchangeConnection.java:614-617 | an enclosing non-`href` element adds no `href` text |
| DavRequests.PendingAfterLeadingStart | src/main/java/org/exjello/mail/ExchangeConnection.java:206-209 | a leading start tag resets the pending text |
| DavRequests.HrefsAfterStart | src/main/java/org/exjello/mail/ExchangeConnection.java:206-215 | a leading start tag adds no `href` |
| DavRequests.TargetEvents | src/main/java/org/exjello/mail/ExchangeConnection.java:616-624 | the `target` element carries exactly the basenames |
| DavRequests.DeleteEntityHrefs | src/main/java/org/exjello/mail/ExchangeConnection.java:609-633 | the `BDELETE` body names exactly the basenames of the messages, in order |
| DavRequests.MarkReadUpdateEvents | src/main/java/org/exjello/mail/ExchangeConnection.java:652-658 | the `set/prop/read` part of the body holds no `href` |
| DavRequests.MarkReadEntityHrefs | src/main/java/org/exjello/mail/ExchangeConnection.java:635-667 | the `BPROPPATCH` body names exactly the basenames of the messages, in order |
| DavRequests.BatchPathShape | src/main/java/org/exjello/mail/ExchangeConnection.java:226-227 | the batch path ends in `/`; it equals the inbox when that already ends in `/`, and is the inbox plus one `/` otherwise |
| DavRequests.BatchPathIdempotent | src/main/java/org/exjello/mail/ExchangeConnection.java:226-227 | applying the trailing-slash rule twice changes nothing more |
| DavRequests.SearchRange | src/main/java/org/exjello/mail/ExchangeConnection.java:366 | the `SEARCH` has a `Range` header exactly when limit > 0, and then its value is `rows=0-<limit>` |
| DavRequests.SearchQuery | src/main/java/org/exjello/mail/ExchangeConnection.java:367-369 | `includeRead` picks the all-messages query, otherwise the unread query, and `Brief: t` is set |
| DavRequests.FindInboxDepth | src/main/java/org/exjello/mail/ExchangeConnection.java:409 | the `PROPFIND` asks with `Depth: 0` |
| DavRequests.FetchTarget | src/main/java/org/exjello/mail/ExchangeConnection.java:309 | the `GET` target is the escaped URL and holds only allowed characters |
| SaxText.PendingAfterStart | src/main/java/org/exjello/mail/ExchangeConnection.java:206-209 | after a start tag the pending text depends only on what follows it |
| SaxText.HrefsAppend | src/main/java/org/exjello/mail/ExchangeConnection.java:210-215 | `href` texts of a stream split at a start tag are those of the two parts, in order |
| SaxText.LastInboxAppend | src/main/java/org/exjello/mail/ExchangeConnection.java:433-438 | a later `inbox` element overrides an earlier one |
| SaxText.LastInboxNone | src/main/java/org/exjello/mail/ExchangeConnection.java:433-438 | no inbox is found exactly when no `httpmail:inbox` element ends |
| SaxText.LastInboxIsLast | src/main/java/org/exjello/mail/ExchangeConnection.java:433-438 | a found inbox is the text accumulated at some `inbox` end tag |
| SaxText.HrefsCount | src/main/java/org/exjello/mail/ExchangeConnection.java:210-215 | the list handler records one message per `DAV:href` end tag |
| SaxText.HrefElement | src/main/java/org/exjello/mail/ExchangeConnection.java:620-623 | one `href` element with text t yields exactly `[t]` |
| Connection.InboxHandler.constructor | src/main/java/org/exjello/mail/ExchangeConnection.java:422-423 | the handler starts with empty content |
| Connection.InboxHandler.StartElement | src/main/java/org/exjello/mail/ExchangeConnection.java:424-428 | a start tag clears the content |
| Connection.InboxHandler.Characters | src/main/java/org/exjello/mail/ExchangeConnection.java:429-432 | characters are appended to the content |
| Connection.InboxHandler.EndElement | src/main/java/org/exjello/mail/ExchangeConnection.java:433-438 | an `httpmail:inbox` end tag sets the owner's inbox to the content, and any other leaves it |
| Connection.InboxHandler.Parse | src/main/java/org/exjello/mail/ExchangeConnection.java:422-439 | over an event stream the owner's inbox becomes the last `inbox` element's text, or stays as it was if there is none |
| Connection.MessageListHandler.constructor | src/main/java/org/exjello/mail/ExchangeConnection.java:199-201 | the handler starts with empty content and no messages |
| Connection.MessageListHandler.StartElement | src/main/java/org/exjello/mail/ExchangeConnection.java:206-209 | a start tag clears the content and keeps the messages |
| Connection.MessageListHandler.Characters | src/main/java/org/exjello/mail/ExchangeConnection.java:202-205 | characters are appended to the content |
| Connection.MessageListHandler.EndElement | src/main/java/org/exjello/mail/ExchangeConnection.java:210-215 | a `DAV:href` end tag appends the content to the messages, and any other adds nothing |
| Connection.MessageListHandler.Parse | src/main/java/org/exjello/mail/ExchangeConnection.java:197-218 | over an event stream the messages are the `href` texts in document order |
| Connection.ExchangeConnection.constructor | src/main/java/org/exjello/mail/ExchangeConnection.java:173-183 | the fields are the arguments, and there is no client and no inbox yet |
| Connection.ExchangeConnection.GetClient | src/main/java/org/exjello/mail/ExchangeConnection.java:461-476 | the client is made once, configured with each setting only when it is given, and the same client is returned afterwards |
| Connection.ExchangeConnection.Connect | src/main/java/org/exjello/mail/ExchangeConnection.java:185-195 | `connect` sends exactly the sign-on trace's requests, returns its outcome, and leaves the inbox cleared whenever sign-on throws |
| Connection.ExchangeConnection.SignOn | src/main/java/org/exjello/mail/ExchangeConnection.java:478-539 | sign-on first parses the server with `java.net.URL`, and a server that does not parse throws before any request; otherwise it sends the probe, then the `POST` only if the probe was refused, then `findInbox` unless the `POST` was refused |
| Connection.ExchangeConnection.FindInbox | src/main/java/org/exjello/mail/ExchangeConnection.java:403-459 | the inbox is cleared, the `PROPFIND` is sent, a status of 300 or more fails, and the handler sets the inbox |
| Connection.ExchangeConnection.GetMessages | src/main/java/org/exjello/mail/ExchangeConnection.java:197-218 | the guarded `SEARCH` returns the `href` texts of the answer, or fails as the listing trace says |
| Connection.ExchangeConnection.ListInbox | src/main/java/org/exjello/mail/ExchangeConnection.java:357-401 | without an inbox it fails before sending; otherwise one `SEARCH`, where a status of 300 or more fails and the handler reads the answer |
| Connection.ExchangeConnection.Delete | src/main/java/org/exjello/mail/ExchangeConnection.java:220-259 | without an inbox it fails before sending; otherwise one `BDELETE` to the batch path, where a status of 300 or more fails |
| Connection.ExchangeConnection.MarkRead | src/main/java/org/exjello/mail/ExchangeConnection.java:261-300 | without an inbox it fails before sending; otherwise one `BPROPPATCH` to the batch path, where a status of 300 or more fails |
| Connection.ExchangeConnection.GetInputStream | src/main/java/org/exjello/mail/ExchangeConnection.java:302-351 | without an inbox it fails before sending; otherwise one `GET` of the escaped URL, where a status of 300 or more fails, a read that throws during the copy fails, and otherwise the body is the bytes the reads returned |
| Connection.CopyToFile | src/main/java/org/exjello/mail/ExchangeConnection.java:321-328 | the copy loop writes the concatenation of the chunks read, in order |
| Connection.FlattenAppend | src/main/java/org/exjello/mail/ExchangeConnection.java:324-326 | copying two runs of chunks one after the other writes the bytes of the first run, then those of the second |
| Connection.SignOnStartsWithProbe | src/main/java/org/exjello/mail/ExchangeConnection.java:488-490 | sign-on sends at most three requests; it sends any exactly when the server parses, and then the first is the `OPTIONS` probe |
| Connection.SignOnPostOnlyWhenRefused | src/main/java/org/exjello/mail/ExchangeConnection.java:488-508 | the `POST` is sent exactly when the server parses and the probe's status is 400 or more |
| Connection.SignOnMalformedServer | src/main/java/org/exjello/mail/ExchangeConnection.java:478-490 | a server that `java.net.URL` refuses makes sign-on throw before any request, and `connect` leaves no inbox |
| Connection.SignOnRefusedStops | src/main/java/org/exjello/mail/ExchangeConnection.java:516-520 | a `POST` refused with 400 or more throws before `findInbox`, and `connect` leaves no inbox |
| Connection.SignOnEndsWithFindInbox | src/main/java/org/exjello/mail/ExchangeConnection.java:507-538 | `findInbox` is reached exactly when its `PROPFIND` is the last request, which asks with `Depth: 0`; if it is not reached, sign-on failed and no inbox is set |
| Connection.ConnectedOnlyOnSuccess | src/main/java/org/exjello/mail/ExchangeConnection.java:185-195 | after `connect` there is an inbox only if sign-on passed and reached `findInbox`, and a failure always leaves none |
| Connection.FindInboxTakesLast | src/main/java/org/exjello/mail/ExchangeConnection.java:403-459 | on a good answer `findInbox` passes; the inbox is absent exactly when no `inbox` element ends, and otherwise is the text of the last one |
| Connection.UnconnectedSendsNothing | src/main/java/org/exjello/mail/ExchangeConnection.java:220-362 | without an inbox, listing, delete, mark-read and fetch fail with "Not connected." and send nothing |
| Connection.ConnectedOperations | src/main/java/org/exjello/mail/ExchangeConnection.java:220-401 | a connected operation sends exactly its one request and succeeds exactly when the status is below 300 (and, for a listing, the body parses; for a fetch, the body reads to its end) |
| Transport.AbsentIfEmpty | src/main/java/org/exjello/mail/ExchangeTransport.java:83-92 | an empty list is written as an absent header, never as an empty array, and the header lists the same addresses |
| Transport.FirstInvalidNone | src/main/java/org/exjello/mail/ExchangeTransport.java:75-78 | no address is reported exactly when every envelope address is an Internet address |
| Transport.FirstInvalidAt | src/main/java/org/exjello/mail/ExchangeTransport.java:75-78 | the address reported is the first one that is not an Internet address |
| Transport.Message.constructor | src/main/java/org/exjello/mail/ExchangeTransport.java:29 | a message holds the headers it is given |
| Transport.RetainTargeted | src/main/java/org/exjello/mail/ExchangeTransport.java:54-71 | the iterator-removal loop leaves exactly `Retained(list, targets)` |
| Transport.AppendUnknown | src/main/java/org/exjello/mail/ExchangeTransport.java:72-82 | the envelope loop throws on the first non-Internet address, and otherwise appends to Bcc every envelope address the message did not name, in envelope order |
| Transport.ExchangeTransport.constructor | src/main/java/org/exjello/mail/ExchangeTransport.java:25-27 | a new transport is unconnected and has no connection |
| Transport.ExchangeTransport.SetConnected | src/main/java/org/exjello/mail/ExchangeTransport.java:127-132 | the flag is set, `setConnected(false)` drops the connection, and the transport is then not connected |
| Transport.ExchangeTransport.ProtocolConnect | src/main/java/org/exjello/mail/ExchangeTransport.java:103-119 | a failed `createConnection` is reported; otherwise the new connection is kept and connects, its inbox becomes what `connect` leaves, and a sign-on failure becomes an authentication failure |
| Transport.ExchangeTransport.SendMessage | src/main/java/org/exjello/mail/ExchangeTransport.java:29-101 | a non-MIME message or an empty envelope throws with the message untouched; an invalid address throws with the headers untouched; otherwise the headers are rewritten, and then the send fails when not connected |
| Transport.RetainedMembers | src/main/java/org/exjello/mail/ExchangeTransport.java:54-71 | an address survives filtering exactly when it was in the list and in the envelope |
| Transport.RetainedAppend | src/main/java/org/exjello/mail/ExchangeTransport.java:54-71 | filtering distributes over concatenation, so relative order is kept |
| Transport.RetainedAll | src/main/java/org/exjello/mail/ExchangeTransport.java:54-71 | a list of only envelope addresses is kept whole |
| Transport.UnlistedMembers | src/main/java/org/exjello/mail/ExchangeTransport.java:72-82 | an address is appended exactly when it is in the envelope and not among the message's recipients |
| Transport.UnlistedNone | src/main/java/org/exjello/mail/ExchangeTransport.java:79 | nothing is appended when the message already names every envelope address |
| Transport.ReaddressFails | src/main/java/org/exjello/mail/ExchangeTransport.java:75-78 | the rewrite fails exactly when the envelope holds a non-Internet address, and then with an invalid-address error |
| Transport.ReaddressNeverEmpty | src/main/java/org/exjello/mail/ExchangeTransport.java:83-92 | no header is written back as an empty list |
| Transport.ReaddressCoversEnvelope | src/main/java/org/exjello/mail/ExchangeTransport.java:54-82 | the new To, Cc and Bcc together name exactly the envelope addresses, and To and Cc keep exactly their envelope entries |
| Transport.ReaddressIdempotent | src/main/java/org/exjello/mail/ExchangeTransport.java:29-92 | rewriting already rewritten headers for the same envelope changes nothing |
| Transport.RetainedExample | src/main/java/org/exjello/mail/ExchangeTransport.java:54-65 | To `[a, b]` against envelope `[a, c, d]` keeps `[a]`, and Cc `[c]` keeps `[c]` |
| Transport.UnlistedExample | src/main/java/org/exjello/mail/ExchangeTransport.java:72-82 | envelope `[a, c, d]` against recipients `[a, b, c]` appends `[d]` |
| Transport.ReaddressExample | src/main/java/org/exjello/mail/ExchangeTransport.java:29-92 | To `[a, b]`, Cc `[c]` sent to `[a, c, d]` become To `[a]`, Cc `[c]`, Bcc `[d]` |
| StoreOptions.PortPrecedence | src/main/java/org/exjello/mail/ExchangeStore.java:158-177 | the port comes from a URL-form host, else the argument, else the parsed property, else 443 or 80; it is never -1, and a URL-form host decides `secure` |
| StoreOptions.ServerStringScheme | src/main/java/org/exjello/mail/ExchangeStore.java:178 | the server string starts with `https://` or `http://` and the host, and its scheme is `https` exactly when secure |
| StoreOptions.ServerStringPort | src/main/java/org/exjello/mail/ExchangeStore.java:179-181 | `:port` is appended exactly when the port is not the scheme's default, and it parses back to the port |
| StoreOptions.CutAt | src/main/java/org/exjello/mail/ExchangeStore.java:183-193 | cutting at a character fails exactly when it is absent, and otherwise splits around its first occurrence |
| StoreOptions.CutAtFirst | src/main/java/org/exjello/mail/ExchangeStore.java:183-193 | a text built around the first occurrence of the character cuts back into its two sides |
| StoreOptions.SplitUsernameParts | src/main/java/org/exjello/mail/ExchangeStore.java:182-194 | without `:` the username is kept and the mailbox property applies; with one, the user is the text before the first `:`, the mailbox has no `[`, and the options are the text up to the first `]` |
| StoreOptions.SplitUsernameComposed | src/main/java/org/exjello/mail/ExchangeStore.java:183-194 | `user:mailbox[options]rest` splits back into user, mailbox and options |
| StoreOptions.SplitUsernameFails | src/main/java/org/exjello/mail/ExchangeStore.java:188-192 | splitting fails only for a `[` with no later `]`, and with that error |
| StoreOptions.SplitUsernameUnterminated | src/main/java/org/exjello/mail/ExchangeStore.java:190-192 | `user:mailbox[rest` with no `]` is refused |
| StoreOptions.Pieces | src/main/java/org/exjello/mail/ExchangeStore.java:322 | splitting always yields at least one piece |
| StoreOptions.PiecesClean | src/main/java/org/exjello/mail/ExchangeStore.java:322 | no piece contains a separator |
| StoreOptions.PiecesJoin | src/main/java/org/exjello/mail/ExchangeStore.java:322-323 | joining the pieces with the one separator used gives the text back |
| StoreOptions.PiecesOfClean | src/main/java/org/exjello/mail/ExchangeStore.java:322 | a text without separators is one piece |
| StoreOptions.PiecesAppendPiece | src/main/java/org/exjello/mail/ExchangeStore.java:322 | a separator and a clean text add that text as one more piece |
| StoreOptions.PiecesOfJoin | src/main/java/org/exjello/mail/ExchangeStore.java:322 | splitting clean pieces joined with a separator gives the pieces back |
| StoreOptions.DropTrailingEmptyPrefix | src/main/java/org/exjello/mail/ExchangeStore.java:322 | `split` drops only empty pieces, and only at the end |
| StoreOptions.SplitOptionsJoin | src/main/java/org/exjello/mail/ExchangeStore.java:322 | `split("[,;]")` of pieces joined with `,` gives the pieces back |
| StoreOptions.OptionTextJoin | src/main/java/org/exjello/mail/ExchangeStore.java:323 | the collector is the pieces joined by line ends, with a final line end |
| StoreOptions.OptionTextLatin1 | src/main/java/org/exjello/mail/ExchangeStore.java:325-326 | Latin-1 option text survives the ISO-8859-1 encoding unchanged |
| StoreOptions.OptionTextExample | src/main/java/org/exjello/mail/ExchangeStore.java:323 | pieces `unfiltered=true` and `limit=10` give the collector `unfiltered=true\nlimit=10\n` |
| StoreOptions.Latin1 | src/main/java/org/exjello/mail/ExchangeStore.java:325-326 | `getBytes("ISO-8859-1")` keeps every Latin-1 character and turns every other into `?` |
| StoreOptions.SkipBlanks | src/main/java/org/exjello/mail/ExchangeStore.java:325 | leading blanks are dropped and the rest is a suffix starting with a non-blank |
| StoreOptions.KeyLength | src/main/java/org/exjello/mail/ExchangeStore.java:325 | the key runs up to the first `=`, `:` or blank |
| StoreOptions.KeyLengthOf | src/main/java/org/exjello/mail/ExchangeStore.java:325 | a key free of terminators followed by a terminator has exactly its own length |
| StoreOptions.ParsedLines | src/main/java/org/exjello/mail/ExchangeStore.java:325 | each line is parsed on its own, in order |
| StoreOptions.ParseLineKeyValue | src/main/java/org/exjello/mail/ExchangeStore.java:323-325 | a `key=value` line loads as that key and value |
| StoreOptions.LoadEntriesLookup | src/main/java/org/exjello/mail/ExchangeStore.java:325 | a key is in the table exactly when some line defines it, and its value is from the last such line |
| StoreOptions.OptionLines | src/main/java/org/exjello/mail/ExchangeStore.java:320-326 | options joined with `,` reach `Properties.load` as one line per piece, then an empty line |
| StoreOptions.LoadTrailingEmpty | src/main/java/org/exjello/mail/ExchangeStore.java:323-325 | the final empty line adds nothing to the table |
| StoreOptions.OptionPropertiesOfJoin | src/main/java/org/exjello/mail/ExchangeStore.java:320-328 | options joined with `,` load to exactly the table of their pieces as lines |
| StoreOptions.LoadTwoLines | src/main/java/org/exjello/mail/ExchangeStore.java:325 | two defining lines load to a table of the two, the second winning on the same key |
| StoreOptions.PlainPiece | src/main/java/org/exjello/mail/ExchangeStore.java:322-326 | `key=value` built from plain key and value has no separator and stays Latin-1 |
| StoreOptions.OptionPropertiesTwo | src/main/java/org/exjello/mail/ExchangeStore.java:320-328 | `k1=v1,k2=v2` loads to exactly `{k1: v1, k2: v2}`, the later value winning on the same key |
| StoreOptions.ResolveMissing | src/main/java/org/exjello/mail/ExchangeStore.java:135-142 | `protocolConnect` returns `false` exactly when host, username or password is null |
| StoreOptions.ResolveInvalidLimit | src/main/java/org/exjello/mail/ExchangeStore.java:148-157 | a limit property that is not an integer is refused, with the flags as assigned so far and limit -1 |
| StoreOptions.ResolvedStages | src/main/java/org/exjello/mail/ExchangeStore.java:143-258 | a connect that reaches `new ExchangeConnection` passed the limit, username, option and settings steps in order |
| StoreOptions.PropertyFlagsValues | src/main/java/org/exjello/mail/ExchangeStore.java:143-157 | the booleans come from their properties, and the limit from its property or -1 |
| StoreOptions.OptionFlagsValues | src/main/java/org/exjello/mail/ExchangeStore.java:195-216 | an option overrides `unfiltered`, `delete` or `limit` exactly when its key is present |
| StoreOptions.ResolvedFlags | src/main/java/org/exjello/mail/ExchangeStore.java:143-216 | each flag comes from the mailbox option of its name if present, and from the session property otherwise; the limit defaults to -1 |
| StoreOptions.ConnectionSettingsValues | src/main/java/org/exjello/mail/ExchangeStore.java:225-258 | the timeouts are the parsed properties or -1, the local address is resolved only when given, and the mailbox must be present |
| StoreOptions.ResolvedMailbox | src/main/java/org/exjello/mail/ExchangeStore.java:182-258 | without `:` the mailbox is the property and the username is kept; with one, the mailbox and user are cut from the username; the password is passed on |
| StoreOptions.ResolveNoMailbox | src/main/java/org/exjello/mail/ExchangeStore.java:256-258 | with no mailbox from either source the connect is refused, and "No mailbox specified." comes only after the timeouts parse |
| StoreOptions.ResolvedTimeouts | src/main/java/org/exjello/mail/ExchangeStore.java:225-255 | the connection's timeouts are the parsed properties or -1, and its local address is the resolved one or none |
| Store.ParseOptions | src/main/java/org/exjello/mail/ExchangeStore.java:320-328 | the collector loop and load give exactly the options' property table |
| Store.ServerFor | src/main/java/org/exjello/mail/ExchangeStore.java:158-181 | the reassignments of host, port and secure produce the server string of the resolved endpoint |
| Store.SplitAccount | src/main/java/org/exjello/mail/ExchangeStore.java:182-186 | the `indexOf(':')` and `substring` steps give the username split |
| Store.SplitBox | src/main/java/org/exjello/mail/ExchangeStore.java:187-194 | the `[`/`]` cut gives the mailbox and option text, or the error for a missing `]` |
| Store.Settle | src/main/java/org/exjello/mail/ExchangeStore.java:225-258 | the timeout, local-address and mailbox checks run in source order and give the connection settings |
| Store.ExchangeStore.constructor | src/main/java/org/exjello/mail/ExchangeStore.java:115-125 | a new store is unconnected, has no connection, and its flags hold Java's field defaults |
| Store.ExchangeStore.ProtocolConnect | src/main/java/org/exjello/mail/ExchangeStore.java:127-288 | a missing argument returns `false` and changes nothing; a refused step throws with the flags as assigned so far; otherwise a fresh connection gets the resolved settings and connects, and its failure becomes an authentication failure |
| Store.ExchangeStore.Configure | src/main/java/org/exjello/mail/ExchangeStore.java:135-258 | the steps before `new ExchangeConnection` compute the resolution and leave the flags it names |
| Store.ExchangeStore.LoadFlags | src/main/java/org/exjello/mail/ExchangeStore.java:143-157 | the flags are assigned from the properties, and a bad limit throws |
| Store.ExchangeStore.ApplyOptions | src/main/java/org/exjello/mail/ExchangeStore.java:195-216 | the mailbox options, when given, are parsed and applied |
| Store.ExchangeStore.ApplyTable | src/main/java/org/exjello/mail/ExchangeStore.java:204-216 | each present option overrides its flag, and a bad limit option throws |
| Store.ExchangeStore.CheckConnection | src/main/java/org/exjello/mail/ExchangeStore.java:316-318 | it passes exactly when the store is connected, and otherwise fails with "Not connected." |
| Store.ExchangeStore.GetFolder | src/main/java/org/exjello/mail/ExchangeStore.java:295-298 | when connected it returns the named folder over the store's connection, and otherwise it throws |
| Store.ExchangeStore.GetDefaultFolder | src/main/java/org/exjello/mail/ExchangeStore.java:290-293 | when connected it returns the folder named `""`, and otherwise it throws |

## Left out

- Credentials and `AuthScope`: setting the credentials on the client in `signOn` is not modelled. The `java.net.URL` parse of the server that precedes it is an oracle (`urlParses`), which the store supplies from its `parseUrl`; a server it refuses makes sign-on throw before any request.
- `java.net.URL` parsing of a URL-form host is an oracle parameter (`parseUrl`; the connection's `urlParses` for the server string), and `InetAddress.getByName` is one too (`resolveAddress`).
- The SQL query resources and the class-path resource cache are not modelled. A `SEARCH` body names its query resource abstractly.
- Request bodies are element trees. Their serialisation by `Transformer`, the request entity's content type and the static memoisation of the find-inbox and query entities are not modelled.
- The SAX parser itself is not modelled. An answer is the event list it delivers, or a malformed body with the events delivered before the error.
- The drain loops that read and discard response bodies are not modelled, nor is `releaseConnection`; they do not affect results.
- Temporary files, `deleteOnExit` and `CachedMessageStream` are not modelled. The fetched message is the byte sequence the copy loop writes; a read that throws part-way leaves only the I/O error, not the partly written file.
- `synchronized` blocks and all thread-safety concerns are not modelled.
- Debug printing to `System.err` and the debug properties are not modelled.
- `ExchangeConnection.createConnection` and `send` are opaque. The first is the transport's `created` parameter, the second its `delivered` parameter.
- The JavaMail `Service` connected flag is a plain field of the store and the transport. `Service.connect` and `close` are not modelled.
- The store getters `isUnfiltered`, `isDeleting` and `getLimit` are not modelled; the model reads the fields directly.
- `getFolder(URLName)` is not modelled; it only forwards `url.getFile()`.
- `ExchangeFolder` is reduced to its name and connection.
- `InternetAddress.equals` ignores case; the model compares addresses exactly.
- `Properties.load` is modelled for line splitting, blanks, comment lines and the key/separator/value rule. Backslash escapes, `\uXXXX` and continuation lines are not modelled.
- JavaLang.ParseInt accepts ASCII digits only. `Integer.parseInt` also accepts other Unicode digits.
- JavaLang.EqualsIgnoreCase folds ASCII letters only.
- Strings are UTF-16 only inside `escape`. A Dafny `char` is a Unicode scalar value, so `Utf16` converts before escaping.

## Notes on the code

- `findInbox` keeps the last `httpmail:inbox` element, not the first. With none it returns normally: `connect` succeeds, no inbox is set, and every later operation fails with "Not connected.". The model follows the code.
- `sendMessage` writes the rewritten headers before it checks the connection. A send while not connected therefore still changes the message, and `Transport.ExchangeTransport.SendMessage` states this.
- A username `user:mailbox[options` without `]` makes `substring(0, -1)` throw `StringIndexOutOfBoundsException`. The model reports it as `UnterminatedOptions`.
- `getInputStream` reports a failed fetch with the text "Unable to obtain inbox" and the status. The model names it `FetchFailed(status)`.
- `protocolConnect` assigns `unfiltered` and `delete` before the limit check and the username split. A later failure leaves the flags half updated, and the contract states the flags at each exit.
