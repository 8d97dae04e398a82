/** Subscription links of `Node.get_ssr_link` and `Node.get_ss_link`, and
    parsers that read the fields back out of a link. The parsers are the
    client's side of the format: proving that they recover every field shows
    the links carry what the panel means to put in them. */
module Links {
  import opened Common
  import opened Records
  import Base64Url
  import Decimal

  const SsrScheme: seq<byte> := [115, 115, 114, 58, 47, 47]                // "ssr://"
  const SsScheme: seq<byte> := [115, 115, 58, 47, 47]                      // "ss://"
  const RemarksKey: seq<byte> := [63, 114, 101, 109, 97, 114, 107, 115, 61] // "?remarks="
  const GroupKey: seq<byte> := [103, 114, 111, 117, 112, 61]               // "group="

  /** With `custom_method == 1` a node defers to the user's own cipher,
      protocol and obfuscation; any other value keeps the node's. */
  predicate UsesUserMethod(node: Node) {
    node.customMethod == 1
  }

  function LinkMethod(node: Node, user: SSUser): seq<byte> {
    if UsesUserMethod(node) then user.cipher else node.cipher
  }

  function LinkProtocol(node: Node, user: SSUser): seq<byte> {
    if UsesUserMethod(node) then user.protocol else node.protocol
  }

  function LinkObfs(node: Node, user: SSUser): seq<byte> {
    if UsesUserMethod(node) then user.obfs else node.obfs
  }

  /** The connection settings `server:port:protocol:method:obfs`. */
  function SsrSettingsText(server: seq<byte>, port: int, protocol: seq<byte>, cipher: seq<byte>, obfs: seq<byte>): seq<byte> {
    server + [Colon] + Decimal.Format(port) + [Colon] + protocol + [Colon] + cipher + [Colon] + obfs
  }

  /** The labels `?remarks=b64(name)&group=b64(group)`. */
  function SsrQueryText(name: seq<byte>, group: seq<byte>): seq<byte> {
    RemarksKey + Base64Url.Encode(name) + [Ampersand] + GroupKey + Base64Url.Encode(group)
  }

  /** The text encoded into an SSR link:
      `server:port:protocol:method:obfs:b64(password)/?remarks=b64(name)&group=b64(group)`. */
  function SsrCode(node: Node, user: SSUser): seq<byte> {
    SsrSettingsText(node.server, user.port, LinkProtocol(node, user), LinkMethod(node, user), LinkObfs(node, user))
    + [Colon] + Base64Url.Encode(user.password)
    + [Slash] + SsrQueryText(node.name, node.group)
  }

  /** `Node.get_ssr_link`: `ssr://` followed by the encoded SSR text. */
  function SsrLink(node: Node, user: SSUser): (link: seq<byte>)
    ensures SsrScheme <= link
    ensures Base64Url.Decode(link[|SsrScheme|..]) == Some(SsrCode(node, user))
    ensures |link| == |SsrScheme| + 4 * ((|SsrCode(node, user)| + 2) / 3)
    ensures forall i :: |SsrScheme| <= i < |link| ==> Base64Url.IsAlphabet(link[i]) || link[i] == Base64Url.Pad
  {
    var payload := Base64Url.Encode(SsrCode(node, user));
    Base64Url.DecodeEncode(SsrCode(node, user));
    assert (SsrScheme + payload)[|SsrScheme|..] == payload;
    SsrScheme + payload
  }

  /** The text encoded into an SS link: `method:password@server:port`. */
  function SsCode(node: Node, user: SSUser): seq<byte> {
    LinkMethod(node, user) + [Colon] + user.password + [At] + node.server + [Colon] + Decimal.Format(user.port)
  }

  /** `Node.get_ss_link`: `ss://` followed by the encoded SS text. */
  function SsLink(node: Node, user: SSUser): (link: seq<byte>)
    ensures SsScheme <= link
    ensures Base64Url.Decode(link[|SsScheme|..]) == Some(SsCode(node, user))
    ensures |link| == |SsScheme| + 4 * ((|SsCode(node, user)| + 2) / 3)
    ensures forall i :: |SsScheme| <= i < |link| ==> Base64Url.IsAlphabet(link[i]) || link[i] == Base64Url.Pad
  {
    var payload := Base64Url.Encode(SsCode(node, user));
    Base64Url.DecodeEncode(SsCode(node, user));
    assert (SsScheme + payload)[|SsScheme|..] == payload;
    SsScheme + payload
  }

  /** What a client reads out of an SSR link. */
  datatype SsrFields = SsrFields(
    server: seq<byte>,
    port: int,
    protocol: seq<byte>,
    cipher: seq<byte>,
    obfs: seq<byte>,
    password: seq<byte>,
    remarks: seq<byte>,
    group: seq<byte>
  )

  /** What a client reads out of an SS link. */
  datatype SsFields = SsFields(cipher: seq<byte>, password: seq<byte>, server: seq<byte>, port: int)

  /** Reads the query part `?remarks=b64(name)&group=b64(group)`; encoded
      text never contains `&`, so the last `&` is the separator. */
  function ParseSsrQuery(query: seq<byte>): Option<(seq<byte>, seq<byte>)> {
    var split :- SplitLast(query, Ampersand);
    var remarks64 :- StripPrefix(RemarksKey, split.0);
    var group64 :- StripPrefix(GroupKey, split.1);
    var remarks :- Base64Url.Decode(remarks64);
    var group :- Base64Url.Decode(group64);
    Some((remarks, group))
  }

  /** Reads `server:port:protocol:method:obfs` from the right, so that only
      the server may contain `:`. */
  function ParseSsrSettings(head: seq<byte>): Option<(seq<byte>, int, seq<byte>, seq<byte>, seq<byte>)> {
    var obfsSplit :- SplitLast(head, Colon);
    var methodSplit :- SplitLast(obfsSplit.0, Colon);
    var protocolSplit :- SplitLast(methodSplit.0, Colon);
    var portSplit :- SplitLast(protocolSplit.0, Colon);
    var port :- Decimal.Parse(portSplit.1);
    Some((portSplit.0, port, protocolSplit.1, methodSplit.1, obfsSplit.1))
  }

  /** Reads an SSR text. Encoded fields cannot contain `/` or `:`, so the
      last `/` starts the query and the last `:` before it starts the
      encoded password. */
  function ParseSsrCode(code: seq<byte>): Option<SsrFields> {
    var querySplit :- SplitLast(code, Slash);
    var labels :- ParseSsrQuery(querySplit.1);
    var passwordSplit :- SplitLast(querySplit.0, Colon);
    var password :- Base64Url.Decode(passwordSplit.1);
    var settings :- ParseSsrSettings(passwordSplit.0);
    Some(SsrFields(settings.0, settings.1, settings.2, settings.3, settings.4, password, labels.0, labels.1))
  }

  function ParseSsrLink(link: seq<byte>): Option<SsrFields> {
    var payload :- StripPrefix(SsrScheme, link);
    var code :- Base64Url.Decode(payload);
    ParseSsrCode(code)
  }

  /** Reads an SS text: the port after the last `:`, the server after the
      last `@`, the method before the first `:`, the password in between. */
  function ParseSsCode(code: seq<byte>): Option<SsFields> {
    var portSplit :- SplitLast(code, Colon);
    var port :- Decimal.Parse(portSplit.1);
    var serverSplit :- SplitLast(portSplit.0, At);
    var methodSplit :- SplitFirst(serverSplit.0, Colon);
    Some(SsFields(methodSplit.0, methodSplit.1, serverSplit.1, port))
  }

  function ParseSsLink(link: seq<byte>): Option<SsFields> {
    var payload :- StripPrefix(SsScheme, link);
    var code :- Base64Url.Decode(payload);
    ParseSsCode(code)
  }

  /** A client reading an SSR link gets the node's server, name and group,
      the user's port and password, and the protocol, method and obfuscation
      of the user when the node has `custom_method == 1`, else of the node.
      Only the three plain-text settings must be free of `:`; every other
      field may hold any bytes. */
  lemma SsrLinkRoundTrip(node: Node, user: SSUser)
    requires Colon !in LinkProtocol(node, user)
    requires Colon !in LinkMethod(node, user)
    requires Colon !in LinkObfs(node, user)
    ensures ParseSsrLink(SsrLink(node, user)) == Some(SsrFields(
      node.server,
      user.port,
      if node.customMethod == 1 then user.protocol else node.protocol,
      if node.customMethod == 1 then user.cipher else node.cipher,
      if node.customMethod == 1 then user.obfs else node.obfs,
      user.password,
      node.name,
      node.group))
  {
    var code := SsrCode(node, user);
    StripPrefixOf(SsrScheme, Base64Url.Encode(code));
    Base64Url.DecodeEncode(code);
    SsrCodeRoundTrip(node.server, user.port, LinkProtocol(node, user), LinkMethod(node, user), LinkObfs(node, user),
                     user.password, node.name, node.group);
  }

  lemma SsrCodeRoundTrip(server: seq<byte>, port: int, protocol: seq<byte>, cipher: seq<byte>, obfs: seq<byte>,
                         password: seq<byte>, name: seq<byte>, group: seq<byte>)
    requires Colon !in protocol && Colon !in cipher && Colon !in obfs
    ensures ParseSsrCode(SsrSettingsText(server, port, protocol, cipher, obfs)
                         + [Colon] + Base64Url.Encode(password)
                         + [Slash] + SsrQueryText(name, group))
         == Some(SsrFields(server, port, protocol, cipher, obfs, password, name, group))
  {
    SsrQueryHasNoSlash(name, group);
    SsrQueryRoundTrip(name, group);
    Base64Url.NotInEncoding(Colon, password);
    Base64Url.DecodeEncode(password);
    SsrSettingsRoundTrip(server, port, protocol, cipher, obfs);
    SsrCodeOfParts(SsrSettingsText(server, port, protocol, cipher, obfs), Base64Url.Encode(password), SsrQueryText(name, group));
  }

  /** The three stages of `ParseSsrCode` compose. */
  lemma SsrCodeOfParts(settings: seq<byte>, p64: seq<byte>, query: seq<byte>)
    requires Slash !in query && Colon !in p64
    requires ParseSsrQuery(query).Some?
    requires Base64Url.Decode(p64).Some?
    requires ParseSsrSettings(settings).Some?
    ensures var labels, s := ParseSsrQuery(query).value, ParseSsrSettings(settings).value;
      ParseSsrCode(settings + [Colon] + p64 + [Slash] + query)
      == Some(SsrFields(s.0, s.1, s.2, s.3, s.4, Base64Url.Decode(p64).value, labels.0, labels.1))
  {
    SplitLastOf(settings + [Colon] + p64, Slash, query);
    SplitLastOf(settings, Colon, p64);
  }

  lemma SsrQueryHasNoSlash(name: seq<byte>, group: seq<byte>)
    ensures Slash !in SsrQueryText(name, group)
  {
    Base64Url.NotInEncoding(Slash, name);
    Base64Url.NotInEncoding(Slash, group);
    assert Slash !in RemarksKey && Slash !in GroupKey;
  }

  lemma SsrQueryRoundTrip(name: seq<byte>, group: seq<byte>)
    ensures ParseSsrQuery(SsrQueryText(name, group)) == Some((name, group))
  {
    var r64, g64 := Base64Url.Encode(name), Base64Url.Encode(group);
    assert SsrQueryText(name, group) == (RemarksKey + r64) + [Ampersand] + (GroupKey + g64);
    Base64Url.NotInEncoding(Ampersand, group);
    assert Ampersand !in GroupKey;
    SplitLastOf(RemarksKey + r64, Ampersand, GroupKey + g64);
    StripPrefixOf(RemarksKey, r64);
    StripPrefixOf(GroupKey, g64);
    Base64Url.DecodeEncode(name);
    Base64Url.DecodeEncode(group);
  }

  lemma SsrSettingsRoundTrip(server: seq<byte>, port: int, protocol: seq<byte>, cipher: seq<byte>, obfs: seq<byte>)
    requires Colon !in protocol && Colon !in cipher && Colon !in obfs
    ensures ParseSsrSettings(SsrSettingsText(server, port, protocol, cipher, obfs))
         == Some((server, port, protocol, cipher, obfs))
  {
    var h3 := server + [Colon] + Decimal.Format(port);
    var h2 := h3 + [Colon] + protocol;
    var h1 := h2 + [Colon] + cipher;
    SplitLastOf(h1, Colon, obfs);
    SplitLastOf(h2, Colon, cipher);
    SplitLastOf(h3, Colon, protocol);
    Decimal.FormatHasNo(Colon, port);
    SplitLastOf(server, Colon, Decimal.Format(port));
    Decimal.ParseFormat(port);
  }

  /** A client reading an SS link gets the user's password and port, the
      node's server, and the user's method when the node has
      `custom_method == 1`, else the node's. The method must be free of `:`
      and the server free of `@`; the password may hold any bytes. */
  lemma SsLinkRoundTrip(node: Node, user: SSUser)
    requires Colon !in LinkMethod(node, user)
    requires At !in node.server
    ensures ParseSsLink(SsLink(node, user)) == Some(SsFields(
      if node.customMethod == 1 then user.cipher else node.cipher,
      user.password,
      node.server,
      user.port))
  {
    var code := SsCode(node, user);
    var portText := Decimal.Format(user.port);
    var h2 := LinkMethod(node, user) + [Colon] + user.password;
    var h1 := h2 + [At] + node.server;
    assert code == h1 + [Colon] + portText;

    StripPrefixOf(SsScheme, Base64Url.Encode(code));
    Base64Url.DecodeEncode(code);

    Decimal.FormatHasNo(Colon, user.port);
    SplitLastOf(h1, Colon, portText);
    Decimal.ParseFormat(user.port);
    SplitLastOf(h2, At, node.server);
    SplitFirstOf(LinkMethod(node, user), Colon, user.password);
  }
}
