// Reading a connection URI back: a parser of its own, and the round trip of every rendered route.
module VlessUri {
  import opened Basics
  import opened PercentEncoding
  import opened DataPlaneCredential
  import opened VlessTcpTls

  const AMPERSAND: CodeUnit := 38
  const COLON: CodeUnit := 58
  const EQUALS: CodeUnit := 61
  const QUESTION: CodeUnit := 63
  const AT: CodeUnit := 64
  const OPEN_BRACKET: CodeUnit := 91
  const CLOSE_BRACKET: CodeUnit := 93

  // What a client reads in a connection URI.
  datatype Connection = Connection(
    credential: Text, host: Text, bracketed: bool, port: int, fields: seq<(Text, Text)>,
    displayName: Text)

  // ---------- the parser ----------

  // The text before and after the first such separator.
  function Cut(t: Text, at: CodeUnit): Option<(Text, Text)> {
    if t == [] then None
    else if t[0] == at then Some(([], t[1..]))
    else
      match Cut(t[1..], at)
      case None => None
      case Some((before, after)) => Some(([t[0]] + before, after))
  }

  function ReadDecimal(t: Text): Option<nat> {
    if t == [] || !(48 <= t[|t| - 1] <= 57) then None
    else if |t| == 1 then Some(t[0] - 48)
    else
      match ReadDecimal(t[..|t| - 1])
      case None => None
      case Some(tens) => Some(10 * tens + (t[|t| - 1] - 48))
  }

  // A host in brackets, or a host up to the first colon; then the port.
  function ReadAddress(t: Text): Option<(Text, bool, nat)> {
    var bracketed := t != [] && t[0] == OPEN_BRACKET;
    match if bracketed then Cut(t[1..], CLOSE_BRACKET) else Cut(t, COLON)
    case None => None
    case Some((host, rest)) =>
      if bracketed && (rest == [] || rest[0] != COLON) then None
      else
        match ReadDecimal(if bracketed then rest[1..] else rest)
        case None => None
        case Some(port) => Some((host, bracketed, port))
  }

  function ReadFields(parts: seq<Text>): Option<seq<(Text, Text)>> {
    if parts == [] then Some([])
    else
      match (Cut(parts[0], EQUALS), ReadFields(parts[1..]))
      case (Some(field), Some(rest)) => Some([field] + rest)
      case _ => None
  }

  // The scheme, the user, the address, the query and the label, in the order in which they delimit each other.
  function ReadUri(t: Text): Option<Connection> {
    var scheme := Ascii("vless://");
    if !(scheme <= t) then None
    else
      match Cut(t[|scheme|..], HASH)
      case None => None
      case Some((body, tail)) =>
        match (Cut(body, QUESTION), DecodeURIComponent(tail))
        case (Some((authority, query)), Component(name)) => ReadBody(authority, query, name)
        case _ => None
  }

  function ReadBody(authority: Text, query: Text, name: Text): Option<Connection> {
    match (Cut(authority, AT), ReadFields(Split(query, AMPERSAND)))
    case (Some((credential, address)), Some(fields)) =>
      (match ReadAddress(address)
       case None => None
       case Some((host, bracketed, port)) => Some(Connection(credential, host, bracketed, port, fields, name)))
    case _ => None
  }

  // Every line as a connection.
  function ReadLines(lines: seq<Text>): Option<seq<Connection>> {
    if lines == [] then Some([])
    else
      match (ReadLines(lines[..|lines| - 1]), ReadUri(lines[|lines| - 1]))
      case (Some(connections), Some(connection)) => Some(connections + [connection])
      case _ => None
  }

  // ---------- the round trip ----------

  lemma {:induction false} CutAtFirst(before: Text, at: CodeUnit, after: Text)
    requires at !in before
    ensures Cut(before + [at] + after, at) == Some((before, after))
  {
    var t := before + [at] + after;
    if before == [] {
      assert t[1..] == after;
    } else {
      assert t[1..] == before[1..] + [at] + after;
      assert t[0] in before;
      CutAtFirst(before[1..], at, after);
      assert before == [before[0]] + before[1..];
    }
  }

  lemma {:induction false} DecimalReadsBack(n: nat)
    ensures ReadDecimal(Decimal(n)) == Some(n) && Decimal(n) != []
  {
    if 10 <= n {
      DecimalReadsBack(n / 10);
      var t := Decimal(n);
      assert t[..|t| - 1] == Decimal(n / 10);
    }
  }

  lemma {:induction false} NothingToSplit(t: Text, at: CodeUnit)
    requires at !in t
    ensures Split(t, at) == [t]
  {
    if t != [] {
      assert t == [t[0]] + t[1..];
      NothingToSplit(t[1..], at);
    }
  }

  lemma {:induction false} SplitAtFirst(before: Text, at: CodeUnit, after: Text)
    requires at !in before
    ensures Split(before + [at] + after, at) == [before] + Split(after, at)
  {
    var t := before + [at] + after;
    if before == [] {
      assert t[1..] == after;
    } else {
      assert t[1..] == before[1..] + [at] + after;
      assert t[0] in before;
      SplitAtFirst(before[1..], at, after);
      assert before == [before[0]] + before[1..];
    }
  }

  // The query as the fields that it joins.
  function Query(server: Text): Text {
    Ascii("encryption") + [EQUALS] + Ascii("none") + [AMPERSAND]
    + (Ascii("security") + [EQUALS] + Ascii("tls") + [AMPERSAND]
       + (Ascii("type") + [EQUALS] + Ascii("tcp") + [AMPERSAND] + (Ascii("sni") + [EQUALS] + server)))
  }

  function Fields(server: Text): seq<(Text, Text)> {
    [(Ascii("encryption"), Ascii("none")), (Ascii("security"), Ascii("tls")), (Ascii("type"), Ascii("tcp")),
     (Ascii("sni"), server)]
  }

  lemma FieldReads(name: Text, value: Text)
    requires AMPERSAND !in name && AMPERSAND !in value && EQUALS !in name
    ensures Cut(name + [EQUALS] + value, EQUALS) == Some((name, value))
    ensures AMPERSAND !in name + [EQUALS] + value
  {
    CutAtFirst(name, EQUALS, value);
  }

  ghost predicate Lower(t: Text) {
    forall u | u in t :: 97 <= u <= 122
  }

  lemma NamesAreLower()
    ensures Lower(Ascii("encryption")) && Lower(Ascii("none")) && Lower(Ascii("security")) && Lower(Ascii("tls"))
    ensures Lower(Ascii("type")) && Lower(Ascii("tcp")) && Lower(Ascii("sni"))
  {
  }

  lemma FieldsRead(server: Text)
    requires AMPERSAND !in server
    ensures ReadFields(Split(Query(server), AMPERSAND)) == Some(Fields(server))
  {
    NamesAreLower();
    hide Ascii;
    var encryption, security := Ascii("encryption") + [EQUALS] + Ascii("none"),
      Ascii("security") + [EQUALS] + Ascii("tls");
    var type_, sni := Ascii("type") + [EQUALS] + Ascii("tcp"), Ascii("sni") + [EQUALS] + server;
    FieldReads(Ascii("encryption"), Ascii("none"));
    FieldReads(Ascii("security"), Ascii("tls"));
    FieldReads(Ascii("type"), Ascii("tcp"));
    FieldReads(Ascii("sni"), server);
    NothingToSplit(sni, AMPERSAND);
    SplitAtFirst(type_, AMPERSAND, sni);
    SplitAtFirst(security, AMPERSAND, type_ + [AMPERSAND] + sni);
    SplitAtFirst(encryption, AMPERSAND, security + [AMPERSAND] + (type_ + [AMPERSAND] + sni));
    assert Split(Query(server), AMPERSAND) == [encryption] + ([security] + ([type_] + [sni]));
    FourFields(encryption, security, type_, sni, Fields(server));
  }

  lemma FourFields(a: Text, b: Text, c: Text, d: Text, fields: seq<(Text, Text)>)
    requires |fields| == 4 && Cut(a, EQUALS) == Some(fields[0]) && Cut(b, EQUALS) == Some(fields[1])
    requires Cut(c, EQUALS) == Some(fields[2]) && Cut(d, EQUALS) == Some(fields[3])
    ensures ReadFields([a] + ([b] + ([c] + [d]))) == Some(fields)
  {
    hide Cut;
    assert [d][1..] == [] && ReadFields([d]) == Some([fields[3]] + []);
    assert [fields[3]] + [] == [fields[3]];
    OneMoreField(c, [d], fields[2], [fields[3]]);
    OneMoreField(b, [c] + [d], fields[1], [fields[2]] + [fields[3]]);
    OneMoreField(a, [b] + ([c] + [d]), fields[0], [fields[1]] + ([fields[2]] + [fields[3]]));
    assert fields == [fields[0]] + ([fields[1]] + ([fields[2]] + [fields[3]]));
  }

  lemma OneMoreField(part: Text, parts: seq<Text>, field: (Text, Text), fields: seq<(Text, Text)>)
    requires Cut(part, EQUALS) == Some(field) && ReadFields(parts) == Some(fields)
    ensures ReadFields([part] + parts) == Some([field] + fields)
  {
    assert ([part] + parts)[1..] == parts;
  }

  // What a route tells a client.
  function ConnectionOf(route: Route): Connection {
    Connection(route.credential, route.host, route.addressKind.Ipv6?, route.port, Fields(route.tlsServerName),
               route.displayName)
  }

  // A letter, a digit, a dot or a dash.
  predicate IsNameUnit(u: CodeUnit) {
    IsAlphanumeric(u) || u == DOT || u == DASH
  }

  lemma ServerNameUnits(t: Text)
    requires IsValidTlsServerName(t)
    ensures forall u | u in t :: IsNameUnit(u)
  {
    forall u | u in t ensures IsNameUnit(u) {
      if u != DOT {
        SplitCovers(t, DOT, u);
        var l :| l in Split(t, DOT) && u in l;
        assert ValidLabel(l);
      }
    }
  }

  // What the host may contain.
  ghost predicate HostIsFree(route: Route) {
    forall u | u in route.host :: IsNameUnit(u) || (route.addressKind.Ipv6? && u in {COLON, PERCENT})
  }

  lemma RenderableHostIsFree(route: Route, isIP: Text -> int)
    requires IsRenderable(route, isIP) && KnowsAddresses(isIP)
    ensures HostIsFree(route)
  {
    hide IsValidTlsServerName, CredentialShape, IsValidVlessDisplayName;
    if route.addressKind.Hostname? {
      ServerNameUnits(route.host);
    }
    forall u | u in route.host ensures IsNameUnit(u) || (route.addressKind.Ipv6? && u in {COLON, PERCENT}) {
    }
  }

  lemma AddressReads(route: Route)
    requires HostIsFree(route) && 1 <= route.port
    ensures ReadAddress(Address(route)) == Some((route.host, route.addressKind.Ipv6?, route.port))
  {
    var port := Decimal(route.port);
    DecimalReadsBack(route.port);
    assert Ascii("[") == [OPEN_BRACKET] && Ascii("]") == [CLOSE_BRACKET] && Ascii(":") == [COLON];
    hide Ascii, Decimal, ReadDecimal;
    if route.addressKind.Ipv6? {
      assert Address(route)[1..] == route.host + [CLOSE_BRACKET] + ([COLON] + port);
      CutAtFirst(route.host, CLOSE_BRACKET, [COLON] + port);
      assert ([COLON] + port)[1..] == port;
    } else {
      assert Address(route) == route.host + [COLON] + port;
      assert route.host != [] ==> route.host[0] in route.host;
      CutAtFirst(route.host, COLON, port);
    }
  }

  lemma AddressUnits(route: Route)
    requires HostIsFree(route) && 1 <= route.port
    ensures HASH !in Address(route) && QUESTION !in Address(route)
  {
    assert Ascii("[") == [OPEN_BRACKET] && Ascii("]") == [CLOSE_BRACKET] && Ascii(":") == [COLON];
  }

  lemma FirstParameter()
    ensures Ascii("?encryption=none") == [QUESTION] + Ascii("encryption") + [EQUALS] + Ascii("none")
  {
  }

  lemma SecondParameter()
    ensures Ascii("&security=tls") == [AMPERSAND] + Ascii("security") + [EQUALS] + Ascii("tls")
  {
  }

  lemma LastParameters()
    ensures Ascii("&type=tcp&sni=")
         == [AMPERSAND] + Ascii("type") + [EQUALS] + Ascii("tcp") + [AMPERSAND] + Ascii("sni") + [EQUALS]
  {
  }

  lemma ParametersAreQuery(route: Route)
    ensures Parameters(route) == [QUESTION] + Query(route.tlsServerName)
  {
    hide Ascii;
    FirstParameter();
    SecondParameter();
    LastParameters();
  }

  lemma QueryUnits(server: Text)
    requires forall u | u in server :: IsNameUnit(u)
    ensures HASH !in Query(server)
  {
    NamesAreLower();
    hide Ascii;
  }

  lemma CredentialUnits(t: Text)
    requires CredentialShape(t)
    ensures HASH !in t && QUESTION !in t && AT !in t
  {
  }

  lemma BodyReads(route: Route)
    requires HostIsFree(route) && 1 <= route.port && CredentialShape(route.credential)
    requires forall u | u in route.tlsServerName :: IsNameUnit(u)
    ensures ReadBody(route.credential + [AT] + Address(route), Query(route.tlsServerName), route.displayName)
         == Some(ConnectionOf(route))
  {
    hide CredentialShape, ReadAddress, Address, Query, ReadFields, HostIsFree, Fields, Split;
    CredentialUnits(route.credential);
    CutAtFirst(route.credential, AT, Address(route));
    AddressReads(route);
    FieldsRead(route.tlsServerName);
  }

  // The text after the scheme: its first # begins the label, and its first question mark the query.
  lemma TextReads(route: Route, tail: Text)
    requires HostIsFree(route) && 1 <= route.port && CredentialShape(route.credential)
    requires forall u | u in route.tlsServerName :: IsNameUnit(u)
    ensures var authority := route.credential + [AT] + Address(route);
            var body := authority + [QUESTION] + Query(route.tlsServerName);
            && Cut(body + [HASH] + tail, HASH) == Some((body, tail))
            && Cut(body, QUESTION) == Some((authority, Query(route.tlsServerName)))
  {
    hide CredentialShape, Address, Query, HostIsFree;
    CredentialUnits(route.credential);
    AddressUnits(route);
    QueryUnits(route.tlsServerName);
    var authority := route.credential + [AT] + Address(route);
    CutAtFirst(authority, QUESTION, Query(route.tlsServerName));
    CutAtFirst(authority + [QUESTION] + Query(route.tlsServerName), HASH, tail);
  }

  lemma PrefixParts(route: Route)
    requires 1 <= route.port
    ensures var body := route.credential + [AT] + Address(route) + [QUESTION] + Query(route.tlsServerName);
            Prefix(route) == Ascii("vless://") + body
  {
    assert Ascii("@") == [AT];
    ParametersAreQuery(route);
    hide Ascii, Address, Query, Parameters;
  }

  // Every rendered route reads back: its credential, host, port, parameters and display name.
  lemma RenderedReadsBack(route: Route, isIP: Text -> int)
    requires RenderVlessTcpTls(route, isIP).Uri? && KnowsAddresses(isIP)
    ensures ReadUri(RenderVlessTcpTls(route, isIP).text) == Some(ConnectionOf(route))
  {
    hide CredentialShape, IsValidTlsServerName, IsValidVlessDisplayName, DecodeURIComponent, EncodeURIComponent, Prefix,
         Address, Query, ReadBody, HostIsFree, Fields, Ascii;
    var uri, tail := RenderVlessTcpTls(route, isIP).text, EncodeURIComponent(route.displayName).text;
    var body := route.credential + [AT] + Address(route) + [QUESTION] + Query(route.tlsServerName);
    RenderableHostIsFree(route, isIP);
    ServerNameUnits(route.tlsServerName);
    EncodingRoundTrips(route.displayName);
    PrefixParts(route);
    assert uri == Ascii("vless://") + (body + [HASH] + tail);
    assert uri[|Ascii("vless://")|..] == body + [HASH] + tail;
    TextReads(route, tail);
    BodyReads(route);
  }

  // So no two routes that differ in what they tell a client share a URI.
  lemma RenderedTells(a: Route, b: Route, isIP: Text -> int)
    requires KnowsAddresses(isIP) && RenderVlessTcpTls(a, isIP).Uri?
    requires RenderVlessTcpTls(a, isIP) == RenderVlessTcpTls(b, isIP)
    ensures ConnectionOf(a) == ConnectionOf(b)
  {
    hide RenderVlessTcpTls;
    RenderedReadsBack(a, isIP);
    RenderedReadsBack(b, isIP);
  }
}
