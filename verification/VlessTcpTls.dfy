// Printing a route as a URI, and reading the labels of a feed of such URIs back.
module VlessTcpTls {
  import opened Basics
  import opened PercentEncoding
  import opened DataPlaneCredential

  const HASH: CodeUnit := 35
  const DOT: CodeUnit := 46
  const CARRIAGE_RETURN: CodeUnit := 13
  const NEWLINE: CodeUnit := 10

  // ASCII text.
  function Ascii(s: string): (t: Text)
    ensures |t| == |s|
    ensures forall u | u in t :: u < 128
  {
    seq(|s|, i requires 0 <= i < |s| => if s[i] < 128 as char then s[i] as int else 63)
  }

  // ---------- validators ----------

  predicate ValidLabel(l: Text) {
    && 1 <= |l| <= 63
    && IsAlphanumeric(l[0]) && IsAlphanumeric(l[|l| - 1])
    && forall u | u in l :: IsAlphanumeric(u) || u == DASH
  }

  function Split(t: Text, at: CodeUnit): (parts: seq<Text>)
    ensures |parts| > 0
  {
    if t == [] then [[]]
    else
      var rest := Split(t[1..], at);
      if t[0] == at then [[]] + rest else [[t[0]] + rest[0]] + rest[1..]
  }

  // Splitting loses nothing but the separators.
  lemma {:induction false} SplitCovers(t: Text, at: CodeUnit, u: CodeUnit)
    requires u in t && u != at
    ensures exists p :: p in Split(t, at) && u in p
  {
    var rest, parts := Split(t[1..], at), Split(t, at);
    if u == t[0] {
      assert parts[0] == [u] + rest[0] && u in parts[0];
      assert parts[0] in parts;
    } else {
      assert t == [t[0]] + t[1..];
      SplitCovers(t[1..], at, u);
      var p :| p in rest && u in p;
      var i :| 0 <= i < |rest| && rest[i] == p;
      if t[0] == at {
        assert parts[i + 1] == p;
      } else {
        assert parts[i] == if i == 0 then [t[0]] + p else p;
        assert u in parts[i] && parts[i] in parts;
      }
    }
  }

  predicate IsValidTlsServerName(t: Text) {
    1 <= |t| <= 253 && forall l | l in Split(t, DOT) :: ValidLabel(l)
  }

  function CodePointLength(t: Text): nat {
    if t == [] then 0
    else if IsHighSurrogate(t[0]) && |t| >= 2 && IsLowSurrogate(t[1]) then 1 + CodePointLength(t[2..])
    else 1 + CodePointLength(t[1..])
  }

  predicate IsControl(u: CodeUnit) {
    u < 32 || 127 <= u < 160
  }

  predicate IsValidVlessDisplayName(t: Text) {
    1 <= CodePointLength(t) <= 128 && forall u | u in t :: !IsControl(u)
  }

  // ---------- printing ----------

  datatype AddressKind = Hostname | Ipv4 | Ipv6

  datatype Route = Route(
    host: Text, addressKind: AddressKind, port: int, credential: Text, tlsServerName: Text, displayName: Text)

  function Decimal(n: nat): (t: Text)
    ensures forall u | u in t :: 48 <= u <= 57
  {
    if n < 10 then [48 + n] else Decimal(n / 10) + [48 + n % 10]
  }

  datatype Rendering = Uri(text: Text) | NotRenderable | Throws

  predicate IsRenderable(route: Route, isIP: Text -> int) {
    && CredentialShape(route.credential)
    && 1 <= route.port <= 65535
    && IsValidVlessDisplayName(route.displayName)
    && IsValidTlsServerName(route.tlsServerName)
    && (route.addressKind.Ipv6? ==> isIP(route.host) == 6)
    && (route.addressKind.Ipv4? ==> isIP(route.host) == 4)
    && (route.addressKind.Hostname? ==> IsValidTlsServerName(route.host))
  }

  function Scheme(route: Route): Text {
    Ascii("vless://") + route.credential + Ascii("@")
  }

  function Address(route: Route): Text
    requires 1 <= route.port
  {
    (if route.addressKind.Ipv6? then Ascii("[") + route.host + Ascii("]") else route.host)
    + Ascii(":") + Decimal(route.port)
  }

  // A valid server name consists of characters that form encoding leaves as they are.
  function Parameters(route: Route): Text {
    Ascii("?encryption=none") + Ascii("&security=tls") + Ascii("&type=tcp&sni=") + route.tlsServerName
  }

  // Everything before the label.
  function Prefix(route: Route): Text
    requires 1 <= route.port
  {
    Scheme(route) + Address(route) + Parameters(route)
  }

  function RenderVlessTcpTls(route: Route, isIP: Text -> int): Rendering {
    if !IsRenderable(route, isIP) then NotRenderable
    else
      match EncodeURIComponent(route.displayName)
      case UriError => Throws
      case Component(name) => Uri(Prefix(route) + [HASH] + name)
  }

  // What is known of the library's test for addresses: one of the fourth version is letters, digits and
  // dots; one of the sixth is letters, digits, colons, dots, and what may follow its percent sign.
  ghost predicate KnowsAddresses(isIP: Text -> int) {
    forall t: Text, u: CodeUnit | u in t ::
      && (isIP(t) == 4 ==> IsAlphanumeric(u) || u == DOT)
      && (isIP(t) == 6 ==> IsAlphanumeric(u) || u in {DOT, DASH, 37, 58})
  }

  predicate IsPlain(u: CodeUnit) {
    32 < u < 127
  }

  lemma ServerNameIsPlain(t: Text)
    requires IsValidTlsServerName(t)
    ensures forall u | u in t :: IsPlain(u)
  {
    forall u | u in t ensures IsPlain(u) {
      if u != DOT {
        SplitCovers(t, DOT, u);
        var l :| l in Split(t, DOT) && u in l;
        assert ValidLabel(l);
      }
    }
  }

  predicate AllPlain(t: Text) {
    forall u | u in t :: IsPlain(u)
  }

  lemma PlainPieces(a: Text, b: Text)
    requires AllPlain(a) && AllPlain(b)
    ensures AllPlain(a + b)
  {
  }

  lemma CredentialIsPlain(t: Text)
    requires CredentialShape(t)
    ensures AllPlain(t)
  {
  }

  lemma PrefixIsPlain(route: Route)
    requires 1 <= route.port && CredentialShape(route.credential)
    requires AllPlain(route.host) && AllPlain(route.tlsServerName)
    ensures AllPlain(Prefix(route))
  {
    LiteralsArePlain();
    CredentialIsPlain(route.credential);
    assert AllPlain(Decimal(route.port));
    hide AllPlain, Ascii, CredentialShape;
    PlainPieces(Ascii("vless://"), route.credential);
    PlainPieces(Ascii("vless://") + route.credential, Ascii("@"));
    var host := if route.addressKind.Ipv6? then Ascii("[") + route.host + Ascii("]") else route.host;
    if route.addressKind.Ipv6? {
      PlainPieces(Ascii("["), route.host);
      PlainPieces(Ascii("[") + route.host, Ascii("]"));
    }
    PlainPieces(host, Ascii(":"));
    PlainPieces(host + Ascii(":"), Decimal(route.port));
    PlainPieces(Ascii("?encryption=none"), Ascii("&security=tls"));
    PlainPieces(Ascii("?encryption=none") + Ascii("&security=tls"), Ascii("&type=tcp&sni="));
    PlainPieces(Ascii("?encryption=none") + Ascii("&security=tls") + Ascii("&type=tcp&sni="), route.tlsServerName);
    PlainPieces(Scheme(route), Address(route));
    PlainPieces(Scheme(route) + Address(route), Parameters(route));
  }

  // A rendered URI is one line of visible ASCII, and its last # begins the label.
  lemma RenderedIsPlain(route: Route, isIP: Text -> int)
    requires RenderVlessTcpTls(route, isIP).Uri? && KnowsAddresses(isIP)
    ensures AllPlain(RenderVlessTcpTls(route, isIP).text)
    ensures forall u | u in EncodeURIComponent(route.displayName).text :: u != HASH
  {
    var name := EncodeURIComponent(route.displayName).text;
    EncodingIsPlain(route.displayName);
    ServerNameIsPlain(route.tlsServerName);
    if route.addressKind.Hostname? {
      ServerNameIsPlain(route.host);
    }
    PrefixIsPlain(route);
    PlainPieces(Prefix(route), [HASH]);
    PlainPieces(Prefix(route) + [HASH], name);
  }

  lemma LiteralsArePlain()
    ensures AllPlain(Ascii("vless://")) && AllPlain(Ascii("@")) && AllPlain(Ascii(":"))
    ensures AllPlain(Ascii("[")) && AllPlain(Ascii("]"))
    ensures AllPlain(Ascii("?encryption=none"))
    ensures AllPlain(Ascii("&security=tls"))
    ensures AllPlain(Ascii("&type=tcp&sni="))
  {
  }

  // ---------- reading the labels back ----------

  // The lines of a text, with either line ending.
  function Lines(t: Text): (lines: seq<Text>)
    ensures |lines| > 0
  {
    if t == [] then [[]]
    else if t[0] == NEWLINE then [[]] + Lines(t[1..])
    else if t[0] == CARRIAGE_RETURN && |t| >= 2 && t[1] == NEWLINE then [[]] + Lines(t[2..])
    else
      var rest := Lines(t[1..]);
      [[t[0]] + rest[0]] + rest[1..]
  }

  // The position of the last # of a line.
  function LastHash(line: Text): (r: Option<nat>)
    ensures r.Some? ==> r.value < |line| && line[r.value] == HASH && forall i | r.value < i < |line| :: line[i] != HASH
    ensures r.None? ==> HASH !in line
  {
    if line == [] then None
    else if line[|line| - 1] == HASH then Some(|line| - 1)
    else
      assert line == line[..|line| - 1] + [line[|line| - 1]];
      LastHash(line[..|line| - 1])
  }

  // The display name that a line carries, if it carries a valid one.
  function LabelOf(line: Text): Option<Text> {
    match LastHash(line)
    case None => None
    case Some(hash) =>
      match DecodeURIComponent(line[hash + 1..])
      case UriError => None
      case Component(name) => if IsValidVlessDisplayName(name) then Some(name) else None
  }

  // The labels of the lines that are not empty; none at all when one of them is invalid.
  function LabelsOf(lines: seq<Text>): Option<seq<Text>> {
    if lines == [] then Some([])
    else
      match LabelsOf(lines[..|lines| - 1])
      case None => None
      case Some(names) =>
        if lines[|lines| - 1] == [] then Some(names)
        else
          match LabelOf(lines[|lines| - 1])
          case None => None
          case Some(name) => Some(names + [name])
  }

  lemma {:induction false} InvalidStays(lines: seq<Text>, i: nat)
    requires i <= |lines| && LabelsOf(lines[..i]).None?
    ensures LabelsOf(lines).None?
  {
    hide LabelOf;
    if i < |lines| {
      var last := |lines| - 1;
      assert lines[..last][..i] == lines[..i];
      InvalidStays(lines[..last], i);
    } else {
      assert lines[..i] == lines;
    }
  }

  method ExtractSubscriptionFeedDisplayLabels(feed: Text) returns (r: Option<seq<Text>>)
    ensures r == LabelsOf(Lines(feed))
  {
    hide LabelOf, LastHash, IsValidVlessDisplayName;
    var lines := Lines(feed);
    var labels: seq<Text> := [];
    for i := 0 to |lines|
      invariant LabelsOf(lines[..i]) == Some(labels)
    {
      var line := lines[i];
      assert lines[..i + 1][..i] == lines[..i];
      if line == [] {
        continue;
      }
      var found := LabelOf(line);
      if found.None? {
        InvalidStays(lines, i + 1);
        return None;
      }
      labels := labels + [found.value];
    }
    assert lines[..|lines|] == lines;
    r := Some(labels);
  }

  function Join(lines: seq<Text>): Text {
    if lines == [] then []
    else if |lines| == 1 then lines[0]
    else lines[0] + [NEWLINE] + Join(lines[1..])
  }

  predicate IsLine(t: Text) {
    NEWLINE !in t && CARRIAGE_RETURN !in t
  }

  lemma {:induction false} LinesOfLine(a: Text, rest: Text)
    requires IsLine(a)
    ensures Lines(a + [NEWLINE] + rest) == [a] + Lines(rest)
    ensures Lines(a) == [a]
  {
    if a == [] {
      assert ([] + [NEWLINE] + rest)[1..] == rest;
    } else {
      assert a == [a[0]] + a[1..];
      LinesOfLine(a[1..], rest);
      assert (a + [NEWLINE] + rest)[1..] == a[1..] + [NEWLINE] + rest;
      assert a[0] in a;
    }
  }

  // Joining lines and splitting them again gives the lines back.
  lemma {:induction false} JoinRoundTrips(lines: seq<Text>)
    requires lines != [] && forall l | l in lines :: IsLine(l)
    ensures Lines(Join(lines)) == lines
  {
    if |lines| == 1 {
      LinesOfLine(lines[0], []);
    } else {
      assert forall l | l in lines[1..] :: l in lines;
      JoinRoundTrips(lines[1..]);
      LinesOfLine(lines[0], Join(lines[1..]));
      assert lines == [lines[0]] + lines[1..];
    }
  }

  lemma {:induction false} LastHashBeginsName(prefix: Text, name: Text)
    requires HASH !in name
    ensures LastHash(prefix + [HASH] + name) == Some(|prefix|)
  {
    var line := prefix + [HASH] + name;
    if name == [] {
      assert line[|line| - 1] == HASH;
    } else {
      var last := |name| - 1;
      assert name[last] in name && line[|line| - 1] == name[last];
      assert line[..|line| - 1] == prefix + [HASH] + name[..last];
      LastHashBeginsName(prefix, name[..last]);
    }
  }

  // A route's URI carries the route's display name.
  lemma RenderedCarriesName(route: Route, isIP: Text -> int)
    requires RenderVlessTcpTls(route, isIP).Uri? && KnowsAddresses(isIP)
    ensures LabelOf(RenderVlessTcpTls(route, isIP).text) == Some(route.displayName)
    ensures IsLine(RenderVlessTcpTls(route, isIP).text) && RenderVlessTcpTls(route, isIP).text != []
  {
    hide CredentialShape, IsValidTlsServerName, IsValidVlessDisplayName, DecodeURIComponent, EncodeURIComponent, Prefix;
    var name := EncodeURIComponent(route.displayName).text;
    var uri := RenderVlessTcpTls(route, isIP).text;
    RenderedIsPlain(route, isIP);
    EncodingRoundTrips(route.displayName);
    assert uri == Prefix(route) + [HASH] + name;
    LastHashBeginsName(Prefix(route), name);
    assert uri[|Prefix(route)| + 1..] == name;
  }

  // A route whose only fault is a display name with half a surrogate pair makes rendering
  // fail, and no other route does.
  lemma RenderingThrowsExactly(route: Route, isIP: Text -> int)
    ensures RenderVlessTcpTls(route, isIP).Throws? <==> IsRenderable(route, isIP) && !WellFormed(route.displayName)
  {
    hide CredentialShape, IsValidTlsServerName, IsValidVlessDisplayName;
    EncodingRoundTrips(route.displayName);
  }

  // Such a route: half a surrogate pair passes for a display name.
  lemma LoneSurrogateThrows(credential: Text, isIP: Text -> int)
    requires CredentialShape(credential)
    ensures RenderVlessTcpTls(Route([97], Hostname, 443, credential, [97], [0xD800]), isIP).Throws?
  {
    var host: Text := [97];
    var route := Route(host, Hostname, 443, credential, host, [0xD800]);
    assert Split(host, DOT) == [host] by {
      assert host[1..] == [] && Split([], DOT) == [[]];
      assert Split(host, DOT) == [[host[0]] + []] + [] && [host[0]] + [] == host;
    }
    assert IsValidTlsServerName(host);
    assert route.displayName[1..] == [];
    assert IsValidVlessDisplayName(route.displayName);
    RenderingThrowsExactly(route, isIP);
  }
}
