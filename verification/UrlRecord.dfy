/**
 * URL records, hosts and serialising of lib/lws/url.js (sections 3.3, 3.5, 4.1 and 4.5 of the
 * WHATWG URL Standard), and the invariant every parsed record satisfies.
 *
 * The list path and the opaque path, told apart by a flag in the original, are two constructors.
 * Native IPv4 and IPv6 address parsing and printing are parameters, gathered in `Natives`.
 */
module UrlRecord {
  import opened Numerals
  import opened PercentCoding
  import opened Seqs
  import opened Wrappers

  /** A scheme: one constructor for each special scheme of the original's table, or its name. */
  datatype Protocol = Ftp | FileUrl | Http | Https | Ws | Wss | Plain(name: string)

  function Classify(name: string): (p: Protocol)
    ensures Name(p) == name
  {
    if name == "ftp" then Ftp
    else if name == "file" then FileUrl
    else if name == "http" then Http
    else if name == "https" then Https
    else if name == "ws" then Ws
    else if name == "wss" then Wss
    else Plain(name)
  }

  function Name(p: Protocol): string {
    match p
    case Ftp => "ftp"
    case FileUrl => "file"
    case Http => "http"
    case Https => "https"
    case Ws => "ws"
    case Wss => "wss"
    case Plain(name) => name
  }

  datatype Host = Domain(name: string) | Ipv4(address: nat) | Ipv6(pieces: seq<nat>)

  datatype Path = Segments(list: seq<string>) | Opaque(text: string)

  datatype Url = Url(
    scheme: Protocol,
    username: string,
    password: string,
    host: Option<Host>,
    port: Option<nat>,
    path: Path,
    query: Option<string>,
    fragment: Option<string>)

  datatype Natives = Natives(
    parse4: string -> Option<nat>,
    print4: nat -> string,
    parse6: string -> Option<seq<nat>>,
    print6: seq<nat> -> string)

  predicate IsPieces(p: seq<nat>) {
    |p| == 8 && forall k :: 0 <= k < |p| ==> p[k] < 0x10000
  }

  predicate DottedNumber(s: string) {
    s != "" && IsDigit(s[|s| - 1]) && forall k :: 0 <= k < |s| ==> IsDigit(s[k]) || s[k] == '.'
  }

  predicate ColonHex(s: string) {
    forall k :: 0 <= k < |s| ==> IsHex(s[k]) || s[k] == ':' || s[k] == '.'
  }

  /** What the URL code relies on: parsing inverts printing, and printing uses address characters. */
  ghost predicate Faithful(n: Natives) {
    && (forall s :: n.parse4(s).Some? ==> n.parse4(s).value < 0x1_0000_0000)
    && (forall s :: n.parse6(s).Some? ==> IsPieces(n.parse6(s).value))
    && (forall a: nat :: a < 0x1_0000_0000 ==> DottedNumber(n.print4(a)) && n.parse4(n.print4(a)) == Some(a))
    && (forall p :: IsPieces(p) ==> ColonHex(n.print6(p)) && n.parse6(n.print6(p)) == Some(p))
  }

  /** `toLowerCase` on the ASCII letters; domains outside ASCII are left as they are. */
  function Lower(c: char): char {
    if 'A' <= c <= 'Z' then (c as nat + 32) as char else c
  }

  function LowerCase(s: string): (t: string)
    ensures |t| == |s|
  {
    seq(|s|, k requires 0 <= k < |s| => Lower(s[k]))
  }

  predicate IsAlpha(c: char) {
    'a' <= c <= 'z' || 'A' <= c <= 'Z'
  }

  // Schemes

  function DefaultPort(scheme: Protocol): Option<nat> {
    match scheme
    case Ftp => Some(21)
    case Http | Ws => Some(80)
    case Https | Wss => Some(443)
    case FileUrl | Plain(_) => None
  }

  predicate IsSpecialScheme(scheme: Protocol) {
    !scheme.Plain?
  }

  predicate IsSpecial(url: Url) {
    IsSpecialScheme(url.scheme)
  }

  predicate IncludesCredentials(url: Url) {
    url.username != "" || url.password != ""
  }

  const NEW_URL := Url(Plain(""), "", "", None, None, Segments([]), None, None)

  // Segments

  /** `%2e` in either case at position `i`. */
  predicate EncodedDot(s: string, i: nat)
    requires i + 3 <= |s|
  {
    s[i] == '%' && s[i + 1] == '2' && Lower(s[i + 2]) == 'e'
  }

  predicate IsSingleDot(s: string) {
    (|s| == 1 && s[0] == '.') || (|s| == 3 && EncodedDot(s, 0))
  }

  predicate IsDoubleDot(s: string) {
    || (|s| == 2 && s[0] == '.' && s[1] == '.')
    || (|s| == 4 && ((s[0] == '.' && EncodedDot(s, 1)) || (EncodedDot(s, 0) && s[3] == '.')))
    || (|s| == 6 && EncodedDot(s, 0) && EncodedDot(s, 3))
  }

  predicate IsDriveLetter(s: string) {
    |s| == 2 && IsAlpha(s[0]) && (s[1] == ':' || s[1] == '|')
  }

  predicate IsNormalizedDriveLetter(s: string) {
    |s| == 2 && IsAlpha(s[0]) && s[1] == ':'
  }

  // Hosts

  predicate ForbiddenHost(c: char) {
    c in {'\0', '\t', '\n', '\r', ' ', '#', '/', ':', '<', '>', '?', '@', '[', '\\', ']', '^', '|'}
  }

  predicate ForbiddenDomain(c: char) {
    ForbiddenHost(c) || c == '%' || c as nat <= 0x1F || c as nat == 0x7F
  }

  /** The parts `parseIPv4Number` does not answer with NaN. */
  predicate IsIpv4Number(s: string) {
    if s == "" then false
    else if |s| >= 2 && s[0] == '0' && (s[1] == 'x' || s[1] == 'X') then AllHex(s[2..])
    else if |s| >= 2 && s[0] == '0' then forall k :: 1 <= k < |s| ==> '0' <= s[k] <= '7'
    else AllDigits(s)
  }

  function LastLabel(s: string): string {
    var parts := Split(s, '.');
    if |parts| > 1 && parts[|parts| - 1] == "" then parts[|parts| - 2] else parts[|parts| - 1]
  }

  predicate EndsInANumber(s: string) {
    var last := LastLabel(s);
    (last != "" && AllDigits(last)) || IsIpv4Number(last)
  }

  function ParseOpaqueHost(input: string): Option<Host> {
    if exists k :: 0 <= k < |input| && ForbiddenHost(input[k]) then None
    else Some(Domain(PercentEncode(input, C0)))
  }

  /** `parseHost`; `None` is a failure, and also the TypeError of decoding ill-formed UTF-8. */
  function ParseHost(n: Natives, input: string, special: bool): Option<Host> {
    if input != "" && input[0] == '[' then
      if input[|input| - 1] != ']' then None
      else
        var pieces :- n.parse6(input[1..|input| - 1]);
        Some(Ipv6(pieces))
    else if !special then ParseOpaqueHost(input)
    else if input == "" then None
    else
      var domain :- PercentDecodeString(input);
      var ascii := LowerCase(domain);
      if exists k :: 0 <= k < |ascii| && ForbiddenDomain(ascii[k]) then None
      else if EndsInANumber(ascii) then
        var address :- n.parse4(ascii);
        Some(Ipv4(address))
      else Some(Domain(ascii))
  }

  function SerializeHost(n: Natives, host: Host): string {
    match host
    case Domain(name) => name
    case Ipv4(address) => n.print4(address)
    case Ipv6(pieces) => "[" + n.print6(pieces) + "]"
  }

  // Serialising

  function SegmentsText(list: seq<string>): string {
    if list == [] then "" else "/" + list[0] + SegmentsText(list[1..])
  }

  function SerializePath(path: Path): string {
    match path
    case Opaque(text) => text
    case Segments(list) => SegmentsText(list)
  }

  function CredentialsText(url: Url): string {
    if !IncludesCredentials(url) then ""
    else url.username + (if url.password != "" then ":" + url.password else "") + "@"
  }

  function PortText(port: Option<nat>): string {
    if port.Some? then ":" + Decimal(port.value) else ""
  }

  function AuthorityText(n: Natives, url: Url): string {
    if url.host.None? then ""
    else "//" + CredentialsText(url) + SerializeHost(n, url.host.value) + PortText(url.port)
  }

  /** A list path that would otherwise read as an authority is kept apart by "/.". */
  function PathPrefix(url: Url): string {
    if url.host.None? && url.path.Segments? && |url.path.list| > 1 && url.path.list[0] == "" then "/." else ""
  }

  function QueryText(url: Url): string {
    if url.query.Some? then "?" + url.query.value else ""
  }

  function FragmentText(url: Url): string {
    if url.fragment.Some? then "#" + url.fragment.value else ""
  }

  function SerializeUrl(n: Natives, url: Url): string {
    Name(url.scheme) + ":" + AuthorityText(n, url) + PathPrefix(url) + SerializePath(url.path) + QueryText(url) +
    FragmentText(url)
  }

  // The record invariant

  predicate SchemeChar(c: char) {
    IsAlpha(c) || IsDigit(c) || c == '+' || c == '-' || c == '.'
  }

  predicate SchemeText(s: string) {
    s != "" && IsAlpha(s[0]) && forall k :: 0 <= k < |s| ==> SchemeChar(s[k]) && Lower(s[k]) == s[k]
  }

  predicate ValidScheme(p: Protocol) {
    SchemeText(Name(p)) && Classify(Name(p)) == p
  }

  predicate DomainChar(c: char) {
    !ForbiddenDomain(c) && Lower(c) == c
  }

  predicate ValidDomain(d: string) {
    d != "" && (forall k :: 0 <= k < |d| ==> DomainChar(d[k])) && !EndsInANumber(d)
  }

  predicate OpaqueHostChar(c: char) {
    Kept(C0, c) && !ForbiddenHost(c)
  }

  predicate ValidHost(scheme: Protocol, host: Host) {
    match host
    case Ipv4(a) => IsSpecialScheme(scheme) && a < 0x1_0000_0000
    case Ipv6(p) => IsPieces(p)
    case Domain(d) =>
      if scheme == FileUrl then d == "" || (ValidDomain(d) && d != "localhost")
      else if IsSpecialScheme(scheme) then ValidDomain(d)
      else forall k :: 0 <= k < |d| ==> OpaqueHostChar(d[k])
  }

  predicate HostNotEmpty(host: Option<Host>) {
    host.Some? && host.value != Domain("")
  }

  predicate SegmentChar(scheme: Protocol, c: char) {
    Kept(Path, c) && c != '/' && (IsSpecialScheme(scheme) ==> c != '\\')
  }

  predicate SegmentText(scheme: Protocol, s: string) {
    forall k :: 0 <= k < |s| ==> SegmentChar(scheme, s[k])
  }

  predicate ValidSegment(scheme: Protocol, s: string) {
    SegmentText(scheme, s) && !IsSingleDot(s) && !IsDoubleDot(s)
  }

  predicate ValidSegments(scheme: Protocol, list: seq<string>) {
    && (forall k :: 0 <= k < |list| ==> ValidSegment(scheme, list[k]))
    && (scheme == FileUrl && list != [] && IsDriveLetter(list[0]) ==> IsNormalizedDriveLetter(list[0]))
  }

  predicate OpaqueChar(c: char) {
    Kept(C0, c) && c != '?' && c != '#'
  }

  predicate OpaqueText(t: string) {
    && (forall k :: 0 <= k < |t| ==> OpaqueChar(t[k]))
    && (t != "" ==> t[0] != '/')
  }

  /** Scheme, credentials, host and port: the part of the invariant that holds before the path. */
  predicate ValidAuthority(url: Url) {
    && ValidScheme(url.scheme)
    && AllKept(url.username, Userinfo) && AllKept(url.password, Userinfo)
    && (url.host.Some? ==> ValidHost(url.scheme, url.host.value))
    && (IsSpecial(url) ==> url.host.Some?)
    && (IncludesCredentials(url) || url.port.Some? ==> HostNotEmpty(url.host) && url.scheme != FileUrl)
    && (url.port.Some? ==> url.port.value < 0x10000 && url.port != DefaultPort(url.scheme))
  }

  predicate ValidPath(url: Url) {
    match url.path
    case Segments(list) =>
      ValidSegments(url.scheme, list) && (IsSpecial(url) || url.host.None? ==> list != [])
    case Opaque(t) =>
      && OpaqueText(t) && !IsSpecial(url) && url.host.None?
      && (t != "" && t[|t| - 1] == ' ' ==> url.query.Some? || url.fragment.Some?)
  }

  function QuerySet(scheme: Protocol): EncodeSet {
    if IsSpecialScheme(scheme) then SpecialQuery else Query
  }

  predicate ValidUrl(url: Url) {
    && ValidAuthority(url) && ValidPath(url)
    && (url.query.Some? ==> AllKept(url.query.value, QuerySet(url.scheme)))
    && (url.fragment.Some? ==> AllKept(url.fragment.value, Fragment))
  }
}
