/**
 * The basic URL parser of lib/lws/url.js (section 4.4 of the WHATWG URL Standard), without state
 * override, as a step function on machine states; one function per `case` of the original.
 *
 * `Step` includes the `pointer++` at the end of the loop body.  The parser stops when the pointer
 * has passed the end of the input.
 */
module UrlMachine {
  import opened Numerals
  import opened PercentCoding
  import opened UrlRecord
  import opened Wrappers

  datatype State =
    | SchemeStart | Scheme | NoScheme | SpecialRelativeOrAuthority | PathOrAuthority | Relative | RelativeSlash
    | SpecialAuthoritySlashes | SpecialAuthorityIgnoreSlashes | Authority | HostName | PortNumber | File | FileSlash
    | FileHost | PathStart | PathSegment | OpaquePath | QueryPart | FragmentPart

  datatype Machine = Machine(
    state: State,
    buffer: string,
    atSignSeen: bool,
    insideBrackets: bool,
    passwordTokenSeen: bool,
    pointer: nat,
    url: Url)

  /** The fixed surroundings of one parse: host parser, code points, parsed base. */
  datatype Context = Context(parseHost: (string, bool) -> Option<Host>, cp: string, base: Option<Url>)

  /** `None` is the failure result. */
  type Outcome = Option<Machine>

  function At(x: Context, i: int): Option<char> {
    if 0 <= i < |x.cp| then Some(x.cp[i]) else None
  }

  /** `pointer--` before the loop's `pointer++`: the same code point is read again. */
  function Again(m: Machine, state: State): Machine {
    m.(state := state)
  }

  function Advance(m: Machine, state: State): Machine {
    m.(state := state, pointer := m.pointer + 1)
  }

  predicate BaseScheme(x: Context, scheme: Protocol) {
    x.base.Some? && x.base.value.scheme == scheme
  }

  /** `c` ends an authority, a host or a port. */
  predicate EndsAuthority(url: Url, c: Option<char>) {
    c == None || c == Some('/') || c == Some('?') || c == Some('#') || (IsSpecial(url) && c == Some('\\'))
  }

  predicate Slashish(url: Url, c: Option<char>) {
    c == Some('/') || (IsSpecial(url) && c == Some('\\'))
  }

  function Push(path: Path, segment: string): Path {
    match path
    case Segments(list) => Segments(list + [segment])
    case Opaque(_) => path
  }

  function Pop(path: Path): Path {
    match path
    case Segments(list) => if list == [] then path else Segments(list[..|list| - 1])
    case Opaque(_) => path
  }

  /** `shortenPath`. */
  function ShortenPath(url: Url): Url {
    if url.scheme == FileUrl && url.path.Segments? && |url.path.list| == 1 && IsNormalizedDriveLetter(url.path.list[0])
    then url
    else url.(path := Pop(url.path))
  }

  predicate StartsWithDriveLetter(cp: string, pointer: nat) {
    && pointer + 2 <= |cp|
    && IsDriveLetter([cp[pointer], cp[pointer + 1]])
    && (pointer + 2 == |cp| || cp[pointer + 2] in {'/', '\\', '?', '#'})
  }

  /** What keeps every step defined: no `null` base is read, no component is missing. */
  predicate Sane(x: Context, m: Machine) {
    m.pointer <= |x.cp| && Ready(x, m)
  }

  predicate Ready(x: Context, m: Machine) {
    match m.state
    case Scheme | HostName | FileHost | PathSegment => true
    case SpecialRelativeOrAuthority | Relative | RelativeSlash => m.buffer == "" && x.base.Some?
    case Authority => |m.buffer| <= m.pointer
    case PortNumber => AllDigits(m.buffer)
    case OpaquePath => m.buffer == "" && m.url.path.Opaque?
    case QueryPart => m.url.query.Some?
    case FragmentPart => m.buffer == "" && m.url.fragment.Some?
    case _ => m.buffer == ""
  }

  /** The order in which states can be entered; the pointer may move back only when this drops. */
  function Rank(state: State): nat {
    match state
    case SchemeStart => 19
    case Scheme => 18
    case NoScheme => 17
    case SpecialRelativeOrAuthority => 16
    case PathOrAuthority => 15
    case Relative => 14
    case RelativeSlash => 13
    case SpecialAuthoritySlashes => 12
    case SpecialAuthorityIgnoreSlashes => 11
    case Authority => 10
    case HostName => 9
    case PortNumber => 8
    case File => 7
    case FileSlash => 6
    case FileHost => 5
    case PathStart => 4
    case PathSegment => 3
    case OpaquePath => 2
    case QueryPart => 1
    case FragmentPart => 0
  }

  predicate Finished(x: Context, m: Machine) {
    m.pointer > |x.cp|
  }

  /** A step moves to a lower state or ahead in the input, and keeps the next step defined. */
  predicate Progress(x: Context, m: Machine, next: Machine) {
    && next.pointer <= |x.cp| + 1
    && (!Finished(x, next) ==> Sane(x, next))
    && (Rank(next.state) < Rank(m.state) || (next.state == m.state && next.pointer == m.pointer + 1))
  }

  function StepSchemeStart(x: Context, m: Machine): (r: Outcome)
    requires Sane(x, m) && m.state == SchemeStart
    ensures r.Some? ==> Progress(x, m, r.value)
  {
    var c := At(x, m.pointer);
    if c.Some? && IsAlpha(c.value) then Some(Advance(m, Scheme).(buffer := m.buffer + [Lower(c.value)]))
    else Some(Again(m, NoScheme))
  }

  /** The `:` after a scheme. */
  function EndScheme(x: Context, m: Machine, scheme: Protocol): (r: Machine)
    requires Sane(x, m) && m.state == Scheme && At(x, m.pointer) == Some(':')
    ensures Progress(x, m, r)
  {
    var url := m.url.(scheme := scheme);
    var next := m.(url := url, buffer := "");
    if scheme == FileUrl then Advance(next, File)
    else if IsSpecialScheme(scheme) && BaseScheme(x, scheme) then Advance(next, SpecialRelativeOrAuthority)
    else if IsSpecialScheme(scheme) then Advance(next, SpecialAuthoritySlashes)
    else if At(x, m.pointer + 1) == Some('/') then next.(state := PathOrAuthority, pointer := m.pointer + 2)
    else Advance(next, OpaquePath).(url := url.(path := Opaque("")))
  }

  function StepScheme(x: Context, m: Machine): (r: Outcome)
    requires Sane(x, m) && m.state == Scheme
    ensures r.Some? ==> Progress(x, m, r.value)
  {
    var c := At(x, m.pointer);
    if c.Some? && SchemeChar(c.value) then Some(Advance(m, Scheme).(buffer := m.buffer + [Lower(c.value)]))
    else if c == Some(':') then Some(EndScheme(x, m, Classify(m.buffer)))
    else Some(m.(state := NoScheme, buffer := "", pointer := 0))
  }

  function StepNoScheme(x: Context, m: Machine): (r: Outcome)
    requires Sane(x, m) && m.state == NoScheme
    ensures r.Some? ==> Progress(x, m, r.value)
  {
    var c := At(x, m.pointer);
    if x.base.None? then None
    else
      var base := x.base.value;
      if base.path.Opaque? && c != Some('#') then None
      else if base.path.Opaque? then
        Some(Advance(m, FragmentPart).(url := m.url.(
          scheme := base.scheme, path := base.path, query := base.query, fragment := Some(""))))
      else if base.scheme != FileUrl then Some(Again(m, Relative))
      else Some(Again(m, File))
  }

  function StepSpecialRelativeOrAuthority(x: Context, m: Machine): (r: Outcome)
    requires Sane(x, m) && m.state == SpecialRelativeOrAuthority
    ensures r.Some? ==> Progress(x, m, r.value)
  {
    if At(x, m.pointer) == Some('/') && At(x, m.pointer + 1) == Some('/') then
      Some(m.(state := SpecialAuthorityIgnoreSlashes, pointer := m.pointer + 2))
    else Some(Again(m, Relative))
  }

  function StepPathOrAuthority(x: Context, m: Machine): (r: Outcome)
    requires Sane(x, m) && m.state == PathOrAuthority
    ensures r.Some? ==> Progress(x, m, r.value)
  {
    if At(x, m.pointer) == Some('/') then Some(Advance(m, Authority)) else Some(Again(m, PathSegment))
  }

  /** A relative reference that inherits; `copy` has the base's credentials, host, port, path and query. */
  function InheritBase(x: Context, m: Machine, copy: Url): (r: Machine)
    requires Sane(x, m) && m.state == Relative
    ensures Progress(x, m, r)
  {
    var c := At(x, m.pointer);
    if c == Some('?') then Advance(m, QueryPart).(url := copy.(query := Some("")))
    else if c == Some('#') then Advance(m, FragmentPart).(url := copy.(fragment := Some("")))
    else if c.Some? then Again(m, PathSegment).(url := copy.(query := None, path := Pop(copy.path)))
    else Advance(m, Relative).(url := copy)
  }

  function StepRelative(x: Context, m: Machine): (r: Outcome)
    requires Sane(x, m) && m.state == Relative
    ensures r.Some? ==> Progress(x, m, r.value)
  {
    var base := x.base.value;
    var url := m.url.(scheme := base.scheme);
    if Slashish(url, At(x, m.pointer)) then Some(Advance(m, RelativeSlash).(url := url))
    else
      Some(InheritBase(x, m, url.(
        username := base.username, password := base.password, host := base.host, port := base.port,
        path := base.path, query := base.query)))
  }

  function StepRelativeSlash(x: Context, m: Machine): (r: Outcome)
    requires Sane(x, m) && m.state == RelativeSlash
    ensures r.Some? ==> Progress(x, m, r.value)
  {
    var c := At(x, m.pointer);
    var base := x.base.value;
    if IsSpecial(m.url) && (c == Some('/') || c == Some('\\')) then Some(Advance(m, SpecialAuthorityIgnoreSlashes))
    else if c == Some('/') then Some(Advance(m, Authority))
    else
      Some(Again(m, PathSegment).(url := m.url.(
        username := base.username, password := base.password, host := base.host, port := base.port)))
  }

  function StepSpecialAuthoritySlashes(x: Context, m: Machine): (r: Outcome)
    requires Sane(x, m) && m.state == SpecialAuthoritySlashes
    ensures r.Some? ==> Progress(x, m, r.value)
  {
    if At(x, m.pointer) == Some('/') && At(x, m.pointer + 1) == Some('/') then
      Some(m.(state := SpecialAuthorityIgnoreSlashes, pointer := m.pointer + 2))
    else Some(Again(m, SpecialAuthorityIgnoreSlashes))
  }

  function StepSpecialAuthorityIgnoreSlashes(x: Context, m: Machine): (r: Outcome)
    requires Sane(x, m) && m.state == SpecialAuthorityIgnoreSlashes
    ensures r.Some? ==> Progress(x, m, r.value)
  {
    var c := At(x, m.pointer);
    if c != Some('/') && c != Some('\\') then Some(Again(m, Authority))
    else Some(Advance(m, SpecialAuthorityIgnoreSlashes))
  }

  /** The loop over the buffer at an `@`: a first `:` starts the password. */
  function AddCredentials(url: Url, seen: bool, buffer: string): (Url, bool)
    decreases |buffer|
  {
    if buffer == "" then (url, seen)
    else if buffer[0] == ':' && !seen then AddCredentials(url, true, buffer[1..])
    else
      var enc := PercentEncodeChar(Userinfo, buffer[0]);
      AddCredentials(
        if seen then url.(password := url.password + enc) else url.(username := url.username + enc),
        seen, buffer[1..])
  }

  function StepAuthority(x: Context, m: Machine): (r: Outcome)
    requires Sane(x, m) && m.state == Authority
    ensures r.Some? ==> Progress(x, m, r.value)
  {
    var c := At(x, m.pointer);
    if c == Some('@') then
      var buffer := if m.atSignSeen then "%40" + m.buffer else m.buffer;
      var (url, seen) := AddCredentials(m.url, m.passwordTokenSeen, buffer);
      Some(Advance(m, Authority).(url := url, passwordTokenSeen := seen, atSignSeen := true, buffer := ""))
    else if EndsAuthority(m.url, c) then
      if m.atSignSeen && m.buffer == "" then None
      else Some(m.(state := HostName, pointer := m.pointer - |m.buffer|, buffer := ""))
    else Some(Advance(m, Authority).(buffer := m.buffer + [c.value]))
  }

  function StepHost(x: Context, m: Machine): (r: Outcome)
    requires Sane(x, m) && m.state == HostName
    ensures r.Some? ==> Progress(x, m, r.value)
  {
    var c := At(x, m.pointer);
    if c == Some(':') && !m.insideBrackets then
      if m.buffer == "" then None
      else
        var host :- x.parseHost(m.buffer, IsSpecial(m.url));
        Some(Advance(m, PortNumber).(url := m.url.(host := Some(host)), buffer := ""))
    else if EndsAuthority(m.url, c) then
      if IsSpecial(m.url) && m.buffer == "" then None
      else
        var host :- x.parseHost(m.buffer, IsSpecial(m.url));
        Some(Again(m, PathStart).(url := m.url.(host := Some(host)), buffer := ""))
    else
      var inside := if c == Some('[') then true else if c == Some(']') then false else m.insideBrackets;
      Some(Advance(m, HostName).(insideBrackets := inside, buffer := m.buffer + [c.value]))
  }

  function StepPort(x: Context, m: Machine): (r: Outcome)
    requires Sane(x, m) && m.state == PortNumber
    ensures r.Some? ==> Progress(x, m, r.value)
  {
    var c := At(x, m.pointer);
    if c.Some? && IsDigit(c.value) then Some(Advance(m, PortNumber).(buffer := m.buffer + [c.value]))
    else if EndsAuthority(m.url, c) then
      if m.buffer == "" then Some(Again(m, PathStart))
      else if DecimalValue(m.buffer) > 65535 then None
      else
        var port := DecimalValue(m.buffer);
        var kept := if Some(port) == DefaultPort(m.url.scheme) then None else Some(port);
        Some(Again(m, PathStart).(url := m.url.(port := kept), buffer := ""))
    else None
  }

  /** A `file` URL that inherits from a `file` base; `copy` has the base's host, path and query. */
  function InheritFile(x: Context, m: Machine, copy: Url): (r: Machine)
    requires Sane(x, m) && m.state == File
    ensures Progress(x, m, r)
  {
    var c := At(x, m.pointer);
    if c == Some('?') then Advance(m, QueryPart).(url := copy.(query := Some("")))
    else if c == Some('#') then Advance(m, FragmentPart).(url := copy.(fragment := Some("")))
    else if c.Some? then
      var reset := copy.(query := None);
      var url := if StartsWithDriveLetter(x.cp, m.pointer) then reset.(path := Segments([])) else ShortenPath(reset);
      Again(m, PathSegment).(url := url)
    else Advance(m, File).(url := copy)
  }

  function StepFile(x: Context, m: Machine): (r: Outcome)
    requires Sane(x, m) && m.state == File
    ensures r.Some? ==> Progress(x, m, r.value)
  {
    var c := At(x, m.pointer);
    var url := m.url.(scheme := FileUrl, host := Some(Domain("")));
    if c == Some('/') || c == Some('\\') then Some(Advance(m, FileSlash).(url := url))
    else if BaseScheme(x, FileUrl) then
      var base := x.base.value;
      Some(InheritFile(x, m, url.(host := base.host, path := base.path, query := base.query)))
    else Some(Again(m, PathSegment).(url := url))
  }

  function StepFileSlash(x: Context, m: Machine): (r: Outcome)
    requires Sane(x, m) && m.state == FileSlash
    ensures r.Some? ==> Progress(x, m, r.value)
  {
    var c := At(x, m.pointer);
    if c == Some('/') || c == Some('\\') then Some(Advance(m, FileHost))
    else if BaseScheme(x, FileUrl) then
      var base := x.base.value;
      var url := m.url.(host := base.host);
      Some(Again(m, PathSegment).(url :=
        if !StartsWithDriveLetter(x.cp, m.pointer) && base.path.Segments? && base.path.list != [] &&
           IsNormalizedDriveLetter(base.path.list[0])
        then url.(path := Push(url.path, base.path.list[0])) else url))
    else Some(Again(m, PathSegment))
  }

  function StepFileHost(x: Context, m: Machine): (r: Outcome)
    requires Sane(x, m) && m.state == FileHost
    ensures r.Some? ==> Progress(x, m, r.value)
  {
    var c := At(x, m.pointer);
    if c == None || c == Some('/') || c == Some('\\') || c == Some('?') || c == Some('#') then
      if IsDriveLetter(m.buffer) then Some(Again(m, PathSegment))
      else if m.buffer == "" then Some(Again(m, PathStart).(url := m.url.(host := Some(Domain("")))))
      else
        var host :- x.parseHost(m.buffer, IsSpecial(m.url));
        var kept := if host == Domain("localhost") then Domain("") else host;
        Some(Again(m, PathStart).(url := m.url.(host := Some(kept)), buffer := ""))
    else Some(Advance(m, FileHost).(buffer := m.buffer + [c.value]))
  }

  /** The start of a path that need not begin with a slash, or be there at all. */
  function PlainPathStart(x: Context, m: Machine): (r: Machine)
    requires Sane(x, m) && m.state == PathStart
    ensures Progress(x, m, r)
  {
    var c := At(x, m.pointer);
    if c == Some('?') then Advance(m, QueryPart).(url := m.url.(query := Some("")))
    else if c == Some('#') then Advance(m, FragmentPart).(url := m.url.(fragment := Some("")))
    else if c == Some('/') then Advance(m, PathSegment)
    else if c.Some? then Again(m, PathSegment)
    else Advance(m, PathStart)
  }

  function StepPathStart(x: Context, m: Machine): (r: Outcome)
    requires Sane(x, m) && m.state == PathStart
    ensures r.Some? ==> Progress(x, m, r.value)
  {
    var c := At(x, m.pointer);
    if !IsSpecial(m.url) then Some(PlainPathStart(x, m))
    else if c == Some('/') || c == Some('\\') then Some(Advance(m, PathSegment))
    else Some(Again(m, PathSegment))
  }

  /** What a finished segment does to the path. */
  function EndSegment(url: Url, buffer: string, slashish: bool): Url {
    if IsDoubleDot(buffer) then
      var short := ShortenPath(url);
      if slashish then short else short.(path := Push(short.path, ""))
    else if IsSingleDot(buffer) then
      if slashish then url else url.(path := Push(url.path, ""))
    else if url.scheme == FileUrl && url.path == Segments([]) && IsDriveLetter(buffer) then
      url.(path := Push(url.path, [buffer[0], ':']))
    else url.(path := Push(url.path, buffer))
  }

  /** Goes on behind a finished segment, with the URL it produced. */
  function AfterSegment(x: Context, m: Machine, url: Url): (r: Machine)
    requires Sane(x, m) && m.state == PathSegment
    ensures Progress(x, m, r)
  {
    var c := At(x, m.pointer);
    var next := m.(url := url, buffer := "");
    if c == Some('?') then Advance(next, QueryPart).(url := url.(query := Some("")))
    else if c == Some('#') then Advance(next, FragmentPart).(url := url.(fragment := Some("")))
    else Advance(next, PathSegment)
  }

  function StepPath(x: Context, m: Machine): (r: Outcome)
    requires Sane(x, m) && m.state == PathSegment
    ensures r.Some? ==> Progress(x, m, r.value)
  {
    var c := At(x, m.pointer);
    if c == None || Slashish(m.url, c) || c == Some('?') || c == Some('#') then
      Some(AfterSegment(x, m, EndSegment(m.url, m.buffer, Slashish(m.url, c))))
    else Some(Advance(m, PathSegment).(buffer := m.buffer + PercentEncodeChar(Path, c.value)))
  }

  function StepOpaquePath(x: Context, m: Machine): (r: Outcome)
    requires Sane(x, m) && m.state == OpaquePath
    ensures r.Some? ==> Progress(x, m, r.value)
  {
    var c := At(x, m.pointer);
    if c == Some('?') then Some(Advance(m, QueryPart).(url := m.url.(query := Some(""))))
    else if c == Some('#') then Some(Advance(m, FragmentPart).(url := m.url.(fragment := Some(""))))
    else if c.Some? then
      Some(Advance(m, OpaquePath).(url := m.url.(path := Opaque(m.url.path.text + PercentEncodeChar(C0, c.value)))))
    else Some(Advance(m, OpaquePath))
  }

  function StepQuery(x: Context, m: Machine): (r: Outcome)
    requires Sane(x, m) && m.state == QueryPart
    ensures r.Some? ==> Progress(x, m, r.value)
  {
    var c := At(x, m.pointer);
    if c == None || c == Some('#') then
      var query := m.url.query.value + PercentEncode(m.buffer, QuerySet(m.url.scheme));
      var next := m.(url := m.url.(query := Some(query)), buffer := "");
      if c == Some('#') then Some(Advance(next, FragmentPart).(url := next.url.(fragment := Some(""))))
      else Some(Advance(next, QueryPart))
    else Some(Advance(m, QueryPart).(buffer := m.buffer + [c.value]))
  }

  function StepFragment(x: Context, m: Machine): (r: Outcome)
    requires Sane(x, m) && m.state == FragmentPart
    ensures r.Some? ==> Progress(x, m, r.value)
  {
    var c := At(x, m.pointer);
    if c.None? then Some(Advance(m, FragmentPart))
    else
      Some(Advance(m, FragmentPart).(url := m.url.(
        fragment := Some(m.url.fragment.value + PercentEncodeChar(Fragment, c.value)))))
  }

  function Step(x: Context, m: Machine): (r: Outcome)
    requires Sane(x, m)
    ensures r.Some? ==> Progress(x, m, r.value)
  {
    match m.state
    case SchemeStart => StepSchemeStart(x, m)
    case Scheme => StepScheme(x, m)
    case NoScheme => StepNoScheme(x, m)
    case SpecialRelativeOrAuthority => StepSpecialRelativeOrAuthority(x, m)
    case PathOrAuthority => StepPathOrAuthority(x, m)
    case Relative => StepRelative(x, m)
    case RelativeSlash => StepRelativeSlash(x, m)
    case SpecialAuthoritySlashes => StepSpecialAuthoritySlashes(x, m)
    case SpecialAuthorityIgnoreSlashes => StepSpecialAuthorityIgnoreSlashes(x, m)
    case Authority => StepAuthority(x, m)
    case HostName => StepHost(x, m)
    case PortNumber => StepPort(x, m)
    case File => StepFile(x, m)
    case FileSlash => StepFileSlash(x, m)
    case FileHost => StepFileHost(x, m)
    case PathStart => StepPathStart(x, m)
    case PathSegment => StepPath(x, m)
    case OpaquePath => StepOpaquePath(x, m)
    case QueryPart => StepQuery(x, m)
    case FragmentPart => StepFragment(x, m)
  }

  /** The parser's loop: runs until the pointer has passed the end of the input. */
  function Run(x: Context, m: Machine): Option<Url>
    requires Sane(x, m)
    decreases Rank(m.state), |x.cp| + 1 - m.pointer
  {
    var next :- Step(x, m);
    if Finished(x, next) then Some(next.url) else Run(x, next)
  }

  predicate Trimmed(c: char) {
    c as nat <= 0x20
  }

  function TrimLeft(s: string): string {
    if s != "" && Trimmed(s[0]) then TrimLeft(s[1..]) else s
  }

  function TrimRight(s: string): string {
    if s != "" && Trimmed(s[|s| - 1]) then TrimRight(s[..|s| - 1]) else s
  }

  function RemoveTabsAndNewlines(s: string): string {
    if s == "" then ""
    else if s[0] in {'\t', '\n', '\r'} then RemoveTabsAndNewlines(s[1..])
    else [s[0]] + RemoveTabsAndNewlines(s[1..])
  }

  function CodePoints(input: string): string {
    RemoveTabsAndNewlines(TrimRight(TrimLeft(input)))
  }

  const START := Machine(SchemeStart, "", false, false, false, 0, NEW_URL)

  function HostParser(n: Natives): (string, bool) -> Option<Host> {
    (input, special) => ParseHost(n, input, special)
  }

  /** `basicURLParse(input, base)`. */
  function Parse(n: Natives, input: string, base: Option<Url>): Option<Url> {
    Run(Context(HostParser(n), CodePoints(input), base), START)
  }
}
