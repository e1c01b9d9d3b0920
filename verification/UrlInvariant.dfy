/**
 * What every state of the basic URL parser keeps, and the record it leaves: each URL returned
 * by `Parse` satisfies `ValidUrl`.
 */
module UrlInvariant {
  import opened Numerals
  import opened PercentCoding
  import opened Seqs
  import opened UrlMachine
  import opened UrlRecord
  import opened Wrappers
  import Utf8

  /** What a host parser may answer for the text `s`. */
  predicate ParsedHost(s: string, special: bool, host: Host) {
    match host
    case Ipv4(a) => special && a < 0x1_0000_0000
    case Ipv6(p) => IsPieces(p)
    case Domain(d) =>
      if special then ValidDomain(d)
      else (d == "" ==> s == "") && forall k :: 0 <= k < |d| ==> OpaqueHostChar(d[k])
  }

  ghost predicate GoodParser(parse: (string, bool) -> Option<Host>) {
    forall s, special :: parse(s, special).Some? ==> ParsedHost(s, special, parse(s, special).value)
  }

  /** Nothing is known of the record but, perhaps, its scheme. */
  predicate OnlyScheme(url: Url) {
    url == NEW_URL.(scheme := url.scheme)
  }

  predicate Fresh(url: Url) {
    OnlyScheme(url) && ValidScheme(url.scheme)
  }

  predicate SpecialNotFile(url: Url) {
    IsSpecial(url) && url.scheme != FileUrl
  }

  /** A base that a relative reference may inherit its path from. */
  predicate PathBase(x: Context) {
    x.base.Some? && x.base.value.scheme != FileUrl && x.base.value.path.Segments?
  }

  /** Scheme and credentials are known, nothing else. */
  predicate OnlyCredentials(url: Url) {
    && url == NEW_URL.(scheme := url.scheme, username := url.username, password := url.password)
    && ValidScheme(url.scheme) && url.scheme != FileUrl
    && AllKept(url.username, Userinfo) && AllKept(url.password, Userinfo)
  }

  /** The authority buffer is the input just read, without `@` and without terminators. */
  predicate AuthorityBuffer(x: Context, m: Machine) {
    && |m.buffer| <= m.pointer <= |x.cp|
    && (forall k :: 0 <= k < |m.buffer| ==>
          m.buffer[k] == x.cp[m.pointer - |m.buffer| + k] && !EndsAuthority(m.url, Some(m.buffer[k])))
  }

  predicate EmptyFile(url: Url) {
    url == NEW_URL.(scheme := FileUrl, host := Some(Domain("")))
  }

  /** Everything before the path is settled, nothing after it has begun. */
  predicate BeforeQuery(url: Url) {
    ValidAuthority(url) && url.query.None? && url.fragment.None?
  }

  predicate Inv(x: Context, m: Machine) {
    var url := m.url;
    match m.state
    case SchemeStart | NoScheme => url == NEW_URL
    case Scheme => url == NEW_URL && SchemeText(m.buffer)
    case SpecialRelativeOrAuthority => Fresh(url) && SpecialNotFile(url) && PathBase(x)
    case PathOrAuthority => Fresh(url) && !IsSpecial(url)
    case Relative => OnlyScheme(url) && PathBase(x)
    case RelativeSlash => Fresh(url) && PathBase(x) && url.scheme == x.base.value.scheme
    case SpecialAuthoritySlashes | SpecialAuthorityIgnoreSlashes => Fresh(url) && SpecialNotFile(url)
    case Authority =>
      OnlyCredentials(url) && AuthorityBuffer(x, m) && (!m.atSignSeen ==> !IncludesCredentials(url))
    case HostName =>
      OnlyCredentials(url) && (IncludesCredentials(url) && m.buffer == "" ==> !EndsAuthority(url, At(x, m.pointer)))
    case PortNumber =>
      && ValidAuthority(url) && HostNotEmpty(url.host) && url.scheme != FileUrl && url.port.None?
      && url.path == Segments([]) && url.query.None? && url.fragment.None?
    case File => OnlyScheme(url)
    case FileSlash | FileHost => EmptyFile(url)
    case PathStart => BeforeQuery(url) && url.host.Some? && url.path == Segments([])
    case PathSegment =>
      && BeforeQuery(url) && url.path.Segments? && ValidSegments(url.scheme, url.path.list)
      && SegmentText(url.scheme, m.buffer)
    case OpaquePath =>
      && Fresh(url.(path := Segments([]))) && !IsSpecial(url) && url.path.Opaque? && OpaqueText(url.path.text)
      && (url.path.text == "" ==> At(x, m.pointer) != Some('/'))
      && EndsAsRead(x, m)
    case QueryPart => ValidAuthority(url) && ValidPath(url) && url.query == Some("") && url.fragment.None?
    case FragmentPart => ValidUrl(url)
  }

  /** An opaque path that ends with a space was read up to a space. */
  predicate EndsAsRead(x: Context, m: Machine)
    requires m.url.path.Opaque?
  {
    var t := m.url.path.text;
    t != "" && t[|t| - 1] == ' ' ==> At(x, m.pointer as int - 1) == Some(' ')
  }

  /** The input was trimmed, so it does not end with a space. */
  predicate NoFinalSpace(cp: string) {
    cp != "" ==> cp[|cp| - 1] != ' '
  }

  ghost predicate Surroundings(x: Context) {
    GoodParser(x.parseHost) && (x.base.Some? ==> ValidUrl(x.base.value)) && NoFinalSpace(x.cp)
  }

  /** The state after a step: a valid record when the input is used up, else the invariant again. */
  predicate StillGood(x: Context, r: Outcome) {
    r.Some? ==> if Finished(x, r.value) then ValidUrl(r.value.url) else Inv(x, r.value)
  }

  // Entering the states that several other states lead to

  lemma EntersQuery(x: Context, m: Machine, url: Url)
    requires ValidAuthority(url) && ValidPath(url) && url.fragment.None?
    ensures Inv(x, Advance(m, QueryPart).(url := url.(query := Some(""))))
  {
  }

  lemma EntersFragment(x: Context, m: Machine, url: Url)
    requires ValidUrl(url)
    ensures Inv(x, Advance(m, FragmentPart).(url := url.(fragment := Some(""))))
  {
  }

  lemma EntersPath(x: Context, m: Machine, url: Url)
    requires BeforeQuery(url) && url.path.Segments? && ValidSegments(url.scheme, url.path.list)
    requires m.buffer == ""
    ensures Inv(x, Again(m, PathSegment).(url := url))
  {
  }

  lemma KeepSchemeStart(x: Context, m: Machine)
    requires Sane(x, m) && m.state == SchemeStart && Inv(x, m)
    ensures StillGood(x, StepSchemeStart(x, m))
  {
  }

  lemma ClassifyValid(s: string)
    requires SchemeText(s)
    ensures ValidScheme(Classify(s))
  {
  }

  lemma KeepEndSpecial(x: Context, m: Machine, scheme: Protocol)
    requires Sane(x, m) && m.state == Scheme && m.url == NEW_URL && At(x, m.pointer) == Some(':')
    requires ValidScheme(scheme) && IsSpecialScheme(scheme) && (x.base.Some? ==> ValidUrl(x.base.value))
    ensures StillGood(x, Some(EndScheme(x, m, scheme)))
  {
    hide ValidAuthority, ValidSegments, BeforeQuery;
  }

  lemma KeepEndScheme(x: Context, m: Machine, scheme: Protocol)
    requires Sane(x, m) && m.state == Scheme && m.url == NEW_URL && At(x, m.pointer) == Some(':')
    requires ValidScheme(scheme) && (x.base.Some? ==> ValidUrl(x.base.value))
    ensures StillGood(x, Some(EndScheme(x, m, scheme)))
  {
    hide ValidAuthority, ValidSegments, BeforeQuery;
    if IsSpecialScheme(scheme) {
      KeepEndSpecial(x, m, scheme);
    }
  }

  lemma LowerSchemeChar(s: string, c: char)
    requires SchemeText(s) && SchemeChar(c)
    ensures SchemeText(s + [Lower(c)])
  {
  }

  lemma KeepScheme(x: Context, m: Machine)
    requires Sane(x, m) && m.state == Scheme && Inv(x, m) && Surroundings(x)
    ensures StillGood(x, StepScheme(x, m))
  {
    var c := At(x, m.pointer);
    if c.Some? && SchemeChar(c.value) {
      LowerSchemeChar(m.buffer, c.value);
    } else if c == Some(':') {
      ClassifyValid(m.buffer);
      KeepEndScheme(x, m, Classify(m.buffer));
    }
  }

  lemma KeepNoScheme(x: Context, m: Machine)
    requires Sane(x, m) && m.state == NoScheme && Inv(x, m) && (x.base.Some? ==> ValidUrl(x.base.value))
    ensures StillGood(x, StepNoScheme(x, m))
  {
  }

  lemma KeepSpecialRelativeOrAuthority(x: Context, m: Machine)
    requires Sane(x, m) && m.state == SpecialRelativeOrAuthority && Inv(x, m)
    ensures StillGood(x, StepSpecialRelativeOrAuthority(x, m))
  {
  }

  lemma KeepPathOrAuthority(x: Context, m: Machine)
    requires Sane(x, m) && m.state == PathOrAuthority && Inv(x, m)
    ensures StillGood(x, StepPathOrAuthority(x, m))
  {
  }

  /** A record without its fragment is still valid, unless the fragment kept a final space apart. */
  lemma WithoutFragment(url: Url)
    requires ValidUrl(url) && url.path.Segments?
    ensures ValidUrl(url.(fragment := None))
  {
  }

  lemma KeepInheritBase(x: Context, m: Machine, copy: Url)
    requires Sane(x, m) && m.state == Relative
    requires ValidUrl(copy) && copy.path.Segments? && copy.scheme != FileUrl && copy.fragment.None?
    ensures StillGood(x, Some(InheritBase(x, m, copy)))
  {
    var c := At(x, m.pointer);
    if c == Some('?') {
      EntersQuery(x, m, copy);
    } else if c == Some('#') {
      EntersFragment(x, m, copy);
    } else if c.Some? {
      EntersPath(x, m, copy.(query := None, path := Pop(copy.path)));
    }
  }

  lemma KeepRelative(x: Context, m: Machine)
    requires Sane(x, m) && m.state == Relative && Inv(x, m) && (x.base.Some? ==> ValidUrl(x.base.value))
    ensures StillGood(x, StepRelative(x, m))
  {
    var base := x.base.value;
    var url := m.url.(scheme := base.scheme);
    if !Slashish(url, At(x, m.pointer)) {
      WithoutFragment(base);
      KeepInheritBase(x, m, base.(fragment := None));
      assert base.(fragment := None) == url.(
        username := base.username, password := base.password, host := base.host, port := base.port,
        path := base.path, query := base.query);
    }
  }

  lemma KeepRelativeSlash(x: Context, m: Machine)
    requires Sane(x, m) && m.state == RelativeSlash && Inv(x, m) && (x.base.Some? ==> ValidUrl(x.base.value))
    ensures StillGood(x, StepRelativeSlash(x, m))
  {
    hide ValidUrl, ValidAuthority, ValidPath, ValidSegments, BeforeQuery;
    var c := At(x, m.pointer);
    var base := x.base.value;
    if c != Some('/') && !(IsSpecial(m.url) && c == Some('\\')) {
      InheritsAuthority(m.url, base);
      EntersPath(x, m, m.url.(
        username := base.username, password := base.password, host := base.host, port := base.port));
    }
  }

  /** A record that takes its authority over from a base. */
  lemma InheritsAuthority(url: Url, base: Url)
    requires Fresh(url) && ValidUrl(base) && base.scheme == url.scheme && base.path.Segments?
    ensures
      var copy := url.(username := base.username, password := base.password, host := base.host, port := base.port);
      BeforeQuery(copy) && copy.path == Segments([]) && ValidSegments(copy.scheme, [])
  {
  }

  lemma KeepSpecialAuthoritySlashes(x: Context, m: Machine)
    requires Sane(x, m) && m.state == SpecialAuthoritySlashes && Inv(x, m)
    ensures StillGood(x, StepSpecialAuthoritySlashes(x, m))
  {
  }

  lemma KeepSpecialAuthorityIgnoreSlashes(x: Context, m: Machine)
    requires Sane(x, m) && m.state == SpecialAuthorityIgnoreSlashes && Inv(x, m)
    ensures StillGood(x, StepSpecialAuthorityIgnoreSlashes(x, m))
  {
  }

  /** One encoded character consists of kept characters; only a kept one is copied. */
  lemma EncodedChar(set_: EncodeSet, c: char)
    requires Idempotent(set_)
    ensures AllKept(PercentEncodeChar(set_, c), set_)
    ensures PercentEncodeChar(set_, c) != ""
    ensures forall k :: 0 <= k < |PercentEncodeChar(set_, c)| ==>
              var e := PercentEncodeChar(set_, c)[k];
              e == c || e == '%' || '0' <= e <= '9' || 'A' <= e <= 'F'
  {
    if !PercentCoding.Kept(set_, c) {
      PercentBytesKept(Utf8.EncodeChar(c), set_);
      PercentBytesPlain(Utf8.EncodeChar(c));
    }
  }

  lemma {:induction false} PercentBytesPlain(bs: seq<byte>)
    ensures |FlatMap(PercentByte, bs)| >= |bs|
    ensures forall k :: 0 <= k < |FlatMap(PercentByte, bs)| ==>
              var e := FlatMap(PercentByte, bs)[k];
              e == '%' || '0' <= e <= '9' || 'A' <= e <= 'F'
  {
    if bs != [] {
      PercentBytesPlain(bs[1..]);
    }
  }

  lemma {:induction false} AddCredentialsKeeps(url: Url, seen: bool, buffer: string)
    requires OnlyCredentials(url)
    ensures OnlyCredentials(AddCredentials(url, seen, buffer).0)
    ensures AddCredentials(url, seen, buffer).0.scheme == url.scheme
    decreases |buffer|
  {
    if buffer == "" {
    } else if buffer[0] == ':' && !seen {
      AddCredentialsKeeps(url, true, buffer[1..]);
    } else {
      EncodedChar(Userinfo, buffer[0]);
      var enc := PercentEncodeChar(Userinfo, buffer[0]);
      AddCredentialsKeeps(
        if seen then url.(password := url.password + enc) else url.(username := url.username + enc),
        seen, buffer[1..]);
    }
  }

  lemma KeepAtSign(x: Context, m: Machine)
    requires Sane(x, m) && m.state == Authority && Inv(x, m) && At(x, m.pointer) == Some('@')
    ensures StillGood(x, StepAuthority(x, m))
  {
    AddCredentialsKeeps(m.url, m.passwordTokenSeen, if m.atSignSeen then "%40" + m.buffer else m.buffer);
  }

  lemma KeepAuthorityChar(x: Context, m: Machine, c: char)
    requires Sane(x, m) && m.state == Authority && Inv(x, m)
    requires At(x, m.pointer) == Some(c) && !EndsAuthority(m.url, Some(c))
    ensures Inv(x, Advance(m, Authority).(buffer := m.buffer + [c]))
  {
  }

  lemma KeepAuthority(x: Context, m: Machine)
    requires Sane(x, m) && m.state == Authority && Inv(x, m)
    ensures StillGood(x, StepAuthority(x, m))
  {
    var c := At(x, m.pointer);
    if c == Some('@') {
      KeepAtSign(x, m);
    } else if EndsAuthority(m.url, c) {
      if m.buffer != "" {
        assert At(x, m.pointer - |m.buffer|) == Some(m.buffer[0]);
      }
    } else {
      KeepAuthorityChar(x, m, c.value);
    }
  }

  /** The host a `host` state accepts fits the record's scheme, and is empty only for empty text. */
  lemma HostFits(x: Context, m: Machine)
    requires GoodParser(x.parseHost) && OnlyCredentials(m.url)
    requires x.parseHost(m.buffer, IsSpecial(m.url)).Some?
    ensures
      var host := x.parseHost(m.buffer, IsSpecial(m.url)).value;
      ValidHost(m.url.scheme, host) && (m.buffer != "" ==> HostNotEmpty(Some(host)))
  {
  }

  lemma KeepEndHost(x: Context, m: Machine)
    requires Sane(x, m) && m.state == HostName && Inv(x, m) && GoodParser(x.parseHost)
    requires (At(x, m.pointer) == Some(':') && !m.insideBrackets) || EndsAuthority(m.url, At(x, m.pointer))
    ensures StillGood(x, StepHost(x, m))
  {
    if x.parseHost(m.buffer, IsSpecial(m.url)).Some? {
      HostFits(x, m);
    }
  }

  lemma KeepHost(x: Context, m: Machine)
    requires Sane(x, m) && m.state == HostName && Inv(x, m) && GoodParser(x.parseHost)
    ensures StillGood(x, StepHost(x, m))
  {
    var c := At(x, m.pointer);
    if (c == Some(':') && !m.insideBrackets) || EndsAuthority(m.url, c) {
      KeepEndHost(x, m);
    }
  }

  lemma KeepPort(x: Context, m: Machine)
    requires Sane(x, m) && m.state == PortNumber && Inv(x, m)
    ensures StillGood(x, StepPort(x, m))
  {
    hide ValidUrl, ValidPath, ValidSegments, ValidAuthority;
    var c := At(x, m.pointer);
    if !(c.Some? && IsDigit(c.value)) && EndsAuthority(m.url, c) && m.buffer != "" {
      PortSet(m.url, DecimalValue(m.buffer));
    } else {
      HostThere(m.url);
    }
  }

  /** A port in range keeps the authority valid; the default port is dropped. */
  lemma PortSet(url: Url, port: nat)
    requires ValidAuthority(url) && HostNotEmpty(url.host) && url.scheme != FileUrl && url.port.None?
    ensures port <= 65535 ==>
              ValidAuthority(url.(port := if Some(port) == DefaultPort(url.scheme) then None else Some(port)))
    ensures url.host.Some? && ValidSegments(url.scheme, [])
  {
  }

  lemma HostThere(url: Url)
    requires HostNotEmpty(url.host)
    ensures url.host.Some? && ValidSegments(url.scheme, [])
  {
  }

  lemma ShortenKeeps(url: Url)
    requires url.path.Segments? && ValidSegments(url.scheme, url.path.list)
    ensures var r := ShortenPath(url);
      r == url.(path := r.path) && r.path.Segments? && ValidSegments(url.scheme, r.path.list)
  {
  }

  lemma KeepInheritFile(x: Context, m: Machine, copy: Url)
    requires Sane(x, m) && m.state == File
    requires ValidUrl(copy) && copy.scheme == FileUrl && copy.path.Segments? && copy.fragment.None?
    ensures StillGood(x, Some(InheritFile(x, m, copy)))
  {
    var c := At(x, m.pointer);
    if c == Some('?') {
      EntersQuery(x, m, copy);
    } else if c == Some('#') {
      EntersFragment(x, m, copy);
    } else if c.Some? {
      var reset := copy.(query := None);
      ShortenKeeps(reset);
      EntersPath(x, m,
        if StartsWithDriveLetter(x.cp, m.pointer) then reset.(path := Segments([])) else ShortenPath(reset));
    }
  }

  lemma KeepFileBase(x: Context, m: Machine)
    requires Sane(x, m) && m.state == File && Inv(x, m) && BaseScheme(x, FileUrl) && ValidUrl(x.base.value)
    requires At(x, m.pointer) != Some('/') && At(x, m.pointer) != Some('\\')
    ensures StillGood(x, StepFile(x, m))
  {
    var base := x.base.value;
    FileHasNoAuthority(base);
    WithoutFragment(base);
    KeepInheritFile(x, m, base.(fragment := None));
    assert base.(fragment := None) == m.url.(
      scheme := FileUrl, host := base.host, path := base.path, query := base.query);
  }

  lemma KeepFile(x: Context, m: Machine)
    requires Sane(x, m) && m.state == File && Inv(x, m) && (x.base.Some? ==> ValidUrl(x.base.value))
    ensures StillGood(x, StepFile(x, m))
  {
    var c := At(x, m.pointer);
    if c == Some('/') || c == Some('\\') {
    } else if BaseScheme(x, FileUrl) {
      KeepFileBase(x, m);
    } else {
      EntersPath(x, m, NEW_URL.(scheme := FileUrl, host := Some(Domain(""))));
    }
  }

  /** A `file` record has no credentials and no port. */
  lemma FileHasNoAuthority(url: Url)
    requires ValidUrl(url) && url.scheme == FileUrl
    ensures url.username == "" && url.password == "" && url.port.None? && url.path.Segments? && url.host.Some?
  {
  }

  lemma KeepFileSlash(x: Context, m: Machine)
    requires Sane(x, m) && m.state == FileSlash && Inv(x, m) && (x.base.Some? ==> ValidUrl(x.base.value))
    ensures StillGood(x, StepFileSlash(x, m))
  {
    var c := At(x, m.pointer);
    if c != Some('/') && c != Some('\\') {
      if BaseScheme(x, FileUrl) {
        var base := x.base.value;
        FileHasNoAuthority(base);
        var url := m.url.(host := base.host);
        EntersPath(x, m, url);
        if base.path.list != [] && IsNormalizedDriveLetter(base.path.list[0]) {
          EntersPath(x, m, url.(path := Push(url.path, base.path.list[0])));
        }
      } else {
        EntersPath(x, m, m.url);
      }
    }
  }

  lemma DriveLetterText(s: string)
    requires IsDriveLetter(s)
    ensures SegmentText(FileUrl, s)
  {
  }

  /** A file host that was parsed; `localhost` is dropped. */
  lemma FileHostFits(x: Context, m: Machine, host: Host)
    requires m.state == FileHost && EmptyFile(m.url) && ParsedHost(m.buffer, true, host)
    ensures
      var kept := if host == Domain("localhost") then Domain("") else host;
      Inv(x, Again(m, PathStart).(url := m.url.(host := Some(kept)), buffer := ""))
  {
  }

  lemma EntersPathStart(x: Context, m: Machine)
    requires m.state == FileHost && EmptyFile(m.url)
    ensures Inv(x, Again(m, PathStart).(url := m.url.(host := Some(Domain("")))))
  {
  }

  predicate EndsFileHost(c: Option<char>) {
    c == None || c == Some('/') || c == Some('\\') || c == Some('?') || c == Some('#')
  }

  lemma KeepFileHostText(x: Context, m: Machine)
    requires Sane(x, m) && m.state == FileHost && Inv(x, m) && GoodParser(x.parseHost)
    requires EndsFileHost(At(x, m.pointer)) && !IsDriveLetter(m.buffer) && m.buffer != ""
    ensures StillGood(x, StepFileHost(x, m))
  {
    if x.parseHost(m.buffer, true).Some? {
      FileHostFits(x, m, x.parseHost(m.buffer, true).value);
    }
  }

  lemma KeepFileHost(x: Context, m: Machine)
    requires Sane(x, m) && m.state == FileHost && Inv(x, m) && GoodParser(x.parseHost)
    ensures StillGood(x, StepFileHost(x, m))
  {
    if !EndsFileHost(At(x, m.pointer)) {
    } else if IsDriveLetter(m.buffer) {
      DriveLetterText(m.buffer);
    } else if m.buffer == "" {
      EntersPathStart(x, m);
    } else {
      KeepFileHostText(x, m);
    }
  }

  /** A special record reads its path, even an empty one. */
  lemma KeepSpecialPathStart(x: Context, m: Machine)
    requires Sane(x, m) && m.state == PathStart && Inv(x, m) && IsSpecial(m.url)
    ensures StillGood(x, StepPathStart(x, m))
  {
    EntersPath(x, m, m.url);
  }

  lemma KeepPathStart(x: Context, m: Machine)
    requires Sane(x, m) && m.state == PathStart && Inv(x, m)
    ensures StillGood(x, StepPathStart(x, m))
  {
    hide Progress;
    if IsSpecial(m.url) {
      KeepSpecialPathStart(x, m);
    } else {
      EntersPath(x, m, m.url);
      EntersQuery(x, m, m.url);
      EntersFragment(x, m, m.url);
    }
  }

  /** A finished segment leaves a valid list, which is not empty where the path ends. */
  lemma EndSegmentKeeps(url: Url, buffer: string, slashish: bool)
    requires url.path.Segments? && ValidSegments(url.scheme, url.path.list) && SegmentText(url.scheme, buffer)
    ensures
      var r := EndSegment(url, buffer, slashish);
      && r == url.(path := r.path) && r.path.Segments? && ValidSegments(url.scheme, r.path.list)
      && (!slashish ==> r.path.list != [])
  {
  }

  lemma KeepAfterSegment(x: Context, m: Machine, url: Url)
    requires Sane(x, m) && m.state == PathSegment && BeforeQuery(url)
    requires url.path.Segments? && ValidSegments(url.scheme, url.path.list)
    requires Slashish(url, At(x, m.pointer)) || url.path.list != []
    ensures StillGood(x, Some(AfterSegment(x, m, url)))
  {
    hide ValidAuthority, ValidPath, ValidUrl, ValidSegments;
    var c := At(x, m.pointer);
    var next := m.(url := url, buffer := "");
    if c == Some('?') {
      PathEnds(url);
      EntersQuery(x, next, url);
    } else if c == Some('#') {
      PathEnds(url);
      EntersFragment(x, next, url);
    } else if c == None {
      PathEnds(url);
    }
  }

  /** A record with a path that is not empty is complete. */
  lemma PathEnds(url: Url)
    requires BeforeQuery(url) && url.path.Segments? && ValidSegments(url.scheme, url.path.list) && url.path.list != []
    ensures ValidPath(url) && ValidUrl(url)
  {
  }

  lemma KeepPath(x: Context, m: Machine)
    requires Sane(x, m) && m.state == PathSegment && Inv(x, m)
    ensures StillGood(x, StepPath(x, m))
  {
    var c := At(x, m.pointer);
    var slashish := Slashish(m.url, c);
    if c == None || slashish || c == Some('?') || c == Some('#') {
      EndSegmentKeeps(m.url, m.buffer, slashish);
      KeepAfterSegment(x, m, EndSegment(m.url, m.buffer, slashish));
    } else {
      EncodedChar(Path, c.value);
    }
  }

  lemma OpaqueAppend(t: string, c: char)
    requires OpaqueText(t) && c != '?' && c != '#' && (t == "" ==> c != '/')
    ensures
      var e := PercentEncodeChar(C0, c);
      OpaqueText(t + e) && t + e != "" && ((t + e)[|t + e| - 1] == ' ' ==> c == ' ')
  {
    EncodedChar(C0, c);
  }

  /** What may follow an opaque path: a query, a fragment, or, without a final space, nothing. */
  lemma OpaqueEnds(url: Url)
    requires Fresh(url.(path := Segments([]))) && !IsSpecial(url) && url.path.Opaque? && OpaqueText(url.path.text)
    ensures
      var queried := url.(query := Some(""));
      ValidAuthority(queried) && ValidPath(queried) && ValidUrl(url.(fragment := Some("")))
    ensures (url.path.text != "" ==> url.path.text[|url.path.text| - 1] != ' ') ==> ValidUrl(url)
    ensures url.fragment.None?
  {
  }

  lemma OpaqueGoesOn(x: Context, m: Machine, c: char)
    requires Sane(x, m) && m.state == OpaquePath && Inv(x, m) && NoFinalSpace(x.cp)
    requires At(x, m.pointer) == Some(c) && c != '?' && c != '#'
    ensures
      var next := Advance(m, OpaquePath).(url := m.url.(path := Opaque(m.url.path.text + PercentEncodeChar(C0, c))));
      if Finished(x, next) then ValidUrl(next.url) else Inv(x, next)
  {
    hide ValidUrl, ValidPath, ValidAuthority, ValidSegments, PercentEncodeChar, OpaqueText;
    OpaqueAppend(m.url.path.text, c);
    OpaqueEnds(m.url.(path := Opaque(m.url.path.text + PercentEncodeChar(C0, c))));
  }

  lemma KeepOpaquePath(x: Context, m: Machine)
    requires Sane(x, m) && m.state == OpaquePath && Inv(x, m) && NoFinalSpace(x.cp)
    ensures StillGood(x, StepOpaquePath(x, m))
  {
    hide ValidUrl, ValidPath, ValidAuthority, ValidSegments, PercentEncodeChar, OpaqueText, Fresh;
    var c := At(x, m.pointer);
    if c.Some? && c != Some('?') && c != Some('#') {
      OpaqueGoesOn(x, m, c.value);
    } else {
      OpaqueEnds(m.url);
    }
  }

  lemma KeepEndQuery(x: Context, m: Machine)
    requires Sane(x, m) && m.state == QueryPart && Inv(x, m)
    requires At(x, m.pointer) == None || At(x, m.pointer) == Some('#')
    ensures StillGood(x, StepQuery(x, m))
  {
    hide ValidAuthority, ValidPath, ValidUrl, PercentEncode, AllKept;
    var query := PercentEncode(m.buffer, QuerySet(m.url.scheme));
    EncodedIsKept(m.buffer, QuerySet(m.url.scheme));
    assert "" + query == query;
    QueryGiven(m.url, query);
    EntersFragment(x, m.(buffer := ""), m.url.(query := Some(query)));
  }

  lemma QueryGiven(url: Url, query: string)
    requires ValidAuthority(url) && ValidPath(url) && url.query.Some? && url.fragment.None?
    requires AllKept(query, QuerySet(url.scheme))
    ensures ValidUrl(url.(query := Some(query)))
  {
  }

  lemma KeepQuery(x: Context, m: Machine)
    requires Sane(x, m) && m.state == QueryPart && Inv(x, m)
    ensures StillGood(x, StepQuery(x, m))
  {
    var c := At(x, m.pointer);
    if c == None || c == Some('#') {
      KeepEndQuery(x, m);
    }
  }

  lemma KeepFragment(x: Context, m: Machine)
    requires Sane(x, m) && m.state == FragmentPart && Inv(x, m)
    ensures StillGood(x, StepFragment(x, m))
  {
    var c := At(x, m.pointer);
    if c.Some? {
      EncodedChar(Fragment, c.value);
    }
  }

  /** Every state keeps the invariant. */
  lemma StepKeeps(x: Context, m: Machine)
    requires Sane(x, m) && Inv(x, m) && Surroundings(x)
    ensures StillGood(x, Step(x, m))
  {
    match m.state
    case SchemeStart => KeepSchemeStart(x, m);
    case Scheme => KeepScheme(x, m);
    case NoScheme => KeepNoScheme(x, m);
    case SpecialRelativeOrAuthority => KeepSpecialRelativeOrAuthority(x, m);
    case PathOrAuthority => KeepPathOrAuthority(x, m);
    case Relative => KeepRelative(x, m);
    case RelativeSlash => KeepRelativeSlash(x, m);
    case SpecialAuthoritySlashes => KeepSpecialAuthoritySlashes(x, m);
    case SpecialAuthorityIgnoreSlashes => KeepSpecialAuthorityIgnoreSlashes(x, m);
    case Authority => KeepAuthority(x, m);
    case HostName => KeepHost(x, m);
    case PortNumber => KeepPort(x, m);
    case File => KeepFile(x, m);
    case FileSlash => KeepFileSlash(x, m);
    case FileHost => KeepFileHost(x, m);
    case PathStart => KeepPathStart(x, m);
    case PathSegment => KeepPath(x, m);
    case OpaquePath => KeepOpaquePath(x, m);
    case QueryPart => KeepQuery(x, m);
    case FragmentPart => KeepFragment(x, m);
  }

  lemma {:induction false} RunValid(x: Context, m: Machine)
    requires Sane(x, m) && Inv(x, m) && Surroundings(x)
    ensures Run(x, m).Some? ==> ValidUrl(Run(x, m).value)
    decreases Rank(m.state), |x.cp| + 1 - m.pointer
  {
    StepKeeps(x, m);
    var next := Step(x, m);
    if next.Some? && !Finished(x, next.value) {
      RunValid(x, next.value);
    }
  }

  // The surroundings the original sets up

  lemma {:induction false} OpaqueEncoded(s: string)
    requires forall k :: 0 <= k < |s| ==> !ForbiddenHost(s[k])
    ensures forall k :: 0 <= k < |PercentEncode(s, C0)| ==> OpaqueHostChar(PercentEncode(s, C0)[k])
    ensures s != "" ==> PercentEncode(s, C0) != ""
  {
    if s != "" {
      EncodedChar(C0, s[0]);
      OpaqueEncoded(s[1..]);
      var first := PercentEncodeChar(C0, s[0]);
      assert PercentEncode(s, C0) == first + PercentEncode(s[1..], C0);
      assert forall k :: 0 <= k < |first| ==> OpaqueHostChar(first[k]);
    }
  }

  lemma DecodedNotEmpty(s: string)
    requires s != "" && PercentDecodeString(s).Some?
    ensures PercentDecodeString(s).value != ""
  {
    var bytes := Utf8.Encode(s);
    assert bytes != [];
    var decoded := PercentDecode(bytes);
    assert decoded != [];
    Utf8.DecodeIffEncode(decoded, "");
  }

  lemma DomainIsValid(s: string)
    requires s != "" && PercentDecodeString(s).Some?
    requires
      var ascii := LowerCase(PercentDecodeString(s).value);
      (forall k :: 0 <= k < |ascii| ==> !ForbiddenDomain(ascii[k])) && !EndsInANumber(ascii)
    ensures ValidDomain(LowerCase(PercentDecodeString(s).value))
  {
    DecodedNotEmpty(s);
  }

  lemma HostParserIsGood(n: Natives)
    requires Faithful(n)
    ensures GoodParser(HostParser(n))
  {
    forall s, special | HostParser(n)(s, special).Some?
      ensures ParsedHost(s, special, HostParser(n)(s, special).value)
    {
      ParseHostGood(n, s, special);
    }
  }

  lemma ParseHostGood(n: Natives, s: string, special: bool)
    requires Faithful(n) && ParseHost(n, s, special).Some?
    ensures ParsedHost(s, special, ParseHost(n, s, special).value)
  {
    if s != "" && s[0] == '[' {
    } else if !special {
      OpaqueEncoded(s);
    } else {
      var ascii := LowerCase(PercentDecodeString(s).value);
      if !EndsInANumber(ascii) {
        DomainIsValid(s);
      }
    }
  }

  lemma {:induction false} RemoveKeepsLast(s: string)
    requires s != "" && !Trimmed(s[|s| - 1])
    ensures var r := RemoveTabsAndNewlines(s); r != "" && r[|r| - 1] == s[|s| - 1]
  {
    if |s| > 1 {
      RemoveKeepsLast(s[1..]);
    }
  }

  lemma {:induction false} TrimRightLast(s: string)
    ensures TrimRight(s) != "" ==> !Trimmed(TrimRight(s)[|TrimRight(s)| - 1])
  {
    if s != "" && Trimmed(s[|s| - 1]) {
      TrimRightLast(s[..|s| - 1]);
    }
  }

  lemma CodePointsEnd(input: string)
    ensures NoFinalSpace(CodePoints(input))
  {
    var s := TrimRight(TrimLeft(input));
    TrimRightLast(TrimLeft(input));
    if s != "" {
      RemoveKeepsLast(s);
    }
  }

  /** Every URL the parser returns satisfies the record invariant. */
  lemma ParseValid(n: Natives, input: string, base: Option<Url>)
    requires Faithful(n) && (base.Some? ==> ValidUrl(base.value))
    ensures Parse(n, input, base).Some? ==> ValidUrl(Parse(n, input, base).value)
  {
    HostParserIsGood(n);
    CodePointsEnd(input);
    RunValid(Context(HostParser(n), CodePoints(input), base), START);
  }

  /** The invariant spelled out for the readers of a record. */
  lemma ParsedRecord(n: Natives, input: string, base: Option<Url>, url: Url)
    requires Faithful(n) && (base.Some? ==> ValidUrl(base.value))
    requires Parse(n, input, base) == Some(url)
    ensures url.port.Some? ==> url.port.value <= 65535 && url.port != DefaultPort(url.scheme)
    ensures url.path.Segments? ==>
              forall k :: 0 <= k < |url.path.list| ==> !IsSingleDot(url.path.list[k]) && !IsDoubleDot(url.path.list[k])
    ensures IsSpecial(url) ==> url.path.Segments? && url.path.list != [] && url.host.Some?
    ensures IsSpecial(url) && url.scheme != FileUrl ==> HostNotEmpty(url.host)
    ensures IncludesCredentials(url) || url.port.Some? ==> HostNotEmpty(url.host)
    ensures url.path.Opaque? ==> url.host.None?
    ensures url.host.None? && url.path.Segments? ==> url.path.list != []
  {
    ParseValid(n, input, base);
  }
}
