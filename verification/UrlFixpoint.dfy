/**
 * Parsing what was printed: every valid record is the one result of parsing its own text, so the
 * valid records are exactly the records the parser returns.
 */
module UrlFixpoint {
  import opened Numerals
  import opened PercentCoding
  import opened Seqs
  import opened UrlAuthority
  import opened UrlInvariant
  import opened UrlMachine
  import opened UrlRecord
  import opened UrlScan
  import opened Wrappers

  // Hosts

  /** The last part is not empty and has only elements of `s`. */
  predicate LastFrom(parts: seq<string>, s: string)
    requires parts != []
  {
    var last := parts[|parts| - 1];
    last != "" && forall k :: 0 <= k < |last| ==> last[k] in s
  }

  lemma LastFromCons(a: string, parts: seq<string>, s: string, i: nat)
    requires i < |s| && parts != [] && LastFrom(parts, s[i + 1..])
    ensures LastFrom([a] + parts, s)
  {
    var last := parts[|parts| - 1];
    forall k | 0 <= k < |last|
      ensures last[k] in s
    {
      assert last[k] in s[i + 1..];
    }
  }

  lemma {:induction false} SplitLast(s: string, sep: char)
    requires s != "" && s[|s| - 1] != sep
    ensures LastFrom(Split(s, sep), s)
  {
    var i := IndexOf(s, sep);
    if i >= 0 {
      SplitLast(s[i + 1..], sep);
      LastFromCons(s[..i], Split(s[i + 1..], sep), s, i);
    }
  }

  lemma DottedEndsInANumber(s: string)
    requires DottedNumber(s)
    ensures EndsInANumber(s)
  {
    SplitLast(s, '.');
    var parts := Split(s, '.');
    var last := parts[|parts| - 1];
    assert '.' !in last;
    forall k | 0 <= k < |last|
      ensures IsDigit(last[k])
    {
      assert last[k] in s && last[k] in last;
    }
  }

  /** A character of a host that is not an IPv6 address. */
  predicate PlainHostChar(c: char) {
    !ForbiddenHost(c) && c as nat > 0x20
  }

  lemma PlainHost(n: Natives, scheme: Protocol, host: Host)
    requires Faithful(n) && ValidHost(scheme, host) && !host.Ipv6?
    ensures forall k :: 0 <= k < |SerializeHost(n, host)| ==> PlainHostChar(SerializeHost(n, host)[k])
  {
    if host.Ipv4? {
      assert DottedNumber(n.print4(host.address));
    }
  }

  lemma LowerCaseFixed(s: string)
    requires forall k :: 0 <= k < |s| ==> Lower(s[k]) == s[k]
    ensures LowerCase(s) == s
  {
  }

  lemma ReparseDomain(n: Natives, s: string)
    requires s != "" && forall k :: 0 <= k < |s| ==> DomainChar(s[k])
    ensures ParseHost(n, s, true) ==
      if EndsInANumber(s) then
        if n.parse4(s).Some? then Some(Ipv4(n.parse4(s).value)) else None
      else Some(Domain(s))
  {
    DecodeStringWithout(s);
    LowerCaseFixed(s);
  }

  /** The host parser reads a printed host back. */
  lemma ReparseHost(n: Natives, scheme: Protocol, host: Host)
    requires Faithful(n) && ValidHost(scheme, host) && (scheme == FileUrl ==> host != Domain(""))
    ensures ParseHost(n, SerializeHost(n, host), IsSpecialScheme(scheme)) == Some(host)
  {
    match host
    case Ipv6(p) =>
      var s := SerializeHost(n, host);
      assert s[1..|s| - 1] == n.print6(p);
    case Ipv4(a) =>
      var s := n.print4(a);
      DottedEndsInANumber(s);
      ReparseDomain(n, s);
    case Domain(d) =>
      if IsSpecialScheme(scheme) {
        ReparseDomain(n, d);
      } else {
        EncodeKept(d, C0);
      }
  }

  lemma BracketedScan(x: Context, run: Runner, m: Machine, p: string, t: string)
    requires Executes(x, run) && ColonHex(p)
    requires m.state == HostName && m.buffer == "" && !m.insideBrackets && Reads(x, m, "[" + p + "]" + t)
    ensures
      var s := "[" + p + "]";
      var after := m.(pointer := m.pointer + |s|, buffer := s);
      Reads(x, after, t) && run(m) == run(after)
  {
    Assoc(['['] + p, [']'], t);
    Assoc(['['], p, [']'] + t);
    BracketScan(x, run, m, p, t);
  }

  lemma PlainScan(x: Context, run: Runner, m: Machine, s: string, t: string)
    requires Executes(x, run) && m.state == HostName && m.buffer == "" && Reads(x, m, s + t)
    requires forall k :: 0 <= k < |s| ==> PlainHostChar(s[k])
    ensures
      var after := m.(pointer := m.pointer + |s|, buffer := s);
      Reads(x, after, t) && run(m) == run(after)
  {
    Empty(s, s);
    HostScan(x, run, m, s, t);
  }

  /** What the host state has read of a printed host. */
  lemma HostNameScan(x: Context, run: Runner, n: Natives, m: Machine, host: Host, t: string)
    requires Executes(x, run) && Faithful(n) && ValidHost(m.url.scheme, host)
    requires m.state == HostName && m.buffer == "" && !m.insideBrackets && Reads(x, m, SerializeHost(n, host) + t)
    ensures
      var s := SerializeHost(n, host);
      var after := m.(pointer := m.pointer + |s|, buffer := s);
      Reads(x, after, t) && run(m) == run(after)
  {
    var s := SerializeHost(n, host);
    if host.Ipv6? {
      BracketedScan(x, run, m, n.print6(host.pieces), t);
    } else {
      PlainHost(n, m.url.scheme, host);
      PlainScan(x, run, m, s, t);
    }
  }

  // Authority and path

  /** Path, query and fragment of a record with a list path. */
  function PathRest(list: seq<string>, q: Option<string>, f: Option<string>): string {
    SegmentsText(list) + TailText(q, f)
  }

  lemma PathRestFirst(url: Url, list: seq<string>, q: Option<string>, f: Option<string>)
    ensures EndsAuthority(url, First(PathRest(list, q, f))) && First(PathRest(list, q, f)) != Some('@')
  {
  }

  /** The record as far as it is known behind the credentials. */
  function BeforeHost(r: Url): Url {
    r.(host := None, port := None, path := Segments([]), query := None, fragment := None)
  }

  predicate ListRecord(r: Url) {
    ValidUrl(r) && r.path.Segments? && r.host.Some? && r.scheme != FileUrl
  }

  lemma PathFinish(x: Context, run: Runner, m: Machine, r: Url)
    requires Executes(x, run) && ListRecord(r) && m.state == PathStart
    requires Reads(x, m, PathRest(r.path.list, r.query, r.fragment))
    requires m.url == r.(path := Segments([]), query := None, fragment := None)
    ensures run(m) == Some(r)
  {
    PathStartScan(x, run, m, r.path.list, r.query, r.fragment);
  }

  lemma PortFinish(x: Context, run: Runner, m: Machine, r: Url)
    requires Executes(x, run) && ListRecord(r) && m.state == PortNumber && m.buffer == "" && r.port.Some?
    requires Reads(x, m, Decimal(r.port.value) + PathRest(r.path.list, r.query, r.fragment))
    requires m.url == BeforeHost(r).(host := r.host)
    ensures run(m) == Some(r)
  {
    hide PathRest, Decimal;
    var s := Decimal(r.port.value);
    var t := PathRest(r.path.list, r.query, r.fragment);
    PathRestFirst(m.url, r.path.list, r.query, r.fragment);
    PortScan(x, run, m, s, t);
    Empty(s, s);
    EndPort(x, run, m.(pointer := m.pointer + |s|, buffer := s), r.port.value, t);
    PathFinish(x, run, m.(state := PathStart, pointer := m.pointer + |s|, url := m.url.(port := r.port)), r);
  }

  lemma HostThenPort(x: Context, run: Runner, at: Machine, r: Url)
    requires Executes(x, run) && ListRecord(r) && r.port.Some?
    requires at.state == HostName && at.buffer != "" && !at.insideBrackets && at.url == BeforeHost(r)
    requires x.parseHost(at.buffer, IsSpecial(r)) == r.host
    requires Reads(x, at, PortText(r.port) + PathRest(r.path.list, r.query, r.fragment))
    ensures run(at) == Some(r)
  {
    var t := Decimal(r.port.value) + PathRest(r.path.list, r.query, r.fragment);
    Assoc([':'], Decimal(r.port.value), PathRest(r.path.list, r.query, r.fragment));
    EndHostAtPort(x, run, at, r.host.value, t);
    PortFinish(x, run, Advance(at, PortNumber).(url := at.url.(host := r.host), buffer := ""), r);
  }

  lemma HostThenPath(x: Context, run: Runner, at: Machine, r: Url)
    requires Executes(x, run) && ListRecord(r) && r.port.None?
    requires at.state == HostName && (IsSpecial(r) ==> at.buffer != "") && at.url == BeforeHost(r)
    requires x.parseHost(at.buffer, IsSpecial(r)) == r.host
    requires Reads(x, at, PathRest(r.path.list, r.query, r.fragment))
    ensures run(at) == Some(r)
  {
    PathRestFirst(at.url, r.path.list, r.query, r.fragment);
    EndHost(x, run, at, r.host.value, PathRest(r.path.list, r.query, r.fragment));
    PathFinish(x, run, Again(at, PathStart).(url := at.url.(host := r.host), buffer := ""), r);
  }

  lemma HostEnd(x: Context, run: Runner, at: Machine, r: Url)
    requires Executes(x, run) && ListRecord(r)
    requires at.state == HostName && !at.insideBrackets && at.url == BeforeHost(r)
    requires IsSpecial(r) || r.port.Some? ==> at.buffer != ""
    requires x.parseHost(at.buffer, IsSpecial(r)) == r.host
    requires Reads(x, at, PortText(r.port) + PathRest(r.path.list, r.query, r.fragment))
    ensures run(at) == Some(r)
  {
    if r.port.Some? {
      HostThenPort(x, run, at, r);
    } else {
      Empty("", PathRest(r.path.list, r.query, r.fragment));
      HostThenPath(x, run, at, r);
    }
  }

  lemma HostFinish(x: Context, run: Runner, n: Natives, m: Machine, r: Url)
    requires Executes(x, run) && Faithful(n) && ListRecord(r) && x.parseHost == HostParser(n)
    requires m.state == HostName && m.buffer == "" && !m.insideBrackets && m.url == BeforeHost(r)
    requires Reads(x, m,
      SerializeHost(n, r.host.value) + (PortText(r.port) + PathRest(r.path.list, r.query, r.fragment)))
    ensures run(m) == Some(r)
  {
    hide SerializeHost, PortText, PathRest, Run, Executes, TailText;
    var s := SerializeHost(n, r.host.value);
    HostNameScan(x, run, n, m, r.host.value, PortText(r.port) + PathRest(r.path.list, r.query, r.fragment));
    ReparseHost(n, r.scheme, r.host.value);
    HostTextNotEmpty(n, r);
    HostEnd(x, run, m.(pointer := m.pointer + |s|, buffer := s), r);
  }

  lemma HostTextNotEmpty(n: Natives, r: Url)
    requires Faithful(n) && ListRecord(r)
    ensures IsSpecial(r) || IncludesCredentials(r) || r.port.Some? ==> SerializeHost(n, r.host.value) != ""
  {
    if r.host.value.Ipv4? {
      assert DottedNumber(n.print4(r.host.value.address));
    }
  }

  lemma HostPortChars(n: Natives, r: Url, url: Url)
    requires Faithful(n) && ListRecord(r)
    ensures
      var s := SerializeHost(n, r.host.value) + PortText(r.port);
      forall k :: 0 <= k < |s| ==> AuthorityChar(url, s[k])
  {
    var host := r.host.value;
    if host.Ipv6? {
      assert ColonHex(n.print6(host.pieces));
    } else {
      PlainHost(n, r.scheme, host);
    }
  }

  /** Host, port and path of a record, read from the authority state behind any credentials. */
  lemma HostPortFinish(x: Context, run: Runner, n: Natives, m: Machine, r: Url)
    requires Executes(x, run) && Faithful(n) && ListRecord(r) && x.parseHost == HostParser(n)
    requires m.state == Authority && m.buffer == "" && !m.insideBrackets && m.url == BeforeHost(r)
    requires m.atSignSeen ==> IncludesCredentials(r) || IsSpecial(r)
    requires Reads(x, m,
      SerializeHost(n, r.host.value) + (PortText(r.port) + PathRest(r.path.list, r.query, r.fragment)))
    ensures run(m) == Some(r)
  {
    var s := SerializeHost(n, r.host.value);
    var t := PathRest(r.path.list, r.query, r.fragment);
    Assoc(s, PortText(r.port), t);
    HostPortChars(n, r, m.url);
    HostTextNotEmpty(n, r);
    PathRestFirst(m.url, r.path.list, r.query, r.fragment);
    AuthorityToHost(x, run, m, s + PortText(r.port), t);
    HostFinish(x, run, n, Again(m, HostName), r);
  }

  lemma CredentialsShape(r: Url, t: string)
    requires IncludesCredentials(r)
    ensures CredentialsText(r) + t == Userpass(r.username, r.password) + (['@'] + t)
  {
    if r.password != "" {
      Assoc(r.username, [':'], r.password);
    } else {
      Empty(r.username, t);
    }
    Assoc(Userpass(r.username, r.password), ['@'], t);
  }

  lemma AuthorityFinish(x: Context, run: Runner, n: Natives, m: Machine, r: Url)
    requires Executes(x, run) && Faithful(n) && ListRecord(r) && x.parseHost == HostParser(n)
    requires m == START.(state := Authority, pointer := m.pointer, url := NEW_URL.(scheme := r.scheme))
    requires Reads(x, m, AuthorityRest(n, r))
    ensures run(m) == Some(r)
  {
    hide PortText, PathRest, SerializeHost, Userpass, Run;
    var hp := SerializeHost(n, r.host.value) + (PortText(r.port) + PathRest(r.path.list, r.query, r.fragment));
    if IncludesCredentials(r) {
      CredentialsShape(r, hp);
      CredentialsScan(x, run, m, r.username, r.password, hp);
      HostPortFinish(x, run, n, m.(
        pointer := m.pointer + |Userpass(r.username, r.password)| + 1, atSignSeen := true,
        passwordTokenSeen := r.password != "",
        url := m.url.(username := r.username, password := r.password)), r);
    } else {
      Empty("", hp);
      HostPortFinish(x, run, n, m, r);
    }
  }

  /** All that follows the "//" of a record with a host and a list path. */
  function AuthorityRest(n: Natives, r: Url): string
    requires r.host.Some? && r.path.Segments?
  {
    CredentialsText(r) +
    (SerializeHost(n, r.host.value) + (PortText(r.port) + PathRest(r.path.list, r.query, r.fragment)))
  }

  lemma AuthorityFirst(n: Natives, r: Url)
    requires Faithful(n) && ListRecord(r) && IsSpecial(r)
    ensures First(AuthorityRest(n, r)) != Some('/') && First(AuthorityRest(n, r)) != Some('\\')
  {
    var host := SerializeHost(n, r.host.value);
    var rest := PortText(r.port) + PathRest(r.path.list, r.query, r.fragment);
    if IncludesCredentials(r) {
      CredentialsShape(r, host + rest);
      CredentialsFirst(r, host + rest);
    } else {
      Empty("", host + rest);
      HostFirst(n, r, rest);
    }
  }

  predicate StartsPlainly(s: string) {
    s != "" && s[0] != '/' && s[0] != '\\'
  }

  lemma HostFirst(n: Natives, r: Url, t: string)
    requires Faithful(n) && ListRecord(r) && IsSpecial(r)
    ensures StartsPlainly(SerializeHost(n, r.host.value) + t)
  {
    HostTextNotEmpty(n, r);
    if !r.host.value.Ipv6? {
      PlainHost(n, r.scheme, r.host.value);
    }
  }

  lemma CredentialsFirst(r: Url, t: string)
    requires ValidUrl(r)
    ensures StartsPlainly(Userpass(r.username, r.password) + (['@'] + t))
  {
  }

  // One lemma for each shape of record

  /** "scheme://" of a special scheme leads to the authority, whatever the base. */
  lemma ColonSpecial(x: Context, run: Runner, scheme: Protocol, t: string)
    requires Executes(x, run) && ValidScheme(scheme) && IsSpecialScheme(scheme) && scheme != FileUrl
    requires Reads(x, AtColon(scheme), [':'] + ("//" + t)) && First(t) != Some('/') && First(t) != Some('\\')
    ensures
      var m := START.(state := Authority, pointer := |Name(scheme)| + 3, url := NEW_URL.(scheme := scheme));
      Reads(x, m, t) && run(AtColon(scheme)) == run(m)
  {
    hide ValidScheme;
    ColonStep(x, run, scheme, "//" + t);
    var m := EndScheme(x, AtColon(scheme), scheme);
    assert m.state == SpecialAuthoritySlashes || m.state == SpecialRelativeOrAuthority;
    ReadsHead(x, m, "//", t);
    assert x.cp[m.pointer..][1] == '/';
    var skipped := m.(state := SpecialAuthorityIgnoreSlashes, pointer := m.pointer + 2);
    StepOnce(x, run, m, skipped);
    ReadsFirst(x, skipped, t);
    StepOnce(x, run, skipped, Again(skipped, Authority));
  }

  lemma SpecialFinish(x: Context, run: Runner, n: Natives, r: Url)
    requires Executes(x, run) && Faithful(n) && ListRecord(r) && IsSpecial(r)
    requires x.parseHost == HostParser(n)
    requires Reads(x, AtColon(r.scheme), [':'] + ("//" + AuthorityRest(n, r)))
    ensures run(AtColon(r.scheme)) == Some(r)
  {
    AuthorityFirst(n, r);
    ColonSpecial(x, run, r.scheme, AuthorityRest(n, r));
    var m := START.(state := Authority, pointer := |Name(r.scheme)| + 3, url := NEW_URL.(scheme := r.scheme));
    AuthorityFinish(x, run, n, m, r);
  }

  /** "scheme://" of a scheme that is not special leads to the authority. */
  lemma ColonPlain(x: Context, run: Runner, scheme: Protocol, t: string)
    requires Executes(x, run) && ValidScheme(scheme) && !IsSpecialScheme(scheme)
    requires Reads(x, AtColon(scheme), [':'] + ("//" + t))
    ensures
      var m := START.(state := Authority, pointer := |Name(scheme)| + 3, url := NEW_URL.(scheme := scheme));
      Reads(x, m, t) && run(AtColon(scheme)) == run(m)
  {
    Assoc(['/'], ['/'], t);
    ColonRoot(x, run, scheme, ['/'] + t);
    var m := START.(
      state := PathOrAuthority, pointer := |Name(scheme)| + 2, url := NEW_URL.(scheme := scheme));
    ReadsOne(x, m, '/', t);
    StepOnce(x, run, m, Advance(m, Authority));
  }

  lemma PlainFinish(x: Context, run: Runner, n: Natives, r: Url)
    requires Executes(x, run) && Faithful(n) && ListRecord(r) && !IsSpecial(r)
    requires x.parseHost == HostParser(n)
    requires Reads(x, AtColon(r.scheme), [':'] + ("//" + AuthorityRest(n, r)))
    ensures run(AtColon(r.scheme)) == Some(r)
  {
    ColonPlain(x, run, r.scheme, AuthorityRest(n, r));
    var m := START.(state := Authority, pointer := |Name(r.scheme)| + 3, url := NEW_URL.(scheme := r.scheme));
    AuthorityFinish(x, run, n, m, r);
  }

  lemma FileHostShape(x: Context, n: Natives, r: Url)
    requires Faithful(n) && ValidUrl(r) && r.scheme == FileUrl && x.parseHost == HostParser(n)
    ensures r.host.Some?
    ensures
      var s := SerializeHost(n, r.host.value);
      FileHostText(x, s, r.host.value) && forall k :: 0 <= k < |s| ==> FileHostChar(s[k])
  {
    var host := r.host.value;
    if host != Domain("") {
      ReparseHost(n, r.scheme, host);
      if host.Ipv6? {
        assert ColonHex(n.print6(host.pieces));
      } else {
        PlainHost(n, r.scheme, host);
        if host.Ipv4? {
          assert DottedNumber(n.print4(host.address));
        }
      }
    }
  }

  /** "file://" leads to the file host state. */
  lemma ColonFile(x: Context, run: Runner, t: string)
    requires Executes(x, run) && Reads(x, AtColon(FileUrl), [':'] + ("//" + t))
    ensures
      var m := START.(
        state := FileHost, pointer := |Name(FileUrl)| + 3,
        url := NEW_URL.(scheme := FileUrl, host := Some(Domain(""))));
      Reads(x, m, t) && run(AtColon(FileUrl)) == run(m)
  {
    Assoc(['/'], ['/'], t);
    ColonStep(x, run, FileUrl, "//" + t);
    var m := EndScheme(x, AtColon(FileUrl), FileUrl);
    assert m.state == File;
    ReadsOne(x, m, '/', ['/'] + t);
    var slash := Advance(m, FileSlash).(url := m.url.(host := Some(Domain(""))));
    StepOnce(x, run, m, slash);
    ReadsOne(x, slash, '/', t);
    StepOnce(x, run, slash, Advance(slash, FileHost));
  }

  lemma FileFinish(x: Context, run: Runner, n: Natives, r: Url)
    requires Executes(x, run) && Faithful(n) && ValidUrl(r) && r.scheme == FileUrl
    requires x.parseHost == HostParser(n)
    requires r.host.Some? && r.path.Segments?
    requires
      Reads(x, AtColon(r.scheme),
        [':'] + ("//" + (SerializeHost(n, r.host.value) + PathRest(r.path.list, r.query, r.fragment))))
    ensures run(AtColon(r.scheme)) == Some(r)
  {
    FileHasNoAuthority(r);
    var s := SerializeHost(n, r.host.value);
    var list := r.path.list;
    var rest := list[0] + SegmentsText(list[1..]) + TailText(r.query, r.fragment);
    SegmentsHead(list, TailText(r.query, r.fragment));
    ColonFile(x, run, s + (['/'] + rest));
    FileHostShape(x, n, r);
    var m := START.(
      state := FileHost, pointer := |Name(FileUrl)| + 3, url := NEW_URL.(scheme := FileUrl, host := Some(Domain(""))));
    EndFileHost(x, run, m, s, r.host.value, rest);
    var at := m.(state := PathStart, pointer := m.pointer + |s|, url := m.url.(host := r.host));
    PathStartScan(x, run, at, list, r.query, r.fragment);
  }

  lemma TailFirst(q: Option<string>, f: Option<string>)
    ensures First(TailText(q, f)) != Some('/')
  {
  }

  lemma OpaqueFinish(x: Context, run: Runner, r: Url)
    requires Executes(x, run) && ValidUrl(r) && r.path.Opaque?
    requires Reads(x, AtColon(r.scheme), [':'] + (r.path.text + TailText(r.query, r.fragment)))
    ensures run(AtColon(r.scheme)) == Some(r)
  {
    var t := r.path.text + TailText(r.query, r.fragment);
    ColonStep(x, run, r.scheme, t);
    TailFirst(r.query, r.fragment);
    assert First(t) != Some('/');
    assert x.cp[|Name(r.scheme)| + 1..] == t;
    var m := EndScheme(x, AtColon(r.scheme), r.scheme);
    assert m.state == OpaquePath;
    if Finished(x, m) {
      assert false;
    }
    OpaqueScan(x, run, m, "", r.path.text, r.query, r.fragment);
    Empty(r.path.text, r.path.text);
  }

  /** Behind "scheme:/": the list is read from its first segment. */
  lemma RootFinish(x: Context, run: Runner, m: Machine, r: Url)
    requires Executes(x, run) && ValidUrl(r) && r.path.Segments? && r.host.None?
    requires m == START.(state := PathSegment, pointer := m.pointer, url := NEW_URL.(scheme := r.scheme))
    requires Reads(x, m, r.path.list[0] + SegmentsText(r.path.list[1..]) + TailText(r.query, r.fragment))
    ensures run(m) == Some(r)
  {
    assert [] + r.path.list == r.path.list;
    PathScan(x, run, m, [], r.path.list, r.query, r.fragment);
  }

  /** The path text behind "scheme:/", with or without the "./" in front of its first slash. */
  lemma RootOrDot(x: Context, run: Runner, m: Machine, r: Url, dotted: bool, rest: string)
    requires Executes(x, run) && ValidUrl(r) && r.path.Segments? && r.host.None?
    requires m == START.(state := PathOrAuthority, pointer := m.pointer, url := NEW_URL.(scheme := r.scheme))
    requires rest == r.path.list[0] + SegmentsText(r.path.list[1..]) + TailText(r.query, r.fragment)
    requires Reads(x, m, if dotted then ['.'] + (['/'] + rest) else rest) && (!dotted ==> First(rest) != Some('/'))
    ensures run(m) == Some(r)
  {
    if dotted {
      SkipDot(x, run, m, rest);
      RootFinish(x, run, m.(state := PathSegment, pointer := m.pointer + 2), r);
    } else {
      ReadsFirst(x, m, rest);
      StepOnce(x, run, m, Again(m, PathSegment));
      RootFinish(x, run, Again(m, PathSegment), r);
    }
  }

  /** "scheme:/" leads to the state that tells a path from an authority. */
  lemma ColonRoot(x: Context, run: Runner, scheme: Protocol, t: string)
    requires Executes(x, run) && ValidScheme(scheme) && !IsSpecialScheme(scheme)
    requires Reads(x, AtColon(scheme), [':'] + (['/'] + t))
    ensures
      var m := START.(
        state := PathOrAuthority, pointer := |Name(scheme)| + 2, url := NEW_URL.(scheme := scheme));
      Reads(x, m, t) && run(AtColon(scheme)) == run(m)
  {
    ColonStep(x, run, scheme, ['/'] + t);
    SlashBehind(x, |Name(scheme)| + 1, t);
  }

  lemma NoHostText(r: Url, rest: string)
    requires r.path.Segments? && r.path.list != []
    requires rest == r.path.list[0] + SegmentsText(r.path.list[1..]) + TailText(r.query, r.fragment)
    ensures PathPrefix(r) + PathRest(r.path.list, r.query, r.fragment) ==
      ['/'] + (if PathPrefix(r) != "" then ['.'] + (['/'] + rest) else rest)
  {
    SegmentsHead(r.path.list, TailText(r.query, r.fragment));
    Empty("", ['/'] + rest);
    Assoc(['/'], ['.'], ['/'] + rest);
  }

  lemma NoHostFinish(x: Context, run: Runner, r: Url)
    requires Executes(x, run) && ValidUrl(r) && r.path.Segments? && r.host.None?
    requires Reads(x, AtColon(r.scheme), [':'] + (PathPrefix(r) + PathRest(r.path.list, r.query, r.fragment)))
    ensures run(AtColon(r.scheme)) == Some(r)
  {
    var rest := r.path.list[0] + SegmentsText(r.path.list[1..]) + TailText(r.query, r.fragment);
    var dotted := PathPrefix(r) != "";
    NoHostText(r, rest);
    ColonRoot(x, run, r.scheme, if dotted then ['.'] + (['/'] + rest) else rest);
    if !dotted {
      RestNotSlash(r);
    }
    var m := START.(
      state := PathOrAuthority, pointer := |Name(r.scheme)| + 2, url := NEW_URL.(scheme := r.scheme));
    RootOrDot(x, run, m, r, dotted, rest);
  }

  lemma SlashBehind(x: Context, i: nat, t: string)
    requires i <= |x.cp| && x.cp[i..] == ['/'] + t
    ensures At(x, i) == Some('/') && i + 1 <= |x.cp| && x.cp[i + 1..] == t
  {
    assert x.cp[i..][0] == '/';
    assert x.cp[i + 1..] == x.cp[i..][1..];
  }

  lemma RestNotSlash(r: Url)
    requires ValidUrl(r) && r.path.Segments? && r.host.None? && PathPrefix(r) == ""
    ensures
      First(r.path.list[0] + SegmentsText(r.path.list[1..]) + TailText(r.query, r.fragment)) != Some('/')
  {
    var list := r.path.list;
    if list[0] == "" {
      assert SegmentsText(list[1..]) == "";
      Empty("", TailText(r.query, r.fragment));
      TailFirst(r.query, r.fragment);
    }
  }

  /** The "/." that keeps a path apart from an authority leaves no trace in the record. */
  lemma SkipDot(x: Context, run: Runner, m: Machine, t: string)
    requires Executes(x, run) && m.state == PathOrAuthority && !IsSpecial(m.url)
    requires Reads(x, m, ['.'] + (['/'] + t))
    ensures
      var after := m.(state := PathSegment, pointer := m.pointer + 2);
      Reads(x, after, t) && run(m) == run(after)
  {
    ReadsOne(x, m, '.', ['/'] + t);
    StepOnce(x, run, m, Again(m, PathSegment));
    SegmentScan(x, run, Again(m, PathSegment), ".", ['/'] + t);
    Empty(".", ".");
    var dot := m.(state := PathSegment, pointer := m.pointer + 1, buffer := ".");
    ReadsOne(x, dot, '/', t);
    StepOnce(x, run, dot, m.(state := PathSegment, pointer := m.pointer + 2));
  }

  // The text of a record

  /** Everything behind the scheme and its colon. */
  function Body(n: Natives, r: Url): string {
    AuthorityText(n, r) + (PathPrefix(r) + (SerializePath(r.path) + TailText(r.query, r.fragment)))
  }

  lemma FourParts(a: string, b: string, c: string, d: string, e: string)
    ensures a + b + c + d + e == a + (b + (c + (d + e)))
  {
    Assoc(a + b + c, d, e);
    Assoc(a + b, c, d + e);
    Assoc(a, b, c + (d + e));
  }

  lemma SerializedText(n: Natives, r: Url)
    ensures SerializeUrl(n, r) == Name(r.scheme) + ([':'] + Body(n, r))
  {
    var head := Name(r.scheme) + ":";
    var path := SerializePath(r.path);
    assert QueryText(r) == Marked('?', r.query) && FragmentText(r) == Marked('#', r.fragment);
    var text := head + AuthorityText(n, r) + PathPrefix(r) + path;
    Assoc(text, QueryText(r), FragmentText(r));
    assert SerializeUrl(n, r) == text + TailText(r.query, r.fragment);
    FourParts(head, AuthorityText(n, r), PathPrefix(r), path, TailText(r.query, r.fragment));
    Assoc(Name(r.scheme), [':'], Body(n, r));
  }

  lemma ListBody(n: Natives, r: Url)
    requires r.host.Some? && r.path.Segments?
    ensures Body(n, r) == "//" + AuthorityRest(n, r)
  {
    var rest := PathRest(r.path.list, r.query, r.fragment);
    var host := SerializeHost(n, r.host.value);
    Empty("", rest);
    FourParts("//", CredentialsText(r), host, PortText(r.port), rest);
    assert PathPrefix(r) == "";
  }

  lemma FileBody(n: Natives, r: Url)
    requires ValidUrl(r) && r.scheme == FileUrl && r.host.Some? && r.path.Segments?
    ensures Body(n, r) == "//" + (SerializeHost(n, r.host.value) + PathRest(r.path.list, r.query, r.fragment))
  {
    FileHasNoAuthority(r);
    ListBody(n, r);
    var rest := PathRest(r.path.list, r.query, r.fragment);
    Empty("", rest);
    Empty("", SerializeHost(n, r.host.value) + rest);
  }

  lemma OpaqueBody(n: Natives, r: Url)
    requires ValidUrl(r) && r.path.Opaque?
    ensures Body(n, r) == r.path.text + TailText(r.query, r.fragment)
  {
    Empty("", r.path.text + TailText(r.query, r.fragment));
  }

  lemma NoHostBody(n: Natives, r: Url)
    requires ValidUrl(r) && r.path.Segments? && r.host.None?
    ensures Body(n, r) == PathPrefix(r) + PathRest(r.path.list, r.query, r.fragment)
  {
    Empty("", PathPrefix(r) + PathRest(r.path.list, r.query, r.fragment));
  }

  /** The machine reads any printed record back. */
  lemma Reparse(x: Context, run: Runner, n: Natives, r: Url)
    requires Executes(x, run) && Faithful(n) && ValidUrl(r)
    requires x.parseHost == HostParser(n) && x.cp == SerializeUrl(n, r)
    ensures run(START) == Some(r)
  {
    SerializedText(n, r);
    var t := Body(n, r);
    assert x.cp[0..] == x.cp;
    SchemeStartScan(x, run, r.scheme, t);
    if r.path.Opaque? {
      OpaqueBody(n, r);
      OpaqueFinish(x, run, r);
    } else if r.host.None? {
      NoHostBody(n, r);
      NoHostFinish(x, run, r);
    } else if r.scheme == FileUrl {
      FileBody(n, r);
      FileFinish(x, run, n, r);
    } else {
      ListBody(n, r);
      if IsSpecial(r) {
        SpecialFinish(x, run, n, r);
      } else {
        PlainFinish(x, run, n, r);
      }
    }
  }

  // Cleaning of the input leaves a printed record alone

  predicate Inked(s: string) {
    forall k :: 0 <= k < |s| ==> s[k] as nat > 0x20
  }

  lemma InkedTail(scheme: Protocol, q: Option<string>, f: Option<string>)
    requires ValidTail(scheme, q, f)
    ensures Inked(TailText(q, f))
  {
  }

  lemma {:induction false} InkedSegments(scheme: Protocol, list: seq<string>)
    requires forall k :: 0 <= k < |list| ==> SegmentText(scheme, list[k])
    ensures Inked(SegmentsText(list))
  {
    if list != [] {
      InkedSegments(scheme, list[1..]);
      assert SegmentText(scheme, list[0]);
    }
  }

  lemma InkedHost(n: Natives, scheme: Protocol, host: Host)
    requires Faithful(n) && ValidHost(scheme, host)
    ensures Inked(SerializeHost(n, host))
  {
    if host.Ipv6? {
      assert ColonHex(n.print6(host.pieces));
    } else {
      PlainHost(n, scheme, host);
    }
  }

  lemma InkedConcat(a: string, b: string)
    requires Inked(a) && Inked(b)
    ensures Inked(a + b)
  {
  }

  lemma InkedCredentials(r: Url)
    requires ValidUrl(r)
    ensures Inked(CredentialsText(r))
  {
  }

  lemma InkedAuthority(n: Natives, r: Url)
    requires Faithful(n) && ValidUrl(r)
    ensures Inked(AuthorityText(n, r))
  {
    if r.host.Some? {
      InkedCredentials(r);
      InkedHost(n, r.scheme, r.host.value);
      InkedConcat("//", CredentialsText(r));
      InkedConcat("//" + CredentialsText(r), SerializeHost(n, r.host.value));
      InkedConcat("//" + CredentialsText(r) + SerializeHost(n, r.host.value), PortText(r.port));
    }
  }

  /** No control characters inside, no blanks at the end. */
  predicate Clean(s: string) {
    && (forall k :: 0 <= k < |s| ==> s[k] as nat >= 0x20)
    && (s != "" ==> s[|s| - 1] as nat > 0x20)
  }

  lemma CleanConcat(a: string, b: string)
    requires Inked(a) && Clean(b)
    ensures Clean(a + b)
  {
  }

  lemma CleanPath(n: Natives, r: Url)
    requires ValidUrl(r)
    ensures Clean(SerializePath(r.path) + TailText(r.query, r.fragment))
  {
    var tail := TailText(r.query, r.fragment);
    InkedTail(r.scheme, r.query, r.fragment);
    match r.path
    case Segments(list) =>
      InkedSegments(r.scheme, list);
      CleanConcat(SegmentsText(list), tail);
    case Opaque(text) =>
      CleanOpaque(text, tail);
  }

  lemma CleanOpaque(text: string, tail: string)
    requires OpaqueText(text) && Inked(tail)
    requires text != "" && text[|text| - 1] == ' ' ==> tail != ""
    ensures Clean(text + tail)
  {
    assert forall k :: 0 <= k < |text| ==> OpaqueChar(text[k]);
    if tail == "" {
      Empty(text, text);
    }
  }

  lemma CleanBody(n: Natives, r: Url)
    requires Faithful(n) && ValidUrl(r)
    ensures Clean(Body(n, r))
  {
    CleanPath(n, r);
    var rest := SerializePath(r.path) + TailText(r.query, r.fragment);
    CleanConcat(PathPrefix(r), rest);
    InkedAuthority(n, r);
    CleanConcat(AuthorityText(n, r), PathPrefix(r) + rest);
  }

  lemma {:induction false} RemoveNothing(s: string)
    requires forall k :: 0 <= k < |s| ==> s[k] as nat >= 0x20
    ensures RemoveTabsAndNewlines(s) == s
  {
    if s != "" {
      RemoveNothing(s[1..]);
    }
  }

  lemma CodePointsFixed(s: string)
    requires Clean(s) && s != "" && !Trimmed(s[0])
    ensures CodePoints(s) == s
  {
    assert TrimLeft(s) == s;
    assert TrimRight(s) == s;
    RemoveNothing(s);
  }

  lemma CleanScheme(scheme: string, body: string)
    requires SchemeText(scheme) && Clean(body)
    ensures Clean(scheme + ([':'] + body)) && !Trimmed((scheme + ([':'] + body))[0])
  {
    CleanConcat([':'], body);
    assert Inked(scheme);
    CleanConcat(scheme, [':'] + body);
    assert (scheme + ([':'] + body))[0] == scheme[0];
  }

  lemma CleanCodePoints(n: Natives, r: Url)
    requires Faithful(n) && ValidUrl(r)
    ensures CodePoints(SerializeUrl(n, r)) == SerializeUrl(n, r)
  {
    SerializedText(n, r);
    CleanBody(n, r);
    CleanScheme(Name(r.scheme), Body(n, r));
    CodePointsFixed(Name(r.scheme) + ([':'] + Body(n, r)));
  }

  // Main results

  function Finisher(x: Context): Runner {
    m => if Sane(x, m) then Run(x, m) else None
  }

  lemma RunExecutes(x: Context)
    ensures Executes(x, Finisher(x))
  {
  }

  /** Every valid record is the result of parsing its own text, whatever the base. */
  lemma ParseSerialized(n: Natives, r: Url, base: Option<Url>)
    requires Faithful(n) && ValidUrl(r)
    ensures Parse(n, SerializeUrl(n, r), base) == Some(r)
  {
    CleanCodePoints(n, r);
    var x := Context(HostParser(n), SerializeUrl(n, r), base);
    RunExecutes(x);
    Reparse(x, Finisher(x), n, r);
  }

  /** Whatever the parser accepts, printing and parsing without a base gives the same record again. */
  lemma Fixpoint(n: Natives, input: string, base: Option<Url>)
    requires Faithful(n) && (base.Some? ==> ValidUrl(base.value))
    requires Parse(n, input, base).Some?
    ensures Parse(n, SerializeUrl(n, Parse(n, input, base).value), None) == Parse(n, input, base)
  {
    ParseValid(n, input, base);
    ParseSerialized(n, Parse(n, input, base).value, None);
  }

  /** The record invariant is exact: it holds of the records the parser returns and of no others. */
  lemma ValidIffParsed(n: Natives, r: Url)
    requires Faithful(n)
    ensures ValidUrl(r) <==> exists input :: Parse(n, input, None) == Some(r)
  {
    if ValidUrl(r) {
      ParseSerialized(n, r, None);
    }
    forall input | Parse(n, input, None) == Some(r)
      ensures ValidUrl(r)
    {
      ParseValid(n, input, None);
    }
  }

  /** Printing loses nothing: two records with the same text are the same record. */
  lemma SerializeInjective(n: Natives, a: Url, b: Url)
    requires Faithful(n) && ValidUrl(a) && ValidUrl(b) && SerializeUrl(n, a) == SerializeUrl(n, b)
    ensures a == b
  {
    ParseSerialized(n, a, None);
    ParseSerialized(n, b, None);
  }
}
