/**
 * `basicURLParse` of lib/lws/url.js as the original runs it: one loop that mutates the state, the
 * buffer, the pointer and a URL object, with one method for each `case`.  Every method does exactly
 * one step of `UrlMachine`, so the loop computes `Parse`.
 *
 * As in the original the pointer may stand one place before the next code point to read, because
 * the loop increments it after each case.
 */
module UrlParser {
  import opened Numerals
  import opened PercentCoding
  import opened Seqs
  import opened UrlMachine
  import opened UrlRecord
  import opened Wrappers

  /** The mutable URL record of the original. */
  class UrlObject {
    var scheme: Protocol
    var username: string
    var password: string
    var host: Option<Host>
    var port: Option<nat>
    var path: Path
    var query: Option<string>
    var fragment: Option<string>

    constructor ()
      ensures Value() == NEW_URL
    {
      scheme, username, password := Plain(""), "", "";
      host, port, path, query, fragment := None, None, Segments([]), None, None;
    }

    function Value(): Url
      reads this
    {
      Url(scheme, username, password, host, port, path, query, fragment)
    }

    /** `shortenPath` */
    method Shorten()
      modifies this`path
      ensures Value() == ShortenPath(old(Value()))
    {
      if scheme == FileUrl && path.Segments? && |path.list| == 1 && IsNormalizedDriveLetter(path.list[0]) {
        return;
      }
      path := Pop(path);
    }
  }

  method EncodeOne(c: char, set_: EncodeSet) returns (enc: string)
    ensures enc == PercentEncodeChar(set_, c)
  {
    enc := Utf8PercentEncode([c], set_);
    FlatMapOne(CharEncoder(set_), c);
  }

  class Parser {
    const x: Context
    const url: UrlObject
    var state: State
    var buffer: string
    var atSignSeen: bool
    var insideBrackets: bool
    var passwordTokenSeen: bool
    var pointer: int

    constructor (x: Context)
      ensures this.x == x && fresh(url) && pointer == 0 && Machine() == START
    {
      this.x := x;
      url := new UrlObject();
      state, buffer, pointer := SchemeStart, "", 0;
      atSignSeen, insideBrackets, passwordTokenSeen := false, false, false;
    }

    /** The abstract machine, before a step. */
    ghost function Machine(): Machine
      reads this, url
      requires pointer >= 0
    {
      UrlMachine.Machine.Machine(
        state, buffer, atSignSeen, insideBrackets, passwordTokenSeen, pointer, url.Value())
    }

    ghost predicate Valid()
      reads this, url
    {
      pointer >= 0 && Sane(x, Machine())
    }

    /** The case did the step `r`, short of the final increment of the pointer. */
    ghost predicate Did(ok: bool, r: Outcome)
      reads this, url
    {
      if r.None? then !ok
      else
        && ok && pointer >= -1
        && r.value == UrlMachine.Machine.Machine(
             state, buffer, atSignSeen, insideBrackets, passwordTokenSeen, pointer + 1, url.Value())
    }

    method SchemeStartCase(c: Option<char>) returns (ok: bool)
      requires Valid() && state == SchemeStart && c == At(x, pointer)
      modifies this, url
      ensures Did(ok, StepSchemeStart(x, old(Machine())))
    {
      if c.Some? && IsAlpha(c.value) {
        buffer := buffer + [Lower(c.value)];
        state := Scheme;
      } else {
        state := NoScheme;
        pointer := pointer - 1;
      }
      ok := true;
    }

    method SchemeEnds(scheme: Protocol)
      requires Valid() && state == Scheme && At(x, pointer) == Some(':')
      modifies this, url
      ensures Did(true, Some(EndScheme(x, old(Machine()), scheme)))
    {
      hide Ready, BaseScheme, IsSpecialScheme;
      url.scheme := scheme;
      buffer := "";
      if scheme == FileUrl {
        state := File;
      } else if IsSpecialScheme(scheme) && BaseScheme(x, scheme) {
        state := SpecialRelativeOrAuthority;
      } else if IsSpecialScheme(scheme) {
        state := SpecialAuthoritySlashes;
      } else if At(x, pointer + 1) == Some('/') {
        state := PathOrAuthority;
        pointer := pointer + 1;
      } else {
        url.path := Opaque("");
        state := OpaquePath;
      }
    }

    method SchemeCase(c: Option<char>) returns (ok: bool)
      requires Valid() && state == Scheme && c == At(x, pointer)
      modifies this, url
      ensures Did(ok, StepScheme(x, old(Machine())))
    {
      if c.Some? && SchemeChar(c.value) {
        buffer := buffer + [Lower(c.value)];
      } else if c == Some(':') {
        SchemeEnds(Classify(buffer));
      } else {
        buffer := "";
        state := NoScheme;
        pointer := -1;
      }
      ok := true;
    }

    method NoSchemeCase(c: Option<char>) returns (ok: bool)
      requires Valid() && state == NoScheme && c == At(x, pointer)
      modifies this, url
      ensures Did(ok, StepNoScheme(x, old(Machine())))
    {
      if x.base.None? || (x.base.value.path.Opaque? && c != Some('#')) {
        return false;
      }
      var base := x.base.value;
      if base.path.Opaque? {
        url.scheme := base.scheme;
        url.path := base.path;
        url.query := base.query;
        url.fragment := Some("");
        state := FragmentPart;
      } else if base.scheme != FileUrl {
        state := Relative;
        pointer := pointer - 1;
      } else {
        state := File;
        pointer := pointer - 1;
      }
      ok := true;
    }

    method SpecialRelativeOrAuthorityCase(c: Option<char>) returns (ok: bool)
      requires Valid() && state == SpecialRelativeOrAuthority && c == At(x, pointer)
      modifies this, url
      ensures Did(ok, StepSpecialRelativeOrAuthority(x, old(Machine())))
    {
      if c == Some('/') && At(x, pointer + 1) == Some('/') {
        state := SpecialAuthorityIgnoreSlashes;
        pointer := pointer + 1;
      } else {
        state := Relative;
        pointer := pointer - 1;
      }
      ok := true;
    }

    method PathOrAuthorityCase(c: Option<char>) returns (ok: bool)
      requires Valid() && state == PathOrAuthority && c == At(x, pointer)
      modifies this, url
      ensures Did(ok, StepPathOrAuthority(x, old(Machine())))
    {
      if c == Some('/') {
        state := Authority;
      } else {
        state := PathSegment;
        pointer := pointer - 1;
      }
      ok := true;
    }

    /** What a relative reference replaces of the components it inherits. */
    method Inherited(c: Option<char>, ghost m: Machine)
      requires pointer >= 0 && state == Relative && c == At(x, pointer)
      requires Sane(x, m) && m == Machine().(url := m.url)
      modifies this, url
      ensures Did(true, Some(InheritBase(x, m, old(url.Value()))))
    {
      if c == Some('?') {
        url.query := Some("");
        state := QueryPart;
      } else if c == Some('#') {
        url.fragment := Some("");
        state := FragmentPart;
      } else if c.Some? {
        url.query := None;
        url.path := Pop(url.path);
        state := PathSegment;
        pointer := pointer - 1;
      }
    }

    method RelativeCase(c: Option<char>) returns (ok: bool)
      requires Valid() && state == Relative && c == At(x, pointer)
      modifies this, url
      ensures Did(ok, StepRelative(x, old(Machine())))
    {
      hide InheritBase;
      var base := x.base.value;
      url.scheme := base.scheme;
      if c == Some('/') || (IsSpecialScheme(url.scheme) && c == Some('\\')) {
        state := RelativeSlash;
      } else {
        url.username, url.password := base.username, base.password;
        url.host, url.port := base.host, base.port;
        url.path, url.query := base.path, base.query;
        Inherited(c, old(Machine()));
      }
      ok := true;
    }

    method RelativeSlashCase(c: Option<char>) returns (ok: bool)
      requires Valid() && state == RelativeSlash && c == At(x, pointer)
      modifies this, url
      ensures Did(ok, StepRelativeSlash(x, old(Machine())))
    {
      if IsSpecialScheme(url.scheme) && (c == Some('/') || c == Some('\\')) {
        state := SpecialAuthorityIgnoreSlashes;
      } else if c == Some('/') {
        state := Authority;
      } else {
        var base := x.base.value;
        url.username, url.password := base.username, base.password;
        url.host, url.port := base.host, base.port;
        state := PathSegment;
        pointer := pointer - 1;
      }
      ok := true;
    }

    method SpecialAuthoritySlashesCase(c: Option<char>) returns (ok: bool)
      requires Valid() && state == SpecialAuthoritySlashes && c == At(x, pointer)
      modifies this, url
      ensures Did(ok, StepSpecialAuthoritySlashes(x, old(Machine())))
    {
      state := SpecialAuthorityIgnoreSlashes;
      if c == Some('/') && At(x, pointer + 1) == Some('/') {
        pointer := pointer + 1;
      } else {
        pointer := pointer - 1;
      }
      ok := true;
    }

    method SpecialAuthorityIgnoreSlashesCase(c: Option<char>) returns (ok: bool)
      requires Valid() && state == SpecialAuthorityIgnoreSlashes && c == At(x, pointer)
      modifies this, url
      ensures Did(ok, StepSpecialAuthorityIgnoreSlashes(x, old(Machine())))
    {
      if c != Some('/') && c != Some('\\') {
        state := Authority;
        pointer := pointer - 1;
      }
      ok := true;
    }

    /** The loop over the buffer at an `@`. */
    method TakeCredentials()
      modifies url`username, url`password, this`passwordTokenSeen
      ensures (url.Value(), passwordTokenSeen) == AddCredentials(old(url.Value()), old(passwordTokenSeen), buffer)
    {
      for i := 0 to |buffer|
        invariant AddCredentials(url.Value(), passwordTokenSeen, buffer[i..]) ==
          AddCredentials(old(url.Value()), old(passwordTokenSeen), buffer)
      {
        var c := buffer[i];
        assert buffer[i..] == [c] + buffer[i + 1..];
        if c == ':' && !passwordTokenSeen {
          passwordTokenSeen := true;
          continue;
        }
        var enc := EncodeOne(c, Userinfo);
        if passwordTokenSeen {
          url.password := url.password + enc;
        } else {
          url.username := url.username + enc;
        }
      }
    }

    method AuthorityCase(c: Option<char>) returns (ok: bool)
      requires Valid() && state == Authority && c == At(x, pointer)
      modifies this, url
      ensures Did(ok, StepAuthority(x, old(Machine())))
    {
      if c == Some('@') {
        if atSignSeen {
          buffer := "%40" + buffer;
        }
        atSignSeen := true;
        TakeCredentials();
        buffer := "";
      } else if EndsAuthority(url.Value(), c) {
        if atSignSeen && buffer == "" {
          return false;
        }
        pointer := pointer - (|buffer| + 1);
        buffer := "";
        state := HostName;
      } else {
        buffer := buffer + [c.value];
      }
      ok := true;
    }

    method HostCase(c: Option<char>) returns (ok: bool)
      requires Valid() && state == HostName && c == At(x, pointer)
      modifies this, url
      ensures Did(ok, StepHost(x, old(Machine())))
    {
      if c == Some(':') && !insideBrackets {
        if buffer == "" {
          return false;
        }
        var host := x.parseHost(buffer, IsSpecialScheme(url.scheme));
        if host.None? {
          return false;
        }
        url.host := host;
        buffer := "";
        state := PortNumber;
      } else if EndsAuthority(url.Value(), c) {
        pointer := pointer - 1;
        if IsSpecialScheme(url.scheme) && buffer == "" {
          return false;
        }
        var host := x.parseHost(buffer, IsSpecialScheme(url.scheme));
        if host.None? {
          return false;
        }
        url.host := host;
        buffer := "";
        state := PathStart;
      } else {
        if c == Some('[') {
          insideBrackets := true;
        }
        if c == Some(']') {
          insideBrackets := false;
        }
        buffer := buffer + [c.value];
      }
      ok := true;
    }

    method PortCase(c: Option<char>) returns (ok: bool)
      requires Valid() && state == PortNumber && c == At(x, pointer)
      modifies this, url
      ensures Did(ok, StepPort(x, old(Machine())))
    {
      if c.Some? && IsDigit(c.value) {
        buffer := buffer + [c.value];
      } else if EndsAuthority(url.Value(), c) {
        if buffer != "" {
          var port := DecimalValue(buffer);
          if port > 65535 {
            return false;
          }
          url.port := if Some(port) == DefaultPort(url.scheme) then None else Some(port);
          buffer := "";
        }
        state := PathStart;
        pointer := pointer - 1;
      } else {
        return false;
      }
      ok := true;
    }

    method InheritedFile(c: Option<char>, ghost m: Machine)
      requires pointer >= 0 && state == File && c == At(x, pointer)
      requires Sane(x, m) && m == Machine().(url := m.url)
      modifies this, url
      ensures Did(true, Some(InheritFile(x, m, old(url.Value()))))
    {
      if c == Some('?') {
        url.query := Some("");
        state := QueryPart;
      } else if c == Some('#') {
        url.fragment := Some("");
        state := FragmentPart;
      } else if c.Some? {
        url.query := None;
        if !StartsWithDriveLetter(x.cp, pointer) {
          url.Shorten();
        } else {
          url.path := Segments([]);
        }
        state := PathSegment;
        pointer := pointer - 1;
      }
    }

    method FileCase(c: Option<char>) returns (ok: bool)
      requires Valid() && state == File && c == At(x, pointer)
      modifies this, url
      ensures Did(ok, StepFile(x, old(Machine())))
    {
      hide InheritFile;
      url.scheme := FileUrl;
      url.host := Some(Domain(""));
      if c == Some('/') || c == Some('\\') {
        state := FileSlash;
      } else if BaseScheme(x, FileUrl) {
        var base := x.base.value;
        url.host, url.path, url.query := base.host, base.path, base.query;
        InheritedFile(c, old(Machine()));
      } else {
        state := PathSegment;
        pointer := pointer - 1;
      }
      ok := true;
    }

    method FileSlashCase(c: Option<char>) returns (ok: bool)
      requires Valid() && state == FileSlash && c == At(x, pointer)
      modifies this, url
      ensures Did(ok, StepFileSlash(x, old(Machine())))
    {
      hide StartsWithDriveLetter, IsNormalizedDriveLetter;
      if c == Some('/') || c == Some('\\') {
        state := FileHost;
      } else {
        if BaseScheme(x, FileUrl) {
          var base := x.base.value;
          url.host := base.host;
          if !StartsWithDriveLetter(x.cp, pointer) && base.path.Segments? && base.path.list != [] &&
             IsNormalizedDriveLetter(base.path.list[0]) {
            url.path := Push(url.path, base.path.list[0]);
          }
        }
        state := PathSegment;
        pointer := pointer - 1;
      }
      ok := true;
    }

    method FileHostEnds() returns (ok: bool)
      modifies this, url
      ensures
        var host := x.parseHost(old(buffer), IsSpecial(old(url.Value())));
        && ok == host.Some?
        && atSignSeen == old(atSignSeen) && insideBrackets == old(insideBrackets)
        && passwordTokenSeen == old(passwordTokenSeen) && pointer == old(pointer)
        && (ok ==>
              && buffer == "" && state == PathStart
              && url.Value() == old(url.Value()).(
                   host := Some(if host.value == Domain("localhost") then Domain("") else host.value)))
    {
      var host := x.parseHost(buffer, IsSpecialScheme(url.scheme));
      if host.None? {
        return false;
      }
      if host == Some(Domain("localhost")) {
        host := Some(Domain(""));
      }
      url.host := host;
      buffer := "";
      state := PathStart;
      ok := true;
    }

    method FileHostCase(c: Option<char>) returns (ok: bool)
      requires Valid() && state == FileHost && c == At(x, pointer)
      modifies this, url
      ensures Did(ok, StepFileHost(x, old(Machine())))
    {
      hide IsDriveLetter;
      if c == None || c == Some('/') || c == Some('\\') || c == Some('?') || c == Some('#') {
        pointer := pointer - 1;
        if IsDriveLetter(buffer) {
          state := PathSegment;
        } else if buffer == "" {
          url.host := Some(Domain(""));
          state := PathStart;
        } else {
          ok := FileHostEnds();
          return;
        }
      } else {
        buffer := buffer + [c.value];
      }
      ok := true;
    }

    method PathStartCase(c: Option<char>) returns (ok: bool)
      requires Valid() && state == PathStart && c == At(x, pointer)
      modifies this, url
      ensures Did(ok, StepPathStart(x, old(Machine())))
    {
      if IsSpecialScheme(url.scheme) {
        state := PathSegment;
        if c != Some('/') && c != Some('\\') {
          pointer := pointer - 1;
        }
      } else if c == Some('?') {
        url.query := Some("");
        state := QueryPart;
      } else if c == Some('#') {
        url.fragment := Some("");
        state := FragmentPart;
      } else if c.Some? {
        state := PathSegment;
        if c != Some('/') {
          pointer := pointer - 1;
        }
      }
      ok := true;
    }

    /** The end of a segment, before the buffer is cleared. */
    method StoreSegment(slashish: bool)
      modifies this`buffer, url`path
      ensures url.Value() == EndSegment(old(url.Value()), old(buffer), slashish)
    {
      if IsDoubleDot(buffer) {
        url.Shorten();
        if !slashish {
          url.path := Push(url.path, "");
        }
      } else if IsSingleDot(buffer) {
        if !slashish {
          url.path := Push(url.path, "");
        }
      } else {
        if url.scheme == FileUrl && url.path == Segments([]) && IsDriveLetter(buffer) {
          buffer := [buffer[0], ':'];
        }
        url.path := Push(url.path, buffer);
      }
    }

    method PathCase(c: Option<char>) returns (ok: bool)
      requires Valid() && state == PathSegment && c == At(x, pointer)
      modifies this, url
      ensures Did(ok, StepPath(x, old(Machine())))
    {
      hide EndSegment, PercentEncodeChar, Ready;
      var slashish := Slashish(url.Value(), c);
      if c == None || slashish || c == Some('?') || c == Some('#') {
        StoreSegment(slashish);
        buffer := "";
        if c == Some('?') {
          url.query := Some("");
          state := QueryPart;
        }
        if c == Some('#') {
          url.fragment := Some("");
          state := FragmentPart;
        }
      } else {
        var enc := EncodeOne(c.value, PercentCoding.Path);
        buffer := buffer + enc;
      }
      ok := true;
    }

    method OpaquePathCase(c: Option<char>) returns (ok: bool)
      requires Valid() && state == OpaquePath && c == At(x, pointer)
      modifies this, url
      ensures Did(ok, StepOpaquePath(x, old(Machine())))
    {
      if c == Some('?') {
        url.query := Some("");
        state := QueryPart;
      } else if c == Some('#') {
        url.fragment := Some("");
        state := FragmentPart;
      } else if c.Some? {
        var enc := EncodeOne(c.value, C0);
        url.path := Opaque(url.path.text + enc);
      }
      ok := true;
    }

    method QueryCase(c: Option<char>) returns (ok: bool)
      requires Valid() && state == QueryPart && c == At(x, pointer)
      modifies this, url
      ensures Did(ok, StepQuery(x, old(Machine())))
    {
      if c == None || c == Some('#') {
        var enc := Utf8PercentEncode(buffer, QuerySet(url.scheme));
        url.query := Some(url.query.value + enc);
        buffer := "";
        if c == Some('#') {
          url.fragment := Some("");
          state := FragmentPart;
        }
      } else {
        buffer := buffer + [c.value];
      }
      ok := true;
    }

    method FragmentCase(c: Option<char>) returns (ok: bool)
      requires Valid() && state == FragmentPart && c == At(x, pointer)
      modifies this, url
      ensures Did(ok, StepFragment(x, old(Machine())))
    {
      if c.Some? {
        var enc := EncodeOne(c.value, Fragment);
        url.fragment := Some(url.fragment.value + enc);
      }
      ok := true;
    }

    /** The `switch` of the loop body. */
    method OneStep() returns (ok: bool)
      requires Valid()
      modifies this, url
      ensures Did(ok, Step(x, old(Machine())))
    {
      var c := At(x, pointer);
      match state
      case SchemeStart => ok := SchemeStartCase(c);
      case Scheme => ok := SchemeCase(c);
      case NoScheme => ok := NoSchemeCase(c);
      case SpecialRelativeOrAuthority => ok := SpecialRelativeOrAuthorityCase(c);
      case PathOrAuthority => ok := PathOrAuthorityCase(c);
      case Relative => ok := RelativeCase(c);
      case RelativeSlash => ok := RelativeSlashCase(c);
      case SpecialAuthoritySlashes => ok := SpecialAuthoritySlashesCase(c);
      case SpecialAuthorityIgnoreSlashes => ok := SpecialAuthorityIgnoreSlashesCase(c);
      case Authority => ok := AuthorityCase(c);
      case HostName => ok := HostCase(c);
      case PortNumber => ok := PortCase(c);
      case File => ok := FileCase(c);
      case FileSlash => ok := FileSlashCase(c);
      case FileHost => ok := FileHostCase(c);
      case PathStart => ok := PathStartCase(c);
      case PathSegment => ok := PathCase(c);
      case OpaquePath => ok := OpaquePathCase(c);
      case QueryPart => ok := QueryCase(c);
      case FragmentPart => ok := FragmentCase(c);
    }

    /** The loop of the parser. */
    method Loop() returns (ok: bool)
      requires Valid()
      modifies this, url
      ensures Run(x, old(Machine())) == if ok then Some(url.Value()) else None
    {
      ghost var start := Machine();
      while true
        invariant Valid() && Run(x, Machine()) == Run(x, start)
        decreases Rank(state), |x.cp| + 1 - pointer
      {
        ok := OneStep();
        if !ok {
          return false;
        }
        pointer := pointer + 1;
        if pointer > |x.cp| {
          return true;
        }
      }
    }
  }

  /** `basicURLParse(input, base)` */
  method BasicUrlParse(n: Natives, input: string, base: Option<Url>) returns (r: Option<Url>)
    ensures r == Parse(n, input, base)
  {
    var parser := new Parser(Context(HostParser(n), CodePoints(input), base));
    var ok := parser.Loop();
    return if ok then Some(parser.url.Value()) else None;
  }
}
