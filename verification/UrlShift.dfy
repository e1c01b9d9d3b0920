/**
 * Behind a scheme and its slashes a parse depends only on the text that is left: not on what was read
 * before, and not on the base.  So a reference that begins with two slashes is read like an absolute URL
 * with the scheme of its base.
 */
module UrlShift {
  import Numerals
  import PercentCoding
  import opened UrlAuthority
  import opened UrlFixpoint
  import opened UrlMachine
  import opened UrlRecord
  import opened UrlReference
  import opened UrlScan
  import opened Wrappers

  /** States that are entered behind the slashes, and never left for others. */
  predicate Behind(state: State) {
    state in {
      SpecialAuthorityIgnoreSlashes, Authority, HostName, PortNumber, FileHost, PathStart, PathSegment, OpaquePath,
      QueryPart, FragmentPart
    }
  }

  ghost predicate SameText(x: Context, from: nat, y: Context, to: nat) {
    x.parseHost == y.parseHost && from <= |x.cp| && to <= |y.cp| && x.cp[from..] == y.cp[to..]
  }

  /** Two parses of the same remaining text; the authority is not rewound beyond its start. */
  ghost predicate Twins(x: Context, m: Machine, from: nat, y: Context, w: Machine, to: nat) {
    && SameText(x, from, y, to)
    && from <= m.pointer && w == m.(pointer := m.pointer - from + to) && Behind(m.state)
    && (m.state == Authority ==> |m.buffer| <= m.pointer - from)
  }

  lemma SameChar(x: Context, m: Machine, from: nat, y: Context, w: Machine, to: nat)
    requires Twins(x, m, from, y, w, to)
    ensures At(x, m.pointer) == At(y, w.pointer)
    ensures Finished(x, m) <==> Finished(y, w)
    ensures Sane(x, m) ==> Sane(y, w)
    ensures x.parseHost == y.parseHost
  {
    assert |x.cp| - from == |y.cp| - to;
    if m.pointer < |x.cp| {
      assert x.cp[m.pointer] == x.cp[from..][m.pointer - from];
      assert y.cp[w.pointer] == y.cp[to..][w.pointer - to];
    }
  }

  ghost predicate TwinOutcomes(x: Context, r: Outcome, from: nat, y: Context, s: Outcome, to: nat) {
    r.Some? == s.Some? && (r.Some? ==> Twins(x, r.value, from, y, s.value, to))
  }

  lemma TwinAuthority(x: Context, m: Machine, from: nat, y: Context, w: Machine, to: nat)
    requires Twins(x, m, from, y, w, to) && Sane(x, m) && Sane(y, w) && m.state == Authority
    ensures TwinOutcomes(x, StepAuthority(x, m), from, y, StepAuthority(y, w), to)
  {
    hide SameText, AddCredentials;
    SameChar(x, m, from, y, w, to);
  }

  lemma TwinHostName(x: Context, m: Machine, from: nat, y: Context, w: Machine, to: nat)
    requires Twins(x, m, from, y, w, to) && Sane(x, m) && Sane(y, w) && m.state == HostName
    ensures TwinOutcomes(x, StepHost(x, m), from, y, StepHost(y, w), to)
  {
    hide Ready, Progress, SameText;
    SameChar(x, m, from, y, w, to);
  }

  lemma TwinFileHost(x: Context, m: Machine, from: nat, y: Context, w: Machine, to: nat)
    requires Twins(x, m, from, y, w, to) && Sane(x, m) && Sane(y, w) && m.state == FileHost
    ensures TwinOutcomes(x, StepFileHost(x, m), from, y, StepFileHost(y, w), to)
  {
    hide Ready, Progress, SameText;
    SameChar(x, m, from, y, w, to);
  }

  lemma TwinPortNumber(x: Context, m: Machine, from: nat, y: Context, w: Machine, to: nat)
    requires Twins(x, m, from, y, w, to) && Sane(x, m) && Sane(y, w) && m.state == PortNumber
    ensures TwinOutcomes(x, StepPort(x, m), from, y, StepPort(y, w), to)
  {
    hide Ready, Progress, SameText, Numerals.DecimalValue;
    SameChar(x, m, from, y, w, to);
  }

  lemma TwinPlainPathStart(x: Context, m: Machine, from: nat, y: Context, w: Machine, to: nat)
    requires Twins(x, m, from, y, w, to) && Sane(x, m) && Sane(y, w) && m.state == PathStart
    ensures TwinOutcomes(x, Some(PlainPathStart(x, m)), from, y, Some(PlainPathStart(y, w)), to)
  {
    hide Ready, Progress, SameText;
    SameChar(x, m, from, y, w, to);
  }

  lemma TwinPathStart(x: Context, m: Machine, from: nat, y: Context, w: Machine, to: nat)
    requires Twins(x, m, from, y, w, to) && Sane(x, m) && Sane(y, w) && m.state == PathStart
    ensures TwinOutcomes(x, StepPathStart(x, m), from, y, StepPathStart(y, w), to)
  {
    hide SameText, PlainPathStart;
    TwinPlainPathStart(x, m, from, y, w, to);
    SameChar(x, m, from, y, w, to);
  }

  lemma TwinPathSegment(x: Context, m: Machine, from: nat, y: Context, w: Machine, to: nat)
    requires Twins(x, m, from, y, w, to) && Sane(x, m) && Sane(y, w) && m.state == PathSegment
    ensures TwinOutcomes(x, StepPath(x, m), from, y, StepPath(y, w), to)
  {
    hide Ready, Progress, SameText, EndSegment, PercentCoding.PercentEncodeChar;
    SameChar(x, m, from, y, w, to);
  }

  lemma TwinOpaquePath(x: Context, m: Machine, from: nat, y: Context, w: Machine, to: nat)
    requires Twins(x, m, from, y, w, to) && Sane(x, m) && Sane(y, w) && m.state == OpaquePath
    ensures TwinOutcomes(x, StepOpaquePath(x, m), from, y, StepOpaquePath(y, w), to)
  {
    hide Ready, Progress, SameText, PercentCoding.PercentEncodeChar;
    SameChar(x, m, from, y, w, to);
  }

  lemma TwinQueryPart(x: Context, m: Machine, from: nat, y: Context, w: Machine, to: nat)
    requires Twins(x, m, from, y, w, to) && Sane(x, m) && Sane(y, w) && m.state == QueryPart
    ensures TwinOutcomes(x, StepQuery(x, m), from, y, StepQuery(y, w), to)
  {
    hide SameText, PercentCoding.PercentEncode;
    SameChar(x, m, from, y, w, to);
  }

  lemma TwinFragmentPart(x: Context, m: Machine, from: nat, y: Context, w: Machine, to: nat)
    requires Twins(x, m, from, y, w, to) && Sane(x, m) && Sane(y, w) && m.state == FragmentPart
    ensures TwinOutcomes(x, StepFragment(x, m), from, y, StepFragment(y, w), to)
  {
    hide SameText, PercentCoding.PercentEncodeChar;
    SameChar(x, m, from, y, w, to);
  }

  lemma TwinSpecialAuthorityIgnoreSlashes(x: Context, m: Machine, from: nat, y: Context, w: Machine, to: nat)
    requires Twins(x, m, from, y, w, to) && Sane(x, m) && Sane(y, w) && m.state == SpecialAuthorityIgnoreSlashes
    ensures TwinOutcomes(
              x, StepSpecialAuthorityIgnoreSlashes(x, m), from, y, StepSpecialAuthorityIgnoreSlashes(y, w), to)
  {
    hide SameText;
    SameChar(x, m, from, y, w, to);
  }

  /** Twins take the same step. */
  lemma TwinStep(x: Context, m: Machine, from: nat, y: Context, w: Machine, to: nat)
    requires Twins(x, m, from, y, w, to) && Sane(x, m) && Sane(y, w)
    ensures TwinOutcomes(x, Step(x, m), from, y, Step(y, w), to)
  {
    hide StepAuthority, StepHost, StepFileHost, StepPort, StepPathStart, StepPath, StepOpaquePath, StepQuery;
    hide StepFragment, StepSpecialAuthorityIgnoreSlashes, TwinOutcomes;
    match m.state {
      case Authority => TwinAuthority(x, m, from, y, w, to);
      case HostName => TwinHostName(x, m, from, y, w, to);
      case FileHost => TwinFileHost(x, m, from, y, w, to);
      case PortNumber => TwinPortNumber(x, m, from, y, w, to);
      case PathStart => TwinPathStart(x, m, from, y, w, to);
      case PathSegment => TwinPathSegment(x, m, from, y, w, to);
      case OpaquePath => TwinOpaquePath(x, m, from, y, w, to);
      case QueryPart => TwinQueryPart(x, m, from, y, w, to);
      case FragmentPart => TwinFragmentPart(x, m, from, y, w, to);
      case SpecialAuthorityIgnoreSlashes => TwinSpecialAuthorityIgnoreSlashes(x, m, from, y, w, to);
    }
  }

  /** Twins come to the same result. */
  lemma {:induction false} TwinRun(x: Context, m: Machine, from: nat, y: Context, w: Machine, to: nat)
    requires Twins(x, m, from, y, w, to) && Sane(x, m) && Sane(y, w)
    ensures Run(x, m) == Run(y, w)
    decreases Rank(m.state), |x.cp| + 1 - m.pointer
  {
    hide Step;
    TwinStep(x, m, from, y, w, to);
    var next := Step(x, m);
    if next.Some? {
      SameChar(x, next.value, from, y, Step(y, w).value, to);
      if !Finished(x, next.value) {
        TwinRun(x, next.value, from, y, Step(y, w).value, to);
      }
    }
  }

  // References that begin with two slashes

  /** The state behind the slashes. */
  function BehindSlashes(scheme: Protocol, pointer: nat): Machine {
    if scheme == FileUrl then
      START.(state := FileHost, pointer := pointer, url := NEW_URL.(scheme := FileUrl, host := Some(Domain(""))))
    else
      START.(
        state := if IsSpecialScheme(scheme) then SpecialAuthorityIgnoreSlashes else Authority, pointer := pointer,
        url := NEW_URL.(scheme := scheme))
  }

  lemma FileTwoSlashes(x: Context, run: Runner, b: Url, t: string)
    requires Executes(x, run) && x.base == Some(b) && ValidUrl(b) && b.scheme == FileUrl
    requires Reads(x, START.(state := File), ['/'] + (['/'] + t))
    ensures Reads(x, BehindSlashes(FileUrl, 2), t) && run(START.(state := File)) == run(BehindSlashes(FileUrl, 2))
  {
    hide ValidUrl;
    var m := START.(state := File);
    ReadsOne(x, m, '/', ['/'] + t);
    var slash := BehindSlashes(FileUrl, 1).(state := FileSlash);
    StepOnce(x, run, m, slash);
    ReadsOne(x, slash, '/', t);
    StepOnce(x, run, slash, BehindSlashes(FileUrl, 2));
  }

  lemma RelativeTwoSlashes(x: Context, run: Runner, b: Url, t: string)
    requires Executes(x, run) && x.base == Some(b) && b.scheme != FileUrl
    requires Reads(x, START.(state := Relative), ['/'] + (['/'] + t))
    ensures
      var m := BehindSlashes(b.scheme, 2);
      Reads(x, m, t) && run(START.(state := Relative)) == run(m)
  {
    var m := START.(state := Relative);
    ReadsOne(x, m, '/', ['/'] + t);
    var slash := START.(state := RelativeSlash, pointer := 1, url := NEW_URL.(scheme := b.scheme));
    StepOnce(x, run, m, slash);
    ReadsOne(x, slash, '/', t);
    StepOnce(x, run, slash, BehindSlashes(b.scheme, 2));
  }

  lemma TwoSlashes(x: Context, run: Runner, b: Url, t: string)
    requires Executes(x, run) && x.base == Some(b) && ValidUrl(b) && b.path.Segments? && x.cp == "//" + t
    ensures Reads(x, BehindSlashes(b.scheme, 2), t) && run(START) == run(BehindSlashes(b.scheme, 2))
  {
    hide ValidPath, ValidAuthority, BehindSlashes;
    assert x.cp[0..] == x.cp && x.cp == ['/'] + (['/'] + t);
    NoSchemeHere(x, run, x.cp);
    if b.scheme == FileUrl {
      ToFile(x, run, b);
      FileTwoSlashes(x, run, b, t);
    } else {
      ToRelative(x, run, b);
      RelativeTwoSlashes(x, run, b, t);
    }
  }

  lemma SchemeSlashes(x: Context, run: Runner, scheme: Protocol, t: string)
    requires Executes(x, run) && ValidScheme(scheme) && x.cp == Name(scheme) + ([':'] + ("//" + t))
    ensures
      var m := BehindSlashes(scheme, |Name(scheme)| + 3);
      Reads(x, m, t) && run(START) == run(m)
  {
    hide ValidScheme;
    assert x.cp[0..] == x.cp;
    SchemeStartScan(x, run, scheme, "//" + t);
    if scheme == FileUrl {
      ColonFile(x, run, t);
    } else if IsSpecialScheme(scheme) {
      ColonSlashes(x, run, scheme, t);
    } else {
      ColonPlain(x, run, scheme, t);
    }
  }

  lemma ColonSlashes(x: Context, run: Runner, scheme: Protocol, t: string)
    requires Executes(x, run) && ValidScheme(scheme) && IsSpecialScheme(scheme) && scheme != FileUrl
    requires Reads(x, AtColon(scheme), [':'] + ("//" + t))
    ensures
      var m := BehindSlashes(scheme, |Name(scheme)| + 3);
      Reads(x, m, t) && run(AtColon(scheme)) == run(m)
  {
    hide ValidScheme;
    ColonStep(x, run, scheme, "//" + t);
    var m := EndScheme(x, AtColon(scheme), scheme);
    assert m.state == SpecialAuthoritySlashes || m.state == SpecialRelativeOrAuthority;
    ReadsHead(x, m, "//", t);
    assert x.cp[m.pointer..][1] == '/';
    StepOnce(x, run, m, BehindSlashes(scheme, |Name(scheme)| + 3));
  }

  // Cleaning the input

  /** What is left of the end of an input when it is cleaned. */
  function CleanRest(rest: string): string {
    RemoveTabsAndNewlines(TrimRight(rest))
  }

  lemma {:induction false} TrimRightBehind(a: string, b: string)
    requires a != "" && !Trimmed(a[|a| - 1])
    ensures TrimRight(a + b) == a + TrimRight(b)
    decreases |b|
  {
    if b == "" {
      assert a + b == a;
    } else {
      assert (a + b)[|a + b| - 1] == b[|b| - 1];
      if Trimmed(b[|b| - 1]) {
        assert (a + b)[..|a + b| - 1] == a + b[..|b| - 1];
        TrimRightBehind(a, b[..|b| - 1]);
      }
    }
  }

  lemma {:induction false} RemoveBehind(a: string, b: string)
    requires forall k :: 0 <= k < |a| ==> a[k] !in {'\t', '\n', '\r'}
    ensures RemoveTabsAndNewlines(a + b) == a + RemoveTabsAndNewlines(b)
    decreases |a|
  {
    if a == "" {
      assert a + b == b;
    } else {
      assert (a + b)[1..] == a[1..] + b;
      RemoveBehind(a[1..], b);
      assert [a[0]] + (a[1..] + RemoveTabsAndNewlines(b)) == a + RemoveTabsAndNewlines(b);
    }
  }

  lemma CleanBehind(a: string, b: string)
    requires a != "" && Inked(a)
    ensures CodePoints(a + b) == a + CleanRest(b)
  {
    hide RemoveTabsAndNewlines, TrimRight;
    assert (a + b)[0] == a[0];
    assert TrimLeft(a + b) == a + b;
    TrimRightBehind(a, b);
    RemoveBehind(a, TrimRight(b));
  }

  lemma SchemeInked(scheme: Protocol)
    requires ValidScheme(scheme)
    ensures Inked(Name(scheme) + "://")
  {
  }

  // Main result

  /**
   * A reference that begins with two slashes is read, whatever follows, as the same text behind the
   * scheme of the base and a colon would be, against any base at all.
   */
  lemma AuthorityReference(n: Natives, b: Url, rest: string, other: Option<Url>)
    requires ValidUrl(b) && b.path.Segments?
    ensures Parse(n, "//" + rest, Some(b)) == Parse(n, Name(b.scheme) + "://" + rest, other)
  {
    hide Run, CodePoints, ValidUrl, Inked, CleanRest;
    var t := CleanRest(rest);
    var prefix := Name(b.scheme) + "://";
    var x := Context(HostParser(n), "//" + t, Some(b));
    var y := Context(HostParser(n), Name(b.scheme) + ([':'] + ("//" + t)), other);
    Inks(b);
    CleanBehind("//", rest);
    CleanBehind(prefix, rest);
    assert prefix + t == y.cp;
    RunExecutes(x);
    RunExecutes(y);
    TwoSlashes(x, Finisher(x), b, t);
    SchemeSlashes(y, Finisher(y), b.scheme, t);
    TwinRun(x, BehindSlashes(b.scheme, 2), 2, y, BehindSlashes(b.scheme, |Name(b.scheme)| + 3), |Name(b.scheme)| + 3);
  }

  lemma Inks(b: Url)
    requires ValidUrl(b)
    ensures ValidScheme(b.scheme) && Inked("//") && Inked(Name(b.scheme) + "://")
  {
    SchemeInked(b.scheme);
  }
}
