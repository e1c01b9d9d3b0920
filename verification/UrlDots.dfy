/**
 * Relative references with any path: dot segments anywhere, and text that is still to be encoded.  What
 * the parser makes of them is one fold over the segments (section 4.4 of the WHATWG URL Standard, the
 * path state), which removes dot segments as section 5.2.4 of RFC 3986 does.
 */
module UrlDots {
  import opened PercentCoding
  import opened Seqs
  import opened UrlFixpoint
  import opened UrlMachine
  import opened UrlRecord
  import opened UrlReference
  import opened UrlScan
  import opened Wrappers

  /** A character that does not end a segment. */
  predicate RawChar(scheme: Protocol, c: char) {
    c !in {'/', '?', '#'} && (IsSpecialScheme(scheme) ==> c != '\\')
  }

  predicate RawText(scheme: Protocol, s: string) {
    forall k :: 0 <= k < |s| ==> RawChar(scheme, s[k])
  }

  predicate RawSegments(scheme: Protocol, segments: seq<string>) {
    forall k :: 0 <= k < |segments| ==> RawText(scheme, segments[k])
  }

  // What becomes of the segments

  /** The list after the encoded segment `s`, which ends the path or not. */
  function Placed(scheme: Protocol, list: seq<string>, s: string, last: bool): seq<string> {
    if IsDoubleDot(s) then Shorter(scheme, list) + (if last then [""] else [])
    else if IsSingleDot(s) then list + (if last then [""] else [])
    else if scheme == FileUrl && list == [] && IsDriveLetter(s) then list + [[s[0], ':']]
    else list + [s]
  }

  /** The list after all segments. */
  function Resolved(scheme: Protocol, list: seq<string>, segments: seq<string>): seq<string>
    decreases |segments|
  {
    if segments == [] then list
    else
      var s := PercentEncode(segments[0], EncodeSet.Path);
      Resolved(scheme, Placed(scheme, list, s, |segments| == 1), segments[1..])
  }

  lemma EndPlaced(url: Url, s: string, slashish: bool)
    requires url.path.Segments?
    ensures EndSegment(url, s, slashish) == url.(path := Segments(Placed(url.scheme, url.path.list, s, !slashish)))
  {
    hide IsDoubleDot, IsSingleDot, IsDriveLetter, IsNormalizedDriveLetter;
    var list := url.path.list;
    ShortenShorter(url);
    assert list + [] == list && Shorter(url.scheme, list) + [] == Shorter(url.scheme, list);
  }

  lemma EncodeHead(s: string, set_: EncodeSet)
    requires s != ""
    ensures PercentEncode(s, set_) == PercentEncodeChar(set_, s[0]) + PercentEncode(s[1..], set_)
  {
  }

  // Scanning text as it is

  lemma {:induction false} RawSegmentScan(x: Context, run: Runner, m: Machine, s: string, t: string)
    requires Executes(x, run) && Reads(x, m, s + t) && m.state == PathSegment && RawText(m.url.scheme, s)
    ensures
      var after := m.(pointer := m.pointer + |s|, buffer := m.buffer + PercentEncode(s, EncodeSet.Path));
      Reads(x, after, t) && run(m) == run(after)
    decreases |s|
  {
    hide EndSegment, AfterSegment, PercentEncodeChar;
    if s == "" {
      assert PercentEncode(s, EncodeSet.Path) == "";
      Empty(m.buffer, t);
    } else {
      hide PercentEncode;
      ReadsHead(x, m, s, t);
      EncodeHead(s, EncodeSet.Path);
      var c := PercentEncodeChar(EncodeSet.Path, s[0]);
      var next := Advance(m, PathSegment).(buffer := m.buffer + c);
      assert RawChar(m.url.scheme, s[0]);
      StepOnce(x, run, m, next);
      RawSegmentScan(x, run, next, s[1..], t);
      Assoc(m.buffer, c, PercentEncode(s[1..], EncodeSet.Path));
    }
  }

  lemma {:induction false} RawFragmentScan(x: Context, run: Runner, m: Machine, done: string, f: string)
    requires Executes(x, run) && Reads(x, m, f) && m.state == FragmentPart && m.url.fragment == Some(done)
    ensures run(m) == Some(m.url.(fragment := Some(done + PercentEncode(f, Fragment))))
    decreases |f|
  {
    hide PercentEncodeChar;
    if f == "" {
      assert PercentEncode(f, Fragment) == "";
      Empty(done, done);
      StepOnce(x, run, m, Advance(m, FragmentPart));
    } else {
      hide PercentEncode;
      Empty(f, f);
      Empty(f[1..], f[1..]);
      ReadsHead(x, m, f, "");
      EncodeHead(f, Fragment);
      var c := PercentEncodeChar(Fragment, f[0]);
      var next := Advance(m, FragmentPart).(url := m.url.(fragment := Some(done + c)));
      StepOnce(x, run, m, next);
      RawFragmentScan(x, run, next, done + c, f[1..]);
      Assoc(done, c, PercentEncode(f[1..], Fragment));
    }
  }

  /** Query and fragment as the record holds them. */
  function EncodedQuery(scheme: Protocol, q: Option<string>): Option<string> {
    if q.Some? then Some(PercentEncode(q.value, QuerySet(scheme))) else None
  }

  function EncodedFragment(f: Option<string>): Option<string> {
    if f.Some? then Some(PercentEncode(f.value, Fragment)) else None
  }

  predicate RawQuery(q: Option<string>) {
    q.Some? ==> '#' !in q.value
  }

  lemma RawEndQuery(x: Context, run: Runner, m: Machine, f: Option<string>)
    requires Executes(x, run) && Reads(x, m, Marked('#', f)) && m.state == QueryPart
    requires m.url.query == Some("") && m.url.fragment.None?
    ensures run(m) ==
      Some(m.url.(query := EncodedQuery(m.url.scheme, Some(m.buffer)), fragment := EncodedFragment(f)))
  {
    hide PercentEncode;
    var query := PercentEncode(m.buffer, QuerySet(m.url.scheme));
    Empty(query, query);
    var next := m.(url := m.url.(query := Some(query)), buffer := "");
    if f.Some? {
      ReadsOne(x, m, '#', f.value);
      var after := Advance(next, FragmentPart).(url := next.url.(fragment := Some("")));
      StepOnce(x, run, m, after);
      RawFragmentScan(x, run, after, "", f.value);
      Empty("", PercentEncode(f.value, Fragment));
    } else {
      StepOnce(x, run, m, Advance(next, QueryPart));
    }
  }

  lemma {:induction false} RawQueryScan(x: Context, run: Runner, m: Machine, q: string, f: Option<string>)
    requires Executes(x, run) && Reads(x, m, q + Marked('#', f)) && m.state == QueryPart && '#' !in q
    requires m.url.query == Some("") && m.url.fragment.None?
    ensures run(m) ==
      Some(m.url.(query := EncodedQuery(m.url.scheme, Some(m.buffer + q)), fragment := EncodedFragment(f)))
    decreases |q|
  {
    hide PercentEncode;
    if q == "" {
      Empty(m.buffer, Marked('#', f));
      RawEndQuery(x, run, m, f);
    } else {
      ReadsHead(x, m, q, Marked('#', f));
      var next := Advance(m, QueryPart).(buffer := m.buffer + [q[0]]);
      StepOnce(x, run, m, next);
      RawQueryScan(x, run, next, q[1..], f);
      Moved(m.buffer, q);
    }
  }

  lemma RawTailScan(x: Context, run: Runner, m: Machine, url: Url, q: Option<string>, f: Option<string>)
    requires Executes(x, run) && Reads(x, m, TailText(q, f)) && RawQuery(q)
    requires url.query.None? && url.fragment.None? && (q.Some? || f.Some?) && EntersTail(x, run, m, url)
    ensures run(m) == Some(url.(query := EncodedQuery(url.scheme, q), fragment := EncodedFragment(f)))
  {
    hide PercentEncode;
    if q.Some? {
      Assoc(['?'], q.value, Marked('#', f));
      ReadsOne(x, m, '?', q.value + Marked('#', f));
      Empty(q.value, q.value);
      RawQueryScan(x, run, Advance(m, QueryPart).(buffer := "", url := url.(query := Some(""))), q.value, f);
    } else {
      Empty("", ['#'] + f.value);
      ReadsOne(x, m, '#', f.value);
      RawFragmentScan(
        x, run, Advance(m, FragmentPart).(buffer := "", url := url.(fragment := Some(""))), "", f.value);
      Empty("", PercentEncode(f.value, Fragment));
    }
  }

  lemma RawLast(x: Context, run: Runner, m: Machine, q: Option<string>, f: Option<string>)
    requires Executes(x, run) && Reads(x, m, TailText(q, f)) && m.state == PathSegment && RawQuery(q)
    requires m.url.query.None? && m.url.fragment.None?
    ensures
      var url := EndSegment(m.url, m.buffer, false);
      run(m) == Some(url.(query := EncodedQuery(m.url.scheme, q), fragment := EncodedFragment(f)))
  {
    hide EndSegment, PercentEncode;
    var url := EndSegment(m.url, m.buffer, false);
    SegmentKeepsRest(m.url, m.buffer, false);
    ReadsFirst(x, m, TailText(q, f));
    if q.Some? {
      StepOnce(x, run, m, Advance(m, QueryPart).(buffer := "", url := url.(query := Some(""))));
      RawTailScan(x, run, m, url, q, f);
    } else if f.Some? {
      StepOnce(x, run, m, Advance(m, FragmentPart).(buffer := "", url := url.(fragment := Some(""))));
      RawTailScan(x, run, m, url, q, f);
    } else {
      StepOnce(x, run, m, Advance(m, PathSegment).(url := url, buffer := ""));
    }
  }

  lemma SegmentKeepsRest(url: Url, s: string, slashish: bool)
    ensures EndSegment(url, s, slashish) == url.(path := EndSegment(url, s, slashish).path)
  {
    hide IsDoubleDot, IsSingleDot, IsDriveLetter;
  }

  /** The path state over any segments, with any query and fragment behind them. */
  lemma {:induction false} RawPathScan(
    x: Context, run: Runner, m: Machine, list: seq<string>, segments: seq<string>, q: Option<string>, f: Option<string>)
    requires Executes(x, run) && m.state == PathSegment && m.buffer == "" && m.url.path == Segments(list)
    requires segments != [] && RawSegments(m.url.scheme, segments) && RawQuery(q)
    requires Reads(x, m, Join(segments, '/') + TailText(q, f)) && m.url.query.None? && m.url.fragment.None?
    ensures run(m) ==
      Some(m.url.(
        path := Segments(Resolved(m.url.scheme, list, segments)), query := EncodedQuery(m.url.scheme, q),
        fragment := EncodedFragment(f)))
    decreases |segments|
  {
    hide PercentEncode, EndSegment, Placed, TailText, EncodedQuery, EncodedFragment;
    var s := segments[0];
    var e := PercentEncode(s, EncodeSet.Path);
    var after := m.(pointer := m.pointer + |s|, buffer := e);
    assert RawText(m.url.scheme, s);
    Empty(e, e);
    if |segments| == 1 {
      RawSegmentScan(x, run, m, s, TailText(q, f));
      RawLast(x, run, after, q, f);
      EndPlaced(m.url, e, false);
      assert segments[1..] == [];
    } else {
      var t := Join(segments[1..], '/') + TailText(q, f);
      JoinedHead(segments, TailText(q, f));
      RawSegmentScan(x, run, m, s, ['/'] + t);
      RawInner(x, run, after, t);
      EndPlaced(m.url, e, true);
      var placed := Placed(m.url.scheme, list, e, false);
      RawPathScan(x, run, Advance(after, PathSegment).(url := m.url.(path := Segments(placed)), buffer := ""),
        placed, segments[1..], q, f);
    }
  }

  lemma JoinedHead(segments: seq<string>, tail: string)
    requires |segments| > 1
    ensures Join(segments, '/') + tail == segments[0] + (['/'] + (Join(segments[1..], '/') + tail))
  {
    var rest := Join(segments[1..], '/');
    Assoc(segments[0], ['/'], rest);
    Assoc(segments[0], ['/'] + rest, tail);
    Assoc(['/'], rest, tail);
  }

  lemma RawInner(x: Context, run: Runner, m: Machine, t: string)
    requires Executes(x, run) && Reads(x, m, ['/'] + t) && m.state == PathSegment
    ensures
      var after := Advance(m, PathSegment).(url := EndSegment(m.url, m.buffer, true), buffer := "");
      Reads(x, after, t) && run(m) == run(after)
  {
    hide EndSegment;
    ReadsOne(x, m, '/', t);
    StepOnce(x, run, m, Advance(m, PathSegment).(url := EndSegment(m.url, m.buffer, true), buffer := ""));
  }

  // References

  /** A path that can only be read as one that is relative to the base. */
  predicate RelativePathText(scheme: Protocol, segments: seq<string>) {
    && segments != [] && RawSegments(scheme, segments) && segments[0] != "" && ':' !in segments[0]
    && (scheme == FileUrl ==> !IsDriveLetter(segments[0]))
  }

  /** What a text goes on with behind its first segment. */
  lemma BehindFirst(segments: seq<string>, q: Option<string>, f: Option<string>)
    requires segments != []
    ensures
      var tail := (if |segments| == 1 then "" else ['/'] + Join(segments[1..], '/')) + TailText(q, f);
      Join(segments, '/') + TailText(q, f) == segments[0] + tail && EndsSegment(tail)
  {
    if |segments| > 1 {
      JoinedHead(segments, TailText(q, f));
      Assoc(['/'], Join(segments[1..], '/'), TailText(q, f));
    } else {
      Empty("", TailText(q, f));
    }
  }

  /**
   * A relative reference, however it is written, resolves its segments on top of those of the base but the
   * last; text is encoded, and everything before the path is kept.
   */
  lemma RelativeReference(
    n: Natives, b: Url, input: string, segments: seq<string>, q: Option<string>, f: Option<string>)
    requires ValidUrl(b) && b.path.Segments? && RelativePathText(b.scheme, segments) && RawQuery(q)
    requires CodePoints(input) == Join(segments, '/') + TailText(q, f)
    ensures Parse(n, input, Some(b)) ==
      Some(b.(
        path := Segments(Resolved(b.scheme, Shorter(b.scheme, b.path.list), segments)),
        query := EncodedQuery(b.scheme, q), fragment := EncodedFragment(f)))
  {
    hide CodePoints, TailText, Resolved, EncodedQuery, EncodedFragment, ValidUrl, Join, RawSegments, Run;
    var t := Join(segments, '/') + TailText(q, f);
    var x := Context(HostParser(n), t, Some(b));
    RunExecutes(x);
    RelativeRun(x, Finisher(x), b, segments, q, f);
  }

  lemma RelativeRun(
    x: Context, run: Runner, b: Url, segments: seq<string>, q: Option<string>, f: Option<string>)
    requires Executes(x, run) && x.base == Some(b) && ValidUrl(b) && b.path.Segments?
    requires RelativePathText(b.scheme, segments) && RawQuery(q) && x.cp == Join(segments, '/') + TailText(q, f)
    ensures run(START) ==
      Some(b.(
        path := Segments(Resolved(b.scheme, Shorter(b.scheme, b.path.list), segments)),
        query := EncodedQuery(b.scheme, q), fragment := EncodedFragment(f)))
  {
    hide *;
    ToPath(x, run, b, segments, q, f);
    var m := PathStartOf(b);
    RawPathScan(x, run, m, Shorter(b.scheme, b.path.list), segments, q, f);
  }

  /** Such a reference leads to the path state, which starts from the base without its last segment. */
  lemma ToPath(x: Context, run: Runner, b: Url, segments: seq<string>, q: Option<string>, f: Option<string>)
    requires Executes(x, run) && x.base == Some(b) && ValidUrl(b) && b.path.Segments?
    requires RelativePathText(b.scheme, segments) && x.cp == Join(segments, '/') + TailText(q, f)
    ensures segments != [] && RawSegments(b.scheme, segments)
    ensures
      var m := PathStartOf(b);
      && m.state == PathSegment && m.buffer == "" && m.url.scheme == b.scheme
      && m.url == b.(fragment := None, query := None, path := Segments(Shorter(b.scheme, b.path.list)))
      && Reads(x, m, Join(segments, '/') + TailText(q, f)) && run(START) == run(m)
  {
    hide *;
    RelativeStart(x, run, b, segments, q, f);
    RelativePath(x, run, b, x.cp);
    PathStartIs(b);
  }

  lemma PathStartIs(b: Url)
    requires b.path.Segments?
    ensures
      var m := PathStartOf(b);
      && m.state == PathSegment && m.buffer == "" && m.url.scheme == b.scheme
      && m.url == b.(fragment := None, query := None, path := Segments(Shorter(b.scheme, b.path.list)))
  {
  }

  /** The text of such a reference is no scheme, and begins a path. */
  lemma RelativeStart(
    x: Context, run: Runner, b: Url, segments: seq<string>, q: Option<string>, f: Option<string>)
    requires Executes(x, run) && RelativePathText(b.scheme, segments) && x.cp == Join(segments, '/') + TailText(q, f)
    ensures segments != [] && RawSegments(b.scheme, segments)
    ensures Reads(x, NO_SCHEME, x.cp) && run(START) == run(NO_SCHEME)
    ensures x.cp != "" && !Slashish(b, Some(x.cp[0])) && x.cp[0] != '?' && x.cp[0] != '#'
    ensures b.scheme == FileUrl ==> !StartsWithDriveLetter(x.cp, 0)
  {
    hide TailText, Join, Run, StartsWithDriveLetter, IsDriveLetter;
    assert x.cp[0..] == x.cp;
    BehindFirst(segments, q, f);
    var tail := (if |segments| == 1 then "" else ['/'] + Join(segments[1..], '/')) + TailText(q, f);
    assert RawText(b.scheme, segments[0]) && RawChar(b.scheme, segments[0][0]) && x.cp[0] == segments[0][0];
    if b.scheme == FileUrl {
      DriveLetterAt(x.cp, 0, segments[0], tail);
    }
    NoSchemeInText(x, run, segments[0], tail);
  }

  /** One slash, and no second one behind it. */
  predicate SlashPathText(scheme: Protocol, segments: seq<string>) {
    segments != [] && RawSegments(scheme, segments) && (segments[0] == "" ==> |segments| == 1)
  }

  /** A reference that begins with one slash resolves its segments on top of nothing but a kept drive letter. */
  lemma RootedReference(
    n: Natives, b: Url, input: string, segments: seq<string>, q: Option<string>, f: Option<string>)
    requires ValidUrl(b) && b.path.Segments? && SlashPathText(b.scheme, segments) && RawQuery(q)
    requires CodePoints(input) == ['/'] + (Join(segments, '/') + TailText(q, f))
    ensures Parse(n, input, Some(b)) ==
      Some(b.(
        path := Segments(Resolved(b.scheme, KeptDrive(b, segments), segments)),
        query := EncodedQuery(b.scheme, q), fragment := EncodedFragment(f)))
  {
    hide CodePoints, TailText, Resolved, EncodedQuery, EncodedFragment, ValidUrl, Join, RawSegments, Run;
    var t := Join(segments, '/') + TailText(q, f);
    var x := Context(HostParser(n), ['/'] + t, Some(b));
    RunExecutes(x);
    RootedRun(x, Finisher(x), b, segments, q, f);
  }

  lemma RootedRun(
    x: Context, run: Runner, b: Url, segments: seq<string>, q: Option<string>, f: Option<string>)
    requires Executes(x, run) && x.base == Some(b) && ValidUrl(b) && b.path.Segments?
    requires SlashPathText(b.scheme, segments) && RawQuery(q)
    requires x.cp == ['/'] + (Join(segments, '/') + TailText(q, f))
    ensures run(START) ==
      Some(b.(
        path := Segments(Resolved(b.scheme, KeptDrive(b, segments), segments)),
        query := EncodedQuery(b.scheme, q), fragment := EncodedFragment(f)))
  {
    hide TailText, Resolved, EncodedQuery, EncodedFragment, Join, Run, StartsWithDriveLetter, RawSegments;
    hide ValidAuthority, ValidPath, KeptDrive;
    var t := Join(segments, '/') + TailText(q, f);
    assert x.cp[0..] == x.cp;
    NoSchemeHere(x, run, x.cp);
    RootedText(x, b, segments, q, f);
    if b.scheme == FileUrl {
      ToFile(x, run, b);
      FileSlashes(x, run, b, segments, t);
    } else {
      NoDrive(b, segments);
      ToRelative(x, run, b);
      RelativeSlashes(x, run, b, t);
    }
    RawPathScan(x, run, BehindSlashOf(b, KeptDrive(b, segments)), KeptDrive(b, segments), segments, q, f);
  }

  lemma NoDrive(b: Url, segments: seq<string>)
    requires b.path.Segments? && segments != [] && b.scheme != FileUrl
    ensures KeptDrive(b, segments) == []
  {
  }

  lemma RootedText(x: Context, b: Url, segments: seq<string>, q: Option<string>, f: Option<string>)
    requires SlashPathText(b.scheme, segments) && x.cp == ['/'] + (Join(segments, '/') + TailText(q, f))
    ensures |x.cp| > 1 ==> x.cp[1] != '/' && (IsSpecial(b) ==> x.cp[1] != '\\')
    ensures b.scheme == FileUrl ==> (StartsWithDriveLetter(x.cp, 1) <==> IsDriveLetter(segments[0]))
  {
    hide TailText, StartsWithDriveLetter, IsDriveLetter;
    BehindFirst(segments, q, f);
    var tail := (if |segments| == 1 then "" else ['/'] + Join(segments[1..], '/')) + TailText(q, f);
    assert x.cp[1..] == segments[0] + tail && RawText(b.scheme, segments[0]);
    if b.scheme == FileUrl {
      DriveLetterAt(x.cp, 1, segments[0], tail);
    }
    if |x.cp| > 1 {
      assert x.cp[1] == (segments[0] + tail)[0];
      if segments[0] == "" {
        Empty("", TailText(q, f));
        TailFirst(q, f);
      } else {
        assert RawChar(b.scheme, segments[0][0]);
      }
    }
  }

  lemma TailFirst(q: Option<string>, f: Option<string>)
    ensures TailText(q, f) != "" ==> TailText(q, f)[0] in {'?', '#'}
  {
  }

  // Laws of dot segments

  /** Encoded, the text is neither a single nor a double dot. */
  predicate Named(s: string) {
    !IsSingleDot(PercentEncode(s, EncodeSet.Path)) && !IsDoubleDot(PercentEncode(s, EncodeSet.Path))
  }

  predicate AllNamed(segments: seq<string>) {
    forall k :: 0 <= k < |segments| ==> Named(segments[k])
  }

  /** The list after segments that do not end the path. */
  function Passed(scheme: Protocol, list: seq<string>, segments: seq<string>): seq<string>
    decreases |segments|
  {
    if segments == [] then list
    else Passed(scheme, Placed(scheme, list, PercentEncode(segments[0], EncodeSet.Path), false), segments[1..])
  }

  lemma {:induction false} ResolvedSplit(scheme: Protocol, list: seq<string>, a: seq<string>, b: seq<string>)
    requires b != []
    ensures Resolved(scheme, list, a + b) == Resolved(scheme, Passed(scheme, list, a), b)
    decreases |a|
  {
    hide Placed, PercentEncode;
    if a == [] {
      assert a + b == b;
    } else {
      assert (a + b)[0] == a[0] && (a + b)[1..] == a[1..] + b;
      ResolvedSplit(scheme, Placed(scheme, list, PercentEncode(a[0], EncodeSet.Path), false), a[1..], b);
    }
  }

  /** Segments without dots are appended as they are, encoded. */
  lemma {:induction false} PlainResolved(scheme: Protocol, list: seq<string>, segments: seq<string>)
    requires AllNamed(segments) && scheme != FileUrl
    ensures |Resolved(scheme, list, segments)| == |list| + |segments|
    ensures Resolved(scheme, list, segments)[..|list|] == list
    ensures forall k :: 0 <= k < |segments| ==>
              Resolved(scheme, list, segments)[|list| + k] == PercentEncode(segments[k], EncodeSet.Path)
    decreases |segments|
  {
    hide PercentEncode, IsSingleDot, IsDoubleDot;
    if segments == [] {
      assert list[..|list|] == list;
    } else {
      var e := PercentEncode(segments[0], EncodeSet.Path);
      var rest := segments[1..];
      assert Named(segments[0]) && forall k :: 0 <= k < |rest| ==> rest[k] == segments[k + 1];
      PlainResolved(scheme, list + [e], rest);
      var r := Resolved(scheme, list, segments);
      assert r[..|list|] == r[..|list| + 1][..|list|];
      assert r[|list|] == r[..|list| + 1][|list|];
      forall k | 0 <= k < |segments|
        ensures r[|list| + k] == PercentEncode(segments[k], EncodeSet.Path)
      {
        if k > 0 {
          assert r[|list| + 1 + (k - 1)] == PercentEncode(rest[k - 1], EncodeSet.Path);
        }
      }
    }
  }

  /** A single dot inside the path vanishes. */
  lemma DotVanishes(scheme: Protocol, list: seq<string>, a: seq<string>, dot: string, b: seq<string>)
    requires b != [] && IsSingleDot(PercentEncode(dot, EncodeSet.Path))
    ensures Resolved(scheme, list, a + ([dot] + b)) == Resolved(scheme, list, a + b)
  {
    hide PercentEncode;
    ResolvedSplit(scheme, list, a, [dot] + b);
    ResolvedSplit(scheme, list, a, b);
    assert ([dot] + b)[1..] == b && Passed(scheme, list, a) + [] == Passed(scheme, list, a);
  }

  /** A double dot takes back the segment before it. */
  lemma UpUndoes(scheme: Protocol, list: seq<string>, a: seq<string>, name: string, up: string, b: seq<string>)
    requires b != [] && Named(name) && IsDoubleDot(PercentEncode(up, EncodeSet.Path)) && scheme != FileUrl
    ensures Resolved(scheme, list, a + ([name] + ([up] + b))) == Resolved(scheme, list, a + b)
  {
    hide PercentEncode;
    var at := Passed(scheme, list, a);
    var e := PercentEncode(name, EncodeSet.Path);
    ResolvedSplit(scheme, list, a, [name] + ([up] + b));
    ResolvedSplit(scheme, list, a, b);
    assert ([name] + ([up] + b))[1..] == [up] + b && ([up] + b)[1..] == b;
    assert (at + [e])[..|at|] == at && at + [] == at;
  }

  /** A dot segment at the end leaves an empty segment in its place. */
  lemma FinalDots(scheme: Protocol, list: seq<string>, a: seq<string>, dots: string)
    requires IsSingleDot(PercentEncode(dots, EncodeSet.Path)) || IsDoubleDot(PercentEncode(dots, EncodeSet.Path))
    ensures
      var at := Passed(scheme, list, a);
      Resolved(scheme, list, a + [dots]) ==
        (if IsDoubleDot(PercentEncode(dots, EncodeSet.Path)) then Shorter(scheme, at) else at) + [""]
  {
    hide PercentEncode;
    ResolvedSplit(scheme, list, a, [dots]);
    assert [dots][1..] == [];
  }
}
