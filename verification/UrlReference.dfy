/**
 * Relative references: what parsing against a base gives for an empty reference, a fragment, a
 * query, a path with any number of leading "../", and a path that begins with a slash.
 */
module UrlReference {
  import opened PercentCoding
  import opened Seqs
  import opened UrlFixpoint
  import opened UrlInvariant
  import opened UrlMachine
  import opened UrlRecord
  import opened UrlScan
  import opened Wrappers

  /** The machine that has given up on a scheme and starts over. */
  const NO_SCHEME: Machine := START.(state := NoScheme)

  lemma NoSchemeHere(x: Context, run: Runner, t: string)
    requires Executes(x, run) && Reads(x, START, t) && (t != "" ==> !IsAlpha(t[0]))
    ensures Reads(x, NO_SCHEME, t) && run(START) == run(NO_SCHEME)
  {
    ReadsFirst(x, START, t);
    StepOnce(x, run, START, NO_SCHEME);
  }

  /** Text without a colon is not a scheme, however far it could be one: the pointer goes back. */
  lemma {:induction false} SchemeFails(x: Context, run: Runner, m: Machine, s: string, t: string)
    requires Executes(x, run) && Reads(x, m, s + t) && m.state == Scheme
    requires m == START.(state := Scheme, buffer := m.buffer, pointer := m.pointer)
    requires ':' !in s && (t != "" ==> t[0] != ':' && !SchemeChar(t[0]))
    ensures run(m) == run(NO_SCHEME)
    decreases |s|
  {
    if s == "" {
      Empty("", t);
      ReadsFirst(x, m, t);
      StepOnce(x, run, m, NO_SCHEME);
    } else {
      ReadsHead(x, m, s, t);
      if SchemeChar(s[0]) {
        var next := Advance(m, Scheme).(buffer := m.buffer + [Lower(s[0])]);
        StepOnce(x, run, m, next);
        SchemeFails(x, run, next, s[1..], t);
      } else {
        StepOnce(x, run, m, NO_SCHEME);
      }
    }
  }

  lemma NoSchemeInText(x: Context, run: Runner, s: string, t: string)
    requires Executes(x, run) && Reads(x, START, s + t) && s != ""
    requires ':' !in s && (t != "" ==> t[0] != ':' && !SchemeChar(t[0]))
    ensures Reads(x, NO_SCHEME, s + t) && run(START) == run(NO_SCHEME)
  {
    ReadsHead(x, START, s, t);
    if IsAlpha(s[0]) {
      var next := Advance(START, Scheme).(buffer := [Lower(s[0])]);
      assert "" + [Lower(s[0])] == [Lower(s[0])];
      StepOnce(x, run, START, next);
      SchemeFails(x, run, next, s[1..], t);
    } else {
      StepOnce(x, run, START, NO_SCHEME);
    }
  }

  /** What a reference keeps of its base unless it says otherwise. */
  function Inherited(b: Url): Url {
    b.(fragment := None)
  }

  predicate ListBase(b: Url) {
    ValidUrl(b) && b.path.Segments? && b.scheme != FileUrl
  }

  lemma ToRelative(x: Context, run: Runner, b: Url)
    requires Executes(x, run) && x.base == Some(b) && ListBase(b) && Sane(x, NO_SCHEME)
    ensures Sane(x, START.(state := Relative)) && run(NO_SCHEME) == run(START.(state := Relative))
  {
    StepOnce(x, run, NO_SCHEME, START.(state := Relative));
  }

  lemma ToFile(x: Context, run: Runner, b: Url)
    requires Executes(x, run) && x.base == Some(b) && ValidUrl(b) && b.scheme == FileUrl && Sane(x, NO_SCHEME)
    ensures Sane(x, START.(state := File)) && run(NO_SCHEME) == run(START.(state := File))
  {
    FileHasNoAuthority(b);
    StepOnce(x, run, NO_SCHEME, START.(state := File));
  }

  // The states behind a reference that begins with `?` or `#`, or is empty

  lemma RelativeMark(x: Context, run: Runner, b: Url)
    requires Executes(x, run) && x.base == Some(b) && ListBase(b) && Sane(x, START.(state := Relative))
    requires At(x, 0) == Some('?') || At(x, 0) == Some('#') || At(x, 0) == None
    ensures EntersTail(x, run, START.(state := Relative), Inherited(b))
    ensures At(x, 0) == None ==> run(START.(state := Relative)) == Some(Inherited(b))
  {
    var m := START.(state := Relative);
    StepOnce(x, run, m, InheritBase(x, m, Inherited(b)));
  }

  lemma FileMark(x: Context, run: Runner, b: Url)
    requires Executes(x, run) && x.base == Some(b) && ValidUrl(b) && b.scheme == FileUrl
    requires Sane(x, START.(state := File))
    requires At(x, 0) == Some('?') || At(x, 0) == Some('#') || At(x, 0) == None
    ensures EntersTail(x, run, START.(state := File), Inherited(b))
    ensures At(x, 0) == None ==> run(START.(state := File)) == Some(Inherited(b))
  {
    FileHasNoAuthority(b);
    var m := START.(state := File);
    StepOnce(x, run, m, InheritFile(x, m, Inherited(b)));
  }

  /** The state that meets the first character of such a reference. */
  function Marker(b: Url): Machine {
    if b.scheme == FileUrl then START.(state := File) else START.(state := Relative)
  }

  lemma ToMark(x: Context, run: Runner, b: Url, t: string)
    requires Executes(x, run) && x.base == Some(b) && ValidUrl(b) && b.path.Segments? && Reads(x, START, t)
    requires First(t) == Some('?') || First(t) == Some('#') || First(t) == None
    ensures run(START) == run(Marker(b)) && Reads(x, Marker(b), t)
    ensures EntersTail(x, run, Marker(b), Inherited(b))
    ensures t == "" ==> run(START) == Some(Inherited(b))
  {
    NoSchemeHere(x, run, t);
    ReadsFirst(x, START, t);
    if b.scheme == FileUrl {
      ToFile(x, run, b);
      FileMark(x, run, b);
    } else {
      ToRelative(x, run, b);
      RelativeMark(x, run, b);
    }
  }

  lemma QueryRun(x: Context, run: Runner, b: Url, q: string, f: Option<string>)
    requires Executes(x, run) && x.base == Some(b) && ValidUrl(b) && b.path.Segments?
    requires ValidTail(b.scheme, Some(q), f) && Reads(x, START, TailText(Some(q), f))
    ensures run(START) == Some(b.(query := Some(q), fragment := f))
  {
    var t := TailText(Some(q), f);
    ToMark(x, run, b, t);
    Assoc(['?'], q, Marked('#', f));
    ReadsOne(x, Marker(b), '?', q + Marked('#', f));
    Empty(q, q);
    QueryScan(x, run, Advance(Marker(b), QueryPart).(url := Inherited(b).(query := Some(""))), q, f);
  }

  lemma FragmentRun(x: Context, run: Runner, b: Url, f: string)
    requires Executes(x, run) && x.base == Some(b) && ValidUrl(b) && AllKept(f, Fragment)
    requires Reads(x, START, ['#'] + f)
    ensures run(START) == Some(b.(fragment := Some(f)))
  {
    if b.path.Segments? {
      ToMark(x, run, b, ['#'] + f);
      FragmentTail(x, run, Marker(b), Inherited(b), f);
    } else {
      NoSchemeHere(x, run, ['#'] + f);
      ReadsOne(x, NO_SCHEME, '#', f);
      var next := Advance(NO_SCHEME, FragmentPart).(url := b.(fragment := Some("")));
      StepOnce(x, run, NO_SCHEME, next);
      FragmentScan(x, run, next, "", f);
      Empty(f, f);
    }
  }

  // Paths

  /** What `shortenPath` leaves of a list: a lone drive letter of a file URL stays. */
  function Shorter(scheme: Protocol, list: seq<string>): seq<string> {
    if list == [] || (scheme == FileUrl && |list| == 1 && IsNormalizedDriveLetter(list[0])) then list
    else list[..|list| - 1]
  }

  /** The list shortened `k` times. */
  function Dropped(scheme: Protocol, list: seq<string>, k: nat): seq<string> {
    if k == 0 then list else Dropped(scheme, Shorter(scheme, list), k - 1)
  }

  lemma ShortenShorter(url: Url)
    requires url.path.Segments?
    ensures ShortenPath(url) == url.(path := Segments(Shorter(url.scheme, url.path.list)))
  {
  }

  /** "../" `k` times. */
  function Ups(k: nat): string {
    if k == 0 then "" else "../" + Ups(k - 1)
  }

  lemma UpStep(x: Context, run: Runner, m: Machine, t: string)
    requires Executes(x, run) && m.state == PathSegment && m.buffer == "" && Reads(x, m, "../" + t)
    requires m.url.path.Segments?
    ensures
      var after := m.(
        pointer := m.pointer + 3, url := m.url.(path := Segments(Shorter(m.url.scheme, m.url.path.list))));
      Reads(x, after, t) && run(m) == run(after)
  {
    Assoc("..", ['/'], t);
    SegmentScan(x, run, m, "..", ['/'] + t);
    Empty("..", "..");
    var at := m.(pointer := m.pointer + 2, buffer := "..");
    ReadsOne(x, at, '/', t);
    ShortenShorter(m.url);
    StepOnce(x, run, at, m.(
      pointer := m.pointer + 3, url := m.url.(path := Segments(Shorter(m.url.scheme, m.url.path.list)))));
  }

  lemma {:induction false} UpsScan(x: Context, run: Runner, m: Machine, k: nat, t: string)
    requires Executes(x, run) && m.state == PathSegment && m.buffer == "" && Reads(x, m, Ups(k) + t)
    requires m.url.path.Segments?
    ensures
      var after := m.(
        pointer := m.pointer + 3 * k, url := m.url.(path := Segments(Dropped(m.url.scheme, m.url.path.list, k))));
      Reads(x, after, t) && run(m) == run(after)
    decreases k
  {
    if k == 0 {
      Empty("", t);
    } else {
      Assoc("../", Ups(k - 1), t);
      UpStep(x, run, m, Ups(k - 1) + t);
      var next := m.(
        pointer := m.pointer + 3, url := m.url.(path := Segments(Shorter(m.url.scheme, m.url.path.list))));
      UpsScan(x, run, next, k - 1, t);
    }
  }

  lemma {:induction false} DroppedValid(scheme: Protocol, list: seq<string>, k: nat, more: seq<string>)
    requires ValidSegments(scheme, list) && ValidSegments(scheme, more)
    ensures ValidSegments(scheme, Dropped(scheme, list, k) + more)
    decreases k
  {
    if k == 0 {
      assert list == [] ==> list + more == more;
    } else {
      DroppedValid(scheme, Shorter(scheme, list), k - 1, more);
    }
  }

  /** The text of a list without its leading slash. */
  function RelativeText(list: seq<string>, q: Option<string>, f: Option<string>): string
    requires list != []
  {
    list[0] + SegmentsText(list[1..]) + TailText(q, f)
  }

  /** A relative path that cannot be read as anything else. */
  predicate PlainReference(scheme: Protocol, k: nat, list: seq<string>) {
    list != [] && ValidSegments(scheme, list) && (k == 0 ==> list[0] != "" && ':' !in list[0])
  }

  /** The path state a path reference leads to, and what it starts from. */
  function PathStartOf(b: Url): Machine
    requires b.path.Segments?
  {
    START.(state := PathSegment, url := b.(
      fragment := None, query := None, path := Segments(Shorter(b.scheme, b.path.list))))
  }

  lemma RelativePath(x: Context, run: Runner, b: Url, t: string)
    requires Executes(x, run) && x.base == Some(b) && ValidUrl(b) && b.path.Segments? && Reads(x, NO_SCHEME, t)
    requires t != "" && !Slashish(b, Some(t[0])) && t[0] != '?' && t[0] != '#'
    requires b.scheme == FileUrl ==> !StartsWithDriveLetter(x.cp, 0)
    ensures Reads(x, PathStartOf(b), t) && run(NO_SCHEME) == run(PathStartOf(b))
  {
    ShortenShorter(Inherited(b).(query := None));
    if b.scheme == FileUrl {
      FileHasNoAuthority(b);
      ToFile(x, run, b);
      var m := START.(state := File);
      ReadsFirst(x, m, t);
      StepOnce(x, run, m, InheritFile(x, m, Inherited(b)));
    } else {
      ToRelative(x, run, b);
      var m := START.(state := Relative);
      ReadsFirst(x, m, t);
      StepOnce(x, run, m, InheritBase(x, m, Inherited(b)));
    }
  }

  /** What stands behind a segment. */
  predicate EndsSegment(tail: string) {
    tail != "" ==> tail[0] in {'/', '?', '#'}
  }

  /** A drive letter is read at the start of a segment exactly when it is the segment. */
  lemma DriveLetterAt(cp: string, at: nat, segment: string, tail: string)
    requires at <= |cp| && cp[at..] == segment + tail && EndsSegment(tail)
    requires forall k :: 0 <= k < |segment| ==> segment[k] !in {'/', '\\', '?', '#'}
    ensures StartsWithDriveLetter(cp, at) <==> IsDriveLetter(segment)
  {
    var rest := segment + tail;
    assert forall i :: 0 <= i < |rest| ==> cp[at + i] == rest[i];
    if |segment| == 2 {
      assert segment == [cp[at], cp[at + 1]];
    } else if |segment| < 2 && tail != "" {
      assert rest[|segment|] == tail[0];
    } else if |segment| > 2 {
      assert rest[2] == segment[2];
    }
  }

  lemma SegmentEndsNothing(s: string)
    requires SegmentText(FileUrl, s)
    ensures forall k :: 0 <= k < |s| ==> s[k] !in {'/', '\\', '?', '#'}
  {
    forall k | 0 <= k < |s|
      ensures s[k] !in {'/', '\\', '?', '#'}
    {
      assert SegmentChar(FileUrl, s[k]);
    }
  }

  /** A plain reference does not start with a drive letter. */
  lemma NoDriveLetter(x: Context, k: nat, list: seq<string>, q: Option<string>, f: Option<string>)
    requires PlainReference(FileUrl, k, list) && x.cp == Ups(k) + RelativeText(list, q, f)
    ensures !StartsWithDriveLetter(x.cp, 0)
  {
    hide SegmentsText, TailText;
    if k > 0 {
      assert x.cp[0] == '.';
    } else {
      Empty("", RelativeText(list, q, f));
      Assoc(list[0], SegmentsText(list[1..]), TailText(q, f));
      TailMarks(list[1..], q, f);
      assert x.cp[0..] == x.cp;
      SegmentEndsNothing(list[0]);
      DriveLetterAt(x.cp, 0, list[0], SegmentsText(list[1..]) + TailText(q, f));
    }
  }

  lemma PathNoScheme(
    x: Context, run: Runner, b: Url, k: nat, list: seq<string>, q: Option<string>, f: Option<string>)
    requires Executes(x, run) && PlainReference(b.scheme, k, list)
    requires Reads(x, START, Ups(k) + RelativeText(list, q, f))
    ensures
      var t := Ups(k) + RelativeText(list, q, f);
      Reads(x, NO_SCHEME, t) && run(START) == run(NO_SCHEME) && t != "" &&
      !Slashish(b, Some(t[0])) && t[0] != '?' && t[0] != '#'
  {
    var rest := RelativeText(list, q, f);
    if k > 0 {
      Assoc("../", Ups(k - 1), rest);
      NoSchemeHere(x, run, Ups(k) + rest);
    } else {
      Empty("", rest);
      var tail := SegmentsText(list[1..]) + TailText(q, f);
      Assoc(list[0], SegmentsText(list[1..]), TailText(q, f));
      TailMarks(list[1..], q, f);
      NoSchemeInText(x, run, list[0], tail);
      assert SegmentChar(b.scheme, list[0][0]);
    }
  }

  lemma TailMarks(list: seq<string>, q: Option<string>, f: Option<string>)
    ensures
      var t := SegmentsText(list) + TailText(q, f);
      EndsSegment(t) && (t != "" ==> t[0] != ':' && !SchemeChar(t[0]))
  {
  }

  lemma PathRun(
    x: Context, run: Runner, b: Url, k: nat, list: seq<string>, q: Option<string>, f: Option<string>)
    requires Executes(x, run) && x.base == Some(b) && ValidUrl(b) && b.path.Segments?
    requires PlainReference(b.scheme, k, list) && ValidTail(b.scheme, q, f)
    requires x.cp == Ups(k) + RelativeText(list, q, f)
    ensures run(START) ==
      Some(b.(path := Segments(Dropped(b.scheme, b.path.list, k + 1) + list), query := q, fragment := f))
  {
    hide StartsWithDriveLetter, TailText, Run;
    var rest := RelativeText(list, q, f);
    var from := PathStartOf(b);
    assert x.cp[0..] == x.cp;
    PathNoScheme(x, run, b, k, list, q, f);
    if b.scheme == FileUrl {
      NoDriveLetter(x, k, list, q, f);
    }
    RelativePath(x, run, b, Ups(k) + rest);
    UpsScan(x, run, from, k, rest);
    DroppedValid(b.scheme, b.path.list, k + 1, list);
    var kept := Dropped(b.scheme, b.path.list, k + 1);
    var at := from.(pointer := 3 * k, url := from.url.(path := Segments(kept)));
    PathScan(x, run, at, kept, list, q, f);
  }

  // Paths that begin with a slash

  /** The drive letter of a file base that such a path keeps, unless it has its own. */
  function KeptDrive(b: Url, list: seq<string>): seq<string>
    requires b.path.Segments? && list != []
  {
    if b.scheme == FileUrl && b.path.list != [] && IsNormalizedDriveLetter(b.path.list[0]) && !IsDriveLetter(list[0])
    then [b.path.list[0]]
    else []
  }

  /** The path state behind the slash, and what it starts from. */
  function BehindSlashOf(b: Url, kept: seq<string>): Machine {
    START.(
      state := PathSegment, pointer := 1, url := b.(fragment := None, query := None, path := Segments(kept)))
  }

  /** One slash, and no second one behind it. */
  predicate SlashedReference(scheme: Protocol, list: seq<string>) {
    list != [] && ValidSegments(scheme, list) && (list[0] == "" ==> |list| == 1)
  }

  lemma SlashedText(list: seq<string>, q: Option<string>, f: Option<string>)
    requires list != []
    ensures
      var t := SegmentsText(list) + TailText(q, f);
      t == ['/'] + (list[0] + (SegmentsText(list[1..]) + TailText(q, f)))
  {
    SegmentsHead(list, TailText(q, f));
    Assoc(list[0], SegmentsText(list[1..]), TailText(q, f));
  }

  /** What stands behind the slash. */
  lemma BehindSlash(x: Context, scheme: Protocol, list: seq<string>, q: Option<string>, f: Option<string>)
    requires SlashedReference(scheme, list) && ValidScheme(scheme)
    requires x.cp == SegmentsText(list) + TailText(q, f)
    ensures |x.cp| > 1 ==> x.cp[1] != '/' && (IsSpecialScheme(scheme) ==> x.cp[1] != '\\')
    ensures scheme == FileUrl ==> (StartsWithDriveLetter(x.cp, 1) <==> IsDriveLetter(list[0]))
  {
    hide SegmentsText, TailText;
    var first, tail := list[0], SegmentsText(list[1..]) + TailText(q, f);
    SlashedText(list, q, f);
    TailMarks(list[1..], q, f);
    assert x.cp[1..] == first + tail;
    if scheme == FileUrl {
      SegmentEndsNothing(first);
      DriveLetterAt(x.cp, 1, first, tail);
    }
    if |x.cp| > 1 {
      SecondCharacter(scheme, list, q, f);
      assert x.cp[1] == (first + tail)[0];
    }
  }

  lemma SecondCharacter(scheme: Protocol, list: seq<string>, q: Option<string>, f: Option<string>)
    requires SlashedReference(scheme, list)
    ensures
      var t := list[0] + (SegmentsText(list[1..]) + TailText(q, f));
      t != "" ==> t[0] != '/' && (IsSpecialScheme(scheme) ==> t[0] != '\\')
  {
    if list[0] == "" {
      assert SegmentsText(list[1..]) == "";
    } else {
      assert SegmentChar(scheme, list[0][0]);
    }
  }

  lemma SlashRun(x: Context, run: Runner, b: Url, list: seq<string>, q: Option<string>, f: Option<string>)
    requires Executes(x, run) && x.base == Some(b) && ValidUrl(b) && b.path.Segments?
    requires SlashedReference(b.scheme, list) && ValidTail(b.scheme, q, f)
    requires x.cp == SegmentsText(list) + TailText(q, f)
    ensures run(START) == Some(b.(path := Segments(KeptDrive(b, list) + list), query := q, fragment := f))
  {
    hide StartsWithDriveLetter, TailText, Run;
    var t := list[0] + SegmentsText(list[1..]) + TailText(q, f);
    assert x.cp[0..] == x.cp;
    SegmentsHead(list, TailText(q, f));
    NoSchemeHere(x, run, x.cp);
    BehindSlash(x, b.scheme, list, q, f);
    var at := BehindSlashOf(b, KeptDrive(b, list));
    if b.scheme == FileUrl {
      ToFile(x, run, b);
      FileSlashes(x, run, b, list, t);
    } else {
      ToRelative(x, run, b);
      RelativeSlashes(x, run, b, t);
    }
    PathScan(x, run, at, KeptDrive(b, list), list, q, f);
  }

  lemma RelativeSlashes(x: Context, run: Runner, b: Url, t: string)
    requires Executes(x, run) && x.base == Some(b) && ListBase(b) && Reads(x, START.(state := Relative), ['/'] + t)
    requires |x.cp| > 1 ==> x.cp[1] != '/' && (IsSpecial(b) ==> x.cp[1] != '\\')
    ensures
      var at := BehindSlashOf(b, []);
      Reads(x, at, t) && run(START.(state := Relative)) == run(at)
  {
    var m := START.(state := Relative);
    ReadsOne(x, m, '/', t);
    var slash := START.(state := RelativeSlash, pointer := 1, url := NEW_URL.(scheme := b.scheme));
    StepOnce(x, run, m, slash);
    StepOnce(x, run, slash, BehindSlashOf(b, []));
  }

  lemma FileSlashes(x: Context, run: Runner, b: Url, list: seq<string>, t: string)
    requires Executes(x, run) && x.base == Some(b) && ValidUrl(b) && b.path.Segments? && b.scheme == FileUrl
    requires Reads(x, START.(state := File), ['/'] + t) && list != []
    requires |x.cp| > 1 ==> x.cp[1] != '/' && x.cp[1] != '\\'
    requires StartsWithDriveLetter(x.cp, 1) <==> IsDriveLetter(list[0])
    ensures
      var at := BehindSlashOf(b, KeptDrive(b, list));
      Reads(x, at, t) && run(START.(state := File)) == run(at)
  {
    FileHasNoAuthority(b);
    var m := START.(state := File);
    ReadsOne(x, m, '/', t);
    var slash := START.(state := FileSlash, pointer := 1, url := NEW_URL.(scheme := FileUrl, host := Some(Domain(""))));
    StepOnce(x, run, m, slash);
    FileSlashStep(x, b, list, slash);
    StepOnce(x, run, slash, BehindSlashOf(b, KeptDrive(b, list)));
  }

  lemma FileSlashStep(x: Context, b: Url, list: seq<string>, m: Machine)
    requires Sane(x, m) && x.base == Some(b) && ValidUrl(b) && b.path.Segments? && b.scheme == FileUrl && list != []
    requires m == START.(state := FileSlash, pointer := 1, url := NEW_URL.(scheme := FileUrl, host := Some(Domain(""))))
    requires |x.cp| > 1 ==> x.cp[1] != '/' && x.cp[1] != '\\'
    requires StartsWithDriveLetter(x.cp, 1) <==> IsDriveLetter(list[0])
    ensures StepFileSlash(x, m) == Some(BehindSlashOf(b, KeptDrive(b, list)))
  {
    hide StartsWithDriveLetter, IsDriveLetter, IsNormalizedDriveLetter;
    FileHasNoAuthority(b);
    if b.path.list != [] {
      assert [] + [b.path.list[0]] == [b.path.list[0]];
    }
  }

  // References are clean

  lemma {:induction false} InkedUps(k: nat)
    ensures Inked(Ups(k))
  {
    if k > 0 {
      InkedUps(k - 1);
    }
  }

  lemma InkedClean(s: string)
    requires Inked(s)
    ensures CodePoints(s) == s
  {
    if s != "" {
      CodePointsFixed(s);
    }
  }

  lemma InkedReference(scheme: Protocol, k: nat, list: seq<string>, q: Option<string>, f: Option<string>)
    requires PlainReference(scheme, k, list) && ValidTail(scheme, q, f)
    ensures Inked(Ups(k) + RelativeText(list, q, f))
  {
    InkedUps(k);
    InkedTail(scheme, q, f);
    InkedSegments(scheme, list[1..]);
    assert SegmentText(scheme, list[0]);
    InkedConcat(list[0], SegmentsText(list[1..]));
    InkedConcat(list[0] + SegmentsText(list[1..]), TailText(q, f));
    InkedConcat(Ups(k), RelativeText(list, q, f));
  }

  // Main results

  /** An empty reference is the base without its fragment; with an opaque path it is an error. */
  lemma EmptyReference(n: Natives, b: Url)
    requires ValidUrl(b)
    ensures Parse(n, "", Some(b)) == if b.path.Opaque? then None else Some(b.(fragment := None))
  {
    var x := Context(HostParser(n), "", Some(b));
    InkedClean("");
    RunExecutes(x);
    var run := Finisher(x);
    if b.path.Segments? {
      ToMark(x, run, b, "");
    } else {
      NoSchemeHere(x, run, "");
      OpaqueFails(x, b);
    }
  }

  lemma OpaqueFails(x: Context, b: Url)
    requires x.base == Some(b) && b.path.Opaque? && Sane(x, NO_SCHEME) && At(x, 0) != Some('#')
    ensures Run(x, NO_SCHEME) == None
  {
  }

  /** A fragment replaces the fragment of any base, even one with an opaque path. */
  lemma FragmentReference(n: Natives, b: Url, f: string)
    requires ValidUrl(b) && AllKept(f, Fragment)
    ensures Parse(n, "#" + f, Some(b)) == Some(b.(fragment := Some(f)))
  {
    var x := Context(HostParser(n), "#" + f, Some(b));
    InkedClean("#" + f);
    RunExecutes(x);
    assert x.cp[0..] == x.cp;
    FragmentRun(x, Finisher(x), b, f);
  }

  /** A query, with or without a fragment, keeps the path of the base. */
  lemma QueryReference(n: Natives, b: Url, q: string, f: Option<string>)
    requires ValidUrl(b) && b.path.Segments? && ValidTail(b.scheme, Some(q), f)
    ensures Parse(n, TailText(Some(q), f), Some(b)) == Some(b.(query := Some(q), fragment := f))
  {
    var t := TailText(Some(q), f);
    var x := Context(HostParser(n), t, Some(b));
    InkedTail(b.scheme, Some(q), f);
    InkedClean(t);
    RunExecutes(x);
    assert x.cp[0..] == x.cp;
    QueryRun(x, Finisher(x), b, q, f);
  }

  /**
   * A path reference with `k` leading "../" replaces the last `k + 1` segments of the base, or as
   * many as there are, and keeps everything before the path.  Of a file base a lone drive letter stays.
   */
  lemma PathReference(
    n: Natives, b: Url, k: nat, list: seq<string>, q: Option<string>, f: Option<string>)
    requires ValidUrl(b) && b.path.Segments? && PlainReference(b.scheme, k, list) && ValidTail(b.scheme, q, f)
    ensures Parse(n, Ups(k) + RelativeText(list, q, f), Some(b)) ==
      Some(b.(path := Segments(Dropped(b.scheme, b.path.list, k + 1) + list), query := q, fragment := f))
  {
    var t := Ups(k) + RelativeText(list, q, f);
    var x := Context(HostParser(n), t, Some(b));
    InkedReference(b.scheme, k, list, q, f);
    InkedClean(t);
    RunExecutes(x);
    PathRun(x, Finisher(x), b, k, list, q, f);
  }

  /**
   * A path reference that begins with one slash replaces the whole path of the base and keeps everything
   * before it; a file base keeps its drive letter unless the reference has its own.
   */
  lemma SlashReference(n: Natives, b: Url, list: seq<string>, q: Option<string>, f: Option<string>)
    requires ValidUrl(b) && b.path.Segments? && SlashedReference(b.scheme, list) && ValidTail(b.scheme, q, f)
    ensures Parse(n, SegmentsText(list) + TailText(q, f), Some(b)) ==
      Some(b.(path := Segments(KeptDrive(b, list) + list), query := q, fragment := f))
  {
    var t := SegmentsText(list) + TailText(q, f);
    var x := Context(HostParser(n), t, Some(b));
    InkedSegments(b.scheme, list);
    InkedTail(b.scheme, q, f);
    InkedConcat(SegmentsText(list), TailText(q, f));
    InkedClean(t);
    RunExecutes(x);
    SlashRun(x, Finisher(x), b, list, q, f);
  }
}
