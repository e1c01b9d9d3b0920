/**
 * What the states of the basic URL parser do on the text of one component: each lemma runs the
 * machine over a component as the serializer writes it, up to the state that reads the next one.
 */
module UrlScan {
  import opened PercentCoding
  import opened Seqs
  import opened UrlMachine
  import opened UrlRecord
  import opened Wrappers

  /** The machine is defined, and `t` is all the input it has still to read. */
  predicate Reads(x: Context, m: Machine, t: string) {
    Sane(x, m) && x.cp[m.pointer..] == t
  }

  lemma ReadsHead(x: Context, m: Machine, s: string, t: string)
    requires Reads(x, m, s + t) && s != ""
    ensures At(x, m.pointer) == Some(s[0])
    ensures m.pointer + |s| <= |x.cp|
    ensures x.cp[m.pointer + 1..] == s[1..] + t
    ensures x.cp[m.pointer + |s|..] == t
  {
    var rest := x.cp[m.pointer..];
    assert rest[0] == s[0];
    assert x.cp[m.pointer + 1..] == rest[1..];
    assert (s + t)[1..] == s[1..] + t;
    assert x.cp[m.pointer + |s|..] == rest[|s|..];
    assert (s + t)[|s|..] == t;
  }

  lemma ReadsOne(x: Context, m: Machine, c: char, t: string)
    requires Reads(x, m, [c] + t)
    ensures At(x, m.pointer) == Some(c) && m.pointer < |x.cp| && x.cp[m.pointer + 1..] == t
  {
    ReadsHead(x, m, [c], t);
  }

  /** A way to finish the parse from any machine; `Run` is one. */
  type Runner = Machine -> Option<Url>

  ghost predicate Executes(x: Context, run: Runner) {
    forall m, next {:trigger Step(x, m), run(next)} :: Sane(x, m) && Step(x, m) == Some(next) ==>
      run(m) == if Finished(x, next) then Some(next.url) else run(next)
  }

  lemma Empty(a: string, b: string)
    ensures a + "" == a && "" + b == b
  {
  }

  /** Moving the first character of `s` to the end of `done`. */
  lemma Moved(done: string, s: string)
    requires s != ""
    ensures done + [s[0]] + s[1..] == done + s
  {
  }

  lemma StepOnce(x: Context, run: Runner, m: Machine, next: Machine)
    requires Executes(x, run) && Sane(x, m) && Step(x, m) == Some(next)
    ensures run(m) == if Finished(x, next) then Some(next.url) else run(next)
  {
    assert run(next) == run(next);
  }

  // Fragment, query and opaque path

  lemma {:induction false} FragmentScan(x: Context, run: Runner, m: Machine, done: string, f: string)
    requires Executes(x, run)
    requires Reads(x, m, f) && m.state == FragmentPart && m.url.fragment == Some(done) && AllKept(f, Fragment)
    ensures run(m) == Some(m.url.(fragment := Some(done + f)))
    decreases |f|
  {
    if f == "" {
      assert done + f == done;
      StepOnce(x, run, m, Advance(m, FragmentPart));
    } else {
      ReadsHead(x, m, f, "");
      assert f + "" == f && f[1..] + "" == f[1..];
      var next := Advance(m, FragmentPart).(url := m.url.(fragment := Some(done + [f[0]])));
      StepOnce(x, run, m, next);
      FragmentScan(x, run, next, done + [f[0]], f[1..]);
      Moved(done, f);
    }
  }

  function Marked(mark: char, part: Option<string>): string {
    if part.Some? then [mark] + part.value else ""
  }

  lemma EndQuery(x: Context, run: Runner, m: Machine, f: Option<string>)
    requires Executes(x, run)
    requires Reads(x, m, Marked('#', f)) && m.state == QueryPart && AllKept(m.buffer, QuerySet(m.url.scheme))
    requires m.url.query == Some("") && m.url.fragment.None? && (f.Some? ==> AllKept(f.value, Fragment))
    ensures run(m) == Some(m.url.(query := Some(m.buffer), fragment := f))
  {
    EncodeKept(m.buffer, QuerySet(m.url.scheme));
    assert "" + m.buffer == m.buffer;
    var next := m.(url := m.url.(query := Some(m.buffer)), buffer := "");
    if f.Some? {
      ReadsOne(x, m, '#', f.value);
      var after := Advance(next, FragmentPart).(url := next.url.(fragment := Some("")));
      StepOnce(x, run, m, after);
      FragmentScan(x, run, after, "", f.value);
      assert "" + f.value == f.value;
    } else {
      StepOnce(x, run, m, Advance(next, QueryPart));
    }
  }

  lemma {:induction false} QueryScan(x: Context, run: Runner, m: Machine, q: string, f: Option<string>)
    requires Executes(x, run)
    requires Reads(x, m, q + Marked('#', f)) && m.state == QueryPart
    requires AllKept(m.buffer, QuerySet(m.url.scheme)) && AllKept(q, QuerySet(m.url.scheme))
    requires m.url.query == Some("") && m.url.fragment.None? && (f.Some? ==> AllKept(f.value, Fragment))
    ensures run(m) == Some(m.url.(query := Some(m.buffer + q), fragment := f))
    decreases |q|
  {
    if q == "" {
      assert m.buffer + q == m.buffer && q + Marked('#', f) == Marked('#', f);
      EndQuery(x, run, m, f);
    } else {
      ReadsHead(x, m, q, Marked('#', f));
      var next := Advance(m, QueryPart).(buffer := m.buffer + [q[0]]);
      StepOnce(x, run, m, next);
      QueryScan(x, run, next, q[1..], f);
      Moved(m.buffer, q);
    }
  }

  /** Query and fragment as they end every URL. */
  function TailText(q: Option<string>, f: Option<string>): string {
    Marked('?', q) + Marked('#', f)
  }

  predicate ValidTail(scheme: Protocol, q: Option<string>, f: Option<string>) {
    && (q.Some? ==> AllKept(q.value, QuerySet(scheme)))
    && (f.Some? ==> AllKept(f.value, Fragment))
  }

  /** The character that begins what is left, if anything is left. */
  function First(t: string): Option<char> {
    if t == "" then None else Some(t[0])
  }

  lemma ReadsFirst(x: Context, m: Machine, t: string)
    requires Reads(x, m, t)
    ensures At(x, m.pointer) == First(t)
  {
    if t != "" {
      ReadsHead(x, m, t, "");
      assert t + "" == t;
    }
  }

  /** At `?` or `#` the machine goes on behind it, with the new, empty component in the record. */
  predicate EntersTail(x: Context, run: Runner, m: Machine, url: Url) {
    && (At(x, m.pointer) == Some('?') ==>
          var next := Advance(m, QueryPart).(buffer := "", url := url.(query := Some("")));
          Sane(x, next) && run(m) == run(next))
    && (At(x, m.pointer) == Some('#') ==>
          var next := Advance(m, FragmentPart).(buffer := "", url := url.(fragment := Some("")));
          Sane(x, next) && run(m) == run(next))
  }

  lemma QueryTail(x: Context, run: Runner, m: Machine, url: Url, q: string, f: Option<string>)
    requires Executes(x, run) && Reads(x, m, TailText(Some(q), f)) && ValidTail(url.scheme, Some(q), f)
    requires url.query.None? && url.fragment.None? && EntersTail(x, run, m, url)
    ensures run(m) == Some(url.(query := Some(q), fragment := f))
  {
    Assoc(['?'], q, Marked('#', f));
    ReadsOne(x, m, '?', q + Marked('#', f));
    Empty(q, q);
    QueryScan(x, run, Advance(m, QueryPart).(buffer := "", url := url.(query := Some(""))), q, f);
  }

  lemma FragmentTail(x: Context, run: Runner, m: Machine, url: Url, f: string)
    requires Executes(x, run) && Reads(x, m, ['#'] + f) && AllKept(f, Fragment)
    requires url.fragment.None? && EntersTail(x, run, m, url)
    ensures run(m) == Some(url.(fragment := Some(f)))
  {
    ReadsOne(x, m, '#', f);
    Empty(f, f);
    FragmentScan(x, run, Advance(m, FragmentPart).(buffer := "", url := url.(fragment := Some(""))), "", f);
  }

  lemma TailScan(x: Context, run: Runner, m: Machine, url: Url, q: Option<string>, f: Option<string>)
    requires Executes(x, run) && Reads(x, m, TailText(q, f)) && ValidTail(url.scheme, q, f)
    requires url.query.None? && url.fragment.None? && (q.Some? || f.Some?)
    requires EntersTail(x, run, m, url)
    ensures run(m) == Some(url.(query := q, fragment := f))
  {
    if q.Some? {
      QueryTail(x, run, m, url, q.value, f);
    } else {
      Empty("", ['#'] + f.value);
      FragmentTail(x, run, m, url, f.value);
    }
  }

  lemma OpaqueEntersTail(x: Context, run: Runner, m: Machine)
    requires Executes(x, run) && Sane(x, m) && m.state == OpaquePath
    ensures EntersTail(x, run, m, m.url)
  {
    var c := At(x, m.pointer);
    if c == Some('?') {
      StepOnce(x, run, m, Advance(m, QueryPart).(buffer := "", url := m.url.(query := Some(""))));
    } else if c == Some('#') {
      StepOnce(x, run, m, Advance(m, FragmentPart).(buffer := "", url := m.url.(fragment := Some(""))));
    }
  }

  lemma EndOpaque(x: Context, run: Runner, m: Machine, q: Option<string>, f: Option<string>)
    requires Executes(x, run) && m.state == OpaquePath && Reads(x, m, TailText(q, f))
    requires ValidTail(m.url.scheme, q, f) && m.url.query.None? && m.url.fragment.None?
    ensures run(m) == Some(m.url.(query := q, fragment := f))
  {
    if q.Some? || f.Some? {
      OpaqueEntersTail(x, run, m);
      TailScan(x, run, m, m.url, q, f);
    } else {
      StepOnce(x, run, m, Advance(m, OpaquePath));
    }
  }

  lemma {:induction false} OpaqueScan(
    x: Context, run: Runner, m: Machine, done: string, t: string, q: Option<string>, f: Option<string>)
    requires Executes(x, run)
    requires Reads(x, m, t + TailText(q, f)) && m.state == OpaquePath && m.url.path == Opaque(done)
    requires ValidTail(m.url.scheme, q, f) && (forall k :: 0 <= k < |t| ==> OpaqueChar(t[k]))
    requires m.url.query.None? && m.url.fragment.None?
    ensures run(m) == Some(m.url.(path := Opaque(done + t), query := q, fragment := f))
    decreases |t|
  {
    if t != "" {
      ReadsHead(x, m, t, TailText(q, f));
      var next := Advance(m, OpaquePath).(url := m.url.(path := Opaque(done + [t[0]])));
      StepOnce(x, run, m, next);
      OpaqueScan(x, run, next, done + [t[0]], t[1..], q, f);
      Moved(done, t);
    } else {
      Empty(done, TailText(q, f));
      EndOpaque(x, run, m, q, f);
    }
  }

  // List path

  lemma {:induction false} SegmentScan(x: Context, run: Runner, m: Machine, s: string, t: string)
    requires Executes(x, run)
    requires Reads(x, m, s + t) && m.state == PathSegment && SegmentText(m.url.scheme, s)
    ensures
      var after := m.(pointer := m.pointer + |s|, buffer := m.buffer + s);
      Reads(x, after, t) && run(m) == run(after)
    decreases |s|
  {
    hide EndSegment, AfterSegment;
    if s == "" {
      assert m.buffer + s == m.buffer && s + t == t;
    } else {
      ReadsHead(x, m, s, t);
      var next := Advance(m, PathSegment).(buffer := m.buffer + [s[0]]);
      StepOnce(x, run, m, next);
      SegmentScan(x, run, next, s[1..], t);
      Moved(m.buffer, s);
    }
  }

  /** A segment the parser stores as it stands. */
  predicate Stored(url: Url, s: string) {
    && url.path.Segments? && ValidSegment(url.scheme, s)
    && (url.scheme == FileUrl && url.path == Segments([]) && IsDriveLetter(s) ==> IsNormalizedDriveLetter(s))
  }

  lemma EndStored(url: Url, s: string, slashish: bool)
    requires Stored(url, s)
    ensures EndSegment(url, s, slashish) == url.(path := Segments(url.path.list + [s]))
  {
    if IsNormalizedDriveLetter(s) {
      assert [s[0], ':'] == s;
    }
  }

  lemma PathEntersTail(x: Context, run: Runner, m: Machine)
    requires Executes(x, run) && Sane(x, m) && m.state == PathSegment && Stored(m.url, m.buffer)
    ensures EntersTail(x, run, m, m.url.(path := Segments(m.url.path.list + [m.buffer])))
  {
    var url := m.url.(path := Segments(m.url.path.list + [m.buffer]));
    var c := At(x, m.pointer);
    EndStored(m.url, m.buffer, false);
    if c == Some('?') {
      StepOnce(x, run, m, Advance(m, QueryPart).(buffer := "", url := url.(query := Some(""))));
    } else if c == Some('#') {
      StepOnce(x, run, m, Advance(m, FragmentPart).(buffer := "", url := url.(fragment := Some(""))));
    }
  }

  lemma LastSegment(x: Context, run: Runner, m: Machine, q: Option<string>, f: Option<string>)
    requires Executes(x, run)
    requires Reads(x, m, TailText(q, f)) && m.state == PathSegment && Stored(m.url, m.buffer)
    requires ValidTail(m.url.scheme, q, f) && m.url.query.None? && m.url.fragment.None?
    ensures run(m) == Some(m.url.(path := Segments(m.url.path.list + [m.buffer]), query := q, fragment := f))
  {
    var url := m.url.(path := Segments(m.url.path.list + [m.buffer]));
    ReadsFirst(x, m, TailText(q, f));
    if q.Some? || f.Some? {
      PathEntersTail(x, run, m);
      TailScan(x, run, m, url, q, f);
    } else {
      EndStored(m.url, m.buffer, false);
      StepOnce(x, run, m, Advance(m, PathSegment).(url := url, buffer := ""));
    }
  }

  lemma InnerSegment(x: Context, run: Runner, m: Machine, t: string)
    requires Executes(x, run)
    requires Reads(x, m, ['/'] + t) && m.state == PathSegment && Stored(m.url, m.buffer)
    ensures
      var after := Advance(m, PathSegment).(
        url := m.url.(path := Segments(m.url.path.list + [m.buffer])), buffer := "");
      Reads(x, after, t) && run(m) == run(after)
  {
    ReadsOne(x, m, '/', t);
    EndStored(m.url, m.buffer, true);
    StepOnce(x, run, m, Advance(m, PathSegment).(
      url := m.url.(path := Segments(m.url.path.list + [m.buffer])), buffer := ""));
  }

  /** The text of a list behind its first slash. */
  lemma SegmentsSplit(list: seq<string>, tail: string)
    requires |list| > 1
    ensures
      list[0] + SegmentsText(list[1..]) + tail ==
      list[0] + (['/'] + (list[1] + SegmentsText(list[2..]) + tail))
  {
    assert list[1..][1..] == list[2..];
    var rest := list[1] + SegmentsText(list[2..]);
    assert SegmentsText(list[1..]) == ['/'] + rest;
    Assoc(list[0], ['/'] + rest, tail);
    Assoc(['/'], rest, tail);
  }

  lemma {:induction false} PathScan(
    x: Context, run: Runner, m: Machine, done: seq<string>, list: seq<string>, q: Option<string>, f: Option<string>)
    requires Executes(x, run)
    requires list != [] && m.state == PathSegment && m.buffer == "" && m.url.path == Segments(done)
    requires Reads(x, m, list[0] + SegmentsText(list[1..]) + TailText(q, f))
    requires ValidSegments(m.url.scheme, done + list)
    requires ValidTail(m.url.scheme, q, f) && m.url.query.None? && m.url.fragment.None?
    ensures run(m) == Some(m.url.(path := Segments(done + list), query := q, fragment := f))
    decreases |list|, 1
  {
    hide SegmentsText, TailText, Run;
    var s := list[0];
    FirstIsStored(m.url, done, list);
    assert "" + s == s;
    var after := m.(pointer := m.pointer + |s|, buffer := s);
    if |list| == 1 {
      NoMoreSegments(s, list[1..]);
      SegmentScan(x, run, m, s, TailText(q, f));
      LastSegment(x, run, after, q, f);
      assert done + [s] == done + list;
    } else {
      var t := list[1] + SegmentsText(list[2..]) + TailText(q, f);
      SegmentsSplit(list, TailText(q, f));
      SegmentScan(x, run, m, s, ['/'] + t);
      InnerSegment(x, run, after, t);
      var next := Advance(after, PathSegment).(url := m.url.(path := Segments(done + [s])), buffer := "");
      PathScanRest(x, run, next, done, list, q, f);
    }
  }

  lemma NoMoreSegments(s: string, list: seq<string>)
    requires list == []
    ensures s + SegmentsText(list) == s
  {
  }

  lemma FirstIsStored(url: Url, done: seq<string>, list: seq<string>)
    requires url.path == Segments(done) && list != [] && ValidSegments(url.scheme, done + list)
    ensures Stored(url, list[0])
  {
    assert (done + list)[|done|] == list[0];
  }

  lemma MovedSegment(done: seq<string>, list: seq<string>)
    requires |list| > 1
    ensures done + [list[0]] + list[1..] == done + list
    ensures list[1..][0] == list[1] && list[1..][1..] == list[2..]
  {
  }

  /** The induction step of `PathScan`, behind the slash that follows the first segment. */
  lemma {:induction false} PathScanRest(
    x: Context, run: Runner, next: Machine, done: seq<string>, list: seq<string>, q: Option<string>, f: Option<string>)
    requires Executes(x, run)
    requires |list| > 1 && next.state == PathSegment && next.buffer == "" && next.url.path == Segments(done + [list[0]])
    requires Reads(x, next, list[1] + SegmentsText(list[2..]) + TailText(q, f))
    requires ValidSegments(next.url.scheme, done + list)
    requires ValidTail(next.url.scheme, q, f) && next.url.query.None? && next.url.fragment.None?
    ensures run(next) == Some(next.url.(path := Segments(done + list), query := q, fragment := f))
    decreases |list|, 0
  {
    MovedSegment(done, list);
    PathScan(x, run, next, done + [list[0]], list[1..], q, f);
  }

  lemma PathStartEntersTail(x: Context, run: Runner, m: Machine)
    requires Executes(x, run) && Sane(x, m) && m.state == PathStart && !IsSpecial(m.url)
    ensures EntersTail(x, run, m, m.url)
  {
    var c := At(x, m.pointer);
    if c == Some('?') {
      StepOnce(x, run, m, Advance(m, QueryPart).(buffer := "", url := m.url.(query := Some(""))));
    } else if c == Some('#') {
      StepOnce(x, run, m, Advance(m, FragmentPart).(buffer := "", url := m.url.(fragment := Some(""))));
    }
  }

  lemma EmptyPathScan(x: Context, run: Runner, m: Machine, q: Option<string>, f: Option<string>)
    requires Executes(x, run)
    requires m.state == PathStart && !IsSpecial(m.url) && Reads(x, m, TailText(q, f))
    requires ValidTail(m.url.scheme, q, f) && m.url.query.None? && m.url.fragment.None?
    ensures run(m) == Some(m.url.(query := q, fragment := f))
  {
    if q.Some? || f.Some? {
      PathStartEntersTail(x, run, m);
      TailScan(x, run, m, m.url, q, f);
    } else {
      StepOnce(x, run, m, Advance(m, PathStart));
    }
  }

  lemma SegmentsHead(list: seq<string>, tail: string)
    requires list != []
    ensures SegmentsText(list) + tail == ['/'] + (list[0] + SegmentsText(list[1..]) + tail)
  {
    Assoc(['/'], list[0], SegmentsText(list[1..]));
    Assoc(['/'], list[0] + SegmentsText(list[1..]), tail);
  }

  /** The path text behind an authority. */
  lemma PathStartScan(x: Context, run: Runner, m: Machine, list: seq<string>, q: Option<string>, f: Option<string>)
    requires Executes(x, run)
    requires m.state == PathStart && m.url.path == Segments([])
    requires Reads(x, m, SegmentsText(list) + TailText(q, f))
    requires ValidSegments(m.url.scheme, list) && (IsSpecial(m.url) ==> list != [])
    requires ValidTail(m.url.scheme, q, f) && m.url.query.None? && m.url.fragment.None?
    ensures run(m) == Some(m.url.(path := Segments(list), query := q, fragment := f))
  {
    if list == [] {
      Empty("", TailText(q, f));
      EmptyPathScan(x, run, m, q, f);
    } else {
      var t := list[0] + SegmentsText(list[1..]) + TailText(q, f);
      SegmentsHead(list, TailText(q, f));
      ReadsOne(x, m, '/', t);
      StepOnce(x, run, m, Advance(m, PathSegment));
      assert [] + list == list;
      PathScan(x, run, Advance(m, PathSegment), [], list, q, f);
    }
  }
}
