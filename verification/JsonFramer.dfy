/**
 * The brace-matching framer of inspector.js: `#findJsonObjectEnd` and the buffer loop of
 * `#readMessages`, against the grammar of RFC 8259.
 *
 * Text arrives as strings; decoding bytes and parsing what was cut out are not modelled.
 */
module JsonFramer {
  import opened Seqs
  import opened Wrappers

  // The scanner

  /** Where the scanner is: nesting, inside a string, behind a backslash. */
  datatype Scan = Scan(depth: int, inString: bool, escape: bool)

  const OUTSIDE: Scan := Scan(0, false, false)

  /** One character; `None` means the closing brace of the outermost object. */
  function Next(s: Scan, c: char): Option<Scan> {
    if s.escape then Some(s.(escape := false))
    else if c == '\\' && s.inString then Some(s.(escape := true))
    else if c == '"' then Some(s.(inString := !s.inString))
    else if s.inString then Some(s)
    else if c == '{' then Some(s.(depth := s.depth + 1))
    else if c == '}' then if s.depth - 1 == 0 then None else Some(s.(depth := s.depth - 1))
    else Some(s)
  }

  /** The end found from position `i` on in state `s`, or -1. */
  function FindFrom(str: string, i: nat, s: Scan): (r: int)
    ensures r == -1 || i <= r < |str|
    decreases |str| - i
  {
    if i >= |str| then -1
    else
      match Next(s, str[i])
      case None => i
      case Some(next) => FindFrom(str, i + 1, next)
  }

  /** `#findJsonObjectEnd` */
  method FindJsonObjectEnd(str: string, start: nat) returns (end: int)
    ensures end == FindFrom(str, start, OUTSIDE)
  {
    var depth := 0;
    var inString := false;
    var escape := false;
    var i := start;
    while i < |str|
      invariant i >= start
      invariant FindFrom(str, i, Scan(depth, inString, escape)) == FindFrom(str, start, OUTSIDE)
      decreases |str| - i
    {
      var c := str[i];
      i := i + 1;
      if escape {
        escape := false;
        continue;
      }
      if c == '\\' && inString {
        escape := true;
        continue;
      }
      if c == '"' {
        inString := !inString;
        continue;
      }
      if inString {
        continue;
      }
      if c == '{' {
        depth := depth + 1;
      } else if c == '}' {
        depth := depth - 1;
        if depth == 0 {
          return i - 1;
        }
      }
    }
    return -1;
  }

  // JSON texts (section 2 of RFC 8259), with all their white space

  /** A character of a string: itself, or behind a backslash.  `\u` escapes go on with plain digits. */
  datatype Letter = Plain(c: char) | Escaped(c: char)

  datatype Json =
    | Scalar(text: string)
    | Text(letters: seq<Letter>)
    | Array(items: seq<Spaced>, blank: string)
    | Object(members: seq<Member>, blank: string)

  datatype Spaced = Spaced(before: string, value: Json, after: string)

  datatype Member = Member(before: string, name: seq<Letter>, between: string, value: Spaced)

  predicate Blank(s: string) {
    forall k :: 0 <= k < |s| ==> s[k] in {' ', '\t', '\n', '\r'}
  }

  /** A character of a number, or of `true`, `false` or `null`. */
  predicate ScalarChar(c: char) {
    'a' <= c <= 'z' || 'A' <= c <= 'Z' || '0' <= c <= '9' || c == '+' || c == '-' || c == '.'
  }

  predicate GoodLetters(letters: seq<Letter>) {
    forall k :: 0 <= k < |letters| ==> letters[k].Plain? ==> letters[k].c != '"' && letters[k].c != '\\'
  }

  predicate GoodJson(j: Json) {
    match j
    case Scalar(text) => forall k :: 0 <= k < |text| ==> ScalarChar(text[k])
    case Text(letters) => GoodLetters(letters)
    case Array(items, blank) => Blank(blank) && forall k :: 0 <= k < |items| ==> GoodSpaced(items[k])
    case Object(members, blank) => Blank(blank) && forall k :: 0 <= k < |members| ==> GoodMember(members[k])
  }

  predicate GoodSpaced(v: Spaced) {
    Blank(v.before) && Blank(v.after) && GoodJson(v.value)
  }

  predicate GoodMember(m: Member) {
    Blank(m.before) && Blank(m.between) && GoodLetters(m.name) && GoodSpaced(m.value)
  }

  function LetterText(l: Letter): string {
    match l
    case Plain(c) => [c]
    case Escaped(c) => ['\\', c]
  }

  function LettersText(letters: seq<Letter>): string {
    if letters == [] then "" else LetterText(letters[0]) + LettersText(letters[1..])
  }

  function Quoted(letters: seq<Letter>): string {
    ['"'] + (LettersText(letters) + ['"'])
  }

  function JsonText(j: Json): string
    decreases j, 1
  {
    match j
    case Scalar(text) => text
    case Text(letters) => Quoted(letters)
    case Array(items, blank) => ['['] + ((if items == [] then blank else ItemsText(j, 0)) + [']'])
    case Object(members, blank) => ['{'] + ((if members == [] then blank else MembersText(j, 0)) + ['}'])
  }

  function SpacedText(v: Spaced): string
    decreases v, 0
  {
    v.before + (JsonText(v.value) + v.after)
  }

  /** The items from the `k`-th on, with commas between them. */
  function ItemsText(j: Json, k: nat): string
    requires j.Array? && k < |j.items|
    decreases j, 0, |j.items| - k
  {
    if k + 1 == |j.items| then SpacedText(j.items[k])
    else SpacedText(j.items[k]) + ([','] + ItemsText(j, k + 1))
  }

  function MemberText(m: Member): string
    decreases m, 0
  {
    m.before + (Quoted(m.name) + (m.between + ([':'] + SpacedText(m.value))))
  }

  function MembersText(j: Json, k: nat): string
    requires j.Object? && k < |j.members|
    decreases j, 0, |j.members| - k
  {
    if k + 1 == |j.members| then MemberText(j.members[k])
    else MemberText(j.members[k]) + ([','] + MembersText(j, k + 1))
  }

  // Scanning JSON

  function Out(depth: int): Scan {
    Scan(depth, false, false)
  }

  /** The scanner gets over `t` without a change of state. */
  predicate Passes(str: string, i: nat, t: string, s: Scan) {
    FindFrom(str, i, s) == FindFrom(str, i + |t|, s)
  }

  predicate Ordinary(c: char) {
    c != '"' && c != '{' && c != '}'
  }

  lemma {:induction false} OrdinaryPass(str: string, i: nat, t: string, d: int)
    requires StandsAt(str, i, t) && forall k :: 0 <= k < |t| ==> Ordinary(t[k])
    ensures Passes(str, i, t, Out(d))
    decreases |t|
  {
    if t != "" {
      StandsRest(str, i, t);
      OrdinaryPass(str, i + 1, t[1..], d);
    }
  }

  lemma StandsRest(str: string, i: nat, t: string)
    requires StandsAt(str, i, t) && t != ""
    ensures i < |str| && str[i] == t[0] && StandsAt(str, i + 1, t[1..])
  {
    assert t == [t[0]] + t[1..];
    StandsSplit(str, i, [t[0]], t[1..]);
  }

  lemma {:induction false} LettersPass(str: string, i: nat, letters: seq<Letter>, d: int)
    requires StandsAt(str, i, LettersText(letters)) && GoodLetters(letters)
    ensures Passes(str, i, LettersText(letters), Scan(d, true, false))
    decreases |letters|
  {
    if letters != [] {
      var first := LetterText(letters[0]);
      StandsSplit(str, i, first, LettersText(letters[1..]));
      LetterPass(str, i, letters[0], d);
      LettersPass(str, i + |first|, letters[1..], d);
    }
  }

  lemma LetterPass(str: string, i: nat, l: Letter, d: int)
    requires StandsAt(str, i, LetterText(l)) && (l.Plain? ==> l.c != '"' && l.c != '\\')
    ensures Passes(str, i, LetterText(l), Scan(d, true, false))
  {
    var t := LetterText(l);
    StandsRest(str, i, t);
    if l.Escaped? {
      StandsRest(str, i + 1, t[1..]);
      assert FindFrom(str, i + 1, Scan(d, true, true)) == FindFrom(str, i + 2, Scan(d, true, false));
    }
  }

  lemma QuotedPass(str: string, i: nat, letters: seq<Letter>, d: int)
    requires StandsAt(str, i, Quoted(letters)) && GoodLetters(letters)
    ensures Passes(str, i, Quoted(letters), Out(d))
  {
    hide LettersText;
    var t := LettersText(letters);
    StandsSplit(str, i, ['"'], t + ['"']);
    StandsSplit(str, i + 1, t, ['"']);
    assert str[i] == ['"'][0] && str[i + 1 + |t|] == ['"'][0];
    LettersPass(str, i + 1, letters, d);
  }

  lemma PassesBoth(str: string, i: nat, a: string, b: string, s: Scan)
    requires Passes(str, i, a, s) && Passes(str, i + |a|, b, s)
    ensures Passes(str, i, a + b, s)
  {
  }

  /** One ordinary character, then `t`. */
  lemma PassesBehind(str: string, i: nat, c: char, t: string, d: int)
    requires StandsAt(str, i, [c] + t) && Ordinary(c) && Passes(str, i + 1, t, Out(d))
    ensures Passes(str, i, [c] + t, Out(d))
  {
    StandsSplit(str, i, [c], t);
    OrdinaryPass(str, i, [c], d);
    PassesBoth(str, i, [c], t, Out(d));
  }

  /** A value inside an object is passed over, with everything nested in it. */
  lemma {:induction false} JsonPass(str: string, i: nat, j: Json, d: int)
    requires d >= 1 && GoodJson(j) && StandsAt(str, i, JsonText(j))
    ensures Passes(str, i, JsonText(j), Out(d))
    decreases j, 1
  {
    hide FindFrom;
    match j
    case Scalar(text) =>
      assert forall k :: 0 <= k < |text| ==> ScalarChar(text[k]);
      OrdinaryPass(str, i, text, d);
    case Text(letters) => QuotedPass(str, i, letters, d);
    case Array(items, blank) => BracketsPass(str, i, j, d);
    case Object(members, blank) => BracesPass(str, i, j, d);
  }

  lemma {:induction false} BracketsPass(str: string, i: nat, j: Json, d: int)
    requires d >= 1 && j.Array? && GoodJson(j) && StandsAt(str, i, JsonText(j))
    ensures Passes(str, i, JsonText(j), Out(d))
    decreases j, 0, |if j.Array? then j.items else []| + 1
  {
    hide FindFrom, ItemsText;
    var t := if j.items == [] then j.blank else ItemsText(j, 0);
    StandsSplit(str, i, ['['], t + [']']);
    StandsSplit(str, i + 1, t, [']']);
    if j.items == [] {
      OrdinaryPass(str, i + 1, j.blank, d);
    } else {
      ItemsPass(str, i + 1, j, 0, d);
    }
    OrdinaryPass(str, i + 1 + |t|, [']'], d);
    PassesBoth(str, i + 1, t, [']'], Out(d));
    PassesBehind(str, i, '[', t + [']'], d);
  }

  /** The text between the braces of an object. */
  function Inner(j: Json): string
    requires j.Object?
  {
    if j.members == [] then j.blank else MembersText(j, 0)
  }

  lemma {:induction false} InnerPass(str: string, i: nat, j: Json, d: int)
    requires d >= 1 && j.Object? && GoodJson(j) && StandsAt(str, i, Inner(j))
    ensures Passes(str, i, Inner(j), Out(d))
    decreases j, 0, |if j.Object? then j.members else []| + 1
  {
    if j.members == [] {
      OrdinaryPass(str, i, j.blank, d);
    } else {
      MembersPass(str, i, j, 0, d);
    }
  }

  lemma ObjectStands(str: string, i: nat, j: Json)
    requires j.Object? && StandsAt(str, i, JsonText(j))
    ensures JsonText(j) == ['{'] + (Inner(j) + ['}'])
    ensures i + 1 + |Inner(j)| < |str| && str[i] == '{' && str[i + 1 + |Inner(j)|] == '}'
    ensures StandsAt(str, i + 1, Inner(j))
  {
    hide MembersText;
    var t := Inner(j);
    StandsSplit(str, i, ['{'], t + ['}']);
    StandsSplit(str, i + 1, t, ['}']);
    assert str[i] == ['{'][0] && str[i + 1 + |t|] == ['}'][0];
  }

  lemma {:induction false} BracesPass(str: string, i: nat, j: Json, d: int)
    requires d >= 1 && j.Object? && GoodJson(j) && StandsAt(str, i, JsonText(j))
    ensures Passes(str, i, JsonText(j), Out(d))
    decreases j, 0, |if j.Object? then j.members else []| + 2
  {
    hide JsonText, Inner;
    ObjectStands(str, i, j);
    InnerPass(str, i + 1, j, d + 1);
  }

  lemma {:induction false} SpacedPass(str: string, i: nat, v: Spaced, d: int)
    requires d >= 1 && GoodSpaced(v) && StandsAt(str, i, SpacedText(v))
    ensures Passes(str, i, SpacedText(v), Out(d))
    decreases v, 0
  {
    hide JsonText, FindFrom;
    var t := JsonText(v.value);
    StandsSplit(str, i, v.before, t + v.after);
    StandsSplit(str, i + |v.before|, t, v.after);
    OrdinaryPass(str, i, v.before, d);
    JsonPass(str, i + |v.before|, v.value, d);
    OrdinaryPass(str, i + |v.before| + |t|, v.after, d);
  }

  lemma {:induction false} ItemsPass(str: string, i: nat, j: Json, k: nat, d: int)
    requires d >= 1 && j.Array? && GoodJson(j) && k < |j.items| && StandsAt(str, i, ItemsText(j, k))
    ensures Passes(str, i, ItemsText(j, k), Out(d))
    decreases j, 0, |if j.Array? then j.items else []| - k
  {
    hide SpacedText, FindFrom;
    var t := SpacedText(j.items[k]);
    if k + 1 == |j.items| {
      SpacedPass(str, i, j.items[k], d);
    } else {
      var rest := ItemsText(j, k + 1);
      StandsSplit(str, i, t, [','] + rest);
      StandsSplit(str, i + |t|, [','], rest);
      SpacedPass(str, i, j.items[k], d);
      ItemsPass(str, i + |t| + 1, j, k + 1, d);
      PassesBehind(str, i + |t|, ',', rest, d);
    }
  }

  lemma {:induction false} MemberPass(str: string, i: nat, m: Member, d: int)
    requires d >= 1 && GoodMember(m) && StandsAt(str, i, MemberText(m))
    ensures Passes(str, i, MemberText(m), Out(d))
    decreases m, 0
  {
    hide SpacedText, FindFrom, Quoted;
    var name := Quoted(m.name);
    var value := SpacedText(m.value);
    StandsSplit(str, i, m.before, name + (m.between + ([':'] + value)));
    var at := i + |m.before|;
    StandsSplit(str, at, name, m.between + ([':'] + value));
    StandsSplit(str, at + |name|, m.between, [':'] + value);
    var colon := at + |name| + |m.between|;
    StandsSplit(str, colon, [':'], value);
    OrdinaryPass(str, i, m.before, d);
    QuotedPass(str, at, m.name, d);
    OrdinaryPass(str, at + |name|, m.between, d);
    SpacedPass(str, colon + 1, m.value, d);
    PassesBehind(str, colon, ':', value, d);
  }

  lemma {:induction false} MembersPass(str: string, i: nat, j: Json, k: nat, d: int)
    requires d >= 1 && j.Object? && GoodJson(j) && k < |j.members| && StandsAt(str, i, MembersText(j, k))
    ensures Passes(str, i, MembersText(j, k), Out(d))
    decreases j, 0, |if j.Object? then j.members else []| - k
  {
    hide MemberText, FindFrom;
    var t := MemberText(j.members[k]);
    if k + 1 == |j.members| {
      MemberPass(str, i, j.members[k], d);
    } else {
      var rest := MembersText(j, k + 1);
      StandsSplit(str, i, t, [','] + rest);
      StandsSplit(str, i + |t|, [','], rest);
      MemberPass(str, i, j.members[k], d);
      MembersPass(str, i + |t| + 1, j, k + 1, d);
      PassesBehind(str, i + |t|, ',', rest, d);
    }
  }

  /** From the opening brace of a JSON object, the end found is its closing brace. */
  lemma ObjectEnd(str: string, start: nat, j: Json)
    requires j.Object? && GoodJson(j) && StandsAt(str, start, JsonText(j))
    ensures FindFrom(str, start, OUTSIDE) == start + |JsonText(j)| - 1
  {
    hide JsonText, Inner, GoodJson;
    ObjectStands(str, start, j);
    InnerPass(str, start + 1, j, 1);
  }

  // Found ends are stable

  /** The end found depends only on the text up to it. */
  lemma {:induction false} EndIsLocal(str: string, other: string, i: nat, s: Scan)
    requires FindFrom(str, i, s) >= 0 && FindFrom(str, i, s) < |other|
    requires forall k :: i <= k <= FindFrom(str, i, s) ==> other[k] == str[k]
    ensures FindFrom(other, i, s) == FindFrom(str, i, s)
    decreases |str| - i
  {
    var next := Next(s, str[i]);
    if next.Some? {
      EndIsLocal(str, other, i + 1, next.value);
    }
  }

  lemma EndIsStable(str: string, more: string, start: nat)
    requires FindFrom(str, start, OUTSIDE) >= 0
    ensures FindFrom(str + more, start, OUTSIDE) == FindFrom(str, start, OUTSIDE)
  {
    EndIsLocal(str, str + more, start, OUTSIDE);
  }

  /** Scanning from the start of what is left is scanning from there in the whole. */
  lemma {:induction false} EndShifts(str: string, k: nat, i: nat, s: Scan)
    requires k <= i && k <= |str|
    ensures FindFrom(str[k..], i - k, s) == if FindFrom(str, i, s) < 0 then -1 else FindFrom(str, i, s) - k
    decreases |str| - i
  {
    if i < |str| {
      assert str[k..][i - k] == str[i];
      var next := Next(s, str[i]);
      if next.Some? {
        EndShifts(str, k, i + 1, next.value);
      }
    }
  }

  // `#readMessages`

  datatype Cut = Cut(raw: seq<string>, rest: string)

  /** The raw texts in `s`, and what is left of it. */
  function Extract(s: string): Cut
    decreases |s|
  {
    var end := FindFrom(s, 0, OUTSIDE);
    if end < 0 then Cut([], s)
    else
      var behind := Extract(s[end + 1..]);
      Cut([s[..end + 1]] + behind.raw, behind.rest)
  }

  /** What more text adds to a cut. */
  function Continued(c: Cut, more: string): Cut {
    var behind := Extract(c.rest + more);
    Cut(c.raw + behind.raw, behind.rest)
  }

  /** Text that arrives later changes nothing about the texts extracted before. */
  lemma {:induction false} ExtractAppend(a: string, b: string)
    ensures Extract(a + b) == Continued(Extract(a), b)
    decreases |a|
  {
    hide FindFrom, Extract;
    var end := FindFrom(a, 0, OUTSIDE);
    if end < 0 {
      NothingCut(a);
      var behind := Extract(a + b);
      assert [] + behind.raw == behind.raw;
    } else {
      EndIsStable(a, b, 0);
      CutOne(a, end);
      CutOne(a + b, end);
      ExtractAppend(a[end + 1..], b);
      assert (a + b)[..end + 1] == a[..end + 1];
      assert (a + b)[end + 1..] == a[end + 1..] + b;
      var c := Extract(a[end + 1..]);
      var behind := Extract(c.rest + b);
      assert [a[..end + 1]] + (c.raw + behind.raw) == [a[..end + 1]] + c.raw + behind.raw;
    }
  }

  class MessageReader {
    var buf: string
    var raw: seq<string>
    ghost var received: string

    constructor ()
      ensures Valid() && received == ""
    {
      buf, raw, received := "", [], "";
    }

    /** However the text was split, the extracted texts are those of the whole. */
    ghost predicate Valid()
      reads this
    {
      Extract(received) == Cut(raw, buf)
    }

    /** The body of the read loop for one piece of text. */
    method OnText(value: string)
      requires Valid()
      modifies this
      ensures Valid() && received == old(received) + value && old(raw) <= raw
    {
      hide Extract, FindFrom, Continued, Reading;
      ExtractAppend(received, value);
      received := received + value;
      buf := buf + value;
      var start := 0;
      ghost var before := raw;
      ghost var all := buf;
      StartReading(before, all);
      while start < |buf|
        invariant buf == all && received == old(received) + value
        invariant 0 <= start <= |buf| && before <= raw
        invariant Reading(before, all, raw, start)
        decreases |buf| - start
      {
        var end := FindJsonObjectEnd(buf, start);
        if end == -1 {
          break;
        }
        KeepReading(before, all, raw, start, end);
        raw := raw + [buf[start..end + 1]];
        start := end + 1;
      }
      StopReading(before, old(buf), value, all, raw, start);
      buf := buf[start..];
    }
  }

  /** Position `start` is reached: the texts before it are cut off, the rest is still to be cut. */
  ghost predicate Reading(before: seq<string>, all: string, raw: seq<string>, start: nat)
    requires start <= |all|
  {
    var c, behind := Extract(all), Extract(all[start..]);
    before + c.raw == raw + behind.raw && c.rest == behind.rest
  }

  lemma StartReading(before: seq<string>, all: string)
    ensures Reading(before, all, before, 0)
  {
    hide Extract;
    assert all[0..] == all;
  }

  lemma KeepReading(before: seq<string>, all: string, raw: seq<string>, start: nat, end: nat)
    requires start < |all| && Reading(before, all, raw, start) && FindFrom(all, start, OUTSIDE) == end
    ensures end < |all| && Reading(before, all, raw + [all[start..end + 1]], end + 1)
  {
    hide FindFrom, Extract;
    EndShifts(all, start, start, OUTSIDE);
    CutOne(all[start..], end - start);
    assert all[start..][..end - start + 1] == all[start..end + 1];
    assert all[start..][end - start + 1..] == all[end + 1..];
    var behind := Extract(all[end + 1..]);
    assert raw + [all[start..end + 1]] + behind.raw == raw + ([all[start..end + 1]] + behind.raw);
  }

  lemma CutOne(s: string, end: nat)
    requires FindFrom(s, 0, OUTSIDE) == end
    ensures end < |s|
    ensures Extract(s) == Cut([s[..end + 1]] + Extract(s[end + 1..]).raw, Extract(s[end + 1..]).rest)
  {
    hide FindFrom;
  }

  lemma StopReading(
    before: seq<string>, buf: string, value: string, all: string, raw: seq<string>, start: nat)
    requires all == buf + value && start <= |all| && Reading(before, all, raw, start)
    requires start == |all| || FindFrom(all, start, OUTSIDE) == -1
    ensures Continued(Cut(before, buf), value) == Cut(raw, all[start..])
  {
    EndShifts(all, start, start, OUTSIDE);
    NothingCut(all[start..]);
    hide FindFrom, Extract;
    assert raw + [] == raw;
  }

  lemma NothingCut(s: string)
    requires FindFrom(s, 0, OUTSIDE) == -1
    ensures Extract(s) == Cut([], s)
  {
    hide FindFrom;
  }

  /** Blank text in front of an object belongs to its raw text. */
  lemma {:induction false} BlankPass(str: string, i: nat, blank: string)
    requires Blank(blank) && StandsAt(str, i, blank)
    ensures Passes(str, i, blank, OUTSIDE)
  {
    OrdinaryPass(str, i, blank, 0);
  }

  datatype Sent = Sent(blank: string, message: Json)

  function SentText(m: Sent): string {
    m.blank + JsonText(m.message)
  }

  function SentTexts(ms: seq<Sent>): seq<string> {
    if ms == [] then [] else [SentText(ms[0])] + SentTexts(ms[1..])
  }

  function Stream(ms: seq<Sent>): string {
    if ms == [] then "" else SentText(ms[0]) + Stream(ms[1..])
  }

  /** JSON objects sent one after the other, with any white space between, are cut apart exactly. */
  lemma {:induction false} StreamIsCut(ms: seq<Sent>)
    requires forall k :: 0 <= k < |ms| ==> Blank(ms[k].blank) && ms[k].message.Object? && GoodJson(ms[k].message)
    ensures Extract(Stream(ms)) == Cut(SentTexts(ms), "")
  {
    hide JsonText, GoodJson, FindFrom;
    if ms != [] {
      var s := Stream(ms);
      var m := ms[0];
      var t := SentText(m);
      var rest := Stream(ms[1..]);
      SentEnd(s, m, rest);
      StreamIsCut(ms[1..]);
      assert s[..|t|] == t && s[|t|..] == rest;
    } else {
      NothingFound();
    }
  }

  lemma NothingFound()
    ensures FindFrom("", 0, OUTSIDE) == -1
  {
  }

  lemma SentEnd(s: string, m: Sent, rest: string)
    requires s == SentText(m) + rest && Blank(m.blank) && m.message.Object? && GoodJson(m.message)
    ensures FindFrom(s, 0, OUTSIDE) == |SentText(m)| - 1 && |SentText(m)| > 0
  {
    hide GoodJson, JsonText;
    assert StandsAt(s, 0, SentText(m));
    StandsSplit(s, 0, m.blank, JsonText(m.message));
    BlankPass(s, 0, m.blank);
    ObjectEnd(s, |m.blank|, m.message);
    ObjectStands(s, |m.blank|, m.message);
  }
}
