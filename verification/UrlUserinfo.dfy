/**
 * User names and passwords: whatever stands between "//" and the last "@" is split at its first
 * colon and percent-encoded, with every "@" inside it.
 */
module UrlUserinfo {
  import opened PercentCoding
  import opened Seqs
  import opened UrlAuthority
  import opened UrlFixpoint
  import opened UrlMachine
  import opened UrlRecord
  import opened UrlScan
  import opened Wrappers
  import Utf8

  /** The text before the first colon, and behind it. */
  function UserPart(s: string): string {
    var i := IndexOf(s, ':');
    if i < 0 then s else s[..i]
  }

  function PasswordPart(s: string): string {
    var i := IndexOf(s, ':');
    if i < 0 then "" else s[i + 1..]
  }

  lemma {:induction false} AddAppend(url: Url, seen: bool, a: string, b: string)
    ensures
      var (u, s) := AddCredentials(url, seen, a);
      AddCredentials(url, seen, a + b) == AddCredentials(u, s, b)
    decreases |a|
  {
    if a == "" {
      Empty("", b);
    } else {
      assert (a + b)[1..] == a[1..] + b && (a + b)[0] == a[0];
      if a[0] == ':' && !seen {
        AddAppend(url, true, a[1..], b);
      } else {
        var enc := PercentEncodeChar(Userinfo, a[0]);
        AddAppend(
          if seen then url.(password := url.password + enc) else url.(username := url.username + enc), seen,
          a[1..], b);
      }
    }
  }

  lemma AtSignEncoded()
    ensures PercentEncodeChar(Userinfo, '@') == "%40"
  {
    Utf8.AsciiByte('@');
    assert Utf8.EncodeChar('@') == [0x40];
    assert FlatMap(PercentByte, [0x40]) == PercentByte(0x40) + FlatMap(PercentByte, []);
    assert PercentByte(0x40) == "%40";
  }

  /** An earlier "@" is put back as "%40", which is what encoding it gives. */
  lemma AtSignBack(url: Url, seen: bool, b: string)
    ensures AddCredentials(url, seen, "%40" + b) == AddCredentials(url, seen, "@" + b)
  {
    hide AddCredentials;
    AtSignEncoded();
    AddAppend(url, seen, "%40", b);
    AddAppend(url, seen, "@", b);
    AddKept(url, seen, "%40");
    AddOne(url, seen, '@');
  }

  lemma AddOne(url: Url, seen: bool, c: char)
    requires c != ':'
    ensures
      var enc := PercentEncodeChar(Userinfo, c);
      AddCredentials(url, seen, [c]) ==
        (if seen then url.(password := url.password + enc) else url.(username := url.username + enc), seen)
  {
    hide PercentEncodeChar;
    var enc := PercentEncodeChar(Userinfo, c);
    assert [c][1..] == "";
    var next := if seen then url.(password := url.password + enc) else url.(username := url.username + enc);
    assert AddCredentials(next, seen, "") == (next, seen);
  }

  /** Text that is added to one component is encoded as a whole. */
  lemma {:induction false} AddEncoded(url: Url, seen: bool, s: string)
    requires seen || ':' !in s
    ensures
      var enc := PercentEncode(s, Userinfo);
      AddCredentials(url, seen, s) ==
        (if seen then url.(password := url.password + enc) else url.(username := url.username + enc), seen)
    decreases |s|
  {
    hide PercentEncodeChar;
    if s == "" {
      Empty(url.password, url.username);
      Empty(url.username, url.password);
    } else {
      var enc := PercentEncodeChar(Userinfo, s[0]);
      var rest := PercentEncode(s[1..], Userinfo);
      assert PercentEncode(s, Userinfo) == enc + rest;
      Assoc(url.password, enc, rest);
      Assoc(url.username, enc, rest);
      AddEncoded(
        if seen then url.(password := url.password + enc) else url.(username := url.username + enc), seen, s[1..]);
    }
  }

  lemma AddSplit(url: Url, s: string)
    requires url.username == "" && url.password == ""
    ensures AddCredentials(url, false, s) ==
      (url.(username := PercentEncode(UserPart(s), Userinfo), password := PercentEncode(PasswordPart(s), Userinfo)),
       ':' in s)
  {
    hide PercentEncode, AddCredentials;
    var user, pass := PercentEncode(UserPart(s), Userinfo), PercentEncode(PasswordPart(s), Userinfo);
    Empty(user, user);
    Empty(pass, pass);
    var i := IndexOf(s, ':');
    if i < 0 {
      AddEncoded(url, false, s);
      NothingEncoded(Userinfo);
    } else {
      CutAt(s, i);
      Assoc(s[..i], [':'], s[i + 1..]);
      AddAppend(url, false, s[..i], [':'] + s[i + 1..]);
      AddEncoded(url, false, s[..i]);
      var named := url.(username := user);
      ColonAdded(named, s[i + 1..]);
      AddEncoded(named, true, s[i + 1..]);
    }
  }

  lemma ColonAdded(url: Url, s: string)
    ensures AddCredentials(url, false, [':'] + s) == AddCredentials(url, true, s)
  {
    assert ([':'] + s)[1..] == s;
  }

  /** The user information read so far: what was added at the last "@", and the buffer since. */
  function SoFar(m: Machine, added: string): string {
    if m.atSignSeen then added + ("@" + m.buffer) else m.buffer
  }

  predicate Collects(m: Machine, start: Url, added: string) {
    && m.state == Authority
    && if m.atSignSeen then (m.url, m.passwordTokenSeen) == AddCredentials(start, false, added)
       else m.url == start && !m.passwordTokenSeen
  }

  /** What an "@" adds is the whole user information read so far. */
  lemma AtAdds(m: Machine, start: Url, added: string)
    requires Collects(m, start, added)
    ensures AddCredentials(m.url, m.passwordTokenSeen, if m.atSignSeen then "%40" + m.buffer else m.buffer) ==
      AddCredentials(start, false, SoFar(m, added))
  {
    if m.atSignSeen {
      hide AddCredentials;
      AtSignBack(m.url, m.passwordTokenSeen, m.buffer);
      AddAppend(start, false, added, "@" + m.buffer);
    }
  }

  /** The machine behind the "@" that ends `text`. */
  function Collected(m: Machine, start: Url, text: string, pointer: nat): Machine {
    var (url, seen) := AddCredentials(start, false, text);
    m.(url := url, passwordTokenSeen := seen, atSignSeen := true, buffer := "", pointer := pointer)
  }

  lemma AtStep(x: Context, run: Runner, m: Machine, start: Url, added: string, t: string)
    requires Executes(x, run) && Collects(m, start, added) && Reads(x, m, ['@'] + t)
    ensures
      var next := Collected(m, start, SoFar(m, added), m.pointer + 1);
      Reads(x, next, t) && run(m) == run(next)
  {
    hide AddCredentials;
    ReadsOne(x, m, '@', t);
    AtAdds(m, start, added);
    StepOnce(x, run, m, Collected(m, start, SoFar(m, added), m.pointer + 1));
  }

  /** A character that is not an "@" is kept for later. */
  lemma CharStep(x: Context, run: Runner, m: Machine, start: Url, added: string, c: char)
    requires Executes(x, run) && Collects(m, start, added) && Sane(x, m) && At(x, m.pointer) == Some(c)
    requires c != '@' && start.scheme == m.url.scheme && !EndsAuthority(start, Some(c))
    ensures
      var next := Advance(m, Authority).(buffer := m.buffer + [c]);
      Collects(next, start, added) && run(m) == run(next)
  {
    hide AddCredentials;
    StepOnce(x, run, m, Advance(m, Authority).(buffer := m.buffer + [c]));
  }

  lemma HeadAt(s: string, t: string)
    requires s != ""
    ensures s + t == [s[0]] + (s[1..] + t)
  {
  }

  /** Each step adds its character to what was read so far. */
  lemma NextSoFar(m: Machine, next: Machine, added: string)
    ensures next.atSignSeen && next.buffer == "" ==> SoFar(next, SoFar(m, added)) == SoFar(m, added) + ['@']
    ensures forall c :: next.atSignSeen == m.atSignSeen && next.buffer == m.buffer + [c] ==>
              SoFar(next, added) == SoFar(m, added) + [c]
  {
    forall c | next.atSignSeen == m.atSignSeen && next.buffer == m.buffer + [c]
      ensures SoFar(next, added) == SoFar(m, added) + [c]
    {
      Assoc("@", m.buffer, [c]);
      Assoc(added, "@" + m.buffer, [c]);
    }
  }

  lemma {:induction false} UserinfoScan(
    x: Context, run: Runner, m: Machine, start: Url, added: string, s: string, t: string)
    requires Executes(x, run) && Collects(m, start, added) && Reads(x, m, s + (['@'] + t))
    requires start.scheme == m.url.scheme && forall k :: 0 <= k < |s| ==> !EndsAuthority(start, Some(s[k]))
    ensures
      var after := Collected(m, start, SoFar(m, added) + s, m.pointer + |s| + 1);
      Reads(x, after, t) && run(m) == run(after)
    decreases |s|
  {
    hide AddCredentials, Run, EndsAuthority, Step, SoFar;
    if s == "" {
      Empty(SoFar(m, added), ['@'] + t);
      AtStep(x, run, m, start, added, t);
    } else {
      ReadsHead(x, m, s, ['@'] + t);
      Moved(SoFar(m, added), s);
      if s[0] == '@' {
        var rest := s[1..] + (['@'] + t);
        HeadAt(s, ['@'] + t);
        AtStep(x, run, m, start, added, rest);
        var next := Collected(m, start, SoFar(m, added), m.pointer + 1);
        AddKeepsScheme(start, false, SoFar(m, added));
        NextSoFar(m, next, added);
        UserinfoScan(x, run, next, start, SoFar(m, added), s[1..], t);
      } else {
        var next := Advance(m, Authority).(buffer := m.buffer + [s[0]]);
        CharStep(x, run, m, start, added, s[0]);
        NextSoFar(m, next, added);
        UserinfoScan(x, run, next, start, added, s[1..], t);
      }
    }
  }

  lemma {:induction false} AddKeepsScheme(url: Url, seen: bool, s: string)
    ensures AddCredentials(url, seen, s).0.scheme == url.scheme
    decreases |s|
  {
    if s != "" {
      if s[0] == ':' && !seen {
        AddKeepsScheme(url, true, s[1..]);
      } else {
        var enc := PercentEncodeChar(Userinfo, s[0]);
        AddKeepsScheme(
          if seen then url.(password := url.password + enc) else url.(username := url.username + enc), seen, s[1..]);
      }
    }
  }

  // Whole URLs

  /** Characters that do not end the authority of a special URL, and are not removed from the input. */
  predicate UserinfoChar(c: char) {
    c !in {'/', '\\', '?', '#', '\t', '\n', '\r'}
  }

  /** A record with the credentials `s` stands for. */
  function WithUserinfo(r: Url, s: string): Url {
    r.(username := PercentEncode(UserPart(s), Userinfo), password := PercentEncode(PasswordPart(s), Userinfo))
  }

  /** Host, port, path, query and fragment of a record. */
  function HostRest(n: Natives, r: Url): string
    requires r.host.Some? && r.path.Segments?
  {
    SerializeHost(n, r.host.value) + (PortText(r.port) + PathRest(r.path.list, r.query, r.fragment))
  }

  lemma UserinfoValid(r: Url, s: string)
    requires ListRecord(r) && IsSpecial(r)
    ensures ListRecord(WithUserinfo(r, s))
  {
    EncodedIsKept(UserPart(s), Userinfo);
    EncodedIsKept(PasswordPart(s), Userinfo);
  }

  lemma UserinfoRun(x: Context, run: Runner, n: Natives, r: Url, s: string)
    requires Executes(x, run) && Faithful(n) && ListRecord(r) && IsSpecial(r) && x.parseHost == HostParser(n)
    requires forall k :: 0 <= k < |s| ==> UserinfoChar(s[k])
    requires Reads(x, AtColon(r.scheme), [':'] + ("//" + (s + (['@'] + HostRest(n, r)))))
    ensures run(AtColon(r.scheme)) == Some(WithUserinfo(r, s))
  {
    hide AddCredentials, PercentEncode, UserPart, PasswordPart, Run;
    var rest := HostRest(n, r);
    FirstOf(s, rest);
    ColonSpecial(x, run, r.scheme, s + (['@'] + rest));
    var start := NEW_URL.(scheme := r.scheme);
    var m := START.(state := Authority, pointer := |Name(r.scheme)| + 3, url := start);
    UserinfoScan(x, run, m, start, "", s, rest);
    UserinfoEnd(x, run, n, m, r, s);
  }

  lemma FirstOf(s: string, rest: string)
    requires forall k :: 0 <= k < |s| ==> UserinfoChar(s[k])
    ensures First(s + (['@'] + rest)) != Some('/') && First(s + (['@'] + rest)) != Some('\\')
  {
    if s == "" {
      Empty("", ['@'] + rest);
    } else {
      assert (s + (['@'] + rest))[0] == s[0];
    }
  }

  /** Behind the "@" only host, port and path are still to be read. */
  lemma UserinfoEnd(x: Context, run: Runner, n: Natives, m: Machine, r: Url, s: string)
    requires Executes(x, run) && Faithful(n) && ListRecord(r) && IsSpecial(r) && x.parseHost == HostParser(n)
    requires m.state == Authority && m.buffer == "" && !m.atSignSeen && !m.insideBrackets && !m.passwordTokenSeen
    requires m.url == NEW_URL.(scheme := r.scheme)
    requires Reads(x, Collected(m, m.url, SoFar(m, "") + s, m.pointer + |s| + 1), HostRest(n, r))
    ensures run(Collected(m, m.url, SoFar(m, "") + s, m.pointer + |s| + 1)) == Some(WithUserinfo(r, s))
  {
    hide AddCredentials, PercentEncode, UserPart, PasswordPart, Run;
    Empty(s, s);
    AddSplit(m.url, s);
    UserinfoValid(r, s);
    HostPortFinish(x, run, n, Collected(m, m.url, s, m.pointer + |s| + 1), WithUserinfo(r, s));
  }

  lemma {:induction false} NoTabs(s: string)
    requires forall k :: 0 <= k < |s| ==> s[k] !in {'\t', '\n', '\r'}
    ensures RemoveTabsAndNewlines(s) == s
  {
    if s != "" {
      NoTabs(s[1..]);
    }
  }

  /** The text of a record with other user information in it. */
  function UserinfoText(n: Natives, r: Url, s: string): string
    requires r.host.Some? && r.path.Segments?
  {
    Name(r.scheme) + ([':'] + ("//" + (s + (['@'] + HostRest(n, r)))))
  }

  /** No tab or line end anywhere, no blank at the end. */
  predicate Tidy(s: string) {
    && (forall k :: 0 <= k < |s| ==> s[k] !in {'\t', '\n', '\r'})
    && (s != "" ==> s[|s| - 1] as nat > 0x20)
  }

  lemma TidyConcat(a: string, b: string)
    requires Tidy(b) && b != "" && forall k :: 0 <= k < |a| ==> a[k] !in {'\t', '\n', '\r'}
    ensures Tidy(a + b) && a + b != ""
  {
  }

  lemma UserinfoClean(n: Natives, r: Url, s: string)
    requires Faithful(n) && ListRecord(r) && IsSpecial(r) && forall k :: 0 <= k < |s| ==> UserinfoChar(s[k])
    ensures CodePoints(UserinfoText(n, r, s)) == UserinfoText(n, r, s)
  {
    hide TrimLeft, TrimRight, RemoveTabsAndNewlines, HostRest, Tidy;
    var rest := HostRest(n, r);
    InkedHostRest(n, r);
    AtSignTidy(rest);
    TidyConcat(s, ['@'] + rest);
    TidyConcat("//", s + (['@'] + rest));
    TidyConcat([':'], "//" + (s + (['@'] + rest)));
    SchemeTidy(Name(r.scheme), [':'] + ("//" + (s + (['@'] + rest))));
  }

  lemma AtSignTidy(rest: string)
    requires Inked(rest)
    ensures Tidy(['@'] + rest)
  {
  }

  lemma SchemeTidy(scheme: string, rest: string)
    requires SchemeText(scheme) && Tidy(rest) && rest != ""
    ensures CodePoints(scheme + rest) == scheme + rest
  {
    hide TrimLeft, TrimRight, RemoveTabsAndNewlines;
    TidyConcat(scheme, rest);
    NotTrimmed(scheme + rest);
    NoTabs(scheme + rest);
  }

  lemma NotTrimmed(t: string)
    requires t != "" && !Trimmed(t[0]) && !Trimmed(t[|t| - 1])
    ensures TrimRight(TrimLeft(t)) == t
  {
  }

  lemma PortInked(port: Option<nat>)
    ensures Inked(PortText(port))
  {
  }

  lemma InkedHostRest(n: Natives, r: Url)
    requires Faithful(n) && ListRecord(r)
    ensures Inked(HostRest(n, r))
  {
    hide Inked, TailText, SegmentsText, PortText;
    PortInked(r.port);
    InkedHost(n, r.scheme, r.host.value);
    InkedTail(r.scheme, r.query, r.fragment);
    InkedSegments(r.scheme, r.path.list);
    InkedConcat(SegmentsText(r.path.list), TailText(r.query, r.fragment));
    InkedConcat(PortText(r.port), PathRest(r.path.list, r.query, r.fragment));
    InkedConcat(SerializeHost(n, r.host.value), PortText(r.port) + PathRest(r.path.list, r.query, r.fragment));
  }

  /**
   * In a special URL any text in front of the last "@" of the authority becomes the credentials:
   * split at the first colon, encoded, and nothing else in the record changed.
   */
  lemma UserinfoParsed(n: Natives, r: Url, s: string, base: Option<Url>)
    requires Faithful(n) && ListRecord(r) && IsSpecial(r)
    requires forall k :: 0 <= k < |s| ==> UserinfoChar(s[k])
    ensures Parse(n, UserinfoText(n, r, s), base) == Some(WithUserinfo(r, s))
  {
    hide PercentEncode, UserPart, PasswordPart, Run, RemoveTabsAndNewlines, TrimLeft, TrimRight;
    UserinfoClean(n, r, s);
    var x := Context(HostParser(n), UserinfoText(n, r, s), base);
    RunExecutes(x);
    var t := "//" + (s + (['@'] + HostRest(n, r)));
    assert x.cp[0..] == x.cp;
    SchemeStartScan(x, Finisher(x), r.scheme, t);
    UserinfoRun(x, Finisher(x), n, r, s);
  }
}
