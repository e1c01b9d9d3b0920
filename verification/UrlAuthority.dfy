/**
 * What the parser does on a scheme and an authority as the serializer writes them, up to the state
 * that reads the path.
 */
module UrlAuthority {
  import opened Numerals
  import opened PercentCoding
  import opened UrlMachine
  import opened UrlRecord
  import opened UrlScan
  import opened Wrappers

  // Scheme

  lemma {:induction false} SchemeScan(x: Context, run: Runner, m: Machine, s: string, t: string)
    requires Executes(x, run) && Reads(x, m, s + t) && m.state == Scheme
    requires forall k :: 0 <= k < |s| ==> SchemeChar(s[k]) && Lower(s[k]) == s[k]
    ensures
      var after := m.(pointer := m.pointer + |s|, buffer := m.buffer + s);
      Reads(x, after, t) && run(m) == run(after)
    decreases |s|
  {
    if s == "" {
      Empty(m.buffer, t);
    } else {
      ReadsHead(x, m, s, t);
      var next := Advance(m, Scheme).(buffer := m.buffer + [s[0]]);
      StepOnce(x, run, m, next);
      SchemeScan(x, run, next, s[1..], t);
      Moved(m.buffer, s);
    }
  }

  /** The machine at the `:` behind the scheme. */
  function AtColon(scheme: Protocol): Machine {
    START.(state := Scheme, pointer := |Name(scheme)|, buffer := Name(scheme))
  }

  lemma SchemeStartScan(x: Context, run: Runner, scheme: Protocol, t: string)
    requires Executes(x, run) && ValidScheme(scheme) && Reads(x, START, Name(scheme) + ([':'] + t))
    ensures Reads(x, AtColon(scheme), [':'] + t) && run(START) == run(AtColon(scheme))
  {
    var s := Name(scheme);
    ReadsHead(x, START, s, [':'] + t);
    var next := Advance(START, Scheme).(buffer := [s[0]]);
    assert "" + [s[0]] == [s[0]];
    StepOnce(x, run, START, next);
    SchemeScan(x, run, next, s[1..], [':'] + t);
    assert [s[0]] + s[1..] == s;
  }

  lemma ColonStep(x: Context, run: Runner, scheme: Protocol, t: string)
    requires Executes(x, run) && ValidScheme(scheme) && Reads(x, AtColon(scheme), [':'] + t)
    ensures At(x, |Name(scheme)|) == Some(':')
    ensures
      var next := EndScheme(x, AtColon(scheme), scheme);
      run(AtColon(scheme)) == if Finished(x, next) then Some(next.url) else run(next)
    ensures x.cp[|Name(scheme)| + 1..] == t
  {
    ReadsOne(x, AtColon(scheme), ':', t);
    StepOnce(x, run, AtColon(scheme), EndScheme(x, AtColon(scheme), scheme));
  }

  // Credentials

  predicate AuthorityChar(url: Url, c: char) {
    c != '@' && !EndsAuthority(url, Some(c))
  }

  lemma {:induction false} AuthorityScan(x: Context, run: Runner, m: Machine, s: string, t: string)
    requires Executes(x, run) && Reads(x, m, s + t) && m.state == Authority
    requires forall k :: 0 <= k < |s| ==> AuthorityChar(m.url, s[k])
    ensures
      var after := m.(pointer := m.pointer + |s|, buffer := m.buffer + s);
      Reads(x, after, t) && run(m) == run(after)
    decreases |s|
  {
    if s == "" {
      Empty(m.buffer, t);
    } else {
      ReadsHead(x, m, s, t);
      var next := Advance(m, Authority).(buffer := m.buffer + [s[0]]);
      StepOnce(x, run, m, next);
      AuthorityScan(x, run, next, s[1..], t);
      Moved(m.buffer, s);
    }
  }

  /** Kept text without a `:` to act on is added to one component. */
  lemma {:induction false} AddKept(url: Url, seen: bool, s: string)
    requires AllKept(s, Userinfo)
    ensures AddCredentials(url, seen, s) ==
      (if seen then url.(password := url.password + s) else url.(username := url.username + s), seen)
    decreases |s|
  {
    if s == "" {
      Empty(url.password, url.username);
      Empty(url.username, url.password);
    } else {
      AddKept(
        if seen then url.(password := url.password + [s[0]]) else url.(username := url.username + [s[0]]),
        seen, s[1..]);
      Moved(url.password, s);
      Moved(url.username, s);
    }
  }

  lemma {:induction false} AddBoth(url: Url, user: string, pass: string)
    requires AllKept(user, Userinfo) && AllKept(pass, Userinfo)
    ensures AddCredentials(url, false, user + ([':'] + pass)) ==
      (url.(username := url.username + user, password := url.password + pass), true)
    decreases |user|
  {
    if user == "" {
      Empty(url.username, [':'] + pass);
      assert ([':'] + pass)[1..] == pass;
      AddKept(url, true, pass);
    } else {
      var s := user + ([':'] + pass);
      assert s[0] == user[0] && s[1..] == user[1..] + ([':'] + pass);
      AddBoth(url.(username := url.username + [user[0]]), user[1..], pass);
      Moved(url.username, user);
    }
  }

  /** User name and password as they are written, without the `@`. */
  function Userpass(user: string, pass: string): string {
    if pass == "" then user else user + ([':'] + pass)
  }

  lemma UserpassChars(url: Url, user: string, pass: string)
    requires AllKept(user, Userinfo) && AllKept(pass, Userinfo)
    ensures forall k :: 0 <= k < |Userpass(user, pass)| ==> AuthorityChar(url, Userpass(user, pass)[k])
  {
  }

  lemma AddUserpass(url: Url, user: string, pass: string)
    requires AllKept(user, Userinfo) && AllKept(pass, Userinfo) && url.username == "" && url.password == ""
    ensures AddCredentials(url, false, Userpass(user, pass)) ==
      (url.(username := user, password := pass), pass != "")
  {
    Empty(user, user);
    Empty(pass, pass);
    if pass == "" {
      AddKept(url, false, user);
    } else {
      AddBoth(url, user, pass);
    }
  }

  lemma AtSign(x: Context, run: Runner, m: Machine, user: string, pass: string, t: string)
    requires Executes(x, run) && m.state == Authority && !m.atSignSeen && !m.passwordTokenSeen
    requires m.buffer == Userpass(user, pass) && m.url.username == "" && m.url.password == ""
    requires Reads(x, m, ['@'] + t) && AllKept(user, Userinfo) && AllKept(pass, Userinfo)
    ensures
      var after := Advance(m, Authority).(
        buffer := "", atSignSeen := true, passwordTokenSeen := pass != "",
        url := m.url.(username := user, password := pass));
      Reads(x, after, t) && run(m) == run(after)
  {
    ReadsOne(x, m, '@', t);
    AddUserpass(m.url, user, pass);
    StepOnce(x, run, m, Advance(m, Authority).(
      buffer := "", atSignSeen := true, passwordTokenSeen := pass != "",
      url := m.url.(username := user, password := pass)));
  }

  lemma CredentialsScan(x: Context, run: Runner, m: Machine, user: string, pass: string, t: string)
    requires Executes(x, run) && m.state == Authority && m.buffer == "" && !m.atSignSeen && !m.passwordTokenSeen
    requires Reads(x, m, Userpass(user, pass) + (['@'] + t)) && m.url.username == "" && m.url.password == ""
    requires AllKept(user, Userinfo) && AllKept(pass, Userinfo)
    ensures
      var after := m.(
        pointer := m.pointer + |Userpass(user, pass)| + 1, atSignSeen := true, passwordTokenSeen := pass != "",
        url := m.url.(username := user, password := pass));
      Reads(x, after, t) && run(m) == run(after)
  {
    hide Userpass, AddCredentials, Run, AllKept;
    var s := Userpass(user, pass);
    UserpassChars(m.url, user, pass);
    AuthorityScan(x, run, m, s, ['@'] + t);
    Empty(s, s);
    AtSign(x, run, m.(pointer := m.pointer + |s|, buffer := s), user, pass, t);
  }

  /** The host and port are read twice: up to their end, then again from their start. */
  lemma AuthorityToHost(x: Context, run: Runner, m: Machine, s: string, t: string)
    requires Executes(x, run) && Reads(x, m, s + t) && m.state == Authority && m.buffer == ""
    requires forall k :: 0 <= k < |s| ==> AuthorityChar(m.url, s[k])
    requires EndsAuthority(m.url, First(t)) && First(t) != Some('@') && (m.atSignSeen ==> s != "")
    ensures Reads(x, Again(m, HostName), s + t) && run(m) == run(Again(m, HostName))
  {
    AuthorityScan(x, run, m, s, t);
    Empty(s, s);
    var at := m.(pointer := m.pointer + |s|, buffer := s);
    ReadsFirst(x, at, t);
    StepOnce(x, run, at, Again(m, HostName));
  }

  // Host

  predicate HostChar(url: Url, c: char) {
    c != ':' && c != '[' && c != ']' && !EndsAuthority(url, Some(c))
  }

  lemma {:induction false} HostScan(x: Context, run: Runner, m: Machine, s: string, t: string)
    requires Executes(x, run) && Reads(x, m, s + t) && m.state == HostName
    requires forall k :: 0 <= k < |s| ==> HostChar(m.url, s[k]) || (m.insideBrackets && s[k] == ':')
    ensures
      var after := m.(pointer := m.pointer + |s|, buffer := m.buffer + s);
      Reads(x, after, t) && run(m) == run(after)
    decreases |s|
  {
    if s == "" {
      Empty(m.buffer, t);
    } else {
      ReadsHead(x, m, s, t);
      var next := Advance(m, HostName).(buffer := m.buffer + [s[0]]);
      StepOnce(x, run, m, next);
      HostScan(x, run, next, s[1..], t);
      Moved(m.buffer, s);
    }
  }

  lemma BracketScan(x: Context, run: Runner, m: Machine, s: string, t: string)
    requires Executes(x, run) && m.state == HostName && m.buffer == "" && !m.insideBrackets && ColonHex(s)
    requires Reads(x, m, ['['] + (s + ([']'] + t)))
    ensures
      var after := m.(pointer := m.pointer + |s| + 2, buffer := ['['] + s + [']']);
      Reads(x, after, t) && run(m) == run(after)
  {
    ReadsOne(x, m, '[', s + ([']'] + t));
    assert "" + ['['] == ['['];
    var inside := Advance(m, HostName).(insideBrackets := true, buffer := ['[']);
    StepOnce(x, run, m, inside);
    HostScan(x, run, inside, s, [']'] + t);
    var at := inside.(pointer := inside.pointer + |s|, buffer := ['['] + s);
    ReadsOne(x, at, ']', t);
    StepOnce(x, run, at, Advance(at, HostName).(insideBrackets := false, buffer := ['['] + s + [']']));
  }

  lemma EndHost(x: Context, run: Runner, m: Machine, host: Host, t: string)
    requires Executes(x, run) && Reads(x, m, t) && m.state == HostName && EndsAuthority(m.url, First(t))
    requires x.parseHost(m.buffer, IsSpecial(m.url)) == Some(host) && (IsSpecial(m.url) ==> m.buffer != "")
    ensures
      var after := Again(m, PathStart).(url := m.url.(host := Some(host)), buffer := "");
      Reads(x, after, t) && run(m) == run(after)
  {
    ReadsFirst(x, m, t);
    StepOnce(x, run, m, Again(m, PathStart).(url := m.url.(host := Some(host)), buffer := ""));
  }

  lemma EndHostAtPort(x: Context, run: Runner, m: Machine, host: Host, t: string)
    requires Executes(x, run) && Reads(x, m, [':'] + t) && m.state == HostName && !m.insideBrackets && m.buffer != ""
    requires x.parseHost(m.buffer, IsSpecial(m.url)) == Some(host)
    ensures
      var after := Advance(m, PortNumber).(url := m.url.(host := Some(host)), buffer := "");
      Reads(x, after, t) && run(m) == run(after)
  {
    ReadsOne(x, m, ':', t);
    StepOnce(x, run, m, Advance(m, PortNumber).(url := m.url.(host := Some(host)), buffer := ""));
  }

  lemma {:induction false} PortScan(x: Context, run: Runner, m: Machine, s: string, t: string)
    requires Executes(x, run) && Reads(x, m, s + t) && m.state == PortNumber && AllDigits(s)
    ensures
      var after := m.(pointer := m.pointer + |s|, buffer := m.buffer + s);
      Reads(x, after, t) && run(m) == run(after)
    decreases |s|
  {
    if s == "" {
      Empty(m.buffer, t);
    } else {
      ReadsHead(x, m, s, t);
      var next := Advance(m, PortNumber).(buffer := m.buffer + [s[0]]);
      StepOnce(x, run, m, next);
      PortScan(x, run, next, s[1..], t);
      Moved(m.buffer, s);
    }
  }

  lemma EndPort(x: Context, run: Runner, m: Machine, port: nat, t: string)
    requires Executes(x, run) && m.state == PortNumber && m.buffer == Decimal(port) && Reads(x, m, t)
    requires EndsAuthority(m.url, First(t))
    requires port < 0x10000 && Some(port) != DefaultPort(m.url.scheme)
    ensures
      var after := Again(m, PathStart).(url := m.url.(port := Some(port)), buffer := "");
      Reads(x, after, t) && run(m) == run(after)
  {
    ReadsFirst(x, m, t);
    DecimalValueOfDecimal(port);
    var c := First(t);
    assert !(c.Some? && IsDigit(c.value));
    StepOnce(x, run, m, Again(m, PathStart).(url := m.url.(port := Some(port)), buffer := ""));
  }

  // File host

  predicate FileHostChar(c: char) {
    c != '/' && c != '\\' && c != '?' && c != '#'
  }

  lemma {:induction false} FileHostScan(x: Context, run: Runner, m: Machine, s: string, t: string)
    requires Executes(x, run) && Reads(x, m, s + t) && m.state == FileHost
    requires forall k :: 0 <= k < |s| ==> FileHostChar(s[k])
    ensures
      var after := m.(pointer := m.pointer + |s|, buffer := m.buffer + s);
      Reads(x, after, t) && run(m) == run(after)
    decreases |s|
  {
    if s == "" {
      Empty(m.buffer, t);
    } else {
      ReadsHead(x, m, s, t);
      var next := Advance(m, FileHost).(buffer := m.buffer + [s[0]]);
      StepOnce(x, run, m, next);
      FileHostScan(x, run, next, s[1..], t);
      Moved(m.buffer, s);
    }
  }

  /** `s` is the text of the host of a `file` record whose path begins behind it. */
  predicate FileHostText(x: Context, s: string, host: Host) {
    if s == "" then host == Domain("")
    else x.parseHost(s, true) == Some(host) && host != Domain("localhost") && !IsDriveLetter(s)
  }

  lemma EndFileHost(x: Context, run: Runner, m: Machine, s: string, host: Host, t: string)
    requires Executes(x, run) && m.state == FileHost && m.buffer == "" && m.url.scheme == FileUrl
    requires Reads(x, m, s + (['/'] + t)) && FileHostText(x, s, host)
    requires forall k :: 0 <= k < |s| ==> FileHostChar(s[k])
    ensures
      var after := m.(state := PathStart, pointer := m.pointer + |s|, url := m.url.(host := Some(host)));
      Reads(x, after, ['/'] + t) && run(m) == run(after)
  {
    FileHostScan(x, run, m, s, ['/'] + t);
    Empty(s, s);
    var at := m.(pointer := m.pointer + |s|, buffer := s);
    ReadsOne(x, at, '/', t);
    StepOnce(x, run, at, m.(state := PathStart, pointer := m.pointer + |s|, url := m.url.(host := Some(host))));
  }
}
