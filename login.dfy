/**
 * The login orchestrator (`CreateSteamSession`,
 * app/package/steam_session/manager_session.py): eight de-duplicating
 * callback lists, the parser for the `Set-Cookie` lines a Node helper
 * prints, the dispatch of the helper's stdout lines onto an account, the
 * `already_work` busy flag, and how the helper's end (exit code, timeout,
 * launch failure) becomes callback notifications.
 *
 * The helper process is not run: whether its script exists, how it ends and
 * the lines it prints are parameters.  Each callback call, made on its own
 * thread in the source, is recorded in order.
 */
module Login {
  import opened Wrappers
  import opened Text
  import opened SteamAccount
  import EventBus

  // ----- callback lists -----

  /** The eight callback lists. */
  datatype SessionEvent =
    | Logout | SessionExpired | Authenticated | AuthenticatedError
    | QrCodeReady | QrCodeTimeout | ConfirmationDevice | ConfirmationEmail

  /** A function passed to `register_callback_*`, told apart by identity; `callable` is `callable(func)`. */
  datatype Callback = Callback(id: nat, callable: bool)

  /** The messages handed to the authenticated-error callbacks. */
  datatype ErrorText =
    | ScriptNotFound(script: string)  // the helper script is missing
    | NodeNotInstalled                // `node` could not be started
    | LoginTimeout                    // the password or refresh helper ran past 120 s
    | AuthenticationFailed            // the password helper exited nonzero
    | LoginFailed                     // the refresh helper exited nonzero
    | Exception(text: string)         // `str(e)` of any other exception

  /** What a callback thread is started with. */
  datatype Payload = NoArgs | AccountArg(account: Account) | Message(error: ErrorText) | QrImage(url: string)

  /** One notification: an event and its argument. */
  datatype Notice = Notice(event: SessionEvent, payload: Payload)

  /** One `threading.Thread(target=callback, args=...).start()`. */
  datatype Started = Started(callback: Callback, payload: Payload)

  /** One thread per callback of the list, in list order. */
  function Spawns(cbs: seq<Callback>, p: Payload): (r: seq<Started>)
    ensures |r| == |cbs|
    ensures forall i :: 0 <= i < |cbs| ==> r[i] == Started(cbs[i], p)
  {
    if cbs == [] then [] else Spawns(cbs[..|cbs| - 1], p) + [Started(cbs[|cbs| - 1], p)]
  }

  /** The threads started for a sequence of notifications, one notification after the other. */
  function Deliver(lists: map<SessionEvent, seq<Callback>>, ns: seq<Notice>): seq<Started>
  {
    if ns == [] then []
    else
      var n := ns[|ns| - 1];
      Deliver(lists, ns[..|ns| - 1]) + (if n.event in lists then Spawns(lists[n.event], n.payload) else [])
  }

  lemma SpawnsNext(cbs: seq<Callback>, p: Payload, i: nat)
    requires i < |cbs|
    ensures Spawns(cbs[..i + 1], p) == Spawns(cbs[..i], p) + [Started(cbs[i], p)]
  {
    assert cbs[..i + 1][..i] == cbs[..i];
  }

  lemma DeliverOne(lists: map<SessionEvent, seq<Callback>>, n: Notice)
    ensures Deliver(lists, [n]) == if n.event in lists then Spawns(lists[n.event], n.payload) else []
  {
    assert [n][..0] == [];
  }

  /** Delivering two runs of notifications is delivering one, then the other. */
  lemma {:induction false} DeliverAppend(lists: map<SessionEvent, seq<Callback>>, a: seq<Notice>, b: seq<Notice>)
    ensures Deliver(lists, a + b) == Deliver(lists, a) + Deliver(lists, b)
    decreases |b|
  {
    if b == [] {
      assert a + b == a;
    } else {
      var n := b[|b| - 1];
      assert (a + b)[..|a + b| - 1] == a + b[..|b| - 1];
      DeliverAppend(lists, a, b[..|b| - 1]);
    }
  }

  /** Threads already started for `ns`, followed by those for `more`, are those for `ns + more`. */
  lemma DeliverMore(lists: map<SessionEvent, seq<Callback>>, s0: seq<Started>, ns: seq<Notice>, more: seq<Notice>,
                    before: seq<Started>, after: seq<Started>)
    requires before == s0 + Deliver(lists, ns) && after == before + Deliver(lists, more)
    ensures after == s0 + Deliver(lists, ns + more)
  {
    DeliverAppend(lists, ns, more);
  }

  /** No callback is in a list twice, and every one is callable. */
  predicate Clean(cbs: seq<Callback>)
  {
    (forall i, j :: 0 <= i < j < |cbs| ==> cbs[i] != cbs[j]) && (forall i :: 0 <= i < |cbs| ==> cbs[i].callable)
  }

  /** The list after `register_callback_*`: unchanged for a non-callable or a known function, else appended. */
  function RegisteredIn(cbs: seq<Callback>, f: Callback): (r: seq<Callback>)
    ensures Clean(cbs) ==> Clean(r)
    ensures f.callable ==> f in r
    ensures forall g :: g in cbs ==> g in r
  {
    if !f.callable || f in cbs then cbs else cbs + [f]
  }

  /** The list after `unregister_callback_*`: a callable function is removed if present. */
  function UnregisteredIn(cbs: seq<Callback>, f: Callback): (r: seq<Callback>)
    ensures !f.callable || f !in cbs ==> r == cbs
    ensures f.callable && f in cbs ==> |r| == |cbs| - 1
  {
    if !f.callable then cbs else EventBus.RemoveFirst(cbs, f)
  }

  /** In a clean list `list.remove` takes out the only copy and keeps the list clean. */
  lemma {:induction false} UnregisterClean(cbs: seq<Callback>, f: Callback)
    requires Clean(cbs)
    ensures var r := UnregisteredIn(cbs, f);
      Clean(r) && (f.callable ==> f !in r) && forall g :: g != f ==> (g in r <==> g in cbs)
  {
    if f.callable && cbs != [] {
      var rest := cbs[1..];
      assert Clean(rest);
      UnregisterClean(rest, f);
      if cbs[0] != f {
        var r := EventBus.RemoveFirst(cbs, f);
        assert r == [cbs[0]] + EventBus.RemoveFirst(rest, f);
        assert cbs[0] !in rest;
      } else {
        assert f !in rest;
      }
    }
  }

  /** Registering a new callable function and unregistering it again restores the list. */
  lemma RegisterUnregister(cbs: seq<Callback>, f: Callback)
    requires Clean(cbs) && f.callable && f !in cbs
    ensures UnregisteredIn(RegisteredIn(cbs, f), f) == cbs
  {
    EventBus.RemoveAppended(cbs, f);
  }

  /** Registering twice is registering once. */
  lemma RegisterIdempotent(cbs: seq<Callback>, f: Callback)
    ensures RegisteredIn(RegisteredIn(cbs, f), f) == RegisteredIn(cbs, f)
  {
  }

  // ----- the `Set-Cookie` line parser -----

  /** One `; `-separated attribute: its lower-cased key and its value, or `True` without `=`. */
  function Attribute(attr: string): (r: (string, AttrValue))
    ensures !Contains(attr, "=") ==> r == (Lower(attr), Flag)
    ensures Contains(attr, "=") ==> r.1.Str? && attr == SplitFirst(attr, "=").value.0 + "=" + r.1.s
  {
    match SplitFirst(attr, "=")
    case None => (Lower(attr), Flag)
    case Some((key, val)) => (Lower(key), Str(val))
  }

  /** The attributes dictionary: later attributes overwrite earlier ones with the same key. */
  function Attributes(attrs: seq<string>): map<string, AttrValue>
  {
    if attrs == [] then map[]
    else
      var a := Attribute(attrs[|attrs| - 1]);
      Attributes(attrs[..|attrs| - 1])[a.0 := a.1]
  }

  /** `dict.get(key, default)`. */
  function Get(m: map<string, AttrValue>, key: string, default: AttrValue): AttrValue
  {
    if key in m then m[key] else default
  }

  /** `__parse_cookie_line` as a value: `None` when the first part has no `=`. */
  function CookieOf(line: string): (r: Option<Cookie>)
    ensures r.None? <==> !Contains(Split(line, "; ")[0], "=")
  {
    var parts := Split(line, "; ");
    match SplitFirst(parts[0], "=")
    case None => None
    case Some((name, value)) =>
      var attrs := Attributes(parts[1..]);
      Some(Cookie(name, value, Get(attrs, "domain", Str("")), Get(attrs, "path", Str("/"))))
  }

  /** `__parse_cookie_line`: the attribute dictionary is built in a loop over the parts after the first. */
  method ParseCookieLine(line: string) returns (cookie: Option<Cookie>)
    ensures cookie == CookieOf(line)
  {
    var parts := Split(line, "; ");
    var main := parts[0];
    if !Contains(main, "=") {
      return None;
    }
    var nameValue := SplitFirst(main, "=").value;
    var attributes: map<string, AttrValue> := map[];
    var rest := parts[1..];
    var i := 0;
    while i < |rest|
      invariant 0 <= i <= |rest|
      invariant attributes == Attributes(rest[..i])
    {
      assert rest[..i + 1][..i] == rest[..i];
      var attr := rest[i];
      if Contains(attr, "=") {
        var kv := SplitFirst(attr, "=").value;
        attributes := attributes[Lower(kv.0) := Str(kv.1)];
      } else {
        attributes := attributes[Lower(attr) := Flag];
      }
      i := i + 1;
    }
    assert rest[..i] == rest;
    var domain := if "domain" in attributes then attributes["domain"] else Str("");
    var path := if "path" in attributes then attributes["path"] else Str("/");
    cookie := Some(Cookie(nameValue.0, nameValue.1, domain, path));
  }

  /** `a=b` splits at its first `=` into `a` and `b` when `a` has no `=`. */
  lemma SplitAtEquals(a: string, b: string)
    requires '=' !in a
    ensures SplitFirst(a + "=" + b, "=") == Some((a, b))
  {
    IndexOfAfterPrefix(a, "=", b);
    var s := a + "=" + b;
    assert s[..|a|] == a && s[|a| + 1..] == b;
  }

  /** A cookie line with a domain and a path splits into its three parts. */
  lemma SplitCookieLine(first: string, domain: string, path: string)
    requires ';' !in first && ';' !in domain && ';' !in path
    ensures Split(first + "; Domain=" + domain + "; Path=" + path, "; ") == [first, "Domain=" + domain, "Path=" + path]
  {
    var parts := [first, "Domain=" + domain, "Path=" + path];
    assert parts[1..][1..] == ["Path=" + path];
    assert Join(parts[1..], "; ") == parts[1] + "; " + parts[2];
    assert Join(parts, "; ") == first + "; Domain=" + domain + "; Path=" + path;
    SplitJoin(parts, "; ");
  }

  /** `Domain=d; Path=p` gives the lower-cased keys `domain` and `path`. */
  /** A word whose letters lower-case one by one into `w`. */
  lemma LowerWord(u: string, w: string)
    requires |u| == |w| && forall i :: 0 <= i < |u| ==> LowerChar(u[i]) == w[i]
    ensures Lower(u) == w
  {
  }

  lemma DomainAttribute(domain: string)
    ensures Attribute("Domain=" + domain) == ("domain", Str(domain))
  {
    assert "Domain=" + domain == "Domain" + "=" + domain;
    SplitAtEquals("Domain", domain);
    LowerWord("Domain", "domain");
  }

  lemma PathAttribute(path: string)
    ensures Attribute("Path=" + path) == ("path", Str(path))
  {
    assert "Path=" + path == "Path" + "=" + path;
    SplitAtEquals("Path", path);
    LowerWord("Path", "path");
  }

  lemma DomainAndPath(domain: string, path: string)
    ensures Attributes(["Domain=" + domain, "Path=" + path]) == map["domain" := Str(domain), "path" := Str(path)]
  {
    var attrs := ["Domain=" + domain, "Path=" + path];
    DomainAttribute(domain);
    PathAttribute(path);
    assert Attributes(attrs[..1]) == map["domain" := Str(domain)] by {
      assert attrs[..1][..0] == [];
      assert attrs[..1][0] == attrs[0];
    }
    assert attrs[..|attrs| - 1] == attrs[..1];
  }



  /** The line a helper prints for a session cookie parses back into its name, value, domain and path. */
  lemma CookieRoundTrip(name: string, value: string, domain: string, path: string)
    requires '=' !in name && ';' !in name && ';' !in value && ';' !in domain && ';' !in path
    ensures CookieOf(name + "=" + value + "; Domain=" + domain + "; Path=" + path)
      == Some(Cookie(name, value, Str(domain), Str(path)))
  {
    var first := name + "=" + value;
    assert ';' !in first;
    SplitCookieLine(first, domain, path);
    SplitAtEquals(name, value);
    DomainAndPath(domain, path);
    assert [first, "Domain=" + domain, "Path=" + path][1..] == ["Domain=" + domain, "Path=" + path];
  }

  /** Without attributes the domain is empty and the path is `/`. */
  lemma CookieDefaults(name: string, value: string)
    requires '=' !in name && ';' !in name && ';' !in value
    ensures CookieOf(name + "=" + value) == Some(Cookie(name, value, Str(""), Str("/")))
  {
    var line := name + "=" + value;
    assert ';' !in line by {
      assert forall k :: 0 <= k < |line| ==> line[k] in name || line[k] == '=' || line[k] in value;
    }
    NotContains(line, "; ");
    SplitAtEquals(name, value);
  }

  // ----- the stdout dispatch -----

  /** The three helpers: QR code, login and password, refresh token. */
  datatype Flow = QrFlow | PasswordFlow | RefreshFlow

  /** Which branch of `read_stdout` a stripped, non-empty line takes. */
  datatype Action = ShowQr | SetName | SetSteamId | SetToken | AddCookie | AskDevice | AskEmail | Skip

  /** The first branch of the flow's `if`/`elif` chain that matches the line. */
  function Dispatch(flow: Flow, line: string): Action
  {
    if flow == QrFlow && StartsWith(line, "http") then ShowQr
    else if flow != RefreshFlow && StartsWith(line, "accountName") then SetName
    else if StartsWith(line, "steamID") then SetSteamId
    else if StartsWith(line, "refreshToken") then SetToken
    else if Contains(line, "Domain=") then AddCookie
    else if flow == PasswordFlow && Contains(line, "DeviceConfirmation") then AskDevice
    else if flow == PasswordFlow && Contains(line, "EmailConfirmation") then AskEmail
    else Skip
  }

  /** Key lines win over cookie lines: a line that starts with a key is never parsed as a cookie. */
  lemma KeyBeforeCookie(flow: Flow, line: string)
    requires StartsWith(line, "steamID") || StartsWith(line, "refreshToken")
    ensures Dispatch(flow, line) in {SetSteamId, SetToken, ShowQr, SetName}
    ensures !StartsWith(line, "http") && !StartsWith(line, "accountName") ==>
      Dispatch(flow, line) == (if StartsWith(line, "steamID") then SetSteamId else SetToken)
  {
  }

  /** The QR and password helpers treat every line alike except the URL and the confirmation requests. */
  lemma QrAgreesWithPassword(line: string)
    requires !StartsWith(line, "http")
    requires Dispatch(PasswordFlow, line) !in {AskDevice, AskEmail}
    ensures Dispatch(QrFlow, line) == Dispatch(PasswordFlow, line)
  {
  }

  /** The refresh helper treats key and cookie lines as the password one does, and ignores the rest. */
  lemma RefreshAgreesWithPassword(line: string)
    ensures Dispatch(RefreshFlow, line) in {SetSteamId, SetToken, AddCookie, Skip}
    ensures Dispatch(PasswordFlow, line) in {SetSteamId, SetToken, AddCookie} ==>
      Dispatch(RefreshFlow, line) == Dispatch(PasswordFlow, line)
  {
  }

  /** `line.split("=")[1].strip()`: `None` when the line has no `=` (the `IndexError` that ends the reader). */
  function KeyValue(line: string): (r: Option<string>)
    ensures r.None? <==> !Contains(line, "=")
  {
    var parts := Split(line, "=");
    if |parts| < 2 then
      assert parts == [line];
      None
    else Some(Strip(parts[1]))
  }

  /** The value stops at the second `=`: `key=v` and `key=v=w` both give `v`, stripped. */
  lemma KeyValueTruncates(key: string, v: string, rest: string)
    requires '=' !in key && '=' !in v
    requires rest == [] || rest[0] == '='
    ensures KeyValue(key + "=" + v + rest) == Some(Strip(v))
  {
    var tail := v + rest;
    var s := key + "=" + tail;
    assert key + "=" + v + rest == s;
    assert Split(s, "=") == [key] + Split(tail, "=") by {
      assert "="[0] == '=';
      SplitAfterPrefix(key, "=", tail);
    }
    assert Split(tail, "=")[0] == v by {
      assert "="[0] == '=';
      if rest == [] {
        assert tail == v;
        SplitNone(v, "=");
      } else {
        assert tail == v + "=" + rest[1..];
        SplitAfterPrefix(v, "=", rest[1..]);
      }
    }
  }



  // ----- the reader thread -----

  /** What `read_stdout` has done so far: the account fields it sets, the cookies, the notifications, and whether it died. */
  datatype Reader = Reader(
    name: Option<string>,
    steamId: Option<string>,
    refreshToken: Option<string>,
    cookies: seq<Cookie>,
    notices: seq<Notice>,
    stopped: bool)

  /** A key line's value, or the reader stopped by the `IndexError`. */
  function SetKey(st: Reader, value: Option<string>, a: Action): Reader
    requires a in {SetName, SetSteamId, SetToken}
  {
    match value
    case None => st.(stopped := true)
    case Some(_) =>
      if a == SetName then st.(name := value)
      else if a == SetSteamId then st.(steamId := value)
      else st.(refreshToken := value)
  }

  /** What a stripped, non-empty line does to the reader, by the branch it takes. */
  function Act(st: Reader, line: string, a: Action): Reader
  {
    match a
    case ShowQr => st.(notices := st.notices + [Notice(QrCodeReady, QrImage(line))])
    case SetName => SetKey(st, KeyValue(line), SetName)
    case SetSteamId => SetKey(st, KeyValue(line), SetSteamId)
    case SetToken => SetKey(st, KeyValue(line), SetToken)
    case AddCookie =>
      (match CookieOf(line)
       case None => st.(stopped := true)
       case Some(c) => st.(cookies := st.cookies + [c]))
    case AskDevice => st.(notices := st.notices + [Notice(ConfirmationDevice, NoArgs)])
    case AskEmail => st.(notices := st.notices + [Notice(ConfirmationEmail, NoArgs)])
    case Skip => st
  }


  /** One line of helper output, as `read_stdout` handles it; a cookie line that does not parse ends the reader. */
  function Step(flow: Flow, st: Reader, raw: string): (r: Reader)
    ensures st.stopped ==> r == st
  {
    var line := Strip(raw);
    if st.stopped || line == "" then st else Act(st, line, Dispatch(flow, line))
  }

  /** A line the reader skips when stripped empty, else handles by its branch. */
  lemma StepByAction(flow: Flow, st: Reader, raw: string, line: string, a: Action)
    requires !st.stopped && line == Strip(raw) && a == (if line == "" then Skip else Dispatch(flow, line))
    ensures Step(flow, st, raw) == Act(st, line, a)
  {
  }

  /** All the lines, in order. */
  function Replay(flow: Flow, st: Reader, lines: seq<string>): Reader
  {
    if lines == [] then st else Step(flow, Replay(flow, st, lines[..|lines| - 1]), lines[|lines| - 1])
  }

  /** Once the reader has died, later lines change nothing. */
  lemma {:induction false} ReplayAfterStop(flow: Flow, st: Reader, a: seq<string>, b: seq<string>)
    requires Replay(flow, st, a).stopped
    ensures Replay(flow, st, a + b) == Replay(flow, st, a)
    decreases |b|
  {
    if b == [] {
      assert a + b == a;
    } else {
      assert (a + b)[..|a + b| - 1] == a + b[..|b| - 1];
      ReplayAfterStop(flow, st, a, b[..|b| - 1]);
    }
  }

  lemma ReplayNext(flow: Flow, st: Reader, lines: seq<string>, i: nat)
    requires i < |lines|
    ensures Replay(flow, st, lines[..i + 1]) == Step(flow, Replay(flow, st, lines[..i]), lines[i])
  {
    assert lines[..i + 1][..i] == lines[..i];
  }

  /** When the reader stops early, or reaches the end, it has read all it ever will. */
  lemma ReplayRest(flow: Flow, st: Reader, lines: seq<string>, i: nat)
    requires i <= |lines| && (i == |lines| || Replay(flow, st, lines[..i]).stopped)
    ensures Replay(flow, st, lines) == Replay(flow, st, lines[..i])
  {
    if i < |lines| {
      var done, later := lines[..i], lines[i..];
      assert done + later == lines;
      ReplayAfterStop(flow, st, done, later);
      SameLines(flow, st, done + later, lines);
    } else {
      assert lines[..i] == lines;
      SameLines(flow, st, lines[..i], lines);
    }
  }

  lemma SameLines(flow: Flow, st: Reader, a: seq<string>, b: seq<string>)
    requires a == b
    ensures Replay(flow, st, a) == Replay(flow, st, b)
  {
  }

  /** The events the reader itself raises. */
  predicate ReaderEvent(e: SessionEvent)
  {
    e in {QrCodeReady, ConfirmationDevice, ConfirmationEmail}
  }

  /**
   * What the reader may do between two states: add cookies and QR-ready or
   * confirmation notices (no QR-ready outside the QR helper); the refresh
   * helper's reader never touches the account name and raises nothing.
   */
  predicate Extends(flow: Flow, st: Reader, r: Reader)
  {
    |r.notices| >= |st.notices| && r.notices[..|st.notices|] == st.notices
    && (forall i :: |st.notices| <= i < |r.notices| ==>
          ReaderEvent(r.notices[i].event) && (flow != QrFlow ==> r.notices[i].event != QrCodeReady))
    && |r.cookies| >= |st.cookies| && r.cookies[..|st.cookies|] == st.cookies
    && (flow == RefreshFlow ==> r.name == st.name && r.notices == st.notices)
  }

  /** A step that adds at most a cookie. */
  lemma ExtendsQuietly(flow: Flow, st: Reader, r: Reader)
    requires r.notices == st.notices && (r.cookies == st.cookies || exists c :: r.cookies == st.cookies + [c])
    requires flow == RefreshFlow ==> r.name == st.name
    ensures Extends(flow, st, r)
  {
    assert r.notices[..|st.notices|] == st.notices;
    assert r.cookies[..|st.cookies|] == st.cookies;
  }

  /** A step that adds one notice the reader may raise. */
  lemma ExtendsByNotice(flow: Flow, st: Reader, n: Notice)
    requires ReaderEvent(n.event) && flow != RefreshFlow && (flow != QrFlow ==> n.event != QrCodeReady)
    ensures Extends(flow, st, st.(notices := st.notices + [n]))
  {
    var r := st.(notices := st.notices + [n]);
    assert r.notices[..|st.notices|] == st.notices;
    assert r.cookies[..|st.cookies|] == st.cookies;
  }

  /** What one branch may do, given the branches the flow can reach. */
  lemma ActExtends(flow: Flow, st: Reader, line: string, a: Action)
    requires a == ShowQr ==> flow == QrFlow
    requires flow == RefreshFlow ==> a in {SetSteamId, SetToken, AddCookie, Skip}
    ensures Extends(flow, st, Act(st, line, a))
  {
    var r := Act(st, line, a);
    match a
    case ShowQr => ExtendsByNotice(flow, st, Notice(QrCodeReady, QrImage(line)));
    case AskDevice => ExtendsByNotice(flow, st, Notice(ConfirmationDevice, NoArgs));
    case AskEmail => ExtendsByNotice(flow, st, Notice(ConfirmationEmail, NoArgs));
    case AddCookie =>
      match CookieOf(line) {
        case None => ExtendsQuietly(flow, st, r);
        case Some(c) =>
          assert r.cookies == st.cookies + [c];
          ExtendsQuietly(flow, st, r);
      }
    case SetName => ExtendsQuietly(flow, st, r);
    case SetSteamId => ExtendsQuietly(flow, st, r);
    case SetToken => ExtendsQuietly(flow, st, r);
    case Skip => ExtendsQuietly(flow, st, r);
  }

  lemma StepExtends(flow: Flow, st: Reader, raw: string)
    ensures Extends(flow, st, Step(flow, st, raw))
  {
    var line := Strip(raw);
    if st.stopped || line == "" {
      ExtendsQuietly(flow, st, st);
    } else {
      RefreshAgreesWithPassword(line);
      ActExtends(flow, st, line, Dispatch(flow, line));
    }
  }


  lemma ExtendsTrans(flow: Flow, a: Reader, b: Reader, c: Reader)
    requires Extends(flow, a, b) && Extends(flow, b, c)
    ensures Extends(flow, a, c)
  {
    assert c.notices[..|b.notices|][..|a.notices|] == c.notices[..|a.notices|];
    assert c.cookies[..|b.cookies|][..|a.cookies|] == c.cookies[..|a.cookies|];
    forall i | |a.notices| <= i < |c.notices|
      ensures ReaderEvent(c.notices[i].event) && (flow != QrFlow ==> c.notices[i].event != QrCodeReady)
    {
      if i < |b.notices| {
        assert c.notices[i] == c.notices[..|b.notices|][i];
      }
    }
  }

  /** Whatever the lines, the whole run only does what a single line may do. */
  lemma {:induction false} ReplayShape(flow: Flow, st: Reader, lines: seq<string>)
    ensures Extends(flow, st, Replay(flow, st, lines))
    decreases |lines|
  {
    if lines != [] {
      var before := Replay(flow, st, lines[..|lines| - 1]);
      ReplayShape(flow, st, lines[..|lines| - 1]);
      StepExtends(flow, before, lines[|lines| - 1]);
      ExtendsTrans(flow, st, before, Replay(flow, st, lines));
    } else {
      assert st.notices[..|st.notices|] == st.notices;
      assert st.cookies[..|st.cookies|] == st.cookies;
    }
  }

  /** The reader's view of an account before the helper prints anything. */
  function ReaderStart(a: Account): Reader
    reads a, a.session
  {
    Reader(a.accountName, a.steamId, a.refreshToken, a.session.cookies, [], false)
  }

  // ----- how the helper ends -----

  /** How the helper process ended, as far as the orchestrator can tell. */
  datatype ProcessEnd =
    | NodeMissing           // `FileNotFoundError` from `Popen`
    | Raised(text: string)  // any other exception before the wait loop
    | TimedOut              // still running after 120 s; it is terminated
    | Exited(code: int)     // the return code

  function ScriptName(flow: Flow): string
  {
    match flow
    case QrFlow => "session_qrcode.js"
    case PasswordFlow => "session_login_password.js"
    case RefreshFlow => "session_refresh_token.js"
  }

  function ErrorNotice(e: ErrorText): Notice
  {
    Notice(AuthenticatedError, Message(e))
  }

  /** Whether the helper got as far as running with its reader. */
  predicate Ran(scriptFound: bool, end: ProcessEnd)
  {
    scriptFound && (end.TimedOut? || end.Exited?)
  }

  /** The notification when the helper never ran: missing script, no `node`, or another launch error. */
  function EarlyOutcome(flow: Flow, scriptFound: bool, end: ProcessEnd): (n: Notice)
    requires !Ran(scriptFound, end)
    ensures n.event == AuthenticatedError
  {
    if !scriptFound then ErrorNotice(ScriptNotFound(ScriptName(flow)))
    else if end.NodeMissing? then ErrorNotice(NodeNotInstalled)
    else ErrorNotice(Exception(end.text))
  }

  /** The notification once the helper has ended or timed out. */
  function RunOutcome(flow: Flow, end: ProcessEnd, account: Account): (n: Notice)
    requires end.TimedOut? || end.Exited?
    ensures n.event == Authenticated <==> end == Exited(0)
    ensures n.event == Authenticated ==> n.payload == AccountArg(account)
    ensures flow == QrFlow && end != Exited(0) ==> n == Notice(QrCodeTimeout, NoArgs)
    ensures flow != QrFlow && end != Exited(0) ==> n.event == AuthenticatedError
  {
    match end
    case TimedOut => if flow == QrFlow then Notice(QrCodeTimeout, NoArgs) else ErrorNotice(LoginTimeout)
    case Exited(code) =>
      if code == 0 then Notice(Authenticated, AccountArg(account))
      else if flow == QrFlow then Notice(QrCodeTimeout, NoArgs)
      else if flow == PasswordFlow then ErrorNotice(AuthenticationFailed)
      else ErrorNotice(LoginFailed)
  }

  /** `str(e)` of the `AttributeError` raised by a call to a method `Account` does not define. */
  const MissingMethodText: string := "'Account' object has no attribute 'register_callback_session_expired'"

  /**
   * The notifications of a flow as the code is written: right after the
   * helper starts, each flow calls `account.register_callback_session_expired`,
   * which `Account` does not define.  The QR and password flows raise before
   * their reader starts; the refresh flow raises after notifying success.
   */
  function OutcomeAsWritten(flow: Flow, scriptFound: bool, end: ProcessEnd, reader: seq<Notice>, account: Account): seq<Notice>
  {
    if !Ran(scriptFound, end) then [EarlyOutcome(flow, scriptFound, end)]
    else if flow != RefreshFlow then [ErrorNotice(Exception(MissingMethodText))]
    else if end == Exited(0) then reader + [RunOutcome(flow, end, account), ErrorNotice(Exception(MissingMethodText))]
    else reader + [RunOutcome(flow, end, account)]
  }

  /** The notifications of a flow, the session-expired relay left out. */
  function Outcome(flow: Flow, scriptFound: bool, end: ProcessEnd, reader: seq<Notice>, account: Account): (r: seq<Notice>)
    ensures |r| >= 1 && r[..|r| - 1] == (if Ran(scriptFound, end) then reader else [])
    ensures r[|r| - 1].event == Authenticated <==> scriptFound && end == Exited(0)
    ensures flow == QrFlow && Ran(scriptFound, end) && end != Exited(0) ==>
      r[|r| - 1] == Notice(QrCodeTimeout, NoArgs)
    ensures !(flow == QrFlow && Ran(scriptFound, end)) && !(scriptFound && end == Exited(0)) ==>
      r[|r| - 1].event == AuthenticatedError
  {
    if Ran(scriptFound, end) then reader + [RunOutcome(flow, end, account)]
    else [EarlyOutcome(flow, scriptFound, end)]
  }

  /** As written, the QR and password logins never notify success, whatever the helper does. */
  lemma AsWrittenNeverAuthenticates(flow: Flow, end: ProcessEnd, reader: seq<Notice>, account: Account)
    requires flow != RefreshFlow
    ensures forall n :: n in OutcomeAsWritten(flow, true, end, reader, account) ==> n.event != Authenticated
    ensures Outcome(flow, true, Exited(0), reader, account)[|reader|] == Notice(Authenticated, AccountArg(account))
  {
  }

  /** As written, a successful refresh notifies success and then an error. */
  lemma AsWrittenRefreshAlsoFails(reader: seq<Notice>, account: Account)
    ensures var r := OutcomeAsWritten(RefreshFlow, true, Exited(0), reader, account);
      r[|r| - 2].event == Authenticated && r[|r| - 1].event == AuthenticatedError
    ensures forall n :: n in reader + [Notice(Authenticated, AccountArg(account))] && n.event == AuthenticatedError ==>
      n in reader
  {
  }

  /** Outside a successful exit, every run ends in exactly one failure notification after the reader's. */
  lemma OutcomeFailureIsLast(flow: Flow, scriptFound: bool, end: ProcessEnd, st: Reader, lines: seq<string>, account: Account)
    requires st.notices == []
    requires !(scriptFound && end == Exited(0))
    ensures var r := Outcome(flow, scriptFound, end, Replay(flow, st, lines).notices, account);
      r[|r| - 1].event in {QrCodeTimeout, AuthenticatedError}
      && forall i :: 0 <= i < |r| - 1 ==> ReaderEvent(r[i].event)
  {
    ReplayShape(flow, st, lines);
  }

  // ----- the orchestrator -----

  class CreateSteamSession {
    /** `already_work`. */
    var alreadyWork: bool
    /** The eight `callback_*` lists. */
    var lists: map<SessionEvent, seq<Callback>>
    /** Every callback thread started so far, in order. */
    var started: seq<Started>

    predicate Valid()
      reads this`lists
    {
      forall e: SessionEvent :: e in lists && Clean(lists[e])
    }

    constructor ()
      ensures Valid() && !alreadyWork && started == []
      ensures forall e: SessionEvent :: lists[e] == []
    {
      alreadyWork := false;
      started := [];
      lists := map[Logout := [], SessionExpired := [], Authenticated := [], AuthenticatedError := [],
                   QrCodeReady := [], QrCodeTimeout := [], ConfirmationDevice := [], ConfirmationEmail := []];
      new;
      forall e: SessionEvent
        ensures e in lists && lists[e] == []
      {
        match e {
          case Logout => case SessionExpired => case Authenticated => case AuthenticatedError =>
          case QrCodeReady => case QrCodeTimeout => case ConfirmationDevice => case ConfirmationEmail =>
        }
      }
    }

    /** `register_callback_*`: a non-callable or already registered function is ignored. */
    method Register(e: SessionEvent, f: Callback)
      requires Valid()
      modifies this
      ensures Valid() && lists == old(lists)[e := RegisteredIn(old(lists)[e], f)]
      ensures alreadyWork == old(alreadyWork) && started == old(started)
    {
      if !f.callable {
        return;
      }
      if f in lists[e] {
        return;
      }
      lists := lists[e := lists[e] + [f]];
    }

    /** `unregister_callback_*`: a callable function is removed when present; otherwise nothing happens. */
    method Unregister(e: SessionEvent, f: Callback)
      requires Valid()
      modifies this
      ensures Valid() && lists == old(lists)[e := UnregisteredIn(old(lists)[e], f)]
      ensures f.callable ==> f !in lists[e]
      ensures alreadyWork == old(alreadyWork) && started == old(started)
    {
      if !f.callable {
        return;
      }
      UnregisterClean(lists[e], f);
      if f in lists[e] {
        lists := lists[e := EventBus.RemoveFirst(lists[e], f)];
      }
    }

    /** `on_callback_*`: one thread per callback of the list, in order. */
    method Fire(e: SessionEvent, p: Payload)
      requires Valid()
      modifies this
      ensures Valid() && lists == old(lists) && alreadyWork == old(alreadyWork)
      ensures started == old(started) + Deliver(lists, [Notice(e, p)])
    {
      var cbs := lists[e];
      var i := 0;
      while i < |cbs|
        invariant 0 <= i <= |cbs| && lists == old(lists) && alreadyWork == old(alreadyWork)
        invariant started == old(started) + Spawns(cbs[..i], p)
      {
        SpawnsNext(cbs, p, i);
        started := started + [Started(cbs[i], p)];
        i := i + 1;
      }
      assert cbs[..i] == cbs;
      DeliverOne(lists, Notice(e, p));
    }

    /** The notification a QR-code or confirmation line raises. */
    static function Raised(line: string, a: Action): Notice
    {
      if a == ShowQr then Notice(QrCodeReady, QrImage(line))
      else if a == AskDevice then Notice(ConfirmationDevice, NoArgs)
      else Notice(ConfirmationEmail, NoArgs)
    }

    /** A line that raises a notification: its callbacks start. */
    method NotifyLine(line: string, a: Action) returns (ghost fired: seq<Notice>)
      requires Valid() && a in {ShowQr, AskDevice, AskEmail}
      modifies this
      ensures Valid() && lists == old(lists) && alreadyWork == old(alreadyWork)
      ensures fired == [Raised(line, a)]
      ensures started == old(started) + Deliver(lists, fired)
    {
      if a == ShowQr {
        Fire(QrCodeReady, QrImage(line));
      } else if a == AskDevice {
        Fire(ConfirmationDevice, NoArgs);
      } else {
        Fire(ConfirmationEmail, NoArgs);
      }
      fired := [Raised(line, a)];
    }

    /** A key line, its value already split off: the account field is set, or `stop` when the line had no `=`. */
    static method KeyLine(value: Option<string>, a: Action, account: Account, ghost st: Reader) returns (stop: bool)
      requires a in {SetName, SetSteamId, SetToken}
      requires st == ReaderStart(account).(notices := st.notices)
      modifies account
      ensures account.session == old(account.session) && account.password == old(account.password)
      ensures account.accessToken == old(account.accessToken) && account.walletInfo == old(account.walletInfo)
      ensures account.lastCheckStatus == old(account.lastCheckStatus)
      ensures account.lastCheckTime == old(account.lastCheckTime)
      ensures SetKey(st, value, a) == ReaderStart(account).(notices := st.notices, stopped := stop)
    {
      if value.None? {
        return true;
      }
      stop := false;
      if a == SetName {
        account.accountName := value;
      } else if a == SetSteamId {
        account.steamId := value;
      } else {
        account.refreshToken := value;
      }
    }

    /** A cookie line: the cookie goes into the session, or `stop` when the line does not parse. */
    static method CookieLine(line: string, account: Account, ghost st: Reader) returns (stop: bool)
      requires st == ReaderStart(account).(notices := st.notices)
      modifies account.session
      ensures Act(st, line, AddCookie) == ReaderStart(account).(notices := st.notices, stopped := stop)
    {
      var cookie := ParseCookieLine(line);
      if cookie.None? {
        return true;
      }
      account.session.SetCookie(cookie.value);
      stop := false;
    }

    /**
     * One line of `read_stdout`, the reader having left the account and its
     * session as `ReaderStart` shows them: `stop` when the line raises; `fired`
     * is what it notified.
     */
    method ReadLine(flow: Flow, raw: string, account: Account, ghost st: Reader)
      returns (stop: bool, ghost fired: seq<Notice>)
      requires Valid() && st == ReaderStart(account).(notices := st.notices)
      modifies this, account, account.session
      ensures Valid() && lists == old(lists) && alreadyWork == old(alreadyWork)
      ensures account.session == old(account.session) && account.password == old(account.password)
      ensures account.accessToken == old(account.accessToken) && account.walletInfo == old(account.walletInfo)
      ensures account.lastCheckStatus == old(account.lastCheckStatus)
      ensures account.lastCheckTime == old(account.lastCheckTime)
      ensures Step(flow, st, raw) == ReaderStart(account).(notices := st.notices + fired, stopped := stop)
      ensures started == old(started) + Deliver(lists, fired)
    {
      var line := Strip(raw);
      var action := if line == "" then Skip else Dispatch(flow, line);
      StepByAction(flow, st, raw, line, action);
      stop, fired := ApplyLine(line, action, account, st);
    }

    /** The branch of `read_stdout` that a stripped, non-empty line takes. */
    method ApplyLine(line: string, action: Action, account: Account, ghost st: Reader)
      returns (stop: bool, ghost fired: seq<Notice>)
      requires Valid() && st == ReaderStart(account).(notices := st.notices)
      modifies this, account, account.session
      ensures Valid() && lists == old(lists) && alreadyWork == old(alreadyWork)
      ensures account.session == old(account.session) && account.password == old(account.password)
      ensures account.accessToken == old(account.accessToken) && account.walletInfo == old(account.walletInfo)
      ensures account.lastCheckStatus == old(account.lastCheckStatus)
      ensures account.lastCheckTime == old(account.lastCheckTime)
      ensures Act(st, line, action) == ReaderStart(account).(notices := st.notices + fired, stopped := stop)
      ensures started == old(started) + Deliver(lists, fired)
    {
      stop, fired := false, [];
      if action in {ShowQr, AskDevice, AskEmail} {
        assert Act(st, line, action) == st.(notices := st.notices + [Raised(line, action)]);
        fired := NotifyLine(line, action);
      } else if action == AddCookie {
        stop := CookieLine(line, account, st);
      } else if action != Skip {
        var value := KeyValue(line);
        assert Act(st, line, action) == SetKey(st, value, action);
        stop := KeyLine(value, action, account, st);
      }
    }

    /** Line `i` of the output, read in the state the earlier lines leave the reader and the started threads in. */
    method ReadAt(flow: Flow, ghost start: Reader, lines: seq<string>, i: nat, account: Account,
                  ghost s0: seq<Started>, ghost notices: seq<Notice>)
      returns (stop: bool, ghost notices': seq<Notice>)
      requires Valid() && i < |lines|
      requires Replay(flow, start, lines[..i]) == ReaderStart(account).(notices := notices)
      requires started == s0 + Deliver(lists, notices)
      modifies this, account, account.session
      ensures Valid() && lists == old(lists) && alreadyWork == old(alreadyWork)
      ensures account.session == old(account.session) && account.password == old(account.password)
      ensures account.accessToken == old(account.accessToken) && account.walletInfo == old(account.walletInfo)
      ensures account.lastCheckStatus == old(account.lastCheckStatus)
      ensures account.lastCheckTime == old(account.lastCheckTime)
      ensures Replay(flow, start, lines[..i + 1]) == ReaderStart(account).(notices := notices', stopped := stop)
      ensures started == s0 + Deliver(lists, notices')
    {
      ReplayNext(flow, start, lines, i);
      ghost var fired;
      ghost var before := started;
      stop, fired := ReadLine(flow, lines[i], account, ReaderStart(account).(notices := notices));
      DeliverMore(lists, s0, notices, fired, before, started);
      notices' := notices + fired;
    }

    /**
     * `read_stdout` over the helper's `lines`: it stops at the end of the
     * output or at the first line that raises.
     */
    method ReadStdout(flow: Flow, lines: seq<string>, account: Account)
      requires Valid()
      modifies this, account, account.session
      ensures Valid() && lists == old(lists) && alreadyWork == old(alreadyWork)
      ensures account.session == old(account.session) && account.password == old(account.password)
      ensures account.accessToken == old(account.accessToken) && account.walletInfo == old(account.walletInfo)
      ensures account.lastCheckStatus == old(account.lastCheckStatus)
      ensures account.lastCheckTime == old(account.lastCheckTime)
      ensures var r := Replay(flow, old(ReaderStart(account)), lines);
        account.accountName == r.name && account.steamId == r.steamId
        && account.refreshToken == r.refreshToken && account.session.cookies == r.cookies
        && started == old(started) + Deliver(lists, r.notices)
    {
      var start := ReaderStart(account);
      ghost var notices: seq<Notice> := [];
      var i := 0;
      var stop := false;
      while i < |lines| && !stop
        invariant 0 <= i <= |lines| && Valid() && lists == old(lists) && alreadyWork == old(alreadyWork)
        invariant account.session == old(account.session) && account.password == old(account.password)
        invariant account.accessToken == old(account.accessToken) && account.walletInfo == old(account.walletInfo)
        invariant account.lastCheckStatus == old(account.lastCheckStatus)
        invariant account.lastCheckTime == old(account.lastCheckTime)
        invariant Replay(flow, start, lines[..i]) == ReaderStart(account).(notices := notices, stopped := stop)
        invariant started == old(started) + Deliver(lists, notices)
      {
        stop, notices := ReadAt(flow, start, lines, i, account, old(started), notices);
        i := i + 1;
      }
      ReplayRest(flow, start, lines, i);
    }

    /**
     * The part every `create_*` flow shares once the busy flag is taken: the
     * missing-script exit, the launch errors, the reader, and the mapping of
     * the helper's end; the flag is released on every path.
     */
    method RunHelper(flow: Flow, scriptFound: bool, end: ProcessEnd, lines: seq<string>, account: Account)
      requires Valid() && alreadyWork
      modifies this, account, account.session
      ensures Valid() && lists == old(lists) && !alreadyWork
      ensures !Ran(scriptFound, end) ==> unchanged(account) && account.session.cookies == old(account.session.cookies)
      ensures Ran(scriptFound, end) ==>
        var r := Replay(flow, old(ReaderStart(account)), lines);
        account.accountName == r.name && account.steamId == r.steamId
        && account.refreshToken == r.refreshToken && account.session.cookies == r.cookies
      ensures var reader := Replay(flow, old(ReaderStart(account)), lines).notices;
        started == old(started) + Deliver(lists, Outcome(flow, scriptFound, end, reader, account))
      ensures account.session == old(account.session) && account.password == old(account.password)
      ensures account.lastCheckTime == old(account.lastCheckTime) && account.lastCheckStatus == old(account.lastCheckStatus)
    {
      if !scriptFound {
        Fire(AuthenticatedError, Message(ScriptNotFound(ScriptName(flow))));
        alreadyWork := false;
        return;
      }
      match end {
        case NodeMissing =>
          Fire(AuthenticatedError, Message(NodeNotInstalled));
        case Raised(text) =>
          Fire(AuthenticatedError, Message(Exception(text)));
        case TimedOut =>
          RunToEnd(flow, end, lines, account);
        case Exited(_) =>
          RunToEnd(flow, end, lines, account);
      }
      alreadyWork := false;
    }

    /** The reader over the whole output, then the notification for how the helper ended. */
    method RunToEnd(flow: Flow, end: ProcessEnd, lines: seq<string>, account: Account)
      requires Valid() && (end.TimedOut? || end.Exited?)
      modifies this, account, account.session
      ensures Valid() && lists == old(lists) && alreadyWork == old(alreadyWork)
      ensures var r := Replay(flow, old(ReaderStart(account)), lines);
        account.accountName == r.name && account.steamId == r.steamId
        && account.refreshToken == r.refreshToken && account.session.cookies == r.cookies
        && started == old(started) + Deliver(lists, r.notices + [RunOutcome(flow, end, account)])
      ensures account.session == old(account.session) && account.password == old(account.password)
      ensures account.lastCheckTime == old(account.lastCheckTime) && account.lastCheckStatus == old(account.lastCheckStatus)
    {
      ghost var r := Replay(flow, ReaderStart(account), lines);
      ReadStdout(flow, lines, account);
      var n := RunOutcome(flow, end, account);
      ghost var before := started;
      Fire(n.event, n.payload);
      DeliverMore(lists, old(started), r.notices, [n], before, started);
    }

    /** `create_qr_code`: a fresh account is filled by the QR helper's output. */
    method CreateQrCode(scriptFound: bool, end: ProcessEnd, lines: seq<string>) returns (account: Account?)
      requires Valid()
      modifies this
      ensures Valid() && lists == old(lists)
      ensures old(alreadyWork) ==> account == null && alreadyWork && started == old(started)
      ensures !old(alreadyWork) ==> !alreadyWork && account != null && fresh(account)
      ensures !old(alreadyWork) && account != null ==>
        var r := Replay(QrFlow, Reader(None, None, None, [], [], false), lines);
        account.password.None?
        && (Ran(scriptFound, end) ==>
              account.accountName == r.name && account.steamId == r.steamId
              && account.refreshToken == r.refreshToken && account.session.cookies == r.cookies)
        && (!Ran(scriptFound, end) ==>
              account.accountName.None? && account.steamId.None? && account.refreshToken.None?
              && account.session.cookies == [])
        && started == old(started) + Deliver(lists, Outcome(QrFlow, scriptFound, end, r.notices, account))
    {
      if alreadyWork {
        return null;
      }
      alreadyWork := true;
      account := new Account();
      RunHelper(QrFlow, scriptFound, end, lines, account);
    }

    /** `create_login_password`: a fresh account with the login and password, filled by the helper's output. */
    method CreateLoginPassword(login: string, password: string, scriptFound: bool, end: ProcessEnd, lines: seq<string>)
      returns (account: Account?)
      requires Valid()
      modifies this
      ensures Valid() && lists == old(lists)
      ensures old(alreadyWork) ==> account == null && alreadyWork && started == old(started)
      ensures !old(alreadyWork) ==> !alreadyWork && account != null && fresh(account)
      ensures !old(alreadyWork) && account != null ==>
        var r := Replay(PasswordFlow, Reader(Some(login), None, None, [], [], false), lines);
        account.password == Some(password)
        && (Ran(scriptFound, end) ==>
              account.accountName == r.name && account.steamId == r.steamId
              && account.refreshToken == r.refreshToken && account.session.cookies == r.cookies)
        && (!Ran(scriptFound, end) ==>
              account.accountName == Some(login) && account.steamId.None? && account.refreshToken.None?
              && account.session.cookies == [])
        && started == old(started) + Deliver(lists, Outcome(PasswordFlow, scriptFound, end, r.notices, account))
    {
      if alreadyWork {
        return null;
      }
      alreadyWork := true;
      account := new Account();
      account.accountName := Some(login);
      account.password := Some(password);
      RunHelper(PasswordFlow, scriptFound, end, lines, account);
    }

    /**
     * `create_refresh_token`: nothing without an account or a refresh token,
     * or while busy; an account whose session is alive (checked at `now`
     * against `home`, `None` when that request raises) is reported
     * authenticated at once, without taking the busy flag; otherwise the
     * refresh helper updates the account.  A raising liveness request is not
     * caught: `raised` passes it on, before the busy flag is taken.
     */
    method CreateRefreshToken(account: Account?, now: int, home: Option<Response>, bus: EventBus.CallbackManager,
                              scriptFound: bool, end: ProcessEnd, lines: seq<string>)
      returns (raised: bool)
      requires Valid()
      requires account != null && Truthy(account.refreshToken) && !alreadyWork ==>
        account.Cached(now) || home.None? || !home.value.ok || account.accountName.Some?
      modifies this, bus
      modifies if account != null then {account, account.session} else {}
      ensures Valid() && lists == old(lists) && !alreadyWork == !old(alreadyWork)
      ensures raised <==> account != null && Truthy(old(account.refreshToken)) && !old(alreadyWork)
                          && !old(account.Cached(now)) && home.None?
      ensures account == null || !Truthy(old(account.refreshToken)) || old(alreadyWork) ==>
        started == old(started) && unchanged(bus)
      ensures account != null && Truthy(old(account.refreshToken)) && !old(alreadyWork) ==>
        (old(account.AliveAt(now, home)) ==>
          started == old(started) + Deliver(lists, [Notice(Authenticated, AccountArg(account))]))
      ensures account != null && Truthy(old(account.refreshToken)) && !old(alreadyWork) && old(account.Cached(now)) ==>
        unchanged(account) && unchanged(account.session) && unchanged(bus)
      ensures raised ==>
        account.lastCheckTime == Some(now) && account.lastCheckStatus == old(account.lastCheckStatus)
        && account.session == old(account.session) && account.password == old(account.password)
        && account.accountName == old(account.accountName) && account.steamId == old(account.steamId)
        && account.refreshToken == old(account.refreshToken)
        && started == old(started) && unchanged(bus)
      ensures account != null && Truthy(old(account.refreshToken)) && !old(alreadyWork) && !old(account.Cached(now))
              && home.Some? ==>
        var alive := AliveIn(home.value, old(account.accountName));
        account.lastCheckTime == Some(now) && account.lastCheckStatus == Some(alive)
        && bus.callbacks == old(bus.callbacks)
        && bus.submitted == old(bus.submitted) +
          (if alive then []
           else EventBus.Triggered(bus.callbacks, EventBus.Event(EventBus.AccountSessionExpired), [EventBus.Ref(account)], map[]))
      ensures account != null && Truthy(old(account.refreshToken)) && !old(alreadyWork) && !old(account.Cached(now))
              && home.Some? && !AliveIn(home.value, old(account.accountName)) ==>
        var r := Replay(RefreshFlow, old(ReaderStart(account)), lines);
        account.session == old(account.session) && account.password == old(account.password)
        && (Ran(scriptFound, end) ==>
              account.accountName == r.name && account.steamId == r.steamId
              && account.refreshToken == r.refreshToken && account.session.cookies == r.cookies)
        && (!Ran(scriptFound, end) ==>
              account.accountName == old(account.accountName) && account.steamId == old(account.steamId)
              && account.refreshToken == old(account.refreshToken) && account.session.cookies == old(account.session.cookies))
        && started == old(started) + Deliver(lists, Outcome(RefreshFlow, scriptFound, end, r.notices, account))
    {
      raised := false;
      if account == null || !Truthy(account.refreshToken) {
        return;
      }
      if alreadyWork {
        return;
      }
      ghost var start := ReaderStart(account);
      var alive;
      alive, raised := account.IsAliveSession(true, now, home, bus);
      if raised {
        return;
      }
      if alive {
        Fire(Authenticated, AccountArg(account));
        return;
      }
      assert ReaderStart(account) == start;
      ghost var checkTime, checkStatus := account.lastCheckTime, account.lastCheckStatus;
      ghost var submitted := bus.submitted;
      alreadyWork := true;
      RunHelper(RefreshFlow, scriptFound, end, lines, account);
      assert bus.submitted == submitted;
      assert account.lastCheckTime == checkTime && account.lastCheckStatus == checkStatus;
    }
  }
}
